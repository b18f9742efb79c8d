/** The values the ledger stores and exchanges: rows of the four tables, requests, and Python decimals. */
module Values {

  datatype Option<+T> = None | Some(value: T) {
    function Or(default: T): T {
      if Some? then value else default
    }
  }

  const UUID_SPACE: nat := 0x1_0000_0000_0000_0000_0000_0000_0000_0000

  /** UUIDs compare as 128-bit integers, both in Python and in PostgreSQL. */
  type Uuid = n: nat | n < UUID_SPACE

  function Repeat(c: char, n: nat): (s: string)
    ensures |s| == n && forall x :: x in s ==> x == c
  {
    if n == 0 then "" else Repeat(c, n - 1) + [c]
  }

  const GENESIS_HASH: string := Repeat('0', 64)

  /** What SHA-256 returns: 64 characters, none of them the payload separator. */
  type Digest = s: string | |s| == 64 && '|' !in s witness GENESIS_HASH

  datatype TxnType = Deposit | Withdrawal | Transfer

  /** A finite non-negative Python decimal, kept unnormalised: coeff * 10^exp. */
  datatype Decimal = Decimal(coeff: nat, exp: int)

  function Pow10(n: nat): (p: nat)
    ensures p > 0
  {
    if n == 0 then 1 else 10 * Pow10(n - 1)
  }

  /** The amount is a whole number of cents, however many trailing zeros it carries. */
  predicate WholeCents(d: Decimal) {
    d.exp < -2 ==> Remainder(d) == 0
  }

  /** Decimal.quantize(Decimal("0.01")), in cents: round half to even. */
  function QuantizedCents(d: Decimal): nat {
    if d.exp >= -2 then Scaled(d.coeff, d.exp + 2)
    else
      var q, r, p := Quotient(d), Remainder(d), Pow10(-2 - d.exp);
      if 2 * r < p || (2 * r == p && q % 2 == 0) then q else q + 1
  }

  /** Storing into a NUMERIC(12,2) column, in cents: round half away from zero. */
  function StoredCents(d: Decimal): nat {
    if d.exp >= -2 then Scaled(d.coeff, d.exp + 2)
    else if 2 * Remainder(d) < Pow10(-2 - d.exp) then Quotient(d)
    else Quotient(d) + 1
  }

  function Scaled(n: nat, zeros: nat): (m: nat)
    ensures n > 0 ==> m > 0
  {
    n * Pow10(zeros)
  }

  lemma MulStep(a: nat, k: nat)
    ensures a * k >= 0 && (a + 1) * k == a * k + k
  {
  }

  lemma DivMod(a: nat, b: nat)
    requires b > 0
    ensures a / b >= 0
    ensures a / b == 0 ==> a % b == a
  {
  }

  function Quotient(d: Decimal): (q: nat)
    requires d.exp < -2
    ensures q == 0 && d.coeff > 0 ==> Remainder(d) > 0
  {
    DivMod(d.coeff, Pow10(-2 - d.exp));
    d.coeff / Pow10(-2 - d.exp)
  }

  function Remainder(d: Decimal): nat
    requires d.exp < -2
  {
    d.coeff % Pow10(-2 - d.exp)
  }

  /** The value read back from a NUMERIC(12,2) column. */
  function ReadBack(cents: nat): Decimal {
    Decimal(cents, -2)
  }

  /** The hashed form of an amount survives storage exactly when the two roundings agree: always, except for
      an amount that lies halfway between two cents, above an even one. */
  lemma QuantizeSurvivesStorage(d: Decimal)
    ensures QuantizedCents(d) == QuantizedCents(ReadBack(StoredCents(d))) <==> !HalfwayAboveEven(d)
    ensures WholeCents(d) ==> !HalfwayAboveEven(d) && QuantizedCents(d) == StoredCents(d)
    ensures WholeCents(d) && d.coeff > 0 ==> StoredCents(d) > 0
  {
    QuantizeReadBack(StoredCents(d));
  }

  // ----- What the stored and the hashed cents are, for every decimal -----

  lemma DivModTimesTen(c: nat, p: nat)
    requires p > 0
    ensures 10 * c / (10 * p) == c / p && 10 * c % (10 * p) == 10 * (c % p)
  {
    var q, r := c / p, c % p;
    assert 10 * c == q * (10 * p) + 10 * r && 0 <= 10 * r < 10 * p;
    DivModUnique(10 * c, 10 * p, q, 10 * r);
  }

  lemma DivModUnique(a: nat, b: nat, q: nat, r: nat)
    requires b > 0 && a == q * b + r && r < b
    ensures a / b == q && a % b == r
  {
    var q', r' := a / b, a % b;
    assert (q - q') * b == r' - r;
    if q != q' {
      MulAtLeast(q - q', b);
    }
  }

  lemma MulAtLeast(x: int, b: int)
    requires x != 0 && b >= 0
    ensures x * b >= b || x * b <= -b
  {
  }

  /** A trailing zero changes neither what is stored nor what is hashed, and cents are cents: together these fix both
      for every amount with at most two decimals. */
  lemma TrailingZero(c: nat, e: int)
    ensures StoredCents(Decimal(10 * c, e - 1)) == StoredCents(Decimal(c, e))
    ensures QuantizedCents(Decimal(10 * c, e - 1)) == QuantizedCents(Decimal(c, e))
    ensures StoredCents(Decimal(c, -2)) == QuantizedCents(Decimal(c, -2)) == c
  {
    assert Pow10(0) == 1 && Pow10(1) == 10;
    if e >= -1 {
      assert Pow10(e + 2) == 10 * Pow10(e + 1);
      TimesTen(c, Pow10(e + 1));
    } else if e < -2 {
      assert Pow10(-2 - (e - 1)) == 10 * Pow10(-2 - e);
      DivModTimesTen(c, Pow10(-2 - e));
    }
  }

  /** Which amounts are whole cents: those with two decimals or fewer, trailing zeros not counted. */
  lemma WholeTrailingZero(c: nat, e: int)
    ensures WholeCents(Decimal(10 * c, e - 1)) == WholeCents(Decimal(c, e))
    ensures e >= -2 ==> WholeCents(Decimal(c, e))
    ensures e < -2 && c % 10 != 0 ==> !WholeCents(Decimal(c, e))
  {
    if e == -2 {
      assert Pow10(0) == 1 && Pow10(1) == 10;
    } else if e < -2 {
      assert Pow10(-2 - (e - 1)) == 10 * Pow10(-2 - e);
      assert Pow10(-2 - e) == 10 * Pow10(-3 - e);
      DivModTimesTen(c, Pow10(-2 - e));
      if c % Pow10(-2 - e) == 0 {
        WholeEndsInZero(c, Pow10(-3 - e));
      }
    }
  }

  lemma WholeEndsInZero(c: nat, p: nat)
    requires p > 0 && c % (10 * p) == 0
    ensures c % 10 == 0
  {
    var q := c / (10 * p);
    assert c == q * (10 * p) == 10 * (q * p);
  }

  lemma TimesTen(c: nat, p: nat)
    ensures 10 * c * p == c * (10 * p)
  {
  }

  function Distance(a: int, b: int): nat {
    if a <= b then b - a else a - b
  }

  /** With more than two decimals both are a nearest cent. Halfway between two, the stored value is the larger one and
      the hashed value the even one. */
  lemma NearestCent(c: nat, e: int)
    requires e < -2
    ensures
      var unit := Pow10(-2 - e);
      var stored, quantized := StoredCents(Decimal(c, e)), QuantizedCents(Decimal(c, e));
      && 2 * Distance(stored * unit, c) <= unit
      && 2 * Distance(quantized * unit, c) <= unit
      && (2 * Distance(stored * unit, c) == unit ==> stored * unit > c)
      && (2 * Distance(quantized * unit, c) == unit ==> quantized % 2 == 0)
  {
    var unit := Pow10(-2 - e);
    var q, r := c / unit, c % unit;
    assert c == q * unit + r;
    assert (q + 1) * unit == q * unit + unit;
  }

  predicate HalfwayAboveEven(d: Decimal) {
    d.exp < -2 && 2 * Remainder(d) == Pow10(-2 - d.exp) && Quotient(d) % 2 == 0
  }

  lemma QuantizeReadBack(cents: nat)
    ensures QuantizedCents(ReadBack(cents)) == cents
  {
    assert Pow10(0) == 1;
  }

  /** The body of POST /transactions, after schema validation. */
  datatype Request = Request(
    key: string,
    kind: TxnType,
    amount: Decimal,
    account: Option<Uuid>,
    from: Option<Uuid>,
    to: Option<Uuid>,
    reference: Option<string>)

  /** What the request schema guarantees of an amount: positive, at most two decimal places. */
  predicate Accepted(req: Request) {
    req.amount.coeff > 0 && WholeCents(req.amount)
  }

  /** The dictionary that is dumped to JSON and hashed to recognise a retry. */
  datatype Canonical = Canonical(
    kind: TxnType,
    amount: string,
    account: Option<Uuid>,
    from: Option<Uuid>,
    to: Option<Uuid>,
    reference: Option<string>)

  /** What one chain link commits to. */
  datatype Fields = Fields(id: Uuid, key: string, kind: TxnType, cents: int, requestHash: string, prev: string)

  /** The two digests the ledger computes: of a chain link, and of a canonical request. Text.Sha256 builds
      them from SHA-256 and json.dumps; only what follows from their types is used elsewhere. */
  datatype Env = Env(link: Fields -> Digest, request: Canonical -> Digest)

  datatype Account = Account(id: Uuid, name: string, isSystem: bool)

  datatype Txn = Txn(
    id: Uuid,
    key: string,
    kind: TxnType,
    cents: int,
    requestHash: string,
    prevHash: Option<string>,
    chainHash: Option<string>,
    chainSeq: Option<int>,
    reference: Option<string>,
    createdAt: int)

  datatype Entry = Entry(id: Uuid, txnId: Uuid, accountId: Uuid, cents: int)

  /** An outbox row. Its published_at column is kept beside it, see module Delivery. */
  datatype Event = Event(id: Uuid, aggregateId: Uuid, eventType: string, payload: EventPayload, createdAt: int)

  datatype EventPayload = EventPayload(
    txnId: string,
    kind: string,
    amount: string,
    key: string,
    reference: Option<string>)

  /** The four tables. A commit appends, so each sequence is in commit order; no query depends on that order. */
  datatype Db = Db(accounts: seq<Account>, txns: seq<Txn>, entries: seq<Entry>, events: seq<Event>)

  const EMPTY := Db([], [], [], [])

  function Apply(db: Db, more: Db): Db {
    Db(db.accounts + more.accounts, db.txns + more.txns, db.entries + more.entries, db.events + more.events)
  }
}
