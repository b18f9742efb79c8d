/** The text forms that reach the hash: UUIDs, amounts, and the payload of one chain link with its decoder. */
module Text {
  import opened Values

  // ----- Digits -----

  function DigitChar(d: nat): (c: char)
    requires d < 16
    ensures c != '|' && DigitValue(c) == Some(d)
  {
    "0123456789abcdef"[d]
  }

  function DigitValue(c: char): Option<nat> {
    if '0' <= c <= '9' then Some((c - '0') as nat)
    else if 'a' <= c <= 'f' then Some((c - 'a') as nat + 10)
    else None
  }

  /** Reads a numeral; None when some character is not a digit of the base. */
  function ParseDigits(base: nat, s: string): Option<nat>
    decreases |s|
  {
    if s == "" then Some(0)
    else
      match (ParseDigits(base, s[..|s| - 1]), DigitValue(s[|s| - 1]))
      case (Some(v), Some(d)) => if d < base then Some(v * base + d) else None
      case _ => None
  }

  function NatText(n: nat): (s: string)
    ensures s != "" && '|' !in s
  {
    if n < 10 then [DigitChar(n)] else NatText(n / 10) + [DigitChar(n % 10)]
  }

  lemma {:induction false} ParseNatText(n: nat)
    ensures ParseDigits(10, NatText(n)) == Some(n)
  {
    if n < 10 {
      assert NatText(n)[..0] == "";
    } else {
      ParseNatText(n / 10);
      assert NatText(n)[..|NatText(n)| - 1] == NatText(n / 10);
    }
  }

  function Pow16(n: nat): nat {
    if n == 0 then 1 else 16 * Pow16(n - 1)
  }

  function Hex(n: nat, width: nat): (s: string)
    ensures |s| == width
  {
    if width == 0 then "" else Hex(n / 16, width - 1) + [DigitChar(n % 16)]
  }

  lemma {:induction false} ParseHex(n: nat, width: nat)
    requires n < Pow16(width)
    ensures ParseDigits(16, Hex(n, width)) == Some(n)
  {
    if width > 0 {
      ParseHex(n / 16, width - 1);
      assert Hex(n, width)[..|Hex(n, width)| - 1] == Hex(n / 16, width - 1);
    }
  }

  // ----- UUIDs: 36 characters, section 4 of RFC 9562 -----

  function Hyphened(h: string): (s: string)
    requires |h| == 32
    ensures |s| == 36
  {
    h[..8] + "-" + h[8..12] + "-" + h[12..16] + "-" + h[16..20] + "-" + h[20..]
  }

  function Unhyphened(s: string): (h: string)
    requires |s| == 36
    ensures |h| == 32
  {
    s[..8] + s[9..13] + s[14..18] + s[19..23] + s[24..]
  }

  function UuidText(u: Uuid): (s: string)
    ensures |s| == 36
  {
    Hyphened(Hex(u, 32))
  }

  function ParseUuid(s: string): Option<Uuid>
    requires |s| == 36
  {
    match ParseDigits(16, Unhyphened(s))
    case Some(n) => if n < UUID_SPACE then Some(n) else None
    case None => None
  }

  lemma HexSpace()
    ensures Pow16(32) == UUID_SPACE
  {
    assert Pow16(8) == 0x1_0000_0000;
    assert Pow16(16) == 0x1_0000_0000_0000_0000;
    assert Pow16(24) == 0x1_0000_0000_0000_0000_0000_0000;
  }

  lemma ParseUuidText(u: Uuid)
    ensures ParseUuid(UuidText(u)) == Some(u)
  {
    HexSpace();
    ParseHex(u, 32);
    HyphensOut(Hex(u, 32));
  }

  lemma HyphensOut(h: string)
    requires |h| == 32
    ensures Unhyphened(Hyphened(h)) == h
  {
    var s := Hyphened(h);
    assert s[..8] == h[..8] && s[9..13] == h[8..12] && s[14..18] == h[12..16];
    assert s[19..23] == h[16..20] && s[24..] == h[20..];
  }

  lemma UuidTextInjective(u: Uuid, v: Uuid)
    requires UuidText(u) == UuidText(v)
    ensures u == v
  {
    ParseUuidText(u);
    ParseUuidText(v);
  }

  predicate IsHexDigit(c: char) {
    '0' <= c <= '9' || 'a' <= c <= 'f'
  }

  lemma {:induction false} HexDigits(n: nat, width: nat)
    ensures forall c :: c in Hex(n, width) ==> IsHexDigit(c)
  {
    if width > 0 {
      HexDigits(n / 16, width - 1);
    }
  }

  /** Four hyphens at fixed places, lower-case hexadecimal digits at all others. */
  lemma UuidShape(u: Uuid, k: nat)
    requires k < 36
    ensures if k == 8 || k == 13 || k == 18 || k == 23 then UuidText(u)[k] == '-' else IsHexDigit(UuidText(u)[k])
  {
    var h := Hex(u, 32);
    HexDigits(u, 32);
    assert forall i :: 0 <= i < 32 ==> h[i] in h;
  }

  // ----- Amounts -----

  lemma NatTextNoSign(n: nat)
    ensures NatText(n)[0] != '-'
  {
  }

  /** The text of an amount without its sign. */
  function UnsignedText(a: nat): (s: string)
    ensures s != "" && '|' !in s && s[0] != '-'
  {
    NatTextNoSign(a / 100);
    NatText(a / 100) + "." + [DigitChar(a / 10 % 10), DigitChar(a % 10)]
  }

  /** str() of a decimal quantised to two places. A tampered row may hold a negative amount. */
  function AmountText(cents: int): (s: string)
    ensures '|' !in s
  {
    if cents < 0 then "-" + UnsignedText(-cents) else UnsignedText(cents)
  }

  function ParseUnsigned(t: string): Option<nat> {
    if |t| < 3 || t[|t| - 3] != '.' then None
    else ParseDigits(10, t[..|t| - 3] + t[|t| - 2..])
  }

  function ParseAmount(s: string): Option<int> {
    if s != "" && s[0] == '-' then
      match ParseUnsigned(s[1..])
      case Some(a) => Some(0 - a)
      case None => None
    else
      ParseUnsigned(s)
  }

  /** The digits of an amount, without its point. */
  function CentDigits(a: nat): string {
    NatText(a / 100) + [DigitChar(a / 10 % 10)] + [DigitChar(a % 10)]
  }

  lemma ParseCentDigits(a: nat)
    ensures ParseDigits(10, CentDigits(a)) == Some(a)
  {
    var front := NatText(a / 100) + [DigitChar(a / 10 % 10)];
    ParseNatText(a / 100);
    Digits(a);
    ParseOneMore(NatText(a / 100), a / 100, a / 10 % 10);
    ParseOneMore(front, a / 10, a % 10);
  }

  lemma Digits(a: nat)
    ensures a / 100 * 10 + a / 10 % 10 == a / 10
    ensures a / 10 * 10 + a % 10 == a
  {
  }

  lemma ParseOneMore(s: string, v: nat, d: nat)
    requires ParseDigits(10, s) == Some(v) && d < 10
    ensures ParseDigits(10, s + [DigitChar(d)]) == Some(v * 10 + d)
  {
    var t := s + [DigitChar(d)];
    assert t[..|t| - 1] == s && t[|t| - 1] == DigitChar(d);
  }

  lemma ParseUnsignedText(a: nat)
    ensures ParseUnsigned(UnsignedText(a)) == Some(a)
  {
    var t := UnsignedText(a);
    assert t[..|t| - 3] + t[|t| - 2..] == CentDigits(a);
    ParseCentDigits(a);
  }

  lemma ParseAmountText(cents: int)
    ensures ParseAmount(AmountText(cents)) == Some(cents)
  {
    if cents < 0 {
      var t := UnsignedText(-cents);
      ParseUnsignedText(-cents);
      assert ("-" + t)[0] == '-' && ("-" + t)[1..] == t;
    } else {
      ParseUnsignedText(cents);
    }
  }

  function IntText(n: int): string {
    if n < 0 then "-" + NatText(-n) else "+" + NatText(n)
  }

  /** Where the point goes. */
  function Dot(d: Decimal): (dot: int)
    ensures dot <= |NatText(d.coeff)|
  {
    var left := d.exp + |NatText(d.coeff)|;
    if d.exp <= 0 && left > -6 then left else 1
  }

  /** str() of an unnormalised decimal: plain notation, or scientific when the exponent is positive or tiny. */
  function DecimalText(d: Decimal): string {
    var digits, dot := NatText(d.coeff), Dot(d);
    var exponent := d.exp + |digits| - dot;
    Mantissa(digits, dot) + (if exponent == 0 then "" else "E" + IntText(exponent))
  }

  /** The digits with a point before position dot, and zeros where there are no digits. */
  function Mantissa(digits: string, dot: int): string {
    if dot <= 0 then "0." + Repeat('0', -dot) + digits
    else if dot >= |digits| then digits + Repeat('0', dot - |digits|)
    else digits[..dot] + "." + digits[dot..]
  }

  /** The forms of str(), as section "Conversion to numeric string" of the General Decimal Arithmetic specification has
      them: no point without decimals, a point with them, zeros in front when there are too few digits, and an exponent
      when it is positive or the number is below one millionth. */
  lemma DecimalTextForms(d: Decimal)
    ensures
      var digits, places := NatText(d.coeff), -d.exp;
      DecimalText(d) ==
        if d.exp == 0 then digits
        else if d.exp > 0 || places - |digits| > 5 then
          (if |digits| == 1 then digits else digits[..1] + "." + digits[1..]) + "E" + IntText(|digits| - 1 - places)
        else if |digits| <= places then "0." + Repeat('0', places - |digits|) + digits
        else digits[..|digits| - places] + "." + digits[|digits| - places..]
  {
    hide NatText;
    var digits := NatText(d.coeff);
    assert digits + Repeat('0', 0) == digits;
  }

  lemma SplitCents(cents: nat)
    requires cents >= 100
    ensures NatText(cents) == CentDigits(cents)
  {
    assert cents / 10 / 10 == cents / 100;
    assert NatText(cents / 10) == NatText(cents / 100) + [DigitChar(cents / 10 % 10)];
  }

  /** str() of a decimal with two places and at least three digits. */
  lemma PlainDecimalText(d: Decimal)
    requires d.exp == -2 && |NatText(d.coeff)| > 2
    ensures var digits := NatText(d.coeff);
            DecimalText(d) == digits[..|digits| - 2] + "." + digits[|digits| - 2..]
  {
  }

  lemma NatTextDigits(n: nat)
    requires n < 100
    ensures n < 10 ==> NatText(n) == [DigitChar(n)]
    ensures n >= 10 ==> NatText(n) == [DigitChar(n / 10), DigitChar(n % 10)]
  {
    if n >= 10 {
      assert NatText(n / 10) == [DigitChar(n / 10)];
    }
  }

  lemma SmallDecimalText(cents: nat)
    requires cents < 100
    ensures DecimalText(ReadBack(cents)) == if cents < 10 then "0.0" + NatText(cents) else "0." + NatText(cents)
  {
    NatTextDigits(cents);
    assert Repeat('0', 1) == "0" && Repeat('0', 0) == "";
    assert "0." + Repeat('0', 1) == "0.0" && "0." + Repeat('0', 0) == "0.";
  }

  lemma SmallUnsignedText(a: nat)
    requires a < 100
    ensures UnsignedText(a) == "0." + [DigitChar(a / 10), DigitChar(a % 10)]
  {
    NatTextDigits(0);
    assert a / 100 == 0 && a / 10 % 10 == a / 10;
    assert NatText(a / 100) + "." == "0.";
  }

  lemma SmallAmountText(cents: nat)
    requires cents < 100
    ensures AmountText(cents) == if cents < 10 then "0.0" + NatText(cents) else "0." + NatText(cents)
  {
    SmallUnsignedText(cents);
    NatTextDigits(cents);
    if cents < 10 {
      LeadingZero(DigitChar(cents));
    }
  }

  lemma LeadingZero(c: char)
    ensures "0." + [DigitChar(0), c] == "0.0" + [c]
  {
  }

  /** The two printers agree on values read back from the database. */
  lemma AmountTextIsStr(cents: nat)
    ensures AmountText(cents) == DecimalText(ReadBack(cents))
  {
    if cents < 100 {
      SmallDecimalText(cents);
      SmallAmountText(cents);
    } else {
      SplitCents(cents);
      assert |NatText(cents / 100)| > 0;
      PlainDecimalText(ReadBack(cents));
    }
  }

  // ----- Reading a decimal back -----

  function Before(c: char, s: string): string {
    if s == "" || s[0] == c then "" else [s[0]] + Before(c, s[1..])
  }

  function After(c: char, s: string): string {
    if s == "" then "" else if s[0] == c then s[1..] else After(c, s[1..])
  }

  lemma {:induction false} CutAbsent(c: char, s: string)
    requires c !in s
    ensures Before(c, s) == s && After(c, s) == ""
  {
    if s != "" {
      CutAbsent(c, s[1..]);
    }
  }

  lemma {:induction false} CutFirst(c: char, h: string, t: string)
    requires c !in h
    ensures Before(c, h + [c] + t) == h && After(c, h + [c] + t) == t
  {
    var s := h + [c] + t;
    if h == "" {
      assert s[1..] == t;
    } else {
      assert s[1..] == h[1..] + [c] + t;
      CutFirst(c, h[1..], t);
    }
  }

  function ParseInt(s: string): Option<int> {
    if s == "" then Some(0)
    else
      match ParseDigits(10, s[1..])
      case Some(n) => Some(if s[0] == '-' then 0 - n else n)
      case None => None
  }

  lemma ParseIntText(n: int)
    ensures ParseInt(IntText(n)) == Some(n)
  {
    ParseNatText(if n < 0 then -n else n);
    assert IntText(n)[1..] == NatText(if n < 0 then -n else n);
  }

  /** Decimal(text): the digits without their point, and the exponent less the digits behind it. */
  function ParseDecimal(s: string): Option<Decimal> {
    var m := Before('E', s);
    match (ParseDigits(10, Before('.', m) + After('.', m)), ParseInt(After('E', s)))
    case (Some(coeff), Some(e)) => Some(Decimal(coeff, e - |After('.', m)|))
    case _ => None
  }

  predicate AllDigits(s: string) {
    forall c :: c in s ==> '0' <= c <= '9'
  }

  /** A natural number is printed in decimal digits without leading zeros. */
  lemma {:induction false} NatTextIsDigits(n: nat)
    ensures AllDigits(NatText(n))
    ensures n > 0 ==> NatText(n)[0] != '0'
    ensures n == 0 ==> NatText(n) == "0"
  {
    if n >= 10 {
      NatTextIsDigits(n / 10);
    }
  }

  lemma {:induction false} ParseZeros(n: nat)
    ensures ParseDigits(10, Repeat('0', n)) == Some(0)
  {
    if n > 0 {
      ParseZeros(n - 1);
      assert Repeat('0', n)[..n - 1] == Repeat('0', n - 1);
    }
  }

  lemma {:induction false} LeadingZeros(n: nat, s: string)
    ensures ParseDigits(10, Repeat('0', n) + s) == ParseDigits(10, s)
    decreases |s|
  {
    var t := Repeat('0', n) + s;
    if s == "" {
      assert t == Repeat('0', n);
      ParseZeros(n);
    } else {
      assert t[..|t| - 1] == Repeat('0', n) + s[..|s| - 1];
      LeadingZeros(n, s[..|s| - 1]);
    }
  }

  lemma {:induction false} OneZeroMore(n: nat)
    ensures "0" + Repeat('0', n) == Repeat('0', n + 1)
  {
    if n > 0 {
      OneZeroMore(n - 1);
    }
  }

  lemma DigitsOnly(digits: string, k: nat)
    requires AllDigits(digits) && k <= |digits|
    ensures '.' !in digits[..k] && 'E' !in digits[..k] && 'E' !in digits[k..]
  {
    assert forall c :: c in digits[..k] ==> c in digits;
    assert forall c :: c in digits[k..] ==> c in digits;
  }

  /** The mantissa's two parts hold the digits, after zeros, with |digits| - dot of them behind the point. */
  lemma MantissaParts(digits: string, dot: int) returns (zeros: nat)
    requires AllDigits(digits) && dot <= |digits|
    ensures var m := Mantissa(digits, dot);
      && 'E' !in m
      && Before('.', m) + After('.', m) == Repeat('0', zeros) + digits
      && |After('.', m)| == |digits| - dot
  {
    if dot <= 0 {
      zeros := 1 - dot;
      SmallMantissa(digits, dot);
    } else if dot == |digits| {
      zeros := 0;
      assert Mantissa(digits, dot) == digits == digits[..dot];
      DigitsOnly(digits, dot);
      CutAbsent('.', digits);
    } else {
      zeros := 0;
      var whole, behind := digits[..dot], digits[dot..];
      DigitsOnly(digits, dot);
      CutFirst('.', whole, behind);
      assert Mantissa(digits, dot) == whole + ['.'] + behind;
      assert whole + behind == digits;
    }
  }

  lemma SmallMantissa(digits: string, dot: int)
    requires AllDigits(digits) && dot <= 0
    ensures var m := Mantissa(digits, dot);
      && 'E' !in m
      && Before('.', m) + After('.', m) == Repeat('0', 1 - dot) + digits
      && |After('.', m)| == |digits| - dot
  {
    var behind := Repeat('0', -dot) + digits;
    assert Mantissa(digits, dot) == "0" + ['.'] + behind;
    CutFirst('.', "0", behind);
    OneZeroMore(-dot);
    assert "0" + behind == ("0" + Repeat('0', -dot)) + digits;
    assert digits[..|digits|] == digits;
    DigitsOnly(digits, |digits|);
  }

  /** Reading a mantissa and an exponent that were printed one after the other. */
  lemma ParseParts(m: string, tail: string, exponent: int)
    requires 'E' !in m
    requires tail == (if exponent == 0 then "" else "E" + IntText(exponent))
    ensures Before('E', m + tail) == m && ParseInt(After('E', m + tail)) == Some(exponent)
  {
    if exponent == 0 {
      assert m + tail == m;
      CutAbsent('E', m);
    } else {
      CutFirst('E', m, IntText(exponent));
      ParseIntText(exponent);
      assert m + tail == m + ['E'] + IntText(exponent);
    }
  }

  lemma ParsePrinted(m: string, tail: string, exponent: int, zeros: nat, coeff: nat)
    requires 'E' !in m && tail == (if exponent == 0 then "" else "E" + IntText(exponent))
    requires Before('.', m) + After('.', m) == Repeat('0', zeros) + NatText(coeff)
    ensures ParseDecimal(m + tail) == Some(Decimal(coeff, exponent - |After('.', m)|))
  {
    hide ParseDigits, NatText, Repeat, Before, After, ParseInt, IntText;
    ParseParts(m, tail, exponent);
    ParseNatText(coeff);
    LeadingZeros(zeros, NatText(coeff));
  }

  /** str() loses nothing of a decimal, not even its trailing zeros. */
  lemma ParseDecimalText(d: Decimal)
    ensures ParseDecimal(DecimalText(d)) == Some(d)
  {
    var digits, dot := NatText(d.coeff), Dot(d);
    var exponent := d.exp + |digits| - dot;
    var m, tail := Mantissa(digits, dot), if exponent == 0 then "" else "E" + IntText(exponent);
    NatTextIsDigits(d.coeff);
    var zeros := MantissaParts(digits, dot);
    ParsePrinted(m, tail, exponent, zeros, d.coeff);
  }

  lemma DecimalTextInjective(d: Decimal, e: Decimal)
    requires DecimalText(d) == DecimalText(e)
    ensures d == e
  {
    ParseDecimalText(d);
    ParseDecimalText(e);
  }

  // ----- Transaction types -----

  function TypeText(k: TxnType): (s: string)
    ensures '|' !in s
  {
    match k
    case Deposit => "deposit"
    case Withdrawal => "withdrawal"
    case Transfer => "transfer"
  }

  function ParseType(s: string): Option<TxnType> {
    if s == "deposit" then Some(Deposit)
    else if s == "withdrawal" then Some(Withdrawal)
    else if s == "transfer" then Some(Transfer)
    else None
  }

  lemma ParseTypeText(k: TxnType)
    ensures ParseType(TypeText(k)) == Some(k)
  {
    assert "deposit"[0] != "withdrawal"[0] && "deposit"[0] != "transfer"[0] && "withdrawal"[0] != "transfer"[0];
  }

  // ----- The chain payload -----

  function Payload(f: Fields): string {
    UuidText(f.id) + "|" + f.key + "|" + TypeText(f.kind) + "|" + AmountText(f.cents) + "|" + f.requestHash + "|" +
    f.prev
  }

  /** Splits at the last separator. */
  function CutLast(s: string): Option<(string, string)>
    decreases |s|
  {
    if s == "" then None
    else
      var n := |s| - 1;
      if s[n] == '|' then Some((s[..n], ""))
      else
        match CutLast(s[..n])
        case Some((h, t)) => Some((h, t + [s[n]]))
        case None => None
  }

  lemma {:induction false} CutLastJoin(h: string, t: string)
    requires '|' !in t
    ensures CutLast(h + "|" + t) == Some((h, t))
    decreases |t|
  {
    var s := h + "|" + t;
    if t == "" {
      assert s[..|s| - 1] == h;
    } else {
      var t' := t[..|t| - 1];
      assert s[..|s| - 1] == h + "|" + t';
      CutLastJoin(h, t');
      assert t == t' + [t[|t| - 1]];
    }
  }

  /** Reads the id from the left and everything but the key from the right. */
  function DecodePayload(s: string): Option<Fields> {
    match CutLast(s)
    case None => None
    case Some((s4, prev)) =>
      match CutLast(s4)
      case None => None
      case Some((s3, requestHash)) =>
        match CutLast(s3)
        case None => None
        case Some((s2, amount)) =>
          match CutLast(s2)
          case None => None
          case Some((s1, kind)) =>
            if |s1| < 37 || s1[36] != '|' then None
            else
              match (ParseUuid(s1[..36]), ParseType(kind), ParseAmount(amount))
              case (Some(id), Some(k), Some(cents)) => Some(Fields(id, s1[37..], k, cents, requestHash, prev))
              case _ => None
  }

  /** The decoder inverts the printer for every idempotency key, even one full of separators. */
  lemma DecodeInvertsPayload(f: Fields)
    requires '|' !in f.requestHash && '|' !in f.prev
    ensures DecodePayload(Payload(f)) == Some(f)
  {
    var s1 := UuidText(f.id) + "|" + f.key;
    var s2 := s1 + "|" + TypeText(f.kind);
    var s3 := s2 + "|" + AmountText(f.cents);
    var s4 := s3 + "|" + f.requestHash;
    CutLastJoin(s4, f.prev);
    CutLastJoin(s3, f.requestHash);
    CutLastJoin(s2, AmountText(f.cents));
    CutLastJoin(s1, TypeText(f.kind));
    IdAndKey(f.id, f.key);
    ParseTypeText(f.kind);
    ParseAmountText(f.cents);
  }

  lemma IdAndKey(id: Uuid, key: string)
    ensures var s := UuidText(id) + "|" + key;
      |s| >= 37 && s[36] == '|' && ParseUuid(s[..36]) == Some(id) && s[37..] == key
  {
    var s := UuidText(id) + "|" + key;
    ParseUuidText(id);
    assert s[..36] == UuidText(id);
  }

  lemma SameTail(h: string, t: string, h': string, t': string)
    requires h + "|" + t == h' + "|" + t'
    requires '|' !in t && |t'| <= |t|
    ensures h == h' && t == t'
  {
    var s := h + "|" + t;
    assert forall k :: |h| < k < |s| ==> s[k] == t[k - |h| - 1];
    assert s[|h'|] == '|';
    assert h == s[..|h|] && h' == s[..|h'|] && t == s[|h| + 1..] && t' == s[|h'| + 1..];
  }

  /** Two links with the same payload carry the same fields, when one of them is honest (its hashes are digests)
      and the other merely fits its columns, whose request_hash and prev_hash hold at most 64 characters. */
  lemma PayloadInjective(f: Fields, g: Fields)
    requires |f.requestHash| == 64 && '|' !in f.requestHash && |f.prev| == 64 && '|' !in f.prev
    requires |g.requestHash| <= 64 && |g.prev| <= 64
    requires Payload(f) == Payload(g)
    ensures f == g
  {
    var s1, r1 := UuidText(f.id) + "|" + f.key, UuidText(g.id) + "|" + g.key;
    var s2, r2 := s1 + "|" + TypeText(f.kind), r1 + "|" + TypeText(g.kind);
    var s3, r3 := s2 + "|" + AmountText(f.cents), r2 + "|" + AmountText(g.cents);
    SameTail(s3 + "|" + f.requestHash, f.prev, r3 + "|" + g.requestHash, g.prev);
    SameTail(s3, f.requestHash, r3, g.requestHash);
    DecodeInvertsPayload(f);
    DecodeInvertsPayload(g);
  }

  function Join(s: string, t: string): string {
    s + "|" + t
  }

  lemma JoinAssociates(s: string, t: string, u: string)
    ensures Join(s, Join(t, u)) == Join(Join(s, t), u)
  {
  }

  lemma PayloadIsJoin(f: Fields)
    ensures Payload(f) ==
            Join(Join(Join(Join(Join(UuidText(f.id), f.key), TypeText(f.kind)), AmountText(f.cents)), f.requestHash),
                 f.prev)
  {
  }

  /** Without that, one text stands for two links: when the first link's prev_hash holds separators, the second link's
      key can swallow the first link's other fields. */
  lemma PayloadAmbiguous(f: Fields, g: Fields)
    requires f.prev == Join(Join(Join(TypeText(g.kind), AmountText(g.cents)), g.requestHash), g.prev)
    requires g.id == f.id && g.key == Join(Join(Join(f.key, TypeText(f.kind)), AmountText(f.cents)), f.requestHash)
    ensures f != g && Payload(f) == Payload(g)
  {
    var u, k, a, t, c := UuidText(f.id), TypeText(f.kind), AmountText(f.cents), TypeText(g.kind), AmountText(g.cents);
    var x := Join(Join(Join(Join(u, f.key), k), a), f.requestHash);
    PayloadIsJoin(f);
    PayloadIsJoin(g);
    JoinAssociates(x, Join(Join(t, c), g.requestHash), g.prev);
    JoinAssociates(x, Join(t, c), g.requestHash);
    JoinAssociates(x, t, c);
    JoinAssociates(u, Join(Join(f.key, k), a), f.requestHash);
    JoinAssociates(u, Join(f.key, k), a);
    JoinAssociates(u, f.key, k);
    assert |g.key| > |f.key|;
  }

  /** The same through request_hash: even two links with one and the same prev_hash can share a payload when the
      first link's request_hash is not a digest. */
  lemma RequestHashAmbiguous(f: Fields, g: Fields)
    requires f.prev == g.prev && f.requestHash == Join(Join(TypeText(g.kind), AmountText(g.cents)), g.requestHash)
    requires g.id == f.id && g.key == Join(Join(f.key, TypeText(f.kind)), AmountText(f.cents))
    ensures f != g && Payload(f) == Payload(g)
  {
    var u, k, a, t, c := UuidText(f.id), TypeText(f.kind), AmountText(f.cents), TypeText(g.kind), AmountText(g.cents);
    var x := Join(Join(Join(u, f.key), k), a);
    PayloadIsJoin(f);
    PayloadIsJoin(g);
    JoinAssociates(x, Join(t, c), g.requestHash);
    JoinAssociates(x, t, c);
    JoinAssociates(u, Join(f.key, k), a);
    JoinAssociates(u, f.key, k);
    assert |g.key| > |f.key|;
  }

  /** The digests as the code computes them: SHA-256 of the payload, and of the JSON text. */
  function Sha256(sha: string -> Digest, json: Canonical -> string): Env {
    Env((f: Fields) => sha(Payload(f)), (c: Canonical) => sha(json(c)))
  }
}
