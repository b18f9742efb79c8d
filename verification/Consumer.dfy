/** The downstream consumer: counts each event once, however often it is delivered. */
module Consumer {
  import opened Values

  /** What json.loads makes of a message: nothing, something that is not an object with a usable type, or an object. */
  datatype Body = Malformed | Unusable | Object(kind: Option<string>)

  datatype Message = Message(eventId: Option<string>, eventType: Option<string>, body: Body)

  datatype Verdict = Acked | Nacked | Raised

  type Totals = map<string, nat>

  const ZERO_TOTALS: Totals := map["deposit" := 0, "withdrawal" := 0, "transfer" := 0]

  datatype Counted = Counted(seen: set<Option<string>>, totals: Totals)

  function Bump(totals: Totals, kind: Option<string>): Totals {
    if kind.Some? && kind.value in totals then totals[kind.value := totals[kind.value] + 1] else totals
  }

  /** One delivery: a duplicate or an unreadable message leaves the counts alone. */
  function Received(c: Counted, m: Message): Counted {
    if m.eventId in c.seen || !m.body.Object? then c
    else Counted(c.seen + {m.eventId}, Bump(c.totals, m.body.kind))
  }

  function VerdictOn(c: Counted, m: Message): Verdict {
    if m.eventId in c.seen then Acked
    else match m.body
      case Malformed => Nacked
      case Unusable => Raised
      case Object(_) => Acked
  }

  class Deduplicator {
    var seen: set<Option<string>>

    constructor ()
      ensures seen == {}
    {
      seen := {};
    }

    method IsDuplicate(eventId: Option<string>) returns (duplicate: bool)
      ensures duplicate <==> eventId in seen
    {
      duplicate := eventId in seen;
    }

    method Mark(eventId: Option<string>)
      modifies this
      ensures seen == old(seen) + {eventId}
      ensures |seen| == |old(seen)| + if eventId in old(seen) then 0 else 1
    {
      seen := seen + {eventId};
      if eventId in old(seen) {
        assert seen == old(seen);
      }
    }
  }

  class Handler {
    const dedup: Deduplicator
    var totals: Totals

    constructor ()
      ensures fresh(dedup) && State() == Counted({}, ZERO_TOTALS)
    {
      dedup := new Deduplicator();
      totals := ZERO_TOTALS;
    }

    function State(): Counted
      reads this, dedup
    {
      Counted(dedup.seen, totals)
    }

    /** handle: a raised message was neither acknowledged nor marked, so it comes back. */
    method Handle(message: Message) returns (verdict: Verdict)
      modifies this, dedup
      ensures State() == Received(old(State()), message)
      ensures verdict == VerdictOn(old(State()), message)
      ensures verdict == Acked <==> message.eventId in dedup.seen
      ensures verdict == Nacked <==> message.eventId !in old(dedup.seen) && message.body == Malformed
      ensures verdict == Raised <==> message.eventId !in old(dedup.seen) && message.body == Unusable
      ensures verdict != Acked || message.eventId in old(dedup.seen) ==> State() == old(State())
      ensures totals.Keys == old(totals.Keys)
      ensures forall k :: k in totals ==>
        totals[k] == old(totals)[k] +
        if message.eventId !in old(dedup.seen) && message.body == Object(Some(k)) then 1 else 0
    {
      var duplicate := dedup.IsDuplicate(message.eventId);
      if duplicate {
        return Acked;
      }
      match message.body
      case Malformed => return Nacked;
      case Unusable => return Raised;
      case Object(kind) =>
        if kind.Some? && kind.value in totals {
          totals := totals[kind.value := totals[kind.value] + 1];
        }
        dedup.Mark(message.eventId);
        return Acked;
    }
  }

  // ----- Any sequence of deliveries -----

  function Deliveries(c: Counted, messages: seq<Message>): Counted {
    if messages == [] then c else Received(Deliveries(c, messages[..|messages| - 1]), messages[|messages| - 1])
  }

  /** Redelivering anything already handled changes nothing. */
  lemma RedeliveryIsNoOp(c: Counted, messages: seq<Message>, m: Message)
    requires m in messages && m.body.Object?
    ensures Deliveries(c, messages + [m]) == Deliveries(c, messages)
  {
    assert (messages + [m])[..|messages|] == messages;
    HandledIsSeen(c, messages, m);
  }

  lemma {:induction false} HandledIsSeen(c: Counted, messages: seq<Message>, m: Message)
    requires m in messages && m.body.Object?
    ensures m.eventId in Deliveries(c, messages).seen
  {
    if messages[|messages| - 1] != m {
      assert messages == messages[..|messages| - 1] + [messages[|messages| - 1]];
      HandledIsSeen(c, messages[..|messages| - 1], m);
    }
  }
}
