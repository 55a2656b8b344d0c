/** One peer-delay exchange: request, publication of its transmit time T1, response and
    Follow_Up, with a Follow_Up that arrives before T1 retained and replayed, expiry
    counted once per published request, and conflicting replies latched. */
module PeerExchange {
  import opened Arith
  import opened CapableReceive

  const MAX_LOST: nat := 65535

  datatype Timespec = Timespec(sec: int, nsec: int)

  /** A wire timestamp: 48-bit seconds and a 32-bit nanosecond field. */
  datatype Stamp = Stamp(sec: nat, nsec: uint32)

  datatype Header = Header(messageType: byte, reserved: byte, sequence: uint16, source: PortId, correction: int)

  datatype Response = Response(header: Header, received: Stamp, requester: PortId)

  datatype FollowUp = FollowUp(header: Header, origin: Stamp, requester: PortId)

  const ZERO_HEADER := Header(0, 0, 0, ZERO_PORT, 0)
  const ZERO_RESPONSE := Response(ZERO_HEADER, Stamp(0, 0), ZERO_PORT)
  const ZERO_FOLLOW_UP := FollowUp(ZERO_HEADER, Stamp(0, 0), ZERO_PORT)

  datatype Exchange = Exchange(generation: uint32, lifecycle: uint32, sequence: uint16, requester: PortId,
                               deadlineUs: int, published: bool, responseSeen: bool, consumed: bool, multiple: bool,
                               lossCounted: bool, sending: bool, followUpPending: bool, pendingFollowUp: FollowUp,
                               lost: nat, transmit: Timespec, receive: Timespec, response: Response)

  const ZERO := Exchange(0, 0, 0, ZERO_PORT, 0, false, false, false, false, false, false, false, ZERO_FOLLOW_UP,
                         0, Timespec(0, 0), Timespec(0, 0), ZERO_RESPONSE)

  datatype Measurement = Measurement(generation: uint32, lifecycle: uint32, transmit: Timespec, receive: Timespec,
                                     response: Response)

  datatype Admission = Ignored | Accepted | Multiple | Duplicate | Self

  predicate ValidTime(t: Timespec) { 0 <= t.nsec < BILLION }

  predicate ValidStamp(s: Stamp) { s.nsec < BILLION }

  /** A link change: everything is forgotten. */
  function Invalidate(e: Exchange): Exchange {
    ZERO.(generation := Next32(e.generation), lifecycle := Next32(e.lifecycle))
  }

  /** The next generation of the same link: only the losses are remembered. */
  function Abandon(e: Exchange): Exchange {
    ZERO.(generation := Next32(e.generation), lifecycle := e.lifecycle, lost := e.lost)
  }

  predicate Expires(e: Exchange, now: int) {
    e.published && !e.consumed && !e.lossCounted && now >= e.deadlineUs
  }

  function Expire(e: Exchange, now: int): Exchange {
    if !Expires(e, now) then e
    else e.(lossCounted := true, lost := if e.lost < MAX_LOST then e.lost + 1 else e.lost)
  }

  function Begin(e: Exchange, sequence: uint16, requester: PortId, deadlineUs: int): Exchange {
    Abandon(e).(sequence := sequence, requester := requester, deadlineUs := deadlineUs, sending := true)
  }

  predicate Publishes(e: Exchange, generation: uint32, transmit: Timespec, now: int) {
    e.generation == generation && e.sending && !e.published && now < e.deadlineUs && ValidTime(transmit)
  }

  function Publish(e: Exchange, generation: uint32, transmit: Timespec, now: int): Exchange {
    if !Publishes(e, generation, transmit, now) then e
    else e.(transmit := transmit, published := true, sending := false)
  }

  function Cancel(e: Exchange, generation: uint32): Exchange {
    if e.generation != generation then e
    else e.(sending := false, published := false, responseSeen := false, followUpPending := false)
  }

  /** The exchange is open and the message answers its request. */
  predicate Open(e: Exchange, now: int) {
    (e.published || e.sending) && !e.multiple && now < e.deadlineUs
  }

  predicate Answers(e: Exchange, header: Header, requester: PortId) {
    header.sequence == e.sequence && requester == e.requester
  }

  function Admit(e: Exchange, r: Response, receive: Timespec, now: int): Admission {
    if !Answers(e, r.header, r.requester) || !Open(e, now) || !ValidStamp(r.received) || !ValidTime(receive)
    then Ignored
    else if r.header.source[..8] == e.requester[..8] then Self
    else if e.responseSeen then (if r.header.source != e.response.header.source then Multiple else Duplicate)
    else Accepted
  }

  function Respond(e: Exchange, r: Response, receive: Timespec, now: int): Exchange {
    match Admit(e, r, receive, now)
    case Ignored => e
    case Accepted => e.(response := r, receive := receive, responseSeen := true)
    case _ => e.(multiple := true)
  }

  /** A Follow_Up that belongs to the exchange and to its responder. */
  predicate Completes(e: Exchange, f: FollowUp, now: int) {
    && Open(e, now) && Answers(e, f.header, f.requester) && e.responseSeen
    && ValidStamp(f.origin) && f.header.source == e.response.header.source
  }

  datatype Outcome = Rejected | Clash | Retained | Measured(measurement: Measurement)

  function Classify(e: Exchange, f: FollowUp, now: int): Outcome {
    if !Completes(e, f, now) then Rejected
    else if e.consumed || e.followUpPending then Clash
    else if !e.published then Retained
    else Measured(Measurement(e.generation, e.lifecycle, e.transmit, e.receive, e.response))
  }

  function Finish(e: Exchange, f: FollowUp, now: int): Exchange {
    match Classify(e, f, now)
    case Rejected => e
    case Clash => e.(multiple := true)
    case Retained => e.(pendingFollowUp := f, followUpPending := true)
    case Measured(_) => e.(consumed := true, lost := 0)
  }

  predicate Takes(e: Exchange, now: int) {
    e.published && e.followUpPending && !e.multiple && !e.consumed && now < e.deadlineUs
  }

  function Take(e: Exchange, now: int): Exchange {
    if Takes(e, now) then e.(followUpPending := false) else e
  }

  class PeerExchanger {
    var generation: uint32
    var lifecycle: uint32
    var sequence: uint16
    var requester: PortId
    var deadlineUs: int
    var published: bool
    var responseSeen: bool
    var consumed: bool
    var multiple: bool
    var lossCounted: bool
    var sending: bool
    var followUpPending: bool
    var pendingFollowUp: FollowUp
    var lost: nat
    var transmit: Timespec
    var receive: Timespec
    var response: Response

    function Value(): Exchange
      reads this
    {
      Exchange(generation, lifecycle, sequence, requester, deadlineUs, published, responseSeen, consumed, multiple,
               lossCounted, sending, followUpPending, pendingFollowUp, lost, transmit, receive, response)
    }

    constructor ()
      ensures Value() == ZERO
    {
      generation, lifecycle, sequence, requester, deadlineUs := 0, 0, 0, ZERO_PORT, 0;
      published, responseSeen, consumed, multiple, lossCounted, sending := false, false, false, false, false, false;
      followUpPending, pendingFollowUp, lost := false, ZERO_FOLLOW_UP, 0;
      transmit, receive, response := Timespec(0, 0), Timespec(0, 0), ZERO_RESPONSE;
    }

    /** Clears the request and its flags. */
    method ClearRequest()
      modifies this`sequence, this`requester, this`deadlineUs, this`published,
               this`sending, this`consumed, this`lossCounted, this`transmit
      ensures sequence == 0 && requester == ZERO_PORT && deadlineUs == 0 && transmit == Timespec(0, 0)
      ensures !published && !sending && !consumed && !lossCounted
    {
      sequence := 0;
      requester := ZERO_PORT;
      deadlineUs := 0;
      published := false;
      sending := false;
      consumed := false;
      lossCounted := false;
      transmit := Timespec(0, 0);
    }

    /** Clears what was received for it. */
    method ClearReplies()
      modifies this`responseSeen, this`multiple, this`followUpPending, this`pendingFollowUp, this`receive, this`response
      ensures !responseSeen && !multiple && !followUpPending && pendingFollowUp == ZERO_FOLLOW_UP
      ensures receive == Timespec(0, 0) && response == ZERO_RESPONSE
    {
      responseSeen := false;
      multiple := false;
      followUpPending := false;
      pendingFollowUp := ZERO_FOLLOW_UP;
      receive := Timespec(0, 0);
      response := ZERO_RESPONSE;
    }

    /** Everything but the two counters. */
    method ClearAll()
      modifies this
      ensures Value() == ZERO.(generation := old(generation), lifecycle := old(lifecycle))
    {
      lost := 0;
      ClearRequest();
      ClearReplies();
    }

    method InvalidateLink()
      modifies this
      ensures Value() == Invalidate(old(Value()))
    {
      var nextGeneration, nextLifecycle := Next32(generation), Next32(lifecycle);
      ClearAll();
      generation := nextGeneration;
      lifecycle := nextLifecycle;
    }

    method ExpireRequest(now: int) returns (counted: bool)
      modifies this`lossCounted, this`lost
      ensures Value() == Expire(old(Value()), now)
      ensures counted <==> Expires(old(Value()), now)
    {
      if !published || consumed || lossCounted || now < deadlineUs { return false; }
      lossCounted := true;
      if lost < MAX_LOST { lost := lost + 1; }
      return true;
    }

    method AbandonRequest()
      modifies this
      ensures Value() == Abandon(old(Value()))
    {
      var cycle, losses := lifecycle, lost;
      InvalidateLink();
      lifecycle := cycle;
      lost := losses;
    }

    method BeginRequest(number: uint16, from: PortId, deadline: int) returns (token: uint32)
      modifies this
      ensures Value() == Begin(old(Value()), number, from, deadline)
      ensures token == generation
    {
      AbandonRequest();
      sequence := number;
      requester := from;
      deadlineUs := deadline;
      sending := true;
      return generation;
    }

    method PublishTransmit(token: uint32, time: Timespec, now: int) returns (ok: bool)
      modifies this`transmit, this`published, this`sending
      ensures Value() == Publish(old(Value()), token, time, now)
      ensures ok <==> Publishes(old(Value()), token, time, now)
    {
      if generation != token || !sending || published || now >= deadlineUs || time.nsec < 0 || time.nsec >= BILLION {
        return false;
      }
      transmit := time;
      published := true;
      sending := false;
      return true;
    }

    method CancelRequest(token: uint32)
      modifies this`sending, this`published, this`responseSeen, this`followUpPending
      ensures Value() == Cancel(old(Value()), token)
    {
      if generation != token { return; }
      sending := false;
      published := false;
      responseSeen := false;
      followUpPending := false;
    }

    method AdmitResponse(r: Response, time: Timespec, now: int) returns (admission: Admission)
      modifies this`multiple, this`response, this`receive, this`responseSeen
      ensures Value() == Respond(old(Value()), r, time, now)
      ensures admission == Admit(old(Value()), r, time, now)
    {
      if r.header.sequence != sequence { return Ignored; }
      var rejected := (!published && !sending) || multiple || now >= deadlineUs || requester != r.requester ||
        r.received.nsec >= BILLION || time.nsec < 0 || time.nsec >= BILLION;
      if rejected { return Ignored; }
      if r.header.source[..8] == requester[..8] {
        admission := Self;
      } else if responseSeen {
        admission := if response.header.source != r.header.source then Multiple else Duplicate;
      } else {
        admission := Accepted;
      }
      if admission != Accepted {
        multiple := true;
      } else {
        response := r;
        receive := time;
        responseSeen := true;
      }
    }

    method FinishExchange(f: FollowUp, now: int) returns (outcome: Outcome)
      modifies this`multiple, this`pendingFollowUp, this`followUpPending, this`consumed, this`lost
      ensures Value() == Finish(old(Value()), f, now)
      ensures outcome == Classify(old(Value()), f, now)
    {
      var matches := (published || sending) && !multiple && now < deadlineUs &&
        sequence == f.header.sequence && requester == f.requester;
      if !matches || !responseSeen || f.origin.nsec >= BILLION || response.header.source != f.header.source {
        return Rejected;
      }
      if consumed || followUpPending {
        multiple := true;
        return Clash;
      }
      if !published {
        pendingFollowUp := f;
        followUpPending := true;
        return Outcome.Retained;
      }
      outcome := Measured(Measurement(generation, lifecycle, transmit, receive, response));
      consumed := true;
      lost := 0;
    }

    method TakeFollowUp(now: int) returns (taken: bool, f: FollowUp, token: uint32)
      modifies this`followUpPending
      ensures Value() == Take(old(Value()), now)
      ensures taken <==> Takes(old(Value()), now)
      ensures f == pendingFollowUp && token == generation
    {
      f, token := pendingFollowUp, generation;
      if !published || !followUpPending || multiple || consumed || now >= deadlineUs { return false, f, token; }
      followUpPending := false;
      return true, f, token;
    }
  }

  // ---- Order of publication ----------------------------------------------------------

  /** The three interleavings of T1's publication with one response and one Follow_Up. */
  function PublishedFirst(e: Exchange, t1: Timespec, r: Response, rx: Timespec, f: FollowUp,
                          times: (int, int, int)): (Exchange, Outcome) {
    var ready := Respond(Publish(e, e.generation, t1, times.0), r, rx, times.1);
    (Finish(ready, f, times.2), Classify(ready, f, times.2))
  }

  function PublishedBetween(e: Exchange, t1: Timespec, r: Response, rx: Timespec, f: FollowUp,
                            times: (int, int, int)): (Exchange, Outcome) {
    var ready := Publish(Respond(e, r, rx, times.0), e.generation, t1, times.1);
    (Finish(ready, f, times.2), Classify(ready, f, times.2))
  }

  /** Publication last: the Follow_Up is retained, taken by the daemon and replayed. */
  function PublishedLast(e: Exchange, t1: Timespec, r: Response, rx: Timespec, f: FollowUp,
                         times: (int, int, int, int)): (Exchange, Outcome) {
    var waiting := Finish(Respond(e, r, rx, times.0), f, times.1);
    var ready := Publish(waiting, e.generation, t1, times.2);
    var taken := Take(ready, times.3);
    (Finish(taken, taken.pendingFollowUp, times.3), Classify(taken, taken.pendingFollowUp, times.3))
  }

  /** The exchange a measurement leaves, apart from the slot a Follow_Up is kept in. */
  predicate SameEnd(a: Exchange, b: Exchange) { a.(pendingFollowUp := b.pendingFollowUp) == b }

  /** When T1, an acceptable response and its Follow_Up all fall before the deadline,
      every order of publication gives the same measurement and the same end. */
  lemma PublicationOrderIsIrrelevant(before: Exchange, sequence: uint16, requester: PortId, deadline: int, t1: Timespec,
                                     r: Response, rx: Timespec, f: FollowUp, a: int, b: int, c: int, d: int)
    requires a <= b <= c <= d < deadline && ValidTime(t1) && ValidTime(rx) && ValidStamp(r.received) &&
      ValidStamp(f.origin)
    requires r.header.sequence == f.header.sequence == sequence && r.requester == f.requester == requester
    requires r.header.source == f.header.source && r.header.source[..8] != requester[..8]
    ensures var e := Begin(before, sequence, requester, deadline);
      var measured := Measured(Measurement(e.generation, e.lifecycle, t1, rx, r));
      && PublishedFirst(e, t1, r, rx, f, (a, b, c)).1 == measured
      && PublishedBetween(e, t1, r, rx, f, (a, b, c)).1 == measured
      && PublishedLast(e, t1, r, rx, f, (a, b, c, d)).1 == measured
      && PublishedFirst(e, t1, r, rx, f, (a, b, c)).0 == PublishedBetween(e, t1, r, rx, f, (a, b, c)).0
      && SameEnd(PublishedLast(e, t1, r, rx, f, (a, b, c, d)).0, PublishedFirst(e, t1, r, rx, f, (a, b, c)).0)
  {
    var e := Begin(before, sequence, requester, deadline);
    assert Admit(e, r, rx, a) == Accepted && Admit(Publish(e, e.generation, t1, a), r, rx, b) == Accepted;
    var answered := Respond(e, r, rx, a);
    assert Classify(answered, f, b) == Outcome.Retained;
    var ready := Publish(Finish(answered, f, b), e.generation, t1, c);
    assert Takes(ready, d) && ready.pendingFollowUp == f;
  }

  /** The daemon takes a retained Follow_Up exactly when replaying it now would complete the
      exchange. */
  lemma TakesWhatCompletes(e: Exchange, now: int)
    requires e.followUpPending && e.responseSeen && !e.sending
    requires Answers(e, e.pendingFollowUp.header, e.pendingFollowUp.requester) && ValidStamp(e.pendingFollowUp.origin)
    requires e.pendingFollowUp.header.source == e.response.header.source
    ensures Takes(e, now) <==> Classify(e.(followUpPending := false), e.pendingFollowUp, now).Measured?
    ensures Takes(e, now) ==> Take(e, now) == e.(followUpPending := false) && !Takes(Take(e, now), now)
  {
  }

  /** Time stamps count with any whole number of nanoseconds below a second. */
  lemma StampsExactly(t: Timespec, s: Stamp)
    ensures ValidTime(t) <==> 0 <= t.nsec <= 999_999_999
    ensures ValidStamp(s) <==> s.nsec <= 999_999_999
  {
  }
}
