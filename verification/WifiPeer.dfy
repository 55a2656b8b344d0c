/** One registry entry: its lifetime, the neighbor bound to it by Signaling, and the
    schedules a message or a completion can change. */
module WifiPeer {
  import opened Arith
  import opened Bytes
  import opened CapableReceive
  import CapableSchedule
  import AnnounceSchedule

  type Mac = m: seq<byte> | |m| == 6 witness [0, 0, 0, 0, 0, 0]

  const ZERO_MAC: Mac := [0, 0, 0, 0, 0, 0]

  /** A station address: unicast and not all zero. */
  predicate Station(mac: Mac) { mac[0] % 2 == 0 && mac != ZERO_MAC }

  datatype Peer = Peer(associated: bool, bound: bool, syncStopped: bool, mac: Mac, portIdentity: PortId,
                       association: uint32, syncRevision: uint32, capable: Receipt,
                       transmit: CapableSchedule.Schedule, announce: AnnounceSchedule.Announce)

  const VACANT := Peer(false, false, false, ZERO_MAC, ZERO_PORT, 0, 0,
                       Receipt(Message(ZERO_PORT, 0), 0, 0, 0, false), CapableSchedule.ZERO, AnnounceSchedule.ZERO)

  predicate Holds(p: Peer, mac: Mac) { p.associated && p.mac == mac }

  function Joined(mac: Mac, association: uint32): Peer {
    VACANT.(associated := true, mac := mac, association := association)
  }

  datatype Op =
    | Capable(message: Message, now: int)
    | Interval(message: Message)
    | SyncInterval(source: PortId, logSync: int8)
    | AnnounceInterval(source: PortId, logAnnounce: int8, initial: int8)
    | CapableSent(token: uint32, accepted: bool, now: int)
    | AnnouncePoll(initial: int8, revision: uint32, information: uint32, now: int)
    | AnnounceSent(token: uint32, accepted: bool, now: int)

  /** Media state of a neighbor that is no longer this one; numbers are not reused. */
  function Unbind(p: Peer): Peer {
    p.(capable := p.capable.(valid := false), announce := AnnounceSchedule.Reset(p.announce),
       syncStopped := false, syncRevision := Next32(p.syncRevision),
       transmit := CapableSchedule.ZERO.(serial := p.transmit.serial))
  }

  predicate SyncSupported(request: int8) { request in {-128, -3, 126, 127} }

  function RequestSync(p: Peer, request: int8): Peer {
    var stopped := if request == 127 then true else if request == -3 || request == 126 then false else p.syncStopped;
    if stopped == p.syncStopped then p else p.(syncStopped := stopped, syncRevision := Next32(p.syncRevision))
  }

  predicate NumberedPort(source: PortId) { source[8] != 0 || source[9] != 0 }

  /** A bound neighbor's identity changed: its former state is retired first. */
  function Rebound(p: Peer, source: PortId): Peer {
    if p.bound && p.portIdentity != source then Unbind(p) else p
  }

  /** The sender is the neighbor this entry has been bound to. */
  predicate BoundTo(p: Peer, source: PortId) { p.bound && p.portIdentity == source }

  function Apply(p: Peer, op: Op): Peer {
    match op
    case Capable(message, now) =>
      if !NumberedPort(message.sourcePort) then p
      else
        var q := Rebound(p, message.sourcePort);
        if !Admits(message, message.sourcePort, now) then q
        else q.(capable := Received(message, p.association, now), portIdentity := message.sourcePort, bound := true)
    case Interval(message) =>
      if !BoundTo(p, message.sourcePort) then p
      else p.(transmit := CapableSchedule.Request(p.transmit, message.logInterval))
    case SyncInterval(source, request) =>
      if !BoundTo(p, source) || !SyncSupported(request) then p else RequestSync(p, request)
    case AnnounceInterval(source, request, initial) =>
      if !BoundTo(p, source) then p else p.(announce := AnnounceSchedule.Request(p.announce, initial, request))
    case CapableSent(token, accepted, now) =>
      p.(transmit := CapableSchedule.Finish(p.transmit, token, accepted, now))
    case AnnouncePoll(initial, revision, information, now) =>
      p.(announce := AnnounceSchedule.Begin(p.announce, initial, revision, information, now))
    case AnnounceSent(token, accepted, now) =>
      p.(announce := AnnounceSchedule.Finish(p.announce, token, accepted, now))
  }

  /** What the operation reports to its caller. */
  predicate Succeeds(p: Peer, op: Op) {
    match op
    case Capable(message, now) => NumberedPort(message.sourcePort) && Admits(message, message.sourcePort, now)
    case Interval(message) => BoundTo(p, message.sourcePort) && CapableSchedule.Supported(message.logInterval)
    case SyncInterval(source, request) => BoundTo(p, source) && SyncSupported(request)
    case AnnounceInterval(source, request, initial) =>
      BoundTo(p, source) && AnnounceSchedule.Accepts(p.announce, initial, request)
    case CapableSent(token, _, now) => CapableSchedule.Honours(p.transmit, token, now)
    case AnnouncePoll(initial, revision, information, now) =>
      AnnounceSchedule.Issues(p.announce, initial, revision, information, now)
    case AnnounceSent(token, _, now) => AnnounceSchedule.Honours(p.announce, token, now)
  }

  ghost predicate ValidPeer(p: Peer, generation: uint32) {
    && (p.associated ==> Station(p.mac) && 0 < p.association <= generation)
    && CapableSchedule.Valid(p.transmit) && AnnounceSchedule.Valid(p.announce)
  }

  /** Counters of the entry can still advance n times without wrapping. */
  predicate Roomy(p: Peer, n: nat) {
    p.announce.revision + n <= UINT32_MAX && p.announce.serial + n <= UINT32_MAX
  }

  /** The same lifetime, with its Announce schedule moved on. */
  ghost predicate MovedOn(p: Peer, q: Peer, generation: uint32, n: nat) {
    && q.associated == p.associated && q.mac == p.mac && q.association == p.association
    && ValidPeer(q, generation) && Roomy(q, n) && AnnounceSchedule.Succeeds(p.announce, q.announce)
  }

  /** No operation changes whose entry it is. */
  lemma ApplyKeepsLifetime(p: Peer, op: Op, generation: uint32, n: nat)
    requires ValidPeer(p, generation) && Roomy(p, n) && n > 0
    ensures MovedOn(p, Apply(p, op), generation, n - 1)
  {
    match op {
      case Capable(message, now) => CapableMovesOn(p, message, now, generation, n);
      case SyncInterval(_, request) => SyncMovesOn(p, request, generation, n);
      case _ =>
        if op.Interval? || op.CapableSent? {
          TransmitOpMovesOn(p, op, generation, n);
        } else {
          AnnounceOpMovesOn(p, op, generation, n);
        }
    }
  }

  lemma TransmitOpMovesOn(p: Peer, op: Op, generation: uint32, n: nat)
    requires ValidPeer(p, generation) && Roomy(p, n) && n > 0 && (op.Interval? || op.CapableSent?)
    ensures MovedOn(p, Apply(p, op), generation, n - 1)
  {
    match op {
      case Interval(message) => TransmitMovesOn(p, CapableSchedule.Ask(message.logInterval), generation, n);
      case CapableSent(token, accepted, now) =>
        TransmitMovesOn(p, CapableSchedule.Complete(token, accepted, now), generation, n);
    }
  }

  lemma AnnounceOpMovesOn(p: Peer, op: Op, generation: uint32, n: nat)
    requires ValidPeer(p, generation) && Roomy(p, n) && n > 0
    requires op.AnnounceInterval? || op.AnnouncePoll? || op.AnnounceSent?
    ensures MovedOn(p, Apply(p, op), generation, n - 1)
  {
    match op {
      case AnnounceInterval(_, request, initial) =>
        AnnounceMovesOn(p, AnnounceSchedule.Ask(initial, request), generation, n);
      case AnnouncePoll(initial, revision, information, now) =>
        AnnounceMovesOn(p, AnnounceSchedule.Poll(initial, revision, information, now), generation, n);
      case AnnounceSent(token, accepted, now) =>
        AnnounceMovesOn(p, AnnounceSchedule.Complete(token, accepted, now), generation, n);
    }
  }

  lemma AnnounceMovesOn(p: Peer, e: AnnounceSchedule.Event, generation: uint32, n: nat)
    requires ValidPeer(p, generation) && Roomy(p, n) && n > 0
    ensures MovedOn(p, p, generation, n - 1)
    ensures MovedOn(p, p.(announce := AnnounceSchedule.Step(p.announce, e)), generation, n - 1)
  {
    AnnounceSchedule.StepKeepsValid(p.announce, e);
    AnnounceSchedule.StepSucceeds(p.announce, e);
  }

  lemma TransmitMovesOn(p: Peer, e: CapableSchedule.Event, generation: uint32, n: nat)
    requires ValidPeer(p, generation) && Roomy(p, n) && n > 0
    ensures MovedOn(p, p, generation, n - 1)
    ensures MovedOn(p, p.(transmit := CapableSchedule.Step(p.transmit, e)), generation, n - 1)
  {
    CapableSchedule.StepKeepsValid(p.transmit, e);
  }

  lemma SyncMovesOn(p: Peer, request: int8, generation: uint32, n: nat)
    requires ValidPeer(p, generation) && Roomy(p, n) && n > 0
    ensures MovedOn(p, p, generation, n - 1) && MovedOn(p, RequestSync(p, request), generation, n - 1)
  {
  }

  lemma UnbindKeepsLifetime(p: Peer, generation: uint32, n: nat)
    requires ValidPeer(p, generation) && Roomy(p, n) && n > 0
    ensures MovedOn(p, Unbind(p), generation, n - 1)
  {
  }

  lemma CapableMovesOn(p: Peer, message: Message, now: int, generation: uint32, n: nat)
    requires ValidPeer(p, generation) && Roomy(p, n) && n > 0
    ensures MovedOn(p, Apply(p, Capable(message, now)), generation, n - 1)
  {
    UnbindKeepsLifetime(p, generation, n);
  }

  // ---- Whose word counts --------------------------------------------------------------------

  predicate IsRequest(op: Op) { op.Interval? || op.SyncInterval? || op.AnnounceInterval? }

  function Requester(op: Op): PortId
    requires IsRequest(op)
  {
    match op
    case Interval(message) => message.sourcePort
    case SyncInterval(source, _) => source
    case AnnounceInterval(source, _, _) => source
  }

  /** A request from anyone but the bound neighbor is refused and changes nothing; one from
      the neighbor changes the one schedule it is for. */
  lemma OnlyNeighborIsHeeded(p: Peer, op: Op)
    requires IsRequest(op)
    ensures !(p.bound && p.portIdentity == Requester(op)) ==> Apply(p, op) == p && !Succeeds(p, op)
    ensures p.bound && p.portIdentity == Requester(op) ==>
      match op
      case Interval(m) =>
        Apply(p, op) == p.(transmit := CapableSchedule.Step(p.transmit, CapableSchedule.Ask(m.logInterval)))
      case AnnounceInterval(_, request, initial) =>
        Apply(p, op) == p.(announce := AnnounceSchedule.Step(p.announce, AnnounceSchedule.Ask(initial, request)))
      case SyncInterval(_, request) =>
        var q := Apply(p, op);
        && q.(syncStopped := p.syncStopped, syncRevision := p.syncRevision) == p
        && q.syncStopped == (request == 127 || (p.syncStopped && request != 126 && request != -3))
        && (q.syncRevision == p.syncRevision <==> q.syncStopped == p.syncStopped)
  {
  }

  /** What a capability message leaves: its sender, numbered, becomes the neighbor for nine
      of its intervals. A sender other than the neighbor first ends the neighbor's schedules
      and reception, even if its own message is then found wanting; the neighbor's own
      messages leave them alone. */
  lemma CapabilityBinds(p: Peer, m: Message, now: int, at: int)
    ensures var q := Apply(p, Capable(m, now));
      if m.sourcePort[8] == 0 && m.sourcePort[9] == 0 then q == p && !Succeeds(p, Capable(m, now))
      else
        && (Succeeds(p, Capable(m, now)) ==>
              && q.bound && q.portIdentity == m.sourcePort
              && (-3 <= m.logInterval <= 24 ==>
                    (NeighborCapable(q.capable, m.sourcePort, p.association, at) <==>
                       now <= at < now + 9 * CapableSchedule.IntervalUs(m.logInterval))))
        && (!Succeeds(p, Capable(m, now)) ==> q.bound == p.bound && q.portIdentity == p.portIdentity)
        && (if p.bound && p.portIdentity != m.sourcePort
            then Retired(p, q) && (!Succeeds(p, Capable(m, now)) ==> !q.capable.valid)
            else Kept(p, q) && (!Succeeds(p, Capable(m, now)) ==> q == p))
  {
    if -3 <= m.logInterval <= 24 {
      HoldsForNinePeriods(m, p.association, now, m.sourcePort, p.association, at);
    }
  }

  /** The schedules of the neighbor before are over; tokens and revisions run on. */
  predicate Retired(p: Peer, q: Peer) {
    && q.announce.revision == Next32(p.announce.revision) && q.announce.serial == p.announce.serial
    && q.announce.pending == 0 && !q.announce.active && !q.announce.initialized
    && q.transmit.serial == p.transmit.serial && q.transmit.pending == 0 && !q.transmit.active
    && q.transmit.interval == CapableSchedule.Interval(0, 0, 0)
    && !q.syncStopped && q.syncRevision == Next32(p.syncRevision)
  }

  predicate Kept(p: Peer, q: Peer) {
    q.announce == p.announce && q.transmit == p.transmit && q.syncStopped == p.syncStopped &&
      q.syncRevision == p.syncRevision
  }

  function RunOps(p: Peer, ops: seq<Op>): Peer
    decreases |ops|
  {
    if ops == [] then p else Apply(RunOps(p, ops[..|ops| - 1]), ops[|ops| - 1])
  }

  /** The sender of the last capability message that was admissible. */
  function LastSender(ops: seq<Op>): Option<PortId>
    decreases |ops|
  {
    if ops == [] then None
    else
      var op := ops[|ops| - 1];
      if op.Capable? && NumberedPort(op.message.sourcePort) && Admits(op.message, op.message.sourcePort, op.now)
      then Some(op.message.sourcePort)
      else LastSender(ops[..|ops| - 1])
  }

  /** Over every run of an association, the neighbor is the sender of the last admissible
      capability message. */
  lemma {:induction false} NeighborIsLastSender(mac: Mac, association: uint32, ops: seq<Op>)
    ensures var p := RunOps(Joined(mac, association), ops);
      && (p.bound <==> LastSender(ops).Some?) && (p.bound ==> p.portIdentity == LastSender(ops).value)
      && p.mac == mac && p.association == association && p.associated
    decreases |ops|
  {
    if ops == [] {
    } else {
      NeighborIsLastSender(mac, association, ops[..|ops| - 1]);
    }
  }

  /** Not a group address, and not all zero. */
  predicate Unicast(mac: Mac) { (mac[0] as bv8 & 1) == 0 && exists i :: 0 <= i < 6 && mac[i] != 0 }

  lemma StationExactly(mac: Mac)
    ensures Station(mac) <==> Unicast(mac)
  {
    LowBit(mac[0]);
    if forall i :: 0 <= i < 6 ==> mac[i] == 0 {
      assert mac == ZERO_MAC;
    } else {
      assert mac != ZERO_MAC by {
        var i :| 0 <= i < 6 && mac[i] != 0;
        assert mac[i] != ZERO_MAC[i];
      }
    }
  }

  lemma LowBit(b: byte)
    ensures (b as bv8 & 1) == 0 <==> b % 2 == 0
  {
  }

  /** The Sync requests that are served: stop, the standard rate, its reset, and no change. */
  lemma SyncServed(p: Peer, source: PortId, request: int8)
    requires p.bound && p.portIdentity == source
    ensures Succeeds(p, SyncInterval(source, request)) <==>
      request == 127 || request == -3 || request == 126 || request == -128
  {
  }
}
