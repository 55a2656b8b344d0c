/** Runs of the association registry: what holds in every reachable registry, and why
    work queued from an old snapshot can do nothing to a later lifetime. */
module WifiRuns {
  import opened Arith
  import opened Bytes
  import opened WifiPeer
  import opened WifiPeers
  import CapableSchedule
  import AnnounceSchedule
  import opened WifiPorts

  datatype Event =
    | StationJoined(mac: Mac)
    | StationLeft(mac: Mac)
    | Stopped
    | Reported(boot: uint32, generation: uint32, macs: seq<Mac>)
    | Unreported
    | ProfileChanged
    | SlotPolled(slot: nat, enabled: bool, now: int)
    | Addressed(mac: Mac, association: uint32, op: Op)

  function Step(r: Registry, hosted: bool, e: Event): Registry {
    match e
    case StationJoined(mac) => Join(r, mac)
    case StationLeft(mac) => Leave(r, mac)
    case Stopped => Clear(r)
    case Reported(boot, generation, macs) =>
      var next := Reconcile(r, boot, generation, macs);
      if Reconciles(r, boot, generation, macs) then next.(unreported := false) else next
    case Unreported => r.(unreported := true)
    case ProfileChanged => ResetProfile(r)
    case SlotPolled(slot, enabled, now) => if slot < |r.entries| then PollSlot(r, hosted, slot, enabled, now) else r
    case Addressed(mac, association, op) => OnPeer(r, hosted, mac, association, op)
  }

  function Run(r: Registry, hosted: bool, events: seq<Event>): Registry
    decreases |events|
  {
    if events == [] then r else Run(Step(r, hosted, events[0]), hosted, events[1..])
  }

  /** Every counter can take n more steps; one report advances the generation by at
      most seventeen. */
  predicate Room(r: Registry, n: nat) {
    r.generation + 17 * n <= UINT32_MAX && forall i :: 0 <= i < |r.entries| ==> Roomy(r.entries[i], n)
  }

  /** How one slot can follow from an earlier registry: vacant, a later association, or
      the same lifetime with its Announce schedule moved on. */
  ghost predicate Follows(p: Peer, q: Peer, generation: uint32) {
    q.associated ==>
      q.association > generation ||
      (p.associated && p.association == q.association && p.mac == q.mac &&
       AnnounceSchedule.Succeeds(p.announce, q.announce))
  }

  ghost predicate Descends(r: Registry, s: Registry) {
    && |r.entries| == |s.entries| == SLOTS && r.generation <= s.generation
    && forall i {:trigger Follows(r.entries[i], s.entries[i], r.generation)} :: 0 <= i < SLOTS ==>
         Follows(r.entries[i], s.entries[i], r.generation)
  }

  /** All three properties of a step, established slot by slot. */
  lemma SlotwiseStep(r: Registry, s: Registry, n: nat)
    requires Valid(r) && Room(r, n) && n > 0 && |s.entries| == SLOTS
    requires r.generation <= s.generation <= r.generation + 17
    requires forall i :: 0 <= i < SLOTS ==> SameLifetime(r.entries[i], s.entries[i], s.generation, n)
    ensures Valid(s) && Room(s, n - 1) && Descends(r, s)
  {
    forall i | 0 <= i < SLOTS
      ensures ValidPeer(s.entries[i], s.generation) && Follows(r.entries[i], s.entries[i], r.generation)
    {
      assert SameLifetime(r.entries[i], s.entries[i], s.generation, n);
    }
    forall i | 0 <= i < SLOTS ensures Roomy(s.entries[i], n - 1) {
      assert SameLifetime(r.entries[i], s.entries[i], s.generation, n);
    }
    forall i, j | 0 <= i < j < SLOTS ensures Apart(s.entries[i], s.entries[j]) {
      assert Apart(r.entries[i], r.entries[j]);
      assert SameLifetime(r.entries[i], s.entries[i], s.generation, n) &&
        SameLifetime(r.entries[j], s.entries[j], s.generation, n);
    }
  }

  /** Vacated, or the same lifetime moved on. */
  ghost predicate SameLifetime(p: Peer, q: Peer, generation: uint32, n: nat)
    requires n > 0
  {
    && ValidPeer(q, generation) && Roomy(q, n - 1)
    && (q.associated ==> p.associated && q.association == p.association && q.mac == p.mac)
    && (q.associated ==> AnnounceSchedule.Succeeds(p.announce, q.announce))
  }

  lemma Unchanged(p: Peer, before: uint32, after: uint32, n: nat)
    requires ValidPeer(p, before) && before <= after && Roomy(p, n) && n > 0
    ensures SameLifetime(p, p, after, n)
  {
  }

  lemma StepOnOne(r: Registry, s: Registry, slot: nat, n: nat)
    requires Valid(r) && Room(r, n) && n > 0 && slot < SLOTS == |s.entries|
    requires r.generation <= s.generation <= r.generation + 1
    requires forall i :: 0 <= i < SLOTS && i != slot ==> s.entries[i] == r.entries[i]
    requires SameLifetime(r.entries[slot], s.entries[slot], s.generation, n)
    ensures Valid(s) && Room(s, n - 1) && Descends(r, s)
  {
    forall i | 0 <= i < SLOTS ensures SameLifetime(r.entries[i], s.entries[i], s.generation, n) {
      assert ValidPeer(r.entries[i], r.generation) && Roomy(r.entries[i], n);
      if i != slot { Unchanged(r.entries[i], r.generation, s.generation, n); }
    }
    SlotwiseStep(r, s, n);
  }

  lemma JoinDescends(r: Registry, mac: Mac, n: nat)
    requires Valid(r) && Room(r, n) && n > 0
    ensures var s := Join(r, mac); Valid(s) && Room(s, n - 1) && Descends(r, s)
  {
    JoinIsValid(r, mac);
    var s := Join(r, mac);
    if CanJoin(r, mac) { JoinSlots(r, mac); }
    forall i | 0 <= i < SLOTS ensures Follows(r.entries[i], s.entries[i], r.generation) && Roomy(s.entries[i], n - 1) {
      assert Roomy(r.entries[i], n);
    }
  }

  lemma ReportDescends(r: Registry, boot: uint32, generation: uint32, macs: seq<Mac>, n: nat)
    requires Valid(r) && Room(r, n) && n > 0
    ensures var s := Reconcile(r, boot, generation, macs); Valid(s) && Room(s, n - 1) && Descends(r, s)
  {
    var s := Reconcile(r, boot, generation, macs);
    if Newer(r, boot, generation, macs) {
      NewerReportIsExact(r, boot, generation, macs);
      VacantSlots(r, boot, generation, macs, n);
      forall i | 0 <= i < SLOTS
        ensures Follows(r.entries[i], s.entries[i], r.generation) && Roomy(s.entries[i], n - 1)
      {
        assert Roomy(r.entries[i], n);
      }
    } else {
      forall i | 0 <= i < SLOTS ensures Follows(r.entries[i], s.entries[i], r.generation) {
      }
    }
  }

  /** A slot a report leaves without a station is vacant or as it was. */
  lemma VacantSlots(r: Registry, boot: uint32, generation: uint32, macs: seq<Mac>, n: nat)
    requires Valid(r) && Room(r, n) && n > 0 && Newer(r, boot, generation, macs)
    ensures var s := Reconcile(r, boot, generation, macs);
      forall i :: 0 <= i < |s.entries| ==> !s.entries[i].associated ==> Roomy(s.entries[i], n)
  {
    var s := Reconcile(r, boot, generation, macs);
    var swept := Swept(r, macs);
    forall i | 0 <= i < |s.entries| && !s.entries[i].associated ensures Roomy(s.entries[i], n) {
      assert i < SLOTS ==> Roomy(r.entries[i], n);
      UntouchedVacancy(swept, macs, 0, i);
    }
  }

  lemma {:induction false} UntouchedVacancy(r: Registry, macs: seq<Mac>, from: nat, i: nat)
    requires from <= |macs| && |r.entries| == SLOTS
    ensures |JoinFrom(r, macs, from).entries| == SLOTS
    ensures i < SLOTS && !JoinFrom(r, macs, from).entries[i].associated ==>
      JoinFrom(r, macs, from).entries[i] == r.entries[i]
    decreases |macs| - from
  {
    if from < |macs| { UntouchedVacancy(Join(r, macs[from]), macs, from + 1, i); }
  }

  lemma PollDescends(r: Registry, hosted: bool, slot: nat, enabled: bool, now: int, n: nat)
    requires Valid(r) && Room(r, n) && n > 0 && slot < SLOTS
    ensures var s := PollSlot(r, hosted, slot, enabled, now); Valid(s) && Room(s, n - 1) && Descends(r, s)
  {
    var p := r.entries[slot];
    assert ValidPeer(p, r.generation) && Roomy(p, n);
    var sends := enabled && Publishable(r, hosted) && p.associated;
    CapableSchedule.StepKeepsValid(p.transmit, CapableSchedule.Poll(sends, now));
    StepOnOne(r, PollSlot(r, hosted, slot, enabled, now), slot, n);
  }

  lemma OperationDescends(r: Registry, hosted: bool, mac: Mac, association: uint32, op: Op, n: nat)
    requires Valid(r) && Room(r, n) && n > 0
    ensures var s := OnPeer(r, hosted, mac, association, op); Valid(s) && Room(s, n - 1) && Descends(r, s)
  {
    var slot := Target(r, mac, association);
    if slot < SLOTS {
      assert ValidPeer(r.entries[slot], r.generation) && Roomy(r.entries[slot], n);
      ApplyKeepsLifetime(r.entries[slot], op, r.generation, n);
      Unchanged(r.entries[slot], r.generation, r.generation, n);
    }
    StepSimple(r, OnPeer(r, hosted, mac, association, op), n, slot);
  }

  /** Every step keeps the invariant and the descent. */
  lemma StepDescends(r: Registry, hosted: bool, e: Event, n: nat)
    requires Valid(r) && Room(r, n) && n > 0
    ensures var s := Step(r, hosted, e); Valid(s) && Room(s, n - 1) && Descends(r, s)
  {
    var s := Step(r, hosted, e);
    match e {
      case StationJoined(mac) => JoinDescends(r, mac, n);
      case Reported(boot, generation, macs) => ReportDescends(r, boot, generation, macs, n);
      case StationLeft(mac) => StepSimple(r, s, n, Find(r.entries, mac));
      case SlotPolled(slot, enabled, now) =>
        if slot < SLOTS { PollDescends(r, hosted, slot, enabled, now, n); } else { StepSimple(r, s, n, slot); }
      case Addressed(mac, association, op) => OperationDescends(r, hosted, mac, association, op, n);
      case Stopped => StepEverySlot(r, s, n);
      case ProfileChanged => StepEverySlot(r, s, n);
      case Unreported => StepSimple(r, s, n, SLOTS);
    }
  }

  lemma StepSimple(r: Registry, s: Registry, n: nat, slot: nat)
    requires Valid(r) && Room(r, n) && n > 0 && |s.entries| == SLOTS
    requires r.generation <= s.generation <= r.generation + 1
    requires forall i :: 0 <= i < SLOTS && i != slot ==> s.entries[i] == r.entries[i]
    requires slot < SLOTS ==>
      s.entries[slot] == VACANT || SameLifetime(r.entries[slot], s.entries[slot], s.generation, n)
    ensures Valid(s) && Room(s, n - 1) && Descends(r, s)
  {
    var chosen := if slot < SLOTS then slot else 0;
    assert ValidPeer(r.entries[chosen], r.generation) && Roomy(r.entries[chosen], n);
    if slot >= SLOTS { Unchanged(r.entries[0], r.generation, s.generation, n); }
    StepOnOne(r, s, chosen, n);
  }

  lemma StepEverySlot(r: Registry, s: Registry, n: nat)
    requires Valid(r) && Room(r, n) && n > 0 && |s.entries| == SLOTS
    requires r.generation <= s.generation <= r.generation + 1
    requires forall i :: 0 <= i < SLOTS ==> s.entries[i] == VACANT || s.entries[i] == Unbind(r.entries[i])
    ensures Valid(s) && Room(s, n - 1) && Descends(r, s)
  {
    forall i | 0 <= i < SLOTS ensures SameLifetime(r.entries[i], s.entries[i], s.generation, n) {
      assert ValidPeer(r.entries[i], r.generation) && Roomy(r.entries[i], n);
      UnbindKeepsLifetime(r.entries[i], r.generation, n);
    }
    SlotwiseStep(r, s, n);
  }

  lemma DescentIsTransitive(r: Registry, s: Registry, t: Registry)
    requires Descends(r, s) && Descends(s, t)
    ensures Descends(r, t)
  {
    forall i | 0 <= i < SLOTS ensures Follows(r.entries[i], t.entries[i], r.generation) {
      assert Follows(r.entries[i], s.entries[i], r.generation) && Follows(s.entries[i], t.entries[i], s.generation);
    }
  }

  /** Every reachable registry is valid: live addresses distinct stations, associations
      distinct and non-zero; and each slot descends from what it held before. */
  lemma {:induction false} RunDescends(r: Registry, hosted: bool, events: seq<Event>)
    requires Valid(r) && Room(r, |events|)
    ensures Valid(Run(r, hosted, events)) && Descends(r, Run(r, hosted, events))
    decreases |events|
  {
    if events == [] {
      forall i | 0 <= i < SLOTS ensures Follows(r.entries[i], r.entries[i], r.generation) {
      }
    } else {
      StepDescends(r, hosted, events[0], |events|);
      RunDescends(Step(r, hosted, events[0]), hosted, events[1..]);
      DescentIsTransitive(r, Step(r, hosted, events[0]), Run(r, hosted, events));
    }
  }

  lemma EmptyIsValid()
    ensures Valid(EMPTY) && Room(EMPTY, UINT32_MAX / 17)
  {
  }

  /** The registry still carries this association in this slot at this revision. */
  predicate Current(r: Registry, slot: nat, association: uint32, revision: uint32) {
    slot < |r.entries| && r.entries[slot].associated && r.entries[slot].association == association &&
    r.entries[slot].announce.revision == revision
  }

  /** Work queued from a snapshot of `r` (address, association, revision, possibly a
      token outstanding in it) is dead for good once the association or its revision
      has changed: after any further events it neither starts nor completes an
      Announce. */
  lemma StaleWorkIsDead(r: Registry, hosted: bool, before: seq<Event>, after: seq<Event>, slot: nat,
                        association: uint32, revision: uint32, mac: Mac, op: Op)
    requires Valid(r) && Room(r, |before| + |after|) && Current(r, slot, association, revision)
    requires !Current(Run(r, hosted, before), slot, association, revision)
    requires match op
      case AnnouncePoll(_, expected, _, _) => expected == revision
      case AnnounceSent(token, _, _) => token == r.entries[slot].announce.pending
      case _ => false
    ensures var end := Run(Run(r, hosted, before), hosted, after);
      !(Reaches(end, hosted, mac, association, op) && Succeeds(end.entries[Target(end, mac, association)], op))
  {
    var middle := Run(r, hosted, before);
    RoomShrinks(r, |before| + |after|, |before|);
    RunDescends(r, hosted, before);
    RunLeavesRoom(r, hosted, before, |after|);
    RunDescends(middle, hosted, after);
    var end := Run(middle, hosted, after);
    var target := Target(end, mac, association);
    if target < SLOTS {
      // The association is older than `middle`, so it was in this slot all along.
      assert ValidPeer(r.entries[slot], r.generation);
      assert Follows(middle.entries[target], end.entries[target], middle.generation);
      assert Follows(r.entries[target], middle.entries[target], r.generation);
      SameAssociationSameSlot(r, target, slot);
      var a, m, b := r.entries[slot].announce, middle.entries[slot].announce, end.entries[slot].announce;
      assert AnnounceSchedule.Succeeds(a, m) && AnnounceSchedule.Succeeds(m, b);
      assert AnnounceSchedule.Valid(a);
    }
  }

  lemma SameAssociationSameSlot(r: Registry, i: nat, j: nat)
    requires Valid(r) && i < SLOTS && j < SLOTS && r.entries[i].associated && r.entries[j].associated
    ensures r.entries[i].association == r.entries[j].association ==> i == j
  {
    if i < j {
      assert Apart(r.entries[i], r.entries[j]);
    } else if j < i {
      assert Apart(r.entries[j], r.entries[i]);
    }
  }

  lemma RoomShrinks(r: Registry, n: nat, m: nat)
    requires Room(r, n) && m <= n
    ensures Room(r, m)
  {
  }

  lemma {:induction false} RunLeavesRoom(r: Registry, hosted: bool, events: seq<Event>, n: nat)
    requires Valid(r) && Room(r, |events| + n)
    ensures Room(Run(r, hosted, events), n)
    decreases |events|
  {
    if events == [] {
    } else {
      StepDescends(r, hosted, events[0], |events| + n);
      RunLeavesRoom(Step(r, hosted, events[0]), hosted, events[1..], n);
    }
  }

  // ---- Snapshots ---------------------------------------------------------------------

  predicate NamesSlot(e: Entry, peers: seq<Peer>, port: nat, count: nat, n: nat)
    requires n <= |peers|
  {
    exists i :: 0 <= i < n && peers[i].associated && e == EntryOf(peers[i], WifiPorts.PortNumber(port, count, i))
  }

  /** Entries below n name exactly the associated slots below n. */
  lemma {:induction false} EntriesNameSlots(peers: seq<Peer>, port: nat, count: nat, n: nat)
    requires n <= |peers|
    ensures forall e :: e in Entries(peers, port, count, n) <==> NamesSlot(e, peers, port, count, n)
  {
    if n == 0 {
    } else {
      EntriesNameSlots(peers, port, count, n - 1);
      forall e ensures e in Entries(peers, port, count, n) <==> NamesSlot(e, peers, port, count, n) {
        assert NamesSlot(e, peers, port, count, n) <==>
          NamesSlot(e, peers, port, count, n - 1) ||
          (peers[n - 1].associated && e == EntryOf(peers[n - 1], WifiPorts.PortNumber(port, count, n - 1)));
      }
    }
  }

  predicate Differ(a: Entry, b: Entry) {
    a.portNumber != b.portNumber && a.mac != b.mac && a.association != b.association
  }

  predicate AllDiffer(es: seq<Entry>) {
    forall k, l :: 0 <= k < l < |es| ==> Differ(es[k], es[l])
  }

  lemma {:induction false} EntriesDiffer(r: Registry, port: nat, count: nat, n: nat)
    requires Valid(r) && n <= SLOTS && WifiPorts.Names(port, count, 0)
    ensures AllDiffer(Entries(r.entries, port, count, n))
  {
    if n == 0 {
    } else {
      var last := n - 1;
      EntriesDiffer(r, port, count, last);
      EntriesNameSlots(r.entries, port, count, last);
      var earlier := Entries(r.entries, port, count, last);
      forall e | e in earlier && r.entries[last].associated
        ensures Differ(e, EntryOf(r.entries[last], WifiPorts.PortNumber(port, count, last)))
      {
        var i :| 0 <= i < last && r.entries[i].associated &&
            e == EntryOf(r.entries[i], WifiPorts.PortNumber(port, count, i));
        WifiPorts.PortNumbersAreDistinct(port, i, port, last, count);
        assert Apart(r.entries[i], r.entries[last]);
      }
      var es := Entries(r.entries, port, count, n);
      forall k, l | 0 <= k < l < |es| ensures Differ(es[k], es[l]) {
        assert es[k] == earlier[k] && earlier[k] in earlier;
        if l < |earlier| {
          assert Differ(earlier[k], earlier[l]);
        } else {
          assert es[l] == EntryOf(r.entries[last], WifiPorts.PortNumber(port, count, last));
          assert Differ(earlier[k], es[l]);
        }
      }
    }
  }

  /** In every reachable registry a snapshot succeeds, names exactly the associated
      slots, and its port numbers, addresses and associations are pairwise distinct. */
  lemma SnapshotIsFaithful(r: Registry, port: nat, count: nat)
    requires Valid(r) && WifiPorts.Names(port, count, 0)
    ensures TakeSnapshot(r, port, count).Some?
    ensures var es := TakeSnapshot(r, port, count).value.entries;
      && AllDiffer(es)
      && (forall e :: e in es <==> NamesSlot(e, r.entries, port, count, SLOTS))
  {
    WifiPorts.PortNumbersAreDistinct(port, 0, port, 0, count);
    forall i | 0 <= i < SLOTS && r.entries[i].associated ensures r.entries[i].association != 0 {
      assert ValidPeer(r.entries[i], r.generation);
    }
    EntriesDiffer(r, port, count, SLOTS);
    EntriesNameSlots(r.entries, port, count, SLOTS);
    assert TakeSnapshot(r, port, count).value.entries == Entries(r.entries, port, count, SLOTS);
  }

  /** From the empty registry, any sequence of joins, leaves, reports, profile changes,
      polls and messages leaves the stations distinct, and a snapshot of it names exactly
      the associated slots under distinct, non-zero port numbers. */
  lemma EveryRegistryIsSound(hosted: bool, events: seq<Event>, port: nat, count: nat)
    requires |events| <= UINT32_MAX / 17 && WifiPorts.Names(port, count, 0)
    ensures var r := Run(EMPTY, hosted, events);
      && Valid(r) && TakeSnapshot(r, port, count).Some?
      && var es := TakeSnapshot(r, port, count).value.entries;
         && AllDiffer(es) && (forall e :: e in es <==> NamesSlot(e, r.entries, port, count, SLOTS))
         && (forall e :: e in es ==> Station(e.mac) && e.association != 0 && 0 < e.portNumber <= 65535)
  {
    EmptyIsValid();
    RoomShrinks(EMPTY, UINT32_MAX / 17, |events|);
    RunDescends(EMPTY, hosted, events);
    var r := Run(EMPTY, hosted, events);
    SnapshotIsFaithful(r, port, count);
    EntriesAreStations(r, port, count);
  }

  lemma EntriesAreStations(r: Registry, port: nat, count: nat)
    requires Valid(r) && WifiPorts.Names(port, count, 0)
    ensures forall e {:trigger NamesSlot(e, r.entries, port, count, SLOTS)} ::
      NamesSlot(e, r.entries, port, count, SLOTS) ==> Station(e.mac) && e.association != 0 && 0 < e.portNumber <= 65535
  {
    forall e | NamesSlot(e, r.entries, port, count, SLOTS)
      ensures Station(e.mac) && e.association != 0 && 0 < e.portNumber <= 65535
    {
      var i :| 0 <= i < SLOTS && r.entries[i].associated &&
        e == EntryOf(r.entries[i], WifiPorts.PortNumber(port, count, i));
      assert ValidPeer(r.entries[i], r.generation);
      WifiPorts.PortNumbersAreDistinct(port, i, port, i, count);
    }
  }

  // ---- Snapshots and the work they start ---------------------------------------------------

  predicate InSnapshot(r: Registry, port: nat, count: nat, e: Entry) {
    TakeSnapshot(r, port, count).Some? && e in TakeSnapshot(r, port, count).value.entries
  }

  lemma SameStationSameSlot(r: Registry, i: nat, j: nat)
    requires Valid(r) && i < SLOTS && j < SLOTS && r.entries[i].associated && r.entries[j].associated
    ensures r.entries[i].mac == r.entries[j].mac ==> i == j
  {
    if i < j {
      assert Apart(r.entries[i], r.entries[j]);
    } else if j < i {
      assert Apart(r.entries[j], r.entries[i]);
    }
  }

  /** A snapshot entry names its station: work for it reaches the station's own slot, and
      finds there what the entry says. */
  lemma EntryReachesSlot(r: Registry, port: nat, count: nat, e: Entry)
    requires Valid(r) && WifiPorts.Names(port, count, 0) && InSnapshot(r, port, count, e)
    ensures var i := Target(r, e.mac, e.association);
      && i < SLOTS && r.entries[i].associated && r.entries[i].mac == e.mac && r.entries[i].association == e.association
      && e.portNumber == WifiPorts.PortNumber(port, count, i) && e.announceRevision == r.entries[i].announce.revision
      && e.syncStopped == r.entries[i].syncStopped && e.syncRevision == r.entries[i].syncRevision
  {
    SnapshotIsFaithful(r, port, count);
    assert NamesSlot(e, r.entries, port, count, SLOTS);
    var i :| 0 <= i < SLOTS && r.entries[i].associated &&
      e == EntryOf(r.entries[i], WifiPorts.PortNumber(port, count, i));
    var found := Find(r.entries, e.mac);
    assert Holds(r.entries[i], e.mac);
    SameStationSameSlot(r, found, i);
  }

  /** While nothing has changed, a poll made from a snapshot is admitted: an entry whose
      schedule has not begun starts an Announce exactly when the registry may publish. */
  lemma SnapshotWorkStarts(r: Registry, hosted: bool, port: nat, count: nat, e: Entry, initial: int8,
                           information: uint32, now: int, slot: nat)
    requires Valid(r) && WifiPorts.Names(port, count, 0) && InSnapshot(r, port, count, e)
    requires slot == Target(r, e.mac, e.association) < SLOTS && !r.entries[slot].announce.initialized
    requires AnnounceSchedule.PeriodUs(initial) > 0 && 0 <= now <= INT64_MAX - AnnounceSchedule.PeriodUs(initial)
    ensures var op := AnnouncePoll(initial, e.announceRevision, information, now);
      Reaches(r, hosted, e.mac, e.association, op) && Succeeds(r.entries[slot], op) <==> Publishable(r, hosted)
  {
    EntryReachesSlot(r, port, count, e);
    assert ValidPeer(r.entries[slot], r.generation);
  }

  /** Under a host nothing is announced between a change of the stations and the report that
      settles it: a report that stands makes the registry publishable, and every join, leave
      and clear takes that back. Without a host, or when the radio cannot report, it always is. */
  lemma HostWaitsForReport(r: Registry, boot: uint32, generation: uint32, macs: seq<Mac>, mac: Mac)
    requires Valid(r) && r.generation + 1 + SLOTS <= UINT32_MAX && r.reconciled <= r.generation
    ensures Reconciles(r, boot, generation, macs) && !r.unreported ==>
      Publishable(Reconcile(r, boot, generation, macs), true)
    ensures CanJoin(r, mac) && !r.unreported ==> !Publishable(Join(r, mac), true)
    ensures Find(r.entries, mac) < SLOTS && !r.unreported ==> !Publishable(Leave(r, mac), true)
    ensures !r.unreported ==> !Publishable(Clear(r), true)
    ensures !Publishable(EMPTY, true) && Publishable(r, false) && (r.unreported ==> Publishable(r, true))
  {
  }

  /** And while it is not publishable, no Announce begins or completes. */
  lemma NothingUnpublished(r: Registry, hosted: bool, mac: Mac, association: uint32, op: Op)
    requires !Publishable(r, hosted) && (op.AnnouncePoll? || op.AnnounceSent?)
    ensures Step(r, hosted, Addressed(mac, association, op)) == r && !Reaches(r, hosted, mac, association, op)
  {
  }

  /** A poll of a slot issues a capability token only for a station that is there, on a
      registry that may publish, and never touches another slot; otherwise it stops the slot. */
  lemma SlotPollsExactly(r: Registry, hosted: bool, slot: nat, enabled: bool, now: int)
    requires slot < |r.entries|
    ensures var q := Step(r, hosted, SlotPolled(slot, enabled, now)).entries;
      && |q| == |r.entries| && (forall i :: 0 <= i < |q| && i != slot ==> q[i] == r.entries[i])
      && q[slot].(transmit := r.entries[slot].transmit) == r.entries[slot]
      && (if enabled && r.entries[slot].associated && Publishable(r, hosted)
          then q[slot].transmit == CapableSchedule.Step(r.entries[slot].transmit, CapableSchedule.Poll(true, now))
          else q[slot].transmit == r.entries[slot].transmit.(pending := 0, active := false))
  {
  }
}
