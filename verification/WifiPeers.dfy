/** The Wi-Fi association registry: sixteen slots whose numbers never move, host
    join and leave events, and reconciliation with ordered radio reports. */
module WifiPeers {
  import opened Arith
  import opened Bytes
  import opened WifiPeer
  import opened WifiPorts
  import CapableSchedule


  datatype Registry = Registry(generation: uint32, radioBoot: uint32, radioGeneration: uint32,
                               reconciled: uint32, unreported: bool, entries: seq<Peer>)

  const EMPTY := Registry(0, 0, 0, 0, false, seq(SLOTS, _ => VACANT))

  /** The first slot associated with the address, or the number of slots. */
  function Find(entries: seq<Peer>, mac: Mac): (slot: nat)
    ensures slot <= |entries|
    ensures slot < |entries| ==> Holds(entries[slot], mac)
    ensures forall i :: 0 <= i < slot ==> !Holds(entries[i], mac)
    decreases |entries|
  {
    if entries == [] || Holds(entries[0], mac) then 0
    else
      var rest := Find(entries[1..], mac);
      assert forall i :: 1 <= i < rest + 1 ==> entries[i] == entries[1..][i - 1];
      rest + 1
  }

  /** The first free slot, or the number of slots. */
  function FirstFree(entries: seq<Peer>): (slot: nat)
    ensures slot <= |entries|
    ensures slot < |entries| ==> !entries[slot].associated
    ensures forall i :: 0 <= i < slot ==> entries[i].associated
    decreases |entries|
  {
    if entries == [] || !entries[0].associated then 0
    else
      var rest := FirstFree(entries[1..]);
      assert forall i :: 1 <= i < rest + 1 ==> entries[i] == entries[1..][i - 1];
      rest + 1
  }

  /** The slot a join uses: the station's own one, else a free one. */
  function JoinSlot(entries: seq<Peer>, mac: Mac): (slot: nat)
    ensures slot <= |entries|
  {
    if Find(entries, mac) < |entries| then Find(entries, mac) else FirstFree(entries)
  }

  predicate CanJoin(r: Registry, mac: Mac) { Station(mac) && JoinSlot(r.entries, mac) < |r.entries| }

  /** A station that joins again keeps its slot and nothing else. */
  function Join(r: Registry, mac: Mac): Registry {
    if !CanJoin(r, mac) then r
    else
      var generation := Next32(r.generation);
      r.(generation := generation, entries := r.entries[JoinSlot(r.entries, mac) := Joined(mac, generation)])
  }

  function Leave(r: Registry, mac: Mac): Registry {
    var slot := Find(r.entries, mac);
    if slot == |r.entries| then r
    else r.(generation := Next32(r.generation), entries := r.entries[slot := VACANT])
  }

  function Clear(r: Registry): Registry {
    r.(generation := Next32(r.generation), entries := seq(|r.entries|, _ => VACANT))
  }

  // ---- Radio reports -------------------------------------------------------------

  predicate Distinct(macs: seq<Mac>) {
    forall i, j :: 0 <= i < j < |macs| ==> macs[i] != macs[j]
  }

  predicate WellFormed(boot: uint32, generation: uint32, macs: seq<Mac>) {
    && boot != 0 && generation != 0 && |macs| <= SLOTS
    && (forall i :: 0 <= i < |macs| ==> Station(macs[i])) && Distinct(macs)
  }

  /** Serial-number order: the 32-bit difference is negative. */
  predicate Older(generation: uint32, than: uint32) { (generation - than) % 0x1_0000_0000 >= 0x8000_0000 }

  /** The report is of this boot and does not follow the reconciled one. */
  predicate Stale(r: Registry, boot: uint32, generation: uint32) {
    r.radioBoot == boot && Older(generation, r.radioGeneration)
  }

  predicate Repeats(r: Registry, boot: uint32, generation: uint32) {
    r.radioBoot == boot && r.radioGeneration == generation
  }

  function AssociatedCount(entries: seq<Peer>): nat
    decreases |entries|
  {
    if entries == [] then 0
    else
      var last := |entries| - 1;
      AssociatedCount(entries[..last]) + if entries[last].associated then 1 else 0
  }

  predicate Confirms(r: Registry, macs: seq<Mac>) {
    && r.reconciled == r.generation
    && (forall i :: 0 <= i < |r.entries| ==> r.entries[i].associated ==> r.entries[i].mac in macs)
    && AssociatedCount(r.entries) == |macs|
  }

  function Prune(entries: seq<Peer>, macs: seq<Mac>): (pruned: seq<Peer>)
    ensures |pruned| == |entries|
  {
    seq(|entries|, i requires 0 <= i < |entries| =>
      if entries[i].associated && entries[i].mac !in macs then VACANT else entries[i])
  }

  function JoinFrom(r: Registry, macs: seq<Mac>, from: nat): Registry
    requires from <= |macs|
    decreases |macs| - from
  {
    if from == |macs| then r else JoinFrom(Join(r, macs[from]), macs, from + 1)
  }

  /** The registry with every station not reported dropped, in a new generation. */
  function Swept(r: Registry, macs: seq<Mac>): Registry {
    r.(generation := Next32(r.generation), entries := Prune(r.entries, macs))
  }

  predicate Newer(r: Registry, boot: uint32, generation: uint32, macs: seq<Mac>) {
    WellFormed(boot, generation, macs) && !Stale(r, boot, generation) && !Repeats(r, boot, generation)
  }

  function Reconcile(r: Registry, boot: uint32, generation: uint32, macs: seq<Mac>): Registry {
    if !Newer(r, boot, generation, macs) then r
    else
      var joined := JoinFrom(Swept(r, macs), macs, 0);
      joined.(radioBoot := boot, radioGeneration := generation, reconciled := joined.generation)
  }

  predicate Reconciles(r: Registry, boot: uint32, generation: uint32, macs: seq<Mac>) {
    Newer(r, boot, generation, macs) ||
      (WellFormed(boot, generation, macs) && Repeats(r, boot, generation) && Confirms(r, macs))
  }

  // ---- Operations on one entry -------------------------------------------------------

  /** Identities are published only after reconciliation where a radio reports them. */
  predicate Publishable(r: Registry, hosted: bool) {
    !hosted || r.unreported || (r.radioBoot != 0 && r.radioGeneration != 0 && r.reconciled == r.generation)
  }

  /** The slot a message or completion for this lifetime reaches, or the slot count. */
  function Target(r: Registry, mac: Mac, association: uint32): (slot: nat)
    ensures slot <= |r.entries|
    ensures slot < |r.entries| ==> Holds(r.entries[slot], mac) && r.entries[slot].association == association
  {
    var slot := Find(r.entries, mac);
    if slot < |r.entries| && r.entries[slot].association == association then slot else |r.entries|
  }

  predicate Reaches(r: Registry, hosted: bool, mac: Mac, association: uint32, op: Op) {
    Target(r, mac, association) < |r.entries| && (op.AnnouncePoll? || op.AnnounceSent? ==> Publishable(r, hosted))
  }

  function OnPeer(r: Registry, hosted: bool, mac: Mac, association: uint32, op: Op): Registry {
    if !Reaches(r, hosted, mac, association, op) then r
    else
      var slot := Target(r, mac, association);
      r.(entries := r.entries[slot := Apply(r.entries[slot], op)])
  }

  function PollSlot(r: Registry, hosted: bool, slot: nat, enabled: bool, now: int): Registry
    requires slot < |r.entries|
  {
    var p := r.entries[slot];
    r.(entries := r.entries[slot := p.(transmit :=
      CapableSchedule.Begin(p.transmit, enabled && Publishable(r, hosted) && p.associated, now))])
  }

  /** A change of profile retires the media state of every slot. */
  function ResetProfile(r: Registry): Registry {
    r.(entries := seq(|r.entries|, i requires 0 <= i < |r.entries| => Unbind(r.entries[i])))
  }

  // ---- Snapshots ---------------------------------------------------------------------

  datatype Entry = Entry(mac: Mac, portNumber: nat, association: uint32, syncStopped: bool,
                         syncRevision: uint32, announceRevision: uint32)

  datatype Snapshot = Snapshot(generation: uint32, radioBoot: uint32, radioGeneration: uint32, entries: seq<Entry>)

  function EntryOf(p: Peer, portNumber: nat): Entry {
    Entry(p.mac, portNumber, p.association, p.syncStopped, p.syncRevision, p.announce.revision)
  }

  /** The entries of the associated slots below n, in slot order. */
  function Entries(peers: seq<Peer>, port: nat, count: nat, n: nat): seq<Entry>
    requires n <= |peers|
  {
    if n == 0 then []
    else
      var before := Entries(peers, port, count, n - 1);
      if peers[n - 1].associated
      then before + [EntryOf(peers[n - 1], WifiPorts.PortNumber(port, count, n - 1))]
      else before
  }

  predicate Numbered(peers: seq<Peer>) {
    forall i :: 0 <= i < |peers| ==> peers[i].associated ==> peers[i].association != 0
  }

  function TakeSnapshot(r: Registry, port: nat, count: nat): Option<Snapshot> {
    if WifiPorts.PortNumber(port, count, 0) == 0 || !Numbered(r.entries) then None
    else
      var current := r.reconciled == r.generation;
      Some(Snapshot(r.generation, if current then r.radioBoot else 0, if current then r.radioGeneration else 0,
                    Entries(r.entries, port, count, |r.entries|)))
  }

  class AssociationRegistry {
    var generation: uint32
    var radioBoot: uint32
    var radioGeneration: uint32
    var reconciled: uint32
    var unreported: bool
    const entries: array<Peer>

    function Value(): Registry
      reads this, entries
    {
      Registry(generation, radioBoot, radioGeneration, reconciled, unreported, entries[..])
    }

    constructor ()
      ensures Value() == EMPTY && fresh(entries)
    {
      generation, radioBoot, radioGeneration, reconciled, unreported := 0, 0, 0, 0, false;
      entries := new Peer[SLOTS](_ => VACANT);
      new;
      assert entries[..] == EMPTY.entries;
    }

    method Advance()
      modifies this`generation
      ensures generation == Next32(old(generation))
    {
      generation := Next32(generation);
    }

    method FindSlot(mac: Mac) returns (slot: nat)
      ensures slot == Find(entries[..], mac)
    {
      slot := 0;
      while slot < entries.Length
        invariant slot <= entries.Length
        invariant forall i :: 0 <= i < slot ==> !Holds(entries[i], mac)
      {
        if entries[slot].associated && entries[slot].mac == mac {
          FirstIsFind(entries[..], mac, slot);
          return;
        }
        slot := slot + 1;
      }
      FirstIsFind(entries[..], mac, slot);
    }

    method ClearAll()
      modifies this`generation, entries
      ensures Value() == Clear(old(Value()))
    {
      Advance();
      var slot := 0;
      while slot < entries.Length
        invariant slot <= entries.Length
        invariant forall i :: 0 <= i < slot ==> entries[i] == VACANT
        modifies entries
      {
        entries[slot] := VACANT;
        slot := slot + 1;
      }
      assert entries[..] == Clear(old(Value())).entries;
    }

    method JoinStation(mac: Mac) returns (slot: nat)
      modifies this`generation, entries
      ensures Value() == Join(old(Value()), mac)
      ensures slot < entries.Length <==> CanJoin(old(Value()), mac)
    {
      slot := entries.Length;
      if mac[0] % 2 == 1 || mac == ZERO_MAC { return; }
      slot := FindSlot(mac);
      if slot == entries.Length {
        slot := 0;
        while slot < entries.Length && entries[slot].associated
          invariant slot <= entries.Length
          invariant forall i :: 0 <= i < slot ==> entries[i].associated
        {
          slot := slot + 1;
        }
        FirstIsFree(entries[..], slot);
      }
      if slot == entries.Length { return; }
      Advance();
      entries[slot] := Joined(mac, generation);
      assert entries[..] == old(entries[..])[slot := Joined(mac, generation)];
    }

    method LeaveStation(mac: Mac)
      modifies this`generation, entries
      ensures Value() == Leave(old(Value()), mac)
    {
      var slot := FindSlot(mac);
      if slot == entries.Length { return; }
      entries[slot] := VACANT;
      Advance();
      assert entries[..] == old(entries[..])[slot := VACANT];
    }

    method Contradicted(macs: seq<Mac>) returns (contradicted: bool, associated: nat)
      ensures contradicted <==> exists i :: 0 <= i < entries.Length && entries[i].associated && entries[i].mac !in macs
      ensures !contradicted ==> associated == AssociatedCount(entries[..])
    {
      associated := 0;
      var slot := 0;
      while slot < entries.Length
        invariant slot <= entries.Length
        invariant forall i :: 0 <= i < slot ==> entries[i].associated ==> entries[i].mac in macs
        invariant associated == AssociatedCount(entries[..slot])
      {
        assert entries[..slot + 1][..slot] == entries[..slot];
        if entries[slot].associated {
          if entries[slot].mac !in macs { return true, associated; }
          associated := associated + 1;
        }
        slot := slot + 1;
      }
      assert entries[..slot] == entries[..];
      return false, associated;
    }

    method CheckReport(macs: seq<Mac>) returns (ok: bool)
      ensures ok <==> (forall i :: 0 <= i < |macs| ==> Station(macs[i])) && Distinct(macs)
    {
      var index := 0;
      while index < |macs|
        invariant index <= |macs|
        invariant forall i :: 0 <= i < index ==> Station(macs[i])
        invariant Distinct(macs[..index])
      {
        if macs[index][0] % 2 == 1 || macs[index] == ZERO_MAC { return false; }
        var previous := 0;
        while previous < index
          invariant previous <= index
          invariant forall i :: 0 <= i < previous ==> macs[i] != macs[index]
        {
          if macs[index] == macs[previous] { return false; }
          previous := previous + 1;
        }
        assert forall i, j :: 0 <= i < j < index ==> macs[..index][i] != macs[..index][j];
        index := index + 1;
      }
      assert macs[..index] == macs;
      return true;
    }

    method ReconcileReport(boot: uint32, radio: uint32, macs: seq<Mac>) returns (ok: bool)
      modifies this, entries
      ensures Value() == Reconcile(old(Value()), boot, radio, macs)
      ensures ok <==> Reconciles(old(Value()), boot, radio, macs)
    {
      var newer, confirmed := Judge(boot, radio, macs);
      if !newer { return confirmed; }
      Sweep(macs);
      Advance();
      JoinReported(macs);
      radioBoot := boot;
      radioGeneration := radio;
      reconciled := generation;
      return true;
    }

    /** Decides a report without touching the registry. */
    method Judge(boot: uint32, radio: uint32, macs: seq<Mac>) returns (newer: bool, confirmed: bool)
      ensures newer <==> Newer(Value(), boot, radio, macs)
      ensures newer || confirmed <==> Reconciles(Value(), boot, radio, macs)
    {
      if boot == 0 || radio == 0 || |macs| > SLOTS { return false, false; }
      var stations := CheckReport(macs);
      if !stations { return false, false; }
      if radioBoot == boot {
        var difference := (radio - radioGeneration) % 0x1_0000_0000;
        if difference >= 0x8000_0000 { return false, false; }
        if difference == 0 {
          if reconciled != generation { return false, false; }
          var contradicted, associated := Contradicted(macs);
          return false, !contradicted && associated == |macs|;
        }
      }
      return true, false;
    }

    method Sweep(macs: seq<Mac>)
      modifies entries
      ensures entries[..] == Prune(old(entries[..]), macs)
    {
      var slot := 0;
      while slot < entries.Length
        invariant slot <= entries.Length
        invariant forall i :: 0 <= i < slot ==> entries[i] == Prune(old(entries[..]), macs)[i]
        invariant forall i :: slot <= i < entries.Length ==> entries[i] == old(entries[i])
      {
        if entries[slot].associated && entries[slot].mac !in macs { entries[slot] := VACANT; }
        slot := slot + 1;
      }
    }

    method JoinReported(macs: seq<Mac>)
      modifies this`generation, entries
      ensures Value() == JoinFrom(old(Value()), macs, 0)
    {
      var index := 0;
      while index < |macs|
        invariant index <= |macs|
        invariant JoinFrom(Value(), macs, index) == JoinFrom(old(Value()), macs, 0)
      {
        var _ := JoinStation(macs[index]);
        index := index + 1;
      }
    }

    method Dispatch(hosted: bool, mac: Mac, association: uint32, op: Op) returns (ok: bool)
      modifies entries
      ensures Value() == OnPeer(old(Value()), hosted, mac, association, op)
      ensures ok <==>
        old(Reaches(Value(), hosted, mac, association, op) &&
              Succeeds(Value().entries[Target(Value(), mac, association)], op))
    {
      var slot := FindSlot(mac);
      if slot == entries.Length || entries[slot].association != association { return false; }
      var publishable := !hosted || unreported || (radioBoot != 0 && radioGeneration != 0 && reconciled == generation);
      if (op.AnnouncePoll? || op.AnnounceSent?) && !publishable { return false; }
      ok := Succeeds(entries[slot], op);
      entries[slot] := Apply(entries[slot], op);
    }

    method CopySnapshot(port: nat, count: nat) returns (snapshot: Option<Snapshot>)
      ensures snapshot == TakeSnapshot(Value(), port, count)
    {
      if WifiPorts.PortNumber(port, count, 0) == 0 { return None; }
      var copied: seq<Entry> := [];
      var slot := 0;
      while slot < entries.Length
        invariant slot <= entries.Length
        invariant copied == Entries(entries[..], port, count, slot)
        invariant Numbered(entries[..slot])
      {
        if entries[slot].associated {
          if entries[slot].association == 0 { return None; }
          copied := copied + [EntryOf(entries[slot], WifiPorts.PortNumber(port, count, slot))];
        }
        assert entries[..slot + 1] == entries[..slot] + [entries[slot]];
        slot := slot + 1;
      }
      assert entries[..slot] == entries[..];
      var current := reconciled == generation;
      snapshot := Some(Snapshot(generation, if current then radioBoot else 0,
                                if current then radioGeneration else 0, copied));
    }
  }

  lemma FirstIsFind(entries: seq<Peer>, mac: Mac, slot: nat)
    requires slot <= |entries| && (slot < |entries| ==> Holds(entries[slot], mac))
    requires forall i :: 0 <= i < slot ==> !Holds(entries[i], mac)
    ensures slot == Find(entries, mac)
  {
  }

  lemma FirstIsFree(entries: seq<Peer>, slot: nat)
    requires slot <= |entries| && (slot < |entries| ==> !entries[slot].associated)
    requires forall i :: 0 <= i < slot ==> entries[i].associated
    ensures slot == FirstFree(entries)
  {
  }

  // ---- Invariant -------------------------------------------------------------------

  /** Live addresses are distinct stations; associations are distinct, non-zero and no
      newer than the generation; every schedule is well formed. */
  ghost predicate Valid(r: Registry) {
    && |r.entries| == SLOTS
    && (forall i {:trigger ValidPeer(r.entries[i], r.generation)} :: 0 <= i < SLOTS ==>
        ValidPeer(r.entries[i], r.generation))
    && (forall i, j {:trigger Apart(r.entries[i], r.entries[j])} :: 0 <= i < j < SLOTS ==>
        Apart(r.entries[i], r.entries[j]))
  }

  predicate Apart(p: Peer, q: Peer) {
    p.associated && q.associated ==> p.mac != q.mac && p.association != q.association
  }

  lemma JoinIsValid(r: Registry, mac: Mac)
    requires Valid(r) && r.generation < UINT32_MAX
    ensures Valid(Join(r, mac)) && r.generation <= Join(r, mac).generation <= r.generation + 1
  {
    if CanJoin(r, mac) {
      JoinSlots(r, mac);
      var next, slot := Join(r, mac), JoinSlot(r.entries, mac);
      forall i | 0 <= i < SLOTS ensures ValidPeer(next.entries[i], next.generation) {
        assert ValidPeer(r.entries[i], r.generation);
      }
      forall i, j | 0 <= i < j < SLOTS ensures Apart(next.entries[i], next.entries[j]) {
        assert Apart(r.entries[i], r.entries[j]);
        assert ValidPeer(r.entries[i], r.generation) && ValidPeer(r.entries[j], r.generation);
      }
    }
  }

  // ---- Pigeonhole --------------------------------------------------------------------

  lemma {:induction false} DistinctFit(macs: seq<Mac>, within: set<Mac>)
    requires Distinct(macs) && forall i :: 0 <= i < |macs| ==> macs[i] in within
    ensures |macs| <= |within|
    decreases |macs|
  {
    if macs == [] {
    } else {
      var last := |macs| - 1;
      assert forall i, j :: 0 <= i < j < last ==> macs[..last][i] != macs[..last][j];
      DistinctFit(macs[..last], within - {macs[last]});
    }
  }

  lemma {:induction false} SetOfDistinct(macs: seq<Mac>)
    requires Distinct(macs)
    ensures |set m | m in macs| == |macs|
    decreases |macs|
  {
    if macs == [] {
      assert (set m | m in macs) == {};
    } else {
      var last := |macs| - 1;
      DistinctFront(macs);
      SetOfDistinct(macs[..last]);
      SetOfLonger(macs[..last], macs[last], macs);
    }
  }

  lemma DistinctFront(macs: seq<Mac>)
    requires Distinct(macs) && macs != []
    ensures Distinct(macs[..|macs| - 1]) && macs[|macs| - 1] !in macs[..|macs| - 1]
  {
  }

  lemma SetOfLonger(front: seq<Mac>, last: Mac, macs: seq<Mac>)
    requires macs == front + [last]
    ensures (set m | m in macs) == (set m | m in front) + {last}
  {
  }

  /** The addresses associated, as a set. */
  ghost function LiveMacs(entries: seq<Peer>): set<Mac>
    decreases |entries|
  {
    if entries == [] then {}
    else
      var last := |entries| - 1;
      LiveMacs(entries[..last]) + if entries[last].associated then {entries[last].mac} else {}
  }

  lemma {:induction false} LiveIsHeld(entries: seq<Peer>, mac: Mac)
    ensures mac in LiveMacs(entries) <==> exists i :: 0 <= i < |entries| && Holds(entries[i], mac)
    decreases |entries|
  {
    if entries == [] {
    } else {
      var last := |entries| - 1;
      var front := entries[..last];
      LiveIsHeld(front, mac);
      assert forall i :: 0 <= i < last ==> front[i] == entries[i];
      if exists i :: 0 <= i < |entries| && Holds(entries[i], mac) {
        var i :| 0 <= i < |entries| && Holds(entries[i], mac);
        assert i < last ==> Holds(front[i], mac);
      }
    }
  }

  lemma {:induction false} CountIsLive(entries: seq<Peer>)
    requires forall i, j :: 0 <= i < j < |entries| && entries[i].associated && entries[j].associated ==>
      entries[i].mac != entries[j].mac
    ensures AssociatedCount(entries) == |LiveMacs(entries)|
    decreases |entries|
  {
    if entries == [] {
    } else {
      var last := |entries| - 1;
      CountIsLive(entries[..last]);
      LiveIsHeld(entries[..last], entries[last].mac);
    }
  }

  /** Among at most sixteen reported stations, one that is not yet in the registry
      always finds a free slot. */
  lemma RoomForReported(r: Registry, macs: seq<Mac>, mac: Mac)
    requires Valid(r) && Distinct(macs) && |macs| <= SLOTS && mac in macs && Station(mac)
    requires forall i :: 0 <= i < SLOTS ==> r.entries[i].associated ==> r.entries[i].mac in macs
    ensures CanJoin(r, mac)
  {
    if Find(r.entries, mac) == SLOTS && FirstFree(r.entries) == SLOTS {
      var live := seq(SLOTS, i requires 0 <= i < SLOTS => r.entries[i].mac);
      var others := (set m | m in macs) - {mac};
      SetOfDistinct(macs);
      forall i | 0 <= i < SLOTS ensures live[i] in others {
        assert !Holds(r.entries[i], mac) && r.entries[i].associated;
      }
      forall i, j | 0 <= i < j < SLOTS ensures live[i] != live[j] {
        assert Apart(r.entries[i], r.entries[j]);
      }
      DistinctFit(live, others);
      assert false;
    }
  }

  // ---- Reconciliation --------------------------------------------------------------

  /** The station is still to be joined. */
  ghost predicate Remains(macs: seq<Mac>, from: nat, mac: Mac) {
    exists k :: from <= k < |macs| && macs[k] == mac
  }

  /** A fresh lifetime: a new association and nothing else. */
  predicate Fresh(p: Peer, floor: int) { p.association > floor && p == Joined(p.mac, p.association) }

  /** What joining the stations from `from` on makes of one slot: a live entry keeps its
      slot and address, and is either untouched or started afresh. */
  ghost predicate Rejoined(p: Peer, q: Peer, macs: seq<Mac>, from: nat, floor: int) {
    && (p.associated ==> q.associated && q.mac == p.mac)
    && (q.associated ==> if Remains(macs, from, q.mac) then Fresh(q, floor) else q == p)
  }

  lemma JoinSlots(r: Registry, mac: Mac)
    requires |r.entries| == SLOTS && CanJoin(r, mac)
    requires forall i, j {:trigger Apart(r.entries[i], r.entries[j])} :: 0 <= i < j < SLOTS ==>
      Apart(r.entries[i], r.entries[j])
    ensures var next, slot := Join(r, mac), JoinSlot(r.entries, mac);
      && slot < SLOTS == |next.entries| && next.entries[slot] == Joined(mac, next.generation)
      && (r.entries[slot].associated ==> r.entries[slot].mac == mac)
      && (forall i :: 0 <= i < SLOTS && i != slot ==> next.entries[i] == r.entries[i])
      && (forall i :: 0 <= i < SLOTS && i != slot ==> !Holds(r.entries[i], mac))
  {
    var slot := JoinSlot(r.entries, mac);
    forall i | 0 <= i < SLOTS && i != slot ensures !Holds(r.entries[i], mac) {
      if Find(r.entries, mac) < SLOTS {
        assert Holds(r.entries[slot], mac);
        assert i < slot ==> Apart(r.entries[i], r.entries[slot]);
        assert slot < i ==> Apart(r.entries[slot], r.entries[i]);
      }
    }
  }

  /** Stations remain to be joined, and room for them in the counter. */
  ghost predicate Joining(r: Registry, macs: seq<Mac>, from: nat) {
    && Valid(r) && from <= |macs| <= SLOTS && Distinct(macs) && r.generation + (|macs| - from) <= UINT32_MAX
    && (forall i :: 0 <= i < |macs| ==> Station(macs[i]))
    && (forall i :: 0 <= i < SLOTS ==> r.entries[i].associated ==> r.entries[i].mac in macs)
  }

  lemma {:induction false} JoinAll(r: Registry, macs: seq<Mac>, from: nat)
    requires Joining(r, macs, from)
    ensures var after := JoinFrom(r, macs, from);
      && Joining(after, macs, |macs|) && r.generation <= after.generation <= r.generation + (|macs| - from)
      && after.radioBoot == r.radioBoot && after.radioGeneration == r.radioGeneration
    decreases |macs| - from
  {
    if from == |macs| {
    } else {
      JoiningNext(r, macs, from);
      JoinAll(Join(r, macs[from]), macs, from + 1);
    }
  }

  lemma JoiningNext(r: Registry, macs: seq<Mac>, from: nat)
    requires Joining(r, macs, from) && from < |macs|
    ensures var next := Join(r, macs[from]);
      && Joining(next, macs, from + 1) && next.generation == r.generation + 1
      && next.radioBoot == r.radioBoot && next.radioGeneration == r.radioGeneration
  {
    JoinOne(r, macs, macs[from]);
  }

  lemma {:induction false} JoinAllSlot(r: Registry, macs: seq<Mac>, from: nat, floor: int, i: nat)
    requires Joining(r, macs, from) && floor <= r.generation && i < SLOTS
    ensures |JoinFrom(r, macs, from).entries| == SLOTS
    ensures Rejoined(r.entries[i], JoinFrom(r, macs, from).entries[i], macs, from, floor)
    decreases |macs| - from
  {
    if from == |macs| {
    } else {
      var mac := macs[from];
      JoinOne(r, macs, mac);
      JoiningNext(r, macs, from);
      var next := Join(r, mac);
      JoinAllSlot(next, macs, from + 1, floor, i);
      RejoinedStep(r.entries[i], next.entries[i], JoinFrom(r, macs, from).entries[i], macs, from, floor,
                   next.generation, i == JoinSlot(r.entries, mac));
    }
  }

  lemma {:induction false} JoinAllFinds(r: Registry, macs: seq<Mac>, from: nat, k: nat)
    requires Joining(r, macs, from) && from <= k < |macs|
    ensures Find(JoinFrom(r, macs, from).entries, macs[k]) < |JoinFrom(r, macs, from).entries| == SLOTS
    decreases |macs| - from
  {
    var mac := macs[from];
    JoinOne(r, macs, mac);
    var next := Join(r, mac);
    if k == from {
      var slot := JoinSlot(r.entries, mac);
      JoinAllSlot(next, macs, from + 1, next.generation, slot);
      assert Holds(JoinFrom(next, macs, from + 1).entries[slot], mac);
    } else {
      JoinAllFinds(next, macs, from + 1, k);
    }
  }

  lemma JoinOne(r: Registry, macs: seq<Mac>, mac: Mac)
    requires Valid(r) && Distinct(macs) && |macs| <= SLOTS && mac in macs && Station(mac) && r.generation < UINT32_MAX
    requires forall i :: 0 <= i < SLOTS ==> r.entries[i].associated ==> r.entries[i].mac in macs
    ensures var next, slot := Join(r, mac), JoinSlot(r.entries, mac);
      && Valid(next) && next.generation == r.generation + 1 && CanJoin(r, mac)
      && (forall i :: 0 <= i < SLOTS ==> next.entries[i].associated ==> next.entries[i].mac in macs)
      && next.entries[slot] == Joined(mac, next.generation)
      && (r.entries[slot].associated ==> r.entries[slot].mac == mac)
      && (forall i :: 0 <= i < SLOTS && i != slot ==> next.entries[i] == r.entries[i] && !Holds(r.entries[i], mac))
  {
    RoomForReported(r, macs, mac);
    JoinIsValid(r, mac);
    JoinSlots(r, mac);
  }

  lemma RejoinedStep(p: Peer, n: Peer, q: Peer, macs: seq<Mac>, from: nat, floor: int, generation: uint32, chosen: bool)
    requires from < |macs| && Distinct(macs) && floor < generation
    requires Rejoined(n, q, macs, from + 1, floor)
    requires chosen ==> n == Joined(macs[from], generation) && (p.associated ==> p.mac == macs[from])
    requires !chosen ==> n == p && !Holds(p, macs[from])
    ensures Rejoined(p, q, macs, from, floor)
  {
    assert Remains(macs, from, q.mac) <==> q.mac == macs[from] || Remains(macs, from + 1, q.mac);
    if chosen {
      assert !Remains(macs, from + 1, macs[from]);
    }
  }

  lemma SweptIsValid(r: Registry, macs: seq<Mac>)
    requires Valid(r) && r.generation < UINT32_MAX
    ensures var swept := Swept(r, macs);
      && Valid(swept) && swept.generation == r.generation + 1
      && (forall i :: 0 <= i < SLOTS ==> swept.entries[i].associated ==> swept.entries[i].mac in macs)
      && (forall i :: 0 <= i < SLOTS ==> r.entries[i].associated && r.entries[i].mac in macs ==>
          swept.entries[i] == r.entries[i])
  {
    var swept := Swept(r, macs);
    forall i | 0 <= i < SLOTS ensures ValidPeer(swept.entries[i], swept.generation) {
      assert ValidPeer(r.entries[i], r.generation);
    }
    forall i, j | 0 <= i < j < SLOTS ensures Apart(swept.entries[i], swept.entries[j]) {
      assert Apart(r.entries[i], r.entries[j]);
    }
  }

  /** An accepted newer report leaves exactly the reported stations associated, finds a
      slot for each, keeps every survivor in its slot, and gives every entry a fresh
      association and nothing of its former state. */
  lemma NewerReportIsExact(r: Registry, boot: uint32, generation: uint32, macs: seq<Mac>)
    requires Valid(r) && r.generation + 1 + SLOTS <= UINT32_MAX && Newer(r, boot, generation, macs)
    ensures var after := Reconcile(r, boot, generation, macs);
      && Valid(after) && r.generation < after.generation <= r.generation + 1 + SLOTS
      && LiveMacs(after.entries) == (set m | m in macs)
      && (forall i :: 0 <= i < SLOTS ==> r.entries[i].associated && r.entries[i].mac in macs ==>
            after.entries[i].associated && after.entries[i].mac == r.entries[i].mac)
      && (forall i :: 0 <= i < SLOTS ==> after.entries[i].associated ==> Fresh(after.entries[i], r.generation))
  {
    var swept := Swept(r, macs);
    SweptIsValid(r, macs);
    JoinAll(swept, macs, 0);
    var joined := JoinFrom(swept, macs, 0);
    forall i | 0 <= i < SLOTS
      ensures joined.entries[i].associated ==> joined.entries[i].mac in macs && Fresh(joined.entries[i], r.generation)
    {
      JoinAllSlot(swept, macs, 0, swept.generation, i);
      if joined.entries[i].associated && joined.entries[i].mac in macs {
        assert Remains(macs, 0, joined.entries[i].mac);
      }
    }
    forall k | 0 <= k < |macs| ensures Find(joined.entries, macs[k]) < SLOTS {
      JoinAllFinds(swept, macs, 0, k);
    }
    ReportedAreLive(joined, macs);
    var after := Reconcile(r, boot, generation, macs);
    assert after.entries == joined.entries && after.generation == joined.generation;
    assert Valid(after) by {
      assert forall i {:trigger ValidPeer(after.entries[i], after.generation)} :: 0 <= i < SLOTS ==>
        ValidPeer(joined.entries[i], joined.generation);
    }
    forall i | 0 <= i < SLOTS && r.entries[i].associated && r.entries[i].mac in macs
      ensures after.entries[i].associated && after.entries[i].mac == r.entries[i].mac
    {
      JoinAllSlot(swept, macs, 0, swept.generation, i);
    }
  }

  lemma ReportedAreLive(r: Registry, macs: seq<Mac>)
    requires |r.entries| == SLOTS
    requires forall k :: 0 <= k < |macs| ==> Find(r.entries, macs[k]) < SLOTS
    requires forall i :: 0 <= i < SLOTS ==> r.entries[i].associated ==> r.entries[i].mac in macs
    ensures LiveMacs(r.entries) == (set m | m in macs)
  {
    forall m: Mac ensures m in LiveMacs(r.entries) <==> m in macs {
      LiveIsHeld(r.entries, m);
      if m in macs {
        var k :| 0 <= k < |macs| && macs[k] == m;
        assert Holds(r.entries[Find(r.entries, m)], m);
      }
    }
  }

  /** Repeating an accepted report succeeds and changes nothing; a same-numbered report
      is accepted exactly when it names the stations already associated. */
  lemma RepeatedReport(r: Registry, boot: uint32, generation: uint32, macs: seq<Mac>, again: seq<Mac>)
    requires Valid(r) && r.generation + 1 + SLOTS <= UINT32_MAX
    requires Newer(r, boot, generation, macs) && WellFormed(boot, generation, again)
    ensures var after := Reconcile(r, boot, generation, macs);
      && Reconcile(after, boot, generation, again) == after
      && (Reconciles(after, boot, generation, again) <==> (set m | m in again) == (set m | m in macs))
  {
    NewerReportIsExact(r, boot, generation, macs);
    ConfirmsSameStations(Reconcile(r, boot, generation, macs), again);
  }

  lemma ConfirmsSameStations(r: Registry, macs: seq<Mac>)
    requires Valid(r) && Distinct(macs) && r.reconciled == r.generation
    ensures Confirms(r, macs) <==> (set m | m in macs) == LiveMacs(r.entries)
  {
    var named, live := (set m | m in macs), LiveMacs(r.entries);
    forall i, j | 0 <= i < j < SLOTS && r.entries[i].associated && r.entries[j].associated
      ensures r.entries[i].mac != r.entries[j].mac
    {
      assert Apart(r.entries[i], r.entries[j]);
    }
    CountIsLive(r.entries);
    SetOfDistinct(macs);
    forall m: Mac ensures m in live <==> exists i :: 0 <= i < SLOTS && Holds(r.entries[i], m) {
      LiveIsHeld(r.entries, m);
    }
    if Confirms(r, macs) {
      assert live <= named;
      SubsetOfSameSize(live, named);
    } else if live == named {
      forall i | 0 <= i < SLOTS && r.entries[i].associated ensures r.entries[i].mac in macs {
        assert Holds(r.entries[i], r.entries[i].mac);
        assert r.entries[i].mac in live;
      }
    }
  }

  lemma SubsetOfSameSize(a: set<Mac>, b: set<Mac>)
    requires a <= b && |a| == |b|
    ensures a == b
  {
    if !(b <= a) {
      var x :| x in b && x !in a;
      assert |b - {x}| == |b| - 1 && a <= b - {x};
      SizeGrows(a, b - {x});
    }
  }

  lemma {:induction false} SizeGrows(a: set<Mac>, b: set<Mac>)
    requires a <= b
    ensures |a| <= |b|
    decreases a
  {
    if a != {} {
      var x :| x in a;
      SizeGrows(a - {x}, b - {x});
    }
  }

  /** The order of report numbers, which wrap at 32 bits: for half the range ahead of the
      reconciled one a report of the same boot is accepted, for half the range behind it is
      and at the very middle, it is refused and changes nothing; a report of another boot is
      always accepted. */
  lemma ReportOrder(r: Registry, boot: uint32, generation: uint32, macs: seq<Mac>, k: int)
    requires WellFormed(boot, generation, macs) && 0 < k <= 0x8000_0000
    ensures r.radioBoot == boot && k < 0x8000_0000 && generation == (r.radioGeneration + k) % 0x1_0000_0000 ==>
      Reconciles(r, boot, generation, macs) && Reconcile(r, boot, generation, macs).radioGeneration == generation
    ensures r.radioBoot == boot && generation == (r.radioGeneration - k) % 0x1_0000_0000 ==>
      !Reconciles(r, boot, generation, macs) && Reconcile(r, boot, generation, macs) == r
    ensures r.radioBoot != boot ==>
      Reconciles(r, boot, generation, macs) && Reconcile(r, boot, generation, macs).radioBoot == boot
  {
    Ahead(r.radioGeneration, generation, k);
    Behind(r.radioGeneration, generation, k);
  }

  lemma Ahead(from: uint32, to: uint32, k: int)
    requires 0 < k
    ensures k < 0x8000_0000 && to == (from + k) % 0x1_0000_0000 ==> to != from && !Older(to, from)
  {
    if k < 0x8000_0000 { SerialDistance(from, k); }
  }

  lemma Behind(from: uint32, to: uint32, k: int)
    requires 0 < k <= 0x8000_0000
    ensures to == (from - k) % 0x1_0000_0000 ==> Older(to, from)
  {
    SerialDistance(from, k);
  }

  lemma SerialDistance(from: uint32, k: int)
    requires 0 < k <= 0x8000_0000
    ensures ((from + k) % 0x1_0000_0000 - from) % 0x1_0000_0000 == k
    ensures ((from - k) % 0x1_0000_0000 - from) % 0x1_0000_0000 == 0x1_0000_0000 - k
  {
  }

  /** A malformed report, an older one of the same boot, or one that contradicts the
      reconciled state leaves the registry untouched and is refused. */
  lemma RefusedReport(r: Registry, boot: uint32, generation: uint32, macs: seq<Mac>)
    ensures !Reconciles(r, boot, generation, macs) ==> Reconcile(r, boot, generation, macs) == r
    ensures Stale(r, boot, generation) ==> !Reconciles(r, boot, generation, macs)
    ensures Repeats(r, boot, generation) && r.reconciled != r.generation ==> !Reconciles(r, boot, generation, macs)
  {
    if Stale(r, boot, generation) {
      assert (generation - r.radioGeneration) % 0x1_0000_0000 >= 0x8000_0000;
    }
  }

  /** Exactly these reports are well formed: numbered, of at most sixteen distinct addresses
      that are unicast and not all zero. */
  lemma WellFormedExactly(boot: uint32, generation: uint32, macs: seq<Mac>)
    ensures WellFormed(boot, generation, macs) <==>
      && boot > 0 && generation > 0 && |macs| <= 16
      && (forall i :: 0 <= i < |macs| ==> Unicast(macs[i]))
      && (forall i, j :: 0 <= i < j < |macs| ==> macs[i] != macs[j])
  {
    forall i | 0 <= i < |macs|
      ensures Station(macs[i]) <==> Unicast(macs[i])
    {
      StationExactly(macs[i]);
    }
  }

  /** A station joins exactly when its address is unicast and not zero and it has a slot, or
      there is a free one; nobody else is touched. */
  lemma JoinsExactly(r: Registry, mac: Mac)
    requires Valid(r)
    ensures CanJoin(r, mac) <==>
      Unicast(mac) && exists i :: 0 <= i < SLOTS && (!r.entries[i].associated || r.entries[i].mac == mac)
    ensures !CanJoin(r, mac) ==> Join(r, mac) == r
    ensures CanJoin(r, mac) ==>
      var after, slot := Join(r, mac), JoinSlot(r.entries, mac);
      && after.entries == r.entries[slot := Joined(mac, Next32(r.generation))]
      && after.generation == Next32(r.generation)
      && after.(generation := r.generation, entries := r.entries) == r
      && (if Find(r.entries, mac) < SLOTS then Holds(r.entries[slot], mac)
          else !r.entries[slot].associated && forall i :: 0 <= i < slot ==> r.entries[i].associated)
  {
    StationExactly(mac);
  }

  /** A leaving station frees its slot; a clear frees them all; both in a new generation. */
  lemma LeavesExactly(r: Registry, mac: Mac, i: nat)
    requires Valid(r) && i < SLOTS
    ensures var after := Leave(r, mac);
      && |after.entries| == SLOTS
      && after.entries[i] == (if r.entries[i].associated && r.entries[i].mac == mac then VACANT else r.entries[i])
      && (if exists k :: 0 <= k < SLOTS && Holds(r.entries[k], mac) then after.generation == Next32(r.generation)
          else after.generation == r.generation)
    ensures Clear(r).entries[i] == VACANT && Clear(r).generation == Next32(r.generation)
  {
    var slot := Find(r.entries, mac);
    if slot < i {
      assert Apart(r.entries[slot], r.entries[i]);
    }
  }

  /** A snapshot exists for a physical port there is, of a registry whose associations are
      numbered; it carries the registry's generation, and the radio's report exactly while
      that is the last word. */
  lemma SnapshotExactly(r: Registry, port: nat, count: nat)
    ensures TakeSnapshot(r, port, count).Some? <==>
      && 0 < port <= count <= 4095
      && forall i :: 0 <= i < |r.entries| && r.entries[i].associated ==> r.entries[i].association != 0
    ensures TakeSnapshot(r, port, count).Some? ==>
      var s := TakeSnapshot(r, port, count).value;
      && s.generation == r.generation
      && (if r.reconciled == r.generation then s.radioBoot == r.radioBoot && s.radioGeneration == r.radioGeneration
          else s.radioBoot == 0 && s.radioGeneration == 0)
  {
    PortNumbersAreDistinct(port, 0, port, 0, count);
  }
}
