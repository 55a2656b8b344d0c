/** Selection and path trace together: what a clock selects from the wire, and what it
    relays of it. */
module Relay {
  import opened Arith
  import opened Bytes
  import opened BestClock
  import opened PathTrace
  import Tlvs
  import Wire

  // ---- The Announce body on the wire ---------------------------------------------------------

  /** The fields of an Announce at their places in the message. */
  function AnnounceOf(m: seq<byte>): Announce
    requires |m| >= BODY
  {
    Announce(m[47], m[48..52], m[52], m[53..61], m[61..63], m[20..28], m[28..30])
  }

  /** A body with these fields, and `base` for everything else. */
  function BodyOf(base: Body, a: Announce): (b: Body)
    ensures AnnounceOf(b) == a
  {
    base[..20] + a.source + a.port + base[30..47] + [a.priority1] + a.quality + [a.priority2] + a.root + a.steps +
      base[63..]
  }

  /** The fields arrive as they were sent, through normalization and padding. */
  lemma FieldsArrive(hop: Hop, chain: seq<byte>)
    requires |chain| <= 4 + 8 * MAX_CLOCKS
    ensures |OnWire(hop, chain)| >= BODY && AnnounceOf(OnWire(hop, chain)) == AnnounceOf(hop.body)
  {
    var w := Announcement(hop.body, chain);
    var sent := Wire.Normalize(w, hop.gptp, hop.minor);
    var frame := OnWire(hop, chain);
    assert forall i :: 20 <= i < 30 || 47 <= i < 63 ==> frame[i] == sent[i] == w[i] == hop.body[i];
    assert frame[20..28] == hop.body[20..28] && frame[28..30] == hop.body[28..30];
    assert frame[48..52] == hop.body[48..52] && frame[53..61] == hop.body[53..61] && frame[61..63] == hop.body[61..63];
  }

  // ---- Hearing and relaying -----------------------------------------------------------------

  /** What the selection makes of a frame. */
  function Heard(frame: seq<byte>, local: Local, bound: bool): Event
    requires |frame| >= BODY
  {
    Announced(AnnounceOf(frame), Hear(frame, local.own.source), bound)
  }

  /** What a bridge sends on a port for a selection: its source one step further, with the
      path retained beside it. */
  function Forward(s: Selection, local: Local, port: Pair, hop: Hop): Option<seq<byte>> {
    if s.source.None? then None
    else
      match Relayed(s.source.value, local, port)
      case None => None
      case Some(a) => Send(hop.(clock := local.own.source, body := BodyOf(hop.body, a)), s.path, true)
  }

  /** A chain of relays up to a clock that takes the message: the path retained with it is
      the clocks it visited, and what the clock forwards is the chain one clock longer, one
      step further from the same root. A clock already on the chain changes nothing. */
  lemma SelectionExtendsChain(hops: seq<Hop>, s: Selection, local: Local, bound: bool, port: Pair, hop: Hop)
    requires hops != [] && Chain(hops).Some?
    ensures |Chain(hops).value| >= BODY
    ensures var e := Heard(Chain(hops).value, local, bound);
      if local.own.source in Visited(hops) then Step(s, local, e) == s
      else
        Takes(s, local, e.msg, e.path, e.bound) ==>
          var t := Step(s, local, e);
          && t.source == Some(AnnounceOf(hops[|hops| - 1].body)) && t.path == Visited(hops)
          && Forward(t, local, port, hop) == Extended(hops, t.source.value, local, port, hop)
  {
    ChainIsLoopFree(hops, local.own.source);
    ChainFields(hops);
    var e := Heard(Chain(hops).value, local, bound);
    if local.own.source !in Visited(hops) && Takes(s, local, e.msg, e.path, e.bound) {
      var t := Step(s, local, e);
      assert t.path == Visited(hops);
      ForwardIsChain(hops, t, local, port, hop);
    }
  }

  /** The chain with this clock as its next relay. */
  function Extended(hops: seq<Hop>, selected: Announce, local: Local, port: Pair, hop: Hop): Option<seq<byte>>
    requires hops != []
  {
    match Relayed(selected, local, port)
    case None => None
    case Some(a) => Chain(hops + [hop.(clock := local.own.source, body := BodyOf(hop.body, a))])
  }

  lemma ChainFields(hops: seq<Hop>)
    requires hops != [] && Chain(hops).Some?
    ensures |Chain(hops).value| >= BODY && AnnounceOf(Chain(hops).value) == AnnounceOf(hops[|hops| - 1].body)
  {
    var last := hops[|hops| - 1];
    if |hops| == 1 {
      FieldsArrive(last, Tlvs.Encode(Trace([] + [last.clock])));
    } else {
      var path := Hear(Chain(hops[..|hops| - 1]).value, last.clock).value;
      if path == [] {
        FieldsArrive(last, []);
      } else {
        FieldsArrive(last, Tlvs.Encode(Trace(path + [last.clock])));
      }
    }
  }

  lemma ForwardIsChain(hops: seq<Hop>, t: Selection, local: Local, port: Pair, hop: Hop)
    requires hops != [] && Chain(hops).Some? && local.own.source !in Visited(hops)
    requires t.source.Some? && t.path == Visited(hops)
    ensures Forward(t, local, port, hop) == Extended(hops, t.source.value, local, port, hop)
  {
    if Relayed(t.source.value, local, port).Some? {
      var next := hop.(clock := local.own.source, body := BodyOf(hop.body, Relayed(t.source.value, local, port).value));
      var longer := hops + [next];
      assert longer[..|hops|] == hops && longer[|hops|] == next;
      ChainIsLoopFree(hops, next.clock);
    }
  }
}
