/** What happens to a message between its writer and its readers: gPTP normalization on
    transmission, and the bound that cuts off Ethernet padding on reception. */
module Wire {
  import opened Arith
  import opened Bytes
  import opened Tlvs

  const HEADER: nat := 34

  /** The bytes of the body that gPTP transmits as zero. */
  predicate Cleared(w: seq<byte>, i: int)
    requires |w| >= HEADER
  {
    var kind := w[0] % 16;
    if kind == 11 && |w| >= 64 then 34 <= i < 44 || i == 46
    else if kind == 2 && |w| >= 54 then 34 <= i < 54
    else kind == 0 && w[6] / 2 % 2 == 1 && |w| >= 44 && 34 <= i < 44
  }

  function NormalByte(w: seq<byte>, minor: byte, i: nat): byte
    requires HEADER <= |w| && i < |w|
  {
    if i == 1 then minor % 16 * 16 + 2
    else if i == 5 || 16 <= i < 20 || i == 32 then 0
    else if i == 33 && w[0] % 16 == 12 then 0x7f
    else if Cleared(w, i) then 0
    else w[i]
  }

  function Normalize(w: seq<byte>, gptp: bool, minor: byte): (n: seq<byte>)
    ensures |n| == |w|
  {
    if !gptp || |w| < HEADER then w else seq(|w|, i requires 0 <= i < |w| => NormalByte(w, minor, i))
  }

  method Zero(w: array<byte>, from: nat, to: nat)
    requires from <= to <= w.Length
    modifies w
    ensures forall k :: 0 <= k < w.Length ==> w[k] == if from <= k < to then 0 else old(w[k])
  {
    var i := from;
    while i < to
      invariant from <= i <= to
      invariant forall k :: 0 <= k < w.Length ==> w[k] == if from <= k < i then 0 else old(w[k])
    {
      w[i] := 0;
      i := i + 1;
    }
  }

  function Patched(s: seq<byte>, at: nat, bytes: seq<byte>): seq<byte>
    requires at + |bytes| <= |s|
  {
    s[..at] + bytes + s[at + |bytes|..]
  }

  /** Patches that adjoin are one patch. */
  lemma PatchedOn(s: seq<byte>, at: nat, a: seq<byte>, b: seq<byte>)
    requires at + |a| + |b| <= |s|
    ensures Patched(Patched(s, at, a), at + |a|, b) == Patched(s, at, a + b)
  {
    var p := Patched(s, at, a);
    assert p[..at + |a|] == s[..at] + a;
    assert p[at + |a| + |b|..] == s[at + |a| + |b|..];
  }

  lemma PatchedThrice(s: seq<byte>, a: seq<byte>, b: seq<byte>, c: seq<byte>)
    requires |a| + |b| + |c| <= |s|
    ensures Patched(Patched(Patched(s, 0, a), |a|, b), |a| + |b|, c) == a + (b + c) + s[|a| + |b| + |c|..]
  {
    PatchedOn(s, 0, a, b);
    PatchedOn(s, 0, a + b, c);
    PatchedFirst(s, a + b + c);
    assert a + b + c == a + (b + c);
  }

  lemma PatchedFirst(s: seq<byte>, bytes: seq<byte>)
    requires |bytes| <= |s|
    ensures Patched(s, 0, bytes) == bytes + s[|bytes|..]
  {
    assert s[..0] == [];
  }

  method Copy(output: array<byte>, at: nat, bytes: seq<byte>)
    requires at + |bytes| <= output.Length
    modifies output
    ensures forall k :: 0 <= k < output.Length ==>
      output[k] == if at <= k < at + |bytes| then bytes[k - at] else old(output[k])
  {
    var i := 0;
    while i < |bytes|
      invariant 0 <= i <= |bytes|
      invariant forall k :: 0 <= k < output.Length ==>
        output[k] == if at <= k < at + i then bytes[k - at] else old(output[k])
    {
      output[at + i] := bytes[i];
      i := i + 1;
    }
  }

  /** The same copy, seen as a patch of the whole buffer. */
  method Paste(output: array<byte>, at: nat, bytes: seq<byte>)
    requires at + |bytes| <= output.Length
    modifies output
    ensures output[..] == Patched(old(output[..]), at, bytes)
  {
    Copy(output, at, bytes);
  }

  /** Three parts one after the other, from the start. */
  method PasteThree(output: array<byte>, a: seq<byte>, b: seq<byte>, c: seq<byte>)
    requires |a| + |b| + |c| <= output.Length
    modifies output
    ensures output[..] == a + (b + c) + old(output[..])[|a| + |b| + |c|..]
  {
    ghost var before := output[..];
    Paste(output, 0, a);
    Paste(output, |a|, b);
    Paste(output, |a| + |b|, c);
    PatchedThrice(before, a, b, c);
  }

  method NormalizeInPlace(w: array<byte>, gptp: bool, minor: byte)
    modifies w
    ensures w[..] == Normalize(old(w[..]), gptp, minor)
  {
    if !gptp || w.Length < HEADER { return; }
    w[1] := minor % 16 * 16 + 2;
    w[5] := 0;
    Zero(w, 16, 20);
    w[32] := 0;
    var kind := w[0] % 16;
    if kind == 12 { w[33] := 0x7f; }
    if kind == 11 && w.Length >= 64 {
      Zero(w, 34, 44);
      w[46] := 0;
    } else if kind == 2 && w.Length >= 54 {
      Zero(w, 34, 54);
    } else if kind == 0 && w[6] / 2 % 2 == 1 && w.Length >= 44 {
      Zero(w, 34, 44);
    }
  }

  /** The shortest body of each message type. */
  function Minimum(first: byte): nat {
    match first % 16
    case 0 => 44
    case 1 => 44
    case 2 => 54
    case 3 => 54
    case 9 => 54
    case 10 => 54
    case 8 => if first / 16 == 1 then 76 else 44
    case 11 => 64
    case 12 => 44
    case _ => HEADER
  }

  /** The advertised length, or zero for a message to drop. */
  function BoundedLength(message: seq<byte>): (n: nat)
    ensures n <= |message|
  {
    if |message| < HEADER || message[1] % 16 != 2 then 0
    else if Word(message, 2) < Minimum(message[0]) || Word(message, 2) > |message| then 0
    else Word(message, 2)
  }

  /** Normalizing twice is normalizing once, and only touches gPTP's own fields. */
  lemma NormalizeSettles(w: seq<byte>, gptp: bool, minor: byte)
    ensures Normalize(Normalize(w, gptp, minor), gptp, minor) == Normalize(w, gptp, minor)
  {
  }

  /** A message of a sound type and length passes whole through normalization, any
      padding and the bound. */
  lemma BoundUndoesPadding(w: seq<byte>, gptp: bool, minor: byte, padding: seq<byte>)
    requires |w| >= HEADER && w[1] % 16 == 2 && Word(w, 2) == |w| >= Minimum(w[0])
    ensures var sent := Normalize(w, gptp, minor);
      BoundedLength(sent + padding) == |w| && (sent + padding)[..|w|] == sent
  {
    var sent := Normalize(w, gptp, minor);
    var frame := sent + padding;
    assert frame[0] == w[0] && frame[2] == w[2] && frame[3] == w[3];
    assert frame[1] % 16 == 2;
  }

  /** Of a Signaling message only fields that its readers do not look at change. */
  lemma SignalingUntouched(w: seq<byte>, gptp: bool, minor: byte)
    requires |w| >= 44 && w[0] % 16 == 12 && w[1] % 16 == 2 && w[5] == 0
    ensures var n := Normalize(w, gptp, minor);
      && n[0] == w[0] && n[1] % 16 == 2 && n[2] == w[2] && n[3] == w[3] && n[4] == w[4] && n[5] == 0
      && n[20..32] == w[20..32] && n[34..|w|] == w[34..|w|]
  {
  }

  /** The message types of IEEE 1588-2019 by the length of what follows the common header. */
  function BodyLength(messageType: int, majorSdoId: int): nat {
    if messageType in {0, 1, 12} then 10                           // Sync, Delay_Req, Signaling
    else if messageType in {2, 3, 9, 10} then 20                   // Pdelay_*, Delay_Resp
    else if messageType == 8 then (if majorSdoId == 1 then 42 else 10) // Follow_Up, with its TLV in gPTP
    else if messageType == 11 then 30                              // Announce
    else 0
  }

  /** A message is kept exactly when it is of version 2 and announces a length that was
      received and holds the body of its type; and then it is cut to that length. */
  lemma BoundedExactly(message: seq<byte>)
    ensures BoundedLength(message) ==
      if |message| >= 34 && message[1] % 16 == 2 &&
         34 + BodyLength(message[0] % 16, message[0] / 16) <= Word(message, 2) <= |message|
      then Word(message, 2) else 0
  {
  }
}
