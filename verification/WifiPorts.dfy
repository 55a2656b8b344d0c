/** Logical port numbers of the associations: slot zero uses its transport's number,
    the other slots use disjoint blocks beyond all transports. */
module WifiPorts {
  const SLOTS: nat := 16

  /** The port number, or 0 when the arguments name no association. */
  function PortNumber(physicalPort: nat, physicalCount: nat, slot: nat): nat {
    if physicalPort == 0 || physicalPort > physicalCount || physicalCount > 65535 / SLOTS || slot >= SLOTS then 0
    else if slot == 0 then physicalPort
    else physicalCount + (physicalPort - 1) * (SLOTS - 1) + slot
  }

  predicate Names(physicalPort: nat, physicalCount: nat, slot: nat) {
    0 < physicalPort <= physicalCount <= 65535 / SLOTS && slot < SLOTS
  }

  /** Numbers are non-zero exactly for real associations, fit 16 bits, and tell apart
      every slot of every physical port. */
  lemma PortNumbersAreDistinct(p: nat, s: nat, q: nat, t: nat, count: nat)
    ensures PortNumber(p, count, s) <= 65535
    ensures PortNumber(p, count, s) > 0 <==> 0 < p <= count <= 4095 && s < 16
    ensures PortNumber(p, count, s) > 0 ==> (PortNumber(p, count, s) == PortNumber(q, count, t) <==> p == q && s == t)
    ensures s == 0 && 0 < p <= count <= 4095 ==> PortNumber(p, count, s) == p
  {
    if Names(p, count, s) && Names(q, count, t) && s != 0 && t != 0 {
      if p < q {
        assert (q - 1) * 15 >= (p - 1) * 15 + 15;
      } else if q < p {
        assert (p - 1) * 15 >= (q - 1) * 15 + 15;
      }
    }
  }
}
