/** The kernel-side byte counter (internal/netmon/bpf/netmon.c, lines 38-95). */
module CgroupProgram {
  import opened NetTypes
  import opened Sums
  import opened FlowCounters
  import opened CounterProtocol

  /** Bytes `offset..offset + n` of the packet, or nothing when they are not all there. */
  function LoadBytes(skb: seq<byte>, offset: nat, n: nat): (r: Option<seq<byte>>)
    ensures r.Some? ==> |r.value| == n
  {
    if offset + n <= |skb| then Some(skb[offset..offset + n]) else None
  }

  function Ntohs(raw: seq<byte>): u16
    requires |raw| == 2
  {
    (raw[0] as int) * 0x100 + raw[1]
  }

  /** The key a packet is counted under: its addresses, protocol and ports where the header has them. */
  function KeyOf(skb: seq<byte>, direction: Direction, cgroupID: nat): Option<BpfKey> {
    if |skb| == 0 then None
    else if skb[0] / 16 == 4 then
      if |skb| < 20 then None
      else
        var protocol: byte := if Ntohs(skb[6..8]) % 0x2000 != 0 then 0 else skb[9];
        Some(Keyed(skb, direction, cgroupID, FAMILY_INET, protocol,
                   skb[12..16] + ZERO16[4..], skb[16..20] + ZERO16[4..], skb[0] % 16 * 4))
    else if skb[0] / 16 == 6 then
      if |skb| < 40 then None
      else Some(Keyed(skb, direction, cgroupID, FAMILY_INET6, skb[6], skb[8..24], skb[24..40], 40))
    else None
  }

  function Keyed(skb: seq<byte>, direction: Direction, cgroupID: nat, family: byte, protocol: byte,
                 source: Octets16, dest: Octets16, offset: nat): BpfKey
  {
    if HasPortsProtocol(protocol) && offset + 4 <= |skb|
    then BpfKey(cgroupID, family, protocol, direction,
                Ntohs(skb[offset..offset + 2]), Ntohs(skb[offset + 2..offset + 4]), source, dest)
    else BpfKey(cgroupID, family, protocol, direction, 0, 0, source, dest)
  }

  method BuildKey(skb: seq<byte>, direction: Direction, cgroupID: nat) returns (result: Option<BpfKey>)
    ensures result == KeyOf(skb, direction, cgroupID)
  {
    var key := BpfKey(0, 0, 0, Ingress, 0, 0, ZERO16, ZERO16);
    var first := LoadBytes(skb, 0, 1);
    if first.None? {
      return None;
    }
    var version := first.value[0] / 16;
    key := key.(direction := direction);
    key := key.(cgroupID := cgroupID);
    var protocol: byte := 0;
    var offset: nat := 0;
    if version == 4 {
      key := key.(family := FAMILY_INET);
      var ihl := LoadBytes(skb, 0, 1);
      var proto := LoadBytes(skb, 9, 1);
      var frag := LoadBytes(skb, 6, 2);
      var source := LoadBytes(skb, 12, 4);
      var dest := LoadBytes(skb, 16, 4);
      if ihl.None? || proto.None? || frag.None? || source.None? || dest.None? {
        return None;
      }
      protocol := proto.value[0];
      key := key.(sourceIP := source.value + key.sourceIP[4..]);
      key := key.(destIP := dest.value + key.destIP[4..]);
      offset := ihl.value[0] % 16 * 4;
      if Ntohs(frag.value) % 0x2000 != 0 {
        protocol := 0;
      }
    } else if version == 6 {
      key := key.(family := FAMILY_INET6);
      var proto := LoadBytes(skb, 6, 1);
      var source := LoadBytes(skb, 8, 16);
      var dest := LoadBytes(skb, 24, 16);
      if proto.None? || source.None? || dest.None? {
        return None;
      }
      protocol := proto.value[0];
      key := key.(sourceIP := source.value);
      key := key.(destIP := dest.value);
      offset := 40;
    } else {
      return None;
    }
    key := key.(protocol := protocol);
    if protocol == PROTOCOL_TCP || protocol == PROTOCOL_UDP {
      var ports := LoadBytes(skb, offset, 4);
      if ports.Some? {
        assert ports.value[..2] == skb[offset..offset + 2] && ports.value[2..] == skb[offset + 2..offset + 4];
        key := key.(sourcePort := Ntohs(ports.value[..2]));
        key := key.(destPort := Ntohs(ports.value[2..]));
      }
    }
    result := Some(key);
  }

  /** The map as one CPU sees it when nothing runs beside it. */
  class FlowMap {
    var flows: map<BpfKey, nat>

    constructor ()
      ensures flows == map[]
    {
      flows := map[];
    }

    method CountPacket(skb: seq<byte>, direction: Direction, cgroupID: nat)
      modifies this
      ensures var key := KeyOf(skb, direction, cgroupID);
              flows == if key.None? then old(flows) else Plus(old(flows), key.value, |skb|)
    {
      var key := BuildKey(skb, direction, cgroupID);
      if key.None? {
        return;
      }
      if key.value in flows {
        flows := flows[key.value := flows[key.value] + |skb|];
        return;
      }
      var initial := |skb|;
      flows := flows[key.value := initial];
    }
  }

  /** Only the two families the collector can report are ever counted. */
  lemma CountedKeysAreReportable(skb: seq<byte>, direction: Direction, cgroupID: nat)
    requires KeyOf(skb, direction, cgroupID).Some?
    ensures Reportable(KeyOf(skb, direction, cgroupID).value)
    ensures FlowFromBpfKey(KeyOf(skb, direction, cgroupID).value).Some?
  {
  }

  function Values(live: map<BpfKey, Cell>): map<BpfKey, nat> {
    map key | key in live :: live[key].bytes
  }

  lemma AloneInTheKernel(k: Kernel, cpu: nat, key: BpfKey, len: nat)
    ensures var looked := KernelNext(k, Lookup(cpu, key, len));
            && cpu in looked.pending
            && Values(Updated(looked, cpu).live) == Plus(Values(k.live), key, len)
            && Updated(looked, cpu).counted == Plus(k.counted, key, len)
  {
    var k' := Updated(KernelNext(k, Lookup(cpu, key, len)), cpu);
    if key in k.live {
      assert k'.live == k.live[key := Cell(k.live[key].id, k.live[key].bytes + len)];
    } else {
      assert k'.live == k.live[key := Cell(k.nextId, len)];
    }
  }

  /** With no step in between, the two steps of the protocol are one call of `CountPacket`. */
  lemma AloneTheStepsCountThePacket(s: State, cpu: nat, key: BpfKey, len: nat)
    requires Shaped(s) && Enabled(s, Lookup(cpu, key, len))
    ensures var looked := Next(s, Lookup(cpu, key, len));
            && Enabled(looked, Update(cpu))
            && Values(Next(looked, Update(cpu)).kernel.live) == Plus(Values(s.kernel.live), key, len)
            && Next(looked, Update(cpu)).kernel.counted == Plus(s.kernel.counted, key, len)
  {
    var looked := Next(s, Lookup(cpu, key, len));
    assert looked.kernel == KernelNext(s.kernel, Lookup(cpu, key, len));
    AloneInTheKernel(s.kernel, cpu, key, len);
  }

  /** Two CPUs that both miss: the later insert replaces the earlier entry, whose bytes can no longer be
      read. Counters lose bytes here, they never gain any. */
  lemma RacingInsertsLoseTheFirst(s: State, a: nat, b: nat, key: BpfKey, m: nat, n: nat)
    requires Shaped(s) && a != b && a !in s.kernel.pending && b !in s.kernel.pending
    requires Reportable(key) && key !in s.kernel.live
    ensures var looked := Next(Next(s, Lookup(a, key, m)), Lookup(b, key, n));
            && Enabled(looked, Update(a)) && Enabled(Next(looked, Update(a)), Update(b))
            && var k := Next(Next(looked, Update(a)), Update(b)).kernel;
            && key in k.live && k.live[key].bytes == n
            && At(k.counted, key) == At(s.kernel.counted, key) + m + n
            && At(k.dead, key) == At(s.kernel.dead, key) + m
  {
    var looked := Next(Next(s, Lookup(a, key, m)), Lookup(b, key, n));
    assert looked.kernel.pending[a] == Miss(key, m) && looked.kernel.pending[b] == Miss(key, n);
    assert Next(looked, Update(a)).kernel.pending[b] == Miss(key, n);
  }
}
