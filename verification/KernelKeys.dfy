/** What the kernel program counts a packet under, for every packet that can be encoded: with or without ports,
    whole or fragmented (internal/netmon/bpf/netmon.c, lines 38-95; internal/netmon/ebpf_linux.go, lines 161-184). */
module KernelKeys {
  import opened NetTypes
  import opened FlowCounters
  import opened Packets
  import opened PacketLaws
  import opened CgroupProgram
  import opened ParserAgreement

  /** The two ports at the start of a payload of TCP or UDP, zero for anything else or when cut short. */
  function PortsOf(protocol: byte, payload: seq<byte>): (u16, u16) {
    if (protocol == 6 || protocol == 17) && |payload| >= 4
    then (payload[0] as int * 256 + payload[1], payload[2] as int * 256 + payload[3])
    else (0, 0)
  }

  /** Any IPv4 packet is counted under its cgroup, direction and addresses; a later fragment without protocol. */
  lemma IPv4KeyIs(h: IPv4Header, payload: seq<byte>, d: Direction, cgroupID: nat)
    requires h.Legal()
    ensures var protocol := if h.fragment % 0x2000 != 0 then 0 else h.protocol;
            var (source, dest) := PortsOf(protocol, payload);
            KeyOf(h.Encode() + payload, d, cgroupID) == Some(
              BpfKey(cgroupID, 2, protocol, d, source, dest, h.src + ZERO16[4..], h.dst + ZERO16[4..]))
  {
    var header := h.Encode();
    var skb := header + payload;
    IPv4HeaderBytes(h);
    assert skb[12..16] == header[12..16] && skb[16..20] == header[16..20];
    assert skb[6..8] == [skb[6], skb[7]] && Ntohs(skb[6..8]) == Word(header, 6);
    if |payload| >= 4 {
      PortsBehind(header, payload);
    }
  }

  lemma PortsBehind(header: seq<byte>, payload: seq<byte>)
    requires |payload| >= 4
    ensures var skb, o := header + payload, |header|;
            && Ntohs(skb[o..o + 2]) == payload[0] as int * 256 + payload[1]
            && Ntohs(skb[o + 2..o + 4]) == payload[2] as int * 256 + payload[3]
  {
  }

  /** Any IPv6 packet likewise; what follows the fixed header counts as the protocol, extension headers included. */
  lemma IPv6KeyIs(h: IPv6Header, next: byte, payload: seq<byte>, d: Direction, cgroupID: nat)
    requires h.Legal()
    ensures var (source, dest) := PortsOf(next, payload);
            KeyOf(h.Encode(next) + payload, d, cgroupID) == Some(BpfKey(cgroupID, 10, next, d, source, dest, h.src, h.dst))
  {
    var header := h.Encode(next);
    var skb := header + payload;
    IPv6HeaderBytes(h, next);
    assert skb[8..24] == header[8..24] && skb[24..40] == header[24..40];
    if |payload| >= 4 {
      PortsBehind(header, payload);
    }
  }

  /** Nothing else is counted: neither other versions nor headers that are cut short. */
  lemma UncountedIff(skb: seq<byte>, d: Direction, cgroupID: nat)
    ensures KeyOf(skb, d, cgroupID).None?
      <==> !((|skb| >= 20 && skb[0] / 16 == 4) || (|skb| >= 40 && skb[0] / 16 == 6))
  {
  }

  /** The local end of a flow is the source of an outgoing packet and the destination of an incoming one. */
  function FlowOf(d: Direction, protocol: byte, source: AddrPort, dest: AddrPort): FlowKey {
    match d
    case Egress => FlowKey(protocol, source, dest)
    case Ingress => FlowKey(protocol, dest, source)
  }

  /** So the collector reports an IPv4 packet, whatever it carries, for its own cgroup, addresses and direction. */
  lemma IPv4FlowIs(h: IPv4Header, payload: seq<byte>, d: Direction, cgroupID: nat)
    requires h.Legal()
    ensures var protocol := if h.fragment % 0x2000 != 0 then 0 else h.protocol;
            var (source, dest) := PortsOf(protocol, payload);
            KernelFlow(h.Encode() + payload, d, cgroupID) == Some(CgroupFlow(
              cgroupID, d, FlowOf(d, protocol, AddrPort(V4(h.src), source), AddrPort(V4(h.dst), dest)), 0))
  {
    IPv4KeyIs(h, payload, d, cgroupID);
    assert (h.src + ZERO16[4..])[..4] == h.src && (h.dst + ZERO16[4..])[..4] == h.dst;
  }

  lemma IPv6FlowIs(h: IPv6Header, next: byte, payload: seq<byte>, d: Direction, cgroupID: nat)
    requires h.Legal()
    ensures var (source, dest) := PortsOf(next, payload);
            KernelFlow(h.Encode(next) + payload, d, cgroupID) == Some(CgroupFlow(
              cgroupID, d, FlowOf(d, next, AddrPort(V6(h.src).Unmap(), source), AddrPort(V6(h.dst).Unmap(), dest)), 0))
  {
    IPv6KeyIs(h, next, payload, d, cgroupID);
  }
}
