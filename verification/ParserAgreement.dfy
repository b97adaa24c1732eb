/** The two independent header parsers, in the kernel program (internal/netmon/bpf/netmon.c, lines 48-85) and
    in user space (internal/netmon/packet.go, lines 45-114): when they attribute one packet to the same
    tuple, and when not. */
module ParserAgreement {
  import opened NetTypes
  import opened FlowCounters
  import opened Packets
  import opened PacketLaws
  import opened CgroupProgram

  /** The flow the collector reports for a packet counted by the kernel program. */
  function KernelFlow(l3: seq<byte>, d: Direction, cgroupID: nat): Option<CgroupFlow> {
    match KeyOf(l3, d, cgroupID)
    case None => None
    case Some(key) => FlowFromBpfKey(key)
  }

  lemma IPv4Agrees(l3: seq<byte>, d: Direction, cgroupID: nat, p: Packet)
    requires !p.hasPorts && ParsedIPv4(l3, 0, p).hasPorts
    ensures KernelFlow(l3, d, cgroupID) == Some(CgroupFlow(cgroupID, d, TupleOf(ParsedIPv4(l3, 0, p), d), 0))
  {
  }

  /** On IPv4 the user-space parser finds ports iff the kernel program does and the header length is legal. */
  lemma IPv4PortsIff(l3: seq<byte>, d: Direction, cgroupID: nat, p: Packet)
    requires !p.hasPorts && |l3| >= 20 && l3[0] / 16 == 4
    ensures ParsedIPv4(l3, 0, p).hasPorts
      <==> && HasPortsProtocol(KeyOf(l3, d, cgroupID).value.protocol)
           && l3[0] % 16 * 4 + 4 <= |l3|
           && l3[0] % 16 >= 5
  {
  }

  lemma IPv6AgreesIff(l3: seq<byte>, d: Direction, cgroupID: nat, p: Packet)
    requires !p.hasPorts && ParsedIPv6(l3, 0, p).hasPorts
    ensures KernelFlow(l3, d, cgroupID).Some?
    ensures KernelFlow(l3, d, cgroupID) == Some(CgroupFlow(cgroupID, d, TupleOf(ParsedIPv6(l3, 0, p), d), 0))
      <==> HasPortsProtocol(l3[6])
  {
  }

  datatype Network = Network(etherType: u16, bytes: seq<byte>)

  /** What follows the Ethernet header and its tags: the packet as the kernel program sees it. */
  function NetworkOf(data: seq<byte>): Option<Network> {
    if |data| < 14 then None
    else match PastTags(data, Word(data, 12), 14)
      case None => None
      case Some(layer) => Some(Network(layer.etherType, data[layer.offset..]))
  }

  lemma ParsedFromNetwork(data: seq<byte>)
    requires Parsed(data).hasPorts
    ensures NetworkOf(data).Some?
    ensures var Network(etherType, l3) := NetworkOf(data).value;
            var p := NO_PACKET.(dstMAC := data[..6], srcMAC := data[6..12]);
            || (etherType == ETHERTYPE_IPV4 && Parsed(data) == ParsedIPv4(l3, 0, p))
            || (etherType == ETHERTYPE_IPV6 && Parsed(data) == ParsedIPv6(l3, 0, p))
  {
    var Layer(etherType, offset) := PastTags(data, Word(data, 12), 14).value;
    var p := NO_PACKET.(dstMAC := data[..6], srcMAC := data[6..12]);
    assert data == data[..offset] + data[offset..];
    if etherType == ETHERTYPE_IPV4 {
      IPv4Shift(data[..offset], data[offset..], p);
    } else {
      IPv6Shift(data[..offset], data[offset..], p);
    }
  }

  /** Whenever user space finds ports, the kernel program counts the packet too, and both name the same
      tuple in the same direction iff the packet is IPv4 or IPv6 without extension headers. */
  lemma ParsersAgreeIff(data: seq<byte>, d: Direction, cgroupID: nat)
    requires Parsed(data).hasPorts
    ensures NetworkOf(data).Some?
    ensures var Network(etherType, l3) := NetworkOf(data).value;
            && |l3| > 6
            && KernelFlow(l3, d, cgroupID).Some?
            && (KernelFlow(l3, d, cgroupID) == Some(CgroupFlow(cgroupID, d, TupleOf(Parsed(data), d), 0))
                <==> etherType == ETHERTYPE_IPV4 || HasPortsProtocol(l3[6]))
  {
    ParsedFromNetwork(data);
    var Network(etherType, l3) := NetworkOf(data).value;
    var p := NO_PACKET.(dstMAC := data[..6], srcMAC := data[6..12]);
    if etherType == ETHERTYPE_IPV4 {
      IPv4Agrees(l3, d, cgroupID, p);
    } else {
      IPv6AgreesIff(l3, d, cgroupID, p);
    }
  }
}
