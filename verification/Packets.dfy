/** Ethernet frame parsing (internal/netmon/packet.go). The methods follow the source's loops; the functions
    they are proved against are what `PacketLaws` and `ParserAgreement` reason about. */
module Packets {
  import opened NetTypes

  type Mac = s: seq<byte> | |s| == 6 witness [0, 0, 0, 0, 0, 0]

  const NO_MAC: Mac := [0, 0, 0, 0, 0, 0]
  const NO_ENDPOINT := AddrPort(NoAddr, 0)

  const ETHERTYPE_IPV4: u16 := 0x0800
  const ETHERTYPE_IPV6: u16 := 0x86dd
  const ETHERTYPE_VLAN: u16 := 0x8100
  const ETHERTYPE_QINQ: u16 := 0x88a8
  const ETHERTYPE_VLAN9100: u16 := 0x9100

  const MAX_EXTENSIONS := 8

  datatype Packet = Packet(
    protocol: byte,
    src: AddrPort,
    dst: AddrPort,
    srcMAC: Mac,
    dstMAC: Mac,
    isIP: bool,
    hasPorts: bool)

  const NO_PACKET := Packet(0, NO_ENDPOINT, NO_ENDPOINT, NO_MAC, NO_MAC, false, false)

  function Word(data: seq<byte>, i: nat): u16
    requires i + 2 <= |data|
  {
    (data[i] as int) * 0x100 + data[i + 1]
  }

  /** The length in bytes of an extension header, from its length octet. */
  function OptionsLength(octet: byte): nat {
    ((octet as int) + 1) * 8
  }

  function AuthenticationLength(octet: byte): nat {
    ((octet as int) + 2) * 4
  }

  predicate IsTag(etherType: u16) {
    etherType == ETHERTYPE_VLAN || etherType == ETHERTYPE_QINQ || etherType == ETHERTYPE_VLAN9100
  }

  predicate IsOptionsHeader(next: byte) {
    next == 0 || next == 43 || next == 60
  }

  const FRAGMENT: byte := 44
  const AUTHENTICATION: byte := 51

  // ----- Specification -----

  datatype Layer = Layer(etherType: u16, offset: nat)

  datatype Upper = Upper(protocol: byte, offset: nat)

  /** The EtherType behind any number of VLAN tags, and where its payload starts. */
  function PastTags(data: seq<byte>, etherType: u16, offset: nat): (r: Option<Layer>)
    ensures r.Some? && offset <= |data| ==> r.value.offset <= |data|
    decreases |data| - offset
  {
    if !IsTag(etherType) then Some(Layer(etherType, offset))
    else if |data| < offset + 4 then None
    else PastTags(data, Word(data, offset + 2), offset + 4)
  }

  function WithPorts(data: seq<byte>, offset: nat, protocol: byte, p: Packet): Packet {
    if HasPortsProtocol(protocol) && offset + 4 <= |data|
    then p.(
      protocol := protocol,
      src := p.src.(port := Word(data, offset)),
      dst := p.dst.(port := Word(data, offset + 2)),
      hasPorts := true)
    else p
  }

  function ParsedIPv4(data: seq<byte>, offset: nat, p: Packet): Packet {
    if |data| < offset + 20 || data[offset] / 16 != 4 then p
    else
      var ihl := data[offset] % 16 * 4;
      if ihl < 20 || |data| < offset + ihl then p
      else
        var ip := p.(
          isIP := true,
          src := AddrPort(V4(data[offset + 12..offset + 16]), 0),
          dst := AddrPort(V4(data[offset + 16..offset + 20]), 0));
        if Word(data, offset + 6) % 0x2000 != 0 then ip
        else WithPorts(data, offset + ihl, data[offset + 9], ip)
  }

  /** The upper-layer header behind at most `budget - 1` extension headers, if the frame shows one. */
  function PastExtensions(data: seq<byte>, next: byte, offset: nat, budget: nat): Option<Upper>
    decreases budget, 0
  {
    if budget == 0 then None
    else if IsOptionsHeader(next) then
      if |data| < offset + 2 then None
      else Advance(data, data[offset], offset + OptionsLength(data[offset + 1]), budget - 1)
    else if next == FRAGMENT then
      if |data| < offset + 8 || Word(data, offset + 2) / 8 != 0 then None
      else Advance(data, data[offset], offset + 8, budget - 1)
    else if next == AUTHENTICATION then
      if |data| < offset + 2 then None
      else Advance(data, data[offset], offset + AuthenticationLength(data[offset + 1]), budget - 1)
    else Some(Upper(next, offset))
  }

  function Advance(data: seq<byte>, next: byte, offset: nat, budget: nat): Option<Upper>
    decreases budget, 1
  {
    if offset > |data| then None else PastExtensions(data, next, offset, budget)
  }

  function ParsedIPv6(data: seq<byte>, offset: nat, p: Packet): Packet {
    if |data| < offset + 40 || data[offset] / 16 != 6 then p
    else
      var ip := p.(
        isIP := true,
        src := AddrPort(V6(data[offset + 8..offset + 24]).Unmap(), 0),
        dst := AddrPort(V6(data[offset + 24..offset + 40]).Unmap(), 0));
      match PastExtensions(data, data[offset + 6], offset + 40, MAX_EXTENSIONS)
      case None => ip
      case Some(upper) => WithPorts(data, upper.offset, upper.protocol, ip)
  }

  function ParsedLayer3(data: seq<byte>, layer: Layer, p: Packet): Packet {
    if layer.etherType == ETHERTYPE_IPV4 then ParsedIPv4(data, layer.offset, p)
    else if layer.etherType == ETHERTYPE_IPV6 then ParsedIPv6(data, layer.offset, p)
    else p
  }

  function Parsed(data: seq<byte>): Packet {
    if |data| < 14 then NO_PACKET
    else
      var p := NO_PACKET.(dstMAC := data[..6], srcMAC := data[6..12]);
      match PastTags(data, Word(data, 12), 14)
      case None => p
      case Some(layer) => ParsedLayer3(data, layer, p)
  }

  // ----- The parser -----

  method ParsePacket(data: seq<byte>) returns (p: Packet)
    ensures p == Parsed(data)
  {
    p := NO_PACKET;
    if |data| < 14 {
      return;
    }
    p := p.(dstMAC := data[..6]);
    p := p.(srcMAC := data[6..12]);
    var etherType := Word(data, 12);
    var offset := 14;
    while IsTag(etherType)
      invariant PastTags(data, etherType, offset) == PastTags(data, Word(data, 12), 14)
      decreases |data| - offset
    {
      if |data| < offset + 4 {
        return;
      }
      etherType := Word(data, offset + 2);
      offset := offset + 4;
    }
    if etherType == ETHERTYPE_IPV4 {
      p := ParseIPv4(data, offset, p);
    } else if etherType == ETHERTYPE_IPV6 {
      p := ParseIPv6(data, offset, p);
    }
  }

  method ParseIPv4(data: seq<byte>, offset: nat, packet: Packet) returns (p: Packet)
    ensures p == ParsedIPv4(data, offset, packet)
  {
    p := packet;
    if |data| < offset + 20 || data[offset] / 16 != 4 {
      return;
    }
    var ihl := data[offset] % 16 * 4;
    if ihl < 20 || |data| < offset + ihl {
      return;
    }
    p := p.(isIP := true);
    p := p.(src := AddrPort(V4(data[offset + 12..offset + 16]), 0));
    p := p.(dst := AddrPort(V4(data[offset + 16..offset + 20]), 0));
    var fragment := Word(data, offset + 6);
    if fragment % 0x2000 != 0 {
      return;
    }
    p := ParsePorts(data, offset + ihl, data[offset + 9], p);
  }

  method ParseIPv6(data: seq<byte>, start: nat, packet: Packet) returns (p: Packet)
    ensures p == ParsedIPv6(data, start, packet)
  {
    p := packet;
    var offset: nat := start;
    if |data| < offset + 40 || data[offset] / 16 != 6 {
      return;
    }
    p := p.(isIP := true);
    p := p.(src := AddrPort(V6(data[offset + 8..offset + 24]).Unmap(), 0));
    p := p.(dst := AddrPort(V6(data[offset + 24..offset + 40]).Unmap(), 0));
    var next := data[offset + 6];
    offset := offset + 40;
    for i := 0 to MAX_EXTENSIONS
      invariant PastExtensions(data, next, offset, MAX_EXTENSIONS - i)
             == PastExtensions(data, data[start + 6], start + 40, MAX_EXTENSIONS)
    {
      if IsOptionsHeader(next) {
        if |data| < offset + 2 {
          return;
        }
        next, offset := data[offset], offset + OptionsLength(data[offset + 1]);
      } else if next == FRAGMENT {
        if |data| < offset + 8 {
          return;
        }
        if Word(data, offset + 2) / 8 != 0 {
          return;
        }
        next, offset := data[offset], offset + 8;
      } else if next == AUTHENTICATION {
        if |data| < offset + 2 {
          return;
        }
        next, offset := data[offset], offset + AuthenticationLength(data[offset + 1]);
      } else {
        p := ParsePorts(data, offset, next, p);
        return;
      }
      if offset > |data| {
        return;
      }
    }
  }

  method ParsePorts(data: seq<byte>, offset: nat, protocol: byte, packet: Packet) returns (p: Packet)
    ensures p == WithPorts(data, offset, protocol, packet)
  {
    p := packet;
    if protocol != PROTOCOL_TCP && protocol != PROTOCOL_UDP {
      return;
    }
    if |data| < offset + 4 {
      return;
    }
    p := p.(protocol := protocol);
    p := p.(src := AddrPort(p.src.addr, Word(data, offset)));
    p := p.(dst := AddrPort(p.dst.addr, Word(data, offset + 2)));
    p := p.(hasPorts := true);
  }

  // ----- The tuple a packet is attributed by -----

  /** The source of an outgoing packet is the local end (internal/netmon/aggregate.go, lines 43-48). */
  function TupleOf(p: Packet, d: Direction): FlowKey {
    if d == Egress then FlowKey(p.protocol, p.src, p.dst) else FlowKey(p.protocol, p.dst, p.src)
  }
}
