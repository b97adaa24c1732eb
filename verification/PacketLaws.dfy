/** What the frame parser recovers: it inverts the wire encoding of Ethernet with any VLAN stack over IPv4
    (section 3.1 of RFC 791) or IPv6 with extension headers (section 4 of RFC 8200, section 2.2 of RFC 4302),
    and a truncated frame only ever yields less (internal/netmon/packet.go, lines 18-114). */
module PacketLaws {
  import opened NetTypes
  import opened Packets

  // ----- Wire encoding -----

  function Hi(w: u16): byte {
    w / 0x100
  }

  function Lo(w: u16): byte {
    w % 0x100
  }

  function U16(w: u16): seq<byte> {
    [Hi(w), Lo(w)]
  }

  datatype Tag = Tag(kind: u16, control: u16)

  function EncodeTags(tags: seq<Tag>): seq<byte> {
    if tags == [] then [] else U16(tags[0].kind) + U16(tags[0].control) + EncodeTags(tags[1..])
  }

  function EncodeFrame(dst: Mac, src: Mac, tags: seq<Tag>, etherType: u16, payload: seq<byte>): seq<byte> {
    dst + src + (EncodeTags(tags) + U16(etherType) + payload)
  }

  /** Customer tags, service tags, and the older form of the latter. */
  predicate IsTagType(etherType: u16) {
    etherType == 0x8100 || etherType == 0x88a8 || etherType == 0x9100
  }

  predicate LegalTags(tags: seq<Tag>) {
    forall i :: 0 <= i < |tags| ==> IsTagType(tags[i].kind)
  }

  datatype IPv4Header = IPv4Header(
    tos: byte, totalLength: u16, id: u16, fragment: u16, ttl: byte, protocol: byte, checksum: u16,
    src: Octets4, dst: Octets4, options: seq<byte>)
  {
    predicate Legal() {
      |options| % 4 == 0 && |options| <= 40
    }

    function Encode(): seq<byte>
      requires Legal()
    {
      [0x45 + |options| / 4, tos, Hi(totalLength), Lo(totalLength), Hi(id), Lo(id), Hi(fragment), Lo(fragment),
       ttl, protocol, Hi(checksum), Lo(checksum)] + (src + (dst + options))
    }
  }

  datatype IPv6Header = IPv6Header(
    traffic: byte, flow: Octets4, length: u16, hopLimit: byte, src: Octets16, dst: Octets16)
  {
    /** `flow[0]` holds the low half of the traffic class and the high half of the flow label. */
    predicate Legal() {
      traffic < 16 && flow[3] == 0
    }

    function Encode(next: byte): seq<byte>
      requires Legal()
    {
      [0x60 + traffic, flow[0], flow[1], flow[2], Hi(length), Lo(length), next, hopLimit] + (src + dst)
    }
  }

  datatype Extension =
    | Options(number: byte, body: seq<byte>)
    | Fragment(reserved: byte, word: u16, id: Octets4)
    | Authentication(body: seq<byte>)
  {
    predicate Legal() {
      match this
      case Options(number, _) => (number == 0 || number == 43 || number == 60) && (|body| + 2) % 8 == 0 && |body| + 2 <= 2048
      case Fragment(_, _, _) => true
      case Authentication(_) => (|body| + 2) % 4 == 0 && 8 <= |body| + 2 <= 1028
    }

    function Number(): byte {
      match this
      case Options(number, _) => number
      case Fragment(_, _, _) => 44
      case Authentication(_) => 51
    }

    /** A first fragment, or no fragment at all: its 13-bit offset is zero. */
    predicate StartsPayload() {
      Fragment? ==> word / 8 == 0
    }

    function Encode(next: byte): seq<byte>
      requires Legal()
    {
      match this
      case Options(_, body) => [next, (|body| + 2) / 8 - 1] + body
      case Fragment(reserved, word, id) => [next, reserved] + U16(word) + id
      case Authentication(body) => [next, (|body| + 2) / 4 - 2] + body
    }
  }

  predicate IsExtension(next: byte) {
    next == 0 || next == 43 || next == 44 || next == 51 || next == 60
  }

  predicate LegalExtensions(exts: seq<Extension>) {
    forall i :: 0 <= i < |exts| ==> exts[i].Legal()
  }

  function FirstNumber(exts: seq<Extension>, upper: byte): byte {
    if exts == [] then upper else exts[0].Number()
  }

  function EncodeExtensions(exts: seq<Extension>, upper: byte): seq<byte>
    requires LegalExtensions(exts)
  {
    if exts == [] then []
    else exts[0].Encode(FirstNumber(exts[1..], upper)) + EncodeExtensions(exts[1..], upper)
  }

  function Ports(source: u16, dest: u16): seq<byte> {
    U16(source) + U16(dest)
  }

  // ----- Parsing does not depend on where the layer starts -----

  lemma {:induction false} ExtensionsShift(pre: seq<byte>, data: seq<byte>, next: byte, offset: nat, budget: nat)
    ensures PastExtensions(pre + data, next, |pre| + offset, budget)
         == match PastExtensions(data, next, offset, budget)
            case None => None
            case Some(upper) => Some(Upper(upper.protocol, |pre| + upper.offset))
    decreases budget
  {
    var all, at := pre + data, |pre| + offset;
    if budget > 0 && IsExtension(next) && offset + 2 <= |data| {
      assert all[at] == data[offset] && all[at + 1] == data[offset + 1];
      if next == FRAGMENT && offset + 8 <= |data| {
        assert all[at + 2] == data[offset + 2] && all[at + 3] == data[offset + 3];
      }
      var length := if IsOptionsHeader(next) then OptionsLength(data[offset + 1])
                    else if next == FRAGMENT then 8 else AuthenticationLength(data[offset + 1]);
      ExtensionsShift(pre, data, data[offset], offset + length, budget - 1);
      assert |pre| + (offset + length) == at + length;
    }
  }

  lemma PortsShift(pre: seq<byte>, data: seq<byte>, offset: nat, protocol: byte, p: Packet)
    ensures WithPorts(pre + data, |pre| + offset, protocol, p) == WithPorts(data, offset, protocol, p)
  {
  }

  lemma IPv4Shift(pre: seq<byte>, data: seq<byte>, p: Packet)
    ensures ParsedIPv4(pre + data, |pre|, p) == ParsedIPv4(data, 0, p)
  {
    if |data| >= 20 {
      var all, at := pre + data, |pre|;
      assert all[at] == data[0] && all[at + 6] == data[6] && all[at + 7] == data[7] && all[at + 9] == data[9];
      assert all[at + 12..at + 16] == data[12..16] && all[at + 16..at + 20] == data[16..20];
      var ip := p.(isIP := true, src := AddrPort(V4(data[12..16]), 0), dst := AddrPort(V4(data[16..20]), 0));
      PortsShift(pre, data, data[0] % 16 * 4, data[9], ip);
    }
  }

  lemma IPv6Shift(pre: seq<byte>, data: seq<byte>, p: Packet)
    ensures ParsedIPv6(pre + data, |pre|, p) == ParsedIPv6(data, 0, p)
  {
    hide PastExtensions, WithPorts;
    if |data| >= 40 {
      var all, at := pre + data, |pre|;
      assert all[at] == data[0] && all[at + 6] == data[6];
      assert all[at + 8..at + 24] == data[8..24] && all[at + 24..at + 40] == data[24..40];
      ExtensionsShift(pre, data, data[6], 40, MAX_EXTENSIONS);
      var ip := p.(
        isIP := true,
        src := AddrPort(V6(data[8..24]).Unmap(), 0),
        dst := AddrPort(V6(data[24..40]).Unmap(), 0));
      if upper :| PastExtensions(data, data[6], 40, MAX_EXTENSIONS) == Some(upper) {
        PortsShift(pre, data, upper.offset, upper.protocol, ip);
      }
    }
  }

  lemma Layer3Shift(pre: seq<byte>, data: seq<byte>, etherType: u16, p: Packet)
    ensures ParsedLayer3(pre + data, Layer(etherType, |pre|), p) == ParsedLayer3(data, Layer(etherType, 0), p)
  {
    IPv4Shift(pre, data, p);
    IPv6Shift(pre, data, p);
  }

  // ----- Ethernet -----

  lemma {:induction false} TagsArePassed(pre: seq<byte>, tags: seq<Tag>, etherType: u16, payload: seq<byte>)
    requires LegalTags(tags) && !IsTagType(etherType)
    ensures var data := pre + (EncodeTags(tags) + U16(etherType) + payload);
            PastTags(data, Word(data, |pre|), |pre| + 2) == Some(Layer(etherType, |pre| + |EncodeTags(tags)| + 2))
    decreases |tags|
  {
    var data := pre + (EncodeTags(tags) + U16(etherType) + payload);
    if tags != [] {
      var tag := U16(tags[0].kind) + U16(tags[0].control);
      var rest := EncodeTags(tags[1..]) + U16(etherType) + payload;
      assert data == (pre + tag) + rest;
      TagsArePassed(pre + tag, tags[1..], etherType, payload);
      assert Word(data, |pre|) == tags[0].kind;
    }
  }

  /** Any VLAN or QinQ stack is transparent: a frame parses to its MACs and whatever its payload parses to. */
  lemma FrameIsItsPayload(dst: Mac, src: Mac, tags: seq<Tag>, etherType: u16, payload: seq<byte>)
    requires LegalTags(tags) && !IsTagType(etherType)
    ensures Parsed(EncodeFrame(dst, src, tags, etherType, payload))
         == ParsedLayer3(payload, Layer(etherType, 0), NO_PACKET.(dstMAC := dst, srcMAC := src))
  {
    var data := EncodeFrame(dst, src, tags, etherType, payload);
    TagsArePassed(dst + src, tags, etherType, payload);
    var pre := dst + src + EncodeTags(tags) + U16(etherType);
    assert data == pre + payload;
    assert data[..6] == dst && data[6..12] == src;
    Layer3Shift(pre, payload, etherType, NO_PACKET.(dstMAC := dst, srcMAC := src));
  }

  /** What is announced as neither IPv4 nor IPv6 is not looked into. */
  lemma OtherFramesAreNotIP(dst: Mac, src: Mac, tags: seq<Tag>, etherType: u16, payload: seq<byte>)
    requires LegalTags(tags) && !IsTagType(etherType) && etherType != 0x0800 && etherType != 0x86dd
    ensures Parsed(EncodeFrame(dst, src, tags, etherType, payload)) == NO_PACKET.(dstMAC := dst, srcMAC := src)
  {
    FrameIsItsPayload(dst, src, tags, etherType, payload);
  }

  /** A payload is taken for the announced protocol iff its version agrees and its header is whole. */
  lemma IsIPIff(dst: Mac, src: Mac, tags: seq<Tag>, payload: seq<byte>)
    requires LegalTags(tags)
    ensures Parsed(EncodeFrame(dst, src, tags, 0x0800, payload)).isIP
      <==> |payload| >= 20 && payload[0] / 16 == 4 && 20 <= payload[0] % 16 * 4 <= |payload|
    ensures Parsed(EncodeFrame(dst, src, tags, 0x86dd, payload)).isIP <==> |payload| >= 40 && payload[0] / 16 == 6
  {
    FrameIsItsPayload(dst, src, tags, 0x0800, payload);
    FrameIsItsPayload(dst, src, tags, 0x86dd, payload);
    hide PastExtensions, Parsed, EncodeFrame, LegalTags;
  }

  // ----- IPv4 -----

  lemma IPv4HeaderBytes(h: IPv4Header)
    requires h.Legal()
    ensures var b := h.Encode();
            && |b| == 20 + |h.options|
            && b[0] / 16 == 4 && b[0] % 16 * 4 == |b|
            && Word(b, 6) == h.fragment && b[9] == h.protocol
            && b[12..16] == h.src && b[16..20] == h.dst
  {
  }

  lemma IPv4IsRecovered(h: IPv4Header, payload: seq<byte>, p: Packet)
    requires h.Legal()
    ensures ParsedIPv4(h.Encode() + payload, 0, p) == (
      var ip := p.(isIP := true, src := AddrPort(V4(h.src), 0), dst := AddrPort(V4(h.dst), 0));
      if h.fragment % 0x2000 != 0 then ip else WithPorts(payload, 0, h.protocol, ip))
  {
    var header := h.Encode();
    IPv4HeaderBytes(h);
    assert (header + payload)[12..16] == header[12..16] && (header + payload)[16..20] == header[16..20];
    PortsShift(header, payload, 0, h.protocol, p.(isIP := true, src := AddrPort(V4(h.src), 0), dst := AddrPort(V4(h.dst), 0)));
  }

  /** Any packet over IPv4, with any options, inside any tag stack: the addresses come back, and with them
      protocol and ports if it is TCP or UDP, no later fragment, and long enough to show the ports. */
  lemma IPv4FrameIs(dst: Mac, src: Mac, tags: seq<Tag>, h: IPv4Header, payload: seq<byte>)
    requires LegalTags(tags) && h.Legal()
    ensures Parsed(EncodeFrame(dst, src, tags, 0x0800, h.Encode() + payload))
         == if h.fragment % 0x2000 == 0 && (h.protocol == 6 || h.protocol == 17) && |payload| >= 4
            then Packet(h.protocol, AddrPort(V4(h.src), Word(payload, 0)), AddrPort(V4(h.dst), Word(payload, 2)), src, dst, true, true)
            else Packet(0, AddrPort(V4(h.src), 0), AddrPort(V4(h.dst), 0), src, dst, true, false)
  {
    FrameIsItsPayload(dst, src, tags, ETHERTYPE_IPV4, h.Encode() + payload);
    IPv4IsRecovered(h, payload, NO_PACKET.(dstMAC := dst, srcMAC := src));
  }

  /** TCP or UDP over IPv4: everything comes back. */
  lemma IPv4FrameRoundTrip(dst: Mac, src: Mac, tags: seq<Tag>, h: IPv4Header, source: u16, dest: u16, rest: seq<byte>)
    requires LegalTags(tags) && h.Legal() && (h.protocol == 6 || h.protocol == 17)
    ensures Parsed(EncodeFrame(dst, src, tags, 0x0800, h.Encode() + (Ports(source, dest) + rest)))
         == if h.fragment % 0x2000 == 0
            then Packet(h.protocol, AddrPort(V4(h.src), source), AddrPort(V4(h.dst), dest), src, dst, true, true)
            else Packet(0, AddrPort(V4(h.src), 0), AddrPort(V4(h.dst), 0), src, dst, true, false)
  {
    var payload := Ports(source, dest) + rest;
    IPv4FrameIs(dst, src, tags, h, payload);
    assert Word(payload, 0) == source && Word(payload, 2) == dest;
  }

  // ----- IPv6 -----

  lemma OneExtension(ext: Extension, next: byte, rest: seq<byte>, budget: nat)
    requires ext.Legal() && budget > 0
    ensures PastExtensions(ext.Encode(next) + rest, ext.Number(), 0, budget)
         == if ext.StartsPayload()
            then PastExtensions(ext.Encode(next) + rest, next, |ext.Encode(next)|, budget - 1)
            else None
  {
  }

  lemma AllStartPayload(exts: seq<Extension>)
    requires exts != []
    ensures (forall i :: 0 <= i < |exts| ==> exts[i].StartsPayload())
      <==> exts[0].StartsPayload() && forall i :: 0 <= i < |exts[1..]| ==> exts[1..][i].StartsPayload()
  {
    assert forall i :: 0 < i < |exts| ==> exts[i] == exts[1..][i - 1];
  }

  lemma OneMoreExtension(exts: seq<Extension>, upper: byte, rest: seq<byte>, budget: nat)
    requires LegalExtensions(exts) && exts != [] && budget > 0
    ensures var next := FirstNumber(exts[1..], upper);
            var tail := EncodeExtensions(exts[1..], upper) + rest;
            PastExtensions(EncodeExtensions(exts, upper) + rest, FirstNumber(exts, upper), 0, budget)
            == if !exts[0].StartsPayload() then None
               else match PastExtensions(tail, next, 0, budget - 1)
                    case None => None
                    case Some(u) => Some(Upper(u.protocol, |exts[0].Encode(next)| + u.offset))
    ensures |EncodeExtensions(exts, upper)| == |exts[0].Encode(FirstNumber(exts[1..], upper))| + |EncodeExtensions(exts[1..], upper)|
  {
    hide PastExtensions;
    var next := FirstNumber(exts[1..], upper);
    var first := exts[0].Encode(next);
    var tail := EncodeExtensions(exts[1..], upper) + rest;
    assert EncodeExtensions(exts, upper) + rest == first + tail;
    OneExtension(exts[0], next, tail, budget);
    ExtensionsShift(first, tail, next, 0, budget - 1);
  }

  /** The chain is walked to its end iff it has fewer headers than the budget and none of them is a later
      fragment. */
  lemma {:induction false} ExtensionsArePassed(exts: seq<Extension>, upper: byte, rest: seq<byte>, budget: nat)
    requires LegalExtensions(exts) && !IsExtension(upper)
    ensures PastExtensions(EncodeExtensions(exts, upper) + rest, FirstNumber(exts, upper), 0, budget)
         == if |exts| < budget && forall i :: 0 <= i < |exts| ==> exts[i].StartsPayload()
            then Some(Upper(upper, |EncodeExtensions(exts, upper)|)) else None
    decreases |exts|
  {
    if exts == [] || budget == 0 {
    } else {
      assert LegalExtensions(exts[1..]);
      hide *;
      OneMoreExtension(exts, upper, rest, budget);
      ExtensionsArePassed(exts[1..], upper, rest, budget - 1);
      AllStartPayload(exts);
    }
  }

  lemma IPv6HeaderBytes(h: IPv6Header, next: byte)
    requires h.Legal()
    ensures var b := h.Encode(next);
            && |b| == 40 && b[0] / 16 == 6 && b[6] == next
            && b[8..24] == h.src && b[24..40] == h.dst
  {
  }

  function IPv6Packet(h: IPv6Header, p: Packet): Packet {
    p.(isIP := true, src := AddrPort(V6(h.src).Unmap(), 0), dst := AddrPort(V6(h.dst).Unmap(), 0))
  }

  lemma IPv6IsRecovered(h: IPv6Header, next: byte, body: seq<byte>, p: Packet)
    requires h.Legal()
    ensures ParsedIPv6(h.Encode(next) + body, 0, p)
         == match PastExtensions(body, next, 0, MAX_EXTENSIONS)
            case None => IPv6Packet(h, p)
            case Some(upper) => WithPorts(body, upper.offset, upper.protocol, IPv6Packet(h, p))
  {
    var header := h.Encode(next);
    var data := header + body;
    IPv6HeaderBytes(h, next);
    assert data[8..24] == header[8..24] && data[24..40] == header[24..40];
    ExtensionsShift(header, body, next, 0, MAX_EXTENSIONS);
    if upper :| PastExtensions(body, next, 0, MAX_EXTENSIONS) == Some(upper) {
      PortsShift(header, body, upper.offset, upper.protocol, IPv6Packet(h, p));
    }
  }

  lemma IPv6PayloadIsRecovered(h: IPv6Header, exts: seq<Extension>, protocol: byte, payload: seq<byte>, p: Packet)
    requires h.Legal() && LegalExtensions(exts) && !IsExtension(protocol)
    ensures ParsedIPv6(h.Encode(FirstNumber(exts, protocol)) + (EncodeExtensions(exts, protocol) + payload), 0, p)
         == if |exts| <= 7 && forall i :: 0 <= i < |exts| ==> exts[i].StartsPayload()
            then WithPorts(payload, 0, protocol, IPv6Packet(h, p))
            else IPv6Packet(h, p)
  {
    hide PastExtensions, EncodeExtensions, ParsedIPv6, WithPorts, IPv6Packet;
    var chain := EncodeExtensions(exts, protocol);
    IPv6IsRecovered(h, FirstNumber(exts, protocol), chain + payload, p);
    ExtensionsArePassed(exts, protocol, payload, MAX_EXTENSIONS);
    PortsShift(chain, payload, 0, protocol, IPv6Packet(h, p));
  }

  /** Any packet over IPv6: the addresses always come back, IPv4-mapped ones in their IPv4 form; protocol and ports
      iff it is TCP or UDP behind at most seven extension headers, none a later fragment, and shows its ports. */
  lemma IPv6FrameIs(dst: Mac, src: Mac, tags: seq<Tag>, h: IPv6Header, exts: seq<Extension>, protocol: byte, payload: seq<byte>)
    requires LegalTags(tags) && h.Legal() && LegalExtensions(exts) && !IsExtension(protocol)
    ensures Parsed(EncodeFrame(dst, src, tags, 0x86dd, h.Encode(FirstNumber(exts, protocol)) + (EncodeExtensions(exts, protocol) + payload)))
         == if |exts| <= 7 && (forall i :: 0 <= i < |exts| ==> exts[i].StartsPayload())
               && (protocol == 6 || protocol == 17) && |payload| >= 4
            then Packet(protocol, AddrPort(V6(h.src).Unmap(), Word(payload, 0)), AddrPort(V6(h.dst).Unmap(), Word(payload, 2)), src, dst, true, true)
            else Packet(0, AddrPort(V6(h.src).Unmap(), 0), AddrPort(V6(h.dst).Unmap(), 0), src, dst, true, false)
  {
    var p := NO_PACKET.(dstMAC := dst, srcMAC := src);
    IPv6Frame(dst, src, tags, h.Encode(FirstNumber(exts, protocol)) + (EncodeExtensions(exts, protocol) + payload));
    IPv6PayloadIsRecovered(h, exts, protocol, payload, p);
    hide LegalTags, IsExtension, LegalExtensions, EncodeFrame, EncodeExtensions, Parsed, ParsedIPv6;
  }

  /** TCP or UDP over IPv6: the ports come back iff there are at most seven extension headers and no
      non-initial fragment; the addresses always do, IPv4-mapped ones in their IPv4 form. */
  lemma IPv6FrameRoundTrip(dst: Mac, src: Mac, tags: seq<Tag>, h: IPv6Header, exts: seq<Extension>, protocol: byte,
                           source: u16, dest: u16, rest: seq<byte>)
    requires LegalTags(tags) && h.Legal() && LegalExtensions(exts) && (protocol == 6 || protocol == 17)
    ensures Parsed(EncodeFrame(dst, src, tags, 0x86dd,
              h.Encode(FirstNumber(exts, protocol)) + (EncodeExtensions(exts, protocol) + (Ports(source, dest) + rest))))
         == if |exts| <= 7 && forall i :: 0 <= i < |exts| ==> exts[i].StartsPayload()
            then Packet(protocol, AddrPort(V6(h.src).Unmap(), source), AddrPort(V6(h.dst).Unmap(), dest), src, dst, true, true)
            else Packet(0, AddrPort(V6(h.src).Unmap(), 0), AddrPort(V6(h.dst).Unmap(), 0), src, dst, true, false)
  {
    var payload := Ports(source, dest) + rest;
    assert |payload| >= 4 && Word(payload, 0) == source && Word(payload, 2) == dest;
    assert !IsExtension(protocol);
    hide *;
    IPv6FrameIs(dst, src, tags, h, exts, protocol, payload);
  }

  lemma IPv6Frame(dst: Mac, src: Mac, tags: seq<Tag>, payload: seq<byte>)
    requires LegalTags(tags)
    ensures Parsed(EncodeFrame(dst, src, tags, 0x86dd, payload))
         == ParsedIPv6(payload, 0, NO_PACKET.(dstMAC := dst, srcMAC := src))
  {
    FrameIsItsPayload(dst, src, tags, ETHERTYPE_IPV6, payload);
  }

  // ----- Truncation -----

  /** `p` tells no more than `q`, and nothing else. */
  predicate Below(p: Packet, q: Packet) {
    || p == NO_PACKET
    || p == q
    || (&& p.srcMAC == q.srcMAC && p.dstMAC == q.dstMAC
        && !p.hasPorts && p.protocol == 0
        && p.src == AddrPort(if p.isIP then q.src.addr else NoAddr, 0)
        && p.dst == AddrPort(if p.isIP then q.dst.addr else NoAddr, 0)
        && (p.isIP ==> q.isIP))
  }

  lemma {:induction false} TagsOfPrefix(data: seq<byte>, n: nat, etherType: u16, offset: nat)
    requires n <= |data|
    ensures PastTags(data[..n], etherType, offset).Some? ==> PastTags(data[..n], etherType, offset) == PastTags(data, etherType, offset)
    decreases n - offset
  {
    if IsTag(etherType) && offset + 4 <= n {
      TagsOfPrefix(data, n, Word(data, offset + 2), offset + 4);
    }
  }

  lemma {:induction false} ExtensionsOfPrefix(data: seq<byte>, n: nat, next: byte, offset: nat, budget: nat)
    requires n <= |data|
    ensures PastExtensions(data[..n], next, offset, budget).Some?
            ==> PastExtensions(data[..n], next, offset, budget) == PastExtensions(data, next, offset, budget)
    decreases budget
  {
    if budget > 0 && IsExtension(next) && offset + 2 <= n {
      var length := if IsOptionsHeader(next) then OptionsLength(data[offset + 1])
                    else if next == FRAGMENT then 8 else AuthenticationLength(data[offset + 1]);
      ExtensionsOfPrefix(data, n, data[offset], offset + length, budget - 1);
    }
  }

  lemma PortsOfPrefix(data: seq<byte>, n: nat, offset: nat, protocol: byte, p: Packet)
    requires n <= |data| && !p.hasPorts && p.protocol == 0 && p.src.port == 0 && p.dst.port == 0 && p.isIP
    ensures Below(WithPorts(data[..n], offset, protocol, p), WithPorts(data, offset, protocol, p))
    ensures Below(p, WithPorts(data, offset, protocol, p))
  {
  }

  lemma IPv4OfPrefix(data: seq<byte>, n: nat, o: nat, p: Packet)
    requires n <= |data|
    requires p == NO_PACKET.(srcMAC := p.srcMAC, dstMAC := p.dstMAC)
    ensures Below(ParsedIPv4(data[..n], o, p), ParsedIPv4(data, o, p))
    ensures Below(p, ParsedIPv4(data, o, p))
  {
    if |data| >= o + 20 {
      var ihl := data[o] % 16 * 4;
      var ip := p.(isIP := true, src := AddrPort(V4(data[o + 12..o + 16]), 0), dst := AddrPort(V4(data[o + 16..o + 20]), 0));
      PortsOfPrefix(data, n, o + ihl, data[o + 9], ip);
      if n >= o + 20 {
        var cut := data[..n];
        assert cut[o + 12..o + 16] == data[o + 12..o + 16] && cut[o + 16..o + 20] == data[o + 16..o + 20];
        assert Word(cut, o + 6) == Word(data, o + 6);
        hide WithPorts, Word;
      }
    }
  }

  lemma IPv6OfPrefix(data: seq<byte>, n: nat, o: nat, p: Packet)
    requires n <= |data|
    requires p == NO_PACKET.(srcMAC := p.srcMAC, dstMAC := p.dstMAC)
    ensures Below(ParsedIPv6(data[..n], o, p), ParsedIPv6(data, o, p))
    ensures Below(p, ParsedIPv6(data, o, p))
  {
    hide PastExtensions;
    if |data| >= o + 40 {
      var ip := p.(isIP := true, src := AddrPort(V6(data[o + 8..o + 24]).Unmap(), 0), dst := AddrPort(V6(data[o + 24..o + 40]).Unmap(), 0));
      if upper :| PastExtensions(data, data[o + 6], o + 40, MAX_EXTENSIONS) == Some(upper) {
        PortsOfPrefix(data, n, upper.offset, upper.protocol, ip);
      }
      if n >= o + 40 {
        var cut := data[..n];
        assert cut[o + 8..o + 24] == data[o + 8..o + 24] && cut[o + 24..o + 40] == data[o + 24..o + 40];
        ExtensionsOfPrefix(data, n, data[o + 6], o + 40, MAX_EXTENSIONS);
        hide WithPorts;
      }
    }
  }

  lemma Layer3OfPrefix(data: seq<byte>, n: nat, layer: Layer, p: Packet)
    requires n <= |data|
    requires p == NO_PACKET.(srcMAC := p.srcMAC, dstMAC := p.dstMAC)
    ensures Below(ParsedLayer3(data[..n], layer, p), ParsedLayer3(data, layer, p))
    ensures Below(p, ParsedLayer3(data, layer, p))
  {
    hide ParsedIPv4, ParsedIPv6;
    IPv4OfPrefix(data, n, layer.offset, p);
    IPv6OfPrefix(data, n, layer.offset, p);
  }

  /** Cutting a frame anywhere only loses information: what the shorter frame yields, the whole one yields
      too. */
  lemma TruncationOnlyLoses(data: seq<byte>, n: nat)
    requires n <= |data|
    ensures Below(Parsed(data[..n]), Parsed(data))
  {
    if n >= 14 {
      var cut := data[..n];
      assert cut[..6] == data[..6] && cut[6..12] == data[6..12];
      TagsOfPrefix(data, n, Word(data, 12), 14);
      var p := NO_PACKET.(dstMAC := data[..6], srcMAC := data[6..12]);
      if layer :| PastTags(data, Word(data, 12), 14) == Some(layer) {
        Layer3OfPrefix(data, n, layer, p);
      }
    }
  }
}
