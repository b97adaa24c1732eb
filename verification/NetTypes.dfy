/** The value types shared by the collector: addresses, flow tuples, workloads and traffic totals
    (internal/netmon/types.go). */
module NetTypes {

  type byte = x: int | 0 <= x < 0x100

  type u16 = x: int | 0 <= x < 0x1_0000

  type Octets4 = s: seq<byte> | |s| == 4 witness [0, 0, 0, 0]

  type Octets16 = s: seq<byte> | |s| == 16 witness [0, 0, 0, 0, 0, 0, 0, 0, 0, 0, 0, 0, 0, 0, 0, 0]

  datatype Option<+T> = None | Some(value: T)

  /** An IP address; `NoAddr` is the zero value an unparsed packet carries. */
  datatype Addr = NoAddr | V4(o4: Octets4) | V6(o16: Octets16) {

    predicate Is4In6() {
      V6? && o16[..12] == [0, 0, 0, 0, 0, 0, 0, 0, 0, 0, 0xff, 0xff]
    }

    /** An IPv4-mapped IPv6 address becomes the IPv4 address it carries. */
    function Unmap(): Addr {
      if Is4In6() then V4(o16[12..]) else this
    }
  }

  /** An address stands for an IPv4 address iff it is that address or its mapped form (section 2.5.5.2 of RFC 4291). */
  lemma UnmapIff(a: Addr, o: Octets4)
    ensures a.Unmap() == V4(o) <==> a == V4(o) || a == V6([0, 0, 0, 0, 0, 0, 0, 0, 0, 0, 0xff, 0xff] + o)
    ensures !a.Unmap().V4? ==> a.Unmap() == a
  {
    if a.V6? {
      assert a.o16 == a.o16[..12] + a.o16[12..];
      assert ([0, 0, 0, 0, 0, 0, 0, 0, 0, 0, 0xff, 0xff] + o)[..12] == [0, 0, 0, 0, 0, 0, 0, 0, 0, 0, 0xff, 0xff];
      assert ([0, 0, 0, 0, 0, 0, 0, 0, 0, 0, 0xff, 0xff] + o)[12..] == o;
    }
  }

  const ZERO16: Octets16 := [0, 0, 0, 0, 0, 0, 0, 0, 0, 0, 0, 0, 0, 0, 0, 0]
  const IPV4_UNSPECIFIED := V4([0, 0, 0, 0])
  const IPV6_UNSPECIFIED := V6(ZERO16)

  datatype AddrPort = AddrPort(addr: Addr, port: u16)

  const PROTOCOL_TCP: byte := 6
  const PROTOCOL_UDP: byte := 17

  predicate HasPortsProtocol(protocol: byte) {
    protocol == PROTOCOL_TCP || protocol == PROTOCOL_UDP
  }

  datatype FlowKey = FlowKey(protocol: byte, local: AddrPort, remote: AddrPort)

  /** The numbering matters: 0 is both `UNSUPPORTED` and the resolver's "no reason, the owner is known". */
  type UnknownReason = r: int | 0 <= r < 4

  const UNSUPPORTED: UnknownReason := 0
  const UNMATCHED: UnknownReason := 1
  const AMBIGUOUS: UnknownReason := 2
  const EXITED: UnknownReason := 3

  datatype ProcessID = ProcessID(pid: nat, startTicks: nat)

  datatype Workload = Workload(
    scope: string,
    runtime: string,
    cgroupID: nat,
    cgroupPath: string,
    ns: string,
    pod: string,
    container: string,
    containerID: string,
    attribution: string)
  {
    predicate IsContainer() {
      containerID != "" || pod != "" || container != ""
    }
  }

  const NO_WORKLOAD := Workload("", "", 0, "", "", "", "", "", "")

  datatype Direction = Ingress | Egress

  datatype Traffic = Traffic(rx: nat, tx: nat) {

    function In(d: Direction): nat {
      if d == Egress then tx else rx
    }

    /** The source adds to exactly one of the two columns. */
    function Plus(d: Direction, bytes: nat): Traffic {
      if d == Egress then Traffic(rx, tx + bytes) else Traffic(rx + bytes, tx)
    }
  }

  const NO_TRAFFIC := Traffic(0, 0)

  datatype CgroupFlow = CgroupFlow(cgroupID: nat, direction: Direction, flow: FlowKey, bytes: nat)
}
