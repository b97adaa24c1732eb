/** The text of `/proc`: socket tables and start times (internal/netmon/proc.go, lines 65-128 and 255-270). */
module ProcText {
  import opened NetTypes
  import opened Numerals
  import opened TabFields
  import opened Sockets

  // ----- Go's text functions -----

  function Split(text: string, c: char): seq<string>
    decreases |text|
  {
    var (word, rest) := Cut(text, c);
    if c in text then [word] + Split(rest, c) else [word]
  }

  /** Unicode's white space. */
  predicate IsSpace(c: char) {
    || '\t' <= c <= '\r' || c == ' ' || c == '\U{85}' || c == '\U{A0}' || c == '\U{1680}'
    || '\U{2000}' <= c <= '\U{200A}' || c == '\U{2028}' || c == '\U{2029}' || c == '\U{202F}' || c == '\U{205F}' || c == '\U{3000}'
  }

  /** The text up to the first white space, and what follows. */
  function Word(text: string): (r: (string, string))
    ensures text == r.0 + r.1
    ensures text != "" && !IsSpace(text[0]) ==> r.0 != ""
  {
    if text == "" || IsSpace(text[0]) then ("", text)
    else
      var (word, rest) := Word(text[1..]);
      assert text == [text[0]] + text[1..];
      ([text[0]] + word, rest)
  }

  /** The maximal runs without white space. */
  function Fields(text: string): seq<string>
    decreases |text|
  {
    if text == "" then []
    else if IsSpace(text[0]) then Fields(text[1..])
    else
      var (word, rest) := Word(text);
      [word] + Fields(rest)
  }

  function LastIndex(text: string, c: char): (r: int)
    ensures -1 <= r < |text|
  {
    if text == "" then -1
    else if text[|text| - 1] == c then |text| - 1
    else LastIndex(text[..|text| - 1], c)
  }

  const TWO_TO_THE_64: nat := 0x1_0000_0000_0000_0000

  function ParseDecimal64(text: string): Option<nat> {
    if IsDecimal(text) && 0 <= Value(text, 10) < TWO_TO_THE_64 then Some(Value(text, 10)) else None
  }

  function ParseHex16(text: string): Option<u16> {
    if text != "" && IsHex(text) && 0 <= Value(text, 16) < 0x1_0000 then Some(Value(text, 16)) else None
  }

  function HexByte(high: char, low: char): byte
    requires DigitOf(high) >= 0 && DigitOf(low) >= 0
  {
    DigitOf(high) * 16 + DigitOf(low)
  }

  function DecodeHex(text: string): Option<seq<byte>> {
    if |text| % 2 == 1 || !IsHex(text) then None
    else Some(seq(|text| / 2, i requires 0 <= i < |text| / 2 => HexByte(text[2 * i], text[2 * i + 1])))
  }

  // ----- Addresses: specification -----

  function Reversed4(w: Octets4): (r: Octets4) {
    [w[3], w[2], w[1], w[0]]
  }

  /** The bytes of each 32-bit word in the opposite order. */
  function WordsSwapped(raw: Octets16): (r: Octets16) {
    Reversed4(raw[..4]) + Reversed4(raw[4..8]) + Reversed4(raw[8..12]) + Reversed4(raw[12..])
  }

  lemma WordSwapped(raw: Octets16, i: nat)
    requires i in {0, 4, 8, 12}
    ensures var r := WordsSwapped(raw);
            r[i] == raw[i + 3] && r[i + 1] == raw[i + 2] && r[i + 2] == raw[i + 1] && r[i + 3] == raw[i]
  {
  }

  function AddrOf(raw: seq<byte>, ipv6: bool): Option<Addr> {
    if ipv6 then (if |raw| == 16 then Some(V6(WordsSwapped(raw)).Unmap()) else None)
    else if |raw| == 4 then Some(V4(Reversed4(raw)))
    else None
  }

  function AddrPortOf(value: string, ipv6: bool): Option<AddrPort> {
    var parts := Split(value, ':');
    if |parts| != 2 then None
    else
      var raw := DecodeHex(parts[0]);
      var port := ParseHex16(parts[1]);
      if raw.None? || port.None? then None
      else
        var addr := AddrOf(raw.value, ipv6);
        if addr.None? then None else Some(AddrPort(addr.value, port.value))
  }

  // ----- Addresses: the code -----

  method SwapWords(raw: array<byte>)
    requires raw.Length == 16
    modifies raw
    ensures raw[..] == WordsSwapped(old(raw[..]))
  {
    hide WordsSwapped;
    ghost var was, swapped := raw[..], WordsSwapped(raw[..]);
    var i := 0;
    while i < 16
      invariant i in {0, 4, 8, 12, 16}
      invariant forall k :: i <= k < 16 ==> raw[k] == was[k]
      invariant forall k :: 0 <= k < i ==> raw[k] == swapped[k]
    {
      WordSwapped(was, i);
      raw[i], raw[i + 3] := raw[i + 3], raw[i];
      raw[i + 1], raw[i + 2] := raw[i + 2], raw[i + 1];
      i := i + 4;
    }
  }

  method ParseProcAddrPort(value: string, ipv6: bool) returns (r: Option<AddrPort>)
    ensures r == AddrPortOf(value, ipv6)
  {
    var parts := Split(value, ':');
    if |parts| != 2 {
      return None;
    }
    var decoded := DecodeHex(parts[0]);
    if decoded.None? {
      return None;
    }
    var port := ParseHex16(parts[1]);
    if port.None? {
      return None;
    }
    var bytes := decoded.value;
    if ipv6 {
      if |bytes| != 16 {
        return None;
      }
      var raw := new byte[16](i requires 0 <= i < 16 => bytes[i]);
      assert raw[..] == bytes;
      SwapWords(raw);
      return Some(AddrPort(V6(raw[..]).Unmap(), port.value));
    }
    if |bytes| != 4 {
      return None;
    }
    return Some(AddrPort(V4([bytes[3], bytes[2], bytes[1], bytes[0]]), port.value));
  }

  // ----- Socket tables -----

  function EntryOf(line: string, protocol: byte, ipv6: bool): Option<SocketEntry> {
    var fields := Fields(line);
    if |fields| < 10 then None
    else
      var local, remote, inode := AddrPortOf(fields[1], ipv6), AddrPortOf(fields[2], ipv6), ParseDecimal64(fields[9]);
      if local.None? || remote.None? || inode.None? || inode.value == 0 then None
      else Some(SocketEntry(FlowKey(protocol, local.value, remote.value), inode.value))
  }

  function EntriesOf(lines: seq<string>, protocol: byte, ipv6: bool): seq<SocketEntry> {
    if lines == [] then []
    else
      var n := |lines| - 1;
      var entry := EntryOf(lines[n], protocol, ipv6);
      EntriesOf(lines[..n], protocol, ipv6) + if entry.Some? then [entry.value] else []
  }

  method ParseSocketTable(lines: seq<string>, protocol: byte, ipv6: bool) returns (entries: seq<SocketEntry>)
    ensures entries == if lines == [] then [] else EntriesOf(lines[1..], protocol, ipv6)
  {
    hide Fields, AddrPortOf, ParseDecimal64;
    entries := [];
    var first := true;
    for i := 0 to |lines|
      invariant first <==> i == 0
      invariant entries == if i == 0 then [] else EntriesOf(lines[1..][..i - 1], protocol, ipv6)
    {
      if first {
        first := false;
        assert lines[1..][..0] == [];
        continue;
      }
      assert lines[1..][..i][..i - 1] == lines[1..][..i - 1] && lines[1..][..i][i - 1] == lines[i];
      var fields := Fields(lines[i]);
      if |fields| < 10 {
        continue;
      }
      var local := ParseProcAddrPort(fields[1], ipv6);
      if local.None? {
        continue;
      }
      var remote := ParseProcAddrPort(fields[2], ipv6);
      if remote.None? {
        continue;
      }
      var inode := ParseDecimal64(fields[9]);
      if inode.None? || inode.value == 0 {
        continue;
      }
      entries := entries + [SocketEntry(FlowKey(protocol, local.value, remote.value), inode.value)];
    }
    assert lines != [] ==> lines[1..][..|lines| - 1] == lines[1..];
  }

  // ----- Start times -----

  /** Field 22 of `/proc/<pid>/stat`, counted from the last closing parenthesis. */
  function StartTime(stat: string): Option<nat> {
    var end := LastIndex(stat, ')');
    if end < 0 || end + 2 >= |stat| then None
    else
      var fields := Fields(stat[end + 2..]);
      if |fields| <= 19 then None else ParseDecimal64(fields[19])
  }
}
