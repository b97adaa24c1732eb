/** What the kernel prints is read back: addresses, ports, socket tables and start times
    (internal/netmon/proc.go, lines 65-128 and 255-270). */
module ProcLaws {
  import opened NetTypes
  import opened Numerals
  import opened TabFields
  import opened Sockets
  import opened ProcText

  // ----- The kernel's format -----

  /** The number a little-endian host loads from four bytes in network order. */
  function LittleEndian(w: seq<byte>): nat {
    if w == [] then 0 else
      var rest: nat := LittleEndian(w[1..]);
      w[0] as nat + 0x100 * rest
  }

  /** `%08X` of a word of an address. */
  function KernelWord(w: Octets4): string {
    Hex(LittleEndian(w), 8)
  }

  function KernelIPv4(a: Octets4, port: u16): string {
    KernelWord(a) + [':'] + Hex(port, 4)
  }

  function KernelIPv6(a: Octets16, port: u16): string {
    KernelWord(a[..4]) + KernelWord(a[4..8]) + KernelWord(a[8..12]) + KernelWord(a[12..]) + [':'] + Hex(port, 4)
  }

  // ----- Hexadecimal bytes -----

  function ByteText(b: byte): string {
    [DIGITS[b / 16], DIGITS[b % 16]]
  }

  function BytesText(bytes: seq<byte>): string {
    if bytes == [] then "" else ByteText(bytes[0]) + BytesText(bytes[1..])
  }

  lemma ByteTextIsHex(b: byte)
    ensures IsHex(ByteText(b)) && ':' !in ByteText(b)
  {
    DigitInverse(b / 16);
    DigitInverse(b % 16);
    assert DigitOf(':') == -1;
  }

  lemma {:induction false} BytesTextIsHex(bytes: seq<byte>)
    ensures |BytesText(bytes)| == 2 * |bytes| && IsHex(BytesText(bytes)) && ':' !in BytesText(bytes)
  {
    hide ByteText, DigitOf;
    if bytes != [] {
      ByteTextIsHex(bytes[0]);
      BytesTextIsHex(bytes[1..]);
      assert |ByteText(bytes[0])| == 2 by {
        TwoDigits(bytes[0]);
      }
    }
  }

  lemma TwoDigits(b: byte)
    ensures |ByteText(b)| == 2
  {
  }

  lemma {:induction false} PairOfByte(bytes: seq<byte>, i: nat)
    requires i < |bytes|
    ensures 2 * i + 2 <= |BytesText(bytes)| && BytesText(bytes)[2 * i..2 * i + 2] == ByteText(bytes[i])
  {
    hide ByteText;
    var rest := BytesText(bytes[1..]);
    TwoDigits(bytes[0]);
    assert BytesText(bytes) == ByteText(bytes[0]) + rest;
    if i > 0 {
      PairOfByte(bytes[1..], i - 1);
      hide BytesText;
      assert BytesText(bytes)[2 * i..2 * i + 2] == rest[2 * (i - 1)..2 * (i - 1) + 2];
    }
  }

  lemma {:induction false} DecodeBytesText(bytes: seq<byte>)
    ensures |BytesText(bytes)| == 2 * |bytes| && IsHex(BytesText(bytes)) && ':' !in BytesText(bytes)
    ensures forall i :: 0 <= i < |bytes| ==> BytesText(bytes)[2 * i..2 * i + 2] == ByteText(bytes[i])
  {
    hide BytesText, ByteText, IsHex;
    BytesTextIsHex(bytes);
    forall i | 0 <= i < |bytes| ensures BytesText(bytes)[2 * i..2 * i + 2] == ByteText(bytes[i]) {
      PairOfByte(bytes, i);
    }
  }

  lemma HexByteInverse(b: byte)
    ensures DigitOf(ByteText(b)[0]) >= 0 && DigitOf(ByteText(b)[1]) >= 0 && HexByte(ByteText(b)[0], ByteText(b)[1]) == b
  {
    DigitInverse(b / 16);
    DigitInverse(b % 16);
  }

  lemma DecodeInverse(bytes: seq<byte>)
    ensures DecodeHex(BytesText(bytes)) == Some(bytes)
  {
    hide BytesText, ByteText, HexByte, IsHex;
    DecodeBytesText(bytes);
    var text := BytesText(bytes);
    forall i | 0 <= i < |bytes| ensures DecodeHex(text).value[i] == bytes[i] {
      var pair := text[2 * i..2 * i + 2];
      assert pair == ByteText(bytes[i]) && pair[0] == text[2 * i] && pair[1] == text[2 * i + 1];
      HexByteInverse(bytes[i]);
    }
    assert |DecodeHex(text).value| == |bytes|;
    assert DecodeHex(text).value == bytes;
  }

  lemma {:induction false} BytesTextConcat(a: seq<byte>, b: seq<byte>)
    ensures BytesText(a + b) == BytesText(a) + BytesText(b)
  {
    hide ByteText;
    if a == [] {
      assert a + b == b;
    } else {
      BytesTextConcat(a[1..], b);
      assert (a + b)[1..] == a[1..] + b && (a + b)[0] == a[0];
      assert BytesText(a + b) == ByteText(a[0]) + BytesText(a[1..] + b);
      assert BytesText(a) == ByteText(a[0]) + BytesText(a[1..]);
      hide *;
    }
  }

  /** The two lowest digits are those of the lowest byte. */
  lemma HexOfByte(m: nat, b: byte, width: nat)
    ensures Hex(b + 0x100 * m, width + 2) == Hex(m, width) + ByteText(b)
  {
    var n := b + 0x100 * m;
    assert n / 16 == b / 16 + 16 * m && n % 16 == b % 16;
    assert (n / 16) / 16 == m && (n / 16) % 16 == b / 16;
    assert Hex(n, width + 2) == Hex(n / 16, width + 1) + [DIGITS[b % 16]];
    assert Hex(n / 16, width + 1) == Hex(m, width) + [DIGITS[b / 16]];
  }

  function Reverse(w: seq<byte>): (r: seq<byte>)
    ensures |r| == |w|
  {
    if w == [] then [] else Reverse(w[1..]) + [w[0]]
  }

  lemma BytesTextOfOne(b: byte)
    ensures BytesText([b]) == ByteText(b)
  {
  }

  /** The bytes of a word are printed in the opposite order. */
  lemma {:induction false} HexIsReversed(w: seq<byte>)
    ensures Hex(LittleEndian(w), 2 * |w|) == BytesText(Reverse(w))
  {
    hide Hex, ByteText, BytesText;
    if w == [] {
      NothingPrinted();
    } else {
      var rest := LittleEndian(w[1..]);
      HexOfByte(rest, w[0], 2 * |w| - 2);
      HexIsReversed(w[1..]);
      BytesTextConcat(Reverse(w[1..]), [w[0]]);
      BytesTextOfOne(w[0]);
    }
  }

  lemma NothingPrinted()
    ensures Hex(0, 0) == BytesText([]) == ""
  {
  }

  lemma ReverseOfFour(w: Octets4)
    ensures Reverse(w) == Reversed4(w)
  {
    assert w[1..][1..] == w[2..] && w[2..][1..] == w[3..] && Reverse(w[3..][1..]) == [];
    assert Reverse(w[3..]) == [w[3]] && Reverse(w[2..]) == [w[3], w[2]] && Reverse(w[1..]) == [w[3], w[2], w[1]];
  }

  lemma KernelWordIsReversed(w: Octets4)
    ensures KernelWord(w) == BytesText(Reversed4(w))
  {
    hide Hex, LittleEndian, Reverse, BytesText, Reversed4;
    HexIsReversed(w);
    ReverseOfFour(w);
  }

  lemma SwapIsInvolution(raw: Octets16)
    ensures WordsSwapped(WordsSwapped(raw)) == raw
  {
  }

  // ----- Addresses -----

  lemma SplitPair(a: string, b: string, c: char)
    requires c !in a && c !in b
    ensures Split(a + [c] + b, c) == [a, b]
  {
    CutAt(a, c, b);
    assert (a + [c] + b)[|a|] == c;
    assert Split(b, c) == [b];
  }

  /** Two parts come of a text with the separator in it once. */
  lemma SplitsInTwoIff(text: string, c: char)
    ensures |Split(text, c)| == 2 <==> exists a, b :: IsPair(text, a, c, b)
  {
    hide Split, Cut;
    SplitOnce(text, c);
    SplitOnce(Cut(text, c).1, c);
    SplitOnce(Cut(Cut(text, c).1, c).1, c);
    if a, b :| IsPair(text, a, c, b) {
      SplitPair(a, b, c);
    }
    if |Split(text, c)| == 2 {
      assert IsPair(text, Cut(text, c).0, c, Cut(text, c).1);
    }
  }

  lemma SplitOnce(text: string, c: char)
    ensures Split(text, c) == if c in text then [Cut(text, c).0] + Split(Cut(text, c).1, c) else [text]
  {
  }

  predicate IsPair(text: string, a: string, c: char, b: string) {
    text == a + [c] + b && c !in a && c !in b
  }

  /** Which texts are addresses: eight hexadecimal digits, or thirty-two for IPv6, a colon, and a hexadecimal port
      that fits 16 bits. */
  lemma AddressIff(value: string, ipv6: bool)
    ensures AddrPortOf(value, ipv6).Some?
      <==> exists a, b :: IsPair(value, a, ':', b) && |a| == (if ipv6 then 32 else 8) && IsHex(a)
             && b != "" && IsHex(b) && 0 <= Value(b, 16) < 0x1_0000
  {
    SplitsInTwoIff(value, ':');
    hide IsHex, Value, WordsSwapped, Reversed4, HexByte;
    if a, b :| IsPair(value, a, ':', b) {
      SplitPair(a, b, ':');
      assert Split(value, ':') == [a, b];
      forall x, y | IsPair(value, x, ':', y) ensures x == a && y == b {
        SplitPair(x, y, ':');
      }
    }
  }

  lemma PortInverse(port: u16)
    ensures ParseHex16(Hex(port, 4)) == Some(port) && ':' !in Hex(port, 4)
  {
    assert Power16(4) == 0x1_0000 by {
      assert Power16(3) == 0x1000;
    }
    assert ':' !in DIGITS;
    hide Hex, Value, DigitOf, IsHex, Power16;
    HexInverse(port, 4);
  }

  lemma AddrPortInverse(raw: seq<byte>, port: u16, ipv6: bool)
    requires |raw| == if ipv6 then 16 else 4
    ensures AddrPortOf(BytesText(raw) + [':'] + Hex(port, 4), ipv6) == Some(AddrPort(AddrOf(raw, ipv6).value, port))
  {
    hide DecodeHex, ParseHex16, Hex, BytesText, Split, WordsSwapped, Reversed4;
    DecodeBytesText(raw);
    DecodeInverse(raw);
    PortInverse(port);
    SplitPair(BytesText(raw), Hex(port, 4), ':');
  }

  /** Every IPv4 address and port comes back from the kernel's text. */
  lemma IPv4TextRoundTrip(a: Octets4, port: u16)
    ensures AddrPortOf(KernelIPv4(a, port), false) == Some(AddrPort(V4(a), port))
  {
    hide BytesText, Hex, AddrPortOf;
    KernelWordIsReversed(a);
    AddrPortInverse(Reversed4(a), port, false);
    assert Reversed4(Reversed4(a)) == a;
  }

  /** So does every IPv6 address, an IPv4-mapped one as the IPv4 address it carries. */
  lemma IPv6TextRoundTrip(a: Octets16, port: u16)
    ensures AddrPortOf(KernelIPv6(a, port), true) == Some(AddrPort(V6(a).Unmap(), port))
  {
    KernelIPv6IsSwapped(a);
    hide *;
    AddrPortInverse(WordsSwapped(a), port, true);
    SwapIsInvolution(a);
    assert AddrOf(WordsSwapped(a), true) == Some(V6(a).Unmap()) by {
      AddrOfSwapped(a);
    }
    KernelIPv6Is(a, port);
  }

  lemma AddrOfSwapped(a: Octets16)
    ensures AddrOf(WordsSwapped(a), true) == Some(V6(a).Unmap())
  {
    SwapIsInvolution(a);
    hide WordsSwapped;
  }

  function KernelWords(a: Octets16): string {
    KernelWord(a[..4]) + KernelWord(a[4..8]) + KernelWord(a[8..12]) + KernelWord(a[12..])
  }

  lemma KernelIPv6Is(a: Octets16, port: u16)
    ensures KernelIPv6(a, port) == KernelWords(a) + [':'] + Hex(port, 4)
  {
  }

  lemma KernelIPv6IsSwapped(a: Octets16)
    ensures KernelWords(a) == BytesText(WordsSwapped(a))
  {
    hide BytesText, KernelWord, Reversed4;
    KernelWordIsReversed(a[..4]);
    KernelWordIsReversed(a[4..8]);
    KernelWordIsReversed(a[8..12]);
    KernelWordIsReversed(a[12..]);
    var x: seq<byte>, y: seq<byte> := Reversed4(a[..4]), Reversed4(a[4..8]);
    var z: seq<byte>, w: seq<byte> := Reversed4(a[8..12]), Reversed4(a[12..]);
    BytesTextConcat(x, y);
    BytesTextConcat(x + y, z);
    BytesTextConcat(x + y + z, w);
  }

  // ----- Words between white space -----

  predicate IsBlank(text: string) {
    forall i :: 0 <= i < |text| ==> IsSpace(text[i])
  }

  predicate IsWord(text: string) {
    text != "" && forall i :: 0 <= i < |text| ==> !IsSpace(text[i])
  }

  /** Every gap but the first separates two words. */
  predicate Separates(gaps: seq<string>, words: seq<string>) {
    && |gaps| == |words|
    && (forall i :: 0 <= i < |words| ==> IsBlank(gaps[i]) && IsWord(words[i]))
    && forall i :: 0 < i < |gaps| ==> gaps[i] != ""
  }

  function Spaced(gaps: seq<string>, words: seq<string>): string
    requires |gaps| == |words|
  {
    if words == [] then "" else gaps[0] + words[0] + Spaced(gaps[1..], words[1..])
  }

  lemma {:induction false} WordThenSpace(word: string, rest: string)
    requires IsWord(word) && (rest == "" || IsSpace(rest[0]))
    ensures Word(word + rest) == (word, rest)
  {
    var text := word + rest;
    assert text[0] == word[0] && text[1..] == word[1..] + rest;
    if |word| == 1 {
      assert text[1..] == rest && word == [word[0]];
    } else {
      WordThenSpace(word[1..], rest);
      assert [word[0]] + word[1..] == word;
    }
  }

  lemma {:induction false} BlankIsSkipped(gap: string, rest: string)
    requires IsBlank(gap)
    ensures Fields(gap + rest) == Fields(rest)
  {
    if gap == "" {
      assert gap + rest == rest;
    } else {
      assert (gap + rest)[0] == gap[0] && (gap + rest)[1..] == gap[1..] + rest;
      BlankIsSkipped(gap[1..], rest);
    }
  }

  /** Whatever the spacing, the words are the fields. */
  lemma {:induction false} FieldsOfSpaced(gaps: seq<string>, words: seq<string>, tail: string)
    requires Separates(gaps, words) && IsBlank(tail)
    ensures Fields(Spaced(gaps, words) + tail) == words
  {
    if words == [] {
      assert "" + tail == tail + "";
      BlankIsSkipped(tail, "");
    } else {
      var rest := Spaced(gaps[1..], words[1..]) + tail;
      assert Separates(gaps[1..], words[1..]);
      FieldsOfSpaced(gaps[1..], words[1..], tail);
      SpacedFirst(gaps, words, tail);
      RestStartsWithSpace(gaps, words, tail);
      hide *;
      FieldsAfterGap(gaps[0], words[0], rest);
      assert words == [words[0]] + words[1..];
    }
  }

  lemma SpacedFirst(gaps: seq<string>, words: seq<string>, tail: string)
    requires |gaps| == |words| > 0
    ensures Spaced(gaps, words) + tail == gaps[0] + (words[0] + (Spaced(gaps[1..], words[1..]) + tail))
  {
  }

  lemma FieldsAfterGap(gap: string, word: string, rest: string)
    requires IsBlank(gap) && IsWord(word) && (rest == "" || IsSpace(rest[0]))
    ensures Fields(gap + (word + rest)) == [word] + Fields(rest)
  {
    BlankIsSkipped(gap, word + rest);
    WordThenSpace(word, rest);
    assert (word + rest)[0] == word[0];
  }

  lemma RestStartsWithSpace(gaps: seq<string>, words: seq<string>, tail: string)
    requires Separates(gaps, words) && IsBlank(tail) && words != []
    ensures var rest := Spaced(gaps[1..], words[1..]) + tail; rest == "" || IsSpace(rest[0])
  {
  }

  // ----- Socket tables -----

  lemma ParseDecimalIff(n: nat)
    ensures ParseDecimal64(Decimal(n)) == if n < TWO_TO_THE_64 then Some(n) else None
  {
    DecimalInverse(n);
  }

  /** How the kernel writes an address in the table of its family. */
  function KernelAddr(a: AddrPort, ipv6: bool): string
    requires if ipv6 then a.addr.V6? else a.addr.V4?
  {
    if ipv6 then KernelIPv6(a.addr.o16, a.port) else KernelIPv4(a.addr.o4, a.port)
  }

  function Unmapped(a: AddrPort): AddrPort {
    AddrPort(a.addr.Unmap(), a.port)
  }

  lemma KernelAddrRoundTrip(a: AddrPort, ipv6: bool)
    requires if ipv6 then a.addr.V6? else a.addr.V4?
    ensures AddrPortOf(KernelAddr(a, ipv6), ipv6) == Some(Unmapped(a))
  {
    hide AddrPortOf, KernelIPv4, KernelIPv6;
    if ipv6 {
      IPv6TextRoundTrip(a.addr.o16, a.port);
    } else {
      IPv4TextRoundTrip(a.addr.o4, a.port);
    }
  }

  /** A line of a socket table: at least ten columns, the second and third the addresses, the tenth the inode;
      the others may hold anything. */
  ghost predicate IsRow(line: string, socket: SocketEntry, ipv6: bool) {
    && (if ipv6 then socket.flow.local.addr.V6? && socket.flow.remote.addr.V6?
        else socket.flow.local.addr.V4? && socket.flow.remote.addr.V4?)
    && socket.inode < TWO_TO_THE_64
    && exists gaps, words, tail ::
      && Separates(gaps, words) && IsBlank(tail) && line == Spaced(gaps, words) + tail && |words| >= 10
      && words[1] == KernelAddr(socket.flow.local, ipv6) && words[2] == KernelAddr(socket.flow.remote, ipv6)
      && words[9] == Decimal(socket.inode)
  }

  /** What the reader makes of a socket: none without an inode. */
  function Listed(socket: SocketEntry, protocol: byte): Option<SocketEntry> {
    if socket.inode == 0 then None
    else Some(SocketEntry(FlowKey(protocol, Unmapped(socket.flow.local), Unmapped(socket.flow.remote)), socket.inode))
  }

  function AllListed(sockets: seq<SocketEntry>, protocol: byte): seq<SocketEntry> {
    if sockets == [] then []
    else
      var n := |sockets| - 1;
      var entry := Listed(sockets[n], protocol);
      AllListed(sockets[..n], protocol) + if entry.Some? then [entry.value] else []
  }

  /** Which lines list a socket: those with ten columns, two addresses, and a decimal inode that is not zero. */
  lemma EntryIff(line: string, protocol: byte, ipv6: bool)
    ensures var f := Fields(line);
            EntryOf(line, protocol, ipv6).Some?
            <==> && |f| >= 10 && AddrPortOf(f[1], ipv6).Some? && AddrPortOf(f[2], ipv6).Some?
                 && IsDecimal(f[9]) && 0 < Value(f[9], 10) < 0x1_0000_0000_0000_0000
  {
    hide Fields, AddrPortOf, Value;
  }

  lemma RowRoundTrip(line: string, socket: SocketEntry, protocol: byte, ipv6: bool)
    requires IsRow(line, socket, ipv6)
    ensures EntryOf(line, protocol, ipv6) == Listed(socket, protocol)
  {
    hide IsBlank, IsWord, Spaced, Decimal, KernelAddr, AddrPortOf, ParseDecimal64, Fields, Unmapped;
    var gaps, words, tail :|
      && Separates(gaps, words) && IsBlank(tail) && line == Spaced(gaps, words) + tail && |words| >= 10
      && words[1] == KernelAddr(socket.flow.local, ipv6) && words[2] == KernelAddr(socket.flow.remote, ipv6)
      && words[9] == Decimal(socket.inode);
    FieldsOfSpaced(gaps, words, tail);
    KernelAddrRoundTrip(socket.flow.local, ipv6);
    KernelAddrRoundTrip(socket.flow.remote, ipv6);
    ParseDecimalIff(socket.inode);
  }

  /** A whole table, whatever its spacing and its other columns: the sockets with an inode, in order. */
  lemma {:induction false} TableRoundTrip(lines: seq<string>, sockets: seq<SocketEntry>, protocol: byte, ipv6: bool)
    requires |lines| == |sockets| && forall i :: 0 <= i < |lines| ==> IsRow(lines[i], sockets[i], ipv6)
    ensures EntriesOf(lines, protocol, ipv6) == AllListed(sockets, protocol)
  {
    hide IsRow, EntryOf, Listed;
    if lines != [] {
      var n := |lines| - 1;
      TableRoundTrip(lines[..n], sockets[..n], protocol, ipv6);
      RowRoundTrip(lines[n], sockets[n], protocol, ipv6);
    }
  }

  // ----- Start times -----

  lemma {:induction false} LastIndexAt(a: string, c: char, b: string)
    requires c !in b
    ensures LastIndex(a + [c] + b, c) == |a|
    decreases |b|
  {
    var text := a + [c] + b;
    if b != "" {
      var n := |b| - 1;
      assert text[|text| - 1] == b[n] && b[n] in b;
      assert text[..|text| - 1] == a + [c] + b[..n];
      LastIndexAt(a, c, b[..n]);
    }
  }

  lemma StatTail(pid: string, command: string, rest: string)
    requires ')' !in rest && rest != ""
    ensures var stat := pid + " (" + command + ") " + rest;
            var end := LastIndex(stat, ')');
            0 <= end && end + 2 < |stat| && stat[end + 2..] == rest
  {
    hide LastIndex;
    var head := pid + " (" + command;
    var stat := pid + " (" + command + ") " + rest;
    assert stat == head + [')'] + ([' '] + rest);
    LastIndexAt(head, ')', [' '] + rest);
    assert stat[|head| + 2..] == rest;
  }

  lemma SomethingIsSpaced(gaps: seq<string>, words: seq<string>, tail: string)
    requires Separates(gaps, words) && words != []
    ensures Spaced(gaps, words) + tail != ""
  {
    assert words[0] != "";
  }

  lemma StartTimeOf(stat: string, fields: seq<string>)
    requires var end := LastIndex(stat, ')');
             0 <= end && end + 2 < |stat| && Fields(stat[end + 2..]) == fields
    requires |fields| > 19
    ensures StartTime(stat) == ParseDecimal64(fields[19])
  {
    hide LastIndex, Fields, ParseDecimal64;
  }

  /** Field 22 is found whatever the command is called, parentheses and spaces included. */
  lemma StartTimeRoundTrip(pid: string, command: string, gaps: seq<string>, words: seq<string>, tail: string, start: nat)
    requires Separates(gaps, words) && IsBlank(tail) && ')' !in Spaced(gaps, words) + tail
    requires |words| > 19 && words[19] == Decimal(start) && start < TWO_TO_THE_64
    ensures StartTime(pid + " (" + command + ") " + (Spaced(gaps, words) + tail)) == Some(start)
  {
    assert |gaps| == |words|;
    hide *;
    var rest := Spaced(gaps, words) + tail;
    SomethingIsSpaced(gaps, words, tail);
    StatTail(pid, command, rest);
    FieldsOfSpaced(gaps, words, tail);
    StartTimeOf(pid + " (" + command + ") " + rest, words);
    ParseDecimalIff(start);
  }
}
