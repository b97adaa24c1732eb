/** Tab-separated lines as the Go printer writes them and as `IFS=$'\t' read -r` takes them apart: adjacent
    tabs count as one, tabs at the ends are dropped, the last variable takes what is left, and NUL characters,
    which no shell variable can hold, disappear. */
module TabFields {

  const TAB: char := '\t'
  const NEWLINE: char := '\n'
  const RETURN: char := '\r'
  const NUL: char := '\0'

  // ----- Printing -----

  function Join(fields: seq<string>): string {
    if fields == [] then ""
    else if |fields| == 1 then fields[0]
    else fields[0] + [TAB] + Join(fields[1..])
  }

  function Line(fields: seq<string>): string {
    Join(fields) + [NEWLINE]
  }

  function Text(lines: seq<seq<string>>): string {
    if lines == [] then "" else Line(lines[0]) + Text(lines[1..])
  }

  lemma {:induction false} TextSnoc(lines: seq<seq<string>>, line: seq<string>)
    ensures Text(lines + [line]) == Text(lines) + Line(line)
  {
    if lines == [] {
      assert Text([line][1..]) == "";
    } else {
      TextSnoc(lines[1..], line);
      assert (lines + [line])[1..] == lines[1..] + [line];
    }
  }

  // ----- Reading -----

  /** The lines of a text that end in a newline; a rest without one is not read. */
  function LinesOf(text: string): seq<string>
    decreases |text|
  {
    if NEWLINE !in text then []
    else
      var (line, rest) := Cut(text, NEWLINE);
      [line] + LinesOf(rest)
  }

  /** The text before and after the first `c`. */
  function Cut(text: string, c: char): (r: (string, string))
    ensures c in text ==> |r.1| < |text| && text == r.0 + [c] + r.1
    ensures c !in text ==> r == (text, "")
    ensures c !in r.0
  {
    if text == "" then ("", "")
    else if text[0] == c then ("", text[1..])
    else
      var (word, rest) := Cut(text[1..], c);
      assert text == [text[0]] + text[1..];
      ([text[0]] + word, rest)
  }

  function DropNul(text: string): string {
    if text == "" then "" else (if text[0] == NUL then "" else [text[0]]) + DropNul(text[1..])
  }

  function SkipTabs(text: string): (r: string)
    ensures |r| <= |text|
    ensures r != "" ==> r[0] != TAB
  {
    if text != "" && text[0] == TAB then SkipTabs(text[1..]) else text
  }

  function TrimTabs(text: string): string {
    if text != "" && text[|text| - 1] == TAB then TrimTabs(text[..|text| - 1]) else text
  }

  /** The values of `n` variables after reading one line. */
  function ReadVars(line: string, n: nat): (r: seq<string>)
    ensures |r| == n
    decreases n
  {
    if n == 0 then []
    else if n == 1 then [TrimTabs(SkipTabs(line))]
    else
      var (word, rest) := Cut(SkipTabs(line), TAB);
      [word] + ReadVars(rest, n - 1)
  }

  // ----- Reading what was printed -----

  predicate Plain(field: string) {
    TAB !in field && NEWLINE !in field
  }

  predicate PlainLine(fields: seq<string>) {
    forall i :: 0 <= i < |fields| ==> Plain(fields[i])
  }

  lemma {:induction false} CutAt(a: string, c: char, b: string)
    requires c !in a
    ensures Cut(a + [c] + b, c) == (a, b)
  {
    var text := a + [c] + b;
    if a == "" {
      assert text[1..] == b;
    } else {
      assert text[0] == a[0] && a[0] in a;
      assert text[1..] == a[1..] + [c] + b;
      CutAt(a[1..], c, b);
      assert [a[0]] + a[1..] == a;
    }
  }

  lemma {:induction false} JoinHasNoNewline(fields: seq<string>)
    requires PlainLine(fields)
    ensures NEWLINE !in Join(fields)
  {
    if |fields| > 1 {
      JoinHasNoNewline(fields[1..]);
    }
  }

  lemma FirstLineOf(head: string, rest: string)
    requires NEWLINE !in head
    ensures LinesOf(head + [NEWLINE] + rest) == [head] + LinesOf(rest)
  {
    hide Cut;
    CutAt(head, NEWLINE, rest);
    assert (head + [NEWLINE] + rest)[|head|] == NEWLINE;
  }

  lemma TextOfFirst(lines: seq<seq<string>>)
    requires lines != []
    ensures Text(lines) == Join(lines[0]) + [NEWLINE] + Text(lines[1..])
  {
    hide Join;
  }

  /** Exactly the printed lines come back. */
  lemma {:induction false} LinesOfText(lines: seq<seq<string>>)
    requires forall i :: 0 <= i < |lines| ==> PlainLine(lines[i])
    ensures |LinesOf(Text(lines))| == |lines|
    ensures forall i :: 0 <= i < |lines| ==> LinesOf(Text(lines))[i] == Join(lines[i])
  {
    if lines == [] {
      assert LinesOf("") == [];
    } else {
      hide Join, LinesOf, Text, PlainLine;
      JoinHasNoNewline(lines[0]);
      TextOfFirst(lines);
      FirstLineOf(Join(lines[0]), Text(lines[1..]));
      LinesOfText(lines[1..]);
    }
  }

  /** The fields that are not empty, moved to the front. */
  function Packed(fields: seq<string>): (r: seq<string>)
    ensures |r| <= |fields|
  {
    if fields == [] then []
    else if fields[0] == "" then Packed(fields[1..])
    else [fields[0]] + Packed(fields[1..])
  }

  function Blank(n: nat): seq<string> {
    if n == 0 then [] else [""] + Blank(n - 1)
  }

  lemma {:induction false} ReadNothing(n: nat)
    ensures ReadVars("", n) == Blank(n)
  {
    if n > 1 {
      ReadNothing(n - 1);
    }
  }

  lemma {:induction false} TrimPlain(field: string)
    requires TAB !in field
    ensures TrimTabs(field) == field
  {
  }

  lemma {:induction false} JoinOfBlanks(fields: seq<string>)
    requires Packed(fields) == []
    ensures SkipTabs(Join(fields)) == ""
  {
    if |fields| > 1 {
      assert fields[0] == "";
      assert Join(fields)[1..] == Join(fields[1..]);
      JoinOfBlanks(fields[1..]);
    }
  }

  lemma {:induction false} TrimTail(word: string, fields: seq<string>)
    requires word != "" && TAB !in word && Packed(fields) == []
    ensures TrimTabs(word + [TAB] + Join(fields)) == word
    decreases |fields|
  {
    var text := word + [TAB] + Join(fields);
    if |fields| <= 1 {
      assert text[..|text| - 1] == word;
      TrimPlain(word);
    } else {
      BlanksEndInTab(fields);
      var shorter := fields[1..];
      assert text[..|text| - 1] == word + [TAB] + Join(shorter);
      TrimTail(word, shorter);
    }
  }

  lemma {:induction false} BlanksEndInTab(fields: seq<string>)
    requires |fields| > 1 && Packed(fields) == []
    ensures Join(fields) == Join(fields[1..]) + [TAB]
  {
    assert fields[0] == "";
    if |fields| > 2 {
      BlanksEndInTab(fields[1..]);
      assert Join(fields) == [TAB] + Join(fields[1..]);
      assert Join(fields[1..]) == [TAB] + Join(fields[2..]);
    } else {
      assert Join(fields[1..]) == fields[1];
    }
  }

  /** One word, then the rest of the line. */
  lemma ReadWord(word: string, rest: string, n: nat)
    requires word != "" && TAB !in word && n > 1
    ensures ReadVars(word + [TAB] + rest, n) == [word] + ReadVars(rest, n - 1)
  {
    CutAt(word, TAB, rest);
    assert (word + [TAB] + rest)[0] == word[0] && word[0] in word;
  }

  lemma SkipEmptyField(fields: seq<string>, n: nat)
    requires |fields| > 1 && fields[0] == ""
    ensures ReadVars(Join(fields), n) == ReadVars(Join(fields[1..]), n)
  {
  }

  lemma ReadLastWord(word: string, fields: seq<string>)
    requires word != "" && TAB !in word && Packed(fields) == []
    ensures ReadVars(word + [TAB] + Join(fields), 1) == [word]
  {
    TrimTail(word, fields);
    assert (word + [TAB] + Join(fields))[0] == word[0] && word[0] in word;
  }

  /** Empty fields vanish and the others move up. */
  lemma {:induction false} ReadJoined(fields: seq<string>, n: nat)
    requires PlainLine(fields) && |Packed(fields)| <= n
    ensures ReadVars(Join(fields), n) == Packed(fields) + Blank(n - |Packed(fields)|)
    decreases |fields|
  {
    hide Join, SkipTabs;
    if n == 0 {
    } else if Packed(fields) == [] {
      hide ReadVars;
      JoinOfBlanks(fields);
      ReadBlankLine(Join(fields), n);
    } else if |fields| == 1 {
      hide ReadVars;
      ReadOneField(fields, n);
    } else if fields[0] == "" {
      hide ReadVars;
      SkipEmptyField(fields, n);
      ReadJoined(fields[1..], n);
    } else {
      hide ReadVars;
      ReadJoinedWord(fields, n);
    }
  }

  lemma ReadOneField(fields: seq<string>, n: nat)
    requires PlainLine(fields) && |fields| == 1 && fields[0] != "" && n > 0
    ensures ReadVars(Join(fields), n) == Packed(fields) + Blank(n - |Packed(fields)|)
  {
    hide ReadVars;
    assert fields == [fields[0]] && Packed(fields[1..]) == [];
    assert Packed(fields) == [fields[0]];
    ReadOneWord(fields[0], n);
  }

  lemma FirstOf(fields: seq<string>)
    requires PlainLine(fields) && |fields| > 1 && fields[0] != ""
    ensures Join(fields) == fields[0] + [TAB] + Join(fields[1..])
    ensures Packed(fields) == [fields[0]] + Packed(fields[1..])
    ensures PlainLine(fields[1..]) && TAB !in fields[0]
  {
  }

  lemma {:induction false} ReadJoinedWord(fields: seq<string>, n: nat)
    requires PlainLine(fields) && |Packed(fields)| <= n && n > 0 && |fields| > 1 && fields[0] != ""
    ensures ReadVars(Join(fields), n) == Packed(fields) + Blank(n - |Packed(fields)|)
    decreases |fields|, 0
  {
    hide *;
    var rest := fields[1..];
    FirstOf(fields);
    if n == 1 {
      assert Packed(rest) == [];
      ReadLastWord(fields[0], rest);
      BlankIsEmpty(0);
    } else {
      ReadWord(fields[0], Join(rest), n);
      ReadJoined(rest, n - 1);
      assert [fields[0]] + (Packed(rest) + Blank(n - 1 - |Packed(rest)|)) == ([fields[0]] + Packed(rest)) + Blank(n - 1 - |Packed(rest)|);
    }
  }

  lemma {:induction false} ReadBlankLine(line: string, n: nat)
    requires SkipTabs(line) == ""
    ensures ReadVars(line, n) == Blank(n)
  {
    if n > 1 {
      ReadNothing(n - 1);
    }
  }

  lemma {:induction false} ReadOneWord(word: string, n: nat)
    requires word != "" && TAB !in word && n > 0
    ensures ReadVars(word, n) == [word] + Blank(n - 1)
  {
    if n == 1 {
      TrimPlain(word);
    } else {
      ReadNothing(n - 1);
    }
  }

  function DropNuls(fields: seq<string>): (r: seq<string>)
    ensures |r| == |fields|
    ensures forall i :: 0 <= i < |fields| ==> r[i] == DropNul(fields[i])
  {
    if fields == [] then [] else [DropNul(fields[0])] + DropNuls(fields[1..])
  }

  lemma {:induction false} DropNulConcat(a: string, b: string)
    ensures DropNul(a + b) == DropNul(a) + DropNul(b)
  {
    if a == "" {
      assert a + b == b;
    } else {
      var head := if a[0] == NUL then "" else [a[0]];
      DropNulConcat(a[1..], b);
      assert DropNul(a + b) == head + DropNul(a[1..] + b) by {
        assert (a + b)[1..] == a[1..] + b && (a + b)[0] == a[0];
      }
      assert head + (DropNul(a[1..]) + DropNul(b)) == (head + DropNul(a[1..])) + DropNul(b);
    }
  }

  lemma {:induction false} DropNulPlain(field: string)
    ensures forall c :: c in DropNul(field) <==> c in field && c != NUL
  {
    if field != "" {
      DropNulPlain(field[1..]);
    }
  }

  lemma {:induction false} DropNulOfJoin(fields: seq<string>)
    requires PlainLine(fields)
    ensures DropNul(Join(fields)) == Join(DropNuls(fields))
    ensures PlainLine(DropNuls(fields))
  {
    if fields != [] {
      DropNulPlain(fields[0]);
      DropNulOfJoin(fields[1..]);
      if |fields| > 1 {
        DropNulConcat(fields[0] + [TAB], Join(fields[1..]));
        DropNulConcat(fields[0], [TAB]);
        assert DropNul([TAB]) == [TAB];
      }
    }
  }

  predicate NoneEmpty(fields: seq<string>) {
    forall i :: 0 <= i < |fields| ==> fields[i] != ""
  }

  /** No empty field stands before one that is not. */
  predicate EmptyOnlyAtEnd(fields: seq<string>) {
    forall i, j :: 0 <= i < j < |fields| && fields[i] == "" ==> fields[j] == ""
  }

  /** What is left after empty fields have moved to the end. */
  function Repacked(fields: seq<string>): seq<string> {
    Packed(fields) + Blank(|fields| - |Packed(fields)|)
  }

  lemma RepackedIs(fields: seq<string>)
    ensures Repacked(fields) == Packed(fields) + Blank(|fields| - |Packed(fields)|)
  {
  }

  lemma RepackedFirst(fields: seq<string>)
    requires fields != [] && fields[0] != ""
    ensures Repacked(fields) == [fields[0]] + Repacked(fields[1..])
  {
    var rest := fields[1..];
    assert Packed(fields) == [fields[0]] + Packed(rest);
    hide Packed, Blank;
    assert [fields[0]] + (Packed(rest) + Blank(|rest| - |Packed(rest)|)) == ([fields[0]] + Packed(rest)) + Blank(|rest| - |Packed(rest)|);
  }

  lemma EmptyOnlyAtEndOfRest(fields: seq<string>)
    requires fields != [] && fields[0] != ""
    ensures EmptyOnlyAtEnd(fields) <==> EmptyOnlyAtEnd(fields[1..])
  {
    var rest := fields[1..];
    forall i, j | 0 < i < j < |fields| && fields[i] == "" ensures EmptyOnlyAtEnd(rest) ==> fields[j] == "" {
      assert rest[i - 1] == fields[i] && rest[j - 1] == fields[j];
    }
  }

  lemma SameAfterFirst(a: seq<string>, b: seq<string>)
    requires a != [] && b != [] && a[0] == b[0]
    ensures a == b <==> a[1..] == b[1..]
  {
    assert a == [a[0]] + a[1..] && b == [b[0]] + b[1..];
  }

  lemma {:induction false} PackedSameIff(fields: seq<string>)
    ensures Repacked(fields) == fields <==> EmptyOnlyAtEnd(fields)
  {
    if fields != [] {
      hide Packed, Blank, EmptyOnlyAtEnd;
      PackedSameIff(fields[1..]);
      if fields[0] != "" {
        RepackedFirst(fields);
        hide Repacked;
        assert ([fields[0]] + Repacked(fields[1..]))[1..] == Repacked(fields[1..]);
        SameAfterFirst(Repacked(fields), fields);
        EmptyOnlyAtEndOfRest(fields);
      } else {
        hide Repacked;
        EmptyFirst(fields);
      }
    }
  }

  lemma {:induction false} EmptyFirst(fields: seq<string>)
    requires fields != [] && fields[0] == ""
    ensures Repacked(fields) == fields <==> EmptyOnlyAtEnd(fields)
  {
    PackedHasNoEmpty(fields);
    if Packed(fields) == [] {
      BlankIsEmpty(|fields|);
      AllEmpty(fields);
    } else {
      assert Packed(fields)[0] != "";
      SomeNotEmpty(fields);
    }
  }

  lemma {:induction false} PackedHasNoEmpty(fields: seq<string>)
    ensures NoneEmpty(Packed(fields))
    ensures NoneEmpty(fields) ==> Packed(fields) == fields
  {
    if fields != [] {
      PackedHasNoEmpty(fields[1..]);
    }
  }

  lemma {:induction false} BlankIsEmpty(n: nat)
    ensures |Blank(n)| == n && forall i :: 0 <= i < n ==> Blank(n)[i] == ""
  {
    if n > 0 {
      BlankIsEmpty(n - 1);
    }
  }

  lemma {:induction false} AllEmpty(fields: seq<string>)
    requires Packed(fields) == []
    ensures forall i :: 0 <= i < |fields| ==> fields[i] == ""
  {
    if fields != [] {
      AllEmpty(fields[1..]);
    }
  }

  lemma {:induction false} SomeNotEmpty(fields: seq<string>)
    requires Packed(fields) != []
    ensures exists i :: 0 <= i < |fields| && fields[i] != ""
  {
    if fields[0] == "" {
      SomeNotEmpty(fields[1..]);
      var i :| 0 <= i < |fields[1..]| && fields[1..][i] != "";
      assert fields[i + 1] != "";
    }
  }

  /** Reading a printed line into as many variables as it has fields returns the fields, without their NULs,
      iff no field that is empty without its NULs stands before one that is not. */
  lemma LineRoundTripIff(fields: seq<string>)
    requires PlainLine(fields)
    ensures ReadVars(DropNul(Join(fields)), |fields|) == DropNuls(fields) <==> EmptyOnlyAtEnd(DropNuls(fields))
  {
    hide *;
    var left := DropNuls(fields);
    DropNulOfJoin(fields);
    PackedSameIff(left);
    ReadJoined(left, |left|);
    RepackedIs(left);
  }
}
