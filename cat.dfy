/** The text `run` writes to standard output for one file that opened and
    read successfully: its lines, each optionally preceded by a line number
    and a tab, separated by newlines, with no newline after the last line. */
module Cat {
  import opened NumberFormat
  import opened Lines

  /** The two numbering options: `-n` (`--number`) and `-b`
      (`--number-nonblock`). Both may be set at once. */
  datatype Flags = Flags(numberLines: bool, numberNonblockLines: bool)

  /** How many lines of `s` are empty. */
  function EmptyCount(s: seq<string>): (c: nat)
    ensures c <= |s|
  {
    if s == [] then 0 else EmptyCount(s[..|s| - 1]) + (if s[|s| - 1] == "" then 1 else 0)
  }

  /** How many lines of `s` are not empty. */
  function NonblankCount(s: seq<string>): nat {
    if s == [] then 0 else (if s[0] != "" then 1 else 0) + NonblankCount(s[1..])
  }

  lemma {:induction false} EmptyCountAppend(a: seq<string>, b: seq<string>)
    ensures EmptyCount(a + b) == EmptyCount(a) + EmptyCount(b)
    decreases |b|
  {
    if b != [] {
      assert (a + b)[..|a + b| - 1] == a + b[..|b| - 1];
      EmptyCountAppend(a, b[..|b| - 1]);
    } else {
      assert a + b == a;
    }
  }

  /** Every line is either empty or not. */
  lemma {:induction false} CountsPartition(s: seq<string>)
    ensures EmptyCount(s) + NonblankCount(s) == |s|
  {
    if s != [] {
      assert s == [s[0]] + s[1..];
      EmptyCountAppend([s[0]], s[1..]);
      assert EmptyCount([s[0]]) == if s[0] == "" then 1 else 0;
      CountsPartition(s[1..]);
    }
  }

  /** The number printed for the line at 0-based index `i`:
      `i + 1 - empty_line_count`, where the counter has seen the empty lines
      before `i` under `-b` and stays 0 otherwise. The `usize` subtraction
      cannot underflow: the number is at least 1. */
  function LineNumber(lines: seq<string>, i: nat, flags: Flags): (n: nat)
    requires i < |lines|
    ensures 1 <= n <= i + 1
  {
    i + 1 - (if flags.numberNonblockLines then EmptyCount(lines[..i]) else 0)
  }

  /** The code's formula and the count of non-empty lines agree: under `-b`
      the number is one more than the non-empty lines before `i`, wherever
      the empty lines fall, and without `-b` it is `i + 1`. */
  lemma LineNumberCountsNonblank(lines: seq<string>, i: nat, flags: Flags)
    requires i < |lines|
    ensures flags.numberNonblockLines ==> LineNumber(lines, i, flags) == NonblankCount(lines[..i]) + 1
    ensures !flags.numberNonblockLines ==> LineNumber(lines, i, flags) == i + 1
  {
    CountsPartition(lines[..i]);
  }

  /** What is printed before the line at index `i`: nothing for an empty line
      under `-b`, the padded number and a tab when a numbering flag is set,
      and nothing otherwise. */
  function Label(lines: seq<string>, i: nat, flags: Flags): string
    requires i < |lines|
  {
    if lines[i] == "" && flags.numberNonblockLines then ""
    else if flags.numberLines || flags.numberNonblockLines then Pad6(LineNumber(lines, i, flags)) + "\t"
    else ""
  }

  /** The line at index `i` as printed, with its label and without the
      newline. */
  function Printed(lines: seq<string>, i: nat, flags: Flags): string
    requires i < |lines|
  {
    Label(lines, i, flags) + lines[i]
  }

  /** Each line as printed, with its label and without the newline. */
  function Rendered(lines: seq<string>, flags: Flags): (r: seq<string>)
    ensures |r| == |lines|
  {
    seq(|lines|, i requires 0 <= i < |lines| => Printed(lines, i, flags))
  }

  /** The whole text written for a file with these lines: the printed lines
      with a newline between each two and none after the last. */
  function FileText(lines: seq<string>, flags: Flags): string {
    Join(Rendered(lines, flags))
  }

  /** The loop of `run` over the lines of one file, writing to `out` what it
      prints, with the counter of empty lines it keeps. */
  method CatFile(lines: seq<string>, flags: Flags) returns (out: string)
    ensures out == FileText(lines, flags)
  {
    out := "";
    var emptyLineCount: nat := 0;
    var i: nat := 0;
    while i < |lines|
      invariant i <= |lines|
      invariant emptyLineCount == if flags.numberNonblockLines then EmptyCount(lines[..i]) else 0
      invariant out == JoinedPrefix(Rendered(lines, flags), i)
    {
      emptyLineCount, out := CatLine(lines, i, flags, emptyLineCount, out);
      i := i + 1;
    }
    JoinedPrefixAll(Rendered(lines, flags));
  }

  /** One pass of the loop over the lines: the line at index `i`, after its
      number when one is due and before the newline unless it is the last
      line, is added to what was written, and the counter of empty lines
      moves on. */
  method CatLine(lines: seq<string>, i: nat, flags: Flags, emptyLineCount: nat, written: string)
    returns (count: nat, out: string)
    requires i < |lines|
    requires emptyLineCount == if flags.numberNonblockLines then EmptyCount(lines[..i]) else 0
    requires written == JoinedPrefix(Rendered(lines, flags), i)
    ensures count == if flags.numberNonblockLines then EmptyCount(lines[..i + 1]) else 0
    ensures out == JoinedPrefix(Rendered(lines, flags), i + 1)
  {
    var line := lines[i];
    count, out := emptyLineCount, written;
    CounterStep(lines, i, flags, emptyLineCount);
    if line == "" && flags.numberNonblockLines {
      count := count + 1;
    } else if flags.numberLines || flags.numberNonblockLines {
      out := out + (Pad6(i + 1 - count) + "\t");
    }
    assert out == written + Label(lines, i, flags) by {
      LabelStep(lines, i, flags, emptyLineCount);
    }
    out := out + line;
    if i != |lines| - 1 {
      out := out + "\n";
    }
    assert out == JoinedPrefix(Rendered(lines, flags), i + 1) by {
      assert Rendered(lines, flags)[i] == Label(lines, i, flags) + line;
      Assoc(written, Label(lines, i, flags), line);
      JoinedPrefixStep(Rendered(lines, flags), i);
    }
  }

  /** One pass of the loop over the lines moves the counter of empty lines
      on over line `i`; it never exceeds the lines seen. */
  lemma CounterStep(lines: seq<string>, i: nat, flags: Flags, count: nat)
    requires i < |lines|
    requires count == if flags.numberNonblockLines then EmptyCount(lines[..i]) else 0
    ensures count <= i
    ensures (if flags.numberNonblockLines then EmptyCount(lines[..i + 1]) else 0) ==
      count + if lines[i] == "" && flags.numberNonblockLines then 1 else 0
  {
    assert lines[..i + 1][..i] == lines[..i];
  }

  /** What one pass of the loop prints before the line at index `i`, given
      the counter it has kept so far, is that line's label. */
  lemma LabelStep(lines: seq<string>, i: nat, flags: Flags, count: nat)
    requires i < |lines|
    requires count == if flags.numberNonblockLines then EmptyCount(lines[..i]) else 0
    ensures count <= i
    ensures Label(lines, i, flags) ==
      if lines[i] == "" && flags.numberNonblockLines then ""
      else if flags.numberLines || flags.numberNonblockLines then Pad6(i + 1 - count) + "\t"
      else ""
  {
  }

  /** With neither flag a file is printed as its lines joined by newlines. */
  lemma PlainIsJoin(lines: seq<string>)
    ensures FileText(lines, Flags(false, false)) == Join(lines)
  {
    var r := Rendered(lines, Flags(false, false));
    forall i | 0 <= i < |lines| ensures r[i] == lines[i] {
      assert r[i] == Printed(lines, i, Flags(false, false));
    }
    assert r == lines;
  }

  /** Reference numbering for `-n`: every line, counting from `j`. */
  function NumberAll(ls: seq<string>, j: nat): seq<string> {
    if ls == [] then [] else [Pad6(j) + "\t" + ls[0]] + NumberAll(ls[1..], j + 1)
  }

  /** Reference numbering for `-b`: empty lines pass through unnumbered and
      the non-empty ones are counted from `j`. */
  function NumberNonblank(ls: seq<string>, j: nat): seq<string> {
    if ls == [] then []
    else if ls[0] == "" then [""] + NumberNonblank(ls[1..], j)
    else [Pad6(j) + "\t" + ls[0]] + NumberNonblank(ls[1..], j + 1)
  }

  lemma {:induction false} NumberAllAt(ls: seq<string>, j: nat, i: nat)
    requires i < |ls|
    ensures |NumberAll(ls, j)| == |ls|
    ensures NumberAll(ls, j)[i] == Pad6(j + i) + "\t" + ls[i]
  {
    if i > 0 {
      NumberAllAt(ls[1..], j + 1, i - 1);
    } else if |ls| > 1 {
      NumberAllAt(ls[1..], j + 1, 0);
    }
  }

  lemma {:induction false} NumberNonblankAt(ls: seq<string>, j: nat, i: nat)
    requires i < |ls|
    ensures |NumberNonblank(ls, j)| == |ls|
    ensures NumberNonblank(ls, j)[i] ==
      if ls[i] == "" then "" else Pad6(j + NonblankCount(ls[..i])) + "\t" + ls[i]
  {
    var k := if ls[0] == "" then j else j + 1;
    if i > 0 {
      NumberNonblankAt(ls[1..], k, i - 1);
      assert ls[..i] == [ls[0]] + ls[1..][..i - 1];
    } else if |ls| > 1 {
      NumberNonblankAt(ls[1..], k, 0);
    }
  }

  /** Under `-n` alone the line at index `i` is printed after `Pad6(i + 1)`
      and a tab. */
  lemma NumberLinesAt(lines: seq<string>, i: nat)
    requires i < |lines|
    ensures Rendered(lines, Flags(true, false))[i] == Pad6(i + 1) + "\t" + lines[i]
  {
    assert Rendered(lines, Flags(true, false))[i] == Printed(lines, i, Flags(true, false));
  }

  /** `-n` alone numbers every line from 1. */
  lemma NumberLinesIsNumberAll(lines: seq<string>)
    ensures FileText(lines, Flags(true, false)) == Join(NumberAll(lines, 1))
  {
    var r := Rendered(lines, Flags(true, false));
    forall i | 0 <= i < |lines| ensures |NumberAll(lines, 1)| == |lines| && r[i] == NumberAll(lines, 1)[i] {
      NumberAllAt(lines, 1, i);
      assert r[i] == Printed(lines, i, Flags(true, false));
    }
    if lines != [] {
      NumberAllAt(lines, 1, 0);
    } else {
      assert NumberAll(lines, 1) == [];
    }
    assert r == NumberAll(lines, 1);
  }

  /** Under `-b`, with or without `-n`, an empty line is printed bare and a
      non-empty line after the number of non-empty lines before it plus one,
      padded, and a tab. */
  lemma NonblockAt(lines: seq<string>, i: nat, numberLines: bool)
    requires i < |lines|
    ensures lines[i] == "" ==> Rendered(lines, Flags(numberLines, true))[i] == ""
    ensures lines[i] != "" ==>
      Rendered(lines, Flags(numberLines, true))[i] == Pad6(NonblankCount(lines[..i]) + 1) + "\t" + lines[i]
  {
    assert Rendered(lines, Flags(numberLines, true))[i] == Printed(lines, i, Flags(numberLines, true));
    LineNumberCountsNonblank(lines, i, Flags(numberLines, true));
  }

  /** Under `-b` a non-empty line shows how many non-empty lines there are
      up to and including it: the j-th non-empty line shows j. */
  lemma NonblockNumberIsRank(lines: seq<string>, i: nat, numberLines: bool)
    requires i < |lines| && lines[i] != ""
    ensures Rendered(lines, Flags(numberLines, true))[i] == Pad6(NonblankCount(lines[..i + 1])) + "\t" + lines[i]
  {
    NonblockAt(lines, i, numberLines);
    assert lines[..i + 1] == lines[..i] + [lines[i]];
    NonblankCountSnoc(lines[..i], lines[i]);
  }

  lemma {:induction false} NonblankCountSnoc(s: seq<string>, x: string)
    ensures NonblankCount(s + [x]) == NonblankCount(s) + (if x != "" then 1 else 0)
  {
    if s != [] {
      assert (s + [x])[1..] == s[1..] + [x];
      NonblankCountSnoc(s[1..], x);
    } else {
      assert s + [x] == [x];
    }
  }

  /** `-b`, with or without `-n`, prints what the reference numbering of
      non-empty lines gives. */
  lemma NumberNonblockIsNumberNonblank(lines: seq<string>, numberLines: bool)
    ensures FileText(lines, Flags(numberLines, true)) == Join(NumberNonblank(lines, 1))
  {
    var r := Rendered(lines, Flags(numberLines, true));
    forall i | 0 <= i < |lines| ensures |NumberNonblank(lines, 1)| == |lines| && r[i] == NumberNonblank(lines, 1)[i] {
      NumberNonblankAt(lines, 1, i);
      NonblockAt(lines, i, numberLines);
    }
    if lines != [] {
      NumberNonblankAt(lines, 1, 0);
    } else {
      assert NumberNonblank(lines, 1) == [];
    }
    assert r == NumberNonblank(lines, 1);
  }

  /** Giving `-n` together with `-b` prints the same as `-b` alone. */
  lemma {:induction false} BothFlagsAsNonblock(lines: seq<string>)
    ensures FileText(lines, Flags(true, true)) == FileText(lines, Flags(false, true))
  {
    NumberNonblockIsNumberNonblank(lines, true);
    NumberNonblockIsNumberNonblank(lines, false);
  }

  lemma LabelHasNoNewline(lines: seq<string>, i: nat, flags: Flags)
    requires i < |lines|
    ensures '\n' !in Label(lines, i, flags)
  {
    var l := Label(lines, i, flags);
    if l != "" {
      var p := Pad6(LineNumber(lines, i, flags));
      var d := Digits(LineNumber(lines, i, flags));
      Pad6Shape(LineNumber(lines, i, flags));
      forall k | 0 <= k < |p| ensures p[k] != '\n' {
        if k >= |p| - |d| {
          assert p[k] == d[k - (|p| - |d|)];
        }
      }
      assert l == p + "\t";
    }
  }

  /** A file of k >= 1 lines gets k - 1 newlines from the loop, and a file of
      no lines prints nothing, whatever the flags. */
  lemma FileNewlines(lines: seq<string>, flags: Flags)
    requires forall l :: l in lines ==> '\n' !in l
    ensures lines == [] ==> FileText(lines, flags) == ""
    ensures NewlineCount(FileText(lines, flags)) == if lines == [] then 0 else |lines| - 1
  {
    var r := Rendered(lines, flags);
    forall x | x in r ensures '\n' !in x {
      var i :| 0 <= i < |r| && r[i] == x;
      LabelHasNoNewline(lines, i, flags);
      assert lines[i] in lines;
      assert x == Printed(lines, i, flags);
      assert multiset(x) == multiset(Label(lines, i, flags)) + multiset(lines[i]);
    }
    JoinNewlines(r);
  }

  /** Without flags, a text read through `BufRead::lines` is printed back
      unchanged except that a final newline is dropped. */
  lemma PlainDropsFinalNewline(text: string)
    requires '\r' !in text
    ensures FileText(SplitLines(text), Flags(false, false)) ==
      if EndsWithNewline(text) then text[..|text| - 1] else text
  {
    PlainIsJoin(SplitLines(text));
    SplitThenJoin(text);
  }

  /** Two non-empty lines followed by an empty line and a final newline,
      read and numbered with `-n`: three numbered lines, and no newline after
      the third. */
  lemma TwoLinesAndBlankNumbered(a: string, b: string)
    requires a != "" && b != ""
    requires '\n' !in a && '\r' !in a && '\n' !in b && '\r' !in b
    ensures FileText(SplitLines(a + "\n" + b + "\n\n"), Flags(true, false)) ==
      Pad6(1) + "\t" + a + "\n" + Pad6(2) + "\t" + b + "\n" + Pad6(3) + "\t"
  {
    var ls := [a, b, ""];
    var x, y, z := Pad6(1) + "\t" + a, Pad6(2) + "\t" + b, Pad6(3) + "\t";
    assert SplitLines(a + "\n" + b + "\n\n") == ls by { TwoLinesAndBlankSplit(a, b); }
    assert FileText(ls, Flags(true, false)) == Join(NumberAll(ls, 1)) by { NumberLinesIsNumberAll(ls); }
    assert NumberAll(ls, 1) == [x, y, z] by { NumberAllThree(a, b); }
    assert Join([x, y, z]) == x + "\n" + (y + "\n" + z) by { JoinThree(x, y, z); }
    FlattenThree(Pad6(1), a, Pad6(2), b, Pad6(3));
  }

  /** The same text with `-b`: the empty last line is neither numbered nor
      followed by a newline. */
  lemma TwoLinesAndBlankNonblock(a: string, b: string)
    requires a != "" && b != ""
    requires '\n' !in a && '\r' !in a && '\n' !in b && '\r' !in b
    ensures FileText(SplitLines(a + "\n" + b + "\n\n"), Flags(false, true)) ==
      Pad6(1) + "\t" + a + "\n" + Pad6(2) + "\t" + b + "\n"
  {
    var ls := [a, b, ""];
    var x, y, z := Pad6(1) + "\t" + a, Pad6(2) + "\t" + b, "";
    assert SplitLines(a + "\n" + b + "\n\n") == ls by { TwoLinesAndBlankSplit(a, b); }
    assert FileText(ls, Flags(false, true)) == Join(NumberNonblank(ls, 1)) by {
      NumberNonblockIsNumberNonblank(ls, false);
    }
    assert NumberNonblank(ls, 1) == [x, y, z] by { NumberNonblankThree(a, b); }
    assert Join([x, y, z]) == x + "\n" + (y + "\n" + z) by { JoinThree(x, y, z); }
    FlattenEmptyLast(Pad6(1), a, Pad6(2), b);
  }

  lemma NumberAllThree(a: string, b: string)
    ensures NumberAll([a, b, ""], 1) == [Pad6(1) + "\t" + a, Pad6(2) + "\t" + b, Pad6(3) + "\t"]
  {
    var ls := [a, b, ""];
    NumberAllAt(ls, 1, 0);
    NumberAllAt(ls, 1, 1);
    NumberAllAt(ls, 1, 2);
    assert Pad6(3) + "\t" + "" == Pad6(3) + "\t";
  }

  lemma NumberNonblankThree(a: string, b: string)
    requires a != "" && b != ""
    ensures NumberNonblank([a, b, ""], 1) == [Pad6(1) + "\t" + a, Pad6(2) + "\t" + b, ""]
  {
    var ls := [a, b, ""];
    NumberNonblankAt(ls, 1, 0);
    NumberNonblankAt(ls, 1, 1);
    NumberNonblankAt(ls, 1, 2);
    assert ls[..1] == [a];
    assert NonblankCount(ls[..1]) == 1;
  }

  lemma JoinThree(x: string, y: string, z: string)
    ensures Join([x, y, z]) == x + "\n" + (y + "\n" + z)
  {
    var xs := [x, y, z];
    assert xs[1..][1..] == [z];
    assert Join(xs[1..][1..]) == z;
    assert xs[1..] == [y, z];
    assert Join(xs[1..]) == y + "\n" + z;
  }

  lemma FlattenThree(p: string, a: string, q: string, b: string, r: string)
    ensures (p + "\t" + a) + "\n" + ((q + "\t" + b) + "\n" + (r + "\t")) ==
      p + "\t" + a + "\n" + q + "\t" + b + "\n" + r + "\t"
  {
  }

  lemma FlattenEmptyLast(p: string, a: string, q: string, b: string)
    ensures (p + "\t" + a) + "\n" + ((q + "\t" + b) + "\n" + "") == p + "\t" + a + "\n" + q + "\t" + b + "\n"
  {
  }

  lemma TwoLinesAndBlankSplit(a: string, b: string)
    requires '\n' !in a && '\r' !in a && '\n' !in b && '\r' !in b
    ensures SplitLines(a + "\n" + b + "\n\n") == [a, b, ""]
  {
    var t3: string := "\n";
    SplitPlainLine("", "");
    assert SplitLines(t3) == [""] by {
      assert t3 == "" + "\n" + "";
    }
    var t2 := b + "\n" + t3;
    SplitPlainLine(b, t3);
    SplitPlainLine(a, t2);
    TextAssoc(a, b);
  }

  lemma TextAssoc(a: string, b: string)
    ensures a + "\n" + b + "\n\n" == a + "\n" + (b + "\n" + "\n")
  {
    assert a + "\n" + b + "\n\n" == (a + "\n") + (b + "\n\n");
  }

  lemma SplitPlainLine(l: string, rest: string)
    requires '\n' !in l && '\r' !in l
    ensures SplitLines(l + "\n" + rest) == [l] + SplitLines(rest)
  {
    SplitLinesFirst(l, rest);
    assert StripCR(l) == l by {
      if |l| > 0 { assert l[|l| - 1] in l; }
    }
  }

  lemma SmallPad6()
    ensures Pad6(1) == "     1" && Pad6(2) == "     2" && Pad6(3) == "     3"
  {
    assert Digits(1) == "1" && Digits(2) == "2" && Digits(3) == "3";
    PadToSpaces("1", 6);
    PadToSpaces("2", 6);
    PadToSpaces("3", 6);
    assert Spaces(5) == "     ";
  }
}
