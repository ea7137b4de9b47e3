/** Lines of text: how `BufRead::lines` cuts a stream into lines, and the
    inverse operation of putting lines back together with newlines between
    them. */
module Lines {

  /** The lines of `xs` with one newline between each two of them and none
      after the last. */
  function Join(xs: seq<string>): string {
    if |xs| == 0 then "" else if |xs| == 1 then xs[0] else xs[0] + "\n" + Join(xs[1..])
  }

  /** Concatenation of texts is associative. */
  lemma Assoc(a: string, b: string, c: string)
    ensures a + b + c == a + (b + c)
  {
  }

  /** Joining a sequence with one more line appends a newline and that line. */
  lemma {:induction false} JoinSnoc(xs: seq<string>, x: string)
    requires |xs| >= 1
    ensures Join(xs + [x]) == Join(xs) + "\n" + x
  {
    if |xs| > 1 {
      assert (xs + [x])[1..] == xs[1..] + [x];
      JoinSnoc(xs[1..], x);
    }
  }

  /** The text written once the first `k` lines of `xs` have been written,
      each followed by a newline unless it is the last of `xs`. */
  function JoinedPrefix(xs: seq<string>, k: nat): string
    requires k <= |xs|
  {
    Join(xs[..k]) + (if 0 < k < |xs| then "\n" else "")
  }

  /** Writing one more line, and its newline unless it is the last. */
  lemma JoinedPrefixStep(xs: seq<string>, k: nat)
    requires k < |xs|
    ensures JoinedPrefix(xs, k + 1) == JoinedPrefix(xs, k) + xs[k] + (if k != |xs| - 1 then "\n" else "")
  {
    assert xs[..k + 1] == xs[..k] + [xs[k]];
    if k > 0 {
      JoinSnoc(xs[..k], xs[k]);
    } else {
      assert xs[..k + 1] == [xs[k]];
    }
  }

  lemma JoinedPrefixAll(xs: seq<string>)
    ensures JoinedPrefix(xs, |xs|) == Join(xs)
  {
    assert xs[..|xs|] == xs;
  }

  /** The number of newline characters in `s`. */
  function NewlineCount(s: string): nat {
    multiset(s)['\n']
  }

  /** Joining k >= 1 newline-free lines adds exactly k - 1 newlines, and
      joining no lines gives the empty text. */
  lemma {:induction false} JoinNewlines(xs: seq<string>)
    requires forall x :: x in xs ==> '\n' !in x
    ensures |xs| == 0 ==> Join(xs) == ""
    ensures NewlineCount(Join(xs)) == if |xs| == 0 then 0 else |xs| - 1
  {
    if |xs| > 1 {
      JoinNewlines(xs[1..]);
      assert multiset(Join(xs)) == multiset(xs[0]) + multiset("\n") + multiset(Join(xs[1..]));
      assert xs[0] in xs;
    } else if |xs| == 1 {
      assert xs[0] in xs;
    }
  }

  /** Drops one carriage return at the end of a line, if there is one. */
  function StripCR(l: string): (r: string)
    ensures r == l || (l == r + "\r")
  {
    if |l| > 0 && l[|l| - 1] == '\r' then l[..|l| - 1] else l
  }

  /** The index of the first newline in `s`, or |s| when there is none. */
  function FirstNewline(s: string): (k: nat)
    ensures k <= |s|
    ensures k < |s| ==> s[k] == '\n'
    ensures forall j :: 0 <= j < k ==> s[j] != '\n'
  {
    if s == [] then 0 else if s[0] == '\n' then 0 else 1 + FirstNewline(s[1..])
  }

  predicate EndsWithNewline(s: string) {
    |s| > 0 && s[|s| - 1] == '\n'
  }

  /** The lines `BufRead::lines` yields from `text`: each line ends at a
      newline, which is dropped together with a carriage return just before
      it; a final line without a newline is yielded too; nothing follows a
      final newline. */
  function SplitLines(text: string): (lines: seq<string>)
    ensures forall l :: l in lines ==> '\n' !in l
    ensures lines == [] <==> text == []
    decreases |text|
  {
    if text == [] then []
    else
      var k := FirstNewline(text);
      if k == |text| then [text]
      else [StripCR(text[..k])] + SplitLines(text[k + 1..])
  }

  /** How one line is cut off the front of a text: at its newline, which is
      dropped together with a carriage return just before it. */
  lemma SplitLinesFirst(l: string, rest: string)
    requires '\n' !in l
    ensures SplitLines(l + "\n" + rest) == [StripCR(l)] + SplitLines(rest)
  {
    var t := l + "\n" + rest;
    assert t[|l|] == '\n';
    assert FirstNewline(t) == |l| by {
      forall j | 0 <= j < |l| ensures t[j] != '\n' {
        assert t[j] == l[j];
      }
    }
    assert t[..|l|] == l && t[|l| + 1..] == rest;
  }

  /** A line ended by a carriage return and a newline comes out without
      either. */
  lemma SplitLinesCRLF(l: string, rest: string)
    requires '\n' !in l
    ensures SplitLines(l + "\r\n" + rest) == [l] + SplitLines(rest)
  {
    var c := l + "\r";
    assert '\n' !in c by {
      forall j | 0 <= j < |c| ensures c[j] != '\n' {
        if j < |l| { assert c[j] == l[j]; }
      }
    }
    SplitLinesFirst(c, rest);
    assert c + "\n" == l + "\r\n" by {
      assert "\r" + "\n" == "\r\n";
      Assoc(l, "\r", "\n");
    }
    assert StripCR(c) == l by {
      assert c[..|c| - 1] == l;
    }
  }

  /** A last line without a newline is kept whole, carriage return and all. */
  lemma SplitLinesLast(l: string)
    requires '\n' !in l && l != ""
    ensures SplitLines(l) == [l]
  {
    assert FirstNewline(l) == |l|;
  }

  /** A newline at the very end of the text yields no empty last line. */
  lemma SplitLinesFinalNewline(l: string)
    requires '\n' !in l
    ensures SplitLines(l + "\n") == [StripCR(l)]
  {
    SplitLinesFirst(l, "");
    assert l + "\n" + "" == l + "\n";
    assert [StripCR(l)] + [] == [StripCR(l)];
  }

  /** For text without carriage returns, splitting and joining again gives
      the text back, except for a final newline, which is lost. */
  lemma {:induction false} SplitThenJoin(text: string)
    requires '\r' !in text
    ensures Join(SplitLines(text)) + (if EndsWithNewline(text) then "\n" else "") == text
    decreases |text|
  {
    if text != [] {
      var k := FirstNewline(text);
      if k < |text| {
        NoCharInParts(text, k, '\r');
        if text[k + 1..] != [] {
          SplitThenJoin(text[k + 1..]);
        }
        SplitThenJoinStep(text, k);
      } else {
        assert SplitLines(text) == [text];
      }
    }
  }

  /** The step of SplitThenJoin: the first line and its newline, followed by
      the rest of the text, which splits and joins back by itself. */
  lemma SplitThenJoinStep(text: string, k: nat)
    requires '\r' !in text
    requires k == FirstNewline(text) < |text|
    requires var rest := text[k + 1..];
      rest == [] || Join(SplitLines(rest)) + (if EndsWithNewline(rest) then "\n" else "") == rest
    ensures Join(SplitLines(text)) + (if EndsWithNewline(text) then "\n" else "") == text
  {
    var line, rest := text[..k], text[k + 1..];
    assert text == line + "\n" + rest;
    assert SplitLines(text) == [line] + SplitLines(rest) by {
      NoCharInParts(text, k, '\r');
      assert StripCR(line) == line by {
        if |line| > 0 { assert line[|line| - 1] in line; }
      }
    }
    if rest != [] {
      assert EndsWithNewline(text) == EndsWithNewline(rest);
      JoinConsSuffix(line, SplitLines(rest), if EndsWithNewline(rest) then "\n" else "");
    } else {
      assert Join([line]) == line;
    }
  }

  lemma JoinConsSuffix(line: string, xs: seq<string>, suffix: string)
    requires xs != []
    ensures Join([line] + xs) + suffix == line + "\n" + (Join(xs) + suffix)
  {
    assert ([line] + xs)[1..] == xs;
    Assoc(line + "\n", Join(xs), suffix);
  }

  lemma NoCharInParts(text: string, k: nat, c: char)
    requires k < |text| && c !in text
    ensures c !in text[..k] && c !in text[k + 1..]
  {
    forall j | 0 <= j < k ensures text[..k][j] != c {
      assert text[..k][j] == text[j];
    }
    var rest := text[k + 1..];
    forall j | 0 <= j < |rest| ensures rest[j] != c {
      assert rest[j] == text[k + 1 + j];
    }
  }

  /** Lines free of newlines and carriage returns, the last of them not
      empty, come back unchanged from joining and splitting again. */
  lemma {:induction false} JoinThenSplit(xs: seq<string>)
    requires forall x :: x in xs ==> '\n' !in x && '\r' !in x
    requires xs == [] || xs[|xs| - 1] != ""
    ensures SplitLines(Join(xs)) == xs
  {
    if |xs| == 1 {
      assert xs[0] in xs;
      assert FirstNewline(xs[0]) == |xs[0]|;
    } else if |xs| > 1 {
      var head, rest := xs[0], Join(xs[1..]);
      assert head in xs;
      var text := head + "\n" + rest;
      assert text == Join(xs);
      var k := FirstNewline(text);
      assert text[|head|] == '\n';
      assert k == |head|;
      assert text[..k] == head && text[k + 1..] == rest;
      assert StripCR(head) == head by {
        if |head| > 0 {
          assert head[|head| - 1] in head;
        }
      }
      JoinThenSplit(xs[1..]);
    }
  }
}
