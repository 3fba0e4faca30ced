/**
 * Stack-trace text as lines: Java's `text.split("\r?\n")`, the order-keeping
 * filter applied to the resulting stream, and `Collectors.joining("\n")`.
 */
module Lines {
  import opened Text

  /** The pieces of s between the separators `\r?\n`, trailing empty pieces
      included; a text without separator is one piece. */
  function RawSplit(s: string): (ps: seq<string>)
    ensures |ps| >= 1
    decreases |s|
  {
    if |s| == 0 then [""]
    else if s[0] == '\n' then [""] + RawSplit(s[1..])
    else if s[0] == '\r' && |s| > 1 && s[1] == '\n' then [""] + RawSplit(s[2..])
    else
      var rest := RawSplit(s[1..]);
      [[s[0]] + rest[0]] + rest[1..]
  }

  /** The longest prefix of ps after which only empty strings follow. */
  function DropTrailingEmpty(ps: seq<string>): (r: seq<string>)
    ensures r <= ps
    ensures |r| == 0 || r[|r| - 1] != ""
    ensures forall i :: |r| <= i < |ps| ==> ps[i] == ""
    decreases |ps|
  {
    if |ps| == 0 then []
    else if ps[|ps| - 1] == "" then DropTrailingEmpty(ps[..|ps| - 1])
    else ps
  }

  /** `s.split("\r?\n")`: a text without any separator comes back whole (so ""
      gives [""]); otherwise the pieces with trailing empty ones removed. */
  function SplitLines(s: string): seq<string> {
    if '\n' !in s then [s] else DropTrailingEmpty(RawSplit(s))
  }

  /** `Collectors.joining("\n")`. */
  function JoinLines(ls: seq<string>): string {
    Join(ls, "\n")
  }

  /** `stream.filter(keep)`: the lines that pass, in their original order. */
  function FilterLines(ls: seq<string>, keep: string -> bool): (r: seq<string>)
    ensures forall x :: x in r ==> keep(x)
    ensures forall x :: x in ls && keep(x) ==> x in r
    ensures multiset(r) <= multiset(ls)
    decreases |ls|
  {
    if |ls| == 0 then []
    else
      assert ls == [ls[0]] + ls[1..];
      (if keep(ls[0]) then [ls[0]] else []) + FilterLines(ls[1..], keep)
  }

  /** The filter drops no repeat: a line that passes is kept as many times as
      it occurs, and a line that fails is not kept at all. */
  lemma {:induction false} FilterCounts(ls: seq<string>, keep: string -> bool)
    ensures forall x :: multiset(FilterLines(ls, keep))[x] == if keep(x) then multiset(ls)[x] else 0
    decreases |ls|
  {
    if |ls| > 0 {
      var head := if keep(ls[0]) then [ls[0]] else [];
      assert ls == [ls[0]] + ls[1..];
      assert multiset(ls) == multiset([ls[0]]) + multiset(ls[1..]);
      assert FilterLines(ls, keep) == head + FilterLines(ls[1..], keep);
      assert multiset(FilterLines(ls, keep)) == multiset(head) + multiset(FilterLines(ls[1..], keep));
      FilterCounts(ls[1..], keep);
    }
  }

  /** Filtering a concatenation filters each part: the order of the kept lines
      is the order of the input. */
  lemma {:induction false} FilterAppend(a: seq<string>, b: seq<string>, keep: string -> bool)
    ensures FilterLines(a + b, keep) == FilterLines(a, keep) + FilterLines(b, keep)
    decreases |a|
  {
    if |a| == 0 {
      assert a + b == b;
    } else {
      assert (a + b)[1..] == a[1..] + b;
      FilterAppend(a[1..], b, keep);
    }
  }

  /** Filtering twice with the same predicate is filtering once. */
  lemma {:induction false} FilterIdempotent(ls: seq<string>, keep: string -> bool)
    ensures FilterLines(FilterLines(ls, keep), keep) == FilterLines(ls, keep)
    decreases |ls|
  {
    if |ls| > 0 {
      FilterIdempotent(ls[1..], keep);
      var head := if keep(ls[0]) then [ls[0]] else [];
      FilterAppend(head, FilterLines(ls[1..], keep), keep);
      if keep(ls[0]) {
        assert head[1..] == [];
      }
    }
  }

  /** A line that can stand between separators and be split off again. */
  predicate Inner(line: string) {
    '\n' !in line && (|line| == 0 || line[|line| - 1] != '\r')
  }

  lemma {:induction false} RawSplitNoSeparator(s: string)
    requires '\n' !in s
    ensures RawSplit(s) == [s]
    decreases |s|
  {
    if |s| > 0 {
      RawSplitNoSeparator(s[1..]);
      assert [s[0]] + s[1..] == s;
    }
  }

  /** Splitting x + "\n" + y cuts x off, when x is an inner line. */
  lemma {:induction false} RawSplitCons(x: string, y: string)
    requires Inner(x)
    ensures RawSplit(x + "\n" + y) == [x] + RawSplit(y)
    decreases |x|
  {
    var s := x + "\n" + y;
    if |x| == 0 {
      assert s[1..] == y;
    } else {
      assert s[1..] == x[1..] + "\n" + y;
      if x[0] == '\r' {
        assert |x| > 1;
        assert s[1] == x[1] != '\n';
      }
      RawSplitCons(x[1..], y);
      assert [x[0]] + x[1..] == x;
    }
  }

  lemma {:induction false} RawSplitJoin(ls: seq<string>)
    requires |ls| >= 1
    requires forall i :: 0 <= i < |ls| ==> '\n' !in ls[i]
    requires forall i :: 0 <= i < |ls| - 1 ==> Inner(ls[i])
    ensures RawSplit(JoinLines(ls)) == ls
    decreases |ls|
  {
    if |ls| == 1 {
      RawSplitNoSeparator(ls[0]);
    } else {
      RawSplitJoin(ls[1..]);
      RawSplitCons(ls[0], JoinLines(ls[1..]));
      assert [ls[0]] + ls[1..] == ls;
    }
  }

  lemma {:induction false} JoinHasSeparator(ls: seq<string>)
    requires |ls| >= 2
    ensures '\n' in JoinLines(ls)
  {
    var s := JoinLines(ls);
    assert s == ls[0] + "\n" + JoinLines(ls[1..]);
    assert s[|ls[0]|] == '\n';
  }

  /** Joining lines and splitting the text again gives the lines back, when
      no line holds a line break, every line but the last can stand before a
      separator, and the last line is not an empty one that split would drop. */
  lemma SplitJoinRoundTrip(ls: seq<string>)
    requires |ls| >= 1
    requires forall i :: 0 <= i < |ls| ==> '\n' !in ls[i]
    requires forall i :: 0 <= i < |ls| - 1 ==> Inner(ls[i])
    requires |ls| == 1 || ls[|ls| - 1] != ""
    ensures SplitLines(JoinLines(ls)) == ls
  {
    if |ls| == 1 {
    } else {
      JoinHasSeparator(ls);
      RawSplitJoin(ls);
    }
  }

  /** Splitting a text and joining the lines again gives the text back, when
      it has no `\r` (a `\r\n` would come back as `\n`) and does not end in a
      line break (split drops the trailing empty lines). */
  lemma JoinSplitRoundTrip(s: string)
    requires '\r' !in s
    requires |s| == 0 || s[|s| - 1] != '\n'
    ensures JoinLines(SplitLines(s)) == s
  {
    if '\n' in s {
      RawSplitRestores(s);
      RawSplitLastPiece(s);
    }
  }

  /** Without `\r`, the raw pieces joined with `\n` are the text. */
  lemma {:induction false} RawSplitRestores(s: string)
    requires '\r' !in s
    ensures JoinLines(RawSplit(s)) == s
    decreases |s|
  {
    if |s| == 0 {
    } else if s[0] == '\n' {
      RawSplitRestores(s[1..]);
      JoinCons("", RawSplit(s[1..]), "\n");
      assert "" + "\n" + s[1..] == s;
    } else {
      RawSplitRestores(s[1..]);
      JoinExtendFirst(s[0], RawSplit(s[1..]), "\n");
      assert [s[0]] + s[1..] == s;
    }
  }

  /** The last raw piece is empty only when the text is empty or ends in a
      line break. */
  lemma {:induction false} RawSplitLastPiece(s: string)
    ensures var ps := RawSplit(s);
      ps[|ps| - 1] == "" ==> |s| == 0 || s[|s| - 1] == '\n'
    decreases |s|
  {
    if |s| == 0 {
    } else if s[0] == '\n' {
      RawSplitLastPiece(s[1..]);
      assert RawSplit(s) == [""] + RawSplit(s[1..]);
    } else if s[0] == '\r' && |s| > 1 && s[1] == '\n' {
      RawSplitLastPiece(s[2..]);
      assert RawSplit(s) == [""] + RawSplit(s[2..]);
    } else {
      RawSplitLastPiece(s[1..]);
      var rest := RawSplit(s[1..]);
      assert RawSplit(s) == [[s[0]] + rest[0]] + rest[1..];
      if |rest| > 1 {
        assert RawSplit(s)[|RawSplit(s)| - 1] == rest[|rest| - 1];
      }
    }
  }

  /** No piece of a split holds a line break. */
  lemma {:induction false} RawSplitLines(s: string)
    ensures forall i :: 0 <= i < |RawSplit(s)| ==> '\n' !in RawSplit(s)[i]
    decreases |s|
  {
    if |s| == 0 {
    } else if s[0] == '\n' {
      RawSplitLines(s[1..]);
      assert RawSplit(s) == [""] + RawSplit(s[1..]);
    } else if s[0] == '\r' && |s| > 1 && s[1] == '\n' {
      RawSplitLines(s[2..]);
      assert RawSplit(s) == [""] + RawSplit(s[2..]);
    } else {
      RawSplitLines(s[1..]);
      var rest := RawSplit(s[1..]);
      assert RawSplit(s) == [[s[0]] + rest[0]] + rest[1..];
      forall i | 0 <= i < |RawSplit(s)|
        ensures '\n' !in RawSplit(s)[i]
      {
        if i > 0 {
          assert RawSplit(s)[i] == rest[i];
        }
      }
    }
  }

  lemma SplitLinesHaveNoBreak(s: string)
    ensures forall i :: 0 <= i < |SplitLines(s)| ==> '\n' !in SplitLines(s)[i]
  {
    RawSplitLines(s);
  }

  // ---------------------------------------------------------------------
  // Cleaning a stack trace: split, keep the wanted lines, join

  /** `Arrays.stream(text.split("\r?\n")).filter(keep).collect(joining("\n"))`. */
  function Clean(text: string, keep: string -> bool): string {
    JoinLines(FilterLines(SplitLines(text), keep))
  }

  /** Each joined part occurs in the joined text. */
  lemma {:induction false} JoinContainsPart(parts: seq<string>, sep: string, k: nat)
    requires k < |parts|
    ensures Contains(Join(parts, sep), parts[k])
    decreases |parts|
  {
    if |parts| == 1 {
      ContainsMiddle("", parts[0], "");
      assert "" + parts[0] + "" == parts[0];
    } else if k == 0 {
      ContainsMiddle("", parts[0], sep + Join(parts[1..], sep));
      assert "" + parts[0] + (sep + Join(parts[1..], sep)) == Join(parts, sep);
    } else {
      JoinContainsPart(parts[1..], sep, k - 1);
      ContainsSuffix(parts[0] + sep, Join(parts[1..], sep), parts[k]);
    }
  }

  /** Every line of the trace that the filter keeps is still in the cleaned text. */
  lemma CleanKeeps(text: string, keep: string -> bool, line: string)
    requires line in SplitLines(text) && keep(line)
    ensures Contains(Clean(text, keep), line)
  {
    var kept := FilterLines(SplitLines(text), keep);
    var k :| 0 <= k < |kept| && kept[k] == line;
    JoinContainsPart(kept, "\n", k);
  }

  /** A marker without line break that no kept line holds is nowhere in the
      cleaned text. */
  lemma CleanAvoids(text: string, keep: string -> bool, t: string)
    requires |t| > 0 && '\n' !in t
    requires forall x :: keep(x) ==> !Contains(x, t)
    ensures !Contains(Clean(text, keep), t)
  {
    var kept := FilterLines(SplitLines(text), keep);
    forall i | 0 <= i < |kept|
      ensures !Contains(kept[i], t)
    {
      assert keep(kept[i]);
    }
    JoinAvoids(kept, '\n', t);
  }

  /** The lines a clean keeps have no line break. */
  lemma KeptLinesHaveNoBreak(text: string, keep: string -> bool)
    ensures forall i :: 0 <= i < |FilterLines(SplitLines(text), keep)| ==> '\n' !in FilterLines(SplitLines(text), keep)[i]
  {
    var ls := SplitLines(text);
    var kept := FilterLines(ls, keep);
    SplitLinesHaveNoBreak(text);
    forall i | 0 <= i < |kept|
      ensures '\n' !in kept[i]
    {
      assert multiset(kept)[kept[i]] > 0;
      assert kept[i] in ls;
    }
  }

  /** The cleaned text splits back into the kept lines, provided every kept
      line but the last can stand before a separator and the last is not an
      empty line that the split would drop. */
  lemma CleanLines(text: string, keep: string -> bool)
    requires var kept := FilterLines(SplitLines(text), keep);
      && |kept| > 0
      && (forall i :: 0 <= i < |kept| - 1 ==> Inner(kept[i]))
      && (|kept| == 1 || kept[|kept| - 1] != "")
    ensures SplitLines(Clean(text, keep)) == FilterLines(SplitLines(text), keep)
  {
    var kept := FilterLines(SplitLines(text), keep);
    assert Clean(text, keep) == JoinLines(kept);
    KeptLinesHaveNoBreak(text, keep);
    assert forall i :: 0 <= i < |kept| ==> '\n' !in kept[i];
    SplitJoinRoundTrip(kept);
  }

  /** Cleaning a cleaned trace changes nothing under the same proviso. */
  lemma CleanIdempotent(text: string, keep: string -> bool)
    requires var kept := FilterLines(SplitLines(text), keep);
      && (forall i :: 0 <= i < |kept| - 1 ==> Inner(kept[i]))
      && (|kept| <= 1 || kept[|kept| - 1] != "")
    ensures Clean(Clean(text, keep), keep) == Clean(text, keep)
  {
    var kept := FilterLines(SplitLines(text), keep);
    if |kept| == 0 {
      assert JoinLines(kept) == "";
      CleanEmpty(keep);
    } else {
      CleanLines(text, keep);
      FilterIdempotent(SplitLines(text), keep);
    }
  }

  /** An empty trace cleans to the empty text, whatever the filter. */
  lemma CleanEmpty(keep: string -> bool)
    ensures Clean("", keep) == ""
  {
    assert SplitLines("") == [""];
    var kept := FilterLines([""], keep);
    assert kept == [""] || kept == [];
  }
}
