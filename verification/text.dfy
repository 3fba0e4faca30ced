/**
 * The string operations of `java.lang.String` and `java.util.Objects` that the
 * message builders rely on: `contains`, `startsWith`, `replace`, `trim`,
 * `Objects.toString(x, "null")` and `Collectors.joining`.
 */
module Text {
  import opened Wrappers

  /** `s.contains(t)`: t occurs somewhere in s; the empty string occurs everywhere. */
  predicate Contains(s: string, t: string)
    decreases |s|
  {
    t <= s || (|s| > 0 && Contains(s[1..], t))
  }

  /** `s.replace(t, r)`: every occurrence of t, found left to right without
      overlap, is replaced by r; an empty t inserts r before every character
      and at the end. Text produced by r is never rescanned. */
  function ReplaceAll(s: string, t: string, r: string): (res: string)
    ensures |t| > 0 && !Contains(s, t) ==> res == s
    decreases |s|
  {
    if |t| == 0 then
      if |s| == 0 then r else r + [s[0]] + ReplaceAll(s[1..], t, r)
    else if |s| == 0 then s
    else if t <= s then r + ReplaceAll(s[|t|..], t, r)
    else [s[0]] + ReplaceAll(s[1..], t, r)
  }

  /** `Collectors.joining(sep)` over already rendered parts. */
  function Join(parts: seq<string>, sep: string): string
    decreases |parts|
  {
    if |parts| == 0 then ""
    else if |parts| == 1 then parts[0]
    else parts[0] + sep + Join(parts[1..], sep)
  }

  /** `Objects.toString(x, "null")`: an absent value renders as `null`. */
  function Display(v: Option<string>): string {
    match v
    case Some(s) => s
    case None => "null"
  }

  /** The parameter list rendering: every value displayed, joined with ", ". */
  function JoinComma(values: seq<Option<string>>): string {
    Join(seq(|values|, i requires 0 <= i < |values| => Display(values[i])), ", ")
  }

  lemma JoinCommaOne(a: string)
    ensures JoinComma([Some(a)]) == a
    ensures JoinComma([None]) == "null"
  {
    assert seq(1, i requires 0 <= i < 1 => Display([Some(a)][i])) == [a];
  }

  /** One more value adds `, ` and its rendering; with `JoinCommaOne` this
      pins the rendering of every non-empty argument list. */
  lemma JoinCommaSnoc(values: seq<Option<string>>, v: Option<string>)
    requires |values| > 0
    ensures JoinComma(values + [v]) == JoinComma(values) + ", " + Display(v)
  {
    var all := values + [v];
    var ds := seq(|values|, i requires 0 <= i < |values| => Display(values[i]));
    assert seq(|all|, i requires 0 <= i < |all| => Display(all[i])) == ds + [Display(v)];
    JoinSnoc(ds, Display(v), ", ");
  }

  lemma JoinCommaPair(a: string, b: string)
    ensures JoinComma([Some(a), Some(b)]) == a + ", " + b
  {
    var ds := seq(2, i requires 0 <= i < 2 => Display([Some(a), Some(b)][i]));
    assert ds == [a, b];
    assert ds[1..] == [b];
    assert Join(ds, ", ") == ds[0] + ", " + Join(ds[1..], ", ");
  }

  /** `String.trim()`: strips leading and trailing characters up to U+0020. */
  function Trim(s: string): string {
    TrimEnd(TrimStart(s))
  }

  function TrimStart(s: string): string
    decreases |s|
  {
    if |s| > 0 && s[0] <= ' ' then TrimStart(s[1..]) else s
  }

  function TrimEnd(s: string): string
    decreases |s|
  {
    if |s| > 0 && s[|s| - 1] <= ' ' then TrimEnd(s[..|s| - 1]) else s
  }

  /** `trim` is fixed by what it cuts: blanks in front, then a core that is
      empty or starts and ends with a non-blank, then blanks trim to the core. */
  lemma TrimOf(front: string, core: string, back: string)
    requires forall k :: 0 <= k < |front| ==> front[k] <= ' '
    requires forall k :: 0 <= k < |back| ==> back[k] <= ' '
    requires |core| == 0 || (core[0] > ' ' && core[|core| - 1] > ' ')
    ensures Trim(front + core + back) == core
  {
    if |core| > 0 {
      assert front + core + back == front + (core + back);
      TrimStartSkips(front, core + back);
      TrimEndSkips(core, back);
    } else {
      assert front + core + back == front + back;
      TrimStartAll(front + back);
    }
  }

  lemma {:induction false} TrimStartAll(ws: string)
    requires forall k :: 0 <= k < |ws| ==> ws[k] <= ' '
    ensures TrimStart(ws) == ""
    decreases |ws|
  {
    if |ws| > 0 {
      TrimStartAll(ws[1..]);
    }
  }

  /** Trailing blanks go, and a last non-blank character stays. */
  lemma {:induction false} TrimEndSkips(x: string, ws: string)
    requires forall k :: 0 <= k < |ws| ==> ws[k] <= ' '
    requires |x| == 0 || x[|x| - 1] > ' '
    ensures TrimEnd(x + ws) == x
    decreases |ws|
  {
    if |ws| > 0 {
      assert (x + ws)[..|x + ws| - 1] == x + ws[..|ws| - 1];
      TrimEndSkips(x, ws[..|ws| - 1]);
    } else {
      assert x + ws == x;
    }
  }

  /** Leading blanks go, and the first non-blank character stays. */
  lemma {:induction false} TrimStartSkips(ws: string, x: string)
    requires forall i :: 0 <= i < |ws| ==> ws[i] <= ' '
    requires |x| > 0 && x[0] > ' '
    ensures TrimStart(ws + x) == x
    decreases |ws|
  {
    if |ws| > 0 {
      assert (ws + x)[1..] == ws[1..] + x;
      TrimStartSkips(ws[1..], x);
    } else {
      assert ws + x == x;
    }
  }

  /** A prefix that ends in a non-blank character survives TrimEnd. */
  lemma {:induction false} TrimEndKeepsPrefix(p: string, y: string)
    requires p <= y && |p| > 0 && p[|p| - 1] > ' '
    ensures p <= TrimEnd(y)
    decreases |y|
  {
    if |y| > 0 && y[|y| - 1] <= ' ' {
      assert |p| < |y|;
      TrimEndKeepsPrefix(p, y[..|y| - 1]);
    }
  }

  // ---------------------------------------------------------------------
  // Facts about Contains

  lemma {:induction false} ContainsSuffix(a: string, b: string, t: string)
    requires Contains(b, t)
    ensures Contains(a + b, t)
    decreases |a|
  {
    if |a| > 0 {
      assert (a + b)[1..] == a[1..] + b;
      ContainsSuffix(a[1..], b, t);
    } else {
      assert a + b == b;
    }
  }

  lemma {:induction false} ContainsPrefix(a: string, b: string, t: string)
    requires Contains(a, t)
    ensures Contains(a + b, t)
    decreases |a|
  {
    if t <= a {
      assert t <= a + b;
    } else {
      assert (a + b)[1..] == a[1..] + b;
      ContainsPrefix(a[1..], b, t);
    }
  }

  /** t occurs in a + t + b. */
  lemma ContainsMiddle(a: string, t: string, b: string)
    ensures Contains(a + t + b, t)
  {
    assert t <= t + b;
    ContainsPrefix(t, b, t);
    ContainsSuffix(a, t + b, t);
    assert a + t + b == a + (t + b);
  }

  /** An occurrence of a + b holds an occurrence of b. */
  lemma {:induction false} ContainsRight(s: string, a: string, b: string)
    requires Contains(s, a + b)
    ensures Contains(s, b)
    decreases |s|
  {
    if a + b <= s {
      assert b <= s[|a|..];
      ContainsSuffix(s[..|a|], s[|a|..], b);
      assert s[..|a|] + s[|a|..] == s;
    } else {
      ContainsRight(s[1..], a, b);
    }
  }

  lemma ContainsSelf(t: string)
    ensures Contains(t, t)
  {
  }

  /** An occurrence of an occurrence is an occurrence. */
  lemma {:induction false} ContainsTrans(s: string, m: string, t: string)
    requires Contains(s, m) && Contains(m, t)
    ensures Contains(s, t)
    decreases |s|
  {
    if m <= s {
      ContainsPrefix(m, s[|m|..], t);
      assert m + s[|m|..] == s;
    } else {
      ContainsTrans(s[1..], m, t);
    }
  }

  /** An occurrence of a + b holds an occurrence of a. */
  lemma ContainsLeft(s: string, a: string, b: string)
    requires Contains(s, a + b)
    ensures Contains(s, a)
  {
    ContainsSelf(a);
    ContainsPrefix(a, b, a);
    ContainsTrans(s, a + b, a);
  }

  /** A t holding a character that s lacks does not occur in s. */
  lemma {:induction false} NotContainsChar(s: string, t: string, c: char)
    requires c in t && c !in s
    ensures !Contains(s, t)
    decreases |s|
  {
    var k :| 0 <= k < |t| && t[k] == c;
    if k < |s| {
      assert s[k] != c;
    }
    if |s| > 0 {
      NotContainsChar(s[1..], t, c);
    }
  }

  /** A non-empty t whose first character is absent from s does not occur in s. */
  lemma {:induction false} NotContainsFirstChar(s: string, t: string)
    requires |t| > 0 && t[0] !in s
    ensures !Contains(s, t)
    decreases |s|
  {
    if |s| > 0 {
      assert s[0] != t[0];
      assert !(t <= s);
      NotContainsFirstChar(s[1..], t);
    }
  }

  lemma ElementIn(t: string, k: int)
    ensures 0 <= k < |t| ==> t[k] in t
  {
  }

  /** An occurrence in a + [c] + b of a pattern without c lies in a or in b. */
  lemma {:induction false} ContainsAcross(a: string, c: char, b: string, t: string)
    requires c !in t
    requires Contains(a + [c] + b, t)
    ensures Contains(a, t) || Contains(b, t)
    decreases |a|
  {
    var s := a + [c] + b;
    if t <= s {
      if |t| > |a| {
        ElementIn(t, |a|);
        assert false;
      }
      assert t <= a;
    } else if |a| == 0 {
      assert s[1..] == b;
    } else {
      assert s[1..] == a[1..] + [c] + b;
      ContainsAcross(a[1..], c, b, t);
    }
  }

  /** Joining lines none of which contains t (t without the separator
      character) gives a text without t. */
  lemma {:induction false} JoinAvoids(parts: seq<string>, c: char, t: string)
    requires |t| > 0 && c !in t
    requires forall i :: 0 <= i < |parts| ==> !Contains(parts[i], t)
    ensures !Contains(Join(parts, [c]), t)
    decreases |parts|
  {
    if |parts| > 1 {
      JoinAvoids(parts[1..], c, t);
      if Contains(Join(parts, [c]), t) {
        ContainsAcross(parts[0], c, Join(parts[1..], [c]), t);
        assert false;
      }
    }
  }

  // ---------------------------------------------------------------------
  // Facts about ReplaceAll

  /** A guard `if (s.contains(t))` in front of `s.replace(t, r)` changes nothing. */
  lemma GuardedReplace(s: string, t: string, r: string)
    requires |t| > 0
    ensures (if Contains(s, t) then ReplaceAll(s, t, r) else s) == ReplaceAll(s, t, r)
  {
  }

  /** Replacing a target by itself gives the text back. */
  lemma {:induction false} ReplaceBySelf(s: string, t: string)
    requires |t| > 0
    ensures ReplaceAll(s, t, t) == s
    decreases |s|
  {
    if |s| > 0 {
      if t <= s {
        ReplaceBySelf(s[|t|..], t);
        ReplaceBySelfFront(s, t);
      } else {
        ReplaceBySelf(s[1..], t);
        ReplaceBySelfSkip(s, t);
      }
    }
  }

  lemma ReplaceBySelfFront(s: string, t: string)
    requires |t| > 0 && t <= s && ReplaceAll(s[|t|..], t, t) == s[|t|..]
    ensures ReplaceAll(s, t, t) == s
  {
    assert s == t + s[|t|..];
  }

  lemma ReplaceBySelfSkip(s: string, t: string)
    requires |t| > 0 && |s| > 0 && !(t <= s) && ReplaceAll(s[1..], t, t) == s[1..]
    ensures ReplaceAll(s, t, t) == s
  {
    assert s == [s[0]] + s[1..];
  }

  /** A text occurrence of t right at the front is replaced. */
  lemma ReplaceAtFront(t: string, y: string, r: string)
    requires |t| > 0
    ensures ReplaceAll(t + y, t, r) == r + ReplaceAll(y, t, r)
  {
    assert t <= t + y;
    assert (t + y)[|t|..] == y;
  }

  /** Replacing the whole text gives the replacement. */
  lemma ReplaceWhole(t: string, r: string)
    requires |t| > 0
    ensures ReplaceAll(t, t, r) == r
  {
    ReplaceAtFront(t, "", r);
    assert t + "" == t;
  }

  /** Characters before which t cannot start are copied unchanged. */
  lemma {:induction false} ReplaceSkips(x: string, y: string, t: string, r: string)
    requires |t| > 0 && t[0] !in x
    ensures ReplaceAll(x + y, t, r) == x + ReplaceAll(y, t, r)
    decreases |x|
  {
    if |x| == 0 {
      assert x + y == y;
    } else {
      ReplaceSkipFirst(x, y, t, r);
      ReplaceSkips(x[1..], y, t, r);
      PrependFirst(x, ReplaceAll(y, t, r));
    }
  }

  lemma ReplaceSkipFirst(x: string, y: string, t: string, r: string)
    requires |t| > 0 && |x| > 0 && x[0] != t[0]
    ensures ReplaceAll(x + y, t, r) == [x[0]] + ReplaceAll(x[1..] + y, t, r)
  {
    var s := x + y;
    assert s[0] == x[0] && s[1..] == x[1..] + y;
    ReplaceSkipOne(s, t, r);
  }

  /** Where t does not start, the first character is copied unchanged. */
  lemma ReplaceSkipHead(x: string, y: string, t: string, r: string)
    requires |t| > 0 && |x| > 0 && !(t <= x + y)
    ensures ReplaceAll(x + y, t, r) == [x[0]] + ReplaceAll(x[1..] + y, t, r)
  {
    var s := x + y;
    assert s[0] == x[0] && s[1..] == x[1..] + y;
  }

  lemma PrependFirst(x: string, z: string)
    requires |x| > 0
    ensures [x[0]] + (x[1..] + z) == x + z
  {
    assert x == [x[0]] + x[1..];
  }

  /** A first character that does not start t is copied unchanged. */
  lemma ReplaceSkipOne(s: string, t: string, r: string)
    requires |t| > 0 && |s| > 0 && s[0] != t[0]
    ensures ReplaceAll(s, t, r) == [s[0]] + ReplaceAll(s[1..], t, r)
  {
    assert !(t <= s);
  }

  /** The pieces of s between the occurrences of t that ReplaceAll finds. */
  function Pieces(s: string, t: string): (ps: seq<string>)
    requires |t| > 0
    ensures |ps| >= 1
    decreases |s|
  {
    if |s| == 0 then [""]
    else if t <= s then [""] + Pieces(s[|t|..], t)
    else
      var rest := Pieces(s[1..], t);
      [[s[0]] + rest[0]] + rest[1..]
  }

  lemma JoinCons(x: string, rest: seq<string>, sep: string)
    requires |rest| > 0
    ensures Join([x] + rest, sep) == x + sep + Join(rest, sep)
  {
    assert ([x] + rest)[1..] == rest;
  }

  /** Appending a part appends the separator and the part. */
  lemma {:induction false} JoinSnoc(ps: seq<string>, x: string, sep: string)
    requires |ps| > 0
    ensures Join(ps + [x], sep) == Join(ps, sep) + sep + x
    decreases |ps|
  {
    if |ps| == 1 {
      assert (ps + [x])[1..] == [x];
    } else {
      assert (ps + [x])[1..] == ps[1..] + [x];
      JoinSnoc(ps[1..], x, sep);
    }
  }

  lemma {:induction false} JoinStartsWithFirst(ps: seq<string>, sep: string)
    requires |ps| > 0
    ensures ps[0] <= Join(ps, sep)
  {
  }

  /** Prepending a character to the first part prepends it to the join. */
  lemma JoinExtendFirst(c: char, ps: seq<string>, sep: string)
    requires |ps| > 0
    ensures Join([[c] + ps[0]] + ps[1..], sep) == [c] + Join(ps, sep)
  {
    if |ps| > 1 {
      JoinCons([c] + ps[0], ps[1..], sep);
      JoinCons(ps[0], ps[1..], sep);
      assert [ps[0]] + ps[1..] == ps;
    }
  }

  /** The reference reading of `replace`: cut s into pieces at the
      occurrences of t, then glue the pieces back with r. */
  lemma {:induction false} ReplaceIsJoinOfPieces(s: string, t: string, r: string)
    requires |t| > 0
    ensures ReplaceAll(s, t, r) == Join(Pieces(s, t), r)
    decreases |s|
  {
    if |s| == 0 {
    } else if t <= s {
      var rest := Pieces(s[|t|..], t);
      assert Pieces(s, t) == [""] + rest;
      assert ReplaceAll(s, t, r) == r + ReplaceAll(s[|t|..], t, r);
      ReplaceIsJoinOfPieces(s[|t|..], t, r);
      JoinCons("", rest, r);
      assert "" + r == r;
    } else {
      var rest := Pieces(s[1..], t);
      assert Pieces(s, t) == [[s[0]] + rest[0]] + rest[1..];
      assert ReplaceAll(s, t, r) == [s[0]] + ReplaceAll(s[1..], t, r);
      ReplaceIsJoinOfPieces(s[1..], t, r);
      JoinExtendFirst(s[0], rest, r);
    }
  }

  /** Gluing the pieces back with t itself restores s. */
  lemma PiecesRestore(s: string, t: string)
    requires |t| > 0
    ensures Join(Pieces(s, t), t) == s
  {
    ReplaceIsJoinOfPieces(s, t, t);
    ReplaceBySelf(s, t);
  }

  /** No piece contains t: every occurrence of t in s is one that is replaced. */
  lemma {:induction false} PiecesAvoidTarget(s: string, t: string)
    requires |t| > 0
    ensures forall i :: 0 <= i < |Pieces(s, t)| ==> !Contains(Pieces(s, t)[i], t)
    decreases |s|
  {
    if |s| == 0 {
      assert !Contains("", t);
    } else if t <= s {
      PiecesAvoidTarget(s[|t|..], t);
      assert !Contains("", t);
      assert Pieces(s, t) == [""] + Pieces(s[|t|..], t);
    } else {
      var rest := Pieces(s[1..], t);
      PiecesAvoidTarget(s[1..], t);
      FirstPieceAvoids(s, t);
      assert Pieces(s, t) == [[s[0]] + rest[0]] + rest[1..];
    }
  }

  lemma FirstPieceAvoids(s: string, t: string)
    requires |t| > 0 && |s| > 0 && !(t <= s)
    requires !Contains(Pieces(s[1..], t)[0], t)
    ensures !Contains([s[0]] + Pieces(s[1..], t)[0], t)
  {
    var rest := Pieces(s[1..], t);
    PiecesRestore(s[1..], t);
    JoinStartsWithFirst(rest, t);
    PrefixCons(s[0], rest[0], s[1..]);
    assert [s[0]] + s[1..] == s;
    ConsAvoids(s[0], rest[0], t, s);
  }

  /** A prefix of s that starts away from t and avoids it afterwards avoids it. */
  lemma ConsAvoids(c: char, x: string, t: string, s: string)
    requires [c] + x <= s && !(t <= s) && !Contains(x, t)
    ensures !Contains([c] + x, t)
  {
    var p := [c] + x;
    if t <= p {
      PrefixTrans(t, p, s);
    }
    assert p[1..] == x;
  }

  lemma PrefixCons(c: char, a: string, b: string)
    requires a <= b
    ensures [c] + a <= [c] + b
  {
    assert ([c] + b)[..|a| + 1] == [c] + b[..|a|];
  }

  lemma PrefixTrans(a: string, b: string, c: string)
    requires a <= b && b <= c
    ensures a <= c
  {
    assert c[..|a|] == c[..|b|][..|a|];
  }
}
