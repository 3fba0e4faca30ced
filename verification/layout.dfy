/**
 * The default layout: `Method '<name>'`, then the optional parameter list,
 * the thrown exception or the return value, the duration, and the two
 * optional stack sections, always in this order.
 */
module Layout {
  import opened Wrappers
  import opened Text
  import opened LogCall
  import opened Runtime
  import Decimal

  datatype Section =
    | MethodPart(name: string)
    | ParamsPart(values: seq<Option<string>>)
    | ThrewPart(simpleName: string)
    | ReturnPart(value: Option<string>)
    | DurationPart(millis: int)
    | CallStackPart(trace: string)
    | ExceptionStackPart(trace: string)

  /** Position of a section kind in the layout. */
  function Rank(s: Section): nat {
    match s
    case MethodPart(_) => 0
    case ParamsPart(_) => 1
    case ThrewPart(_) => 2
    case ReturnPart(_) => 3
    case DurationPart(_) => 4
    case CallStackPart(_) => 5
    case ExceptionStackPart(_) => 6
  }

  function RenderSection(s: Section): string {
    match s
    case MethodPart(n) => "Method '" + n + "'"
    case ParamsPart(vs) => " | Params: [" + JoinComma(vs) + "]"
    case ThrewPart(n) => " | Threw Exception: " + n
    case ReturnPart(v) => " | Return: " + Display(v)
    case DurationPart(d) => " | Duration: " + Decimal.IntToString(d) + "ms"
    case CallStackPart(t) => "\nCall Stack Trace:\n" + t
    case ExceptionStackPart(t) => "\nException Stack Trace:\n" + t
  }

  /** The `StringBuilder` contents: the sections appended in order. */
  function Render(ss: seq<Section>): string
    decreases |ss|
  {
    if |ss| == 0 then "" else RenderSection(ss[0]) + Render(ss[1..])
  }

  /** A section that may appear in the layout of this call. */
  predicate Allowed(s: Section, methodName: string, args: seq<Option<string>>, outcome: Outcome,
                    duration: int, callTrace: string, exceptionTrace: string)
  {
    || s == MethodPart(methodName)
    || s == ParamsPart(args)
    || (outcome.Threw? && s == ThrewPart(outcome.failure.simpleName))
    || (outcome.Returned? && s == ReturnPart(outcome.value))
    || s == DurationPart(duration)
    || s == CallStackPart(callTrace)
    || s == ExceptionStackPart(exceptionTrace)
  }

  /** The layout rules: the method name first; the parameter list iff the front
      end's guard holds; on a throw the exception name and never a return value,
      otherwise the return value iff logReturn and the method is not void; the
      duration always; the call stack iff logStackTrace; the exception stack iff
      a throw and logException; nothing else, and no kind twice or out of order. */
  predicate Follows(r: seq<Section>, spec: Spec, methodName: string, showParams: bool,
                    args: seq<Option<string>>, outcome: Outcome, returnsVoid: bool,
                    duration: int, callTrace: string, exceptionTrace: string)
  {
    && |r| >= 2 && r[0] == MethodPart(methodName)
    && (ParamsPart(args) in r <==> showParams)
    && (outcome.Threw? ==> ThrewPart(outcome.failure.simpleName) in r)
    && (outcome.Returned? ==> (ReturnPart(outcome.value) in r <==> spec.logReturn && !returnsVoid))
    && DurationPart(duration) in r
    && (CallStackPart(callTrace) in r <==> spec.logStackTrace)
    && (ExceptionStackPart(exceptionTrace) in r <==> outcome.Threw? && spec.logException)
    && (forall i :: 0 <= i < |r| ==> Allowed(r[i], methodName, args, outcome, duration, callTrace, exceptionTrace))
    && StrictlyRanked(r)
  }

  /** Each section has a higher rank than the one before it. */
  predicate StrictlyRanked(r: seq<Section>) {
    forall i :: 0 < i < |r| ==> Rank(r[i - 1]) < Rank(r[i])
  }

  /** The sections that are present, in order. */
  function Present(cs: seq<Option<Section>>): (r: seq<Section>)
    ensures forall s :: s in r <==> Some(s) in cs
    decreases |cs|
  {
    if |cs| == 0 then []
    else
      assert forall s :: Some(s) in cs <==> cs[0] == Some(s) || Some(s) in cs[1..];
      (match cs[0] case Some(s) => [s] case None => []) + Present(cs[1..])
  }

  /** Candidates listed by rank come out strictly ordered by rank. */
  lemma {:induction false} PresentOrdered(cs: seq<Option<Section>>, base: nat)
    requires forall i :: 0 <= i < |cs| && cs[i].Some? ==> Rank(cs[i].value) == base + i
    ensures forall x :: x in Present(cs) ==> Rank(x) >= base
    ensures forall i :: 0 < i < |Present(cs)| ==> Rank(Present(cs)[i - 1]) < Rank(Present(cs)[i])
    decreases |cs|
  {
    if |cs| > 0 {
      var tail := cs[1..];
      assert forall i :: 0 <= i < |tail| && tail[i].Some? ==> Rank(tail[i].value) == (base + 1) + i by {
        forall i | 0 <= i < |tail| && tail[i].Some?
          ensures Rank(tail[i].value) == (base + 1) + i
        {
          assert tail[i] == cs[i + 1];
        }
      }
      PresentOrdered(tail, base + 1);
      forall x | x in Present(cs)
        ensures Rank(x) >= base
      {
        if x !in Present(tail) {
          assert cs[0] == Some(x);
        }
      }
    }
  }

  /** The candidate sections of one call, one per rank. */
  function Candidates(spec: Spec, methodName: string, showParams: bool, args: seq<Option<string>>,
                      outcome: Outcome, returnsVoid: bool, duration: int,
                      callTrace: string, exceptionTrace: string): seq<Option<Section>>
  {
    [
      Some(MethodPart(methodName)),
      if showParams then Some(ParamsPart(args)) else None,
      if outcome.Threw? then Some(ThrewPart(outcome.failure.simpleName)) else None,
      if outcome.Returned? && spec.logReturn && !returnsVoid then Some(ReturnPart(outcome.value)) else None,
      Some(DurationPart(duration)),
      if spec.logStackTrace then Some(CallStackPart(callTrace)) else None,
      if outcome.Threw? && spec.logException then Some(ExceptionStackPart(exceptionTrace)) else None
    ]
  }

  /** `buildLogMessage` after its custom-pattern check, with the front end's
      parameter guard and already cleaned traces. */
  function Build(spec: Spec, methodName: string, showParams: bool, args: seq<Option<string>>,
                 outcome: Outcome, returnsVoid: bool, duration: int,
                 callTrace: string, exceptionTrace: string): (r: seq<Section>)
    ensures Follows(r, spec, methodName, showParams, args, outcome, returnsVoid, duration, callTrace, exceptionTrace)
  {
    var cs := Candidates(spec, methodName, showParams, args, outcome, returnsVoid, duration, callTrace, exceptionTrace);
    CandidatesFollow(spec, methodName, showParams, args, outcome, returnsVoid, duration, callTrace, exceptionTrace);
    Present(cs)
  }

  /** A trace the flags leave out does not affect the layout. */
  lemma BuildIgnoresTraces(spec: Spec, methodName: string, showParams: bool, args: seq<Option<string>>,
                           outcome: Outcome, returnsVoid: bool, duration: int,
                           callTrace1: string, exceptionTrace1: string, callTrace2: string, exceptionTrace2: string)
    requires spec.logStackTrace ==> callTrace1 == callTrace2
    requires outcome.Threw? && spec.logException ==> exceptionTrace1 == exceptionTrace2
    ensures Build(spec, methodName, showParams, args, outcome, returnsVoid, duration, callTrace1, exceptionTrace1)
         == Build(spec, methodName, showParams, args, outcome, returnsVoid, duration, callTrace2, exceptionTrace2)
  {
    assert Candidates(spec, methodName, showParams, args, outcome, returnsVoid, duration, callTrace1, exceptionTrace1)
        == Candidates(spec, methodName, showParams, args, outcome, returnsVoid, duration, callTrace2, exceptionTrace2);
  }

  lemma CandidatesFollow(spec: Spec, methodName: string, showParams: bool, args: seq<Option<string>>,
                         outcome: Outcome, returnsVoid: bool, duration: int,
                         callTrace: string, exceptionTrace: string)
    ensures Follows(Present(Candidates(spec, methodName, showParams, args, outcome, returnsVoid, duration, callTrace, exceptionTrace)),
                    spec, methodName, showParams, args, outcome, returnsVoid, duration, callTrace, exceptionTrace)
  {
    CandidatesOrdered(spec, methodName, showParams, args, outcome, returnsVoid, duration, callTrace, exceptionTrace);
    CandidatesStart(spec, methodName, showParams, args, outcome, returnsVoid, duration, callTrace, exceptionTrace);
    CandidatesAllowed(spec, methodName, showParams, args, outcome, returnsVoid, duration, callTrace, exceptionTrace);
    CandidatesMembership(spec, methodName, showParams, args, outcome, returnsVoid, duration, callTrace, exceptionTrace);
  }

  lemma CandidatesOrdered(spec: Spec, methodName: string, showParams: bool, args: seq<Option<string>>,
                          outcome: Outcome, returnsVoid: bool, duration: int,
                          callTrace: string, exceptionTrace: string)
    ensures StrictlyRanked(Present(Candidates(spec, methodName, showParams, args, outcome, returnsVoid, duration, callTrace, exceptionTrace)))
  {
    var cs := Candidates(spec, methodName, showParams, args, outcome, returnsVoid, duration, callTrace, exceptionTrace);
    PresentOrdered(cs, 0);
  }

  lemma CandidatesStart(spec: Spec, methodName: string, showParams: bool, args: seq<Option<string>>,
                        outcome: Outcome, returnsVoid: bool, duration: int,
                        callTrace: string, exceptionTrace: string)
    ensures var r := Present(Candidates(spec, methodName, showParams, args, outcome, returnsVoid, duration, callTrace, exceptionTrace));
      |r| >= 2 && r[0] == MethodPart(methodName) && DurationPart(duration) in r
  {
    var cs := Candidates(spec, methodName, showParams, args, outcome, returnsVoid, duration, callTrace, exceptionTrace);
    CandidatesHead(cs, methodName, duration);
  }

  lemma CandidatesHead(cs: seq<Option<Section>>, methodName: string, duration: int)
    requires |cs| == 7 && cs[0] == Some(MethodPart(methodName)) && cs[4] == Some(DurationPart(duration))
    ensures |Present(cs)| >= 2 && Present(cs)[0] == MethodPart(methodName)
    ensures DurationPart(duration) in Present(cs)
  {
    var r := Present(cs);
    assert r == [MethodPart(methodName)] + Present(cs[1..]);
    assert Some(DurationPart(duration)) in cs[1..];
  }

  lemma CandidatesAllowed(spec: Spec, methodName: string, showParams: bool, args: seq<Option<string>>,
                          outcome: Outcome, returnsVoid: bool, duration: int,
                          callTrace: string, exceptionTrace: string)
    ensures var r := Present(Candidates(spec, methodName, showParams, args, outcome, returnsVoid, duration, callTrace, exceptionTrace));
      forall i :: 0 <= i < |r| ==> Allowed(r[i], methodName, args, outcome, duration, callTrace, exceptionTrace)
  {
    var cs := Candidates(spec, methodName, showParams, args, outcome, returnsVoid, duration, callTrace, exceptionTrace);
    var r := Present(cs);
    forall i | 0 <= i < |r|
      ensures Allowed(r[i], methodName, args, outcome, duration, callTrace, exceptionTrace)
    {
      assert Some(r[i]) in cs;
      var k :| 0 <= k < |cs| && cs[k] == Some(r[i]);
      CandidateAllowed(spec, methodName, showParams, args, outcome, returnsVoid, duration, callTrace, exceptionTrace, k);
    }
  }

  lemma CandidateAllowed(spec: Spec, methodName: string, showParams: bool, args: seq<Option<string>>,
                         outcome: Outcome, returnsVoid: bool, duration: int,
                         callTrace: string, exceptionTrace: string, k: nat)
    requires k < 7
    ensures var cs := Candidates(spec, methodName, showParams, args, outcome, returnsVoid, duration, callTrace, exceptionTrace);
      cs[k].Some? ==> Allowed(cs[k].value, methodName, args, outcome, duration, callTrace, exceptionTrace)
  {
  }

  lemma CandidatesMembership(spec: Spec, methodName: string, showParams: bool, args: seq<Option<string>>,
                             outcome: Outcome, returnsVoid: bool, duration: int,
                             callTrace: string, exceptionTrace: string)
    ensures var r := Present(Candidates(spec, methodName, showParams, args, outcome, returnsVoid, duration, callTrace, exceptionTrace));
      && (ParamsPart(args) in r <==> showParams)
      && (outcome.Threw? ==> ThrewPart(outcome.failure.simpleName) in r)
      && (outcome.Returned? ==> (ReturnPart(outcome.value) in r <==> spec.logReturn && !returnsVoid))
      && (CallStackPart(callTrace) in r <==> spec.logStackTrace)
      && (ExceptionStackPart(exceptionTrace) in r <==> outcome.Threw? && spec.logException)
  {
    CandidatesOutcome(spec, methodName, showParams, args, outcome, returnsVoid, duration, callTrace, exceptionTrace);
    CandidatesStacks(spec, methodName, showParams, args, outcome, returnsVoid, duration, callTrace, exceptionTrace);
  }

  lemma CandidatesOutcome(spec: Spec, methodName: string, showParams: bool, args: seq<Option<string>>,
                          outcome: Outcome, returnsVoid: bool, duration: int,
                          callTrace: string, exceptionTrace: string)
    ensures var r := Present(Candidates(spec, methodName, showParams, args, outcome, returnsVoid, duration, callTrace, exceptionTrace));
      && (ParamsPart(args) in r <==> showParams)
      && (outcome.Threw? ==> ThrewPart(outcome.failure.simpleName) in r)
      && (outcome.Returned? ==> (ReturnPart(outcome.value) in r <==> spec.logReturn && !returnsVoid))
  {
    var cs := Candidates(spec, methodName, showParams, args, outcome, returnsVoid, duration, callTrace, exceptionTrace);
    OnlyAt(cs, ParamsPart(args), 1);
    if outcome.Returned? {
      OnlyAt(cs, ReturnPart(outcome.value), 3);
    } else {
      assert cs[2] == Some(ThrewPart(outcome.failure.simpleName));
    }
  }

  lemma CandidatesStacks(spec: Spec, methodName: string, showParams: bool, args: seq<Option<string>>,
                         outcome: Outcome, returnsVoid: bool, duration: int,
                         callTrace: string, exceptionTrace: string)
    ensures var r := Present(Candidates(spec, methodName, showParams, args, outcome, returnsVoid, duration, callTrace, exceptionTrace));
      && (CallStackPart(callTrace) in r <==> spec.logStackTrace)
      && (ExceptionStackPart(exceptionTrace) in r <==> outcome.Threw? && spec.logException)
  {
    var cs := Candidates(spec, methodName, showParams, args, outcome, returnsVoid, duration, callTrace, exceptionTrace);
    OnlyAt(cs, CallStackPart(callTrace), 5);
    OnlyAt(cs, ExceptionStackPart(exceptionTrace), 6);
  }

  /** A section can only be the candidate of its own rank. */
  lemma OnlyAt(cs: seq<Option<Section>>, s: Section, k: nat)
    requires k < |cs| && Rank(s) == k
    requires forall i :: 0 <= i < |cs| && cs[i].Some? ==> Rank(cs[i].value) == i
    ensures Some(s) in cs <==> cs[k] == Some(s)
  {
  }

  lemma {:induction false} RenderContains(ss: seq<Section>, s: Section)
    requires s in ss
    ensures Contains(Render(ss), RenderSection(s))
    decreases |ss|
  {
    var rest := Render(ss[1..]);
    assert Render(ss) == RenderSection(ss[0]) + rest;
    if ss[0] == s {
      ContainsSelf(RenderSection(s));
      ContainsPrefix(RenderSection(s), rest, RenderSection(s));
    } else {
      assert s in ss[1..];
      RenderContains(ss[1..], s);
      ContainsSuffix(RenderSection(ss[0]), rest, RenderSection(s));
    }
  }

  /** The rendered default layout starts with `Method '<name>'`, always holds
      ` | Duration: <d>ms`, holds ` | Threw Exception: <simple name>` after a
      throw, and holds ` | Params: [v1, v2, ...]` iff the guard let it in. */
  lemma RenderedText(r: seq<Section>, spec: Spec, methodName: string, showParams: bool,
                     args: seq<Option<string>>, outcome: Outcome, returnsVoid: bool,
                     duration: int, callTrace: string, exceptionTrace: string)
    requires Follows(r, spec, methodName, showParams, args, outcome, returnsVoid, duration, callTrace, exceptionTrace)
    ensures ("Method '" + methodName + "'") <= Render(r)
    ensures Contains(Render(r), " | Duration: " + Decimal.IntToString(duration) + "ms")
    ensures outcome.Threw? ==> Contains(Render(r), " | Threw Exception: " + outcome.failure.simpleName)
    ensures showParams ==> Contains(Render(r), " | Params: [" + JoinComma(args) + "]")
    ensures outcome.Returned? && spec.logReturn && !returnsVoid ==> Contains(Render(r), " | Return: " + Display(outcome.value))
    ensures spec.logStackTrace ==> Contains(Render(r), "\nCall Stack Trace:\n" + callTrace)
    ensures outcome.Threw? && spec.logException ==> Contains(Render(r), "\nException Stack Trace:\n" + exceptionTrace)
  {
    RenderedHead(r, spec, methodName, showParams, args, outcome, returnsVoid, duration, callTrace, exceptionTrace);
    RenderedChosen(r, spec, methodName, showParams, args, outcome, returnsVoid, duration, callTrace, exceptionTrace);
    RenderedStacks(r, spec, methodName, showParams, args, outcome, returnsVoid, duration, callTrace, exceptionTrace);
  }

  lemma RenderedHead(r: seq<Section>, spec: Spec, methodName: string, showParams: bool,
                     args: seq<Option<string>>, outcome: Outcome, returnsVoid: bool,
                     duration: int, callTrace: string, exceptionTrace: string)
    requires Follows(r, spec, methodName, showParams, args, outcome, returnsVoid, duration, callTrace, exceptionTrace)
    ensures ("Method '" + methodName + "'") <= Render(r)
    ensures Contains(Render(r), " | Duration: " + Decimal.IntToString(duration) + "ms")
    ensures outcome.Threw? ==> Contains(Render(r), " | Threw Exception: " + outcome.failure.simpleName)
  {
    RenderContains(r, DurationPart(duration));
    if outcome.Threw? {
      RenderContains(r, ThrewPart(outcome.failure.simpleName));
    }
  }

  lemma RenderedChosen(r: seq<Section>, spec: Spec, methodName: string, showParams: bool,
                     args: seq<Option<string>>, outcome: Outcome, returnsVoid: bool,
                     duration: int, callTrace: string, exceptionTrace: string)
    requires Follows(r, spec, methodName, showParams, args, outcome, returnsVoid, duration, callTrace, exceptionTrace)
    ensures showParams ==> Contains(Render(r), " | Params: [" + JoinComma(args) + "]")
    ensures outcome.Returned? && spec.logReturn && !returnsVoid ==> Contains(Render(r), " | Return: " + Display(outcome.value))
  {
    if showParams {
      RenderContains(r, ParamsPart(args));
    }
    if outcome.Returned? && spec.logReturn && !returnsVoid {
      RenderContains(r, ReturnPart(outcome.value));
    }
  }

  lemma RenderedStacks(r: seq<Section>, spec: Spec, methodName: string, showParams: bool,
                     args: seq<Option<string>>, outcome: Outcome, returnsVoid: bool,
                     duration: int, callTrace: string, exceptionTrace: string)
    requires Follows(r, spec, methodName, showParams, args, outcome, returnsVoid, duration, callTrace, exceptionTrace)
    ensures spec.logStackTrace ==> Contains(Render(r), "\nCall Stack Trace:\n" + callTrace)
    ensures outcome.Threw? && spec.logException ==> Contains(Render(r), "\nException Stack Trace:\n" + exceptionTrace)
  {
    if spec.logStackTrace {
      RenderContains(r, CallStackPart(callTrace));
    }
    if outcome.Threw? && spec.logException {
      RenderContains(r, ExceptionStackPart(exceptionTrace));
    }
  }

  // ---------------------------------------------------------------------
  // The layout rules admit exactly one section list

  lemma {:induction false} RankedHeadLeast(r: seq<Section>, j: nat)
    requires StrictlyRanked(r) && j < |r|
    ensures Rank(r[0]) <= Rank(r[j])
    ensures j > 0 ==> Rank(r[0]) < Rank(r[j])
    decreases j
  {
    if j > 1 {
      RankedHeadLeast(r, j - 1);
    }
  }

  /** Two strictly ranked lists with the same members are the same list. */
  lemma {:induction false} SameRankedEqual(a: seq<Section>, b: seq<Section>)
    requires StrictlyRanked(a) && StrictlyRanked(b)
    requires forall x :: x in a <==> x in b
    ensures a == b
    decreases |a|
  {
    if |a| == 0 {
      FirstIn(b);
    } else {
      assert a[0] in b;
      SameHead(a, b);
      SameTailMembers(a, b);
      TailRanked(a);
      TailRanked(b);
      SameRankedEqual(a[1..], b[1..]);
      assert a == [a[0]] + a[1..] && b == [b[0]] + b[1..];
    }
  }

  lemma FirstIn(b: seq<Section>)
    ensures |b| > 0 ==> b[0] in b
  {
  }

  lemma SameHead(a: seq<Section>, b: seq<Section>)
    requires StrictlyRanked(a) && StrictlyRanked(b) && |a| > 0 && |b| > 0
    requires forall x :: x in a <==> x in b
    ensures a[0] == b[0]
  {
    assert a[0] in b;
    var k :| 0 <= k < |b| && b[k] == a[0];
    assert b[0] in a;
    var m :| 0 <= m < |a| && a[m] == b[0];
    RankedHeadLeast(b, k);
    RankedHeadLeast(a, m);
  }

  lemma SameTailMembers(a: seq<Section>, b: seq<Section>)
    requires StrictlyRanked(a) && StrictlyRanked(b) && |a| > 0 && |b| > 0 && a[0] == b[0]
    requires forall x :: x in a <==> x in b
    ensures forall x :: x in a[1..] <==> x in b[1..]
  {
    forall x
      ensures x in a[1..] ==> x in b[1..]
    {
      if x in a[1..] {
        var i :| 0 <= i < |a| - 1 && a[1..][i] == x;
        RankedHeadLeast(a, i + 1);
        assert x in b;
        var j :| 0 <= j < |b| && b[j] == x;
        assert j != 0;
        assert b[1..][j - 1] == x;
      }
    }
    forall x
      ensures x in b[1..] ==> x in a[1..]
    {
      if x in b[1..] {
        var i :| 0 <= i < |b| - 1 && b[1..][i] == x;
        RankedHeadLeast(b, i + 1);
        assert x in a;
        var j :| 0 <= j < |a| && a[j] == x;
        assert j != 0;
        assert a[1..][j - 1] == x;
      }
    }
  }

  lemma TailRanked(a: seq<Section>)
    requires StrictlyRanked(a) && |a| > 0
    ensures StrictlyRanked(a[1..])
  {
    forall i | 0 < i < |a| - 1
      ensures Rank(a[1..][i - 1]) < Rank(a[1..][i])
    {
      assert a[1..][i - 1] == a[i] && a[1..][i] == a[i + 1];
    }
  }

  /** A member of one list that follows the rules is a member of any other. */
  lemma FollowsMember(r1: seq<Section>, r2: seq<Section>, x: Section, spec: Spec, methodName: string,
                      showParams: bool, args: seq<Option<string>>, outcome: Outcome, returnsVoid: bool,
                      duration: int, callTrace: string, exceptionTrace: string)
    requires Follows(r1, spec, methodName, showParams, args, outcome, returnsVoid, duration, callTrace, exceptionTrace)
    requires Follows(r2, spec, methodName, showParams, args, outcome, returnsVoid, duration, callTrace, exceptionTrace)
    requires x in r1
    ensures x in r2
  {
    var i :| 0 <= i < |r1| && r1[i] == x;
    assert Allowed(x, methodName, args, outcome, duration, callTrace, exceptionTrace);
    if x == MethodPart(methodName) {
      assert r2[0] == x;
    }
  }

  /** The layout rules determine the section list: any two lists that follow
      them for the same call are equal, so Build is the only such list. */
  lemma FollowsUnique(r1: seq<Section>, r2: seq<Section>, spec: Spec, methodName: string,
                      showParams: bool, args: seq<Option<string>>, outcome: Outcome, returnsVoid: bool,
                      duration: int, callTrace: string, exceptionTrace: string)
    requires Follows(r1, spec, methodName, showParams, args, outcome, returnsVoid, duration, callTrace, exceptionTrace)
    requires Follows(r2, spec, methodName, showParams, args, outcome, returnsVoid, duration, callTrace, exceptionTrace)
    ensures r1 == r2
  {
    forall x
      ensures x in r1 <==> x in r2
    {
      if x in r1 {
        FollowsMember(r1, r2, x, spec, methodName, showParams, args, outcome, returnsVoid, duration, callTrace, exceptionTrace);
      }
      if x in r2 {
        FollowsMember(r2, r1, x, spec, methodName, showParams, args, outcome, returnsVoid, duration, callTrace, exceptionTrace);
      }
    }
    SameRankedEqual(r1, r2);
  }

  /** With the parameter guard false and logReturn, logStackTrace and
      logException off, the layout is the method name, the exception name
      after a throw, and the duration. */
  lemma MinimalLayout(r: seq<Section>, spec: Spec, methodName: string, args: seq<Option<string>>,
                      outcome: Outcome, returnsVoid: bool, duration: int,
                      callTrace: string, exceptionTrace: string)
    requires !spec.logReturn && !spec.logStackTrace && !spec.logException
    requires Follows(r, spec, methodName, false, args, outcome, returnsVoid, duration, callTrace, exceptionTrace)
    ensures r == [MethodPart(methodName)]
              + (if outcome.Threw? then [ThrewPart(outcome.failure.simpleName)] else [])
              + [DurationPart(duration)]
  {
    var m := [MethodPart(methodName)]
           + (if outcome.Threw? then [ThrewPart(outcome.failure.simpleName)] else [])
           + [DurationPart(duration)];
    assert Follows(m, spec, methodName, false, args, outcome, returnsVoid, duration, callTrace, exceptionTrace);
    FollowsUnique(r, m, spec, methodName, false, args, outcome, returnsVoid, duration, callTrace, exceptionTrace);
  }

  /** The text of that minimal layout. */
  lemma MinimalMessage(r: seq<Section>, spec: Spec, methodName: string, args: seq<Option<string>>,
                       outcome: Outcome, returnsVoid: bool, duration: int,
                       callTrace: string, exceptionTrace: string)
    requires !spec.logReturn && !spec.logStackTrace && !spec.logException
    requires Follows(r, spec, methodName, false, args, outcome, returnsVoid, duration, callTrace, exceptionTrace)
    ensures Render(r) == "Method '" + methodName + "'"
                       + (if outcome.Threw? then " | Threw Exception: " + outcome.failure.simpleName else "")
                       + " | Duration: " + Decimal.IntToString(duration) + "ms"
  {
    MinimalLayout(r, spec, methodName, args, outcome, returnsVoid, duration, callTrace, exceptionTrace);
    MinimalRender(methodName, outcome, duration);
  }

  lemma MinimalRender(methodName: string, outcome: Outcome, duration: int)
    ensures Render([MethodPart(methodName)]
                   + (if outcome.Threw? then [ThrewPart(outcome.failure.simpleName)] else [])
                   + [DurationPart(duration)])
         == "Method '" + methodName + "'"
            + (if outcome.Threw? then " | Threw Exception: " + outcome.failure.simpleName else "")
            + " | Duration: " + Decimal.IntToString(duration) + "ms"
  {
    if outcome.Threw? {
      assert [MethodPart(methodName)] + [ThrewPart(outcome.failure.simpleName)] + [DurationPart(duration)]
          == [MethodPart(methodName), ThrewPart(outcome.failure.simpleName), DurationPart(duration)];
      RenderThree(MethodPart(methodName), ThrewPart(outcome.failure.simpleName), DurationPart(duration));
    } else {
      assert [MethodPart(methodName)] + [] + [DurationPart(duration)] == [MethodPart(methodName), DurationPart(duration)];
      RenderTwo(MethodPart(methodName), DurationPart(duration));
    }
  }

  lemma RenderTwo(a: Section, b: Section)
    ensures Render([a, b]) == RenderSection(a) + RenderSection(b)
  {
    assert [a, b][1..] == [b];
    assert Render([b]) == RenderSection(b) + Render([]);
  }

  lemma RenderThree(a: Section, b: Section, c: Section)
    ensures Render([a, b, c]) == RenderSection(a) + RenderSection(b) + RenderSection(c)
  {
    assert [a, b, c][1..] == [b, c];
    RenderTwo(b, c);
  }
}
