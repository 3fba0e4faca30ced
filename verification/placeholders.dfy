/**
 * The placeholder language of `customLog`: literal `{...}` markers replaced
 * one after the other by chained `String.replace` calls. The three front
 * ends share the chain up to `{return}` and differ only in the trace step.
 */
module Placeholders {
  import opened Wrappers
  import opened Text
  import Decimal

  /** A parameter name as the JVM reports it: never a brace or a bracket in it. */
  predicate PlainName(n: string) {
    '{' !in n && '}' !in n && '[' !in n
  }

  function Placeholder(name: string): string {
    "{" + name + "}"
  }

  /** `"{param[" + i + "]}"`, the positional placeholder. */
  function IndexPlaceholder(i: nat): string {
    "{param[" + Decimal.NatToString(i) + "]}"
  }

  const MethodNameKey: string := "{methodName}"
  const ClassNameKey: string := "{className}"
  const ParamsKey: string := "{params}"
  const ReturnKey: string := "{return}"
  const StacktraceKey: string := "{stacktrace}"
  const ExceptionKey: string := "{exception}"

  /** A marker opened by `{`, closed by `}`, with no brace in between. */
  predicate IsPlaceholder(t: string) {
    && |t| >= 2 && t[0] == '{' && t[|t| - 1] == '}'
    && '{' !in t[1..|t| - 1] && '}' !in t[1..|t| - 1]
  }

  lemma NamedIsPlaceholder(n: string)
    requires '{' !in n && '}' !in n
    ensures IsPlaceholder(Placeholder(n))
  {
    assert Placeholder(n)[1..|n| + 1] == n;
  }

  lemma IndexIsPlaceholder(i: nat)
    ensures IsPlaceholder(IndexPlaceholder(i))
  {
    var d := Decimal.NatToString(i);
    var t := IndexPlaceholder(i);
    assert t[1..|t| - 1] == "param[" + d + "]";
    assert forall k :: 0 <= k < |d| ==> Decimal.IsDigit(d[k]);
  }

  /** A positional placeholder is never the placeholder of a plain name. */
  lemma IndexIsNotNamed(i: nat, n: string)
    requires PlainName(n)
    ensures IndexPlaceholder(i) != Placeholder(n)
  {
    var t := IndexPlaceholder(i);
    assert t[6] == '[';
    assert |n| >= 6 ==> Placeholder(n)[6] == n[5];
  }

  /** Distinct indices have distinct positional placeholders. */
  lemma IndexPlaceholderInjective(i: nat, j: nat)
    requires IndexPlaceholder(i) == IndexPlaceholder(j)
    ensures i == j
  {
    var t := IndexPlaceholder(i);
    assert t[7..|t| - 2] == Decimal.NatToString(i);
    assert IndexPlaceholder(j)[7..|t| - 2] == Decimal.NatToString(j);
    Decimal.NatToStringInjective(i, j);
  }

  lemma BraceFreeTail(p: string)
    requires IsPlaceholder(p)
    ensures '{' !in p[1..]
  {
    assert p[1..] == p[1..|p| - 1] + "}";
  }

  /** Two placeholders that both start a text are the same placeholder. */
  lemma PrefixPlaceholdersEqual(s: string, p: string, t: string)
    requires IsPlaceholder(p) && IsPlaceholder(t)
    requires p <= s && t <= s
    ensures p == t
  {
  }

  /** A placeholder never occurs inside a different placeholder. */
  lemma PlaceholderNotInOther(p: string, t: string)
    requires IsPlaceholder(p) && IsPlaceholder(t) && p != t
    ensures !Contains(p, t)
  {
    if t <= p {
      PrefixPlaceholdersEqual(p, p, t);
    }
    BraceFreeTail(p);
    NotContainsFirstChar(p[1..], t);
  }

  /** An occurrence of t in x + y lies in y when x holds no character t starts with. */
  lemma {:induction false} ContainsSkip(x: string, y: string, t: string)
    requires |t| > 0 && t[0] !in x
    requires Contains(x + y, t)
    ensures Contains(y, t)
    decreases |x|
  {
    if |x| == 0 {
      assert x + y == y;
    } else {
      assert (x + y)[0] != t[0];
      assert (x + y)[1..] == x[1..] + y;
      ContainsSkip(x[1..], y, t);
    }
  }

  /** Replacing one placeholder keeps every occurrence of another one. */
  lemma {:induction false} PlaceholderSurvives(s: string, t: string, r: string, p: string)
    requires IsPlaceholder(t) && IsPlaceholder(p) && t != p
    requires Contains(s, p)
    ensures Contains(ReplaceAll(s, t, r), p)
    decreases |s|
  {
    if t <= s {
      SurvivesAfterTarget(s, t, r, p);
    } else if p <= s {
      SurvivesAtFront(s, t, r, p);
    } else {
      PlaceholderSurvives(s[1..], t, r, p);
      ContainsSuffix([s[0]], ReplaceAll(s[1..], t, r), p);
      assert ReplaceAll(s, t, r) == [s[0]] + ReplaceAll(s[1..], t, r);
    }
  }

  /** The target t starts s: the occurrence of p lies after it. */
  lemma {:induction false} SurvivesAfterTarget(s: string, t: string, r: string, p: string)
    requires IsPlaceholder(t) && IsPlaceholder(p) && t != p
    requires Contains(s, p) && t <= s
    ensures Contains(ReplaceAll(s, t, r), p)
    decreases |s|, 0
  {
    if p <= s {
      PrefixPlaceholdersEqual(s, p, t);
    }
    BraceFreeTail(t);
    assert s[1..] == t[1..] + s[|t|..];
    ContainsSkip(t[1..], s[|t|..], p);
    PlaceholderSurvives(s[|t|..], t, r, p);
    ContainsSuffix(r, ReplaceAll(s[|t|..], t, r), p);
  }

  /** p starts s and t does not: p is copied through. */
  lemma SurvivesAtFront(s: string, t: string, r: string, p: string)
    requires IsPlaceholder(t) && IsPlaceholder(p)
    requires p <= s && !(t <= s)
    ensures Contains(ReplaceAll(s, t, r), p)
  {
    var rest := s[|p|..];
    assert s == p + rest;
    ReplaceSkipsPlaceholder(p, rest, t, r);
    ContainsSelf(p);
    ContainsPrefix(p, ReplaceAll(rest, t, r), p);
  }

  // ---------------------------------------------------------------------
  // Chains of replacements

  /** One `log = log.replace(target, value)` statement. */
  datatype Step = Step(target: string, value: string)

  /** The replacements applied in order, each to the result of the previous. */
  function ApplySteps(s: string, steps: seq<Step>): string
    decreases |steps|
  {
    if |steps| == 0 then s
    else ApplySteps(ReplaceAll(s, steps[0].target, steps[0].value), steps[1..])
  }

  predicate PlaceholderSteps(steps: seq<Step>) {
    forall i :: 0 <= i < |steps| ==> IsPlaceholder(steps[i].target)
  }

  /** No step of the chain targets p. */
  predicate Avoids(steps: seq<Step>, p: string) {
    forall i :: 0 <= i < |steps| ==> steps[i].target != p
  }

  lemma {:induction false} ApplyStepsAppend(s: string, a: seq<Step>, b: seq<Step>)
    ensures ApplySteps(s, a + b) == ApplySteps(ApplySteps(s, a), b)
    decreases |a|
  {
    if |a| == 0 {
      assert a + b == b;
    } else {
      assert (a + b)[0] == a[0];
      assert (a + b)[1..] == a[1..] + b;
      ApplyStepsAppend(ReplaceAll(s, a[0].target, a[0].value), a[1..], b);
    }
  }

  /** A placeholder no step targets survives the whole chain. */
  lemma {:induction false} StepsKeepPlaceholder(s: string, steps: seq<Step>, p: string)
    requires PlaceholderSteps(steps) && IsPlaceholder(p) && Avoids(steps, p)
    requires Contains(s, p)
    ensures Contains(ApplySteps(s, steps), p)
    decreases |steps|
  {
    if |steps| > 0 {
      PlaceholderSurvives(s, steps[0].target, steps[0].value, p);
      StepsKeepPlaceholder(ReplaceAll(s, steps[0].target, steps[0].value), steps[1..], p);
    }
  }

  /** A text made of one placeholder no step targets comes out unchanged. */
  lemma {:induction false} StepsLeavePlaceholder(steps: seq<Step>, p: string)
    requires PlaceholderSteps(steps) && IsPlaceholder(p) && Avoids(steps, p)
    ensures ApplySteps(p, steps) == p
    decreases |steps|
  {
    if |steps| > 0 {
      PlaceholderNotInOther(p, steps[0].target);
      StepsLeavePlaceholder(steps[1..], p);
    }
  }

  /** No step of the chain finds its target in the text. */
  predicate NoTargetIn(s: string, steps: seq<Step>) {
    forall i :: 0 <= i < |steps| ==> !Contains(s, steps[i].target)
  }

  /** A text holding none of the targets comes out of any chain unchanged,
      braces or not: every `replace` finds nothing to replace. */
  lemma {:induction false} StepsIdentity(s: string, steps: seq<Step>)
    requires NoTargetIn(s, steps)
    ensures ApplySteps(s, steps) == s
    decreases |steps|
  {
    if |steps| > 0 {
      var t := steps[0].target;
      assert !Contains(s, t);
      assert |t| > 0 by {
        assert Contains(s, "") by { assert "" <= s; }
      }
      assert NoTargetIn(s, steps[1..]) by {
        forall i | 0 <= i < |steps| - 1
          ensures !Contains(s, steps[1..][i].target)
        {
          assert steps[1..][i] == steps[i + 1];
        }
      }
      StepsIdentity(s, steps[1..]);
    }
  }

  /** A text without any `{` comes out of a placeholder chain unchanged. */
  lemma {:induction false} StepsLeaveText(s: string, steps: seq<Step>)
    requires PlaceholderSteps(steps) && '{' !in s
    ensures ApplySteps(s, steps) == s
    decreases |steps|
  {
    if |steps| > 0 {
      NotContainsFirstChar(s, steps[0].target);
      StepsLeaveText(s, steps[1..]);
    }
  }

  /** A text made of one placeholder p becomes the value of the first step
      targeting p, when that value holds no `{` to be rescanned. */
  lemma {:induction false} StepsFirstMatch(steps: seq<Step>, p: string, k: nat)
    requires PlaceholderSteps(steps) && IsPlaceholder(p)
    requires k < |steps| && steps[k].target == p && Avoids(steps[..k], p)
    requires '{' !in steps[k].value
    ensures ApplySteps(p, steps) == steps[k].value
    decreases k
  {
    if k == 0 {
      ReplaceAtFront(p, "", steps[0].value);
      assert p + "" == p;
      assert steps[0].value + "" == steps[0].value;
      StepsLeaveText(steps[0].value, steps[1..]);
    } else {
      assert steps[0] == steps[..k][0];
      PlaceholderNotInOther(p, steps[0].target);
      assert steps[1..][..k - 1] == steps[..k][1..];
      StepsFirstMatch(steps[1..], p, k - 1);
    }
  }

  // ---------------------------------------------------------------------
  // The positional and by-name steps of the parameter loop

  /** The steps of loop iterations from, from + 1, ...: `{param[i]}` then, when
      the method declares an i-th parameter, `{<its name>}`. */
  function ParamStepsFrom(args: seq<Option<string>>, names: seq<string>, from: nat): seq<Step>
    requires from <= |args|
    decreases |args| - from
  {
    if from == |args| then [] else ParamHead(args, names, from) + ParamStepsFrom(args, names, from + 1)
  }

  /** The steps of one loop iteration. */
  function ParamHead(args: seq<Option<string>>, names: seq<string>, i: nat): seq<Step>
    requires i < |args|
  {
    [Step(IndexPlaceholder(i), Display(args[i]))]
    + (if i < |names| then [Step(Placeholder(names[i]), Display(args[i]))] else [])
  }

  function ParamSteps(args: seq<Option<string>>, names: seq<string>): seq<Step> {
    ParamStepsFrom(args, names, 0)
  }

  predicate PlainNames(names: seq<string>) {
    forall i :: 0 <= i < |names| ==> PlainName(names[i])
  }

  /** With plain parameter names every target of the loop is a placeholder. */
  lemma {:induction false} ParamStepsArePlaceholders(args: seq<Option<string>>, names: seq<string>, from: nat)
    requires from <= |args| && PlainNames(names)
    ensures PlaceholderSteps(ParamStepsFrom(args, names, from))
    decreases |args| - from
  {
    if from < |args| {
      ParamStepsArePlaceholders(args, names, from + 1);
      IndexIsPlaceholder(from);
      if from < |names| {
        NamedIsPlaceholder(names[from]);
      }
    }
  }

  /** The loop targets the placeholder of a plain word only when the word is
      one of the parameter names. */
  lemma {:induction false} ParamStepsAvoid(args: seq<Option<string>>, names: seq<string>, from: nat, b: string)
    requires from <= |args| && PlainName(b) && b !in names
    ensures Avoids(ParamStepsFrom(args, names, from), Placeholder(b))
    decreases |args| - from
  {
    if from < |args| {
      ParamStepsAvoid(args, names, from + 1, b);
      IndexIsNotNamed(from, b);
      if from < |names| {
        assert names[from] != b;
        assert Placeholder(names[from])[1..|names[from]| + 1] == names[from];
      }
    }
  }

  /** The positional placeholder of argument i renders that argument. */
  lemma {:induction false} ParamStepsResolveIndex(args: seq<Option<string>>, names: seq<string>, from: nat, i: nat)
    requires from <= i < |args| && PlainNames(names)
    requires '{' !in Display(args[i])
    ensures ApplySteps(IndexPlaceholder(i), ParamStepsFrom(args, names, from)) == Display(args[i])
    decreases i - from
  {
    var p := IndexPlaceholder(i);
    var head := ParamHead(args, names, from);
    var tail := ParamStepsFrom(args, names, from + 1);
    ApplyStepsAppend(p, head, tail);
    if from == i {
      HeadResolvesOwnIndex(args, names, i);
      ParamStepsArePlaceholders(args, names, from + 1);
      StepsLeaveText(Display(args[i]), tail);
    } else {
      HeadLeavesOtherIndex(args, names, from, i);
      ParamStepsResolveIndex(args, names, from + 1, i);
    }
  }

  lemma HeadResolvesOwnIndex(args: seq<Option<string>>, names: seq<string>, i: nat)
    requires i < |args| && PlainNames(names)
    requires '{' !in Display(args[i])
    ensures ApplySteps(IndexPlaceholder(i), ParamHead(args, names, i)) == Display(args[i])
  {
    var p := IndexPlaceholder(i);
    var v := Display(args[i]);
    var head := ParamHead(args, names, i);
    ReplaceAtFront(p, "", v);
    assert p + "" == p;
    assert v + "" == v;
    assert ReplaceAll(p, p, v) == v;
    assert ApplySteps(p, head) == ApplySteps(v, head[1..]);
    if i < |names| {
      NamedIsPlaceholder(names[i]);
      NotContainsFirstChar(v, Placeholder(names[i]));
      assert ApplySteps(v, head[1..]) == ApplySteps(v, []);
    }
  }

  lemma HeadLeavesOtherIndex(args: seq<Option<string>>, names: seq<string>, from: nat, i: nat)
    requires from < |args| && from != i && PlainNames(names)
    ensures ApplySteps(IndexPlaceholder(i), ParamHead(args, names, from)) == IndexPlaceholder(i)
  {
    var p := IndexPlaceholder(i);
    IndexIsPlaceholder(i);
    IndexIsPlaceholder(from);
    if IndexPlaceholder(from) == p {
      IndexPlaceholderInjective(from, i);
    }
    PlaceholderNotInOther(p, IndexPlaceholder(from));
    if from < |names| {
      NamedIsPlaceholder(names[from]);
      IndexIsNotNamed(i, names[from]);
      PlaceholderNotInOther(p, Placeholder(names[from]));
    }
    var head := ParamHead(args, names, from);
    assert ApplySteps(p, head) == ApplySteps(p, head[1..]);
  }

  // ---------------------------------------------------------------------
  // The chain shared by the three formatters

  /** The chain as the three `formatCustomLog` copies write it up to
      `{return}`: `{methodName}`, `{className}`, `{params}` (behind a contains
      guard), the parameter loop's steps, then `{return}` (behind a guard). */
  function SubstituteCommon(pattern: string, methodName: string, className: string,
                            args: seq<Option<string>>, paramSteps: seq<Step>,
                            result: Option<string>): string
  {
    var named := ReplaceAll(ReplaceAll(pattern, MethodNameKey, methodName), ClassNameKey, className);
    var listed := if Contains(named, ParamsKey) then ReplaceAll(named, ParamsKey, JoinComma(args)) else named;
    var each := ApplySteps(listed, paramSteps);
    if Contains(each, ReturnKey) then ReplaceAll(each, ReturnKey, Display(result)) else each
  }

  /** The steps for `{methodName}`, `{className}` and `{params}`, ahead of the parameter loop. */
  function Builtins(methodName: string, className: string, args: seq<Option<string>>): seq<Step> {
    [Step(MethodNameKey, methodName), Step(ClassNameKey, className), Step(ParamsKey, JoinComma(args))]
  }

  /** The substitution order as a plain list, with no guards. */
  function CommonPlan(methodName: string, className: string, args: seq<Option<string>>,
                      paramSteps: seq<Step>, result: Option<string>): seq<Step>
  {
    [Step(MethodNameKey, methodName), Step(ClassNameKey, className), Step(ParamsKey, JoinComma(args))]
    + paramSteps
    + [Step(ReturnKey, Display(result))]
  }

  /** The guarded chain is exactly the unguarded plan applied in order. */
  lemma CommonFollowsPlan(pattern: string, methodName: string, className: string,
                          args: seq<Option<string>>, paramSteps: seq<Step>, result: Option<string>)
    ensures SubstituteCommon(pattern, methodName, className, args, paramSteps, result)
         == ApplySteps(pattern, CommonPlan(methodName, className, args, paramSteps, result))
  {
    var front := [Step(MethodNameKey, methodName), Step(ClassNameKey, className), Step(ParamsKey, JoinComma(args))];
    var back := [Step(ReturnKey, Display(result))];
    var named := ReplaceAll(ReplaceAll(pattern, MethodNameKey, methodName), ClassNameKey, className);
    GuardedReplace(named, ParamsKey, JoinComma(args));
    var listed := ReplaceAll(named, ParamsKey, JoinComma(args));
    assert ApplySteps(named, front[2..]) == listed;
    assert ApplySteps(ReplaceAll(pattern, MethodNameKey, methodName), front[1..]) == listed;
    assert ApplySteps(pattern, front) == listed;
    var each := ApplySteps(listed, paramSteps);
    GuardedReplace(each, ReturnKey, Display(result));
    assert ApplySteps(each, back) == ReplaceAll(each, ReturnKey, Display(result));
    ApplyStepsAppend(pattern, front, paramSteps);
    ApplyStepsAppend(pattern, front + paramSteps, back);
  }

  /** The builtin markers are placeholders, each the placeholder of its word. */
  lemma BuiltinsArePlaceholders()
    ensures IsPlaceholder(MethodNameKey) && IsPlaceholder(ClassNameKey) && IsPlaceholder(ParamsKey)
    ensures IsPlaceholder(ReturnKey) && IsPlaceholder(StacktraceKey) && IsPlaceholder(ExceptionKey)
    ensures StacktraceKey == Placeholder("stacktrace") && ExceptionKey == Placeholder("exception")
    ensures ReturnKey == Placeholder("return") && MethodNameKey == Placeholder("methodName")
    ensures ClassNameKey == Placeholder("className") && ParamsKey == Placeholder("params")
  {
    BuiltinKeysArePlaceholders();
    BuiltinKeyNames();
  }

  lemma BuiltinKeysArePlaceholders()
    ensures IsPlaceholder(MethodNameKey) && IsPlaceholder(ClassNameKey) && IsPlaceholder(ParamsKey)
    ensures IsPlaceholder(ReturnKey) && IsPlaceholder(StacktraceKey) && IsPlaceholder(ExceptionKey)
  {
  }

  lemma BuiltinKeyNames()
    ensures StacktraceKey == Placeholder("stacktrace") && ExceptionKey == Placeholder("exception")
    ensures ReturnKey == Placeholder("return") && MethodNameKey == Placeholder("methodName")
    ensures ClassNameKey == Placeholder("className") && ParamsKey == Placeholder("params")
  {
  }

  /** With placeholder parameter steps the whole plan substitutes placeholders only. */
  lemma CommonPlanArePlaceholders(methodName: string, className: string, args: seq<Option<string>>,
                                  paramSteps: seq<Step>, result: Option<string>)
    requires PlaceholderSteps(paramSteps)
    ensures PlaceholderSteps(CommonPlan(methodName, className, args, paramSteps, result))
  {
    var builtins := Builtins(methodName, className, args);
    var back := [Step(ReturnKey, Display(result))];
    assert CommonPlan(methodName, className, args, paramSteps, result) == builtins + paramSteps + back;
    BuiltinStepsArePlaceholders(methodName, className, args);
    ReturnStepIsPlaceholder(Display(result));
    PlaceholderStepsJoin(builtins, paramSteps);
    PlaceholderStepsJoin(builtins + paramSteps, back);
  }

  lemma ReturnStepIsPlaceholder(v: string)
    ensures PlaceholderSteps([Step(ReturnKey, v)])
  {
    BuiltinKeysArePlaceholders();
  }

  lemma BuiltinStepsArePlaceholders(methodName: string, className: string, args: seq<Option<string>>)
    ensures PlaceholderSteps(Builtins(methodName, className, args))
  {
    BuiltinKeysArePlaceholders();
  }

  lemma PlaceholderStepsJoin(a: seq<Step>, b: seq<Step>)
    requires PlaceholderSteps(a) && PlaceholderSteps(b)
    ensures PlaceholderSteps(a + b)
  {
    forall i | 0 <= i < |a + b|
      ensures IsPlaceholder((a + b)[i].target)
    {
      if i < |a| {
        assert (a + b)[i] == a[i];
      } else {
        assert (a + b)[i] == b[i - |a|];
      }
    }
  }

  // ---------------------------------------------------------------------
  // What the shared chain does to particular patterns

  /** A placeholder that no step of the chain targets survives it. */
  lemma CommonKeeps(pattern: string, methodName: string, className: string,
                    args: seq<Option<string>>, paramSteps: seq<Step>, result: Option<string>, p: string)
    requires PlaceholderSteps(paramSteps) && Avoids(paramSteps, p) && IsPlaceholder(p)
    requires p != MethodNameKey && p != ClassNameKey && p != ParamsKey && p != ReturnKey
    requires Contains(pattern, p)
    ensures Contains(SubstituteCommon(pattern, methodName, className, args, paramSteps, result), p)
  {
    CommonFollowsPlan(pattern, methodName, className, args, paramSteps, result);
    CommonPlanArePlaceholders(methodName, className, args, paramSteps, result);
    var builtins := Builtins(methodName, className, args);
    var back := [Step(ReturnKey, Display(result))];
    assert CommonPlan(methodName, className, args, paramSteps, result) == builtins + paramSteps + back;
    BuiltinsAvoid(methodName, className, args, p);
    AvoidsJoin(builtins, paramSteps, p);
    AvoidsJoin(builtins + paramSteps, back, p);
    StepsKeepPlaceholder(pattern, builtins + paramSteps + back, p);
  }

  /** The builtin steps target only the three builtin markers. */
  lemma BuiltinsAvoid(methodName: string, className: string, args: seq<Option<string>>, p: string)
    requires p != MethodNameKey && p != ClassNameKey && p != ParamsKey
    ensures Avoids(Builtins(methodName, className, args), p)
  {
  }

  lemma AvoidsJoin(a: seq<Step>, b: seq<Step>, p: string)
    requires Avoids(a, p) && Avoids(b, p)
    ensures Avoids(a + b, p)
  {
    forall i | 0 <= i < |a + b|
      ensures (a + b)[i].target != p
    {
      if i < |a| {
        assert (a + b)[i] == a[i];
      } else {
        assert (a + b)[i] == b[i - |a|];
      }
    }
  }

  /** The `{return}` step leaves any other placeholder alone. */
  lemma ReturnStepLeaves(p: string, v: string)
    requires IsPlaceholder(p) && p != ReturnKey
    ensures ApplySteps(p, [Step(ReturnKey, v)]) == p
  {
    BuiltinsArePlaceholders();
    StepsLeavePlaceholder([Step(ReturnKey, v)], p);
  }

  /** `{stacktrace}` and `{exception}` survive the parameter loop when no
      parameter bears their name. */
  lemma CommonKeepsTraceKey(pattern: string, methodName: string, className: string,
                            args: seq<Option<string>>, names: seq<string>, result: Option<string>, b: string)
    requires b == "stacktrace" || b == "exception"
    requires PlainNames(names) && b !in names
    requires Contains(pattern, Placeholder(b))
    ensures Contains(SubstituteCommon(pattern, methodName, className, args, ParamSteps(args, names), result), Placeholder(b))
  {
    BuiltinsArePlaceholders();
    ParamStepsArePlaceholders(args, names, 0);
    ParamStepsAvoid(args, names, 0, b);
    CommonKeeps(pattern, methodName, className, args, ParamSteps(args, names), result, Placeholder(b));
  }

  /** A pattern without an opening brace comes out of the chain verbatim. */
  lemma CommonLeavesText(pattern: string, methodName: string, className: string,
                         args: seq<Option<string>>, paramSteps: seq<Step>, result: Option<string>)
    requires PlaceholderSteps(paramSteps) && '{' !in pattern
    ensures SubstituteCommon(pattern, methodName, className, args, paramSteps, result) == pattern
  {
    CommonFollowsPlan(pattern, methodName, className, args, paramSteps, result);
    CommonPlanArePlaceholders(methodName, className, args, paramSteps, result);
    StepsLeaveText(pattern, CommonPlan(methodName, className, args, paramSteps, result));
  }

  /** `{methodName}` is replaced first, so it renders the method name even
      when a parameter is called `methodName`. */
  lemma CommonMethodNameFirst(methodName: string, className: string,
                              args: seq<Option<string>>, paramSteps: seq<Step>, result: Option<string>)
    requires PlaceholderSteps(paramSteps) && '{' !in methodName
    ensures SubstituteCommon(MethodNameKey, methodName, className, args, paramSteps, result) == methodName
  {
    var plan := CommonPlan(methodName, className, args, paramSteps, result);
    CommonFollowsPlan(MethodNameKey, methodName, className, args, paramSteps, result);
    CommonPlanArePlaceholders(methodName, className, args, paramSteps, result);
    ReplaceAtFront(MethodNameKey, "", methodName);
    assert ReplaceAll(MethodNameKey, MethodNameKey, methodName) == methodName;
    assert PlaceholderSteps(plan[1..]) by {
      forall i | 0 <= i < |plan| - 1
        ensures IsPlaceholder(plan[1..][i].target)
      {
        assert plan[1..][i] == plan[i + 1];
      }
    }
    StepsLeaveText(methodName, plan[1..]);
  }

  /** `{return}` renders the result, null included, when no parameter step
      targets it. */
  lemma CommonRendersReturn(methodName: string, className: string,
                            args: seq<Option<string>>, paramSteps: seq<Step>, result: Option<string>)
    requires PlaceholderSteps(paramSteps) && Avoids(paramSteps, ReturnKey)
    ensures SubstituteCommon(ReturnKey, methodName, className, args, paramSteps, result) == Display(result)
  {
    var front := Builtins(methodName, className, args) + paramSteps;
    var back := [Step(ReturnKey, Display(result))];
    CommonFollowsPlan(ReturnKey, methodName, className, args, paramSteps, result);
    assert CommonPlan(methodName, className, args, paramSteps, result) == front + back;
    ApplyStepsAppend(ReturnKey, front, back);
    BuiltinsArePlaceholders();
    CommonFrontLeaves(ReturnKey, methodName, className, args, paramSteps);
    ReplaceAtFront(ReturnKey, "", Display(result));
    assert ReturnKey + "" == ReturnKey;
    assert ApplySteps(ReturnKey, back) == ApplySteps(ReplaceAll(ReturnKey, ReturnKey, Display(result)), []);
  }

  /** The steps before `{return}` leave a placeholder alone when none of them
      targets it. */
  lemma CommonFrontLeaves(p: string, methodName: string, className: string,
                          args: seq<Option<string>>, paramSteps: seq<Step>)
    requires PlaceholderSteps(paramSteps) && Avoids(paramSteps, p) && IsPlaceholder(p)
    requires p != MethodNameKey && p != ClassNameKey && p != ParamsKey
    ensures ApplySteps(p, Builtins(methodName, className, args) + paramSteps) == p
  {
    var builtins := Builtins(methodName, className, args);
    BuiltinStepsArePlaceholders(methodName, className, args);
    PlaceholderStepsJoin(builtins, paramSteps);
    BuiltinsAvoid(methodName, className, args, p);
    AvoidsJoin(builtins, paramSteps, p);
    StepsLeavePlaceholder(builtins + paramSteps, p);
  }

  /** The chain in its three parts: the builtin steps, the parameter steps, `{return}`. */
  lemma CommonInParts(pattern: string, methodName: string, className: string,
                      args: seq<Option<string>>, paramSteps: seq<Step>, result: Option<string>)
    ensures SubstituteCommon(pattern, methodName, className, args, paramSteps, result)
         == ApplySteps(ApplySteps(ApplySteps(pattern, Builtins(methodName, className, args)), paramSteps),
                       [Step(ReturnKey, Display(result))])
  {
    var builtins := Builtins(methodName, className, args);
    var back := [Step(ReturnKey, Display(result))];
    CommonFollowsPlan(pattern, methodName, className, args, paramSteps, result);
    assert CommonPlan(methodName, className, args, paramSteps, result) == builtins + paramSteps + back;
    ApplyStepsAppend(pattern, builtins + paramSteps, back);
    ApplyStepsAppend(pattern, builtins, paramSteps);
  }

  /** Whatever the parameter names, `{param[i]}` renders the i-th argument. */
  lemma CommonResolvesIndex(methodName: string, className: string, args: seq<Option<string>>,
                            names: seq<string>, result: Option<string>, i: nat)
    requires i < |args| && PlainNames(names) && '{' !in Display(args[i])
    ensures SubstituteCommon(IndexPlaceholder(i), methodName, className, args, ParamSteps(args, names), result)
         == Display(args[i])
  {
    var p := IndexPlaceholder(i);
    CommonInParts(p, methodName, className, args, ParamSteps(args, names), result);
    IndexLeftByBuiltins(methodName, className, args, i);
    ParamStepsResolveIndex(args, names, 0, i);
    BuiltinsArePlaceholders();
    StepsLeaveText(Display(args[i]), [Step(ReturnKey, Display(result))]);
  }

  lemma IndexLeftByBuiltins(methodName: string, className: string, args: seq<Option<string>>, i: nat)
    ensures ApplySteps(IndexPlaceholder(i), Builtins(methodName, className, args)) == IndexPlaceholder(i)
  {
    BuiltinsArePlaceholders();
    IndexIsPlaceholder(i);
    IndexIsNotNamed(i, "methodName");
    IndexIsNotNamed(i, "className");
    IndexIsNotNamed(i, "params");
    StepsLeavePlaceholder(Builtins(methodName, className, args), IndexPlaceholder(i));
  }

  lemma PlaceholderInjective(n: string, m: string)
    ensures Placeholder(n) == Placeholder(m) ==> n == m
  {
    if Placeholder(n) == Placeholder(m) {
      assert Placeholder(n)[1..|n| + 1] == n;
      assert Placeholder(m)[1..|m| + 1] == m;
    }
  }

  /** The builtin steps leave the placeholder of any other plain name alone. */
  lemma NamedLeftByBuiltins(methodName: string, className: string, args: seq<Option<string>>, n: string)
    requires PlainName(n) && n != "methodName" && n != "className" && n != "params"
    ensures ApplySteps(Placeholder(n), Builtins(methodName, className, args)) == Placeholder(n)
  {
    BuiltinStepsArePlaceholders(methodName, className, args);
    BuiltinKeyNames();
    NamedIsPlaceholder(n);
    PlaceholderInjective(n, "methodName");
    PlaceholderInjective(n, "className");
    PlaceholderInjective(n, "params");
    StepsLeavePlaceholder(Builtins(methodName, className, args), Placeholder(n));
  }

  /** Without a parameter loop `{param[i]}` is left in the message. */
  lemma CommonLeavesIndex(methodName: string, className: string, args: seq<Option<string>>,
                          result: Option<string>, i: nat)
    ensures SubstituteCommon(IndexPlaceholder(i), methodName, className, args, [], result) == IndexPlaceholder(i)
  {
    var p := IndexPlaceholder(i);
    CommonInParts(p, methodName, className, args, [], result);
    IndexLeftByBuiltins(methodName, className, args, i);
    IndexIsPlaceholder(i);
    IndexIsNotNamed(i, "return");
    ReturnKeyIsNamed();
    ReturnStepLeaves(p, Display(result));
  }

  lemma ReturnKeyIsNamed()
    ensures ReturnKey == Placeholder("return")
  {
  }

  /** A placeholder no step targets comes out of the chain unchanged. */
  lemma CommonLeavesPlaceholder(p: string, methodName: string, className: string,
                                args: seq<Option<string>>, paramSteps: seq<Step>, result: Option<string>)
    requires PlaceholderSteps(paramSteps) && Avoids(paramSteps, p) && IsPlaceholder(p)
    requires p != MethodNameKey && p != ClassNameKey && p != ParamsKey && p != ReturnKey
    ensures SubstituteCommon(p, methodName, className, args, paramSteps, result) == p
  {
    CommonInParts(p, methodName, className, args, paramSteps, result);
    CommonFrontLeaves(p, methodName, className, args, paramSteps);
    ApplyStepsAppend(p, Builtins(methodName, className, args), paramSteps);
    ReturnStepLeaves(p, Display(result));
  }

  // ---------------------------------------------------------------------
  // Patterns as literal text and placeholders

  /** A piece of a pattern: brace-free text, or one placeholder. */
  datatype Token = Chars(text: string) | Marker(placeholder: string)

  predicate WellFormed(ts: seq<Token>) {
    forall i :: 0 <= i < |ts| ==>
      match ts[i]
      case Chars(x) => '{' !in x
      case Marker(p) => IsPlaceholder(p)
  }

  function TokenText(k: Token): string {
    match k
    case Chars(x) => x
    case Marker(p) => p
  }

  /** The pattern text the tokens spell. */
  function Concat(ts: seq<Token>): string
    decreases |ts|
  {
    if |ts| == 0 then "" else TokenText(ts[0]) + Concat(ts[1..])
  }

  lemma {:induction false} ConcatSnoc(ts: seq<Token>, k: Token)
    ensures Concat(ts + [k]) == Concat(ts) + TokenText(k)
    decreases |ts|
  {
    if |ts| == 0 {
      assert ts + [k] == [k];
    } else {
      assert (ts + [k])[1..] == ts[1..] + [k];
      ConcatSnoc(ts[1..], k);
    }
  }

  lemma ConcatSix(a: Token, b: Token, c: Token, d: Token, e: Token, f: Token)
    ensures Concat([a, b, c, d, e, f])
         == TokenText(a) + TokenText(b) + TokenText(c) + TokenText(d) + TokenText(e) + TokenText(f)
  {
    ConcatThree(a, b, c);
    ConcatLast([a, b, c], d);
    assert [a, b, c] + [d] == [a, b, c, d];
    ConcatLast([a, b, c, d], e);
    assert [a, b, c, d] + [e] == [a, b, c, d, e];
    ConcatLast([a, b, c, d, e], f);
    assert [a, b, c, d, e] + [f] == [a, b, c, d, e, f];
  }

  lemma ConcatThree(a: Token, b: Token, c: Token)
    ensures Concat([a, b, c]) == TokenText(a) + TokenText(b) + TokenText(c)
  {
    assert [a][1..] == [];
    assert Concat([a]) == TokenText(a) + "";
    ConcatLast([a], b);
    assert [a] + [b] == [a, b];
    ConcatLast([a, b], c);
    assert [a, b] + [c] == [a, b, c];
  }

  lemma ConcatLast(ts: seq<Token>, k: Token)
    ensures Concat(ts + [k]) == Concat(ts) + TokenText(k)
  {
    ConcatSnoc(ts, k);
  }

  /** Every marker equal to t becomes the text r. */
  function Fill(ts: seq<Token>, t: string, r: string): (res: seq<Token>)
    ensures |res| == |ts|
    ensures forall i :: 0 <= i < |ts| ==> res[i] == (if ts[i] == Marker(t) then Chars(r) else ts[i])
    decreases |ts|
  {
    if |ts| == 0 then []
    else [if ts[0] == Marker(t) then Chars(r) else ts[0]] + Fill(ts[1..], t, r)
  }

  /** Tokens without a marker for t are left as they are. */
  lemma FillNoMarker(ts: seq<Token>, t: string, r: string)
    requires Marker(t) !in ts
    ensures Fill(ts, t, r) == ts
  {
    var res := Fill(ts, t, r);
    forall i | 0 <= i < |ts|
      ensures res[i] == ts[i]
    {
      assert ts[i] != Marker(t);
    }
  }

  /** The steps applied to the tokens, one after the other. */
  function FillSteps(ts: seq<Token>, steps: seq<Step>): seq<Token>
    decreases |steps|
  {
    if |steps| == 0 then ts else FillSteps(Fill(ts, steps[0].target, steps[0].value), steps[1..])
  }

  /** A placeholder different from t, followed by anything, is copied through. */
  lemma ReplaceSkipsPlaceholder(p: string, y: string, t: string, r: string)
    requires IsPlaceholder(p) && IsPlaceholder(t) && p != t
    ensures ReplaceAll(p + y, t, r) == p + ReplaceAll(y, t, r)
  {
    OtherNotPrefix(p, y, t);
    BraceFreeTail(p);
    ReplaceSkipHead(p, y, t, r);
    ReplaceSkips(p[1..], y, t, r);
    PrependFirst(p, ReplaceAll(y, t, r));
  }

  lemma OtherNotPrefix(p: string, y: string, t: string)
    requires IsPlaceholder(p) && IsPlaceholder(t) && p != t
    ensures !(t <= p + y)
  {
    if t <= p + y {
      PrefixPlaceholdersEqual(p + y, p, t);
    }
  }

  /** `replace(t, r)` on a well-formed pattern replaces exactly its t markers. */
  lemma {:induction false} ReplaceTokens(ts: seq<Token>, t: string, r: string)
    requires WellFormed(ts) && IsPlaceholder(t)
    ensures ReplaceAll(Concat(ts), t, r) == Concat(Fill(ts, t, r))
    decreases |ts|
  {
    if |ts| > 0 {
      var rest := Concat(ts[1..]);
      assert WellFormed(ts[1..]) by {
        forall i | 0 <= i < |ts| - 1
          ensures match ts[1..][i] case Chars(x) => '{' !in x case Marker(p) => IsPlaceholder(p)
        {
          assert ts[1..][i] == ts[i + 1];
        }
      }
      ReplaceTokens(ts[1..], t, r);
      assert match ts[0] case Chars(x) => '{' !in x case Marker(p) => IsPlaceholder(p);
      match ts[0]
      case Chars(x) =>
        ReplaceSkips(x, rest, t, r);
      case Marker(p) =>
        if p == t {
          ReplaceAtFront(t, rest, r);
        } else {
          ReplaceSkipsPlaceholder(p, rest, t, r);
        }
    }
  }

  lemma {:induction false} FillWellFormed(ts: seq<Token>, t: string, r: string)
    requires WellFormed(ts) && '{' !in r
    ensures WellFormed(Fill(ts, t, r))
    decreases |ts|
  {
    if |ts| > 0 {
      assert WellFormed(ts[1..]) by {
        forall i | 0 <= i < |ts| - 1
          ensures match ts[1..][i] case Chars(x) => '{' !in x case Marker(p) => IsPlaceholder(p)
        {
          assert ts[1..][i] == ts[i + 1];
        }
      }
      FillWellFormed(ts[1..], t, r);
      var f := Fill(ts, t, r);
      assert match ts[0] case Chars(x) => '{' !in x case Marker(p) => IsPlaceholder(p);
      forall i | 0 <= i < |f|
        ensures match f[i] case Chars(x) => '{' !in x case Marker(p) => IsPlaceholder(p)
      {
        if i > 0 {
          assert f[i] == Fill(ts[1..], t, r)[i - 1];
        }
      }
    }
  }

  /** A chain of replacements by brace-free values on a well-formed pattern
      fills the markers step by step. */
  lemma {:induction false} ApplyStepsTokens(ts: seq<Token>, steps: seq<Step>)
    requires WellFormed(ts) && PlaceholderSteps(steps)
    requires forall i :: 0 <= i < |steps| ==> '{' !in steps[i].value
    ensures ApplySteps(Concat(ts), steps) == Concat(FillSteps(ts, steps))
    decreases |steps|
  {
    if |steps| > 0 {
      ReplaceTokens(ts, steps[0].target, steps[0].value);
      FillWellFormed(ts, steps[0].target, steps[0].value);
      assert forall i :: 0 <= i < |steps| - 1 ==> steps[1..][i] == steps[i + 1];
      ApplyStepsTokens(Fill(ts, steps[0].target, steps[0].value), steps[1..]);
    }
  }

  /** Tokens that are all text spell a text without `{`. */
  lemma {:induction false} CharsOnly(ts: seq<Token>)
    requires WellFormed(ts) && forall i :: 0 <= i < |ts| ==> ts[i].Chars?
    ensures '{' !in Concat(ts)
    decreases |ts|
  {
    if |ts| > 0 {
      assert WellFormed(ts[1..]) by {
        forall i | 0 <= i < |ts| - 1
          ensures match ts[1..][i] case Chars(x) => '{' !in x case Marker(p) => IsPlaceholder(p)
        {
          assert ts[1..][i] == ts[i + 1];
        }
      }
      CharsOnly(ts[1..]);
      assert '{' !in ts[0].text;
    }
  }
}
