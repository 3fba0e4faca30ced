/**
 * The four annotated methods of the test service run through the ByteBuddy
 * interceptor, with the messages their tests look for: parameters and return
 * value, a thrown exception with its trace, the call trace, and a custom
 * pattern, which the advice and the aspect render the same way.
 */
module ServiceExamples {
  import opened Wrappers
  import opened Text
  import opened Lines
  import opened LogCall
  import opened Runtime
  import opened Placeholders
  import Decimal
  import opened Interceptor
  import Advice
  import Aspect

  /** `simpleLog("Test", 123)`, annotated at INFO with parameters and return value. */
  const SimpleLogSpec: Spec := Spec(Info, true, true, false, false, "")
  const SimpleLogCall: Invocation :=
    Invocation("simpleLog", "TestService", ["param1", "param2"], [Some("Test"), Some("123")], false, None)

  lemma SimpleLogExample(duration: int, callTrace: string)
    ensures var msg := BuildLogMessage(SimpleLogSpec, SimpleLogCall, Returned(Some("OK-Test")), duration, callTrace);
      && "Method '" + "simpleLog" + "'" <= msg
      && Contains(msg, " | Params: [" + ("Test" + ", " + "123") + "]")
      && Contains(msg, " | Return: " + "OK-Test")
  {
    ParamsAndReturnShown(SimpleLogSpec, SimpleLogCall, Some("OK-Test"), duration, callTrace);
    JoinCommaPair("Test", "123");
  }

  /** `exceptionLog("fail")` with logException, throwing
      `IllegalStateException("Test Exception")`. */
  const ExceptionLogSpec: Spec := Spec(Warn, false, false, false, true, "")
  const ExceptionLogCall: Invocation := Invocation("exceptionLog", "TestService", ["input"], [Some("fail")], true, None)
  /** The first line of that exception's printed trace. */
  const ExceptionHeadLine: string := "java.lang." + "IllegalState" + "Exception: " + "Test Exception"

  lemma ExceptionHeadLineKept()
    ensures KeepFrame(ExceptionHeadLine)
  {
    HeadLineHasNoM();
    HeadLineHasNoB();
    assert InterceptFrame[2] == 'm' && ByteBuddyFrame[4] == 'b';
    NotContainsChar(ExceptionHeadLine, InterceptFrame, 'm');
    NotContainsChar(ExceptionHeadLine, ByteBuddyFrame, 'b');
  }

  lemma HeadLineHasNoM()
    ensures 'm' !in ExceptionHeadLine
  {
    assert 'm' !in "java.lang." && 'm' !in "IllegalState" && 'm' !in "Exception: " && 'm' !in "Test Exception";
  }

  lemma HeadLineHasNoB()
    ensures 'b' !in ExceptionHeadLine
  {
    assert 'b' !in "java.lang." && 'b' !in "IllegalState" && 'b' !in "Exception: " && 'b' !in "Test Exception";
  }

  /** The exception's name, the stack section and the trace's first line are
      in the message. */
  lemma ExceptionLogExample(trace: string, duration: int, callTrace: string)
    requires ExceptionHeadLine in SplitLines(trace)
    ensures var msg := BuildLogMessage(ExceptionLogSpec, ExceptionLogCall,
                                       Threw(Failure("IllegalStateException", Some("Test Exception"), trace)),
                                       duration, callTrace);
      && Contains(msg, " | Threw Exception: " + "IllegalStateException")
      && Contains(msg, "\nException Stack Trace:\n")
      && Contains(msg, ExceptionHeadLine)
  {
    ExceptionHeadLineKept();
    ExceptionShown(ExceptionLogSpec, ExceptionLogCall, Failure("IllegalStateException", Some("Test Exception"), trace),
                   duration, callTrace, ExceptionHeadLine);
  }

  /** The custom pattern of the test service, as text and placeholders. */
  const CustomPattern: string := "Custom log for " + MethodNameKey + " with param " + "{p1}" + " and return " + ReturnKey
  const CustomTokens: seq<Token> := [Chars("Custom log for "), Marker(MethodNameKey), Chars(" with param "),
                                     Marker("{p1}"), Chars(" and return "), Marker(ReturnKey)]
  /** The message that pattern gives for `customLog("ParameterValue")`. */
  const CustomMessage: string := "Custom log for " + "customLog" + " with param " + "ParameterValue"
                                 + " and return " + "CustomReturn"

  lemma CustomTokensSpell()
    ensures Concat(CustomTokens) == CustomPattern
  {
    var ts := CustomTokens;
    ConcatSix(ts[0], ts[1], ts[2], ts[3], ts[4], ts[5]);
  }

  lemma CustomTokensWellFormed()
    ensures WellFormed(CustomTokens)
  {
    BuiltinsArePlaceholders();
    NamedIsPlaceholder("p1");
    assert Placeholder("p1") == "{p1}";
    CustomTextsBraceFree();
  }

  lemma CustomTextsBraceFree()
    ensures '{' !in "Custom log for " && '{' !in " with param " && '{' !in " and return "
  {
  }

  /** The substitution plan of that call. */
  const CustomPlan: seq<Step> := [Step(MethodNameKey, "customLog"), Step(ClassNameKey, "TestService"),
                                  Step(ParamsKey, "ParameterValue"), Step("{param[0]}", "ParameterValue"),
                                  Step("{p1}", "ParameterValue"), Step(ReturnKey, "CustomReturn")]

  lemma CustomPlanIsCommon()
    ensures CommonPlan("customLog", "TestService", [Some("ParameterValue")],
                       ParamSteps([Some("ParameterValue")], ["p1"]), Some("CustomReturn")) == CustomPlan
  {
    var args := [Some("ParameterValue")];
    assert Decimal.NatToString(0) == "0";
    assert IndexPlaceholder(0) == "{param[0]}";
    assert ParamStepsFrom(args, ["p1"], 1) == [];
    assert IndexPlaceholder(0) == "{param[0]}";
    assert Placeholder("p1") == "{p1}";
    assert Placeholder("p1") == "{p1}" && Display(args[0]) == "ParameterValue";
    assert ParamHead(args, ["p1"], 0) == [Step("{param[0]}", "ParameterValue"), Step("{p1}", "ParameterValue")];
    assert ParamSteps(args, ["p1"]) == [Step("{param[0]}", "ParameterValue"), Step("{p1}", "ParameterValue")];
    JoinCommaOne("ParameterValue");
  }

  lemma CustomPlanFacts()
    ensures PlaceholderSteps(CustomPlan)
    ensures forall i :: 0 <= i < |CustomPlan| ==> '{' !in CustomPlan[i].value
  {
    CustomPlanTargets();
    assert '{' !in "customLog" && '{' !in "TestService" && '{' !in "ParameterValue" && '{' !in "CustomReturn";
  }

  lemma CustomPlanTargets()
    ensures PlaceholderSteps(CustomPlan)
  {
    BuiltinsArePlaceholders();
    IndexIsPlaceholder(0);
    assert Decimal.NatToString(0) == "0";
    assert IndexPlaceholder(0) == "{param[0]}";
    NamedIsPlaceholder("p1");
    assert Placeholder("p1") == "{p1}";
  }

  /** The tokens after each step of that plan that changes something. */
  const NameFilled: seq<Token> := [Chars("Custom log for "), Chars("customLog"), Chars(" with param "),
                                   Marker("{p1}"), Chars(" and return "), Marker(ReturnKey)]
  const ParamFilled: seq<Token> := [Chars("Custom log for "), Chars("customLog"), Chars(" with param "),
                                    Chars("ParameterValue"), Chars(" and return "), Marker(ReturnKey)]
  const AllFilled: seq<Token> := [Chars("Custom log for "), Chars("customLog"), Chars(" with param "),
                                  Chars("ParameterValue"), Chars(" and return "), Chars("CustomReturn")]

  lemma FillName()
    ensures Fill(CustomTokens, MethodNameKey, "customLog") == NameFilled
  {
  }

  lemma FillAbsentKeys()
    ensures Fill(NameFilled, ClassNameKey, "TestService") == NameFilled
    ensures Fill(NameFilled, ParamsKey, "ParameterValue") == NameFilled
    ensures Fill(NameFilled, "{param[0]}", "ParameterValue") == NameFilled
  {
    FillAbsent(ClassNameKey, "TestService");
    FillAbsent(ParamsKey, "ParameterValue");
    FillAbsent("{param[0]}", "ParameterValue");
  }

  /** A key other than the two markers left leaves the tokens unchanged. */
  lemma FillAbsent(t: string, r: string)
    requires t != "{p1}" && t != ReturnKey
    ensures Fill(NameFilled, t, r) == NameFilled
  {
    assert Marker(t) !in NameFilled;
    FillNoMarker(NameFilled, t, r);
  }

  lemma FillParamAndReturn()
    ensures Fill(NameFilled, "{p1}", "ParameterValue") == ParamFilled
    ensures Fill(ParamFilled, ReturnKey, "CustomReturn") == AllFilled
  {
  }

  /** The plan fills the three markers and leaves the text around them. */
  lemma CustomFill()
    ensures FillSteps(CustomTokens, CustomPlan) == AllFilled
  {
    var p := CustomPlan;
    FillName();
    FillAbsentKeys();
    FillParamAndReturn();
    assert FillSteps(CustomTokens, p) == FillSteps(NameFilled, p[1..]);
    assert FillSteps(NameFilled, p[1..]) == FillSteps(NameFilled, p[2..]);
    assert FillSteps(NameFilled, p[2..]) == FillSteps(NameFilled, p[3..]);
    assert FillSteps(NameFilled, p[3..]) == FillSteps(NameFilled, p[4..]);
    assert FillSteps(NameFilled, p[4..]) == FillSteps(ParamFilled, p[5..]);
    assert FillSteps(ParamFilled, p[5..]) == FillSteps(AllFilled, p[6..]);
  }

  lemma AllFilledText()
    ensures Concat(AllFilled) == CustomMessage && '{' !in CustomMessage
  {
    var ts := AllFilled;
    AllFilledWellFormed();
    CharsOnly(ts);
    ConcatSix(ts[0], ts[1], ts[2], ts[3], ts[4], ts[5]);
  }

  lemma AllFilledWellFormed()
    ensures WellFormed(AllFilled)
  {
    CustomTextsBraceFree();
    assert '{' !in "customLog" && '{' !in "ParameterValue" && '{' !in "CustomReturn";
  }

  /** `customLog("ParameterValue")` returning `CustomReturn`. */
  const CustomCall: Invocation := Invocation("customLog", "TestService", ["p1"], [Some("ParameterValue")], false, None)

  /** The chain shared by the three front ends turns the pattern into the
      expected message. */
  lemma CustomChain()
    ensures SubstituteCommon(CustomPattern, "customLog", "TestService", [Some("ParameterValue")],
                             ParamSteps([Some("ParameterValue")], ["p1"]), Some("CustomReturn"))
         == CustomMessage
    ensures !Contains(CustomMessage, StacktraceKey) && !Contains(CustomMessage, ExceptionKey)
  {
    var args := [Some("ParameterValue")];
    CustomPlanIsCommon();
    CommonFollowsPlan(CustomPattern, "customLog", "TestService", args, ParamSteps(args, ["p1"]), Some("CustomReturn"));
    CustomTokensSpell();
    CustomTokensWellFormed();
    CustomPlanFacts();
    ApplyStepsTokens(CustomTokens, CustomPlan);
    CustomFill();
    AllFilledText();
    NotContainsFirstChar(CustomMessage, StacktraceKey);
    NotContainsFirstChar(CustomMessage, ExceptionKey);
  }

  /** The interceptor logs exactly the expected message. */
  lemma CustomLogExample(duration: int, callTrace: string)
    ensures BuildLogMessage(Spec(Warn, false, false, false, false, CustomPattern), CustomCall,
                            Returned(Some("CustomReturn")), duration, callTrace)
         == CustomMessage
  {
    CustomChain();
  }

  /** So does the advice. */
  lemma AdviceCustomLogExample(duration: int, callTrace: string)
    ensures Advice.BuildLogMessage(Spec(Warn, false, false, false, false, CustomPattern), CustomCall,
                                   Returned(Some("CustomReturn")), duration, callTrace)
         == CustomMessage
  {
    CustomChain();
  }

  /** So does the aspect, given the parameter names. */
  lemma AspectCustomLogExample(duration: int, callTrace: string, frames: seq<Option<string>>)
    ensures Aspect.BuildLogMessage(Spec(Warn, false, false, false, false, CustomPattern),
                                   Aspect.JoinPoint("customLog", "TestService", Some(["p1"]), [Some("ParameterValue")], false),
                                   Returned(Some("CustomReturn")), duration, callTrace, frames)
         == CustomMessage
  {
    CustomChain();
  }

  /** Replacement is sequential: a parameter whose text is `{return}` is
      itself replaced by the return value. */
  lemma ParameterTextRescanned(duration: int, callTrace: string)
    ensures BuildLogMessage(Spec(Warn, false, false, false, false, "{p1}"),
                            Invocation("customLog", "TestService", ["p1"], [Some(ReturnKey)], false, None),
                            Returned(Some("R")), duration, callTrace)
         == "R"
  {
    var args := [Some(ReturnKey)];
    CommonInParts("{p1}", "customLog", "TestService", args, ParamSteps(args, ["p1"]), Some("R"));
    RescanBuiltins();
    RescanSteps();
    RescanParam();
    RescanReturn();
    NotContainsFirstChar("R", StacktraceKey);
    NotContainsFirstChar("R", ExceptionKey);
  }

  lemma RescanBuiltins()
    ensures ApplySteps("{p1}", Builtins("customLog", "TestService", [Some(ReturnKey)])) == "{p1}"
  {
    assert Placeholder("p1") == "{p1}";
    NamedLeftByBuiltins("customLog", "TestService", [Some(ReturnKey)], "p1");
  }

  lemma RescanSteps()
    ensures ParamSteps([Some(ReturnKey)], ["p1"]) == [Step("{param[0]}", ReturnKey), Step("{p1}", ReturnKey)]
  {
    var args := [Some(ReturnKey)];
    assert Decimal.NatToString(0) == "0";
    assert ParamStepsFrom(args, ["p1"], 1) == [];
    assert IndexPlaceholder(0) == "{param[0]}";
    assert Placeholder("p1") == "{p1}";
    assert ParamHead(args, ["p1"], 0) == [Step("{param[0]}", ReturnKey), Step("{p1}", ReturnKey)];
  }

  lemma RescanParam()
    ensures ApplySteps("{p1}", [Step("{param[0]}", ReturnKey), Step("{p1}", ReturnKey)]) == ReturnKey
  {
    var steps := [Step("{param[0]}", ReturnKey), Step("{p1}", ReturnKey)];
    IndexIsPlaceholder(0);
    NamedIsPlaceholder("p1");
    assert IndexPlaceholder(0) == "{param[0]}" by { assert Decimal.NatToString(0) == "0"; }
    assert Placeholder("p1") == "{p1}";
    PlaceholderNotInOther("{p1}", "{param[0]}");
    ReplaceWhole("{p1}", ReturnKey);
    assert ApplySteps("{p1}", steps) == ApplySteps("{p1}", steps[1..]);
    assert steps[1..][1..] == [];
    assert ApplySteps("{p1}", steps[1..]) == ApplySteps(ReturnKey, []);
  }

  lemma RescanReturn()
    ensures ApplySteps(ReturnKey, [Step(ReturnKey, Display(Some("R")))]) == "R"
  {
    ReplaceWhole(ReturnKey, "R");
  }

  /** `stackTraceLog()`, annotated with logStackTrace only. */
  const StackTraceLogSpec: Spec := Spec(Warn, false, false, true, false, "")
  const StackTraceLogCall: Invocation := Invocation("stackTraceLog", "TestService", [], [], false, None)
  /** The frame of the calling test in the printed call trace. */
  const TestFrameLine: string := "\tat " + "com.github.pourquoipas.logcall." + "TestLogCall.testStackTraceLog"
                                 + "(TestLogCall.java:253)"

  lemma TestFrameLineKept()
    ensures KeepFrame(TestFrameLine)
  {
    TestFrameHasNoI();
    TestFrameHasNoY();
    assert InterceptFrame[38] == 'I' && ByteBuddyFrame[5] == 'y';
    NotContainsChar(TestFrameLine, InterceptFrame, 'I');
    NotContainsChar(TestFrameLine, ByteBuddyFrame, 'y');
  }

  lemma TestFrameHasNoI()
    ensures 'I' !in TestFrameLine
  {
    assert 'I' !in "\tat " && 'I' !in "com.github.pourquoipas.logcall." && 'I' !in "TestLogCall.testStackTraceLog"
        && 'I' !in "(TestLogCall.java:253)";
  }

  lemma TestFrameHasNoY()
    ensures 'y' !in TestFrameLine
  {
    assert 'y' !in "\tat " && 'y' !in "com.github.pourquoipas.logcall." && 'y' !in "TestLogCall.testStackTraceLog"
        && 'y' !in "(TestLogCall.java:253)";
  }

  /** The call section and the calling test's frame are in the message. */
  lemma StackTraceLogExample(callTrace: string, duration: int)
    requires TestFrameLine in SplitLines(callTrace)
    ensures var msg := BuildLogMessage(StackTraceLogSpec, StackTraceLogCall, Returned(Some("logStackTraceLog")),
                                       duration, callTrace);
      && "Method '" + "stackTraceLog" + "'" <= msg
      && Contains(msg, "\nCall Stack Trace:\n")
      && Contains(msg, TestFrameLine)
  {
    TestFrameLineKept();
    CallTraceShown(StackTraceLogSpec, StackTraceLogCall, Returned(Some("logStackTraceLog")), duration, callTrace,
                   TestFrameLine);
  }
}
