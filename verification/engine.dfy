/** The evaluation and mutation half of the prompt-refinement engine
    (prompt_optimizer.py:96-228): output matching, the sequential test
    harness, the quality score, and the three ways a prompt is produced
    from a model response.

    The language model is the `llm` field of an `Env`: a deterministic
    function from a route and a rendered text to a response or the message
    of the exception the call raises. Template rendering is the `render`
    field, an uninterpreted function of the named placeholder values. */
module Engine {
  import opened Wrappers
  import opened Text
  import opened Config
  import opened Extraction

  /** One labelled row of the dataset, as the engine unpacks it: a pair. */
  datatype TestCase = TestCase(input: string, expected: string)

  /** A mismatch as the harness records it: `(input, expected, actual)`. */
  datatype FailedCase = FailedCase(input: string, expected: string, actual: string)

  /** What `test_prompt_with_data` returns. */
  datatype Evaluation = Evaluation(matches: nat, total: nat, failed: seq<FailedCase>)

  /** The placeholder bindings of the five templates, named after the
      placeholders. `OptimizerArgs` binds `output_data` to the model's
      answer and `actual_output` to the expected output, as the source does. */
  datatype TemplateArgs =
    | InitialPromptArgs(useCase: string, inputData: string, outputData: string)
    | AnswerArgs(prompt: string, inputData: string)
    | OptimizerArgs(prompt: string, inputData: string, outputData: string, actualOutput: string)
    | FeedbackArgs(prompt: string, successRate: real, successfulCases: nat, totalCases: nat, failedCases: string)
    | EvolverArgs(prompt: string, feedback: string, successRate: real, iteration: nat)

  /** The engine's collaborators: the template renderer and the model. */
  datatype Env = Env(render: TemplateArgs -> string, llm: (Route, string) -> Result<string>)

  /** The route of `get_llm_response(text, "claude")`, which feedback
      collection and prompt evolution use without consulting the stage
      configuration. */
  const DirectClaude: Route := Route(Str("claude"), None)

  /** The model never raises, whatever it is asked. */
  ghost predicate NeverFails(env: Env) {
    forall route, text :: env.llm(route, text).Success?
  }

  // ---------------------------------------------------------------------
  // check_output_match (prompt_optimizer.py:171-173)
  // ---------------------------------------------------------------------

  /** Trimmed, lower-cased equality. */
  predicate CheckOutputMatch(actual: string, expected: string): (r: bool)
    ensures Strip(actual) == Strip(expected) ==> r
    ensures r ==> |Strip(actual)| == |Strip(expected)|
  {
    Lower(Strip(actual)) == Lower(Strip(expected))
  }

  /** Matching is an equivalence: reflexive, symmetric and transitive. */
  lemma MatchIsEquivalence(a: string, b: string, c: string)
    ensures CheckOutputMatch(a, a)
    ensures CheckOutputMatch(a, b) <==> CheckOutputMatch(b, a)
    ensures CheckOutputMatch(a, b) && CheckOutputMatch(b, c) ==> CheckOutputMatch(a, c)
  {
  }

  /** Matching ignores letter case: `check_output_match(a, a.upper())`. */
  lemma MatchIgnoresCase(a: string)
    ensures CheckOutputMatch(a, Upper(a))
  {
    StripUpper(a);
    LowerUpper(Strip(a));
  }

  /** `(" a ", "A")` match: padding and letter case are ignored. */
  lemma MatchExample()
    ensures CheckOutputMatch(" a ", "A")
  {
    StripExamples();
    var lowA := Lower("A");
    assert |lowA| == 1 && lowA[0] == 'a';
    assert lowA == Lower("a");
  }

  /** `("a", "b")` do not match. */
  lemma MismatchExample()
    ensures !CheckOutputMatch("a", "b")
  {
    StripExamples();
    assert Lower("a")[0] != Lower("b")[0];
  }

  // ---------------------------------------------------------------------
  // generate_answer and test_prompt_with_data (prompt_optimizer.py:109-118, 175-206)
  // ---------------------------------------------------------------------

  /** `generate_answer`: one model call at stage `answer_generator`. */
  function GenerateAnswer(env: Env, config: Doc, prompt: string, input: string): (r: Result<string>)
    ensures !Routable(config, "answer_generator") ==> r == Failure(StageRoute(config, "answer_generator").error)
    ensures NeverFails(env) && Routable(config, "answer_generator") ==> r.Success?
  {
    var route :- StageRoute(config, "answer_generator");
    env.llm(route, env.render(AnswerArgs(prompt, input)))
  }

  /** The mismatching cases, in dataset order, each with the model's answer. */
  function Mismatches(data: seq<TestCase>, answers: seq<string>): seq<FailedCase>
    requires |answers| == |data|
  {
    if |data| == 0 then []
    else
      (if CheckOutputMatch(answers[0], data[0].expected) then []
       else [FailedCase(data[0].input, data[0].expected, answers[0])])
      + Mismatches(data[1..], answers[1..])
  }

  /** The model's answer to every case, in order, or the first exception. */
  function Answers(env: Env, config: Doc, prompt: string, data: seq<TestCase>): (r: Result<seq<string>>)
    ensures r.Success? <==> forall i | 0 <= i < |data| :: GenerateAnswer(env, config, prompt, data[i].input).Success?
    ensures r.Success? ==> |r.value| == |data|
    ensures r.Success? ==> forall i | 0 <= i < |data| :: GenerateAnswer(env, config, prompt, data[i].input) == Success(r.value[i])
    ensures r.Failure? ==> exists i | 0 <= i < |data| ::
      && GenerateAnswer(env, config, prompt, data[i].input) == Failure(r.error)
      && forall j | 0 <= j < i :: GenerateAnswer(env, config, prompt, data[j].input).Success?
  {
    if |data| == 0 then Success([])
    else
      var a :- GenerateAnswer(env, config, prompt, data[0].input);
      var rest :- Answers(env, config, prompt, data[1..]);
      assert forall i | 1 <= i < |data| :: data[i] == data[1..][i - 1];
      Success([a] + rest)
  }

  /** `test_prompt_with_data`: every case is asked in order and compared;
      an exception from the model propagates. */
  function Evaluate(env: Env, config: Doc, prompt: string, data: seq<TestCase>): (r: Result<Evaluation>)
    ensures r.Success? <==> Answers(env, config, prompt, data).Success?
    ensures r.Failure? ==> r.error == Answers(env, config, prompt, data).error
    ensures r.Success? ==> r.value.total == |data|
    ensures r.Success? ==> r.value.matches + |r.value.failed| == r.value.total
    ensures r.Success? ==> r.value.failed == Mismatches(data, Answers(env, config, prompt, data).value)
  {
    if |data| == 0 then Success(Evaluation(0, 0, []))
    else
      var actual :- GenerateAnswer(env, config, prompt, data[0].input);
      var rest :- Evaluate(env, config, prompt, data[1..]);
      if CheckOutputMatch(actual, data[0].expected) then
        Success(Evaluation(rest.matches + 1, rest.total + 1, rest.failed))
      else
        Success(Evaluation(rest.matches, rest.total + 1, [FailedCase(data[0].input, data[0].expected, actual)] + rest.failed))
  }

  /** `Mismatches` is a filter: it distributes over concatenation, so the
      failures of an earlier block of cases come before those of a later one. */
  lemma {:induction false} MismatchesSplit(d1: seq<TestCase>, a1: seq<string>, d2: seq<TestCase>, a2: seq<string>)
    requires |a1| == |d1| && |a2| == |d2|
    ensures Mismatches(d1 + d2, a1 + a2) == Mismatches(d1, a1) + Mismatches(d2, a2)
    decreases |d1|
  {
    if |d1| > 0 {
      assert (d1 + d2)[0] == d1[0] && (a1 + a2)[0] == a1[0];
      assert (d1 + d2)[1..] == d1[1..] + d2;
      assert (a1 + a2)[1..] == a1[1..] + a2;
      MismatchesSplit(d1[1..], a1[1..], d2, a2);
    } else {
      assert d1 + d2 == d2 && a1 + a2 == a2;
    }
  }

  /** A failed case is exactly a case whose answer does not match, recorded
      as `(input, expected, answer)`. */
  lemma {:induction false} MismatchesMembers(data: seq<TestCase>, answers: seq<string>)
    requires |answers| == |data|
    ensures forall f :: f in Mismatches(data, answers) <==>
      exists i | 0 <= i < |data| ::
        && !CheckOutputMatch(answers[i], data[i].expected)
        && f == FailedCase(data[i].input, data[i].expected, answers[i])
    decreases |data|
  {
    if |data| > 0 {
      MismatchesMembers(data[1..], answers[1..]);
      forall f
        ensures f in Mismatches(data, answers) <==>
          exists i | 0 <= i < |data| ::
            && !CheckOutputMatch(answers[i], data[i].expected)
            && f == FailedCase(data[i].input, data[i].expected, answers[i])
      {
        if f in Mismatches(data[1..], answers[1..]) {
          var i :| 0 <= i < |data[1..]| && !CheckOutputMatch(answers[1..][i], data[1..][i].expected)
            && f == FailedCase(data[1..][i].input, data[1..][i].expected, answers[1..][i]);
          assert f == FailedCase(data[i + 1].input, data[i + 1].expected, answers[i + 1]);
        }
        if exists i | 0 <= i < |data| ::
            && !CheckOutputMatch(answers[i], data[i].expected)
            && f == FailedCase(data[i].input, data[i].expected, answers[i]) {
          var i :| 0 <= i < |data| && !CheckOutputMatch(answers[i], data[i].expected)
            && f == FailedCase(data[i].input, data[i].expected, answers[i]);
          if i > 0 {
            assert data[1..][i - 1] == data[i] && answers[1..][i - 1] == answers[i];
          }
        }
      }
    }
  }

  /** The index of the first case whose answer does not match, or `|data|`. */
  function FirstMismatch(data: seq<TestCase>, answers: seq<string>): (k: nat)
    requires |answers| == |data|
    ensures k <= |data|
    ensures k < |data| ==> !CheckOutputMatch(answers[k], data[k].expected)
    ensures forall j | 0 <= j < k :: CheckOutputMatch(answers[j], data[j].expected)
    decreases |data|
  {
    if |data| == 0 || !CheckOutputMatch(answers[0], data[0].expected) then 0
    else FirstMismatch(data[1..], answers[1..]) + 1
  }

  /** The first recorded failure is the earliest mismatching case; there is
      none exactly when every answer matches. */
  lemma {:induction false} FirstMismatchIsEarliest(data: seq<TestCase>, answers: seq<string>)
    requires |answers| == |data|
    ensures |Mismatches(data, answers)| == 0 <==> FirstMismatch(data, answers) == |data|
    ensures |Mismatches(data, answers)| > 0 ==>
      var k := FirstMismatch(data, answers);
      k < |data| && Mismatches(data, answers)[0] == FailedCase(data[k].input, data[k].expected, answers[k])
    decreases |data|
  {
    if |data| > 0 && CheckOutputMatch(answers[0], data[0].expected) {
      FirstMismatchIsEarliest(data[1..], answers[1..]);
      var k := FirstMismatch(data[1..], answers[1..]);
      if k < |data[1..]| {
        assert data[1..][k] == data[k + 1] && answers[1..][k] == answers[k + 1];
      }
    }
  }

  // ---------------------------------------------------------------------
  // calculate_quality_score (prompt_optimizer.py:208-228)
  // ---------------------------------------------------------------------

  /** The score dictionary, in exact arithmetic. */
  datatype Quality = Quality(
    successRate: real,
    successfulCases: nat,
    totalCases: nat,
    consistencyScore: real,
    robustnessScore: real,
    overallQuality: real)

  /** The rate of `m` successes out of `t` cases lies between 0 and 100, and
      reaches 100 exactly when every case succeeds. */
  lemma RateBounds(m: nat, t: nat)
    ensures 0 < t && m <= t ==> 0.0 <= (m as real / t as real) * 100.0 <= 100.0
    ensures 0 < t && m <= t ==> ((m as real / t as real) * 100.0 == 100.0 <==> m == t)
  {
    if 0 < t && m <= t {
      var x := m as real / t as real;
      assert x * (t as real) == m as real;
      assert (x - 1.0) * (t as real) == m as real - t as real;
      assert 0.0 <= x <= 1.0;
    }
  }

  function QualityOf(matches: nat, total: nat): (q: Quality)
    ensures total == 0 ==> q.successRate == 0.0
    ensures total > 0 ==> q.successRate * (total as real) == 100.0 * (matches as real)
    ensures matches <= total ==> 0.0 <= q.successRate <= 100.0
    ensures total > 0 && matches <= total ==> (q.successRate == 100.0 <==> matches == total)
    ensures q.consistencyScore == q.successRate && q.robustnessScore == q.successRate
    ensures q.overallQuality == q.successRate
    ensures q.successfulCases == matches && q.totalCases == total
  {
    var rate := if total > 0 then (matches as real / total as real) * 100.0 else 0.0;
    RateBounds(matches, total);
    Quality(rate, matches, total, rate, rate, (rate + rate + rate) / 3.0)
  }

  /** `calculate_quality_score`: a fresh quiet evaluation, then the score. */
  function CalculateQualityScore(env: Env, config: Doc, prompt: string, data: seq<TestCase>): (r: Result<Quality>)
    ensures r.Success? <==> Evaluate(env, config, prompt, data).Success?
    ensures r.Success? ==>
      var e := Evaluate(env, config, prompt, data).value;
      r.value.successfulCases == e.matches && r.value.totalCases == |data|
    ensures r.Success? ==> r.value == QualityOf(Evaluate(env, config, prompt, data).value.matches, |data|)
  {
    var e :- Evaluate(env, config, prompt, data);
    Success(QualityOf(e.matches, e.total))
  }

  // ---------------------------------------------------------------------
  // The mutators (prompt_optimizer.py:96-107, 120-169)
  // ---------------------------------------------------------------------

  /** `generate_initial_prompt`: bootstrap from the use case and one example. */
  function GenerateInitialPrompt(env: Env, config: Doc, useCase: string, input: string, output: string): (r: Result<string>)
    ensures r.Success? ==> Stripped(r.value)
    ensures !Routable(config, "initial_prompt_generator") ==>
      r == Failure(StageRoute(config, "initial_prompt_generator").error)
  {
    var route :- StageRoute(config, "initial_prompt_generator");
    var response :- env.llm(route, env.render(InitialPromptArgs(useCase, input, output)));
    Success(ExtractPrompt(response))
  }

  /** `optimize_prompt`: patch the prompt for one concrete mismatch. */
  function OptimizePrompt(env: Env, config: Doc, current: string, input: string, actual: string, expected: string): (r: Result<string>)
    ensures r.Success? ==> Stripped(r.value)
    ensures !Routable(config, "prompt_optimizer") ==> r == Failure(StageRoute(config, "prompt_optimizer").error)
  {
    var route :- StageRoute(config, "prompt_optimizer");
    var response :- env.llm(route, env.render(OptimizerArgs(current, input, actual, expected)));
    Success(ExtractPrompt(response))
  }

  /** One failure as the feedback template receives it:
      `Input: …`, `Expected: …`, `Got: …` and `---` on four lines. */
  function FormatFailure(f: FailedCase): string {
    Join(FailureLines(f), '\n')
  }

  function Min(a: nat, b: nat): nat {
    if a <= b then a else b
  }

  /** Each failure formatted, in order. */
  function Formatted(fs: seq<FailedCase>): (r: seq<string>)
    ensures |r| == |fs|
  {
    seq(|fs|, i requires 0 <= i < |fs| => FormatFailure(fs[i]))
  }

  /** The `failed_cases` text: at most five failures, newline-separated. */
  function FailureSummary(failed: seq<FailedCase>): (r: string)
    ensures r == "" <==> |failed| == 0
  {
    ShownFailuresNonEmpty(failed);
    Join(Formatted(failed[..Min(5, |failed|)]), '\n')
  }

  /** `collect_feedback`: a narrative from the model, asked directly of Claude. */
  function CollectFeedback(env: Env, prompt: string, successRate: real, successful: nat, total: nat, failed: seq<FailedCase>): (r: Result<string>)
    ensures NeverFails(env) ==> r.Success?
  {
    env.llm(DirectClaude, env.render(FeedbackArgs(prompt, successRate, successful, total, FailureSummary(failed))))
  }

  /** `evolve_prompt`: rewrite the prompt from the feedback, asked directly of Claude. */
  function EvolvePrompt(env: Env, current: string, feedback: string, successRate: real, iteration: nat): (r: Result<string>)
    ensures r.Success? ==> Stripped(r.value)
    ensures NeverFails(env) ==> r.Success?
  {
    var response :- env.llm(DirectClaude, env.render(EvolverArgs(current, feedback, successRate, iteration)));
    Success(ExtractPrompt(response))
  }

  /** A bootstrap reply that wraps a prompt in the markers yields exactly
      that prompt, and a failed call raises its own error. */
  lemma InitialPromptFromMarkers(env: Env, config: Doc, useCase: string, input: string, output: string, p: string)
    requires Routable(config, "initial_prompt_generator")
    requires Stripped(p) && !MentionsCloseTag(p)
    ensures var reply := env.llm(StageRoute(config, "initial_prompt_generator").value,
                                 env.render(InitialPromptArgs(useCase, input, output)));
      && (reply == Success(Wrap(p)) ==> GenerateInitialPrompt(env, config, useCase, input, output) == Success(p))
      && (reply.Failure? ==> GenerateInitialPrompt(env, config, useCase, input, output) == Failure(reply.error))
  {
    ExtractWrapped(p);
  }

  /** A patch reply that wraps a prompt in the markers yields exactly that
      prompt; the template sees the model's answer as `output_data` and the
      expected value as `actual_output`. */
  lemma PatchFromMarkers(env: Env, config: Doc, current: string, input: string, actual: string, expected: string, p: string)
    requires Routable(config, "prompt_optimizer")
    requires Stripped(p) && !MentionsCloseTag(p)
    ensures var reply := env.llm(StageRoute(config, "prompt_optimizer").value,
                                 env.render(OptimizerArgs(current, input, actual, expected)));
      && (reply == Success(Wrap(p)) ==> OptimizePrompt(env, config, current, input, actual, expected) == Success(p))
      && (reply.Failure? ==> OptimizePrompt(env, config, current, input, actual, expected) == Failure(reply.error))
  {
    ExtractWrapped(p);
  }

  /** An evolution reply, asked directly of Claude, that wraps a prompt in
      the markers yields exactly that prompt. */
  lemma EvolveFromMarkers(env: Env, current: string, feedback: string, successRate: real, iteration: nat, p: string)
    requires Stripped(p) && !MentionsCloseTag(p)
    ensures var reply := env.llm(DirectClaude, env.render(EvolverArgs(current, feedback, successRate, iteration)));
      && (reply == Success(Wrap(p)) ==> EvolvePrompt(env, current, feedback, successRate, iteration) == Success(p))
      && (reply.Failure? ==> EvolvePrompt(env, current, feedback, successRate, iteration) == Failure(reply.error))
  {
    ExtractWrapped(p);
  }

  /** The feedback request shows at most the first five failures, so later
      failures never change what the model is asked. */
  lemma FeedbackSeesFirstFive(env: Env, prompt: string, successRate: real, successful: nat, total: nat,
                              failed: seq<FailedCase>, extra: seq<FailedCase>)
    requires |failed| >= 5
    ensures CollectFeedback(env, prompt, successRate, successful, total, failed + extra)
         == CollectFeedback(env, prompt, successRate, successful, total, failed)
  {
    FailureSummaryShowsFive(failed, extra);
  }

  /** With at least one failure, the joined text of the shown failures is
      not empty. */
  lemma ShownFailuresNonEmpty(failed: seq<FailedCase>)
    ensures |failed| > 0 ==> |Join(Formatted(failed[..Min(5, |failed|)]), '\n')| > 0
  {
    if |failed| > 0 {
      var shown := Formatted(failed[..Min(5, |failed|)]);
      FormatFailureNonEmpty(failed[0]);
      assert shown[0] == FormatFailure(failed[0]);
      JoinStartsWithFirst(shown, '\n');
    }
  }

  /** A formatted failure is never empty: it starts with its `Input:` line. */
  lemma FormatFailureNonEmpty(f: FailedCase)
    ensures |FormatFailure(f)| > 0
  {
    JoinStartsWithFirst(FailureLines(f), '\n');
  }

  /** The four lines one failure occupies in the summary. */
  function FailureLines(f: FailedCase): seq<string> {
    ["Input: " + f.input, "Expected: " + f.expected, "Got: " + f.actual, "---"]
  }

  /** The lines of several failures, in order. */
  function AllFailureLines(fs: seq<FailedCase>): seq<string> {
    if |fs| == 0 then [] else FailureLines(fs[0]) + AllFailureLines(fs[1..])
  }

  /** No field of the failure contains a line break. */
  predicate SingleLine(f: FailedCase) {
    '\n' !in f.input && '\n' !in f.expected && '\n' !in f.actual
  }

  lemma {:induction false} JoinFormatted(fs: seq<FailedCase>)
    requires |fs| >= 1
    ensures Join(Formatted(fs), '\n') == Join(AllFailureLines(fs), '\n')
    decreases |fs|
  {
    var rest := fs[1..];
    assert AllFailureLines(fs) == FailureLines(fs[0]) + AllFailureLines(rest);
    if |rest| == 0 {
      assert Formatted(fs) == [FormatFailure(fs[0])];
      assert AllFailureLines(fs) == FailureLines(fs[0]);
    } else {
      assert Formatted(fs) == [FormatFailure(fs[0])] + Formatted(rest);
      assert Formatted(fs)[1..] == Formatted(rest);
      JoinFormatted(rest);
      assert |AllFailureLines(rest)| >= 1 by {
        assert AllFailureLines(rest) == FailureLines(rest[0]) + AllFailureLines(rest[1..]);
      }
      JoinConcat(FailureLines(fs[0]), AllFailureLines(rest), '\n');
    }
  }

  lemma {:induction false} AllFailureLinesSingle(fs: seq<FailedCase>)
    requires forall i | 0 <= i < |fs| :: SingleLine(fs[i])
    ensures |AllFailureLines(fs)| == 4 * |fs|
    ensures forall k | 0 <= k < |AllFailureLines(fs)| :: '\n' !in AllFailureLines(fs)[k]
    decreases |fs|
  {
    if |fs| > 0 {
      AllFailureLinesSingle(fs[1..]);
      var f := fs[0];
      assert SingleLine(f);
      assert '\n' !in "Input: " + f.input;
      assert '\n' !in "Expected: " + f.expected;
      assert '\n' !in "Got: " + f.actual;
    }
  }

  /** Splitting the summary on line breaks recovers the four lines of each of
      the first five failures, in order, provided no field of them holds a
      line break; with no failures the summary is empty. */
  lemma FailureSummaryLines(failed: seq<FailedCase>)
    requires forall i | 0 <= i < Min(5, |failed|) :: SingleLine(failed[i])
    ensures |failed| == 0 <==> FailureSummary(failed) == ""
    ensures |failed| > 0 ==>
      Split(FailureSummary(failed), '\n') == AllFailureLines(failed[..Min(5, |failed|)])
  {
    var shown := failed[..Min(5, |failed|)];
    if |failed| > 0 {
      JoinFormatted(shown);
      AllFailureLinesSingle(shown);
      SplitJoin(AllFailureLines(shown), '\n');
      assert FailureSummary(failed) != "" by {
        assert Split(FailureSummary(failed), '\n') != [""];
      }
    }
  }

  /** Failures after the fifth never reach the feedback template. */
  lemma FailureSummaryShowsFive(failed: seq<FailedCase>, extra: seq<FailedCase>)
    requires |failed| >= 5
    ensures FailureSummary(failed + extra) == FailureSummary(failed)
  {
    assert (failed + extra)[..5] == failed[..5];
  }

  /** With a model that never raises and a routable `answer_generator`
      stage, evaluation never raises either. */
  lemma EvaluateTotal(env: Env, config: Doc, prompt: string, data: seq<TestCase>)
    requires NeverFails(env)
    requires Routable(config, "answer_generator")
    ensures Evaluate(env, config, prompt, data).Success?
  {
    StageRouteSpec(config, "answer_generator");
    forall i | 0 <= i < |data|
      ensures GenerateAnswer(env, config, prompt, data[i].input).Success?
    {
      var route := StageRoute(config, "answer_generator").value;
      assert env.llm(route, env.render(AnswerArgs(prompt, data[i].input))).Success?;
    }
  }
}
