/** The refinement loop of `create_golden_prompt`
    (prompt_optimizer.py:230-344): bootstrap a prompt from the first example,
    then evaluate, record, keep the best, and mutate, until every case
    matches or the iteration budget is spent. */
module Refinement {
  import opened Wrappers
  import opened Config
  import opened Engine

  /** One entry of the performance history. */
  datatype IterationRecord = IterationRecord(iteration: nat, successRate: real, qualityScore: real, prompt: string)

  /** What an iteration does after scoring its prompt. */
  datatype Move =
    | Converged                                  // every case matched: stop
    | Evolved(feedback: string, next: string)    // feedback round, prompt rewritten
    | Patched(target: FailedCase, next: string)  // prompt patched for one failure
    | NothingToPatch                             // not perfect yet no failure: stop

  /** The evaluation an iteration saw and the move it made. */
  datatype Step = Step(eval: Evaluation, move: Move)

  /** The outcome of one call: the bootstrap prompt, the returned golden
      prompt with its quality, and the trace of every iteration. */
  datatype Run = Run(bootstrap: string, golden: string, bestQuality: real, history: seq<IterationRecord>, steps: seq<Step>)

  /** The best prompt and quality seen so far. */
  datatype Best = Best(prompt: string, quality: real)

  /** The loop goes on after this move. */
  predicate Continues(m: Move) {
    m.Evolved? || m.Patched?
  }

  /** The three configured stages route without raising. */
  predicate Reliable(config: Doc) {
    && Routable(config, "initial_prompt_generator")
    && Routable(config, "answer_generator")
    && Routable(config, "prompt_optimizer")
  }

  /** The branch at the end of iteration `iteration` (1-based). */
  function NextMove(env: Env, config: Doc, iteration: nat, prompt: string, ev: Evaluation): (r: Result<Move>)
    ensures ev.matches == ev.total ==> r == Success(Converged)
    ensures r.Success? && r.value.Evolved? ==> ev.matches != ev.total && iteration % 3 == 0 && iteration > 2
    ensures r.Success? && r.value.Patched? ==>
      && ev.matches != ev.total && !(iteration % 3 == 0 && iteration > 2)
      && |ev.failed| > 0 && r.value.target == ev.failed[0]
    ensures r.Success? && r.value.NothingToPatch? ==> |ev.failed| == 0 && ev.matches != ev.total
  {
    if ev.matches == ev.total then Success(Converged)
    else if iteration % 3 == 0 && iteration > 2 then
      var rate := QualityOf(ev.matches, ev.total).successRate;
      var feedback :- CollectFeedback(env, prompt, rate, ev.matches, ev.total, ev.failed);
      var next :- EvolvePrompt(env, prompt, feedback, rate, iteration);
      Success(Evolved(feedback, next))
    else if |ev.failed| > 0 then
      var f := ev.failed[0];
      var next :- OptimizePrompt(env, config, prompt, f.input, f.actual, f.expected);
      Success(Patched(f, next))
    else Success(NothingToPatch)
  }

  /** The running maximum of the quality scores: starts from the bootstrap
      prompt at quality 0 and moves only on a strictly greater score. */
  function BestSoFar(boot: string, h: seq<IterationRecord>): Best
    decreases |h|
  {
    if |h| == 0 then Best(boot, 0.0)
    else
      var prev := BestSoFar(boot, h[..|h| - 1]);
      var last := h[|h| - 1];
      if last.qualityScore > prev.quality then Best(last.prompt, last.qualityScore) else prev
  }

  /** Iteration `iteration` scored its prompt with `Evaluate` and then made
      the move `NextMove` prescribes. */
  predicate StepFaithful(env: Env, config: Doc, data: seq<TestCase>, rec: IterationRecord, st: Step, iteration: nat) {
    && rec.iteration == iteration
    && Evaluate(env, config, rec.prompt, data) == Success(st.eval)
    && rec.successRate == QualityOf(st.eval.matches, st.eval.total).successRate
    && rec.qualityScore == QualityOf(st.eval.matches, st.eval.total).overallQuality
    && NextMove(env, config, iteration, rec.prompt, st.eval) == Success(st.move)
  }

  /** The history entry of an iteration that scored `prompt` with `ev`. */
  function RecordOf(iteration: nat, prompt: string, ev: Evaluation): IterationRecord {
    var quality := QualityOf(ev.matches, ev.total);
    IterationRecord(iteration, quality.successRate, quality.overallQuality, prompt)
  }

  /** One pass through the loop body: score `prompt`, then choose the move. */
  function RunIteration(env: Env, config: Doc, data: seq<TestCase>, iteration: nat, prompt: string): (r: Result<Step>)
    ensures r.Success? ==> StepFaithful(env, config, data, RecordOf(iteration, prompt, r.value.eval), r.value, iteration)
  {
    var ev :- Evaluate(env, config, prompt, data);
    var move :- NextMove(env, config, iteration, prompt, ev);
    Success(Step(ev, move))
  }

  /** What one iteration does, as the loop sees it: from the iteration number
      and the prompt under test to the step taken or the exception raised. */
  type IterationFn = (nat, string) -> Result<Step>

  /** The iterations of `create_golden_prompt` for this model, configuration
      and dataset. */
  function IterationOf(env: Env, config: Doc, data: seq<TestCase>): IterationFn {
    (iteration: nat, prompt: string) => RunIteration(env, config, data, iteration, prompt)
  }

  /** `history` and `steps` are the trace of running `iter` from `boot`: the
      first iteration tries the bootstrap prompt, each later one the prompt
      its predecessor produced, and each records what `iter` returned. */
  predicate TracedBy(iter: IterationFn, boot: string, history: seq<IterationRecord>, steps: seq<Step>)
    decreases |history|
  {
    && |history| == |steps|
    && (|history| > 0 ==>
      var n := |history| - 1;
      && TracedBy(iter, boot, history[..n], steps[..n])
      && iter(n + 1, history[n].prompt) == Success(steps[n])
      && history[n] == RecordOf(n + 1, history[n].prompt, steps[n].eval)
      && (n == 0 ==> history[n].prompt == boot)
      && (n > 0 ==> Continues(steps[n - 1].move) && history[n].prompt == steps[n - 1].move.next))
  }

  /** With a model that never raises and routable stages, an iteration never
      raises. */
  lemma IterationTotal(env: Env, config: Doc, data: seq<TestCase>, iteration: nat, prompt: string)
    requires NeverFails(env) && Reliable(config)
    ensures RunIteration(env, config, data, iteration, prompt).Success?
  {
    EvaluateTotal(env, config, prompt, data);
    var ev := Evaluate(env, config, prompt, data).value;
    NextMoveTotal(env, config, iteration, prompt, ev);
  }

  /** With a model that never raises and a routable optimizer stage, the
      branch at the end of an iteration never raises. */
  lemma NextMoveTotal(env: Env, config: Doc, iteration: nat, prompt: string, ev: Evaluation)
    requires NeverFails(env) && Routable(config, "prompt_optimizer")
    ensures NextMove(env, config, iteration, prompt, ev).Success?
  {
    StageRouteSpec(config, "prompt_optimizer");
  }

  /** Appending one record updates the running maximum only on a strictly
      greater score. */
  lemma BestSoFarExtend(boot: string, h: seq<IterationRecord>, rec: IterationRecord)
    ensures BestSoFar(boot, h + [rec]) ==
      if rec.qualityScore > BestSoFar(boot, h).quality then Best(rec.prompt, rec.qualityScore)
      else BestSoFar(boot, h)
  {
    assert (h + [rec])[..|h|] == h;
  }

  lemma TracedByExtend(iter: IterationFn, boot: string, history: seq<IterationRecord>, steps: seq<Step>, current: string, st: Step)
    requires TracedBy(iter, boot, history, steps)
    requires |history| == 0 ==> current == boot
    requires |history| > 0 ==> Continues(steps[|steps| - 1].move) && current == steps[|steps| - 1].move.next
    requires iter(|history| + 1, current) == Success(st)
    ensures TracedBy(iter, boot, history + [RecordOf(|history| + 1, current, st.eval)], steps + [st])
  {
    var rec := RecordOf(|history| + 1, current, st.eval);
    var h := history + [rec];
    var t := steps + [st];
    assert h[..|history|] == history && t[..|steps|] == steps;
    assert h[|history|] == rec && t[|history|] == st;
    assert |history| > 0 ==> t[|history| - 1] == steps[|steps| - 1];
  }

  /** The loop has run the iterations traced by `history` and `steps`, is
      still going, and will next try `current` as iteration `|history| + 1`. */
  predicate Reached(iter: IterationFn, boot: string, maxIterations: int,
                    history: seq<IterationRecord>, steps: seq<Step>, current: string) {
    && TracedBy(iter, boot, history, steps)
    && |history| < maxIterations
    && (|history| == 0 ==> current == boot)
    && (|history| > 0 ==> Continues(steps[|steps| - 1].move) && current == steps[|steps| - 1].move.next)
  }

  /** Some iteration the loop actually reaches raises `err`. */
  ghost predicate LoopFailsWith(iter: IterationFn, boot: string, maxIterations: int, err: string) {
    exists history, steps, current ::
      Reached(iter, boot, maxIterations, history, steps, current) && iter(|history| + 1, current) == Failure(err)
  }

  /** The loop of `create_golden_prompt` (prompt_optimizer.py:258-321), for
      any iteration function: run iterations until one stops or
      `maxIterations` have run, keeping the first prompt of highest quality. */
  method RefineLoop(iter: IterationFn, boot: string, maxIterations: int) returns (r: Result<Run>)
    ensures r.Success? ==> r.value.bootstrap == boot && TracedBy(iter, boot, r.value.history, r.value.steps)
    ensures r.Success? ==>
      && (maxIterations <= 0 ==> |r.value.history| == 0)
      && (maxIterations > 0 ==> 1 <= |r.value.history| <= maxIterations)
      && (0 < |r.value.history| < maxIterations ==> !Continues(r.value.steps[|r.value.steps| - 1].move))
    ensures r.Success? ==> Best(r.value.golden, r.value.bestQuality) == BestSoFar(boot, r.value.history)
    ensures (forall k, p :: iter(k, p).Success?) ==> r.Success?
    ensures r.Failure? ==> LoopFailsWith(iter, boot, maxIterations, r.error)
  {
    var current := boot;
    var best := boot;
    var bestQuality := 0.0;
    var history: seq<IterationRecord> := [];
    var steps: seq<Step> := [];
    var stop := false;
    while |history| < maxIterations && !stop
      invariant |history| == |steps|
      invariant maxIterations <= 0 ==> |history| == 0
      invariant maxIterations > 0 ==> |history| <= maxIterations
      invariant TracedBy(iter, boot, history, steps)
      invariant stop ==> |history| > 0 && !Continues(steps[|steps| - 1].move)
      invariant !stop && |history| > 0 ==> Continues(steps[|steps| - 1].move)
      invariant !stop ==> current == (if |history| == 0 then boot else steps[|steps| - 1].move.next)
      invariant Best(best, bestQuality) == BestSoFar(boot, history)
    {
      var attempt := iter(|history| + 1, current);
      if attempt.Failure? {
        assert Reached(iter, boot, maxIterations, history, steps, current);
        return Failure(attempt.error);
      }
      var step := attempt.value;
      var rec := RecordOf(|history| + 1, current, step.eval);
      TracedByExtend(iter, boot, history, steps, current, step);
      BestSoFarExtend(boot, history, rec);
      if rec.qualityScore > bestQuality {
        bestQuality := rec.qualityScore;
        best := current;
      }
      history := history + [rec];
      steps := steps + [step];
      if Continues(step.move) {
        current := step.move.next;
      } else {
        stop := true;
      }
    }
    return Success(Run(boot, best, bestQuality, history, steps));
  }

  /** `create_golden_prompt`: no data gives the empty prompt; otherwise a
      bootstrap prompt from the first case, then the loop. */
  method CreateGoldenPrompt(env: Env, config: Doc, useCase: string, data: seq<TestCase>, maxIterations: int)
    returns (r: Result<Run>)
    ensures |data| == 0 ==> r == Success(Run("", "", 0.0, [], []))
    ensures r.Success? && |data| > 0 ==>
      && GenerateInitialPrompt(env, config, useCase, data[0].input, data[0].expected) == Success(r.value.bootstrap)
      && TracedBy(IterationOf(env, config, data), r.value.bootstrap, r.value.history, r.value.steps)
    ensures r.Success? && |data| > 0 ==>
      && (maxIterations <= 0 ==> |r.value.history| == 0)
      && (maxIterations > 0 ==> 1 <= |r.value.history| <= maxIterations)
      && (0 < |r.value.history| < maxIterations ==> !Continues(r.value.steps[|r.value.steps| - 1].move))
    ensures r.Success? && |data| > 0 ==>
      Best(r.value.golden, r.value.bestQuality) == BestSoFar(r.value.bootstrap, r.value.history)
    ensures NeverFails(env) && Reliable(config) ==> r.Success?
    ensures r.Failure? ==>
      var bootstrap := GenerateInitialPrompt(env, config, useCase, data[0].input, data[0].expected);
      && |data| > 0
      && (bootstrap.Failure? ==> r.error == bootstrap.error)
      && (bootstrap.Success? ==> LoopFailsWith(IterationOf(env, config, data), bootstrap.value, maxIterations, r.error))
  {
    if |data| == 0 {
      return Success(Run("", "", 0.0, [], []));
    }
    var iter := IterationOf(env, config, data);
    if NeverFails(env) && Reliable(config) {
      StageRouteSpec(config, "initial_prompt_generator");
      forall k: nat, p: string
        ensures iter(k, p).Success?
      {
        IterationTotal(env, config, data, k, p);
      }
    }
    var boot :- GenerateInitialPrompt(env, config, useCase, data[0].input, data[0].expected);
    r := RefineLoop(iter, boot, maxIterations);
  }

  // ---------------------------------------------------------------------
  // What a trace says about each iteration
  // ---------------------------------------------------------------------

  /** Every entry of a trace, not only the last, is what `iter` returned on
      the prompt the previous move produced. */
  lemma {:induction false} TracedAt(iter: IterationFn, boot: string, history: seq<IterationRecord>, steps: seq<Step>, k: nat)
    requires TracedBy(iter, boot, history, steps)
    requires k < |history|
    ensures iter(k + 1, history[k].prompt) == Success(steps[k])
    ensures history[k] == RecordOf(k + 1, history[k].prompt, steps[k].eval)
    ensures k == 0 ==> history[k].prompt == boot
    ensures k > 0 ==> Continues(steps[k - 1].move) && history[k].prompt == steps[k - 1].move.next
    decreases |history|
  {
    var n := |history| - 1;
    if k < n {
      TracedAt(iter, boot, history[..n], steps[..n], k);
      assert history[..n][k] == history[k] && steps[..n][k] == steps[k];
      if k > 0 {
        assert steps[..n][k - 1] == steps[k - 1];
      }
    }
  }

  /** In a trace of `create_golden_prompt`, iteration `k + 1` evaluated the
      prompt it records and made the move `NextMove` prescribes. */
  lemma TracedFaithful(env: Env, config: Doc, data: seq<TestCase>, boot: string, history: seq<IterationRecord>, steps: seq<Step>, k: nat)
    requires TracedBy(IterationOf(env, config, data), boot, history, steps)
    requires k < |history|
    ensures StepFaithful(env, config, data, history[k], steps[k], k + 1)
  {
    TracedAt(IterationOf(env, config, data), boot, history, steps, k);
    assert RunIteration(env, config, data, k + 1, history[k].prompt) == Success(steps[k]);
  }

  // ---------------------------------------------------------------------
  // The move at the end of an iteration
  // ---------------------------------------------------------------------

  /** The loop stops on a perfect score and only then: `NothingToPatch` is
      unreachable because an imperfect evaluation always has a failure. */
  lemma StepStopsIffPerfect(env: Env, config: Doc, data: seq<TestCase>, rec: IterationRecord, st: Step, iteration: nat)
    requires StepFaithful(env, config, data, rec, st, iteration)
    ensures !st.move.NothingToPatch?
    ensures st.move.Converged? <==> st.eval.matches == |data|
    ensures !Continues(st.move) <==> st.eval.matches == |data|
  {
    NextMoveKinds(env, config, iteration, rec.prompt, st.eval, st.move);
  }

  /** The move is `Converged` exactly on a perfect evaluation, and never
      `NothingToPatch` when the evaluation accounts for every case. */
  lemma NextMoveKinds(env: Env, config: Doc, iteration: nat, prompt: string, ev: Evaluation, m: Move)
    requires NextMove(env, config, iteration, prompt, ev) == Success(m)
    requires ev.matches + |ev.failed| == ev.total
    ensures !m.NothingToPatch?
    ensures m.Converged? <==> ev.matches == ev.total
  {
  }

  /** A recorded quality score is at most 100, and it is exactly 100 when
      the iteration converged (on a non-empty dataset) and only then. */
  lemma StepScore(env: Env, config: Doc, data: seq<TestCase>, rec: IterationRecord, st: Step, iteration: nat)
    requires StepFaithful(env, config, data, rec, st, iteration)
    ensures 0.0 <= rec.qualityScore <= 100.0
    ensures |data| > 0 ==> (st.move.Converged? <==> rec.qualityScore == 100.0)
  {
    StepStopsIffPerfect(env, config, data, rec, st, iteration);
  }

  /** Every third iteration from the third on, an imperfect prompt is
      rewritten from collected feedback; otherwise it is patched. */
  lemma StepEvolvesEveryThird(env: Env, config: Doc, data: seq<TestCase>, rec: IterationRecord, st: Step, iteration: nat)
    requires StepFaithful(env, config, data, rec, st, iteration)
    requires st.eval.matches != |data|
    ensures st.move.Evolved? <==> iteration % 3 == 0 && iteration > 2
    ensures st.move.Patched? <==> !(iteration % 3 == 0 && iteration > 2)
    ensures st.move.Evolved? ==>
      && CollectFeedback(env, rec.prompt, rec.successRate, st.eval.matches, |data|, st.eval.failed) == Success(st.move.feedback)
      && EvolvePrompt(env, rec.prompt, st.move.feedback, rec.successRate, iteration) == Success(st.move.next)
  {
  }

  /** A patch targets the earliest test case, in dataset order, whose answer
      does not match, together with the answer the model gave to it. */
  lemma PatchTargetsEarliestFailure(env: Env, config: Doc, data: seq<TestCase>, rec: IterationRecord, st: Step, iteration: nat)
    requires StepFaithful(env, config, data, rec, st, iteration)
    requires st.move.Patched?
    ensures Answers(env, config, rec.prompt, data).Success?
    ensures
      var answers := Answers(env, config, rec.prompt, data).value;
      var k := FirstMismatch(data, answers);
      && k < |data|
      && st.move.target == FailedCase(data[k].input, data[k].expected, answers[k])
      && (forall j | 0 <= j < k :: CheckOutputMatch(answers[j], data[j].expected))
      && OptimizePrompt(env, config, rec.prompt, data[k].input, answers[k], data[k].expected) == Success(st.move.next)
  {
    var answers := Answers(env, config, rec.prompt, data).value;
    FirstMismatchIsEarliest(data, answers);
  }

  // ---------------------------------------------------------------------
  // Keeping the best prompt
  // ---------------------------------------------------------------------

  /** The running maximum: no recorded score exceeds it, it is never
      negative, it is either the starting point or the first record to reach
      it, and every record before that one scored strictly less. */
  lemma {:induction false} BestSoFarSpec(boot: string, h: seq<IterationRecord>)
    ensures forall i | 0 <= i < |h| :: h[i].qualityScore <= BestSoFar(boot, h).quality
    ensures BestSoFar(boot, h).quality >= 0.0
    ensures BestSoFar(boot, h).quality == 0.0 ==> BestSoFar(boot, h) == Best(boot, 0.0)
    ensures BestSoFar(boot, h).quality > 0.0 ==> exists i | 0 <= i < |h| ::
      && BestSoFar(boot, h) == Best(h[i].prompt, h[i].qualityScore)
      && forall j | 0 <= j < i :: h[j].qualityScore < h[i].qualityScore
    decreases |h|
  {
    if |h| > 0 {
      var n := |h| - 1;
      var p := h[..n];
      BestSoFarSpec(boot, p);
      assert forall i | 0 <= i < n :: p[i] == h[i];
      var b := BestSoFar(boot, h);
      if h[n].qualityScore > BestSoFar(boot, p).quality {
        assert b == Best(h[n].prompt, h[n].qualityScore);
        assert forall j | 0 <= j < n :: h[j].qualityScore < h[n].qualityScore;
      } else if b.quality > 0.0 {
        var i :| 0 <= i < n && BestSoFar(boot, p) == Best(p[i].prompt, p[i].qualityScore)
          && forall j | 0 <= j < i :: p[j].qualityScore < p[i].qualityScore;
        assert b == Best(h[i].prompt, h[i].qualityScore);
      }
    }
  }

  /** Extending the history never lowers the best quality. */
  lemma {:induction false} BestNeverDecreases(boot: string, h: seq<IterationRecord>, m: nat)
    requires m <= |h|
    ensures BestSoFar(boot, h[..m]).quality <= BestSoFar(boot, h).quality
    decreases |h| - m
  {
    if m < |h| {
      BestNeverDecreases(boot, h, m + 1);
      assert h[..m + 1] == h[..m] + [h[m]];
      BestSoFarExtend(boot, h[..m], h[m]);
      BestSoFarSpec(boot, h[..m]);
    } else {
      assert h[..m] == h;
    }
  }

  // ---------------------------------------------------------------------
  // The returned prompt
  // ---------------------------------------------------------------------

  /** Only the last iteration of a trace can stop the loop. */
  lemma EarlierStepsContinue(iter: IterationFn, boot: string, history: seq<IterationRecord>, steps: seq<Step>, k: nat)
    requires TracedBy(iter, boot, history, steps)
    requires k + 1 < |history|
    ensures Continues(steps[k].move)
  {
    TracedAt(iter, boot, history, steps, k + 1);
  }

  /** Along a trace every score is at most 100, only a converged iteration
      scores 100, and every iteration but the last scored less. */
  lemma TracedScore(env: Env, config: Doc, data: seq<TestCase>, boot: string, history: seq<IterationRecord>, steps: seq<Step>, k: nat)
    requires |data| > 0
    requires TracedBy(IterationOf(env, config, data), boot, history, steps)
    requires k < |history|
    ensures 0.0 <= history[k].qualityScore <= 100.0
    ensures steps[k].move.Converged? <==> history[k].qualityScore == 100.0
    ensures k + 1 < |history| ==> history[k].qualityScore < 100.0
  {
    TracedFaithful(env, config, data, boot, history, steps, k);
    StepScore(env, config, data, history[k], steps[k], k + 1);
    if k + 1 < |history| {
      EarlierStepsContinue(IterationOf(env, config, data), boot, history, steps, k);
    }
  }

  /** When the loop ends on a perfect score, the golden prompt is the one
      that achieved it, with quality 100: every earlier iteration was
      imperfect and so scored strictly less. */
  lemma PerfectRunReturnsLastPrompt(env: Env, config: Doc, data: seq<TestCase>, boot: string, history: seq<IterationRecord>, steps: seq<Step>)
    requires |data| > 0
    requires TracedBy(IterationOf(env, config, data), boot, history, steps)
    requires |history| > 0 && steps[|steps| - 1].move.Converged?
    ensures BestSoFar(boot, history) == Best(history[|history| - 1].prompt, 100.0)
  {
    var n := |history| - 1;
    forall i | 0 <= i < n
      ensures history[i].qualityScore < 100.0
    {
      TracedScore(env, config, data, boot, history, steps, i);
    }
    TracedScore(env, config, data, boot, history, steps, n);
    LastPerfectIsBest(boot, history);
  }

  /** A history whose last score is 100 and whose earlier scores are all
      below it keeps its last prompt as the best. */
  lemma LastPerfectIsBest(boot: string, history: seq<IterationRecord>)
    requires |history| > 0 && history[|history| - 1].qualityScore == 100.0
    requires forall i | 0 <= i < |history| - 1 :: history[i].qualityScore < 100.0
    ensures BestSoFar(boot, history) == Best(history[|history| - 1].prompt, 100.0)
  {
    var n := |history| - 1;
    var p := history[..n];
    assert forall i | 0 <= i < |p| :: p[i] == history[i];
    BestSoFarSpec(boot, p);
    assert history == p + [history[n]];
    BestSoFarExtend(boot, p, history[n]);
  }
}
