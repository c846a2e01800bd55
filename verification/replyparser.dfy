/** `apply_prompt_with_reason` (predict.py:131-172): ask the answer model to
    apply the golden prompt to one input, then split its reply into an
    answer and a reasoning. */
module ReplyParser {
  import opened Wrappers
  import opened Text
  import opened Config
  import opened Engine

  /** The model used when the configuration names none. */
  const ReplyModel: string := "claude-haiku-4-5-20251001"

  /** The reasoning reported when the reply gives none. */
  const NoReasoning: string := "No specific reasoning provided"

  /** Provider and model for the call: `config.get('models', {})`, then
      `.get('answer_generator', {})` and the two defaulted fields. These
      lookups run before the guarded call, so a `models` section or stage
      entry that is not a mapping raises to the caller. */
  function PredictRoute(config: Doc): (r: Result<Route>)
    ensures r.Success? <==>
      && Section(config, "models").Dict?
      && ("answer_generator" in Section(config, "models").entries ==>
            Section(config, "models").entries["answer_generator"].Dict?)
    ensures Routable(config, "answer_generator") ==>
      && r.Success? && StageRoute(config, "answer_generator").Success?
      && r.value.provider == StageRoute(config, "answer_generator").value.provider
    ensures Routable(config, "answer_generator") && "answer_generator" in config["models"].entries
            && "model" in config["models"].entries["answer_generator"].entries ==>
      r == StageRoute(config, "answer_generator")
  {
    StageRouteSpec(config, "answer_generator");
    var stage :- Get(Section(config, "models"), "answer_generator", Dict(map[]));
    var provider :- Get(stage, "provider", Str("claude"));
    // the provider lookup succeeded, so `stage` is a mapping
    var model := Get(stage, "model", Str(ReplyModel)).value;
    Success(Route(provider, Some(model)))
  }

  /** The text sent to the model. */
  function RequestText(prompt: string, input: string): string {
    prompt + "\n\nInput: " + input + Instructions
  }

  /** The instructions appended to every request, asking for an answer line
      and a reasoning line. */
  const Instructions: string :=
    "\n\nPlease provide:\n1. Your answer/classification\n2. A brief explanation of your reasoning"
    + "\n\nFormat your response as:\nAnswer: [your answer]\nReasoning: [your explanation]"

  /** `s.split(':', 1)[1]`: what follows the first colon. */
  function AfterColon(s: string): (r: string)
    requires ':' in s
    ensures |r| < |s| && r == s[|s| - |r|..]
    ensures s[|s| - |r| - 1] == ':' && ':' !in s[..|s| - |r| - 1]
  {
    s[IndexOf(s, ':') + 1..]
  }

  /** `line.lower().startswith('answer:')` */
  predicate IsAnswerLine(line: string) {
    StartsWith(Lower(line), "answer:")
  }

  /** `line.lower().startswith('reasoning:')` */
  predicate IsReasoningLine(line: string) {
    StartsWith(Lower(line), "reasoning:")
  }

  /** A line whose lower-cased form starts with a tag ending in `:` holds
      that colon at the same place. */
  lemma LabelColon(line: string, tag: string)
    requires StartsWith(Lower(line), tag) && |tag| > 0 && tag[|tag| - 1] == ':'
    ensures ':' in line
  {
    var n := |tag| - 1;
    assert Lower(line)[n] == ToLower(line[n]);
    assert line[n] == ':';
  }

  /** The answer an answer line carries. */
  function AnswerText(line: string): (r: string)
    requires IsAnswerLine(line)
    ensures Stripped(r)
  {
    LabelColon(line, "answer:");
    Strip(AfterColon(line))
  }

  /** The reasoning: everything from the reasoning line on, after its
      colon. */
  function ReasoningText(ls: seq<string>): (r: string)
    requires |ls| > 0 && IsReasoningLine(ls[0])
    ensures Stripped(r)
  {
    LabelColon(ls[0], "reasoning:");
    JoinStartsWithFirst(ls, '\n');
    assert Join(ls, '\n')[IndexOf(ls[0], ':')] == ':';
    Strip(AfterColon(Join(ls, '\n')))
  }

  /** The scan over the reply's lines: an answer line replaces the answer,
      the first reasoning line takes the rest and ends the scan. */
  function Scan(ls: seq<string>, answer: string): (r: (string, string))
    ensures Stripped(answer) ==> Stripped(r.0)
    ensures Stripped(r.1)
  {
    if |ls| == 0 then (answer, "")
    else if IsAnswerLine(ls[0]) then Scan(ls[1..], AnswerText(ls[0]))
    else if IsReasoningLine(ls[0]) then (answer, ReasoningText(ls))
    else Scan(ls[1..], answer)
  }

  /** The parse of one reply; when no non-empty answer is found, the first
      line of the stripped reply is the answer and the rest the reasoning. */
  function ParseReply(response: string): (r: (string, string))
    ensures response == "" ==> r == ("", "")
    ensures r.0 == "" <==> Blank(response)
    ensures Blank(response) && response != "" ==> r == ("", NoReasoning)
    ensures Stripped(r.0) && Stripped(r.1)
  {
    var s := Strip(response);
    StripEmptyIffBlank(response);
    ScanOfEmptyReply();
    var scanned := Scan(Split(s, '\n'), "");
    if scanned.0 == "" && response != "" then
      if '\n' in s then
        var i := IndexOf(s, '\n');
        assert !Blank(s[..i]) by {
          assert s[..i][0] == s[0];
        }
        StripEmptyIffBlank(s[..i]);
        (Strip(s[..i]), Strip(s[i + 1..]))
      else
        (s, NoReasoning)
    else scanned
  }

  /** An empty or blank reply has no answer line. */
  lemma ScanOfEmptyReply()
    ensures Scan(Split("", '\n'), "") == ("", "")
  {
    assert Split("", '\n') == [""];
    assert !IsAnswerLine("") && !IsReasoningLine("");
    assert [""][1..] == [];
  }

  /** A non-blank reply whose scan finds no non-empty answer falls back to
      its first line as the answer and the rest, stripped, as the reasoning;
      with a single line there is no reasoning to report. */
  lemma ParseReplyUnlabelled(response: string)
    requires !Blank(response)
    requires Scan(Split(Strip(response), '\n'), "").0 == ""
    ensures ParseReply(response).0 == Strip(Split(Strip(response), '\n')[0])
    ensures var s := Strip(response);
      '\n' in s ==> ParseReply(response).1 == Strip(s[IndexOf(s, '\n') + 1..])
    ensures '\n' !in Strip(response) ==> ParseReply(response) == (Strip(response), NoReasoning)
  {
    var s := Strip(response);
    SplitHead(s, '\n');
    if '\n' !in s {
      StripOfStripped(s);
    }
  }

  /** A reply without any answer line scans to an empty answer, so it takes
      the fallback. */
  lemma NoAnswerLineFallsBack(ls: seq<string>)
    requires forall k | 0 <= k < |ls| :: !IsAnswerLine(ls[k])
    ensures Scan(ls, "").0 == ""
  {
    ScanAnswer(ls, "");
  }

  /** `apply_prompt_with_reason`: an exception from the model becomes the
      pair `("ERROR", message)`; one from reading the configuration is not
      caught. */
  function ApplyPromptWithReason(env: Env, config: Doc, prompt: string, input: string): (r: Result<(string, string)>)
    ensures r.Success? <==> PredictRoute(config).Success?
    ensures r.Success? ==>
      var reply := env.llm(PredictRoute(config).value, RequestText(prompt, input));
      && (reply.Failure? ==> r.value == ("ERROR", reply.error))
      && (reply.Success? ==> r.value == ParseReply(reply.value))
  {
    var route :- PredictRoute(config);
    match env.llm(route, RequestText(prompt, input))
    case Failure(e) => Success(("ERROR", e))
    case Success(response) => Success(ParseReply(response))
  }

  /** With no `models` section, or one without an `answer_generator`
      entry, the call goes to the default provider and model. */
  lemma PredictRouteDefault(config: Doc)
    requires "models" !in config || (config["models"].Dict? && "answer_generator" !in config["models"].entries)
    ensures PredictRoute(config) == Success(Route(Str("claude"), Some(Str(ReplyModel))))
  {
  }

  // ---------------------------------------------------------------------
  // What the scan finds
  // ---------------------------------------------------------------------

  /** No line is both an answer line and a reasoning line. */
  lemma LabelsExclusive(line: string)
    ensures !(IsAnswerLine(line) && IsReasoningLine(line))
  {
    if IsAnswerLine(line) {
      assert Lower(line)[0] == 'a';
    }
  }

  /** The first reasoning line, or `|ls|`. */
  function FirstReasoning(ls: seq<string>): (k: nat)
    ensures k <= |ls|
    ensures forall j | 0 <= j < k :: !IsReasoningLine(ls[j])
    ensures k < |ls| ==> IsReasoningLine(ls[k])
  {
    if |ls| == 0 || IsReasoningLine(ls[0]) then 0 else FirstReasoning(ls[1..]) + 1
  }

  /** The last answer line before index `end`, or -1. */
  function LastAnswer(ls: seq<string>, end: nat): (j: int)
    requires end <= |ls|
    ensures -1 <= j < end
    ensures j >= 0 ==> IsAnswerLine(ls[j])
    ensures forall i | j < i < end :: !IsAnswerLine(ls[i])
  {
    if end == 0 then -1
    else if IsAnswerLine(ls[end - 1]) then end - 1
    else LastAnswer(ls, end - 1)
  }

  /** An index with the defining properties of `LastAnswer` is it. */
  lemma LastAnswerUnique(ls: seq<string>, end: nat, j: int)
    requires end <= |ls|
    requires -1 <= j < end
    requires j >= 0 ==> IsAnswerLine(ls[j])
    requires forall i | j < i < end :: !IsAnswerLine(ls[i])
    ensures LastAnswer(ls, end) == j
  {
  }

  /** Dropping the first line shifts the last answer line by one. */
  lemma LastAnswerShift(ls: seq<string>, end: nat)
    requires 1 <= end <= |ls|
    ensures var jt := LastAnswer(ls[1..], end - 1);
      LastAnswer(ls, end) == if jt >= 0 then jt + 1 else if IsAnswerLine(ls[0]) then 0 else -1
  {
    var t := ls[1..];
    var jt := LastAnswer(t, end - 1);
    var j := if jt >= 0 then jt + 1 else if IsAnswerLine(ls[0]) then 0 else -1;
    forall i | j < i < end
      ensures !IsAnswerLine(ls[i])
    {
      if i > 0 {
        assert ls[i] == t[i - 1];
      }
    }
    if jt >= 0 {
      assert ls[j] == t[jt];
    }
    LastAnswerUnique(ls, end, j);
  }

  /** One line of the scan: a line that is not a reasoning line moves the
      scan on, taking the answer from it when it is an answer line. */
  lemma ScanStep(ls: seq<string>, answer: string)
    requires |ls| > 0 && !IsReasoningLine(ls[0])
    ensures Scan(ls, answer) ==
      Scan(ls[1..], if IsAnswerLine(ls[0]) then AnswerText(ls[0]) else answer)
  {
  }

  /** The scan's reasoning is taken from the first reasoning line on, or is
      empty when there is none. */
  lemma {:induction false} ScanReasoning(ls: seq<string>, answer: string)
    ensures var r := FirstReasoning(ls);
      Scan(ls, answer).1 == if r < |ls| then ReasoningText(ls[r..]) else ""
  {
    if |ls| > 0 {
      if IsReasoningLine(ls[0]) {
        LabelsExclusive(ls[0]);
        assert ls[0..] == ls;
      } else {
        var t := ls[1..];
        ScanStep(ls, answer);
        ScanReasoning(t, if IsAnswerLine(ls[0]) then AnswerText(ls[0]) else answer);
        var r := FirstReasoning(ls);
        if r < |ls| {
          assert ls[r..] == t[r - 1..];
        }
      }
    }
  }

  /** The scan's answer is that of the last answer line before the first
      reasoning line, or the starting answer when there is none. */
  lemma {:induction false} ScanAnswer(ls: seq<string>, answer: string)
    ensures var j := LastAnswer(ls, FirstReasoning(ls));
      Scan(ls, answer).0 == if j < 0 then answer else AnswerText(ls[j])
  {
    if |ls| > 0 {
      if IsReasoningLine(ls[0]) {
        LabelsExclusive(ls[0]);
      } else {
        var t := ls[1..];
        ScanStep(ls, answer);
        ScanAnswer(t, if IsAnswerLine(ls[0]) then AnswerText(ls[0]) else answer);
        LastAnswerShift(ls, FirstReasoning(ls));
        var jt := LastAnswer(t, FirstReasoning(t));
        if jt >= 0 {
          assert t[jt] == ls[jt + 1];
        }
      }
    }
  }

  /** The scan's result: the answer of the last answer line before the
      first reasoning line (or the starting answer when there is none), and
      the reasoning taken from that reasoning line on (or nothing). Lines
      after the first reasoning line are never looked at. */
  lemma ScanSpec(ls: seq<string>, answer: string)
    ensures
      var r := FirstReasoning(ls);
      var j := LastAnswer(ls, r);
      Scan(ls, answer) ==
        ( (if j < 0 then answer else AnswerText(ls[j])),
          (if r < |ls| then ReasoningText(ls[r..]) else "") )
  {
    ScanReasoning(ls, answer);
    ScanAnswer(ls, answer);
  }

  // ---------------------------------------------------------------------
  // A well-formed reply
  // ---------------------------------------------------------------------

  /** `" " + x` strips to what `x` strips to. */
  lemma StripLeadingSpace(x: string)
    ensures Strip(" " + x) == Strip(x)
  {
    assert (" " + x)[1..] == x;
  }

  /** The first colon of `pre + q` is in `q` when `pre` has none. */
  lemma {:induction false} IndexOfAppend(pre: string, q: string, c: char)
    requires c !in pre && c in q
    ensures IndexOf(pre + q, c) == |pre| + IndexOf(q, c)
  {
    if |pre| == 0 {
      assert pre + q == q;
    } else {
      assert (pre + q)[0] == pre[0];
      assert (pre + q)[1..] == pre[1..] + q;
      IndexOfAppend(pre[1..], q, c);
    }
  }

  /** After a tag whose only colon is its last character comes the rest. */
  lemma AfterLabel(pre: string, rest: string)
    requires ':' !in pre
    ensures ':' in pre + ":" + rest && AfterColon(pre + ":" + rest) == rest
  {
    var q := ":" + rest;
    assert pre + ":" + rest == pre + q;
    IndexOfAppend(pre, q, ':');
    assert (pre + q)[|pre| + 1..] == rest;
  }

  lemma AnswerLabel(rest: string)
    ensures IsAnswerLine("Answer:" + rest) && !IsReasoningLine("Answer:" + rest)
  {
    var l := "Answer:" + rest;
    assert Lower(l)[..7] == "answer:";
    LabelsExclusive(l);
  }

  lemma ReasoningLabel(rest: string)
    ensures IsReasoningLine("Reasoning:" + rest) && !IsAnswerLine("Reasoning:" + rest)
  {
    var l := "Reasoning:" + rest;
    assert Lower(l)[..10] == "reasoning:";
    LabelsExclusive(l);
  }

  /** The reply format the request asks for: an answer line, then the
      reasoning, which may span several lines. */
  function AnswerField(a: string): string {
    "Answer: " + a
  }

  function ReasoningField(rsn: string): string {
    "Reasoning: " + rsn
  }

  function FormattedReply(a: string, rsn: string): string {
    AnswerField(a) + "\n" + ReasoningField(rsn)
  }

  /** The lines of a reasoning field start with a reasoning line. */
  lemma ReasoningLines(rsn: string)
    ensures |Split(ReasoningField(rsn), '\n')| > 0
    ensures IsReasoningLine(Split(ReasoningField(rsn), '\n')[0])
  {
    var tail := ReasoningField(rsn);
    if '\n' in rsn {
      var i := IndexOf(rsn, '\n');
      var first := "Reasoning: " + rsn[..i];
      assert tail == first + ['\n'] + rsn[i + 1..];
      SplitAtFirst(first, '\n', rsn[i + 1..]);
      assert first == "Reasoning:" + (" " + rsn[..i]);
      ReasoningLabel(" " + rsn[..i]);
    } else {
      SplitNoSeparator(tail, '\n');
      assert tail == "Reasoning:" + (" " + rsn);
      ReasoningLabel(" " + rsn);
    }
  }

  /** The answer line of a well-formed reply. */
  lemma AnswerLineOf(a: string)
    ensures IsAnswerLine(AnswerField(a)) && !IsReasoningLine(AnswerField(a))
    ensures AnswerText(AnswerField(a)) == Strip(a)
  {
    var line := AnswerField(a);
    assert line == "Answer:" + (" " + a);
    AnswerLabel(" " + a);
    AfterLabel("Answer", " " + a);
    assert "Answer" + ":" + (" " + a) == line;
    StripLeadingSpace(a);
  }

  /** The reasoning part of a well-formed reply. */
  lemma ReasoningOf(rsn: string)
    ensures |Split(ReasoningField(rsn), '\n')| > 0
    ensures IsReasoningLine(Split(ReasoningField(rsn), '\n')[0])
    ensures ReasoningText(Split(ReasoningField(rsn), '\n')) == Strip(rsn)
  {
    var tail := ReasoningField(rsn);
    ReasoningLines(rsn);
    JoinSplit(tail, '\n');
    assert "Reasoning" + ":" + (" " + rsn) == tail;
    AfterLabel("Reasoning", " " + rsn);
    StripLeadingSpace(rsn);
  }

  /** Two lines joined by a newline: stripped when the first starts and the
      second ends with a visible character, and split back into the first
      line and the pieces of the second. */
  lemma LineThenTail(line: string, tail: string)
    requires '\n' !in line && |line| > 0 && !IsSpace(line[0])
    requires |tail| > 0 && !IsSpace(tail[|tail| - 1])
    ensures Strip(line + "\n" + tail) == line + "\n" + tail
    ensures Split(line + "\n" + tail, '\n') == [line] + Split(tail, '\n')
  {
    var response := line + "\n" + tail;
    assert response[0] == line[0];
    assert response[|response| - 1] == tail[|tail| - 1];
    StripOfStripped(response);
    SplitAtFirst(line, '\n', tail);
  }

  lemma AnswerFieldSingle(a: string)
    requires '\n' !in a
    ensures '\n' !in AnswerField(a)
  {
  }

  /** A well-formed reply is already stripped and splits after its answer
      line. */
  lemma WellFormedLines(a: string, rsn: string)
    requires '\n' !in a
    requires |rsn| > 0 && !IsSpace(rsn[|rsn| - 1])
    ensures Strip(FormattedReply(a, rsn)) == FormattedReply(a, rsn)
    ensures Split(FormattedReply(a, rsn), '\n') == [AnswerField(a)] + Split(ReasoningField(rsn), '\n')
  {
    var tail := ReasoningField(rsn);
    assert AnswerField(a)[0] == 'A';
    assert tail[|tail| - 1] == rsn[|rsn| - 1];
    AnswerFieldSingle(a);
    LineThenTail(AnswerField(a), tail);
  }

  /** An answer line followed by a reasoning line: the scan takes the answer
      from the first and everything from the second on as reasoning. */
  lemma ScanAnswerThenReasoning(line: string, rest: seq<string>)
    requires IsAnswerLine(line)
    requires |rest| > 0 && IsReasoningLine(rest[0])
    ensures Scan([line] + rest, "") == (AnswerText(line), ReasoningText(rest))
  {
    LabelsExclusive(rest[0]);
    assert ([line] + rest)[1..] == rest;
  }

  /** The reply the request asks for parses to its stripped answer and
      reasoning; the reasoning may span several lines. */
  lemma WellFormedReply(a: string, rsn: string)
    requires '\n' !in a && Strip(a) != ""
    requires |rsn| > 0 && !IsSpace(rsn[|rsn| - 1])
    ensures ParseReply(FormattedReply(a, rsn)) == (Strip(a), Strip(rsn))
  {
    WellFormedLines(a, rsn);
    AnswerLineOf(a);
    ReasoningOf(rsn);
    ScanAnswerThenReasoning(AnswerField(a), Split(ReasoningField(rsn), '\n'));
  }

  /** When the model answers in the requested format, the prediction and
      its reasoning are the two fields, stripped. */
  lemma ApplyFormattedReply(env: Env, config: Doc, prompt: string, input: string, a: string, rsn: string)
    requires PredictRoute(config).Success?
    requires env.llm(PredictRoute(config).value, RequestText(prompt, input)) == Success(FormattedReply(a, rsn))
    requires '\n' !in a && Strip(a) != ""
    requires |rsn| > 0 && !IsSpace(rsn[|rsn| - 1])
    ensures ApplyPromptWithReason(env, config, prompt, input) == Success((Strip(a), Strip(rsn)))
  {
    WellFormedReply(a, rsn);
  }
}
