/** The golden-prompt file: the header `main.py` writes in front of the
    prompt (main.py:148-154) and the cleaning `load_golden_prompt` applies
    when reading it back (predict.py:67-80). Reading and writing the file,
    and the clock, are not part of the model. */
module GoldenFile {
  import opened Text

  /** A metadata line: once stripped, it starts with `#`. */
  predicate IsComment(line: string) {
    StartsWith(Strip(line), "#")
  }

  /** The loop over the file's lines: while `metadata` holds, comment lines
      are skipped; blank lines are always skipped; the first other line ends
      the metadata section and every later non-blank line is kept. */
  function KeepLines(lines: seq<string>, metadata: bool): (r: seq<string>)
    ensures |r| <= |lines|
    ensures forall k | 0 <= k < |r| :: Strip(r[k]) != "" && r[k] in lines
    ensures metadata && |r| > 0 ==> !IsComment(r[0])
  {
    if |lines| == 0 then []
    else if metadata && IsComment(lines[0]) then KeepLines(lines[1..], metadata)
    else if Strip(lines[0]) == "" then KeepLines(lines[1..], metadata)
    else [lines[0]] + KeepLines(lines[1..], false)
  }

  /** The text transform of `load_golden_prompt`: split into lines, keep
      the prompt lines, join them and strip the result. */
  function CleanGoldenPrompt(content: string): (r: string)
    ensures Stripped(r)
  {
    Strip(Join(KeepLines(Split(content, '\n'), true), '\n'))
  }

  // ---------------------------------------------------------------------
  // Which lines survive
  // ---------------------------------------------------------------------

  /** The lines that are not blank, in order. */
  function NonBlank(lines: seq<string>): seq<string> {
    if |lines| == 0 then []
    else (if Strip(lines[0]) == "" then [] else [lines[0]]) + NonBlank(lines[1..])
  }

  /** Where the prompt body starts: the first line that is neither blank
      nor a comment, or `|lines|` when there is none. */
  function BodyStart(lines: seq<string>): (k: nat)
    ensures k <= |lines|
    ensures forall j | 0 <= j < k :: Strip(lines[j]) == "" || IsComment(lines[j])
    ensures k < |lines| ==> Strip(lines[k]) != "" && !IsComment(lines[k])
  {
    if |lines| == 0 || (Strip(lines[0]) != "" && !IsComment(lines[0])) then 0
    else BodyStart(lines[1..]) + 1
  }

  /** Comment lines are dropped only before the body starts; from there on
      every non-blank line is kept, comment or not, and blank lines are
      dropped everywhere. */
  lemma {:induction false} KeepLinesSpec(lines: seq<string>)
    ensures KeepLines(lines, false) == NonBlank(lines)
    ensures KeepLines(lines, true) == NonBlank(lines[BodyStart(lines)..])
  {
    if |lines| > 0 {
      KeepLinesSpec(lines[1..]);
      if Strip(lines[0]) == "" || IsComment(lines[0]) {
        assert lines[BodyStart(lines)..] == lines[1..][BodyStart(lines[1..])..];
      } else {
        assert lines[BodyStart(lines)..] == lines;
      }
    }
  }

  /** Lines that are all non-blank, the first not a comment, are kept whole. */
  lemma {:induction false} KeepAll(lines: seq<string>, metadata: bool)
    requires forall k | 0 <= k < |lines| :: Strip(lines[k]) != ""
    requires metadata && |lines| > 0 ==> !IsComment(lines[0])
    ensures KeepLines(lines, metadata) == lines
  {
    if |lines| > 0 {
      KeepAll(lines[1..], false);
      assert [lines[0]] + lines[1..] == lines;
    }
  }

  /** A block of comment and blank lines in front is skipped whole. */
  lemma {:induction false} SkipMetadata(head: seq<string>, rest: seq<string>)
    requires forall k | 0 <= k < |head| :: IsComment(head[k]) || Strip(head[k]) == ""
    ensures KeepLines(head + rest, true) == KeepLines(rest, true)
  {
    if |head| > 0 {
      assert (head + rest)[0] == head[0];
      assert (head + rest)[1..] == head[1..] + rest;
      SkipMetadata(head[1..], rest);
    } else {
      assert head + rest == rest;
    }
  }

  // ---------------------------------------------------------------------
  // Cleaning is idempotent
  // ---------------------------------------------------------------------

  /** The lines with the first one left-stripped and the last one
      right-stripped: what stripping does to their join. */
  function TrimEnds(ls: seq<string>): (r: seq<string>)
    requires |ls| >= 1
    ensures |r| == |ls|
  {
    if |ls| == 1 then [Strip(ls[0])]
    else [LStrip(ls[0])] + ls[1..|ls| - 1] + [RStrip(ls[|ls| - 1])]
  }

  /** Left-stripping a join touches only its first line. */
  lemma LStripJoin(ls: seq<string>, d: char)
    requires |ls| >= 1 && !Blank(ls[0])
    ensures LStrip(Join(ls, d)) == Join([LStrip(ls[0])] + ls[1..], d)
  {
    if |ls| >= 2 {
      var a := LStrip(ls[0]);
      var rest := Join(ls[1..], d);
      assert Join(ls, d) == ls[0] + ([d] + rest);
      LStripAppend(ls[0], [d] + rest);
      assert ([a] + ls[1..])[1..] == ls[1..];
    }
  }

  /** Right-stripping a join touches only its last line. */
  lemma RStripJoin(ls: seq<string>, d: char)
    requires |ls| >= 1 && !Blank(ls[|ls| - 1])
    ensures RStrip(Join(ls, d)) == Join(ls[..|ls| - 1] + [RStrip(ls[|ls| - 1])], d)
  {
    var n := |ls|;
    if n >= 2 {
      var init := ls[..n - 1];
      var last := ls[n - 1];
      assert ls == init + [last];
      JoinAppendOne(init, last, d);
      RStripPrepend(Join(init, d) + [d], last);
      JoinAppendOne(init, RStrip(last), d);
    }
  }

  /** Stripping a join of non-blank lines only touches the outer ends of
      the first and the last line. */
  lemma StripJoin(ls: seq<string>, d: char)
    requires |ls| >= 1
    requires forall k | 0 <= k < |ls| :: !Blank(ls[k])
    ensures Strip(Join(ls, d)) == Join(TrimEnds(ls), d)
  {
    var n := |ls|;
    if n >= 2 {
      var left := [LStrip(ls[0])] + ls[1..];
      LStripJoin(ls, d);
      assert left[n - 1] == ls[n - 1];
      RStripJoin(left, d);
      assert left[..n - 1] == [LStrip(ls[0])] + ls[1..n - 1];
    }
  }

  /** Stripping either end of a line does not change whether it is a
      comment. */
  lemma CommentAfterTrim(x: string)
    ensures IsComment(LStrip(x)) == IsComment(x)
    ensures IsComment(Strip(x)) == IsComment(x)
  {
    LStripIdempotent(x);
    StripOfStripped(Strip(x));
  }

  /** Cleaning a cleaned text changes nothing. */
  lemma CleanIsIdempotent(content: string)
    ensures CleanGoldenPrompt(CleanGoldenPrompt(content)) == CleanGoldenPrompt(content)
  {
    var lines := Split(content, '\n');
    var kept := KeepLines(lines, true);
    var out := CleanGoldenPrompt(content);
    if |kept| == 0 {
      assert out == "";
      assert Split(out, '\n') == [""];
    } else {
      forall k | 0 <= k < |kept|
        ensures !Blank(kept[k]) && '\n' !in kept[k]
      {
        StripEmptyIffBlank(kept[k]);
      }
      StripJoin(kept, '\n');
      var t := TrimEnds(kept);
      forall k | 0 <= k < |t|
        ensures Strip(t[k]) != "" && '\n' !in t[k]
      {
        StripKeepsNonBlank(kept[k]);
        StripKeepsSingleLine(kept[k]);
        if |kept| == 1 {
          StripKeepsNonBlank(Strip(kept[0]));
        } else if k == 0 {
          StripKeepsNonBlank(LStrip(kept[0]));
        } else if k == |t| - 1 {
          StripKeepsNonBlank(RStrip(kept[k]));
        } else {
          assert t[k] == kept[k];
        }
        StripEmptyIffBlank(t[k]);
      }
      CommentAfterTrim(kept[0]);
      SplitJoin(t, '\n');
      KeepAll(t, true);
      StripOfStripped(out);
    }
  }

  // ---------------------------------------------------------------------
  // The header main.py writes, read back
  // ---------------------------------------------------------------------

  /** The header `main.py` writes before the golden prompt, one line per
      `write` call; the last call adds the blank line. The timestamp and the
      `:.1f` renderings of the success rate and quality score are
      parameters. */
  function HeaderLines(timestamp: string, useCase: string, testCases: nat, successRate: string, quality: string): seq<string> {
    [ "# Golden Prompt Generated on " + timestamp,
      "# Use Case: " + useCase,
      "# Test Cases: " + NatToString(testCases),
      "# Final Success Rate: " + successRate + "%",
      "# Quality Score: " + quality + "/100",
      "" ]
  }

  /** The file `main.py` writes: each header line ended by a newline, then
      the prompt. */
  function GoldenFileText(timestamp: string, useCase: string, testCases: nat, successRate: string, quality: string, prompt: string): string {
    Concat(HeaderLines(timestamp, useCase, testCases, successRate, quality), '\n') + prompt
  }

  /** A line that starts with `#` is a comment. */
  lemma HashLineIsComment(x: string)
    requires |x| > 0 && x[0] == '#'
    ensures IsComment(x)
  {
    assert !Blank(x);
    StripFirst(x);
  }

  /** The prompt has no line that is blank. */
  predicate NoBlankLines(p: string) {
    forall k | 0 <= k < |Split(p, '\n')| :: Strip(Split(p, '\n')[k]) != ""
  }

  /** The header's lines are all metadata, so cleaning skips them. */
  lemma HeaderSkipped(timestamp: string, useCase: string, testCases: nat, successRate: string, quality: string, rest: seq<string>)
    ensures KeepLines(HeaderLines(timestamp, useCase, testCases, successRate, quality) + rest, true) == KeepLines(rest, true)
  {
    var h := HeaderLines(timestamp, useCase, testCases, successRate, quality);
    forall k | 0 <= k < |h|
      ensures IsComment(h[k]) || Strip(h[k]) == ""
    {
      if k < 5 {
        HashLineIsComment(h[k]);
      }
    }
    SkipMetadata(h, rest);
  }

  /** The file splits into the header lines and the prompt's lines. */
  lemma SplitGoldenFile(timestamp: string, useCase: string, testCases: nat, successRate: string, quality: string, prompt: string)
    requires '\n' !in timestamp && '\n' !in useCase && '\n' !in successRate && '\n' !in quality
    ensures Split(GoldenFileText(timestamp, useCase, testCases, successRate, quality, prompt), '\n')
      == HeaderLines(timestamp, useCase, testCases, successRate, quality) + Split(prompt, '\n')
  {
    var h := HeaderLines(timestamp, useCase, testCases, successRate, quality);
    assert '\n' !in NatToString(testCases);
    assert forall k | 0 <= k < |h| :: '\n' !in h[k];
    SplitAfterPieces(h, '\n', prompt);
  }

  /** The first line of a text that starts with a visible character
      starts with that character. */
  lemma FirstLineStart(prompt: string)
    requires prompt != "" && !IsSpace(prompt[0])
    ensures |Split(prompt, '\n')[0]| > 0 && Split(prompt, '\n')[0][0] == prompt[0]
  {
  }

  /** A stripped prompt with no blank line that does not start with `#`
      survives cleaning unchanged. */
  lemma PromptSurvives(prompt: string)
    requires Stripped(prompt)
    requires prompt != "" ==> NoBlankLines(prompt) && prompt[0] != '#'
    ensures Strip(Join(KeepLines(Split(prompt, '\n'), true), '\n')) == prompt
  {
    var p := Split(prompt, '\n');
    if prompt == "" {
      assert p == [""];
    } else {
      FirstLineStart(prompt);
      var first := p[0];
      assert !Blank(first);
      assert LStrip(first) == first;
      StripFirst(first);
      KeepAll(p, true);
      JoinSplit(prompt, '\n');
      StripOfStripped(prompt);
    }
  }

  /** Reading back the file `main.py` writes yields the golden prompt, when
      the prompt is stripped, has no blank line and does not start with
      `#`, and no header field holds a newline. */
  lemma HeaderRoundTrip(timestamp: string, useCase: string, testCases: nat, successRate: string, quality: string, prompt: string)
    requires '\n' !in timestamp && '\n' !in useCase && '\n' !in successRate && '\n' !in quality
    requires Stripped(prompt)
    requires prompt != "" ==> NoBlankLines(prompt) && prompt[0] != '#'
    ensures CleanGoldenPrompt(GoldenFileText(timestamp, useCase, testCases, successRate, quality, prompt)) == prompt
  {
    SplitGoldenFile(timestamp, useCase, testCases, successRate, quality, prompt);
    HeaderSkipped(timestamp, useCase, testCases, successRate, quality, Split(prompt, '\n'));
    PromptSurvives(prompt);
  }
}
