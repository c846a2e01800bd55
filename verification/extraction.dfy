/** The prompt extractor applied to every mutator response
    (prompt_optimizer.py:88-94): the interior of the first
    `START <prompt> ... </prompt> END` span, matched case-insensitively with
    `.` crossing line breaks, stripped; the whole response, stripped, when
    there is no such span.

    The pattern `START\s*<prompt>\s*(.*?)\s*</prompt>\s*END` is modelled by
    what a backtracking matcher finds: the leftmost start position that
    matches at all; at that position every `\s*` takes all the whitespace
    there is (each is followed by a non-space literal, so giving whitespace
    back never helps), and the lazy group ends at the smallest index from
    which `\s*</prompt>\s*END` matches. Giving whitespace back after
    `<prompt>` cannot rescue a failed search either: a group that starts
    earlier on whitespace reaches the same closing positions.
    `SpacesBeforeLiteral` and `GreedyGroupStart` state these two facts. */
module Extraction {
  import opened Wrappers
  import opened Text

  /** Case-insensitive match of the lower-case literal `lit` at index `i`. */
  predicate LitAt(s: string, i: nat, lit: string) {
    i + |lit| <= |s| && forall k | 0 <= k < |lit| :: ToLower(s[i + k]) == lit[k]
  }

  /** Greedy `\s*` from index `i`: the first non-space index at or after `i`. */
  function SkipSpaces(s: string, i: nat): (j: nat)
    requires i <= |s|
    ensures i <= j <= |s|
    decreases |s| - i
  {
    if i < |s| && IsSpace(s[i]) then SkipSpaces(s, i + 1) else i
  }

  /** `SkipSpaces` passes over whitespace only and stops at the first
      character that is not whitespace. */
  lemma {:induction false} SkipSpacesSpec(s: string, i: nat)
    requires i <= |s|
    ensures forall k | i <= k < SkipSpaces(s, i) :: IsSpace(s[k])
    ensures SkipSpaces(s, i) < |s| ==> !IsSpace(s[SkipSpaces(s, i)])
    decreases |s| - i
  {
    if i < |s| && IsSpace(s[i]) {
      SkipSpacesSpec(s, i + 1);
    }
  }

  /** Between `i` and `j <= SkipSpaces(s, i)` there is only whitespace, so a
      `\s*` that stops at `j` reaches the same end as one that starts there. */
  lemma {:induction false} SkipSpacesFrom(s: string, i: nat, j: nat)
    requires i <= j <= |s| && j <= SkipSpaces(s, i)
    ensures SkipSpaces(s, j) == SkipSpaces(s, i)
    decreases j - i
  {
    if i < j {
      assert i < |s| && IsSpace(s[i]);
      SkipSpacesFrom(s, i + 1, j);
    }
  }

  /** A `\s*` followed by a literal that starts with a non-space character
      can only stop where the greedy run stops: giving whitespace back leaves
      a space where the literal must start. This covers the `\s*` before
      `<prompt>`, `</prompt>` and `END`. */
  lemma SpacesBeforeLiteral(s: string, i: nat, j: nat, lit: string)
    requires i <= j <= |s|
    requires forall k | i <= k < j :: IsSpace(s[k])
    requires |lit| > 0 && !IsSpace(lit[0]) && LitAt(s, j, lit)
    ensures j == SkipSpaces(s, i)
  {
    SkipSpacesSpec(s, i);
    assert ToLower(s[j]) == lit[0];
  }

  /** The `\s*` before the lazy group: if the group could start earlier, on
      whitespace, and still reach a closing match, then a closing match is
      also reachable from the greedy start. So taking all the whitespace never
      loses a match. */
  lemma GreedyGroupStart(s: string, g0: nat, g: nat, e: nat)
    requires g0 <= g <= |s| && g <= SkipSpaces(s, g0)
    requires g <= e <= |s| && CloseAt(s, e)
    ensures SkipSpaces(s, g0) <= |s|
    ensures e < SkipSpaces(s, g0) ==> CloseAt(s, SkipSpaces(s, g0))
  {
    var q := SkipSpaces(s, g0);
    if e < q {
      SkipSpacesFrom(s, g0, e);
      SkipSpacesFrom(s, g0, q);
    }
  }

  /** `START\s*<prompt>\s*` at `p`: where the captured group begins. */
  function OpenAt(s: string, p: nat): Option<nat>
  {
    if !LitAt(s, p, "start") then None
    else
      var t := SkipSpaces(s, p + 5);
      if !LitAt(s, t, "<prompt>") then None
      else Some(SkipSpaces(s, t + 8))
  }

  /** `\s*</prompt>\s*END` matches from index `e`. */
  predicate CloseAt(s: string, e: nat)
    requires e <= |s|
  {
    var f := SkipSpaces(s, e);
    LitAt(s, f, "</prompt>") && LitAt(s, SkipSpaces(s, f + 9), "end")
  }

  /** A whole match starts at `p` with its group ending at `e`. */
  predicate SpanAt(s: string, p: nat, e: nat) {
    OpenAt(s, p).Some? && OpenAt(s, p).value <= e <= |s| && CloseAt(s, e)
  }

  /** Some match of the pattern exists in `s`. */
  ghost predicate HasSpan(s: string) {
    exists p: nat, e: nat :: SpanAt(s, p, e)
  }

  /** The match `re.search` reports: the leftmost start, and at that start the
      shortest group. */
  ghost predicate LeftmostSpan(s: string, p: nat, e: nat) {
    && SpanAt(s, p, e)
    && (forall p': nat, e': nat | p' < p :: !SpanAt(s, p', e'))
    && (forall e': nat | OpenAt(s, p).value <= e' < e :: !CloseAt(s, e'))
  }

  /** The lazy group: the smallest end at or after `e` the closing part
      matches from. */
  function FirstClose(s: string, e: nat): (r: Option<nat>)
    requires e <= |s|
    ensures r.Some? ==> e <= r.value <= |s| && CloseAt(s, r.value)
    ensures forall k | e <= k <= |s| && (r.None? || k < r.value) :: !CloseAt(s, k)
    decreases |s| - e
  {
    if CloseAt(s, e) then Some(e)
    else if e == |s| then None
    else FirstClose(s, e + 1)
  }

  /** A match found at start `start`, with group `[groupStart, groupEnd)`. */
  datatype Span = Span(start: nat, groupStart: nat, groupEnd: nat)

  /** The match attempt at one start position. */
  function MatchAt(s: string, p: nat): (r: Option<Span>)
    requires p <= |s|
    ensures r.Some? ==> r.value.start == p && OpenAt(s, p) == Some(r.value.groupStart)
    ensures r.Some? ==> SpanAt(s, p, r.value.groupEnd)
    ensures r.Some? ==> forall e' | r.value.groupStart <= e' < r.value.groupEnd :: !CloseAt(s, e')
    ensures r.None? ==> forall e: nat :: !SpanAt(s, p, e)
  {
    match OpenAt(s, p)
    case None => None
    case Some(q) =>
      if q > |s| then None
      else
        match FirstClose(s, q)
        case None => None
        case Some(e) => Some(Span(p, q, e))
  }

  /** The match attempts at every start position, in order. */
  function Attempts(s: string): (r: seq<Option<Span>>)
    ensures |r| == |s| + 1
    ensures forall p | 0 <= p <= |s| :: r[p] == MatchAt(s, p)
  {
    seq(|s| + 1, p requires 0 <= p <= |s| => MatchAt(s, p))
  }

  /** The first index at or after `p` holding a successful attempt, or `|ms|`
      when there is none. */
  function FirstFound(ms: seq<Option<Span>>, p: nat): (k: nat)
    requires p <= |ms|
    ensures p <= k <= |ms|
    ensures k < |ms| ==> ms[k].Some?
    ensures forall j | p <= j < k :: ms[j].None?
    decreases |ms| - p
  {
    if p == |ms| || ms[p].Some? then p else FirstFound(ms, p + 1)
  }

  /** `re.search`: the first start position whose attempt succeeds. */
  function Search(s: string): (r: Option<Span>)
    ensures r.Some? ==> r.value.start <= |s| && MatchAt(s, r.value.start) == r
    ensures r.Some? ==> r.value.groupStart <= r.value.groupEnd <= |s|
    ensures r.Some? ==> forall q | 0 <= q < r.value.start :: MatchAt(s, q).None?
    ensures r.None? ==> forall q | 0 <= q <= |s| :: MatchAt(s, q).None?
  {
    var ms := Attempts(s);
    var k := FirstFound(ms, 0);
    if k < |ms| then ms[k] else None
  }

  /** No match can start past the end of the text (the literal `START` needs
      five characters). */
  lemma NoSpanPastEnd(s: string, p: nat, e: nat)
    requires p > |s|
    ensures !SpanAt(s, p, e)
  {
  }

  /** `_extract_prompt_from_response`. */
  function ExtractPrompt(response: string): (r: string)
    ensures Stripped(r)
  {
    match Search(response)
    case Some(m) => Strip(response[m.groupStart..m.groupEnd])
    case None => Strip(response)
  }

  /** The extractor returns the stripped interior of the match `re.search`
      reports, and the whole stripped response when nothing matches. */
  lemma ExtractPromptSpec(response: string)
    ensures !HasSpan(response) ==> ExtractPrompt(response) == Strip(response)
    ensures HasSpan(response) ==>
      exists p: nat, e: nat | LeftmostSpan(response, p, e) ::
        ExtractPrompt(response) == Strip(response[OpenAt(response, p).value..e])
  {
    var ms := Attempts(response);
    var k := FirstFound(ms, 0);
    if k < |ms| {
      var m := ms[k].value;
      forall p: nat, e: nat | p < k
        ensures !SpanAt(response, p, e)
      {
        assert ms[p].None?;
      }
      assert LeftmostSpan(response, k, m.groupEnd);
    } else {
      forall p: nat, e: nat
        ensures !SpanAt(response, p, e)
      {
        if p <= |response| {
          assert ms[p].None?;
        } else {
          NoSpanPastEnd(response, p, e);
        }
      }
    }
  }

  /** The wrapping the mutator templates ask the model to use. */
  function Wrap(p: string): string {
    "START <prompt>\n" + p + "\n</prompt> END"
  }

  /** `</prompt>` occurs in `p` in any mix of letter case. */
  predicate MentionsCloseTag(p: string) {
    Contains(Lower(p), "</prompt>")
  }

  /** Inside a wrapped prompt that never mentions the closing tag, the closing
      part cannot match before the wrapper's own newline. */
  lemma NoCloseInside(p: string, k: nat)
    requires Stripped(p)
    requires !MentionsCloseTag(p)
    requires 15 <= k < 15 + |p|
    ensures !CloseAt(Wrap(p), k)
  {
    var s := Wrap(p);
    var n := |p|;
    assert s == "START <prompt>\n" + p + "\n</prompt> END";
    assert s[15 + n - 1] == p[n - 1];
    var f := SkipSpaces(s, k);
    SkipSpacesSpec(s, k);
    assert f < 15 + n;
    if f + 9 <= 15 + n {
      if LitAt(s, f, "</prompt>") {
        assert s[f..f + 9] == p[f - 15..f - 6];
        LowerSlice(p, f - 15, f - 6);
        assert OccursAt(Lower(p), "</prompt>", f - 15);
        assert false;
      }
    } else if f + 9 <= |s| {
      var i := 15 + n - f;
      assert s[f..f + 9][i] == '\n';
      assert Lower(s[f..f + 9])[i] == '\n';
      assert "</prompt>"[i] != '\n';
    }
  }

  /** Where the group begins inside a wrapped prompt. */
  function WrappedGroupStart(p: string): nat {
    if |p| == 0 then 16 else 15
  }

  /** The opening line's `START` and the space after it. */
  lemma StartOfHeader(s: string)
    requires |s| >= 15 && s[..15] == "START <prompt>\n"
    ensures LitAt(s, 0, "start") && SkipSpaces(s, 5) == 6
  {
    var h := s[..15];
    assert s[0] == h[0] && s[1] == h[1] && s[2] == h[2] && s[3] == h[3] && s[4] == h[4];
    assert s[5] == h[5] && s[6] == h[6];
    assert SkipSpaces(s, 6) == 6;
  }

  /** The opening line's tag and the newline after it. */
  lemma TagOfHeader(s: string)
    requires |s| >= 15 && s[..15] == "START <prompt>\n"
    ensures LitAt(s, 6, "<prompt>") && IsSpace(s[14])
  {
    var h := s[..15];
    assert s[6..14] == h[6..14] == "<prompt>";
    assert s[14] == h[14];
  }

  /** A text that starts with the wrapper's opening line opens right after
      it, past any further whitespace. */
  lemma OpenHeader(s: string)
    requires |s| >= 15 && s[..15] == "START <prompt>\n"
    ensures OpenAt(s, 0) == Some(SkipSpaces(s, 15))
  {
    StartOfHeader(s);
    TagOfHeader(s);
  }

  lemma OpenWrapped(p: string)
    requires Stripped(p)
    ensures OpenAt(Wrap(p), 0) == Some(WrappedGroupStart(p))
  {
    var s := Wrap(p);
    assert s[..15] == "START <prompt>\n";
    OpenHeader(s);
    if |p| == 0 {
      assert s[15] == '\n' && s[16] == '<';
      assert SkipSpaces(s, 16) == 16;
    } else {
      assert s[15] == p[0];
    }
  }

  lemma CloseWrapped(p: string)
    ensures CloseAt(Wrap(p), WrappedGroupStart(p) + |p|)
  {
    var s := Wrap(p);
    var c := 16 + |p|;
    assert s == "START <prompt>\n" + p + "\n</prompt> END";
    assert s[c - 1] == '\n' && s[c] == '<';
    assert SkipSpaces(s, c) == c;
    assert SkipSpaces(s, c - 1) == c;
    assert s[c..c + 9] == "</prompt>";
    assert LitAt(s, c, "</prompt>");
    assert s[c + 9] == ' ' && s[c + 10] == 'E';
    assert SkipSpaces(s, c + 10) == c + 10;
    assert SkipSpaces(s, c + 9) == c + 10;
    assert s[c + 10..c + 13] == "END";
    assert LitAt(s, c + 10, "end");
  }

  /** The lazy group of a wrapped prompt ends right after the prompt. */
  lemma FirstCloseWrapped(p: string)
    requires Stripped(p)
    requires !MentionsCloseTag(p)
    ensures WrappedGroupStart(p) + |p| <= |Wrap(p)|
    ensures FirstClose(Wrap(p), WrappedGroupStart(p)) == Some(WrappedGroupStart(p) + |p|)
  {
    var s := Wrap(p);
    var q := WrappedGroupStart(p);
    var e := q + |p|;
    CloseWrapped(p);
    forall k | q <= k < e
      ensures !CloseAt(s, k)
    {
      NoCloseInside(p, k);
    }
  }

  /** Round trip: a stripped prompt that never mentions the closing tag comes
      back unchanged from its wrapping. */
  lemma ExtractWrapped(p: string)
    requires Stripped(p)
    requires !MentionsCloseTag(p)
    ensures ExtractPrompt(Wrap(p)) == p
  {
    var s := Wrap(p);
    var q := WrappedGroupStart(p);
    var e := q + |p|;
    OpenWrapped(p);
    FirstCloseWrapped(p);
    assert MatchAt(s, 0) == Some(Span(0, q, e));
    assert Attempts(s)[0].Some?;
    assert Search(s) == Some(Span(0, q, e));
    assert s == "START <prompt>\n" + p + "\n</prompt> END";
    assert s[q..e] == p;
    StripOfStripped(p);
  }
}
