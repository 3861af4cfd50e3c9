/** The prompt form (src/components/PromptInput.tsx): the four inputs it
    holds, how submitting turns them into a generation request, and when
    the submit button is enabled. */
module PromptInput {
  import opened Wrappers
  import opened Types

  /** The characters `String.prototype.trim` removes: the ECMAScript
      WhiteSpace (tab, vertical tab, form feed, space, no-break space,
      byte order mark and the Zs space separators) and LineTerminator
      (line feed, carriage return, line and paragraph separators). */
  const WhitespaceChars: set<char> := {
    '\t', '\n', '\U{000B}', '\U{000C}', '\r', ' ', '\U{00A0}', '\U{1680}',
    '\U{2000}', '\U{2001}', '\U{2002}', '\U{2003}', '\U{2004}', '\U{2005}',
    '\U{2006}', '\U{2007}', '\U{2008}', '\U{2009}', '\U{200A}',
    '\U{2028}', '\U{2029}', '\U{202F}', '\U{205F}', '\U{3000}', '\U{FEFF}' }

  predicate IsWhitespace(c: char)
  {
    c in WhitespaceChars
  }

  predicate AllWhitespace(s: string)
  {
    forall i :: 0 <= i < |s| ==> IsWhitespace(s[i])
  }

  /** A whitespace character in front of a suffix `r` of `s[1..]` that has
      only whitespace before it leaves `r` a suffix of `s` with only
      whitespace before it. */
  lemma LeadingStep(s: string, r: string)
    requires s != [] && IsWhitespace(s[0])
    requires |r| <= |s| - 1 && r == s[1..][|s| - 1 - |r|..] && AllWhitespace(s[1..][..|s| - 1 - |r|])
    ensures r == s[|s| - |r|..] && AllWhitespace(s[..|s| - |r|])
  {
    assert s[..|s| - |r|] == [s[0]] + s[1..][..|s| - 1 - |r|];
  }

  /** Drops the leading whitespace: the result is a suffix of `s` starting
      with a non-whitespace character, and everything dropped is whitespace. */
  function TrimStart(s: string): (r: string)
    ensures |r| <= |s| && r == s[|s| - |r|..]
    ensures AllWhitespace(s[..|s| - |r|])
    ensures r == [] || !IsWhitespace(r[0])
  {
    if s != [] && IsWhitespace(s[0]) then
      var r := TrimStart(s[1..]);
      LeadingStep(s, r);
      r
    else s
  }

  /** A whitespace character after a prefix `r` of `s[..|s| - 1]` that has
      only whitespace after it leaves `r` a prefix of `s` with only
      whitespace after it. */
  lemma TrailingStep(s: string, r: string)
    requires s != [] && IsWhitespace(s[|s| - 1])
    requires |r| <= |s| - 1 && r == s[..|s| - 1][..|r|] && AllWhitespace(s[..|s| - 1][|r|..])
    ensures r == s[..|r|] && AllWhitespace(s[|r|..])
  {
    assert s[|r|..] == s[..|s| - 1][|r|..] + [s[|s| - 1]];
  }

  /** Drops the trailing whitespace: the result is a prefix of `s` ending with
      a non-whitespace character, and everything dropped is whitespace. */
  function TrimEnd(s: string): (r: string)
    ensures |r| <= |s| && r == s[..|r|]
    ensures AllWhitespace(s[|r|..])
    ensures r == [] || !IsWhitespace(r[|r| - 1])
  {
    if s != [] && IsWhitespace(s[|s| - 1]) then
      var r := TrimEnd(s[..|s| - 1]);
      TrailingStep(s, r);
      r
    else s
  }

  /** Dropping whitespace from the front (leaving `t`) and then from the
      back (leaving `r`) keeps a slice of `s` and drops only whitespace on
      either side of it. */
  lemma TrimSlice(s: string, t: string, r: string)
    requires |t| <= |s| && t == s[|s| - |t|..] && AllWhitespace(s[..|s| - |t|])
    requires |r| <= |t| && r == t[..|r|] && AllWhitespace(t[|r|..])
    ensures r == s[|s| - |t|..|s| - |t| + |r|]
    ensures AllWhitespace(s[|s| - |t| + |r|..])
  {
    var a := |s| - |t|;
    assert t[..|r|] == s[a..a + |r|];
    assert t[|r|..] == s[a + |r|..];
  }

  /** After dropping the leading (leaving `t`) and then the trailing
      whitespace (leaving `r`), nothing is left exactly when `s` was all
      whitespace, and what is left starts and ends with other characters. */
  lemma TrimEmptiness(s: string, t: string, r: string)
    requires |t| <= |s| && t == s[|s| - |t|..] && AllWhitespace(s[..|s| - |t|])
    requires t == [] || !IsWhitespace(t[0])
    requires |r| <= |t| && r == t[..|r|] && AllWhitespace(t[|r|..])
    requires r == [] || !IsWhitespace(r[|r| - 1])
    ensures r == [] <==> AllWhitespace(s)
    ensures r != [] ==> !IsWhitespace(r[0]) && !IsWhitespace(r[|r| - 1])
  {
    var a := |s| - |t|;
    assert s == s[..a] + t;
    if r == [] {
      assert t == t[|r|..];
    } else {
      assert r[0] == t[0];
      assert s[a] == t[0];
    }
  }

  /** Trimming the front to `t` and then the back to `r` leaves exactly
      what `trim()` promises: a slice of `s` with only whitespace around it,
      empty exactly when `s` is all whitespace, and otherwise starting and
      ending with a non-whitespace character. */
  lemma TrimmedSlice(s: string, t: string, r: string)
    requires |t| <= |s| && t == s[|s| - |t|..] && AllWhitespace(s[..|s| - |t|])
    requires t == [] || !IsWhitespace(t[0])
    requires |r| <= |t| && r == t[..|r|] && AllWhitespace(t[|r|..])
    requires r == [] || !IsWhitespace(r[|r| - 1])
    ensures r == [] <==> AllWhitespace(s)
    ensures r != [] ==> !IsWhitespace(r[0]) && !IsWhitespace(r[|r| - 1])
    ensures exists a, b :: 0 <= a <= b <= |s| && r == s[a..b] && AllWhitespace(s[..a]) && AllWhitespace(s[b..])
  {
    TrimSlice(s, t, r);
    TrimEmptiness(s, t, r);
    var a, b := |s| - |t|, |s| - |t| + |r|;
    assert 0 <= a <= b <= |s| && r == s[a..b] && AllWhitespace(s[..a]) && AllWhitespace(s[b..]);
  }

  /** `s.trim()`: the input with its leading and trailing whitespace removed
      and nothing else; empty exactly for whitespace-only input, and
      otherwise starting and ending with a non-whitespace character. */
  function Trim(s: string): (r: string)
    ensures |r| <= |s|
    ensures r == [] <==> AllWhitespace(s)
    ensures r != [] ==> !IsWhitespace(r[0]) && !IsWhitespace(r[|r| - 1])
    ensures exists a, b :: 0 <= a <= b <= |s| && r == s[a..b] && AllWhitespace(s[..a]) && AllWhitespace(s[b..])
  {
    TrimmedSlice(s, TrimStart(s), TrimEnd(TrimStart(s)));
    TrimEnd(TrimStart(s))
  }

  /** Trimming a trimmed string changes nothing. */
  lemma TrimIdempotent(s: string)
    ensures Trim(Trim(s)) == Trim(s)
  {
    var t := Trim(s);
    assert TrimStart(t) == t;
    assert TrimEnd(t) == t;
  }

  /** `text.trim() || undefined`: the trimmed text, or unset when nothing
      but whitespace was entered. */
  function OptionalTrimmed(s: string): (r: Option<string>)
    ensures r.None? <==> AllWhitespace(s)
    ensures r.Some? ==> r.value == Trim(s) && r.value != []
  {
    var t := Trim(s);
    if t == [] then None else Some(t)
  }

  /** The values the form holds. */
  datatype FormState = FormState(
    prompt: string,
    experimentName: string,
    experimentDescription: string,
    numberOfRuns: int)

  /** The choices the run-count selector offers. */
  const RunOptions: seq<int> := [3, 5, 10, 15, 20]

  /** The form before any input: empty texts and five runs. */
  function InitialForm(): (f: FormState)
    ensures f.prompt == [] && f.experimentName == [] && f.experimentDescription == []
    ensures f.numberOfRuns == 5 && f.numberOfRuns in RunOptions
  {
    FormState("", "", "", 5)
  }

  /** The `onChange` handlers of the four inputs. The selector reports the
      value of one of its options. */
  datatype FormEvent =
    | EditPrompt(text: string)
    | EditName(text: string)
    | EditDescription(text: string)
    | PickRuns(runs: int)

  predicate Offered(ev: FormEvent)
  {
    ev.PickRuns? ==> ev.runs in RunOptions
  }

  function Apply(f: FormState, ev: FormEvent): FormState
  {
    match ev
    case EditPrompt(t) => f.(prompt := t)
    case EditName(t) => f.(experimentName := t)
    case EditDescription(t) => f.(experimentDescription := t)
    case PickRuns(n) => f.(numberOfRuns := n)
  }

  /** The form after a sequence of input events. */
  function Replay(f: FormState, evs: seq<FormEvent>): FormState
    decreases |evs|
  {
    if evs == [] then f else Replay(Apply(f, evs[0]), evs[1..])
  }

  /** Starting from the initial form, the run count is always one of the
      selector's choices. */
  lemma {:induction false} RunsAlwaysOffered(f: FormState, evs: seq<FormEvent>)
    requires f.numberOfRuns in RunOptions
    requires forall i :: 0 <= i < |evs| ==> Offered(evs[i])
    ensures Replay(f, evs).numberOfRuns in RunOptions
    decreases |evs|
  {
    if evs != [] {
      assert Offered(evs[0]);
      RunsAlwaysOffered(Apply(f, evs[0]), evs[1..]);
    }
  }

  /** `handleSubmit`: a whitespace-only prompt is rejected (an alert and no
      call to `onGenerate`); otherwise one request is built from the trimmed
      texts, with the range and the run count passed through unchanged. */
  function HandleSubmit(f: FormState, range: ParameterRange): (r: Option<GenerationRequest>)
    ensures r.None? <==> AllWhitespace(f.prompt)
    ensures r.Some? ==> r.value.prompt == Trim(f.prompt) && r.value.prompt != []
    ensures r.Some? ==> !IsWhitespace(r.value.prompt[0]) && !IsWhitespace(r.value.prompt[|r.value.prompt| - 1])
    ensures r.Some? ==> r.value.parameterRange == range && r.value.numberOfRuns == f.numberOfRuns
    ensures r.Some? ==> r.value.experimentName == OptionalTrimmed(f.experimentName)
    ensures r.Some? ==> r.value.experimentDescription == OptionalTrimmed(f.experimentDescription)
  {
    var prompt := Trim(f.prompt);
    if prompt == [] then None
    else Some(GenerationRequest(
      prompt, range, f.numberOfRuns,
      OptionalTrimmed(f.experimentName), OptionalTrimmed(f.experimentDescription)))
  }

  /** The submit button: disabled while generating or while the prompt is
      only whitespace. */
  predicate SubmitEnabled(isGenerating: bool, f: FormState)
  {
    !(isGenerating || Trim(f.prompt) == [])
  }

  /** A click on an enabled submit button always yields a request. */
  lemma EnabledSubmitBuildsRequest(isGenerating: bool, f: FormState, range: ParameterRange)
    ensures SubmitEnabled(isGenerating, f) <==> !isGenerating && HandleSubmit(f, range).Some?
  {
  }

  /** Every request built from a form the user has edited carries one of the
      offered run counts, and its trimmed texts are fixed points of trimming. */
  lemma SubmittedRequestWellFormed(evs: seq<FormEvent>, range: ParameterRange)
    requires forall i :: 0 <= i < |evs| ==> Offered(evs[i])
    requires HandleSubmit(Replay(InitialForm(), evs), range).Some?
    ensures HandleSubmit(Replay(InitialForm(), evs), range).value.numberOfRuns in RunOptions
    ensures Trim(HandleSubmit(Replay(InitialForm(), evs), range).value.prompt)
         == HandleSubmit(Replay(InitialForm(), evs), range).value.prompt
  {
    RunsAlwaysOffered(InitialForm(), evs);
    TrimIdempotent(Replay(InitialForm(), evs).prompt);
  }
}
