/** The experiment history list (src/components/ExperimentHistory.tsx): text
    previews, the display name, the best and average score of an experiment,
    and the view state the list keeps (the loaded experiments, the set of
    expanded responses, the experiment whose export menu is open). */
module ExperimentHistory {
  import opened Wrappers
  import opened Types
  import opened Metrics
  import Export

  /** `truncateText`'s default limit, applied to response contents. */
  const ResponsePreviewLength: nat := 150
  /** The limit of the inline prompt preview. */
  const PromptPreviewLength: nat := 100

  /** `truncateText(text, maxLength)`: short text is kept whole; longer text
      is cut to its first `maxLength` characters followed by an ellipsis. */
  function Truncate(text: string, maxLength: nat): (r: string)
    ensures |text| <= maxLength ==> r == text
    ensures |text| > maxLength ==> |r| == maxLength + 3
    ensures |text| > maxLength ==> r[..maxLength] == text[..maxLength] && r[maxLength..] == "..."
  {
    if |text| <= maxLength then text else text[..maxLength] + "..."
  }

  /** Truncating a preview again changes nothing: a cut preview is
      `maxLength + 3` long, and cutting it keeps the same prefix and ellipsis. */
  lemma TruncateIdempotent(text: string, maxLength: nat)
    ensures Truncate(Truncate(text, maxLength), maxLength) == Truncate(text, maxLength)
  {
  }

  /** The inline prompt preview, written out separately in the list markup. */
  function PromptPreview(prompt: string): (r: string)
    ensures r == Truncate(prompt, PromptPreviewLength)
  {
    if |prompt| > 100 then prompt[..100] + "..." else prompt
  }

  /** `s.slice(-n)` for a positive `n`: the last `n` characters, or all of
      `s` when shorter. (`slice(-0)` would return all of `s`.) */
  function SliceLast(s: string, n: nat): (r: string)
    requires n > 0
    ensures |r| == if |s| < n then |s| else n
    ensures r == s[|s| - |r|..]
  {
    if |s| <= n then s else s[|s| - n..]
  }

  /** The heading of an experiment card: its name when set and non-empty,
      otherwise "Experiment " and the last eight characters of its id. */
  function DisplayName(e: ExperimentData): (r: string)
    ensures e.name.Some? && e.name.value != [] ==> r == e.name.value
    ensures e.name.None? || e.name.value == [] ==> r == "Experiment " + SliceLast(e.id, 8)
  {
    if e.name.Some? && e.name.value != [] then e.name.value
    else "Experiment " + SliceLast(e.id, 8)
  }

  /** The fallback name keeps at most eight characters of the id, all of a
      short id, and they end the heading. */
  lemma FallbackNameShape(e: ExperimentData)
    requires e.name.None? || e.name.value == []
    ensures |DisplayName(e)| == 11 + (if |e.id| < 8 then |e.id| else 8)
    ensures DisplayName(e)[..11] == "Experiment "
    ensures |e.id| <= 8 ==> DisplayName(e)[11..] == e.id
  {
  }

  /** The JavaScript numbers the score helpers can yield: a finite value,
      `NaN` (zero divided by zero) or `-Infinity` (`Math.max()` of nothing). */
  datatype Num = Finite(value: real) | NaN | NegInfinity

  /** `Math.max(...xs)`: starts from `-Infinity` and keeps the larger value. */
  function MathMax(xs: seq<real>): (r: Num)
    ensures xs == [] <==> r == NegInfinity
    ensures r != NaN
    ensures r.Finite? ==> forall i :: 0 <= i < |xs| ==> xs[i] <= r.value
    ensures r.Finite? ==> exists i :: 0 <= i < |xs| && xs[i] == r.value
  {
    if xs == [] then NegInfinity
    else
      var m := MathMax(xs[..|xs| - 1]);
      var x := xs[|xs| - 1];
      if m == NegInfinity then Finite(x)
      else if x > m.value then Finite(x)
      else Finite(m.value)
  }

  function OverallScores(rs: seq<ResponseData>): (xs: seq<real>)
    ensures |xs| == |rs|
    ensures forall i :: 0 <= i < |rs| ==> xs[i] == rs[i].metrics.overallScore
  {
    seq(|rs|, i requires 0 <= i < |rs| => rs[i].metrics.overallScore)
  }

  /** `getBestScore`: the largest overall score of the experiment's
      responses, which is one of them; `-Infinity` when there are none. */
  function GetBestScore(e: ExperimentData): (r: Num)
    ensures e.responses == [] ==> r == NegInfinity
    ensures e.responses != [] ==> r.Finite?
    ensures r.Finite? ==> forall i :: 0 <= i < |e.responses| ==> e.responses[i].metrics.overallScore <= r.value
    ensures r.Finite? ==> exists i :: 0 <= i < |e.responses| && e.responses[i].metrics.overallScore == r.value
  {
    var xs := OverallScores(e.responses);
    var r := MathMax(xs);
    assert r.Finite? ==> exists i :: 0 <= i < |xs| && xs[i] == r.value;
    r
  }

  /** `getAverageScore`: the sum of the overall scores divided by their
      count; zero divided by zero (`NaN`) when there are none. */
  function GetAverageScore(e: ExperimentData): (r: Num)
    ensures e.responses == [] ==> r == NaN
    ensures e.responses != [] ==> r == Finite(Sum(e.responses, Overall) / (|e.responses| as real))
  {
    if e.responses == [] then NaN else Finite(Mean(e.responses, Overall))
  }

  /** The average shown on a card never exceeds the best score shown beside it. */
  lemma AverageAtMostBest(e: ExperimentData)
    requires e.responses != []
    ensures GetAverageScore(e).value <= GetBestScore(e).value
  {
    var rs := e.responses;
    var best := GetBestScore(e).value;
    assert AllAtMost(rs, Overall, best);
    MeanAtMost(rs, Overall, best);
  }

  /** A non-empty experiment whose overall scores all lie in `[0, 1]` shows a
      best and an average score in `[0, 1]`. */
  lemma CardScoresWithinUnit(e: ExperimentData)
    requires e.responses != []
    requires AllAtLeast(e.responses, Overall, 0.0) && AllAtMost(e.responses, Overall, 1.0)
    ensures 0.0 <= GetBestScore(e).value <= 1.0
    ensures 0.0 <= GetAverageScore(e).value <= 1.0
  {
    var rs := e.responses;
    var i :| 0 <= i < |rs| && rs[i].metrics.overallScore == GetBestScore(e).value;
    assert Score(rs[i].metrics, Overall) == rs[i].metrics.overallScore;
    MeanAtLeast(rs, Overall, 0.0);
    MeanAtMost(rs, Overall, 1.0);
  }

  /** The set that `toggleResponseExpansion(id)` stores: `id` removed when it
      was present, added when it was absent. */
  function Toggled(s: set<string>, id: string): (r: set<string>)
    ensures id in r <==> id !in s
    ensures forall x :: x != id ==> (x in r <==> x in s)
  {
    if id in s then s - {id} else s + {id}
  }

  /** Toggling the same response twice restores the original set. */
  lemma ToggleTwice(s: set<string>, id: string)
    ensures Toggled(Toggled(s, id), id) == s
  {
  }

  /** What a response card shows: the whole content when expanded, its
      150-character preview otherwise. */
  function ResponsePreview(content: string, responseId: string, expanded: set<string>): (r: string)
    ensures responseId in expanded ==> r == content
    ensures responseId !in expanded ==> r == Truncate(content, ResponsePreviewLength)
  {
    if responseId in expanded then content else Truncate(content, ResponsePreviewLength)
  }

  /** The "Read More" / "Read Less" button is offered only for contents that
      a preview would cut. */
  predicate ShowsExpandButton(content: string)
  {
    |content| > ResponsePreviewLength
  }

  /** Expanding a collapsed response shows its full content; collapsing it
      again brings back the same preview; no other response's text changes. */
  lemma ToggleRevealsContent(content: string, responseId: string, other: string, s: set<string>)
    ensures responseId !in s ==> ResponsePreview(content, responseId, Toggled(s, responseId)) == content
    ensures ResponsePreview(content, responseId, Toggled(Toggled(s, responseId), responseId))
            == ResponsePreview(content, responseId, s)
    ensures other != responseId ==>
      ResponsePreview(content, other, Toggled(s, responseId)) == ResponsePreview(content, other, s)
  {
  }

  /** Content without an expand button reads the same whether expanded or not. */
  lemma ShortContentShownWhole(content: string, responseId: string, s: set<string>)
    requires !ShowsExpandButton(content)
    ensures ResponsePreview(content, responseId, s) == content
  {
  }

  /** The list after a successful delete: `prev.filter(exp => exp.id !== id)`. */
  function WithoutId(exps: seq<ExperimentData>, id: string): (r: seq<ExperimentData>)
    ensures |r| <= |exps|
    ensures forall e :: e in r ==> e in exps && e.id != id
    ensures forall e :: e in exps && e.id != id ==> e in r
  {
    if exps == [] then []
    else (if exps[0].id == id then [] else [exps[0]]) + WithoutId(exps[1..], id)
  }

  /** The filter works element by element, so it keeps the relative order of
      the experiments it retains. */
  lemma {:induction false} WithoutIdAppend(a: seq<ExperimentData>, b: seq<ExperimentData>, id: string)
    ensures WithoutId(a + b, id) == WithoutId(a, id) + WithoutId(b, id)
  {
    if a != [] {
      assert (a + b)[1..] == a[1..] + b;
      WithoutIdAppend(a[1..], b, id);
    } else {
      assert a + b == b;
    }
  }

  /** Deleting an id that no listed experiment carries leaves the list as it is. */
  lemma {:induction false} WithoutAbsentId(exps: seq<ExperimentData>, id: string)
    requires forall i :: 0 <= i < |exps| ==> exps[i].id != id
    ensures WithoutId(exps, id) == exps
  {
    if exps != [] {
      WithoutAbsentId(exps[1..], id);
    }
  }

  /** The view state of the history list. */
  class HistoryView {
    var experiments: seq<ExperimentData>
    var expandedResponses: set<string>
    /** The experiment whose export menu is open, if any. */
    var exportMenu: Option<string>

    constructor ()
      ensures experiments == [] && expandedResponses == {} && exportMenu == None
    {
      experiments := [];
      expandedResponses := {};
      exportMenu := None;
    }

    /** Copies the expanded set, flips `responseId` in the copy and stores it. */
    method ToggleResponseExpansion(responseId: string)
      modifies this`expandedResponses
      ensures expandedResponses == Toggled(old(expandedResponses), responseId)
    {
      var copy := expandedResponses;
      if responseId in copy {
        copy := copy - {responseId};
      } else {
        copy := copy + {responseId};
      }
      expandedResponses := copy;
    }

    /** `deleteExperiment`: nothing is sent unless the user confirms; the
        list loses the experiment only when the DELETE succeeds, and a failed
        or thrown request leaves it as it was. */
    method DeleteExperiment(id: string, confirmed: bool, deleteOk: bool) returns (requested: bool)
      modifies this`experiments
      ensures requested == confirmed
      ensures experiments == if confirmed && deleteOk then WithoutId(old(experiments), id) else old(experiments)
    {
      if !confirmed {
        return false;
      }
      requested := true;
      if deleteOk {
        experiments := WithoutId(experiments, id);
      }
    }

    /** The card's Export button: opens this card's menu, or closes it when
        it is already the open one. */
    method ToggleExportMenu(id: string)
      modifies this`exportMenu
      ensures exportMenu == if old(exportMenu) == Some(id) then None else Some(id)
    {
      if exportMenu == Some(id) {
        exportMenu := None;
      } else {
        exportMenu := Some(id);
      }
    }

    /** A format chosen in the menu: the export request is sent and the menu
        closes at once; the file is saved under its download name only when
        the backend answers successfully. */
    method ChooseExport(id: string, format: ExportFormat, exportOk: bool)
      returns (request: ExportRequest, download: Option<string>)
      modifies this`exportMenu
      ensures request == Export.RequestFor(id, format)
      ensures download == if exportOk then Some(Export.Filename(id, format)) else None
      ensures exportMenu == None
    {
      request := Export.RequestFor(id, format);
      download := if exportOk then Some(Export.Filename(id, format)) else None;
      exportMenu := None;
    }
  }
}
