/** The export action shared by the history list (ExperimentHistory.tsx) and
    the results view (ResponseDisplay.tsx): the request body sent for an
    export and the name the downloaded file is saved under. */
module Export {
  import opened Wrappers
  import opened Types

  function Extension(f: ExportFormat): string
  {
    match f
    case Json => "json"
    case Csv => "csv"
    case Pdf => "pdf"
  }

  /** The body both components post: metrics included, details excluded. */
  function RequestFor(id: string, f: ExportFormat): (r: ExportRequest)
    ensures r.experimentId == id && r.format == f
    ensures r.includeMetrics && !r.includeDetails
  {
    ExportRequest(id, f, true, false)
  }

  const Prefix: string := "experiment_"

  /** The download name `experiment_<id>.<format>`. */
  function Filename(id: string, f: ExportFormat): string
  {
    Prefix + id + "." + Extension(f)
  }

  predicate EndsWithExtension(rest: string, f: ExportFormat)
  {
    var e := "." + Extension(f);
    |e| <= |rest| && rest[|rest| - |e|..] == e
  }

  function DropExtension(rest: string, f: ExportFormat): string
    requires EndsWithExtension(rest, f)
  {
    rest[..|rest| - |Extension(f)| - 1]
  }

  /** Recovers the id and the format from the text after the prefix. */
  function ParseRest(rest: string): Option<(string, ExportFormat)>
  {
    if EndsWithExtension(rest, Json) then Some((DropExtension(rest, Json), Json))
    else if EndsWithExtension(rest, Csv) then Some((DropExtension(rest, Csv), Csv))
    else if EndsWithExtension(rest, Pdf) then Some((DropExtension(rest, Pdf), Pdf))
    else None
  }

  /** Recovers the experiment id and the format from a download name. */
  function ParseFilename(name: string): Option<(string, ExportFormat)>
  {
    if |name| < |Prefix| || name[..|Prefix|] != Prefix then None
    else ParseRest(name[|Prefix|..])
  }

  /** The text after the prefix of a download name ends with its own
      extension, and dropping that extension leaves the id. */
  lemma OwnExtension(id: string, f: ExportFormat)
    ensures EndsWithExtension(id + "." + Extension(f), f)
    ensures DropExtension(id + "." + Extension(f), f) == id
  {
  }

  /** The three extensions end with different letters, so the text after the
      prefix never ends with another format's extension. */
  lemma NoOtherExtension(id: string, f: ExportFormat, g: ExportFormat)
    requires f != g
    ensures !EndsWithExtension(id + "." + Extension(f), g)
  {
    var rest := id + "." + Extension(f);
    var e := "." + Extension(g);
    var last := Extension(f)[|Extension(f)| - 1];
    assert rest[|rest| - 1] == last;
    assert e[|e| - 1] != last;
    assert |e| <= |rest| ==> rest[|rest| - |e|..][|e| - 1] == last;
  }

  /** Every download name determines the experiment and the format it was
      saved for. */
  lemma FilenameRoundTrip(id: string, f: ExportFormat)
    ensures ParseFilename(Filename(id, f)) == Some((id, f))
  {
    var rest := id + "." + Extension(f);
    var name := Filename(id, f);
    assert name == Prefix + rest;
    assert name[..|Prefix|] == Prefix;
    assert name[|Prefix|..] == rest;
    OwnExtension(id, f);
    if f != Json {
      NoOtherExtension(id, f, Json);
    }
    if f == Pdf {
      NoOtherExtension(id, f, Csv);
    }
  }

  /** Conversely, a name that parses is exactly the download name of what it
      parses to. */
  lemma ParsedFilenameIsFilename(name: string, id: string, f: ExportFormat)
    requires ParseFilename(name) == Some((id, f))
    ensures Filename(id, f) == name
  {
  }

  /** Distinct experiments or formats never share a download name. */
  lemma FilenameInjective(id1: string, f1: ExportFormat, id2: string, f2: ExportFormat)
    requires Filename(id1, f1) == Filename(id2, f2)
    ensures id1 == id2 && f1 == f2
  {
    FilenameRoundTrip(id1, f1);
    FilenameRoundTrip(id2, f2);
  }
}
