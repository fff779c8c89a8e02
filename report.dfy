/**
 * The report row the `/process` handler stores, and the title it derives
 * from the generated text: the first line with visible content, cut to 50
 * characters, or a fixed default.
 */
module ReportRecord {
  import opened Wrappers
  import opened Text

  /** A stored report. `id` is assigned by the store; `templateName` is the
      requested name as given, stored even when no template was found. */
  datatype Report = Report(
    id: nat,
    title: string,
    rawTranscription: string,
    processedText: string,
    templateName: Option<string>)

  const DefaultTitle := "Radiology Report"
  const MaxTitle := 50
  const Ellipsis := "..."

  /** Line `i` is the first whose stripped form is not empty. */
  predicate FirstNonBlankAt(lines: seq<string>, i: int) {
    0 <= i < |lines| && Strip(lines[i]) != [] && forall j :: 0 <= j < i ==> Strip(lines[j]) == []
  }

  /** The first line whose stripped form is not empty. */
  function FirstNonBlank(lines: seq<string>): (r: Option<string>)
    ensures r.None? <==> forall i :: 0 <= i < |lines| ==> Strip(lines[i]) == []
    ensures r.Some? ==> r.value != [] && exists i :: FirstNonBlankAt(lines, i) && lines[i] == r.value
    decreases |lines|
  {
    if lines == [] then None
    else if Strip(lines[0]) != [] then
      assert FirstNonBlankAt(lines, 0);
      Some(lines[0])
    else
      var r := FirstNonBlank(lines[1..]);
      if r.Some? then
        var k :| FirstNonBlankAt(lines[1..], k) && lines[1..][k] == r.value;
        FirstNonBlankShift(lines, k);
        r
      else
        assert forall i :: 1 <= i < |lines| ==> lines[i] == lines[1..][i - 1];
        r
  }

  /** Past a blank first line, the first non-blank line is one further on. */
  lemma FirstNonBlankShift(lines: seq<string>, k: int)
    requires lines != [] && Strip(lines[0]) == []
    requires FirstNonBlankAt(lines[1..], k)
    ensures FirstNonBlankAt(lines, k + 1) && lines[k + 1] == lines[1..][k]
  {
    forall j | 0 <= j < k + 1 ensures Strip(lines[j]) == [] {
      if j > 0 { assert lines[j] == lines[1..][j - 1]; }
    }
  }

  /** A line longer than the limit keeps its first 47 characters and gains an
      ellipsis; a shorter one is kept whole. */
  function Shorten(line: string): (t: string)
    ensures |t| <= MaxTitle
    ensures |line| <= MaxTitle ==> t == line
    ensures |line| > MaxTitle ==> |t| == MaxTitle && t[..MaxTitle - |Ellipsis|] == line[..MaxTitle - |Ellipsis|]
    ensures |line| > MaxTitle ==> t[MaxTitle - |Ellipsis|..] == Ellipsis
  {
    if |line| > MaxTitle then line[..MaxTitle - |Ellipsis|] + Ellipsis else line
  }

  /** The title of a report: never empty and never longer than 50. */
  function Title(processed: string): (t: string)
    ensures 0 < |t| <= MaxTitle
  {
    var line := match FirstNonBlank(Split(Strip(processed), '\n'))
      case Some(l) => l
      case None => DefaultTitle;
    assert line != [];
    Shorten(line)
  }

  /** Text that is all whitespace (the empty text included) gets the default
      title. */
  lemma TitleDefault(processed: string)
    requires AllSpace(processed)
    ensures Title(processed) == DefaultTitle
  {
    assert Strip(processed) == [];
    assert Split([], '\n') == [[]];
    assert Strip([]) == [];
  }

  /** A text without line breaks that is not blank is titled by its stripped
      form, shortened. */
  lemma TitleOneLine(processed: string)
    requires '\n' !in processed && !AllSpace(processed)
    ensures Title(processed) == Shorten(Strip(processed))
  {
    StripChars(processed);
  }

  /** When the text starts with visible content, its first line is the
      title, shortened, with its trailing spaces kept, provided something
      visible follows the first line break. */
  lemma TitleFirstLine(line: string, rest: string)
    requires line != [] && !IsSpace(line[0]) && '\n' !in line
    requires !AllSpace(rest)
    ensures Title(line + "\n" + rest) == Shorten(line)
  {
    var p := line + "\n" + rest;
    assert p == line + "\n" + rest && !IsSpace(p[0]);
    RStripAppend(line + "\n", rest);
    assert LStrip(p) == p;
    assert Strip(p) == line + "\n" + RStrip(rest);
    assert Strip(p) == line + ['\n'] + RStrip(rest);
    SplitAt(line, '\n', RStrip(rest));
    assert Strip(line) != [] by {
      assert !AllSpace(line) by { assert !IsSpace(line[0]); }
    }
  }
}
