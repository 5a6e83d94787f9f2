/** `DocumentationViewerViewModel` (ViewModels/DocumentationViewerViewModel.cs):
    the help pane. Selecting a topic loads its markdown and renders it with a
    small line-by-line renderer into text blocks. The blocks are modelled by
    what they show (kind and text); fonts, sizes and colours are left out. */
module DocumentationViewer {
  import opened Wrappers
  import opened Strings

  /** A `Run` inline of a paragraph: its text and whether it is bold. */
  datatype Run = Run(text: string, bold: bool)

  /** One text block of the rendered page. */
  datatype Element =
    | Header1(text: string)
    | Header2(text: string)
    | Header3(text: string)
    | ListItem(text: string)
    | Paragraph(runs: seq<Run>)
    | Message(text: string)

  const Bold: string := "**"
  const Bullet: string := "• "

  // ----- bold markers -----

  /** `ProcessBoldText`: every "**" removed. */
  function ProcessBoldText(text: string): string {
    ReplaceAll(text, Bold, "")
  }

  /** No two adjacent asterisks, so no "**" marker. */
  predicate Unmarked(s: string) {
    forall i :: 0 <= i < |s| - 1 ==> !(s[i] == '*' && s[i + 1] == '*')
  }

  /** Removing the markers leaves none behind: an asterisk that survives is
      followed by a character that is not one. */
  lemma {:induction false} ProcessBoldTextUnmarked(s: string)
    ensures Unmarked(ProcessBoldText(s))
    ensures s != [] && s[0] != '*' ==> ProcessBoldText(s) != [] && ProcessBoldText(s)[0] == s[0]
    decreases |s|
  {
    if |s| >= 2 {
      if StartsWith(s, Bold) {
        ProcessBoldTextUnmarked(s[2..]);
      } else {
        ProcessBoldTextUnmarked(s[1..]);
        var r := ProcessBoldText(s[1..]);
        assert ProcessBoldText(s) == [s[0]] + r;
        if s[0] == '*' {
          assert s[..2] == [s[0], s[1]];
          assert s[1] != '*';
        }
      }
    }
  }

  /** Joining two unmarked texts with a space leaves them unmarked. */
  lemma JoinUnmarked(a: string, b: string)
    requires Unmarked(a) && Unmarked(b)
    ensures Unmarked(a + " " + b)
  {
    var s := a + " " + b;
    forall i | 0 <= i < |s| - 1
      ensures !(s[i] == '*' && s[i + 1] == '*')
    {
      if i < |a| - 1 {
        assert s[i] == a[i] && s[i + 1] == a[i + 1];
      } else if i > |a| {
        assert s[i] == b[i - |a| - 1] && s[i + 1] == b[i - |a|];
      }
    }
  }

  /** An unmarked text is not split. */
  lemma {:induction false} SplitUnmarked(s: string)
    requires Unmarked(s)
    ensures SplitStr(s, Bold) == [s]
    decreases |s|
  {
    if |s| >= 2 {
      NoMarkerAtStart(s);
      UnmarkedTail(s);
      SplitUnmarked(s[1..]);
      SplitStrFirst(s);
      assert [s[0]] + s[1..] == s;
    }
  }

  // ----- bold inlines -----

  /** The parts of a split on "**" tagged by position: part i is bold exactly
      when i is odd, since every part, empty or not, flips the flag. */
  function Tagged(parts: seq<string>): (rs: seq<Run>)
    ensures |rs| == |parts|
  {
    seq(|parts|, i requires 0 <= i < |parts| => Run(parts[i], i % 2 == 1))
  }

  /** The runs whose text is not empty, in order. */
  function DropEmpty(rs: seq<Run>): seq<Run>
    decreases |rs|
  {
    if rs == [] then []
    else DropEmpty(rs[..|rs| - 1]) + (if rs[|rs| - 1].text == "" then [] else [rs[|rs| - 1]])
  }

  /** The inlines `ProcessBoldInlines` adds for a text. */
  function InlineRuns(text: string): seq<Run> {
    DropEmpty(Tagged(SplitStr(text, Bold)))
  }

  /** `ProcessBoldInlines`: splits on "**" and walks the parts with a bold
      flag that every part flips; a non-empty part becomes a run. */
  method ProcessBoldInlines(text: string) returns (runs: seq<Run>)
    ensures runs == InlineRuns(text)
  {
    var parts := SplitStr(text, Bold);
    var isBold := false;
    runs := [];
    var i := 0;
    while i < |parts|
      invariant 0 <= i <= |parts|
      invariant isBold == (i % 2 == 1)
      invariant runs == DropEmpty(Tagged(parts)[..i])
    {
      var part := parts[i];
      assert Tagged(parts)[..i + 1][..i] == Tagged(parts)[..i];
      if part != "" {
        runs := runs + [Run(part, isBold)];
      }
      isBold := !isBold;
      i := i + 1;
    }
    assert Tagged(parts)[..i] == Tagged(parts);
  }

  /** The texts of some runs, one after the other. */
  function RunsText(rs: seq<Run>): string
    decreases |rs|
  {
    if rs == [] then "" else RunsText(rs[..|rs| - 1]) + rs[|rs| - 1].text
  }

  lemma {:induction false} DropEmptyText(rs: seq<Run>)
    ensures RunsText(DropEmpty(rs)) == RunsText(rs)
    ensures forall k :: 0 <= k < |DropEmpty(rs)| ==> DropEmpty(rs)[k].text != ""
    decreases |rs|
  {
    if rs != [] {
      var init := rs[..|rs| - 1];
      var last := rs[|rs| - 1];
      DropEmptyText(init);
      assert RunsText(rs) == RunsText(init) + last.text;
      if last.text != "" {
        var d := DropEmpty(init) + [last];
        assert DropEmpty(rs) == d;
        assert d[..|d| - 1] == DropEmpty(init);
        assert RunsText(d) == RunsText(DropEmpty(init)) + last.text;
      } else {
        assert DropEmpty(rs) == DropEmpty(init) + [];
        assert DropEmpty(rs) == DropEmpty(init);
        assert RunsText(rs) == RunsText(init);
      }
    }
  }

  lemma {:induction false} TaggedText(parts: seq<string>)
    ensures RunsText(Tagged(parts)) == Concat(parts)
    decreases |parts|
  {
    if parts != [] {
      var init := parts[..|parts| - 1];
      assert Tagged(parts)[..|parts| - 1] == Tagged(init);
      TaggedText(init);
      ConcatSnoc(init, parts[|parts| - 1]);
      assert init + [parts[|parts| - 1]] == parts;
    }
  }

  /** The runs of a paragraph spell out its text with the markers removed,
      none of them is empty, and a run is bold exactly when an odd number of
      "**" markers precede it. */
  lemma InlineRunsSpellText(text: string)
    ensures RunsText(InlineRuns(text)) == ProcessBoldText(text)
    ensures forall k :: 0 <= k < |InlineRuns(text)| ==> InlineRuns(text)[k].text != ""
  {
    DropEmptyText(Tagged(SplitStr(text, Bold)));
    TaggedText(SplitStr(text, Bold));
    ConcatSplitStr(text, Bold);
  }

  /** A non-empty text without markers is a single regular run. */
  lemma UnmarkedSingleRun(text: string)
    requires Unmarked(text) && text != ""
    ensures InlineRuns(text) == [Run(text, false)]
  {
    SplitUnmarked(text);
    var t := Tagged([text]);
    assert t == [Run(text, false)];
    assert t[..0] == [];
    assert DropEmpty(t) == DropEmpty(t[..0]) + [Run(text, false)];
  }

  lemma UnmarkedTail(w: string)
    requires Unmarked(w) && w != []
    ensures Unmarked(w[1..])
  {
    var v := w[1..];
    forall i | 0 <= i < |v| - 1
      ensures !(v[i] == '*' && v[i + 1] == '*')
    {
      assert v[i] == w[i + 1] && v[i + 1] == w[i + 2];
    }
  }

  lemma NoMarkerAtStart(s: string)
    requires |s| >= 2 && !(s[0] == '*' && s[1] == '*')
    ensures !StartsWith(s, Bold)
  {
    assert s[..2] == [s[0], s[1]];
  }

  /** `SplitStr` on a text that does not start with the marker: the first
      character joins the first part of the rest. */
  lemma SplitStrFirst(s: string)
    requires |s| >= 2 && !StartsWith(s, Bold)
    ensures SplitStr(s, Bold) == [[s[0]] + SplitStr(s[1..], Bold)[0]] + SplitStr(s[1..], Bold)[1..]
  {
  }

  /** A text without markers that does not end in an asterisk, followed by
      a marker, splits into itself and an empty part. */
  lemma {:induction false} SplitBeforeMarker(w: string)
    requires Unmarked(w) && (w == [] || w[|w| - 1] != '*')
    ensures SplitStr(w + Bold, Bold) == [w, ""]
    decreases |w|
  {
    var s := w + Bold;
    if w == [] {
      assert s == Bold;
      assert s[2..] == "";
    } else {
      var v := w[1..];
      UnmarkedTail(w);
      SplitBeforeMarker(v);
      assert s[1..] == v + Bold;
      if |w| == 1 {
        assert s[0] == w[0];
      } else {
        assert s[0] == w[0] && s[1] == w[1];
      }
      NoMarkerAtStart(s);
      SplitStrFirst(s);
      assert [w[0]] + v == w;
    }
  }

  /** A word between two markers is one bold run: the empty parts outside
      the markers only flip the flag. */
  lemma MarkedWordIsBold(w: string)
    requires Unmarked(w) && w != "" && w[|w| - 1] != '*'
    ensures InlineRuns(Bold + w + Bold) == [Run(w, true)]
  {
    var s := Bold + w + Bold;
    assert StartsWith(s, Bold);
    assert s[2..] == w + Bold;
    SplitBeforeMarker(w);
    assert SplitStr(s, Bold) == ["", w, ""];
    var t := Tagged(["", w, ""]);
    assert t == [Run("", false), Run(w, true), Run("", false)];
    assert t[..2][..1][..0] == [];
    assert DropEmpty(t[..2][..1]) == [];
    assert t[..2] == [Run("", false), Run(w, true)];
    assert DropEmpty(t[..2]) == [Run(w, true)];
    assert t[..2] == t[..|t| - 1];
  }

  // ----- blocks -----

  /** `AddParagraph`: nothing for a white-space text, else one paragraph of
      bold-aware runs. */
  function ParagraphElements(text: string): seq<Element> {
    if AllWhiteSpace(text) then [] else [Paragraph(InlineRuns(text))]
  }

  /** The block a right-trimmed line ends the pending paragraph with, if it
      is a blank line, a header or a list item; a header keeps its text as is,
      a list item gets a bullet and loses its markers. */
  function LineBlock(t: string): Option<seq<Element>> {
    if AllWhiteSpace(t) then Some([])
    else if StartsWith(t, "# ") then Some([Header1(t[2..])])
    else if StartsWith(t, "## ") then Some([Header2(t[3..])])
    else if StartsWith(t, "### ") then Some([Header3(t[4..])])
    else if StartsWith(t, "- ") || StartsWith(t, "* ") then Some([ListItem(Bullet + ProcessBoldText(t[2..]))])
    else None
  }

  predicate IsFence(t: string) {
    StartsWith(t, "```")
  }

  /** The renderer's state between lines: the blocks added so far and the
      pending paragraph. */
  datatype Progress = Progress(elements: seq<Element>, pending: string)

  const Start: Progress := Progress([], "")

  /** The pending paragraph as it is flushed: only when it is not empty. */
  function Flush(pending: string): seq<Element> {
    if |pending| > 0 then ParagraphElements(pending) else []
  }

  /** One line of `DisplaySimpleMarkdown`. */
  function Step(p: Progress, line: string): Progress {
    var t := TrimEnd(line);
    match LineBlock(t)
    case Some(block) => Progress(Finish(p) + block, "")
    case None =>
      if IsFence(t) then p
      else Progress(p.elements, (if |p.pending| > 0 then p.pending + " " else p.pending) + ProcessBoldText(t))
  }

  /** The lines, one step each, from a given state. */
  function Scan(p: Progress, lines: seq<string>): Progress
    decreases |lines|
  {
    if lines == [] then p else Step(Scan(p, lines[..|lines| - 1]), lines[|lines| - 1])
  }

  /** The page `DisplaySimpleMarkdown` shows for a document. */
  function Render(content: string): seq<Element> {
    Finish(Scan(Start, Split(content, '\n')))
  }

  /** The blocks once the last pending paragraph is flushed. */
  function Finish(p: Progress): seq<Element> {
    p.elements + Flush(p.pending)
  }

  /** `DisplaySimpleMarkdown` on its own: the page for a document. */
  method RenderMarkdown(content: string) returns (elements: seq<Element>)
    ensures elements == Render(content)
  {
    var lines := Split(content, '\n');
    var pending := "";
    elements := [];
    var i := 0;
    while i < |lines|
      invariant 0 <= i <= |lines|
      invariant Progress(elements, pending) == Scan(Start, lines[..i])
    {
      assert lines[..i + 1][..i] == lines[..i];
      assert Scan(Start, lines[..i + 1]) == Step(Scan(Start, lines[..i]), lines[i]);
      ghost var before := Progress(elements, pending);
      var trimmed := TrimEnd(lines[i]);
      var block := LineBlock(trimmed);
      if block.Some? {
        if |pending| > 0 {
          elements := elements + ParagraphElements(pending);
          pending := "";
        }
        elements := elements + block.value;
      } else if !IsFence(trimmed) {
        if |pending| > 0 {
          pending := pending + " ";
        }
        pending := pending + ProcessBoldText(trimmed);
      }
      assert Progress(elements, pending) == Step(before, lines[i]);
      i := i + 1;
    }
    assert lines[..i] == lines;
    if |pending| > 0 {
      elements := elements + ParagraphElements(pending);
    }
  }

  // ----- properties of the renderer -----

  lemma {:induction false} ScanAppend(p: Progress, a: seq<string>, b: seq<string>)
    ensures Scan(p, a + b) == Scan(Scan(p, a), b)
    decreases |b|
  {
    if b == [] {
      assert a + b == a;
    } else {
      assert (a + b)[..|a + b| - 1] == a + b[..|b| - 1];
      ScanAppend(p, a, b[..|b| - 1]);
    }
  }

  /** The blocks already added do not influence the rest of the scan. */
  lemma {:induction false} ScanShift(e: seq<Element>, b: seq<string>)
    ensures Scan(Progress(e, ""), b) == Progress(e + Scan(Start, b).elements, Scan(Start, b).pending)
    decreases |b|
  {
    if b != [] {
      ScanShift(e, b[..|b| - 1]);
      StepShift(e, Scan(Start, b[..|b| - 1]), b[|b| - 1]);
    }
  }

  lemma StepShift(e: seq<Element>, q: Progress, line: string)
    ensures Step(Progress(e + q.elements, q.pending), line) == Progress(e + Step(q, line).elements, Step(q, line).pending)
  {
    match LineBlock(TrimEnd(line))
    case Some(block) =>
      assert e + q.elements + Flush(q.pending) + block == e + (q.elements + Flush(q.pending) + block);
    case None =>
  }

  /** After a blank line, a header or a list item nothing pending is left: a
      document splits there into the part before, the line's block and the
      part after. */
  lemma BreakLineSeparates(a: string, line: string, b: string)
    requires '\n' !in line
    requires LineBlock(TrimEnd(line)).Some?
    ensures Render(a + ['\n'] + line + ['\n'] + b) == Render(a) + LineBlock(TrimEnd(line)).value + Render(b)
  {
    SplitAround(a, line, b);
    ScanBreak(Split(a, '\n'), line, Split(b, '\n'));
  }

  lemma ScanBreak(la: seq<string>, line: string, lb: seq<string>)
    requires LineBlock(TrimEnd(line)).Some?
    ensures Finish(Scan(Start, la + [line] + lb)) == Finish(Scan(Start, la)) + LineBlock(TrimEnd(line)).value + Finish(Scan(Start, lb))
  {
    var pa := Scan(Start, la);
    var e := Finish(pa) + LineBlock(TrimEnd(line)).value;
    ScanAppend(Start, la + [line], lb);
    assert (la + [line])[..|la|] == la;
    assert Scan(Start, la + [line]) == Step(pa, line);
    StepBreak(pa, line);
    ScanShift(e, lb);
  }

  lemma StepBreak(p: Progress, line: string)
    requires LineBlock(TrimEnd(line)).Some?
    ensures Step(p, line) == Progress(Finish(p) + LineBlock(TrimEnd(line)).value, "")
  {
  }

  /** A code fence line is skipped without ending the pending paragraph. */
  lemma FenceLineSkipped(a: string, line: string, b: string)
    requires '\n' !in line
    requires LineBlock(TrimEnd(line)).None? && IsFence(TrimEnd(line))
    ensures Render(a + ['\n'] + line + ['\n'] + b) == Render(a + ['\n'] + b)
  {
    SplitAround(a, line, b);
    SplitAppend(a, b, '\n');
    var la, lb := Split(a, '\n'), Split(b, '\n');
    ScanAppend(Start, la + [line], lb);
    ScanAppend(Start, la, lb);
    assert (la + [line])[..|la|] == la;
  }

  lemma SplitAround(a: string, line: string, b: string)
    requires '\n' !in line
    ensures Split(a + ['\n'] + line + ['\n'] + b, '\n') == Split(a, '\n') + [line] + Split(b, '\n')
  {
    assert a + ['\n'] + line + ['\n'] + b == a + ['\n'] + (line + ['\n'] + b);
    SplitAppend(a, line + ['\n'] + b, '\n');
    SplitAppend(line, b, '\n');
    SplitNoSep(line, '\n');
  }

  /** Every paragraph shown holds no marker and is not white space, so it is
      one regular run: the markers are already gone when a line joins the
      pending paragraph, and bold runs appear only through `AddParagraph`. */
  predicate PlainParagraphs(es: seq<Element>) {
    forall k :: 0 <= k < |es| && es[k].Paragraph? ==>
      && |es[k].runs| == 1
      && !es[k].runs[0].bold
      && !AllWhiteSpace(es[k].runs[0].text)
  }

  predicate PlainProgress(p: Progress) {
    PlainParagraphs(p.elements) && Unmarked(p.pending)
  }

  lemma FlushPlain(e: seq<Element>, pending: string, block: seq<Element>)
    requires PlainParagraphs(e) && Unmarked(pending)
    requires forall k :: 0 <= k < |block| ==> !block[k].Paragraph?
    ensures PlainParagraphs(e + Flush(pending) + block)
  {
    if |pending| > 0 && !AllWhiteSpace(pending) {
      UnmarkedSingleRun(pending);
    }
    var r := e + Flush(pending) + block;
    assert forall k :: |e + Flush(pending)| <= k < |r| ==> r[k] == block[k - |e + Flush(pending)|];
  }

  lemma StepPlain(p: Progress, line: string)
    requires PlainProgress(p)
    ensures PlainProgress(Step(p, line))
  {
    var t := TrimEnd(line);
    match LineBlock(t)
    case Some(block) =>
      FlushPlain(p.elements, p.pending, block);
      assert Finish(p) + block == p.elements + Flush(p.pending) + block;
    case None =>
      if !IsFence(t) {
        ProcessBoldTextUnmarked(t);
        if |p.pending| > 0 {
          JoinUnmarked(p.pending, ProcessBoldText(t));
        } else {
          assert p.pending + ProcessBoldText(t) == ProcessBoldText(t);
        }
      }
  }

  lemma {:induction false} ScanPlain(lines: seq<string>)
    ensures PlainProgress(Scan(Start, lines))
    decreases |lines|
  {
    if lines != [] {
      ScanPlain(lines[..|lines| - 1]);
      StepPlain(Scan(Start, lines[..|lines| - 1]), lines[|lines| - 1]);
    }
  }

  /** No paragraph of a rendered page is empty, white space or bold. */
  lemma RenderedParagraphsPlain(content: string)
    ensures PlainParagraphs(Render(content))
  {
    var p := Scan(Start, Split(content, '\n'));
    ScanPlain(Split(content, '\n'));
    FlushPlain(p.elements, p.pending, []);
    assert p.elements + Flush(p.pending) + [] == Render(content);
  }

  /** A line of ordinary text that keeps some text once its markers go. */
  predicate TextLine(line: string) {
    var t := TrimEnd(line);
    LineBlock(t).None? && !IsFence(t) && ProcessBoldText(t) != ""
  }

  /** The text each line contributes. */
  function LineTexts(lines: seq<string>): (ts: seq<string>)
    ensures |ts| == |lines|
  {
    seq(|lines|, i requires 0 <= i < |lines| => ProcessBoldText(TrimEnd(lines[i])))
  }

  lemma StepTextLine(p: Progress, line: string)
    requires TextLine(line)
    ensures Step(p, line) == Progress(p.elements, (if |p.pending| > 0 then p.pending + " " else "") + ProcessBoldText(TrimEnd(line)))
  {
  }

  lemma {:induction false} ScanTextLines(lines: seq<string>)
    requires forall i :: 0 <= i < |lines| ==> TextLine(lines[i])
    ensures Scan(Start, lines) == Progress([], Join(LineTexts(lines), " "))
    decreases |lines|
  {
    if lines != [] {
      var init := lines[..|lines| - 1];
      var ts := LineTexts(lines);
      var last := ts[|lines| - 1];
      assert ts == LineTexts(init) + [last];
      ScanTextLines(init);
      StepTextLine(Scan(Start, init), lines[|lines| - 1]);
      JoinSnoc(LineTexts(init), last, " ");
    }
  }

  /** Joining with one more non-empty part: the part itself after nothing,
      else the join so far, the separator and the part. */
  lemma JoinSnoc(ts: seq<string>, last: string, sep: string)
    requires forall i :: 0 <= i < |ts| ==> ts[i] != ""
    ensures ts == [] ==> Join(ts + [last], sep) == last
    ensures ts != [] ==> |Join(ts, sep)| > 0 && Join(ts + [last], sep) == Join(ts, sep) + sep + last
  {
    if ts == [] {
      assert ts + [last] == [last];
    } else {
      JoinAppend(ts, [last], sep);
      assert ts[0] != "";
    }
  }

  /** Consecutive lines of text form one paragraph: their texts, markers
      removed, joined by single spaces. */
  lemma TextLinesJoin(content: string)
    requires forall i :: 0 <= i < |Split(content, '\n')| ==> TextLine(Split(content, '\n')[i])
    ensures Render(content) == ParagraphElements(Join(LineTexts(Split(content, '\n')), " "))
  {
    var lines := Split(content, '\n');
    ScanTextLines(lines);
    assert LineTexts(lines)[0] != "";
  }

  // ----- the view model -----

  /** Where a topic's markdown comes from: the embedded resource or the
      file beside the program (either way its text), neither, or an
      exception while reading. */
  datatype Lookup = Found(content: string) | NotFound | LoadFailed(message: string)

  const NotFoundPrefix: string := "Documentation for '"
  const NotFoundSuffix: string := "' not found."
  const LoadErrorPrefix: string := "Error loading documentation: "

  /** The page `LoadDocumentation` leaves for a topic. */
  function Page(documents: string -> Lookup, topic: Option<string>): (page: seq<Element>)
    ensures topic.None? || topic.value == "" ==> page == []
    ensures topic.Some? && topic.value != "" && documents(topic.value).Found? ==>
      page == Render(documents(topic.value).content)
    ensures topic.Some? && topic.value != "" && !documents(topic.value).Found? ==>
      |page| == 1 && page[0].Message?
  {
    if topic.None? || topic.value == "" then []
    else match documents(topic.value)
      case Found(content) => Render(content)
      case NotFound => [Message(NotFoundPrefix + topic.value + NotFoundSuffix)]
      case LoadFailed(message) => [Message(LoadErrorPrefix + message)]
  }

  class DocumentationViewerViewModel {
    /** The embedded resources and documentation files, by topic. */
    const documents: string -> Lookup
    var currentDocumentId: Option<string>
    var markdownContent: seq<Element>
    /** The PropertyChanged notifications raised so far. */
    var raised: seq<string>
    /** The ids passed to DocumentChanged so far. */
    var documentChanged: seq<string>

    constructor (documents: string -> Lookup)
      ensures this.documents == documents
      ensures currentDocumentId.None? && markdownContent == []
      ensures raised == [] && documentChanged == []
    {
      this.documents := documents;
      currentDocumentId := None;
      markdownContent := [];
      raised := [];
      documentChanged := [];
    }

    /** The `CurrentDocumentId` setter: the same id changes nothing; a new
        one is stored, announced and loaded, and a non-null one is passed to
        DocumentChanged. */
    method SetCurrentDocumentId(value: Option<string>)
      modifies this
      ensures old(currentDocumentId) == value ==>
        && currentDocumentId == value && markdownContent == old(markdownContent)
        && raised == old(raised) && documentChanged == old(documentChanged)
      ensures old(currentDocumentId) != value ==>
        && currentDocumentId == value
        && markdownContent == Page(documents, value)
        && raised == old(raised) + ["CurrentDocumentId"]
        && documentChanged == old(documentChanged) + (if value.Some? then [value.value] else [])
    {
      if currentDocumentId != value {
        currentDocumentId := value;
        raised := raised + ["CurrentDocumentId"];
        LoadDocumentation(value);
        if value.Some? {
          documentChanged := documentChanged + [value.value];
        }
      }
    }

    /** `LoadDocumentation`: an empty page for no topic, the rendered
        markdown when it is found, otherwise one error message. */
    method LoadDocumentation(topic: Option<string>)
      modifies this
      ensures markdownContent == Page(documents, topic)
      ensures currentDocumentId == old(currentDocumentId)
      ensures raised == old(raised) && documentChanged == old(documentChanged)
    {
      if topic.None? || topic.value == "" {
        markdownContent := [];
        return;
      }
      match documents(topic.value)
      case Found(content) => DisplaySimpleMarkdown(content);
      case NotFound => ShowErrorMessage(NotFoundPrefix + topic.value + NotFoundSuffix);
      case LoadFailed(message) => ShowErrorMessage(LoadErrorPrefix + message);
    }

    /** `ShowErrorMessage`: the page becomes the one message. */
    method ShowErrorMessage(message: string)
      modifies this
      ensures markdownContent == [Message(message)]
      ensures currentDocumentId == old(currentDocumentId)
      ensures raised == old(raised) && documentChanged == old(documentChanged)
    {
      markdownContent := [Message(message)];
    }

    /** `DisplaySimpleMarkdown`: the page is cleared, then filled from the
        document. */
    method DisplaySimpleMarkdown(content: string)
      modifies this
      ensures markdownContent == Render(content)
      ensures currentDocumentId == old(currentDocumentId)
      ensures raised == old(raised) && documentChanged == old(documentChanged)
    {
      markdownContent := [];
      var elements := RenderMarkdown(content);
      markdownContent := elements;
    }

    /** `Dispose` clears the page. */
    method Dispose()
      modifies this
      ensures markdownContent == []
      ensures currentDocumentId == old(currentDocumentId)
      ensures raised == old(raised) && documentChanged == old(documentChanged)
    {
      markdownContent := [];
    }
  }
}
