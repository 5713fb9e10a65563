/** `process_file` of the sequential script: blank cells are dropped, each
    remaining code is trimmed and checked in turn, the first bad code aborts
    the run, and the labelled images are laid out ten to an A4 page. */
module SequentialPipeline {
  import opened Text
  import opened Results
  import opened Sscc
  import opened Labels

  /** `df.iloc[:, 0].dropna()`: a blank cell is `None` and is dropped; the
      other cells keep their order. */
  function DropBlank(cells: seq<Option<string>>): (codes: seq<string>)
    ensures |codes| <= |cells|
    ensures forall k :: 0 <= k < |codes| ==> Some(codes[k]) in cells
    ensures (forall i :: 0 <= i < |cells| ==> cells[i].Some?) ==>
              |codes| == |cells| && forall i :: 0 <= i < |cells| ==> codes[i] == cells[i].value
  {
    if |cells| == 0 then []
    else
      var last := |cells| - 1;
      var rest := DropBlank(cells[..last]);
      assert forall k :: 0 <= k < |rest| ==> Some(rest[k]) in cells by {
        forall k | 0 <= k < |rest| ensures Some(rest[k]) in cells {
          var i :| 0 <= i < last && cells[..last][i] == Some(rest[k]);
          assert cells[i] == Some(rest[k]);
        }
      }
      match cells[last]
      case None => rest
      case Some(c) => rest + [c]
  }

  /** Dropping blanks works piecewise: the codes of a column are the codes of
      its top part followed by the codes of the rest, so their order is kept. */
  lemma {:induction false} DropBlankConcat(top: seq<Option<string>>, rest: seq<Option<string>>)
    ensures DropBlank(top + rest) == DropBlank(top) + DropBlank(rest)
  {
    if |rest| == 0 {
      assert top + rest == top;
    } else {
      var last := |rest| - 1;
      assert (top + rest)[..|top + rest| - 1] == top + rest[..last];
      DropBlankConcat(top, rest[..last]);
    }
  }

  /** One code of the loop: `code.strip()`, then the shared rule. A code
      passes exactly when, trimmed, it is 18 digits or the tag followed by 18
      digits; the result is then the trimmed code with the tag in front. */
  function CheckRow(code: string): (r: Option<string>)
    ensures r.Some? <==> IsPayload(Strip(code)) || (HasTag(Strip(code)) && IsPayload(Strip(code)[|Tag|..]))
    ensures IsPayload(Strip(code)) ==> r == Some(Tag + Strip(code))
    ensures HasTag(Strip(code)) && IsPayload(Strip(code)[|Tag|..]) ==> r == Some(Strip(code))
  {
    AcceptIff(Strip(code));
    Accept(Strip(code))
  }

  /** Only outer whitespace is trimmed: a code with whitespace between
      non-blank characters is rejected. */
  lemma InteriorSpaceRejected(a: string, c: char, b: string)
    requires |a| > 0 && |b| > 0 && !IsSpace(a[0]) && !IsSpace(b[|b| - 1]) && IsSpace(c)
    ensures CheckRow(a + [c] + b) == None
  {
    var code := a + [c] + b;
    assert code[0] == a[0] && code[|code| - 1] == b[|b| - 1];
    assert Strip(code) == code;
    assert code[|a|] == c;
    assert !NoSpaces(code);
  }

  /** The error raised for a bad code: its 1-based position in the list left
      after blank cells are dropped, and the trimmed code. */
  datatype RowError = InvalidCode(row: nat, code: string)

  /** The verdict of the rule on each code, in order. */
  function Checks(codes: seq<string>): (verdicts: seq<Option<string>>)
    ensures |verdicts| == |codes|
    ensures forall j :: 0 <= j < |codes| ==> verdicts[j] == CheckRow(codes[j])
  {
    if |codes| == 0 then [] else Checks(codes[..|codes| - 1]) + [CheckRow(codes[|codes| - 1])]
  }

  /** The loop from position `idx` on, given the verdict on every code:
      codes are rendered in order and the first bad one stops the run. On
      success there is one label per code, showing the accepted
      `"(00)" + payload`; on failure the error names the first bad code,
      trimmed. */
  function RenderFrom(codes: seq<string>, verdicts: seq<Option<string>>, idx: nat, symbolOf: string -> Size)
    : (r: Result<seq<LabeledImage>, RowError>)
    requires |verdicts| == |codes| && idx <= |codes|
    decreases |codes| - idx
    ensures r.Success? <==> forall j :: idx <= j < |verdicts| ==> verdicts[j].Some?
    ensures r.Failure? ==> idx < r.error.row <= |verdicts| && verdicts[r.error.row - 1].None?
    ensures r.Failure? ==> r.error.code == Strip(codes[r.error.row - 1])
    ensures r.Failure? ==> forall j :: idx <= j < r.error.row - 1 ==> verdicts[j].Some?
    ensures r.Success? ==> |r.value| == |verdicts| - idx
    ensures r.Success? ==> forall k :: 0 <= k < |r.value| ==>
              verdicts[idx + k] == Some(r.value[k].text)
              && r.value[k] == ComposeBelow(r.value[k].text, symbolOf(r.value[k].text))
  {
    if idx == |codes| then Success([])
    else
      match verdicts[idx]
      case None => Failure(InvalidCode(idx + 1, Strip(codes[idx])))
      case Some(fullCode) =>
        var image := ComposeBelow(fullCode, symbolOf(fullCode));
        var rest := RenderFrom(codes, verdicts, idx + 1, symbolOf);
        if rest.Failure? then Failure(rest.error) else Success([image] + rest.value)
  }

  /** Where `pdf.image` puts one label: page number (from 0) and the x, y
      offset and width in millimetres. */
  datatype Placement = Placement(page: nat, x: int, y: int, width: int)

  const ItemsPerPage: nat := 10
  const XMargin: int := 30
  const YMargin: int := 20
  const Spacing: int := 70
  const ImageWidth: int := 150

  /** The page loop: a page is added whenever the item number is a multiple
      of ten, the vertical offset restarts at the margin on each new page and
      grows by the spacing after each item. */
  method Paginate(n: nat) returns (placements: seq<Placement>, pageCount: nat)
    ensures |placements| == n
    ensures n == 0 ==> pageCount == 0
    ensures n > 0 ==> (pageCount - 1) * ItemsPerPage < n <= pageCount * ItemsPerPage
    ensures n > 0 ==> placements[n - 1].page == pageCount - 1
    ensures forall i :: 0 <= i < n ==>
              placements[i] == Placement(i / ItemsPerPage, XMargin, YMargin + Spacing * (i % ItemsPerPage), ImageWidth)
  {
    placements := [];
    pageCount := 0;
    var yOffset := YMargin;
    var i := 0;
    while i < n
      invariant 0 <= i <= n
      invariant |placements| == i
      invariant pageCount == (i + ItemsPerPage - 1) / ItemsPerPage
      invariant i > 0 ==> yOffset == YMargin + Spacing * ((i - 1) % ItemsPerPage + 1)
      invariant forall j :: 0 <= j < i ==>
                  placements[j] == Placement(j / ItemsPerPage, XMargin, YMargin + Spacing * (j % ItemsPerPage), ImageWidth)
    {
      if i % ItemsPerPage == 0 {
        pageCount := pageCount + 1;
        yOffset := YMargin;
      }
      placements := placements + [Placement(pageCount - 1, XMargin, yOffset, ImageWidth)];
      yOffset := yOffset + Spacing;
      i := i + 1;
    }
  }

  /** A page starts exactly at the items whose number is a multiple of ten. */
  lemma PageBreaks(i: nat)
    requires i > 0
    ensures i / ItemsPerPage == (i - 1) / ItemsPerPage + (if i % ItemsPerPage == 0 then 1 else 0)
  {
  }

  /** The labels and their layout; `pageCount` counts the pages the loop adds,
      so an empty column gives 0. */
  datatype Document = Document(labels: seq<LabeledImage>, placements: seq<Placement>, pageCount: nat)

  /** The loop over the codes left after blank cells are dropped: the first
      bad code aborts it before any document is written; otherwise every code
      gets one label, in order, laid out ten to a page. */
  method Render(codes: seq<string>, symbolOf: string -> Size) returns (r: Result<Document, RowError>)
    ensures r.Success? <==> forall j :: 0 <= j < |codes| ==> CheckRow(codes[j]).Some?
    ensures r.Failure? ==> 1 <= r.error.row <= |codes| && CheckRow(codes[r.error.row - 1]).None?
    ensures r.Failure? ==> forall j :: 0 <= j < r.error.row - 1 ==> CheckRow(codes[j]).Some?
    ensures r.Failure? ==> r.error.code == Strip(codes[r.error.row - 1])
    ensures r.Success? ==> |r.value.labels| == |r.value.placements| == |codes|
    ensures r.Success? ==> forall j :: 0 <= j < |codes| ==> Some(r.value.labels[j].text) == CheckRow(codes[j])
    ensures r.Success? ==> forall j :: 0 <= j < |codes| ==> r.value.placements[j].page == j / ItemsPerPage
    ensures r.Success? ==> r.value.pageCount == (|codes| + ItemsPerPage - 1) / ItemsPerPage
    ensures r.Success? ==> forall j :: 0 <= j < |codes| ==>
              r.value.labels[j] == ComposeBelow(r.value.labels[j].text, symbolOf(r.value.labels[j].text))
              && r.value.placements[j] == Placement(j / ItemsPerPage, XMargin, YMargin + Spacing * (j % ItemsPerPage), ImageWidth)
  {
    var verdicts := Checks(codes);
    var rendered := RenderFrom(codes, verdicts, 0, symbolOf);
    if rendered.Failure? {
      assert verdicts[rendered.error.row - 1].None?;
      return Failure(rendered.error);
    }
    var placements, pageCount := Paginate(|rendered.value|);
    r := Success(Document(rendered.value, placements, pageCount));
  }

  /** The whole run on the first spreadsheet column, blank cells included:
      rows are numbered after the blanks are dropped. */
  method ProcessFile(cells: seq<Option<string>>, symbolOf: string -> Size) returns (r: Result<Document, RowError>)
    ensures var codes := DropBlank(cells);
      && (r.Success? <==> forall j :: 0 <= j < |codes| ==> CheckRow(codes[j]).Some?)
      && (r.Failure? ==> 1 <= r.error.row <= |codes| && CheckRow(codes[r.error.row - 1]).None?
                         && r.error.code == Strip(codes[r.error.row - 1])
                         && forall j :: 0 <= j < r.error.row - 1 ==> CheckRow(codes[j]).Some?)
      && (r.Success? ==> |r.value.labels| == |r.value.placements| == |codes|
                         && (forall j :: 0 <= j < |codes| ==> Some(r.value.labels[j].text) == CheckRow(codes[j]))
                         && (forall j :: 0 <= j < |codes| ==> r.value.placements[j].page == j / ItemsPerPage)
                         && r.value.pageCount == (|codes| + ItemsPerPage - 1) / ItemsPerPage
                         && forall j :: 0 <= j < |codes| ==>
                              r.value.labels[j] == ComposeBelow(r.value.labels[j].text, symbolOf(r.value.labels[j].text))
                              && r.value.placements[j]
                                 == Placement(j / ItemsPerPage, XMargin, YMargin + Spacing * (j % ItemsPerPage), ImageWidth))
  {
    r := Render(DropBlank(cells), symbolOf);
  }
}
