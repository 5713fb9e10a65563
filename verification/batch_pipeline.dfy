/** `process_file` of the parallel script: every row is normalised and
    checked, all bad rows are collected before the batch is rejected, the
    accepted codes are rendered by a worker pool into an index-addressed buffer,
    and one document page is emitted per image in row order. */
module BatchPipeline {
  import opened Text
  import opened Results
  import opened Sscc
  import opened Labels
  import opened Completion

  /** The row normalisation `''.join(str(code).strip().split())`, computed
      as the removal of every whitespace character; the strip before it is
      subsumed (NormalizeStripsThenJoins). */
  function Normalize(raw: string): string {
    RemoveSpaces(raw)
  }

  /** Normalisation agrees with the script's strip-then-split-and-join, and
      leaves no whitespace anywhere, interior whitespace included. */
  lemma NormalizeStripsThenJoins(raw: string)
    ensures Normalize(raw) == RemoveSpaces(Strip(raw))
    ensures NoSpaces(Normalize(raw))
  {
    RemoveSpacesAfterStrip(raw);
  }

  /** One row of the validation loop: the canonical code, or `None` when the
      row number goes into `error_lines`. An emitted code is 22 characters and
      passes the rule again unchanged. */
  function ValidateRow(raw: string): (r: Option<string>)
    ensures r.Some? ==> |r.value| == |Tag| + PayloadLength
    ensures r.Some? ==> Accept(r.value) == r
  {
    var code := Normalize(raw);
    if code == "" then None
    else
      var r := Accept(code);
      if r.Some? then AcceptIdempotent(code); r else r
  }

  /** A row is accepted exactly when, with all whitespace removed, it is 18
      digits or the tag followed by 18 digits, and the code emitted is then
      that row's own whitespace-free text with the tag in front; a row that is
      empty after normalisation is reported, never skipped. */
  lemma ValidateRowIff(raw: string)
    ensures RemoveSpaces(raw) == "" ==> ValidateRow(raw) == None
    ensures ValidateRow(raw).Some? <==>
              IsPayload(RemoveSpaces(raw)) || (HasTag(RemoveSpaces(raw)) && IsPayload(RemoveSpaces(raw)[|Tag|..]))
    ensures IsPayload(RemoveSpaces(raw)) ==> ValidateRow(raw) == Some(Tag + RemoveSpaces(raw))
    ensures HasTag(RemoveSpaces(raw)) && IsPayload(RemoveSpaces(raw)[|Tag|..]) ==> ValidateRow(raw) == Some(RemoveSpaces(raw))
  {
    AcceptIff(RemoveSpaces(raw));
  }

  /** Whitespace inside the payload is dropped, so the row is still accepted. */
  lemma InteriorSpaceAccepted(a: string, c: char, b: string)
    requires IsPayload(a + b) && IsSpace(c)
    ensures ValidateRow(a + [c] + b) == Some(Tag + a + b)
  {
    var raw := a + [c] + b;
    assert NoSpaces(a) && NoSpaces(b) by {
      assert forall i :: 0 <= i < |a| ==> a[i] == (a + b)[i];
      assert forall i :: 0 <= i < |b| ==> b[i] == (a + b)[|a| + i];
    }
    RemoveSpaceBetween(a, c, b);
    ValidateRowIff(raw);
    assert Tag + (a + b) == Tag + a + b;
  }

  /** Each row's verdict, in row order. */
  function Verdicts(rows: seq<string>): (v: seq<Option<string>>)
    ensures |v| == |rows|
    ensures forall i :: 0 <= i < |rows| ==> v[i] == ValidateRow(rows[i])
  {
    if |rows| == 0 then [] else Verdicts(rows[..|rows| - 1]) + [ValidateRow(rows[|rows| - 1])]
  }

  /** Strictly increasing numbers. */
  predicate Increasing(s: seq<nat>) {
    forall a, b :: 0 <= a < b < |s| ==> s[a] < s[b]
  }

  /** The accumulators `codes` and `error_lines` of the validation loop. */
  datatype Scan = Scan(codes: seq<Task>, errorLines: seq<nat>)

  /** The validation loop, given each row's verdict: nothing short-circuits.
      Every row lands in exactly one accumulator; each number in `error_lines`
      is the 1-based number of a rejected row, and each entry of `codes` is an
      accepted row with its 0-based index and canonical code. */
  function ScanVerdicts(verdicts: seq<Option<string>>): (s: Scan)
    ensures |s.codes| + |s.errorLines| == |verdicts|
    ensures forall k :: 0 <= k < |s.errorLines| ==>
              1 <= s.errorLines[k] <= |verdicts| && verdicts[s.errorLines[k] - 1].None?
    ensures forall k :: 0 <= k < |s.codes| ==>
              s.codes[k].index < |verdicts| && verdicts[s.codes[k].index] == Some(s.codes[k].code)
  {
    if |verdicts| == 0 then Scan([], [])
    else
      var idx := |verdicts| - 1;
      var prev := ScanVerdicts(verdicts[..idx]);
      match verdicts[idx]
      case None => Scan(prev.codes, prev.errorLines + [idx + 1])
      case Some(code) => Scan(prev.codes + [Task(idx, code)], prev.errorLines)
  }

  /** `error_lines` is in row order. */
  lemma {:induction false} ScanErrorLinesIncreasing(verdicts: seq<Option<string>>)
    ensures Increasing(ScanVerdicts(verdicts).errorLines)
  {
    if |verdicts| > 0 {
      var idx := |verdicts| - 1;
      ScanErrorLinesIncreasing(verdicts[..idx]);
      var prev := ScanVerdicts(verdicts[..idx]);
      assert forall k :: 0 <= k < |prev.errorLines| ==> prev.errorLines[k] <= idx;
    }
  }

  /** `codes` is in row order. */
  lemma {:induction false} ScanCodesIncreasing(verdicts: seq<Option<string>>)
    ensures forall a, b :: 0 <= a < b < |ScanVerdicts(verdicts).codes| ==>
              ScanVerdicts(verdicts).codes[a].index < ScanVerdicts(verdicts).codes[b].index
  {
    if |verdicts| > 0 {
      var idx := |verdicts| - 1;
      ScanCodesIncreasing(verdicts[..idx]);
      var prev := ScanVerdicts(verdicts[..idx]);
      assert forall k :: 0 <= k < |prev.codes| ==> prev.codes[k].index < idx;
    }
  }

  /** With no error at all, `codes` holds row `i` at position `i`. */
  lemma {:induction false} ScanWithoutErrorsWellIndexed(verdicts: seq<Option<string>>)
    ensures |ScanVerdicts(verdicts).errorLines| == 0 ==> WellIndexed(ScanVerdicts(verdicts).codes)
  {
    if |verdicts| > 0 {
      ScanWithoutErrorsWellIndexed(verdicts[..|verdicts| - 1]);
    }
  }

  /** No rejected row is missing from `error_lines`. */
  lemma {:induction false} ScanReportsEveryRejectedRow(verdicts: seq<Option<string>>)
    ensures forall i :: 0 <= i < |verdicts| && verdicts[i].None? ==> i + 1 in ScanVerdicts(verdicts).errorLines
  {
    if |verdicts| > 0 {
      var idx := |verdicts| - 1;
      ScanReportsEveryRejectedRow(verdicts[..idx]);
      assert forall i :: 0 <= i < idx ==> verdicts[..idx][i] == verdicts[i];
    }
  }

  /** Why a batch was refused: the rows that failed validation, or the
      defensive "rows read != codes read" check. */
  datatype BatchError = RowErrors(lines: seq<nat>) | CountMismatch(rowCount: int, codeCount: int)

  /** The loop followed by the two checks that raise, given each row's
      verdict. The batch is accepted as a unit or refused with every bad row
      named; the count check never fires. */
  function Decide(verdicts: seq<Option<string>>): (r: Result<seq<Task>, BatchError>)
    ensures r.Success? <==> forall i :: 0 <= i < |verdicts| ==> verdicts[i].Some?
    ensures r.Failure? ==> r.error.RowErrors?
    ensures r.Failure? ==> |r.error.lines| > 0 && Increasing(r.error.lines)
    ensures r.Success? ==> |r.value| == |verdicts| && WellIndexed(r.value)
    ensures r.Success? ==> forall i :: 0 <= i < |verdicts| ==> verdicts[i] == Some(r.value[i].code)
  {
    var s := ScanVerdicts(verdicts);
    ScanErrorLinesIncreasing(verdicts);
    ScanWithoutErrorsWellIndexed(verdicts);
    if |s.errorLines| > 0 then
      assert verdicts[s.errorLines[0] - 1].None?;
      Failure(RowErrors(s.errorLines))
    else if |s.codes| != |verdicts| then Failure(CountMismatch(|verdicts|, |s.codes|))
    else
      ScanReportsEveryRejectedRow(verdicts);
      Success(s.codes)
  }

  /** The numbers a refused batch reports are exactly the 1-based numbers of
      the rejected rows. */
  lemma DecideErrorLines(verdicts: seq<Option<string>>)
    requires Decide(verdicts).Failure?
    ensures forall k :: 0 <= k < |Decide(verdicts).error.lines| ==>
              1 <= Decide(verdicts).error.lines[k] <= |verdicts|
    ensures forall i :: 0 <= i < |verdicts| ==> (i + 1 in Decide(verdicts).error.lines <==> verdicts[i].None?)
  {
    var lines := ScanVerdicts(verdicts).errorLines;
    assert Decide(verdicts).error.lines == lines;
    ScanReportsEveryRejectedRow(verdicts);
    forall i | 0 <= i < |verdicts| && i + 1 in lines
      ensures verdicts[i].None?
    {
      var k :| 0 <= k < |lines| && lines[k] == i + 1;
    }
  }

  /** `process_file`'s validation for a list of rows: the batch is accepted
      as a unit, with one canonical code per row in row order, or refused. */
  function ValidateBatch(rows: seq<string>): (r: Result<seq<Task>, BatchError>)
    ensures r.Success? <==> forall i :: 0 <= i < |rows| ==> ValidateRow(rows[i]).Some?
    ensures r.Failure? ==> r.error.RowErrors?
    ensures r.Failure? ==> |r.error.lines| > 0 && Increasing(r.error.lines)
    ensures r.Success? ==> |r.value| == |rows| && WellIndexed(r.value)
    ensures r.Success? ==> forall i :: 0 <= i < |rows| ==> ValidateRow(rows[i]) == Some(r.value[i].code)
  {
    Decide(Verdicts(rows))
  }

  /** A refused batch names every rejected row, by its 1-based number, and no
      other. */
  lemma BatchErrorsNameRejectedRows(rows: seq<string>)
    ensures ValidateBatch(rows).Failure? ==>
              forall k :: 0 <= k < |ValidateBatch(rows).error.lines| ==>
                1 <= ValidateBatch(rows).error.lines[k] <= |rows|
    ensures ValidateBatch(rows).Failure? ==>
              forall i :: 0 <= i < |rows| ==>
                (i + 1 in ValidateBatch(rows).error.lines <==> ValidateRow(rows[i]).None?)
  {
    var verdicts := Verdicts(rows);
    if Decide(verdicts).Failure? {
      DecideErrorLines(verdicts);
    }
    forall i | 0 <= i < |rows|
      ensures verdicts[i] == ValidateRow(rows[i])
    {
    }
  }

  /** `generate(index, full_code)`: the symbol and text extent are supplied by
      the renderer and the font, which are outside the model. */
  function Generate(code: string, symbolOf: string -> Size, textWidthOf: string -> nat): (img: LabeledImage)
    ensures img.text == code && img.symbol == symbolOf(code)
    ensures img.canvas == Size(symbolOf(code).width, symbolOf(code).height + CenteredBand)
    ensures img.textY == symbolOf(code).height + CenteredGap
    ensures 0 <= (img.canvas.width - img.textX - textWidthOf(code)) - img.textX <= 1
  {
    ComposeCentered(code, symbolOf(code), textWidthOf(code))
  }

  /** One document page, numbered from 0, carrying one labelled image. */
  datatype Page = Page(number: nat, image: LabeledImage)

  /** The page loop `for i, img in enumerate(images)`: each step adds one page
      numbered by the step and carrying that step's image. */
  function Assemble(images: seq<LabeledImage>): (pages: seq<Page>)
    ensures |pages| == |images|
    ensures forall i :: 0 <= i < |pages| ==> pages[i].number == i && pages[i].image == images[i]
  {
    if |images| == 0 then []
    else
      var last := |images| - 1;
      Assemble(images[..last]) + [Page(last, images[last])]
  }

  /** The image of each task, in task order. */
  function RenderAll(tasks: seq<Task>, symbolOf: string -> Size, textWidthOf: string -> nat)
    : (images: seq<LabeledImage>)
    ensures |images| == |tasks|
    ensures forall j :: 0 <= j < |tasks| ==> images[j] == Generate(tasks[j].code, symbolOf, textWidthOf)
  {
    if |tasks| == 0 then []
    else RenderAll(tasks[..|tasks| - 1], symbolOf, textWidthOf) + [Generate(tasks[|tasks| - 1].code, symbolOf, textWidthOf)]
  }

  /** Render every task in the pool, in any completion order, then lay the
      buffer out page by page: page `i` shows the label of task `i`'s code. */
  function Publish(tasks: seq<Task>, order: seq<nat>, symbolOf: string -> Size, textWidthOf: string -> nat)
    : (pages: seq<Page>)
    requires WellIndexed(tasks) && IsPermutation(order, |tasks|)
    ensures |pages| == |tasks|
    ensures forall i :: 0 <= i < |tasks| ==> pages[i] == Page(i, Generate(tasks[i].code, symbolOf, textWidthOf))
  {
    var outcomes := RenderAll(tasks, symbolOf, textWidthOf);
    Assemble(RunPool(tasks, outcomes, order).images)
  }

  /** The whole batch for one completion order of the render tasks: refused
      with every bad row named, or one page per row, page `i` showing the label
      of row `i`'s canonical code, whatever the completion order. */
  function ProcessFile(rows: seq<string>, order: seq<nat>, symbolOf: string -> Size, textWidthOf: string -> nat)
    : (r: Result<seq<Page>, BatchError>)
    requires IsPermutation(order, |rows|)
    ensures r.Success? <==> forall i :: 0 <= i < |rows| ==> ValidateRow(rows[i]).Some?
    ensures r.Failure? ==> ValidateBatch(rows).Failure? && r.error == ValidateBatch(rows).error
    ensures r.Success? ==> |r.value| == |rows|
    ensures r.Success? ==> forall i :: 0 <= i < |rows| ==>
              r.value[i] == Page(i, Generate(ValidateRow(rows[i]).value, symbolOf, textWidthOf))
  {
    var batch := ValidateBatch(rows);
    if batch.Failure? then Failure(batch.error)
    else
      var pages := Publish(batch.value, order, symbolOf, textWidthOf);
      assert forall i :: 0 <= i < |rows| ==> ValidateRow(rows[i]).value == batch.value[i].code;
      Success(pages)
  }

  /** The document does not depend on the order in which renders complete. */
  lemma ProcessFileOrderIndependent(rows: seq<string>, p: seq<nat>, q: seq<nat>,
                                    symbolOf: string -> Size, textWidthOf: string -> nat)
    requires IsPermutation(p, |rows|) && IsPermutation(q, |rows|)
    ensures ProcessFile(rows, p, symbolOf, textWidthOf) == ProcessFile(rows, q, symbolOf, textWidthOf)
  {
  }
}
