/** The `POST` handler of app/api/render/route.ts: validation of the
    column set, per-row normalisation and defaults, the encoded field
    tokens, the QR payload, the pill, the file name, and the loop that
    renders every row in order and stops at the first failing row. The
    barcode, QR and PNG libraries are parameters (`Encoders`) whose
    insides the model never looks at. */
module RenderRoute {
  import opened Basics
  import opened Text
  import opened LabelSvg

  /** One text column per field, as received in the request body. */
  type Columns = seq<seq<string>>

  const LabelHints: seq<string> :=
    ["BOX ID", "P/N", "QTY", "MPN (QVL)", "Maker", "4L", "MITAC P/N description"]
  const RequiredNames: seq<string> := ["P/N", "QTY", "MPN"]
  const OptionalNames: seq<string> := ["Maker", "4L", "Desc"]

  /** The request body: `columns` is `None` when it is not an array. */
  datatype Request = Request(columns: Option<Columns>, vd: Option<string>)

  datatype LabelResult = LabelResult(pill: string, image: string, filename: string)

  /** The JSON answer: the results with the column hints, or an error
      message with its HTTP status. */
  datatype Response =
    | Rendered(results: seq<LabelResult>, labelHints: seq<string>)
    | Rejected(status: nat, error: string)

  datatype ColumnError =
    | MissingColumns
    | NoBoxId
    | RequiredMismatch(name: string)
    | OptionalMismatch(name: string)

  function ColumnMessage(e: ColumnError): string
  {
    match e
    case MissingColumns => "缺少必要列数据"
    case NoBoxId => "请至少填写 BOX ID"
    case RequiredMismatch(name) => "必填列行数需与 BOX ID 一致：" + name
    case OptionalMismatch(name) => "可选列若填写需与 BOX ID 行数一致：" + name
  }

  predicate LengthDiffers(rowCount: nat, col: seq<string>)
  {
    |col| != rowCount
  }

  predicate FilledAndDiffers(rowCount: nat, col: seq<string>)
  {
    |col| != 0 && |col| != rowCount
  }

  /** The checks before any row is looked at, in the order the route
      makes them; on success, the row count (the length of the BOX ID
      column). */
  function ValidateColumns(columns: Option<Columns>): (r: Result<nat, ColumnError>)
    ensures r.Success? ==> columns.Some? && |columns.value| >= 4
    ensures r.Success? ==> r.value == |columns.value[0]| && r.value > 0
  {
    if columns.None? || |columns.value| < 4 then Failure(MissingColumns)
    else
      var cols := columns.value;
      var rowCount := |Column(cols, 0)|;
      if rowCount == 0 then Failure(NoBoxId)
      else
        var required := [Column(cols, 1), Column(cols, 2), Column(cols, 3)];
        var badRequired := FindIndex(required, col => LengthDiffers(rowCount, col));
        if badRequired != -1 then Failure(RequiredMismatch(RequiredNames[badRequired]))
        else
          var optional := [Column(cols, 4), Column(cols, 5), Column(cols, 6)];
          var badOptional := FindIndex(optional, col => FilledAndDiffers(rowCount, col));
          if badOptional != -1 then Failure(OptionalMismatch(OptionalNames[badOptional]))
          else Success(rowCount)
  }

  /** The column-set invariant: at least four columns, a non-empty BOX ID
      column, required columns as long as it, optional ones empty or as
      long as it. */
  predicate ColumnsConsistent(cols: Columns)
  {
    var rowCount := |Column(cols, 0)|;
    && |cols| >= 4 && rowCount > 0
    && (forall k :: 1 <= k <= 3 ==> |Column(cols, k)| == rowCount)
    && (forall k :: 4 <= k <= 6 ==> |Column(cols, k)| == 0 || |Column(cols, k)| == rowCount)
  }

  /** Validation accepts exactly the consistent column sets. */
  lemma ValidateAcceptsConsistent(cols: Columns)
    ensures ValidateColumns(Some(cols)).Success? <==> ColumnsConsistent(cols)
  {
    if |cols| >= 4 && |cols[0]| > 0 {
      var rowCount := |cols[0]|;
      var required := [Column(cols, 1), Column(cols, 2), Column(cols, 3)];
      var optional := [Column(cols, 4), Column(cols, 5), Column(cols, 6)];
      assert forall k :: 1 <= k <= 3 ==> required[k - 1] == Column(cols, k);
      assert forall k :: 4 <= k <= 6 ==> optional[k - 4] == Column(cols, k);
    }
  }

  /** Fewer than four columns, or none at all, fails first. */
  lemma MissingColumnsFirst(columns: Option<Columns>)
    requires columns.None? || |columns.value| < 4
    ensures ValidateColumns(columns) == Failure(MissingColumns)
    ensures ColumnMessage(ValidateColumns(columns).error) == "缺少必要列数据"
  {
  }

  /** With four columns or more, an empty BOX ID column fails next. */
  lemma EmptyBoxIdSecond(cols: Columns)
    requires |cols| >= 4 && cols[0] == []
    ensures ValidateColumns(Some(cols)) == Failure(NoBoxId)
  {
  }

  /** The first required column (1 P/N, 2 QTY, 3 MPN) whose length differs
      from the row count is the one named. */
  lemma FirstRequiredMismatchNamed(cols: Columns, k: nat)
    requires |cols| >= 4 && |cols[0]| > 0
    requires 1 <= k <= 3 && |Column(cols, k)| != |cols[0]|
    requires forall j :: 1 <= j < k ==> |Column(cols, j)| == |cols[0]|
    ensures ValidateColumns(Some(cols)) == Failure(RequiredMismatch(RequiredNames[k - 1]))
  {
    var required := [Column(cols, 1), Column(cols, 2), Column(cols, 3)];
    assert forall j :: 1 <= j <= 3 ==> required[j - 1] == Column(cols, j);
    assert LengthDiffers(|cols[0]|, required[k - 1]);
  }

  /** With the required columns in order, the first optional column (4
      Maker, 5 4L, 6 Desc) that is filled and of another length is named. */
  lemma FirstOptionalMismatchNamed(cols: Columns, k: nat)
    requires |cols| >= 4 && |cols[0]| > 0
    requires forall j :: 1 <= j <= 3 ==> |Column(cols, j)| == |cols[0]|
    requires 4 <= k <= 6 && |Column(cols, k)| != 0 && |Column(cols, k)| != |cols[0]|
    requires forall j :: 4 <= j < k ==> |Column(cols, j)| == 0 || |Column(cols, j)| == |cols[0]|
    ensures ValidateColumns(Some(cols)) == Failure(OptionalMismatch(OptionalNames[k - 4]))
  {
    var required := [Column(cols, 1), Column(cols, 2), Column(cols, 3)];
    var optional := [Column(cols, 4), Column(cols, 5), Column(cols, 6)];
    assert forall j :: 1 <= j <= 3 ==> required[j - 1] == Column(cols, j);
    assert forall j :: 4 <= j <= 6 ==> optional[j - 4] == Column(cols, j);
    assert FilledAndDiffers(|cols[0]|, optional[k - 4]);
  }

  /** An empty optional column is never the one named. */
  lemma EmptyOptionalNeverNamed(cols: Columns, k: nat)
    requires 4 <= k <= 6 && Column(cols, k) == []
    ensures ValidateColumns(Some(cols)) != Failure(OptionalMismatch(OptionalNames[k - 4]))
  {
    if |cols| >= 4 && |cols[0]| > 0 {
      var optional := [Column(cols, 4), Column(cols, 5), Column(cols, 6)];
      assert forall j :: 4 <= j <= 6 ==> optional[j - 4] == Column(cols, j);
    }
  }

  /** `trim(col[i])`: a missing cell reads as the empty string. */
  function Cell(col: seq<string>, i: nat): string
  {
    if i < |col| then col[i] else ""
  }

  /** The trimmed values of one row; the 4L value upper-cased. */
  datatype Row = Row(box: string, pn: string, qty: string, mpn: string, maker: string, fourL: string)

  /** The 4L value: trimmed, then upper-cased; empty exactly when the
      trimmed cell is, and free of lower-case ASCII letters. */
  function NormalizeFourL(cell: string): (u: string)
    ensures IsTrimmed(u) && (u == "" <==> Trim(cell) == "")
    ensures forall k :: 0 <= k < |u| ==> !('a' <= u[k] <= 'z')
    ensures u == ToUpper(Trim(cell))
  {
    var t := Trim(cell);
    ToUpperTrimmed(t);
    ToUpper(t)
  }

  /** Row `i` read from the columns: every value trimmed, 4L normalised. */
  function NormalizeRow(cols: Columns, i: nat): (r: Row)
    ensures IsTrimmed(r.box) && IsTrimmed(r.pn) && IsTrimmed(r.qty) && IsTrimmed(r.mpn)
    ensures IsTrimmed(r.maker) && IsTrimmed(r.fourL)
    ensures i < |Column(cols, 0)| ==> r.box == Trim(Column(cols, 0)[i])
    ensures i < |Column(cols, 1)| ==> r.pn == Trim(Column(cols, 1)[i])
    ensures i < |Column(cols, 2)| ==> r.qty == Trim(Column(cols, 2)[i])
    ensures i < |Column(cols, 3)| ==> r.mpn == Trim(Column(cols, 3)[i])
    ensures i < |Column(cols, 4)| ==> r.maker == Trim(Column(cols, 4)[i])
    ensures i < |Column(cols, 5)| ==> r.fourL == NormalizeFourL(Column(cols, 5)[i])
    ensures i >= |Column(cols, 0)| ==> r.box == ""
    ensures i >= |Column(cols, 1)| ==> r.pn == ""
    ensures i >= |Column(cols, 2)| ==> r.qty == ""
    ensures i >= |Column(cols, 3)| ==> r.mpn == ""
    ensures i >= |Column(cols, 4)| ==> r.maker == ""
    ensures i >= |Column(cols, 5)| ==> r.fourL == ""
  {
    Row(
      Trim(Cell(Column(cols, 0), i)),
      Trim(Cell(Column(cols, 1), i)),
      Trim(Cell(Column(cols, 2), i)),
      Trim(Cell(Column(cols, 3), i)),
      Trim(Cell(Column(cols, 4), i)),
      NormalizeFourL(Cell(Column(cols, 5), i)))
  }

  predicate HasRequired(r: Row)
  {
    r.box != "" && r.pn != "" && r.qty != "" && r.mpn != ""
  }

  function BoxCode(r: Row): string { "BB" + r.box }
  function PnCode(r: Row): string { "P" + r.pn }
  function QtyCode(r: Row): string { "Q" + r.qty }
  function MpnCode(r: Row): string { "1P" + r.mpn }
  function FourLCode(r: Row): string { if r.fourL != "" then "4L" + r.fourL else "" }

  /** `Boolean(s)` for a string. */
  predicate IsNonEmpty(s: string)
  {
    s != ""
  }

  /** The QR payload: the five tokens, empty ones dropped, joined by "||". */
  function QrText(r: Row): string
  {
    Join(Filter([BoxCode(r), PnCode(r), QtyCode(r), MpnCode(r), FourLCode(r)], IsNonEmpty), "||")
  }

  /** The pill: the five tokens joined by "||", "N/A" standing for an empty 4L token. */
  function Pill(r: Row): string
  {
    Join([BoxCode(r), PnCode(r), QtyCode(r), MpnCode(r), if FourLCode(r) != "" then FourLCode(r) else "N/A"], "||")
  }

  lemma JoinFour(a: string, b: string, c: string, d: string, sep: string)
    ensures Join([a, b, c, d], sep) == a + sep + b + sep + c + sep + d
  {
    assert [c, d][1..] == [d];
    assert Join([c, d], sep) == c + sep + d;
    assert [b, c, d][1..] == [c, d];
    assert Join([b, c, d], sep) == b + sep + (c + sep + d);
    assert [a, b, c, d][1..] == [b, c, d];
  }

  lemma JoinFive(a: string, b: string, c: string, d: string, e: string, sep: string)
    ensures Join([a, b, c, d, e], sep) == a + sep + b + sep + c + sep + d + sep + e
  {
    assert [a, b, c, d, e][1..] == [b, c, d, e];
    JoinFour(b, c, d, e, sep);
  }

  /** The pill is the four prefixed required values and then either the
      prefixed 4L value or "N/A", in that order, joined by "||". */
  lemma PillFormat(r: Row)
    ensures Pill(r) == "BB" + r.box + "||" + "P" + r.pn + "||" + "Q" + r.qty + "||" + "1P" + r.mpn
                       + "||" + (if r.fourL != "" then "4L" + r.fourL else "N/A")
  {
    JoinFive(BoxCode(r), PnCode(r), QtyCode(r), MpnCode(r),
             if FourLCode(r) != "" then FourLCode(r) else "N/A", "||");
  }

  /** The QR payload equals the pill when there is a 4L value; without one
      it is the four required tokens alone, with no "N/A". */
  lemma QrTextAgainstPill(r: Row)
    ensures r.fourL != "" ==> QrText(r) == Pill(r)
    ensures r.fourL == "" ==> QrText(r) == "BB" + r.box + "||" + "P" + r.pn + "||" + "Q" + r.qty + "||" + "1P" + r.mpn
  {
    var four := [BoxCode(r), PnCode(r), QtyCode(r), MpnCode(r)];
    FilterKeepsAll(four, IsNonEmpty);
    FilterAppend(four, [FourLCode(r)], IsNonEmpty);
    assert four + [FourLCode(r)] == [BoxCode(r), PnCode(r), QtyCode(r), MpnCode(r), FourLCode(r)];
    if r.fourL != "" {
      assert Filter([FourLCode(r)], IsNonEmpty) == [FourLCode(r)];
      assert four + [FourLCode(r)] == [BoxCode(r), PnCode(r), QtyCode(r), MpnCode(r), FourLCode(r)];
      FilterKeepsAll(four + [FourLCode(r)], IsNonEmpty);
    } else {
      assert Filter([FourLCode(r)], IsNonEmpty) == [];
      assert four + [] == four;
      JoinFour(BoxCode(r), PnCode(r), QtyCode(r), MpnCode(r), "||");
    }
  }

  /** The box id holds a character that `\d` matches. */
  predicate HasDigit(s: string)
  {
    exists k :: 0 <= k < |s| && IsDigit(s[k])
  }

  /** `deriveVD`: the first six digits of the box id; the first six
      characters only when it has no digit at all. Never longer than six. */
  function DeriveVD(boxRaw: string): (vd: string)
    ensures |vd| <= 6
    ensures HasDigit(boxRaw) ==> vd != "" && |vd| == if |Digits(boxRaw)| < 6 then |Digits(boxRaw)| else 6
    ensures HasDigit(boxRaw) ==> vd == Digits(boxRaw)[..|vd|]
    ensures HasDigit(boxRaw) ==> forall k :: 0 <= k < |vd| ==> IsDigit(vd[k])
    ensures !HasDigit(boxRaw) ==> |vd| == if |boxRaw| < 6 then |boxRaw| else 6
    ensures !HasDigit(boxRaw) ==> vd == boxRaw[..|vd|]
  {
    var digits := Digits(boxRaw);
    if Take(digits, 6) != "" then Take(digits, 6)
    else if Take(boxRaw, 6) != "" then Take(boxRaw, 6)
    else ""
  }

  /** A box id with a digit anywhere never falls back to raw characters. */
  lemma DeriveVDOneDigit()
    ensures DeriveVD("AB1CDEFG") == "1"
  {
    assert Digits("AB1CDEFG") == "1";
  }

  /** With no digit at all, the first six characters. */
  lemma DeriveVDNoDigit()
    ensures DeriveVD("ABCDEFGH") == "ABCDEF"
  {
    assert Digits("ABCDEFGH") == "";
  }

  function OrEmpty(v: Option<string>): string
  {
    if v.Some? then v.value else ""
  }

  /** The vendor code shown on the label: the shared one when it is
      non-empty after trimming, otherwise the one derived from the box id. */
  function VdText(vd: Option<string>, r: Row): (v: string)
    ensures Trim(OrEmpty(vd)) != "" ==> v == Trim(OrEmpty(vd))
    ensures Trim(OrEmpty(vd)) == "" ==> v == DeriveVD(r.box) && |v| <= 6
  {
    var shared := Trim(OrEmpty(vd));
    if shared != "" then shared else DeriveVD(r.box)
  }

  function MakerName(r: Row): string { if r.maker != "" then r.maker else "MAKER" }
  function CooText(r: Row): string { if r.fourL != "" then r.fourL else "N/A" }

  /** `${pnRaw || `label-${i + 1}`}.png` */
  function Filename(r: Row, i: nat): string
  {
    (if r.pn != "" then r.pn else "label-" + Decimal(i + 1)) + ".png"
  }

  /** The image libraries, never looked inside: Code 128 (bwip-js, giving
      the base64 text of a PNG), QR (qrcode, giving a data URI) and the SVG
      rasteriser (sharp, giving the base64 text of a PNG). `Failure`
      carries the message of the error the library throws. */
  datatype Encoders = Encoders(
    code128: (string, nat, nat) -> Result<string, string>,
    qrDataUrl: string -> Result<string, string>,
    rasterize: SvgDoc -> Result<string, string>)

  const PngDataUri: string := "data:image/png;base64,"
  const BarcodeScale: nat := 24
  const QtyBarcodeScale: nat := 36
  const BarcodeHeight: nat := 28

  /** `makeBarcode(text, scale)`: the PNG wrapped as a data URI. */
  function MakeBarcode(enc: Encoders, text: string, scale: nat): Result<string, string>
  {
    match enc.code128(text, scale, BarcodeHeight)
    case Success(png) => Success(PngDataUri + png)
    case Failure(m) => Failure(m)
  }

  /** What becomes of one row. */
  datatype RowOutcome = MissingField | EncodeFailed(message: string) | Done(result: LabelResult)

  /** The five calls of the `Promise.all`, in argument order: the four
      barcodes (QTY at the larger scale) and the QR code. */
  function EncoderCalls(r: Row, enc: Encoders): (calls: seq<Result<string, string>>)
    ensures |calls| == 5
  {
    [ MakeBarcode(enc, BoxCode(r), BarcodeScale),
      MakeBarcode(enc, PnCode(r), BarcodeScale),
      MakeBarcode(enc, QtyCode(r), QtyBarcodeScale),
      MakeBarcode(enc, MpnCode(r), BarcodeScale),
      enc.qrDataUrl(QrText(r)) ]
  }

  predicate Failed(c: Result<string, string>)
  {
    c.Failure?
  }

  /** The SVG document of a row once all five images are at hand. */
  function LabelDoc(r: Row, vd: Option<string>, calls: seq<Result<string, string>>): SvgDoc
    requires |calls| == 5 && forall k :: 0 <= k < 5 ==> calls[k].Success?
  {
    var captions := MakeCaptions(BoxCode(r), r.pn, r.qty, r.mpn, MakerName(r), CooText(r), VdText(vd, r));
    SvgDoc(calls[0].value, calls[1].value, calls[2].value, calls[3].value, calls[4].value, captions)
  }

  /** The encoding, composing and rasterising of a row whose required
      values are present: the row renders exactly when all five calls and
      the rasteriser succeed; otherwise the first failing call, in argument
      order, gives the message. */
  function ComposeLabel(r: Row, vd: Option<string>, i: nat, enc: Encoders): (o: RowOutcome)
    ensures !o.MissingField?
    ensures var calls := EncoderCalls(r, enc);
      o.Done? <==> (forall k :: 0 <= k < 5 ==> calls[k].Success?) && enc.rasterize(LabelDoc(r, vd, calls)).Success?
    ensures var calls := EncoderCalls(r, enc);
      FindIndex(calls, Failed) >= 0 ==> o == EncodeFailed(calls[FindIndex(calls, Failed)].error)
    ensures var calls := EncoderCalls(r, enc);
      FindIndex(calls, Failed) == -1 && enc.rasterize(LabelDoc(r, vd, calls)).Failure? ==>
        o == EncodeFailed(enc.rasterize(LabelDoc(r, vd, calls)).error)
    ensures o.Done? ==> o.result.pill == Pill(r) && o.result.filename == Filename(r, i)
    ensures o.Done? ==> o.result.image == PngDataUri + enc.rasterize(LabelDoc(r, vd, EncoderCalls(r, enc))).value
  {
    var calls := EncoderCalls(r, enc);
    if calls[0].Failure? then EncodeFailed(calls[0].error)
    else if calls[1].Failure? then EncodeFailed(calls[1].error)
    else if calls[2].Failure? then EncodeFailed(calls[2].error)
    else if calls[3].Failure? then EncodeFailed(calls[3].error)
    else if calls[4].Failure? then EncodeFailed(calls[4].error)
    else
      match enc.rasterize(LabelDoc(r, vd, calls))
      case Failure(m) => EncodeFailed(m)
      case Success(png) => Done(LabelResult(Pill(r), PngDataUri + png, Filename(r, i)))
  }

  /** One iteration of the row loop: normalise, check the four required
      values, then compose. */
  function RenderRow(cols: Columns, vd: Option<string>, i: nat, enc: Encoders): RowOutcome
  {
    var r := NormalizeRow(cols, i);
    if !HasRequired(r) then MissingField else ComposeLabel(r, vd, i, enc)
  }

  /** The answer for a row that did not render: 400 naming the 1-based row
      for a missing value, 500 with the library's message otherwise. */
  function RowRejection(i: nat, o: RowOutcome): Response
    requires !o.Done?
  {
    match o
    case MissingField => Rejected(400, "第 " + Decimal(i + 1) + " 行缺少必填项")
    case EncodeFailed(m) => Rejected(500, if m != "" then m else "服务器错误")
  }

  /** A row is rejected as missing exactly when one of its four required
      values is empty after trimming. */
  lemma MissingFieldExactly(cols: Columns, vd: Option<string>, i: nat, enc: Encoders)
    ensures RenderRow(cols, vd, i, enc) == MissingField <==>
      || Trim(Cell(Column(cols, 0), i)) == "" || Trim(Cell(Column(cols, 1), i)) == ""
      || Trim(Cell(Column(cols, 2), i)) == "" || Trim(Cell(Column(cols, 3), i)) == ""
  {
  }

  /** A rendered row: its required values are non-empty, its pill has the
      exact five-token form, its file name is the P/N value with ".png"
      (the `label-N` fallback is never taken), and its image is a PNG data
      URI. */
  lemma RenderedRowShape(cols: Columns, vd: Option<string>, i: nat, enc: Encoders)
    requires RenderRow(cols, vd, i, enc).Done?
    ensures var res := RenderRow(cols, vd, i, enc).result;
            var r := NormalizeRow(cols, i);
      && HasRequired(r)
      && res.pill == "BB" + r.box + "||" + "P" + r.pn + "||" + "Q" + r.qty + "||" + "1P" + r.mpn
                     + "||" + (if r.fourL != "" then "4L" + r.fourL else "N/A")
      && res.filename == r.pn + ".png"
      && |res.image| >= |PngDataUri| && res.image[..|PngDataUri|] == PngDataUri
  {
    PillFormat(NormalizeRow(cols, i));
  }

  /** The label's defaults: maker "MAKER" and CoO "N/A" when blank. */
  lemma DisplayDefaults(r: Row)
    ensures r.maker == "" ==> MakerName(r) == "MAKER"
    ensures r.maker != "" ==> MakerName(r) == r.maker
    ensures r.fourL == "" ==> CooText(r) == "N/A" && FourLCode(r) == ""
    ensures r.fourL != "" ==> CooText(r) == r.fourL && FourLCode(r) == "4L" + r.fourL
  {
  }

  /** The row loop of `POST`, over any per-row step `render`: one result
      per row, in row order, or, at the first row that does not render,
      the rejection for that row and no results. */
  method RenderRows(rowCount: nat, render: nat -> RowOutcome) returns (resp: Response)
    ensures resp.Rendered? ==>
      && resp.labelHints == LabelHints
      && |resp.results| == rowCount
      && forall i :: 0 <= i < rowCount ==> render(i) == Done(resp.results[i])
    ensures resp.Rejected? ==>
      exists i :: 0 <= i < rowCount
        && (forall j :: 0 <= j < i ==> render(j).Done?)
        && !render(i).Done?
        && resp == RowRejection(i, render(i))
  {
    var results: seq<LabelResult> := [];
    for i := 0 to rowCount
      invariant |results| == i
      invariant forall j :: 0 <= j < i ==> render(j) == Done(results[j])
    {
      var outcome := render(i);
      if !outcome.Done? {
        return RowRejection(i, outcome);
      }
      results := results + [outcome.result];
    }
    return Rendered(results, LabelHints);
  }

  /** `POST`: on a failed check, 400 with its message; otherwise the row
      loop over the validated row count, each row rendered by `RenderRow`. */
  method Post(req: Request, enc: Encoders) returns (resp: Response)
    ensures ValidateColumns(req.columns).Failure? ==>
      resp == Rejected(400, ColumnMessage(ValidateColumns(req.columns).error))
    ensures ValidateColumns(req.columns).Success? && resp.Rendered? ==>
      && resp.labelHints == LabelHints
      && |resp.results| == |req.columns.value[0]|
      && forall i :: 0 <= i < |resp.results| ==>
           RenderRow(req.columns.value, req.vd, i, enc) == Done(resp.results[i])
    ensures ValidateColumns(req.columns).Success? && resp.Rejected? ==>
      exists i :: 0 <= i < |req.columns.value[0]|
        && (forall j :: 0 <= j < i ==> RenderRow(req.columns.value, req.vd, j, enc).Done?)
        && !RenderRow(req.columns.value, req.vd, i, enc).Done?
        && resp == RowRejection(i, RenderRow(req.columns.value, req.vd, i, enc))
  {
    var checked := ValidateColumns(req.columns);
    if checked.Failure? {
      return Rejected(400, ColumnMessage(checked.error));
    }
    var cols := req.columns.value;
    var render := (i: nat) => RenderRow(cols, req.vd, i, enc);
    resp := RenderRows(checked.value, render);
    if resp.Rendered? {
      forall j | 0 <= j < |resp.results|
        ensures RenderRow(cols, req.vd, j, enc) == Done(resp.results[j])
      {
        assert render(j) == Done(resp.results[j]);
      }
    }
    if resp.Rejected? {
      var i :| 0 <= i < checked.value && (forall j :: 0 <= j < i ==> render(j).Done?)
               && !render(i).Done? && resp == RowRejection(i, render(i));
      assert render(i) == RenderRow(cols, req.vd, i, enc);
      forall j | 0 <= j < i
        ensures RenderRow(cols, req.vd, j, enc).Done?
      {
        assert render(j).Done?;
      }
    }
  }

  /** Normalising leaves a row alone whose values are already trimmed and
      whose 4L value holds no lower-case ASCII letter. */
  lemma CleanRowUnchanged(cols: Columns, i: nat)
    requires IsTrimmed(Cell(Column(cols, 0), i)) && IsTrimmed(Cell(Column(cols, 1), i))
    requires IsTrimmed(Cell(Column(cols, 2), i)) && IsTrimmed(Cell(Column(cols, 3), i))
    requires IsTrimmed(Cell(Column(cols, 4), i)) && IsTrimmed(Cell(Column(cols, 5), i))
    requires forall k :: 0 <= k < |Cell(Column(cols, 5), i)| ==> !('a' <= Cell(Column(cols, 5), i)[k] <= 'z')
    ensures NormalizeRow(cols, i) == Row(Cell(Column(cols, 0), i), Cell(Column(cols, 1), i),
      Cell(Column(cols, 2), i), Cell(Column(cols, 3), i), Cell(Column(cols, 4), i), Cell(Column(cols, 5), i))
  {
    var f := Cell(Column(cols, 5), i);
    assert ToUpper(f) == f;
  }

  /** The one-row request with only the required values filled reads as
      the row B1/P1/5/M1, which has the pill "BBB1||PP1||Q5||1PM1||N/A"
      and the file "P1.png". */
  lemma SingleRowExample()
    ensures NormalizeRow([["B1"], ["P1"], ["5"], ["M1"], [], [], []], 0) == Row("B1", "P1", "5", "M1", "", "")
    ensures Pill(Row("B1", "P1", "5", "M1", "", "")) == "BBB1||PP1||Q5||1PM1||N/A"
    ensures Filename(Row("B1", "P1", "5", "M1", "", ""), 0) == "P1.png"
  {
    var row := Row("B1", "P1", "5", "M1", "", "");
    PillFormat(row);
    assert Pill(row) == "BBB1||PP1||Q5||1PM1||N/A";
    assert Filename(row, 0) == "P1.png";
    SingleRowCells();
  }

  /** The cells of that request are already clean, so normalisation keeps them. */
  lemma SingleRowCells()
    ensures NormalizeRow([["B1"], ["P1"], ["5"], ["M1"], [], [], []], 0) == Row("B1", "P1", "5", "M1", "", "")
  {
    var cols: Columns := [["B1"], ["P1"], ["5"], ["M1"], [], [], []];
    assert Cell(Column(cols, 0), 0) == "B1" && Cell(Column(cols, 1), 0) == "P1";
    assert Cell(Column(cols, 2), 0) == "5" && Cell(Column(cols, 3), 0) == "M1";
    assert Cell(Column(cols, 4), 0) == "" && Cell(Column(cols, 5), 0) == "";
    CleanRowUnchanged(cols, 0);
  }

  /** The columns of that row pass validation with one row. */
  lemma SingleRowAccepted()
    ensures ValidateColumns(Some([["B1"], ["P1"], ["5"], ["M1"], [], [], []])) == Success(1)
  {
    ValidateAcceptsConsistent([["B1"], ["P1"], ["5"], ["M1"], [], [], []]);
  }

  /** A QTY column shorter than the BOX ID column is rejected naming QTY. */
  lemma ShortQtyExample()
    ensures ValidateColumns(Some([["B1", "B2"], ["P1", "P2"], ["5"], ["M1", "M2"]]))
            == Failure(RequiredMismatch("QTY"))
  {
    FirstRequiredMismatchNamed([["B1", "B2"], ["P1", "P2"], ["5"], ["M1", "M2"]], 2);
  }
}
