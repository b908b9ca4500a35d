/** The input side of app/page.tsx: each textarea read as trimmed,
    non-blank lines, the line counts shown beside the fields, the
    client's own check of the column lengths (the offending input
    indices and the composed message), and the copy-and-replace update
    of one input. */
module LabelPage {
  import opened Basics
  import opened Text
  import RenderRoute

  /** `s` without one trailing carriage return. */
  function DropCr(s: string): (r: string)
    ensures if s != [] && s[|s| - 1] == '\r' then s == r + ['\r'] else r == s
  {
    if s != [] && s[|s| - 1] == '\r' then s[..|s| - 1] else s
  }

  /** `text.split(/\r?\n/)`: the pieces between line feeds, where a
      carriage return right before a line feed belongs to the separator. */
  function SplitLines(text: string): (lines: seq<string>)
    ensures |lines| == |Split(text, '\n')| && |lines| >= 1
    ensures lines[|lines| - 1] == Split(text, '\n')[|lines| - 1]
    ensures forall k :: 0 <= k < |lines| - 1 ==> lines[k] == DropCr(Split(text, '\n')[k])
  {
    var pieces := Split(text, '\n');
    seq(|pieces|, k requires 0 <= k < |pieces| => if k < |pieces| - 1 then DropCr(pieces[k]) else pieces[k])
  }

  /** `lines.map(line => line.trim())`. */
  function TrimAll(lines: seq<string>): (r: seq<string>)
    ensures |r| == |lines| && forall k :: 0 <= k < |lines| ==> r[k] == Trim(lines[k])
    ensures forall k :: 0 <= k < |lines| ==> IsTrimmed(r[k])
  {
    seq(|lines|, k requires 0 <= k < |lines| => Trim(lines[k]))
  }

  predicate IsFilled(s: string)
  {
    s != ""
  }

  /** `line.trim()` is truthy. */
  predicate IsContentLine(line: string)
  {
    Trim(line) != ""
  }

  /** One column as `handleSubmit` sends it: the lines, trimmed, with the
      blank ones dropped. Every entry is non-empty and trimmed. */
  function ParseColumn(text: string): (col: seq<string>)
    ensures forall k :: 0 <= k < |col| ==> col[k] != "" && IsTrimmed(col[k])
  {
    var trimmed := TrimAll(SplitLines(text));
    FilterKeepsProperty(trimmed, IsFilled, IsTrimmed);
    Filter(trimmed, IsFilled)
  }

  /** The columns of all the inputs, in input order. */
  function ParseColumns(inputs: seq<string>): (columns: seq<seq<string>>)
    ensures |columns| == |inputs| && forall k :: 0 <= k < |inputs| ==> columns[k] == ParseColumn(inputs[k])
  {
    seq(|inputs|, k requires 0 <= k < |inputs| => ParseColumn(inputs[k]))
  }

  /** The count shown beside one input: its lines whose trim is non-empty. */
  function Count(text: string): nat
  {
    |Filter(SplitLines(text), IsContentLine)|
  }

  /** `counts`: one count per input. */
  function Counts(inputs: seq<string>): (counts: seq<nat>)
    ensures |counts| == |inputs| && forall k :: 0 <= k < |inputs| ==> counts[k] == Count(inputs[k])
  {
    seq(|inputs|, k requires 0 <= k < |inputs| => Count(inputs[k]))
  }

  /** Counting the lines whose trim is non-empty counts the non-empty
      trimmed lines. */
  lemma {:induction false} CountTrimmedLines(lines: seq<string>)
    ensures |Filter(lines, IsContentLine)| == |Filter(TrimAll(lines), IsFilled)|
  {
    if lines != [] {
      assert TrimAll(lines)[1..] == TrimAll(lines[1..]);
      CountTrimmedLines(lines[1..]);
    }
  }

  /** The count shown beside an input is the length of the column sent
      for it. */
  lemma CountsMatchColumns(inputs: seq<string>)
    ensures forall k :: 0 <= k < |inputs| ==> Counts(inputs)[k] == |ParseColumns(inputs)[k]|
  {
    forall k | 0 <= k < |inputs|
      ensures Count(inputs[k]) == |ParseColumn(inputs[k])|
    {
      CountTrimmedLines(SplitLines(inputs[k]));
    }
  }

  // The client's column check

  /** An input checked by `handleSubmit`: its index and the name the
      message uses. */
  datatype Slot = Slot(idx: nat, name: string)

  const RequiredSlots: seq<Slot> := [Slot(1, "P/N"), Slot(2, "QTY"), Slot(3, "MPN")]
  const OptionalSlots: seq<Slot> := [Slot(4, "Maker"), Slot(5, "4L")]

  const BoxIdMissingMessage: string := "请至少填写 BOX ID。"
  const RequiredPrefix: string := "必填列行数需与 BOX ID 一致："
  const OptionalPrefix: string := "可选列若填写需与 BOX ID 行数一致："
  const MismatchFallback: string := "行数不一致，请检查输入"

  function Indices(slots: seq<Slot>): (r: seq<nat>)
    ensures |r| == |slots| && forall k :: 0 <= k < |slots| ==> r[k] == slots[k].idx
  {
    seq(|slots|, k requires 0 <= k < |slots| => slots[k].idx)
  }

  function Names(slots: seq<Slot>): (r: seq<string>)
    ensures |r| == |slots| && forall k :: 0 <= k < |slots| ==> r[k] == slots[k].name
  {
    seq(|slots|, k requires 0 <= k < |slots| => slots[k].name)
  }

  /** What the check decides: go on to the request, or stop with the
      inputs to mark and the message to show. */
  datatype Check = Proceed | Reject(invalid: seq<nat>, message: string)

  /** A required input whose column length differs from the BOX ID count. */
  predicate RequiredBad(columns: seq<seq<string>>, s: Slot)
  {
    |Column(columns, s.idx)| != |Column(columns, 0)|
  }

  /** An optional input that is filled and of another length. */
  predicate OptionalBad(columns: seq<seq<string>>, s: Slot)
  {
    |Column(columns, s.idx)| != 0 && |Column(columns, s.idx)| != |Column(columns, 0)|
  }

  /** The offending required inputs, in order. */
  function InvalidRequired(columns: seq<seq<string>>): seq<Slot>
  {
    Filter(RequiredSlots, s => RequiredBad(columns, s))
  }

  /** The offending optional inputs, in order. */
  function InvalidOptional(columns: seq<seq<string>>): seq<Slot>
  {
    Filter(OptionalSlots, s => OptionalBad(columns, s))
  }

  /** One part of the message: its prefix and the names joined by "、",
      or nothing when no input of that kind is at fault. */
  function MessagePart(prefix: string, bad: seq<Slot>): (part: string)
    requires prefix != ""
    ensures bad == [] <==> part == ""
    ensures bad != [] ==> |prefix| <= |part| && part[..|prefix|] == prefix
  {
    if |bad| > 0 then prefix + Join(Names(bad), NameSeparator) else ""
  }

  const NameSeparator: string := "、"

  /** The names can be read back from a message part: after the prefix,
      splitting at "、" gives the offending names in order. */
  lemma MessagePartNames(prefix: string, bad: seq<Slot>)
    requires prefix != "" && bad != []
    requires forall k :: 0 <= k < |bad| ==> '、' !in bad[k].name
    ensures Split(MessagePart(prefix, bad)[|prefix|..], '、') == Names(bad)
  {
    var part := MessagePart(prefix, bad);
    assert part[|prefix|..] == Join(Names(bad), ['、']);
    SplitJoin(Names(bad), '、');
  }

  /** Two short required columns: both are marked, and the message names
      them in order, joined by "、". */
  lemma TwoShortRequiredMarked()
    ensures CheckColumns([["B1", "B2"], ["P1"], ["5"], ["M1", "M2"]])
            == Reject([1, 2], "必填列行数需与 BOX ID 一致：P/N、QTY")
  {
    var columns := [["B1", "B2"], ["P1"], ["5"], ["M1", "M2"]];
    InvalidRequiredUnfolded(columns);
    InvalidOptionalUnfolded(columns);
    var req := [Slot(1, "P/N"), Slot(2, "QTY")];
    assert InvalidRequired(columns) == req;
    assert InvalidOptional(columns) == [];
    assert Names(req) == ["P/N", "QTY"];
    assert Join(Names(req), NameSeparator) == "P/N、QTY";
    assert Filter([MessagePart(RequiredPrefix, req), ""], IsFilled) == [MessagePart(RequiredPrefix, req)];
  }

  /** The message for inputs at fault: the non-empty parts joined by
      "；", or a general message when both parts are empty. */
  function MismatchMessage(invalidReq: seq<Slot>, invalidOpt: seq<Slot>): (msg: string)
    ensures msg != ""
  {
    var parts := [MessagePart(RequiredPrefix, invalidReq), MessagePart(OptionalPrefix, invalidOpt)];
    var joined := Join(Filter(parts, IsFilled), "；");
    if joined != "" then joined else MismatchFallback
  }

  /** The client's copy of the column check. An empty BOX ID column marks
      input 0 alone; otherwise every offending input is marked and the
      message names them. A rejection always carries a non-empty list and
      a non-empty message. */
  function CheckColumns(columns: seq<seq<string>>): (c: Check)
    ensures c.Reject? ==> c.invalid != [] && c.message != ""
  {
    if |Column(columns, 0)| == 0 then Reject([0], BoxIdMissingMessage)
    else
      var invalidReq := InvalidRequired(columns);
      var invalidOpt := InvalidOptional(columns);
      var invalidIdx := Indices(invalidReq) + Indices(invalidOpt);
      if |invalidIdx| == 0 then Proceed
      else Reject(invalidIdx, MismatchMessage(invalidReq, invalidOpt))
  }

  /** The required inputs at fault, unfolded slot by slot. */
  lemma InvalidRequiredUnfolded(columns: seq<seq<string>>)
    ensures InvalidRequired(columns)
      == (if RequiredBad(columns, Slot(1, "P/N")) then [Slot(1, "P/N")] else [])
       + (if RequiredBad(columns, Slot(2, "QTY")) then [Slot(2, "QTY")] else [])
       + (if RequiredBad(columns, Slot(3, "MPN")) then [Slot(3, "MPN")] else [])
  {
    var req := RequiredSlots;
    assert req[1..][1..][1..] == [];
  }

  /** The optional inputs at fault, unfolded slot by slot. */
  lemma InvalidOptionalUnfolded(columns: seq<seq<string>>)
    ensures InvalidOptional(columns)
      == (if OptionalBad(columns, Slot(4, "Maker")) then [Slot(4, "Maker")] else [])
       + (if OptionalBad(columns, Slot(5, "4L")) then [Slot(5, "4L")] else [])
  {
    var opt := OptionalSlots;
    assert opt[1..][1..] == [];
  }

  /** The indices of a concatenation are the indices of its parts. */
  lemma IndicesAppend(a: seq<Slot>, b: seq<Slot>)
    ensures Indices(a + b) == Indices(a) + Indices(b)
  {
    assert forall k :: 0 <= k < |a| ==> (a + b)[k] == a[k];
    assert forall k :: |a| <= k < |a| + |b| ==> (a + b)[k] == b[k - |a|];
  }

  /** Whether input `k` is at fault once the BOX ID column is filled:
      inputs 1 to 3 when their length differs, 4 and 5 when filled with
      another length. */
  predicate Offending(columns: seq<seq<string>>, k: nat)
  {
    var rowCount := |Column(columns, 0)|;
    || (1 <= k <= 3 && |Column(columns, k)| != rowCount)
    || (4 <= k <= 5 && |Column(columns, k)| != 0 && |Column(columns, k)| != rowCount)
  }

  /** An empty BOX ID column marks exactly input 0, with its own message. */
  lemma EmptyBoxIdMarksOnlyBox(columns: seq<seq<string>>)
    requires |Column(columns, 0)| == 0
    ensures CheckColumns(columns) == Reject([0], "请至少填写 BOX ID。")
  {
  }

  /** An index is among those of a filtered list of slots exactly when
      some slot with that index passes the filter. */
  lemma IndicesOfFilter(xs: seq<Slot>, p: Slot -> bool, k: nat)
    ensures k in Indices(Filter(xs, p)) <==> exists j :: 0 <= j < |xs| && xs[j].idx == k && p(xs[j])
  {
    if k in Indices(Filter(xs, p)) {
      FilteredIndexFrom(xs, p, k);
    }
    if exists j :: 0 <= j < |xs| && xs[j].idx == k && p(xs[j]) {
      var j :| 0 <= j < |xs| && xs[j].idx == k && p(xs[j]);
      KeptIndex(xs, p, j);
    }
  }

  /** An index that survives the filter comes from a slot that passes it. */
  lemma FilteredIndexFrom(xs: seq<Slot>, p: Slot -> bool, k: nat)
    requires k in Indices(Filter(xs, p))
    ensures exists j :: 0 <= j < |xs| && xs[j].idx == k && p(xs[j])
  {
    var i := IndexPosition(Filter(xs, p), k);
    var j := FilterOrigin(xs, p, i);
  }

  /** Where an index sits among the indices of some slots. */
  lemma IndexPosition(slots: seq<Slot>, k: nat) returns (i: nat)
    requires k in Indices(slots)
    ensures i < |slots| && slots[i].idx == k
  {
    i :| 0 <= i < |slots| && Indices(slots)[i] == k;
  }

  /** The index of a slot that passes the filter survives it. */
  lemma KeptIndex(xs: seq<Slot>, p: Slot -> bool, j: nat)
    requires j < |xs| && p(xs[j])
    ensures xs[j].idx in Indices(Filter(xs, p))
  {
    var r := Filter(xs, p);
    var i := FilterKept(xs, p, j);
    assert Indices(r)[i] == xs[j].idx;
  }

  /** Filtering keeps slots in increasing index order. */
  lemma {:induction false} FilterIncreasing(xs: seq<Slot>, p: Slot -> bool)
    requires forall a, b :: 0 <= a < b < |xs| ==> xs[a].idx < xs[b].idx
    ensures forall a, b :: 0 <= a < b < |Filter(xs, p)| ==> Filter(xs, p)[a].idx < Filter(xs, p)[b].idx
  {
    if xs != [] {
      FilterIncreasing(xs[1..], p);
      var rest := Filter(xs[1..], p);
      forall k | 0 <= k < |rest|
        ensures xs[0].idx < rest[k].idx
      {
        var j := FilterOrigin(xs[1..], p, k);
        assert xs[j + 1] == rest[k];
      }
    }
  }

  /** The marked required inputs: exactly those of 1 to 3 at fault, in
      increasing order. */
  lemma RequiredMarks(columns: seq<seq<string>>)
    ensures forall k :: k in Indices(InvalidRequired(columns)) <==> 1 <= k <= 3 && Offending(columns, k)
    ensures var r := Indices(InvalidRequired(columns)); forall a, b :: 0 <= a < b < |r| ==> r[a] < r[b]
  {
    var p := (s: Slot) => RequiredBad(columns, s);
    assert forall j :: 0 <= j < |RequiredSlots| ==> RequiredSlots[j].idx == j + 1;
    forall k
      ensures k in Indices(InvalidRequired(columns)) <==> 1 <= k <= 3 && Offending(columns, k)
    {
      if k >= 0 {
        IndicesOfFilter(RequiredSlots, p, k);
        if 1 <= k <= 3 {
          assert p(RequiredSlots[k - 1]) <==> Offending(columns, k);
        }
      }
    }
    FilterIncreasing(RequiredSlots, p);
  }

  /** The marked optional inputs: exactly those of 4 and 5 at fault, in
      increasing order. */
  lemma OptionalMarks(columns: seq<seq<string>>)
    ensures forall k :: k in Indices(InvalidOptional(columns)) <==> 4 <= k <= 5 && Offending(columns, k)
    ensures var r := Indices(InvalidOptional(columns)); forall a, b :: 0 <= a < b < |r| ==> r[a] < r[b]
  {
    var p := (s: Slot) => OptionalBad(columns, s);
    assert forall j :: 0 <= j < |OptionalSlots| ==> OptionalSlots[j].idx == j + 4;
    forall k
      ensures k in Indices(InvalidOptional(columns)) <==> 4 <= k <= 5 && Offending(columns, k)
    {
      if k >= 0 {
        IndicesOfFilter(OptionalSlots, p, k);
        if 4 <= k <= 5 {
          assert p(OptionalSlots[k - 4]) <==> Offending(columns, k);
        }
      }
    }
    FilterIncreasing(OptionalSlots, p);
  }

  /** The inputs the check marks once the BOX ID column is filled: the
      required ones at fault, then the optional ones. */
  function MarkedInputs(columns: seq<seq<string>>): seq<nat>
  {
    Indices(InvalidRequired(columns)) + Indices(InvalidOptional(columns))
  }

  /** With a filled BOX ID column the check proceeds when nothing is
      marked, and rejects with the marked inputs otherwise. */
  lemma CheckUsesMarkedInputs(columns: seq<seq<string>>)
    requires |Column(columns, 0)| > 0
    ensures CheckColumns(columns).Proceed? <==> MarkedInputs(columns) == []
    ensures CheckColumns(columns).Reject? ==> CheckColumns(columns).invalid == MarkedInputs(columns)
  {
  }

  /** The marked inputs are exactly the inputs at fault, in increasing
      order; input 6 (the description) is never among them. */
  lemma MarkedExactlyOffending(columns: seq<seq<string>>)
    ensures forall k :: k in MarkedInputs(columns) <==> Offending(columns, k)
    ensures var m := MarkedInputs(columns); forall a, b :: 0 <= a < b < |m| ==> m[a] < m[b]
    ensures 6 !in MarkedInputs(columns)
  {
    RequiredMarks(columns);
    OptionalMarks(columns);
    var r := Indices(InvalidRequired(columns));
    var o := Indices(InvalidOptional(columns));
    var m := r + o;
    forall a, b | 0 <= a < b < |m|
      ensures m[a] < m[b]
    {
      if b < |r| {
        assert m[a] == r[a] && m[b] == r[b];
      } else if a >= |r| {
        assert m[a] == o[a - |r|] && m[b] == o[b - |r|];
      } else {
        assert m[a] == r[a] && r[a] in r;
        assert m[b] == o[b - |r|] && o[b - |r|] in o;
      }
    }
  }

  /** With a filled BOX ID column, the check passes exactly when no input
      is at fault, and otherwise marks exactly the inputs at fault, in
      increasing order, never input 6. */
  lemma CheckMarksExactlyOffending(columns: seq<seq<string>>)
    requires |Column(columns, 0)| > 0
    ensures CheckColumns(columns).Proceed? <==> forall k :: 0 <= k <= 6 ==> !Offending(columns, k)
    ensures CheckColumns(columns).Reject? ==>
      && (forall k :: k in CheckColumns(columns).invalid <==> Offending(columns, k))
      && (forall a, b :: 0 <= a < b < |CheckColumns(columns).invalid| ==>
            CheckColumns(columns).invalid[a] < CheckColumns(columns).invalid[b])
      && 6 !in CheckColumns(columns).invalid
  {
    CheckUsesMarkedInputs(columns);
    MarkedExactlyOffending(columns);
    var m := MarkedInputs(columns);
    if m != [] {
      assert m[0] in m;
    }
  }

  /** The message: the required part, then the optional part, each
      present only when an input of its kind is at fault, joined by "；". */
  lemma CheckMessageParts(columns: seq<seq<string>>)
    requires CheckColumns(columns).Reject? && |Column(columns, 0)| > 0
    ensures var req := MessagePart(RequiredPrefix, InvalidRequired(columns));
            var opt := MessagePart(OptionalPrefix, InvalidOptional(columns));
      CheckColumns(columns).message ==
        if req != "" && opt != "" then req + "；" + opt
        else if req != "" then req
        else opt
  {
    var req := MessagePart(RequiredPrefix, InvalidRequired(columns));
    var opt := MessagePart(OptionalPrefix, InvalidOptional(columns));
    var parts := [req, opt];
    assert parts[1..] == [opt];
    if req != "" && opt != "" {
      assert Filter(parts, IsFilled) == [req, opt];
      assert Join([req, opt], "；") == req + "；" + Join([opt], "；");
    } else if req != "" {
      assert Filter(parts, IsFilled) == [req];
    } else {
      assert Filter(parts, IsFilled) == [opt];
    }
  }

  /** The QTY input alone short of rows: input 2 is marked and the
      message names QTY. */
  lemma ShortQtyMarked()
    ensures CheckColumns([["B1", "B2"], ["P1", "P2"], ["5"], ["M1", "M2"]])
            == Reject([2], "必填列行数需与 BOX ID 一致：QTY")
  {
    var columns := [["B1", "B2"], ["P1", "P2"], ["5"], ["M1", "M2"]];
    InvalidRequiredUnfolded(columns);
    InvalidOptionalUnfolded(columns);
    assert InvalidRequired(columns) == [Slot(2, "QTY")];
    assert InvalidOptional(columns) == [];
    assert Names([Slot(2, "QTY")]) == ["QTY"];
    assert Filter([RequiredPrefix + "QTY", ""], IsFilled) == [RequiredPrefix + "QTY"];
  }

  /** The description column is checked only by the server: when every
      other column agrees with the BOX ID column, a description column
      of another, non-zero length passes the client's check and is
      rejected by the route naming "Desc". */
  lemma DescCheckedOnlyByServer(columns: seq<seq<string>>)
    requires |columns| >= 7 && |columns[0]| > 0
    requires forall k :: 1 <= k <= 3 ==> |columns[k]| == |columns[0]|
    requires forall k :: 4 <= k <= 5 ==> |columns[k]| == 0 || |columns[k]| == |columns[0]|
    requires |columns[6]| != 0 && |columns[6]| != |columns[0]|
    ensures CheckColumns(columns) == Proceed
    ensures RenderRoute.ValidateColumns(Some(columns)) == Failure(RenderRoute.OptionalMismatch("Desc"))
  {
    CheckMarksExactlyOffending(columns);
    RenderRoute.FirstOptionalMismatchNamed(columns, 6);
  }

  // onInputChange

  /** The labels of the seven textareas, in order. */
  const LabelHints: seq<string> :=
    ["BOX ID", "P/N", "QTY", "MPN (QVL)", "Maker", "4L", "MITAC P/N description"]

  /** The inputs and the list of inputs marked as invalid. */
  datatype Fields = Fields(texts: seq<string>, invalid: seq<nat>)

  /** `prev.filter(i => i !== index)`. */
  function Unmark(invalid: seq<nat>, index: nat): (r: seq<nat>)
    ensures forall i :: i in r <==> i in invalid && i != index
  {
    var keep := i => i != index;
    forall i {
      FilterMembers(invalid, keep, i);
    }
    Filter(invalid, keep)
  }

  /** Unmarking keeps the order of the other entries: it works part by
      part on a concatenation and leaves a list without `index` alone. */
  lemma UnmarkKeepsOrder(a: seq<nat>, b: seq<nat>, index: nat)
    ensures Unmark(a + b, index) == Unmark(a, index) + Unmark(b, index)
    ensures index !in a ==> Unmark(a, index) == a
  {
    FilterAppend(a, b, i => i != index);
    if index !in a {
      FilterKeepsAll(a, i => i != index);
    }
  }

  /** `onInputChange(index, next)`: input `index` becomes `next`, every
      other input is kept, and `index` is no longer marked. */
  function OnInputChange(f: Fields, index: nat, next: string): (g: Fields)
    requires index < |f.texts|
    ensures |g.texts| == |f.texts| && g.texts[index] == next
    ensures forall k :: 0 <= k < |f.texts| && k != index ==> g.texts[k] == f.texts[k]
    ensures index !in g.invalid
    ensures forall k :: 0 <= k < |f.invalid| && f.invalid[k] != index ==> f.invalid[k] in g.invalid
    ensures g.invalid == Unmark(f.invalid, index)
  {
    Fields(f.texts[index := next], Unmark(f.invalid, index))
  }

  /** What a textarea passes to `onInputChange`: the 4L input upper-cases
      what was typed, every other input passes it on unchanged. */
  function TextareaValue(index: nat, typed: string): string
  {
    if index < |LabelHints| && LabelHints[index] == "4L" then ToUpper(typed) else typed
  }

  /** Only input 5 upper-cases. */
  lemma OnlyFourLUpperCases(index: nat, typed: string)
    ensures index == 5 ==> TextareaValue(index, typed) == ToUpper(typed)
    ensures index != 5 ==> TextareaValue(index, typed) == typed
  {
    var hints := LabelHints;
    assert hints[0] != "4L" && hints[1] != "4L" && hints[2] != "4L" && hints[3] != "4L";
    assert hints[4] != "4L" && hints[6] != "4L";
  }
}
