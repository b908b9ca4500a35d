/** The submit path of app/page.tsx: the streamed answer read chunk by
    chunk into a line buffer, each complete line dispatched as a
    message, the incomplete tail kept for the next chunk and read once
    more at the end, and the form state `handleSubmit` leaves behind.
    The transport is a parameter: the reply the server gives for the
    request, and the chunks of its body as text. `JSON.parse` is a
    parameter as well. */
module StreamClient {
  import opened Basics
  import opened Text
  import opened LabelPage
  import RenderRoute

  type LabelResult = RenderRoute.LabelResult

  /** A line as `JSON.parse` reads it, told apart by its `type` field. */
  datatype Msg =
    | Meta(total: int)
    | ResultMsg(index: int, data: LabelResult)
    | ErrorMsg(error: string)
    | OtherMsg

  /** The parser: a message, or the message of what was thrown while
      reading the line (a syntax error of `JSON.parse`, or a field read
      on a value that is not an object). An absent `error` field reads
      as "". */
  type Parser = string -> Result<Msg, string>

  datatype Progress = Progress(current: int, total: int)

  /** What the stream has shown so far: the results and the progress. */
  datatype View = View(results: seq<LabelResult>, progress: Option<Progress>)

  const EmptyView: View := View([], None)

  /** The inner `catch` rethrows an error whose message is non-empty and
      does not mention JSON; every other error is swallowed. */
  predicate Rethrown(m: string)
  {
    m != "" && !Contains(m, "JSON")
  }

  /** The message a line aborts the stream with, if any: a blank line
      never does, a failed parse or an `error` message does when its
      message is rethrown. */
  function Aborts(parse: Parser, line: string): (a: Option<string>)
    ensures a.Some? ==> Rethrown(a.value)
    ensures !AllSpace(line) && parse(line).Failure? && Rethrown(parse(line).error) ==>
      a == Some(parse(line).error)
    ensures !AllSpace(line) && parse(line).Success? && parse(line).value.ErrorMsg? && Rethrown(parse(line).value.error) ==>
      a == Some(parse(line).value.error)
    ensures a.Some? ==> !AllSpace(line)
    ensures a.Some? ==>
      || (parse(line).Failure? && a.value == parse(line).error)
      || (parse(line).Success? && parse(line).value.ErrorMsg? && a.value == parse(line).value.error)
  {
    if AllSpace(line) then None
    else match parse(line)
      case Failure(m) => if Rethrown(m) then Some(m) else None
      case Success(ErrorMsg(e)) => if Rethrown(e) then Some(e) else None
      case Success(_) => None
  }

  /** One complete line of the stream: skipped when blank; `meta` starts
      the progress at 0; `result` appends its data and moves the progress
      (when there is one) to `index + 1`; an abort ends the stream. */
  function Dispatch(parse: Parser, v: View, line: string): (r: Result<View, string>)
    ensures r.Failure? <==> Aborts(parse, line).Some?
    ensures r.Failure? ==> r.error == Aborts(parse, line).value
    ensures AllSpace(line) ==> r == Success(v)
    ensures r.Success? ==> v.results <= r.value.results && |r.value.results| <= |v.results| + 1
  {
    if AllSpace(line) then Success(v)
    else match parse(line)
      case Failure(m) => if Rethrown(m) then Failure(m) else Success(v)
      case Success(Meta(total)) => Success(View(v.results, Some(Progress(0, total))))
      case Success(ResultMsg(index, data)) =>
        Success(View(v.results + [data],
                     if v.progress.Some? then Some(Progress(index + 1, v.progress.value.total)) else None))
      case Success(ErrorMsg(e)) => if Rethrown(e) then Failure(e) else Success(v)
      case Success(OtherMsg) => Success(v)
  }

  /** The view after a run of lines, and the message that ended it early,
      if one did. */
  datatype Dispatched = Dispatched(view: View, failure: Option<string>)

  /** The lines dispatched in order from `v`, stopping at the first abort. */
  function DispatchAll(parse: Parser, v: View, lines: seq<string>): Dispatched
  {
    if lines == [] then Dispatched(v, None)
    else
      var d := DispatchAll(parse, v, lines[..|lines| - 1]);
      if d.failure.Some? then d
      else match Dispatch(parse, d.view, lines[|lines| - 1])
        case Failure(m) => Dispatched(d.view, Some(m))
        case Success(w) => Dispatched(w, None)
  }

  /** Once a run has aborted, later lines change nothing. */
  lemma {:induction false} DispatchAllStops(parse: Parser, v: View, a: seq<string>, b: seq<string>)
    requires DispatchAll(parse, v, a).failure.Some?
    ensures DispatchAll(parse, v, a + b) == DispatchAll(parse, v, a)
  {
    if b != [] {
      assert (a + b)[..|a + b| - 1] == a + b[..|b| - 1];
      DispatchAllStops(parse, v, a, b[..|b| - 1]);
      assert DispatchAll(parse, v, a + b[..|b| - 1]).failure.Some?;
    } else {
      assert a + b == a;
    }
  }

  /** The data of the `result` lines among `lines`, in order. */
  function ResultData(parse: Parser, lines: seq<string>): seq<LabelResult>
  {
    if lines == [] then []
    else
      var last := lines[|lines| - 1];
      ResultData(parse, lines[..|lines| - 1])
        + (if !AllSpace(last) && parse(last).Success? && parse(last).value.ResultMsg?
           then [parse(last).value.data] else [])
  }

  /** A run that does not abort appends the data of its `result` lines,
      in arrival order, to the results it started with. */
  lemma {:induction false} ResultsInArrivalOrder(parse: Parser, v: View, lines: seq<string>)
    requires DispatchAll(parse, v, lines).failure.None?
    ensures DispatchAll(parse, v, lines).view.results == v.results + ResultData(parse, lines)
  {
    if lines != [] {
      ResultsInArrivalOrder(parse, v, lines[..|lines| - 1]);
    }
  }

  /** A run aborts exactly when one of its lines aborts. */
  lemma {:induction false} AbortsSomewhere(parse: Parser, v: View, lines: seq<string>)
    ensures DispatchAll(parse, v, lines).failure.Some? <==>
      exists k :: 0 <= k < |lines| && Aborts(parse, lines[k]).Some?
  {
    if lines != [] {
      var init := lines[..|lines| - 1];
      AbortsSomewhere(parse, v, init);
      if DispatchAll(parse, v, init).failure.Some? {
        var k :| 0 <= k < |init| && Aborts(parse, init[k]).Some?;
        assert init[k] == lines[k];
      } else if Aborts(parse, lines[|lines| - 1]).Some? {
        assert DispatchAll(parse, v, lines).failure.Some?;
      } else {
        forall k | 0 <= k < |lines|
          ensures Aborts(parse, lines[k]).None?
        {
          if k < |init| {
            assert lines[k] == init[k];
          } else {
            assert k == |lines| - 1;
          }
        }
      }
    }
  }

  /** A run that aborts does so at a line that aborts, with that line's
      message and the view the lines before it left, none of which
      aborted. */
  lemma {:induction false} AbortAtFirstError(parse: Parser, v: View, lines: seq<string>)
    requires DispatchAll(parse, v, lines).failure.Some?
    ensures exists k :: 0 <= k < |lines|
              && Aborts(parse, lines[k]).Some?
              && DispatchAll(parse, v, lines[..k]) == Dispatched(DispatchAll(parse, v, lines).view, None)
              && DispatchAll(parse, v, lines).failure == Aborts(parse, lines[k])
  {
    var init := lines[..|lines| - 1];
    if DispatchAll(parse, v, init).failure.Some? {
      AbortAtFirstError(parse, v, init);
      var k :| 0 <= k < |init| && Aborts(parse, init[k]).Some?
        && DispatchAll(parse, v, init[..k]) == Dispatched(DispatchAll(parse, v, init).view, None)
        && DispatchAll(parse, v, init).failure == Aborts(parse, init[k]);
      assert init[..k] == lines[..k];
      assert init[k] == lines[k];
    } else {
      var k := |lines| - 1;
      assert lines[..k] == init;
      assert DispatchAll(parse, v, lines).view == DispatchAll(parse, v, init).view;
    }
  }

  // The line buffer

  /** The text of complete lines: each line followed by a line feed. */
  function Terminated(lines: seq<string>): string
  {
    if lines == [] then "" else lines[0] + "\n" + Terminated(lines[1..])
  }

  lemma {:induction false} TerminatedAppend(a: seq<string>, b: seq<string>)
    ensures Terminated(a + b) == Terminated(a) + Terminated(b)
  {
    if a != [] {
      assert (a + b)[0] == a[0];
      assert (a + b)[1..] == a[1..] + b;
      TerminatedAppend(a[1..], b);
    } else {
      assert a + b == b;
    }
  }

  /** Every piece of `text.split('\n')` but the last was followed by a line
      feed: the text is those pieces, terminated, then the last piece. */
  lemma {:induction false} TerminatedSplit(s: string)
    ensures var p := Split(s, '\n'); s == Terminated(p[..|p| - 1]) + p[|p| - 1]
    decreases |s|
  {
    if '\n' in s {
      var i := IndexOf(s, '\n');
      var q := Split(s[i + 1..], '\n');
      var p := Split(s, '\n');
      assert p == [s[..i]] + q;
      TerminatedSplit(s[i + 1..]);
      ConsInit(s[..i], q);
      TerminatedCons(s[..i], q[..|q| - 1]);
      AppendAssociative(s[..i] + "\n", Terminated(q[..|q| - 1]), q[|q| - 1]);
      CutAt(s, i);
    }
  }

  /** A sequence is what comes before position `i`, the element there,
      and what comes after. */
  lemma CutAt<T>(s: seq<T>, i: nat)
    requires i < |s|
    ensures s == s[..i] + [s[i]] + s[i + 1..]
  {
  }

  /** `TerminatedSplit` for pieces already named. */
  lemma TerminatedPieces(s: string, pieces: seq<string>)
    requires pieces == Split(s, '\n')
    ensures s == Terminated(pieces[..|pieces| - 1]) + pieces[|pieces| - 1]
  {
    TerminatedSplit(s);
  }

  /** A line in front adds that line and a line feed in front. */
  lemma TerminatedCons(line: string, lines: seq<string>)
    ensures Terminated([line] + lines) == line + "\n" + Terminated(lines)
  {
    assert ([line] + lines)[1..] == lines;
  }

  /** Dropping the last element of a non-empty list with an element in
      front. */
  lemma ConsInit<T>(x: T, q: seq<T>)
    requires |q| >= 1
    ensures ([x] + q)[..|[x] + q| - 1] == [x] + q[..|q| - 1]
    ensures ([x] + q)[|[x] + q| - 1] == q[|q| - 1]
  {
  }

  /** Splitting complete lines followed by more text gives those lines
      back, then the pieces of the rest. */
  lemma {:induction false} SplitTerminated(lines: seq<string>, rest: string)
    requires forall k :: 0 <= k < |lines| ==> '\n' !in lines[k]
    ensures Split(Terminated(lines) + rest, '\n') == lines + Split(rest, '\n')
  {
    if lines == [] {
      assert Terminated(lines) + rest == rest;
      assert lines + Split(rest, '\n') == Split(rest, '\n');
    } else {
      var t := Terminated(lines[1..]) + rest;
      assert forall k :: 0 <= k < |lines[1..]| ==> lines[1..][k] == lines[k + 1];
      SplitTerminated(lines[1..], rest);
      assert Terminated(lines) + rest == lines[0] + ['\n'] + t;
      assert '\n' !in lines[0];
      SplitAfterPiece(lines[0], '\n', t);
      var x := Terminated(lines) + rest;
      assert Split(x, '\n') == Split(lines[0] + ['\n'] + t, '\n');
      assert Split(x, '\n') == [lines[0]] + Split(t, '\n');
      assert Split(x, '\n') == [lines[0]] + (lines[1..] + Split(rest, '\n'));
      AppendAssociative([lines[0]], lines[1..], Split(rest, '\n'));
      assert [lines[0]] + lines[1..] == lines;
    }
  }

  lemma AppendAssociative<T>(a: seq<T>, b: seq<T>, c: seq<T>)
    ensures a + (b + c) == (a + b) + c
  {
  }

  /** The chunks received, as one text. */
  function Concat(chunks: seq<string>): string
  {
    if chunks == [] then "" else Concat(chunks[..|chunks| - 1]) + chunks[|chunks| - 1]
  }

  lemma {:induction false} ConcatAppend(a: seq<string>, b: seq<string>)
    ensures Concat(a + b) == Concat(a) + Concat(b)
  {
    if b != [] {
      assert (a + b)[..|a + b| - 1] == a + b[..|b| - 1];
      assert (a + b)[|a + b| - 1] == b[|b| - 1];
      ConcatAppend(a, b[..|b| - 1]);
    } else {
      assert a + b == a;
    }
  }

  /** After the stream ends, a non-blank tail is parsed once more: only a
      `result` is taken (without moving the progress); anything else,
      errors included, is ignored. */
  function FlushTail(parse: Parser, v: View, tail: string): (w: View)
    ensures w.progress == v.progress && v.results <= w.results && |w.results| <= |v.results| + 1
    ensures AllSpace(tail) ==> w == v
  {
    if AllSpace(tail) then v
    else match parse(tail)
      case Success(ResultMsg(_, data)) => View(v.results + [data], v.progress)
      case _ => v
  }

  /** What reading the whole stream leaves: the text received, cut at
      its line feeds; every piece but the last is a complete line and is
      dispatched in order; if none aborted, the last piece is the tail. */
  function StreamOutcome(parse: Parser, chunks: seq<string>): Dispatched
  {
    PiecesOutcome(parse, Split(Concat(chunks), '\n'))
  }

  /** The outcome of a text already cut into `pieces`. */
  function PiecesOutcome(parse: Parser, pieces: seq<string>): Dispatched
    requires |pieces| >= 1
  {
    var d := DispatchAll(parse, EmptyView, pieces[..|pieces| - 1]);
    if d.failure.Some? then d else Dispatched(FlushTail(parse, d.view, pieces[|pieces| - 1]), None)
  }

  /** A stream that does not abort shows the data of its `result` lines,
      the tail included, in the order they arrived. */
  lemma StreamResults(parse: Parser, pieces: seq<string>)
    requires |pieces| >= 1
    ensures PiecesOutcome(parse, pieces).failure.None? ==>
      PiecesOutcome(parse, pieces).view.results == ResultData(parse, pieces)
  {
    var init := pieces[..|pieces| - 1];
    var last := pieces[|pieces| - 1];
    var d := DispatchAll(parse, EmptyView, init);
    if d.failure.None? {
      ResultsInArrivalOrder(parse, EmptyView, init);
      assert d.view.results == ResultData(parse, init);
      assert PiecesOutcome(parse, pieces).view == FlushTail(parse, d.view, last);
    }
  }

  /** A stream aborts exactly when one of its complete lines aborts; its
      tail never does. */
  lemma StreamAborts(parse: Parser, pieces: seq<string>)
    requires |pieces| >= 1
    ensures PiecesOutcome(parse, pieces).failure.Some? <==>
      exists k :: 0 <= k < |pieces| - 1 && Aborts(parse, pieces[k]).Some?
  {
    var init := pieces[..|pieces| - 1];
    AbortsSomewhere(parse, EmptyView, init);
    assert forall k :: 0 <= k < |init| ==> init[k] == pieces[k];
  }

  /** The loop of `handleSubmit` over the body: each chunk is appended to
      the buffer, the buffer is split at line feeds, every piece but the
      last is dispatched, and the last becomes the buffer; when the body
      ends, the buffer is read once more. The outcome is that of the
      whole text, however it was cut into chunks. */
  method ReadStream(parse: Parser, chunks: seq<string>) returns (view: View, failure: Option<string>)
    ensures Dispatched(view, failure) == StreamOutcome(parse, chunks)
    ensures failure.Some? ==> Rethrown(failure.value)
  {
    var buffer := "";
    ghost var processed: seq<string> := [];
    view := EmptyView;
    failure := None;
    var i := 0;
    while i < |chunks|
      invariant 0 <= i <= |chunks|
      invariant Concat(chunks[..i]) == Terminated(processed) + buffer
      invariant '\n' !in buffer
      invariant forall k :: 0 <= k < |processed| ==> '\n' !in processed[k]
      invariant DispatchAll(parse, EmptyView, processed) == Dispatched(view, None)
    {
      ghost var before := buffer;
      buffer := buffer + chunks[i];
      var lines := Split(buffer, '\n');
      var n := |lines| - 1;
      var stop, j;
      view, stop, j := DispatchLines(parse, view, processed, lines[..n]);
      if stop.Some? {
        failure := stop;
        assert lines[..n][..j + 1] == lines[..j + 1];
        StreamStopsAt(parse, chunks, i, processed, before, lines, j);
        return;
      }
      TerminatedPieces(buffer, lines);
      StreamTextAt(chunks, i, processed, before, lines[..n], lines[n]);
      NoLineFeeds(processed, lines[..n]);
      processed := processed + lines[..n];
      buffer := lines[n];
      i := i + 1;
    }
    assert chunks[..i] == chunks;
    SplitOfText(Concat(chunks), processed, buffer);
    SinglePiece(buffer);
    InitOfAppend(processed, [buffer]);
    view := FlushTail(parse, view, buffer);
  }

  /** The inner loop of `handleSubmit`: the complete `lines` of one
      chunk dispatched in order from the view `v` that the lines `done`
      before them left, stopping at the first that aborts. */
  method DispatchLines(parse: Parser, v: View, ghost done: seq<string>, lines: seq<string>)
    returns (w: View, failure: Option<string>, j: nat)
    requires DispatchAll(parse, EmptyView, done) == Dispatched(v, None)
    ensures failure.None? ==> DispatchAll(parse, EmptyView, done + lines) == Dispatched(w, None)
    ensures failure.Some? ==> j < |lines| && Rethrown(failure.value)
    ensures failure.Some? ==> DispatchAll(parse, EmptyView, done + lines[..j + 1]) == Dispatched(w, failure)
  {
    w := v;
    failure := None;
    j := 0;
    assert done + lines[..0] == done;
    while j < |lines|
      invariant 0 <= j <= |lines|
      invariant DispatchAll(parse, EmptyView, done + lines[..j]) == Dispatched(w, None)
    {
      var step := Dispatch(parse, w, lines[j]);
      SnocSlice(done, lines, j);
      DispatchNext(parse, done + lines[..j], lines[j], w);
      if step.Failure? {
        failure := Some(step.error);
        return;
      }
      w := step.value;
      j := j + 1;
    }
    assert lines[..j] == lines;
  }

  /** One more line after a run that has not aborted. */
  lemma DispatchNext(parse: Parser, a: seq<string>, line: string, v: View)
    requires DispatchAll(parse, EmptyView, a) == Dispatched(v, None)
    ensures Dispatch(parse, v, line).Success? ==>
      DispatchAll(parse, EmptyView, a + [line]) == Dispatched(Dispatch(parse, v, line).value, None)
    ensures Dispatch(parse, v, line).Failure? ==>
      DispatchAll(parse, EmptyView, a + [line]) == Dispatched(v, Some(Dispatch(parse, v, line).error))
  {
    assert (a + [line])[..|a + [line]| - 1] == a;
  }

  /** One more element of `l` taken after `p`. */
  lemma SnocSlice<T>(p: seq<T>, l: seq<T>, j: nat)
    requires j < |l|
    ensures p + l[..j + 1] == (p + l[..j]) + [l[j]]
  {
    assert l[..j + 1] == l[..j] + [l[j]];
  }

  /** The text received up to and including chunk `i`, and the whole
      text, once the buffer before chunk `i` and that chunk have been
      cut into complete lines `done` and a rest `last`. */
  lemma StreamTextAt(chunks: seq<string>, i: nat, processed: seq<string>, before: string,
                     done: seq<string>, last: string)
    requires i < |chunks|
    requires Concat(chunks[..i]) == Terminated(processed) + before
    requires before + chunks[i] == Terminated(done) + last
    ensures Concat(chunks[..i + 1]) == Terminated(processed + done) + last
    ensures Concat(chunks) == Terminated(processed + done) + (last + Concat(chunks[i + 1..]))
  {
    assert chunks[..i + 1] == chunks[..i] + [chunks[i]];
    assert chunks == chunks[..i + 1] + chunks[i + 1..];
    ConcatAppend(chunks[..i + 1], chunks[i + 1..]);
    ConcatAppend(chunks[..i], [chunks[i]]);
    assert Concat([chunks[i]]) == chunks[i];
    TerminatedAppend(processed, done);
    AppendAssociative(Terminated(processed), before, chunks[i]);
    AppendAssociative(Terminated(processed), Terminated(done), last);
    AppendAssociative(Terminated(processed) + Terminated(done), last, Concat(chunks[i + 1..]));
  }

  /** Regrouping the lines up to an aborting line `j` of a chunk. */
  lemma Regroup<T>(p: seq<T>, l: seq<T>, m: seq<T>, j: nat, n: nat)
    requires j < n <= |l|
    ensures (p + l[..n]) + m == (p + l[..j + 1]) + (l[j + 1..n] + m)
  {
  }

  /** No line of a concatenation holds a line feed when neither part's do. */
  lemma NoLineFeeds(a: seq<string>, b: seq<string>)
    requires forall k :: 0 <= k < |a| ==> '\n' !in a[k]
    requires forall k :: 0 <= k < |b| ==> '\n' !in b[k]
    ensures forall k :: 0 <= k < |a + b| ==> '\n' !in (a + b)[k]
  {
    forall k | 0 <= k < |a + b|
      ensures '\n' !in (a + b)[k]
    {
      if k < |a| {
        assert (a + b)[k] == a[k];
      } else {
        assert (a + b)[k] == b[k - |a|];
      }
    }
  }

  /** The step the early return of `ReadStream` relies on: when line `j`
      of chunk `i` aborts, the whole stream aborts there. */
  lemma StreamStopsAt(parse: Parser, chunks: seq<string>, i: nat, processed: seq<string>, before: string,
                      lines: seq<string>, j: nat)
    requires i < |chunks|
    requires Concat(chunks[..i]) == Terminated(processed) + before
    requires forall k :: 0 <= k < |processed| ==> '\n' !in processed[k]
    requires lines == Split(before + chunks[i], '\n')
    requires j < |lines| - 1
    requires DispatchAll(parse, EmptyView, processed + lines[..j + 1]).failure.Some?
    ensures StreamOutcome(parse, chunks) == DispatchAll(parse, EmptyView, processed + lines[..j + 1])
  {
    var later := StreamLinesAt(chunks, i, processed, before, lines, j);
    StoppedOutcome(parse, Split(Concat(chunks), '\n'), processed + lines[..j + 1], later);
  }

  /** The pieces of the whole stream begin with the lines dispatched
      before chunk `i` and the first `j + 1` lines of that chunk. */
  lemma StreamLinesAt(chunks: seq<string>, i: nat, processed: seq<string>, before: string,
                      lines: seq<string>, j: nat) returns (later: seq<string>)
    requires i < |chunks|
    requires Concat(chunks[..i]) == Terminated(processed) + before
    requires forall k :: 0 <= k < |processed| ==> '\n' !in processed[k]
    requires lines == Split(before + chunks[i], '\n')
    requires j < |lines| - 1
    ensures Split(Concat(chunks), '\n') == (processed + lines[..j + 1]) + later && |later| >= 1
  {
    var n := |lines| - 1;
    var rest := Concat(chunks[i + 1..]);
    TerminatedPieces(before + chunks[i], lines);
    StreamTextAt(chunks, i, processed, before, lines[..n], lines[n]);
    NoLineFeeds(processed, lines[..n]);
    SplitOfText(Concat(chunks), processed + lines[..n], lines[n] + rest);
    later := lines[j + 1..n] + Split(lines[n] + rest, '\n');
    Regroup(processed, lines, Split(lines[n] + rest, '\n'), j, n);
  }

  /** The pieces of complete lines followed by more text. */
  lemma SplitOfText(text: string, done: seq<string>, last: string)
    requires text == Terminated(done) + last
    requires forall k :: 0 <= k < |done| ==> '\n' !in done[k]
    ensures Split(text, '\n') == done + Split(last, '\n')
  {
    SplitTerminated(done, last);
  }

  /** A text with no line feed is one piece. */
  lemma SinglePiece(s: string)
    requires '\n' !in s
    ensures Split(s, '\n') == [s]
  {
  }

  /** A stream whose complete lines begin with a run that aborts ends as
      that run does. */
  lemma StoppedOutcome(parse: Parser, pieces: seq<string>, first: seq<string>, later: seq<string>)
    requires pieces == first + later && |later| >= 1
    requires DispatchAll(parse, EmptyView, first).failure.Some?
    ensures PiecesOutcome(parse, pieces) == DispatchAll(parse, EmptyView, first)
  {
    InitOfAppend(first, later);
    DispatchAllStops(parse, EmptyView, first, later[..|later| - 1]);
  }

  /** The last element of `d + q`, and the elements before it. */
  lemma InitOfAppend<T>(d: seq<T>, q: seq<T>)
    requires |q| >= 1
    ensures (d + q)[..|d + q| - 1] == d + q[..|q| - 1]
    ensures (d + q)[|d + q| - 1] == q[|q| - 1]
  {
  }

  // handleSubmit

  /** The request body: the parsed columns and the vendor code. */
  datatype Sent = Sent(columns: seq<seq<string>>, vd: string)

  /** How the server answered: a non-OK status with the JSON payload's
      `error` field ("" when absent) or the message `res.json()` threw;
      an OK answer without a readable body; an OK answer with its body
      as chunks of text; or `fetch` itself throwing. */
  datatype Reply =
    | Refused(payload: Result<string, string>)
    | NoBody
    | Body(chunks: seq<string>)
    | FetchFailed(message: string)

  /** The page's state: the inputs with their marks, the vendor code,
      the error shown, the busy flag, the results and the progress. */
  datatype Form = Form(fields: Fields, vd: string, error: string, loading: bool,
                       results: seq<LabelResult>, progress: Option<Progress>)

  const SubmitFailed: string := "生成失败"
  const NoStream: string := "无法读取流式响应"
  const SubmitFallback: string := "生成失败，请稍后重试"

  /** `err?.message || '生成失败，请稍后重试'`. */
  function ShownError(m: string): (e: string)
    ensures e != "" && (m != "" ==> e == m)
    ensures m == "" ==> e == SubmitFallback
  {
    if m != "" then m else SubmitFallback
  }

  /** `handleSubmit`: the inputs are parsed and checked; a failed check
      marks its inputs and shows its message without any request; a
      passed check sends the columns and the vendor code, and the reply
      decides the error shown and the results kept. Loading and progress
      are cleared at the end whatever happened. */
  method HandleSubmit(f: Form, server: Sent -> Reply, parse: Parser) returns (g: Form, sent: Option<Sent>)
    ensures g.fields.texts == f.fields.texts && g.vd == f.vd && !g.loading && g.progress.None?
    ensures CheckColumns(ParseColumns(f.fields.texts)).Reject? ==>
      && sent.None?
      && g.fields.invalid == CheckColumns(ParseColumns(f.fields.texts)).invalid
      && g.error == CheckColumns(ParseColumns(f.fields.texts)).message
      && g.results == []
    ensures CheckColumns(ParseColumns(f.fields.texts)).Proceed? ==>
      && sent == Some(Sent(ParseColumns(f.fields.texts), f.vd))
      && g.fields.invalid == []
    ensures sent.Some? && server(sent.value).Body? ==>
      var d := StreamOutcome(parse, server(sent.value).chunks);
      && g.results == d.view.results
      && g.error == (if d.failure.Some? then d.failure.value else "")
    ensures sent.Some? && server(sent.value).NoBody? ==> g.error == NoStream && g.results == []
    ensures sent.Some? && server(sent.value).Refused? ==> g.error != "" && g.results == []
    ensures sent.Some? && server(sent.value).Refused? && server(sent.value).payload.Success? ==>
      g.error == if server(sent.value).payload.value != "" then server(sent.value).payload.value else SubmitFailed
    ensures sent.Some? && server(sent.value).Refused? && server(sent.value).payload.Failure? ==>
      g.error == ShownError(server(sent.value).payload.error)
    ensures sent.Some? && server(sent.value).FetchFailed? ==> g.error != "" && g.results == []
    ensures sent.Some? && server(sent.value).FetchFailed? ==> g.error == ShownError(server(sent.value).message)
    ensures g.error == "" <==>
      sent.Some? && server(sent.value).Body? && StreamOutcome(parse, server(sent.value).chunks).failure.None?
  {
    g := Form(Fields(f.fields.texts, []), f.vd, "", true, [], None);
    sent := None;
    var columns := ParseColumns(f.fields.texts);
    var check := CheckColumns(columns);
    if check.Reject? {
      g := Form(Fields(f.fields.texts, check.invalid), f.vd, check.message, false, [], None);
      return;
    }
    sent := Some(Sent(columns, f.vd));
    var reply := server(sent.value);
    match reply {
      case FetchFailed(m) =>
        g := g.(error := ShownError(m));
      case Refused(payload) =>
        var m := match payload
          case Success(e) => if e != "" then e else SubmitFailed
          case Failure(thrown) => thrown;
        g := g.(error := ShownError(m));
      case NoBody =>
        g := g.(error := NoStream);
      case Body(chunks) =>
        var view, failure := ReadStream(parse, chunks);
        g := g.(results := view.results, progress := view.progress);
        if failure.Some? {
          g := g.(error := ShownError(failure.value));
        }
    }
    g := g.(loading := false, progress := None);
  }
}
