/** The interactive loop and the line-recording reader of the scenario runner. */
module Repl {
  import opened Wrappers
  import opened Convert
  import opened Seqs

  // ---------------------------------------------------------------------
  // Lines
  // ---------------------------------------------------------------------

  /** The position of the first `c` in `s`. */
  function IndexOf(s: string, c: char): (i: nat)
    requires c in s
    ensures i < |s| && s[i] == c && c !in s[..i]
  {
    IndexFrom(s, c, 0)
  }

  /** The position of the first `c` in `s` at or after `k`. */
  function IndexFrom(s: string, c: char, k: nat): (i: nat)
    requires k <= |s| && c in s[k..]
    ensures k <= i < |s| && s[i] == c
    ensures forall j :: k <= j < i ==> s[j] != c
    decreases |s| - k
  {
    if s[k] == c then k else IndexFrom(s, c, k + 1)
  }

  /** strings.Split(s, "\n"): the pieces between newlines; always at least one. */
  function Split(s: string): (r: seq<string>)
    ensures |r| >= 1
    decreases |s|
  {
    if '\n' !in s then [s]
    else
      var i := IndexOf(s, '\n');
      [s[..i]] + Split(s[i + 1..])
  }

  /** No piece of a split holds a newline. */
  lemma {:induction false} SplitPieces(s: string)
    ensures forall j :: 0 <= j < |Split(s)| ==> '\n' !in Split(s)[j]
    decreases |s|
  {
    if '\n' in s {
      var i := IndexOf(s, '\n');
      SplitPieces(s[i + 1..]);
    }
  }

  /** strings.Join(parts, "\n"). */
  function JoinLines(parts: seq<string>): string
    decreases |parts|
  {
    if parts == [] then ""
    else if |parts| == 1 then parts[0]
    else parts[0] + "\n" + JoinLines(parts[1..])
  }

  /** A text with a newline splits at its first newline. */
  lemma SplitAtFirst(s: string)
    requires '\n' in s
    ensures Split(s) == [s[..IndexOf(s, '\n')]] + Split(s[IndexOf(s, '\n') + 1..])
  {
  }

  lemma JoinCons(p: string, rest: seq<string>)
    requires |rest| >= 1
    ensures JoinLines([p] + rest) == p + "\n" + JoinLines(rest)
  {
    assert ([p] + rest)[1..] == rest;
  }

  lemma {:induction false} JoinSnoc(parts: seq<string>, x: string)
    requires |parts| >= 1
    ensures JoinLines(parts + [x]) == JoinLines(parts) + "\n" + x
    decreases |parts|
  {
    if |parts| == 1 {
      JoinCons(parts[0], [x]);
    } else {
      var rest := parts[1..];
      JoinSnoc(rest, x);
      assert parts + [x] == [parts[0]] + (rest + [x]);
      JoinCons(parts[0], rest + [x]);
      JoinCons(parts[0], rest);
      assert parts == [parts[0]] + rest;
    }
  }

  /** Splitting and joining again gives the original text. */
  lemma {:induction false} SplitThenJoin(s: string)
    ensures JoinLines(Split(s)) == s
    decreases |s|
  {
    if '\n' in s {
      var i := IndexOf(s, '\n');
      var rest := s[i + 1..];
      SplitThenJoin(rest);
      SplitAtFirst(s);
      JoinCons(s[..i], Split(rest));
      Around(s, i);
    }
  }

  /** Joining pieces free of newlines and splitting again gives the pieces. */
  lemma {:induction false} JoinThenSplit(parts: seq<string>)
    requires |parts| >= 1
    requires forall j :: 0 <= j < |parts| ==> '\n' !in parts[j]
    ensures Split(JoinLines(parts)) == parts
    decreases |parts|
  {
    if |parts| > 1 {
      var rest := parts[1..];
      var p := parts[0];
      assert parts == [p] + rest;
      JoinThenSplit(rest);
      var s := JoinLines(parts);
      JoinCons(p, rest);
      assert s[|p|] == '\n' && s[..|p|] == p;
      FirstIndex(s, '\n', |p|);
      assert s[|p| + 1..] == JoinLines(rest);
      SplitAtFirst(s);
    } else {
      assert '\n' !in parts[0];
    }
  }

  /** The first occurrence is the one with none before it. */
  lemma FirstIndex(s: string, c: char, i: nat)
    requires i < |s| && s[i] == c && c !in s[..i]
    ensures IndexOf(s, c) == i
  {
  }

  /** The growth of a split: extending the text only extends its last piece
      and adds new ones. */
  lemma {:induction false} SplitAppend(s: string, d: string)
    ensures Split(s + d) == Split(s)[..|Split(s)| - 1] + Split(Split(s)[|Split(s)| - 1] + d)
    decreases |s|
  {
    if '\n' in s {
      var i := IndexOf(s, '\n');
      var rest := s[i + 1..];
      SplitAppend(rest, d);
      SplitPastFirst(s, d, i);
      var r := Split(rest);
      assert Split(s) == [s[..i]] + r;
      SnocShift(s[..i], r, Split(r[|r| - 1] + d));
    } else {
      assert Split(s) == [s];
    }
  }

  lemma SnocShift<T>(h: T, r: seq<T>, u: seq<T>)
    requires |r| >= 1
    ensures ([h] + r)[|[h] + r| - 1] == r[|r| - 1]
    ensures ([h] + r)[..|[h] + r| - 1] + u == [h] + (r[..|r| - 1] + u)
  {
    assert ([h] + r)[..|[h] + r| - 1] == [h] + r[..|r| - 1];
  }

  /** Text appended after the first newline does not touch the first piece. */
  lemma SplitPastFirst(s: string, d: string, i: nat)
    requires '\n' in s && i == IndexOf(s, '\n')
    ensures Split(s + d) == [s[..i]] + Split(s[i + 1..] + d)
  {
    assert (s + d)[i] == '\n' && (s + d)[..i] == s[..i];
    FirstIndex(s + d, '\n', i);
    assert (s + d)[i + 1..] == s[i + 1..] + d;
  }

  // ---------------------------------------------------------------------
  // SourceRecordReader
  // ---------------------------------------------------------------------

  datatype ReadError = EndOfFile | ReadFailed(message: string)

  /** The reader's own fields: the partial last line and whether the end was seen. */
  datatype ReaderState = ReaderState(buf: string, finished: bool)

  /** What one Read does to the reader's fields and what it hands to
      RecordStdin, given the upstream's chunk and error. */
  function ReadStep(st: ReaderState, chunk: string, upErr: Option<ReadError>): (r: (ReaderState, Option<seq<string>>))
    ensures r.1.Some? <==> upErr.None? || (upErr == Some(EndOfFile) && !st.finished)
    ensures r.0.finished <==> st.finished || upErr == Some(EndOfFile)
    ensures r.1.None? ==> r.0 == st
  {
    if upErr.None? then
      var xs := Split(st.buf + chunk);
      (ReaderState(xs[|xs| - 1], st.finished), Some(xs[..|xs| - 1]))
    else if upErr == Some(EndOfFile) && !st.finished then
      (ReaderState(st.buf, true), Some(if st.buf == "" then [] else [st.buf]))
    else
      (st, None)
  }

  /** The lines a reader still owes: its buffer, unless the end flushed it. */
  function Pending(st: ReaderState): seq<string> {
    if st.finished && st.buf != "" then [] else [st.buf]
  }

  /** Data read without error is split at every newline: complete lines are
      recorded and the rest is kept, with no newline left in either. */
  lemma ReadDataSplits(st: ReaderState, chunk: string)
    ensures ReadStep(st, chunk, None).1.Some?
    ensures ReadStep(st, chunk, None).1.value + [ReadStep(st, chunk, None).0.buf] == Split(st.buf + chunk)
    ensures '\n' !in ReadStep(st, chunk, None).0.buf
    ensures forall l :: l in ReadStep(st, chunk, None).1.value ==> '\n' !in l
    ensures ReadStep(st, chunk, None).0.finished == st.finished
  {
    var xs := Split(st.buf + chunk);
    SplitPieces(st.buf + chunk);
    assert xs == xs[..|xs| - 1] + [xs[|xs| - 1]];
  }

  /** The first end of file flushes a non-empty buffer as one line, records
      nothing for an empty one, and marks the reader finished. */
  lemma FirstEndOfFileFlushes(buf: string, chunk: string)
    ensures ReadStep(ReaderState(buf, false), chunk, Some(EndOfFile)).0.finished
    ensures ReadStep(ReaderState(buf, false), chunk, Some(EndOfFile)).1 == Some(if buf == "" then [] else [buf])
  {
  }

  /** Any later end of file, and any other error, records nothing and
      changes nothing, whatever bytes came with it. */
  lemma LaterErrorsRecordNothing(st: ReaderState, chunk: string, e: ReadError)
    requires st.finished || e != EndOfFile
    ensures ReadStep(st, chunk, Some(e)) == (st, None)
  {
  }

  /** One upstream Read: the bytes delivered and the error returned. */
  datatype Delivery = Delivery(chunk: string, err: Option<ReadError>)

  /** A sequence of Reads from a fresh reader: the final fields and every
      line recorded, in order. */
  function Feed(ds: seq<Delivery>): (r: (ReaderState, seq<string>))
    ensures r.0.finished <==> exists i :: 0 <= i < |ds| && ds[i].err == Some(EndOfFile)
    decreases |ds|
  {
    if ds == [] then (ReaderState("", false), [])
    else
      var prev := Feed(ds[..|ds| - 1]);
      var d := ds[|ds| - 1];
      var next := ReadStep(prev.0, d.chunk, d.err);
      (next.0, prev.1 + (if next.1.Some? then next.1.value else []))
  }

  /** The data delivered without error, in order. */
  function Delivered(ds: seq<Delivery>): string
    decreases |ds|
  {
    if ds == [] then ""
    else Delivered(ds[..|ds| - 1]) + (if ds[|ds| - 1].err.None? then ds[|ds| - 1].chunk else "")
  }

  /** No data arrives after an end of file. */
  predicate NoDataAfterEnd(ds: seq<Delivery>) {
    forall i, j :: 0 <= i < j < |ds| && ds[i].err == Some(EndOfFile) ==> ds[j].err.Some?
  }

  /** The reconstruction invariant over a whole stream: the recorded lines,
      followed by what is still pending, are the split of all data read. */
  lemma {:induction false} FeedReconstructs(ds: seq<Delivery>)
    requires NoDataAfterEnd(ds)
    ensures Split(Delivered(ds)) == Feed(ds).1 + Pending(Feed(ds).0)
    ensures Feed(ds).0.finished ==> exists i :: 0 <= i < |ds| && ds[i].err == Some(EndOfFile)
    decreases |ds|
  {
    if ds != [] {
      var init := ds[..|ds| - 1];
      var d := ds[|ds| - 1];
      assert NoDataAfterEnd(init);
      FeedReconstructs(init);
      var prev := Feed(init);
      if d.err.None? {
        assert !prev.0.finished;
        ReadStepReconstructs(Delivered(init), prev.1, prev.0, d.chunk);
      } else if d.err == Some(EndOfFile) && !prev.0.finished {
        assert Delivered(ds) == Delivered(init);
      } else {
        assert Delivered(ds) == Delivered(init);
      }
    }
  }

  /** Reading data before the end extends the split of everything read. */
  lemma ReadStepReconstructs(consumed: string, lines: seq<string>, st: ReaderState, chunk: string)
    requires !st.finished
    requires Split(consumed) == lines + [st.buf]
    ensures Split(consumed + chunk) == lines + ReadStep(st, chunk, None).1.value + [ReadStep(st, chunk, None).0.buf]
  {
    SplitAppend(consumed, chunk);
    var r := Split(consumed);
    assert r[..|r| - 1] == lines && r[|r| - 1] == st.buf by {
      assert r == lines + [st.buf];
    }
    ReadDataSplits(st, chunk);
    var (st', recorded) := ReadStep(st, chunk, None);
    assert Split(consumed + chunk) == lines + (recorded.value + [st'.buf]);
    Regroup(lines, recorded.value, [st'.buf]);
  }

  /** Wraps an upstream reader and records every complete line that passes
      through it; the partial last line waits in `buf`. */
  class SourceRecordReader {
    var buf: string
    var finished: bool

    function State(): ReaderState
      reads this
    {
      ReaderState(buf, finished)
    }

    constructor()
      ensures buf == "" && !finished
    {
      buf := "";
      finished := false;
    }

    /** Read, given what the upstream Read delivered (`chunk`, the first n
        bytes of the buffer) and the error it returned, which Read returns
        unchanged. `recorded` is the batch handed to RecordStdin, if any. */
    method Read(chunk: string, upErr: Option<ReadError>) returns (n: nat, err: Option<ReadError>, recorded: Option<seq<string>>)
      modifies this
      ensures n == |chunk| && err == upErr
      ensures (State(), recorded) == ReadStep(old(State()), chunk, upErr)
    {
      n, err := |chunk|, upErr;
      recorded := None;
      if upErr.None? {
        var xs := Split(buf + chunk);
        recorded := Some(xs[..|xs| - 1]);
        buf := xs[|xs| - 1];
      } else if upErr == Some(EndOfFile) && !finished {
        if |buf| == 0 {
          recorded := Some([]);
        } else {
          recorded := Some([buf]);
        }
        finished := true;
      }
    }
  }

  // ---------------------------------------------------------------------
  // DoREPL
  // ---------------------------------------------------------------------

  /** The REPL's code accumulation: a line starts the code or continues it. */
  function Accumulate(code: string, line: string): (r: string)
    ensures code == "" ==> r == line
    ensures code != "" ==> r == JoinLines([code, line])
  {
    if code == "" then line else code + "\n" + line
  }

  /** Lines accumulated one after the other. */
  function AccumulateAll(lines: seq<string>): string
    decreases |lines|
  {
    if lines == [] then "" else Accumulate(AccumulateAll(lines[..|lines| - 1]), lines[|lines| - 1])
  }

  /** Accumulating lines one after the other, starting from a non-empty
      line, joins them with newlines. */
  lemma {:induction false} AccumulateIsJoin(lines: seq<string>)
    requires |lines| >= 1 && lines[0] != ""
    ensures AccumulateAll(lines) == JoinLines(lines)
    decreases |lines|
  {
    if |lines| == 1 {
      assert lines[..0] == [];
    } else {
      var init := lines[..|lines| - 1];
      var last := lines[|lines| - 1];
      AccumulateIsJoin(init);
      JoinNonEmpty(init);
      assert AccumulateAll(lines) == JoinLines(init) + "\n" + last;
      JoinSnoc(init, last);
      assert init + [last] == lines;
    }
  }

  /** Accumulated input is recorded line by line: when the first line is not
      empty and no line holds a newline, splitting the code gives the lines. */
  lemma AccumulatedLines(lines: seq<string>)
    requires |lines| >= 1 && lines[0] != ""
    requires forall j :: 0 <= j < |lines| ==> '\n' !in lines[j]
    ensures AccumulateAll(lines) == JoinLines(lines)
    ensures Split(AccumulateAll(lines)) == lines
  {
    AccumulateIsJoin(lines);
    JoinThenSplit(lines);
  }

  lemma {:induction false} JoinNonEmpty(parts: seq<string>)
    requires |parts| >= 1 && parts[0] != ""
    ensures JoinLines(parts) != ""
    decreases |parts|
  {
    if |parts| > 1 {
      JoinCons(parts[0], parts[1..]);
      assert parts == [parts[0]] + parts[1..];
    }
  }

  datatype ReadlineEvent = Line(text: string) | Eof | Interrupt | ReadlineFailure(message: string)

  /** The result of compiling a chunk: a function, or an error that says
      whether the input merely ended too early. */
  datatype LoadResult = Loaded | LoadFailed(incomplete: bool, message: string)

  /** What running a chunk left: the values on the stack and the error, if any. */
  datatype EvalResult = EvalResult(values: seq<LValue>, failure: Option<string>)

  datatype Action =
    | Prompt(text: string)
    | KeyboardInterrupt
    | LogError(message: string)
    | RecordStdin(lines: seq<string>)
    | ExitHint
    | PrintValues(values: seq<LValue>)

  /** What one turn leaves: the next code and history of run chunks, or the
      end of the session with its result. */
  datatype Turn =
    | Next(code: string, history: seq<string>, actions: seq<Action>)
    | Stop(err: Option<string>, actions: seq<Action>)

  predicate IsExitWord(code: string) {
    code == "exit" || code == "quit" || code == "bye"
  }

  /** The output after running `code`: the hint for a bare exit word that
      produced a single nil, else the values, if there are any. */
  function Report(code: string, values: seq<LValue>): (out: seq<Action>)
    ensures out == [ExitHint] <==> IsExitWord(code) && values == [LNil]
    ensures out == [] <==> values == []
    ensures |out| <= 1
  {
    if IsExitWord(code) && |values| == 1 && values[0].LNil? then [ExitHint]
    else if |values| > 0 then [PrintValues(values)]
    else []
  }

  /** A complete chunk is compiled first as an expression, then as a statement. */
  function Evaluate(code: string, history: seq<string>, load: string -> LoadResult,
                    eval: (seq<string>, string) -> EvalResult): (t: Turn)
    ensures t.Next?
  {
    var chunk := if load("return " + code).Loaded? then "return " + code else code;
    var second := load(code);
    if load("return " + code).LoadFailed? && second.LoadFailed? then
      if second.incomplete then Next(code, history, [])
      else Next("", history, [LogError(second.message)])
    else
      var r := eval(history, chunk);
      Next("", history + [chunk],
           [RecordStdin(Split(code))]
           + (if r.failure.Some? then [LogError(r.failure.value)] else [])
           + Report(code, r.values))
  }

  /** One turn of the loop for the event readline returned. */
  function Step(code: string, history: seq<string>, ev: ReadlineEvent,
                load: string -> LoadResult, eval: (seq<string>, string) -> EvalResult): Turn
  {
    var prompt := Prompt(if code == "" then "> " else ">> ");
    match ev
    case Eof => Stop(None, [prompt])
    case ReadlineFailure(m) => Stop(Some(m), [prompt])
    case Interrupt => Next("", history, [prompt, KeyboardInterrupt])
    case Line(l) =>
      var t := Evaluate(Accumulate(code, l), history, load, eval);
      Next(t.code, t.history, [prompt] + t.actions)
  }

  /** The whole session over the events readline returns; input past the
      last event reads as end of file. */
  function ReplRun(code: string, history: seq<string>, events: seq<ReadlineEvent>,
                   load: string -> LoadResult, eval: (seq<string>, string) -> EvalResult): (r: (Option<string>, seq<Action>))
    decreases |events|
  {
    var t := Step(code, history, if events == [] then Eof else events[0], load, eval);
    match t
    case Stop(err, actions) => (err, actions)
    case Next(c, h, actions) =>
      if events == [] then (None, actions)
      else
        var rest := ReplRun(c, h, events[1..], load, eval);
        (rest.0, actions + rest.1)
  }

  /** DoREPL's loop, with readline's events and the interpreter's Load and
      PCall as parameters. */
  method DoRepl(events: seq<ReadlineEvent>, load: string -> LoadResult,
                eval: (seq<string>, string) -> EvalResult) returns (err: Option<string>, log: seq<Action>)
    ensures (err, log) == ReplRun("", [], events, load, eval)
  {
    var code := "";
    var history: seq<string> := [];
    var k := 0;
    log := [];
    assert events[0..] == events;
    assert log + ReplRun(code, history, events, load, eval).1 == ReplRun(code, history, events, load, eval).1;
    while true
      invariant 0 <= k <= |events|
      invariant ReplRun("", [], events, load, eval)
                == (ReplRun(code, history, events[k..], load, eval).0,
                    log + ReplRun(code, history, events[k..], load, eval).1)
      decreases |events| - k
    {
      var ev := if k < |events| then events[k] else Eof;
      ghost var before, code0, history0 := log, code, history;
      ghost var turn := Step(code, history, ev, load, eval);
      var prompt := Prompt(if code == "" then "> " else ">> ");
      if ev.Eof? {
        log := log + [prompt];
        ReplRunStops(code, history, events[k..], load, eval);
        return None, log;
      } else if ev.ReadlineFailure? {
        log := log + [prompt];
        ReplRunStops(code, history, events[k..], load, eval);
        return Some(ev.message), log;
      } else if ev.Interrupt? {
        log := log + [prompt, KeyboardInterrupt];
        code := "";
      } else {
        var actions;
        code, history, actions := RunLine(code, history, ev.text, load, eval);
        log := log + [prompt] + actions;
      }
      assert turn.Next? && turn.code == code && turn.history == history && log == before + turn.actions;
      LogAfterTurn(events, k, code0, history0, before, load, eval);
      k := k + 1;
    }
  }

  /** The loop invariant of DoREPL carries over a turn that does not stop. */
  lemma LogAfterTurn(events: seq<ReadlineEvent>, k: nat, code: string, history: seq<string>,
                     before: seq<Action>, load: string -> LoadResult, eval: (seq<string>, string) -> EvalResult)
    requires k < |events|
    requires Step(code, history, events[k], load, eval).Next?
    requires ReplRun("", [], events, load, eval)
             == (ReplRun(code, history, events[k..], load, eval).0,
                 before + ReplRun(code, history, events[k..], load, eval).1)
    ensures
      var t := Step(code, history, events[k], load, eval);
      ReplRun("", [], events, load, eval)
      == (ReplRun(t.code, t.history, events[k + 1..], load, eval).0,
          (before + t.actions) + ReplRun(t.code, t.history, events[k + 1..], load, eval).1)
  {
    var t := Step(code, history, events[k], load, eval);
    assert events[k..][0] == events[k];
    ReplRunContinues(code, history, events[k..], load, eval);
    assert events[k..][1..] == events[k + 1..];
    Regroup(before, t.actions, ReplRun(t.code, t.history, events[k + 1..], load, eval).1);
  }

  /** The body of DoREPL's loop after readline returned a line: accumulate
      it, compile the code as an expression or else as a statement, and run
      it, or keep it when it is incomplete. */
  method RunLine(code: string, history: seq<string>, line: string, load: string -> LoadResult,
                 eval: (seq<string>, string) -> EvalResult)
    returns (newCode: string, newHistory: seq<string>, actions: seq<Action>)
    ensures Next(newCode, newHistory, actions) == Evaluate(Accumulate(code, line), history, load, eval)
  {
    newCode, newHistory, actions := code, history, [];
    if newCode == "" {
      newCode := line;
    } else {
      newCode := newCode + "\n" + line;
    }
    assert newCode == Accumulate(code, line);
    var chunk: string;
    var loaded := false;
    if load("return " + newCode).Loaded? {
      chunk, loaded := "return " + newCode, true;
    } else {
      var second := load(newCode);
      if second.Loaded? {
        chunk, loaded := newCode, true;
      } else if !second.incomplete {
        actions := actions + [LogError(second.message)];
        newCode := "";
      }
    }
    if loaded {
      var r := eval(newHistory, chunk);
      var failure: seq<Action> := [];
      if r.failure.Some? {
        failure := [LogError(r.failure.value)];
      }
      var report: seq<Action> := [];
      if IsExitWord(newCode) && |r.values| == 1 && r.values[0].LNil? {
        report := [ExitHint];
      } else if |r.values| > 0 {
        report := [PrintValues(r.values)];
      }
      assert report == Report(newCode, r.values);
      actions := [RecordStdin(Split(newCode))] + failure + report;
      newHistory := newHistory + [chunk];
      newCode := "";
    }
  }

  /** Every turn starts by showing the prompt; only the end of input and a
      readline failure stop the loop, and only the failure is an error. */
  lemma StepShape(code: string, history: seq<string>, ev: ReadlineEvent,
                  load: string -> LoadResult, eval: (seq<string>, string) -> EvalResult)
    ensures var t := Step(code, history, ev, load, eval);
      |t.actions| >= 1 && t.actions[0] == Prompt(if code == "" then "> " else ">> ")
    ensures Step(code, history, ev, load, eval).Stop? <==> ev.Eof? || ev.ReadlineFailure?
    ensures Step(code, history, ev, load, eval).Stop? ==>
              Step(code, history, ev, load, eval).err == (if ev.ReadlineFailure? then Some(ev.message) else None)
  {
  }

  /** A session's output starts with the first prompt, and the session ends
      with an error only when readline failed with it. */
  lemma {:induction false} ReplRunShape(code: string, history: seq<string>, events: seq<ReadlineEvent>,
                                        load: string -> LoadResult, eval: (seq<string>, string) -> EvalResult)
    ensures var out := ReplRun(code, history, events, load, eval).1;
      |out| >= 1 && out[0] == Prompt(if code == "" then "> " else ">> ")
    ensures ReplRun(code, history, events, load, eval).0.Some? ==>
              exists i :: 0 <= i < |events| && events[i] == ReadlineFailure(ReplRun(code, history, events, load, eval).0.value)
    decreases |events|
  {
    var t := Step(code, history, if events == [] then Eof else events[0], load, eval);
    StepShape(code, history, if events == [] then Eof else events[0], load, eval);
    if t.Next? && events != [] {
      ReplRunShape(t.code, t.history, events[1..], load, eval);
      var r := ReplRun(code, history, events, load, eval);
      if r.0.Some? {
        var i :| 0 <= i < |events[1..]| && events[1..][i] == ReadlineFailure(r.0.value);
        assert events[i + 1] == ReadlineFailure(r.0.value);
      }
    }
  }

  /** A session that stops at its first event. */
  lemma ReplRunStops(code: string, history: seq<string>, events: seq<ReadlineEvent>,
                     load: string -> LoadResult, eval: (seq<string>, string) -> EvalResult)
    requires Step(code, history, if events == [] then Eof else events[0], load, eval).Stop?
    ensures ReplRun(code, history, events, load, eval)
            == (Step(code, history, if events == [] then Eof else events[0], load, eval).err,
                Step(code, history, if events == [] then Eof else events[0], load, eval).actions)
  {
  }

  /** A session that goes on after its first event. */
  lemma ReplRunContinues(code: string, history: seq<string>, events: seq<ReadlineEvent>,
                         load: string -> LoadResult, eval: (seq<string>, string) -> EvalResult)
    requires events != []
    requires Step(code, history, events[0], load, eval).Next?
    ensures
      var t := Step(code, history, events[0], load, eval);
      ReplRun(code, history, events, load, eval)
      == (ReplRun(t.code, t.history, events[1..], load, eval).0,
          t.actions + ReplRun(t.code, t.history, events[1..], load, eval).1)
  {
  }

  // ---------------------------------------------------------------------
  // Properties of a turn
  // ---------------------------------------------------------------------

  /** An interrupt discards the pending code. */
  lemma InterruptResets(code: string, history: seq<string>,
                        load: string -> LoadResult, eval: (seq<string>, string) -> EvalResult)
    ensures Step(code, history, Interrupt, load, eval).Next?
    ensures Step(code, history, Interrupt, load, eval).code == ""
    ensures KeyboardInterrupt in Step(code, history, Interrupt, load, eval).actions
  {
  }

  /** Input that fails to compile for a reason other than its end is logged and discarded. */
  lemma LoadErrorResets(code: string, line: string, history: seq<string>,
                        load: string -> LoadResult, eval: (seq<string>, string) -> EvalResult)
    requires load("return " + Accumulate(code, line)).LoadFailed?
    requires load(Accumulate(code, line)).LoadFailed? && !load(Accumulate(code, line)).incomplete
    ensures Step(code, history, Line(line), load, eval)
            == Next("", history, [Prompt(if code == "" then "> " else ">> "), LogError(load(Accumulate(code, line)).message)])
  {
  }

  /** Input that is merely incomplete is kept and extended by the next line. */
  lemma IncompleteAccumulates(code: string, line: string, history: seq<string>,
                              load: string -> LoadResult, eval: (seq<string>, string) -> EvalResult)
    requires load("return " + Accumulate(code, line)).LoadFailed?
    requires load(Accumulate(code, line)).LoadFailed? && load(Accumulate(code, line)).incomplete
    ensures Step(code, history, Line(line), load, eval)
            == Next(Accumulate(code, line), history, [Prompt(if code == "" then "> " else ">> ")])
  {
  }

  /** Compiled input is recorded line by line, run once, and discarded. */
  lemma EvaluationResets(code: string, line: string, history: seq<string>,
                         load: string -> LoadResult, eval: (seq<string>, string) -> EvalResult)
    requires load("return " + Accumulate(code, line)).Loaded? || load(Accumulate(code, line)).Loaded?
    ensures Step(code, history, Line(line), load, eval).Next?
    ensures Step(code, history, Line(line), load, eval).code == ""
    ensures |Step(code, history, Line(line), load, eval).history| == |history| + 1
    ensures Step(code, history, Line(line), load, eval).actions[1] == RecordStdin(Split(Accumulate(code, line)))
  {
  }

  /** The exit hint is shown exactly for a bare exit word that left a single nil. */
  lemma ExitHintExactly(code: string, line: string, history: seq<string>,
                        load: string -> LoadResult, eval: (seq<string>, string) -> EvalResult)
    requires load("return " + Accumulate(code, line)).Loaded?
    ensures ExitHint in Step(code, history, Line(line), load, eval).actions
            <==> IsExitWord(Accumulate(code, line)) && eval(history, "return " + Accumulate(code, line)).values == [LNil]
  {
    var c := Accumulate(code, line);
    var r := eval(history, "return " + c);
    var t := Step(code, history, Line(line), load, eval);
    var out := Report(c, r.values);
    assert t.actions == [Prompt(if code == "" then "> " else ">> "), RecordStdin(Split(c))]
                        + (if r.failure.Some? then [LogError(r.failure.value)] else []) + out;
    if ExitHint in t.actions {
      assert ExitHint in out;
      assert out == [ExitHint];
    }
  }

  /** A statement typed over several lines, all but the last incomplete, is
      recorded as exactly those lines. */
  lemma MultiLineRecorded(first: string, second: string, history: seq<string>,
                          load: string -> LoadResult, eval: (seq<string>, string) -> EvalResult)
    requires first != "" && '\n' !in first && '\n' !in second
    requires load("return " + first).LoadFailed? && load(first).LoadFailed? && load(first).incomplete
    requires load("return " + Accumulate(first, second)).Loaded?
    ensures
      var t1 := Step("", history, Line(first), load, eval);
      t1.Next? && t1.code == first &&
      var t2 := Step(t1.code, t1.history, Line(second), load, eval);
      t2.Next? && t2.code == "" && RecordStdin([first, second]) in t2.actions
  {
    var parts := [first, second];
    assert parts[..1] == [first];
    AccumulatedLines(parts);
    assert [first][..0] == [];
    assert AccumulateAll(parts) == Accumulate(first, second);
  }
}
