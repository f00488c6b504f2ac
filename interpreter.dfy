/** The interpreter's state across lines and the buffer edit that ends every
    command line (process_tokens, globber.cpp:345-597), and the per-line loop of
    a script (process_script, globber.cpp:599-621). */
module Interpreter {
  import opened Common
  import Lexer
  import opened Numbers
  import opened Ranges
  import opened Clauses

  /** The three ways a line changes the buffer. */
  datatype Action = Append | Insert | Write

  /** What the interpreter carries from one line to the next: the buffer,
      where the last edit ended, the last action, and the address offset. */
  datatype Machine = Machine(buf: seq<byte>, previousEnd: int, previousAction: Action, offset: int)

  // ---------------------------------------------------------------------------
  // The buffer edit

  /** The new buffer and the new `previousEnd`, or the error of the edit. */
  function Edit(buf: seq<byte>, action: Action, at: int, data: seq<byte>): (r: Result<(seq<byte>, int)>)
  {
    match action
    case Append =>
      if at >= 0 then Err(AppendWithAt)
      else Ok((buf + data, |buf| + |data|))
    case Insert =>
      if at < 0 then Err(InsertWithoutAt)
      else if at >= |buf| then Err(InsertBeyondEnd)
      else
        var b := buf[..at] + data + buf[at..];
        Ok((b, at + |b|))
    case Write =>
      if at < 0 then Err(WriteWithoutAt)
      else if at > |buf| then Err(WriteBeyondEnd)
      else if at == |buf| then Ok((buf + data, |buf| + |data|))
      else if at + |data| >= |buf| then Ok((buf[..at] + data, at + |data|))
      else
        var b := buf[..at] + data + buf[at + |data|..];
        Ok((b, at + |b|))
  }

  /** Append refuses an address and adds the data at the end; the next
      continuation starts at the new end. */
  lemma AppendMeaning(buf: seq<byte>, at: int, data: seq<byte>)
    ensures Edit(buf, Append, at, data).Ok? <==> at < 0
    ensures at < 0 ==> Edit(buf, Append, at, data).value.0 == buf + data
    ensures at < 0 ==> Edit(buf, Append, at, data).value.1 == |Edit(buf, Append, at, data).value.0|
  {
  }

  /** Insert needs an address inside the buffer, puts the data there and
      keeps everything else, in order. The recorded end is the address plus
      the length of the whole new buffer, which lies past the buffer's end. */
  lemma InsertMeaning(buf: seq<byte>, at: int, data: seq<byte>)
    ensures Edit(buf, Insert, at, data).Ok? <==> 0 <= at < |buf|
    ensures 0 <= at < |buf| ==>
              var (b, end) := Edit(buf, Insert, at, data).value;
              && |b| == |buf| + |data|
              && b[..at] == buf[..at]
              && b[at..at + |data|] == data
              && b[at + |data|..] == buf[at..]
              && end == at + |b| && end >= |b|
  {
    if 0 <= at < |buf| {
      var b := buf[..at] + data + buf[at..];
      assert b[..at] == buf[..at];
      assert b[at..at + |data|] == data;
      assert b[at + |data|..] == buf[at..];
    }
  }

  /** Write needs an address no further than the end of the buffer. */
  lemma WriteAccepts(buf: seq<byte>, at: int, data: seq<byte>)
    ensures Edit(buf, Write, at, data).Ok? <==> 0 <= at <= |buf|
    ensures at < 0 ==> Edit(buf, Write, at, data) == Err(WriteWithoutAt)
    ensures at > |buf| ==> Edit(buf, Write, at, data) == Err(WriteBeyondEnd)
  {
  }

  /** A write that ends before the end of the buffer overwrites the bytes
      from `at` on and changes nothing else; the buffer keeps its length. */
  lemma WriteInPlace(buf: seq<byte>, at: int, data: seq<byte>)
    requires 0 <= at && at + |data| < |buf|
    ensures var (b, end) := Edit(buf, Write, at, data).value;
            && |b| == |buf|
            && (forall k :: 0 <= k < at ==> b[k] == buf[k])
            && (forall k :: 0 <= k < |data| ==> b[at + k] == data[k])
            && (forall k :: at + |data| <= k < |b| ==> b[k] == buf[k])
            && end == at + |buf|
  {
    var b := buf[..at] + data + buf[at + |data|..];
    assert forall k :: 0 <= k < |data| ==> b[at + k] == data[k];
  }

  /** A write that reaches the end of the buffer replaces everything from
      `at` on, and the next continuation starts right after the data. */
  lemma WriteTruncating(buf: seq<byte>, at: int, data: seq<byte>)
    requires 0 <= at <= |buf| && at + |data| >= |buf|
    ensures Edit(buf, Write, at, data) == Ok((buf[..at] + data, at + |data|))
  {
    if at == |buf| {
      assert buf[..at] == buf;
    }
  }

  // ---------------------------------------------------------------------------
  // One line

  /** check_no_more_tokens: a line may have at most `size` tokens. */
  function NoMoreTokens(tokens: seq<string>, size: nat): (r: Result<()>)
    ensures r.Ok? <==> |tokens| <= size
    ensures r.Err? ==> r.error == TrailingToken
  {
    if |tokens| > size then Err(TrailingToken) else Ok(())
  }

  /** What the first token of a line asks for. */
  datatype Command = Edits(action: Action) | Continuation | SetOffset | UnknownCommand

  function CommandOf(t: string): (r: Command)
  {
    if EqualsIgnoreCase(t, "append") then Edits(Append)
    else if EqualsIgnoreCase(t, "insert") then Edits(Insert)
    else if EqualsIgnoreCase(t, "write") then Edits(Write)
    else if EqualsIgnoreCase(t, "data") then Continuation
    else if EqualsIgnoreCase(t, "offset") then SetOffset
    else UnknownCommand
  }

  /** An `offset` line. The offset is stored before it is checked. */
  function OffsetLine(st: Machine, tokens: seq<string>): (r: (Machine, Result<()>))
    ensures r.0.buf == st.buf && r.0.previousEnd == st.previousEnd && r.0.previousAction == st.previousAction
  {
    if |tokens| <= 1 then (st, Err(MissingParameter))
    else
      match Number(tokens[1])
      case Err(e) => (st, Err(e))
      case Ok(v) =>
        var st' := st.(offset := v);
        if v < 0 then (st', Err(NegativeOffset))
        else (st', NoMoreTokens(tokens, 2))
  }

  /** A line that edits the buffer: the action is recorded first, then the
      clauses from `start` on are read, the data assembled and the edit made.
      The buffer and `previousEnd` change only when all of it succeeds. */
  function EditLine(st: Machine, action: Action, at: int, start: nat, tokens: seq<string>, files: Files): (r: (Machine, Result<()>))
    ensures r.0.offset == st.offset && r.0.previousAction == action
    ensures r.1.Err? ==> r.0 == st.(previousAction := action)
  {
    var st1 := st.(previousAction := action);
    match AllClauses(tokens, start, Initial(at), st.offset, files)
    case Err(e) => (st1, Err(e))
    case Ok(req) =>
      match Assembled(req, files)
      case Err(e) => (st1, Err(e))
      case Ok(data) => Applied(st1, Edit(st.buf, action, req.at, data))
  }

  /** The state after an edit: the new buffer and end, or unchanged with
      the edit's error. */
  function Applied(st: Machine, edit: Result<(seq<byte>, int)>): (r: (Machine, Result<()>))
    ensures r.0.offset == st.offset && r.0.previousAction == st.previousAction
  {
    match edit
    case Err(e) => (st, Err(e))
    case Ok((b, end)) => (st.(buf := b, previousEnd := end), Ok(()))
  }

  /** One non-empty line of a script. A `data` line continues the previous
      action, at the end of the previous edit unless that was an append; its
      `data` token is read again as its first clause. */
  function Line(st: Machine, tokens: seq<string>, files: Files): (r: (Machine, Result<()>))
    requires |tokens| > 0
    ensures r.1.Err? ==> r.0.buf == st.buf && r.0.previousEnd == st.previousEnd
    ensures CommandOf(tokens[0]) == UnknownCommand ==> r == (st, Err(UnknownAction))
    ensures CommandOf(tokens[0]) != SetOffset ==> r.0.offset == st.offset
  {
    match CommandOf(tokens[0])
    case Edits(action) => EditLine(st, action, -1, 1, tokens, files)
    case Continuation =>
      var at := if st.previousAction != Append then st.previousEnd else -1;
      EditLine(st, st.previousAction, at, 0, tokens, files)
    case SetOffset => OffsetLine(st, tokens)
    case UnknownCommand => (st, Err(UnknownAction))
  }

  /** An `offset` line: without an argument it is refused and changes
      nothing; an argument that is not a number is refused with its error;
      otherwise the value is stored, and then refused if negative, or if
      more tokens follow it. */
  lemma OffsetMeaning(st: Machine, tokens: seq<string>, files: Files)
    requires |tokens| > 0 && CommandOf(tokens[0]) == SetOffset
    ensures |tokens| < 2 ==> Line(st, tokens, files) == (st, Err(MissingParameter))
    ensures |tokens| >= 2 && Number(tokens[1]).Err? ==> Line(st, tokens, files) == (st, Err(Number(tokens[1]).error))
    ensures |tokens| >= 2 && Number(tokens[1]).Ok? ==>
              var v := Number(tokens[1]).value;
              && Line(st, tokens, files).0 == st.(offset := v)
              && Line(st, tokens, files).1 == if v < 0 then Err(NegativeOffset)
                                             else if |tokens| > 2 then Err(TrailingToken)
                                             else Ok(())
  {
  }

  /** A `data` line repeats the previous action, at the end of the
      previous edit unless that was an append, reading its clauses from its
      own first token on. */
  lemma ContinuationLine(st: Machine, tokens: seq<string>, files: Files)
    requires |tokens| > 0 && CommandOf(tokens[0]) == Continuation
    ensures Line(st, tokens, files)
            == EditLine(st, st.previousAction, if st.previousAction != Append then st.previousEnd else -1, 0, tokens, files)
  {
  }

  /** An edit line whose clauses and data are read without error makes the
      edit with that data, at the address the clauses leave. */
  lemma EditLineReads(st: Machine, action: Action, at: int, start: nat, tokens: seq<string>, files: Files,
                      req: Request, data: seq<byte>)
    requires AllClauses(tokens, start, Initial(at), st.offset, files) == Ok(req)
    requires Consistent(req) && Assembled(req, files) == Ok(data)
    ensures EditLine(st, action, at, start, tokens, files)
            == Applied(st.(previousAction := action), Edit(st.buf, action, req.at, data))
  {
  }

  /** A `data` line after an append is an append of its own data: placed at
      the end of the buffer, unless its clauses set an address, which append
      refuses. */
  lemma ContinuationAfterAppend(st: Machine, tokens: seq<string>, files: Files, req: Request, data: seq<byte>)
    requires |tokens| > 0 && CommandOf(tokens[0]) == Continuation && st.previousAction == Append
    requires AllClauses(tokens, 0, Initial(-1), st.offset, files) == Ok(req)
    requires Consistent(req) && Assembled(req, files) == Ok(data)
    ensures req.at < 0 ==> Line(st, tokens, files) == (st.(buf := st.buf + data, previousEnd := |st.buf| + |data|), Ok(()))
    ensures req.at >= 0 ==> Line(st, tokens, files) == (st, Err(AppendWithAt))
  {
    assert Line(st, tokens, files) == Applied(st, Edit(st.buf, Append, req.at, data)) by {
      ContinuationLine(st, tokens, files);
      EditLineReads(st, Append, -1, 0, tokens, files, req, data);
      assert st.(previousAction := Append) == st;
    }
    AppliedAppend(st, req.at, data);
  }

  /** Applying an append: the data goes at the end, or an address is refused. */
  lemma AppliedAppend(st: Machine, at: int, data: seq<byte>)
    ensures at < 0 ==> Applied(st, Edit(st.buf, Append, at, data))
                       == (st.(buf := st.buf + data, previousEnd := |st.buf| + |data|), Ok(()))
    ensures at >= 0 ==> Applied(st, Edit(st.buf, Append, at, data)) == (st, Err(AppendWithAt))
  {
  }

  /** A `data` line after a write is a write of its own data at the end of
      the previous write, unless its clauses set an address; when that end
      is the end of the buffer, the data is added there. */
  lemma ContinuationAfterWrite(st: Machine, tokens: seq<string>, files: Files, req: Request, data: seq<byte>)
    requires |tokens| > 0 && CommandOf(tokens[0]) == Continuation && st.previousAction == Write
    requires AllClauses(tokens, 0, Initial(st.previousEnd), st.offset, files) == Ok(req)
    requires Consistent(req) && Assembled(req, files) == Ok(data)
    ensures Line(st, tokens, files) == Applied(st, Edit(st.buf, Write, req.at, data))
    ensures req.at == st.previousEnd == |st.buf| ==>
              Line(st, tokens, files) == (st.(buf := st.buf + data, previousEnd := |st.buf| + |data|), Ok(()))
  {
    assert Line(st, tokens, files) == Applied(st, Edit(st.buf, Write, req.at, data)) by {
      ContinuationLine(st, tokens, files);
      EditLineReads(st, Write, st.previousEnd, 0, tokens, files, req, data);
      assert st.(previousAction := Write) == st;
    }
    AppliedWriteAtEnd(st, req.at, data);
  }

  /** Applying a write at the end of the buffer adds the data there. */
  lemma AppliedWriteAtEnd(st: Machine, at: int, data: seq<byte>)
    ensures at == |st.buf| ==> Applied(st, Edit(st.buf, Write, at, data))
                               == (st.(buf := st.buf + data, previousEnd := |st.buf| + |data|), Ok(()))
  {
  }

  /** Two appends in a row, as an append line and a `data` line after it
      make them: the buffer grows by both data sets, in order, and the
      recorded end is the new length. */
  lemma AppendThenAppend(st: Machine, at1: int, d1: seq<byte>, at2: int, d2: seq<byte>)
    requires at1 < 0 && at2 < 0
    ensures var st1 := Applied(st, Edit(st.buf, Append, at1, d1));
            && st1 == (st.(buf := st.buf + d1, previousEnd := |st.buf| + |d1|), Ok(()))
            && Applied(st1.0, Edit(st1.0.buf, Append, at2, d2))
               == (st.(buf := st.buf + d1 + d2, previousEnd := |st.buf| + |d1| + |d2|), Ok(()))
  {
    AppliedAppend(st, at1, d1);
    var st1 := Applied(st, Edit(st.buf, Append, at1, d1)).0;
    AppliedAppend(st1, at2, d2);
  }

  /** A write that reaches the end of the buffer, then the write at the
      end it recorded that a `data` line after it makes: the buffer is cut
      at the first address and both data sets follow, in order. */
  lemma WriteThenWriteAtEnd(st: Machine, at: int, d1: seq<byte>, d2: seq<byte>)
    requires 0 <= at <= |st.buf| && at + |d1| >= |st.buf|
    ensures var st1 := Applied(st, Edit(st.buf, Write, at, d1)).0;
            && st1.previousEnd == |st1.buf|
            && Applied(st1, Edit(st1.buf, Write, st1.previousEnd, d2))
               == (st.(buf := st.buf[..at] + d1 + d2, previousEnd := at + |d1| + |d2|), Ok(()))
  {
    AppliedWriteTruncating(st, at, d1);
    var st1 := Applied(st, Edit(st.buf, Write, at, d1)).0;
    AppliedWriteAtEnd(st1, st1.previousEnd, d2);
  }

  /** Applying a write that reaches the end of the buffer cuts the buffer
      at the address and adds the data. */
  lemma AppliedWriteTruncating(st: Machine, at: int, data: seq<byte>)
    requires 0 <= at <= |st.buf| && at + |data| >= |st.buf|
    ensures Applied(st, Edit(st.buf, Write, at, data))
            == (st.(buf := st.buf[..at] + data, previousEnd := at + |data|), Ok(()))
  {
    WriteTruncating(st.buf, at, data);
  }

  /** After a successful insert, a `data` continuation that sets no address
      of its own always fails: it is placed at the recorded end, which is
      past the end of the buffer. */
  lemma ContinuationAfterInsert(st: Machine, tokens: seq<string>, files: Files)
    requires |tokens| > 0 && CommandOf(tokens[0]) == Continuation
    requires st.previousAction == Insert && st.previousEnd >= |st.buf|
    requires AllClauses(tokens, 0, Initial(st.previousEnd), st.offset, files).Ok?
    requires AllClauses(tokens, 0, Initial(st.previousEnd), st.offset, files).value.at == st.previousEnd
    requires Assembled(AllClauses(tokens, 0, Initial(st.previousEnd), st.offset, files).value, files).Ok?
    ensures Line(st, tokens, files).1 == Err(InsertBeyondEnd)
  {
  }

  /** Every successful insert line leaves the state that the lemma above
      needs. */
  lemma InsertLeavesEndPastBuffer(st: Machine, tokens: seq<string>, files: Files)
    requires |tokens| > 0 && CommandOf(tokens[0]) == Edits(Insert)
    requires Line(st, tokens, files).1.Ok?
    ensures Line(st, tokens, files).0.previousAction == Insert
    ensures Line(st, tokens, files).0.previousEnd >= |Line(st, tokens, files).0.buf|
  {
    var req := AllClauses(tokens, 1, Initial(-1), st.offset, files).value;
    var data := Assembled(req, files).value;
    InsertMeaning(st.buf, req.at, data);
  }

  // ---------------------------------------------------------------------------
  // A script

  /** Where a script stopped: the (1-based) line number and the error. */
  datatype Failure = Failure(line: nat, error: Error)

  /** One line of a script: a line without tokens, such as a blank line or
      a comment, does nothing. */
  function Step(st: Machine, line: string, files: Files): (r: (Machine, Result<()>))
    ensures Lexer.Tokens(line) == [] ==> r == (st, Ok(()))
  {
    var tokens := Lexer.Tokens(line);
    if |tokens| == 0 then (st, Ok(())) else Line(st, tokens, files)
  }

  /** How one line changes the machine. */
  type LineStep = (Machine, string) -> (Machine, Result<()>)

  /** The interpreter's own step, for the files given. */
  function ScriptStep(files: Files): (step: LineStep)
    ensures forall st, line :: step(st, line) == Step(st, line, files)
  {
    (st: Machine, line: string) => Step(st, line, files)
  }

  /** The lines from `lineNumber` on, each taken by `step`, in order, until
      the first error. */
  function Run(step: LineStep, st: Machine, lines: seq<string>, lineNumber: nat): (r: (Machine, Option<Failure>))
    ensures r.1.Some? ==> lineNumber <= r.1.value.line < lineNumber + |lines|
    decreases |lines|
  {
    if |lines| == 0 then (st, None)
    else
      var (st', result) := step(st, lines[0]);
      if result.Err? then (st', Some(Failure(lineNumber, result.error)))
      else Run(step, st', lines[1..], lineNumber + 1)
  }

  /** Running `a + b` runs `a` and, unless a line of `a` fails, then runs
      `b` from the state `a` reached, numbering its lines on from `a`'s. */
  lemma {:induction false} RunSplit(step: LineStep, st: Machine, a: seq<string>, b: seq<string>, lineNumber: nat)
    ensures var first := Run(step, st, a, lineNumber);
            Run(step, st, a + b, lineNumber)
            == if first.1.Some? then first else Run(step, first.0, b, lineNumber + |a|)
    decreases |a|
  {
    if a == [] {
      assert a + b == b;
    } else {
      assert (a + b)[0] == a[0];
      assert (a + b)[1..] == a[1..] + b;
      var next := step(st, a[0]);
      if next.1.Ok? {
        RunSplit(step, next.0, a[1..], b, lineNumber + 1);
      }
    }
  }

  /** The failure a run reports is that of its first failing line: every
      line before it succeeds, that line fails with the reported error, and
      the run stops in the state that line left. */
  lemma {:induction false} RunFirstFailure(step: LineStep, st: Machine, lines: seq<string>, lineNumber: nat)
    requires Run(step, st, lines, lineNumber).1.Some?
    ensures var failure := Run(step, st, lines, lineNumber).1.value;
            var k := failure.line - lineNumber;
            var before := Run(step, st, lines[..k], lineNumber);
            && 0 <= k < |lines|
            && before.1 == None
            && step(before.0, lines[k]).1 == Err(failure.error)
            && Run(step, st, lines, lineNumber).0 == step(before.0, lines[k]).0
    decreases |lines|
  {
    var next := step(st, lines[0]);
    if next.1.Ok? {
      RunFirstFailure(step, next.0, lines[1..], lineNumber + 1);
      var k := Run(step, st, lines, lineNumber).1.value.line - lineNumber;
      assert lines[..k][0] == lines[0];
      assert lines[..k][1..] == lines[1..][..k - 1];
      assert lines[1..][k - 1] == lines[k];
    } else {
      assert lines[..0] == [];
    }
  }

  /** What a script produces: the bytes written to the output file, or that
      no file is written, or the line that failed. */
  datatype Outcome = Written(bytes: seq<byte>) | NothingWritten | Failed(failure: Failure)

  /** The state a script starts in: an empty buffer, no previous edit, and
      the address offset left by whatever ran before. */
  function Start(offset: int): (r: Machine)
  {
    Machine([], -1, Append, offset)
  }

  /** A script ends in the state its lines reach. It fails exactly when a
      line fails, naming that line; otherwise the buffer is written exactly
      when it is not empty. */
  function Script(lines: seq<string>, files: Files, offset: int): (r: (Machine, Outcome))
    ensures var run := Run(ScriptStep(files), Start(offset), lines, 1);
            && r.0 == run.0
            && (r.1.Failed? <==> run.1.Some?)
            && (run.1.Some? ==> r.1 == Failed(run.1.value))
    ensures r.1.Written? ==> |r.1.bytes| > 0 && r.1.bytes == r.0.buf
    ensures r.1 == Written(r.0.buf) <==> Run(ScriptStep(files), Start(offset), lines, 1).1.None? && |r.0.buf| > 0
    ensures r.1 == NothingWritten <==> Run(ScriptStep(files), Start(offset), lines, 1).1.None? && |r.0.buf| == 0
  {
    var (st, failure) := Run(ScriptStep(files), Start(offset), lines, 1);
    if failure.Some? then (st, Failed(failure.value))
    else if |st.buf| > 0 then (st, Written(st.buf))
    else (st, NothingWritten)
  }

  /** Lines without tokens, such as blank lines and comments, change
      nothing but the line count. */
  lemma SilentLineSkipped(st: Machine, line: string, rest: seq<string>, files: Files, lineNumber: nat)
    requires Lexer.Tokens(line) == []
    ensures Run(ScriptStep(files), st, [line] + rest, lineNumber) == Run(ScriptStep(files), st, rest, lineNumber + 1)
  {
    assert ([line] + rest)[1..] == rest;
  }

  /** Running the script from line `k` on: a line without tokens is
      skipped, and any other line is interpreted and either stops the run
      with its line number or lets it go on with the next line. */
  lemma RunFromLine(files: Files, st: Machine, lines: seq<string>, k: nat, lineNumber: nat)
    requires k < |lines|
    ensures var tokens := Lexer.Tokens(lines[k]);
            var rest := Run(ScriptStep(files), st, lines[k..], lineNumber);
            && (|tokens| == 0 ==> rest == Run(ScriptStep(files), st, lines[k + 1..], lineNumber + 1))
            && (|tokens| > 0 ==>
                  var (st', result) := Line(st, tokens, files);
                  rest == if result.Err? then (st', Some(Failure(lineNumber, result.error)))
                          else Run(ScriptStep(files), st', lines[k + 1..], lineNumber + 1))
  {
    assert lines[k..][0] == lines[k];
    assert lines[k..][1..] == lines[k + 1..];
  }

  // ---------------------------------------------------------------------------
  // The interpreter object

  class Interpreter {
    var buf: seq<byte>
    var previousEnd: int
    var previousAction: Action
    /** A global in the source: it survives from one script to the next. */
    var addressOffset: int

    function State(): (r: Machine)
      reads this
    {
      Machine(buf, previousEnd, previousAction, addressOffset)
    }

    constructor()
      ensures State() == Machine([], -1, Append, 0)
    {
      buf := [];
      previousEnd := -1;
      previousAction := Append;
      addressOffset := 0;
    }

    /** The edit at the end of process_tokens. */
    method ApplyEdit(action: Action, at: int, data: seq<byte>) returns (r: Result<()>)
      modifies this
      ensures (State(), r) == Applied(old(State()), Edit(old(buf), action, at, data))
    {
      match action {
        case Append =>
          if at >= 0 {
            return Err(AppendWithAt);
          }
          buf := buf + data;
          previousEnd := |buf|;
        case Insert =>
          if at < 0 {
            return Err(InsertWithoutAt);
          }
          if at >= |buf| {
            return Err(InsertBeyondEnd);
          }
          buf := buf[..at] + data + buf[at..];
          previousEnd := at + |buf|;
        case Write =>
          if at < 0 {
            return Err(WriteWithoutAt);
          }
          if at > |buf| {
            return Err(WriteBeyondEnd);
          }
          if at == |buf| {
            buf := buf + data;
            previousEnd := |buf|;
          } else if at + |data| >= |buf| {
            buf := buf[..at];
            buf := buf + data;
            previousEnd := |buf|;
          } else {
            buf := buf[..at] + buf[at + |data|..];
            buf := buf[..at] + data + buf[at..];
            previousEnd := at + |buf|;
          }
      }
      r := Ok(());
    }

    /** The `offset` branch of process_tokens. */
    method ProcessOffset(tokens: seq<string>) returns (r: Result<()>)
      modifies this
      ensures (State(), r) == OffsetLine(old(State()), tokens)
    {
      if |tokens| <= 1 {
        return Err(MissingParameter);
      }
      var v := ParseNumber(tokens[1]);
      if v.Err? {
        return Err(v.error);
      }
      addressOffset := v.value;
      if addressOffset < 0 {
        return Err(NegativeOffset);
      }
      r := NoMoreTokens(tokens, 2);
    }

    /** The rest of process_tokens for an editing line: record the action,
        run the clause loop from `start`, assemble the data, edit. */
    method ProcessEdit(action: Action, at: int, start: nat, tokens: seq<string>, files: Files) returns (r: Result<()>)
      modifies this
      ensures (State(), r) == EditLine(old(State()), action, at, start, tokens, files)
    {
      previousAction := action;
      var req := CollectClauses(tokens, start, Initial(at), addressOffset, files);
      if req.Err? {
        return Err(req.error);
      }
      var data := Assemble(req.value, files);
      if data.Err? {
        return Err(data.error);
      }
      r := ApplyEdit(action, req.value.at, data.value);
    }

    /** process_tokens: one non-empty line. */
    method ProcessTokens(tokens: seq<string>, files: Files) returns (r: Result<()>)
      requires |tokens| > 0
      modifies this
      ensures (State(), r) == Line(old(State()), tokens, files)
    {
      match CommandOf(tokens[0]) {
        case Edits(action) =>
          r := ProcessEdit(action, -1, 1, tokens, files);
        case Continuation =>
          var at := -1;
          if previousAction != Append {
            at := previousEnd;
          }
          r := ProcessEdit(previousAction, at, 0, tokens, files);
        case SetOffset =>
          r := ProcessOffset(tokens);
        case UnknownCommand =>
          r := Err(UnknownAction);
      }
    }

    /** process_script: the per-line loop. The buffer and the chain state
        start afresh; the address offset does not. */
    method ProcessScript(lines: seq<string>, files: Files) returns (r: Outcome)
      modifies this
      ensures (State(), r) == Script(lines, files, old(addressOffset))
    {
      ghost var start := Start(addressOffset);
      buf := [];
      previousEnd := -1;
      previousAction := Append;
      var lineNumber := 1;
      for k := 0 to |lines|
        invariant lineNumber == k + 1
        invariant Run(ScriptStep(files), start, lines, 1) == Run(ScriptStep(files), State(), lines[k..], lineNumber)
      {
        RunFromLine(files, State(), lines, k, lineNumber);
        var tokens := Lexer.Tokenize(lines[k]);
        if |tokens| > 0 {
          var result := ProcessTokens(tokens, files);
          if result.Err? {
            return Failed(Failure(lineNumber, result.error));
          }
        }
        lineNumber := lineNumber + 1;
      }
      if |buf| > 0 {
        r := Written(buf);
      } else {
        r := NothingWritten;
      }
    }
  }
}
