/** The clauses of one command line (the clause loop of process_tokens,
    globber.cpp:402-477) and what the line's clauses assemble into before the
    buffer is edited: the selected source data, interleaved with a first data
    set or with pad runs, then padded to an exact length (globber.cpp:480-549). */
module Clauses {
  import opened Common
  import opened Numbers
  import opened DataBlocks
  import opened Ranges
  import opened Blocks

  /** The first data set of an interleave and the two chunk sizes. */
  datatype Chunking = Chunking(data: seq<byte>, first: int, second: int)

  /** Everything the clauses of a line have set so far. "Unset" is encoded as
      in the source: -1 for `at`, `max`, `exactly`, `to` and `bytes`, 0 for
      `from`, empty for the data, the pad and the file name. */
  datatype Request = Request(
    at: int, max: int, exact: int, from: int, to: int, count: int,
    pad: seq<byte>, once: bool, readData: seq<byte>, filename: string,
    interleave: Option<Chunking>)

  /** The request before the first clause: only `at` may already be set, by a
      `data` continuation line. */
  function Initial(at: int): (r: Request)
  {
    Request(at, -1, -1, 0, -1, -1, [], false, [], "", None)
  }

  /** An interleave clause only records chunk sizes of at least 1, and a first
      data set that is a whole number of first-size chunks. */
  predicate WellChunked(c: Chunking)
  {
    c.first > 0 && c.second > 0 && |c.data| % c.first == 0
  }

  predicate Consistent(req: Request)
  {
    req.interleave.Some? ==> WellChunked(req.interleave.value)
  }

  /** The data a range selects: from the bytes read by `data`/`hex` if there
      are any, else from the named file if there is one, else nothing. */
  function Selected(req: Request, files: Files): (r: Result<seq<byte>>)
  {
    if |req.readData| > 0 then Slice(req.readData, req.from, req.to, req.count, req.max, req.exact)
    else if |req.filename| > 0 then ReadFile(files, req.filename, req.from, req.to, req.count, req.max, req.exact)
    else Ok([])
  }

  // ---------------------------------------------------------------------------
  // One clause

  /** The interleave clause at `i`: two chunk sizes, optionally separated by a
      comma token, then the selected data becomes the first data set and the
      selection is reset. Returns the request and the index of the last token
      used. (The clause is never at index 0, so `|tokens| - 2` does not wrap
      around as the unsigned subtraction of the source could.) */
  function InterleaveClause(tokens: seq<string>, i: nat, req: Request, files: Files): (r: Result<(Request, nat)>)
    requires i < |tokens|
    ensures r.Ok? ==> i < r.value.1 < |tokens| && r.value.0.interleave.Some?
    ensures r.Ok? ==> WellChunked(r.value.0.interleave.value) && r.value.0.readData == [] && r.value.0.filename == ""
  {
    if i >= |tokens| - 2 then Err(InterleaveArguments)
    else
      var first :- Argument(tokens, i + 1);
      var j := if EqualsIgnoreCase(tokens[i + 2], ",") then i + 3 else i + 2;
      if j == i + 3 && j >= |tokens| - 1 then Err(InterleaveArguments)
      else
        var second :- Argument(tokens, j);
        if first <= 0 || second <= 0 then Err(InterleaveSize)
        else if |req.readData| == 0 && |req.filename| == 0 then Err(InterleaveNoInput)
        else
          var data :- Selected(req, files);
          if |data| % first != 0 then Err(InterleaveFirstMultiple)
          else
            Ok((req.(interleave := Some(Chunking(data, first, second)),
                     readData := [], filename := "", from := 0, to := -1, count := -1), j))
  }

  /** The clauses that take one numeric argument. */
  datatype Field = At | Max | Exactly | From | To | Count

  /** What the first token of a clause names, tested in the order of the
      source's chain of comparisons. */
  datatype Kind = Numeric(field: Field) | PadClause | DataClause | HexClause | FileClause | InterleaveKind | NoClause

  function KindOf(t: string): (r: Kind)
  {
    if EqualsIgnoreCase(t, "at") then Numeric(At)
    else if EqualsIgnoreCase(t, "max") then Numeric(Max)
    else if EqualsIgnoreCase(t, "exactly") then Numeric(Exactly)
    else if EqualsIgnoreCase(t, "from") then Numeric(From)
    else if EqualsIgnoreCase(t, "to") then Numeric(To)
    else if EqualsIgnoreCase(t, "bytes") then Numeric(Count)
    else if EqualsIgnoreCase(t, "pad") then PadClause
    else if EqualsIgnoreCase(t, "data") then DataClause
    else if EqualsIgnoreCase(t, "hex") then HexClause
    else if EqualsIgnoreCase(t, "file") then FileClause
    else if EqualsIgnoreCase(t, "interleave") then InterleaveKind
    else NoClause
  }

  /** Setting a numeric field; `at` is shifted by the address offset. */
  function WithField(req: Request, f: Field, v: int, offset: int): (r: Request)
  {
    match f
    case At => req.(at := v + offset)
    case Max => req.(max := v)
    case Exactly => req.(exact := v)
    case From => req.(from := v)
    case To => req.(to := v)
    case Count => req.(count := v)
  }

  /** The clause at `i`: the updated request and the index of the last token
      the clause used; `offset` is the address offset added to `at`. */
  function Clause(tokens: seq<string>, i: nat, req: Request, offset: int, files: Files): (r: Result<(Request, nat)>)
    requires i < |tokens|
    ensures r.Ok? ==> i <= r.value.1 < |tokens|
    ensures r.Ok? && Consistent(req) ==> Consistent(r.value.0)
  {
    match KindOf(tokens[i])
    case Numeric(f) =>
      var v :- Argument(tokens, i + 1);
      Ok((WithField(req, f, v, offset), i + 1))
    case PadClause =>
      var once := i + 1 < |tokens| && EqualsIgnoreCase(tokens[i + 1], "once");
      var start := if once then i + 2 else i + 1;
      var (bytes, last) :- Data(tokens, start);
      Ok((req.(pad := bytes, once := req.once || once), last))
    case DataClause =>
      var (bytes, last) :- Data(tokens, i + 1);
      Ok((req.(readData := bytes), last))
    case HexClause =>
      var bytes :- HexArgument(tokens, i + 1);
      Ok((req.(readData := bytes), i + 1))
    case FileClause =>
      if i >= |tokens| - 1 then Err(MissingFilename)
      else Ok((req.(filename := tokens[i + 1]), i + 1))
    case InterleaveKind =>
      InterleaveClause(tokens, i, req, files)
    case NoClause => Err(UnexpectedToken)
  }

  /** The clauses from index `i` to the end of the line, in order. */
  function AllClauses(tokens: seq<string>, i: nat, req: Request, offset: int, files: Files): (r: Result<Request>)
    ensures r.Ok? && Consistent(req) ==> Consistent(r.value)
    decreases |tokens| - i
  {
    if i >= |tokens| then Ok(req)
    else
      var (req', last) :- Clause(tokens, i, req, offset, files);
      AllClauses(tokens, last + 1, req', offset, files)
  }

  // ---------------------------------------------------------------------------
  // Assembly after the last clause

  /** The interleave step: with a second data set, chunk by chunk; without
      one, every first-set chunk is followed by a pad run. */
  function Combined(c: Chunking, second: seq<byte>, pad: seq<byte>, once: bool): (r: Result<seq<byte>>)
    requires WellChunked(c)
  {
    if |second| == 0 && |pad| == 0 then Err(InterleaveNoSecond)
    else if |second| % c.second != 0 then Err(InterleaveSecondMultiple)
    else if |second| != 0 && |second| / c.second != |c.data| / c.first then Err(InterleaveChunkCount)
    else
      var m := |c.data| / c.first;
      ChunkCount(|c.data|, c.first);
      if |second| != 0 then
        ChunkCount(|second|, c.second);
        Ok(Interleaved(c.data, second, c.first, c.second, m))
      else Ok(PadInterleaved(c.data, pad, once, c.first, c.second, m))
  }

  /** The exact-length step: data shorter than a positive `exactly` is
      padded, which needs pad data. */
  function Extended(data: seq<byte>, exact: int, pad: seq<byte>, once: bool): (r: Result<seq<byte>>)
  {
    if exact > 0 && |data| < exact then
      if |pad| == 0 then Err(PadRequired) else Ok(Padded(data, exact, pad, once))
    else Ok(data)
  }

  /** The bytes a line writes into the buffer. */
  function Assembled(req: Request, files: Files): (r: Result<seq<byte>>)
    requires Consistent(req)
  {
    var selected :- Selected(req, files);
    var combined :-
      if req.interleave.Some? && |req.interleave.value.data| > 0
      then Combined(req.interleave.value, selected, req.pad, req.once)
      else Ok(selected);
    Extended(combined, req.exact, req.pad, req.once)
  }

  // ---------------------------------------------------------------------------
  // The loops of process_tokens, proved against the functions above

  /** Range selection on the bytes read so far, as process_tokens does it. */
  method SelectData(req: Request, files: Files) returns (r: Result<seq<byte>>)
    ensures r == Selected(req, files)
  {
    if |req.readData| > 0 {
      var n := CheckOffsets(req.from, req.to, req.count, |req.readData|, req.max, req.exact);
      if n.Err? {
        return Err(n.error);
      }
      if req.from < 0 {
        return Err(NegativeFrom);
      }
      CheckOffsetsBounds(req.from, req.to, req.count, |req.readData|, req.max, req.exact);
      r := Ok(req.readData[req.from..req.from + n.value]);
    } else if |req.filename| > 0 {
      r := ReadFile(files, req.filename, req.from, req.to, req.count, req.max, req.exact);
    } else {
      r := Ok([]);
    }
  }

  /** One pass of the clause loop. */
  method ParseClause(tokens: seq<string>, i: nat, req: Request, offset: int, files: Files) returns (r: Result<(Request, nat)>)
    requires i < |tokens|
    ensures r == Clause(tokens, i, req, offset, files)
  {
    var kind := KindOf(tokens[i]);
    match kind {
      case Numeric(f) =>
        var v := ParseArgument(tokens, i + 1);
        if v.Err? {
          return Err(v.error);
        }
        r := Ok((WithField(req, f, v.value, offset), i + 1));
      case PadClause =>
        var index := i + 1;
        var once := req.once;
        if index < |tokens| && EqualsIgnoreCase(tokens[index], "once") {
          once := true;
          index := index + 1;
        }
        var d := ReadData(tokens, index);
        if d.Err? {
          return Err(d.error);
        }
        r := Ok((req.(pad := d.value.0, once := once), d.value.1));
      case DataClause =>
        var d := ReadData(tokens, i + 1);
        if d.Err? {
          return Err(d.error);
        }
        r := Ok((req.(readData := d.value.0), d.value.1));
      case HexClause =>
        var h := ReadHex(tokens, i + 1);
        if h.Err? {
          return Err(h.error);
        }
        r := Ok((req.(readData := h.value), i + 1));
      case FileClause =>
        if i >= |tokens| - 1 {
          return Err(MissingFilename);
        }
        r := Ok((req.(filename := tokens[i + 1]), i + 1));
      case InterleaveKind =>
        r := ParseInterleave(tokens, i, req, files);
      case NoClause =>
        r := Err(UnexpectedToken);
    }
  }

  method ParseInterleave(tokens: seq<string>, i: nat, req: Request, files: Files) returns (r: Result<(Request, nat)>)
    requires i < |tokens|
    ensures r == InterleaveClause(tokens, i, req, files)
  {
    if i >= |tokens| - 2 {
      return Err(InterleaveArguments);
    }
    var first := ParseArgument(tokens, i + 1);
    if first.Err? {
      return Err(first.error);
    }
    var index := i + 2;
    if EqualsIgnoreCase(tokens[index], ",") {
      index := index + 1;
      if index >= |tokens| - 1 {
        return Err(InterleaveArguments);
      }
    }
    var second := ParseArgument(tokens, index);
    if second.Err? {
      return Err(second.error);
    }
    if first.value <= 0 || second.value <= 0 {
      return Err(InterleaveSize);
    }
    if |req.readData| == 0 && |req.filename| == 0 {
      return Err(InterleaveNoInput);
    }
    var data := SelectData(req, files);
    if data.Err? {
      return Err(data.error);
    }
    if |data.value| % first.value != 0 {
      return Err(InterleaveFirstMultiple);
    }
    r := Ok((req.(interleave := Some(Chunking(data.value, first.value, second.value)),
                  readData := [], filename := "", from := 0, to := -1, count := -1), index));
  }

  /** The clause loop: clause after clause until the end of the line. */
  method CollectClauses(tokens: seq<string>, start: nat, init: Request, offset: int, files: Files) returns (r: Result<Request>)
    ensures r == AllClauses(tokens, start, init, offset, files)
  {
    var index := start;
    var req := init;
    while index < |tokens|
      invariant AllClauses(tokens, start, init, offset, files) == AllClauses(tokens, index, req, offset, files)
      decreases |tokens| - index
    {
      var c := ParseClause(tokens, index, req, offset, files);
      if c.Err? {
        AllClausesStop(tokens, index, req, offset, files);
        return Err(c.error);
      }
      AllClausesStep(tokens, index, req, offset, files, c.value.0, c.value.1);
      req := c.value.0;
      index := c.value.1 + 1;
    }
    r := Ok(req);
  }

  /** After a clause, the rest of the line is read from the token after its last. */
  lemma AllClausesStep(tokens: seq<string>, i: nat, req: Request, offset: int, files: Files, req': Request, last: nat)
    requires i < |tokens| && Clause(tokens, i, req, offset, files) == Ok((req', last))
    ensures AllClauses(tokens, i, req, offset, files) == AllClauses(tokens, last + 1, req', offset, files)
  {
  }

  /** A clause that fails ends the line with its error. */
  lemma AllClausesStop(tokens: seq<string>, i: nat, req: Request, offset: int, files: Files)
    requires i < |tokens| && Clause(tokens, i, req, offset, files).Err?
    ensures AllClauses(tokens, i, req, offset, files) == Err(Clause(tokens, i, req, offset, files).error)
  {
  }

  /** The interleave of process_tokens, checks first. */
  method Combine(c: Chunking, second: seq<byte>, pad: seq<byte>, once: bool) returns (r: Result<seq<byte>>)
    requires WellChunked(c)
    ensures r == Combined(c, second, pad, once)
  {
    if |second| == 0 && |pad| == 0 {
      return Err(InterleaveNoSecond);
    }
    if |second| % c.second != 0 {
      return Err(InterleaveSecondMultiple);
    }
    if |second| != 0 && |second| / c.second != |c.data| / c.first {
      return Err(InterleaveChunkCount);
    }
    ghost var m := |c.data| / c.first;
    ChunkCount(|c.data|, c.first);
    var result;
    if |second| != 0 {
      ChunkCount(|second|, c.second);
      result := Interleave(c.data, second, c.first, c.second, m);
    } else {
      result := PadInterleave(c.data, pad, once, c.first, c.second, m);
    }
    r := Ok(result);
  }

  /** What process_tokens does after the clause loop, before the edit. */
  method Assemble(req: Request, files: Files) returns (r: Result<seq<byte>>)
    requires Consistent(req)
    ensures r == Assembled(req, files)
  {
    var selected := SelectData(req, files);
    if selected.Err? {
      return Err(selected.error);
    }
    var newData := selected.value;
    if req.interleave.Some? && |req.interleave.value.data| > 0 {
      var combined := Combine(req.interleave.value, newData, req.pad, req.once);
      if combined.Err? {
        return Err(combined.error);
      }
      newData := combined.value;
    }
    if req.exact > 0 && |newData| < req.exact {
      if |req.pad| == 0 {
        return Err(PadRequired);
      }
      newData := PadTo(newData, req.exact, req.pad, req.once);
    }
    r := Ok(newData);
  }

  // ---------------------------------------------------------------------------
  // What the clauses and the assembly promise

  /** An interleave goes through exactly when there is a second data set or
      pad data, the second data set is a whole number of second-size chunks,
      and a non-empty second set has as many chunks as the first. The result
      holds both sets: |first| + |second| bytes, or one pad run per chunk. */
  lemma CombinedAccepts(c: Chunking, second: seq<byte>, pad: seq<byte>, once: bool)
    requires WellChunked(c)
    ensures var m := |c.data| / c.first;
            && (Combined(c, second, pad, once).Ok? <==>
                  && (|second| > 0 || |pad| > 0)
                  && |second| % c.second == 0
                  && (|second| > 0 ==> |second| / c.second == m))
            && (Combined(c, second, pad, once).Ok? ==>
                  |Combined(c, second, pad, once).value| == |c.data| + (if |second| > 0 then |second| else m * c.second))
  {
    var m := |c.data| / c.first;
    ChunkCount(|c.data|, c.first);
    TimesIsProduct(m, c.second);
  }

  /** Block k of an interleave with a second data set, which starts after k
      chunks of each set, is chunk k of the first set followed by chunk k of
      the second. */
  lemma CombinedBlock(c: Chunking, second: seq<byte>, pad: seq<byte>, once: bool, k: nat, o1: nat, o2: nat)
    requires WellChunked(c) && |second| > 0 && Combined(c, second, pad, once).Ok?
    requires k < |c.data| / c.first && o1 == k * c.first && o2 == k * c.second
    ensures o1 + c.first <= |c.data| && o2 + c.second <= |second|
    ensures o1 + o2 + c.first + c.second <= |Combined(c, second, pad, once).value|
    ensures Combined(c, second, pad, once).value[o1 + o2..o1 + o2 + c.first + c.second]
            == c.data[o1..o1 + c.first] + second[o2..o2 + c.second]
  {
    var m := |c.data| / c.first;
    ChunkCount(|c.data|, c.first);
    ChunkCount(|second|, c.second);
    TimesIsProduct(k, c.first);
    TimesIsProduct(k, c.second);
    assert Combined(c, second, pad, once).value == Interleaved(c.data, second, c.first, c.second, m);
    InterleavedBlock(c.data, second, c.first, c.second, m, k, o1, o2);
  }

  /** Without a second data set, block k is chunk k of the first set
      followed by a pad run of n2 bytes that starts again from the first pad
      byte, whatever `once` did in the block before. */
  lemma CombinedPadBlock(c: Chunking, pad: seq<byte>, once: bool, k: nat, o1: nat, o2: nat)
    requires WellChunked(c) && Combined(c, [], pad, once).Ok?
    requires k < |c.data| / c.first && o1 == k * c.first && o2 == k * c.second
    ensures |pad| > 0 && o1 + c.first <= |c.data|
    ensures o1 + o2 + c.first + c.second <= |Combined(c, [], pad, once).value|
    ensures Combined(c, [], pad, once).value[o1 + o2..o1 + o2 + c.first + c.second]
            == c.data[o1..o1 + c.first] + PadRun(pad, once, c.second)
  {
    var m := |c.data| / c.first;
    ChunkCount(|c.data|, c.first);
    TimesIsProduct(k, c.first);
    TimesIsProduct(k, c.second);
    PadInterleavedBlock(c.data, pad, once, c.first, c.second, m, k, o1, o2);
  }

  /** Exact-length padding fails only for short data without pad data; short
      data is then padded to exactly `exactly` bytes, unchanged in front and
      pad byte j taken cyclically (with `once`: up to the last pad byte, which
      repeats); other data is left as it is. */
  lemma ExtendedMeaning(data: seq<byte>, exact: int, pad: seq<byte>, once: bool)
    ensures Extended(data, exact, pad, once).Err? <==> exact > 0 && |data| < exact && |pad| == 0
    ensures Extended(data, exact, pad, once).Err? ==> Extended(data, exact, pad, once).error == PadRequired
    ensures !(exact > 0 && |data| < exact) ==> Extended(data, exact, pad, once) == Ok(data)
    ensures exact > 0 && |data| < exact && |pad| > 0 ==>
              var r := Extended(data, exact, pad, once).value;
              && |r| == exact
              && r[..|data|] == data
              && forall j :: |data| <= j < exact ==>
                   r[j] == if once then pad[if j - |data| < |pad| - 1 then j - |data| else |pad| - 1]
                           else pad[(j - |data|) % |pad|]
  {
    if exact > 0 && |data| < exact && |pad| > 0 {
      PaddedMeaning(data, exact, pad, once);
    }
  }

  /** A numeric clause sets its field to its argument, and nothing else; an
      `at` argument is shifted by the address offset. */
  lemma NumericClause(tokens: seq<string>, i: nat, req: Request, offset: int, files: Files, f: Field)
    requires i < |tokens| && KindOf(tokens[i]) == Numeric(f)
    ensures i + 1 >= |tokens| ==> Clause(tokens, i, req, offset, files) == Err(MissingParameter)
    ensures i + 1 < |tokens| && Number(tokens[i + 1]).Ok? ==>
              var v := Number(tokens[i + 1]).value;
              && Clause(tokens, i, req, offset, files) == Ok((WithField(req, f, v, offset), i + 1))
              && (f == At ==> WithField(req, f, v, offset) == req.(at := v + offset))
  {
  }

  /** `1` reads as the number 1; InterleaveCommaAtEnd uses it for the sizes
      of its two example lines. */
  lemma OneReads()
    ensures Number("1") == Ok(1)
  {
    assert LayoutOf("1") == Layout(false, 1, 10, 0, 1);
    assert "1"[0..1] == "1";
    assert "1"[..0] == [];
    assert Scan([], 10) == Ok(0);
  }

  /** Written with a comma, an interleave's second size is refused when it is
      the last token of the line, although the same clause without the comma
      is accepted there: the comma branch asks for one token more than it
      uses. */
  lemma InterleaveCommaAtEnd(req: Request, files: Files)
    requires |req.readData| == 1 && req.from == 0 && req.to == -1 && req.count == -1
    requires req.max == -1 && req.exact == -1
    ensures InterleaveClause(["write", "interleave", "1", ",", "1"], 1, req, files) == Err(InterleaveArguments)
    ensures InterleaveClause(["write", "interleave", "1", "1"], 1, req, files).Ok?
  {
    OneReads();
    assert EqualsIgnoreCase(",", ",");
    assert !EqualsIgnoreCase("1", ",");
    assert Slice(req.readData, 0, -1, -1, -1, -1) == Ok(req.readData[0..1]);
  }
}
