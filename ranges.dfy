/** Range resolution (check_offsets, globber.cpp:290-326) and the two places
    a resolved range is read from: bytes already read by `data`/`hex`, and a
    named file (read_file, globber.cpp:328-343). "Unset" is encoded as in the
    source: `to` <= 0, `bytes` < 0, `max` and `exactly` <= 0. */
module Ranges {
  import opened Common

  /** The count check_offsets leaves in `countBytes`, or the error it throws. */
  function CheckOffsets(from: int, to: int, count: int, size: int, max: int, exact: int): (r: Result<int>)
    ensures r.Ok? ==> r.value >= 0
  {
    if from > size then Err(FromPastEnd)
    else
      var requested :-
        if to > 0 then
          if to <= from then Err(ToBeforeFrom)
          else if to > size then Err(ToPastEnd)
          else if count > 0 then Err(ToAndBytes)
          else Ok(to - from)
        else Ok(count);
      var resolved :-
        if requested > 0 then
          if requested > size - from then Err(CountPastEnd) else Ok(requested)
        else if requested == 0 then Err(ZeroLength)
        else Ok(size - from);
      if max > 0 && max < resolved then Err(ExceedsMax)
      else if exact > 0 && exact < resolved then Err(ExceedsExact)
      else Ok(resolved)
  }

  /** The length a range asks for, by the rules of the script language:
      `to` wins, then `bytes`, then everything from `from` on. */
  function Requested(from: int, to: int, count: int, size: int): (r: int)
  {
    if to > 0 then to - from else if count > 0 then count else size - from
  }

  /** When a range is acceptable, stated without the order of the checks. */
  predicate Acceptable(from: int, to: int, count: int, size: int, max: int, exact: int)
  {
    var n := Requested(from, to, count, size);
    && from <= size
    && (to > 0 ==> from < to <= size && count <= 0)
    && (to <= 0 ==> count != 0)
    && n <= size - from
    && (max > 0 ==> n <= max)
    && (exact > 0 ==> n <= exact)
  }

  /** check_offsets accepts exactly the acceptable ranges, and then yields the
      requested length. */
  lemma CheckOffsetsMeaning(from: int, to: int, count: int, size: int, max: int, exact: int)
    ensures CheckOffsets(from, to, count, size, max, exact).Ok? <==> Acceptable(from, to, count, size, max, exact)
    ensures CheckOffsets(from, to, count, size, max, exact).Ok? ==>
              CheckOffsets(from, to, count, size, max, exact).value == Requested(from, to, count, size)
  {
  }

  /** On success the range lies inside the input; it is empty only when it
      starts at the very end and neither `to` nor `bytes` was given. */
  lemma CheckOffsetsBounds(from: int, to: int, count: int, size: int, max: int, exact: int)
    requires from >= 0
    requires CheckOffsets(from, to, count, size, max, exact).Ok?
    ensures var n := CheckOffsets(from, to, count, size, max, exact).value;
            && 0 <= n && from + n <= size
            && (to > 0 || count > 0 ==> n > 0)
            && (to > 0 ==> n == to - from)
            && (to <= 0 && count > 0 ==> n == count)
            && (to <= 0 && count < 0 ==> n == size - from)
            && (max > 0 ==> n <= max)
            && (exact > 0 ==> n <= exact)
  {
  }

  /** Which error check_offsets reports, in the order it checks. */
  lemma CheckOffsetsErrors(from: int, to: int, count: int, size: int, max: int, exact: int)
    ensures from > size ==> CheckOffsets(from, to, count, size, max, exact) == Err(FromPastEnd)
    ensures from <= size && to > 0 && to <= from ==> CheckOffsets(from, to, count, size, max, exact) == Err(ToBeforeFrom)
    ensures from <= size && to > 0 && from < to && to > size ==> CheckOffsets(from, to, count, size, max, exact) == Err(ToPastEnd)
    ensures from <= size && to > 0 && from < to <= size && count > 0 ==> CheckOffsets(from, to, count, size, max, exact) == Err(ToAndBytes)
    ensures from <= size && to <= 0 && count == 0 ==> CheckOffsets(from, to, count, size, max, exact) == Err(ZeroLength)
    ensures from <= size && to <= 0 && count > size - from ==> CheckOffsets(from, to, count, size, max, exact) == Err(CountPastEnd)
  {
  }

  /** An empty range is accepted: `from` at the very end, neither `to` nor
      `bytes` given. */
  lemma EmptyRangeAccepted(size: int)
    ensures CheckOffsets(size, -1, -1, size, -1, -1) == Ok(0)
  {
  }

  /** `readData[from .. from + count]` after check_offsets. A negative `from`
      is undefined behaviour in the source; the model stops with an error. */
  function Slice(data: seq<byte>, from: int, to: int, count: int, max: int, exact: int): (r: Result<seq<byte>>)
    ensures r.Ok? ==> CheckOffsets(from, to, count, |data|, max, exact) == Ok(|r.value|)
  {
    var n :- CheckOffsets(from, to, count, |data|, max, exact);
    if from < 0 then Err(NegativeFrom)
    else
      CheckOffsetsBounds(from, to, count, |data|, max, exact);
      Ok(data[from..from + n])
  }

  /** The files a script may name, by name; a name that is absent is a file
      that cannot be opened. */
  type Files = map<string, seq<byte>>

  /** The size read_file sees: a stream that failed to open reports -1. */
  function FileSize(files: Files, name: string): (r: int)
  {
    if name in files then |files[name]| else -1
  }

  function Zeros(n: nat): (r: seq<byte>)
    ensures |r| == n && forall k :: 0 <= k < n ==> r[k] == 0
  {
    seq(n, k => 0)
  }

  /** read_file: check the range against the file's size, then read `count`
      bytes from `from`. When the stream cannot seek there (it failed to open,
      or `from` is negative) nothing is read and the buffer keeps its zeros. */
  function ReadFile(files: Files, name: string, from: int, to: int, count: int, max: int, exact: int): (r: Result<seq<byte>>)
  {
    var n :- CheckOffsets(from, to, count, FileSize(files, name), max, exact);
    if name in files && from >= 0 then
      CheckOffsetsBounds(from, to, count, |files[name]|, max, exact);
      Ok(files[name][from..from + n])
    else Ok(Zeros(n))
  }

  /** Reading a file is reading the same range of its contents. */
  lemma ReadFileIsSlice(files: Files, name: string, from: int, to: int, count: int, max: int, exact: int)
    requires name in files && from >= 0
    ensures ReadFile(files, name, from, to, count, max, exact) == Slice(files[name], from, to, count, max, exact)
  {
  }

  /** A file that cannot be opened is rejected for every `from` >= 0. */
  lemma MissingFileRejected(files: Files, name: string, from: int, to: int, count: int, max: int, exact: int)
    requires name !in files && from >= 0
    ensures ReadFile(files, name, from, to, count, max, exact) == Err(FromPastEnd)
  {
  }
}
