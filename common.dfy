/** Shared vocabulary of the Globber interpreter: bytes, the error taxonomy,
    a failure-compatible result type and the ASCII character helpers that the
    source takes from <cctype>. */
module Common {

  /** One byte of data (std::byte in the source). */
  type byte = x: int | 0 <= x < 256

  /** The kinds of "invalid script" error the interpreter raises. Every
      exception thrown by the source becomes one of these; the message text is
      not modelled. */
  datatype Error =
    // numeric literals
    | EmptyNumber | InvalidDigit | MissingParameter
    // data and hex blocks
    | OutOfRange | OddHexBlock
    // range resolution
    | FromPastEnd | ToBeforeFrom | ToPastEnd | ToAndBytes | ZeroLength | CountPastEnd
    | ExceedsMax | ExceedsExact | NegativeFrom
    // clause parsing
    | UnknownAction | UnexpectedToken | TrailingToken | NegativeOffset | MissingFilename
    // interleave and padding
    | InterleaveArguments | InterleaveSize | InterleaveNoInput | InterleaveFirstMultiple
    | InterleaveNoSecond | InterleaveSecondMultiple | InterleaveChunkCount | PadRequired
    // buffer editing
    | AppendWithAt | InsertWithoutAt | InsertBeyondEnd | WriteWithoutAt | WriteBeyondEnd

  /** The result of an operation that may throw. */
  datatype Result<+T> = Ok(value: T) | Err(error: Error) {
    predicate IsFailure() { Err? }
    function PropagateFailure<U>(): Result<U> requires Err? { Err(error) }
    function Extract(): T requires Ok? { value }
  }

  datatype Option<+T> = None | Some(value: T)

  /** tolower in the "C" locale. */
  function Lower(c: char): (r: char)
    ensures 'A' <= c <= 'Z' ==> r as int == c as int + 32
    ensures !('A' <= c <= 'Z') ==> r == c
  {
    if 'A' <= c <= 'Z' then (c as int + 32) as char else c
  }

  /** toupper in the "C" locale. */
  function Upper(c: char): (r: char)
    ensures 'a' <= c <= 'z' ==> r as int == c as int - 32
    ensures !('a' <= c <= 'z') ==> r == c
  {
    if 'a' <= c <= 'z' then (c as int - 32) as char else c
  }

  /** The digit table the source searches (globber.cpp:30). */
  const Digits: string := "0123456789ABCDEF"

  /** `digits.find(toupper(c))` with the not-found position read as -1. */
  function DigitValue(c: char): (r: int)
    ensures -1 <= r < 16
  {
    if '0' <= c <= '9' then c as int - '0' as int
    else if 'A' <= c <= 'F' then c as int - 'A' as int + 10
    else if 'a' <= c <= 'f' then c as int - 'a' as int + 10
    else -1
  }

  /** DigitValue is the position of the upper-cased character in the table,
      or -1 when it is not there. */
  lemma DigitValueFinds(c: char)
    ensures DigitValue(c) >= 0 ==> Digits[DigitValue(c)] == Upper(c)
    ensures DigitValue(c) < 0 ==> Upper(c) !in Digits
  {
  }

  /** Every entry of the digit table reads back as its own position. */
  lemma DigitTableReadsBack(d: nat)
    requires d < 16
    ensures DigitValue(Digits[d]) == d
  {
    if d < 10 {
      assert Digits[d] as int == '0' as int + d;
    } else {
      assert Digits[d] as int == 'A' as int + d - 10;
    }
  }

  /** equalsIgnoreCase: same length and equal after tolower, position by position. */
  function EqualsIgnoreCase(a: string, b: string): (r: bool)
    ensures r <==> |a| == |b| && forall i :: 0 <= i < |a| ==> Lower(a[i]) == Lower(b[i])
  {
    if |a| != |b| then false
    else if |a| == 0 then true
    else
      Lower(a[0]) == Lower(b[0]) && EqualsIgnoreCase(a[1..], b[1..])
  }

  /** Appending the first element of `s` and then the rest appends `s`. */
  lemma FirstThenRest<T>(acc: seq<T>, s: seq<T>)
    requires |s| > 0
    ensures acc + [s[0]] + s[1..] == acc + s
  {
    assert [s[0]] + s[1..] == s;
  }

  /** Nothing in front of a sequence leaves it as it is; used where a
      sequence built from an empty accumulator is compared with its parts
      (UnsignedEnds and ListedReadsFromStart). */
  lemma EmptyPrefix<T>(s: seq<T>)
    ensures [] + s == s
  {
  }

  /** The byte a script character stands for (`(std::byte)ch`). */
  function CharByte(c: char): (r: byte)
  {
    c as int % 256
  }
}
