/** The two inline data readers: `hex` blocks (read_hex, globber.cpp:182-199)
    and typed data lists (read_data, globber.cpp:201-288). */
module DataBlocks {
  import opened Common
  import opened Numbers
  import opened Lexer

  // ---------------------------------------------------------------------------
  // Hex blocks

  /** One byte from two digit characters: `((high << 4) & 0xF0) | (low & 0x0F)`,
      where a character missing from the digit table has position -1, so the
      mask turns it into the nibble 15. */
  function PairByte(high: char, low: char): (r: byte)
  {
    (DigitValue(high) % 16) * 16 + DigitValue(low) % 16
  }

  /** The bytes of the first |s|/2 digit pairs of `s`. */
  function Pairs(s: string): (r: seq<byte>)
    ensures |r| == |s| / 2
  {
    seq(|s| / 2, k requires 0 <= k < |s| / 2 => PairByte(s[2 * k], s[2 * k + 1]))
  }

  /** A hex block: an even number of digits, two per byte, high nibble first. */
  function HexBlock(s: string): (r: Result<seq<byte>>)
  {
    if |s| % 2 == 1 then Err(OddHexBlock) else Ok(Pairs(s))
  }

  function HexArgument(tokens: seq<string>, index: nat): (r: Result<seq<byte>>)
  {
    if index >= |tokens| then Err(MissingParameter) else HexBlock(tokens[index])
  }

  /** read_hex: the loop over digit pairs. The caller's index is left on the
      hex token itself. */
  method ReadHex(tokens: seq<string>, index: nat) returns (r: Result<seq<byte>>)
    ensures r == HexArgument(tokens, index)
  {
    if index >= |tokens| {
      return Err(MissingParameter);
    }
    var str := tokens[index];
    var result: seq<byte> := [];
    var i := 0;
    while i < |str|
      invariant 0 <= i <= |str| && i % 2 == 0
      invariant |result| == i / 2
      invariant forall k :: 0 <= k < |result| ==> result[k] == PairByte(str[2 * k], str[2 * k + 1])
    {
      if i + 1 == |str| {
        return Err(OddHexBlock);
      }
      result := result + [PairByte(str[i], str[i + 1])];
      i := i + 2;
    }
    assert result == Pairs(str);
    r := Ok(result);
  }

  /** The value a character contributes as a nibble. */
  function Nibble(c: char): (r: nat)
    ensures r < 16
  {
    if DigitValue(c) >= 0 then DigitValue(c) else 15
  }

  /** read_hex accepts exactly the even-length blocks; byte i is
      16 * hex(s[2i]) + hex(s[2i+1]), a non-digit counting as 15. */
  lemma HexBlockMeaning(s: string)
    ensures HexBlock(s).Ok? <==> |s| % 2 == 0
    ensures HexBlock(s).Ok? ==>
              |HexBlock(s).value| == |s| / 2 &&
              forall k :: 0 <= k < |s| / 2 ==> HexBlock(s).value[k] == Nibble(s[2 * k]) * 16 + Nibble(s[2 * k + 1])
  {
    if |s| % 2 == 0 {
      forall k | 0 <= k < |s| / 2
        ensures HexBlock(s).value[k] == Nibble(s[2 * k]) * 16 + Nibble(s[2 * k + 1])
      {
        NibbleMask(s[2 * k]);
        NibbleMask(s[2 * k + 1]);
      }
    }
  }

  lemma NibbleMask(c: char)
    ensures DigitValue(c) % 16 == Nibble(c)
  {
  }

  /** How a byte sequence is written as a hex block: upper-case digits. */
  function HexText(bs: seq<byte>): (r: string)
    ensures |r| == 2 * |bs|
  {
    seq(2 * |bs|, j requires 0 <= j < 2 * |bs| => if j % 2 == 0 then Digits[bs[j / 2] / 16] else Digits[bs[j / 2] % 16])
  }

  /** Writing bytes as a hex block and reading it back gives the same bytes. */
  lemma HexRoundTrip(bs: seq<byte>)
    ensures HexBlock(HexText(bs)) == Ok(bs)
  {
    var s := HexText(bs);
    forall k | 0 <= k < |bs|
      ensures Pairs(s)[k] == bs[k]
    {
      assert s[2 * k] == Digits[bs[k] / 16];
      assert s[2 * k + 1] == Digits[bs[k] % 16];
      PairOfDigits(bs[k]);
    }
    assert Pairs(s) == bs;
  }

  /** The two table digits of a byte combine back into the byte. */
  lemma PairOfDigits(b: byte)
    ensures PairByte(Digits[b / 16], Digits[b % 16]) == b
  {
    DigitTableReadsBack(b / 16);
    DigitTableReadsBack(b % 16);
  }

  // ---------------------------------------------------------------------------
  // Value encoding

  datatype Width = Bytes | Words | Longs

  /** `(value >> 8k) & 0xFF`: the source's shifts are arithmetic, that is
      floor division, and the mask is the remainder modulo 256. */
  function ByteAt(v: int, k: nat): (r: byte)
    decreases k
  {
    if k == 0 then v % 256 else ByteAt(v / 256, k - 1)
  }

  /** The first `n` bytes of `v`, least significant first. */
  function LowBytes(v: int, n: nat): (r: seq<byte>)
    ensures |r| == n
  {
    seq(n, k requires 0 <= k < n => ByteAt(v, k))
  }

  function Reverse(s: seq<byte>): (r: seq<byte>)
    ensures |r| == |s|
    ensures forall k :: 0 <= k < |s| ==> r[k] == s[|s| - 1 - k]
  {
    if s == [] then [] else Reverse(s[1..]) + [s[0]]
  }

  function InOrder(lowFirst: seq<byte>, littleEndian: bool): (r: seq<byte>)
  {
    if littleEndian then lowFirst else Reverse(lowFirst)
  }

  /** One value in the current mode: range-checked for bytes and words, never
      for longs. */
  function Encode(v: int, w: Width, littleEndian: bool): (r: Result<seq<byte>>)
  {
    match w
    case Bytes => if v > 0xFF || v < -0x80 then Err(OutOfRange) else Ok([ByteAt(v, 0)])
    case Words => if v > 0xFFFF || v < -0x8000 then Err(OutOfRange) else Ok(InOrder(LowBytes(v, 2), littleEndian))
    case Longs => Ok(InOrder(LowBytes(v, 4), littleEndian))
  }

  /** The switch on the mode in read_data. */
  method EncodeValue(v: int, w: Width, littleEndian: bool) returns (r: Result<seq<byte>>)
    ensures r == Encode(v, w, littleEndian)
  {
    ShiftsAreBytes(v);
    var result: seq<byte> := [];
    match w {
      case Bytes =>
        if v > 0xFF || v < -0x80 {
          return Err(OutOfRange);
        }
        result := result + [v % 256];
        assert result == [ByteAt(v, 0)];
      case Words =>
        if v > 0xFFFF || v < -0x8000 {
          return Err(OutOfRange);
        }
        if littleEndian {
          result := result + [v % 256];
          result := result + [(v / 256) % 256];
        } else {
          result := result + [(v / 256) % 256];
          result := result + [v % 256];
        }
        assert LowBytes(v, 2) == [ByteAt(v, 0), ByteAt(v, 1)];
        assert result == InOrder(LowBytes(v, 2), littleEndian);
      case Longs =>
        if littleEndian {
          result := result + [v % 256];
          result := result + [(v / 256) % 256];
          result := result + [(v / 65536) % 256];
          result := result + [(v / 16777216) % 256];
        } else {
          result := result + [(v / 16777216) % 256];
          result := result + [(v / 65536) % 256];
          result := result + [(v / 256) % 256];
          result := result + [v % 256];
        }
        assert LowBytes(v, 4) == [ByteAt(v, 0), ByteAt(v, 1), ByteAt(v, 2), ByteAt(v, 3)];
        assert result == InOrder(LowBytes(v, 4), littleEndian);
    }
    r := Ok(result);
  }

  /** The byte at k is the value shifted right by 8k bits and masked. */
  lemma ShiftsAreBytes(v: int)
    ensures ByteAt(v, 0) == v % 256
    ensures ByteAt(v, 1) == (v / 256) % 256
    ensures ByteAt(v, 2) == (v / 65536) % 256
    ensures ByteAt(v, 3) == (v / 16777216) % 256
  {
    assert v / 256 / 256 == v / 65536;
    assert v / 256 / 256 / 256 == v / 16777216;
  }

  /** The unsigned number a byte sequence stands for, least significant first. */
  function LittleValue(bs: seq<byte>): (r: nat)
  {
    if bs == [] then 0 else bs[0] + 256 * LittleValue(bs[1..])
  }

  lemma WordBytes(v: int)
    ensures v % 65536 == ByteAt(v, 0) + 256 * ByteAt(v, 1)
  {
  }

  lemma UpperHalf(v: int)
    ensures ByteAt(v, 2) == ByteAt(v / 65536, 0) && ByteAt(v, 3) == ByteAt(v / 65536, 1)
  {
    assert v / 256 / 256 == v / 65536;
  }

  lemma HalvesCombine(v: int)
    ensures v % 4294967296 == v % 65536 + 65536 * ((v / 65536) % 65536)
  {
  }

  lemma LongBytes(v: int)
    ensures v % 4294967296 == ByteAt(v, 0) + 256 * ByteAt(v, 1) + 65536 * ByteAt(v, 2) + 16777216 * ByteAt(v, 3)
  {
    UpperHalf(v);
    WordBytes(v);
    WordBytes(v / 65536);
    HalvesCombine(v);
  }

  lemma LittleTwo(a: byte, b: byte)
    ensures LittleValue([a, b]) == a + 256 * b
  {
    assert [a, b][1..] == [b];
    assert [b][1..] == [];
    assert LittleValue([b]) == b + 256 * LittleValue([]);
  }

  lemma LittleFour(a: byte, b: byte, c: byte, d: byte)
    ensures LittleValue([a, b, c, d]) == a + 256 * b + 65536 * c + 16777216 * d
  {
    assert [a, b, c, d][1..] == [b, c, d];
    assert [b, c, d][1..] == [c, d];
    LittleTwo(c, d);
  }

  lemma ReverseTwice(s: seq<byte>)
    ensures Reverse(Reverse(s)) == s
  {
  }

  /** Byte mode takes exactly the values in [-128, 255] and emits value mod 256. */
  lemma EncodeByte(v: int, littleEndian: bool)
    ensures Encode(v, Bytes, littleEndian).Ok? <==> -128 <= v <= 255
    ensures Encode(v, Bytes, littleEndian).Ok? ==> Encode(v, Bytes, littleEndian).value == [v % 256]
  {
  }

  /** Word mode takes exactly the values in [-32768, 65535] and emits the two
      bytes of value mod 65536, low byte first when little-endian and high
      byte first when big-endian. */
  lemma EncodeWord(v: int, littleEndian: bool)
    ensures Encode(v, Words, littleEndian).Ok? <==> -32768 <= v <= 65535
    ensures Encode(v, Words, littleEndian).Ok? ==>
              var bs := Encode(v, Words, littleEndian).value;
              |bs| == 2 && LittleValue(InOrder(bs, littleEndian)) == v % 65536
  {
    var low := LowBytes(v, 2);
    if -32768 <= v <= 65535 {
      assert low == [ByteAt(v, 0), ByteAt(v, 1)];
      WordBytes(v);
      LittleTwo(ByteAt(v, 0), ByteAt(v, 1));
      ReverseTwice(low);
    }
  }

  /** Long mode takes every value and emits the four bytes of value mod 2^32,
      low byte first when little-endian and high byte first when big-endian. */
  lemma EncodeLong(v: int, littleEndian: bool)
    ensures Encode(v, Longs, littleEndian).Ok?
    ensures var bs := Encode(v, Longs, littleEndian).value;
            |bs| == 4 && LittleValue(InOrder(bs, littleEndian)) == v % 4294967296
  {
    var low := LowBytes(v, 4);
    assert low == [ByteAt(v, 0), ByteAt(v, 1), ByteAt(v, 2), ByteAt(v, 3)];
    LongBytes(v);
    LittleFour(ByteAt(v, 0), ByteAt(v, 1), ByteAt(v, 2), ByteAt(v, 3));
    ReverseTwice(low);
  }

  // ---------------------------------------------------------------------------
  // Typed data lists

  /** The mode keywords a data list may contain, matched without regard to case. */
  datatype Setting = SetWidth(w: Width) | SetOrder(littleEndian: bool)

  function KeywordOf(t: string): (r: Option<Setting>)
  {
    if EqualsIgnoreCase(t, "word") then Some(SetWidth(Words))
    else if EqualsIgnoreCase(t, "long") then Some(SetWidth(Longs))
    else if EqualsIgnoreCase(t, "byte") then Some(SetWidth(Bytes))
    else if EqualsIgnoreCase(t, "le") then Some(SetOrder(true))
    else if EqualsIgnoreCase(t, "be") then Some(SetOrder(false))
    else None
  }

  /** The keyword tests of read_data, in the source's order. The five
      keywords differ in length or first letter, so a token matches at most
      one of them and the order of the tests does not matter. */
  method MatchKeyword(t: string) returns (r: Option<Setting>)
    ensures r == KeywordOf(t)
    ensures EqualsIgnoreCase(t, "word") ==> r == Some(SetWidth(Words))
    ensures EqualsIgnoreCase(t, "long") ==> r == Some(SetWidth(Longs))
    ensures EqualsIgnoreCase(t, "byte") ==> r == Some(SetWidth(Bytes))
    ensures EqualsIgnoreCase(t, "le") ==> r == Some(SetOrder(true))
    ensures EqualsIgnoreCase(t, "be") ==> r == Some(SetOrder(false))
    ensures r == None <==> !(EqualsIgnoreCase(t, "word") || EqualsIgnoreCase(t, "long")
                             || EqualsIgnoreCase(t, "byte") || EqualsIgnoreCase(t, "le")
                             || EqualsIgnoreCase(t, "be"))
  {
    if EqualsIgnoreCase(t, "word") {
      r := Some(SetWidth(Words));
    } else if EqualsIgnoreCase(t, "long") {
      r := Some(SetWidth(Longs));
    } else if EqualsIgnoreCase(t, "byte") {
      r := Some(SetWidth(Bytes));
    } else if EqualsIgnoreCase(t, "le") {
      r := Some(SetOrder(true));
    } else if EqualsIgnoreCase(t, "be") {
      r := Some(SetOrder(false));
    } else {
      r := None;
    }
  }

  /** A value token: parsed, then encoded in the current mode. */
  function ValueBytes(t: string, w: Width, littleEndian: bool): (r: Result<seq<byte>>)
  {
    var v :- Number(t);
    Encode(v, w, littleEndian)
  }

  /** The value branch of read_data: parse_number, then the switch on the mode. */
  method ReadValue(t: string, w: Width, littleEndian: bool) returns (r: Result<seq<byte>>)
    ensures r == ValueBytes(t, w, littleEndian)
  {
    var value := ParseNumber(t);
    if value.Err? {
      return Err(value.error);
    }
    r := EncodeValue(value.value, w, littleEndian);
  }

  predicate IsQuoted(t: string)
  {
    |t| > 0 && t[0] == '"'
  }

  function CharBytes(s: string): (r: seq<byte>)
    ensures |r| == |s|
  {
    seq(|s|, k requires 0 <= k < |s| => CharByte(s[k]))
  }

  /** The bytes of a quoted token: `substr(1, length - 2)`, the characters
      between the first and the last; a lone quote mark has none. */
  function TextBytes(t: string): (r: seq<byte>)
  {
    if |t| >= 2 then CharBytes(t[1..|t| - 1]) else []
  }

  /** The loop of read_data from token `i` on, with the current mode, byte
      order and the bytes produced so far. The result holds all bytes and the
      index of the last token consumed. */
  function Items(ts: seq<string>, i: nat, w: Width, littleEndian: bool, acc: seq<byte>): (r: Result<(seq<byte>, nat)>)
    requires 0 < |ts| && i <= |ts|
    ensures r.Ok? ==> r.value.1 < |ts| && (i < |ts| ==> i <= r.value.1) && acc <= r.value.0
    decreases |ts| - i, 2
  {
    if i == |ts| then Ok((acc, i - 1)) else Item(ts, i, w, littleEndian, acc)
  }

  /** The token at `i`. A value or a quoted text continues the list only when
      a comma token follows it; a mode keyword always moves on to the next
      token. */
  function Item(ts: seq<string>, i: nat, w: Width, littleEndian: bool, acc: seq<byte>): (r: Result<(seq<byte>, nat)>)
    requires i < |ts|
    ensures r.Ok? ==> i <= r.value.1 < |ts| && acc <= r.value.0
    decreases |ts| - i, 1
  {
    var t := ts[i];
    if IsQuoted(t) then
      Continue(ts, i, w, littleEndian, acc + TextBytes(t))
    else
      match KeywordOf(t)
      case Some(SetWidth(w')) => Items(ts, i + 1, w', littleEndian, acc)
      case Some(SetOrder(le)) => Items(ts, i + 1, w, le, acc)
      case None =>
        var bytes :- ValueBytes(t, w, littleEndian);
        Continue(ts, i, w, littleEndian, acc + bytes)
  }

  /** After the item at `i`: on to i + 2 when a comma follows, otherwise stop
      with `i` as the last token consumed. */
  function Continue(ts: seq<string>, i: nat, w: Width, littleEndian: bool, acc: seq<byte>): (r: Result<(seq<byte>, nat)>)
    requires i < |ts|
    ensures r.Ok? ==> i <= r.value.1 < |ts| && acc <= r.value.0
    decreases |ts| - i, 0
  {
    if i + 1 < |ts| && ts[i + 1] == "," then Items(ts, i + 2, w, littleEndian, acc)
    else Ok((acc, i))
  }

  /** read_data at `index`: bytes mode, little-endian, nothing read yet. */
  function Data(ts: seq<string>, index: nat): (r: Result<(seq<byte>, nat)>)
  {
    if index >= |ts| then Err(MissingParameter) else Items(ts, index, Bytes, true, [])
  }

  /** Copies the characters of a quoted text into the result. */
  method PushText(result: seq<byte>, txt: string) returns (r: seq<byte>)
    ensures r == result + CharBytes(txt)
  {
    r := result;
    for k := 0 to |txt|
      invariant r == result + CharBytes(txt[..k])
    {
      assert CharBytes(txt[..k + 1]) == CharBytes(txt[..k]) + [CharByte(txt[k])];
      r := r + [CharByte(txt[k])];
    }
    assert txt[..|txt|] == txt;
  }

  /** read_data: returns the bytes and the index of the last token consumed,
      where the source leaves the caller's index. */
  method ReadData(tokens: seq<string>, start: nat) returns (r: Result<(seq<byte>, nat)>)
    ensures r == Data(tokens, start)
  {
    if start >= |tokens| {
      return Err(MissingParameter);
    }
    var result: seq<byte> := [];
    var mode := Bytes;
    var littleEndian := true;
    var index := start;
    while index < |tokens|
      invariant start <= index <= |tokens|
      invariant Data(tokens, start) == Items(tokens, index, mode, littleEndian, result)
      decreases |tokens| - index
    {
      var done;
      done, index, mode, littleEndian, result := ReadItem(tokens, index, mode, littleEndian, result);
      if done.Some? {
        return done.value;
      }
    }
    r := Ok((result, index - 1));
  }

  /** One pass of the read_data loop over the token at `index`: either the
      list ends here (with its bytes or an error), or it goes on at a later
      token with the mode, byte order and bytes updated. */
  method ReadItem(tokens: seq<string>, index: nat, mode: Width, littleEndian: bool, result: seq<byte>)
    returns (done: Option<Result<(seq<byte>, nat)>>, index': nat, mode': Width, littleEndian': bool, result': seq<byte>)
    requires index < |tokens|
    ensures done.Some? ==> done.value == Items(tokens, index, mode, littleEndian, result)
    ensures done.None? ==> index < index' <= |tokens|
    ensures done.None? ==> Items(tokens, index, mode, littleEndian, result) == Items(tokens, index', mode', littleEndian', result')
  {
    done, index', mode', littleEndian', result' := None, index, mode, littleEndian, result;
    var t := tokens[index];
    if IsQuoted(t) {
      done, index', result' := ReadText(tokens, index, mode, littleEndian, result);
      if done.None? {
        index' := index' + 1;
      }
    } else {
      var setting := MatchKeyword(t);
      match setting {
        case Some(SetWidth(w)) =>
          ItemsWidth(tokens, index, mode, littleEndian, result, w);
          mode' := w;
          index' := index + 1;
        case Some(SetOrder(le)) =>
          ItemsOrder(tokens, index, mode, littleEndian, result, le);
          littleEndian' := le;
          index' := index + 1;
        case None =>
          done, index', result' := ReadNumber(tokens, index, mode, littleEndian, result);
          if done.None? {
            index' := index' + 1;
          }
      }
    }
  }

  /** The quoted-text branch of read_data: copy the text, then step onto the
      comma that must follow or end the list. */
  method ReadText(tokens: seq<string>, index: nat, mode: Width, littleEndian: bool, result: seq<byte>)
    returns (done: Option<Result<(seq<byte>, nat)>>, index': nat, result': seq<byte>)
    requires index < |tokens| && IsQuoted(tokens[index])
    ensures done.Some? ==> done.value == Items(tokens, index, mode, littleEndian, result)
    ensures done.None? ==> index' == index + 1 && index' < |tokens|
    ensures done.None? ==> Items(tokens, index, mode, littleEndian, result) == Items(tokens, index' + 1, mode, littleEndian, result')
  {
    var t := tokens[index];
    var txt := if |t| >= 2 then t[1..|t| - 1] else "";
    ItemsText(tokens, index, mode, littleEndian, result);
    result' := PushText(result, txt);
    done, index' := AfterItem(tokens, index, mode, littleEndian, result');
  }

  /** The value branch of read_data: parse and encode, then step onto the
      comma that must follow or end the list. */
  method ReadNumber(tokens: seq<string>, index: nat, mode: Width, littleEndian: bool, result: seq<byte>)
    returns (done: Option<Result<(seq<byte>, nat)>>, index': nat, result': seq<byte>)
    requires index < |tokens| && !IsQuoted(tokens[index]) && KeywordOf(tokens[index]) == None
    ensures done.Some? ==> done.value == Items(tokens, index, mode, littleEndian, result)
    ensures done.None? ==> index' == index + 1 && index' < |tokens|
    ensures done.None? ==> Items(tokens, index, mode, littleEndian, result) == Items(tokens, index' + 1, mode, littleEndian, result')
  {
    ItemsValue(tokens, index, mode, littleEndian, result);
    var bytes := ReadValue(tokens[index], mode, littleEndian);
    if bytes.Err? {
      return Some(Err(bytes.error)), index, result;
    }
    result' := result + bytes.value;
    done, index' := AfterItem(tokens, index, mode, littleEndian, result');
  }

  /** After an item: `index++`, and the list ends unless that token is a comma. */
  method AfterItem(tokens: seq<string>, index: nat, mode: Width, littleEndian: bool, result: seq<byte>)
    returns (done: Option<Result<(seq<byte>, nat)>>, index': nat)
    requires index < |tokens|
    ensures index' == index + 1
    ensures done.Some? ==> done.value == Continue(tokens, index, mode, littleEndian, result)
    ensures done.None? ==> index' < |tokens|
    ensures done.None? ==> Continue(tokens, index, mode, littleEndian, result) == Items(tokens, index' + 1, mode, littleEndian, result)
  {
    index' := index + 1;
    if index' >= |tokens| || tokens[index'] != "," {
      return Some(Ok((result, index' - 1))), index';
    }
    done := None;
  }

  /** A quoted text adds its bytes and then continues or stops. */
  lemma ItemsText(ts: seq<string>, i: nat, w: Width, littleEndian: bool, acc: seq<byte>)
    requires i < |ts| && IsQuoted(ts[i])
    ensures var t := ts[i];
            Items(ts, i, w, littleEndian, acc) ==
              Continue(ts, i, w, littleEndian, acc + CharBytes(if |t| >= 2 then t[1..|t| - 1] else ""))
  {
    assert CharBytes("") == [];
  }

  /** A width keyword changes the mode and moves on. */
  lemma ItemsWidth(ts: seq<string>, i: nat, w: Width, littleEndian: bool, acc: seq<byte>, w': Width)
    requires i < |ts| && !IsQuoted(ts[i]) && KeywordOf(ts[i]) == Some(SetWidth(w'))
    ensures Items(ts, i, w, littleEndian, acc) == Items(ts, i + 1, w', littleEndian, acc)
  {
  }

  /** A byte-order keyword changes the order and moves on. */
  lemma ItemsOrder(ts: seq<string>, i: nat, w: Width, littleEndian: bool, acc: seq<byte>, le: bool)
    requires i < |ts| && !IsQuoted(ts[i]) && KeywordOf(ts[i]) == Some(SetOrder(le))
    ensures Items(ts, i, w, littleEndian, acc) == Items(ts, i + 1, w, le, acc)
  {
  }

  /** A value is parsed and encoded in the current mode, which may fail, and
      then the list continues or stops. */
  lemma ItemsValue(ts: seq<string>, i: nat, w: Width, littleEndian: bool, acc: seq<byte>)
    requires i < |ts| && !IsQuoted(ts[i]) && KeywordOf(ts[i]) == None
    ensures var v := ValueBytes(ts[i], w, littleEndian);
            && (v.Err? ==> Items(ts, i, w, littleEndian, acc) == Err(v.error))
            && (v.Ok? ==> Items(ts, i, w, littleEndian, acc) == Continue(ts, i, w, littleEndian, acc + v.value))
  {
  }

  /** Without a comma after it, an item ends the list. */
  lemma ContinueStop(ts: seq<string>, i: nat, w: Width, littleEndian: bool, acc: seq<byte>)
    requires i < |ts| && !(i + 1 < |ts| && ts[i + 1] == ",")
    ensures Continue(ts, i, w, littleEndian, acc) == Ok((acc, i))
  {
  }

  // ---------------------------------------------------------------------------
  // What a data list reads

  /** Every mode keyword starts with a letter. */
  lemma KeywordStartsWithLetter(t: string)
    requires KeywordOf(t).Some?
    ensures |t| > 0 && ('a' <= Lower(t[0]) <= 'z')
  {
  }

  /** How a byte is written in a data list: `0x` and two hex digits. */
  function ByteToken(b: byte): (r: string)
  {
    Numeral([b / 16, b % 16], Hexadecimal, NoSuffix, false)
  }

  /** A data list reads a byte's token as the byte. */
  lemma ByteTokenReads(b: byte)
    ensures ReadsAsByte(ByteToken(b), b)
  {
    ByteTokenPlain(b);
    ByteTokenValue(b);
  }

  /** A byte's token is neither a quoted text nor a mode keyword. */
  lemma ByteTokenPlain(b: byte)
    ensures !IsQuoted(ByteToken(b)) && KeywordOf(ByteToken(b)) == None
  {
    var t := ByteToken(b);
    assert t[0] == '0';
    if KeywordOf(t).Some? {
      KeywordStartsWithLetter(t);
    }
  }

  /** A byte's token parses back as the byte. */
  lemma ByteTokenValue(b: byte)
    ensures Number(ByteToken(b)) == Ok(b)
  {
    NumeralRoundTrip([b / 16, b % 16], Hexadecimal, NoSuffix, false);
    HexDigitsValue(b);
  }

  /** The two hex digits of a byte, read positionally, give the byte. */
  lemma HexDigitsValue(b: byte)
    ensures Positional([b / 16, b % 16], 16) == b
  {
    assert Positional([b % 16], 16) == b % 16;
    assert Positional([b / 16, b % 16], 16) == b / 16 * 16 + b % 16;
  }

  /** A token that a data list in byte mode reads as the value `b`. */
  predicate ReadsAsByte(t: string, b: byte)
  {
    !IsQuoted(t) && KeywordOf(t) == None && Number(t) == Ok(b)
  }

  /** Each token reads as the byte at the same position. */
  predicate ReadAsBytes(toks: seq<string>, bs: seq<byte>)
  {
    |toks| == |bs| && forall k :: 0 <= k < |toks| ==> ReadsAsByte(toks[k], bs[k])
  }

  /** Tokens separated by comma tokens. */
  function Listed<T>(toks: seq<T>, comma: T): (r: seq<T>)
    requires |toks| > 0
    ensures |r| == 2 * |toks| - 1
    decreases |toks|
  {
    if |toks| == 1 then [toks[0]] else [toks[0], comma] + Listed(toks[1..], comma)
  }

  /** One byte value at `i`, in byte mode. */
  lemma ByteItem(ts: seq<string>, i: nat, b: byte, littleEndian: bool, acc: seq<byte>)
    requires i < |ts| && ReadsAsByte(ts[i], b)
    ensures Items(ts, i, Bytes, littleEndian, acc) == Continue(ts, i, Bytes, littleEndian, acc + [b])
  {
    EncodeByte(b, littleEndian);
  }

  /** After an item, a comma token moves the list on to the token after it. */
  lemma ContinueAtComma(ts: seq<string>, i: nat, w: Width, littleEndian: bool, acc: seq<byte>)
    requires i + 1 < |ts| && ts[i + 1] == ","
    ensures Continue(ts, i, w, littleEndian, acc) == Items(ts, i + 2, w, littleEndian, acc)
  {
  }

  /** A listed sequence of one token is that token. */
  lemma ListedOne<T>(pre: seq<T>, toks: seq<T>, comma: T)
    requires |toks| == 1
    ensures var ts := pre + Listed(toks, comma);
            |ts| == |pre| + 1 && ts[|pre|] == toks[0]
  {
    assert Listed(toks, comma) == [toks[0]];
  }

  /** A listed sequence of several tokens is the first token, a comma, and
      the rest listed. */
  lemma ListedMore<T>(pre: seq<T>, toks: seq<T>, comma: T)
    requires |toks| > 1
    ensures var ts := pre + Listed(toks, comma);
            && |pre| + 1 < |ts| && ts[|pre|] == toks[0] && ts[|pre| + 1] == comma
            && ts == (pre + [toks[0], comma]) + Listed(toks[1..], comma)
  {
    var rest := Listed(toks[1..], comma);
    assert Listed(toks, comma) == [toks[0], comma] + rest;
    assert pre + ([toks[0], comma] + rest) == (pre + [toks[0], comma]) + rest;
  }

  /** In byte mode, a comma-separated list of byte values reads back as
      those bytes, and the last token consumed is the last value. */
  lemma {:induction false} ListedReads(pre: seq<string>, toks: seq<string>, bs: seq<byte>, littleEndian: bool, acc: seq<byte>)
    requires |bs| > 0 && ReadAsBytes(toks, bs)
    ensures var ts := pre + Listed(toks, ",");
            Items(ts, |pre|, Bytes, littleEndian, acc) == Ok((acc + bs, |ts| - 1))
    decreases |toks|
  {
    var ts := pre + Listed(toks, ",");
    var b := bs[0];
    if |toks| == 1 {
      ListedOne(pre, toks, ",");
      ByteItem(ts, |pre|, b, littleEndian, acc);
      assert Continue(ts, |pre|, Bytes, littleEndian, acc + [b]) == Ok((acc + [b], |pre|));
      assert bs == [b];
    } else {
      ListedMore(pre, toks, ",");
      ByteItem(ts, |pre|, b, littleEndian, acc);
      var pre' := pre + [toks[0], ","];
      ContinueAtComma(ts, |pre|, Bytes, littleEndian, acc + [b]);
      ListedReads(pre', toks[1..], bs[1..], littleEndian, acc + [b]);
      FirstThenRest(acc, bs);
    }
  }

  /** Bytes written as a comma-separated list of `0x..` values. */
  function ByteList(bs: seq<byte>): (r: seq<string>)
    requires |bs| > 0
  {
    Listed(ByteTokens(bs), ",")
  }

  /** The `0x..` token of each byte. */
  function ByteTokens(bs: seq<byte>): (r: seq<string>)
    ensures |r| == |bs| && forall k :: 0 <= k < |bs| ==> r[k] == ByteToken(bs[k])
  {
    seq(|bs|, k requires 0 <= k < |bs| => ByteToken(bs[k]))
  }

  lemma ByteTokensRead(bs: seq<byte>, toks: seq<string>)
    requires |toks| == |bs| && forall k :: 0 <= k < |bs| ==> toks[k] == ByteToken(bs[k])
    ensures ReadAsBytes(toks, bs)
  {
    forall k | 0 <= k < |bs|
      ensures ReadsAsByte(toks[k], bs[k])
    {
      ByteTokenReads(bs[k]);
    }
  }

  /** A data list of byte values, written in hex, reads back as those bytes;
      the last token consumed is the last value. */
  lemma ByteListReads(bs: seq<byte>)
    requires |bs| > 0
    ensures Data(ByteList(bs), 0) == Ok((bs, 2 * |bs| - 2))
  {
    var toks := ByteTokens(bs);
    ByteTokensRead(bs, toks);
    ListedReadsFromStart(toks, bs);
  }

  /** ListedReads for a list that starts at the first token, in the initial
      byte order. */
  lemma ListedReadsFromStart(toks: seq<string>, bs: seq<byte>)
    requires |bs| > 0 && ReadAsBytes(toks, bs)
    ensures Data(Listed(toks, ","), 0) == Ok((bs, 2 * |bs| - 2))
  {
    ListedReads([], toks, bs, true, []);
    EmptyPrefix(Listed(toks, ","));
    EmptyPrefix(bs);
  }

  /** A quoted text on its own reads as the bytes of its characters. */
  lemma QuotedTextReads(q: string)
    ensures Data([Quote(q)], 0) == Ok((CharBytes(q), 0))
  {
    var t := Quote(q);
    assert t[0] == '"' && t[1..|t| - 1] == q;
    assert TextBytes(t) == CharBytes(q);
    assert Items([t], 0, Bytes, true, []) == Continue([t], 0, Bytes, true, [] + CharBytes(q));
    assert [] + CharBytes(q) == CharBytes(q);
  }

  /** `data` lists start in byte mode, little-endian: a single value token is
      range-checked as a byte. */
  lemma DataStartsInByteMode(t: string)
    requires !IsQuoted(t) && KeywordOf(t) == None && Number(t).Ok?
    ensures Data([t], 0).Ok? <==> -128 <= Number(t).value <= 255
    ensures Data([t], 0).Ok? ==> Data([t], 0).value == ([Number(t).value % 256], 0)
  {
    var v := Number(t).value;
    EncodeByte(v, true);
    if -128 <= v <= 255 {
      assert Items([t], 0, Bytes, true, []) == Continue([t], 0, Bytes, true, [] + [v % 256]);
      assert [] + [v % 256] == [v % 256];
    } else {
      assert Items([t], 0, Bytes, true, []) == Err(OutOfRange);
    }
  }
}
