/** Numeric literals (parse_number, globber.cpp:109-159 and 175-180): an
    optional `-`, an optional `0x`/`0b` prefix, digits with `_` separators and
    an optional trailing `k` (x1024) or `M` (x1048576). Values are unbounded
    integers: the source's `long` overflow is not modelled. */
module Numbers {
  import opened Common

  /** Where the parts of a numeric token lie: the digits are s[first..stop]. */
  datatype Layout = Layout(negative: bool, multiplier: nat, base: nat, first: nat, stop: nat)

  /** `str.compare(i, |p|, p) == 0`. */
  predicate PrefixAt(s: string, i: nat, p: string)
  {
    i + |p| <= |s| && s[i..i + |p|] == p
  }

  function LayoutOf(s: string): (f: Layout)
    requires |s| > 0
    ensures f.first <= f.stop <= |s|
    ensures f.base == 2 || f.base == 10 || f.base == 16
  {
    var negative := s[0] == '-';
    var start := if negative then 1 else 0;
    var last := s[|s| - 1];
    var multiplier := if last == 'k' then 1024 else if last == 'M' then 1048576 else 1;
    var stop := if last == 'k' || last == 'M' then |s| - 1 else |s|;
    var base := if PrefixAt(s, start, "0x") then 16 else if PrefixAt(s, start, "0b") then 2 else 10;
    var first := if base == 10 then start else start + 2;
    Layout(negative, multiplier, base, first, stop)
  }

  /** The digit loop: value = value * base + digit, left to right, skipping
      `_`; a character that is no digit of the base is an error. */
  function Scan(body: string, base: nat): (r: Result<nat>)
    requires 2 <= base <= 16
    ensures r.Err? ==> r.error == InvalidDigit
    decreases |body|
  {
    if body == [] then Ok(0)
    else
      var m :- Scan(body[..|body| - 1], base);
      var c := body[|body| - 1];
      if c == '_' then Ok(m)
      else
        var d := DigitValue(c);
        if d < 0 || d >= base then Err(InvalidDigit) else Ok(m * base + d)
  }

  /** The value of a numeric token. */
  function Number(s: string): (r: Result<int>)
  {
    if |s| == 0 then Err(EmptyNumber)
    else
      var f := LayoutOf(s);
      var m :- Scan(s[f.first..f.stop], f.base);
      Ok(if f.negative then -(m * f.multiplier) else m * f.multiplier)
  }

  /** An error in the digits read so far stays an error. */
  lemma {:induction false} ScanErrorPersists(body: string, k: nat, base: nat)
    requires 2 <= base <= 16 && k <= |body|
    requires Scan(body[..k], base).Err?
    ensures Scan(body, base).Err?
    decreases |body| - k
  {
    if k < |body| {
      assert body[..k + 1][..k] == body[..k];
      ScanErrorPersists(body, k + 1, base);
    } else {
      assert body[..k] == body;
    }
  }

  /** The source's loop over the digits of a token. */
  method ScanDigits(body: string, base: nat) returns (r: Result<nat>)
    requires 2 <= base <= 16
    ensures r == Scan(body, base)
  {
    var value: nat := 0;
    var index := 0;
    while index < |body|
      invariant 0 <= index <= |body|
      invariant Scan(body[..index], base) == Ok(value)
    {
      assert body[..index + 1] == body[..index] + [body[index]];
      if body[index] != '_' {
        var num := DigitValue(body[index]);
        if num < 0 || num >= base {
          ScanErrorPersists(body, index + 1, base);
          return Err(InvalidDigit);
        }
        ScanAppendChar(body[..index], body[index], base);
        value := value * base + num;
      } else {
        ScanAppendUnderscore(body[..index], base);
      }
      index := index + 1;
    }
    assert body[..index] == body;
    r := Ok(value);
  }

  /** parse_number(std::string&): sign, suffix and prefix, then the digits. */
  method ParseNumber(s: string) returns (r: Result<int>)
    ensures r == Number(s)
  {
    if |s| == 0 {
      return Err(EmptyNumber);
    }
    var negative := false;
    var start := 0;
    if s[start] == '-' {
      negative := true;
      start := start + 1;
    }
    var multiplier := 1;
    var stop := |s|;
    if s[|s| - 1] == 'k' {
      multiplier := 1024;
      stop := stop - 1;
    } else if s[|s| - 1] == 'M' {
      multiplier := 1024 * 1024;
      stop := stop - 1;
    }
    var base := 10;
    if PrefixAt(s, start, "0x") {
      base := 16;
      start := start + 2;
    } else if PrefixAt(s, start, "0b") {
      base := 2;
      start := start + 2;
    }
    assert LayoutOf(s) == Layout(negative, multiplier, base, start, stop);
    var value := ScanDigits(s[start..stop], base);
    if value.Err? {
      return Err(value.error);
    }
    var magnitude: int := value.value * multiplier;
    r := Ok(if negative then -magnitude else magnitude);
  }

  /** parse_number(tokens, index): the token at `i`, which must exist. */
  function Argument(tokens: seq<string>, i: nat): (r: Result<int>)
  {
    if i >= |tokens| then Err(MissingParameter) else Number(tokens[i])
  }

  method ParseArgument(tokens: seq<string>, i: nat) returns (r: Result<int>)
    ensures r == Argument(tokens, i)
    ensures i >= |tokens| ==> r == Err(MissingParameter)
  {
    if i >= |tokens| {
      return Err(MissingParameter);
    }
    r := ParseNumber(tokens[i]);
  }

  // ---------------------------------------------------------------------------
  // What the digit loop computes: the positional value of the digits

  function Pow(base: nat, n: nat): (r: nat)
  {
    if n == 0 then 1 else base * Pow(base, n - 1)
  }

  /** Sum over k of ds[k] * base^(|ds| - 1 - k). */
  function Positional(ds: seq<nat>, base: nat): (r: nat)
  {
    if ds == [] then 0 else ds[0] * Pow(base, |ds| - 1) + Positional(ds[1..], base)
  }

  /** The characters of a digit run are `_` or digits of the base. */
  predicate ValidDigits(body: string, base: nat)
  {
    forall i :: 0 <= i < |body| ==> body[i] == '_' || 0 <= DigitValue(body[i]) < base
  }

  /** The digit values of a digit run, `_` left out. */
  function DigitsOf(body: string): (r: seq<nat>)
    requires ValidDigits(body, 16)
  {
    if body == [] then []
    else
      var c := body[|body| - 1];
      DigitsOf(body[..|body| - 1]) + (if c == '_' then [] else [DigitValue(c) as nat])
  }

  lemma {:induction false} PositionalAppend(ds: seq<nat>, d: nat, base: nat)
    ensures Positional(ds + [d], base) == Positional(ds, base) * base + d
    decreases |ds|
  {
    if ds == [] {
      assert Positional([d], base) == d * Pow(base, 0) + Positional([], base);
    } else {
      assert (ds + [d])[1..] == ds[1..] + [d];
      PositionalAppend(ds[1..], d, base);
      var p := Pow(base, |ds| - 1);
      assert Pow(base, |ds|) == base * p;
      calc {
        Positional(ds + [d], base);
        ds[0] * (base * p) + Positional(ds[1..] + [d], base);
        ds[0] * (base * p) + Positional(ds[1..], base) * base + d;
        { assert ds[0] * (base * p) == (ds[0] * p) * base; }
        (ds[0] * p + Positional(ds[1..], base)) * base + d;
        Positional(ds, base) * base + d;
      }
    }
  }

  lemma {:induction false} ScanAccepts(body: string, base: nat)
    requires 2 <= base <= 16
    ensures Scan(body, base).Ok? <==> ValidDigits(body, base)
    decreases |body|
  {
    if body != [] {
      var init := body[..|body| - 1];
      assert body == init + [body[|body| - 1]];
      ScanAccepts(init, base);
    }
  }

  /** One step of the digit loop. */
  lemma ScanLast(body: string, base: nat)
    requires 2 <= base <= 16 && body != []
    requires Scan(body, base).Ok?
    ensures var init := body[..|body| - 1];
            var c := body[|body| - 1];
            && Scan(init, base).Ok?
            && (c == '_' ==> Scan(body, base).value == Scan(init, base).value)
            && (c != '_' ==> 0 <= DigitValue(c) < base &&
                             Scan(body, base).value == Scan(init, base).value * base + DigitValue(c))
  {
  }

  /** The digit loop accepts exactly the runs of valid digits, and yields the
      positional value of their digits; `_` characters are ignored. */
  lemma {:induction false} ScanMeaning(body: string, base: nat)
    requires 2 <= base <= 16
    ensures Scan(body, base).Ok? <==> ValidDigits(body, base)
    ensures Scan(body, base).Ok? ==> Scan(body, base).value == Positional(DigitsOf(body), base)
    decreases |body|
  {
    ScanAccepts(body, base);
    if body != [] && Scan(body, base).Ok? {
      var init := body[..|body| - 1];
      var c := body[|body| - 1];
      ScanLast(body, base);
      ScanAccepts(init, base);
      ScanMeaning(init, base);
      var m := Scan(init, base).value;
      var ds := DigitsOf(init);
      assert m == Positional(ds, base);
      if c == '_' {
        assert DigitsOf(body) == ds;
      } else {
        var d := DigitValue(c) as nat;
        assert DigitsOf(body) == ds + [d];
        PositionalAppend(ds, d, base);
        assert Scan(body, base).value == m * base + d;
      }
    }
  }

  /** A `_` anywhere among the digits leaves the value unchanged. */
  lemma {:induction false} UnderscoreIgnored(a: string, b: string, base: nat)
    requires 2 <= base <= 16
    ensures Scan(a + ['_'] + b, base) == Scan(a + b, base)
    decreases |b|
  {
    if b == [] {
      assert (a + ['_'] + b)[..|a| + 1 - 1] == a;
      assert a + b == a;
    } else {
      var init := b[..|b| - 1];
      assert (a + ['_'] + b)[..|a + ['_'] + b| - 1] == a + ['_'] + init;
      assert (a + b)[..|a + b| - 1] == a + init;
      UnderscoreIgnored(a, init, base);
    }
  }

  /** A numeric token is accepted exactly when it is non-empty and every
      character between prefix and suffix is `_` or a digit of the base; its
      value is then +/- multiplier * the positional value of the digits. */
  lemma NumberMeaning(s: string)
    requires |s| > 0
    ensures var f := LayoutOf(s);
            var body := s[f.first..f.stop];
            && (Number(s).Ok? <==> ValidDigits(body, f.base))
            && (Number(s).Ok? ==>
                  var v := Positional(DigitsOf(body), f.base) * f.multiplier;
                  Number(s).value == if f.negative then -v else v)
  {
    var f := LayoutOf(s);
    ScanMeaning(s[f.first..f.stop], f.base);
  }

  // ---------------------------------------------------------------------------
  // Round trip: a number written in any base, with any suffix, reads back

  datatype Radix = Decimal | Hexadecimal | Binary
  datatype Suffix = NoSuffix | Kilo | Mega

  function BaseOf(radix: Radix): (r: nat)
  {
    match radix
    case Decimal => 10
    case Hexadecimal => 16
    case Binary => 2
  }

  function PrefixOf(radix: Radix): (r: string)
  {
    match radix
    case Decimal => ""
    case Hexadecimal => "0x"
    case Binary => "0b"
  }

  function MultiplierOf(suffix: Suffix): (r: nat)
  {
    match suffix
    case NoSuffix => 1
    case Kilo => 1024
    case Mega => 1048576
  }

  function SuffixText(suffix: Suffix): (r: string)
  {
    match suffix
    case NoSuffix => ""
    case Kilo => "k"
    case Mega => "M"
  }

  /** Digit values that a base admits. */
  predicate DigitsBelow(ds: seq<nat>, base: nat)
  {
    forall k :: 0 <= k < |ds| ==> ds[k] < base
  }

  /** The digit characters for digit values, upper case. */
  function DigitChars(ds: seq<nat>): (r: string)
    requires DigitsBelow(ds, 16)
    ensures |r| == |ds|
    decreases |ds|
  {
    if ds == [] then [] else DigitChars(ds[..|ds| - 1]) + [Digits[ds[|ds| - 1]]]
  }

  /** Character k of the digit characters is the table entry for digit k. */
  lemma {:induction false} DigitCharsAt(ds: seq<nat>, k: nat)
    requires DigitsBelow(ds, 16) && k < |ds|
    ensures DigitChars(ds)[k] == Digits[ds[k]]
    decreases |ds|
  {
    if k < |ds| - 1 {
      DigitCharsAt(ds[..|ds| - 1], k);
    }
  }

  /** How a script writes the digits `ds`, without a sign. */
  function Unsigned(ds: seq<nat>, radix: Radix, suffix: Suffix): (r: string)
    requires DigitsBelow(ds, BaseOf(radix))
  {
    PrefixOf(radix) + DigitChars(ds) + SuffixText(suffix)
  }

  /** How a script writes the number with digits `ds`. */
  function Numeral(ds: seq<nat>, radix: Radix, suffix: Suffix, negative: bool): (r: string)
    requires DigitsBelow(ds, BaseOf(radix))
  {
    (if negative then "-" else "") + Unsigned(ds, radix, suffix)
  }

  lemma ScanAppendUnderscore(init: string, base: nat)
    requires 2 <= base <= 16
    ensures Scan(init + ['_'], base) == Scan(init, base)
  {
    var body := init + ['_'];
    assert body[..|body| - 1] == init;
  }

  lemma ScanAppendChar(init: string, c: char, base: nat)
    requires 2 <= base <= 16 && 0 <= DigitValue(c) < base
    requires Scan(init, base).Ok?
    ensures Scan(init + [c], base) == Ok(Scan(init, base).value * base + DigitValue(c))
  {
    var body := init + [c];
    assert body[..|body| - 1] == init;
  }

  lemma ScanAppendDigit(init: string, d: nat, base: nat, v: nat)
    requires 2 <= base <= 16 && d < base
    requires Scan(init, base) == Ok(v)
    ensures Scan(init + [Digits[d]], base) == Ok(v * base + d)
  {
    DigitTableReadsBack(d);
    ScanAppendChar(init, Digits[d], base);
  }

  /** The digit loop reads digit characters back as their positional value. */
  lemma {:induction false} DigitCharsScan(ds: seq<nat>, base: nat)
    requires 2 <= base <= 16 && DigitsBelow(ds, base)
    ensures Scan(DigitChars(ds), base) == Ok(Positional(ds, base))
    decreases |ds|
  {
    if ds != [] {
      var init := ds[..|ds| - 1];
      var d := ds[|ds| - 1];
      assert ds == init + [d];
      DigitCharsScan(init, base);
      var v := Positional(init, base);
      ScanAppendDigit(DigitChars(init), d, base, v);
      PositionalAppend(init, d, base);
      assert DigitChars(ds) == DigitChars(init) + [Digits[d]];
      assert Positional(ds, base) == v * base + d;
    }
  }

  lemma DigitCharsAreDigits(ds: seq<nat>, base: nat, k: nat)
    requires 2 <= base <= 16 && DigitsBelow(ds, base) && k < |ds|
    ensures 0 <= DigitValue(DigitChars(ds)[k]) < base
  {
    DigitCharsAt(ds, k);
    DigitTableReadsBack(ds[k]);
  }

  /** The characters that bracket an unsigned numeral (the `x` of `0x`, a
      `k` or `M` suffix, a sign) are not digits, and `b` is the digit 11;
      UnsignedFirst, UnsignedLast and UnsignedPrefix use this to tell the
      digits apart from what surrounds them. */
  lemma DigitsExclude()
    ensures DigitValue('x') < 0 && DigitValue('k') < 0 && DigitValue('M') < 0 && DigitValue('-') < 0
    ensures DigitValue('b') == 11
  {
  }

  /** Where an unsigned numeral's digits lie, and how it ends. */
  lemma UnsignedEnds(ds: seq<nat>, radix: Radix, suffix: Suffix)
    requires |ds| > 0 && DigitsBelow(ds, BaseOf(radix))
    ensures var u := Unsigned(ds, radix, suffix);
            var digits := DigitChars(ds);
            var p := |PrefixOf(radix)|;
            && |u| == p + |digits| + |SuffixText(suffix)|
            && u[0] != '-'
            && (u[|u| - 1] == 'k' <==> suffix == Kilo)
            && (u[|u| - 1] == 'M' <==> suffix == Mega)
            && u[p..p + |digits|] == digits
  {
    UnsignedFirst(ds, radix, suffix);
    UnsignedLast(ds, radix, suffix);
    MiddleSlice([], PrefixOf(radix), DigitChars(ds), SuffixText(suffix));
    EmptyPrefix(Unsigned(ds, radix, suffix));
  }

  lemma UnsignedFirst(ds: seq<nat>, radix: Radix, suffix: Suffix)
    requires |ds| > 0 && DigitsBelow(ds, BaseOf(radix))
    ensures Unsigned(ds, radix, suffix)[0] != '-'
  {
    var u := Unsigned(ds, radix, suffix);
    DigitsExclude();
    DigitCharsAreDigits(ds, BaseOf(radix), 0);
    if radix == Decimal { assert u[0] == DigitChars(ds)[0]; }
  }

  lemma UnsignedLast(ds: seq<nat>, radix: Radix, suffix: Suffix)
    requires |ds| > 0 && DigitsBelow(ds, BaseOf(radix))
    ensures var u := Unsigned(ds, radix, suffix);
            && (u[|u| - 1] == 'k' <==> suffix == Kilo)
            && (u[|u| - 1] == 'M' <==> suffix == Mega)
  {
    var u := Unsigned(ds, radix, suffix);
    var digits := DigitChars(ds);
    DigitsExclude();
    DigitCharsAreDigits(ds, BaseOf(radix), |ds| - 1);
    if suffix == NoSuffix {
      assert u[|u| - 1] == digits[|digits| - 1];
    }
  }

  /** The base an unsigned numeral's prefix announces. */
  lemma UnsignedPrefix(ds: seq<nat>, radix: Radix, suffix: Suffix)
    requires |ds| > 0 && DigitsBelow(ds, BaseOf(radix))
    ensures var u := Unsigned(ds, radix, suffix);
            && (PrefixAt(u, 0, "0x") <==> radix == Hexadecimal)
            && (PrefixAt(u, 0, "0b") <==> radix == Binary)
  {
    var u := Unsigned(ds, radix, suffix);
    var digits := DigitChars(ds);
    var sfx := SuffixText(suffix);
    if radix == Decimal {
      if 2 <= |u| {
        DigitsExclude();
        assert u[1] != 'x' && u[1] != 'b' by {
          if |digits| > 1 {
            DigitCharsAreDigits(ds, 10, 1);
            assert u[1] == digits[1];
          } else {
            assert u[1] == sfx[0];
          }
        }
        assert u[..2] != "0x" && u[..2] != "0b";
      }
    } else {
      assert u[..2] == PrefixOf(radix);
    }
  }

  lemma SliceAfter(a: string, b: string, i: nat, j: nat)
    requires i <= j <= |b|
    ensures (a + b)[|a| + i..|a| + j] == b[i..j]
  {
  }

  /** LayoutOf, read off the sign, the suffix character and the prefix. */
  lemma LayoutIs(s: string, negative: bool, radix: Radix, suffix: Suffix)
    requires |s| > 0
    requires s[0] == '-' <==> negative
    requires s[|s| - 1] == 'k' <==> suffix == Kilo
    requires s[|s| - 1] == 'M' <==> suffix == Mega
    requires var start := if negative then 1 else 0;
             && (PrefixAt(s, start, "0x") <==> radix == Hexadecimal)
             && (PrefixAt(s, start, "0b") <==> radix == Binary)
    ensures var first := (if negative then 1 else 0) + |PrefixOf(radix)|;
            LayoutOf(s) == Layout(negative, MultiplierOf(suffix), BaseOf(radix), first, |s| - |SuffixText(suffix)|)
  {
  }

  lemma PrefixAfter(a: string, b: string, p: string)
    ensures PrefixAt(a + b, |a|, p) <==> PrefixAt(b, 0, p)
  {
    if |a| + |p| <= |a + b| {
      SliceAfter(a, b, 0, |p|);
    }
  }

  /** A sign in front of an unsigned numeral: what LayoutOf looks at. */
  lemma SignedFacts(sign: string, u: string, negative: bool)
    requires sign == (if negative then "-" else "")
    requires |u| > 0 && u[0] != '-'
    ensures var s := sign + u;
            && |s| > 0
            && (s[0] == '-' <==> negative)
            && s[|s| - 1] == u[|u| - 1]
            && (PrefixAt(s, |sign|, "0x") <==> PrefixAt(u, 0, "0x"))
            && (PrefixAt(s, |sign|, "0b") <==> PrefixAt(u, 0, "0b"))
  {
    var s := sign + u;
    if !negative {
      assert s == u;
    }
    PrefixAfter(sign, u, "0x");
    PrefixAfter(sign, u, "0b");
  }

  lemma NumeralLayout(ds: seq<nat>, radix: Radix, suffix: Suffix, negative: bool)
    requires |ds| > 0 && DigitsBelow(ds, BaseOf(radix))
    ensures var s := Numeral(ds, radix, suffix, negative);
            var first := (if negative then 1 else 0) + |PrefixOf(radix)|;
            && |s| > 0
            && LayoutOf(s) == Layout(negative, MultiplierOf(suffix), BaseOf(radix), first, first + |ds|)
  {
    var u := Unsigned(ds, radix, suffix);
    var sign := if negative then "-" else "";
    UnsignedEnds(ds, radix, suffix);
    UnsignedPrefix(ds, radix, suffix);
    SignedFacts(sign, u, negative);
    var s := sign + u;
    assert |sign| == (if negative then 1 else 0);
    assert s[|s| - 1] == 'k' <==> suffix == Kilo;
    assert s[|s| - 1] == 'M' <==> suffix == Mega;
    LayoutIs(s, negative, radix, suffix);
  }

  lemma NumeralDigitsAt(ds: seq<nat>, radix: Radix, suffix: Suffix, negative: bool)
    requires |ds| > 0 && DigitsBelow(ds, BaseOf(radix))
    ensures var s := Numeral(ds, radix, suffix, negative);
            var first := (if negative then 1 else 0) + |PrefixOf(radix)|;
            first + |ds| <= |s| && s[first..first + |ds|] == DigitChars(ds)
  {
    MiddleSlice(if negative then "-" else "", PrefixOf(radix), DigitChars(ds), SuffixText(suffix));
  }

  /** The third of four joined pieces, cut back out. */
  lemma MiddleSlice<T>(w: seq<T>, x: seq<T>, y: seq<T>, z: seq<T>)
    ensures var s := w + (x + y + z);
            && |w| + |x| + |y| <= |s|
            && s[|w| + |x|..|w| + |x| + |y|] == y
  {
    assert w + (x + y + z) == (w + x) + y + z;
  }

  /** Writing digits in decimal, hexadecimal or binary, with or without a
      `k`/`M` suffix and a sign, and parsing the result gives back
      +/- multiplier * the positional value of the digits. */
  lemma NumeralRoundTrip(ds: seq<nat>, radix: Radix, suffix: Suffix, negative: bool)
    requires |ds| > 0 && DigitsBelow(ds, BaseOf(radix))
    ensures Number(Numeral(ds, radix, suffix, negative)) == Ok(Signed(negative, Positional(ds, BaseOf(radix)) * MultiplierOf(suffix)))
  {
    var first := (if negative then 1 else 0) + |PrefixOf(radix)|;
    NumeralScans(ds, radix, suffix, negative);
    NumberOfLayout(Numeral(ds, radix, suffix, negative), negative, MultiplierOf(suffix), BaseOf(radix),
                   first, first + |ds|, Positional(ds, BaseOf(radix)));
  }

  lemma NumeralScans(ds: seq<nat>, radix: Radix, suffix: Suffix, negative: bool)
    requires |ds| > 0 && DigitsBelow(ds, BaseOf(radix))
    ensures var s := Numeral(ds, radix, suffix, negative);
            var first := (if negative then 1 else 0) + |PrefixOf(radix)|;
            && |s| > 0
            && LayoutOf(s) == Layout(negative, MultiplierOf(suffix), BaseOf(radix), first, first + |ds|)
            && Scan(s[first..first + |ds|], BaseOf(radix)) == Ok(Positional(ds, BaseOf(radix)))
  {
    NumeralLayout(ds, radix, suffix, negative);
    NumeralDigitsAt(ds, radix, suffix, negative);
    DigitCharsScan(ds, BaseOf(radix));
  }

  lemma NumberOfLayout(s: string, negative: bool, multiplier: nat, base: nat, first: nat, stop: nat, m: nat)
    requires |s| > 0 && LayoutOf(s) == Layout(negative, multiplier, base, first, stop)
    requires Scan(s[first..stop], base) == Ok(m)
    ensures Number(s) == Ok(Signed(negative, m * multiplier))
  {
  }

  function Signed(negative: bool, v: int): (r: int)
  {
    if negative then -v else v
  }
}
