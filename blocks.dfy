/** The two byte-block builders inside process_tokens: interleaving two
    data sets chunk by chunk (globber.cpp:496-530), and padding data out to an
    exact length (globber.cpp:535-549). */
module Blocks {
  import opened Common

  // ---------------------------------------------------------------------------
  // Two-set interleave

  /** k * n, counted up one n at a time, so that chunk offsets stay linear. */
  ghost function Times(k: nat, n: nat): (r: nat)
  {
    if k == 0 then 0 else Times(k - 1, n) + n
  }

  lemma {:induction false} TimesIsProduct(k: nat, n: nat)
    ensures Times(k, n) == k * n
    decreases k
  {
    if k > 0 {
      TimesIsProduct(k - 1, n);
      assert k * n == (k - 1) * n + n;
    }
  }

  /** `m` chunks of `n1` bytes of `a`, each followed by the matching chunk of
      `n2` bytes of `b`; the last pair of chunks ends the result. */
  function Interleaved<T>(a: seq<T>, b: seq<T>, n1: nat, n2: nat, m: nat): (r: seq<T>)
    requires |a| == Times(m, n1) && |b| == Times(m, n2)
    ensures |r| == |a| + |b|
    decreases m
  {
    if m == 0 then []
    else Interleaved(a[..|a| - n1], b[..|b| - n2], n1, n2, m - 1) + a[|a| - n1..] + b[|b| - n2..]
  }

  /** Adding one chunk to each set adds one block at the end. */
  lemma InterleavedAppend<T>(a: seq<T>, b: seq<T>, x: seq<T>, y: seq<T>, n1: nat, n2: nat, m: nat)
    requires |a| == Times(m, n1) && |b| == Times(m, n2) && |x| == n1 && |y| == n2
    ensures |a + x| == Times(m + 1, n1) && |b + y| == Times(m + 1, n2)
    ensures Interleaved(a + x, b + y, n1, n2, m + 1) == Interleaved(a, b, n1, n2, m) + x + y
  {
    assert (a + x)[..|a + x| - n1] == a && (a + x)[|a + x| - n1..] == x;
    assert (b + y)[..|b + y| - n2] == b && (b + y)[|b + y| - n2..] == y;
  }

  /** Chunk k + 1 still lies inside the data when k < m. */
  lemma {:induction false} TimesStep(k: nat, m: nat, n: nat)
    requires k < m
    ensures Times(k, n) + n <= Times(m, n)
    decreases m
  {
    if k < m - 1 {
      TimesStep(k, m - 1, n);
    }
  }

  /** Once k chunks cover all m, k is m. */
  lemma {:induction false} TimesEnd(k: nat, m: nat, n: nat)
    requires n > 0 && k <= m && Times(k, n) >= Times(m, n)
    ensures k == m
  {
    if k < m {
      TimesStep(k, m, n);
    }
  }

  /** Block k of the result, which starts after k chunks of each set (at
      o1 + o2, where o1 = Times(k, n1) = k * n1 and o2 = Times(k, n2)), is
      chunk k of `a` followed by chunk k of `b`. */
  lemma {:induction false} InterleavedBlock<T>(a: seq<T>, b: seq<T>, n1: nat, n2: nat, m: nat, k: nat, o1: nat, o2: nat)
    requires |a| == Times(m, n1) && |b| == Times(m, n2) && k < m
    requires o1 == Times(k, n1) && o2 == Times(k, n2)
    ensures o1 + n1 <= |a| && o2 + n2 <= |b|
    ensures Interleaved(a, b, n1, n2, m)[o1 + o2..o1 + o2 + n1 + n2] == a[o1..o1 + n1] + b[o2..o2 + n2]
    decreases m
  {
    TimesStep(k, m, n1);
    TimesStep(k, m, n2);
    var a', b' := a[..|a| - n1], b[..|b| - n2];
    var x, y := a[|a| - n1..], b[|b| - n2..];
    var front := Interleaved(a', b', n1, n2, m - 1);
    if k < m - 1 {
      InterleavedBlock(a', b', n1, n2, m - 1, k, o1, o2);
      TimesStep(k, m - 1, n1);
      TimesStep(k, m - 1, n2);
      EarlierBlock(Interleaved(a, b, n1, n2, m), front, x, y, a, a', b, b', o1, o2, n1, n2);
    } else {
      LastBlock(Interleaved(a, b, n1, n2, m), front, x, y, a, b, o1, o2, n1, n2);
    }
  }

  /** A block inside the front part of `front + x + y`, read from prefixes
      of `a` and `b`, reads the same from `a` and `b` themselves. */
  lemma EarlierBlock<T>(whole: seq<T>, front: seq<T>, x: seq<T>, y: seq<T>, a: seq<T>, a': seq<T>, b: seq<T>, b': seq<T>,
                        o1: nat, o2: nat, n1: nat, n2: nat)
    requires whole == front + x + y && o1 + o2 + n1 + n2 <= |front|
    requires |a'| <= |a| && a' == a[..|a'|] && o1 + n1 <= |a'|
    requires |b'| <= |b| && b' == b[..|b'|] && o2 + n2 <= |b'|
    requires front[o1 + o2..o1 + o2 + n1 + n2] == a'[o1..o1 + n1] + b'[o2..o2 + n2]
    ensures whole[o1 + o2..o1 + o2 + n1 + n2] == a[o1..o1 + n1] + b[o2..o2 + n2]
  {
    assert whole[o1 + o2..o1 + o2 + n1 + n2] == front[o1 + o2..o1 + o2 + n1 + n2];
    assert a'[o1..o1 + n1] == a[o1..o1 + n1];
    assert b'[o2..o2 + n2] == b[o2..o2 + n2];
  }

  /** The block after `front` in `front + x + y` is `x + y`, the last chunks
      of `a` and `b`. */
  lemma LastBlock<T>(whole: seq<T>, front: seq<T>, x: seq<T>, y: seq<T>, a: seq<T>, b: seq<T>,
                     o1: nat, o2: nat, n1: nat, n2: nat)
    requires whole == front + x + y && |front| == o1 + o2
    requires |a| == o1 + n1 && x == a[o1..] && |b| == o2 + n2 && y == b[o2..]
    ensures o1 + o2 + n1 + n2 <= |whole|
    ensures whole[o1 + o2..o1 + o2 + n1 + n2] == a[o1..o1 + n1] + b[o2..o2 + n2]
  {
    assert whole[o1 + o2..o1 + o2 + n1 + n2] == x + y;
    assert a[o1..] == a[o1..o1 + n1] && b[o2..] == b[o2..o2 + n2];
  }

  /** A length that is a whole number of chunks is that many chunks. */
  lemma ChunkCount(len: nat, n: nat)
    requires n > 0 && len % n == 0
    ensures len == Times(len / n, n)
  {
    TimesIsProduct(len / n, n);
  }

  /** The state after one more pass of an interleave loop. */
  lemma InterleaveStep<T>(a: seq<T>, b: seq<T>, n1: nat, n2: nat, m: nat, k: nat, index: nat, secondIndex: nat, r: seq<T>, r': seq<T>)
    requires n1 > 0 && |a| == Times(m, n1) && |b| == Times(m, n2)
    requires k < m && index == Times(k, n1) && secondIndex == Times(k, n2)
    requires index + n1 <= |a| && secondIndex + n2 <= |b|
    requires r == Interleaved(a[..index], b[..secondIndex], n1, n2, k)
    requires r' == r + a[index..index + n1] + b[secondIndex..secondIndex + n2]
    ensures index + n1 == Times(k + 1, n1) && secondIndex + n2 == Times(k + 1, n2)
    ensures r' == Interleaved(a[..index + n1], b[..secondIndex + n2], n1, n2, k + 1)
  {
    InterleavedAppend(a[..index], b[..secondIndex], a[index..index + n1], b[secondIndex..secondIndex + n2], n1, n2, k);
    assert a[..index] + a[index..index + n1] == a[..index + n1];
    assert b[..secondIndex] + b[secondIndex..secondIndex + n2] == b[..secondIndex + n2];
  }

  /** The two-set interleave loop of process_tokens. */
  method Interleave(a: seq<byte>, b: seq<byte>, n1: nat, n2: nat, ghost m: nat) returns (r: seq<byte>)
    requires n1 > 0 && |a| == Times(m, n1) && |b| == Times(m, n2)
    ensures r == Interleaved(a, b, n1, n2, m)
  {
    r := [];
    var secondIndex := 0;
    var index := 0;
    ghost var k := 0;
    while index < |a|
      invariant k <= m && index == Times(k, n1) && secondIndex == Times(k, n2)
      invariant index <= |a| && secondIndex <= |b|
      invariant r == Interleaved(a[..index], b[..secondIndex], n1, n2, k)
      decreases |a| - index
    {
      ChunksLeft(k, m, n1, n2);
      ghost var before := r;
      r := r + a[index..index + n1];
      r := r + b[secondIndex..secondIndex + n2];
      InterleaveStep(a, b, n1, n2, m, k, index, secondIndex, before, r);
      secondIndex := secondIndex + n2;
      index := index + n1;
      k := k + 1;
    }
    InterleaveDone(a, b, n1, n2, m, k, index, secondIndex, r);
  }

  /** When the first set is used up, the loop has interleaved all `m` chunk pairs. */
  lemma InterleaveDone<T>(a: seq<T>, b: seq<T>, n1: nat, n2: nat, m: nat, k: nat, index: nat, secondIndex: nat, r: seq<T>)
    requires n1 > 0 && |a| == Times(m, n1) && |b| == Times(m, n2)
    requires k <= m && index == Times(k, n1) && secondIndex == Times(k, n2)
    requires |a| <= index <= |a| && secondIndex <= |b|
    requires r == Interleaved(a[..index], b[..secondIndex], n1, n2, k)
    ensures r == Interleaved(a, b, n1, n2, m)
  {
    TimesEnd(k, m, n1);
    assert a[..index] == a && b[..secondIndex] == b;
  }

  /** While the first set has bytes left, so does the second. */
  lemma ChunksLeft(k: nat, m: nat, n1: nat, n2: nat)
    requires Times(k, n1) < Times(m, n1)
    ensures k < m && Times(k, n1) + n1 <= Times(m, n1) && Times(k, n2) + n2 <= Times(m, n2)
  {
    if k >= m {
      TimesMonotone(m, k, n1);
    }
    TimesStep(k, m, n1);
    TimesStep(k, m, n2);
  }

  lemma {:induction false} TimesMonotone(j: nat, k: nat, n: nat)
    requires j <= k
    ensures Times(j, n) <= Times(k, n)
    decreases k
  {
    if j < k {
      TimesMonotone(j, k - 1, n);
    }
  }

  // ---------------------------------------------------------------------------
  // Pad runs

  /** The pad index after one pad byte: it advances cyclically, except that
      with `once` it stays on the last pad byte once there. */
  function NextPad(index: nat, len: nat, once: bool): (r: nat)
    requires index < len
    ensures r < len
  {
    if index < len - 1 || !once then (index + 1) % len else index
  }

  /** NextPad without the remainder: one step on, wrapping to 0 after the
      last pad byte unless `once` holds there. */
  lemma NextPadValue(index: nat, len: nat, once: bool)
    requires index < len
    ensures NextPad(index, len, once) == if index < len - 1 then index + 1 else if once then index else 0
  {
    if index < len - 1 {
      DivModUnique(index + 1, len, 0, index + 1);
    } else {
      DivModUnique(index + 1, len, 1, 0);
    }
  }

  /** The pad index used for the j-th pad byte of a run. */
  function PadAt(len: nat, once: bool, j: nat): (r: nat)
    requires len > 0
    ensures r < len
  {
    if j == 0 then 0 else NextPad(PadAt(len, once, j - 1), len, once)
  }

  /** `n` pad bytes, starting from the first pad byte. */
  function PadRun(pad: seq<byte>, once: bool, n: nat): (r: seq<byte>)
    requires |pad| > 0
    ensures |r| == n
  {
    if n == 0 then [] else PadRun(pad, once, n - 1) + [pad[PadAt(|pad|, once, n - 1)]]
  }

  /** Byte j of a pad run is the pad byte at the j-th pad index. */
  lemma {:induction false} PadRunAt(pad: seq<byte>, once: bool, n: nat, j: nat)
    requires |pad| > 0 && j < n
    ensures PadRun(pad, once, n)[j] == pad[PadAt(|pad|, once, j)]
    decreases n
  {
    if j < n - 1 {
      PadRunAt(pad, once, n - 1, j);
    }
  }

  /** A positive multiple of a natural number is at least that number;
      DivModUnique uses it to rule out a second quotient. */
  lemma MulAtLeast(x: int, y: int)
    requires x >= 1 && y >= 0
    ensures x * y >= y
  {
    var z := x - 1;
    assert x * y == z * y + y;
    assert z * y >= 0;
  }

  /** Quotient and remainder are unique. */
  lemma DivModUnique(v: int, len: int, q: int, s: int)
    requires len > 0 && 0 <= s < len && v == q * len + s
    ensures v % len == s && v / len == q
  {
    var d := v / len;
    var e := q - d;
    assert v == d * len + v % len;
    assert e * len == v % len - s;
    if e >= 1 {
      MulAtLeast(e, len);
    } else if e <= -1 {
      MulAtLeast(-e, len);
    }
  }

  lemma ModNext(j: nat, len: nat)
    requires len > 0
    ensures (j % len + 1) % len == (j + 1) % len
  {
    var q := j / len;
    var r := j % len;
    assert j == q * len + r;
    if r + 1 < len {
      DivModUnique(j + 1, len, q, r + 1);
      DivModUnique(r + 1, len, 0, r + 1);
    } else {
      DivModUnique(j + 1, len, q + 1, 0);
      DivModUnique(len, len, 1, 0);
    }
  }

  /** The pad index is j mod |pad|, or, with `once`, j until the last pad
      byte and then the last pad byte for good. */
  lemma {:induction false} PadAtCyclic(len: nat, j: nat)
    requires len > 0
    ensures PadAt(len, false, j) == j % len
    decreases j
  {
    if j > 0 {
      PadAtCyclic(len, j - 1);
      ModNext(j - 1, len);
    } else {
      DivModUnique(0, len, 0, 0);
    }
  }

  lemma {:induction false} PadAtOnce(len: nat, j: nat)
    requires len > 0
    ensures PadAt(len, true, j) == if j < len - 1 then j else len - 1
    decreases j
  {
    if j > 0 {
      PadAtOnce(len, j - 1);
      NextPadValue(PadAt(len, true, j - 1), len, true);
    }
  }

  /** The pad index is j mod |pad|, or, with `once`, j until the last pad
      byte and then the last pad byte for good. */
  lemma PadAtClosed(len: nat, once: bool, j: nat)
    requires len > 0
    ensures PadAt(len, once, j) == if once then (if j < len - 1 then j else len - 1) else j % len
  {
    if once {
      PadAtOnce(len, j);
    } else {
      PadAtCyclic(len, j);
    }
  }

  /** Pad byte j of a run is pad[j mod |pad|], or with `once`
      pad[min(j, |pad| - 1)]. */
  lemma PadRunBytes(pad: seq<byte>, once: bool, n: nat, j: nat)
    requires |pad| > 0 && j < n
    ensures PadRun(pad, once, n)[j] == if once then pad[if j < |pad| - 1 then j else |pad| - 1] else pad[j % |pad|]
  {
    PadRunAt(pad, once, n, j);
    PadAtClosed(|pad|, once, j);
  }

  /** The inner loop that emits `n` pad bytes. */
  method EmitPad(result: seq<byte>, pad: seq<byte>, once: bool, n: nat) returns (r: seq<byte>)
    requires |pad| > 0
    ensures r == result + PadRun(pad, once, n)
  {
    r := result;
    var secondIndex := 0;
    for i := 0 to n
      invariant secondIndex == PadAt(|pad|, once, i)
      invariant r == result + PadRun(pad, once, i)
    {
      r := r + [pad[secondIndex]];
      if secondIndex < |pad| - 1 || !once {
        secondIndex := (secondIndex + 1) % |pad|;
      }
    }
  }

  // ---------------------------------------------------------------------------
  // Interleave with pad data

  /** `m` copies of `s`. */
  function Copies<T>(s: seq<T>, m: nat): (r: seq<T>)
    ensures |r| == Times(m, |s|)
  {
    if m == 0 then [] else Copies(s, m - 1) + s
  }

  /** The pad-filled interleave: every chunk of `a` is followed by a pad run
      of `n2` bytes that starts again from the first pad byte. */
  function PadInterleaved(a: seq<byte>, pad: seq<byte>, once: bool, n1: nat, n2: nat, m: nat): (r: seq<byte>)
    requires |pad| > 0 && |a| == Times(m, n1)
    ensures |r| == |a| + Times(m, n2)
  {
    Interleaved(a, Copies(PadRun(pad, once, n2), m), n1, n2, m)
  }

  /** Block k of a pad-filled interleave is chunk k of `a` and then the same
      pad run as every other block. */
  lemma PadInterleavedBlock(a: seq<byte>, pad: seq<byte>, once: bool, n1: nat, n2: nat, m: nat, k: nat, o1: nat, o2: nat)
    requires |pad| > 0 && |a| == Times(m, n1) && k < m
    requires o1 == Times(k, n1) && o2 == Times(k, n2)
    ensures o1 + n1 <= |a| && o1 + o2 + n1 + n2 <= |PadInterleaved(a, pad, once, n1, n2, m)|
    ensures PadInterleaved(a, pad, once, n1, n2, m)[o1 + o2..o1 + o2 + n1 + n2] == a[o1..o1 + n1] + PadRun(pad, once, n2)
  {
    var run := PadRun(pad, once, n2);
    InterleavedBlock(a, Copies(run, m), n1, n2, m, k, o1, o2);
    CopiesBlock(run, m, k, o2);
  }

  lemma {:induction false} CopiesBlock<T>(s: seq<T>, m: nat, k: nat, o: nat)
    requires k < m && o == Times(k, |s|)
    ensures o + |s| <= Times(m, |s|)
    ensures Copies(s, m)[o..o + |s|] == s
    decreases m
  {
    TimesStep(k, m, |s|);
    var front := Copies(s, m - 1);
    if k < m - 1 {
      CopiesBlock(s, m - 1, k, o);
      TimesStep(k, m - 1, |s|);
      assert Copies(s, m)[o..o + |s|] == front[o..o + |s|];
    } else {
      assert Copies(s, m)[|front|..] == s;
    }
  }

  /** The state after one more pass of the pad-filled interleave loop. */
  lemma PadInterleaveStep<T>(a: seq<T>, run: seq<T>, n1: nat, n2: nat, m: nat, k: nat, index: nat, r: seq<T>, r': seq<T>)
    requires n1 > 0 && |a| == Times(m, n1) && |run| == n2
    requires k <= m && index == Times(k, n1) && index < |a|
    requires r == Interleaved(a[..index], Copies(run, k), n1, n2, k)
    requires index + n1 <= |a| && r' == r + a[index..index + n1] + run
    ensures k < m && index + n1 == Times(k + 1, n1)
    ensures r' == Interleaved(a[..index + n1], Copies(run, k + 1), n1, n2, k + 1)
  {
    TimesStep(k, m, n1);
    InterleavedAppend(a[..index], Copies(run, k), a[index..index + n1], run, n1, n2, k);
    assert a[..index] + a[index..index + n1] == a[..index + n1];
  }

  /** The pad-filled interleave loop of process_tokens: the pad index is
      reset to 0 for every chunk. */
  method PadInterleave(a: seq<byte>, pad: seq<byte>, once: bool, n1: nat, n2: nat, ghost m: nat) returns (r: seq<byte>)
    requires n1 > 0 && |pad| > 0 && |a| == Times(m, n1)
    ensures r == PadInterleaved(a, pad, once, n1, n2, m)
  {
    ghost var run := PadRun(pad, once, n2);
    r := [];
    var index := 0;
    ghost var k := 0;
    while index < |a|
      invariant k <= m && index == Times(k, n1) && index <= |a|
      invariant r == Interleaved(a[..index], Copies(run, k), n1, n2, k)
      decreases |a| - index
    {
      TimesStep(k, m, n1);
      ghost var before := r;
      r := r + a[index..index + n1];
      r := EmitPad(r, pad, once, n2);
      PadInterleaveStep(a, run, n1, n2, m, k, index, before, r);
      index := index + n1;
      k := k + 1;
    }
    PadInterleaveDone(a, run, n1, n2, m, k, index, r);
  }

  /** When the data is used up, the loop has emitted all `m` chunks with their pad runs. */
  lemma PadInterleaveDone<T>(a: seq<T>, run: seq<T>, n1: nat, n2: nat, m: nat, k: nat, index: nat, r: seq<T>)
    requires n1 > 0 && |a| == Times(m, n1) && |run| == n2
    requires k <= m && index == Times(k, n1) && index == |a|
    requires r == Interleaved(a[..index], Copies(run, k), n1, n2, k)
    ensures r == Interleaved(a, Copies(run, m), n1, n2, m)
  {
    TimesEnd(k, m, n1);
    assert a[..index] == a;
  }

  // ---------------------------------------------------------------------------
  // Exact-length padding

  /** Data padded to `exact` bytes with a pad run. */
  function Padded(data: seq<byte>, exact: nat, pad: seq<byte>, once: bool): (r: seq<byte>)
    requires |pad| > 0 && |data| < exact
  {
    data + PadRun(pad, once, exact - |data|)
  }

  /** Padding yields exactly `exact` bytes, the data unchanged in front, and
      pad byte j taken cyclically (or, with `once`, up to the last pad byte). */
  lemma PaddedMeaning(data: seq<byte>, exact: nat, pad: seq<byte>, once: bool)
    requires |pad| > 0 && |data| < exact
    ensures var r := Padded(data, exact, pad, once);
            && |r| == exact
            && r[..|data|] == data
            && forall j :: |data| <= j < exact ==>
                 r[j] == if once then pad[if j - |data| < |pad| - 1 then j - |data| else |pad| - 1]
                         else pad[(j - |data|) % |pad|]
  {
    var r := Padded(data, exact, pad, once);
    assert r[..|data|] == data;
    forall j | |data| <= j < exact
      ensures r[j] == if once then pad[if j - |data| < |pad| - 1 then j - |data| else |pad| - 1]
                      else pad[(j - |data|) % |pad|]
    {
      PadRunBytes(pad, once, exact - |data|, j - |data|);
    }
  }

  /** One more pad byte extends the padded data by the next pad byte. */
  lemma PaddedSnoc(data: seq<byte>, pad: seq<byte>, once: bool, i: nat)
    requires |pad| > 0
    ensures data + PadRun(pad, once, i + 1) == data + PadRun(pad, once, i) + [pad[PadAt(|pad|, once, i)]]
    ensures PadAt(|pad|, once, i + 1) == NextPad(PadAt(|pad|, once, i), |pad|, once)
  {
  }

  /** The exact-length loop of process_tokens: push pad bytes until the data
      is `exact` bytes long. */
  method PadTo(data: seq<byte>, exact: nat, pad: seq<byte>, once: bool) returns (r: seq<byte>)
    requires |pad| > 0 && |data| < exact
    ensures r == Padded(data, exact, pad, once)
  {
    r := data;
    var index := 0;
    ghost var i := 0;
    while |r| < exact
      invariant |r| == |data| + i <= exact
      invariant index == PadAt(|pad|, once, i)
      invariant r == data + PadRun(pad, once, i)
      decreases exact - |r|
    {
      PaddedSnoc(data, pad, once, i);
      r := r + [pad[index]];
      if index < |pad| - 1 || !once {
        index := (index + 1) % |pad|;
      }
      i := i + 1;
    }
  }
}
