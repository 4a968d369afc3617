/**
 * The random helpers of pkg/gzutil/tool.go: `RandString`, which cuts
 * 63-bit random draws into 6-bit letter indices, and `Interval64`.
 *
 * The random source is replaced by its results: `RandString` reads a
 * supplied sequence of draws, and `Interval64` a supplied `Int63n`.
 */
module RandomHelpers {
  import opened Wrappers

  /** `letters`: the 62-character alphabet, digits first. */
  const Letters := "0123456789abcdefghijklmnopqrstuvwxyzABCDEFGHIJKLMNOPQRSTUVWXYZ"

  /** `letterIdMax`: the indices one 63-bit draw supplies, 63 / 6. */
  const LetterIdMax := 10

  /** The next `count` 6-bit indices of `cache`, lowest bits first (`cache & 63`, then `cache >>= 6`). */
  function Indices(cache: nat, count: nat): (xs: seq<nat>)
    ensures |xs| == count && forall i | 0 <= i < count :: xs[i] < 64
  {
    if count == 0 then [] else [cache % 64] + Indices(cache / 64, count - 1)
  }

  /** The indices a sequence of draws supplies, ten per draw. */
  function DrawIndices(draws: seq<nat>): seq<nat>
  {
    if draws == [] then [] else Indices(draws[0], LetterIdMax) + DrawIndices(draws[1..])
  }

  /** The indices that name a letter, in order; 62 and 63 are skipped. */
  function Accepted(xs: seq<nat>): (ys: seq<nat>)
    ensures |ys| <= |xs| && forall i | 0 <= i < |ys| :: ys[i] < |Letters|
  {
    if xs == [] then [] else (if xs[0] < |Letters| then [xs[0]] else []) + Accepted(xs[1..])
  }

  /** The runtime panic of `make([]byte, n)` for a negative `n`. */
  const MakeSlicePanic := "makeslice: len out of range"

  /** The supplied draws ran out before the buffer was full. */
  const DrawsExhausted := "random draws exhausted"

  /**
   * `RandString(n)` over the supplied draws.  A negative length panics in
   * `make`.  The buffer is filled from its last byte down: the j-th
   * accepted index names the letter at position n - 1 - j.
   */
  method RandString(n: int, draws: seq<nat>) returns (r: Result<string>)
    ensures n < 0 ==> r == Err(MakeSlicePanic)
    ensures n >= 0 && r.Err? ==> r.msg == DrawsExhausted
    ensures var accepted := Accepted(DrawIndices(draws));
      r.Ok? <==> 0 <= n && draws != [] && n <= |accepted|
    ensures r.Ok? ==> var accepted := Accepted(DrawIndices(draws));
      |r.value| == n && forall j | 0 <= j < n :: r.value[n - 1 - j] == Letters[accepted[j]]
  {
    if n < 0 {
      return Err(MakeSlicePanic);
    }
    var filled := FillLetters(n, draws);
    r := if filled.Some? then Ok(filled.value) else Err(DrawsExhausted);
  }

  /** The loop of `RandString` for a length `make` accepts; `None` when the draws run out first. */
  method FillLetters(n: nat, draws: seq<nat>) returns (r: Option<string>)
    ensures var accepted := Accepted(DrawIndices(draws));
      r.Some? <==> draws != [] && n <= |accepted|
    ensures r.Some? ==> var accepted := Accepted(DrawIndices(draws));
      |r.value| == n && forall j | 0 <= j < n :: r.value[n - 1 - j] == Letters[accepted[j]]
  {
    var b := new char[n];
    if draws == [] {
      return None;
    }
    var i: int, cache: nat, remain: nat, k := n - 1, draws[0], LetterIdMax, 1;
    ghost var all := Accepted(DrawIndices(draws));
    ghost var taken: seq<nat> := [];
    assert draws[1..] == draws[k..];
    while i >= 0
      invariant -1 <= i < n && k <= |draws| && remain <= LetterIdMax && |taken| == n - 1 - i
      invariant all == taken + Accepted(Indices(cache, remain) + DrawIndices(draws[k..]))
      invariant forall j | 0 <= j < |taken| :: taken[j] < |Letters|
      invariant forall p | i < p < n :: b[p] == Letters[taken[n - 1 - p]]
      decreases |draws| - k, remain
    {
      cache, remain, k := NextCache(draws, k, cache, remain);
      if remain == 0 {
        return None;
      }
      var idx: nat := cache % 64;
      ghost var rest := Accepted(Indices(cache / 64, remain - 1) + DrawIndices(draws[k..]));
      AcceptedStep(all, taken, cache, remain, DrawIndices(draws[k..]));
      if idx < |Letters| {
        b[i] := Letters[idx];
        taken := taken + [idx];
        i := i - 1;
      } else {
        assert taken + [] == taken;
      }
      assert all == taken + rest;
      cache := cache / 64;
      remain := remain - 1;
    }
    r := Some(b[..]);
  }

  /** The refill at the top of the loop: a spent cache takes the next draw, `draws[k]`, when there is one. */
  method NextCache(draws: seq<nat>, k: nat, cache: nat, remain: nat) returns (cache': nat, remain': nat, k': nat)
    requires k <= |draws| && remain <= LetterIdMax
    ensures k' <= |draws| && remain' <= LetterIdMax
    ensures Indices(cache', remain') + DrawIndices(draws[k'..]) == Indices(cache, remain) + DrawIndices(draws[k..])
    ensures remain' == 0 <==> remain == 0 && k == |draws|
    ensures remain != 0 ==> (cache', remain', k') == (cache, remain, k)
    ensures remain == 0 && k < |draws| ==> (cache', remain', k') == (draws[k], LetterIdMax, k + 1)
  {
    cache', remain', k' := cache, remain, k;
    if remain == 0 && k < |draws| {
      Refill(draws, k, cache);
      cache', remain', k' := draws[k], LetterIdMax, k + 1;
    }
  }

  /** A fresh draw continues the stream of indices where the spent one stopped. */
  lemma Refill(draws: seq<nat>, k: nat, cache: nat)
    requires k < |draws|
    ensures Indices(cache, 0) + DrawIndices(draws[k..]) == Indices(draws[k], LetterIdMax) + DrawIndices(draws[k + 1..])
  {
    assert draws[k..][1..] == draws[k + 1..];
  }

  /** Taking the next index off the stream: it joins the accepted ones when it names a letter. */
  lemma AcceptedStep(all: seq<nat>, taken: seq<nat>, cache: nat, remain: nat, later: seq<nat>)
    requires remain > 0 && all == taken + Accepted(Indices(cache, remain) + later)
    ensures all == taken + (if cache % 64 < |Letters| then [cache % 64] else []) + Accepted(Indices(cache / 64, remain - 1) + later)
  {
    var rest := Indices(cache / 64, remain - 1) + later;
    assert Indices(cache, remain) + later == [cache % 64] + rest;
    assert ([cache % 64] + rest)[1..] == rest;
  }

  /** Every character of a random string is a letter or digit of the alphabet. */
  lemma RandStringAlphabet(n: nat, draws: seq<nat>, s: string)
    requires n <= |Accepted(DrawIndices(draws))| && |s| == n
    requires forall j | 0 <= j < n :: s[n - 1 - j] == Letters[Accepted(DrawIndices(draws))[j]]
    ensures forall i | 0 <= i < |s| :: s[i] in Letters
  {
    forall i | 0 <= i < |s| ensures s[i] in Letters {
      var j := n - 1 - i;
      assert s[n - 1 - j] == Letters[Accepted(DrawIndices(draws))[j]];
    }
  }

  /** Each draw supplies exactly ten indices, so `k` draws never fill more than `10 * k` positions. */
  lemma {:induction false} DrawIndicesCount(draws: seq<nat>)
    ensures |DrawIndices(draws)| == LetterIdMax * |draws|
    ensures |Accepted(DrawIndices(draws))| <= LetterIdMax * |draws|
  {
    if draws != [] {
      DrawIndicesCount(draws[1..]);
    }
  }

  const MinInt64 := -0x8000_0000_0000_0000
  const MaxInt64 := 0x7fff_ffff_ffff_ffff

  /** Two's-complement wrap-around of a Go `int64` result. */
  function Wrap64(x: int): (r: int)
    ensures MinInt64 <= r <= MaxInt64
    ensures MinInt64 <= x <= MaxInt64 ==> r == x
    ensures MaxInt64 < x < 0x1_0000_0000_0000_0000 ==> r == x - 0x1_0000_0000_0000_0000 < 0
  {
    (x - MinInt64) % 0x1_0000_0000_0000_0000 + MinInt64
  }

  /** The bounds `Interval64` settles on when they differ: a negative `min` raised to 0, then ordered. */
  function Bounds(min: int, max: int): (b: (int, int))
    ensures b.0 <= b.1
    ensures min >= 0 ==> (b == (min, max) || b == (max, min))
    ensures min < 0 && max >= 0 ==> b == (0, max)
    ensures min < 0 && max < 0 ==> b == (max, 0)
  {
    var lo := if min < 0 then 0 else min;
    if lo > max then (max, lo) else (lo, max)
  }

  /**
   * `Interval64(min, max)` with `rand.Int63n` as `int63n`: `min` when the
   * bounds agree, else `int63n(hi - lo) + lo`.  `Int63n` panics on a
   * bound that is not positive, which the `Err` result stands for.
   */
  function Interval64(min: int, max: int, int63n: int -> int): (r: Result<int>)
    requires MinInt64 <= min <= MaxInt64 && MinInt64 <= max <= MaxInt64
    requires forall k | 0 < k :: 0 <= int63n(k) < k
    ensures min == max ==> r == Ok(min)
    ensures r.Ok? && min != max ==> Bounds(min, max).0 <= r.value < Bounds(min, max).1
  {
    if min == max then Ok(min)
    else
      var (lo, hi) := Bounds(min, max);
      var bound := Wrap64(hi - lo);
      if bound <= 0 then Err("invalid argument to Int63n")
      else Ok(int63n(bound) + lo)
  }

  /**
   * `Interval64` panics exactly when the adjusted bounds meet, or when
   * their distance overflows `int64` and wraps to a negative bound.  The
   * first happens for a negative `min` with `max` 0.
   */
  lemma Interval64Panics(min: int, max: int, int63n: int -> int)
    requires MinInt64 <= min <= MaxInt64 && MinInt64 <= max <= MaxInt64
    requires forall k | 0 < k :: 0 <= int63n(k) < k
    ensures var (lo, hi) := Bounds(min, max);
      Interval64(min, max, int63n).Err? <==> min != max && (lo == hi || hi - lo > MaxInt64)
    ensures min < 0 && max == 0 ==> Interval64(min, max, int63n).Err?
  {
  }

  /** Non-negative bounds always give a value between them, the larger one excluded. */
  lemma Interval64InRange(min: int, max: int, int63n: int -> int)
    requires 0 <= min <= MaxInt64 && 0 <= max <= MaxInt64 && min != max
    requires forall k | 0 < k :: 0 <= int63n(k) < k
    ensures Interval64(min, max, int63n).Ok?
    ensures var v := Interval64(min, max, int63n).value;
      (min < max ==> min <= v < max) && (max < min ==> max <= v < min)
  {
  }
}
