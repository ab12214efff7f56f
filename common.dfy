/** Shared building blocks of the identifier library: the success/failure
    result, the digit helpers both number types use, JavaScript's remainder
    operator, and `IterCycle`, a cursor that walks a non-empty table round
    and round in either direction. */
module Common {

  /** A JavaScript value that may be `undefined`. */
  datatype Option<+T> = None | Some(value: T) {
    /** `this ?? default`: the value, or `default` when it is `undefined`. */
    function GetOr(default: T): T {
      match this
      case Some(v) => v
      case None => default
    }
  }

  /** The tagged union returned by the validators: `Success` is what
      `createSuccessResult` builds (`sucesso: true`, payload `dados`),
      `Failure` what `createErrorResult` builds (`sucesso: false`, `erro`). */
  datatype Result<+T, +E> = Success(data: T) | Failure(error: E)

  /** Message of the error thrown when a cursor is built over an empty table. */
  const EmptyIterableMessage: string := "must be a not empty iterable"

  /** Message of the `RangeError` that `new Array(n)` throws for a length
      outside `0 .. ArrayLengthBound - 1`. */
  const InvalidArrayLengthMessage: string := "Invalid array length"

  /** A JavaScript array holds fewer than 2^32 elements. */
  const ArrayLengthBound: int := 0x1_0000_0000

  // ---------------------------------------------------------------------
  // Characters (both number modules read digits the same way)
  // ---------------------------------------------------------------------

  /** An ASCII digit, the regular-expression class `\d`. */
  predicate IsDigit(c: char) {
    '0' <= c <= '9'
  }

  /** Character code minus 48: '0'..'9' give 0..9 and 'A'..'Z' give 17..42 (the
      check-digit helper of either number type). */
  function ValueFromChar(c: char): (r: int)
    ensures IsDigit(c) ==> 0 <= r <= 9
    ensures 'A' <= c <= 'Z' ==> 17 <= r <= 42
    ensures c < '0' <==> r < 0
  {
    c as int - 48
  }

  /** The value of every character, in order. */
  function Values(s: string): (r: seq<int>)
    ensures |r| == |s|
  {
    seq(|s|, i requires 0 <= i < |s| => ValueFromChar(s[i]))
  }

  /** The character a single decimal digit is written as. */
  function DigitChar(d: int): (c: char)
    requires 0 <= d <= 9
    ensures IsDigit(c) && ValueFromChar(c) == d
  {
    (48 + d) as char
  }

  /** The characters either `generate` draws digits from. */
  const NumbersChars: string := "1234567890"

  // ---------------------------------------------------------------------
  // Integer arithmetic
  // ---------------------------------------------------------------------

  /** Each multiple of a positive `d` other than zero is at least `d` away from zero. */
  lemma MulAwayFromZero(d: int, k: int)
    requires d > 0
    ensures k >= 1 ==> d * k >= d
    ensures k <= -1 ==> d * k <= -d
  {
  }

  /** Euclidean division has exactly one quotient and remainder. */
  lemma ModUnique(n: int, d: int, q: int, r: int)
    requires d > 0 && 0 <= r < d && n == d * q + r
    ensures n % d == r && n / d == q
  {
    MulAwayFromZero(d, q - n / d);
    assert d * (q - n / d) == n % d - r;
  }

  /** Adding whole multiples of `d` does not change a residue. */
  lemma ShiftMod(x: int, d: int, k: int)
    requires d > 0
    ensures (x + d * k) % d == x % d
  {
    ModUnique(x + d * k, d, x / d + k, x % d);
  }

  /** Reducing the first summand first does not change the residue of a sum. */
  lemma ModAddLeft(x: int, y: int, d: int)
    requires d > 0
    ensures (x % d + y) % d == (x + y) % d
  {
    ShiftMod(x % d + y, d, x / d);
  }

  /** JavaScript's `n % d` for a positive `d`: the quotient is truncated toward
      zero, so the remainder has the sign of `n`, unlike Dafny's Euclidean `%`. */
  function JsRem(n: int, d: int): (r: int)
    requires d > 0
    ensures -d < r < d
    ensures n >= 0 ==> r == n % d
    ensures n < 0 ==> r == (if n % d == 0 then 0 else n % d - d)
  {
    if n >= 0 then n % d
    else
      var m := -n;
      if m % d == 0 then
        ModUnique(n, d, -(m / d), 0);
        0
      else
        ModUnique(n, d, -(m / d) - 1, d - m % d);
        -(m % d)
  }

  /** The double remainder of `incrementIndexBy` lands on the Euclidean
      residue of `cur + n`, whatever the sign or magnitude of `n`. */
  lemma IncrementIsEuclidean(len: int, cur: int, n: int)
    requires len > 0
    ensures (len + cur + JsRem(n, len)) % len == (cur + n) % len
  {
    var q, r := n / len, n % len;
    assert n == len * q + r;
    var t := if n >= 0 || r == 0 then 1 - q else -q;
    assert len * t == (if n >= 0 || r == 0 then len else 0) - len * q;
    assert len + cur + JsRem(n, len) == (cur + n) + len * t;
    ShiftMod(cur + n, len, t);
  }

  /** The cursor position `incrementIndexBy(n)` computes from position `cur`
      in a table of `len` entries. */
  function Advanced(len: int, cur: int, n: int): (r: int)
    requires len > 0 && 0 <= cur < len
    ensures 0 <= r < len
    ensures r == (cur + n) % len
  {
    IncrementIsEuclidean(len, cur, n);
    (len + cur + JsRem(n, len)) % len
  }

  /** Skipping a whole number of laps, forward or backward, leaves the cursor where it was. */
  lemma SkipWholeLaps(len: int, cur: int, k: int)
    requires len > 0 && 0 <= cur < len
    ensures Advanced(len, cur, k * len) == cur
  {
    assert cur + k * len == cur + len * k;
    ShiftMod(cur, len, k);
    ModUnique(cur, len, 0, cur);
  }

  /** Skipping `n` and then `-n` returns the cursor to where it started. */
  lemma SkipThenUnskip(len: int, cur: int, n: int)
    requires len > 0 && 0 <= cur < len
    ensures Advanced(len, Advanced(len, cur, n), -n) == cur
  {
    ModAddLeft(cur + n, -n, len);
    ModUnique(cur, len, 0, cur);
  }

  // ---------------------------------------------------------------------
  // What the cursor hands out
  // ---------------------------------------------------------------------

  /** The `n` elements that `n` successive `next()` calls return from a
      cursor standing at `cur`: the `i`-th is the entry `i + 1` places on. */
  function Cycle<T>(s: seq<T>, cur: int, n: nat): (r: seq<T>)
    requires |s| > 0 && 0 <= cur < |s|
    ensures |r| == n
  {
    seq(n, i requires 0 <= i < n => s[(cur + 1 + i) % |s|])
  }

  /** Handing out `n + 1` elements is one `next()` followed by `n` more from
      the new position. */
  lemma CycleStep<T>(s: seq<T>, cur: int, n: nat)
    requires |s| > 0 && 0 <= cur < |s|
    ensures Cycle(s, cur, n + 1) == [s[Advanced(|s|, cur, 1)]] + Cycle(s, Advanced(|s|, cur, 1), n)
  {
    var c := Advanced(|s|, cur, 1);
    forall k | 0 <= k < n
      ensures Cycle(s, cur, n + 1)[k + 1] == Cycle(s, c, n)[k]
    {
      ModAddLeft(cur + 1, k + 1, |s|);
    }
  }

  /** Handing out `a + b` elements is handing out `a`, then `b` more from where the cursor stopped. */
  lemma CycleSplit<T>(s: seq<T>, cur: int, a: nat, b: nat)
    requires |s| > 0 && 0 <= cur < |s|
    ensures Cycle(s, cur, a + b) == Cycle(s, cur, a) + Cycle(s, (cur + a) % |s|, b)
  {
    var r := Cycle(s, cur, a + b);
    var t := Cycle(s, (cur + a) % |s|, b);
    forall k | 0 <= k < b
      ensures r[a..][k] == t[k]
    {
      ModAddLeft(cur + a, 1 + k, |s|);
    }
    assert r[a..] == t;
    assert r[..a] == Cycle(s, cur, a);
    assert r == r[..a] + r[a..];
  }

  /** When more elements are requested than the table holds, the table repeats. */
  lemma CyclePeriodic<T>(s: seq<T>, cur: int, n: nat, i: nat)
    requires |s| > 0 && 0 <= cur < |s| && i + |s| < n
    ensures Cycle(s, cur, n)[i + |s|] == Cycle(s, cur, n)[i]
  {
    ShiftMod(cur + 1 + i, |s|, 1);
  }

  /** Pairs up two sequences of equal length, element by element. */
  function Zipped<U, V>(us: seq<U>, vs: seq<V>): (r: seq<(U, V)>)
    requires |us| == |vs|
  {
    seq(|us|, i requires 0 <= i < |us| => (us[i], vs[i]))
  }

  // ---------------------------------------------------------------------
  // The cursor
  // ---------------------------------------------------------------------

  /** A cursor over a non-empty table that wraps in both directions. The
      model keeps its own immutable copy of the table and of its length;
      only the cursor moves. */
  class IterCycle<T> {
    const iterable: seq<T>
    const itLength: int
    var currentIndex: int

    ghost predicate Valid()
      reads this
    {
      itLength == |iterable| && 0 <= currentIndex < itLength
    }

    /** Builds a cursor standing on the last entry, so that the first `next()` yields entry 0. */
    constructor (iterable: seq<T>)
      requires |iterable| > 0
      ensures Valid()
      ensures this.iterable == iterable && currentIndex == itLength - 1
    {
      this.iterable := iterable;
      itLength := |iterable|;
      currentIndex := |iterable| - 1;
    }

    /** `new IterCycle(iterable)` including its guard: an empty table is refused
        with the message of the error the constructor throws. */
    static method Create(iterable: seq<T>) returns (r: Result<IterCycle<T>, string>)
      ensures r.Failure? <==> |iterable| == 0
      ensures r.Failure? ==> r.error == EmptyIterableMessage
      ensures r.Success? ==> fresh(r.data) && r.data.Valid()
      ensures r.Success? ==> r.data.iterable == iterable && r.data.currentIndex == |iterable| - 1
    {
      if |iterable| == 0 {
        return Failure(EmptyIterableMessage);
      }
      var it := new IterCycle(iterable);
      return Success(it);
    }

    /** Moves the cursor `n` places, forward for positive `n`, backward for negative. */
    method IncrementIndexBy(n: int)
      requires Valid()
      modifies this
      ensures Valid()
      ensures currentIndex == (old(currentIndex) + n) % itLength
    {
      currentIndex := Advanced(itLength, currentIndex, n);
    }

    /** Puts the cursor back before the first entry. */
    method Reset()
      requires Valid()
      modifies this
      ensures Valid()
      ensures currentIndex == itLength - 1
    {
      currentIndex := itLength - 1;
    }

    /** Steps one place and returns the entry now under the cursor. */
    method Next() returns (x: T)
      requires Valid()
      modifies this
      ensures Valid()
      ensures currentIndex == (old(currentIndex) + 1) % itLength
      ensures x == iterable[currentIndex]
    {
      IncrementIndexBy(1);
      x := iterable[currentIndex];
    }

    /** Moves the cursor `n` places and returns the cursor itself, for chaining. */
    method Skip(n: int) returns (self: IterCycle<T>)
      requires Valid()
      modifies this
      ensures Valid() && self == this
      ensures currentIndex == (old(currentIndex) + n) % itLength
    {
      IncrementIndexBy(n);
      self := this;
    }

    /** The next `n` entries, in order; a count that is not a valid array
        length is refused the way `new Array(n)` refuses it, before the
        cursor moves. */
    method Take(n: int) returns (r: Result<seq<T>, string>)
      requires Valid()
      modifies this
      ensures Valid()
      ensures n < 0 || n >= ArrayLengthBound ==>
        r == Failure(InvalidArrayLengthMessage) && currentIndex == old(currentIndex)
      ensures 0 <= n < ArrayLengthBound ==> r == Success(Cycle(iterable, old(currentIndex), n))
      ensures 0 <= n < ArrayLengthBound ==> currentIndex == (old(currentIndex) + n) % itLength
    {
      if n < 0 || n >= ArrayLengthBound {
        return Failure(InvalidArrayLengthMessage);
      }
      var arr: seq<T> := [];
      var i := 0;
      while i < n
        invariant 0 <= i <= n && Valid()
        invariant arr == Cycle(iterable, old(currentIndex), i)
        invariant currentIndex == (old(currentIndex) + i) % itLength
      {
        ghost var before := currentIndex;
        var x := Next();
        assert Cycle(iterable, before, 1) == [x];
        CycleSplit(iterable, old(currentIndex), i, 1);
        ModAddLeft(old(currentIndex) + i, 1, itLength);
        arr := arr + [x];
        i := i + 1;
      }
      r := Success(arr);
    }

    /** Pairs each element of `xs`, in order, with the entry a call to `next()`
        hands out; the table repeats when `xs` is longer than it. */
    method Zip<A>(xs: seq<A>) returns (pairs: seq<(T, A)>)
      requires Valid()
      modifies this
      ensures Valid()
      ensures pairs == Zipped(Cycle(iterable, old(currentIndex), |xs|), xs)
      ensures currentIndex == (old(currentIndex) + |xs|) % itLength
    {
      pairs := [];
      var i := 0;
      while i < |xs|
        invariant 0 <= i <= |xs| && Valid()
        invariant pairs == Zipped(Cycle(iterable, old(currentIndex), i), xs[..i])
        invariant currentIndex == (old(currentIndex) + i) % itLength
      {
        ghost var before := currentIndex;
        var x := Next();
        assert Cycle(iterable, before, 1) == [x];
        CycleSplit(iterable, old(currentIndex), i, 1);
        ModAddLeft(old(currentIndex) + i, 1, itLength);
        assert xs[..i + 1] == xs[..i] + [xs[i]];
        pairs := pairs + [(x, xs[i])];
        i := i + 1;
      }
      assert xs[..i] == xs;
    }
  }

  /** The runs of entries that the scenarios below expect. */
  lemma CycleExamples()
    ensures Cycle([1, 2, 3, 4, 5], 4, 1) == [1]
    ensures Cycle([1, 2, 3, 4, 5], 0, 3) == [2, 3, 4]
    ensures Cycle([1, 2, 3, 4, 5], 3, 8) == [5, 1, 2, 3, 4, 5, 1, 2]
    ensures Zipped(Cycle([1, 2, 3], 2, 5), ['a', 'b', 'c', 'd', 'e'])
         == [(1, 'a'), (2, 'b'), (3, 'c'), (1, 'd'), (2, 'e')]
  {
  }

  /** Successive `next()` calls cycle through the table and wrap. */
  method NextScenario()
  {
    var it := new IterCycle([1, 2, 3]);
    var x := it.Next();  assert x == 1;
    x := it.Next();  assert x == 2;
    x := it.Next();  assert x == 3;
    x := it.Next();  assert x == 1;
  }

  /** Skips beyond the table's bounds, in both directions, wrap around. */
  method SkipScenario()
  {
    var it := new IterCycle([1, 2, 3, 4, 5]);
    var s := it.Skip(7);
    var x := it.Next();  assert x == 3;
    s := it.Skip(7);
    x := it.Next();  assert x == 1;

    it := new IterCycle([1, 2, 3, 4, 5]);
    s := it.Skip(-7);
    x := it.Next();  assert x == 4;
    s := it.Skip(-5);
    x := it.Next();  assert x == 5;

    it := new IterCycle([1, 2, 3, 4, 5]);
    s := it.Skip(7);
    s := it.Skip(-7);
    x := it.Next();  assert x == 1;
  }

  /** `take` hands out consecutive entries across laps and refuses a negative
      count and one of 2^32 or more. */
  method TakeScenario()
  {
    var it := new IterCycle([1, 2, 3, 4, 5]);
    var t1 := it.Take(1);
    var t3 := it.Take(3);
    var t8 := it.Take(8);
    var t0 := it.Take(0);
    var tn := it.Take(-1);
    var tb := it.Take(0x1_0000_0000);
    var x := it.Next();
    CycleExamples();
    assert t1 == Success([1]);
    assert t3 == Success([2, 3, 4]);
    assert t8 == Success([5, 1, 2, 3, 4, 5, 1, 2]);
    assert t0 == Success([]);
    assert tn.Failure? && tb.Failure?;
    assert x == 3;
  }

  /** `zip` repeats the table when the other sequence is longer. */
  method ZipScenario()
  {
    var c := new IterCycle([1, 2, 3]);
    var z := c.Zip(['a', 'b', 'c', 'd', 'e']);
    CycleExamples();
    assert z == [(1, 'a'), (2, 'b'), (3, 'c'), (1, 'd'), (2, 'e')];
  }

  /** Building a cursor over an empty table is refused with the constructor's message. */
  method CreateScenario()
  {
    var e := IterCycle<int>.Create([]);
    assert e == Failure("must be a not empty iterable");
    var ok := IterCycle.Create([9, 8, 7]);
    assert ok.Success? && ok.data.currentIndex == 2;
  }
}
