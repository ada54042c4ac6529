/**
 * Client-side paging of the historical rates:
 * `Rates.Skip((page - 1) * pageSize).Take(pageSize).ToDictionary()`.
 */
module Paging {
  import opened Dictionaries

  /** C# `int`. */
  newtype int32 = x: int | -0x8000_0000 <= x < 0x8000_0000

  /**
   * Two's-complement truncation to 32 bits, which is what C# integer
   * arithmetic does in its default unchecked context.
   */
  function Wrap32(x: int): (r: int32)
    ensures -0x8000_0000 <= x < 0x8000_0000 ==> r as int == x
    ensures (x - r as int) % 0x1_0000_0000 == 0
  {
    ((x + 0x8000_0000) % 0x1_0000_0000 - 0x8000_0000) as int32
  }

  /**
   * `(page - 1) * pageSize`, evaluated in 32-bit arithmetic: both the
   * subtraction and the product wrap, which comes to wrapping the exact product once.
   */
  function SkipCount(page: int32, pageSize: int32): (r: int32)
    ensures r == Wrap32((page as int - 1) * pageSize as int)
  {
    var a, b := page as int - 1, pageSize as int;
    var w := Wrap32(a) as int;
    var k := (a - w) / 0x1_0000_0000;
    assert a - w == 0x1_0000_0000 * k;
    assert w * b - a * b == 0x1_0000_0000 * (-(k * b)) by {
      assert w * b == (a - 0x1_0000_0000 * k) * b;
    }
    WrapCongruent(w * b, a * b);
    Wrap32(w * b)
  }

  /** Values congruent modulo 2^32 wrap to the same 32-bit value. */
  lemma WrapCongruent(x: int, y: int)
    requires (x - y) % 0x1_0000_0000 == 0
    ensures Wrap32(x) == Wrap32(y)
  {
    var rx, ry := Wrap32(x) as int, Wrap32(y) as int;
    var k1, k2, k3 := (x - rx) / 0x1_0000_0000, (y - ry) / 0x1_0000_0000, (x - y) / 0x1_0000_0000;
    assert x - rx == 0x1_0000_0000 * k1;
    assert y - ry == 0x1_0000_0000 * k2;
    assert x - y == 0x1_0000_0000 * k3;
    assert rx - ry == 0x1_0000_0000 * (k3 - k1 + k2);
  }

  /** LINQ `Skip`: a non-positive count skips nothing; a count past the end leaves nothing. */
  function Skip<T>(s: seq<T>, count: int): (r: seq<T>)
    ensures r == s[Clamp(count, 0, |s|)..]
  {
    if count <= 0 then s else if count >= |s| then [] else s[count..]
  }

  /** LINQ `Take`: a non-positive count takes nothing; a count past the end takes all. */
  function Take<T>(s: seq<T>, count: int): (r: seq<T>)
    ensures r == s[..Clamp(count, 0, |s|)]
  {
    if count <= 0 then [] else if count >= |s| then s else s[..count]
  }

  /** `lo` if `x` is below it, `hi` if above, else `x`. */
  function Clamp(x: int, lo: int, hi: int): (r: int)
    requires lo <= hi
    ensures lo <= r <= hi
    ensures lo <= x <= hi ==> r == x
  {
    if x < lo then lo else if x > hi then hi else x
  }

  /**
   * The page the service returns: the run of consecutive entries that starts
   * at the skip count (clamped into the dictionary) and is at most `pageSize`
   * long. It keeps the enumeration order and its keys stay distinct, so
   * `ToDictionary` cannot throw.
   */
  function Page<K(==), V>(d: Dict<K, V>, page: int32, pageSize: int32): (r: Dict<K, V>)
    ensures var start := Clamp(SkipCount(page, pageSize) as int, 0, |d|);
            var len := Clamp(pageSize as int, 0, |d| - start);
            r == d[start..start + len]
  {
    var skip := SkipCount(page, pageSize) as int;
    var start := Clamp(skip, 0, |d|);
    var len := Clamp(pageSize as int, 0, |d| - start);
    var rest: seq<(K, V)> := Skip(d, skip);
    assert rest == d[start..];
    var taken: seq<(K, V)> := Take(rest, pageSize as int);
    assert taken == rest[..len];
    assert taken == d[start..start + len];
    SliceKeepsKeysDistinct(d, start, start + len);
    taken
  }

  /** A page is a sub-dictionary of the whole: no more entries, each one taken from it unchanged. */
  lemma PageIsSubDictionary<K, V>(d: Dict<K, V>, page: int32, pageSize: int32)
    ensures |Page(d, page, pageSize)| <= |d|
    ensures pageSize <= 0 ==> Page(d, page, pageSize) == []
    ensures |Page(d, page, pageSize)| <= if pageSize < 0 then 0 else pageSize as int
    ensures forall e :: e in Page(d, page, pageSize) ==> e in d
  {
    var start := Clamp(SkipCount(page, pageSize) as int, 0, |d|);
    var len := Clamp(pageSize as int, 0, |d| - start);
    forall e | e in Page(d, page, pageSize)
      ensures e in d
    {
      var i :| 0 <= i < len && Page(d, page, pageSize)[i] == e;
      assert d[start + i] == e;
    }
  }

  /**
   * Without overflow the skip count is the mathematical `(page - 1) * pageSize`,
   * so the page starts at index max(0, (page - 1) * pageSize).
   */
  lemma SkipCountExact(page: int32, pageSize: int32)
    requires -0x8000_0000 <= (page as int - 1) * pageSize as int < 0x8000_0000
    ensures SkipCount(page, pageSize) as int == (page as int - 1) * pageSize as int
  {
    if page as int == -0x8000_0000 {
      // (page - 1) * pageSize is -2147483649 * pageSize, in range only for 0
      assert pageSize == 0;
      assert Wrap32(page as int - 1) as int * pageSize as int == 0;
    } else {
      assert Wrap32(page as int - 1) as int == page as int - 1;
    }
  }

  /**
   * With a positive page size, pages number the entries one after another:
   * entry i is entry i % pageSize of page i / pageSize + 1.
   */
  lemma {:induction false} EntryOnItsPage<K, V>(d: Dict<K, V>, pageSize: int32, i: nat)
    requires 0 < pageSize
    requires i < |d| && i < 0x7fff_ffff
    ensures 1 <= i / pageSize as int + 1 < 0x8000_0000
    ensures var p := (i / pageSize as int + 1) as int32;
            i % pageSize as int < |Page(d, p, pageSize)| &&
            Page(d, p, pageSize)[i % pageSize as int] == d[i]
  {
    var n := pageSize as int;
    var q, r := DivMod(i, n);
    var p := (q + 1) as int32;
    assert (p as int - 1) * n == q * n;
    SkipCountExact(p, pageSize);
    var start := Clamp(SkipCount(p, pageSize) as int, 0, |d|);
    assert start == q * n;
    var len := Clamp(n, 0, |d| - start);
    assert i - start == r < len;
  }

  /** Quotient and remainder of a natural number by a positive divisor. */
  lemma DivMod(i: nat, n: int) returns (q: nat, r: nat)
    requires 0 < n
    ensures q == i / n && r == i % n
    ensures i == q * n + r && r < n && q <= i
  {
    q, r := i / n, i % n;
    assert q * n >= q by {
      MulMonotone(q, n);
    }
  }

  lemma MulMonotone(q: nat, n: int)
    requires 1 <= n
    ensures q * n >= q
  {
    assert q * n == q + q * (n - 1);
  }

  /**
   * In unchecked arithmetic (1073741825 - 1) * 4 is 2^32, which wraps to 0:
   * page 1073741825 of size 4 repeats page 1 instead of being empty.
   */
  lemma OverflowRepeatsFirstPage<K, V>(d: Dict<K, V>)
    ensures Page(d, 1073741825, 4) == Page(d, 1, 4)
    ensures Page(d, -0x8000_0000, 2) == Page(d, 1, 2)
  {
    assert SkipCount(1073741825, 4) == 0;
    assert SkipCount(1, 4) == 0;
    // page - 1 wraps to int.MaxValue, and twice that wraps to -2
    assert SkipCount(-0x8000_0000, 2) == -2;
    assert SkipCount(1, 2) == 0;
  }

  /**
   * An overflowing low page can wrap to a large positive skip count: page
   * -1073741824 of size 3 skips 1073741821 entries and page int.MinValue of size
   * 3 skips 2147483645, so on any realistic dictionary both come back empty.
   */
  lemma OverflowedLowPageIsEmpty<K, V>(d: Dict<K, V>)
    requires |d| <= 1073741821
    ensures SkipCount(-0x4000_0000, 3) == 1073741821
    ensures SkipCount(-0x8000_0000, 3) == 2147483645
    ensures Page(d, -0x4000_0000, 3) == [] && Page(d, -0x8000_0000, 3) == []
  {
    assert SkipCount(-0x4000_0000, 3) == 1073741821;
    assert SkipCount(-0x8000_0000, 3) == 2147483645;
  }

  /**
   * Page numbers below 1 are not refused: with no overflow their skip count is
   * not positive, so LINQ skips nothing and the caller gets page 1.
   */
  lemma LowPageIsFirstPage<K, V>(d: Dict<K, V>, page: int32, pageSize: int32)
    requires page <= 1
    requires -0x8000_0000 <= (page as int - 1) * pageSize as int < 0x8000_0000
    ensures Page(d, page, pageSize) == Page(d, 1, pageSize)
  {
    SkipCountExact(page, pageSize);
    SkipCountExact(1, pageSize);
    var n := pageSize as int;
    if n > 0 {
      NonPositiveProduct(page as int - 1, n);
      assert Clamp(SkipCount(page, pageSize) as int, 0, |d|) == 0;
      assert Clamp(SkipCount(1, pageSize) as int, 0, |d|) == 0;
    } else {
      assert |Page(d, page, pageSize)| == 0 && |Page(d, 1, pageSize)| == 0;
    }
  }

  lemma NonPositiveProduct(a: int, b: int)
    requires a <= 0 <= b
    ensures a * b <= 0
  {
    assert a * b == -((-a) * b);
  }


  /** Two dated entries: page 1 of size 10 holds both, page 2 of size 1 only the second. */
  lemma TwoDayExamples<V>(first: V, second: V)
    ensures var d: Dict<string, V> := [("2020-01-01", first), ("2020-01-02", second)];
            Page(d, 1, 10) == d && Page(d, 2, 1) == [("2020-01-02", second)]
  {
    var d: Dict<string, V> := [("2020-01-01", first), ("2020-01-02", second)];
    assert SkipCount(1, 10) == 0 && SkipCount(2, 1) == 1;
  }
}
