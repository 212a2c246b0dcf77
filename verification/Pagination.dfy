/** Paged transaction lists: offsets, the page count through binary64, and what the pages add up to. */
module Pagination {
  import opened Wrappers
  import opened Numbers

  // Arguments

  function Clamp(x: int, lo: int, hi: int): int {
    if x < lo then lo else if x > hi then hi else x
  }

  /** `limit.max(1).min(100)` */
  function LimitOf(limit: i64): (r: i64)
    ensures 1 <= r <= 100 && (1 <= limit <= 100 ==> r == limit)
  {
    Clamp(limit, 1, 100)
  }

  /** `page.max(1)` */
  function PageOf(page: i64): (r: i64)
    ensures r >= 1 && (page >= 1 ==> r == page)
  {
    if page < 1 then 1 else page
  }

  /** `(page - 1) * limit` in 64 bits. */
  function OffsetOf(page: i64, limit: i64): i64 {
    WrapI64((page - 1) * limit)
  }

  function Distance(x: int, y: int): nat {
    if x < y then y - x else x - y
  }

  /** Arguments out of range are moved to the nearest admitted ones: a limit from 1 to 100, a page from 1 on. */
  lemma ArgumentsNearest(limit: i64, page: i64)
    ensures 1 <= LimitOf(limit) <= 100 && PageOf(page) >= 1
    ensures forall x | 1 <= x <= 100 :: Distance(limit, LimitOf(limit)) <= Distance(limit, x)
    ensures forall x | x >= 1 :: Distance(page, PageOf(page)) <= Distance(page, x)
  {
  }

  lemma WrapSign(x: int)
    ensures WrapI64(x) < 0 <==> x % TWO_64 >= TWO_63
  {
  }

  lemma Order(a: int, b: int, limit: nat)
    requires a <= b
    ensures a * limit <= b * limit
  {
    assert b * limit == a * limit + (b - a) * limit;
  }

  /** The offset is what it should be exactly when it fits. */
  lemma OffsetExactly(page: i64, limit: i64)
    ensures var p, l: int := PageOf(page), LimitOf(limit);
            && (OffsetOf(p, l) == (p - 1) * l <==> (p - 1) * l < TWO_63)
            && (p - 1) * l >= 0
  {
    hide WrapI64, PageOf, LimitOf;
    var p: int, l: int := PageOf(page), LimitOf(limit);
    Order(0, p - 1, l);
    WrapExact((p - 1) * l);
  }

  // Pages of a list

  function CeilDiv(n: nat, limit: nat): (r: nat)
    requires limit > 0
    ensures (r - 1) * limit < n <= r * limit
  {
    (n + limit - 1) / limit
  }

  /** LIMIT and OFFSET over the ordered list. */
  function PageRows<T>(rows: seq<T>, limit: nat, offset: nat): seq<T> {
    if offset >= |rows| then []
    else if offset + limit >= |rows| then rows[offset..] else rows[offset..offset + limit]
  }

  function PageAt<T>(rows: seq<T>, limit: nat, page: nat): seq<T>
    requires page > 0
  {
    Order(0, page - 1, limit);
    PageRows(rows, limit, (page - 1) * limit)
  }

  /** Pages 1 to `count`, one after the other. */
  function Pages<T>(rows: seq<T>, limit: nat, count: nat): seq<T> {
    if count == 0 then [] else Pages(rows, limit, count - 1) + PageAt(rows, limit, count)
  }

  function UpTo<T>(rows: seq<T>, n: nat): seq<T> {
    if n >= |rows| then rows else rows[..n]
  }

  lemma NextPage<T>(rows: seq<T>, limit: nat, offset: nat)
    requires limit > 0
    ensures UpTo(rows, offset) + PageRows(rows, limit, offset) == UpTo(rows, offset + limit)
  {
  }

  lemma UpToZero<T>(rows: seq<T>)
    ensures UpTo(rows, 0) == []
  {
  }

  lemma {:induction false} FirstPages<T>(rows: seq<T>, limit: nat, count: nat)
    requires limit > 0
    ensures count * limit >= 0
    ensures Pages(rows, limit, count) == UpTo(rows, count * limit)
  {
    hide UpTo, PageRows;
    if count > 0 {
      FirstPages(rows, limit, count - 1);
      var before := (count - 1) * limit;
      assert count * limit == before + limit;
      NextPage(rows, limit, before);
    } else {
      assert UpTo(rows, 0) == [] by { UpToZero(rows); }
    }
  }

  /** The pages up to the page count are the list, each row once and in order. */
  lemma PagesAreTheList<T>(rows: seq<T>, limit: nat)
    requires limit > 0
    ensures Pages(rows, limit, CeilDiv(|rows|, limit)) == rows
  {
    FirstPages(rows, limit, CeilDiv(|rows|, limit));
  }

  /** Each page before the last is full, the last is not empty, and those after it are. */
  lemma PageSizes<T>(rows: seq<T>, limit: nat, page: nat)
    requires limit > 0 && page >= 1
    ensures page < CeilDiv(|rows|, limit) ==> |PageAt(rows, limit, page)| == limit
    ensures page == CeilDiv(|rows|, limit) ==> 0 < |PageAt(rows, limit, page)| <= limit
    ensures page > CeilDiv(|rows|, limit) ==> PageAt(rows, limit, page) == []
  {
    var last := CeilDiv(|rows|, limit);
    hide CeilDiv;
    assert page * limit == (page - 1) * limit + limit;
    Order(0, page - 1, limit);
    if page < last {
      Order(page, last - 1, limit);
    } else if page > last {
      Order(last, page - 1, limit);
    }
  }

  // binary64 (IEEE 754-2019, sections 3.3 and 4.3.1)

  function Pow2(e: int): (r: real)
    ensures r > 0.0
    decreases if e >= 0 then e else -e
  {
    if e == 0 then 1.0 else if e > 0 then 2.0 * Pow2(e - 1) else Pow2(e + 1) / 2.0
  }

  lemma Pow2Next(e: int)
    ensures Pow2(e + 1) == 2.0 * Pow2(e)
  {
  }

  /** The value is an integer of 53 bits times a power of two within the exponent range. */
  ghost predicate FloatParts(x: real, m: int, e: int) {
    -TWO_53 < m < TWO_53 && -1074 <= e <= 971 && x == (m as real) * Pow2(e)
  }

  /** A finite binary64 value. */
  ghost predicate IsFloat(x: real) {
    exists m: int, e: int :: FloatParts(x, m, e)
  }

  function Abs(x: real): real {
    if x < 0.0 then -x else x
  }

  /** `q` is `x` rounded to nearest: it is a binary64 value and none is nearer. Ties may go either way. */
  ghost predicate Rounded(q: real, x: real) {
    IsFloat(q) && forall y :: IsFloat(y) ==> Abs(x - q) <= Abs(x - y)
  }

  /** `ceil()` */
  function CeilReal(x: real): int {
    -((-x).Floor)
  }

  // Powers of two

  function IntPow2(s: nat): (r: int)
    ensures r > 0
  {
    if s == 0 then 1 else 2 * IntPow2(s - 1)
  }

  lemma {:induction false} Pow2IsInt(s: nat)
    ensures Pow2(s) == IntPow2(s) as real
  {
    if s > 0 {
      Pow2IsInt(s - 1);
    }
  }

  lemma IntPow2Next(s: nat)
    ensures IntPow2(s + 1) == 2 * IntPow2(s)
  {
  }

  lemma Swap(x: int, y: int)
    ensures 2 * (x * y) == x * (2 * y)
  {
  }

  lemma {:induction false} IntPow2Add(a: nat, b: nat)
    ensures IntPow2(a + b) == IntPow2(a) * IntPow2(b)
  {
    if b > 0 {
      IntPow2Add(a, b - 1);
      IntPow2Next(a + b - 1);
      IntPow2Next(b - 1);
      hide IntPow2;
      Swap(IntPow2(a), IntPow2(b - 1));
    }
  }

  lemma {:induction false} Pow2Inverse(s: nat)
    ensures Pow2(s) * Pow2(-(s as int)) == 1.0
  {
    if s > 0 {
      Pow2Inverse(s - 1);
      Pow2Next(s - 1);
      Pow2Next(-(s as int));
      var x, y := Pow2(s - 1), Pow2(-(s as int));
      assert (2.0 * x) * y == x * (2.0 * y);
    }
  }

  lemma FiftyThree()
    ensures IntPow2(53) == TWO_53 && IntPow2(52) == TWO_53 / 2
  {
    assert IntPow2(10) == 1024;
    IntPow2Add(10, 10);
    IntPow2Add(20, 20);
    IntPow2Add(40, 10);
    assert IntPow2(50) == 1125899906842624;
  }

  /** The power of two at or below k. */
  function Log2(k: nat): (p: nat)
    requires k >= 1
    ensures IntPow2(p) <= k < IntPow2(p + 1)
  {
    if k == 1 then 0 else Log2(k / 2) + 1
  }

  lemma {:induction false} PowersGrow(a: nat, b: nat)
    requires a <= b
    ensures IntPow2(a) <= IntPow2(b)
  {
    if a < b {
      PowersGrow(a, b - 1);
    }
  }

  // Which values are binary64 values

  lemma IntegersAreFloats(n: int)
    requires -TWO_53 <= n <= TWO_53
    ensures IsFloat(n as real)
  {
    if n == TWO_53 || n == -TWO_53 {
      assert FloatParts(n as real, n / 2, 1);
    } else {
      assert FloatParts(n as real, n, 0);
    }
  }

  lemma FloatOf(x: real, m: nat, e: int)
    requires m <= TWO_53 && -1074 <= e <= 970 && x == (m as real) * Pow2(e)
    ensures IsFloat(x)
  {
    hide Pow2;
    if m == TWO_53 {
      Pow2Next(e);
      assert x == ((TWO_53 / 2) as real) * Pow2(e + 1);
      assert FloatParts(x, TWO_53 / 2, e + 1);
    } else {
      assert FloatParts(x, m, e);
    }
  }

  lemma Product(a: int, b: int, c: int)
    requires a >= 0 && b <= c
    ensures a * b <= a * c
  {
    assert a * c == a * b + a * (c - b);
  }

  lemma EnoughBits(k: nat, p: nat)
    requires p <= 52 && k < IntPow2(p + 1)
    ensures 0 < k * IntPow2(52 - p) + 1 <= TWO_53
  {
    hide IntPow2;
    var unit := IntPow2(52 - p);
    FiftyThree();
    IntPow2Add(p + 1, 52 - p);
    Product(unit, k + 1, IntPow2(p + 1));
    assert unit * (k + 1) == k * unit + unit;
  }

  lemma Scale(k: nat, unit: int, step: real)
    requires (unit as real) * step == 1.0
    ensures ((k * unit + 1) as real) * step == k as real + step
  {
    assert (k * unit) as real == (k as real) * (unit as real);
    assert ((k as real) * (unit as real)) * step == (k as real) * ((unit as real) * step);
  }

  /** The next value after an integer k of p + 1 bits lies 2^(p-52) above it. */
  lemma NextFloat(k: nat, p: nat)
    requires p <= 52 && IntPow2(p) <= k < IntPow2(p + 1)
    ensures IsFloat(k as real + Pow2(p - 52))
  {
    hide IntPow2, Pow2;
    var s := 52 - p;
    var unit, m := IntPow2(s), k * IntPow2(s) + 1;
    EnoughBits(k, p);
    FiftyThree();
    var v, step := k as real, Pow2(p - 52);
    Pow2Inverse(s);
    Pow2IsInt(s);
    Scale(k, unit, step);
    FloatOf(v + step, m, p - 52);
  }

  lemma TinyFloat()
    ensures IsFloat(1.0 / 128.0)
  {
    assert Pow2(-7) == 1.0 / 128.0;
    assert FloatParts(1.0 / 128.0, 1, -7);
  }

  // The page count

  /** Rounding keeps an exact value. */
  lemma RoundedExact(q: real, x: real)
    requires Rounded(q, x) && IsFloat(x)
    ensures q == x
  {
    hide IsFloat;
    assert Abs(x - q) <= Abs(x - x);
  }

  /** A value at or below n does not round to above n, if n is a binary64 value. */
  lemma RoundedBelow(q: real, x: real, n: real)
    requires Rounded(q, x) && IsFloat(n) && x <= n
    ensures q <= n
  {
    hide IsFloat;
    assert Abs(x - q) <= Abs(x - n);
  }

  /** A value x above k does not round to k or below, if some y above k is nearer to x than k is. */
  lemma RoundedAbove(q: real, x: real, k: real, y: real)
    requires Rounded(q, x) && IsFloat(y) && k < x && k < y && y - k < 2.0 * (x - k)
    ensures q > k
  {
    hide IsFloat;
    assert Abs(x - q) <= Abs(x - y) < x - k;
  }

  lemma Divide(a: real, l: real)
    requires a >= 1.0 && l > 0.0
    ensures a / l >= 1.0 / l
  {
    assert a / l - 1.0 / l == (a - 1.0) / l;
  }

  /** A quotient that lies above the integer k lies a whole 1 / limit above it. */
  lemma QuotientGap(count: nat, limit: nat, k: nat)
    requires limit > 0 && k * limit < count
    ensures (count as real) / (limit as real) - k as real >= 1.0 / (limit as real)
  {
    var c, l, r := count as real, limit as real, k as real;
    assert (k * limit) as real == r * l;
    assert c - r * l >= 1.0;
    Divide(c - r * l, l);
    assert (c - r * l) / l == c / l - r;
  }

  lemma Least(l: real)
    requires 1.0 <= l <= 100.0
    ensures 1.0 / l >= 1.0 / 100.0
  {
    assert 1.0 / l - 1.0 / 100.0 == (100.0 - l) / (100.0 * l);
  }

  lemma Cancel(a: int, b: int, c: int)
    requires a > 0 && a * b < a * c
    ensures b < c
  {
    if b >= c {
      Product(a, c, b);
      assert false;
    }
  }

  lemma Shrink(a: real, b: real, l: real)
    requires a < b && l > 0.0
    ensures a / l < b / l
  {
    assert b / l - a / l == (b - a) / l;
  }

  lemma StepBelowGap(count: nat, limit: nat, k: nat, p: nat)
    requires 1 <= limit && count <= TWO_53 && p <= 52 && IntPow2(p) <= k && k * limit < count
    ensures Pow2(p - 52) < 2.0 / (limit as real)
  {
    hide IntPow2, Pow2;
    FiftyThree();
    var s, l := 52 - p, limit as real;
    var half := TWO_53 / 2;
    IntPow2Add(p, s);
    Pow2Inverse(s);
    Pow2IsInt(s);
    // 2^p * limit <= k * limit < 2^53, so limit < 2 * 2^(52 - p)
    var low, unit := IntPow2(p), IntPow2(s);
    assert low * limit <= k * limit;
    assert low * limit < 2 * (low * unit);
    Cancel(low, limit, 2 * unit);
    var step := Pow2(p - 52);
    assert (unit as real) * step == 1.0;
    assert l < 2.0 * (unit as real);
    assert l * step < 2.0 * ((unit as real) * step);
    assert step == (l * step) / l;
    Shrink(l * step, 2.0, l);
  }

  lemma SmallExponent(k: nat, p: nat)
    requires IntPow2(p) <= k < TWO_53
    ensures p <= 52
  {
    if p > 52 {
      FiftyThree();
      PowersGrow(53, p);
    }
  }

  /** The rounded quotient lies above every integer that the quotient lies above. */
  lemma QuotientStaysAbove(count: nat, limit: nat, q: real, k: nat)
    requires 1 <= limit <= 100 && count <= TWO_53 && k * limit < count
    requires Rounded(q, (count as real) / (limit as real))
    ensures q > k as real
  {
    hide Rounded, IsFloat, Pow2, IntPow2, Log2;
    var x := (count as real) / (limit as real);
    QuotientGap(count, limit, k);
    assert 1.0 / (limit as real) >= 1.0 / 100.0 by { Least(limit as real); }
    if k == 0 {
      TinyFloat();
      RoundedAbove(q, x, 0.0, 1.0 / 128.0);
    } else {
      var p: int := Log2(k);
      SmallExponent(k, p);
      NextFloat(k, p);
      StepBelowGap(count, limit, k, p);
      RoundedAbove(q, x, k as real, k as real + Pow2(p - 52));
    }
  }

  lemma CeilIs(q: real, n: int)
    requires (n - 1) as real < q <= n as real
    ensures CeilReal(q) == n
  {
  }

  lemma PageCountSmall(count: nat, limit: nat)
    requires limit > 0
    ensures CeilDiv(count, limit) <= count
  {
    var n := CeilDiv(count, limit);
    hide CeilDiv;
    if n > 0 {
      Product(n - 1, 1, limit);
    }
  }

  lemma QuotientBelow(count: nat, limit: nat, n: nat)
    requires limit > 0 && count <= n * limit
    ensures (count as real) / (limit as real) <= n as real
  {
    var c, l, r := count as real, limit as real, n as real;
    assert (n * limit) as real == r * l;
    assert r - c / l == (r * l - c) / l;
  }

  /**
    The page count is exact: for up to 2^53 rows and every admitted limit, the conversion of the
    count, the division and the rounding up, each rounded to nearest, give the integer quotient
    rounded up.
   */
  lemma PageCountExact(count: nat, limit: i64, c: real, q: real)
    requires count <= TWO_53
    requires Rounded(c, count as real) && Rounded(q, c / (LimitOf(limit) as real))
    ensures CeilReal(q) == CeilDiv(count, LimitOf(limit))
  {
    hide Rounded, IsFloat, CeilReal, CeilDiv;
    var l, n := LimitOf(limit), CeilDiv(count, LimitOf(limit));
    IntegersAreFloats(count);
    RoundedExact(c, count as real);
    var x := (count as real) / (l as real);
    PageCountSmall(count, l);
    IntegersAreFloats(n);
    QuotientBelow(count, l, n);
    RoundedBelow(q, x, n as real);
    if n > 0 {
      QuotientStaysAbove(count, l, q, n - 1);
    } else {
      assert x == 0.0;
      RoundedExact(q, x);
    }
    CeilIs(q, n);
  }

  lemma RoundedIsFloat(q: real, x: real)
    requires Rounded(q, x)
    ensures IsFloat(q)
  {
  }

  lemma RoundedNotBelow(q: real, x: real, n: real)
    requires Rounded(q, x) && IsFloat(n) && n <= x
    ensures n <= q
  {
    hide IsFloat;
    assert Abs(x - q) <= Abs(x - n);
  }

  lemma {:induction false} SmallPower(e: int)
    requires e <= 0
    ensures Pow2(e) <= 1.0
    decreases -e
  {
    if e < 0 {
      SmallPower(e + 1);
    }
  }

  lemma NonNegative(x: real, y: real)
    requires x >= 0.0 && y >= 0.0
    ensures x * y >= 0.0
  {
  }

  lemma NotEnoughBits(m: int, e: int)
    requires m < TWO_53 && e <= 0
    ensures (m as real) * Pow2(e) < TWO_53 as real
  {
    SmallPower(e);
    var x, y := m as real, Pow2(e);
    hide Pow2;
    if m > 0 {
      NonNegative(x, 1.0 - y);
      assert x - x * y == x * (1.0 - y);
    } else {
      NonNegative(-x, y);
      assert -(x * y) == (-x) * y;
    }
  }

  lemma EvenProduct(m: int, e: int) returns (h: int)
    requires e > 0
    ensures (m as real) * Pow2(e) == (2 * h) as real
  {
    h := m * IntPow2(e - 1);
    Pow2IsInt(e);
    assert (m * IntPow2(e)) as real == (m as real) * (IntPow2(e) as real);
    assert m * IntPow2(e) == 2 * h;
  }

  /** From 2^53 on, binary64 has the even integers at most. */
  lemma BigFloatsAreEven(x: real) returns (h: int)
    requires IsFloat(x) && x >= TWO_53 as real
    ensures x == (2 * h) as real
  {
    hide Pow2, IntPow2;
    var m: int, e: int :| FloatParts(x, m, e);
    if e <= 0 {
      NotEnoughBits(m, e);
    } else {
      h := EvenProduct(m, e);
    }
  }

  /** The bound is sharp: with one row more and one row a page, the page count is wrong, however ties are rounded. */
  lemma PageCountInexactBeyond(c: real, q: real)
    requires Rounded(c, (TWO_53 + 1) as real) && Rounded(q, c / (LimitOf(1) as real))
    ensures CeilReal(q) != CeilDiv(TWO_53 + 1, LimitOf(1))
  {
    hide Rounded, IsFloat, CeilReal;
    var x := c / (LimitOf(1) as real);
    assert x == c / 1.0 == c;
    assert IsFloat(c) by { RoundedIsFloat(c, (TWO_53 + 1) as real); }
    RoundedExact(q, c);
    IntegersAreFloats(TWO_53);
    RoundedNotBelow(c, (TWO_53 + 1) as real, TWO_53 as real);
    var h := BigFloatsAreEven(c);
    CeilIs(q, 2 * h);
  }

  // The handlers' pages

  /** What the handler shows for its arguments: the database refuses a negative offset. */
  function HandlerPage<T>(rows: seq<T>, page: i64, limit: i64): Option<seq<T>> {
    var offset := OffsetOf(PageOf(page), LimitOf(limit));
    if offset < 0 then None else Some(PageRows(rows, LimitOf(limit), offset))
  }

  /** The request fails exactly when the product, in 64 bits, comes out negative. */
  lemma RefusedExactly<T>(rows: seq<T>, page: i64, limit: i64)
    ensures HandlerPage(rows, page, limit).None? <==> ((PageOf(page) - 1) * LimitOf(limit)) % TWO_64 >= TWO_63
  {
    var product := (PageOf(page) - 1) * LimitOf(limit);
    hide PageOf, LimitOf, PageRows;
    WrapSign(product);
  }

  lemma HandlerPageRight<T>(rows: seq<T>, page: i64, limit: i64)
    requires page >= 1 && (page - 1) * LimitOf(limit) < TWO_63
    ensures HandlerPage(rows, page, limit) == Some(PageAt(rows, LimitOf(limit), page))
  {
    hide PageRows, OffsetOf;
    OffsetExactly(page, limit);
  }

  /** The handler's pages 1 to `count`, one after the other; an error counts as no rows. */
  function HandlerPages<T>(rows: seq<T>, limit: i64, count: nat): seq<T>
    requires count < TWO_63
  {
    if count == 0 then []
    else
      var before := HandlerPages(rows, limit, count - 1);
      match HandlerPage(rows, count, limit)
      case Some(shown) => before + shown
      case None => before
  }

  lemma {:induction false} HandlerPagesRight<T>(rows: seq<T>, limit: i64, count: nat)
    requires count < TWO_63 && forall n | 0 <= n < count :: n * LimitOf(limit) < TWO_63
    ensures HandlerPages(rows, limit, count) == Pages(rows, LimitOf(limit), count)
  {
    hide PageAt, HandlerPage, LimitOf;
    if count > 0 {
      HandlerPagesRight(rows, limit, count - 1);
      HandlerPageRight(rows, count, limit);
    }
  }

  /**
    What a client sees that asks for every page it is told of, over a list of up to 2^53 rows in a fixed
    order: with the admitted limit, the wrapped offsets and the page count of the handler, the list, each
    row once and in order. Any further page is empty as long as its offset fits in 64 bits.
   */
  lemma HandlerPagesAreTheList<T>(rows: seq<T>, limit: i64, c: real, q: real, page: i64)
    requires |rows| <= TWO_53
    requires Rounded(c, |rows| as real) && Rounded(q, c / (LimitOf(limit) as real))
    ensures 0 <= CeilReal(q) < TWO_63 && HandlerPages(rows, limit, CeilReal(q)) == rows
    ensures page > CeilReal(q) && page >= 1 && (page - 1) * LimitOf(limit) < TWO_63 ==>
              HandlerPage(rows, page, limit) == Some([])
  {
    hide Rounded, CeilReal, CeilDiv, HandlerPage, HandlerPages, Pages, LimitOf;
    var l: nat, total := LimitOf(limit), CeilReal(q);
    PageCountExact(|rows|, limit, c, q);
    assert 1 <= l <= 100;
    PageCountSmall(|rows|, l);
    forall n | 0 <= n < total
      ensures n * l < TWO_63
    {
      Order(n, total - 1, l);
    }
    HandlerPagesRight(rows, limit, total);
    PagesAreTheList(rows, l);
    if page > total && page >= 1 && (page - 1) * l < TWO_63 {
      HandlerPageRight(rows, page, limit);
      PageSizes(rows, l, page);
    }
  }

  /** Beyond that the offset wraps: a page far beyond the end shows the first page again. */
  lemma FarPageIsFirst<T>(rows: seq<T>)
    ensures HandlerPage(rows, TWO_64 / 64 + 1, 64) == Some(PageAt(rows, 64, 1))
  {
    assert (TWO_64 / 64) * 64 == TWO_64;
    assert WrapI64(TWO_64) == 0;
  }
}
