/**
 * Paging of list endpoints: the page count goes through a double-precision division, and the pages must still
 * partition the rows.
 */
module Pagination {
  import opened Arithmetic
  import opened Doubles
  import opened Text

  const TWO_31 := 0x8000_0000

  // ---------------------------------------------------------------------------
  // The ceiling of a rounded quotient
  // ---------------------------------------------------------------------------

  function CeilDiv(t: nat, l: int): (n: int)
    requires l >= 1
    ensures (n - 1) * l < t <= n * l && 0 <= n <= t
  {
    CeilDivBounds(t, l);
    (t + l - 1) / l
  }

  lemma CeilDivBounds(t: nat, l: int)
    requires l >= 1
    ensures var n := (t + l - 1) / l; (n - 1) * l < t <= n * l && 0 <= n <= t
  {
    var n := (t + l - 1) / l;
    assert n * l <= t + l - 1 < n * l + l;
    assert (n - 1) * l == n * l - l;
    if n >= 1 {
      MulGrows(n - 1, l);
    }
  }

  /** The exact quotient lies above `n - 1`, by at least one `l`-th, and at most at `n`. */
  lemma QuotientBounds(t: nat, l: int, p: int)
    requires 1 <= l <= p
    ensures var q, n := t as real / l as real, CeilDiv(t, l);
            (n - 1) as real + 1.0 / p as real <= q <= n as real
  {
    hide CeilDiv;
    var n := CeilDiv(t, l);
    CastProduct(n, l);
    CastProduct(n - 1, l);
    QuotientAtMost(t as real, l as real, n as real);
    QuotientAbove(t as real, l as real, (n - 1) as real);
    Reciprocal(l, p);
  }

  /** Rounding the quotient of two 32-bit integers never moves it across an integer, nor down onto one. */
  lemma RoundingKeepsCeiling(t: nat, l: int, d: real)
    requires t < TWO_31 && 1 <= l < TWO_31 && IsNearest(d, t as real / l as real)
    ensures Ceiling(d) == CeilDiv(t, l)
  {
    hide IsDouble, IsNearest, CeilDiv, Pow2, Ceiling;
    var q, n := t as real / l as real, CeilDiv(t, l);
    var k := PowerAbove(l);
    var p := Pow2(k);
    QuotientBounds(t, l, p);
    QuotientSize(t, l, p);
    IntegerIsDouble(n);
    IntegerIsDouble(n - 1);
    DyadicIsDouble((n - 1) * p + 1, k);
    SplitFraction(n - 1, p);
    Reciprocal(p, p);
    NearestBetween(n, 1.0 / p as real, q, d);
    CeilingUnique(d, n);
  }

  lemma QuotientSize(t: nat, l: int, p: int)
    requires t < TWO_31 && 1 <= l < TWO_31 && 1 <= p < 2 * l
    ensures var n := CeilDiv(t, l); -TWO_53 < (n - 1) * p + 1 < TWO_53
  {
    hide CeilDiv;
    var n := CeilDiv(t, l);
    if n == 0 {
      assert (n - 1) * p == -p;
    } else {
      MulAtMost(n - 1, p, 2 * l);
      MulAtMost(n - 1, 1, p);
      assert (n - 1) * (2 * l) == 2 * ((n - 1) * l);
    }
  }

  // ---------------------------------------------------------------------------
  // The page count
  // ---------------------------------------------------------------------------

  function Max(a: int, b: int): int {
    if a < b then b else a
  }

  /** What a division of two 32-bit integers, as doubles, can return. */
  datatype Quotient = NotANumber | Infinity | Finite(value: real)

  /** `(double)total / limit` by IEEE 754: division by zero has a result of its own, any other is a nearest double. */
  ghost predicate Divides(total: nat, limit: int, quotient: Quotient) {
    if limit == 0 then quotient == if total == 0 then NotANumber else Infinity
    else quotient.Finite? && IsNearest(quotient.value, total as real / limit as real)
  }

  /** `(int)Math.Ceiling(quotient)`; since .NET 9 the conversion saturates, and gives 0 for what is not a number. */
  function CeilingToInt32(quotient: Quotient): int {
    match quotient
    case NotANumber => 0
    case Infinity => TWO_31 - 1
    case Finite(x) => Saturate(Ceiling(x))
  }

  function Saturate(n: int): int {
    if n >= TWO_31 then TWO_31 - 1 else if n < -TWO_31 then -TWO_31 else n
  }

  /** `CalculatePageCount`, given the double that the division returned. */
  function CalculatePageCount(quotient: Quotient): int {
    Max(1, CeilingToInt32(quotient))
  }

  /**
   * For every 32-bit total and limit, whatever nearest double the division returns: the page count is the exact
   * integer ceiling, 1 for an empty list or a negative limit, and the largest 32-bit integer for a limit of 0.
   */
  lemma PageCountExact(total: nat, limit: int, quotient: Quotient)
    requires total < TWO_31 && -TWO_31 <= limit < TWO_31 && Divides(total, limit, quotient)
    ensures limit > 0 ==> CalculatePageCount(quotient) == Max(1, CeilDiv(total, limit))
    ensures limit < 0 || total == 0 ==> CalculatePageCount(quotient) == 1
    ensures limit == 0 < total ==> CalculatePageCount(quotient) == TWO_31 - 1
  {
    hide IsDouble, CeilDiv, Ceiling;
    if limit > 0 {
      RoundingKeepsCeiling(total, limit, quotient.value);
    } else if limit < 0 {
      NegativeQuotient(total as real, limit as real);
      NearestNotPositive(total as real / limit as real, quotient.value);
      CeilingNotPositive(quotient.value);
    }
  }

  /** The division always has a result. */
  lemma DividesExists(total: nat, limit: int)
    requires total < TWO_31 && -TWO_31 <= limit < TWO_31
    ensures exists quotient :: Divides(total, limit, quotient)
  {
    hide IsNearest;
    if limit == 0 {
      assert Divides(total, limit, if total == 0 then NotANumber else Infinity);
    } else {
      var l := if limit > 0 then limit else -limit;
      var d := NearestQuotient(total, l);
      if limit > 0 {
        assert Divides(total, limit, Finite(d));
      } else {
        NearestNegate(total as real / l as real, d);
        NegateQuotient(total as real, l as real);
        assert Divides(total, limit, Finite(-d));
      }
    }
  }

  lemma NearestQuotient(total: nat, limit: int) returns (d: real)
    requires total < TWO_31 && 0 < limit <= TWO_31
    ensures IsNearest(d, total as real / limit as real)
  {
    var q := total as real / limit as real;
    if total == 0 {
      d := 0.0;
      IntegerIsDouble(0);
    } else {
      MulAtMost(total, 1, limit);
      CastProduct(total, limit);
      QuotientAtMost(total as real, limit as real, total as real);
      PositiveQuotient(total as real, limit as real);
      NearestExists(q);
      d :| IsNearest(d, q);
    }
  }

  lemma NegateQuotient(t: real, l: real)
    requires l > 0.0
    ensures t / -l == -(t / l)
  {
    var x, y := t / -l, -(t / l);
    DivMul(t, -l);
    DivMul(t, l);
    assert y * -l == t;
    assert (x - y) * l == 0.0;
    MulOrder(x, y, l);
    MulOrder(y, x, l);
  }

  lemma PositiveQuotient(t: real, l: real)
    requires t > 0.0 && l > 0.0
    ensures t / l > 0.0
  {
    DivMul(t, l);
    MulOrder(0.0, t / l, l);
  }

  lemma NearestNotPositive(q: real, d: real)
    requires q <= 0.0 && IsNearest(d, q)
    ensures d <= 0.0
  {
    IntegerIsDouble(0);
    assert Distance(d, q) <= Distance(0 as real, q);
  }

  lemma NegativeQuotient(t: real, l: real)
    requires t >= 0.0 && l < 0.0
    ensures t / l <= 0.0
  {
    var q := t / l;
    DivMul(t, l);
    if q > 0.0 {
      MulOrder(0.0, q, -l);
    }
  }

  lemma CeilingNotPositive(x: real)
    requires x <= 0.0
    ensures Ceiling(x) <= 0
  {
  }

  // ---------------------------------------------------------------------------
  // The pages
  // ---------------------------------------------------------------------------

  /** A query value: missing, not an integer, or an integer. */
  datatype Field = Missing | Unparsable | Number(value: int)

  datatype Query = Query(limit: Field, page: Field)

  function GetResultsPerPage(q: Query): int {
    if q.limit.Number? then q.limit.value else 20
  }

  function GetCurrentPage(q: Query): (page: int)
    ensures page >= 1
  {
    if q.page.Number? then Max(1, q.page.value) else 1
  }

  /** Unchecked 32-bit arithmetic. */
  function Wrap32(x: int): (w: int)
    ensures -TWO_31 <= w < TWO_31
    ensures -TWO_31 <= x < TWO_31 ==> w == x
  {
    (x + TWO_31) % 0x1_0000_0000 - TWO_31
  }

  function CalculateOffset(q: Query): int {
    Wrap32((GetCurrentPage(q) - 1) * GetResultsPerPage(q))
  }

  function Skip<T>(rows: seq<T>, n: int): seq<T> {
    if n <= 0 then rows else if n >= |rows| then [] else rows[n..]
  }

  function Take<T>(rows: seq<T>, n: int): seq<T> {
    if n <= 0 then [] else if n >= |rows| then rows else rows[..n]
  }

  /**
   * The paging part of `GetMany`: without a limit the whole list is returned. PostgreSQL refuses a negative `OFFSET` or
   * `LIMIT`, which fails the request.
   */
  function GetMany<T>(rows: seq<T>, q: Query): Option<seq<T>> {
    if q.limit.Missing? then Some(rows)
    else if CalculateOffset(q) < 0 || GetResultsPerPage(q) < 0 then None
    else Some(Take(Skip(rows, CalculateOffset(q)), GetResultsPerPage(q)))
  }

  /** The number of pages the response header announces. */
  function Pages(total: nat, limit: int): int
    requires limit >= 1
  {
    Max(1, CeilDiv(total, limit))
  }

  function Page<T>(rows: seq<T>, limit: int, page: int): Option<seq<T>> {
    GetMany(rows, Query(Number(limit), Number(page)))
  }

  function Clamp(x: int, n: nat): (r: nat)
    ensures r <= n
  {
    if x < 0 then 0 else if x > n then n else x
  }

  /** Page `p` is the slice of `limit` rows that starts `(p - 1) * limit` rows in, up to the announced last page. */
  lemma PageIsSlice<T>(rows: seq<T>, limit: int, page: int)
    requires |rows| < TWO_31 && 1 <= limit < TWO_31 && 1 <= page <= Pages(|rows|, limit)
    ensures 0 <= (page - 1) * limit <= |rows|
    ensures Page(rows, limit, page) == Some(rows[(page - 1) * limit..Clamp(page * limit, |rows|)])
  {
    hide CeilDiv, Wrap32;
    var start := (page - 1) * limit;
    MulAtMost(page - 1, 1, limit);
    if page > 1 {
      var n := CeilDiv(|rows|, limit);
      MulMonotone(page - 1, n - 1, limit);
    }
    assert page * limit == start + limit;
    assert Skip(rows, start) == rows[start..];
    assert Take(rows[start..], limit) == rows[start..Clamp(start + limit, |rows|)];
    assert CalculateOffset(Query(Number(limit), Number(page))) == start;
  }

  lemma MulMonotone(x: int, y: int, l: int)
    requires x <= y && 0 <= l
    ensures x * l <= y * l
  {
  }

  /** The rows of the first `n` pages; a failed request adds none. */
  function FirstPages<T>(rows: seq<T>, limit: int, n: nat): seq<T> {
    if n == 0 then []
    else
      var page := Page(rows, limit, n);
      FirstPages(rows, limit, n - 1) + if page.Some? then page.value else []
  }

  /** The announced pages, one after the other, are the whole list. */
  lemma PagesCoverRows<T>(rows: seq<T>, limit: int)
    requires |rows| < TWO_31 && 1 <= limit < TWO_31
    ensures FirstPages(rows, limit, Pages(|rows|, limit)) == rows
  {
    hide CeilDiv, FirstPages;
    var n := Pages(|rows|, limit);
    FirstPagesAre(rows, limit, n);
    MulMonotone(CeilDiv(|rows|, limit), n, limit);
    assert rows[..|rows|] == rows;
  }

  lemma {:induction false} FirstPagesAre<T>(rows: seq<T>, limit: int, n: nat)
    requires |rows| < TWO_31 && 1 <= limit < TWO_31 && n <= Pages(|rows|, limit)
    ensures FirstPages(rows, limit, n) == rows[..Clamp(n * limit, |rows|)]
  {
    hide CeilDiv, Pages, Page;
    if n > 0 {
      FirstPagesAre(rows, limit, n - 1);
      PageIsSlice(rows, limit, n);
    }
  }

  /** Every page but the last is full, and the last is empty only for an empty list. */
  lemma PageSizes<T>(rows: seq<T>, limit: int, page: int)
    requires |rows| < TWO_31 && 1 <= limit < TWO_31 && 1 <= page <= Pages(|rows|, limit)
    ensures Page(rows, limit, page).Some?
    ensures var size := |Page(rows, limit, page).value|;
            && (page < Pages(|rows|, limit) ==> size == limit)
            && (page == Pages(|rows|, limit) ==> size == |rows| - (page - 1) * limit <= limit)
            && (size == 0 <==> rows == [])
  {
    hide CeilDiv, Page;
    PageIsSlice(rows, limit, page);
    var n := CeilDiv(|rows|, limit);
    assert page * limit == (page - 1) * limit + limit;
    if page < n {
      MulMonotone(page, n - 1, limit);
    } else {
      MulMonotone(n, page, limit);
    }
  }

  lemma RowAt<T>(rows: seq<T>, limit: int, page: int, r: nat)
    requires |rows| < TWO_31 && 1 <= limit < TWO_31 && r < limit && page >= 1
    requires 0 <= (page - 1) * limit + r < |rows|
    ensures page <= Pages(|rows|, limit) && Page(rows, limit, page).Some?
    ensures r < |Page(rows, limit, page).value| && Page(rows, limit, page).value[r] == rows[(page - 1) * limit + r]
  {
    hide CeilDiv, Page;
    var n := CeilDiv(|rows|, limit);
    if page > n {
      MulMonotone(n, page - 1, limit);
    }
    assert page * limit == (page - 1) * limit + limit;
    PageIsSlice(rows, limit, page);
  }

  /** Each row is on the page its index says, and at the place its index says. */
  lemma RowOnPage<T>(rows: seq<T>, limit: int, i: nat)
    requires i < |rows| < TWO_31 && 1 <= limit < TWO_31
    ensures var page := i / limit + 1;
            && page <= Pages(|rows|, limit) && Page(rows, limit, page).Some?
            && i % limit < |Page(rows, limit, page).value|
            && Page(rows, limit, page).value[i % limit] == rows[i]
  {
    hide *;
    DivMod(i, limit);
    RowAt(rows, limit, i / limit + 1, i % limit);
  }

  lemma DivMod(i: nat, l: int)
    requires l >= 1
    ensures 0 <= i / l && 0 <= i % l < l && i / l * l + i % l == i
  {
  }

  /** Past the announced pages there is nothing, as long as the offset does not wrap. */
  lemma PastTheEnd<T>(rows: seq<T>, limit: int, page: int)
    requires |rows| < TWO_31 && 1 <= limit < TWO_31 && page > Pages(|rows|, limit)
    requires (page - 1) * limit < TWO_31
    ensures Page(rows, limit, page) == Some([])
  {
    hide CeilDiv, Wrap32;
    MulMonotone(CeilDiv(|rows|, limit), page - 1, limit);
  }

  /** The offset is the intended one exactly while the product fits in 32 bits. */
  lemma OffsetExact(q: Query)
    requires GetResultsPerPage(q) >= 0
    ensures CalculateOffset(q) == (GetCurrentPage(q) - 1) * GetResultsPerPage(q)
       <==> (GetCurrentPage(q) - 1) * GetResultsPerPage(q) < TWO_31
  {
    MulAtMost(GetCurrentPage(q) - 1, 0, GetResultsPerPage(q));
  }

  /** A request without a limit is answered, whatever its page, with the announced pages of any limit put together. */
  lemma WholeList<T>(rows: seq<T>, limit: int, q: Query)
    requires |rows| < TWO_31 && 1 <= limit < TWO_31 && q.limit.Missing?
    ensures GetMany(rows, q) == Some(FirstPages(rows, limit, Pages(|rows|, limit)))
  {
    hide FirstPages, Pages;
    PagesCoverRows(rows, limit);
  }

  /**
   * A request without a page, or with one that is no number or below 1, asks for the first; an unreadable limit is 20
   * rows.
   */
  lemma Defaults<T>(rows: seq<T>, q: Query)
    ensures !q.page.Number? || q.page.value < 1 ==> GetMany(rows, q) == GetMany(rows, q.(page := Number(1)))
    ensures q.limit.Unparsable? ==> GetMany(rows, q) == GetMany(rows, q.(limit := Number(20)))
    ensures q.limit.Number? && 0 <= q.limit.value && (!q.page.Number? || q.page.value < 1) ==>
              GetMany(rows, q) == Some(rows[..Clamp(q.limit.value, |rows|)])
  {
    hide Wrap32;
    assert 0 * GetResultsPerPage(q) == 0;
    assert rows[..|rows|] == rows;
  }

  /**
   * A request fails exactly if it has a limit, and that is negative or the product modulo 2^32 is at least 2^31. Every
   * other is answered with a list.
   */
  lemma RequestFails<T>(rows: seq<T>, q: Query)
    ensures GetMany(rows, q).None? <==>
            && !q.limit.Missing?
            && (|| GetResultsPerPage(q) < 0
                || (GetCurrentPage(q) - 1) * GetResultsPerPage(q) % 0x1_0000_0000 >= TWO_31)
  {
    var x := (GetCurrentPage(q) - 1) * GetResultsPerPage(q);
    WrapSign(x);
  }

  lemma WrapSign(x: int)
    ensures Wrap32(x) < 0 <==> x % 0x1_0000_0000 >= TWO_31
  {
  }

  /** A page number far beyond the last one fails instead of coming back empty. */
  lemma WrappedOffset<T>(rows: seq<T>)
    ensures CalculateOffset(Query(Number(20), Number(107374184))) < 0
    ensures Page(rows, 20, 107374184).None?
  {
  }
}
