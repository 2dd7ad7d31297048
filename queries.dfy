/**
 * The query shapes the data-access layer uses, over a table held as a
 * sequence in its storage order: a WHERE filter, OFFSET/LIMIT paging and
 * `.first()`.
 */
module Queries {
  import opened Base

  function Min(a: int, b: int): int
  {
    if a <= b then a else b
  }

  /** The rows of `s` that satisfy `p`, in table order. */
  function Filter<T>(s: seq<T>, p: T -> bool): (r: seq<T>)
    ensures |r| <= |s|
    ensures forall i :: 0 <= i < |r| ==> r[i] in s && p(r[i])
    ensures forall i :: 0 <= i < |s| && p(s[i]) ==> s[i] in r
  {
    if s == [] then []
    else (if p(s[0]) then [s[0]] else []) + Filter(s[1..], p)
  }

  /** Filtering a table that grew by appending filters each part. */
  lemma {:induction false} FilterAppend<T>(a: seq<T>, b: seq<T>, p: T -> bool)
    ensures Filter(a + b, p) == Filter(a, p) + Filter(b, p)
  {
    if a == [] {
      assert a + b == b;
    } else {
      assert (a + b)[1..] == a[1..] + b;
      FilterAppend(a[1..], b, p);
    }
  }

  /** A filter every row passes keeps the whole table. */
  lemma {:induction false} FilterKeepsAll<T>(s: seq<T>, p: T -> bool)
    requires forall i :: 0 <= i < |s| ==> p(s[i])
    ensures Filter(s, p) == s
  {
    if s != [] {
      FilterKeepsAll(s[1..], p);
    }
  }

  /** A filter no row passes yields nothing. */
  lemma {:induction false} FilterKeepsNone<T>(s: seq<T>, p: T -> bool)
    requires forall i :: 0 <= i < |s| ==> !p(s[i])
    ensures Filter(s, p) == []
  {
    if s != [] {
      FilterKeepsNone(s[1..], p);
    }
  }

  /** OFFSET `skip` LIMIT `limit`: the i-th row returned is row `skip + i`. */
  function Page<T>(s: seq<T>, skip: nat, limit: nat): (r: seq<T>)
    ensures |r| == Min(limit, if skip <= |s| then |s| - skip else 0)
    ensures forall i :: 0 <= i < |r| ==> r[i] == s[skip + i]
  {
    if |s| <= skip then [] else s[skip..skip + Min(limit, |s| - skip)]
  }

  /**
   * `filter(p).offset(skip).limit(limit).all()`: only matching rows, at most
   * `limit` of them, the i-th being the (skip + i)-th match; and with no
   * offset and no more matches than the limit, every matching row.
   */
  function Select<T>(s: seq<T>, p: T -> bool, skip: nat, limit: nat): (r: seq<T>)
    ensures |r| <= limit
    ensures |r| == Min(limit, if skip <= |Filter(s, p)| then |Filter(s, p)| - skip else 0)
    ensures forall i :: 0 <= i < |r| ==> r[i] in s && p(r[i])
    ensures forall i :: 0 <= i < |r| ==> skip + i < |Filter(s, p)| && r[i] == Filter(s, p)[skip + i]
    ensures skip == 0 && |Filter(s, p)| <= limit ==> forall i :: 0 <= i < |s| && p(s[i]) ==> s[i] in r
  {
    var m := Filter(s, p);
    var r := Page(m, skip, limit);
    assert skip == 0 && |m| <= limit ==> r == m;
    r
  }

  /** The position of the first row satisfying `p`, if any. */
  function IndexWhere<T>(s: seq<T>, p: T -> bool): (r: Option<nat>)
    ensures r.Some? ==> r.value < |s| && p(s[r.value])
    ensures r.Some? ==> forall j :: 0 <= j < r.value ==> !p(s[j])
    ensures r.None? ==> forall j :: 0 <= j < |s| ==> !p(s[j])
  {
    if s == [] then None
    else if p(s[0]) then Some(0)
    else match IndexWhere(s[1..], p)
      case None => None
      case Some(k) => Some(k + 1)
  }

  /** Two tables that agree row by row on the predicate have their first match at the same place. */
  lemma {:induction false} IndexWhereAgrees<T, U>(a: seq<T>, p: T -> bool, b: seq<U>, q: U -> bool)
    requires |a| == |b|
    requires forall i :: 0 <= i < |a| ==> p(a[i]) == q(b[i])
    ensures IndexWhere(a, p) == IndexWhere(b, q)
  {
    if a != [] {
      IndexWhereAgrees(a[1..], p, b[1..], q);
    }
  }

  /** `filter(p).first()`: the first matching row, or none when no row matches. */
  function First<T>(s: seq<T>, p: T -> bool): (r: Option<T>)
    ensures r.Some? ==> exists k :: 0 <= k < |s| && s[k] == r.value && p(s[k]) && forall j :: 0 <= j < k ==> !p(s[j])
    ensures r.None? <==> forall j :: 0 <= j < |s| ==> !p(s[j])
  {
    match IndexWhere(s, p)
    case None => None
    case Some(k) => Some(s[k])
  }
}
