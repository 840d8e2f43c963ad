/**
 * What the three paginated listings share: reading `page` and `limit` from the
 * query string, `skip = (page - 1) * limit`, the window MongoDB returns for a
 * skip and a limit, `pages = Math.ceil(total / limit)`, collecting matching
 * records in key order, and sorting by a timestamp.
 */
module Listing {
  import opened Wrappers
  import opened Common
  import Text

  // ---------------------------------------------------------------- query numbers

  /** `parseInt(raw) || fallback`: a missing, unparsable or zero value gives the fallback. */
  function QueryNumber(raw: Option<string>, fallback: int): (n: int)
    ensures fallback != 0 ==> n != 0
    ensures raw.None? ==> n == fallback
    ensures raw.Some? && (Text.ParseInt(raw.value).None? || Text.ParseInt(raw.value) == Some(0)) ==> n == fallback
    ensures raw.Some? && Text.ParseInt(raw.value).Some? && Text.ParseInt(raw.value).value != 0 ==>
      n == Text.ParseInt(raw.value).value
  {
    var parsed := if raw.None? then None else Text.ParseInt(raw.value);
    if parsed.Some? && parsed.value != 0 then parsed.value else fallback
  }

  /** A query number written in decimal is read back as written, unless it is zero. */
  lemma QueryNumberDecimal(i: int, fallback: int)
    ensures QueryNumber(Some(Text.IntString(i)), fallback) == if i == 0 then fallback else i
  {
    Text.ParseIntDecimal(i);
  }

  /** `(page - 1) * limit`: the number of records before the requested page. */
  function Skip(page: int, limit: int): int {
    (page - 1) * limit
  }

  /** A page of 1 or more with a positive limit never skips a negative number of records. */
  lemma SkipNonNegative(page: int, limit: int)
    requires page >= 1 && limit >= 1
    ensures 0 <= Skip(page, limit) && Skip(page + 1, limit) == Skip(page, limit) + limit
  {
    assert Skip(page + 1, limit) == page * limit;
  }

  /** `Math.ceil(total / limit)`: the least integer at or above the quotient. */
  function Pages(total: nat, limit: int): (p: int)
    requires limit != 0
    ensures limit > 0 ==> (p - 1) * limit < total <= p * limit
    ensures limit < 0 ==> p * limit <= total < (p - 1) * limit
  {
    if limit > 0 then CeilDiv(total, limit) else -(total / -limit)
  }

  /** The least `q` with `q * d >= n`, for a positive divisor. */
  function CeilDiv(n: nat, d: nat): (q: nat)
    requires d > 0
    ensures (q - 1) * d < n <= q * d
  {
    var q := (n + d - 1) / d;
    var rem := (n + d - 1) % d;
    assert n + d - 1 == q * d + rem && 0 <= rem < d;
    assert (q - 1) * d == q * d - d;
    q
  }

  /** A positive limit and a total that is a whole number of pages: exactly that many pages. */
  lemma PagesExact(pages: nat, limit: nat)
    requires limit > 0
    ensures Pages(pages * limit, limit) == pages
  {
    var p := Pages(pages * limit, limit);
    if p < pages {
      MulMono(p, pages - 1, limit);
    } else if p > pages {
      MulMono(pages, p - 1, limit);
    }
  }

  lemma MulMono(a: int, b: int, k: nat)
    requires a <= b
    ensures a * k <= b * k
  {
    assert b * k - a * k == (b - a) * k;
  }

  // ---------------------------------------------------------------- windows

  function Abs(x: int): nat {
    if x < 0 then -x else x
  }

  /** `.skip(skip).limit(limit)`: from position `skip`, at most `|limit|` records (a negative limit counts as its absolute value). */
  function Window<T>(xs: seq<T>, skip: nat, limit: int): (r: seq<T>)
    ensures |r| == if skip >= |xs| then 0 else if |xs| - skip < Abs(limit) then |xs| - skip else Abs(limit)
    ensures forall i :: 0 <= i < |r| ==> r[i] == xs[skip + i]
  {
    var rest := if skip <= |xs| then xs[skip..] else [];
    if |rest| <= Abs(limit) then rest else rest[..Abs(limit)]
  }

  /** Consecutive pages of one listing do not overlap and leave no gap between them. */
  lemma WindowsTile<T>(xs: seq<T>, page: int, limit: int)
    requires page >= 1 && limit >= 1
    ensures Skip(page, limit) >= 0
    ensures Window(xs, Skip(page, limit), limit) + Window(xs, Skip(page + 1, limit), limit)
            == Window(xs, Skip(page, limit), 2 * limit)
  {
    SkipNonNegative(page, limit);
    var a := Window(xs, Skip(page, limit), limit);
    var b := Window(xs, Skip(page + 1, limit), limit);
    var c := Window(xs, Skip(page, limit), 2 * limit);
    assert |a| + |b| == |c|;
    forall i | 0 <= i < |c| ensures (a + b)[i] == c[i] {
      if i >= |a| {
        assert |a| == limit;
        assert (a + b)[i] == b[i - limit] == xs[Skip(page + 1, limit) + i - limit];
      }
    }
  }

  // ---------------------------------------------------------------- collecting and sorting

  /** Strictly increasing, hence without duplicates. */
  ghost predicate Increasing(ks: seq<nat>) {
    forall i, j :: 0 <= i < j < |ks| ==> ks[i] < ks[j]
  }

  /** The keys below `n` whose records satisfy `keep`, in increasing order: the order in which records were inserted. */
  function Keys<T>(m: map<nat, T>, n: nat, keep: T -> bool): (ks: seq<nat>)
    ensures forall k :: k in ks <==> k < n && k in m && keep(m[k])
    ensures Increasing(ks)
  {
    if n == 0 then []
    else
      var ks := Keys(m, n - 1, keep);
      if n - 1 in m && keep(m[n - 1]) then
        assert forall i :: 0 <= i < |ks| ==> ks[i] in ks;
        ks + [n - 1]
      else ks
  }

  /** The records stored under some keys, in the order of the keys. */
  function Records<T>(m: map<nat, T>, ks: seq<nat>): (r: seq<T>)
    requires forall k :: k in ks ==> k in m
    ensures |r| == |ks| && forall i :: 0 <= i < |ks| ==> r[i] == m[ks[i]]
  {
    if ks == [] then [] else [m[ks[0]]] + Records(m, ks[1..])
  }

  ghost predicate SortedBy<T>(s: seq<T>, key: T -> int) {
    forall i, j :: 0 <= i < j < |s| ==> key(s[i]) <= key(s[j])
  }

  /** Puts `x` in front of the first element whose key is not smaller. */
  function InsertBy<T>(x: T, s: seq<T>, key: T -> int): (r: seq<T>)
    requires SortedBy(s, key)
    ensures SortedBy(r, key)
    ensures multiset(r) == multiset(s) + multiset{x}
    ensures |r| == |s| + 1 && (r[0] == x || (s != [] && r[0] == s[0]))
  {
    if s == [] || key(x) <= key(s[0]) then
      ConsSorted(x, s, key);
      [x] + s
    else
      var rest := InsertBy(x, s[1..], key);
      assert s == [s[0]] + s[1..];
      ConsSorted(s[0], rest, key);
      [s[0]] + rest
  }

  lemma ConsSorted<T>(a: T, s: seq<T>, key: T -> int)
    requires SortedBy(s, key) && (s == [] || key(a) <= key(s[0]))
    ensures SortedBy([a] + s, key)
  {
    var r := [a] + s;
    forall i, j | 0 <= i < j < |r| ensures key(r[i]) <= key(r[j]) {
      if i > 0 {
        assert r[i] == s[i - 1] && r[j] == s[j - 1];
      } else {
        assert r[j] == s[j - 1];
      }
    }
  }

  /** An insertion sort by an integer key: sorted, and a permutation of its input. */
  function SortBy<T>(s: seq<T>, key: T -> int): (r: seq<T>)
    ensures SortedBy(r, key)
    ensures multiset(r) == multiset(s)
    ensures |r| == |s|
  {
    if s == [] then []
    else
      assert s == [s[0]] + s[1..];
      InsertBy(s[0], SortBy(s[1..], key), key)
  }

  lemma WindowSorted<T>(xs: seq<T>, skip: nat, limit: int, key: T -> int)
    requires SortedBy(xs, key)
    ensures SortedBy(Window(xs, skip, limit), key)
  {
    var r := Window(xs, skip, limit);
    forall i, j | 0 <= i < j < |r| ensures key(r[i]) <= key(r[j]) {
      assert r[i] == xs[skip + i] && r[j] == xs[skip + j];
    }
  }

  /** The keys below `n` whose records satisfy `keep`, as a set: what `countDocuments` counts. */
  ghost function Matching<T>(m: map<nat, T>, n: nat, keep: T -> bool): set<nat> {
    set k | k in m && k < n && keep(m[k])
  }

  /** `Keys` lists each matching key exactly once. */
  lemma {:induction false} KeysCount<T>(m: map<nat, T>, n: nat, keep: T -> bool)
    ensures |Keys(m, n, keep)| == |Matching(m, n, keep)|
  {
    if n > 0 {
      KeysCount(m, n - 1, keep);
      var ks := Keys(m, n - 1, keep);
      var before := Matching(m, n - 1, keep);
      if n - 1 in m && keep(m[n - 1]) {
        assert Keys(m, n, keep) == ks + [n - 1];
        assert Matching(m, n, keep) == before + {n - 1} by {
          forall k ensures k in Matching(m, n, keep) <==> k in before + {n - 1} {
          }
        }
        assert n - 1 !in before;
        assert |before + {n - 1}| == |before| + 1;
      } else {
        assert Keys(m, n, keep) == ks;
        assert Matching(m, n, keep) == before by {
          forall k ensures k in Matching(m, n, keep) <==> k in before {
          }
        }
      }
    }
  }

  /**
   * `find(filter).sort(order)`: the records under keys below `n` that satisfy
   * `keep`, ordered by `key`. Each satisfies `keep`, none is missing, and their
   * number is the number of matching records.
   */
  function Select<T(==)>(m: map<nat, T>, n: nat, keep: T -> bool, key: T -> int): (r: seq<T>)
    ensures SortedBy(r, key)
    ensures forall i :: 0 <= i < |r| ==> keep(r[i]) && r[i] in m.Values
    ensures forall k :: k in m && k < n && keep(m[k]) ==> m[k] in r
    ensures |r| == |Matching(m, n, keep)|
  {
    var ks := Keys(m, n, keep);
    var recs := Records(m, ks);
    KeysCount(m, n, keep);
    RecordsKept(m, n, keep);
    RecordsComplete(m, n, keep);
    SortBy(recs, key)
  }

  lemma RecordsKept<T>(m: map<nat, T>, n: nat, keep: T -> bool)
    ensures var recs := Records(m, Keys(m, n, keep));
      forall x :: x in multiset(recs) ==> keep(x) && x in m.Values
  {
    var ks := Keys(m, n, keep);
    var recs := Records(m, ks);
    forall x | x in multiset(recs) ensures keep(x) && x in m.Values {
      var j :| 0 <= j < |recs| && recs[j] == x;
      assert ks[j] in ks;
    }
  }

  lemma RecordsComplete<T>(m: map<nat, T>, n: nat, keep: T -> bool)
    ensures var recs := Records(m, Keys(m, n, keep));
      forall k :: k in m && k < n && keep(m[k]) ==> m[k] in multiset(recs)
  {
    var ks := Keys(m, n, keep);
    var recs := Records(m, ks);
    forall k | k in m && k < n && keep(m[k]) ensures m[k] in multiset(recs) {
      var j :| 0 <= j < |ks| && ks[j] == k;
      assert recs[j] == m[k];
    }
  }

  // ---------------------------------------------------------------- pages

  /** The response of a listing: `{ items, total, page, pages }`. */
  datatype Page<T> = Page(items: seq<T>, total: nat, page: int, pages: int)

  /**
   * One page of an already ordered result: page and limit default to 1 and 10;
   * a negative skip makes the query fail (500).
   */
  function Paginate<T>(ordered: seq<T>, pageRaw: Option<string>, limitRaw: Option<string>): (r: Outcome<Page<T>>)
    ensures var page, limit := QueryNumber(pageRaw, 1), QueryNumber(limitRaw, 10);
      && (r.Success? <==> Skip(page, limit) >= 0)
      && (r.Failure? ==> r.status == ServerError)
      && (r.Success? ==> r.value.page == page && r.value.total == |ordered|
                         && r.value.pages == Pages(|ordered|, limit)
                         && r.value.items == Window(ordered, Skip(page, limit), limit))
  {
    var page := QueryNumber(pageRaw, 1);
    var limit := QueryNumber(limitRaw, 10);
    var skip := Skip(page, limit);
    if skip < 0 then Failure(ServerError, "Server Error")
    else Success(Page(Window(ordered, skip, limit), |ordered|, page, Pages(|ordered|, limit)))
  }

  /** Page `page` of `limit` records, asked for in decimal, is the window after `page - 1` full pages. */
  lemma PaginateAt<T>(ordered: seq<T>, page: nat, limit: nat)
    requires page >= 1 && limit >= 1
    ensures Skip(page, limit) >= 0
    ensures Paginate(ordered, Some(Text.IntString(page)), Some(Text.IntString(limit)))
            == Success(Page(Window(ordered, Skip(page, limit), limit), |ordered|, page, Pages(|ordered|, limit)))
  {
    var pageRaw, limitRaw := Some(Text.IntString(page)), Some(Text.IntString(limit));
    QueryNumberDecimal(page, 1);
    QueryNumberDecimal(limit, 10);
    assert QueryNumber(pageRaw, 1) == page && QueryNumber(limitRaw, 10) == limit;
    SkipNonNegative(page, limit);
  }

  /** Position `j` is entry `j % limit` of the window after `j / limit` full pages. */
  lemma WindowAtPosition<T>(ordered: seq<T>, j: nat, limit: nat)
    requires j < |ordered| && limit >= 1
    ensures Skip(j / limit + 1, limit) == (j / limit) * limit
    ensures var w := Window(ordered, (j / limit) * limit, limit);
      j % limit < |w| && w[j % limit] == ordered[j]
  {
    var q, rem := j / limit, j % limit;
    assert j == q * limit + rem && rem < limit;
    var w := Window(ordered, q * limit, limit);
    assert rem < |w|;
  }

  /**
   * Every record of an ordered result is on a page: the one at position `j`
   * is item `j % limit` of page `j / limit + 1`.
   */
  lemma EveryRecordOnItsPage<T>(ordered: seq<T>, j: nat, limit: nat)
    requires j < |ordered| && limit >= 1
    ensures var r := Paginate(ordered, Some(Text.IntString(j / limit + 1)), Some(Text.IntString(limit)));
      && r.Success? && r.value.page == j / limit + 1
      && j % limit < |r.value.items| && r.value.items[j % limit] == ordered[j]
  {
    PaginateAt(ordered, j / limit + 1, limit);
    WindowAtPosition(ordered, j, limit);
  }

  /** With no paging parameters, the first ten records and `ceil(total / 10)` pages. */
  lemma PaginateDefaults<T>(ordered: seq<T>)
    ensures var r := Paginate(ordered, None, None);
      && r.Success? && r.value.page == 1 && r.value.pages == Pages(|ordered|, 10)
      && r.value.items == (if |ordered| <= 10 then ordered else ordered[..10])
  {
    var r := Paginate(ordered, None, None);
    assert Skip(1, 10) == 0;
    var w := Window(ordered, 0, 10);
    assert w == (if |ordered| <= 10 then ordered else ordered[..10]);
  }
}
