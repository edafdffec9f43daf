/** What the database engine does for a `findMany`/`count` query, stated
    over the store's maps: scan every row once, keep the rows matching the
    `where` filter, order them by an integer key, and count matches. */
module Tables {

  /** Some key of a non-empty table: where the scan starts. */
  ghost function FirstKey<V>(m: map<string, V>): (k: string)
    requires |m| > 0
    ensures k in m
  {
    var k :| k in m; k
  }

  /** The rows of a table, each once, in some order the engine picks. */
  ghost function Scan<V(!new)>(m: map<string, V>): (s: seq<V>)
    ensures |s| == |m|
    ensures forall v :: v in s <==> v in m.Values
    decreases m.Keys
  {
    if |m| == 0 then []
    else
      var k := FirstKey(m);
      var rest := m - {k};
      assert rest.Keys == m.Keys - {k};
      assert m.Values == rest.Values + {m[k]} by {
        forall v | v in m.Values ensures v in rest.Values + {m[k]} {
          var j :| j in m && m[j] == v;
          if j != k { assert j in rest; }
        }
      }
      [m[k]] + Scan(rest)
  }

  /** The rows satisfying `p`, in their original order. */
  function Filter<T(!new)>(s: seq<T>, p: T -> bool): (r: seq<T>)
    ensures |r| <= |s|
    ensures forall x :: x in r <==> x in s && p(x)
    decreases |s|
  {
    if s == [] then []
    else (if p(s[0]) then [s[0]] else []) + Filter(s[1..], p)
  }

  /** Non-decreasing by `key`. */
  predicate SortedBy<T>(s: seq<T>, key: T -> int) {
    forall i, j :: 0 <= i < j < |s| ==> key(s[i]) <= key(s[j])
  }

  function InsertBy<T(!new)>(x: T, s: seq<T>, key: T -> int): (r: seq<T>)
    requires SortedBy(s, key)
    ensures |r| == |s| + 1
    ensures forall e :: e in r <==> e == x || e in s
    ensures SortedBy(r, key)
    ensures multiset(r) == multiset(s) + multiset{x}
    decreases |s|
  {
    if s == [] || key(x) <= key(s[0]) then [x] + s
    else
      var tail := InsertBy(x, s[1..], key);
      assert s == [s[0]] + s[1..];
      assert forall j :: 0 <= j < |tail| ==> key(s[0]) <= key(tail[j]) by {
        forall j | 0 <= j < |tail| ensures key(s[0]) <= key(tail[j]) {
          assert tail[j] in tail;
          if tail[j] != x {
            var i :| 0 <= i < |s[1..]| && s[1..][i] == tail[j];
            assert s[i + 1] == tail[j];
          }
        }
      }
      [s[0]] + tail
  }

  /** An ordering of `s` by `key` (ascending; a descending order uses the
      negated key). */
  function SortBy<T(!new)>(s: seq<T>, key: T -> int): (r: seq<T>)
    ensures SortedBy(r, key)
    ensures multiset(r) == multiset(s)
    decreases |s|
  {
    if s == [] then []
    else
      assert s == [s[0]] + s[1..];
      InsertBy(s[0], SortBy(s[1..], key), key)
  }

  /** The `count` query: how many keys hold a row satisfying `p`. */
  function CountWhere<V>(m: map<string, V>, p: V -> bool): nat {
    |set k | k in m && p(m[k])|
  }

  lemma CountWhereAtMostSize<V>(m: map<string, V>, p: V -> bool)
    ensures CountWhere(m, p) <= |m|
  {
    var matching := set k | k in m && p(m[k]);
    assert CountWhere(m, p) == |matching|;
    assert matching <= m.Keys;
    SubsetCard(matching, m.Keys);
    assert |m.Keys| == |m|;
  }

  lemma {:induction false} SubsetCard(a: set<string>, b: set<string>)
    requires a <= b
    ensures |a| <= |b|
    decreases b
  {
    if a != {} {
      var x :| x in a;
      SubsetCard(a - {x}, b - {x});
    }
  }

  lemma {:induction false} FilterAppend<T(!new)>(a: seq<T>, b: seq<T>, p: T -> bool)
    ensures Filter(a + b, p) == Filter(a, p) + Filter(b, p)
    decreases |a|
  {
    if a != [] {
      var head := if p(a[0]) then [a[0]] else [];
      assert (a + b)[0] == a[0];
      assert (a + b)[1..] == a[1..] + b;
      assert Filter(a + b, p) == head + Filter(a[1..] + b, p);
      assert Filter(a, p) == head + Filter(a[1..], p);
      FilterAppend(a[1..], b, p);
    } else {
      assert a + b == b;
    }
  }

  /** Removing one row from a table removes it from the count iff it matched. */
  lemma CountWhereRemove<V>(m: map<string, V>, k: string, p: V -> bool)
    requires k in m
    ensures CountWhere(m, p) == CountWhere(m - {k}, p) + (if p(m[k]) then 1 else 0)
  {
    var rest := m - {k};
    var all := set j | j in m && p(m[j]);
    var others := set j | j in rest && p(rest[j]);
    assert k !in others;
    if p(m[k]) {
      assert all == others + {k};
    } else {
      assert all == others;
    }
  }

  /** A `count` with a filter agrees with the length of the `findMany`
      with the same filter, whatever order the scan takes. */
  lemma {:induction false} CountWhereIsFilteredScanLength<V(!new)>(m: map<string, V>, p: V -> bool)
    ensures |Filter(Scan(m), p)| == CountWhere(m, p)
    decreases m.Keys
  {
    if |m| == 0 {
      CountWhereAtMostSize(m, p);
    } else {
      var k := FirstKey(m);
      var rest := m - {k};
      assert rest.Keys == m.Keys - {k};
      assert Scan(m) == [m[k]] + Scan(rest);
      CountWhereIsFilteredScanLength(rest, p);
      FilterAppend([m[k]], Scan(rest), p);
      CountWhereRemove(m, k, p);
    }
  }
}
