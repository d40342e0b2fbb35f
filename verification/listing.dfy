/** A query over one collection: keep the records that satisfy a filter and
    order them by a sort key, as a `find(filter).sort(key)` does. */
module Listing {

  /** No id is listed twice. */
  predicate Distinct<K(==)>(s: seq<K>) {
    forall i, j :: 0 <= i < j < |s| ==> s[i] != s[j]
  }

  /** The listed ids, looked up in `m`, have non-decreasing `rank`. */
  predicate SortedBy<K(==), V>(m: map<K, V>, s: seq<K>, rank: V -> int)
    requires forall i :: 0 <= i < |s| ==> s[i] in m
  {
    forall i, j :: 0 <= i < j < |s| ==> rank(m[s[i]]) <= rank(m[s[j]])
  }

  /** Inserts `k` into the sorted `s` after every id whose rank is not
      larger, keeping the order. */
  method InsertSorted<K(==), V>(m: map<K, V>, s: seq<K>, k: K, rank: V -> int) returns (r: seq<K>)
    requires k in m
    requires forall i :: 0 <= i < |s| ==> s[i] in m
    requires SortedBy(m, s, rank)
    ensures |r| == |s| + 1
    ensures forall i :: 0 <= i < |r| ==> r[i] in m
    ensures SortedBy(m, r, rank)
    ensures forall x :: x in r <==> x == k || x in s
    ensures Distinct(s) && k !in s ==> Distinct(r)
  {
    var p := 0;
    while p < |s| && rank(m[s[p]]) <= rank(m[k])
      invariant 0 <= p <= |s|
      invariant forall i :: 0 <= i < p ==> rank(m[s[i]]) <= rank(m[k])
    {
      p := p + 1;
    }
    r := s[..p] + [k] + s[p..];
    assert forall i :: p < i < |r| ==> r[i] == s[i - 1];
    assert forall i :: 0 <= i < p ==> r[i] == s[i];
    assert r[p] == k;
  }

  /** Every id of `m` whose record passes `keep`, each once, ordered by
      `rank` ascending. */
  method Select<K(==), V>(m: map<K, V>, keep: V -> bool, rank: V -> int) returns (r: seq<K>)
    ensures forall i :: 0 <= i < |r| ==> r[i] in m && keep(m[r[i]])
    ensures forall k :: k in m && keep(m[k]) ==> k in r
    ensures Distinct(r)
    ensures SortedBy(m, r, rank)
  {
    var todo := m.Keys;
    r := [];
    while todo != {}
      invariant todo <= m.Keys
      invariant forall x :: x in r ==> x in m && keep(m[x]) && x !in todo
      invariant forall k :: k in m && keep(m[k]) && k !in todo ==> k in r
      invariant Distinct(r)
      invariant SortedBy(m, r, rank)
      decreases todo
    {
      var k :| k in todo;
      todo := todo - {k};
      if keep(m[k]) {
        r := InsertSorted(m, r, k, rank);
      }
    }
  }
}
