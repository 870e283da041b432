/** Python's `sorted()` on dictionary keys: strings compared
    lexicographically by code point, and an insertion sort of key/value
    pairs by key. */
module Sorting {

  /** Python's `a < b` on `str`. */
  predicate Less(a: string, b: string)
    decreases |a|
  {
    if |a| == 0 then |b| > 0
    else |b| > 0 && (a[0] < b[0] || (a[0] == b[0] && Less(a[1..], b[1..])))
  }

  lemma {:induction false} LessIrreflexive(a: string)
    ensures !Less(a, a)
    decreases |a|
  {
    if |a| > 0 {
      LessIrreflexive(a[1..]);
    }
  }

  lemma {:induction false} LessTransitive(a: string, b: string, c: string)
    requires Less(a, b) && Less(b, c)
    ensures Less(a, c)
    decreases |a|
  {
    if |a| > 0 && a[0] == b[0] && b[0] == c[0] {
      LessTransitive(a[1..], b[1..], c[1..]);
    }
  }

  lemma {:induction false} LessTotal(a: string, b: string)
    requires a != b
    ensures Less(a, b) || Less(b, a)
    decreases |a|
  {
    if |a| > 0 && |b| > 0 && a[0] == b[0] {
      assert a == [a[0]] + a[1..] && b == [b[0]] + b[1..];
      LessTotal(a[1..], b[1..]);
    }
  }

  type Entry = (string, string)

  predicate DistinctKeys(kv: seq<Entry>) {
    forall i, j :: 0 <= i < j < |kv| ==> kv[i].0 != kv[j].0
  }

  /** Keys strictly ascending (so also distinct). */
  predicate SortedByKey(kv: seq<Entry>) {
    forall i, j :: 0 <= i < j < |kv| ==> Less(kv[i].0, kv[j].0)
  }

  function Insert(e: Entry, kv: seq<Entry>): (r: seq<Entry>)
    requires SortedByKey(kv)
    requires forall i :: 0 <= i < |kv| ==> kv[i].0 != e.0
    ensures SortedByKey(r)
    ensures multiset(r) == multiset(kv) + multiset{e}
    ensures |r| == |kv| + 1
  {
    if kv == [] then [e]
    else if Less(e.0, kv[0].0) then
      BelowAll(e, kv);
      ConsSorted(e, kv);
      [e] + kv
    else
      var rest := Insert(e, kv[1..]);
      LessTotal(e.0, kv[0].0);
      assert kv == [kv[0]] + kv[1..];
      HeadBelowRest(kv, e, rest);
      ConsSorted(kv[0], rest);
      [kv[0]] + rest
  }

  /** A key below the first key of a sorted list is below all of them. */
  lemma BelowAll(e: Entry, kv: seq<Entry>)
    requires SortedByKey(kv) && |kv| > 0 && Less(e.0, kv[0].0)
    ensures forall x :: x in multiset(kv) ==> Less(e.0, x.0)
  {
    forall x | x in multiset(kv)
      ensures Less(e.0, x.0)
    {
      var j :| 0 <= j < |kv| && kv[j] == x;
      if j > 0 {
        LessTransitive(e.0, kv[0].0, kv[j].0);
      }
    }
  }

  /** The head of a sorted list is below everything inserted after it. */
  lemma HeadBelowRest(kv: seq<Entry>, e: Entry, rest: seq<Entry>)
    requires SortedByKey(kv) && |kv| > 0 && Less(kv[0].0, e.0)
    requires multiset(rest) == multiset(kv[1..]) + multiset{e}
    ensures forall x :: x in multiset(rest) ==> Less(kv[0].0, x.0)
  {
    forall x | x in multiset(rest)
      ensures Less(kv[0].0, x.0)
    {
      if x != e {
        assert x in multiset(kv[1..]);
        var j :| 0 <= j < |kv[1..]| && kv[1..][j] == x;
        assert kv[j + 1] == x;
      }
    }
  }

  /** A sorted list stays sorted under a head below all its keys. */
  lemma ConsSorted(h: Entry, rest: seq<Entry>)
    requires SortedByKey(rest)
    requires forall x :: x in multiset(rest) ==> Less(h.0, x.0)
    ensures SortedByKey([h] + rest)
  {
    var r := [h] + rest;
    forall i, j | 0 <= i < j < |r|
      ensures Less(r[i].0, r[j].0)
    {
      assert r[j] == rest[j - 1];
      if i == 0 {
        assert rest[j - 1] in multiset(rest);
      } else {
        assert r[i] == rest[i - 1];
      }
    }
  }

  /** `sorted(d.items())` for a dictionary with distinct keys: the same
      entries, keys strictly ascending. */
  function SortByKey(kv: seq<Entry>): (r: seq<Entry>)
    requires DistinctKeys(kv)
    ensures SortedByKey(r)
    ensures multiset(r) == multiset(kv)
    ensures |r| == |kv|
  {
    if kv == [] then []
    else
      var rest := SortByKey(kv[1..]);
      HeadKeyNotInRest(kv, rest);
      assert multiset(kv) == multiset(kv[1..]) + multiset{kv[0]} by {
        assert kv == [kv[0]] + kv[1..];
      }
      Insert(kv[0], rest)
  }

  /** With distinct keys, the first key is not among the keys of any
      rearrangement of the rest. */
  lemma HeadKeyNotInRest(kv: seq<Entry>, rest: seq<Entry>)
    requires DistinctKeys(kv) && |kv| > 0
    requires multiset(rest) == multiset(kv[1..])
    ensures forall i :: 0 <= i < |rest| ==> rest[i].0 != kv[0].0
  {
    forall i | 0 <= i < |rest|
      ensures rest[i].0 != kv[0].0
    {
      assert rest[i] in multiset(kv[1..]);
      var j :| 0 <= j < |kv[1..]| && kv[1..][j] == rest[i];
      assert kv[j + 1] == rest[i];
    }
  }

  /** The same for any list drawn from the tail, duplicates or not. */
  lemma HeadKeyNotInSubset(kv: seq<Entry>, rest: seq<Entry>)
    requires DistinctKeys(kv) && |kv| > 0
    requires forall e :: e in rest ==> e in kv[1..]
    ensures forall i :: 0 <= i < |rest| ==> rest[i].0 != kv[0].0
  {
    forall i | 0 <= i < |rest|
      ensures rest[i].0 != kv[0].0
    {
      assert rest[i] in kv[1..];
      var j :| 0 <= j < |kv[1..]| && kv[1..][j] == rest[i];
      assert kv[j + 1] == rest[i];
    }
  }
}
