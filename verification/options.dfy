/** Optional values and a map-and-filter over sequences, shared by every
    extractor: each one walks a list of candidate elements, turns some of
    them into rows and silently drops the rest, keeping document order. */
module Options {

  datatype Option<+T> = None | Some(value: T) {
    function GetOr(default: T): T {
      match this
      case Some(v) => v
      case None => default
    }
  }

  /** Applies `f` to every element and keeps the `Some` results, in order. */
  function FilterMap<A, B>(f: A -> Option<B>, xs: seq<A>): (r: seq<B>)
    ensures |r| <= |xs|
    ensures forall y :: y in r ==> exists x :: x in xs && f(x) == Some(y)
    ensures (forall i :: 0 <= i < |xs| ==> f(xs[i]).Some?) ==> |r| == |xs|
  {
    if xs == [] then []
    else
      var rest := FilterMap(f, xs[1..]);
      assert forall x :: x in xs[1..] ==> x in xs;
      match f(xs[0])
      case Some(y) => [y] + rest
      case None => rest
  }

  /** Mapping over a concatenation is the concatenation of the mappings:
      nothing is reordered and every element contributes independently. */
  lemma {:induction false} FilterMapAppend<A, B>(f: A -> Option<B>, xs: seq<A>, ys: seq<A>)
    ensures FilterMap(f, xs + ys) == FilterMap(f, xs) + FilterMap(f, ys)
  {
    if xs == [] {
      assert xs + ys == ys;
    } else {
      assert (xs + ys)[1..] == xs[1..] + ys;
      FilterMapAppend(f, xs[1..], ys);
    }
  }

  /** Every element with a result contributes it. */
  lemma {:induction false} FilterMapKeeps<A, B>(f: A -> Option<B>, xs: seq<A>, x: A)
    requires x in xs && f(x).Some?
    ensures f(x).value in FilterMap(f, xs)
  {
    if x != xs[0] {
      FilterMapKeeps(f, xs[1..], x);
    }
  }

  /** When every element has a result, the results come one per element,
      in the elements' order. */
  lemma {:induction false} FilterMapAll<A, B>(f: A -> Option<B>, xs: seq<A>)
    requires forall i :: 0 <= i < |xs| ==> f(xs[i]).Some?
    ensures |FilterMap(f, xs)| == |xs|
    ensures forall i :: 0 <= i < |xs| ==> FilterMap(f, xs)[i] == f(xs[i]).value
  {
    if xs != [] {
      FilterMapAll(f, xs[1..]);
      assert forall i :: 1 <= i < |xs| ==> xs[i] == xs[1..][i - 1];
    }
  }

  /** A one-element list yields its element's result, if any. */
  lemma FilterMapSingle<A, B>(f: A -> Option<B>, x: A)
    ensures FilterMap(f, [x]) == if f(x).Some? then [f(x).value] else []
  {
    assert [x][1..] == [];
  }

  /** Keeps the elements satisfying `p`, in order. */
  function Filter<A(!new)>(p: A -> bool, xs: seq<A>): (r: seq<A>)
    ensures |r| <= |xs|
    ensures forall x :: x in r <==> x in xs && p(x)
  {
    if xs == [] then []
    else
      var rest := Filter(p, xs[1..]);
      assert forall x :: x in xs <==> x == xs[0] || x in xs[1..];
      if p(xs[0]) then [xs[0]] + rest else rest
  }

  /** Filtering a concatenation is the concatenation of the filterings:
      the kept elements stay in their input order. */
  lemma {:induction false} FilterAppend<A(!new)>(p: A -> bool, xs: seq<A>, ys: seq<A>)
    ensures Filter(p, xs + ys) == Filter(p, xs) + Filter(p, ys)
  {
    if xs == [] {
      assert xs + ys == ys;
    } else {
      ConsAppend(xs, ys);
      FilterAppend(p, xs[1..], ys);
      var head: seq<A> := if p(xs[0]) then [xs[0]] else [];
      AppendAssoc(head, Filter(p, xs[1..]), Filter(p, ys));
    }
  }

  /** A one-element list is kept exactly when its element passes. */
  lemma FilterSingle<A(!new)>(p: A -> bool, x: A)
    ensures Filter(p, [x]) == if p(x) then [x] else []
  {
    assert [x][1..] == [];
  }

  /** The head of a filtering is the first element that passes. */
  lemma {:induction false} FilterHead<A(!new)>(p: A -> bool, xs: seq<A>)
    requires Filter(p, xs) != []
    ensures exists i :: && 0 <= i < |xs| && xs[i] == Filter(p, xs)[0] && p(xs[i])
                        && forall j :: 0 <= j < i ==> !p(xs[j])
  {
    if !p(xs[0]) {
      FilterHead(p, xs[1..]);
      var i :| && 0 <= i < |xs[1..]| && xs[1..][i] == Filter(p, xs[1..])[0] && p(xs[1..][i])
               && forall j :: 0 <= j < i ==> !p(xs[1..][j]);
      assert xs[i + 1] == xs[1..][i];
      assert forall j :: 1 <= j < i + 1 ==> xs[j] == xs[1..][j - 1];
    } else {
      assert xs[0] == Filter(p, xs)[0];
    }
  }

  /** The head and tail of a concatenation whose first part is not empty. */
  lemma ConsAppend<T>(a: seq<T>, b: seq<T>)
    requires a != []
    ensures (a + b)[0] == a[0] && (a + b)[1..] == a[1..] + b
  {
  }

  lemma AppendAssoc<T>(x: seq<T>, y: seq<T>, z: seq<T>)
    ensures x + (y + z) == (x + y) + z
  {
  }
}
