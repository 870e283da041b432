/** The RemoteOK scraper's proxy rotation (extractors/remoteok.py): a fixed
    list of proxy addresses and a cursor that advances round-robin on every
    request for a proxy. */
module Proxy {
  import opened Options

  datatype ProxyPool = ProxyPool(proxies: seq<string>, cursor: nat)

  /** The cursor always indexes the list, unless the list is empty. */
  predicate ValidPool(p: ProxyPool) {
    p.proxies == [] || p.cursor < |p.proxies|
  }

  /** The three addresses the scraper is constructed with. */
  const DefaultProxies: seq<string> := ["103.149.162.195:80", "47.242.3.214:8081", "135.181.29.13:3128"]

  /** The pool of a freshly constructed scraper: the default list, cursor 0. */
  function Initial(): (p: ProxyPool)
    ensures ValidPool(p) && p.cursor == 0 && |p.proxies| == 3
  {
    ProxyPool(DefaultProxies, 0)
  }

  /** `get_proxy`: no proxy when the list is empty; otherwise the proxy
      under the cursor, and the cursor moves to the next one, wrapping
      around at the end. */
  function GetProxy(p: ProxyPool): (r: (Option<string>, ProxyPool))
    requires ValidPool(p)
    ensures ValidPool(r.1) && r.1.proxies == p.proxies
    ensures r.0.None? <==> p.proxies == []
    ensures r.0.Some? ==> r.0.value in p.proxies
    ensures p.proxies != [] ==> r.0 == Some(p.proxies[p.cursor])
    ensures p.proxies == [] ==> r.1 == p
    ensures p.proxies != [] ==> r.1.cursor == (p.cursor + 1) % |p.proxies|
    ensures p.proxies != [] ==> r.1.cursor == Next(p.cursor, |p.proxies|)
  {
    if p.proxies == [] then (None, p)
    else
      NextIsSuccessorMod(p.cursor, |p.proxies|);
      (Some(p.proxies[p.cursor]), p.(cursor := Next(p.cursor, |p.proxies|)))
  }

  /** Moving to the next position and wrapping at the end is the
      successor modulo the list length. */
  lemma NextIsSuccessorMod(c: nat, n: nat)
    requires c < n
    ensures Next(c, n) == (c + 1) % n
  {
    if c + 1 == n {
      assert (c + 1) % n == 0;
    }
  }

  /** The cursor position after `GetProxy` on a list of `n` proxies. */
  function Next(c: nat, n: nat): nat {
    if c + 1 < n then c + 1 else 0
  }

  /** The cursor position `i` draws after `c`. */
  function Ahead(c: nat, i: nat, n: nat): (r: nat)
    requires c < n
    ensures r < n
    decreases i
  {
    if i == 0 then c else Ahead(Next(c, n), i - 1, n)
  }

  /** The results of `k` successive `get_proxy` calls and the pool after them. */
  function Draws(p: ProxyPool, k: nat): (r: (seq<Option<string>>, ProxyPool))
    requires ValidPool(p)
    ensures |r.0| == k
    ensures ValidPool(r.1) && r.1.proxies == p.proxies
    decreases k
  {
    if k == 0 then ([], p)
    else
      var (first, next) := GetProxy(p);
      var rest := Draws(next, k - 1);
      ([first] + rest.0, rest.1)
  }

  /** Drawing `k + 1` proxies is one draw followed by `k` more. */
  lemma DrawsStep(p: ProxyPool, k: nat)
    requires ValidPool(p)
    ensures Draws(p, 0) == ([], p)
    ensures Draws(p, 1) == ([GetProxy(p).0], GetProxy(p).1)
    ensures Draws(p, k + 1) ==
      ([GetProxy(p).0] + Draws(GetProxy(p).1, k).0, Draws(GetProxy(p).1, k).1)
  {
    assert [GetProxy(p).0] + Draws(GetProxy(p).1, 0).0 == [GetProxy(p).0];
  }

  /** Drawing `j` and then `k` proxies is drawing `j + k`. */
  lemma {:induction false} DrawsCompose(p: ProxyPool, j: nat, k: nat)
    requires ValidPool(p)
    ensures Draws(p, j + k) == (Draws(p, j).0 + Draws(Draws(p, j).1, k).0, Draws(Draws(p, j).1, k).1)
    decreases j
  {
    if j > 0 {
      var (first, next) := GetProxy(p);
      var mid := Draws(next, j - 1);
      var tail := Draws(mid.1, k);
      assert Draws(p, j) == ([first] + mid.0, mid.1) by {
        DrawsStep(p, j - 1);
      }
      assert Draws(p, j + k) == ([first] + (mid.0 + tail.0), tail.1) by {
        DrawsCompose(next, j - 1, k);
        DrawsStep(p, j - 1 + k);
      }
      assert [first] + (mid.0 + tail.0) == ([first] + mid.0) + tail.0;
    } else {
      DrawsStep(p, 0);
      assert j + k == k;
      assert Draws(p, j).0 + Draws(p, k).0 == Draws(p, k).0;
    }
  }

  /** The i-th of `k` successive draws is the proxy `i` places after the
      cursor, and the cursor ends `k` places further on. */
  lemma {:induction false} DrawsAt(p: ProxyPool, k: nat)
    requires ValidPool(p) && p.proxies != []
    ensures forall i :: 0 <= i < k ==>
      Draws(p, k).0[i] == Some(p.proxies[Ahead(p.cursor, i, |p.proxies|)])
    ensures Draws(p, k).1.cursor == Ahead(p.cursor, k, |p.proxies|)
    decreases k
  {
    if k > 0 {
      var n := |p.proxies|;
      var next := GetProxy(p).1;
      assert next.cursor == Next(p.cursor, n);
      DrawsAt(next, k - 1);
      forall i | 0 < i < k
        ensures Draws(p, k).0[i] == Draws(next, k - 1).0[i - 1]
      {
      }
    }
  }

  /** Within one round the position ahead is the plain sum, wrapped once. */
  lemma {:induction false} AheadWithinRound(c: nat, i: nat, n: nat)
    requires c < n && i <= n
    ensures Ahead(c, i, n) == if c + i < n then c + i else c + i - n
    decreases i
  {
    if i > 0 {
      AheadWithinRound(Next(c, n), i - 1, n);
    }
  }

  /** One full round of draws visits every proxy exactly once, starting at
      the cursor, and leaves the pool as it was. */
  lemma FullRound(p: ProxyPool)
    requires ValidPool(p) && p.proxies != []
    ensures Draws(p, |p.proxies|).1 == p
    ensures Draws(p, |p.proxies|).0 ==
      Somes(p.proxies[p.cursor..] + p.proxies[..p.cursor])
    ensures multiset(Draws(p, |p.proxies|).0) == multiset(Somes(p.proxies))
  {
    var n := |p.proxies|;
    var c := p.cursor;
    DrawsAt(p, n);
    AheadWithinRound(c, n, n);
    var rotated := p.proxies[c..] + p.proxies[..c];
    forall i | 0 <= i < n
      ensures Draws(p, n).0[i] == Somes(rotated)[i]
    {
      RotatedAt(p.proxies, c, i);
    }
    RotationMultiset(p.proxies, c);
  }

  /** The i-th element of the list rotated to start at `c` is the proxy
      `i` places after `c`. */
  lemma RotatedAt(xs: seq<string>, c: nat, i: nat)
    requires c < |xs| && i < |xs|
    ensures (xs[c..] + xs[..c])[i] == xs[Ahead(c, i, |xs|)]
  {
    var n := |xs|;
    AheadWithinRound(c, i, n);
    if c + i < n {
      assert (xs[c..] + xs[..c])[i] == xs[c..][i];
    } else {
      assert (xs[c..] + xs[..c])[i] == xs[..c][i - (n - c)];
    }
  }

  lemma RotationMultiset(xs: seq<string>, c: nat)
    requires c <= |xs|
    ensures multiset(Somes(xs[c..] + xs[..c])) == multiset(Somes(xs))
  {
    assert xs == xs[..c] + xs[c..];
    SomesAppend(xs[c..], xs[..c]);
    SomesAppend(xs[..c], xs[c..]);
  }

  function Somes(xs: seq<string>): (r: seq<Option<string>>)
    ensures |r| == |xs|
    ensures forall i :: 0 <= i < |xs| ==> r[i] == Some(xs[i])
  {
    seq(|xs|, i requires 0 <= i < |xs| => Some(xs[i]))
  }

  lemma SomesAppend(a: seq<string>, b: seq<string>)
    ensures Somes(a + b) == Somes(a) + Somes(b)
  {
  }

  /** With no proxies configured, every draw yields none and nothing moves. */
  lemma {:induction false} DrawsEmpty(p: ProxyPool, k: nat)
    requires p.proxies == []
    ensures forall i :: 0 <= i < k ==> Draws(p, k).0[i].None?
    ensures Draws(p, k).1 == p
  {
    if k > 0 {
      DrawsEmpty(p, k - 1);
    }
  }
}
