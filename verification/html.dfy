/** An abstract HTML document, standing in for a parsed BeautifulSoup tree.
    A document is its root node (named "[document]", as BeautifulSoup names
    it), so that searching the root searches the whole page. Searches look
    at descendants only, in document (pre-)order, as `find_all` does, and
    `find` is the first hit of `find_all`. */
module Html {
  import opened Options
  import opened Text

  datatype Node =
    | TextNode(content: string)
    | Element(name: string, classes: seq<string>, attrs: map<string, string>, children: seq<Node>)

  /** One step of a pre-order walk: a node and the node right after it
      among its parent's children (BeautifulSoup's `next_sibling`). */
  datatype Visit = Visit(node: Node, next: Option<Node>)

  /** `.text`: the concatenated text of every text node below `n`. */
  function TextOf(n: Node): string
    decreases n, 0
  {
    match n
    case TextNode(s) => s
    case Element(_, _, _, cs) => TextOfAll(cs)
  }

  function TextOfAll(cs: seq<Node>): string
    decreases cs, 1
  {
    if cs == [] then "" else TextOf(cs[0]) + TextOfAll(cs[1..])
  }

  /** `tag.get(key, '')`: the attribute's value, or "" when absent. */
  function Attr(n: Node, key: string): string {
    if n.Element? && key in n.attrs then n.attrs[key] else ""
  }

  /** `tag.get(key)` is truthy: present and non-empty. */
  predicate HasAttr(n: Node, key: string) {
    Attr(n, key) != ""
  }

  /** `key in tag.get('class')`, with a missing class list read as empty. */
  predicate HasClass(n: Node, cls: string) {
    n.Element? && cls in n.classes
  }

  /** The selectors the scrapers use. */
  datatype Selector =
    | Tag(tag: string)                                  // find('tag')
    | TagClass(tag: string, cls: string)                // find('tag', class_='cls')
    | TagAttr(tag: string, key: string, value: string)  // find('tag', key='value')
    | TagClassList(tag: string, list: seq<string>)      // class_='a b c': the whole class attribute
    | TagClassPrefix(tag: string, prefix: string)       // some class starts with prefix
    | TagClassInfix(tag: string, infix: string)         // CSS [class*=infix]

  predicate Matches(n: Node, sel: Selector) {
    n.Element? && n.name == sel.tag &&
    match sel
    case Tag(_) => true
    case TagClass(_, cls) => cls in n.classes
    case TagAttr(_, key, value) => key in n.attrs && n.attrs[key] == value
    case TagClassList(_, list) => n.classes == list
    case TagClassPrefix(_, prefix) => exists i :: 0 <= i < |n.classes| && StartsWith(n.classes[i], prefix)
    case TagClassInfix(_, infix) => exists i :: 0 <= i < |n.classes| && Contains(n.classes[i], infix)
  }

  /** Every node strictly below `n`, in document order, each with its next sibling. */
  function Walk(n: Node): seq<Visit>
    decreases n, 0
  {
    match n
    case TextNode(_) => []
    case Element(_, _, _, cs) => WalkAll(cs)
  }

  function WalkAll(cs: seq<Node>): seq<Visit>
    decreases cs, 1
  {
    if cs == [] then []
    else
      var next := if |cs| > 1 then Some(cs[1]) else None;
      [Visit(cs[0], next)] + Walk(cs[0]) + WalkAll(cs[1..])
  }

  function Descendants(n: Node): (ds: seq<Node>)
    ensures |ds| == |Walk(n)|
    ensures forall i :: 0 <= i < |ds| ==> ds[i] == Walk(n)[i].node
  {
    var w := Walk(n);
    seq(|w|, i requires 0 <= i < |w| => w[i].node)
  }

  /** The selector as a test on nodes. */
  function Matcher(sel: Selector): Node -> bool {
    m => Matches(m, sel)
  }

  /** `find_all`: the matching descendants of `n`, in document order. */
  function FindAll(n: Node, sel: Selector): (r: seq<Node>)
    ensures forall m :: m in r <==> m in Descendants(n) && Matches(m, sel)
  {
    Filter(Matcher(sel), Descendants(n))
  }

  /** `find`: the first match, if any. */
  function Find(n: Node, sel: Selector): (r: Option<Node>)
    ensures r.Some? ==> Matches(r.value, sel) && r.value in Descendants(n)
  {
    var all := FindAll(n, sel);
    if all == [] then None
    else
      assert all[0] in all;
      Some(all[0])
  }

  /** `find` returns the first match in document order: no descendant
      before it matches. */
  lemma FindFirst(n: Node, sel: Selector)
    requires Find(n, sel).Some?
    ensures exists i :: && 0 <= i < |Descendants(n)| && Descendants(n)[i] == Find(n, sel).value
                        && forall j :: 0 <= j < i ==> !Matches(Descendants(n)[j], sel)
  {
    FilterHead(Matcher(sel), Descendants(n));
  }

  /** `find_all` walks the tree in pre-order: an element's matches are its
      first child (when it matches), then the matches inside that child,
      then the matches among the remaining children. */
  lemma FindAllChildren(name: string, classes: seq<string>, attrs: map<string, string>, cs: seq<Node>, sel: Selector)
    requires cs != []
    ensures FindAll(Element(name, classes, attrs, cs), sel) ==
      (if Matches(cs[0], sel) then [cs[0]] else []) + FindAll(cs[0], sel) + FindAll(Element(name, classes, attrs, cs[1..]), sel)
  {
    var n := Element(name, classes, attrs, cs);
    var rest := Element(name, classes, attrs, cs[1..]);
    var next := if |cs| > 1 then Some(cs[1]) else None;
    assert Walk(n) == [Visit(cs[0], next)] + Walk(cs[0]) + Walk(rest);
    NodesAppend([Visit(cs[0], next)] + Walk(cs[0]), Walk(rest));
    NodesAppend([Visit(cs[0], next)], Walk(cs[0]));
    DescendantsAreNodes(n);
    DescendantsAreNodes(cs[0]);
    DescendantsAreNodes(rest);
    assert Nodes([Visit(cs[0], next)]) == [cs[0]];
    FilterAppend(Matcher(sel), [cs[0]] + Descendants(cs[0]), Descendants(rest));
    FilterAppend(Matcher(sel), [cs[0]], Descendants(cs[0]));
    FilterSingle(Matcher(sel), cs[0]);
  }

  /** A text node, and an element without children, contain no match. */
  lemma FindAllLeaf(n: Node, sel: Selector)
    requires n.TextNode? || n.children == []
    ensures FindAll(n, sel) == []
  {
    assert Walk(n) == [];
  }

  lemma DescendantsAreNodes(n: Node)
    ensures Descendants(n) == Nodes(Walk(n))
  {
  }

  lemma NodesAppend(a: seq<Visit>, b: seq<Visit>)
    ensures Nodes(a + b) == Nodes(a) + Nodes(b)
  {
  }

  /** `find` returns nothing exactly when no descendant matches. */
  lemma FindNoneIffNoMatch(n: Node, sel: Selector)
    ensures Find(n, sel).None? <==> forall m :: m in Descendants(n) ==> !Matches(m, sel)
  {
    if Find(n, sel).None? {
      forall m | m in Descendants(n)
        ensures !Matches(m, sel)
      {
        assert m !in FindAll(n, sel);
      }
    }
  }

  /** The first matching descendant together with its next sibling. */
  function FindVisit(n: Node, sel: Selector): (r: Option<Visit>)
    ensures r.Some? ==> Matches(r.value.node, sel)
  {
    FirstVisit(Walk(n), sel)
  }

  function FirstVisit(w: seq<Visit>, sel: Selector): (r: Option<Visit>)
    ensures r.Some? ==> Matches(r.value.node, sel)
  {
    if w == [] then None
    else if Matches(w[0].node, sel) then Some(w[0])
    else FirstVisit(w[1..], sel)
  }

  /** The visit found by `FindVisit` is the node `Find` returns: looking up
      the next sibling does not change which element is found. */
  lemma FindVisitAgrees(n: Node, sel: Selector)
    ensures FindVisit(n, sel).Some? <==> Find(n, sel).Some?
    ensures FindVisit(n, sel).Some? ==> FindVisit(n, sel).value.node == Find(n, sel).value
  {
    FirstVisitAgrees(Walk(n), sel);
    assert Descendants(n) == Nodes(Walk(n));
  }

  function Nodes(w: seq<Visit>): (ns: seq<Node>)
    ensures |ns| == |w|
    ensures forall i :: 0 <= i < |w| ==> ns[i] == w[i].node
  {
    seq(|w|, i requires 0 <= i < |w| => w[i].node)
  }

  lemma {:induction false} FirstVisitAgrees(w: seq<Visit>, sel: Selector)
    ensures var f := Filter(Matcher(sel), Nodes(w));
      && (FirstVisit(w, sel).Some? <==> f != [])
      && (f != [] ==> FirstVisit(w, sel).value.node == f[0])
  {
    if w != [] {
      FirstVisitAgrees(w[1..], sel);
      assert Nodes(w) == [w[0].node] + Nodes(w[1..]);
      assert Nodes(w)[1..] == Nodes(w[1..]);
    }
  }
}
