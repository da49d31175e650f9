/**
 * The parsed markup tree the transformation engine and the iteration work
 * on: elements (bs4's `Tag`), text (`NavigableString`) and comments
 * (`Comment`), under a document root (the `BeautifulSoup` object). The tree
 * builder itself is outside the model; the bs4 queries the tests use
 * (`find`, `find_all`, `get_text`) are given here as functions of the tree.
 */
module Tree {
  import opened Wrappers

  /**
   * An attribute value: a single token, or the list of tokens bs4 keeps for
   * a multi-valued attribute such as `class`.
   */
  datatype AttrValue = Single(token: string) | Multi(tokens: seq<string>)

  /** An element's attributes; a key occurs at most once. */
  type Attrs = map<string, AttrValue>

  datatype Node =
    | Element(name: string, attrs: Attrs, children: seq<Node>)
    | Text(content: string)
    | Comment(content: string)

  /** The `BeautifulSoup` object: the root that owns the top-level nodes. */
  datatype Document = Document(children: seq<Node>)

  /** The name and attributes of an element, as the engine's rules see it. */
  datatype TagState = TagState(name: string, attrs: Attrs)

  function Kids(n: Node): seq<Node> {
    if n.Element? then n.children else []
  }

  /** `n` followed by all of its descendants, in document order (pre-order). */
  function Subtree(n: Node): (r: seq<Node>)
    ensures |r| >= 1 && r[0] == n
  {
    match n
    case Element(_, _, children) => [n] + Descendants(children)
    case _ => [n]
  }

  /** Every node of the forest `ns`, each before its own descendants, in document order. */
  function Descendants(ns: seq<Node>): seq<Node> {
    if ns == [] then [] else Subtree(ns[0]) + Descendants(ns[1..])
  }

  lemma {:induction false} DescendantsAppend(a: seq<Node>, b: seq<Node>)
    ensures Descendants(a + b) == Descendants(a) + Descendants(b)
  {
    if a == [] {
      assert a + b == b;
    } else {
      assert (a + b)[0] == a[0] && (a + b)[1..] == a[1..] + b;
      assert Descendants(a + b) == Subtree(a[0]) + Descendants(a[1..] + b);
      DescendantsAppend(a[1..], b);
      ConcatAssoc(Subtree(a[0]), Descendants(a[1..]), Descendants(b));
    }
  }

  /** Unfolding the pre-order at the front of a forest: a node, its children, then its siblings. */
  lemma DescendantsCons(n: Node, rest: seq<Node>)
    ensures Descendants([n] + rest) == [n] + Descendants(Kids(n) + rest)
  {
    assert ([n] + rest)[1..] == rest;
    DescendantsAppend(Kids(n), rest);
  }

  /** The nodes of `ns` that are elements named `name`, in order. */
  function Named(ns: seq<Node>, name: string): (r: seq<Node>)
    ensures |r| <= |ns|
    ensures forall k :: 0 <= k < |r| ==> r[k].Element? && r[k].name == name
  {
    if ns == [] then []
    else (if ns[0].Element? && ns[0].name == name then [ns[0]] else []) + Named(ns[1..], name)
  }

  /** Concatenation is associative; stated once so proofs need not rediscover it element by element. */
  lemma ConcatAssoc<T>(x: seq<T>, y: seq<T>, z: seq<T>)
    ensures x + (y + z) == (x + y) + z
  {
  }

  /** The head and tail of a sequence built by prepending one item. */
  lemma ConsParts<T>(x: T, s: seq<T>)
    ensures ([x] + s)[0] == x && ([x] + s)[1..] == s
  {
  }

  lemma {:induction false} NamedAppend(a: seq<Node>, b: seq<Node>, name: string)
    ensures Named(a + b, name) == Named(a, name) + Named(b, name)
  {
    if a == [] {
      assert a + b == b;
    } else {
      var h := if a[0].Element? && a[0].name == name then [a[0]] else [];
      assert (a + b)[0] == a[0] && (a + b)[1..] == a[1..] + b;
      assert Named(a + b, name) == h + Named(a[1..] + b, name);
      NamedAppend(a[1..], b, name);
      ConcatAssoc(h, Named(a[1..], name), Named(b, name));
    }
  }

  /** bs4's `find_all(name)` over a forest: every element so named, in document order. */
  function FindAll(ns: seq<Node>, name: string): seq<Node> {
    Named(Descendants(ns), name)
  }

  /** bs4's `find(name)`: the first element so named, or None. */
  function Find(ns: seq<Node>, name: string): Option<Node> {
    var all := FindAll(ns, name);
    if all == [] then None else Some(all[0])
  }

  /** The concatenated contents of the text nodes of `ns` (comments are not text). */
  function Strings(ns: seq<Node>): string {
    if ns == [] then ""
    else (if ns[0].Text? then ns[0].content else "") + Strings(ns[1..])
  }

  /** bs4's `get_text()`: all text below (or at) `n`, in document order. */
  function GetText(n: Node): string {
    Strings(Subtree(n))
  }

  lemma {:induction false} StringsAppend(a: seq<Node>, b: seq<Node>)
    ensures Strings(a + b) == Strings(a) + Strings(b)
  {
    if a != [] {
      var h := if a[0].Text? then a[0].content else "";
      assert (a + b)[0] == a[0] && (a + b)[1..] == a[1..] + b;
      assert Strings(a + b) == h + Strings(a[1..] + b);
      StringsAppend(a[1..], b);
      ConcatAssoc(h, Strings(a[1..]), Strings(b));
    } else {
      assert a + b == b;
    }
  }

  /** The text below a forest: the first tree's, then the rest's. */
  lemma TextBelowCons(n: Node, rest: seq<Node>)
    ensures Strings(Descendants([n] + rest)) == GetText(n) + Strings(Descendants(rest))
  {
    ConsParts(n, rest);
    StringsAppend(Subtree(n), Descendants(rest));
  }

  /** An element's text is the text below its children; a text node's is its content. */
  lemma GetTextOfElement(n: Node)
    ensures n.Element? ==> GetText(n) == Strings(Descendants(n.children))
    ensures n.Text? ==> GetText(n) == n.content
  {
    if n.Element? {
      ConsParts(n, Descendants(n.children));
      assert Strings([n] + Descendants(n.children)) == "" + Strings(Descendants(n.children));
    } else {
      ConsParts(n, []);
      assert Strings([n]) == (if n.Text? then n.content else "") + Strings([]);
    }
  }

  lemma FindAllAppend(a: seq<Node>, b: seq<Node>, name: string)
    ensures FindAll(a + b, name) == FindAll(a, name) + FindAll(b, name)
  {
    DescendantsAppend(a, b);
    NamedAppend(Descendants(a), Descendants(b), name);
  }

  /** `find_all` over one tree: its root if it qualifies, then what is below it. */
  lemma FindAllOne(n: Node, name: string)
    ensures FindAll([n], name) == (if n.Element? && n.name == name then [n] else []) + FindAll(Kids(n), name)
  {
    FindAllCons(n, [], name);
    assert [n] + [] == [n];
    assert FindAll([], name) == [];
  }

  /** An element holding a single text node reads as that text. */
  lemma LeafText(n: Node, s: string)
    requires n.Element? && n.children == [Text(s)]
    ensures GetText(n) == s
  {
    GetTextOfElement(n);
    TextBelowCons(Text(s), []);
    assert [Text(s)] + [] == [Text(s)];
    GetTextOfElement(Text(s));
    assert Strings(Descendants([])) == "";
  }

  /** `find_all` over a forest: the first node if it qualifies, then below it, then its later siblings. */
  lemma FindAllCons(n: Node, rest: seq<Node>, name: string)
    ensures FindAll([n] + rest, name)
         == (if n.Element? && n.name == name then [n] else []) + FindAll(Kids(n), name) + FindAll(rest, name)
  {
    var h := if n.Element? && n.name == name then [n] else [];
    DescendantsCons(n, rest);
    DescendantsAppend(Kids(n), rest);
    ConsParts(n, Descendants(Kids(n) + rest));
    assert Named([n] + Descendants(Kids(n) + rest), name) == h + Named(Descendants(Kids(n) + rest), name);
    NamedAppend(Descendants(Kids(n)), Descendants(rest), name);
    ConcatAssoc(h, FindAll(Kids(n), name), FindAll(rest, name));
  }

  /** The element children of `n`, as `[c for c in n.children if c.name]` selects them. */
  function ElementChildren(n: Node): (r: seq<Node>)
    ensures forall k :: 0 <= k < |r| ==> r[k].Element?
  {
    ElementsIn(Kids(n))
  }

  function ElementsIn(ns: seq<Node>): (r: seq<Node>)
    ensures forall k :: 0 <= k < |r| ==> r[k].Element?
  {
    if ns == [] then []
    else (if ns[0].Element? then [ns[0]] else []) + ElementsIn(ns[1..])
  }

  /** The name and attributes of every element of `ns`, in order. */
  function TagStates(ns: seq<Node>): seq<TagState> {
    if ns == [] then []
    else (if ns[0].Element? then [TagState(ns[0].name, ns[0].attrs)] else []) + TagStates(ns[1..])
  }

  /**
   * bs4's `select("p > c")`: every element named `c` whose parent is an
   * element named `p`, in document order. `parentIsP` says whether the
   * forest `ns` hangs under such a parent (the document root never is one).
   */
  function SelectUnder(ns: seq<Node>, parentIsP: bool, p: string, c: string): seq<Node> {
    if ns == [] then []
    else
      var n := ns[0];
      (if parentIsP && n.Element? && n.name == c then [n] else [])
      + (if n.Element? then SelectUnder(n.children, n.name == p, p, c) else [])
      + SelectUnder(ns[1..], parentIsP, p, c)
  }

  function SelectChildren(d: Document, p: string, c: string): seq<Node> {
    SelectUnder(d.children, false, p, c)
  }

  /** bs4's `tag.get(key)`. */
  function GetAttr(n: Node, key: string): Option<AttrValue>
    requires n.Element?
  {
    if key in n.attrs then Some(n.attrs[key]) else None
  }
}
