/**
 * The tag-transformation engine (bs4's `SoupReplacer`) as a function of the
 * tree: one rule, applied to every element in a single pre-order pass that
 * starts at the root's children. Each element is handed to the rule before
 * its children are visited, so a renamed element's subtree is still visited
 * and nested matches are each transformed once.
 */
module Replacer {
  import opened Wrappers
  import opened Tree

  /** One in-place edit an `xformer` makes to the element it is handed. */
  datatype Edit =
    | SetAttr(key: string, value: AttrValue)  // `tag[key] = value`
    | DelAttr(key: string)                    // `if key in tag.attrs: del tag.attrs[key]`

  /**
   * An `xformer`: a procedure that edits the element in place and returns
   * nothing. It performs `edit` on every element, or, when `only` is
   * `Some(n)`, only on elements named `n` (the `if tag.name == n` guard).
   */
  datatype Xformer = Xformer(only: Option<string>, edit: Edit)

  /** The single rule a replacer is built with, one case per kind of rule. */
  datatype Strategy =
    | RenamePair(oldName: string, newName: string)           // SoupReplacer(old, new)
    | NameRule(nameXformer: TagState -> string)              // SoupReplacer(name_xformer=f)
    | AttrsRule(attrsXformer: TagState -> Option<Attrs>)     // SoupReplacer(attrs_xformer=f); None: unchanged
    | Mutator(xformer: Xformer)                              // SoupReplacer(xformer=f)

  /** The attributes after an edit. */
  function EditAttrs(e: Edit, attrs: Attrs): Attrs {
    match e
    case SetAttr(k, v) => attrs[k := v]
    case DelAttr(k) => if k in attrs then attrs - {k} else attrs
  }

  /** The element's state after an `xformer` ran on it. */
  function Mutate(x: Xformer, t: TagState): TagState {
    if x.only.Some? && x.only.value != t.name then t
    else TagState(t.name, EditAttrs(x.edit, t.attrs))
  }

  /** What the engine does at one element: the rule applied to the element's state at visit time. */
  function Visit(s: Strategy, t: TagState): TagState {
    match s
    case RenamePair(o, n) => if t.name == o then TagState(n, t.attrs) else t
    case NameRule(f) => TagState(f(t), t.attrs)
    case AttrsRule(f) => (match f(t) case Some(m) => TagState(t.name, m) case None => t)
    case Mutator(x) => Mutate(x, t)
  }

  /** The subtree `n` after the pass: the rule at `n` first, then at its children in order. */
  function Transform(s: Strategy, n: Node): Node {
    match n
    case Element(name, attrs, children) =>
      var t := Visit(s, TagState(name, attrs));
      Element(t.name, t.attrs, TransformAll(s, children))
    case _ => n
  }

  /** The pass over a forest of siblings, left to right. */
  function TransformAll(s: Strategy, ns: seq<Node>): (r: seq<Node>)
    ensures |r| == |ns|
    ensures forall k :: 0 <= k < |ns| ==> r[k] == Transform(s, ns[k])
  {
    seq(|ns|, k requires 0 <= k < |ns| => Transform(s, ns[k]))
  }

  /** The document after the pass, which starts at the root's children. */
  function TransformDocument(s: Strategy, d: Document): Document {
    Document(TransformAll(s, d.children))
  }

  /** The rule's result at each element of a list of element states. */
  function VisitAll(s: Strategy, ts: seq<TagState>): (r: seq<TagState>)
    ensures |r| == |ts|
    ensures forall k :: 0 <= k < |ts| ==> r[k] == Visit(s, ts[k])
  {
    seq(|ts|, k requires 0 <= k < |ts| => Visit(s, ts[k]))
  }

  // ---------------------------------------------------------------------
  // Shape: the pass keeps every node, in place, and changes only element
  // names and attributes.
  // ---------------------------------------------------------------------

  /** A node with every element's name and attributes erased: what no rule may change. */
  function Shape(n: Node): Node {
    match n
    case Element(_, _, children) => Element("", map[], ShapeAll(children))
    case _ => n
  }

  function ShapeAll(ns: seq<Node>): (r: seq<Node>)
    ensures |r| == |ns|
  {
    if ns == [] then [] else [Shape(ns[0])] + ShapeAll(ns[1..])
  }

  lemma {:induction false} TransformKeepsShape(s: Strategy, n: Node)
    ensures Shape(Transform(s, n)) == Shape(n)
    decreases n, 1
  {
    if n.Element? {
      TransformAllKeepsShape(s, n.children);
    }
  }

  /**
   * The pass keeps the shape of the forest: the same number of nodes in the
   * same places, the same text and comment nodes, in the same order.
   */
  lemma {:induction false} TransformAllKeepsShape(s: Strategy, ns: seq<Node>)
    ensures ShapeAll(TransformAll(s, ns)) == ShapeAll(ns)
    decreases ns, 0
  {
    if ns != [] {
      TransformKeepsShape(s, ns[0]);
      TransformAllKeepsShape(s, ns[1..]);
      assert TransformAll(s, ns)[1..] == TransformAll(s, ns[1..]);
    }
  }

  lemma TransformAllAppend(s: Strategy, a: seq<Node>, b: seq<Node>)
    ensures TransformAll(s, a + b) == TransformAll(s, a) + TransformAll(s, b)
  {
    assert forall k :: 0 <= k < |a + b| ==> (a + b)[k] == if k < |a| then a[k] else b[k - |a|];
  }

  lemma {:induction false} SubtreeOfTransform(s: Strategy, n: Node)
    ensures Subtree(Transform(s, n)) == TransformAll(s, Subtree(n))
    decreases n, 1
  {
    if n.Element? {
      DescendantsOfTransform(s, n.children);
      TransformAllAppend(s, [n], Descendants(n.children));
    }
  }

  /**
   * Every node of the output, in document order, is the transformed image of
   * the node at the same position in the input: the pass neither drops, adds
   * nor reorders nodes, and a renamed element keeps its own subtree.
   */
  lemma {:induction false} DescendantsOfTransform(s: Strategy, ns: seq<Node>)
    ensures Descendants(TransformAll(s, ns)) == TransformAll(s, Descendants(ns))
    decreases ns, 0
  {
    if ns != [] {
      var out := TransformAll(s, ns);
      assert out[1..] == TransformAll(s, ns[1..]);
      SubtreeOfTransform(s, ns[0]);
      DescendantsOfTransform(s, ns[1..]);
      TransformAllAppend(s, Subtree(ns[0]), Descendants(ns[1..]));
    }
  }

  lemma {:induction false} TagStatesOfTransformAll(s: Strategy, xs: seq<Node>)
    ensures TagStates(TransformAll(s, xs)) == VisitAll(s, TagStates(xs))
  {
    if xs != [] {
      assert TransformAll(s, xs)[1..] == TransformAll(s, xs[1..]);
      TagStatesOfTransformAll(s, xs[1..]);
      assert VisitAll(s, TagStates(xs)) ==
        (if xs[0].Element? then [Visit(s, TagState(xs[0].name, xs[0].attrs))] else [])
        + VisitAll(s, TagStates(xs[1..])) by {
        var h := if xs[0].Element? then [TagState(xs[0].name, xs[0].attrs)] else [];
        assert TagStates(xs) == h + TagStates(xs[1..]);
        VisitAllAppend(s, h, TagStates(xs[1..]));
      }
    }
  }

  lemma VisitAllAppend(s: Strategy, a: seq<TagState>, b: seq<TagState>)
    ensures VisitAll(s, a + b) == VisitAll(s, a) + VisitAll(s, b)
  {
    assert forall k :: 0 <= k < |a + b| ==> (a + b)[k] == if k < |a| then a[k] else b[k - |a|];
  }

  /**
   * Each element is visited exactly once, in document order: the k-th
   * element of the output carries exactly what the rule made of the k-th
   * element of the input.
   */
  lemma ElementsAfterTransform(s: Strategy, ns: seq<Node>)
    ensures TagStates(Descendants(TransformAll(s, ns))) == VisitAll(s, TagStates(Descendants(ns)))
  {
    DescendantsOfTransform(s, ns);
    TagStatesOfTransformAll(s, Descendants(ns));
  }

  lemma {:induction false} StringsOfTransformAll(s: Strategy, xs: seq<Node>)
    ensures Strings(TransformAll(s, xs)) == Strings(xs)
  {
    if xs != [] {
      assert TransformAll(s, xs)[1..] == TransformAll(s, xs[1..]);
      StringsOfTransformAll(s, xs[1..]);
    }
  }

  /** No rule changes text: every element's `get_text()` is the same after the pass. */
  lemma TransformKeepsText(s: Strategy, n: Node)
    ensures GetText(Transform(s, n)) == GetText(n)
  {
    SubtreeOfTransform(s, n);
    StringsOfTransformAll(s, Subtree(n));
  }

  // ---------------------------------------------------------------------
  // Rename pairs
  // ---------------------------------------------------------------------

  /** One step of the renaming pass over a list: the head's image, then the rest's. */
  lemma RenameUnfold(o: string, n: string, xs: seq<Node>, name: string)
    requires xs != []
    ensures var x := Transform(RenamePair(o, n), xs[0]);
            Named(TransformAll(RenamePair(o, n), xs), name)
              == (if x.Element? && x.name == name then [x] else [])
                 + Named(TransformAll(RenamePair(o, n), xs[1..]), name)
    ensures Named(xs, name)
              == (if xs[0].Element? && xs[0].name == name then [xs[0]] else []) + Named(xs[1..], name)
  {
    var rp := RenamePair(o, n);
    var t := TransformAll(rp, xs);
    assert t == [t[0]] + TransformAll(rp, xs[1..]);
    NamedAppend([t[0]], TransformAll(rp, xs[1..]), name);
    assert xs == [xs[0]] + xs[1..];
    NamedAppend([xs[0]], xs[1..], name);
  }

  lemma {:induction false} RenameLeavesNoOld(o: string, n: string, xs: seq<Node>)
    requires o != n
    ensures Named(TransformAll(RenamePair(o, n), xs), o) == []
  {
    if xs != [] {
      RenameUnfold(o, n, xs, o);
      RenameLeavesNoOld(o, n, xs[1..]);
    }
  }

  lemma {:induction false} RenameCountsNew(o: string, n: string, xs: seq<Node>)
    requires o != n
    ensures |Named(TransformAll(RenamePair(o, n), xs), n)| == |Named(xs, o)| + |Named(xs, n)|
  {
    if xs != [] {
      RenameUnfold(o, n, xs, n);
      RenameUnfold(o, n, xs, o);
      RenameCountsNew(o, n, xs[1..]);
    }
  }

  lemma {:induction false} RenameKeepsOthers(o: string, n: string, xs: seq<Node>, name: string)
    requires name != o && name != n
    ensures Named(TransformAll(RenamePair(o, n), xs), name) == TransformAll(RenamePair(o, n), Named(xs, name))
  {
    if xs != [] {
      var rp := RenamePair(o, n);
      var h := if xs[0].Element? && xs[0].name == name then [xs[0]] else [];
      RenameUnfold(o, n, xs, name);
      RenameKeepsOthers(o, n, xs[1..], name);
      TransformAllAppend(rp, h, Named(xs[1..], name));
    }
  }

  /**
   * A rename pair `(o, n)` with `o != n` leaves no element named `o`
   * anywhere, including inside renamed elements, and every former `o` is
   * now an `n`: the count of `n` elements is the old count of `o` plus `n`.
   * Elements with any other name are found at the same places as before
   * (each with its own subtree transformed).
   */
  lemma RenamePairIsComplete(o: string, n: string, ns: seq<Node>)
    requires o != n
    ensures FindAll(TransformAll(RenamePair(o, n), ns), o) == []
    ensures |FindAll(TransformAll(RenamePair(o, n), ns), n)| == |FindAll(ns, o)| + |FindAll(ns, n)|
    ensures forall name :: name != o && name != n ==>
      FindAll(TransformAll(RenamePair(o, n), ns), name) == TransformAll(RenamePair(o, n), FindAll(ns, name))
  {
    DescendantsOfTransform(RenamePair(o, n), ns);
    RenameLeavesNoOld(o, n, Descendants(ns));
    RenameCountsNew(o, n, Descendants(ns));
    forall name | name != o && name != n
      ensures FindAll(TransformAll(RenamePair(o, n), ns), name) == TransformAll(RenamePair(o, n), FindAll(ns, name))
    {
      RenameKeepsOthers(o, n, Descendants(ns), name);
    }
  }

  /**
   * A rename pair changes element names and nothing else: the k-th element
   * keeps its attributes and is renamed exactly when it was named `o`.
   */
  lemma RenamePairKeepsAttributes(o: string, n: string, ns: seq<Node>)
    ensures var before := TagStates(Descendants(ns));
            var after := TagStates(Descendants(TransformAll(RenamePair(o, n), ns)));
            && |after| == |before|
            && forall k :: 0 <= k < |before| ==>
                 && after[k].attrs == before[k].attrs
                 && after[k].name == (if before[k].name == o then n else before[k].name)
  {
    ElementsAfterTransform(RenamePair(o, n), ns);
  }

  /** Two rules that agree at every element state produce the same tree. */
  lemma {:induction false} SameVisitSameTransform(s1: Strategy, s2: Strategy, ns: seq<Node>)
    requires forall t :: Visit(s1, t) == Visit(s2, t)
    ensures TransformAll(s1, ns) == TransformAll(s2, ns)
    decreases ns, 0
  {
    forall k | 0 <= k < |ns| ensures Transform(s1, ns[k]) == Transform(s2, ns[k]) {
      SameVisitSameTransformNode(s1, s2, ns[k]);
    }
  }

  lemma {:induction false} SameVisitSameTransformNode(s1: Strategy, s2: Strategy, n: Node)
    requires forall t :: Visit(s1, t) == Visit(s2, t)
    ensures Transform(s1, n) == Transform(s2, n)
    decreases n, 1
  {
    if n.Element? {
      SameVisitSameTransform(s1, s2, n.children);
    }
  }

  /** A rule that changes nothing when it meets its own output makes a pass that changes nothing on its own output. */
  lemma {:induction false} TransformAllIdempotent(s: Strategy, ns: seq<Node>)
    requires forall t :: Visit(s, Visit(s, t)) == Visit(s, t)
    ensures TransformAll(s, TransformAll(s, ns)) == TransformAll(s, ns)
    decreases ns, 0
  {
    forall k | 0 <= k < |ns| ensures Transform(s, Transform(s, ns[k])) == Transform(s, ns[k]) {
      TransformIdempotent(s, ns[k]);
    }
  }

  lemma {:induction false} TransformIdempotent(s: Strategy, n: Node)
    requires forall t :: Visit(s, Visit(s, t)) == Visit(s, t)
    ensures Transform(s, Transform(s, n)) == Transform(s, n)
    decreases n, 1
  {
    if n.Element? {
      TransformAllIdempotent(s, n.children);
    }
  }

  /** The name rule a rename pair stands for. */
  function RenameRule(o: string, n: string): TagState -> string {
    (t: TagState) => if t.name == o then n else t.name
  }

  /** A rename pair `(o, n)` does exactly what the name rule "n if named o, else unchanged" does. */
  lemma RenamePairIsNameRule(o: string, n: string, ns: seq<Node>)
    ensures TransformAll(RenamePair(o, n), ns) == TransformAll(NameRule(RenameRule(o, n)), ns)
  {
    SameVisitSameTransform(RenamePair(o, n), NameRule(RenameRule(o, n)), ns);
  }

  // ---------------------------------------------------------------------
  // Attribute rules and mutators
  // ---------------------------------------------------------------------

  /**
   * An attribute rule never renames; its returned mapping replaces the
   * element's attributes as given, and "no change" (None) keeps them.
   */
  lemma AttrsRuleEffect(f: TagState -> Option<Attrs>, ns: seq<Node>)
    ensures var before := TagStates(Descendants(ns));
            var after := TagStates(Descendants(TransformAll(AttrsRule(f), ns)));
            && |after| == |before|
            && forall k :: 0 <= k < |before| ==>
                 && after[k].name == before[k].name
                 && after[k].attrs == (if f(before[k]).Some? then f(before[k]).value else before[k].attrs)
  {
    ElementsAfterTransform(AttrsRule(f), ns);
  }

  /**
   * What an `xformer` edit does to the attributes: setting a key gives it
   * that value; deleting a key removes it (doing nothing if it was absent);
   * every other key keeps its value.
   */
  lemma EditAttrsEffect(e: Edit, attrs: Attrs)
    ensures var r := EditAttrs(e, attrs);
            && (forall k :: k != e.key ==> (k in r <==> k in attrs) && (k in r ==> r[k] == attrs[k]))
            && (e.SetAttr? ==> e.key in r && r[e.key] == e.value)
            && (e.DelAttr? ==> e.key !in r && (e.key !in attrs ==> r == attrs))
  {
  }

  /**
   * A mutator leaves names alone and edits the attributes of exactly the
   * elements its guard admits; every other element is left as it was.
   */
  lemma MutatorEffect(x: Xformer, ns: seq<Node>)
    ensures var before := TagStates(Descendants(ns));
            var after := TagStates(Descendants(TransformAll(Mutator(x), ns)));
            && |after| == |before|
            && forall k :: 0 <= k < |before| ==>
                 && after[k].name == before[k].name
                 && after[k].attrs == (if x.only == None || x.only == Some(before[k].name)
                                       then EditAttrs(x.edit, before[k].attrs) else before[k].attrs)
  {
    ElementsAfterTransform(Mutator(x), ns);
  }
}
