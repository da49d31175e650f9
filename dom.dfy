/**
 * An in-place rendering of the engine, consistent with its tests: bs4 `Tag`
 * objects whose `name` and `attrs` are overwritten while one pre-order walk
 * visits them.
 * `Tag.Abs()` reads the object tree back as a `Tree.Node`, and every method
 * here is proved against the functions of module `Replacer`.
 */
module Dom {
  import opened Wrappers
  import opened Tree
  import opened Replacer

  /** A child of an element object: another element object, or a text or comment node. */
  datatype Child = Sub(tag: Tag) | Leaf(node: Node)

  /** The objects reachable below a list of children. */
  ghost function ReprOf(cs: seq<Child>): (r: set<Tag>)
    ensures forall i :: 0 <= i < |cs| && cs[i].Sub? ==> cs[i].tag.Repr <= r
  {
    if cs == [] then {} else (if cs[0].Sub? then cs[0].tag.Repr else {}) + ReprOf(cs[1..])
  }

  ghost function HeightOf(cs: seq<Child>): (h: nat)
    ensures forall i :: 0 <= i < |cs| && cs[i].Sub? ==> cs[i].tag.height <= h
  {
    if cs == [] then 0
    else
      var rest := HeightOf(cs[1..]);
      if cs[0].Sub? && cs[0].tag.height > rest then cs[0].tag.height else rest
  }

  /** Children that may be put under a new element: element objects form disjoint valid trees. */
  ghost predicate Assemblable(cs: seq<Child>) {
    && (forall i :: 0 <= i < |cs| ==> (cs[i].Sub? ==> cs[i].tag.Valid()) && (cs[i].Leaf? ==> !cs[i].node.Element?))
    && (forall i, j :: 0 <= i < j < |cs| && cs[i].Sub? && cs[j].Sub? ==> cs[i].tag.Repr !! cs[j].tag.Repr)
  }

  /**
   * A bs4 `Tag`. `name` and `attrs` are what rules write; the list of
   * children is not changed by a pass, so it is a constant here. `Repr` is
   * the set of element objects of this subtree and `height` bounds its depth.
   */
  class Tag {
    var name: string
    var attrs: Attrs
    const children: seq<Child>
    ghost const Repr: set<Tag>
    ghost const height: nat

    /** A tree: every element object below is valid, owned by this one, and siblings share nothing. */
    ghost predicate Valid()
      decreases height
    {
      && this in Repr
      && (forall i :: 0 <= i < |children| && children[i].Sub? ==>
            && children[i].tag.height < height
            && children[i].tag.Repr <= Repr
            && this !in children[i].tag.Repr
            && children[i].tag.Valid())
      && (forall i :: 0 <= i < |children| && children[i].Leaf? ==> !children[i].node.Element?)
      && (forall i, j :: 0 <= i < j < |children| && children[i].Sub? && children[j].Sub? ==>
            children[i].tag.Repr !! children[j].tag.Repr)
    }

    constructor (name: string, attrs: Attrs, children: seq<Child>)
      requires Assemblable(children)
      ensures Valid() && fresh(this)
      ensures this.name == name && this.attrs == attrs && this.children == children
      ensures Repr == {this} + ReprOf(children)
    {
      this.name := name;
      this.attrs := attrs;
      this.children := children;
      this.Repr := {this} + ReprOf(children);
      this.height := HeightOf(children) + 1;
    }

    /** The tree value this object stands for. */
    function Abs(): Node
      reads Repr
      requires Valid()
      decreases height, 2
    {
      Element(name, attrs, AbsChildren())
    }

    /** The tree values of the children, in order. */
    function AbsChildren(): (r: seq<Node>)
      reads Repr - {this}
      requires Valid()
      ensures |r| == |children|
      ensures forall i :: 0 <= i < |children| ==> r[i] == ChildAbs(i)
      decreases height, 1
    {
      seq(|children|, i requires 0 <= i < |children| && Valid() reads Repr - {this} => ChildAbs(i))
    }

    /** The tree value of the `i`-th child; it depends on that child's objects only. */
    function ChildAbs(i: nat): Node
      reads if i < |children| && children[i].Sub? then children[i].tag.Repr else {}
      requires Valid() && i < |children|
      decreases height, 0
    {
      match children[i]
      case Sub(t) => t.Abs()
      case Leaf(n) => n
    }
  }

  /** The rule applied in place to one element object. */
  method VisitInPlace(s: Strategy, t: Tag)
    modifies t`name, t`attrs
    ensures TagState(t.name, t.attrs) == Visit(s, TagState(old(t.name), old(t.attrs)))
  {
    match s
    case RenamePair(o, n) =>
      if t.name == o { t.name := n; }
    case NameRule(f) =>
      t.name := f(TagState(t.name, t.attrs));
    case AttrsRule(f) =>
      var r := f(TagState(t.name, t.attrs));
      if r.Some? { t.attrs := r.value; }
    case Mutator(x) =>
      RunXformer(x, t);
  }

  /** An `xformer` running on the element it is handed: it may only touch the attribute mapping. */
  method RunXformer(x: Xformer, t: Tag)
    modifies t`attrs
    ensures TagState(t.name, t.attrs) == Mutate(x, TagState(t.name, old(t.attrs)))
  {
    if x.only.None? || x.only.value == t.name {
      match x.edit
      case SetAttr(k, v) =>
        t.attrs := t.attrs[k := v];
      case DelAttr(k) =>
        if k in t.attrs { t.attrs := t.attrs - {k}; }
    }
  }

  /** The pass over the subtree rooted at `t`: the rule at `t`, then its children. */
  method Walk(s: Strategy, t: Tag)
    requires t.Valid()
    modifies t.Repr
    ensures t.Abs() == Transform(s, old(t.Abs()))
    decreases t.height, 1
  {
    VisitInPlace(s, t);
    WalkChildren(s, t);
  }

  /** The pass over the children of `t`, left to right; `t` itself is not touched. */
  method WalkChildren(s: Strategy, t: Tag)
    requires t.Valid()
    modifies t.Repr - {t}
    ensures t.AbsChildren() == TransformAll(s, old(t.AbsChildren()))
    decreases t.height, 0
  {
    var i := 0;
    while i < |t.children|
      invariant 0 <= i <= |t.children|
      invariant forall k :: 0 <= k < i ==> t.ChildAbs(k) == Transform(s, old(t.ChildAbs(k)))
      invariant forall k :: i <= k < |t.children| ==> t.ChildAbs(k) == old(t.ChildAbs(k))
    {
      if t.children[i].Sub? {
        Walk(s, t.children[i].tag);
      }
      i := i + 1;
    }
  }

  /**
   * bs4's `SoupReplacer`: an engine bound to one rule at construction. The
   * rule is a constant, and `Apply` keeps no state between documents.
   */
  class SoupReplacer {
    const strategy: Strategy

    constructor (s: Strategy)
      ensures strategy == s
    {
      strategy := s;
    }

    /**
     * The pass over a parsed document whose root (the `BeautifulSoup`
     * object) is `root`: it starts at the root's children, and the result
     * depends only on the rule and on the document.
     */
    method Apply(root: Tag)
      requires root.Valid()
      modifies root.Repr - {root}
      ensures Document(root.AbsChildren()) == TransformDocument(strategy, Document(old(root.AbsChildren())))
    {
      WalkChildren(strategy, root);
    }
  }
}
