/**
 * What `for node in soup` yields, and the bs4 classes those objects belong
 * to. The root (the `BeautifulSoup` object) is itself a `Tag`, and a
 * `Comment` is a `NavigableString` through `PreformattedString`, so
 * `isinstance` answers follow the class hierarchy rather than the node kind.
 */
module Elements {
  import opened Wrappers
  import opened Tree

  /** An iterated object: the document root, or a node below it. */
  datatype PageElement = Root | Inner(node: Node)

  /** The bs4 classes of iterated objects, plus the classes between them and `PageElement`. */
  datatype PyClass =
    | PageElementClass
    | TagClass
    | BeautifulSoupClass
    | NavigableStringClass
    | PreformattedStringClass
    | CommentClass

  /** The direct base class within bs4's hierarchy; `PageElement` is the top. */
  function Base(c: PyClass): Option<PyClass> {
    match c
    case PageElementClass => None
    case TagClass => Some(PageElementClass)
    case BeautifulSoupClass => Some(TagClass)
    case NavigableStringClass => Some(PageElementClass)
    case PreformattedStringClass => Some(NavigableStringClass)
    case CommentClass => Some(PreformattedStringClass)
  }

  /** `c.__mro__` up to `PageElement`: the class, then its bases, nearest first. */
  function Mro(c: PyClass): seq<PyClass> {
    match c
    case PageElementClass => [PageElementClass]
    case TagClass => [TagClass, PageElementClass]
    case BeautifulSoupClass => [BeautifulSoupClass, TagClass, PageElementClass]
    case NavigableStringClass => [NavigableStringClass, PageElementClass]
    case PreformattedStringClass => [PreformattedStringClass, NavigableStringClass, PageElementClass]
    case CommentClass => [CommentClass, PreformattedStringClass, NavigableStringClass, PageElementClass]
  }

  /** The method resolution order is the class followed by its base's. */
  lemma MroFollowsBases(c: PyClass)
    ensures Mro(c) == [c] + (if Base(c).Some? then Mro(Base(c).value) else [])
  {
  }

  /** `issubclass(c, d)`. */
  predicate IsSubclass(c: PyClass, d: PyClass) {
    d in Mro(c)
  }

  /** `type(e)`. */
  function ClassOf(e: PageElement): PyClass {
    match e
    case Root => BeautifulSoupClass
    case Inner(Element(_, _, _)) => TagClass
    case Inner(Text(_)) => NavigableStringClass
    case Inner(Comment(_)) => CommentClass
  }

  /** `type(e).__name__`. */
  function TypeName(c: PyClass): string {
    match c
    case PageElementClass => "PageElement"
    case TagClass => "Tag"
    case BeautifulSoupClass => "BeautifulSoup"
    case NavigableStringClass => "NavigableString"
    case PreformattedStringClass => "PreformattedString"
    case CommentClass => "Comment"
  }

  predicate IsInstance(e: PageElement, c: PyClass) {
    IsSubclass(ClassOf(e), c)
  }

  /**
   * `isinstance` on iterated objects: the root is the only `BeautifulSoup`
   * and is also a `Tag`; comments are `NavigableString`s; nothing is both a
   * `Tag` and a `NavigableString`.
   */
  lemma InstanceTable(e: PageElement)
    ensures IsInstance(e, PageElementClass)
    ensures IsInstance(e, BeautifulSoupClass) <==> e.Root?
    ensures IsInstance(e, TagClass) <==> e.Root? || e.node.Element?
    ensures IsInstance(e, NavigableStringClass) <==> e.Inner? && (e.node.Text? || e.node.Comment?)
    ensures IsInstance(e, CommentClass) <==> e.Inner? && e.node.Comment?
    ensures !(IsInstance(e, TagClass) && IsInstance(e, NavigableStringClass))
  {
  }
}
