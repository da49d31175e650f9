/**
 * Iterating a `BeautifulSoup` object (bs4/tests/test_soup_iterable.py):
 * the root first, then every node below it in document order, comments
 * included. `Iterate` is the whole sequence; `SoupIterator` produces it one
 * object at a time from a stack of pending nodes, as a generator would.
 */
module Iteration {
  import opened Wrappers
  import opened Text
  import opened Tree
  import opened Elements

  function InnerAll(ns: seq<Node>): (r: seq<PageElement>)
    ensures |r| == |ns|
    ensures forall k :: 0 <= k < |ns| ==> r[k] == Inner(ns[k])
  {
    seq(|ns|, k requires 0 <= k < |ns| => Inner(ns[k]))
  }

  lemma InnerAllAppend(a: seq<Node>, b: seq<Node>)
    ensures InnerAll(a + b) == InnerAll(a) + InnerAll(b)
  {
  }

  /** `list(soup)`: the root, then the nodes of the document in pre-order. */
  function Iterate(d: Document): (r: seq<PageElement>)
    ensures |r| >= 1 && r[0] == Root
    ensures forall k :: 1 <= k < |r| ==> r[k].Inner?
  {
    [Root] + InnerAll(Descendants(d.children))
  }

  // ---------------------------------------------------------------------
  // Every node exactly once
  // ---------------------------------------------------------------------

  /** The number of nodes of a subtree, counted independently of any order. */
  function Size(n: Node): nat {
    match n
    case Element(_, _, children) => 1 + SizeAll(children)
    case _ => 1
  }

  function SizeAll(ns: seq<Node>): nat {
    if ns == [] then 0 else Size(ns[0]) + SizeAll(ns[1..])
  }

  lemma {:induction false} SubtreeCount(n: Node)
    ensures |Subtree(n)| == Size(n)
    decreases n, 1
  {
    if n.Element? {
      DescendantsCount(n.children);
    }
  }

  lemma {:induction false} DescendantsCount(ns: seq<Node>)
    ensures |Descendants(ns)| == SizeAll(ns)
    decreases ns, 0
  {
    if ns != [] {
      SubtreeCount(ns[0]);
      DescendantsCount(ns[1..]);
    }
  }

  /** Iteration yields one object per node of the document, plus the root. */
  lemma IterationCountsEveryNode(d: Document)
    ensures |Iterate(d)| == 1 + SizeAll(d.children)
  {
    DescendantsCount(d.children);
  }

  /** The root is yielded first and never again. */
  lemma RootOnlyFirst(d: Document)
    ensures forall k :: 0 <= k < |Iterate(d)| ==> (Iterate(d)[k] == Root <==> k == 0)
  {
  }

  /** A document with nothing in it yields just the root. */
  lemma EmptyDocumentYieldsRoot()
    ensures Iterate(Document([])) == [Root]
  {
  }

  // ---------------------------------------------------------------------
  // The filters the tests apply to the iterated list
  // ---------------------------------------------------------------------

  /** `n.name` for an iterated `Tag`; the root's name is bs4's `"[document]"`. */
  function TagName(e: PageElement): string
    requires e.Root? || e.node.Element?
  {
    if e.Root? then "[document]" else e.node.name
  }

  /** The conditions the tests' list comprehensions filter the iterated objects by. */
  datatype Condition =
    | OfClass(c: PyClass)            // isinstance(n, c)
    | TagNamed(name: string)         // isinstance(n, Tag) and n.name == name
    | StringStrippedTo(s: string)    // isinstance(n, NavigableString) and str(n).strip() == s

  predicate Matches(e: PageElement, cond: Condition) {
    match cond
    case OfClass(c) => IsInstance(e, c)
    case TagNamed(name) => (e.Root? || e.node.Element?) && TagName(e) == name
    case StringStrippedTo(s) => e.Inner? && !e.node.Element? && Strip(e.node.content) == s
  }

  /** `[n for n in items if cond(n)]`. */
  function Select(items: seq<PageElement>, cond: Condition): (r: seq<PageElement>)
    ensures |r| <= |items|
    ensures forall k :: 0 <= k < |r| ==> Matches(r[k], cond)
  {
    if items == [] then []
    else (if Matches(items[0], cond) then [items[0]] else []) + Select(items[1..], cond)
  }

  /** The nodes of `ns` meeting `cond`, in order. */
  function Matching(ns: seq<Node>, cond: Condition): seq<Node> {
    if ns == [] then []
    else (if Matches(Inner(ns[0]), cond) then [ns[0]] else []) + Matching(ns[1..], cond)
  }

  lemma {:induction false} SelectOfInner(ns: seq<Node>, cond: Condition)
    ensures Select(InnerAll(ns), cond) == InnerAll(Matching(ns, cond))
  {
    if ns != [] {
      assert InnerAll(ns)[1..] == InnerAll(ns[1..]);
      SelectOfInner(ns[1..], cond);
      InnerAllAppend(if Matches(Inner(ns[0]), cond) then [ns[0]] else [], Matching(ns[1..], cond));
    }
  }

  /** Filtering the iteration is filtering the document's nodes in order, with the root in front when it qualifies. */
  lemma IteratedSelect(d: Document, cond: Condition)
    ensures Select(Iterate(d), cond)
         == (if Matches(Root, cond) then [Root] else []) + InnerAll(Matching(Descendants(d.children), cond))
  {
    assert Iterate(d)[1..] == InnerAll(Descendants(d.children));
    SelectOfInner(Descendants(d.children), cond);
  }

  lemma {:induction false} MatchingTagNamed(ns: seq<Node>, name: string)
    ensures Matching(ns, TagNamed(name)) == Named(ns, name)
  {
    if ns != [] {
      MatchingTagNamed(ns[1..], name);
    }
  }

  /** The tags of a given name met while iterating are exactly what `find_all(name)` returns, in order. */
  lemma IteratedTagsAreFindAll(d: Document, name: string)
    requires name != "[document]"
    ensures Select(Iterate(d), TagNamed(name)) == InnerAll(FindAll(d.children, name))
  {
    IteratedSelect(d, TagNamed(name));
    MatchingTagNamed(Descendants(d.children), name);
  }

  /** How many nodes of a subtree meet `cond`, counted over the tree itself. */
  function Count(n: Node, cond: Condition): nat {
    (if Matches(Inner(n), cond) then 1 else 0) + (if n.Element? then CountAll(n.children, cond) else 0)
  }

  function CountAll(ns: seq<Node>, cond: Condition): nat {
    if ns == [] then 0 else Count(ns[0], cond) + CountAll(ns[1..], cond)
  }

  lemma {:induction false} MatchingAppend(a: seq<Node>, b: seq<Node>, cond: Condition)
    ensures Matching(a + b, cond) == Matching(a, cond) + Matching(b, cond)
  {
    if a == [] {
      assert a + b == b;
    } else {
      var head := if Matches(Inner(a[0]), cond) then [a[0]] else [];
      assert (a + b)[0] == a[0];
      assert (a + b)[1..] == a[1..] + b;
      assert Matching(a + b, cond) == head + Matching(a[1..] + b, cond);
      MatchingAppend(a[1..], b, cond);
      assert Matching(a, cond) == head + Matching(a[1..], cond);
      ConcatAssoc(head, Matching(a[1..], cond), Matching(b, cond));
    }
  }

  lemma {:induction false} CountOfSubtree(n: Node, cond: Condition)
    ensures |Matching(Subtree(n), cond)| == Count(n, cond)
    decreases n, 1
  {
    if n.Element? {
      MatchingAppend([n], Descendants(n.children), cond);
      CountOfDescendants(n.children, cond);
    }
  }

  lemma {:induction false} CountOfDescendants(ns: seq<Node>, cond: Condition)
    ensures |Matching(Descendants(ns), cond)| == CountAll(ns, cond)
    decreases ns, 0
  {
    if ns != [] {
      MatchingAppend(Subtree(ns[0]), Descendants(ns[1..]), cond);
      CountOfSubtree(ns[0], cond);
      CountOfDescendants(ns[1..], cond);
    }
  }

  /** How many iterated objects meet `cond`: the root if it does, plus the count over the tree. */
  lemma IteratedCount(d: Document, cond: Condition)
    ensures |Select(Iterate(d), cond)| == (if Matches(Root, cond) then 1 else 0) + CountAll(d.children, cond)
  {
    IteratedSelect(d, cond);
    CountOfDescendants(d.children, cond);
  }

  lemma CountAllOne(a: Node, cond: Condition)
    ensures CountAll([a], cond) == Count(a, cond)
  {
  }

  lemma CountAllTwo(a: Node, b: Node, cond: Condition)
    ensures CountAll([a, b], cond) == Count(a, cond) + Count(b, cond)
  {
    assert [a, b][1..] == [b];
    assert CountAll([b], cond) == Count(b, cond);
  }

  /** A forest of one or two trees: its size and counts are theirs. */
  lemma SmallForest(a: Node, b: Node)
    ensures SizeAll([a]) == Size(a)
    ensures SizeAll([a, b]) == Size(a) + Size(b)
    ensures CountAll([a], OfClass(TagClass)) == Count(a, OfClass(TagClass))
    ensures CountAll([a], OfClass(NavigableStringClass)) == Count(a, OfClass(NavigableStringClass))
    ensures CountAll([a, b], OfClass(TagClass)) == Count(a, OfClass(TagClass)) + Count(b, OfClass(TagClass))
    ensures CountAll([a, b], OfClass(NavigableStringClass))
         == Count(a, OfClass(NavigableStringClass)) + Count(b, OfClass(NavigableStringClass))
  {
    assert [a, b][1..] == [b];
    assert SizeAll([b]) == Size(b);
    CountAllTwo(a, b, OfClass(TagClass));
    CountAllTwo(a, b, OfClass(NavigableStringClass));
  }

  /** An element is one `Tag` and no string, on top of what its children hold. */
  lemma ElementCounts(name: string, kids: seq<Node>)
    ensures Size(Element(name, map[], kids)) == 1 + SizeAll(kids)
    ensures Count(Element(name, map[], kids), OfClass(TagClass)) == 1 + CountAll(kids, OfClass(TagClass))
    ensures Count(Element(name, map[], kids), OfClass(NavigableStringClass)) == CountAll(kids, OfClass(NavigableStringClass))
  {
    InstanceTable(Inner(Element(name, map[], kids)));
  }

  /** A text node is one string and no `Tag`. */
  lemma TextCounts(s: string)
    ensures Count(Text(s), OfClass(TagClass)) == 0
    ensures Count(Text(s), OfClass(NavigableStringClass)) == 1
  {
    InstanceTable(Inner(Text(s)));
  }

  // ---------------------------------------------------------------------
  // The documents of the tests, as html.parser builds them
  // ---------------------------------------------------------------------

  /** `<html><head><title>Test</title></head><body><p>Hello</p></body></html>`, as html.parser builds it. */
  function SimpleSoup(): seq<Node> {
    [Element("html", map[], [
       Element("head", map[], [Element("title", map[], [Text("Test")])]),
       Element("body", map[], [Element("p", map[], [Text("Hello")])])])]
  }

  /** `<div><div><div><p>Nested</p></div></div></div>`. */
  function NestedDivs(): seq<Node> {
    [Element("div", map[], [Element("div", map[], [Element("div", map[], [
       Element("p", map[], [Text("Nested")])])])])]
  }

  /** `<html><!-- This is a comment --><body>Text</body></html>`. */
  function WithComment(): seq<Node> {
    [Element("html", map[], [Comment(" This is a comment "), Element("body", map[], [Text("Text")])])]
  }

  /** The simple document's tree: five elements, two strings, seven nodes in all. */
  lemma SimpleSoupCounts()
    ensures SizeAll(SimpleSoup()) == 7
    ensures CountAll(SimpleSoup(), OfClass(TagClass)) == 5
    ensures CountAll(SimpleSoup(), OfClass(NavigableStringClass)) == 2
  {
    var test, hello := Text("Test"), Text("Hello");
    TextCounts("Test");
    TextCounts("Hello");
    SmallForest(test, test);
    ElementCounts("title", [test]);
    var title := Element("title", map[], [test]);
    SmallForest(title, title);
    ElementCounts("head", [title]);
    SmallForest(hello, hello);
    ElementCounts("p", [hello]);
    var p := Element("p", map[], [hello]);
    SmallForest(p, p);
    ElementCounts("body", [p]);
    var head := Element("head", map[], [title]);
    var body := Element("body", map[], [p]);
    SmallForest(head, body);
    ElementCounts("html", [head, body]);
    var html := Element("html", map[], [head, body]);
    SmallForest(html, html);
    assert SimpleSoup() == [html];
  }

  /** The simple document: the root first, eight objects in all, six of them `Tag`s (the root among them), two strings. */
  lemma SimpleSoupIteration(d: Document)
    requires d == Document(SimpleSoup())
    ensures Iterate(d)[0] == Root
    ensures |Iterate(d)| == 8
    ensures |Select(Iterate(d), OfClass(TagClass))| == 6
    ensures |Select(Iterate(d), OfClass(NavigableStringClass))| == 2
  {
    SimpleSoupCounts();
    InstanceTable(Root);
    IterationCountsEveryNode(d);
    IteratedCount(d, OfClass(TagClass));
    IteratedCount(d, OfClass(NavigableStringClass));
  }

  /** `Count` over a one-element chain: the wrapper's own match plus its child's count. */
  lemma CountWrapped(name: string, child: Node, cond: Condition)
    ensures Count(Element(name, map[], [child]), cond)
         == (if Matches(Inner(Element(name, map[], [child])), cond) then 1 else 0) + Count(child, cond)
  {
    CountAllOne(child, cond);
  }

  /** The nested document's tree holds three `div`s. */
  lemma NestedDivsDivs()
    ensures CountAll(NestedDivs(), TagNamed("div")) == 3
  {
    var divs := TagNamed("div");
    var p := Element("p", map[], [Text("Nested")]);
    var d3 := Element("div", map[], [p]);
    var d2 := Element("div", map[], [d3]);
    var d1 := Element("div", map[], [d2]);
    CountWrapped("p", Text("Nested"), divs);
    CountWrapped("div", p, divs);
    CountWrapped("div", d3, divs);
    CountWrapped("div", d2, divs);
    CountAllOne(d1, divs);
    assert NestedDivs() == [d1];
  }

  /** The nested document's tree holds one `p`. */
  lemma NestedDivsParagraphs()
    ensures CountAll(NestedDivs(), TagNamed("p")) == 1
  {
    var ps := TagNamed("p");
    var p := Element("p", map[], [Text("Nested")]);
    var d3 := Element("div", map[], [p]);
    var d2 := Element("div", map[], [d3]);
    var d1 := Element("div", map[], [d2]);
    CountWrapped("p", Text("Nested"), ps);
    CountWrapped("div", p, ps);
    CountWrapped("div", d3, ps);
    CountWrapped("div", d2, ps);
    CountAllOne(d1, ps);
    assert NestedDivs() == [d1];
  }

  /** The nested document's tree holds one string that strips to "Nested". */
  lemma NestedDivsText()
    ensures CountAll(NestedDivs(), StringStrippedTo("Nested")) == 1
  {
    var text := StringStrippedTo("Nested");
    var p := Element("p", map[], [Text("Nested")]);
    var d3 := Element("div", map[], [p]);
    var d2 := Element("div", map[], [d3]);
    var d1 := Element("div", map[], [d2]);
    assert Strip("Nested") == "Nested" by {
      assert SkipSpace("Nested", 0) == 0 && SkipSpaceBack("Nested", 0, 6) == 6;
    }
    assert Count(Text("Nested"), text) == 1;
    CountWrapped("p", Text("Nested"), text);
    CountWrapped("div", p, text);
    CountWrapped("div", d3, text);
    CountWrapped("div", d2, text);
    CountAllOne(d1, text);
    assert NestedDivs() == [d1];
  }

  /** When the root does not qualify, the count over the iteration is the count over the tree. */
  lemma CountBelowRoot(d: Document, cond: Condition, n: nat)
    requires !Matches(Root, cond)
    requires CountAll(d.children, cond) == n
    ensures |Select(Iterate(d), cond)| == n
  {
    IteratedCount(d, cond);
  }

  /** The nested document: three `div`s, one `p`, one "Nested". */
  lemma NestedStructureIteration(d: Document)
    requires d == Document(NestedDivs())
    ensures Iterate(d)[0] == Root
    ensures |Select(Iterate(d), TagNamed("div"))| == 3
    ensures |Select(Iterate(d), TagNamed("p"))| == 1
    ensures |Select(Iterate(d), StringStrippedTo("Nested"))| == 1
  {
    assert |Select(Iterate(d), TagNamed("div"))| == 3 by {
      NestedDivsDivs();
      CountBelowRoot(d, TagNamed("div"), 3);
    }
    assert |Select(Iterate(d), TagNamed("p"))| == 1 by {
      NestedDivsParagraphs();
      CountBelowRoot(d, TagNamed("p"), 1);
    }
    assert |Select(Iterate(d), StringStrippedTo("Nested"))| == 1 by {
      NestedDivsText();
      CountBelowRoot(d, StringStrippedTo("Nested"), 1);
    }
  }

  /** When the root does not qualify, filtering the iteration is filtering the tree. */
  lemma SelectBelowRoot(d: Document, cond: Condition, ms: seq<Node>)
    requires !Matches(Root, cond)
    requires Matching(Descendants(d.children), cond) == ms
    ensures Select(Iterate(d), cond) == InnerAll(ms)
  {
    IteratedSelect(d, cond);
  }

  /** The only comment below the root of the document with a comment. */
  lemma WithCommentComments()
    ensures Matching(Descendants(WithComment()), OfClass(CommentClass)) == [Comment(" This is a comment ")]
  {
    var c := Comment(" This is a comment ");
    var t := Text("Text");
    var body := Element("body", map[], [t]);
    var html := Element("html", map[], [c, body]);
    var comments := OfClass(CommentClass);
    assert WithComment() == [html];
    assert Descendants([html]) == [html, c, body, t] by {
      assert Descendants([body]) == [body, t];
      assert [c, body][1..] == [body];
      assert Descendants([c, body]) == [c, body, t];
    }
    InstanceTable(Inner(t));
    assert Matching([t], comments) == [];
    InstanceTable(Inner(body));
    assert [body, t][1..] == [t];
    assert Matching([body, t], comments) == [];
    InstanceTable(Inner(c));
    assert [c, body, t][1..] == [body, t];
    assert Matching([c, body, t], comments) == [c];
    InstanceTable(Inner(html));
    assert [html, c, body, t][1..] == [c, body, t];
  }

  /** The document with a comment: the one comment is met, its text intact. */
  lemma CommentsAreIterated(d: Document)
    requires d == Document(WithComment())
    ensures Select(Iterate(d), OfClass(CommentClass)) == [Inner(Comment(" This is a comment "))]
  {
    InstanceTable(Root);
    WithCommentComments();
    SelectBelowRoot(d, OfClass(CommentClass), [Comment(" This is a comment ")]);
  }

  // ---------------------------------------------------------------------
  // The generator
  // ---------------------------------------------------------------------

  /** Taking the first node off a stack of pending nodes puts its children in front of its later siblings. */
  lemma PopPending(stack: seq<Node>)
    requires stack != []
    ensures InnerAll(Descendants(stack)) == [Inner(stack[0])] + InnerAll(Descendants(Kids(stack[0]) + stack[1..]))
  {
    var n, rest := stack[0], stack[1..];
    assert stack == [n] + rest;
    DescendantsCons(n, rest);
    InnerAllAppend([n], Descendants(Kids(n) + rest));
  }

  /**
   * The generator behind `iter(soup)`. It holds whether the root is still
   * to come and a stack of nodes still to visit, next one first; taking a
   * node pushes its children in front of its later siblings. `yielded` is
   * what has been produced so far.
   */
  class SoupIterator {
    ghost const doc: Document
    var rootPending: bool
    var stack: seq<Node>
    ghost var yielded: seq<PageElement>

    /** What the iterator will still produce. */
    ghost function Pending(): seq<PageElement>
      reads this
    {
      (if rootPending then [Root] else []) + InnerAll(Descendants(stack))
    }

    /** What was produced, followed by what will be, is the whole iteration of the document. */
    ghost predicate Valid()
      reads this
    {
      yielded + Pending() == Iterate(doc)
    }

    constructor (d: Document)
      ensures Valid() && doc == d && yielded == [] && Pending() == Iterate(d)
    {
      doc := d;
      rootPending := true;
      stack := d.children;
      yielded := [];
    }

    /** `next(iterator)`: the next object in document order, or nothing once all were produced. */
    method Next() returns (r: Option<PageElement>)
      requires Valid()
      modifies this
      ensures Valid()
      ensures old(Pending()) == [] ==> r == None && Pending() == [] && yielded == old(yielded)
      ensures old(Pending()) != [] ==>
                && r.Some?
                && old(Pending()) == [r.value] + Pending()
                && yielded == old(yielded) + [r.value]
    {
      if rootPending {
        rootPending := false;
        r := Some(Root);
        ConcatAssoc(yielded, [Root], Pending());
        yielded := yielded + [Root];
      } else if stack == [] {
        r := None;
      } else {
        var n := stack[0];
        PopPending(stack);
        stack := Kids(n) + stack[1..];
        r := Some(Inner(n));
        ConcatAssoc(yielded, [Inner(n)], Pending());
        yielded := yielded + [Inner(n)];
      }
    }

    /** `list(iterator)`: everything not produced yet, in order; afterwards the iterator is exhausted. */
    method Rest() returns (items: seq<PageElement>)
      requires Valid()
      modifies this
      ensures Valid() && Pending() == []
      ensures items == old(Pending())
      ensures yielded == old(yielded) + items
    {
      ghost var start := Pending();
      items := [];
      var r := Next();
      while r.Some?
        invariant Valid()
        invariant r.Some? ==> start == items + ([r.value] + Pending())
        invariant r.None? ==> start == items && Pending() == []
        decreases |Pending()| + (if r.Some? then 1 else 0)
      {
        ghost var p := Pending();
        ConcatAssoc(items, [r.value], p);
        items := items + [r.value];
        r := Next();
      }
    }
  }

  /** `list(soup)`: a fresh generator run to the end. */
  method Collect(d: Document) returns (items: seq<PageElement>)
    ensures items == Iterate(d)
  {
    var it := new SoupIterator(d);
    items := it.Rest();
  }

  /** `k` `div`s, each inside the previous one, around `inner`. */
  function DivChain(k: nat, inner: seq<Node>): seq<Node> {
    if k == 0 then inner else [Element("div", map[], DivChain(k - 1, inner))]
  }

  lemma {:induction false} DivChainSize(k: nat, inner: seq<Node>)
    ensures SizeAll(DivChain(k, inner)) == k + SizeAll(inner)
  {
    if k > 0 {
      DivChainSize(k - 1, inner);
      var e := Element("div", map[], DivChain(k - 1, inner));
      assert SizeAll([e]) == Size(e);
    }
  }

  /** `<html>` + `depth` nested `<div>`s around "Text" + `</html>`; the test uses a depth of 100. */
  function DeepDocument(depth: nat): Document {
    Document([Element("html", map[], DivChain(depth, [Text("Text")]))])
  }

  lemma DeepDocumentSize(depth: nat)
    ensures |Iterate(DeepDocument(depth))| == depth + 3
  {
    DivChainSize(depth, [Text("Text")]);
    assert SizeAll([Text("Text")]) == 1;
    var html := Element("html", map[], DivChain(depth, [Text("Text")]));
    assert SizeAll([html]) == Size(html);
    IterationCountsEveryNode(DeepDocument(depth));
  }

  /**
   * The incremental use of the generator on a deep document (100 levels in
   * the test; any depth of at least 9 will do): the first `next` gives the
   * root, a `for` loop stopped after ten more gets exactly ten, and what is
   * left is the rest of the iteration, not empty.
   */
  method IterationIsIncremental(depth: nat) returns (first: PageElement, count: nat, remaining: seq<PageElement>)
    requires depth >= 9
    ensures first == Root
    ensures count == 10
    ensures |Iterate(DeepDocument(depth))| == depth + 3
    ensures remaining == Iterate(DeepDocument(depth))[11..] && |remaining| > 0
  {
    var d := DeepDocument(depth);
    DeepDocumentSize(depth);
    var it := new SoupIterator(d);
    var r := it.Next();
    first := r.value;
    count := 0;
    var stop := false;
    while !stop
      invariant it.Valid() && it.doc == d
      invariant count <= 10 && it.yielded == Iterate(d)[..count + 1]
      invariant !stop ==> count < 10
      invariant stop ==> count == 10 || it.Pending() == []
      decreases 10 - count, if stop then 0 else 1
    {
      var node := it.Next();
      if node.Some? {
        count := count + 1;
        stop := count >= 10;
      } else {
        stop := true;
      }
    }
    remaining := it.Rest();
  }

  /** `for node in soup: collected.append(node)`, then `list(soup)` again: the same objects, root first. */
  method IterationIsRepeatable(d: Document) returns (collected: seq<PageElement>, again: seq<PageElement>)
    ensures |collected| >= 1 && collected[0] == Root
    ensures again == collected
  {
    collected := Collect(d);
    again := Collect(d);
  }
}
