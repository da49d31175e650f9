/**
 * The object-level engine driven the way bs4/tests/test_soupreplacer_m3.py
 * drives it: element objects built, one `SoupReplacer` applied to them.
 */
module DomTests {
  import opened Tree
  import opened Replacer
  import opened Dom

  /** A parsed one-element document `<name>text</name>`, as bs4 objects: the root and its element. */
  method ParseOneElement(name: string, text: string) returns (root: Tag, elem: Tag)
    ensures root.Valid() && fresh(root.Repr)
    ensures root.AbsChildren() == [Element(name, map[], [Text(text)])]
  {
    elem := new Tag(name, map[], [Leaf(Text(text))]);
    assert elem.AbsChildren() == [Text(text)];
    root := new Tag("[document]", map[], [Sub(elem)]);
    assert root.ChildAbs(0) == elem.Abs();
  }

  /**
   * One replacer `b -> blockquote` used for `<b>first</b>` and then for
   * `<b>second</b>`: each document comes out as if it had its own replacer,
   * with a `blockquote` reading "first" and one reading "second".
   */
  method ReplacerResetsBetweenParses() returns (first: seq<Node>, second: seq<Node>)
    ensures first == [Element("blockquote", map[], [Text("first")])]
    ensures second == [Element("blockquote", map[], [Text("second")])]
  {
    var replacer := new SoupReplacer(RenamePair("b", "blockquote"));
    var root1, b1 := ParseOneElement("b", "first");
    replacer.Apply(root1);
    first := root1.AbsChildren();
    assert TransformAll(replacer.strategy, [Text("first")]) == [Text("first")];
    var root2, b2 := ParseOneElement("b", "second");
    replacer.Apply(root2);
    second := root2.AbsChildren();
    assert TransformAll(replacer.strategy, [Text("second")]) == [Text("second")];
  }
}
