/**
 * The rules written in bs4/tests/test_soupreplacer_m3.py and
 * bs4/tests/test_soupreplacer.py, and what those tests assert, stated about
 * the documents the tests parse. Each document is given as the tree Python's
 * `html.parser` builds from the test's markup.
 */
module ReplacerTests {
  import opened Wrappers
  import opened Tree
  import opened Replacer

  const NoAttrs: Attrs := map[]

  /** The tests' name rule: `"blockquote" if tag.name == "b" else tag.name`. */
  function BToBlockquote(): TagState -> string {
    RenameRule("b", "blockquote")
  }

  /**
   * The test's `add_test_class`: for a `p`, copy the attributes and set
   * `class` to the old class list (a lone string counting as a one-element
   * list) followed by "test"; any other element gets its own mapping back.
   */
  function AppendTestClass(t: TagState): (r: Option<Attrs>)
    ensures r.Some?
    ensures t.name != "p" ==> r.value == t.attrs
    ensures t.name == "p" ==>
      && r.value.Keys == t.attrs.Keys + {"class"}
      && (forall k :: k in t.attrs && k != "class" ==> r.value[k] == t.attrs[k])
      && r.value["class"].Multi?
      && var cs := r.value["class"].tokens; |cs| >= 1 && cs[|cs| - 1] == "test"
    ensures t.name == "p" && "class" !in t.attrs ==> r.value["class"] == Multi(["test"])
    ensures t.name == "p" && "class" in t.attrs && t.attrs["class"].Single? ==>
      r.value["class"] == Multi([t.attrs["class"].token, "test"])
    ensures t.name == "p" && "class" in t.attrs && t.attrs["class"].Multi? ==>
      r.value["class"] == Multi(t.attrs["class"].tokens + ["test"])
  {
    if t.name == "p" then
      var classes :=
        if "class" in t.attrs then
          match t.attrs["class"]
          case Single(c) => [c]
          case Multi(cs) => cs
        else [];
      Some(t.attrs["class" := Multi(classes + ["test"])])
    else Some(t.attrs)
  }

  /** The test's `remove_class`: a copy without `class`, or the element's own mapping. */
  function RemoveClass(t: TagState): (r: Option<Attrs>)
    ensures r.Some? && "class" !in r.value
    ensures forall k :: k != "class" ==> (k in r.value <==> k in t.attrs)
    ensures forall k :: k in r.value ==> r.value[k] == t.attrs[k]
  {
    if "class" in t.attrs then Some(t.attrs - {"class"}) else Some(t.attrs)
  }

  /** The test's `add_marker`: `if tag.name == "div": tag["data-test"] = "1"`. */
  const AddMarker := Xformer(Some("div"), SetAttr("data-test", Single("1")))

  /** `remove_class_attr` at line 83: `if tag.name == "p" and "class" in tag.attrs: del tag.attrs["class"]`. */
  const RemoveClassAttrOfP := Xformer(Some("p"), DelAttr("class"))

  /** `remove_class_attr` at line 94: `if "class" in tag.attrs: del tag.attrs["class"]`. */
  const RemoveClassAttr := Xformer(None, DelAttr("class"))

  // test_soupreplacer_m3.py

  /** `<div><b>Hello</b></div>` with the pair `b -> blockquote`: no `b` left; the `blockquote` reads "Hello". */
  lemma PairRenameRemovesOriginalTags()
    ensures var out := TransformAll(RenamePair("b", "blockquote"),
                                    [Element("div", map[], [Element("b", map[], [Text("Hello")])])]);
            && Find(out, "b") == None
            && Find(out, "blockquote").Some?
            && GetText(Find(out, "blockquote").value) == "Hello"
  {
    var s := RenamePair("b", "blockquote");
    var hello := Text("Hello");
    var b' := Element("blockquote", map[], [hello]);
    var div' := Element("div", map[], [b']);
    assert TransformAll(s, [Element("div", map[], [Element("b", map[], [hello])])]) == [div'] by {
      assert TransformAll(s, [hello]) == [hello];
      assert TransformAll(s, [Element("b", map[], [hello])]) == [b'];
    }
    FindAllOne(hello, "b");
    FindAllOne(b', "b");
    FindAllOne(div', "b");
    FindAllOne(hello, "blockquote");
    FindAllOne(b', "blockquote");
    FindAllOne(div', "blockquote");
    LeafText(b', "Hello");
  }

  /**
   * `<div><b>one</b><span>two</span></div>` with the name rule: the outer
   * `div`'s element children are still `[blockquote, span]`, reading "one"
   * and "two".
   */
  lemma NameRulePreservesSiblingStructure()
    ensures var out := TransformAll(NameRule(BToBlockquote()),
              [Element("div", map[], [Element("b", map[], [Text("one")]), Element("span", map[], [Text("two")])])]);
            && Find(out, "div").Some?
            && var children := ElementChildren(Find(out, "div").value);
            && |children| == 2
            && children[0].name == "blockquote" && children[1].name == "span"
            && GetText(children[0]) == "one" && GetText(children[1]) == "two"
  {
    var s := NameRule(BToBlockquote());
    var one, two := [Text("one")], [Text("two")];
    var b, span := Element("b", map[], one), Element("span", map[], two);
    var b' := Element("blockquote", map[], one);
    var div' := Element("div", map[], [b', span]);
    assert TransformAll(s, [Element("div", map[], [b, span])]) == [div'] by {
      assert TransformAll(s, one) == one && TransformAll(s, two) == two;
      assert Transform(s, b) == b' && Transform(s, span) == span;
      assert TransformAll(s, [b, span]) == [b', span];
    }
    FindAllOne(div', "div");
    assert ElementChildren(div') == [b', span] by {
      assert [b', span][1..] == [span];
      assert [span][1..] == [];
      assert ElementsIn([span]) == [span];
    }
    LeafText(b', "one");
    LeafText(span, "two");
  }

  /**
   * `<div><b>Outer <b>Inner</b></b></div>` with the name rule: both `b`s
   * become `blockquote`s, and the first still contains the second.
   */
  lemma NestedTagsOutput()
    ensures TransformAll(NameRule(BToBlockquote()),
              [Element("div", map[], [Element("b", map[], [Text("Outer "), Element("b", map[], [Text("Inner")])])])])
         == [Element("div", map[], [Element("blockquote", map[], [Text("Outer "), Element("blockquote", map[], [Text("Inner")])])])]
  {
    var s := NameRule(BToBlockquote());
    var outer, inner := Text("Outer "), Text("Inner");
    var b2, b2' := Element("b", map[], [inner]), Element("blockquote", map[], [inner]);
    var b1 := Element("b", map[], [outer, b2]);
    var b1' := Element("blockquote", map[], [outer, b2']);
    assert TransformAll(s, [inner]) == [inner];
    assert Transform(s, b2) == b2';
    assert TransformAll(s, [outer, b2]) == [outer, b2'];
    assert Transform(s, b1) == b1';
    assert TransformAll(s, [b1]) == [b1'];
  }

  /** `find_all(q)` on `<top><q>outer<q>inner</q></q></top>`: both `q`s, the second found inside the first. */
  lemma NestedTagsQueries(top: string, q: string, outer: string, inner: string)
    requires top != q
    ensures var out := [Element(top, map[], [Element(q, map[], [Text(outer), Element(q, map[], [Text(inner)])])])];
            && var blocks := FindAll(out, q);
            && |blocks| == 2
            && Find(blocks[0].children, q) == Some(blocks[1])
  {
    var o, i := Text(outer), Text(inner);
    var b2 := Element(q, map[], [i]);
    var b1 := Element(q, map[], [o, b2]);
    var t := Element(top, map[], [b1]);
    assert FindAll([o, b2], q) == [b2] by {
      FindAllOne(i, q);
      FindAllOne(b2, q);
      FindAllOne(o, q);
      assert [o, b2] == [o] + [b2];
      FindAllAppend([o], [b2], q);
    }
    FindAllOne(b1, q);
    FindAllOne(t, q);
  }

  lemma NameRuleHandlesNestedTags()
    ensures var out := TransformAll(NameRule(BToBlockquote()),
              [Element("div", map[], [Element("b", map[], [Text("Outer "), Element("b", map[], [Text("Inner")])])])]);
            && var blocks := FindAll(out, "blockquote");
            && |blocks| == 2
            && Find(blocks[0].children, "blockquote") == Some(blocks[1])
  {
    NestedTagsOutput();
    NestedTagsQueries("div", "blockquote", "Outer ", "Inner");
  }

  /** `<p>hello</p>` with the attribute rule `add_test_class`: the `p` ends with `class == ["test"]`. */
  lemma AttrsRuleAddsClass()
    ensures var out := TransformAll(AttrsRule(AppendTestClass), [Element("p", map[], [Text("hello")])]);
            && Find(out, "p").Some?
            && GetAttr(Find(out, "p").value, "class") == Some(Multi(["test"]))
  {
    var s := AttrsRule(AppendTestClass);
    var hello := [Text("hello")];
    assert TransformAll(s, hello) == hello;
    var none: seq<string> := [];
    assert none + ["test"] == ["test"];
    assert NoAttrs["class" := Multi(["test"])] == map["class" := Multi(["test"])];
    assert AppendTestClass(TagState("p", NoAttrs)) == Some(map["class" := Multi(["test"])]);
    assert TransformAll(s, [Element("p", NoAttrs, hello)]) == [Element("p", map["class" := Multi(["test"])], hello)];
  }

  /** `<b class='x'>bold</b>` with the attribute rule `remove_class`: the `b` has no `class`. */
  lemma AttrsRuleRemovesAttr()
    ensures var out := TransformAll(AttrsRule(RemoveClass), [Element("b", map["class" := Multi(["x"])], [Text("bold")])]);
            && Find(out, "b").Some?
            && GetAttr(Find(out, "b").value, "class") == None
  {
    var s := AttrsRule(RemoveClass);
    var bold := [Text("bold")];
    assert TransformAll(s, bold) == bold;
    assert map["class" := Multi(["x"])] - {"class"} == map[];
    assert TransformAll(s, [Element("b", map["class" := Multi(["x"])], bold)]) == [Element("b", map[], bold)];
  }

  /** `<div><p>text</p></div>` with the mutator `add_marker`: the `div` ends with `data-test == "1"`. */
  lemma MutatorSideEffectIsVisible()
    ensures var out := TransformAll(Mutator(AddMarker), [Element("div", map[], [Element("p", map[], [Text("text")])])]);
            && Find(out, "div").Some?
            && GetAttr(Find(out, "div").value, "data-test") == Some(Single("1"))
  {
    var s := Mutator(AddMarker);
    var text := [Text("text")];
    assert TransformAll(s, text) == text;
    assert TransformAll(s, [Element("p", map[], text)]) == [Element("p", map[], text)];
    assert TransformAll(s, [Element("div", map[], [Element("p", map[], text)])])
        == [Element("div", map["data-test" := Single("1")], [Element("p", map[], text)])];
  }

  /** `<p class='x y'>t</p>` with the mutator deleting a `p`'s `class`: no `class` left, text still "t". */
  lemma MutatorRemovesAttrInPlace()
    ensures var out := TransformAll(Mutator(RemoveClassAttrOfP), [Element("p", map["class" := Multi(["x", "y"])], [Text("t")])]);
            && Find(out, "p").Some?
            && GetAttr(Find(out, "p").value, "class") == None
            && GetText(Find(out, "p").value) == "t"
  {
    var s := Mutator(RemoveClassAttrOfP);
    var t := [Text("t")];
    assert TransformAll(s, t) == t;
    assert map["class" := Multi(["x", "y"])] - {"class"} == map[];
    assert TransformAll(s, [Element("p", map["class" := Multi(["x", "y"])], t)]) == [Element("p", map[], t)];
  }

  /** `<p id='k'>t</p>` with the mutator deleting `class`: nothing to delete, so `class` stays absent and `id == "k"`. */
  lemma MutatorRemoveIsNoopWhenAbsent()
    ensures var out := TransformAll(Mutator(RemoveClassAttr), [Element("p", map["id" := Single("k")], [Text("t")])]);
            && Find(out, "p").Some?
            && GetAttr(Find(out, "p").value, "class") == None
            && GetAttr(Find(out, "p").value, "id") == Some(Single("k"))
  {
    var s := Mutator(RemoveClassAttr);
    var t := [Text("t")];
    assert TransformAll(s, t) == t;
    assert TransformAll(s, [Element("p", map["id" := Single("k")], t)]) == [Element("p", map["id" := Single("k")], t)];
  }

  // test_soupreplacer.py

  /** `<p>Hi <b>Mars</b>!</p>` with the pair `b -> blockquote`: no `b`; a `blockquote` reading "Mars". */
  lemma PairRenameInMixedContent()
    ensures var out := TransformAll(RenamePair("b", "blockquote"),
              [Element("p", map[], [Text("Hi "), Element("b", map[], [Text("Mars")]), Text("!")])]);
            && Find(out, "b") == None
            && Find(out, "blockquote").Some?
            && GetText(Find(out, "blockquote").value) == "Mars"
  {
    var s := RenamePair("b", "blockquote");
    var hi, mars, bang := Text("Hi "), Text("Mars"), Text("!");
    var b, b' := Element("b", map[], [mars]), Element("blockquote", map[], [mars]);
    var p' := Element("p", map[], [hi, b', bang]);
    assert TransformAll(s, [Element("p", map[], [hi, b, bang])]) == [p'] by {
      assert TransformAll(s, [mars]) == [mars];
      assert Transform(s, b) == b';
      assert TransformAll(s, [hi, b, bang]) == [hi, b', bang];
    }
    assert [hi, b', bang] == [hi] + ([b'] + [bang]);
    FindAllOne(mars, "b");
    FindAllOne(hi, "b");
    FindAllOne(b', "b");
    FindAllOne(bang, "b");
    FindAllAppend([b'], [bang], "b");
    FindAllAppend([hi], [b'] + [bang], "b");
    FindAllOne(p', "b");
    FindAllOne(mars, "blockquote");
    FindAllOne(hi, "blockquote");
    FindAllOne(b', "blockquote");
    FindAllOne(bang, "blockquote");
    FindAllAppend([b'], [bang], "blockquote");
    FindAllAppend([hi], [b'] + [bang], "blockquote");
    FindAllOne(p', "blockquote");
    LeafText(b', "Mars");
  }

  /**
   * `<div><p class='x'>A</p><p>B</p></div>` with the pair `p -> div`: no `p`
   * left; `div > div` selects exactly the two renamed siblings, in order,
   * the first still with `class == ["x"]` and text "A", the second "B".
   */
  lemma KeepsAttrsOutput()
    ensures TransformAll(RenamePair("p", "div"),
              [Element("div", map[], [Element("p", map["class" := Multi(["x"])], [Text("A")]),
                                      Element("p", map[], [Text("B")])])])
         == [Element("div", map[], [Element("div", map["class" := Multi(["x"])], [Text("A")]),
                                    Element("div", map[], [Text("B")])])]
  {
    var s := RenamePair("p", "div");
    var a, b := Text("A"), Text("B");
    var p1, p2 := Element("p", map["class" := Multi(["x"])], [a]), Element("p", map[], [b]);
    var d1, d2 := Element("div", map["class" := Multi(["x"])], [a]), Element("div", map[], [b]);
    assert TransformAll(s, [a]) == [a] && TransformAll(s, [b]) == [b];
    assert Transform(s, p1) == d1 && Transform(s, p2) == d2;
    assert TransformAll(s, [p1, p2]) == [d1, d2];
  }

  /**
   * `<dv><dv class=cls>ta</dv><dv>tb</dv></dv>`: no element named `pn`, and
   * `dv > dv` selects the two inner elements in order, with their class and text.
   */
  lemma KeepsAttrsQueries(dv: string, pn: string, cls: AttrValue, ta: string, tb: string)
    requires dv != pn
    ensures var out := [Element(dv, map[], [Element(dv, map["class" := cls], [Text(ta)]), Element(dv, map[], [Text(tb)])])];
            && Find(out, pn) == None
            && var inner := SelectChildren(Document(out), dv, dv);
            && inner == [Element(dv, map["class" := cls], [Text(ta)]), Element(dv, map[], [Text(tb)])]
            && GetAttr(inner[0], "class") == Some(cls)
            && GetText(inner[0]) == ta && GetText(inner[1]) == tb
  {
    var a, b := Text(ta), Text(tb);
    var d1, d2 := Element(dv, map["class" := cls], [a]), Element(dv, map[], [b]);
    var top := Element(dv, map[], [d1, d2]);
    assert FindAll([top], pn) == [] by {
      FindAllOne(a, pn);
      FindAllOne(b, pn);
      FindAllOne(d1, pn);
      FindAllOne(d2, pn);
      assert [d1, d2] == [d1] + [d2];
      FindAllAppend([d1], [d2], pn);
      FindAllOne(top, pn);
    }
    assert SelectUnder([top], false, dv, dv) == [d1, d2] by {
      assert SelectUnder([a], false, dv, dv) == [];
      assert SelectUnder([b], false, dv, dv) == [];
      assert SelectUnder([d2], true, dv, dv) == [d2];
      assert [d1, d2][1..] == [d2];
      assert SelectUnder([d1, d2], true, dv, dv) == [d1] + [d2];
    }
    LeafText(d1, ta);
    LeafText(d2, tb);
  }

  lemma PairRenameKeepsAttrsAndText()
    ensures var out := TransformAll(RenamePair("p", "div"),
              [Element("div", map[], [Element("p", map["class" := Multi(["x"])], [Text("A")]),
                                      Element("p", map[], [Text("B")])])]);
            && Find(out, "p") == None
            && var inner := SelectChildren(Document(out), "div", "div");
            && |inner| == 2
            && GetAttr(inner[0], "class") == Some(Multi(["x"]))
            && GetText(inner[0]) == "A" && GetText(inner[1]) == "B"
  {
    KeepsAttrsOutput();
    KeepsAttrsQueries("div", "p", Multi(["x"]), "A", "B");
  }
}
