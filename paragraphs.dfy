/**
 * The rule of apps/m3/task7.py: every `p` gets the class "test". The
 * application hands `add_test_class` to a `SoupReplacer` as its attribute
 * rule; `_ensure_class_list` reads the old class value as a list first.
 */
module Paragraphs {
  import opened Wrappers
  import opened Text
  import opened Tree
  import opened Replacer

  /** The Python values `_ensure_class_list` distinguishes. */
  datatype PyValue =
    | PyNone
    | PyStr(s: string)
    | PyInt(i: int)
    | PyBool(b: bool)
    | PyList(items: seq<string>)
    | PyTuple(items: seq<string>)
  {
    predicate IsScalar() {
      PyStr? || PyInt? || PyBool?
    }
  }

  /** `str(value)` for the scalar values. */
  function StrOf(v: PyValue): (r: string)
    requires v.IsScalar()
    ensures v.PyStr? ==> r == v.s
    ensures v.PyInt? ==> |r| >= 1 && (r[0] == '-' <==> v.i < 0)
    ensures v.PyInt? ==> r == IntToDecimal(v.i)
    ensures v.PyBool? ==> r == (if v.b then "True" else "False")
  {
    match v
    case PyStr(s) => s
    case PyInt(i) => IntToDecimal(i)
    case PyBool(b) => if b then "True" else "False"
  }

  /** `_ensure_class_list`: None is no classes, a list or tuple is copied in order, anything else is one class. */
  function EnsureClassList(v: PyValue): (r: seq<string>)
    ensures v.PyNone? ==> r == []
    ensures v.PyList? || v.PyTuple? ==> r == v.items
    ensures v.IsScalar() ==> r == [StrOf(v)]
  {
    match v
    case PyNone => []
    case PyList(items) => items
    case PyTuple(items) => items
    case _ => [StrOf(v)]
  }

  /** `attrs.get("class")` as the Python value it is: absent, a string, or bs4's list of classes. */
  function ClassValue(attrs: Attrs): (v: PyValue)
    ensures "class" !in attrs ==> v.PyNone?
  {
    if "class" !in attrs then PyNone
    else match attrs["class"]
      case Single(c) => PyStr(c)
      case Multi(cs) => PyList(cs)
  }

  /** The classes a tag has before the rule runs. */
  function OldClasses(attrs: Attrs): (r: seq<string>)
    ensures "class" !in attrs ==> r == []
    ensures "class" in attrs && attrs["class"].Single? ==> r == [attrs["class"].token]
    ensures "class" in attrs && attrs["class"].Multi? ==> r == attrs["class"].tokens
  {
    EnsureClassList(ClassValue(attrs))
  }

  /**
   * `add_test_class`: nothing for a tag not named `p`; for a `p`, a copy of
   * its attributes whose `class` is the old class list with "test" appended
   * unless it is already there.
   */
  function AddTestClass(t: TagState): (r: Option<Attrs>)
    ensures r.None? <==> t.name != "p"
    ensures r.Some? ==>
      && r.value.Keys == t.attrs.Keys + {"class"}
      && (forall k :: k in t.attrs && k != "class" ==> r.value[k] == t.attrs[k])
      && r.value["class"].Multi?
      && var before, after := OldClasses(t.attrs), r.value["class"].tokens;
      && "test" in after
      && ("test" in before ==> after == before)
      && ("test" !in before ==> after == before + ["test"])
  {
    if t.name != "p" then None
    else
      var classes := OldClasses(t.attrs);
      var classes' := if "test" in classes then classes else classes + ["test"];
      Some(t.attrs["class" := Multi(classes')])
  }

  /** `soup_replacer_for_paragraphs()`: a replacer whose attribute rule is `add_test_class`. */
  function ParagraphReplacer(): Strategy {
    AttrsRule(AddTestClass)
  }

  /** The rule applied to its own result gives that result again. */
  lemma AddTestClassIdempotent(t: TagState)
    requires t.name == "p"
    ensures AddTestClass(TagState("p", AddTestClass(t).value)) == AddTestClass(t)
  {
    var m := AddTestClass(t).value;
    assert OldClasses(m) == m["class"].tokens;
    assert m["class" := m["class"]] == m;
  }

  /** At every element state the engine's visit with the rule is idempotent. */
  lemma ParagraphVisitIdempotent(t: TagState)
    ensures Visit(ParagraphReplacer(), Visit(ParagraphReplacer(), t)) == Visit(ParagraphReplacer(), t)
  {
    if t.name == "p" {
      AddTestClassIdempotent(t);
    }
  }

  /**
   * After the application's pass every `p` of the document, in document
   * order, carries the class "test" and keeps its other attributes; every
   * other element is exactly as it was.
   */
  lemma EveryParagraphGetsTestClass(ns: seq<Node>)
    ensures var before := TagStates(Descendants(ns));
            var after := TagStates(Descendants(TransformAll(ParagraphReplacer(), ns)));
            && |after| == |before|
            && forall k :: 0 <= k < |before| ==>
                 && after[k].name == before[k].name
                 && (before[k].name != "p" ==> after[k] == before[k])
                 && (before[k].name == "p" ==>
                       && "class" in after[k].attrs
                       && after[k].attrs["class"].Multi?
                       && "test" in after[k].attrs["class"].tokens
                       && forall key :: key in before[k].attrs && key != "class" ==>
                            key in after[k].attrs && after[k].attrs[key] == before[k].attrs[key])
  {
    ElementsAfterTransform(ParagraphReplacer(), ns);
  }

  /** Running the application on its own output changes nothing. */
  lemma ParagraphPassIdempotent(ns: seq<Node>)
    ensures TransformAll(ParagraphReplacer(), TransformAll(ParagraphReplacer(), ns))
         == TransformAll(ParagraphReplacer(), ns)
  {
    forall t ensures Visit(ParagraphReplacer(), Visit(ParagraphReplacer(), t)) == Visit(ParagraphReplacer(), t) {
      ParagraphVisitIdempotent(t);
    }
    TransformAllIdempotent(ParagraphReplacer(), ns);
  }

  /** A `p` with classes `["a", "test", "b"]` keeps exactly those; a `p` with class `"x"` gets `["x", "test"]`. */
  lemma AddTestClassExamples()
    ensures AddTestClass(TagState("p", map["class" := Multi(["a", "test", "b"])]))
         == Some(map["class" := Multi(["a", "test", "b"])])
    ensures AddTestClass(TagState("p", map["class" := Single("x"), "id" := Single("i")]))
         == Some(map["class" := Multi(["x", "test"]), "id" := Single("i")])
    ensures AddTestClass(TagState("div", map[])) == None
  {
    var tagged := map["class" := Multi(["a", "test", "b"])];
    assert OldClasses(tagged) == ["a", "test", "b"] && OldClasses(tagged)[1] == "test";
    assert tagged["class" := tagged["class"]] == tagged;
    var m := map["class" := Single("x"), "id" := Single("i")];
    assert OldClasses(m) == ["x"] && "test" !in ["x"];
    assert ["x"] + ["test"] == ["x", "test"];
    assert m["class" := Multi(["x", "test"])] == map["class" := Multi(["x", "test"]), "id" := Single("i")];
  }
}
