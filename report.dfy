/**
 * The per-node report of apps/m4/task_iteration.py: `format_node` writes
 * one line per iterated object, the loop of `analyze_document` counts the
 * objects by kind and the tags by name, and the summary lists the non-zero
 * kinds by name and the tag names by descending count.
 */
module Report {
  import opened Wrappers
  import opened Text
  import opened Tree
  import opened Elements
  import opened Iteration

  // ---------------------------------------------------------------------
  // format_node
  // ---------------------------------------------------------------------

  /** `f"{v}"` for an attribute value: a string as it is, a list of classes as Python prints a list. */
  function ValueStr(v: AttrValue): (r: string)
    ensures v.Single? ==> r == v.token
    ensures v.Multi? ==> |r| >= 2 && r[0] == '[' && r[|r| - 1] == ']'
    ensures v.Multi? ==> r[1..|r| - 1] == Join(", ", Reprs(v.tokens))
  {
    match v
    case Single(t) => t
    case Multi(ts) => ListStr(ts)
  }

  /** The first `n` entries of an increasing list come before every other entry. */
  lemma SortedPrefixIsSmallest(ks: seq<string>, n: nat)
    requires n <= |ks|
    requires forall i, j :: 0 <= i < j < |ks| ==> StrLt(ks[i], ks[j])
    ensures forall k :: k in ks && k !in ks[..n] ==> forall i :: 0 <= i < n ==> StrLt(ks[i], k)
  {
    assert forall i :: 0 <= i < n ==> ks[..n][i] == ks[i];
    forall k | k in ks && k !in ks[..n]
      ensures forall i :: 0 <= i < n ==> StrLt(ks[i], k)
    {
      var j :| 0 <= j < |ks| && ks[j] == k;
      assert n <= j;
    }
  }

  /** The keys `sorted(node.attrs.items())[:3]` shows. */
  function ShownKeys(attrs: Attrs): (r: seq<string>)
    ensures |r| == if |attrs| < 3 then |attrs| else 3
    ensures forall i :: 0 <= i < |r| ==> r[i] in attrs
    ensures forall i, j :: 0 <= i < j < |r| ==> StrLt(r[i], r[j])
    ensures forall k :: k in attrs && k !in r ==> forall i :: 0 <= i < |r| ==> StrLt(r[i], k)
  {
    var ks := SortedKeys(attrs.Keys);
    var n := if |ks| < 3 then |ks| else 3;
    SortedPrefixIsSmallest(ks, n);
    ks[..n]
  }

  /** `k="v"` for one attribute. */
  function Pair(attrs: Attrs, k: string): string
    requires k in attrs
  {
    k + "=\"" + ValueStr(attrs[k]) + "\""
  }

  /** The `k="v"` pairs `format_node` shows, smallest keys first. */
  function ShownPairs(attrs: Attrs): (r: seq<string>)
    ensures |r| == |ShownKeys(attrs)|
    ensures forall i :: 0 <= i < |r| ==>
      r[i] == ShownKeys(attrs)[i] + "=\"" + ValueStr(attrs[ShownKeys(attrs)[i]]) + "\""
    ensures forall i :: 0 <= i < |r| ==> |r[i]| > 0 && r[i][|r[i]| - 1] == '"'
  {
    var shown := ShownKeys(attrs);
    seq(|shown|, i requires 0 <= i < |shown| => Pair(attrs, shown[i]))
  }

  /**
   * `attrs_str`: empty exactly when there are no attributes; otherwise a
   * space, the shown pairs joined by spaces, and "..." exactly when there
   * are more than three attributes.
   */
  function AttrSummary(attrs: Attrs): (r: string)
    ensures r == "" <==> |attrs| == 0
    ensures |attrs| > 0 ==> r[0] == ' '
    ensures |attrs| > 3 ==> |r| >= 4 && r[|r| - 3..] == "..."
    ensures 0 < |attrs| <= 3 ==> r[|r| - 1] == '"'
    ensures |attrs| > 0 ==> r == " " + Join(" ", ShownPairs(attrs)) + (if |attrs| > 3 then "..." else "")
  {
    if |attrs| == 0 then ""
    else
      var pairs := ShownPairs(attrs);
      SummaryShape(pairs, |attrs| > 3);
      " " + Join(" ", pairs) + (if |attrs| > 3 then "..." else "")
  }

  /** How a non-empty summary starts and ends. */
  lemma SummaryShape(pairs: seq<string>, more: bool)
    requires |pairs| > 0 && |pairs[|pairs| - 1]| > 0 && pairs[|pairs| - 1][|pairs[|pairs| - 1]| - 1] == '"'
    ensures var r := " " + Join(" ", pairs) + (if more then "..." else "");
            && |r| >= 2 && r[0] == ' '
            && (more ==> r[|r| - 3..] == "...")
            && (!more ==> r[|r| - 1] == '"')
  {
    var j := Join(" ", pairs);
    JoinEndsWithLast(" ", pairs);
    var last := pairs[|pairs| - 1];
    assert j[|j| - 1] == last[|last| - 1] by {
      assert j[|j| - |last|..][|last| - 1] == j[|j| - 1];
    }
    var r := " " + j + (if more then "..." else "");
    assert r[0] == ' ';
    if more {
      assert r[|r| - 3..] == "..." by { assert r == (" " + j) + "..."; }
    } else {
      assert r == " " + j;
      assert r[|r| - 1] == j[|j| - 1];
    }
  }

  /** The start every line has: `f"{index}: [{type(node).__name__}] "`. */
  function LinePrefix(e: PageElement, index: int): string {
    IntToDecimal(index) + ": [" + TypeName(ClassOf(e)) + "] "
  }

  /**
   * What `format_node` writes after the prefix. The branches are tried in
   * the source's order: the root before `Tag` (it is one), `Comment` before
   * `NavigableString` (it is one).
   */
  function Describe(e: PageElement): string {
    InstanceTable(e);
    if IsInstance(e, BeautifulSoupClass) then
      "BeautifulSoup object (root)"
    else if IsInstance(e, TagClass) then
      "<" + e.node.name + AttrSummary(e.node.attrs) + ">"
    else if IsInstance(e, CommentClass) then
      "<!-- " + Truncate(Strip(e.node.content), 50) + "... -->"
    else
      "\"" + Truncate(EscapeNewlines(Strip(e.node.content)), 50) + "\""
  }

  /** `format_node(node, index)`: the prefix naming the index and the object's type, then its description. */
  function FormatNode(e: PageElement, index: int): (r: string)
    ensures |r| > |LinePrefix(e, index)| && r[..|LinePrefix(e, index)|] == LinePrefix(e, index)
  {
    LinePrefix(e, index) + Describe(e)
  }

  /** A line, once the object's type name and description are known. */
  lemma FormatLine(e: PageElement, index: int, tail: string, desc: string)
    requires tail == ": [" + TypeName(ClassOf(e)) + "] " && Describe(e) == desc
    ensures FormatNode(e, index) == IntToDecimal(index) + tail + desc
  {
    var name := TypeName(ClassOf(e));
    ConcatAssoc(IntToDecimal(index), ": [", name);
    ConcatAssoc(IntToDecimal(index), ": [" + name, "] ");
    ConcatAssoc(": [", name, "] ");
  }

  /** The bracketed type name of each kind of iterated object. */
  lemma TypeLabel(e: PageElement)
    ensures e.Root? ==> ": [" + TypeName(ClassOf(e)) + "] " == ": [BeautifulSoup] "
    ensures e.Inner? && e.node.Element? ==> ": [" + TypeName(ClassOf(e)) + "] " == ": [Tag] "
    ensures e.Inner? && e.node.Comment? ==> ": [" + TypeName(ClassOf(e)) + "] " == ": [Comment] "
    ensures e.Inner? && e.node.Text? ==> ": [" + TypeName(ClassOf(e)) + "] " == ": [NavigableString] "
  {
  }

  /** What each kind of object is described as. */
  lemma DescribeTable(e: PageElement)
    ensures e.Root? ==> Describe(e) == "BeautifulSoup object (root)"
    ensures e.Inner? && e.node.Element? ==> Describe(e) == "<" + e.node.name + AttrSummary(e.node.attrs) + ">"
    ensures e.Inner? && e.node.Comment? ==> Describe(e) == "<!-- " + Truncate(Strip(e.node.content), 50) + "... -->"
    ensures e.Inner? && e.node.Text? ==> Describe(e) == "\"" + Truncate(EscapeNewlines(Strip(e.node.content)), 50) + "\""
  {
    InstanceTable(e);
  }

  /** The root's line. */
  lemma FormatRoot(index: int)
    ensures FormatNode(Root, index) == IntToDecimal(index) + ": [BeautifulSoup] " + "BeautifulSoup object (root)"
  {
    DescribeTable(Root);
    TypeLabel(Root);
    FormatLine(Root, index, ": [BeautifulSoup] ", "BeautifulSoup object (root)");
  }

  /** A tag's line: `<name>` directly when it has no attributes, otherwise with the attribute summary. */
  lemma FormatTag(name: string, attrs: Attrs, children: seq<Node>, index: int)
    ensures FormatNode(Inner(Element(name, attrs, children)), index)
         == IntToDecimal(index) + ": [Tag] " + ("<" + name + AttrSummary(attrs) + ">")
    ensures |attrs| == 0 ==>
      FormatNode(Inner(Element(name, attrs, children)), index) == IntToDecimal(index) + ": [Tag] " + ("<" + name + ">")
  {
    var e := Inner(Element(name, attrs, children));
    var desc := "<" + name + AttrSummary(attrs) + ">";
    DescribeTable(e);
    TypeLabel(e);
    FormatLine(e, index, ": [Tag] ", desc);
  }

  /**
   * A comment's line shows at most the first 50 characters of its stripped
   * text, and always ends with "... -->", even when nothing was cut.
   */
  lemma FormatComment(content: string, index: int)
    ensures var shown := Truncate(Strip(content), 50);
            && |shown| <= 50
            && shown == Strip(content)[..|shown|]
            && FormatNode(Inner(Comment(content)), index)
               == IntToDecimal(index) + ": [Comment] " + ("<!-- " + shown + "... -->")
  {
    var e := Inner(Comment(content));
    var desc := "<!-- " + Truncate(Strip(content), 50) + "... -->";
    DescribeTable(e);
    TypeLabel(e);
    FormatLine(e, index, ": [Comment] ", desc);
  }

  /**
   * A string's line shows, in double quotes, at most the first 50
   * characters of its stripped text with newlines escaped first; no raw
   * newline is left in the line's text.
   */
  lemma FormatString(content: string, index: int)
    ensures var shown := Truncate(EscapeNewlines(Strip(content)), 50);
            && |shown| <= 50
            && '\n' !in shown
            && shown == EscapeNewlines(Strip(content))[..|shown|]
            && FormatNode(Inner(Text(content)), index)
               == IntToDecimal(index) + ": [NavigableString] " + ("\"" + shown + "\"")
  {
    var e := Inner(Text(content));
    var full := EscapeNewlines(Strip(content));
    NoNewlineInPrefix(full, |Truncate(full, 50)|);
    var desc := "\"" + Truncate(full, 50) + "\"";
    DescribeTable(e);
    TypeLabel(e);
    FormatLine(e, index, ": [NavigableString] ", desc);
  }

  lemma NoNewlineInPrefix(s: string, n: nat)
    requires '\n' !in s && n <= |s|
    ensures '\n' !in s[..n]
  {
    assert forall i :: 0 <= i < n ==> s[..n][i] == s[i];
  }

  // ---------------------------------------------------------------------
  // The counting loop
  // ---------------------------------------------------------------------

  /** The `node_counts` keys. */
  datatype Kind = BeautifulSoupKind | TagKind | NavigableStringKind | CommentKind | OtherKind

  /** The key each counter has in `node_counts`. */
  function KindName(k: Kind): string {
    match k
    case BeautifulSoupKind => "BeautifulSoup"
    case TagKind => "Tag"
    case NavigableStringKind => "NavigableString"
    case CommentKind => "Comment"
    case OtherKind => "Other"
  }

  /** The counter the loop bumps for `e`: the first `isinstance` branch that holds, in the source's order. */
  function Classify(e: PageElement): Kind {
    if IsInstance(e, BeautifulSoupClass) then BeautifulSoupKind
    else if IsInstance(e, TagClass) then TagKind
    else if IsInstance(e, NavigableStringClass) then NavigableStringKind
    else if IsInstance(e, CommentClass) then CommentKind
    else OtherKind
  }

  /**
   * Which counter each object lands in: the root in "BeautifulSoup",
   * elements in "Tag", text and comments alike in "NavigableString"; the
   * "Comment" and "Other" branches are never reached.
   */
  lemma ClassifyTable(e: PageElement)
    ensures Classify(e) == BeautifulSoupKind <==> e.Root?
    ensures Classify(e) == TagKind <==> e.Inner? && e.node.Element?
    ensures Classify(e) == NavigableStringKind <==> e.Inner? && !e.node.Element?
    ensures Classify(e) != CommentKind && Classify(e) != OtherKind
  {
    InstanceTable(e);
  }

  /** How many of `items` land in counter `k`. */
  function KindCount(items: seq<PageElement>, k: Kind): nat
    decreases |items|
  {
    if items == [] then 0
    else KindCount(items[..|items| - 1], k) + (if Classify(items[|items| - 1]) == k then 1 else 0)
  }

  /** Whether `e` is counted under `tag_names[name]`. */
  predicate IsTagNamed(e: PageElement, name: string) {
    Classify(e) == TagKind && e.Inner? && e.node.Element? && e.node.name == name
  }

  /** How many of `items` are counted under tag name `name`. */
  function NameCount(items: seq<PageElement>, name: string): nat
    decreases |items|
  {
    if items == [] then 0
    else NameCount(items[..|items| - 1], name) + (if IsTagNamed(items[|items| - 1], name) then 1 else 0)
  }

  /** The tag names of `items` in the order they are first met: the key order of `tag_names`. */
  function FirstSeen(items: seq<PageElement>): (r: seq<string>)
    ensures forall i, j :: 0 <= i < j < |r| ==> r[i] != r[j]
    decreases |items|
  {
    if items == [] then []
    else
      var prior := FirstSeen(items[..|items| - 1]);
      var e := items[|items| - 1];
      if Classify(e) == TagKind && e.Inner? && e.node.name !in prior then prior + [e.node.name] else prior
  }

  /** One entry of `tag_names`. */
  datatype Tally = Tally(name: string, count: nat)

  function Names(ts: seq<Tally>): (r: seq<string>)
    ensures |r| == |ts| && forall i :: 0 <= i < |ts| ==> r[i] == ts[i].name
  {
    seq(|ts|, i requires 0 <= i < |ts| => ts[i].name)
  }

  /** No name has two entries, as in a dictionary. */
  predicate Keyed(ts: seq<Tally>) {
    forall i, j :: 0 <= i < j < |ts| ==> ts[i].name != ts[j].name
  }

  /** The sum of the counts. */
  function Total(ts: seq<Tally>): nat {
    if ts == [] then 0 else ts[0].count + Total(ts[1..])
  }

  lemma {:induction false} TotalAppend(ts: seq<Tally>, t: Tally)
    ensures Total(ts + [t]) == Total(ts) + t.count
  {
    if ts != [] {
      assert (ts + [t])[1..] == ts[1..] + [t];
      TotalAppend(ts[1..], t);
    }
  }

  lemma {:induction false} TotalUpdate(ts: seq<Tally>, i: nat, t: Tally)
    requires i < |ts|
    ensures Total(ts[i := t]) + ts[i].count == Total(ts) + t.count
  {
    if i > 0 {
      assert ts[i := t][1..] == ts[1..][i - 1 := t];
      TotalUpdate(ts[1..], i - 1, t);
    }
  }

  /** Where `name`'s entry is, or `|ts|` when it has none. */
  function Position(ts: seq<Tally>, name: string): (i: nat)
    ensures i <= |ts|
    ensures i < |ts| ==> ts[i].name == name
    ensures forall j :: 0 <= j < i ==> ts[j].name != name
  {
    if ts == [] then 0
    else if ts[0].name == name then 0
    else 1 + Position(ts[1..], name)
  }

  /**
   * `tag_names[name] = tag_names.get(name, 0) + 1` on an insertion-ordered
   * dictionary: the entry of `name` goes up by one, and a name without one
   * gets a new entry, with count 1, at the end.
   */
  function Bump(ts: seq<Tally>, name: string): (r: seq<Tally>)
    requires Keyed(ts)
    ensures Keyed(r)
    ensures Names(r) == Names(ts) + (if name in Names(ts) then [] else [name])
    ensures forall i :: 0 <= i < |ts| ==> r[i].count == ts[i].count + (if ts[i].name == name then 1 else 0)
    ensures name !in Names(ts) ==> r[|ts|].count == 1
    ensures Total(r) == Total(ts) + 1
  {
    var i := Position(ts, name);
    if i == |ts| then
      TotalAppend(ts, Tally(name, 1));
      assert Names(ts + [Tally(name, 1)]) == Names(ts) + [name];
      ts + [Tally(name, 1)]
    else
      TotalUpdate(ts, i, Tally(name, ts[i].count + 1));
      assert name in Names(ts) by { assert Names(ts)[i] == name; }
      assert Names(ts[i := Tally(name, ts[i].count + 1)]) == Names(ts);
      ts[i := Tally(name, ts[i].count + 1)]
  }

  const InitialCounts: map<Kind, nat> :=
    map[BeautifulSoupKind := 0, TagKind := 0, NavigableStringKind := 0, CommentKind := 0, OtherKind := 0]

  /** `sum(node_counts.values())`. */
  function SumCounts(counts: map<Kind, nat>): nat
    requires forall k: Kind :: k in counts
  {
    counts[BeautifulSoupKind] + counts[TagKind] + counts[NavigableStringKind] + counts[CommentKind] + counts[OtherKind]
  }

  lemma KindCountSnoc(items: seq<PageElement>, i: nat, k: Kind)
    requires i < |items|
    ensures KindCount(items[..i + 1], k) == KindCount(items[..i], k) + (if Classify(items[i]) == k then 1 else 0)
  {
    assert items[..i + 1][..i] == items[..i];
  }

  lemma NameCountSnoc(items: seq<PageElement>, i: nat, name: string)
    requires i < |items|
    ensures NameCount(items[..i + 1], name) == NameCount(items[..i], name) + (if IsTagNamed(items[i], name) then 1 else 0)
  {
    assert items[..i + 1][..i] == items[..i];
  }

  lemma FirstSeenSnoc(items: seq<PageElement>, i: nat)
    requires i < |items|
    ensures var e := items[i];
            FirstSeen(items[..i + 1]) == FirstSeen(items[..i])
              + (if Classify(e) == TagKind && e.Inner? && e.node.name !in FirstSeen(items[..i]) then [e.node.name] else [])
  {
    assert items[..i + 1][..i] == items[..i];
  }

  /** A name not yet met has count zero. */
  lemma {:induction false} UnseenNameCountsZero(items: seq<PageElement>, name: string)
    requires name !in FirstSeen(items)
    ensures NameCount(items, name) == 0
    decreases |items|
  {
    if items != [] {
      var prior := items[..|items| - 1];
      var e := items[|items| - 1];
      assert name !in FirstSeen(prior);
      UnseenNameCountsZero(prior, name);
      InstanceTable(e);
      assert IsTagNamed(e, name) ==> name in FirstSeen(items);
    }
  }

  /** `tag_names` has a key exactly for the names of the tags among `items`. */
  lemma {:induction false} FirstSeenMembers(items: seq<PageElement>)
    ensures forall n :: n in FirstSeen(items) <==> exists i :: 0 <= i < |items| && IsTagNamed(items[i], n)
    decreases |items|
  {
    if items != [] {
      var prior := items[..|items| - 1];
      var e := items[|items| - 1];
      FirstSeenMembers(prior);
      InstanceTable(e);
      forall n
        ensures n in FirstSeen(items) <==> exists i :: 0 <= i < |items| && IsTagNamed(items[i], n)
      {
        if n in FirstSeen(prior) {
          var i :| 0 <= i < |prior| && IsTagNamed(prior[i], n);
          assert items[i] == prior[i];
        } else if n in FirstSeen(items) {
          assert IsTagNamed(items[|items| - 1], n);
        }
        if exists i :: 0 <= i < |items| && IsTagNamed(items[i], n) {
          var i :| 0 <= i < |items| && IsTagNamed(items[i], n);
          if i < |prior| {
            assert prior[i] == items[i];
          }
        }
      }
    }
  }

  /** Some tag named `a` comes before every tag named `b` in `items`. */
  predicate MetBefore(items: seq<PageElement>, a: string, b: string) {
    exists p :: 0 <= p < |items| && IsTagNamed(items[p], a)
      && forall q :: 0 <= q <= p ==> !IsTagNamed(items[q], b)
  }

  /** What was met first in a prefix was met first in the whole sequence. */
  lemma MetBeforeExtends(items: seq<PageElement>, n: nat, a: string, b: string)
    requires n <= |items| && MetBefore(items[..n], a, b)
    ensures MetBefore(items, a, b)
  {
    var prior := items[..n];
    var p :| 0 <= p < |prior| && IsTagNamed(prior[p], a)
             && forall q :: 0 <= q <= p ==> !IsTagNamed(prior[q], b);
    assert forall q :: 0 <= q <= p ==> items[q] == prior[q];
  }

  /** `tag_names` keeps its keys in the order their tags were first met. */
  lemma {:induction false} FirstSeenOrder(items: seq<PageElement>)
    ensures forall i, j :: 0 <= i < j < |FirstSeen(items)| ==>
              MetBefore(items, FirstSeen(items)[i], FirstSeen(items)[j])
    decreases |items|
  {
    if items != [] {
      var n := |items| - 1;
      var prior := items[..n];
      var r, rp := FirstSeen(items), FirstSeen(prior);
      FirstSeenOrder(prior);
      FirstSeenMembers(prior);
      assert |rp| <= |r| && forall k :: 0 <= k < |rp| ==> r[k] == rp[k];
      forall i, j | 0 <= i < j < |r|
        ensures MetBefore(items, r[i], r[j])
      {
        if j < |rp| {
          assert MetBefore(prior, rp[i], rp[j]);
          MetBeforeExtends(items, n, r[i], r[j]);
        } else {
          assert r[j] !in rp;
          assert rp[i] in rp;
          var p :| 0 <= p < |prior| && IsTagNamed(prior[p], rp[i]);
          forall q | 0 <= q <= p
            ensures !IsTagNamed(items[q], r[j])
          {
            assert items[q] == prior[q];
          }
          assert items[p] == prior[p];
        }
      }
    }
  }

  /** The lines written for `items`, numbered from 1. */
  function Lines(items: seq<PageElement>): (r: seq<string>)
    ensures |r| == |items|
    decreases |items|
  {
    if items == [] then [] else Lines(items[..|items| - 1]) + [FormatNode(items[|items| - 1], |items|)]
  }

  /** Line `j` is the formatted `j`-th object, numbered `j + 1`. */
  lemma {:induction false} LinesAt(items: seq<PageElement>, j: nat)
    requires j < |items|
    ensures Lines(items)[j] == FormatNode(items[j], j + 1)
    decreases |items|
  {
    var front := items[..|items| - 1];
    assert Lines(items) == Lines(front) + [FormatNode(items[|items| - 1], |items|)];
    if j < |items| - 1 {
      assert front[j] == items[j];
      LinesAt(front, j);
    }
  }

  lemma LinesSnoc(items: seq<PageElement>, i: nat)
    requires i < |items|
    ensures Lines(items[..i + 1]) == Lines(items[..i]) + [FormatNode(items[i], i + 1)]
  {
    assert items[..i + 1][..i] == items[..i];
  }

  /** The counters and name entries are those of `done`, the objects met so far. */
  predicate Counted(done: seq<PageElement>, counts: map<Kind, nat>, tagNames: seq<Tally>) {
    && (forall k: Kind :: k in counts && counts[k] == KindCount(done, k))
    && Keyed(tagNames)
    && Names(tagNames) == FirstSeen(done)
    && (forall j :: 0 <= j < |tagNames| ==> tagNames[j].count == NameCount(done, tagNames[j].name))
    && Total(tagNames) == counts[TagKind]
  }

  /** Before the loop: all counters zero, no name entries. */
  lemma CountedNothing()
    ensures Counted([], InitialCounts, [])
  {
    forall k: Kind
      ensures k in InitialCounts && InitialCounts[k] == KindCount([], k)
    {
      match k
      case BeautifulSoupKind =>
      case TagKind =>
      case NavigableStringKind =>
      case CommentKind =>
      case OtherKind =>
    }
  }

  /** One step of the loop keeps the counters right. */
  lemma KindsStep(items: seq<PageElement>, i: nat, counts: map<Kind, nat>, counts': map<Kind, nat>)
    requires i < |items|
    requires forall k: Kind :: k in counts && counts[k] == KindCount(items[..i], k)
    requires counts' == counts[Classify(items[i]) := counts[Classify(items[i])] + 1]
    ensures forall k: Kind :: k in counts' && counts'[k] == KindCount(items[..i + 1], k)
  {
    forall k: Kind
      ensures k in counts' && counts'[k] == KindCount(items[..i + 1], k)
    {
      KindCountSnoc(items, i, k);
    }
  }

  /** One step of the loop keeps the name entries right. */
  lemma NamesStep(items: seq<PageElement>, i: nat, tagNames: seq<Tally>, tagNames': seq<Tally>)
    requires i < |items|
    requires Keyed(tagNames) && Names(tagNames) == FirstSeen(items[..i])
    requires forall j :: 0 <= j < |tagNames| ==> tagNames[j].count == NameCount(items[..i], tagNames[j].name)
    requires Classify(items[i]) == TagKind ==> items[i].Inner? && tagNames' == Bump(tagNames, items[i].node.name)
    requires Classify(items[i]) != TagKind ==> tagNames' == tagNames
    ensures Keyed(tagNames') && Names(tagNames') == FirstSeen(items[..i + 1])
    ensures forall j :: 0 <= j < |tagNames'| ==> tagNames'[j].count == NameCount(items[..i + 1], tagNames'[j].name)
  {
    InstanceTable(items[i]);
    FirstSeenSnoc(items, i);
    forall j | 0 <= j < |tagNames'|
      ensures tagNames'[j].count == NameCount(items[..i + 1], tagNames'[j].name)
    {
      NameCountSnoc(items, i, tagNames'[j].name);
      if j >= |tagNames| {
        UnseenNameCountsZero(items[..i], tagNames'[j].name);
      }
    }
  }

  /** One step of the loop keeps `Counted`. */
  lemma CountedStep(items: seq<PageElement>, i: nat, counts: map<Kind, nat>, tagNames: seq<Tally>,
                    counts': map<Kind, nat>, tagNames': seq<Tally>)
    requires i < |items| && Counted(items[..i], counts, tagNames)
    requires counts' == counts[Classify(items[i]) := counts[Classify(items[i])] + 1]
    requires Classify(items[i]) == TagKind ==> items[i].Inner? && tagNames' == Bump(tagNames, items[i].node.name)
    requires Classify(items[i]) != TagKind ==> tagNames' == tagNames
    ensures Counted(items[..i + 1], counts', tagNames')
  {
    KindsStep(items, i, counts, counts');
    NamesStep(items, i, tagNames, tagNames');
  }

  /**
   * The counting half of the loop body for `items[i]`: the first
   * `isinstance` branch that holds bumps its counter, and a tag also bumps
   * its name's entry.
   */
  method CountOne(items: seq<PageElement>, i: nat, counts: map<Kind, nat>, tagNames: seq<Tally>)
    returns (counts': map<Kind, nat>, tagNames': seq<Tally>)
    requires i < |items| && Counted(items[..i], counts, tagNames)
    ensures Counted(items[..i + 1], counts', tagNames')
  {
    var node := items[i];
    InstanceTable(node);
    tagNames' := tagNames;
    if IsInstance(node, BeautifulSoupClass) {
      counts' := counts[BeautifulSoupKind := counts[BeautifulSoupKind] + 1];
    } else if IsInstance(node, TagClass) {
      counts' := counts[TagKind := counts[TagKind] + 1];
      tagNames' := Bump(tagNames, node.node.name);
    } else if IsInstance(node, NavigableStringClass) {
      counts' := counts[NavigableStringKind := counts[NavigableStringKind] + 1];
    } else if IsInstance(node, CommentClass) {
      // `node_counts["Comment"] += 1`: never reached, every comment is a
      // NavigableString and was counted by the branch above.
      assert false;
    } else {
      // `node_counts["Other"] += 1`: never reached, every iterated object
      // is the root, an element, a string or a comment.
      assert false;
    }
    CountedStep(items, i, counts, tagNames, counts', tagNames');
  }

  /** The counters as the functions above define them. */
  function KindCountsOf(items: seq<PageElement>): (r: map<Kind, nat>)
    ensures forall k: Kind :: k in r && r[k] == KindCount(items, k)
  {
    NameOrderIsSorted();
    map k: Kind | k in NameOrder :: KindCount(items, k)
  }

  /** `tag_names` as the functions above define it: the names in first-seen order, each with its count. */
  function TagTallies(items: seq<PageElement>): (r: seq<Tally>)
    ensures Names(r) == FirstSeen(items)
    ensures forall j :: 0 <= j < |r| ==> r[j].count == NameCount(items, r[j].name)
  {
    var names := FirstSeen(items);
    seq(|names|, j requires 0 <= j < |names| => Tally(names[j], NameCount(items, names[j])))
  }

  /** What `Counted` says about all the objects, in terms of the functions above. */
  lemma CountedMeans(items: seq<PageElement>, counts: map<Kind, nat>, tagNames: seq<Tally>)
    requires Counted(items, counts, tagNames)
    ensures counts == KindCountsOf(items)
    ensures tagNames == TagTallies(items)
    ensures Total(tagNames) == counts[TagKind]
  {
    assert |tagNames| == |TagTallies(items)|;
    assert forall j :: 0 <= j < |tagNames| ==> tagNames[j] == TagTallies(items)[j];
  }

  /**
   * The loop of `analyze_document`: for each object, with its 1-based
   * index, write its line and bump its counter, and for a tag also its
   * name's entry. The results are the independent counts of the functions
   * above, and the name entries add up to the "Tag" counter.
   */
  method CountNodes(items: seq<PageElement>) returns (lines: seq<string>, counts: map<Kind, nat>, tagNames: seq<Tally>)
    ensures lines == Lines(items)
    ensures counts == KindCountsOf(items)
    ensures tagNames == TagTallies(items)
    ensures Total(tagNames) == counts[TagKind]
  {
    lines := [];
    counts := InitialCounts;
    tagNames := [];
    CountedNothing();
    var i := 0;
    while i < |items|
      invariant 0 <= i <= |items|
      invariant lines == Lines(items[..i])
      invariant Counted(items[..i], counts, tagNames)
    {
      var node := items[i];
      var index := i + 1;
      lines := lines + [FormatNode(node, index)];
      LinesSnoc(items, i);
      counts, tagNames := CountOne(items, i, counts, tagNames);
      i := i + 1;
    }
    assert items[..i] == items;
    CountedMeans(items, counts, tagNames);
  }

  // ---------------------------------------------------------------------
  // What the counters add up to
  // ---------------------------------------------------------------------

  /** Every object lands in exactly one counter, so the counters add up to the number of objects. */
  lemma {:induction false} KindCountsAddUp(items: seq<PageElement>)
    ensures KindCount(items, BeautifulSoupKind) + KindCount(items, TagKind) + KindCount(items, NavigableStringKind)
          + KindCount(items, CommentKind) + KindCount(items, OtherKind) == |items|
    decreases |items|
  {
    if items != [] {
      KindCountsAddUp(items[..|items| - 1]);
    }
  }

  /** The "Total nodes" figure is the number of iterated objects. */
  lemma TotalIsNodeCount(items: seq<PageElement>, counts: map<Kind, nat>)
    requires forall k: Kind :: k in counts && counts[k] == KindCount(items, k)
    ensures SumCounts(counts) == |items|
  {
    KindCountsAddUp(items);
  }

  /** The "Comment" and "Other" counters stay at zero whatever is iterated. */
  lemma {:induction false} UnreachedCountersStayZero(items: seq<PageElement>)
    ensures KindCount(items, CommentKind) == 0 && KindCount(items, OtherKind) == 0
    decreases |items|
  {
    if items != [] {
      UnreachedCountersStayZero(items[..|items| - 1]);
      ClassifyTable(items[|items| - 1]);
    }
  }

  lemma SelectCons(x: PageElement, s: seq<PageElement>, cond: Condition)
    ensures Select([x] + s, cond) == (if Matches(x, cond) then [x] else []) + Select(s, cond)
  {
    assert ([x] + s)[0] == x && ([x] + s)[1..] == s;
  }

  lemma {:induction false} SelectAppend(a: seq<PageElement>, b: seq<PageElement>, cond: Condition)
    ensures Select(a + b, cond) == Select(a, cond) + Select(b, cond)
  {
    if a == [] {
      assert a + b == b;
    } else {
      SelectAppend(a[1..], b, cond);
      assert a + b == [a[0]] + (a[1..] + b);
      SelectCons(a[0], a[1..] + b, cond);
      assert a == [a[0]] + a[1..];
      SelectCons(a[0], a[1..], cond);
      var h := if Matches(a[0], cond) then [a[0]] else [];
      ConcatAssoc(h, Select(a[1..], cond), Select(b, cond));
    }
  }

  /** The counters agree with `isinstance` filters: the root is counted apart from the other `Tag`s. */
  lemma {:induction false} KindCountsAreFilters(items: seq<PageElement>)
    ensures KindCount(items, BeautifulSoupKind) == |Select(items, OfClass(BeautifulSoupClass))|
    ensures KindCount(items, BeautifulSoupKind) + KindCount(items, TagKind) == |Select(items, OfClass(TagClass))|
    ensures KindCount(items, NavigableStringKind) == |Select(items, OfClass(NavigableStringClass))|
    decreases |items|
  {
    if items != [] {
      var prior := items[..|items| - 1];
      var e := items[|items| - 1];
      assert items == prior + [e];
      KindCountsAreFilters(prior);
      SelectAppend(prior, [e], OfClass(BeautifulSoupClass));
      SelectAppend(prior, [e], OfClass(TagClass));
      SelectAppend(prior, [e], OfClass(NavigableStringClass));
      ClassifyTable(e);
      InstanceTable(e);
    }
  }

  /** No node below the root is a `BeautifulSoup`. */
  lemma {:induction false} NoInnerSoup(n: Node)
    ensures Count(n, OfClass(BeautifulSoupClass)) == 0
    decreases n, 1
  {
    InstanceTable(Inner(n));
    if n.Element? {
      NoInnerSoupAll(n.children);
    }
  }

  lemma {:induction false} NoInnerSoupAll(ns: seq<Node>)
    ensures CountAll(ns, OfClass(BeautifulSoupClass)) == 0
    decreases ns, 0
  {
    if ns != [] {
      NoInnerSoup(ns[0]);
      NoInnerSoupAll(ns[1..]);
    }
  }

  /**
   * The counters after iterating a document: one `BeautifulSoup` (the
   * root), one "Tag" per element and one "NavigableString" per text or
   * comment node of the tree, nothing else.
   */
  lemma IteratedKindCounts(d: Document)
    ensures KindCount(Iterate(d), BeautifulSoupKind) == 1
    ensures KindCount(Iterate(d), TagKind) == CountAll(d.children, OfClass(TagClass))
    ensures KindCount(Iterate(d), NavigableStringKind) == CountAll(d.children, OfClass(NavigableStringClass))
    ensures KindCount(Iterate(d), CommentKind) == 0 && KindCount(Iterate(d), OtherKind) == 0
  {
    KindCountsAreFilters(Iterate(d));
    InstanceTable(Root);
    IteratedCount(d, OfClass(BeautifulSoupClass));
    IteratedCount(d, OfClass(TagClass));
    IteratedCount(d, OfClass(NavigableStringClass));
    NoInnerSoupAll(d.children);
    UnreachedCountersStayZero(Iterate(d));
  }

  // ---------------------------------------------------------------------
  // The summary
  // ---------------------------------------------------------------------

  /** The counter keys in the order `sorted(node_counts.items())` lists them. */
  const NameOrder: seq<Kind> := [BeautifulSoupKind, CommentKind, NavigableStringKind, OtherKind, TagKind]

  /** Where a key stands in `NameOrder`. */
  function Rank(k: Kind): (i: nat)
    ensures i < |NameOrder| && NameOrder[i] == k
  {
    match k
    case BeautifulSoupKind => 0
    case CommentKind => 1
    case NavigableStringKind => 2
    case OtherKind => 3
    case TagKind => 4
  }

  /** Only the "Comment" counter is named "Comment", only the "Other" counter "Other". */
  lemma KindNamesDiffer(k: Kind)
    ensures KindName(k) == "Comment" <==> k == CommentKind
    ensures KindName(k) == "Other" <==> k == OtherKind
  {
    assert |KindName(k)| == 7 <==> k == CommentKind;
    assert |KindName(k)| == 5 <==> k == OtherKind;
  }

  /** `NameOrder` is every key once, in increasing name order. */
  lemma NameOrderIsSorted()
    ensures forall k: Kind :: k in NameOrder
    ensures forall i, j :: 0 <= i < j < |NameOrder| ==> StrLt(KindName(NameOrder[i]), KindName(NameOrder[j]))
  {
    forall k: Kind ensures k in NameOrder {
      match k
      case BeautifulSoupKind => assert NameOrder[0] == k;
      case CommentKind => assert NameOrder[1] == k;
      case NavigableStringKind => assert NameOrder[2] == k;
      case OtherKind => assert NameOrder[3] == k;
      case TagKind => assert NameOrder[4] == k;
    }
    forall i, j | 0 <= i < j < |NameOrder|
      ensures StrLt(KindName(NameOrder[i]), KindName(NameOrder[j]))
    {
      FirstLetterOrder(KindName(NameOrder[i]), KindName(NameOrder[j]));
    }
  }

  /** The counter names start with distinct capitals, so their first letters order them. */
  lemma FirstLetterOrder(a: string, b: string)
    requires a != [] && b != [] && a[0] < b[0]
    ensures StrLt(a, b)
  {
  }

  /** Entries listed with strictly increasing names. */
  predicate NamesIncrease(ts: seq<Tally>) {
    forall i, j :: 0 <= i < j < |ts| ==> StrLt(ts[i].name, ts[j].name)
  }

  /** `sorted(node_counts.items())`: every counter with its name, in name order. */
  function AllTallies(counts: map<Kind, nat>): (r: seq<Tally>)
    requires forall k: Kind :: k in counts
    ensures NamesIncrease(r)
    ensures forall i :: 0 <= i < |r| ==> exists k: Kind :: r[i] == Tally(KindName(k), counts[k])
    ensures forall k: Kind :: Tally(KindName(k), counts[k]) in r
  {
    NameOrderIsSorted();
    var r := seq(|NameOrder|, i requires 0 <= i < |NameOrder| => Tally(KindName(NameOrder[i]), counts[NameOrder[i]]));
    forall k: Kind ensures Tally(KindName(k), counts[k]) in r {
      assert r[Rank(k)] == Tally(KindName(k), counts[k]);
    }
    r
  }

  /** The entries with a non-zero count, in order (`if count > 0`). */
  function Positive(ts: seq<Tally>): (r: seq<Tally>)
    ensures forall i :: 0 <= i < |r| ==> r[i].count > 0 && r[i] in ts
    ensures forall t :: t in ts && t.count > 0 ==> t in r
  {
    if ts == [] then []
    else (if ts[0].count > 0 then [ts[0]] else []) + Positive(ts[1..])
  }

  /** In a list with increasing names, the first name comes before every later one. */
  lemma HeadNameIsLeast(ts: seq<Tally>)
    requires ts != [] && NamesIncrease(ts)
    ensures forall x :: x in ts[1..] ==> StrLt(ts[0].name, x.name)
  {
    forall x | x in ts[1..] ensures StrLt(ts[0].name, x.name) {
      var m :| 0 <= m < |ts[1..]| && ts[1..][m] == x;
      assert ts[m + 1] == x;
    }
  }

  lemma TailNamesIncrease(ts: seq<Tally>)
    requires ts != [] && NamesIncrease(ts)
    ensures NamesIncrease(ts[1..])
  {
    forall i, j | 0 <= i < j < |ts[1..]| ensures StrLt(ts[1..][i].name, ts[1..][j].name) {
      assert ts[1..][i] == ts[i + 1] && ts[1..][j] == ts[j + 1];
    }
  }

  /** Putting an entry in front of increasing names that all come after it keeps them increasing. */
  lemma ConsNamesIncrease(t: Tally, rest: seq<Tally>)
    requires NamesIncrease(rest)
    requires forall i :: 0 <= i < |rest| ==> StrLt(t.name, rest[i].name)
    ensures NamesIncrease([t] + rest)
  {
    var r := [t] + rest;
    forall i, j | 0 <= i < j < |r| ensures StrLt(r[i].name, r[j].name) {
      assert r[j] == rest[j - 1];
      if i > 0 { assert r[i] == rest[i - 1]; }
    }
  }

  lemma {:induction false} PositiveKeepsOrder(ts: seq<Tally>)
    requires NamesIncrease(ts)
    ensures NamesIncrease(Positive(ts))
  {
    if ts != [] {
      TailNamesIncrease(ts);
      PositiveKeepsOrder(ts[1..]);
      var rest := Positive(ts[1..]);
      if ts[0].count > 0 {
        HeadNameIsLeast(ts);
        forall i | 0 <= i < |rest| ensures StrLt(ts[0].name, rest[i].name) {
          assert rest[i] in ts[1..];
        }
        ConsNamesIncrease(ts[0], rest);
        assert Positive(ts) == [ts[0]] + rest;
      } else {
        assert Positive(ts) == rest;
      }
    }
  }

  /**
   * The "Summary Statistics" entries: exactly the counters with a non-zero
   * count, each with its count, in name order.
   */
  function TypeSummary(counts: map<Kind, nat>): (r: seq<Tally>)
    requires forall k: Kind :: k in counts
    ensures NamesIncrease(r)
    ensures forall i :: 0 <= i < |r| ==> r[i].count > 0 && exists k: Kind :: r[i] == Tally(KindName(k), counts[k])
    ensures forall k: Kind :: counts[k] > 0 ==> Tally(KindName(k), counts[k]) in r
  {
    var all := AllTallies(counts);
    PositiveKeepsOrder(all);
    Positive(all)
  }

  // ---------------------------------------------------------------------
  // The tag name distribution
  // ---------------------------------------------------------------------

  /** Counts never go up along `ts`. */
  predicate CountsDescend(ts: seq<Tally>) {
    forall i, j :: 0 <= i < j < |ts| ==> ts[i].count >= ts[j].count
  }

  /** The entries of `ts` with count `c`, in order. */
  function WithCount(ts: seq<Tally>, c: nat): seq<Tally> {
    if ts == [] then [] else (if ts[0].count == c then [ts[0]] else []) + WithCount(ts[1..], c)
  }

  /** `t` goes in front of the first entry that does not have a larger count. */
  function InsertByCount(t: Tally, ts: seq<Tally>): seq<Tally> {
    if ts == [] || ts[0].count <= t.count then [t] + ts
    else [ts[0]] + InsertByCount(t, ts[1..])
  }

  lemma {:induction false} InsertByCountPermutes(t: Tally, ts: seq<Tally>)
    ensures multiset(InsertByCount(t, ts)) == multiset(ts) + multiset{t}
  {
    if ts != [] && ts[0].count > t.count {
      InsertByCountPermutes(t, ts[1..]);
      assert ts == [ts[0]] + ts[1..];
    }
  }

  /** Inserting keeps every count at most `m` when `t` and all of `ts` are. */
  lemma {:induction false} InsertByCountBounded(t: Tally, ts: seq<Tally>, m: nat)
    requires t.count <= m && forall j :: 0 <= j < |ts| ==> ts[j].count <= m
    ensures forall j :: 0 <= j < |InsertByCount(t, ts)| ==> InsertByCount(t, ts)[j].count <= m
  {
    if ts != [] && ts[0].count > t.count {
      InsertByCountBounded(t, ts[1..], m);
      var r := [ts[0]] + InsertByCount(t, ts[1..]);
      forall j | 0 <= j < |r| ensures r[j].count <= m {
        if j > 0 { assert r[j] == InsertByCount(t, ts[1..])[j - 1]; }
      }
    }
  }

  lemma {:induction false} InsertByCountDescends(t: Tally, ts: seq<Tally>)
    requires CountsDescend(ts)
    ensures CountsDescend(InsertByCount(t, ts))
  {
    if ts != [] && ts[0].count > t.count {
      var rest := InsertByCount(t, ts[1..]);
      InsertByCountDescends(t, ts[1..]);
      InsertByCountBounded(t, ts[1..], ts[0].count);
      var r := [ts[0]] + rest;
      forall i, j | 0 <= i < j < |r| ensures r[i].count >= r[j].count {
        assert r[j] == rest[j - 1];
        if i > 0 { assert r[i] == rest[i - 1]; }
      }
    }
  }

  lemma WithCountCons(x: Tally, s: seq<Tally>, c: nat)
    ensures WithCount([x] + s, c) == (if x.count == c then [x] else []) + WithCount(s, c)
  {
    assert ([x] + s)[0] == x && ([x] + s)[1..] == s;
  }

  /** `t` comes before every entry of `ts` with its count, and after those with larger counts. */
  lemma {:induction false} InsertByCountTies(t: Tally, ts: seq<Tally>, c: nat)
    ensures WithCount(InsertByCount(t, ts), c) == (if t.count == c then [t] else []) + WithCount(ts, c)
  {
    if ts == [] || ts[0].count <= t.count {
      assert InsertByCount(t, ts) == [t] + ts;
      WithCountCons(t, ts, c);
    } else {
      var rest := InsertByCount(t, ts[1..]);
      assert InsertByCount(t, ts) == [ts[0]] + rest;
      InsertByCountTies(t, ts[1..], c);
      WithCountCons(ts[0], rest, c);
      assert ts == [ts[0]] + ts[1..];
      WithCountCons(ts[0], ts[1..], c);
      assert !(ts[0].count == c && t.count == c);
    }
  }

  lemma {:induction false} TotalInsertByCount(t: Tally, ts: seq<Tally>)
    ensures Total(InsertByCount(t, ts)) == t.count + Total(ts)
  {
    if ts != [] && ts[0].count > t.count {
      TotalInsertByCount(t, ts[1..]);
    }
  }

  lemma {:induction false} TotalSortByCount(ts: seq<Tally>)
    ensures Total(SortByCount(ts)) == Total(ts)
  {
    if ts != [] {
      TotalSortByCount(ts[1..]);
      TotalInsertByCount(ts[0], SortByCount(ts[1..]));
    }
  }

  /** `sorted(tag_names.items(), key=lambda x: -x[1])`: by descending count, keeping the order of ties. */
  function SortByCount(ts: seq<Tally>): seq<Tally> {
    if ts == [] then [] else InsertByCount(ts[0], SortByCount(ts[1..]))
  }

  /**
   * The sort is a stable sort on count: the result is descending, and the
   * entries with any one count come in the order they had, so the result is
   * a rearrangement of the input.
   */
  lemma {:induction false} SortByCountIsStable(ts: seq<Tally>)
    ensures CountsDescend(SortByCount(ts))
    ensures forall c :: WithCount(SortByCount(ts), c) == WithCount(ts, c)
    ensures multiset(SortByCount(ts)) == multiset(ts)
  {
    if ts != [] {
      SortByCountIsStable(ts[1..]);
      InsertByCountPermutes(ts[0], SortByCount(ts[1..]));
      assert ts == [ts[0]] + ts[1..];
      InsertByCountDescends(ts[0], SortByCount(ts[1..]));
      forall c ensures WithCount(SortByCount(ts), c) == WithCount(ts, c) {
        InsertByCountTies(ts[0], SortByCount(ts[1..]), c);
      }
    }
  }

  // ---------------------------------------------------------------------
  // The whole analysis of one document
  // ---------------------------------------------------------------------

  /** A counter at zero gets no summary line. */
  lemma ZeroCountersNotListed(counts: map<Kind, nat>)
    requires forall k: Kind :: k in counts
    requires counts[CommentKind] == 0 && counts[OtherKind] == 0
    ensures forall i :: 0 <= i < |TypeSummary(counts)| ==>
              TypeSummary(counts)[i].name != "Comment" && TypeSummary(counts)[i].name != "Other"
  {
    var summary := TypeSummary(counts);
    forall i | 0 <= i < |summary|
      ensures summary[i].name != "Comment" && summary[i].name != "Other"
    {
      var k: Kind :| summary[i] == Tally(KindName(k), counts[k]);
      KindNamesDiffer(k);
    }
  }

  /** The summary of an iterated document. */
  lemma IteratedSummary(d: Document)
    ensures var summary := TypeSummary(KindCountsOf(Iterate(d)));
            && Tally("BeautifulSoup", 1) in summary
            && forall i :: 0 <= i < |summary| ==> summary[i].name != "Comment" && summary[i].name != "Other"
  {
    var counts := KindCountsOf(Iterate(d));
    IteratedKindCounts(d);
    assert Tally(KindName(BeautifulSoupKind), counts[BeautifulSoupKind]) in TypeSummary(counts);
    ZeroCountersNotListed(counts);
  }

  /**
   * `analyze_document` without its file I/O: iterate the parsed document,
   * write one line per object, count, and produce the total, the summary
   * entries and the tag name distribution.
   */
  method AnalyzeDocument(d: Document) returns (lines: seq<string>, total: nat, summary: seq<Tally>, distribution: seq<Tally>)
    ensures lines == Lines(Iterate(d))
    ensures total == |Iterate(d)| == 1 + SizeAll(d.children)
    ensures summary == TypeSummary(KindCountsOf(Iterate(d)))
    ensures distribution == SortByCount(TagTallies(Iterate(d)))
    ensures Total(distribution) == CountAll(d.children, OfClass(TagClass))
  {
    var items := Collect(d);
    var counts, tagNames;
    lines, counts, tagNames := CountNodes(items);
    TotalIsNodeCount(items, counts);
    IterationCountsEveryNode(d);
    total := SumCounts(counts);
    summary := TypeSummary(counts);
    IteratedKindCounts(d);
    distribution := SortByCount(tagNames);
    TotalSortByCount(tagNames);
  }
}
