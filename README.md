# A verified model of bs4's SoupReplacer engine and of soup iteration

This project models, in Dafny, the core of a Beautiful Soup fork:

- **The tag-transformation engine (`SoupReplacer`).** One rule is applied to every element of a parsed document in a single pre-order pass. The pass starts at the root's children. There are four kinds of rule:
  - a rename pair `(old, new)`;
  - a `name_xformer` giving the new name;
  - an `attrs_xformer` giving a new attribute mapping, or nothing for "unchanged";
  - an `xformer` that edits the element in place.

  There are two forms of the engine:
  - `Replacer` states it as a function on tree values;
  - `Dom` is an in-place rendering consistent with the tests: mutable `Tag` objects whose `name` and `attrs` are overwritten while one pre-order walk goes on. The engine's own source is not part of this model; its behaviour is fixed by the tests. Every method in `Dom` is proved to compute exactly `Replacer`'s function.

  The tests' concrete documents, rules and assertions are stated as lemmas (`ReplacerTests`, `DomTests`).
- **The paragraph application (`apps/m3/task7.py`).** Choosing a parser from the file name (`ParserChoice`), and the rule that gives every `p` the class `test` (`Paragraphs`).
- **Iterating a `BeautifulSoup` object (`Iteration`).** The root comes first, then every node below it in document order, comments included. `Iterate` is the whole sequence. `SoupIterator` is the generator: a class holding a stack of pending nodes, whose `Next` produces one object at a time. The iteration tests are stated as lemmas and methods.
- **The iteration report (`apps/m4/task_iteration.py`).** `format_node` is modelled line by line. The counting loop of `analyze_document` is a `while` loop with invariants, proved against independent counting functions. The summary is modelled too: non-zero kinds in name order, and tag names stably sorted by descending count.

Supporting modules:
- `Wrappers` holds `Option`.
- `Text` holds the Python string behaviour used: `strip`, slicing, the newline escape, `str(int)`, code-point order, `sorted` keys, `repr` of a string with its round trip, and `str(list)`.
- `Tree` holds the node datatype and the bs4 queries the tests use (`find`, `find_all`, `get_text`, `select("p > c")`, `get`).
- `Elements` holds the iterated objects and bs4's class hierarchy. The root is a `Tag`, and a `Comment` is a `NavigableString`.

A consequence the proofs make explicit: in `analyze_document`, a comment is always counted under "NavigableString", and the "Comment" and "Other" counters never move. This is because the `isinstance(node, NavigableString)` test at line 93 comes before the `Comment` test at line 95. The model keeps the source's order of tests and proves this (`Report.ClassifyTable`, `Report.UnreachedCountersStayZero`).

## Model

| member | source | states |
|---|---|---|
| Elements.InstanceTable | bs4/tests/test_soup_iterable.py:26-33 | `isinstance` on iterated objects: only the root is a `BeautifulSoup`; the root and elements are `Tag`s; text and comments are `NavigableString`s; only comments are `Comment`s; nothing is both a `Tag` and a `NavigableString` |
| Iteration.Iterate | bs4/tests/test_soup_iterable.py:22-29 | `list(soup)` has at least one object, the first is the root, and every later one is a node below it |
| Iteration.IterationCountsEveryNode | bs4/tests/test_soup_iterable.py:28-29 | iteration yields exactly one object per node of the tree, plus the root (node count computed independently of any order) |
| Iteration.RootOnlyFirst | bs4/tests/test_soup_iterable.py:24-26 | the root is at position 0 and at no other position |
| Iteration.EmptyDocumentYieldsRoot | bs4/tests/test_soup_iterable.py:39-48 | an empty document iterates to exactly `[soup]` |
| Iteration.IteratedSelect | bs4/tests/test_soup_iterable.py:32-33 | filtering the iteration by a condition is the root (if it qualifies) followed by the qualifying tree nodes in document order |
| Iteration.IteratedTagsAreFindAll | bs4/tests/test_soup_iterable.py:62-63 | the `Tag`s of a given name met while iterating are exactly `find_all(name)`, in order |
| Iteration.IteratedCount | bs4/tests/test_soup_iterable.py:62-75 | the number of iterated objects meeting a condition is the root's contribution plus a count taken over the tree itself |
| Iteration.SimpleSoupCounts | bs4/tests/test_soup_iterable.py:18 | the simple document has seven nodes: five elements and two strings |
| Iteration.SimpleSoupIteration | bs4/tests/test_soup_iterable.py:16-36 | the simple document iterates to eight objects, the root first; six are `Tag`s and two `NavigableString`s |
| Iteration.NestedStructureIteration | bs4/tests/test_soup_iterable.py:51-75 | the nested document yields the root first, three `div`s, one `p` and one string stripping to "Nested" |
| Iteration.CommentsAreIterated | bs4/tests/test_soup_iterable.py:78-88 | the comment document yields exactly one `Comment`, with text " This is a comment " |
| Iteration.SoupIterator.constructor | bs4/tests/test_soup_iterable.py:97 | `iter(soup)`: nothing produced yet, and the pending objects are the whole iteration |
| Iteration.SoupIterator.Next | bs4/tests/test_soup_iterable.py:103-104 | `next()`: with objects pending, it returns the first pending one, which moves to the produced list; when exhausted, it returns nothing and changes nothing; produced plus pending always equals the full iteration |
| Iteration.SoupIterator.Rest | bs4/tests/test_soup_iterable.py:117-118 | `list(iterator)`: it returns exactly what was still pending, in order, and leaves the iterator exhausted |
| Iteration.Collect | bs4/tests/test_soup_iterable.py:43 | a fresh generator run to the end produces exactly `Iterate(d)` |
| Iteration.DeepDocumentSize | bs4/tests/test_soup_iterable.py:93 | `<html>` around `depth` nested `div`s around "Text" iterates to `depth + 3` objects |
| Iteration.IterationIsIncremental | bs4/tests/test_soup_iterable.py:91-118 | the first `next` gives the root; a loop stopped after ten gets exactly ten; the rest is `Iterate(d)[11..]` and is not empty |
| Iteration.IterationIsRepeatable | bs4/tests/test_soup_iterable.py:121-160 | a `for` loop collects the root first, and a second `list(soup)` gives the same objects |
| Replacer.TransformAllKeepsShape | bs4/tests/test_soupreplacer_m3.py:23-32 | the pass keeps every node, in place: with names and attributes erased, input and output forests are equal |
| Replacer.DescendantsOfTransform | bs4/tests/test_soupreplacer_m3.py:35-42 | the output in document order is the image of the input node at each position; nothing is dropped, added or reordered, and renamed elements keep their subtrees |
| Replacer.ElementsAfterTransform | bs4/tests/test_soupreplacer_m3.py:35-42 | the k-th element of the output carries exactly what the rule made of the k-th element of the input: each element is visited once, in document order |
| Replacer.TransformKeepsText | bs4/tests/test_soupreplacer_m3.py:17-20 | no rule changes text: `get_text()` of a transformed subtree equals the original's |
| Replacer.RenamePairIsComplete | bs4/tests/test_soupreplacer.py:17-23 | after a pair `(o, n)` with `o != n`: no `o` left anywhere, including inside renamed elements; the `n` count is the old `o` count plus the old `n` count; other names are found where they were |
| Replacer.RenamePairKeepsAttributes | bs4/tests/test_soupreplacer.py:26-34 | a rename pair changes only names: every element keeps its attributes and is renamed exactly when it was named `o` |
| Replacer.RenamePairIsNameRule | bs4/tests/test_soupreplacer_m3.py:23-26 | the pair `(o, n)` gives the same tree as the name rule "n if named o, else unchanged" |
| Replacer.SameVisitSameTransform | bs4/tests/test_soupreplacer_m3.py:23-26 | two rules agreeing on every element state produce the same output forest |
| Replacer.TransformAllIdempotent | apps/m3/task7.py:50-61 | if the rule is idempotent on element states, the whole pass is idempotent |
| Replacer.AttrsRuleEffect | bs4/tests/test_soupreplacer_m3.py:45-70 | an `attrs_xformer` never renames; each element's attributes become the returned mapping, or stay when the rule returns nothing |
| Replacer.EditAttrsEffect | bs4/tests/test_soupreplacer_m3.py:73-101 | `tag[k] = v` sets `k` to `v`; deleting `k` removes it and is a no-op when absent; every other key is unchanged |
| Replacer.MutatorEffect | bs4/tests/test_soupreplacer_m3.py:73-79 | an `xformer` keeps names and edits the attributes of exactly the elements its guard admits; the others are unchanged |
| ReplacerTests.AppendTestClass | bs4/tests/test_soupreplacer_m3.py:46-54 | the test's `add_test_class`: for a `p`, a copy whose `class` is the old class list (none when absent, a lone string as a one-element list) followed by "test", with no deduplication and other keys kept; anything else keeps its own mapping |
| ReplacerTests.RemoveClass | bs4/tests/test_soupreplacer_m3.py:61-66 | the test's `remove_class`: the mapping without `class`, every other key and value kept |
| ReplacerTests.PairRenameRemovesOriginalTags | bs4/tests/test_soupreplacer_m3.py:17-20 | `find("b")` is None and `find("blockquote").get_text()` is "Hello" |
| ReplacerTests.NameRulePreservesSiblingStructure | bs4/tests/test_soupreplacer_m3.py:23-32 | the outer `div`'s element children are `[blockquote, span]`, reading "one" and "two" |
| ReplacerTests.NestedTagsOutput | bs4/tests/test_soupreplacer_m3.py:35-39 | the name rule turns both nested `b`s into `blockquote`s; the output tree is given in full |
| ReplacerTests.NestedTagsQueries | bs4/tests/test_soupreplacer_m3.py:40-42 | in `<top><q>…<q>…</q></q></top>`, `find_all(q)` has two results, and the first's `find(q)` is the second |
| ReplacerTests.NameRuleHandlesNestedTags | bs4/tests/test_soupreplacer_m3.py:35-42 | two `blockquote`s, and `blocks[0].find("blockquote") == blocks[1]` |
| ReplacerTests.AttrsRuleAddsClass | bs4/tests/test_soupreplacer_m3.py:45-57 | the `p` ends with `class == ["test"]` |
| ReplacerTests.AttrsRuleRemovesAttr | bs4/tests/test_soupreplacer_m3.py:60-70 | the `b` has no `class` |
| ReplacerTests.MutatorSideEffectIsVisible | bs4/tests/test_soupreplacer_m3.py:73-79 | the `div` ends with `data-test == "1"` |
| ReplacerTests.MutatorRemovesAttrInPlace | bs4/tests/test_soupreplacer_m3.py:82-90 | the `p` has no `class`, and its text is still "t" |
| ReplacerTests.MutatorRemoveIsNoopWhenAbsent | bs4/tests/test_soupreplacer_m3.py:93-101 | `class` stays absent and `id` stays "k" |
| ReplacerTests.PairRenameInMixedContent | bs4/tests/test_soupreplacer.py:17-23 | in `<p>Hi <b>Mars</b>!</p>`, no `b` is left and a `blockquote` reads "Mars" |
| ReplacerTests.KeepsAttrsOutput | bs4/tests/test_soupreplacer.py:26-28 | the pair `p -> div` gives `<div><div class=[x]>A</div><div>B</div></div>`, in full |
| ReplacerTests.KeepsAttrsQueries | bs4/tests/test_soupreplacer.py:29-34 | in `<dv><dv class=c>a</dv><dv>b</dv></dv>`: no `pn`; `dv > dv` selects the two inner elements in order, with their class and texts |
| ReplacerTests.PairRenameKeepsAttrsAndText | bs4/tests/test_soupreplacer.py:26-34 | no `p` left; `select("div > div")` has two results, the first with `class == ["x"]` and text "A", the second with text "B" |
| Dom.Tag.constructor | bs4/tests/test_soupreplacer_m3.py:10-14 | a parsed element object: a valid tree owning exactly itself and its children's objects |
| Dom.VisitInPlace | bs4/tests/test_soupreplacer_m3.py:17-101 | the rule applied in place: the element's new name and attributes are `Visit` of its old ones |
| Dom.RunXformer | bs4/tests/test_soupreplacer_m3.py:73-101 | an `xformer` run in place changes only the attribute mapping, as `Mutate` says |
| Dom.Walk | bs4/tests/test_soupreplacer_m3.py:35-42 | the in-place walk of a subtree leaves exactly `Transform` of the old subtree |
| Dom.WalkChildren | bs4/tests/test_soupreplacer_m3.py:23-32 | the in-place walk over the children, left to right, leaves exactly `TransformAll` of the old children |
| Dom.SoupReplacer.constructor | bs4/tests/test_soupreplacer_m3.py:104-105 | the engine is bound to the one rule it is given |
| Dom.SoupReplacer.Apply | bs4/tests/test_soupreplacer_m3.py:104-110 | applying the engine to a parsed document leaves `TransformDocument(rule, old document)`; it depends on nothing else |
| DomTests.ParseOneElement | bs4/tests/test_soupreplacer_m3.py:106 | builds the objects of `<name>text</name>`, whose tree value is that element |
| DomTests.ReplacerResetsBetweenParses | bs4/tests/test_soupreplacer_m3.py:104-110 | one replacer used twice gives a `blockquote` reading "first", then one reading "second" |
| ParserChoice.LastDot | apps/m3/task7.py:29 | the index of the last dot, or -1 when there is none |
| ParserChoice.Suffix | apps/m3/task7.py:29 | `Path.suffix`: non-empty exactly when some index is the last dot, neither first nor last, and then the text from there |
| ParserChoice.Lower | apps/m3/task7.py:29 | `lower()` maps each character, keeping the length |
| ParserChoice.PickParser | apps/m3/task7.py:27-36 | an XML parser exactly for `.xml`/`.xhtml`, an lxml parser exactly when lxml is available; the two facts fix the result (`apps/m4/task_iteration.py:23-32` is the same code) |
| ParserChoice.PickParserIgnoresCase | apps/m3/task7.py:29-30 | names whose suffixes agree up to case get the same parser |
| ParserChoice.SuffixOfExtension | apps/m3/task7.py:29 | a name ending in a dot and a dot-free extension has that suffix, whatever comes before |
| ParserChoice.PickParserUpperCase | apps/m3/task7.py:29-30 | `X.XHTML` without lxml gives "xml"; `X.Xml` with lxml gives "lxml-xml" |
| ParserChoice.PickParserLastSuffixOnly | apps/m3/task7.py:29-30 | `X.xml.txt` is not XML |
| ParserChoice.PickParserHiddenFile | apps/m3/task7.py:29 | `.ext` (such as `.xml`) has no suffix and gets an HTML parser |
| ParserChoice.PickParserTrailingDot | apps/m3/task7.py:29 | a name ending in a dot has no suffix and gets an HTML parser |
| Paragraphs.StrOf | apps/m3/task7.py:47 | `str(value)`: a string is itself; an int is `str(i)` (a minus sign exactly when negative, then the digits of its absolute value); a bool is "True" or "False" |
| Paragraphs.EnsureClassList | apps/m3/task7.py:39-47 | None gives `[]`; a list or tuple gives its items in order; any other value gives `[str(value)]` |
| Paragraphs.ClassValue | apps/m3/task7.py:55 | `attrs.get("class")` is None when there is no `class` |
| Paragraphs.OldClasses | apps/m3/task7.py:54-55 | the old class list: empty, the one string, or bs4's list |
| Paragraphs.AddTestClass | apps/m3/task7.py:51-59 | None exactly for non-`p` tags; for a `p`, the other attributes are kept and `class` is a list holding "test": the old list when it already had "test", otherwise the old list plus "test" |
| Paragraphs.AddTestClassIdempotent | apps/m3/task7.py:56-58 | applying the rule to its own result gives the same result |
| Paragraphs.ParagraphVisitIdempotent | apps/m3/task7.py:51-61 | the engine's visit with the rule is idempotent on every element state |
| Paragraphs.EveryParagraphGetsTestClass | apps/m3/task7.py:50-61 | after the pass, every `p` (in document order) has a `class` list containing "test" and keeps its other attributes; every other element is unchanged |
| Paragraphs.ParagraphPassIdempotent | apps/m3/task7.py:50-61 | running the application on its own output changes nothing |
| Paragraphs.AddTestClassExamples | apps/m3/task7.py:51-59 | `["a","test","b"]` is kept as is; a lone `"x"` becomes `["x","test"]` and `id` is kept; a `div` gets None |
| Text.Strip | apps/m4/task_iteration.py:50 | `strip()`: a slice of the input with only whitespace around it and no whitespace at either end |
| Text.Truncate | apps/m4/task_iteration.py:50 | `s[:n]`: the prefix of length `min(|s|, n)` |
| Text.EscapeNewlines | apps/m4/task_iteration.py:53 | `replace("\n", "\\n")`: no line feed is left; the length grows by one per line feed; text without line feeds is unchanged |
| Text.EscapeNewlinesChar | apps/m4/task_iteration.py:53 | a line feed becomes a backslash and `n`; any other character stays as it is |
| Text.EscapeNewlinesAppend | apps/m4/task_iteration.py:53 | escaping a concatenation escapes each part, so with `EscapeNewlinesChar` every character is replaced where it stands and the order is kept |
| Text.NatToDecimal | apps/m4/task_iteration.py:40 | `str(n)`: non-empty digits with no leading zero, except for 0 itself |
| Text.DecimalRoundTrip | apps/m4/task_iteration.py:40 | reading back the digits of `str(n)` gives `n` |
| Text.IntToDecimal | apps/m4/task_iteration.py:40 | `str(i)`: starts with '-' exactly when `i < 0`; the digits after the sign denote the absolute value of `i` |
| Text.StrLtIrreflexive | apps/m4/task_iteration.py:105 | Python's string `<` is irreflexive |
| Text.StrLtTransitive | apps/m4/task_iteration.py:105 | … and transitive |
| Text.StrLtTotal | apps/m4/task_iteration.py:105 | … and total on distinct strings |
| Text.StrLtIsStrictOrder | apps/m4/task_iteration.py:105 | … and asymmetric |
| Text.Least | apps/m4/task_iteration.py:44 | the least key of a non-empty set is in it and before every other key |
| Text.SortedKeys | apps/m4/task_iteration.py:44 | `sorted(keys)`: every key exactly once, in strictly increasing order |
| Text.JoinEndsWithLast | apps/m4/task_iteration.py:44 | `" ".join(parts)` ends with the last part |
| Text.ReprQuote | apps/m4/task_iteration.py:44 | `repr` uses double quotes exactly when the text has a single quote and no double quote |
| Text.EscapeChar | apps/m4/task_iteration.py:44 | `repr` of one character: the quote and the backslash are backslash-escaped; tab, line feed and carriage return become `\t`, `\n`, `\r`; other control characters and U+007F become `\xHH`; every other character is written as itself |
| Text.Repr | apps/m4/task_iteration.py:44 | `repr(s)` is enclosed in its chosen quote |
| Text.UnescapeEscape | apps/m4/task_iteration.py:44 | reading back the escaped characters gives the original string |
| Text.ReprRoundTrip | apps/m4/task_iteration.py:44 | `repr` loses nothing: the text between the quotes reads back as the string |
| Text.Reprs | apps/m4/task_iteration.py:44 | the `repr` of each list item, in order; each reads back as its item |
| Text.ListStr | apps/m4/task_iteration.py:44 | `str(list)`: brackets around the items' `repr`s joined by ", "; `[]` for the empty list and `['x']` for one item |
| Report.ValueStr | apps/m4/task_iteration.py:44 | `f"{v}"`: a single value as it is; a class list in brackets, holding the classes' `repr`s joined by ", " |
| Report.SortedPrefixIsSmallest | apps/m4/task_iteration.py:44 | the first `n` keys of an increasing list come before every other key |
| Report.ShownKeys | apps/m4/task_iteration.py:44 | `sorted(attrs.items())[:3]`: `min(|attrs|, 3)` distinct existing keys, increasing, each before every key not shown |
| Report.ShownPairs | apps/m4/task_iteration.py:44 | pair `i` is `k="v"` for the `i`-th of the three smallest keys (`ShownKeys`) and that key's value |
| Report.AttrSummary | apps/m4/task_iteration.py:42-47 | empty exactly when there are no attributes; otherwise a space, the shown pairs joined by spaces, and "..." exactly when there are more than three attributes |
| Report.FormatNode | apps/m4/task_iteration.py:35-57 | every line starts with `"{index}: [{type name}] "` and has something after it |
| Report.FormatLine | apps/m4/task_iteration.py:37-54 | a line is the index, the bracketed type name, then the object's description |
| Report.TypeLabel | apps/m4/task_iteration.py:37 | `type(node).__name__`: BeautifulSoup, Tag, Comment or NavigableString according to the object |
| Report.DescribeTable | apps/m4/task_iteration.py:39-54 | the branch taken for each kind of object, in the source's order: root before `Tag`, `Comment` before `NavigableString` |
| Report.FormatRoot | apps/m4/task_iteration.py:39-40 | the root's line |
| Report.FormatTag | apps/m4/task_iteration.py:41-48 | a tag's line: `<name>` plus the attribute summary, and just `<name>` without attributes |
| Report.FormatComment | apps/m4/task_iteration.py:49-51 | a comment's line shows at most the first 50 characters of its stripped text, and always ends "... -->" |
| Report.FormatString | apps/m4/task_iteration.py:52-54 | a string's line shows, in quotes, at most the first 50 characters of its stripped, newline-escaped text; no raw line feed is left |
| Report.ClassifyTable | apps/m4/task_iteration.py:87-98 | the loop's first true `isinstance` branch: the root goes to "BeautifulSoup", elements to "Tag", text and comments to "NavigableString"; "Comment" and "Other" are never chosen |
| Report.FirstSeen | apps/m4/task_iteration.py:80-92 | the key order of `tag_names`: no name twice |
| Report.FirstSeenMembers | apps/m4/task_iteration.py:89-92 | `tag_names` has a key exactly for the names of the tags iterated |
| Report.FirstSeenOrder | apps/m4/task_iteration.py:89-92 | the keys are in first-met order: some tag named by an earlier key comes before every tag named by a later one |
| Report.Bump | apps/m4/task_iteration.py:92 | `tag_names[n] = tag_names.get(n, 0) + 1`: keys stay unique; an existing entry goes up by one; a new name is appended with count 1; the total rises by one |
| Report.UnseenNameCountsZero | apps/m4/task_iteration.py:92 | a name not yet met has count 0, as `get(name, 0)` assumes |
| Report.Lines | apps/m4/task_iteration.py:82-84 | one output line per object |
| Report.LinesAt | apps/m4/task_iteration.py:82-84 | line `j` is `format_node` of the `j`-th object with index `j + 1` (`enumerate(soup, 1)`) |
| Report.CountedNothing | apps/m4/task_iteration.py:72-80 | all counters start at zero with no name entries, which agrees with counting nothing |
| Report.CountedStep | apps/m4/task_iteration.py:86-98 | one loop step keeps the counters and name entries equal to the counts over the objects seen so far |
| Report.CountOne | apps/m4/task_iteration.py:86-98 | the counting half of the loop body keeps that agreement |
| Report.KindCountsOf | apps/m4/task_iteration.py:72-98 | the counter of each kind is the number of objects the loop classifies as that kind |
| Report.TagTallies | apps/m4/task_iteration.py:80-92 | `tag_names`: names in first-seen order, each with its number of occurrences |
| Report.CountedMeans | apps/m4/task_iteration.py:72-98 | the loop invariant at the end means the counters and name entries equal the counting functions, and the name entries add up to the "Tag" counter |
| Report.CountNodes | apps/m4/task_iteration.py:72-98 | the loop writes exactly `Lines(items)`; its counters and name entries are the independently defined counts; the entries add up to the "Tag" counter |
| Report.KindCountsAddUp | apps/m4/task_iteration.py:104 | every object lands in exactly one counter |
| Report.TotalIsNodeCount | apps/m4/task_iteration.py:104 | "Total nodes" is the number of iterated objects |
| Report.UnreachedCountersStayZero | apps/m4/task_iteration.py:95-98 | the "Comment" and "Other" counters stay at zero whatever is iterated |
| Report.KindCountsAreFilters | apps/m4/task_iteration.py:87-94 | the counters agree with `isinstance` filters: BeautifulSoup plus Tag counts are the `Tag`s; NavigableString counts all strings, comments included |
| Report.IteratedKindCounts | apps/m4/task_iteration.py:82-98 | for an iterated document: one BeautifulSoup; one "Tag" per element; one "NavigableString" per text or comment node; nothing else |
| Report.Rank | apps/m4/task_iteration.py:105 | every key has a place in the sorted key order |
| Report.KindNamesDiffer | apps/m4/task_iteration.py:105-107 | only the Comment counter is named "Comment", and only the Other counter "Other" |
| Report.NameOrderIsSorted | apps/m4/task_iteration.py:105 | the counter keys, in the listed order, are every key once, strictly increasing by name |
| Report.AllTallies | apps/m4/task_iteration.py:105 | `sorted(node_counts.items())`: every counter with its count, in strictly increasing name order |
| Report.Positive | apps/m4/task_iteration.py:106 | `if count > 0`: exactly the entries with a non-zero count |
| Report.PositiveKeepsOrder | apps/m4/task_iteration.py:105-107 | filtering keeps the name order |
| Report.TypeSummary | apps/m4/task_iteration.py:105-107 | the "Summary Statistics" entries: exactly the non-zero counters with their counts, in name order |
| Report.InsertByCountPermutes | apps/m4/task_iteration.py:111 | one insertion step of the sort adds its entry and loses nothing |
| Report.InsertByCountDescends | apps/m4/task_iteration.py:111 | an insertion step keeps counts descending |
| Report.InsertByCountTies | apps/m4/task_iteration.py:111 | an insertion step puts its entry before earlier entries with the same count |
| Report.TotalSortByCount | apps/m4/task_iteration.py:111 | the sort keeps the sum of the counts |
| Report.SortByCountIsStable | apps/m4/task_iteration.py:111 | `sorted(key=lambda x: -x[1])` is a stable sort: counts descending, ties in their original order, a permutation of the input |
| Report.ZeroCountersNotListed | apps/m4/task_iteration.py:106-107 | a counter at zero gets no summary line |
| Report.IteratedSummary | apps/m4/task_iteration.py:100-107 | the summary of an iterated document lists "BeautifulSoup: 1" and never lists "Comment" or "Other" |
| Report.AnalyzeDocument | apps/m4/task_iteration.py:60-112 | `analyze_document` without I/O: one line per iterated object; the total is the node count plus one; the type summary; the tag distribution sorted by count, adding up to the number of elements |

## Left out

- Parsing is not modelled: markup to tree (lxml, html.parser). Each test document is written out as the tree Python's `html.parser` builds from it; lxml would add `html`/`body` wrappers to fragments.
- `find`, `find_all`, `get_text`, `select` and `get` are defined directly on the tree value, as bs4 documents them; bs4's implementation of them is not part of this model.
- I/O and process handling are outside the model: reading and writing files, `argv`, `print`, `main`, `transform_file` and `prettify()` (apps/m3/task7.py:64-96, apps/m4/task_iteration.py:60-70, 100-103, 114-161).
- ParserChoice.PickParser: whether `import lxml` succeeds is a boolean parameter.
- Construction-time validation of `SoupReplacer`'s arguments and any exceptions a rule raises are not modelled. The engine is given exactly one well-formed rule.
- Replacer.MutatorEffect: an `xformer` is any Python callable; the model covers a closed language of edits: set one attribute or delete one, optionally guarded by a tag name. Rules only see the element's name and attributes, not its parents or children.
- Text.Repr: every character from U+0080 on is taken as printable, so `repr` never escapes it. Python escapes the characters it does not print: U+0080–U+009F, U+00A0 and U+00AD as `\x..`, and other non-printable code points as `\u` or `\U`.
- ParserChoice.Lower: only ASCII letters are lower-cased; Python's `str.lower` also lowers other scripts.
- ParserChoice.Suffix: `Path.suffix` is modelled for a final path component as Python 3.13 and earlier define it (a trailing dot gives no suffix; from Python 3.14 `"a."` has suffix `"."`, which picks the same parser); directory parts of the path are not modelled.
- Only the node kinds the tests use exist: elements, text and comments. bs4's other `NavigableString` subclasses (`Doctype`, `CData`, `ProcessingInstruction`, `Declaration`) are not in the model. In the source they would take `format_node`'s string branch (apps/m4/task_iteration.py:52-54) under their own type name, such as "[Doctype]", and be counted under "NavigableString" (line 93). The last branch of `format_node` (lines 55-57) is unreachable in the source whatever kinds are modelled.
- Generator laziness and memory use (bs4/tests/test_soup_iterable.py:91-100, apps/m4/task_iteration.py:114-124) are not modelled: `SoupIterator` states what each `next` returns, not when work is done.
- The `str(node)` checks of bs4/tests/test_soup_iterable.py:153-156 are not modelled: serialisation of nodes is not part of this model.
- Report.TypeSummary: the summary and distribution are produced as lists of (name, count) entries, not as the written text lines. The source writes the "Tag name distribution" block only when `tag_names` is non-empty (apps/m4/task_iteration.py:109); an empty distribution stands for the block that is not written.
- Iteration.IterationIsIncremental: stated for any depth of at least 9; the test uses depth 100.
- apps/m2 (task2, task3, task4, task6) is not part of this model.
