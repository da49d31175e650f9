/**
 * `pick_parser` of apps/m3/task7.py and apps/m4/task_iteration.py (the two
 * are the same code): the parser is chosen from the file name's suffix,
 * compared without regard to case, and from whether lxml can be imported.
 */
module ParserChoice {

  /** `i` starts the suffix of `name` as `pathlib` finds it: the last dot, not first, not last. */
  predicate IsExtensionAt(name: string, i: int) {
    && 0 < i < |name| - 1
    && name[i] == '.'
    && forall j :: i < j < |name| ==> name[j] != '.'
  }

  /** `name.rfind('.')`: the index of the last dot, or -1. */
  function LastDot(name: string): (i: int)
    ensures -1 <= i < |name|
    ensures i >= 0 ==> name[i] == '.'
    ensures forall j :: i < j < |name| ==> name[j] != '.'
  {
    if name == [] then -1
    else if name[|name| - 1] == '.' then |name| - 1
    else LastDot(name[..|name| - 1])
  }

  /** The last dot is the dot with no dot after it. */
  lemma {:induction false} LastDotIs(name: string, i: int)
    requires -1 <= i < |name| && (i >= 0 ==> name[i] == '.')
    requires forall j :: i < j < |name| ==> name[j] != '.'
    ensures LastDot(name) == i
    decreases |name|
  {
    if name != [] && name[|name| - 1] != '.' {
      LastDotIs(name[..|name| - 1], i);
    }
  }

  /**
   * `Path(name).suffix` for a final path component `name`: from the last
   * dot to the end, or empty when there is no dot, when the only dot
   * starts the name (a hidden file) or when the name ends with the dot.
   */
  function Suffix(name: string): (r: string)
    ensures r != [] ==> exists i :: IsExtensionAt(name, i) && r == name[i..]
    ensures r == [] ==> forall i :: !IsExtensionAt(name, i)
  {
    var i := LastDot(name);
    if 0 < i < |name| - 1 then
      assert IsExtensionAt(name, i);
      name[i..]
    else []
  }

  /** A name's suffix starts at its last dot when that dot neither starts nor ends it. */
  lemma SuffixAt(name: string, i: int)
    requires IsExtensionAt(name, i)
    ensures Suffix(name) == name[i..]
  {
    LastDotIs(name, i);
  }

  /** `str.lower()` on one character, for the ASCII letters. */
  function LowerChar(c: char): (r: char)
    ensures 'A' <= c <= 'Z' ==> 'a' <= r <= 'z' && r as int - c as int == 32
    ensures !('A' <= c <= 'Z') ==> r == c
  {
    if 'A' <= c <= 'Z' then (c as int + 32) as char else c
  }

  function Lower(s: string): (r: string)
    ensures |r| == |s|
    ensures forall i :: 0 <= i < |s| ==> r[i] == LowerChar(s[i])
  {
    seq(|s|, i requires 0 <= i < |s| => LowerChar(s[i]))
  }

  /** `suffix in {".xml", ".xhtml"}` after lower-casing. */
  predicate IsXml(name: string) {
    Lower(Suffix(name)) in {".xml", ".xhtml"}
  }

  /**
   * The choice: an XML parser exactly for `.xml`/`.xhtml`, an lxml one
   * exactly when lxml is available. The two facts together fix the result.
   */
  function PickParser(name: string, lxmlAvailable: bool): (r: string)
    ensures r in {"lxml-xml", "lxml", "xml", "html.parser"}
    ensures (r == "lxml-xml" || r == "xml") <==> IsXml(name)
    ensures (r == "lxml-xml" || r == "lxml") <==> lxmlAvailable
  {
    var isXml := IsXml(name);
    if lxmlAvailable then (if isXml then "lxml-xml" else "lxml")
    else (if isXml then "xml" else "html.parser")
  }

  /** Names whose suffixes agree up to case get the same parser. */
  lemma {:induction false} PickParserIgnoresCase(a: string, b: string, lxmlAvailable: bool)
    requires |Suffix(a)| == |Suffix(b)|
    requires forall i :: 0 <= i < |Suffix(a)| ==> LowerChar(Suffix(a)[i]) == LowerChar(Suffix(b)[i])
    ensures PickParser(a, lxmlAvailable) == PickParser(b, lxmlAvailable)
  {
    assert Lower(Suffix(a)) == Lower(Suffix(b));
  }

  /** A name ending in a dot and a dot-free extension has that suffix, whatever comes before. */
  lemma SuffixOfExtension(stem: string, ext: string)
    requires stem != [] && |ext| >= 2 && ext[0] == '.' && '.' !in ext[1..]
    ensures Suffix(stem + ext) == ext
  {
    var name := stem + ext;
    var i := |stem|;
    forall j | i < j < |name|
      ensures name[j] != '.'
    {
      assert name[j] == ext[1..][j - i - 1];
    }
    LastDotIs(name, i);
    assert name[i..] == ext;
  }

  /** The extensions the edge cases below use, lower-cased. */
  lemma LowerExtensions()
    ensures Lower(".XHTML") == ".xhtml" && Lower(".Xml") == ".xml" && Lower(".txt") == ".txt"
  {
    assert Lower(".XHTML") == ".xhtml";
    assert Lower(".Xml") == ".xml";
  }

  /** Upper case counts for nothing: `.XHTML` and `.Xml` pick an XML parser. */
  lemma PickParserUpperCase(stem: string)
    requires stem != []
    ensures PickParser(stem + ".XHTML", false) == "xml"
    ensures PickParser(stem + ".Xml", true) == "lxml-xml"
  {
    LowerExtensions();
    SuffixOfExtension(stem, ".XHTML");
    SuffixOfExtension(stem, ".Xml");
  }

  /** Only the last suffix counts: `notes.xml.txt` is not XML. */
  lemma PickParserLastSuffixOnly(stem: string)
    requires stem != []
    ensures PickParser(stem + ".xml.txt", true) == "lxml"
  {
    assert stem + ".xml.txt" == (stem + ".xml") + ".txt";
    SuffixOfExtension(stem + ".xml", ".txt");
    LowerExtensions();
  }

  /** A hidden file such as `.xml` has no suffix, so it is parsed as HTML. */
  lemma PickParserHiddenFile(ext: string)
    requires '.' !in ext
    ensures PickParser("." + ext, true) == "lxml"
  {
    var name := "." + ext;
    forall j | 0 < j < |name|
      ensures name[j] != '.'
    {
      assert name[j] == ext[j - 1];
    }
    LastDotIs(name, 0);
    assert Lower([]) == [];
  }

  /** A name ending in a dot has no suffix. */
  lemma PickParserTrailingDot(stem: string)
    ensures PickParser(stem + ".", false) == "html.parser"
  {
    LastDotIs(stem + ".", |stem|);
    assert Lower([]) == [];
  }
}
