/**
 * The few pieces of Python string behaviour the rest of the model relies on:
 * `str.strip()`, the newline escape `s.replace("\n", "\\n")`, decimal
 * formatting of an integer, and Python's code-point order on strings with
 * the key order `sorted` produces from it.
 */
module Text {

  /** The characters for which Python's `str.isspace()` holds. */
  predicate IsSpace(c: char) {
    || c == ' '
    || ('\t' <= c <= '\r')
    || ('\U{1c}' <= c <= '\U{1f}')
    || c == '\U{85}' || c == '\U{a0}' || c == '\U{1680}'
    || ('\U{2000}' <= c <= '\U{200a}')
    || c == '\U{2028}' || c == '\U{2029}' || c == '\U{202f}' || c == '\U{205f}' || c == '\U{3000}'
  }

  /** Every character of `s` from index `i` up to (not including) `j` is whitespace. */
  predicate SpaceBetween(s: string, i: int, j: int)
    requires 0 <= i <= j <= |s|
  {
    forall k :: i <= k < j ==> IsSpace(s[k])
  }

  /** The index of the first non-whitespace character at or after `i`, or `|s|`. */
  function SkipSpace(s: string, i: nat): (j: nat)
    requires i <= |s|
    ensures i <= j <= |s| && SpaceBetween(s, i, j)
    ensures j == |s| || !IsSpace(s[j])
    decreases |s| - i
  {
    if i < |s| && IsSpace(s[i]) then SkipSpace(s, i + 1) else i
  }

  /** The index just past the last non-whitespace character before `j`, but not below `lo`. */
  function SkipSpaceBack(s: string, lo: nat, j: nat): (i: nat)
    requires lo <= j <= |s|
    ensures lo <= i <= j && SpaceBetween(s, i, j)
    ensures i == lo || !IsSpace(s[i - 1])
    decreases j
  {
    if lo < j && IsSpace(s[j - 1]) then SkipSpaceBack(s, lo, j - 1) else j
  }

  /** `s` is `r` with only whitespace before it (`i` characters) and after it. */
  predicate Surrounded(s: string, i: int, r: string) {
    && 0 <= i && i + |r| <= |s|
    && s[i..i + |r|] == r
    && SpaceBetween(s, 0, i) && SpaceBetween(s, i + |r|, |s|)
  }

  /**
   * `s.strip()`: the result is a slice of `s` with only whitespace around it
   * and no whitespace at either of its own ends.
   */
  function Strip(s: string): (r: string)
    ensures |r| <= |s|
    ensures exists i :: Surrounded(s, i, r)
    ensures r == [] || (!IsSpace(r[0]) && !IsSpace(r[|r| - 1]))
  {
    var a := SkipSpace(s, 0);
    var b := SkipSpaceBack(s, a, |s|);
    assert Surrounded(s, a, s[a..b]);
    s[a..b]
  }

  /** Python's slice `s[:n]` for a non-negative `n`. */
  function Truncate(s: string, n: nat): (r: string)
    ensures |r| == if |s| <= n then |s| else n
    ensures r == s[..|r|]
  {
    if |s| <= n then s else s[..n]
  }

  function Occurrences(s: string, c: char): nat {
    if s == [] then 0 else (if s[0] == c then 1 else 0) + Occurrences(s[1..], c)
  }

  /**
   * `s.replace("\n", "\\n")`: every line feed becomes a backslash followed
   * by `n`; every other character is kept in place.
   */
  function EscapeNewlines(s: string): (r: string)
    ensures '\n' !in r
    ensures |r| == |s| + Occurrences(s, '\n')
    ensures '\n' !in s ==> r == s
  {
    if s == [] then []
    else EscapeNewline(s[0]) + EscapeNewlines(s[1..])
  }

  /** What `replace("\n", "\\n")` puts in place of one character. */
  function EscapeNewline(c: char): (r: string)
    ensures |r| == if c == '\n' then 2 else 1
    ensures '\n' !in r
    ensures c != '\n' ==> r == [c]
  {
    if c == '\n' then ['\\', 'n'] else [c]
  }

  /** A line feed becomes a backslash and `n`; any other character stays as it is. */
  lemma EscapeNewlinesChar(c: char)
    ensures EscapeNewlines([c]) == if c == '\n' then "\\n" else [c]
  {
    assert [c][1..] == [];
  }

  /** Escaping works piece by piece, so every character is replaced where it stands. */
  lemma {:induction false} EscapeNewlinesAppend(a: string, b: string)
    ensures EscapeNewlines(a + b) == EscapeNewlines(a) + EscapeNewlines(b)
    decreases |a|
  {
    if a == [] {
      assert a + b == b;
    } else {
      assert (a + b)[1..] == a[1..] + b;
      EscapeNewlinesAppend(a[1..], b);
    }
  }

  function DigitChar(d: nat): char
    requires d < 10
  {
    "0123456789"[d]
  }

  function DigitValue(c: char): nat {
    if '0' <= c <= '9' then (c as int - '0' as int) as nat else 0
  }

  predicate IsDigits(s: string) {
    forall k :: 0 <= k < |s| ==> '0' <= s[k] <= '9'
  }

  /** Decimal digits of a natural number, as `str(n)` writes them. */
  function NatToDecimal(n: nat): (r: string)
    ensures |r| >= 1 && IsDigits(r)
    ensures r[0] == '0' ==> n == 0
  {
    if n < 10 then [DigitChar(n)] else NatToDecimal(n / 10) + [DigitChar(n % 10)]
  }

  /** `str(i)` (equivalently `f"{i}"`) for any Python int. */
  function IntToDecimal(i: int): (r: string)
    ensures |r| >= 1
    ensures (r[0] == '-') <==> i < 0
    ensures i >= 0 ==> IsDigits(r) && DecimalValue(r) == i
    ensures i < 0 ==> IsDigits(r[1..]) && DecimalValue(r[1..]) == -i
  {
    if i < 0 then
      DecimalRoundTrip(-i);
      Signed(NatToDecimal(-i))
    else
      DecimalRoundTrip(i);
      NatToDecimal(i)
  }

  /** A minus sign in front of `d`. */
  function Signed(d: string): (r: string)
    ensures |r| == |d| + 1 && r[0] == '-' && r[1..] == d
  {
    ['-'] + d
  }

  /** The value a string of decimal digits denotes. */
  function DecimalValue(s: string): nat {
    if s == [] then 0 else DecimalValue(s[..|s| - 1]) * 10 + DigitValue(s[|s| - 1])
  }

  /** Reading back the digits of `NatToDecimal(n)` gives `n`. */
  lemma {:induction false} DecimalRoundTrip(n: nat)
    ensures DecimalValue(NatToDecimal(n)) == n
  {
    var r := NatToDecimal(n);
    if n < 10 {
      assert r[..|r| - 1] == [];
    } else {
      var p := NatToDecimal(n / 10);
      assert r == p + [DigitChar(n % 10)];
      assert r[..|r| - 1] == p;
      DecimalRoundTrip(n / 10);
    }
  }

  /** Python's `<` on `str`: lexicographic order of code points. */
  predicate StrLt(a: string, b: string) {
    if a == [] then b != []
    else b != [] && (a[0] < b[0] || (a[0] == b[0] && StrLt(a[1..], b[1..])))
  }

  lemma {:induction false} StrLtIrreflexive(a: string)
    ensures !StrLt(a, a)
  {
    if a != [] { StrLtIrreflexive(a[1..]); }
  }

  lemma {:induction false} StrLtAsymmetric(a: string, b: string)
    ensures StrLt(a, b) ==> !StrLt(b, a)
  {
    if a != [] && b != [] && a[0] == b[0] { StrLtAsymmetric(a[1..], b[1..]); }
  }

  lemma {:induction false} StrLtTransitive(a: string, b: string, c: string)
    requires StrLt(a, b) && StrLt(b, c)
    ensures StrLt(a, c)
  {
    if a != [] && a[0] == b[0] && b[0] == c[0] {
      StrLtTransitive(a[1..], b[1..], c[1..]);
    }
  }

  lemma {:induction false} StrLtTotal(a: string, b: string)
    ensures a == b || StrLt(a, b) || StrLt(b, a)
  {
    if a != [] && b != [] && a[0] == b[0] {
      StrLtTotal(a[1..], b[1..]);
      if a[1..] == b[1..] { assert a == [a[0]] + a[1..] && b == [b[0]] + b[1..]; }
    }
  }

  lemma StrLtIsStrictOrder()
    ensures forall a, b :: StrLt(a, b) ==> !StrLt(b, a)
  {
    forall a, b ensures StrLt(a, b) ==> !StrLt(b, a) { StrLtAsymmetric(a, b); }
  }

  /** `m` comes before every other element of `ks`. */
  predicate IsLeast(m: string, ks: set<string>) {
    m in ks && forall y :: y in ks && y != m ==> StrLt(m, y)
  }

  lemma {:induction false} LeastExists(ks: set<string>)
    requires ks != {}
    ensures exists m :: IsLeast(m, ks)
    decreases ks
  {
    var x :| x in ks;
    if ks == {x} {
      assert IsLeast(x, ks);
    } else {
      LeastExists(ks - {x});
      var m :| IsLeast(m, ks - {x});
      StrLtTotal(x, m);
      if StrLt(x, m) {
        forall y | y in ks && y != x ensures StrLt(x, y) {
          if y != m { StrLtTransitive(x, m, y); }
        }
        assert IsLeast(x, ks);
      } else {
        assert IsLeast(m, ks);
      }
    }
  }

  /** The smallest element of a non-empty set of strings. */
  function Least(ks: set<string>): (m: string)
    requires ks != {}
    ensures IsLeast(m, ks)
  {
    LeastExists(ks);
    StrLtIsStrictOrder();
    var m :| IsLeast(m, ks);
    m
  }

  /**
   * The keys of a dict in the order `sorted(d)` lists them: every key once,
   * in strictly increasing code-point order.
   */
  function SortedKeys(ks: set<string>): (r: seq<string>)
    ensures |r| == |ks|
    ensures forall k :: k in ks <==> k in r
    ensures forall i, j :: 0 <= i < j < |r| ==> StrLt(r[i], r[j])
    decreases ks
  {
    if ks == {} then []
    else
      var m := Least(ks);
      var rest := SortedKeys(ks - {m});
      assert forall j :: 0 <= j < |rest| ==> rest[j] in ks - {m};
      [m] + rest
  }

  /** `sep.join(parts)`. */
  function Join(sep: string, parts: seq<string>): string {
    if parts == [] then ""
    else if |parts| == 1 then parts[0]
    else parts[0] + sep + Join(sep, parts[1..])
  }

  /** A join ends as its last part does. */
  lemma {:induction false} JoinEndsWithLast(sep: string, parts: seq<string>)
    requires |parts| > 0 && |parts[|parts| - 1]| > 0
    ensures var j := Join(sep, parts); var last := parts[|parts| - 1];
            |j| >= |last| && j[|j| - |last|..] == last
  {
    if |parts| > 1 {
      JoinEndsWithLast(sep, parts[1..]);
      var rest := Join(sep, parts[1..]);
      assert Join(sep, parts) == (parts[0] + sep) + rest;
    }
  }

  // ---------------------------------------------------------------------
  // repr() of a string, as `str(list)` writes each element
  // ---------------------------------------------------------------------

  function HexDigit(d: nat): char
    requires d < 16
  {
    "0123456789abcdef"[d]
  }

  function HexValue(c: char): nat {
    if '0' <= c <= '9' then (c as int - '0' as int) as nat
    else if 'a' <= c <= 'f' then (c as int - 'a' as int + 10) as nat
    else 0
  }

  /** The quote `repr` puts around `s`: a double quote when `s` has a single quote and no double quote. */
  function ReprQuote(s: string): (q: char)
    ensures q == '\'' || q == '"'
    ensures q == '"' <==> ('\'' in s && '"' !in s)
  {
    if '\'' in s && '"' !in s then '"' else '\''
  }

  /** How `repr` writes one character inside quotes `q`. */
  function EscapeChar(c: char, q: char): (r: string)
    ensures |r| >= 1
    ensures r[0] != '\\' ==> r == [c]
    ensures !(c == q || c == '\\' || c < ' ' || c == '\U{7f}') ==> r == [c]
    ensures c == q || c == '\\' ==> r == ['\\', c]
    ensures c != q && c == '\t' ==> r == "\\t"
    ensures c != q && c == '\n' ==> r == "\\n"
    ensures c != q && c == '\r' ==> r == "\\r"
    ensures c != q && c != '\t' && c != '\n' && c != '\r' && (c < ' ' || c == '\U{7f}') ==>
      r == ['\\', 'x', HexDigit(c as int / 16), HexDigit(c as int % 16)]
  {
    if c == q || c == '\\' then ['\\', c]
    else if c == '\t' then "\\t"
    else if c == '\n' then "\\n"
    else if c == '\r' then "\\r"
    else if c < ' ' || c == '\U{7f}' then ['\\', 'x', HexDigit(c as int / 16), HexDigit(c as int % 16)]
    else [c]
  }

  /** The characters of `s` as `repr` writes them between quotes `q`. */
  function Escape(s: string, q: char): string {
    if s == [] then [] else EscapeChar(s[0], q) + Escape(s[1..], q)
  }

  /** `repr(s)` for a `str`; non-ASCII characters are taken as printable. */
  function Repr(s: string): (r: string)
    ensures |r| >= 2 && r[0] == r[|r| - 1] == ReprQuote(s)
  {
    var q := ReprQuote(s);
    [q] + Escape(s, q) + [q]
  }

  /** Reading back what `Escape` wrote: each backslash sequence stands for one character. */
  function Unescape(t: string): string {
    if t == [] then []
    else if t[0] == '\\' && |t| >= 4 && t[1] == 'x' then
      [(HexValue(t[2]) * 16 + HexValue(t[3])) as char] + Unescape(t[4..])
    else if t[0] == '\\' && |t| >= 2 then
      [if t[1] == 't' then '\t' else if t[1] == 'n' then '\n' else if t[1] == 'r' then '\r' else t[1]]
      + Unescape(t[2..])
    else [t[0]] + Unescape(t[1..])
  }

  /** The text between the quotes of a `repr`, read back. */
  function Unrepr(r: string): string
    requires |r| >= 2
  {
    Unescape(r[1..|r| - 1])
  }

  lemma UnescapeEscapeChar(c: char, q: char, rest: string)
    requires q == '\'' || q == '"'
    ensures Unescape(EscapeChar(c, q) + rest) == [c] + Unescape(rest)
  {
    var e := EscapeChar(c, q);
    if c == q || c == '\\' || c == '\t' || c == '\n' || c == '\r' {
      assert |e| == 2 && e[0] == '\\' && e[1] != 'x';
      UnescapeTwo(e, rest);
    } else if c < ' ' || c == '\U{7f}' {
      UnescapeHex(c, rest);
    } else {
      assert e == [c] && c != '\\';
      assert (e + rest)[1..] == rest;
    }
  }

  /** A two-character escape reads back as its second character, or the control character it names. */
  lemma UnescapeTwo(e: string, rest: string)
    requires |e| == 2 && e[0] == '\\' && e[1] != 'x'
    ensures Unescape(e + rest)
         == [if e[1] == 't' then '\t' else if e[1] == 'n' then '\n' else if e[1] == 'r' then '\r' else e[1]]
            + Unescape(rest)
  {
    assert (e + rest)[0] == '\\' && (e + rest)[1] == e[1];
    assert (e + rest)[2..] == rest;
  }

  /** A `\xhh` escape of a control character reads back as that character. */
  lemma UnescapeHex(c: char, rest: string)
    requires c < ' ' || c == '\U{7f}'
    ensures Unescape(['\\', 'x', HexDigit(c as int / 16), HexDigit(c as int % 16)] + rest) == [c] + Unescape(rest)
  {
    var e := ['\\', 'x', HexDigit(c as int / 16), HexDigit(c as int % 16)];
    assert (e + rest)[0] == '\\' && (e + rest)[1] == 'x';
    assert (e + rest)[2] == e[2] && (e + rest)[3] == e[3];
    assert (e + rest)[4..] == rest;
    HexDigitValue(c as int / 16);
    HexDigitValue(c as int % 16);
  }

  /** A hex digit reads back as the value it was written for. */
  lemma HexDigitValue(d: nat)
    requires d < 16
    ensures HexValue(HexDigit(d)) == d
  {
  }

  lemma {:induction false} UnescapeEscape(s: string, q: char)
    requires q == '\'' || q == '"'
    ensures Unescape(Escape(s, q)) == s
  {
    if s != [] {
      UnescapeEscapeChar(s[0], q, Escape(s[1..], q));
      UnescapeEscape(s[1..], q);
    }
  }

  /** `repr` loses nothing: the quoted text reads back as the original string. */
  lemma ReprRoundTrip(s: string)
    ensures Unrepr(Repr(s)) == s
  {
    var r := Repr(s);
    assert r[1..|r| - 1] == Escape(s, ReprQuote(s));
    UnescapeEscape(s, ReprQuote(s));
  }

  /** The `repr` of each string, in order; each reads back as its string. */
  function Reprs(items: seq<string>): (r: seq<string>)
    ensures |r| == |items|
    ensures forall i :: 0 <= i < |r| ==> |r[i]| >= 2 && Unrepr(r[i]) == items[i]
  {
    ReprsRoundTrip(items);
    seq(|items|, i requires 0 <= i < |items| => Repr(items[i]))
  }

  lemma ReprsRoundTrip(items: seq<string>)
    ensures forall i :: 0 <= i < |items| ==> Unrepr(Repr(items[i])) == items[i]
  {
    forall i | 0 <= i < |items|
      ensures Unrepr(Repr(items[i])) == items[i]
    {
      ReprRoundTrip(items[i]);
    }
  }

  /** `str(lst)` for a list of strings: the elements' `repr`s, comma-separated, in brackets. */
  function ListStr(items: seq<string>): (r: string)
    ensures |r| >= 2 && r[0] == '[' && r[|r| - 1] == ']'
    ensures r[1..|r| - 1] == Join(", ", Reprs(items))
    ensures items == [] ==> r == "[]"
    ensures |items| == 1 ==> r == "[" + Repr(items[0]) + "]"
  {
    var j := Join(", ", Reprs(items));
    assert ("[" + j + "]")[1..|j| + 1] == j;
    "[" + j + "]"
  }
}
