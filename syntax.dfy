/**
 * Line classification for the INI-style format: `str.strip`, the section
 * pattern and the item pattern, written as scanners over characters, each
 * proved equal to a declarative description of the pattern it replaces.
 */
module Syntax {
  import opened Wrappers

  /** What `\s` and `str.strip()` treat as whitespace in a byte string: space, \t, \n, \v, \f, \r. */
  predicate IsSpace(c: char)
  {
    c == ' ' || '\t' <= c <= '\r'
  }

  predicate AllSpace(s: string)
  {
    forall i | 0 <= i < |s| :: IsSpace(s[i])
  }

  /** A character of a section name: `[^[\]#]`. */
  predicate IsSectionChar(c: char)
  {
    c != '[' && c != ']' && c != '#'
  }

  /** A character of an item name or value: `[^=#\s]`. */
  predicate IsTokenChar(c: char)
  {
    c != '=' && c != '#' && !IsSpace(c)
  }

  predicate ValidSectionName(s: string)
  {
    |s| > 0 && forall i | 0 <= i < |s| :: IsSectionChar(s[i])
  }

  predicate ValidToken(s: string)
  {
    |s| > 0 && forall i | 0 <= i < |s| :: IsTokenChar(s[i])
  }

  /** `#.*`: a '#' and the rest of the line (`.` does not match a line break). */
  predicate IsComment(s: string)
  {
    |s| > 0 && s[0] == '#' && forall i | 0 < i < |s| :: s[i] != '\n'
  }

  /** `[\s]*(#.*)?$`: trailing whitespace, an optional comment, and the end of the text. */
  predicate Trailer(s: string)
    decreases |s|
  {
    s == [] || IsComment(s) || (IsSpace(s[0]) && Trailer(s[1..]))
  }

  /** The longest prefix of `s` whose characters satisfy `p`, and the rest. */
  function TakeWhile(p: char -> bool, s: string): (r: (string, string))
    ensures r.0 + r.1 == s
    ensures forall k | 0 <= k < |r.0| :: p(r.0[k])
    ensures r.1 == [] || !p(r.1[0])
    decreases |s|
  {
    if s != [] && p(s[0]) then
      var (a, b) := TakeWhile(p, s[1..]);
      ([s[0]] + a, b)
    else
      ([], s)
  }

  /** A run is determined by where it stops. */
  lemma {:induction false} TakeWhileOver(p: char -> bool, m: string, x: string)
    requires forall k | 0 <= k < |m| :: p(m[k])
    requires x == [] || !p(x[0])
    ensures TakeWhile(p, m + x) == (m, x)
    decreases |m|
  {
    if m != [] {
      assert (m + x)[1..] == m[1..] + x;
      TakeWhileOver(p, m[1..], x);
      assert [m[0]] + m[1..] == m;
    } else {
      assert m + x == x;
    }
  }

  /** `s` without its leading whitespace. */
  function TrimLeft(s: string): string
  {
    TakeWhile(IsSpace, s).1
  }

  /** `s` without its trailing whitespace. */
  function TrimRight(s: string): (r: string)
    ensures |r| <= |s| && r == s[..|r|]
    ensures AllSpace(s[|r|..])
    ensures r == [] || !IsSpace(r[|r| - 1])
    decreases |s|
  {
    if |s| > 0 && IsSpace(s[|s| - 1]) then
      var r := TrimRight(s[..|s| - 1]);
      assert s[..|s| - 1][|r|..] + [s[|s| - 1]] == s[|r|..];
      r
    else
      s
  }

  /** Python's `line.strip()`: the text between the leading and the trailing whitespace. */
  function Strip(s: string): (r: string)
    ensures r == [] || (!IsSpace(r[0]) && !IsSpace(r[|r| - 1]))
  {
    var (w, a) := TakeWhile(IsSpace, s);
    var r := TrimRight(a);
    assert r != [] ==> r[0] == a[0];
    r
  }

  /** `strip()` removes whitespace only, and only at the two ends. */
  lemma StripSound(s: string)
    ensures exists w, x :: AllSpace(w) && AllSpace(x) && s == w + Strip(s) + x
  {
    var p := TakeWhile(IsSpace, s);
    var w, a := p.0, p.1;
    var r := TrimRight(a);
    assert Strip(s) == r;
    var x := a[|r|..];
    assert a == a[..|r|] + x;
    assert a == r + x;
    assert s == w + a;
    assert s == w + r + x;
    assert AllSpace(w) && AllSpace(x);
  }

  /** A text stripped of surrounding whitespace is its own `strip()`. */
  lemma StripUnchanged(s: string)
    requires s == [] || (!IsSpace(s[0]) && !IsSpace(s[|s| - 1]))
    ensures Strip(s) == s
  {
    assert s == [] + s;
    TakeWhileOver(IsSpace, [], s);
  }

  /**
   * The section pattern `^[\s]*\[([^[\]#]+)\][\s]*(#.*)?$`: the section
   * name it captures, or None when `t` does not match. Exact on stripped
   * text, the only text it is applied to: such text cannot end in a
   * newline, so Python's `$` matching before a final `\n` does not arise.
   */
  function SectionName(t: string): (r: Option<string>)
    ensures r.Some? ==> ValidSectionName(r.value)
  {
    var a := TrimLeft(t);
    if a != [] && a[0] == '[' then
      var (n, b) := TakeWhile(IsSectionChar, a[1..]);
      if n != [] && b != [] && b[0] == ']' && Trailer(b[1..]) then Some(n) else None
    else
      None
  }

  /**
   * The item pattern `^[\s]*([^=#\s]+)[\s]*=[\s]*([^=#\s]+)[\s]*(#.*)?$`:
   * the captured name and value, or None when `t` does not match. Exact
   * on stripped text, as for `SectionName`.
   */
  function ItemPair(t: string): (r: Option<(string, string)>)
    ensures r.Some? ==> ValidToken(r.value.0) && ValidToken(r.value.1)
  {
    var (n, a) := TakeWhile(IsTokenChar, TrimLeft(t));
    var b := TrimLeft(a);
    if n != [] && b != [] && b[0] == '=' then
      match ItemValue(b[1..])
      case Some(v) => Some((n, v))
      case None => None
    else
      None
  }

  /** The tail `[\s]*([^=#\s]+)[\s]*(#.*)?$` of the item pattern, after the '=': the value. */
  function ItemValue(s: string): (r: Option<string>)
    ensures r.Some? ==> ValidToken(r.value)
  {
    var (v, c) := TakeWhile(IsTokenChar, TrimLeft(s));
    if v != [] && Trailer(c) then Some(v) else None
  }

  /** `t` is a section line naming section `n`, read off the pattern. */
  ghost predicate MatchesSection(t: string, n: string)
  {
    exists w, r :: AllSpace(w) && Trailer(r) && ValidSectionName(n) && t == w + ("[" + (n + ("]" + r)))
  }

  /** `t` is an item line assigning `v` to `n`, read off the pattern. */
  ghost predicate MatchesItem(t: string, n: string, v: string)
  {
    exists w0, w1, w2, r :: AllSpace(w0) && AllSpace(w1) && AllSpace(w2) && Trailer(r)
      && ValidToken(n) && ValidToken(v) && t == w0 + (n + (w1 + ("=" + (w2 + (v + r)))))
  }

  lemma SectionNameComplete(w: string, n: string, r: string)
    requires AllSpace(w) && Trailer(r) && ValidSectionName(n)
    ensures SectionName(w + ("[" + (n + ("]" + r)))) == Some(n)
  {
    var x := "[" + (n + ("]" + r));
    TakeWhileOver(IsSpace, w, x);
    assert x[1..] == n + ("]" + r);
    TakeWhileOver(IsSectionChar, n, "]" + r);
    assert ("]" + r)[1..] == r;
  }

  lemma SectionNameSound(t: string)
    requires SectionName(t).Some?
    ensures MatchesSection(t, SectionName(t).value)
  {
    var (w, a) := TakeWhile(IsSpace, t);
    var (n, b) := TakeWhile(IsSectionChar, a[1..]);
    assert a == "[" + a[1..];
    assert b == "]" + b[1..];
    assert AllSpace(w);
    assert t == w + ("[" + (n + ("]" + b[1..])));
  }

  /** The scanner and the section pattern agree, in both directions. */
  lemma SectionNameMatches(t: string, n: string)
    ensures SectionName(t) == Some(n) <==> MatchesSection(t, n)
  {
    if SectionName(t) == Some(n) {
      SectionNameSound(t);
    }
    if MatchesSection(t, n) {
      var w, r :| AllSpace(w) && Trailer(r) && ValidSectionName(n) && t == w + ("[" + (n + ("]" + r)));
      SectionNameComplete(w, n, r);
    }
  }

  /** A trailer that is not empty starts with whitespace or '#'. */
  lemma TrailerStart(r: string)
    requires Trailer(r) && r != []
    ensures !IsTokenChar(r[0])
  {
  }

  lemma ItemValueComplete(w2: string, v: string, r: string)
    requires AllSpace(w2) && Trailer(r) && ValidToken(v)
    ensures ItemValue(w2 + (v + r)) == Some(v)
  {
    TakeWhileOver(IsSpace, w2, v + r);
    if r != [] {
      TrailerStart(r);
    }
    TakeWhileOver(IsTokenChar, v, r);
  }

  lemma ItemPairComplete(w0: string, n: string, w1: string, w2: string, v: string, r: string)
    requires AllSpace(w0) && AllSpace(w1) && AllSpace(w2) && Trailer(r)
    requires ValidToken(n) && ValidToken(v)
    ensures ItemPair(w0 + (n + (w1 + ("=" + (w2 + (v + r)))))) == Some((n, v))
  {
    var b := "=" + (w2 + (v + r));
    var a := w1 + b;
    TakeWhileOver(IsSpace, w0, n + a);
    assert a[0] == if w1 == [] then '=' else w1[0];
    TakeWhileOver(IsTokenChar, n, a);
    TakeWhileOver(IsSpace, w1, b);
    assert b[1..] == w2 + (v + r);
    ItemValueComplete(w2, v, r);
  }

  lemma ItemPairSound(t: string)
    requires ItemPair(t).Some?
    ensures MatchesItem(t, ItemPair(t).value.0, ItemPair(t).value.1)
  {
    var (w0, a0) := TakeWhile(IsSpace, t);
    var (n, a) := TakeWhile(IsTokenChar, a0);
    var (w1, b) := TakeWhile(IsSpace, a);
    var (w2, c) := TakeWhile(IsSpace, b[1..]);
    var (v, r) := TakeWhile(IsTokenChar, c);
    assert b == "=" + b[1..];
    assert AllSpace(w0) && AllSpace(w1) && AllSpace(w2);
    assert t == w0 + (n + (w1 + ("=" + (w2 + (v + r)))));
  }

  /** The scanner and the item pattern agree, in both directions. */
  lemma ItemPairMatches(t: string, n: string, v: string)
    ensures ItemPair(t) == Some((n, v)) <==> MatchesItem(t, n, v)
  {
    if ItemPair(t) == Some((n, v)) {
      ItemPairSound(t);
    }
    if MatchesItem(t, n, v) {
      var w0, w1, w2, r :| AllSpace(w0) && AllSpace(w1) && AllSpace(w2) && Trailer(r)
        && ValidToken(n) && ValidToken(v) && t == w0 + (n + (w1 + ("=" + (w2 + (v + r)))));
      ItemPairComplete(w0, n, w1, w2, v, r);
    }
  }

  /** How the parser reads one line. */
  datatype LineKind = Ignored | Header(section: string) | Item(name: string, value: string) | Malformed

  /** A stripped line that is blank or a whole-line comment. */
  predicate Ignorable(t: string)
  {
    |t| == 0 || t[0] == '#'
  }

  /**
   * The classification `_parse_file` gives a raw line: blank or comment
   * first, then the section pattern, then the item pattern, all on the
   * stripped line.
   */
  function Classify(line: string): (k: LineKind)
    ensures k.Ignored? <==> Ignorable(Strip(line))
    ensures k.Header? ==> ValidSectionName(k.section)
    ensures k.Item? ==> ValidToken(k.name) && ValidToken(k.value)
  {
    var t := Strip(line);
    if Ignorable(t) then Ignored
    else match SectionName(t)
      case Some(s) => Header(s)
      case None =>
        match ItemPair(t)
        case Some((n, v)) => Item(n, v)
        case None => Malformed
  }

  /** A header line is exactly a stripped line that fits the section pattern. */
  lemma ClassifyHeader(line: string, n: string)
    ensures Classify(line) == Header(n) <==> MatchesSection(Strip(line), n)
  {
    var t := Strip(line);
    SectionNameMatches(t, n);
    if SectionName(t) == Some(n) {
      SectionNotIgnorable(t);
    }
  }

  /** Text the section pattern fits is neither blank nor a comment. */
  lemma SectionNotIgnorable(t: string)
    requires SectionName(t).Some?
    ensures !Ignorable(t)
  {
  }

  /**
   * An item line is exactly a stripped line that fits the item pattern and
   * not the section pattern (the section pattern is tried first).
   */
  lemma ClassifyItem(line: string, n: string, v: string)
    ensures Classify(line) == Item(n, v) <==>
      (forall h :: !MatchesSection(Strip(line), h)) && MatchesItem(Strip(line), n, v)
  {
    if Classify(line) == Item(n, v) {
      ClassifiedItemMatches(line, n, v);
    }
    if (forall h :: !MatchesSection(Strip(line), h)) && MatchesItem(Strip(line), n, v) {
      MatchingItemClassified(line, n, v);
    }
  }

  lemma ClassifiedItemMatches(line: string, n: string, v: string)
    requires Classify(line) == Item(n, v)
    ensures forall h :: !MatchesSection(Strip(line), h)
    ensures MatchesItem(Strip(line), n, v)
  {
    var t := Strip(line);
    assert SectionName(t).None? && ItemPair(t) == Some((n, v));
    ItemPairSound(t);
    forall h
      ensures !MatchesSection(t, h)
    {
      SectionNameMatches(t, h);
    }
  }

  lemma MatchingItemClassified(line: string, n: string, v: string)
    requires forall h :: !MatchesSection(Strip(line), h)
    requires MatchesItem(Strip(line), n, v)
    ensures Classify(line) == Item(n, v)
  {
    var t := Strip(line);
    ItemPairMatches(t, n, v);
    ItemNotIgnorable(t);
    NoSectionMatch(t);
  }

  /** Text the item pattern fits is neither blank nor a comment. */
  lemma ItemNotIgnorable(t: string)
    requires ItemPair(t).Some?
    ensures !Ignorable(t)
  {
  }

  lemma NoSectionMatch(t: string)
    requires forall h :: !MatchesSection(t, h)
    ensures SectionName(t).None?
  {
    if SectionName(t).Some? {
      SectionNameSound(t);
    }
  }

  lemma ClassifyMalformed(line: string)
    ensures Classify(line) == Malformed <==>
      !Ignorable(Strip(line)) && (forall h :: !MatchesSection(Strip(line), h))
        && (forall n, v :: !MatchesItem(Strip(line), n, v))
  {
    var t := Strip(line);
    if SectionName(t).Some? {
      SectionNameSound(t);
    }
    if ItemPair(t).Some? {
      ItemPairSound(t);
    }
    forall h | Classify(line) == Malformed
      ensures !MatchesSection(t, h)
    {
      SectionNameMatches(t, h);
    }
    forall n, v | Classify(line) == Malformed
      ensures !MatchesItem(t, n, v)
    {
      ItemPairMatches(t, n, v);
    }
  }
}
