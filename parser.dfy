/**
 * What `_parse_file` computes from the lines of one source: the state its
 * loop carries from line to line, the first error it raises, and how the
 * result is committed into the item tree.
 */
module Parser {
  import opened Wrappers
  import opened Syntax
  import opened ConfigTree

  /** The loop's variables: `current_section` and `found_items`. */
  datatype ParseState = ParseState(current: Option<string>, found: map<string, Tree>)

  /** The items recorded so far under section `s` (none if it is not open). */
  function SectionItems(found: map<string, Tree>, s: string): map<string, Tree>
  {
    if s in found then ChildMap(found[s]) else map[]
  }

  /** One iteration of the loop, on raw line `line` numbered `lineNum` from 1. */
  function Step(sectionMatters: bool, source: string, st: ParseState, line: string, lineNum: nat): Result<ParseState, Error>
  {
    match Classify(line)
    case Ignored => Ok(st)
    case Header(s) =>
      if sectionMatters then Ok(ParseState(Some(s), st.found[s := Node(map[])])) else Ok(st)
    case Item(n, v) =>
      if !sectionMatters then
        Ok(st.(found := st.found[n := Leaf(v)]))
      else if st.current.None? then
        Err(ParsingError(source, line, lineNum))
      else
        var s := st.current.value;
        Ok(st.(found := st.found[s := Node(SectionItems(st.found, s)[n := Leaf(v)])]))
    case Malformed => Err(ParsingError(source, line, lineNum))
  }

  /** The loop's state after the lines of `lines`, or the error it stopped with. */
  function Scan(sectionMatters: bool, source: string, lines: seq<string>): Result<ParseState, Error>
    decreases |lines|
  {
    if lines == [] then
      Ok(ParseState(None, map[]))
    else
      match Scan(sectionMatters, source, lines[..|lines| - 1])
      case Err(e) => Err(e)
      case Ok(st) => Step(sectionMatters, source, st, lines[|lines| - 1], |lines|)
  }

  /** The line `Step` refuses in state `st`. */
  predicate Rejects(sectionMatters: bool, st: ParseState, line: string)
  {
    Classify(line).Malformed? || (sectionMatters && Classify(line).Item? && st.current.None?)
  }

  /**
   * `_item_tree` after a successful parse: with files, the source's
   * sections or items replace whatever was stored under its name; without,
   * they are merged into the root and replace same-named keys.
   */
  function Commit(tree: map<string, Tree>, fileMatters: bool, source: string, found: map<string, Tree>): (r: map<string, Tree>)
    ensures fileMatters ==> r.Keys == tree.Keys + {source} && r[source] == Node(found)
    ensures fileMatters ==> forall k | k in tree && k != source :: r[k] == tree[k]
    ensures !fileMatters ==> r.Keys == tree.Keys + found.Keys
    ensures !fileMatters ==> forall k | k in found :: r[k] == found[k]
    ensures !fileMatters ==> forall k | k in tree && k !in found :: r[k] == tree[k]
  {
    if fileMatters then tree[source := Node(found)] else tree + found
  }

  // ---------------------------------------------------------------------
  // Reference definitions: what a source says, read line by line.

  /** The section named by the last header line of `lines`, if any. */
  function LastHeader(lines: seq<string>): Option<string>
    decreases |lines|
  {
    if lines == [] then None
    else match Classify(lines[|lines| - 1])
      case Header(h) => Some(h)
      case _ => LastHeader(lines[..|lines| - 1])
  }

  /** Some line of `lines` is a header of section `s`. */
  predicate HasHeader(lines: seq<string>, s: string)
    decreases |lines|
  {
    lines != [] && (Classify(lines[|lines| - 1]) == Header(s) || HasHeader(lines[..|lines| - 1], s))
  }

  /**
   * With sections: the value of the last item line for `n` that stands
   * under a header of `s` and after the last header of `s` (a header of
   * `s` discards what came before it).
   */
  function LastWriteIn(lines: seq<string>, s: string, n: string): Option<string>
    decreases |lines|
  {
    if lines == [] then None
    else
      var init := lines[..|lines| - 1];
      match Classify(lines[|lines| - 1])
      case Header(h) => if h == s then None else LastWriteIn(init, s, n)
      case Item(m, v) => if m == n && LastHeader(init) == Some(s) then Some(v) else LastWriteIn(init, s, n)
      case _ => LastWriteIn(init, s, n)
  }

  /** Without sections: the value of the last item line for `n`. */
  function LastWrite(lines: seq<string>, n: string): Option<string>
    decreases |lines|
  {
    if lines == [] then None
    else match Classify(lines[|lines| - 1])
      case Item(m, v) => if m == n then Some(v) else LastWrite(lines[..|lines| - 1], n)
      case _ => LastWrite(lines[..|lines| - 1], n)
  }

  /** The string stored at `found[s][n]`, if any. */
  function FoundIn(found: map<string, Tree>, s: string, n: string): Option<string>
  {
    if s in found && n in ChildMap(found[s]) && ChildMap(found[s])[n].Leaf? then
      Some(ChildMap(found[s])[n].value)
    else
      None
  }

  /** The string stored at `found[n]`, if any. */
  function FoundFlat(found: map<string, Tree>, n: string): Option<string>
  {
    if n in found && found[n].Leaf? then Some(found[n].value) else None
  }

  // ---------------------------------------------------------------------
  // Properties of the parse.

  /** Once a prefix fails, the whole source fails with the same error. */
  lemma {:induction false} ErrorPersists(sectionMatters: bool, source: string, lines: seq<string>, k: nat)
    requires k <= |lines|
    requires Scan(sectionMatters, source, lines[..k]).Err?
    ensures Scan(sectionMatters, source, lines) == Scan(sectionMatters, source, lines[..k])
    decreases |lines|
  {
    if k < |lines| {
      var init := lines[..|lines| - 1];
      assert init[..k] == lines[..k];
      ErrorPersists(sectionMatters, source, init, k);
    } else {
      assert lines[..k] == lines;
    }
  }

  /** One line further: the scan of a longer prefix is one `Step` past the shorter one. */
  lemma ScanNext(sectionMatters: bool, source: string, lines: seq<string>, i: nat, st: ParseState)
    requires i < |lines|
    requires Scan(sectionMatters, source, lines[..i]) == Ok(st)
    ensures Scan(sectionMatters, source, lines[..i + 1]) == Step(sectionMatters, source, st, lines[i], i + 1)
  {
    assert lines[..i + 1][..i] == lines[..i];
  }

  // How `Step` treats a line, one case of the loop of `_parse_file` at a time.

  lemma StepOnIgnorable(sectionMatters: bool, source: string, st: ParseState, line: string, lineNum: nat)
    requires Ignorable(Strip(line))
    ensures Step(sectionMatters, source, st, line, lineNum) == Ok(st)
  {
  }

  lemma StepOnHeader(sectionMatters: bool, source: string, st: ParseState, line: string, lineNum: nat, h: string)
    requires !Ignorable(Strip(line)) && SectionName(Strip(line)) == Some(h)
    ensures Step(sectionMatters, source, st, line, lineNum)
      == Ok(if sectionMatters then ParseState(Some(h), st.found[h := Node(map[])]) else st)
  {
  }

  lemma StepOnItem(sectionMatters: bool, source: string, st: ParseState, line: string, lineNum: nat, n: string, v: string)
    requires !Ignorable(Strip(line)) && SectionName(Strip(line)).None? && ItemPair(Strip(line)) == Some((n, v))
    ensures Step(sectionMatters, source, st, line, lineNum)
      == if !sectionMatters then Ok(st.(found := st.found[n := Leaf(v)]))
         else if st.current.None? then Err(ParsingError(source, line, lineNum))
         else Ok(st.(found := st.found[st.current.value := Node(SectionItems(st.found, st.current.value)[n := Leaf(v)])]))
  {
  }

  lemma StepOnMalformed(sectionMatters: bool, source: string, st: ParseState, line: string, lineNum: nat)
    requires !Ignorable(Strip(line)) && SectionName(Strip(line)).None? && ItemPair(Strip(line)).None?
    ensures Step(sectionMatters, source, st, line, lineNum) == Err(ParsingError(source, line, lineNum))
  {
  }

  /** A source that parses has every prefix parse. */
  lemma PrefixParses(sectionMatters: bool, source: string, lines: seq<string>, k: nat)
    requires k <= |lines|
    requires Scan(sectionMatters, source, lines).Ok?
    ensures Scan(sectionMatters, source, lines[..k]).Ok?
  {
    if Scan(sectionMatters, source, lines[..k]).Err? {
      ErrorPersists(sectionMatters, source, lines, k);
    }
  }

  /** The only way a line fails: it is refused, and is reported with its number. */
  lemma StepFails(sectionMatters: bool, source: string, st: ParseState, line: string, lineNum: nat)
    requires Step(sectionMatters, source, st, line, lineNum).Err?
    ensures Step(sectionMatters, source, st, line, lineNum) == Err(ParsingError(source, line, lineNum))
    ensures Rejects(sectionMatters, st, line)
  {
  }

  /**
   * `e` is a `ParsingError` naming `source`, the raw text of line
   * `e.lineNum` (1-based) of `lines`; every line before it was accepted and
   * that line is refused.
   */
  ghost predicate Located(sectionMatters: bool, source: string, lines: seq<string>, e: Error)
  {
    && e.ParsingError? && e.confFile == source
    && 1 <= e.lineNum <= |lines| && e.line == lines[e.lineNum - 1]
    && Scan(sectionMatters, source, lines[..e.lineNum - 1]).Ok?
    && Rejects(sectionMatters, Scan(sectionMatters, source, lines[..e.lineNum - 1]).value, e.line)
  }

  /** A failed parse reports the first line refused, with its number and raw text. */
  lemma {:induction false} ErrorLocated(sectionMatters: bool, source: string, lines: seq<string>)
    requires Scan(sectionMatters, source, lines).Err?
    ensures Located(sectionMatters, source, lines, Scan(sectionMatters, source, lines).error)
    decreases |lines|
  {
    var init := lines[..|lines| - 1];
    var r := Scan(sectionMatters, source, init);
    if r.Err? {
      ErrorLocated(sectionMatters, source, init);
      ErrorLocatedExtends(sectionMatters, source, lines, r.error);
    } else {
      ErrorAtLastLine(sectionMatters, source, lines, r.value);
    }
  }

  lemma ErrorLocatedExtends(sectionMatters: bool, source: string, lines: seq<string>, e: Error)
    requires lines != [] && Scan(sectionMatters, source, lines[..|lines| - 1]) == Err(e)
    requires Located(sectionMatters, source, lines[..|lines| - 1], e)
    ensures Scan(sectionMatters, source, lines) == Err(e)
    ensures Located(sectionMatters, source, lines, e)
  {
    var init := lines[..|lines| - 1];
    var k := e.lineNum - 1;
    assert init[..k] == lines[..k] && init[k] == lines[k];
  }

  lemma ErrorAtLastLine(sectionMatters: bool, source: string, lines: seq<string>, st: ParseState)
    requires lines != [] && Scan(sectionMatters, source, lines[..|lines| - 1]) == Ok(st)
    requires Scan(sectionMatters, source, lines).Err?
    ensures Scan(sectionMatters, source, lines) == Err(ParsingError(source, lines[|lines| - 1], |lines|))
    ensures Located(sectionMatters, source, lines, Scan(sectionMatters, source, lines).error)
  {
    var line := lines[|lines| - 1];
    assert Scan(sectionMatters, source, lines) == Step(sectionMatters, source, st, line, |lines|);
    StepFails(sectionMatters, source, st, line, |lines|);
  }

  /** A line that fits neither pattern makes the parse fail, at that line or before. */
  lemma MalformedLineFails(sectionMatters: bool, source: string, lines: seq<string>, k: nat)
    requires k < |lines| && Classify(lines[k]).Malformed?
    ensures Scan(sectionMatters, source, lines).Err?
    ensures Scan(sectionMatters, source, lines).error.ParsingError?
    ensures Scan(sectionMatters, source, lines).error.lineNum <= k + 1
  {
    var pre := lines[..k + 1];
    assert pre[..|pre| - 1] == lines[..k] && pre[|pre| - 1] == lines[k];
    var r := Scan(sectionMatters, source, lines[..k]);
    if r.Ok? {
      assert Scan(sectionMatters, source, pre) == Step(sectionMatters, source, r.value, lines[k], k + 1);
    }
    ErrorPersists(sectionMatters, source, lines, k + 1);
    ErrorLocated(sectionMatters, source, pre);
  }

  /** The current section is the last header seen. */
  lemma {:induction false} CurrentIsLastHeader(source: string, lines: seq<string>)
    requires Scan(true, source, lines).Ok?
    ensures Scan(true, source, lines).value.current == LastHeader(lines)
    decreases |lines|
  {
    if lines != [] {
      CurrentIsLastHeader(source, lines[..|lines| - 1]);
    }
  }

  /** With no header among `lines`, the last header is none. */
  lemma {:induction false} NoHeaderNoSection(lines: seq<string>)
    requires forall j | 0 <= j < |lines| :: !Classify(lines[j]).Header?
    ensures LastHeader(lines) == None
    decreases |lines|
  {
    if lines != [] {
      var init := lines[..|lines| - 1];
      assert forall j | 0 <= j < |init| :: init[j] == lines[j];
      NoHeaderNoSection(init);
    }
  }

  /** With sections, an item line that no header precedes makes the parse fail, at that line or before. */
  lemma ItemBeforeHeaderFails(source: string, lines: seq<string>, k: nat)
    requires k < |lines| && Classify(lines[k]).Item?
    requires forall j | 0 <= j < k :: !Classify(lines[j]).Header?
    ensures Scan(true, source, lines).Err?
    ensures Scan(true, source, lines).error.ParsingError?
    ensures Scan(true, source, lines).error.lineNum <= k + 1
  {
    var pre := lines[..k + 1];
    assert pre[..|pre| - 1] == lines[..k] && pre[|pre| - 1] == lines[k];
    var r := Scan(true, source, lines[..k]);
    if r.Ok? {
      CurrentIsLastHeader(source, lines[..k]);
      assert forall j | 0 <= j < k :: lines[..k][j] == lines[j];
      NoHeaderNoSection(lines[..k]);
      assert r.value.current.None?;
      assert Scan(true, source, pre) == Step(true, source, r.value, lines[k], k + 1);
    }
    ErrorPersists(true, source, lines, k + 1);
    ErrorLocated(true, source, pre);
  }

  /** `Step`'s new state does not depend on the line number. */
  lemma StepIgnoresLineNumber(sectionMatters: bool, source: string, st: ParseState, line: string, a: nat, b: nat)
    ensures Step(sectionMatters, source, st, line, a).Ok? == Step(sectionMatters, source, st, line, b).Ok?
    ensures Step(sectionMatters, source, st, line, a).Ok? ==>
      Step(sectionMatters, source, st, line, a).value == Step(sectionMatters, source, st, line, b).value
  {
  }

  /** A line the parser passes over without effect. */
  predicate Neutral(sectionMatters: bool, line: string)
  {
    Classify(line).Ignored? || (!sectionMatters && Classify(line).Header?)
  }

  /**
   * Blank lines and comments, and headers when sections do not matter,
   * change nothing: inserting one anywhere leaves whether the source parses,
   * and what it yields, as they were.
   */
  lemma {:induction false} NeutralLineIgnored(sectionMatters: bool, source: string, a: seq<string>, line: string, b: seq<string>)
    requires Neutral(sectionMatters, line)
    ensures Scan(sectionMatters, source, a + [line] + b).Ok? == Scan(sectionMatters, source, a + b).Ok?
    ensures Scan(sectionMatters, source, a + b).Ok? ==>
      Scan(sectionMatters, source, a + [line] + b).value == Scan(sectionMatters, source, a + b).value
    decreases |b|
  {
    var with := a + [line] + b;
    var without := a + b;
    if b == [] {
      assert with[..|with| - 1] == a;
      assert without == a;
    } else {
      var b' := b[..|b| - 1];
      var x := b[|b| - 1];
      assert with[..|with| - 1] == a + [line] + b';
      assert without[..|without| - 1] == a + b';
      assert with[|with| - 1] == x && without[|without| - 1] == x;
      NeutralLineIgnored(sectionMatters, source, a, line, b');
      var s1 := Scan(sectionMatters, source, a + [line] + b');
      if s1.Ok? {
        StepIgnoresLineNumber(sectionMatters, source, s1.value, x, |with|, |without|);
      }
    }
  }

  /** What the loop state holds between lines when sections matter. */
  ghost predicate SectionedState(st: ParseState)
  {
    && SectionsOk(st.found, true)
    && (st.current.Some? ==> st.current.value in st.found)
  }

  /** What the loop state holds between lines when sections do not matter. */
  ghost predicate FlatState(st: ParseState)
  {
    SectionsOk(st.found, false) && st.current.None?
  }

  lemma ItemsOkInsert(m: map<string, Tree>, n: string, v: string)
    requires ItemsOk(m) && ValidToken(n) && ValidToken(v)
    ensures ItemsOk(m[n := Leaf(v)])
  {
  }

  lemma SectionsOkOpen(found: map<string, Tree>, h: string)
    requires SectionsOk(found, true) && ValidSectionName(h)
    ensures SectionsOk(found[h := Node(map[])], true)
  {
  }

  lemma SectionsOkRecord(found: map<string, Tree>, c: string, n: string, v: string)
    requires SectionsOk(found, true) && c in found && ValidToken(n) && ValidToken(v)
    ensures SectionsOk(found[c := Node(SectionItems(found, c)[n := Leaf(v)])], true)
  {
    ItemsOkInsert(SectionItems(found, c), n, v);
  }

  /** Committing well-formed sections or items keeps the item tree well formed. */
  lemma CommitKeepsWellFormed(tree: map<string, Tree>, fileMatters: bool, sectionMatters: bool, source: string,
                              found: map<string, Tree>)
    requires WellFormedTree(tree, fileMatters, sectionMatters) && SectionsOk(found, sectionMatters)
    ensures WellFormedTree(Commit(tree, fileMatters, source, found), fileMatters, sectionMatters)
  {
  }

  lemma StepKeepsSectioned(source: string, st: ParseState, line: string, lineNum: nat)
    requires SectionedState(st) && Step(true, source, st, line, lineNum).Ok?
    ensures SectionedState(Step(true, source, st, line, lineNum).value)
  {
    var k := Classify(line);
    if k.Item? {
      SectionsOkRecord(st.found, st.current.value, k.name, k.value);
    } else if k.Header? {
      SectionsOkOpen(st.found, k.section);
    }
  }

  lemma StepKeepsFlat(source: string, st: ParseState, line: string, lineNum: nat)
    requires FlatState(st) && Step(false, source, st, line, lineNum).Ok?
    ensures FlatState(Step(false, source, st, line, lineNum).value)
  {
  }

  /**
   * Everything recorded is well formed: section names have no '[', ']' or
   * '#', item names and values are tokens without whitespace, '=' or '#'.
   */
  lemma {:induction false} ScanWellFormed(sectionMatters: bool, source: string, lines: seq<string>)
    requires Scan(sectionMatters, source, lines).Ok?
    ensures sectionMatters ==> SectionedState(Scan(sectionMatters, source, lines).value)
    ensures !sectionMatters ==> FlatState(Scan(sectionMatters, source, lines).value)
    decreases |lines|
  {
    if lines != [] {
      var init, line := lines[..|lines| - 1], lines[|lines| - 1];
      var r := Scan(sectionMatters, source, init);
      assert r.Ok?;
      ScanWellFormed(sectionMatters, source, init);
      assert Scan(sectionMatters, source, lines) == Step(sectionMatters, source, r.value, line, |lines|);
      if sectionMatters {
        StepKeepsSectioned(source, r.value, line, |lines|);
      } else {
        StepKeepsFlat(source, r.value, line, |lines|);
      }
    }
  }

  /** With sections, `st` records exactly what `lines` say. */
  ghost predicate RecordsIn(st: ParseState, lines: seq<string>)
  {
    && st.current == LastHeader(lines)
    && (forall s :: s in st.found <==> HasHeader(lines, s))
    && (forall s, n :: FoundIn(st.found, s, n) == LastWriteIn(lines, s, n))
  }

  /** How the last line of `lines` bears on `LastWriteIn`. */
  lemma LastWriteInLast(lines: seq<string>, s: string, m: string)
    requires lines != []
    ensures var init := lines[..|lines| - 1];
      LastWriteIn(lines, s, m) ==
        match Classify(lines[|lines| - 1])
        case Header(h) => if h == s then None else LastWriteIn(init, s, m)
        case Item(n, v) => if n == m && LastHeader(init) == Some(s) then Some(v) else LastWriteIn(init, s, m)
        case _ => LastWriteIn(init, s, m)
  {
  }

  lemma StepRecordsHeader(st: ParseState, lines: seq<string>, h: string)
    requires lines != [] && Classify(lines[|lines| - 1]) == Header(h)
    requires RecordsIn(st, lines[..|lines| - 1])
    ensures RecordsIn(ParseState(Some(h), st.found[h := Node(map[])]), lines)
  {
    var init := lines[..|lines| - 1];
    var found' := st.found[h := Node(map[])];
    forall s, m
      ensures FoundIn(found', s, m) == LastWriteIn(lines, s, m)
    {
      LastWriteInLast(lines, s, m);
      if s != h {
        assert FoundIn(found', s, m) == FoundIn(st.found, s, m);
        assert FoundIn(st.found, s, m) == LastWriteIn(init, s, m);
      }
    }
  }

  /** Recording `n = v` in open section `c` changes that one entry. */
  lemma FoundInRecord(found: map<string, Tree>, c: string, n: string, v: string, s: string, m: string)
    requires c in found
    ensures FoundIn(found[c := Node(SectionItems(found, c)[n := Leaf(v)])], s, m) ==
      if s == c && m == n then Some(v) else FoundIn(found, s, m)
  {
  }

  /** An item line changes neither the last header nor the set of headers. */
  lemma ItemKeepsHeaders(lines: seq<string>)
    requires lines != [] && Classify(lines[|lines| - 1]).Item?
    ensures LastHeader(lines) == LastHeader(lines[..|lines| - 1])
    ensures forall s :: HasHeader(lines, s) == HasHeader(lines[..|lines| - 1], s)
  {
  }

  lemma RecordItemAt(st: ParseState, lines: seq<string>, n: string, v: string, s: string, m: string)
    requires lines != [] && Classify(lines[|lines| - 1]) == Item(n, v)
    requires st.current == LastHeader(lines[..|lines| - 1]) && st.current.Some? && st.current.value in st.found
    requires FoundIn(st.found, s, m) == LastWriteIn(lines[..|lines| - 1], s, m)
    ensures var c := st.current.value;
      FoundIn(st.found[c := Node(SectionItems(st.found, c)[n := Leaf(v)])], s, m) == LastWriteIn(lines, s, m)
  {
    LastWriteInLast(lines, s, m);
    FoundInRecord(st.found, st.current.value, n, v, s, m);
  }

  lemma StepRecordsItem(st: ParseState, lines: seq<string>, n: string, v: string)
    requires lines != [] && Classify(lines[|lines| - 1]) == Item(n, v)
    requires RecordsIn(st, lines[..|lines| - 1]) && SectionedState(st) && st.current.Some?
    ensures var c := st.current.value;
      RecordsIn(st.(found := st.found[c := Node(SectionItems(st.found, c)[n := Leaf(v)])]), lines)
  {
    var init := lines[..|lines| - 1];
    var c := st.current.value;
    var found' := st.found[c := Node(SectionItems(st.found, c)[n := Leaf(v)])];
    ItemKeepsHeaders(lines);
    forall s, m
      ensures FoundIn(found', s, m) == LastWriteIn(lines, s, m)
    {
      assert FoundIn(st.found, s, m) == LastWriteIn(init, s, m);
      RecordItemAt(st, lines, n, v, s, m);
    }
    assert forall s :: s in found' <==> s in st.found;
  }

  lemma StepRecordsIgnored(st: ParseState, lines: seq<string>)
    requires lines != [] && Classify(lines[|lines| - 1]).Ignored?
    requires RecordsIn(st, lines[..|lines| - 1])
    ensures RecordsIn(st, lines)
  {
    var init := lines[..|lines| - 1];
    forall s, m
      ensures FoundIn(st.found, s, m) == LastWriteIn(lines, s, m)
    {
      LastWriteInLast(lines, s, m);
      assert FoundIn(st.found, s, m) == LastWriteIn(init, s, m);
    }
  }

  /**
   * With sections, the parse records exactly what the source says: the
   * sections with a header, and in each the value last written since its
   * last header.
   */
  lemma {:induction false} ScanRecordsLastWriteIn(source: string, lines: seq<string>)
    requires Scan(true, source, lines).Ok?
    ensures RecordsIn(Scan(true, source, lines).value, lines)
    decreases |lines|
  {
    if lines != [] {
      var init, line := lines[..|lines| - 1], lines[|lines| - 1];
      var r := Scan(true, source, init);
      assert r.Ok?;
      ScanRecordsLastWriteIn(source, init);
      ScanWellFormed(true, source, init);
      assert Scan(true, source, lines) == Step(true, source, r.value, line, |lines|);
      var k := Classify(line);
      if k.Header? {
        StepRecordsHeader(r.value, lines, k.section);
      } else if k.Item? {
        StepRecordsItem(r.value, lines, k.name, k.value);
      } else {
        StepRecordsIgnored(r.value, lines);
      }
    }
  }

  /** Without sections, `st` records for each name the value last written. */
  ghost predicate RecordsFlat(st: ParseState, lines: seq<string>)
  {
    forall n :: FoundFlat(st.found, n) == LastWrite(lines, n)
  }

  lemma StepRecordsFlat(source: string, st: ParseState, lines: seq<string>)
    requires lines != [] && RecordsFlat(st, lines[..|lines| - 1])
    requires Step(false, source, st, lines[|lines| - 1], |lines|).Ok?
    ensures RecordsFlat(Step(false, source, st, lines[|lines| - 1], |lines|).value, lines)
  {
    var init := lines[..|lines| - 1];
    var st' := Step(false, source, st, lines[|lines| - 1], |lines|).value;
    forall n
      ensures FoundFlat(st'.found, n) == LastWrite(lines, n)
    {
      assert FoundFlat(st.found, n) == LastWrite(init, n);
    }
  }

  /** Without sections, the parse records for each name the value last written. */
  lemma {:induction false} ScanRecordsLastWrite(source: string, lines: seq<string>)
    requires Scan(false, source, lines).Ok?
    ensures RecordsFlat(Scan(false, source, lines).value, lines)
    decreases |lines|
  {
    if lines != [] {
      var init, line := lines[..|lines| - 1], lines[|lines| - 1];
      var r := Scan(false, source, init);
      assert r.Ok?;
      ScanRecordsLastWrite(source, init);
      assert Scan(false, source, lines) == Step(false, source, r.value, line, |lines|);
      StepRecordsFlat(source, r.value, lines);
    }
  }
}
