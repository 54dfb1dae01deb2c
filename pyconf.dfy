/**
 * The configuration reader itself: a `PyConf` object holds its options and
 * the item tree, loads sources into the tree and answers lookups.
 */
module Conf {
  import opened Wrappers
  import opened Syntax
  import opened ConfigTree
  import opened Parser
  import opened Resolver

  /** What opening and reading a file yields: its lines, or None when it cannot be opened. */
  type Contents = Option<seq<string>>

  /** What one source contributes to the tree, or the error loading it raises. */
  function ParseSource(sectionMatters: bool, file: string, contents: Contents): (r: Result<map<string, Tree>, Error>)
    ensures contents.None? ==> r == Err(IOError(file))
    ensures contents.Some? ==> (r.Err? <==> Scan(sectionMatters, file, contents.value).Err?)
    ensures contents.Some? && r.Ok? ==> r.value == Scan(sectionMatters, file, contents.value).value.found
    ensures r.Err? && contents.Some? ==> Located(sectionMatters, file, contents.value, r.error)
  {
    match contents
    case None => Err(IOError(file))
    case Some(lines) =>
      match Scan(sectionMatters, file, lines)
      case Ok(st) => Ok(st.found)
      case Err(e) => ErrorLocated(sectionMatters, file, lines); Err(e)
  }

  /** `_item_tree` after `load(file)`: the source committed when it parses, unchanged otherwise. */
  function Loaded(tree: map<string, Tree>, sectionMatters: bool, fileMatters: bool, file: string, contents: Contents): map<string, Tree>
  {
    match ParseSource(sectionMatters, file, contents)
    case Ok(found) => Commit(tree, fileMatters, file, found)
    case Err(_) => tree
  }

  /** `_item_tree` after loading `files` one after the other. */
  function LoadedAll(tree: map<string, Tree>, sectionMatters: bool, fileMatters: bool, files: seq<(string, Contents)>): map<string, Tree>
    decreases |files|
  {
    if files == [] then tree
    else
      var last := files[|files| - 1];
      Loaded(LoadedAll(tree, sectionMatters, fileMatters, files[..|files| - 1]), sectionMatters, fileMatters, last.0, last.1)
  }

  /** Python's truth value of an argument. */
  predicate Truthy(a: Arg)
  {
    match a
    case Absent => false
    case Str(s) => s != ""
    case NotStr(t) => t
  }

  /** Loading keeps the item tree's shape and its well-formed names and values. */
  lemma LoadedKeepsWellFormed(tree: map<string, Tree>, sectionMatters: bool, fileMatters: bool, file: string, contents: Contents)
    requires WellFormedTree(tree, fileMatters, sectionMatters)
    ensures WellFormedTree(Loaded(tree, sectionMatters, fileMatters, file, contents), fileMatters, sectionMatters)
  {
    if contents.Some? && Scan(sectionMatters, file, contents.value).Ok? {
      ScanWellFormed(sectionMatters, file, contents.value);
      CommitKeepsWellFormed(tree, fileMatters, sectionMatters, file, Scan(sectionMatters, file, contents.value).value.found);
    }
  }

  // ---------------------------------------------------------------------
  // Round trips: what a lookup answers after a source has been loaded.

  /**
   * With files and sections: looking up item `n` of section `s` in a
   * loaded source answers what its lines say: the value of the last item
   * line for `n` under the last header of `s`; a missing item when the
   * source has such a header; a missing section otherwise.
   */
  lemma LookupAfterLoadSectioned(tree: map<string, Tree>, explicitLoad: bool, file: string, lines: seq<string>,
                                 s: string, n: string)
    requires Scan(true, file, lines).Ok?
    ensures Resolve(Loaded(tree, true, true, file, Some(lines)), None, true, true, explicitLoad, Str(n), Str(s), Str(file))
      == match LastWriteIn(lines, s, n)
         case Some(v) => Ok(Leaf(v))
         case None => if HasHeader(lines, s) then Err(ItemLoadError(n)) else Err(SectionLoadError(s))
  {
    var st := Scan(true, file, lines).value;
    ScanRecordsLastWriteIn(file, lines);
    ScanWellFormed(true, file, lines);
    assert Loaded(tree, true, true, file, Some(lines)) == tree[file := Node(st.found)];
    assert FoundIn(st.found, s, n) == LastWriteIn(lines, s, n);
    assert s in st.found <==> HasHeader(lines, s);
  }

  /**
   * With files and no sections: looking up `n` in a loaded source answers
   * the value of its last item line for `n`, whatever section is passed.
   */
  lemma LookupAfterLoadFlat(tree: map<string, Tree>, explicitLoad: bool, file: string, lines: seq<string>,
                            n: string, section: Arg)
    requires Scan(false, file, lines).Ok?
    ensures Resolve(Loaded(tree, false, true, file, Some(lines)), None, false, true, explicitLoad, Str(n), section, Str(file))
      == match LastWrite(lines, n)
         case Some(v) => Ok(Leaf(v))
         case None => Err(ItemLoadError(n))
  {
    var st := Scan(false, file, lines).value;
    ScanRecordsLastWrite(file, lines);
    ScanWellFormed(false, file, lines);
    assert Loaded(tree, false, true, file, Some(lines)) == tree[file := Node(st.found)];
    assert FoundFlat(st.found, n) == LastWrite(lines, n);
  }

  /**
   * Without files, with sections: a section the source has replaces the
   * stored section as a whole, so its items are exactly the source's; a
   * section the source lacks answers as before.
   */
  lemma LookupAfterMergeSectioned(tree: map<string, Tree>, explicitLoad: bool, file: string, lines: seq<string>,
                                  s: string, n: string, file': Arg)
    requires Scan(true, file, lines).Ok?
    ensures var t := Loaded(tree, true, false, file, Some(lines));
      HasHeader(lines, s) ==>
        Resolve(t, None, true, false, explicitLoad, Str(n), Str(s), file')
        == match LastWriteIn(lines, s, n)
           case Some(v) => Ok(Leaf(v))
           case None => Err(ItemLoadError(n))
    ensures var t := Loaded(tree, true, false, file, Some(lines));
      !HasHeader(lines, s) ==>
        Resolve(t, None, true, false, explicitLoad, Str(n), Str(s), file')
        == Resolve(tree, None, true, false, explicitLoad, Str(n), Str(s), file')
  {
    var st := Scan(true, file, lines).value;
    ScanRecordsLastWriteIn(file, lines);
    ScanWellFormed(true, file, lines);
    var t := Loaded(tree, true, false, file, Some(lines));
    assert t == Commit(tree, false, file, st.found);
    assert FoundIn(st.found, s, n) == LastWriteIn(lines, s, n);
    if HasHeader(lines, s) {
      assert s in st.found && t[s] == st.found[s];
    } else {
      assert s !in st.found;
      assert s in t <==> s in tree;
      assert s in tree ==> t[s] == tree[s];
    }
  }

  /**
   * With neither files nor sections: the source's last value for `n`
   * overrides the stored one; an item the source does not set answers as
   * before.
   */
  lemma LookupAfterMergeFlat(tree: map<string, Tree>, explicitLoad: bool, file: string, lines: seq<string>,
                             n: string, section: Arg, file': Arg)
    requires Scan(false, file, lines).Ok?
    ensures var t := Loaded(tree, false, false, file, Some(lines));
      LastWrite(lines, n).Some? ==>
        Resolve(t, None, false, false, explicitLoad, Str(n), section, file') == Ok(Leaf(LastWrite(lines, n).value))
    ensures var t := Loaded(tree, false, false, file, Some(lines));
      LastWrite(lines, n).None? ==>
        Resolve(t, None, false, false, explicitLoad, Str(n), section, file')
        == Resolve(tree, None, false, false, explicitLoad, Str(n), section, file')
  {
    var st := Scan(false, file, lines).value;
    ScanRecordsLastWrite(file, lines);
    ScanWellFormed(false, file, lines);
    assert Loaded(tree, false, false, file, Some(lines)) == tree + st.found;
    assert FoundFlat(st.found, n) == LastWrite(lines, n);
  }

  /**
   * With files, re-loading a source replaces what was stored under its
   * name: afterwards every lookup into it is the same whatever the tree
   * held before.
   */
  lemma ReloadReplaces(tree: map<string, Tree>, tree': map<string, Tree>, defaults: Option<Tree>, sectionMatters: bool,
                       explicitLoad: bool, file: string, lines: seq<string>, item: Arg, section: Arg)
    requires Scan(sectionMatters, file, lines).Ok?
    ensures Resolve(Loaded(tree, sectionMatters, true, file, Some(lines)), defaults, sectionMatters, true, explicitLoad, item, section, Str(file))
         == Resolve(Loaded(tree', sectionMatters, true, file, Some(lines)), defaults, sectionMatters, true, explicitLoad, item, section, Str(file))
  {
    var found := Scan(sectionMatters, file, lines).value.found;
    assert Loaded(tree, sectionMatters, true, file, Some(lines)) == tree[file := Node(found)];
    assert Loaded(tree', sectionMatters, true, file, Some(lines)) == tree'[file := Node(found)];
    SameSourceSameAnswer(tree[file := Node(found)], tree'[file := Node(found)], defaults, sectionMatters,
                         explicitLoad, item, section, file);
  }

  /** With files, loading a source leaves every lookup into another source as it was. */
  lemma OtherSourcesUntouched(tree: map<string, Tree>, defaults: Option<Tree>, sectionMatters: bool, explicitLoad: bool,
                              file: string, contents: Contents, item: Arg, section: Arg, other: string)
    requires other != file
    ensures Resolve(Loaded(tree, sectionMatters, true, file, contents), defaults, sectionMatters, true, explicitLoad, item, section, Str(other))
         == Resolve(tree, defaults, sectionMatters, true, explicitLoad, item, section, Str(other))
  {
    var t := Loaded(tree, sectionMatters, true, file, contents);
    var p := ParseSource(sectionMatters, file, contents);
    if p.Ok? {
      assert t == tree[file := Node(p.value)];
    } else {
      assert t == tree;
    }
    SameSourceSameAnswer(t, tree, defaults, sectionMatters, explicitLoad, item, section, other);
  }

  class PyConf {
    const defaults: Option<Tree>
    const sectionMatters: bool
    const fileMatters: bool
    const explicitLoad: bool
    var itemTree: map<string, Tree>

    /** The item tree keeps the shape the two options fix, with well-formed names and values. */
    ghost predicate Valid()
      reads this
    {
      WellFormedTree(itemTree, fileMatters, sectionMatters)
    }

    /** `__init__`: record the options, start with an empty tree, then load each of `files`. */
    constructor (defaults: Option<Tree>, files: seq<(string, Contents)>, sectionMatters: bool,
                 fileMatters: bool, explicitLoad: bool)
      ensures Valid()
      ensures this.defaults == defaults && this.sectionMatters == sectionMatters
      ensures this.fileMatters == fileMatters && this.explicitLoad == explicitLoad
      ensures itemTree == LoadedAll(map[], sectionMatters, fileMatters, files)
    {
      this.defaults := defaults;
      this.sectionMatters := sectionMatters;
      this.fileMatters := fileMatters;
      this.explicitLoad := explicitLoad;
      itemTree := map[];
      new;
      var i := 0;
      while i < |files|
        invariant 0 <= i <= |files|
        invariant Valid()
        invariant itemTree == LoadedAll(map[], sectionMatters, fileMatters, files[..i])
      {
        assert files[..i + 1][..i] == files[..i];
        var _ := Load(files[i].0, files[i].1, false);
        i := i + 1;
      }
      assert files[..|files|] == files;
    }

    /**
     * `load(file, raise_errors)`: parse the source and commit it; an
     * error leaves the tree as it was and is raised only on request.
     */
    method Load(file: string, contents: Contents, raiseErrors: bool) returns (out: Outcome<Error>)
      requires Valid()
      modifies this
      ensures Valid()
      ensures itemTree == Loaded(old(itemTree), sectionMatters, fileMatters, file, contents)
      ensures out == match ParseSource(sectionMatters, file, contents)
        case Ok(_) => Pass
        case Err(e) => if raiseErrors then Fail(e) else Pass
    {
      match contents {
        case None =>
          out := if raiseErrors then Fail(IOError(file)) else Pass;
        case Some(lines) =>
          var parsed := ParseFile(file, lines);
          out := if parsed.Fail? && raiseErrors then parsed else Pass;
      }
    }

    /**
     * `_parse_file`: classify the lines one by one, collecting items
     * under the current section, and commit them only when every line
     * was accepted.
     */
    method ParseFile(name: string, lines: seq<string>) returns (out: Outcome<Error>)
      requires Valid()
      modifies this
      ensures Valid()
      ensures match Scan(sectionMatters, name, lines)
        case Ok(st) => out == Pass && itemTree == Commit(old(itemTree), fileMatters, name, st.found)
        case Err(e) => out == Fail(e) && itemTree == old(itemTree)
    {
      var st := ParseState(None, map[]);
      var i := 0;
      while i < |lines|
        invariant 0 <= i <= |lines|
        invariant Scan(sectionMatters, name, lines[..i]) == Ok(st)
        invariant itemTree == old(itemTree)
      {
        ScanNext(sectionMatters, name, lines, i, st);
        var next := ParseLine(name, st, lines[i], i + 1);
        if next.Err? {
          ErrorPersists(sectionMatters, name, lines, i + 1);
          return Fail(next.error);
        }
        st := next.value;
        i := i + 1;
      }
      assert lines[..|lines|] == lines;
      CommitParsed(name, lines, st);
      out := Pass;
    }

    /** The end of `_parse_file` once every line was accepted: store what was found. */
    method CommitParsed(name: string, lines: seq<string>, st: ParseState)
      requires Valid()
      requires Scan(sectionMatters, name, lines) == Ok(st)
      modifies this
      ensures Valid()
      ensures itemTree == Commit(old(itemTree), fileMatters, name, st.found)
    {
      ScanWellFormed(sectionMatters, name, lines);
      CommitKeepsWellFormed(itemTree, fileMatters, sectionMatters, name, st.found);
      if fileMatters {
        itemTree := itemTree[name := Node(st.found)];
      } else {
        itemTree := itemTree + st.found;
      }
    }

    /**
     * The body of the loop of `_parse_file` for one line: skip a blank
     * line or comment, open a section on a header (with sections), record
     * an item under the current section or at the top, refuse anything else.
     * This is the imperative form of `Step`, proved equal to it branch by
     * branch with the `StepOn...` lemmas of `Parser`.
     */
    method ParseLine(name: string, st: ParseState, line: string, lineNum: nat) returns (r: Result<ParseState, Error>)
      ensures r == Step(sectionMatters, name, st, line, lineNum)
    {
      var stripped := Strip(line);
      if |stripped| == 0 || stripped[0] == '#' {
        StepOnIgnorable(sectionMatters, name, st, line, lineNum);
        return Ok(st);
      }
      var header := SectionName(stripped);
      if header.Some? {
        StepOnHeader(sectionMatters, name, st, line, lineNum, header.value);
        if sectionMatters {
          return Ok(ParseState(header, st.found[header.value := Node(map[])]));
        }
        return Ok(st);
      }
      var pair := ItemPair(stripped);
      if pair.None? {
        StepOnMalformed(sectionMatters, name, st, line, lineNum);
        return Err(ParsingError(name, line, lineNum));
      }
      var (itemName, itemValue) := pair.value;
      StepOnItem(sectionMatters, name, st, line, lineNum, itemName, itemValue);
      if sectionMatters && st.current.None? {
        return Err(ParsingError(name, line, lineNum));
      }
      if sectionMatters {
        var section := st.current.value;
        return Ok(st.(found := st.found[section := Node(SectionItems(st.found, section)[itemName := Leaf(itemValue)])]));
      }
      return Ok(st.(found := st.found[itemName := Leaf(itemValue)]));
    }

    /** `get_item` takes the lazy-load branch: files matter, loading is implicit and the source is not in the tree. */
    predicate LoadsLazily(tree: map<string, Tree>, item: Arg, section: Arg, file: Arg)
    {
      WellTyped(sectionMatters, fileMatters, item, section, file) && fileMatters && !explicitLoad && file.s !in tree
    }

    /**
     * `get_item(item, section, file)`.  `lazyContents` is what opening
     * `file` would read, used only on the lazy-load branch.
     */
    method GetItem(item: Arg, section: Arg, file: Arg, lazyContents: Contents) returns (r: Result<Tree, Error>)
      requires Valid()
      modifies this
      ensures Valid()
      ensures itemTree == if LoadsLazily(old(itemTree), item, section, file)
        then Loaded(old(itemTree), sectionMatters, fileMatters, file.s, lazyContents) else old(itemTree)
      ensures r == Resolve(itemTree, defaults, sectionMatters, fileMatters, explicitLoad, item, section, file)
    {
      if sectionMatters && !section.Str? {
        return Err(ArgTypeError("section"));
      }
      if fileMatters && !file.Str? {
        return Err(ArgTypeError("file"));
      }
      if !item.Str? {
        return Err(ArgTypeError("item"));
      }
      assert CheckArgs(sectionMatters, fileMatters, item, section, file) == Pass;
      var working := Node(itemTree);
      var missed: Option<Error> := None;
      if fileMatters {
        if file.s !in itemTree {
          if !explicitLoad {
            var _ := Load(file.s, lazyContents, false);
            if file.s !in itemTree {
              return Err(KeyError(file.s));
            }
            working := itemTree[file.s];
          } else {
            missed := Some(FileLoadError(file.s));
          }
        } else {
          working := itemTree[file.s];
        }
      }
      if missed.None? && sectionMatters {
        if section.s !in ChildMap(working) {
          missed := Some(SectionLoadError(section.s));
        } else {
          working := ChildMap(working)[section.s];
        }
      }
      if missed.None? {
        if item.s in ChildMap(working) {
          return Ok(ChildMap(working)[item.s]);
        }
        missed := Some(ItemLoadError(item.s));
      }
      if defaults.None? {
        return Err(missed.value);
      }
      var reached := WalkDefaults(Qualifiers(file, section, item));
      r := match reached
        case Reached(t) => Ok(t)
        case KeyMissing => Err(missed.value)
        case StrIndexed => Err(DefaultsTypeError);
    }

    /** The loop of `get_item`'s `except` clause that indexes the defaults tree with each qualifier in turn. */
    method WalkDefaults(keys: seq<Arg>) returns (w: Walked)
      requires defaults.Some?
      ensures w == Walk(defaults.value, keys)
    {
      var cur := defaults.value;
      var i := 0;
      while i < |keys|
        invariant 0 <= i <= |keys|
        invariant Walk(defaults.value, keys) == Walk(cur, keys[i..])
      {
        assert keys[i..][0] == keys[i] && keys[i..][1..] == keys[i + 1..];
        match cur {
          case Leaf(_) =>
            return StrIndexed;
          case Node(c) =>
            if !(keys[i].Str? && keys[i].s in c) {
              return KeyMissing;
            }
            cur := c[keys[i].s];
        }
        i := i + 1;
      }
      return Reached(cur);
    }

    /**
     * `get_items(file, section)`, which stops after its argument checks:
     * `None` when neither filter is given, otherwise a `TypeError` or the
     * `StandardError` it raises unconditionally.
     */
    function GetItems(file: Arg, section: Arg): (r: Result<Option<map<string, Tree>>, Error>)
      ensures r.Ok? <==> !Truthy(file) && !Truthy(section)
      ensures r.Ok? ==> r.value.None?
      ensures r.Err? ==> r.error in {ArgTypeError("file"), ArgTypeError("section"), StandardError("Reimplement")}
      ensures file.NotStr? && (Truthy(file) || Truthy(section)) ==> r == Err(ArgTypeError("file"))
      ensures !file.NotStr? && section.NotStr? && (Truthy(file) || Truthy(section)) ==> r == Err(ArgTypeError("section"))
      ensures !file.NotStr? && !section.NotStr? && (Truthy(file) || Truthy(section)) ==> r == Err(StandardError("Reimplement"))
    {
      if !Truthy(file) && !Truthy(section) then Ok(None)
      else if file.NotStr? then Err(ArgTypeError("file"))
      else if section.NotStr? then Err(ArgTypeError("section"))
      else Err(StandardError("Reimplement"))
    }
  }
}
