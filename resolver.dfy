/**
 * What `get_item` answers: argument checks, the descent file -> section
 * -> item through the item tree, and the walk of the defaults tree that
 * it falls back on when the descent misses.
 */
module Resolver {
  import opened Wrappers
  import opened ConfigTree

  /** The argument checks, in the order `get_item` makes them. */
  function CheckArgs(sectionMatters: bool, fileMatters: bool, item: Arg, section: Arg, file: Arg): (r: Outcome<Error>)
    ensures r.Pass? <==> WellTyped(sectionMatters, fileMatters, item, section, file)
    ensures r.Fail? ==> r.error.ArgTypeError?
  {
    if sectionMatters && !section.Str? then Fail(ArgTypeError("section"))
    else if fileMatters && !file.Str? then Fail(ArgTypeError("file"))
    else if !item.Str? then Fail(ArgTypeError("item"))
    else Pass
  }

  /** The arguments pass the checks. */
  predicate WellTyped(sectionMatters: bool, fileMatters: bool, item: Arg, section: Arg, file: Arg)
  {
    item.Str? && (sectionMatters ==> section.Str?) && (fileMatters ==> file.Str?)
  }

  /**
   * The descent through the item tree: the source when files matter (a
   * source still missing after a lazy load is a bare `KeyError`), the
   * section when sections matter, then the item.
   */
  function Descend(tree: map<string, Tree>, sectionMatters: bool, fileMatters: bool, explicitLoad: bool,
                   item: string, section: Arg, file: Arg): (r: Result<Tree, Error>)
    requires sectionMatters ==> section.Str?
    requires fileMatters ==> file.Str?
    ensures r.Err? ==> r.error.IsNotFound() || (fileMatters && !explicitLoad && r.error == KeyError(file.s))
    ensures r.Err? && r.error.FileLoadError? ==> fileMatters && explicitLoad && file.s !in tree
  {
    var atFile :-
      if !fileMatters then Ok(Node(tree))
      else if file.s in tree then Ok(tree[file.s])
      else if explicitLoad then Err(FileLoadError(file.s))
      else Err(KeyError(file.s));
    var atSection :-
      if !sectionMatters then Ok(atFile)
      else if section.s in ChildMap(atFile) then Ok(ChildMap(atFile)[section.s])
      else Err(SectionLoadError(section.s));
    if item in ChildMap(atSection) then Ok(ChildMap(atSection)[item]) else Err(ItemLoadError(item))
  }

  /** The qualifiers the defaults walk uses: those of (file, section, item) that are not `None`. */
  function Qualifiers(file: Arg, section: Arg, item: Arg): (q: seq<Arg>)
    ensures forall i | 0 <= i < |q| :: !q[i].Absent?
    ensures |q| == (if file.Absent? then 0 else 1) + (if section.Absent? then 0 else 1) + (if item.Absent? then 0 else 1)
    ensures !file.Absent? ==> q[0] == file
    ensures !section.Absent? ==> q[if file.Absent? then 0 else 1] == section
    ensures !item.Absent? ==> q[|q| - 1] == item
  {
    (if file.Absent? then [] else [file]) + (if section.Absent? then [] else [section])
      + (if item.Absent? then [] else [item])
  }

  /** Where the defaults walk ends. */
  datatype Walked = Reached(t: Tree) | KeyMissing | StrIndexed

  /**
   * `default_item_tree_key = default_item_tree_key[i]` for each qualifier:
   * a key that is not there (or is not a string) is a `KeyError`; indexing
   * a string value is a `TypeError`.
   */
  function Walk(t: Tree, keys: seq<Arg>): Walked
    decreases |keys|
  {
    if keys == [] then Reached(t)
    else match t
      case Leaf(_) => StrIndexed
      case Node(c) =>
        if keys[0].Str? && keys[0].s in c then Walk(c[keys[0].s], keys[1..]) else KeyMissing
  }

  /** Walking `a + b` is walking `a`, then walking `b` from where it reached. */
  lemma {:induction false} WalkAppend(t: Tree, a: seq<Arg>, b: seq<Arg>)
    ensures Walk(t, a + b) == match Walk(t, a) case Reached(u) => Walk(u, b) case w => w
    decreases |a|
  {
    if a != [] {
      assert a + b != [] && (a + b)[0] == a[0] && (a + b)[1..] == a[1..] + b;
      if t.Node? && a[0].Str? && a[0].s in t.children {
        WalkAppend(t.children[a[0].s], a[1..], b);
        assert Walk(t, a + b) == Walk(t.children[a[0].s], a[1..] + b);
        assert Walk(t, a) == Walk(t.children[a[0].s], a[1..]);
      }
    } else {
      assert a + b == b;
    }
  }

  /** The answer of `get_item(item, section, file)`, the explicit-load path and the lookup together. */
  function Resolve(tree: map<string, Tree>, defaults: Option<Tree>, sectionMatters: bool, fileMatters: bool,
                   explicitLoad: bool, item: Arg, section: Arg, file: Arg): Result<Tree, Error>
  {
    match CheckArgs(sectionMatters, fileMatters, item, section, file)
    case Fail(e) => Err(e)
    case Pass =>
      match Descend(tree, sectionMatters, fileMatters, explicitLoad, item.s, section, file)
      case Ok(t) => Ok(t)
      case Err(e) => Recover(defaults, Qualifiers(file, section, item), e)
  }

  /**
   * The `except` clause of `get_item`: a not-found error `e` falls back on
   * the defaults walked along `keys`; any other error passes through.
   */
  function Recover(defaults: Option<Tree>, keys: seq<Arg>, e: Error): (r: Result<Tree, Error>)
    ensures r.Ok? ==> e.IsNotFound() && defaults.Some? && Walk(defaults.value, keys) == Reached(r.value)
    ensures r.Err? ==> r.error == e || (r.error == DefaultsTypeError && e.IsNotFound())
  {
    if !e.IsNotFound() || defaults.None? then Err(e)
    else match Walk(defaults.value, keys)
      case Reached(t) => Ok(t)
      case KeyMissing => Err(e)
      case StrIndexed => Err(DefaultsTypeError)
  }

  // ---------------------------------------------------------------------
  // Properties of the lookup.

  /** An argument error is raised exactly when the arguments fail the checks. */
  lemma ArgumentErrorIff(tree: map<string, Tree>, defaults: Option<Tree>, sectionMatters: bool, fileMatters: bool,
                         explicitLoad: bool, item: Arg, section: Arg, file: Arg)
    ensures var r := Resolve(tree, defaults, sectionMatters, fileMatters, explicitLoad, item, section, file);
      (r.Err? && r.error.ArgTypeError?) <==> !WellTyped(sectionMatters, fileMatters, item, section, file)
  {
  }

  /**
   * Arguments are checked before any lookup: the argument error does not
   * depend on the item tree or on the defaults.
   */
  lemma ArgumentErrorBeforeLookup(tree: map<string, Tree>, defaults: Option<Tree>, tree': map<string, Tree>,
                                  defaults': Option<Tree>, sectionMatters: bool, fileMatters: bool,
                                  explicitLoad: bool, item: Arg, section: Arg, file: Arg)
    requires !WellTyped(sectionMatters, fileMatters, item, section, file)
    ensures Resolve(tree, defaults, sectionMatters, fileMatters, explicitLoad, item, section, file)
         == Resolve(tree', defaults', sectionMatters, fileMatters, explicitLoad, item, section, file)
  {
  }

  /**
   * The qualifiers are probed file, then section, then item, and the first
   * that is missing names the error (no defaults, explicit loading).
   */
  lemma FirstMissDecides(tree: map<string, Tree>, sectionMatters: bool, fileMatters: bool,
                         item: string, section: Arg, file: Arg)
    requires WellTyped(sectionMatters, fileMatters, Str(item), section, file)
    ensures var r := Resolve(tree, None, sectionMatters, fileMatters, true, Str(item), section, file);
      && (fileMatters && file.s !in tree ==> r == Err(FileLoadError(file.s)))
      && ((fileMatters ==> file.s in tree) ==>
            var atFile := if fileMatters then tree[file.s] else Node(tree);
            && (sectionMatters && section.s !in ChildMap(atFile) ==> r == Err(SectionLoadError(section.s)))
            && ((sectionMatters ==> section.s in ChildMap(atFile)) ==>
                  var atSection := if sectionMatters then ChildMap(atFile)[section.s] else atFile;
                  r == if item in ChildMap(atSection) then Ok(ChildMap(atSection)[item]) else Err(ItemLoadError(item))))
  {
  }

  /** The defaults are consulted only on a miss: a hit is the same whatever the defaults. */
  lemma DefaultsOnlyOnMiss(tree: map<string, Tree>, defaults: Option<Tree>, sectionMatters: bool, fileMatters: bool,
                           explicitLoad: bool, item: Arg, section: Arg, file: Arg)
    requires Resolve(tree, None, sectionMatters, fileMatters, explicitLoad, item, section, file).Ok?
    ensures Resolve(tree, defaults, sectionMatters, fileMatters, explicitLoad, item, section, file)
         == Resolve(tree, None, sectionMatters, fileMatters, explicitLoad, item, section, file)
  {
  }

  /**
   * A miss in the defaults re-raises the original error, never a new
   * not-found error; the only other failure is the `TypeError` of indexing
   * a string value in the defaults, and it too needs an original miss.
   */
  lemma DefaultsKeepOriginalError(tree: map<string, Tree>, d: Tree, sectionMatters: bool, fileMatters: bool,
                                  explicitLoad: bool, item: Arg, section: Arg, file: Arg)
    requires Resolve(tree, Some(d), sectionMatters, fileMatters, explicitLoad, item, section, file).Err?
    ensures var orig := Resolve(tree, None, sectionMatters, fileMatters, explicitLoad, item, section, file);
      var e := Resolve(tree, Some(d), sectionMatters, fileMatters, explicitLoad, item, section, file).error;
      && orig.Err?
      && (e == orig.error || (e == DefaultsTypeError && orig.error.IsNotFound()))
      && (e != orig.error ==> Walk(d, Qualifiers(file, section, item)) == StrIndexed)
  {
  }

  /** A key missing anywhere along the defaults walk re-raises exactly the original not-found error. */
  lemma DefaultsMissReraises(tree: map<string, Tree>, d: Tree, sectionMatters: bool, fileMatters: bool,
                             explicitLoad: bool, item: Arg, section: Arg, file: Arg)
    requires var orig := Resolve(tree, None, sectionMatters, fileMatters, explicitLoad, item, section, file);
      orig.Err? && orig.error.IsNotFound()
    requires Walk(d, Qualifiers(file, section, item)) == KeyMissing
    ensures Resolve(tree, Some(d), sectionMatters, fileMatters, explicitLoad, item, section, file)
         == Resolve(tree, None, sectionMatters, fileMatters, explicitLoad, item, section, file)
  {
  }

  /** Indexing a string value along the defaults walk is the `TypeError`, whatever the original miss was. */
  lemma DefaultsStrIndexed(tree: map<string, Tree>, d: Tree, sectionMatters: bool, fileMatters: bool,
                           explicitLoad: bool, item: Arg, section: Arg, file: Arg)
    requires var orig := Resolve(tree, None, sectionMatters, fileMatters, explicitLoad, item, section, file);
      orig.Err? && orig.error.IsNotFound()
    requires Walk(d, Qualifiers(file, section, item)) == StrIndexed
    ensures Resolve(tree, Some(d), sectionMatters, fileMatters, explicitLoad, item, section, file) == Err(DefaultsTypeError)
  {
  }

  /** On a not-found miss, the value the defaults hold along the non-`None` qualifiers is returned. */
  lemma DefaultsFallback(tree: map<string, Tree>, d: Tree, sectionMatters: bool, fileMatters: bool,
                         explicitLoad: bool, item: Arg, section: Arg, file: Arg, t: Tree)
    requires var orig := Resolve(tree, None, sectionMatters, fileMatters, explicitLoad, item, section, file);
      orig.Err? && orig.error.IsNotFound()
    requires Walk(d, Qualifiers(file, section, item)) == Reached(t)
    ensures Resolve(tree, Some(d), sectionMatters, fileMatters, explicitLoad, item, section, file) == Ok(t)
  {
  }

  /** A bare `KeyError` after a failed lazy load is not caught, so the defaults are not consulted. */
  lemma KeyErrorSkipsDefaults(tree: map<string, Tree>, defaults: Option<Tree>, sectionMatters: bool,
                              item: Arg, section: Arg, f: string)
    requires WellTyped(sectionMatters, true, item, section, Str(f)) && f !in tree
    ensures Resolve(tree, defaults, sectionMatters, true, false, item, section, Str(f)) == Err(KeyError(f))
  {
  }

  /**
   * The descent into the item tree uses only the qualifiers whose level
   * exists: without sections the section argument is ignored, without
   * files the file argument is.
   */
  lemma UnusedQualifiersIgnored(tree: map<string, Tree>, sectionMatters: bool, fileMatters: bool, explicitLoad: bool,
                                item: Arg, section: Arg, section': Arg, file: Arg, file': Arg)
    requires sectionMatters ==> section' == section
    requires fileMatters ==> file' == file
    ensures Resolve(tree, None, sectionMatters, fileMatters, explicitLoad, item, section, file)
         == Resolve(tree, None, sectionMatters, fileMatters, explicitLoad, item, section', file')
  {
  }

  /** With files, a lookup into source `f` depends only on what the tree holds under `f`. */
  lemma SameSourceSameAnswer(tree: map<string, Tree>, tree': map<string, Tree>, defaults: Option<Tree>,
                             sectionMatters: bool, explicitLoad: bool, item: Arg, section: Arg, f: string)
    requires (f in tree <==> f in tree') && (f in tree ==> tree[f] == tree'[f])
    ensures Resolve(tree, defaults, sectionMatters, true, explicitLoad, item, section, Str(f))
         == Resolve(tree', defaults, sectionMatters, true, explicitLoad, item, section, Str(f))
  {
  }

  /** A lookup in a well-formed item tree that succeeds yields a string value that is a token. */
  lemma HitIsToken(tree: map<string, Tree>, sectionMatters: bool, fileMatters: bool, explicitLoad: bool,
                   item: Arg, section: Arg, file: Arg)
    requires WellFormedTree(tree, fileMatters, sectionMatters)
    requires Resolve(tree, None, sectionMatters, fileMatters, explicitLoad, item, section, file).Ok?
    ensures var t := Resolve(tree, None, sectionMatters, fileMatters, explicitLoad, item, section, file).value;
      t.Leaf? && Syntax.ValidToken(t.value)
  {
  }
}
