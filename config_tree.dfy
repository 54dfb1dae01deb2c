/**
 * The values a PyConf instance works on: the nested item tree, the
 * arguments a caller passes to the lookups, and the errors they raise.
 */
module ConfigTree {
  import opened Wrappers
  import opened Syntax

  /**
   * A node of a nested dictionary: a string value, or a dictionary keyed
   * by file, section or item name.  The loaded item tree and the
   * caller-supplied defaults both have this form.
   */
  datatype Tree = Leaf(value: string) | Node(children: map<string, Tree>)

  /** The keys below a tree; a string value has none. */
  function ChildMap(t: Tree): map<string, Tree>
  {
    match t
    case Leaf(_) => map[]
    case Node(c) => c
  }

  /**
   * An argument of a lookup as the dynamically typed original sees it:
   * `None`, a `str`, or any other object (`truthy` is its truth value).
   */
  datatype Arg = Absent | Str(s: string) | NotStr(truthy: bool)

  /** The errors the configuration reader raises. */
  datatype Error =
    | ArgTypeError(arg: string)            // TypeError from an argument check
    | FileLoadError(file: string)
    | SectionLoadError(section: string)
    | ItemLoadError(item: string)
    | ParsingError(confFile: string, line: string, lineNum: nat)
    | IOError(path: string)                // the source could not be opened
    | KeyError(key: string)                // a lazily loaded file is still absent
    | DefaultsTypeError                    // the defaults walk indexed a string value
    | StandardError(msg: string)
  {
    /** The three conditions that the defaults fallback catches. */
    predicate IsNotFound()
    {
      FileLoadError? || SectionLoadError? || ItemLoadError?
    }
  }

  /** An item map: every name and value is a well-formed token. */
  ghost predicate ItemsOk(m: map<string, Tree>)
  {
    forall n | n in m :: ValidToken(n) && m[n].Leaf? && ValidToken(m[n].value)
  }

  /**
   * What one source contributes: sections of items when sections matter,
   * items directly otherwise.
   */
  ghost predicate SectionsOk(m: map<string, Tree>, sectionMatters: bool)
  {
    if sectionMatters then
      forall s | s in m :: ValidSectionName(s) && m[s].Node? && ItemsOk(m[s].children)
    else
      ItemsOk(m)
  }

  /**
   * The item tree's fixed shape: one level per source when files matter,
   * then one per section when sections matter, then the items.
   */
  ghost predicate WellFormedTree(m: map<string, Tree>, fileMatters: bool, sectionMatters: bool)
  {
    if fileMatters then
      forall f | f in m :: m[f].Node? && SectionsOk(m[f].children, sectionMatters)
    else
      SectionsOk(m, sectionMatters)
  }
}
