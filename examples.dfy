/**
 * Concrete configurations: single lines, a small source and lookups into
 * it, worked out through the model.
 */
module Examples {
  import opened Wrappers
  import opened Syntax
  import opened ConfigTree
  import opened Parser
  import opened Resolver
  import opened Conf

  // Helpers that classify a line from its parts, so that the concrete
  // lines below need only their parts checked.

  lemma NoHeader(t: string)
    requires t != [] && !IsSpace(t[0]) && t[0] != '['
    ensures SectionName(t).None?
  {
    TakeWhileOver(IsSpace, [], t);
    assert [] + t == t;
  }

  lemma ClassifyByParts(line: string)
    requires Strip(line) == line && line != [] && line[0] != '#'
    ensures SectionName(line).Some? ==> Classify(line) == Header(SectionName(line).value)
    ensures SectionName(line).None? && ItemPair(line).Some?
      ==> Classify(line) == Item(ItemPair(line).value.0, ItemPair(line).value.1)
  {
  }

  lemma ItemLine(line: string, n: string, w1: string, w2: string, v: string, r: string)
    requires AllSpace(w1) && AllSpace(w2) && Trailer(r) && ValidToken(n) && ValidToken(v)
    requires line == n + (w1 + ("=" + (w2 + (v + r))))
    requires n[0] != '[' && !IsSpace(line[|line| - 1])
    ensures Classify(line) == Item(n, v)
  {
    assert line[0] == n[0];
    StripUnchanged(line);
    NoHeader(line);
    assert line == [] + line;
    ItemPairComplete([], n, w1, w2, v, r);
    ClassifyByParts(line);
  }

  lemma HeaderLine(line: string, n: string, r: string)
    requires Trailer(r) && ValidSectionName(n)
    requires line == "[" + (n + ("]" + r))
    requires !IsSpace(line[|line| - 1])
    ensures Classify(line) == Header(n)
  {
    StripUnchanged(line);
    assert line == [] + line;
    SectionNameComplete([], n, r);
    ClassifyByParts(line);
  }

  /** An item line may carry spaces around `=` and a trailing comment. */
  lemma ItemLineWithComment()
    ensures Classify("key = value # note") == Item("key", "value")
  {
    ItemLine("key = value # note", "key", " ", " ", "value", " # note");
  }

  /** A header line may carry a trailing comment; the section name may contain spaces. */
  lemma HeaderWithComment()
    ensures Classify("[Section A] # note") == Header("Section A")
  {
    HeaderLine("[Section A] # note", "Section A", " # note");
  }

  lemma SpacedNameParts()
    ensures TakeWhile(IsTokenChar, "two words = x") == ("two", " words = x")
    ensures TrimLeft(" words = x") == "words = x"
  {
    assert "two words = x" == "two" + " words = x";
    TakeWhileOver(IsTokenChar, "two", " words = x");
    assert " words = x" == " " + "words = x";
    TakeWhileOver(IsSpace, " ", "words = x");
  }

  /** A name with a space in it is neither an item nor a header. */
  lemma SpacedNameIsMalformed()
    ensures Classify("two words = x") == Malformed
  {
    var line := "two words = x";
    StripUnchanged(line);
    NoHeader(line);
    TakeWhileOver(IsSpace, [], line);
    SpacedNameParts();
    ClassifyByParts(line);
  }

  lemma SimpleItem()
    ensures Classify("a = b") == Item("a", "b")
  {
    ItemLine("a = b", "a", " ", " ", "b", []);
  }

  /** With sections, an item line read before any header is refused with its line number. */
  lemma ItemBeforeHeader()
    ensures Step(true, "f", ParseState(None, map[]), "a = b", 1) == Err(ParsingError("f", "a = b", 1))
  {
    SimpleItem();
  }

  /** The item tree with files and sections holding the source `db.conf`. */
  function DbTree(): map<string, Tree>
  {
    map["db.conf" := Node(map["db" := Node(map["password" := Leaf("secret")])])]
  }

  /**
   * A lookup into the source finds the value; a missing section is
   * reported as such, even with defaults that lack it; an unknown source
   * is reported when loading is explicit.
   */
  lemma DbLookups()
    ensures Resolve(DbTree(), None, true, true, true, Str("password"), Str("db"), Str("db.conf")) == Ok(Leaf("secret"))
    ensures Resolve(DbTree(), Some(Node(map[])), true, true, true, Str("password"), Str("missing"), Str("db.conf"))
         == Err(SectionLoadError("missing"))
    ensures Resolve(DbTree(), None, true, true, true, Str("password"), Str("db"), Str("other.conf"))
         == Err(FileLoadError("other.conf"))
  {
    assert Qualifiers(Str("db.conf"), Str("missing"), Str("password")) == [Str("db.conf"), Str("missing"), Str("password")];
  }

  /** With sections, leaving out the section is a type error. */
  lemma SectionRequired()
    ensures Resolve(map[], None, true, false, true, Str("password"), Absent, Absent) == Err(ArgTypeError("section"))
  {
  }

  /** An empty item tree falls back on the defaults. */
  lemma DefaultsOnEmptyTree()
    ensures Resolve(map[], Some(Node(map["item1" := Leaf("fallback")])), false, false, true, Str("item1"), Absent, Absent)
         == Ok(Leaf("fallback"))
  {
    assert Qualifiers(Absent, Absent, Str("item1")) == [Str("item1")];
  }

  /**
   * Without sections the section argument plays no part in the item tree,
   * but the defaults walk still indexes with it.
   */
  lemma SectionStillQualifiesDefaults()
    ensures Resolve(map[], Some(Node(map["s" := Node(map["k" := Leaf("d")])])), false, false, true, Str("k"), Str("s"), Absent)
         == Ok(Leaf("d"))
    ensures Resolve(map[], Some(Node(map["k" := Leaf("d")])), false, false, true, Str("k"), Str("s"), Absent)
         == Err(ItemLoadError("k"))
  {
    assert Qualifiers(Absent, Str("s"), Str("k")) == [Str("s"), Str("k")];
  }

  /**
   * With implicit loading, a source that cannot be opened is a bare
   * `KeyError`, which the defaults do not mask, and the tree stays empty.
   */
  method LazyLoadOfMissingSource()
  {
    var defaults := Node(map["gone.conf" := Node(map["s" := Node(map["k" := Leaf("d")])])]);
    var conf := new PyConf(Some(defaults), [], true, true, false);
    assert conf.itemTree == map[];
    var r := conf.GetItem(Str("k"), Str("s"), Str("gone.conf"), None);
    assert conf.itemTree == map[];
    assert r == Err(KeyError("gone.conf"));
  }
}
