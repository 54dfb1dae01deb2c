# PyConf, modelled in Dafny

PyConf reads line-oriented configuration sources of the form

```
# comment
[Section name]        # optional trailing comment
item = value          # optional trailing comment
```

into an *item tree* and answers lookups `get_item(item, section, file)`
against it. Three options shape the tree:

- `section_matters`: items are grouped under `[section]` headers.
- `file_matters`: each source is kept under its own name; otherwise all
  sources are merged into one root.
- `explicit_load`: when it is off, a lookup into a source that is not
  loaded yet loads that source first.

A lookup that misses an item or section falls back on an optional tree of
defaults. The model covers all of these.

The project has seven modules:

- `Wrappers` (`wrappers.dfy`): `Option`, `Result` and `Outcome`.
- `ConfigTree` (`config_tree.dfy`): the item tree (`Tree`, a string leaf or
  a map of children) and the arguments a caller can pass (`Arg`: `None`, a
  `str`, or any other object together with its truth value). It also holds
  the error kinds (`ItemLoadError`, `SectionLoadError`, `FileLoadError`,
  `ParsingError`, the `TypeError`s, `IOError`, the bare `KeyError` and
  `StandardError`) and the well-formedness of a tree for a given pair of
  options.
- `Syntax` (`syntax.dfy`): Python 2's `str.strip()`, and the section and
  item regular expressions as scanners. Each scanner is proved equivalent
  to a declarative grammar predicate read off its pattern. The module also
  holds the classification of one line.
- `Parser` (`parser.dfy`): the loop of `_parse_file` as one `Step` per line
  and the prefix read `Scan`. It adds the commit into the tree. It gives
  reference definitions of what a source says: the last header (`LastHeader`)
  and the last value written to an item (`LastWriteIn` with sections and
  `LastWrite` without).
- `Resolver` (`resolver.dfy`): `Resolve`, the answer of `get_item`. It
  covers the argument checks, the descent file, then section, then item, and
  the walk of the defaults tree.
- `Conf` (`pyconf.dfy`): the class `PyConf`. Its mutable field `itemTree`
  is updated by the constructor, by `Load`, by `ParseFile` and by the lazy
  load inside `GetItem`. Each method is proved against the functions above.
  The module also holds the round-trip lemmas that relate a loaded source's
  lines to what a lookup answers.
- `Examples` (`examples.dfy`): concrete lines and lookups.

Some behaviours of the code worth knowing, all of which the model keeps:

- The code does not check that the arguments of `get_item` are non-empty:
  an empty string is accepted and simply not found.
- After a lazy load that fails, the code reads `working_tree[file]`. This
  raises a bare `KeyError`, which the `except` clause does not catch. So the
  result is neither a `FileLoadError` nor a value from the defaults
  (`Resolver.KeyErrorSkipsDefaults`).
- With sections and without files, `dict.update` merges at the level of
  sections. A section that a later source also has is replaced as a whole,
  not merged item by item (`Conf.LookupAfterMergeSectioned`).
- Without sections, the defaults walk still indexes with the `section`
  argument whenever it is not `None`
  (`Examples.SectionStillQualifiesDefaults`).
- `get_items` never returns a mapping. It returns `None` when both filters
  are falsy; otherwise it raises a `TypeError` or `StandardError('Reimplement')`.

## Model

| member | source | states |
|---|---|---|
| Syntax.Strip | pyconf.py:150 | the stripped line is empty or has no whitespace (space, `\t`..`\r`) at either end |
| Syntax.StripSound | pyconf.py:150 | the line is whitespace, then its stripped text, then whitespace: strip removes only whitespace and only at the ends |
| Syntax.StripUnchanged | pyconf.py:150 | text with no whitespace at either end is its own strip |
| Syntax.SectionName | pyconf.py:115-126 | a captured section name is non-empty and has no `[`, `]` or `#` |
| Syntax.SectionNameMatches | pyconf.py:115-126 | the scanner captures `n` exactly when the text is whitespace, `[`, `n`, `]`, then trailing whitespace and an optional comment |
| Syntax.ItemPair | pyconf.py:128-141 | captured name and value are non-empty and have no `=`, `#` or whitespace |
| Syntax.ItemPairMatches | pyconf.py:128-141 | the scanner captures `(n, v)` exactly when the text is whitespace, `n`, whitespace, `=`, whitespace, `v`, then trailing whitespace and an optional comment |
| Syntax.Classify | pyconf.py:149-173 | a line is skipped exactly when its stripped text is empty or starts with `#`; a header's name and an item's tokens are well formed |
| Syntax.ClassifyHeader | pyconf.py:153-159 | a line is a header of `n` exactly when its stripped text fits the section pattern with name `n` |
| Syntax.ClassifyItem | pyconf.py:161-169 | a line is the item `(n, v)` exactly when no section pattern fits its stripped text and the item pattern fits with `n` and `v`: the section pattern is tried first |
| Syntax.ClassifyMalformed | pyconf.py:149-173 | a line is refused exactly when it is not blank or a comment and neither pattern fits it |
| Parser.Step | pyconf.py:149-173 | one iteration of the loop; its properties are `Parser.StepFails`, `Parser.StepIgnoresLineNumber` and `Parser.NeutralLineIgnored`, and `Conf.PyConf.ParseLine` is proved equal to it |
| Parser.Scan | pyconf.py:143-173 | the state after any prefix of the lines, or the first error; its properties are `Parser.ErrorLocated`, `Parser.ErrorPersists`, `Parser.ScanRecordsLastWriteIn` and `Parser.ScanRecordsLastWrite`, and `Conf.PyConf.ParseFile` is proved equal to it |
| Parser.Commit | pyconf.py:175-178 | with files the source's sections replace whatever was stored under its name and other keys are unchanged; without files the found keys overwrite same-named keys and the rest stay |
| Parser.ErrorPersists | pyconf.py:143-173 | once a prefix of the lines fails, the whole source fails with that same error: parsing stops at the first bad line |
| Parser.PrefixParses | pyconf.py:143-173 | if a source parses, every prefix of it parses |
| Parser.StepFails | pyconf.py:163-173 | a line fails only when it is refused (malformed, or an item before any header with sections), and the error is a `ParsingError` with the source, the raw line and its number |
| Parser.ErrorLocated | pyconf.py:143-173 | a failed parse reports a `ParsingError` naming the source, with a 1-based line number within the source, that line's raw text, every earlier line accepted and that line refused |
| Parser.MalformedLineFails | pyconf.py:161-173 | a source with a line that fits neither pattern fails, at that line or earlier |
| Parser.ItemBeforeHeaderFails | pyconf.py:163-166 | with sections, an item line with no header before it makes the source fail, at that line or earlier |
| Parser.CurrentIsLastHeader | pyconf.py:155-159 | with sections, the current section is always the one named by the last header read |
| Parser.NoHeaderNoSection | pyconf.py:143-145 | with no header among the lines, the last header is none, so by `Parser.CurrentIsLastHeader` there is no current section |
| Parser.StepIgnoresLineNumber | pyconf.py:146-147 | the line number affects only the error report, never whether a line is accepted or what it adds |
| Parser.NeutralLineIgnored | pyconf.py:149-159 | inserting a blank line, a comment, or (without sections) a header anywhere changes neither whether the source parses nor what it yields |
| Parser.ScanWellFormed | pyconf.py:143-173 | what a parse collects is well formed: sections of token-valued items with sections (and the current section among them), token-valued items without |
| Parser.ScanRecordsLastWriteIn | pyconf.py:155-169 | with sections, the collected sections are exactly the headers present, and `found[s][n]` is the value of the last item line for `n` under the last header of `s` |
| Parser.ScanRecordsLastWrite | pyconf.py:167-170 | without sections, `found[n]` is the value of the last item line for `n` |
| Resolver.Qualifiers | pyconf.py:75 | the defaults walk keys are exactly the non-`None` arguments, in the order file, section, item: as many keys as such arguments, the file first when given, the section next, the item last |
| Resolver.CheckArgs | pyconf.py:34-39 | the checks pass exactly when the arguments are well typed (section a `str` with sections, file a `str` with files, item a `str`), and a failure is always an argument `TypeError` |
| Resolver.Descend | pyconf.py:41-66 | a failed descent is a not-found error, or the bare `KeyError` of a failed lazy load; a `FileLoadError` arises only with files, explicit loading and the source not in the tree |
| Resolver.Walk | pyconf.py:73-79 | indexing the defaults key by key; its properties are `Resolver.WalkAppend`, and `Conf.PyConf.WalkDefaults` is proved equal to it |
| Resolver.WalkAppend | pyconf.py:75-76 | walking a concatenation of keys is walking the first part and then the rest from where it reached; a miss or a string indexed in the first part ends the walk |
| Resolver.Recover | pyconf.py:68-79 | a value is returned only for a not-found error with defaults whose walk reaches that value; otherwise the error is the original one or, after a not-found error, the `TypeError` of indexing a string |
| Resolver.Resolve | pyconf.py:32-79 | the answer of `get_item`; its properties are the `Resolver` lemmas below, and `Conf.PyConf.GetItem` is proved equal to it |
| Resolver.ArgumentErrorIff | pyconf.py:34-39 | a `TypeError` for an argument is raised exactly when section (with sections), file (with files) or item is not a `str` |
| Resolver.ArgumentErrorBeforeLookup | pyconf.py:32-39 | the argument error does not depend on the item tree or on the defaults |
| Resolver.FirstMissDecides | pyconf.py:41-66 | without defaults, a missing file, section or item is reported by the first missing level in the order file, section, item; a hit returns the stored value |
| Resolver.DefaultsOnlyOnMiss | pyconf.py:63-71 | a hit is the same whatever the defaults |
| Resolver.DefaultsKeepOriginalError | pyconf.py:68-79 | with defaults, a failed lookup raises the error the lookup without defaults raised; the only other failure is the `TypeError` of indexing a string value, which needs a not-found error and a defaults walk that indexes a string |
| Resolver.DefaultsMissReraises | pyconf.py:78-79 | after a not-found error, a key missing along the defaults walk re-raises exactly the original error |
| Resolver.DefaultsStrIndexed | pyconf.py:75-76 | after a not-found error, a defaults walk that indexes a string value gives the `TypeError` |
| Resolver.DefaultsFallback | pyconf.py:69-77 | after a not-found error, the value the defaults hold along the non-`None` arguments is returned |
| Resolver.KeyErrorSkipsDefaults | pyconf.py:45-49 | with files and implicit loading, a source missing from the tree gives a bare `KeyError`, whatever the defaults |
| Resolver.UnusedQualifiersIgnored | pyconf.py:45-60 | without sections the section argument, and without files the file argument, have no effect on the item-tree lookup |
| Resolver.SameSourceSameAnswer | pyconf.py:41-79 | with files, a lookup into a source depends only on what the tree holds under that source |
| Resolver.HitIsToken | pyconf.py:62-64 | a hit in a well-formed item tree is a string value that is a token |
| Conf.ParseSource | pyconf.py:108-111 | an unopenable source is exactly an `IOError`; an opened source fails exactly when its lines fail to parse, with the `ParsingError` of its first refused line (`Parser.Located`), and otherwise yields what the parse found |
| Conf.Loaded | pyconf.py:108-113 | the tree after `load`; its properties are `Conf.LoadedKeepsWellFormed` and the lookup lemmas below, and `Conf.PyConf.Load` is proved equal to it |
| Conf.LoadedAll | pyconf.py:14-15 | the tree after loading a list of sources in order; `Conf.PyConf.constructor` is proved equal to it |
| Conf.LoadedKeepsWellFormed | pyconf.py:108-113 | loading a source, whether it parses or not, keeps the item tree well formed |
| Conf.LookupAfterLoadSectioned | pyconf.py:175-176 | with files and sections, a lookup into a loaded source answers the last value written under the last header of the section; an item missing from it gives `ItemLoadError` when the section has a header, otherwise `SectionLoadError` |
| Conf.LookupAfterLoadFlat | pyconf.py:175-176 | with files and no sections, a lookup into a loaded source answers its last value for the item, or `ItemLoadError` |
| Conf.LookupAfterMergeSectioned | pyconf.py:177-178 | without files, a section the source has is replaced as a whole by the source's version; a section it lacks answers as before |
| Conf.LookupAfterMergeFlat | pyconf.py:177-178 | with neither files nor sections, the source's last value for an item overrides the stored one; an item it does not set answers as before |
| Conf.ReloadReplaces | pyconf.py:175-176 | with files, after re-loading a source every lookup into it is independent of what was stored before |
| Conf.OtherSourcesUntouched | pyconf.py:175-176 | with files, loading a source leaves every lookup into another source as it was |
| Conf.PyConf.constructor | pyconf.py:6-15 | the options are recorded and the tree is the empty tree after loading each listed source in order, skipping those that fail |
| Conf.PyConf.Load | pyconf.py:108-113 | the tree becomes the loaded tree (unchanged on failure); an `IOError` or `ParsingError` is reported only when `raise_errors` is set |
| Conf.PyConf.ParseFile | pyconf.py:143-178 | on success the found sections or items are committed; on failure the tree is unchanged and the error is the one the line-by-line read stops at; the tree stays well formed |
| Conf.PyConf.CommitParsed | pyconf.py:175-178 | the found sections or items are committed as `Parser.Commit` says, and the tree stays well formed |
| Conf.PyConf.ParseLine | pyconf.py:149-173 | one line's effect is the `Step` the classification of that line calls for: skipped, a section opened, an item recorded, or a `ParsingError` for that line |
| Conf.PyConf.GetItem | pyconf.py:32-79 | the answer is `Resolve` on the new tree; the tree changes only on the lazy-load branch, and then to the loaded tree |
| Conf.PyConf.WalkDefaults | pyconf.py:73-79 | indexing the defaults with each key in turn ends where `Walk` says: a value, a missing key, or a string indexed |
| Conf.PyConf.GetItems | pyconf.py:82-92 | `None` exactly when both filters are falsy; otherwise an error: the file's `TypeError` first, then the section's, else `StandardError('Reimplement')` |
| Examples.ItemLineWithComment | pyconf.py:128-141 | `key = value # note` is the item `key` with value `value` |
| Examples.HeaderWithComment | pyconf.py:115-126 | `[Section A] # note` is a header of `Section A` |
| Examples.SpacedNameIsMalformed | pyconf.py:128-141 | `two words = x` is refused |
| Examples.ItemBeforeHeader | pyconf.py:165-166 | with sections and no current section, `a = b` on line 1 of `f` is `ParsingError("f", "a = b", 1)` |
| Examples.DbLookups | pyconf.py:41-79 | a stored value is found; a missing section is a `SectionLoadError` even with defaults that lack it; an unknown source with explicit loading is a `FileLoadError` |
| Examples.SectionRequired | pyconf.py:34-35 | with sections, a `None` section is a `TypeError` |
| Examples.DefaultsOnEmptyTree | pyconf.py:68-77 | an empty tree falls back on the defaults' value |
| Examples.SectionStillQualifiesDefaults | pyconf.py:75-79 | without sections, the defaults are still indexed by the section argument |

## Left out

- The first `load` method at `pyconf.py:17-25` is not modelled. The later definition at line 108 replaces it, so it can never run.
- Exception messages and `__str__` are not modelled. Each error keeps only the fields it is raised with.
- `IdentifierError` is not modelled, because nothing raises it.
- Real file I/O is not modelled. A source is given as its name and the lines that opening it would read, or `None` when it cannot be opened, which becomes `IOError`. The name a file object carries is taken to be the path it was opened with.
- Python's `re` engine is not modelled. The two patterns are replaced by scanners that are proved equivalent to grammars read off the patterns. Whitespace is Python 2's ASCII whitespace.
- Conf.PyConf.GetItems: models the method only up to its unconditional `raise StandardError('Reimplement')`. The lines after it can never run, and the `deepcopy` before it has no visible effect.
- Resolver.Walk: treats a non-string argument as a key the defaults do not hold. A default value can only be a string or a mapping with string keys. So indexing a string value by an integer (which Python answers with a character) and unhashable arguments are not modelled. Any index into a string value is modelled as Python's `TypeError`.
- Resolver.Descend: indexes a string value in the item tree as if it had no children. This case cannot arise in a well-formed tree, which `PyConf.Valid` maintains.
- Default parameter values are not modelled: every argument is passed explicitly, and `Absent` stands for `None`.
- Concurrency is not modelled; the source has none.
