# varip in Dafny

varip searches a directory tree for configuration keys. It looks in
`.env*`, `.properties`, `.json`, `.yml` and `.yaml` files, and reports every
key that contains a user pattern, ignoring case. This project models the
core of that program and proves what it does.

- **Search pattern.** `generateRegex` builds `(?i)` + `QuoteMeta(p)`.
  The model reads that expression back. It proves the expression is an
  ASCII case-insensitive search for the literal `p`, so metacharacters
  stand only for themselves.
- **Parsers.** `ParseEnvFile` scans lines. Each line is split at its first
  `=`, and only the key is tested. `ParseJSONFile` and `ParseYAMLFile`
  flatten a decoded tree into a map from dotted keys to scalars.
  - `flattenJSON` and `flattenYAML` write into a map that the caller owns.
    This is the class `FlatMap` and the recursive method `Flatten`.
  - `Flatten` is proved against `Store(old, prefix, Leaves(v))`. Lemmas
    then prove that map sound and complete with respect to the tree.
- **File types and dispatch.** `isSupportedFileType` is a loop over the
  glob patterns. It is proved equal to simple prefix and suffix tests on
  the base name. `parseFile` is the switch that picks a parser.
  - For every entry path, the parser it picks depends on the base name
    alone.
  - It picks a parser exactly for the supported files.
  - Every file the walk parses therefore reaches one of the three parsers.
    This holds from a directory root, or from a file root whose path does
    not end in `/`. Go never walks a file root with a trailing `/`:
    `os.Stat` fails on it, so `exists` reports it missing.
- **Directory walk.** The file system is an abstract tree. A directory
  lists its entries in the order `os.ReadDir` gives them, and its listing
  may fail.
  - `Walk` states which events the walk produces, in pre-order: a file to
    parse, or a listing error to report.
  - The method `WalkDir` visits the tree entry by entry, as
    `filepath.WalkDir` does with the callback. It is proved to follow `Walk`.
  - `Ran` relates those events to what the program prints, and to how the
    run ends. A run either completes, or stops at the first file whose
    parsing panics.
  - Both callbacks are modelled: the current one (`SearchHandler.Search`)
    and the older `search` of main.go.
- **Skipping rules.** Lemmas show:
  - unless hidden entries are shown, hidden entries are walked as if they
    were absent, and so, with the current callback, are ignored entries;
  - every parsed file passes all the rules;
  - with hidden entries shown, exactly the supported files are parsed;
  - the current callback parses nothing that the older one does not.

Three behaviours of the code are easy to miss:
- A list under a map key gives keys such as
  `environmentVariables.[0].name`, with a dot before the index, not
  `environmentVariables[0].name` as one might expect. The map branch adds `key.` and the
  sequence branch then adds `[i].` (`Flattener.ListUnderKeyExample`).
- Flattened keys can collide. A key that contains a `.` can spell the same
  path as a nested map, and the later entry then overwrites the earlier one
  (`Flattener.CollidingKeysExample`). So the number of keys equals the
  number of leaves exactly when no two keys coincide
  (`Flattener.FlattenedSound`).
- A YAML document whose root is a scalar, or that is empty, makes
  `flattenYAML` slice an empty prefix, and the program panics. The model
  reports this as a crash.

## Model

| member | source | states |
|---|---|---|
| Text.NatToString | parser.go:121 | the index text of a sequence step is a non-empty run of decimal digits, with no leading zero, that spells the index |
| Text.NatToStringInjective | parser.go:121 | different indexes are spelled differently, so each item of a sequence gets its own key |
| Paths.Base | main.go:124 | the base name is never empty, and has no `/` unless it is the root `/` |
| Paths.BaseOfJoin | searchHandler.go:40 | below the root, the base name of an entry's path is the entry's own name, so `filepath.Base(path)` and `d.Name()` agree |
| Paths.SuffixOfBase | searchHandler.go:82-86 | for a suffix without `/`, testing the whole path is the same as testing its base name |
| Paths.GlobLiteralThenStar | main.go:125 | `lit*` matches exactly the names that start with `lit` and have no `/` after it |
| Paths.GlobStarThenLiteral | main.go:125 | `*lit` matches exactly the names that end with `lit` and have no `/` before it |
| Patterns.UnquoteQuoteMeta | main.go:162 | reading the escaped text back gives the user's pattern unchanged |
| Patterns.GenerateRegex | main.go:161-165 | the expression searches for the literal pattern: it matches a string iff the string contains the pattern, ignoring ASCII case |
| Patterns.GeneratedSourceOfPlainPattern | main.go:162 | a pattern without metacharacters becomes `(?i)` followed by the pattern itself |
| Patterns.MatchIgnoresCaseOfText | main.go:162 | whether a key matches does not depend on the case of the key |
| Patterns.MatchIgnoresCaseOfPattern | main.go:162 | patterns that differ only in case select the same keys |
| Patterns.MixedCasePatternExample | main.go:162 | the pattern `sprIng` selects `spring.datasource.url` |
| Patterns.MetacharacterIsLiteralExample | main.go:162 | the pattern `a.b` selects `A.B` but not `axb` |
| Flattener.Segment | parser.go:117-121 | each step adds text ending in `.`, so the final cut removes exactly that dot |
| Flattener.FlatMap.constructor | parser.go:98 | the flattening starts from an empty map |
| Flattener.Flatten | parser.go:113-146 | the map afterwards is the old map with every leaf of the tree written under its key, in visiting order, and nothing else changed |
| Flattener.LeavesSound | parser.go:113-130 | every leaf the flattening writes is a scalar of the tree, at the end of its route |
| Flattener.LeavesComplete | parser.go:113-130 | every scalar of the tree, with its route, is among the leaves written |
| Flattener.StoreOnlyAdds | parser.go:128 | flattening only inserts: every key already in the map stays, and keeps its value unless a leaf is written under it |
| Flattener.KeySetSize | parser.go:128 | there are never more keys than leaves, and exactly as many iff no two leaves spell the same key |
| Flattener.FlattenedSound | parser.go:133-146 | the keys are exactly the spelled routes of the leaves, there are at most as many keys as leaves (as many iff no two routes spell the same key), and each value is the scalar at the end of a route spelled by its key |
| Flattener.FlattenedComplete | parser.go:133-146 | every scalar appears under the key its route spells; when no two routes spell the same key, it keeps its own value and there are exactly as many keys as leaves |
| Flattener.ListUnderKeyExample | parser.go:117-121 | a list under `xs` gives the keys `xs.[0]` and `xs.[1]` |
| Flattener.EmptyContainersExample | parser.go:114-122 | empty maps and empty sequences contribute no key |
| Flattener.CollidingKeysExample | parser.go:116-117 | a key `a.b` and a nested `a` → `b` spell the same key, and the later one wins: two leaves, one entry |
| Parsers.SplitN2 | parser.go:38 | a line splits into two parts iff it holds the separator: the text before its first occurrence, and all the rest |
| Parsers.EnvMatchesSound | parser.go:35-45 | every match comes from a line holding `=`; its key is the text before the first `=`, its value everything after, and the pattern selects the key |
| Parsers.EnvMatchesComplete | parser.go:35-45 | every line that holds `=` and whose key the pattern selects gives a match with that line's number |
| Parsers.EnvMatchesOrdered | parser.go:31-42 | matches are in file order: line numbers strictly increase |
| Parsers.ParseEnvFile | parser.go:23-49 | an open error for a missing file; otherwise the matches of its lines, numbered from 1 |
| Parsers.SelectMatches | parser.go:74-80 | the result lists each flattened key that the pattern selects exactly once, with its value, line 0 and the file's path |
| Parsers.ParseJSONFile | parser.go:53-83 | the open and decode errors; the null document has no matches; a non-object root fails to decode; otherwise exactly the selected flattened keys |
| Parsers.ParseYAMLFile | parser.go:87-109 | the open and decode errors; a panic for a scalar, empty or null document; otherwise exactly the selected flattened keys |
| FileTypes.IsSupportedFileType | main.go:120-132 | the loop answers true iff some supported pattern matches the base name |
| FileTypes.SupportedByAffix | main.go:121-127 | a file is supported iff its base name starts with `.env` or ends with `.json`, `.properties`, `.yml` or `.yaml` |
| FileTypes.DispatchExactlySupported | main.go:139-149 | for every entry path, the switch picks a parser iff the file is supported |
| FileTypes.DispatchByBaseName | searchHandler.go:81-88 | for every entry path, the parser picked depends on the base name alone: the suffix tests on the whole path agree with the same tests on the base name |
| FileTypes.EnvPrefixWinsExample | searchHandler.go:81-85 | `.env.json` goes to the env parser, because the `.env` test comes first |
| FileTypes.NoParserFor | searchHandler.go:81-91 | a path whose base name does not start with `.` and whose last character is not `n`, `s` or `l` gets no parser |
| FileTypes.InnerExtensionExample | searchHandler.go:81-91 | `app.yaml.txt` gets no parser: only the suffix counts |
| Search.IsIgnored | searchHandler.go:48-55 | the loop answers true iff some ignored fragment occurs anywhere in the path |
| Search.SymlinkGuardNeverFires | searchHandler.go:32 | no file mode is both regular and a symlink, so the guard never skips anything |
| Search.Visit | searchHandler.go:32-64 | the callback's answer for one entry is the policy `Decide`: the hidden rule, then the ignore list (current callback only), then the supported-file gate |
| Search.ParseFile | searchHandler.go:77-100 | the switch and the chosen parser's outcome; the result is a panic iff the file is YAML with a scalar, empty or null document; every error names the path |
| Search.WalkDir | searchHandler.go:25-67 | the walk from an entry produces exactly the reports of `Walk`'s events, in order, and ends as `Ran` says |
| Search.WalkFile | searchHandler.go:58-66 | a file is parsed only when the callback says so; a parse error is reported and the walk goes on; a panic ends the run |
| Search.WalkDirectory | searchHandler.go:37-56 | a skipped directory contributes nothing; otherwise its listing error and its entries follow |
| Search.WalkListing | searchHandler.go:25-29 | a listing error is reported first, then each listed entry is walked in order until one panics |
| Search.RanShape | searchHandler.go:59-66 | a run has at most one report per event; it completes iff every event was reported; a crash stops at a file whose parsing panics |
| Search.RanEach | searchHandler.go:59-63 | each report is the right one for its event: the file's matches, its parse error, or the walk error |
| Search.CompletedIffNoPanic | searchHandler.go:66-73 | a run completes iff no event panics: parse errors never stop the walk |
| Search.ParsedFilesPassRules | searchHandler.go:37-58 | every parsed file is supported; unless hidden entries are shown its name is not hidden, and with the current callback its path holds no ignored fragment |
| Search.HiddenEntryOmitted | searchHandler.go:37-45 | unless hidden entries are shown, a hidden entry is walked as if absent: nothing below a hidden directory is visited |
| Search.IgnoredEntryOmitted | searchHandler.go:47-55 | unless hidden entries are shown, an entry whose path holds an ignored fragment is walked as if absent |
| Search.IgnoredRootYieldsNothing | searchHandler.go:47-55 | with the current callback, and unless hidden entries are shown, a root whose path holds an ignored fragment, such as any root under `/tmp`, yields nothing |
| Search.HiddenRootYieldsNothing | searchHandler.go:40-45 | unless hidden entries are shown, a root with a hidden name yields nothing |
| Search.DotRootYieldsNothing | searchHandler.go:40 | searching `.` itself yields nothing unless hidden entries are shown |
| Search.ShowHiddenParsesEverySupportedFile | searchHandler.go:37-58 | with hidden entries shown, a path is parsed iff it is a file of the tree (the root included) and is supported, for either callback |
| Search.ParsedPathsAreEntryPaths | searchHandler.go:25-59 | from a directory root, or a file root whose path does not end in `/`, every path the walk parses is non-empty and does not end in `/` |
| Search.ParsedFilesHaveParser | searchHandler.go:58-59 | from a directory root, or a file root whose path does not end in `/`, every path the walk hands to `parseFile` gets a parser, so the unsupported-type error is never reached |
| Search.CurrentVerdictWithinLegacy | main.go:86-91 | on one entry, whatever the current callback walks into or parses, the older one does too |
| Search.CurrentWithinLegacy | main.go:85-101 | every event of the current walk is an event of the older walk |
| Search.Search | searchHandler.go:20-74 | an error iff the root does not exist; otherwise the walk with the current callback, and nil whatever it reported, unless a file panicked |
| Search.LegacySearch | main.go:78-111 | a missing root reports the walk error and then panics on the nil entry; otherwise the walk with the older callback |

## Left out

- File I/O is not modelled. A file is given by what reading and decoding
  produce: its lines and its JSON and YAML decodings. A path missing from
  `Files` cannot be opened. `ParseJSONFile` opens and then reads the file;
  both are one lookup here.
- The existence check (`exists`, which calls `os.Stat`) is the `Option`
  around the root. A `Stat` error other than "does not exist" is not told
  apart from a missing root. `Search` and `LegacySearch` accept any root
  they are given, including a file at a path ending in `/`, which
  `os.Stat` rejects in Go.
- `bufio.Scanner` line splitting is not modelled: input lines are given.
  Its 64 KB token limit is left out as well. The source never checks
  `scanner.Err()`, so a longer line silently ends the scan.
- The JSON and YAML decoders are left out. A document is a tree of maps,
  sequences and scalars. The `map[interface{}]interface{}` branch of
  `flattenYAML` is covered by the same `Map` case, with keys already text.
- `fmt.Sprintf("%v")` rendering of numbers, booleans and nil is left out.
  A scalar is the text it prints as.
- Go map iteration order is random. The model makes these choices:
  - A map's entries are visited in the order of the `entries` sequence, so
    which of two colliding keys wins depends on that order.
  - The loop over the flattened map picks keys in an arbitrary order, and
    the result is specified as a set.
- The regular expression engine is left out. An expression is modelled
  only in the form `generateRegex` builds, and case folding is ASCII only.
  The pattern is modelled as Unicode text. Go rejects a pattern that is
  not valid UTF-8; that compile error, and the fatal exit through
  `log.Fatalf` that follows it, are left out.
- `filepath.Match` is modelled only for patterns made of literal
  characters and `*`, which is all the supported patterns use.
- `filepath.WalkDir` itself is modelled over the abstract tree.
  - Entries come in the order given; the sort by name that `os.ReadDir`
    does is not modelled.
  - `filepath.Clean` and `filepath.Abs` of the root are not modelled.
  - The `Clean` inside `filepath.Join` is not modelled either. From a root
    `.`, an entry's path is `./name` in the model and `name` in Go, so the
    printed paths differ.
  - A directory whose listing failed keeps the entries read before the
    failure.
- Printing is left out. This covers `printMatches`, `handleError`,
  `verbose`, colours and the output text. A report records what would be
  printed: a file's matches, its parse error, or a walk error.
- The command line (`main`, the cli wiring, `setupApp`) is not part of
  this model.
- Search.WalkDir: a run that panics is recorded as `Crashed` at the
  panicking file. What the Go runtime prints then is left out.
