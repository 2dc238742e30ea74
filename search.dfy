/**
 * The directory walk of searchHandler.go (`Search`) and of its older
 * variant in main.go (`search`), together with the `parseFile` switch.
 *
 * The file system is an abstract tree: a directory lists its entries in
 * the order `os.ReadDir` returns them, and may fail to be read. `Walk`
 * states which files the walk hands to the parsers, in pre-order; the
 * method `WalkDir` does what `filepath.WalkDir` and the callback do, entry
 * by entry, and is proved to follow `Walk`.
 */
module Search {
  import opened Wrappers
  import opened Text
  import opened Paths
  import opened Patterns
  import opened Parsers
  import opened FileTypes
  import opened Seqs

  /** Fragments that exclude a path when they occur anywhere in it. */
  const IgnoredDirectories: seq<string> := ["vendor", "node_modules", "__pycache__", "build", "dist", ".git", "tmp"]

  /** Some ignored fragment occurs in `path`. */
  predicate Ignored(path: string)
  {
    exists i | 0 <= i < |IgnoredDirectories| :: Contains(path, IgnoredDirectories[i])
  }

  /** The loop over the ignore list, which stops at the first fragment found. */
  method IsIgnored(path: string) returns (ignored: bool)
    ensures ignored == Ignored(path)
  {
    for i := 0 to |IgnoredDirectories|
      invariant forall j :: 0 <= j < i ==> !Contains(path, IgnoredDirectories[j])
    {
      if Contains(path, IgnoredDirectories[i]) {
        return true;
      }
    }
    return false;
  }

  /** The type bits of an `fs.FileMode`, as the `io/fs` package numbers them. */
  type FileMode = bv32
  const ModeDir: FileMode := 0x8000_0000
  const ModeSymlink: FileMode := 0x0800_0000
  const ModeDevice: FileMode := 0x0400_0000
  const ModeNamedPipe: FileMode := 0x0200_0000
  const ModeSocket: FileMode := 0x0100_0000
  const ModeCharDevice: FileMode := 0x0020_0000
  const ModeIrregular: FileMode := 0x0008_0000
  const ModeType: FileMode := ModeDir | ModeSymlink | ModeNamedPipe | ModeSocket | ModeDevice | ModeCharDevice | ModeIrregular

  /** `FileMode.IsRegular`: no type bit is set. */
  predicate IsRegular(mode: FileMode)
  {
    mode & ModeType == 0
  }

  /** The symlink guard of the callback asks for a regular mode with the symlink bit: no mode is both. */
  lemma SymlinkGuardNeverFires(mode: FileMode)
    ensures !(IsRegular(mode) && mode & ModeSymlink != 0)
  {
  }

  /** The two callbacks: `Search` in searchHandler.go and the older `search` in main.go. */
  datatype Handler = Current | Legacy

  /** What the callback does with an entry: skip the directory, go on without parsing, or parse the file. */
  datatype Verdict = Prune | Pass | Parse

  /** A hidden name: it starts with `.` and does not contain `.env`. */
  predicate HiddenName(name: string)
  {
    StartsWith(name, ".") && !Contains(name, ".env")
  }

  /**
   * The hidden rule. The current callback tests the `.` on the base name of
   * the path and `.env` on the entry name; the older one tests both on the
   * entry name.
   */
  predicate Hidden(h: Handler, path: string, name: string)
  {
    match h
    case Current => StartsWith(Base(path), ".") && !Contains(name, ".env")
    case Legacy => HiddenName(name)
  }

  /**
   * The verdict of the callback for an entry: unless hidden entries are
   * shown, a hidden entry (and, for the current callback, one whose path
   * holds an ignored fragment) is skipped, together with its subtree when it
   * is a directory; a file that is not skipped is parsed when its type is
   * supported.
   */
  function Decide(h: Handler, path: string, name: string, isDir: bool, showHidden: bool): Verdict
  {
    if !showHidden && (Hidden(h, path, name) || (h == Current && Ignored(path))) then
      if isDir then Prune else Pass
    else if !isDir && SupportedFileType(path) then Parse
    else Pass
  }

  /**
   * The decision part of the WalkDir callback, in the order the code takes
   * it: the symlink guard, the hidden rule, the ignore list (current
   * callback only), and the supported-file gate.
   */
  method Visit(h: Handler, path: string, name: string, mode: FileMode, isDir: bool, showHidden: bool)
    returns (v: Verdict)
    ensures v == Decide(h, path, name, isDir, showHidden)
  {
    SymlinkGuardNeverFires(mode);
    if IsRegular(mode) && mode & ModeSymlink != 0 {
      assert false;
    }
    if !showHidden {
      var hidden := match h
        case Current => StartsWith(Base(path), ".") && !Contains(name, ".env")
        case Legacy => StartsWith(name, ".") && !Contains(name, ".env");
      if hidden {
        return if isDir then Prune else Pass;
      }
      if h == Current {
        var ignored := IsIgnored(path);
        if ignored {
          return if isDir then Prune else Pass;
        }
      }
    }
    if !isDir {
      var supported := IsSupportedFileType(path);
      if supported {
        return Parse;
      }
    }
    return Pass;
  }

  /**
   * An entry of the file system: a file with its type bits, or a directory
   * with the entries `os.ReadDir` lists and whether that listing failed
   * (after a failure the listed entries are those read before it).
   */
  datatype Node =
    | File(name: string, mode: FileMode)
    | Dir(name: string, children: seq<Node>, listFailed: bool)

  /** Every entry below `node` has a proper name. */
  predicate WellNamed(node: Node)
    decreases node
  {
    node.Dir? ==>
      forall i | 0 <= i < |node.children| :: ValidName(node.children[i].name) && WellNamed(node.children[i])
  }

  /** What the walk asks of the rest of the program: parse a file, or report an error on a directory. */
  datatype Event = ParseAt(path: string) | ListFailedAt(path: string)

  /**
   * The events of walking `node`, found at `path` and named `name`, in
   * pre-order: a skipped entry contributes nothing, a parsed file its
   * `ParseAt`, and a directory its listing error (reported by the second
   * callback call) followed by the events of its entries in listed order.
   */
  function Walk(h: Handler, path: string, name: string, node: Node, showHidden: bool): seq<Event>
    decreases node
  {
    match node
    case File(_, _) =>
      if Decide(h, path, name, false, showHidden) == Parse then [ParseAt(path)] else []
    case Dir(_, children, failed) =>
      if Decide(h, path, name, true, showHidden) == Prune then []
      else ListingEvents(path, failed) + WalkEntries(h, path, children, showHidden)
  }

  /** The listing error of a directory, when its listing failed. */
  function ListingEvents(path: string, failed: bool): seq<Event>
  {
    if failed then [ListFailedAt(path)] else []
  }

  /** The events of the entries of the directory at `dir`, one entry after another. */
  function WalkEntries(h: Handler, dir: string, entries: seq<Node>, showHidden: bool): seq<Event>
    decreases entries
  {
    if entries == [] then []
    else
      var last := entries[|entries| - 1];
      WalkEntries(h, dir, entries[..|entries| - 1], showHidden)
        + Walk(h, Join(dir, last.name), last.name, last, showHidden)
  }

  /** `parseFile`: the switch on the path, then the parser it picks. */
  ghost predicate ParsedAs(path: string, re: Regexp, files: Files, r: Result<seq<Match>, ParseError>)
  {
    match Dispatch(path)
    case None => r == Err(UnsupportedFileType(path))
    case Some(EnvParser) => EnvOutcome(path, re, files, r)
    case Some(JsonParser) => JsonOutcome(path, re, files, r)
    case Some(YamlParser) => YamlOutcome(path, re, files, r)
  }

  /** Parsing `path` panics: a YAML file whose document is a scalar, empty or null. */
  predicate Panics(path: string, files: Files)
  {
    Dispatch(path) == Some(YamlParser) && YamlPanics(path, files)
  }

  /** `parseFile`, with the switch of searchHandler.go and main.go. */
  method ParseFile(path: string, re: Regexp, files: Files) returns (r: Result<seq<Match>, ParseError>)
    ensures ParsedAs(path, re, files, r)
    ensures r == Err(SliceOutOfRange(path)) <==> Panics(path, files)
    ensures r.Err? ==> r.error.path == path
  {
    if StartsWith(Base(path), ".env") || EndsWith(path, ".properties") {
      r := ParseEnvFile(path, re, files);
    } else if EndsWith(path, ".json") {
      r := ParseJSONFile(path, re, files);
    } else if EndsWith(path, ".yml") || EndsWith(path, ".yaml") {
      r := ParseYAMLFile(path, re, files);
    } else {
      r := Err(UnsupportedFileType(path));
    }
  }

  /** What the program prints for one event. */
  datatype Report =
    | Printed(path: string, matches: seq<Match>)   // `printMatches` (which prints nothing for no matches)
    | FileFailed(path: string, error: ParseError)  // `handleError` on the error of `parseFile`
    | WalkFailed(path: string)                     // `handleError` on an error of the walk

  /** How a search ends. */
  datatype Status =
    | Completed        // the walk ran to its end and the search returned nil
    | RootMissing      // the root does not exist and the search returned an error
    | Crashed(path: string)  // the program panicked while visiting `path`

  /** `rep` is what the program prints for `e`, which does not panic. */
  ghost predicate Reported(e: Event, rep: Report, re: Regexp, files: Files)
  {
    match e
    case ListFailedAt(p) => rep == WalkFailed(p)
    case ParseAt(p) =>
      !Panics(p, files) &&
      match rep
      case Printed(q, ms) => q == p && ParsedAs(p, re, files, Ok(ms))
      case FileFailed(q, err) => q == p && ParsedAs(p, re, files, Err(err))
      case WalkFailed(_) => false
  }

  /** The event is a file whose parsing panics. */
  predicate PanicsAt(e: Event, files: Files)
  {
    e.ParseAt? && Panics(e.path, files)
  }

  /**
   * Running the events in order printed `reports` and ended with `status`:
   * one report for each event, until the end or until the first file whose
   * parsing panics, which ends the program.
   */
  ghost predicate Ran(events: seq<Event>, re: Regexp, files: Files, status: Status, reports: seq<Report>)
    decreases |events|
  {
    if events == [] then status == Completed && reports == []
    else if PanicsAt(events[0], files) then status == Crashed(events[0].path) && reports == []
    else
      reports != [] && Reported(events[0], reports[0], re, files)
      && Ran(events[1..], re, files, status, reports[1..])
  }

  /** Running the events went to the end and printed `reports`. */
  ghost predicate CompletedRun(events: seq<Event>, re: Regexp, files: Files, reports: seq<Report>)
  {
    Ran(events, re, files, Completed, reports)
  }

  /**
   * A run gives one report per event up to the end, or up to the file that
   * crashed; it never ends with a missing root.
   */
  lemma {:induction false} RanShape(events: seq<Event>, re: Regexp, files: Files, status: Status, reports: seq<Report>)
    requires Ran(events, re, files, status, reports)
    ensures |reports| <= |events|
    ensures status == Completed <==> |reports| == |events|
    ensures status.Crashed? ==>
      (|reports| < |events| && events[|reports|] == ParseAt(status.path) && Panics(status.path, files))
    ensures status != RootMissing
    decreases |events|
  {
    if events != [] && !PanicsAt(events[0], files) {
      RanShape(events[1..], re, files, status, reports[1..]);
      if status.Crashed? {
        assert events[1..][|reports[1..]|] == events[|reports|];
      }
    }
  }

  /** Each report of a run is the right one for its event. */
  lemma RanEach(events: seq<Event>, re: Regexp, files: Files, status: Status, reports: seq<Report>, i: nat)
    requires Ran(events, re, files, status, reports)
    requires i < |reports|
    ensures i < |events| && Reported(events[i], reports[i], re, files)
  {
    RanShape(events, re, files, status, reports);
    RanSuffix(events, re, files, status, reports, i);
  }

  /** What is left of a run after its first `i` reports is a run of the remaining events. */
  lemma {:induction false} RanSuffix(events: seq<Event>, re: Regexp, files: Files, status: Status, reports: seq<Report>, i: nat)
    requires Ran(events, re, files, status, reports)
    requires i <= |reports|
    ensures i <= |events| && Ran(events[i..], re, files, status, reports[i..])
    decreases i
  {
    RanShape(events, re, files, status, reports);
    if i > 0 {
      RanSuffix(events[1..], re, files, status, reports[1..], i - 1);
      assert events[1..][i - 1..] == events[i..];
      assert reports[1..][i - 1..] == reports[i..];
    }
  }

  /** A run completes exactly when no event panics. */
  lemma {:induction false} CompletedIffNoPanic(events: seq<Event>, re: Regexp, files: Files, status: Status, reports: seq<Report>)
    requires Ran(events, re, files, status, reports)
    ensures status == Completed <==> forall i :: 0 <= i < |events| ==> !PanicsAt(events[i], files)
    decreases |events|
  {
    if events != [] && !PanicsAt(events[0], files) {
      CompletedIffNoPanic(events[1..], re, files, status, reports[1..]);
      assert forall i :: 1 <= i < |events| ==> events[1..][i - 1] == events[i];
    }
  }

  /** A run that completes, followed by any run, is a run of both event lists. */
  lemma {:induction false} RanAppend(e1: seq<Event>, e2: seq<Event>, re: Regexp, files: Files,
                                     r1: seq<Report>, s2: Status, r2: seq<Report>)
    requires Ran(e1, re, files, Completed, r1)
    requires Ran(e2, re, files, s2, r2)
    ensures Ran(e1 + e2, re, files, s2, r1 + r2)
    decreases |e1|
  {
    if e1 == [] {
      assert e1 + e2 == e2 && r1 + r2 == r2;
    } else {
      RanAppend(e1[1..], e2, re, files, r1[1..], s2, r2);
      ConsConcat(e1, e2);
      ConsConcat(r1, r2);
    }
  }

  /** A run that crashes part way is a run of any longer event list. */
  lemma {:induction false} RanPrefix(e1: seq<Event>, e2: seq<Event>, re: Regexp, files: Files, p: string, r1: seq<Report>)
    requires Ran(e1, re, files, Crashed(p), r1)
    ensures Ran(e1 + e2, re, files, Crashed(p), r1)
    decreases |e1|
  {
    ConsConcat(e1, e2);
    if !PanicsAt(e1[0], files) {
      RanPrefix(e1[1..], e2, re, files, p, r1[1..]);
    }
  }

  /**
   * `filepath.WalkDir` with the callback of `h`, from the entry `node`
   * found at `path`.
   */
  method WalkDir(h: Handler, path: string, name: string, node: Node, showHidden: bool, re: Regexp, files: Files)
    returns (status: Status, reports: seq<Report>)
    ensures Ran(Walk(h, path, name, node, showHidden), re, files, status, reports)
    decreases node, 2
  {
    if node.File? {
      status, reports := WalkFile(h, path, name, node, showHidden, re, files);
    } else {
      status, reports := WalkDirectory(h, path, name, node, showHidden, re, files);
    }
  }

  /**
   * The callback on a file: parse it when the callback says so; a parse
   * error is reported and the walk goes on, a panic ends the program.
   */
  method WalkFile(h: Handler, path: string, name: string, node: Node, showHidden: bool, re: Regexp, files: Files)
    returns (status: Status, reports: seq<Report>)
    requires node.File?
    ensures Ran(Walk(h, path, name, node, showHidden), re, files, status, reports)
  {
    var v := Visit(h, path, name, node.mode, false, showHidden);
    if v != Parse {
      return Completed, [];
    }
    var r := ParseFile(path, re, files);
    var events := [ParseAt(path)];
    assert events[1..] == [];
    if r.Err? && r.error.SliceOutOfRange? {
      return Crashed(path), [];
    }
    reports := [if r.Ok? then Printed(path, r.value) else FileFailed(path, r.error)];
    assert reports[1..] == [];
    return Completed, reports;
  }

  /**
   * The callback on a directory: when it does not skip the directory, the
   * directory is listed and its entries are walked.
   */
  method WalkDirectory(h: Handler, path: string, name: string, node: Node, showHidden: bool, re: Regexp, files: Files)
    returns (status: Status, reports: seq<Report>)
    requires node.Dir?
    ensures Ran(Walk(h, path, name, node, showHidden), re, files, status, reports)
    decreases node, 1
  {
    var v := Visit(h, path, name, ModeDir, true, showHidden);
    if v == Prune {
      return Completed, [];
    }
    status, reports := WalkListing(h, path, node, showHidden, re, files);
  }

  /**
   * A listed directory: a listing error is reported (the second call of the
   * callback) and the listed entries are walked in turn, until one of them
   * panics.
   */
  method WalkListing(h: Handler, path: string, node: Node, showHidden: bool, re: Regexp, files: Files)
    returns (status: Status, reports: seq<Report>)
    requires node.Dir?
    ensures Ran(ListingEvents(path, node.listFailed) + WalkEntries(h, path, node.children, showHidden),
                re, files, status, reports)
    decreases node, 0
  {
    var children, failed := node.children, node.listFailed;
    reports := if failed then [WalkFailed(path)] else [];
    assert CompletedRun(ListingEvents(path, failed) + WalkEntries(h, path, children[..0], showHidden), re, files, reports) by {
      assert children[..0] == [];
      assert ListingEvents(path, failed) + [] == ListingEvents(path, failed);
      if failed {
        assert ListingEvents(path, failed)[1..] == [] && reports[1..] == [];
      }
    }
    var i := 0;
    while i < |children|
      invariant 0 <= i <= |children|
      invariant CompletedRun(ListingEvents(path, failed) + WalkEntries(h, path, children[..i], showHidden),
                             re, files, reports)
    {
      var c := children[i];
      assert c < node;
      var s, rs := WalkDir(h, Join(path, c.name), c.name, c, showHidden, re, files);
      WalkStep(h, path, failed, children, i, showHidden, re, files, reports, s, rs);
      if s.Crashed? {
        return s, reports + rs;
      }
      reports := reports + rs;
      i := i + 1;
      assert CompletedRun(ListingEvents(path, failed) + WalkEntries(h, path, children[..i], showHidden),
                          re, files, reports);
    }
    assert children[..i] == children;
    return Completed, reports;
  }

  /**
   * One turn of the loop over a directory's entries: the run of entry `i`
   * extends the run so far, and a crash there is a crash of the whole
   * directory.
   */
  lemma WalkStep(h: Handler, path: string, failed: bool, children: seq<Node>, i: nat, showHidden: bool,
                 re: Regexp, files: Files, reports: seq<Report>, s: Status, rs: seq<Report>)
    requires i < |children|
    requires CompletedRun(ListingEvents(path, failed) + WalkEntries(h, path, children[..i], showHidden),
                          re, files, reports)
    requires Ran(Walk(h, Join(path, children[i].name), children[i].name, children[i], showHidden), re, files, s, rs)
    ensures s == Completed ==>
      CompletedRun(ListingEvents(path, failed) + WalkEntries(h, path, children[..i + 1], showHidden),
                   re, files, reports + rs)
    ensures s.Crashed? ==>
      Ran(ListingEvents(path, failed) + WalkEntries(h, path, children, showHidden), re, files, s, reports + rs)
    ensures s == Completed || s.Crashed?
  {
    RanShape(Walk(h, Join(path, children[i].name), children[i].name, children[i], showHidden), re, files, s, rs);
    var listing := ListingEvents(path, failed);
    var pre := WalkEntries(h, path, children[..i], showHidden);
    var here := Walk(h, Join(path, children[i].name), children[i].name, children[i], showHidden);
    var rest := WalkEntries(h, path, children[i + 1..], showHidden);
    WalkEntriesSnoc(h, path, children, i, showHidden);
    WalkEntriesSplit(h, path, children, i + 1, showHidden);
    RanStep(listing + pre, here, rest, re, files, reports, s, rs);
    ConcatAssoc(listing, pre, here);
    ConcatAssoc(listing, pre + here, rest);
    ConcatAssoc(listing + pre, here, rest);
  }

  /** The run of a completed part followed by the run of the next part, before any `rest`. */
  lemma RanStep(done: seq<Event>, here: seq<Event>, rest: seq<Event>, re: Regexp, files: Files,
                reports: seq<Report>, s: Status, rs: seq<Report>)
    requires Ran(done, re, files, Completed, reports)
    requires Ran(here, re, files, s, rs)
    ensures s == Completed ==> Ran(done + here, re, files, Completed, reports + rs)
    ensures s.Crashed? ==> Ran(done + here + rest, re, files, s, reports + rs)
  {
    RanAppend(done, here, re, files, reports, s, rs);
    if s.Crashed? {
      RanPrefix(done + here, rest, re, files, s.path, reports + rs);
    }
  }

  /** The events of the first `i + 1` entries are those of the first `i` and then those of entry `i`. */
  lemma WalkEntriesSnoc(h: Handler, dir: string, entries: seq<Node>, i: nat, showHidden: bool)
    requires i < |entries|
    ensures WalkEntries(h, dir, entries[..i + 1], showHidden)
         == WalkEntries(h, dir, entries[..i], showHidden)
          + Walk(h, Join(dir, entries[i].name), entries[i].name, entries[i], showHidden)
  {
    assert entries[..i + 1][..i] == entries[..i];
  }

  /** The events of all entries are those of the first `k` and then those of the rest. */
  lemma WalkEntriesSplit(h: Handler, dir: string, entries: seq<Node>, k: nat, showHidden: bool)
    requires k <= |entries|
    ensures WalkEntries(h, dir, entries, showHidden)
         == WalkEntries(h, dir, entries[..k], showHidden) + WalkEntries(h, dir, entries[k..], showHidden)
  {
    var a, b := entries[..k], entries[k..];
    assert a + b == entries;
    WalkEntriesAppend(h, dir, a, b, showHidden);
  }

  /** Walking two runs of entries one after the other gives the events of each in turn. */
  lemma {:induction false} WalkEntriesAppend(h: Handler, dir: string, a: seq<Node>, b: seq<Node>, showHidden: bool)
    ensures WalkEntries(h, dir, a + b, showHidden)
         == WalkEntries(h, dir, a, showHidden) + WalkEntries(h, dir, b, showHidden)
    decreases |b|
  {
    if b == [] {
      assert a + b == a;
    } else {
      var n := |b| - 1;
      assert (a + b)[..|a + b| - 1] == a + b[..n];
      WalkEntriesAppend(h, dir, a, b[..n], showHidden);
    }
  }

  /** The events of a single entry are the events of walking it. */
  lemma WalkEntriesSingle(h: Handler, dir: string, c: Node, showHidden: bool)
    ensures WalkEntries(h, dir, [c], showHidden) == Walk(h, Join(dir, c.name), c.name, c, showHidden)
  {
    assert [c][..0] == [];
  }

  /** An event of a directory's entries is an event of one of them; `i` is that entry. */
  lemma {:induction false} EntryOfEvent(h: Handler, dir: string, entries: seq<Node>, showHidden: bool, e: Event)
    returns (i: nat)
    requires e in WalkEntries(h, dir, entries, showHidden)
    ensures i < |entries| && e in Walk(h, Join(dir, entries[i].name), entries[i].name, entries[i], showHidden)
    decreases |entries|
  {
    var n := |entries| - 1;
    var last := entries[n];
    if e in Walk(h, Join(dir, last.name), last.name, last, showHidden) {
      return n;
    }
    var init := entries[..n];
    i := EntryOfEvent(h, dir, init, showHidden, e);
    assert init[i] == entries[i];
  }

  /** An event of one entry is an event of the directory's entries. */
  lemma {:induction false} EventOfEntry(h: Handler, dir: string, entries: seq<Node>, showHidden: bool, e: Event, i: nat)
    requires i < |entries| && e in Walk(h, Join(dir, entries[i].name), entries[i].name, entries[i], showHidden)
    ensures e in WalkEntries(h, dir, entries, showHidden)
    decreases |entries|
  {
    var n := |entries| - 1;
    var init, last := entries[..n], entries[n];
    var here := Walk(h, Join(dir, last.name), last.name, last, showHidden);
    assert WalkEntries(h, dir, entries, showHidden) == WalkEntries(h, dir, init, showHidden) + here;
    if i < n {
      assert init[i] == entries[i];
      EventOfEntry(h, dir, init, showHidden, e, i);
    } else {
      assert i == n;
      assert entries[i] == last;
    }
  }

  /**
   * Every file the walk parses has a supported type; unless hidden entries
   * are shown, its name is not hidden, and with the current callback its
   * path holds no ignored fragment.
   */
  lemma {:induction false} ParsedFilesPassRules(h: Handler, path: string, node: Node, showHidden: bool, p: string)
    requires WellNamed(node)
    requires ParseAt(p) in Walk(h, path, Base(path), node, showHidden)
    ensures SupportedFileType(p)
    ensures !showHidden ==> !HiddenName(Base(p))
    ensures !showHidden && h == Current ==> !Ignored(p)
    decreases node
  {
    match node
    case File(_, _) =>
    case Dir(_, children, failed) =>
      var i := EntryOfEvent(h, path, children, showHidden, ParseAt(p));
      BaseOfJoin(path, children[i].name);
      ParsedFilesPassRules(h, Join(path, children[i].name), children[i], showHidden, p);
  }

  /**
   * Below a directory root, every parsed path ends with the name of its
   * entry, so it does not end in `/`; a file root is parsed at its own path.
   */
  lemma {:induction false} ParsedPathsAreEntryPaths(h: Handler, path: string, node: Node, showHidden: bool, p: string)
    requires WellNamed(node)
    requires node.File? ==> path != [] && path[|path| - 1] != '/'
    requires ParseAt(p) in Walk(h, path, Base(path), node, showHidden)
    ensures p != [] && p[|p| - 1] != '/'
    decreases node
  {
    match node
    case File(_, _) =>
    case Dir(_, children, failed) =>
      var i := EntryOfEvent(h, path, children, showHidden, ParseAt(p));
      var c := children[i];
      var q := Join(path, c.name);
      BaseOfJoin(path, c.name);
      assert q[|q| - 1] == c.name[|c.name| - 1];
      ParsedPathsAreEntryPaths(h, q, c, showHidden, p);
  }

  /**
   * The walk hands the switch only paths it has a parser for: from a
   * directory root, or a file root whose path does not end in `/`, the
   * unsupported-type error is never reached.
   */
  lemma ParsedFilesHaveParser(h: Handler, path: string, node: Node, showHidden: bool, p: string)
    requires WellNamed(node)
    requires node.File? ==> path != [] && path[|path| - 1] != '/'
    requires ParseAt(p) in Walk(h, path, Base(path), node, showHidden)
    ensures Dispatch(p).Some?
  {
    ParsedPathsAreEntryPaths(h, path, node, showHidden, p);
    ParsedFilesPassRules(h, path, node, showHidden, p);
    DispatchExactlySupported(p);
  }

  /** An entry that contributes no event can be taken out of the listing without changing the walk. */
  lemma OmitSilentEntry(h: Handler, dir: string, entries: seq<Node>, i: nat, showHidden: bool)
    requires i < |entries|
    requires Walk(h, Join(dir, entries[i].name), entries[i].name, entries[i], showHidden) == []
    ensures WalkEntries(h, dir, entries, showHidden) == WalkEntries(h, dir, entries[..i] + entries[i + 1..], showHidden)
  {
    var a, one, b := entries[..i], [entries[i]], entries[i + 1..];
    SplitAround(entries, i);
    WalkEntriesSingle(h, dir, entries[i], showHidden);
    WalkEntriesAppend(h, dir, one, b, showHidden);
    EmptyConcat(WalkEntries(h, dir, one, showHidden), WalkEntries(h, dir, b, showHidden));
    WalkEntriesAppend(h, dir, a, one + b, showHidden);
    WalkEntriesAppend(h, dir, a, b, showHidden);
  }

  /**
   * Unless hidden entries are shown, a hidden entry of a directory is walked
   * as if it were not there: a hidden file is not parsed, and nothing below
   * a hidden directory is visited, whatever it holds.
   */
  lemma HiddenEntryOmitted(h: Handler, dir: string, entries: seq<Node>, i: nat)
    requires i < |entries| && ValidName(entries[i].name) && HiddenName(entries[i].name)
    ensures WalkEntries(h, dir, entries, false) == WalkEntries(h, dir, entries[..i] + entries[i + 1..], false)
  {
    BaseOfJoin(dir, entries[i].name);
    OmitSilentEntry(h, dir, entries, i, false);
  }

  /**
   * Unless hidden entries are shown, the current callback walks an entry
   * whose path holds an ignored fragment as if it were not there.
   */
  lemma IgnoredEntryOmitted(dir: string, entries: seq<Node>, i: nat)
    requires i < |entries| && Ignored(Join(dir, entries[i].name))
    ensures WalkEntries(Current, dir, entries, false)
         == WalkEntries(Current, dir, entries[..i] + entries[i + 1..], false)
  {
    OmitSilentEntry(Current, dir, entries, i, false);
  }

  /**
   * With the current callback, and unless hidden entries are shown, a root
   * whose path holds an ignored fragment (such as any root under `/tmp`)
   * yields nothing.
   */
  lemma IgnoredRootYieldsNothing(path: string, node: Node)
    requires Ignored(path)
    ensures Walk(Current, path, Base(path), node, false) == []
  {
  }

  /** Unless hidden entries are shown, a root whose own name is hidden yields nothing. */
  lemma HiddenRootYieldsNothing(h: Handler, path: string, node: Node)
    requires Hidden(h, path, Base(path))
    ensures Walk(h, path, Base(path), node, false) == []
  {
  }

  /**
   * Searching `.` yields nothing unless hidden entries are shown: the base
   * name of `.` is `.` itself, which the hidden rule skips.
   */
  lemma DotRootYieldsNothing(h: Handler, node: Node)
    ensures Walk(h, ".", Base("."), node, false) == []
  {
    assert Hidden(h, ".", Base(".")) by {
      assert Base(".") == ".";
      assert !Contains(".", ".env");
    }
    HiddenRootYieldsNothing(h, ".", node);
  }

  /** Every file below `node`, at its path, in pre-order. */
  function FilePaths(path: string, node: Node): seq<string>
    decreases node
  {
    match node
    case File(_, _) => [path]
    case Dir(_, children, _) => EntryFilePaths(path, children)
  }

  /** Every file below the entries of the directory at `dir`. */
  function EntryFilePaths(dir: string, entries: seq<Node>): seq<string>
    decreases entries
  {
    if entries == [] then []
    else
      var last := entries[|entries| - 1];
      EntryFilePaths(dir, entries[..|entries| - 1]) + FilePaths(Join(dir, last.name), last)
  }

  /** A file below a directory's entries is below one of them; `i` is that entry. */
  lemma {:induction false} EntryOfFile(dir: string, entries: seq<Node>, p: string) returns (i: nat)
    requires p in EntryFilePaths(dir, entries)
    ensures i < |entries| && p in FilePaths(Join(dir, entries[i].name), entries[i])
    decreases |entries|
  {
    var n := |entries| - 1;
    var last := entries[n];
    if p in FilePaths(Join(dir, last.name), last) {
      return n;
    }
    var init := entries[..n];
    i := EntryOfFile(dir, init, p);
    assert init[i] == entries[i];
  }

  /** A file below one entry is below the directory's entries. */
  lemma {:induction false} FileOfEntry(dir: string, entries: seq<Node>, p: string, i: nat)
    requires i < |entries| && p in FilePaths(Join(dir, entries[i].name), entries[i])
    ensures p in EntryFilePaths(dir, entries)
    decreases |entries|
  {
    var n := |entries| - 1;
    EntryFilePathsLast(dir, entries);
    InConcat(p, EntryFilePaths(dir, entries[..n]), FilePaths(Join(dir, entries[n].name), entries[n]));
    if i < n {
      assert entries[..n][i] == entries[i];
      FileOfEntry(dir, entries[..n], p, i);
    }
  }

  /** The files below a directory's entries end with those below its last entry. */
  lemma EntryFilePathsLast(dir: string, entries: seq<Node>)
    requires entries != []
    ensures var n := |entries| - 1;
      EntryFilePaths(dir, entries) == EntryFilePaths(dir, entries[..n]) + FilePaths(Join(dir, entries[n].name), entries[n])
  {
  }

  /**
   * When hidden entries are shown, neither the hidden rule nor the ignore
   * list applies, for either callback: a file is parsed exactly when it lies
   * below the root and its type is supported.
   */
  lemma {:induction false} ShowHiddenParsesEverySupportedFile(h: Handler, path: string, name: string, node: Node, p: string)
    ensures ParseAt(p) in Walk(h, path, name, node, true) <==> p in FilePaths(path, node) && SupportedFileType(p)
    decreases node
  {
    match node
    case File(_, _) =>
    case Dir(_, children, failed) =>
      if ParseAt(p) in Walk(h, path, name, node, true) {
        var i := EntryOfEvent(h, path, children, true, ParseAt(p));
        ShowHiddenParsesEverySupportedFile(h, Join(path, children[i].name), children[i].name, children[i], p);
        FileOfEntry(path, children, p, i);
      }
      if p in FilePaths(path, node) && SupportedFileType(p) {
        var i := EntryOfFile(path, children, p);
        ShowHiddenParsesEverySupportedFile(h, Join(path, children[i].name), children[i].name, children[i], p);
        EventOfEntry(h, path, children, true, ParseAt(p), i);
      }
  }

  /**
   * On one entry, named by the base name of its path: whatever the current
   * callback walks into the older one walks into, and whatever it parses the
   * older one parses.
   */
  lemma CurrentVerdictWithinLegacy(path: string, isDir: bool, showHidden: bool)
    ensures Decide(Current, path, Base(path), isDir, showHidden) != Prune ==>
            Decide(Legacy, path, Base(path), isDir, showHidden) != Prune
    ensures Decide(Current, path, Base(path), isDir, showHidden) == Parse ==>
            Decide(Legacy, path, Base(path), isDir, showHidden) == Parse
  {
  }

  /**
   * The current callback skips at least what the older one skips: every
   * event of the current walk is an event of the older walk.
   */
  lemma {:induction false} CurrentWithinLegacy(path: string, node: Node, showHidden: bool, e: Event)
    requires WellNamed(node)
    requires e in Walk(Current, path, Base(path), node, showHidden)
    ensures e in Walk(Legacy, path, Base(path), node, showHidden)
    decreases node
  {
    CurrentVerdictWithinLegacy(path, node.Dir?, showHidden);
    match node
    case File(_, _) =>
    case Dir(_, children, failed) =>
      InConcat(e, ListingEvents(path, failed), WalkEntries(Current, path, children, showHidden));
      InConcat(e, ListingEvents(path, failed), WalkEntries(Legacy, path, children, showHidden));
      if e !in ListingEvents(path, failed) {
        var i := EntryOfEvent(Current, path, children, showHidden, e);
        BaseOfJoin(path, children[i].name);
        CurrentWithinLegacy(Join(path, children[i].name), children[i], showHidden, e);
        EventOfEntry(Legacy, path, children, showHidden, e, i);
      }
  }

  /**
   * `SearchHandler.Search`: an error when the root does not exist;
   * otherwise the walk with the current callback, which returns nil
   * whatever errors it reported, unless a file panicked.
   */
  method Search(path: string, root: Option<Node>, re: Regexp, showHidden: bool, files: Files)
    returns (status: Status, reports: seq<Report>)
    ensures status == RootMissing <==> root.None?
    ensures root.None? ==> reports == []
    ensures root.Some? ==> Ran(Walk(Current, path, Base(path), root.value, showHidden), re, files, status, reports)
  {
    if root.None? {
      return RootMissing, [];
    }
    status, reports := WalkDir(Current, path, Base(path), root.value, showHidden, re, files);
    RanShape(Walk(Current, path, Base(path), root.value, showHidden), re, files, status, reports);
  }

  /**
   * The older `search` of main.go: no existence check, so for a missing
   * root the callback gets the walk's error and a nil entry, reports the
   * error and then panics on the entry.
   */
  method LegacySearch(rootPath: string, root: Option<Node>, re: Regexp, showHidden: bool, files: Files)
    returns (status: Status, reports: seq<Report>)
    ensures root.None? ==> status == Crashed(rootPath) && reports == [WalkFailed(rootPath)]
    ensures root.Some? ==> Ran(Walk(Legacy, rootPath, Base(rootPath), root.value, showHidden), re, files, status, reports)
  {
    if root.None? {
      return Crashed(rootPath), [WalkFailed(rootPath)];
    }
    status, reports := WalkDir(Legacy, rootPath, Base(rootPath), root.value, showHidden, re, files);
  }
}
