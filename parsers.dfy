/**
 * The three file parsers of parser.go. Each one reads a file and reports the
 * keys the pattern selects, as `Match` records.
 *
 * Reading and decoding are done by the operating system and by the JSON and
 * YAML libraries, which lie outside this model. A file is therefore given by
 * what those produce: its lines (as `bufio.Scanner` splits them) and what
 * each decoder makes of its bytes. A path missing from `Files` is a file
 * that cannot be opened.
 */
module Parsers {
  import opened Wrappers
  import opened Text
  import opened Patterns
  import opened Flattener

  /** One selected key: the file, the 1-based line (0 for JSON and YAML), the key and its value. */
  datatype Match = Match(path: string, lineNum: nat, key: string, value: string)

  /** The ways a parser can fail. */
  datatype ParseError =
    | OpenFailed(path: string)        // os.Open or os.ReadFile returned an error
    | DecodeFailed(path: string)      // json.Unmarshal or yaml.Unmarshal returned an error
    | SliceOutOfRange(path: string)   // a runtime panic in flattenYAML: a scalar reached with an empty prefix
    | UnsupportedFileType(path: string)

  /** What a decoder makes of a file: an error, the null document, or a tree. */
  datatype Decoded = Malformed | Null | Doc(root: Value)

  /** A readable file: its lines and its decodings as JSON and as YAML. */
  datatype FileContent = FileContent(lines: seq<string>, asJson: Decoded, asYaml: Decoded)

  /** The readable files, by path. */
  type Files = map<string, FileContent>

  /**
   * `strings.SplitN(s, sep, 2)`: `s` itself when `sep` does not occur in it,
   * otherwise the text before the first `sep` and everything after it.
   */
  function SplitN2(s: string, sep: char): (parts: seq<string>)
    ensures |parts| == 1 || |parts| == 2
    ensures |parts| == 2 <==> sep in s
    ensures |parts| == 1 ==> parts[0] == s
    ensures |parts| == 2 ==> parts[0] + [sep] + parts[1] == s && sep !in parts[0]
  {
    if s == [] then [[]]
    else if s[0] == sep then [[], s[1..]]
    else
      var rest := SplitN2(s[1..], sep);
      assert s == [s[0]] + s[1..];
      [[s[0]] + rest[0]] + rest[1..]
  }

  /** The matches of the lines of an env or properties file, in file order. */
  function EnvMatches(path: string, re: Regexp, lines: seq<string>): seq<Match>
  {
    if lines == [] then []
    else
      var n := |lines|;
      var parts := SplitN2(lines[n - 1], '=');
      EnvMatches(path, re, lines[..n - 1])
        + (if |parts| == 2 && MatchString(re, parts[0]) then [Match(path, n, parts[0], parts[1])] else [])
  }

  /** Line `n` (1-based) has an `=`, and the text before its first `=` is selected by the pattern. */
  predicate SelectedLine(re: Regexp, lines: seq<string>, n: int)
  {
    1 <= n <= |lines| && '=' in lines[n - 1] && MatchString(re, SplitN2(lines[n - 1], '=')[0])
  }

  /** The first `n - 1` lines select the same lines as the whole file does below `n`. */
  lemma SelectedLineOfPrefix(re: Regexp, lines: seq<string>, n: nat, k: int)
    requires n <= |lines|
    ensures SelectedLine(re, lines[..n], k) <==> SelectedLine(re, lines, k) && k <= n
  {
    if 1 <= k <= n {
      assert lines[..n][k - 1] == lines[k - 1];
    }
  }

  /**
   * Every match comes from a line of the file that holds an `=`: its key is
   * the text before the first `=`, untrimmed, its value all the rest (which
   * may hold more `=`), and the pattern selects the key; the value is never
   * tested.
   */
  lemma {:induction false} EnvMatchesSound(path: string, re: Regexp, lines: seq<string>)
    ensures forall m :: m in EnvMatches(path, re, lines) ==>
      m.path == path && SelectedLine(re, lines, m.lineNum) &&
      m.key + "=" + m.value == lines[m.lineNum - 1] && '=' !in m.key
  {
    if lines != [] {
      var n := |lines|;
      EnvMatchesSound(path, re, lines[..n - 1]);
      forall m | m in EnvMatches(path, re, lines[..n - 1])
        ensures SelectedLine(re, lines, m.lineNum) && lines[..n - 1][m.lineNum - 1] == lines[m.lineNum - 1]
      {
        SelectedLineOfPrefix(re, lines, n - 1, m.lineNum);
      }
    }
  }

  /** Every line that holds an `=` and whose key the pattern selects gives a match. */
  lemma {:induction false} EnvMatchesComplete(path: string, re: Regexp, lines: seq<string>)
    ensures forall n :: SelectedLine(re, lines, n) ==>
      exists m :: m in EnvMatches(path, re, lines) && m.lineNum == n
  {
    if lines != [] {
      var n := |lines|;
      var prev := EnvMatches(path, re, lines[..n - 1]);
      var ms := EnvMatches(path, re, lines);
      EnvMatchesComplete(path, re, lines[..n - 1]);
      forall k | SelectedLine(re, lines, k)
        ensures exists m :: m in ms && m.lineNum == k
      {
        SelectedLineOfPrefix(re, lines, n - 1, k);
        if k < n {
          var m :| m in prev && m.lineNum == k;
          assert m in ms;
        } else {
          assert ms[|ms| - 1].lineNum == n;
        }
      }
    }
  }

  /** The matches are in file order: line numbers strictly increase. */
  lemma {:induction false} EnvMatchesOrdered(path: string, re: Regexp, lines: seq<string>)
    ensures forall i, j :: 0 <= i < j < |EnvMatches(path, re, lines)| ==>
      EnvMatches(path, re, lines)[i].lineNum < EnvMatches(path, re, lines)[j].lineNum
  {
    if lines != [] {
      var n := |lines|;
      var prev := EnvMatches(path, re, lines[..n - 1]);
      EnvMatchesOrdered(path, re, lines[..n - 1]);
      EnvMatchesSound(path, re, lines[..n - 1]);
      assert forall i :: 0 <= i < |prev| ==> prev[i] in prev;
    }
  }

  /** What `ParseEnvFile` returns: an open error, or the matches of the file's lines. */
  predicate EnvOutcome(filePath: string, re: Regexp, files: Files, r: Result<seq<Match>, ParseError>)
  {
    if filePath !in files then r == Err(OpenFailed(filePath))
    else r == Ok(EnvMatches(filePath, re, files[filePath].lines))
  }

  /**
   * `ParseEnvFile`: reads the file line by line, counting lines from 1, and
   * keeps a match for every line selected by the pattern.
   */
  method ParseEnvFile(filePath: string, re: Regexp, files: Files) returns (r: Result<seq<Match>, ParseError>)
    ensures EnvOutcome(filePath, re, files, r)
  {
    if filePath !in files {
      return Err(OpenFailed(filePath));
    }
    var lines := files[filePath].lines;
    var lineNum := 0;
    var matches := [];
    while lineNum < |lines|
      invariant 0 <= lineNum <= |lines|
      invariant matches == EnvMatches(filePath, re, lines[..lineNum])
    {
      var line := lines[lineNum];
      lineNum := lineNum + 1;
      var split := SplitN2(line, '=');
      if |split| == 2 {
        if MatchString(re, split[0]) {
          matches := matches + [Match(filePath, lineNum, split[0], split[1])];
        }
      }
      assert lines[..lineNum][..lineNum - 1] == lines[..lineNum - 1];
    }
    assert lines[..lineNum] == lines;
    return Ok(matches);
  }

  /** `m` is the match of a flattened key the pattern selects; tree formats carry line 0. */
  predicate IsTreeMatch(path: string, re: Regexp, flat: map<string, string>, m: Match)
  {
    m.path == path && m.lineNum == 0 && m.key in flat && m.value == flat[m.key] && MatchString(re, m.key)
  }

  /** `ms` lists every selected flattened key exactly once, in some order. */
  ghost predicate SelectsTreeMatches(path: string, re: Regexp, flat: map<string, string>, ms: seq<Match>)
  {
    (forall m :: m in ms <==> IsTreeMatch(path, re, flat, m))
    && (forall i, j :: 0 <= i < j < |ms| ==> ms[i].key != ms[j].key)
  }

  /**
   * The loop of `ParseJSONFile` and `ParseYAMLFile` over the flattened map.
   * Go visits a map in an unspecified order; here each key is picked
   * arbitrarily among those not yet visited.
   */
  method SelectMatches(filePath: string, re: Regexp, flat: map<string, string>) returns (ms: seq<Match>)
    ensures SelectsTreeMatches(filePath, re, flat, ms)
    ensures |ms| <= |flat|
  {
    ms := [];
    var todo := flat.Keys;
    while todo != {}
      invariant todo <= flat.Keys
      invariant forall m :: m in ms <==> IsTreeMatch(filePath, re, flat, m) && m.key !in todo
      invariant forall i, j :: 0 <= i < j < |ms| ==> ms[i].key != ms[j].key
      invariant |ms| + |todo| <= |flat.Keys|
      decreases |todo|
    {
      var k :| k in todo;
      if MatchString(re, k) {
        ms := ms + [Match(filePath, 0, k, flat[k])];
      }
      todo := todo - {k};
    }
  }

  /**
   * What `ParseJSONFile` returns: an open or decode error, no matches for the
   * `null` document, and otherwise the selected flattened keys of an object.
   */
  ghost predicate JsonOutcome(filePath: string, re: Regexp, files: Files, r: Result<seq<Match>, ParseError>)
  {
    if filePath !in files then r == Err(OpenFailed(filePath))
    else
      match files[filePath].asJson
      case Malformed => r == Err(DecodeFailed(filePath))
      case Null => r == Ok([])
      case Doc(root) =>
        if root.Map? then r.Ok? && SelectsTreeMatches(filePath, re, Flattened(root), r.value)
        else r == Err(DecodeFailed(filePath))
  }

  /**
   * `ParseJSONFile`: the document must decode into a JSON object (the `null`
   * document decodes into an empty one); its flattened keys that the pattern
   * selects are reported.
   */
  method ParseJSONFile(filePath: string, re: Regexp, files: Files) returns (r: Result<seq<Match>, ParseError>)
    ensures JsonOutcome(filePath, re, files, r)
  {
    if filePath !in files {
      return Err(OpenFailed(filePath));
    }
    var root: Value;
    match files[filePath].asJson {
      case Malformed =>
        return Err(DecodeFailed(filePath));
      case Null =>
        root := Map([]);
      case Doc(v) =>
        if !v.Map? {
          return Err(DecodeFailed(filePath));
        }
        root := v;
    }
    var flattened := new FlatMap();
    Flatten("", root, flattened);
    var matches := SelectMatches(filePath, re, flattened.entries);
    if files[filePath].asJson.Null? {
      assert flattened.entries == map[];
      assert |flattened.entries| == 0;
    }
    return Ok(matches);
  }

  /** The YAML document of `filePath` makes `flattenYAML` slice an empty prefix. */
  predicate YamlPanics(filePath: string, files: Files)
  {
    filePath in files &&
    (files[filePath].asYaml.Null? || (files[filePath].asYaml.Doc? && files[filePath].asYaml.root.Scalar?))
  }

  /**
   * What `ParseYAMLFile` returns: an open or decode error, the panic of a
   * scalar or empty document, and otherwise the selected flattened keys.
   */
  ghost predicate YamlOutcome(filePath: string, re: Regexp, files: Files, r: Result<seq<Match>, ParseError>)
  {
    if filePath !in files then r == Err(OpenFailed(filePath))
    else if YamlPanics(filePath, files) then r == Err(SliceOutOfRange(filePath))
    else
      match files[filePath].asYaml
      case Malformed => r == Err(DecodeFailed(filePath))
      case Null => false
      case Doc(root) => r.Ok? && SelectsTreeMatches(filePath, re, Flattened(root), r.value)
  }

  /**
   * `ParseYAMLFile`: the document may be a map or a sequence. A scalar root,
   * or an empty or null document, reaches `prefix[:len(prefix)-1]` with an
   * empty prefix, and the program panics.
   */
  method ParseYAMLFile(filePath: string, re: Regexp, files: Files) returns (r: Result<seq<Match>, ParseError>)
    ensures YamlOutcome(filePath, re, files, r)
  {
    if filePath !in files {
      return Err(OpenFailed(filePath));
    }
    match files[filePath].asYaml {
      case Malformed =>
        return Err(DecodeFailed(filePath));
      case Null =>
        return Err(SliceOutOfRange(filePath));
      case Doc(root) =>
        if root.Scalar? {
          return Err(SliceOutOfRange(filePath));
        }
        var flattened := new FlatMap();
        Flatten("", root, flattened);
        var matches := SelectMatches(filePath, re, flattened.entries);
        return Ok(matches);
    }
  }
}
