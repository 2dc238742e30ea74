/**
 * Which files are searched, and by which parser (main.go `isSupportedFileType`
 * and the `parseFile` switch, which searchHandler.go repeats word for word).
 */
module FileTypes {
  import opened Wrappers
  import opened Text
  import opened Paths

  /** The glob patterns of the file names that are searched. */
  const SupportedFileTypes: seq<string> := [".env*", "*.json", "*.properties", "*.yml", "*.yaml"]

  /** Some supported pattern matches the base name of `path`. */
  predicate SupportedFileType(path: string)
  {
    exists i | 0 <= i < |SupportedFileTypes| :: Glob(SupportedFileTypes[i], Base(path))
  }

  /** `isSupportedFileType`: tries the patterns in turn and stops at the first that matches. */
  method IsSupportedFileType(path: string) returns (supported: bool)
    ensures supported == SupportedFileType(path)
  {
    var fileName := Base(path);
    for i := 0 to |SupportedFileTypes|
      invariant forall j :: 0 <= j < i ==> !Glob(SupportedFileTypes[j], fileName)
    {
      if Glob(SupportedFileTypes[i], fileName) {
        return true;
      }
    }
    return false;
  }

  /** The base name starts with `.env` or ends with one of the four extensions. */
  predicate HasSupportedAffix(name: string)
  {
    StartsWith(name, ".env") || EndsWith(name, ".json") || EndsWith(name, ".properties")
    || EndsWith(name, ".yml") || EndsWith(name, ".yaml")
  }

  /** `*.ext` matches a base name exactly when the name ends with `.ext`. */
  lemma StarSuffix(ext: string, name: string)
    requires ext != [] && '*' !in ext && '/' !in ext
    requires name == "/" || '/' !in name
    ensures Glob("*" + ext, name) <==> EndsWith(name, ext)
  {
    GlobStarThenLiteral(ext, name);
    if name != "/" && EndsWith(name, ext) {
      assert forall c :: c in name[..|name| - |ext|] ==> c in name;
    }
  }

  /**
   * A file is supported exactly when its base name starts with `.env` or
   * ends with `.json`, `.properties`, `.yml` or `.yaml`.
   */
  lemma SupportedByAffix(path: string)
    ensures SupportedFileType(path) <==> HasSupportedAffix(Base(path))
  {
    var name := Base(path);
    SupportedPatterns(path);
    PatternSpelling();
    assert Glob(".env*", name) <==> StartsWith(name, ".env") by {
      GlobLiteralThenStar(".env", name);
      if StartsWith(name, ".env") {
        assert name != "/";
      }
    }
    StarSuffix(".json", name);
    StarSuffix(".properties", name);
    StarSuffix(".yml", name);
    StarSuffix(".yaml", name);
  }

  /** Each pattern is its literal part and a `*`, and no literal part holds `*` or `/`. */
  lemma PatternSpelling()
    ensures ".env" + "*" == ".env*" && '*' !in ".env"
    ensures "*" + ".json" == "*.json" && '*' !in ".json" && '/' !in ".json"
    ensures "*" + ".properties" == "*.properties" && '*' !in ".properties" && '/' !in ".properties"
    ensures "*" + ".yml" == "*.yml" && '*' !in ".yml" && '/' !in ".yml"
    ensures "*" + ".yaml" == "*.yaml" && '*' !in ".yaml" && '/' !in ".yaml"
  {
  }

  /** The five patterns, one by one. */
  lemma SupportedPatterns(path: string)
    ensures SupportedFileType(path) <==>
      var name := Base(path);
      Glob(".env*", name) || Glob("*.json", name) || Glob("*.properties", name)
      || Glob("*.yml", name) || Glob("*.yaml", name)
  {
    var name := Base(path);
    var pats := SupportedFileTypes;
    assert pats[0] == ".env*" && pats[1] == "*.json" && pats[2] == "*.properties";
    assert pats[3] == "*.yml" && pats[4] == "*.yaml";
    if SupportedFileType(path) {
      var i :| 0 <= i < |pats| && Glob(pats[i], name);
      assert i == 0 || i == 1 || i == 2 || i == 3 || i == 4;
    }
  }

  /** The three parsers. */
  datatype ParserKind = EnvParser | JsonParser | YamlParser

  /**
   * The `parseFile` switch, in its order: a base name starting with `.env`
   * or a path ending `.properties` goes to the env parser, then `.json` to
   * the JSON parser, then `.yml` or `.yaml` to the YAML parser; anything
   * else is an unsupported file type (`None`).
   */
  function Dispatch(path: string): Option<ParserKind>
  {
    if StartsWith(Base(path), ".env") || EndsWith(path, ".properties") then Some(EnvParser)
    else if EndsWith(path, ".json") then Some(JsonParser)
    else if EndsWith(path, ".yml") || EndsWith(path, ".yaml") then Some(YamlParser)
    else None
  }

  /**
   * For every path that names an entry (it does not end in `/`), the switch
   * picks a parser exactly when the file is supported.
   */
  lemma DispatchExactlySupported(path: string)
    requires path != [] && path[|path| - 1] != '/'
    ensures Dispatch(path).Some? <==> SupportedFileType(path)
  {
    SupportedByAffix(path);
    SuffixOfBase(path, ".json");
    SuffixOfBase(path, ".properties");
    SuffixOfBase(path, ".yml");
    SuffixOfBase(path, ".yaml");
  }

  /**
   * For every entry path, the switch depends on the base name alone: the
   * suffix tests on the whole path agree with the same tests on its base name.
   */
  lemma DispatchByBaseName(path: string)
    requires path != [] && path[|path| - 1] != '/'
    ensures Dispatch(path) == Dispatch(Base(path))
  {
    var b := Base(path);
    BaseIsLastElement(path);
    BaseOfName(b);
    PatternSpelling();
    SuffixOfBase(path, ".json");
    SuffixOfBase(path, ".properties");
    SuffixOfBase(path, ".yml");
    SuffixOfBase(path, ".yaml");
    SameTestsSameParser(path, b);
  }

  /** Two paths on which the switch's five tests agree get the same parser. */
  lemma SameTestsSameParser(p: string, q: string)
    requires StartsWith(Base(p), ".env") == StartsWith(Base(q), ".env")
    requires EndsWith(p, ".properties") == EndsWith(q, ".properties")
    requires EndsWith(p, ".json") == EndsWith(q, ".json")
    requires EndsWith(p, ".yml") == EndsWith(q, ".yml")
    requires EndsWith(p, ".yaml") == EndsWith(q, ".yaml")
    ensures Dispatch(p) == Dispatch(q)
  {
  }

  /** The `.env` prefix is tested first: `.env.json` goes to the env parser. */
  lemma EnvPrefixWinsExample()
    ensures Dispatch("/srv/.env.json") == Some(EnvParser)
  {
    assert Join("/srv", ".env.json") == "/srv/.env.json";
    BaseOfJoin("/srv", ".env.json");
  }

  /** A name that only contains a supported extension is not parsed. */
  lemma InnerExtensionExample()
    ensures Dispatch("/srv/app.yaml.txt") == None
  {
    var path := "/srv/app.yaml.txt";
    assert Join("/srv", "app.yaml.txt") == path;
    BaseOfJoin("/srv", "app.yaml.txt");
    assert path[|path| - 1] == 't' && "app.yaml.txt"[0] == 'a';
    NoParserFor(path);
  }

  /**
   * A path whose base name does not start with `.` and whose last character
   * is not the last character of a supported extension has no parser.
   */
  lemma NoParserFor(path: string)
    requires Base(path)[0] != '.'
    requires path != [] && path[|path| - 1] !in "nsl"
    ensures Dispatch(path) == None
  {
    assert !StartsWith(Base(path), ".env");
    LastCharOfSuffix(path, ".json");
    LastCharOfSuffix(path, ".properties");
    LastCharOfSuffix(path, ".yml");
    LastCharOfSuffix(path, ".yaml");
  }

  /** A string ends with the last character of each of its non-empty suffixes. */
  lemma LastCharOfSuffix(s: string, p: string)
    requires p != []
    ensures EndsWith(s, p) ==> s[|s| - 1] == p[|p| - 1]
  {
    if EndsWith(s, p) {
      assert s[|s| - |p|..][|p| - 1] == s[|s| - 1];
    }
  }
}
