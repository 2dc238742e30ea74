/**
 * The parts of Go's `path/filepath` package the search tool uses, for paths
 * that use `/` as the separator: `Base`, `Join` (on already clean paths) and
 * `Match` (for glob patterns built from literal characters and `*`).
 */
module Paths {
  import opened Text

  /** A directory entry name as the file system reports it: non-empty, no separator. */
  predicate ValidName(name: string)
  {
    name != "" && '/' !in name
  }

  /** Drops every trailing `/`. */
  function TrimTrailingSlashes(s: string): (r: string)
    ensures |r| <= |s| && r == s[..|r|]
    ensures r == [] || r[|r| - 1] != '/'
    ensures forall i :: |r| <= i < |s| ==> s[i] == '/'
  {
    if s != [] && s[|s| - 1] == '/' then TrimTrailingSlashes(s[..|s| - 1]) else s
  }

  /** The characters after the last `/` of `s` (all of `s` when it has none). */
  function AfterLastSlash(s: string): (r: string)
    ensures |r| <= |s| && r == s[|s| - |r|..]
    ensures '/' !in r
    ensures |r| < |s| ==> s[|s| - |r| - 1] == '/'
  {
    if s == [] then []
    else if s[|s| - 1] == '/' then []
    else AfterLastSlash(s[..|s| - 1]) + [s[|s| - 1]]
  }

  /**
   * `filepath.Base`: the last element of the path. Trailing separators are
   * dropped first; an empty path gives "." and a path of only separators "/".
   */
  function Base(path: string): (r: string)
    ensures r != ""
    ensures r == "/" || '/' !in r
  {
    if path == [] then "."
    else
      var t := TrimTrailingSlashes(path);
      if t == [] then "/" else AfterLastSlash(t)
  }

  /**
   * `filepath.Join(dir, name)` for a directory path and an entry name,
   * without the `filepath.Clean` that Go applies to the result (so a
   * directory `.` gives `./name`, where Go gives `name`).
   */
  function Join(dir: string, name: string): (r: string)
    ensures EndsWith(r, name)
  {
    if dir == [] then name
    else if dir[|dir| - 1] == '/' then dir + name
    else dir + "/" + name
  }

  /** A path that does not end in `/` ends with its base name, right after a `/` or at the start. */
  lemma BaseIsLastElement(path: string)
    requires path != [] && path[|path| - 1] != '/'
    ensures Base(path) == AfterLastSlash(path)
    ensures EndsWith(path, Base(path))
    ensures |Base(path)| < |path| ==> path[|path| - |Base(path)| - 1] == '/'
  {
    assert TrimTrailingSlashes(path) == path;
  }

  /** After a separator (or at the start), a name without `/` is the last element. */
  lemma {:induction false} AfterLastSlashOfName(dir: string, name: string)
    requires dir == [] || dir[|dir| - 1] == '/'
    requires '/' !in name
    ensures AfterLastSlash(dir + name) == name
  {
    if name == [] {
      assert dir + name == dir;
    } else {
      var n := |name| - 1;
      var init, c := name[..n], name[n];
      assert name == init + [c] && c != '/';
      assert dir + name == (dir + init) + [c];
      AfterLastSlashSnoc(dir + init, c);
      AfterLastSlashOfName(dir, init);
    }
  }

  /** A character other than `/` extends the last element. */
  lemma AfterLastSlashSnoc(s: string, c: char)
    requires c != '/'
    ensures AfterLastSlash(s + [c]) == AfterLastSlash(s) + [c]
  {
    assert (s + [c])[..|s|] == s;
  }

  /** The base name of an entry joined to its directory is the entry's own name. */
  lemma BaseOfJoin(dir: string, name: string)
    requires ValidName(name)
    ensures Base(Join(dir, name)) == name
  {
    var d := if dir == [] then [] else if dir[|dir| - 1] == '/' then dir else dir + "/";
    assert Join(dir, name) == d + name;
    AfterLastSlashOfName(d, name);
    BaseIsLastElement(d + name);
  }

  /** An entry name is its own base name. */
  lemma BaseOfName(name: string)
    requires ValidName(name)
    ensures Base(name) == name
  {
    BaseOfJoin("", name);
  }

  /** For a suffix without `/`, the path ends with it exactly when its base name does. */
  lemma SuffixOfBase(path: string, suffix: string)
    requires path != [] && path[|path| - 1] != '/'
    requires '/' !in suffix
    ensures EndsWith(path, suffix) <==> EndsWith(Base(path), suffix)
  {
    BaseIsLastElement(path);
    var b := Base(path);
    SuffixAfterSlash(path, |path| - |b|, suffix);
  }

  /** For a suffix without `/`, a string ends with it exactly when its tail after a `/` does. */
  lemma SuffixAfterSlash(s: string, k: nat, suffix: string)
    requires k <= |s| && (k > 0 ==> s[k - 1] == '/')
    requires '/' !in suffix
    ensures EndsWith(s, suffix) <==> EndsWith(s[k..], suffix)
  {
    var t := s[k..];
    if EndsWith(t, suffix) {
      assert s[|s| - |suffix|..] == t[|t| - |suffix|..];
    }
    if EndsWith(s, suffix) {
      assert |suffix| <= |t|;
      assert t[|t| - |suffix|..] == s[|s| - |suffix|..];
    }
  }

  /**
   * `filepath.Match(pattern, name)` for patterns made of literal characters
   * and `*`; a `*` stands for any run of characters other than `/`.
   */
  predicate Glob(pattern: string, name: string)
    decreases |pattern| + |name|
  {
    if pattern == [] then name == []
    else if pattern[0] == '*' then
      Glob(pattern[1..], name) || (name != [] && name[0] != '/' && Glob(pattern, name[1..]))
    else name != [] && name[0] == pattern[0] && Glob(pattern[1..], name[1..])
  }

  /** A pattern without `*` matches exactly itself. */
  lemma {:induction false} GlobLiteral(lit: string, name: string)
    requires '*' !in lit
    ensures Glob(lit, name) <==> name == lit
  {
    if lit != [] && name != [] {
      GlobLiteral(lit[1..], name[1..]);
      if name[0] == lit[0] && name[1..] == lit[1..] {
        assert name == [name[0]] + name[1..];
        assert lit == [lit[0]] + lit[1..];
      }
    }
  }

  /** A lone `*` matches exactly the names without `/`. */
  lemma {:induction false} GlobStar(name: string)
    ensures Glob("*", name) <==> '/' !in name
  {
    assert "*"[1..] == [];
    if name != [] {
      GlobStar(name[1..]);
      assert name == [name[0]] + name[1..];
    }
  }

  /** `lit*` matches the names that start with `lit` and have no `/` after it. */
  lemma {:induction false} GlobLiteralThenStar(lit: string, name: string)
    requires '*' !in lit
    ensures Glob(lit + "*", name) <==> StartsWith(name, lit) && '/' !in name[|lit|..]
  {
    if lit == [] {
      assert lit + "*" == "*";
      GlobStar(name);
    } else if name != [] {
      assert (lit + "*")[1..] == lit[1..] + "*";
      GlobLiteralThenStar(lit[1..], name[1..]);
      if |name| >= |lit| {
        assert name[1..][|lit| - 1..] == name[|lit|..];
      }
      if name[0] == lit[0] && StartsWith(name[1..], lit[1..]) {
        assert name[..|lit|] == [name[0]] + name[1..][..|lit| - 1];
      }
      if StartsWith(name, lit) {
        assert name[1..][..|lit| - 1] == name[..|lit|][1..];
      }
    }
  }

  /** `*lit` matches the names that end with `lit` and have no `/` before it. */
  lemma {:induction false} GlobStarThenLiteral(lit: string, name: string)
    requires '*' !in lit
    ensures Glob("*" + lit, name) <==> EndsWith(name, lit) && '/' !in name[..|name| - |lit|]
  {
    var pat := "*" + lit;
    assert pat[1..] == lit;
    GlobLiteral(lit, name);
    if name != [] {
      GlobStarThenLiteral(lit, name[1..]);
      if |name| > |lit| {
        assert name[1..][|name| - 1 - |lit|..] == name[|name| - |lit|..];
        assert name[..|name| - |lit|] == [name[0]] + name[1..][..|name| - 1 - |lit|];
      } else if |name| == |lit| && EndsWith(name, lit) {
        assert name == lit;
      }
    }
  }
}
