/**
 * The search pattern of main.go. The user's text is escaped with
 * `regexp.QuoteMeta` and prefixed with the case-insensitivity flag `(?i)`, so
 * the compiled expression is a case-insensitive literal substring search.
 *
 * A compiled expression is modelled by its source text. Its meaning is given
 * for the one form the program builds, `(?i)` followed by a literal in which
 * every metacharacter is escaped with a backslash; case folding is ASCII only.
 */
module Patterns {
  import opened Wrappers
  import opened Text

  /** The characters `regexp.QuoteMeta` escapes. */
  predicate IsSpecial(c: char)
  {
    c in "\\.+*?()|[]{}^$"
  }

  /** `regexp.QuoteMeta`: a backslash is put in front of every metacharacter. */
  function QuoteMeta(s: string): (r: string)
    ensures |s| <= |r| <= 2 * |s|
  {
    if s == [] then []
    else (if IsSpecial(s[0]) then ['\\', s[0]] else [s[0]]) + QuoteMeta(s[1..])
  }

  /** Puts `c` in front of a literal that was read successfully. */
  function Prepend(c: char, rest: Option<string>): Option<string>
  {
    match rest
    case Some(lit) => Some([c] + lit)
    case None => None
  }

  /**
   * Reads a quoted literal back: every `\` must escape a metacharacter, which
   * then stands for itself, and no metacharacter may appear unescaped.
   * Anything else lies outside the fragment this model gives a meaning to.
   */
  function Unquote(t: string): Option<string>
    decreases |t|
  {
    if t == [] then Some([])
    else if t[0] == '\\' then
      if |t| >= 2 && IsSpecial(t[1]) then Prepend(t[1], Unquote(t[2..])) else None
    else if IsSpecial(t[0]) then None
    else Prepend(t[0], Unquote(t[1..]))
  }

  /** Escaping then reading back gives the user's text unchanged. */
  lemma {:induction false} UnquoteQuoteMeta(s: string)
    ensures Unquote(QuoteMeta(s)) == Some(s)
  {
    if s != [] {
      UnquoteQuoteMeta(s[1..]);
      var q := QuoteMeta(s);
      if IsSpecial(s[0]) {
        assert q[0] == '\\' && q[1] == s[0] && q[2..] == QuoteMeta(s[1..]);
      } else {
        assert q[0] == s[0] && q[1..] == QuoteMeta(s[1..]);
      }
      assert s == [s[0]] + s[1..];
    }
  }

  /** Text without metacharacters is left as it is by `QuoteMeta`. */
  lemma {:induction false} QuoteMetaPlain(s: string)
    requires forall i :: 0 <= i < |s| ==> !IsSpecial(s[i])
    ensures QuoteMeta(s) == s
  {
    if s != [] {
      QuoteMetaPlain(s[1..]);
      assert s == [s[0]] + s[1..];
    }
  }

  /** A compiled regular expression, known by the source text it was compiled from. */
  datatype Regexp = Regexp(source: string)

  /** The flag that makes the rest of the expression match case-insensitively. */
  const CaseInsensitive: string := "(?i)"

  /** The literal a case-insensitive quoted expression searches for. */
  function Literal(re: Regexp): Option<string>
  {
    if StartsWith(re.source, CaseInsensitive) then Unquote(re.source[|CaseInsensitive|..]) else None
  }

  /** `p` occurs in `s` when ASCII letters are compared without regard to case. */
  predicate ContainsFold(s: string, p: string)
  {
    Contains(LowerStr(s), LowerStr(p))
  }

  /**
   * `re.MatchString(s)`: some part of `s` equals the literal, up to case.
   * Expressions outside the modelled fragment match nothing.
   */
  predicate MatchString(re: Regexp, s: string)
  {
    match Literal(re)
    case Some(lit) => ContainsFold(s, lit)
    case None => false
  }

  /**
   * `generateRegex`: the expression `(?i)` + `QuoteMeta(p)`. It searches for
   * the literal `p`, so metacharacters in `p` stand only for themselves.
   */
  function GenerateRegex(p: string): (re: Regexp)
    ensures Literal(re) == Some(p)
    ensures forall s :: MatchString(re, s) <==> ContainsFold(s, p)
  {
    var re := Regexp(CaseInsensitive + QuoteMeta(p));
    assert re.source[|CaseInsensitive|..] == QuoteMeta(p);
    UnquoteQuoteMeta(p);
    re
  }

  /** For a pattern without metacharacters the expression is `(?i)` followed by the pattern. */
  lemma GeneratedSourceOfPlainPattern(p: string)
    requires forall i :: 0 <= i < |p| ==> !IsSpecial(p[i])
    ensures GenerateRegex(p).source == "(?i)" + p
  {
    QuoteMetaPlain(p);
  }

  /** The outcome of a match does not depend on the case of the searched text. */
  lemma MatchIgnoresCaseOfText(re: Regexp, s: string)
    ensures MatchString(re, s) <==> MatchString(re, LowerStr(s))
  {
    LowerStrIdempotent(s);
  }

  /** Patterns that differ only in case select the same strings. */
  lemma MatchIgnoresCaseOfPattern(p: string, s: string)
    ensures MatchString(GenerateRegex(p), s) <==> MatchString(GenerateRegex(LowerStr(p)), s)
  {
    LowerStrIdempotent(p);
  }

  /** The pattern `sprIng` selects the key `spring.datasource.url`. */
  lemma MixedCasePatternExample()
    ensures MatchString(GenerateRegex("sprIng"), "spring.datasource.url")
  {
    var s := "spring.datasource.url";
    assert LowerStr("sprIng") == "spring";
    assert LowerStr(s)[0..6] == "spring";
    assert OccursAt(LowerStr(s), "spring", 0);
  }

  /** The pattern `a.b` selects `a.b` but not `axb`: the dot is not a wildcard. */
  lemma MetacharacterIsLiteralExample()
    ensures MatchString(GenerateRegex("a.b"), "A.B")
    ensures !MatchString(GenerateRegex("a.b"), "axb")
  {
    assert LowerStr("a.b") == "a.b";
    assert LowerStr("A.B") == "a.b";
    assert OccursAt(LowerStr("A.B"), "a.b", 0);
    assert LowerStr("axb") == "axb";
    assert "axb"[0..3][1] != "a.b"[1];
  }
}
