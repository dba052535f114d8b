/** The custom built-ins policies can call (internal/evaluator/builtins.go):
 *  `go.matches_pattern`, `go.is_exported`, `go.is_test_file` and
 *  `go.package_name`, and the bounded cache of compiled patterns behind the
 *  first. Regular-expression compilation and matching are parameters: the
 *  model fixes when they are called, not what they compute. */
module Builtins {
  import opened Wrappers
  import opened Text
  import Naming

  /** The argument and result terms a built-in sees; `Other` is any non-string
   *  term. A built-in result of `None` is Go's nil term (undefined). */
  datatype Term = StringTerm(s: string) | BooleanTerm(b: bool) | Other

  // ---------------------------------------------------------------------------
  // go.is_exported, go.is_test_file

  /** `go.is_exported`: false for a non-string or empty argument, otherwise
   *  whether the first byte is an ASCII capital. */
  function IsExportedBuiltin(a: Term): (r: Term)
    ensures r.BooleanTerm?
    ensures r.b <==> a.StringTerm? && Naming.IsExported(a.s)
  {
    if !a.StringTerm? || |a.s| == 0 then BooleanTerm(false)
    else BooleanTerm('A' <= a.s[0] <= 'Z')
  }

  /** `go.is_test_file`: longer than eight bytes and ending in "_test.go". */
  function IsTestFileBuiltin(a: Term): Term
  {
    if !a.StringTerm? then BooleanTerm(false)
    else
      var s := a.s;
      BooleanTerm(|s| > 8 && s[|s| - 8..] == "_test.go")
  }

  /** A test file is a name of at least one byte followed by "_test.go"; the
   *  suffix alone is not one. */
  lemma IsTestFileFacts(name: string)
    ensures IsTestFileBuiltin(StringTerm(name)).b <==> exists stem :: stem != "" && name == stem + "_test.go"
    ensures !IsTestFileBuiltin(StringTerm("_test.go")).b && IsTestFileBuiltin(StringTerm("a_test.go")).b
    ensures !IsTestFileBuiltin(Other).b
  {
    if IsTestFileBuiltin(StringTerm(name)).b {
      var stem := name[..|name| - 8];
      assert name == stem + "_test.go";
    }
    if exists stem :: stem != "" && name == stem + "_test.go" {
      var stem :| stem != "" && name == stem + "_test.go";
      assert name[|name| - 8..] == "_test.go";
    }
    assert "a_test.go"[1..] == "_test.go";
  }

  // ---------------------------------------------------------------------------
  // go.package_name

  /** The text after the last '/', all of `s` when there is none. */
  function LastSegment(s: string): string
  {
    s[LastIndexOf(s, '/') + 1..]
  }

  /** The last segment never contains '/', is a suffix of the path, is the
   *  whole path exactly when there is no '/', and is empty exactly when the
   *  path is empty or ends in '/'. */
  lemma LastSegmentFacts(s: string)
    ensures '/' !in LastSegment(s)
    ensures HasSuffix(s, LastSegment(s))
    ensures LastSegment(s) == s <==> '/' !in s
    ensures LastSegment(s) == "" <==> s == "" || s[|s| - 1] == '/'
  {
    var i := LastIndexOf(s, '/');
    if i == -1 {
      assert s[i + 1..] == s;
    } else {
      assert |s[i + 1..]| < |s|;
      LastSegmentEmpty(s, i);
    }
  }

  lemma LastSegmentEmpty(s: string, i: int)
    requires 0 <= i < |s| && i == LastIndexOf(s, '/')
    ensures s[i + 1..] == "" <==> s[|s| - 1] == '/'
  {
  }

  /** `go.package_name`: undefined for a non-string, otherwise the text after
   *  the last '/', found scanning from the end. */
  method PackageNameBuiltin(a: Term) returns (r: Option<Term>)
    ensures !a.StringTerm? ==> r.None?
    ensures a.StringTerm? ==> r == Some(StringTerm(LastSegment(a.s)))
  {
    if !a.StringTerm? {
      return None;
    }
    var s := a.s;
    var i := |s| - 1;
    while i >= 0
      invariant -1 <= i < |s|
      invariant '/' !in s[i + 1..]
    {
      if s[i] == '/' {
        LastIndexOfUnique(s, '/', i);
        return Some(StringTerm(s[i + 1..]));
      }
      assert s[i..] == [s[i]] + s[i + 1..];
      i := i - 1;
    }
    assert s[0..] == s;
    return Some(StringTerm(s));
  }

  // ---------------------------------------------------------------------------
  // The compiled-pattern cache and go.matches_pattern

  const MaxRegexCacheSize: nat := 1000

  /** A compiled pattern; compiling is deterministic, so it is named by the
   *  pattern it was compiled from. */
  datatype Regexp = Regexp(pattern: string)

  /** The `regexCache`: at most 1000 compiled patterns, each stored under its own
   *  pattern. When full, adding evicts some other entry; which one (the least
   *  recently used) is not modelled. */
  class RegexCache {
    var entries: map<string, Regexp>
    /** Whether `regexp.Compile` accepts a pattern. */
    const compiles: string -> bool

    ghost predicate Valid()
      reads this
    {
      |entries| <= MaxRegexCacheSize
      && forall p :: p in entries ==> entries[p] == Regexp(p) && compiles(p)
    }

    constructor(compiles: string -> bool)
      ensures Valid() && entries == map[] && this.compiles == compiles
    {
      entries := map[];
      this.compiles := compiles;
    }

    /** `Get`: the entry stored for a pattern, if any. */
    method Get(pattern: string) returns (re: Option<Regexp>)
      ensures re == if pattern in entries then Some(entries[pattern]) else None
    {
      if pattern in entries {
        re := Some(entries[pattern]);
      } else {
        re := None;
      }
    }

    /** `Add` of a pattern not yet cached: it is stored; every other entry is
     *  kept, except one evicted when the cache was full. */
    method Add(pattern: string, re: Regexp)
      requires Valid() && re == Regexp(pattern) && compiles(pattern) && pattern !in entries
      modifies this
      ensures Valid()
      ensures pattern in entries && entries[pattern] == re
      ensures forall p :: p in entries && p != pattern ==> p in old(entries) && entries[p] == old(entries)[p]
      ensures |old(entries)| < MaxRegexCacheSize ==> entries == old(entries)[pattern := re]
    {
      if |entries| >= MaxRegexCacheSize {
        var victim :| victim in entries;
        entries := entries - {victim};
      }
      entries := entries[pattern := re];
    }
  }

  /** Every entry of `after` other than `pattern`'s was already in `before`,
   *  unchanged: the only change besides adding `pattern` is an eviction. */
  ghost predicate OthersKept(before: map<string, Regexp>, after: map<string, Regexp>, pattern: string)
  {
    forall p :: p in after && p != pattern ==> p in before && after[p] == before[p]
  }

  /** `getCompiledRegex`: a cached pattern is returned without compiling; an
   *  uncached one is compiled and cached only when that succeeds. */
  method GetCompiledRegex(cache: RegexCache, pattern: string) returns (r: Result<Regexp>)
    requires cache.Valid()
    modifies cache
    ensures cache.Valid()
    ensures pattern in old(cache.entries) ==> r == Success(Regexp(pattern)) && cache.entries == old(cache.entries)
    ensures pattern !in old(cache.entries) && !cache.compiles(pattern) ==> r.Failure? && cache.entries == old(cache.entries)
    ensures pattern !in old(cache.entries) && cache.compiles(pattern) ==>
      r == Success(Regexp(pattern)) && pattern in cache.entries
      && (|old(cache.entries)| < MaxRegexCacheSize ==> cache.entries == old(cache.entries)[pattern := Regexp(pattern)])
    ensures OthersKept(old(cache.entries), cache.entries, pattern)
  {
    var cached := cache.Get(pattern);
    if cached.Some? {
      return Success(cached.value);
    }
    if !cache.compiles(pattern) {
      return Failure("error parsing regexp");
    }
    var re := Regexp(pattern);
    cache.Add(pattern, re);
    return Success(re);
  }

  /** What `go.matches_pattern` answers, cache aside: undefined unless both
   *  arguments are strings, false for a pattern that does not compile, and
   *  otherwise whether the string matches. */
  function MatchesPattern(a: Term, b: Term, compiles: string -> bool, matches: (string, string) -> bool): Option<Term>
  {
    if !a.StringTerm? || !b.StringTerm? then None
    else if !compiles(b.s) then Some(BooleanTerm(false))
    else Some(BooleanTerm(matches(b.s, a.s)))
  }

  /** `go.matches_pattern`; `matches(pattern, s)` is `MatchString` of the
   *  compiled pattern. The cache never changes the answer. */
  method MatchesPatternBuiltin(cache: RegexCache, a: Term, b: Term, matches: (string, string) -> bool)
    returns (r: Option<Term>)
    requires cache.Valid()
    modifies cache
    ensures cache.Valid()
    ensures r == MatchesPattern(a, b, cache.compiles, matches)
    ensures !a.StringTerm? || !b.StringTerm? ==> cache.entries == old(cache.entries)
    ensures a.StringTerm? && b.StringTerm? ==>
      var pattern := b.s;
      && (pattern in old(cache.entries) || !cache.compiles(pattern) ==> cache.entries == old(cache.entries))
      && (pattern !in old(cache.entries) && cache.compiles(pattern) ==>
            pattern in cache.entries
            && (|old(cache.entries)| < MaxRegexCacheSize ==> cache.entries == old(cache.entries)[pattern := Regexp(pattern)]))
      && OthersKept(old(cache.entries), cache.entries, pattern)
  {
    if !a.StringTerm? {
      return None;
    }
    if !b.StringTerm? {
      return None;
    }
    var re := GetCompiledRegex(cache, b.s);
    if re.Failure? {
      return Some(BooleanTerm(false));
    }
    return Some(BooleanTerm(matches(re.value.pattern, a.s)));
  }

  /** An invalid pattern is an answer, not an error: the result is defined for
   *  every pair of strings, and false whenever the pattern does not compile. */
  lemma MatchesPatternFacts(s: string, pattern: string, compiles: string -> bool, matches: (string, string) -> bool)
    ensures MatchesPattern(StringTerm(s), StringTerm(pattern), compiles, matches).Some?
    ensures !compiles(pattern) ==> MatchesPattern(StringTerm(s), StringTerm(pattern), compiles, matches) == Some(BooleanTerm(false))
    ensures MatchesPattern(Other, StringTerm(pattern), compiles, matches).None?
    ensures MatchesPattern(StringTerm(s), Other, compiles, matches).None?
  {
  }
}
