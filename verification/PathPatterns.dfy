/** Path patterns, as in `MatchPathPattern` of internal/config/config.go. */
module PathPatterns {
  import opened Text

  /**
   * The standard-library calls the models leave abstract: `filepath.Clean` with slashes, `filepath.Match`,
   * lower-casing of the trimmed text, and `strings.Title`.
   */
  datatype Platform = Platform(
    clean: string -> string, glob: (string, string) -> bool, lowerTrim: string -> string, title: string -> string)

  predicate MatchPathPattern(ops: Platform, rawPattern: string, rawTarget: string) {
    var pattern := ops.clean(rawPattern);
    var target := ops.clean(rawTarget);
    if pattern == target || pattern == "*" || pattern == "**" || pattern == "**/*" then true
    else if HasSuffix(pattern, "/**") then
      var prefix := TrimSuffix(pattern, "/**");
      target == prefix || HasPrefix(target, prefix + "/")
    else if HasPrefix(pattern, "**/") then
      var suffix := TrimPrefix(pattern, "**/");
      target == suffix || HasSuffix(target, "/" + suffix)
    else
      ops.glob(pattern, target)
  }

  /** The test by which changed paths invalidate scoped evidence: a pattern match, or a plain prefix match. */
  predicate ScopeMatches(ops: Platform, scoped: string, changed: string) {
    MatchPathPattern(ops, scoped, changed) || HasPrefix(changed, TrimSuffix(scoped, "*"))
  }

  predicate ScopeTouched(ops: Platform, scope: seq<string>, changedPaths: seq<string>) {
    exists i, j :: 0 <= i < |changedPaths| && 0 <= j < |scope| && ScopeMatches(ops, scope[j], changedPaths[i])
  }

  // ---------------------------------------------------------------- what the patterns mean

  /**
   * On cleaned paths: a pattern matches itself, and the three patterns for everything match everything. A directory
   * followed by two stars matches the directory and exactly what lies below it. Two stars before a name match the name
   * at the root and in every directory. Any other pattern is left to globbing.
   */
  lemma PatternsMatchExactly(ops: Platform, pattern: string, raw: string, target: string, name: string)
    requires ops.clean(raw) == target
    ensures ops.clean(pattern) in {target, "*", "**", "**/*"} ==> MatchPathPattern(ops, pattern, raw)
    ensures ops.clean(pattern) == name + "/**" ==>
              (MatchPathPattern(ops, pattern, raw) <==>
               target == name || target == name + "/**" || exists rest :: target == name + "/" + rest)
    ensures ops.clean(pattern) == "**/" + name && name != "*" && !EndsInAll("**/" + name) ==>
              (MatchPathPattern(ops, pattern, raw) <==>
               target == name || target == "**/" + name || exists front :: target == front + "/" + name)
    ensures ops.clean(pattern) !in {target, "*", "**", "**/*"} && !EndsInAll(ops.clean(pattern))
            && !StartsInAll(ops.clean(pattern)) ==>
              (MatchPathPattern(ops, pattern, raw) <==> ops.glob(ops.clean(pattern), target))
  {
    var cleaned := ops.clean(pattern);
    if cleaned == name + "/**" {
      DirectoryPattern(ops, pattern, raw, target, name);
    }
    if cleaned == "**/" + name && name != "*" && !EndsInAll(cleaned) {
      AnywherePattern(ops, pattern, raw, target, name);
    }
  }

  predicate EndsInAll(pattern: string) {
    |pattern| >= 3 && pattern[|pattern| - 3..] == "/**"
  }

  predicate StartsInAll(pattern: string) {
    |pattern| >= 3 && pattern[..3] == "**/"
  }

  lemma DirectoryPattern(ops: Platform, pattern: string, raw: string, target: string, name: string)
    requires ops.clean(raw) == target && ops.clean(pattern) == name + "/**"
    ensures MatchPathPattern(ops, pattern, raw) <==>
            target == name || target == name + "/**" || exists rest :: target == name + "/" + rest
  {
    var cleaned := name + "/**";
    assert cleaned[|name|..] == "/**" && cleaned[..|name|] == name;
    assert |cleaned| >= 3 && cleaned[|name| + 1] == '*' && cleaned[|name|] == '/';
    assert cleaned != "*" && cleaned != "**" && (name == "**" || cleaned != "**/*");
    PrefixExactly(name + "/", target);
  }

  lemma AnywherePattern(ops: Platform, pattern: string, raw: string, target: string, name: string)
    requires ops.clean(raw) == target && ops.clean(pattern) == "**/" + name
    requires name != "*" && !EndsInAll("**/" + name)
    ensures MatchPathPattern(ops, pattern, raw) <==>
            target == name || target == "**/" + name || exists front :: target == front + "/" + name
  {
    var cleaned := "**/" + name;
    assert cleaned[3..] == name && cleaned[2] == '/';
    assert cleaned != "*" && cleaned != "**";
    assert cleaned != "**/*" by {
      assert "**/*"[3..] == "*";
    }
    SuffixExactly("/" + name, target);
    if front :| target == front + "/" + name {
      assert target == front + ("/" + name);
    }
    if front :| target == front + ("/" + name) {
      assert target == front + "/" + name;
    }
  }

  lemma SuffixExactly(end: string, text: string)
    ensures HasSuffix(text, end) <==> exists front :: text == front + end
  {
    if HasSuffix(text, end) {
      assert text == text[..|text| - |end|] + end;
    }
  }

  /** A changed path touches a scope pattern if the pattern matches, or is a plain prefix up to a final star. */
  lemma ScopesMatchExactly(ops: Platform, scoped: string, changed: string, stem: string)
    ensures scoped == stem + "*" ==>
              (ScopeMatches(ops, scoped, changed) <==>
               MatchPathPattern(ops, scoped, changed) || exists rest :: changed == stem + rest)
    ensures (scoped == "" || scoped[|scoped| - 1] != '*') ==>
              (ScopeMatches(ops, scoped, changed) <==>
               MatchPathPattern(ops, scoped, changed) || exists rest :: changed == scoped + rest)
  {
    if scoped == stem + "*" {
      assert scoped[..|scoped| - 1] == stem && scoped[|scoped| - 1..] == "*";
      PrefixExactly(stem, changed);
    }
    if scoped == "" || scoped[|scoped| - 1] != '*' {
      assert TrimSuffix(scoped, "*") == scoped;
      PrefixExactly(scoped, changed);
    }
  }

  lemma PrefixExactly(stem: string, text: string)
    ensures HasPrefix(text, stem) <==> exists rest :: text == stem + rest
  {
    if HasPrefix(text, stem) {
      assert text == stem + text[|stem|..];
    }
  }
}
