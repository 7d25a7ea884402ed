/** The wildcard patterns of the cache's `delete`
    (backend/src/utils/cacheManager.ts:58-59). A pattern is compiled to the
    regular expression made of `^`, the pattern with every star replaced by
    `.*`, and `$`, so the whole key must match. The other characters of the
    pattern are NOT escaped, so the compiled expression means "glob match"
    only when they are free of regular-expression syntax (`RegexLiteral`). */
module Glob {

  /** Line terminators: the characters that `.` in a JavaScript regular
      expression does not match, so a `*` of a pattern cannot span them. */
  predicate IsLineTerminator(c: char) {
    c == '\n' || c == '\r' || c == '\U{2028}' || c == '\U{2029}'
  }

  predicate NoLineTerminator(s: string) {
    forall i :: 0 <= i < |s| ==> !IsLineTerminator(s[i])
  }

  /** The characters that carry meaning in a JavaScript regular expression
      outside a character class; `*` is replaced before compilation. */
  const RegexSyntax: set<char> := {'\\', '^', '$', '.', '|', '?', '+', '(', ')', '[', ']', '{', '}'}

  /** The pattern's characters other than `*` all stand for themselves in
      the compiled regular expression (true of the `book:<id>:reviews:*`
      patterns, whose id is a 24-digit hexadecimal ObjectId). */
  predicate RegexLiteral(pattern: string) {
    forall i :: 0 <= i < |pattern| ==> pattern[i] !in RegexSyntax
  }

  /** `key` matches the anchored expression compiled from `pattern`: each `*`
      matches any run of characters other than line terminators and every
      other character matches itself. The match is anchored at both ends: a
      pattern that begins or ends with a literal character matches only keys
      that begin or end with it. */
  predicate GlobMatch(pattern: string, key: string)
    ensures GlobMatch(pattern, key) && pattern != [] && pattern[0] != '*' ==> key != [] && key[0] == pattern[0]
    ensures GlobMatch(pattern, key) && pattern != [] && pattern[|pattern| - 1] != '*'
      ==> key != [] && key[|key| - 1] == pattern[|pattern| - 1]
    decreases |pattern| + |key|
  {
    if pattern == [] then key == []
    else if pattern[0] == '*' then
      GlobMatch(pattern[1..], key)
      || (key != [] && !IsLineTerminator(key[0]) && GlobMatch(pattern, key[1..]))
    else
      key != [] && key[0] == pattern[0] && GlobMatch(pattern[1..], key[1..])
  }

  /** Without a `*` a pattern matches exactly itself; this is why the exact
      and the wildcard branch of `delete` agree on star-free keys. */
  lemma {:induction false} NoStarMatchIsEquality(pattern: string, key: string)
    requires '*' !in pattern
    ensures GlobMatch(pattern, key) <==> pattern == key
    decreases |pattern|
  {
    if pattern != [] && key != [] {
      NoStarMatchIsEquality(pattern[1..], key[1..]);
      if key == pattern {
        assert key[1..] == pattern[1..];
      } else if key[0] == pattern[0] {
        assert key == [key[0]] + key[1..] && pattern == [pattern[0]] + pattern[1..];
      }
    }
  }

  /** Every string, read as a pattern, matches itself: a `*` matches the
      literal `*`. Hence lazy eviction and the sweep remove the key they act
      on whenever that key is `DeletableByGlob`, so that the compiled
      expression is this glob. */
  lemma {:induction false} SelfMatch(key: string)
    ensures GlobMatch(key, key)
    decreases |key|
  {
    if key != [] {
      SelfMatch(key[1..]);
      if key[0] == '*' {
        assert GlobMatch(key, key[1..]);
      }
    }
  }

  /** Matching is transitive: if key `b`, read as a pattern, is matched by
      pattern `a`, then everything `b` matches is matched by `a`. So a key
      removed by an earlier wildcard delete would have removed nothing new. */
  lemma {:induction false} MatchTransitive(a: string, b: string, c: string)
    requires GlobMatch(a, b) && GlobMatch(b, c)
    ensures GlobMatch(a, c)
    decreases |a| + |b| + |c|
  {
    if a == [] {
      assert b == [];
    } else if a[0] == '*' {
      if GlobMatch(a[1..], b) {
        MatchTransitive(a[1..], b, c);
      } else {
        assert b != [] && !IsLineTerminator(b[0]) && GlobMatch(a, b[1..]);
        if b[0] == '*' {
          if GlobMatch(b[1..], c) {
            MatchTransitive(a, b[1..], c);
          } else {
            assert c != [] && !IsLineTerminator(c[0]) && GlobMatch(b, c[1..]);
            MatchTransitive(a, b, c[1..]);
          }
        } else {
          assert c != [] && c[0] == b[0] && GlobMatch(b[1..], c[1..]);
          MatchTransitive(a, b[1..], c[1..]);
        }
      }
    } else {
      assert b != [] && b[0] == a[0] && GlobMatch(a[1..], b[1..]);
      assert c != [] && c[0] == b[0] && GlobMatch(b[1..], c[1..]);
      MatchTransitive(a[1..], b[1..], c[1..]);
    }
  }

  /** A lone `*` matches exactly the strings without line terminators. */
  lemma {:induction false} StarMatches(key: string)
    ensures GlobMatch("*", key) <==> NoLineTerminator(key)
    decreases |key|
  {
    assert "*"[1..] == [];
    if key != [] {
      StarMatches(key[1..]);
      assert NoLineTerminator(key) <==> !IsLineTerminator(key[0]) && NoLineTerminator(key[1..]);
    }
  }

  /** `prefix*` (with a star-free prefix) matches exactly the keys that
      start with `prefix` and continue without a line terminator. */
  lemma {:induction false} PrefixStarMatches(prefix: string, key: string)
    requires '*' !in prefix
    ensures GlobMatch(prefix + "*", key) <==> prefix <= key && NoLineTerminator(key[|prefix|..])
    decreases |prefix|
  {
    if prefix == [] {
      assert prefix + "*" == "*";
      StarMatches(key);
    } else {
      var p := prefix + "*";
      assert p[0] == prefix[0] && p[1..] == prefix[1..] + "*";
      if key != [] {
        PrefixStarMatches(prefix[1..], key[1..]);
        if |prefix| <= |key| {
          assert key[|prefix|..] == key[1..][|prefix[1..]|..];
        }
        if prefix <= key {
          assert prefix[1..] <= key[1..];
        }
      }
    }
  }

  /** `*suffix` matches `mid + suffix` for a star-free suffix and a `mid`
      without line terminators. */
  lemma {:induction false} StarThenLiteral(suffix: string, mid: string)
    requires '*' !in suffix && NoLineTerminator(mid)
    ensures GlobMatch("*" + suffix, mid + suffix)
    decreases |mid|
  {
    var p := "*" + suffix;
    assert p[0] == '*' && p[1..] == suffix;
    if mid == [] {
      assert mid + suffix == suffix;
      SelfMatch(suffix);
    } else {
      StarThenLiteral(suffix, mid[1..]);
      assert (mid + suffix)[1..] == mid[1..] + suffix;
    }
  }

  /** `prefix*suffix` matches `prefix + mid + suffix` for star-free parts
      and a `mid` without line terminators. */
  lemma {:induction false} LiteralStarLiteral(prefix: string, suffix: string, mid: string)
    requires '*' !in prefix && '*' !in suffix && NoLineTerminator(mid)
    ensures GlobMatch(prefix + "*" + suffix, prefix + mid + suffix)
    decreases |prefix|
  {
    if prefix == [] {
      assert prefix + "*" + suffix == "*" + suffix;
      assert prefix + mid + suffix == mid + suffix;
      StarThenLiteral(suffix, mid);
    } else {
      assert '*' !in prefix[1..] by {
        forall i | 0 <= i < |prefix[1..]| ensures prefix[1..][i] != '*' {
          assert prefix[1..][i] == prefix[i + 1];
        }
      }
      var c, rest := prefix[0], prefix[1..];
      assert prefix == [c] + rest;
      LiteralStarLiteral(rest, suffix, mid);
      LiteralHead(c, rest + "*" + suffix, rest + mid + suffix);
      assert prefix + "*" + suffix == [c] + (rest + "*" + suffix);
      assert prefix + mid + suffix == [c] + (rest + mid + suffix);
    }
  }

  /** A literal character in front of a matching pair keeps it matching. */
  lemma LiteralHead(c: char, pattern: string, key: string)
    requires c != '*' && GlobMatch(pattern, key)
    ensures GlobMatch([c] + pattern, [c] + key)
  {
    assert ([c] + pattern)[1..] == pattern;
    assert ([c] + key)[1..] == key;
  }
}
