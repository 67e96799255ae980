/**
 * Scope filtering of captured URLs: the include patterns, matched against the
 * path and query of a request, and the exclude patterns, matched against its
 * full URL (src/recorder.js, matchesIncludePatterns and matchesExcludePatterns).
 *
 * An include pattern that contains `*` is turned into a regular expression by
 * replacing every `*` with `.*` and tested without anchors. Here a pattern is a
 * glob over literal characters and `*`; `GlobMatch` is what the compiled
 * expression matches as a whole, and the unanchored test is "some substring of
 * the URL matches", which `GlobSearch` computes.
 */
module Matcher {
  import opened Strings

  /** Pattern `p` matches all of `s`: `*` stands for any run of characters, every other character for itself. */
  predicate GlobMatch(p: string, s: string)
    decreases |p| + |s|
  {
    if p == [] then s == []
    else if p[0] == '*' then GlobMatch(p[1..], s) || (s != [] && GlobMatch(p, s[1..]))
    else s != [] && s[0] == p[0] && GlobMatch(p[1..], s[1..])
  }

  /** `new RegExp(p with '*' as '.*').test(s)`: some substring of `s` matches `p`. */
  ghost predicate RegexTest(p: string, s: string) {
    exists i, j :: 0 <= i <= j <= |s| && GlobMatch(p, s[i..j])
  }

  /** Pattern `p` matches some prefix of `s`. */
  predicate GlobPrefix(p: string, s: string)
    decreases |p| + |s|
  {
    if p == [] then true
    else if p[0] == '*' then GlobPrefix(p[1..], s) || (s != [] && GlobPrefix(p, s[1..]))
    else s != [] && s[0] == p[0] && GlobPrefix(p[1..], s[1..])
  }

  /** The unanchored test, computed by trying every start position. */
  predicate GlobSearch(p: string, s: string)
    decreases |s|
  {
    GlobPrefix(p, s) || (s != [] && GlobSearch(p, s[1..]))
  }

  lemma {:induction false} GlobPrefixIffMatch(p: string, s: string)
    ensures GlobPrefix(p, s) <==> exists j :: 0 <= j <= |s| && GlobMatch(p, s[..j])
    decreases |p| + |s|
  {
    if p == [] {
      assert GlobMatch(p, s[..0]);
    } else if p[0] == '*' {
      if GlobPrefix(p, s) {
        if GlobPrefix(p[1..], s) {
          GlobPrefixIffMatch(p[1..], s);
          var j :| 0 <= j <= |s| && GlobMatch(p[1..], s[..j]);
          assert GlobMatch(p, s[..j]);
        } else {
          GlobPrefixIffMatch(p, s[1..]);
          var j :| 0 <= j <= |s[1..]| && GlobMatch(p, s[1..][..j]);
          assert s[..j + 1][1..] == s[1..][..j];
          assert GlobMatch(p, s[..j + 1]);
        }
      }
      if exists j :: 0 <= j <= |s| && GlobMatch(p, s[..j]) {
        var j :| 0 <= j <= |s| && GlobMatch(p, s[..j]);
        if GlobMatch(p[1..], s[..j]) {
          GlobPrefixIffMatch(p[1..], s);
        } else {
          assert s[..j][1..] == s[1..][..j - 1];
          GlobPrefixIffMatch(p, s[1..]);
        }
      }
    } else {
      if GlobPrefix(p, s) {
        GlobPrefixIffMatch(p[1..], s[1..]);
        var j :| 0 <= j <= |s[1..]| && GlobMatch(p[1..], s[1..][..j]);
        assert s[..j + 1][1..] == s[1..][..j];
        assert GlobMatch(p, s[..j + 1]);
      }
      if exists j :: 0 <= j <= |s| && GlobMatch(p, s[..j]) {
        var j :| 0 <= j <= |s| && GlobMatch(p, s[..j]);
        assert s[..j][1..] == s[1..][..j - 1];
        GlobPrefixIffMatch(p[1..], s[1..]);
      }
    }
  }

  /** The computed search is the unanchored regular-expression test. */
  lemma {:induction false} GlobSearchIsRegexTest(p: string, s: string)
    ensures GlobSearch(p, s) <==> RegexTest(p, s)
    decreases |s|
  {
    if GlobSearch(p, s) {
      if GlobPrefix(p, s) {
        GlobPrefixIffMatch(p, s);
        var j :| 0 <= j <= |s| && GlobMatch(p, s[..j]);
        assert s[0..j] == s[..j];
        assert GlobMatch(p, s[0..j]);
      } else {
        GlobSearchIsRegexTest(p, s[1..]);
        var i, j :| 0 <= i <= j <= |s[1..]| && GlobMatch(p, s[1..][i..j]);
        assert s[1..][i..j] == s[i + 1..j + 1];
        assert GlobMatch(p, s[i + 1..j + 1]);
      }
    }
    if RegexTest(p, s) {
      var i, j :| 0 <= i <= j <= |s| && GlobMatch(p, s[i..j]);
      if i == 0 {
        assert s[0..j] == s[..j];
        GlobPrefixIffMatch(p, s);
      } else {
        assert s[1..][i - 1..j - 1] == s[i..j];
        assert GlobMatch(p, s[1..][i - 1..j - 1]);
        GlobSearchIsRegexTest(p, s[1..]);
      }
    }
  }

  /** Without `*`, a pattern matches a prefix exactly when it is one. */
  lemma {:induction false} StarFreePrefix(p: string, s: string)
    requires '*' !in p
    ensures GlobPrefix(p, s) <==> StartsWith(s, p)
    decreases |p|
  {
    if p != [] && s != [] {
      assert '*' !in p[1..] by {
        assert forall c :: c in p[1..] ==> c in p;
      }
      StarFreePrefix(p[1..], s[1..]);
      assert StartsWith(s, p) <==> s[0] == p[0] && StartsWith(s[1..], p[1..]) by {
        if |p| <= |s| {
          assert s[..|p|] == [s[0]] + s[1..][..|p[1..]|];
          assert p == [p[0]] + p[1..];
        }
      }
    }
  }

  /** Without `*`, the glob search is plain substring containment. */
  lemma {:induction false} StarFreeSearchIsContains(p: string, s: string)
    requires '*' !in p
    ensures GlobSearch(p, s) <==> Contains(s, p)
    decreases |s|
  {
    StarFreePrefix(p, s);
    if s != [] {
      StarFreeSearchIsContains(p, s[1..]);
    }
  }

  /** A trailing `*` adds nothing to a prefix match. */
  lemma {:induction false} TrailingStarPrefix(p: string, s: string)
    ensures GlobPrefix(p + "*", s) <==> GlobPrefix(p, s)
    decreases |p| + |s|
  {
    if p == [] {
      assert p + "*" == "*" && "*"[1..] == [];
    } else {
      assert (p + "*")[1..] == p[1..] + "*";
      if p[0] == '*' {
        TrailingStarPrefix(p[1..], s);
        if s != [] {
          TrailingStarPrefix(p, s[1..]);
        }
      } else if s != [] {
        TrailingStarPrefix(p[1..], s[1..]);
      }
    }
  }

  /** A trailing `*` adds nothing to an unanchored search. */
  lemma {:induction false} TrailingStarSearch(p: string, s: string)
    ensures GlobSearch(p + "*", s) <==> GlobSearch(p, s)
    decreases |s|
  {
    TrailingStarPrefix(p, s);
    if s != [] {
      TrailingStarSearch(p, s[1..]);
    }
  }

  /** One include pattern against the path and query of a request (src/recorder.js:24-29). */
  predicate IncludeMatches(url: string, pattern: string) {
    if pattern == "*" then true
    else if '*' in pattern then GlobSearch(pattern, url)
    else Contains(url, pattern)
  }

  /** An empty list lets everything through; otherwise some pattern must match. */
  function MatchesIncludePatterns(url: string, patterns: seq<string>): (r: bool)
    ensures patterns == [] ==> r
    ensures "*" in patterns ==> r
  {
    patterns == [] || exists pattern | pattern in patterns :: IncludeMatches(url, pattern)
  }

  /** What one include pattern means: `*` is everything, a glob is the regular-expression test, anything else a substring. */
  ghost predicate IncludeMeaning(url: string, pattern: string) {
    if pattern == "*" then true
    else if '*' in pattern then RegexTest(pattern, url)
    else exists i :: OccursAt(url, pattern, i)
  }

  /** The include filter agrees with the meaning of its patterns. */
  lemma IncludeFilterMeaning(url: string, patterns: seq<string>)
    ensures MatchesIncludePatterns(url, patterns)
            <==> patterns == [] || exists pattern | pattern in patterns :: IncludeMeaning(url, pattern)
  {
    forall pattern | pattern in patterns
      ensures IncludeMatches(url, pattern) <==> IncludeMeaning(url, pattern)
    {
      GlobSearchIsRegexTest(pattern, url);
      ContainsIffOccurs(url, pattern);
    }
  }

  /** A glob `p*` with no other `*` accepts exactly the URLs that contain `p`, as the plain pattern `p` does. */
  lemma WildcardSuffixIsSubstring(url: string, p: string)
    requires '*' !in p
    ensures MatchesIncludePatterns(url, [p + "*"]) <==> Contains(url, p)
    ensures MatchesIncludePatterns(url, [p]) <==> Contains(url, p)
  {
    assert p + "*" in [p + "*"];
    assert p in [p];
    if p == [] {
      assert StartsWith(url, p);
    } else {
      assert (p + "*")[..|p|] == p;
      assert p + "*" != "*";
      assert '*' in p + "*" by {
        assert (p + "*")[|p|] == '*';
      }
      TrailingStarSearch(p, url);
      StarFreeSearchIsContains(p, url);
    }
  }

  /** One exclude pattern against the full URL: `*.ext` is a suffix test, anything else a substring (src/recorder.js:38-41). */
  predicate ExcludeMatches(url: string, pattern: string) {
    if StartsWith(pattern, "*.") then EndsWith(url, pattern[1..]) else Contains(url, pattern)
  }

  /** Excluded when some pattern matches; an empty list excludes nothing. */
  function MatchesExcludePatterns(url: string, patterns: seq<string>): (r: bool)
    ensures patterns == [] ==> !r
    ensures r ==> exists pattern :: pattern in patterns && ExcludeMatches(url, pattern)
  {
    exists pattern | pattern in patterns :: ExcludeMatches(url, pattern)
  }

  /** What one exclude pattern means: `*.ext` is a suffix, anything else occurs somewhere in the URL. */
  ghost predicate ExcludeMeaning(url: string, pattern: string) {
    if StartsWith(pattern, "*.") then EndsWith(url, pattern[1..]) else exists i :: OccursAt(url, pattern, i)
  }

  /** A URL is excluded exactly when some listed pattern, read by its meaning, matches it. */
  lemma ExcludeFilterMeaning(url: string, patterns: seq<string>)
    ensures MatchesExcludePatterns(url, patterns)
            <==> exists pattern | pattern in patterns :: ExcludeMeaning(url, pattern)
  {
    forall pattern | pattern in patterns
      ensures ExcludeMatches(url, pattern) <==> ExcludeMeaning(url, pattern)
    {
      ContainsIffOccurs(url, pattern);
    }
  }

  /** `*.ext` excludes exactly the URLs ending in `.ext`. */
  lemma ExtensionPatternIsSuffix(url: string, ext: string)
    ensures MatchesExcludePatterns(url, ["*." + ext]) <==> EndsWith(url, "." + ext)
  {
    var pattern := "*." + ext;
    assert pattern in ["*." + ext];
    assert StartsWith(pattern, "*.") by {
      assert pattern[..2] == "*.";
    }
    assert pattern[1..] == "." + ext;
  }

  /** `*.png` excludes `https://x/y/z.png` and not `https://x/y/zpng`. */
  lemma PngExample()
    ensures MatchesExcludePatterns("https://x/y/z.png", ["*.png"])
    ensures !MatchesExcludePatterns("https://x/y/zpng", ["*.png"])
  {
    assert "*." + "png" == "*.png" && "." + "png" == ".png";
    ExtensionPatternIsSuffix("https://x/y/z.png", "png");
    ExtensionPatternIsSuffix("https://x/y/zpng", "png");
    assert "https://x/y/z.png"[13..] == ".png";
    assert "https://x/y/zpng"[12..] != ".png" by {
      assert "https://x/y/zpng"[12..][0] == 'z';
    }
  }
}
