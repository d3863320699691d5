/** Literal search terms inside LIKE patterns (persistence/repository.go:72-89). */
module LikePattern {
  predicate IsMeta(c: char) { c == '\\' || c == '%' || c == '_' }

  /** One pass; inserted backslashes are not escaped again. */
  function EscapeLikePattern(s: string): string {
    if s == [] then [] else (if IsMeta(s[0]) then ['\\', s[0]] else [s[0]]) + EscapeLikePattern(s[1..])
  }

  /** SQL LIKE with ESCAPE '\': `%` is any run, `_` any one character, a trailing escape matches
      nothing. Characters compare after `fold`, so SQLite's case folding is an instance. */
  predicate Like(fold: char -> char, p: string, t: string)
    decreases |p|, |t|
  {
    if p == [] then t == []
    else if p[0] == '%' then Like(fold, p[1..], t) || (t != [] && Like(fold, p, t[1..]))
    else if p[0] == '_' then t != [] && Like(fold, p[1..], t[1..])
    else if p[0] == '\\' then |p| >= 2 && t != [] && fold(p[1]) == fold(t[0]) && Like(fold, p[2..], t[1..])
    else t != [] && fold(p[0]) == fold(t[0]) && Like(fold, p[1..], t[1..])
  }

  /** The matcher on its two wildcards and on a plain character. */
  lemma LikeMeaning(fold: char -> char, c: char, t: string)
    ensures Like(fold, "%", t)
    ensures Like(fold, "_", t) <==> |t| == 1
    ensures Like(fold, ['\\', c], t) <==> |t| == 1 && fold(c) == fold(t[0])
    ensures !IsMeta(c) ==> (Like(fold, [c], t) <==> |t| == 1 && fold(c) == fold(t[0]))
    decreases |t|
  {
    assert "%"[1..] == [] && "_"[1..] == [] && [c][1..] == [] && ['\\', c][2..] == [];
    assert forall q: string :: Like(fold, [], q) <==> q == [];
    if t != [] { LikeMeaning(fold, c, t[1..]); }
  }

  predicate StartsWith(fold: char -> char, s: string, t: string) {
    |s| <= |t| && forall k :: 0 <= k < |s| ==> fold(s[k]) == fold(t[k])
  }

  ghost predicate Contains(fold: char -> char, s: string, t: string) {
    exists i :: 0 <= i <= |t| && StartsWith(fold, s, t[i..])
  }

  /** An escaped term consumes exactly itself. */
  lemma {:induction false} EscapedPrefix(fold: char -> char, s: string, q: string, t: string)
    ensures Like(fold, EscapeLikePattern(s) + q, t) <==> StartsWith(fold, s, t) && Like(fold, q, t[|s|..])
  {
    var p := EscapeLikePattern(s) + q;
    if s == [] {
      assert p == q && t[0..] == t;
    } else {
      var rest := EscapeLikePattern(s[1..]) + q;
      if IsMeta(s[0]) {
        assert p[0] == '\\' && p[1] == s[0] && p[2..] == rest;
      } else {
        assert p[0] == s[0] && p[1..] == rest;
      }
      if t != [] {
        EscapedPrefix(fold, s[1..], q, t[1..]);
        if |s| <= |t| { assert t[1..][|s| - 1..] == t[|s|..]; }
        assert forall k :: 0 <= k < |s[1..]| ==> s[1..][k] == s[k + 1];
        assert StartsWith(fold, s, t) <==> fold(s[0]) == fold(t[0]) && StartsWith(fold, s[1..], t[1..]) by {
          if fold(s[0]) == fold(t[0]) && StartsWith(fold, s[1..], t[1..]) {
            forall k | 0 <= k < |s| ensures fold(s[k]) == fold(t[k]) {
              if k > 0 { assert s[k] == s[1..][k - 1] && t[k] == t[1..][k - 1]; }
            }
          }
        }
      }
    }
  }

  lemma {:induction false} AnyRun(fold: char -> char, q: string, t: string)
    ensures Like(fold, "%" + q, t) <==> exists i :: 0 <= i <= |t| && Like(fold, q, t[i..])
    decreases |t|
  {
    var p := "%" + q;
    assert p[1..] == q && t[0..] == t;
    if t != [] {
      AnyRun(fold, q, t[1..]);
      assert forall i :: 0 <= i <= |t| - 1 ==> t[1..][i..] == t[i + 1..];
      if i :| 0 <= i <= |t| && Like(fold, q, t[i..]) {
        if i > 0 { assert t[i..] == t[1..][i - 1..]; }
      }
      if i :| 0 <= i <= |t| - 1 && Like(fold, q, t[1..][i..]) { assert Like(fold, q, t[i + 1..]); }
    }
  }

  /** `%term%` matches exactly the texts that contain the term literally. */
  lemma EscapedTermIsLiteral(fold: char -> char, s: string, t: string)
    ensures Like(fold, "%" + EscapeLikePattern(s) + "%", t) <==> Contains(fold, s, t)
  {
    var q := EscapeLikePattern(s) + "%";
    assert "%" + EscapeLikePattern(s) + "%" == "%" + q;
    AnyRun(fold, q, t);
    forall i | 0 <= i <= |t|
      ensures Like(fold, q, t[i..]) <==> StartsWith(fold, s, t[i..])
    {
      EscapedPrefix(fold, s, "%", t[i..]);
      if |s| <= |t[i..]| {
        var rest := t[i..][|s|..];
        AnyRun(fold, [], rest);
        assert "%" + [] == "%" && rest[|rest|..] == [];
        assert Like(fold, [], rest[|rest|..]);
      }
    }
  }

  // ----- terms that were not escaped

  function Same(c: char): char { c }

  /** A text that the unescaped term, followed by `%`, matches. */
  function Sample(s: string): string {
    if s == [] then []
    else if s[0] == '%' then Sample(s[1..])
    else if s[0] == '_' then ['a'] + Sample(s[1..])
    else if s[0] != '\\' then [s[0]] + Sample(s[1..])
    else if |s| == 1 then ['%']
    else [s[1]] + Sample(s[2..])
  }

  lemma {:induction false} SampleMatches(s: string)
    ensures Like(Same, s + "%", Sample(s))
    decreases |s|
  {
    var p, t := s + "%", Sample(s);
    if s == [] {
      assert p == "%" && p[1..] == [];
      assert Like(Same, [], []);
    } else if s[0] == '\\' && |s| == 1 {
      assert p[0] == '\\' && p[1] == '%' && p[2..] == [] && t[1..] == [];
      assert Like(Same, [], []);
    } else if s[0] == '\\' {
      assert p[2..] == s[2..] + "%" && p[1] == s[1] && t[1..] == Sample(s[2..]);
      SampleMatches(s[2..]);
    } else {
      assert p[1..] == s[1..] + "%";
      SampleMatches(s[1..]);
      if s[0] != '%' { assert t[1..] == Sample(s[1..]); }
    }
  }

  /** The sample is no longer than the term, and differs from it when the term has a wildcard. */
  lemma {:induction false} SampleDiffers(s: string)
    ensures |Sample(s)| <= |s|
    ensures (exists i :: 0 <= i < |s| && IsMeta(s[i])) ==> Sample(s) != s
    decreases |s|
  {
    if s != [] {
      SampleDiffers(s[1..]);
      if s[0] == '\\' && |s| > 1 { SampleDiffers(s[2..]); }
      if !IsMeta(s[0]) {
        assert Sample(s)[1..] == Sample(s[1..]);
        if i :| 0 <= i < |s| && IsMeta(s[i]) { assert s[i] == s[1..][i - 1]; }
      }
    }
  }

  lemma {:induction false} NothingToEscape(s: string)
    requires forall i :: 0 <= i < |s| ==> !IsMeta(s[i])
    ensures EscapeLikePattern(s) == s
  {
    if s != [] { NothingToEscape(s[1..]); }
  }

  lemma ShortContains(s: string, t: string)
    requires |t| <= |s|
    ensures Contains(Same, s, t) ==> t == s
  {}

  /** Left unescaped, a term still matches exactly the texts that contain it, if and only if it has
      none of the three special characters. */
  lemma RawTermIsLiteralExactly(s: string)
    ensures (forall t :: Like(Same, "%" + s + "%", t) <==> Contains(Same, s, t)) <==> (forall i :: 0 <= i < |s| ==> !IsMeta(s[i]))
  {
    if forall i :: 0 <= i < |s| ==> !IsMeta(s[i]) {
      NothingToEscape(s);
      forall t ensures Like(Same, "%" + s + "%", t) <==> Contains(Same, s, t) { EscapedTermIsLiteral(Same, s, t); }
    } else {
      var t := Sample(s);
      SampleMatches(s);
      SampleDiffers(s);
      AnyRun(Same, s + "%", t);
      assert "%" + s + "%" == "%" + (s + "%") && t[0..] == t;
      assert Like(Same, "%" + s + "%", t);
      ShortContains(s, t);
    }
  }
}
