/**
 * Token templating: every `{tag}` in a template is replaced by the tag's
 * value, one tag after another in the order the replacements are listed.
 */
module Tokens {

  /** A character a tag name may hold. */
  predicate IsTagChar(c: char)
  {
    ('a' <= c <= 'z') || ('A' <= c <= 'Z') || ('0' <= c <= '9') || c == '_'
  }

  /**
   * A tag name for which the pattern `{tag}` matches only itself: a letter
   * followed by letters, digits or underscores (so it is never read as a
   * repetition count and contains no other pattern syntax).
   */
  predicate IsTagName(tag: string)
  {
    |tag| > 0 && (('a' <= tag[0] <= 'z') || ('A' <= tag[0] <= 'Z')) &&
    forall k :: 0 <= k < |tag| ==> IsTagChar(tag[k])
  }

  /** The text a tag stands for in a template. */
  function Token(tag: string): string
  {
    "{" + tag + "}"
  }

  /** An opening brace, tag characters and a closing brace. */
  predicate IsToken(p: string)
  {
    |p| >= 2 && p[0] == '{' && p[|p| - 1] == '}' &&
    forall k :: 0 < k < |p| - 1 ==> IsTagChar(p[k])
  }

  /** `p` occurs in `t` at some position. */
  predicate Occurs(t: string, p: string)
    decreases |t|
  {
    |p| <= |t| && (t[..|p|] == p || (|t| > 0 && Occurs(t[1..], p)))
  }

  /**
   * A global replace: scanning left to right, every occurrence of `pat` that
   * does not overlap an earlier replaced one becomes `rep`.
   */
  function ReplaceAll(s: string, pat: string, rep: string): string
    requires |pat| > 0
    decreases |s|
  {
    if |s| < |pat| then s
    else if s[..|pat|] == pat then rep + ReplaceAll(s[|pat|..], pat, rep)
    else [s[0]] + ReplaceAll(s[1..], pat, rep)
  }

  /** The template after each tag, in order, has had all its tokens replaced. */
  function Substitute(template: string, replacements: seq<(string, string)>): string
    decreases |replacements|
  {
    if replacements == [] then template
    else
      var (tag, value) := replacements[|replacements| - 1];
      ReplaceAll(Substitute(template, replacements[..|replacements| - 1]), Token(tag), value)
  }

  /** Fills in a template, reassigning it once per tag. */
  method ReplaceTokens(template: string, replacements: seq<(string, string)>) returns (r: string)
    requires forall k :: 0 <= k < |replacements| ==> IsTagName(replacements[k].0)
    ensures r == Substitute(template, replacements)
  {
    r := template;
    assert replacements[..|replacements|] == replacements;
    for i := 0 to |replacements|
      invariant r == Substitute(template, replacements[..i])
    {
      assert replacements[..i + 1][..i] == replacements[..i];
      var (tag, value) := replacements[i];
      r := ReplaceAll(r, Token(tag), value);
    }
  }

  // ---------------------------------------------------------------------------
  // A template that holds none of the supplied tokens is returned unchanged.

  lemma {:induction false} ReplaceAllAbsent(s: string, pat: string, rep: string)
    requires |pat| > 0 && !Occurs(s, pat)
    ensures ReplaceAll(s, pat, rep) == s
    decreases |s|
  {
    if |s| >= |pat| {
      ReplaceAllAbsent(s[1..], pat, rep);
    }
  }

  lemma {:induction false} SubstituteAbsent(template: string, replacements: seq<(string, string)>)
    requires forall k :: 0 <= k < |replacements| ==> !Occurs(template, Token(replacements[k].0))
    ensures Substitute(template, replacements) == template
    decreases |replacements|
  {
    if replacements != [] {
      var n := |replacements|;
      SubstituteAbsent(template, replacements[..n - 1]);
      ReplaceAllAbsent(template, Token(replacements[n - 1].0), replacements[n - 1].1);
    }
  }

  // ---------------------------------------------------------------------------
  // No supplied token survives, provided that no value holds a '{' and that no
  // '{' of the template is followed by tag characters only and then another '{'.

  /** After an opening brace: the run of tag characters is not ended by another '{'. */
  predicate AfterOpenOk(u: string)
    decreases |u|
  {
    |u| == 0 || (u[0] != '{' && (IsTagChar(u[0]) ==> AfterOpenOk(u[1..])))
  }

  /** No '{' of `t` is followed by tag characters only and then another '{'. */
  predicate NoNestedOpen(t: string)
    decreases |t|
  {
    |t| == 0 || ((t[0] == '{' ==> AfterOpenOk(t[1..])) && NoNestedOpen(t[1..]))
  }

  lemma {:induction false} NoNestedOpenSuffix(t: string, k: nat)
    requires NoNestedOpen(t) && k <= |t|
    ensures NoNestedOpen(t[k..])
  {
    if k > 0 {
      NoNestedOpenSuffix(t[1..], k - 1);
      assert t[1..][k - 1..] == t[k..];
    }
  }

  lemma {:induction false} NoNestedOpenPrepend(v: string, t: string)
    requires '{' !in v && NoNestedOpen(t)
    ensures NoNestedOpen(v + t)
  {
    if v == [] {
      assert v + t == t;
    } else {
      assert v[0] in v;
      assert (v + t)[0] == v[0];
      NoNestedOpenPrepend(v[1..], t);
      assert (v + t)[1..] == v[1..] + t;
    }
  }

  /** Whether the run of tag characters after a '{' must stop before reaching `t`'s end. */
  predicate EndsClosed(t: string)
  {
    t == [] || (!IsTagChar(t[|t| - 1]) && t[|t| - 1] != '{')
  }

  lemma {:induction false} AfterOpenOkAppend(u: string, b: string)
    requires AfterOpenOk(u) && u != [] && EndsClosed(u)
    ensures AfterOpenOk(u + b)
    decreases |u|
  {
    assert (u + b)[0] == u[0];
    if IsTagChar(u[0]) {
      assert |u| > 1;
      AfterOpenOkAppend(u[1..], b);
      assert (u + b)[1..] == u[1..] + b;
    }
  }

  /** Texts free of nesting stay free of it when joined after a character that ends any tag. */
  lemma {:induction false} NoNestedOpenAppend(a: string, b: string)
    requires NoNestedOpen(a) && NoNestedOpen(b) && EndsClosed(a)
    ensures NoNestedOpen(a + b)
    ensures EndsClosed(b) ==> EndsClosed(a + b)
    decreases |a|
  {
    if a == [] {
      assert a + b == b;
    } else {
      assert (a + b)[0] == a[0];
      assert (a + b)[1..] == a[1..] + b;
      if a[0] == '{' {
        assert |a| > 1;
        AfterOpenOkAppend(a[1..], b);
      }
      NoNestedOpenAppend(a[1..], b);
    }
  }

  lemma {:induction false} TagRunAfterOpen(v: string)
    requires forall k :: 0 <= k < |v| ==> IsTagChar(v[k])
    ensures AfterOpenOk(v + "}")
    decreases |v|
  {
    if v != [] {
      assert (v + "}")[1..] == v[1..] + "}";
      TagRunAfterOpen(v[1..]);
    } else {
      assert v + "}" == "}";
    }
  }

  /** A single token has no nested '{' and ends in a character that closes it. */
  lemma TokenNoNestedOpen(tag: string)
    requires IsTagName(tag)
    ensures NoNestedOpen(Token(tag)) && EndsClosed(Token(tag))
  {
    var t := Token(tag);
    assert t[1..] == tag + "}";
    TagRunAfterOpen(tag);
    assert '{' !in tag + "}" by {
      assert forall k :: 0 <= k < |tag| ==> (tag + "}")[k] == tag[k];
    }
    NoNestedOpenPrepend(tag + "}", []);
    assert tag + "}" + [] == tag + "}";
  }

  lemma {:induction false} AfterOpenOkReplace(u: string, pat: string, rep: string)
    requires |pat| > 0 && pat[0] == '{' && AfterOpenOk(u)
    ensures AfterOpenOk(ReplaceAll(u, pat, rep))
    decreases |u|
  {
    if |u| >= |pat| {
      assert u[..|pat|] != pat by { assert u[0] != '{'; }
      var rest := ReplaceAll(u[1..], pat, rep);
      if IsTagChar(u[0]) {
        AfterOpenOkReplace(u[1..], pat, rep);
      }
      assert ([u[0]] + rest)[1..] == rest;
    }
  }

  lemma {:induction false} NoNestedOpenReplace(s: string, pat: string, rep: string)
    requires |pat| > 0 && pat[0] == '{' && '{' !in rep && NoNestedOpen(s)
    ensures NoNestedOpen(ReplaceAll(s, pat, rep))
    decreases |s|
  {
    if |s| >= |pat| {
      if s[..|pat|] == pat {
        NoNestedOpenSuffix(s, |pat|);
        NoNestedOpenReplace(s[|pat|..], pat, rep);
        NoNestedOpenPrepend(rep, ReplaceAll(s[|pat|..], pat, rep));
      } else {
        var rest := ReplaceAll(s[1..], pat, rep);
        NoNestedOpenReplace(s[1..], pat, rep);
        if s[0] == '{' {
          AfterOpenOkReplace(s[1..], pat, rep);
        }
        assert ([s[0]] + rest)[1..] == rest;
      }
    }
  }

  /**
   * Reading tag characters and a '}' right after a kept '{' of the result
   * means reading the same characters in the input: the replaced regions all
   * start with '{', which cannot appear there.
   */
  lemma {:induction false} ThroughReplace(u: string, pat: string, rep: string, v: string)
    requires |pat| > 0 && pat[0] == '{' && AfterOpenOk(u)
    requires forall k :: 0 <= k < |v| ==> IsTagChar(v[k])
    requires |v| + 1 <= |ReplaceAll(u, pat, rep)| && ReplaceAll(u, pat, rep)[..|v| + 1] == v + "}"
    ensures |v| + 1 <= |u| && u[..|v| + 1] == v + "}"
    decreases |v|
  {
    if |u| >= |pat| {
      assert u[..|pat|] != pat by { assert u[0] != '{'; }
      var rest := ReplaceAll(u[1..], pat, rep);
      assert ReplaceAll(u, pat, rep) == [u[0]] + rest;
      assert u[0] == (v + "}")[0];
      if v != [] {
        assert rest[..|v|] == ([u[0]] + rest)[1..|v| + 1];
        assert (v + "}")[1..] == v[1..] + "}";
        assert rest[..|v|] == v[1..] + "}";
        ThroughReplace(u[1..], pat, rep, v[1..]);
        assert u[..|v| + 1] == [u[0]] + u[1..][..|v|];
      }
    }
  }

  lemma {:induction false} OccursPrependNoOpen(x: string, t: string, p: string)
    requires |p| > 0 && p[0] == '{' && '{' !in x && Occurs(x + t, p)
    ensures Occurs(t, p)
  {
    if x == [] {
      assert x + t == t;
    } else {
      assert x[0] in x;
      assert (x + t)[0] == x[0];
      assert (x + t)[..|p|] != p by {
        if |p| <= |x + t| { assert (x + t)[..|p|][0] == x[0]; }
      }
      assert (x + t)[1..] == x[1..] + t;
      OccursPrependNoOpen(x[1..], t, p);
    }
  }

  lemma {:induction false} OccursSuffix(t: string, k: nat, p: string)
    requires k <= |t| && Occurs(t[k..], p)
    ensures Occurs(t, p)
  {
    if k > 0 {
      assert t[1..][k - 1..] == t[k..];
      OccursSuffix(t[1..], k - 1, p);
    }
  }

  /**
   * A token found after one global replace was already in the input, and it
   * is not the token just replaced.
   */
  lemma {:induction false} ReplaceAllNoNewToken(s: string, pat: string, rep: string, p: string)
    requires IsToken(pat) && IsToken(p) && '{' !in rep && NoNestedOpen(s)
    requires Occurs(ReplaceAll(s, pat, rep), p)
    ensures p != pat && Occurs(s, p)
    decreases |s|
  {
    if |s| >= |pat| {
      if s[..|pat|] == pat {
        var rest := ReplaceAll(s[|pat|..], pat, rep);
        OccursPrependNoOpen(rep, rest, p);
        NoNestedOpenSuffix(s, |pat|);
        ReplaceAllNoNewToken(s[|pat|..], pat, rep, p);
        OccursSuffix(s, |pat|, p);
      } else {
        var rest := ReplaceAll(s[1..], pat, rep);
        var t := [s[0]] + rest;
        assert t[1..] == rest;
        if t[..|p|] == p {
          var v := p[1..|p| - 1];
          assert s[0] == '{' && AfterOpenOk(s[1..]);
          assert rest[..|v| + 1] == v + "}" by {
            assert p == "{" + v + "}";
          }
          ThroughReplace(s[1..], pat, rep, v);
          assert s[..|p|] == [s[0]] + s[1..][..|v| + 1];
          assert s[..|p|] == p;
        } else {
          ReplaceAllNoNewToken(s[1..], pat, rep, p);
        }
      }
    }
  }

  lemma TagToken(tag: string)
    requires IsTagName(tag)
    ensures IsToken(Token(tag))
  {
  }

  /** Values without a '{' keep the template free of nested braces. */
  lemma {:induction false} SubstituteNoNestedOpen(template: string, replacements: seq<(string, string)>)
    requires NoNestedOpen(template)
    requires forall k :: 0 <= k < |replacements| ==> IsTagName(replacements[k].0) && '{' !in replacements[k].1
    ensures NoNestedOpen(Substitute(template, replacements))
    decreases |replacements|
  {
    if replacements != [] {
      var n := |replacements|;
      SubstituteNoNestedOpen(template, replacements[..n - 1]);
      NoNestedOpenReplace(Substitute(template, replacements[..n - 1]), Token(replacements[n - 1].0), replacements[n - 1].1);
    }
  }

  /**
   * When no value holds a '{' and the template has no '{' nested before a
   * tag, the filled-in template holds no token of any supplied tag.
   */
  lemma {:induction false} SubstituteLeavesNoToken(template: string, replacements: seq<(string, string)>)
    requires NoNestedOpen(template)
    requires forall k :: 0 <= k < |replacements| ==> IsTagName(replacements[k].0) && '{' !in replacements[k].1
    ensures forall k :: 0 <= k < |replacements| ==> !Occurs(Substitute(template, replacements), Token(replacements[k].0))
    decreases |replacements|
  {
    if replacements != [] {
      var n := |replacements|;
      var front := replacements[..n - 1];
      var (tag, value) := replacements[n - 1];
      var before := Substitute(template, front);
      SubstituteNoNestedOpen(template, front);
      SubstituteLeavesNoToken(template, front);
      TagToken(tag);
      forall k | 0 <= k < n
        ensures !Occurs(ReplaceAll(before, Token(tag), value), Token(replacements[k].0))
      {
        TagToken(replacements[k].0);
        if k < n - 1 {
          assert front[k] == replacements[k];
        }
        if Occurs(ReplaceAll(before, Token(tag), value), Token(replacements[k].0)) {
          ReplaceAllNoNewToken(before, Token(tag), value, Token(replacements[k].0));
        }
      }
    }
  }

  /**
   * Without the nesting condition a token can survive even though no value
   * holds a '{': a brace before the token and the value together spell it again.
   */
  lemma NestedTokenSurvives()
    ensures Substitute("{{path}}", [("path", "path")]) == "{path}"
    ensures Occurs(Substitute("{{path}}", [("path", "path")]), Token("path"))
  {
    var pat := Token("path");
    assert pat == "{path}";
    var s := "{{path}}";
    assert s[..6] != pat by { assert s[..6][1] == '{' && pat[1] == 'p'; }
    assert s[1..][..6] == pat;
    assert s[1..][6..] == "}";
    assert ReplaceAll("}", pat, "path") == "}";
    assert ReplaceAll(s[1..], pat, "path") == "path}";
    assert ReplaceAll(s, pat, "path") == "{path}";
    assert Substitute(s, [("path", "path")]) == Substitute("{path}", []);
  }
}
