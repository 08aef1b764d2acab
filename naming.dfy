/**
 * The names the generator derives for CSS classes: the per-directory
 * namespace prefix and the sanitised image file name.
 */
module Naming {

  /** The characters matched by `\s` in a JavaScript regular expression. */
  predicate IsJsWhitespace(c: char)
  {
    c == '\t' || c == '\n' || c == '\U{000B}' || c == '\U{000C}' || c == '\r' || c == ' ' ||
    c == '\U{00A0}' || c == '\U{1680}' || ('\U{2000}' <= c <= '\U{200A}') ||
    c == '\U{2028}' || c == '\U{2029}' || c == '\U{202F}' || c == '\U{205F}' ||
    c == '\U{3000}' || c == '\U{FEFF}'
  }

  /** A character the file-name pattern (a dot, whitespace or an underscore) matches. */
  predicate IsFileNameSeparator(c: char)
  {
    c == '.' || IsJsWhitespace(c) || c == '_'
  }

  /** One character of a sanitised file name. */
  function SanitizeChar(c: char): char
  {
    if IsFileNameSeparator(c) then '-' else c
  }

  /**
   * The file-name part of an image's CSS class: every match of the global
   * pattern for a dot, whitespace or an underscore becomes a dash.
   */
  function Sanitize(fileName: string): (r: string)
    ensures |r| == |fileName|
    ensures forall k :: 0 <= k < |fileName| ==>
      (IsFileNameSeparator(fileName[k]) ==> r[k] == '-') &&
      (!IsFileNameSeparator(fileName[k]) ==> r[k] == fileName[k])
  {
    if fileName == [] then []
    else [SanitizeChar(fileName[0])] + Sanitize(fileName[1..])
  }

  /** A sanitised name contains no dot, whitespace or underscore. */
  lemma SanitizeRemovesSeparators(fileName: string)
    ensures forall k :: 0 <= k < |Sanitize(fileName)| ==> !IsFileNameSeparator(Sanitize(fileName)[k])
  {
  }

  /** Sanitising twice is sanitising once. */
  lemma SanitizeIdempotent(fileName: string)
    ensures Sanitize(Sanitize(fileName)) == Sanitize(fileName)
  {
    var once := Sanitize(fileName);
    SanitizeRemovesSeparators(fileName);
    assert forall k :: 0 <= k < |once| ==> Sanitize(once)[k] == once[k];
  }

  /**
   * JavaScript's `replace` with a string pattern: only the first occurrence
   * of `c` in `s`, if any, becomes `d`.
   */
  function ReplaceFirst(s: string, c: char, d: char): (r: string)
    ensures |r| == |s|
    ensures forall k :: 0 <= k < |s| ==> r[k] == if s[k] == c && c !in s[..k] then d else s[k]
  {
    if s == [] then []
    else if s[0] == c then [d] + s[1..]
    else
      var rest := ReplaceFirst(s[1..], c, d);
      assert forall k :: 1 <= k < |s| ==> (c in s[..k] <==> c in s[1..][..k - 1]) by {
        forall k | 1 <= k < |s|
          ensures c in s[..k] <==> c in s[1..][..k - 1]
        {
          assert s[..k] == [s[0]] + s[1..][..k - 1];
        }
      }
      [s[0]] + rest
  }

  /** Replacing the first `c` by another character removes exactly one `c`, if there is one. */
  lemma {:induction false} ReplaceFirstCount(s: string, c: char, d: char)
    requires c != d
    ensures multiset(ReplaceFirst(s, c, d))[c] == if c in s then multiset(s)[c] - 1 else multiset(s)[c]
    ensures multiset(ReplaceFirst(s, c, d))[d] == if c in s then multiset(s)[d] + 1 else multiset(s)[d]
  {
    if s != [] {
      assert s == [s[0]] + s[1..];
      if s[0] != c {
        ReplaceFirstCount(s[1..], c, d);
        assert ReplaceFirst(s, c, d) == [s[0]] + ReplaceFirst(s[1..], c, d);
        assert c in s <==> c in s[1..];
      }
    }
  }

  /**
   * The CSS class prefix for a directory, from its path relative to the root:
   * the first '/' and then the first space become '-', and a '-' separator is
   * appended unless the path is empty.
   */
  function Namespace(relative: string): string
  {
    var p := ReplaceFirst(ReplaceFirst(relative, '/', '-'), ' ', '-');
    if |p| > 0 then p + "-" else p
  }

  /** The root directory has no prefix; every other directory's prefix ends in the separator. */
  lemma NamespaceShape(relative: string)
    ensures relative == [] ==> Namespace(relative) == []
    ensures relative != [] ==> |Namespace(relative)| == |relative| + 1 && Namespace(relative)[|relative|] == '-'
  {
  }

  /**
   * The prefix is the relative path with its first '/' and its first space
   * turned into '-', characters anywhere else unchanged, plus the separator.
   */
  lemma NamespaceCharacters(relative: string)
    requires relative != []
    ensures forall k :: 0 <= k < |relative| ==>
      Namespace(relative)[k] ==
        if (relative[k] == '/' && '/' !in relative[..k]) || (relative[k] == ' ' && ' ' !in relative[..k]) then '-'
        else relative[k]
  {
    var p1 := ReplaceFirst(relative, '/', '-');
    var p2 := ReplaceFirst(p1, ' ', '-');
    forall k | 0 <= k < |relative|
      ensures p2[k] == if (relative[k] == '/' && '/' !in relative[..k]) || (relative[k] == ' ' && ' ' !in relative[..k]) then '-'
                       else relative[k]
    {
      // The first pass touches only a '/', so it neither adds nor removes spaces before k.
      assert ' ' in p1[..k] <==> ' ' in relative[..k] by {
        assert forall j :: 0 <= j < k ==> (p1[j] == ' ' <==> relative[j] == ' ');
      }
    }
  }

  /** The first `c` of `s`, at index `i`, is the one position that changes. */
  lemma ReplaceFirstSplit(s: string, c: char, d: char, i: int)
    requires 0 <= i < |s| && s[i] == c && c !in s[..i]
    ensures ReplaceFirst(s, c, d) == s[..i] + [d] + s[i + 1..]
  {
    var r := ReplaceFirst(s, c, d);
    forall k | 0 <= k < |s| ensures r[k] == (s[..i] + [d] + s[i + 1..])[k] {
      if k > i {
        assert s[i] in s[..k];
      }
    }
  }

  /** Only the first separator is replaced: "a/b/c" gets the prefix "a-b/c-". */
  lemma NestedNamespace()
    ensures Namespace("a/b/c") == "a-b/c-"
  {
    ReplaceFirstSplit("a/b/c", '/', '-', 1);
    assert ' ' !in "a-b/c";
  }

  /** Only the first space is replaced, after the first '/'. */
  lemma SpacedNamespace()
    ensures Namespace("x y/z w") == "x-y-z w-"
  {
    ReplaceFirstSplit("x y/z w", '/', '-', 3);
    assert ReplaceFirst("x y/z w", '/', '-') == "x y-z w";
    ReplaceFirstSplit("x y-z w", ' ', '-', 1);
  }
}
