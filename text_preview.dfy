/** The plain-text excerpt builder of the featured-article component:
    `html.replace(/<[^>]*>/g, '')` followed by a cut at `maxLength`
    characters with an ellipsis. */
module TextPreview {

  const DefaultMaxLength: nat := 200
  const Ellipsis: string := "..."

  /** Position of the first occurrence of `c` in `s`. */
  function IndexOf(s: string, c: char): (i: nat)
    requires c in s
    ensures i < |s| && s[i] == c
    ensures forall j :: 0 <= j < i ==> s[j] != c
  {
    if s[0] == c then 0 else 1 + IndexOf(s[1..], c)
  }

  /** The global replacement of `/<[^>]*>/` by the empty string. Scanning left
      to right, a `<` that has a `>` somewhere after it starts a match that
      ends at the first such `>` (`[^>]*` cannot step over a `>`), and the
      whole span is dropped; a `<` with no `>` after it cannot match and is
      kept, as is every other character. */
  function StripTags(s: string): (r: string)
    ensures |r| <= |s|
    ensures forall i :: 0 <= i < |r| ==> r[i] in s
    decreases |s|
  {
    if s == [] then []
    else if s[0] == '<' && '>' in s[1..] then
      StripTags(s[IndexOf(s[1..], '>') + 2..])
    else
      [s[0]] + StripTags(s[1..])
  }

  /** No `<` is followed, anywhere later, by a `>`: nothing left that the
      pattern `<[^>]*>` could match. */
  predicate NoTagSpan(s: string) {
    forall i, j :: 0 <= i < j < |s| && s[i] == '<' ==> s[j] != '>'
  }

  /** `a` can be obtained from `b` by deleting characters. */
  predicate IsSubsequence(a: string, b: string)
    decreases |b|
  {
    if a == [] then true
    else if b == [] then false
    else (a[0] == b[0] && IsSubsequence(a[1..], b[1..])) || IsSubsequence(a, b[1..])
  }

  /** `getTextPreview(html, maxLength)`: the stripped text, cut by
      `text.length > maxLength ? text.substring(0, maxLength) + '...' : text`. */
  function Preview(html: string, maxLength: nat): (r: string)
    ensures |StripTags(html)| <= maxLength ==> r == StripTags(html)
    ensures |StripTags(html)| > maxLength ==>
      r == StripTags(html)[..maxLength] + Ellipsis && |r| == maxLength + |Ellipsis|
  {
    var text := StripTags(html);
    if |text| > maxLength then text[..maxLength] + Ellipsis else text
  }

  // ---------------------------------------------------------------------
  // Properties of the tag stripper

  /** Stripping leaves no `<...>` span behind. */
  lemma {:induction false} StripTagsLeavesNoTag(s: string)
    ensures NoTagSpan(StripTags(s))
    decreases |s|
  {
    if s == [] {
    } else if s[0] == '<' && '>' in s[1..] {
      StripTagsLeavesNoTag(s[IndexOf(s[1..], '>') + 2..]);
    } else {
      var rest := StripTags(s[1..]);
      StripTagsLeavesNoTag(s[1..]);
      if s[0] == '<' {
        assert forall j :: 0 <= j < |rest| ==> rest[j] != '>';
      }
      var r := [s[0]] + rest;
      assert StripTags(s) == r;
      forall i, j | 0 <= i < j < |r| && r[i] == '<'
        ensures r[j] != '>'
      {
        if i > 0 {
          assert r[i] == rest[i - 1] && r[j] == rest[j - 1];
        }
      }
    }
  }

  /** A string with no `<...>` span is left unchanged. */
  lemma {:induction false} NoTagSpanIsFixpoint(s: string)
    requires NoTagSpan(s)
    ensures StripTags(s) == s
    decreases |s|
  {
    if s != [] {
      var t := s[1..];
      if s[0] == '<' {
        assert '>' !in t by {
          forall j | 0 <= j < |t| ensures t[j] != '>' {
            assert t[j] == s[j + 1];
          }
        }
      }
      assert NoTagSpan(t) by {
        forall i, j | 0 <= i < j < |t| && t[i] == '<'
          ensures t[j] != '>'
        {
          assert t[i] == s[i + 1] && t[j] == s[j + 1];
        }
      }
      NoTagSpanIsFixpoint(t);
      assert StripTags(s) == [s[0]] + t;
      assert [s[0]] + t == s;
    }
  }

  /** A string without any `<` is returned unchanged. */
  lemma {:induction false} WithoutOpeningBracketUnchanged(s: string)
    requires '<' !in s
    ensures StripTags(s) == s
  {
    NoTagSpanIsFixpoint(s);
  }

  /** Stripping twice is stripping once. */
  lemma {:induction false} StripTagsIdempotent(s: string)
    ensures StripTags(StripTags(s)) == StripTags(s)
  {
    StripTagsLeavesNoTag(s);
    NoTagSpanIsFixpoint(StripTags(s));
  }

  /** A subsequence of a suffix is a subsequence of the whole. */
  lemma {:induction false} SubsequenceOfSuffix(a: string, b: string, k: nat)
    requires k <= |b|
    requires IsSubsequence(a, b[k..])
    ensures IsSubsequence(a, b)
    decreases k
  {
    if k > 0 {
      assert b[1..][k - 1..] == b[k..];
      SubsequenceOfSuffix(a, b[1..], k - 1);
    }
  }

  /** Stripping only deletes characters. */
  lemma {:induction false} StripTagsIsSubsequence(s: string)
    ensures IsSubsequence(StripTags(s), s)
    decreases |s|
  {
    if s == [] {
    } else if s[0] == '<' && '>' in s[1..] {
      var k := IndexOf(s[1..], '>') + 2;
      StripTagsIsSubsequence(s[k..]);
      SubsequenceOfSuffix(StripTags(s), s, k);
    } else {
      StripTagsIsSubsequence(s[1..]);
      var r := StripTags(s);
      assert r[0] == s[0] && r[1..] == StripTags(s[1..]);
    }
  }

  /** Characters before the first `<` pass through untouched. */
  lemma {:induction false} StripTagsPlainPrefix(p: string, s: string)
    requires '<' !in p
    ensures StripTags(p + s) == p + StripTags(s)
    decreases |p|
  {
    if p != [] {
      assert (p + s)[0] == p[0] && p[0] in p;
      assert (p + s)[1..] == p[1..] + s;
      StripTagsPlainPrefix(p[1..], s);
      calc {
        StripTags(p + s);
        [p[0]] + StripTags(p[1..] + s);
        [p[0]] + (p[1..] + StripTags(s));
        { assert [p[0]] + p[1..] == p; }
        p + StripTags(s);
      }
    } else {
      assert p + s == s;
    }
  }

  /** `t` is one complete match of `<[^>]*>`. */
  predicate IsTag(t: string) {
    |t| >= 2 && t[0] == '<' && t[|t| - 1] == '>' && '>' !in t[1..|t| - 1]
  }

  /** A complete tag at the front is dropped as a whole. */
  lemma StripTagsDropsTag(t: string, s: string)
    requires IsTag(t)
    ensures StripTags(t + s) == StripTags(s)
  {
    var x := t[1..|t| - 1];
    var w := t + s;
    assert w[1..] == x + ">" + s;
    assert w[1..][|x|] == '>';
    assert IndexOf(w[1..], '>') == |x| by {
      assert w[1..][..|x|] == x;
    }
    assert w[|x| + 2..] == s;
  }

  /** The worked example: `<p>Hello <b>world</b></p>` becomes `Hello world`. */
  lemma StripTagsExample()
    ensures StripTags("<p>" + ("Hello " + ("<b>" + ("world" + ("</b>" + "</p>"))))) == "Hello " + "world"
  {
    StripTagsDropsTag("</p>", "");
    assert "</p>" + "" == "</p>";
    StripTagsDropsTag("</b>", "</p>");
    StripTagsPlainPrefix("world", "</b>" + "</p>");
    StripTagsDropsTag("<b>", "world" + ("</b>" + "</p>"));
    StripTagsPlainPrefix("Hello ", "<b>" + ("world" + ("</b>" + "</p>")));
    StripTagsDropsTag("<p>", "Hello " + ("<b>" + ("world" + ("</b>" + "</p>"))));
  }

  // ---------------------------------------------------------------------
  // Properties of the preview

  /** The preview itself contains no `<...>` span, and it never exceeds
      `maxLength` characters plus the ellipsis. */
  lemma PreviewIsPlainText(html: string, maxLength: nat)
    ensures NoTagSpan(Preview(html, maxLength))
    ensures |Preview(html, maxLength)| <= maxLength + |Ellipsis|
  {
    var text := StripTags(html);
    StripTagsLeavesNoTag(html);
    var r := Preview(html, maxLength);
    if |text| > maxLength {
      var head := text[..maxLength];
      assert r == head + Ellipsis;
      forall i, j | 0 <= i < j < |r| && r[i] == '<'
        ensures r[j] != '>'
      {
        assert i < |head| && r[i] == text[i];
        if j < |head| {
          assert r[j] == text[j];
        }
      }
    }
  }

  /** The preview starts with the stripped text, up to `maxLength` of its
      characters: truncation never reorders or alters what it keeps. */
  lemma PreviewKeepsPrefix(html: string, maxLength: nat)
    ensures var text := StripTags(html);
            var n := if |text| <= maxLength then |text| else maxLength;
            n <= |Preview(html, maxLength)| && Preview(html, maxLength)[..n] == text[..n]
  {
  }
}
