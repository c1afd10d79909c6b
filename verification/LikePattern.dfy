/** Literal substring search through LIKE: the escaping of a search text against a LIKE matcher. */
module LikePattern {
  import opened Outcomes

  function Replace(s: string, c: char, escape: string): string {
    if s == [] then [] else (if s[0] == c then escape else [s[0]]) + Replace(s[1..], c, escape)
  }

  /** Three replacements, one after another, backslash first. */
  function LiteralSubstring(value: Option<string>): Option<string> {
    match value
    case None => None
    case Some(s) => Some("%" + Replace(Replace(Replace(s, '\\', "\\\\"), '%', "\\%"), '_', "\\_") + "%")
  }

  /** LIKE with backslash as the escape character; a pattern ending in a bare escape matches nothing. */
  predicate Like(pattern: string, text: string)
    decreases |pattern|, |text|
  {
    if pattern == [] then text == []
    else if pattern[0] == '%' then Like(pattern[1..], text) || (text != [] && Like(pattern, text[1..]))
    else if pattern[0] == '\\' then
      |pattern| >= 2 && text != [] && pattern[1] == text[0] && Like(pattern[2..], text[1..])
    else text != [] && (pattern[0] == '_' || pattern[0] == text[0]) && Like(pattern[1..], text[1..])
  }

  // ---------------------------------------------------------------- one escape

  /** Every special character escaped in a single pass. */
  function Escaped(s: string): string {
    if s == [] then [] else (if s[0] in "\\%_" then ['\\', s[0]] else [s[0]]) + Escaped(s[1..])
  }

  lemma {:induction false} ReplaceConcat(a: string, b: string, c: char, escape: string)
    ensures Replace(a + b, c, escape) == Replace(a, c, escape) + Replace(b, c, escape)
  {
    if a == [] {
      assert a + b == b;
    } else {
      assert (a + b)[1..] == a[1..] + b;
      ReplaceConcat(a[1..], b, c, escape);
    }
  }

  /** The later replacements never touch what the earlier ones inserted. */
  lemma {:induction false} ThreePassesAreOne(s: string)
    ensures Replace(Replace(Replace(s, '\\', "\\\\"), '%', "\\%"), '_', "\\_") == Escaped(s)
  {
    if s != [] {
      ThreePassesAreOne(s[1..]);
      var first := if s[0] == '\\' then "\\\\" else [s[0]];
      var rest := Replace(s[1..], '\\', "\\\\");
      ReplaceConcat(first, rest, '%', "\\%");
      var second := Replace(first, '%', "\\%");
      ReplaceConcat(second, Replace(rest, '%', "\\%"), '_', "\\_");
      OneCharacter(s[0]);
    }
  }

  lemma ReplaceTwo(a: char, b: char, c: char, escape: string)
    ensures Replace([a, b], c, escape) == (if a == c then escape else [a]) + if b == c then escape else [b]
  {
    assert [a, b][1..] == [b] && [b][1..] == [];
    assert Replace([b], c, escape) == if b == c then escape else [b];
  }

  lemma OneCharacter(c: char)
    ensures var first := if c == '\\' then "\\\\" else [c];
      Replace(Replace(first, '%', "\\%"), '_', "\\_") == if c in "\\%_" then ['\\', c] else [c]
  {
    ReplaceTwo('\\', '\\', '%', "\\%");
    ReplaceTwo('\\', c, '_', "\\_");
    assert [c][1..] == [];
    assert Replace([c], '%', "\\%") == if c == '%' then "\\%" else [c];
    assert Replace([c], '_', "\\_") == if c == '_' then "\\_" else [c];
  }

  // ---------------------------------------------------------------- what the pattern matches

  lemma {:induction false} EscapedMatchesItself(s: string, pattern: string, text: string)
    ensures Like(Escaped(s) + pattern, text) <==> s <= text && Like(pattern, text[|s|..])
  {
    var whole := Escaped(s) + pattern;
    if s == [] {
      assert whole == pattern && text[0..] == text;
    } else {
      assert s[0] in "\\%_" ==> whole[2..] == Escaped(s[1..]) + pattern;
      assert s[0] !in "\\%_" ==> whole[1..] == Escaped(s[1..]) + pattern;
      if text != [] {
        EscapedMatchesItself(s[1..], pattern, text[1..]);
        assert |s| <= |text| ==> text[1..][|s| - 1..] == text[|s|..];
        assert s <= text <==> s[0] == text[0] && s[1..] <= text[1..];
      }
    }
  }

  lemma {:induction false} PercentSkips(pattern: string, text: string)
    ensures Like("%" + pattern, text) <==> exists i :: 0 <= i <= |text| && Like(pattern, text[i..])
    decreases |text|
  {
    var whole := "%" + pattern;
    assert whole[1..] == pattern && text[0..] == text;
    if text != [] {
      PercentSkips(pattern, text[1..]);
      if i :| 0 <= i <= |text| - 1 && Like(pattern, text[1..][i..]) {
        assert text[1..][i..] == text[i + 1..];
      }
      forall i | 0 < i <= |text| && Like(pattern, text[i..]) ensures Like(whole, text[1..]) {
        assert text[1..][i - 1..] == text[i..];
      }
    }
  }

  ghost predicate OccursAt(text: string, s: string, i: nat) {
    i + |s| <= |text| && text[i..i + |s|] == s
  }

  /** The pattern matches a text exactly when the text contains the search string, wildcards and all. */
  lemma PatternMeansContains(s: string, text: string)
    ensures LiteralSubstring(None) == None
    ensures LiteralSubstring(Some(s)).Some?
    ensures Like(LiteralSubstring(Some(s)).value, text) <==> exists i :: OccursAt(text, s, i)
  {
    ThreePassesAreOne(s);
    var inner := Escaped(s) + "%";
    assert LiteralSubstring(Some(s)).value == "%" + inner;
    PercentSkips(inner, text);
    forall i | 0 <= i <= |text| ensures Like(inner, text[i..]) <==> OccursAt(text, s, i) {
      EscapedMatchesItself(s, "%", text[i..]);
      AnythingMatches(text[i..], |s|);
      assert s <= text[i..] <==> OccursAt(text, s, i) by {
        if s <= text[i..] { assert text[i..][..|s|] == text[i..i + |s|]; }
        if OccursAt(text, s, i) { assert text[i..][..|s|] == text[i..i + |s|]; }
      }
    }
  }

  lemma AnythingMatches(text: string, n: nat)
    ensures n <= |text| ==> Like("%", text[n..])
  {
    if n <= |text| {
      PercentSkips("", text[n..]);
      assert "%" + "" == "%";
      assert text[n..][|text| - n..] == "";
    }
  }
}
