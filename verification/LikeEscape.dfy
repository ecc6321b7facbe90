/** Record search: the user's text, escaped, between two percent signs, matched with
    ILIKE ... ESCAPE '!'. Matching follows section 9.7.1 of the PostgreSQL documentation. */
module LikeEscape {
  import opened Text

  /** How ILIKE folds a character before comparing. */
  type Fold = char -> char

  // ---- Escaping ---------------------------------------------------------------------

  /** Replacing every occurrence of one character by a string. */
  function ReplaceAll(s: string, from: char, to: string): string {
    if s == "" then "" else (if s[0] == from then to else [s[0]]) + ReplaceAll(s[1..], from, to)
  }

  /** The three replacements, one after the other. */
  function EscapeLike(s: string): string {
    ReplaceAll(ReplaceAll(ReplaceAll(s, '!', "!!"), '%', "!%"), '_', "!_")
  }

  predicate Special(c: char) {
    c == '!' || c == '%' || c == '_'
  }

  /** One pass that puts an escape before each special character. */
  function EscapeAtOnce(s: string): string {
    if s == "" then "" else (if Special(s[0]) then ['!', s[0]] else [s[0]]) + EscapeAtOnce(s[1..])
  }

  function Unescape(s: string): string {
    if s == "" then ""
    else if s[0] == '!' && |s| > 1 then [s[1]] + Unescape(s[2..])
    else [s[0]] + Unescape(s[1..])
  }

  lemma Associates(a: string, b: string, c: string)
    ensures a + (b + c) == a + b + c
  {
  }

  lemma {:induction false} ReplaceConcat(a: string, b: string, from: char, to: string)
    ensures ReplaceAll(a + b, from, to) == ReplaceAll(a, from, to) + ReplaceAll(b, from, to)
  {
    if a == "" {
      assert a + b == b;
    } else {
      ReplaceConcat(a[1..], b, from, to);
      assert (a + b)[1..] == a[1..] + b;
      var head := if a[0] == from then to else [a[0]];
      Associates(head, ReplaceAll(a[1..], from, to), ReplaceAll(b, from, to));
    }
  }

  lemma ReplaceTwo(x: char, y: char, from: char, to: string)
    ensures ReplaceAll([x], from, to) == (if x == from then to else [x])
    ensures ReplaceAll([x, y], from, to) == (if x == from then to else [x]) + (if y == from then to else [y])
  {
    assert [x][1..] == "" && [x, y][1..] == [y] && [y][1..] == "";
  }

  /** No replacement touches what an earlier one put in: the sequence is one pass. */
  lemma {:induction false} SequentialIsSimultaneous(s: string)
    ensures EscapeLike(s) == EscapeAtOnce(s)
  {
    if s != "" {
      var c, rest := s[0], s[1..];
      SequentialIsSimultaneous(rest);
      assert s == [c] + rest;
      ReplaceConcat([c], rest, '!', "!!");
      var c1 := ReplaceAll([c], '!', "!!");
      var r1 := ReplaceAll(rest, '!', "!!");
      ReplaceConcat(c1, r1, '%', "!%");
      var c2 := ReplaceAll(c1, '%', "!%");
      ReplaceConcat(c2, ReplaceAll(r1, '%', "!%"), '_', "!_");
      ReplaceTwo(c, c, '!', "!!");
      ReplaceTwo(c, c, '%', "!%");
      ReplaceTwo('!', '!', '%', "!%");
      ReplaceTwo('!', '!', '_', "!_");
      ReplaceTwo('!', '%', '_', "!_");
      ReplaceTwo(c, c, '_', "!_");
    }
  }

  lemma {:induction false} UnescapeInverts(s: string)
    ensures Unescape(EscapeAtOnce(s)) == s
  {
    if s != "" {
      UnescapeInverts(s[1..]);
      var e := EscapeAtOnce(s[1..]);
      if Special(s[0]) {
        assert (['!', s[0]] + e)[2..] == e;
      } else {
        assert ([s[0]] + e)[1..] == e;
      }
    }
  }

  /** Escaping loses nothing: two texts with the same escape are the same. */
  lemma EscapingIsInjective(s: string, t: string)
    ensures EscapeLike(s) == EscapeLike(t) <==> s == t
  {
    SequentialIsSimultaneous(s);
    SequentialIsSimultaneous(t);
    UnescapeInverts(s);
    UnescapeInverts(t);
  }

  // ---- LIKE ---------------------------------------------------------------------------

  /** Does the text match the pattern? A percent sign matches any string, an underscore
      any character, a character behind the escape itself, up to folding. A pattern
      that ends in a bare escape matches nothing (the server reports an error). */
  predicate Like(text: string, pattern: string, fold: Fold)
    decreases |pattern|, |text|
  {
    if pattern == "" then text == ""
    else if pattern[0] == '%' then Like(text, pattern[1..], fold) || (text != "" && Like(text[1..], pattern, fold))
    else if pattern[0] == '!' then
      |pattern| > 1 && text != "" && fold(text[0]) == fold(pattern[1]) && Like(text[1..], pattern[2..], fold)
    else text != "" && (pattern[0] == '_' || fold(text[0]) == fold(pattern[0])) && Like(text[1..], pattern[1..], fold)
  }

  /** The same characters up to folding. */
  predicate Same(a: string, b: string, fold: Fold) {
    |a| == |b| && forall i :: 0 <= i < |a| ==> fold(a[i]) == fold(b[i])
  }

  predicate OccursAt(text: string, s: string, i: nat, fold: Fold) {
    i + |s| <= |text| && Same(text[i..i + |s|], s, fold)
  }

  predicate Contains(text: string, s: string, fold: Fold) {
    exists i :: 0 <= i <= |text| && OccursAt(text, s, i, fold)
  }

  /** A leading percent sign skips any prefix. */
  lemma {:induction false} PercentSkips(text: string, pattern: string, fold: Fold)
    ensures Like(text, "%" + pattern, fold) <==> exists i :: 0 <= i <= |text| && Like(text[i..], pattern, fold)
  {
    assert ("%" + pattern)[1..] == pattern;
    assert text[0..] == text;
    if text != "" {
      PercentSkips(text[1..], pattern, fold);
      forall i | 0 < i <= |text| ensures text[i..] == text[1..][i - 1..] {}
      if j :| 0 <= j <= |text[1..]| && Like(text[1..][j..], pattern, fold) {
        assert text[j + 1..] == text[1..][j..];
      }
    }
  }

  lemma {:induction false} PercentMatchesAll(text: string, fold: Fold)
    ensures Like(text, "%", fold)
  {
    if text != "" {
      PercentMatchesAll(text[1..], fold);
    } else {
      assert "%"[1..] == "";
    }
  }

  /** An escaped text followed by a percent sign matches exactly what starts with it. */
  lemma {:induction false} EscapedIsPrefix(text: string, s: string, fold: Fold)
    ensures Like(text, EscapeAtOnce(s) + "%", fold) <==> |s| <= |text| && Same(text[..|s|], s, fold)
  {
    var p := EscapeAtOnce(s) + "%";
    if s == "" {
      assert p == "%";
      PercentMatchesAll(text, fold);
    } else {
      var rest := EscapeAtOnce(s[1..]) + "%";
      if Special(s[0]) {
        assert p == ['!', s[0]] + rest && p[2..] == rest;
      } else {
        assert p == [s[0]] + rest && p[1..] == rest;
      }
      if text != "" {
        EscapedIsPrefix(text[1..], s[1..], fold);
        if |s| <= |text| {
          assert text[..|s|] == [text[0]] + text[1..][..|s| - 1];
          SameSplits(text[0], text[1..][..|s| - 1], s, fold);
        }
      }
    }
  }

  lemma SameSplits(c: char, rest: string, s: string, fold: Fold)
    requires s != ""
    ensures Same([c] + rest, s, fold) <==> fold(c) == fold(s[0]) && Same(rest, s[1..], fold)
  {
    var t := [c] + rest;
    assert forall i :: 0 <= i < |rest| ==> t[i + 1] == rest[i];
    if fold(c) == fold(s[0]) && Same(rest, s[1..], fold) {
      forall i | 0 <= i < |t| ensures fold(t[i]) == fold(s[i]) {
        if i > 0 { assert t[i] == rest[i - 1] && s[i] == s[1..][i - 1]; }
      }
    }
    if Same(t, s, fold) {
      forall i | 0 <= i < |rest| ensures fold(rest[i]) == fold(s[1..][i]) {
        assert t[i + 1] == rest[i] && s[1..][i] == s[i + 1];
      }
    }
  }

  /** The search finds a record exactly when its text contains what the user typed,
      character for character up to case, special characters included. */
  lemma SearchFindsLiteralText(text: string, s: string, fold: Fold)
    ensures Like(text, "%" + EscapeLike(s) + "%", fold) <==> Contains(text, s, fold)
  {
    SequentialIsSimultaneous(s);
    var rest := EscapeAtOnce(s) + "%";
    assert "%" + EscapeLike(s) + "%" == "%" + rest;
    PercentSkips(text, rest, fold);
    forall i | 0 <= i <= |text|
      ensures Like(text[i..], rest, fold) <==> OccursAt(text, s, i, fold)
    {
      EscapedIsPrefix(text[i..], s, fold);
      if i <= |text| - |s| { assert text[i..][..|s|] == text[i..i + |s|]; }
    }
  }

  /** Which records a search selects: all of them when nothing is left after trimming. */
  predicate Selects(text: string, search: string, fold: Fold) {
    var s := TrimSpace(search);
    s == "" || Like(text, "%" + EscapeLike(s) + "%", fold)
  }

  lemma SelectsWhatContainsTheSearch(text: string, search: string, fold: Fold)
    ensures Selects(text, search, fold) <==> Contains(text, TrimSpace(search), fold)
  {
    SearchFindsLiteralText(text, TrimSpace(search), fold);
    assert OccursAt(text, "", 0, fold);
  }

  /** Without escaping the search would lie: an underscore would match any character. */
  lemma UnescapedSearchLies(fold: Fold)
    requires fold('a') != fold('_')
    ensures Like("a", "%" + "_" + "%", fold) && !Contains("a", "_", fold)
  {
    assert ("%" + "_" + "%")[1..] == "_%" && "_%"[1..] == "%";
    PercentMatchesAll("", fold);
    assert "a"[1..] == "";
    assert Like("a", "_%", fold);
    forall i | 0 <= i <= |"a"| ensures !OccursAt("a", "_", i, fold) {
      assert i == 0 ==> "a"[i..i + |"_"|] == "a";
    }
  }
}
