/** White space as the Go libraries see it. */
module Text {

  /** The five characters the regular expression class \s matches. */
  predicate RegexSpace(c: char) {
    c == ' ' || c == '\t' || c == '\n' || c == '\r' || c == '\U{000C}'
  }

  /** Unicode white space, which is what trimming removes. */
  predicate IsSpace(c: char) {
    RegexSpace(c) || c == '\U{000B}' || c == '\U{0085}' || c == '\U{00A0}' || c == '\U{1680}'
    || '\U{2000}' <= c <= '\U{200A}' || c == '\U{2028}' || c == '\U{2029}' || c == '\U{202F}'
    || c == '\U{205F}' || c == '\U{3000}'
  }

  predicate AllSpace(s: string) {
    forall i :: 0 <= i < |s| ==> IsSpace(s[i])
  }

  function TrimLeft(s: string): string {
    if s != "" && IsSpace(s[0]) then TrimLeft(s[1..]) else s
  }

  function TrimRight(s: string): string {
    if s != "" && IsSpace(s[|s| - 1]) then TrimRight(s[..|s| - 1]) else s
  }

  function TrimSpace(s: string): string {
    TrimRight(TrimLeft(s))
  }

  lemma {:induction false} TrimRightMeaning(s: string)
    ensures var t := TrimRight(s);
      t <= s && AllSpace(s[|t|..]) && (t != "" ==> !IsSpace(t[|t| - 1])) && |t| <= |s|
  {
    if s != "" && IsSpace(s[|s| - 1]) {
      var front := s[..|s| - 1];
      TrimRightMeaning(front);
      var t := TrimRight(front);
      assert s[|t|..] == front[|t|..] + [s[|s| - 1]];
      assert t <= front && front <= s;
    }
  }

  lemma {:induction false} TrimLeftMeaning(s: string)
    ensures var t := TrimLeft(s);
      |t| <= |s| && s[|s| - |t|..] == t && AllSpace(s[..|s| - |t|]) && (t != "" ==> !IsSpace(t[0]))
  {
    if s != "" && IsSpace(s[0]) {
      TrimLeftMeaning(s[1..]);
      var t := TrimLeft(s[1..]);
      var n := |s| - |t|;
      assert s[..n] == [s[0]] + s[1..][..n - 1];
      assert s[n..] == s[1..][n - 1..];
    }
  }

  /** Trimming takes white space off both ends, and all of it. */
  lemma TrimMeaning(s: string) returns (before: string, after: string)
    ensures s == before + TrimSpace(s) + after && AllSpace(before) && AllSpace(after)
    ensures var t := TrimSpace(s); t != "" ==> !IsSpace(t[0]) && !IsSpace(t[|t| - 1])
  {
    var l := TrimLeft(s);
    var t := TrimRight(l);
    TrimLeftMeaning(s);
    TrimRightMeaning(l);
    before, after := s[..|s| - |l|], l[|t|..];
    assert l == t + after && s == before + l;
  }

  /** Nothing is left after trimming exactly when the string is blank. */
  lemma TrimEmptyIffBlank(s: string)
    ensures TrimSpace(s) == "" <==> AllSpace(s)
  {
    var l := TrimLeft(s);
    TrimLeftMeaning(s);
    TrimRightMeaning(l);
    assert l != "" ==> l[0] == s[|s| - |l|];
    if TrimSpace(s) == "" {
      assert l[0..] == l && AllSpace(l);
      if l == "" { assert s[..|s|] == s; }
    }
  }

  /** A string whose ends are not white is left alone. */
  lemma {:induction false} TrimLeavesTrimmed(t: string)
    requires t != "" ==> !IsSpace(t[0]) && !IsSpace(t[|t| - 1])
    ensures TrimSpace(t) == t
  {
  }
}
