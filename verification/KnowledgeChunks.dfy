/** Splitting an extracted document into overlapping chunks. Strings are sequences of
    code points. */
module KnowledgeChunks {
  import opened Text

  const SIZE := 1200
  const OVERLAP := 180
  const MOST_CHUNKS := 1000
  const SHORTEST_TEXT := 20

  // ---- Windows ---------------------------------------------------------------------

  function Smaller(a: nat, b: nat): nat {
    if a < b then a else b
  }

  /** The stretches of text the splitter looks at from `start` on. */
  function Windows(text: string, size: nat, overlap: nat, start: nat): seq<string>
    requires overlap < size && start <= |text|
    decreases |text| - start
  {
    if start == |text| then [] else
      var end := Smaller(start + size, |text|);
      [text[start..end]] + if end == |text| then [] else Windows(text, size, overlap, end - overlap)
  }

  /** The windows that are not blank, trimmed. */
  function Kept(windows: seq<string>): seq<string> {
    if windows == [] then [] else
      var chunk := TrimSpace(windows[0]);
      if chunk != "" then [chunk] + Kept(windows[1..]) else Kept(windows[1..])
  }

  function Chunks(text: string, size: nat, overlap: nat): seq<string>
    requires overlap < size
  {
    Kept(Windows(text, size, overlap, 0))
  }

  /** What the loop has appended, with what the windows from `start` on still give. */
  function Ahead(text: string, size: nat, overlap: nat, start: nat, chunks: seq<string>): seq<string>
    requires overlap < size && start <= |text|
  {
    chunks + Kept(Windows(text, size, overlap, start))
  }

  function Appended(chunks: seq<string>, chunk: string): seq<string> {
    if chunk != "" then chunks + [chunk] else chunks
  }

  lemma KeptFirst(window: string, rest: seq<string>, chunks: seq<string>)
    ensures var chunk := TrimSpace(window);
      chunks + Kept([window] + rest) == Appended(chunks, chunk) + Kept(rest)
  {
    var chunk := TrimSpace(window);
    assert ([window] + rest)[1..] == rest;
    assert chunks + ([chunk] + Kept(rest)) == chunks + [chunk] + Kept(rest);
  }

  lemma AheadAtTheEnds(text: string, size: nat, overlap: nat, chunks: seq<string>)
    requires overlap < size
    ensures Ahead(text, size, overlap, 0, []) == Chunks(text, size, overlap)
    ensures Ahead(text, size, overlap, |text|, chunks) == chunks
  {
    assert chunks + [] == chunks;
  }

  lemma OneWindow(text: string, size: nat, overlap: nat, start: nat, chunks: seq<string>)
    requires overlap < size && start < |text|
    ensures var end := Smaller(start + size, |text|);
      var longer := Appended(chunks, TrimSpace(text[start..end]));
      Ahead(text, size, overlap, start, chunks)
        == if end == |text| then longer else Ahead(text, size, overlap, end - overlap, longer)
  {
    var end := Smaller(start + size, |text|);
    var rest := if end == |text| then [] else Windows(text, size, overlap, end - overlap);
    KeptFirst(text[start..end], rest, chunks);
  }

  /** The splitting loop. */
  method Split(text: string, size: nat, overlap: nat) returns (chunks: seq<string>)
    requires overlap < size
    ensures chunks == Chunks(text, size, overlap)
  {
    chunks := [];
    var start := 0;
    ghost var goal := Ahead(text, size, overlap, 0, []);
    AheadAtTheEnds(text, size, overlap, []);
    while start < |text|
      invariant start <= |text|
      invariant Ahead(text, size, overlap, start, chunks) == goal
      decreases |text| - start
    {
      var end := Smaller(start + size, |text|);
      var chunk := TrimSpace(text[start..end]);
      OneWindow(text, size, overlap, start, chunks);
      ghost var longer := Appended(chunks, chunk);
      if chunk != "" {
        chunks := chunks + [chunk];
      }
      assert chunks == longer;
      if end == |text| {
        return;
      }
      start := end - overlap;
    }
    AheadAtTheEnds(text, size, overlap, chunks);
  }

  predicate Fit(windows: seq<string>, size: nat) {
    forall i :: 0 <= i < |windows| ==> 0 < |windows[i]| <= size && (i < |windows| - 1 ==> |windows[i]| == size)
  }

  predicate AllLonger(windows: seq<string>, overlap: nat) {
    forall i :: 0 <= i < |windows| ==> |windows[i]| > overlap
  }

  /** No window is longer than the size, and every one but the last is exactly as long;
      after the first, each has more than the overlap to repeat. */
  lemma {:induction false} WindowsFit(text: string, size: nat, overlap: nat, start: nat)
    requires overlap < size && start <= |text|
    ensures Fit(Windows(text, size, overlap, start), size)
    ensures |text| - start > overlap ==> AllLonger(Windows(text, size, overlap, start), overlap)
    decreases |text| - start
  {
    if start + size < |text| {
      WindowsFit(text, size, overlap, start + size - overlap);
      var rest := Windows(text, size, overlap, start + size - overlap);
      var w := Windows(text, size, overlap, start);
      assert w == [text[start..start + size]] + rest;
    }
  }

  /** Gluing: every window but the first repeats the overlap before it. */
  function Rejoin(windows: seq<string>, overlap: nat): string
    requires forall i :: 0 < i < |windows| ==> |windows[i]| >= overlap
  {
    if windows == [] then "" else if |windows| == 1 then windows[0] else
      Rejoin(windows[..|windows| - 1], overlap) + windows[|windows| - 1][overlap..]
  }

  /** The windows from a later start, each without its first `overlap` characters. */
  function Tails(windows: seq<string>, overlap: nat): string
    requires forall i :: 0 <= i < |windows| ==> |windows[i]| >= overlap
  {
    if windows == [] then "" else windows[0][overlap..] + Tails(windows[1..], overlap)
  }

  lemma {:induction false} RejoinByTails(first: string, rest: seq<string>, overlap: nat)
    requires forall i :: 0 <= i < |rest| ==> |rest[i]| >= overlap
    ensures Rejoin([first] + rest, overlap) == first + Tails(rest, overlap)
  {
    if rest != [] {
      var n := |rest| - 1;
      RejoinByTails(first, rest[..n], overlap);
      TailsOfFront(rest, overlap);
      assert ([first] + rest)[..n + 1] == [first] + rest[..n];
    }
  }

  lemma {:induction false} TailsOfFront(windows: seq<string>, overlap: nat)
    requires windows != [] && forall i :: 0 <= i < |windows| ==> |windows[i]| >= overlap
    ensures var n := |windows| - 1; Tails(windows, overlap) == Tails(windows[..n], overlap) + windows[n][overlap..]
  {
    var n := |windows| - 1;
    if n > 0 {
      TailsOfFront(windows[1..], overlap);
      assert windows[1..][..n - 1] == windows[..n][1..];
    }
  }

  lemma {:induction false} TailsAreTheText(text: string, size: nat, overlap: nat, start: nat)
    requires overlap < size && 0 < start && start + overlap < |text|
    ensures var w := Windows(text, size, overlap, start);
      (forall i :: 0 <= i < |w| ==> |w[i]| >= overlap) && Tails(w, overlap) == text[start + overlap..]
    decreases |text| - start
  {
    WindowsFit(text, size, overlap, start);
    var end := Smaller(start + size, |text|);
    var w := Windows(text, size, overlap, start);
    if end < |text| {
      TailsAreTheText(text, size, overlap, end - overlap);
      assert w[1..] == Windows(text, size, overlap, end - overlap);
      assert text[start + overlap..] == text[start + overlap..end] + text[end..];
    } else {
      assert w[1..] == [];
    }
    assert text[start..end][overlap..] == text[start + overlap..end];
  }

  /** Nothing is lost: dropping the overlap of every window but the first rebuilds the text. */
  lemma WindowsRebuildTheText(text: string, size: nat, overlap: nat)
    requires overlap < size
    ensures var w := Windows(text, size, overlap, 0);
      (forall i :: 0 < i < |w| ==> |w[i]| >= overlap) && Rejoin(w, overlap) == text
  {
    var w := Windows(text, size, overlap, 0);
    if |text| > size {
      TailsAreTheText(text, size, overlap, size - overlap);
      var rest := Windows(text, size, overlap, size - overlap);
      assert w == [text[..size]] + rest;
      RejoinByTails(text[..size], rest, overlap);
      assert text[..size] + text[size..] == text;
    } else if text != "" {
      assert w == [text[0..|text|]] && text[0..|text|] == text;
    }
  }

  // ---- How many chunks --------------------------------------------------------------------

  /** The number of windows of a text of `n` characters. */
  function WindowCount(n: nat, size: nat, overlap: nat): nat
    requires overlap < size
  {
    if n == 0 then 0 else if n <= size then 1 else 1 + RoundedUp(n - size, size - overlap)
  }

  /** a / b, rounded up. */
  function RoundedUp(a: nat, b: nat): nat
    requires b > 0
  {
    if a == 0 then 0 else if a <= b then 1 else 1 + RoundedUp(a - b, b)
  }

  lemma {:induction false} RoundedUpIsCeiling(a: nat, b: nat)
    requires b > 0
    ensures var k := RoundedUp(a, b); a <= k * b && (a > 0 ==> (k - 1) * b < a)
  {
    if a > b {
      RoundedUpIsCeiling(a - b, b);
      var k := RoundedUp(a - b, b);
      assert (k + 1) * b == k * b + b && k * b == (k - 1) * b + b;
    }
  }

  lemma {:induction false} WindowsAreCounted(text: string, size: nat, overlap: nat, start: nat)
    requires overlap < size && start <= |text|
    ensures |Windows(text, size, overlap, start)| == WindowCount(|text| - start, size, overlap)
    decreases |text| - start
  {
    var n := |text| - start;
    if n > size {
      WindowsAreCounted(text, size, overlap, start + size - overlap);
    }
  }

  /** For the sizes the ingestion uses, the cap allows exactly 1,020,180 characters. */
  lemma CapInCharacters(text: string)
    ensures |Windows(text, SIZE, OVERLAP, 0)| <= MOST_CHUNKS <==> |text| <= 1_020_180
  {
    WindowsAreCounted(text, SIZE, OVERLAP, 0);
    if |text| > SIZE { RoundedUpIsCeiling(|text| - SIZE, SIZE - OVERLAP); }
  }

  predicate Blank(w: string) {
    AllSpace(w)
  }

  ghost function Blanks(windows: seq<string>): nat {
    if windows == [] then 0 else (if Blank(windows[0]) then 1 else 0) + Blanks(windows[1..])
  }

  lemma {:induction false} KeptIsTheRest(windows: seq<string>)
    ensures |Kept(windows)| == |windows| - Blanks(windows)
    ensures Blanks(windows) == 0 <==> forall i :: 0 <= i < |windows| ==> !Blank(windows[i])
  {
    if windows != [] {
      TrimEmptyIffBlank(windows[0]);
      KeptIsTheRest(windows[1..]);
      assert windows == [windows[0]] + windows[1..];
    }
  }

  /** How many of the first `i` windows are not blank. */
  ghost function Place(windows: seq<string>, i: nat): nat
    requires i <= |windows|
  {
    if i == 0 then 0 else (if Blank(windows[0]) then 0 else 1) + Place(windows[1..], i - 1)
  }

  /** Chunks are the windows that are not blank, in order and trimmed: nothing of a window
      is lost but the white space at its ends. */
  lemma {:induction false} ChunksHoldTheWindows(windows: seq<string>, i: nat)
    requires i < |windows| && !Blank(windows[i])
    ensures Place(windows, i) < |Kept(windows)| && Kept(windows)[Place(windows, i)] == TrimSpace(windows[i])
  {
    TrimEmptyIffBlank(windows[0]);
    if i > 0 {
      assert windows[1..][i - 1] == windows[i];
      ChunksHoldTheWindows(windows[1..], i - 1);
    }
  }

  lemma {:induction false} ChunksAreWindows(windows: seq<string>, k: nat) returns (i: nat)
    requires k < |Kept(windows)|
    ensures i < |windows| && !Blank(windows[i]) && Place(windows, i) == k
  {
    TrimEmptyIffBlank(windows[0]);
    if Blank(windows[0]) {
      i := ChunksAreWindows(windows[1..], k);
      i := i + 1;
    } else if k == 0 {
      i := 0;
    } else {
      i := ChunksAreWindows(windows[1..], k - 1);
      i := i + 1;
    }
  }

  /** And the windows are where they should be: one every size less overlap characters. */
  lemma {:induction false} WindowsStandEveryStride(text: string, size: nat, overlap: nat, start: nat, i: nat)
    requires overlap < size && start <= |text| && i < |Windows(text, size, overlap, start)|
    ensures var from := start + i * (size - overlap);
      from < |text| && Windows(text, size, overlap, start)[i] == text[from..Smaller(from + size, |text|)]
    decreases i
  {
    if i > 0 {
      var next := start + size - overlap;
      WindowsStandEveryStride(text, size, overlap, next, i - 1);
      assert next + (i - 1) * (size - overlap) == start + i * (size - overlap);
    }
  }

  // ---- Normalised text -----------------------------------------------------------------------

  /** Every run of the five regular-expression spaces becomes one space. */
  function Collapse(s: string): string {
    if s == "" then "" else
      var n := |s| - 1;
      if !RegexSpace(s[n]) then Collapse(s[..n]) + [s[n]]
      else if n > 0 && RegexSpace(s[n - 1]) then Collapse(s[..n])
      else Collapse(s[..n]) + " "
  }

  function Normalize(s: string): string {
    TrimSpace(Collapse(s))
  }

  predicate Collapsed(s: string) {
    && (forall i :: 0 <= i < |s| && RegexSpace(s[i]) ==> s[i] == ' ')
    && (forall i :: 0 <= i < |s| - 1 ==> !(s[i] == ' ' && s[i + 1] == ' '))
  }

  /** The words between regular-expression spaces. */
  function Words(s: string): (words: seq<string>)
    ensures s != "" && !RegexSpace(s[|s| - 1]) ==> words != []
  {
    if s == "" then [] else
      var n := |s| - 1;
      var words := Words(s[..n]);
      if RegexSpace(s[n]) then words
      else if n > 0 && !RegexSpace(s[n - 1]) then words[|words| - 1 := words[|words| - 1] + [s[n]]]
      else words + [[s[n]]]
  }

  /** Collapsing leaves single spaces and the very same words. */
  lemma {:induction false} CollapseKeepsWords(s: string)
    ensures Collapsed(Collapse(s)) && Words(Collapse(s)) == Words(s)
    ensures s != "" ==> Collapse(s) != "" && (RegexSpace(s[|s| - 1]) <==> Collapse(s)[|Collapse(s)| - 1] == ' ')
  {
    if s != "" {
      var n := |s| - 1;
      CollapseKeepsWords(s[..n]);
      var front, all := Collapse(s[..n]), Collapse(s);
      if |all| == |front| + 1 {
        assert all[..|all| - 1] == front;
      }
    }
  }

  lemma {:induction false} CollapsedStays(s: string)
    requires Collapsed(s)
    ensures Collapse(s) == s
  {
    if s != "" {
      var n := |s| - 1;
      CollapsedStays(s[..n]);
      assert s == s[..n] + [s[n]];
    }
  }

  /** What trimming leaves is a piece of the text whose ends are not white. */
  lemma TrimIsAPiece(s: string) returns (at: nat)
    ensures var t := TrimSpace(s);
      && (t != "" ==> !IsSpace(t[0]) && !IsSpace(t[|t| - 1]))
      && at + |t| <= |s| && s[at..at + |t|] == t
  {
    var l := TrimLeft(s);
    var t := TrimRight(l);
    TrimLeftMeaning(s);
    TrimRightMeaning(l);
    assert l[..|t|] == t;
    at := |s| - |l|;
    assert s[at..at + |t|] == s[at..][..|t|];
  }

  lemma NormalizedShape(s: string)
    ensures var t := Normalize(s); Collapsed(t) && (t != "" ==> !IsSpace(t[0]) && !IsSpace(t[|t| - 1]))
  {
    CollapseKeepsWords(s);
    var i := TrimIsAPiece(Collapse(s));
    var c, t := Collapse(s), Normalize(s);
    assert forall j :: 0 <= j < |t| ==> t[j] == c[i + j];
  }

  /** Normalising again changes nothing. */
  lemma NormalizeIsIdempotent(s: string)
    ensures Normalize(Normalize(s)) == Normalize(s)
  {
    NormalizedShape(s);
    CollapsedStays(Normalize(s));
    TrimLeavesTrimmed(Normalize(s));
  }

  /** Text whose only white space is what the regular expression knows. */
  predicate Plain(s: string) {
    forall i :: 0 <= i < |s| && IsSpace(s[i]) ==> RegexSpace(s[i])
  }

  lemma {:induction false} CollapsePlain(s: string)
    requires Plain(s)
    ensures Plain(Collapse(s))
  {
    if s != "" { CollapsePlain(s[..|s| - 1]); }
  }

  /** Where every window is a piece of the text. */
  lemma {:induction false} WindowIsAPiece(text: string, size: nat, overlap: nat, start: nat, i: nat) returns (at: nat)
    requires overlap < size && start <= |text| && i < |Windows(text, size, overlap, start)|
    ensures var w := Windows(text, size, overlap, start)[i];
      start <= at && at + |w| <= |text| && text[at..at + |w|] == w && 0 < |w|
    ensures var w := Windows(text, size, overlap, start)[i]; |w| == size || at + |w| == |text|
    decreases |text| - start
  {
    var end := Smaller(start + size, |text|);
    if i == 0 {
      at := start;
    } else {
      at := WindowIsAPiece(text, size, overlap, end - overlap, i - 1);
    }
  }

  /** In normalised plain text no window is blank: two spaces never meet, and the last
      character is not white. */
  lemma NoWindowIsBlank(s: string, size: nat, overlap: nat)
    requires Plain(s) && overlap < size && 2 <= size
    ensures var w := Windows(Normalize(s), size, overlap, 0); forall i :: 0 <= i < |w| ==> !Blank(w[i])
  {
    var t := Normalize(s);
    NormalizedShape(s);
    CollapsePlain(s);
    var k := TrimIsAPiece(Collapse(s));
    var c := Collapse(s);
    assert forall j :: 0 <= j < |t| ==> t[j] == c[k + j];
    assert forall j :: 0 <= j < |t| && IsSpace(t[j]) ==> t[j] == ' ';
    var w := Windows(t, size, overlap, 0);
    forall i | 0 <= i < |w| ensures !Blank(w[i]) {
      var at := WindowIsAPiece(t, size, overlap, 0, i);
      if at + |w[i]| == |t| {
        assert w[i][|w[i]| - 1] == t[|t| - 1];
      } else {
        assert w[i][0] == t[at] && w[i][1] == t[at + 1];
      }
    }
  }

  // ---- Ingestion ----------------------------------------------------------------------------------

  datatype Ingest = Stored(chunks: seq<string>) | TooShort | NoUsableChunks

  /** A normalised text always has a usable chunk; what can fail is only the cap, and it
      fails exactly when the windows that are not blank are more than 1000. */
  lemma OnlyTheCapRejects(extracted: string)
    ensures var t := Normalize(extracted); var w := Windows(t, SIZE, OVERLAP, 0);
      && (t != "" ==> Chunks(t, SIZE, OVERLAP) != [])
      && |Chunks(t, SIZE, OVERLAP)| == |w| - Blanks(w)
      && (|Chunks(t, SIZE, OVERLAP)| <= MOST_CHUNKS <==> WindowCount(|t|, SIZE, OVERLAP) - Blanks(w) <= MOST_CHUNKS)
  {
    var t := Normalize(extracted);
    var w := Windows(t, SIZE, OVERLAP, 0);
    NormalizedShape(extracted);
    KeptIsTheRest(w);
    WindowsAreCounted(t, SIZE, OVERLAP, 0);
    if t != "" {
      assert w[0][0] == t[0];
      TrimEmptyIffBlank(w[0]);
    }
  }

  /** For text without exotic white space the rule is a length: 20 to 1,020,180 characters. */
  lemma PlainTextIsMeasured(extracted: string)
    requires Plain(extracted)
    ensures var t := Normalize(extracted);
      SHORTEST_TEXT <= |t| && 0 < |Chunks(t, SIZE, OVERLAP)| <= MOST_CHUNKS <==> SHORTEST_TEXT <= |t| <= 1_020_180
    ensures var t := Normalize(extracted); |Chunks(t, SIZE, OVERLAP)| == WindowCount(|t|, SIZE, OVERLAP)
  {
    var t := Normalize(extracted);
    OnlyTheCapRejects(extracted);
    CapInCharacters(t);
    NoWindowIsBlank(extracted, SIZE, OVERLAP);
    KeptIsTheRest(Windows(t, SIZE, OVERLAP, 0));
    WindowsAreCounted(t, SIZE, OVERLAP, 0);
  }

  /** From extracted text to chunks, as the ingestion decides it. Only the two size checks
      can fail: there is no text long enough without a usable chunk. */
  method Prepare(extracted: string) returns (r: Ingest)
    ensures r.TooShort? <==> |Normalize(extracted)| < 20
    ensures r.Stored? ==> r.chunks == Chunks(Normalize(extracted), 1200, 180) && 0 < |r.chunks| <= 1000
    ensures r.NoUsableChunks? ==> |Chunks(Normalize(extracted), 1200, 180)| > 1000
    ensures Plain(extracted) ==> (r.Stored? <==> 20 <= |Normalize(extracted)| <= 1_020_180)
  {
    var text := Normalize(extracted);
    OnlyTheCapRejects(extracted);
    if Plain(extracted) { PlainTextIsMeasured(extracted); }
    if |text| < SHORTEST_TEXT {
      return TooShort;
    }
    var chunks := Split(text, SIZE, OVERLAP);
    return if |chunks| == 0 || |chunks| > MOST_CHUNKS then NoUsableChunks else Stored(chunks);
  }

  lemma {:induction false} BlankButTheLast(text: string, start: nat)
    requires start < |text| && forall i :: start <= i < |text| - 1 ==> IsSpace(text[i])
    ensures var w := Windows(text, SIZE, OVERLAP, start); Blanks(w) + 1 >= |w|
    decreases |text| - start
  {
    if start + SIZE < |text| {
      var next := start + SIZE - OVERLAP;
      BlankButTheLast(text, next);
      assert ([text[start..start + SIZE]] + Windows(text, SIZE, OVERLAP, next))[1..]
        == Windows(text, SIZE, OVERLAP, next);
    }
  }

  /** Exotic white space is outside that rule: however long the blank middle of a document
      is, its windows are dropped and at most two chunks are left to count. */
  lemma BlankMiddlesAreNotMeasured(middle: string)
    requires forall i :: 0 <= i < |middle| ==> IsSpace(middle[i]) && !RegexSpace(middle[i])
    ensures var text := "a" + middle + "b"; Normalize(text) == text && 0 < |Chunks(text, SIZE, OVERLAP)| <= 2
  {
    var text := "a" + middle + "b";
    assert Collapsed(text);
    CollapsedStays(text);
    TrimLeavesTrimmed(text);
    OnlyTheCapRejects(text);
    if SIZE < |text| {
      var next := SIZE - OVERLAP;
      BlankButTheLast(text, next);
      assert ([text[0..SIZE]] + Windows(text, SIZE, OVERLAP, next))[1..] == Windows(text, SIZE, OVERLAP, next);
    }
  }
}
