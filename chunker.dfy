/**
 * The chunker (lib/chunker.ts): whitespace normalisation, a 1000-character
 * window sliding with a 200-character overlap, a cut after the last ". "
 * past the window's midpoint, and a final filter that drops pieces of 50
 * characters or fewer.
 */
module Chunker {
  import opened Text

  const ChunkSize: nat := 1000
  const ChunkOverlap: nat := 200
  /** Pieces must be strictly longer than this to be kept. */
  const MinChunkLength: nat := 50

  // ---------------------------------------------------------------------------
  // Normalisation: text.replace(/\s+/g, " ").trim()
  // ---------------------------------------------------------------------------

  /** `s.replace(/\s+/g, " ")`: every maximal run of whitespace becomes one space. */
  function CollapseSpaces(s: string): string {
    if s == [] then []
    else if IsSpace(s[0]) && |s| > 1 && IsSpace(s[1]) then CollapseSpaces(s[1..])
    else if IsSpace(s[0]) then " " + CollapseSpaces(s[1..])
    else [s[0]] + CollapseSpaces(s[1..])
  }

  /** The `cleaned` text the chunker works on. */
  function Normalize(text: string): string {
    Trim(CollapseSpaces(text))
  }

  /** The only whitespace is a plain space, and never two in a row. */
  predicate Collapsed(s: string) {
    && (forall i :: 0 <= i < |s| && IsSpace(s[i]) ==> s[i] == ' ')
    && (forall i :: 0 <= i < |s| - 1 ==> !(IsSpace(s[i]) && IsSpace(s[i + 1])))
  }

  /** Collapsed, and neither starting nor ending with whitespace. */
  predicate IsNormalized(s: string) {
    Collapsed(s) && (s != [] ==> !IsSpace(s[0]) && !IsSpace(s[|s| - 1]))
  }

  lemma {:induction false} CollapseShape(s: string)
    ensures Collapsed(CollapseSpaces(s))
    ensures s != [] ==> CollapseSpaces(s) != [] && (IsSpace(CollapseSpaces(s)[0]) <==> IsSpace(s[0]))
  {
    if s != [] {
      CollapseShape(s[1..]);
      var rest := CollapseSpaces(s[1..]);
      if IsSpace(s[0]) && |s| > 1 && IsSpace(s[1]) {
      } else {
        var r := CollapseSpaces(s);
        assert r == [if IsSpace(s[0]) then ' ' else s[0]] + rest;
        assert |s| > 1 ==> rest != [] && !(IsSpace(s[0]) && IsSpace(rest[0]));
        forall i | 0 <= i < |r| - 1
          ensures !(IsSpace(r[i]) && IsSpace(r[i + 1]))
        {
          if i > 0 { assert r[i] == rest[i - 1] && r[i + 1] == rest[i]; }
        }
      }
    }
  }

  lemma CollapsedSlice(s: string, a: nat, b: nat)
    requires Collapsed(s) && a <= b <= |s|
    ensures Collapsed(s[a..b])
  {
    var t := s[a..b];
    assert forall i :: 0 <= i < |t| ==> t[i] == s[a + i];
  }

  /** Trimming a collapsed text removes at most one character at either end. */
  lemma TrimCollapsed(s: string)
    requires Collapsed(s)
    ensures IsNormalized(Trim(s))
    ensures TrimLo(s) <= 1 && TrimHi(s) + 1 >= |s|
  {
    TrimBounds(s);
    CollapsedSlice(s, TrimLo(s), TrimHi(s));
    var t := Trim(s);
    assert t != [] ==> t[0] == s[TrimLo(s)] && t[|t| - 1] == s[TrimHi(s) - 1];
    if |s| > 1 {
      assert !(IsSpace(s[0]) && IsSpace(s[1]));
      assert !(IsSpace(s[|s| - 2]) && IsSpace(s[|s| - 1]));
    }
  }

  /**
   * The normalised text has no leading or trailing whitespace, no two
   * whitespace characters in a row, and no whitespace other than ' ';
   * in particular it holds no '\n'.
   */
  lemma NormalizeShape(text: string)
    ensures IsNormalized(Normalize(text))
    ensures '\n' !in Normalize(text)
  {
    CollapseShape(text);
    TrimCollapsed(CollapseSpaces(text));
    var c := Normalize(text);
    forall i | 0 <= i < |c| ensures c[i] != '\n' {
      if IsSpace(c[i]) { assert c[i] == ' '; }
    }
  }

  lemma {:induction false} CollapseOfCollapsed(s: string)
    requires Collapsed(s)
    ensures CollapseSpaces(s) == s
  {
    if s != [] {
      CollapsedSlice(s, 1, |s|);
      CollapseOfCollapsed(s[1..]);
      assert |s| > 1 ==> !(IsSpace(s[0]) && IsSpace(s[1]));
      assert IsSpace(s[0]) ==> s[0] == ' ';
      assert s == [s[0]] + s[1..];
    }
  }

  /** Normalising is idempotent: normalised text is its own normal form. */
  lemma NormalizeIdempotent(text: string)
    ensures Normalize(Normalize(text)) == Normalize(text)
  {
    var c := Normalize(text);
    NormalizeShape(text);
    CollapseOfCollapsed(c);
    assert c != [] ==> !IsSpace(c[0]) && !IsSpace(c[|c| - 1]);
    assert LeadingSpaces(c) == 0;
    assert TrailingSpaces(c, 0) == 0;
  }

  lemma {:induction false} CollapseOfSpaces(s: string)
    requires s != [] && forall i :: 0 <= i < |s| ==> IsSpace(s[i])
    ensures CollapseSpaces(s) == " "
  {
    if |s| > 1 { CollapseOfSpaces(s[1..]); }
  }

  lemma {:induction false} CollapseKeepsNonSpace(s: string, i: nat)
    requires i < |s| && !IsSpace(s[i])
    ensures exists j :: 0 <= j < |CollapseSpaces(s)| && !IsSpace(CollapseSpaces(s)[j])
  {
    if i == 0 {
      assert CollapseSpaces(s)[0] == s[0];
    } else {
      CollapseKeepsNonSpace(s[1..], i - 1);
      var rest := CollapseSpaces(s[1..]);
      var j :| 0 <= j < |rest| && !IsSpace(rest[j]);
      var r := CollapseSpaces(s);
      if IsSpace(s[0]) && |s| > 1 && IsSpace(s[1]) {
        assert r == rest;
      } else {
        assert r[j + 1] == rest[j];
      }
    }
  }

  /** The characters of `s` that are not whitespace, in order. */
  function NonSpace(s: string): string {
    if s == [] then [] else (if IsSpace(s[0]) then [] else [s[0]]) + NonSpace(s[1..])
  }

  lemma {:induction false} NonSpaceAppend(a: string, b: string)
    ensures NonSpace(a + b) == NonSpace(a) + NonSpace(b)
  {
    if a != [] {
      assert (a + b)[1..] == a[1..] + b;
      NonSpaceAppend(a[1..], b);
    } else {
      assert a + b == b;
    }
  }

  lemma {:induction false} NonSpaceOfSpaces(s: string)
    requires forall i :: 0 <= i < |s| ==> IsSpace(s[i])
    ensures NonSpace(s) == []
  {
    if s != [] {
      NonSpaceOfSpaces(s[1..]);
    }
  }

  /** Collapsing whitespace runs keeps every other character, in order. */
  lemma {:induction false} CollapseKeepsText(s: string)
    ensures NonSpace(CollapseSpaces(s)) == NonSpace(s)
  {
    if s != [] {
      CollapseKeepsText(s[1..]);
      var rest := CollapseSpaces(s[1..]);
      if IsSpace(s[0]) && |s| > 1 && IsSpace(s[1]) {
      } else if IsSpace(s[0]) {
        NonSpaceAppend(" ", rest);
      } else {
        NonSpaceAppend([s[0]], rest);
      }
    }
  }

  /** Trimming removes whitespace only. */
  lemma TrimKeepsText(s: string)
    ensures NonSpace(Trim(s)) == NonSpace(s)
  {
    var lo, hi := TrimLo(s), TrimHi(s);
    TrimBounds(s);
    assert s == s[..lo] + s[lo..hi] + s[hi..];
    NonSpaceAppend(s[..lo] + s[lo..hi], s[hi..]);
    NonSpaceAppend(s[..lo], s[lo..hi]);
    NonSpaceOfSpaces(s[..lo]);
    NonSpaceOfSpaces(s[hi..]);
  }

  /** Normalising changes whitespace only: the other characters survive, in order. */
  lemma NormalizeKeepsText(text: string)
    ensures NonSpace(Normalize(text)) == NonSpace(text)
  {
    CollapseKeepsText(text);
    TrimKeepsText(CollapseSpaces(text));
  }

  /** The normalised text is empty exactly when the input is empty or all whitespace. */
  lemma NormalizeEmpty(text: string)
    ensures Normalize(text) == "" <==> forall i :: 0 <= i < |text| ==> IsSpace(text[i])
  {
    var s := CollapseSpaces(text);
    TrimBounds(s);
    if forall i :: 0 <= i < |text| ==> IsSpace(text[i]) {
      if text != [] {
        CollapseOfSpaces(text);
        assert IsSpace(s[0]);
      }
    } else {
      var i :| 0 <= i < |text| && !IsSpace(text[i]);
      CollapseKeepsNonSpace(text, i);
      var j :| 0 <= j < |s| && !IsSpace(s[j]);
      assert TrimLo(s) <= j < TrimHi(s);
    }
  }

  // ---------------------------------------------------------------------------
  // Windows
  // ---------------------------------------------------------------------------

  /**
   * Where the window that starts at `start` ends: `start + ChunkSize`, unless
   * that is before the end of the text and the last ". " or "\n" of the
   * window lies past its midpoint (`CHUNK_SIZE * 0.5`, exactly 500), in which
   * case the window ends just after that break.
   * Every window ends at least ChunkSize / 2 + 2 characters after its start,
   * so the next one starts at least 302 characters further on.
   */
  function WindowEnd(c: string, start: nat): (e: nat)
    requires start < |c|
    ensures start + ChunkSize / 2 + 2 <= e <= start + ChunkSize
    ensures e - ChunkOverlap >= start + 302
  {
    var e0 := start + ChunkSize;
    if e0 < |c| then
      var slice := c[start..e0];
      var breakPoint := Max(LastIndexOfPair(slice, '.', ' '), LastIndexOfChar(slice, '\n'));
      if breakPoint > ChunkSize / 2 then start + breakPoint + 1 else e0
    else e0
  }

  /** One untrimmed window `cleaned.slice(start, end)`; `end` may lie past the text. */
  datatype Window = Window(start: nat, end: nat)

  /** The windows the loop visits from `start` on, in order. */
  function Windows(c: string, start: nat): (ws: seq<Window>)
    ensures forall k :: 0 <= k < |ws| ==>
              && start <= ws[k].start < |c|
              && ws[k].start + ChunkSize / 2 + 2 <= ws[k].end <= ws[k].start + ChunkSize
    decreases |c| - start
  {
    if start >= |c| then []
    else
      var e := WindowEnd(c, start);
      [Window(start, e)] + Windows(c, e - ChunkOverlap)
  }

  lemma WindowsUnfold(c: string, start: nat, e: nat, next: nat)
    requires start < |c| && e == WindowEnd(c, start) && next == e - ChunkOverlap
    ensures Windows(c, start) == [Window(start, e)] + Windows(c, next)
  {
  }

  predicate WellFormed(c: string, ws: seq<Window>) {
    forall k :: 0 <= k < |ws| ==> ws[k].start <= |c| && ws[k].start <= ws[k].end
  }

  /** The trimmed text of one window, clamped to the end of the text as `slice` does. */
  function Piece(c: string, w: Window): string
    requires w.start <= |c| && w.start <= w.end
  {
    Trim(c[w.start..Min(w.end, |c|)])
  }

  function Pieces(c: string, ws: seq<Window>): (r: seq<string>)
    requires WellFormed(c, ws)
    ensures |r| == |ws|
    ensures forall k :: 0 <= k < |ws| ==> r[k] == Piece(c, ws[k])
  {
    if ws == [] then [] else [Piece(c, ws[0])] + Pieces(c, ws[1..])
  }

  /** `chunks.filter((c) => c.length > 50)`, keeping the order. */
  function KeepLong(xs: seq<string>): (r: seq<string>)
    ensures |r| <= |xs|
    ensures forall x :: x in r ==> x in xs && |x| > MinChunkLength
    ensures forall x :: x in xs && |x| > MinChunkLength ==> x in r
  {
    if xs == [] then []
    else (if |xs[0]| > MinChunkLength then [xs[0]] else []) + KeepLong(xs[1..])
  }

  /** One chunk is kept exactly when it is longer than 50 characters. */
  lemma KeepLongSingle(x: string)
    ensures |x| > MinChunkLength ==> KeepLong([x]) == [x]
    ensures |x| <= MinChunkLength ==> KeepLong([x]) == []
  {
    assert [x][1..] == [];
  }

  /**
   * The filter keeps order and multiplicity: filtering two lists one after
   * the other is filtering each, then concatenating.
   */
  lemma {:induction false} KeepLongAppend(xs: seq<string>, ys: seq<string>)
    ensures KeepLong(xs + ys) == KeepLong(xs) + KeepLong(ys)
    decreases |xs|
  {
    if xs != [] {
      assert (xs + ys)[1..] == xs[1..] + ys;
      KeepLongAppend(xs[1..], ys);
    } else {
      assert xs + ys == ys;
    }
  }

  /** What `chunkText(text)` returns. */
  function Chunks(text: string): seq<string> {
    var c := Normalize(text);
    if |c| <= ChunkSize then [c] else KeepLong(Pieces(c, Windows(c, 0)))
  }

  // ---------------------------------------------------------------------------
  // The loop
  // ---------------------------------------------------------------------------

  /** `chunkText`: the sliding-window loop, then the length filter. */
  method ChunkText(text: string) returns (chunks: seq<string>)
    ensures chunks == Chunks(text)
  {
    var cleaned := Normalize(text);
    if |cleaned| <= ChunkSize {
      return [cleaned];
    }
    var raw := SlideWindows(cleaned);
    LoopPiecesAreWindowPieces(cleaned, 0);
    chunks := KeepLong(raw);
  }

  /** The `while (start < cleaned.length)` loop: the trimmed text of every window, in order. */
  method SlideWindows(cleaned: string) returns (raw: seq<string>)
    ensures raw == LoopPieces(cleaned, 0)
  {
    raw := [];
    var start: nat := 0;
    ghost var all := LoopPieces(cleaned, 0);
    while start < |cleaned|
      invariant raw + LoopPieces(cleaned, start) == all
      decreases |cleaned| - start
    {
      var end := FindWindowEnd(cleaned, start);
      var piece := Trim(cleaned[start..Min(end, |cleaned|)]);
      var next := end - ChunkOverlap;
      LoopStep(cleaned, start, end, next, piece, raw, all);
      raw := raw + [piece];
      start := next;
    }
    assert LoopPieces(cleaned, start) == [];
  }

  /** The end of the window that starts at `start`, as the loop body computes it. */
  method FindWindowEnd(cleaned: string, start: nat) returns (end: nat)
    requires start < |cleaned|
    ensures end == WindowEnd(cleaned, start)
  {
    end := start + ChunkSize;
    if end < |cleaned| {
      var slice := cleaned[start..end];
      var lastPeriod := LastIndexOfPair(slice, '.', ' ');
      var lastNewline := LastIndexOfChar(slice, '\n');
      var breakPoint := Max(lastPeriod, lastNewline);
      if breakPoint > ChunkSize / 2 {
        end := start + breakPoint + 1;
      }
    }
  }

  /** The pieces the loop pushes from `start` on, before the length filter. */
  function LoopPieces(c: string, start: nat): seq<string>
    decreases |c| - start
  {
    if start >= |c| then []
    else
      var e := WindowEnd(c, start);
      [Trim(c[start..Min(e, |c|)])] + LoopPieces(c, e - ChunkOverlap)
  }

  /** One pass of the loop keeps "pieces pushed so far + pieces still to come" unchanged. */
  lemma LoopStep(c: string, start: nat, end: nat, next: int, piece: string, raw: seq<string>, all: seq<string>)
    requires start < |c| && end == WindowEnd(c, start) && next == end - ChunkOverlap
    requires piece == Trim(c[start..Min(end, |c|)])
    requires raw + LoopPieces(c, start) == all
    ensures next > start
    ensures (raw + [piece]) + LoopPieces(c, next) == all
  {
    LoopPiecesUnfold(c, start, end, next);
    ConcatAssoc(raw, [piece], LoopPieces(c, next));
  }

  lemma LoopPiecesUnfold(c: string, start: nat, e: nat, next: nat)
    requires start < |c| && e == WindowEnd(c, start) && next == e - ChunkOverlap
    ensures LoopPieces(c, start) == [Trim(c[start..Min(e, |c|)])] + LoopPieces(c, next)
  {
  }

  /** The loop pushes exactly the trimmed text of each window, in order. */
  lemma {:induction false} LoopPiecesAreWindowPieces(c: string, start: nat)
    ensures LoopPieces(c, start) == Pieces(c, Windows(c, start))
    decreases |c| - start
  {
    if start < |c| {
      var e := WindowEnd(c, start);
      var next := e - ChunkOverlap;
      LoopPiecesAreWindowPieces(c, next);
      LoopPiecesUnfold(c, start, e, next);
      WindowsUnfold(c, start, e, next);
      PiecesCons(c, Window(start, e), Windows(c, next));
    } else {
      WindowsPast(c, start);
    }
  }


  lemma ConcatAssoc<T>(a: seq<T>, b: seq<T>, c: seq<T>)
    ensures (a + b) + c == a + (b + c)
  {
  }

  lemma PiecesCons(c: string, w: Window, ws: seq<Window>)
    requires w.start <= |c| && w.start <= w.end && WellFormed(c, ws)
    ensures WellFormed(c, [w] + ws)
    ensures Pieces(c, [w] + ws) == [Piece(c, w)] + Pieces(c, ws)
  {
    assert ([w] + ws)[1..] == ws;
  }

  // ---------------------------------------------------------------------------
  // Properties of the windows and of the result
  // ---------------------------------------------------------------------------

  /** On normalised text the newline search never finds anything: only ". " can move a cut. */
  lemma NoNewlineBreak(c: string, a: nat, b: nat)
    requires IsNormalized(c) && a <= b <= |c|
    ensures LastIndexOfChar(c[a..b], '\n') == -1
  {
    var slice := c[a..b];
    forall j | 0 <= j < |slice| ensures slice[j] != '\n' {
      assert slice[j] == c[a + j];
      if IsSpace(c[a + j]) { assert c[a + j] == ' '; }
    }
  }

  /**
   * The cut rule on normalised text: a window that stops short of the end is
   * cut just after the period of its last ". " when that ". " starts past
   * index 500 of the window, and otherwise keeps its full 1000 characters.
   */
  lemma SentenceBreak(c: string, start: nat)
    requires IsNormalized(c) && start < |c|
    ensures start + ChunkSize >= |c| ==> WindowEnd(c, start) == start + ChunkSize
    ensures start + ChunkSize < |c| ==>
              var lastPeriod := LastIndexOfPair(c[start..start + ChunkSize], '.', ' ');
              var e := WindowEnd(c, start);
              && (lastPeriod > ChunkSize / 2 ==> e == start + lastPeriod + 1 && c[e - 1] == '.' && c[e] == ' ')
              && (lastPeriod <= ChunkSize / 2 ==> e == start + ChunkSize)
  {
    if start + ChunkSize < |c| {
      NoNewlineBreak(c, start, start + ChunkSize);
      var slice := c[start..start + ChunkSize];
      var lastPeriod := LastIndexOfPair(slice, '.', ' ');
      if lastPeriod > ChunkSize / 2 {
        assert slice[lastPeriod] == c[start + lastPeriod] && slice[lastPeriod + 1] == c[start + lastPeriod + 1];
      }
    }
  }

  /**
   * The shape of the windows the loop visits: each starts inside the text
   * and ends between ChunkSize / 2 + 2 and ChunkSize characters after its
   * start, each next one starts exactly ChunkOverlap characters before the
   * previous one ends, and the last one ends at least ChunkOverlap characters
   * past the text (which is what stops the loop).
   */
  predicate Chained(c: string, ws: seq<Window>) {
    && |ws| >= 1
    && (forall k :: 0 <= k < |ws| ==>
          ws[k].start < |c| && ws[k].start + ChunkSize / 2 + 2 <= ws[k].end <= ws[k].start + ChunkSize)
    && (forall k :: 0 <= k < |ws| - 1 ==> ws[k + 1].start == ws[k].end - ChunkOverlap)
    && ws[|ws| - 1].end >= |c| + ChunkOverlap
  }

  /** A window put in front of a chain that starts where the window's overlap begins is a chain. */
  lemma ChainCons(c: string, w: Window, rest: seq<Window>)
    requires w.start < |c| && w.start + ChunkSize / 2 + 2 <= w.end <= w.start + ChunkSize
    requires rest == [] ==> w.end >= |c| + ChunkOverlap
    requires rest != [] ==> Chained(c, rest) && rest[0].start == w.end - ChunkOverlap
    ensures Chained(c, [w] + rest) && ([w] + rest)[0] == w
  {
    var ws := [w] + rest;
    forall k | 0 <= k < |ws| - 1
      ensures ws[k + 1].start == ws[k].end - ChunkOverlap
    {
      if k > 0 { assert ws[k] == rest[k - 1] && ws[k + 1] == rest[k]; }
    }
  }

  /** The windows from any start inside the text form a chain that begins at that start. */
  lemma {:induction false} WindowsChain(c: string, start: nat)
    requires start < |c|
    ensures Chained(c, Windows(c, start)) && Windows(c, start)[0].start == start
    decreases |c| - start
  {
    var e := WindowEnd(c, start);
    var next := e - ChunkOverlap;
    WindowsUnfold(c, start, e, next);
    if next < |c| {
      WindowsChain(c, next);
    } else {
      WindowsPast(c, next);
    }
    ChainCons(c, Window(start, e), Windows(c, next));
  }

  lemma WindowsPast(c: string, start: nat)
    requires start >= |c|
    ensures Windows(c, start) == []
  {
  }

  /** Position `p` lies inside one of the windows (clamped to the text). */
  predicate Covers(c: string, ws: seq<Window>, p: nat) {
    exists k :: 0 <= k < |ws| && ws[k].start <= p < Min(ws[k].end, |c|)
  }

  /** A chain covers every position of the text from its first start on, without a gap. */
  lemma ChainCovers(c: string, ws: seq<Window>, p: nat)
    requires Chained(c, ws) && ws[0].start <= p < |c|
    ensures Covers(c, ws, p)
  {
    var k := 0;
    while k + 1 < |ws| && ws[k + 1].start <= p
      invariant 0 <= k < |ws| && ws[k].start <= p
      decreases |ws| - k
    {
      k := k + 1;
    }
    assert ws[k].start <= p < Min(ws[k].end, |c|);
  }

  /** The untrimmed windows cover every position of the text, without a gap. */
  lemma WindowsCover(c: string, p: nat)
    requires p < |c|
    ensures Covers(c, Windows(c, 0), p)
  {
    WindowsChain(c, 0);
    ChainCovers(c, Windows(c, 0), p);
  }

  /**
   * In a chain only the last two windows can reach the end of the text;
   * when two do, the last one starts inside the one before it and also ends
   * at the end of the text, so the last piece repeats the tail of the
   * previous one.
   */
  lemma ChainEnds(c: string, ws: seq<Window>)
    requires Chained(c, ws)
    ensures forall k :: 0 <= k < |ws| && ws[k].end >= |c| ==> k >= |ws| - 2
    ensures |ws| >= 2 && ws[|ws| - 2].end >= |c| ==>
              ws[|ws| - 2].start < ws[|ws| - 1].start && ws[|ws| - 1].end >= |c|
  {
    forall k | 0 <= k < |ws| - 2 ensures ws[k].end < |c| {
      assert ws[k + 1].start == ws[k].end - ChunkOverlap;
      assert ws[k + 2].start == ws[k + 1].end - ChunkOverlap;
      assert ws[k + 2].start < |c|;
    }
  }

  /** The windows the loop visits end as `ChainEnds` says. */
  lemma EndWindows(c: string)
    requires |c| > 0
    ensures var ws := Windows(c, 0);
            && (forall k :: 0 <= k < |ws| && ws[k].end >= |c| ==> k >= |ws| - 2)
            && (|ws| >= 2 && ws[|ws| - 2].end >= |c| ==>
                  ws[|ws| - 2].start < ws[|ws| - 1].start && ws[|ws| - 1].end >= |c|)
  {
    WindowsChain(c, 0);
    ChainEnds(c, Windows(c, 0));
  }

  /** A window that stops before the end of normalised text keeps at least 500 characters after trimming. */
  lemma InnerPieceKept(c: string, w: Window)
    requires IsNormalized(c)
    requires w.start + ChunkSize / 2 + 2 <= w.end < |c|
    ensures |Piece(c, w)| > MinChunkLength
  {
    CollapsedSlice(c, w.start, w.end);
    TrimCollapsed(c[w.start..w.end]);
  }

  /**
   * On the long path every piece the filter drops comes from a window that
   * reaches the end of the text; the pieces of all other windows are kept.
   */
  lemma OnlyEndPiecesDropped(text: string)
    requires |Normalize(text)| > ChunkSize
    ensures var c := Normalize(text);
            var ws := Windows(c, 0);
            forall k :: 0 <= k < |ws| && ws[k].end < |c| ==> Piece(c, ws[k]) in Chunks(text)
  {
    var c := Normalize(text);
    var ws := Windows(c, 0);
    NormalizeShape(text);
    forall k | 0 <= k < |ws| && ws[k].end < |c|
      ensures Piece(c, ws[k]) in Chunks(text)
    {
      InnerPieceKept(c, ws[k]);
      assert Pieces(c, ws)[k] == Piece(c, ws[k]);
    }
  }

  /**
   * Every chunk has at most ChunkSize characters; on the long path every
   * chunk also has more than MinChunkLength (the filter is strict).
   */
  lemma ChunkLengths(text: string)
    ensures forall x :: x in Chunks(text) ==> |x| <= ChunkSize
    ensures |Normalize(text)| > ChunkSize ==> forall x :: x in Chunks(text) ==> |x| > MinChunkLength
  {
    var c := Normalize(text);
    if |c| > ChunkSize {
      var ws := Windows(c, 0);
      var ps := Pieces(c, ws);
      PiecesBounded(c, ws);
      assert Chunks(text) == KeepLong(ps);
      forall x | x in Chunks(text) ensures MinChunkLength < |x| <= ChunkSize {
        assert x in ps;
      }
    } else {
      assert Chunks(text) == [c];
    }
  }

  /** No piece is longer than its window, hence than ChunkSize. */
  lemma PiecesBounded(c: string, ws: seq<Window>)
    requires WellFormed(c, ws)
    requires forall k :: 0 <= k < |ws| ==> ws[k].end <= ws[k].start + ChunkSize
    ensures forall x :: x in Pieces(c, ws) ==> |x| <= ChunkSize
  {
    var ps := Pieces(c, ws);
    forall k | 0 <= k < |ps| ensures |ps[k]| <= ChunkSize {
      assert |Piece(c, ws[k])| <= Min(ws[k].end, |c|) - ws[k].start;
    }
  }

  /** `x` is a contiguous piece of `c`. */
  predicate IsSliceOf(x: string, c: string) {
    exists i, j :: 0 <= i <= j <= |c| && x == c[i..j]
  }

  lemma PieceIsSlice(c: string, w: Window)
    requires w.start <= |c| && w.start <= w.end
    ensures IsSliceOf(Piece(c, w), c)
  {
    var piece := c[w.start..Min(w.end, |c|)];
    var i, j := w.start + TrimLo(piece), w.start + TrimHi(piece);
    forall k | 0 <= k < j - i ensures Piece(c, w)[k] == c[i..j][k] {
      assert Piece(c, w)[k] == piece[TrimLo(piece) + k];
    }
    assert Piece(c, w) == c[i..j];
  }

  /** Every chunk is a contiguous piece of the normalised text. */
  lemma ChunksAreSubstrings(text: string)
    ensures forall x :: x in Chunks(text) ==> IsSliceOf(x, Normalize(text))
  {
    var c := Normalize(text);
    if |c| <= ChunkSize {
      assert c == c[0..|c|];
    } else {
      var ws := Windows(c, 0);
      var ps := Pieces(c, ws);
      assert Chunks(text) == KeepLong(ps);
      forall k | 0 <= k < |ps| ensures IsSliceOf(ps[k], c) {
        PieceIsSlice(c, ws[k]);
      }
      forall x | x in Chunks(text) ensures IsSliceOf(x, c) {
        assert x in ps;
      }
    }
  }

  /**
   * Empty or whitespace-only input, and only such input, yields the single
   * empty chunk [""].
   */
  lemma BlankInput(text: string)
    ensures Chunks(text) == [""] <==> forall i :: 0 <= i < |text| ==> IsSpace(text[i])
  {
    NormalizeEmpty(text);
    var c := Normalize(text);
    if |c| > ChunkSize {
      ChunkLengths(text);
      assert "" !in Chunks(text);
    }
  }
}
