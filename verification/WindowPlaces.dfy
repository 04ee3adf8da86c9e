/** Where the windows of a long line begin and end, by the characters of the line. */
module WindowPlaces {
  import opened Unicode
  import opened Windows

  /** Whitespace at i behind a full stop, an exclamation or question mark, a semicolon or a colon. */
  predicate StopsAt(u: Tables, line: string, i: nat) {
    && 0 < i < |line| && u.IsSpace(line[i])
    && (line[i - 1] == '.' || line[i - 1] == '!' || line[i - 1] == '?' || line[i - 1] == ';' || line[i - 1] == ':')
  }

  predicate BlankAt(u: Tables, line: string, i: nat) {
    i < |line| && u.IsSpace(line[i])
  }

  predicate BehindBlank(u: Tables, line: string, i: nat) {
    0 < i <= |line| && u.IsSpace(line[i - 1])
  }

  /** Where a window from start on ends that does not reach the line's end: directly behind the last
      whitespace behind a sentence end in the overlap, else behind the last whitespace in it, else at
      its full length. */
  ghost predicate EndsRight(u: Tables, line: string, maxChars: nat, o: nat, start: nat, end: nat) {
    var hi := start + maxChars;
    var lo := if hi - o > start + 1 then hi - o else start + 1;
    if exists i: nat :: lo < i < hi && StopsAt(u, line, i) then
      end > 0 && lo < end - 1 < hi && StopsAt(u, line, end - 1) && forall j: nat :: end <= j < hi ==> !StopsAt(u, line, j)
    else if exists i: nat :: lo <= i < hi && BlankAt(u, line, i) then
      end > 0 && lo <= end - 1 < hi && BlankAt(u, line, end - 1) && forall j: nat :: end <= j < hi ==> !BlankAt(u, line, j)
    else end == hi
  }

  /** Where the window behind [start, end) starts: at the first place in the last o characters of it
      that whitespace stands before, else at end; never at start itself. */
  ghost predicate StartsRight(u: Tables, line: string, o: nat, start: nat, end: nat, next: nat) {
    var lo := if end - o > start + 1 then end - o else start + 1;
    && lo <= next <= end && (next < end ==> BehindBlank(u, line, next))
    && forall j: nat :: lo <= j < next ==> !BehindBlank(u, line, j)
  }

  /** The windows of a line: one if it fits; else each at most maxChars long, ending and starting as above,
      with an overlap that, out of range, is a quarter of the window. */
  ghost predicate CutRight(u: Tables, line: string, maxChars: int, overlap: int, ws: seq<Window>) {
    if maxChars <= 0 || |line| <= maxChars then ws == [Window(0, |line|)]
    else ChainRight(u, line, maxChars, if overlap < 0 || overlap >= maxChars / 2 then maxChars / 4 else overlap, ws)
  }

  ghost predicate ChainRight(u: Tables, line: string, maxChars: nat, o: nat, ws: seq<Window>) {
    && |ws| > 0 && ws[0].start == 0 && ws[|ws| - 1].end == |line|
    && (forall k :: 0 <= k < |ws| ==> WindowRight(u, line, maxChars, o, ws[k]))
    && (forall k: nat :: k + 1 < |ws| ==> NextRight(u, line, o, ws, k))
  }

  /** The window behind the k-th starts right. */
  ghost predicate NextRight(u: Tables, line: string, o: nat, ws: seq<Window>, k: nat) {
    k + 1 < |ws| && ws[k].end < |line| && StartsRight(u, line, o, ws[k].start, ws[k].end, ws[k + 1].start)
  }

  ghost predicate WindowRight(u: Tables, line: string, maxChars: nat, o: nat, w: Window) {
    && w.start < w.end
    && if w.start + maxChars >= |line| then w.end == |line| else EndsRight(u, line, maxChars, o, w.start, w.end)
  }

  lemma PlacesAgree(u: Tables, line: string)
    ensures forall i: nat {:trigger SentenceBreak(u, line, i)} {:trigger StopsAt(u, line, i)} :: i < |line| ==> (SentenceBreak(u, line, i) <==> StopsAt(u, line, i))
    ensures forall i: nat {:trigger IsSpaceAt(u, line, i)} {:trigger BlankAt(u, line, i)} :: i < |line| ==> (IsSpaceAt(u, line, i) <==> BlankAt(u, line, i))
    ensures forall i: nat {:trigger WordStart(u, line, i)} {:trigger BehindBlank(u, line, i)} :: 0 < i <= |line| ==> (WordStart(u, line, i) <==> BehindBlank(u, line, i))
  {
  }

  lemma CutIsRight(u: Tables, line: string, maxChars: nat, o: nat, w: Window)
    requires GoodWindow(u, line, maxChars, o, w)
    ensures WindowRight(u, line, maxChars, o, w)
  {
    PlacesAgree(u, line);
    hide SentenceBreak, StopsAt, IsSpaceAt, BlankAt, WordStart, BehindBlank;
  }

  lemma StartIsRight(u: Tables, line: string, maxChars: nat, o: nat, w: Window, next: nat)
    requires 2 * o < maxChars && GoodWindow(u, line, maxChars, o, w) && Follows(u, line, o, w, next)
    ensures w.end < |line| && StartsRight(u, line, o, w.start, w.end, next)
  {
    PlacesAgree(u, line);
    hide GoodCut, WordStart, BehindBlank, IsSpaceAt, BlankAt;
  }

  lemma ChainIsRight(u: Tables, line: string, maxChars: nat, o: nat, ws: seq<Window>)
    requires 2 * o < maxChars && Chained(u, line, maxChars, o, ws) && ws != [] && ws[|ws| - 1].end == |line|
    ensures ChainRight(u, line, maxChars, o, ws)
  {
    hide GoodWindow, Follows, WindowRight, NextRight;
    forall k | 0 <= k < |ws|
      ensures WindowRight(u, line, maxChars, o, ws[k])
    {
      CutIsRight(u, line, maxChars, o, ws[k]);
    }
    forall k: nat | k + 1 < |ws|
      ensures NextRight(u, line, o, ws, k)
    {
      NextIsRight(u, line, maxChars, o, ws, k);
    }
  }

  lemma NextIsRight(u: Tables, line: string, maxChars: nat, o: nat, ws: seq<Window>, k: nat)
    requires 2 * o < maxChars && Chained(u, line, maxChars, o, ws) && k + 1 < |ws|
    ensures NextRight(u, line, o, ws, k)
  {
    hide GoodWindow, Follows, StartsRight;
    StartIsRight(u, line, maxChars, o, ws[k], ws[k + 1].start);
  }

  /** The windows of a line are cut right. */
  lemma WindowsAreRight(u: Tables, line: string, maxChars: int, overlap: int, ws: seq<Window>)
    requires WindowsOf(u, line, maxChars, overlap, ws)
    ensures CutRight(u, line, maxChars, overlap, ws)
  {
    hide Chained, ChainRight;
    if maxChars > 0 && |line| > maxChars {
      ChainIsRight(u, line, maxChars, Normalized(maxChars, overlap), ws);
    }
  }

  // ---- The units of a text ----

  /** [p, e) is a line of the text, and some character of it is no whitespace. */
  ghost predicate IsFullLine(u: Tables, text: string, p: nat, e: nat) {
    && p <= e <= |text| && (p == 0 || text[p - 1] == '\n') && (e == |text| || text[e] == '\n')
    && (forall i :: p <= i < e ==> text[i] != '\n') && exists i :: p <= i < e && !u.IsSpace(text[i])
  }

  lemma FullLineIs(u: Tables, text: string, p: nat, e: nat)
    requires p <= e <= |text|
    ensures IsFullLine(u, text, p, e) <==> IsLine(text, p, e) && !Blank(u, text[p..e])
  {
    TrimBlank(u, text[p..e]);
    hide Trim;
    var line := text[p..e];
    assert forall i :: 0 <= i < |line| ==> line[i] == text[p + i];
    assert (forall i :: 0 <= i < |line| ==> u.IsSpace(line[i])) <==> forall i :: p <= i < e ==> u.IsSpace(text[i]) by {
      forall i | p <= i < e
        ensures text[i] == line[i - p]
      {
      }
    }
    if p <= |text| {
      var f := LineEnd(text, p);
    }
  }

  /** gs holds the windows of [p, e) from k on, shifted to the text. */
  ghost predicate HoldsFrom(u: Tables, text: string, maxChars: int, overlap: int, gs: seq<Window>, p: nat, e: nat, ws: seq<Window>, k: nat) {
    && p <= e <= |text| && CutRight(u, text[p..e], maxChars, overlap, ws) && k + |ws| <= |gs|
    && forall m :: 0 <= m < |ws| ==> gs[k + m] == Window(p + ws[m].start, p + ws[m].end)
  }

  /** Every line that is not blank has its windows among the units, in a row. */
  lemma LineHasUnits(u: Tables, text: string, maxChars: int, overlap: int, gs: seq<Window>, p: nat, e: nat) returns (ws: seq<Window>, k: nat)
    requires UnitsOf(u, text, maxChars, overlap, gs) && IsFullLine(u, text, p, e)
    ensures HoldsFrom(u, text, maxChars, overlap, gs, p, e, ws, k)
  {
    FullLineIs(u, text, p, e);
    hide WindowsOf, Blank, CutRight, IsFullLine;
    assert HoldsLine(u, text, maxChars, overlap, gs, p, e);
    ws, k :| HoldsWindows(u, text[p..e], maxChars, overlap, gs, p, ws, k);
    WindowsAreRight(u, text[p..e], maxChars, overlap, ws);
  }

  /** And there are no others. */
  lemma UnitHasLine(u: Tables, text: string, maxChars: int, overlap: int, gs: seq<Window>, i: nat) returns (p: nat, e: nat, ws: seq<Window>, m: nat)
    requires UnitsOf(u, text, maxChars, overlap, gs) && i < |gs|
    ensures IsFullLine(u, text, p, e) && CutRight(u, text[p..e], maxChars, overlap, ws)
    ensures m < |ws| && gs[i] == Window(p + ws[m].start, p + ws[m].end)
  {
    assert FromLine(u, text, maxChars, overlap, gs[i]);
    hide UnitsOf, WindowsOf, Blank, CutRight, IsFullLine;
    p, e, ws, m :| IsWindowOfLine(u, text, maxChars, overlap, gs[i], p, e, ws, m);
    FullLineIs(u, text, p, e);
    WindowsAreRight(u, text[p..e], maxChars, overlap, ws);
  }

  /** Unit i is the slice of the text its window says, at the slice's byte offset. */
  lemma UnitIsSlice(text: string, gs: seq<Window>, out: seq<Piece>, i: nat)
    requires ArePieces(text, gs, out) && i < |gs|
    ensures |out| == |gs| && gs[i].start <= gs[i].end <= |text|
    ensures out[i].text == text[gs[i].start..gs[i].end] && out[i].offset == ByteLen(text[..gs[i].start])
  {
    hide ByteLen;
  }
}
