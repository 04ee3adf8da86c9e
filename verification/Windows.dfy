/** Splitting a text into the pieces the span model sees: one per non-blank line, long lines cut
    into overlapping windows. */
module Windows {
  import opened Unicode

  /** Text starts at byte `offset` of the original. */
  datatype Piece = Piece(offset: nat, text: string)

  /** Characters [start, end) of a line. */
  datatype Window = Window(start: nat, end: nat)

  predicate IsSpaceAt(u: Tables, line: string, i: nat)
    requires i < |line|
  {
    u.IsSpace(line[i])
  }

  predicate EndsSentence(c: char) {
    c == '.' || c == '!' || c == '?' || c == ';' || c == ':'
  }

  function Max(a: int, b: int): int { if a < b then b else a }

  function Min(a: int, b: int): int { if a < b then a else b }

  /** The overlap windowLine works with: out of range it becomes a quarter of the window. */
  function Normalized(maxChars: int, overlap: int): (o: nat)
    requires maxChars > 0
    ensures 2 * o < maxChars
    ensures 0 <= overlap < maxChars / 2 ==> o == overlap
  {
    if overlap < 0 || overlap >= maxChars / 2 then maxChars / 4 else overlap
  }

  /** A window may be cut at c: behind whitespace, or nowhere better. */
  ghost predicate GoodCut(u: Tables, line: string, start: nat, end: nat, overlap: nat, c: nat)
    requires start < end < |line|
  {
    var lo := Max(start + 1, end - overlap);
    && lo <= c <= end
    && (if exists i :: lo < i < end && SentenceBreak(u, line, i) then
          c >= 1 && SentenceBreak(u, line, c - 1) && lo < c - 1
          && forall i :: c <= i < end ==> !SentenceBreak(u, line, i)
        else if exists i :: lo <= i < end && IsSpaceAt(u, line, i) then
          c >= 1 && lo <= c - 1 && IsSpaceAt(u, line, c - 1)
          && forall i :: c <= i < end ==> !IsSpaceAt(u, line, i)
        else c == end)
  }

  /** Whitespace at i behind a sentence end. */
  predicate SentenceBreak(u: Tables, line: string, i: nat)
    requires i < |line|
  {
    i > 0 && IsSpaceAt(u, line, i) && EndsSentence(line[i - 1])
  }

  method CutAt(u: Tables, line: string, start: nat, end: nat, overlap: nat) returns (c: nat)
    requires start < end < |line|
    ensures GoodCut(u, line, start, end, overlap, c) && start < c <= end
  {
    var lo := Max(start + 1, end - overlap);
    var i := end - 1;
    while i > lo
      invariant lo - 1 <= i <= end - 1
      invariant forall k :: lo < k < end && i < k ==> !SentenceBreak(u, line, k)
    {
      if IsSpaceAt(u, line, i) && EndsSentence(line[i - 1]) {
        assert SentenceBreak(u, line, i);
        return i + 1;
      }
      i := i - 1;
    }
    i := end - 1;
    while i >= lo
      invariant lo - 1 <= i <= end - 1
      invariant forall k :: lo <= k < end && i < k ==> !IsSpaceAt(u, line, k)
    {
      if IsSpaceAt(u, line, i) {
        return i + 1;
      }
      i := i - 1;
    }
    return end;
  }

  // ---- The chain of windows ----

  /** A word, or the line, starts at i. */
  predicate WordStart(u: Tables, line: string, i: nat)
    requires i <= |line|
  {
    i == 0 || IsSpaceAt(u, line, i - 1)
  }

  /** Where the window behind one that ends at `end` starts: on the first word start in the
      overlap, or at the end if there is none. */
  ghost predicate GoodStart(u: Tables, line: string, start: nat, end: nat, overlap: nat, next: nat)
    requires end < |line|
  {
    && Max(end - overlap, start + 1) <= next <= Max(end, start + 1)
    && (next < end ==> WordStart(u, line, next))
    && forall k: nat :: Max(end - overlap, start + 1) <= k < next ==> !WordStart(u, line, k)
  }

  ghost predicate GoodWindow(u: Tables, line: string, maxChars: nat, overlap: nat, w: Window) {
    && w.start < w.end <= |line| && w.end <= w.start + maxChars
    && if w.start + maxChars >= |line| then w.end == |line|
       else maxChars > 0 && GoodCut(u, line, w.start, w.start + maxChars, overlap, w.end)
  }

  ghost predicate Follows(u: Tables, line: string, overlap: nat, w: Window, start: nat) {
    w.end < |line| && GoodStart(u, line, w.start, w.end, overlap, start)
  }

  /** ws are windows of at most maxChars characters, each cut at a good place or at the line's end,
      the first at the line's start and each other where the one before allows. */
  ghost predicate Chained(u: Tables, line: string, maxChars: nat, overlap: nat, ws: seq<Window>) {
    && (forall k :: 0 <= k < |ws| ==> GoodWindow(u, line, maxChars, overlap, ws[k]))
    && (|ws| > 0 ==> ws[0].start == 0)
    && (forall k, l :: 0 <= k && l == k + 1 && l < |ws| ==> Follows(u, line, overlap, ws[k], ws[l].start))
  }

  /** start is where the next window of the chain goes. */
  ghost predicate NextStart(u: Tables, line: string, overlap: nat, ws: seq<Window>, start: nat) {
    if ws == [] then start == 0 else Follows(u, line, overlap, ws[|ws| - 1], start)
  }

  lemma ChainGrows(u: Tables, line: string, maxChars: nat, overlap: nat, ws: seq<Window>, w: Window)
    requires Chained(u, line, maxChars, overlap, ws) && NextStart(u, line, overlap, ws, w.start)
    requires GoodWindow(u, line, maxChars, overlap, w)
    ensures Chained(u, line, maxChars, overlap, ws + [w])
  {
    hide GoodWindow, Follows;
  }

  method FindStart(u: Tables, line: string, start: nat, end: nat, overlap: nat) returns (next: nat)
    requires start < end < |line|
    ensures GoodStart(u, line, start, end, overlap, next) && start < next <= end
  {
    next := Max(end - overlap, start + 1);
    while next < end && !IsSpaceAt(u, line, next - 1)
      invariant Max(end - overlap, start + 1) <= next <= end
      invariant forall k: nat :: Max(end - overlap, start + 1) <= k < next ==> !WordStart(u, line, k)
    {
      next := next + 1;
    }
  }

  /** The windows of a long line: the loop of windowLine. */
  method CutWindows(u: Tables, line: string, maxChars: nat, overlap: nat) returns (ws: seq<Window>)
    requires 2 * overlap < maxChars < |line|
    ensures Chained(u, line, maxChars, overlap, ws) && ws != [] && ws[|ws| - 1].end == |line|
  {
    hide GoodCut, GoodStart, Chained;
    ws := [];
    var start: nat, n := 0, |line|;
    assert Chained(u, line, maxChars, overlap, ws) by { EmptyChain(u, line, maxChars, overlap); }
    while start < n
      invariant start < n
      invariant Chained(u, line, maxChars, overlap, ws) && NextStart(u, line, overlap, ws, start)
      decreases n - start
    {
      var end: nat := Min(start + maxChars, n);
      if end < n {
        end := CutAt(u, line, start, end, overlap);
      }
      ChainGrows(u, line, maxChars, overlap, ws, Window(start, end));
      ws := ws + [Window(start, end)];
      if end >= n {
        break;
      }
      start := FindStart(u, line, start, end, overlap);
    }
  }

  lemma EmptyChain(u: Tables, line: string, maxChars: nat, overlap: nat)
    ensures Chained(u, line, maxChars, overlap, [])
  {
  }

  // ---- What the chain covers ----

  /** A cut leaves a window longer than the overlap. */
  lemma CutLeaves(u: Tables, line: string, maxChars: nat, overlap: nat, w: Window)
    requires 2 * overlap < maxChars && GoodWindow(u, line, maxChars, overlap, w)
    ensures w.end < |line| ==> w.end >= w.start + maxChars - overlap
  {
  }

  /** Windows advance by more than nothing and leave no gap. */
  lemma Advances(u: Tables, line: string, maxChars: nat, overlap: nat, w: Window, start: nat)
    requires 2 * overlap < maxChars && GoodWindow(u, line, maxChars, overlap, w) && Follows(u, line, overlap, w, start)
    ensures w.start + maxChars - 2 * overlap <= start <= w.end && w.start < start
  {
    CutLeaves(u, line, maxChars, overlap, w);
  }

  ghost predicate Inside(w: Window, a: nat, b: nat) {
    w.start <= a && b <= w.end
  }

  /** A span that starts a word at or behind the start of w and is at most the overlap long lies in
      w or starts at or behind the start of the next window. */
  lemma WholeOrLater(u: Tables, line: string, maxChars: nat, overlap: nat, w: Window, start: nat, a: nat, b: nat)
    requires 2 * overlap < maxChars && GoodWindow(u, line, maxChars, overlap, w) && Follows(u, line, overlap, w, start)
    requires w.start <= a < b <= |line| && b - a <= overlap && WordStart(u, line, a)
    ensures Inside(w, a, b) || start <= a
  {
    CutLeaves(u, line, maxChars, overlap, w);
  }

  lemma {:induction false} WholeFrom(u: Tables, line: string, maxChars: nat, overlap: nat, ws: seq<Window>, k: nat, a: nat, b: nat)
    requires 2 * overlap < maxChars && Chained(u, line, maxChars, overlap, ws)
    requires k < |ws| && ws[|ws| - 1].end == |line|
    requires ws[k].start <= a < b <= |line| && b - a <= overlap && WordStart(u, line, a)
    ensures exists m :: k <= m < |ws| && Inside(ws[m], a, b)
    decreases |ws| - k
  {
    hide GoodWindow, WordStart;
    if k == |ws| - 1 {
      assert Inside(ws[k], a, b);
    } else {
      WholeOrLater(u, line, maxChars, overlap, ws[k], ws[k + 1].start, a, b);
      if !Inside(ws[k], a, b) {
        WholeFrom(u, line, maxChars, overlap, ws, k + 1, a, b);
      }
    }
  }

  /** Whole names: every span of at most `overlap` characters that starts the line or a word lies
      entirely inside some window. */
  lemma WholeSpans(u: Tables, line: string, maxChars: nat, overlap: nat, ws: seq<Window>, a: nat, b: nat)
    requires 2 * overlap < maxChars && Chained(u, line, maxChars, overlap, ws)
    requires ws != [] && ws[|ws| - 1].end == |line|
    requires a < b <= |line| && b - a <= overlap && WordStart(u, line, a)
    ensures exists m :: 0 <= m < |ws| && Inside(ws[m], a, b)
  {
    WholeFrom(u, line, maxChars, overlap, ws, 0, a, b);
  }

  lemma {:induction false} StartsBound(u: Tables, line: string, maxChars: nat, overlap: nat, ws: seq<Window>, k: nat)
    requires 2 * overlap < maxChars && Chained(u, line, maxChars, overlap, ws) && k < |ws|
    ensures k * (maxChars - 2 * overlap) <= ws[k].start
  {
    if k > 0 {
      StartsBound(u, line, maxChars, overlap, ws, k - 1);
      Advances(u, line, maxChars, overlap, ws[k - 1], ws[k].start);
      assert k * (maxChars - 2 * overlap) == (k - 1) * (maxChars - 2 * overlap) + (maxChars - 2 * overlap);
    }
  }

  /** Windows start in increasing order without gaps, and there are at most
      ceil(n / (maxChars - 2 * overlap)) of them. */
  lemma WindowBounds(u: Tables, line: string, maxChars: nat, overlap: nat, ws: seq<Window>)
    requires 2 * overlap < maxChars && Chained(u, line, maxChars, overlap, ws) && ws != []
    ensures forall k, l :: 0 <= k && l == k + 1 && l < |ws| ==> ws[k].start < ws[l].start <= ws[k].end
    ensures (|ws| - 1) * (maxChars - 2 * overlap) < |line|
  {
    forall k, l | 0 <= k && l == k + 1 && l < |ws|
      ensures ws[k].start < ws[l].start <= ws[k].end
    {
      Advances(u, line, maxChars, overlap, ws[k], ws[l].start);
    }
    StartsBound(u, line, maxChars, overlap, ws, |ws| - 1);
    assert GoodWindow(u, line, maxChars, overlap, ws[|ws| - 1]);
  }

  /** So the windows cover every character of the line. */
  lemma {:induction false} CoversLine(u: Tables, line: string, maxChars: nat, overlap: nat, ws: seq<Window>, k: nat, c: nat)
    requires 2 * overlap < maxChars && Chained(u, line, maxChars, overlap, ws)
    requires k < |ws| && ws[|ws| - 1].end == |line| && ws[k].start <= c < |line|
    ensures exists m :: k <= m < |ws| && Inside(ws[m], c, c + 1)
    decreases |ws| - k
  {
    if c < ws[k].end {
      assert Inside(ws[k], c, c + 1);
    } else {
      Advances(u, line, maxChars, overlap, ws[k], ws[k + 1].start);
      CoversLine(u, line, maxChars, overlap, ws, k + 1, c);
    }
  }

  // ---- Bytes and pieces ----

  /** Byte offset of every character, and of the end. */
  method CharOffsets(s: string) returns (idx: seq<nat>)
    ensures |idx| == |s| + 1 && forall k :: 0 <= k <= |s| ==> idx[k] == ByteLen(s[..k])
  {
    idx := [];
    var at := 0;
    for i := 0 to |s|
      invariant |idx| == i && at == ByteLen(s[..i])
      invariant forall k :: 0 <= k < i ==> idx[k] == ByteLen(s[..k])
    {
      idx := idx + [at];
      assert s[..i + 1] == s[..i] + [s[i]];
      ByteLenConcat(s[..i], [s[i]]);
      at := at + Width(s[i]);
    }
    assert s[..|s|] == s;
    idx := idx + [at];
  }

  datatype Offsets = OutOfRange | Offsets(bytes: seq<nat>)

  /** charToByte: character offsets inside s as byte offsets, none if one lies outside s. */
  method CharToByte(s: string, chars: seq<int>) returns (r: Offsets)
    ensures r.Offsets? <==> forall k :: 0 <= k < |chars| ==> 0 <= chars[k] <= |s|
    ensures r.Offsets? ==> |r.bytes| == |chars| && forall k :: 0 <= k < |chars| ==> r.bytes[k] == ByteLen(s[..chars[k]])
  {
    var idx := CharOffsets(s);
    var out: seq<nat> := [];
    for k := 0 to |chars|
      invariant |out| == k
      invariant forall j :: 0 <= j < k ==> 0 <= chars[j] <= |s| && out[j] == ByteLen(s[..chars[j]])
    {
      if chars[k] < 0 || chars[k] >= |idx| {
        return OutOfRange;
      }
      out := out + [idx[chars[k]]];
    }
    return Offsets(out);
  }

  /** The piece a window cuts out of a text. */
  function PieceOf(text: string, w: Window): Piece
    requires w.start <= w.end <= |text|
  {
    Piece(ByteLen(text[..w.start]), text[w.start..w.end])
  }

  predicate Fits(line: string, maxChars: int) {
    maxChars <= 0 || |line| <= maxChars
  }

  /** The windows of a line. */
  ghost predicate WindowsOf(u: Tables, line: string, maxChars: int, overlap: int, ws: seq<Window>) {
    if Fits(line, maxChars) then ws == [Window(0, |line|)]
    else Chained(u, line, maxChars, Normalized(maxChars, overlap), ws) && ws != [] && ws[|ws| - 1].end == |line|
  }

  lemma WindowsInside(u: Tables, line: string, maxChars: int, overlap: int, ws: seq<Window>, k: nat)
    requires WindowsOf(u, line, maxChars, overlap, ws) && k < |ws|
    ensures ws[k].start <= ws[k].end <= |line|
    ensures line != [] ==> ws[k].start < ws[k].end
    ensures maxChars > 0 ==> ws[k].end - ws[k].start <= maxChars
  {
    if !Fits(line, maxChars) {
      assert GoodWindow(u, line, maxChars, Normalized(maxChars, overlap), ws[k]);
    }
  }

  /** out are the pieces the windows cut out of the text. */
  ghost predicate ArePieces(text: string, ws: seq<Window>, out: seq<Piece>) {
    && |out| == |ws|
    && forall k :: 0 <= k < |ws| ==> ws[k].start <= ws[k].end <= |text| && out[k] == PieceOf(text, ws[k])
  }

  ghost predicate AreWindows(u: Tables, line: string, maxChars: int, overlap: int, out: seq<Piece>) {
    exists ws :: WindowsOf(u, line, maxChars, overlap, ws) && ArePieces(line, ws, out)
  }

  /** The windows of a line; `ws` are where they are. */
  method WindowLine(u: Tables, line: string, maxChars: int, overlap: int) returns (out: seq<Piece>, ghost ws: seq<Window>)
    ensures AreWindows(u, line, maxChars, overlap, out)
    ensures WindowsOf(u, line, maxChars, overlap, ws) && ArePieces(line, ws, out)
  {
    if Fits(line, maxChars) {
      assert line[0..|line|] == line && line[..0] == [];
      out, ws := [Piece(0, line)], [Window(0, |line|)];
      assert WindowsOf(u, line, maxChars, overlap, ws) && ArePieces(line, ws, out);
      return;
    }
    hide Chained;
    var idx := CharOffsets(line);
    var cut := CutWindows(u, line, maxChars, Normalized(maxChars, overlap));
    ws := cut;
    assert WindowsOf(u, line, maxChars, overlap, ws);
    hide WindowsOf, ByteLen;
    out := [];
    for k := 0 to |cut|
      invariant |out| == k
      invariant forall j :: 0 <= j < k ==> ws[j].start <= ws[j].end <= |line| && out[j] == PieceOf(line, ws[j])
    {
      WindowsInside(u, line, maxChars, overlap, ws, k);
      out := out + [Piece(idx[cut[k].start], line[cut[k].start..cut[k].end])];
    }
    assert ArePieces(line, ws, out);
  }

  /** A span that fits the line's windows: at most the overlap long and starting a word, or in a
      line that is one window. */
  ghost predicate SeenWhole(u: Tables, line: string, maxChars: int, overlap: int, a: nat, b: nat) {
    && a < b <= |line|
    && (Fits(line, maxChars) || (b - a <= Normalized(maxChars, overlap) && WordStart(u, line, a)))
  }

  lemma SeenInSomeWindow(u: Tables, line: string, maxChars: int, overlap: int, ws: seq<Window>, a: nat, b: nat)
    requires WindowsOf(u, line, maxChars, overlap, ws) && SeenWhole(u, line, maxChars, overlap, a, b)
    ensures exists k :: 0 <= k < |ws| && Inside(ws[k], a, b)
  {
    if Fits(line, maxChars) {
      assert Inside(ws[0], a, b);
    } else {
      WholeSpans(u, line, maxChars, Normalized(maxChars, overlap), ws, a, b);
    }
  }

  // ---- Lines ----

  /** The end of the line that holds pos: the next newline, or the end of the text. */
  function LineEnd(text: string, pos: nat): (e: nat)
    requires pos <= |text|
    ensures pos <= e <= |text| && (e == |text| || text[e] == '\n')
    ensures forall k :: pos <= k < e ==> text[k] != '\n'
    decreases |text| - pos
  {
    if pos == |text| || text[pos] == '\n' then pos else LineEnd(text, pos + 1)
  }

  predicate IsLine(text: string, p: nat, e: nat) {
    && p <= |text| && (p == 0 || text[p - 1] == '\n') && e == LineEnd(text, p)
  }

  predicate Blank(u: Tables, line: string) { Trim(u, line) == [] }

  function Shifted(p: nat, w: Window): Window { Window(p + w.start, p + w.end) }

  /** gs holds, in a row, the windows of the line [p, e). */
  ghost predicate HoldsLine(u: Tables, text: string, maxChars: int, overlap: int, gs: seq<Window>, p: nat, e: nat)
    requires p <= e <= |text|
  {
    exists ws, k :: HoldsWindows(u, text[p..e], maxChars, overlap, gs, p, ws, k)
  }

  ghost predicate HoldsWindows(u: Tables, line: string, maxChars: int, overlap: int, gs: seq<Window>, p: nat, ws: seq<Window>, k: nat) {
    && WindowsOf(u, line, maxChars, overlap, ws) && k + |ws| <= |gs|
    && forall m :: 0 <= m < |ws| ==> gs[k + m] == Shifted(p, ws[m])
  }

  /** g is a window of a line of the text that is not blank. */
  ghost predicate FromLine(u: Tables, text: string, maxChars: int, overlap: int, g: Window) {
    exists p, e, ws, m :: IsWindowOfLine(u, text, maxChars, overlap, g, p, e, ws, m)
  }

  ghost predicate IsWindowOfLine(u: Tables, text: string, maxChars: int, overlap: int, g: Window, p: nat, e: nat, ws: seq<Window>, m: nat) {
    && IsLine(text, p, e) && !Blank(u, text[p..e])
    && WindowsOf(u, text[p..e], maxChars, overlap, ws) && m < |ws| && g == Shifted(p, ws[m])
  }

  /** gs are windows of the lines that start before pos and are not blank: all of them, and no
      others. */
  ghost predicate UnitsBefore(u: Tables, text: string, maxChars: int, overlap: int, gs: seq<Window>, pos: nat) {
    && (forall k :: 0 <= k < |gs| ==> FromLine(u, text, maxChars, overlap, gs[k]))
    && (forall p: nat, e: nat :: p < pos && IsLine(text, p, e) && !Blank(u, text[p..e]) ==>
          HoldsLine(u, text, maxChars, overlap, gs, p, e))
  }

  ghost predicate UnitsOf(u: Tables, text: string, maxChars: int, overlap: int, gs: seq<Window>) {
    UnitsBefore(u, text, maxChars, overlap, gs, |text| + 1)
  }

  function ShiftedAll(p: nat, ws: seq<Window>): (r: seq<Window>)
    ensures |r| == |ws| && forall m :: 0 <= m < |ws| ==> r[m] == Shifted(p, ws[m])
  {
    if ws == [] then [] else ShiftedAll(p, ws[..|ws| - 1]) + [Shifted(p, ws[|ws| - 1])]
  }

  /** No line starts inside a line. */
  lemma NoLineInside(text: string, p: nat, q: nat)
    requires p <= |text| && p < q <= LineEnd(text, p)
    ensures forall e: nat :: !IsLine(text, q, e)
  {
  }

  lemma HoldsMore(u: Tables, text: string, maxChars: int, overlap: int, gs: seq<Window>, more: seq<Window>, p: nat, e: nat)
    requires p <= e <= |text| && HoldsLine(u, text, maxChars, overlap, gs, p, e)
    ensures HoldsLine(u, text, maxChars, overlap, gs + more, p, e)
  {
    var ws, k: nat :| HoldsWindows(u, text[p..e], maxChars, overlap, gs, p, ws, k);
    assert HoldsWindows(u, text[p..e], maxChars, overlap, gs + more, p, ws, k);
  }

  lemma LineAdded(u: Tables, text: string, maxChars: int, overlap: int, gs: seq<Window>, pos: nat, ws: seq<Window>)
    requires UnitsBefore(u, text, maxChars, overlap, gs, pos) && pos <= |text| && IsLine(text, pos, LineEnd(text, pos))
    requires !Blank(u, text[pos..LineEnd(text, pos)]) && WindowsOf(u, text[pos..LineEnd(text, pos)], maxChars, overlap, ws)
    ensures UnitsBefore(u, text, maxChars, overlap, gs + ShiftedAll(pos, ws), LineEnd(text, pos) + 1)
  {
    hide WindowsOf, Blank, HoldsLine, FromLine;
    var end := LineEnd(text, pos);
    var all := gs + ShiftedAll(pos, ws);
    forall k | 0 <= k < |all|
      ensures FromLine(u, text, maxChars, overlap, all[k])
    {
      if k >= |gs| {
        WindowAdded(u, text, maxChars, overlap, pos, ws, k - |gs|);
      }
    }
    forall p: nat, e: nat | p < end + 1 && IsLine(text, p, e) && !Blank(u, text[p..e])
      ensures HoldsLine(u, text, maxChars, overlap, all, p, e)
    {
      if p < pos {
        HoldsMore(u, text, maxChars, overlap, gs, ShiftedAll(pos, ws), p, e);
      } else {
        if p > pos {
          NoLineInside(text, pos, p);
        }
        HoldsAdded(u, text, maxChars, overlap, gs, pos, ws);
      }
    }
  }

  lemma WindowAdded(u: Tables, text: string, maxChars: int, overlap: int, pos: nat, ws: seq<Window>, m: nat)
    requires pos <= |text| && IsLine(text, pos, LineEnd(text, pos)) && !Blank(u, text[pos..LineEnd(text, pos)])
    requires WindowsOf(u, text[pos..LineEnd(text, pos)], maxChars, overlap, ws) && m < |ws|
    ensures FromLine(u, text, maxChars, overlap, ShiftedAll(pos, ws)[m])
  {
    hide WindowsOf, Blank;
    assert IsWindowOfLine(u, text, maxChars, overlap, ShiftedAll(pos, ws)[m], pos, LineEnd(text, pos), ws, m);
  }

  lemma HoldsAdded(u: Tables, text: string, maxChars: int, overlap: int, gs: seq<Window>, pos: nat, ws: seq<Window>)
    requires pos <= |text| && WindowsOf(u, text[pos..LineEnd(text, pos)], maxChars, overlap, ws)
    ensures HoldsLine(u, text, maxChars, overlap, gs + ShiftedAll(pos, ws), pos, LineEnd(text, pos))
  {
    hide WindowsOf;
    assert HoldsWindows(u, text[pos..LineEnd(text, pos)], maxChars, overlap, gs + ShiftedAll(pos, ws), pos, ws, |gs|);
  }

  lemma BlankLineSkipped(u: Tables, text: string, maxChars: int, overlap: int, gs: seq<Window>, pos: nat)
    requires UnitsBefore(u, text, maxChars, overlap, gs, pos) && pos <= |text| && IsLine(text, pos, LineEnd(text, pos))
    requires Blank(u, text[pos..LineEnd(text, pos)])
    ensures UnitsBefore(u, text, maxChars, overlap, gs, LineEnd(text, pos) + 1)
  {
    forall p: nat, e: nat | p < LineEnd(text, pos) + 1 && IsLine(text, p, e) && !Blank(u, text[p..e])
      ensures HoldsLine(u, text, maxChars, overlap, gs, p, e)
    {
      if p > pos {
        NoLineInside(text, pos, p);
      }
    }
  }

  lemma SliceInSlice(text: string, p: nat, e: nat, a: nat, b: nat)
    requires p <= e <= |text| && a <= b <= e - p
    ensures text[p + a..p + b] == text[p..e][a..b]
  {
    var line := text[p..e];
    forall k | 0 <= k < b - a
      ensures text[p + a..p + b][k] == line[a..b][k]
    {
      assert line[a + k] == text[p + (a + k)];
    }
  }

  /** A window of a line cuts the same piece out of the text, shifted by the line's offset. */
  lemma PieceShifted(text: string, p: nat, e: nat, w: Window)
    requires p <= e <= |text| && w.start <= w.end <= e - p
    ensures PieceOf(text, Shifted(p, w)) == Piece(ByteLen(text[..p]) + PieceOf(text[p..e], w).offset, PieceOf(text[p..e], w).text)
  {
    var line := text[p..e];
    assert text[..p + w.start] == text[..p] + line[..w.start];
    ByteLenConcat(text[..p], line[..w.start]);
    SliceInSlice(text, p, e, w.start, w.end);
  }

  /** Each starts behind the one before. */
  ghost predicate Increasing(ws: seq<Window>) {
    forall i, j :: 0 <= i < j < |ws| ==> ws[i].start < ws[j].start
  }

  lemma {:induction false} WindowsIncrease(u: Tables, line: string, maxChars: nat, overlap: nat, ws: seq<Window>, i: nat, j: nat)
    requires 2 * overlap < maxChars && Chained(u, line, maxChars, overlap, ws) && i < j < |ws|
    ensures ws[i].start < ws[j].start
    decreases j - i
  {
    Advances(u, line, maxChars, overlap, ws[j - 1], ws[j].start);
    if i < j - 1 {
      WindowsIncrease(u, line, maxChars, overlap, ws, i, j - 1);
    }
  }

  /** The units so far are in order, and all start before pos. */
  ghost predicate InOrder(gs: seq<Window>, pos: nat) {
    Increasing(gs) && forall k :: 0 <= k < |gs| ==> gs[k].start < pos
  }

  lemma OrderGrows(u: Tables, line: string, maxChars: int, overlap: int, gs: seq<Window>, pos: nat, ws: seq<Window>)
    requires InOrder(gs, pos) && WindowsOf(u, line, maxChars, overlap, ws)
    ensures InOrder(gs + ShiftedAll(pos, ws), pos + |line| + 1)
  {
    hide Chained;
    forall i, j | 0 <= i < j < |ws|
      ensures ws[i].start < ws[j].start
    {
      WindowsIncrease(u, line, maxChars, Normalized(maxChars, overlap), ws, i, j);
    }
    forall k | 0 <= k < |ws|
      ensures ws[k].start <= |line|
    {
      WindowsInside(u, line, maxChars, overlap, ws, k);
    }
    hide WindowsOf;
    var more := ShiftedAll(pos, ws);
    hide ShiftedAll;
    AppendInOrder(gs, more, pos, pos + |line| + 1);
  }

  lemma AppendInOrder(gs: seq<Window>, more: seq<Window>, pos: nat, end: nat)
    requires InOrder(gs, pos) && InOrder(more, end) && pos <= end && forall k :: 0 <= k < |more| ==> pos <= more[k].start
    ensures InOrder(gs + more, end)
  {
    var all := gs + more;
    forall i, j | 0 <= i < j < |all|
      ensures all[i].start < all[j].start
    {
      if j >= |gs| {
        assert all[j] == more[j - |gs|];
        assert i >= |gs| ==> all[i] == more[i - |gs|];
      }
    }
  }

  ghost predicate AreUnits(u: Tables, text: string, maxChars: int, overlap: int, out: seq<Piece>) {
    exists gs :: UnitsOf(u, text, maxChars, overlap, gs) && Increasing(gs) && ArePieces(text, gs, out)
  }

  /** The units of a text; `gs` are their windows. */
  method SplitUnits(u: Tables, text: string, maxChars: int, overlap: int) returns (out: seq<Piece>, ghost gs: seq<Window>)
    ensures AreUnits(u, text, maxChars, overlap, out)
    ensures UnitsOf(u, text, maxChars, overlap, gs) && Increasing(gs) && ArePieces(text, gs, out)
  {
    hide UnitsBefore, WindowsOf, Blank, ArePieces, PieceOf, ByteLen, Increasing, AreWindows;
    NoUnits(u, text, maxChars, overlap);
    out, gs := [], [];
    var pos: nat, offset: nat := 0, 0;
    while true
      invariant pos <= |text| && offset == ByteLen(text[..pos]) && (pos == 0 || text[pos - 1] == '\n')
      invariant UnitsBefore(u, text, maxChars, overlap, gs, pos) && InOrder(gs, pos) && ArePieces(text, gs, out)
      decreases |text| - pos
    {
      var end := LineEnd(text, pos);
      var line := text[pos..end];
      if !Blank(u, line) {
        var ws, cut := WindowLine(u, line, maxChars, overlap);
        LineAdded(u, text, maxChars, overlap, gs, pos, cut);
        OrderGrows(u, line, maxChars, overlap, gs, pos, cut);
        out := AppendShifted(text, pos, end, offset, ws, cut, gs, out);
        gs := gs + ShiftedAll(pos, cut);
      } else {
        BlankLineSkipped(u, text, maxChars, overlap, gs, pos);
      }
      if end == |text| {
        return;
      }
      NextOffset(text, pos, end + 1);
      offset := offset + ByteLen(text[pos..end + 1]);
      pos := end + 1;
    }
  }

  lemma NoUnits(u: Tables, text: string, maxChars: int, overlap: int)
    ensures UnitsBefore(u, text, maxChars, overlap, [], 0) && InOrder([], 0) && ArePieces(text, [], []) && ByteLen(text[..0]) == 0
  {
  }

  lemma NextOffset(text: string, pos: nat, next: nat)
    requires pos <= next <= |text|
    ensures ByteLen(text[..next]) == ByteLen(text[..pos]) + ByteLen(text[pos..next])
  {
    assert text[..next] == text[..pos] + text[pos..next];
    ByteLenConcat(text[..pos], text[pos..next]);
  }

  method AppendShifted(text: string, pos: nat, end: nat, offset: nat, ws: seq<Piece>, ghost cut: seq<Window>, ghost gs: seq<Window>, out: seq<Piece>)
    returns (r: seq<Piece>)
    requires pos <= end <= |text| && offset == ByteLen(text[..pos]) && ArePieces(text, gs, out)
    requires ArePieces(text[pos..end], cut, ws)
    ensures ArePieces(text, gs + ShiftedAll(pos, cut), r)
  {
    r := out;
    ghost var all := gs + ShiftedAll(pos, cut);
    for k := 0 to |ws|
      invariant |r| == |out| + k
      invariant forall j :: 0 <= j < |r| ==> all[j].start <= all[j].end <= |text| && r[j] == PieceOf(text, all[j])
    {
      PieceShifted(text, pos, end, cut[k]);
      assert all[|out| + k] == Shifted(pos, cut[k]);
      r := r + [Piece(offset + ws[k].offset, ws[k].text)];
    }
  }

  // ---- What the units are ----

  /** A unit is a piece of one line: it is not empty, holds no newline and is as long as allowed. */
  lemma UnitInLine(u: Tables, text: string, maxChars: int, overlap: int, gs: seq<Window>, k: nat)
    requires UnitsOf(u, text, maxChars, overlap, gs) && k < |gs|
    ensures gs[k].start < gs[k].end <= |text| && forall c :: gs[k].start <= c < gs[k].end ==> text[c] != '\n'
    ensures maxChars > 0 ==> gs[k].end - gs[k].start <= maxChars
  {
    assert FromLine(u, text, maxChars, overlap, gs[k]);
    hide UnitsOf, WindowsOf;
    var p: nat, e: nat, ws, m: nat :| IsWindowOfLine(u, text, maxChars, overlap, gs[k], p, e, ws, m);
    TrimBlank(u, text[p..e]);
    WindowsInside(u, text[p..e], maxChars, overlap, ws, m);
  }

  /** A span of a line that is not blank: short enough and starting a word of the line, or in a
      line that is one window. */
  ghost predicate SeenWholeInText(u: Tables, text: string, maxChars: int, overlap: int, a: nat, b: nat) {
    exists p, e :: IsSeenInLine(u, text, maxChars, overlap, a, b, p, e)
  }

  ghost predicate IsSeenInLine(u: Tables, text: string, maxChars: int, overlap: int, a: nat, b: nat, p: nat, e: nat) {
    && IsLine(text, p, e) && !Blank(u, text[p..e])
    && p <= a < b <= e && SeenWhole(u, text[p..e], maxChars, overlap, a - p, b - p)
  }

  /** Every such span lies whole in some unit. */
  lemma SeenInSomeUnit(u: Tables, text: string, maxChars: int, overlap: int, gs: seq<Window>, a: nat, b: nat)
    requires UnitsOf(u, text, maxChars, overlap, gs) && SeenWholeInText(u, text, maxChars, overlap, a, b)
    ensures exists k :: 0 <= k < |gs| && Inside(gs[k], a, b)
  {
    hide WindowsOf, SeenWhole, Blank;
    var p: nat, e: nat :| IsSeenInLine(u, text, maxChars, overlap, a, b, p, e);
    assert HoldsLine(u, text, maxChars, overlap, gs, p, e);
    var ws, k: nat :| HoldsWindows(u, text[p..e], maxChars, overlap, gs, p, ws, k);
    SeenInSomeWindow(u, text[p..e], maxChars, overlap, ws, a - p, b - p);
    var m :| 0 <= m < |ws| && Inside(ws[m], a - p, b - p);
    assert Inside(gs[k + m], a, b);
  }

  /** Every character of a line that is not blank lies in some unit. */
  lemma UnitsCover(u: Tables, text: string, maxChars: int, overlap: int, gs: seq<Window>, p: nat, e: nat, c: nat)
    requires UnitsOf(u, text, maxChars, overlap, gs) && IsLine(text, p, e) && !Blank(u, text[p..e]) && p <= c < e
    ensures exists k :: 0 <= k < |gs| && Inside(gs[k], c, c + 1)
  {
    hide WindowsOf, Blank;
    assert HoldsLine(u, text, maxChars, overlap, gs, p, e);
    var line := text[p..e];
    var ws, k: nat :| HoldsWindows(u, line, maxChars, overlap, gs, p, ws, k);
    CharInSomeWindow(u, line, maxChars, overlap, ws, c - p);
    var m :| 0 <= m < |ws| && Inside(ws[m], c - p, c - p + 1);
    assert Inside(gs[k + m], c, c + 1);
  }

  lemma CharInSomeWindow(u: Tables, line: string, maxChars: int, overlap: int, ws: seq<Window>, c: nat)
    requires WindowsOf(u, line, maxChars, overlap, ws) && c < |line|
    ensures exists k :: 0 <= k < |ws| && Inside(ws[k], c, c + 1)
  {
    if Fits(line, maxChars) {
      assert Inside(ws[0], c, c + 1);
    } else {
      assert ws[0].start == 0;
      CoversLine(u, line, maxChars, Normalized(maxChars, overlap), ws, 0, c);
    }
  }
}
