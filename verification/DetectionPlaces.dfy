/** Where detectNames puts its detections: byte offsets, texts, scores and order. */
module DetectionPlaces {
  import opened Unicode
  import opened Windows
  import opened NerClient
  import opened Names

  /** A span that counts: of a known label, and not empty. */
  predicate Counts(labels: Labels, s: Span) {
    s.tag in labels && s.start < s.end
  }

  /** d is where the span of the unit stands in the text. */
  predicate PlacedAt(labels: Labels, unit: Piece, s: Span, d: Detection) {
    && Counts(labels, s) && 0 <= s.start && s.end <= |unit.text| && d.typ == labels[s.tag]
    && d.start == unit.offset + ByteLen(unit.text[..s.start]) && d.end == unit.offset + ByteLen(unit.text[..s.end])
  }

  lemma ReportIsPlace(labels: Labels, unit: Piece, s: Span, d: Detection)
    ensures IsReport(labels, unit, s, PlaceOf(d)) <==> PlacedAt(labels, unit, s, d)
  {
    hide ByteLen;
  }

  /** The call fails on a span that counts and reaches outside its unit, and on nothing else. */
  lemma RangesAre(labels: Labels, units: seq<Piece>, results: seq<seq<Span>>)
    requires |results| == |units|
    ensures ResultsInRange(labels, units, results) <==>
            forall i, s :: 0 <= i < |units| && s in results[i] && Counts(labels, s) ==> 0 <= s.start && s.end <= |units[i].text|
  {
    assert forall i :: 0 <= i < |units| ==>
      (AllInRange(labels, units[i], results[i]) <==> forall s :: s in results[i] && Counts(labels, s) ==> 0 <= s.start && s.end <= |units[i].text|);
  }

  /** Every detection comes from a span, with its score. */
  lemma DetectionHasSpan(labels: Labels, text: string, units: seq<Piece>, results: seq<seq<Span>>, out: seq<Detection>, d: Detection)
    requires |results| == |units| && DetectedBy(labels, text, units, results, out) && d in out
    ensures exists i, s :: 0 <= i < |units| && s in results[i] && PlacedAt(labels, units[i], s, d) && d.score == s.score
  {
    hide Filed, Names.InOrder, IsReport, PlacedAt, ByteLen;
    var best: Best :| Filed(text, best) && Merged(labels, units, results, best) && Listed(best, out);
    var p := PlaceOf(d);
    assert Reported(labels, units, results, p, d.score);
    var i :| 0 <= i < |units| && Reports(labels, units[i], results[i], p, d.score);
    var s :| s in results[i] && s.score == d.score && IsReport(labels, units[i], s, p);
    ReportIsPlace(labels, units[i], s, d);
  }

  /** Every span that counts has a detection, whose score is no lower. */
  lemma SpanHasDetection(labels: Labels, text: string, units: seq<Piece>, results: seq<seq<Span>>, out: seq<Detection>, i: nat, s: Span)
    requires |results| == |units| && DetectedBy(labels, text, units, results, out) && ResultsInRange(labels, units, results)
    requires i < |units| && s in results[i] && Counts(labels, s)
    ensures exists d :: d in out && PlacedAt(labels, units[i], s, d) && s.score <= d.score
  {
    hide Filed, Names.InOrder, ByteLen;
    var best: Best :| Filed(text, best) && Merged(labels, units, results, best) && Listed(best, out);
    assert AllInRange(labels, units[i], results[i]) && Relevant(labels, s) && InRange(units[i], s);
    var p := SpanPlace(labels, units[i], s);
    assert IsReport(labels, units[i], s, p) && Reports(labels, units[i], results[i], p, s.score);
    assert Reported(labels, units, results, p, s.score);
    hide Merged, IsReport, SpanPlace;
    assert p in best && best[p] in out;
    FiledAt(text, best, p);
    ReportIsPlace(labels, units[i], s, best[p]);
  }

  lemma FiledAt(text: string, best: Best, p: Place)
    requires Filed(text, best) && p in best
    ensures PlaceOf(best[p]) == p && best[p] == DetectionAt(text, p, best[p].score)
  {
    hide ByteSlice;
  }

  /** The detections come in the order of their starts, then of their ends, no place and type twice. */
  lemma DetectionsInOrder(labels: Labels, text: string, units: seq<Piece>, results: seq<seq<Span>>, out: seq<Detection>, i: nat, j: nat)
    requires |results| == |units| && DetectedBy(labels, text, units, results, out) && i < j < |out|
    ensures out[i].start < out[j].start || (out[i].start == out[j].start && out[i].end <= out[j].end)
    ensures out[i].start != out[j].start || out[i].end != out[j].end || out[i].typ != out[j].typ
  {
    hide Filed, Merged;
    var best: Best :| Filed(text, best) && Merged(labels, units, results, best) && Listed(best, out);
    assert NotAfter(out[i], out[j]) && PlaceOf(out[i]) != PlaceOf(out[j]);
  }

  lemma OffsetInText(text: string, g: Window, k: nat)
    requires g.start <= g.end <= |text| && g.start + k <= g.end
    ensures ByteLen(text[..g.start]) + ByteLen(text[g.start..g.end][..k]) == ByteLen(text[..g.start + k])
  {
    assert text[g.start..g.end][..k] == text[g.start..g.start + k];
    assert text[..g.start + k] == text[..g.start] + text[g.start..g.start + k];
    ByteLenConcat(text[..g.start], text[g.start..g.start + k]);
  }

  /** A slice at the byte offsets of characters a and b. */
  lemma SliceOfBytes(text: string, a: nat, b: nat)
    requires a <= b <= |text|
    ensures ByteSlice(text, ByteLen(text[..a]), ByteLen(text[..b])) == text[a..b]
  {
    CharAtByteLen(text, a);
    CharAtByteLen(text, b);
    hide ByteLen, CharAt;
  }

  lemma SliceInUnit(text: string, g: Window, a: nat, b: nat)
    requires g.start <= g.end <= |text| && a <= b && g.start + b <= g.end
    ensures text[g.start..g.end][a..b] == text[g.start + a..g.start + b]
  {
  }

  lemma TextFiled(labels: Labels, text: string, units: seq<Piece>, results: seq<seq<Span>>, out: seq<Detection>, d: Detection)
    requires |results| == |units| && DetectedBy(labels, text, units, results, out) && d in out
    ensures d.text == ByteSlice(text, d.start, d.end)
  {
    hide Merged, ByteSlice;
    var best: Best :| Filed(text, best) && Merged(labels, units, results, best) && Listed(best, out);
    FiledAt(text, best, PlaceOf(d));
  }

  lemma UnitIsPiece(text: string, gs: seq<Window>, units: seq<Piece>, i: nat) returns (g: Window)
    requires ArePieces(text, gs, units) && i < |units|
    ensures g.start <= g.end <= |text| && units[i].offset == ByteLen(text[..g.start]) && units[i].text == text[g.start..g.end]
  {
    hide ByteLen;
    g := gs[i];
  }

  /** The text of a detection is that of its span. */
  lemma DetectionText(labels: Labels, text: string, gs: seq<Window>, units: seq<Piece>, results: seq<seq<Span>>, out: seq<Detection>, d: Detection, i: nat, s: Span)
    requires |results| == |units| && ArePieces(text, gs, units) && DetectedBy(labels, text, units, results, out) && d in out
    requires i < |units| && PlacedAt(labels, units[i], s, d)
    ensures d.text == units[i].text[s.start..s.end]
  {
    hide *;
    PlacedParts(labels, units[i], s, d);
    var g := PlaceInText(labels, text, gs, units, d, i, s);
    TextFiled(labels, text, units, results, out, d);
    SliceOfBytes(text, g.start + s.start, g.start + s.end);
    SliceInUnit(text, g, s.start, s.end);
  }

  lemma PlaceInText(labels: Labels, text: string, gs: seq<Window>, units: seq<Piece>, d: Detection, i: nat, s: Span) returns (g: Window)
    requires ArePieces(text, gs, units) && i < |units| && PlacedAt(labels, units[i], s, d)
    ensures 0 <= s.start < s.end && g.start + s.end <= g.end <= |text| && units[i].text == text[g.start..g.end]
    ensures d.start == ByteLen(text[..g.start + s.start]) && d.end == ByteLen(text[..g.start + s.end])
  {
    hide *;
    PlacedParts(labels, units[i], s, d);
    g := UnitIsPiece(text, gs, units, i);
    OffsetInText(text, g, s.start);
    OffsetInText(text, g, s.end);
  }

  lemma PlacedParts(labels: Labels, unit: Piece, s: Span, d: Detection)
    requires PlacedAt(labels, unit, s, d)
    ensures 0 <= s.start < s.end <= |unit.text|
    ensures d.start == unit.offset + ByteLen(unit.text[..s.start]) && d.end == unit.offset + ByteLen(unit.text[..s.end])
  {
    hide ByteLen;
  }
}
