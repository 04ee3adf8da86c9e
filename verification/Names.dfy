/** detectNames: what the span model reports in the units of a text, as detections in the text. */
module Names {
  import opened Unicode
  import opened Windows
  import opened NerClient
  import NerCache
  import opened SpanCache

  /** A detection in byte offsets of the text. */
  datatype Detection = Detection(typ: string, start: nat, end: nat, score: real, text: string)

  /** Where a detection is and of what type: detections of one place are one. */
  datatype Place = Place(start: nat, end: nat, typ: string)

  /** Model label to entity type. */
  type Labels = map<string, string>

  function PlaceOf(d: Detection): Place { Place(d.start, d.end, d.typ) }

  // ---- Byte slices ----

  /** The character at byte offset b. */
  function CharAt(text: string, b: nat): (i: nat)
    ensures i <= |text|
  {
    if text == [] || b == 0 then 0
    else 1 + CharAt(text[1..], if b > Width(text[0]) then b - Width(text[0]) else 0)
  }

  lemma {:induction false} CharAtByteLen(text: string, i: nat)
    requires i <= |text|
    ensures CharAt(text, ByteLen(text[..i])) == i
  {
    if i > 0 {
      assert text[..i] == [text[0]] + text[1..][..i - 1];
      ByteLenConcat([text[0]], text[1..][..i - 1]);
      CharAtByteLen(text[1..], i - 1);
    }
  }

  /** text[start:end] in byte offsets. */
  function ByteSlice(text: string, start: nat, end: nat): string {
    if CharAt(text, start) <= CharAt(text, end) then text[CharAt(text, start)..CharAt(text, end)] else []
  }

  // ---- Reports ----

  predicate Relevant(labels: Labels, s: Span) {
    s.tag in labels && s.start < s.end
  }

  predicate InRange(unit: Piece, s: Span) {
    0 <= s.start <= |unit.text| && 0 <= s.end <= |unit.text|
  }

  /** The place in the text of a span of a unit. */
  function SpanPlace(labels: Labels, unit: Piece, s: Span): Place
    requires Relevant(labels, s) && InRange(unit, s)
  {
    Place(unit.offset + ByteLen(unit.text[..s.start]), unit.offset + ByteLen(unit.text[..s.end]), labels[s.tag])
  }

  predicate IsReport(labels: Labels, unit: Piece, s: Span, p: Place) {
    Relevant(labels, s) && InRange(unit, s) && SpanPlace(labels, unit, s) == p
  }

  /** Some span of the unit reports p with this score. */
  ghost predicate Reports(labels: Labels, unit: Piece, spans: seq<Span>, p: Place, score: real) {
    exists s :: s in spans && s.score == score && IsReport(labels, unit, s, p)
  }

  ghost predicate AllInRange(labels: Labels, unit: Piece, spans: seq<Span>) {
    forall s :: s in spans && Relevant(labels, s) ==> InRange(unit, s)
  }

  // ---- Merging ----

  type Best = map<Place, Detection>

  function DetectionAt(text: string, p: Place, score: real): Detection {
    Detection(p.typ, p.start, p.end, score, ByteSlice(text, p.start, p.end))
  }

  ghost predicate Filed(text: string, best: Best) {
    forall p :: p in best ==> best[p] == DetectionAt(text, p, best[p].score)
  }

  /** after is before with the spans taken in: nothing lost, every report there, no score without
      a report, none below a report's. */
  ghost predicate TakesIn(labels: Labels, unit: Piece, spans: seq<Span>, before: Best, after: Best) {
    forall p :: TakesInAt(labels, unit, spans, before, after, p)
  }

  ghost predicate TakesInAt(labels: Labels, unit: Piece, spans: seq<Span>, before: Best, after: Best, p: Place) {
    && (p in before ==> p in after && before[p].score <= after[p].score)
    && (forall x :: Reports(labels, unit, spans, p, x) ==> p in after && x <= after[p].score)
    && (p in after ==> (p in before && after[p].score == before[p].score) || Reports(labels, unit, spans, p, after[p].score))
  }

  /** after is best with one span taken in: the higher score stays. */
  ghost predicate TakesSpan(labels: Labels, unit: Piece, s: Span, best: Best, after: Best) {
    if Relevant(labels, s) then
      InRange(unit, s) && Keeps(SpanPlace(labels, unit, s), s.score, best, after)
    else after == best
  }

  predicate Keeps(p: Place, score: real, best: Best, after: Best) {
    if p in best && best[p].score >= score then after == best
    else p in after && after[p].score == score && after == best[p := after[p]]
  }

  lemma TakesInOne(labels: Labels, unit: Piece, spans: seq<Span>, s: Span, before: Best, best: Best, after: Best)
    requires TakesIn(labels, unit, spans, before, best) && TakesSpan(labels, unit, s, best, after)
    ensures TakesIn(labels, unit, spans + [s], before, after)
  {
    hide TakesInAt;
    forall p
      ensures TakesInAt(labels, unit, spans + [s], before, after, p)
    {
      assert TakesInAt(labels, unit, spans, before, best, p);
      TakesInOneAt(labels, unit, spans, s, before, best, after, p);
    }
  }

  lemma TakesInOneAt(labels: Labels, unit: Piece, spans: seq<Span>, s: Span, before: Best, best: Best, after: Best, p: Place)
    requires TakesInAt(labels, unit, spans, before, best, p) && TakesSpan(labels, unit, s, best, after)
    ensures TakesInAt(labels, unit, spans + [s], before, after, p)
  {
    forall x
      ensures Reports(labels, unit, spans + [s], p, x) <==> Reports(labels, unit, spans, p, x) || (s.score == x && IsReport(labels, unit, s, p))
    {
      ReportsMore(labels, unit, spans, s, p, x);
    }
    hide Reports, SpanPlace, Relevant, InRange;
  }

  lemma ReportsMore(labels: Labels, unit: Piece, spans: seq<Span>, s: Span, p: Place, x: real)
    ensures Reports(labels, unit, spans + [s], p, x) <==> Reports(labels, unit, spans, p, x) || (s.score == x && IsReport(labels, unit, s, p))
  {
    hide IsReport;
    assert forall t :: t in spans + [s] <==> t in spans || t == s;
  }

  /** One span; false if it is out of range. */
  method TakeSpan(labels: Labels, text: string, unit: Piece, s: Span, best: Best) returns (ok: bool, after: Best)
    requires Filed(text, best)
    ensures ok <==> (Relevant(labels, s) ==> InRange(unit, s))
    ensures ok ==> Filed(text, after) && TakesSpan(labels, unit, s, best, after)
  {
    hide ByteSlice, ByteLen;
    if s.tag !in labels || s.start >= s.end {
      return true, best;
    }
    var chars := [s.start, s.end];
    assert chars[0] == s.start && chars[1] == s.end;
    var b := CharToByte(unit.text, chars);
    if b.OutOfRange? {
      return false, best;
    }
    var k := Place(unit.offset + b.bytes[0], unit.offset + b.bytes[1], labels[s.tag]);
    if k in best && best[k].score >= s.score {
      return true, best;
    }
    return true, best[k := DetectionAt(text, k, s.score)];
  }

  /** The spans of one unit; false if one is out of range. */
  method MergeUnit(labels: Labels, text: string, unit: Piece, spans: seq<Span>, before: Best) returns (ok: bool, best: Best)
    requires Filed(text, before)
    ensures ok <==> AllInRange(labels, unit, spans)
    ensures ok ==> Filed(text, best) && TakesIn(labels, unit, spans, before, best)
  {
    hide TakesSpan, Relevant, InRange, Filed;
    best := before;
    assert spans[..0] == [];
    for j := 0 to |spans|
      invariant forall k :: 0 <= k < j && Relevant(labels, spans[k]) ==> InRange(unit, spans[k])
      invariant Filed(text, best) && TakesIn(labels, unit, spans[..j], before, best)
    {
      hide TakesIn;
      ghost var was := best;
      ok, best := TakeSpan(labels, text, unit, spans[j], best);
      if !ok {
        return false, best;
      }
      TakesInOne(labels, unit, spans[..j], spans[j], before, was, best);
      assert spans[..j + 1] == spans[..j] + [spans[j]];
    }
    assert spans[..|spans|] == spans;
    return true, best;
  }

  // ---- All units ----

  /** Some unit reports p with this score. */
  ghost predicate Reported(labels: Labels, units: seq<Piece>, results: seq<seq<Span>>, p: Place, score: real)
    requires |results| == |units|
  {
    exists i :: 0 <= i < |units| && Reports(labels, units[i], results[i], p, score)
  }

  /** Every place reported, each with the highest score it is reported with, and no other. */
  ghost predicate Merged(labels: Labels, units: seq<Piece>, results: seq<seq<Span>>, best: Best)
    requires |results| == |units|
  {
    && (forall p, x :: Reported(labels, units, results, p, x) ==> p in best && x <= best[p].score)
    && (forall p :: p in best ==> Reported(labels, units, results, p, best[p].score))
  }

  ghost predicate ResultsInRange(labels: Labels, units: seq<Piece>, results: seq<seq<Span>>)
    requires |results| == |units|
  {
    forall i :: 0 <= i < |units| ==> AllInRange(labels, units[i], results[i])
  }

  lemma MergedMore(labels: Labels, units: seq<Piece>, results: seq<seq<Span>>, unit: Piece, spans: seq<Span>, best: Best, after: Best)
    requires |results| == |units| && Merged(labels, units, results, best) && TakesIn(labels, unit, spans, best, after)
    ensures Merged(labels, units + [unit], results + [spans], after)
  {
    hide Reports;
    forall p, x
      ensures Reported(labels, units + [unit], results + [spans], p, x)
          <==> Reported(labels, units, results, p, x) || Reports(labels, unit, spans, p, x)
    {
      ReportedMore(labels, units, results, unit, spans, p, x);
    }
    hide Reported;
    var us, rs := units + [unit], results + [spans];
    forall p, x | Reported(labels, us, rs, p, x)
      ensures p in after && x <= after[p].score
    {
      assert TakesInAt(labels, unit, spans, best, after, p);
    }
    forall p | p in after
      ensures Reported(labels, us, rs, p, after[p].score)
    {
      assert TakesInAt(labels, unit, spans, best, after, p);
    }
  }

  lemma ReportedMore(labels: Labels, units: seq<Piece>, results: seq<seq<Span>>, unit: Piece, spans: seq<Span>, p: Place, x: real)
    requires |results| == |units|
    ensures Reported(labels, units + [unit], results + [spans], p, x)
        <==> Reported(labels, units, results, p, x) || Reports(labels, unit, spans, p, x)
  {
    hide Reports;
    var us, rs := units + [unit], results + [spans];
    assert us[|units|] == unit && rs[|units|] == spans;
    assert forall i :: 0 <= i < |units| ==> us[i] == units[i] && rs[i] == results[i];
  }

  method MergeUnits(labels: Labels, text: string, units: seq<Piece>, results: seq<seq<Span>>) returns (ok: bool, best: Best)
    requires |results| == |units|
    ensures ok <==> ResultsInRange(labels, units, results)
    ensures ok ==> Filed(text, best) && Merged(labels, units, results, best)
  {
    hide AllInRange, Filed;
    best := NoBest(text, labels);
    assert units[..0] == [] && results[..0] == [];
    for i := 0 to |units|
      invariant forall k :: 0 <= k < i ==> AllInRange(labels, units[k], results[k])
      invariant Filed(text, best) && Merged(labels, units[..i], results[..i], best)
    {
      hide Merged, TakesIn;
      ghost var was := best;
      ok, best := MergeUnit(labels, text, units[i], results[i], best);
      if !ok {
        return false, best;
      }
      MergedMore(labels, units[..i], results[..i], units[i], results[i], was, best);
      assert units[..i + 1] == units[..i] + [units[i]] && results[..i + 1] == results[..i] + [results[i]];
    }
    assert units[..|units|] == units && results[..|units|] == results;
    return true, best;
  }

  function NoBest(text: string, labels: Labels): (best: Best)
    ensures Filed(text, best) && Merged(labels, [], [], best)
  {
    map[]
  }

  // ---- Order ----

  predicate NotAfter(d: Detection, e: Detection) {
    d.start < e.start || (d.start == e.start && d.end <= e.end)
  }

  /** In the order of the text, each place once. */
  ghost predicate InOrder(out: seq<Detection>) {
    forall i, j :: 0 <= i < j < |out| ==> NotAfter(out[i], out[j]) && PlaceOf(out[i]) != PlaceOf(out[j])
  }

  /** out lists best in the order of the text, each place once. */
  ghost predicate Listed(best: Best, out: seq<Detection>) {
    && InOrder(out)
    && (forall p :: p in best ==> best[p] in out)
    && (forall d :: d in out ==> PlaceOf(d) in best && best[PlaceOf(d)] == d)
  }

  function Insert(d: Detection, out: seq<Detection>): (r: seq<Detection>)
    ensures forall e :: e in r <==> e == d || e in out
  {
    if out == [] || NotAfter(d, out[0]) then [d] + out
    else
      assert out == [out[0]] + out[1..];
      [out[0]] + Insert(d, out[1..])
  }

  lemma {:induction false} InsertInOrder(d: Detection, out: seq<Detection>)
    requires InOrder(out) && forall e :: e in out ==> PlaceOf(e) != PlaceOf(d)
    ensures InOrder(Insert(d, out))
  {
    if out != [] && !NotAfter(d, out[0]) {
      assert out == [out[0]] + out[1..];
      InsertInOrder(d, out[1..]);
      var rest := Insert(d, out[1..]);
      forall e | e in rest
        ensures NotAfter(out[0], e) && PlaceOf(out[0]) != PlaceOf(e)
      {
        if e != d {
          var j :| 0 <= j < |out[1..]| && out[1..][j] == e;
          assert out[j + 1] == e;
        }
      }
    }
  }

  /** The detections of best, sorted. */
  method SortByPlace(text: string, best: Best) returns (out: seq<Detection>)
    requires Filed(text, best)
    ensures Listed(best, out)
  {
    out := [];
    var todo := best.Keys;
    while todo != {}
      invariant todo <= best.Keys && InOrder(out)
      invariant forall p :: p in best && p !in todo ==> best[p] in out
      invariant forall d :: d in out ==> PlaceOf(d) in best && PlaceOf(d) !in todo && best[PlaceOf(d)] == d
      decreases |todo|
    {
      var p :| p in todo;
      hide ByteSlice;
      assert PlaceOf(best[p]) == p;
      InsertInOrder(best[p], out);
      out := Insert(best[p], out);
      todo := todo - {p};
    }
  }

  /** What detectNames makes of the model's answers. */
  ghost predicate DetectedBy(labels: Labels, text: string, units: seq<Piece>, results: seq<seq<Span>>, out: seq<Detection>)
    requires |results| == |units|
  {
    exists best :: Filed(text, best) && Merged(labels, units, results, best) && Listed(best, out)
  }

  /** Merging the answers: fails if a span of a known label lies outside its unit. */
  method MergeResults(labels: Labels, text: string, units: seq<Piece>, results: seq<seq<Span>>) returns (ok: bool, out: seq<Detection>)
    requires |results| == |units|
    ensures ok <==> ResultsInRange(labels, units, results)
    ensures ok ==> DetectedBy(labels, text, units, results, out)
  {
    hide Filed, Merged, Listed, ResultsInRange;
    var best: Best;
    ok, best := MergeUnits(labels, text, units, results);
    if !ok {
      return false, [];
    }
    out := SortByPlace(text, best);
  }

  // ---- Restricted answers ----

  /** Leaving out spans of other labels changes no report. */
  lemma RestrictedReports(labels: Labels, asked: seq<string>, unit: Piece, spans: seq<Span>, p: Place, x: real)
    requires forall l :: l in labels ==> l in asked
    ensures Reports(labels, unit, Restricted(spans, asked), p, x) <==> Reports(labels, unit, spans, p, x)
  {
    hide SpanPlace, InRange;
  }

  lemma RestrictedInRange(labels: Labels, asked: seq<string>, unit: Piece, spans: seq<Span>)
    requires forall l :: l in labels ==> l in asked
    ensures AllInRange(labels, unit, Restricted(spans, asked)) <==> AllInRange(labels, unit, spans)
  {
    hide InRange;
  }

  /** Cache transparency: answers that may lack the spans of other labels give the detections, or
      the failure, that the model's own answers give. */
  lemma CacheTransparent(labels: Labels, asked: seq<string>, text: string, units: seq<Piece>, served: seq<seq<Span>>, full: seq<seq<Span>>, out: seq<Detection>)
    requires |served| == |full| == |units| && forall l :: l in labels ==> l in asked
    requires forall i :: 0 <= i < |units| ==> served[i] == full[i] || served[i] == Restricted(full[i], asked)
    ensures ResultsInRange(labels, units, served) <==> ResultsInRange(labels, units, full)
    ensures DetectedBy(labels, text, units, served, out) <==> DetectedBy(labels, text, units, full, out)
  {
    hide Reports, AllInRange, Filed, Listed;
    forall i, p, x | 0 <= i < |units|
      ensures Reports(labels, units[i], served[i], p, x) <==> Reports(labels, units[i], full[i], p, x)
    {
      RestrictedReports(labels, asked, units[i], full[i], p, x);
    }
    forall i | 0 <= i < |units|
      ensures AllInRange(labels, units[i], served[i]) <==> AllInRange(labels, units[i], full[i])
    {
      RestrictedInRange(labels, asked, units[i], full[i]);
    }
    assert forall p, x :: Reported(labels, units, served, p, x) <==> Reported(labels, units, full, p, x);
    hide Reported;
    assert forall best :: Merged(labels, units, served, best) <==> Merged(labels, units, full, best);
  }

  // ---- Ideal detection ----

  /** Characters [start, end) of the text are a name the model calls `tag`. */
  datatype Name = Name(start: nat, end: nat, tag: string)

  /** The span by which the unit cut out at g reports the name. */
  predicate SpanOf(g: Window, nm: Name, s: Span) {
    s.tag == nm.tag && s.start == nm.start - g.start && s.end == nm.end - g.start
  }

  /** The model reports exactly the names that lie whole in the unit. */
  ghost predicate ReportsNames(labels: Labels, names: set<Name>, g: Window, spans: seq<Span>) {
    && (forall nm :: nm in names && Inside(g, nm.start, nm.end) ==> exists s :: s in spans && SpanOf(g, nm, s))
    && (forall s :: s in spans && Relevant(labels, s) ==> exists nm :: nm in names && Inside(g, nm.start, nm.end) && SpanOf(g, nm, s))
  }

  function NamePlace(labels: Labels, text: string, nm: Name): Place
    requires nm.tag in labels && nm.start <= nm.end <= |text|
  {
    Place(ByteLen(text[..nm.start]), ByteLen(text[..nm.end]), labels[nm.tag])
  }

  lemma SpanOfName(labels: Labels, text: string, g: Window, nm: Name, s: Span)
    requires g.start <= g.end <= |text| && nm.start < nm.end && Inside(g, nm.start, nm.end) && nm.tag in labels && SpanOf(g, nm, s)
    ensures IsReport(labels, PieceOf(text, g), s, NamePlace(labels, text, nm))
  {
    PieceByteLen(text, g, s.start);
    PieceByteLen(text, g, s.end);
    hide ByteLen;
  }

  lemma PieceByteLen(text: string, g: Window, k: nat)
    requires g.start <= g.end <= |text| && k <= g.end - g.start
    ensures PieceOf(text, g).offset + ByteLen(PieceOf(text, g).text[..k]) == ByteLen(text[..g.start + k])
  {
    assert PieceOf(text, g).text[..k] == text[g.start..g.start + k];
    NextOffset(text, g.start, g.start + k);
  }

  ghost predicate NamesIn(labels: Labels, text: string, names: set<Name>) {
    forall nm :: nm in names ==> nm.tag in labels && nm.start < nm.end <= |text|
  }

  /** The names of the text, reported unit by unit. */
  ghost predicate IdealModel(u: Tables, text: string, maxChars: int, overlap: int, labels: Labels, names: set<Name>,
      gs: seq<Window>, units: seq<Piece>, results: seq<seq<Span>>) {
    && UnitsOf(u, text, maxChars, overlap, gs) && ArePieces(text, gs, units) && |results| == |units|
    && NamesIn(labels, text, names)
    && (forall i :: 0 <= i < |units| ==> ReportsNames(labels, names, gs[i], results[i]))
  }

  lemma IdealUnit(u: Tables, text: string, maxChars: int, overlap: int, labels: Labels, names: set<Name>,
      gs: seq<Window>, units: seq<Piece>, results: seq<seq<Span>>, k: nat)
    requires IdealModel(u, text, maxChars, overlap, labels, names, gs, units, results) && k < |gs|
    ensures |units| == |results| == |gs| && gs[k].start <= gs[k].end <= |text|
    ensures units[k] == PieceOf(text, gs[k]) && ReportsNames(labels, names, gs[k], results[k])
  {
    hide UnitsOf, ReportsNames;
  }

  lemma ReportedInUnit(labels: Labels, text: string, names: set<Name>, g: Window, spans: seq<Span>, nm: Name)
    requires ReportsNames(labels, names, g, spans) && g.start <= g.end <= |text|
    requires nm in names && nm.tag in labels && nm.start < nm.end && Inside(g, nm.start, nm.end)
    ensures exists x :: Reports(labels, PieceOf(text, g), spans, NamePlace(labels, text, nm), x)
  {
    hide NamePlace, PieceOf, IsReport;
    var s :| s in spans && SpanOf(g, nm, s);
    SpanOfName(labels, text, g, nm, s);
    assert Reports(labels, PieceOf(text, g), spans, NamePlace(labels, text, nm), s.score);
  }

  lemma NameReported(u: Tables, text: string, maxChars: int, overlap: int, labels: Labels, names: set<Name>,
      gs: seq<Window>, units: seq<Piece>, results: seq<seq<Span>>, nm: Name)
    requires |results| == |units| && nm in names && nm.tag in labels && nm.start < nm.end <= |text|
    requires UnitsOf(u, text, maxChars, overlap, gs) && SeenWholeInText(u, text, maxChars, overlap, nm.start, nm.end)
    requires IdealModel(u, text, maxChars, overlap, labels, names, gs, units, results)
    ensures exists x :: Reported(labels, units, results, NamePlace(labels, text, nm), x)
  {
    hide UnitsOf, SeenWholeInText, NamePlace, PieceOf, IsReport, Reports, ReportsNames, IdealModel;
    SeenInSomeUnit(u, text, maxChars, overlap, gs, nm.start, nm.end);
    var k :| 0 <= k < |gs| && Inside(gs[k], nm.start, nm.end);
    IdealUnit(u, text, maxChars, overlap, labels, names, gs, units, results, k);
    ReportedInUnit(labels, text, names, gs[k], results[k], nm);
    var x :| Reports(labels, units[k], results[k], NamePlace(labels, text, nm), x);
    assert Reported(labels, units, results, NamePlace(labels, text, nm), x);
  }

  lemma ReportIsName(u: Tables, text: string, maxChars: int, overlap: int, labels: Labels, names: set<Name>,
      gs: seq<Window>, units: seq<Piece>, results: seq<seq<Span>>, p: Place, x: real)
    requires IdealModel(u, text, maxChars, overlap, labels, names, gs, units, results)
    requires Reported(labels, units, results, p, x)
    ensures exists nm :: nm in names && NamePlace(labels, text, nm) == p
  {
    hide UnitsOf, NamePlace, PieceOf, SpanPlace, InRange;
    var i :| 0 <= i < |units| && Reports(labels, units[i], results[i], p, x);
    var s :| s in results[i] && s.score == x && IsReport(labels, units[i], s, p);
    assert ReportsNames(labels, names, gs[i], results[i]);
    var nm :| nm in names && Inside(gs[i], nm.start, nm.end) && SpanOf(gs[i], nm, s);
    SpanOfName(labels, text, gs[i], nm, s);
  }

  lemma IdealInRange(u: Tables, text: string, maxChars: int, overlap: int, labels: Labels, names: set<Name>,
      gs: seq<Window>, units: seq<Piece>, results: seq<seq<Span>>)
    requires IdealModel(u, text, maxChars, overlap, labels, names, gs, units, results)
    ensures ResultsInRange(labels, units, results)
  {
    hide UnitsOf;
    forall i, s | 0 <= i < |units| && s in results[i] && Relevant(labels, s)
      ensures InRange(units[i], s)
    {
      assert ReportsNames(labels, names, gs[i], results[i]);
      var nm :| nm in names && Inside(gs[i], nm.start, nm.end) && SpanOf(gs[i], nm, s);
      SpanOfName(labels, text, gs[i], nm, s);
    }
  }

  lemma NameText(labels: Labels, text: string, nm: Name, x: real)
    requires nm.tag in labels && nm.start < nm.end <= |text|
    ensures DetectsName(labels, text, nm, DetectionAt(text, NamePlace(labels, text, nm), x))
  {
    CharAtByteLen(text, nm.start);
    CharAtByteLen(text, nm.end);
    hide ByteLen, CharAt;
  }

  /** d is nm: its place and its text. */
  ghost predicate DetectsName(labels: Labels, text: string, nm: Name, d: Detection) {
    && nm.tag in labels && nm.start <= nm.end <= |text|
    && PlaceOf(d) == NamePlace(labels, text, nm) && d.text == text[nm.start..nm.end]
  }

  /** The detections are the names: each name once per type, and nothing else. */
  ghost predicate AreTheNames(labels: Labels, text: string, names: set<Name>, out: seq<Detection>) {
    && (forall i, j :: 0 <= i < j < |out| ==> PlaceOf(out[i]) != PlaceOf(out[j]))
    && (forall nm :: nm in names ==> exists d :: d in out && DetectsName(labels, text, nm, d))
    && (forall d :: d in out ==> exists nm :: nm in names && DetectsName(labels, text, nm, d))
  }

  /** Windowed detection is ideal detection: if in every unit the model reports exactly the names
      lying whole inside it, and every name is short enough and starts a word, or lies in a line
      that is one window, then the detections are the names, each once per type, with its byte
      offsets and its text, and nothing else. */
  lemma IdealDetection(u: Tables, text: string, maxChars: int, overlap: int, labels: Labels, names: set<Name>,
      gs: seq<Window>, units: seq<Piece>, results: seq<seq<Span>>, out: seq<Detection>)
    requires |results| == |units| && DetectedBy(labels, text, units, results, out)
    requires forall nm :: nm in names ==> SeenWholeInText(u, text, maxChars, overlap, nm.start, nm.end)
    requires IdealModel(u, text, maxChars, overlap, labels, names, gs, units, results)
    ensures AreTheNames(labels, text, names, out)
  {
    hide IdealModel, Merged, SeenWholeInText, AreTheNames, Filed, Listed;
    var best: Best :| Filed(text, best) && Merged(labels, units, results, best) && Listed(best, out);
    forall nm | nm in names
      ensures NameIn(labels, text, best, nm)
    {
      NameDetected(u, text, maxChars, overlap, labels, names, gs, units, results, best, nm);
    }
    forall p | p in best
      ensures IsNamed(labels, text, best, names, p)
    {
      DetectedIsName(u, text, maxChars, overlap, labels, names, gs, units, results, best, p);
    }
    ListedAreTheNames(labels, text, names, best, out);
  }

  ghost predicate NameIn(labels: Labels, text: string, best: Best, nm: Name) {
    exists p :: p in best && DetectsName(labels, text, nm, best[p])
  }

  ghost predicate IsNamed(labels: Labels, text: string, best: Best, names: set<Name>, p: Place) {
    p in best && exists nm :: nm in names && DetectsName(labels, text, nm, best[p])
  }

  lemma ListedAreTheNames(labels: Labels, text: string, names: set<Name>, best: Best, out: seq<Detection>)
    requires Listed(best, out)
    requires forall nm :: nm in names ==> NameIn(labels, text, best, nm)
    requires forall p :: p in best ==> IsNamed(labels, text, best, names, p)
    ensures AreTheNames(labels, text, names, out)
  {
    hide DetectsName, NotAfter;
    forall d | d in out
      ensures exists nm :: nm in names && DetectsName(labels, text, nm, d)
    {
      assert IsNamed(labels, text, best, names, PlaceOf(d));
    }
  }

  lemma NameDetected(u: Tables, text: string, maxChars: int, overlap: int, labels: Labels, names: set<Name>,
      gs: seq<Window>, units: seq<Piece>, results: seq<seq<Span>>, best: Best, nm: Name)
    requires |results| == |units| && Filed(text, best) && Merged(labels, units, results, best)
    requires nm in names && SeenWholeInText(u, text, maxChars, overlap, nm.start, nm.end)
    requires IdealModel(u, text, maxChars, overlap, labels, names, gs, units, results)
    ensures NameIn(labels, text, best, nm)
  {
    hide IdealModel, Reported, SeenWholeInText, DetectsName, NamePlace, ByteSlice, DetectionAt, UnitsOf;
    NamesOfIdeal(u, text, maxChars, overlap, labels, names, gs, units, results);
    NameReported(u, text, maxChars, overlap, labels, names, gs, units, results, nm);
    var p := NamePlace(labels, text, nm);
    var x :| Reported(labels, units, results, p, x);
    NameText(labels, text, nm, best[p].score);
  }

  lemma DetectedIsName(u: Tables, text: string, maxChars: int, overlap: int, labels: Labels, names: set<Name>,
      gs: seq<Window>, units: seq<Piece>, results: seq<seq<Span>>, best: Best, p: Place)
    requires |results| == |units| && Filed(text, best) && Merged(labels, units, results, best) && p in best
    requires IdealModel(u, text, maxChars, overlap, labels, names, gs, units, results)
    ensures IsNamed(labels, text, best, names, p)
  {
    hide IdealModel, Reported, DetectsName, NamePlace, ByteSlice, DetectionAt, UnitsOf;
    NamesOfIdeal(u, text, maxChars, overlap, labels, names, gs, units, results);
    ReportIsName(u, text, maxChars, overlap, labels, names, gs, units, results, p, best[p].score);
    var nm :| nm in names && NamePlace(labels, text, nm) == p;
    NameText(labels, text, nm, best[p].score);
  }

  lemma NamesOfIdeal(u: Tables, text: string, maxChars: int, overlap: int, labels: Labels, names: set<Name>,
      gs: seq<Window>, units: seq<Piece>, results: seq<seq<Span>>)
    requires IdealModel(u, text, maxChars, overlap, labels, names, gs, units, results)
    ensures NamesIn(labels, text, names) && |results| == |units| && UnitsOf(u, text, maxChars, overlap, gs)
  {
  }

  // ---- detectNames ----

  /** The model's answer to every unit. */
  function ModelResults(model: Model, units: seq<Piece>): (r: seq<seq<Span>>)
    requires forall i :: 0 <= i < |units| ==> units[i].text in model
    ensures |r| == |units| && forall i :: 0 <= i < |units| ==> r[i] == model[units[i].text]
  {
    seq(|units|, i requires 0 <= i < |units| => model[units[i].text])
  }

  function TextsOf(units: seq<Piece>): (r: seq<string>)
    ensures |r| == |units| && forall i :: 0 <= i < |units| ==> r[i] == units[i].text
  {
    seq(|units|, i requires 0 <= i < |units| => units[i].text)
  }

  ghost predicate ModelKnows(model: Model, units: seq<Piece>) {
    forall i :: 0 <= i < |units| ==> units[i].text in model
  }

  /** What detectNames returns: hits says which units the cache answered, texts what the service was
      asked.  It fails only when the service leaves a batch unanswered, or when the model itself
      reports a span outside its unit; otherwise the detections are the ones the model's own answers
      give. */
  ghost predicate Detected(labels: Labels, text: string, service: Service, model: Model, batchSize: nat,
      units: seq<Piece>, hits: seq<bool>, texts: seq<string>, r: Result<seq<Detection>>)
  {
    && |hits| == |units| && AsksMissing(TextsOf(units), hits, texts)
    && (Answers(service, texts, batchSize) ==> ModelKnows(model, units))
    && (r.Ok? <==> Answers(service, texts, batchSize) && ResultsInRange(labels, units, ModelResults(model, units)))
    && (r.Ok? ==> DetectedBy(labels, text, units, ModelResults(model, units), r.value))
    && (r.Failed? ==> ServiceFails(service, batchSize, texts, r.error) || (r.error == Malformed && Answers(service, texts, batchSize)))
  }

  /** detectNames over a cache other callers share, whatever the cache held. */
  method DetectNames(u: Tables, text: string, labels: Labels, asked: seq<string>, threshold: string, chunkChars: int, chunkOverlap: int,
      cache: NerCache.NERCache?, service: Service, ghost model: Model, batchSize: nat, clock: nat -> int, others: nat -> seq<NerCache.Op>)
    returns (r: Result<seq<Detection>>, ghost gs: seq<Window>, ghost units: seq<Piece>, ghost hits: seq<bool>, ghost texts: seq<string>)
    requires batchSize > 0 && Honest(service, model) && NUL !in Scope(asked, threshold)
    requires forall l :: l in labels <==> l in asked
    requires OthersFaithful(Scope(asked, threshold), asked, model, others) && Shared(cache, Scope(asked, threshold), asked, model)
    modifies cache
    ensures Shared(cache, Scope(asked, threshold), asked, model)
    ensures UnitsOf(u, text, chunkChars, chunkOverlap, gs) && ArePieces(text, gs, units)
    ensures Detected(labels, text, service, model, batchSize, units, hits, texts, r)
    ensures cache == null ==> forall k :: 0 <= k < |units| ==> !hits[k]
    ensures cache != null ==>
              var job := Job(Scope(asked, threshold), asked, TextsOf(units));
              forall k :: 0 <= k < |units| ==> (hits[k] <==> HitAt(old(cache.St()), cache.ttl, cache.max, job, clock, others, k))
  {
    hide Shared, Scope, Honest, OthersFaithful, UnitsOf, ArePieces, DetectedBy, ResultsInRange, ServiceFails, Answers, AsksMissing, HitAt, Detected, Served;
    var pieces;
    pieces, gs := SplitUnits(u, text, chunkChars, chunkOverlap);
    units := pieces;
    if |pieces| == 0 {
      NothingDetected(labels, text, service, model, batchSize, units);
      return Ok([]), gs, units, [], [];
    }
    var results;
    results, texts, hits := SpansFor(cache, service, model, asked, threshold, batchSize, TextsOf(pieces), clock, others);
    if results.Failed? {
      UnitsUnanswered(labels, text, service, model, batchSize, units, hits, texts, results.error);
      return Failed(results.error), gs, units, hits, texts;
    }
    var ok, out := MergeResults(labels, text, pieces, results.value);
    r := if ok then Ok(out) else Failed(Malformed);
    UnitsAnswered(labels, asked, text, service, model, batchSize, units, hits, texts, results.value, ok, out);
  }

  lemma UnitsUnanswered(labels: Labels, text: string, service: Service, model: Model, batchSize: nat,
      units: seq<Piece>, hits: seq<bool>, texts: seq<string>, error: Error)
    requires |hits| == |units| && AsksMissing(TextsOf(units), hits, texts)
    requires !Answers(service, texts, batchSize) && ServiceFails(service, batchSize, texts, error)
    ensures Detected(labels, text, service, model, batchSize, units, hits, texts, Failed(error))
  {
    hide Answers, ServiceFails, AsksMissing;
  }

  lemma UnitsAnswered(labels: Labels, asked: seq<string>, text: string, service: Service, model: Model, batchSize: nat,
      units: seq<Piece>, hits: seq<bool>, texts: seq<string>, served: seq<seq<Span>>, ok: bool, out: seq<Detection>)
    requires |served| == |hits| == |units| && AsksMissing(TextsOf(units), hits, texts) && Answers(service, texts, batchSize)
    requires forall l :: l in labels ==> l in asked
    requires forall k :: 0 <= k < |units| ==> Served(asked, model, hits[k], TextsOf(units)[k], served[k])
    requires ok <==> ResultsInRange(labels, units, served)
    requires ok ==> DetectedBy(labels, text, units, served, out)
    ensures Detected(labels, text, service, model, batchSize, units, hits, texts, if ok then Ok(out) else Failed(Malformed))
  {
    hide Answers, ServiceFails, AsksMissing, DetectedBy, ResultsInRange, Restricted;
    assert forall k :: 0 <= k < |units| ==> Served(asked, model, hits[k], TextsOf(units)[k], served[k]) && units[k].text in model;
    CacheTransparent(labels, asked, text, units, served, ModelResults(model, units), out);
  }

  lemma NothingDetected(labels: Labels, text: string, service: Service, model: Model, batchSize: nat, units: seq<Piece>)
    requires |units| == 0
    ensures Detected(labels, text, service, model, batchSize, units, [], [], Ok([]))
  {
    NothingAsked(service, [], batchSize);
    var best := NoBest(text, labels);
    assert Merged(labels, units, ModelResults(model, units), best) && Listed(best, []);
  }

  /** A service that answers every batch, with an ideal model behind it: the call succeeds and its
      detections are the names.  Where the cache answers every unit, no service is needed. */
  lemma DetectsTheNames(u: Tables, text: string, maxChars: int, overlap: int, labels: Labels, names: set<Name>,
      service: Service, model: Model, batchSize: nat, gs: seq<Window>, units: seq<Piece>, hits: seq<bool>, texts: seq<string>, r: Result<seq<Detection>>)
    requires Detected(labels, text, service, model, batchSize, units, hits, texts, r)
    requires Answers(service, texts, batchSize) || forall k :: 0 <= k < |hits| ==> hits[k]
    requires forall nm :: nm in names ==> SeenWholeInText(u, text, maxChars, overlap, nm.start, nm.end)
    requires ModelKnows(model, units) ==> IdealModel(u, text, maxChars, overlap, labels, names, gs, units, ModelResults(model, units))
    ensures r.Ok? && AreTheNames(labels, text, names, r.value)
  {
    hide IdealModel, SeenWholeInText, AreTheNames, DetectedBy, ResultsInRange, ServiceFails;
    if forall k :: 0 <= k < |hits| ==> hits[k] {
      assert texts == [] by { AskedMissed(TextsOf(units), hits, texts); }
      NothingAsked(service, texts, batchSize);
    }
    hide Answers, AsksMissing;
    IdealInRange(u, text, maxChars, overlap, labels, names, gs, units, ModelResults(model, units));
    IdealDetection(u, text, maxChars, overlap, labels, names, gs, units, ModelResults(model, units), r.value);
  }

  lemma AskedMissed(texts: seq<string>, hits: seq<bool>, asked: seq<string>)
    requires |hits| == |texts| && AsksMissing(texts, hits, asked)
    ensures asked == [] || exists k :: 0 <= k < |hits| && !hits[k]
  {
    if asked != [] {
      assert asked[0] in asked;
    }
  }
}
