/** The client of the span model: texts go out in batches, the answers come back as one list. */
module NerClient {

  /** One detection inside one text, in characters. */
  datatype Span = Span(tag: string, start: int, end: int, score: real)

  datatype Error = Unavailable | Malformed

  datatype Result<T> = Ok(value: T) | Failed(error: Error)

  /** What the service sends back for a batch. */
  datatype Reply = NoReply | Results(results: seq<seq<Span>>)

  /** The service, asked with fixed labels and threshold; it may not answer, or answer with the
      wrong number of results. */
  type Service = map<seq<string>, Reply>

  function ReplyTo(service: Service, batch: seq<string>): Reply {
    if batch in service then service[batch] else NoReply
  }

  /** detectBatch: one call, its result count checked. */
  function DetectBatch(service: Service, batch: seq<string>): (r: Result<seq<seq<Span>>>)
    ensures r.Ok? ==> |r.value| == |batch|
  {
    match ReplyTo(service, batch)
    case NoReply => Failed(Unavailable)
    case Results(results) => if |results| == |batch| then Ok(results) else Failed(Malformed)
  }

  predicate IsBatch(n: nat, batchSize: nat, k: nat) {
    k * batchSize < n
  }

  /** The kth batch. */
  function Batch(texts: seq<string>, batchSize: nat, k: nat): seq<string>
    requires IsBatch(|texts|, batchSize, k)
  {
    var start := k * batchSize;
    texts[start..if start + batchSize < |texts| then start + batchSize else |texts|]
  }

  /** Batch k came back, as the stretch of out its texts take up. */
  predicate InPlace(service: Service, texts: seq<string>, batchSize: nat, k: nat, out: seq<seq<Span>>)
    requires IsBatch(|texts|, batchSize, k)
  {
    var batch := Batch(texts, batchSize, k);
    var r := DetectBatch(service, batch);
    r.Ok? && k * batchSize + |batch| <= |out| && out[k * batchSize..k * batchSize + |batch|] == r.value
  }

  /** Every batch came back. */
  ghost predicate Complete(service: Service, texts: seq<string>, batchSize: nat, out: seq<seq<Span>>) {
    |out| == |texts| && forall k: nat :: IsBatch(|texts|, batchSize, k) ==> InPlace(service, texts, batchSize, k, out)
  }

  /** The service answers every batch. */
  ghost predicate Answers(service: Service, texts: seq<string>, batchSize: nat) {
    forall k: nat :: IsBatch(|texts|, batchSize, k) ==> DetectBatch(service, Batch(texts, batchSize, k)).Ok?
  }

  /** Client.Detect: the list is complete and parallel to texts, or some batch failed and its
      error is passed on. */
  method Detect(service: Service, texts: seq<string>, batchSize: nat) returns (r: Result<seq<seq<Span>>>)
    requires batchSize > 0
    ensures r.Ok? ==> Complete(service, texts, batchSize, r.value)
    ensures r.Ok? <==> Answers(service, texts, batchSize)
    ensures r.Failed? ==> exists k: nat :: IsBatch(|texts|, batchSize, k) && DetectBatch(service, Batch(texts, batchSize, k)) == r
  {
    var out: seq<seq<Span>> := [];
    var start := 0;
    ghost var k: nat := 0;
    while start < |texts|
      invariant start == k * batchSize && |out| == if start < |texts| then start else |texts|
      invariant forall j: nat :: j < k && IsBatch(|texts|, batchSize, j) ==> InPlace(service, texts, batchSize, j, out)
    {
      var end := if start + batchSize < |texts| then start + batchSize else |texts|;
      assert IsBatch(|texts|, batchSize, k) && texts[start..end] == Batch(texts, batchSize, k);
      var batch := DetectBatch(service, texts[start..end]);
      if batch.Failed? {
        return Failed(batch.error);
      }
      BatchAdded(service, texts, batchSize, k, out, batch.value);
      out := out + batch.value;
      start := start + batchSize;
      k := k + 1;
    }
    forall j: nat | IsBatch(|texts|, batchSize, j)
      ensures j < k
    {
      BatchesOrdered(j, k, batchSize, |texts|);
    }
    assert forall j: nat :: IsBatch(|texts|, batchSize, j) ==> InPlace(service, texts, batchSize, j, out);
    return Ok(out);
  }

  lemma {:induction false} ProductGrows(i: nat, j: nat, batchSize: nat)
    requires i <= j
    ensures i * batchSize <= j * batchSize
  {
    if i < j {
      ProductGrows(i, j - 1, batchSize);
      assert j * batchSize == (j - 1) * batchSize + batchSize;
    }
  }

  /** The batches before batch k end where it starts; past the last there are none. */
  lemma BatchesOrdered(j: nat, k: nat, batchSize: nat, n: nat)
    requires IsBatch(n, batchSize, j)
    ensures !IsBatch(n, batchSize, k) ==> j < k
    ensures j < k ==> j * batchSize + batchSize <= k * batchSize
  {
    if j < k {
      ProductGrows(j + 1, k, batchSize);
      assert (j + 1) * batchSize == j * batchSize + batchSize;
    } else {
      ProductGrows(k, j, batchSize);
    }
  }

  lemma BatchAdded(service: Service, texts: seq<string>, batchSize: nat, k: nat, out: seq<seq<Span>>, more: seq<seq<Span>>)
    requires batchSize > 0 && IsBatch(|texts|, batchSize, k) && |out| == k * batchSize
    requires DetectBatch(service, Batch(texts, batchSize, k)) == Ok(more)
    requires forall j: nat :: j < k && IsBatch(|texts|, batchSize, j) ==> InPlace(service, texts, batchSize, j, out)
    ensures forall j: nat :: j < k + 1 && IsBatch(|texts|, batchSize, j) ==> InPlace(service, texts, batchSize, j, out + more)
  {
    forall j: nat | j < k + 1 && IsBatch(|texts|, batchSize, j)
      ensures InPlace(service, texts, batchSize, j, out + more)
    {
      if j < k {
        BatchesOrdered(j, k, batchSize, |texts|);
        assert InPlace(service, texts, batchSize, j, out);
        var a, b := j * batchSize, j * batchSize + |Batch(texts, batchSize, j)|;
        assert (out + more)[a..b] == out[a..b];
      }
    }
  }

  /** Each text goes out in one batch, at one place of it, and no batch is empty or over the size. */
  lemma EachInOneBatch(texts: seq<string>, batchSize: nat, i: nat)
    requires batchSize > 0 && i < |texts|
    ensures IsBatch(|texts|, batchSize, i / batchSize)
    ensures var batch := Batch(texts, batchSize, i / batchSize);
            0 < |batch| <= batchSize && i % batchSize < |batch| && batch[i % batchSize] == texts[i]
    ensures i / batchSize * batchSize + batchSize <= |texts| ==> |Batch(texts, batchSize, i / batchSize)| == batchSize
  {
    Divided(i, batchSize);
    var k, j := i / batchSize, i % batchSize;
    assert k * batchSize <= i == k * batchSize + j;
  }

  lemma Divided(i: nat, d: nat)
    requires d > 0
    ensures i == i / d * d + i % d && i % d < d
  {
  }

  /** And at no other. */
  lemma BatchHolds(texts: seq<string>, batchSize: nat, k: nat, j: nat)
    requires IsBatch(|texts|, batchSize, k) && j < |Batch(texts, batchSize, k)|
    ensures j < batchSize && k * batchSize + j < |texts| && Batch(texts, batchSize, k)[j] == texts[k * batchSize + j]
  {
  }

  // ---- A service that answers from a model ----

  /** The spans the model finds in each text. */
  type Model = map<string, seq<Span>>

  ghost predicate HonestReply(service: Service, model: Model, batch: seq<string>) {
    DetectBatch(service, batch).Ok? ==>
      forall i :: 0 <= i < |batch| ==> batch[i] in model && DetectBatch(service, batch).value[i] == model[batch[i]]
  }

  /** Whenever the service answers, it answers with the model's spans. */
  ghost predicate Honest(service: Service, model: Model) {
    forall batch :: HonestReply(service, model, batch)
  }

  /** Whatever the batch size, a complete list holds each text's spans at the text's place. */
  lemma CompleteIsModel(service: Service, model: Model, texts: seq<string>, batchSize: nat, out: seq<seq<Span>>, i: nat)
    requires batchSize > 0 && Honest(service, model) && Complete(service, texts, batchSize, out) && i < |texts|
    ensures texts[i] in model && out[i] == model[texts[i]]
  {
    var k := i / batchSize;
    var a := k * batchSize;
    assert a <= i < a + batchSize;
    assert InPlace(service, texts, batchSize, k, out);
    var batch := Batch(texts, batchSize, k);
    assert HonestReply(service, model, batch);
    assert batch[i - a] == texts[i] && out[a..a + |batch|][i - a] == out[i];
  }
}
