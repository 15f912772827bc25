/** What a REST cohort reports about the samples its worker pool collected. */
module RestCohort {
  import opened Common
  import opened WorkerPool
  import P = Percentile

  /** The three numbers of a request that reach the aggregate. */
  datatype Sample = Sample(shimOverheadMs: real, requestBytes: nat, responseBytes: nat)

  datatype CohortRecord = CohortRecord(
    shimMedian: real, shimP95: real,
    connectionsOpened: nat, connectionsReused: nat,
    requestMedian: int, requestP95: int,
    responseMedian: int, responseP95: int)

  function Shim(s: Sample): real { s.shimOverheadMs }

  function RequestSize(s: Sample): real { s.requestBytes as real }

  function ResponseSize(s: Sample): real { s.responseBytes as real }

  /** `_aggregate`. Byte figures are non-negative, so truncating them is rounding down. */
  function Aggregate(samples: seq<Sample>, concurrency: nat, n: nat): CohortRecord {
    if samples == [] then CohortRecord(0.0, 0.0, 0, 0, 0, 0, 0, 0)
    else
      CohortRecord(
        P.Median(Image(Shim, samples)), P.OfSamples(Image(Shim, samples), 95.0),
        concurrency, if n >= concurrency then n - concurrency else 0,
        P.Median(Image(RequestSize, samples)).Floor, P.OfSamples(Image(RequestSize, samples), 95.0).Floor,
        P.Median(Image(ResponseSize, samples)).Floor, P.OfSamples(Image(ResponseSize, samples), 95.0).Floor)
  }

  /** Completion order does not reach the record. */
  lemma AggregateOrderIrrelevant(s: seq<Sample>, t: seq<Sample>, concurrency: nat, n: nat)
    requires multiset(s) == multiset(t)
    ensures Aggregate(s, concurrency, n) == Aggregate(t, concurrency, n)
  {
    assert |multiset(s)| == |s| && |multiset(t)| == |t|;
    ImageKeepsMultiset(Shim, s, t);
    ImageKeepsMultiset(RequestSize, s, t);
    ImageKeepsMultiset(ResponseSize, s, t);
    P.OrderIrrelevant(Image(Shim, s), Image(Shim, t), 95.0);
    P.OrderIrrelevant(Image(RequestSize, s), Image(RequestSize, t), 95.0);
    P.OrderIrrelevant(Image(ResponseSize, s), Image(ResponseSize, t), 95.0);
  }

  /** Two finished pools with the same requests report the same record, whatever their schedules. */
  lemma RecordScheduleIndependent(count: nat, concurrency: nat, run: seq<Pool>, other: seq<Pool>, answer: nat -> Sample)
    requires concurrency >= 1
    requires IsRun(count, concurrency, run) && AllReturned(run[|run| - 1].workers)
    requires IsRun(count, concurrency, other) && AllReturned(other[|other| - 1].workers)
    ensures Aggregate(Image(answer, run[|run| - 1].collected), concurrency, count)
         == Aggregate(Image(answer, other[|other| - 1].collected), concurrency, count)
  {
    FinishedPoolCollectedEverything(count, concurrency, run);
    FinishedPoolCollectedEverything(count, concurrency, other);
    ImageKeepsMultiset(answer, run[|run| - 1].collected, other[|other| - 1].collected);
    AggregateOrderIrrelevant(
      Image(answer, run[|run| - 1].collected), Image(answer, other[|other| - 1].collected), concurrency, count);
  }

  /** No percentile of a column lies under its median: each of the three columns is reported in order. */
  lemma MedianBelowP95(samples: seq<Sample>, concurrency: nat, n: nat)
    ensures var r := Aggregate(samples, concurrency, n);
      r.shimMedian <= r.shimP95 && r.requestMedian <= r.requestP95 && r.responseMedian <= r.responseP95
  {
    if samples != [] {
      ColumnInOrder(Image(Shim, samples));
      ColumnInOrder(Image(RequestSize, samples));
      ColumnInOrder(Image(ResponseSize, samples));
      FloorGrows(P.Median(Image(RequestSize, samples)), P.OfSamples(Image(RequestSize, samples), 95.0));
      FloorGrows(P.Median(Image(ResponseSize, samples)), P.OfSamples(Image(ResponseSize, samples), 95.0));
    }
  }

  lemma ColumnInOrder(column: seq<real>)
    requires column != []
    ensures P.Median(column) <= P.OfSamples(column, 95.0)
  {
    P.MedianIsP50(column);
    P.FormsAgree(column, 50.0);
    P.FormsAgree(column, 95.0);
    P.P50P95P99(column);
  }

  lemma FloorGrows(x: real, y: real)
    requires x <= y
    ensures x.Floor <= y.Floor
  {
  }

  /** Each column reports its own numbers: what all samples share is what the record says; and opened and
      reused connections make up the larger of requests and workers. */
  lemma ColumnsApart(samples: seq<Sample>, concurrency: nat, n: nat, shim: real, request: nat, response: nat)
    requires samples != []
    ensures var r := Aggregate(samples, concurrency, n);
      && ((forall s :: s in samples ==> s.shimOverheadMs == shim) ==> r.shimMedian == r.shimP95 == shim)
      && ((forall s :: s in samples ==> s.requestBytes == request) ==> r.requestMedian == r.requestP95 == request)
      && ((forall s :: s in samples ==> s.responseBytes == response) ==> r.responseMedian == r.responseP95 == response)
      && r.connectionsOpened == concurrency
      && r.connectionsOpened + r.connectionsReused == if n >= concurrency then n else concurrency
  {
    hide P.Median, P.OfSamples, Image;
    SharedValue(Shim, samples, shim);
    SharedValue(RequestSize, samples, request as real);
    SharedValue(ResponseSize, samples, response as real);
    FloorOfNat(request);
    FloorOfNat(response);
  }

  lemma FloorOfNat(n: nat)
    ensures (n as real).Floor == n
  {
  }

  lemma SharedValue(f: Sample -> real, samples: seq<Sample>, x: real)
    requires samples != []
    ensures (forall s :: s in samples ==> f(s) == x) ==>
      P.Median(Image(f, samples)) == P.OfSamples(Image(f, samples), 95.0) == x
  {
    hide P.Median, P.OfSamples;
    ConstantColumn(Image(f, samples), x);
  }

  lemma ConstantColumn(column: seq<real>, x: real)
    requires column != []
    ensures (forall i :: 0 <= i < |column| ==> column[i] == x) ==> P.Median(column) == P.OfSamples(column, 95.0) == x
  {
    P.MedianIsP50(column);
    P.WithinRange(column, 50.0);
    P.WithinRange(column, 95.0);
    hide P.Median, P.OfSamples;
  }
}
