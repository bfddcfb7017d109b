/** The parallel analysis end to end: any number of workers gives the result of one pass. */
module OwlmPipeline {
  import opened Wire
  import opened OwlmRanges
  import opened OwlmHistogram
  import opened OwlmAggregate
  import opened OwlmRuns
  import opened OwlmLoss

  /** The rows of some lines; parse stands for the CSV reader on one well-formed line. */
  function RowsOf(lines: seq<bytes>, parse: bytes -> Row): (rows: seq<Row>)
    ensures |rows| == |lines|
  {
    seq(|lines|, i requires 0 <= i < |lines| => parse(lines[i]))
  }

  lemma RowsJoin(x: seq<bytes>, y: seq<bytes>, parse: bytes -> Row)
    ensures RowsOf(x + y, parse) == RowsOf(x, parse) + RowsOf(y, parse)
  {
  }

  /** The rows each worker reads. */
  function RangeRows(d: bytes, body: nat, at: seq<nat>, parse: bytes -> Row, n: nat): (parts: seq<seq<Row>>)
    requires Aligned(d, body, at) && n < |at|
    ensures |parts| == n
  {
    seq(n, i requires 0 <= i < n => RowsOf(Lines(Cut(d, at, i)), parse))
  }

  lemma {:induction false} WorkersReadAll(d: bytes, body: nat, at: seq<nat>, parse: bytes -> Row, n: nat)
    requires Aligned(d, body, at) && n < |at|
    ensures Flat(RangeRows(d, body, at, parse, n)) == RowsOf(LinesOfRanges(d, body, at, n), parse)
  {
    hide Lines, RowsOf;
    if n > 0 {
      WorkersReadAll(d, body, at, parse, n - 1);
      var parts := RangeRows(d, body, at, parse, n);
      assert parts[..n - 1] == RangeRows(d, body, at, parse, n - 1);
      RowsJoin(LinesOfRanges(d, body, at, n - 1), Lines(Cut(d, at, n - 1)), parse);
    } else {
      NoRows(parse);
    }
  }

  lemma NoRows(parse: bytes -> Row)
    ensures RowsOf([], parse) == []
  {
  }

  /** The rows the workers read, in order of the ranges, are the rows of the file. */
  lemma RangesCarryTheFile(d: bytes, at: seq<nat>, parse: bytes -> Row)
    requires Aligned(d, BodyStart(d), at)
    ensures Flat(RangeRows(d, BodyStart(d), at, parse, |at| - 1)) == RowsOf(Lines(d[BodyStart(d)..]), parse)
  {
    WorkersReadAll(d, BodyStart(d), at, parse, |at| - 1);
    EveryLineOnce(d, BodyStart(d), at);
  }

  /** summarize_csv over a file with a pool of workers: whatever the number of workers and the chunk
      size, the merged result stands for the rows of the file in order. */
  method Summarize(w: Window, d: bytes, parse: bytes -> Row, workers: int, chunkSize: nat) returns (out: Partial)
    requires WfWindow(w) && chunkSize > 0
    ensures out.Represents(w, RowsOf(Lines(d[BodyStart(d)..]), parse))
  {
    var at := FileByteRanges(d, workers);
    RangesCarryTheFile(d, at, parse);
    out := ProcessAll(w, RangeRows(d, BodyStart(d), at, parse, |at| - 1), chunkSize);
  }

  /** What the analysis says about one sender: the first number of its span, which numbers were recovered and which
      lost, its bursts and how many discontinuities were passed over. */
  datatype Report = Report(minSeq: int, recovered: seq<bool>, lost: seq<bool>, gaps: seq<Gap>, discontinuities: nat)

  /** The report on a sender, from its arrays alone. */
  ghost function ReportOn(r: Option<(int, Track)>, wcl: int, minDropped: nat): (report: Option<Report>)
    requires r.Some? ==> Even(r.value.1)
  {
    match r
    case None => None
    case Some((lo, t)) =>
      Some(Report(lo, RecoveredFlags(t, wcl), CountedLosses(t, wcl), GapsOf(t, wcl, minDropped),
                  Discontinuities(t.rx, minDropped, RunsOf(Dropped(t, wcl)))))
  }

  /** The losses and bursts of one sender, from a merged result. */
  method SenderReport(w: Window, p: Partial, ghost rows: seq<Row>, pair: nat, minDropped: nat) returns (report: Option<Report>)
    requires WfWindow(w) && p.Represents(w, rows)
    ensures report == ReportOn(TrackOf(rows, pair), w.wcl, minDropped)
  {
    hide TrackOf, GapsOf, RecoveredFlags, CountedLosses, RunsOf, Dropped, Discontinuities;
    var r := TrackFrom(w, p, rows, pair);
    if r.None? {
      return None;
    }
    var t := r.value.1;
    var recovered, lost := Classify(t, w.wcl);
    var gaps, discontinuities, _ := DeriveGaps(t, w.wcl, minDropped);
    report := Some(Report(r.value.0, recovered, lost, gaps, discontinuities));
  }

  /** End to end: from the octets of a capture, with any number of workers and any chunk size, to the recovered and
      lost numbers and the bursts of a sender. They are those of the rows of the file. */
  method Analyse(w: Window, d: bytes, parse: bytes -> Row, workers: int, chunkSize: nat, pair: nat, minDropped: nat)
    returns (report: Option<Report>)
    requires WfWindow(w) && chunkSize > 0
    ensures report == ReportOn(TrackOf(RowsOf(Lines(d[BodyStart(d)..]), parse), pair), w.wcl, minDropped)
  {
    hide TrackOf, ReportOn, RowsOf, Lines;
    var out := Summarize(w, d, parse, workers, chunkSize);
    report := SenderReport(w, out, RowsOf(Lines(d[BodyStart(d)..]), parse), pair, minDropped);
  }

  /** The arrays of a sender as a merged result holds them. */
  ghost function TrackInPartial(p: Partial, pair: nat): (r: Option<(int, Track)>)
    reads p
    ensures r.Some? ==> Even(r.value.1)
  {
    TrackIn(Get(p.first, pair), Get(p.primary, pair), Get(p.redundant, pair))
  }

  lemma TrackRepresented(w: Window, p: Partial, rows: seq<Row>, pair: nat)
    requires WfWindow(w) && p.Represents(w, rows)
    ensures TrackInPartial(p, pair) == TrackOf(rows, pair)
  {
    hide SameEntries, TrackIn, BucketsOf, EntriesOf;
    SameTrack(Get(p.first, pair), Get(p.primary, pair), Get(p.redundant, pair),
              EntriesOf(FirstRx, rows, pair), EntriesOf(PrimaryLat, rows, pair), EntriesOf(RedundantLat, rows, pair));
  }

  /** Two results that stand for the same rows have the same buckets and give every sender the same span, the same
      losses and the same bursts. */
  lemma SameRowsSameResult(w: Window, p: Partial, q: Partial, rows: seq<Row>, pair: nat, minDropped: nat)
    requires WfWindow(w) && p.Represents(w, rows) && q.Represents(w, rows)
    ensures p.buckets == q.buckets
    ensures TrackInPartial(p, pair) == TrackInPartial(q, pair)
    ensures ReportOn(TrackInPartial(p, pair), w.wcl, minDropped) == ReportOn(TrackInPartial(q, pair), w.wcl, minDropped)
  {
    hide BucketOf, SparseOf, TrackInPartial, TrackOf, ReportOn;
    TrackRepresented(w, p, rows, pair);
    TrackRepresented(w, q, rows, pair);
  }

  /** Percentiles of a bucket after any parallel run: the bin selected from the merged histogram is the
      bin of the k-th smallest of the n latencies of the bucket, k being p percent of n, rounded up. */
  lemma MergedPercentile(w: Window, out: Partial, rows: seq<Row>, i: nat, p: real, bin: nat, k: int, x: int)
    requires WfWindow(w) && out.Represents(w, rows) && i < w.buckets && 0.0 < p <= 100.0
    requires Selects(out.buckets[i].hist, p, bin)
    requires 100.0 * (k as real - 1.0) < p * |Latencies(w, rows, i)| as real <= 100.0 * k as real
    requires KthSmallest(Latencies(w, rows, i), k, x)
    ensures bin == BinOf(w.edges, x)
  {
    hide Latencies, BucketOf, Selects, KthSmallest, BinOf, SparseOf, Counts;
    BucketMeaning(w, rows, i);
    PercentileIsOrderStatistic(w.edges, Latencies(w, rows, i), out.buckets[i].hist, p, bin, k, x);
  }
}
