/** The streaming aggregator: rows folded chunk by chunk into per-bucket statistics and sparse
    per-sender lists, and partial results merged. */
module OwlmAggregate {
  import opened Wire
  import opened OwlmHistogram

  const INT64_MAX: int := 0x7FFF_FFFF_FFFF_FFFF
  const INT64_MIN: int := -0x8000_0000_0000_0000

  datatype Role = Primary | Redundant | Legacy | Local

  /** One row of a capture. */
  datatype Row = Row(role: Role, sender: nat, sequence: int, rx: int, lat: int)

  datatype Window = Window(t0: int, bucketNs: nat, buckets: nat, wcl: int, edges: seq<real>)

  predicate WfWindow(w: Window) {
    w.bucketNs > 0 && WfEdges(w.edges)
  }

  predicate Remote(r: Row) {
    r.role != Local
  }

  /** _vec_pair_ids: the two middle octets of the EUI-64 do not distinguish senders. */
  function PairOf(sender: nat): (p: nat) {
    sender / 0x100_0000_0000 * 0x100_0000_0000 + sender % 0x100_0000
  }

  function Min(a: int, b: int): (m: int) { if a <= b then a else b }
  function Max(a: int, b: int): (m: int) { if a >= b then a else b }

  // ---- buckets ----

  datatype Bucket = Bucket(count: nat, sum: int, min: int, max: int, late: nat, hist: seq<nat>)

  function NoHist(): (h: seq<nat>)
    ensures |h| == BINS && forall i :: 0 <= i < BINS ==> h[i] == 0
  {
    seq(BINS, i => 0)
  }

  function Empty(): (b: Bucket) {
    Bucket(0, 0, INT64_MAX, INT64_MIN, 0, NoHist())
  }

  predicate WfBucket(b: Bucket) {
    |b.hist| == BINS
  }

  /** The bucket a row falls into, by receive time. */
  function BucketIndex(w: Window, r: Row): (i: int)
    requires WfWindow(w)
  {
    (r.rx - w.t0) / w.bucketNs
  }

  /** A bucket with one more latency. */
  function WithLatency(w: Window, b: Bucket, lat: int): (r: Bucket)
    requires WfWindow(w) && WfBucket(b)
    ensures WfBucket(r)
  {
    var i := BinOf(w.edges, lat);
    Bucket(b.count + 1, b.sum + lat, Min(b.min, lat), Max(b.max, lat), if lat > w.wcl then b.late + 1 else b.late,
           b.hist[i := b.hist[i] + 1])
  }

  function AddHist(a: seq<nat>, b: seq<nat>): (r: seq<nat>)
    requires |a| == |b| == BINS
    ensures |r| == BINS
  {
    seq(BINS, i requires 0 <= i < BINS => a[i] + b[i])
  }

  function Combine(a: Bucket, b: Bucket): (r: Bucket)
    requires WfBucket(a) && WfBucket(b)
    ensures WfBucket(r)
  {
    Bucket(a.count + b.count, a.sum + b.sum, Min(a.min, b.min), Max(a.max, b.max), a.late + b.late, AddHist(a.hist, b.hist))
  }

  /** What rows put into bucket i. */
  ghost function BucketOf(w: Window, rows: seq<Row>, i: nat): (b: Bucket)
    requires WfWindow(w)
    ensures WfBucket(b) && b.min <= INT64_MAX && b.max >= INT64_MIN
  {
    if rows == [] then Empty() else
      var n := |rows| - 1;
      var before := BucketOf(w, rows[..n], i);
      if Remote(rows[n]) && BucketIndex(w, rows[n]) == i then WithLatency(w, before, rows[n].lat) else before
  }

  lemma CombineEmpty(b: Bucket)
    requires WfBucket(b) && b.min <= INT64_MAX && b.max >= INT64_MIN
    ensures Combine(b, Empty()) == b
  {
    assert AddHist(b.hist, NoHist()) == b.hist;
  }

  lemma CombineWith(w: Window, a: Bucket, b: Bucket, lat: int)
    requires WfWindow(w) && WfBucket(a) && WfBucket(b)
    ensures Combine(a, WithLatency(w, b, lat)) == WithLatency(w, Combine(a, b), lat)
  {
    hide BinOf;
    var i := BinOf(w.edges, lat);
    assert AddHist(a.hist, b.hist[i := b.hist[i] + 1]) == AddHist(a.hist, b.hist)[i := a.hist[i] + b.hist[i] + 1];
  }

  /** Statistics of two stretches of rows combine to those of both. */
  lemma {:induction false} BucketsCombine(w: Window, x: seq<Row>, y: seq<Row>, i: nat)
    requires WfWindow(w)
    ensures BucketOf(w, x + y, i) == Combine(BucketOf(w, x, i), BucketOf(w, y, i))
  {
    hide Combine, WithLatency, BucketIndex, WfWindow;
    if y == [] {
      assert x + y == x;
      CombineEmpty(BucketOf(w, x, i));
    } else {
      var n := |y| - 1;
      assert (x + y)[..|x + y| - 1] == x + y[..n] && (x + y)[|x + y| - 1] == y[n];
      BucketsCombine(w, x, y[..n], i);
      CombineWith(w, BucketOf(w, x, i), BucketOf(w, y[..n], i), y[n].lat);
    }
  }

  // ---- sparse lists ----

  /** A sequence number and a value; the source keeps the two in positionally aligned arrays. */
  type Entry = (int, int)
  type Sparse = map<nat, seq<Entry>>

  function Get(m: Sparse, pair: nat): (es: seq<Entry>) {
    if pair in m then m[pair] else []
  }

  /** The smallest value listed for a sequence number; INT64_MAX for none. */
  ghost function MinOf(es: seq<Entry>, s: int): (m: int)
    ensures m <= INT64_MAX
  {
    if es == [] then INT64_MAX else
      var n := |es| - 1;
      if es[n].0 == s then Min(MinOf(es[..n], s), es[n].1) else MinOf(es[..n], s)
  }

  lemma {:induction false} MinOfJoin(x: seq<Entry>, y: seq<Entry>, s: int)
    ensures MinOf(x + y, s) == Min(MinOf(x, s), MinOf(y, s))
  {
    if y == [] {
      assert x + y == x;
    } else {
      var n := |y| - 1;
      assert (x + y)[..|x + y| - 1] == x + y[..n] && (x + y)[|x + y| - 1] == y[n];
      MinOfJoin(x, y[..n], s);
    }
  }

  /** The sequence number is listed. */
  ghost predicate Listed(es: seq<Entry>, s: int) {
    exists i :: 0 <= i < |es| && es[i].0 == s
  }

  lemma ListedJoin(x: seq<Entry>, y: seq<Entry>, s: int)
    ensures Listed(x + y, s) <==> Listed(x, s) || Listed(y, s)
  {
    if Listed(x, s) {
      var i :| 0 <= i < |x| && x[i].0 == s;
      assert (x + y)[i] == x[i];
    }
    if Listed(y, s) {
      var i :| 0 <= i < |y| && y[i].0 == s;
      assert (x + y)[|x| + i] == y[i];
    }
    if Listed(x + y, s) {
      var i :| 0 <= i < |x + y| && (x + y)[i].0 == s;
      assert (x + y)[i] == if i < |x| then x[i] else y[i - |x|];
    }
  }

  /** Two lists that mean the same: the same sequence numbers, each with the same least value. */
  ghost predicate SameEntries(a: seq<Entry>, b: seq<Entry>) {
    forall s :: MinOf(a, s) == MinOf(b, s) && (Listed(a, s) <==> Listed(b, s))
  }

  lemma SameJoin(a: seq<Entry>, b: seq<Entry>, c: seq<Entry>, d: seq<Entry>)
    requires SameEntries(a, c) && SameEntries(b, d)
    ensures SameEntries(a + b, c + d)
  {
    hide MinOf, Listed;
    forall s ensures MinOf(a + b, s) == MinOf(c + d, s) && (Listed(a + b, s) <==> Listed(c + d, s)) {
      MinOfJoin(a, b, s);
      MinOfJoin(c, d, s);
      ListedJoin(a, b, s);
      ListedJoin(c, d, s);
    }
  }

  /** The three per-sender lists: latency of primary copies, latency of redundant copies, receive time
      of any copy. */
  datatype List = PrimaryLat | RedundantLat | FirstRx

  predicate Feeds(k: List, r: Row) {
    match k
    case PrimaryLat => r.role == Primary || r.role == Legacy
    case RedundantLat => r.role == Redundant
    case FirstRx => Remote(r)
  }

  function ValueFor(k: List, r: Row): (v: int) {
    if k == FirstRx then r.rx else r.lat
  }

  /** What rows say about a sender, unreduced. */
  function EntriesOf(k: List, rows: seq<Row>, pair: nat): (es: seq<Entry>) {
    if rows == [] then [] else
      var n := |rows| - 1;
      var before := EntriesOf(k, rows[..n], pair);
      if Feeds(k, rows[n]) && PairOf(rows[n].sender) == pair then before + [(rows[n].sequence, ValueFor(k, rows[n]))] else before
  }

  lemma {:induction false} EntriesJoin(k: List, x: seq<Row>, y: seq<Row>, pair: nat)
    ensures EntriesOf(k, x + y, pair) == EntriesOf(k, x, pair) + EntriesOf(k, y, pair)
  {
    hide Feeds, PairOf, ValueFor;
    if y == [] {
      assert x + y == x;
    } else {
      var n := |y| - 1;
      assert (x + y)[..|x + y| - 1] == x + y[..n] && (x + y)[|x + y| - 1] == y[n];
      EntriesJoin(k, x, y[..n], pair);
    }
  }

  /** Where a sequence number is listed, or the length. */
  function Find(es: seq<Entry>, s: int): (i: nat)
    ensures i <= |es| && (i < |es| ==> es[i].0 == s) && forall j :: 0 <= j < i ==> es[j].0 != s
  {
    if es == [] then 0 else
      var i := Find(es[..|es| - 1], s);
      if i < |es| - 1 then i else if es[|es| - 1].0 == s then |es| - 1 else |es|
  }

  /** groupby("seq").min(): one entry for each sequence number, in order of first appearance. */
  method GroupMin(es: seq<Entry>) returns (r: seq<Entry>)
    ensures SameEntries(r, es)
    ensures forall i, j :: 0 <= i < j < |r| ==> r[i].0 != r[j].0
  {
    hide SameEntries;
    r := [];
    NothingListed();
    assert es[..0] == [];
    for n := 0 to |es|
      invariant SameEntries(r, es[..n])
      invariant forall i, j :: 0 <= i < j < |r| ==> r[i].0 != r[j].0
    {
      assert es[..n + 1] == es[..n] + [es[n]];
      var i := Find(r, es[n].0);
      if i < |r| {
        LoweredMeansAppended(r, i, es[n], es[..n]);
        r := r[i := (r[i].0, Min(r[i].1, es[n].1))];
      } else {
        AppendedToBoth(r, es[..n], es[n]);
        r := r + [es[n]];
      }
    }
    assert es[..|es|] == es;
  }

  lemma NothingListed()
    ensures SameEntries([], [])
  {
  }

  lemma AppendedToBoth(a: seq<Entry>, b: seq<Entry>, e: Entry)
    requires SameEntries(a, b)
    ensures SameEntries(a + [e], b + [e])
  {
    hide SameEntries;
    assert SameEntries([e], [e]) by { ItsOwnEntries([e]); }
    SameJoin(a, [e], b, [e]);
  }

  lemma ItsOwnEntries(a: seq<Entry>)
    ensures SameEntries(a, a)
  {
    hide MinOf, Listed;
  }

  /** Lowering an entry in place is appending another for its sequence number. */
  lemma LoweredMeansAppended(r: seq<Entry>, i: nat, e: Entry, b: seq<Entry>)
    requires i < |r| && r[i].0 == e.0 && SameEntries(r, b)
    ensures SameEntries(r[i := (r[i].0, Min(r[i].1, e.1))], b + [e])
  {
    hide MinOf;
    var u := r[i := (r[i].0, Min(r[i].1, e.1))];
    forall s ensures MinOf(u, s) == MinOf(b + [e], s) && (Listed(u, s) <==> Listed(b + [e], s)) {
      MinOfUpdate(r, i, e.1, s);
      MinOfAppend(b, e, s);
      ListedAfterUpdate(r, u, s);
      ListedJoin(b, [e], s);
      assert Listed([e], s) <==> e.0 == s by { assert [e][0] == e; }
      assert e.0 == s ==> Listed(r, s);
    }
  }

  lemma ListedAfterUpdate(r: seq<Entry>, u: seq<Entry>, s: int)
    requires |r| == |u| && forall j :: 0 <= j < |r| ==> u[j].0 == r[j].0
    ensures Listed(u, s) <==> Listed(r, s)
  {
  }

  lemma MinOfAppend(es: seq<Entry>, e: Entry, s: int)
    ensures MinOf(es + [e], s) == if e.0 == s then Min(MinOf(es, s), e.1) else MinOf(es, s)
  {
    assert (es + [e])[..|es|] == es;
  }

  lemma {:induction false} MinOfUpdate(es: seq<Entry>, i: nat, v: int, s: int)
    requires i < |es|
    ensures MinOf(es[i := (es[i].0, Min(es[i].1, v))], s) == if es[i].0 == s then Min(MinOf(es, s), v) else MinOf(es, s)
  {
    var n := |es| - 1;
    var u := es[i := (es[i].0, Min(es[i].1, v))];
    if i < n {
      MinOfUpdate(es[..n], i, v, s);
      assert u[..n] == es[..n][i := (es[i].0, Min(es[i].1, v))];
    } else {
      assert u[..n] == es[..n];
    }
  }

  // ---- partial results ----

  /** The buckets hold what the rows put into them. */
  ghost predicate BucketsOf(w: Window, bs: seq<Bucket>, rows: seq<Row>)
    requires WfWindow(w)
  {
    |bs| == w.buckets && forall i :: 0 <= i < |bs| ==> bs[i] == BucketOf(w, rows, i)
  }

  /** The list has, for every sender, exactly the sequence numbers the rows have, each with the smallest value the
      rows have for it. */
  ghost predicate SparseOf(m: Sparse, k: List, rows: seq<Row>) {
    forall pair :: SameEntries(Get(m, pair), EntriesOf(k, rows, pair))
  }

  class Partial {
    var buckets: seq<Bucket>
    var primary: Sparse
    var redundant: Sparse
    var first: Sparse

    /** The partial result stands for these rows, in this order. */
    ghost predicate Represents(w: Window, rows: seq<Row>)
      requires WfWindow(w)
      reads this
    {
      && BucketsOf(w, buckets, rows)
      && SparseOf(primary, PrimaryLat, rows) && SparseOf(redundant, RedundantLat, rows) && SparseOf(first, FirstRx, rows)
    }

    /** _empty_partial. */
    constructor (w: Window)
      requires WfWindow(w)
      ensures Represents(w, [])
    {
      buckets := seq(w.buckets, i => Empty());
      primary, redundant, first := map[], map[], map[];
      NothingListed();
    }

    /** _aggregate_chunk. */
    method AggregateChunk(w: Window, chunk: seq<Row>, ghost rows: seq<Row>)
      requires WfWindow(w) && Represents(w, rows)
      modifies this
      ensures Represents(w, rows + chunk)
    {
      hide BucketsOf, SparseOf;
      buckets := FoldBuckets(w, buckets, chunk, rows);
      var pairs := PairsIn(chunk);
      primary := Extend(primary, PrimaryLat, chunk, pairs, rows);
      redundant := Extend(redundant, RedundantLat, chunk, pairs, rows);
      first := Extend(first, FirstRx, chunk, pairs, rows);
    }

    /** One step of _merge_partials. */
    method Merge(w: Window, other: Partial, ghost x: seq<Row>, ghost y: seq<Row>)
      requires WfWindow(w) && other != this && Represents(w, x) && other.Represents(w, y)
      modifies this
      ensures Represents(w, x + y)
    {
      hide SparseOf, BucketOf, Combine;
      forall i: nat ensures BucketOf(w, x + y, i) == Combine(BucketOf(w, x, i), BucketOf(w, y, i)) {
        BucketsCombine(w, x, y, i);
      }
      var mine, theirs := buckets, other.buckets;
      buckets := seq(|mine|, i requires 0 <= i < |mine| => Combine(mine[i], theirs[i]));
      primary := Merged(primary, other.primary, PrimaryLat, x, y);
      redundant := Merged(redundant, other.redundant, RedundantLat, x, y);
      first := Merged(first, other.first, FirstRx, x, y);
    }
  }

  /** The scatter-add of a chunk into the buckets. */
  method FoldBuckets(w: Window, before: seq<Bucket>, chunk: seq<Row>, ghost rows: seq<Row>) returns (bs: seq<Bucket>)
    requires WfWindow(w) && BucketsOf(w, before, rows)
    ensures BucketsOf(w, bs, rows + chunk)
  {
    hide WfWindow, WithLatency, BucketIndex;
    bs := before;
    assert rows + chunk[..0] == rows;
    for n := 0 to |chunk|
      invariant BucketsOf(w, bs, rows + chunk[..n])
    {
      var r := chunk[n];
      ghost var seen := rows + chunk[..n + 1];
      assert seen[..|seen| - 1] == rows + chunk[..n] && seen[|seen| - 1] == r;
      var i := BucketIndex(w, r);
      if Remote(r) && 0 <= i < |bs| {
        bs := bs[i := WithLatency(w, bs[i], r.lat)];
      }
    }
    assert chunk[..|chunk|] == chunk;
  }

  /** The senders of a chunk, each once. */
  method PairsIn(chunk: seq<Row>) returns (pairs: seq<nat>)
    ensures forall i, j :: 0 <= i < j < |pairs| ==> pairs[i] != pairs[j]
    ensures forall i :: 0 <= i < |chunk| && Remote(chunk[i]) ==> PairOf(chunk[i].sender) in pairs
  {
    hide PairOf;
    pairs := [];
    for n := 0 to |chunk|
      invariant forall i, j :: 0 <= i < j < |pairs| ==> pairs[i] != pairs[j]
      invariant forall i :: 0 <= i < n && Remote(chunk[i]) ==> PairOf(chunk[i].sender) in pairs
    {
      var p := PairOf(chunk[n].sender);
      if Remote(chunk[n]) && p !in pairs {
        pairs := pairs + [p];
      }
    }
  }

  lemma {:induction false} NoEntries(k: List, chunk: seq<Row>, pair: nat)
    requires forall i :: 0 <= i < |chunk| && Remote(chunk[i]) ==> PairOf(chunk[i].sender) != pair
    ensures EntriesOf(k, chunk, pair) == []
  {
    hide PairOf;
    if chunk != [] { NoEntries(k, chunk[..|chunk| - 1], pair); }
  }

  /** The per-sender lists of a chunk, each reduced to one entry a sequence number, appended. */
  method Extend(m: Sparse, k: List, chunk: seq<Row>, pairs: seq<nat>, ghost rows: seq<Row>) returns (r: Sparse)
    requires SparseOf(m, k, rows) && forall i, j :: 0 <= i < j < |pairs| ==> pairs[i] != pairs[j]
    requires forall i :: 0 <= i < |chunk| && Remote(chunk[i]) ==> PairOf(chunk[i].sender) in pairs
    ensures SparseOf(r, k, rows + chunk)
  {
    hide SameEntries, EntriesOf, PairOf;
    r := m;
    for j := 0 to |pairs|
      invariant forall pair :: pair in pairs[..j] ==> SameEntries(Get(r, pair), EntriesOf(k, rows + chunk, pair))
      invariant forall pair :: pair !in pairs[..j] ==> Get(r, pair) == Get(m, pair)
    {
      var p := pairs[j];
      var es := EntriesOf(k, chunk, p);
      var g := GroupMin(es);
      EntriesJoin(k, rows, chunk, p);
      SameJoin(Get(m, p), g, EntriesOf(k, rows, p), es);
      r := r[p := Get(r, p) + g];
      assert pairs[..j + 1] == pairs[..j] + [p];
    }
    forall pair ensures SameEntries(Get(r, pair), EntriesOf(k, rows + chunk, pair)) {
      assert pairs[..|pairs|] == pairs;
      if pair !in pairs {
        NoEntries(k, chunk, pair);
        EntriesJoin(k, rows, chunk, pair);
        assert EntriesOf(k, rows, pair) + [] == EntriesOf(k, rows, pair);
      }
    }
  }

  /** Concatenation, sender by sender. */
  method Merged(mine: Sparse, theirs: Sparse, k: List, ghost x: seq<Row>, ghost y: seq<Row>) returns (r: Sparse)
    requires SparseOf(mine, k, x) && SparseOf(theirs, k, y)
    ensures SparseOf(r, k, x + y)
  {
    hide SameEntries, EntriesOf;
    r := map p <- mine.Keys + theirs.Keys :: Get(mine, p) + Get(theirs, p);
    forall pair ensures SameEntries(Get(r, pair), EntriesOf(k, x + y, pair)) {
      assert Get(r, pair) == Get(mine, pair) + Get(theirs, pair);
      EntriesJoin(k, x, y, pair);
      SameJoin(Get(mine, pair), Get(theirs, pair), EntriesOf(k, x, pair), EntriesOf(k, y, pair));
    }
  }

  // ---- workers ----

  /** _process_byte_range: the rows of one range, chunk by chunk. */
  method ProcessRange(w: Window, rows: seq<Row>, chunkSize: nat) returns (p: Partial)
    requires WfWindow(w) && chunkSize > 0
    ensures fresh(p) && p.Represents(w, rows)
  {
    p := new Partial(w);
    var at := 0;
    while at < |rows|
      invariant at <= |rows| && fresh(p) && p.Represents(w, rows[..at])
    {
      var stop := if at + chunkSize <= |rows| then at + chunkSize else |rows|;
      p.AggregateChunk(w, rows[at..stop], rows[..at]);
      assert rows[..at] + rows[at..stop] == rows[..stop];
      at := stop;
    }
    assert rows[..|rows|] == rows;
  }

  function Flat<X>(parts: seq<seq<X>>): (r: seq<X>) {
    if parts == [] then [] else Flat(parts[..|parts| - 1]) + parts[|parts| - 1]
  }

  /** _merge_partials: the first partial result absorbs the others. */
  method MergePartials(w: Window, ps: seq<Partial>, ghost parts: seq<seq<Row>>) returns (out: Partial)
    requires WfWindow(w) && |ps| == |parts| > 0 && forall i :: 0 < i < |ps| ==> ps[i] != ps[0]
    requires forall i :: 0 <= i < |ps| ==> ps[i].Represents(w, parts[i])
    modifies ps[0]
    ensures out == ps[0] && out.Represents(w, Flat(parts))
  {
    out := ps[0];
    assert parts[..1] == [parts[0]] && parts[..1][..0] == [];
    assert Flat(parts[..1]) == [] + parts[0] == parts[0];
    for i := 1 to |ps|
      invariant out == ps[0] && out.Represents(w, Flat(parts[..i]))
      invariant forall j :: i <= j < |ps| ==> ps[j].Represents(w, parts[j])
    {
      out.Merge(w, ps[i], Flat(parts[..i]), parts[i]);
      assert parts[..i + 1][..i] == parts[..i];
    }
    assert parts[..|parts|] == parts;
  }

  /** Any number of workers over any ranges with any chunk size: the merged result stands for all
      rows. */
  method ProcessAll(w: Window, parts: seq<seq<Row>>, chunkSize: nat) returns (out: Partial)
    requires WfWindow(w) && chunkSize > 0 && parts != []
    ensures out.Represents(w, Flat(parts))
  {
    hide BucketsOf, SparseOf, WfWindow;
    var ps: seq<Partial> := [];
    for i := 0 to |parts|
      invariant |ps| == i && forall j :: 0 <= j < i ==> fresh(ps[j]) && ps[j].Represents(w, parts[j])
      invariant forall j, k :: 0 <= j < k < i ==> ps[j] != ps[k]
    {
      var p := ProcessRange(w, parts[i], chunkSize);
      ps := ps + [p];
    }
    out := MergePartials(w, ps, parts);
  }

  // ---- what a bucket holds ----

  /** The latencies of the remote rows received in bucket i. */
  ghost function Latencies(w: Window, rows: seq<Row>, i: nat): (s: seq<int>)
    requires WfWindow(w)
  {
    if rows == [] then [] else
      var n := |rows| - 1;
      var before := Latencies(w, rows[..n], i);
      if Remote(rows[n]) && BucketIndex(w, rows[n]) == i then before + [rows[n].lat] else before
  }

  ghost function Sum(s: seq<int>): (t: int) {
    if s == [] then 0 else Sum(s[..|s| - 1]) + s[|s| - 1]
  }

  ghost function Above(v: int): (f: int -> bool) { x => x > v }

  ghost predicate Summarizes(w: Window, s: seq<int>, b: Bucket)
    requires WfWindow(w)
  {
    && b.count == |s| && b.sum == Sum(s) && b.late == Count(s, Above(w.wcl)) && Counts(w.edges, s, b.hist)
    && (forall x <- s :: b.min <= x <= b.max)
    && (b.min in s || (b.min == INT64_MAX && forall x <- s :: x >= INT64_MAX))
    && (b.max in s || (b.max == INT64_MIN && forall x <- s :: x <= INT64_MIN))
  }

  lemma {:induction false} CumulativeUpdate(h: seq<nat>, b: nat, i: nat)
    requires b < |h| && i <= |h|
    ensures Cumulative(h[b := h[b] + 1], i) == Cumulative(h, i) + (if b < i then 1 else 0)
  {
    if i > 0 { CumulativeUpdate(h, b, i - 1); }
  }

  lemma HistWith(edges: seq<real>, s: seq<int>, h: seq<nat>, x: int)
    requires WfEdges(edges) && Counts(edges, s, h)
    ensures var b := BinOf(edges, x); Counts(edges, s + [x], h[b := h[b] + 1])
  {
    hide Cumulative, BinOf, WfEdges;
    var b := BinOf(edges, x);
    forall i | 0 <= i < BINS ensures Through(h[b := h[b] + 1], i) == Count(s + [x], InBins(edges, i)) {
      assert Through(h, i) == Count(s, InBins(edges, i));
      CumulativeUpdate(h, b, i + 1);
      assert (s + [x])[..|s|] == s;
    }
  }

  lemma NothingCounted(edges: seq<real>, h: seq<nat>)
    requires WfEdges(edges) && |h| == BINS && forall i :: 0 <= i < BINS ==> h[i] == 0
    ensures Counts(edges, [], h)
  {
    forall i: nat | i <= BINS ensures Cumulative(h, i) == 0 {
      NoneCumulated(h, i);
    }
  }

  lemma {:induction false} NoneCumulated(h: seq<nat>, i: nat)
    requires i <= |h| && forall j :: 0 <= j < |h| ==> h[j] == 0
    ensures Cumulative(h, i) == 0
  {
    if i > 0 { NoneCumulated(h, i - 1); }
  }

  lemma SummaryWith(w: Window, s: seq<int>, b: Bucket, x: int)
    requires WfWindow(w) && WfBucket(b) && Summarizes(w, s, b)
    ensures Summarizes(w, s + [x], WithLatency(w, b, x))
  {
    hide Counts, BinOf, WfEdges;
    HistWith(w.edges, s, b.hist, x);
    assert (s + [x])[..|s|] == s;
    assert forall y <- s + [x] :: y in s || y == x;
    assert (s + [x])[|s|] == x;
  }

  /** A bucket summarizes exactly the latencies of its rows: how many, their sum, least and greatest,
      how many are late, and their histogram. */
  lemma {:induction false} BucketMeaning(w: Window, rows: seq<Row>, i: nat)
    requires WfWindow(w)
    ensures Summarizes(w, Latencies(w, rows, i), BucketOf(w, rows, i))
  {
    hide Summarizes, WithLatency, BucketIndex, WfWindow;
    if rows == [] {
      EmptySummary(w);
    } else {
      var n := |rows| - 1;
      BucketMeaning(w, rows[..n], i);
      SummaryWith(w, Latencies(w, rows[..n], i), BucketOf(w, rows[..n], i), rows[n].lat);
    }
  }

  lemma EmptySummary(w: Window)
    requires WfWindow(w)
    ensures Summarizes(w, [], Empty())
  {
    NothingCounted(w.edges, NoHist());
  }

  /** The least value listed: a lower bound, and listed unless it is INT64_MAX. */
  lemma {:induction false} MinOfMeaning(es: seq<Entry>, s: int)
    ensures forall e <- es :: e.0 == s ==> MinOf(es, s) <= e.1
    ensures MinOf(es, s) == INT64_MAX || (s, MinOf(es, s)) in es
  {
    if es != [] {
      var n := |es| - 1;
      MinOfMeaning(es[..n], s);
      assert forall e <- es :: e in es[..n] || e == es[n];
      assert es[n] in es && forall e <- es[..n] :: e in es;
      assert (es[n].0, es[n].1) == es[n];
    }
  }
}
