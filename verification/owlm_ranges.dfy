/** The byte ranges that workers take from a capture file. */
module OwlmRanges {
  import opened Wire
  import opened Arithmetic

  const NEWLINE := 10

  /** The end of the line at pos: right after the next newline, or the end of the file. */
  function LineEnd(d: bytes, pos: nat): (r: nat)
    requires pos <= |d|
    ensures pos <= r <= |d| && (pos < |d| ==> pos < r)
    decreases |d| - pos
  {
    if pos == |d| then pos else if d[pos] == NEWLINE then pos + 1 else LineEnd(d, pos + 1)
  }

  /** A place where a line can start: after a newline, or at one of the ends. */
  predicate Boundary(d: bytes, pos: nat) {
    pos <= |d| && (pos == 0 || pos == |d| || d[pos - 1] == NEWLINE)
  }

  lemma {:induction false} LineEndIsBoundary(d: bytes, pos: nat)
    requires pos <= |d|
    ensures Boundary(d, LineEnd(d, pos))
    ensures forall i :: pos <= i < LineEnd(d, pos) - 1 ==> d[i] != NEWLINE
    decreases |d| - pos
  {
    if pos < |d| && d[pos] != NEWLINE { LineEndIsBoundary(d, pos + 1); }
  }

  lemma LineEndMonotone(d: bytes, a: nat, b: nat)
    requires a <= b <= |d|
    ensures LineEnd(d, a) <= LineEnd(d, b)
  {
    hide LineEnd;
    LineEndIsBoundary(d, a);
    LineEndIsBoundary(d, b);
  }

  /** The lines of some octets, each with its newline; the last may lack one. */
  function Lines(d: bytes): (r: seq<bytes>)
    decreases |d|
  {
    if d == [] then [] else [d[..LineEnd(d, 0)]] + Lines(d[LineEnd(d, 0)..])
  }

  lemma {:induction false} LineEndInPrefix(a: bytes, b: bytes, pos: nat)
    requires pos < |a| && a[|a| - 1] == NEWLINE
    ensures LineEnd(a + b, pos) == LineEnd(a, pos)
    decreases |a| - pos
  {
    if a[pos] != NEWLINE {
      LineEndInPrefix(a, b, pos + 1);
    }
  }

  /** Cutting at a boundary cuts no line. */
  lemma {:induction false} LinesSplit(a: bytes, b: bytes)
    requires a == [] || b == [] || a[|a| - 1] == NEWLINE
    ensures Lines(a + b) == Lines(a) + Lines(b)
    decreases |a|
  {
    hide LineEnd;
    if a == [] {
      assert a + b == b;
      assert Lines(a) + Lines(b) == Lines(b);
    } else if b == [] {
      assert a + b == a;
      assert Lines(a) + Lines(b) == Lines(a);
    } else {
      LineEndInPrefix(a, b, 0);
      var n := LineEnd(a, 0);
      assert (a + b)[..n] == a[..n] && (a + b)[n..] == a[n..] + b;
      LinesSplit(a[n..], b);
      assert [a[..n]] + (Lines(a[n..]) + Lines(b)) == ([a[..n]] + Lines(a[n..])) + Lines(b);
    }
  }

  // ---- the split ----

  /** Range i of boundaries. */
  function Cut(d: bytes, at: seq<nat>, i: nat): (r: bytes)
    requires i + 1 < |at| && at[i] <= at[i + 1] <= |d|
  {
    d[at[i]..at[i + 1]]
  }

  /** Boundaries from the start of the body to the end of the file, in order. */
  predicate Aligned(d: bytes, body: nat, at: seq<nat>) {
    && |at| >= 2 && at[0] == body && at[|at| - 1] == |d|
    && (forall i :: 0 <= i < |at| - 1 ==> at[i] <= at[i + 1])
    && (forall i :: 0 <= i < |at| ==> at[i] <= |d| && (i > 0 ==> Boundary(d, at[i])))
  }

  function BodyStart(d: bytes): (r: nat)
    ensures r <= |d|
  {
    LineEnd(d, 0)
  }

  function RawBoundary(body: nat, size: nat, n: nat, i: nat): (r: nat)
    requires n > 0 && body <= size
  {
    body + (size - body) * i / n
  }

  lemma RawMonotone(body: nat, size: nat, n: nat, i: nat)
    requires n > 0 && body <= size && i < n
    ensures body <= RawBoundary(body, size, n, i) <= RawBoundary(body, size, n, i + 1) <= size
  {
    ScaledMonotone(size - body, i, n);
  }

  lemma RawIs(body: nat, size: nat, n: nat, i: nat)
    requires n > 0 && body <= size
    ensures RawBoundary(body, size, n, i) == body + (size - body) * i / n
  {
  }

  lemma RawStart(body: nat, size: nat, n: nat)
    requires n > 0 && body <= size
    ensures RawBoundary(body, size, n, 0) == body
  {
  }

  /** From p, q is past the first newline, or at the end if there is none. */
  predicate PastNewline(d: bytes, p: int, q: int) {
    && 0 <= p <= q <= |d| && (p < |d| ==> p < q) && (q == |d| || (q > 0 && d[q - 1] == 10))
    && forall k :: p <= k < q - 1 ==> d[k] != 10
  }

  lemma PastLine(d: bytes, p: nat)
    requires p <= |d|
    ensures PastNewline(d, p, LineEnd(d, p))
  {
    hide LineEnd;
    LineEndIsBoundary(d, p);
  }

  /** _file_byte_ranges: the boundaries, each raw one moved to the end of its line. Boundary i is the first line end after
      an i-th part of the body. */
  method FileByteRanges(d: bytes, workers: int) returns (at: seq<nat>)
    ensures Aligned(d, BodyStart(d), at)
    ensures |at| == if workers <= 1 || BodyStart(d) == |d| then 2 else workers + 1
    ensures forall i :: 0 < i < |at| - 1 ==> PastNewline(d, BodyStart(d) + (|d| - BodyStart(d)) * i / workers, at[i])
  {
    hide LineEnd, RawBoundary, Boundary, PastNewline;
    var body := LineEnd(d, 0);
    if workers <= 1 || body == |d| {
      EndIsBoundary(d);
      return [body, |d|];
    }
    RawStart(body, |d|, workers);
    at := [body];
    ghost var last: nat := body;
    for i := 1 to workers
      invariant |at| == i && at[0] == body && at[i - 1] <= |d|
      invariant last == RawBoundary(body, |d|, workers, i - 1) <= |d| && (i > 1 ==> at[i - 1] == LineEnd(d, last))
      invariant forall k :: 0 <= k < i - 1 ==> at[k] <= at[k + 1]
      invariant forall k :: 0 <= k < i ==> at[k] <= |d| && (k > 0 ==> Boundary(d, at[k]))
      invariant forall k :: 0 < k < i ==> PastNewline(d, body + (|d| - body) * k / workers, at[k])
    {
      RawMonotone(body, |d|, workers, i - 1);
      var b := RawBoundary(body, |d|, workers, i);
      RawIs(body, |d|, workers, i);
      PastLine(d, b);
      LineEndMonotone(d, last, b);
      LineEndIsBoundary(d, b);
      at := at + [LineEnd(d, b)];
      last := b;
    }
    EndIsBoundary(d);
    at := at + [|d|];
  }

  lemma EndIsBoundary(d: bytes)
    ensures Boundary(d, |d|)
  {
  }

  /** The lines of the first n ranges, range by range. */
  function LinesOfRanges(d: bytes, body: nat, at: seq<nat>, n: nat): (r: seq<bytes>)
    requires Aligned(d, body, at) && n < |at|
  {
    if n == 0 then [] else LinesOfRanges(d, body, at, n - 1) + Lines(Cut(d, at, n - 1))
  }

  lemma {:induction false} RangesSoFar(d: bytes, body: nat, at: seq<nat>, n: nat)
    requires Aligned(d, body, at) && n < |at|
    ensures body <= at[n] && LinesOfRanges(d, body, at, n) == Lines(d[body..at[n]])
  {
    if n > 0 {
      RangesSoFar(d, body, at, n - 1);
      var a, b := d[body..at[n - 1]], Cut(d, at, n - 1);
      assert d[body..at[n]] == a + b;
      LinesSplit(a, b);
    }
  }

  /** However many workers: read range by range, the lines are the lines of the body, so every line
      lies whole in exactly one range. */
  lemma EveryLineOnce(d: bytes, body: nat, at: seq<nat>)
    requires Aligned(d, body, at)
    ensures LinesOfRanges(d, body, at, |at| - 1) == Lines(d[body..])
  {
    RangesSoFar(d, body, at, |at| - 1);
    assert d[body..|d|] == d[body..];
  }

  /** A line: octets without a newline, and then one, which only the last line of a file may lack. */
  predicate IsLine(l: bytes, last: bool) {
    && l != [] && (forall i :: 0 <= i < |l| - 1 ==> l[i] != 10) && (last || l[|l| - 1] == 10)
  }

  /** The lines put together are the octets, and each is a line. */
  lemma {:induction false} LinesMeaning(d: bytes)
    ensures Concatenated(Lines(d)) == d
    ensures forall k :: 0 <= k < |Lines(d)| ==> IsLine(Lines(d)[k], k == |Lines(d)| - 1)
    decreases |d|
  {
    hide LineEnd;
    if d != [] {
      var n := LineEnd(d, 0);
      LineEndIsBoundary(d, 0);
      LinesMeaning(d[n..]);
      assert d == d[..n] + d[n..];
      assert Lines(d) == [d[..n]] + Lines(d[n..]);
      assert d[n..] == [] ==> Lines(d[n..]) == [];
    }
  }

  function Concatenated(ls: seq<bytes>): (d: bytes) {
    if ls == [] then [] else ls[0] + Concatenated(ls[1..])
  }

  /** The body is everything but the first line. */
  lemma BodyIsTheRest(d: bytes)
    requires d != []
    ensures Lines(d) != [] && d[..BodyStart(d)] == Lines(d)[0] && Lines(d[BodyStart(d)..]) == Lines(d)[1..]
  {
    hide LineEnd;
  }
}
