/** The descriptor storage blob: a header, a table of contents, a symbol table and the descriptor
    octets one after the other. */
module Blob {
  import opened Wire
  import opened AemModel

  const MAGIC := 0x41454D31
  const HEADER_SIZE := 20
  const TOC_ENTRY_SIZE := 12
  const SYMBOL_ENTRY_SIZE := 10

  // ---- the image ----

  function Octets(ds: seq<FlatDescriptor>): (r: seq<bytes>)
    ensures |r| == |ds|
  {
    seq(|ds|, i requires 0 <= i < |ds| => ds[i].data)
  }

  function DataOffset(ds: seq<FlatDescriptor>, ss: seq<FlatSymbol>): (r: nat) {
    HEADER_SIZE + TOC_ENTRY_SIZE * |ds| + SYMBOL_ENTRY_SIZE * |ss|
  }

  /** Where the octets of descriptor i start. */
  function Start(ds: seq<FlatDescriptor>, ss: seq<FlatSymbol>, i: nat): (r: nat)
    requires i <= |ds|
  {
    DataOffset(ds, ss) + |Join(Octets(ds)[..i])|
  }

  function TocEntry(d: FlatDescriptor, offset: nat): (r: bytes)
    ensures |r| == TOC_ENTRY_SIZE
  {
    ToBE(d.dtype, 2) + ToBE(d.index, 2) + ToBE(d.config, 2) + ToBE(|d.data|, 2) + ToBE(offset, 4)
  }

  function SymbolEntry(s: FlatSymbol): (r: bytes)
    ensures |r| == SYMBOL_ENTRY_SIZE
  {
    ToBE(s.dtype, 2) + ToBE(s.index, 2) + ToBE(s.config, 2) + ToBE(s.data, 4)
  }

  function Toc(ds: seq<FlatDescriptor>, ss: seq<FlatSymbol>): (r: seq<bytes>)
    ensures |r| == |ds|
  {
    seq(|ds|, i requires 0 <= i < |ds| => TocEntry(ds[i], Start(ds, ss, i)))
  }

  function SymbolTable(ss: seq<FlatSymbol>): (r: seq<bytes>)
    ensures |r| == |ss|
  {
    seq(|ss|, i requires 0 <= i < |ss| => SymbolEntry(ss[i]))
  }

  function Header(ds: seq<FlatDescriptor>, ss: seq<FlatSymbol>): (r: bytes)
    ensures |r| == HEADER_SIZE
  {
    ToBE(MAGIC, 4) + ToBE(|ds|, 4) + ToBE(HEADER_SIZE, 4) + ToBE(|ss|, 4) + ToBE(HEADER_SIZE + TOC_ENTRY_SIZE * |ds|, 4)
  }

  function Image(ds: seq<FlatDescriptor>, ss: seq<FlatSymbol>): (r: bytes) {
    Header(ds, ss) + Join(Toc(ds, ss)) + Join(SymbolTable(ss)) + Join(Octets(ds))
  }

  predicate KeyFits<X>(x: Flat<X>) {
    x.dtype < 0x1_0000 && x.index < 0x1_0000 && x.config < 0x1_0000
  }

  /** Everything the writer packs fits its field. */
  predicate Writable(ds: seq<FlatDescriptor>, ss: seq<FlatSymbol>) {
    && |ss| < 0x1_0000_0000 && HEADER_SIZE + TOC_ENTRY_SIZE * |ds| < 0x1_0000_0000
    && (forall i :: 0 <= i < |ds| ==> KeyFits(ds[i]) && |ds[i].data| < 0x1_0000 && Start(ds, ss, i) < 0x1_0000_0000)
    && (forall s <- ss :: KeyFits(s) && s.data < 0x1_0000_0000)
  }

  // ---- the writer ----

  lemma PackIs(v: nat, n: nat)
    requires n > 0
    ensures Pack(v, n) == if v < Radix(n) then Some(ToBE(v, n)) else None
  {
    hide ToBE, Radix;
    if v < Radix(n) {
      ModShift(v, Radix(n));
    }
  }

  lemma PackFits(v: nat)
    ensures Pack(v, 2) == if v < 0x1_0000 then Some(ToBE(v, 2)) else None
    ensures Pack(v, 4) == if v < 0x1_0000_0000 then Some(ToBE(v, 4)) else None
  {
    hide Pack, ToBE, Radix;
    Radixes();
    PackIs(v, 2);
    PackIs(v, 4);
  }

  lemma Radixes()
    ensures Radix(2) == 0x1_0000 && Radix(4) == 0x1_0000_0000
  {
    assert Radix(1) == 256;
    assert Radix(3) == 256 * Radix(2);
  }

  /** write_blob. It fails exactly when a field does not fit. */
  method WriteBlob(ds: seq<FlatDescriptor>, ss: seq<FlatSymbol>) returns (r: Option<bytes>)
    ensures r == if Writable(ds, ss) then Some(Image(ds, ss)) else None
  {
    var symbolOffset := HEADER_SIZE + TOC_ENTRY_SIZE * |ds|;
    var offsets := ComputeOffsets(ds, ss);
    var header := PackHeader(|ds|, |ss|);
    if header.None? {
      return None;
    }
    var toc := PackToc(ds, ss, offsets);
    if toc.None? {
      return None;
    }
    var table := PackSymbols(ss);
    if table.None? {
      return None;
    }
    r := Some(header.value + toc.value + table.value + Join(Octets(ds)));
  }

  /** The running offset of each descriptor. */
  method ComputeOffsets(ds: seq<FlatDescriptor>, ss: seq<FlatSymbol>) returns (offsets: seq<nat>)
    ensures |offsets| == |ds| && forall i :: 0 <= i < |ds| ==> offsets[i] == Start(ds, ss, i)
  {
    var current := DataOffset(ds, ss);
    offsets := [];
    for i := 0 to |ds|
      invariant |offsets| == i && current == Start(ds, ss, i)
      invariant forall k :: 0 <= k < i ==> offsets[k] == Start(ds, ss, k)
    {
      offsets := offsets + [current];
      current := current + |ds[i].data|;
      JoinSnoc(Octets(ds), i);
    }
  }

  method PackHeader(n: nat, m: nat) returns (r: Option<bytes>)
    ensures r.Some? <==> m < 0x1_0000_0000 && HEADER_SIZE + TOC_ENTRY_SIZE * n < 0x1_0000_0000
    ensures r.Some? ==> r.value == ToBE(MAGIC, 4) + ToBE(n, 4) + ToBE(HEADER_SIZE, 4) + ToBE(m, 4) + ToBE(HEADER_SIZE + TOC_ENTRY_SIZE * n, 4)
  {
    hide ToBE, Pack;
    PackFits(MAGIC);
    PackFits(n);
    PackFits(HEADER_SIZE);
    PackFits(m);
    PackFits(HEADER_SIZE + TOC_ENTRY_SIZE * n);
    var a, b, c, d, e := Pack(MAGIC, 4), Pack(n, 4), Pack(HEADER_SIZE, 4), Pack(m, 4), Pack(HEADER_SIZE + TOC_ENTRY_SIZE * n, 4);
    if b.None? || d.None? || e.None? {
      return None;
    }
    r := Some(a.value + b.value + c.value + d.value + e.value);
  }

  method PackKey<X>(x: Flat<X>) returns (r: Option<bytes>)
    ensures r == if KeyFits(x) then Some(ToBE(x.dtype, 2) + ToBE(x.index, 2) + ToBE(x.config, 2)) else None
  {
    PackFits(x.dtype);
    PackFits(x.index);
    PackFits(x.config);
    var a, b, c := Pack(x.dtype, 2), Pack(x.index, 2), Pack(x.config, 2);
    if a.None? || b.None? || c.None? {
      return None;
    }
    r := Some(a.value + b.value + c.value);
  }

  method PackToc(ds: seq<FlatDescriptor>, ss: seq<FlatSymbol>, offsets: seq<nat>) returns (r: Option<bytes>)
    requires |offsets| == |ds| && forall i :: 0 <= i < |ds| ==> offsets[i] == Start(ds, ss, i)
    ensures r.Some? <==> forall i :: 0 <= i < |ds| ==> KeyFits(ds[i]) && |ds[i].data| < 0x1_0000 && Start(ds, ss, i) < 0x1_0000_0000
    ensures r.Some? ==> r.value == Join(Toc(ds, ss))
  {
    hide Start, ToBE, Pack, Octets;
    var toc: bytes := [];
    for i := 0 to |ds|
      invariant toc == Join(Toc(ds, ss)[..i])
      invariant forall k :: 0 <= k < i ==> KeyFits(ds[k]) && |ds[k].data| < 0x1_0000 && Start(ds, ss, k) < 0x1_0000_0000
    {
      var key := PackKey(ds[i]);
      PackFits(|ds[i].data|);
      PackFits(offsets[i]);
      var length, offset := Pack(|ds[i].data|, 2), Pack(offsets[i], 4);
      if key.None? || length.None? || offset.None? {
        return None;
      }
      toc := toc + (key.value + length.value + offset.value);
      JoinSnoc(Toc(ds, ss), i);
    }
    assert Toc(ds, ss)[..|ds|] == Toc(ds, ss);
    r := Some(toc);
  }

  method PackSymbols(ss: seq<FlatSymbol>) returns (r: Option<bytes>)
    ensures r.Some? <==> forall s <- ss :: KeyFits(s) && s.data < 0x1_0000_0000
    ensures r.Some? ==> r.value == Join(SymbolTable(ss))
  {
    hide ToBE, Pack;
    var table: bytes := [];
    for i := 0 to |ss|
      invariant table == Join(SymbolTable(ss)[..i])
      invariant forall k :: 0 <= k < i ==> KeyFits(ss[k]) && ss[k].data < 0x1_0000_0000
    {
      var key := PackKey(ss[i]);
      PackFits(ss[i].data);
      var code := Pack(ss[i].data, 4);
      if key.None? || code.None? {
        assert ss[i] in ss;
        return None;
      }
      table := table + (key.value + code.value);
      JoinSnoc(SymbolTable(ss), i);
    }
    assert SymbolTable(ss)[..|ss|] == SymbolTable(ss);
    r := Some(table);
  }

  // ---- the reader ----

  /** data[offset:offset+length] as Python slices, clamped at the end. */
  function Slice(data: bytes, offset: nat, length: nat): (r: bytes) {
    if offset > |data| then [] else if offset + length > |data| then data[offset..] else data[offset..offset + length]
  }

  function ReadToc(data: bytes, base: nat, i: nat): (r: Option<FlatDescriptor>) {
    var pos := base + TOC_ENTRY_SIZE * i;
    if pos + TOC_ENTRY_SIZE > |data| then None else
      Some(Flat(Unpack(data, pos + 4, 2).value, Unpack(data, pos, 2).value, Unpack(data, pos + 2, 2).value,
                Slice(data, Unpack(data, pos + 8, 4).value, Unpack(data, pos + 6, 2).value)))
  }

  function ReadSymbol(data: bytes, base: nat, i: nat): (r: Option<FlatSymbol>) {
    var pos := base + SYMBOL_ENTRY_SIZE * i;
    if pos + SYMBOL_ENTRY_SIZE > |data| then None else
      Some(Flat(Unpack(data, pos + 4, 2).value, Unpack(data, pos, 2).value, Unpack(data, pos + 2, 2).value,
                Unpack(data, pos + 6, 4).value))
  }

  predicate HasHeader(data: bytes) {
    |data| >= HEADER_SIZE && Unpack(data, 0, 4) == Some(MAGIC)
  }

  /** Every entry the header announces lies inside the blob. */
  predicate Readable(data: bytes) {
    && HasHeader(data)
    && (forall i :: 0 <= i < Unpack(data, 4, 4).value ==> ReadToc(data, Unpack(data, 8, 4).value, i).Some?)
    && (forall i :: 0 <= i < Unpack(data, 12, 4).value ==> ReadSymbol(data, Unpack(data, 16, 4).value, i).Some?)
  }

  /** r is what the blob holds. */
  predicate Holds(data: bytes, ds: seq<FlatDescriptor>, ss: seq<FlatSymbol>)
    requires HasHeader(data)
  {
    && |ds| == Unpack(data, 4, 4).value && |ss| == Unpack(data, 12, 4).value
    && (forall i :: 0 <= i < |ds| ==> ReadToc(data, Unpack(data, 8, 4).value, i) == Some(ds[i]))
    && (forall i :: 0 <= i < |ss| ==> ReadSymbol(data, Unpack(data, 16, 4).value, i) == Some(ss[i]))
  }

  /** read_blob: fails on a short blob, a bad magic, or a table that leaves the blob. */
  method ReadBlob(data: bytes) returns (r: Option<(seq<FlatDescriptor>, seq<FlatSymbol>)>)
    ensures r.Some? <==> Readable(data)
    ensures r.Some? ==> Holds(data, r.value.0, r.value.1)
  {
    if |data| < HEADER_SIZE {
      return None;
    }
    if Unpack(data, 0, 4).value != MAGIC {
      return None;
    }
    var n, toc, m, table := Unpack(data, 4, 4).value, Unpack(data, 8, 4).value, Unpack(data, 12, 4).value, Unpack(data, 16, 4).value;
    var ds: seq<FlatDescriptor> := [];
    for i := 0 to n
      invariant |ds| == i && forall k :: 0 <= k < i ==> ReadToc(data, toc, k) == Some(ds[k])
    {
      var d := ReadToc(data, toc, i);
      if d.None? {
        return None;
      }
      ds := ds + [d.value];
    }
    var ss: seq<FlatSymbol> := [];
    for i := 0 to m
      invariant |ss| == i && forall k :: 0 <= k < i ==> ReadSymbol(data, table, k) == Some(ss[k])
    {
      var s := ReadSymbol(data, table, i);
      if s.None? {
        return None;
      }
      ss := ss + [s.value];
    }
    r := Some((ds, ss));
  }

  // ---- the reader inverts the writer ----

  /** A field of a record reads the same from the buffer the record lies in. */
  lemma UnpackInside(data: bytes, pos: nat, w: nat, k: nat, n: nat)
    requires pos + w <= |data| && k + n <= w
    ensures Unpack(data, pos + k, n) == Unpack(data[pos..pos + w], k, n)
  {
    Within(data, pos, w, k, n);
  }

  lemma UnpackMiddle(a: bytes, v: nat, n: nat, b: bytes, k: nat)
    requires v < Radix(n) && k == |a|
    ensures Unpack(a + ToBE(v, n) + b, k, n) == Some(v)
  {
    FromToBE(v, n);
    assert (a + ToBE(v, n) + b)[k..k + n] == ToBE(v, n);
  }

  lemma TocFields(d: FlatDescriptor, offset: nat)
    requires KeyFits(d) && |d.data| < 0x1_0000 && offset < 0x1_0000_0000
    ensures var e := TocEntry(d, offset);
            && Unpack(e, 0, 2) == Some(d.dtype) && Unpack(e, 2, 2) == Some(d.index) && Unpack(e, 4, 2) == Some(d.config)
            && Unpack(e, 6, 2) == Some(|d.data|) && Unpack(e, 8, 4) == Some(offset)
  {
    hide Radix, ToBE, Unpack;
    Radixes();
    var a, b, c, l, o := ToBE(d.dtype, 2), ToBE(d.index, 2), ToBE(d.config, 2), ToBE(|d.data|, 2), ToBE(offset, 4);
    var e := TocEntry(d, offset);
    assert e == [] + a + (b + c + l + o) == a + b + (c + l + o) == a + b + c + (l + o) == a + b + c + l + o == a + b + c + l + o + [];
    UnpackMiddle([], d.dtype, 2, b + c + l + o, 0);
    UnpackMiddle(a, d.index, 2, c + l + o, 2);
    UnpackMiddle(a + b, d.config, 2, l + o, 4);
    UnpackMiddle(a + b + c, |d.data|, 2, o, 6);
    UnpackMiddle(a + b + c + l, offset, 4, [], 8);
  }

  lemma SymbolFields(s: FlatSymbol)
    requires KeyFits(s) && s.data < 0x1_0000_0000
    ensures var e := SymbolEntry(s);
            && Unpack(e, 0, 2) == Some(s.dtype) && Unpack(e, 2, 2) == Some(s.index) && Unpack(e, 4, 2) == Some(s.config)
            && Unpack(e, 6, 4) == Some(s.data)
  {
    hide Radix, ToBE, Unpack;
    Radixes();
    var a, b, c, o := ToBE(s.dtype, 2), ToBE(s.index, 2), ToBE(s.config, 2), ToBE(s.data, 4);
    var e := SymbolEntry(s);
    assert e == [] + a + (b + c + o) == a + b + (c + o) == a + b + c + o == a + b + c + o + [];
    UnpackMiddle([], s.dtype, 2, b + c + o, 0);
    UnpackMiddle(a, s.index, 2, c + o, 2);
    UnpackMiddle(a + b, s.config, 2, o, 4);
    UnpackMiddle(a + b + c, s.data, 4, [], 6);
  }

  lemma HeaderFields(ds: seq<FlatDescriptor>, ss: seq<FlatSymbol>, rest: bytes)
    requires |ss| < 0x1_0000_0000 && HEADER_SIZE + TOC_ENTRY_SIZE * |ds| < 0x1_0000_0000
    ensures var data := Header(ds, ss) + rest;
            && Unpack(data, 0, 4) == Some(MAGIC) && Unpack(data, 4, 4) == Some(|ds|) && Unpack(data, 8, 4) == Some(HEADER_SIZE)
            && Unpack(data, 12, 4) == Some(|ss|) && Unpack(data, 16, 4) == Some(HEADER_SIZE + TOC_ENTRY_SIZE * |ds|)
  {
    hide Radix, ToBE, Unpack;
    Radixes();
    var s := HEADER_SIZE + TOC_ENTRY_SIZE * |ds|;
    var a, b, c, d, e := ToBE(MAGIC, 4), ToBE(|ds|, 4), ToBE(HEADER_SIZE, 4), ToBE(|ss|, 4), ToBE(s, 4);
    var data := Header(ds, ss) + rest;
    assert data == [] + a + (b + c + d + e + rest) == a + b + (c + d + e + rest) == a + b + c + (d + e + rest)
      == a + b + c + d + (e + rest) == a + b + c + d + e + rest;
    UnpackMiddle([], MAGIC, 4, b + c + d + e + rest, 0);
    UnpackMiddle(a, |ds|, 4, c + d + e + rest, 4);
    UnpackMiddle(a + b, HEADER_SIZE, 4, d + e + rest, 8);
    UnpackMiddle(a + b + c, |ss|, 4, e + rest, 12);
    UnpackMiddle(a + b + c + d, s, 4, rest, 16);
  }

  /** The descriptor octets lie end to end, in order, from the end of the tables to the end of the
      blob. */
  lemma Layout(ds: seq<FlatDescriptor>, ss: seq<FlatSymbol>, i: nat)
    requires i < |ds|
    ensures Start(ds, ss, 0) == DataOffset(ds, ss) && Start(ds, ss, i + 1) == Start(ds, ss, i) + |ds[i].data|
    ensures Start(ds, ss, |ds|) == |Image(ds, ss)|
    ensures Start(ds, ss, i + 1) <= |Image(ds, ss)| && Image(ds, ss)[Start(ds, ss, i)..Start(ds, ss, i + 1)] == ds[i].data
  {
    hide Toc, SymbolTable, Header, Join, ToBE;
    var front := Header(ds, ss) + Join(Toc(ds, ss)) + Join(SymbolTable(ss));
    var parts := Octets(ds);
    TablesEnd(ds, ss);
    JoinSnoc(parts, i);
    JoinAt(parts, i);
    assert parts[..|ds|] == parts;
    NothingJoined(parts);
    Shifted(front, Join(parts), |Join(parts[..i])|, |Join(parts[..i + 1])|);
  }

  lemma NothingJoined(parts: seq<bytes>)
    ensures |Join(parts[..0])| == 0
  {
  }

  lemma Shifted(front: bytes, back: bytes, a: nat, b: nat)
    requires a <= b <= |back|
    ensures (front + back)[|front| + a..|front| + b] == back[a..b]
  {
  }

  lemma TablesEnd(ds: seq<FlatDescriptor>, ss: seq<FlatSymbol>)
    ensures |Header(ds, ss) + Join(Toc(ds, ss)) + Join(SymbolTable(ss))| == DataOffset(ds, ss)
  {
    hide Join, TocEntry, SymbolEntry, Header, Start;
    assert forall p <- Toc(ds, ss) :: |p| == TOC_ENTRY_SIZE;
    assert forall p <- SymbolTable(ss) :: |p| == SYMBOL_ENTRY_SIZE;
    JoinWidth(Toc(ds, ss), TOC_ENTRY_SIZE);
    JoinWidth(SymbolTable(ss), SYMBOL_ENTRY_SIZE);
  }

  lemma TocEntryRead(data: bytes, pos: nat, d: FlatDescriptor, offset: nat)
    requires KeyFits(d) && |d.data| < 0x1_0000 && offset < 0x1_0000_0000
    requires pos + TOC_ENTRY_SIZE <= |data| && data[pos..pos + TOC_ENTRY_SIZE] == TocEntry(d, offset)
    ensures Unpack(data, pos, 2) == Some(d.dtype) && Unpack(data, pos + 2, 2) == Some(d.index)
    ensures Unpack(data, pos + 4, 2) == Some(d.config)
    ensures Unpack(data, pos + 6, 2) == Some(|d.data|) && Unpack(data, pos + 8, 4) == Some(offset)
  {
    hide TocEntry, Unpack;
    var w := TOC_ENTRY_SIZE;
    TocFields(d, offset);
    UnpackInside(data, pos, w, 0, 2);
    UnpackInside(data, pos, w, 2, 2);
    UnpackInside(data, pos, w, 4, 2);
    UnpackInside(data, pos, w, 6, 2);
    UnpackInside(data, pos, w, 8, 4);
  }

  lemma TocReadsBack(ds: seq<FlatDescriptor>, ss: seq<FlatSymbol>, i: nat)
    requires Writable(ds, ss) && i < |ds|
    ensures ReadToc(Image(ds, ss), HEADER_SIZE, i) == Some(ds[i])
  {
    hide TocEntry, SymbolEntry, Header, Start, Unpack, Join, Octets, SymbolTable;
    var data, pos, w := Image(ds, ss), HEADER_SIZE + TOC_ENTRY_SIZE * i, TOC_ENTRY_SIZE;
    var after := Join(SymbolTable(ss)) + Join(Octets(ds));
    assert data == Header(ds, ss) + Join(Toc(ds, ss)) + after;
    RecordAt(Header(ds, ss), Toc(ds, ss), after, w, i);
    TocEntryRead(data, pos, ds[i], Start(ds, ss, i));
    Layout(ds, ss, i);
  }

  lemma SymbolReadsBack(ds: seq<FlatDescriptor>, ss: seq<FlatSymbol>, i: nat)
    requires Writable(ds, ss) && i < |ss|
    ensures ReadSymbol(Image(ds, ss), HEADER_SIZE + TOC_ENTRY_SIZE * |ds|, i) == Some(ss[i])
  {
    hide TocEntry, SymbolEntry, Header, Start, Unpack, Join, Octets;
    var data, pos, w := Image(ds, ss), HEADER_SIZE + TOC_ENTRY_SIZE * |ds| + SYMBOL_ENTRY_SIZE * i, SYMBOL_ENTRY_SIZE;
    JoinWidth(Toc(ds, ss), TOC_ENTRY_SIZE);
    RecordAt(Header(ds, ss) + Join(Toc(ds, ss)), SymbolTable(ss), Join(Octets(ds)), w, i);
    assert ss[i] in ss;
    SymbolFields(ss[i]);
    UnpackInside(data, pos, w, 0, 2);
    UnpackInside(data, pos, w, 2, 2);
    UnpackInside(data, pos, w, 4, 2);
    UnpackInside(data, pos, w, 6, 4);
  }

  /** Whatever the writer accepts, the reader gives back in order, and nothing else fits the blob. */
  lemma BlobRoundTrip(ds: seq<FlatDescriptor>, ss: seq<FlatSymbol>)
    requires Writable(ds, ss)
    ensures Readable(Image(ds, ss))
    ensures forall ds', ss' :: Holds(Image(ds, ss), ds', ss') <==> ds' == ds && ss' == ss
  {
    hide ReadToc, ReadSymbol, Unpack, Start, Header, Join, Octets;
    var data := Image(ds, ss);
    HeaderFields(ds, ss, Join(Toc(ds, ss)) + Join(SymbolTable(ss)) + Join(Octets(ds)));
    assert data == Header(ds, ss) + (Join(Toc(ds, ss)) + Join(SymbolTable(ss)) + Join(Octets(ds)));
    assert HasHeader(data);
    forall i | 0 <= i < |ds| ensures ReadToc(data, HEADER_SIZE, i) == Some(ds[i]) {
      TocReadsBack(ds, ss, i);
    }
    forall i | 0 <= i < |ss| ensures ReadSymbol(data, HEADER_SIZE + TOC_ENTRY_SIZE * |ds|, i) == Some(ss[i]) {
      SymbolReadsBack(ds, ss, i);
    }
    assert Holds(data, ds, ss);
    assert forall i :: 0 <= i < |ds| ==> ReadToc(data, Unpack(data, 8, 4).value, i).Some?;
    assert forall i :: 0 <= i < |ss| ==> ReadSymbol(data, Unpack(data, 16, 4).value, i).Some?;
    forall ds', ss' | Holds(data, ds', ss') ensures ds' == ds && ss' == ss {
      assert forall i :: 0 <= i < |ds| ==> Some(ds'[i]) == Some(ds[i]);
      assert forall i :: 0 <= i < |ss| ==> Some(ss'[i]) == Some(ss[i]);
    }
  }
}
