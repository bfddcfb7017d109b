/** The descriptor storage blob, octet by octet. */
module BlobOctets {
  import opened Wire
  import opened AemModel
  import opened Blob

  lemma UnpackWord(data: bytes, pos: nat)
    requires pos + 2 <= |data|
    ensures Unpack(data, pos, 2) == Some(U16At(data, pos))
  {
    var s := data[pos..pos + 2];
    assert s[..1] == [data[pos]] && s[1] == data[pos + 1];
    assert FromBE(s[..1]) == FromBE([]) * 256 + data[pos];
  }

  lemma UnpackTwoWords(data: bytes, pos: nat)
    requires pos + 4 <= |data|
    ensures Unpack(data, pos, 4) == Some(U32At(data, pos))
  {
    hide FromBE;
    var s := data[pos..pos + 4];
    FromBEStep(s);
    FromBEStep(s[..3]);
    assert s[..3][..2] == s[..2];
    assert s[..2] == data[pos..pos + 2];
    assert s[3] == data[pos + 3] && s[..3][2] == data[pos + 2];
    UnpackWord(data, pos);
  }

  lemma FromBEStep(s: bytes)
    requires s != []
    ensures FromBE(s) == FromBE(s[..|s| - 1]) * 256 + s[|s| - 1]
  {
  }

  /** The header: AEM1, how many descriptors and where their table is, how many symbols and where theirs is. */
  lemma HeaderOctets(ds: seq<FlatDescriptor>, ss: seq<FlatSymbol>)
    requires Writable(ds, ss)
    ensures var b := Image(ds, ss);
            && |b| >= 20 + 12 * |ds| + 10 * |ss| && b[..4] == [0x41, 0x45, 0x4D, 0x31]
            && U32At(b, 4) == |ds| && U32At(b, 8) == 20 && U32At(b, 12) == |ss| && U32At(b, 16) == 20 + 12 * |ds|
  {
    hide Unpack, Header, Join, Octets, Toc, SymbolTable, U32At, ToBE;
    var rest := Join(Toc(ds, ss)) + Join(SymbolTable(ss)) + Join(Octets(ds));
    var b := Image(ds, ss);
    assert b == Header(ds, ss) + rest;
    TablesEnd(ds, ss);
    HeaderFields(ds, ss, rest);
    Magic(b, ds, ss, rest);
    UnpackTwoWords(b, 4);
    UnpackTwoWords(b, 8);
    UnpackTwoWords(b, 12);
    UnpackTwoWords(b, 16);
  }

  lemma Magic(b: bytes, ds: seq<FlatDescriptor>, ss: seq<FlatSymbol>, rest: bytes)
    requires b == Header(ds, ss) + rest
    ensures b[..4] == [0x41, 0x45, 0x4D, 0x31]
  {
    hide ToBE;
    AemOne();
    assert b[..4] == ToBE(MAGIC, 4);
  }

  lemma AemOne()
    ensures ToBE(0x4145_4D31, 4) == [0x41, 0x45, 0x4D, 0x31]
  {
    assert ToBE(0x41, 1) == ToBE(0, 0) + [0x41];
    assert ToBE(0x4145, 2) == ToBE(0x41, 1) + [0x45];
    assert ToBE(0x4145_4D, 3) == ToBE(0x4145, 2) + [0x4D];
  }

  /** Where entry i of the table of contents says the octets of its descriptor are. */
  function PlaceOf(b: bytes, i: nat): (p: nat)
    requires 32 + 12 * i <= |b|
  {
    U32At(b, 28 + 12 * i)
  }

  /** Entry i of the table of contents: type, index, configuration and length, and a place where the octets are. */
  lemma EntryOctets(ds: seq<FlatDescriptor>, ss: seq<FlatSymbol>, i: nat)
    requires Writable(ds, ss) && i < |ds|
    ensures var b, at, n := Image(ds, ss), 20 + 12 * i, |ds[i].data|;
            && at + 12 <= |b| && U16At(b, at) == ds[i].dtype && U16At(b, at + 2) == ds[i].index && U16At(b, at + 4) == ds[i].config
            && U16At(b, at + 6) == n && PlaceOf(b, i) + n <= |b| && b[PlaceOf(b, i)..PlaceOf(b, i) + n] == ds[i].data
  {
    hide Start, Unpack, Image, U16At, U32At;
    TocEntryAt(ds, ss, i);
    Layout(ds, ss, i);
  }

  /** The octets of the first descriptor follow the tables, those of the last end the blob, and any others follow those of
      the descriptor before. */
  lemma PlacesFollow(ds: seq<FlatDescriptor>, ss: seq<FlatSymbol>, i: nat)
    requires Writable(ds, ss) && i < |ds|
    ensures |Image(ds, ss)| >= 20 + 12 * |ds|
    ensures PlaceOf(Image(ds, ss), 0) == 20 + 12 * |ds| + 10 * |ss|
    ensures i > 0 ==> PlaceOf(Image(ds, ss), i) == PlaceOf(Image(ds, ss), i - 1) + |ds[i - 1].data|
    ensures i == |ds| - 1 ==> PlaceOf(Image(ds, ss), i) + |ds[i].data| == |Image(ds, ss)|
  {
    hide Start, Unpack, Image, U16At, U32At;
    HeaderOctets(ds, ss);
    TocEntryAt(ds, ss, 0);
    TocEntryAt(ds, ss, i);
    Layout(ds, ss, 0);
    Layout(ds, ss, i);
    if i > 0 {
      TocEntryAt(ds, ss, i - 1);
      Layout(ds, ss, i - 1);
    }
  }

  lemma TocEntryAt(ds: seq<FlatDescriptor>, ss: seq<FlatSymbol>, i: nat)
    requires Writable(ds, ss) && i < |ds|
    ensures var b, at := Image(ds, ss), 20 + 12 * i;
            && at + 12 <= |b| && U16At(b, at) == ds[i].dtype && U16At(b, at + 2) == ds[i].index && U16At(b, at + 4) == ds[i].config
            && U16At(b, at + 6) == |ds[i].data| && U32At(b, at + 8) == Start(ds, ss, i)
  {
    hide TocEntry, SymbolEntry, Header, Start, Unpack, Join, Octets, SymbolTable, U16At, U32At;
    var b, pos := Image(ds, ss), HEADER_SIZE + TOC_ENTRY_SIZE * i;
    var after := Join(SymbolTable(ss)) + Join(Octets(ds));
    assert b == Header(ds, ss) + Join(Toc(ds, ss)) + after;
    RecordAt(Header(ds, ss), Toc(ds, ss), after, TOC_ENTRY_SIZE, i);
    TocEntryRead(b, pos, ds[i], Start(ds, ss, i));
    UnpackWord(b, pos);
    UnpackWord(b, pos + 2);
    UnpackWord(b, pos + 4);
    UnpackWord(b, pos + 6);
    UnpackTwoWords(b, pos + 8);
  }

  /** Entry i of the symbol table: type, index, configuration and code. */
  lemma SymbolOctets(ds: seq<FlatDescriptor>, ss: seq<FlatSymbol>, i: nat)
    requires Writable(ds, ss) && i < |ss|
    ensures var b, at := Image(ds, ss), 20 + 12 * |ds| + 10 * i;
            && at + 10 <= |b| && U16At(b, at) == ss[i].dtype && U16At(b, at + 2) == ss[i].index && U16At(b, at + 4) == ss[i].config
            && U32At(b, at + 6) == ss[i].data
  {
    hide TocEntry, Header, Start, Unpack, Join, Octets, U16At, U32At, Image;
    var b, at := Image(ds, ss), 20 + 12 * |ds| + 10 * i;
    SymbolReadsBack(ds, ss, i);
    UnpackWord(b, at);
    UnpackWord(b, at + 2);
    UnpackWord(b, at + 4);
    UnpackTwoWords(b, at + 6);
  }
}
