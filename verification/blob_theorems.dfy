/** Compiled entities in descriptor storage blobs. */
module BlobTheorems {
  import opened Wire
  import opened AemModel
  import opened Pools
  import opened Counts
  import opened Codec
  import opened Flatten
  import opened Compiler
  import opened Decompiler
  import opened AemTheorems
  import opened AemTrips
  import Blob

  lemma TypesFit(t: nat)
    requires t in COUNTED_TYPES
    ensures t < 0x1_0000
  {
    assert forall x <- COUNTED_TYPES :: x < 0x1_0000;
  }

  lemma PoolKeysFit(e: Entity, config: nat, t: nat, i: nat)
    requires WfEntity(e) && NumbersFit(e) && config < |e.configurations| && i < Size(AddConfiguration(e.configurations[config]), t)
    ensures t < 0x1_0000 && i < 0x1_0000 && config < 0x1_0000
  {
    hide AddConfiguration, Total, WfConfiguration;
    var c := e.configurations[config];
    assert c in e.configurations;
    CountsFitPools(e, config);
    CountTableIsExact(c, t);
    if t in COUNTED_TYPES {
      TypesFit(t);
    } else {
      NothingOutsideTable(c, t);
    }
  }

  /** Of a compiled entity, the writer can only refuse an oversized descriptor, a code wider than 32
      bits, or a blob that outgrows 32-bit offsets: every type, index and configuration fits. */
  lemma CompiledKeysFit(ds: seq<FlatDescriptor>, ss: seq<FlatSymbol>, e: Entity)
    requires WfEntity(e) && NumbersFit(e) && IsFlat(ds, e) && IsSymbolTable(ss, e)
    ensures (forall d <- ds :: Blob.KeyFits(d)) && (forall s <- ss :: Blob.KeyFits(s))
  {
    hide AddConfiguration, NumbersFit, WfConfiguration, FinalEntityWire, ConfigurationWire, StrictlySorted;
    forall d <- ds ensures Blob.KeyFits(d) {
      assert Emitted(e, d);
      if d.config < |e.configurations| && InPools(d, d.config, AddConfiguration(e.configurations[d.config])) {
        PoolKeysFit(e, d.config, d.dtype, d.index);
      } else {
        ConfigurationsFit(e);
      }
    }
    forall s <- ss ensures Blob.KeyFits(s) {
      assert Symbolised(e, s);
      if NamedInPools(s, s.config, AddConfiguration(e.configurations[s.config])) {
        PoolKeysFit(e, s.config, s.dtype, s.index);
      } else {
        ConfigurationsFit(e);
      }
    }
  }

  lemma ConfigurationsFit(e: Entity)
    requires NumbersFit(e)
    ensures |e.configurations| <= 0xFFFF
  {
  }

  lemma {:induction false} ShorterJoin(a: seq<bytes>, b: seq<bytes>)
    requires |a| == |b| && forall i :: 0 <= i < |a| ==> |b[i]| <= |a[i]|
    ensures |Join(b)| <= |Join(a)|
  {
    if a != [] {
      ShorterJoin(a[..|a| - 1], b[..|b| - 1]);
    }
  }

  /** Shorter descriptors under the same keys can be written too. */
  lemma ShorterIsWritable(ds: seq<FlatDescriptor>, ds': seq<FlatDescriptor>, ss: seq<FlatSymbol>)
    requires Blob.Writable(ds, ss) && |ds'| == |ds|
    requires forall i :: 0 <= i < |ds| ==> SameKey(ds'[i], ds[i]) && |ds'[i].data| <= |ds[i].data|
    ensures Blob.Writable(ds', ss)
  {
    hide Join;
    forall i | 0 <= i < |ds| ensures Blob.Start(ds', ss, i) <= Blob.Start(ds, ss, i) {
      ShorterJoin(Blob.Octets(ds)[..i], Blob.Octets(ds')[..i]);
    }
  }

  /** Compile, store, load, decompile: whatever is read back from the blob decompiles to the normal
      form of the entity. Compiling that and storing it with the same symbols gives the same blob, octet for
      octet, exactly when everything in the entity survives its parser. */
  lemma EntityThroughTheBlob(e: Entity, ds: seq<FlatDescriptor>, ss: seq<FlatSymbol>,
                             ds': seq<FlatDescriptor>, ss': seq<FlatSymbol>, again: seq<FlatDescriptor>)
    requires Compiles(e) && IsFlat(ds, e) && IsSymbolTable(ss, e) && Blob.Writable(ds, ss)
    requires Blob.HasHeader(Blob.Image(ds, ss)) && Blob.Holds(Blob.Image(ds, ss), ds', ss')
    requires IsFlat(again, NormalEntity(e))
    ensures Decompiled(ds') == Some(NormalEntity(e)) && IsSymbolTable(ss', e)
    ensures Blob.Writable(again, ss') && (Blob.Image(again, ss') == Blob.Image(ds, ss) <==> AllSurvive(e))
  {
    hide IsFlat, WfEntity, NumbersFit, Written, NormalEntity, AllSurvive, Decompiled, Blob.Image, Blob.Writable, Blob.Holds, Blob.HasHeader;
    Blob.BlobRoundTrip(ds, ss);
    DecompileCompiled(ds, e);
    RecompileChangesNothing(ds, e, again);
    RecompileIsPointwise(ds, e, again);
    ShorterIsWritable(ds, again, ss);
    Blob.BlobRoundTrip(again, ss');
  }
}
