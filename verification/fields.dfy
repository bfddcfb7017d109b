/** The own fields of descriptors: values written one after the other, and read back at fixed offsets. */
module Fields {
  import opened Wire
  import opened Arithmetic
  import opened Utf8

  /** A range-checked number, an EUI, a 64-octet string, or a localized reference. */
  datatype Kind = Number(width: nat) | Eui(width: nat) | Text | Reference

  datatype Value = Num(v: int) | Str(s: bytes) | Ref(offset: nat, index: nat)

  predicate WfKind(k: Kind) {
    match k
    case Number(w) => w in {1, 2, 4, 8}
    case Eui(w) => w in {6, 8}
    case _ => true
  }

  function Width(k: Kind): (w: nat) {
    match k
    case Number(w) => w
    case Eui(w) => w
    case Text => 64
    case Reference => 2
  }

  /** The serializer takes the value: otherwise it raises. */
  predicate Accepts(k: Kind, v: Value)
    requires WfKind(k)
  {
    match k
    case Number(w) => v.Num? && Packable(v.v, w)
    case Eui(_) => v.Num? && 0 <= v.v < Radix(8)
    case Text => v.Str? && WellFormed(v.s)
    case Reference => v.Ref?
  }

  /** The octets of a field. An EUI-48 is the low six octets of eight. */
  function Octets(k: Kind, v: Value): (r: bytes)
    requires WfKind(k) && Accepts(k, v)
    ensures |r| == Width(k)
  {
    match k
    case Number(w) => ToBE(v.v % Radix(w), w)
    case Eui(w) => ToBE(v.v, w)
    case Text => String64(v.s)
    case Reference => ToBE(PackRef(v.offset, v.index), 2)
  }

  /** What a parser reads from the octets of a field: numbers unsigned, strings up to the first NUL,
      with U+FFFD for what is not well formed. */
  function Read(k: Kind, d: bytes): (v: Value)
    requires |d| == Width(k)
  {
    match k
    case Number(_) => Num(FromBE(d))
    case Eui(_) => Num(FromBE(d))
    case Text => Str(Unpacked(d))
    case Reference => Ref(UnpackRef(FromBE(d)).0, UnpackRef(FromBE(d)).1)
  }

  /** The values a field gives back. */
  predicate Survives(k: Kind, v: Value)
    requires WfKind(k) && Accepts(k, v)
  {
    match k
    case Number(_) => v.v >= 0
    case Eui(w) => v.v < Radix(w)
    case Text => Fits64(v.s)
    case Reference => v.offset < 0x2000 && v.index < 8
  }

  lemma TwoOctetWord(w: nat)
    requires w < 0x1_0000
    ensures FromBE(ToBE(w, 2)) == w
  {
    assert Radix(1) == 256;
    FromToBE(w, 2);
  }

  lemma {:induction false} LowOctets(v: nat, n: nat)
    ensures FromBE(ToBE(v, n)) == v % Radix(n)
  {
    if n > 0 {
      LowOctets(v / 256, n - 1);
      assert ToBE(v, n)[..n - 1] == ToBE(v / 256, n - 1);
      SplitModulus(v, Radix(n - 1));
    }
  }

  lemma SplitModulus(v: nat, m: nat)
    requires m > 0
    ensures v / 256 % m * 256 + v % 256 == v % (256 * m)
  {
    var q := v / 256;
    var a, b := q / m, q % m;
    assert q == m * a + b;
    assert v == 256 * q + v % 256;
    var r := b * 256 + v % 256;
    assert r < 256 * m by { assert b <= m - 1; }
    assert v == (256 * m) * a + r by { assert 256 * (m * a) == (256 * m) * a; }
    RemainderIs(v, 256 * m, a, r);
  }

  lemma RemainderIs(v: nat, n: nat, a: nat, r: nat)
    requires n > 0 && v == n * a + r && r < n
    ensures v % n == r
  {
    var q := Quotient(v, n);
    assert q * n <= v < (q + 1) * n;
    LeastQuotient(a, q, v, v, n);
    assert n * a == a * n && v < (a + 1) * n;
    LeastQuotient(q, a, v, v, n);
  }

  /** A field gives a value back exactly when it is not negative, fits its octets, and as a string has no NUL and is
      no longer than the field, or only by the end of a U+FFFD. */
  lemma FieldRoundTrip(k: Kind, v: Value)
    requires WfKind(k) && Accepts(k, v)
    ensures Read(k, Octets(k, v)) == v <==> Survives(k, v)
  {
    hide ToBE, FromBE, Radix, String64, Unpacked, WellFormed, Fits64;
    match k {
      case Number(w) =>
        ModShift(v.v, Radix(w));
        FromToBE(v.v % Radix(w), w);
      case Eui(w) =>
        LowOctets(v.v, w);
        if v.v < Radix(w) { ModShift(v.v, Radix(w)); }
      case Text => FieldGivesBack(v.s);
      case Reference =>
        TwoOctetWord(PackRef(v.offset, v.index));
        RefRoundTrip(v.offset, v.index);
    }
  }

  lemma EuiFits(d: bytes)
    requires |d| in {6, 8}
    ensures FromBE(d) < Radix(8)
  {
    assert Radix(8) == 256 * Radix(7) == 256 * (256 * Radix(6));
    assert FromBE(d) < Radix(|d|);
  }

  // ---- a field's octets, parsed and serialized again ----

  lemma ReadIsAccepted(k: Kind, d: bytes)
    requires WfKind(k) && |d| == Width(k)
    ensures Accepts(k, Read(k, d))
  {
    hide Radix, FromBE, WellFormed;
    match k {
      case Number(w) => HalfIsNonNegative(w);
      case Eui(_) => EuiFits(d);
      case Text => RepairedIsWellFormed(UntilNul(d));
      case Reference =>
    }
  }

  lemma HalfIsNonNegative(w: nat)
    ensures Radix(w) / 2 >= 0
  {
  }

  /** Serialize after parse, for one field of any octets. */
  function Canon(k: Kind, d: bytes): (r: bytes)
    requires WfKind(k) && |d| == Width(k)
    ensures |r| == Width(k)
  {
    ReadIsAccepted(k, d);
    Octets(k, Read(k, d))
  }

  /** Only strings can change: what follows a NUL is lost. */
  lemma CanonKeepsNumbers(k: Kind, d: bytes)
    requires WfKind(k) && |d| == Width(k) && !k.Text?
    ensures Canon(k, d) == d
  {
    hide ToBE, FromBE, Radix;
    ReadIsAccepted(k, d);
    match k {
      case Number(w) =>
        ModShift(FromBE(d), Radix(w));
        ToFromBE(d);
      case Eui(_) => ToFromBE(d);
      case Reference =>
        WordFits(d);
        ToFromBE(d);
      case Text =>
    }
  }

  lemma WordFits(d: bytes)
    requires |d| == 2
    ensures FromBE(d) < 0x1_0000 && PackRef(UnpackRef(FromBE(d)).0, UnpackRef(FromBE(d)).1) == FromBE(d)
  {
    assert Radix(1) == 256;
    assert Radix(2) == 0x1_0000;
  }

  /** Written again, what was read gives the same octets, even where the value itself did not survive; but for a string,
      exactly when its field is clean. */
  lemma FieldReserializes(k: Kind, v: Value)
    requires WfKind(k) && Accepts(k, v)
    ensures Canon(k, Octets(k, v)) == Octets(k, v) <==> (k.Text? ==> CleanText(Octets(k, v)))
  {
    hide Canon, CleanText;
    var d := Octets(k, v);
    if k.Text? {
      TextCanon(d);
      FieldComesBack(d);
    } else {
      CanonKeepsNumbers(k, d);
    }
  }

  lemma TextCanon(d: bytes)
    requires |d| == 64
    ensures Canon(Text, d) == Repacked(d)
  {
  }

  // ---- whole layouts ----

  type Layout = seq<Kind>

  predicate WfLayout(l: Layout) {
    forall i :: 0 <= i < |l| ==> WfKind(l[i])
  }

  predicate AllAccepted(l: Layout, vs: seq<Value>)
    requires WfLayout(l)
  {
    |vs| == |l| && forall i :: 0 <= i < |l| ==> Accepts(l[i], vs[i])
  }

  /** Where field n starts. */
  function Offset(l: Layout, n: nat): (p: nat)
    requires n <= |l|
  {
    if n == 0 then 0 else Offset(l, n - 1) + Width(l[n - 1])
  }

  function Parts(l: Layout, vs: seq<Value>): (r: seq<bytes>)
    requires WfLayout(l) && AllAccepted(l, vs)
    ensures |r| == |l| && forall i :: 0 <= i < |l| ==> r[i] == Octets(l[i], vs[i])
  {
    seq(|l|, i requires 0 <= i < |l| => Octets(l[i], vs[i]))
  }

  function Serialize(l: Layout, vs: seq<Value>): (r: bytes)
    requires WfLayout(l) && AllAccepted(l, vs)
  {
    Join(Parts(l, vs))
  }

  lemma {:induction false} PartsEnd(l: Layout, vs: seq<Value>, n: nat)
    requires WfLayout(l) && AllAccepted(l, vs) && n <= |l|
    ensures |Join(Parts(l, vs)[..n])| == Offset(l, n)
  {
    hide Octets, Accepts;
    if n > 0 {
      PartsEnd(l, vs, n - 1);
      JoinSnoc(Parts(l, vs), n - 1);
    }
  }

  /** What a parser that knows the offsets reads, field by field. */
  function ReadField(l: Layout, d: bytes, start: nat, i: nat): (v: Option<Value>)
    requires i < |l|
  {
    var p := start + Offset(l, i);
    if p + Width(l[i]) > |d| then None else Some(Read(l[i], d[p..p + Width(l[i])]))
  }

  lemma FieldInPlace(l: Layout, vs: seq<Value>, before: bytes, after: bytes, i: nat)
    requires WfLayout(l) && AllAccepted(l, vs) && i < |l|
    ensures ReadField(l, before + Serialize(l, vs) + after, |before|, i) == Some(Read(l[i], Octets(l[i], vs[i])))
  {
    hide Octets, Accepts, Read, Join, Offset;
    var parts := Parts(l, vs);
    PartsEnd(l, vs, i);
    JoinAt(parts, i);
    var d, p, w := before + Join(parts) + after, |before| + Offset(l, i), Width(l[i]);
    assert d[p..p + w] == Join(parts)[Offset(l, i)..Offset(l, i) + w];
  }

  /** A descriptor's fields all come back, from wherever it stands, exactly when every value is one its
      field gives back. */
  lemma LayoutRoundTrip(l: Layout, vs: seq<Value>, before: bytes, after: bytes)
    requires WfLayout(l) && AllAccepted(l, vs)
    ensures (forall i :: 0 <= i < |l| ==> ReadField(l, before + Serialize(l, vs) + after, |before|, i) == Some(vs[i]))
            <==> forall i :: 0 <= i < |l| ==> Survives(l[i], vs[i])
  {
    hide Octets, Read, Join, Offset, Survives, ReadField, Serialize;
    forall i | 0 <= i < |l|
      ensures ReadField(l, before + Serialize(l, vs) + after, |before|, i) == Some(vs[i]) <==> Survives(l[i], vs[i])
    {
      FieldInPlace(l, vs, before, after, i);
      FieldRoundTrip(l[i], vs[i]);
    }
  }

  function Reread(l: Layout, vs: seq<Value>): (r: seq<Value>)
    requires WfLayout(l) && AllAccepted(l, vs)
    ensures |r| == |l| && AllAccepted(l, r)
  {
    assert forall i :: 0 <= i < |l| ==> Accepts(l[i], Read(l[i], Octets(l[i], vs[i]))) by {
      forall i | 0 <= i < |l| ensures Accepts(l[i], Read(l[i], Octets(l[i], vs[i]))) {
        ReadIsAccepted(l[i], Octets(l[i], vs[i]));
      }
    }
    seq(|l|, i requires 0 <= i < |l| => Read(l[i], Octets(l[i], vs[i])))
  }

  lemma {:induction false} SameJoins(a: seq<bytes>, b: seq<bytes>)
    requires |a| == |b| && forall i :: 0 <= i < |a| ==> |a[i]| == |b[i]|
    ensures |Join(a)| == |Join(b)| && (Join(a) == Join(b) <==> a == b)
  {
    if a != [] {
      var n := |a| - 1;
      SameJoins(a[..n], b[..n]);
      var x, y := Join(a[..n]), Join(b[..n]);
      assert a == a[..n] + [a[n]] && b == b[..n] + [b[n]];
      assert (x + a[n])[..|x|] == x && (x + a[n])[|x|..] == a[n];
      assert (y + b[n])[..|y|] == y && (y + b[n])[|y|..] == b[n];
    }
  }

  /** Serializing what was parsed gives the same octets exactly when every string field is clean. */
  lemma LayoutReserializes(l: Layout, vs: seq<Value>)
    requires WfLayout(l) && AllAccepted(l, vs)
    ensures Serialize(l, Reread(l, vs)) == Serialize(l, vs)
            <==> forall i :: 0 <= i < |l| && l[i].Text? ==> CleanText(Octets(l[i], vs[i]))
  {
    hide Octets, Read, Join, Accepts, CleanText;
    var a, b := Parts(l, Reread(l, vs)), Parts(l, vs);
    forall i | 0 <= i < |l| ensures a[i] == b[i] <==> (l[i].Text? ==> CleanText(Octets(l[i], vs[i]))) {
      FieldReserializes(l[i], vs[i]);
    }
    SameJoins(a, b);
    assert a == b <==> forall i :: 0 <= i < |l| ==> a[i] == b[i];
  }

  // ---- the layouts, and the offsets their parsers use ----

  /** Consecutive fields from start. */
  predicate Consecutive(l: Layout, start: nat, at: seq<nat>) {
    && |at| == |l| && (|l| > 0 ==> at[0] == start)
    && forall i :: 0 <= i < |l| - 1 ==> at[i + 1] == at[i] + Width(l[i])
  }

  lemma {:induction false} OffsetsAre(l: Layout, start: nat, at: seq<nat>, n: nat)
    requires Consecutive(l, start, at) && n < |l|
    ensures start + Offset(l, n) == at[n]
  {
    if n > 0 { OffsetsAre(l, start, at, n - 1); }
  }

  const ENTITY: Layout := [Eui(8), Eui(8), Number(4), Number(2), Number(2), Number(2), Number(2), Number(4), Number(4), Eui(8),
                           Text, Reference, Reference, Text, Text, Text]
  const AVB_INTERFACE: Layout := [Text, Reference, Eui(6), Number(2), Eui(8), Number(1), Number(1), Number(2), Number(1), Number(1),
                                  Number(1), Number(1), Number(1), Number(1), Number(2)]
  const CLOCK_SOURCE: Layout := [Text, Reference, Number(2), Number(2), Eui(8), Number(2), Number(2)]
  const MEMORY_OBJECT: Layout := [Text, Reference, Number(2), Number(2), Number(2), Number(8), Number(8), Number(8), Number(8)]
  const AUDIO_CLUSTER: Layout := [Text, Reference, Number(2), Number(2), Number(2), Number(4), Number(4), Number(2), Number(1),
                                  Number(1), Number(2)]
  const CONTROL: Layout := [Text, Reference, Number(4), Number(4), Number(2), Number(2), Eui(8), Number(4), Number(2), Number(2),
                            Number(2), Number(2), Number(2)]
  const MIXER: Layout := [Text, Reference, Number(4), Number(4), Number(2), Number(2), Number(2), Number(2), Number(2)]

  /** The parsers of these descriptors read each field where the serializer wrote it. */
  lemma EntityOffsets(i: nat)
    requires i < |ENTITY|
    ensures 4 + Offset(ENTITY, i) == ENTITY_AT[i]
  {
    hide Offset;
    EntityConsecutive();
    OffsetsAre(ENTITY, 4, ENTITY_AT, i);
  }

  const ENTITY_AT: seq<nat> := [4, 12, 20, 24, 26, 28, 30, 32, 36, 40, 48, 112, 114, 116, 180, 244]

  lemma EntityConsecutive()
    ensures Consecutive(ENTITY, 4, ENTITY_AT)
  {
  }

  lemma AvbInterfaceOffsets(i: nat)
    requires i < |AVB_INTERFACE|
    ensures 4 + Offset(AVB_INTERFACE, i) == [4, 68, 70, 76, 78, 86, 87, 88, 90, 91, 92, 93, 94, 95, 96][i]
  {
    hide Offset;
    OffsetsAre(AVB_INTERFACE, 4, [4, 68, 70, 76, 78, 86, 87, 88, 90, 91, 92, 93, 94, 95, 96], i);
  }

  lemma ClockSourceOffsets(i: nat)
    requires i < |CLOCK_SOURCE|
    ensures 4 + Offset(CLOCK_SOURCE, i) == [4, 68, 70, 72, 74, 82, 84][i]
  {
    hide Offset;
    OffsetsAre(CLOCK_SOURCE, 4, [4, 68, 70, 72, 74, 82, 84], i);
  }

  lemma MemoryObjectOffsets(i: nat)
    requires i < |MEMORY_OBJECT|
    ensures 4 + Offset(MEMORY_OBJECT, i) == [4, 68, 70, 72, 74, 76, 84, 92, 100][i]
  {
    hide Offset;
    OffsetsAre(MEMORY_OBJECT, 4, [4, 68, 70, 72, 74, 76, 84, 92, 100], i);
  }

  lemma AudioClusterOffsets(i: nat)
    requires i < |AUDIO_CLUSTER|
    ensures 4 + Offset(AUDIO_CLUSTER, i) == [4, 68, 70, 72, 74, 76, 80, 84, 86, 87, 88][i]
  {
    hide Offset;
    OffsetsAre(AUDIO_CLUSTER, 4, [4, 68, 70, 72, 74, 76, 80, 84, 86, 87, 88], i);
  }

  lemma ControlOffsets(i: nat)
    requires i < |CONTROL|
    ensures 4 + Offset(CONTROL, i) == [4, 68, 70, 74, 78, 80, 82, 90, 94, 96, 98, 100, 102][i]
  {
    hide Offset;
    OffsetsAre(CONTROL, 4, [4, 68, 70, 74, 78, 80, 82, 90, 94, 96, 98, 100, 102], i);
  }

  /** The MIXER parser takes the octets at 82 for the number of sources. The serializer writes the offset
      of the sources there, 88, so the number is read right exactly when there are 88 sources. */
  lemma MixerCountMisread(vs: seq<Value>, sources: nat, before: bytes, after: bytes)
    requires |before| == 4 && WfLayout(MIXER) && AllAccepted(MIXER, vs) && vs[6] == Num(88) && vs[7] == Num(sources)
    ensures 4 + Offset(MIXER, 6) == 82 && 4 + Offset(MIXER, 7) == 84
    ensures ReadField(MIXER, before + Serialize(MIXER, vs) + after, 4, 6) == Some(Num(sources)) <==> sources == 88
  {
    hide Offset, ReadField, Serialize;
    OffsetsAre(MIXER, 4, [4, 68, 70, 74, 78, 80, 82, 84, 86], 6);
    OffsetsAre(MIXER, 4, [4, 68, 70, 74, 78, 80, 82, 84, 86], 7);
    FieldInPlace(MIXER, vs, before, after, 6);
    FieldRoundTrip(MIXER[6], vs[6]);
  }
}
