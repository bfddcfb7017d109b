/** The walk over the ACF messages of an AVTPDU, and the integrity trailers that check them
    (sections 9.4.1, 9.4.20 and 9.4.21 of IEEE 1722-2025). */
module Acf {
  import opened Wire
  import opened Checksum
  import opened Crc
  import opened Utf8

  const CHECKSUM := 0x76
  const CRC := 0x77

  // ---- framing ----

  function MessageType(m: bytes): (t: nat)
    requires |m| >= 2
  {
    U16At(m, 0) / 512
  }

  /** The length a message's own header gives, in octets. */
  function DeclaredLength(m: bytes): (n: nat)
    requires |m| >= 2
  {
    U16At(m, 0) % 512 * 4
  }

  /** The walk cannot go on: too short for a header, no length, or a length past the end. */
  predicate Stuck(p: bytes) {
    |p| < 2 || DeclaredLength(p) == 0 || DeclaredLength(p) > |p|
  }

  /** A message exactly as long as its header says. */
  predicate Framed(m: bytes) {
    |m| >= 4 && DeclaredLength(m) == |m|
  }

  /** The messages of a payload, from the front. */
  function Walk(p: bytes): (ms: seq<bytes>)
    decreases |p|
  {
    if Stuck(p) then [] else [p[..DeclaredLength(p)]] + Walk(p[DeclaredLength(p)..])
  }

  lemma HeaderOfPrefix(p: bytes, n: nat)
    requires 2 <= n <= |p|
    ensures DeclaredLength(p[..n]) == DeclaredLength(p) && MessageType(p[..n]) == MessageType(p)
  {
  }

  lemma JoinFront(m: bytes, ms: seq<bytes>)
    ensures Join([m] + ms) == m + Join(ms)
  {
    if ms == [] {
      assert [m] + ms == [m] && [m][..0] == [];
      assert Join([m]) == m;
    } else {
      var n := |ms| - 1;
      JoinFront(m, ms[..n]);
      assert ([m] + ms)[..n + 1] == [m] + ms[..n];
      assert Join([m] + ms) == (m + Join(ms[..n])) + ms[n] == m + (Join(ms[..n]) + ms[n]);
    }
  }

  /** The visited messages are framed, lie end to end from the start of the payload, and the walk
      stops only where it is stuck. */
  lemma {:induction false} WalkIsFraming(p: bytes)
    ensures var ms := Walk(p);
            && (forall m <- ms :: Framed(m))
            && |Join(ms)| <= |p| && Join(ms) == p[..|Join(ms)|] && Stuck(p[|Join(ms)|..])
    decreases |p|
  {
    hide DeclaredLength, Join;
    if Stuck(p) {
      NothingWalked(p);
    } else {
      var n := DeclaredLength(p);
      WalkStep(p);
      WalkIsFraming(p[n..]);
      JoinFront(p[..n], Walk(p[n..]));
      var k := |Join(Walk(p[n..]))|;
      assert p[..n] + p[n..][..k] == p[..n + k];
      assert p[n..][k..] == p[n + k..];
    }
  }

  lemma NothingWalked(p: bytes)
    requires Stuck(p)
    ensures Walk(p) == [] && Join(Walk(p)) == [] && p[..0] == [] && p[0..] == p
  {
  }

  lemma WalkStep(p: bytes)
    requires !Stuck(p)
    ensures Walk(p) == [p[..DeclaredLength(p)]] + Walk(p[DeclaredLength(p)..])
    ensures 4 <= DeclaredLength(p) <= |p| && Framed(p[..DeclaredLength(p)])
  {
    hide DeclaredLength, MessageType;
    WholeQuadlets(p);
    HeaderOfPrefix(p, DeclaredLength(p));
  }

  lemma WholeQuadlets(p: bytes)
    requires |p| >= 2
    ensures DeclaredLength(p) == 0 || DeclaredLength(p) >= 4
  {
  }

  /** No other framing is possible: any framed messages followed by octets that cannot go on are
      walked back exactly. */
  lemma {:induction false} WalkInvertsFraming(ms: seq<bytes>, rest: bytes)
    requires (forall m <- ms :: Framed(m)) && Stuck(rest)
    ensures Walk(Join(ms) + rest) == ms
  {
    hide DeclaredLength, Join;
    if ms == [] {
      NothingFramed(rest);
    } else {
      var m, tail := ms[0], ms[1..];
      var p := Join(ms) + rest;
      assert ms == [m] + tail && m in ms;
      JoinFront(m, tail);
      assert p == m + (Join(tail) + rest) && p[..|m|] == m && p[|m|..] == Join(tail) + rest;
      HeaderOfPrefix(p, |m|);
      WalkStep(p);
      assert forall x <- tail :: x in ms;
      WalkInvertsFraming(tail, rest);
    }
  }

  lemma NothingFramed(rest: bytes)
    requires Stuck(rest)
    ensures Walk(Join([]) + rest) == []
  {
    assert Join([]) + rest == rest;
  }

  // ---- layouts ----

  /** A field is shown as octets, as the string before its first NUL, as a two's-complement number, or
      as a number: its big-endian value with the bits below unit dropped and reduced to range values (a contiguous
      mask). */
  datatype Kind = Octets | Text | Signed | Number(unit: nat, range: nat)

  datatype Field = Field(offset: nat, length: nat, repeat: nat, kind: Kind)

  /** Where the pad of a message type comes from; the indices are those of its fields. */
  datatype PadRule = ByField(pad: nat) | NoPad | ByBitWidth(width: nat) | BySensors(count: nat, size: nat)

  datatype Spec = Spec(fields: seq<Field>, length: nat, fixedOnly: bool, pad: PadRule)

  predicate Shown(f: Field) {
    f.length > 0 && f.repeat > 0
  }

  predicate NumberAt(s: Spec, i: nat) {
    i < |s.fields| && Shown(s.fields[i]) && s.fields[i].kind.Number?
  }

  /** What the layout tables keep: every field lies in the fixed part, and the fields the pad rule
      reads are there. */
  predicate WfSpec(s: Spec) {
    && 2 <= s.length
    && (forall f <- s.fields :: f.offset + f.repeat * f.length <= s.length && (f.kind.Number? ==> f.kind.unit > 0 && f.kind.range > 0))
    && (match s.pad
        case ByField(i) => NumberAt(s, i)
        case NoPad => true
        case ByBitWidth(i) => NumberAt(s, i)
        case BySensors(i, j) => NumberAt(s, i) && NumberAt(s, j))
  }

  datatype Value = Num(n: nat) | Int(v: int) | Hex(octets: bytes) | Str(s: bytes)

  datatype Key = TypeKey | LengthKey | FieldKey(mtype: nat, field: nat) | PayloadKey(mtype: nat)
               | ChecksumKey | ChecksumValid | CrcTypeKey | CrcDataKey | CrcValid

  type Out = map<Key, Value>

  /** The value of a field; of a repeated one, the last. */
  function ValueOf(s: Spec, i: nat, m: bytes): (v: Value)
    requires WfSpec(s) && i < |s.fields| && Shown(s.fields[i]) && |m| >= s.length
  {
    var f := s.fields[i];
    var at := LastAt(s, i, m);
    var chunk := m[at..at + f.length];
    assert f in s.fields;
    match f.kind
    case Octets => Hex(chunk)
    case Text => Str(Unpacked(chunk))
    case Signed => Int(if FromBE(chunk) < Radix(f.length) / 2 then FromBE(chunk) else FromBE(chunk) - Radix(f.length))
    case Number(unit, range) => Num(FromBE(chunk) / unit % range)
  }

  /** Where the last occurrence of a field starts: inside the message. */
  function LastAt(s: Spec, i: nat, m: bytes): (at: nat)
    requires WfSpec(s) && i < |s.fields| && Shown(s.fields[i]) && |m| >= s.length
    ensures at + s.fields[i].length <= s.length <= |m|
  {
    var f := s.fields[i];
    assert f in s.fields;
    assert f.repeat * f.length == (f.repeat - 1) * f.length + f.length;
    f.offset + (f.repeat - 1) * f.length
  }

  function NumberOf(s: Spec, i: nat, m: bytes): (n: nat)
    requires WfSpec(s) && NumberAt(s, i) && |m| >= s.length
  {
    ValueOf(s, i, m).n
  }

  /** decode_layout: the first k fields. */
  function FieldsOf(s: Spec, t: nat, m: bytes, k: nat): (out: Out)
    requires WfSpec(s) && k <= |s.fields| && |m| >= s.length
    ensures forall key :: key in out <==> key.FieldKey? && key.mtype == t && key.field < k && Shown(s.fields[key.field])
    ensures forall i :: 0 <= i < k && Shown(s.fields[i]) ==> out[FieldKey(t, i)] == ValueOf(s, i, m)
  {
    if k == 0 then map[]
    else if Shown(s.fields[k - 1]) then FieldsOf(s, t, m, k - 1)[FieldKey(t, k - 1) := ValueOf(s, k - 1, m)]
    else FieldsOf(s, t, m, k - 1)
  }

  // ---- pads and payloads ----

  function OrElse(n: nat, d: nat): (r: nat) {
    if n == 0 then d else n
  }

  /** The octets the payload needs by the parallel and sensor rules. */
  function Needed(s: Spec, m: bytes): (n: nat)
    requires WfSpec(s) && |m| >= s.length && (s.pad.ByBitWidth? || s.pad.BySensors?)
  {
    match s.pad
    case ByBitWidth(i) => (OrElse(NumberOf(s, i, m), 256) + 7) / 8
    case BySensors(i, j) => OrElse(NumberOf(s, i, m), 128) * OrElse(NumberOf(s, j, m), 4)
  }

  /** _acf_pad: None when the payload is shorter than its fields say. */
  function Pad(s: Spec, m: bytes, padded: nat): (r: Option<nat>)
    requires WfSpec(s) && |m| >= s.length
  {
    match s.pad
    case ByField(i) => Some(NumberOf(s, i, m))
    case NoPad => Some(0)
    case _ => if padded >= Needed(s, m) then Some(padded - Needed(s, m)) else None
  }

  /** The payload that is shown, if any. */
  function Payload(s: Spec, m: bytes): (r: Option<bytes>)
    requires WfSpec(s) && |m| >= s.length
  {
    var padded := |m| - s.length;
    var pad := Pad(s, m, padded);
    if !s.fixedOnly && pad.Some? && padded - pad.value > 0 then Some(m[s.length..s.length + padded - pad.value]) else None
  }

  /** A shown payload starts right after the fixed part, ends inside the message, and is as long as
      the pad field, the bit width or the sensor counts say; nothing is shown exactly when the type
      has no payload or that length is not one the message has room for. */
  lemma PayloadMeaning(s: Spec, m: bytes)
    requires WfSpec(s) && |m| >= s.length && !s.fixedOnly
    ensures var room := |m| - s.length;
            var want := match s.pad
              case ByField(i) => room - NumberOf(s, i, m)
              case NoPad => room
              case ByBitWidth(i) => ((if NumberOf(s, i, m) == 0 then 256 else NumberOf(s, i, m)) + 7) / 8
              case BySensors(i, j) => (if NumberOf(s, i, m) == 0 then 128 else NumberOf(s, i, m))
                                      * (if NumberOf(s, j, m) == 0 then 4 else NumberOf(s, j, m));
            && (Payload(s, m).Some? <==> 0 < want <= room)
            && (Payload(s, m).Some? ==> Payload(s, m).value == m[s.length..s.length + want])
  {
    hide ValueOf;
    if s.pad.BySensors? {
      ProductPositive(OrElse(NumberOf(s, s.pad.count, m), 128), OrElse(NumberOf(s, s.pad.size, m), 4));
    }
  }

  lemma ProductPositive(a: nat, b: nat)
    requires a > 0 && b > 0
    ensures a * b > 0
  {
  }

  // ---- what one message adds ----

  function B2N(b: bool): (n: nat) {
    if b then 1 else 0
  }

  function CrcAsNumber(c: bv32): (n: nat) {
    c as int
  }

  function ShowChecksum(prev: Option<bytes>, m: bytes, out: Out): (r: Out)
    requires |m| >= 4
  {
    var value := U16At(m, 2);
    var shown := out[ChecksumKey := Num(value)];
    if prev.Some? then shown[ChecksumValid := Num(B2N(ChecksumOf(prev.value) == value))] else shown
  }

  function ShowCrc(prev: Option<bytes>, m: bytes, out: Out): (r: Out)
    requires |m| >= 4
  {
    var kind, data := m[3] % 16, m[4..];
    var shown := out[CrcTypeKey := Num(kind)];
    var shown' := if data != [] then shown[CrcDataKey := Hex(data)] else shown;
    if prev.Some? && Polynomial(kind).Some? && |data| == 4
    then shown'[CrcValid := Num(B2N(FromBE(data) == CrcAsNumber(CrcOf(prev.value, Polynomial(kind).value))))]
    else shown'
  }

  type Specs = map<nat, Spec>

  predicate WfSpecs(specs: Specs) {
    forall t <- specs :: WfSpec(specs[t])
  }

  function Show(specs: Specs, prev: Option<bytes>, m: bytes, out: Out): (r: Out)
    requires WfSpecs(specs) && |m| >= 4
  {
    var t := MessageType(m);
    var head := out[TypeKey := Num(t)][LengthKey := Num(U16At(m, 0) % 512)];
    if t in specs && |m| >= specs[t].length then
      var fields := head + FieldsOf(specs[t], t, m, |specs[t].fields|);
      var p := Payload(specs[t], m);
      if p.Some? then fields[PayloadKey(t) := Hex(p.value)] else fields
    else if t == CHECKSUM then ShowChecksum(prev, m, head)
    else if t == CRC then ShowCrc(prev, m, head)
    else head
  }

  /** All messages in order; a repeated key keeps its last value. */
  function ShowAll(specs: Specs, ms: seq<bytes>, out: Out): (r: Out)
    requires WfSpecs(specs) && forall m <- ms :: |m| >= 4
  {
    if ms == [] then out else
      var n := |ms| - 1;
      Show(specs, if n == 0 then None else Some(ms[n - 1]), ms[n], ShowAll(specs, ms[..n], out))
  }

  function Decoded(specs: Specs, payload: bytes, before: Out): (out: Out)
    requires WfSpecs(specs)
  {
    WalkIsFraming(payload);
    ShowAll(specs, Walk(payload), before)
  }

  predicate Says(out: Out, key: Key, n: nat) {
    key in out && out[key] == Num(n)
  }

  // ---- the walker ----

  method DecodeLayout(s: Spec, t: nat, m: bytes) returns (out: Out)
    requires WfSpec(s) && |m| >= s.length
    ensures out == FieldsOf(s, t, m, |s.fields|)
  {
    out := map[];
    for k := 0 to |s.fields|
      invariant out == FieldsOf(s, t, m, k)
    {
      if Shown(s.fields[k]) {
        out := out[FieldKey(t, k) := ValueOf(s, k, m)];
      }
    }
  }

  lemma ShowAllSnoc(specs: Specs, ms: seq<bytes>, m: bytes, out: Out)
    requires WfSpecs(specs) && |m| >= 4 && forall x <- ms :: |x| >= 4
    ensures (forall x <- ms + [m] :: |x| >= 4)
            && ShowAll(specs, ms + [m], out)
               == Show(specs, if ms == [] then None else Some(ms[|ms| - 1]), m, ShowAll(specs, ms, out))
  {
    hide Show;
    assert (ms + [m])[..|ms|] == ms;
  }

  /** decode_acf. It ends on every payload and shows exactly the messages of the walk. */
  method DecodeAcf(specs: Specs, payload: bytes, before: Out) returns (out: Out)
    requires WfSpecs(specs)
    ensures out == Decoded(specs, payload, before)
  {
    hide Walk, ShowAll, Show, DeclaredLength, WfSpecs;
    out := before;
    var at := 0;
    var previous: Option<bytes> := None;
    ghost var seen: seq<bytes> := [];
    assert payload[0..] == payload;
    NothingShown(specs, before);
    while at + 2 <= |payload| && DeclaredLength(payload[at..]) != 0 && at + DeclaredLength(payload[at..]) <= |payload|
      invariant at <= |payload| && Walk(payload) == seen + Walk(payload[at..])
      invariant forall m <- seen :: |m| >= 4
      invariant previous == if seen == [] then None else Some(seen[|seen| - 1])
      invariant out == ShowAll(specs, seen, before)
      decreases |payload| - at
    {
      var rest := payload[at..];
      WalkStep(rest);
      var message := payload[at..at + DeclaredLength(rest)];
      assert message == rest[..DeclaredLength(rest)] && payload[at + |message|..] == rest[|message|..];
      ShowAllSnoc(specs, seen, message, before);
      out := ShowMessage(specs, previous, message, out);
      assert seen + ([message] + Walk(rest[|message|..])) == (seen + [message]) + Walk(rest[|message|..]);
      seen := seen + [message];
      previous := Some(message);
      at := at + |message|;
    }
    NothingWalked(payload[at..]);
    assert seen + [] == seen;
  }

  lemma NothingShown(specs: Specs, out: Out)
    requires WfSpecs(specs)
    ensures ShowAll(specs, [], out) == out
  {
  }

  /** The body of the walk. */
  method ShowMessage(specs: Specs, previous: Option<bytes>, message: bytes, before: Out) returns (out: Out)
    requires WfSpecs(specs) && |message| >= 4
    ensures out == Show(specs, previous, message, before)
  {
    hide FieldsOf, Payload, ShowChecksum, ShowCrc;
    var t := MessageType(message);
    out := before[TypeKey := Num(t)][LengthKey := Num(U16At(message, 0) % 512)];
    if t in specs && |message| >= specs[t].length {
      var fields := DecodeLayout(specs[t], t, message);
      out := out + fields;
      var p := ShownPayload(specs[t], message);
      if p.Some? {
        out := out[PayloadKey(t) := Hex(p.value)];
      }
    } else if t == CHECKSUM {
      out := CheckChecksum(previous, message, out);
    } else if t == CRC {
      out := CheckCrc(previous, message, out);
    }
  }

  method ShownPayload(s: Spec, m: bytes) returns (p: Option<bytes>)
    requires WfSpec(s) && |m| >= s.length
    ensures p == Payload(s, m)
  {
    hide ValueOf;
    p := None;
    if !s.fixedOnly {
      var padded := |m| - s.length;
      var pad := Pad(s, m, padded);
      if pad.Some? && padded - pad.value > 0 {
        p := Some(m[s.length..s.length + padded - pad.value]);
      }
    }
  }

  method CheckChecksum(previous: Option<bytes>, m: bytes, before: Out) returns (out: Out)
    requires |m| >= 4
    ensures out == ShowChecksum(previous, m, before)
  {
    var value := U16At(m, 2);
    out := before[ChecksumKey := Num(value)];
    if previous.Some? {
      var expected := OnesComplementChecksum(previous.value);
      out := out[ChecksumValid := Num(B2N(expected == value))];
    }
  }

  method CheckCrc(previous: Option<bytes>, m: bytes, before: Out) returns (out: Out)
    requires |m| >= 4
    ensures out == ShowCrc(previous, m, before)
  {
    hide CrcOf, FromBE;
    var kind, data := m[3] % 16, m[4..];
    out := before[CrcTypeKey := Num(kind)];
    if data != [] {
      out := out[CrcDataKey := Hex(data)];
    }
    if previous.Some? && Polynomial(kind).Some? && |data| == 4 {
      var expected := Crc32Reflected(previous.value, Polynomial(kind).value);
      out := out[CrcValid := Num(B2N(FromBE(data) == CrcAsNumber(expected)))];
    }
  }

  // ---- which message a key's value comes from ----

  /** What a message writes under a key, whatever is there already: its own type and length, the fields and payload
      of its layout, or the results of a trailer. */
  function WrittenUnder(specs: Specs, prev: Option<bytes>, m: bytes, key: Key): (v: Option<Value>)
    requires WfSpecs(specs) && |m| >= 4
  {
    var t := MessageType(m);
    var laidOut := t in specs && |m| >= specs[t].length;
    match key
    case TypeKey => Some(Num(t))
    case LengthKey => Some(Num(U16At(m, 0) % 512))
    case FieldKey(t', i) =>
      if laidOut && t' == t && i < |specs[t].fields| && Shown(specs[t].fields[i]) then Some(ValueOf(specs[t], i, m)) else None
    case PayloadKey(t') =>
      if laidOut && t' == t && Payload(specs[t], m).Some? then Some(Hex(Payload(specs[t], m).value)) else None
    case ChecksumKey => if !laidOut && t == CHECKSUM then Some(Num(U16At(m, 2))) else None
    case ChecksumValid =>
      if !laidOut && t == CHECKSUM && prev.Some? then Some(Num(B2N(ChecksumOf(prev.value) == U16At(m, 2)))) else None
    case CrcTypeKey => if !laidOut && t == CRC then Some(Num(m[3] % 16)) else None
    case CrcDataKey => if !laidOut && t == CRC && m[4..] != [] then Some(Hex(m[4..])) else None
    case CrcValid =>
      if !laidOut && t == CRC && prev.Some? && Polynomial(m[3] % 16).Some? && |m| == 8
      then Some(Num(B2N(FromBE(m[4..]) == CrcAsNumber(CrcOf(prev.value, Polynomial(m[3] % 16).value)))))
      else None
  }

  /** What a key holds after a write, or as before. */
  predicate HoldsAfter(before: Out, key: Key, v: Option<Value>, after: Out) {
    && (v.Some? ==> key in after && after[key] == v.value)
    && (v.None? ==> (key in after <==> key in before) && (key in before ==> after[key] == before[key]))
  }

  lemma ShowWrites(specs: Specs, prev: Option<bytes>, m: bytes, out: Out, key: Key)
    requires WfSpecs(specs) && |m| >= 4
    ensures HoldsAfter(out, key, WrittenUnder(specs, prev, m, key), Show(specs, prev, m, out))
  {
    hide CrcOf, FromBE, ValueOf, Payload, ChecksumOf, Polynomial, MessageType;
  }

  function Before(ms: seq<bytes>, i: nat): (prev: Option<bytes>)
    requires i < |ms|
  {
    if i == 0 then None else Some(ms[i - 1])
  }

  /** Message i is the last to write the key. */
  predicate LastWrites(specs: Specs, ms: seq<bytes>, key: Key, i: nat)
    requires WfSpecs(specs) && forall m <- ms :: |m| >= 4
  {
    && i < |ms| && WrittenUnder(specs, Before(ms, i), ms[i], key).Some?
    && forall j :: i < j < |ms| ==> WrittenUnder(specs, Before(ms, j), ms[j], key).None?
  }

  predicate NoneWrites(specs: Specs, ms: seq<bytes>, key: Key)
    requires WfSpecs(specs) && forall m <- ms :: |m| >= 4
  {
    forall j :: 0 <= j < |ms| ==> WrittenUnder(specs, Before(ms, j), ms[j], key).None?
  }

  lemma SameBefore(ms: seq<bytes>, j: nat)
    requires j < |ms| - 1
    ensures Before(ms[..|ms| - 1], j) == Before(ms, j) && ms[..|ms| - 1][j] == ms[j]
  {
  }

  lemma NoneWritesBefore(specs: Specs, ms: seq<bytes>, key: Key)
    requires WfSpecs(specs) && (forall m <- ms :: |m| >= 4) && ms != [] && NoneWrites(specs, ms, key)
    ensures NoneWrites(specs, ms[..|ms| - 1], key)
  {
    hide WrittenUnder, WfSpecs, Before;
    var init := ms[..|ms| - 1];
    forall j | 0 <= j < |init| ensures WrittenUnder(specs, Before(init, j), init[j], key).None? {
      SameBefore(ms, j);
    }
  }

  lemma LastWritesBefore(specs: Specs, ms: seq<bytes>, key: Key, i: nat)
    requires WfSpecs(specs) && (forall m <- ms :: |m| >= 4) && LastWrites(specs, ms, key, i) && i < |ms| - 1
    ensures LastWrites(specs, ms[..|ms| - 1], key, i)
  {
    hide WrittenUnder, WfSpecs, Before;
    var init := ms[..|ms| - 1];
    SameBefore(ms, i);
    forall j | i < j < |init| ensures WrittenUnder(specs, Before(init, j), init[j], key).None? {
      SameBefore(ms, j);
    }
  }

  lemma ShowAllStep(specs: Specs, ms: seq<bytes>, out: Out)
    requires WfSpecs(specs) && (forall m <- ms :: |m| >= 4) && ms != []
    ensures ShowAll(specs, ms, out) == Show(specs, Before(ms, |ms| - 1), ms[|ms| - 1], ShowAll(specs, ms[..|ms| - 1], out))
  {
    hide Show, WfSpecs;
  }

  lemma {:induction false} NothingWritten(specs: Specs, ms: seq<bytes>, out: Out, key: Key)
    requires WfSpecs(specs) && (forall m <- ms :: |m| >= 4) && NoneWrites(specs, ms, key)
    ensures HoldsAfter(out, key, None, ShowAll(specs, ms, out))
  {
    hide WrittenUnder, Show, WfSpecs, ShowAll;
    if ms == [] {
      NothingShown(specs, out);
    } else {
      NoneWritesBefore(specs, ms, key);
      NothingWritten(specs, ms[..|ms| - 1], out, key);
      ShowAllStep(specs, ms, out);
      ShowWrites(specs, Before(ms, |ms| - 1), ms[|ms| - 1], ShowAll(specs, ms[..|ms| - 1], out), key);
    }
  }

  lemma {:induction false} LastWritten(specs: Specs, ms: seq<bytes>, out: Out, key: Key, i: nat)
    requires WfSpecs(specs) && (forall m <- ms :: |m| >= 4) && LastWrites(specs, ms, key, i)
    ensures HoldsAfter(out, key, WrittenUnder(specs, Before(ms, i), ms[i], key), ShowAll(specs, ms, out))
  {
    hide WrittenUnder, Show, WfSpecs, ShowAll, Before;
    var n := |ms| - 1;
    ShowAllStep(specs, ms, out);
    ShowWrites(specs, Before(ms, n), ms[n], ShowAll(specs, ms[..n], out), key);
    if i < n {
      LastWritesBefore(specs, ms, key, i);
      LastWritten(specs, ms[..n], out, key, i);
      SameBefore(ms, i);
    }
  }

  /** Repeated keys keep the last value: under each key stands what the last message of the walk to write it wrote,
      or what stood there before if none did. */
  lemma LastWriteWins(specs: Specs, payload: bytes, before: Out, key: Key)
    requires WfSpecs(specs)
    ensures forall m <- Walk(payload) :: |m| >= 4
    ensures NoneWrites(specs, Walk(payload), key) ==> HoldsAfter(before, key, None, Decoded(specs, payload, before))
    ensures forall i: nat :: LastWrites(specs, Walk(payload), key, i) ==>
              HoldsAfter(before, key, WrittenUnder(specs, Before(Walk(payload), i), Walk(payload)[i], key), Decoded(specs, payload, before))
  {
    hide WrittenUnder, WfSpecs, Walk, ShowAll, Join, DeclaredLength, NoneWrites, HoldsAfter;
    WalkIsFraming(payload);
    var ms := Walk(payload);
    if NoneWrites(specs, ms, key) {
      NothingWritten(specs, ms, before, key);
    }
    forall i: nat | LastWrites(specs, ms, key, i)
      ensures HoldsAfter(before, key, WrittenUnder(specs, Before(ms, i), ms[i], key), Decoded(specs, payload, before))
    {
      LastWritten(specs, ms, before, key, i);
    }
  }

  // ---- a damaged message shows ----

  /** A CRC trailer for m. */
  predicate CrcTrailer(c: bytes, m: bytes) {
    && Framed(c) && |c| == 8 && MessageType(c) == CRC && Polynomial(c[3] % 16).Some?
    && FromBE(c[4..]) == CrcAsNumber(CrcOf(m, Polynomial(c[3] % 16).value))
  }

  lemma NumbersOfCrcs(a: bv32, b: bv32)
    requires CrcAsNumber(a) == CrcAsNumber(b)
    ensures a == b
  {
    assert (a as int) as bv32 == a && (b as int) as bv32 == b;
  }

  /** A message and its trailer, any framed messages before, any without a CRC trailer after, then octets that
      cannot go on. */
  function Framing(ms: seq<bytes>, m: bytes, c: bytes, later: seq<bytes>, rest: bytes): (p: bytes) {
    Join(ms + [m, c] + later) + rest
  }

  predicate FramedPayload(ms: seq<bytes>, c: bytes, later: seq<bytes>, rest: bytes) {
    && (forall x <- ms :: Framed(x)) && Framed(c) && Stuck(rest)
    && forall x <- later :: Framed(x) && MessageType(x) != CRC
  }

  lemma AllFramed(ms: seq<bytes>, m: bytes, c: bytes, later: seq<bytes>, rest: bytes)
    requires FramedPayload(ms, c, later, rest) && Framed(m)
    ensures forall x <- ms + [m, c] + later :: Framed(x) && |x| >= 4
    ensures Walk(Framing(ms, m, c, later, rest)) == ms + [m, c] + later
  {
    hide Walk, Join, DeclaredLength, MessageType;
    var all := ms + [m, c] + later;
    forall x | x in all ensures Framed(x) {
      assert x in ms || x == m || x == c || x in later;
    }
    WalkInvertsFraming(all, rest);
  }

  lemma OnlyTrailersCheck(specs: Specs, prev: Option<bytes>, x: bytes)
    requires WfSpecs(specs) && |x| >= 4 && MessageType(x) != CRC
    ensures WrittenUnder(specs, prev, x, CrcValid).None?
  {
    hide WfSpecs, MessageType, CrcOf, FromBE, Polynomial, CrcAsNumber;
  }

  /** The trailer is the last message to write whether a CRC was right. */
  lemma TrailerDecides(specs: Specs, ms: seq<bytes>, m: bytes, c: bytes, later: seq<bytes>, rest: bytes, out: Out)
    requires WfSpecs(specs) && FramedPayload(ms, c, later, rest) && Framed(m)
    ensures WrittenUnder(specs, Some(m), c, CrcValid).Some? ==>
              HoldsAfter(out, CrcValid, WrittenUnder(specs, Some(m), c, CrcValid), Decoded(specs, Framing(ms, m, c, later, rest), out))
  {
    hide Walk, Show, ShowAll, Framing, DeclaredLength, MessageType, WfSpecs, WrittenUnder, HoldsAfter, Stuck;
    var all, i := ms + [m, c] + later, |ms| + 1;
    AllFramed(ms, m, c, later, rest);
    assert all[i] == c && Before(all, i) == Some(m);
    forall j | i < j < |all| ensures WrittenUnder(specs, Before(all, j), all[j], CrcValid).None? {
      assert all[j] == later[j - i - 1] && all[j] in later;
      OnlyTrailersCheck(specs, Before(all, j), all[j]);
    }
    if WrittenUnder(specs, Some(m), c, CrcValid).Some? {
      LastWritten(specs, all, out, CrcValid, i);
    }
  }

  /** End to end: wherever a message and its CRC trailer stand in a payload, before any messages without a CRC
      trailer and whatever ends the walk, the message is marked valid; and if instead a message arrives that
      differs from it within 32 consecutive bits, still framed, it is marked invalid. */
  lemma DamageShows(specs: Specs, ms: seq<bytes>, m: bytes, damaged: bytes, c: bytes, later: seq<bytes>, rest: bytes, k: nat, out: Out)
    requires WfSpecs(specs) && CRC !in specs && FramedPayload(ms, c, later, rest) && Framed(m) && Framed(damaged)
    requires CrcTrailer(c, m) && |m| == |damaged| && m != damaged
    requires forall i :: 0 <= i < 8 * |m| && !(k <= i < k + 32) ==> MessageBits(m)[i] == MessageBits(damaged)[i]
    ensures Says(Decoded(specs, Framing(ms, m, c, later, rest), out), CrcValid, 1)
    ensures Says(Decoded(specs, Framing(ms, damaged, c, later, rest), out), CrcValid, 0)
  {
    hide Decoded, FramedPayload, Framing, MessageBits, CrcOf, FromBE, DeclaredLength, MessageType, CrcAsNumber, Polynomial, WfSpecs;
    TrailerDecides(specs, ms, m, c, later, rest, out);
    TrailerDecides(specs, ms, damaged, c, later, rest, out);
    var poly := Polynomial(c[3] % 16).value;
    BurstDetected(m, damaged, k, poly);
    if CrcAsNumber(CrcOf(damaged, poly)) == FromBE(c[4..]) {
      NumbersOfCrcs(CrcOf(m, poly), CrcOf(damaged, poly));
    }
  }
}
