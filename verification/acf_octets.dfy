/** The walk over ACF messages, octet by octet: where the type, the length and the trailers' values stand. */
module AcfOctets {
  import opened Wire
  import opened Checksum
  import opened Crc
  import opened Acf
  import Utf8

  /** The first two octets of a message of type t and q quadlets. */
  function Lead(t: nat, q: nat): (r: bytes)
    requires t < 128 && q < 512
    ensures |r| == 2
  {
    [2 * t + q / 256, q % 256]
  }

  lemma LeadReads(t: nat, q: nat, rest: bytes)
    requires t < 128 && q < 512
    ensures U16At(Lead(t, q) + rest, 0) == 512 * t + q
  {
    var p := Lead(t, q) + rest;
    assert p[0] == 2 * t + q / 256 && p[1] == q % 256;
  }

  lemma Split(t: nat, q: nat)
    requires q < 512
    ensures (512 * t + q) / 512 == t && (512 * t + q) % 512 == q
  {
  }

  /** One step of the walk: nothing on a zero length or an overrun, otherwise four octets for each quadlet. */
  lemma WalkFromOctets(t: nat, q: nat, rest: bytes)
    requires t < 128 && q < 512
    ensures var p := [2 * t + q / 256, q % 256] + rest;
            Walk(p) == if q == 0 || |p| < 4 * q then [] else [p[..4 * q]] + Walk(p[4 * q..])
  {
    hide U16At;
    LeadReads(t, q, rest);
    Split(t, q);
  }

  /** Fewer than two octets are no message. */
  lemma TooShort(p: bytes)
    requires |p| < 2
    ensures Walk(p) == []
  {
  }

  lemma Kinds(t: nat, q: nat, rest: bytes)
    requires t < 128 && q < 512
    ensures var p := Lead(t, q) + rest; MessageType(p) == t && U16At(p, 0) % 512 == q
  {
    hide U16At;
    LeadReads(t, q, rest);
    Split(t, q);
  }

  /** A message of type t with q quadlets, header included, is walked as exactly itself, and shown with that type and
      length; with a body of any other length it is not. */
  lemma OneMessage(specs: Specs, t: nat, q: nat, body: bytes, out: Out)
    requires WfSpecs(specs) && t < 128 && 0 < q < 512
    ensures var m := [2 * t + q / 256, q % 256] + body;
            && (Walk(m) == [m] <==> |body| == 4 * q - 2)
            && (|body| == 4 * q - 2 ==> Says(Decoded(specs, m, out), TypeKey, t) && Says(Decoded(specs, m, out), LengthKey, q))
  {
    hide Walk, U16At, Show, WrittenUnder, NoneWrites, WfSpecs, Decoded;
    var m := [2 * t + q / 256, q % 256] + body;
    WalkFromOctets(t, q, body);
    if |body| == 4 * q - 2 {
      assert m[..4 * q] == m && m[4 * q..] == [];
      TooShort([]);
      LastWriteWins(specs, m, out, TypeKey);
      LastWriteWins(specs, m, out, LengthKey);
      OwnTypeAndLength(specs, m);
      Kinds(t, q, body);
      assert LastWrites(specs, [m], TypeKey, 0) && LastWrites(specs, [m], LengthKey, 0);
    } else if |m| > 4 * q {
      assert Walk(m)[0] == m[..4 * q];
    }
  }

  lemma OwnTypeAndLength(specs: Specs, m: bytes)
    requires WfSpecs(specs) && |m| >= 4
    ensures WrittenUnder(specs, None, m, TypeKey) == Some(Num(MessageType(m)))
    ensures WrittenUnder(specs, None, m, LengthKey) == Some(Num(U16At(m, 0) % 512))
  {
    hide MessageType, U16At, WfSpecs;
  }

  // ---- trailers ----

  /** The octets of a whole message. */
  predicate WholeMessage(m: bytes) {
    |m| >= 4 && |m| == 4 * (m[0] as int % 2 * 256 + m[1])
  }

  lemma WholeIsWalked(m: bytes, rest: bytes)
    requires WholeMessage(m)
    ensures Walk(m + rest) == [m] + Walk(rest)
  {
    hide Walk;
    var t: nat, q: nat := m[0] as int / 2, m[0] as int % 2 * 256 + m[1];
    var p := m + rest;
    assert p == [2 * t + q / 256, q % 256] + p[2..];
    WalkFromOctets(t, q, p[2..]);
    assert p[..4 * q] == m && p[4 * q..] == rest;
  }

  lemma TwoShown(specs: Specs, m: bytes, c: bytes, out: Out)
    requires WfSpecs(specs) && WholeMessage(m) && WholeMessage(c)
    ensures Decoded(specs, m + c, out) == Show(specs, Some(m), c, Show(specs, None, m, out))
  {
    hide Walk, Show, WfSpecs;
    WholeIsWalked(m, c);
    WholeIsWalked(c, []);
    TooShort([]);
    assert c + [] == c && [m] + ([c] + []) == [m, c];
    WalkIsFraming(m + c);
    NothingShown(specs, out);
    assert [m, c][..1] == [m] && [m][..0] == [];
    ShowAllStep(specs, [m], out);
    ShowAllStep(specs, [m, c], out);
  }

  /** A checksum message behind any message: its octets 2 and 3 are the value, and it is valid exactly when they are
      the checksum of that message. */
  lemma ChecksumOnTheWire(specs: Specs, m: bytes, hi: byte, lo: byte, out: Out)
    requires WfSpecs(specs) && 0x76 !in specs && WholeMessage(m)
    ensures var shown := Decoded(specs, m + [0xEC, 0x01, hi, lo], out);
            && Says(shown, TypeKey, 0x76) && Says(shown, LengthKey, 1) && Says(shown, ChecksumKey, 256 * hi + lo)
            && Says(shown, ChecksumValid, if ChecksumOf(m) == 256 * hi + lo then 1 else 0)
  {
    hide Decoded, ChecksumOf, WfSpecs, FieldsOf, Payload;
    var c: bytes := [0xEC, 0x01, hi, lo];
    TwoShown(specs, m, c, out);
    Kinds(0x76, 1, [hi, lo]);
    assert Lead(0x76, 1) + [hi, lo] == c;
  }

  /** A CRC message behind any message: the type in the low half of octet 3, the value in octets 4 to 7. It is valid
      exactly when they are the CRC of that message with the polynomial of the type; of other types nothing is said. */
  lemma CrcOnTheWire(specs: Specs, m: bytes, x: byte, k: byte, c: bytes, out: Out)
    requires WfSpecs(specs) && 0x77 !in specs && WholeMessage(m) && |c| == 4
    ensures var shown := Decoded(specs, m + ([0xEE, 0x02, x, k] + c), out);
            && Says(shown, TypeKey, 0x77) && Says(shown, LengthKey, 2) && Says(shown, CrcTypeKey, k % 16)
            && CrcDataKey in shown && shown[CrcDataKey] == Hex(c)
            && (k % 16 == 0 ==> Says(shown, CrcValid, if FromBE(c) == CrcOf(m, 0xEDB8_8320) as int then 1 else 0))
            && (k % 16 == 1 ==> Says(shown, CrcValid, if FromBE(c) == CrcOf(m, 0xC8DF_352F) as int then 1 else 0))
            && (k % 16 > 1 ==> (CrcValid in shown <==> CrcValid in Decoded(specs, m, out)))
  {
    hide Decoded, CrcOf, FromBE, WfSpecs, FieldsOf, Payload, ShowAll;
    var tail := [0xEE, 0x02, x, k] + c;
    assert tail[4..] == c && tail[3] == k;
    TwoShown(specs, m, tail, out);
    Kinds(0x77, 2, [x, k] + c);
    assert Lead(0x77, 2) + ([x, k] + c) == tail;
    OneShown(specs, m, out);
  }

  lemma OneShown(specs: Specs, m: bytes, out: Out)
    requires WfSpecs(specs) && WholeMessage(m)
    ensures Decoded(specs, m, out) == Show(specs, None, m, out)
  {
    hide Walk, Show, WfSpecs;
    WholeIsWalked(m, []);
    TooShort([]);
    assert m + [] == m && [m] + [] == [m];
    WalkIsFraming(m);
    NothingShown(specs, out);
    assert [m][..0] == [];
    ShowAllStep(specs, [m], out);
  }

  // ---- fields ----

  lemma Decomposed(n: nat, unit: nat, range: nat, v: nat) returns (high: nat, low: nat)
    requires unit > 0 && range > 0 && v == n / unit % range
    ensures v < range && low < unit && n == (high * range + v) * unit + low
  {
    var q := n / unit;
    high, low := q / range, n % unit;
    assert n == unit * q + low;
    assert q == range * high + v;
  }

  /** What octets are shown as: a masked number is the digits of their value between unit and unit * range, a signed
      one is that value or 256^length below it. */
  ghost predicate ShownAs(k: Kind, d: bytes, v: Value) {
    match k
    case Octets => v == Hex(d)
    case Text => v == Str(Utf8.Unpacked(d))
    case Signed => v.Int? && 0 <= 2 * v.v + Radix(|d|) < 2 * Radix(|d|) && (v.v == FromBE(d) || v.v + Radix(|d|) == FromBE(d))
    case Number(unit, range) => v.Num? && v.n < range && exists high: nat, low: nat :: low < unit && FromBE(d) == Digits(high, v.n, low, k)
  }

  function Digits(high: nat, v: nat, low: nat, k: Kind): (n: nat)
    requires k.Number?
  {
    (high * k.range + v) * k.unit + low
  }

  /** The k-th and last repetition of a field of n octets. */
  lemma Last(offset: nat, k: nat, n: nat)
    requires k > 0
    ensures offset + (k - 1) * n + n == offset + k * n
  {
  }

  lemma NumberShown(d: bytes, k: Kind, v: nat, high: nat, low: nat)
    requires k.Number? && v < k.range && low < k.unit && FromBE(d) == Digits(high, v, low, k)
    ensures ShownAs(k, d, Num(v))
  {
    hide FromBE, Digits;
  }

  lemma SignedShown(d: bytes)
    requires d != []
    ensures var n := FromBE(d); ShownAs(Signed, d, Int(if n < Radix(|d|) / 2 then n else n - Radix(|d|)))
  {
    hide FromBE, Radix;
    RadixEven(|d|);
    assert FromBE(d) < Radix(|d|);
  }

  lemma RadixEven(n: nat)
    requires n > 0
    ensures Radix(n) / 2 * 2 == Radix(n)
  {
  }

  lemma PlaceOfLast(s: Spec, i: nat, m: bytes, at: nat)
    requires WfSpec(s) && |m| >= s.length && i < |s.fields| && Shown(s.fields[i])
    requires at + s.fields[i].length == s.fields[i].offset + s.fields[i].repeat * s.fields[i].length
    ensures LastAt(s, i, m) == at && at + s.fields[i].length <= |m|
    ensures s.fields[i].kind.Number? ==> s.fields[i].kind.unit > 0 && s.fields[i].kind.range > 0
  {
    var f := s.fields[i];
    assert f in s.fields;
    Last(f.offset, f.repeat, f.length);
  }

  lemma ValueShown(s: Spec, i: nat, m: bytes, at: nat)
    requires WfSpec(s) && |m| >= s.length && i < |s.fields| && Shown(s.fields[i])
    requires LastAt(s, i, m) == at && at + s.fields[i].length <= |m|
    requires s.fields[i].kind.Number? ==> s.fields[i].kind.unit > 0 && s.fields[i].kind.range > 0
    ensures ShownAs(s.fields[i].kind, m[at..at + s.fields[i].length], ValueOf(s, i, m))
  {
    hide FromBE, Utf8.Unpacked, ShownAs, Radix, WfSpec, LastAt;
    var k, d := s.fields[i].kind, m[at..at + s.fields[i].length];
    match k {
      case Number(unit, range) =>
        var v := ValueOf(s, i, m).n;
        var high, low := Decomposed(FromBE(d), unit, range, v);
        NumberShown(d, k, v, high, low);
      case Signed => SignedShown(d);
      case _ => PlainShown(d);
    }
  }

  /** A decoded layout shows each of its fields by the octets of its last repetition. */
  lemma FieldMeaning(s: Spec, t: nat, m: bytes, i: nat, at: nat)
    requires WfSpec(s) && |m| >= s.length && i < |s.fields| && Shown(s.fields[i])
    requires at + s.fields[i].length == s.fields[i].offset + s.fields[i].repeat * s.fields[i].length
    ensures at + s.fields[i].length <= |m| && FieldKey(t, i) in FieldsOf(s, t, m, |s.fields|)
    ensures ShownAs(s.fields[i].kind, m[at..at + s.fields[i].length], FieldsOf(s, t, m, |s.fields|)[FieldKey(t, i)])
  {
    hide ShownAs, WfSpec, LastAt, ValueOf, FieldsOf;
    PlaceOfLast(s, i, m, at);
    ValueShown(s, i, m, at);
  }

  lemma PlainShown(d: bytes)
    ensures ShownAs(Octets, d, Hex(d)) && ShownAs(Text, d, Str(Utf8.Unpacked(d)))
  {
  }
}
