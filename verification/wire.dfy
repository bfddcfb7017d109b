/** Big-endian integers, fixed 64-octet strings and localized references: the octet formats every
    descriptor, blob and control value of the project is made of. */
module Wire {

  type byte = b: int | 0 <= b < 256
  type bytes = seq<byte>

  datatype Option<+T> = None | Some(value: T)

  /** 256 to the n: the number of values an n-octet field can hold. */
  function Radix(n: nat): (r: nat)
    ensures r > 0
    ensures n > 0 ==> r % 256 == 0
  {
    if n == 0 then 1 else 256 * Radix(n - 1)
  }

  /** The n low octets of v, most significant first. */
  function ToBE(v: nat, n: nat): (r: bytes)
    ensures |r| == n
  {
    if n == 0 then [] else ToBE(v / 256, n - 1) + [v % 256]
  }

  /** The value of an octet string read big-endian. */
  function FromBE(b: bytes): (v: nat)
    ensures v < Radix(|b|)
  {
    if b == [] then 0 else FromBE(b[..|b| - 1]) * 256 + b[|b| - 1]
  }

  lemma {:induction false} FromToBE(v: nat, n: nat)
    requires v < Radix(n)
    ensures FromBE(ToBE(v, n)) == v
  {
    if n > 0 {
      FromToBE(v / 256, n - 1);
      assert ToBE(v, n)[..n - 1] == ToBE(v / 256, n - 1);
    }
  }

  lemma {:induction false} ToFromBE(b: bytes)
    ensures ToBE(FromBE(b), |b|) == b
  {
    if b != [] {
      ToFromBE(b[..|b| - 1]);
      assert b == b[..|b| - 1] + [b[|b| - 1]];
    }
  }

  /** Octet i counts the multiples of 256 to the n - 1 - i. */
  lemma {:induction false} PlaceValue(v: nat, n: nat, i: nat)
    requires i < n
    ensures ToBE(v, n)[i] == v / Radix(n - 1 - i) % 256
  {
    if i < n - 1 {
      PlaceValue(v / 256, n - 1, i);
      DividedTwice(v, 256, Radix(n - 2 - i));
    } else {
      assert Radix(0) == 1;
    }
  }

  lemma DividedTwice(v: nat, a: nat, b: nat)
    requires a > 0 && b > 0
    ensures v / a / b == v / (a * b)
  {
    var q, r := v / a / b, v / a % b;
    var s := v % a;
    assert v / a == b * q + r && v == a * (v / a) + s;
    assert v == a * b * q + (a * r + s) by {
      assert a * (b * q + r) == a * b * q + a * r;
    }
    assert a * r + s < a * b by {
      assert a * r + a <= a * b by { assert a * (r + 1) <= a * b; }
    }
    QuotientIs(v, a * b, q, a * r + s);
  }

  lemma QuotientIs(v: nat, m: nat, q: nat, r: nat)
    requires m > 0 && v == m * q + r && r < m
    ensures v / m == q
  {
    var p, t := v / m, v % m;
    assert v == m * p + t;
    assert m * (q - p) == t - r;
    Multiples(m, q - p);
  }

  // ---- range-checked fields ----

  /** The range an n-octet wire field accepts: unsigned, plus two's-complement negatives. */
  predicate Packable(v: int, n: nat)
    requires n > 0
  {
    -(Radix(n) / 2) <= v < Radix(n)
  }

  /** pack_u8 .. pack_u64: the octets of v, or None where the range check raises. */
  function Pack(v: int, n: nat): (r: Option<bytes>)
    requires n > 0
  {
    if Packable(v, n) then Some(ToBE(v % Radix(n), n)) else None
  }

  /** Reading n octets at pos; None where the buffer is too short. */
  function Unpack(data: bytes, pos: nat, n: nat): (r: Option<nat>) {
    if pos + n <= |data| then Some(FromBE(data[pos..pos + n])) else None
  }

  /** A packed value reads back, from anywhere inside a larger buffer, as itself or (when negative)
      as its two's complement; a value is refused exactly when it fits neither reading. */
  lemma PackUnpack(v: int, n: nat, before: bytes, after: bytes)
    requires n > 0
    ensures Pack(v, n).Some? <==> -(Radix(n) / 2) <= v < Radix(n)
    ensures Pack(v, n).Some? ==>
              Unpack(before + Pack(v, n).value + after, |before|, n)
              == Some(if v >= 0 then v else v + Radix(n))
  {
    if Pack(v, n).Some? {
      var w := if v >= 0 then v else v + Radix(n);
      ModShift(v, Radix(n));
      FromToBE(w, n);
      assert (before + Pack(v, n).value + after)[|before|..|before| + n] == Pack(v, n).value;
    }
  }

  lemma ModShift(v: int, m: int)
    requires m > 0 && -m <= v < m
    ensures v % m == if v >= 0 then v else v + m
  {
    var q, r := v / m, v % m;
    assert v == m * q + r;
    Multiples(m, q);
  }

  lemma Multiples(m: int, q: int)
    requires m > 0
    ensures q >= 1 ==> m * q >= m
    ensures q == 0 ==> m * q == 0
    ensures q == -1 ==> m * q == -m
    ensures q <= -2 ==> m * q <= -2 * m
  {
  }

  // ---- 16- and 32-bit unsigned fields known to be in range ----

  function U16(v: nat): (r: bytes)
    requires v < 0x1_0000
    ensures |r| == 2
  {
    [v / 256, v % 256]
  }

  function U16At(d: bytes, pos: nat): (v: nat)
    requires pos + 2 <= |d|
    ensures v < 0x1_0000
  {
    d[pos] as int * 256 + d[pos + 1]
  }

  function U32(v: nat): (r: bytes)
    requires v < 0x1_0000_0000
    ensures |r| == 4
  {
    U16(v / 0x1_0000) + U16(v % 0x1_0000)
  }

  function U32At(d: bytes, pos: nat): (v: nat)
    requires pos + 4 <= |d|
    ensures v < 0x1_0000_0000
  {
    U16At(d, pos) * 0x1_0000 + U16At(d, pos + 2)
  }

  /** The unsigned shorthands agree with the checked general form. */
  lemma ShorthandsArePack(v: nat)
    ensures v < 0x1_0000 ==> Pack(v, 2) == Some(U16(v))
    ensures v < 0x1_0000_0000 ==> Pack(v, 4) == Some(U32(v))
  {
    assert Radix(2) == 0x1_0000 by {
      assert Radix(1) == 256;
    }
    assert Radix(4) == 0x1_0000_0000 by {
      assert Radix(3) == 256 * Radix(2);
    }
    if v < 0x1_0000 {
      assert ToBE(v / 256 / 256, 0) == [];
      assert ToBE(v, 2) == U16(v);
    }
    if v < 0x1_0000_0000 {
      var a, b, c := v / 256, v / 256 / 256, v / 256 / 256 / 256;
      assert ToBE(c / 256, 0) == [];
      assert ToBE(c, 1) == [c % 256];
      assert ToBE(b, 2) == [c % 256, b % 256];
      assert ToBE(v, 4) == [c % 256, b % 256, a % 256, v % 256];
      assert b == v / 0x1_0000 && c == b / 256 == b / 256 % 256;
      assert v % 0x1_0000 / 256 == a % 256 && v % 0x1_0000 % 256 == v % 256;
      assert U32(v) == [c % 256, b % 256, a % 256, v % 256];
    }
  }

  // ---- string64 ----

  function Zeros(n: nat): (r: bytes)
    ensures |r| == n && forall i :: 0 <= i < n ==> r[i] == 0
  {
    seq(n, i => 0)
  }

  /** pack_string64 on the octets of a string: cut at 64, padded with NUL. */
  function String64(s: bytes): (r: bytes)
    ensures |r| == 64
  {
    var raw := if |s| <= 64 then s else s[..64];
    raw + Zeros(64 - |raw|)
  }

  /** The octets before the first NUL. */
  function UntilNul(s: bytes): (r: bytes)
    ensures r <= s && 0 !in r
    ensures r == s || s[|r|] == 0
  {
    if s == [] || s[0] == 0 then [] else
      var t := UntilNul(s[1..]);
      assert s == [s[0]] + s[1..];
      [s[0]] + t
  }

  lemma UntilNulUnique(r: bytes, rest: bytes)
    requires 0 !in r && (rest == [] || rest[0] == 0)
    ensures UntilNul(r + rest) == r
  {
    var u := UntilNul(r + rest);
    assert forall i :: 0 <= i < |r| ==> (r + rest)[i] != 0;
    assert rest != [] ==> (r + rest)[|r|] == 0;
    assert forall i :: 0 <= i < |u| ==> u[i] in u;
    assert |u| == |r|;
    assert u == (r + rest)[..|u|] == r;
  }

  // ---- localized string references ----

  /** pack_localized_string_ref: a 13-bit offset and a 3-bit index in one 16-bit word. */
  function PackRef(offset: nat, index: nat): (w: nat)
    ensures w < 0x1_0000
  {
    offset % 0x2000 * 8 + index % 8
  }

  function UnpackRef(w: nat): (r: (nat, nat)) {
    (w / 8 % 0x2000, w % 8)
  }

  /** A reference survives packing exactly when its offset fits 13 bits and its index 3. */
  lemma RefRoundTrip(offset: nat, index: nat)
    ensures UnpackRef(PackRef(offset, index)) == (offset, index) <==> offset < 0x2000 && index < 8
  {
    hide UnpackRef;
    var a, b := offset % 0x2000, index % 8;
    UnpackPacked(a, b);
  }

  lemma UnpackPacked(a: nat, b: nat)
    requires a < 0x2000 && b < 8
    ensures UnpackRef(a * 8 + b) == (a, b)
  {
  }

  /** The offset is in the upper 13 bits of the word, the index in the lower three. */
  lemma RefBits(offset: nat, index: nat)
    requires offset < 0x2000 && index < 8
    ensures PackRef(offset, index) / 8 == offset && PackRef(offset, index) % 8 == index
  {
    assert PackRef(offset, index) == 8 * offset + index;
  }

  // ---- concatenation ----

  /** The concatenation of the parts. */
  function Join(parts: seq<bytes>): (r: bytes) {
    if parts == [] then [] else Join(parts[..|parts| - 1]) + parts[|parts| - 1]
  }

  lemma JoinSnoc(parts: seq<bytes>, i: nat)
    requires i < |parts|
    ensures Join(parts[..i + 1]) == Join(parts[..i]) + parts[i]
  {
    assert parts[..i + 1][..i] == parts[..i];
  }

  lemma {:induction false} JoinWidth(parts: seq<bytes>, w: nat)
    requires forall p <- parts :: |p| == w
    ensures |Join(parts)| == w * |parts|
  {
    if parts == [] {
      assert w * |parts| == 0;
    } else {
      JoinWidth(parts[..|parts| - 1], w);
      assert parts[|parts| - 1] in parts;
      MulStep(w, |parts|);
    }
  }

  lemma MulStep(w: nat, n: nat)
    requires n > 0
    ensures w * (n - 1) + w == w * n
  {
  }

  /** Part i lies in the concatenation right after the parts before it. */
  lemma {:induction false} JoinAt(parts: seq<bytes>, i: nat)
    requires i < |parts|
    ensures var a := |Join(parts[..i])|;
            a + |parts[i]| <= |Join(parts)| && Join(parts)[a..a + |parts[i]|] == parts[i]
            && (i + 1 == |parts| ==> a + |parts[i]| == |Join(parts)|)
  {
    var init := parts[..|parts| - 1];
    if i < |init| {
      JoinAt(init, i);
      assert init[..i] == parts[..i];
    }
  }

  lemma RecordAt(before: bytes, parts: seq<bytes>, after: bytes, w: nat, i: nat)
    requires (forall p <- parts :: |p| == w) && i < |parts|
    ensures var pos := |before| + w * i;
            pos + w <= |before + Join(parts) + after| && (before + Join(parts) + after)[pos..pos + w] == parts[i]
  {
    assert forall p <- parts[..i] :: p in parts;
    JoinWidth(parts[..i], w);
    JoinAt(parts, i);
    assert parts[i] in parts;
  }

  /** A slice of a slice. */
  lemma Within(d: bytes, pos: nat, w: nat, k: nat, n: nat)
    requires pos + w <= |d| && k + n <= w
    ensures d[pos + k..pos + k + n] == d[pos..pos + w][k..k + n]
  {
    var a, b := d[pos + k..pos + k + n], d[pos..pos + w][k..k + n];
    assert |a| == |b| && forall j :: 0 <= j < n ==> a[j] == b[j];
  }
}
