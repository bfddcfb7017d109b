/** Integer LINEAR and SELECTOR control values (section 7.3.5 of IEEE 1722.1-2021): the compiler's
    codec, the count it derives from octets alone, and the dissector's walk over the same octets. */
module ControlValues {
  import opened Wire
  import opened Arithmetic

  // ---- value types ----

  /** Element size in octets, and how an element is coded. */
  datatype Coding = Coding(size: nat, signed: bool)

  /** Floating-point types are known by their size only. */
  datatype Family = Linear(c: Coding) | Selector(c: Coding) | LinearFloat(size: nat) | SelectorFloat(size: nat) | Other

  predicate WfCoding(c: Coding) {
    c.size in {1, 2, 4, 8}
  }

  /** The two flag bits above the 14-bit base type are not part of the type. */
  function BaseType(t: nat): (b: nat)
    ensures b < 0x4000
  {
    t % 0x4000
  }

  function IntegerCoding(code: nat): (c: Coding)
    requires code < 8
    ensures WfCoding(c)
  {
    Coding(if code < 2 then 1 else if code < 4 then 2 else if code < 6 then 4 else 8, code % 2 == 0)
  }

  function FamilyOf(t: nat): (f: Family)
    ensures IsInteger(f) ==> WfCoding(f.c)
    ensures f.LinearFloat? || f.SelectorFloat? ==> f.size in {4, 8}
  {
    var b := BaseType(t);
    if b < 8 then Linear(IntegerCoding(b))
    else if b == 8 then LinearFloat(4)
    else if b == 9 then LinearFloat(8)
    else if b < 0x12 then Selector(IntegerCoding(b - 0xA))
    else if b == 0x12 then SelectorFloat(4)
    else if b == 0x13 then SelectorFloat(8)
    else Other
  }

  predicate IsInteger(f: Family) {
    f.Linear? || f.Selector?
  }

  // ---- elements ----

  predicate InRange(v: int, c: Coding) {
    if c.signed then -(Radix(c.size) / 2) <= v < Radix(c.size) / 2 else 0 <= v < Radix(c.size)
  }

  function Encode(v: int, c: Coding): (r: bytes)
    requires WfCoding(c)
    ensures |r| == c.size
  {
    ToBE(v % Radix(c.size), c.size)
  }

  function DecodeOctets(d: bytes, c: Coding): (v: int) {
    var u := FromBE(d);
    if c.signed && u >= Radix(c.size) / 2 then u - Radix(c.size) else u
  }

  function ElementAt(d: bytes, pos: nat, c: Coding): (v: int)
    requires pos + c.size <= |d|
  {
    DecodeOctets(d[pos..pos + c.size], c)
  }

  lemma EncodeDecode(v: int, c: Coding)
    requires WfCoding(c) && InRange(v, c)
    ensures DecodeOctets(Encode(v, c), c) == v
  {
    hide Radix, ToBE, FromBE;
    var m := Radix(c.size);
    HalfRadix(c.size);
    ModShift(v, m);
    FromToBE(v % m, c.size);
  }

  lemma HalfRadix(n: nat)
    requires n > 0
    ensures Radix(n) / 2 * 2 == Radix(n)
  {
    assert Radix(n) == 256 * Radix(n - 1);
  }

  /** Elements in a row. */
  function Encodings(vs: seq<int>, c: Coding): (r: seq<bytes>)
    requires WfCoding(c)
    ensures |r| == |vs| && forall x <- r :: |x| == c.size
  {
    seq(|vs|, i requires 0 <= i < |vs| => Encode(vs[i], c))
  }

  /** Element i of a row reads back, wherever the row stands. */
  lemma RowReadsBack(before: bytes, vs: seq<int>, after: bytes, c: Coding, i: nat)
    requires WfCoding(c) && i < |vs| && InRange(vs[i], c)
    ensures |Join(Encodings(vs, c))| == c.size * |vs|
    ensures c.size * i + c.size <= c.size * |vs|
    ensures ElementAt(before + Join(Encodings(vs, c)) + after, |before| + c.size * i, c) == vs[i]
  {
    hide Encode, DecodeOctets, InRange, Join;
    var parts := Encodings(vs, c);
    JoinWidth(parts, c.size);
    RecordAt(before, parts, after, c.size, i);
    EncodeDecode(vs[i], c);
    RowRoom(c.size, i, |vs|);
  }

  lemma RowRoom(size: nat, i: nat, n: nat)
    requires i < n
    ensures size * i + size <= size * n
  {
    assert size * i + size == size * (i + 1) <= size * n;
  }

  // ---- LINEAR ----

  datatype LinearValue = LinearValue(current: int, minimum: int, maximum: int, step: int, default_: int, unit: nat, stringRef: nat)

  /** The five elements of an item in wire order. */
  function Elements(v: LinearValue): (r: seq<int>) {
    [v.minimum, v.maximum, v.step, v.default_, v.current]
  }

  function ItemSize(c: Coding): (n: nat) {
    5 * c.size + 4
  }

  predicate LinearFits(v: LinearValue, c: Coding) {
    (forall x <- Elements(v) :: InRange(x, c)) && v.unit < 0x1_0000 && v.stringRef < 0x1_0000
  }

  function Item(v: LinearValue, c: Coding): (r: bytes)
    requires WfCoding(c)
    ensures |r| == ItemSize(c)
  {
    JoinWidth(Encodings(Elements(v), c), c.size);
    Join(Encodings(Elements(v), c)) + ToBE(v.unit, 2) + ToBE(v.stringRef, 2)
  }

  function Items(vs: seq<LinearValue>, c: Coding): (r: seq<bytes>)
    requires WfCoding(c)
    ensures |r| == |vs| && forall x <- r :: |x| == ItemSize(c)
  {
    seq(|vs|, i requires 0 <= i < |vs| => Item(vs[i], c))
  }

  function LinearAt(d: bytes, pos: nat, c: Coding): (v: LinearValue)
    requires WfCoding(c) && pos + ItemSize(c) <= |d|
  {
    var s := c.size;
    LinearValue(ElementAt(d, pos + 4 * s, c), ElementAt(d, pos, c), ElementAt(d, pos + s, c), ElementAt(d, pos + 2 * s, c),
                ElementAt(d, pos + 3 * s, c), FromBE(d[pos + 5 * s..pos + 5 * s + 2]), FromBE(d[pos + 5 * s + 2..pos + 5 * s + 4]))
  }

  lemma TwoOctets(v: nat)
    requires v < 0x1_0000
    ensures FromBE(ToBE(v, 2)) == v
  {
    assert Radix(1) == 256;
    FromToBE(v, 2);
  }

  lemma ItemReadsBack(v: LinearValue, c: Coding)
    requires WfCoding(c) && LinearFits(v, c)
    ensures LinearAt(Item(v, c), 0, c) == v
  {
    hide Encode, DecodeOctets, InRange, ElementAt, ToBE, FromBE, Join, Encodings;
    var xs, tail := Elements(v), ToBE(v.unit, 2) + ToBE(v.stringRef, 2);
    var row := Join(Encodings(xs, c));
    assert Item(v, c) == [] + row + tail;
    forall i: nat | i < 5 ensures ElementAt(Item(v, c), c.size * i, c) == xs[i] {
      assert xs[i] in xs;
      RowReadsBack([], xs, tail, c, i);
    }
    assert ElementAt(Item(v, c), c.size * 0, c) == xs[0] && ElementAt(Item(v, c), c.size * 1, c) == xs[1]
        && ElementAt(Item(v, c), c.size * 2, c) == xs[2] && ElementAt(Item(v, c), c.size * 3, c) == xs[3]
        && ElementAt(Item(v, c), c.size * 4, c) == xs[4];
    JoinWidth(Encodings(xs, c), c.size);
    var s := 5 * c.size;
    assert Item(v, c)[s..s + 2] == ToBE(v.unit, 2) && Item(v, c)[s + 2..s + 4] == ToBE(v.stringRef, 2);
    TwoOctets(v.unit);
    TwoOctets(v.stringRef);
  }

  lemma LinearInside(d: bytes, pos: nat, c: Coding)
    requires WfCoding(c) && pos + ItemSize(c) <= |d|
    ensures LinearAt(d, pos, c) == LinearAt(d[pos..pos + ItemSize(c)], 0, c)
  {
    hide DecodeOctets, FromBE;
    var e, s := d[pos..pos + ItemSize(c)], c.size;
    Within(d, pos, ItemSize(c), 0, s);
    Within(d, pos, ItemSize(c), s, s);
    Within(d, pos, ItemSize(c), 2 * s, s);
    Within(d, pos, ItemSize(c), 3 * s, s);
    Within(d, pos, ItemSize(c), 4 * s, s);
    Within(d, pos, ItemSize(c), 5 * s, 2);
    Within(d, pos, ItemSize(c), 5 * s + 2, 2);
  }

  /** serialize_linear_values: fails exactly when a field does not fit. */
  method SerializeLinear(c: Coding, vs: seq<LinearValue>) returns (r: Option<bytes>)
    requires WfCoding(c)
    ensures r == if forall v <- vs :: LinearFits(v, c) then Some(Join(Items(vs, c))) else None
  {
    hide Item, LinearFits, Join;
    var d: bytes := [];
    EmptyJoin();
    assert Items(vs, c)[..0] == [];
    for i := 0 to |vs|
      invariant forall k :: 0 <= k < i ==> LinearFits(vs[k], c)
      invariant d == Join(Items(vs, c)[..i])
    {
      if !LinearFits(vs[i], c) {
        assert vs[i] in vs;
        return None;
      }
      d := d + Item(vs[i], c);
      JoinSnoc(Items(vs, c), i);
    }
    assert Items(vs, c)[..|vs|] == Items(vs, c);
    r := Some(d);
  }

  lemma EmptyJoin()
    ensures Join([]) == []
  {
  }

  /** How many whole items of a size the octets hold, at most n. */
  function WholeItems(length: nat, size: nat, n: nat): (k: nat)
    requires size > 0
    ensures k <= n && k * size <= length && (k < n ==> length < (k + 1) * size)
  {
    var q := length / size;
    DivisionBounds(length, size);
    if q < n then q else
      MulMonotone(n, q, size);
      n
  }

  function LinearItemsIn(d: bytes, c: Coding, n: nat): (vs: seq<LinearValue>)
    requires WfCoding(c)
  {
    var k := WholeItems(|d|, ItemSize(c), n);
    seq(k, i requires 0 <= i < k => (RowFits(i, k, ItemSize(c), |d|); LinearAt(d, i * ItemSize(c), c)))
  }

  lemma RowFits(i: nat, k: nat, size: nat, length: nat)
    requires i < k && k * size <= length
    ensures i * size + size <= length
  {
    assert i * size + size == (i + 1) * size;
    MulMonotone(i + 1, k, size);
  }

  /** parse_linear_values: up to n items, stopping where one no longer fits. */
  method ParseLinear(c: Coding, d: bytes, n: nat) returns (vs: seq<LinearValue>)
    requires WfCoding(c)
    ensures vs == LinearItemsIn(d, c, n)
  {
    hide LinearAt;
    vs := [];
    var offset, i := 0, 0;
    while i < n && offset + ItemSize(c) <= |d|
      invariant i <= n && |vs| == i && offset == i * ItemSize(c) <= |d|
      invariant forall k :: 0 <= k < i ==> k * ItemSize(c) + ItemSize(c) <= |d| && vs[k] == LinearAt(d, k * ItemSize(c), c)
    {
      vs := vs + [LinearAt(d, offset, c)];
      offset := offset + ItemSize(c);
      i := i + 1;
      assert i * ItemSize(c) == (i - 1) * ItemSize(c) + ItemSize(c);
    }
    StoppedThere(|d|, ItemSize(c), n, i);
  }

  lemma StoppedThere(length: nat, size: nat, n: nat, i: nat)
    requires size > 0 && i <= n && i * size <= length && (i < n ==> length < i * size + size)
    ensures i == WholeItems(length, size, n)
  {
    var k := WholeItems(length, size, n);
    if i < k {
      MulMonotone(i + 1, k, size);
    } else if k < i {
      MulMonotone(k + 1, i, size);
    }
  }

  // ---- SELECTOR ----

  datatype SelectorValue = SelectorValue(current: int, default_: int, options: seq<int>, unit: nat)

  function Row(v: SelectorValue): (r: seq<int>) {
    [v.current, v.default_] + v.options
  }

  predicate SelectorFits(v: SelectorValue, c: Coding) {
    (forall x <- Row(v) :: InRange(x, c)) && v.unit < 0x1_0000
  }

  function SelectorOctets(v: SelectorValue, c: Coding): (r: bytes)
    requires WfCoding(c)
    ensures |r| == (|v.options| + 2) * c.size + 2
  {
    JoinWidth(Encodings(Row(v), c), c.size);
    Join(Encodings(Row(v), c)) + ToBE(v.unit, 2)
  }

  /** serialize_selector_values: exactly one item, or an error. */
  method SerializeSelector(c: Coding, vs: seq<SelectorValue>) returns (r: Option<bytes>)
    requires WfCoding(c)
    ensures r == if |vs| == 1 && SelectorFits(vs[0], c) then Some(SelectorOctets(vs[0], c)) else None
  {
    hide Encode, InRange, Join;
    if |vs| != 1 {
      return None;
    }
    var v := vs[0];
    var xs := Row(v);
    var d: bytes := [];
    EmptyJoin();
    assert Encodings(xs, c)[..0] == [];
    for i := 0 to |xs|
      invariant forall k :: 0 <= k < i ==> InRange(xs[k], c)
      invariant d == Join(Encodings(xs, c)[..i])
    {
      if !InRange(xs[i], c) {
        assert xs[i] in Row(v);
        return None;
      }
      d := d + Encode(xs[i], c);
      JoinSnoc(Encodings(xs, c), i);
    }
    assert Encodings(xs, c)[..|xs|] == Encodings(xs, c);
    if v.unit >= 0x1_0000 {
      return None;
    }
    r := Some(d + ToBE(v.unit, 2));
  }

  /** parse_selector_values: one item with n options, or nothing. */
  function SelectorsIn(d: bytes, c: Coding, n: nat): (vs: seq<SelectorValue>)
    requires WfCoding(c)
  {
    if |d| < (n + 2) * c.size + 2 then [] else
      [SelectorValue(OptionAt(d, c, n, 0), OptionAt(d, c, n, 1), seq(n, k requires 0 <= k < n => OptionAt(d, c, n, k + 2)),
                     FromBE(d[(n + 2) * c.size..(n + 2) * c.size + 2]))]
  }

  /** Element k of a selector with n options. */
  function OptionAt(d: bytes, c: Coding, n: nat, k: nat): (v: int)
    requires WfCoding(c) && k < n + 2 && |d| >= (n + 2) * c.size + 2
  {
    RowFits(k, n + 2, c.size, |d|);
    ElementAt(d, k * c.size, c)
  }

  // ---- counting ----

  /** count_values: number_of_values from the octets alone. */
  function CountValues(t: nat, d: bytes): (n: nat) {
    if d == [] then 0 else
      match FamilyOf(t)
      case Linear(c) => |d| / (5 * c.size + 4)
      case LinearFloat(size) => |d| / (5 * size + 4)
      case Selector(c) => OptionCount(|d|, c.size)
      case SelectorFloat(size) => OptionCount(|d|, size)
      case Other => 1
  }

  function OptionCount(length: nat, size: nat): (n: nat)
    requires size > 0
  {
    if length < 2 * size + 2 then 0 else (length - 2 * size - 2) / size
  }

  // ---- the dissector ----

  /** k elements in a row. */
  function RowElements(d: bytes, pos: nat, c: Coding, k: nat): (r: seq<int>)
    requires pos + k * c.size <= |d|
    ensures |r| == k
  {
    seq(k, i requires 0 <= i < k => (RowFits(i, k, c.size, |d| - pos); ElementAt(d, pos + i * c.size, c)))
  }

  /** The elements of k LINEAR items. */
  function LinearElements(d: bytes, pos: nat, c: Coding, k: nat): (r: seq<int>)
    requires pos + k * ItemSize(c) <= |d|
  {
    if k == 0 then [] else
      assert k * ItemSize(c) == (k - 1) * ItemSize(c) + ItemSize(c);
      LinearElements(d, pos, c, k - 1) + RowElements(d, pos + (k - 1) * ItemSize(c), c, 5)
  }

  function Consumed(f: Family, length: nat, n: nat): (k: nat)
    requires IsInteger(f) && WfCoding(f.c)
    ensures k <= length
  {
    match f
    case Linear(c) => WholeItems(length, ItemSize(c), n) * ItemSize(c)
    case Selector(c) => if (n + 2) * c.size + 2 <= length then (n + 2) * c.size + 2 else 0
  }

  function ShownElements(f: Family, d: bytes, start: nat, stop: nat, n: nat): (r: seq<int>)
    requires IsInteger(f) && WfCoding(f.c) && start <= stop <= |d|
  {
    match f
    case Linear(c) => LinearElements(d, start, c, WholeItems(stop - start, ItemSize(c), n))
    case Selector(c) => if (n + 2) * c.size + 2 <= stop - start then RowElements(d, start, c, n + 2) else []
  }

  /** _control_values in full mode over an integer LINEAR or SELECTOR payload: where the cursor ends,
      and every element shown on the way. */
  method WalkValues(f: Family, d: bytes, start: nat, stop: nat, n: nat) returns (at: nat, shown: seq<int>)
    requires IsInteger(f) && WfCoding(f.c) && start <= stop <= |d|
    ensures at == start + Consumed(f, stop - start, n)
    ensures shown == ShownElements(f, d, start, stop, n)
  {
    hide ElementAt, WholeItems, RowElements;
    at, shown := start, [];
    var c := f.c;
    if f.Linear? {
      var entry, i := 5 * c.size + 4, 0;
      while i < n && at + entry <= stop
        invariant i <= n && at == start + i * entry <= stop
        invariant shown == LinearElements(d, start, c, i)
      {
        shown := shown + RowElements(d, at, c, 5);
        at := at + entry;
        i := i + 1;
        assert i * entry == (i - 1) * entry + entry;
      }
      StoppedThere(stop - start, entry, n, i);
    } else {
      var total := (n + 2) * c.size + 2;
      if at + total <= stop {
        shown := RowElements(d, at, c, n + 2);
        at := at + total;
      }
    }
  }

  // ---- the codecs agree ----

  lemma ElementInside(d: bytes, pos: nat, w: nat, k: nat, c: Coding)
    requires pos + w <= |d| && k + c.size <= w
    ensures ElementAt(d, pos + k, c) == ElementAt(d[pos..pos + w], k, c)
  {
    hide DecodeOctets;
    Within(d, pos, w, k, c.size);
  }

  /** All elements of all items, in wire order. */
  function AllElements(vs: seq<LinearValue>): (r: seq<int>) {
    if vs == [] then [] else AllElements(vs[..|vs| - 1]) + Elements(vs[|vs| - 1])
  }

  predicate AllFit(vs: seq<LinearValue>, c: Coding) {
    forall v <- vs :: LinearFits(v, c)
  }

  lemma ItemsLength(vs: seq<LinearValue>, c: Coding)
    requires WfCoding(c)
    ensures |Join(Items(vs, c))| == |vs| * ItemSize(c)
  {
    JoinWidth(Items(vs, c), ItemSize(c));
  }

  lemma ItemElements(v: LinearValue, c: Coding)
    requires WfCoding(c) && LinearFits(v, c)
    ensures RowElements(Item(v, c), 0, c, 5) == Elements(v)
  {
    hide Encode, DecodeOctets, InRange, ElementAt, ToBE, Join, Encodings;
    var xs, tail := Elements(v), ToBE(v.unit, 2) + ToBE(v.stringRef, 2);
    assert Item(v, c) == [] + Join(Encodings(xs, c)) + tail;
    var r := RowElements(Item(v, c), 0, c, 5);
    forall i: nat | i < 5 ensures r[i] == xs[i] {
      assert xs[i] in xs;
      RowReadsBack([], xs, tail, c, i);
    }
  }

  lemma ItemInPlace(d: bytes, before: bytes, vs: seq<LinearValue>, after: bytes, c: Coding, i: nat, pos: nat)
    requires WfCoding(c) && AllFit(vs, c) && i < |vs|
    requires d == before + Join(Items(vs, c)) + after && pos == |before| + i * ItemSize(c)
    ensures pos + ItemSize(c) <= |d|
    ensures LinearAt(d, pos, c) == vs[i] && RowElements(d, pos, c, 5) == Elements(vs[i])
  {
    hide LinearAt, Item, Join, ElementAt, LinearFits, Elements;
    var w := ItemSize(c);
    assert vs[i] in vs;
    RecordAt(before, Items(vs, c), after, w, i);
    LinearInside(d, pos, c);
    ItemReadsBack(vs[i], c);
    ItemElements(vs[i], c);
    var a, b := RowElements(d, pos, c, 5), RowElements(Item(vs[i], c), 0, c, 5);
    forall k | 0 <= k < 5 ensures a[k] == b[k] {
      RowFits(k, 5, c.size, w);
      ElementInside(d, pos, w, k * c.size, c);
    }
    assert a == b;
  }

  lemma {:induction false} ShownInOrder(before: bytes, vs: seq<LinearValue>, after: bytes, c: Coding, k: nat)
    requires WfCoding(c) && AllFit(vs, c) && k <= |vs|
    ensures var d := before + Join(Items(vs, c)) + after;
            |before| + k * ItemSize(c) <= |d| && LinearElements(d, |before|, c, k) == AllElements(vs[..k])
  {
    hide RowElements, Item, Join, LinearFits, Elements, LinearAt;
    ItemsLength(vs, c);
    MulMonotone(k, |vs|, ItemSize(c));
    if k > 0 {
      ShownInOrder(before, vs, after, c, k - 1);
      ItemInPlace(before + Join(Items(vs, c)) + after, before, vs, after, c, k - 1, |before| + (k - 1) * ItemSize(c));
      assert vs[..k][..k - 1] == vs[..k - 1];
    }
  }

  /** LINEAR: from the serialized octets alone the count is recovered, parsing with it gives the
      values back, and the dissector with it consumes exactly the octets and shows every element. */
  lemma LinearRoundTrip(t: nat, vs: seq<LinearValue>, before: bytes, after: bytes)
    requires FamilyOf(t).Linear? && AllFit(vs, FamilyOf(t).c)
    ensures var f := FamilyOf(t);
            var d := Join(Items(vs, f.c));
            && CountValues(t, d) == |vs|
            && LinearItemsIn(d, f.c, |vs|) == vs
            && Consumed(f, |d|, |vs|) == |d|
            && ShownElements(f, before + d + after, |before|, |before| + |d|, |vs|) == AllElements(vs)
  {
    hide Item, Join, LinearAt, LinearElements, AllElements, AllFit, WholeItems;
    var c := FamilyOf(t).c;
    var d := Join(Items(vs, c));
    ItemsLength(vs, c);
    ExactDivision(|vs|, ItemSize(c));
    StoppedThere(|d|, ItemSize(c), |vs|, |vs|);
    forall i: nat | i < |vs| ensures i * ItemSize(c) + ItemSize(c) <= |d| && LinearAt(d, i * ItemSize(c), c) == vs[i] {
      assert [] + d + [] == d;
      ItemInPlace(d, [], vs, [], c, i, i * ItemSize(c));
    }
    ShownInOrder(before, vs, after, c, |vs|);
    assert vs[..|vs|] == vs;
  }

  lemma SelectorElements(v: SelectorValue, c: Coding, before: bytes, after: bytes)
    requires WfCoding(c) && SelectorFits(v, c)
    ensures var d, n := before + SelectorOctets(v, c) + after, |v.options|;
            |before| + (n + 2) * c.size <= |d| && RowElements(d, |before|, c, n + 2) == Row(v)
  {
    hide Encode, DecodeOctets, InRange, ElementAt, ToBE, Join, Encodings;
    var xs, n := Row(v), |v.options|;
    var row := Join(Encodings(xs, c));
    var d := before + SelectorOctets(v, c) + after;
    assert d == before + row + (ToBE(v.unit, 2) + after);
    var r := RowElements(d, |before|, c, n + 2);
    forall i: nat | i < n + 2 ensures r[i] == xs[i] {
      assert xs[i] in xs;
      RowReadsBack(before, xs, ToBE(v.unit, 2) + after, c, i);
    }
  }

  /** SELECTOR: the same with the count of options, for exactly one item. */
  lemma SelectorRoundTrip(t: nat, v: SelectorValue, before: bytes, after: bytes)
    requires FamilyOf(t).Selector? && SelectorFits(v, FamilyOf(t).c)
    ensures var f := FamilyOf(t);
            var d, n := SelectorOctets(v, f.c), |v.options|;
            && CountValues(t, d) == n
            && SelectorsIn(d, f.c, n) == [v]
            && Consumed(f, |d|, n) == |d|
            && ShownElements(f, before + d + after, |before|, |before| + |d|, n) == Row(v)
  {
    hide SelectorOctets, RowElements, SelectorFits;
    var c := FamilyOf(t).c;
    var d, n := SelectorOctets(v, c), |v.options|;
    assert |d| - 2 * c.size - 2 == n * c.size;
    ExactDivision(n, c.size);
    SelectorElements(v, c, before, after);
    SelectorParsed(v, c);
  }

  lemma SelectorParsed(v: SelectorValue, c: Coding)
    requires WfCoding(c) && SelectorFits(v, c)
    ensures SelectorsIn(SelectorOctets(v, c), c, |v.options|) == [v]
  {
    hide ElementAt, ToBE, FromBE, Encodings, Join, InRange;
    var d, n := SelectorOctets(v, c), |v.options|;
    SelectorElements(v, c, [], []);
    assert [] + d + [] == d;
    var r := RowElements(d, 0, c, n + 2);
    assert forall k :: 0 <= k < n + 2 ==> OptionAt(d, c, n, k) == r[k];
    JoinWidth(Encodings(Row(v), c), c.size);
    var m := (n + 2) * c.size;
    assert d[m..m + 2] == ToBE(v.unit, 2);
    TwoOctets(v.unit);
    var w := SelectorsIn(d, c, n)[0];
    assert w.current == Row(v)[0] && w.default_ == Row(v)[1];
    assert w.options == v.options by {
      forall k | 0 <= k < n ensures w.options[k] == v.options[k] {
        assert r[k + 2] == Row(v)[k + 2];
      }
    }
  }

  // ---- the payload of a CONTROL descriptor ----

  /** _parse_control: the count is taken for the number of payload octets. */
  function ParsedPayload(t: nat, payload: bytes): (r: bytes) {
    var n := CountValues(t, payload);
    if n < |payload| then payload[..n] else payload
  }

  /** A CONTROL payload that comes back: none, or one octet of a type that is neither LINEAR nor SELECTOR. */
  predicate PayloadFits(t: nat, payload: bytes) {
    payload == [] || (|payload| == 1 && FamilyOf(t).Other?)
  }

  lemma FewerOptions(length: nat, size: nat)
    requires size > 0 && length > 0
    ensures OptionCount(length, size) < length
  {
    if length >= 2 * size + 2 {
      var q := Quotient(length - 2 * size - 2, size);
      MulMonotone(1, size, q);
    }
  }

  /** Counting values is counting fewer than the octets, but for one octet of another type. */
  lemma CountIsSmaller(t: nat, payload: bytes)
    requires payload != []
    ensures CountValues(t, payload) < |payload| <==> !PayloadFits(t, payload)
    ensures CountValues(t, payload) <= |payload|
  {
    match FamilyOf(t) {
      case Linear(c) => QuotientSmaller(|payload|, 5 * c.size + 4);
      case LinearFloat(size) => QuotientSmaller(|payload|, 5 * size + 4);
      case Selector(c) => FewerOptions(|payload|, c.size);
      case SelectorFloat(size) => FewerOptions(|payload|, size);
      case Other =>
    }
  }

  /** A CONTROL payload survives compiling and decompiling exactly when it is empty or a single octet
      of neither a LINEAR nor a SELECTOR type; any other comes back shorter. */
  lemma PayloadSurvives(t: nat, payload: bytes)
    ensures ParsedPayload(t, payload) == payload <==> PayloadFits(t, payload)
    ensures !PayloadFits(t, payload) ==> |ParsedPayload(t, payload)| < |payload|
  {
    if payload != [] {
      CountIsSmaller(t, payload);
    }
  }

  /** One LINEAR value of one octet: minimum 0, maximum 255, step 255. It counts one value, so one octet of its nine
      comes back, and none the next time. */
  lemma OneValueIsCut()
    ensures var p: bytes := [0, 255, 255, 0, 0, 0, 0, 0, 0];
            CountValues(1, p) == 1 && ParsedPayload(1, p) == [0] && ParsedPayload(1, [0]) == []
  {
    var p: bytes := [0, 255, 255, 0, 0, 0, 0, 0, 0];
    assert FamilyOf(1) == Linear(IntegerCoding(1));
    assert p[..1] == [0];
  }

  // ---- the codes and the order of fields ----

  /** The integer codes in pairs of a signed and an unsigned one, of 1, 2, 4 and 8 octets: LINEAR from 0, SELECTOR from
      0x0A; the two upper bits of a type are flags. */
  lemma CodeTable(t: nat)
    requires t < 0x1_0000
    ensures t % 0x4000 < 2 ==> FamilyOf(t) == Linear(Coding(1, t % 2 == 0))
    ensures 2 <= t % 0x4000 < 4 ==> FamilyOf(t) == Linear(Coding(2, t % 2 == 0))
    ensures 4 <= t % 0x4000 < 6 ==> FamilyOf(t) == Linear(Coding(4, t % 2 == 0))
    ensures 6 <= t % 0x4000 < 8 ==> FamilyOf(t) == Linear(Coding(8, t % 2 == 0))
    ensures 0x0A <= t % 0x4000 < 0x0C ==> FamilyOf(t) == Selector(Coding(1, t % 2 == 0))
    ensures 0x0C <= t % 0x4000 < 0x0E ==> FamilyOf(t) == Selector(Coding(2, t % 2 == 0))
    ensures 0x0E <= t % 0x4000 < 0x10 ==> FamilyOf(t) == Selector(Coding(4, t % 2 == 0))
    ensures 0x10 <= t % 0x4000 < 0x12 ==> FamilyOf(t) == Selector(Coding(8, t % 2 == 0))
    ensures IsInteger(FamilyOf(t)) <==> t % 0x4000 < 8 || 0x0A <= t % 0x4000 < 0x12
  {
  }

  /** What an element with its top bit set means: below zero if its code is even. */
  lemma SignOf(t: nat, d: bytes)
    requires t < 0x1_0000 && IsInteger(FamilyOf(t)) && |d| == FamilyOf(t).c.size && d[0] >= 128
    ensures t % 2 == 0 ==> DecodeOctets(d, FamilyOf(t).c) == FromBE(d) - Radix(|d|) < 0
    ensures t % 2 == 1 ==> DecodeOctets(d, FamilyOf(t).c) == FromBE(d) > 0
  {
    hide Radix, FromBE, FamilyOf;
    CodeTable(t);
    TopOctet(d);
  }

  lemma {:induction false} TopOctet(d: bytes)
    requires d != [] && d[0] >= 128
    ensures Radix(|d|) / 2 <= FromBE(d) < Radix(|d|)
  {
    if |d| == 1 {
      assert FromBE(d[..0]) == 0 && Radix(0) == 1;
    } else {
      var init := d[..|d| - 1];
      TopOctet(init);
      TopHalf(Radix(|init|), FromBE(init), d[|d| - 1]);
    }
  }

  lemma TopHalf(r: nat, f: nat, b: byte)
    requires r % 256 == 0 && r / 2 <= f < r
    ensures 256 * r / 2 <= f * 256 + b < 256 * r
  {
    var k := r / 256;
    assert r == 256 * k && 256 * r / 2 == 128 * r && r / 2 == 128 * k;
  }

  /** A LINEAR item on the wire: minimum, maximum, step, default, current, unit, string. */
  lemma LinearOrder(v: LinearValue, c: Coding)
    requires WfCoding(c) && LinearFits(v, c)
    ensures var d, n := Item(v, c), c.size;
            && ElementAt(d, 0, c) == v.minimum && ElementAt(d, n, c) == v.maximum && ElementAt(d, 2 * n, c) == v.step
            && ElementAt(d, 3 * n, c) == v.default_ && ElementAt(d, 4 * n, c) == v.current
            && FromBE(d[5 * n..5 * n + 2]) == v.unit && FromBE(d[5 * n + 2..5 * n + 4]) == v.stringRef
  {
    hide ElementAt, FromBE, Item;
    ItemReadsBack(v, c);
  }

  /** A SELECTOR on the wire: current, default, the options, unit. */
  lemma SelectorOrder(v: SelectorValue, c: Coding)
    requires WfCoding(c) && SelectorFits(v, c)
    ensures var d, n := SelectorOctets(v, c), c.size;
            && |d| >= 2 * n + 2
            && ElementAt(d, 0, c) == v.current && ElementAt(d, n, c) == v.default_ && FromBE(d[|d| - 2..]) == v.unit
  {
    hide ElementAt, FromBE, ToBE, Encodings, Join, InRange;
    var xs, n, m := Row(v), c.size, |v.options|;
    var d, row, unit := SelectorOctets(v, c), Join(Encodings(xs, c)), ToBE(v.unit, 2);
    assert d == [] + row + unit;
    assert xs[0] in xs && xs[1] in xs;
    RowReadsBack([], xs, unit, c, 0);
    RowReadsBack([], xs, unit, c, 1);
    assert n * 0 == 0 && n * 1 == n;
    assert d[|d| - 2..] == unit;
    TwoOctets(v.unit);
  }

  lemma SelectorOption(v: SelectorValue, c: Coding, i: nat)
    requires WfCoding(c) && SelectorFits(v, c) && i < |v.options|
    ensures var d, at := SelectorOctets(v, c), c.size * (i + 2); at + c.size <= |d| && ElementAt(d, at, c) == v.options[i]
  {
    hide ElementAt, FromBE, ToBE, Encodings, Join, InRange;
    var xs, unit := Row(v), ToBE(v.unit, 2);
    assert SelectorOctets(v, c) == [] + Join(Encodings(xs, c)) + unit;
    assert xs[i + 2] == v.options[i] && xs[i + 2] in xs;
    RowReadsBack([], xs, unit, c, i + 2);
  }
}
