/** Octets as bit vectors. */
module OctetBits {
  import opened Wire

  lemma Narrowed(b: byte)
    ensures (b as bv8) as int == b
  {
  }

  lemma Widened(x: bv8, y: bv8)
    requires x as bv32 == y as bv32
    ensures x == y
  {
  }
}

/** The reflected CRC-32 of an ACF CRC message (section 9.4.21 of IEEE 1722-2025). */
module Crc {
  import opened Wire
  import opened OctetBits

  const ALL_ONES: bv32 := 0xFFFF_FFFF
  const TOP: bv32 := 0x8000_0000

  /** The polynomial of a crc_type, reflected. */
  function Polynomial(crcType: nat): (p: Option<bv32>)
    ensures p.Some? ==> High(p.value)
  {
    if crcType == 0 then Some(0xEDB8_8320) else if crcType == 1 then Some(0xC8DF_352F) else None
  }

  // The bit operations the register is made of.

  function Xor(a: bv32, b: bv32): (r: bv32) { a ^ b }
  function Half(a: bv32): (r: bv32) { a >> 1 }
  function Twice(a: bv32): (r: bv32) { a << 1 }
  predicate Odd(a: bv32) { a & 1 == 1 }
  predicate High(a: bv32) { a & TOP == TOP }

  /** One bit step. */
  function Step(s: bv32, poly: bv32): (r: bv32) {
    if Odd(s) then Xor(Half(s), poly) else Half(s)
  }

  function Steps(s: bv32, poly: bv32, n: nat): (r: bv32) {
    if n == 0 then s else Step(Steps(s, poly, n - 1), poly)
  }

  function Octet(b: byte): (r: bv32) {
    (b as bv8) as bv32
  }

  /** The register after some octets. */
  function Register(data: bytes, poly: bv32): (r: bv32) {
    if data == [] then ALL_ONES else Steps(Xor(Register(data[..|data| - 1], poly), Octet(data[|data| - 1])), poly, 8)
  }

  function CrcOf(data: bytes, poly: bv32): (r: bv32) {
    Xor(Register(data, poly), ALL_ONES)
  }

  /** _crc32_reflected. */
  method Crc32Reflected(data: bytes, poly: bv32) returns (crc: bv32)
    ensures crc == CrcOf(data, poly)
  {
    hide Xor, Half, Odd, Octet;
    crc := ALL_ONES;
    for i := 0 to |data|
      invariant crc == Register(data[..i], poly)
    {
      assert data[..i + 1][..i] == data[..i];
      crc := Xor(crc, Octet(data[i]));
      ghost var s := crc;
      for j := 0 to 8
        invariant crc == Steps(s, poly, j)
      {
        crc := if Odd(crc) then Xor(Half(crc), poly) else Half(crc);
      }
    }
    assert data[..|data|] == data;
    crc := Xor(crc, ALL_ONES);
  }

  // ---- facts about single bit operations ----

  lemma XorRules(a: bv32, b: bv32, c: bv32)
    ensures Xor(Xor(a, b), c) == Xor(a, Xor(b, c)) && Xor(a, b) == Xor(b, a)
    ensures Xor(a, 0) == a && Xor(Xor(a, b), b) == a
  {
  }

  lemma XorBits(a: bv32, b: bv32)
    ensures Odd(Xor(a, b)) <==> Odd(a) != Odd(b)
    ensures High(Xor(a, b)) <==> High(a) != High(b)
  {
  }

  lemma XorHalf(a: bv32, b: bv32)
    ensures Half(Xor(a, b)) == Xor(Half(a), Half(b))
  {
  }

  lemma HalfTwice(a: bv32)
    ensures !High(Half(a)) && !Odd(Twice(a)) && Odd(Xor(Twice(a), 1))
    ensures !High(a) ==> Half(Twice(a)) == a && Half(Xor(Twice(a), 1)) == a
  {
    hide Xor, Half, Twice, Odd, High;
    HalfIsLow(a);
    TwiceIsEven(a);
    XorBits(Twice(a), 1);
    XorHalf(Twice(a), 1);
    HalfOfOne();
    XorRules(a, 0, 0);
    if !High(a) {
      HalfOfTwice(a);
    }
  }

  lemma HalfIsLow(a: bv32)
    ensures !High(Half(a))
  {
  }

  lemma TwiceIsEven(a: bv32)
    ensures !Odd(Twice(a))
  {
  }

  lemma HalfOfOne()
    ensures Half(1) == 0 && Odd(1)
  {
  }

  lemma HalfOfTwice(a: bv32)
    requires !High(a)
    ensures Half(Twice(a)) == a
  {
  }

  lemma TwiceHalf(a: bv32)
    ensures a == if Odd(a) then Xor(Twice(Half(a)), 1) else Twice(Half(a))
  {
  }

  lemma XorCancel(a: bv32, b: bv32, c: bv32)
    requires Xor(a, c) == Xor(b, c)
    ensures a == b
  {
    hide Xor;
    XorRules(a, c, 0);
    XorRules(b, c, 0);
  }

  // ---- the step is linear and a bijection ----

  /** The step backwards. */
  function Unstep(s: bv32, poly: bv32): (r: bv32) {
    if High(s) then Xor(Twice(Xor(s, poly)), 1) else Twice(s)
  }

  /** For a polynomial with its top bit set, the step is a bijection on 32-bit states. */
  lemma StepIsBijection(s: bv32, poly: bv32)
    requires High(poly)
    ensures Unstep(Step(s, poly), poly) == s
    ensures Step(Unstep(s, poly), poly) == s
  {
    hide Xor, Half, Twice, Odd, High;
    HalfTwice(s);
    TwiceHalf(s);
    XorBits(Half(s), poly);
    XorRules(Half(s), poly, 0);
    XorBits(s, poly);
    XorRules(s, poly, 0);
    HalfTwice(Xor(s, poly));
  }

  lemma StepLinear(x: bv32, y: bv32, poly: bv32)
    ensures Step(Xor(x, y), poly) == Xor(Step(x, poly), Step(y, poly))
  {
    hide Xor, Half, Twice, Odd, High;
    XorBits(x, y);
    XorHalf(x, y);
    var a, b := Half(x), Half(y);
    XorRules(a, b, poly);
    XorRules(b, poly, a);
    XorRules(poly, b, poly);
    XorRules(a, poly, Xor(b, poly));
    XorRules(a, poly, b);
    XorRules(b, poly, 0);
  }

  lemma {:induction false} StepsLinear(x: bv32, y: bv32, poly: bv32, n: nat)
    ensures Steps(Xor(x, y), poly, n) == Xor(Steps(x, poly, n), Steps(y, poly, n))
  {
    hide Xor, Step;
    if n > 0 {
      StepsLinear(x, y, poly, n - 1);
      StepLinear(Steps(x, poly, n - 1), Steps(y, poly, n - 1), poly);
    }
  }

  lemma {:induction false} StepsInjective(x: bv32, y: bv32, poly: bv32, n: nat)
    requires High(poly) && Steps(x, poly, n) == Steps(y, poly, n)
    ensures x == y
  {
    hide Step, High;
    if n > 0 {
      StepIsBijection(Steps(x, poly, n - 1), poly);
      StepIsBijection(Steps(y, poly, n - 1), poly);
      StepsInjective(x, y, poly, n - 1);
    }
  }

  // ---- the same register, one bit of the message at a time ----

  function Bit(b: bool): (r: bv32) {
    if b then 1 else 0
  }

  /** The low k bits, least significant first: the order in which the register takes them. */
  function BitsOf(b: bv32, k: nat): (r: seq<bool>)
    ensures |r| == k
  {
    if k == 0 then [] else [Odd(b)] + BitsOf(Half(b), k - 1)
  }

  function Feed(s: bv32, bits: seq<bool>, poly: bv32): (r: bv32) {
    if bits == [] then s else Step(Xor(Feed(s, bits[..|bits| - 1], poly), Bit(bits[|bits| - 1])), poly)
  }

  function MessageBits(data: bytes): (r: seq<bool>)
    ensures |r| == 8 * |data|
  {
    if data == [] then [] else MessageBits(data[..|data| - 1]) + BitsOf(Octet(data[|data| - 1]), 8)
  }

  /** What is left of b above its low k bits. */
  function Above(b: bv32, k: nat): (r: bv32) {
    if k == 0 then b else Above(Half(b), k - 1)
  }

  lemma {:induction false} FeedJoin(s: bv32, x: seq<bool>, y: seq<bool>, poly: bv32)
    ensures Feed(s, x + y, poly) == Feed(Feed(s, x, poly), y, poly)
  {
    hide Xor, Step, Bit;
    if y == [] {
      assert x + y == x;
    } else {
      FeedJoin(s, x, y[..|y| - 1], poly);
      assert (x + y)[..|x + y| - 1] == x + y[..|y| - 1];
    }
  }

  lemma FeedOne(s: bv32, b: bool, poly: bv32)
    ensures Feed(s, [b], poly) == Step(Xor(s, Bit(b)), poly)
  {
    hide Xor, Step, Bit;
    assert [b][..0] == [];
  }

  /** A step with b folded in takes b's low bit and leaves the rest folded in. */
  lemma StepPeels(s: bv32, b: bv32, poly: bv32)
    ensures Step(Xor(s, b), poly) == Xor(Step(Xor(s, Bit(Odd(b))), poly), Half(b))
  {
    hide Xor, Half, Twice, Odd, High;
    var y, l := Twice(Half(b)), Bit(Odd(b));
    TwiceHalf(b);
    XorRules(y, l, 0);
    XorRules(s, l, y);
    HalfTwice(b);
    HalfTwice(Half(b));
    StepLinear(Xor(s, l), y, poly);
  }

  lemma {:induction false} StepsFirst(s: bv32, poly: bv32, k: nat)
    requires k > 0
    ensures Steps(s, poly, k) == Steps(Step(s, poly), poly, k - 1)
  {
    hide Step;
    if k > 1 { StepsFirst(s, poly, k - 1); }
  }

  /** k steps on a state with b folded in: b's low k bits fed one by one, the rest still there. */
  lemma {:induction false} StepsAreFeed(s: bv32, b: bv32, poly: bv32, k: nat)
    ensures Steps(Xor(s, b), poly, k) == Xor(Feed(s, BitsOf(b, k), poly), Above(b, k))
    decreases k
  {
    hide Step, Xor, Half, Odd, Feed, Bit;
    if k == 0 {
      FeedNothing(s, poly);
    } else {
      var s' := Step(Xor(s, Bit(Odd(b))), poly);
      StepPeels(s, b, poly);
      StepsFirst(Xor(s, b), poly, k);
      StepsAreFeed(s', Half(b), poly, k - 1);
      FeedJoin(s, [Odd(b)], BitsOf(Half(b), k - 1), poly);
      FeedOne(s, Odd(b), poly);
    }
  }

  lemma FeedNothing(s: bv32, poly: bv32)
    ensures Feed(s, [], poly) == s
  {
  }

  lemma OctetIsEightBits(b: byte)
    ensures Above(Octet(b), 8) == 0
  {
    EightHalves(b as bv8);
    var x := Octet(b);
    assert Above(x, 8) == Above(Half(x), 7) == Above(Half(Half(x)), 6) == Above(Half(Half(Half(x))), 5) by { hide Half, Octet; }
    var y := Half(Half(Half(x)));
    assert Above(y, 5) == Above(Half(y), 4) == Above(Half(Half(y)), 3) == Above(Half(Half(Half(y))), 2) by { hide Half, Octet; }
    var z := Half(Half(Half(y)));
    assert Above(z, 2) == Above(Half(z), 1) == Half(Half(z)) by { hide Half, Octet; }
  }

  lemma EightHalves(b: bv8)
    ensures Half(Half(Half(Half(Half(Half(Half(Half(b as bv32)))))))) == 0
  {
  }

  /** The register is the message fed bit by bit. */
  lemma {:induction false} RegisterIsFeed(data: bytes, poly: bv32)
    ensures Register(data, poly) == Feed(ALL_ONES, MessageBits(data), poly)
  {
    hide Step, Octet, Xor, Feed;
    if data == [] {
      FeedNothing(ALL_ONES, poly);
    } else {
      var init, b := data[..|data| - 1], data[|data| - 1];
      RegisterIsFeed(init, poly);
      StepsAreFeed(Register(init, poly), Octet(b), poly, 8);
      OctetIsEightBits(b);
      FeedJoin(ALL_ONES, MessageBits(init), BitsOf(Octet(b), 8), poly);
      XorRules(Feed(ALL_ONES, MessageBits(data), poly), 0, 0);
    }
  }

  // ---- bursts ----

  function Pow(n: nat): (r: bv32) {
    if n == 0 then 1 else Twice(Pow(n - 1))
  }

  lemma {:induction false} ZeroStays(n: nat, m: nat)
    requires Pow(n) == 0 && n <= m
    ensures Pow(m) == 0
  {
    hide Twice;
    TwiceFacts(0);
    if n < m { ZeroStays(n, m - 1); }
  }

  lemma LastPow()
    ensures Pow(31) == TOP
  {
    assert Pow(4) == 16;
    assert Pow(8) == 256 by { assert Pow(6) == 64; }
    assert Pow(12) == 0x1000 by { assert Pow(10) == 1024; }
    assert Pow(16) == 0x1_0000 by { assert Pow(14) == 0x4000; }
    assert Pow(20) == 0x10_0000 by { assert Pow(18) == 0x4_0000; }
    assert Pow(24) == 0x100_0000 by { assert Pow(22) == 0x40_0000; }
    assert Pow(28) == 0x1000_0000 by { assert Pow(26) == 0x400_0000; }
    assert Pow(30) == 0x4000_0000;
  }

  /** A single bit. */
  predicate IsPower(x: bv32) {
    x != 0 && x & (x - 1) == 0
  }

  predicate Below(x: bv32, p: bv32) {
    x < p
  }

  lemma TwiceFacts(x: bv32)
    ensures Twice(0) == 0
    ensures IsPower(x) && !High(x) ==> IsPower(Twice(x))
    ensures IsPower(x) && High(x) ==> Twice(x) == 0
  {
  }

  lemma OneFacts()
    ensures IsPower(1) && !High(1) && High(TOP) && TOP != 0
  {
  }

  lemma {:induction false} PowIsPower(n: nat)
    requires n < 32
    ensures IsPower(Pow(n)) && (n < 31 ==> !High(Pow(n)))
  {
    hide Twice, IsPower, High;
    OneFacts();
    if n > 0 {
      PowIsPower(n - 1);
      TwiceFacts(Pow(n - 1));
    }
    if n < 31 && High(Pow(n)) {
      TwiceFacts(Pow(n));
      LastPow();
      ZeroStays(n + 1, 31);
    }
  }

  /** n steps bring the n-th bit down to the bottom. */
  lemma {:induction false} StepsOfPow(n: nat, poly: bv32)
    requires n < 32
    ensures Steps(Pow(n), poly, n) == 1
  {
    hide Twice, Half, High, Odd, Xor, IsPower, Step;
    if n > 0 {
      PowIsPower(n - 1);
      StepOfTwice(Pow(n - 1), poly);
      StepsFirst(Pow(n), poly, n);
      StepsOfPow(n - 1, poly);
    }
  }

  lemma StepOfTwice(x: bv32, poly: bv32)
    requires !High(x)
    ensures Step(Twice(x), poly) == x
  {
    hide Twice, Half, High, Odd, Xor;
    HalfTwice(x);
  }

  /** Up to 32 bits as one word, the first bit lowest. */
  function Word(bits: seq<bool>): (r: bv32) {
    if bits == [] then 0 else
      var n := |bits| - 1;
      if bits[n] then Xor(Word(bits[..n]), Pow(n)) else Word(bits[..n])
  }

  /** Feeding up to 32 bits is folding in one word and stepping. */
  lemma {:induction false} FeedIsWord(s: bv32, bits: seq<bool>, poly: bv32)
    requires |bits| <= 32
    ensures Feed(s, bits, poly) == Steps(Xor(s, Word(bits)), poly, |bits|)
  {
    hide Step, Xor, Pow;
    XorRules(s, 0, 0);
    if bits != [] {
      var n := |bits| - 1;
      var init := bits[..n];
      FeedIsWord(s, init, poly);
      if bits[n] {
        StepsLinear(Xor(s, Word(init)), Pow(n), poly, n);
        StepsOfPow(n, poly);
        XorRules(s, Word(init), Pow(n));
      } else {
        XorRules(Feed(s, init, poly), 0, 0);
      }
    }
  }

  lemma BelowPower(x: bv32, p: bv32)
    requires IsPower(p) && Below(x, p)
    ensures x & p == 0 && Xor(x, p) & p == p && x != Xor(x, p)
    ensures !High(p) ==> Below(x, Twice(p)) && Below(Xor(x, p), Twice(p))
  {
  }

  lemma ZeroBelow()
    ensures Below(0, 1)
  {
  }

  lemma {:induction false} WordBound(bits: seq<bool>)
    requires |bits| < 32
    ensures Below(Word(bits), Pow(|bits|))
  {
    hide Below, IsPower, Xor, Twice, High;
    ZeroBelow();
    if bits != [] {
      var n := |bits| - 1;
      WordBound(bits[..n]);
      PowIsPower(n);
      BelowPower(Word(bits[..n]), Pow(n));
    }
  }

  /** The last of up to 32 bits can be read off their word. */
  lemma LastBit(a: bv32, b: bv32, p: bv32)
    requires IsPower(p) && Below(a, p) && Below(b, p)
    ensures Xor(a, p) != b
  {
    BelowPower(a, p);
    BelowPower(b, p);
  }

  lemma {:induction false} WordInjective(x: seq<bool>, y: seq<bool>)
    requires |x| == |y| <= 32 && Word(x) == Word(y)
    ensures x == y
  {
    hide Below, IsPower, Xor, Pow;
    if x != [] {
      var n := |x| - 1;
      var a, b, p := Word(x[..n]), Word(y[..n]), Pow(n);
      WordBound(x[..n]);
      WordBound(y[..n]);
      PowIsPower(n);
      LastBit(a, b, p);
      LastBit(b, a, p);
      assert x[n] == y[n];
      if x[n] {
        XorCancel(a, b, p);
      }
      WordInjective(x[..n], y[..n]);
      assert x == x[..n] + [x[n]] && y == y[..n] + [y[n]];
    }
  }

  lemma {:induction false} FeedInjective(s: bv32, t: bv32, bits: seq<bool>, poly: bv32)
    requires High(poly) && Feed(s, bits, poly) == Feed(t, bits, poly)
    ensures s == t
  {
    hide Step, Xor, High, Bit, Unstep;
    if bits != [] {
      var n := |bits| - 1;
      var a, b, c := Feed(s, bits[..n], poly), Feed(t, bits[..n], poly), Bit(bits[n]);
      StepIsBijection(Xor(a, c), poly);
      StepIsBijection(Xor(b, c), poly);
      XorCancel(a, b, c);
      FeedInjective(s, t, bits[..n], poly);
    }
  }

  lemma BurstsDiffer(s: bv32, x: seq<bool>, y: seq<bool>, rest: seq<bool>, poly: bv32)
    requires High(poly) && |x| == |y| <= 32 && x != y
    ensures Feed(s, x + rest, poly) != Feed(s, y + rest, poly)
  {
    hide Step, Steps, Xor, High, Feed, Word;
    FeedJoin(s, x, rest, poly);
    FeedJoin(s, y, rest, poly);
    if Feed(s, x + rest, poly) == Feed(s, y + rest, poly) {
      FeedInjective(Feed(s, x, poly), Feed(s, y, poly), rest, poly);
      FeedIsWord(s, x, poly);
      FeedIsWord(s, y, poly);
      StepsInjective(Xor(s, Word(x)), Xor(s, Word(y)), poly, |x|);
      XorRules(s, Word(x), 0);
      XorRules(s, Word(y), 0);
      XorCancel(Word(x), Word(y), s);
      WordInjective(x, y);
    }
  }

  lemma {:induction false} BitsInjective(x: bv32, y: bv32, k: nat)
    requires BitsOf(x, k) == BitsOf(y, k) && Above(x, k) == Above(y, k)
    ensures x == y
    decreases k
  {
    hide Half, Odd, Twice, Xor;
    if k > 0 {
      assert BitsOf(x, k)[0] == BitsOf(y, k)[0];
      assert BitsOf(x, k)[1..] == BitsOf(Half(x), k - 1) && BitsOf(y, k)[1..] == BitsOf(Half(y), k - 1);
      BitsInjective(Half(x), Half(y), k - 1);
      TwiceHalf(x);
      TwiceHalf(y);
    }
  }

  lemma OctetInjective(a: byte, b: byte)
    requires BitsOf(Octet(a), 8) == BitsOf(Octet(b), 8)
    ensures a == b
  {
    hide BitsOf, Octet;
    OctetIsEightBits(a);
    OctetIsEightBits(b);
    BitsInjective(Octet(a), Octet(b), 8);
    OctetBack(a, b);
  }

  lemma OctetBack(a: byte, b: byte)
    requires Octet(a) == Octet(b)
    ensures a == b
  {
    Widened(a as bv8, b as bv8);
    Narrowed(a);
    Narrowed(b);
  }

  lemma {:induction false} MessageBitsInjective(a: bytes, b: bytes)
    requires |a| == |b| && MessageBits(a) == MessageBits(b)
    ensures a == b
  {
    hide Octet, BitsOf;
    if a != [] {
      var n := |a| - 1;
      var x, y := MessageBits(a), MessageBits(b);
      assert x[..8 * n] == MessageBits(a[..n]) && y[..8 * n] == MessageBits(b[..n]);
      assert x[8 * n..] == BitsOf(Octet(a[n]), 8) && y[8 * n..] == BitsOf(Octet(b[n]), 8);
      MessageBitsInjective(a[..n], b[..n]);
      OctetInjective(a[n], b[n]);
      assert a == a[..n] + [a[n]] && b == b[..n] + [b[n]];
    }
  }

  /** Two bit strings that differ only in a window, cut around it. */
  lemma Windowed(x: seq<bool>, y: seq<bool>, k: nat) returns (lo: nat, hi: nat)
    requires |x| == |y| && forall i :: 0 <= i < |x| && !(k <= i < k + 32) ==> x[i] == y[i]
    ensures lo <= hi <= |x| && hi - lo <= 32 && x[..lo] == y[..lo] && x[hi..] == y[hi..]
    ensures x == x[..lo] + (x[lo..hi] + x[hi..]) && y == y[..lo] + (y[lo..hi] + y[hi..])
  {
    lo := if k < |x| then k else |x|;
    hi := if k + 32 < |x| then k + 32 else |x|;
  }

  lemma FeedsDiffer(s: bv32, x: seq<bool>, y: seq<bool>, k: nat, poly: bv32)
    requires High(poly) && |x| == |y| && x != y && forall i :: 0 <= i < |x| && !(k <= i < k + 32) ==> x[i] == y[i]
    ensures Feed(s, x, poly) != Feed(s, y, poly)
  {
    hide Feed, High;
    var lo, hi := Windowed(x, y, k);
    FeedJoin(s, x[..lo], x[lo..hi] + x[hi..], poly);
    FeedJoin(s, y[..lo], y[lo..hi] + y[hi..], poly);
    BurstsDiffer(Feed(s, x[..lo], poly), x[lo..hi], y[lo..hi], x[hi..], poly);
  }

  /** Every burst of at most 32 bits changes the CRC: two messages of one length that differ, but only
      within some 32 consecutive bits, never have the same CRC, whatever surrounds the burst. */
  lemma BurstDetected(a: bytes, b: bytes, k: nat, poly: bv32)
    requires High(poly) && |a| == |b| && a != b
    requires forall i :: 0 <= i < 8 * |a| && !(k <= i < k + 32) ==> MessageBits(a)[i] == MessageBits(b)[i]
    ensures CrcOf(a, poly) != CrcOf(b, poly)
  {
    hide Feed, MessageBits, Register, Xor, High;
    if MessageBits(a) == MessageBits(b) {
      MessageBitsInjective(a, b);
    }
    FeedsDiffer(ALL_ONES, MessageBits(a), MessageBits(b), k, poly);
    RegisterIsFeed(a, poly);
    RegisterIsFeed(b, poly);
    if CrcOf(a, poly) == CrcOf(b, poly) {
      XorCancel(Register(a, poly), Register(b, poly), ALL_ONES);
    }
  }

  lemma {:induction false} MessageBitsAt(data: bytes, i: nat)
    requires i < 8 * |data|
    ensures MessageBits(data)[i] == BitsOf(Octet(data[i / 8]), 8)[i % 8]
  {
    hide Octet, BitsOf;
    var n := |data| - 1;
    if i < 8 * n {
      MessageBitsAt(data[..n], i);
    }
  }

  /** In octets: a change confined to four consecutive octets always shows. */
  lemma FourOctetsDetected(a: bytes, b: bytes, k: nat, poly: bv32)
    requires High(poly) && |a| == |b| && a != b
    requires forall i :: 0 <= i < |a| && !(k <= i < k + 4) ==> a[i] == b[i]
    ensures CrcOf(a, poly) != CrcOf(b, poly)
  {
    hide CrcOf, MessageBits, BitsOf, High, Octet;
    forall i | 0 <= i < 8 * |a| && !(8 * k <= i < 8 * k + 32) ensures MessageBits(a)[i] == MessageBits(b)[i] {
      MessageBitsAt(a, i);
      MessageBitsAt(b, i);
    }
    BurstDetected(a, b, 8 * k, poly);
  }

  // ---- known values ----

  lemma {:induction false} MessageBitsJoin(a: bytes, b: bytes)
    ensures MessageBits(a + b) == MessageBits(a) + MessageBits(b)
  {
    hide Octet, BitsOf;
    if b == [] {
      assert a + b == a;
    } else {
      var n := |b| - 1;
      assert (a + b)[..|a + b| - 1] == a + b[..n];
      MessageBitsJoin(a, b[..n]);
    }
  }

  /** Eight bit steps of the register, on machine words. */
  function OneBit(s: bv32, poly: bv32): (r: bv32) {
    if s & 1 == 1 then (s >> 1) ^ poly else s >> 1
  }

  function OneOctet(s: bv32, poly: bv32): (r: bv32) {
    OneBit(OneBit(OneBit(OneBit(OneBit(OneBit(OneBit(OneBit(s, poly), poly), poly), poly), poly), poly), poly), poly)
  }

  lemma StepIsOneBit(s: bv32, poly: bv32)
    ensures Step(s, poly) == OneBit(s, poly)
  {
  }

  lemma EightSteps(s: bv32, poly: bv32)
    ensures Steps(s, poly, 8) == OneOctet(s, poly)
  {
    hide Step, OneBit;
    forall x ensures Step(x, poly) == OneBit(x, poly) { StepIsOneBit(x, poly); }
    assert Steps(s, poly, 0) == s;
    assert Steps(s, poly, 2) == Step(Step(s, poly), poly);
    assert Steps(s, poly, 4) == Step(Step(Steps(s, poly, 2), poly), poly);
    assert Steps(s, poly, 6) == Step(Step(Steps(s, poly, 4), poly), poly);
    assert Steps(s, poly, 8) == Step(Step(Steps(s, poly, 6), poly), poly);
  }

  lemma NextOctet(before: bytes, b: byte, o: bv32, poly: bv32)
    requires Octet(b) == o
    ensures Register(before + [b], poly) == OneOctet(Register(before, poly) ^ o, poly)
  {
    hide Steps, OneOctet, Octet;
    assert (before + [b])[..|before|] == before;
    EightSteps(Xor(Register(before, poly), Octet(b)), poly);
  }

  lemma EmptyRegister(poly: bv32)
    ensures Register([], poly) == 0xFFFF_FFFF
  {
  }

  lemma EndOctets()
    ensures Octet(0) == 0 && Octet(0xFF) == 0xFF
  {
  }

  /** The CRC of no octets is zero, that of four octets of ones is all ones, for every polynomial: the register starts
      with ones and is complemented at the end. */
  lemma EmptyAndOnes(poly: bv32)
    ensures CrcOf([], poly) == 0
    ensures CrcOf([0xFF, 0xFF, 0xFF, 0xFF], poly) == 0xFFFF_FFFF
  {
    hide Register, OneOctet, Octet;
    var f: bytes := [0xFF];
    EmptyRegister(poly);
    EndOctets();
    ShiftedOut(poly);
    NextOctet([], 0xFF, 0xFF, poly);
    NextOctet(f, 0xFF, 0xFF, poly);
    NextOctet(f + f, 0xFF, 0xFF, poly);
    NextOctet(f + f + f, 0xFF, 0xFF, poly);
    assert [] + f == f && f + f + f + f == [0xFF, 0xFF, 0xFF, 0xFF];
  }

  lemma ShiftedOut(poly: bv32)
    ensures OneOctet(0xFFFF_FFFF ^ 0xFF, poly) == 0x00FF_FFFF && OneOctet(0x00FF_FFFF ^ 0xFF, poly) == 0xFFFF
    ensures OneOctet(0xFFFF ^ 0xFF, poly) == 0xFF && OneOctet(0xFF ^ 0xFF, poly) == 0
  {
  }

  lemma ZeroMoves(poly: bv32)
    requires poly == 0xEDB8_8320 || poly == 0xC8DF_352F
    ensures OneOctet(0xFFFF_FFFF, poly) != 0xFFFF_FFFF && High(poly)
  {
  }

  lemma {:induction false} FeedAfter(a: bytes, b: bytes, poly: bv32)
    ensures Register(a + b, poly) == Feed(Register(a, poly), MessageBits(b), poly)
  {
    hide Register, Feed, MessageBits;
    RegisterIsFeed(a, poly);
    RegisterIsFeed(a + b, poly);
    MessageBitsJoin(a, b);
    FeedJoin(ALL_ONES, MessageBits(a), MessageBits(b), poly);
  }

  /** With either polynomial a zero octet in front of any message changes its CRC. */
  lemma LeadingZeroShows(data: bytes, crcType: nat)
    requires Polynomial(crcType).Some?
    ensures CrcOf([0] + data, Polynomial(crcType).value) != CrcOf(data, Polynomial(crcType).value)
  {
    hide Register, Feed, MessageBits, OneOctet, Octet, Xor, High;
    var poly := Polynomial(crcType).value;
    ZeroMoves(poly);
    EmptyRegister(poly);
    EndOctets();
    NextOctet([], 0, 0, poly);
    assert [] + [0] == [0] && [] + data == data;
    FeedAfter([0], data, poly);
    FeedAfter([], data, poly);
    if CrcOf([0] + data, poly) == CrcOf(data, poly) {
      XorCancel(Register([0] + data, poly), Register(data, poly), ALL_ONES);
      FeedInjective(Register([0], poly), Register([], poly), MessageBits(data), poly);
    }
  }

  const DIGITS: bytes := [0x31, 0x32, 0x33, 0x34, 0x35, 0x36, 0x37, 0x38, 0x39]

  lemma DigitOctets()
    ensures Octet(0x31) == 0x31 && Octet(0x32) == 0x32 && Octet(0x33) == 0x33 && Octet(0x34) == 0x34 && Octet(0x35) == 0x35
    ensures Octet(0x36) == 0x36 && Octet(0x37) == 0x37 && Octet(0x38) == 0x38 && Octet(0x39) == 0x39
  {
  }

  lemma NextDigit(k: nat, o: bv32, poly: bv32)
    requires k < 9 && Octet(DIGITS[k]) == o
    ensures Register(DIGITS[..k + 1], poly) == OneOctet(Register(DIGITS[..k], poly) ^ o, poly)
  {
    hide Register, OneOctet, Octet;
    NextOctet(DIGITS[..k], DIGITS[k], o, poly);
    assert DIGITS[..k] + [DIGITS[k]] == DIGITS[..k + 1];
  }

  lemma WordsOfTypeZero()
    ensures OneOctet(0xFFFF_FFFF ^ 0x31, 0xEDB8_8320) == 0x7C23_1048
    ensures OneOctet(0x7C23_1048 ^ 0x32, 0xEDB8_8320) == 0xB0AC_BB32
    ensures OneOctet(0xB0AC_BB32 ^ 0x33, 0xEDB8_8320) == 0x77B7_9C2D
    ensures OneOctet(0x77B7_9C2D ^ 0x34, 0xEDB8_8320) == 0x641C_1F5C
    ensures OneOctet(0x641C_1F5C ^ 0x35, 0xEDB8_8320) == 0x340A_C5E3
    ensures OneOctet(0x340A_C5E3 ^ 0x36, 0xEDB8_8320) == 0xF68D_2C9E
    ensures OneOctet(0xF68D_2C9E ^ 0x37, 0xEDB8_8320) == 0xAFFC_9660
    ensures OneOctet(0xAFFC_9660 ^ 0x38, 0xEDB8_8320) == 0x651F_2550
    ensures OneOctet(0x651F_2550 ^ 0x39, 0xEDB8_8320) == 0x340B_C6D9
  {
  }

  lemma WordsOfTypeOne()
    ensures OneOctet(0xFFFF_FFFF ^ 0x31, 0xC8DF_352F) == 0xD218_50A1
    ensures OneOctet(0xD218_50A1 ^ 0x32, 0xC8DF_352F) == 0xB2AE_168E
    ensures OneOctet(0xB2AE_168E ^ 0x33, 0xC8DF_352F) == 0x521E_C2DD
    ensures OneOctet(0x521E_C2DD ^ 0x34, 0xC8DF_352F) == 0x1776_C98B
    ensures OneOctet(0x1776_C98B ^ 0x35, 0xC8DF_352F) == 0x0334_0A1D
    ensures OneOctet(0x0334_0A1D ^ 0x36, 0xC8DF_352F) == 0x1242_663E
    ensures OneOctet(0x1242_663E ^ 0x37, 0xC8DF_352F) == 0x2501_5864
    ensures OneOctet(0x2501_5864 ^ 0x38, 0xC8DF_352F) == 0x503B_AF2D
    ensures OneOctet(0x503B_AF2D ^ 0x39, 0xC8DF_352F) == 0xE968_2F95
  {
  }

  lemma ValueOfTypeZero()
    ensures CrcOf(DIGITS, 0xEDB8_8320) == 0xCBF4_3926
  {
    hide Register, OneOctet, Octet;
    EmptyRegister(0xEDB8_8320);
    DigitOctets();
    WordsOfTypeZero();
    NextDigit(0, 0x31, 0xEDB8_8320);
    NextDigit(1, 0x32, 0xEDB8_8320);
    NextDigit(2, 0x33, 0xEDB8_8320);
    NextDigit(3, 0x34, 0xEDB8_8320);
    NextDigit(4, 0x35, 0xEDB8_8320);
    NextDigit(5, 0x36, 0xEDB8_8320);
    NextDigit(6, 0x37, 0xEDB8_8320);
    NextDigit(7, 0x38, 0xEDB8_8320);
    NextDigit(8, 0x39, 0xEDB8_8320);
    assert DIGITS[..0] == [] && DIGITS[..9] == DIGITS;
  }

  lemma ValueOfTypeOne()
    ensures CrcOf(DIGITS, 0xC8DF_352F) == 0x1697_D06A
  {
    hide Register, OneOctet, Octet;
    EmptyRegister(0xC8DF_352F);
    DigitOctets();
    WordsOfTypeOne();
    NextDigit(0, 0x31, 0xC8DF_352F);
    NextDigit(1, 0x32, 0xC8DF_352F);
    NextDigit(2, 0x33, 0xC8DF_352F);
    NextDigit(3, 0x34, 0xC8DF_352F);
    NextDigit(4, 0x35, 0xC8DF_352F);
    NextDigit(5, 0x36, 0xC8DF_352F);
    NextDigit(6, 0x37, 0xC8DF_352F);
    NextDigit(7, 0x38, 0xC8DF_352F);
    NextDigit(8, 0x39, 0xC8DF_352F);
    assert DIGITS[..0] == [] && DIGITS[..9] == DIGITS;
  }

  /** The polynomials, known by the CRC each gives the digits 1 to 9. */
  lemma CheckValues()
    ensures Polynomial(0).Some? && CrcOf(DIGITS, Polynomial(0).value) == 0xCBF4_3926
    ensures Polynomial(1).Some? && CrcOf(DIGITS, Polynomial(1).value) == 0x1697_D06A
    ensures forall t: nat :: t >= 2 ==> Polynomial(t).None?
  {
    hide CrcOf;
    ValueOfTypeZero();
    ValueOfTypeOne();
  }
}
