/** Strings in fixed 64-octet fields: packed as UTF-8 and cut, read up to the first NUL and decoded, with U+FFFD for
    every maximal part that is not well formed (Unicode Standard, section 3.9). A string is its UTF-8 octets. */
module Utf8 {
  import opened Wire

  /** U+FFFD. */
  const REPLACEMENT: bytes := [0xEF, 0xBF, 0xBD]

  predicate Continuation(b: byte) { 0x80 <= b <= 0xBF }

  /** The second octets a lead octet allows. */
  predicate Second(lead: byte, b: byte) {
    && Continuation(b)
    && (lead == 0xE0 ==> b >= 0xA0) && (lead == 0xED ==> b <= 0x9F) && (lead == 0xF0 ==> b >= 0x90) && (lead == 0xF4 ==> b <= 0x8F)
  }

  /** How many octets a lead octet announces; 0 for one that leads nothing. */
  function Announced(lead: byte): (n: nat)
    ensures n <= 4
  {
    if lead < 0x80 then 1
    else if 0xC2 <= lead <= 0xDF then 2
    else if 0xE0 <= lead <= 0xEF then 3
    else if 0xF0 <= lead <= 0xF4 then 4
    else 0
  }

  /** How many octets from the start agree with one character. */
  function Agreeing(s: bytes): (n: nat)
    requires s != []
    ensures n <= |s| && n <= Announced(s[0]) && (n == 0 <==> Announced(s[0]) == 0)
  {
    var k := Announced(s[0]);
    if k <= 1 then k
    else if |s| < 2 || !Second(s[0], s[1]) then 1
    else if k == 2 || |s| < 3 || !Continuation(s[2]) then 2
    else if k == 3 || |s| < 4 || !Continuation(s[3]) then 3
    else 4
  }

  /** A whole character stands at the start. */
  predicate Whole(s: bytes)
    requires s != []
  {
    0 < Agreeing(s) == Announced(s[0])
  }

  /** How far a decoder goes on: one character, or what it replaces. */
  function Advance(s: bytes): (n: nat)
    requires s != []
    ensures 1 <= n <= |s| && n <= 4
  {
    if Agreeing(s) == 0 then 1 else Agreeing(s)
  }

  /** UTF-8. */
  predicate WellFormed(s: bytes) {
    s == [] || (Whole(s) && WellFormed(s[Advance(s)..]))
  }

  /** Decoded with replacement and encoded again. */
  function Repaired(s: bytes): (r: bytes) {
    if s == [] then [] else (if Whole(s) then s[..Advance(s)] else REPLACEMENT) + Repaired(s[Advance(s)..])
  }

  /** unpack_string64 of a field. */
  function Unpacked(d: bytes): (s: bytes) {
    Repaired(UntilNul(d))
  }

  // ---- characters and what follows them ----

  lemma AgreeingIsLocal(a: bytes, b: bytes)
    requires a != [] && Whole(a)
    ensures Whole(a + b) && Advance(a + b) == Advance(a)
  {
    assert forall i :: 0 <= i < |a| ==> (a + b)[i] == a[i];
  }

  lemma Step(s: bytes)
    requires s != []
    ensures Repaired(s) == (if Whole(s) then s[..Advance(s)] else REPLACEMENT) + Repaired(s[Advance(s)..])
    ensures WellFormed(s) <==> Whole(s) && WellFormed(s[Advance(s)..])
  {
    hide Whole, Advance;
  }

  lemma {:induction false} RepairedAfter(a: bytes, b: bytes)
    requires WellFormed(a)
    ensures Repaired(a + b) == a + Repaired(b) && (WellFormed(a + b) <==> WellFormed(b))
    decreases |a|
  {
    hide WellFormed, Repaired, Whole, Advance;
    if a == [] {
      assert a + b == b;
      assert a + Repaired(b) == Repaired(b);
    } else {
      var n := Advance(a);
      Step(a);
      Step(a + b);
      AgreeingIsLocal(a, b);
      RepairedAfter(a[n..], b);
      Across(a, b, n);
      Across(a, Repaired(b), n);
    }
  }

  lemma Across(a: bytes, b: bytes, n: nat)
    requires n <= |a|
    ensures (a + b)[..n] == a[..n] && (a + b)[n..] == a[n..] + b && a[..n] + (a[n..] + b) == a + b
  {
  }

  lemma WellFormedStays(a: bytes)
    requires WellFormed(a)
    ensures Repaired(a) == a
  {
    RepairedAfter(a, []);
    assert a + [] == a;
  }

  lemma ReplacementIsWhole()
    ensures WellFormed(REPLACEMENT)
  {
    assert Whole(REPLACEMENT) && Advance(REPLACEMENT) == 3 && REPLACEMENT[3..] == [];
  }

  lemma WholeAlone(s: bytes)
    requires s != [] && Whole(s)
    ensures WellFormed(s[..Advance(s)])
  {
    var c := s[..Advance(s)];
    assert forall i :: 0 <= i < |c| ==> c[i] == s[i];
    assert Whole(c) && Advance(c) == |c| && c[|c|..] == [];
  }

  /** What a decoder gives is well formed, and free of NUL if the octets were. */
  lemma {:induction false} RepairedIsWellFormed(s: bytes)
    ensures WellFormed(Repaired(s)) && (0 !in s ==> 0 !in Repaired(s))
    decreases |s|
  {
    if s != [] {
      var n := Advance(s);
      RepairedIsWellFormed(s[n..]);
      var c := if Whole(s) then s[..n] else REPLACEMENT;
      if Whole(s) { WholeAlone(s); } else { ReplacementIsWhole(); }
      RepairedAfter(c, Repaired(s[n..]));
    }
  }

  // ---- the first part that is not well formed ----

  /** How many octets are well formed from the start. */
  function Sound(s: bytes): (p: nat)
    ensures p <= |s| && (p == |s| <==> WellFormed(s))
  {
    if s == [] || !Whole(s) then 0 else Advance(s) + Sound(s[Advance(s)..])
  }

  lemma {:induction false} SoundIsWellFormed(s: bytes)
    ensures WellFormed(s[..Sound(s)]) && (Sound(s) < |s| ==> !Whole(s[Sound(s)..]))
    decreases |s|
  {
    hide WellFormed, Whole, Advance;
    if s == [] || !Whole(s) {
      NothingToRepair(s);
      assert s[0..] == s;
    } else {
      var n := Advance(s);
      var p := Sound(s[n..]);
      SoundIsWellFormed(s[n..]);
      WholeAlone(s);
      RepairedAfter(s[..n], s[n..][..p]);
      Prefixes(s, n, n + p);
      assert s[n..][p..] == s[n + p..];
    }
  }

  /** Up to the first bad part nothing changes; there stands a replacement. */
  lemma RepairedAt(s: bytes)
    requires !WellFormed(s)
    ensures var p := Sound(s);
            p < |s| && |Repaired(s)| >= p + 3 && Repaired(s)[..p] == s[..p] && Repaired(s)[p..p + 3] == REPLACEMENT
  {
    hide WellFormed, Repaired, Whole, Advance, Sound;
    var p := Sound(s);
    SoundIsWellFormed(s);
    var t := s[p..];
    RepairedAfter(s[..p], t);
    assert s[..p] + t == s;
    Step(t);
    InTheMiddle(s[..p], REPLACEMENT, Repaired(t[Advance(t)..]));
  }

  lemma InTheMiddle(a: bytes, b: bytes, c: bytes)
    ensures var x := a + (b + c); |x| >= |a| + |b| && x[..|a|] == a && x[|a|..|a| + |b|] == b
  {
  }

  lemma Associate(a: bytes, b: bytes, c: bytes)
    ensures a + (b + c) == a + b + c
  {
  }

  // ---- cutting a well-formed string ----

  /** The octets begin a character but do not finish it. */
  predicate Unfinished(s: bytes) {
    s != [] && Agreeing(s) == |s| < Announced(s[0])
  }

  lemma UnfinishedIsReplaced(s: bytes)
    requires Unfinished(s)
    ensures !Whole(s) && Advance(s) == |s| <= 3 && Repaired(s) == REPLACEMENT
  {
    assert s[|s|..] == [];
    assert REPLACEMENT + [] == REPLACEMENT;
  }

  lemma PrefixOfWhole(s: bytes, n: nat)
    requires s != [] && Whole(s) && 0 < n < Advance(s)
    ensures Unfinished(s[..n])
  {
    assert forall i :: 0 <= i < n ==> s[..n][i] == s[i];
  }

  /** A cut leaves whole characters and at most one unfinished one. */
  lemma {:induction false} CutLeaves(s: bytes, n: nat) returns (p: nat)
    requires WellFormed(s) && n <= |s|
    ensures p <= n && WellFormed(s[..p]) && (p < n ==> Unfinished(s[p..n]))
    ensures Repaired(s[..n]) == s[..p] + if p < n then REPLACEMENT else []
    decreases |s|
  {
    hide WellFormed, Repaired, Whole, Advance, Unfinished;
    if n == 0 {
      p := 0;
      NothingToRepair(s);
    } else {
      Step(s);
      var k := Advance(s);
      if n < k {
        p := 0;
        NothingToRepair(s);
        PrefixOfWhole(s, n);
        UnfinishedIsReplaced(s[..n]);
        assert s[0..n] == s[..n] && [] + REPLACEMENT == REPLACEMENT;
      } else {
        var q := CutLeaves(s[k..], n - k);
        p := k + q;
        WholeAlone(s);
        RepairedAfter(s[..k], s[k..][..n - k]);
        RepairedAfter(s[..k], s[k..][..q]);
        Prefixes(s, k, n);
        Prefixes(s, k, p);
        Associate(s[..k], s[k..][..q], if q < n - k then REPLACEMENT else []);
        assert s[k..][q..n - k] == s[p..n];
      }
    }
  }

  lemma NothingToRepair(s: bytes)
    ensures s[..0] == [] && WellFormed([]) && Repaired([]) == []
  {
  }

  lemma Prefixes(s: bytes, k: nat, n: nat)
    requires k <= n <= |s|
    ensures s[..k] + s[k..][..n - k] == s[..n]
  {
  }

  // ---- fields ----

  /** What a field holds after it was read and packed again. */
  function Repacked(d: bytes): (r: bytes)
    ensures |r| == 64
  {
    String64(Unpacked(d))
  }

  predicate OnlyNulAfter(d: bytes, n: nat) {
    forall k :: n <= k < |d| ==> d[k] == 0
  }

  /** Well formed, or well formed but for the one or two first octets of U+FFFD, or of a character that begins like
      it, at the very end of a full field. */
  predicate Settling(u: bytes) {
    || WellFormed(u)
    || (|u| == 64 && WellFormed(u[..63]) && u[63..] == [0xEF])
    || (|u| == 64 && WellFormed(u[..62]) && u[62..] == [0xEF, 0xBF])
  }

  /** A field that comes back: nothing but NUL after the first NUL, and before it octets that settle. */
  predicate CleanText(d: bytes) {
    OnlyNulAfter(d, |UntilNul(d)|) && Settling(UntilNul(d))
  }

  lemma BeginningOfReplacement(k: nat)
    requires 1 <= k <= 2
    ensures Unfinished(REPLACEMENT[..k])
  {
  }

  lemma SettledEnds(u: bytes, k: nat)
    requires |u| == 64 && 1 <= k <= 2 && WellFormed(u[..64 - k]) && u[64 - k..] == REPLACEMENT[..k]
    ensures String64(Repaired(u)) == u
  {
    hide WellFormed, Repaired, Unfinished;
    var a := u[..64 - k];
    assert u == a + u[64 - k..];
    RepairedAfter(a, REPLACEMENT[..k]);
    BeginningOfReplacement(k);
    UnfinishedIsReplaced(REPLACEMENT[..k]);
    assert (a + REPLACEMENT)[..64] == a + REPLACEMENT[..k];
  }

  lemma PaddedBack(d: bytes)
    requires |d| == 64 && OnlyNulAfter(d, |UntilNul(d)|)
    ensures String64(UntilNul(d)) == d
  {
    var u := UntilNul(d);
    assert d == d[..|u|] + d[|u|..];
    assert d[|u|..] == Zeros(64 - |u|);
  }

  lemma CleanComesBack(d: bytes)
    requires |d| == 64 && CleanText(d)
    ensures Repacked(d) == d
  {
    hide WellFormed, Repaired;
    var u := UntilNul(d);
    PaddedBack(d);
    if WellFormed(u) {
      WellFormedStays(u);
    } else {
      var k := if u[63..] == [0xEF] && WellFormed(u[..63]) then 1 else 2;
      assert REPLACEMENT[..1] == [0xEF] && REPLACEMENT[..2] == [0xEF, 0xBF];
      SettledEnds(u, k);
      assert u == d;
    }
  }

  /** A bad part that comes back is the beginning of a replacement, cut off by the end of the field. */
  lemma BadPartAtTheEnd(d: bytes, u: bytes)
    requires |d| == 64 && u == UntilNul(d) && !WellFormed(u) && Repacked(d) == d
    ensures Settling(u) && |u| == 64
  {
    hide WellFormed, Repaired, UntilNul, Whole, Advance, Sound;
    var p := Sound(u);
    SoundIsWellFormed(u);
    RepairedAt(u);
    ReplacementShows(d, u, p);
    if p + 2 < 64 {
      ReplacementIsRead(u, p);
    }
  }

  /** Where the first bad part was stands a replacement, as far as the field reaches. */
  lemma ReplacementShows(d: bytes, u: bytes, p: nat)
    requires |d| == 64 && u <= d && (|u| < 64 ==> d[|u|] == 0) && p < |u|
    requires |Repaired(u)| >= p + 3 && Repaired(u)[p..p + 3] == REPLACEMENT && String64(Repaired(u)) == d
    ensures p + 2 < 64 ==> |u| > p + 2 && u[p..p + 3] == REPLACEMENT
    ensures p == 62 ==> |u| == 64 && u[62..] == [0xEF, 0xBF]
    ensures p == 63 ==> |u| == 64 && u[63..] == [0xEF]
  {
    hide Repaired;
    var r := Repaired(u);
    forall i | p <= i < p + 3 && i < 64 ensures d[i] == REPLACEMENT[i - p] != 0 {
      assert r[i] == r[p..p + 3][i - p];
    }
    assert |u| == p + 1 ==> p + 1 == 64;
    assert |u| == p + 2 ==> p + 2 == 64;
    forall i | p <= i < p + 3 && i < 64 ensures u[i] == REPLACEMENT[i - p] {
      assert u == d[..|u|];
    }
    if p + 2 < 64 {
      assert u[p..p + 3] == [u[p], u[p + 1], u[p + 2]];
    } else if p == 62 {
      assert u[62..] == [u[62], u[63]];
    } else {
      assert u[63..] == [u[63]];
    }
  }

  lemma ReplacementIsRead(u: bytes, p: nat)
    requires p + 3 <= |u| && u[p..p + 3] == REPLACEMENT
    ensures Whole(u[p..])
  {
    var t := u[p..];
    assert t[0] == u[p..p + 3][0] && t[1] == u[p..p + 3][1] && t[2] == u[p..p + 3][2];
  }

  /** What is left of the field after the string is NUL if the field comes back. */
  lemma RestIsNul(d: bytes, u: bytes)
    requires |d| == 64 && u == UntilNul(d) && WellFormed(u) && Repacked(d) == d
    ensures OnlyNulAfter(d, |u|)
  {
    hide WellFormed, Repaired, UntilNul;
    WellFormedStays(u);
    assert forall k :: |u| <= k < 64 ==> d[k] == Zeros(64 - |u|)[k - |u|];
  }

  /** A field read and packed again is the same exactly when it is clean. */
  lemma FieldComesBack(d: bytes)
    requires |d| == 64
    ensures Repacked(d) == d <==> CleanText(d)
  {
    hide WellFormed, Repaired, Repacked, UntilNul;
    var u := UntilNul(d);
    if CleanText(d) {
      CleanComesBack(d);
    }
    if Repacked(d) == d {
      if WellFormed(u) {
        RestIsNul(d, u);
      } else {
        BadPartAtTheEnd(d, u);
      }
    }
  }

  // ---- a second time ----

  lemma NoNulRead(c: bytes)
    requires |c| == 64 && 0 !in c
    ensures UntilNul(c) == c
  {
    UntilNulUnique(c, []);
    assert c + [] == c;
  }

  lemma ShortRead(r: bytes)
    requires |r| <= 64 && 0 !in r
    ensures UntilNul(String64(r)) == r && OnlyNulAfter(String64(r), |r|)
  {
    hide UntilNul;
    UntilNulUnique(r, Zeros(64 - |r|));
  }

  /** A well-formed string cut to a full field: the field settles once its unfinished end has been replaced. */
  lemma CutSettles(r: bytes)
    requires WellFormed(r) && 0 !in r && |r| > 64
    ensures CleanText(Repacked(r[..64]))
  {
    hide WellFormed, Repaired, UntilNul, Unfinished;
    var c := r[..64];
    NoNulRead(c);
    var p := CutLeaves(r, 64);
    if p == 64 {
      CleanComesBack(c);
    } else {
      UnfinishedIsReplaced(r[p..64]);
      ReplacedEnd(r[..p]);
    }
  }

  /** A field that ends in a replacement, cut off by the end of the field or not. */
  lemma ReplacedEnd(a: bytes)
    requires WellFormed(a) && 0 !in a && 61 <= |a| < 64
    ensures CleanText(String64(a + REPLACEMENT))
  {
    hide WellFormed, Repaired, UntilNul;
    var x, p := a + REPLACEMENT, |a|;
    RepairedAfter(a, REPLACEMENT);
    ReplacementIsWhole();
    if p == 61 {
      ShortRead(x);
    } else {
      var c := x[..64];
      assert String64(x) == c + [] == c;
      assert c == a + REPLACEMENT[..64 - p];
      assert 0 !in REPLACEMENT[..64 - p];
      NoNulRead(c);
      assert c[..p] == a && c[p..] == REPLACEMENT[..64 - p];
    }
  }

  /** After a field has been read and packed twice, it stays as it is. */
  lemma TwoTripsSettle(d: bytes)
    requires |d| == 64
    ensures CleanText(Repacked(Repacked(d)))
  {
    hide WellFormed, Repaired, UntilNul;
    var r := Unpacked(d);
    RepairedIsWellFormed(UntilNul(d));
    if |r| <= 64 {
      ShortRead(r);
      CleanComesBack(String64(r));
    } else {
      assert String64(r) == r[..64] + [] == r[..64];
      CutSettles(r);
    }
  }

  // ---- which strings a field gives back ----

  /** Between characters: an octet that continues none is a place to cut. */
  lemma Boundary(s: bytes, n: nat)
    requires WellFormed(s) && n < |s| && !Continuation(s[n])
    ensures WellFormed(s[..n])
  {
    hide WellFormed, Repaired, Continuation, Announced;
    var q := CutLeaves(s, n);
    if q < n {
      RepairedAfter(s[..q], s[q..]);
      assert s[..q] + s[q..] == s;
      Step(s[q..]);
      NextContinues(s[q..], n - q);
    }
  }

  lemma NextContinues(t: bytes, k: nat)
    requires 0 < k < |t| && Whole(t) && Unfinished(t[..k])
    ensures Continuation(t[k])
  {
    assert t[..k][0] == t[0];
  }

  /** The strings a field gives back: no NUL in them, and at most 64 octets, or one or two more of which the last three
      are U+FFFD. */
  predicate Fits64(s: bytes) {
    0 !in s && (|s| <= 64 || (|s| <= 66 && s[|s| - 3..] == REPLACEMENT))
  }

  /** A string that ends in U+FFFD inside the cut comes back. */
  lemma EndsInReplacement(s: bytes)
    requires WellFormed(s) && 64 < |s| <= 66 && s[|s| - 3..] == REPLACEMENT
    ensures Repaired(s[..64]) == s
  {
    hide WellFormed, Repaired, Unfinished;
    var n, k := |s| - 3, 67 - |s|;
    assert s[n] == s[n..][0] == 0xEF;
    Boundary(s, n);
    assert s[n..][..k] == REPLACEMENT[..k];
    Prefixes(s, n, 64);
    RepairedAfter(s[..n], REPLACEMENT[..k]);
    BeginningOfReplacement(k);
    UnfinishedIsReplaced(REPLACEMENT[..k]);
    assert s == s[..n] + s[n..];
  }

  lemma LongComesBack(s: bytes)
    requires WellFormed(s) && 0 !in s && |s| > 64
    ensures Unpacked(String64(s)) == s <==> Fits64(s)
  {
    hide WellFormed, Repaired, UntilNul, Unfinished;
    var c := s[..64];
    assert String64(s) == c + [] == c;
    NoNulRead(c);
    if Fits64(s) {
      EndsInReplacement(s);
    }
    if Repaired(c) == s {
      var p := CutLeaves(s, 64);
      var x := s[..p] + if p < 64 then REPLACEMENT else [];
      assert x == s && p < 64 && |x| == p + 3;
      assert x[p..] == REPLACEMENT;
    }
  }

  lemma FieldGivesBack(s: bytes)
    requires WellFormed(s)
    ensures Unpacked(String64(s)) == s <==> Fits64(s)
  {
    hide WellFormed, Repaired, UntilNul;
    RepairedIsWellFormed(UntilNul(String64(s)));
    if 0 !in s {
      if |s| <= 64 {
        ShortRead(s);
        WellFormedStays(s);
      } else {
        LongComesBack(s);
      }
    }
  }

  /** unpack_string64 at an offset. */
  function TextAt(d: bytes, pos: nat): (s: bytes)
    requires pos + 64 <= |d|
    ensures WellFormed(s) && 0 !in s
  {
    RepairedIsWellFormed(UntilNul(d[pos..pos + 64]));
    Unpacked(d[pos..pos + 64])
  }

  /** A string survives the 64-octet field, wherever it stands, exactly when it has no NUL and is at most 64 octets
      long, or ends in U+FFFD one or two octets later. */
  lemma String64RoundTrip(s: bytes, before: bytes, after: bytes)
    requires WellFormed(s)
    ensures TextAt(before + String64(s) + after, |before|) == s <==> Fits64(s)
  {
    hide WellFormed, Unpacked, String64, Fits64;
    assert (before + String64(s) + after)[|before|..|before| + 64] == String64(s);
    FieldGivesBack(s);
  }

  // ---- a name cut inside a character ----

  lemma {:induction false} AsciiIsWellFormed(s: bytes)
    requires forall i :: 0 <= i < |s| ==> s[i] < 0x80
    ensures WellFormed(s)
    decreases |s|
  {
    if s != [] {
      assert Whole(s) && Advance(s) == 1;
      AsciiIsWellFormed(s[1..]);
    }
  }

  /** 63 octets and a letter of two: the field keeps half of the letter, and what is read from it packs to other octets. */
  lemma CutInACharacter(a: bytes)
    requires |a| == 63 && forall i :: 0 <= i < 63 ==> 0x20 <= a[i] < 0x80
    ensures WellFormed(a + [0xC3, 0xA9]) && String64(a + [0xC3, 0xA9]) == a + [0xC3]
    ensures Repacked(a + [0xC3]) == a + [0xEF]
  {
    hide WellFormed, Repaired, UntilNul;
    var e, half: bytes := [0xC3, 0xA9], [0xC3];
    AsciiIsWellFormed(a);
    WholeAlone(e);
    assert e[..2] == e && (a + e)[..64] == a + half;
    RepairedAfter(a, e);
    RepairedAfter(a, half);
    assert Unfinished(half);
    UnfinishedIsReplaced(half);
    NoNulRead(a + half);
    assert (a + REPLACEMENT)[..64] == a + [0xEF];
  }

  // ---- characters ----

  /** A code point that is a character: at most U+10FFFF and not a surrogate. */
  predicate Scalar(c: nat) {
    c < 0xD800 || 0xE000 <= c < 0x11_0000
  }

  /** Its UTF-8 octets. */
  function Utf8Of(c: nat): (r: bytes)
    requires Scalar(c)
    ensures 1 <= |r| <= 4
  {
    if c < 0x80 then [c]
    else if c < 0x800 then [0xC0 + c / 0x40, 0x80 + c % 0x40]
    else if c < 0x1_0000 then [0xE0 + c / 0x1000, 0x80 + c / 0x40 % 0x40, 0x80 + c % 0x40]
    else [0xF0 + c / 0x4_0000, 0x80 + c / 0x1000 % 0x40, 0x80 + c / 0x40 % 0x40, 0x80 + c % 0x40]
  }

  function Encoded(cs: seq<nat>): (r: bytes)
    requires forall i :: 0 <= i < |cs| ==> Scalar(cs[i])
  {
    if cs == [] then [] else Utf8Of(cs[0]) + Encoded(cs[1..])
  }

  /** The octets of a character agree with it to the last. */
  lemma ScalarIsWhole(c: nat)
    requires Scalar(c)
    ensures Whole(Utf8Of(c)) && Advance(Utf8Of(c)) == |Utf8Of(c)|
  {
    if c >= 0x1_0000 {
      FourParts(c);
      FourOctetsOf(c);
    } else if c >= 0x800 {
      ThreeParts(c);
      ThreeOctetsOf(c);
    }
  }

  lemma ThreeParts(c: nat)
    requires 0x800 <= c < 0x1_0000 && Scalar(c)
    ensures c / 0x1000 <= 0xF && (c / 0x1000 == 0 ==> c / 0x40 % 0x40 >= 0x20) && (c / 0x1000 == 0xD ==> c / 0x40 % 0x40 < 0x20)
  {
    var q := c / 0x40;
    DividedTwice(c, 0x40, 0x40);
    assert 0x20 <= q < 0x400 && (q < 0x360 || q >= 0x380);
  }

  lemma FourParts(c: nat)
    requires 0x1_0000 <= c < 0x11_0000
    ensures c / 0x4_0000 <= 4 && (c / 0x4_0000 == 0 ==> c / 0x1000 % 0x40 >= 0x10) && (c / 0x4_0000 == 4 ==> c / 0x1000 % 0x40 < 0x10)
  {
    var q := c / 0x1000;
    DividedTwice(c, 0x1000, 0x40);
    assert 0x10 <= q < 0x110;
  }

  /** The character that stands at the start. */
  lemma WholeIsScalar(s: bytes) returns (c: nat)
    requires s != [] && Whole(s)
    ensures Scalar(c) && Utf8Of(c) == s[..Advance(s)]
  {
    var n := Advance(s);
    if n == 1 {
      c := s[0];
    } else if n == 2 {
      c := (s[0] as int - 0xC0) * 0x40 + (s[1] as int - 0x80);
      assert s[..2] == [s[0], s[1]];
    } else if n == 3 {
      c := ThreeOctets(s[0], s[1], s[2]);
      assert s[..3] == [s[0], s[1], s[2]];
    } else {
      c := FourOctets(s[0], s[1], s[2], s[3]);
      assert s[..4] == [s[0], s[1], s[2], s[3]];
    }
  }

  lemma ThreeOctets(x: byte, y: byte, z: byte) returns (c: nat)
    requires 0xE0 <= x <= 0xEF && Second(x, y) && Continuation(z)
    ensures Scalar(c) && Utf8Of(c) == [x, y, z]
  {
    hide Utf8Of;
    var top := x as int - 0xE0;
    var a := top * 0x40 + (y as int - 0x80);
    c := a * 0x40 + (z as int - 0x80);
    SixBits(top, y as int - 0x80);
    SixBits(a, z as int - 0x80);
    DividedTwice(c, 0x40, 0x40);
    ThreeOctetsOf(c);
  }

  lemma ThreeOctetsOf(c: nat)
    requires 0x800 <= c < 0x1_0000 && Scalar(c)
    ensures Utf8Of(c) == [0xE0 + c / 0x1000, 0x80 + c / 0x40 % 0x40, 0x80 + c % 0x40]
  {
  }

  lemma FourOctets(w: byte, x: byte, y: byte, z: byte) returns (c: nat)
    requires 0xF0 <= w <= 0xF4 && Second(w, x) && Continuation(y) && Continuation(z)
    ensures Scalar(c) && Utf8Of(c) == [w, x, y, z]
  {
    hide Utf8Of;
    var top := w as int - 0xF0;
    var a := top * 0x40 + (x as int - 0x80);
    var b := a * 0x40 + (y as int - 0x80);
    c := b * 0x40 + (z as int - 0x80);
    SixBits(top, x as int - 0x80);
    SixBits(a, y as int - 0x80);
    SixBits(b, z as int - 0x80);
    DividedTwice(c, 0x40, 0x40);
    DividedTwice(c, 0x1000, 0x40);
    FourOctetsOf(c);
  }

  lemma SixBits(a: nat, b: nat)
    requires b < 0x40
    ensures (a * 0x40 + b) / 0x40 == a && (a * 0x40 + b) % 0x40 == b
  {
  }

  lemma FourOctetsOf(c: nat)
    requires 0x1_0000 <= c < 0x11_0000
    ensures Utf8Of(c) == [0xF0 + c / 0x4_0000, 0x80 + c / 0x1000 % 0x40, 0x80 + c / 0x40 % 0x40, 0x80 + c % 0x40]
  {
  }

  /** Octets are well formed exactly when they are characters one after the other. */
  lemma {:induction false} EncodedIsWellFormed(cs: seq<nat>)
    requires forall i :: 0 <= i < |cs| ==> Scalar(cs[i])
    ensures WellFormed(Encoded(cs))
  {
    hide WellFormed, Whole, Advance, Utf8Of, Scalar;
    if cs == [] {
      NothingToRepair([]);
    } else {
      var a, b := Utf8Of(cs[0]), Encoded(cs[1..]);
      EncodedIsWellFormed(cs[1..]);
      ScalarIsWhole(cs[0]);
      AgreeingIsLocal(a, b);
      Step(a + b);
      assert (a + b)[|a|..] == b;
    }
  }

  lemma {:induction false} WellFormedIsEncoded(s: bytes) returns (cs: seq<nat>)
    requires WellFormed(s)
    ensures (forall i :: 0 <= i < |cs| ==> Scalar(cs[i])) && Encoded(cs) == s
    decreases |s|
  {
    hide WellFormed, Whole, Advance, Utf8Of, Scalar;
    if s == [] {
      cs := [];
    } else {
      Step(s);
      var c := WholeIsScalar(s);
      var rest := WellFormedIsEncoded(s[Advance(s)..]);
      cs := [c] + rest;
      assert cs[1..] == rest;
    }
  }

  /** What stands for a part that is not well formed is the character U+FFFD. */
  lemma ReplacementIs()
    ensures REPLACEMENT == Utf8Of(0xFFFD)
  {
  }
}
