/** The ones-complement checksum of an ACF checksum message (section 9.4.20 of IEEE 1722-2025). */
module Checksum {
  import opened Wire

  /** The big-endian 16-bit words of a message; an odd last octet is the high half of a word. */
  function Words(data: bytes): (r: seq<nat>)
    ensures |r| == (|data| + 1) / 2
    ensures forall w <- r :: w < 0x1_0000
  {
    var n := |data|;
    if n == 0 then []
    else if n % 2 == 1 then Words(data[..n - 1]) + [data[n - 1] as int * 256]
    else Words(data[..n - 2]) + [data[n - 2] as int * 256 + data[n - 1]]
  }

  function Sum(words: seq<nat>): (r: nat) {
    if words == [] then 0 else Sum(words[..|words| - 1]) + words[|words| - 1]
  }

  /** Carries folded back in until none is left. */
  function Fold(total: nat): (r: nat)
    ensures r < 0x1_0000
  {
    if total < 0x1_0000 then total else Fold(total % 0x1_0000 + total / 0x1_0000)
  }

  /** The complement of a 16-bit value. */
  function Complement(x: nat): (r: nat)
    requires x < 0x1_0000
    ensures r < 0x1_0000
  {
    0xFFFF - x
  }

  function ChecksumOf(data: bytes): (r: nat)
    ensures r < 0x1_0000
  {
    Complement(Fold(Sum(Words(data))))
  }

  /** _ones_complement_checksum: the sum, then the folding. */
  method OnesComplementChecksum(data: bytes) returns (r: nat)
    ensures r == ChecksumOf(data)
  {
    hide Words, Sum;
    var total: nat := SumWords(data);
    while total >= 0x1_0000
      invariant Fold(total) == Fold(Sum(Words(data)))
      decreases total
    {
      total := total % 0x1_0000 + total / 0x1_0000;
    }
    r := 0xFFFF - total;
  }

  method SumWords(data: bytes) returns (total: nat)
    ensures total == Sum(Words(data))
  {
    hide Words, Sum;
    total := 0;
    var i := 0;
    NoWords();
    assert data[..0] == [];
    while i + 1 < |data|
      invariant i <= |data| && i % 2 == 0 && total == Sum(Words(data[..i]))
    {
      NextWord(data, i);
      total := total + (data[i] as int * 256 + data[i + 1]);
      i := i + 2;
    }
    if |data| % 2 == 1 {
      LastWord(data);
      total := total + data[|data| - 1] as int * 256;
    } else {
      assert data[..i] == data;
    }
  }

  lemma NoWords()
    ensures Sum(Words([])) == 0
  {
  }

  lemma SumSnoc(words: seq<nat>, w: nat)
    ensures Sum(words + [w]) == Sum(words) + w
  {
    assert (words + [w])[..|words|] == words;
  }

  lemma NextWord(data: bytes, i: nat)
    requires i + 2 <= |data| && i % 2 == 0
    ensures Sum(Words(data[..i + 2])) == Sum(Words(data[..i])) + (data[i] as int * 256 + data[i + 1])
  {
    hide Sum;
    assert data[..i + 2][..i] == data[..i];
    SumSnoc(Words(data[..i]), data[i] as int * 256 + data[i + 1]);
  }

  lemma LastWord(data: bytes)
    requires |data| % 2 == 1
    ensures Sum(Words(data)) == Sum(Words(data[..|data| - 1])) + data[|data| - 1] as int * 256
  {
    hide Sum;
    SumSnoc(Words(data[..|data| - 1]), data[|data| - 1] as int * 256);
  }

  /** Folding is reduction modulo 65535 that keeps nonzero sums nonzero. */
  lemma {:induction false} FoldIs(n: nat)
    ensures Fold(n) == if n == 0 then 0 else (n - 1) % 0xFFFF + 1
    ensures Fold(n) % 0xFFFF == n % 0xFFFF
  {
    if n >= 0x1_0000 {
      var m := n % 0x1_0000 + n / 0x1_0000;
      FoldIs(m);
      assert n == m + 0xFFFF * (n / 0x1_0000);
      AddMultiple(m - 1, n / 0x1_0000);
      AddMultiple(m, n / 0x1_0000);
    } else if n > 0 {
      AddMultiple(0, 1);
    }
  }

  lemma {:induction false} AddMultiple(x: int, k: nat)
    ensures (x + 0xFFFF * k) % 0xFFFF == x % 0xFFFF
  {
    if k > 0 { AddMultiple(x, k - 1); }
  }

  predicate AllZero(s: seq<int>) {
    forall i :: 0 <= i < |s| ==> s[i] == 0
  }

  lemma AllZeroJoin(x: seq<int>, y: seq<int>)
    ensures AllZero(x + y) <==> AllZero(x) && AllZero(y)
  {
    if AllZero(x + y) {
      assert forall i :: 0 <= i < |x| ==> x[i] == (x + y)[i];
      assert forall i :: 0 <= i < |y| ==> y[i] == (x + y)[|x| + i];
    }
  }

  lemma {:induction false} SumZero(words: seq<nat>)
    ensures Sum(words) == 0 <==> AllZero(words)
  {
    if words != [] {
      var n := |words| - 1;
      SumZero(words[..n]);
      assert words == words[..n] + [words[n]];
      AllZeroJoin(words[..n], [words[n]]);
    }
  }

  lemma {:induction false} WordsZero(data: bytes)
    ensures AllZero(Words(data)) <==> AllZero(data)
  {
    hide AllZero;
    var n := |data|;
    if n == 0 {
      assert Words(data) == data;
    } else if n % 2 == 1 {
      WordsZero(data[..n - 1]);
      OneZero(data[n - 1]);
      assert data == data[..n - 1] + [data[n - 1]];
      AllZeroJoin(data[..n - 1], [data[n - 1]]);
      AllZeroJoin(Words(data[..n - 1]), [data[n - 1] as int * 256]);
    } else {
      var a, b := data[n - 2], data[n - 1];
      WordsZero(data[..n - 2]);
      TwoZero(a, b);
      assert data == data[..n - 2] + [a, b];
      AllZeroJoin(data[..n - 2], [a, b]);
      AllZeroJoin(Words(data[..n - 2]), [a as int * 256 + b]);
    }
  }

  lemma OneZero(a: byte)
    ensures AllZero([a as int * 256]) <==> AllZero([a])
  {
    assert [a][0] == a && [a as int * 256][0] == a as int * 256;
  }

  lemma TwoZero(a: byte, b: byte)
    ensures AllZero([a as int * 256 + b]) <==> AllZero([a, b])
  {
    assert [a, b][0] == a && [a, b][1] == b && [a as int * 256 + b][0] == a as int * 256 + b;
  }

  /** The complement of the checksum is congruent to the sum of the words modulo 65535, and is zero
      only for a message of zeros. */
  lemma ChecksumMeaning(data: bytes)
    ensures (0xFFFF - ChecksumOf(data)) % 0xFFFF == Sum(Words(data)) % 0xFFFF
    ensures ChecksumOf(data) == 0xFFFF <==> AllZero(data)
  {
    hide Fold, Sum, Words;
    FoldIs(Sum(Words(data)));
    SumZero(Words(data));
    WordsZero(data);
  }

  lemma {:induction false} SumWithout(words: seq<nat>, k: nat)
    requires k < |words|
    ensures Sum(words) == Sum(words[..k] + words[k + 1..]) + words[k]
  {
    var n := |words| - 1;
    var rest := words[..k] + words[k + 1..];
    if k < n {
      SumWithout(words[..n], k);
      assert rest[..n - 1] == words[..n][..k] + words[..n][k + 1..] && rest[n - 1] == words[n];
    } else {
      assert rest == words[..n];
    }
  }

  lemma RemovedFrom(y: seq<nat>, k: nat)
    requires k < |y|
    ensures multiset(y[..k] + y[k + 1..]) == multiset(y) - multiset{y[k]}
  {
    assert y == y[..k] + [y[k]] + y[k + 1..];
  }

  /** The order of the words does not matter. */
  lemma {:induction false} SumOfPermutation(x: seq<nat>, y: seq<nat>)
    requires multiset(x) == multiset(y)
    ensures Sum(x) == Sum(y)
  {
    assert |x| == |multiset(x)| == |multiset(y)| == |y|;
    if x != [] {
      var n := |x| - 1;
      assert x[..n] + x[n + 1..] == x[..n];
      RemovedFrom(x, n);
      assert x[n] in multiset(y);
      var k :| 0 <= k < |y| && y[k] == x[n];
      RemovedFrom(y, k);
      SumOfPermutation(x[..n], y[..k] + y[k + 1..]);
      SumWithout(y, k);
    }
  }

  lemma ReorderedWordsUnnoticed(a: bytes, b: bytes)
    requires multiset(Words(a)) == multiset(Words(b))
    ensures ChecksumOf(a) == ChecksumOf(b)
  {
    SumOfPermutation(Words(a), Words(b));
  }

  lemma Congruent(x: nat, y: nat, rest: nat)
    requires x < 0x1_0000 && y < 0x1_0000 && x < y
    ensures Fold(rest + x) == Fold(rest + y) <==> x == 0 && y == 0xFFFF && rest > 0
  {
    hide Fold;
    FoldIs(rest + x);
    FoldIs(rest + y);
    var d := y - x;
    if rest + x > 0 {
      var a := rest + x - 1;
      if d == 0xFFFF {
        AddMultiple(a, 1);
      }
    }
  }

  /** Changing one word goes unnoticed exactly when it changes between 0x0000 and 0xFFFF and some
      other word is not zero. */
  lemma OneWordChanged(a: bytes, b: bytes, k: nat)
    requires |Words(a)| == |Words(b)| && k < |Words(a)| && Words(b) == Words(a)[k := Words(b)[k]] && Words(a)[k] != Words(b)[k]
    ensures ChecksumOf(a) == ChecksumOf(b) <==>
            {Words(a)[k], Words(b)[k]} == {0, 0xFFFF} && exists i :: 0 <= i < |Words(a)| && i != k && Words(a)[i] != 0
  {
    hide Words, Fold, Sum;
    var x, y := Words(a), Words(b);
    assert x[k] in x && y[k] in y;
    var rest := x[..k] + x[k + 1..];
    assert rest == y[..k] + y[k + 1..];
    SumWithout(x, k);
    SumWithout(y, k);
    SumZero(rest);
    assert !AllZero(rest) <==> exists i :: 0 <= i < |x| && i != k && x[i] != 0 by {
      if i :| 0 <= i < |x| && i != k && x[i] != 0 {
        assert x[i] == rest[if i < k then i else i - 1];
      }
      if i :| 0 <= i < |rest| && rest[i] != 0 {
        assert rest[i] == x[if i < k then i else i + 1];
      }
    }
    if x[k] < y[k] {
      Congruent(x[k], y[k], Sum(rest));
    } else {
      Congruent(y[k], x[k], Sum(rest));
    }
  }

  /** The octets added up, those at even positions 256 times. */
  function Weighted(data: bytes): (n: nat) {
    if data == [] then 0 else
      var n := |data| - 1;
      Weighted(data[..n]) + data[n] as int * if n % 2 == 0 then 256 else 1
  }

  lemma {:induction false} WordsWeigh(data: bytes)
    ensures Sum(Words(data)) == Weighted(data)
  {
    hide Words, Sum;
    var n := |data|;
    if n == 0 {
      NoWords();
      assert data == [];
    } else if n % 2 == 1 {
      WordsWeigh(data[..n - 1]);
      LastWord(data);
    } else {
      var init := data[..n - 1];
      WordsWeigh(data[..n - 2]);
      assert data[..n] == data && init[..n - 2] == data[..n - 2] && init[n - 2] == data[n - 2];
      NextWord(data, n - 2);
      assert Weighted(init) == Weighted(data[..n - 2]) + data[n - 2] as int * 256;
    }
  }

  /** The checksum from the octets: what it lacks to 65535 is the weighted sum modulo 65535, and 0 only if that sum is. */
  lemma ChecksumOfOctets(data: bytes)
    ensures (0xFFFF - ChecksumOf(data)) % 0xFFFF == Weighted(data) % 0xFFFF
    ensures ChecksumOf(data) == 0xFFFF <==> Weighted(data) == 0
  {
    hide Fold, Sum, Words;
    WordsWeigh(data);
    FoldIs(Sum(Words(data)));
  }
}
