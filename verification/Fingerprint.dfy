/** The compatibility fingerprint: FNV-1a over 64 bits (artifact.rs). */
module Fingerprint {

  newtype byte = x: int | 0 <= x < 0x100

  const BITS: nat := 8
  const WORD: nat := 0x1_0000_0000_0000_0000
  const OFFSET_BASIS: nat := 0xcbf29ce484222325
  const PRIME: nat := 0x100000001b3
  const INVERSE: nat := 0xce965057aff6957b // of PRIME modulo WORD

  // ---------------------------------------------------------- exclusive or

  predicate Odd(x: nat) {
    x % 2 == 1
  }

  function Put(high: nat, bit: bool): nat {
    2 * high + (if bit then 1 else 0)
  }

  /** `a` with its lowest `n` bits exclusive-ored with those of `b`. */
  function Xor(a: nat, b: nat, n: nat): nat {
    if n == 0 then a else Put(Xor(a / 2, b / 2, n - 1), Odd(a) != Odd(b))
  }

  /** `a` without its lowest `n` bits. */
  function Drop(a: nat, n: nat): nat {
    if n == 0 then a else Drop(a / 2, n - 1)
  }

  lemma Parts(high: nat, bit: bool)
    ensures Odd(Put(high, bit)) == bit && Put(high, bit) / 2 == high
  {
  }

  lemma Whole(x: nat)
    ensures Put(x / 2, Odd(x)) == x
  {
  }

  lemma {:induction false} XorUndoes(a: nat, b: nat, n: nat)
    ensures Xor(Xor(a, b, n), b, n) == a && Drop(Xor(a, b, n), n) == Drop(a, n)
  {
    if n != 0 {
      XorUndoes(a / 2, b / 2, n - 1);
      Parts(Xor(a / 2, b / 2, n - 1), Odd(a) != Odd(b));
      Whole(a);
    }
  }

  lemma {:induction false} XorSeparates(a: nat, b: nat, c: nat, n: nat)
    requires Drop(b, n) == Drop(c, n) && Xor(a, b, n) == Xor(a, c, n)
    ensures b == c
  {
    if n != 0 {
      Parts(Xor(a / 2, b / 2, n - 1), Odd(a) != Odd(b));
      Parts(Xor(a / 2, c / 2, n - 1), Odd(a) != Odd(c));
      XorSeparates(a / 2, b / 2, c / 2, n - 1);
      Whole(b);
      Whole(c);
    }
  }

  /** Bit `k`, counted from the lowest. */
  predicate Bit(x: nat, k: nat) {
    if k == 0 then x % 2 == 1 else Bit(x / 2, k - 1)
  }

  /** Among the lowest `n` bits exactly those change in which `b` has a one. */
  lemma {:induction false} XorBit(a: nat, b: nat, n: nat, k: nat)
    ensures Bit(Xor(a, b, n), k) == if k < n then Bit(a, k) != Bit(b, k) else Bit(a, k)
    decreases n
  {
    if n != 0 {
      Parts(Xor(a / 2, b / 2, n - 1), Odd(a) != Odd(b));
      if k != 0 {
        XorBit(a / 2, b / 2, n - 1, k - 1);
      }
    }
  }

  /** A number is determined by its bits. */
  lemma {:induction false} BitsDetermine(a: nat, b: nat)
    requires forall k: nat :: Bit(a, k) == Bit(b, k)
    ensures a == b
    decreases a + b
  {
    assert Bit(a, 0) == Bit(b, 0);
    if a != 0 || b != 0 {
      forall k: nat ensures Bit(a / 2, k) == Bit(b / 2, k) {
        assert Bit(a, k + 1) == Bit(b, k + 1);
      }
      BitsDetermine(a / 2, b / 2);
    }
  }

  lemma {:induction false} ZeroBits(k: nat)
    ensures !Bit(0, k)
  {
    if k != 0 {
      ZeroBits(k - 1);
    }
  }

  lemma {:induction false} BitDrop(a: nat, n: nat, k: nat)
    ensures Bit(a, n + k) == Bit(Drop(a, n), k)
    decreases n
  {
    if n != 0 {
      BitDrop(a / 2, n - 1, k);
    }
  }

  // ------------------------------------------------------------- one step

  /** Exclusive-or of a word with a zero-extended byte. */
  function Mix(hash: nat, b: byte): nat {
    Xor(hash, b as nat, BITS)
  }

  lemma DropTwo(a: nat, n: nat)
    ensures Drop(a, n + 2) == Drop(a / 4, n)
  {
  }

  lemma DropByte(a: nat)
    ensures Drop(a, 8) == a / 0x100
  {
    DropTwo(a, 6);
    DropTwo(a / 4, 4);
    DropTwo(a / 4 / 4, 2);
    DropTwo(a / 4 / 4 / 4, 0);
  }

  /** Mixing is exclusive or: a bit is set exactly if it is set in one of hash and byte but not in both. */
  lemma MixIsExclusiveOr(hash: nat, b: byte, k: nat)
    ensures Bit(Mix(hash, b), k) == (Bit(hash, k) != Bit(b as nat, k))
  {
    XorBit(hash, b as nat, 8, k);
    if 8 <= k {
      DropByte(b as nat);
      BitDrop(b as nat, 8, k - 8);
      ZeroBits(k - 8);
    }
  }

  /** Mixing keeps a word and is undone by itself. */
  lemma MixUndoes(hash: nat, b: byte)
    requires hash < WORD
    ensures Mix(hash, b) < WORD && Mix(Mix(hash, b), b) == hash
  {
    XorUndoes(hash, b as nat, 8);
    DropByte(hash);
    DropByte(Mix(hash, b));
  }

  lemma MixSeparates(hash: nat, b: byte, c: byte)
    requires Mix(hash, b) == Mix(hash, c)
    ensures b == c
  {
    DropByte(b as nat);
    DropByte(c as nat);
    XorSeparates(hash, b as nat, c as nat, 8);
  }

  /** Wrapping multiplication by the FNV prime. */
  function Times(x: nat): (r: nat)
    ensures r < WORD
  {
    x * PRIME % WORD
  }

  /** The prime is invertible modulo the word size, so the wrapping multiplication loses nothing. */
  lemma TimesUndoes(x: nat)
    requires x < WORD
    ensures Times(x) * INVERSE % WORD == x
  {
    var q := x * PRIME / WORD;
    assert Times(x) * INVERSE == x + (887285111055 * x - q * INVERSE) * WORD;
    Remainder(x, 887285111055 * x - q * INVERSE);
  }

  lemma Remainder(x: nat, k: int)
    requires x < WORD
    ensures (x + k * WORD) % WORD == x
  {
  }

  function Step(hash: nat, b: byte): (next: nat)
    ensures next < WORD
  {
    Times(Mix(hash, b))
  }

  /** One byte leads from different states to different states, and different bytes do so from one state. */
  lemma StepSeparates(hash: nat, other: nat, b: byte, c: byte)
    requires hash < WORD && other < WORD
    requires Step(hash, b) == Step(other, c) && (hash == other || b == c)
    ensures hash == other && b == c
  {
    MixUndoes(hash, b);
    MixUndoes(other, c);
    TimesUndoes(Mix(hash, b));
    TimesUndoes(Mix(other, c));
    if hash == other {
      MixSeparates(hash, b, c);
    }
  }

  // ---------------------------------------------------------- whole inputs

  /** FNV-1a as the published definition folds it over the bytes, starting from `hash`. */
  function Fold(hash: nat, bytes: seq<byte>): (result: nat)
    requires hash < WORD
    ensures result < WORD
    decreases |bytes|
  {
    if bytes == [] then hash else Fold(Step(hash, bytes[0]), bytes[1..])
  }

  lemma {:induction false} FoldConcat(hash: nat, a: seq<byte>, b: seq<byte>)
    requires hash < WORD
    ensures Fold(hash, a + b) == Fold(Fold(hash, a), b)
    decreases |a|
  {
    if a == [] {
      assert a + b == b;
    } else {
      assert (a + b)[1..] == a[1..] + b;
      FoldConcat(Step(hash, a[0]), a[1..], b);
    }
  }

  /** Two states stay different, or equal, through every common suffix. */
  lemma {:induction false} SuffixKeepsDifference(a: nat, b: nat, suffix: seq<byte>)
    requires a < WORD && b < WORD
    ensures Fold(a, suffix) == Fold(b, suffix) <==> a == b
    decreases |suffix|
  {
    if suffix != [] {
      SuffixKeepsDifference(Step(a, suffix[0]), Step(b, suffix[0]), suffix[1..]);
      if Step(a, suffix[0]) == Step(b, suffix[0]) {
        StepSeparates(a, b, suffix[0], suffix[0]);
      }
    }
  }

  ghost predicate DifferAtOnly(a: seq<byte>, b: seq<byte>, at: nat) {
    && at < |a| == |b| && a[at] != b[at]
    && forall k | 0 <= k < |a| && k != at :: a[k] == b[k]
  }

  lemma FoldSeparates(hash: nat, a: seq<byte>, b: seq<byte>, at: nat)
    requires hash < WORD && DifferAtOnly(a, b, at)
    ensures Fold(hash, a) != Fold(hash, b)
  {
    var suffix := a[at + 1..];
    assert a == a[..at] + ([a[at]] + suffix);
    assert b == a[..at] + ([b[at]] + suffix);
    FoldConcat(hash, a[..at], [a[at]] + suffix);
    FoldConcat(hash, a[..at], [b[at]] + suffix);
    var before := Fold(hash, a[..at]);
    FoldAfterFirst(before, a[at], suffix);
    FoldAfterFirst(before, b[at], suffix);
    if Fold(hash, a) == Fold(hash, b) {
      SuffixKeepsDifference(Step(before, a[at]), Step(before, b[at]), suffix);
      StepSeparates(before, before, a[at], b[at]);
    }
  }

  lemma FoldAfterFirst(hash: nat, b: byte, suffix: seq<byte>)
    requires hash < WORD
    ensures Fold(hash, [b] + suffix) == Fold(Step(hash, b), suffix)
  {
  }

  function Shift(high: nat, n: nat): nat {
    if n == 0 then high else 2 * Shift(high, n - 1)
  }

  lemma Half(high: nat, a: nat)
    ensures (2 * high + a) / 2 == high + a / 2 && Odd(2 * high + a) == Odd(a)
  {
  }

  lemma XorNext(a: nat, b: nat, n: nat)
    ensures Xor(a, b, n + 1) == Put(Xor(a / 2, b / 2, n), Odd(a) != Odd(b))
  {
  }

  /** Exclusive or works on low and high digits separately. */
  lemma {:induction false} XorSplit(h: nat, g: nat, a: nat, b: nat, m: nat, n: nat)
    requires a < Shift(1, m) && b < Shift(1, m)
    ensures Xor(Shift(h, m) + a, Shift(g, m) + b, m + n) == Shift(Xor(h, g, n), m) + Xor(a, b, m)
    decreases m
  {
    if m != 0 {
      XorSplit(h, g, a / 2, b / 2, m - 1, n);
      Half(Shift(h, m - 1), a);
      Half(Shift(g, m - 1), b);
      XorNext(Shift(h, m) + a, Shift(g, m) + b, m + n - 1);
      XorNext(a, b, m - 1);
    }
  }

  lemma ShiftFour(high: nat, n: nat)
    requires n == 4
    ensures Shift(high, n) == 16 * high
  {
    assert Shift(high, n - 4) == high;
    assert Shift(high, n - 2) == 4 * high;
  }

  /** Half bytes `p`, `q` of the hash meet half bytes `r`, `s` of the byte. */
  lemma NibbleStep(hash: nat, b: byte, high: nat, p: nat, q: nat, r: nat, s: nat, n: nat)
    requires hash == 256 * high + 16 * p + q && b as nat == 16 * r + s && n == 4
    requires p < 16 && q < 16 && r < 16 && s < 16
    ensures Mix(hash, b) == 256 * high + 16 * Xor(p, r, n) + Xor(q, s, n)
  {
    ShiftFour(1, n);
    ShiftFour(16 * high + p, n);
    ShiftFour(r, n);
    XorSplit(16 * high + p, r, q, s, n, n);
    ShiftFour(Xor(16 * high + p, r, n), n);
    ShiftFour(high, n);
    ShiftFour(0, n);
    XorSplit(high, 0, p, r, n, 0);
  }

  lemma FirstOfADigits(n: nat)
    requires n == 4
    ensures Xor(2, 6, n) == 4 && Xor(5, 1, n) == 4
  {
    XorNext(2, 6, n - 1);
    XorNext(1, 3, n - 2);
    XorNext(5, 1, n - 1);
    XorNext(2, 0, n - 2);
  }

  lemma FirstOfA(hash: nat, b: byte, n: nat)
    requires hash == 0xcbf29ce484222325 && b == 0x61 && n == 4
    ensures Step(hash, b) == 0xaf63dc4c8601ec8c
  {
    FirstOfADigits(n);
    NibbleStep(hash, b, 0xcbf29ce4842223, 2, 5, 6, 1, n);
  }

  lemma FirstOfFoDigits(n: nat)
    requires n == 4
    ensures Xor(2, 6, n) == 4 && Xor(5, 6, n) == 3
  {
    XorNext(2, 6, n - 1);
    XorNext(1, 3, n - 2);
    XorNext(5, 6, n - 1);
    XorNext(2, 3, n - 2);
  }

  lemma FirstOfFo(hash: nat, b: byte, n: nat)
    requires hash == 0xcbf29ce484222325 && b == 0x66 && n == 4
    ensures Step(hash, b) == 0xaf63db4c8601ead9
  {
    FirstOfFoDigits(n);
    NibbleStep(hash, b, 0xcbf29ce4842223, 2, 5, 6, 6, n);
  }

  lemma SecondOfFoDigits(n: nat)
    requires n == 4
    ensures Xor(13, 6, n) == 11 && Xor(9, 15, n) == 6
  {
    XorNext(13, 6, n - 1);
    XorNext(6, 3, n - 2);
    XorNext(9, 15, n - 1);
    XorNext(4, 7, n - 2);
  }

  lemma SecondOfFo(hash: nat, b: byte, n: nat)
    requires hash == 0xaf63db4c8601ead9 && b == 0x6f && n == 4
    ensures Step(hash, b) == 0x08985907b541d342
  {
    SecondOfFoDigits(n);
    NibbleStep(hash, b, 0xaf63db4c8601ea, 13, 9, 6, 15, n);
  }

  /** Published test vectors of FNV-1a/64: the empty string, "a" and "fo". */
  lemma TestVectors(hash: nat, bytes: seq<byte>)
    requires hash == OFFSET_BASIS
    ensures bytes == [] ==> Fold(hash, bytes) == 0xcbf29ce484222325
    ensures bytes == [0x61] ==> Fold(hash, bytes) == 0xaf63dc4c8601ec8c
    ensures bytes == [0x66, 0x6f] ==> Fold(hash, bytes) == 0x08985907b541d342
  {
    if bytes == [0x61] {
      FirstOfA(hash, bytes[0], 4);
      assert bytes == [bytes[0]] + [];
      FoldAfterFirst(hash, bytes[0], []);
    } else if bytes == [0x66, 0x6f] {
      FirstOfFo(hash, bytes[0], 4);
      var next := Step(hash, bytes[0]);
      SecondOfFo(next, bytes[1], 4);
      assert bytes == [bytes[0]] + ([bytes[1]] + []);
      FoldAfterFirst(hash, bytes[0], [bytes[1]] + []);
      FoldAfterFirst(next, bytes[1], []);
    }
  }

  // ----------------------------------------------------------- the program

  /** The bytes of "kagari-canonical-v2". */
  const DOMAIN: seq<byte> := [107, 97, 103, 97, 114, 105, 45, 99, 97, 110, 111, 110, 105, 99, 97, 108, 45, 118, 50]

  method OfStr(value: seq<byte>) returns (hash: nat)
    ensures hash < WORD && hash == Fold(OFFSET_BASIS, value)
  {
    hash := OFFSET_BASIS;
    for i := 0 to |value|
      invariant hash < WORD && Fold(hash, value[i..]) == Fold(OFFSET_BASIS, value)
    {
      assert value[i..][1..] == value[i + 1..];
      hash := Mix(hash, value[i]);
      hash := Times(hash);
    }
  }

  /** The writer that the serializer feeds. */
  class Sink {
    var hash: nat

    predicate Valid()
      reads this
    {
      hash < WORD
    }

    constructor (seed: nat)
      requires seed < WORD
      ensures Valid() && hash == seed
    {
      hash := seed;
    }

    method Write(bytes: seq<byte>) returns (written: nat)
      requires Valid()
      modifies this
      ensures Valid() && hash == Fold(old(hash), bytes) && written == |bytes|
    {
      for i := 0 to |bytes|
        invariant Valid() && Fold(hash, bytes[i..]) == Fold(old(hash), bytes)
      {
        assert bytes[i..][1..] == bytes[i + 1..];
        hash := Times(Mix(hash, bytes[i]));
      }
      return |bytes|;
    }
  }

  function Flatten(chunks: seq<seq<byte>>): seq<byte> {
    if chunks == [] then [] else Flatten(chunks[..|chunks| - 1]) + chunks[|chunks| - 1]
  }

  /** However a byte string is split into writes, the sink ends with the hash of the whole. */
  method Feed(sink: Sink, chunks: seq<seq<byte>>)
    requires sink.Valid()
    modifies sink
    ensures sink.Valid() && sink.hash == Fold(old(sink.hash), Flatten(chunks))
  {
    ghost var seed := sink.hash;
    for i := 0 to |chunks|
      invariant sink.Valid() && sink.hash == Fold(seed, Flatten(chunks[..i]))
    {
      assert chunks[..i + 1][..i] == chunks[..i];
      FoldConcat(seed, Flatten(chunks[..i]), chunks[i]);
      var _ := sink.Write(chunks[i]);
    }
    assert chunks[..|chunks|] == chunks;
  }

  /** The fingerprint of a value serialized as `chunks`: FNV-1a over the domain string and then all bytes. */
  method OfSerialized(chunks: seq<seq<byte>>) returns (hash: nat)
    ensures hash == Fold(OFFSET_BASIS, DOMAIN + Flatten(chunks))
  {
    var seed := OfStr(DOMAIN);
    FoldConcat(OFFSET_BASIS, DOMAIN, Flatten(chunks));
    var sink := new Sink(seed);
    Feed(sink, chunks);
    return sink.hash;
  }

  /** Changing exactly one byte of the canonical encoding always changes the fingerprint. */
  lemma OneByteChangesFingerprint(a: seq<byte>, b: seq<byte>, at: nat)
    requires DifferAtOnly(a, b, at)
    ensures Fold(OFFSET_BASIS, DOMAIN + a) != Fold(OFFSET_BASIS, DOMAIN + b)
  {
    FoldConcat(OFFSET_BASIS, DOMAIN, a);
    FoldConcat(OFFSET_BASIS, DOMAIN, b);
    FoldSeparates(Fold(OFFSET_BASIS, DOMAIN), a, b, at);
  }
}
