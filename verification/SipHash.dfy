/** SipHash-2-4 as pkg/selector/selector.go computes it in place, against the definition in
    section 2 of "SipHash: a fast short-input PRF" by Aumasson and Bernstein. */
module SipHash {

  datatype Words = Words(v0: bv64, v1: bv64, v2: bv64, v3: bv64)

  // The word operations, each under a name of its own.

  function Add(x: bv64, y: bv64): bv64 { x + y }

  function Sub(x: bv64, y: bv64): bv64 { x - y }

  function Xor(x: bv64, y: bv64): bv64 { x ^ y }

  function Or(x: bv64, y: bv64): bv64 { x | y }

  function RotateLeft(x: bv64, k: bv64): bv64
    requires 0 < k < 64
  {
    (x << k) | (x >> (64 - k))
  }

  /** A byte moved up by `s` bits. */
  function Place(b: bv8, s: bv64): bv64
    requires s < 64
  {
    (b as bv64) << s
  }

  /** Eight bytes, the first the least significant. */
  function Little(b0: bv8, b1: bv8, b2: bv8, b3: bv8, b4: bv8, b5: bv8, b6: bv8, b7: bv8): bv64 {
    var high := Or(Or(Or(Place(b7, 56), Place(b6, 48)), Place(b5, 40)), Place(b4, 32));
    Or(Or(Or(Or(high, Place(b3, 24)), Place(b2, 16)), Place(b1, 8)), Place(b0, 0))
  }

  /** The little-endian word at the front of `b`. */
  function Word(b: seq<bv8>): bv64
    requires |b| >= 8
  {
    Little(b[0], b[1], b[2], b[3], b[4], b[5], b[6], b[7])
  }

  // ----- The definition -----

  /** One SipRound: two mixing layers, each on two pairs at once. */
  function Round(v: Words): Words {
    var a0, a2 := Add(v.v0, v.v1), Add(v.v2, v.v3);
    var a1, a3 := Xor(RotateLeft(v.v1, 13), a0), Xor(RotateLeft(v.v3, 16), a2);
    var b2, b0 := Add(a2, a1), Add(RotateLeft(a0, 32), a3);
    var b1, b3 := Xor(RotateLeft(a1, 17), b2), Xor(RotateLeft(a3, 21), b0);
    Words(b0, b1, RotateLeft(b2, 32), b3)
  }

  /** Its inverse. */
  function Unround(v: Words): Words {
    var b2 := RotateLeft(v.v2, 32);
    var a1, a3 := RotateLeft(Xor(v.v1, b2), 47), RotateLeft(Xor(v.v3, v.v0), 43);
    var a2, a0 := Sub(b2, a1), RotateLeft(Sub(v.v0, a3), 32);
    var v1, v3 := RotateLeft(Xor(a1, a0), 51), RotateLeft(Xor(a3, a2), 48);
    Words(Sub(a0, v1), v1, Sub(a2, v3), v3)
  }

  function Compress(v: Words, m: bv64): Words {
    var w := Round(Round(v.(v3 := Xor(v.v3, m))));
    w.(v0 := Xor(w.v0, m))
  }

  function Absorb(v: Words, ms: seq<bv64>): Words {
    if ms == [] then v else Compress(Absorb(v, ms[..|ms| - 1]), ms[|ms| - 1])
  }

  function Zeros(n: nat): (z: seq<bv8>)
    ensures |z| == n && forall i :: 0 <= i < n ==> z[i] == 0
  {
    seq(n, i => 0)
  }

  function LengthByte(b: seq<bv8>): bv8 {
    (|b| % 256) as bv8
  }

  /** The message, zeros, and its length modulo 256, to a whole number of words. */
  function Padded(b: seq<bv8>): (p: seq<bv8>)
    ensures |p| % 8 == 0
  {
    b + Zeros(7 - |b| % 8) + [LengthByte(b)]
  }

  function WordsOf(p: seq<bv8>): seq<bv64> {
    if |p| < 8 then [] else [Word(p)] + WordsOf(p[8..])
  }

  function Finish(v: Words): bv64 {
    var w := Round(Round(Round(Round(v.(v2 := Xor(v.v2, 0xff))))));
    Xor(Xor(Xor(w.v0, w.v1), w.v2), w.v3)
  }

  function Keyed(k0: bv64, k1: bv64): Words {
    Words(Xor(0x736f6d6570736575, k0), Xor(0x646f72616e646f6d, k1), Xor(0x6c7967656e657261, k0),
        Xor(0x7465646279746573, k1))
  }

  function SipHash24(k0: bv64, k1: bv64, b: seq<bv8>): bv64 {
    Finish(Absorb(Keyed(k0, k1), WordsOf(Padded(b))))
  }

  // The bytes of "selector" and "stickeys".
  const KEY0 := Little(0x73, 0x65, 0x6c, 0x65, 0x63, 0x74, 0x6f, 0x72)
  const KEY1 := Little(0x73, 0x74, 0x69, 0x63, 0x6b, 0x65, 0x79, 0x73)

  // ----- The code -----

  /** doSipRound, one assignment at a time. */
  method DoSipRound(u0: bv64, u1: bv64, u2: bv64, u3: bv64) returns (v0: bv64, v1: bv64, v2: bv64, v3: bv64)
    ensures Words(v0, v1, v2, v3) == Round(Words(u0, u1, u2, u3))
  {
    hide Add, Xor, RotateLeft;
    v0, v1, v2, v3 := u0, u1, u2, u3;
    v0 := Add(v0, v1);
    v1 := RotateLeft(v1, 13);
    v1 := Xor(v1, v0);
    v0 := RotateLeft(v0, 32);
    v2 := Add(v2, v3);
    v3 := RotateLeft(v3, 16);
    v3 := Xor(v3, v2);
    v0 := Add(v0, v3);
    v3 := RotateLeft(v3, 21);
    v3 := Xor(v3, v0);
    v2 := Add(v2, v1);
    v1 := RotateLeft(v1, 17);
    v1 := Xor(v1, v2);
    v2 := RotateLeft(v2, 32);
  }

  lemma OrNothing(x: bv64)
    ensures Or(x, Place(0, 48)) == x && Or(x, Place(0, 40)) == x && Or(x, Place(0, 32)) == x && Or(x, Place(0, 24)) == x
    ensures Or(x, Place(0, 16)) == x && Or(x, Place(0, 8)) == x && Or(x, Place(0, 0)) == x
  {
  }

  /** The switch that falls through from the last byte present to the first. Only the low eight bits
      of the length survive the shift. */
  method TailWord(b: seq<bv8>, i: nat) returns (m: bv64)
    requires i <= |b| && |b| - i == |b| % 8
    ensures m == Word(b[i..] + Zeros(7 - |b| % 8) + [LengthByte(b)])
  {
    hide Or, Place, LengthByte;
    var n := |b| % 8;
    var last := LengthByte(b);
    ghost var t := b[i..] + Zeros(7 - n) + [last];
    m := Place(last, 56);
    OrNothing(m);
    if n >= 7 { m := Or(m, Place(b[i + 6], 48)); }
    assert m == Or(Place(t[7], 56), Place(t[6], 48));
    OrNothing(m);
    if n >= 6 { m := Or(m, Place(b[i + 5], 40)); }
    OrNothing(m);
    if n >= 5 { m := Or(m, Place(b[i + 4], 32)); }
    assert m == Or(Or(Or(Place(t[7], 56), Place(t[6], 48)), Place(t[5], 40)), Place(t[4], 32));
    ghost var high := m;
    OrNothing(m);
    if n >= 4 { m := Or(m, Place(b[i + 3], 24)); }
    OrNothing(m);
    if n >= 3 { m := Or(m, Place(b[i + 2], 16)); }
    assert m == Or(Or(high, Place(t[3], 24)), Place(t[2], 16));
    OrNothing(m);
    if n >= 2 { m := Or(m, Place(b[i + 1], 8)); }
    OrNothing(m);
    if n >= 1 { m := Or(m, Place(b[i], 0)); }
  }

  lemma {:induction false} WordsAppend(a: seq<bv8>, c: seq<bv8>)
    requires |a| % 8 == 0 && |c| == 8
    ensures WordsOf(a + c) == WordsOf(a) + [Word(c)]
  {
    hide Little;
    if a == [] {
      assert a + c == c && WordsOf(c[8..]) == [];
    } else {
      assert (a + c)[8..] == a[8..] + c;
      WordsAppend(a[8..], c);
      assert Word(a + c) == Word(a);
    }
  }

  lemma AbsorbNext(v: Words, front: seq<bv8>, c: seq<bv8>)
    requires |front| % 8 == 0 && |c| == 8
    ensures Absorb(v, WordsOf(front + c)) == Compress(Absorb(v, WordsOf(front)), Word(c))
  {
    hide Compress, Word;
    WordsAppend(front, c);
    var ms := WordsOf(front + c);
    assert ms[..|ms| - 1] == WordsOf(front);
  }

  /** The two rounds around one message word. */
  method Mix(u0: bv64, u1: bv64, u2: bv64, u3: bv64, m: bv64) returns (v0: bv64, v1: bv64, v2: bv64, v3: bv64)
    ensures Words(v0, v1, v2, v3) == Compress(Words(u0, u1, u2, u3), m)
  {
    hide Round, Xor;
    v0, v1, v2, v3 := u0, u1, u2, u3;
    v3 := Xor(v3, m);
    v0, v1, v2, v3 := DoSipRound(v0, v1, v2, v3);
    v0, v1, v2, v3 := DoSipRound(v0, v1, v2, v3);
    v0 := Xor(v0, m);
  }

  /** The last four rounds. */
  method Finalize(u0: bv64, u1: bv64, u2: bv64, u3: bv64) returns (h: bv64)
    ensures h == Finish(Words(u0, u1, u2, u3))
  {
    hide Round, Xor;
    var v0, v1, v2, v3 := u0, u1, Xor(u2, 0xff), u3;
    v0, v1, v2, v3 := DoSipRound(v0, v1, v2, v3);
    v0, v1, v2, v3 := DoSipRound(v0, v1, v2, v3);
    v0, v1, v2, v3 := DoSipRound(v0, v1, v2, v3);
    v0, v1, v2, v3 := DoSipRound(v0, v1, v2, v3);
    h := Xor(Xor(Xor(v0, v1), v2), v3);
  }

  /** sipHash24: for every byte string the in-place loop and tail compute SipHash-2-4. */
  method Hash(b: seq<bv8>) returns (h: bv64)
    ensures h == SipHash24(KEY0, KEY1, b)
  {
    hide Compress, Finish, Word, Little, Xor, LengthByte, Absorb, WordsOf;
    ghost var start := Keyed(KEY0, KEY1);
    var v0 := Xor(0x736f6d6570736575, KEY0);
    var v1 := Xor(0x646f72616e646f6d, KEY1);
    var v2 := Xor(0x6c7967656e657261, KEY0);
    var v3 := Xor(0x7465646279746573, KEY1);
    var n := |b|;
    var last := n - n % 8;
    var i := 0;
    assert b[..0] == [];
    AbsorbNothing(start);
    while i < last
      invariant 0 <= i <= last && i % 8 == 0
      invariant Words(v0, v1, v2, v3) == Absorb(start, WordsOf(b[..i]))
    {
      AbsorbNext(start, b[..i], b[i..i + 8]);
      assert b[..i] + b[i..i + 8] == b[..i + 8];
      v0, v1, v2, v3 := Mix(v0, v1, v2, v3, Word(b[i..i + 8]));
      i := i + 8;
    }
    var m := TailWord(b, i);
    ghost var tail := b[i..] + Zeros(7 - |b| % 8) + [LengthByte(b)];
    AbsorbNext(start, b[..i], tail);
    assert b[..i] + tail == Padded(b);
    v0, v1, v2, v3 := Mix(v0, v1, v2, v3, m);
    h := Finalize(v0, v1, v2, v3);
  }

  lemma AbsorbNothing(v: Words)
    ensures Absorb(v, WordsOf([])) == v
  {
  }

  // ----- The round is a bijection -----

  lemma Rotate13(x: bv64)
    ensures RotateLeft(RotateLeft(x, 13), 51) == x && RotateLeft(RotateLeft(x, 51), 13) == x
  {
  }

  lemma Rotate16(x: bv64)
    ensures RotateLeft(RotateLeft(x, 16), 48) == x && RotateLeft(RotateLeft(x, 48), 16) == x
  {
  }

  lemma Rotate17(x: bv64)
    ensures RotateLeft(RotateLeft(x, 17), 47) == x && RotateLeft(RotateLeft(x, 47), 17) == x
  {
  }

  lemma Rotate21(x: bv64)
    ensures RotateLeft(RotateLeft(x, 21), 43) == x && RotateLeft(RotateLeft(x, 43), 21) == x
  {
  }

  lemma Rotate32(x: bv64)
    ensures RotateLeft(RotateLeft(x, 32), 32) == x
  {
  }

  lemma RotateBack(x: bv64)
    ensures RotateLeft(RotateLeft(x, 13), 51) == x && RotateLeft(RotateLeft(x, 51), 13) == x
    ensures RotateLeft(RotateLeft(x, 16), 48) == x && RotateLeft(RotateLeft(x, 48), 16) == x
    ensures RotateLeft(RotateLeft(x, 17), 47) == x && RotateLeft(RotateLeft(x, 47), 17) == x
    ensures RotateLeft(RotateLeft(x, 21), 43) == x && RotateLeft(RotateLeft(x, 43), 21) == x
    ensures RotateLeft(RotateLeft(x, 32), 32) == x
  {
    hide RotateLeft;
    Rotate13(x);
    Rotate16(x);
    Rotate17(x);
    Rotate21(x);
    Rotate32(x);
  }

  lemma AddIs(x: bv64, y: bv64)
    ensures Add(x, y) == x + y
  {
  }

  lemma SubIs(x: bv64, y: bv64)
    ensures Sub(x, y) == x - y
  {
  }

  lemma SubOfSum(x: bv64, y: bv64)
    ensures Sub(x + y, y) == x
  {
  }

  lemma AddOfDifference(x: bv64, y: bv64)
    ensures Add(x - y, y) == x
  {
  }

  lemma UndoAdd(x: bv64, y: bv64)
    ensures Sub(Add(x, y), y) == x
  {
    hide Add, Sub;
    AddIs(x, y);
    SubOfSum(x, y);
  }

  lemma RedoAdd(x: bv64, y: bv64)
    ensures Add(Sub(x, y), y) == x
  {
    hide Add, Sub;
    SubIs(x, y);
    AddOfDifference(x, y);
  }

  lemma UndoXor(x: bv64, y: bv64)
    ensures Xor(Xor(x, y), y) == x
  {
  }

  lemma Undo(x: bv64, y: bv64)
    ensures Xor(Xor(x, y), y) == x && Sub(Add(x, y), y) == x && Add(Sub(x, y), y) == x
  {
    hide Add, Sub, Xor;
    UndoXor(x, y);
    UndoAdd(x, y);
    RedoAdd(x, y);
  }

  /** The round and its inverse undo each other on every state. */
  lemma RoundBijective(v: Words)
    ensures Unround(Round(v)) == v
    ensures Round(Unround(v)) == v
  {
    UndoRound(v);
    RedoRound(v);
  }

  lemma UndoRound(v: Words)
    ensures Unround(Round(v)) == v
  {
    hide RotateLeft, Xor, Add, Sub;
    var a0, a2 := Add(v.v0, v.v1), Add(v.v2, v.v3);
    var a1, a3 := Xor(RotateLeft(v.v1, 13), a0), Xor(RotateLeft(v.v3, 16), a2);
    var b2, b0 := Add(a2, a1), Add(RotateLeft(a0, 32), a3);
    Undo(RotateLeft(a1, 17), b2);
    Undo(RotateLeft(a3, 21), b0);
    RotateBack(b2);
    RotateBack(a1);
    RotateBack(a3);
    Undo(a2, a1);
    Undo(RotateLeft(a0, 32), a3);
    RotateBack(a0);
    Undo(RotateLeft(v.v1, 13), a0);
    Undo(RotateLeft(v.v3, 16), a2);
    RotateBack(v.v1);
    RotateBack(v.v3);
    Undo(v.v0, v.v1);
    Undo(v.v2, v.v3);
  }

  lemma RedoRound(v: Words)
    ensures Round(Unround(v)) == v
  {
    hide RotateLeft, Xor, Add, Sub;
    var b2 := RotateLeft(v.v2, 32);
    var a1, a3 := RotateLeft(Xor(v.v1, b2), 47), RotateLeft(Xor(v.v3, v.v0), 43);
    var a2, a0 := Sub(b2, a1), RotateLeft(Sub(v.v0, a3), 32);
    var v1, v3 := RotateLeft(Xor(a1, a0), 51), RotateLeft(Xor(a3, a2), 48);
    Undo(a0, v1);
    Undo(a2, v3);
    RotateBack(Xor(a1, a0));
    RotateBack(Xor(a3, a2));
    Undo(a1, a0);
    Undo(a3, a2);
    Undo(b2, a1);
    RotateBack(Sub(v.v0, a3));
    Undo(v.v0, a3);
    RotateBack(Xor(v.v1, b2));
    RotateBack(Xor(v.v3, v.v0));
    Undo(v.v1, b2);
    Undo(v.v3, v.v0);
    RotateBack(v.v2);
  }

  // ----- The published test vector -----

  lemma VectorRound1()
    ensures Round(Words(0x7469686173716475, 0x6b617f6d656e6665, 0x6b7f62616d677361, 0x7c6d6c6a717c6d7b))
         == Words(0x64668a929363847f, 0x4ed232083d9aa8dc, 0xf2f74892d8141a2e, 0x9290f9810552f4a8)
  {
  }

  lemma VectorRound2()
    ensures Round(Words(0x64668a929363847f, 0x4ed232083d9aa8dc, 0xf2f74892d8141a2e, 0x9290f9810552f4a8))
         == Words(0x4d07749cdd0858e0, 0x0d52f6f62a4f59a4, 0x634cb3577b01fd3d, 0xa5224d6f55c7d9c8)
  {
  }

  lemma VectorRound3()
    ensures Round(Words(0x4a017198de0a59e0, 0x0d52f6f62a4f59a4, 0x634cb3577b01fd3d, 0xaa2c40635ecdd0c0))
         == Words(0x557560fb6063d060, 0x4c8e675bd961133e, 0xbd3d002b1703a181, 0xfb9441179a4a7315)
  {
  }

  lemma VectorRound4()
    ensures Round(Words(0x557560fb6063d060, 0x4c8e675bd961133e, 0xbd3d002b1703a181, 0xfb9441179a4a7315))
         == Words(0x338bbea7645fb759, 0x414fc3fb98efe374, 0xccf13ea527b9f4bd, 0x5293f5da84008f82)
  {
  }

  lemma VectorRound5()
    ensures Round(Words(0x3c85b3ab6f55be51, 0x414fc3fb98efe374, 0xccf13ea527b9f442, 0x5293f5da84008f82))
         == Words(0xf2a55244a20e48fe, 0xac5ad16ccc3ca6e4, 0x9fe5adb0a52f393a, 0xfd41d55e88f30308)
  {
  }

  lemma VectorRound6()
    ensures Round(Words(0xf2a55244a20e48fe, 0xac5ad16ccc3ca6e4, 0x9fe5adb0a52f393a, 0xfd41d55e88f30308))
         == Words(0xb6c3fbdecc2ae4b4, 0x1638c86adc6b3cf0, 0x28b8b6ab62553d46, 0xc9465e86ec43eb95)
  {
  }

  lemma VectorRound7()
    ensures Round(Words(0xb6c3fbdecc2ae4b4, 0x1638c86adc6b3cf0, 0x28b8b6ab62553d46, 0xc9465e86ec43eb95))
         == Words(0x58101b167209a5e6, 0xf8792ae75b66e7dd, 0x1da14c3ec7f0b4f7, 0x7624ba8a41bc4ad9)
  {
  }

  lemma VectorRound8()
    ensures Round(Words(0x58101b167209a5e6, 0xf8792ae75b66e7dd, 0x1da14c3ec7f0b4f7, 0x7624ba8a41bc4ad9))
         == Words(0xf6bcd53893fecff1, 0x54b9964c7ea0d937, 0x1b38329c099bb55a, 0x1814bb89ad7be679)
  {
  }

  lemma VectorKeys()
    ensures Keyed(0x0706050403020100, 0x0f0e0d0c0b0a0908)
         == Words(0x7469686173716475, 0x6b617f6d656e6665, 0x6b7f62616d677361, 0x7b6b696e727e6c7b)
  {
  }

  lemma VectorXors()
    ensures Xor(0x7b6b696e727e6c7b, 0x0706050403020100) == 0x7c6d6c6a717c6d7b
    ensures Xor(0x4d07749cdd0858e0, 0x0706050403020100) == 0x4a017198de0a59e0
    ensures Xor(0xa5224d6f55c7d9c8, 0x0f0e0d0c0b0a0908) == 0xaa2c40635ecdd0c0
    ensures Xor(0x338bbea7645fb759, 0x0f0e0d0c0b0a0908) == 0x3c85b3ab6f55be51
    ensures Xor(0xccf13ea527b9f4bd, 0xff) == 0xccf13ea527b9f442
  {
  }

  lemma VectorFold()
    ensures Xor(Xor(Xor(0xf6bcd53893fecff1, 0x54b9964c7ea0d937), 0x1b38329c099bb55a), 0x1814bb89ad7be679)
         == 0xa129ca6149be45e5
  {
  }

  lemma VectorFirst()
    ensures Compress(
              Words(0x7469686173716475, 0x6b617f6d656e6665, 0x6b7f62616d677361, 0x7b6b696e727e6c7b), 0x0706050403020100)
         == Words(0x4a017198de0a59e0, 0x0d52f6f62a4f59a4, 0x634cb3577b01fd3d, 0xa5224d6f55c7d9c8)
  {
    hide Round, Xor;
    VectorXors();
    VectorRound1();
    VectorRound2();
  }

  lemma VectorSecond()
    ensures Compress(
              Words(0x4a017198de0a59e0, 0x0d52f6f62a4f59a4, 0x634cb3577b01fd3d, 0xa5224d6f55c7d9c8), 0x0f0e0d0c0b0a0908)
         == Words(0x3c85b3ab6f55be51, 0x414fc3fb98efe374, 0xccf13ea527b9f4bd, 0x5293f5da84008f82)
  {
    hide Round, Xor;
    VectorXors();
    VectorRound3();
    VectorRound4();
  }

  lemma VectorFinish()
    ensures Finish(
              Words(0x3c85b3ab6f55be51, 0x414fc3fb98efe374, 0xccf13ea527b9f4bd, 0x5293f5da84008f82))
         == 0xa129ca6149be45e5
  {
    hide Round, Xor;
    VectorXors();
    VectorRound5();
    VectorRound6();
    VectorRound7();
    VectorRound8();
    VectorFold();
  }

  /** The bytes 0, 1, up to 14. */
  const VECTOR: seq<bv8> := [0, 1, 2, 3, 4, 5, 6, 7, 8, 9, 10, 11, 12, 13, 14]

  lemma VectorLittle()
    ensures Little(0, 1, 2, 3, 4, 5, 6, 7) == 0x0706050403020100
    ensures Little(8, 9, 10, 11, 12, 13, 14, 15) == 0x0f0e0d0c0b0a0908
  {
  }

  lemma VectorWords()
    ensures WordsOf(Padded(VECTOR)) == [0x0706050403020100, 0x0f0e0d0c0b0a0908]
  {
    hide Little;
    assert LengthByte(VECTOR) == 15;
    assert Zeros(0) == [];
    var p := Padded(VECTOR);
    assert p == [0, 1, 2, 3, 4, 5, 6, 7, 8, 9, 10, 11, 12, 13, 14, 15];
    assert p[8..] == [8, 9, 10, 11, 12, 13, 14, 15] && p[8..][8..] == [];
    VectorLittle();
    assert Word(p) == 0x0706050403020100 && Word(p[8..]) == 0x0f0e0d0c0b0a0908;
    assert WordsOf(p[8..]) == [Word(p[8..])] + WordsOf(p[8..][8..]);
  }

  /** The definition gives the value that Appendix A of the paper publishes for the key of the bytes 0
      to 15 and the message of the bytes 0 to 14. */
  lemma PublishedVector()
    ensures SipHash24(0x0706050403020100, 0x0f0e0d0c0b0a0908, VECTOR) == 0xa129ca6149be45e5
  {
    hide Little, Compress, Finish, Keyed, WordsOf, Padded;
    VectorWords();
    VectorKeys();
    VectorFirst();
    VectorSecond();
    VectorFinish();
    AbsorbTwo(Keyed(0x0706050403020100, 0x0f0e0d0c0b0a0908), 0x0706050403020100, 0x0f0e0d0c0b0a0908);
    hide Absorb;
  }

  lemma AbsorbTwo(v: Words, a: bv64, b: bv64)
    ensures Absorb(v, [a, b]) == Compress(Compress(v, a), b)
  {
    hide Compress;
    assert [a, b][..1] == [a] && [a][..0] == [];
    assert Absorb(v, []) == v;
    assert Absorb(v, [a]) == Compress(v, a);
  }

  /** The code's own key, the bytes of "selector" and of "stickeys". */
  lemma KeysAreText()
    ensures KEY0 == 0x726f7463656c6573 && KEY1 == 0x7379656b63697473
  {
  }
}
