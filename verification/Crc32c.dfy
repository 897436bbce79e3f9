/** CRC-32C as the fabric computes it: a 256-entry table driven one byte at a
    time over an inverted 32-bit register (include/ncf/core/crc32c.hpp).

    A register is its 32 bits, least significant first, so that shifting and
    exclusive-or are plain sequence operations. The reference definition feeds
    the message to the register one bit at a time; the table form, the checksum
    of pieces and the detection of bursts are all related to it. */
module Crc32c {
  import opened Words

  type Bits32 = r: seq<bool> | |r| == 32 witness seq(32, i => false)

  /** The low `k` bits of `n`. */
  function Bits(n: nat, k: nat): (r: seq<bool>)
    ensures |r| == k
    decreases k, n
  {
    if k == 0 then [] else [n % 2 == 1] + Bits(n / 2, k - 1)
  }

  function Number(r: seq<bool>): nat {
    if r == [] then 0 else (if r[0] then 1 else 0) + 2 * Number(r[1..])
  }

  function Pow2(k: nat): (n: nat)
    ensures n > 0
  {
    if k == 0 then 1 else 2 * Pow2(k - 1)
  }

  function Zeros(k: nat): (r: seq<bool>)
    ensures |r| == k
  {
    seq(k, i => false)
  }

  /** 0x82F63B78, the reflected Castagnoli polynomial, least significant nibble first. */
  const POLY: Bits32 :=
    [false, false, false, true] + ([true, true, true, false] + ([true, true, false, true] + ([true, true, false, false]
      + ([false, true, true, false] + ([true, true, true, true] + ([false, true, false, false]
      + ([false, false, false, true] + [])))))))

  function Xor(a: Bits32, b: Bits32): Bits32 {
    seq(32, i requires 0 <= i < 32 => a[i] != b[i])
  }

  function Not(a: Bits32): Bits32 {
    seq(32, i requires 0 <= i < 32 => !a[i])
  }

  /** The register moved down by `k` bits. */
  function Down(a: Bits32, k: nat): Bits32
    requires k <= 32
  {
    a[k..] + Zeros(k)
  }

  /** Feed one message bit: shift, and subtract the polynomial when a one falls out. */
  function Step(c: Bits32, bit: bool): Bits32 {
    if c[0] != bit then Xor(POLY, Down(c, 1)) else Down(c, 1)
  }

  function Feed(c: Bits32, bits: seq<bool>): Bits32
    decreases |bits|
  {
    if bits == [] then c else Feed(Step(c, bits[0]), bits[1..])
  }

  /** The message bits of a byte string, low bit of each byte first. */
  function Message(data: seq<u8>): (bits: seq<bool>)
    ensures |bits| == 8 * |data|
  {
    if data == [] then [] else Bits(data[0], 8) + Message(data[1..])
  }

  /** The checksum of `data` continued from `seed`: the register is inverted on
      entry and on exit. */
  function Continue(seed: u32, data: seq<u8>): u32 {
    Value(Not(Feed(Not(Bits(seed, 32)), Message(data))))
  }

  function Crc(data: seq<u8>): u32 {
    Continue(0, data)
  }

  function Value(r: Bits32): u32 {
    NumberBound(r);
    Pow2At32();
    Number(r)
  }

  // ---- Numbers and bits -----------------------------------------------------

  lemma {:induction false} NumberBound(r: seq<bool>)
    ensures Number(r) < Pow2(|r|)
  {
    if r != [] {
      NumberBound(r[1..]);
    }
  }

  lemma {:induction false} Pow2At32()
    ensures Pow2(32) == 0x1_0000_0000 && Pow2(8) == 0x100
  {
    assert Pow2(4) == 16;
    assert Pow2(8) == 16 * Pow2(4);
    assert Pow2(12) == 16 * Pow2(8);
    assert Pow2(16) == 16 * Pow2(12);
    assert Pow2(20) == 16 * Pow2(16);
    assert Pow2(24) == 16 * Pow2(20);
    assert Pow2(28) == 16 * Pow2(24);
    assert Pow2(32) == 16 * Pow2(28);
  }

  lemma {:induction false} NumberOfBits(n: nat, k: nat)
    requires n < Pow2(k)
    ensures Number(Bits(n, k)) == n
    decreases k
  {
    if k > 0 {
      NumberOfBits(n / 2, k - 1);
      assert Bits(n, k)[1..] == Bits(n / 2, k - 1);
    }
  }

  lemma {:induction false} BitsOfNumber(r: seq<bool>)
    ensures Bits(Number(r), |r|) == r
  {
    if r != [] {
      BitsOfNumber(r[1..]);
      assert Number(r) / 2 == Number(r[1..]);
      assert r == [r[0]] + r[1..];
    }
  }

  // ---- Feeding is linear and can be undone ----------------------------------

  lemma {:induction false} StepXor(a: Bits32, b: Bits32, x: bool, y: bool)
    ensures Step(Xor(a, b), x != y) == Xor(Step(a, x), Step(b, y))
  {
    assert forall i | 0 <= i < 31 :: Down(Xor(a, b), 1)[i] == (Down(a, 1)[i] != Down(b, 1)[i]);
  }

  /** Feeding nothing but zeros distributes over exclusive-or. */
  lemma {:induction false} ZerosXor(a: Bits32, b: Bits32, n: nat)
    ensures Feed(Xor(a, b), Zeros(n)) == Xor(Feed(a, Zeros(n)), Feed(b, Zeros(n)))
    decreases n
  {
    if n > 0 {
      assert Zeros(n)[1..] == Zeros(n - 1);
      StepXor(a, b, false, false);
      ZerosXor(Step(a, false), Step(b, false), n - 1);
    }
  }

  lemma {:induction false} StepInjective(a: Bits32, b: Bits32, x: bool)
    requires Step(a, x) == Step(b, x)
    ensures a == b
  {
    assert POLY[31];
    assert Step(a, x)[31] == (a[0] != x) && Step(b, x)[31] == (b[0] != x);
    forall i | 0 < i < 32
      ensures a[i] == b[i]
    {
      assert Down(a, 1)[i - 1] == a[i] && Down(b, 1)[i - 1] == b[i];
      assert Step(a, x)[i - 1] == Step(b, x)[i - 1];
    }
  }

  lemma {:induction false} FeedInjective(a: Bits32, b: Bits32, bits: seq<bool>)
    requires Feed(a, bits) == Feed(b, bits)
    ensures a == b
    decreases |bits|
  {
    if bits != [] {
      FeedInjective(Step(a, bits[0]), Step(b, bits[0]), bits[1..]);
      StepInjective(a, b, bits[0]);
    }
  }

  lemma {:induction false} FeedConcat(c: Bits32, x: seq<bool>, y: seq<bool>)
    ensures Feed(c, x + y) == Feed(Feed(c, x), y)
    decreases |x|
  {
    if x == [] {
      assert x + y == y;
    } else {
      assert (x + y)[1..] == x[1..] + y;
      FeedConcat(Step(c, x[0]), x[1..], y);
    }
  }

  function Pad(bits: seq<bool>): Bits32
    requires |bits| <= 32
  {
    bits + Zeros(32 - |bits|)
  }

  lemma {:induction false} StepAbsorb(c: Bits32, bits: seq<bool>)
    requires 0 < |bits| <= 32
    ensures Step(Xor(c, Pad(bits)), false) == Xor(Step(c, bits[0]), Pad(bits[1..]))
  {
    var high: Bits32 := [false] + Pad(bits[1..])[..31];
    var bit: Bits32 := [bits[0]] + Zeros(31);
    assert Xor(Xor(c, bit), high) == Xor(c, Pad(bits));
    StepXor(Xor(c, bit), high, false, false);
    assert Down(high, 1) == Pad(bits[1..]);
    assert Down(Xor(c, bit), 1) == Down(c, 1);
  }

  /** Up to 32 message bits can be folded into the register first and shifted out after. */
  lemma {:induction false} Absorb(c: Bits32, bits: seq<bool>)
    requires |bits| <= 32
    ensures Feed(c, bits) == Feed(Xor(c, Pad(bits)), Zeros(|bits|))
    decreases |bits|
  {
    if bits == [] {
      assert Xor(c, Pad(bits)) == c;
    } else {
      StepAbsorb(c, bits);
      assert Zeros(|bits|)[1..] == Zeros(|bits[1..]|);
      Absorb(Step(c, bits[0]), bits[1..]);
    }
  }

  /** A register whose low bits are clear is only moved down. */
  lemma {:induction false} FeedHigh(c: Bits32, n: nat)
    requires n <= 32 && forall i | 0 <= i < n :: !c[i]
    ensures Feed(c, Zeros(n)) == Down(c, n)
    decreases n
  {
    if n == 0 {
      assert Down(c, 0) == c;
    } else {
      assert Zeros(n)[1..] == Zeros(n - 1);
      FeedHigh(Down(c, 1), n - 1);
      assert Down(Down(c, 1), n - 1) == Down(c, n);
    }
  }

  // ---- Table form = bitwise form --------------------------------------------

  lemma {:induction false} SplitAt(x: Bits32, c: Bits32, n: nat)
    requires n <= 32 && x[n..] == c[n..]
    ensures var high: Bits32 := Zeros(n) + x[n..];
            Xor(Pad(x[..n]), high) == x && Down(high, n) == Down(c, n)
  {
  }

  /** Feeding a short word is one table lookup on the low bits and one move down. */
  lemma {:induction false} Lookup(c: Bits32, bits: seq<bool>)
    requires |bits| <= 32
    ensures var x := Xor(c, Pad(bits));
            Feed(c, bits) == Xor(Feed(Pad(x[..|bits|]), Zeros(|bits|)), Down(c, |bits|))
  {
    var n := |bits|;
    var x := Xor(c, Pad(bits));
    var high: Bits32 := Zeros(n) + x[n..];
    Absorb(c, bits);
    SplitAt(x, c, n);
    ZerosXor(Pad(x[..n]), high, n);
    FeedHigh(high, n);
  }

  function Entry(index: u8): Bits32 {
    Feed(Pad(Bits(index, 8)), Zeros(8))
  }

  lemma {:induction false} LookupByte(c: Bits32, b: u8)
    ensures var low := Xor(c, Pad(Bits(b, 8)))[..8];
            Number(low) < 0x100 && Feed(c, Bits(b, 8)) == Xor(Entry(Number(low)), Down(c, 8))
  {
    var low := Xor(c, Pad(Bits(b, 8)))[..8];
    NumberBound(low);
    Pow2At32();
    BitsOfNumber(low);
    Lookup(c, Bits(b, 8));
  }

  /** The first `n` words of `t` are the table entries of their indices. */
  ghost predicate Filled(t: seq<u32>, n: nat)
    requires n <= |t| <= 256
  {
    n == 0 || (Filled(t, n - 1) && t[n - 1] == Value(Entry(n - 1)))
  }

  lemma {:induction false} FilledUpdate(t: seq<u32>, n: nat, i: nat, v: u32)
    requires n <= i < |t| <= 256 && Filled(t, n)
    ensures Filled(t[i := v], n)
    decreases n
  {
    hide Entry;
    if n > 0 {
      FilledUpdate(t, n - 1, i, v);
    }
  }

  lemma {:induction false} FilledAt(t: seq<u32>, n: nat, i: nat)
    requires i < n <= |t| <= 256 && Filled(t, n)
    ensures t[i] == Value(Entry(i))
    decreases n
  {
    hide Entry;
    if i < n - 1 {
      FilledAt(t, n - 1, i);
    }
  }

  /** The 256-entry table and the checksum loop over it. */
  class Table {
    var entries: array<u32>

    ghost predicate Valid()
      reads this, entries
    {
      entries.Length == 256 && Filled(entries[..], 256)
    }

    constructor ()
      ensures Valid() && fresh(entries)
    {
      entries := new u32[256];
      new;
      Fill(entries);
    }

    static method Fill(t: array<u32>)
      requires t.Length <= 256
      modifies t
      ensures Filled(t[..], t.Length)
    {
      for i := 0 to t.Length
        invariant Filled(t[..], i)
      {
        var c := MakeEntry(i);
        FilledUpdate(t[..], i, i, Value(c));
        t[i] := Value(c);
      }
    }

    static method MakeEntry(index: u8) returns (c: Bits32)
      ensures c == Entry(index)
    {
      c := Pad(Bits(index, 8));
      for bit := 0 to 8
        invariant Entry(index) == Feed(c, Zeros(8 - bit))
      {
        assert Zeros(8 - bit)[1..] == Zeros(7 - bit);
        c := if c[0] then Xor(POLY, Down(c, 1)) else Down(c, 1);
      }
    }

    /** `crc32c_continue`: one table lookup per byte gives the polynomial checksum. */
    method ContinueWith(seed: u32, data: seq<u8>) returns (crc: u32)
      requires Valid()
      ensures crc == Continue(seed, data)
    {
      var c := Not(Bits(seed, 32));
      for i := 0 to |data|
        invariant Feed(Not(Bits(seed, 32)), Message(data)) == Feed(c, Message(data[i..]))
      {
        FeedConcat(c, Bits(data[i], 8), Message(data[i + 1..]));
        assert data[i..][1..] == data[i + 1..];
        LookupByte(c, data[i]);
        var low := Xor(c, Pad(Bits(data[i], 8)))[..8];
        FilledAt(entries[..], 256, Number(low));
        BitsOfNumber(Entry(Number(low)));
        c := Xor(Bits(entries[Number(low)], 32), Down(c, 8));
      }
      crc := Value(Not(c));
    }
  }

  // ---- Incremental = one-shot -----------------------------------------------

  lemma {:induction false} MessageConcat(x: seq<u8>, y: seq<u8>)
    ensures Message(x + y) == Message(x) + Message(y)
  {
    if x == [] {
      assert x + y == y;
    } else {
      assert (x + y)[1..] == x[1..] + y;
      MessageConcat(x[1..], y);
    }
  }

  /** Inverting on exit and again on entry gives the register back. */
  lemma {:induction false} ExitEntry(c: Bits32)
    ensures Not(Bits(Value(Not(c)), 32)) == c
  {
    BitsOfNumber(Not(c));
  }

  /** Continuing a checksum over the rest of the data gives the checksum of the whole. */
  lemma {:induction false} ContinueConcat(seed: u32, x: seq<u8>, y: seq<u8>)
    ensures Continue(seed, x + y) == Continue(Continue(seed, x), y)
  {
    var c := Not(Bits(seed, 32));
    MessageConcat(x, y);
    FeedConcat(c, Message(x), Message(y));
    ExitEntry(Feed(c, Message(x)));
  }

  // ---- Detection ------------------------------------------------------------

  lemma {:induction false} XorInjective(a: Bits32, v: Bits32, w: Bits32)
    requires Xor(a, v) == Xor(a, w)
    ensures v == w
  {
    forall i | 0 <= i < 32
      ensures v[i] == w[i]
    {
      assert Xor(a, v)[i] == Xor(a, w)[i];
    }
  }

  /** The register left behind determines a word of up to 32 bits. */
  lemma {:induction false} WordDetermined(c: Bits32, v: seq<bool>, w: seq<bool>)
    requires |v| == |w| <= 32 && Feed(c, v) == Feed(c, w)
    ensures v == w
  {
    Absorb(c, v);
    Absorb(c, w);
    FeedInjective(Xor(c, Pad(v)), Xor(c, Pad(w)), Zeros(|v|));
    XorInjective(c, Pad(v), Pad(w));
    assert v == Pad(v)[..|v|] && w == Pad(w)[..|w|];
  }

  lemma {:induction false} FeedThree(c: Bits32, p: seq<bool>, v: seq<bool>, q: seq<bool>)
    ensures Feed(c, p + v + q) == Feed(Feed(Feed(c, p), v), q)
  {
    FeedConcat(c, p + v, q);
    FeedConcat(c, p, v);
  }

  lemma {:induction false} CutThree(s: seq<bool>, i: nat, j: nat)
    requires i <= j <= |s|
    ensures s == s[..i] + s[i..j] + s[j..]
  {
  }

  /** Any burst: two messages that differ only inside one window of at most 32
      bits, on no particular byte boundary, have different checksums. */
  lemma {:induction false} BurstDetected(seed: u32, x: seq<u8>, y: seq<u8>, i: nat, j: nat)
    requires |x| == |y| && i <= j <= i + 32 && j <= |Message(x)|
    requires Message(x)[..i] == Message(y)[..i] && Message(x)[j..] == Message(y)[j..]
    requires x != y
    ensures Continue(seed, x) != Continue(seed, y)
  {
    if Continue(seed, x) == Continue(seed, y) {
      var c := Not(Bits(seed, 32));
      var mx, my := Message(x), Message(y);
      ExitEntry(Feed(c, mx));
      ExitEntry(Feed(c, my));
      assert Feed(c, mx) == Feed(c, my);
      CutThree(mx, i, j);
      CutThree(my, i, j);
      BurstDetermined(c, mx[..i], mx[i..j], my[i..j], mx[j..]);
      MessageInjective(x, y);
    }
  }

  lemma {:induction false} BurstDetermined(c: Bits32, p: seq<bool>, v: seq<bool>, w: seq<bool>, q: seq<bool>)
    requires |v| == |w| <= 32 && Feed(c, p + v + q) == Feed(c, p + w + q)
    ensures v == w
  {
    FeedThree(c, p, v, q);
    FeedThree(c, p, w, q);
    FeedInjective(Feed(Feed(c, p), v), Feed(Feed(c, p), w), q);
    WordDetermined(Feed(c, p), v, w);
  }

  lemma {:induction false} MessageInjective(x: seq<u8>, y: seq<u8>)
    requires Message(x) == Message(y)
    ensures x == y
  {
    if x != [] {
      Pow2At32();
      NumberOfBits(x[0], 8);
      NumberOfBits(y[0], 8);
      assert Bits(x[0], 8) == Message(x)[..8] == Bits(y[0], 8);
      assert Message(x[1..]) == Message(x)[8..] == Message(y[1..]);
      MessageInjective(x[1..], y[1..]);
      assert x == [x[0]] + x[1..] && y == [y[0]] + y[1..];
    }
  }

  /** A change confined to four consecutive bytes changes the checksum. */
  lemma {:induction false} FourBytesDetected(seed: u32, before: seq<u8>, v: seq<u8>, w: seq<u8>, after: seq<u8>)
    requires |v| == |w| <= 4 && v != w
    ensures Continue(seed, before + v + after) != Continue(seed, before + w + after)
  {
    var x, y := before + v + after, before + w + after;
    MessageConcat(before + v, after);
    MessageConcat(before + w, after);
    MessageConcat(before, v);
    MessageConcat(before, w);
    var i, j := 8 * |before|, 8 * |before| + 8 * |v|;
    assert Message(x)[..i] == Message(before) == Message(y)[..i];
    assert Message(x)[j..] == Message(after) == Message(y)[j..];
    assert x[|before|..|before| + |v|] == v && y[|before|..|before| + |v|] == w;
    BurstDetected(seed, x, y, i, j);
  }

  lemma {:induction false} MessageFive(v: seq<u8>)
    requires |v| == 5
    ensures Message(v)[..1] == [v[0] % 2 == 1] && Message(v)[33..] == Bits(v[4] / 2, 7)
  {
    var head, last := v[..4], v[4..];
    assert v == head + last && last == [v[4]];
    MessageConcat(head, last);
    assert last[1..] == [];
    assert Message(last) == Bits(v[4], 8) + [];
    assert Message(v)[32..] == Message(last);
    assert Bits(v[4], 8)[1..] == Bits(v[4] / 2, 7);
    assert Message(v)[33..] == Message(last)[1..];
  }

  /** So does a change in five bytes whose span is still within 32 bits: the first byte
      keeps its low bit and the last changes at most that. */
  lemma {:induction false} FiveBytesDetected(seed: u32, before: seq<u8>, v: seq<u8>, w: seq<u8>, after: seq<u8>)
    requires |v| == |w| == 5 && v != w && v[0] % 2 == w[0] % 2 && v[4] / 2 == w[4] / 2
    ensures Continue(seed, before + v + after) != Continue(seed, before + w + after)
  {
    hide Message, Continue, Bits;
    var x, y := before + v + after, before + w + after;
    MessageConcat(before + v, after);
    MessageConcat(before + w, after);
    MessageConcat(before, v);
    MessageConcat(before, w);
    MessageFive(v);
    MessageFive(w);
    var i, j := 8 * |before| + 1, 8 * |before| + 33;
    assert Message(x)[..i] == Message(before) + Message(v)[..1] == Message(y)[..i];
    assert Message(x)[j..] == Message(v)[33..] + Message(after) == Message(y)[j..];
    assert x[|before|..|before| + |v|] == v && y[|before|..|before| + |v|] == w;
    BurstDetected(seed, x, y, i, j);
  }

  lemma {:induction false} Updated(data: seq<u8>, i: nat, b: u8)
    requires i < |data|
    ensures data == data[..i] + [data[i]] + data[i + 1..]
    ensures data[i := b] == data[..i] + [b] + data[i + 1..]
  {
  }

  /** Changing one byte changes the checksum. */
  lemma {:induction false} ByteDetected(seed: u32, data: seq<u8>, i: nat, b: u8)
    requires i < |data| && data[i] != b
    ensures Continue(seed, data[i := b]) != Continue(seed, data)
  {
    Updated(data, i, b);
    FourBytesDetected(seed, data[..i], [data[i]], [b], data[i + 1..]);
  }

  /** ... in particular the one-shot checksum. */
  lemma {:induction false} CrcDetects(data: seq<u8>, i: nat, x: u8)
    requires i < |data| && data[i] != x
    ensures Crc(data[i := x]) != Crc(data)
  {
    ByteDetected(0, data, i, x);
  }

  /** Put four bits below a number: sixteen times the number and a digit. */
  lemma {:induction false} Nibble(a: bool, b: bool, c: bool, d: bool, rest: seq<bool>,
                                  digit: nat) returns (all: seq<bool>)
    requires digit == (if a then 1 else 0) + (if b then 2 else 0) + (if c then 4 else 0) + (if d then 8 else 0)
    ensures all == [a, b, c, d] + rest && Number(all) == digit + 16 * Number(rest)
  {
    all := [a, b, c, d] + rest;
    assert all[1..][1..][1..][1..] == rest;
    assert Number(all[1..][1..][1..]) == (if d then 1 else 0) + 2 * Number(rest);
    assert Number(all[1..][1..]) == (if c then 1 else 0) + 2 * Number(all[1..][1..][1..]);
    assert Number(all[1..]) == (if b then 1 else 0) + 2 * Number(all[1..][1..]);
  }

  /** The polynomial's bits are those of 0x82F63B78. */
  lemma {:induction false} PolyNumber()
    ensures Number(POLY) == 0x82F6_3B78
  {
    var t8: seq<bool> := [];
    var t7 := Nibble(false, false, false, true, t8, 0x8);
    var t6 := Nibble(false, true, false, false, t7, 0x2);
    var t5 := Nibble(true, true, true, true, t6, 0xF);
    var t4 := Nibble(false, true, true, false, t5, 0x6);
    var t3 := Nibble(true, true, false, false, t4, 0x3);
    var t2 := Nibble(true, true, false, true, t3, 0xB);
    var t1 := Nibble(true, true, true, false, t2, 0x7);
    var t0 := Nibble(false, false, false, true, t1, 0x8);
    assert t0 == POLY;
  }
}
