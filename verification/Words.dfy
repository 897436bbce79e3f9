/** Fixed-width unsigned integers and their little-endian byte strings, as every
    durable and wire field is written. */
module Words {
  type u8 = x: int | 0 <= x < 0x100
  type u16 = x: int | 0 <= x < 0x1_0000
  type u32 = x: int | 0 <= x < 0x1_0000_0000
  type u64 = x: int | 0 <= x < 0x1_0000_0000_0000_0000

  const MAX_U64: u64 := 0xFFFF_FFFF_FFFF_FFFF

  /** A number held to a bound. */
  function Clip(n: nat, bound: nat): (r: nat)
    ensures r <= bound && (n <= bound ==> r == n)
  {
    if n <= bound then n else bound
  }

  /** The number of values `k` bytes can hold. */
  function Span(k: nat): (n: nat)
    ensures n > 0
  {
    if k == 0 then 1 else 0x100 * Span(k - 1)
  }

  /** The low `k` bytes of `n`, least significant first. */
  function Le(n: nat, k: nat): (b: seq<u8>)
    ensures |b| == k
    decreases k, n
  {
    if k == 0 then [] else [n % 0x100] + Le(n / 0x100, k - 1)
  }

  /** Byte `i` is the `i`-th digit to the base 256, the least significant first. */
  lemma {:induction false} LeDigit(n: nat, k: nat, i: nat)
    requires i < k
    ensures Le(n, k)[i] == n / Span(i) % 0x100
    decreases k
  {
    if i > 0 {
      LeDigit(n / 0x100, k - 1, i - 1);
      DivideTwice(n, Span(i - 1));
      assert Le(n, k)[i] == Le(n / 0x100, k - 1)[i - 1];
    }
  }

  lemma {:induction false} DivideTwice(n: nat, m: nat)
    requires m > 0
    ensures n / 0x100 / m == n / (0x100 * m)
  {
    var q, r := n / 0x100 / m, n / 0x100 % m;
    var s := n % 0x100;
    assert n == 0x100 * (q * m + r) + s;
    assert 0x100 * (q * m + r) + s == q * (0x100 * m) + (0x100 * r + s);
    QuotientIs(n, 0x100 * m, q, 0x100 * r + s);
  }

  lemma {:induction false} QuotientIs(n: nat, m: nat, q: nat, r: nat)
    requires m > 0 && r < m && n == q * m + r
    ensures n / m == q
  {
    var p := n / m;
    assert n == p * m + n % m;
    Stretch(p, q, m);
    Stretch(q, p, m);
  }

  lemma {:induction false} Stretch(a: nat, b: nat, m: nat)
    ensures a < b ==> (a + 1) * m <= b * m
  {
  }

  /** The number a little-endian byte string denotes. */
  function Un(b: seq<u8>): nat {
    if b == [] then 0 else b[0] + 0x100 * Un(b[1..])
  }

  lemma {:induction false} SpanValues()
    ensures Span(1) == 0x100 && Span(2) == 0x1_0000
    ensures Span(4) == 0x1_0000_0000 && Span(8) == 0x1_0000_0000_0000_0000
  {
    assert Span(1) == 0x100 * Span(0);
    assert Span(2) == 0x100 * Span(1);
    assert Span(4) == 0x100 * Span(3) == 0x1_0000 * Span(2);
    assert Span(6) == 0x100 * Span(5) == 0x1_0000 * Span(4);
    assert Span(8) == 0x100 * Span(7) == 0x1_0000 * Span(6);
  }

  /** Reading back a written field gives the field. */
  lemma {:induction false} UnLe(n: nat, k: nat)
    requires n < Span(k)
    ensures Un(Le(n, k)) == n
    decreases k
  {
    if k > 0 {
      UnLe(n / 0x100, k - 1);
      assert Le(n, k)[1..] == Le(n / 0x100, k - 1);
    }
  }

  /** Writing back a read field gives the same bytes; a field never overflows its width. */
  lemma {:induction false} LeUn(b: seq<u8>)
    ensures Un(b) < Span(|b|)
    ensures Le(Un(b), |b|) == b
  {
    if b != [] {
      LeUn(b[1..]);
      assert Un(b) / 0x100 == Un(b[1..]) && Un(b) % 0x100 == b[0];
      assert b == [b[0]] + b[1..];
    }
  }

  lemma {:induction false} UnBound(b: seq<u8>)
    ensures |b| == 1 ==> Un(b) < 0x100
    ensures |b| == 2 ==> Un(b) < 0x1_0000
    ensures |b| == 4 ==> Un(b) < 0x1_0000_0000
    ensures |b| == 8 ==> Un(b) < 0x1_0000_0000_0000_0000
  {
    LeUn(b);
    SpanValues();
  }

  lemma {:induction false} UnLe16(n: u16)
    ensures Un(Le(n, 2)) == n
  {
    SpanValues();
    UnLe(n, 2);
  }

  lemma {:induction false} UnLe32(n: u32)
    ensures Un(Le(n, 4)) == n
  {
    SpanValues();
    UnLe(n, 4);
  }

  lemma {:induction false} UnLe64(n: u64)
    ensures Un(Le(n, 8)) == n
  {
    SpanValues();
    UnLe(n, 8);
  }
}
