/** Fixed-size headers: a list of little-endian words, one of which is the
    CRC-32C of the whole header with that word zeroed. The journal record header,
    the snapshot header and footer and the frame header are all of this shape. */
module Sealed {
  import opened Words
  import opened Crc32c

  datatype Word = W2(n2: u16) | W4(n4: u32) | W8(n8: u64)

  datatype Width = Two | Four | Eight {
    function Size(): nat {
      match this
      case Two => 2
      case Four => 4
      case Eight => 8
    }
  }

  function Image(w: Word): (b: seq<u8>)
    ensures |b| == WidthOf(w).Size()
  {
    match w
    case W2(n) => Le(n, 2)
    case W4(n) => Le(n, 4)
    case W8(n) => Le(n, 8)
  }

  function WidthOf(w: Word): Width {
    match w
    case W2(_) => Two
    case W4(_) => Four
    case W8(_) => Eight
  }

  function Read(k: Width, b: seq<u8>): (w: Word)
    requires |b| == k.Size()
    ensures WidthOf(w) == k && Image(w) == b
  {
    UnBound(b);
    LeUn(b);
    match k
    case Two => W2(Un(b))
    case Four => W4(Un(b))
    case Eight => W8(Un(b))
  }

  function Zero(k: Width): (w: Word)
    ensures WidthOf(w) == k && Image(w) == ZeroBytes(k.Size())
  {
    LeZero(k.Size());
    match k
    case Two => W2(0)
    case Four => W4(0)
    case Eight => W8(0)
  }

  lemma {:induction false} ReadImage(w: Word)
    ensures Read(WidthOf(w), Image(w)) == w
  {
    match w {
      case W2(n) => UnLe16(n);
      case W4(n) => UnLe32(n);
      case W8(n) => UnLe64(n);
    }
  }

  predicate Shaped(ks: seq<Width>, ws: seq<Word>) {
    |ks| == |ws| && forall i | 0 <= i < |ks| :: WidthOf(ws[i]) == ks[i]
  }

  /** The byte offset of word `i`. */
  function Offset(ks: seq<Width>, i: nat): nat
    requires i <= |ks|
    decreases i, ks
  {
    if i == 0 then 0 else ks[0].Size() + Offset(ks[1..], i - 1)
  }

  function Pack(ks: seq<Width>, ws: seq<Word>): (b: seq<u8>)
    requires Shaped(ks, ws)
    ensures |b| == Offset(ks, |ks|)
    decreases |ws|
  {
    if ws == [] then [] else Image(ws[0]) + Pack(ks[1..], ws[1..])
  }

  function Unpack(ks: seq<Width>, b: seq<u8>): (ws: seq<Word>)
    requires |b| == Offset(ks, |ks|)
    ensures Shaped(ks, ws)
    decreases |ks|, b
  {
    if ks == [] then []
    else [Read(ks[0], b[..ks[0].Size()])] + Unpack(ks[1..], b[ks[0].Size()..])
  }

  lemma {:induction false} UnpackPack(ks: seq<Width>, ws: seq<Word>)
    requires Shaped(ks, ws)
    ensures Unpack(ks, Pack(ks, ws)) == ws
    decreases |ws|
  {
    hide Read, Image;
    if ks != [] {
      ReadImage(ws[0]);
      var b := Pack(ks, ws);
      assert b[..ks[0].Size()] == Image(ws[0]) && b[ks[0].Size()..] == Pack(ks[1..], ws[1..]);
      UnpackPack(ks[1..], ws[1..]);
    }
  }

  lemma {:induction false} PackUnpack(ks: seq<Width>, b: seq<u8>)
    requires |b| == Offset(ks, |ks|)
    ensures Pack(ks, Unpack(ks, b)) == b
    decreases |ks|
  {
    hide Read, Image;
    if ks != [] {
      var n := ks[0].Size();
      var x, y := b[..n], b[n..];
      PackUnpack(ks[1..], y);
      var first, others := Read(ks[0], x), Unpack(ks[1..], y);
      assert Unpack(ks, b) == [first] + others;
      assert Pack(ks, [first] + others) == Image(first) + Pack(ks[1..], others) by {
        assert ([first] + others)[1..] == others;
      }
    }
  }

  lemma {:induction false} OffsetOrder(ks: seq<Width>, i: nat)
    requires i < |ks|
    ensures Offset(ks, i + 1) == Offset(ks, i) + ks[i].Size()
    ensures Offset(ks, i + 1) <= Offset(ks, |ks|)
    decreases i
  {
    if i > 0 {
      OffsetOrder(ks[1..], i - 1);
    } else {
      assert Offset(ks, 1) == ks[0].Size() + Offset(ks[1..], 0);
    }
  }

  /** Offsets grow word by word. */
  lemma {:induction false} OffsetSteps(ks: seq<Width>)
    ensures Offset(ks, 0) == 0
    ensures forall i | 0 <= i < |ks| :: Offset(ks, i + 1) == Offset(ks, i) + ks[i].Size()
  {
    forall i | 0 <= i < |ks|
      ensures Offset(ks, i + 1) == Offset(ks, i) + ks[i].Size()
    {
      OffsetOrder(ks, i);
    }
  }

  lemma {:induction false} Slice(b: seq<u8>, n: nat, o: nat, k: nat)
    requires n + o + k <= |b|
    ensures b[n..][o..o + k] == b[n + o..n + o + k]
  {
  }

  /** Word `i` sits at its offset. */
  lemma {:induction false} UnpackAt(ks: seq<Width>, b: seq<u8>, i: nat)
    requires |b| == Offset(ks, |ks|) && i < |ks|
    ensures Offset(ks, i) + ks[i].Size() <= |b|
    ensures Image(Unpack(ks, b)[i]) == b[Offset(ks, i)..Offset(ks, i) + ks[i].Size()]
    decreases i
  {
    hide Read, Image, Unpack, Offset;
    OffsetOrder(ks, i);
    OffsetZero(ks);
    UnpackParts(ks, b);
    var n := ks[0].Size();
    if i == 0 {
      assert b[0..n] == b[..n];
    } else {
      OffsetNext(ks, i);
      UnpackAt(ks[1..], b[n..], i - 1);
      var o := Offset(ks[1..], i - 1);
      OffsetOrder(ks[1..], i - 1);
      Slice(b, n, o, ks[i].Size());
    }
  }

  function ZeroBytes(k: nat): (b: seq<u8>)
    ensures |b| == k
  {
    seq(k, i => 0)
  }

  lemma {:induction false} LeZero(k: nat)
    ensures Le(0, k) == ZeroBytes(k)
    decreases k
  {
    if k > 0 {
      LeZero(k - 1);
      assert ZeroBytes(k) == [0] + ZeroBytes(k - 1);
    }
  }

  /** The header with `k` bytes at `o` zeroed. */
  function Blank(b: seq<u8>, o: nat, k: nat): (r: seq<u8>)
    requires o + k <= |b|
    ensures |r| == |b|
  {
    b[..o] + ZeroBytes(k) + b[o + k..]
  }

  lemma {:induction false} BlankFirst(x: seq<u8>, y: seq<u8>)
    ensures Blank(x + y, 0, |x|) == ZeroBytes(|x|) + y
  {
    assert (x + y)[|x|..] == y;
  }

  lemma {:induction false} BlankLater(x: seq<u8>, y: seq<u8>, o: nat, k: nat)
    requires o + k <= |y|
    ensures Blank(x + y, |x| + o, k) == x + Blank(y, o, k)
  {
    assert (x + y)[..|x| + o] == x + y[..o];
    assert (x + y)[|x| + o + k..] == y[o + k..];
  }

  lemma {:induction false} UnpackParts(ks: seq<Width>, b: seq<u8>)
    requires ks != [] && |b| == Offset(ks, |ks|)
    ensures var n := ks[0].Size();
            && n <= |b| && |b[n..]| == Offset(ks[1..], |ks[1..]|)
            && Unpack(ks, b) == [Read(ks[0], b[..n])] + Unpack(ks[1..], b[n..])
  {
    hide Read;
  }

  lemma {:induction false} PackParts(ks: seq<Width>, w: Word, ws: seq<Word>)
    requires ks != [] && WidthOf(w) == ks[0] && Shaped(ks[1..], ws)
    ensures Shaped(ks, [w] + ws) && Pack(ks, [w] + ws) == Image(w) + Pack(ks[1..], ws)
  {
    hide Image;
    var all := [w] + ws;
    assert all[1..] == ws;
    assert forall i | 0 < i < |ks| :: all[i] == ws[i - 1] && ks[i] == ks[1..][i - 1];
  }

  lemma {:induction false} OffsetZero(ks: seq<Width>)
    ensures Offset(ks, 0) == 0
  {
  }

  lemma {:induction false} ShapedOthers(ks: seq<Width>, ws: seq<Word>, i: nat)
    requires Shaped(ks, ws) && i < |ks|
    ensures i < |ws| && Shaped(ks, ws[i := Zero(ks[i])])
  {
  }

  lemma {:induction false} OffsetNext(ks: seq<Width>, i: nat)
    requires 0 < i <= |ks|
    ensures Offset(ks, i) == ks[0].Size() + Offset(ks[1..], i - 1)
  {
  }

  /** Zeroing a word before packing zeroes its bytes. */
  lemma {:induction false} PackZeroed(ks: seq<Width>, b: seq<u8>, i: nat)
    requires |b| == Offset(ks, |ks|) && i < |ks|
    ensures Offset(ks, i) + ks[i].Size() <= |b|
    ensures Pack(ks, Unpack(ks, b)[i := Zero(ks[i])]) == Blank(b, Offset(ks, i), ks[i].Size())
    decreases i
  {
    hide Offset, Pack, Unpack, Read, Image, Zero, Blank, Shaped;
    OffsetOrder(ks, i);
    OffsetZero(ks);
    UnpackParts(ks, b);
    var x, y := b[..ks[0].Size()], b[ks[0].Size()..];
    var first, others := Read(ks[0], x), Unpack(ks[1..], y);
    assert b == x + y;
    if i == 0 {
      PackUnpack(ks[1..], y);
      BlankFirst(x, y);
      assert ([first] + others)[0 := Zero(ks[0])] == [Zero(ks[0])] + others;
      PackParts(ks, Zero(ks[0]), others);
    } else {
      OffsetNext(ks, i);
      ShapedOthers(ks[1..], others, i - 1);
      PackZeroed(ks[1..], y, i - 1);
      BlankLater(x, y, Offset(ks[1..], i - 1), ks[i].Size());
      var changed := others[i - 1 := Zero(ks[i])];
      assert ([first] + others)[i := Zero(ks[i])] == [first] + changed;
      PackParts(ks, first, changed);
    }
  }

  /** The four bytes at `o` hold the checksum of the header with them zeroed. */
  predicate SealOk(b: seq<u8>, o: nat)
    requires o + 4 <= |b|
  {
    Crc(Blank(b, o, 4)) == Un(b[o..o + 4])
  }

  /** One changed byte anywhere, in the seal or outside it, breaks the seal. */
  lemma {:induction false} SealDetects(b: seq<u8>, o: nat, i: nat, x: u8)
    requires o + 4 <= |b| && SealOk(b, o) && i < |b| && b[i] != x
    ensures !SealOk(b[i := x], o)
  {
    var c := b[i := x];
    if o <= i < o + 4 {
      assert Blank(c, o, 4) == Blank(b, o, 4);
      assert c[o..o + 4][i - o] != b[o..o + 4][i - o];
      LeUn(c[o..o + 4]);
      LeUn(b[o..o + 4]);
    } else {
      assert c[o..o + 4] == b[o..o + 4];
      assert Blank(b, o, 4)[i] == b[i];
      assert Blank(c, o, 4) == Blank(b, o, 4)[i := x];
      ByteDetected(0, Blank(b, o, 4), i, x);
    }
  }
}
