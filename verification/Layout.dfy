/** The explicit little-endian record layouts of the durable payloads.

    Every payload codec writes a fixed list of fields in order: integers of fixed
    width, one-byte flags, length-prefixed text and counted tables of further
    fields. A layout is that list as data, and one encoder and one decoder
    interpret it the way the writer and reader drive it (src/durability/codec.cpp,
    src/durability/store_codec.cpp). */
module Layout {
  import opened Words

  datatype Field =
    | Word(width: nat)
    | Flag
    | Text(bound: nat)
    | Table(bound: nat, columns: seq<Field>)
    | Group(fields: seq<Field>)

  datatype Cell =
    | Num(n: nat)
    | Bit(b: bool)
    | Note(s: seq<u8>)
    | Rows(rows: seq<seq<Cell>>)
    | Part(part: seq<Cell>)

  type Row = seq<Cell>

  datatype Fault = Truncated | Oversized

  datatype Read<T> = Got(value: T, rest: seq<u8>) | Fail(fault: Fault)

  /** The bound of a 32-bit and a 64-bit length prefix. */
  const MAX_TEXT := 0xFFFF_FFFF
  const MAX_COUNT := 0xFFFF_FFFF_FFFF_FFFF

  /** The values the writer accepts for a field, a list of fields, and a table. */
  predicate FitsCell(f: Field, c: Cell)
    decreases f, 0
  {
    match (f, c)
    case (Word(w), Num(n)) => n < Span(w)
    case (Flag, Bit(_)) => true
    case (Text(bound), Note(s)) => |s| <= bound && |s| <= MAX_TEXT
    case (Table(bound, columns), Rows(rows)) =>
      |rows| <= bound && |rows| <= MAX_COUNT && FitAll(columns, rows)
    case (Group(fields), Part(part)) => Fits(fields, part)
    case _ => false
  }

  predicate Fits(fs: seq<Field>, row: Row)
    decreases fs, 0
  {
    if fs == [] || row == [] then fs == [] && row == []
    else FitsCell(fs[0], row[0]) && Fits(fs[1..], row[1..])
  }

  predicate FitAll(fs: seq<Field>, rows: seq<Row>)
    decreases fs, 1, |rows|
  {
    rows == [] || (Fits(fs, rows[0]) && FitAll(fs, rows[1..]))
  }

  function EncodeCell(f: Field, c: Cell): seq<u8>
    requires FitsCell(f, c)
    decreases f, 0
  {
    match (f, c)
    case (Word(w), Num(n)) => Le(n, w)
    case (Flag, Bit(b)) => [if b then 1 else 0]
    case (Text(_), Note(s)) => Le(|s|, 4) + s
    case (Table(_, columns), Rows(rows)) => Le(|rows|, 8) + EncodeAll(columns, rows)
    case (Group(fields), Part(part)) => Encode(fields, part)
  }

  function Encode(fs: seq<Field>, row: Row): seq<u8>
    requires Fits(fs, row)
    decreases fs, 0
  {
    if fs == [] then [] else EncodeCell(fs[0], row[0]) + Encode(fs[1..], row[1..])
  }

  function EncodeAll(fs: seq<Field>, rows: seq<Row>): seq<u8>
    requires FitAll(fs, rows)
    decreases fs, 1, |rows|
  {
    if rows == [] then [] else Encode(fs, rows[0]) + EncodeAll(fs, rows[1..])
  }

  /** The reader: a field that is cut short or out of bounds fails, and a failed
      reader never yields a value. A count cut short still carries its low bytes
      and is range-checked first. */
  function DecodeCell(f: Field, b: seq<u8>): Read<Cell>
    decreases f, 0
  {
    match f
    case Word(w) =>
      if |b| < w then Fail(Truncated) else Got(Num(Un(b[..w])), b[w..])
    case Flag =>
      if |b| < 1 then Fail(Truncated) else Got(Bit(b[0] != 0), b[1..])
    case Text(bound) =>
      if |b| < 4 then Fail(Truncated)
      else DecodeText(bound, Un(b[..4]), b[4..])
    case Table(bound, columns) =>
      if |b| < 8 then Fail(if Un(b) > bound then Oversized else Truncated)
      else if Un(b[..8]) > bound then Fail(Oversized)
      else
        (match DecodeAll(columns, Un(b[..8]), b[8..])
         case Fail(e) => Fail(e)
         case Got(rows, rest) => Got(Rows(rows), rest))
    case Group(fields) =>
      match Decode(fields, b)
      case Fail(e) => Fail(e)
      case Got(part, rest) => Got(Part(part), rest)
  }

  function DecodeText(bound: nat, size: nat, b: seq<u8>): Read<Cell> {
    if size > bound then Fail(Oversized)
    else if |b| < size then Fail(Truncated)
    else Got(Note(b[..size]), b[size..])
  }

  function Decode(fs: seq<Field>, b: seq<u8>): Read<Row>
    decreases fs, 0
  {
    if fs == [] then
      Got([], b)
    else
      match DecodeCell(fs[0], b)
      case Fail(e) => Fail(e)
      case Got(cell, rest) =>
        match Decode(fs[1..], rest)
        case Fail(e) => Fail(e)
        case Got(row, rest') => Got([cell] + row, rest')
  }

  function DecodeAll(fs: seq<Field>, count: nat, b: seq<u8>): Read<seq<Row>>
    decreases fs, 1, count
  {
    if count == 0 then
      Got([], b)
    else
      match Decode(fs, b)
      case Fail(e) => Fail(e)
      case Got(row, rest) =>
        match DecodeAll(fs, count - 1, rest)
        case Fail(e) => Fail(e)
        case Got(rows, rest') => Got([row] + rows, rest')
  }

  // ---- Round trip -----------------------------------------------------------

  lemma {:induction false} LengthsUn(n: nat)
    ensures n <= MAX_TEXT ==> Un(Le(n, 4)) == n
    ensures n <= MAX_COUNT ==> Un(Le(n, 8)) == n
  {
    if n <= MAX_TEXT {
      UnLe32(n);
    }
    if n <= MAX_COUNT {
      UnLe64(n);
    }
  }

  lemma {:induction false} Halves(x: seq<u8>, y: seq<u8>, z: seq<u8>)
    ensures (x + y + z)[..|x|] == x && (x + y + z)[|x|..] == y + z
    ensures x + (y + z) == x + y + z
  {
  }

  /** Reading an encoding, whatever follows it, gives back the row and leaves the rest. */
  lemma {:induction false} RoundTrip(fs: seq<Field>, row: Row, rest: seq<u8>)
    requires Fits(fs, row)
    ensures Decode(fs, Encode(fs, row) + rest) == Got(row, rest)
    decreases fs, 0
  {
    if fs == [] {
      assert Encode(fs, row) + rest == rest;
    } else {
      Halves(EncodeCell(fs[0], row[0]), Encode(fs[1..], row[1..]), rest);
      RoundTripCell(fs[0], row[0], Encode(fs[1..], row[1..]) + rest);
      RoundTrip(fs[1..], row[1..], rest);
      assert [row[0]] + row[1..] == row;
    }
  }

  lemma {:induction false} RoundTripCell(f: Field, c: Cell, rest: seq<u8>)
    requires FitsCell(f, c)
    ensures DecodeCell(f, EncodeCell(f, c) + rest) == Got(c, rest)
    decreases f, 0
  {
    match (f, c) {
      case (Word(w), Num(n)) =>
        UnLe(n, w);
        Halves(Le(n, w), [], rest);
      case (Flag, Bit(b)) =>
        Halves([if b then 1 else 0], [], rest);
      case (Text(_), Note(t)) =>
        LengthsUn(|t|);
        Halves(Le(|t|, 4), t, rest);
        Halves(t, [], rest);
      case (Table(_, columns), Rows(rows)) =>
        LengthsUn(|rows|);
        Halves(Le(|rows|, 8), EncodeAll(columns, rows), rest);
        RoundTripAll(columns, rows, rest);
      case (Group(fields), Part(part)) =>
        RoundTrip(fields, part, rest);
    }
  }

  lemma {:induction false} RoundTripAll(fs: seq<Field>, rows: seq<Row>, rest: seq<u8>)
    requires FitAll(fs, rows)
    ensures DecodeAll(fs, |rows|, EncodeAll(fs, rows) + rest) == Got(rows, rest)
    decreases fs, 1, |rows|
  {
    if rows == [] {
      assert EncodeAll(fs, rows) + rest == rest;
    } else {
      Halves(Encode(fs, rows[0]), EncodeAll(fs, rows[1..]), rest);
      RoundTrip(fs, rows[0], EncodeAll(fs, rows[1..]) + rest);
      RoundTripAll(fs, rows[1..], rest);
      assert [rows[0]] + rows[1..] == rows;
    }
  }

  // ---- What the writer lets through -----------------------------------------

  /** The field as the writer sees it: it checks no table against its bound. */
  function Lifted(f: Field): Field
    decreases f, 0
  {
    match f
    case Table(_, columns) => Table(MAX_COUNT, Unbounded(columns))
    case Group(fields) => Group(Unbounded(fields))
    case _ => f
  }

  function Unbounded(fs: seq<Field>): (r: seq<Field>)
    ensures |r| == |fs|
    decreases fs, 0
  {
    if fs == [] then [] else [Lifted(fs[0])] + Unbounded(fs[1..])
  }

  lemma {:induction false} UnboundedNext(fs: seq<Field>)
    requires fs != []
    ensures Unbounded(fs)[0] == Lifted(fs[0]) && Unbounded(fs)[1..] == Unbounded(fs[1..])
  {
  }

  /** A row written without bounds reads back exactly when it is within them, and is
      otherwise refused as oversized. */
  lemma {:induction false} BoundsDecide(fs: seq<Field>, row: Row, rest: seq<u8>)
    requires Fits(Unbounded(fs), row)
    ensures Decode(fs, Encode(Unbounded(fs), row) + rest) == if Fits(fs, row) then Got(row, rest) else Fail(Oversized)
    decreases fs, 0
  {
    var us := Unbounded(fs);
    if fs == [] {
      assert Encode(us, row) + rest == rest;
    } else {
      UnboundedNext(fs);
      Halves(EncodeCell(us[0], row[0]), Encode(us[1..], row[1..]), rest);
      BoundsDecideCell(fs[0], row[0], Encode(us[1..], row[1..]) + rest);
      BoundsDecide(fs[1..], row[1..], rest);
      assert [row[0]] + row[1..] == row;
    }
  }

  lemma {:induction false} BoundsDecideCell(f: Field, c: Cell, rest: seq<u8>)
    requires FitsCell(Lifted(f), c)
    ensures DecodeCell(f, EncodeCell(Lifted(f), c) + rest) == if FitsCell(f, c) then Got(c, rest) else Fail(Oversized)
    decreases f, 0
  {
    match (f, c) {
      case (Table(bound, columns), Rows(rows)) =>
        LengthsUn(|rows|);
        Halves(Le(|rows|, 8), EncodeAll(Unbounded(columns), rows), rest);
        BoundsDecideAll(columns, rows, rest);
      case (Group(fields), Part(part)) =>
        BoundsDecide(fields, part, rest);
      case _ =>
        RoundTripCell(f, c, rest);
    }
  }

  lemma {:induction false} BoundsDecideAll(fs: seq<Field>, rows: seq<Row>, rest: seq<u8>)
    requires FitAll(Unbounded(fs), rows)
    ensures DecodeAll(fs, |rows|, EncodeAll(Unbounded(fs), rows) + rest)
         == if FitAll(fs, rows) then Got(rows, rest) else Fail(Oversized)
    decreases fs, 1, |rows|
  {
    var us := Unbounded(fs);
    if rows == [] {
      assert EncodeAll(us, rows) + rest == rest;
    } else {
      Halves(Encode(us, rows[0]), EncodeAll(us, rows[1..]), rest);
      BoundsDecide(fs, rows[0], EncodeAll(us, rows[1..]) + rest);
      BoundsDecideAll(fs, rows[1..], rest);
      assert [rows[0]] + rows[1..] == rows;
    }
  }

  // ---- Prefixes -------------------------------------------------------------

  /** A strict prefix of `x + y` is a strict prefix of `x`, or `x` and a strict prefix of `y`. */
  lemma {:induction false} PrefixSplit(x: seq<u8>, y: seq<u8>, n: nat)
    requires n <= |x| + |y|
    ensures n <= |x| ==> (x + y)[..n] == x[..n]
    ensures n >= |x| ==> (x + y)[..n] == x + y[..n - |x|]
  {
  }

  /** Every strict prefix of an encoding is refused. */
  lemma {:induction false} PrefixRefused(fs: seq<Field>, row: Row, n: nat)
    requires Fits(fs, row) && n < |Encode(fs, row)|
    ensures Decode(fs, Encode(fs, row)[..n]).Fail?
    decreases fs, 0
  {
    var first, others := EncodeCell(fs[0], row[0]), Encode(fs[1..], row[1..]);
    PrefixSplit(first, others, n);
    if n < |first| {
      PrefixRefusedCell(fs[0], row[0], n);
    } else {
      RoundTripCell(fs[0], row[0], others[..n - |first|]);
      PrefixRefused(fs[1..], row[1..], n - |first|);
    }
  }

  lemma {:induction false} PrefixRefusedCell(f: Field, c: Cell, n: nat)
    requires FitsCell(f, c) && n < |EncodeCell(f, c)|
    ensures DecodeCell(f, EncodeCell(f, c)[..n]).Fail?
    decreases f, 0
  {
    match (f, c) {
      case (Word(w), Num(k)) =>
      case (Flag, Bit(b)) =>
      case (Text(_), Note(t)) =>
        LengthsUn(|t|);
        PrefixSplit(Le(|t|, 4), t, n);
        if n >= 4 {
          Halves(Le(|t|, 4), t[..n - 4], []);
        }
      case (Table(_, columns), Rows(rows)) =>
        LengthsUn(|rows|);
        PrefixSplit(Le(|rows|, 8), EncodeAll(columns, rows), n);
        if n >= 8 {
          Halves(Le(|rows|, 8), EncodeAll(columns, rows)[..n - 8], []);
          PrefixRefusedAll(columns, rows, n - 8);
        }
      case (Group(fields), Part(part)) =>
        PrefixRefused(fields, part, n);
    }
  }

  lemma {:induction false} PrefixRefusedAll(fs: seq<Field>, rows: seq<Row>, n: nat)
    requires FitAll(fs, rows) && n < |EncodeAll(fs, rows)|
    ensures DecodeAll(fs, |rows|, EncodeAll(fs, rows)[..n]).Fail?
    decreases fs, 1, |rows|
  {
    var first, others := Encode(fs, rows[0]), EncodeAll(fs, rows[1..]);
    PrefixSplit(first, others, n);
    if n < |first| {
      PrefixRefused(fs, rows[0], n);
    } else {
      RoundTrip(fs, rows[0], others[..n - |first|]);
      PrefixRefusedAll(fs, rows[1..], n - |first|);
    }
  }

  // ---- Soundness ------------------------------------------------------------

  /** The layouts in use have widths and bounds that their prefixes can carry. */
  predicate Sound(fs: seq<Field>)
    decreases fs, 0
  {
    fs == [] || (SoundField(fs[0]) && Sound(fs[1..]))
  }

  predicate SoundField(f: Field)
    decreases f, 0
  {
    match f
    case Text(bound) => bound <= MAX_TEXT
    case Table(bound, columns) => bound <= MAX_COUNT && Sound(columns)
    case Group(fields) => Sound(fields)
    case _ => true
  }

  /** Whatever is read fits the layout, so it can be written again, and the rest
      is what was not read. */
  lemma {:induction false} DecodeFits(fs: seq<Field>, b: seq<u8>)
    requires Sound(fs)
    ensures var r := Decode(fs, b); r.Got? ==> Fits(fs, r.value) && |r.rest| <= |b| && r.rest == b[|b| - |r.rest|..]
    decreases fs, 0
  {
    if fs != [] {
      DecodeFitsCell(fs[0], b);
      var r := DecodeCell(fs[0], b);
      if r.Got? {
        DecodeFits(fs[1..], r.rest);
      }
    }
  }

  lemma {:induction false} DecodeFitsCell(f: Field, b: seq<u8>)
    requires SoundField(f)
    ensures var r := DecodeCell(f, b); r.Got? ==> FitsCell(f, r.value) && |r.rest| <= |b| && r.rest == b[|b| - |r.rest|..]
    decreases f, 0
  {
    match f {
      case Word(w) =>
        if |b| >= w {
          LeUn(b[..w]);
        }
      case Flag =>
      case Text(bound) =>
      case Table(bound, columns) =>
        if |b| >= 8 {
          DecodeFitsAll(columns, Un(b[..8]), b[8..]);
        }
      case Group(fields) =>
        DecodeFits(fields, b);
    }
  }

  lemma {:induction false} DecodeFitsAll(fs: seq<Field>, count: nat, b: seq<u8>)
    requires Sound(fs)
    ensures var r := DecodeAll(fs, count, b);
            r.Got? ==> |r.value| == count && FitAll(fs, r.value) && |r.rest| <= |b| && r.rest == b[|b| - |r.rest|..]
    decreases fs, 1, count
  {
    if count > 0 {
      DecodeFits(fs, b);
      var r := Decode(fs, b);
      if r.Got? {
        DecodeFitsAll(fs, count - 1, r.rest);
      }
    }
  }

  // ---- Field by field -------------------------------------------------------

  /** A row fits exactly when every cell fits its field. */
  lemma {:induction false} FitsAt(fs: seq<Field>, row: Row, i: nat)
    requires Fits(fs, row) && i < |fs|
    ensures |row| == |fs| && FitsCell(fs[i], row[i])
    decreases i, fs
  {
    if i > 0 {
      FitsAt(fs[1..], row[1..], i - 1);
    } else if |fs| > 1 {
      FitsAt(fs[1..], row[1..], i);
    }
  }

  lemma {:induction false} FitsWhen(fs: seq<Field>, row: Row)
    requires |fs| == |row| && forall i | 0 <= i < |fs| :: FitsCell(fs[i], row[i])
    ensures Fits(fs, row)
    decreases |fs|
  {
    hide FitsCell;
    if fs != [] {
      var gs, rest := fs[1..], row[1..];
      forall i | 0 <= i < |gs|
        ensures FitsCell(gs[i], rest[i])
      {
        assert gs[i] == fs[i + 1] && rest[i] == row[i + 1];
      }
      FitsWhen(gs, rest);
    }
  }

  lemma {:induction false} EncodeBound(fs: seq<Field>, row: Row, n: nat)
    requires Fits(fs, row) && |fs| == |row|
    requires forall i | 0 <= i < |fs| :: FitsCell(fs[i], row[i]) && |EncodeCell(fs[i], row[i])| <= n
    ensures |Encode(fs, row)| <= n * |fs|
    decreases |fs|
  {
    hide FitsCell, EncodeCell;
    if fs != [] {
      var gs, rest := fs[1..], row[1..];
      forall i | 0 <= i < |gs|
        ensures FitsCell(gs[i], rest[i]) && |EncodeCell(gs[i], rest[i])| <= n
      {
        assert gs[i] == fs[i + 1] && rest[i] == row[i + 1];
      }
      EncodeBound(gs, rest, n);
      assert |Encode(fs, row)| == |EncodeCell(fs[0], row[0])| + |Encode(gs, rest)|;
      assert n * |fs| == n + n * |gs|;
    }
  }

  lemma {:induction false} FitsFrom(fs: seq<Field>, row: Row, n: nat)
    requires Fits(fs, row) && n <= |fs|
    ensures |row| == |fs| && Fits(fs[n..], row[n..])
    decreases n, fs
  {
    if fs != [] {
      FitsAt(fs, row, 0);
    }
    if n > 0 {
      FitsFrom(fs[1..], row[1..], n - 1);
      assert fs[1..][n - 1..] == fs[n..] && row[1..][n - 1..] == row[n..];
    } else {
      assert fs[0..] == fs && row[0..] == row;
    }
  }

  /** Replacing a number by another leaves the row fitting and as long. */
  lemma {:induction false} FitsReplaced(fs: seq<Field>, row: Row, i: nat, c: Cell)
    requires Fits(fs, row) && i < |fs| && fs[i].Word? && FitsCell(fs[i], c)
    ensures |row| == |fs| && Fits(fs, row[i := c])
    ensures |Encode(fs, row[i := c])| == |Encode(fs, row)|
    decreases i, fs
  {
    FitsAt(fs, row, i);
    var changed := row[i := c];
    if i > 0 {
      FitsReplaced(fs[1..], row[1..], i - 1, c);
      assert changed[1..] == row[1..][i - 1 := c];
    } else {
      assert changed[1..] == row[1..];
      assert |EncodeCell(fs[0], c)| == |EncodeCell(fs[0], row[0])|;
    }
  }

  /** What was read is written back in as many bytes. */
  lemma {:induction false} DecodeSize(fs: seq<Field>, b: seq<u8>)
    requires Sound(fs) && Decode(fs, b).Got?
    ensures Fits(fs, Decode(fs, b).value) && |Encode(fs, Decode(fs, b).value)| + |Decode(fs, b).rest| == |b|
    decreases fs, 0
  {
    DecodeFits(fs, b);
    if fs != [] {
      DecodeSizeCell(fs[0], b);
      DecodeSize(fs[1..], DecodeCell(fs[0], b).rest);
      var row := Decode(fs, b).value;
      assert row[1..] == Decode(fs[1..], DecodeCell(fs[0], b).rest).value;
    }
  }

  lemma {:induction false} DecodeSizeCell(f: Field, b: seq<u8>)
    requires SoundField(f) && DecodeCell(f, b).Got?
    ensures FitsCell(f, DecodeCell(f, b).value)
    ensures |EncodeCell(f, DecodeCell(f, b).value)| + |DecodeCell(f, b).rest| == |b|
    decreases f, 0
  {
    hide FitsCell, EncodeCell, DecodeCell;
    match f {
      case Table(bound, columns) => DecodeSizeTable(bound, columns, b);
      case Group(fields) => DecodeSizeGroup(fields, b);
      case Word(w) => DecodeSizeWord(w, b);
      case Text(bound) => DecodeSizeText(bound, b);
      case Flag => DecodeSizeFlag(b);
    }
  }

  lemma {:induction false} DecodeSizeWord(w: nat, b: seq<u8>)
    requires DecodeCell(Word(w), b).Got?
    ensures FitsCell(Word(w), DecodeCell(Word(w), b).value)
    ensures |EncodeCell(Word(w), DecodeCell(Word(w), b).value)| + |DecodeCell(Word(w), b).rest| == |b|
  {
    LeUn(b[..w]);
  }

  lemma {:induction false} DecodeSizeFlag(b: seq<u8>)
    requires DecodeCell(Flag, b).Got?
    ensures FitsCell(Flag, DecodeCell(Flag, b).value)
    ensures |EncodeCell(Flag, DecodeCell(Flag, b).value)| + |DecodeCell(Flag, b).rest| == |b|
  {
  }

  lemma {:induction false} DecodeSizeText(bound: nat, b: seq<u8>)
    requires bound <= MAX_TEXT && DecodeCell(Text(bound), b).Got?
    ensures FitsCell(Text(bound), DecodeCell(Text(bound), b).value)
    ensures |EncodeCell(Text(bound), DecodeCell(Text(bound), b).value)| + |DecodeCell(Text(bound), b).rest| == |b|
  {
    hide Un, Le;
    assert DecodeCell(Text(bound), b) == DecodeText(bound, Un(b[..4]), b[4..]);
  }

  lemma {:induction false} DecodeSizeGroup(fields: seq<Field>, b: seq<u8>)
    requires Sound(fields) && DecodeCell(Group(fields), b).Got?
    ensures FitsCell(Group(fields), DecodeCell(Group(fields), b).value)
    ensures |EncodeCell(Group(fields), DecodeCell(Group(fields), b).value)| + |DecodeCell(Group(fields), b).rest| == |b|
    decreases fields, 2
  {
    hide Fits, Encode, Decode;
    DecodeSize(fields, b);
  }

  lemma {:induction false} DecodeSizeTable(bound: nat, columns: seq<Field>, b: seq<u8>)
    requires bound <= MAX_COUNT && Sound(columns) && DecodeCell(Table(bound, columns), b).Got?
    ensures FitsCell(Table(bound, columns), DecodeCell(Table(bound, columns), b).value)
    ensures |EncodeCell(Table(bound, columns), DecodeCell(Table(bound, columns), b).value)|
          + |DecodeCell(Table(bound, columns), b).rest| == |b|
    decreases columns, 2
  {
    hide Fits, Encode, Decode, Un;
    DecodeFitsCell(Table(bound, columns), b);
    DecodeSizeAll(columns, Un(b[..8]), b[8..]);
  }

  lemma {:induction false} DecodeSizeAll(fs: seq<Field>, count: nat, b: seq<u8>)
    requires Sound(fs) && DecodeAll(fs, count, b).Got?
    ensures FitAll(fs, DecodeAll(fs, count, b).value)
    ensures |EncodeAll(fs, DecodeAll(fs, count, b).value)| + |DecodeAll(fs, count, b).rest| == |b|
    decreases fs, 1, count
  {
    DecodeFitsAll(fs, count, b);
    if count > 0 {
      DecodeSize(fs, b);
      DecodeSizeAll(fs, count - 1, Decode(fs, b).rest);
      var rows := DecodeAll(fs, count, b).value;
      assert rows[1..] == DecodeAll(fs, count - 1, Decode(fs, b).rest).value;
    }
  }
}
