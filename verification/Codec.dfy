/** The byte writer and reader with their sticky status, driving a layout field by field
    (src/durability/codec.cpp). */
module Codec {
  import opened Words
  import opened Model
  import opened Layout

  lemma {:induction false} UnAppend(b: seq<u8>, x: u8)
    ensures Un(b + [x]) == Un(b) + x * Span(|b|)
  {
    if b != [] {
      UnAppend(b[1..], x);
      assert (b + [x])[1..] == b[1..] + [x];
      assert 0x100 * (x * Span(|b| - 1)) == x * Span(|b|);
    } else {
      assert [] + [x] == [x] && [x][1..] == [];
    }
  }

  /** The first bytes of what is left, as many as there are up to `n`. */
  function Front(b: seq<u8>, n: nat): seq<u8> {
    if n <= |b| then b[..n] else b
  }

  /** Prepend what was read before. */
  function Then<T>(before: seq<T>, r: Read<seq<T>>): Read<seq<T>> {
    match r
    case Fail(e) => Fail(e)
    case Got(more, rest) => Got(before + more, rest)
  }

  class ByteReader {
    const data: seq<u8>
    var offset: nat
    var fault: Option<Fault>

    ghost predicate Valid()
      reads this
    {
      offset <= |data|
    }

    function Rest(): seq<u8>
      reads this
      requires Valid()
    {
      data[offset..]
    }

    constructor (bytes: seq<u8>)
      ensures Valid() && data == bytes && Rest() == bytes && fault.None?
    {
      data := bytes;
      offset := 0;
      fault := None;
    }

    /** A failed reader yields zero and does not move. */
    method U8() returns (v: u8)
      requires Valid()
      modifies this
      ensures Valid()
      ensures old(fault).Some? ==> fault == old(fault) && offset == old(offset) && v == 0
      ensures old(fault).None? && old(Rest()) != [] ==> fault.None? && v == old(Rest())[0] && Rest() == old(Rest())[1..]
      ensures old(fault).None? && old(Rest()) == [] ==> fault == Some(Truncated) && offset == old(offset) && v == 0
    {
      if fault.Some? {
        return 0;
      }
      if offset == |data| {
        fault := Some(Truncated);
        return 0;
      }
      v := data[offset];
      offset := offset + 1;
    }

    /** An integer of `width` bytes; cut short it still carries the bytes that were there. */
    method Number(width: nat) returns (n: nat)
      requires Valid()
      modifies this
      ensures Valid()
      ensures old(fault).Some? ==> fault == old(fault) && offset == old(offset) && n == 0
      ensures old(fault).None? ==>
                && n == Un(Front(old(Rest()), width)) && Rest() == old(Rest())[|Front(old(Rest()), width)|..]
                && fault == if width <= |old(Rest())| then None else Some(Truncated)
    {
      hide Un;
      n := 0;
      UnNothing();
      ghost var before := Rest();
      for i := 0 to width
        invariant Valid()
        invariant old(fault).Some? ==> fault == old(fault) && offset == old(offset) && n == 0
        invariant old(fault).None? ==>
                    && n == Un(Front(before, i)) && Rest() == before[|Front(before, i)|..]
                    && fault == if i <= |before| then None else Some(Truncated)
      {
        var x := U8();
        if i < |before| {
          UnAppend(Front(before, i), before[i]);
          assert Front(before, i + 1) == Front(before, i) + [before[i]];
          assert before[i..][1..] == before[i + 1..];
        } else {
          assert Front(before, i + 1) == Front(before, i);
        }
        n := n + x * Span(i);
      }
    }

    method Boolean() returns (b: bool)
      requires Valid()
      modifies this
      ensures Valid()
      ensures old(fault).Some? ==> fault == old(fault) && offset == old(offset)
      ensures old(fault).None? && old(Rest()) != [] ==>
                fault.None? && b == (old(Rest())[0] != 0) && Rest() == old(Rest())[1..]
      ensures old(fault).None? && old(Rest()) == [] ==> fault == Some(Truncated)
    {
      var v := U8();
      b := v != 0;
    }

    method TakeText(bound: nat) returns (s: seq<u8>)
      requires Valid()
      modifies this
      ensures Valid()
      ensures old(fault).Some? ==> fault == old(fault) && offset == old(offset)
      ensures old(fault).None? ==>
                match DecodeCell(Text(bound), old(Rest()))
                case Fail(e) => fault == Some(e)
                case Got(c, rest) => fault.None? && c == Note(s) && Rest() == rest
    {
      hide Un;
      var size := Number(4);
      if fault.Some? {
        return [];
      }
      assert Front(old(Rest()), 4) == old(Rest())[..4];
      if size > bound {
        fault := Some(Oversized);
        return [];
      }
      if size > |data| - offset {
        fault := Some(Truncated);
        return [];
      }
      s := data[offset..offset + size];
      assert s == Rest()[..size];
      offset := offset + size;
    }

    /** Read one field; `stop` when a count is refused outright. */
    method Cell(f: Field) returns (c: Cell, stop: bool)
      requires Valid()
      modifies this
      ensures Valid()
      ensures old(fault).Some? ==> fault == old(fault) && offset == old(offset) && !stop
      ensures old(fault).None? ==> Agrees(DecodeCell(f, old(Rest())), c, stop, fault, Rest())
      decreases f, 0
    {
      stop := false;
      match f {
        case Word(width) =>
          var n := Number(width);
          c := Num(n);
        case Flag =>
          var b := Boolean();
          c := Bit(b);
        case Text(bound) =>
          var s := TakeText(bound);
          c := Note(s);
        case Table(bound, columns) =>
          var count := Number(8);
          if count > bound {
            stop := true;
            c := Rows([]);
            return;
          }
          ghost var rest := Rest();
          assert old(fault).None? && fault.None? ==> Front(old(Rest()), 8) == old(Rest())[..8];
          var rows;
          rows, stop := TakeTable(columns, count);
          c := Rows(rows);
        case Group(fields) =>
          var part;
          part, stop := TakeRow(fields);
          c := Part(part);
      }
    }

    /** Every field in turn, failed or not, unless a count stops the decoder. */
    method TakeRow(fs: seq<Field>) returns (row: Row, stop: bool)
      requires Valid()
      modifies this
      ensures Valid()
      ensures old(fault).Some? ==> fault == old(fault) && offset == old(offset) && !stop
      ensures old(fault).None? ==> Agrees(Decode(fs, old(Rest())), row, stop, fault, Rest())
      decreases fs, 0
    {
      hide DecodeCell;
      row := [];
      stop := false;
      ghost var whole := Decode(fs, Rest());
      ThenNothing(whole);
      assert fs[0..] == fs;
      for i := 0 to |fs|
        invariant Valid() && !stop
        invariant old(fault).Some? ==> fault == old(fault) && offset == old(offset)
        invariant old(fault).None? ==>
                    if fault.None? then whole == Then(row, Decode(fs[i..], Rest())) else whole == Fail(fault.value)
      {
        ghost var before := Rest();
        ghost var was := fault;
        var c;
        c, stop := Cell(fs[i]);
        DecodeStep(fs, i, before, row, c);
        if stop {
          return;
        }
        row := row + [c];
      }
      assert fs[|fs|..] == [];
      ThenAll(row, Rest());
    }

    /** The row loop of a table: it ends at the count or at the first failure. */
    method TakeTable(fs: seq<Field>, count: nat) returns (rows: seq<Row>, stop: bool)
      requires Valid()
      modifies this
      ensures Valid()
      ensures old(fault).Some? ==> fault == old(fault) && offset == old(offset) && !stop
      ensures old(fault).None? ==> Agrees(DecodeAll(fs, count, old(Rest())), rows, stop, fault, Rest())
      decreases fs, 1
    {
      hide Decode;
      rows := [];
      stop := false;
      var i := 0;
      ghost var whole := DecodeAll(fs, count, Rest());
      ThenNothing(whole);
      while i < count && fault.None?
        invariant Valid() && i <= count && !stop
        invariant old(fault).Some? ==> fault == old(fault) && offset == old(offset)
        invariant old(fault).None? ==>
                    if fault.None? then whole == Then(rows, DecodeAll(fs, count - i,
                        Rest())) else whole == Fail(fault.value)
      {
        ghost var before := Rest();
        var row;
        row, stop := TakeRow(fs);
        DecodeAllStep(fs, count - i, before, rows, row);
        if stop {
          return;
        }
        rows := rows + [row];
        i := i + 1;
      }
      ThenAll(rows, Rest());
      DecodeNone(fs, Rest());
    }
  }

  lemma {:induction false} UnNothing()
    ensures Un([]) == 0
  {
  }

  /** What a reader method leaves behind, against the layout's decoder. */
  predicate Agrees<T(==)>(r: Read<T>, value: T, stop: bool, fault: Option<Fault>, rest: seq<u8>) {
    match r
    case Got(v, more) => !stop && fault.None? && value == v && rest == more
    case Fail(e) => if stop then e == Oversized else fault == Some(e)
  }

  lemma {:induction false} AgreesMeans<T>(r: Read<T>, value: T, stop: bool, fault: Option<Fault>, rest: seq<u8>)
    requires Agrees(r, value, stop, fault, rest)
    ensures r == if stop then Fail(Oversized) else if fault.Some? then Fail(fault.value) else Got(value, rest)
  {
  }

  lemma {:induction false} ThenNothing<T>(r: Read<seq<T>>)
    ensures Then([], r) == r
  {
    if r.Got? {
      assert [] + r.value == r.value;
    }
  }

  lemma {:induction false} ThenAll<T>(before: seq<T>, rest: seq<u8>)
    ensures Then(before, Got([], rest)) == Got(before, rest)
  {
    assert before + [] == before;
  }

  lemma {:induction false} DecodeNone(fs: seq<Field>, b: seq<u8>)
    ensures DecodeAll(fs, 0, b) == Got([], b)
  {
  }

  lemma {:induction false} DecodeStep(fs: seq<Field>, i: nat, b: seq<u8>, before: Row, c: Cell)
    requires i < |fs|
    ensures match DecodeCell(fs[i], b)
            case Fail(e) => Then(before, Decode(fs[i..], b)) == Fail(e)
            case Got(cell, rest) =>
              cell == c ==> Then(before, Decode(fs[i..], b)) == Then(before + [c], Decode(fs[i + 1..], rest))
  {
    hide DecodeCell;
    assert fs[i..][0] == fs[i] && fs[i..][1..] == fs[i + 1..];
    var d := DecodeCell(fs[i], b);
    if d.Got? {
      var r := Decode(fs[i + 1..], d.rest);
      if r.Got? {
        assert before + ([d.value] + r.value) == before + [d.value] + r.value;
      }
    }
  }

  lemma {:induction false} DecodeAllStep(fs: seq<Field>, count: nat, b: seq<u8>, before: seq<Row>, row: Row)
    requires count > 0
    ensures match Decode(fs, b)
            case Fail(e) => Then(before, DecodeAll(fs, count, b)) == Fail(e)
            case Got(r, rest) =>
              r == row ==> Then(before, DecodeAll(fs, count, b)) == Then(before + [row], DecodeAll(fs, count - 1, rest))
  {
    hide Decode;
    var d := Decode(fs, b);
    if d.Got? {
      var r := DecodeAll(fs, count - 1, d.rest);
      if r.Got? {
        assert before + ([d.value] + r.value) == before + [d.value] + r.value;
      }
    }
  }

  /** A decoder over the reader: a value only from a reader that never failed. */
  method DecodeRow(fs: seq<Field>, bytes: seq<u8>) returns (r: Read<Row>)
    ensures r == Decode(fs, bytes)
  {
    hide Decode, Agrees, DecodeCell, Un;
    var reader := new ByteReader(bytes);
    var row, stop := reader.TakeRow(fs);
    AgreesMeans(Decode(fs, bytes), row, stop, reader.fault, reader.Rest());
    if stop {
      return Fail(Oversized);
    }
    if reader.fault.Some? {
      return Fail(reader.fault.value);
    }
    r := Got(row, reader.Rest());
  }

  // ---- Writing --------------------------------------------------------------

  /** A row of the right shape, whose texts may still be too long for the writer and whose
      tables too long for the reader. */
  predicate TypedCell(f: Field, c: Cell)
    decreases f, 0
  {
    match (f, c)
    case (Word(w), Num(n)) => n < Span(w)
    case (Flag, Bit(_)) => true
    case (Text(_), Note(_)) => true
    case (Table(_, columns), Rows(rows)) => |rows| <= MAX_COUNT && TypedAll(columns, rows)
    case (Group(fields), Part(part)) => Typed(fields, part)
    case _ => false
  }

  predicate Typed(fs: seq<Field>, row: Row)
    decreases fs, 0
  {
    if fs == [] || row == [] then fs == [] && row == []
    else TypedCell(fs[0], row[0]) && Typed(fs[1..], row[1..])
  }

  predicate TypedAll(fs: seq<Field>, rows: seq<Row>)
    decreases fs, 1, |rows|
  {
    rows == [] || (Typed(fs, rows[0]) && TypedAll(fs, rows[1..]))
  }

  class ByteWriter {
    var buffer: seq<u8>
    var fault: Option<Fault>

    constructor ()
      ensures buffer == [] && fault.None?
    {
      buffer := [];
      fault := None;
    }

    method Number(n: nat, width: nat)
      requires n < Span(width)
      modifies this`buffer
      ensures buffer == old(buffer) + Le(n, width)
    {
      var left := n;
      var i := 0;
      ghost var all := Le(n, width);
      assert all == [] + Le(left, width);
      while i < width
        invariant i <= width
        invariant old(buffer) + all == buffer + Le(left, width - i)
        decreases width - i
      {
        buffer := buffer + [left % 0x100];
        left := left / 0x100;
        i := i + 1;
      }
    }

    /** Text beyond its bound fails the writer; a failed writer takes no more text. */
    method PutText(s: seq<u8>, bound: nat)
      modifies this
      ensures old(fault).Some? ==> fault == old(fault)
      ensures old(fault).None? ==> (fault.None? <==> |s| <= bound && |s| <= MAX_TEXT)
      ensures old(fault).None? && fault.None? ==> buffer == old(buffer) + (Le(|s|, 4) + s)
    {
      if fault.Some? {
        return;
      }
      if |s| > bound || |s| > MAX_TEXT {
        fault := Some(Oversized);
        return;
      }
      SpanValues();
      Number(|s|, 4);
      buffer := buffer + s;
    }

    method Cell(f: Field, c: Cell)
      requires TypedCell(f, c)
      modifies this
      ensures old(fault).Some? ==> fault == old(fault)
      ensures old(fault).None? ==> (fault.None? <==> FitsCell(Lifted(f), c))
      ensures old(fault).None? && fault.None? ==> buffer == old(buffer) + EncodeCell(Lifted(f), c)
      decreases f, 0
    {
      hide Fits, FitAll, Encode, EncodeAll, Unbounded, Typed, TypedAll, Le;
      match (f, c) {
        case (Word(w), Num(n)) => Number(n, w);
        case (Flag, Bit(b)) => buffer := buffer + [if b then 1 else 0];
        case (Text(bound), Note(s)) => PutText(s, bound);
        case (Table(_, columns), Rows(rows)) =>
          SpanValues();
          Number(|rows|, 8);
          ghost var mid := buffer;
          PutTable(columns, rows);
          if fault.None? {
            assert old(fault).None? ==> buffer == old(buffer) + (Le(|rows|, 8) + EncodeAll(Unbounded(columns), rows));
          }
        case (Group(fields), Part(part)) => PutRow(fields, part);
      }
    }

    method PutRow(fs: seq<Field>, row: Row)
      requires Typed(fs, row)
      modifies this
      ensures old(fault).Some? ==> fault == old(fault)
      ensures old(fault).None? ==> (fault.None? <==> Fits(Unbounded(fs), row))
      ensures old(fault).None? && fault.None? ==> buffer == old(buffer) + Encode(Unbounded(fs), row)
      decreases fs, 0
    {
      hide FitsCell, TypedCell, EncodeCell, Lifted;
      ghost var us := Unbounded(fs);
      if fs != [] {
        UnboundedNext(fs);
        Cell(fs[0], row[0]);
        PutRow(fs[1..], row[1..]);
        if old(fault).None? && fault.None? {
          assert buffer == old(buffer) + (EncodeCell(us[0], row[0]) + Encode(us[1..], row[1..]));
        }
      }
    }

    method PutTable(fs: seq<Field>, rows: seq<Row>)
      requires TypedAll(fs, rows)
      modifies this
      ensures old(fault).Some? ==> fault == old(fault)
      ensures old(fault).None? ==> (fault.None? <==> FitAll(Unbounded(fs), rows))
      ensures old(fault).None? && fault.None? ==> buffer == old(buffer) + EncodeAll(Unbounded(fs), rows)
      decreases fs, 1, |rows|
    {
      hide Fits, Typed, Encode, Unbounded;
      if rows != [] {
        PutRow(fs, rows[0]);
        PutTable(fs, rows[1..]);
        if old(fault).None? && fault.None? {
          assert buffer == old(buffer) + (Encode(Unbounded(fs), rows[0]) + EncodeAll(Unbounded(fs), rows[1..]));
        }
      }
    }
  }

  /** Write a row and read it back: the writer refuses a text beyond its bound; otherwise
      the row comes back whole when its tables are within theirs, and the reader refuses it
      as oversized when one is not. */
  method WriteAndRead(fs: seq<Field>, row: Row) returns (r: Option<Read<Row>>)
    requires Typed(fs, row)
    ensures r.None? <==> !Fits(Unbounded(fs), row)
    ensures r.Some? ==> r.value == if Fits(fs, row) then Got(row, []) else Fail(Oversized)
  {
    hide Fits, Decode, Encode, Unbounded;
    var writer := new ByteWriter();
    writer.PutRow(fs, row);
    if writer.fault.Some? {
      return None;
    }
    BoundsDecide(fs, row, []);
    ghost var b := Encode(Unbounded(fs), row);
    assert [] + b == b && b + [] == b;
    var read := DecodeRow(fs, writer.buffer);
    r := Some(read);
  }
}
