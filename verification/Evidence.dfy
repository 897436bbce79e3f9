/** Metric sets and the evidence batch codec (src/model/evidence.cpp, src/transport/frame.cpp). */
module Evidence {
  import opened Words
  import opened Model
  import opened Layout
  import P = Policy

  const MAX_READINGS: nat := 64
  const MAX_BATCH: nat := 0x1_0000

  datatype Reading = Reading(kind: nat, value: nat)

  // ---- Metric sets ----------------------------------------------------------

  predicate Plausible(r: Reading) {
    r.kind != 0 && r.kind != P.METRIC_COUNT && r.value <= P.PlausibleMax(r.kind)
  }

  predicate Ascending(rs: seq<Reading>) {
    forall i, j | 0 <= i < j < |rs| :: rs[i].kind < rs[j].kind
  }

  predicate HasKind(rs: seq<Reading>, kind: nat) {
    exists i | 0 <= i < |rs| :: rs[i].kind == kind
  }

  function Place(rs: seq<Reading>, kind: nat): (k: nat)
    ensures k <= |rs| && (forall i | 0 <= i < k :: rs[i].kind < kind) && (k < |rs| ==> rs[k].kind >= kind)
  {
    if rs == [] || rs[0].kind >= kind then 0 else 1 + Place(rs[1..], kind)
  }

  datatype Setting = Stored(readings: seq<Reading>) | Implausible | Full | Duplicate

  function Set(rs: seq<Reading>, r: Reading): Setting {
    if !Plausible(r) then Implausible
    else if |rs| >= MAX_READINGS then Full
    else if HasKind(rs, r.kind) then Duplicate
    else Stored(rs[..Place(rs, r.kind)] + [r] + rs[Place(rs, r.kind)..])
  }

  /** Setting a new metric adds exactly that reading and keeps the set sorted without repeats. */
  lemma {:induction false} SetAdds(rs: seq<Reading>, r: Reading)
    requires Ascending(rs) && Set(rs, r).Stored?
    ensures var t := Set(rs, r).readings;
            Ascending(t) && |t| == |rs| + 1 && (forall x :: x in t <==> x == r || x in rs)
  {
    var k := Place(rs, r.kind);
    var t := Set(rs, r).readings;
    assert t[k] == r;
    assert k < |rs| ==> rs[k].kind != r.kind;
    assert forall i | 0 <= i < |t| :: t[i] == if i < k then rs[i] else if i == k then r else rs[i - 1];
    forall x | x in rs
      ensures x in t
    {
      var i :| 0 <= i < |rs| && rs[i] == x;
      assert t[if i < k then i else i + 1] == x;
    }
  }

  class MetricSet {
    var readings: seq<Reading>

    constructor ()
      ensures readings == []
    {
      readings := [];
    }

    /** The binary search every operation makes. */
    method Find(kind: nat) returns (k: nat)
      requires Ascending(readings)
      ensures k == Place(readings, kind)
      ensures HasKind(readings, kind) <==> k < |readings| && readings[k].kind == kind
    {
      var low: nat, count: nat := 0, |readings|;
      while count > 0
        invariant low + count <= |readings|
        invariant forall i | 0 <= i < low :: readings[i].kind < kind
        invariant low + count < |readings| ==> readings[low + count].kind >= kind
      {
        var half := count / 2;
        if readings[low + half].kind < kind {
          low, count := low + half + 1, count - half - 1;
        } else {
          count := half;
        }
      }
      k := low;
      PlaceIs(readings, kind, k);
    }

    method Put(r: Reading) returns (result: Setting)
      requires Ascending(readings)
      modifies this
      ensures Ascending(readings) && result == Set(old(readings), r)
      ensures readings == if result.Stored? then result.readings else old(readings)
    {
      if !Plausible(r) {
        return Implausible;
      }
      if |readings| >= MAX_READINGS {
        return Full;
      }
      var k := Find(r.kind);
      if k < |readings| && readings[k].kind == r.kind {
        return Duplicate;
      }
      SetAdds(readings, r);
      readings := readings[..k] + [r] + readings[k..];
      result := Stored(readings);
    }

    method Get(kind: nat) returns (value: Option<nat>)
      requires Ascending(readings)
      ensures value.Some? <==> HasKind(readings, kind)
      ensures value.Some? ==> Reading(kind, value.value) in readings
    {
      var k := Find(kind);
      value := if k < |readings| && readings[k].kind == kind then Some(readings[k].value) else None;
    }
  }

  lemma {:induction false} PlaceIs(rs: seq<Reading>, kind: nat, k: nat)
    requires k <= |rs| && (forall i | 0 <= i < k :: rs[i].kind < kind) && (k < |rs| ==> rs[k].kind >= kind)
    ensures k == Place(rs, kind)
    decreases rs, k
  {
    if k > 0 {
      assert forall i | 0 <= i < k - 1 :: rs[1..][i] == rs[i + 1];
      PlaceIs(rs[1..], kind, k - 1);
    }
  }

  /** Readings set one after another; none when one of them is refused. */
  function Collect(rs: seq<Reading>, more: seq<Reading>): Option<seq<Reading>>
    decreases |more|
  {
    if more == [] then Some(rs)
    else
      match Set(rs, more[0])
      case Stored(t) => Collect(t, more[1..])
      case _ => None
  }

  lemma {:induction false} CollectAll(rs: seq<Reading>, more: seq<Reading>)
    requires Ascending(rs) && Collect(rs, more).Some?
    ensures var t := Collect(rs, more).value;
            Ascending(t) && forall x :: x in t <==> x in rs || x in more
    decreases |more|
  {
    if more != [] {
      hide Ascending, Set;
      SetAdds(rs, more[0]);
      CollectAll(Set(rs, more[0]).readings, more[1..]);
      assert more == [more[0]] + more[1..];
    }
  }

  /** Sorted sets with the same readings are the same. */
  lemma {:induction false} AscendingUnique(x: seq<Reading>, y: seq<Reading>)
    requires Ascending(x) && Ascending(y) && forall r :: r in x <==> r in y
    ensures x == y
    decreases |x|
  {
    BothEmpty(x, y);
    if x != [] {
      assert x[0] in y;
      assert y[0] in x;
      Heads(x);
      Heads(y);
      assert x[0] == y[0];
      AscendingUnique(x[1..], y[1..]);
      assert x == [x[0]] + x[1..] && y == [y[0]] + y[1..];
    }
  }

  lemma {:induction false} BothEmpty(x: seq<Reading>, y: seq<Reading>)
    requires forall r :: r in x <==> r in y
    ensures x == [] <==> y == []
  {
    if x != [] {
      assert x[0] in x;
    }
    if y != [] {
      assert y[0] in y;
    }
  }

  lemma {:induction false} Heads(x: seq<Reading>)
    requires Ascending(x) && x != []
    ensures Ascending(x[1..]) && x[0] !in x[1..]
    ensures forall r :: r in x <==> r == x[0] || r in x[1..]
    ensures forall r | r in x :: r == x[0] || r.kind > x[0].kind
  {
    assert x == [x[0]] + x[1..];
  }

  /** The order in which a sample's metrics are written does not matter. */
  lemma {:induction false} CollectOrder(x: seq<Reading>, y: seq<Reading>)
    requires Collect([], x).Some? && Collect([], y).Some? && forall r :: r in x <==> r in y
    ensures Collect([], x) == Collect([], y)
  {
    hide Collect;
    CollectAll([], x);
    CollectAll([], y);
    AscendingUnique(Collect([], x).value, Collect([], y).value);
  }

  /** Collecting a sorted set of plausible readings gives it back. */
  lemma {:induction false} CollectSorted(rs: seq<Reading>, n: nat)
    requires Ascending(rs) && |rs| <= MAX_READINGS && n <= |rs| && forall r | r in rs :: Plausible(r)
    ensures Collect(rs[..n], rs[n..]) == Some(rs)
    decreases |rs| - n
  {
    if n == |rs| {
      assert rs[..n] == rs && rs[n..] == [];
    } else {
      hide Set, Ascending, Plausible;
      assert rs[n..][0] == rs[n] && rs[n..][1..] == rs[n + 1..];
      SetNext(rs, n);
      CollectSorted(rs, n + 1);
    }
  }

  /** Setting the next reading of a sorted set puts it at the end. */
  lemma {:induction false} SetNext(rs: seq<Reading>, n: nat)
    requires Ascending(rs) && |rs| <= MAX_READINGS && n < |rs| && forall r | r in rs :: Plausible(r)
    ensures Set(rs[..n], rs[n]) == Stored(rs[..n + 1])
  {
    hide Plausible;
    var front, r := rs[..n], rs[n];
    assert r in rs;
    assert forall i | 0 <= i < n :: front[i].kind < r.kind;
    PlaceIs(front, r.kind, n);
    assert front[..n] == front && front[n..] == [];
    assert front + [r] == rs[..n + 1];
  }

  // ---- Batches --------------------------------------------------------------

  /** A sample as it travels; its receipt tick and computed identity are assigned on arrival. */
  datatype Sample = Sample(
    resource: nat, queue: nat, publisher: nat, boot: nat, epoch: nat, generation: nat, sequence: nat,
    observedTick: nat, flags: nat, metrics: seq<Reading>)

  datatype Batch = Batch(epoch: nat, provenance: nat, submittedTick: nat, samples: seq<Sample>)

  const C2 := Word(2)
  const C4 := Word(4)
  const C8 := Word(8)
  const SAMPLE_LAYOUT: seq<Field> :=
    [C8, C8, C8, C8, C8, C8, C8, C8, C4, Table(MAX_READINGS, [C2, C8])]
  const BATCH_LAYOUT: seq<Field> := [C8, C8, C8, Table(MAX_BATCH, SAMPLE_LAYOUT)]

  function N(row: Row, i: nat): nat {
    if i < |row| && row[i].Num? then row[i].n else 0
  }

  function R(row: Row, i: nat): seq<Row> {
    if i < |row| && row[i].Rows? then row[i].rows else []
  }

  function ReadingRow(r: Reading): Row {
    [Num(r.kind), Num(r.value)]
  }

  function ReadingOf(row: Row): Reading {
    Reading(N(row, 0), N(row, 1))
  }

  function ReadingRows(rs: seq<Reading>): seq<Row> {
    seq(|rs|, i requires 0 <= i < |rs| => ReadingRow(rs[i]))
  }

  function ReadingsOf(rows: seq<Row>): seq<Reading> {
    seq(|rows|, i requires 0 <= i < |rows| => ReadingOf(rows[i]))
  }

  function SampleRow(s: Sample): Row {
    [Num(s.resource), Num(s.queue), Num(s.publisher), Num(s.boot), Num(s.epoch), Num(s.generation), Num(s.sequence),
     Num(s.observedTick), Num(s.flags), Rows(ReadingRows(s.metrics))]
  }

  function SampleOf(row: Row): Option<Sample> {
    match Collect([], ReadingsOf(R(row, 9)))
    case None => None
    case Some(metrics) =>
      if N(row, 0) == 0 then None
      else Some(Sample(N(row, 0), N(row, 1), N(row, 2), N(row, 3), N(row, 4), N(row, 5), N(row, 6), N(row, 7), N(row,
          8), metrics))
  }

  function SamplesOf(rows: seq<Row>): Option<seq<Sample>> {
    if rows == [] then Some([])
    else
      match SampleOf(rows[0])
      case None => None
      case Some(s) =>
        match SamplesOf(rows[1..])
        case None => None
        case Some(more) => Some([s] + more)
  }

  function SampleRows(ss: seq<Sample>): seq<Row> {
    if ss == [] then [] else [SampleRow(ss[0])] + SampleRows(ss[1..])
  }

  function BatchRow(b: Batch): Row {
    [Num(b.epoch), Num(b.provenance), Num(b.submittedTick), Rows(SampleRows(b.samples))]
  }

  /** The writer refuses what does not fit. */
  function EncodeBatch(b: Batch): Option<seq<u8>> {
    if Fits(BATCH_LAYOUT, BatchRow(b)) then Some(Encode(BATCH_LAYOUT, BatchRow(b))) else None
  }

  function DecodeBatch(bytes: seq<u8>): Option<Batch> {
    match Decode(BATCH_LAYOUT, bytes)
    case Fail(_) => None
    case Got(row, _) =>
      match SamplesOf(R(row, 3))
      case None => None
      case Some(samples) => Some(Batch(N(row, 0), N(row, 1), N(row, 2), samples))
  }

  predicate SampleOk(s: Sample) {
    s.resource != 0 && Ascending(s.metrics) && |s.metrics| <= MAX_READINGS && forall r | r in s.metrics :: Plausible(r)
  }

  lemma {:induction false} SampleThroughRow(s: Sample)
    requires SampleOk(s)
    ensures SampleOf(SampleRow(s)) == Some(s)
  {
    hide Collect, Ascending, Plausible;
    assert ReadingsOf(ReadingRows(s.metrics)) == s.metrics;
    CollectSorted(s.metrics, 0);
    assert s.metrics[..0] == [] && s.metrics[0..] == s.metrics;
  }

  lemma {:induction false} SamplesThroughRows(ss: seq<Sample>)
    requires forall s | s in ss :: SampleOk(s)
    ensures SamplesOf(SampleRows(ss)) == Some(ss)
  {
    hide SampleOk, SampleRow, SampleOf;
    if ss != [] {
      SampleThroughRow(ss[0]);
      SamplesThroughRows(ss[1..]);
      assert [ss[0]] + ss[1..] == ss;
    }
  }

  /** A valid batch the writer accepts reads back exactly, and no strict prefix of it is accepted. */
  lemma {:induction false} BatchRoundTrip(b: Batch, n: nat)
    requires (forall s | s in b.samples :: SampleOk(s)) && EncodeBatch(b).Some?
    ensures DecodeBatch(EncodeBatch(b).value) == Some(b)
    ensures n < |EncodeBatch(b).value| ==> DecodeBatch(EncodeBatch(b).value[..n]).None?
  {
    hide Fits, Encode, Decode, SampleRows, SamplesOf, SampleOk;
    var row := BatchRow(b);
    RoundTrip(BATCH_LAYOUT, row, []);
    assert Encode(BATCH_LAYOUT, row) + [] == Encode(BATCH_LAYOUT, row);
    SamplesThroughRows(b.samples);
    if n < |Encode(BATCH_LAYOUT, row)| {
      PrefixRefused(BATCH_LAYOUT, row, n);
    }
  }

  /** Whatever bytes arrive, an accepted batch holds only valid samples. */
  lemma {:induction false} DecodedValid(bytes: seq<u8>)
    requires DecodeBatch(bytes).Some?
    ensures forall s | s in DecodeBatch(bytes).value.samples :: SampleOk(s)
  {
    hide Decode, SamplesOf;
    SamplesValid(R(Decode(BATCH_LAYOUT, bytes).value, 3));
  }

  lemma {:induction false} SamplesValid(rows: seq<Row>)
    requires SamplesOf(rows).Some?
    ensures forall s | s in SamplesOf(rows).value :: SampleOk(s)
  {
    hide SampleOk, SampleOf;
    if rows != [] {
      SampleValid(rows[0]);
      SamplesValid(rows[1..]);
    }
  }

  lemma {:induction false} SampleValid(row: Row)
    requires SampleOf(row).Some?
    ensures SampleOk(SampleOf(row).value)
  {
    hide Collect, Ascending, Plausible;
    CollectBounded([], ReadingsOf(R(row, 9)));
    assert Ascending([]) by {
      Sorted0();
    }
    CollectAll([], ReadingsOf(R(row, 9)));
  }

  lemma {:induction false} Sorted0()
    ensures Ascending([])
  {
  }

  lemma {:induction false} CollectBounded(rs: seq<Reading>, more: seq<Reading>)
    requires Collect(rs, more).Some? && |rs| <= MAX_READINGS && forall r | r in rs :: Plausible(r)
    ensures var t := Collect(rs, more).value; |t| <= MAX_READINGS && forall r | r in t :: Plausible(r)
    decreases |more|
  {
    hide Plausible;
    if more != [] {
      CollectBounded(Set(rs, more[0]).readings, more[1..]);
    }
  }
}
