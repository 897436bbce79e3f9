/** The recovered document and what each mutation does to it
    (src/durability/store.cpp, src/durability/store_codec.cpp). */
module Document {
  import opened Words
  import opened Model
  import opened Layout
  import opened StoreCodec
  import J = Journal

  datatype Document = Document(
    epoch: nat, boot: nat, bootCounter: nat, authority: u64,
    policy: Option<Row>, topology: Option<Row>, capacity: Option<Row>,
    domains: seq<Row>, history: seq<Row>, interventions: seq<Row>, fences: seq<Row>,
    attempts: seq<Row>, provenance: seq<Row>, revalidations: seq<Row>,
    lastSequence: u64, mutations: u64)

  const EMPTY := Document(0, 0, 0, 0, None, None, None, [], [], [], [], [], [], [], 0, 0)

  /** Kinds that replace a whole value, and kinds that grow a list. */
  predicate IsSlot(kind: u16) {
    kind == POLICY_SET || kind == TOPOLOGY_SET || kind == CAPACITY_SET
  }

  predicate IsList(kind: u16) {
    KnownKind(kind) && !IsSlot(kind) && kind != EPOCH_ADVANCE
  }

  /** Records of these kinds carry an identity and are kept once. */
  predicate IsUnique(kind: u16) {
    kind == INTERVENTION || kind == FENCE || kind == PROVENANCE_APPEND
  }

  function Slot(d: Document, kind: u16): Option<Row> {
    if kind == POLICY_SET then d.policy else if kind == TOPOLOGY_SET then d.topology
    else if kind == CAPACITY_SET then d.capacity else None
  }

  function WithSlot(d: Document, kind: u16, row: Option<Row>): Document {
    if kind == POLICY_SET then d.(policy := row) else if kind == TOPOLOGY_SET then d.(topology := row)
    else if kind == CAPACITY_SET then d.(capacity := row) else d
  }

  function List(d: Document, kind: u16): seq<Row> {
    if kind == DOMAIN_STATE then d.domains else if kind == INTERVENTION then d.interventions
    else if kind == FENCE then d.fences else if kind == HISTORY_APPEND then d.history
    else if kind == ATTEMPT_RECORD then d.attempts else if kind == PROVENANCE_APPEND then d.provenance
    else if kind == REVALIDATION then d.revalidations else []
  }

  function WithList(d: Document, kind: u16, rows: seq<Row>): Document {
    if kind == DOMAIN_STATE then d.(domains := rows) else if kind == INTERVENTION then d.(interventions := rows)
    else if kind == FENCE then d.(fences := rows) else if kind == HISTORY_APPEND then d.(history := rows)
    else if kind == ATTEMPT_RECORD then d.(attempts := rows) else if kind == PROVENANCE_APPEND then d.(provenance := rows)
    else if kind == REVALIDATION then d.(revalidations := rows) else d
  }

  // ---- Adding to a list -----------------------------------------------------

  function Key(row: Row): nat {
    N(row, 0)
  }

  predicate HasKey(rows: seq<Row>, key: nat) {
    exists i | 0 <= i < |rows| :: Key(rows[i]) == key
  }

  predicate KeysAscend(rows: seq<Row>) {
    forall i, j | 0 <= i < j < |rows| :: Key(rows[i]) < Key(rows[j])
  }

  predicate KeysDistinct(rows: seq<Row>) {
    forall i, j | 0 <= i < j < |rows| :: Key(rows[i]) != Key(rows[j])
  }

  /** How many leading rows have a smaller key. */
  function Rank(rows: seq<Row>, key: nat): (k: nat)
    ensures k <= |rows|
    ensures forall i | 0 <= i < k :: Key(rows[i]) < key
    ensures k < |rows| ==> Key(rows[k]) >= key
  {
    if rows == [] || Key(rows[0]) >= key then 0 else 1 + Rank(rows[1..], key)
  }

  /** Replace the row with this key, or insert it in key order. */
  function Upsert(rows: seq<Row>, row: Row): seq<Row> {
    var k := Rank(rows, Key(row));
    if k < |rows| && Key(rows[k]) == Key(row) then rows[k := row] else rows[..k] + [row] + rows[k..]
  }

  function Add(kind: u16, rows: seq<Row>, row: Row): seq<Row> {
    if kind == DOMAIN_STATE then Upsert(rows, row)
    else if IsUnique(kind) && HasKey(rows, Key(row)) then rows
    else rows + [row]
  }

  /** The binary search over the sorted rows finds the rank. */
  method LowerBound(rows: seq<Row>, key: nat) returns (k: nat)
    requires KeysAscend(rows)
    ensures k == Rank(rows, key)
  {
    var low: nat, count: nat := 0, |rows|;
    while count > 0
      invariant low + count <= |rows|
      invariant forall i | 0 <= i < low :: Key(rows[i]) < key
      invariant low + count < |rows| ==> Key(rows[low + count]) >= key
    {
      var half := count / 2;
      if Key(rows[low + half]) < key {
        low, count := low + half + 1, count - half - 1;
      } else {
        count := half;
      }
    }
    k := low;
    RankIs(rows, key, k);
  }

  lemma {:induction false} RankIs(rows: seq<Row>, key: nat, k: nat)
    requires k <= |rows| && (forall i | 0 <= i < k :: Key(rows[i]) < key) && (k < |rows| ==> Key(rows[k]) >= key)
    ensures k == Rank(rows, key)
    decreases rows, k
  {
    if k > 0 {
      assert forall i | 0 <= i < k - 1 :: rows[1..][i] == rows[i + 1];
      RankIs(rows[1..], key, k - 1);
    }
  }

  /** How a list of each kind is kept. */
  predicate Arranged(kind: u16, rows: seq<Row>) {
    && (kind == DOMAIN_STATE ==> KeysAscend(rows))
    && (IsUnique(kind) ==> KeysDistinct(rows))
  }

  lemma {:induction false} UpsertAscends(rows: seq<Row>, row: Row)
    requires KeysAscend(rows)
    ensures KeysAscend(Upsert(rows, row))
    ensures forall r | r in Upsert(rows, row) :: r == row || r in rows
  {
    var k := Rank(rows, Key(row));
    var u := Upsert(rows, row);
    if !(k < |rows| && Key(rows[k]) == Key(row)) {
      assert forall i | 0 <= i < |u| :: u[i] == if i < k then rows[i] else if i == k then row else rows[i - 1];
    }
  }

  /** After an upsert the key's row is the new one and every other row is as before. */
  lemma {:induction false} UpsertReplaces(rows: seq<Row>, row: Row, other: Row)
    requires KeysAscend(rows)
    ensures row in Upsert(rows, row)
    ensures Key(other) != Key(row) ==> (other in Upsert(rows, row) <==> other in rows)
    ensures Key(other) == Key(row) && other in Upsert(rows, row) ==> other == row
  {
    UpsertAscends(rows, row);
    var k := Rank(rows, Key(row));
    var u := Upsert(rows, row);
    assert u[k] == row;
    if Key(other) != Key(row) && other in rows {
      var i :| 0 <= i < |rows| && rows[i] == other;
      assert u[if |u| == |rows| || i < k then i else i + 1] == other;
    }
    if other in u && Key(other) == Key(row) {
      var i :| 0 <= i < |u| && u[i] == other;
      assert i == k;
    }
  }

  lemma {:induction false} AddArranged(kind: u16, rows: seq<Row>, row: Row)
    requires Arranged(kind, rows)
    ensures Arranged(kind, Add(kind, rows, row))
    ensures forall r | r in Add(kind, rows, row) :: r == row || r in rows
  {
    if kind == DOMAIN_STATE {
      UpsertAscends(rows, row);
    }
  }

  // ---- Applying a mutation --------------------------------------------------

  function Apply(d: Document, kind: u16, row: Row): Document {
    if IsSlot(kind) then WithSlot(d, kind, Some(row))
    else if kind == EPOCH_ADVANCE then d.(epoch := N(row, 0), boot := N(row, 1), bootCounter := N(row, 2))
    else WithList(d, kind, Add(kind, List(d, kind), row))
  }

  /** A list of records with identities takes a record unless one of its identity is there. */
  predicate Once(rows: seq<Row>, row: Row, after: seq<Row>) {
    after == if exists r | r in rows :: N(r, 0) == N(row, 0) then rows else rows + [row]
  }

  /** The domains hold the row under its key, and every other row as before. */
  ghost predicate Placed(rows: seq<Row>, row: Row, after: seq<Row>) {
    && (forall i, j | 0 <= i < j < |after| :: N(after[i], 0) < N(after[j], 0))
    && forall r :: r in after <==> r == row || (r in rows && N(r, 0) != N(row, 0))
  }

  lemma {:induction false} AddOnce(kind: u16, rows: seq<Row>, row: Row)
    requires kind != DOMAIN_STATE && IsUnique(kind)
    ensures Once(rows, row, Add(kind, rows, row))
  {
    if HasKey(rows, Key(row)) {
      var i :| 0 <= i < |rows| && Key(rows[i]) == Key(row);
      assert rows[i] in rows;
    }
  }

  lemma {:induction false} UpsertPlaced(rows: seq<Row>, row: Row)
    requires KeysAscend(rows)
    ensures Placed(rows, row, Upsert(rows, row))
  {
    hide Upsert;
    UpsertAscends(rows, row);
    forall r
      ensures r in Upsert(rows, row) <==> r == row || (r in rows && N(r, 0) != N(row, 0))
    {
      UpsertReplaces(rows, row, r);
    }
  }

  /** What a mutation does, kind by kind: it replaces a value, sets the epoch, puts a domain in
      its place, takes a record once by its identity, or adds one at the end of its own
      list; and it touches nothing else. */
  lemma {:induction false} ApplyExact(d: Document, kind: u16, row: Row)
    requires KnownKind(kind) && KeysAscend(d.domains)
    ensures var e := Apply(d, kind, row);
            && (kind == POLICY_SET ==> e == d.(policy := Some(row)))
            && (kind == TOPOLOGY_SET ==> e == d.(topology := Some(row)))
            && (kind == CAPACITY_SET ==> e == d.(capacity := Some(row)))
            && (kind == EPOCH_ADVANCE ==> e == d.(epoch := N(row, 0), boot := N(row, 1), bootCounter := N(row, 2)))
            && (kind == DOMAIN_STATE ==> e == d.(domains := e.domains) && Placed(d.domains, row, e.domains))
            && (kind == INTERVENTION ==>
                  e == d.(interventions := e.interventions) && Once(d.interventions, row, e.interventions))
            && (kind == FENCE ==> e == d.(fences := e.fences) && Once(d.fences, row, e.fences))
            && (kind == PROVENANCE_APPEND ==>
                  e == d.(provenance := e.provenance) && Once(d.provenance, row, e.provenance))
            && (kind == HISTORY_APPEND ==> e == d.(history := d.history + [row]))
            && (kind == ATTEMPT_RECORD ==> e == d.(attempts := d.attempts + [row]))
            && (kind == REVALIDATION ==> e == d.(revalidations := d.revalidations + [row]))
  {
    UpsertPlaced(d.domains, row);
    if IsUnique(kind) {
      AddOnce(kind, List(d, kind), row);
    }
    hide Once, Placed, Upsert, HasKey;
  }

  /** A framed body: the kind in two bytes, then the body. */
  function Frame(kind: u16, body: seq<u8>): seq<u8> {
    Le(kind, 2) + body
  }

  datatype Unframed = Unframed(kind: u16, body: seq<u8>)

  /** Zero and the count are not kinds; other unknown numbers are found out later. */
  function Unframe(payload: seq<u8>): Option<Unframed> {
    if |payload| < 2 then None
    else
      UnBound(payload[..2]);
      var kind: u16 := Un(payload[..2]);
      if kind == 0 || kind == KIND_COUNT then None else Some(Unframed(kind, payload[2..]))
  }

  lemma {:induction false} UnframeFrame(kind: u16, body: seq<u8>)
    ensures Unframe(Frame(kind, body)) == if kind == 0 || kind == KIND_COUNT then None else Some(Unframed(kind, body))
  {
    UnLe16(kind);
    var f := Frame(kind, body);
    assert f[..2] == Le(kind, 2) && f[2..] == body;
  }

  /** What a payload says, when it says anything. */
  function Meaning(payload: seq<u8>): (r: Option<(u16, Row)>)
    ensures r.Some? ==> KnownKind(r.value.0)
  {
    match Unframe(payload)
    case None => None
    case Some(u) =>
      match DecodeBody(u.kind, u.body)
      case Rejected(_) => None
      case Accepted(row) => Some((u.kind, row))
  }

  function ApplyPayload(d: Document, payload: seq<u8>): Option<Document> {
    match Meaning(payload)
    case None => None
    case Some((kind, row)) => Some(Apply(d, kind, row))
  }

  // ---- Well-formed documents ------------------------------------------------

  /** A row that a record can carry. */
  predicate Good(kind: u16, row: Row) {
    Stored(kind, row) && |Encode(Columns(kind), row)| + 2 <= J.MAX_RECORD_BYTES
  }

  predicate AllGood(kind: u16, rows: seq<Row>) {
    forall r | r in rows :: Good(kind, r)
  }

  function EpochRow(d: Document): Row {
    [Num(d.epoch), Num(d.boot), Num(d.bootCounter)]
  }

  predicate EpochOk(d: Document) {
    (d.epoch == 0 && d.boot == 0 && d.bootCounter == 0) || Good(EPOCH_ADVANCE, EpochRow(d))
  }

  /** The invariant every mutation keeps: stored rows, domains strictly sorted, identities unique. */
  predicate WellFormed(d: Document) {
    && EpochOk(d)
    && (forall k: u16 | IsSlot(k) :: Slot(d, k).Some? ==> Good(k, Slot(d, k).value))
    && (forall k: u16 | IsList(k) :: Arranged(k, List(d, k)) && AllGood(k, List(d, k)))
  }

  lemma {:induction false} PayloadGood(payload: seq<u8>)
    requires Meaning(payload).Some? && |payload| <= J.MAX_RECORD_BYTES
    ensures Good(Meaning(payload).value.0, Meaning(payload).value.1)
  {
    hide DecodeBody, Stored, Encode;
    var u := Unframe(payload).value;
    DecodedIsStored(u.kind, u.body);
  }

  lemma {:induction false} ListFrame(d: Document, kind: u16, rows: seq<Row>, k: u16)
    requires IsList(kind)
    ensures List(WithList(d, kind, rows), k) == if k == kind then rows else List(d, k)
    ensures Slot(WithList(d, kind, rows), k) == Slot(d, k)
    ensures EpochRow(WithList(d, kind, rows)) == EpochRow(d)
    ensures WithList(d, kind, rows).lastSequence == d.lastSequence
  {
  }

  lemma {:induction false} SlotFrame(d: Document, kind: u16, row: Option<Row>, k: u16)
    requires IsSlot(kind)
    ensures Slot(WithSlot(d, kind, row), k) == if k == kind then row else Slot(d, k)
    ensures List(WithSlot(d, kind, row), k) == List(d, k)
    ensures EpochRow(WithSlot(d, kind, row)) == EpochRow(d)
    ensures WithSlot(d, kind, row).lastSequence == d.lastSequence
  {
  }

  lemma {:induction false} EpochRowShape(row: Row)
    requires Fits(EPOCH_LAYOUT, row)
    ensures row == [Num(N(row, 0)), Num(N(row, 1)), Num(N(row, 2))]
  {
    FitsAt(EPOCH_LAYOUT, row, 0);
    FitsAt(EPOCH_LAYOUT, row, 1);
    FitsAt(EPOCH_LAYOUT, row, 2);
  }

  lemma {:induction false} EpochOkFrame(d: Document, e: Document)
    requires EpochOk(d) && EpochRow(d) == EpochRow(e)
    ensures EpochOk(e)
  {
    assert EpochRow(d)[0] == Num(d.epoch) && EpochRow(d)[1] == Num(d.boot) && EpochRow(d)[2] == Num(d.bootCounter);
    assert EpochRow(e)[0] == Num(e.epoch) && EpochRow(e)[1] == Num(e.boot) && EpochRow(e)[2] == Num(e.bootCounter);
  }

  /** Applying a stored row keeps the document well formed. */
  lemma {:induction false} ApplyWellFormed(d: Document, kind: u16, row: Row)
    requires WellFormed(d) && Good(kind, row)
    ensures WellFormed(Apply(d, kind, row))
    ensures Apply(d, kind, row).lastSequence == d.lastSequence
  {
    hide Good, Arranged, Add, List, WithList, Slot, WithSlot, EpochRow, EpochOk;
    var e := Apply(d, kind, row);
    assert KnownKind(kind) by {
      GoodKind(kind, row);
    }
    if IsSlot(kind) {
      forall k: u16
        ensures Slot(e, k) == if k == kind then Some(row) else Slot(d, k)
        ensures List(e, k) == List(d, k) && EpochRow(e) == EpochRow(d) && e.lastSequence == d.lastSequence
      {
        SlotFrame(d, kind, Some(row), k);
      }
      EpochOkFrame(d, e);
    } else if kind == EPOCH_ADVANCE {
      EpochApplied(d, row);
    } else {
      AddArranged(kind, List(d, kind), row);
      forall k: u16
        ensures List(e, k) == if k == kind then Add(kind, List(d, kind), row) else List(d, k)
        ensures Slot(e, k) == Slot(d, k) && EpochRow(e) == EpochRow(d) && e.lastSequence == d.lastSequence
      {
        ListFrame(d, kind, Add(kind, List(d, kind), row), k);
      }
      EpochOkFrame(d, e);
    }
  }

  lemma {:induction false} GoodKind(kind: u16, row: Row)
    requires Good(kind, row)
    ensures KnownKind(kind)
  {
  }

  lemma {:induction false} EpochApplied(d: Document, row: Row)
    requires Good(EPOCH_ADVANCE, row)
    ensures var e := Apply(d, EPOCH_ADVANCE, row);
            && EpochRow(e) == row && EpochOk(e) && e.lastSequence == d.lastSequence
            && forall k: u16 :: List(e, k) == List(d, k) && Slot(e, k) == Slot(d, k)
  {
    hide Encode;
    EpochRowShape(row);
  }

  // ---- The entries of a checkpoint ------------------------------------------

  datatype Entry = Entry(kind: u16, row: Row)

  function Tagged(kind: u16, rows: seq<Row>): (es: seq<Entry>)
    ensures |es| == |rows| && forall i | 0 <= i < |rows| :: es[i] == Entry(kind, rows[i])
  {
    seq(|rows|, i requires 0 <= i < |rows| => Entry(kind, rows[i]))
  }

  function SlotEntry(d: Document, kind: u16): seq<Entry> {
    match Slot(d, kind)
    case None => []
    case Some(row) => [Entry(kind, row)]
  }

  function EpochEntry(d: Document): seq<Entry> {
    if d.epoch != 0 && d.boot != 0 then [Entry(EPOCH_ADVANCE, EpochRow(d))] else []
  }

  const LIST_ORDER: seq<u16> :=
    [DOMAIN_STATE, INTERVENTION, FENCE, HISTORY_APPEND, ATTEMPT_RECORD, PROVENANCE_APPEND, REVALIDATION]

  function ListEntries(d: Document, kinds: seq<u16>): seq<Entry> {
    if kinds == [] then [] else Tagged(kinds[0], List(d, kinds[0])) + ListEntries(d, kinds[1..])
  }

  /** The document as a checkpoint writes it, in its order. */
  function Entries(d: Document): seq<Entry> {
    SlotEntry(d, POLICY_SET) + SlotEntry(d, TOPOLOGY_SET) + SlotEntry(d, CAPACITY_SET) + EpochEntry(d)
    + ListEntries(d, LIST_ORDER)
  }

  function Fold(d: Document, es: seq<Entry>): Document
    decreases |es|
  {
    if es == [] then d else Fold(Apply(d, es[0].kind, es[0].row), es[1..])
  }

  lemma {:induction false} FoldConcat(d: Document, x: seq<Entry>, y: seq<Entry>)
    ensures Fold(d, x + y) == Fold(Fold(d, x), y)
    decreases |x|
  {
    hide Apply;
    if x == [] {
      assert x + y == y;
    } else {
      assert (x + y)[1..] == x[1..] + y;
      FoldConcat(Apply(d, x[0].kind, x[0].row), x[1..], y);
    }
  }

  /** Adding the next row of an arranged list appends it. */
  lemma {:induction false} AddAppends(kind: u16, rows: seq<Row>, n: nat)
    requires Arranged(kind, rows) && n < |rows|
    ensures Add(kind, rows[..n], rows[n]) == rows[..n + 1]
  {
    var front := rows[..n];
    assert rows[..n + 1] == front + [rows[n]];
    if kind == DOMAIN_STATE {
      var k := Rank(front, Key(rows[n]));
      assert forall i | 0 <= i < n :: front[i] == rows[i] && Key(front[i]) < Key(rows[n]);
      assert front[..n] + [rows[n]] + front[n..] == front + [rows[n]];
    }
  }

  lemma {:induction false} FoldList(d: Document, kind: u16, rows: seq<Row>, n: nat)
    requires IsList(kind) && Arranged(kind, rows) && n <= |rows|
    ensures Fold(WithList(d, kind, rows[..n]), Tagged(kind, rows[n..])) == WithList(d, kind, rows)
    decreases |rows| - n
  {
    hide Add, Arranged, List, WithList;
    var es := Tagged(kind, rows[n..]);
    if n == |rows| {
      assert rows[..n] == rows;
      assert es == [];
    } else {
      var start := WithList(d, kind, rows[..n]);
      ListFrame(d, kind, rows[..n], kind);
      AddAppends(kind, rows, n);
      ListTwice(d, kind, rows[..n], rows[..n + 1]);
      assert es[1..] == Tagged(kind, rows[n + 1..]);
      assert es[0] == Entry(kind, rows[n]);
      FoldList(d, kind, rows, n + 1);
    }
  }

  lemma {:induction false} ListTwice(d: Document, kind: u16, x: seq<Row>, y: seq<Row>)
    ensures WithList(WithList(d, kind, x), kind, y) == WithList(d, kind, y)
    ensures IsList(kind) && List(d, kind) == x ==> WithList(d, kind, x) == d
  {
  }

  /** `d` with the lists of `kinds` taken from `from`. */
  function Filled(d: Document, from: Document, kinds: seq<u16>): Document
    decreases |kinds|
  {
    if kinds == [] then d else Filled(WithList(d, kinds[0], List(from, kinds[0])), from, kinds[1..])
  }

  lemma {:induction false} FoldLists(d: Document, from: Document, kinds: seq<u16>)
    requires forall k | k in kinds :: IsList(k) && List(d, k) == [] && Arranged(k, List(from, k))
    requires forall i, j | 0 <= i < j < |kinds| :: kinds[i] != kinds[j]
    ensures Fold(d, ListEntries(from, kinds)) == Filled(d, from, kinds)
    decreases |kinds|
  {
    hide Apply, Arranged, List, WithList;
    if kinds != [] {
      var k, rows := kinds[0], List(from, kinds[0]);
      assert k in kinds;
      ListTwice(d, k, [], []);
      assert rows[..0] == [] && rows[0..] == rows;
      FoldList(d, k, rows, 0);
      var e := WithList(d, k, rows);
      forall j | j in kinds[1..]
        ensures IsList(j) && List(e, j) == [] && Arranged(j, List(from, j))
      {
        ListFrame(d, k, rows, j);
      }
      FoldLists(e, from, kinds[1..]);
      FoldConcat(d, Tagged(k, rows), ListEntries(from, kinds[1..]));
    }
  }

  function FromHeader(epoch: nat, boot: nat, counter: nat, last: u64): Document {
    EMPTY.(epoch := epoch, boot := boot, bootCounter := counter, lastSequence := last)
  }

  /** What a checkpoint keeps: everything but the authority generation and the mutation count. */
  function Kept(d: Document): Document {
    d.(authority := 0, mutations := 0)
  }

  lemma {:induction false} FoldSlots(start: Document, d: Document)
    requires start.policy.None? && start.topology.None? && start.capacity.None? && EpochRow(start) == EpochRow(d)
    ensures Fold(start, SlotEntry(d, POLICY_SET) + SlotEntry(d, TOPOLOGY_SET) + SlotEntry(d,
        CAPACITY_SET) + EpochEntry(d))
         == start.(policy := d.policy, topology := d.topology, capacity := d.capacity)
  {
    var p, t, c := SlotEntry(d, POLICY_SET), SlotEntry(d, TOPOLOGY_SET), SlotEntry(d, CAPACITY_SET);
    FoldConcat(start, p + t + c, EpochEntry(d));
    FoldConcat(start, p + t, c);
    FoldConcat(start, p, t);
    FoldOne(start, d, POLICY_SET);
    var a := Fold(start, p);
    FoldOne(a, d, TOPOLOGY_SET);
    var b := Fold(a, t);
    FoldOne(b, d, CAPACITY_SET);
    FoldEpoch(Fold(b, c), d);
  }

  lemma {:induction false} FoldOne(s: Document, d: Document, kind: u16)
    requires IsSlot(kind) && Slot(s, kind).None?
    ensures Fold(s, SlotEntry(d, kind)) == WithSlot(s, kind, Slot(d, kind))
  {
    if Slot(d, kind).Some? {
      var row := Slot(d, kind).value;
      assert [Entry(kind, row)][1..] == [];
      assert Fold(s, [Entry(kind, row)]) == Fold(Apply(s, kind, row), []);
    }
  }

  lemma {:induction false} FoldEpoch(s: Document, d: Document)
    requires EpochRow(s) == EpochRow(d)
    ensures Fold(s, EpochEntry(d)) == s
  {
    if EpochEntry(d) != [] {
      var row := EpochRow(d);
      assert row[0] == EpochRow(s)[0] && row[1] == EpochRow(s)[1] && row[2] == EpochRow(s)[2];
      assert Apply(s, EPOCH_ADVANCE, row) == s;
      assert [Entry(EPOCH_ADVANCE, row)][1..] == [];
      assert Fold(s, [Entry(EPOCH_ADVANCE, row)]) == Fold(Apply(s, EPOCH_ADVANCE, row), []);
    }
  }

  lemma {:induction false} ListOrder()
    ensures forall k: u16 | IsList(k) :: k in LIST_ORDER
    ensures forall k | k in LIST_ORDER :: IsList(k)
    ensures forall i, j | 0 <= i < j < |LIST_ORDER| :: LIST_ORDER[i] != LIST_ORDER[j]
  {
    assert LIST_ORDER[0] == DOMAIN_STATE && LIST_ORDER[1] == INTERVENTION && LIST_ORDER[2] == FENCE;
    assert LIST_ORDER[3] == HISTORY_APPEND && LIST_ORDER[4] == ATTEMPT_RECORD && LIST_ORDER[5] == PROVENANCE_APPEND;
    assert LIST_ORDER[6] == REVALIDATION;
  }

  lemma {:induction false} FilledIs(s: Document, d: Document, kinds: seq<u16>, k: u16)
    requires forall j | j in kinds :: IsList(j)
    ensures var f := Filled(s, d, kinds);
            && List(f, k) == (if k in kinds then List(d, k) else List(s, k))
            && f.policy == s.policy && f.topology == s.topology && f.capacity == s.capacity
            && f.epoch == s.epoch && f.boot == s.boot && f.bootCounter == s.bootCounter
            && f.authority == s.authority && f.lastSequence == s.lastSequence && f.mutations == s.mutations
    decreases |kinds|
  {
    if kinds != [] {
      hide List;
      var t := WithList(s, kinds[0], List(d, kinds[0]));
      ListFrame(s, kinds[0], List(d, kinds[0]), k);
      assert forall j | j in kinds[1..] :: j in kinds;
      FilledIs(t, d, kinds[1..], k);
    }
  }

  /** Applying a checkpoint's entries to the document its header starts gives the document back. */
  lemma {:induction false} EntriesRestore(d: Document)
    requires forall k: u16 | IsList(k) :: Arranged(k, List(d, k))
    ensures Fold(FromHeader(d.epoch, d.boot, d.bootCounter, d.lastSequence), Entries(d)) == Kept(d)
  {
    hide Fold, Entries, Arranged;
    var start := FromHeader(d.epoch, d.boot, d.bootCounter, d.lastSequence);
    var mid := start.(policy := d.policy, topology := d.topology, capacity := d.capacity);
    SplitEntries(d);
    FoldSlots(start, d);
    FoldConcat(start, SlotEntry(d, POLICY_SET) + SlotEntry(d, TOPOLOGY_SET) + SlotEntry(d, CAPACITY_SET) + EpochEntry(d),
               ListEntries(d, LIST_ORDER));
    ListOrder();
    FoldLists(mid, d, LIST_ORDER);
    var f := Filled(mid, d, LIST_ORDER);
    SameLists(f, mid, d);
  }

  lemma {:induction false} SplitEntries(d: Document)
    ensures Entries(d) == (SlotEntry(d, POLICY_SET) + SlotEntry(d, TOPOLOGY_SET) + SlotEntry(d,
        CAPACITY_SET) + EpochEntry(d))
                          + ListEntries(d, LIST_ORDER)
  {
  }

  lemma {:induction false} SameLists(f: Document, mid: Document, d: Document)
    requires f == Filled(mid, d, LIST_ORDER)
    requires mid.policy == d.policy && mid.topology == d.topology && mid.capacity == d.capacity
    requires mid.epoch == d.epoch && mid.boot == d.boot && mid.bootCounter == d.bootCounter
    requires mid.authority == 0 && mid.mutations == 0 && mid.lastSequence == d.lastSequence
    ensures f == Kept(d)
  {
    hide Filled, IsList;
    ListOrder();
    FilledIs(mid, d, LIST_ORDER, DOMAIN_STATE);
    FilledIs(mid, d, LIST_ORDER, INTERVENTION);
    FilledIs(mid, d, LIST_ORDER, FENCE);
    FilledIs(mid, d, LIST_ORDER, HISTORY_APPEND);
    FilledIs(mid, d, LIST_ORDER, ATTEMPT_RECORD);
    FilledIs(mid, d, LIST_ORDER, PROVENANCE_APPEND);
    FilledIs(mid, d, LIST_ORDER, REVALIDATION);
    ListsNamed(f);
    ListsNamed(d);
    assert forall k | k in [DOMAIN_STATE, INTERVENTION, FENCE, HISTORY_APPEND, ATTEMPT_RECORD, PROVENANCE_APPEND,
        REVALIDATION] :: k in LIST_ORDER;
  }

  lemma {:induction false} ListsNamed(d: Document)
    ensures List(d, DOMAIN_STATE) == d.domains && List(d, INTERVENTION) == d.interventions
    ensures List(d, FENCE) == d.fences && List(d, HISTORY_APPEND) == d.history
    ensures List(d, ATTEMPT_RECORD) == d.attempts && List(d, PROVENANCE_APPEND) == d.provenance
    ensures List(d, REVALIDATION) == d.revalidations
    ensures IsList(DOMAIN_STATE) && IsList(INTERVENTION) && IsList(FENCE) && IsList(HISTORY_APPEND)
    ensures IsList(ATTEMPT_RECORD) && IsList(PROVENANCE_APPEND) && IsList(REVALIDATION)
  {
  }
}
