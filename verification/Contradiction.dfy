/** Contradictory readings: which one wins, and when publishers disagree beyond
    tolerance (src/eval/evaluator.cpp, include/ncf/core/checked.hpp). */
module Contradiction {
  import opened Words
  import P = Policy

  datatype Observation = Observation(
    value: nat, publisher: nat, generation: nat, observed: nat, degraded: bool, future: bool, snapshot: nat)

  /** Newest observation first, then lowest publisher, then highest generation. */
  predicate Better(c: Observation, i: Observation) {
    if c.observed != i.observed then c.observed > i.observed
    else if c.publisher != i.publisher then c.publisher < i.publisher
    else c.generation > i.generation
  }

  lemma {:induction false} BetterTransitive(x: Observation, y: Observation, z: Observation)
    requires !Better(x, y) && !Better(y, z)
    ensures !Better(x, z)
  {
  }

  // ---- One reading per publisher --------------------------------------------

  predicate ByPublisher(s: seq<Observation>) {
    forall i, j | 0 <= i < j < |s| :: s[i].publisher < s[j].publisher
  }

  function Slot(s: seq<Observation>, publisher: nat): (k: nat)
    ensures k <= |s| && (forall i | 0 <= i < k :: s[i].publisher < publisher) && (k < |s| ==> s[k].publisher >= publisher)
  {
    if s == [] || s[0].publisher >= publisher then 0 else 1 + Slot(s[1..], publisher)
  }

  /** Keep the better of a publisher's readings; the first stands on a tie. */
  function Keep(s: seq<Observation>, o: Observation): seq<Observation> {
    var k := Slot(s, o.publisher);
    if k < |s| && s[k].publisher == o.publisher then (if Better(o, s[k]) then s[k := o] else s)
    else s[..k] + [o] + s[k..]
  }

  function Kept(bucket: seq<Observation>): seq<Observation> {
    if bucket == [] then [] else Keep(Kept(bucket[..|bucket| - 1]), bucket[|bucket| - 1])
  }

  /** `s` holds for each publisher of the bucket one of its readings, none of the bucket's better. */
  predicate Represents(s: seq<Observation>, bucket: seq<Observation>) {
    && ByPublisher(s)
    && (forall o | o in s :: o in bucket)
    && (forall o | o in bucket :: exists k :: 0 <= k < |s| && s[k].publisher == o.publisher && !Better(o, s[k]))
  }

  predicate Found(s: seq<Observation>, publisher: nat) {
    var k := Slot(s, publisher);
    k < |s| && s[k].publisher == publisher
  }

  lemma {:induction false} KeepAt(s: seq<Observation>, o: Observation, i: nat)
    requires i < |Keep(s, o)|
    ensures var k := Slot(s, o.publisher);
            Keep(s, o)[i] == if Found(s, o.publisher) then (if i == k && Better(o, s[k]) then o else s[i])
                             else if i < k then s[i] else if i == k then o else s[i - 1]
    ensures |Keep(s, o)| == if Found(s, o.publisher) then |s| else |s| + 1
  {
  }

  lemma {:induction false} KeepSorted(s: seq<Observation>, o: Observation)
    requires ByPublisher(s)
    ensures ByPublisher(Keep(s, o)) && forall x | x in Keep(s, o) :: x in s || x == o
  {
    hide Keep, Better;
    var t := Keep(s, o);
    forall i, j | 0 <= i < j < |t|
      ensures t[i].publisher < t[j].publisher
    {
      KeepAt(s, o, i);
      KeepAt(s, o, j);
    }
    forall x | x in t
      ensures x in s || x == o
    {
      var i :| 0 <= i < |t| && t[i] == x;
      KeepAt(s, o, i);
    }
  }

  /** The slot of an old reading still holds one of its publisher's, no worse. */
  lemma {:induction false} KeepHolds(s: seq<Observation>, o: Observation, x: Observation, j: nat)
    requires j < |s| && s[j].publisher == x.publisher && !Better(x, s[j])
    ensures var t := Keep(s, o); exists i :: 0 <= i < |t| && t[i].publisher == x.publisher && !Better(x, t[i])
  {
    hide Keep, Better;
    var t, k := Keep(s, o), Slot(s, o.publisher);
    KeepSize(s, o);
    KeepAt(s, o, 0);
    var i := if Found(s, o.publisher) || j < k then j else j + 1;
    KeepAt(s, o, i);
    BetterAsymmetric(x, s[j], o);
    assert t[i].publisher == x.publisher && !Better(x, t[i]);
  }

  lemma {:induction false} BetterAsymmetric(x: Observation, y: Observation, o: Observation)
    ensures !Better(x, y) && Better(o, y) ==> !Better(x, o)
    ensures !Better(o, o)
  {
  }

  lemma {:induction false} KeepHasNew(s: seq<Observation>, o: Observation)
    ensures var t := Keep(s, o); exists i :: 0 <= i < |t| && t[i].publisher == o.publisher && !Better(o, t[i])
  {
    hide Keep, Better;
    var t, k := Keep(s, o), Slot(s, o.publisher);
    KeepSize(s, o);
    KeepAt(s, o, k);
    BetterAsymmetric(o, o, o);
    assert t[k].publisher == o.publisher && !Better(o, t[k]);
  }

  lemma {:induction false} KeepSize(s: seq<Observation>, o: Observation)
    ensures Slot(s, o.publisher) < |Keep(s, o)| && |s| <= |Keep(s, o)|
  {
  }

  lemma {:induction false} KeepRepresents(s: seq<Observation>, bucket: seq<Observation>, o: Observation)
    requires Represents(s, bucket)
    ensures Represents(Keep(s, o), bucket + [o])
  {
    hide Keep, Better, ByPublisher;
    KeepSorted(s, o);
    KeepHasNew(s, o);
    var t := Keep(s, o);
    forall x | x in bucket + [o]
      ensures exists j :: 0 <= j < |t| && t[j].publisher == x.publisher && !Better(x, t[j])
    {
      if x in bucket {
        var j :| 0 <= j < |s| && s[j].publisher == x.publisher && !Better(x, s[j]);
        KeepHolds(s, o, x, j);
      }
    }
  }

  lemma {:induction false} KeptRepresents(bucket: seq<Observation>)
    ensures Represents(Kept(bucket), bucket)
    decreases |bucket|
  {
    hide Represents, Keep;
    if bucket == [] {
      assert Represents([], []) by {
        EmptyRepresents();
      }
    } else {
      var front, o := bucket[..|bucket| - 1], bucket[|bucket| - 1];
      KeptRepresents(front);
      KeepRepresents(Kept(front), front, o);
      assert bucket == front + [o];
    }
  }

  lemma {:induction false} EmptyRepresents()
    ensures Represents([], [])
  {
  }

  /** No publisher has two readings that tie in age and generation; one reading per
      publisher is the plainest case. */
  predicate Untied(bucket: seq<Observation>) {
    forall x, y | x in bucket && y in bucket && x != y && x.publisher == y.publisher :: Better(x, y) || Better(y, x)
  }

  /** The representative of a publisher is fixed by the set of readings. */
  lemma {:induction false} RepresentativeIs(s: seq<Observation>, bucket: seq<Observation>, o: Observation)
    requires Represents(s, bucket) && Untied(bucket)
    ensures o in s <==> o in bucket && forall x | x in bucket && x.publisher == o.publisher :: !Better(x, o)
  {
    if o in s {
      var i :| 0 <= i < |s| && s[i] == o;
      forall x | x in bucket && x.publisher == o.publisher
        ensures !Better(x, o)
      {
        var k :| 0 <= k < |s| && s[k].publisher == x.publisher && !Better(x, s[k]);
        assert k == i;
      }
    }
    if o in bucket && forall x | x in bucket && x.publisher == o.publisher :: !Better(x, o) {
      var k :| 0 <= k < |s| && s[k].publisher == o.publisher && !Better(o, s[k]);
      assert s[k] in s && s[k] in bucket;
    }
  }

  lemma {:induction false} ByPublisherUnique(x: seq<Observation>, y: seq<Observation>)
    requires ByPublisher(x) && ByPublisher(y) && forall o :: o in x <==> o in y
    ensures x == y
    decreases |x|
  {
    hide ByPublisher;
    BothEmpty(x, y);
    if x != [] {
      assert x[0] in y;
      assert y[0] in x;
      Head(x);
      Head(y);
      assert x[0] == y[0];
      ByPublisherUnique(x[1..], y[1..]);
      assert x == [x[0]] + x[1..] && y == [y[0]] + y[1..];
    }
  }

  lemma {:induction false} BothEmpty(x: seq<Observation>, y: seq<Observation>)
    requires forall o :: o in x <==> o in y
    ensures x == [] <==> y == []
  {
    if x != [] {
      assert x[0] in x;
    }
    if y != [] {
      assert y[0] in y;
    }
  }

  lemma {:induction false} Head(x: seq<Observation>)
    requires ByPublisher(x) && x != []
    ensures ByPublisher(x[1..]) && x[0] !in x[1..]
    ensures forall o :: o in x <==> o == x[0] || o in x[1..]
    ensures forall o | o in x :: o == x[0] || o.publisher > x[0].publisher
  {
    assert x == [x[0]] + x[1..];
  }

  /** The readings kept do not depend on the order in which they came. */
  lemma {:induction false} KeptOrderless(x: seq<Observation>, y: seq<Observation>)
    requires Untied(x) && forall o :: o in x <==> o in y
    ensures Kept(x) == Kept(y)
  {
    hide Represents, Better, Kept;
    KeptRepresents(x);
    KeptRepresents(y);
    forall o
      ensures o in Kept(x) <==> o in Kept(y)
    {
      RepresentativeIs(Kept(x), x, o);
      RepresentativeIs(Kept(y), y, o);
    }
    assert ByPublisher(Kept(x)) && ByPublisher(Kept(y)) by {
      RepresentsSorted(Kept(x), x);
      RepresentsSorted(Kept(y), y);
    }
    ByPublisherUnique(Kept(x), Kept(y));
  }

  lemma {:induction false} RepresentsSorted(s: seq<Observation>, bucket: seq<Observation>)
    requires Represents(s, bucket)
    ensures ByPublisher(s)
  {
  }

  // ---- Winner and spread ----------------------------------------------------

  function Winner(s: seq<Observation>): Observation
    requires s != []
    decreases |s|
  {
    if |s| == 1 then s[0]
    else
      var w := Winner(s[..|s| - 1]);
      if Better(s[|s| - 1], w) then s[|s| - 1] else w
  }

  lemma {:induction false} WinnerBest(s: seq<Observation>)
    requires s != []
    ensures Winner(s) in s && forall o | o in s :: !Better(o, Winner(s))
    decreases |s|
  {
    if |s| > 1 {
      var front, last := s[..|s| - 1], s[|s| - 1];
      WinnerBest(front);
      assert s == front + [last];
    }
  }

  /** No reading that came in is better than the winner, and the winner came in. */
  lemma {:induction false} WinnerIsBest(bucket: seq<Observation>)
    requires bucket != []
    ensures Kept(bucket) != [] && Winner(Kept(bucket)) in bucket
    ensures forall o | o in bucket :: !Better(o, Winner(Kept(bucket)))
  {
    hide Better, Winner, Kept;
    KeptRepresents(bucket);
    var s := Kept(bucket);
    assert bucket[0] in bucket;
    WinnerBest(s);
    forall o | o in bucket
      ensures !Better(o, Winner(s))
    {
      var k :| 0 <= k < |s| && s[k].publisher == o.publisher && !Better(o, s[k]);
      assert s[k] in s;
      BetterTransitive(o, s[k], Winner(s));
    }
  }

  function Low(s: seq<Observation>): nat
    requires s != []
  {
    if |s| == 1 then s[0].value else if Low(s[1..]) < s[0].value then Low(s[1..]) else s[0].value
  }

  function High(s: seq<Observation>): nat
    requires s != []
  {
    if |s| == 1 then s[0].value else if High(s[1..]) > s[0].value then High(s[1..]) else s[0].value
  }

  lemma {:induction false} Extremes(s: seq<Observation>)
    requires s != []
    ensures forall o | o in s :: Low(s) <= o.value <= High(s)
    ensures exists i, j :: 0 <= i < |s| && 0 <= j < |s| && s[i].value == Low(s) && s[j].value == High(s)
  {
    if |s| == 1 {
      assert s[0].value == Low(s) && s[0].value == High(s);
    } else {
      Extremes(s[1..]);
      var i, j :| 0 <= i < |s[1..]| && 0 <= j < |s[1..]| && s[1..][i].value == Low(s[1..])
          && s[1..][j].value == High(s[1..]);
      var i' := if Low(s[1..]) < s[0].value then i + 1 else 0;
      var j' := if High(s[1..]) > s[0].value then j + 1 else 0;
      assert s[i'].value == Low(s) && s[j'].value == High(s);
      forall o | o in s
        ensures Low(s) <= o.value <= High(s)
      {
        assert o == s[0] || o in s[1..];
      }
    }
  }

  function Saturated(n: nat): nat {
    if n > MAX_U64 then MAX_U64 else n
  }

  /** Parts per million of a magnitude, saturating. */
  function ApplyPpm(magnitude: nat, ppm: nat): nat {
    Saturated(Saturated(magnitude / 1_000_000 * ppm) + magnitude % 1_000_000 * ppm / 1_000_000)
  }

  function Tolerance(c: P.Contradiction, value: nat): nat {
    if ApplyPpm(value, c.relativePpm) > c.absolute then ApplyPpm(value, c.relativePpm) else c.absolute
  }

  /** The one test the evaluator makes, on the extremes. */
  predicate Disagree(c: P.Contradiction, s: seq<Observation>) {
    |s| >= c.minDistinct && s != [] && High(s) - Low(s) > Tolerance(c, High(s))
  }

  /** The rule it stands for: two readings further apart than tolerated at the larger. */
  predicate PairBeyond(c: P.Contradiction, a: nat, b: nat) {
    a < b && b - a > Tolerance(c, b)
  }

  lemma {:induction false} PpmExact(m: nat, ppm: nat)
    requires m <= MAX_U64 && ppm <= 1_000_000
    ensures ApplyPpm(m, ppm) == m * ppm / 1_000_000
  {
    P.PortionExact(m, ppm);
    assert m / 1_000_000 * ppm <= m / 1_000_000 * 1_000_000;
    assert m % 1_000_000 * ppm <= m % 1_000_000 * 1_000_000;
  }

  /** A larger reading raises the tolerance by no more than it rose itself. */
  lemma {:induction false} PpmGrows(m: nat, n: nat, ppm: nat)
    requires m <= n <= MAX_U64 && ppm <= 1_000_000
    ensures ApplyPpm(n, ppm) <= ApplyPpm(m, ppm) + (n - m)
  {
    PpmExact(m, ppm);
    PpmExact(n, ppm);
    P.PortionExact(m, ppm);
    P.PortionExact(n, ppm);
    P.PortionGrows(m, n, ppm);
    hide ApplyPpm, P.Portion;
  }

  /** The single test on the extremes is the pairwise rule. */
  lemma {:induction false} ExtremesDecide(c: P.Contradiction, s: seq<Observation>)
    requires c.relativePpm <= 1_000_000 && s != [] && forall o | o in s :: o.value <= MAX_U64
    ensures High(s) - Low(s) > Tolerance(c, High(s))
       <==> exists i, j :: 0 <= i < |s| && 0 <= j < |s| && PairBeyond(c, s[i].value, s[j].value)
  {
    hide ApplyPpm;
    Extremes(s);
    var l, h :| 0 <= l < |s| && 0 <= h < |s| && s[l].value == Low(s) && s[h].value == High(s);
    assert s[h] in s;
    if High(s) - Low(s) > Tolerance(c, High(s)) {
      assert PairBeyond(c, s[l].value, s[h].value);
    }
    forall i, j | 0 <= i < |s| && 0 <= j < |s| && PairBeyond(c, s[i].value, s[j].value)
      ensures High(s) - Low(s) > Tolerance(c, High(s))
    {
      assert s[i] in s && s[j] in s;
      PpmGrows(s[j].value, High(s), c.relativePpm);
    }
  }

  // ---- The decision for one key ---------------------------------------------

  datatype Decision = Decision(winner: Observation, conflict: bool, resolved: bool)

  const PREFER_PRIORITY: nat := 1

  function RankIn(order: seq<nat>, publisher: nat): (k: nat)
    ensures k <= |order|
  {
    if order == [] then 0 else if order[0] == publisher then 0 else 1 + RankIn(order[1..], publisher)
  }

  /** The kept reading whose publisher is ranked first, or the default when none is ranked. */
  function Preferred(order: seq<nat>, s: seq<Observation>, default: Observation): Observation
    decreases |s|
  {
    if s == [] then default
    else
      var p := Preferred(order, s[..|s| - 1], default);
      if RankIn(order, s[|s| - 1].publisher) < BestRank(order, s[..|s| - 1]) then s[|s| - 1] else p
  }

  function BestRank(order: seq<nat>, s: seq<Observation>): (k: nat)
    ensures k <= |order|
    decreases |s|
  {
    if s == [] then |order|
    else
      var b := BestRank(order, s[..|s| - 1]);
      var r := RankIn(order, s[|s| - 1].publisher);
      if r < b then r else b
  }

  /** What is decided from the readings kept: under the rejecting mode a disagreement
      stays unresolved; under priority the best-ranked publisher present wins it. */
  function Decide(c: P.Contradiction, s: seq<Observation>): Decision
    requires s != []
  {
    var conflict := Disagree(c, s);
    var winner := if conflict && c.mode == PREFER_PRIORITY then Preferred(c.priority, s, Winner(s)) else Winner(s);
    Decision(winner, conflict, conflict && c.mode != 0)
  }

  /** The whole decision for a key is the same in whatever order its readings arrived. */
  lemma {:induction false} DecisionOrderless(c: P.Contradiction, x: seq<Observation>, y: seq<Observation>)
    requires Untied(x) && x != [] && y != [] && forall o :: o in x <==> o in y
    ensures Kept(x) != [] && Kept(y) != [] && Decide(c, Kept(x)) == Decide(c, Kept(y))
  {
    hide Kept, Decide;
    KeptOrderless(x, y);
    WinnerIsBest(x);
  }

  lemma {:induction false} PreferredRank(order: seq<nat>, s: seq<Observation>, default: Observation)
    ensures var p := Preferred(order, s, default);
            if BestRank(order, s) == |order| then p == default
            else p in s && RankIn(order, p.publisher) == BestRank(order, s)
    ensures forall o | o in s :: BestRank(order, s) <= RankIn(order, o.publisher)
    decreases |s|
  {
    if s != [] {
      var front, last := s[..|s| - 1], s[|s| - 1];
      PreferredRank(order, front, default);
      assert s == front + [last];
    }
  }

  /** The decided reading always came in. */
  lemma {:induction false} DecidedCameIn(c: P.Contradiction, bucket: seq<Observation>)
    requires bucket != []
    ensures Kept(bucket) != [] && Decide(c, Kept(bucket)).winner in bucket
  {
    hide Kept, Winner, Disagree;
    WinnerIsBest(bucket);
    KeptRepresents(bucket);
    PreferredRank(c.priority, Kept(bucket), Winner(Kept(bucket)));
  }

  /** A key is in conflict exactly when enough publishers reported it and some two of
      the kept readings are further apart than tolerated. */
  lemma {:induction false} ConflictIsPairwise(c: P.Contradiction, bucket: seq<Observation>)
    requires bucket != [] && c.relativePpm <= 1_000_000 && forall o | o in bucket :: o.value <= MAX_U64
    ensures var s := Kept(bucket);
            s != [] && (Decide(c, s).conflict <==>
                          |s| >= c.minDistinct
                          && exists i, j :: 0 <= i < |s| && 0 <= j < |s| && PairBeyond(c, s[i].value, s[j].value))
  {
    hide Kept, Winner, High, Low, Tolerance, PairBeyond;
    WinnerIsBest(bucket);
    KeptRepresents(bucket);
    ExtremesDecide(c, Kept(bucket));
  }

  // ---- What is decided, from the readings alone -----------------------------

  /** Of each publisher that reported exactly one reading is kept, its newest, and of
      equally new ones one of the highest generation. */
  lemma {:induction false} KeptMeans(bucket: seq<Observation>)
    ensures forall i, j | 0 <= i < j < |Kept(bucket)| :: Kept(bucket)[i].publisher < Kept(bucket)[j].publisher
    ensures forall o | o in bucket :: exists x :: x in Kept(bucket) && x.publisher == o.publisher
    ensures forall o | o in Kept(bucket) :: o in bucket && forall x | x in bucket && x.publisher == o.publisher ::
              x.observed < o.observed || (x.observed == o.observed && x.generation <= o.generation)
  {
    hide Kept;
    KeptRepresents(bucket);
    var s := Kept(bucket);
    forall o, x | o in s && x in bucket && x.publisher == o.publisher
      ensures x.observed < o.observed || (x.observed == o.observed && x.generation <= o.generation)
    {
      var i :| 0 <= i < |s| && s[i] == o;
      var k :| 0 <= k < |s| && s[k].publisher == x.publisher && !Better(x, s[k]);
      assert k == i;
    }
    forall o | o in bucket
      ensures exists x :: x in s && x.publisher == o.publisher
    {
      var k :| 0 <= k < |s| && s[k].publisher == o.publisher && !Better(o, s[k]);
      assert s[k] in s;
    }
  }

  /** Two readings further apart than the absolute tolerance and than the larger one's share. */
  predicate Apart(c: P.Contradiction, a: nat, b: nat) {
    b > a + c.absolute && b > a + b * c.relativePpm / 1_000_000
  }

  /** Enough publishers reported, and some two of the readings are apart. */
  predicate Clashes(c: P.Contradiction, s: seq<Observation>) {
    |s| >= c.minDistinct && exists i, j :: 0 <= i < |s| && 0 <= j < |s| && Apart(c, s[i].value, s[j].value)
  }

  /** Newest, and of equally new ones the lowest publisher's. */
  predicate Foremost(s: seq<Observation>, w: Observation) {
    w in s && forall o | o in s :: o.observed < w.observed || (o.observed == w.observed && w.publisher <= o.publisher)
  }

  /** Of the publishers that reported, the one listed first. */
  predicate Favoured(order: seq<nat>, s: seq<Observation>, w: Observation) {
    w in s && exists i :: 0 <= i < |order| && order[i] == w.publisher && forall o | o in s :: o.publisher !in order[..i]
  }

  /** The reading that wins: under the priority mode a clash is won by the publisher listed
      first, if one is listed; anything else by the newest reading. */
  predicate Wins(c: P.Contradiction, s: seq<Observation>, w: Observation) {
    if c.mode == PREFER_PRIORITY && Clashes(c, s) && exists o :: o in s && o.publisher in c.priority
    then Favoured(c.priority, s, w) else Foremost(s, w)
  }

  lemma {:induction false} PairIsApart(c: P.Contradiction, a: nat, b: nat)
    requires c.relativePpm <= 1_000_000 && b <= MAX_U64
    ensures PairBeyond(c, a, b) <==> Apart(c, a, b)
  {
    PpmExact(b, c.relativePpm);
    hide ApplyPpm;
  }

  lemma {:induction false} ClashExact(c: P.Contradiction, s: seq<Observation>)
    requires s != [] && c.relativePpm <= 1_000_000 && forall o | o in s :: o.value <= MAX_U64
    ensures Disagree(c, s) <==> Clashes(c, s)
  {
    hide Tolerance, PairBeyond, Apart, High, Low;
    ExtremesDecide(c, s);
    forall i, j | 0 <= i < |s| && 0 <= j < |s|
      ensures PairBeyond(c, s[i].value, s[j].value) <==> Apart(c, s[i].value, s[j].value)
    {
      assert s[j] in s;
      PairIsApart(c, s[i].value, s[j].value);
    }
  }

  lemma {:induction false} RankMeans(order: seq<nat>, publisher: nat)
    ensures var k := RankIn(order, publisher);
            publisher !in order[..k] && if k < |order| then order[k] == publisher else publisher !in order
  {
    if order != [] && order[0] != publisher {
      RankMeans(order[1..], publisher);
      var k := RankIn(order[1..], publisher);
      assert order == [order[0]] + order[1..] && order[..k + 1] == [order[0]] + order[1..][..k];
    }
  }

  lemma {:induction false} PreferredMeans(order: seq<nat>, s: seq<Observation>, default: Observation)
    ensures var p := Preferred(order, s, default);
            if exists o :: o in s && o.publisher in order then Favoured(order, s, p) else p == default
  {
    hide Preferred, BestRank;
    PreferredRank(order, s, default);
    var best := BestRank(order, s);
    forall o | o in s
      ensures o.publisher !in order[..best] && (o.publisher in order ==> best < |order|)
    {
      RankMeans(order, o.publisher);
      var r := RankIn(order, o.publisher);
      assert order[..best] == order[..r][..best];
    }
    if best < |order| {
      var p := Preferred(order, s, default);
      RankMeans(order, p.publisher);
      assert order[best] == p.publisher && order[best] in order;
    }
  }

  lemma {:induction false} FavouredUnique(order: seq<nat>, s: seq<Observation>, v: Observation, w: Observation)
    requires ByPublisher(s) && Favoured(order, s, v) && Favoured(order, s, w)
    ensures v == w
  {
    var i :| 0 <= i < |order| && order[i] == v.publisher && forall o | o in s :: o.publisher !in order[..i];
    var j :| 0 <= j < |order| && order[j] == w.publisher && forall o | o in s :: o.publisher !in order[..j];
    ListedBefore(order, i, j);
    ListedBefore(order, j, i);
    SamePublisher(s, v, w);
  }

  lemma {:induction false} ListedBefore(order: seq<nat>, i: nat, j: nat)
    requires i < |order| && j <= |order|
    ensures i < j ==> order[i] in order[..j]
  {
    if i < j {
      assert order[..j][i] == order[i];
    }
  }

  lemma {:induction false} SamePublisher(s: seq<Observation>, v: Observation, w: Observation)
    requires ByPublisher(s) && v in s && w in s && v.publisher == w.publisher
    ensures v == w
  {
  }

  lemma {:induction false} WinnerForemost(s: seq<Observation>)
    requires ByPublisher(s) && s != []
    ensures Foremost(s, Winner(s))
  {
    hide Winner, ByPublisher;
    WinnerBest(s);
  }

  /** The whole verdict on a key: conflict exactly when the kept readings clash, resolved
      exactly when the mode is not to reject, and the winner exactly the reading that wins. */
  lemma {:induction false} VerdictExact(c: P.Contradiction, bucket: seq<Observation>, w: Observation)
    requires bucket != [] && c.relativePpm <= 1_000_000 && forall o | o in bucket :: o.value <= MAX_U64
    ensures var s := Kept(bucket);
            && s != []
            && (Decide(c, s).conflict <==> Clashes(c, s))
            && (Decide(c, s).resolved <==> Clashes(c, s) && c.mode != 0)
            && (Decide(c, s).winner == w <==> Wins(c, s, w))
  {
    hide Kept, Disagree, Clashes, Favoured, Foremost, Preferred, Winner, ByPublisher, Better;
    WinnerIsBest(bucket);
    KeptRepresents(bucket);
    var s := Kept(bucket);
    ClashExact(c, s);
    WinnerForemost(s);
    PreferredMeans(c.priority, s, Winner(s));
    assert Wins(c, s, Decide(c, s).winner);
    if Wins(c, s, w) {
      WinUnique(c, s, w, Decide(c, s).winner);
    }
  }

  lemma {:induction false} WinUnique(c: P.Contradiction, s: seq<Observation>, v: Observation, w: Observation)
    requires ByPublisher(s) && Wins(c, s, v) && Wins(c, s, w)
    ensures v == w
  {
    hide Clashes;
    if Favoured(c.priority, s, v) && Favoured(c.priority, s, w) {
      FavouredUnique(c.priority, s, v, w);
    } else {
      SamePublisher(s, v, w);
    }
  }

  // ---- The loops ------------------------------------------------------------

  lemma {:induction false} KeptNext(bucket: seq<Observation>, i: nat)
    requires i < |bucket|
    ensures Kept(bucket[..i + 1]) == Keep(Kept(bucket[..i]), bucket[i])
  {
    var b := bucket[..i + 1];
    assert b[..|b| - 1] == bucket[..i] && b[|b| - 1] == bucket[i];
  }

  /** The loop over one key's readings: per-publisher best, winner, extremes, verdict. */
  method Resolve(c: P.Contradiction, bucket: seq<Observation>) returns (d: Decision)
    requires bucket != []
    ensures Kept(bucket) != [] && d == Decide(c, Kept(bucket))
  {
    hide Keep, Better, Tolerance, RankIn;
    var kept: seq<Observation> := [];
    for i := 0 to |bucket|
      invariant kept == Kept(bucket[..i])
    {
      KeptNext(bucket, i);
      kept := Keep(kept, bucket[i]);
    }
    assert bucket[..|bucket|] == bucket;
    WinnerIsBest(bucket);
    var winner := kept[0];
    for i := 1 to |kept|
      invariant winner == Winner(kept[..i])
    {
      assert kept[..i + 1][..i] == kept[..i];
      if Better(kept[i], winner) {
        winner := kept[i];
      }
    }
    assert kept[..|kept|] == kept;
    var conflict := false;
    if |kept| >= c.minDistinct {
      var low, high := Span(kept);
      conflict := high - low > Tolerance(c, high);
    }
    if conflict && c.mode == PREFER_PRIORITY {
      ghost var default := winner;
      var best := |c.priority|;
      for i := 0 to |kept|
        invariant best == BestRank(c.priority, kept[..i])
        invariant winner == Preferred(c.priority, kept[..i], default)
      {
        assert kept[..i + 1][..i] == kept[..i];
        var rank := RankIn(c.priority, kept[i].publisher);
        if rank < best {
          best := rank;
          winner := kept[i];
        }
      }
    }
    d := Decision(winner, conflict, conflict && c.mode != 0);
  }

  method Span(s: seq<Observation>) returns (low: nat, high: nat)
    requires s != []
    ensures low == Low(s) && high == High(s) && low <= high
  {
    low, high := s[0].value, s[0].value;
    for i := 1 to |s|
      invariant exists k :: 0 <= k < i && s[k].value == low
      invariant exists k :: 0 <= k < i && s[k].value == high
      invariant forall k | 0 <= k < i :: low <= s[k].value <= high
    {
      var value := s[i].value;
      if value < low {
        low := value;
      }
      if value > high {
        high := value;
      }
    }
    Extremes(s);
  }
}
