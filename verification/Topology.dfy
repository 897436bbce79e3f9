/** Topology snapshots: validation with the bounded containment walk, and the
    adjacency index (src/model/topology.cpp). */
module Topology {
  import opened Words
  import opened Model

  const MAX_DEPTH: nat := 64
  const MAX_RESOURCES: nat := 0x40_0000
  const MAX_LINKS: nat := 0x40_0000
  const MAX_PATHS: nat := 0x10_0000
  const MAX_HOPS: nat := 4096
  const MAX_RATE_BPS: nat := 1_000_000_000_000_000
  const MAX_LATENCY_MICROS: nat := 3_600_000_000

  /** Identities are plain numbers; zero is the null identity. */
  type Id = nat

  datatype Resource = Resource(
    id: Id, domain: Id, parent: Id, servingClass: Id, kind: nat, depth: nat, capacity: nat, flags: nat)

  datatype Link = Link(id: Id, from: Id, to: Id, capacity: nat, latency: nat, weight: nat)

  datatype Path = Path(id: Id, hops: seq<Id>, capacity: nat, flags: nat)

  datatype Snapshot = Snapshot(
    id: Id, generation: Id, epoch: Id, observedTick: nat,
    resources: seq<Resource>, links: seq<Link>, paths: seq<Path>)

  datatype Fault = LimitExceeded | InvalidArgument | OutOfRange | Duplicate | NotFound

  type Verdict = Option<Fault>

  // ---- Containment ----------------------------------------------------------

  predicate DistinctIds(rs: seq<Resource>) {
    forall i, j | 0 <= i < j < |rs| :: rs[i].id != rs[j].id
  }

  predicate Known(rs: seq<Resource>, id: Id) {
    exists i | 0 <= i < |rs| :: rs[i].id == id
  }

  /** The record of a known resource. */
  function Find(rs: seq<Resource>, id: Id): (r: Option<Resource>)
    ensures r.Some? <==> Known(rs, id)
    ensures r.Some? ==> r.value in rs && r.value.id == id
  {
    if rs == [] then None
    else if rs[0].id == id then Some(rs[0])
    else
      var r := Find(rs[1..], id);
      assert r.Some? ==> Known(rs, id) by {
        if r.Some? {
          var i :| 0 <= i < |rs[1..]| && rs[1..][i].id == id;
          assert rs[i + 1].id == id;
        }
      }
      assert Known(rs, id) ==> Known(rs[1..], id) by {
        if Known(rs, id) {
          var i :| 0 <= i < |rs| && rs[i].id == id;
          assert rs[1..][i - 1].id == id;
        }
      }
      r
  }

  /** The chain of ancestors above `parent`: all known, ending at a root. */
  predicate Ancestry(rs: seq<Resource>, parent: Id, chain: seq<Id>)
    decreases |chain|
  {
    if chain == [] then parent == 0
    else
      && parent == chain[0] != 0
      && Find(rs, parent).Some?
      && Ancestry(rs, Find(rs, parent).value.parent, chain[1..])
  }

  /** The containment rule: every resource has a finite chain of at most 64 known ancestors. */
  ghost predicate Contained(rs: seq<Resource>) {
    forall r | r in rs :: HasAncestry(rs, r.parent)
  }

  lemma {:induction false} AncestryUnique(rs: seq<Resource>, parent: Id, c: seq<Id>, d: seq<Id>)
    requires Ancestry(rs, parent, c) && Ancestry(rs, parent, d)
    ensures c == d
    decreases |c|
  {
    if c != [] {
      AncestryUnique(rs, Find(rs, parent).value.parent, c[1..], d[1..]);
      assert c == [c[0]] + c[1..] && d == [d[0]] + d[1..];
    }
  }

  lemma {:induction false} AncestrySuffix(rs: seq<Resource>, parent: Id, chain: seq<Id>, i: nat)
    requires Ancestry(rs, parent, chain) && i < |chain|
    ensures chain[i] != 0 && Ancestry(rs, chain[i], chain[i..])
    decreases i
  {
    if i > 0 {
      AncestrySuffix(rs, Find(rs, parent).value.parent, chain[1..], i - 1);
      assert chain[1..][i - 1..] == chain[i..];
    } else {
      assert chain[0..] == chain;
    }
  }

  /** A chain that ends is acyclic: no ancestor occurs twice. */
  lemma {:induction false} AncestryAcyclic(rs: seq<Resource>, parent: Id, chain: seq<Id>, i: nat, j: nat)
    requires Ancestry(rs, parent, chain) && i < j < |chain|
    ensures chain[i] != chain[j]
  {
    AncestrySuffix(rs, parent, chain, i);
    AncestrySuffix(rs, parent, chain, j);
    if chain[i] == chain[j] {
      AncestryUnique(rs, chain[i], chain[i..], chain[j..]);
    }
  }

  /** ... and the resource is not among its own ancestors. */
  lemma {:induction false} NotOwnAncestor(rs: seq<Resource>, r: Resource, chain: seq<Id>)
    requires r in rs && DistinctIds(rs) && r.id != 0 && Ancestry(rs, r.parent, chain)
    ensures r.id !in chain
  {
    if r.id in chain {
      var i :| 0 <= i < |chain| && chain[i] == r.id;
      AncestrySuffix(rs, r.parent, chain, i);
      FindIs(rs, r);
      AncestryUnique(rs, r.parent, chain, chain[i..][1..]);
    }
  }

  lemma {:induction false} FindIs(rs: seq<Resource>, r: Resource)
    requires r in rs && DistinctIds(rs)
    ensures Find(rs, r.id) == Some(r)
  {
    var i :| 0 <= i < |rs| && rs[i] == r;
    assert Known(rs, r.id);
    var found := Find(rs, r.id).value;
    var j :| 0 <= j < |rs| && rs[j] == found;
  }

  /** The walk up from one resource: it stops at a root, at an unknown parent, on
      meeting its start again, or after more than 64 steps. */
  method WalkUp(rs: seq<Resource>, record: Resource) returns (v: Verdict)
    requires record in rs && DistinctIds(rs) && record.id != 0
    ensures v.None? <==> HasAncestry(rs, record.parent)
    ensures v.None? || v.value in {NotFound, InvalidArgument, LimitExceeded}
  {
    if record.parent == 0 {
      assert Ancestry(rs, record.parent, []);
      return None;
    }
    if record.parent == record.id {
      NoChain(rs, record, []);
      return Some(InvalidArgument);
    }
    var cursor := record.parent;
    var steps := 0;
    ghost var above: seq<Id> := [];
    while cursor != 0
      invariant steps == |above| <= MAX_DEPTH
      invariant Climbed(rs, record.parent, above, cursor)
      decreases MAX_DEPTH - steps
    {
      var found := Find(rs, cursor);
      if found.None? {
        forall chain | Ancestry(rs, record.parent, chain)
          ensures false
        {
          ClimbedPrefix(rs, record.parent, above, cursor, chain);
        }
        return Some(NotFound);
      }
      if found.value.id == record.id {
        NoChain(rs, record, above);
        return Some(InvalidArgument);
      }
      ClimbedMore(rs, record.parent, above, cursor);
      above := above + [cursor];
      cursor := found.value.parent;
      steps := steps + 1;
      if steps > MAX_DEPTH {
        forall chain | Ancestry(rs, record.parent, chain)
          ensures |chain| > MAX_DEPTH
        {
          ClimbedPrefix(rs, record.parent, above, cursor, chain);
        }
        return Some(LimitExceeded);
      }
    }
    ClimbedRoot(rs, record.parent, above);
    v := None;
  }

  /** `above` are the ancestors passed so far and `cursor` is the next one. */
  predicate Climbed(rs: seq<Resource>, parent: Id, above: seq<Id>, cursor: Id)
    decreases |above|
  {
    if above == [] then parent == cursor
    else
      && parent == above[0] != 0
      && Find(rs, parent).Some?
      && Climbed(rs, Find(rs, parent).value.parent, above[1..], cursor)
  }

  lemma {:induction false} ClimbedMore(rs: seq<Resource>, parent: Id, above: seq<Id>, cursor: Id)
    requires Climbed(rs, parent, above, cursor) && cursor != 0 && Find(rs, cursor).Some?
    ensures Climbed(rs, parent, above + [cursor], Find(rs, cursor).value.parent)
    decreases |above|
  {
    if above != [] {
      ClimbedMore(rs, Find(rs, parent).value.parent, above[1..], cursor);
      assert (above + [cursor])[1..] == above[1..] + [cursor];
    } else {
      assert (above + [cursor])[1..] == [];
    }
  }

  lemma {:induction false} ClimbedRoot(rs: seq<Resource>, parent: Id, above: seq<Id>)
    requires Climbed(rs, parent, above, 0)
    ensures Ancestry(rs, parent, above)
    decreases |above|
  {
    if above != [] {
      ClimbedRoot(rs, Find(rs, parent).value.parent, above[1..]);
    }
  }

  /** What was climbed is a prefix of the chain, and the cursor heads the rest. */
  lemma {:induction false} ClimbedPrefix(rs: seq<Resource>, parent: Id, above: seq<Id>, cursor: Id, chain: seq<Id>)
    requires Climbed(rs, parent, above, cursor) && Ancestry(rs, parent, chain)
    ensures |above| <= |chain| && above == chain[..|above|] && Ancestry(rs, cursor, chain[|above|..])
    decreases |above|
  {
    if above == [] {
      assert chain[0..] == chain;
    } else {
      ClimbedPrefix(rs, Find(rs, parent).value.parent, above[1..], cursor, chain[1..]);
      assert above == [above[0]] + above[1..];
      assert chain[..|above|] == [chain[0]] + chain[1..][..|above| - 1];
      assert chain[1..][|above| - 1..] == chain[|above|..];
    }
  }

  lemma {:induction false} NoChain(rs: seq<Resource>, record: Resource, above: seq<Id>)
    requires record in rs && DistinctIds(rs) && record.id != 0
    requires Climbed(rs, record.parent, above, record.id)
    ensures !exists chain :: Ancestry(rs, record.parent, chain)
  {
    forall chain | Ancestry(rs, record.parent, chain)
      ensures false
    {
      ClimbedPrefix(rs, record.parent, above, record.id, chain);
      var rest := chain[|above|..];
      assert rest != [] && rest[0] == record.id && rest[0] in chain;
      NotOwnAncestor(rs, record, chain);
    }
  }

  // ---- Validation -----------------------------------------------------------

  predicate ResourceOk(r: Resource) {
    r.id != 0 && r.domain != 0 && r.depth <= MAX_DEPTH && r.capacity <= MAX_RATE_BPS
  }

  predicate LinkOk(rs: seq<Resource>, l: Link) {
    && l.from != 0 && l.to != 0 && Known(rs, l.from) && Known(rs, l.to)
    && l.capacity <= MAX_RATE_BPS && l.latency <= MAX_LATENCY_MICROS
  }

  /** Links may leave their id null; ids that are given are distinct. */
  predicate LinkIdsDistinct(ls: seq<Link>) {
    forall i, j | 0 <= i < j < |ls| :: ls[i].id != 0 ==> ls[i].id != ls[j].id
  }

  predicate PathOk(rs: seq<Resource>, p: Path) {
    && p.id != 0 && 0 < |p.hops| <= MAX_HOPS && p.capacity <= MAX_RATE_BPS
    && forall h | h in p.hops :: Known(rs, h)
  }

  predicate PathIdsDistinct(ps: seq<Path>) {
    forall i, j | 0 <= i < j < |ps| :: ps[i].id != ps[j].id
  }

  ghost predicate Valid(s: Snapshot) {
    && 0 < |s.resources| <= MAX_RESOURCES && |s.links| <= MAX_LINKS && |s.paths| <= MAX_PATHS
    && (forall r | r in s.resources :: ResourceOk(r)) && DistinctIds(s.resources)
    && Contained(s.resources)
    && (forall l | l in s.links :: LinkOk(s.resources, l)) && LinkIdsDistinct(s.links)
    && (forall p | p in s.paths :: PathOk(s.resources, p)) && PathIdsDistinct(s.paths)
  }

  /** The walk as a computation: at most `steps` known ancestors, then a root. */
  predicate Reaches(rs: seq<Resource>, parent: Id, steps: nat)
    decreases steps, parent
  {
    || parent == 0
    || (steps > 0 && Find(rs, parent).Some? && Reaches(rs, Find(rs, parent).value.parent, steps - 1))
  }

  lemma {:induction false} ReachesIsAncestry(rs: seq<Resource>, parent: Id, steps: nat)
    ensures Reaches(rs, parent, steps) <==> exists chain :: Ancestry(rs, parent, chain) && |chain| <= steps
    decreases steps, parent
  {
    if parent == 0 {
      assert Ancestry(rs, parent, []);
    } else if steps > 0 && Find(rs, parent).Some? {
      var above := Find(rs, parent).value.parent;
      ReachesIsAncestry(rs, above, steps - 1);
      if Reaches(rs, above, steps - 1) {
        var chain :| Ancestry(rs, above, chain) && |chain| <= steps - 1;
        assert ([parent] + chain)[1..] == chain;
        assert Ancestry(rs, parent, [parent] + chain);
      }
      forall chain | Ancestry(rs, parent, chain) && |chain| <= steps
        ensures Reaches(rs, parent, steps)
      {
        assert Ancestry(rs, above, chain[1..]);
      }
    }
  }

  /** The computable form of validity. */
  predicate Accepted(s: Snapshot) {
    && 0 < |s.resources| <= MAX_RESOURCES && |s.links| <= MAX_LINKS && |s.paths| <= MAX_PATHS
    && (forall r | r in s.resources :: ResourceOk(r)) && DistinctIds(s.resources)
    && (forall r | r in s.resources :: Reaches(s.resources, r.parent, MAX_DEPTH))
    && (forall l | l in s.links :: LinkOk(s.resources, l)) && LinkIdsDistinct(s.links)
    && (forall p | p in s.paths :: PathOk(s.resources, p)) && PathIdsDistinct(s.paths)
  }

  lemma {:induction false} AcceptedIsValid(s: Snapshot)
    ensures Accepted(s) <==> Valid(s)
  {
    hide Ancestry, Reaches, LinkOk, PathOk, ResourceOk;
    forall r | r in s.resources
      ensures Reaches(s.resources, r.parent, MAX_DEPTH)
         <==> exists chain :: Ancestry(s.resources, r.parent, chain) && |chain| <= MAX_DEPTH
    {
      ReachesIsAncestry(s.resources, r.parent, MAX_DEPTH);
    }
  }

  method CheckResources(rs: seq<Resource>) returns (v: Verdict)
    ensures v.None? <==> (forall r | r in rs :: ResourceOk(r)) && DistinctIds(rs)
  {
    var ids: set<Id> := {};
    for i := 0 to |rs|
      invariant forall k | 0 <= k < i :: ResourceOk(rs[k])
      invariant forall k | 0 <= k < i :: rs[k].id in ids
      invariant forall id | id in ids :: exists k | 0 <= k < i :: rs[k].id == id
      invariant DistinctIds(rs[..i])
    {
      var r := rs[i];
      if r.id == 0 || r.domain == 0 {
        assert !ResourceOk(r);
        return Some(InvalidArgument);
      }
      if r.depth > MAX_DEPTH {
        assert !ResourceOk(r);
        return Some(LimitExceeded);
      }
      if r.capacity > MAX_RATE_BPS {
        assert !ResourceOk(r);
        return Some(OutOfRange);
      }
      if r.id in ids {
        return Some(Duplicate);
      }
      ids := ids + {r.id};
    }
    assert rs[..|rs|] == rs;
    v := None;
  }

  /** Containment is accepted exactly when every parent chain is over known
      resources, acyclic and at most 64 ancestors long. */
  method CheckContainment(rs: seq<Resource>) returns (v: Verdict)
    requires (forall r | r in rs :: ResourceOk(r)) && DistinctIds(rs)
    ensures v.None? <==> Contained(rs)
  {
    hide Ancestry;
    for i := 0 to |rs|
      invariant forall k | 0 <= k < i :: HasAncestry(rs, rs[k].parent)
    {
      assert rs[i] in rs;
      v := WalkUp(rs, rs[i]);
      if v.Some? {
        return;
      }
    }
    v := None;
  }

  ghost predicate HasAncestry(rs: seq<Resource>, parent: Id) {
    exists chain :: Ancestry(rs, parent, chain) && |chain| <= MAX_DEPTH
  }

  method CheckLinks(rs: seq<Resource>, ls: seq<Link>) returns (v: Verdict)
    ensures v.None? <==> (forall l | l in ls :: LinkOk(rs, l)) && LinkIdsDistinct(ls)
  {
    var ids: set<Id> := {};
    for i := 0 to |ls|
      invariant forall k | 0 <= k < i :: LinkOk(rs, ls[k])
      invariant forall k | 0 <= k < i && ls[k].id != 0 :: ls[k].id in ids
      invariant forall id | id in ids :: id != 0 && exists k | 0 <= k < i :: ls[k].id == id
      invariant LinkIdsDistinct(ls[..i])
    {
      var l := ls[i];
      if l.from == 0 || l.to == 0 {
        assert !LinkOk(rs, l);
        return Some(InvalidArgument);
      }
      if Find(rs, l.from).None? || Find(rs, l.to).None? {
        assert !LinkOk(rs, l);
        return Some(NotFound);
      }
      if l.capacity > MAX_RATE_BPS || l.latency > MAX_LATENCY_MICROS {
        assert !LinkOk(rs, l);
        return Some(OutOfRange);
      }
      if l.id != 0 {
        if l.id in ids {
          return Some(Duplicate);
        }
        ids := ids + {l.id};
      }
    }
    assert ls[..|ls|] == ls;
    v := None;
  }

  method CheckHops(rs: seq<Resource>, hops: seq<Id>) returns (ok: bool)
    ensures ok <==> forall h | h in hops :: Known(rs, h)
  {
    for i := 0 to |hops|
      invariant forall k | 0 <= k < i :: Known(rs, hops[k])
    {
      if Find(rs, hops[i]).None? {
        return false;
      }
    }
    ok := true;
  }

  method CheckPaths(rs: seq<Resource>, ps: seq<Path>) returns (v: Verdict)
    ensures v.None? <==> (forall p | p in ps :: PathOk(rs, p)) && PathIdsDistinct(ps)
  {
    var ids: set<Id> := {};
    for i := 0 to |ps|
      invariant forall k | 0 <= k < i :: PathOk(rs, ps[k])
      invariant forall k | 0 <= k < i :: ps[k].id in ids
      invariant forall id | id in ids :: exists k | 0 <= k < i :: ps[k].id == id
      invariant PathIdsDistinct(ps[..i])
    {
      var p := ps[i];
      if p.id == 0 {
        assert !PathOk(rs, p);
        return Some(InvalidArgument);
      }
      if p.id in ids {
        return Some(Duplicate);
      }
      ids := ids + {p.id};
      if p.hops == [] {
        assert !PathOk(rs, p);
        return Some(InvalidArgument);
      }
      if |p.hops| > MAX_HOPS {
        assert !PathOk(rs, p);
        return Some(LimitExceeded);
      }
      if p.capacity > MAX_RATE_BPS {
        assert !PathOk(rs, p);
        return Some(OutOfRange);
      }
      var ok := CheckHops(rs, p.hops);
      if !ok {
        assert !PathOk(rs, p);
        return Some(NotFound);
      }
    }
    assert ps[..|ps|] == ps;
    v := None;
  }

  /** `validate_topology`. */
  method Validate(s: Snapshot) returns (v: Verdict)
    ensures v.None? <==> Valid(s)
  {
    if |s.resources| > MAX_RESOURCES || |s.links| > MAX_LINKS || |s.paths| > MAX_PATHS {
      return Some(LimitExceeded);
    }
    if s.resources == [] {
      return Some(InvalidArgument);
    }
    v := CheckResources(s.resources);
    if v.Some? {
      return;
    }
    v := CheckContainment(s.resources);
    if v.Some? {
      return;
    }
    v := CheckLinks(s.resources, s.links);
    if v.Some? {
      return;
    }
    v := CheckPaths(s.resources, s.paths);
  }

  // ---- Scans: what the index has to answer ----------------------------------

  predicate Increasing(s: seq<Id>) {
    forall i, j | 0 <= i < j < |s| :: s[i] < s[j]
  }

  /** `answer` lists the members of `members` once each, in order. */
  ghost predicate Lists(answer: seq<Id>, members: set<Id>) {
    Increasing(answer) && forall x :: x in answer <==> x in members
  }

  /** Sorted duplicate-free listings are unique, so the answer is determined. */
  lemma {:induction false} ListsUnique(a: seq<Id>, b: seq<Id>, members: set<Id>)
    requires Lists(a, members) && Lists(b, members)
    ensures a == b
    decreases |a|
  {
    assert b != [] ==> b[0] in members;
    if a != [] {
      assert a[0] in b && (b != [] ==> b[0] in a);
      assert a[0] == b[0];
      var rest := members - {a[0]};
      assert forall x :: x in a[1..] <==> x in rest by {
        SortedTail(a, members);
      }
      assert forall x :: x in b[1..] <==> x in rest by {
        SortedTail(b, members);
      }
      ListsUnique(a[1..], b[1..], rest);
      assert a == [a[0]] + a[1..] && b == [b[0]] + b[1..];
    }
  }

  lemma {:induction false} SortedTail(a: seq<Id>, members: set<Id>)
    requires a != [] && Lists(a, members)
    ensures Increasing(a[1..]) && forall x :: x in a[1..] <==> x in members - {a[0]}
  {
    forall x | x in members - {a[0]}
      ensures x in a[1..]
    {
      var i :| 0 <= i < |a| && a[i] == x;
      assert a[1..][i - 1] == x;
    }
    forall x | x in a[1..]
      ensures x in members - {a[0]}
    {
      var i :| 0 <= i < |a[1..]| && a[1..][i] == x;
      assert a[i + 1] == x;
    }
  }

  // ---- Sorting --------------------------------------------------------------

  predicate NonDecreasing(s: seq<Id>) {
    forall i, j | 0 <= i < j < |s| :: s[i] <= s[j]
  }

  function Insert(s: seq<Id>, x: Id): (r: seq<Id>)
    ensures |r| == |s| + 1
    ensures forall y :: y in r <==> y == x || y in s
  {
    if s == [] || x <= s[0] then [x] + s
    else
      assert s == [s[0]] + s[1..];
      [s[0]] + Insert(s[1..], x)
  }

  lemma {:induction false} InsertSorted(s: seq<Id>, x: Id)
    requires NonDecreasing(s)
    ensures NonDecreasing(Insert(s, x))
    ensures Increasing(s) && x !in s ==> Increasing(Insert(s, x))
  {
    hide NonDecreasing, Increasing;
    if s == [] {
      Prepend(x, s);
    } else {
      HeadLeast(s);
      assert s == [s[0]] + s[1..];
      if x > s[0] {
        InsertSorted(s[1..], x);
        Prepend(s[0], Insert(s[1..], x));
      } else {
        assert forall y | y in s :: y == s[0] || y in s[1..];
        Prepend(x, s);
      }
    }
  }

  lemma {:induction false} HeadLeast(s: seq<Id>)
    requires NonDecreasing(s) && s != []
    ensures NonDecreasing(s[1..]) && (Increasing(s) ==> Increasing(s[1..]))
    ensures forall y | y in s[1..] :: s[0] <= y && (Increasing(s) ==> s[0] < y)
  {
  }

  lemma {:induction false} Prepend(x: Id, r: seq<Id>)
    ensures NonDecreasing(r) && (forall y | y in r :: x <= y) ==> NonDecreasing([x] + r)
    ensures Increasing(r) && (forall y | y in r :: x < y) ==> Increasing([x] + r)
    ensures r == [] ==> NonDecreasing(r) && Increasing(r)
  {
    var s := [x] + r;
    assert forall i | 0 < i < |s| :: s[i] == r[i - 1] && s[i] in r;
  }

  function Sort(s: seq<Id>): (r: seq<Id>)
    ensures NonDecreasing(r) && |r| == |s|
    ensures forall y :: y in r <==> y in s
  {
    if s == [] then []
    else
      InsertSorted(Sort(s[1..]), s[0]);
      Insert(Sort(s[1..]), s[0])
  }

  /** Drop repeated neighbours. */
  function Unique(s: seq<Id>): (r: seq<Id>)
    requires NonDecreasing(s)
    ensures Increasing(r) && (forall x :: x in r <==> x in s) && (s != [] ==> r != [] && r[0] == s[0])
  {
    if |s| <= 1 then s
    else
      assert s == [s[0]] + s[1..];
      var r := Unique(s[1..]);
      if s[0] == s[1] then r
      else
        assert forall y | y in r :: y in s[1..] && s[0] < y by {
          forall y | y in r
            ensures y in s[1..] && s[0] < y
          {
            var i :| 0 <= i < |s[1..]| && s[1..][i] == y;
            assert s[i + 1] == y;
          }
        }
        [s[0]] + r
  }

  /** Sorting distinct ids lists them. */
  lemma {:induction false} SortDistinct(s: seq<Id>)
    requires forall i, j | 0 <= i < j < |s| :: s[i] != s[j]
    ensures Increasing(Sort(s))
  {
    if s != [] {
      SortDistinct(s[1..]);
      assert s[0] !in s[1..];
      InsertSorted(Sort(s[1..]), s[0]);
    }
  }

  // ---- The index ------------------------------------------------------------

  ghost function Members(s: seq<Id>): set<Id> {
    set x | x in s
  }

  /** Each bucket holds, in any order, what its resource collects. */
  ghost predicate Collects(buckets: seq<seq<Id>>, rs: seq<Resource>, want: Id -> set<Id>) {
    |buckets| == |rs| && forall i | 0 <= i < |rs| :: Members(buckets[i]) == want(rs[i].id)
  }

  /** Every bucket lists what its resource collects. */
  ghost predicate ListsAll(buckets: seq<seq<Id>>, rs: seq<Resource>, want: Id -> set<Id>) {
    |buckets| == |rs| && forall i | 0 <= i < |rs| :: Lists(buckets[i], want(rs[i].id))
  }

  predicate SlotsOf(slots: map<Id, nat>, rs: seq<Resource>) {
    && (forall i | 0 <= i < |rs| :: rs[i].id in slots && slots[rs[i].id] == i)
    && (forall id | id in slots :: slots[id] < |rs| && rs[slots[id]].id == id)
  }

  function LinkEnds(ls: seq<Link>, id: Id, outward: bool): set<Id> {
    set l | l in ls && (if outward then l.from else l.to) == id :: if outward then l.to else l.from
  }

  function PathsThrough(ps: seq<Path>, id: Id): set<Id> {
    set p | p in ps && id in p.hops :: p.id
  }

  method SortAll(buckets: seq<seq<Id>>, rs: seq<Resource>, ghost want: Id -> set<Id>) returns (sorted: seq<seq<Id>>)
    requires Collects(buckets, rs, want)
    ensures ListsAll(sorted, rs, want)
  {
    sorted := [];
    for i := 0 to |buckets|
      invariant |sorted| == i
      invariant forall k | 0 <= k < i :: Lists(sorted[k], want(rs[k].id))
    {
      assert forall x :: x in Unique(Sort(buckets[i])) <==> x in Members(buckets[i]);
      sorted := sorted + [Unique(Sort(buckets[i]))];
    }
  }

  /** Distribute one end of every link to the bucket of the other end. */
  method Distribute(rs: seq<Resource>, slots: map<Id, nat>, ls: seq<Link>, outward: bool) returns (buckets: seq<seq<Id>>)
    requires SlotsOf(slots, rs) && forall l | l in ls :: l.from in slots && l.to in slots
    ensures Collects(buckets, rs, id => LinkEnds(ls, id, outward))
  {
    buckets := seq(|rs|, i => []);
    for n := 0 to |ls|
      invariant |buckets| == |rs|
      invariant forall i | 0 <= i < |rs| :: Members(buckets[i]) == LinkEnds(ls[..n], rs[i].id, outward)
    {
      var l := ls[n];
      assert l in ls;
      var slot := slots[if outward then l.from else l.to];
      var other := if outward then l.to else l.from;
      ghost var before := buckets;
      buckets := buckets[slot := buckets[slot] + [other]];
      assert ls[..n + 1] == ls[..n] + [l];
      forall i | 0 <= i < |rs|
        ensures Members(buckets[i]) == LinkEnds(ls[..n + 1], rs[i].id, outward)
      {
        assert LinkEnds(ls[..n + 1], rs[i].id, outward)
            == LinkEnds(ls[..n], rs[i].id, outward) + (if i == slot then {other} else {});
      }
    }
    assert ls[..|ls|] == ls;
  }

  /** Record on every hop of every path that the path passes there. */
  method DistributePaths(rs: seq<Resource>, slots: map<Id, nat>, ps: seq<Path>) returns (buckets: seq<seq<Id>>)
    requires SlotsOf(slots, rs)
    ensures Collects(buckets, rs, id => PathsThrough(ps, id))
  {
    buckets := seq(|rs|, i => []);
    for n := 0 to |ps|
      invariant |buckets| == |rs|
      invariant forall i | 0 <= i < |rs| :: Members(buckets[i]) == PathsThrough(ps[..n], rs[i].id)
    {
      var p := ps[n];
      assert ps[..n + 1] == ps[..n] + [p];
      for h := 0 to |p.hops|
        invariant |buckets| == |rs|
        invariant forall i | 0 <= i < |rs| ::
          Members(buckets[i]) == PathsThrough(ps[..n], rs[i].id) + (if rs[i].id in p.hops[..h] then {p.id} else {})
      {
        var hop := p.hops[h];
        assert p.hops[..h + 1] == p.hops[..h] + [hop];
        if hop in slots {
          var slot := slots[hop];
          buckets := buckets[slot := buckets[slot] + [p.id]];
        }
      }
      assert p.hops[..|p.hops|] == p.hops;
      forall i | 0 <= i < |rs|
        ensures Members(buckets[i]) == PathsThrough(ps[..n + 1], rs[i].id)
      {
        assert PathsThrough(ps[..n + 1], rs[i].id)
            == PathsThrough(ps[..n], rs[i].id) + (if rs[i].id in p.hops then {p.id} else {});
      }
    }
    assert ps[..|ps|] == ps;
  }

  function DomainMembers(rs: seq<Resource>, domain: Id): set<Id> {
    set r | r in rs && r.domain == domain :: r.id
  }

  /** The first-seen order of the domains. */
  ghost predicate DomainSlots(slots: map<Id, nat>, domains: seq<Id>, rs: seq<Resource>) {
    && (forall i | 0 <= i < |domains| :: domains[i] in slots && slots[domains[i]] == i)
    && (forall d | d in slots :: slots[d] < |domains| && domains[slots[d]] == d)
    && (forall r | r in rs :: r.domain in slots)
    && (forall d | d in slots :: exists r :: r in rs && r.domain == d)
  }

  /** The resources of each domain. */
  ghost predicate DomainLists(domains: seq<Id>, members: seq<seq<Id>>, rs: seq<Resource>) {
    |members| == |domains| && forall i | 0 <= i < |domains| :: Members(members[i]) == DomainMembers(rs, domains[i])
  }

  predicate AllDistinct(s: seq<Id>) {
    forall i, j | 0 <= i < j < |s| :: s[i] != s[j]
  }

  lemma {:induction false} DomainGrows(rs: seq<Resource>, n: nat, d: Id)
    requires n < |rs|
    ensures rs[..n + 1] == rs[..n] + [rs[n]]
    ensures DomainMembers(rs[..n + 1], d)
         == DomainMembers(rs[..n], d) + (if d == rs[n].domain then {rs[n].id} else {})
  {
    assert rs[..n + 1] == rs[..n] + [rs[n]];
  }

  lemma {:induction false} NewDomain(slots: map<Id, nat>, domains: seq<Id>, rs: seq<Resource>, r: Resource)
    requires DomainSlots(slots, domains, rs) && r.domain !in slots
    ensures DomainSlots(slots[r.domain := |domains|], domains + [r.domain], rs + [r])
    ensures DomainMembers(rs, r.domain) == {}
  {
    var slots' := slots[r.domain := |domains|];
    forall d | d in slots'
      ensures exists q :: q in rs + [r] && q.domain == d
    {
      if d in slots {
        var q :| q in rs && q.domain == d;
        assert q in rs + [r];
      } else {
        assert r in rs + [r];
      }
    }
  }

  lemma {:induction false} OldDomain(slots: map<Id, nat>, domains: seq<Id>, rs: seq<Resource>, r: Resource)
    requires DomainSlots(slots, domains, rs) && r.domain in slots
    ensures DomainSlots(slots, domains, rs + [r])
  {
    forall d | d in slots
      ensures exists q :: q in rs + [r] && q.domain == d
    {
      var q :| q in rs && q.domain == d;
      assert q in rs + [r];
    }
  }

  lemma {:induction false} AppendMember(members: seq<seq<Id>>, slot: nat, x: Id)
    requires slot < |members| && x !in Members(members[slot])
    requires forall i | 0 <= i < |members| :: AllDistinct(members[i])
    ensures var m := members[slot := members[slot] + [x]];
            && (forall i | 0 <= i < |m| :: AllDistinct(m[i]))
            && (forall i | 0 <= i < |m| :: Members(m[i]) == Members(members[i]) + (if i == slot then {x} else {}))
  {
    var m := members[slot := members[slot] + [x]];
    assert x !in members[slot];
    assert m[slot] == members[slot] + [x];
  }

  /** The resources so far, grouped by domain. */
  ghost predicate Grouped(slots: map<Id, nat>, domains: seq<Id>, members: seq<seq<Id>>, rs: seq<Resource>) {
    && DomainSlots(slots, domains, rs) && DomainLists(domains, members, rs)
    && forall i | 0 <= i < |members| :: AllDistinct(members[i])
  }

  lemma {:induction false} NewGroup(domains: seq<Id>, members: seq<seq<Id>>, rs: seq<Resource>, domain: Id)
    requires DomainLists(domains, members, rs) && DomainMembers(rs, domain) == {}
    requires forall i | 0 <= i < |members| :: AllDistinct(members[i])
    ensures DomainLists(domains + [domain], members + [[]], rs)
    ensures forall i | 0 <= i < |members + [[]]| :: AllDistinct((members + [[]])[i])
  {
    hide DomainMembers, Members, AllDistinct;
    NoMembers();
  }

  lemma {:induction false} JoinGroup(slots: map<Id, nat>, domains: seq<Id>, members: seq<seq<Id>>,
                                     rs: seq<Resource>, n: nat)
    requires DistinctIds(rs) && n < |rs| && rs[n].domain in slots
    requires DomainSlots(slots, domains, rs[..n + 1]) && DomainLists(domains, members, rs[..n])
    requires forall i | 0 <= i < |members| :: AllDistinct(members[i])
    ensures var slot := slots[rs[n].domain];
            && slot < |members|
            && Grouped(slots, domains, members[slot := members[slot] + [rs[n].id]], rs[..n + 1])
  {
    hide DomainMembers, Members, AllDistinct;
    var slot := slots[rs[n].domain];
    FreshMember(rs, n);
    AppendMember(members, slot, rs[n].id);
    forall i | 0 <= i < |domains|
      ensures DomainMembers(rs[..n + 1], domains[i])
           == DomainMembers(rs[..n], domains[i]) + if i == slot then {rs[n].id} else {}
    {
      DomainGrows(rs, n, domains[i]);
    }
  }

  method GroupDomains(rs: seq<Resource>) returns (slots: map<Id, nat>, domains: seq<Id>, members: seq<seq<Id>>)
    requires DistinctIds(rs)
    ensures DomainSlots(slots, domains, rs) && DomainLists(domains, members, rs)
    ensures forall i | 0 <= i < |members| :: AllDistinct(members[i])
  {
    hide DomainMembers, Members, AllDistinct, DistinctIds;
    slots, domains, members := map[], [], [];
    for n := 0 to |rs|
      invariant Grouped(slots, domains, members, rs[..n])
    {
      var r := rs[n];
      DomainGrows(rs, n, r.domain);
      if r.domain !in slots {
        NewDomain(slots, domains, rs[..n], r);
        NewGroup(domains, members, rs[..n], r.domain);
        slots := slots[r.domain := |domains|];
        domains := domains + [r.domain];
        members := members + [[]];
      } else {
        OldDomain(slots, domains, rs[..n], r);
      }
      JoinGroup(slots, domains, members, rs, n);
      var slot := slots[r.domain];
      members := members[slot := members[slot] + [r.id]];
    }
    assert rs[..|rs|] == rs;
  }

  lemma {:induction false} NoMembers()
    ensures Members([]) == {} && AllDistinct([])
  {
  }

  lemma {:induction false} FreshMember(rs: seq<Resource>, n: nat)
    requires DistinctIds(rs) && n < |rs|
    ensures rs[n].id !in DomainMembers(rs[..n], rs[n].domain)
  {
  }

  lemma {:induction false} PartitionOf(slots: map<Id, nat>, domains: seq<Id>, lists: seq<seq<Id>>, rs: seq<Resource>,
                                       r: Resource)
    requires DomainSlots(slots, domains, rs) && DomainLists(domains, lists, rs) && DistinctIds(rs) && r in rs
    ensures forall i | 0 <= i < |domains| :: r.id in lists[i] <==> i == slots[r.domain]
  {
    forall i | 0 <= i < |domains|
      ensures r.id in lists[i] <==> i == slots[r.domain]
    {
      assert r.id in lists[i] <==> r.id in Members(lists[i]);
      if r.id in DomainMembers(rs, domains[i]) {
        var q :| q in rs && q.domain == domains[i] && q.id == r.id;
        FindIs(rs, q);
        FindIs(rs, r);
      }
    }
  }

  class TopologyIndex {
    const snapshot: Snapshot
    const resourceSlot: map<Id, nat>
    const outEdges: seq<seq<Id>>
    const inEdges: seq<seq<Id>>
    const resourcePaths: seq<seq<Id>>
    const domainSlot: map<Id, nat>
    const domains: seq<Id>
    const domainLists: seq<seq<Id>>

    /** The index agrees with scanning the snapshot it was built from. */
    ghost predicate Indexed() {
      var rs := snapshot.resources;
      && Valid(snapshot) && SlotsOf(resourceSlot, rs)
      && ListsAll(outEdges, rs, id => LinkEnds(snapshot.links, id, true))
      && ListsAll(inEdges, rs, id => LinkEnds(snapshot.links, id, false))
      && ListsAll(resourcePaths, rs, id => PathsThrough(snapshot.paths, id))
      && DomainSlots(domainSlot, domains, rs) && DomainLists(domains, domainLists, rs)
      && forall i | 0 <= i < |domainLists| :: Increasing(domainLists[i])
    }

    constructor (s: Snapshot, slots: map<Id, nat>, outE: seq<seq<Id>>, inE: seq<seq<Id>>, paths: seq<seq<Id>>,
                 dslots: map<Id, nat>, ds: seq<Id>, lists: seq<seq<Id>>)
      ensures snapshot == s && resourceSlot == slots && outEdges == outE && inEdges == inE && resourcePaths == paths
      ensures domainSlot == dslots && domains == ds && domainLists == lists
    {
      snapshot, resourceSlot, outEdges, inEdges, resourcePaths := s, slots, outE, inE, paths;
      domainSlot, domains, domainLists := dslots, ds, lists;
    }

    /** `TopologyIndex::build`: refused exactly when validation refuses. */
    static method Build(s: Snapshot) returns (verdict: Verdict, index: TopologyIndex?)
      ensures verdict.None? <==> Valid(s)
      ensures verdict.None? <==> index != null
      ensures index != null ==> index.snapshot == s && index.Indexed()
    {
      verdict, index := None, null;
      verdict := Validate(s);
      if verdict.Some? {
        return;
      }
      var rs := s.resources;
      var slots := MakeSlots(rs);
      assert forall l | l in s.links :: LinkOk(rs, l);
      var outward := Distribute(rs, slots, s.links, true);
      outward := SortAll(outward, rs, id => LinkEnds(s.links, id, true));
      var inward := Distribute(rs, slots, s.links, false);
      inward := SortAll(inward, rs, id => LinkEnds(s.links, id, false));
      var paths := DistributePaths(rs, slots, s.paths);
      paths := SortAll(paths, rs, id => PathsThrough(s.paths, id));
      var dslots, ds, lists := GroupDomains(rs);
      var sorted := SortMembers(lists);
      index := new TopologyIndex(s, slots, outward, inward, paths, dslots, ds, sorted);
    }

    static method MakeSlots(rs: seq<Resource>) returns (slots: map<Id, nat>)
      requires DistinctIds(rs)
      ensures SlotsOf(slots, rs)
    {
      slots := map[];
      for i := 0 to |rs|
        invariant forall k | 0 <= k < i :: rs[k].id in slots && slots[rs[k].id] == k
        invariant forall id | id in slots :: slots[id] < i && rs[slots[id]].id == id
      {
        slots := slots[rs[i].id := i];
      }
    }

    static method SortMembers(lists: seq<seq<Id>>) returns (sorted: seq<seq<Id>>)
      requires forall i | 0 <= i < |lists| :: AllDistinct(lists[i])
      ensures |sorted| == |lists|
      ensures forall i | 0 <= i < |lists| :: Increasing(sorted[i]) && Members(sorted[i]) == Members(lists[i])
    {
      sorted := [];
      for i := 0 to |lists|
        invariant |sorted| == i
        invariant forall k | 0 <= k < i :: Increasing(sorted[k]) && Members(sorted[k]) == Members(lists[k])
      {
        SortDistinct(lists[i]);
        assert Members(Sort(lists[i])) == Members(lists[i]);
        sorted := sorted + [Sort(lists[i])];
      }
    }

    method Contains(id: Id) returns (known: bool)
      requires Indexed()
      ensures known <==> Known(snapshot.resources, id)
    {
      known := id in resourceSlot;
    }

    method Record(id: Id) returns (r: Option<Resource>)
      requires Indexed()
      ensures r == Find(snapshot.resources, id)
    {
      if id !in resourceSlot {
        return None;
      }
      r := Some(snapshot.resources[resourceSlot[id]]);
      FindIs(snapshot.resources, r.value);
    }

    /** The lookups list exactly what a scan of the links, paths and resources finds,
        and nothing for an identity the topology does not know. */
    method Successors(id: Id) returns (r: seq<Id>)
      requires Indexed()
      ensures Lists(r, LinkEnds(snapshot.links, id, true))
    {
      if id !in resourceSlot {
        assert forall l | l in snapshot.links :: LinkOk(snapshot.resources, l) && l.from != id;
        return [];
      }
      r := outEdges[resourceSlot[id]];
    }

    method Predecessors(id: Id) returns (r: seq<Id>)
      requires Indexed()
      ensures Lists(r, LinkEnds(snapshot.links, id, false))
    {
      if id !in resourceSlot {
        assert forall l | l in snapshot.links :: LinkOk(snapshot.resources, l) && l.to != id;
        return [];
      }
      r := inEdges[resourceSlot[id]];
    }

    method ResourcePaths(id: Id) returns (r: seq<Id>)
      requires Indexed()
      ensures Lists(r, PathsThrough(snapshot.paths, id))
    {
      if id !in resourceSlot {
        assert forall p | p in snapshot.paths :: PathOk(snapshot.resources, p) && id !in p.hops;
        return [];
      }
      r := resourcePaths[resourceSlot[id]];
    }

    method DomainResources(domain: Id) returns (r: seq<Id>)
      requires Indexed()
      ensures Lists(r, DomainMembers(snapshot.resources, domain))
    {
      if domain !in domainSlot {
        assert forall q | q in snapshot.resources :: q.domain != domain;
        return [];
      }
      r := domainLists[domainSlot[domain]];
      assert forall x :: x in r <==> x in Members(r);
    }

    /** The domains partition the resources: each is listed under its own domain and no other. */
    lemma {:induction false} DomainsPartition(r: Resource)
      requires Indexed() && r in snapshot.resources
      ensures r.domain in domainSlot
      ensures forall i | 0 <= i < |domains| :: r.id in domainLists[i] <==> domains[i] == r.domain
    {
      PartitionOf(domainSlot, domains, domainLists, snapshot.resources, r);
    }
  }
}
