/** Bounded breadth-first pressure propagation and its closed form
    (src/eval/propagation.cpp). */
module Propagation {
  import opened Words
  import opened Model
  import opened Topology

  const FULL: nat := 1_000_000
  const MAX_EDGES: nat := 0x10_0000

  datatype PropagationPolicy = PropagationPolicy(
    enabled: bool, maxDepth: nat, decayPpm: nat, maxInduced: Severity, followLinks: bool, followPaths: bool,
    minPressurePpm: nat)

  datatype Source = Source(resource: Id, severity: Severity)

  datatype Target = Target(pressure: nat, hops: nat, from: Id, via: Id)

  datatype Edge = Edge(from: Id, to: Id, via: Id, hops: nat, pressure: nat, induced: Severity)

  function SeverityPressure(s: Severity): nat {
    if s == CLEAR then 0 else if s == WATCH then 333_333 else if s == CONGESTED then 666_666 else FULL
  }

  function PressureSeverity(p: nat): Severity {
    if p >= FULL then SEVERE else if p >= 666_666 then CONGESTED else if p >= 333_333 then WATCH else CLEAR
  }

  function Decay(p: nat, ppm: nat): nat {
    p * ppm / FULL
  }

  /** The pressure of a source after `d` floor-decays. */
  function Pressure(s: Severity, ppm: nat, d: nat): nat {
    if d == 0 then SeverityPressure(s) else Decay(Pressure(s, ppm, d - 1), ppm)
  }

  lemma {:induction false} DecayShrinks(p: nat, ppm: nat)
    requires ppm <= FULL
    ensures Decay(p, ppm) <= p
  {
    assert p * ppm <= p * FULL;
  }

  lemma {:induction false} PressureShrinks(s: Severity, ppm: nat, d: nat, e: nat)
    requires ppm <= FULL && d <= e
    ensures Pressure(s, ppm, e) <= Pressure(s, ppm, d)
    decreases e
  {
    if d < e {
      PressureShrinks(s, ppm, d, e - 1);
      DecayShrinks(Pressure(s, ppm, e - 1), ppm);
    }
  }

  /** The scale, both ways: a pressure means the highest severity whose own pressure it is
      not below, a severity's pressure means that severity, and a hop takes the floor of
      the decay's share. */
  lemma {:induction false} ScaleExact(s: Severity, p: nat, ppm: nat, d: nat)
    ensures PressureSeverity(p) >= s <==> p >= SeverityPressure(s)
    ensures PressureSeverity(SeverityPressure(s)) == s && 1_000_000 * s <= 3 * SeverityPressure(s) + 2
    ensures 3 * SeverityPressure(s) <= 1_000_000 * s
    ensures Pressure(s, ppm, 0) == SeverityPressure(s)
    ensures var now, next := Pressure(s, ppm, d), Pressure(s, ppm, d + 1);
            next * 1_000_000 <= now * ppm < (next + 1) * 1_000_000
  {
    FloorBounds(Pressure(s, ppm, d) * ppm);
  }

  lemma {:induction false} FloorBounds(n: nat)
    ensures n / 1_000_000 * 1_000_000 <= n < (n / 1_000_000 + 1) * 1_000_000
  {
  }

  // ---- The graph ------------------------------------------------------------

  datatype Graph = Graph(topology: Snapshot, links: bool, paths: bool)

  /** The hop after the first occurrence of `node`. */
  function NextHop(hops: seq<Id>, node: Id): Option<Id> {
    if hops == [] then None
    else if hops[0] == node then if |hops| > 1 then Some(hops[1]) else None
    else NextHop(hops[1..], node)
  }

  /** The next hop is what follows the first occurrence, if anything does. */
  lemma {:induction false} NextHopExact(hops: seq<Id>, node: Id, next: Id)
    ensures NextHop(hops, node) == Some(next)
       <==> exists i :: 0 <= i < |hops| - 1 && hops[i] == node && node !in hops[..i] && hops[i + 1] == next
  {
    if hops != [] {
      NextHopExact(hops[1..], node, next);
      if hops[0] == node {
        if |hops| > 1 && hops[1] == next {
          assert node !in hops[..0];
        }
        assert forall i | 0 < i < |hops| :: hops[0] in hops[..i];
      } else {
        forall i | 0 < i < |hops| - 1
          ensures node in hops[..i] <==> node in hops[1..][..i - 1]
        {
          assert hops[..i] == [hops[0]] + hops[1..][..i - 1];
        }
        if i :| 0 <= i < |hops| - 1 && hops[i] == node && node !in hops[..i] && hops[i + 1] == next {
          assert hops[1..][i - 1] == node && hops[1..][i] == next;
        }
        if i :| 0 <= i < |hops[1..]| - 1 && hops[1..][i] == node && node !in hops[1..][..i] && hops[1..][i + 1] == next {
          assert hops[i + 1] == node && node !in hops[..i + 1];
        }
      }
    }
  }

  function LinkNeighbours(ls: seq<Link>, node: Id): set<(Id, Id)> {
    set l | l in ls && l.from == node :: (l.to, 0)
  }

  function PathNeighbours(ps: seq<Path>, node: Id): set<(Id, Id)> {
    set p | p in ps && NextHop(p.hops, node).Some? :: (NextHop(p.hops, node).value, p.id)
  }

  /** Where pressure goes from a node, and along which path (none for a link). */
  function Neighbours(g: Graph, node: Id): set<(Id, Id)> {
    (if g.links then LinkNeighbours(g.topology.links, node) else {})
    + (if g.paths then PathNeighbours(g.topology.paths, node) else {})
  }

  ghost predicate Adjacent(g: Graph, x: Id, y: Id) {
    exists via :: (y, via) in Neighbours(g, x)
  }

  /** The resources within `d` hops of `s`. */
  ghost predicate Within(g: Graph, s: Id, d: nat, r: Id)
    decreases d
  {
    if d == 0 then r == s
    else Within(g, s, d - 1, r) || exists x :: Within(g, s, d - 1, x) && Adjacent(g, x, r)
  }

  /** The resources at shortest distance exactly `d`. */
  ghost predicate AtDistance(g: Graph, s: Id, d: nat, r: Id) {
    Within(g, s, d, r) && (d > 0 ==> !Within(g, s, d - 1, r))
  }

  /** A walk along the neighbour relation. */
  ghost predicate Walk(g: Graph, w: seq<Id>) {
    w != [] && forall i | 0 <= i < |w| - 1 :: Adjacent(g, w[i], w[i + 1])
  }

  lemma {:induction false} WithinMore(g: Graph, s: Id, d: nat, e: nat, r: Id)
    requires d <= e && Within(g, s, d, r)
    ensures Within(g, s, e, r)
    decreases e
  {
    if d < e {
      WithinMore(g, s, d, e - 1, r);
    }
  }

  /** Shortest distance is about real walks: a resource is within `d` hops exactly
      when a walk of at most `d` edges reaches it. */
  lemma {:induction false} WithinIsWalk(g: Graph, s: Id, d: nat, r: Id)
    ensures Within(g, s, d, r) <==> exists w :: Walk(g, w) && w[0] == s && w[|w| - 1] == r && |w| <= d + 1
    decreases d
  {
    if Within(g, s, d, r) {
      var w := WalkTo(g, s, d, r);
    }
    if w :| Walk(g, w) && w[0] == s && w[|w| - 1] == r && |w| <= d + 1 {
      WalkWithin(g, w, |w| - 1);
      WithinMore(g, s, |w| - 1, d, r);
    }
  }

  lemma {:induction false} WalkTo(g: Graph, s: Id, d: nat, r: Id) returns (w: seq<Id>)
    requires Within(g, s, d, r)
    ensures Walk(g, w) && w[0] == s && w[|w| - 1] == r && |w| <= d + 1
    decreases d
  {
    if d == 0 {
      w := [s];
    } else if Within(g, s, d - 1, r) {
      w := WalkTo(g, s, d - 1, r);
    } else {
      var x :| Within(g, s, d - 1, x) && Adjacent(g, x, r);
      var v := WalkTo(g, s, d - 1, x);
      w := v + [r];
    }
  }

  lemma {:induction false} WalkWithin(g: Graph, w: seq<Id>, i: nat)
    requires Walk(g, w) && i < |w|
    ensures Within(g, w[0], i, w[i])
    decreases i
  {
    if i > 0 {
      WalkWithin(g, w, i - 1);
      assert Adjacent(g, w[i - 1], w[i]);
    }
  }

  // ---- The closed form ------------------------------------------------------

  predicate Marks(policy: PropagationPolicy, p: nat) {
    p >= policy.minPressurePpm && PressureSeverity(p) != CLEAR
  }

  ghost function GraphOf(t: Snapshot, policy: PropagationPolicy): (g: Graph)
    ensures g.topology == t
  {
    Graph(t, policy.followLinks, policy.followPaths)
  }

  /** A source offers a resource its pressure over their shortest distance. */
  ghost predicate Offers(g: Graph, policy: PropagationPolicy, s: Source, r: Id, d: nat) {
    && s.severity != CLEAR && Known(g.topology.resources, s.resource)
    && 1 <= d <= policy.maxDepth && AtDistance(g, s.resource, d, r)
    && Marks(policy, Pressure(s.severity, policy.decayPpm, d))
  }

  /** Pressure moves along a link to its end, or along a path to what follows the first
      occurrence on it, as the policy follows links and paths. */
  lemma {:induction false} AdjacentExact(t: Snapshot, policy: PropagationPolicy, x: Id, y: Id)
    ensures Adjacent(GraphOf(t, policy), x, y) <==>
              || (policy.followLinks && exists l :: l in t.links && l.from == x && l.to == y)
              || (policy.followPaths && exists p :: p in t.paths && Leads(p.hops, x, y))
  {
    var g := GraphOf(t, policy);
    forall p | p in t.paths
      ensures NextHop(p.hops, x) == Some(y) <==> Leads(p.hops, x, y)
    {
      NextHopExact(p.hops, x, y);
    }
    hide NextHop, Leads;
    if policy.followLinks {
      if l :| l in t.links && l.from == x && l.to == y {
        assert (y, 0) in Neighbours(g, x);
      }
    }
    if policy.followPaths {
      if p :| p in t.paths && Leads(p.hops, x, y) {
        assert (y, p.id) in Neighbours(g, x);
      }
    }
  }

  predicate Leads(hops: seq<Id>, x: Id, y: Id) {
    exists i :: 0 <= i < |hops| - 1 && hops[i] == x && x !in hops[..i] && hops[i + 1] == y
  }

  /** A walk of some number of edges between two resources. */
  ghost predicate WalkOf(g: Graph, from: Id, to: Id, edges: nat) {
    exists w :: Walk(g, w) && w[0] == from && w[|w| - 1] == to && |w| == edges + 1
  }

  /** What a source offers, spelled out: it is not Clear and known, a walk of `d` edges within
      the depth leads to the resource and none of fewer, and after `d` decays the pressure
      still reaches the policy's minimum and a third. */
  lemma {:induction false} OffersExact(g: Graph, policy: PropagationPolicy, s: Source, r: Id, d: nat)
    ensures Offers(g, policy, s, r, d) <==>
              && s.severity > 0 && (exists k :: k in g.topology.resources && k.id == s.resource)
              && 0 < d <= policy.maxDepth
              && WalkOf(g, s.resource, r, d) && (forall e: nat | e < d :: !WalkOf(g, s.resource, r, e))
              && Pressure(s.severity, policy.decayPpm, d) >= policy.minPressurePpm
              && Pressure(s.severity, policy.decayPpm, d) >= 333_333
  {
    hide Walk, Within, Pressure;
    KnownMeans(g.topology.resources, s.resource);
    if d > 0 {
      DistanceExact(g, s.resource, r, d);
    }
    hide WalkOf, Known, AtDistance;
  }

  lemma {:induction false} KnownMeans(rs: seq<Resource>, id: Id)
    ensures Known(rs, id) <==> exists k :: k in rs && k.id == id
  {
    if k :| k in rs && k.id == id {
      var i :| 0 <= i < |rs| && rs[i] == k;
      assert rs[i].id == id;
    }
  }

  lemma {:induction false} DistanceExact(g: Graph, s: Id, r: Id, d: nat)
    ensures AtDistance(g, s, d, r) <==> WalkOf(g, s, r, d) && forall e: nat | e < d :: !WalkOf(g, s, r, e)
  {
    hide Within, Adjacent;
    WithinIsWalk(g, s, d, r);
    if d > 0 {
      WithinIsWalk(g, s, d - 1, r);
    }
    if AtDistance(g, s, d, r) {
      var w :| Walk(g, w) && w[0] == s && w[|w| - 1] == r && |w| <= d + 1;
      assert d > 0 ==> |w| == d + 1;
      assert WalkOf(g, s, r, d);
    }
    if WalkOf(g, s, r, d) && forall e: nat | e < d :: !WalkOf(g, s, r, e) {
      if d > 0 && Within(g, s, d - 1, r) {
        var v :| Walk(g, v) && v[0] == s && v[|v| - 1] == r && |v| <= d;
        assert WalkOf(g, s, r, |v| - 1);
      }
    }
  }

  /** The recorded target was offered by a source over a walk that ends in its edge. */
  ghost predicate Witnessed(g: Graph, policy: PropagationPolicy, s: Source, r: Id, t: Target) {
    && Offers(g, policy, s, r, t.hops) && t.pressure == Pressure(s.severity, policy.decayPpm, t.hops)
    && Within(g, s.resource, t.hops - 1, t.from) && (r, t.via) in Neighbours(g, t.from)
  }

  /** The record: everything offered is there at no less pressure, and nothing else is. */
  ghost predicate Settled(g: Graph, policy: PropagationPolicy, sources: seq<Source>, best: map<Id, Target>) {
    && (forall r | r in best :: exists s :: s in sources && Witnessed(g, policy, s, r, best[r]))
    && (forall s, r, d: nat | s in sources && Offers(g, policy, s, r, d) ::
          r in best && best[r].pressure >= Pressure(s.severity, policy.decayPpm, d))
  }

  /** The recorded pressure of a resource is the maximum over the sources that reach it. */
  lemma {:induction false} SettledIsMaximum(g: Graph, policy: PropagationPolicy, sources: seq<Source>, best: map<Id,
                                            Target>, r: Id)
    requires Settled(g, policy, sources, best)
    ensures r in best <==> exists s, d: nat :: s in sources && Offers(g, policy, s, r, d)
    ensures r in best ==>
              && (exists s, d: nat :: s in sources && Offers(g, policy, s, r, d)
                    && best[r].pressure == Pressure(s.severity, policy.decayPpm, d))
              && (forall s, d: nat | s in sources && Offers(g, policy, s, r, d) ::
                    Pressure(s.severity, policy.decayPpm, d) <= best[r].pressure)
  {
    if r in best {
      var s :| s in sources && Witnessed(g, policy, s, r, best[r]);
      assert Offers(g, policy, s, r, best[r].hops);
    }
  }

  // ---- Neighbour lists ------------------------------------------------------

  predicate PairLess(a: (Id, Id), b: (Id, Id)) {
    a.0 < b.0 || (a.0 == b.0 && a.1 < b.1)
  }

  predicate Ordered(s: seq<(Id, Id)>) {
    |s| <= 1 || (PairLess(s[0], s[1]) && Ordered(s[1..]))
  }

  /** Insert into a sorted duplicate-free list. */
  function Place(s: seq<(Id, Id)>, x: (Id, Id)): (r: seq<(Id, Id)>)
    requires Ordered(s)
    ensures Ordered(r) && r != [] && (r[0] == x || (s != [] && r[0] == s[0]))
    ensures forall y :: y in r <==> y == x || y in s
  {
    if s == [] || PairLess(x, s[0]) then [x] + s
    else
      assert s == [s[0]] + s[1..];
      if x == s[0] then s else [s[0]] + Place(s[1..], x)
  }

  function PlaceAll(s: seq<(Id, Id)>): (r: seq<(Id, Id)>)
    ensures Ordered(r) && forall y :: y in r <==> y in s
  {
    if s == [] then []
    else
      assert s == [s[0]] + s[1..];
      Place(PlaceAll(s[1..]), s[0])
  }

  function PathById(ps: seq<Path>, id: Id): (r: Option<Path>)
    ensures r.Some? ==> r.value in ps && r.value.id == id
    ensures r.None? ==> forall p | p in ps :: p.id != id
  {
    if ps == [] then None else if ps[0].id == id then Some(ps[0])
    else
      assert ps == [ps[0]] + ps[1..];
      PathById(ps[1..], id)
  }

  lemma {:induction false} PathIdOnce(ps: seq<Path>, p: Path)
    requires PathIdsDistinct(ps) && p in ps
    ensures PathById(ps, p.id) == Some(p)
  {
    var q := PathById(ps, p.id).value;
    var i :| 0 <= i < |ps| && ps[i] == p;
    var j :| 0 <= j < |ps| && ps[j] == q;
  }

  lemma {:induction false} NextHopOnPath(hops: seq<Id>, node: Id)
    ensures NextHop(hops, node).Some? ==> node in hops
  {
    if hops != [] && hops[0] != node {
      NextHopOnPath(hops[1..], node);
    }
  }

  method LinkList(t: TopologyIndex, node: Id) returns (out: seq<(Id, Id)>)
    requires t.Indexed()
    ensures forall y :: y in out <==> y in LinkNeighbours(t.snapshot.links, node)
  {
    out := [];
    var successors := t.Successors(node);
    for i := 0 to |successors|
      invariant forall y :: y in out <==> y.1 == 0 && y.0 in successors[..i]
    {
      out := out + [(successors[i], 0)];
    }
    assert successors[..|successors|] == successors;
  }

  method PathList(t: TopologyIndex, node: Id) returns (out: seq<(Id, Id)>)
    requires t.Indexed()
    ensures forall y :: y in out <==> y in PathNeighbours(t.snapshot.paths, node)
  {
    out := [];
    var ps := t.snapshot.paths;
    var ids := t.ResourcePaths(node);
    for i := 0 to |ids|
      invariant forall y | y in out :: y in PathNeighbours(ps, node)
      invariant forall p | p in ps && p.id in ids[..i] && NextHop(p.hops, node).Some? ::
                  (NextHop(p.hops, node).value, p.id) in out
    {
      var record := PathById(ps, ids[i]);
      if record.Some? {
        var next := NextHop(record.value.hops, node);
        if next.Some? {
          out := out + [(next.value, ids[i])];
        }
      }
      forall p | p in ps && p.id == ids[i] && NextHop(p.hops, node).Some?
        ensures (NextHop(p.hops, node).value, p.id) in out
      {
        PathIdOnce(ps, p);
      }
    }
    assert ids[..|ids|] == ids;
    forall y | y in PathNeighbours(ps, node)
      ensures y in out
    {
      var p :| p in ps && NextHop(p.hops, node).Some? && y == (NextHop(p.hops, node).value, p.id);
      NextHopOnPath(p.hops, node);
    }
  }

  /** `neighbours`: links, then paths, sorted and without repeats. */
  method NeighbourList(t: TopologyIndex, node: Id, policy: PropagationPolicy) returns (out: seq<(Id, Id)>)
    requires t.Indexed()
    ensures Ordered(out)
    ensures forall y :: y in out <==> y in Neighbours(GraphOf(t.snapshot, policy), node)
  {
    var links: seq<(Id, Id)>, paths: seq<(Id, Id)> := [], [];
    if policy.followLinks {
      links := LinkList(t, node);
    }
    if policy.followPaths {
      paths := PathList(t, node);
    }
    out := PlaceAll(links + paths);
  }

  // ---- One source, layer by layer -------------------------------------------

  /** Everything offered so far is recorded: by the sources already done, by this
      source below `depth`, and at `depth` to the resources in `reached`. */
  ghost predicate Partial(g: Graph, policy: PropagationPolicy, done: seq<Source>, s: Source, depth: nat,
                          reached: set<Id>, best: map<Id, Target>)
  {
    && (forall r | r in best :: exists q :: q in done + [s] && Witnessed(g, policy, q, r, best[r]))
    && (forall q, r, d: nat | q in done && Offers(g, policy, q, r, d) ::
          r in best && best[r].pressure >= Pressure(q.severity, policy.decayPpm, d))
    && (forall r, d: nat | d < depth && Offers(g, policy, s, r, d) ::
          r in best && best[r].pressure >= Pressure(s.severity, policy.decayPpm, d))
    && (Marks(policy, Pressure(s.severity, policy.decayPpm, depth)) ==> forall r | r in reached ::
          r in best && best[r].pressure >= Pressure(s.severity, policy.decayPpm, depth))
  }

  /** Keep the larger pressure; on a tie the smaller edge. */
  function Improve(best: map<Id, Target>, r: Id, t: Target): (b: map<Id, Target>)
    ensures r in b && b.Keys == best.Keys + {r} && b[r].pressure >= t.pressure
    ensures r in best ==> b[r].pressure >= best[r].pressure && (b[r] == best[r] || b[r] == t)
    ensures r !in best ==> b[r] == t
    ensures forall k | k in best && k != r :: b[k] == best[k]
  {
    if r !in best || t.pressure > best[r].pressure
       || (t.pressure == best[r].pressure && PairLess((t.from, t.via), (best[r].from, best[r].via)))
    then best[r := t] else best
  }

  lemma {:induction false} PartialImproved(g: Graph, policy: PropagationPolicy, done: seq<Source>, s: Source, depth: nat,
                        reached: set<Id>, best: map<Id, Target>, r: Id, t: Target)
    requires Partial(g, policy, done, s, depth, reached, best) && Witnessed(g, policy, s, r, t) && t.hops == depth
    ensures Partial(g, policy, done, s, depth, reached + {r}, Improve(best, r, t))
  {
    hide Improve;
    hide Offers, AtDistance, Within, Neighbours;
    var b := Improve(best, r, t);
    forall k | k in b
      ensures exists q :: q in done + [s] && Witnessed(g, policy, q, k, b[k])
    {
      if k in best && b[k] == best[k] {
        var q :| q in done + [s] && Witnessed(g, policy, q, k, best[k]);
      } else {
        assert s in done + [s] && Witnessed(g, policy, s, k, b[k]);
      }
    }
  }

  /** The nodes of a frontier are those at distance `d`, all under the same pressure. */
  ghost predicate Frontier(g: Graph, policy: PropagationPolicy, s: Source, d: nat, frontier: seq<(Id, nat)>) {
    && (forall x :: AtDistance(g, s.resource, d, x) <==> exists i :: 0 <= i < |frontier| && frontier[i].0 == x)
    && (forall i | 0 <= i < |frontier| :: frontier[i].1 == Pressure(s.severity, policy.decayPpm, d))
  }

  /** `next` holds exactly the nodes of `reached`, under pressure `p`. */
  predicate Collected(next: seq<(Id, nat)>, reached: set<Id>, p: nat) {
    && (forall i | 0 <= i < |next| :: next[i].0 in reached && next[i].1 == p)
    && (forall x | x in reached :: exists i :: 0 <= i < |next| && next[i].0 == x)
  }

  /** What one layer has done so far. */
  datatype Spread = Spread(next: seq<(Id, nat)>, visited: set<Id>, best: map<Id, Target>)

  ghost predicate Reached(g: Graph, policy: PropagationPolicy, done: seq<Source>, s: Source, depth: nat,
                          seen: set<Id>, now: Spread)
  {
    var p := Pressure(s.severity, policy.decayPpm, depth);
    && seen <= now.visited
    && (forall r | r in now.visited :: Within(g, s.resource, depth, r))
    && Collected(now.next, if Marks(policy, p) then now.visited - seen else {}, p)
    && Partial(g, policy, done, s, depth, now.visited - seen, now.best)
  }

  ghost predicate CanSpread(g: Graph, policy: PropagationPolicy, s: Source, depth: nat) {
    && policy.decayPpm <= FULL && 1 <= depth <= policy.maxDepth
    && s.severity != CLEAR && Known(g.topology.resources, s.resource)
  }

  /** Visit one new neighbour: mark it while the pressure lasts. */
  function Visit(now: Spread, policy: PropagationPolicy, depth: nat, node: (Id, nat), y: (Id, Id)): Spread {
    var pressure := Decay(node.1, policy.decayPpm);
    var visited := now.visited + {y.0};
    if Marks(policy, pressure) then
      Spread(now.next + [(y.0, pressure)], visited, Improve(now.best, y.0, Target(pressure, depth, node.0, y.1)))
    else
      now.(visited := visited)
  }

  lemma {:induction false} PartialUnmarked(g: Graph, policy: PropagationPolicy, done: seq<Source>, s: Source, depth: nat,
                        reached: set<Id>, more: set<Id>, best: map<Id, Target>)
    requires Partial(g, policy, done, s, depth, reached, best)
    requires !Marks(policy, Pressure(s.severity, policy.decayPpm, depth))
    ensures Partial(g, policy, done, s, depth, more, best)
  {
  }

  lemma {:induction false} CollectedMore(next: seq<(Id, nat)>, reached: set<Id>, p: nat, y: Id)
    requires Collected(next, reached, p)
    ensures Collected(next + [(y, p)], reached + {y}, p)
  {
    var more := next + [(y, p)];
    forall x | x in reached + {y}
      ensures exists i :: 0 <= i < |more| && more[i].0 == x
    {
      if x in reached {
        var i :| 0 <= i < |next| && next[i].0 == x;
        assert more[i].0 == x;
      } else {
        assert more[|next|].0 == x;
      }
    }
  }

  lemma {:induction false} VisitReaches(g: Graph, policy: PropagationPolicy, done: seq<Source>, s: Source, depth: nat,
                     seen: set<Id>, now: Spread, node: (Id, nat), y: (Id, Id))
    requires CanSpread(g, policy, s, depth) && Reached(g, policy, done, s, depth, seen, now)
    requires Within(g, s.resource, depth - 1, node.0) && node.1 == Pressure(s.severity, policy.decayPpm, depth - 1)
    requires y in Neighbours(g, node.0) && y.0 !in now.visited
    requires forall r :: r in seen <==> Within(g, s.resource, depth - 1, r)
    ensures Reached(g, policy, done, s, depth, seen, Visit(now, policy, depth, node, y))
  {
    hide Partial, Neighbours, Improve;
    var p := Pressure(s.severity, policy.decayPpm, depth);
    var reached := now.visited - seen;
    assert Adjacent(g, node.0, y.0);
    assert now.visited + {y.0} - seen == reached + {y.0};
    if Marks(policy, p) {
      var t := Target(p, depth, node.0, y.1);
      assert AtDistance(g, s.resource, depth, y.0);
      PartialImproved(g, policy, done, s, depth, reached, now.best, y.0, t);
      CollectedMore(now.next, reached, p, y.0);
    } else {
      PartialUnmarked(g, policy, done, s, depth, reached, reached + {y.0}, now.best);
    }
  }

  /** All neighbours of one frontier node. */
  method Expand(t: TopologyIndex, policy: PropagationPolicy, ghost done: seq<Source>, s: Source, depth: nat,
                node: (Id, nat), ghost seen: set<Id>, before: Spread)
    returns (now: Spread)
    requires t.Indexed()
    requires CanSpread(GraphOf(t.snapshot, policy), policy, s, depth)
    requires Reached(GraphOf(t.snapshot, policy), policy, done, s, depth, seen, before)
    requires Within(GraphOf(t.snapshot, policy), s.resource, depth - 1, node.0)
    requires node.1 == Pressure(s.severity, policy.decayPpm, depth - 1)
    requires forall r :: r in seen <==> Within(GraphOf(t.snapshot, policy), s.resource, depth - 1, r)
    ensures Reached(GraphOf(t.snapshot, policy), policy, done, s, depth, seen, now)
    ensures before.visited <= now.visited
    ensures forall y | Adjacent(GraphOf(t.snapshot, policy), node.0, y) :: y in now.visited
  {
    hide Reached, CanSpread, Neighbours, Within, Visit;
    ghost var g := GraphOf(t.snapshot, policy);
    var list := NeighbourList(t, node.0, policy);
    now := before;
    for j := 0 to |list|
      invariant Reached(g, policy, done, s, depth, seen, now)
      invariant before.visited <= now.visited
      invariant forall k | 0 <= k < j :: list[k].0 in now.visited
    {
      var y := list[j];
      if y.0 !in now.visited {
        assert y in list;
        VisitReaches(g, policy, done, s, depth, seen, now, node, y);
        VisitGrows(now, policy, depth, node, y);
        now := Visit(now, policy, depth, node, y);
      }
    }
    forall y | Adjacent(g, node.0, y)
      ensures y in now.visited
    {
      var via :| (y, via) in Neighbours(g, node.0);
      assert (y, via) in list;
      var k :| 0 <= k < |list| && list[k] == (y, via);
      assert list[k].0 in now.visited;
    }
  }

  lemma {:induction false} VisitGrows(now: Spread, policy: PropagationPolicy, depth: nat, node: (Id, nat), y: (Id, Id))
    ensures Visit(now, policy, depth, node, y).visited == now.visited + {y.0}
  {
  }

  /** One layer: every unvisited neighbour of the frontier is visited, and marked
      while the pressure lasts. */
  method Layer(t: TopologyIndex, policy: PropagationPolicy, ghost done: seq<Source>, s: Source, depth: nat,
               frontier: seq<(Id, nat)>, seen: set<Id>, record: map<Id, Target>)
    returns (now: Spread)
    requires t.Indexed() && depth >= 1
    requires CanSpread(GraphOf(t.snapshot, policy), policy, s, depth)
    requires Frontier(GraphOf(t.snapshot, policy), policy, s, depth - 1, frontier)
    requires forall r :: r in seen <==> Within(GraphOf(t.snapshot, policy), s.resource, depth - 1, r)
    requires Partial(GraphOf(t.snapshot, policy), policy, done, s, depth, {}, record)
    ensures forall r :: r in now.visited <==> Within(GraphOf(t.snapshot, policy), s.resource, depth, r)
    ensures Partial(GraphOf(t.snapshot, policy), policy, done, s, depth, now.visited - seen, now.best)
    ensures if Marks(policy, Pressure(s.severity, policy.decayPpm, depth))
            then Frontier(GraphOf(t.snapshot, policy), policy, s, depth, now.next) else now.next == []
  {
    hide Partial, Neighbours, Within, Reached, CanSpread, AtDistance, Marks, Pressure;
    ghost var g := GraphOf(t.snapshot, policy);
    now := Spread([], seen, record);
    LayerStart(g, policy, done, s, depth, seen, record);
    for i := 0 to |frontier|
      invariant Reached(g, policy, done, s, depth, seen, now)
      invariant forall k, y | 0 <= k < i && Adjacent(g, frontier[k].0, y) :: y in now.visited
    {
      FrontierNode(g, policy, s, depth - 1, frontier, i);
      now := Expand(t, policy, done, s, depth, frontier[i], seen, now);
    }
    LayerDone(g, policy, done, s, depth - 1, frontier, seen, now);
  }

  lemma {:induction false} FrontierNode(g: Graph, policy: PropagationPolicy, s: Source, d: nat, frontier: seq<(Id,
                                        nat)>, i: nat)
    requires Frontier(g, policy, s, d, frontier) && i < |frontier|
    ensures Within(g, s.resource, d, frontier[i].0) && frontier[i].1 == Pressure(s.severity, policy.decayPpm, d)
  {
    assert AtDistance(g, s.resource, d, frontier[i].0);
  }

  lemma {:induction false} LayerStart(g: Graph, policy: PropagationPolicy, done: seq<Source>, s: Source, depth: nat,
                   seen: set<Id>, record: map<Id, Target>)
    requires depth >= 1 && Partial(g, policy, done, s, depth, {}, record)
    requires forall r :: r in seen <==> Within(g, s.resource, depth - 1, r)
    ensures Reached(g, policy, done, s, depth, seen, Spread([], seen, record))
  {
    hide Partial;
    assert seen - seen == {};
  }

  lemma {:induction false} LayerDone(g: Graph, policy: PropagationPolicy, done: seq<Source>, s: Source, d: nat,
                  frontier: seq<(Id, nat)>, seen: set<Id>, now: Spread)
    requires Reached(g, policy, done, s, d + 1, seen, now) && Frontier(g, policy, s, d, frontier)
    requires forall k, y | 0 <= k < |frontier| && Adjacent(g, frontier[k].0, y) :: y in now.visited
    requires forall r :: r in seen <==> Within(g, s.resource, d, r)
    ensures forall r :: r in now.visited <==> Within(g, s.resource, d + 1, r)
    ensures Partial(g, policy, done, s, d + 1, now.visited - seen, now.best)
    ensures if Marks(policy, Pressure(s.severity, policy.decayPpm, d + 1))
            then Frontier(g, policy, s, d + 1, now.next) else now.next == []
  {
    hide Partial;
    forall r | Within(g, s.resource, d + 1, r)
      ensures r in now.visited
    {
      LayerCovers(g, policy, s, d, frontier, seen, now.visited, r);
    }
    var e := d + 1;
    if Marks(policy, Pressure(s.severity, policy.decayPpm, e)) {
      forall x
        ensures AtDistance(g, s.resource, e, x) <==> exists i :: 0 <= i < |now.next| && now.next[i].0 == x
      {
        assert AtDistance(g, s.resource, e, x) <==> x in now.visited - seen;
      }
    } else {
      assert |now.next| > 0 ==> now.next[0].0 in {};
    }
  }

  lemma {:induction false} LayerCovers(g: Graph, policy: PropagationPolicy, s: Source, d: nat, frontier: seq<(Id, nat)>,
                    seen: set<Id>, visited: set<Id>, r: Id)
    requires Frontier(g, policy, s, d, frontier) && seen <= visited
    requires forall k, y | 0 <= k < |frontier| && Adjacent(g, frontier[k].0, y) :: y in visited
    requires forall q :: q in seen <==> Within(g, s.resource, d, q)
    requires Within(g, s.resource, d + 1, r)
    ensures r in visited
  {
    hide Adjacent;
    if !Within(g, s.resource, d, r) {
      var x :| Within(g, s.resource, d, x) && Adjacent(g, x, r);
      if d > 0 && Within(g, s.resource, d - 1, x) {
        assert false;
      }
      assert AtDistance(g, s.resource, d, x);
      var i :| 0 <= i < |frontier| && frontier[i].0 == x;
    }
  }

  /** The rest of the search cannot offer anything: nobody is at this distance, or
      the pressure no longer marks. */
  ghost predicate Exhausted(g: Graph, policy: PropagationPolicy, s: Source, depth: nat) {
    forall r, d: nat | d >= depth :: !Offers(g, policy, s, r, d)
  }

  lemma {:induction false} PressureSpent(g: Graph, policy: PropagationPolicy, s: Source, depth: nat)
    requires policy.decayPpm <= FULL && !Marks(policy, Pressure(s.severity, policy.decayPpm, depth))
    ensures Exhausted(g, policy, s, depth)
  {
    forall r, d: nat | d >= depth
      ensures !Offers(g, policy, s, r, d)
    {
      PressureShrinks(s.severity, policy.decayPpm, depth, d);
    }
  }

  lemma {:induction false} NobodyBeyond(g: Graph, s: Id, d: nat, e: nat, r: Id)
    requires forall x :: !AtDistance(g, s, d, x)
    requires d <= e
    ensures !AtDistance(g, s, e, r)
    decreases e
  {
    if d < e && AtDistance(g, s, e, r) {
      var x :| Within(g, s, e - 1, x) && Adjacent(g, x, r);
      NobodyBeyond(g, s, d, e - 1, x);
    }
  }

  lemma {:induction false} FrontierSpent(g: Graph, policy: PropagationPolicy, s: Source, d: nat)
    requires Frontier(g, policy, s, d, [])
    ensures Exhausted(g, policy, s, d + 1)
  {
    forall r, e: nat | e >= d + 1
      ensures !Offers(g, policy, s, r, e)
    {
      forall x
        ensures !AtDistance(g, s.resource, d, x)
      {
      }
      NobodyBeyond(g, s.resource, d, e, r);
    }
  }

  lemma {:induction false} SettledStart(g: Graph, policy: PropagationPolicy, done: seq<Source>, s: Source,
                                        best: map<Id, Target>)
    requires Settled(g, policy, done, best)
    ensures Partial(g, policy, done, s, 1, {}, best)
    ensures (s.severity == CLEAR || !Known(g.topology.resources, s.resource)) ==> Settled(g, policy, done + [s], best)
  {
    hide AtDistance, Neighbours;
    forall r | r in best
      ensures exists q :: q in done + [s] && Witnessed(g, policy, q, r, best[r])
    {
      var q :| q in done && Witnessed(g, policy, q, r, best[r]);
      assert q in done + [s];
    }
  }

  lemma {:induction false} PartialNext(g: Graph, policy: PropagationPolicy, done: seq<Source>, s: Source, depth: nat,
                    reached: set<Id>, best: map<Id, Target>)
    requires Partial(g, policy, done, s, depth, reached, best)
    requires forall r | AtDistance(g, s.resource, depth, r) :: r in reached
    ensures Partial(g, policy, done, s, depth + 1, {}, best)
  {
    hide AtDistance, Neighbours;
  }

  lemma {:induction false} PartialSettled(g: Graph, policy: PropagationPolicy, done: seq<Source>, s: Source, depth: nat,
                       best: map<Id, Target>)
    requires Partial(g, policy, done, s, depth, {}, best) && (depth > policy.maxDepth || Exhausted(g, policy, s, depth))
    ensures Settled(g, policy, done + [s], best)
  {
    hide AtDistance, Neighbours, Pressure;
    forall q, r, d: nat | q in done + [s] && Offers(g, policy, q, r, d)
      ensures r in best && best[r].pressure >= Pressure(q.severity, policy.decayPpm, d)
    {
      if q !in done {
        assert q == s && d < depth;
      }
    }
  }

  /** The layers of one source, until the depth bound or an empty frontier. */
  method SpreadFrom(t: TopologyIndex, policy: PropagationPolicy, ghost done: seq<Source>, s: Source, record: map<Id,
                    Target>)
    returns (best: map<Id, Target>)
    requires t.Indexed() && policy.decayPpm <= FULL
    requires Settled(GraphOf(t.snapshot, policy), policy, done, record)
    ensures Settled(GraphOf(t.snapshot, policy), policy, done + [s], best)
  {
    hide *;
    ghost var g := GraphOf(t.snapshot, policy);
    best := record;
    SettledStart(g, policy, done, s, best);
    var known := t.Contains(s.resource);
    if s.severity == CLEAR || !known {
      return;
    }
    var visited := {s.resource};
    var frontier := [(s.resource, SeverityPressure(s.severity))];
    var depth := 1;
    SearchStart(g, policy, done, s, best);
    while depth <= policy.maxDepth && frontier != []
      invariant depth >= 1 && Searching(g, policy, done, s, depth, frontier, visited, best)
      decreases policy.maxDepth + 1 - depth
    {
      SearchReady(g, policy, done, s, depth, frontier, visited, best);
      var now := Layer(t, policy, done, s, depth, frontier, visited, best);
      SearchStep(g, policy, done, s, depth, visited, now);
      frontier, visited, best := now.next, now.visited, now.best;
      depth := depth + 1;
    }
    SearchEnd(g, policy, done, s, depth, frontier, visited, best);
  }

  /** Between layers: everything closer than `depth` is offered, and the frontier
      is the last distance reached unless the search is spent. */
  ghost predicate Searching(g: Graph, policy: PropagationPolicy, done: seq<Source>, s: Source, depth: nat,
                            frontier: seq<(Id, nat)>, visited: set<Id>, best: map<Id, Target>)
    requires depth >= 1
  {
    && Partial(g, policy, done, s, depth, {}, best)
    && (frontier == [] ==> Exhausted(g, policy, s, depth))
    && (frontier != [] ==>
          && Frontier(g, policy, s, depth - 1, frontier)
          && forall r :: r in visited <==> Within(g, s.resource, depth - 1, r))
  }

  lemma {:induction false} SearchStart(g: Graph, policy: PropagationPolicy, done: seq<Source>, s: Source,
                                       best: map<Id, Target>)
    requires Partial(g, policy, done, s, 1, {}, best)
    ensures Searching(g, policy, done, s, 1, [(s.resource, SeverityPressure(s.severity))], {s.resource}, best)
  {
    hide Partial;
    SourceFrontier(g, policy, s);
  }

  lemma {:induction false} SearchReady(g: Graph, policy: PropagationPolicy, done: seq<Source>, s: Source, depth: nat,
                    frontier: seq<(Id, nat)>, visited: set<Id>, best: map<Id, Target>)
    requires 1 <= depth <= policy.maxDepth && frontier != [] && policy.decayPpm <= FULL
    requires s.severity != CLEAR && Known(g.topology.resources, s.resource)
    requires Searching(g, policy, done, s, depth, frontier, visited, best)
    ensures CanSpread(g, policy, s, depth) && Frontier(g, policy, s, depth - 1, frontier)
    ensures forall r :: r in visited <==> Within(g, s.resource, depth - 1, r)
    ensures Partial(g, policy, done, s, depth, {}, best)
  {
    hide Partial, Frontier, Within;
  }

  lemma {:induction false} SearchStep(g: Graph, policy: PropagationPolicy, done: seq<Source>, s: Source, depth: nat,
                   seen: set<Id>, now: Spread)
    requires depth >= 1 && policy.decayPpm <= FULL
    requires forall r :: r in seen <==> Within(g, s.resource, depth - 1, r)
    requires forall r :: r in now.visited <==> Within(g, s.resource, depth, r)
    requires Partial(g, policy, done, s, depth, now.visited - seen, now.best)
    requires if Marks(policy, Pressure(s.severity, policy.decayPpm, depth))
             then Frontier(g, policy, s, depth, now.next) else now.next == []
    ensures Searching(g, policy, done, s, depth + 1, now.next, now.visited, now.best)
  {
    hide Partial, Frontier, Within, Exhausted, Marks, Pressure;
    assert forall r | AtDistance(g, s.resource, depth, r) :: r in now.visited - seen;
    PartialNext(g, policy, done, s, depth, now.visited - seen, now.best);
    if now.next == [] {
      LayerSpent(g, policy, s, depth, now.next);
    }
  }

  lemma {:induction false} SearchEnd(g: Graph, policy: PropagationPolicy, done: seq<Source>, s: Source, depth: nat,
                  frontier: seq<(Id, nat)>, visited: set<Id>, best: map<Id, Target>)
    requires depth >= 1 && Searching(g, policy, done, s, depth, frontier, visited, best)
    requires depth > policy.maxDepth || frontier == []
    ensures Settled(g, policy, done + [s], best)
  {
    hide Partial, Frontier, Within, Exhausted, Settled;
    PartialSettled(g, policy, done, s, depth, best);
  }

  lemma {:induction false} SourceFrontier(g: Graph, policy: PropagationPolicy, s: Source)
    ensures Frontier(g, policy, s, 0, [(s.resource, SeverityPressure(s.severity))])
    ensures forall r :: r in {s.resource} <==> Within(g, s.resource, 0, r)
  {
    var f := [(s.resource, SeverityPressure(s.severity))];
    forall x
      ensures AtDistance(g, s.resource, 0, x) <==> exists i :: 0 <= i < |f| && f[i].0 == x
    {
      if x == s.resource {
        assert f[0].0 == x;
      }
    }
  }

  lemma {:induction false} LayerSpent(g: Graph, policy: PropagationPolicy, s: Source, depth: nat, next: seq<(Id, nat)>)
    requires policy.decayPpm <= FULL && next == []
    requires Marks(policy, Pressure(s.severity, policy.decayPpm, depth)) ==> Frontier(g, policy, s, depth, next)
    ensures Exhausted(g, policy, s, depth + 1)
  {
    if Marks(policy, Pressure(s.severity, policy.decayPpm, depth)) {
      FrontierSpent(g, policy, s, depth);
    } else {
      PressureSpent(g, policy, s, depth);
    }
  }

  // ---- All sources ----------------------------------------------------------

  predicate DistinctResources(sources: seq<Source>) {
    forall i, j | 0 <= i < j < |sources| :: sources[i].resource != sources[j].resource
  }

  predicate SourcesOrdered(s: seq<Source>) {
    |s| <= 1 || (s[0].resource < s[1].resource && SourcesOrdered(s[1..]))
  }

  /** Insert by resource; a resource already there keeps its first source. */
  function PlaceSource(s: seq<Source>, x: Source): (r: seq<Source>)
    requires SourcesOrdered(s)
    ensures SourcesOrdered(r) && r != [] && (r[0].resource == x.resource || (s != [] && r[0].resource == s[0].resource))
    ensures forall y | y in r :: y == x || y in s
    ensures x in r && forall y | y in s && y.resource != x.resource :: y in r
  {
    if s == [] || x.resource < s[0].resource then [x] + s
    else
      assert s == [s[0]] + s[1..];
      if x.resource == s[0].resource then
        assert SourcesOrdered([x] + s[1..]) by {
          assert ([x] + s[1..])[1..] == s[1..];
        }
        [x] + s[1..]
      else
        var r := PlaceSource(s[1..], x);
        assert ([s[0]] + r)[1..] == r;
        [s[0]] + r
  }

  predicate HasSource(s: seq<Source>, resource: Id) {
    exists i | 0 <= i < |s| :: s[i].resource == resource
  }

  /** One source kept for each resource that has any. */
  ghost predicate KeepsOne(sources: seq<Source>, kept: seq<Source>) {
    && SourcesOrdered(kept) && (forall y | y in kept :: y in sources)
    && forall y | y in sources :: HasSource(kept, y.resource)
  }

  function OrderSources(s: seq<Source>): (r: seq<Source>)
    ensures KeepsOne(s, r)
  {
    if s == [] then []
    else
      assert s == [s[0]] + s[1..];
      var rest := OrderSources(s[1..]);
      PlacedKeepsOne(s, rest);
      PlaceSource(rest, s[0])
  }

  lemma {:induction false} PlacedKeepsOne(s: seq<Source>, rest: seq<Source>)
    requires s != [] && KeepsOne(s[1..], rest)
    ensures KeepsOne(s, PlaceSource(rest, s[0]))
  {
    hide PlaceSource, SourcesOrdered;
    var r := PlaceSource(rest, s[0]);
    assert s == [s[0]] + s[1..];
    forall y | y in s
      ensures HasSource(r, y.resource)
    {
      var z: Source;
      if y.resource == s[0].resource {
        z := s[0];
      } else {
        assert HasSource(rest, y.resource);
        var i :| 0 <= i < |rest| && rest[i].resource == y.resource;
        z := rest[i];
      }
      assert z in r;
      var k :| 0 <= k < |r| && r[k] == z;
    }
  }

  datatype PropagationResult = PropagationResult(induced: seq<(Id, Severity)>, edges: seq<Edge>, truncated: bool)

  function Capped(p: nat, policy: PropagationPolicy): Severity {
    if PressureSeverity(p) > policy.maxInduced then policy.maxInduced else PressureSeverity(p)
  }

  /** The resources of a record, listed in ascending order. */
  method Keys(best: map<Id, Target>) returns (ks: seq<Id>)
    ensures Lists(ks, best.Keys)
  {
    var left := best.Keys;
    var all: seq<Id> := [];
    while left != {}
      invariant left <= best.Keys
      invariant forall x :: x in all <==> x in best.Keys && x !in left
    {
      var x :| x in left;
      left := left - {x};
      all := all + [x];
    }
    ks := Unique(Sort(all));
  }

  function EdgeTo(r: Id, t: Target, policy: PropagationPolicy): Edge {
    Edge(t.from, r, t.via, t.hops, t.pressure, Capped(t.pressure, policy))
  }

  /** What the report of a record must be: every capped severity above Clear is
      induced, in order, and the first `maxEdges` of them have their edge. */
  ghost predicate Reported(best: map<Id, Target>, policy: PropagationPolicy, maxEdges: nat, out: PropagationResult) {
    && (forall i, j | 0 <= i < j < |out.induced| :: out.induced[i].0 < out.induced[j].0)
    && (forall r, v :: (r, v) in out.induced <==> r in best && v == Capped(best[r].pressure, policy) && v != CLEAR)
    && |out.edges| == (if |out.induced| < maxEdges then |out.induced| else maxEdges)
    && (out.truncated <==> |out.induced| > maxEdges)
    && forall i | 0 <= i < |out.edges| :: out.induced[i].0 in best
         && out.edges[i] == EdgeTo(out.induced[i].0, best[out.induced[i].0], policy)
  }

  /** The report of the first `i` resources. */
  ghost predicate ReportedUpTo(best: map<Id, Target>, policy: PropagationPolicy, maxEdges: nat, ks: seq<Id>, i: nat,
                               out: PropagationResult)
    requires i <= |ks|
  {
    && (forall k | 0 <= k < |out.induced| :: out.induced[k].0 in ks[..i])
    && (forall k, m | 0 <= k < m < |out.induced| :: out.induced[k].0 < out.induced[m].0)
    && (forall r, v :: (r, v) in out.induced <==>
          r in ks[..i] && r in best && v == Capped(best[r].pressure, policy) && v != CLEAR)
    && |out.edges| == (if |out.induced| < maxEdges then |out.induced| else maxEdges)
    && (out.truncated <==> |out.induced| > maxEdges)
    && forall k | 0 <= k < |out.edges| :: out.induced[k].0 in best
         && out.edges[k] == EdgeTo(out.induced[k].0, best[out.induced[k].0], policy)
  }

  function ReportOne(best: map<Id, Target>, policy: PropagationPolicy, maxEdges: nat, r: Id,
                     out: PropagationResult): PropagationResult
    requires r in best
  {
    var v := Capped(best[r].pressure, policy);
    if v == CLEAR then out
    else if |out.edges| >= maxEdges then out.(induced := out.induced + [(r, v)], truncated := true)
    else out.(induced := out.induced + [(r, v)], edges := out.edges + [EdgeTo(r, best[r], policy)])
  }

  lemma {:induction false} ReportNext(best: map<Id, Target>, policy: PropagationPolicy, maxEdges: nat, ks: seq<Id>,
                                      i: nat, out: PropagationResult)
    requires i < |ks| && Increasing(ks) && ks[i] in best && ReportedUpTo(best, policy, maxEdges, ks, i, out)
    ensures ReportedUpTo(best, policy, maxEdges, ks, i + 1, ReportOne(best, policy, maxEdges, ks[i], out))
  {
    hide Capped, EdgeTo;
    assert ks[..i + 1] == ks[..i] + [ks[i]];
    assert forall x | x in ks[..i] :: x < ks[i];
  }

  method Report(best: map<Id, Target>, policy: PropagationPolicy, maxEdges: nat) returns (out: PropagationResult)
    ensures Reported(best, policy, maxEdges, out)
  {
    hide Capped, EdgeTo, ReportedUpTo, ReportOne;
    var ks := Keys(best);
    out := PropagationResult([], [], false);
    assert ReportedUpTo(best, policy, maxEdges, ks, 0, out) by {
      NothingReported(best, policy, maxEdges, ks);
    }
    for i := 0 to |ks|
      invariant ReportedUpTo(best, policy, maxEdges, ks, i, out)
    {
      assert ks[i] in ks;
      ReportNext(best, policy, maxEdges, ks, i, out);
      out := ReportOne(best, policy, maxEdges, ks[i], out);
    }
    AllReported(best, policy, maxEdges, ks, out);
  }

  lemma {:induction false} NothingReported(best: map<Id, Target>, policy: PropagationPolicy, maxEdges: nat, ks: seq<Id>)
    ensures ReportedUpTo(best, policy, maxEdges, ks, 0, PropagationResult([], [], false))
  {
  }

  lemma {:induction false} AllReported(best: map<Id, Target>, policy: PropagationPolicy, maxEdges: nat, ks: seq<Id>,
                                       out: PropagationResult)
    requires Lists(ks, best.Keys) && ReportedUpTo(best, policy, maxEdges, ks, |ks|, out)
    ensures Reported(best, policy, maxEdges, out)
  {
    hide Capped, EdgeTo;
    assert ks[..|ks|] == ks;
  }

  /** `p` is the largest pressure any source puts on `r`. */
  ghost predicate MaxPressure(g: Graph, policy: PropagationPolicy, sources: seq<Source>, r: Id, p: nat) {
    && (exists s, d: nat :: s in sources && Offers(g, policy, s, r, d) && p == Pressure(s.severity, policy.decayPpm, d))
    && (forall s, d: nat | s in sources && Offers(g, policy, s, r, d) :: Pressure(s.severity, policy.decayPpm, d) <= p)
  }

  /** `PropagationEngine::propagate`: the severities induced are exactly the capped
      maximum pressures of the sources, one kept for each resource, and every edge is the last
      step of a real shortest walk. */
  method Propagate(t: TopologyIndex, sources: seq<Source>, policy: PropagationPolicy, maxEdges: nat)
    returns (r: Option<PropagationResult>)
    requires t.Indexed() && policy.decayPpm <= FULL
    ensures r.None? <==>
              policy.enabled && policy.maxDepth != 0 && sources != [] && (maxEdges == 0 || maxEdges > MAX_EDGES)
    ensures r.Some? && (!policy.enabled || policy.maxDepth == 0 || sources == []) ==> r.value == PropagationResult([], [], false)
    ensures r.Some? && policy.enabled && policy.maxDepth != 0 && sources != [] ==>
              exists kept, best ::
                && KeepsOne(sources, kept) && Settled(GraphOf(t.snapshot, policy), policy, kept, best)
                && Reported(best, policy, maxEdges, r.value)
    ensures r.Some? && policy.enabled && policy.maxDepth != 0 && sources != [] && DistinctResources(sources) ==>
              exists best :: Settled(GraphOf(t.snapshot, policy), policy, sources, best) && Reported(best, policy,
                  maxEdges, r.value)
  {
    hide Settled, GraphOf, Reported, KeepsOne, DistinctResources;
    if !policy.enabled || policy.maxDepth == 0 || sources == [] {
      return Some(PropagationResult([], [], false));
    }
    if maxEdges == 0 || maxEdges > MAX_EDGES {
      return None;
    }
    ghost var g := GraphOf(t.snapshot, policy);
    var ordered := OrderSources(sources);
    var best: map<Id, Target> := map[];
    SettledEmpty(g, policy);
    for i := 0 to |ordered|
      invariant Settled(g, policy, ordered[..i], best)
    {
      best := SpreadFrom(t, policy, ordered[..i], ordered[i], best);
      assert ordered[..i + 1] == ordered[..i] + [ordered[i]];
    }
    assert ordered[..|ordered|] == ordered;
    if DistinctResources(sources) {
      AllKept(sources, ordered);
      SettledSame(g, policy, ordered, sources, best);
    }
    var out := Report(best, policy, maxEdges);
    r := Some(out);
  }

  lemma {:induction false} AllKept(sources: seq<Source>, ordered: seq<Source>)
    requires KeepsOne(sources, ordered) && DistinctResources(sources)
    ensures forall s :: s in ordered <==> s in sources
  {
    forall s | s in sources
      ensures s in ordered
    {
      assert HasSource(ordered, s.resource);
      var i :| 0 <= i < |ordered| && ordered[i].resource == s.resource;
      assert ordered[i] in sources;
    }
  }

  lemma {:induction false} SettledEmpty(g: Graph, policy: PropagationPolicy)
    ensures Settled(g, policy, [], map[])
  {
  }

  lemma {:induction false} SettledSame(g: Graph, policy: PropagationPolicy, a: seq<Source>, b: seq<Source>,
                                       best: map<Id, Target>)
    requires Settled(g, policy, a, best) && forall s :: s in a <==> s in b
    ensures Settled(g, policy, b, best)
  {
    hide Offers;
  }

  /** The edge is the last step of a shortest walk from one of the sources. */
  ghost predicate RealEdge(g: Graph, sources: seq<Source>, e: Edge) {
    exists s, w: seq<Id> :: s in sources && Walk(g, w) && w[0] == s.resource && w[|w| - 1] == e.from
      && |w| <= e.hops && (e.to, e.via) in Neighbours(g, e.from) && AtDistance(g, s.resource, e.hops, e.to)
  }

  /** The severities induced are exactly the capped maximum pressures above Clear. */
  lemma {:induction false} InducedIsClosedForm(g: Graph, policy: PropagationPolicy, sources: seq<Source>,
                                               best: map<Id, Target>,
                            maxEdges: nat, out: PropagationResult, r: Id, v: Severity)
    requires Settled(g, policy, sources, best) && Reported(best, policy, maxEdges, out)
    ensures (r, v) in out.induced <==>
              v != CLEAR && exists p: nat :: MaxPressure(g, policy, sources, r, p) && v == Capped(p, policy)
  {
    hide Offers, Pressure, Settled, Capped;
    SettledIsMaximum(g, policy, sources, best, r);
    if r in best {
      assert MaxPressure(g, policy, sources, r, best[r].pressure);
    }
  }

  /** Every reported edge carries the maximum pressure over the end of a real walk. */
  lemma {:induction false} EdgesAreReal(g: Graph, policy: PropagationPolicy, sources: seq<Source>, best: map<Id, Target>,
                     maxEdges: nat, out: PropagationResult, i: nat)
    requires Settled(g, policy, sources, best) && Reported(best, policy, maxEdges, out) && i < |out.edges|
    ensures MaxPressure(g, policy, sources, out.edges[i].to, out.edges[i].pressure)
    ensures (out.edges[i].to, out.edges[i].induced) in out.induced && RealEdge(g, sources, out.edges[i])
  {
    hide Offers, Neighbours, AtDistance, Within, Walk, Pressure, Capped;
    var r := out.induced[i].0;
    assert out.induced[i] in out.induced;
    SettledIsMaximum(g, policy, sources, best, r);
    var s :| s in sources && Witnessed(g, policy, s, r, best[r]);
    var w := WitnessWalk(g, policy, s, r, best[r]);
  }

  lemma {:induction false} WitnessWalk(g: Graph, policy: PropagationPolicy, s: Source, r: Id,
                                       t: Target) returns (w: seq<Id>)
    requires Witnessed(g, policy, s, r, t)
    ensures Walk(g, w) && w[0] == s.resource && w[|w| - 1] == t.from && |w| <= t.hops
    ensures AtDistance(g, s.resource, t.hops, r) && (r, t.via) in Neighbours(g, t.from)
  {
    w := WalkTo(g, s.resource, t.hops - 1, t.from);
  }

  lemma {:induction false} SeverityRoundTrip(s: Severity, p: nat)
    requires p <= SeverityPressure(s)
    ensures PressureSeverity(p) <= s
  {
  }

  /** No edge induces more than some source's own severity, nor more than the policy's cap. */
  lemma {:induction false} InducedBelowSource(g: Graph, policy: PropagationPolicy, sources: seq<Source>,
                                              best: map<Id, Target>,
                           maxEdges: nat, out: PropagationResult, i: nat)
    requires Settled(g, policy, sources, best) && Reported(best, policy, maxEdges, out) && i < |out.edges|
    requires policy.decayPpm <= FULL
    ensures out.edges[i].induced <= policy.maxInduced
    ensures exists s :: s in sources && out.edges[i].induced <= s.severity
  {
    hide Offers, Pressure, Settled, PressureSeverity;
    var r := out.induced[i].0;
    assert out.induced[i] in out.induced;
    SettledIsMaximum(g, policy, sources, best, r);
    var s, d: nat :| s in sources && Offers(g, policy, s, r, d) && best[r].pressure == Pressure(s.severity,
        policy.decayPpm, d);
    PressureShrinks(s.severity, policy.decayPpm, 0, d);
    StartPressure(s.severity, policy.decayPpm);
    SeverityRoundTrip(s.severity, best[r].pressure);
  }

  lemma {:induction false} StartPressure(s: Severity, ppm: nat)
    ensures Pressure(s, ppm, 0) == SeverityPressure(s)
  {
  }
}
