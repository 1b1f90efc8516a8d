/**
 * The bounded breadth-first search over the union of the allowed relations,
 * and the attribute filter applied to what it reaches (`_bfs_find`).
 *
 * The specification is by level sets: `Level(1)` holds the direct neighbours
 * of the subject, `Level(k + 1)` adds the neighbours of `Level(k)`, and the
 * depth of a person is the least level that holds it, up to the bound.  The
 * subject itself is not excluded: when a cycle leads back to it, it is found
 * like anyone else.
 */
module Traversal {
  import opened Loader

  /** `_graph[r].get(p, [])`: the destinations of `p` along relation `r`. */
  function Out(g: Table, r: string, p: string): set<string> {
    if r in g && p in g[r] then g[r][p] else {}
  }

  /** The graph together with the relations the search may follow. */
  datatype Scope = Scope(graph: Table, allowed: seq<string>)

  /** One hop from `p` along any allowed relation. */
  function Neighbours(sc: Scope, p: string): set<string> {
    set r, v | r in sc.allowed && v in Out(sc.graph, r, p) :: v
  }

  /** One hop from any member of `s`. */
  function Image(sc: Scope, s: set<string>): set<string> {
    set p, v | p in s && v in Neighbours(sc, p) :: v
  }

  /** Everyone at most `k` hops from the subject (and at least one). */
  function Level(sc: Scope, subject: string, k: nat): set<string>
    requires k >= 1
  {
    if k == 1 then Neighbours(sc, subject)
    else Level(sc, subject, k - 1) + Image(sc, Level(sc, subject, k - 1))
  }

  lemma {:induction false} LevelMono(sc: Scope, subject: string, k: nat, m: nat)
    requires 1 <= k <= m
    ensures Level(sc, subject, k) <= Level(sc, subject, m)
  {
    if k < m {
      LevelMono(sc, subject, k, m - 1);
    }
  }

  /** A neighbour of someone within `k` hops is within `k + 1` hops. */
  lemma LevelStep(sc: Scope, subject: string, k: nat, p: string, v: string)
    requires k >= 1 && p in Level(sc, subject, k) && v in Neighbours(sc, p)
    ensures v in Level(sc, subject, k + 1)
  {
    assert v in Image(sc, Level(sc, subject, k));
  }

  /** The least level, at most `j`, that holds `p`. */
  function LeastLevel(sc: Scope, subject: string, p: string, j: nat): (r: nat)
    requires j >= 1 && p in Level(sc, subject, j)
    ensures 1 <= r <= j && p in Level(sc, subject, r)
    ensures forall k :: 1 <= k < r ==> p !in Level(sc, subject, k)
  {
    if j == 1 then 1
    else if p in Level(sc, subject, j - 1) then LeastLevel(sc, subject, p, j - 1)
    else
      NotInLower(sc, subject, p, j - 1);
      j
  }

  /** Someone outside a level is outside every lower level. */
  lemma NotInLower(sc: Scope, subject: string, p: string, j: nat)
    requires j >= 1 && p !in Level(sc, subject, j)
    ensures forall k :: 1 <= k <= j ==> p !in Level(sc, subject, k)
  {
    forall k | 1 <= k <= j
      ensures p !in Level(sc, subject, k)
    {
      LevelMono(sc, subject, k, j);
    }
  }

  /** The intended result of the search: each person within `bound` hops, with its least hop count. */
  function Reach(sc: Scope, subject: string, bound: nat): map<string, nat>
    requires bound >= 1
  {
    map p | p in Level(sc, subject, bound) :: LeastLevel(sc, subject, p, bound)
  }

  /**
   * The depth bound the search honours: seeds are recorded at depth 1 even
   * when `max_depth` is below 1, and nothing is expanded beyond `max_depth`.
   */
  function Bound(maxDepth: int): (e: nat)
    ensures e >= 1 && (maxDepth >= 1 ==> e == maxDepth)
  {
    if maxDepth < 1 then 1 else maxDepth
  }

  /** Everyone some edge of the graph leads to. */
  function Nodes(g: Table): set<string> {
    set r, x, v | r in g && x in g[r] && v in g[r][x] :: v
  }

  lemma NeighboursInNodes(sc: Scope, p: string)
    ensures Neighbours(sc, p) <= Nodes(sc.graph)
  {
    forall v | v in Neighbours(sc, p)
      ensures v in Nodes(sc.graph)
    {
      var r :| r in sc.allowed && v in Out(sc.graph, r, p);
      assert Holds(sc.graph, r, p, v);
    }
  }

  // ---------------------------------------------------------------------------
  // The search

  type Entry = (string, nat)

  /** `v` is already recorded at depth `d` or less. */
  predicate Settled(seen: map<string, nat>, v: string, d: nat) {
    v in seen && seen[v] <= d
  }

  /** The queue seeded with every direct neighbour at depth 1. */
  method Seed(sc: Scope, subject: string) returns (q: seq<Entry>)
    ensures forall e :: e in q <==> e.1 == 1 && e.0 in Neighbours(sc, subject)
  {
    q := [];
    var i := 0;
    while i < |sc.allowed|
      invariant 0 <= i <= |sc.allowed|
      invariant forall e :: e in q <==> e.1 == 1 && exists r :: r in sc.allowed[..i] && e.0 in Out(sc.graph, r, subject)
    {
      var rel := sc.allowed[i];
      var dests := Out(sc.graph, rel, subject);
      ghost var q0 := q;
      while dests != {}
        invariant dests <= Out(sc.graph, rel, subject)
        invariant forall e :: e in q <==> e in q0 || (e.1 == 1 && e.0 in Out(sc.graph, rel, subject) - dests)
        decreases |dests|
      {
        var dest :| dest in dests;
        q := q + [(dest, 1)];
        dests := dests - {dest};
      }
      assert sc.allowed[..i + 1] == sc.allowed[..i] + [rel];
      i := i + 1;
    }
    assert sc.allowed[..i] == sc.allowed;
  }

  /** The entries pushed when `person`, just recorded at `depth`, is expanded. */
  method Expand(sc: Scope, seen: map<string, nat>, person: string, depth: nat) returns (pushed: seq<Entry>)
    ensures forall e :: e in pushed <==>
      e.1 == depth + 1 && e.0 in Neighbours(sc, person) && !Settled(seen, e.0, depth + 1)
  {
    pushed := [];
    var i := 0;
    while i < |sc.allowed|
      invariant 0 <= i <= |sc.allowed|
      invariant forall e :: e in pushed <==>
        (e.1 == depth + 1 && !Settled(seen, e.0, depth + 1) &&
         exists r :: r in sc.allowed[..i] && e.0 in Out(sc.graph, r, person))
    {
      var rel := sc.allowed[i];
      var nexts := Out(sc.graph, rel, person);
      ghost var p0 := pushed;
      while nexts != {}
        invariant nexts <= Out(sc.graph, rel, person)
        invariant forall e :: e in pushed <==>
          (e in p0 || (e.1 == depth + 1 && !Settled(seen, e.0, depth + 1) && e.0 in Out(sc.graph, rel, person) - nexts))
        decreases |nexts|
      {
        var next :| next in nexts;
        if next !in seen || seen[next] > depth + 1 {
          pushed := pushed + [(next, depth + 1)];
        }
        nexts := nexts - {next};
      }
      assert sc.allowed[..i + 1] == sc.allowed[..i] + [rel];
      i := i + 1;
    }
    assert sc.allowed[..i] == sc.allowed;
  }

  // ---------------------------------------------------------------------------
  // Invariants of the main loop

  /** Every queued entry is within the bound and really that many hops away (or fewer). */
  predicate QueueSound(sc: Scope, subject: string, bound: nat, q: seq<Entry>) {
    forall j :: 0 <= j < |q| ==> 1 <= q[j].1 <= bound && q[j].0 in Level(sc, subject, q[j].1)
  }

  /** Every recorded depth is within the bound and really that many hops away (or fewer). */
  predicate SeenSound(sc: Scope, subject: string, bound: nat, seen: map<string, nat>) {
    forall p :: p in seen ==> 1 <= seen[p] <= bound && p in Level(sc, subject, seen[p])
  }

  /**
   * The queue is a breadth-first frontier: depths never decrease along it,
   * span at most two consecutive values, and no recorded depth exceeds them.
   */
  predicate Ordered(q: seq<Entry>, seen: map<string, nat>) {
    && (forall i, j :: 0 <= i < j < |q| ==> q[i].1 <= q[j].1)
    && (forall j :: 0 <= j < |q| ==> q[j].1 <= q[0].1 + 1)
    && (forall p, j :: p in seen && 0 <= j < |q| ==> seen[p] <= q[j].1)
  }

  /** `v` is recorded at depth at most `d`, or waits in the queue at depth `d`. */
  predicate Covered(seen: map<string, nat>, q: seq<Entry>, v: string, d: nat) {
    Settled(seen, v, d) || (v, d) in q
  }

  /** Nothing is lost: the seeds, and the neighbours of every person recorded below the bound, are covered. */
  predicate Closed(sc: Scope, subject: string, bound: nat, seen: map<string, nat>, q: seq<Entry>) {
    && (forall v :: v in Neighbours(sc, subject) ==> Covered(seen, q, v, 1))
    && (forall u, v :: u in seen && seen[u] < bound && v in Neighbours(sc, u) ==> Covered(seen, q, v, seen[u] + 1))
  }

  /** Everything the main loop keeps. */
  predicate Invariant(sc: Scope, subject: string, bound: nat, nodes: set<string>, seen: map<string, nat>, q: seq<Entry>) {
    && (forall j :: 0 <= j < |q| ==> q[j].0 in nodes)
    && seen.Keys <= nodes
    && QueueSound(sc, subject, bound, q) && SeenSound(sc, subject, bound, seen)
    && Ordered(q, seen)
    && Closed(sc, subject, bound, seen, q)
  }

  /** The main loop of `_bfs_find`: the recorded depths are exactly the least hop counts within the bound. */
  method Traverse(sc: Scope, subject: string, maxDepth: int) returns (seen: map<string, nat>)
    ensures seen == Reach(sc, subject, Bound(maxDepth))
  {
    ghost var bound := Bound(maxDepth);
    ghost var nodes := Nodes(sc.graph);
    var q := Seed(sc, subject);
    seen := map[];
    SeedInvariant(sc, subject, bound, q);
    while |q| > 0
      invariant Invariant(sc, subject, bound, nodes, seen, q)
      decreases nodes - seen.Keys, |q|
    {
      var person, depth := q[0].0, q[0].1;
      assert person in nodes;
      if person in seen && seen[person] <= depth {
        SkipStep(sc, subject, bound, nodes, seen, q);
        q := q[1..];
        continue;
      }
      ghost var seen0 := seen;
      seen := seen[person := depth];
      var pushed := [];
      if depth < maxDepth {
        pushed := Expand(sc, seen, person, depth);
        NeighboursInNodes(sc, person);
      }
      RecordStep(sc, subject, maxDepth, nodes, seen0, q, pushed);
      assert person in nodes - seen0.Keys && seen.Keys == seen0.Keys + {person};
      q := q[1..] + pushed;
    }
    ClosedIsReach(sc, subject, bound, seen);
  }

  /** The seeded queue, with nothing recorded yet. */
  lemma SeedInvariant(sc: Scope, subject: string, bound: nat, q: seq<Entry>)
    requires bound >= 1
    requires forall e :: e in q <==> e.1 == 1 && e.0 in Neighbours(sc, subject)
    ensures Invariant(sc, subject, bound, Nodes(sc.graph), map[], q)
  {
    NeighboursInNodes(sc, subject);
    assert forall j :: 0 <= j < |q| ==> q[j] in q;
  }

  /** Dropping an entry whose person is already recorded at that depth or less keeps the invariant. */
  lemma SkipStep(sc: Scope, subject: string, bound: nat, nodes: set<string>, seen: map<string, nat>, q: seq<Entry>)
    requires |q| > 0 && Settled(seen, q[0].0, q[0].1)
    requires Invariant(sc, subject, bound, nodes, seen, q)
    ensures Invariant(sc, subject, bound, nodes, seen, q[1..])
  {
    var q' := q[1..];
    assert forall j :: 0 <= j < |q'| ==> q'[j] == q[j + 1];
    forall v: string, d: nat | Covered(seen, q, v, d)
      ensures Covered(seen, q', v, d)
    {
      if (v, d) in q && !Settled(seen, v, d) {
        var j :| 0 <= j < |q| && q[j] == (v, d);
        assert j > 0;
        assert q'[j - 1] == (v, d);
      }
    }
  }

  /**
   * Recording the head of the queue and appending what its expansion pushes
   * keeps the invariant; the person was not recorded before.
   */
  lemma RecordStep(sc: Scope, subject: string, maxDepth: int, nodes: set<string>,
                   seen: map<string, nat>, q: seq<Entry>, pushed: seq<Entry>)
    requires |q| > 0 && !Settled(seen, q[0].0, q[0].1)
    requires Invariant(sc, subject, Bound(maxDepth), nodes, seen, q)
    requires Neighbours(sc, q[0].0) <= nodes
    requires forall e :: e in pushed <==>
      (q[0].1 < maxDepth && e.1 == q[0].1 + 1 && e.0 in Neighbours(sc, q[0].0) &&
       !Settled(seen[q[0].0 := q[0].1], e.0, q[0].1 + 1))
    ensures q[0].0 !in seen
    ensures Invariant(sc, subject, Bound(maxDepth), nodes, seen[q[0].0 := q[0].1], q[1..] + pushed)
  {
    var bound := Bound(maxDepth);
    var (p, d) := q[0];
    var seen' := seen[p := d];
    var q' := q[1..] + pushed;
    assert forall j :: 0 <= j < |q| - 1 ==> q'[j] == q[j + 1];
    assert forall j :: |q| - 1 <= j < |q'| ==> q'[j] in pushed;
    RecordSound(sc, subject, maxDepth, seen, q, pushed);
    RecordOrdered(seen, q, pushed);
    RecordClosed(sc, subject, maxDepth, seen, q, pushed);
  }

  lemma RecordSound(sc: Scope, subject: string, maxDepth: int,
                    seen: map<string, nat>, q: seq<Entry>, pushed: seq<Entry>)
    requires |q| > 0
    requires QueueSound(sc, subject, Bound(maxDepth), q) && SeenSound(sc, subject, Bound(maxDepth), seen)
    requires forall e :: e in pushed ==> (q[0].1 < maxDepth && e.1 == q[0].1 + 1 && e.0 in Neighbours(sc, q[0].0))
    ensures QueueSound(sc, subject, Bound(maxDepth), q[1..] + pushed)
    ensures SeenSound(sc, subject, Bound(maxDepth), seen[q[0].0 := q[0].1])
  {
    var q' := q[1..] + pushed;
    forall j | 0 <= j < |q'|
      ensures 1 <= q'[j].1 <= Bound(maxDepth) && q'[j].0 in Level(sc, subject, q'[j].1)
    {
      if j < |q| - 1 {
        assert q'[j] == q[j + 1];
      } else {
        assert q'[j] in pushed;
        LevelStep(sc, subject, q[0].1, q[0].0, q'[j].0);
      }
    }
  }

  lemma RecordOrdered(seen: map<string, nat>, q: seq<Entry>, pushed: seq<Entry>)
    requires |q| > 0 && Ordered(q, seen)
    requires forall e :: e in pushed ==> e.1 == q[0].1 + 1
    ensures Ordered(q[1..] + pushed, seen[q[0].0 := q[0].1])
  {
    var q' := q[1..] + pushed;
    var d := q[0].1;
    forall j | 0 <= j < |q'|
      ensures d <= q'[j].1 <= d + 1 && (j >= |q| - 1 ==> q'[j].1 == d + 1)
    {
      if j < |q| - 1 {
        assert q'[j] == q[j + 1];
      } else {
        assert q'[j] in pushed;
      }
    }
    forall i, j | 0 <= i < j < |q'|
      ensures q'[i].1 <= q'[j].1
    {
      if j < |q| - 1 {
        assert q'[i] == q[i + 1] && q'[j] == q[j + 1];
      }
    }
    var seen' := seen[q[0].0 := q[0].1];
    forall p | p in seen'
      ensures seen'[p] <= d
    {
      if p != q[0].0 {
        assert seen[p] <= q[0].1;
      }
    }
  }

  lemma RecordClosed(sc: Scope, subject: string, maxDepth: int,
                     seen: map<string, nat>, q: seq<Entry>, pushed: seq<Entry>)
    requires |q| > 0 && q[0].0 !in seen && Closed(sc, subject, Bound(maxDepth), seen, q)
    requires SeenSound(sc, subject, Bound(maxDepth), seen) && QueueSound(sc, subject, Bound(maxDepth), q)
    requires forall e :: e in pushed <==>
      (q[0].1 < maxDepth && e.1 == q[0].1 + 1 && e.0 in Neighbours(sc, q[0].0) &&
       !Settled(seen[q[0].0 := q[0].1], e.0, q[0].1 + 1))
    ensures Closed(sc, subject, Bound(maxDepth), seen[q[0].0 := q[0].1], q[1..] + pushed)
  {
    CoveredKept(seen, q, pushed);
    assert 1 <= q[0].1 <= Bound(maxDepth);
    PushedCovered(sc, maxDepth, seen, q, pushed);
  }

  /** Whatever was covered stays covered once the head is recorded and the pushed entries appended. */
  lemma CoveredKept(seen: map<string, nat>, q: seq<Entry>, pushed: seq<Entry>)
    requires |q| > 0 && q[0].0 !in seen
    ensures forall v: string, e: nat :: Covered(seen, q, v, e) ==> Covered(seen[q[0].0 := q[0].1], q[1..] + pushed, v, e)
  {
    var seen' := seen[q[0].0 := q[0].1];
    var q' := q[1..] + pushed;
    forall v: string, e: nat | Covered(seen, q, v, e)
      ensures Covered(seen', q', v, e)
    {
      if !Settled(seen', v, e) {
        var j :| 0 <= j < |q| && q[j] == (v, e);
        assert j > 0;
        assert q'[j - 1] == (v, e);
      }
    }
  }

  /** The neighbours of the head, recorded below the bound, are covered one level further. */
  lemma PushedCovered(sc: Scope, maxDepth: int, seen: map<string, nat>, q: seq<Entry>, pushed: seq<Entry>)
    requires |q| > 0 && 1 <= q[0].1 <= Bound(maxDepth)
    requires forall e :: e in pushed <==>
      (q[0].1 < maxDepth && e.1 == q[0].1 + 1 && e.0 in Neighbours(sc, q[0].0) &&
       !Settled(seen[q[0].0 := q[0].1], e.0, q[0].1 + 1))
    ensures forall v :: v in Neighbours(sc, q[0].0) && q[0].1 < Bound(maxDepth) ==>
      Covered(seen[q[0].0 := q[0].1], q[1..] + pushed, v, q[0].1 + 1)
  {
    var (p, d) := q[0];
    var seen' := seen[p := d];
    var q' := q[1..] + pushed;
    forall v | v in Neighbours(sc, p) && d < Bound(maxDepth)
      ensures Covered(seen', q', v, d + 1)
    {
      if !Settled(seen', v, d + 1) {
        assert (v, d + 1) in pushed;
        var j :| 0 <= j < |pushed| && pushed[j] == (v, d + 1);
        assert q'[|q| - 1 + j] == (v, d + 1);
      }
    }
  }

  lemma {:induction false} LevelSettled(sc: Scope, subject: string, bound: nat, seen: map<string, nat>, k: nat, p: string)
    requires 1 <= k <= bound && Closed(sc, subject, bound, seen, []) && p in Level(sc, subject, k)
    ensures Settled(seen, p, k)
  {
    if k > 1 {
      if p in Level(sc, subject, k - 1) {
        LevelSettled(sc, subject, bound, seen, k - 1, p);
      } else {
        var u :| u in Level(sc, subject, k - 1) && p in Neighbours(sc, u);
        LevelSettled(sc, subject, bound, seen, k - 1, u);
      }
    }
  }

  /** When the queue is empty, a sound and closed record is the intended result. */
  lemma ClosedIsReach(sc: Scope, subject: string, bound: nat, seen: map<string, nat>)
    requires bound >= 1 && SeenSound(sc, subject, bound, seen) && Closed(sc, subject, bound, seen, [])
    ensures seen == Reach(sc, subject, bound)
  {
    var reach := Reach(sc, subject, bound);
    forall p | p in seen
      ensures p in reach && reach[p] == seen[p]
    {
      LevelMono(sc, subject, seen[p], bound);
      LevelSettled(sc, subject, bound, seen, reach[p], p);
    }
    forall p | p in reach
      ensures p in seen
    {
      LevelSettled(sc, subject, bound, seen, bound, p);
    }
  }

  // ---------------------------------------------------------------------------
  // The attribute filter and the whole search

  /** `[r for r in allowed_relations if r in _graph]`, order kept. */
  function KnownRelations(g: Table, rels: seq<string>): (allowed: seq<string>)
    ensures |allowed| <= |rels|
    ensures forall r :: r in allowed <==> r in rels && r in g
  {
    if |rels| == 0 then []
    else if rels[0] in g then [rels[0]] + KnownRelations(g, rels[1..])
    else KnownRelations(g, rels[1..])
  }

  /** The second half of `_bfs_find`: keep the recorded persons holding the requested value. */
  method FilterByAttribute(seen: map<string, nat>, attributes: Table, attrType: string, attrValue: string)
    returns (results: map<string, nat>)
    ensures forall p :: p in results <==> p in seen && Holds(attributes, attrType, p, attrValue)
    ensures forall p :: p in results ==> results[p] == seen[p]
  {
    results := map[];
    var attrMap := if attrType in attributes then attributes[attrType] else map[];
    var todo := seen.Keys;
    while todo != {}
      invariant todo <= seen.Keys
      invariant forall p :: p in results <==> p in seen && p !in todo && Holds(attributes, attrType, p, attrValue)
      invariant forall p :: p in results ==> results[p] == seen[p]
      decreases |todo|
    {
      var person :| person in todo;
      var vals := if person in attrMap then attrMap[person] else {};
      if attrValue in vals {
        results := results[person := seen[person]];
      }
      todo := todo - {person};
    }
  }

  /** What the search reaches: the least hop counts within the bound, over the known allowed relations. */
  function Search(g: Table, subject: string, rels: seq<string>, maxDepth: int): map<string, nat> {
    Reach(Scope(g, KnownRelations(g, rels)), subject, Bound(maxDepth))
  }

  /** `_bfs_find` over the store. */
  method BfsFind(st: Store, subject: string, allowedRelations: seq<string>, attrType: string, attrValue: string, maxDepth: int)
    returns (results: map<string, nat>)
    ensures forall p :: p in results <==>
      p in Search(st.graph, subject, allowedRelations, maxDepth) && Holds(st.attributes, attrType, p, attrValue)
    ensures forall p :: p in results ==> results[p] == Search(st.graph, subject, allowedRelations, maxDepth)[p]
  {
    var allowed := KnownRelations(st.graph, allowedRelations);
    if |allowed| == 0 {
      NoSeedsNoReach(Scope(st.graph, allowed), subject, Bound(maxDepth));
      return map[];
    }
    var seen := Traverse(Scope(st.graph, allowed), subject, maxDepth);
    results := FilterByAttribute(seen, st.attributes, attrType, attrValue);
  }

  // ---------------------------------------------------------------------------
  // Properties of the result

  lemma {:induction false} NoSeedsNoLevel(sc: Scope, subject: string, k: nat)
    requires k >= 1 && Neighbours(sc, subject) == {}
    ensures Level(sc, subject, k) == {}
  {
    if k > 1 {
      NoSeedsNoLevel(sc, subject, k - 1);
    }
  }

  /** A subject with no outgoing edge along any allowed relation reaches no one. */
  lemma NoSeedsNoReach(sc: Scope, subject: string, bound: nat)
    requires bound >= 1 && forall r :: r in sc.allowed ==> Out(sc.graph, r, subject) == {}
    ensures Reach(sc, subject, bound) == map[]
  {
    assert Neighbours(sc, subject) == {};
    NoSeedsNoLevel(sc, subject, bound);
  }

  /** When no requested relation is a known one, nothing is found. */
  lemma UnknownRelationsFindNothing(g: Table, subject: string, rels: seq<string>, maxDepth: int)
    requires forall r :: r in rels ==> r !in g
    ensures Search(g, subject, rels, maxDepth) == map[]
  {
    NoSeedsNoReach(Scope(g, KnownRelations(g, rels)), subject, Bound(maxDepth));
  }

  /** When the subject has no outgoing edge along any requested relation, nothing is found. */
  lemma IsolatedSubjectFindsNothing(g: Table, subject: string, rels: seq<string>, maxDepth: int)
    requires forall r :: r in rels ==> Out(g, r, subject) == {}
    ensures Search(g, subject, rels, maxDepth) == map[]
  {
    NoSeedsNoReach(Scope(g, KnownRelations(g, rels)), subject, Bound(maxDepth));
  }

  /** Every depth found lies between 1 and `max_depth`. */
  lemma SearchDepthBounds(g: Table, subject: string, rels: seq<string>, maxDepth: int, p: string)
    requires maxDepth >= 1 && p in Search(g, subject, rels, maxDepth)
    ensures 1 <= Search(g, subject, rels, maxDepth)[p] <= maxDepth
  {
  }

  /** A walk from the subject: each person one allowed hop from the one before. */
  predicate IsWalk(sc: Scope, subject: string, w: seq<string>) {
    && |w| >= 1
    && w[0] in Neighbours(sc, subject)
    && forall i :: 0 <= i < |w| - 1 ==> w[i + 1] in Neighbours(sc, w[i])
  }

  /** Every walk of at most `k` hops ends in `Level(k)`. */
  lemma {:induction false} WalkInLevel(sc: Scope, subject: string, w: seq<string>, k: nat)
    requires IsWalk(sc, subject, w) && |w| <= k
    ensures w[|w| - 1] in Level(sc, subject, k)
  {
    if |w| == 1 {
      LevelMono(sc, subject, 1, k);
    } else {
      var w' := w[..|w| - 1];
      assert IsWalk(sc, subject, w');
      WalkInLevel(sc, subject, w', k - 1);
      LevelStep(sc, subject, k - 1, w'[|w'| - 1], w[|w| - 1]);
    }
  }

  /** Everyone in `Level(k)` is the end of a walk of at most `k` hops. */
  lemma {:induction false} WalkTo(sc: Scope, subject: string, k: nat, p: string) returns (w: seq<string>)
    requires k >= 1 && p in Level(sc, subject, k)
    ensures IsWalk(sc, subject, w) && |w| <= k && w[|w| - 1] == p
  {
    if k == 1 {
      w := [p];
    } else if p in Level(sc, subject, k - 1) {
      w := WalkTo(sc, subject, k - 1, p);
    } else {
      var u :| u in Level(sc, subject, k - 1) && p in Neighbours(sc, u);
      var w' := WalkTo(sc, subject, k - 1, u);
      w := w' + [p];
      assert forall i :: 0 <= i < |w'| ==> w[i] == w'[i];
    }
  }

  /**
   * The depth recorded for a person is its hop count from the subject: there
   * is a walk of exactly that many hops, none shorter, and everyone with a
   * walk of at most `bound` hops is recorded.
   */
  lemma ReachIsShortestWalk(sc: Scope, subject: string, bound: nat, p: string)
    requires bound >= 1
    ensures p in Reach(sc, subject, bound) <==>
      exists w :: IsWalk(sc, subject, w) && |w| <= bound && w[|w| - 1] == p
    ensures p in Reach(sc, subject, bound) ==>
      && (exists w :: IsWalk(sc, subject, w) && |w| == Reach(sc, subject, bound)[p] && w[|w| - 1] == p)
      && (forall w :: IsWalk(sc, subject, w) && w[|w| - 1] == p ==> |w| >= Reach(sc, subject, bound)[p])
  {
    var reach := Reach(sc, subject, bound);
    if p in reach {
      var d := reach[p];
      var w := WalkTo(sc, subject, d, p);
      if |w| < d {
        WalkInLevel(sc, subject, w, |w|);
      }
      assert IsWalk(sc, subject, w) && |w| <= bound && w[|w| - 1] == p;
      forall w' | IsWalk(sc, subject, w') && w'[|w'| - 1] == p
        ensures |w'| >= d
      {
        if |w'| < d {
          WalkInLevel(sc, subject, w', |w'|);
        }
      }
    }
    if exists w :: IsWalk(sc, subject, w) && |w| <= bound && w[|w| - 1] == p {
      var w :| IsWalk(sc, subject, w) && |w| <= bound && w[|w| - 1] == p;
      WalkInLevel(sc, subject, w, bound);
    }
  }

  /** The subject is not excluded: a two-way edge leads back to it within two hops. */
  lemma SubjectOnCycle(sc: Scope, subject: string, u: string, bound: nat)
    requires bound >= 2 && u in Neighbours(sc, subject) && subject in Neighbours(sc, u)
    ensures subject in Reach(sc, subject, bound) && Reach(sc, subject, bound)[subject] <= 2
  {
    LevelStep(sc, subject, 1, u, subject);
    LevelMono(sc, subject, 2, bound);
  }

  /** More allowed relations give more neighbours. */
  lemma NeighboursWiden(g: Table, a: seq<string>, b: seq<string>, p: string)
    requires forall r :: r in a ==> r in b
    ensures Neighbours(Scope(g, a), p) <= Neighbours(Scope(g, b), p)
  {
  }

  lemma {:induction false} LevelWiden(g: Table, a: seq<string>, b: seq<string>, subject: string, k: nat)
    requires k >= 1 && forall r :: r in a ==> r in b
    ensures Level(Scope(g, a), subject, k) <= Level(Scope(g, b), subject, k)
  {
    NeighboursWiden(g, a, b, subject);
    if k > 1 {
      LevelWiden(g, a, b, subject, k - 1);
      forall v | v in Image(Scope(g, a), Level(Scope(g, a), subject, k - 1))
        ensures v in Level(Scope(g, b), subject, k)
      {
        var u :| u in Level(Scope(g, a), subject, k - 1) && v in Neighbours(Scope(g, a), u);
        NeighboursWiden(g, a, b, u);
        LevelStep(Scope(g, b), subject, k - 1, u, v);
      }
    }
  }

  /**
   * Widening the requested relations loses no one and lengthens no depth:
   * whoever is found along fewer relations is found along more, at the same
   * depth or a smaller one.
   */
  lemma SearchWiden(g: Table, subject: string, rels: seq<string>, wider: seq<string>, maxDepth: int, p: string)
    requires forall r :: r in rels && r in g ==> r in wider
    requires p in Search(g, subject, rels, maxDepth)
    ensures p in Search(g, subject, wider, maxDepth)
    ensures Search(g, subject, wider, maxDepth)[p] <= Search(g, subject, rels, maxDepth)[p]
  {
    var a, b := KnownRelations(g, rels), KnownRelations(g, wider);
    var bound := Bound(maxDepth);
    var d := Search(g, subject, rels, maxDepth)[p];
    LevelWiden(g, a, b, subject, d);
    LevelMono(Scope(g, b), subject, d, bound);
  }

  /** Over a loaded graph, every relation is among the five, so the full list finds the most. */
  lemma AllRelationsWidest(g: Table, subject: string, rels: seq<string>, maxDepth: int, p: string)
    requires g.Keys <= RelationSet()
    requires p in Search(g, subject, rels, maxDepth)
    ensures p in Search(g, subject, Relations, maxDepth)
    ensures Search(g, subject, Relations, maxDepth)[p] <= Search(g, subject, rels, maxDepth)[p]
  {
    SearchWiden(g, subject, rels, Relations, maxDepth, p);
  }
}
