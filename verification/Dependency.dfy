/** The dependency graph: admission by an explicit-stack search, an independent
    fold of the event log, and the projection rebuilt from that fold. */
module Dependency {
  import opened Common
  import opened Nodes

  // ---------------------------------------------------------------- graphs

  type Graph = set<(Id, Id)>

  ghost predicate IsPath(g: Graph, p: seq<Id>) {
    && |p| >= 1
    && forall i | 0 <= i < |p| - 1 :: (p[i], p[i + 1]) in g
  }

  ghost predicate PathBetween(g: Graph, p: seq<Id>, a: Id, b: Id) {
    IsPath(g, p) && p[0] == a && p[|p| - 1] == b
  }

  ghost predicate Reaches(g: Graph, a: Id, b: Id) {
    exists p :: PathBetween(g, p, a, b)
  }

  ghost predicate Acyclic(g: Graph) {
    forall p {:trigger IsPath(g, p)} :: IsPath(g, p) && |p| >= 2 ==> p[0] != p[|p| - 1]
  }

  lemma PathHasEdge(g: Graph, p: seq<Id>)
    requires IsPath(g, p) && |p| >= 2
    ensures (p[0], p[1]) in g
  {
    assert (p[0], p[0 + 1]) in g;
  }

  lemma ReachesSelf(g: Graph, a: Id)
    ensures Reaches(g, a, a)
  {
    assert PathBetween(g, [a], a, a);
  }

  lemma ReachesStep(g: Graph, a: Id, b: Id, c: Id)
    requires Reaches(g, a, b) && (b, c) in g
    ensures Reaches(g, a, c)
  {
    var p :| PathBetween(g, p, a, b);
    assert PathBetween(g, p + [c], a, c);
  }

  lemma SubgraphAcyclic(g: Graph, h: Graph)
    requires h <= g && Acyclic(g)
    ensures Acyclic(h)
  {
    forall p | IsPath(h, p) && |p| >= 2
      ensures p[0] != p[|p| - 1]
    {
      assert IsPath(g, p);
    }
  }

  /** A set closed under the edges holds every node its members reach. */
  lemma {:induction false} ClosedSetHoldsPath(g: Graph, s: set<Id>, p: seq<Id>)
    requires forall e | e in g :: e.0 in s ==> e.1 in s
    requires IsPath(g, p) && p[0] in s
    ensures p[|p| - 1] in s
  {
    if |p| > 1 {
      assert (p[0], p[1]) in g;
      assert IsPath(g, p[1..]) by {
        forall i | 0 <= i < |p[1..]| - 1
          ensures (p[1..][i], p[1..][i + 1]) in g
        {
          assert (p[i + 1], p[i + 2]) in g;
        }
      }
      ClosedSetHoldsPath(g, s, p[1..]);
    }
  }

  /** The first use of an edge outside g on a path. */
  lemma FirstForeign(g: Graph, p: seq<Id>, i: nat) returns (k: nat)
    requires i < |p| - 1 && (p[i], p[i + 1]) !in g
    ensures k <= i && (p[k], p[k + 1]) !in g
    ensures forall j | 0 <= j < k :: (p[j], p[j + 1]) in g
  {
    k := 0;
    while (p[k], p[k + 1]) in g
      invariant k <= i
      invariant forall j | 0 <= j < k :: (p[j], p[j + 1]) in g
      decreases i - k
    {
      k := k + 1;
    }
  }

  /** The last use of an edge outside g on a path. */
  lemma LastForeign(g: Graph, p: seq<Id>, i: nat) returns (k: nat)
    requires i < |p| - 1 && (p[i], p[i + 1]) !in g
    ensures i <= k < |p| - 1 && (p[k], p[k + 1]) !in g
    ensures forall j | k < j < |p| - 1 :: (p[j], p[j + 1]) in g
  {
    k := |p| - 2;
    while (p[k], p[k + 1]) in g
      invariant i <= k < |p| - 1
      invariant forall j | k < j < |p| - 1 :: (p[j], p[j + 1]) in g
      decreases k
    {
      k := k - 1;
    }
  }

  lemma JoinPaths(g: Graph, a: Id, b: Id, c: Id)
    requires Reaches(g, a, b) && Reaches(g, b, c)
    ensures Reaches(g, a, c)
  {
    var p :| PathBetween(g, p, a, b);
    var q :| PathBetween(g, q, b, c);
    var r := p + q[1..];
    forall i | 0 <= i < |r| - 1
      ensures (r[i], r[i + 1]) in g
    {
      if i < |p| - 1 {
        assert (p[i], p[i + 1]) in g;
      } else {
        assert (q[i - |p| + 1], q[i - |p| + 2]) in g;
      }
    }
    assert PathBetween(g, r, a, c);
  }

  /** The admission guard is exact: over an acyclic graph the new edge closes a
      cycle if and only if its blocker already reaches the blocked node. */
  lemma CycleGuardExact(g: Graph, blocked: Id, blocker: Id)
    requires Acyclic(g)
    ensures Acyclic(g + {(blocked, blocker)}) <==> !Reaches(g, blocker, blocked)
  {
    var h := g + {(blocked, blocker)};
    if Reaches(g, blocker, blocked) {
      var p :| PathBetween(g, p, blocker, blocked);
      assert IsPath(h, p + [blocker]);
      assert (p + [blocker])[0] == (p + [blocker])[|p|];
    } else {
      forall p | IsPath(h, p) && |p| >= 2
        ensures p[0] != p[|p| - 1]
      {
        if p[0] == p[|p| - 1] {
          if i :| 0 <= i < |p| - 1 && (p[i], p[i + 1]) !in g {
            var k := FirstForeign(g, p, i);
            assert (p[k], p[k + 1]) == (blocked, blocker);
            assert PathBetween(g, p[..k + 1], p[0], blocked);
            var l := LastForeign(g, p, i);
            assert (p[l], p[l + 1]) == (blocked, blocker);
            var tail := p[l + 1..];
            forall j | 0 <= j < |tail| - 1
              ensures (tail[j], tail[j + 1]) in g
            {
              assert (p[l + 1 + j], p[l + 2 + j]) in g;
            }
            assert PathBetween(g, tail, blocker, p[0]);
            JoinPaths(g, blocker, p[0], blocked);
            assert false;
          } else {
            assert IsPath(g, p);
            assert false;
          }
        }
      }
    }
  }

  // ---------------------------------------------------------------- search

  ghost function GraphOf(adjacency: map<Id, seq<Id>>): Graph {
    set a, i | a in adjacency && 0 <= i < |adjacency[a]| :: (a, adjacency[a][i])
  }

  ghost function Universe(from: Id, adjacency: map<Id, seq<Id>>): set<Id> {
    {from} + (set a, i | a in adjacency && 0 <= i < |adjacency[a]| :: adjacency[a][i])
  }

  /** Depth-first search over a mutable stack. The fold's inlined copy of this
      loop is this method too. */
  method Reachable(from: Id, target: Id, adjacency: map<Id, seq<Id>>) returns (found: bool)
    ensures found <==> Reaches(GraphOf(adjacency), from, target)
  {
    ghost var g := GraphOf(adjacency);
    ghost var universe := Universe(from, adjacency);
    var pending := [from];
    var visited: set<Id> := {};
    ReachesSelf(g, from);
    while |pending| > 0
      invariant forall x | x in pending :: x in universe && Reaches(g, from, x)
      invariant visited <= universe && target !in visited
      invariant forall e | e in g && e.0 in visited :: e.1 in visited || e.1 in pending
      invariant from in visited || from in pending
      decreases universe - visited, |pending|
    {
      var id := pending[|pending| - 1];
      ghost var before := pending;
      pending := pending[..|pending| - 1];
      assert forall x | x in before :: x in pending || x == id;
      if id == target {
        return true;
      }
      if id !in visited {
        visited := visited + {id};
        if id in adjacency {
          forall x | x in adjacency[id]
            ensures x in universe && Reaches(g, from, x)
          {
            var i :| 0 <= i < |adjacency[id]| && adjacency[id][i] == x;
            assert (id, x) in g;
            ReachesStep(g, from, id, x);
          }
          pending := pending + adjacency[id];
        }
      }
    }
    if Reaches(g, from, target) {
      var p :| PathBetween(g, p, from, target);
      ClosedSetHoldsPath(g, visited, p);
    }
    found := false;
  }

  // ---------------------------------------------------------------- the fold

  /** tombstone is the id of the removing event, 0 while the edge is in force. */
  datatype Edge = Edge(repo: Id, blocked: Id, blocker: Id, birth: EventId, last: EventId, tombstone: EventId)

  datatype Event =
    | DependencyEvent(id: EventId, repo: Id, subject: Id, edge: Id, blocker: Id, added: bool)
    | OtherEvent(id: EventId)

  type Edges = map<Id, Edge>

  predicate LiveIn(nodes: map<Id, Node>, id: Id, position: nat) {
    id !in nodes || nodes[id].LiveAt(position)
  }

  predicate InForce(e: Edge, nodes: map<Id, Node>, position: nat) {
    e.tombstone == 0 && LiveIn(nodes, e.blocked, position) && LiveIn(nodes, e.blocker, position)
  }

  /** The pairs of the untombstoned edges whose endpoints are live at position. */
  ghost function Active(edges: Edges, nodes: map<Id, Node>, position: nat): Graph {
    set k | k in edges && InForce(edges[k], nodes, position) :: (edges[k].blocked, edges[k].blocker)
  }

  ghost predicate OneEdgePerPair(edges: Edges, nodes: map<Id, Node>, position: nat) {
    forall k, l | k in edges && l in edges && k != l
                  && InForce(edges[k], nodes, position) && InForce(edges[l], nodes, position) ::
      (edges[k].blocked, edges[k].blocker) != (edges[l].blocked, edges[l].blocker)
  }

  predicate EndpointAt(id: Id, nodes: map<Id, Node>, members: set<Id>, position: nat) {
    && id in nodes && nodes[id].repo in members && nodes[id].kind != Stage
    && nodes[id].birth < position && nodes[id].LiveAt(position)
  }

  ghost function FoldAdd(nodes: map<Id, Node>, edges: Edges, e: Event, position: nat): Option<Edges>
    requires e.DependencyEvent?
  {
    if e.edge in edges
       || (e.subject, e.blocker) in Active(edges, nodes, position)
       || Reaches(Active(edges, nodes, position), e.blocker, e.subject)
    then None
    else Some(edges[e.edge := Edge(e.repo, e.subject, e.blocker, e.id, e.id, 0)])
  }

  function FoldRemove(edges: Edges, e: Event): Option<Edges>
    requires e.DependencyEvent?
  {
    if e.edge !in edges || edges[e.edge].tombstone != 0
       || edges[e.edge].blocked != e.subject || edges[e.edge].blocker != e.blocker
    then None
    else Some(edges[e.edge := edges[e.edge].(last := e.id, tombstone := e.id)])
  }

  ghost function FoldEvent(nodes: map<Id, Node>, members: set<Id>, edges: Edges, e: Event,
                           position: nat): Option<Edges> {
    if e.OtherEvent? then Some(edges)
    else if e.repo !in members || e.subject == e.blocker
            || !EndpointAt(e.subject, nodes, members, position) || !EndpointAt(e.blocker, nodes, members, position)
    then None
    else if e.added then FoldAdd(nodes, edges, e, position)
    else FoldRemove(edges, e)
  }

  /** The event at index i has position i + 1. */
  ghost function Fold(nodes: map<Id, Node>, members: set<Id>, log: seq<Event>): Option<Edges> {
    if log == [] then Some(map[])
    else
      var n := |log|;
      match Fold(nodes, members, log[..n - 1])
      case None => None
      case Some(edges) => FoldEvent(nodes, members, edges, log[n - 1], n)
  }

  /** One list of successors per blocked node, gathered edge by edge in any order. */
  method Adjacency(edges: Edges, nodes: map<Id, Node>, position: nat) returns (adjacency: map<Id, seq<Id>>)
    ensures GraphOf(adjacency) == Active(edges, nodes, position)
  {
    adjacency := map[];
    var left := edges.Keys;
    while left != {}
      invariant left <= edges.Keys
      invariant forall a, b :: (a, b) in GraphOf(adjacency) <==>
                               exists k :: k in edges && k !in left && InForce(edges[k], nodes, position)
                                           && (edges[k].blocked, edges[k].blocker) == (a, b)
      decreases left
    {
      var k :| k in left;
      left := left - {k};
      var e := edges[k];
      if InForce(e, nodes, position) {
        ghost var before := adjacency;
        var row := if e.blocked in adjacency then adjacency[e.blocked] else [];
        adjacency := adjacency[e.blocked := row + [e.blocker]];
        AdjacencyGrows(before, e.blocked, e.blocker, row);
      }
    }
  }

  lemma AdjacencyGrows(adjacency: map<Id, seq<Id>>, a: Id, b: Id, row: seq<Id>)
    requires row == if a in adjacency then adjacency[a] else []
    ensures GraphOf(adjacency[a := row + [b]]) == GraphOf(adjacency) + {(a, b)}
  {
    var after := adjacency[a := row + [b]];
    forall e | e in GraphOf(adjacency) + {(a, b)}
      ensures e in GraphOf(after)
    {
      if e == (a, b) {
        assert after[a][|row|] == b;
      } else {
        var x, i :| x in adjacency && 0 <= i < |adjacency[x]| && e == (x, adjacency[x][i]);
        assert x in after && i < |after[x]| && after[x][i] == adjacency[x][i];
      }
    }
    forall e | e in GraphOf(after)
      ensures e in GraphOf(adjacency) + {(a, b)}
    {
      var x, i :| x in after && 0 <= i < |after[x]| && e == (x, after[x][i]);
      if x == a && i < |row| {
        assert adjacency[a][i] == e.1;
      } else if x != a {
        assert adjacency[x][i] == e.1;
      }
    }
  }

  /** The independent validator: one pass over the log with a mutable edge map. */
  method DeriveProjection(nodes: map<Id, Node>, members: set<Id>, log: seq<Event>) returns (r: Result<Edges>)
    ensures r == match Fold(nodes, members, log) case Some(edges) => Ok(edges) case None => Err(ErrInvalidStore)
  {
    var edges: Edges := map[];
    var i := 0;
    while i < |log|
      invariant 0 <= i <= |log|
      invariant Fold(nodes, members, log[..i]) == Some(edges)
    {
      var e := log[i];
      var position := i + 1;
      assert log[..i + 1][..i] == log[..i];
      if e.DependencyEvent? {
        if e.repo !in members || e.subject == e.blocker
           || !EndpointAt(e.subject, nodes, members, position) || !EndpointAt(e.blocker, nodes, members, position) {
          FoldRejects(nodes, members, log, i + 1);
          return Err(ErrInvalidStore);
        }
        if !e.added {
          var next := FoldRemove(edges, e);
          if next.None? {
            FoldRejects(nodes, members, log, i + 1);
            return Err(ErrInvalidStore);
          }
          edges := next.value;
        } else {
          var adjacency := Adjacency(edges, nodes, position);
          var cycle := Reachable(e.blocker, e.subject, adjacency);
          var duplicate := e.subject in adjacency && e.blocker in adjacency[e.subject];
          assert duplicate <==> (e.subject, e.blocker) in GraphOf(adjacency);
          if e.edge in edges || duplicate || cycle {
            FoldRejects(nodes, members, log, i + 1);
            return Err(ErrInvalidStore);
          }
          edges := edges[e.edge := Edge(e.repo, e.subject, e.blocker, e.id, e.id, 0)];
        }
      }
      i := i + 1;
    }
    assert log[..|log|] == log;
    r := Ok(edges);
  }

  /** A rejected prefix rejects the whole log. */
  lemma {:induction false} FoldRejects(nodes: map<Id, Node>, members: set<Id>, log: seq<Event>, p: nat)
    requires p <= |log| && Fold(nodes, members, log[..p]).None?
    ensures Fold(nodes, members, log).None?
    decreases |log| - p
  {
    if p == |log| {
      assert log[..p] == log;
    } else {
      assert log[..p + 1][..p] == log[..p];
      FoldRejects(nodes, members, log, p + 1);
    }
  }

  // ---------------------------------------------------------------- graph safety at every position

  /** What the accepted fold keeps about its edges. */
  ghost predicate EdgesSound(edges: Edges, nodes: map<Id, Node>, members: set<Id>, position: nat) {
    && Acyclic(Active(edges, nodes, position))
    && OneEdgePerPair(edges, nodes, position)
    && forall k | k in edges ::
         BornEndpoint(edges[k].blocked, nodes, members, position)
         && BornEndpoint(edges[k].blocker, nodes, members, position)
  }

  /** A node an edge may name, live or not. */
  predicate BornEndpoint(id: Id, nodes: map<Id, Node>, members: set<Id>, position: nat) {
    id in nodes && nodes[id].repo in members && nodes[id].kind != Stage && nodes[id].birth <= position
  }

  lemma ActiveShrinks(edges: Edges, nodes: map<Id, Node>, p: nat)
    ensures Active(edges, nodes, p + 1) <= Active(edges, nodes, p)
  {
    forall e | e in Active(edges, nodes, p + 1)
      ensures e in Active(edges, nodes, p)
    {
      var k :| k in edges && InForce(edges[k], nodes, p + 1) && e == (edges[k].blocked, edges[k].blocker);
      assert InForce(edges[k], nodes, p);
    }
  }

  lemma EdgesSoundLater(edges: Edges, nodes: map<Id, Node>, members: set<Id>, p: nat)
    requires EdgesSound(edges, nodes, members, p)
    ensures EdgesSound(edges, nodes, members, p + 1)
  {
    ActiveShrinks(edges, nodes, p);
    SubgraphAcyclic(Active(edges, nodes, p), Active(edges, nodes, p + 1));
    assert forall k | k in edges :: InForce(edges[k], nodes, p + 1) ==> InForce(edges[k], nodes, p);
  }

  lemma FoldAddSound(nodes: map<Id, Node>, members: set<Id>, edges: Edges, e: Event, p: nat)
    requires EdgesSound(edges, nodes, members, p) && e.DependencyEvent? && e.added
    requires FoldEvent(nodes, members, edges, e, p).Some?
    ensures EdgesSound(FoldEvent(nodes, members, edges, e, p).value, nodes, members, p)
  {
    var after := FoldEvent(nodes, members, edges, e, p).value;
    var g := Active(edges, nodes, p);
    CycleGuardExact(g, e.subject, e.blocker);
    forall x | x in Active(after, nodes, p)
      ensures x in g + {(e.subject, e.blocker)}
    {
      var k :| k in after && InForce(after[k], nodes, p) && x == (after[k].blocked, after[k].blocker);
      if k != e.edge {
        assert edges[k] == after[k];
      }
    }
    SubgraphAcyclic(g + {(e.subject, e.blocker)}, Active(after, nodes, p));
    forall k, l | k in after && l in after && k != l && InForce(after[k], nodes, p) && InForce(after[l], nodes, p)
      ensures (after[k].blocked, after[k].blocker) != (after[l].blocked, after[l].blocker)
    {
      var other := if k == e.edge then l else k;
      if k != e.edge && l != e.edge {
        assert edges[k] == after[k] && edges[l] == after[l];
      } else {
        assert edges[other] == after[other];
        assert (edges[other].blocked, edges[other].blocker) in g;
      }
    }
  }

  lemma FoldRemoveSound(nodes: map<Id, Node>, members: set<Id>, edges: Edges, e: Event, p: nat)
    requires EdgesSound(edges, nodes, members, p) && e.DependencyEvent? && e.id > 0
    requires FoldRemove(edges, e).Some?
    ensures EdgesSound(FoldRemove(edges, e).value, nodes, members, p)
  {
    var after := FoldRemove(edges, e).value;
    forall x | x in Active(after, nodes, p)
      ensures x in Active(edges, nodes, p)
    {
      var k :| k in after && InForce(after[k], nodes, p) && x == (after[k].blocked, after[k].blocker);
      assert edges[k] == after[k];
    }
    SubgraphAcyclic(Active(edges, nodes, p), Active(after, nodes, p));
    assert forall k | k in after && InForce(after[k], nodes, p) :: edges[k] == after[k];
  }

  ghost predicate EventIdsSet(log: seq<Event>) {
    forall i | 0 <= i < |log| :: log[i].id > 0
  }

  /** At every position of an accepted log the active graph is acyclic and holds
      at most one edge per pair: no admission guard is needed for this. */
  lemma {:induction false} AcceptedLogIsAcyclic(nodes: map<Id, Node>, members: set<Id>, log: seq<Event>, p: nat)
    requires EventIdsSet(log) && p <= |log| && Fold(nodes, members, log).Some?
    ensures Fold(nodes, members, log[..p]).Some?
    ensures EdgesSound(Fold(nodes, members, log[..p]).value, nodes, members, p)
  {
    if Fold(nodes, members, log[..p]).None? {
      FoldRejects(nodes, members, log, p);
    }
    if p == 0 {
      assert log[..0] == [];
      EmptySound(nodes, members);
    } else {
      AcceptedLogIsAcyclic(nodes, members, log, p - 1);
      assert log[..p][..p - 1] == log[..p - 1];
      FoldEventSound(nodes, members, Fold(nodes, members, log[..p - 1]).value, log[p - 1], p);
    }
  }

  lemma EmptySound(nodes: map<Id, Node>, members: set<Id>)
    ensures EdgesSound(map[], nodes, members, 0)
  {
    var empty := Active(map[], nodes, 0);
    if q :| IsPath(empty, q) && |q| >= 2 {
      PathHasEdge(empty, q);
      assert false;
    }
  }

  lemma FoldEventSound(nodes: map<Id, Node>, members: set<Id>, edges: Edges, e: Event, p: nat)
    requires p > 0 && e.id > 0 && EdgesSound(edges, nodes, members, p - 1)
    requires FoldEvent(nodes, members, edges, e, p).Some?
    ensures EdgesSound(FoldEvent(nodes, members, edges, e, p).value, nodes, members, p)
  {
    EdgesSoundLater(edges, nodes, members, p - 1);
    if e.DependencyEvent? {
      if e.added {
        FoldAddSound(nodes, members, edges, e, p);
      } else {
        FoldRemoveSound(nodes, members, edges, e, p);
      }
    }
  }

  // ---------------------------------------------------------------- the fold of an old log is stable

  lemma ActiveStable(edges: Edges, nodes: map<Id, Node>, later: map<Id, Node>, p: nat, q: nat)
    requires GrowsAfter(nodes, later, q) && p <= q
    ensures Active(edges, nodes, p) == Active(edges, later, p)
  {
    forall k | k in edges
      ensures InForce(edges[k], nodes, p) == InForce(edges[k], later, p)
    {
      forall id: Id
        ensures LiveIn(nodes, id, p) == LiveIn(later, id, p)
      {
        if id in later && id !in nodes {
          assert later[id].LiveAt(q);
        }
      }
    }
    assert forall x :: x in Active(edges, nodes, p) <==> x in Active(edges, later, p);
  }

  /** Births, tombstones and memberships after the log's end never change its fold. */
  lemma {:induction false} FoldStable(nodes: map<Id, Node>, later: map<Id, Node>, members: set<Id>, more: set<Id>,
                                      log: seq<Event>, q: nat)
    requires GrowsAfter(nodes, later, q) && members <= more && |log| <= q
    requires Fold(nodes, members, log).Some?
    ensures Fold(later, more, log) == Fold(nodes, members, log)
  {
    if log != [] {
      var n := |log|;
      FoldStable(nodes, later, members, more, log[..n - 1], q);
      var edges := Fold(nodes, members, log[..n - 1]).value;
      ActiveStable(edges, nodes, later, n, q);
      var e := log[n - 1];
      if e.DependencyEvent? {
        assert later[e.subject].kind == nodes[e.subject].kind;
        assert later[e.blocker].kind == nodes[e.blocker].kind;
      }
    }
  }

  // ---------------------------------------------------------------- admission

  datatype Store = Store(nodes: map<Id, Node>, members: set<Id>, log: seq<Event>, table: Edges)

  datatype Outcome =
    | Refused(code: string)
    | Added(edge: Id)
    | Removed
    | Failed(error: Error)

  const REFUSE_REPO := "refusal.dependency-repo"
  const REFUSE_ENDPOINT := "refusal.dependency-endpoint"
  const REFUSE_CYCLE := "refusal.dependency-cycle"
  const REFUSE_CLAIM := "refusal.claim-fenced"
  const REFUSE_EXISTS := "refusal.dependency-exists"
  const REFUSE_MISSING := "refusal.dependency-missing"

  /** What a command supplies from outside the store: the allocated event id, the
      random edge ids to try, and whether the endpoint claims are current. */
  datatype Command = Command(repo: Id, blocked: Id, blocker: Id, event: EventId, candidates: seq<Id>,
                             claimsCurrent: bool)

  /** The admission form of the endpoint check, made at the current position. */
  predicate EndpointNow(id: Id, s: Store) {
    && id in s.nodes && s.nodes[id].repo in s.members && s.nodes[id].kind != Stage
    && s.nodes[id].birth <= |s.log| && s.nodes[id].LiveAt(|s.log|)
  }

  predicate Admitted(e: Edge, s: Store) {
    e.tombstone == 0 && EndpointNow(e.blocked, s) && EndpointNow(e.blocker, s)
  }

  /** appendCommandEvent's guard: the id follows the last one. */
  predicate EventIdFits(log: seq<Event>, id: EventId) {
    id > 0 && (log == [] || id > log[|log| - 1].id)
  }

  /** The guards both commands share, in the order the command takes them. */
  function Guard(s: Store, c: Command): Option<Outcome> {
    if c.repo !in s.members then Some(Refused(REFUSE_REPO))
    else if !EndpointNow(c.blocked, s) || !EndpointNow(c.blocker, s) then Some(Refused(REFUSE_ENDPOINT))
    else if c.blocked == c.blocker then Some(Refused(REFUSE_CYCLE))
    else if !c.claimsCurrent then Some(Refused(REFUSE_CLAIM))
    else None
  }

  ghost function AdmissionGraph(s: Store): Graph {
    set k | k in s.table && Admitted(s.table[k], s) :: (s.table[k].blocked, s.table[k].blocker)
  }

  /** The first of the candidates no retained edge uses. */
  function FreshEdge(candidates: seq<Id>, table: Edges): (r: Option<Id>)
    ensures r.Some? ==> r.value in candidates && r.value !in table
    ensures r.None? ==> forall id | id in candidates :: id in table
  {
    if candidates == [] then None
    else if candidates[0] !in table then Some(candidates[0])
    else FreshEdge(candidates[1..], table)
  }

  /** Append, then replace the table by the fold of the longer log. */
  ghost function Rebuilt(s: Store, e: Event, done: Outcome): (Store, Outcome) {
    if !EventIdFits(s.log, e.id) then (s, Failed(ErrInvalidProof))
    else
      match Fold(s.nodes, s.members, s.log + [e])
      case None => (s, Failed(ErrInvalidStore))
      case Some(edges) => (s.(log := s.log + [e], table := edges), done)
  }

  ghost function Add(s: Store, c: Command): (Store, Outcome) {
    if Guard(s, c).Some? then (s, Guard(s, c).value)
    else if (c.blocked, c.blocker) in AdmissionGraph(s) then (s, Refused(REFUSE_EXISTS))
    else if Reaches(AdmissionGraph(s), c.blocker, c.blocked) then (s, Refused(REFUSE_CYCLE))
    else
      match FreshEdge(c.candidates, s.table)
      case None => (s, Failed(ErrResourceLimit))
      case Some(edge) =>
        Rebuilt(s, DependencyEvent(c.event, c.repo, c.blocked, edge, c.blocker, true), Added(edge))
  }

  /** The retained edge of the pair that is in force, as admission sees it. */
  ghost predicate IsPairEdge(s: Store, c: Command, k: Id) {
    k in s.table && Admitted(s.table[k], s) && (s.table[k].blocked, s.table[k].blocker) == (c.blocked, c.blocker)
  }

  ghost function Remove(s: Store, c: Command): (Store, Outcome) {
    if Guard(s, c).Some? then (s, Guard(s, c).value)
    else if exists k :: IsPairEdge(s, c, k) then
      var k :| IsPairEdge(s, c, k);
      Rebuilt(s, Removal(c, k), Removed)
    else (s, Refused(REFUSE_MISSING))
  }

  // ---------------------------------------------------------------- what every step keeps

  ghost predicate Inv(s: Store) {
    && Fold(s.nodes, s.members, s.log) == Some(s.table)
    && EventIdsSet(s.log)
    && forall id | id in s.nodes :: s.nodes[id].birth <= |s.log| && s.nodes[id].tombstone <= |s.log|
  }

  lemma AdmittedIsInForce(s: Store, e: Edge)
    requires forall id | id in s.nodes :: s.nodes[id].tombstone <= |s.log|
    requires BornEndpoint(e.blocked, s.nodes, s.members, |s.log|)
             && BornEndpoint(e.blocker, s.nodes, s.members, |s.log|)
    ensures Admitted(e, s) == InForce(e, s.nodes, |s.log| + 1)
  {
  }

  /** In a reachable store the admission graph, which rechecks every endpoint from
      scratch, is the graph the fold sees at the next position. */
  lemma AdmissionSeesFoldGraph(s: Store)
    requires Inv(s)
    ensures AdmissionGraph(s) == Active(s.table, s.nodes, |s.log| + 1)
    ensures forall k | k in s.table :: Admitted(s.table[k], s) == InForce(s.table[k], s.nodes, |s.log| + 1)
    ensures EdgesSound(s.table, s.nodes, s.members, |s.log|)
  {
    assert s.log[..|s.log|] == s.log;
    AcceptedLogIsAcyclic(s.nodes, s.members, s.log, |s.log|);
    forall k | k in s.table
      ensures Admitted(s.table[k], s) == InForce(s.table[k], s.nodes, |s.log| + 1)
    {
      AdmittedIsInForce(s, s.table[k]);
    }
    SameSelection(s, |s.log| + 1);
  }

  lemma SameSelection(s: Store, p: nat)
    requires forall k | k in s.table :: Admitted(s.table[k], s) == InForce(s.table[k], s.nodes, p)
    ensures AdmissionGraph(s) == Active(s.table, s.nodes, p)
  {
    forall x
      ensures x in AdmissionGraph(s) <==> x in Active(s.table, s.nodes, p)
    {
    }
  }

  /** Every event admission writes is accepted by the independent fold, and the
      rebuilt table is the old one with exactly the new edge. */
  lemma AddAccepted(s: Store, c: Command)
    requires Inv(s)
    ensures Inv(Add(s, c).0)
    ensures Add(s, c).1 != Failed(ErrInvalidStore)
    ensures Add(s, c).1.Added? ==>
              && Add(s, c).1.edge !in s.table
              && Add(s, c).0.table
                 == s.table[Add(s, c).1.edge := Edge(c.repo, c.blocked, c.blocker, c.event, c.event, 0)]
    ensures !Add(s, c).1.Added? ==> Add(s, c).0 == s
  {
    var edge := FreshEdge(c.candidates, s.table);
    if Guard(s, c).None? && edge.Some? && (c.blocked, c.blocker) !in AdmissionGraph(s)
       && !Reaches(AdmissionGraph(s), c.blocker, c.blocked) && EventIdFits(s.log, c.event) {
      AdditionFolds(s, c, edge.value);
    }
  }

  /** The event of an admitted add is accepted and only adds its edge. */
  lemma AdditionFolds(s: Store, c: Command, edge: Id)
    requires Inv(s) && Guard(s, c).None? && edge !in s.table && c.event > 0
    requires (c.blocked, c.blocker) !in AdmissionGraph(s) && !Reaches(AdmissionGraph(s), c.blocker, c.blocked)
    ensures Fold(s.nodes, s.members, s.log + [DependencyEvent(c.event, c.repo, c.blocked, edge, c.blocker, true)])
            == Some(s.table[edge := Edge(c.repo, c.blocked, c.blocker, c.event, c.event, 0)])
  {
    AdmissionSeesFoldGraph(s);
    var e := DependencyEvent(c.event, c.repo, c.blocked, edge, c.blocker, true);
    assert (s.log + [e])[..|s.log|] == s.log;
  }

  function Removal(c: Command, k: Id): Event {
    DependencyEvent(c.event, c.repo, c.blocked, k, c.blocker, false)
  }

  function Tombstoned(table: Edges, k: Id, event: EventId): Edges
    requires k in table
  {
    table[k := table[k].(last := event, tombstone := event)]
  }

  /** The removal event of the pair's edge is accepted and only tombstones it. */
  lemma RemovalFolds(s: Store, c: Command, k: Id)
    requires Inv(s) && Guard(s, c).None? && IsPairEdge(s, c, k)
    ensures Fold(s.nodes, s.members, s.log + [Removal(c, k)]) == Some(Tombstoned(s.table, k, c.event))
  {
    assert (s.log + [Removal(c, k)])[..|s.log|] == s.log;
  }

  lemma PairEdgeUnique(s: Store, c: Command, k: Id, l: Id)
    requires Inv(s) && IsPairEdge(s, c, k) && IsPairEdge(s, c, l)
    ensures k == l
  {
    AdmissionSeesFoldGraph(s);
    assert InForce(s.table[l], s.nodes, |s.log|) && InForce(s.table[k], s.nodes, |s.log|);
  }

  lemma PairEdgeWasThere(s: Store, t: Store, c: Command, l: Id)
    requires Inv(s) && t.nodes == s.nodes && t.members == s.members && |t.log| == |s.log| + 1
    requires IsPairEdge(t, c, l) && l in s.table && s.table[l] == t.table[l]
    ensures IsPairEdge(s, c, l)
  {
  }

  lemma RemoveAccepted(s: Store, c: Command)
    requires Inv(s)
    ensures Inv(Remove(s, c).0)
    ensures Remove(s, c).1 != Failed(ErrInvalidStore)
    ensures Remove(s, c).1.Removed? ==>
              exists k :: IsPairEdge(s, c, k)
                && Remove(s, c).0 == s.(log := s.log + [Removal(c, k)], table := Tombstoned(s.table, k, c.event))
                && forall l :: !IsPairEdge(Remove(s, c).0, c, l)
    ensures !Remove(s, c).1.Removed? ==> Remove(s, c).0 == s
  {
    if Guard(s, c).None? && exists k :: IsPairEdge(s, c, k) {
      var k :| IsPairEdge(s, c, k) && Remove(s, c) == Rebuilt(s, Removal(c, k), Removed);
      RemovalFolds(s, c, k);
      if EventIdFits(s.log, c.event) {
        var t := Remove(s, c).0;
        assert t == Rebuilt(s, Removal(c, k), Removed).0;
        assert t.table == Tombstoned(s.table, k, c.event);
        forall l
          ensures !IsPairEdge(t, c, l)
        {
          if IsPairEdge(t, c, l) {
            assert t.table[k].tombstone == c.event;
            PairEdgeWasThere(s, t, c, l);
            PairEdgeUnique(s, c, k, l);
          }
        }
      }
    }
  }

  /** Everything that can happen to the tables the graph reads. Any other command's
      transaction is a NodesOp: its events, and the births and tombstones it writes, each
      at one of them. */
  datatype Op =
    | NodesOp(born: map<Id, Node>, buried: map<Id, nat>, events: seq<EventId>)
    | MemberOp(repo: Id)
    | AddOp(command: Command)
    | RemoveOp(command: Command)

  function Others(events: seq<EventId>): (r: seq<Event>)
    ensures |r| == |events| && forall i | 0 <= i < |r| :: r[i] == OtherEvent(events[i])
  {
    seq(|events|, i requires 0 <= i < |events| => OtherEvent(events[i]))
  }

  /** The ids follow the last one and each other. */
  predicate IdsFit(log: seq<Event>, events: seq<EventId>) {
    forall i | 0 <= i < |events| :: EventIdFits(log, events[i]) && (i > 0 ==> events[i - 1] < events[i])
  }

  /** New nodes are born, and live ones buried, at the events of the transaction. */
  predicate WritesFit(nodes: map<Id, Node>, born: map<Id, Node>, buried: map<Id, nat>, low: nat, high: nat) {
    && (forall id | id in born :: id !in nodes && low < born[id].birth <= high && born[id].tombstone == 0)
    && (forall id | id in buried :: id in nodes && nodes[id].tombstone == 0 && low < buried[id] <= high)
  }

  function Written(nodes: map<Id, Node>, born: map<Id, Node>, buried: map<Id, nat>): map<Id, Node> {
    map id | id in nodes.Keys + born.Keys ::
      if id in born then born[id]
      else if id in buried then nodes[id].(tombstone := buried[id])
      else nodes[id]
  }

  ghost function Apply(s: Store, op: Op): Store {
    match op
    case NodesOp(born, buried, events) =>
      if !IdsFit(s.log, events) || !WritesFit(s.nodes, born, buried, |s.log|, |s.log| + |events|) then s
      else s.(log := s.log + Others(events), nodes := Written(s.nodes, born, buried))
    case MemberOp(repo) => s.(members := s.members + {repo})
    case AddOp(c) => Add(s, c).0
    case RemoveOp(c) => Remove(s, c).0
  }

  ghost function Run(ops: seq<Op>): Store {
    if ops == [] then Store(map[], {}, [], map[])
    else Apply(Run(ops[..|ops| - 1]), ops[|ops| - 1])
  }

  lemma ApplyKeepsInv(s: Store, op: Op)
    requires Inv(s)
    ensures Inv(Apply(s, op))
  {
    match op
    case AddOp(c) => AddAccepted(s, c);
    case RemoveOp(c) => RemoveAccepted(s, c);
    case NodesOp(born, buried, events) =>
      if IdsFit(s.log, events) && WritesFit(s.nodes, born, buried, |s.log|, |s.log| + |events|) {
        WrittenGrows(s.nodes, born, buried, |s.log|, |s.log| + |events|);
        GrownKeepsInv(s, Apply(s, op), events);
      }
    case MemberOp(repo) =>
      assert s.log + Others([]) == s.log;
      GrownKeepsInv(s, s.(members := s.members + {repo}), []);
  }

  lemma WrittenGrows(nodes: map<Id, Node>, born: map<Id, Node>, buried: map<Id, nat>, low: nat, high: nat)
    requires WritesFit(nodes, born, buried, low, high)
    ensures GrowsAfter(nodes, Written(nodes, born, buried), low)
  {
  }

  lemma GrownKeepsInv(s: Store, t: Store, events: seq<EventId>)
    requires Inv(s) && GrowsAfter(s.nodes, t.nodes, |s.log|) && t.table == s.table && s.members <= t.members
    requires t.log == s.log + Others(events) && IdsFit(s.log, events)
    requires forall id | id in t.nodes :: t.nodes[id].birth <= |t.log| && t.nodes[id].tombstone <= |t.log|
    ensures Inv(t)
  {
    FoldStable(s.nodes, t.nodes, s.members, t.members, s.log, |s.log|);
    FoldOthers(t.nodes, t.members, s.log, Others(events));
  }

  lemma {:induction false} FoldOthers(nodes: map<Id, Node>, members: set<Id>, log: seq<Event>, more: seq<Event>)
    requires forall i | 0 <= i < |more| :: more[i].OtherEvent?
    ensures Fold(nodes, members, log + more) == Fold(nodes, members, log)
  {
    if more == [] {
      assert log + more == log;
    } else {
      var n := |more| - 1;
      FoldOthers(nodes, members, log, more[..n]);
      assert (log + more)[..|log| + n] == log + more[..n];
    }
  }

  /** step.replace, one op: it buries one Step and bears another at one event. */
  lemma StepReplaced(s: Store, former: Id, next: Id, event: EventId)
    requires former in s.nodes && s.nodes[former].tombstone == 0 && next !in s.nodes && EventIdFits(s.log, event)
    ensures var p := |s.log| + 1;
            Apply(s, NodesOp(map[next := s.nodes[former].(birth := p)], map[former := p], [event]))
            == s.(log := s.log + [OtherEvent(event)],
                  nodes := s.nodes[former := s.nodes[former].(tombstone := p)][next := s.nodes[former].(birth := p)])
  {
    var p := |s.log| + 1;
    var born, buried := map[next := s.nodes[former].(birth := p)], map[former := p];
    assert Others([event]) == [OtherEvent(event)];
    assert Written(s.nodes, born, buried)
        == s.nodes[former := s.nodes[former].(tombstone := p)][next := s.nodes[former].(birth := p)];
  }

  /** Over all runs: the stored projection is the fold of the log, and at every
      log position the live graph is acyclic with one edge per pair. */
  lemma {:induction false} EveryRunIsSound(ops: seq<Op>, p: nat)
    requires p <= |Run(ops).log|
    ensures var s := Run(ops);
            && Fold(s.nodes, s.members, s.log) == Some(s.table)
            && Fold(s.nodes, s.members, s.log[..p]).Some?
            && EdgesSound(Fold(s.nodes, s.members, s.log[..p]).value, s.nodes, s.members, p)
  {
    RunKeepsInv(ops);
    var s := Run(ops);
    AcceptedLogIsAcyclic(s.nodes, s.members, s.log, p);
  }

  lemma {:induction false} RunKeepsInv(ops: seq<Op>)
    ensures Inv(Run(ops))
  {
    if ops != [] {
      RunKeepsInv(ops[..|ops| - 1]);
      ApplyKeepsInv(Run(ops[..|ops| - 1]), ops[|ops| - 1]);
    }
  }

  // ---------------------------------------------------------------- exactly what is admitted

  /** A Matter or Step of a member Repo without a tombstone. */
  ghost predicate Stands(s: Store, id: Id) {
    id in s.nodes && s.nodes[id].tombstone == 0 && s.nodes[id].kind != Stage && s.nodes[id].repo in s.members
  }

  /** What an add or remove needs besides its edge. */
  ghost predicate MayChange(s: Store, c: Command) {
    && c.claimsCurrent && c.repo in s.members && Stands(s, c.blocked) && Stands(s, c.blocker)
    && c.event > 0 && forall i | 0 <= i < |s.log| :: s.log[i].id < c.event
  }

  lemma EndpointExactly(s: Store, id: Id)
    requires Inv(s)
    ensures EndpointNow(id, s) <==> Stands(s, id)
  {
  }

  /** The pairs in force at the end of the log, by the independent fold. */
  ghost function InForceNow(s: Store): Graph {
    Active(s.table, s.nodes, |s.log| + 1)
  }

  lemma NoSelfLoops(g: Graph)
    ensures Acyclic(g) ==> forall x :: (x, x) !in g
  {
    forall x | (x, x) in g
      ensures !Acyclic(g)
    {
      assert IsPath(g, [x, x]);
    }
  }

  /** In every run: a dependency is added exactly when both ends stand, the claims are
      current, the pair is not in force yet, the graph stays acyclic with it, and a fresh
      event id and edge id are at hand. */
  lemma AddExactly(ops: seq<Op>, c: Command)
    ensures var s := Run(ops);
            Add(s, c).1.Added? <==>
              && MayChange(s, c) && (c.blocked, c.blocker) !in InForceNow(s)
              && Acyclic(InForceNow(s) + {(c.blocked, c.blocker)})
              && exists id :: id in c.candidates && id !in s.table
  {
    var s := Run(ops);
    RunKeepsInv(ops);
    AdmissionSeesFoldGraph(s);
    AddAccepted(s, c);
    EndpointExactly(s, c.blocked);
    EndpointExactly(s, c.blocker);
    ActiveShrinks(s.table, s.nodes, |s.log|);
    SubgraphAcyclic(Active(s.table, s.nodes, |s.log|), InForceNow(s));
    CycleGuardExact(InForceNow(s), c.blocked, c.blocker);
    NoSelfLoops(InForceNow(s) + {(c.blocked, c.blocker)});
    RunIdsRise(ops);
    LastIdIsLargest(s.log, c.event);
  }

  /** And removed exactly when the pair is in force. */
  lemma RemoveExactly(ops: seq<Op>, c: Command)
    ensures var s := Run(ops);
            Remove(s, c).1 == Removed <==> MayChange(s, c) && (c.blocked, c.blocker) in InForceNow(s)
  {
    var s := Run(ops);
    RunKeepsInv(ops);
    AdmissionSeesFoldGraph(s);
    RemoveAccepted(s, c);
    EndpointExactly(s, c.blocked);
    EndpointExactly(s, c.blocker);
    ActiveShrinks(s.table, s.nodes, |s.log|);
    SubgraphAcyclic(Active(s.table, s.nodes, |s.log|), InForceNow(s));
    if (c.blocked, c.blocker) in InForceNow(s) {
      NoSelfLoops(InForceNow(s));
      var k :| k in s.table && InForce(s.table[k], s.nodes, |s.log| + 1)
               && (s.table[k].blocked, s.table[k].blocker) == (c.blocked, c.blocker);
      assert IsPairEdge(s, c, k);
      if Guard(s, c).None? {
        PairEdgeDecides(s, c, k);
        RemovalFolds(s, c, k);
      }
    }
    RunIdsRise(ops);
    LastIdIsLargest(s.log, c.event);
  }

  ghost predicate RisingIds(log: seq<Event>) {
    forall i, k | 0 <= i < k < |log| :: log[i].id < log[k].id
  }

  lemma ApplyKeepsRising(s: Store, op: Op)
    requires Inv(s) && RisingIds(s.log)
    ensures RisingIds(Apply(s, op).log)
  {
    match op
    case NodesOp(born, buried, events) =>
      if IdsFit(s.log, events) {
        OthersRise(s.log, events);
      }
    case AddOp(c) => LastIdIsLargest(s.log, c.event);
    case RemoveOp(c) => LastIdIsLargest(s.log, c.event);
    case MemberOp(_) =>
  }

  lemma {:induction false} EventsRise(events: seq<EventId>, i: nat, k: nat)
    requires i < k < |events| && forall j | 0 < j < |events| :: events[j - 1] < events[j]
    ensures events[i] < events[k]
    decreases k - i
  {
    if i < k - 1 {
      EventsRise(events, i, k - 1);
    }
  }

  lemma OthersRise(log: seq<Event>, events: seq<EventId>)
    requires RisingIds(log) && IdsFit(log, events)
    ensures RisingIds(log + Others(events))
  {
    var all := log + Others(events);
    forall i, k | 0 <= i < k < |all|
      ensures all[i].id < all[k].id
    {
      if k >= |log| {
        LastIdIsLargest(log, events[k - |log|]);
        if i >= |log| {
          EventsRise(events, i - |log|, k - |log|);
        }
      }
    }
  }

  lemma {:induction false} RunIdsRise(ops: seq<Op>)
    ensures RisingIds(Run(ops).log)
  {
    if ops != [] {
      RunIdsRise(ops[..|ops| - 1]);
      RunKeepsInv(ops[..|ops| - 1]);
      ApplyKeepsRising(Run(ops[..|ops| - 1]), ops[|ops| - 1]);
    }
  }

  lemma LastIdIsLargest(log: seq<Event>, event: EventId)
    requires RisingIds(log)
    ensures EventIdFits(log, event) <==> event > 0 && forall i | 0 <= i < |log| :: log[i].id < event
  {
    if log != [] {
      assert forall i | 0 <= i < |log| - 1 :: log[i].id < log[|log| - 1].id;
    }
  }

  // ---------------------------------------------------------------- the store's own methods

  lemma PairEdgeDecides(s: Store, c: Command, k: Id)
    requires Inv(s) && Guard(s, c).None? && IsPairEdge(s, c, k)
    ensures Remove(s, c) == Rebuilt(s, Removal(c, k), Removed)
  {
    forall l | IsPairEdge(s, c, l)
      ensures l == k
    {
      PairEdgeUnique(s, c, k, l);
    }
  }

  lemma ActiveOfAdmitted(s: Store, active: Edges)
    requires forall k | k in s.table :: Admitted(s.table[k], s) == InForce(s.table[k], s.nodes, |s.log| + 1)
    requires active.Keys == set k | k in s.table && Admitted(s.table[k], s)
    requires forall k | k in active :: active[k] == s.table[k]
    ensures Active(active, s.nodes, |s.log| + 1) == AdmissionGraph(s)
  {
    assert forall x :: x in Active(active, s.nodes, |s.log| + 1) <==> x in AdmissionGraph(s);
  }

  class DependencyStore {
    var nodes: map<Id, Node>
    var members: set<Id>
    var log: seq<Event>
    var table: Edges

    ghost function View(): Store
      reads this
    {
      Store(nodes, members, log, table)
    }

    constructor ()
      ensures View() == Run([]) && Inv(View())
    {
      nodes, members, log, table := map[], {}, [], map[];
      new;
      RunKeepsInv([]);
    }

    /** The in-force edges as a map, rechecked endpoint by endpoint. */
    method ActiveEdges() returns (active: Edges)
      ensures active.Keys == set k | k in table && Admitted(table[k], View())
      ensures forall k | k in active :: active[k] == table[k]
    {
      var s := Store(nodes, members, log, table);
      active := map k | k in table && Admitted(table[k], s) :: table[k];
    }

    /** Append and rebuild: the table is recomputed by the validator, never patched. */
    method AppendAndRebuild(e: Event, done: Outcome) returns (outcome: Outcome)
      modifies this
      ensures View() == Rebuilt(old(View()), e, done).0 && outcome == Rebuilt(old(View()), e, done).1
    {
      if !EventIdFits(log, e.id) {
        return Failed(ErrInvalidProof);
      }
      var derived := DeriveProjection(nodes, members, log + [e]);
      if derived.Err? {
        return Failed(ErrInvalidStore);
      }
      log, table := log + [e], derived.value;
      outcome := done;
    }

    method AddDependency(c: Command) returns (outcome: Outcome)
      requires Inv(View())
      modifies this
      ensures View() == Add(old(View()), c).0 && outcome == Add(old(View()), c).1
      ensures Inv(View())
    {
      ghost var s := View();
      AddAccepted(s, c);
      AdmissionSeesFoldGraph(s);
      var guard := Guard(Store(nodes, members, log, table), c);
      if guard.Some? {
        return guard.value;
      }
      var active := ActiveEdges();
      var adjacency := Adjacency(active, nodes, |log| + 1);
      ActiveOfAdmitted(s, active);
      var exists_ := c.blocked in adjacency && c.blocker in adjacency[c.blocked];
      assert exists_ <==> (c.blocked, c.blocker) in GraphOf(adjacency);
      if exists_ {
        return Refused(REFUSE_EXISTS);
      }
      var cycle := Reachable(c.blocker, c.blocked, adjacency);
      if cycle {
        return Refused(REFUSE_CYCLE);
      }
      var edge := FreshEdge(c.candidates, table);
      if edge.None? {
        return Failed(ErrResourceLimit);
      }
      outcome :=
        AppendAndRebuild(DependencyEvent(c.event, c.repo, c.blocked, edge.value, c.blocker, true), Added(edge.value));
    }

    method RemoveDependency(c: Command) returns (outcome: Outcome)
      requires Inv(View())
      modifies this
      ensures Inv(View())
      ensures View() == Remove(old(View()), c).0 && outcome == Remove(old(View()), c).1
    {
      ghost var s := View();
      RemoveAccepted(s, c);
      var guard := Guard(Store(nodes, members, log, table), c);
      if guard.Some? {
        return guard.value;
      }
      var active := ActiveEdges();
      var left := active.Keys;
      while left != {}
        invariant left <= active.Keys
        invariant forall k | IsPairEdge(s, c, k) :: k in left
        invariant View() == s
        decreases left
      {
        var k :| k in left;
        left := left - {k};
        if active[k].blocked == c.blocked && active[k].blocker == c.blocker {
          PairEdgeDecides(s, c, k);
          outcome := AppendAndRebuild(Removal(c, k), Removed);
          return;
        }
      }
      outcome := Refused(REFUSE_MISSING);
    }
  }
}
