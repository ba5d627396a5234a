/** Declaring a gate: order against the gates already declared, the exemptions of
    what is sealed, and what that does to sealing. */
module Gates {
  import opened Common
  import opened Nodes
  import opened Order
  import opened Projection

  // ---------------------------------------------------------------- gate order

  function GateOrder(gate: Id): Option<nat> {
    if gate == "verified" then Some(0)
    else if gate == "reviewed-local" then Some(1)
    else if gate == "reviewed" then Some(2)
    else if gate == "ci-green" then Some(3)
    else None
  }

  predicate OutOfOrder(gate: Id, scale: Kind, prior: Id, priorScale: Kind) {
    && GateOrder(gate).Some? && GateOrder(prior).Some?
    && ((GateOrder(prior).value < GateOrder(gate).value && priorScale.Rank() > scale.Rank())
        || (GateOrder(prior).value > GateOrder(gate).value && scale.Rank() > priorScale.Rank()))
  }

  ghost predicate Conflicts(declared: map<(Id, Id), Kind>, repo: Id, gate: Id, scale: Kind) {
    exists prior :: (repo, prior) in declared && OutOfOrder(gate, scale, prior, declared[(repo, prior)])
  }

  /** A later gate is never declared at a smaller scale than an earlier one. */
  ghost predicate Monotone(declared: map<(Id, Id), Kind>) {
    forall repo, a, b | (repo, a) in declared && (repo, b) in declared
                        && GateOrder(a).Some? && GateOrder(b).Some? && GateOrder(a).value < GateOrder(b).value ::
      declared[(repo, a)].Rank() <= declared[(repo, b)].Rank()
  }

  method OrderConflict(declared: map<(Id, Id), Kind>, repo: Id, gate: Id, scale: Kind) returns (found: bool)
    ensures found == Conflicts(declared, repo, gate, scale)
  {
    if GateOrder(gate).None? {
      return false;
    }
    var left := declared.Keys;
    while left != {}
      invariant left <= declared.Keys
      invariant forall prior | (repo, prior) in declared && (repo, prior) !in left ::
                  !OutOfOrder(gate, scale, prior, declared[(repo, prior)])
      decreases left
    {
      var d :| d in left;
      left := left - {d};
      if d.0 == repo && OutOfOrder(gate, scale, d.1, declared[d]) {
        assert (repo, d.1) in declared;
        return true;
      }
    }
    found := false;
  }

  // ---------------------------------------------------------------- the declare path's own sealing test

  /** The node and its ancestors, nearest first. */
  function Ancestors(nodes: map<Id, Node>, id: Id): (chain: seq<Id>)
    requires WellFormed(nodes) && id in nodes
    ensures |chain| >= 1 && forall a | a in chain :: a in nodes
    decreases 2 - nodes[id].kind.Rank()
  {
    [id] + (if nodes[id].parent.Some? then Ancestors(nodes, nodes[id].parent.value) else [])
  }

  /** The list test and the projection's recursive walk are the same test. */
  lemma {:induction false} ListTestIsWalk(nodes: map<Id, Node>, g: Gated, id: Id, position: nat)
    requires WellFormed(nodes) && id in nodes
    ensures ChainMet(nodes, g, id, position) <==>
            forall a | a in Ancestors(nodes, id) :: nodes[a].LiveAt(position) && GatesMet(g, a, nodes[a])
    decreases 2 - nodes[id].kind.Rank()
  {
    if nodes[id].parent.Some? {
      var p := nodes[id].parent.value;
      ListTestIsWalk(nodes, g, p, position);
      assert Ancestors(nodes, id) == [id] + Ancestors(nodes, p);
      assert forall a :: a in Ancestors(nodes, id) <==> a == id || a in Ancestors(nodes, p);
    } else {
      assert Ancestors(nodes, id) == [id];
    }
  }

  predicate AtScale(nodes: map<Id, Node>, id: Id, repo: Id, scale: Kind, position: nat) {
    id in nodes && nodes[id].repo == repo && nodes[id].kind == scale && nodes[id].LiveAt(position)
  }

  /** Exactly the sealed live nodes of the Repo at the scale, each once, in id order. */
  ghost predicate IsSealedList(nodes: map<Id, Node>, g: Gated, repo: Id, scale: Kind, position: nat, list: seq<Id>)
    requires WellFormed(nodes)
  {
    && (forall id :: id in list <==> AtScale(nodes, id, repo, scale, position) && Sealed(nodes, g, id, position))
    && (forall i, k | 0 <= i < k < |list| :: Less(list[i], list[k]))
  }

  method SealedAtScale(nodes: map<Id, Node>, log: seq<Event>, g: Gated, repo: Id, scale: Kind, position: nat)
    returns (list: seq<Id>)
    requires WellFormed(nodes) && Fold(nodes, log) == Some(g)
    ensures IsSealedList(nodes, g, repo, scale, position, list)
  {
    list := [];
    var left := set id | id in nodes && AtScale(nodes, id, repo, scale, position);
    ghost var all := left;
    while left != {}
      invariant left <= all
      invariant forall id :: id in list <==> id in all && id !in left && Sealed(nodes, g, id, position)
      invariant forall i, k | 0 <= i < k < |list| :: Less(list[i], list[k])
      invariant forall i, y | 0 <= i < |list| && y in left :: Less(list[i], y)
      decreases left
    {
      var id := FindSmallest(left);
      left := left - {id};
      var state := LifecycleState(log, id, nodes[id].kind);
      StateIsPhase(nodes, log, id);
      if state == Done {
        var complete := AllMet(nodes, g, Ancestors(nodes, id), position);
        ListTestIsWalk(nodes, g, id, position);
        if complete {
          list := list + [id];
        }
      }
    }
  }

  method AllMet(nodes: map<Id, Node>, g: Gated, chain: seq<Id>, position: nat) returns (complete: bool)
    requires forall a | a in chain :: a in nodes
    ensures complete <==> forall a | a in chain :: nodes[a].LiveAt(position) && GatesMet(g, a, nodes[a])
  {
    for i := 0 to |chain|
      invariant forall k | 0 <= k < i :: nodes[chain[k]].LiveAt(position) && GatesMet(g, chain[k], nodes[chain[k]])
    {
      var met := MeetsGates(g, chain[i], nodes[chain[i]]);
      if !met || !nodes[chain[i]].LiveAt(position) {
        assert chain[i] in chain;
        return false;
      }
    }
    complete := true;
  }

  // ---------------------------------------------------------------- declare

  datatype Store = Store(nodes: map<Id, Node>, log: seq<Event>, table: Gated)

  datatype Request = Request(command: Id, repo: Id, gate: Id, scale: Kind, event: EventId, claimCurrent: bool,
                             human: bool)

  datatype Outcome = Declared | AlreadyDeclared | Refused(code: string) | Failed(error: Error)

  predicate EventIdFits(log: seq<Event>, id: EventId) {
    id > 0 && (log == [] || id > log[|log| - 1].id)
  }

  function DeclareEvent(r: Request, exempt: seq<Id>): Event {
    Event(r.event, r.command, r.repo, r.repo, GateDeclared(r.gate, r.scale, exempt))
  }

  ghost predicate Inv(s: Store) {
    && WellFormed(s.nodes)
    && Fold(s.nodes, s.log) == Some(s.table)
    && (forall id | id in s.nodes :: s.nodes[id].birth <= |s.log| && s.nodes[id].tombstone <= |s.log|)
    && Monotone(s.table.declared)
  }

  /** What a refused or repeated declaration answers, None when it writes. */
  ghost function DeclareReply(s: Store, r: Request): Option<Outcome> {
    if !r.claimCurrent then Some(Refused("refusal.claim-fenced"))
    else if !r.human then Some(Refused("refusal.gate-owner"))
    else if (r.repo, r.gate) in s.table.declared then
      Some(if s.table.declared[(r.repo, r.gate)] == r.scale then AlreadyDeclared
           else Refused("refusal.gate-scale-change"))
    else if Conflicts(s.table.declared, r.repo, r.gate, r.scale) then Some(Refused("refusal.gate-order-violation"))
    else if r.gate == "" || !EventIdFits(s.log, r.event) then Some(Failed(ErrInvalidProof))
    else None
  }

  /** A declaration appends its event and takes the projection of the longer log. */
  ghost predicate DeclareStep(s: Store, r: Request, exempt: seq<Id>, t: Store, outcome: Outcome)
    requires WellFormed(s.nodes)
  {
    if DeclareReply(s, r).Some? then t == s && outcome == DeclareReply(s, r).value
    else
      && IsSealedList(s.nodes, s.table, r.repo, r.scale, |s.log|, exempt)
      && t.nodes == s.nodes && t.log == s.log + [DeclareEvent(r, exempt)]
      && Fold(t.nodes, t.log) == Some(t.table)
      && outcome == Declared
  }

  /** The declaration's event, exemptions and all, is accepted by the fold. */
  lemma DeclareAccepted(s: Store, r: Request, exempt: seq<Id>)
    requires Inv(s) && DeclareReply(s, r).None? && IsSealedList(s.nodes, s.table, r.repo, r.scale, |s.log|, exempt)
    ensures Fold(s.nodes, s.log + [DeclareEvent(r, exempt)]) ==
            Some(s.table.(declared := s.table.declared[(r.repo, r.gate) := r.scale],
                          states := Exempted(s.table.states, r.gate, exempt)))
  {
    var e := DeclareEvent(r, exempt);
    FoldAppend(s.nodes, s.log, e);
    FoldOk(s.nodes, s.log);
    forall i | 0 <= i < |exempt|
      ensures Known(s.nodes, exempt[i], r.repo, |s.log| + 1) && s.nodes[exempt[i]].kind == r.scale
      ensures (exempt[i], r.gate) !in s.table.states
    {
      assert exempt[i] in exempt;
    }
    assert ExemptOk(s.nodes, s.table, e, |s.log| + 1);
  }

  lemma DeclareKeepsInv(s: Store, r: Request, exempt: seq<Id>, t: Store, outcome: Outcome)
    requires Inv(s) && DeclareStep(s, r, exempt, t, outcome)
    ensures Inv(t)
  {
    if outcome == Declared {
      DeclareAccepted(s, r, exempt);
      MonotoneGrows(s.table.declared, r.repo, r.gate, r.scale);
    }
  }

  /** The conflict test is exactly what keeps the declarations monotone. */
  lemma MonotoneGrows(declared: map<(Id, Id), Kind>, repo: Id, gate: Id, scale: Kind)
    requires Monotone(declared) && (repo, gate) !in declared
    ensures Monotone(declared[(repo, gate) := scale]) <==> !Conflicts(declared, repo, gate, scale)
  {
    var after := declared[(repo, gate) := scale];
    if prior :| (repo, prior) in declared && OutOfOrder(gate, scale, prior, declared[(repo, prior)]) {
      assert (repo, prior) in after && (repo, gate) in after;
    } else {
      forall x, a, b | (x, a) in after && (x, b) in after && GateOrder(a).Some? && GateOrder(b).Some?
                       && GateOrder(a).value < GateOrder(b).value
        ensures after[(x, a)].Rank() <= after[(x, b)].Rank()
      {
        if x == repo && a == gate {
          assert !OutOfOrder(gate, scale, b, declared[(repo, b)]);
        } else if x == repo && b == gate {
          assert !OutOfOrder(gate, scale, a, declared[(repo, a)]);
        }
      }
    }
  }

  // ---------------------------------------------------------------- what a declaration does to sealing

  /** The node's ancestor, or the node itself, at a scale. */
  function AncestorAt(nodes: map<Id, Node>, id: Id, scale: Kind): (r: Option<Id>)
    requires WellFormed(nodes) && id in nodes
    ensures r.Some? ==> r.value in nodes && nodes[r.value].kind == scale && nodes[r.value].repo == nodes[id].repo
    ensures r.Some? ==> nodes[id].kind.Rank() <= scale.Rank()
    ensures nodes[id].kind == scale ==> r == Some(id)
    decreases 2 - nodes[id].kind.Rank()
  {
    if nodes[id].kind == scale then Some(id)
    else if nodes[id].parent.Some? then AncestorAt(nodes, nodes[id].parent.value, scale)
    else None
  }

  ghost predicate After(g: Gated, h: Gated, repo: Id, gate: Id, scale: Kind, exempt: seq<Id>) {
    && h == g.(declared := g.declared[(repo, gate) := scale], states := Exempted(g.states, gate, exempt))
    && (repo, gate) !in g.declared
  }

  lemma GatesMetAfter(nodes: map<Id, Node>, g: Gated, h: Gated, id: Id, repo: Id, gate: Id, scale: Kind,
                      exempt: seq<Id>, p: nat)
    requires id in nodes && GatedOk(nodes, g, p) && After(g, h, repo, gate, scale, exempt)
    requires forall a | a in exempt :: a in nodes && nodes[a].repo == repo
    ensures GatesMet(h, id, nodes[id]) <==>
            GatesMet(g, id, nodes[id]) && (nodes[id].repo == repo && nodes[id].kind == scale ==> id in exempt)
  {
    ExemptedStates(g.states, gate, exempt);
    if GatesMet(h, id, nodes[id]) {
      forall x, k | (x, k) in g.declared && x == nodes[id].repo && g.declared[(x, k)] == nodes[id].kind
        ensures (id, k) in g.states
      {
        assert (x, k) in h.declared;
        assert (id, k) in h.states;
      }
      if nodes[id].repo == repo && nodes[id].kind == scale {
        assert (repo, gate) in h.declared;
        assert (id, gate) in h.states;
      }
    }
  }

  lemma {:induction false} ChainMetAfter(nodes: map<Id, Node>, g: Gated, h: Gated, id: Id, repo: Id, gate: Id,
                                         scale: Kind,
                                         exempt: seq<Id>, p: nat)
    requires WellFormed(nodes) && id in nodes && GatedOk(nodes, g, p) && After(g, h, repo, gate, scale, exempt)
    requires forall a | a in exempt :: a in nodes && nodes[a].repo == repo
    ensures ChainMet(nodes, h, id, p) <==>
            ChainMet(nodes, g, id, p)
            && (nodes[id].repo == repo && AncestorAt(nodes, id, scale).Some?
                ==> AncestorAt(nodes, id, scale).value in exempt)
    decreases 2 - nodes[id].kind.Rank()
  {
    GatesMetAfter(nodes, g, h, id, repo, gate, scale, exempt, p);
    if nodes[id].parent.Some? {
      ChainMetAfter(nodes, g, h, nodes[id].parent.value, repo, gate, scale, exempt, p);
      if nodes[id].kind == scale {
        assert AncestorAt(nodes, nodes[id].parent.value, scale).None?;
      }
    }
  }

  lemma {:induction false} ChainMetGivesAncestor(nodes: map<Id, Node>, g: Gated, id: Id, scale: Kind, p: nat)
    requires WellFormed(nodes) && id in nodes && ChainMet(nodes, g, id, p) && AncestorAt(nodes, id, scale).Some?
    ensures ChainMet(nodes, g, AncestorAt(nodes, id, scale).value, p)
    decreases 2 - nodes[id].kind.Rank()
  {
    if nodes[id].kind != scale {
      ChainMetGivesAncestor(nodes, g, nodes[id].parent.value, scale, p);
    }
  }

  lemma {:induction false} ChainOneLater(nodes: map<Id, Node>, g: Gated, id: Id, p: nat)
    requires WellFormed(nodes) && id in nodes && forall x | x in nodes :: nodes[x].tombstone <= p
    ensures ChainMet(nodes, g, id, p) == ChainMet(nodes, g, id, p + 1)
    decreases 2 - nodes[id].kind.Rank()
  {
    if nodes[id].parent.Some? {
      ChainOneLater(nodes, g, nodes[id].parent.value, p);
    }
  }

  /** Sealing after the new gate, in terms of sealing before it. */
  lemma SealedAfter(nodes: map<Id, Node>, g: Gated, h: Gated, id: Id, repo: Id, gate: Id, scale: Kind,
                    exempt: seq<Id>, p: nat)
    requires WellFormed(nodes) && id in nodes && GatedOk(nodes, g, p) && After(g, h, repo, gate, scale, exempt)
    requires IsSealedList(nodes, g, repo, scale, p, exempt)
    ensures Sealed(nodes, h, id, p) <==>
            Sealed(nodes, g, id, p)
            && (nodes[id].repo == repo && AncestorAt(nodes, id, scale).Some?
                ==> Sealed(nodes, g, AncestorAt(nodes, id, scale).value, p))
  {
    ChainMetAfter(nodes, g, h, id, repo, gate, scale, exempt, p);
    var a := AncestorAt(nodes, id, scale);
    if a.Some? && ChainMet(nodes, g, id, p) {
      ChainMetGivesAncestor(nodes, g, id, scale, p);
      assert a.value in exempt <==> AtScale(nodes, a.value, repo, scale, p) && Sealed(nodes, g, a.value, p);
    }
  }

  /** Declaring a gate at a scale unseals nothing at that scale or above, nor in
      another Repo; a smaller node stays sealed exactly when its ancestor at that
      scale was sealed, or it has none. Nothing becomes sealed. */
  lemma DeclareSealing(s: Store, r: Request, exempt: seq<Id>, t: Store, id: Id)
    requires Inv(s) && DeclareStep(s, r, exempt, t, Declared) && DeclareReply(s, r).None? && id in s.nodes
    ensures s.nodes[id].repo != r.repo || s.nodes[id].kind.Rank() >= r.scale.Rank() ==>
              (Sealed(t.nodes, t.table, id, |t.log|) <==> Sealed(s.nodes, s.table, id, |s.log|))
    ensures s.nodes[id].repo == r.repo && s.nodes[id].kind.Rank() < r.scale.Rank() ==>
              (Sealed(t.nodes, t.table, id, |t.log|) <==>
               Sealed(s.nodes, s.table, id, |s.log|)
               && (AncestorAt(s.nodes, id, r.scale).Some?
                   ==> Sealed(s.nodes, s.table, AncestorAt(s.nodes, id, r.scale).value, |s.log|)))
  {
    DeclaredTable(s, r, exempt, t);
    SealedOneLater(s.nodes, s.table, t.table, id, r.repo, r.gate, r.scale, exempt, |s.log|);
  }

  lemma DeclaredTable(s: Store, r: Request, exempt: seq<Id>, t: Store)
    requires Inv(s) && DeclareStep(s, r, exempt, t, Declared) && DeclareReply(s, r).None?
    ensures t.nodes == s.nodes && |t.log| == |s.log| + 1 && GatedOk(s.nodes, s.table, |s.log|)
    ensures After(s.table, t.table, r.repo, r.gate, r.scale, exempt)
    ensures IsSealedList(s.nodes, s.table, r.repo, r.scale, |s.log|, exempt)
  {
    DeclareAccepted(s, r, exempt);
    FoldOk(s.nodes, s.log);
  }

  lemma SealedOneLater(nodes: map<Id, Node>, g: Gated, h: Gated, id: Id, repo: Id, gate: Id, scale: Kind,
                       exempt: seq<Id>, p: nat)
    requires WellFormed(nodes) && id in nodes && GatedOk(nodes, g, p) && After(g, h, repo, gate, scale, exempt)
    requires IsSealedList(nodes, g, repo, scale, p, exempt) && forall x | x in nodes :: nodes[x].tombstone <= p
    ensures nodes[id].repo != repo || nodes[id].kind.Rank() >= scale.Rank() ==>
              (Sealed(nodes, h, id, p + 1) <==> Sealed(nodes, g, id, p))
    ensures nodes[id].repo == repo && nodes[id].kind.Rank() < scale.Rank() ==>
              (Sealed(nodes, h, id, p + 1) <==>
               Sealed(nodes, g, id, p)
               && (AncestorAt(nodes, id, scale).Some? ==> Sealed(nodes, g, AncestorAt(nodes, id, scale).value, p)))
  {
    SealedAfter(nodes, g, h, id, repo, gate, scale, exempt, p);
    ChainOneLater(nodes, h, id, p);
  }

  // ---------------------------------------------------------------- runs

  /** Any other transaction: births and tombstones at the new position, and one
      event the fold accepts that declares no gate. */
  ghost predicate OtherStep(s: Store, t: Store) {
    && |t.log| == |s.log| + 1 && t.log[..|s.log|] == s.log && !t.log[|s.log|].body.GateDeclared?
    && WellFormed(t.nodes) && GrowsAfter(s.nodes, t.nodes, |s.log|)
    && (forall id | id in t.nodes :: t.nodes[id].birth <= |t.log| && t.nodes[id].tombstone <= |t.log|)
    && Fold(t.nodes, t.log) == Some(t.table)
  }

  ghost predicate Next(s: Store, t: Store)
    requires WellFormed(s.nodes)
  {
    OtherStep(s, t) || exists r, exempt, outcome :: DeclareStep(s, r, exempt, t, outcome)
  }

  lemma OtherKeepsDeclarations(s: Store, t: Store)
    requires Inv(s) && OtherStep(s, t)
    ensures t.table.declared == s.table.declared
  {
    FoldStable(s.nodes, t.nodes, s.log, |s.log|);
    var e := t.log[|s.log|];
    assert t.log == s.log + [e];
    FoldAppend(t.nodes, s.log, e);
  }

  lemma NextKeepsInv(s: Store, t: Store)
    requires Inv(s) && Next(s, t)
    ensures Inv(t)
  {
    if OtherStep(s, t) {
      OtherKeepsDeclarations(s, t);
    } else {
      var r, exempt, outcome :| DeclareStep(s, r, exempt, t, outcome);
      DeclareKeepsInv(s, r, exempt, t, outcome);
    }
  }

  ghost predicate IsRun(states: seq<Store>) {
    && |states| > 0 && states[0] == Store(map[], [], Gated(map[], map[], map[]))
    && forall i | 0 <= i < |states| - 1 :: WellFormed(states[i].nodes) && Next(states[i], states[i + 1])
  }

  /** In every run, every reachable declaration set is monotone and the stored
      projection is the fold of the log. */
  lemma {:induction false} RunIsMonotone(states: seq<Store>, n: nat)
    requires IsRun(states) && n < |states|
    ensures Inv(states[n])
    ensures Monotone(states[n].table.declared) && Fold(states[n].nodes, states[n].log) == Some(states[n].table)
  {
    if n > 0 {
      RunIsMonotone(states, n - 1);
      NextKeepsInv(states[n - 1], states[n]);
    }
  }

  /** A declaration once made stands, at its scale. */
  lemma NextKeepsDeclared(s: Store, t: Store, d: (Id, Id))
    requires Inv(s) && Next(s, t) && d in s.table.declared
    ensures d in t.table.declared && t.table.declared[d] == s.table.declared[d]
  {
    if OtherStep(s, t) {
      OtherKeepsDeclarations(s, t);
    } else {
      var r, exempt, outcome :| DeclareStep(s, r, exempt, t, outcome);
      if outcome == Declared {
        DeclareAccepted(s, r, exempt);
      }
    }
  }

  lemma {:induction false} DeclaredForever(states: seq<Store>, m: nat, n: nat, d: (Id, Id))
    requires IsRun(states) && m <= n < |states| && d in states[m].table.declared
    ensures d in states[n].table.declared && states[n].table.declared[d] == states[m].table.declared[d]
  {
    if m < n {
      DeclaredForever(states, m, n - 1, d);
      RunIsMonotone(states, n - 1);
      NextKeepsDeclared(states[n - 1], states[n], d);
    }
  }

  /** In every run, after a gate is declared, a person who holds the claim and declares it
      again is answered that it is declared, at the same scale, and refused at any other;
      nothing is written either way. */
  lemma DeclaringAgain(states: seq<Store>, m: nat, n: nat, r: Request, exempt: seq<Id>, t: Store, outcome: Outcome)
    requires IsRun(states) && m <= n < |states| && (r.repo, r.gate) in states[m].table.declared
    requires WellFormed(states[n].nodes) && DeclareStep(states[n], r, exempt, t, outcome) && r.claimCurrent && r.human
    ensures t == states[n]
    ensures outcome == if states[m].table.declared[(r.repo, r.gate)] == r.scale then AlreadyDeclared
                       else Refused("refusal.gate-scale-change")
  {
    DeclaredForever(states, m, n, (r.repo, r.gate));
  }

  /** In every state of every run a gate is declared exactly by a person who holds the
      claim, for the first time in the Repo, in an order that stays monotone, under a
      fresh event id. */
  lemma DeclareExactly(states: seq<Store>, n: nat, r: Request, exempt: seq<Id>, t: Store, outcome: Outcome)
    requires IsRun(states) && n < |states| && WellFormed(states[n].nodes)
    requires DeclareStep(states[n], r, exempt, t, outcome)
    ensures var s := states[n];
            && (outcome == Declared <==>
                  && r.claimCurrent && r.human && r.gate != "" && (r.repo, r.gate) !in s.table.declared
                  && Monotone(s.table.declared[(r.repo, r.gate) := r.scale])
                  && r.event > 0 && (s.log != [] ==> r.event > s.log[|s.log| - 1].id))
            && (outcome == Declared ==> t.table.declared == s.table.declared[(r.repo, r.gate) := r.scale])
            && (outcome != Declared ==> t == s)
  {
    var s := states[n];
    RunIsMonotone(states, n);
    if (r.repo, r.gate) !in s.table.declared {
      MonotoneGrows(s.table.declared, r.repo, r.gate, r.scale);
    }
    if outcome == Declared {
      DeclareAccepted(s, r, exempt);
    }
  }

  // ---------------------------------------------------------------- the store

  class GateStore {
    var nodes: map<Id, Node>
    var log: seq<Event>
    var table: Gated

    function View(): Store
      reads this
    {
      Store(nodes, log, table)
    }

    method Declare(r: Request) returns (outcome: Outcome, ghost exempt: seq<Id>)
      requires Inv(View())
      modifies this`log, this`table
      ensures DeclareStep(old(View()), r, exempt, View(), outcome)
    {
      exempt := [];
      if !r.claimCurrent {
        return Refused("refusal.claim-fenced"), [];
      }
      if !r.human {
        return Refused("refusal.gate-owner"), [];
      }
      if (r.repo, r.gate) in table.declared {
        return if table.declared[(r.repo, r.gate)] == r.scale then AlreadyDeclared
          else Refused("refusal.gate-scale-change"), [];
      }
      var conflict := OrderConflict(table.declared, r.repo, r.gate, r.scale);
      if conflict {
        return Refused("refusal.gate-order-violation"), [];
      }
      if r.gate == "" || !EventIdFits(log, r.event) {
        return Failed(ErrInvalidProof), [];
      }
      var list := SealedAtScale(nodes, log, table, r.repo, r.scale, |log|);
      DeclareAccepted(View(), r, list);
      exempt := list;
      log := log + [DeclareEvent(r, list)];
      var projected := Derive(nodes, log);
      table := projected.value;
      outcome := Declared;
    }
  }
}
