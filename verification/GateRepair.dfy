/** Repairing a missing gate exemption: a decision pinned to two log positions,
    recomputed by the validator at any later time. */
module GateRepair {
  import opened Common
  import opened Order
  import opened Nodes
  import opened Projection

  datatype Command = Command(id: Id, repo: Id, node: Id, gate: Id, boundary: nat)

  /** detail holds the variable parts of the message, in order. */
  datatype Refusal = Refusal(code: string, detail: seq<Id>)

  // ---------------------------------------------------------------- the guard

  /** The gate applies to the node, has no state on it and is not the one under repair. */
  predicate Open(g: Gated, c: Command, id: Id, node: Node, d: (Id, Id)) {
    d in g.declared && d.0 == c.repo && g.declared[d] == node.kind && !(id == c.node && d.1 == c.gate)
    && (id, d.1) !in g.states
  }

  function Requirements(g: Gated, c: Command, id: Id, node: Node): set<Id> {
    set d | d in g.declared && Open(g, c, id, node, d) :: d.1
  }

  /** From the target up: every ancestor live in the Repo with its other gates met,
      the first open one in gate order named. */
  ghost function Walk(nodes: map<Id, Node>, g: Gated, c: Command, id: Id, position: nat): Option<Refusal>
    requires WellFormed(nodes) && id in nodes
    decreases 2 - nodes[id].kind.Rank()
  {
    if !nodes[id].LiveAt(position) || nodes[id].repo != c.repo then
      Some(Refusal("refusal.gate-repair-subject", [id, c.repo]))
    else if Requirements(g, c, id, nodes[id]) != {} then
      Some(Refusal("refusal.gate-repair-prerequisite",
                   [c.node, c.gate, Smallest(Requirements(g, c, id, nodes[id])), id]))
    else if nodes[id].parent.None? then None
    else Walk(nodes, g, c, nodes[id].parent.value, position)
  }

  ghost function Assess(nodes: map<Id, Node>, g: Gated, c: Command, position: nat, allowExisting: bool): Option<Refusal>
    requires WellFormed(nodes)
  {
    if c.node !in nodes || !nodes[c.node].LiveAt(position) || nodes[c.node].repo != c.repo then
      Some(Refusal("refusal.gate-repair-subject", [c.node, c.repo]))
    else if (c.repo, c.gate) !in g.declared || g.declared[(c.repo, c.gate)] != nodes[c.node].kind then
      Some(Refusal("refusal.gate-repair-scale", [c.gate, c.repo]))
    else if g.Phase(c.node) != Done then Some(Refusal("refusal.gate-repair-lifecycle", [c.node, c.gate]))
    else if (c.node, c.gate) in g.states && g.states[(c.node, c.gate)] == Exempt && allowExisting then None
    else if (c.node, c.gate) in g.states then Some(Refusal("refusal.gate-already-satisfied", [c.gate, c.node]))
    else Walk(nodes, g, c, c.node, position)
  }

  // ---------------------------------------------------------------- the decision

  datatype Decision = Refuse(refusal: Refusal) | KeepExisting | WriteEvent | Broken

  /** The decision at observed, reading the projections of two prefixes. */
  ghost function Decide(nodes: map<Id, Node>, log: seq<Event>, c: Command, observed: nat): Decision
    requires WellFormed(nodes) && observed <= |log| && c.boundary <= |log|
  {
    match (Fold(nodes, log[..observed]), Fold(nodes, log[..c.boundary]))
    case (Some(now), Some(then_)) =>
      var guard := Assess(nodes, now, c, observed, true);
      if guard.Some? then Refuse(guard.value)
      else if (c.node, c.gate) in now.states && now.states[(c.node, c.gate)] == Exempt then KeepExisting
      else
        var historical := Assess(nodes, then_, c, c.boundary, false);
        if historical.Some? then Refuse(historical.value) else WriteEvent
    case _ => Broken
  }

  /** The admission check every completion repeats: the node was born before the
      declaration it names and was still live at it. */
  predicate Admitted(nodes: map<Id, Node>, c: Command) {
    c.node in nodes && nodes[c.node].repo == c.repo && nodes[c.node].birth < c.boundary
    && nodes[c.node].LiveAt(c.boundary)
  }

  lemma {:induction false} WalkStable(nodes: map<Id, Node>, later: map<Id, Node>, g: Gated, c: Command, id: Id,
                                      p: nat, q: nat)
    requires WellFormed(nodes) && WellFormed(later) && GrowsAfter(nodes, later, q) && p <= q && id in nodes
    ensures Walk(nodes, g, c, id, p) == Walk(later, g, c, id, p)
    decreases 2 - nodes[id].kind.Rank()
  {
    assert later[id] == nodes[id].(tombstone := later[id].tombstone);
    assert Requirements(g, c, id, nodes[id]) == Requirements(g, c, id, later[id]);
    if nodes[id].parent.Some? {
      WalkStable(nodes, later, g, c, nodes[id].parent.value, p, q);
    }
  }

  lemma AssessStable(nodes: map<Id, Node>, later: map<Id, Node>, g: Gated, c: Command, p: nat, q: nat, allow: bool)
    requires WellFormed(nodes) && WellFormed(later) && GrowsAfter(nodes, later, q) && p <= q && c.node in nodes
    ensures Assess(nodes, g, c, p, allow) == Assess(later, g, c, p, allow)
  {
    assert later[c.node] == nodes[c.node].(tombstone := later[c.node].tombstone);
    WalkStable(nodes, later, g, c, c.node, p, q);
  }

  /** Later appends, births and tombstones never change an admitted repair's
      decision: not its branch, its refusal code or its message. */
  lemma DecisionIsPinned(nodes: map<Id, Node>, log: seq<Event>, later: map<Id, Node>, more: seq<Event>, c: Command,
                         observed: nat)
    requires WellFormed(nodes) && WellFormed(later) && GrowsAfter(nodes, later, |log|) && log <= more
    requires observed <= |log| && c.boundary <= |log| && c.node in nodes
    ensures Decide(nodes, log, c, observed) == Decide(later, more, c, observed)
  {
    assert more[..observed] == log[..observed] && more[..c.boundary] == log[..c.boundary];
    FoldStable(nodes, later, log[..observed], |log|);
    FoldStable(nodes, later, log[..c.boundary], |log|);
    var now, then_ := Fold(nodes, log[..observed]), Fold(nodes, log[..c.boundary]);
    if now.Some? && then_.Some? {
      AssessStable(nodes, later, now.value, c, observed, |log|, true);
      AssessStable(nodes, later, then_.value, c, c.boundary, |log|, false);
    }
  }

  /** The guard itself reads the node table without asking when the node was born.
      It is pinned exactly when the target already exists, or never comes to exist
      in the command's Repo; the admission check is what makes it so. */
  lemma GuardPinnedExactly(nodes: map<Id, Node>, log: seq<Event>, later: map<Id, Node>, c: Command, allow: bool)
    requires WellFormed(nodes) && WellFormed(later) && GrowsAfter(nodes, later, |log|) && Fold(nodes, log).Some?
    ensures var g := Fold(nodes, log).value;
            Assess(nodes, g, c, |log|, allow) == Assess(later, g, c, |log|, allow) <==>
            c.node in nodes || c.node !in later || later[c.node].repo != c.repo
  {
    if c.node in nodes {
      AssessStable(nodes, later, Fold(nodes, log).value, c, |log|, |log|, allow);
    } else {
      FoldOk(nodes, log);
    }
  }

  // ---------------------------------------------------------------- terminal and validator

  datatype Terminal = Terminal(command: Command, observed: nat, refusal: Option<Refusal>, event: EventId)

  datatype Store = Store(nodes: map<Id, Node>, log: seq<Event>)

  ghost predicate StoreOk(s: Store) {
    && WellFormed(s.nodes)
    && (forall id | id in s.nodes :: s.nodes[id].birth <= |s.log| && s.nodes[id].tombstone <= |s.log|)
  }

  function RepairEvent(c: Command, event: EventId): Event {
    Event(event, c.id, c.repo, c.node, GateRepaired(c.gate))
  }

  /** Completing a repair: the terminal it retains and the store it leaves. */
  ghost predicate CompleteStep(s: Store, c: Command, event: EventId, t: Store, terminal: Terminal)
    requires StoreOk(s) && c.boundary <= |s.log|
  {
    && Admitted(s.nodes, c) && t.nodes == s.nodes && terminal.command == c && terminal.observed == |s.log|
    && match Decide(s.nodes, s.log, c, |s.log|)
       case Refuse(r) => terminal.refusal == Some(r) && terminal.event == 0 && t.log == s.log
       case KeepExisting => terminal.refusal == None && terminal.event == 0 && t.log == s.log
       case WriteEvent =>
         terminal.refusal == None && terminal.event == event && event > 0 && t.log == s.log + [RepairEvent(c, event)]
       case Broken => false
  }

  /** The reopen check, written apart from the completion: it judges the retained
      terminal by recomputing both guards, and asks for a strict guard of a repair
      that wrote its event. */
  ghost predicate Validates(nodes: map<Id, Node>, log: seq<Event>, terminal: Terminal)
    requires WellFormed(nodes)
  {
    var c := terminal.command;
    && terminal.observed <= |log| && c.boundary <= |log| && Admitted(nodes, c)
    && Fold(nodes, log[..terminal.observed]).Some? && Fold(nodes, log[..c.boundary]).Some?
    && var now := Fold(nodes, log[..terminal.observed]).value;
       var then_ := Fold(nodes, log[..c.boundary]).value;
       if terminal.refusal.Some? then
         var guard := Assess(nodes, now, c, terminal.observed, true);
         var final := if guard.Some? then guard else Assess(nodes, then_, c, c.boundary, false);
         terminal.event == 0 && final == terminal.refusal
       else if terminal.event == 0 then
         Assess(nodes, now, c, terminal.observed, true).None?
         && (c.node, c.gate) in now.states && now.states[(c.node, c.gate)] == Exempt
       else
         && terminal.observed < |log| && log[terminal.observed] == RepairEvent(c, terminal.event)
         && Assess(nodes, now, c, terminal.observed, false).None?
         && Assess(nodes, then_, c, c.boundary, false).None?
  }

  /** Every terminal a completion retains is accepted by the validator, at once and
      in every later state of the store. */
  lemma TerminalAcceptedForever(s: Store, c: Command, event: EventId, t: Store, terminal: Terminal, later: Store)
    requires StoreOk(s) && c.boundary <= |s.log| && CompleteStep(s, c, event, t, terminal)
    requires WellFormed(later.nodes) && GrowsAfter(t.nodes, later.nodes, |s.log|) && t.log <= later.log
    ensures Validates(later.nodes, later.log, terminal)
  {
    var p := |s.log|;
    assert s.log[..p] == s.log && later.log[..p] == s.log && later.log[..c.boundary] == s.log[..c.boundary];
    FoldStable(s.nodes, later.nodes, s.log, p);
    FoldStable(s.nodes, later.nodes, s.log[..c.boundary], p);
    var now, then_ := Fold(s.nodes, s.log).value, Fold(s.nodes, s.log[..c.boundary]).value;
    AssessStable(s.nodes, later.nodes, now, c, p, p, true);
    AssessStable(s.nodes, later.nodes, now, c, p, p, false);
    AssessStable(s.nodes, later.nodes, then_, c, c.boundary, p, false);
    assert later.nodes[c.node] == s.nodes[c.node].(tombstone := later.nodes[c.node].tombstone);
  }

  // ---------------------------------------------------------------- a written repair seals its node

  lemma {:induction false} ChainNext(nodes: map<Id, Node>, g: Gated, id: Id, p: nat)
    requires WellFormed(nodes) && id in nodes && ChainMet(nodes, g, id, p)
             && forall x | x in nodes :: nodes[x].tombstone <= p
    ensures ChainMet(nodes, g, id, p + 1)
    decreases 2 - nodes[id].kind.Rank()
  {
    if nodes[id].parent.Some? {
      ChainNext(nodes, g, nodes[id].parent.value, p);
    }
  }

  /** A repair that writes its event is accepted by the fold and leaves its target
      sealed, by the test the declare path uses. */
  lemma WrittenRepairSeals(s: Store, c: Command, event: EventId, t: Store, terminal: Terminal)
    requires StoreOk(s) && c.boundary <= |s.log| && CompleteStep(s, c, event, t, terminal) && terminal.event > 0
    ensures Fold(t.nodes, t.log).Some?
    ensures Sealed(t.nodes, Fold(t.nodes, t.log).value, c.node, |t.log|)
  {
    assert s.log[..|s.log|] == s.log;
    var g := Fold(s.nodes, s.log).value;
    FoldAppend(s.nodes, s.log, RepairEvent(c, event));
    EligibleSeals(s.nodes, g, c, |s.log|);
  }

  lemma EligibleSeals(nodes: map<Id, Node>, g: Gated, c: Command, p: nat)
    requires WellFormed(nodes) && (forall x | x in nodes :: nodes[x].tombstone <= p)
    requires Assess(nodes, g, c, p, true).None?
             && !((c.node, c.gate) in g.states && g.states[(c.node, c.gate)] == Exempt)
    ensures (c.node, c.gate) !in g.states
    ensures Sealed(nodes, g.(states := g.states[(c.node, c.gate) := Exempt]), c.node, p + 1)
  {
    var h := g.(states := g.states[(c.node, c.gate) := Exempt]);
    AssessExactly(nodes, g, c, p);
    ChainNext(nodes, h, c.node, p);
  }

  // ---------------------------------------------------------------- exactly what may be repaired

  /** The projection with the one state the repair would add. */
  function WithExemption(g: Gated, c: Command): Gated {
    g.(states := g.states[(c.node, c.gate) := Exempt])
  }

  /** The gate is declared at the node's scale in its Repo, has no state on it, and is all
      that keeps the node from being sealed. */
  ghost predicate Repairable(nodes: map<Id, Node>, g: Gated, c: Command, p: nat)
    requires WellFormed(nodes)
  {
    && c.node in nodes && nodes[c.node].repo == c.repo
    && (c.repo, c.gate) in g.declared && g.declared[(c.repo, c.gate)] == nodes[c.node].kind
    && (c.node, c.gate) !in g.states && Sealed(nodes, WithExemption(g, c), c.node, p)
  }

  /** The gate is already exempt on a done, live node of the Repo. */
  ghost predicate AlreadyExempt(nodes: map<Id, Node>, g: Gated, c: Command, p: nat) {
    && c.node in nodes && nodes[c.node].repo == c.repo && nodes[c.node].LiveAt(p)
    && (c.repo, c.gate) in g.declared && g.declared[(c.repo, c.gate)] == nodes[c.node].kind
    && g.Phase(c.node) == Done && (c.node, c.gate) in g.states && g.states[(c.node, c.gate)] == Exempt
  }

  lemma RequirementsExactly(g: Gated, c: Command, id: Id, node: Node)
    requires node.repo == c.repo
    ensures Requirements(g, c, id, node) == {} <==> GatesMet(WithExemption(g, c), id, node)
    ensures forall gate :: gate in Requirements(g, c, id, node) <==>
              && (c.repo, gate) in g.declared && g.declared[(c.repo, gate)] == node.kind
              && (id, gate) !in WithExemption(g, c).states
  {
    var h := WithExemption(g, c);
    forall gate
      ensures gate in Requirements(g, c, id, node) <==>
                (c.repo, gate) in g.declared && g.declared[(c.repo, gate)] == node.kind && (id, gate) !in h.states
    {
      if (c.repo, gate) in g.declared {
        assert gate in Requirements(g, c, id, node) <==> Open(g, c, id, node, (c.repo, gate));
      }
    }
    if !GatesMet(h, id, node) {
      var repo, gate :| (repo, gate) in h.declared && repo == node.repo && h.declared[(repo, gate)] == node.kind
                        && (id, gate) !in h.states;
      assert gate in Requirements(g, c, id, node);
    }
  }

  lemma {:induction false} WalkExactly(nodes: map<Id, Node>, g: Gated, c: Command, id: Id, p: nat)
    requires WellFormed(nodes) && id in nodes && nodes[id].repo == c.repo
    ensures Walk(nodes, g, c, id, p).None? <==> ChainMet(nodes, WithExemption(g, c), id, p)
    decreases 2 - nodes[id].kind.Rank()
  {
    RequirementsExactly(g, c, id, nodes[id]);
    if nodes[id].parent.Some? {
      WalkExactly(nodes, g, c, nodes[id].parent.value, p);
    }
  }

  /** The guard passes exactly what the repair would seal, by the test the declare path
      uses; asked leniently it also passes what is exempt already. */
  lemma AssessExactly(nodes: map<Id, Node>, g: Gated, c: Command, p: nat)
    requires WellFormed(nodes)
    ensures Assess(nodes, g, c, p, false).None? <==> Repairable(nodes, g, c, p)
    ensures Assess(nodes, g, c, p, true).None? <==> Repairable(nodes, g, c, p) || AlreadyExempt(nodes, g, c, p)
  {
    if c.node in nodes && nodes[c.node].repo == c.repo {
      WalkExactly(nodes, g, c, c.node, p);
    }
  }

  /** So a repair writes its event exactly when both projections lack only it, and keeps
      the store as it is exactly when the exemption is there. */
  lemma DecideExactly(nodes: map<Id, Node>, log: seq<Event>, c: Command, observed: nat)
    requires WellFormed(nodes) && observed <= |log| && c.boundary <= |log|
    ensures var now, then_ := Fold(nodes, log[..observed]), Fold(nodes, log[..c.boundary]);
            && (Decide(nodes, log, c, observed) == WriteEvent <==>
                  && now.Some? && then_.Some? && Repairable(nodes, now.value, c, observed)
                  && Repairable(nodes, then_.value, c, c.boundary))
            && (Decide(nodes, log, c, observed) == KeepExisting <==>
                  now.Some? && then_.Some? && AlreadyExempt(nodes, now.value, c, observed))
            && (Decide(nodes, log, c, observed) == Broken <==> now.None? || then_.None?)
  {
    var now, then_ := Fold(nodes, log[..observed]), Fold(nodes, log[..c.boundary]);
    if now.Some? && then_.Some? {
      AssessExactly(nodes, now.value, c, observed);
      AssessExactly(nodes, then_.value, c, c.boundary);
    }
  }

  /** a is the node or one of its ancestors. */
  predicate AtOrAbove(nodes: map<Id, Node>, id: Id, a: Id)
    requires WellFormed(nodes) && id in nodes
    decreases 2 - nodes[id].kind.Rank()
  {
    a == id || match nodes[id].parent case None => false case Some(up) => AtOrAbove(nodes, up, a)
  }

  /** The gate applies to a and has no state on it. */
  ghost predicate Unmet(nodes: map<Id, Node>, g: Gated, a: Id, gate: Id) {
    && a in nodes && (nodes[a].repo, gate) in g.declared && g.declared[(nodes[a].repo, gate)] == nodes[a].kind
    && (a, gate) !in g.states
  }

  lemma {:induction false} WalkNames(nodes: map<Id, Node>, g: Gated, c: Command, id: Id, p: nat)
    requires WellFormed(nodes) && id in nodes && nodes[id].repo == c.repo && Walk(nodes, g, c, id, p).Some?
    requires Walk(nodes, g, c, id, p).value.code == "refusal.gate-repair-prerequisite"
    ensures var detail := Walk(nodes, g, c, id, p).value.detail;
            && |detail| == 4 && detail[0] == c.node && detail[1] == c.gate
            && AtOrAbove(nodes, id, detail[3]) && Unmet(nodes, WithExemption(g, c), detail[3], detail[2])
            && forall gate | Unmet(nodes, WithExemption(g, c), detail[3], gate) :: Leq(detail[2], gate)
    decreases 2 - nodes[id].kind.Rank()
  {
    RequirementsExactly(g, c, id, nodes[id]);
    if nodes[id].LiveAt(p) && Requirements(g, c, id, nodes[id]) == {} {
      WalkNames(nodes, g, c, nodes[id].parent.value, p);
    }
  }

  /** The refusals one by one. A missing prerequisite names the first unmet gate, in gate
      order, of the node or an ancestor. */
  lemma RefusalsExactly(nodes: map<Id, Node>, g: Gated, c: Command, p: nat)
    requires WellFormed(nodes)
    ensures var r := Assess(nodes, g, c, p, false);
            var here := c.node in nodes && nodes[c.node].LiveAt(p) && nodes[c.node].repo == c.repo;
            var scaled := here && (c.repo, c.gate) in g.declared
                          && g.declared[(c.repo, c.gate)] == nodes[c.node].kind;
            && (!here ==> r == Some(Refusal("refusal.gate-repair-subject", [c.node, c.repo])))
            && (r.Some? && r.value.code == "refusal.gate-repair-scale" <==> here && !scaled)
            && (r.Some? && r.value.code == "refusal.gate-repair-lifecycle" <==> scaled && g.Phase(c.node) != Done)
            && (r.Some? && r.value.code == "refusal.gate-already-satisfied" <==>
                  scaled && g.Phase(c.node) == Done && (c.node, c.gate) in g.states)
            && (r.Some? && r.value.code == "refusal.gate-repair-prerequisite" ==>
                  && |r.value.detail| == 4 && r.value.detail[..2] == [c.node, c.gate]
                  && AtOrAbove(nodes, c.node, r.value.detail[3])
                  && Unmet(nodes, WithExemption(g, c), r.value.detail[3], r.value.detail[2])
                  && forall gate | Unmet(nodes, WithExemption(g, c), r.value.detail[3], gate) ::
                       Leq(r.value.detail[2], gate))
  {
    if c.node in nodes && nodes[c.node].repo == c.repo {
      WalkCodes(nodes, g, c, c.node, p);
      if Walk(nodes, g, c, c.node, p).Some?
         && Walk(nodes, g, c, c.node, p).value.code == "refusal.gate-repair-prerequisite" {
        WalkNames(nodes, g, c, c.node, p);
      }
    }
  }

  lemma {:induction false} WalkCodes(nodes: map<Id, Node>, g: Gated, c: Command, id: Id, p: nat)
    requires WellFormed(nodes) && id in nodes
    ensures Walk(nodes, g, c, id, p).Some? ==>
              Walk(nodes, g, c, id, p).value.code in {"refusal.gate-repair-subject", "refusal.gate-repair-prerequisite"}
    decreases 2 - nodes[id].kind.Rank()
  {
    if nodes[id].parent.Some? {
      WalkCodes(nodes, g, c, nodes[id].parent.value, p);
    }
  }

  // ---------------------------------------------------------------- the guard and the completion in place

  lemma SmallestIs(s: set<Id>, x: Id)
    requires IsSmallest(s, x)
    ensures x == Smallest(s)
  {
    LeqAntisymmetric(x, Smallest(s));
  }

  function OpenAmong(g: Gated, c: Command, id: Id, node: Node, ds: set<(Id, Id)>): set<Id> {
    set d | d in ds && Open(g, c, id, node, d) :: d.1
  }

  lemma OpenAmongGrows(g: Gated, c: Command, id: Id, node: Node, ds: set<(Id, Id)>, d: (Id, Id))
    ensures OpenAmong(g, c, id, node, ds + {d})
            == OpenAmong(g, c, id, node, ds) + if Open(g, c, id, node, d) then {d.1} else {}
  {
    var more := OpenAmong(g, c, id, node, ds + {d});
    forall x | x in OpenAmong(g, c, id, node, ds)
      ensures x in more
    {
      var e :| e in ds && Open(g, c, id, node, e) && e.1 == x;
      assert e in ds + {d};
    }
    if Open(g, c, id, node, d) {
      assert d in ds + {d};
    }
  }

  ghost predicate IsBest(seen: set<Id>, best: Option<Id>) {
    if seen == {} then best.None? else best.Some? && IsSmallest(seen, best.value)
  }

  function Better(g: Gated, c: Command, id: Id, node: Node, d: (Id, Id), best: Option<Id>): Option<Id> {
    if !Open(g, c, id, node, d) then best
    else if best.None? || Leq(d.1, best.value) then Some(d.1) else best
  }

  /** The best gate of one more declaration. */
  lemma BestSoFar(g: Gated, c: Command, id: Id, node: Node, done: set<(Id, Id)>, d: (Id, Id), best: Option<Id>)
    requires IsBest(OpenAmong(g, c, id, node, done), best)
    ensures IsBest(OpenAmong(g, c, id, node, done + {d}), Better(g, c, id, node, d, best))
  {
    OpenAmongGrows(g, c, id, node, done, d);
    if Open(g, c, id, node, d) {
      LeqTotal(d.1, d.1);
      if best.Some? {
        LeqTotal(d.1, best.value);
        if Leq(d.1, best.value) {
          SmallestJoins(OpenAmong(g, c, id, node, done), best.value, d.1);
        }
      }
    }
  }

  lemma BestIsFirst(g: Gated, c: Command, id: Id, node: Node, best: Option<Id>)
    requires IsBest(OpenAmong(g, c, id, node, g.declared.Keys), best)
    ensures best == if Requirements(g, c, id, node) == {} then None else Some(Smallest(Requirements(g, c, id, node)))
  {
    assert OpenAmong(g, c, id, node, g.declared.Keys) == Requirements(g, c, id, node);
    if best.Some? {
      SmallestIs(Requirements(g, c, id, node), best.value);
    }
  }

  /** The first open gate a node still has to meet, in gate order. */
  method FirstOpen(g: Gated, c: Command, id: Id, node: Node) returns (gate: Option<Id>)
    ensures gate == if Requirements(g, c, id, node) == {} then None else Some(Smallest(Requirements(g, c, id, node)))
  {
    gate := None;
    var done: set<(Id, Id)> := {};
    var left := g.declared.Keys;
    while left != {}
      invariant done + left == g.declared.Keys && IsBest(OpenAmong(g, c, id, node, done), gate)
      decreases |left|
    {
      var d :| d in left;
      BestSoFar(g, c, id, node, done, d, gate);
      gate := Better(g, c, id, node, d, gate);
      done, left := done + {d}, left - {d};
    }
    assert done == g.declared.Keys;
    BestIsFirst(g, c, id, node, gate);
  }

  /** assessGateExemptionRepair: the guards, then the loop up the ancestors. */
  method AssessRepair(nodes: map<Id, Node>, g: Gated, c: Command, position: nat, allowExisting: bool)
    returns (refusal: Option<Refusal>)
    requires WellFormed(nodes)
    ensures refusal == Assess(nodes, g, c, position, allowExisting)
  {
    if c.node !in nodes || !nodes[c.node].LiveAt(position) || nodes[c.node].repo != c.repo {
      return Some(Refusal("refusal.gate-repair-subject", [c.node, c.repo]));
    }
    if (c.repo, c.gate) !in g.declared || g.declared[(c.repo, c.gate)] != nodes[c.node].kind {
      return Some(Refusal("refusal.gate-repair-scale", [c.gate, c.repo]));
    }
    if g.Phase(c.node) != Done {
      return Some(Refusal("refusal.gate-repair-lifecycle", [c.node, c.gate]));
    }
    if (c.node, c.gate) in g.states {
      return if g.states[(c.node, c.gate)] == Exempt && allowExisting then None
             else Some(Refusal("refusal.gate-already-satisfied", [c.gate, c.node]));
    }
    var current := c.node;
    while true
      invariant current in nodes && Walk(nodes, g, c, c.node, position) == Walk(nodes, g, c, current, position)
      decreases 2 - nodes[current].kind.Rank()
    {
      if !nodes[current].LiveAt(position) || nodes[current].repo != c.repo {
        return Some(Refusal("refusal.gate-repair-subject", [current, c.repo]));
      }
      var gate := FirstOpen(g, c, current, nodes[current]);
      if gate.Some? {
        return Some(Refusal("refusal.gate-repair-prerequisite", [c.node, c.gate, gate.value, current]));
      }
      if nodes[current].parent.None? {
        return None;
      }
      current := nodes[current].parent.value;
    }
  }

  class RepairStore {
    var nodes: map<Id, Node>
    var log: seq<Event>
    var terminals: map<Id, Terminal>

    ghost function View(): Store
      reads this
    {
      Store(nodes, log)
    }

    /** completeGateRepair: a retained terminal is returned again; None is an error, which
        leaves everything as it was. */
    method CompleteRepair(c: Command, event: EventId) returns (terminal: Option<Terminal>)
      requires StoreOk(View())
      modifies this`log, this`terminals
      ensures c.id in old(terminals) ==>
                terminal == if old(terminals)[c.id].command == c then Some(old(terminals)[c.id]) else None
      ensures c.id !in old(terminals) ==>
                (terminal.Some? <==>
                   && c.boundary <= |old(log)| && Admitted(old(nodes), c)
                   && var decision := Decide(old(nodes), old(log), c, |old(log)|);
                      decision != Broken && (decision == WriteEvent ==> event > 0))
      ensures c.id !in old(terminals) && terminal.Some? ==>
                && CompleteStep(old(View()), c, event, View(), terminal.value)
                && terminals == old(terminals)[c.id := terminal.value]
      ensures c.id in old(terminals) || terminal.None? ==> View() == old(View()) && terminals == old(terminals)
    {
      if c.id in terminals {
        return if terminals[c.id].command == c then Some(terminals[c.id]) else None;
      }
      if c.boundary > |log| || !Admitted(nodes, c) {
        return None;
      }
      var observed := |log|;
      var now := Derive(nodes, log[..observed]);
      var boundary := Derive(nodes, log[..c.boundary]);
      if now.None? || boundary.None? {
        return None;
      }
      var refusal := AssessRepair(nodes, now.value, c, observed, true);
      var existing := (c.node, c.gate) in now.value.states && now.value.states[(c.node, c.gate)] == Exempt;
      if refusal.None? && !existing {
        refusal := AssessRepair(nodes, boundary.value, c, c.boundary, false);
        if refusal.None? {
          if event == 0 {
            return None;
          }
          log := log + [RepairEvent(c, event)];
          terminal := Some(Terminal(c, observed, None, event));
          terminals := terminals[c.id := terminal.value];
          return;
        }
      }
      terminal := Some(Terminal(c, observed, refusal, 0));
      terminals := terminals[c.id := terminal.value];
    }
  }
}
