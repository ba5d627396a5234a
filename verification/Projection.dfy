/** The gate and lifecycle projection: a fold of the event log over the node table,
    and the sealing test that walks a node's ancestors. */
module Projection {
  import opened Common
  import opened Nodes

  datatype Phase = Planned | InProgress | Paused | Done | Canceled

  datatype Verb = Started | Finished | PausedVerb | Resumed | CanceledVerb {
    function From(): Phase {
      match this
      case Started => Planned
      case Resumed => Paused
      case _ => InProgress
    }

    function To(): Phase {
      match this
      case Started => InProgress
      case Finished => Done
      case PausedVerb => Paused
      case Resumed => InProgress
      case CanceledVerb => Canceled
    }
  }

  /** The event kinds the modelled folds read, with their payloads. */
  datatype Body =
    | Lifecycle(scale: Kind, verb: Verb, cascade: bool, cause: EventId)
    | GateDeclared(gate: Id, at: Kind, exempt: seq<Id>)
    | GateClosed(gate: Id, at: Kind)
    | GateDismissed(gate: Id, at: Kind, reason: string)
    | GateRepaired(gate: Id)
    | BatchAnonymous(matter: Id)
    | BatchNamed
    | BatchSwept
    | BatchDismissed
    | RunStarted(batchId: Id, batch: Id)
    | RunEnded
    | DispatchOpened(batchId: Id, matterId: Id, matter: Id, run: Id)
    | DispatchClosed
    | RoleSpawned(dispatch: Id, dispatchId: Id)
    | RoleClosed
    | ClaimReleased(claim: Id)
    | OtherBody

  datatype Event = Event(id: EventId, command: Id, repo: Id, subject: Id, body: Body)

  datatype GateState = Closed | Dismissed | Exempt

  /** phases holds the nodes that moved; any other node is planned. */
  datatype Gated = Gated(phases: map<Id, Phase>, declared: map<(Id, Id), Kind>, states: map<(Id, Id), GateState>) {
    function Phase(id: Id): Phase {
      if id in phases then phases[id] else Planned
    }
  }

  /** The node existed before the event and is live at it. */
  predicate Known(nodes: map<Id, Node>, id: Id, repo: Id, position: nat) {
    id in nodes && nodes[id].repo == repo && nodes[id].birth < position && nodes[id].LiveAt(position)
  }

  predicate ExemptOk(nodes: map<Id, Node>, g: Gated, e: Event, position: nat)
    requires e.body.GateDeclared?
  {
    && (forall i | 0 <= i < |e.body.exempt| ::
          && Known(nodes, e.body.exempt[i], e.repo, position) && nodes[e.body.exempt[i]].kind == e.body.at
          && (e.body.exempt[i], e.body.gate) !in g.states)
    && (forall i, k | 0 <= i < k < |e.body.exempt| :: e.body.exempt[i] != e.body.exempt[k])
  }

  function Exempted(states: map<(Id, Id), GateState>, gate: Id, exempt: seq<Id>): map<(Id, Id), GateState> {
    if exempt == [] then states
    else Exempted(states, gate, exempt[..|exempt| - 1])[(exempt[|exempt| - 1], gate) := Exempt]
  }

  /** A gate event on a node needs the gate declared at the node's scale and no
      earlier state for the pair. */
  predicate GateEventOk(nodes: map<Id, Node>, g: Gated, e: Event, gate: Id, position: nat) {
    && Known(nodes, e.subject, e.repo, position)
    && (e.repo, gate) in g.declared && g.declared[(e.repo, gate)] == nodes[e.subject].kind
    && (e.subject, gate) !in g.states
  }

  function FoldEvent(nodes: map<Id, Node>, g: Gated, e: Event, position: nat): Option<Gated> {
    match e.body
    case Lifecycle(scale, verb, _, _) =>
      if Known(nodes, e.subject, e.repo, position) && nodes[e.subject].kind == scale
         && g.Phase(e.subject) == verb.From()
      then Some(g.(phases := g.phases[e.subject := verb.To()])) else None
    case GateDeclared(gate, at, exempt) =>
      if e.subject == e.repo && gate != "" && (e.repo, gate) !in g.declared && ExemptOk(nodes, g, e, position)
      then Some(g.(declared := g.declared[(e.repo, gate) := at], states := Exempted(g.states, gate, exempt))) else None
    case GateClosed(gate, at) =>
      if GateEventOk(nodes, g, e, gate, position) && nodes[e.subject].kind == at
      then Some(g.(states := g.states[(e.subject, gate) := Closed])) else None
    case GateDismissed(gate, at, reason) =>
      if GateEventOk(nodes, g, e, gate, position) && nodes[e.subject].kind == at && reason != ""
         && g.Phase(e.subject) == Done
      then Some(g.(states := g.states[(e.subject, gate) := Dismissed])) else None
    case GateRepaired(gate) =>
      if GateEventOk(nodes, g, e, gate, position)
      then Some(g.(states := g.states[(e.subject, gate) := Exempt])) else None
    case _ => Some(g)
  }

  /** The event at index i has position i + 1. */
  function Fold(nodes: map<Id, Node>, log: seq<Event>): Option<Gated> {
    if log == [] then Some(Gated(map[], map[], map[]))
    else
      match Fold(nodes, log[..|log| - 1])
      case None => None
      case Some(g) => FoldEvent(nodes, g, log[|log| - 1], |log|)
  }

  /** The loop form of the fold. */
  method Derive(nodes: map<Id, Node>, log: seq<Event>) returns (r: Option<Gated>)
    ensures r == Fold(nodes, log)
  {
    var g := Gated(map[], map[], map[]);
    for i := 0 to |log|
      invariant Fold(nodes, log[..i]) == Some(g)
    {
      assert log[..i + 1][..i] == log[..i];
      var next := FoldEvent(nodes, g, log[i], i + 1);
      if next.None? {
        FoldStops(nodes, log, i + 1);
        return None;
      }
      g := next.value;
    }
    assert log[..|log|] == log;
    r := Some(g);
  }

  lemma {:induction false} FoldStops(nodes: map<Id, Node>, log: seq<Event>, p: nat)
    requires p <= |log| && Fold(nodes, log[..p]).None?
    ensures Fold(nodes, log).None?
    decreases |log| - p
  {
    if p == |log| {
      assert log[..p] == log;
    } else {
      assert log[..p + 1][..p] == log[..p];
      FoldStops(nodes, log, p + 1);
    }
  }

  lemma FoldAppend(nodes: map<Id, Node>, log: seq<Event>, e: Event)
    requires Fold(nodes, log).Some?
    ensures Fold(nodes, log + [e]) == FoldEvent(nodes, Fold(nodes, log).value, e, |log| + 1)
  {
    assert (log + [e])[..|log|] == log;
  }

  // ---------------------------------------------------------------- stability

  lemma KnownStable(nodes: map<Id, Node>, later: map<Id, Node>, id: Id, repo: Id, p: nat, q: nat)
    requires GrowsAfter(nodes, later, q) && p <= q
    ensures Known(nodes, id, repo, p) == Known(later, id, repo, p)
    ensures Known(nodes, id, repo, p) ==> nodes[id].kind == later[id].kind
  {
    if id in later {
      if id in nodes {
        assert later[id] == nodes[id].(tombstone := later[id].tombstone);
      } else {
        assert later[id].birth > q;
      }
    }
  }

  lemma FoldEventStable(nodes: map<Id, Node>, later: map<Id, Node>, g: Gated, e: Event, p: nat, q: nat)
    requires GrowsAfter(nodes, later, q) && p <= q
    ensures FoldEvent(nodes, g, e, p) == FoldEvent(later, g, e, p)
  {
    KnownStable(nodes, later, e.subject, e.repo, p, q);
    if e.body.GateDeclared? {
      forall i | 0 <= i < |e.body.exempt|
        ensures Known(nodes, e.body.exempt[i], e.repo, p) == Known(later, e.body.exempt[i], e.repo, p)
        ensures Known(nodes, e.body.exempt[i], e.repo, p)
                ==> nodes[e.body.exempt[i]].kind == later[e.body.exempt[i]].kind
      {
        KnownStable(nodes, later, e.body.exempt[i], e.repo, p, q);
      }
      assert ExemptOk(nodes, g, e, p) == ExemptOk(later, g, e, p);
    }
  }

  /** Births and tombstones after position q never change the projection of a log
      that ends at or before it, accepted or not. */
  lemma {:induction false} FoldStable(nodes: map<Id, Node>, later: map<Id, Node>, log: seq<Event>, q: nat)
    requires GrowsAfter(nodes, later, q) && |log| <= q
    ensures Fold(nodes, log) == Fold(later, log)
  {
    if log != [] {
      FoldStable(nodes, later, log[..|log| - 1], q);
      var before := Fold(nodes, log[..|log| - 1]);
      if before.Some? {
        FoldEventStable(nodes, later, before.value, log[|log| - 1], |log|, q);
      }
    }
  }

  // ---------------------------------------------------------------- sealing

  /** Every gate its Repo declares at the node's scale has a state on the node. */
  ghost predicate GatesMet(g: Gated, id: Id, node: Node) {
    forall repo, gate | (repo, gate) in g.declared && repo == node.repo && g.declared[(repo, gate)] == node.kind ::
      (id, gate) in g.states
  }

  /** The node and all its ancestors are live and meet their gates. */
  ghost predicate ChainMet(nodes: map<Id, Node>, g: Gated, id: Id, position: nat)
    requires WellFormed(nodes) && id in nodes
    decreases 2 - nodes[id].kind.Rank()
  {
    && nodes[id].LiveAt(position) && GatesMet(g, id, nodes[id])
    && (nodes[id].parent.Some? ==> ChainMet(nodes, g, nodes[id].parent.value, position))
  }

  ghost predicate Sealed(nodes: map<Id, Node>, g: Gated, id: Id, position: nat)
    requires WellFormed(nodes)
  {
    id in nodes && g.Phase(id) == Done && ChainMet(nodes, g, id, position)
  }

  /** The walk of step13Sealed. */
  method IsSealed(nodes: map<Id, Node>, g: Gated, id: Id, position: nat) returns (r: bool)
    requires WellFormed(nodes)
    ensures r == Sealed(nodes, g, id, position)
  {
    if id !in nodes || g.Phase(id) != Done || !nodes[id].LiveAt(position) {
      return false;
    }
    var current := id;
    while true
      invariant current in nodes && nodes[current].LiveAt(position)
      invariant ChainMet(nodes, g, id, position) == ChainMet(nodes, g, current, position)
      decreases 2 - nodes[current].kind.Rank()
    {
      var met := MeetsGates(g, current, nodes[current]);
      if !met {
        return false;
      }
      if nodes[current].parent.None? {
        return true;
      }
      current := nodes[current].parent.value;
      if !nodes[current].LiveAt(position) {
        return false;
      }
    }
  }

  method MeetsGates(g: Gated, id: Id, node: Node) returns (r: bool)
    ensures r == GatesMet(g, id, node)
  {
    var left := g.declared.Keys;
    while left != {}
      invariant left <= g.declared.Keys
      invariant forall repo, gate | (repo, gate) in g.declared && (repo, gate) !in left
                  && repo == node.repo && g.declared[(repo, gate)] == node.kind :: (id, gate) in g.states
      decreases left
    {
      var d :| d in left;
      left := left - {d};
      if d.0 == node.repo && g.declared[d] == node.kind && (id, d.1) !in g.states {
        assert (d.0, d.1) in g.declared;
        return false;
      }
    }
    r := true;
  }

  /** A sealing decision at p is unchanged by anything after q >= p. */
  lemma {:induction false} ChainStable(nodes: map<Id, Node>, later: map<Id, Node>, g: Gated, id: Id, p: nat, q: nat)
    requires WellFormed(nodes) && WellFormed(later) && GrowsAfter(nodes, later, q) && p <= q && id in nodes
    ensures ChainMet(nodes, g, id, p) == ChainMet(later, g, id, p)
    decreases 2 - nodes[id].kind.Rank()
  {
    assert later[id] == nodes[id].(tombstone := later[id].tombstone);
    assert GatesMet(g, id, nodes[id]) == GatesMet(g, id, later[id]);
    if nodes[id].parent.Some? {
      ChainStable(nodes, later, g, nodes[id].parent.value, p, q);
    }
  }

  // ---------------------------------------------------------------- facts about accepted folds

  /** Only nodes born before position have moved, and states belong to declared gates. */
  ghost predicate GatedOk(nodes: map<Id, Node>, g: Gated, position: nat) {
    && (forall id | id in g.phases :: id in nodes && nodes[id].birth <= position)
    && (forall id, gate | (id, gate) in g.states ::
          id in nodes && nodes[id].birth <= position && (nodes[id].repo, gate) in g.declared)
  }

  lemma {:induction false} ExemptedStates(states: map<(Id, Id), GateState>, gate: Id, exempt: seq<Id>)
    ensures forall id, h ::
              (id, h) in Exempted(states, gate, exempt) <==> (id, h) in states || (h == gate && id in exempt)
    ensures forall id, h | (id, h) in states && !(h == gate && id in exempt) ::
              (id, h) in Exempted(states, gate, exempt) && Exempted(states, gate, exempt)[(id, h)] == states[(id, h)]
  {
    if exempt != [] {
      var n := |exempt| - 1;
      ExemptedStates(states, gate, exempt[..n]);
      assert exempt == exempt[..n] + [exempt[n]];
    }
  }

  lemma FoldEventOk(nodes: map<Id, Node>, g: Gated, e: Event, p: nat)
    requires p > 0 && GatedOk(nodes, g, p - 1) && FoldEvent(nodes, g, e, p).Some?
    ensures GatedOk(nodes, FoldEvent(nodes, g, e, p).value, p)
  {
    if e.body.GateDeclared? {
      ExemptedStates(g.states, e.body.gate, e.body.exempt);
    }
  }

  lemma {:induction false} FoldOk(nodes: map<Id, Node>, log: seq<Event>)
    requires Fold(nodes, log).Some?
    ensures GatedOk(nodes, Fold(nodes, log).value, |log|)
  {
    if log != [] {
      FoldOk(nodes, log[..|log| - 1]);
      FoldEventOk(nodes, Fold(nodes, log[..|log| - 1]).value, log[|log| - 1], |log|);
    }
  }

  /** Every gate row of g is in h unchanged. */
  ghost predicate RowsKept(g: Gated, h: Gated) {
    && (forall d | d in g.declared :: d in h.declared && h.declared[d] == g.declared[d])
    && (forall d | d in g.states :: d in h.states && h.states[d] == g.states[d])
  }

  lemma FoldEventKeepsRows(nodes: map<Id, Node>, g: Gated, e: Event, p: nat)
    requires FoldEvent(nodes, g, e, p).Some?
    ensures RowsKept(g, FoldEvent(nodes, g, e, p).value)
  {
    if e.body.GateDeclared? {
      var gate, exempt := e.body.gate, e.body.exempt;
      ExemptedStates(g.states, gate, exempt);
      forall d | d in g.states
        ensures d in Exempted(g.states, gate, exempt) && Exempted(g.states, gate, exempt)[d] == g.states[d]
      {
        assert d == (d.0, d.1);
        assert !(d.1 == gate && d.0 in exempt);
      }
    }
  }

  /** Gate rows are written once: those of a prefix are in the tables for good, so the
      rows whose events lie before a position are the fold of the log before it. */
  lemma {:induction false} RowsStay(nodes: map<Id, Node>, log: seq<Event>, p: nat)
    requires Fold(nodes, log).Some? && p <= |log|
    ensures Fold(nodes, log[..p]).Some? && RowsKept(Fold(nodes, log[..p]).value, Fold(nodes, log).value)
  {
    if p == |log| {
      assert log[..p] == log;
    } else {
      var before := log[..|log| - 1];
      RowsStay(nodes, before, p);
      assert before[..p] == log[..p];
      FoldEventKeepsRows(nodes, Fold(nodes, before).value, log[|log| - 1], |log|);
    }
  }

  // ---------------------------------------------------------------- lifecycle state read straight from the log

  predicate Moves(e: Event, id: Id, scale: Kind) {
    e.subject == id && e.body.Lifecycle? && e.body.scale == scale
  }

  /** The last transition of the node at its scale, planned when there is none. */
  function StateOf(log: seq<Event>, id: Id, scale: Kind): Phase {
    if log == [] then Planned
    else if Moves(log[|log| - 1], id, scale) then log[|log| - 1].body.verb.To()
    else StateOf(log[..|log| - 1], id, scale)
  }

  /** lifecycleStateTx: one forward pass over the whole log. */
  method LifecycleState(log: seq<Event>, id: Id, scale: Kind) returns (state: Phase)
    ensures state == StateOf(log, id, scale)
  {
    state := Planned;
    for i := 0 to |log|
      invariant state == StateOf(log[..i], id, scale)
    {
      assert log[..i + 1][..i] == log[..i];
      if Moves(log[i], id, scale) {
        state := log[i].body.verb.To();
      }
    }
    assert log[..|log|] == log;
  }

  /** On an accepted log the direct reading and the projection agree. */
  lemma {:induction false} StateIsPhase(nodes: map<Id, Node>, log: seq<Event>, id: Id)
    requires Fold(nodes, log).Some? && id in nodes
    ensures StateOf(log, id, nodes[id].kind) == Fold(nodes, log).value.Phase(id)
  {
    if log != [] {
      StateIsPhase(nodes, log[..|log| - 1], id);
    }
  }

  // ---------------------------------------------------------------- which logs are accepted, by their events

  /** The event gives the gate a state on the node: it closes, dismisses or repairs it
      there, or declares it with the node exempt. */
  predicate Settles(e: Event, id: Id, gate: Id) {
    match e.body
    case GateClosed(x, _) => e.subject == id && x == gate
    case GateDismissed(x, _, _) => e.subject == id && x == gate
    case GateRepaired(x) => e.subject == id && x == gate
    case GateDeclared(x, _, exempt) => x == gate && id in exempt
    case _ => false
  }

  ghost predicate Settled(log: seq<Event>, id: Id, gate: Id) {
    exists i :: 0 <= i < |log| && Settles(log[i], id, gate)
  }

  /** The Repo declared the gate at the scale. */
  ghost predicate DeclaredAt(log: seq<Event>, repo: Id, gate: Id, scale: Kind) {
    exists i :: 0 <= i < |log| && log[i].repo == repo && log[i].body.GateDeclared?
                && log[i].body.gate == gate && log[i].body.at == scale
  }

  /** The node is in the Repo, was born before the position and is live at it. */
  ghost predicate Present(nodes: map<Id, Node>, id: Id, repo: Id, position: nat) {
    && id in nodes && nodes[id].repo == repo && nodes[id].birth < position
    && (nodes[id].tombstone == 0 || nodes[id].tombstone > position)
  }

  /** The gate awaits a state on the present node. */
  ghost predicate Awaits(nodes: map<Id, Node>, prefix: seq<Event>, e: Event, gate: Id) {
    && Present(nodes, e.subject, e.repo, |prefix| + 1)
    && DeclaredAt(prefix, e.repo, gate, nodes[e.subject].kind) && !Settled(prefix, e.subject, gate)
  }

  /** What the projection asks of an event after the prefix. */
  ghost predicate Legal(nodes: map<Id, Node>, prefix: seq<Event>, e: Event) {
    match e.body
    case Lifecycle(scale, verb, _, _) =>
      && Present(nodes, e.subject, e.repo, |prefix| + 1) && nodes[e.subject].kind == scale
      && StateOf(prefix, e.subject, scale)
         == (match verb case Started => Planned case Resumed => Paused case _ => InProgress)
    case GateDeclared(gate, at, exempt) =>
      && e.subject == e.repo && gate != "" && (forall scale :: !DeclaredAt(prefix, e.repo, gate, scale))
      && (forall i, k | 0 <= i < k < |exempt| :: exempt[i] != exempt[k])
      && (forall i | 0 <= i < |exempt| ::
            && Present(nodes, exempt[i], e.repo, |prefix| + 1) && nodes[exempt[i]].kind == at
            && !Settled(prefix, exempt[i], gate))
    case GateClosed(gate, at) => Awaits(nodes, prefix, e, gate) && nodes[e.subject].kind == at
    case GateDismissed(gate, at, reason) =>
      && Awaits(nodes, prefix, e, gate) && nodes[e.subject].kind == at && reason != ""
      && StateOf(prefix, e.subject, at) == Done
    case GateRepaired(gate) => Awaits(nodes, prefix, e, gate)
    case _ => true
  }

  /** The gate tables are what the events say. */
  ghost predicate Told(g: Gated, log: seq<Event>) {
    && (forall id, gate :: (id, gate) in g.states <==> Settled(log, id, gate))
    && (forall repo, gate, scale ::
          (repo, gate) in g.declared && g.declared[(repo, gate)] == scale <==> DeclaredAt(log, repo, gate, scale))
  }

  lemma SettledAppend(log: seq<Event>, e: Event, id: Id, gate: Id)
    ensures Settled(log + [e], id, gate) <==> Settled(log, id, gate) || Settles(e, id, gate)
  {
    var all := log + [e];
    assert all[|log|] == e && forall i | 0 <= i < |log| :: all[i] == log[i];
    if Settled(log, id, gate) {
      var i :| 0 <= i < |log| && Settles(log[i], id, gate);
      assert Settles(all[i], id, gate);
    }
  }

  lemma DeclaredAppend(log: seq<Event>, e: Event, repo: Id, gate: Id, scale: Kind)
    ensures DeclaredAt(log + [e], repo, gate, scale) <==>
              || DeclaredAt(log, repo, gate, scale)
              || (e.repo == repo && e.body.GateDeclared? && e.body.gate == gate && e.body.at == scale)
  {
    var all := log + [e];
    assert all[|log|] == e && forall i | 0 <= i < |log| :: all[i] == log[i];
    if DeclaredAt(log, repo, gate, scale) {
      var i :| 0 <= i < |log| && log[i].repo == repo && log[i].body.GateDeclared? && log[i].body.gate == gate
               && log[i].body.at == scale;
      assert all[i].body.gate == gate;
    }
  }

  lemma StatesTold(nodes: map<Id, Node>, g: Gated, log: seq<Event>, e: Event, id: Id, gate: Id)
    requires Told(g, log) && FoldEvent(nodes, g, e, |log| + 1).Some?
    ensures (id, gate) in FoldEvent(nodes, g, e, |log| + 1).value.states <==> Settled(log + [e], id, gate)
  {
    SettledAppend(log, e, id, gate);
    if e.body.GateDeclared? {
      ExemptedStates(g.states, e.body.gate, e.body.exempt);
    }
  }

  lemma DeclarationsTold(nodes: map<Id, Node>, g: Gated, log: seq<Event>, e: Event, repo: Id, gate: Id, scale: Kind)
    requires Told(g, log) && FoldEvent(nodes, g, e, |log| + 1).Some?
    ensures var h := FoldEvent(nodes, g, e, |log| + 1).value;
            (repo, gate) in h.declared && h.declared[(repo, gate)] == scale
            <==> DeclaredAt(log + [e], repo, gate, scale)
  {
    DeclaredAppend(log, e, repo, gate, scale);
    if e.body.GateDeclared? && (repo, gate) == (e.repo, e.body.gate) {
      assert (repo, gate) !in g.declared;
    }
  }

  lemma ToldAppend(nodes: map<Id, Node>, g: Gated, log: seq<Event>, e: Event)
    requires Told(g, log) && FoldEvent(nodes, g, e, |log| + 1).Some?
    ensures Told(FoldEvent(nodes, g, e, |log| + 1).value, log + [e])
  {
    forall id, gate
      ensures (id, gate) in FoldEvent(nodes, g, e, |log| + 1).value.states <==> Settled(log + [e], id, gate)
    {
      StatesTold(nodes, g, log, e, id, gate);
    }
    forall repo, gate, scale
      ensures var h := FoldEvent(nodes, g, e, |log| + 1).value;
              (repo, gate) in h.declared && h.declared[(repo, gate)] == scale
              <==> DeclaredAt(log + [e], repo, gate, scale)
    {
      DeclarationsTold(nodes, g, log, e, repo, gate, scale);
    }
  }

  /** On an accepted prefix the fold takes an event exactly when it is legal there. */
  lemma LegalExactly(nodes: map<Id, Node>, prefix: seq<Event>, e: Event, g: Gated)
    requires Fold(nodes, prefix) == Some(g) && Told(g, prefix)
    ensures FoldEvent(nodes, g, e, |prefix| + 1).Some? <==> Legal(nodes, prefix, e)
  {
    if e.subject in nodes {
      StateIsPhase(nodes, prefix, e.subject);
    }
    if e.body.GateDeclared? && (e.repo, e.body.gate) in g.declared {
      assert DeclaredAt(prefix, e.repo, e.body.gate, g.declared[(e.repo, e.body.gate)]);
    }
  }

  ghost predicate LegalAt(nodes: map<Id, Node>, log: seq<Event>, i: nat)
    requires i < |log|
  {
    Legal(nodes, log[..i], log[i])
  }

  /** A log is accepted exactly when each of its events is legal where it stands, and then
      the gate tables hold exactly the states and declarations the events made. */
  lemma {:induction false} LogAcceptedExactly(nodes: map<Id, Node>, log: seq<Event>)
    ensures Fold(nodes, log).Some? <==> forall i | 0 <= i < |log| :: LegalAt(nodes, log, i)
    ensures Fold(nodes, log).Some? ==> Told(Fold(nodes, log).value, log)
  {
    if log != [] {
      var n := |log| - 1;
      var before, e := log[..n], log[n];
      assert log == before + [e];
      LogAcceptedExactly(nodes, before);
      assert forall i | 0 <= i < n :: before[..i] == log[..i] && before[i] == log[i];
      assert forall i | 0 <= i < n :: LegalAt(nodes, before, i) == LegalAt(nodes, log, i);
      if Fold(nodes, before).Some? {
        LegalExactly(nodes, before, e, Fold(nodes, before).value);
        assert LegalAt(nodes, log, n) == Legal(nodes, before, e);
        if FoldEvent(nodes, Fold(nodes, before).value, e, |log|).Some? {
          ToldAppend(nodes, Fold(nodes, before).value, before, e);
        }
      }
    }
  }
}
