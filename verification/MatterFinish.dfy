/** Finishing a Matter: the writer records whether the finish sealed it, and the reopen
    check recomputes that from the prefix, after a scan of the Matter's whole subtree
    that cannot bear a node born later. Most births under a finished Matter are refused;
    those of step.create v1 are not, and decide whether the finish stays accepted. */
module MatterFinish {
  import opened Common
  import opened Nodes
  import opened Order
  import opened Projection
  import L = Lifecycle

  /** A committed matter.finish: its events and the sealing it reported. */
  datatype Finish = Record(command: L.Command, first: nat, last: nat, sealed: bool)

  /** open: the Matters whose birth journal is open. */
  datatype Store = Store(life: L.Store, finishes: map<Id, Finish>, open: set<Id>)

  predicate IsFinish(c: L.Command) {
    c.verb == Finished && c.scale == Matter
  }

  /** step13ProjectedSealed: the gate rows whose events lie before the finish, with the
      Matter taken as done. */
  ghost predicate SealedBy(nodes: map<Id, Node>, prefix: seq<Event>, m: Id)
    requires WellFormed(nodes)
  {
    && Fold(nodes, prefix).Some?
    && Sealed(nodes, Fold(nodes, prefix).value.(phases := map[m := Done]), m, |prefix| + 1)
  }

  /** completeM6LifecycleTx for matter.finish. */
  ghost function FinishMatter(s: Store, c: L.Command): (Store, L.Outcome)
    requires WellFormed(s.life.nodes)
  {
    var (life, outcome) := L.Complete(s.life, c);
    if outcome != L.Committed then (s, outcome)
    else
      var sealed := SealedBy(s.life.nodes, s.life.log, c.target);
      (Store(life, s.finishes[c.id := Record(c, |s.life.log| + 1, |life.log|, sealed)], s.open), outcome)
  }

  // ---------------------------------------------------------------- the reopen check

  datatype Verdict = Whole | Partial | Broken

  function Subtree(nodes: map<Id, Node>, m: Id): set<Id>
    requires WellFormed(nodes)
  {
    set id | id in nodes && L.IsAncestor(nodes, m, id)
  }

  /** The scan ends at a node born after p, or live at p and not done. */
  predicate Ends(nodes: map<Id, Node>, prefix: seq<Event>, p: nat, id: Id)
    requires id in nodes
  {
    nodes[id].birth > p || (nodes[id].LiveAt(p) && StateOf(prefix, id, nodes[id].kind) != Done)
  }

  ghost function Ending(nodes: map<Id, Node>, prefix: seq<Event>, m: Id, p: nat): set<Id>
    requires WellFormed(nodes)
  {
    set id | id in Subtree(nodes, m) && Ends(nodes, prefix, p, id)
  }

  /** matterSubtreeCompleteBefore: the first node in id order at which the scan ends
      decides; one born later breaks the check. */
  ghost function Scan(nodes: map<Id, Node>, prefix: seq<Event>, m: Id, p: nat): Verdict
    requires WellFormed(nodes)
  {
    var ending := Ending(nodes, prefix, m, p);
    if ending == {} then Whole
    else if nodes[Smallest(ending)].birth > p then Broken
    else Partial
  }

  /** matterFinishHistoryMatches: the reported sealing and the events of one contract. */
  predicate Matches(m: Id, events: seq<Event>, sealed: bool, expected: bool, swept: Option<Id>) {
    && sealed == expected && |events| == (if swept.Some? then 2 else 1)
    && events[0].subject == m && events[0].body == Lifecycle(Matter, Finished, false, 0)
    && (swept.Some? ==> events[1].subject == swept.value && events[1].body == BatchSwept)
  }

  /** The check of one matter.finish, by the current contract or the legacy one, under
      which the finish of a whole subtree swept the Matter's anonymous Batch. */
  ghost predicate Accepts(nodes: map<Id, Node>, log: seq<Event>, f: Finish, batch: Option<Id>)
    requires WellFormed(nodes)
  {
    && 0 < f.first <= f.last <= |log| && f.command.target in nodes && nodes[f.command.target].kind == Matter
    && L.LiveForRange(nodes, f.command.target, f.first, f.last)
    && StateOf(log[..f.first - 1], f.command.target, Matter) == InProgress
    && Histories(nodes, log[..f.first - 1], log[f.first - 1..f.last], f.command.target, f.sealed, batch)
  }

  ghost predicate Histories(nodes: map<Id, Node>, prefix: seq<Event>, events: seq<Event>, m: Id, sealed: bool,
                            batch: Option<Id>)
    requires WellFormed(nodes)
  {
    var scan := Scan(nodes, prefix, m, |prefix| + 1);
    && scan != Broken
    && (|| Matches(m, events, sealed, SealedBy(nodes, prefix, m), None)
        || Matches(m, events, sealed, scan == Whole, if scan == Whole then batch else None))
  }

  // ---------------------------------------------------------------- when the check stays accepted

  /** A node born after p comes, in id order, before every node of the subtree that is
      live and not done at p. */
  ghost predicate BornFirst(nodes: map<Id, Node>, prefix: seq<Event>, m: Id, p: nat)
    requires WellFormed(nodes)
  {
    exists x | x in Subtree(nodes, m) && nodes[x].birth > p :: First(nodes, prefix, m, p, x)
  }

  ghost predicate First(nodes: map<Id, Node>, prefix: seq<Event>, m: Id, p: nat, x: Id)
    requires WellFormed(nodes)
  {
    forall y | y in Subtree(nodes, m) && nodes[y].birth <= p && Ends(nodes, prefix, p, y) :: Leq(x, y)
  }

  lemma BrokenExactly(nodes: map<Id, Node>, prefix: seq<Event>, m: Id, p: nat)
    requires WellFormed(nodes)
    ensures Scan(nodes, prefix, m, p) == Broken <==> BornFirst(nodes, prefix, m, p)
  {
    var ending := Ending(nodes, prefix, m, p);
    if BornFirst(nodes, prefix, m, p) {
      var x :| x in Subtree(nodes, m) && nodes[x].birth > p && First(nodes, prefix, m, p, x);
      assert x in ending;
      if nodes[Smallest(ending)].birth <= p {
        LeqAntisymmetric(x, Smallest(ending));
      }
    }
    if Scan(nodes, prefix, m, p) == Broken {
      assert IsSmallest(ending, Smallest(ending)) && First(nodes, prefix, m, p, Smallest(ending));
    }
  }

  lemma {:induction false} AncestorStable(nodes: map<Id, Node>, later: map<Id, Node>, m: Id, id: Id, q: nat)
    requires WellFormed(nodes) && WellFormed(later) && GrowsAfter(nodes, later, q) && id in nodes
    ensures L.IsAncestor(nodes, m, id) == L.IsAncestor(later, m, id)
    decreases 2 - nodes[id].kind.Rank()
  {
    assert later[id] == nodes[id].(tombstone := later[id].tombstone);
    if nodes[id].parent.Some? {
      AncestorStable(nodes, later, m, nodes[id].parent.value, q);
    }
  }

  lemma SealedByStable(nodes: map<Id, Node>, later: map<Id, Node>, prefix: seq<Event>, m: Id, q: nat)
    requires WellFormed(nodes) && WellFormed(later) && GrowsAfter(nodes, later, q) && |prefix| < q && m in nodes
    ensures SealedBy(nodes, prefix, m) == SealedBy(later, prefix, m)
  {
    FoldStable(nodes, later, prefix, q);
    if Fold(nodes, prefix).Some? {
      ChainStable(nodes, later, Fold(nodes, prefix).value.(phases := map[m := Done]), m, |prefix| + 1, q);
    }
  }

  /** What the writer leaves: one event and the sealing it saw. */
  ghost predicate Holds(nodes: map<Id, Node>, log: seq<Event>, f: Finish)
    requires WellFormed(nodes)
  {
    && 0 < f.first == f.last <= |log| && f.command.target in nodes && nodes[f.command.target].kind == Matter
    && L.LiveForRange(nodes, f.command.target, f.first, f.last)
    && StateOf(log[..f.first - 1], f.command.target, Matter) == InProgress
    && Matches(f.command.target, log[f.first - 1..f.last], f.sealed,
               SealedBy(nodes, log[..f.first - 1], f.command.target), None)
  }

  lemma HoldsStable(nodes: map<Id, Node>, later: map<Id, Node>, log: seq<Event>, more: seq<Event>, f: Finish)
    requires WellFormed(nodes) && WellFormed(later) && GrowsAfter(nodes, later, |log|) && log <= more
    requires Holds(nodes, log, f)
    ensures Holds(later, more, f)
  {
    var m := f.command.target;
    L.SameSlices(log, more, f.first - 1, f.last);
    SealedByStable(nodes, later, log[..f.first - 1], m, |log|);
    assert later[m] == nodes[m].(tombstone := later[m].tombstone);
  }

  lemma HeldExactly(nodes: map<Id, Node>, log: seq<Event>, f: Finish, batch: Option<Id>)
    requires WellFormed(nodes) && Holds(nodes, log, f)
    ensures Accepts(nodes, log, f, batch) <==> !BornFirst(nodes, log[..f.first - 1], f.command.target, f.first)
  {
    BrokenExactly(nodes, log[..f.first - 1], f.command.target, f.first);
  }

  /** Whatever is appended, born or buried later, a finish the writer left is accepted if
      and only if no node born under the Matter since is, in id order, before every node
      of the subtree that was live and not done at the finish. */
  lemma AcceptedExactly(nodes: map<Id, Node>, later: map<Id, Node>, log: seq<Event>, more: seq<Event>, f: Finish,
                        batch: Option<Id>)
    requires WellFormed(nodes) && WellFormed(later) && GrowsAfter(nodes, later, |log|) && log <= more
    requires Holds(nodes, log, f)
    ensures Accepts(later, more, f, batch) <==> !BornFirst(later, more[..f.first - 1], f.command.target, f.first)
  {
    HoldsStable(nodes, later, log, more, f);
    HeldExactly(later, more, f, batch);
  }

  // ---------------------------------------------------------------- runs

  /** validateStep4ClaimTx: every other writer bears a Stage or Step only under a Matter
      that is planned or in progress. */
  ghost predicate BirthsGuarded(s: L.Store, t: L.Store)
    requires WellFormed(t.nodes)
  {
    forall m, id | m in s.nodes && id in t.nodes && id !in s.nodes && L.IsAncestor(t.nodes, m, id) ::
      StateOf(s.log, m, Matter) == Planned || StateOf(s.log, m, Matter) == InProgress
  }

  /** validateImplicitBirthClaim: step.create v1 asks for an open birth journal and never
      reads the Matter's state. */
  predicate MayBear(s: Store, m: Id, x: Id, e: Event) {
    && m in s.open && m in s.life.nodes && s.life.nodes[m].kind == Matter && x !in s.life.nodes
    && e.body == OtherBody && e.id > L.LastId(s.life.log)
  }

  function Bearing(s: Store, m: Id, x: Id, e: Event): Store
    requires m in s.life.nodes
  {
    var node := Node(Kind.Step, s.life.nodes[m].repo, Some(m), |s.life.log| + 1, 0);
    s.(life := L.Store(s.life.nodes[x := node], s.life.log + [e], s.life.records))
  }

  datatype Move =
    | FinishMove(c: L.Command)
    | LifecycleMove(c: L.Command)
    | LegacyMove(m: Id, x: Id, e: Event)
    | OtherMove

  /** Birth journals are opened with their Matter and released once. */
  ghost predicate Takes(s: Store, move: Move, t: Store) {
    match move
    case FinishMove(c) =>
      && IsFinish(c) && c.id !in s.finishes && c.id !in s.life.records
      && WellFormed(s.life.nodes) && t == FinishMatter(s, c).0
    case LifecycleMove(c) =>
      && !IsFinish(c) && c.id !in s.life.records
      && WellFormed(s.life.nodes) && t == s.(life := L.Complete(s.life, c).0)
    case LegacyMove(m, x, e) =>
      MayBear(s, m, x, e) && t == Bearing(s, m, x, e)
    case OtherMove =>
      && L.Grows(s.life, t.life) && t.finishes == s.finishes && BirthsGuarded(s.life, t.life)
      && forall m | m in t.open :: m in s.open || (m in t.life.nodes && m !in s.life.nodes)
  }

  ghost predicate Next(s: Store, t: Store) {
    exists move :: Takes(s, move, t)
  }

  /** A finish is as the writer left it, and its Matter is done. */
  ghost predicate Stands(life: L.Store, f: Finish)
    requires WellFormed(life.nodes)
  {
    Holds(life.nodes, life.log, f) && L.Rests(life, f.command.target, Matter, Done)
  }

  ghost predicate Inv(s: Store) {
    L.Inv(s.life) && forall k | k in s.finishes :: Stands(s.life, s.finishes[k])
  }

  lemma WriterHolds(s: L.Store, c: L.Command, t: L.Store, sealed: bool)
    requires L.Inv(s) && IsFinish(c) && L.Complete(s, c) == (t, L.Committed)
    requires sealed == SealedBy(s.nodes, s.log, c.target)
    ensures Holds(t.nodes, t.log, Record(c, |s.log| + 1, |t.log|, sealed))
  {
    var e := L.EventAt(s.nodes, c, [c.target], 0);
    assert L.EventsFor(s.nodes, c, [c.target]) == [e];
    L.SlicesOfAppend(s.log, [e]);
  }

  lemma WriterStands(s: L.Store, c: L.Command, t: L.Store, sealed: bool)
    requires L.Inv(s) && IsFinish(c) && L.Complete(s, c) == (t, L.Committed)
    requires sealed == SealedBy(s.nodes, s.log, c.target)
    ensures WellFormed(t.nodes) && Stands(t, Record(c, |s.log| + 1, |t.log|, sealed))
  {
    WriterHolds(s, c, t, sealed);
    L.StateAfterAll(s.nodes, s.log, c, [c.target], c.target);
  }

  lemma CompleteKeepsStanding(s: L.Store, c: L.Command, t: L.Store, f: Finish)
    requires L.Inv(s) && t == L.Complete(s, c).0 && Stands(s, f)
    ensures WellFormed(t.nodes) && Stands(t, f)
  {
    L.CompleteKeepsState(s, c, f.command.target, Matter, Done);
    HoldsStable(s.nodes, t.nodes, s.log, t.log, f);
  }

  lemma GrowthKeepsStanding(s: L.Store, t: L.Store, f: Finish)
    requires L.Inv(s) && L.Grows(s, t) && Stands(s, f)
    ensures Stands(t, f)
  {
    L.GrowthKeepsState(s, t, f.command.target, Matter, Done);
    HoldsStable(s.nodes, t.nodes, s.log, t.log, f);
  }

  lemma FinishKeepsStanding(s: Store, c: L.Command, life: L.Store, f: Finish, all: map<Id, Finish>)
    requires Inv(s) && L.Complete(s.life, c) == (life, L.Committed) && WellFormed(life.nodes) && Stands(life, f)
    requires all == s.finishes[c.id := f]
    ensures forall k | k in all :: Stands(life, all[k])
  {
    forall k | k in s.finishes
      ensures Stands(life, s.finishes[k])
    {
      CompleteKeepsStanding(s.life, c, life, s.finishes[k]);
    }
  }

  lemma FinishKeepsInv(s: Store, c: L.Command)
    requires Inv(s) && IsFinish(c)
    ensures Inv(FinishMatter(s, c).0)
  {
    L.CompleteKeepsInv(s.life, c);
    var (life, outcome) := L.Complete(s.life, c);
    if outcome == L.Committed {
      var sealed := SealedBy(s.life.nodes, s.life.log, c.target);
      WriterStands(s.life, c, life, sealed);
      FinishKeepsStanding(s, c, life, Record(c, |s.life.log| + 1, |life.log|, sealed), FinishMatter(s, c).0.finishes);
    }
  }

  lemma LifecycleKeepsInv(s: Store, c: L.Command)
    requires Inv(s)
    ensures Inv(s.(life := L.Complete(s.life, c).0))
  {
    L.CompleteKeepsInv(s.life, c);
    forall k | k in s.finishes
      ensures Stands(L.Complete(s.life, c).0, s.finishes[k])
    {
      CompleteKeepsStanding(s.life, c, L.Complete(s.life, c).0, s.finishes[k]);
    }
  }

  lemma GrowthKeepsInv(s: Store, t: Store)
    requires Inv(s) && L.Grows(s.life, t.life) && t.finishes == s.finishes
    ensures Inv(t)
  {
    L.GrowthKeepsInv(s.life, t.life);
    forall k | k in t.finishes
      ensures Stands(t.life, t.finishes[k])
    {
      GrowthKeepsStanding(s.life, t.life, s.finishes[k]);
    }
  }

  lemma BearingWellFormed(s: Store, m: Id, x: Id, e: Event)
    requires L.Inv(s.life) && MayBear(s, m, x, e)
    ensures var nodes := Bearing(s, m, x, e).life.nodes;
            WellFormed(nodes) && GrowsAfter(s.life.nodes, nodes, |s.life.log|)
  {
  }

  /** step.create v1 is growth like any other, but for the guard. */
  lemma BearingGrows(s: Store, m: Id, x: Id, e: Event)
    requires L.Inv(s.life) && MayBear(s, m, x, e)
    ensures L.Grows(s.life, Bearing(s, m, x, e).life)
  {
    var t := Bearing(s, m, x, e).life;
    BearingWellFormed(s, m, x, e);
    FoldStable(s.life.nodes, t.nodes, s.life.log, |s.life.log|);
    FoldAppend(t.nodes, s.life.log, e);
  }

  lemma MoveKeepsInv(s: Store, move: Move, t: Store)
    requires Inv(s) && Takes(s, move, t)
    ensures Inv(t)
  {
    match move
    case FinishMove(c) => FinishKeepsInv(s, c);
    case LifecycleMove(c) => LifecycleKeepsInv(s, c);
    case LegacyMove(m, x, e) =>
      BearingGrows(s, m, x, e);
      GrowthKeepsInv(s, t);
    case OtherMove => GrowthKeepsInv(s, t);
  }

  ghost predicate IsRun(states: seq<Store>) {
    && |states| > 0 && states[0] == Store(L.Store(map[], [], map[]), map[], {})
    && forall i | 0 <= i < |states| - 1 :: StepAt(states, i)
  }

  ghost predicate StepAt(states: seq<Store>, i: nat)
    requires i < |states| - 1
  {
    Next(states[i], states[i + 1])
  }

  lemma SoundOnward(states: seq<Store>, n: nat)
    requires IsRun(states) && n < |states| - 1 && Inv(states[n])
    ensures Inv(states[n + 1])
  {
    assert StepAt(states, n);
    var move :| Takes(states[n], move, states[n + 1]);
    MoveKeepsInv(states[n], move, states[n + 1]);
  }

  lemma {:induction false} EveryRunKeepsInv(states: seq<Store>, n: nat)
    requires IsRun(states) && n < |states|
    ensures Inv(states[n])
  {
    if n > 0 {
      EveryRunKeepsInv(states, n - 1);
      SoundOnward(states, n - 1);
    }
  }

  // ---------------------------------------------------------------- what a finish reports

  /** A Matter would be sealed exactly when it is live and every gate its Repo declared for
      Matters before has a state on it. */
  lemma SealedByExactly(nodes: map<Id, Node>, prefix: seq<Event>, m: Id)
    requires WellFormed(nodes) && m in nodes && nodes[m].kind == Matter && Fold(nodes, prefix).Some?
    ensures SealedBy(nodes, prefix, m) <==>
              && (nodes[m].tombstone == 0 || nodes[m].tombstone > |prefix| + 1)
              && forall gate | DeclaredAt(prefix, nodes[m].repo, gate, Matter) :: Settled(prefix, m, gate)
  {
    LogAcceptedExactly(nodes, prefix);
    var g := Fold(nodes, prefix).value.(phases := map[m := Done]);
    assert ChainMet(nodes, g, m, |prefix| + 1) <==> nodes[m].LiveAt(|prefix| + 1) && GatesMet(g, m, nodes[m]);
    if GatesMet(g, m, nodes[m]) {
      forall gate | DeclaredAt(prefix, nodes[m].repo, gate, Matter)
        ensures Settled(prefix, m, gate)
      {
        assert (nodes[m].repo, gate) in g.declared && (m, gate) in g.states;
      }
    }
  }

  /** The sealing a committed finish reports is the Matter's sealing in the state it leaves. */
  lemma FinishReports(s: Store, c: L.Command)
    requires Inv(s) && IsFinish(c) && FinishMatter(s, c).1 == L.Committed
    ensures var t := FinishMatter(s, c).0;
            && c.id in t.finishes && c.target in t.life.nodes && WellFormed(t.life.nodes)
            && Fold(t.life.nodes, t.life.log).Some?
            && (t.finishes[c.id].sealed <==>
                  Sealed(t.life.nodes, Fold(t.life.nodes, t.life.log).value, c.target, |t.life.log|))
  {
    var life := L.Complete(s.life, c).0;
    L.WriterFolds(s.life, c);
    var e := L.EventAt(s.life.nodes, c, [c.target], 0);
    assert L.EventsFor(s.life.nodes, c, [c.target]) == [e];
    FoldAppend(s.life.nodes, s.life.log, e);
    SameGates(s.life.nodes, Fold(s.life.nodes, s.life.log).value.(phases := map[c.target := Done]),
              Fold(life.nodes, life.log).value, c.target, |s.life.log| + 1);
  }

  /** Sealing reads only the gates. */
  lemma {:induction false} SameGates(nodes: map<Id, Node>, g: Gated, h: Gated, id: Id, p: nat)
    requires WellFormed(nodes) && id in nodes && g.declared == h.declared && g.states == h.states
    ensures ChainMet(nodes, g, id, p) == ChainMet(nodes, h, id, p)
    decreases 2 - nodes[id].kind.Rank()
  {
    if nodes[id].parent.Some? {
      SameGates(nodes, g, h, nodes[id].parent.value, p);
    }
  }

  // ---------------------------------------------------------------- births after a finish

  /** x was born under the Matter of f after its finish. */
  ghost predicate Late(life: L.Store, f: Finish, x: Id)
    requires WellFormed(life.nodes)
  {
    x in Subtree(life.nodes, f.command.target) && life.nodes[x].birth > f.first
  }

  /** step.create v1 of x under the Matter of f leads from s to t. */
  ghost predicate BearsLate(s: Store, f: Finish, x: Id, t: Store) {
    exists e :: Takes(s, LegacyMove(f.command.target, x, e), t)
  }

  lemma LateKept(s: L.Store, t: L.Store, f: Finish, x: Id)
    requires WellFormed(s.nodes) && WellFormed(t.nodes) && GrowsAfter(s.nodes, t.nodes, |s.log|) && x in s.nodes
    ensures Late(t, f, x) <==> Late(s, f, x)
  {
    AncestorStable(s.nodes, t.nodes, f.command.target, x, |s.log|);
    assert t.nodes[x] == s.nodes[x].(tombstone := t.nodes[x].tombstone);
  }

  /** A Step borne by v1 has its Matter as the only ancestor. */
  lemma BearingLate(s: Store, m: Id, x: Id, e: Event, f: Finish, y: Id)
    requires Inv(s) && MayBear(s, m, x, e) && Stands(s.life, f) && WellFormed(Bearing(s, m, x, e).life.nodes)
    ensures Late(Bearing(s, m, x, e).life, f, y) <==> Late(s.life, f, y) || (y == x && m == f.command.target)
  {
    BearingWellFormed(s, m, x, e);
    if y in s.life.nodes {
      LateKept(s.life, Bearing(s, m, x, e).life, f, y);
    } else if y == x {
      var nodes := Bearing(s, m, x, e).life.nodes;
      assert nodes[m] == s.life.nodes[m] && nodes[m].parent.None? && nodes[x].parent == Some(m);
      assert L.IsAncestor(nodes, f.command.target, x) <==> f.command.target == m;
    }
  }

  /** The guard at work: no other writer bears a node under a done Matter. */
  lemma GuardedLate(s: Store, t: Store, f: Finish, y: Id)
    requires Inv(s) && Takes(s, OtherMove, t) && Stands(s.life, f)
    ensures Late(t.life, f, y) <==> Late(s.life, f, y)
  {
    if y in s.life.nodes {
      LateKept(s.life, t.life, f, y);
    }
  }

  lemma LegacyIsLate(s: Store, f: Finish, y: Id, t: Store)
    requires Inv(s) && Inv(t) && Stands(s.life, f) && BearsLate(s, f, y, t)
    ensures Late(t.life, f, y)
  {
    var e :| Takes(s, LegacyMove(f.command.target, y, e), t);
    BearingLate(s, f.command.target, y, e, f, y);
  }

  lemma OtherwiseNotLate(s: Store, move: Move, t: Store, f: Finish, y: Id)
    requires Inv(s) && Inv(t) && Takes(s, move, t) && Stands(s.life, f) && !BearsLate(s, f, y, t)
    ensures Late(t.life, f, y) <==> Late(s.life, f, y)
  {
    match move
    case LegacyMove(m, x, e) =>
      BearingLate(s, m, x, e, f, y);
      assert !(y == x && m == f.command.target);
    case OtherMove => GuardedLate(s, t, f, y);
    case FinishMove(c) => SameNodes(s.life, c);
    case LifecycleMove(c) => SameNodes(s.life, c);
  }

  lemma SameNodes(s: L.Store, c: L.Command)
    requires WellFormed(s.nodes)
    ensures L.Complete(s, c).0.nodes == s.nodes
  {
  }

  lemma FinishesStay(s: Store, move: Move, t: Store, k: Id)
    requires Takes(s, move, t) && k in s.finishes
    ensures k in t.finishes && t.finishes[k] == s.finishes[k]
  {
  }

  /** A node is late after a move exactly when it was before or the move is its
      step.create v1. */
  lemma MoveLate(s: Store, move: Move, t: Store, f: Finish, y: Id)
    requires Inv(s) && Inv(t) && Takes(s, move, t) && Stands(s.life, f)
    ensures Late(t.life, f, y) <==> Late(s.life, f, y) || BearsLate(s, f, y, t)
  {
    if BearsLate(s, f, y, t) {
      LegacyIsLate(s, f, y, t);
    } else {
      OtherwiseNotLate(s, move, t, f, y);
    }
  }

  /** The move from states[j] is the step.create v1 of x under the Matter of a finish
      committed before. */
  ghost predicate LateAt(states: seq<Store>, j: nat, k: Id, x: Id)
    requires j < |states| - 1
  {
    k in states[j].finishes && BearsLate(states[j], states[j].finishes[k], x, states[j + 1])
  }

  /** A finish just committed has nothing late. */
  lemma NothingLate(s: Store, move: Move, t: Store, k: Id, y: Id)
    requires Inv(s) && Inv(t) && Takes(s, move, t) && k !in s.finishes && k in t.finishes
    ensures !Late(t.life, t.finishes[k], y)
  {
    SameNodes(s.life, move.c);
  }

  /** Some step.create v1 before states[n] bore x under the finished Matter. */
  ghost predicate BornLate(states: seq<Store>, n: nat, k: Id, x: Id)
    requires n < |states|
  {
    exists j: nat | j < n :: LateAt(states, j, k, x)
  }

  lemma BornLateOnward(states: seq<Store>, n: nat, k: Id, x: Id)
    requires n < |states| - 1
    ensures BornLate(states, n + 1, k, x) <==> BornLate(states, n, k, x) || LateAt(states, n, k, x)
  {
    if BornLate(states, n + 1, k, x) {
      var j: nat :| j < n + 1 && LateAt(states, j, k, x);
      assert j < n || j == n;
    }
    if BornLate(states, n, k, x) {
      var j: nat :| j < n && LateAt(states, j, k, x);
      assert j < n + 1;
    }
  }

  lemma LateOnward(states: seq<Store>, n: nat, k: Id, x: Id)
    requires IsRun(states) && n < |states| - 1 && Inv(states[n]) && Inv(states[n + 1]) && k in states[n].finishes
    ensures k in states[n + 1].finishes && states[n + 1].finishes[k] == states[n].finishes[k]
    ensures Late(states[n + 1].life, states[n].finishes[k], x)
            <==> Late(states[n].life, states[n].finishes[k], x) || LateAt(states, n, k, x)
  {
    assert StepAt(states, n);
    var move :| Takes(states[n], move, states[n + 1]);
    FinishesStay(states[n], move, states[n + 1], k);
    assert Stands(states[n].life, states[n].finishes[k]);
    MoveLate(states[n], move, states[n + 1], states[n].finishes[k], x);
  }

  lemma LateFromNew(states: seq<Store>, n: nat, k: Id, x: Id)
    requires IsRun(states) && n < |states| - 1 && Inv(states[n]) && Inv(states[n + 1])
    requires k !in states[n].finishes && k in states[n + 1].finishes
    ensures !Late(states[n + 1].life, states[n + 1].finishes[k], x) && !BornLate(states, n + 1, k, x)
  {
    assert StepAt(states, n);
    var move :| Takes(states[n], move, states[n + 1]);
    NothingLate(states[n], move, states[n + 1], k, x);
    forall j: nat | j < n + 1
      ensures !LateAt(states, j, k, x)
    {
      if k in states[j].finishes {
        FinishesGrow(states, j, n, k);
      }
    }
  }

  /** In every run the nodes born under a Matter after its finish are exactly those of
      step.create v1. */
  lemma {:induction false} LateExactly(states: seq<Store>, n: nat, k: Id, x: Id)
    requires IsRun(states) && n < |states| && k in states[n].finishes && Inv(states[n])
    ensures Late(states[n].life, states[n].finishes[k], x) <==> BornLate(states, n, k, x)
  {
    if n > 0 {
      EveryRunKeepsInv(states, n - 1);
      if k in states[n - 1].finishes {
        LateOnward(states, n - 1, k, x);
        LateExactly(states, n - 1, k, x);
        BornLateOnward(states, n - 1, k, x);
      } else {
        LateFromNew(states, n - 1, k, x);
      }
    }
  }

  lemma {:induction false} FinishesGrow(states: seq<Store>, m: nat, n: nat, k: Id)
    requires IsRun(states) && m <= n < |states| && k in states[m].finishes
    ensures k in states[n].finishes && states[n].finishes[k] == states[m].finishes[k]
  {
    if m < n {
      FinishesGrow(states, m, n - 1, k);
      assert StepAt(states, n - 1);
      var move :| Takes(states[n - 1], move, states[n]);
      FinishesStay(states[n - 1], move, states[n], k);
    }
  }

  /** x comes, in id order, before every node of the Matter that was live and not done
      at its finish. */
  ghost predicate Leads(life: L.Store, f: Finish, x: Id)
    requires WellFormed(life.nodes)
  {
    0 < f.first <= |life.log| && First(life.nodes, life.log[..f.first - 1], f.command.target, f.first, x)
  }

  lemma StandingExactly(life: L.Store, f: Finish, batch: Option<Id>)
    requires WellFormed(life.nodes) && Stands(life, f)
    ensures !Accepts(life.nodes, life.log, f, batch) <==> exists x :: Late(life, f, x) && Leads(life, f, x)
  {
    HeldExactly(life.nodes, life.log, f, batch);
    if BornFirst(life.nodes, life.log[..f.first - 1], f.command.target, f.first) {
      var x :| x in Subtree(life.nodes, f.command.target) && life.nodes[x].birth > f.first
               && First(life.nodes, life.log[..f.first - 1], f.command.target, f.first, x);
      assert Late(life, f, x) && Leads(life, f, x);
    }
  }

  /** In every state of every run: a committed matter.finish is refused by the reopen
      check if and only if some step.create v1 under its Matter came after it and its
      Step is, in id order, before every node that was live and not done at the finish. */
  lemma RefusedExactly(states: seq<Store>, n: nat, k: Id, batch: Option<Id>)
    requires IsRun(states) && n < |states| && k in states[n].finishes
    ensures WellFormed(states[n].life.nodes)
    ensures !Accepts(states[n].life.nodes, states[n].life.log, states[n].finishes[k], batch)
            <==> exists x :: BornLate(states, n, k, x) && Leads(states[n].life, states[n].finishes[k], x)
  {
    EveryRunKeepsInv(states, n);
    var s, f := states[n].life, states[n].finishes[k];
    assert Stands(s, f);
    StandingExactly(s, f, batch);
    forall x
      ensures Late(s, f, x) <==> BornLate(states, n, k, x)
    {
      LateExactly(states, n, k, x);
    }
  }

  /** No step.create v1 of the run bears a Step under a done Matter. */
  ghost predicate Timely(states: seq<Store>, j: nat)
    requires j < |states| - 1
  {
    forall m, x, e | Takes(states[j], LegacyMove(m, x, e), states[j + 1]) ::
      StateOf(states[j].life.log, m, Matter) != Done
  }

  lemma TimelyIsNotLate(states: seq<Store>, j: nat, k: Id, x: Id)
    requires j < |states| - 1 && Inv(states[j]) && Timely(states, j)
    ensures !LateAt(states, j, k, x)
  {
    if k in states[j].finishes {
      assert Stands(states[j].life, states[j].finishes[k]);
    }
  }

  /** If every step.create v1 finds its Matter not yet done, every matter.finish ever
      committed is accepted in every state, with the sealing it reported, whatever Batch
      its Matter has. */
  lemma EveryFinishAccepted(states: seq<Store>, n: nat, k: Id, batch: Option<Id>)
    requires IsRun(states) && n < |states| && k in states[n].finishes
    requires forall j: nat | j < n :: Timely(states, j)
    ensures WellFormed(states[n].life.nodes)
    ensures Accepts(states[n].life.nodes, states[n].life.log, states[n].finishes[k], batch)
  {
    RefusedExactly(states, n, k, batch);
    forall j: nat, x | j < n
      ensures !LateAt(states, j, k, x)
    {
      EveryRunKeepsInv(states, j);
      TimelyIsNotLate(states, j, k, x);
    }
  }

  /** A released birth journal stays released, unless its Matter is yet to be born. */
  lemma {:induction false} ReleasedForever(states: seq<Store>, i: nat, n: nat, m: Id)
    requires IsRun(states) && i <= n < |states| && m in states[i].life.nodes && m !in states[i].open
    ensures m in states[n].life.nodes && m !in states[n].open
  {
    if i < n {
      ReleasedForever(states, i, n - 1, m);
      ReleasedNext(states, n - 1, m);
    }
  }

  lemma ReleasedNext(states: seq<Store>, n: nat, m: Id)
    requires IsRun(states) && n < |states| - 1 && m in states[n].life.nodes && m !in states[n].open
    ensures m in states[n + 1].life.nodes && m !in states[n + 1].open
  {
    assert StepAt(states, n);
    var move :| Takes(states[n], move, states[n + 1]);
    ReleasedOnward(states[n], move, states[n + 1], m);
  }

  lemma ReleasedOnward(s: Store, move: Move, t: Store, m: Id)
    requires Takes(s, move, t) && m in s.life.nodes && m !in s.open
    ensures m in t.life.nodes && m !in t.open
  {
    match move
    case FinishMove(c) => SameNodes(s.life, c);
    case LifecycleMove(c) => SameNodes(s.life, c);
    case _ =>
  }

  /** The other way to be safe: a finish whose Matter's birth journal was released before
      it is accepted for good. */
  lemma ReleasedIsSafe(states: seq<Store>, i: nat, n: nat, k: Id, m: Id, batch: Option<Id>)
    requires IsRun(states) && i <= n < |states| && m in states[i].life.nodes && m !in states[i].open
    requires k !in states[i].finishes && k in states[n].finishes && states[n].finishes[k].command.target == m
    ensures WellFormed(states[n].life.nodes)
    ensures Accepts(states[n].life.nodes, states[n].life.log, states[n].finishes[k], batch)
  {
    RefusedExactly(states, n, k, batch);
    forall j: nat, x | j < n
      ensures !LateAt(states, j, k, x)
    {
      if k in states[j].finishes {
        FinishesGrow(states, j, n, k);
        if j <= i {
          FinishesGrow(states, j, i, k);
        } else {
          ReleasedForever(states, i, j, m);
        }
      }
    }
  }

  // ---------------------------------------------------------------- a run whose finish is refused

  /** A command on a live Matter in the state its verb leaves, with one event id to spare. */
  lemma MatterMoves(s: L.Store, c: L.Command, m: Id)
    requires WellFormed(s.nodes) && m in s.nodes && s.nodes[m].kind == Matter && s.nodes[m].tombstone == 0
    requires c.target == m && c.scale == Matter && c.repo == s.nodes[m].repo && !c.fenced
    requires StateOf(s.log, m, Matter) == c.verb.From() && |c.ids| == 1 && c.ids[0] > L.LastId(s.log)
    ensures L.Complete(s, c).1 == L.Committed
    ensures var t := L.Complete(s, c).0;
            && t.nodes == s.nodes && |t.log| == |s.log| + 1 && L.LastId(t.log) == c.ids[0]
            && StateOf(t.log, m, Matter) == c.verb.To() && (IsFinish(c) ==> t.records == s.records)
            && (!IsFinish(c) ==> t.records.Keys == s.records.Keys + {c.id})
  {
    assert L.Path(s.nodes, s.log, m, c.verb) == [m];
    L.StateAfterAll(s.nodes, s.log, c, [m], m);
    assert L.EventsFor(s.nodes, c, [m]) == [L.EventAt(s.nodes, c, [m], 0)];
  }

  ghost predicate Reached(s: Store) {
    exists states :: IsRun(states) && states[|states| - 1] == s
  }

  lemma ReachedOnward(s: Store, move: Move, t: Store)
    requires Reached(s) && Takes(s, move, t)
    ensures Reached(t)
  {
    var states :| IsRun(states) && states[|states| - 1] == s;
    var more := states + [t];
    forall i | 0 <= i < |more| - 1
      ensures StepAt(more, i)
    {
      if i < |states| - 1 {
        assert StepAt(states, i);
      } else {
        assert Next(s, t);
      }
    }
    assert IsRun(more) && more[|more| - 1] == t;
  }

  lemma ReachedIsSound(s: Store)
    requires Reached(s)
    ensures Inv(s)
  {
    var states :| IsRun(states) && states[|states| - 1] == s;
    EveryRunKeepsInv(states, |states| - 1);
  }

  lemma FirstGrows(nodes: map<Id, Node>, repo: Id, m: Id, e: Event)
    requires nodes == map[m := Node(Matter, repo, None, 1, 0)] && e.body == OtherBody
    ensures L.Grows(L.Store(map[], [], map[]), L.Store(nodes, [e], map[]))
  {
    FirstNode(nodes, repo, m, [e]);
    FirstFolds(nodes, e);
  }

  lemma FirstNode(nodes: map<Id, Node>, repo: Id, m: Id, log: seq<Event>)
    requires nodes == map[m := Node(Matter, repo, None, 1, 0)] && |log| == 1
    ensures WellFormed(nodes) && GrowsAfter(map[], nodes, 0) && L.BornInLog(nodes, log)
  {
  }

  lemma FirstFolds(nodes: map<Id, Node>, e: Event)
    requires e.body == OtherBody
    ensures Fold(nodes, [e]).Some?
  {
    FoldAppend(nodes, [], e);
    assert [] + [e] == [e];
  }

  /** matter.create: one event, one node, an open journal. */
  lemma MatterBorn(repo: Id, m: Id) returns (t: Store)
    ensures Reached(t)
    ensures t.life.nodes == map[m := Node(Matter, repo, None, 1, 0)] && t.open == {m} && t.finishes == map[]
    ensures L.LastId(t.life.log) == 1 && t.life.records == map[] && StateOf(t.life.log, m, Matter) == Planned
  {
    var none := Store(L.Store(map[], [], map[]), map[], {});
    var e := Event(1, "create", repo, m, OtherBody);
    var nodes := map[m := Node(Matter, repo, None, 1, 0)];
    t := Store(L.Store(nodes, [e], map[]), map[], {m});
    FirstGrows(nodes, repo, m, e);
    assert Reached(none) by {
      assert IsRun([none]);
    }
    ReachedOnward(none, OtherMove, t);
    assert [e][..0] == [];
  }

  /** start. */
  lemma MatterStarted(s: Store, repo: Id, m: Id) returns (t: Store)
    requires Reached(s) && Inv(s) && s.life.nodes == map[m := Node(Matter, repo, None, 1, 0)]
    requires L.LastId(s.life.log) == 1 && s.life.records == map[] && StateOf(s.life.log, m, Matter) == Planned
    ensures Reached(t) && t.life.nodes == s.life.nodes && t.open == s.open && t.finishes == s.finishes
    ensures L.LastId(t.life.log) == 2 && t.life.records.Keys == {"start"}
    ensures StateOf(t.life.log, m, Matter) == InProgress
  {
    var c := L.Command("start", repo, m, Matter, Started, false, [2]);
    MatterMoves(s.life, c, m);
    t := s.(life := L.Complete(s.life, c).0);
    ReachedOnward(s, LifecycleMove(c), t);
  }

  lemma MatterEnded(s: Store, repo: Id, m: Id) returns (t: Store)
    requires Reached(s) && Inv(s) && s.life.nodes == map[m := Node(Matter, repo, None, 1, 0)] && s.finishes == map[]
    requires L.LastId(s.life.log) == 2 && s.life.records.Keys == {"start"}
    requires StateOf(s.life.log, m, Matter) == InProgress
    ensures Reached(t) && t.life.nodes == s.life.nodes && t.open == s.open && L.LastId(t.life.log) == 3
    ensures "finish" in t.finishes && t.finishes["finish"].command.target == m
  {
    var c := L.Command("finish", repo, m, Matter, Finished, false, [3]);
    MatterMoves(s.life, c, m);
    t := FinishMatter(s, c).0;
    ReachedOnward(s, FinishMove(c), t);
  }

  /** The guard of step.create v1 does not look at the Matter's state: create a Matter,
      start it, finish it and bear a Step under it, and the store cannot be reopened,
      whatever the ids. */
  lemma FinishCanBeRefused(repo: Id, m: Id, x: Id, batch: Option<Id>) returns (s: Store)
    requires m != x
    ensures Reached(s) && Inv(s) && "finish" in s.finishes && s.finishes["finish"].command.target == m
    ensures !Accepts(s.life.nodes, s.life.log, s.finishes["finish"], batch)
  {
    s := MatterBorn(repo, m);
    ReachedIsSound(s);
    s := MatterStarted(s, repo, m);
    ReachedIsSound(s);
    s := MatterEnded(s, repo, m);
    s := StepBorn(s, m, Event(4, "legacy", repo, x, OtherBody), x, batch);
  }

  /** step.create v1 under the finished Matter. */
  lemma StepBorn(s: Store, m: Id, e: Event, x: Id, batch: Option<Id>) returns (t: Store)
    requires Reached(s) && s.life.nodes.Keys == {m} && s.life.nodes[m].kind == Matter && m in s.open && x != m
    requires "finish" in s.finishes && s.finishes["finish"].command.target == m
    requires e.body == OtherBody && e.id > L.LastId(s.life.log)
    ensures Reached(t) && Inv(t) && "finish" in t.finishes && t.finishes["finish"].command.target == m
    ensures !Accepts(t.life.nodes, t.life.log, t.finishes["finish"], batch)
  {
    t := Bearing(s, m, x, e);
    ReachedIsSound(s);
    ReachedOnward(s, LegacyMove(m, x, e), t);
    ReachedIsSound(t);
    RefusedHere(s, t, "finish", x, e, batch);
  }

  lemma RefusedHere(s: Store, t: Store, k: Id, x: Id, e: Event, batch: Option<Id>)
    requires Inv(s) && Inv(t) && k in s.finishes && s.life.nodes.Keys == {s.finishes[k].command.target}
    requires Takes(s, LegacyMove(s.finishes[k].command.target, x, e), t)
    ensures k in t.finishes && !Accepts(t.life.nodes, t.life.log, t.finishes[k], batch)
  {
    var f := s.finishes[k];
    assert Stands(s.life, f) && Stands(t.life, t.finishes[k]);
    assert BearsLate(s, f, x, t);
    LegacyIsLate(s, f, x, t);
    LeadsAlone(t.life, f, x);
    StandingExactly(t.life, f, batch);
  }

  /** The only node under the Matter comes first. */
  lemma LeadsAlone(life: L.Store, f: Finish, x: Id)
    requires WellFormed(life.nodes) && 0 < f.first <= |life.log|
    requires f.command.target in life.nodes && life.nodes[f.command.target].kind == Matter
    requires life.nodes.Keys == {f.command.target, x}
    ensures Leads(life, f, x)
  {
    LeqTotal(x, x);
  }

  // ---------------------------------------------------------------- the check and the store in place

  /** The subtree in id order; the first node that ends the scan decides. */
  method ScanSubtree(nodes: map<Id, Node>, prefix: seq<Event>, m: Id, p: nat) returns (verdict: Verdict)
    requires WellFormed(nodes)
    ensures verdict == Scan(nodes, prefix, m, p)
  {
    var left := Subtree(nodes, m);
    while left != {}
      invariant left <= Subtree(nodes, m)
      invariant forall id | id in Subtree(nodes, m) && id !in left :: !Ends(nodes, prefix, p, id)
      decreases |left|
    {
      var id := FindSmallest(left);
      if nodes[id].birth > p {
        FirstEnds(nodes, prefix, m, p, left, id);
        return Broken;
      }
      if nodes[id].LiveAt(p) {
        var state := LifecycleState(prefix, id, nodes[id].kind);
        if state != Done {
          FirstEnds(nodes, prefix, m, p, left, id);
          return Partial;
        }
      }
      left := left - {id};
    }
    assert Ending(nodes, prefix, m, p) == {};
    verdict := Whole;
  }

  lemma FirstEnds(nodes: map<Id, Node>, prefix: seq<Event>, m: Id, p: nat, left: set<Id>, id: Id)
    requires WellFormed(nodes) && left <= Subtree(nodes, m) && IsSmallest(left, id) && Ends(nodes, prefix, p, id)
    requires forall x | x in Subtree(nodes, m) && x !in left :: !Ends(nodes, prefix, p, x)
    ensures Ending(nodes, prefix, m, p) != {} && Smallest(Ending(nodes, prefix, m, p)) == id
  {
    var ending := Ending(nodes, prefix, m, p);
    assert id in ending;
    LeqAntisymmetric(id, Smallest(ending));
  }

  method ProjectedSealed(nodes: map<Id, Node>, prefix: seq<Event>, m: Id) returns (sealed: bool)
    requires WellFormed(nodes)
    ensures sealed == SealedBy(nodes, prefix, m)
  {
    var g := Derive(nodes, prefix);
    if g.None? {
      return false;
    }
    sealed := IsSealed(nodes, g.value.(phases := map[m := Done]), m, |prefix| + 1);
  }

  /** checkM6LifecycleEvents for a matter.finish. */
  method CheckFinish(nodes: map<Id, Node>, log: seq<Event>, f: Finish, batch: Option<Id>) returns (ok: bool)
    requires WellFormed(nodes)
    ensures ok == Accepts(nodes, log, f, batch)
  {
    var m := f.command.target;
    if !(0 < f.first <= f.last <= |log|) || m !in nodes || nodes[m].kind != Matter {
      return false;
    }
    var prefix, events := log[..f.first - 1], log[f.first - 1..f.last];
    var state := LifecycleState(prefix, m, Matter);
    if !L.LiveForRange(nodes, m, f.first, f.last) || state != InProgress {
      return false;
    }
    var scan := ScanSubtree(nodes, prefix, m, f.first);
    if scan == Broken {
      return false;
    }
    var sealed := ProjectedSealed(nodes, prefix, m);
    ok := Matches(m, events, f.sealed, sealed, None)
          || Matches(m, events, f.sealed, scan == Whole, if scan == Whole then batch else None);
  }

  class FinishStore {
    const life: L.LifecycleStore
    var finishes: map<Id, Finish>
    var open: set<Id>

    ghost function View(): Store
      reads this, life
    {
      Store(life.View(), finishes, open)
    }

    constructor ()
      ensures View() == Store(L.Store(map[], [], map[]), map[], {}) && fresh(life)
    {
      life := new L.LifecycleStore();
      finishes, open := map[], {};
    }

    /** step.create v1; false leaves everything as it was. */
    method CreateLegacyStep(m: Id, x: Id, e: Event) returns (ok: bool)
      requires e.body == OtherBody
      modifies life`nodes, life`log
      ensures ok == MayBear(old(View()), m, x, e)
      ensures View() == if ok then Bearing(old(View()), m, x, e) else old(View())
    {
      if m !in life.nodes || life.nodes[m].kind != Matter || m !in open {
        return false;
      }
      if x in life.nodes || e.id <= (if life.log == [] then 0 else life.log[|life.log| - 1].id) {
        return false;
      }
      life.nodes := life.nodes[x := Node(Kind.Step, life.nodes[m].repo, Some(m), |life.log| + 1, 0)];
      life.log := life.log + [e];
      ok := true;
    }

    method Finish(c: L.Command) returns (outcome: L.Outcome)
      requires WellFormed(life.nodes)
      modifies this`finishes, life`log, life`records
      ensures (View(), outcome) == FinishMatter(old(View()), c)
    {
      var prefix := life.log;
      outcome := life.CompleteLifecycle(c);
      if outcome == L.Committed {
        var sealed := ProjectedSealed(life.nodes, prefix, c.target);
        finishes := finishes[c.id := Record(c, |prefix| + 1, |life.log|, sealed)];
      }
    }
  }
}
