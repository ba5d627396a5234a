/** Named Batch membership: tables kept up to date by each command, the reopen check
    that folds the whole log, the read fold of one Batch over a prefix, and the check
    that replays the receipts in artifact order. */
module NamedBatch {
  import opened Common
  import ArtifactKeys

  datatype Body =
    | MatterCreated
    | BatchCreated(name: string)
    | BatchAnonymous(matter: Id)
    | Joined(matter: Id)
    | Left(matter: Id)
    | Dismissed
    | OtherBody

  /** scoped: the event carries a Repo. */
  datatype Event = Event(id: EventId, command: Id, scoped: bool, subject: Id, body: Body)

  datatype Batch = Batch(name: string, birth: EventId, dismissed: EventId)

  datatype Membership = Membership(batch: Id, matter: Id, joined: EventId, left: EventId)

  /** Where a receipt stands in the artifact chains. */
  type Mark = ArtifactKeys.Mark

  predicate Before(a: Mark, b: Mark) {
    ArtifactKeys.MarkBefore(a, b)
  }

  /** A terminal receipt; noop names the pair of a join that found the Matter joined. */
  datatype Terminal = Terminal(mark: Mark, noop: Option<(Id, Id)>)

  datatype Store = Store(log: seq<Event>, matters: set<Id>, batches: map<Id, Batch>, members: map<EventId, Membership>,
                         terminals: map<Id, Terminal>)

  // ---------------------------------------------------------------- the commands

  datatype Op =
    | Create(batch: Id, name: string)
    | Join(batch: Id, matter: Id)
    | Leave(batch: Id, matter: Id)
    | Dismiss(batch: Id)
    | NewMatter(matter: Id)
    | NewAnonymous(batch: Id, matter: Id)
    | Unrelated(subject: Id)

  /** A command with the event id and the artifact position its commit would use. */
  datatype Command = Command(id: Id, event: EventId, mark: Mark, op: Op)

  datatype Verdict = Write(body: Body) | NoChange | Refuse(code: string) | Fail(error: Error)

  predicate IsActive(members: map<EventId, Membership>, batch: Id, matter: Id) {
    exists e :: e in members && members[e].batch == batch && members[e].matter == matter && members[e].left == 0
  }

  predicate NameTaken(batches: map<Id, Batch>, name: string) {
    exists b :: b in batches && batches[b].name == name
  }

  /** The refusals in the order the transaction decides them. */
  function Decide(s: Store, op: Op): Verdict {
    match op
    case Create(b, name) =>
      if NameTaken(s.batches, name) then Refuse("refusal.batch-name-exists")
      else if b in s.batches || name == "" then Fail(ErrConflict) else Write(BatchCreated(name))
    case NewMatter(m) => if m in s.matters then Fail(ErrConflict) else Write(MatterCreated)
    case NewAnonymous(_, m) => Write(BatchAnonymous(m))
    case Unrelated(_) => Write(OtherBody)
    case Join(b, m) =>
      if m == "" then Fail(ErrInvalidProof)
      else if b !in s.batches then Refuse("batch.target-missing")
      else if s.batches[b].dismissed != 0 then Refuse("batch.dismissed")
      else if m !in s.matters then Refuse("batch.target-missing")
      else if IsActive(s.members, b, m) then NoChange else Write(Joined(m))
    case Leave(b, m) =>
      if m == "" then Fail(ErrInvalidProof)
      else if b !in s.batches then Refuse("batch.target-missing")
      else if s.batches[b].dismissed != 0 then Refuse("batch.dismissed")
      else if m !in s.matters then Refuse("batch.target-missing")
      else if !IsActive(s.members, b, m) then Refuse("batch.membership-missing") else Write(Left(m))
    case Dismiss(b) =>
      if b !in s.batches then Refuse("batch.target-missing")
      else if s.batches[b].dismissed != 0 then Refuse("batch.dismissed") else Write(Dismissed)
  }

  function Subject(op: Op): Id {
    match op
    case NewMatter(m) => m
    case Unrelated(x) => x
    case _ => op.batch
  }

  function EventOf(c: Command, body: Body): Event {
    Event(c.event, c.id, c.op.NewMatter? || c.op.NewAnonymous?, Subject(c.op), body)
  }

  /** UPDATE ... SET left_event_id WHERE the pair matches and left_event_id IS NULL. */
  function Departed(members: map<EventId, Membership>, batch: Id, matter: Id, event: EventId)
    : map<EventId, Membership>
  {
    map e | e in members ::
      if members[e].batch == batch && members[e].matter == matter && members[e].left == 0 then
        members[e].(left := event)
      else members[e]
  }

  function Tables(s: Store, c: Command): Store {
    match c.op
    case Create(b, name) => s.(batches := s.batches[b := Batch(name, c.event, 0)])
    case Join(b, m) => s.(members := s.members[c.event := Membership(b, m, c.event, 0)])
    case Leave(b, m) => s.(members := Departed(s.members, b, m, c.event))
    case Dismiss(b) => if b in s.batches then s.(batches := s.batches[b := s.batches[b].(dismissed := c.event)]) else s
    case NewMatter(m) => s.(matters := s.matters + {m})
    case _ => s
  }

  /** One command: its rows and event, or nothing but a receipt, or not even that. */
  function Apply(s: Store, c: Command): Store {
    match Decide(s, c.op)
    case Write(body) =>
      Tables(s, c).(log := s.log + [EventOf(c, body)], terminals := s.terminals[c.id := Terminal(c.mark, None)])
    case NoChange => s.(terminals := s.terminals[c.id := Terminal(c.mark, Some((c.op.batch, c.op.matter)))])
    case Refuse(_) => s.(terminals := s.terminals[c.id := Terminal(c.mark, None)])
    case Fail(_) => s
  }

  /** What appending an event and a receipt demands: ids and artifact positions go up. */
  ghost predicate Admits(s: Store, c: Command) {
    && c.id !in s.terminals && c.event > (if s.log == [] then 0 else s.log[|s.log| - 1].id)
    && forall d | d in s.terminals :: Before(s.terminals[d].mark, c.mark)
  }

  // ---------------------------------------------------------------- the fold of the whole log

  datatype Folded = Folded(born: set<Id>, dismissed: map<Id, EventId>, active: map<(Id, Id), EventId>,
                           episodes: map<EventId, Membership>, commands: set<Id>)

  predicate IsMembershipBody(body: Body) {
    body.Joined? || body.Left? || body.Dismissed?
  }

  /** What the loop asks of a membership event before it looks at the pair: a failure
      here ends the loop. known: the Batches the birth fold found. */
  predicate Admissible(known: set<Id>, f: Folded, e: Event) {
    e.command !in f.commands && !e.scoped && e.subject in known && e.subject in f.born && e.subject !in f.dismissed
  }

  /** What the loop asks of the pair. matters: the Matter table. */
  predicate Consistent(matters: set<Id>, f: Folded, e: Event) {
    match e.body
    case Joined(m) => (e.subject, m) !in f.active && m in matters
    case Left(m) => (e.subject, m) in f.active && f.active[(e.subject, m)] in f.episodes
    case _ => true
  }

  /** The loop's maps after an event; an inconsistent one only uses up its command. */
  function Folding(matters: set<Id>, f: Folded, e: Event): Folded {
    var g := f.(commands := f.commands + {e.command});
    match e.body
    case BatchCreated(_) => f.(born := f.born + {e.subject})
    case Dismissed => g.(dismissed := f.dismissed[e.subject := e.id])
    case Joined(m) =>
      if !Consistent(matters, f, e) then g
      else g.(active := f.active[(e.subject, m) := e.id],
              episodes := f.episodes[e.id := Membership(e.subject, m, e.id, 0)])
    case Left(m) =>
      if !Consistent(matters, f, e) then g
      else
        var joined := f.active[(e.subject, m)];
        g.(active := f.active - {(e.subject, m)}, episodes := f.episodes[joined := f.episodes[joined].(left := e.id)])
    case _ => f
  }

  /** The fold as it is meant: every membership event must pass both tests. */
  function FoldEvent(known: set<Id>, matters: set<Id>, f: Folded, e: Event): Option<Folded> {
    if IsMembershipBody(e.body) && !(Admissible(known, f, e) && Consistent(matters, f, e)) then None
    else Some(Folding(matters, f, e))
  }

  function Fold(known: set<Id>, matters: set<Id>, log: seq<Event>): Option<Folded> {
    if log == [] then Some(Folded({}, map[], map[], map[], {}))
    else
      match Fold(known, matters, log[..|log| - 1])
      case None => None
      case Some(f) => FoldEvent(known, matters, f, log[|log| - 1])
  }

  /** deriveNamedBatches: the births, refusing a second use of an id or a name. */
  function Births(log: seq<Event>): Option<map<Id, Batch>> {
    if log == [] then Some(map[])
    else
      var e := log[|log| - 1];
      match Births(log[..|log| - 1])
      case None => None
      case Some(m) =>
        if !e.body.BatchCreated? || e.scoped then Some(m)
        else if e.subject in m || NameTaken(m, e.body.name) then None
        else Some(m[e.subject := Batch(e.body.name, e.id, 0)])
  }

  /** The maps the loop ends with when nothing stops it. */
  function Skimmed(matters: set<Id>, log: seq<Event>): Folded {
    if log == [] then Folded({}, map[], map[], map[], {})
    else Folding(matters, Skimmed(matters, log[..|log| - 1]), log[|log| - 1])
  }

  /** No membership event stops the loop. */
  ghost predicate NeverStops(known: set<Id>, matters: set<Id>, log: seq<Event>) {
    forall i | 0 <= i < |log| && IsMembershipBody(log[i].body) :: Admissible(known, Skimmed(matters, log[..i]), log[i])
  }

  /** The last membership event is consistent; there may be none. */
  ghost predicate EndsConsistent(matters: set<Id>, log: seq<Event>) {
    if log == [] then true
    else if IsMembershipBody(log[|log| - 1].body)
    then Consistent(matters, Skimmed(matters, log[..|log| - 1]), log[|log| - 1])
    else EndsConsistent(matters, log[..|log| - 1])
  }

  /** The loop of checkNamedBatchMembershipState, as written: an inconsistent pair sets
      the error and leaves the switch, and the next membership event clears it again.
      It accepts exactly when nothing stops it and the last membership event is
      consistent. */
  method DeriveFold(known: set<Id>, matters: set<Id>, log: seq<Event>) returns (r: Option<Folded>)
    ensures r == if NeverStops(known, matters, log) && EndsConsistent(matters, log) then Some(Skimmed(matters, log))
                 else None
  {
    var f := Folded({}, map[], map[], map[], {});
    var failed := false;
    for i := 0 to |log|
      invariant f == Skimmed(matters, log[..i]) && failed == !EndsConsistent(matters, log[..i])
      invariant NeverStops(known, matters, log[..i])
    {
      var e := log[i];
      assert log[..i + 1][..i] == log[..i];
      if IsMembershipBody(e.body) {
        if e.command in f.commands || e.scoped || e.subject !in known || e.subject !in f.born
           || e.subject in f.dismissed {
          assert !Admissible(known, Skimmed(matters, log[..i]), log[i]);
          return None;
        }
        failed := !Consistent(matters, f, e);
      }
      NeverStopsGrows(known, matters, log, i);
      f := Folding(matters, f, e);
    }
    assert log[..|log|] == log;
    r := if failed then None else Some(f);
  }

  lemma NeverStopsGrows(known: set<Id>, matters: set<Id>, log: seq<Event>, n: nat)
    requires n < |log|
    ensures NeverStops(known, matters, log[..n + 1])
            <==> NeverStops(known, matters, log[..n])
                 && (IsMembershipBody(log[n].body) ==> Admissible(known, Skimmed(matters, log[..n]), log[n]))
  {
    var more := log[..n + 1];
    assert more[..n] == log[..n] && more[n] == log[n];
    assert forall i | 0 <= i <= n :: more[..i] == log[..i] && (i < n ==> more[i] == log[i]);
    assert forall i | 0 <= i < n :: log[..n][..i] == log[..i] && log[..n][i] == log[i];
  }

  /** What the fold accepts the loop accepts, with the same maps. */
  lemma {:induction false} FoldPassesLoop(known: set<Id>, matters: set<Id>, log: seq<Event>)
    requires Fold(known, matters, log).Some?
    ensures NeverStops(known, matters, log) && EndsConsistent(matters, log)
    ensures Skimmed(matters, log) == Fold(known, matters, log).value
  {
    if log != [] {
      var n := |log| - 1;
      FoldPassesLoop(known, matters, log[..n]);
      NeverStopsGrows(known, matters, log, n);
      assert log[..n + 1] == log;
      if !IsMembershipBody(log[n].body) {
        assert EndsConsistent(matters, log) == EndsConsistent(matters, log[..n]);
      }
    }
  }

  /** Every membership event is consistent where it stands. */
  ghost predicate AlwaysConsistent(matters: set<Id>, log: seq<Event>) {
    forall i | 0 <= i < |log| && IsMembershipBody(log[i].body) ::
      Consistent(matters, Skimmed(matters, log[..i]), log[i])
  }

  lemma AlwaysConsistentGrows(matters: set<Id>, log: seq<Event>, n: nat)
    requires n < |log|
    ensures AlwaysConsistent(matters, log[..n + 1])
            <==> AlwaysConsistent(matters, log[..n])
                 && (IsMembershipBody(log[n].body) ==> Consistent(matters, Skimmed(matters, log[..n]), log[n]))
  {
    var more := log[..n + 1];
    assert more[..n] == log[..n] && more[n] == log[n];
    assert forall i | 0 <= i <= n :: more[..i] == log[..i] && (i < n ==> more[i] == log[i]);
    assert forall i | 0 <= i < n :: log[..n][..i] == log[..i] && log[..n][i] == log[i];
  }

  /** The fold refuses what stops the loop and every inconsistent event, wherever it
      stands; the loop looks only at the last one. */
  lemma {:induction false} FoldExactly(known: set<Id>, matters: set<Id>, log: seq<Event>)
    ensures Fold(known, matters, log).Some? <==> NeverStops(known, matters, log) && AlwaysConsistent(matters, log)
  {
    if log != [] {
      var n := |log| - 1;
      FoldExactly(known, matters, log[..n]);
      if Fold(known, matters, log[..n]).Some? {
        FoldPassesLoop(known, matters, log[..n]);
      }
      NeverStopsGrows(known, matters, log, n);
      AlwaysConsistentGrows(matters, log, n);
      assert log[..n + 1] == log;
    }
  }

  /** The loop forgets: a join of a pair that is already active, followed by a leave,
      passes it, on every log and pair; the fold refuses. */
  lemma LoopForgets(known: set<Id>, matters: set<Id>, log: seq<Event>, again: Event, leave: Event, b: Id, m: Id)
    requires Fold(known, matters, log).Some? && ActiveIsOpen(Fold(known, matters, log).value)
    requires var f := Fold(known, matters, log).value;
             && (b, m) in f.active && b in known && b in f.born && b !in f.dismissed
             && again.command !in f.commands && leave.command !in f.commands && again.command != leave.command
    requires again.subject == leave.subject == b && !again.scoped && !leave.scoped
    requires again.body == Joined(m) && leave.body == Left(m)
    ensures var more := log + [again, leave];
            && NeverStops(known, matters, more) && EndsConsistent(matters, more)
            && Fold(known, matters, more).None?
  {
    FoldPassesLoop(known, matters, log);
    var f := Fold(known, matters, log).value;
    var g := Folding(matters, f, again);
    assert g == f.(commands := f.commands + {again.command});
    LoopAppend(known, matters, log, again);
    LoopAppend(known, matters, log + [again], leave);
    FoldAppend(known, matters, log, again);
    var more := log + [again, leave];
    assert more == log + [again] + [leave] && more[..|log| + 1] == log + [again];
  }

  /** What one more event does to the loop. */
  lemma LoopAppend(known: set<Id>, matters: set<Id>, log: seq<Event>, e: Event)
    requires NeverStops(known, matters, log)
    requires IsMembershipBody(e.body) ==> Admissible(known, Skimmed(matters, log), e)
    ensures NeverStops(known, matters, log + [e])
            && Skimmed(matters, log + [e]) == Folding(matters, Skimmed(matters, log), e)
    ensures IsMembershipBody(e.body) ==>
              EndsConsistent(matters, log + [e]) == Consistent(matters, Skimmed(matters, log), e)
  {
    var more := log + [e];
    assert more[..|log|] == log && more[|log|] == e;
    NeverStopsGrows(known, matters, more, |log|);
    assert more[..|log| + 1] == more;
  }

  lemma {:induction false} FoldStops(known: set<Id>, matters: set<Id>, log: seq<Event>, p: nat)
    requires p <= |log| && Fold(known, matters, log[..p]).None?
    ensures Fold(known, matters, log).None?
    decreases |log| - p
  {
    if p == |log| {
      assert log[..p] == log;
    } else {
      assert log[..p + 1][..p] == log[..p];
      FoldStops(known, matters, log, p + 1);
    }
  }

  lemma FoldAppend(known: set<Id>, matters: set<Id>, log: seq<Event>, e: Event)
    requires Fold(known, matters, log).Some?
    ensures Fold(known, matters, log + [e]) == FoldEvent(known, matters, Fold(known, matters, log).value, e)
  {
    assert (log + [e])[..|log|] == log;
  }

  /** Batches and Matters that come later do not disturb an accepted fold. */
  lemma {:induction false} FoldMonotone(known: set<Id>, matters: set<Id>, more: set<Id>, others: set<Id>,
                                        log: seq<Event>)
    requires known <= more && matters <= others && Fold(known, matters, log).Some?
    ensures Fold(more, others, log) == Fold(known, matters, log)
  {
    if log != [] {
      FoldMonotone(known, matters, more, others, log[..|log| - 1]);
    }
  }

  // ---------------------------------------------------------------- the tables are the fold

  /** The active pairs are exactly the episodes without a leave event. */
  ghost predicate ActiveIsOpen(f: Folded) {
    && (forall b, m | (b, m) in f.active ::
          f.active[(b, m)] in f.episodes && f.episodes[f.active[(b, m)]] == Membership(b, m, f.active[(b, m)], 0))
    && (forall e | e in f.episodes && f.episodes[e].left == 0 ::
          (f.episodes[e].batch, f.episodes[e].matter) in f.active
          && f.active[(f.episodes[e].batch, f.episodes[e].matter)] == e)
  }

  /** The reopen check's comparison of the tables with the fold. */
  ghost predicate TablesAgree(s: Store, f: Folded) {
    && f.episodes == s.members
    && (forall b | b in f.dismissed :: b in s.batches && s.batches[b].dismissed == f.dismissed[b] != 0)
    && (forall b | b in s.batches && s.batches[b].dismissed != 0 :: b in f.dismissed)
  }

  ghost predicate BirthsAgree(batches: map<Id, Batch>, births: map<Id, Batch>) {
    && batches.Keys == births.Keys
    && (forall b | b in batches :: b in births && births[b] == batches[b].(dismissed := 0))
  }

  ghost predicate LogOk(log: seq<Event>, terminals: map<Id, Terminal>) {
    && (forall i | 0 <= i < |log| ::
          log[i].id > 0 && log[i].command in terminals && terminals[log[i].command].noop.None?)
    && (forall i, k | 0 <= i < k < |log| :: log[i].id < log[k].id)
  }

  /** Everything folded came from an event of the log. */
  ghost predicate FoldedFrom(f: Folded, log: seq<Event>) {
    && (forall c | c in f.commands :: exists i :: 0 <= i < |log| && log[i].command == c)
    && (forall e | e in f.episodes :: exists i :: 0 <= i < |log| && log[i].id == e)
  }

  ghost predicate FoldInv(s: Store) {
    && Births(s.log).Some? && BirthsAgree(s.batches, Births(s.log).value)
    && Fold(s.batches.Keys, s.matters, s.log).Some?
    && var f := Fold(s.batches.Keys, s.matters, s.log).value;
       TablesAgree(s, f) && ActiveIsOpen(f) && FoldedFrom(f, s.log) && s.batches.Keys <= f.born
  }

  ghost predicate Inv(s: Store) {
    LogOk(s.log, s.terminals) && FoldInv(s)
  }

  lemma ActiveAgrees(s: Store, f: Folded, b: Id, m: Id)
    requires TablesAgree(s, f) && ActiveIsOpen(f)
    ensures IsActive(s.members, b, m) <==> (b, m) in f.active
  {
    if (b, m) in f.active {
      assert s.members[f.active[(b, m)]].left == 0;
    }
  }

  lemma DismissedAgrees(s: Store, f: Folded, b: Id)
    requires TablesAgree(s, f) && b in s.batches
    ensures s.batches[b].dismissed != 0 <==> b in f.dismissed
  {
  }

  lemma LogOkAppend(s: Store, c: Command, body: Body)
    requires LogOk(s.log, s.terminals) && Admits(s, c)
    ensures LogOk(s.log + [EventOf(c, body)], s.terminals[c.id := Terminal(c.mark, None)])
    ensures forall i | 0 <= i < |s.log| :: s.log[i].command != c.id && s.log[i].id < c.event
  {
    if s.log != [] {
      assert forall i | 0 <= i < |s.log| - 1 :: s.log[i].id < s.log[|s.log| - 1].id;
    }
  }

  lemma FoldedFromGrows(f: Folded, g: Folded, log: seq<Event>, e: Event)
    requires FoldedFrom(f, log) && g.commands <= f.commands + {e.command} && g.episodes.Keys <= f.episodes.Keys + {e.id}
    ensures FoldedFrom(g, log + [e])
  {
    var more := log + [e];
    assert more[|log|] == e;
    forall c | c in g.commands
      ensures exists i :: 0 <= i < |more| && more[i].command == c
    {
      if c != e.command {
        var i :| 0 <= i < |log| && log[i].command == c;
        assert more[i].command == c;
      }
    }
    forall k | k in g.episodes
      ensures exists i :: 0 <= i < |more| && more[i].id == k
    {
      if k != e.id {
        var i :| 0 <= i < |log| && log[i].id == k;
        assert more[i].id == k;
      }
    }
  }

  /** A membership event just written passes the fold and moves it as the tables moved. */
  lemma MembershipFolds(s: Store, c: Command, body: Body, f: Folded)
    requires TablesAgree(s, f) && ActiveIsOpen(f) && s.batches.Keys <= f.born && c.event > 0
    requires c.id !in f.commands && c.event !in f.episodes
    requires Decide(s, c.op) == Write(body) && (c.op.Join? || c.op.Leave? || c.op.Dismiss?)
    ensures var r := FoldEvent(s.batches.Keys, s.matters, f, EventOf(c, body));
            && r.Some? && TablesAgree(Tables(s, c), r.value) && r.value.born == f.born
            && r.value.commands == f.commands + {c.id} && r.value.episodes.Keys <= f.episodes.Keys + {c.event}
  {
    DismissedAgrees(s, f, c.op.batch);
    match c.op
    case Join(b, m) => ActiveAgrees(s, f, b, m);
    case Leave(b, m) =>
      ActiveAgrees(s, f, b, m);
      DepartedIsOne(f, b, m, c.event);
    case Dismiss(b) =>
  }

  /** The UPDATE touches exactly one row, the pair's open episode. */
  lemma DepartedIsOne(f: Folded, b: Id, m: Id, event: EventId)
    requires ActiveIsOpen(f) && (b, m) in f.active
    ensures var joined := f.active[(b, m)];
            joined in f.episodes
            && Departed(f.episodes, b, m, event) == f.episodes[joined := f.episodes[joined].(left := event)]
  {
    var joined := f.active[(b, m)];
    assert f.episodes[joined] == Membership(b, m, joined, 0);
  }

  lemma OpenKept(known: set<Id>, matters: set<Id>, f: Folded, e: Event)
    requires ActiveIsOpen(f) && e.id > 0 && e.id !in f.episodes && FoldEvent(known, matters, f, e).Some?
    ensures ActiveIsOpen(FoldEvent(known, matters, f, e).value)
  {
    match e.body
    case Left(m) =>
      var joined := f.active[(e.subject, m)];
      assert f.episodes[joined] == Membership(e.subject, m, joined, 0);
    case _ =>
  }

  lemma BirthsAppend(log: seq<Event>, e: Event)
    requires Births(log).Some?
    ensures Births(log + [e]) ==
            if !e.body.BatchCreated? || e.scoped then Births(log)
            else if e.subject in Births(log).value || NameTaken(Births(log).value, e.body.name) then None
            else Some(Births(log).value[e.subject := Batch(e.body.name, e.id, 0)])
  {
    assert (log + [e])[..|log|] == log;
  }

  lemma NamesAgree(batches: map<Id, Batch>, births: map<Id, Batch>, name: string)
    requires BirthsAgree(batches, births)
    ensures NameTaken(batches, name) == NameTaken(births, name)
  {
    if NameTaken(batches, name) {
      var b :| b in batches && batches[b].name == name;
      assert births[b].name == name;
    }
    if b :| b in births && births[b].name == name {
      assert batches[b].name == name;
    }
  }

  lemma BirthAdded(batches: map<Id, Batch>, births: map<Id, Batch>, b: Id, name: string, event: EventId)
    requires BirthsAgree(batches, births) && b !in batches
    ensures BirthsAgree(batches[b := Batch(name, event, 0)], births[b := Batch(name, event, 0)])
  {
  }

  lemma DismissalKeepsBirths(batches: map<Id, Batch>, births: map<Id, Batch>, b: Id, event: EventId)
    requires BirthsAgree(batches, births) && b in batches
    ensures BirthsAgree(batches[b := batches[b].(dismissed := event)], births)
  {
  }

  lemma BirthsKept(s: Store, c: Command, body: Body)
    requires Births(s.log).Some? && BirthsAgree(s.batches, Births(s.log).value) && Decide(s, c.op) == Write(body)
    ensures Births(s.log + [EventOf(c, body)]).Some?
    ensures BirthsAgree(Tables(s, c).batches, Births(s.log + [EventOf(c, body)]).value)
  {
    var births := Births(s.log).value;
    BirthsAppend(s.log, EventOf(c, body));
    match c.op
    case Create(b, name) =>
      NamesAgree(s.batches, births, name);
      BirthAdded(s.batches, births, b, name, c.event);
    case Dismiss(b) => DismissalKeepsBirths(s.batches, births, b, c.event);
    case _ => assert Tables(s, c).batches == s.batches;
  }

  /** Any other event just written, likewise. */
  lemma OtherFolds(s: Store, c: Command, body: Body, f: Folded)
    requires TablesAgree(s, f) && s.batches.Keys <= f.born
    requires Decide(s, c.op) == Write(body) && !(c.op.Join? || c.op.Leave? || c.op.Dismiss?)
    ensures var t := Tables(s, c);
            var r := FoldEvent(t.batches.Keys, t.matters, f, EventOf(c, body));
            && r.Some? && TablesAgree(t, r.value) && t.batches.Keys <= r.value.born
            && r.value.commands == f.commands && r.value.episodes == f.episodes
  {
  }

  lemma EventFolds(s: Store, c: Command, body: Body, f: Folded)
    requires TablesAgree(s, f) && ActiveIsOpen(f) && s.batches.Keys <= f.born && c.event > 0
    requires c.id !in f.commands && c.event !in f.episodes && Decide(s, c.op) == Write(body)
    ensures var t := Tables(s, c);
            var r := FoldEvent(t.batches.Keys, t.matters, f, EventOf(c, body));
            && r.Some? && TablesAgree(t, r.value) && t.batches.Keys <= r.value.born
            && r.value.commands <= f.commands + {c.id} && r.value.episodes.Keys <= f.episodes.Keys + {c.event}
  {
    if c.op.Join? || c.op.Leave? || c.op.Dismiss? {
      MembershipFolds(s, c, body, f);
      assert Tables(s, c).batches.Keys == s.batches.Keys;
    } else {
      OtherFolds(s, c, body, f);
    }
  }

  lemma FreshInFold(s: Store, c: Command, body: Body, f: Folded)
    requires LogOk(s.log, s.terminals) && Admits(s, c) && FoldedFrom(f, s.log)
    ensures c.id !in f.commands && c.event !in f.episodes && c.event > 0
  {
    LogOkAppend(s, c, body);
  }

  lemma FoldStep(s: Store, c: Command, body: Body, f: Folded)
    requires LogOk(s.log, s.terminals) && Admits(s, c) && Decide(s, c.op) == Write(body)
    requires Fold(s.batches.Keys, s.matters, s.log) == Some(f)
    requires TablesAgree(s, f) && ActiveIsOpen(f) && FoldedFrom(f, s.log) && s.batches.Keys <= f.born
    ensures var t := Tables(s, c);
            var r := Fold(t.batches.Keys, t.matters, s.log + [EventOf(c, body)]);
            && r.Some? && TablesAgree(t, r.value) && ActiveIsOpen(r.value)
            && FoldedFrom(r.value, s.log + [EventOf(c, body)]) && t.batches.Keys <= r.value.born
  {
    var t, e := Tables(s, c), EventOf(c, body);
    assert s.batches.Keys <= t.batches.Keys && s.matters <= t.matters;
    FoldMonotone(s.batches.Keys, s.matters, t.batches.Keys, t.matters, s.log);
    FoldAppend(t.batches.Keys, t.matters, s.log, e);
    FreshInFold(s, c, body, f);
    EventFolds(s, c, body, f);
    OpenKept(t.batches.Keys, t.matters, f, e);
    FoldedFromGrows(f, FoldEvent(t.batches.Keys, t.matters, f, e).value, s.log, e);
  }

  /** Every command keeps the tables equal to both folds of the log. */
  lemma ApplyKeepsInv(s: Store, c: Command)
    requires Inv(s) && Admits(s, c)
    ensures Inv(Apply(s, c))
  {
    match Decide(s, c.op)
    case Write(body) =>
      LogOkAppend(s, c, body);
      BirthsKept(s, c, body);
      FoldStep(s, c, body, Fold(s.batches.Keys, s.matters, s.log).value);
      assert Apply(s, c).log == s.log + [EventOf(c, body)];
    case _ =>
  }

  // ---------------------------------------------------------------- the read fold of one Batch

  datatype Reading = Reading(name: string, birth: EventId, dismissed: EventId, active: map<Id, EventId>,
                             anonymous: bool, repos: set<Id>)

  function ReadEvent(before: Reading, e: Event, batch: Id): Option<Reading> {
    var r := if e.body.MatterCreated? && e.scoped then before.(repos := before.repos + {e.subject}) else before;
    if e.subject != batch then Some(r)
    else if e.body.BatchCreated? && e.scoped then Some(r.(anonymous := true))
    else if r.anonymous then Some(r)
    else
      match e.body
      case BatchCreated(name) => if r.name != "" || name == "" then None else Some(r.(name := name, birth := e.id))
      case Joined(m) =>
        if e.scoped || r.name == "" || m in r.active then None else Some(r.(active := r.active[m := e.id]))
      case Left(m) => if e.scoped || m !in r.active then None else Some(r.(active := r.active - {m}))
      case Dismissed => if e.scoped || r.dismissed != 0 || r.name == "" then None else Some(r.(dismissed := e.id))
      case _ => Some(r)
  }

  function ReadFold(log: seq<Event>, batch: Id): Option<Reading> {
    if log == [] then Some(Reading("", 0, 0, map[], false, {}))
    else
      match ReadFold(log[..|log| - 1], batch)
      case None => None
      case Some(r) => ReadEvent(r, log[|log| - 1], batch)
  }

  /** foldNamedBatchReadPrefix: the fold, and every joined Matter has a known Repo. */
  function Read(log: seq<Event>, batch: Id): Option<Reading> {
    var r := ReadFold(log, batch);
    if r.Some? && r.value.name != "" && !(r.value.active.Keys <= r.value.repos) then None else r
  }

  method ReadPrefix(log: seq<Event>, count: nat, batch: Id) returns (r: Option<Reading>)
    requires count <= |log|
    ensures r == Read(log[..count], batch)
  {
    var f := Reading("", 0, 0, map[], false, {});
    for i := 0 to count
      invariant ReadFold(log[..i], batch) == Some(f)
    {
      assert log[..i + 1][..i] == log[..i];
      var next := ReadEvent(f, log[i], batch);
      if next.None? {
        ReadStops(log[..count], batch, i + 1);
        assert log[..count][..i + 1] == log[..i + 1];
        return None;
      }
      f := next.value;
    }
    r := if f.name != "" && !(f.active.Keys <= f.repos) then None else Some(f);
  }

  lemma {:induction false} ReadStops(log: seq<Event>, batch: Id, p: nat)
    ensures p <= |log| && ReadFold(log[..p], batch).None? ==> ReadFold(log, batch).None?
    decreases |log| - p
  {
    if p == |log| {
      assert log[..p] == log;
    } else if p < |log| {
      assert log[..p + 1][..p] == log[..p];
      ReadStops(log, batch, p + 1);
    }
  }

  /** No birth of the Batch carries a Repo, as births in legacy histories do. */
  ghost predicate NoLegacyBirth(log: seq<Event>, batch: Id) {
    forall i | 0 <= i < |log| && log[i].subject == batch && log[i].body.BatchCreated? :: !log[i].scoped
  }

  /** Events carry ids, and a named birth carries a name. */
  ghost predicate Proper(log: seq<Event>) {
    forall i | 0 <= i < |log| ::
      log[i].id > 0 && (log[i].body.BatchCreated? && !log[i].scoped ==> log[i].body.name != "")
  }

  /** The reading of a Batch says what the two whole-log folds say of it. */
  ghost predicate SaysTheSame(r: Reading, births: map<Id, Batch>, f: Folded, batch: Id) {
    && !r.anonymous && (batch in f.born ==> batch in births)
    && (if batch in births then r.name == births[batch].name != "" && r.birth == births[batch].birth
        else r.name == "" && r.birth == 0)
    && r.dismissed == (if batch in f.dismissed then f.dismissed[batch] else 0)
    && (batch in f.dismissed ==> f.dismissed[batch] > 0)
    && (forall m :: m in r.active <==> (batch, m) in f.active)
    && (forall m | m in r.active :: r.active[m] == f.active[(batch, m)])
  }

  lemma OtherBatchSays(known: set<Id>, matters: set<Id>, r: Reading, births: map<Id, Batch>, f: Folded, e: Event,
                       batch: Id, next: map<Id, Batch>)
    requires SaysTheSame(r, births, f, batch) && FoldEvent(known, matters, f, e).Some? && e.id > 0
    requires !(e.subject == batch && e.body.BatchCreated? && e.scoped)
    requires e.body.BatchCreated? && !e.scoped ==> e.body.name != "" && e.subject !in births
    requires next
             == if e.body.BatchCreated? && !e.scoped then births[e.subject := Batch(e.body.name, e.id, 0)] else births
    requires e.subject != batch
    ensures ReadEvent(r, e, batch).Some?
    ensures SaysTheSame(ReadEvent(r, e, batch).value, next, FoldEvent(known, matters, f, e).value, batch)
  {
  }

  lemma OwnBirthSays(known: set<Id>, matters: set<Id>, r: Reading, births: map<Id, Batch>, f: Folded, e: Event,
                     batch: Id, next: map<Id, Batch>)
    requires SaysTheSame(r, births, f, batch) && FoldEvent(known, matters, f, e).Some? && e.id > 0
    requires !(e.subject == batch && e.body.BatchCreated? && e.scoped)
    requires e.body.BatchCreated? && !e.scoped ==> e.body.name != "" && e.subject !in births
    requires next
             == if e.body.BatchCreated? && !e.scoped then births[e.subject := Batch(e.body.name, e.id, 0)] else births
    requires e.subject == batch && !IsMembershipBody(e.body)
    ensures ReadEvent(r, e, batch).Some?
    ensures SaysTheSame(ReadEvent(r, e, batch).value, next, FoldEvent(known, matters, f, e).value, batch)
  {
  }

  lemma OwnMemberSays(known: set<Id>, matters: set<Id>, r: Reading, births: map<Id, Batch>, f: Folded, e: Event,
                      batch: Id, next: map<Id, Batch>)
    requires SaysTheSame(r, births, f, batch) && FoldEvent(known, matters, f, e).Some? && e.id > 0
    requires !(e.subject == batch && e.body.BatchCreated? && e.scoped)
    requires e.body.BatchCreated? && !e.scoped ==> e.body.name != "" && e.subject !in births
    requires next
             == if e.body.BatchCreated? && !e.scoped then births[e.subject := Batch(e.body.name, e.id, 0)] else births
    requires e.subject == batch && IsMembershipBody(e.body)
    ensures ReadEvent(r, e, batch).Some?
    ensures SaysTheSame(ReadEvent(r, e, batch).value, next, FoldEvent(known, matters, f, e).value, batch)
  {
  }

  lemma ReadEventSays(known: set<Id>, matters: set<Id>, r: Reading, births: map<Id, Batch>, f: Folded, e: Event,
                      batch: Id, next: map<Id, Batch>)
    requires SaysTheSame(r, births, f, batch) && FoldEvent(known, matters, f, e).Some? && e.id > 0
    requires !(e.subject == batch && e.body.BatchCreated? && e.scoped)
    requires e.body.BatchCreated? && !e.scoped ==> e.body.name != "" && e.subject !in births
    requires next
             == if e.body.BatchCreated? && !e.scoped then births[e.subject := Batch(e.body.name, e.id, 0)] else births
    ensures ReadEvent(r, e, batch).Some?
    ensures SaysTheSame(ReadEvent(r, e, batch).value, next, FoldEvent(known, matters, f, e).value, batch)
  {
    if e.subject != batch {
      OtherBatchSays(known, matters, r, births, f, e, batch, next);
    } else if IsMembershipBody(e.body) {
      OwnMemberSays(known, matters, r, births, f, e, batch, next);
    } else {
      OwnBirthSays(known, matters, r, births, f, e, batch, next);
    }
  }

  /** On any log both whole-log folds accept, legacy births included, the read fold
      accepts; it says the same of a Batch exactly when that has no legacy birth. */
  lemma {:induction false} ReadAgrees(known: set<Id>, matters: set<Id>, log: seq<Event>, batch: Id)
    requires Births(log).Some? && Fold(known, matters, log).Some? && Proper(log)
    ensures ReadFold(log, batch).Some?
    ensures ReadFold(log, batch).value.anonymous <==> !NoLegacyBirth(log, batch)
    ensures SaysTheSame(ReadFold(log, batch).value, Births(log).value, Fold(known, matters, log).value, batch)
            <==> NoLegacyBirth(log, batch)
  {
    if log != [] {
      var before, e := log[..|log| - 1], log[|log| - 1];
      assert log == before + [e];
      ReadAgrees(known, matters, before, batch);
      LegacyGrows(before, e, batch);
      ReadStep(known, matters, ReadFold(before, batch).value, Births(before).value,
               Fold(known, matters, before).value, e, batch, Births(log).value);
    }
  }

  /** One event more: the reading goes on saying the same unless the event is a legacy
      birth, and does not say the same again after one. */
  lemma ReadStep(known: set<Id>, matters: set<Id>, r: Reading, births: map<Id, Batch>, f: Folded, e: Event, batch: Id,
                 next: map<Id, Batch>)
    requires (r.anonymous || SaysTheSame(r, births, f, batch)) && FoldEvent(known, matters, f, e).Some? && e.id > 0
    requires e.body.BatchCreated? && !e.scoped ==> e.body.name != "" && e.subject !in births
    requires next
             == if e.body.BatchCreated? && !e.scoped then births[e.subject := Batch(e.body.name, e.id, 0)] else births
    ensures ReadEvent(r, e, batch).Some?
    ensures ReadEvent(r, e, batch).value.anonymous <==>
            r.anonymous || (e.subject == batch && e.body.BatchCreated? && e.scoped)
    ensures SaysTheSame(ReadEvent(r, e, batch).value, next, FoldEvent(known, matters, f, e).value, batch) <==>
            !ReadEvent(r, e, batch).value.anonymous
  {
    if !r.anonymous && !(e.subject == batch && e.body.BatchCreated? && e.scoped) {
      ReadEventSays(known, matters, r, births, f, e, batch, next);
    }
  }

  lemma LegacyGrows(log: seq<Event>, e: Event, batch: Id)
    ensures NoLegacyBirth(log + [e], batch) <==>
            NoLegacyBirth(log, batch) && !(e.subject == batch && e.body.BatchCreated? && e.scoped)
  {
    var more := log + [e];
    assert more[|log|] == e && forall i | 0 <= i < |log| :: more[i] == log[i];
    if !NoLegacyBirth(log, batch) {
      var i :| 0 <= i < |log| && log[i].subject == batch && log[i].body.BatchCreated? && log[i].scoped;
      assert more[i].scoped;
    }
  }

  /** The repo-scoped births the read fold has seen. */
  ghost predicate ReposSeen(log: seq<Event>, matters: set<Id>) {
    forall m | m in matters ::
      exists i :: 0 <= i < |log| && log[i].subject == m && log[i].body.MatterCreated? && log[i].scoped
  }

  lemma {:induction false} ReposAreSeen(log: seq<Event>, batch: Id, m: Id)
    requires ReadFold(log, batch).Some?
    requires exists i :: 0 <= i < |log| && log[i].subject == m && log[i].body.MatterCreated? && log[i].scoped
    ensures m in ReadFold(log, batch).value.repos
  {
    var i :| 0 <= i < |log| && log[i].subject == m && log[i].body.MatterCreated? && log[i].scoped;
    if i < |log| - 1 {
      assert log[..|log| - 1][i] == log[i];
      ReposAreSeen(log[..|log| - 1], batch, m);
    }
  }

  /** The one writer of batch.created gives it no Repo. */
  ghost predicate Unscoped(log: seq<Event>) {
    forall i | 0 <= i < |log| && log[i].body.BatchCreated? :: !log[i].scoped
  }

  ghost predicate ReadInv(s: Store) {
    && Proper(s.log) && ReposSeen(s.log, s.matters) && Unscoped(s.log)
    && forall e | e in s.members :: s.members[e].matter in s.matters
  }

  lemma ReposSeenGrows(log: seq<Event>, matters: set<Id>, e: Event)
    requires ReposSeen(log, matters)
    ensures ReposSeen(log + [e], if e.body.MatterCreated? && e.scoped then matters + {e.subject} else matters)
  {
    var more := log + [e];
    assert more[|log|] == e;
    forall m | m in matters
      ensures exists i :: 0 <= i < |more| && more[i].subject == m && more[i].body.MatterCreated? && more[i].scoped
    {
      var i :| 0 <= i < |log| && log[i].subject == m && log[i].body.MatterCreated? && log[i].scoped;
      assert more[i] == log[i];
    }
  }

  lemma ApplyKeepsReadInv(s: Store, c: Command)
    requires ReadInv(s) && Admits(s, c)
    ensures ReadInv(Apply(s, c))
  {
    if Decide(s, c.op).Write? {
      ReposSeenGrows(s.log, s.matters, EventOf(c, Decide(s, c.op).body));
    }
  }

  /** The tables' answer about one Batch. */
  ghost predicate TablesSay(s: Store, r: Reading, batch: Id) {
    && (if batch in s.batches
        then r.name == s.batches[batch].name != "" && r.birth == s.batches[batch].birth
             && r.dismissed == s.batches[batch].dismissed
        else r.name == "" && r.birth == 0)
    && (forall m :: m in r.active <==> IsActive(s.members, batch, m))
    && (forall m | m in r.active ::
          r.active[m] in s.members && s.members[r.active[m]] == Membership(batch, m, r.active[m], 0))
  }

  /** Reading a named Batch from the log answers exactly what its tables hold. */
  lemma ReadIsTables(s: Store, batch: Id)
    requires Inv(s) && ReadInv(s)
    ensures Read(s.log, batch).Some? && TablesSay(s, Read(s.log, batch).value, batch)
  {
    var f := Fold(s.batches.Keys, s.matters, s.log).value;
    ReadAgrees(s.batches.Keys, s.matters, s.log, batch);
    var r := ReadFold(s.log, batch).value;
    forall m
      ensures m in r.active <==> IsActive(s.members, batch, m)
      ensures m in r.active
              ==> m in r.repos && r.active[m] in s.members
                  && s.members[r.active[m]] == Membership(batch, m, r.active[m], 0)
    {
      ActiveAgrees(s, f, batch, m);
      if m in r.active {
        assert s.members[r.active[m]].matter == m && m in s.matters;
        ReposAreSeen(s.log, batch, m);
      }
    }
  }

  // ---------------------------------------------------------------- the receipt history

  datatype EntryKind = WasBorn | WasNoop | WasJoined | WasLeft | WasDismissed

  /** position is 0 for a receipt without an event. */
  datatype Entry = Entry(batch: Id, matter: Id, kind: EntryKind, mark: Mark, position: nat)

  datatype Replayed = Replayed(born: set<Id>, dismissed: set<Id>, active: set<(Id, Id)>, last: nat)

  function ReplayEntry(h: Replayed, x: Entry): Option<Replayed> {
    var isEvent := x.position > 0;
    if isEvent && x.position <= h.last then None
    else
      var g := if isEvent then h.(last := x.position) else h;
      match x.kind
      case WasBorn => if !isEvent || x.batch in h.born then None else Some(g.(born := h.born + {x.batch}))
      case WasNoop =>
        if isEvent || x.batch !in h.born || x.batch in h.dismissed || (x.batch, x.matter) !in h.active then None
        else Some(g)
      case WasJoined =>
        if !isEvent || x.matter == "" || x.batch !in h.born || x.batch in h.dismissed
           || (x.batch, x.matter) in h.active then None
        else Some(g.(active := h.active + {(x.batch, x.matter)}))
      case WasLeft =>
        if !isEvent || x.matter == "" || x.batch !in h.born || x.batch in h.dismissed
           || (x.batch, x.matter) !in h.active then None
        else Some(g.(active := h.active - {(x.batch, x.matter)}))
      case WasDismissed =>
        if !isEvent || x.batch !in h.born || x.batch in h.dismissed then None
        else Some(g.(dismissed := h.dismissed + {x.batch}))
  }

  function Replay(history: seq<Entry>): Option<Replayed> {
    if history == [] then Some(Replayed({}, {}, {}, 0))
    else
      match Replay(history[..|history| - 1])
      case None => None
      case Some(h) => ReplayEntry(h, history[|history| - 1])
  }

  /** The history entry of the event at index i, if it is a named Batch event. */
  function EventEntry(log: seq<Event>, terminals: map<Id, Terminal>, i: nat): Option<Entry>
    requires i < |log|
  {
    var e := log[i];
    if e.command !in terminals then None
    else
      var mark := terminals[e.command].mark;
      match e.body
      case BatchCreated(_) => if e.scoped then None else Some(Entry(e.subject, "", WasBorn, mark, i + 1))
      case Joined(m) => Some(Entry(e.subject, m, WasJoined, mark, i + 1))
      case Left(m) => Some(Entry(e.subject, m, WasLeft, mark, i + 1))
      case Dismissed => Some(Entry(e.subject, "", WasDismissed, mark, i + 1))
      case _ => None
  }

  predicate IsNoop(terminals: map<Id, Terminal>, c: Id, x: Entry) {
    c in terminals && terminals[c].noop.Some?
    && x == Entry(terminals[c].noop.value.0, terminals[c].noop.value.1, WasNoop, terminals[c].mark, 0)
  }

  /** What the check collects: the named Batch events and the joins without one. */
  ghost predicate IsEntry(s: Store, x: Entry) {
    || (exists i :: 0 <= i < |s.log| && EventEntry(s.log, s.terminals, i) == Some(x))
    || (exists c :: IsNoop(s.terminals, c, x))
  }

  ghost predicate Ascending(history: seq<Entry>) {
    forall i, k | 0 <= i < k < |history| :: Before(history[i].mark, history[k].mark)
  }

  ghost predicate IsHistory(s: Store, history: seq<Entry>) {
    Ascending(history) && forall x :: x in history <==> IsEntry(s, x)
  }

  ghost predicate ReplayAgrees(s: Store, h: Replayed) {
    && h.born == s.batches.Keys && h.dismissed <= h.born && h.last <= |s.log|
    && (forall b | b in s.batches :: b in h.dismissed <==> s.batches[b].dismissed != 0)
    && (forall b, m :: (b, m) in h.active <==> IsActive(s.members, b, m))
  }

  ghost predicate Accepted(s: Store, history: seq<Entry>) {
    IsHistory(s, history) && Replay(history).Some? && ReplayAgrees(s, Replay(history).value)
  }

  lemma ReplayAppend(history: seq<Entry>, x: Entry)
    requires Replay(history).Some?
    ensures Replay(history + [x]) == ReplayEntry(Replay(history).value, x)
  {
    assert (history + [x])[..|history|] == history;
  }

  lemma EntryMarks(s: Store, x: Entry)
    requires IsEntry(s, x)
    ensures exists c :: c in s.terminals && s.terminals[c].mark == x.mark
  {
    if i :| 0 <= i < |s.log| && EventEntry(s.log, s.terminals, i) == Some(x) {
      assert s.terminals[s.log[i].command].mark == x.mark;
    } else {
      var c :| IsNoop(s.terminals, c, x);
      assert s.terminals[c].mark == x.mark;
    }
  }

  /** The entry a command adds, if any. */
  function NewEntry(s: Store, c: Command): Option<Entry> {
    match Decide(s, c.op)
    case Write(body) => EventEntry(s.log + [EventOf(c, body)], s.terminals[c.id := Terminal(c.mark, None)], |s.log|)
    case NoChange => Some(Entry(c.op.batch, c.op.matter, WasNoop, c.mark, 0))
    case _ => None
  }

  lemma OldEntriesStay(s: Store, c: Command, x: Entry)
    requires LogOk(s.log, s.terminals) && Admits(s, c) && IsEntry(s, x)
    ensures IsEntry(Apply(s, c), x)
  {
    var t := Apply(s, c);
    if i :| 0 <= i < |s.log| && EventEntry(s.log, s.terminals, i) == Some(x) {
      EventEntriesAreOldOrNew(s, c, i);
    } else {
      var d :| IsNoop(s.terminals, d, x);
      assert IsNoop(t.terminals, d, x);
    }
  }

  lemma EventEntriesAreOldOrNew(s: Store, c: Command, i: nat)
    requires LogOk(s.log, s.terminals) && Admits(s, c) && i < |Apply(s, c).log|
    ensures var x := EventEntry(Apply(s, c).log, Apply(s, c).terminals, i);
            x == if i < |s.log| then EventEntry(s.log, s.terminals, i) else NewEntry(s, c)
  {
    if i < |s.log| {
      assert s.log[i].command in s.terminals;
      assert Apply(s, c).log[i] == s.log[i];
    }
  }

  lemma EntriesAreOldOrNew(s: Store, c: Command, x: Entry)
    requires LogOk(s.log, s.terminals) && Admits(s, c) && IsEntry(Apply(s, c), x)
    ensures IsEntry(s, x) || NewEntry(s, c) == Some(x)
  {
    var t := Apply(s, c);
    if i :| 0 <= i < |t.log| && EventEntry(t.log, t.terminals, i) == Some(x) {
      EventEntriesAreOldOrNew(s, c, i);
    } else {
      var d :| IsNoop(t.terminals, d, x);
      assert d != c.id ==> IsNoop(s.terminals, d, x);
    }
  }

  lemma NewEntryIsEntry(s: Store, c: Command)
    requires Admits(s, c) && NewEntry(s, c).Some?
    ensures IsEntry(Apply(s, c), NewEntry(s, c).value) && NewEntry(s, c).value.mark == c.mark
  {
    var t := Apply(s, c);
    if Decide(s, c.op).Write? {
      assert EventEntry(t.log, t.terminals, |s.log|) == NewEntry(s, c);
    } else {
      assert IsNoop(t.terminals, c.id, NewEntry(s, c).value);
    }
  }

  lemma HistoryGrows(s: Store, c: Command, history: seq<Entry>)
    requires LogOk(s.log, s.terminals) && Admits(s, c) && IsHistory(s, history)
    ensures IsHistory(Apply(s, c), if NewEntry(s, c).Some? then history + [NewEntry(s, c).value] else history)
  {
    var t, entry := Apply(s, c), NewEntry(s, c);
    var after := if entry.Some? then history + [entry.value] else history;
    forall x
      ensures x in after <==> IsEntry(t, x)
    {
      if IsEntry(s, x) {
        OldEntriesStay(s, c, x);
      }
      if IsEntry(t, x) {
        EntriesAreOldOrNew(s, c, x);
      }
      if entry == Some(x) {
        NewEntryIsEntry(s, c);
      }
    }
    if entry.Some? {
      NewEntryIsEntry(s, c);
      forall i | 0 <= i < |history|
        ensures Before(history[i].mark, entry.value.mark)
      {
        assert history[i] in history;
        EntryMarks(s, history[i]);
      }
    }
  }

  lemma NewEntryReplays(s: Store, c: Command, h: Replayed)
    requires ReplayAgrees(s, h) && Admits(s, c) && c.event > 0 && c.event !in s.members
    ensures match NewEntry(s, c)
            case None => ReplayAgrees(Apply(s, c), h)
            case Some(x) => ReplayEntry(h, x).Some? && ReplayAgrees(Apply(s, c), ReplayEntry(h, x).value)
  {
    match c.op
    case Join(b, m) => if Decide(s, c.op).Write? { JoinActive(s.members, b, m, c.event); }
    case Leave(b, m) => LeaveActive(s.members, b, m, c.event);
    case _ =>
  }

  lemma JoinActive(members: map<EventId, Membership>, b: Id, m: Id, event: EventId)
    requires event !in members
    ensures forall x, y ::
              IsActive(members[event := Membership(b, m, event, 0)], x, y)
              <==> IsActive(members, x, y) || (x, y) == (b, m)
  {
    var after := members[event := Membership(b, m, event, 0)];
    forall x, y
      ensures IsActive(after, x, y) <==> IsActive(members, x, y) || (x, y) == (b, m)
    {
      if IsActive(members, x, y) {
        var e :| e in members && members[e].batch == x && members[e].matter == y && members[e].left == 0;
        assert after[e] == members[e];
      }
      assert after[event].left == 0;
    }
  }

  lemma LeaveActive(members: map<EventId, Membership>, b: Id, m: Id, event: EventId)
    requires event > 0
    ensures forall x, y ::
              IsActive(Departed(members, b, m, event), x, y) <==> IsActive(members, x, y) && (x, y) != (b, m)
  {
    var after := Departed(members, b, m, event);
    forall x, y
      ensures IsActive(after, x, y) <==> IsActive(members, x, y) && (x, y) != (b, m)
    {
      if IsActive(members, x, y) && (x, y) != (b, m) {
        var e :| e in members && members[e].batch == x && members[e].matter == y && members[e].left == 0;
        assert after[e] == members[e];
      }
    }
  }

  lemma ApplyKeepsHistory(s: Store, c: Command, history: seq<Entry>) returns (after: seq<Entry>)
    requires Inv(s) && Admits(s, c) && Accepted(s, history)
    ensures Accepted(Apply(s, c), after)
  {
    var f := Fold(s.batches.Keys, s.matters, s.log).value;
    FreshInFold(s, c, OtherBody, f);
    HistoryGrows(s, c, history);
    NewEntryReplays(s, c, Replay(history).value);
    match NewEntry(s, c)
    case None => after := history;
    case Some(x) =>
      ReplayAppend(history, x);
      after := history + [x];
  }

  /** sort.Slice by artifact position: some arrangement in which no later entry is smaller. */
  ghost predicate Sorts(collected: seq<Entry>, history: seq<Entry>) {
    && multiset(collected) == multiset(history)
    && forall i, k | 0 <= i < k < |history| :: !Before(history[k].mark, history[i].mark)
  }

  /** Two ascending histories with the same entries are the same. */
  lemma {:induction false} AscendingUnique(a: seq<Entry>, b: seq<Entry>, n: nat)
    requires Ascending(a) && (forall i, k | 0 <= i < k < |b| :: !Before(b[k].mark, b[i].mark)) && n <= |a| == |b|
    requires (forall x :: x in a <==> x in b) && forall i, k | 0 <= i < k < |b| :: b[i] != b[k]
    ensures a[..n] == b[..n]
  {
    if n > 0 {
      AscendingUnique(a, b, n - 1);
      forall i | 0 <= i < n - 1
        ensures a[i] == b[i]
      {
        assert a[..n - 1][i] == b[..n - 1][i];
      }
      assert a[n - 1] in b && b[n - 1] in a;
      var k :| 0 <= k < |b| && b[k] == a[n - 1];
      var j :| 0 <= j < |a| && a[j] == b[n - 1];
      assert k >= n - 1 && j >= n - 1;
      assert a[..n] == a[..n - 1] + [a[n - 1]] && b[..n] == b[..n - 1] + [b[n - 1]];
    }
  }

  lemma {:induction false} DistinctSize(h: seq<Entry>)
    requires forall i, k | 0 <= i < k < |h| :: h[i] != h[k]
    ensures |set x | x in h| == |h|
  {
    if h != [] {
      var n := |h| - 1;
      DistinctSize(h[..n]);
      assert h == h[..n] + [h[n]];
      assert (set x | x in h) == (set x | x in h[..n]) + {h[n]};
    }
  }

  lemma {:induction false} DistinctCountsOne(h: seq<Entry>)
    requires forall i, k | 0 <= i < k < |h| :: h[i] != h[k]
    ensures forall x | x in h :: multiset(h)[x] == 1
  {
    if h != [] {
      var n := |h| - 1;
      DistinctCountsOne(h[..n]);
      assert h == h[..n] + [h[n]];
      assert h[n] !in multiset(h[..n]);
    }
  }

  lemma TwiceCountsTwo(h: seq<Entry>, i: nat, k: nat)
    requires i < k < |h| && h[i] == h[k]
    ensures multiset(h)[h[i]] >= 2
  {
    assert h == h[..k] + h[k..];
    assert h[..k][i] == h[i] && h[k..][0] == h[i];
    assert h[i] in multiset(h[..k]) && h[i] in multiset(h[k..]);
  }

  lemma SortsDistinct(collected: seq<Entry>, sorted: seq<Entry>)
    requires Sorts(collected, sorted) && forall i, k | 0 <= i < k < |collected| :: collected[i] != collected[k]
    ensures (forall i, k | 0 <= i < k < |sorted| :: sorted[i] != sorted[k])
            && forall x :: x in sorted <==> x in collected
  {
    assert forall x :: x in sorted <==> x in multiset(sorted);
    assert forall x :: x in collected <==> x in multiset(collected);
    DistinctCountsOne(collected);
    forall i, k | 0 <= i < k < |sorted|
      ensures sorted[i] != sorted[k]
    {
      assert sorted[i] in collected;
      if sorted[i] == sorted[k] {
        TwiceCountsTwo(sorted, i, k);
        assert false;
      }
    }
  }

  lemma SortedReplays(s: Store, collected: seq<Entry>, sorted: seq<Entry>)
    requires (exists history :: Accepted(s, history)) && Sorts(collected, sorted)
    requires forall i, k | 0 <= i < k < |collected| :: collected[i] != collected[k]
    requires forall x :: x in collected <==> IsEntry(s, x)
    ensures Replay(sorted).Some?
  {
    var history :| Accepted(s, history);
    SortsDistinct(collected, sorted);
    assert forall i, k | 0 <= i < k < |history| :: history[i] != history[k];
    DistinctSize(history);
    DistinctSize(sorted);
    assert (set x | x in history) == (set x | x in sorted);
    AscendingUnique(history, sorted, |history|);
    assert history == history[..|history|] && sorted == sorted[..|history|];
  }

  ghost predicate NoneLater(history: seq<Entry>) {
    forall i, k | 0 <= i < k < |history| :: !Before(history[k].mark, history[i].mark)
  }

  /** One step of an insertion sort by artifact position. */
  method SortInto(sorted: seq<Entry>, x: Entry) returns (r: seq<Entry>)
    requires NoneLater(sorted)
    ensures NoneLater(r) && multiset(r) == multiset(sorted) + multiset{x}
  {
    var at := 0;
    while at < |sorted| && !Before(x.mark, sorted[at].mark)
      invariant at <= |sorted| && forall i | 0 <= i < at :: !Before(x.mark, sorted[i].mark)
    {
      at := at + 1;
    }
    r := sorted[..at] + [x] + sorted[at..];
    assert sorted == sorted[..at] + sorted[at..];
    NoneLaterInserted(sorted, at, x, r);
  }

  lemma NoneLaterInserted(sorted: seq<Entry>, at: nat, x: Entry, r: seq<Entry>)
    requires NoneLater(sorted) && at <= |sorted| && r == sorted[..at] + [x] + sorted[at..]
    requires forall i | 0 <= i < at :: !Before(x.mark, sorted[i].mark)
    requires at < |sorted| ==> Before(x.mark, sorted[at].mark)
    ensures NoneLater(r)
  {
    assert forall i | 0 <= i < |r| :: r[i] == if i < at then sorted[i] else if i == at then x else sorted[i - 1];
    assert forall i | at <= i < |sorted| :: !Before(sorted[i].mark, x.mark);
  }

  /** checkNamedBatchMembershipReceiptHistory: sort, then replay entry by entry. */
  method CheckReceiptHistory(collected: seq<Entry>) returns (ok: bool)
    ensures exists sorted :: Sorts(collected, sorted) && ok == Replay(sorted).Some?
  {
    var history: seq<Entry> := [];
    for i := 0 to |collected|
      invariant NoneLater(history) && multiset(history) == multiset(collected[..i])
    {
      assert collected[..i + 1] == collected[..i] + [collected[i]];
      history := SortInto(history, collected[i]);
    }
    assert collected[..|collected|] == collected;
    assert Sorts(collected, history);
    var h := Replayed({}, {}, {}, 0);
    for i := 0 to |history|
      invariant Replay(history[..i]) == Some(h)
    {
      assert history[..i + 1][..i] == history[..i];
      var next := ReplayEntry(h, history[i]);
      if next.None? {
        ReplayStops(history, i + 1);
        return false;
      }
      h := next.value;
    }
    assert history[..|history|] == history;
    ok := true;
  }

  lemma {:induction false} ReplayStops(history: seq<Entry>, p: nat)
    requires p <= |history| && Replay(history[..p]).None?
    ensures Replay(history).None?
    decreases |history| - p
  {
    if p == |history| {
      assert history[..p] == history;
    } else {
      assert history[..p + 1][..p] == history[..p];
      ReplayStops(history, p + 1);
    }
  }

  // ---------------------------------------------------------------- the loop and the receipt order together

  /** The entries of the log's events, in log order. */
  function Entries(log: seq<Event>, terminals: map<Id, Terminal>): seq<Entry> {
    if log == [] then []
    else
      Entries(log[..|log| - 1], terminals)
      + match EventEntry(log, terminals, |log| - 1) case None => [] case Some(x) => [x]
  }

  /** Every Matter that is joined is in the Matter table. */
  ghost predicate MattersKnown(matters: set<Id>, log: seq<Event>) {
    forall i | 0 <= i < |log| && log[i].body.Joined? :: log[i].body.matter in matters
  }

  /** The strict fold and the replay of the events have seen the same. */
  ghost predicate SameSeen(f: Folded, h: Replayed, births: map<Id, Batch>, n: nat) {
    && h.born == f.born == births.Keys && h.dismissed == f.dismissed.Keys && h.active == f.active.Keys && h.last <= n
    && forall b :: (b, "") !in f.active
  }

  lemma EntriesAppend(log: seq<Event>, terminals: map<Id, Terminal>, e: Event)
    ensures Entries(log + [e], terminals)
            == Entries(log, terminals)
               + match EventEntry(log + [e], terminals, |log|) case None => [] case Some(x) => [x]
  {
    assert (log + [e])[..|log|] == log;
  }

  /** One event: the replay takes it exactly when it is consistent, where the loop lets it
      through and its Matter exists. */
  lemma SameStep(known: set<Id>, matters: set<Id>, log: seq<Event>, terminals: map<Id, Terminal>, e: Event, f: Folded,
                 h: Replayed, births: map<Id, Batch>)
    requires SameSeen(f, h, births, |log|) && ActiveIsOpen(f) && e.command in terminals
    requires IsMembershipBody(e.body) && Admissible(known, f, e) && (e.body.Joined? ==> e.body.matter in matters)
    requires "" !in matters
    ensures var x := EventEntry(log + [e], terminals, |log|);
            && x.Some? && (ReplayEntry(h, x.value).Some? <==> Consistent(matters, f, e))
            && (Consistent(matters, f, e) ==>
                  SameSeen(Folding(matters, f, e), ReplayEntry(h, x.value).value, births, |log| + 1))
  {
    assert (log + [e])[|log|] == e;
  }

  /** The same for any other event. */
  lemma SkippedStep(matters: set<Id>, log: seq<Event>, terminals: map<Id, Terminal>, e: Event, f: Folded, h: Replayed,
                    births: map<Id, Batch>, next: map<Id, Batch>)
    requires SameSeen(f, h, births, |log|) && e.command in terminals && !IsMembershipBody(e.body)
    requires e.body.BatchCreated? ==> !e.scoped && e.subject !in births && next.Keys == births.Keys + {e.subject}
    requires !e.body.BatchCreated? ==> next == births
    ensures match EventEntry(log + [e], terminals, |log|)
            case None => SameSeen(Folding(matters, f, e), h, next, |log| + 1)
            case Some(x) =>
              ReplayEntry(h, x).Some? && SameSeen(Folding(matters, f, e), ReplayEntry(h, x).value, next, |log| + 1)
  {
    assert (log + [e])[|log|] == e;
  }

  /** The premises of one step, after a log the strict fold accepts. */
  ghost predicate Seen(known: set<Id>, matters: set<Id>, log: seq<Event>, terminals: map<Id, Terminal>) {
    && Births(log).Some? && Fold(known, matters, log).Some? && Replay(Entries(log, terminals)).Some?
    && var f := Fold(known, matters, log).value;
       && ActiveIsOpen(f) && FoldedFrom(f, log)
       && SameSeen(f, Replay(Entries(log, terminals)).value, Births(log).value, |log|)
  }

  /** What the strict fold asks of one more event, seen from the two checks. */
  lemma SeenStep(known: set<Id>, matters: set<Id>, log: seq<Event>, terminals: map<Id, Terminal>, e: Event)
    requires Seen(known, matters, log, terminals) && Births(log + [e]).Some? && LogOk(log + [e], terminals)
    requires "" !in matters
    requires e.body.BatchCreated? ==> !e.scoped
    ensures Fold(known, matters, log + [e]).Some? <==>
              && (IsMembershipBody(e.body) ==> Admissible(known, Fold(known, matters, log).value, e))
              && Replay(Entries(log + [e], terminals)).Some? && (e.body.Joined? ==> e.body.matter in matters)
    ensures Fold(known, matters, log + [e]).Some? ==> Seen(known, matters, log + [e], terminals)
  {
    var f, h := Fold(known, matters, log).value, Replay(Entries(log, terminals)).value;
    assert (log + [e])[|log|] == e;
    BirthsAppend(log, e);
    FoldAppend(known, matters, log, e);
    ReplayOneMore(log, terminals, e);
    if FoldEvent(known, matters, f, e).Some? {
      FoldKept(known, matters, log, terminals, e, f);
    }
    if !IsMembershipBody(e.body) {
      SkippedStep(matters, log, terminals, e, f, h, Births(log).value, Births(log + [e]).value);
    } else if Admissible(known, f, e) && (e.body.Joined? ==> e.body.matter in matters) {
      SameStep(known, matters, log, terminals, e, f, h, Births(log).value);
    }
  }

  lemma ReplayOneMore(log: seq<Event>, terminals: map<Id, Terminal>, e: Event)
    requires Replay(Entries(log, terminals)).Some?
    ensures Replay(Entries(log + [e], terminals))
            == match EventEntry(log + [e], terminals, |log|)
               case None => Replay(Entries(log, terminals))
               case Some(x) => ReplayEntry(Replay(Entries(log, terminals)).value, x)
  {
    EntriesAppend(log, terminals, e);
    var x := EventEntry(log + [e], terminals, |log|);
    if x.Some? {
      ReplayAppend(Entries(log, terminals), x.value);
    } else {
      assert Entries(log, terminals) + [] == Entries(log, terminals);
    }
  }

  lemma FoldKept(known: set<Id>, matters: set<Id>, log: seq<Event>, terminals: map<Id, Terminal>, e: Event, f: Folded)
    requires LogOk(log + [e], terminals) && ActiveIsOpen(f) && FoldedFrom(f, log)
    requires FoldEvent(known, matters, f, e).Some?
    ensures var g := FoldEvent(known, matters, f, e).value; ActiveIsOpen(g) && FoldedFrom(g, log + [e])
  {
    EventIsFresh(log, terminals, e, f);
    OpenKept(known, matters, f, e);
    FoldedFromGrows(f, FoldEvent(known, matters, f, e).value, log, e);
  }

  lemma EventIsFresh(log: seq<Event>, terminals: map<Id, Terminal>, e: Event, f: Folded)
    requires LogOk(log + [e], terminals) && FoldedFrom(f, log)
    ensures e.id > 0 && e.id !in f.episodes
  {
    var more := log + [e];
    assert more[|log|] == e && forall i | 0 <= i < |log| :: more[i] == log[i] && more[i].id < more[|log|].id;
  }

  lemma KnownGrows(matters: set<Id>, log: seq<Event>, e: Event)
    ensures MattersKnown(matters, log + [e]) <==>
              MattersKnown(matters, log) && (e.body.Joined? ==> e.body.matter in matters)
  {
    var more := log + [e];
    assert more[|log|] == e && forall i | 0 <= i < |log| :: more[i] == log[i];
  }

  lemma PrefixOk(log: seq<Event>, terminals: map<Id, Terminal>, e: Event)
    requires Births(log + [e]).Some? && Unscoped(log + [e]) && LogOk(log + [e], terminals)
    ensures Births(log).Some? && Unscoped(log) && LogOk(log, terminals) && (e.body.BatchCreated? ==> !e.scoped)
  {
    var more := log + [e];
    assert more[..|log|] == log && more[|log|] == e && forall i | 0 <= i < |log| :: more[i] == log[i];
  }

  lemma ReplayPrefix(log: seq<Event>, terminals: map<Id, Terminal>, e: Event)
    requires Replay(Entries(log + [e], terminals)).Some?
    ensures Replay(Entries(log, terminals)).Some?
  {
    EntriesAppend(log, terminals, e);
    var all, before := Entries(log + [e], terminals), Entries(log, terminals);
    assert all[..|before|] == before;
    if Replay(before).None? {
      ReplayStops(all, |before|);
    }
  }

  /** The loop and the receipt order make up for each other: on a log with one birth per
      id and no legacy birth, the loop is never stopped and the events replay in log order
      exactly when the strict fold accepts, as long as the Matters that are joined exist. */
  lemma {:induction false} TogetherExactly(known: set<Id>, matters: set<Id>, log: seq<Event>,
                                           terminals: map<Id, Terminal>)
    requires Births(log).Some? && Unscoped(log) && LogOk(log, terminals) && "" !in matters
    ensures Fold(known, matters, log).Some? <==>
              && NeverStops(known, matters, log) && Replay(Entries(log, terminals)).Some?
              && MattersKnown(matters, log)
    ensures Fold(known, matters, log).Some? ==> Seen(known, matters, log, terminals)
  {
    if log != [] {
      var n := |log| - 1;
      var before, e := log[..n], log[n];
      assert log == before + [e] && log[..n + 1] == log;
      PrefixOk(before, terminals, e);
      TogetherExactly(known, matters, before, terminals);
      NeverStopsGrows(known, matters, log, n);
      KnownGrows(matters, before, e);
      if Fold(known, matters, before).Some? {
        FoldPassesLoop(known, matters, before);
        SeenStep(known, matters, before, terminals, e);
      } else if Replay(Entries(log, terminals)).Some? {
        ReplayPrefix(before, terminals, e);
      }
    }
  }

  /** A history without the joins that wrote no event. */
  function EventsOnly(history: seq<Entry>): seq<Entry> {
    if history == [] then []
    else
      EventsOnly(history[..|history| - 1])
      + if history[|history| - 1].position > 0 then [history[|history| - 1]] else []
  }

  ghost predicate Rising(history: seq<Entry>, last: nat) {
    && (forall i, k | 0 <= i < k < |history| :: history[i].position < history[k].position)
    && (forall i | 0 <= i < |history| :: 0 < history[i].position <= last)
  }

  lemma EventsOnlyAppend(history: seq<Entry>, x: Entry)
    ensures EventsOnly(history + [x]) == EventsOnly(history) + if x.position > 0 then [x] else []
  {
    assert (history + [x])[..|history|] == history;
  }

  /** A receipt without an event changes nothing; one with an event lies further on. */
  lemma EntryMoves(h: Replayed, x: Entry)
    requires ReplayEntry(h, x).Some?
    ensures if x.position == 0 then ReplayEntry(h, x).value == h
            else h.last < x.position == ReplayEntry(h, x).value.last
  {
  }

  lemma RisingSnoc(events: seq<Entry>, x: Entry, last: nat)
    requires Rising(events, last) && last < x.position
    ensures Rising(events + [x], x.position)
  {
  }

  /** They only ask, and replaying the rest forces log order. */
  lemma {:induction false} NoopsOnlyAsk(history: seq<Entry>)
    requires Replay(history).Some?
    ensures Replay(EventsOnly(history)) == Replay(history)
    ensures Rising(EventsOnly(history), Replay(history).value.last)
    ensures forall x :: x in EventsOnly(history) <==> x in history && x.position > 0
  {
    if history != [] {
      var before, x := history[..|history| - 1], history[|history| - 1];
      assert history == before + [x];
      NoopsOnlyAsk(before);
      NoopsOnlyAskOnce(before, x);
    }
  }

  lemma NoopsOnlyAskOnce(before: seq<Entry>, x: Entry)
    requires Replay(before).Some? && Replay(before + [x]).Some? && Replay(EventsOnly(before)) == Replay(before)
    requires Rising(EventsOnly(before), Replay(before).value.last)
    requires forall y :: y in EventsOnly(before) <==> y in before && y.position > 0
    ensures Replay(EventsOnly(before + [x])) == Replay(before + [x])
    ensures Rising(EventsOnly(before + [x]), Replay(before + [x]).value.last)
    ensures forall y :: y in EventsOnly(before + [x]) <==> y in before + [x] && y.position > 0
  {
    EventsOnlyAppend(before, x);
    ReplayAppend(before, x);
    EntryMoves(Replay(before).value, x);
    if x.position > 0 {
      ReplayAppend(EventsOnly(before), x);
      RisingSnoc(EventsOnly(before), x, Replay(before).value.last);
    } else {
      assert EventsOnly(before) + [] == EventsOnly(before);
    }
  }

  /** x is the entry of an event of the log. */
  ghost predicate FromLog(log: seq<Event>, terminals: map<Id, Terminal>, x: Entry) {
    exists i :: 0 <= i < |log| && EventEntry(log, terminals, i) == Some(x)
  }

  lemma FromLogAppend(log: seq<Event>, terminals: map<Id, Terminal>, e: Event, x: Entry)
    ensures FromLog(log + [e], terminals, x)
            <==> FromLog(log, terminals, x) || EventEntry(log + [e], terminals, |log|) == Some(x)
  {
    var more := log + [e];
    assert forall i | 0 <= i < |log| :: more[i] == log[i];
    assert forall i | 0 <= i < |log| :: EventEntry(more, terminals, i) == EventEntry(log, terminals, i);
    if FromLog(log, terminals, x) {
      var i :| 0 <= i < |log| && EventEntry(log, terminals, i) == Some(x);
      assert EventEntry(more, terminals, i) == Some(x);
    }
  }

  lemma {:induction false} EntriesRise(log: seq<Event>, terminals: map<Id, Terminal>)
    ensures Rising(Entries(log, terminals), |log|)
    ensures forall x :: x in Entries(log, terminals) <==> FromLog(log, terminals, x)
  {
    if log != [] {
      var before, e := log[..|log| - 1], log[|log| - 1];
      assert log == before + [e];
      EntriesRise(before, terminals);
      EntriesAppend(before, terminals, e);
      var x := EventEntry(log, terminals, |before|);
      if x.Some? {
        RisingSnoc(Entries(before, terminals), x.value, |before|);
      }
      forall y
        ensures y in Entries(log, terminals) <==> FromLog(log, terminals, y)
      {
        FromLogAppend(before, terminals, e, y);
      }
    }
  }

  lemma {:induction false} RisingUnique(a: seq<Entry>, b: seq<Entry>, p: nat, q: nat, n: nat)
    requires Rising(a, p) && Rising(b, q) && (forall x :: x in a <==> x in b) && n <= |a|
    ensures n <= |b| && a[..n] == b[..n]
  {
    if n > 0 {
      var m := n - 1;
      RisingUnique(a, b, p, q, m);
      var k := FoundAtOrAfter(a, b, p, m);
      var j := FoundAtOrAfter(b, a, q, m);
      assert a[m] == b[m];
      assert a[..n] == a[..m] + [a[m]] && b[..n] == b[..m] + [b[m]];
    }
  }

  lemma FoundAtOrAfter(a: seq<Entry>, b: seq<Entry>, p: nat, m: nat) returns (k: nat)
    requires Rising(a, p) && (forall x :: x in a <==> x in b) && m < |a| && m <= |b| && a[..m] == b[..m]
    ensures m <= k < |b| && b[k] == a[m]
  {
    assert a[m] in b;
    k :| 0 <= k < |b| && b[k] == a[m];
    assert forall i | 0 <= i < m :: a[..m][i] == a[i] && b[..m][i] == b[i];
  }

  /** So the whole reopen check forgets nothing: whatever joins without an event it
      collects, what the loop and the receipt order both accept the strict fold accepts,
      if and only if the Matters that are joined exist. */
  lemma WholeCheckIsStrict(known: set<Id>, s: Store, history: seq<Entry>)
    requires Births(s.log).Some? && Unscoped(s.log) && LogOk(s.log, s.terminals) && "" !in s.matters
    requires forall x :: x in history <==> IsEntry(s, x)
    requires NeverStops(known, s.matters, s.log) && Replay(history).Some?
    ensures Fold(known, s.matters, s.log).Some? <==> MattersKnown(s.matters, s.log)
  {
    NoopsOnlyAsk(history);
    HistoryIsEntries(s, history);
    TogetherExactly(known, s.matters, s.log, s.terminals);
  }

  /** The events of a history that replays are the log's, in log order. */
  lemma HistoryIsEntries(s: Store, history: seq<Entry>)
    requires (forall x :: x in history <==> IsEntry(s, x)) && Replay(history).Some?
    ensures EventsOnly(history) == Entries(s.log, s.terminals)
  {
    NoopsOnlyAsk(history);
    EntriesRise(s.log, s.terminals);
    var events, entries, last := EventsOnly(history), Entries(s.log, s.terminals), Replay(history).value.last;
    forall x
      ensures x in events <==> x in entries
    {
      EventEntriesAreEvents(s, x);
    }
    RisingSame(events, entries, last, |s.log|);
  }

  lemma RisingSame(a: seq<Entry>, b: seq<Entry>, p: nat, q: nat)
    requires Rising(a, p) && Rising(b, q) && forall x :: x in a <==> x in b
    ensures a == b
  {
    RisingUnique(a, b, p, q, |a|);
    RisingUnique(b, a, q, p, |b|);
  }

  lemma EventEntriesAreEvents(s: Store, x: Entry)
    ensures IsEntry(s, x) && x.position > 0 <==> FromLog(s.log, s.terminals, x)
  {
  }

  /** Neither check looks for the Matter of a join that is not the last membership event:
      a Batch that takes in a Matter that does not exist and is dismissed passes both. */
  lemma MissingMatterPasses(b: Id, name: string, m: Id, terminals: map<Id, Terminal>)
    requires name != "" && m != "" && forall k | k in {"c", "j", "d"} :: k in terminals && terminals[k].noop.None?
    ensures var log := [Event(1, "c", false, b, BatchCreated(name)), Event(2, "j", false, b, Joined(m)),
                        Event(3, "d", false, b, Dismissed)];
            && Births(log).Some? && Unscoped(log)
            && NeverStops({b}, {}, log) && EndsConsistent({}, log) && Replay(Entries(log, terminals)).Some?
            && Fold({b}, {}, log).None?
  {
    var c, j, d := Event(1, "c", false, b, BatchCreated(name)), Event(2, "j", false, b, Joined(m)),
                   Event(3, "d", false, b, Dismissed);
    var log := [c, j, d];
    assert [] + [c] == [c] && [c] + [j] == [c, j] && [c, j] + [d] == log;
    assert log[..3] == log && log[..2] == [c, j] && log[..1] == [c] && log[..0] == [];
    BirthsAppend([], c);
    BirthsAppend([c], j);
    BirthsAppend([c, j], d);
    MissingMatterFolds(b, c, j, d);
    MissingMatterReplays(b, c, j, d, terminals);
  }

  lemma MissingMatterFolds(b: Id, c: Event, j: Event, d: Event)
    requires c.subject == j.subject == d.subject == b && !j.scoped && !d.scoped && j.command != d.command
    requires c.body.BatchCreated? && j.body.Joined? && d.body.Dismissed?
    ensures var log := [c, j, d];
            NeverStops({b}, {}, log) && EndsConsistent({}, log) && Fold({b}, {}, log).None?
  {
    var log := [c, j, d];
    assert [] + [c] == [c] && [c] + [j] == [c, j] && [c, j] + [d] == log;
    assert log[..3] == log && log[..2] == [c, j] && log[..1] == [c] && log[..0] == [];
    assert [c, j][..1] == [c] && [c][..0] == [];
    var none := Folded({}, map[], map[], map[], {});
    assert Skimmed({}, [c]) == none.(born := {b});
    assert Skimmed({}, [c, j]) == none.(born := {b}, commands := {j.command});
    NeverStopsGrows({b}, {}, log, 0);
    NeverStopsGrows({b}, {}, log, 1);
    NeverStopsGrows({b}, {}, log, 2);
    FoldAppend({b}, {}, [], c);
    FoldAppend({b}, {}, [c], j);
    FoldStops({b}, {}, log, 2);
  }

  /** Were the Matter there the strict fold would accept, so the events replay. */
  lemma MissingMatterReplays(b: Id, c: Event, j: Event, d: Event, terminals: map<Id, Terminal>)
    requires c.subject == j.subject == d.subject == b && !j.scoped && !d.scoped && j.command != d.command
    requires c.body.BatchCreated? && j.body.Joined? && d.body.Dismissed? && j.body.matter != ""
    requires Births([c, j, d]).Some? && Unscoped([c, j, d]) && LogOk([c, j, d], terminals)
    ensures Replay(Entries([c, j, d], terminals)).Some?
  {
    var there := {j.body.matter};
    assert [] + [c] == [c] && [c] + [j] == [c, j] && [c, j] + [d] == [c, j, d];
    FoldAppend({b}, there, [], c);
    FoldAppend({b}, there, [c], j);
    FoldAppend({b}, there, [c, j], d);
    TogetherExactly({b}, there, [c, j, d], terminals);
  }

  // ---------------------------------------------------------------- commits under the artifact keys

  /** The membership tables beside the artifact keys and chains. */
  datatype Authority = Authority(store: Store, keys: ArtifactKeys.Store)

  function LastId(log: seq<Event>): EventId {
    if log == [] then 0 else log[|log| - 1].id
  }

  /** The command as its commit completes it: its receipt takes the next place in the
      current generation's chain, and only a written event needs an id. */
  ghost function Placed(a: Authority, id: Id, event: EventId, op: Op): Command {
    var stamp := if Decide(a.store, op).Write? then event else LastId(a.store.log) + 1;
    Command(id, stamp, ArtifactKeys.NextMark(a.keys), op)
  }

  /** One terminal transaction: the receipt must be signed under the current key, and a
      claim grant may follow it; any error leaves everything as it was. */
  ghost function Commit(a: Authority, id: Id, event: EventId, at: nat, grant: Option<Id>, op: Op): Authority {
    var signed := ArtifactKeys.Append(a.keys, id, grant, at);
    var verdict := Decide(a.store, op);
    if id in a.store.terminals || verdict.Fail? || (verdict.Write? && event <= LastId(a.store.log))
       || signed.Err? then a
    else Authority(Apply(a.store, Placed(a, id, event, op)), signed.value)
  }

  datatype Step =
    | CommitStep(id: Id, event: EventId, at: nat, grant: Option<Id>, op: Op)
    | MoreStep(event: EventId, scoped: bool, subject: Id)
    | KeyStep(key: ArtifactKeys.Op)

  /** A further event of the command that wrote the last one, of a kind both folds skip;
      claim.acquire appends two of them. */
  function Appended(s: Store, event: EventId, scoped: bool, subject: Id): Store {
    if s.log == [] || event <= LastId(s.log) then s
    else s.(log := s.log + [Event(event, s.log[|s.log| - 1].command, scoped, subject, OtherBody)])
  }

  /** A commit's first event with its receipt, each event after that, or anything else
      that happens to the keys and chains. */
  ghost function Taken(a: Authority, step: Step): Authority {
    match step
    case CommitStep(id, event, at, grant, op) => Commit(a, id, event, at, grant, op)
    case MoreStep(event, scoped, subject) => a.(store := Appended(a.store, event, scoped, subject))
    case KeyStep(key) =>
      var r := ArtifactKeys.Apply(a.keys, key);
      if r.Ok? then a.(keys := r.value) else a
  }

  /** Every receipt is an artifact of the chains. */
  ghost predicate Signed(a: Authority) {
    forall c | c in a.store.terminals :: a.store.terminals[c].mark in a.keys.artifacts
  }

  ghost predicate Good(a: Authority) {
    && ArtifactKeys.Inv(a.keys) && Signed(a) && Inv(a.store) && ReadInv(a.store)
    && exists history :: Accepted(a.store, history)
  }

  /** The place a commit takes lies after every receipt written before it. */
  lemma CommitIsAdmitted(a: Authority, id: Id, event: EventId, op: Op)
    requires ArtifactKeys.Inv(a.keys) && Signed(a) && id !in a.store.terminals
    requires Decide(a.store, op).Write? ==> event > LastId(a.store.log)
    ensures Admits(a.store, Placed(a, id, event, op))
  {
    ArtifactKeys.NextMarkIsLast(a.keys);
  }

  /** A command's receipt is the only one it writes. */
  lemma ApplyReceipts(s: Store, c: Command, d: Id)
    requires d in Apply(s, c).terminals
    ensures (d in s.terminals && Apply(s, c).terminals[d] == s.terminals[d]) || Apply(s, c).terminals[d].mark == c.mark
  {
  }

  lemma AppliedIsSigned(a: Authority, c: Command, keys: ArtifactKeys.Store)
    requires Signed(a) && c.mark in keys.artifacts && forall m | m in a.keys.artifacts :: m in keys.artifacts
    ensures Signed(Authority(Apply(a.store, c), keys))
  {
    var t := Apply(a.store, c);
    forall d | d in t.terminals
      ensures t.terminals[d].mark in keys.artifacts
    {
      ApplyReceipts(a.store, c, d);
    }
  }

  lemma CommitKeepsSigned(a: Authority, id: Id, event: EventId, at: nat, grant: Option<Id>, op: Op)
    requires ArtifactKeys.Inv(a.keys) && Signed(a)
    ensures ArtifactKeys.Inv(Commit(a, id, event, at, grant, op).keys) && Signed(Commit(a, id, event, at, grant, op))
  {
    if Commit(a, id, event, at, grant, op) != a {
      var keys := ArtifactKeys.Append(a.keys, id, grant, at).value;
      ArtifactKeys.AppendKeepsInv(a.keys, id, grant, at);
      ArtifactKeys.AppendTakesNext(a.keys, id, grant, at);
      AppliedIsSigned(a, Placed(a, id, event, op), keys);
    }
  }

  lemma KeyStepKeepsSigned(a: Authority, key: ArtifactKeys.Op)
    requires ArtifactKeys.Inv(a.keys) && Signed(a) && ArtifactKeys.Apply(a.keys, key).Ok?
    ensures var t := a.(keys := ArtifactKeys.Apply(a.keys, key).value); ArtifactKeys.Inv(t.keys) && Signed(t)
  {
    ArtifactKeys.ApplyKeepsInv(a.keys, key);
    ArtifactKeys.ApplyKeepsArtifacts(a.keys, key);
  }

  lemma ApplyKeepsTables(s: Store, c: Command)
    requires Inv(s) && ReadInv(s) && Admits(s, c) && exists history :: Accepted(s, history)
    ensures Inv(Apply(s, c)) && ReadInv(Apply(s, c)) && exists history :: Accepted(Apply(s, c), history)
  {
    ApplyKeepsInv(s, c);
    ApplyKeepsReadInv(s, c);
    var history :| Accepted(s, history);
    var after := ApplyKeepsHistory(s, c, history);
  }

  lemma CommitKeepsGood(a: Authority, id: Id, event: EventId, at: nat, grant: Option<Id>, op: Op)
    requires Good(a)
    ensures Good(Commit(a, id, event, at, grant, op))
  {
    CommitKeepsSigned(a, id, event, at, grant, op);
    if Commit(a, id, event, at, grant, op) != a {
      CommitIsAdmitted(a, id, event, op);
      ApplyKeepsTables(a.store, Placed(a, id, event, op));
    }
  }

  lemma SkippedKeepsInv(s: Store, e: Event)
    requires Inv(s) && e.body == OtherBody && s.log != [] && e.id > LastId(s.log)
    requires e.command == s.log[|s.log| - 1].command
    ensures Inv(s.(log := s.log + [e]))
  {
    var f := Fold(s.batches.Keys, s.matters, s.log).value;
    BirthsAppend(s.log, e);
    FoldAppend(s.batches.Keys, s.matters, s.log, e);
    FoldedFromGrows(f, f, s.log, e);
    SkippedLogOk(s.log, s.terminals, e);
  }

  lemma SkippedLogOk(log: seq<Event>, terminals: map<Id, Terminal>, e: Event)
    requires LogOk(log, terminals) && log != [] && e.id > LastId(log) && e.command == log[|log| - 1].command
    ensures LogOk(log + [e], terminals)
  {
    assert forall i | 0 <= i < |log| - 1 :: log[i].id < log[|log| - 1].id;
  }

  lemma SkippedKeepsReadInv(s: Store, e: Event)
    requires ReadInv(s) && e.body == OtherBody && e.id > 0
    ensures ReadInv(s.(log := s.log + [e]))
  {
    ReposSeenGrows(s.log, s.matters, e);
  }

  lemma SkippedKeepsEntries(s: Store, e: Event, x: Entry)
    requires e.body == OtherBody
    ensures IsEntry(s.(log := s.log + [e]), x) <==> IsEntry(s, x)
  {
    var more := s.log + [e];
    assert forall i | 0 <= i < |s.log| :: EventEntry(more, s.terminals, i) == EventEntry(s.log, s.terminals, i);
    assert EventEntry(more, s.terminals, |s.log|).None?;
  }

  lemma SkippedKeepsHistory(s: Store, e: Event, history: seq<Entry>)
    requires Accepted(s, history) && e.body == OtherBody
    ensures Accepted(s.(log := s.log + [e]), history)
  {
    forall x
      ensures IsEntry(s.(log := s.log + [e]), x) <==> IsEntry(s, x)
    {
      SkippedKeepsEntries(s, e, x);
    }
  }

  lemma SkippedKeepsGood(a: Authority, e: Event)
    requires Good(a) && e.body == OtherBody && a.store.log != [] && e.id > LastId(a.store.log)
    requires e.command == a.store.log[|a.store.log| - 1].command
    ensures Good(a.(store := a.store.(log := a.store.log + [e])))
  {
    SkippedKeepsInv(a.store, e);
    SkippedKeepsReadInv(a.store, e);
    var history :| Accepted(a.store, history);
    SkippedKeepsHistory(a.store, e, history);
  }

  lemma StepKeepsGood(a: Authority, step: Step)
    requires Good(a)
    ensures Good(Taken(a, step))
  {
    match step
    case CommitStep(id, event, at, grant, op) => CommitKeepsGood(a, id, event, at, grant, op);
    case MoreStep(event, scoped, subject) =>
      if a.store.log != [] && event > LastId(a.store.log) {
        SkippedKeepsGood(a, Event(event, a.store.log[|a.store.log| - 1].command, scoped, subject, OtherBody));
      }
    case KeyStep(key) =>
      if ArtifactKeys.Apply(a.keys, key).Ok? {
        KeyStepKeepsSigned(a, key);
      }
  }

  // ---------------------------------------------------------------- runs

  ghost predicate Initial(a: Authority) {
    a.store == Store([], {}, map[], map[], map[]) && a.keys.keys == map[] && a.keys.artifacts == map[]
  }

  ghost predicate IsRun(states: seq<Authority>) {
    && |states| > 0 && Initial(states[0])
    && forall i | 0 <= i < |states| - 1 :: StepAt(states, i)
  }

  ghost predicate StepAt(states: seq<Authority>, i: nat)
    requires i < |states| - 1
  {
    exists step :: states[i + 1] == Taken(states[i], step)
  }

  lemma InitialIsGood(a: Authority)
    requires Initial(a)
    ensures Good(a)
  {
    assert forall x :: !IsEntry(a.store, x);
    assert Accepted(a.store, []);
  }

  /** In every state of every run the tables equal both folds, named births carry no
      Repo, every receipt is in the chains, and the receipt history is accepted. */
  lemma {:induction false} EveryStateIsGood(states: seq<Authority>, n: nat)
    requires IsRun(states) && n < |states|
    ensures Good(states[n])
  {
    if n == 0 {
      InitialIsGood(states[0]);
    } else {
      EveryStateIsGood(states, n - 1);
      assert StepAt(states, n - 1);
      var step :| states[n] == Taken(states[n - 1], step);
      StepKeepsGood(states[n - 1], step);
    }
  }

  /** However the entries of any state of any run are collected, and whatever the sort
      does with them, the receipt-order check accepts. */
  lemma SortedHistoryAccepted(states: seq<Authority>, n: nat, collected: seq<Entry>, sorted: seq<Entry>)
    requires IsRun(states) && n < |states| && Sorts(collected, sorted)
    requires forall i, k | 0 <= i < k < |collected| :: collected[i] != collected[k]
    requires forall x :: x in collected <==> IsEntry(states[n].store, x)
    ensures Replay(sorted).Some?
  {
    EveryStateIsGood(states, n);
    SortedReplays(states[n].store, collected, sorted);
  }

  /** What a step does to the log: nothing, or one more event. */
  lemma StepGrowsLog(a: Authority, step: Step)
    ensures var log := Taken(a, step).store.log;
            log == a.store.log || (|log| == |a.store.log| + 1 && log[..|a.store.log|] == a.store.log)
  {
  }

  /** Every prefix of the log was the whole log of an earlier state. */
  lemma {:induction false} EveryPrefixIsAState(states: seq<Authority>, n: nat, p: nat)
    requires IsRun(states) && n < |states| && p <= |states[n].store.log|
    ensures exists j :: 0 <= j <= n && states[j].store.log == states[n].store.log[..p]
  {
    var log := states[n].store.log;
    if p == |log| {
      assert log == log[..p];
    } else {
      assert n > 0;
      assert StepAt(states, n - 1);
      var step :| states[n] == Taken(states[n - 1], step);
      StepGrowsLog(states[n - 1], step);
      var before := states[n - 1].store.log;
      assert log[..p] == before[..p];
      EveryPrefixIsAState(states, n - 1, p);
    }
  }

  /** A read of any Batch at any prefix answers what the tables held when the log ended there. */
  lemma EveryPrefixReads(states: seq<Authority>, n: nat, p: nat, batch: Id) returns (j: nat)
    requires IsRun(states) && n < |states| && p <= |states[n].store.log|
    ensures j <= n && states[j].store.log == states[n].store.log[..p]
    ensures Read(states[n].store.log[..p], batch).Some?
    ensures TablesSay(states[j].store, Read(states[n].store.log[..p], batch).value, batch)
  {
    EveryPrefixIsAState(states, n, p);
    j :| 0 <= j <= n && states[j].store.log == states[n].store.log[..p];
    EveryStateIsGood(states, j);
    ReadIsTables(states[j].store, batch);
  }

  /** The Batch's row and its episodes are the same in both states. */
  ghost predicate SameBatch(s: Store, t: Store, b: Id) {
    && b in s.batches && b in t.batches && t.batches[b] == s.batches[b]
    && (forall e | e in s.members && s.members[e].batch == b :: e in t.members && t.members[e] == s.members[e])
    && (forall e | e in t.members && t.members[e].batch == b :: e in s.members && s.members[e] == t.members[e])
  }

  lemma DismissalStays(s: Store, c: Command, b: Id)
    requires b in s.batches && s.batches[b].dismissed != 0 && c.event !in s.members
    ensures SameBatch(s, Apply(s, c), b)
  {
  }

  lemma SameBatchTransitive(s: Store, t: Store, u: Store, b: Id)
    requires SameBatch(s, t, b) && SameBatch(t, u, b)
    ensures SameBatch(s, u, b)
  {
  }

  lemma StepKeepsDismissed(a: Authority, step: Step, b: Id)
    requires Good(a) && b in a.store.batches && a.store.batches[b].dismissed != 0
    ensures SameBatch(a.store, Taken(a, step).store, b)
  {
    if Taken(a, step).store != a.store && step.CommitStep? {
      var c := Placed(a, step.id, step.event, step.op);
      CommitIsAdmitted(a, step.id, step.event, step.op);
      FreshInFold(a.store, c, OtherBody, Fold(a.store.batches.Keys, a.store.matters, a.store.log).value);
      DismissalStays(a.store, c, b);
    }
  }

  lemma DismissedOnward(states: seq<Authority>, m: nat, n: nat, b: Id)
    requires IsRun(states) && m <= n < |states| - 1 && SameBatch(states[m].store, states[n].store, b)
    requires states[m].store.batches[b].dismissed != 0
    ensures SameBatch(states[m].store, states[n + 1].store, b)
  {
    EveryStateIsGood(states, n);
    assert StepAt(states, n);
    var step :| states[n + 1] == Taken(states[n], step);
    StepKeepsDismissed(states[n], step, b);
    SameBatchTransitive(states[m].store, states[n].store, states[n + 1].store, b);
  }

  /** Dismissal is final: the Batch's row and its episodes never change again. */
  lemma {:induction false} DismissalIsFinal(states: seq<Authority>, m: nat, n: nat, b: Id)
    requires IsRun(states) && m <= n < |states|
    requires b in states[m].store.batches && states[m].store.batches[b].dismissed != 0
    ensures SameBatch(states[m].store, states[n].store, b)
  {
    if m < n {
      DismissalIsFinal(states, m, n - 1, b);
      DismissedOnward(states, m, n - 1, b);
    }
  }

  // ---------------------------------------------------------------- what a command does, by the reads around it

  lemma {:induction false} ReplayNamesMatters(history: seq<Entry>)
    requires Replay(history).Some?
    ensures forall b :: (b, "") !in Replay(history).value.active
  {
    if history != [] {
      ReplayNamesMatters(history[..|history| - 1]);
    }
  }

  /** What the read answers of a Batch, and whether the tables agree that a Matter is there. */
  lemma ReadDecides(a: Authority, batch: Id, m: Id)
    requires Good(a)
    ensures Read(a.store.log, batch).Some?
    ensures var r := Read(a.store.log, batch).value;
            && r == ReadFold(a.store.log, batch).value && !r.anonymous
            && (r.name != "" <==> batch in a.store.batches)
            && (batch in a.store.batches ==> r.dismissed == a.store.batches[batch].dismissed)
            && (m in r.active <==> IsActive(a.store.members, batch, m))
            && (m in r.active ==> m in a.store.matters && m != "" && batch in a.store.batches)
  {
    var s := a.store;
    ReadIsTables(s, batch);
    ReadAgrees(s.batches.Keys, s.matters, s.log, batch);
    var r := Read(s.log, batch).value;
    if m in r.active {
      assert s.members[r.active[m]] == Membership(batch, m, r.active[m], 0);
      var history :| Accepted(s, history);
      ReplayNamesMatters(history);
      assert (batch, m) in Replay(history).value.active;
      MemberIsBorn(s, history, batch, m);
    }
  }

  lemma {:induction false} ActiveIsBorn(history: seq<Entry>)
    requires Replay(history).Some?
    ensures forall b, m | (b, m) in Replay(history).value.active :: b in Replay(history).value.born
  {
    if history != [] {
      ActiveIsBorn(history[..|history| - 1]);
    }
  }

  lemma MemberIsBorn(s: Store, history: seq<Entry>, batch: Id, m: Id)
    requires Accepted(s, history) && (batch, m) in Replay(history).value.active
    ensures batch in s.batches
  {
    ActiveIsBorn(history);
  }

  /** In every state of every run: a leave is written exactly when the read lists the
      Matter in an undismissed Batch, a join exactly when it lists an undismissed Batch
      without the Matter, and a dismissal exactly when it lists an undismissed Batch. */
  lemma WrittenExactly(states: seq<Authority>, n: nat, batch: Id, m: Id)
    requires IsRun(states) && n < |states|
    ensures Read(states[n].store.log, batch).Some?
    ensures var s, r := states[n].store, Read(states[n].store.log, batch).value;
            && (Decide(s, Leave(batch, m)) == Write(Left(m)) <==> r.dismissed == 0 && m in r.active)
            && (Decide(s, Join(batch, m)) == Write(Joined(m)) <==>
                  r.name != "" && r.dismissed == 0 && m in s.matters && m != "" && m !in r.active)
            && (Decide(s, Join(batch, m)) == NoChange <==> r.dismissed == 0 && m in r.active)
            && (Decide(s, Dismiss(batch)) == Write(Dismissed) <==> r.name != "" && r.dismissed == 0)
  {
    EveryStateIsGood(states, n);
    ReadDecides(states[n], batch, m);
  }

  /** A named Batch is created exactly under a name that no Batch reads, and an id that
      reads none. */
  lemma CreatedExactly(states: seq<Authority>, n: nat, batch: Id, name: string)
    requires IsRun(states) && n < |states|
    ensures forall x :: Read(states[n].store.log, x).Some?
    ensures Decide(states[n].store, Create(batch, name)) == Write(BatchCreated(name)) <==>
              && name != "" && Read(states[n].store.log, batch).value.name == ""
              && forall x :: Read(states[n].store.log, x).value.name != name
  {
    EveryStateIsGood(states, n);
    var s := states[n].store;
    forall x
      ensures Read(s.log, x).Some?
      ensures Read(s.log, x).value.name == if x in s.batches then s.batches[x].name else ""
      ensures x in s.batches ==> s.batches[x].name != ""
    {
      ReadIsTables(s, x);
    }
  }

  /** The reading after a command, from the reading before. */
  function ReadAfter(r: Reading, op: Op, event: EventId): Reading {
    match op
    case Join(_, m) => r.(active := r.active[m := event])
    case Leave(_, m) => r.(active := r.active - {m})
    case Dismiss(_) => r.(dismissed := event)
    case _ => r
  }

  /** The next read shows exactly the command: the Matter joined at its event, or left, or
      the Batch dismissed by it. */
  lemma NextReadShows(states: seq<Authority>, n: nat, id: Id, event: EventId, at: nat, grant: Option<Id>, op: Op)
    requires IsRun(states) && n < |states| && (op.Join? || op.Leave? || op.Dismiss?)
    requires Decide(states[n].store, op).Write? && Commit(states[n], id, event, at, grant, op) != states[n]
    ensures Read(states[n].store.log, op.batch).Some?
    ensures Read(Commit(states[n], id, event, at, grant, op).store.log, op.batch)
            == Some(ReadAfter(Read(states[n].store.log, op.batch).value, op, event))
  {
    EveryStateIsGood(states, n);
    CommitKeepsGood(states[n], id, event, at, grant, op);
    CommitAppends(states[n], id, event, at, grant, op);
    AppendedShows(states[n], Commit(states[n], id, event, at, grant, op), id, event, op);
  }

  /** The event of a membership command. */
  function MembershipEvent(id: Id, event: EventId, op: Op): Event
    requires op.Join? || op.Leave? || op.Dismiss?
  {
    Event(event, id, false, op.batch,
          match op case Join(_, m) => Joined(m) case Leave(_, m) => Left(m) case _ => Dismissed)
  }

  lemma AppendedShows(a: Authority, t: Authority, id: Id, event: EventId, op: Op)
    requires Good(a) && Good(t) && (op.Join? || op.Leave? || op.Dismiss?) && Decide(a.store, op).Write?
    requires t.store.log == a.store.log + [MembershipEvent(id, event, op)]
    ensures Read(a.store.log, op.batch).Some?
    ensures Read(t.store.log, op.batch) == Some(ReadAfter(Read(a.store.log, op.batch).value, op, event))
  {
    var m := if op.Dismiss? then "" else op.matter;
    ReadDecides(a, op.batch, m);
    ReadDecides(t, op.batch, m);
    ReadOneMore(a.store.log, MembershipEvent(id, event, op), op.batch);
    EventShows(Read(a.store.log, op.batch).value, id, event, op, a.store);
  }

  lemma EventShows(r: Reading, id: Id, event: EventId, op: Op, s: Store)
    requires (op.Join? || op.Leave? || op.Dismiss?) && Decide(s, op).Write? && !r.anonymous
    requires r.name != "" <==> op.batch in s.batches
    requires op.batch in s.batches ==> r.dismissed == s.batches[op.batch].dismissed
    requires !op.Dismiss? ==> (op.matter in r.active <==> IsActive(s.members, op.batch, op.matter))
    ensures ReadEvent(r, MembershipEvent(id, event, op), op.batch) == Some(ReadAfter(r, op, event))
  {
  }

  lemma CommitAppends(a: Authority, id: Id, event: EventId, at: nat, grant: Option<Id>, op: Op)
    requires op.Join? || op.Leave? || op.Dismiss?
    requires Decide(a.store, op).Write? && Commit(a, id, event, at, grant, op) != a
    ensures Commit(a, id, event, at, grant, op).store.log
            == a.store.log + [MembershipEvent(id, event, op)]
  {
  }

  lemma ReadOneMore(log: seq<Event>, e: Event, batch: Id)
    requires ReadFold(log, batch).Some?
    ensures ReadFold(log + [e], batch) == ReadEvent(ReadFold(log, batch).value, e, batch)
  {
    assert (log + [e])[..|log|] == log;
  }

  // ---------------------------------------------------------------- the store in place

  class NamedBatchStore {
    var log: seq<Event>
    var matters: set<Id>
    var batches: map<Id, Batch>
    var members: map<EventId, Membership>
    var terminals: map<Id, Terminal>
    var active: nat
    var keys: ArtifactKeys.Keys
    var artifacts: ArtifactKeys.Artifacts

    ghost function View(): Authority
      reads this
    {
      Authority(Store(log, matters, batches, members, terminals), ArtifactKeys.Store(active, keys, artifacts))
    }

    constructor (epoch: nat)
      ensures Initial(View())
    {
      log, matters, batches, members, terminals := [], {}, map[], map[], map[];
      active, keys, artifacts := epoch, map[], map[];
    }

    /** SELECT count(*) over the pair's rows without a leave event. */
    method HasActive(b: Id, m: Id) returns (found: bool)
      ensures found == IsActive(members, b, m)
    {
      var left := members.Keys;
      while left != {}
        invariant left <= members.Keys
        invariant forall e | e in members && e !in left ::
                    members[e].batch != b || members[e].matter != m || members[e].left != 0
        decreases |left|
      {
        var e :| e in left;
        left := left - {e};
        if members[e].batch == b && members[e].matter == m && members[e].left == 0 {
          return true;
        }
      }
      found := false;
    }

    method HasName(name: string) returns (found: bool)
      ensures found == NameTaken(batches, name)
    {
      var left := batches.Keys;
      while left != {}
        invariant left <= batches.Keys
        invariant forall b | b in batches && b !in left :: batches[b].name != name
        decreases |left|
      {
        var b :| b in left;
        left := left - {b};
        if batches[b].name == name {
          return true;
        }
      }
      found := false;
    }

    /** The refusals of a command on one Batch and, for join and leave, one Matter. */
    method CheckTarget(b: Id, matter: Option<Id>) returns (refusal: Option<string>)
      ensures refusal ==
              if b !in batches then Some("batch.target-missing")
              else if batches[b].dismissed != 0 then Some("batch.dismissed")
              else if matter.Some? && matter.value !in matters then Some("batch.target-missing")
              else None
    {
      if b !in batches {
        return Some("batch.target-missing");
      }
      if batches[b].dismissed != 0 {
        return Some("batch.dismissed");
      }
      if matter.Some? && matter.value !in matters {
        return Some("batch.target-missing");
      }
      refusal := None;
    }

    /** Everything the transaction decides before it writes. */
    method Judge(op: Op) returns (verdict: Verdict)
      ensures verdict == Decide(View().store, op)
    {
      match op
      case Create(b, name) =>
        var taken := HasName(name);
        if taken {
          return Refuse("refusal.batch-name-exists");
        }
        verdict := if b in batches || name == "" then Fail(ErrConflict) else Write(BatchCreated(name));
      case NewMatter(m) => verdict := if m in matters then Fail(ErrConflict) else Write(MatterCreated);
      case NewAnonymous(_, m) => verdict := Write(BatchAnonymous(m));
      case Unrelated(_) => verdict := Write(OtherBody);
      case Join(b, m) =>
        if m == "" {
          return Fail(ErrInvalidProof);
        }
        var refusal := CheckTarget(b, Some(m));
        if refusal.Some? {
          return Refuse(refusal.value);
        }
        var joined := HasActive(b, m);
        verdict := if joined then NoChange else Write(Joined(m));
      case Leave(b, m) =>
        if m == "" {
          return Fail(ErrInvalidProof);
        }
        var refusal := CheckTarget(b, Some(m));
        if refusal.Some? {
          return Refuse(refusal.value);
        }
        var joined := HasActive(b, m);
        verdict := if joined then Write(Left(m)) else Refuse("batch.membership-missing");
      case Dismiss(b) =>
        var refusal := CheckTarget(b, None);
        verdict := if refusal.Some? then Refuse(refusal.value) else Write(Dismissed);
    }

    /** One command's transaction; a failure leaves everything as it was. */
    method Complete(id: Id, event: EventId, at: nat, grant: Option<Id>, op: Op) returns (verdict: Verdict)
      modifies this
      ensures View() == Commit(old(View()), id, event, at, grant, op)
      ensures !verdict.Fail? ==> verdict == Decide(old(View()).store, op)
      ensures verdict.Fail? ==> View() == old(View())
    {
      verdict := Judge(op);
      if id in terminals || verdict.Fail? {
        return Fail(ErrConflict);
      }
      if verdict.Write? && event <= (if log == [] then 0 else log[|log| - 1].id) {
        return Fail(ErrInvalidProof);
      }
      var mark := SignReceipt(id, at, grant);
      if mark.Err? {
        return Fail(mark.error);
      }
      WriteTables(id, event, mark.value, op, verdict);
    }

    /** retainTerminalReceiptTx: the next artifact of the current, unfenced key. */
    method SignReceipt(id: Id, at: nat, grant: Option<Id>) returns (mark: Result<Mark>)
      modifies this`artifacts
      ensures match ArtifactKeys.Append(old(View()).keys, id, grant, at)
              case Ok(k) => View().keys == k && mark == Ok(ArtifactKeys.NextMark(old(View()).keys))
              case Err(e) => artifacts == old(artifacts) && mark == Err(e)
    {
      var generation := ArtifactKeys.FindHighest(ArtifactKeys.Generations(keys, active));
      var slot := ArtifactKeys.Slot(active, generation);
      if slot !in keys {
        return Err(ErrNotFound);
      }
      if keys[slot].fence.Some? || !keys[slot].certificate.Covers(at) {
        return Err(ErrFenced);
      }
      var last := ArtifactKeys.FindHighest(ArtifactKeys.Sequences(artifacts, slot));
      artifacts := ArtifactKeys.Signed(artifacts, slot, last, keys[slot].certificate.key, at, id, grant);
      mark := Ok(ArtifactKeys.Mark(slot, last + 1));
    }

    method WriteTables(id: Id, event: EventId, mark: Mark, op: Op, verdict: Verdict)
      requires verdict == Decide(View().store, op) && !verdict.Fail?
      modifies this`log, this`matters, this`batches, this`members, this`terminals
      ensures forall e | verdict.Write? ==> e == event ::
                View().store == Apply(old(View()).store, Command(id, e, mark, op))
    {
      if verdict.Write? {
        WriteRows(op, event);
        log := log + [Event(event, id, op.NewMatter? || op.NewAnonymous?, Subject(op), verdict.body)];
      }
      terminals := terminals[id := Terminal(mark, if verdict.NoChange? then Some((op.batch, op.matter)) else None)];
    }

    method WriteRows(op: Op, event: EventId)
      requires op.Dismiss? ==> op.batch in batches
      modifies this`matters, this`batches, this`members
      ensures matters == if op.NewMatter? then old(matters) + {op.matter} else old(matters)
      ensures batches == match op
                         case Create(b, name) => old(batches)[b := Batch(name, event, 0)]
                         case Dismiss(b) => old(batches)[b := old(batches)[b].(dismissed := event)]
                         case _ => old(batches)
      ensures members == match op
                         case Join(b, m) => old(members)[event := Membership(b, m, event, 0)]
                         case Leave(b, m) => Departed(old(members), b, m, event)
                         case _ => old(members)
    {
      match op
      case Create(b, name) => batches := batches[b := Batch(name, event, 0)];
      case Join(b, m) => members := members[event := Membership(b, m, event, 0)];
      case Leave(b, m) => MarkLeft(b, m, event);
      case Dismiss(b) => batches := batches[b := batches[b].(dismissed := event)];
      case NewMatter(m) => matters := matters + {m};
      case _ =>
    }

    /** The UPDATE, row by row. */
    method MarkLeft(b: Id, m: Id, event: EventId)
      modifies this`members
      ensures members == Departed(old(members), b, m, event)
    {
      var left := members.Keys;
      while left != {}
        invariant left <= members.Keys == old(members).Keys
        invariant forall e | e in old(members) && e !in left :: members[e] == Departed(old(members), b, m, event)[e]
        invariant forall e | e in left :: members[e] == old(members)[e]
        decreases |left|
      {
        var e :| e in left;
        left := left - {e};
        if members[e].batch == b && members[e].matter == m && members[e].left == 0 {
          members := members[e := members[e].(left := event)];
        }
      }
    }
  }
}
