/** The reopen fold over node events: it recomputes the sort keys the Step commands
    committed, and refuses a log whose keys it cannot recompute. */
module StepFold {
  import opened Common
  import opened Nodes
  import opened Order
  import opened StepOrder

  /** The node events with what the fold reads of them; renumbering marks the
      step.reordered event of an insert. */
  datatype KeyEvent =
    | Created(parent: Id, kind: Kind, id: Id, key: int)
    | StepInserted(parent: Id, place: Place, id: Id, key: int)
    | Reordered(parent: Id, order: seq<Id>, renumbering: bool)
    | Replaced(id: Id, replacement: Id)
    | Removed(id: Id)

  // ---------------------------------------------------------------- the fold

  /** step12SiblingOrder: the live Steps by key, then by id. */
  ghost predicate Sorted(rows: Table, parent: Id, ids: seq<Id>) {
    Lists(rows, parent, ids) && forall i, k | 0 <= i < k < |ids| :: Earlier(rows, ids[i], ids[k])
  }

  predicate Earlier(rows: Table, a: Id, b: Id)
    requires a in rows && b in rows
  {
    rows[a].key < rows[b].key || (rows[a].key == rows[b].key && Less(a, b))
  }

  /** step12InsertionOrderValid: taken out of the order and put back at its place, the
      new Step is where its key put it. */
  ghost predicate InPlace(rows: Table, parent: Id, place: Place, id: Id, t: Table) {
    exists order ::
      && Sorted(rows, parent, order) && Slot(order, place).Some?
      && Sorted(t, parent, Placed(order, Slot(order, place).value, id))
  }

  /** The Steps of the order at every thousand from the base. */
  function Spaced(rows: Table, order: seq<Id>, base: int): Table {
    map id | id in rows ::
      match IndexOf(order, id) case None => rows[id] case Some(i) => rows[id].(key := Final(base).Key(i))
  }

  /** foldStep12Event, as far as it reads and writes sort keys. */
  ghost function FoldEvent(rows: Table, e: KeyEvent): Option<Table> {
    match e
    case Created(parent, kind, id, key) =>
      if id in rows || key != Maximum(rows, LiveChildren(rows, parent)) + 1000 then None
      else Some(rows[id := Row(kind, parent, key, true)])
    case StepInserted(parent, place, id, key) =>
      var t := rows[id := Row(Step, parent, key, true)];
      if id in rows || !InPlace(rows, parent, place, id, t) then None else Some(t)
    case Reordered(parent, order, renumbering) =>
      if order == [] || !Lists(rows, parent, order) || (renumbering && !Sorted(rows, parent, order)) then None
      else Some(Spaced(rows, order, Maximum(rows, OtherChildren(rows, parent))))
    case Replaced(id, replacement) =>
      if !LiveStep(rows, id) || replacement in rows then None
      else Some(rows[id := rows[id].(live := false)][replacement := rows[id]])
    case Removed(id) =>
      if !LiveStep(rows, id) then None else Some(rows[id := rows[id].(live := false)])
  }

  ghost function Onward(r: Option<Table>, e: KeyEvent): Option<Table> {
    match r
    case None => None
    case Some(t) => FoldEvent(t, e)
  }

  ghost function Fold(rows: Table, log: seq<KeyEvent>): Option<Table> {
    if log == [] then Some(rows) else Onward(Fold(rows, log[..|log| - 1]), log[|log| - 1])
  }

  lemma FoldSnoc(rows: Table, log: seq<KeyEvent>, e: KeyEvent)
    ensures Fold(rows, log + [e]) == Onward(Fold(rows, log), e)
  {
    assert (log + [e])[..|log|] == log;
  }

  lemma Regroup(log: seq<KeyEvent>, more: seq<KeyEvent>, n: nat)
    requires |more| == n + 1
    ensures more == more[..n] + [more[n]] && log + more == (log + more[..n]) + [more[n]]
  {
  }

  lemma {:induction false} FoldAppend(rows: Table, log: seq<KeyEvent>, more: seq<KeyEvent>)
    ensures Fold(rows, log).None? ==> Fold(rows, log + more).None?
    ensures Fold(rows, log).Some? ==> Fold(rows, log + more) == Fold(Fold(rows, log).value, more)
    decreases |more|
  {
    if more == [] {
      assert log + more == log;
    } else {
      var n := |more| - 1;
      FoldAppend(rows, log, more[..n]);
      Regroup(log, more, n);
      FoldSnoc(rows, log + more[..n], more[n]);
      if Fold(rows, log).Some? {
        FoldSnoc(Fold(rows, log).value, more[..n], more[n]);
      }
    }
  }

  lemma FoldOne(rows: Table, e: KeyEvent)
    ensures Fold(rows, [e]) == FoldEvent(rows, e)
  {
    FoldSnoc(rows, [], e);
    assert [] + [e] == [e];
  }

  lemma FoldTwo(rows: Table, e: KeyEvent, f: KeyEvent)
    ensures Fold(rows, [e, f]) == Onward(FoldEvent(rows, e), f)
  {
    FoldOne(rows, e);
    FoldSnoc(rows, [e], f);
    assert [e] + [f] == [e, f];
  }

  // ---------------------------------------------------------------- what the commands append

  /** The events of a committed command. */
  ghost function EventsOf(s: Tables, op: Op): seq<KeyEvent>
    requires Inv(s.rows)
  {
    match op
    case OpCreate(parent, kind, id) =>
      [Created(parent, kind, id, Maximum(s.rows, LiveChildren(s.rows, parent)) + 1000)]
    case OpLegacy(parent, id) =>
      [Created(parent, Step, id, Maximum(s.steps, AllChildren(s.steps, parent)) + 1000)]
    case OpInsert(parent, place, id, _) => InsertEvents(s.rows, parent, place, id)
    case OpReorder(parent, order) => [Reordered(parent, order, false)]
    case OpReplace(id, replacement) => [Replaced(id, replacement)]
    case OpRemove(id) => [Removed(id)]
  }

  ghost function InsertEvents(rows: Table, parent: Id, place: Place, id: Id): seq<KeyEvent>
    requires Inv(rows)
  {
    var order := OrderOf(rows, parent);
    match Slot(order, place)
    case None => []
    case Some(at) =>
      InsertedEvents(rows, parent, place, order, at, id, Maximum(rows, LiveChildren(rows, parent)),
                     Maximum(rows, OtherChildren(rows, parent)))
  }

  /** One event where a key fits, otherwise the renumbering first. */
  function InsertedEvents(rows: Table, parent: Id, place: Place, order: seq<Id>, at: nat, id: Id, highest: int,
                          base: int)
    : seq<KeyEvent>
    requires at <= |order| && forall i | 0 <= i < |order| :: order[i] in rows
  {
    if HasFitKey(rows, parent, order, at, highest) then
      [StepInserted(parent, place, id, FitKey(rows, order, at, highest).value)]
    else [Reordered(parent, order, true), StepInserted(parent, place, id, base + at * 1000 + 500)]
  }

  lemma SortedIsOrder(rows: Table, parent: Id, ids: seq<Id>)
    requires Inv(rows)
    ensures Sorted(rows, parent, ids) <==> IsOrder(rows, parent, ids)
  {
    if Sorted(rows, parent, ids) {
      forall i, k | 0 <= i < k < |ids|
        ensures rows[ids[i]].key < rows[ids[k]].key
      {
        assert StepOf(rows, parent, ids[i]) && StepOf(rows, parent, ids[k]) && !Collide(rows, ids[i], ids[k]);
      }
    }
  }

  lemma SpacedIs(rows: Table, parent: Id, order: seq<Id>, base: int, t: Table)
    requires Lists(rows, parent, order) && OnlyStepKeys(rows, parent, t)
    requires forall i | 0 <= i < |order| :: t[order[i]].key == Final(base).Key(i)
    ensures t == Spaced(rows, order, base)
  {
    forall id | id in rows
      ensures t[id] == Spaced(rows, order, base)[id]
    {
      if id in order {
        var i := IndexOf(order, id).value;
        assert t[order[i]].key == Final(base).Key(i);
      } else {
        assert !StepOf(rows, parent, id);
      }
    }
  }

  /** A renumbering leaves exactly the table the fold computes. */
  lemma RenumberedIsSpaced(rows: Table, parent: Id, current: seq<Id>, order: seq<Id>, base: int, maximum: int)
    requires Lists(rows, parent, current) && Lists(rows, parent, order)
    requires IsMaximum(rows, AllChildren(rows, parent), maximum)
    requires Renumbered(rows, current, order, base, maximum).Ok?
    ensures Renumbered(rows, current, order, base, maximum).value == Spaced(rows, order, base)
  {
    RenumberedExactly(rows, parent, current, order, base, maximum);
    SpacedIs(rows, parent, order, base, Renumbered(rows, current, order, base, maximum).value);
  }

  lemma LandsInPlace(rows: Table, parent: Id, place: Place, order: seq<Id>, id: Id, t: Table)
    requires Inv(rows) && IsOrder(rows, parent, order) && Slot(order, place).Some?
    requires Inv(t) && IsOrder(t, parent, Placed(order, Slot(order, place).value, id))
    ensures InPlace(rows, parent, place, id, t)
  {
    SortedIsOrder(rows, parent, order);
    SortedIsOrder(t, parent, Placed(order, Slot(order, place).value, id));
  }

  // ---------------------------------------------------------------- the fold recomputes what they commit

  lemma InsertFits(rows: Table, parent: Id, order: seq<Id>, at: nat, id: Id, events: nat, highest: int, base: int,
                   maximum: int)
    requires at <= |order| && (forall i | 0 <= i < |order| :: order[i] in rows)
    requires HasFitKey(rows, parent, order, at, highest)
    requires Inserted(rows, parent, order, at, id, events, highest, base, maximum).Ok?
    ensures id !in rows && Inserted(rows, parent, order, at, id, events, highest, base, maximum).value
                           == rows[id := Row(Step, parent, FitKey(rows, order, at, highest).value, true)]
  {
  }

  lemma FitFolds(rows: Table, parent: Id, place: Place, id: Id, order: seq<Id>, t: Table)
    requires Inv(rows) && IsOrder(rows, parent, order) && Slot(order, place).Some? && id !in rows
    requires Inv(t) && IsOrder(t, parent, Placed(order, Slot(order, place).value, id)) && id in t
    requires t == rows[id := Row(Step, parent, t[id].key, true)]
    ensures Fold(rows, [StepInserted(parent, place, id, t[id].key)]) == Some(t)
  {
    LandsInPlace(rows, parent, place, order, id, t);
    FoldOne(rows, StepInserted(parent, place, id, t[id].key));
  }

  /** An insert without a fitting key has a Step to go before, and renumbers. */
  lemma InsertSqueezes(rows: Table, parent: Id, order: seq<Id>, at: nat, id: Id, events: nat, highest: int, base: int,
                       maximum: int, t: Table)
    returns (u: Table)
    requires Inv(rows) && IsOrder(rows, parent, order) && at <= |order|
    requires IsMaximum(rows, LiveChildren(rows, parent), highest) && !HasFitKey(rows, parent, order, at, highest)
    requires Inserted(rows, parent, order, at, id, events, highest, base, maximum) == Ok(t)
    ensures at < |order| && Renumbered(rows, order, order, base, maximum) == Ok(u)
    ensures id !in u && t == u[id := Row(Step, parent, base + at * 1000 + 500, true)]
  {
    if at == |order| {
      FitKeyFits(rows, parent, order, at, highest);
      assert false;
    }
    u := Renumbered(rows, order, order, base, maximum).value;
  }

  /** The renumbered table between the two events of an insert. */
  lemma Between(rows: Table, parent: Id, order: seq<Id>, base: int, maximum: int, u: Table)
    requires Inv(rows) && IsOrder(rows, parent, order) && Renumbered(rows, order, order, base, maximum) == Ok(u)
    requires IsMaximum(rows, OtherChildren(rows, parent), base) && IsMaximum(rows, AllChildren(rows, parent), maximum)
    ensures Inv(u) && IsOrder(u, parent, order) && u.Keys == rows.Keys
    ensures order != [] ==> FoldEvent(rows, Reordered(parent, order, true)) == Some(u)
  {
    RenumberedExactly(rows, parent, order, order, base, maximum);
    RenumberedInv(rows, parent, order, base, u);
    RenumberedIsSpaced(rows, parent, order, order, base, maximum);
    SortedIsOrder(rows, parent, order);
    MaximumUnique(rows, OtherChildren(rows, parent), base);
  }

  lemma SqueezeFolds(rows: Table, parent: Id, place: Place, id: Id, order: seq<Id>, u: Table, t: Table)
    requires Inv(u) && IsOrder(u, parent, order) && Slot(order, place).Some? && id !in u
    requires FoldEvent(rows, Reordered(parent, order, true)) == Some(u)
    requires Inv(t) && IsOrder(t, parent, Placed(order, Slot(order, place).value, id)) && id in t
    requires t == u[id := Row(Step, parent, t[id].key, true)]
    ensures Fold(rows, [Reordered(parent, order, true), StepInserted(parent, place, id, t[id].key)]) == Some(t)
  {
    LandsInPlace(u, parent, place, order, id, t);
    FoldTwo(rows, Reordered(parent, order, true), StepInserted(parent, place, id, t[id].key));
  }

  lemma FittedFolds(rows: Table, parent: Id, place: Place, order: seq<Id>, at: nat, id: Id, events: nat, highest: int,
                    base: int, maximum: int, t: Table)
    requires Inv(rows) && IsOrder(rows, parent, order) && Slot(order, place) == Some(at)
    requires Lands(rows, parent, order, at, id, t) && HasFitKey(rows, parent, order, at, highest)
    requires Inserted(rows, parent, order, at, id, events, highest, base, maximum) == Ok(t)
    ensures Fold(rows, InsertedEvents(rows, parent, place, order, at, id, highest, base)) == Some(t)
  {
    InsertFits(rows, parent, order, at, id, events, highest, base, maximum);
    FitFolds(rows, parent, place, id, order, t);
  }

  lemma SqueezedEvents(rows: Table, parent: Id, place: Place, order: seq<Id>, at: nat, id: Id, highest: int,
                       base: int, t: Table)
    requires at <= |order| && (forall i | 0 <= i < |order| :: order[i] in rows) && id in t
    requires !HasFitKey(rows, parent, order, at, highest) && t[id].key == base + at * 1000 + 500
    ensures InsertedEvents(rows, parent, place, order, at, id, highest, base)
            == [Reordered(parent, order, true), StepInserted(parent, place, id, t[id].key)]
  {
  }

  lemma InsertedFolds(rows: Table, parent: Id, place: Place, order: seq<Id>, at: nat, id: Id, events: nat,
                      highest: int, base: int, maximum: int, t: Table)
    requires Inv(rows) && IsOrder(rows, parent, order) && Slot(order, place) == Some(at)
    requires IsMaximum(rows, LiveChildren(rows, parent), highest)
    requires IsMaximum(rows, OtherChildren(rows, parent), base) && IsMaximum(rows, AllChildren(rows, parent), maximum)
    requires Lands(rows, parent, order, at, id, t)
    requires Inserted(rows, parent, order, at, id, events, highest, base, maximum) == Ok(t)
    ensures Fold(rows, InsertedEvents(rows, parent, place, order, at, id, highest, base)) == Some(t)
  {
    if HasFitKey(rows, parent, order, at, highest) {
      FittedFolds(rows, parent, place, order, at, id, events, highest, base, maximum, t);
    } else {
      var u := InsertSqueezes(rows, parent, order, at, id, events, highest, base, maximum, t);
      Between(rows, parent, order, base, maximum, u);
      SqueezeFolds(rows, parent, place, id, order, u, t);
      SqueezedEvents(rows, parent, place, order, at, id, highest, base, t);
    }
  }

  lemma InsertFolds(rows: Table, parent: Id, place: Place, id: Id, events: nat)
    requires Inv(rows) && Insert(rows, parent, place, id, events).Ok?
    ensures Fold(rows, InsertEvents(rows, parent, place, id)) == Some(Insert(rows, parent, place, id, events).value)
  {
    InsertPlaces(rows, parent, place, id, events);
    var order := OrderOf(rows, parent);
    InsertedFolds(rows, parent, place, order, Slot(order, place).value, id, events,
                  Maximum(rows, LiveChildren(rows, parent)), Maximum(rows, OtherChildren(rows, parent)),
                  Maximum(rows, AllChildren(rows, parent)), Insert(rows, parent, place, id, events).value);
  }

  lemma ReorderFolds(rows: Table, parent: Id, order: seq<Id>)
    requires Inv(rows) && Reorder(rows, parent, order).Ok?
    ensures Fold(rows, [Reordered(parent, order, false)]) == Some(Reorder(rows, parent, order).value)
  {
    FoldOne(rows, Reordered(parent, order, false));
    RenumberedIsSpaced(rows, parent, OrderOf(rows, parent), order, Maximum(rows, OtherChildren(rows, parent)),
                       Maximum(rows, AllChildren(rows, parent)));
  }

  /** A legacy create is on key when the largest key in the steps table is the largest
      live one under the Matter. */
  ghost predicate OnKey(s: Tables, op: Op) {
    op.OpLegacy? ==>
      Maximum(s.steps, AllChildren(s.steps, op.parent)) == Maximum(s.rows, LiveChildren(s.rows, op.parent))
  }

  /** The events of a committed command fold to the table it committed, except for a
      legacy create off key, which the fold refuses. */
  lemma CommandFoldsExactly(s: Tables, op: Op)
    requires Inv(s.rows) && Apply(s, op).Ok?
    ensures Fold(s.rows, EventsOf(s, op)) == if OnKey(s, op) then Some(Apply(s, op).value.rows) else None
  {
    match op {
      case OpInsert(parent, place, id, events) => InsertFolds(s.rows, parent, place, id, events);
      case OpReorder(parent, order) => ReorderFolds(s.rows, parent, order);
      case _ => FoldOne(s.rows, EventsOf(s, op)[0]);
    }
  }

  /** The log a run leaves. */
  ghost function Log(ops: seq<Op>): seq<KeyEvent> {
    if ops == [] then []
    else
      var s, op := Run(ops[..|ops| - 1]), ops[|ops| - 1];
      Log(ops[..|ops| - 1]) + if Apply(s, op).Ok? then EventsOf(s, op) else []
  }

  ghost predicate OnKeyAt(ops: seq<Op>, i: nat)
    requires i < |ops|
  {
    Apply(Run(ops[..i]), ops[i]).Ok? ==> OnKey(Run(ops[..i]), ops[i])
  }

  ghost predicate AlwaysOnKey(ops: seq<Op>) {
    forall i | 0 <= i < |ops| :: OnKeyAt(ops, i)
  }

  lemma AlwaysOnKeyGrows(ops: seq<Op>, n: nat)
    requires |ops| == n + 1
    ensures AlwaysOnKey(ops) <==> AlwaysOnKey(ops[..n]) && OnKeyAt(ops, n)
  {
    assert forall i | 0 <= i < n :: ops[..n][..i] == ops[..i] && ops[..n][i] == ops[i];
    assert forall i | 0 <= i < n :: OnKeyAt(ops[..n], i) == OnKeyAt(ops, i);
  }

  /** After every run the fold of the log is the table of sort keys the commands left,
      if every legacy create was on key; if one was not, the log is refused for good. */
  lemma {:induction false} LogFoldsExactly(ops: seq<Op>)
    ensures Fold(map[], Log(ops)) == if AlwaysOnKey(ops) then Some(Run(ops).rows) else None
  {
    if ops != [] {
      var n := |ops| - 1;
      var s, op := Run(ops[..n]), ops[n];
      LogFoldsExactly(ops[..n]);
      AlwaysOnKeyGrows(ops, n);
      FoldAppend(map[], Log(ops[..n]), if Apply(s, op).Ok? then EventsOf(s, op) else []);
      if Apply(s, op).Ok? {
        CommandFoldsExactly(s, op);
      }
    }
  }

  /** A Stage and then step.create v1 leave a store that cannot be reopened. */
  lemma LegacyIsRefused(p: Id, x: Id, a: Id)
    requires x != a
    ensures Fold(map[], Log([OpCreate(p, Stage, x), OpLegacy(p, a)])) == None
  {
    var ops := [OpCreate(p, Stage, x), OpLegacy(p, a)];
    StageFirst(p, x);
    LegacySharesKey(p, x, a);
    assert ops[..1] == [OpCreate(p, Stage, x)];
    var s := Run(ops[..1]);
    MaximumUnique(s.steps, AllChildren(s.steps, p), 0);
    assert x in LiveChildren(s.rows, p);
    assert !OnKeyAt(ops, 1);
    LogFoldsExactly(ops);
  }

  /** Under a Matter that only step.create v1 gives Steps to, every one is on key: the
      two tables hold the same rows. */
  lemma {:induction false} LegacyAlone(ops: seq<Op>, p: Id)
    requires forall i | 0 <= i < |ops| :: OnlyLegacyAt(ops, i, p)
    ensures SameUnder(Run(ops), p)
    ensures OnKey(Run(ops), OpLegacy(p, ""))
  {
    if ops != [] {
      var n := |ops| - 1;
      forall i | 0 <= i < n
        ensures OnlyLegacyAt(ops[..n], i, p)
      {
        assert OnlyLegacyAt(ops, i, p) && ops[..n][..i] == ops[..i];
      }
      LegacyAlone(ops[..n], p);
      assert OnlyLegacyAt(ops, n, p);
      if Apply(Run(ops[..n]), ops[n]).Ok? {
        SameUnderKept(Run(ops[..n]), ops[n], p);
      }
    }
    SameHighest(Run(ops), p);
  }

  ghost predicate OnlyLegacyAt(ops: seq<Op>, i: nat, p: Id)
    requires i < |ops|
  {
    ParentOf(Run(ops[..i]).rows, ops[i]) == p ==> ops[i].OpLegacy?
  }

  /** The live children of p are its rows in the steps table, with the same keys. */
  ghost predicate SameUnder(s: Tables, p: Id) {
    && (forall id | id in s.rows && s.rows[id].parent == p ::
          s.rows[id].live && id in s.steps && s.steps[id] == s.rows[id])
    && (forall id | id in s.steps && s.steps[id].parent == p :: id in s.rows && s.rows[id] == s.steps[id])
    && (forall id | id in s.steps :: id in s.rows)
  }

  lemma SameUnderKept(s: Tables, op: Op, p: Id)
    requires Inv(s.rows) && SameUnder(s, p) && Apply(s, op).Ok? && (ParentOf(s.rows, op) == p ==> op.OpLegacy?)
    ensures SameUnder(Apply(s, op).value, p)
  {
    if !op.OpLegacy? {
      ApplyLands(s, op);
      ApplyKeepsIds(s, op);
      SameElsewhereKept(s, Apply(s, op).value.rows, ParentOf(s.rows, op), p);
    }
  }

  lemma SameElsewhereKept(s: Tables, t: Table, own: Id, p: Id)
    requires SameUnder(s, p) && SameElsewhere(s.rows, own, t) && own != p && s.rows.Keys <= t.Keys
    ensures SameUnder(Tables(t, s.steps), p)
  {
  }

  lemma ApplyKeepsIds(s: Tables, op: Op)
    requires Inv(s.rows) && Apply(s, op).Ok?
    ensures s.rows.Keys <= Apply(s, op).value.rows.Keys
  {
    match op
    case OpInsert(parent, place, id, events) => InsertPlaces(s.rows, parent, place, id, events);
    case OpReorder(parent, order) =>
      RenumberedExactly(s.rows, parent, OrderOf(s.rows, parent), order, Maximum(s.rows, OtherChildren(s.rows, parent)),
                        Maximum(s.rows, AllChildren(s.rows, parent)));
    case _ =>
  }

  lemma SameHighest(s: Tables, p: Id)
    requires SameUnder(s, p)
    ensures Maximum(s.steps, AllChildren(s.steps, p)) == Maximum(s.rows, LiveChildren(s.rows, p))
  {
    assert AllChildren(s.steps, p) == LiveChildren(s.rows, p);
    MaximumUnique(s.rows, LiveChildren(s.rows, p), Maximum(s.steps, AllChildren(s.steps, p)));
  }

  // ---------------------------------------------------------------- the fold in place

  lemma EarlierIsStrict(rows: Table, a: Id, b: Id)
    requires a in rows && b in rows
    ensures !(Earlier(rows, a, b) && Earlier(rows, b, a))
    ensures a != b ==> Earlier(rows, a, b) || Earlier(rows, b, a)
  {
    LeqTotal(a, b);
    if Leq(a, b) && Leq(b, a) {
      LeqAntisymmetric(a, b);
    }
  }

  lemma EarlierTransitive(rows: Table, a: Id, b: Id, c: Id)
    requires a in rows && b in rows && c in rows && Earlier(rows, a, b) && Earlier(rows, b, c)
    ensures Earlier(rows, a, c)
  {
    if rows[a].key == rows[b].key == rows[c].key {
      LeqTransitive(a, b, c);
      if a == c {
        LeqAntisymmetric(a, b);
      }
    }
  }

  /** Strictly ascending. */
  ghost predicate Ascends(rows: Table, ids: seq<Id>) {
    && (forall i | 0 <= i < |ids| :: ids[i] in rows)
    && (forall i, k | 0 <= i < k < |ids| :: Earlier(rows, ids[i], ids[k]))
  }

  lemma {:induction false} AscendsUnique(rows: Table, a: seq<Id>, b: seq<Id>, n: nat)
    requires Ascends(rows, a) && Ascends(rows, b) && (forall x :: x in a <==> x in b) && n <= |a|
    ensures n <= |b| && a[..n] == b[..n]
  {
    if n > 0 {
      AscendsUnique(rows, a, b, n - 1);
      var m := n - 1;
      var k := FoundLater(rows, a, b, m);
      if k > m {
        var j := FoundLater(rows, b, a, m);
        EarlierIsStrict(rows, a[m], b[m]);
      }
      assert a[..n] == a[..m] + [a[m]] && b[..n] == b[..m] + [b[m]];
    }
  }

  /** Past a common start the next of one list is found in the other, no earlier. */
  lemma FoundLater(rows: Table, a: seq<Id>, b: seq<Id>, m: nat) returns (k: nat)
    requires Ascends(rows, a) && (forall x :: x in a <==> x in b) && m < |a| && m <= |b| && a[..m] == b[..m]
    ensures m <= k < |b| && b[k] == a[m]
  {
    assert a[m] in b;
    k :| 0 <= k < |b| && b[k] == a[m];
    if k < m {
      assert a[k] == a[..m][k] == b[..m][k] == a[m];
      EarlierIsStrict(rows, a[k], a[m]);
      assert false;
    }
  }

  lemma AscendsPlaced(rows: Table, ids: seq<Id>, at: nat, id: Id)
    requires Ascends(rows, ids) && at <= |ids| && id in rows
    requires at > 0 ==> Earlier(rows, ids[at - 1], id)
    requires at < |ids| ==> Earlier(rows, id, ids[at])
    ensures Ascends(rows, Placed(ids, at, id))
  {
    forall i | 0 <= i < at
      ensures Earlier(rows, ids[i], id)
    {
      if i < at - 1 {
        EarlierTransitive(rows, ids[i], ids[at - 1], id);
      }
    }
    forall i | at <= i < |ids|
      ensures Earlier(rows, id, ids[i])
    {
      if i > at {
        EarlierTransitive(rows, id, ids[at], ids[i]);
      }
    }
  }

  /** step12SiblingOrder, by insertion. */
  method SiblingOrder(rows: Table, parent: Id) returns (ids: seq<Id>)
    ensures Sorted(rows, parent, ids)
  {
    ids := [];
    var left := set id | id in rows && StepOf(rows, parent, id);
    ghost var all := left;
    while left != {}
      invariant left <= all && Ascends(rows, ids) && forall x :: x in ids <==> x in all && x !in left
      decreases |left|
    {
      var id :| id in left;
      var at := |ids|;
      while at > 0 && Earlier(rows, id, ids[at - 1])
        invariant 0 <= at <= |ids| && (at < |ids| ==> Earlier(rows, id, ids[at]))
      {
        at := at - 1;
      }
      if at > 0 {
        assert ids[at - 1] in ids;
        EarlierIsStrict(rows, ids[at - 1], id);
      }
      AscendsPlaced(rows, ids, at, id);
      PlacedMembers(ids, at, id);
      ids := Placed(ids, at, id);
      left := left - {id};
    }
    AscendsIsSorted(rows, parent, ids);
  }

  lemma AscendsIsSorted(rows: Table, parent: Id, ids: seq<Id>)
    requires Ascends(rows, ids) && forall x :: x in ids <==> StepOf(rows, parent, x)
    ensures Sorted(rows, parent, ids)
  {
    forall i, k | 0 <= i < k < |ids|
      ensures ids[i] != ids[k]
    {
      EarlierIsStrict(rows, ids[i], ids[k]);
    }
    assert forall i | 0 <= i < |ids| :: ids[i] in ids;
  }

  lemma SortedUnique(rows: Table, parent: Id, a: seq<Id>, b: seq<Id>)
    requires Sorted(rows, parent, a) && Sorted(rows, parent, b)
    ensures a == b
  {
    assert forall i | 0 <= i < |a| :: StepOf(rows, parent, a[i]);
    assert forall i | 0 <= i < |b| :: StepOf(rows, parent, b[i]);
    AscendsUnique(rows, a, b, |a|);
    AscendsUnique(rows, b, a, |b|);
  }

  lemma SortedWithout(rows: Table, parent: Id, id: Id, t: Table, after: seq<Id>, n: nat)
    requires id !in rows && id in t && t == rows[id := t[id]] && StepOf(t, parent, id)
    requires Sorted(t, parent, after) && n < |after| && after[n] == id
    ensures Sorted(rows, parent, Dropped(after, n))
  {
    var rest := Dropped(after, n);
    DroppedMembers(after, n);
    forall i | 0 <= i < |rest|
      ensures StepOf(rows, parent, rest[i]) && rest[i] != id
    {
      assert rest[i] in rest;
      assert StepOf(t, parent, rest[i]);
    }
    forall x | StepOf(rows, parent, x)
      ensures x in rest
    {
      assert StepOf(t, parent, x);
    }
  }

  /** step12InsertionOrderValid: order the siblings, take the new Step out, put it back
      at its place and compare. */
  method InsertionOrderValid(rows: Table, parent: Id, place: Place, id: Id, t: Table) returns (ok: bool)
    requires id !in rows && id in t && t == rows[id := t[id]] && StepOf(t, parent, id)
    ensures ok == InPlace(rows, parent, place, id, t)
  {
    var after := SiblingOrder(t, parent);
    var n := IndexOf(after, id).value;
    var rest := Dropped(after, n);
    SortedWithout(rows, parent, id, t, after, n);
    var slot := Slot(rest, place);
    ok := slot.Some? && Placed(rest, slot.value, id) == after;
    if InPlace(rows, parent, place, id, t) {
      var order :| Sorted(rows, parent, order) && Slot(order, place).Some?
                   && Sorted(t, parent, Placed(order, Slot(order, place).value, id));
      SortedUnique(rows, parent, order, rest);
      SortedUnique(t, parent, Placed(order, Slot(order, place).value, id), after);
    }
  }

  method FoldNext(rows: Table, e: KeyEvent) returns (r: Option<Table>)
    ensures r == FoldEvent(rows, e)
  {
    match e
    case Created(parent, kind, id, key) =>
      var highest := QueryMaximum(rows, LiveChildren(rows, parent));
      r := if id in rows || key != highest + 1000 then None else Some(rows[id := Row(kind, parent, key, true)]);
    case StepInserted(parent, place, id, key) =>
      if id in rows {
        return None;
      }
      var t := rows[id := Row(Step, parent, key, true)];
      var ok := InsertionOrderValid(rows, parent, place, id, t);
      r := if ok then Some(t) else None;
    case Reordered(parent, order, renumbering) =>
      var current := SiblingOrder(rows, parent);
      var complete := NamesEveryStep(rows, parent, current, order);
      if !complete || (renumbering && current != order) {
        if complete {
          NotSorted(rows, parent, current, order);
        }
        return None;
      }
      var base := QueryMaximum(rows, OtherChildren(rows, parent));
      r := Some(Spaced(rows, order, base));
    case Replaced(id, replacement) =>
      r := if !LiveStep(rows, id) || replacement in rows then None
           else Some(rows[id := rows[id].(live := false)][replacement := rows[id]]);
    case Removed(id) =>
      r := if !LiveStep(rows, id) then None else Some(rows[id := rows[id].(live := false)]);
  }

  lemma NotSorted(rows: Table, parent: Id, current: seq<Id>, order: seq<Id>)
    requires Sorted(rows, parent, current) && current != order
    ensures !Sorted(rows, parent, order)
  {
    if Sorted(rows, parent, order) {
      SortedUnique(rows, parent, current, order);
    }
  }

  /** The fold of a whole log, event by event. */
  method FoldLog(log: seq<KeyEvent>) returns (r: Option<Table>)
    ensures r == Fold(map[], log)
  {
    var rows: Table := map[];
    for i := 0 to |log|
      invariant Fold(map[], log[..i]) == Some(rows)
    {
      FoldSnoc(map[], log[..i], log[i]);
      assert log[..i + 1] == log[..i] + [log[i]];
      var next := FoldNext(rows, log[i]);
      if next.None? {
        FoldAppend(map[], log[..i + 1], log[i + 1..]);
        assert log[..i + 1] + log[i + 1..] == log;
        return None;
      }
      rows := next.value;
    }
    assert log[..|log|] == log;
    r := Some(rows);
  }
}
