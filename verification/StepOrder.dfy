/** The order of Steps under a parent: sort keys, midpoint inserts and the renumbering
    that runs row by row under the unique index on live siblings. */
module StepOrder {
  import opened Common
  import opened Nodes

  const MAX: int := 0x7fff_ffff_ffff_ffff

  datatype Row = Row(kind: Kind, parent: Id, key: int, live: bool)

  type Table = map<Id, Row>

  predicate Sibling(rows: Table, parent: Id, id: Id) {
    id in rows && rows[id].parent == parent && rows[id].live
  }

  predicate StepOf(rows: Table, parent: Id, id: Id) {
    Sibling(rows, parent, id) && rows[id].kind == Step
  }

  predicate Collide(rows: Table, a: Id, b: Id) {
    && a in rows && b in rows && a != b && rows[a].live && rows[b].live
    && rows[a].parent == rows[b].parent && rows[a].kind == rows[b].kind && rows[a].key == rows[b].key
  }

  /** Live siblings of one kind have different keys, as the unique index demands, and
      every key fits an int64. */
  ghost predicate Inv(rows: Table) {
    && (forall a, b :: !Collide(rows, a, b))
    && (forall a | a in rows :: 0 < rows[a].key <= MAX)
  }

  ghost predicate Lists(rows: Table, parent: Id, ids: seq<Id>) {
    && (forall i, k | 0 <= i < k < |ids| :: ids[i] != ids[k])
    && (forall i | 0 <= i < |ids| :: StepOf(rows, parent, ids[i]))
    && (forall id | StepOf(rows, parent, id) :: id in ids)
  }

  /** The live Steps under the parent, each once, by ascending key. */
  ghost predicate IsOrder(rows: Table, parent: Id, ids: seq<Id>) {
    && Lists(rows, parent, ids)
    && (forall i, k | 0 <= i < k < |ids| :: rows[ids[i]].key < rows[ids[k]].key)
  }

  // ---------------------------------------------------------------- the queries

  /** ORDER BY sort_key over the live Steps, by repeated insertion. */
  method QueryOrder(rows: Table, parent: Id) returns (ids: seq<Id>)
    requires Inv(rows)
    ensures IsOrder(rows, parent, ids)
  {
    ids := [];
    var left := set id | id in rows && StepOf(rows, parent, id);
    while left != {}
      invariant Partial(rows, parent, ids, left)
      decreases |left|
    {
      var id :| id in left;
      var at := Below(rows, ids, rows[id].key);
      PartialGrows(rows, parent, ids, left, at, id);
      ids := Placed(ids, at, id);
      left := left - {id};
    }
  }

  /** ids holds the live Steps that are not left, by ascending key. */
  ghost predicate Partial(rows: Table, parent: Id, ids: seq<Id>, left: set<Id>) {
    && Rising(rows, ids) && (forall id :: id in ids ==> StepOf(rows, parent, id) && id !in left)
    && (forall id | id in left :: StepOf(rows, parent, id))
    && (forall id | StepOf(rows, parent, id) :: id in left || id in ids)
  }

  lemma PartialGrows(rows: Table, parent: Id, ids: seq<Id>, left: set<Id>, at: nat, id: Id)
    requires Inv(rows) && Partial(rows, parent, ids, left) && id in left && at <= |ids|
    requires forall i | 0 <= i < at :: rows[ids[i]].key < rows[id].key
    requires at < |ids| ==> rows[id].key <= rows[ids[at]].key
    ensures Partial(rows, parent, Placed(ids, at, id), left - {id})
  {
    if at < |ids| {
      assert ids[at] in ids && !Collide(rows, id, ids[at]);
    }
    RisingPlaced(rows, ids, at, id);
    PlacedMembers(ids, at, id);
  }

  method Below(rows: Table, ids: seq<Id>, key: int) returns (at: nat)
    requires forall i | 0 <= i < |ids| :: ids[i] in rows
    ensures at <= |ids| && forall i | 0 <= i < at :: rows[ids[i]].key < key
    ensures at < |ids| ==> key <= rows[ids[at]].key
  {
    at := 0;
    while at < |ids| && rows[ids[at]].key < key
      invariant at <= |ids| && forall i | 0 <= i < at :: rows[ids[i]].key < key
    {
      at := at + 1;
    }
  }

  ghost predicate Rising(rows: Table, ids: seq<Id>) {
    && (forall i | 0 <= i < |ids| :: ids[i] in rows)
    && (forall i, k | 0 <= i < k < |ids| :: rows[ids[i]].key < rows[ids[k]].key)
  }

  function Placed(ids: seq<Id>, at: nat, id: Id): (r: seq<Id>)
    requires at <= |ids|
    ensures |r| == |ids| + 1
    ensures forall i | 0 <= i < |r| :: r[i] == if i < at then ids[i] else if i == at then id else ids[i - 1]
  {
    ids[..at] + [id] + ids[at..]
  }

  lemma PlacedMembers(ids: seq<Id>, at: nat, id: Id)
    requires at <= |ids|
    ensures forall x :: x in Placed(ids, at, id) <==> x == id || x in ids
  {
    assert ids == ids[..at] + ids[at..];
  }

  lemma RisingPlaced(rows: Table, ids: seq<Id>, at: nat, id: Id)
    requires Rising(rows, ids) && at <= |ids| && id in rows
    requires at > 0 ==> rows[ids[at - 1]].key < rows[id].key
    requires at < |ids| ==> rows[id].key < rows[ids[at]].key
    ensures Rising(rows, Placed(ids, at, id))
  {
    var r := Placed(ids, at, id);
    assert forall i | 0 <= i < at :: rows[ids[i]].key < rows[id].key;
    assert forall i | at <= i < |ids| :: rows[id].key < rows[ids[i]].key;
    forall i, k | 0 <= i < k < |r|
      ensures rows[r[i]].key < rows[r[k]].key
    {
    }
  }

  /** A Step of one order stands at or past the same place in the other. */
  lemma NotEarlier(rows: Table, parent: Id, a: seq<Id>, b: seq<Id>, n: nat) returns (k: nat)
    requires IsOrder(rows, parent, a) && IsOrder(rows, parent, b) && n < |a| && n <= |b|
             && forall i | 0 <= i < n :: a[i] == b[i]
    ensures n <= k < |b| && b[k] == a[n]
  {
    assert StepOf(rows, parent, a[n]);
    k :| 0 <= k < |b| && b[k] == a[n];
  }

  lemma {:induction false} OrderUnique(rows: Table, parent: Id, a: seq<Id>, b: seq<Id>, n: nat)
    requires IsOrder(rows, parent, a) && IsOrder(rows, parent, b) && n <= |a|
    ensures n <= |b| && forall i | 0 <= i < n :: a[i] == b[i]
  {
    if n > 0 {
      OrderUnique(rows, parent, a, b, n - 1);
      var k := NotEarlier(rows, parent, a, b, n - 1);
      var j := NotEarlier(rows, parent, b, a, n - 1);
      assert rows[a[n - 1]].key <= rows[a[j]].key && rows[b[n - 1]].key <= rows[b[k]].key;
    }
  }

  /** coalesce(max(sort_key), 0) over some rows. */
  ghost predicate IsMaximum(rows: Table, ids: set<Id>, m: int) {
    && m >= 0
    && (forall id | id in ids && id in rows :: rows[id].key <= m)
    && (m == 0 || exists id :: id in ids && id in rows && rows[id].key == m)
  }

  method QueryMaximum(rows: Table, ids: set<Id>) returns (m: int)
    ensures IsMaximum(rows, ids, m) && m == Maximum(rows, ids)
  {
    m := 0;
    var left := ids;
    while left != {}
      invariant left <= ids && IsMaximum(rows, ids - left, m)
      decreases |left|
    {
      var id :| id in left;
      if id in rows && rows[id].key > m {
        m := rows[id].key;
      }
      left := left - {id};
    }
    assert ids - left == ids;
    MaximumUnique(rows, ids, m);
  }

  lemma {:induction false} MaximumExists(rows: Table, ids: set<Id>)
    ensures exists m :: IsMaximum(rows, ids, m)
  {
    if ids == {} {
      assert IsMaximum(rows, ids, 0);
    } else {
      var id :| id in ids;
      MaximumExists(rows, ids - {id});
      var m :| IsMaximum(rows, ids - {id}, m);
      assert IsMaximum(rows, ids, if id in rows && rows[id].key > m then rows[id].key else m);
    }
  }

  lemma MaximumUnique(rows: Table, ids: set<Id>, m: int)
    requires IsMaximum(rows, ids, m)
    ensures m == Maximum(rows, ids)
  {
  }

  ghost function Maximum(rows: Table, ids: set<Id>): (m: int)
    ensures IsMaximum(rows, ids, m)
  {
    MaximumExists(rows, ids);
    var m :| IsMaximum(rows, ids, m);
    m
  }

  function LiveChildren(rows: Table, parent: Id): set<Id> {
    set id | id in rows && Sibling(rows, parent, id)
  }

  function OtherChildren(rows: Table, parent: Id): set<Id> {
    set id | id in rows && Sibling(rows, parent, id) && rows[id].kind != Step
  }

  function AllChildren(rows: Table, parent: Id): set<Id> {
    set id | id in rows && rows[id].parent == parent
  }

  /** nextM6SortKey, given the largest live key under the parent. */
  function NextKey(highest: int): Option<int> {
    if highest > MAX - 1000 then None else Some(highest + 1000)
  }

  /** midpoint: the middle of an open gap, or nothing. */
  function Midpoint(before: int, after: int): Option<int> {
    if before < 0 || after - before <= 1 then None else Some(before + (after - before) / 2)
  }

  // ---------------------------------------------------------------- updates under the unique index

  /** Another live row of the same parent and kind holds the key. */
  predicate Taken(rows: Table, id: Id, row: Row) {
    exists other :: other in rows && other != id && rows[other].live && rows[other].parent == row.parent
                    && rows[other].kind == row.kind && rows[other].key == row.key
  }

  /** INSERT or UPDATE of one row, refused by the index. */
  function Put(rows: Table, id: Id, row: Row): Result<Table> {
    if Taken(rows, id, row) then Err(ErrUniqueIndex) else Ok(rows[id := row])
  }

  /** The two passes of a renumbering: past the largest key, then to the final keys. */
  datatype Pass = Temporary(maximum: int) | Final(base: int) {
    function Key(i: int): int {
      match this
      case Temporary(m) => m + i + 1
      case Final(b) => b + 1000 * (i + 1)
    }
  }

  /** One more update, unless one before it failed. */
  function Then(r: Result<Table>, id: Id, key: int): Result<Table> {
    match r
    case Err(_) => r
    case Ok(t) => if id in t then Put(t, id, t[id].(key := key)) else Err(ErrInvalidStore)
  }

  /** The first n updates of a pass, one row at a time. */
  function Updated(rows: Table, ids: seq<Id>, pass: Pass, n: nat): Result<Table>
    requires n <= |ids|
  {
    if n == 0 then Ok(rows) else Then(Updated(rows, ids, pass, n - 1), ids[n - 1], pass.Key(n - 1))
  }

  /** The table when the first n rows of the list have the keys of the pass. */
  ghost predicate Spread(rows: Table, ids: seq<Id>, pass: Pass, n: nat, t: Table)
    requires n <= |ids| && forall i | 0 <= i < |ids| :: ids[i] in rows
  {
    && t.Keys == rows.Keys
    && (forall i | 0 <= i < n :: t[ids[i]] == rows[ids[i]].(key := pass.Key(i)))
    && (forall id | id in rows && id !in ids[..n] :: t[id] == rows[id])
  }

  /** No row still waiting for its key holds the key of row i. */
  ghost predicate ClearAt(rows: Table, ids: seq<Id>, pass: Pass, i: nat)
    requires forall k | 0 <= k < |ids| :: ids[k] in rows
  {
    forall k | i < k < |ids| :: rows[ids[k]].key != pass.Key(i)
  }

  ghost predicate Clear(rows: Table, ids: seq<Id>, pass: Pass, n: nat)
    requires n <= |ids| && forall k | 0 <= k < |ids| :: ids[k] in rows
  {
    forall i | 0 <= i < n :: ClearAt(rows, ids, pass, i)
  }

  /** Only a row still waiting can hold the key: those done have other keys of the
      pass, and no other row is a live Step of the parent. */
  lemma TakenWaits(rows: Table, parent: Id, ids: seq<Id>, pass: Pass, n: nat, t: Table, other: Id)
    requires Lists(rows, parent, ids) && n < |ids| && Spread(rows, ids, pass, n, t)
    requires StepOf(t, parent, other) && other != ids[n] && t[other].key == pass.Key(n)
    ensures exists k :: n < k < |ids| && ids[k] == other && rows[ids[k]].key == pass.Key(n)
  {
    assert other !in ids[..n];
    assert StepOf(rows, parent, other);
    var k :| 0 <= k < |ids| && ids[k] == other;
    assert forall i | 0 <= i < n :: ids[..n][i] == ids[i];
  }

  lemma PutSpreads(rows: Table, ids: seq<Id>, pass: Pass, n: nat, t: Table)
    requires forall i | 0 <= i < |ids| :: ids[i] in rows
    requires forall i, k | 0 <= i < k < |ids| :: ids[i] != ids[k]
    requires n < |ids| && Spread(rows, ids, pass, n, t)
    ensures Spread(rows, ids, pass, n + 1, t[ids[n] := t[ids[n]].(key := pass.Key(n))])
  {
    assert ids[n] !in ids[..n];
    assert ids[..n + 1] == ids[..n] + [ids[n]];
  }

  lemma UpdateClear(rows: Table, parent: Id, ids: seq<Id>, pass: Pass, n: nat, t: Table)
    requires Lists(rows, parent, ids) && n < |ids| && Spread(rows, ids, pass, n, t)
    ensures Taken(t, ids[n], t[ids[n]].(key := pass.Key(n))) <==> !ClearAt(rows, ids, pass, n)
  {
    assert forall i | n <= i < |ids| :: ids[i] !in ids[..n];
    assert t[ids[n]] == rows[ids[n]];
    var row := t[ids[n]].(key := pass.Key(n));
    if Taken(t, ids[n], row) {
      var other :| other in t && other != ids[n] && t[other].live && t[other].parent == row.parent
                   && t[other].kind == row.kind && t[other].key == row.key;
      TakenWaits(rows, parent, ids, pass, n, t, other);
    }
    if k :| n < k < |ids| && rows[ids[k]].key == pass.Key(n) {
      assert t[ids[k]] == rows[ids[k]] && StepOf(rows, parent, ids[k]);
    }
  }

  lemma PutExactly(rows: Table, parent: Id, ids: seq<Id>, pass: Pass, n: nat, t: Table)
    requires Lists(rows, parent, ids) && n < |ids| && Spread(rows, ids, pass, n, t)
    ensures var r := Put(t, ids[n], t[ids[n]].(key := pass.Key(n)));
            && (r.Ok? <==> ClearAt(rows, ids, pass, n)) && (r.Ok? ==> Spread(rows, ids, pass, n + 1, r.value))
            && (r.Err? ==> r.error == ErrUniqueIndex)
  {
    UpdateClear(rows, parent, ids, pass, n, t);
    PutSpreads(rows, ids, pass, n, t);
  }

  lemma ClearStep(rows: Table, ids: seq<Id>, pass: Pass, n: nat)
    requires n < |ids| && forall k | 0 <= k < |ids| :: ids[k] in rows
    ensures Clear(rows, ids, pass, n + 1) <==> Clear(rows, ids, pass, n) && ClearAt(rows, ids, pass, n)
  {
  }

  /** A pass goes through exactly when it is clear, and then each row has its key. */
  ghost predicate Exact(rows: Table, ids: seq<Id>, pass: Pass, n: nat, r: Result<Table>)
    requires n <= |ids| && forall k | 0 <= k < |ids| :: ids[k] in rows
  {
    match r
    case Ok(t) => Clear(rows, ids, pass, n) && Spread(rows, ids, pass, n, t)
    case Err(e) => !Clear(rows, ids, pass, n) && e == ErrUniqueIndex
  }

  lemma ExactStep(rows: Table, parent: Id, ids: seq<Id>, pass: Pass, n: nat, r: Result<Table>)
    requires Lists(rows, parent, ids) && n < |ids| && Exact(rows, ids, pass, n, r)
    ensures Exact(rows, ids, pass, n + 1, Then(r, ids[n], pass.Key(n)))
  {
    ClearStep(rows, ids, pass, n);
    if r.Ok? {
      PutExactly(rows, parent, ids, pass, n, r.value);
    }
  }

  lemma {:induction false} UpdatedExactly(rows: Table, parent: Id, ids: seq<Id>, pass: Pass, n: nat)
    requires Lists(rows, parent, ids) && n <= |ids|
    ensures Exact(rows, ids, pass, n, Updated(rows, ids, pass, n))
  {
    if n > 0 {
      var m := n - 1;
      UpdatedExactly(rows, parent, ids, pass, m);
      ExactStep(rows, parent, ids, pass, m, Updated(rows, ids, pass, m));
      assert m + 1 == n && Updated(rows, ids, pass, n) == Then(Updated(rows, ids, pass, m), ids[m], pass.Key(m));
    }
  }

  /** A pass leaves the list of live Steps alone and gives it the pass's order. */
  lemma SpreadLists(rows: Table, parent: Id, ids: seq<Id>, pass: Pass, t: Table)
    requires Lists(rows, parent, ids) && Spread(rows, ids, pass, |ids|, t)
    ensures IsOrder(t, parent, ids)
    ensures forall id | id in rows :: t[id] == rows[id].(key := t[id].key)
    ensures forall id | id in rows && !StepOf(rows, parent, id) :: t[id] == rows[id]
  {
    assert ids[..|ids|] == ids;
    forall id | id in rows
      ensures t[id] == rows[id].(key := t[id].key) && (!StepOf(rows, parent, id) ==> t[id] == rows[id])
    {
      if id in ids {
        var i :| 0 <= i < |ids| && ids[i] == id;
      }
    }
    forall id | StepOf(t, parent, id)
      ensures id in ids
    {
      assert StepOf(rows, parent, id);
    }
  }

  // ---------------------------------------------------------------- renumbering

  function Renumbered(rows: Table, current: seq<Id>, order: seq<Id>, base: int, maximum: int): Result<Table>
  {
    if base > MAX - |order| * 1000 || maximum > MAX - |current| - 1 then Err(ErrResourceLimit)
    else
      match Updated(rows, current, Temporary(maximum), |current|)
      case Err(e) => Err(e)
      case Ok(t) => Updated(t, order, Final(base), |order|)
  }

  /** Row i's final key is the temporary key of a row that gets its final key later. */
  ghost predicate ClashAt(current: seq<Id>, order: seq<Id>, base: int, maximum: int, i: nat) {
    exists k, j :: i < k < |order| && 0 <= j < |current| && current[j] == order[k]
                   && Temporary(maximum).Key(j) == Final(base).Key(i)
  }

  ghost predicate Clashes(current: seq<Id>, order: seq<Id>, base: int, maximum: int) {
    exists i :: 0 <= i < |order| && ClashAt(current, order, base, maximum, i)
  }

  /** Only the keys of live Steps under the parent differ. */
  ghost predicate OnlyStepKeys(rows: Table, parent: Id, t: Table) {
    && t.Keys == rows.Keys
    && (forall id | id in rows :: t[id] == rows[id].(key := t[id].key))
    && (forall id | id in rows && !StepOf(rows, parent, id) :: t[id] == rows[id])
  }

  lemma TemporaryClear(rows: Table, parent: Id, current: seq<Id>, maximum: int)
    requires Lists(rows, parent, current) && IsMaximum(rows, AllChildren(rows, parent), maximum)
    ensures Clear(rows, current, Temporary(maximum), |current|)
  {
    forall k | 0 <= k < |current|
      ensures rows[current[k]].key <= maximum
    {
      assert StepOf(rows, parent, current[k]);
      assert current[k] in AllChildren(rows, parent);
    }
  }

  lemma FinalClear(rows: Table, parent: Id, current: seq<Id>, order: seq<Id>, base: int, maximum: int, t: Table)
    requires Lists(rows, parent, current) && Lists(rows, parent, order)
    requires Spread(rows, current, Temporary(maximum), |current|, t)
    ensures forall i | 0 <= i < |order| :: order[i] in t
    ensures Clear(t, order, Final(base), |order|) <==> !Clashes(current, order, base, maximum)
  {
    forall k | 0 <= k < |order|
      ensures order[k] in t
      ensures exists j :: 0 <= j < |current| && current[j] == order[k] && t[order[k]].key == Temporary(maximum).Key(j)
    {
      assert StepOf(rows, parent, order[k]);
      var j :| 0 <= j < |current| && current[j] == order[k];
      assert t[current[j]] == rows[current[j]].(key := Temporary(maximum).Key(j));
    }
    forall i | 0 <= i < |order|
      ensures ClearAt(t, order, Final(base), i) <==> !ClashAt(current, order, base, maximum, i)
    {
      if ClashAt(current, order, base, maximum, i) {
        var k, j :| i < k < |order| && 0 <= j < |current| && current[j] == order[k]
                    && Temporary(maximum).Key(j) == Final(base).Key(i);
        assert t[current[j]].key == Final(base).Key(i);
      }
    }
  }

  lemma ListsKept(rows: Table, parent: Id, ids: seq<Id>, t: Table)
    requires Lists(rows, parent, ids) && OnlyStepKeys(rows, parent, t)
    ensures Lists(t, parent, ids)
  {
    forall i | 0 <= i < |ids|
      ensures StepOf(t, parent, ids[i])
    {
      assert StepOf(rows, parent, ids[i]);
    }
    forall id | StepOf(t, parent, id)
      ensures id in ids
    {
      assert StepOf(rows, parent, id);
    }
  }

  /** The first pass always goes through: its keys are past every key there is. */
  lemma TemporaryPass(rows: Table, parent: Id, current: seq<Id>, maximum: int)
    requires Lists(rows, parent, current) && IsMaximum(rows, AllChildren(rows, parent), maximum)
    ensures var r := Updated(rows, current, Temporary(maximum), |current|);
            r.Ok? && Spread(rows, current, Temporary(maximum), |current|, r.value)
            && OnlyStepKeys(rows, parent, r.value)
  {
    UpdatedExactly(rows, parent, current, Temporary(maximum), |current|);
    TemporaryClear(rows, parent, current, maximum);
    SpreadLists(rows, parent, current, Temporary(maximum), Updated(rows, current, Temporary(maximum), |current|).value);
  }

  lemma FinalPass(rows: Table, parent: Id, current: seq<Id>, order: seq<Id>, base: int, maximum: int, t: Table)
    requires Lists(rows, parent, current) && Lists(rows, parent, order)
    requires Spread(rows, current, Temporary(maximum), |current|, t) && OnlyStepKeys(rows, parent, t)
    ensures var r := Updated(t, order, Final(base), |order|);
            && (r.Ok? <==> !Clashes(current, order, base, maximum)) && (r.Err? ==> r.error == ErrUniqueIndex)
            && (r.Ok? ==> OnlyStepKeys(t, parent, r.value) && IsOrder(r.value, parent, order)
                          && forall i | 0 <= i < |order| :: r.value[order[i]].key == Final(base).Key(i))
  {
    ListsKept(rows, parent, order, t);
    FinalClear(rows, parent, current, order, base, maximum, t);
    UpdatedExactly(t, parent, order, Final(base), |order|);
    var r := Updated(t, order, Final(base), |order|);
    if r.Ok? {
      SpreadLists(t, parent, order, Final(base), r.value);
    }
  }

  /** Renumbering goes through exactly when the bounds hold and no final key is in
      use by a waiting row; then the Steps are in the requested order. */
  lemma RenumberedExactly(rows: Table, parent: Id, current: seq<Id>, order: seq<Id>, base: int, maximum: int)
    requires Lists(rows, parent, current) && Lists(rows, parent, order)
    requires IsMaximum(rows, AllChildren(rows, parent), maximum)
    ensures var r := Renumbered(rows, current, order, base, maximum);
            var bounded := base <= MAX - |order| * 1000 && maximum <= MAX - |current| - 1;
            && (r.Ok? <==> bounded && !Clashes(current, order, base, maximum))
            && (r.Err? ==> r.error == if bounded then ErrUniqueIndex else ErrResourceLimit)
            && (r.Ok? ==> OnlyStepKeys(rows, parent, r.value) && IsOrder(r.value, parent, order)
                          && forall i | 0 <= i < |order| :: r.value[order[i]].key == Final(base).Key(i))
  {
    TemporaryPass(rows, parent, current, maximum);
    var t := Updated(rows, current, Temporary(maximum), |current|).value;
    FinalPass(rows, parent, current, order, base, maximum, t);
    var r := Updated(t, order, Final(base), |order|);
    if r.Ok? {
      OnlyStepKeysCompose(rows, parent, t, r.value);
    }
  }

  lemma OnlyStepKeysCompose(rows: Table, parent: Id, t: Table, u: Table)
    requires OnlyStepKeys(rows, parent, t) && OnlyStepKeys(t, parent, u)
    ensures OnlyStepKeys(rows, parent, u)
  {
    forall id | id in rows && !StepOf(rows, parent, id)
      ensures u[id] == rows[id]
    {
      assert !StepOf(t, parent, id);
    }
  }

  /** Step keys above every other live child's, distinct and in range, keep the invariant. */
  lemma RenumberedInv(rows: Table, parent: Id, order: seq<Id>, base: int, t: Table)
    requires Inv(rows) && OnlyStepKeys(rows, parent, t) && IsOrder(t, parent, order)
    requires IsMaximum(rows, OtherChildren(rows, parent), base) && base <= MAX - |order| * 1000
    requires forall i | 0 <= i < |order| :: t[order[i]].key == Final(base).Key(i)
    ensures Inv(t)
  {
    forall a | a in t
      ensures 0 < t[a].key <= MAX && (StepOf(t, parent, a) ==> t[a].key > base)
      ensures Sibling(t, parent, a) && t[a].kind != Step ==> t[a].key <= base
    {
      if StepOf(t, parent, a) {
        var i :| 0 <= i < |order| && order[i] == a;
        assert t[order[i]].key == Final(base).Key(i);
      } else {
        assert t[a] == rows[a];
        assert Sibling(t, parent, a) ==> a in OtherChildren(rows, parent);
      }
    }
    forall a, b
      ensures !Collide(t, a, b)
    {
      assert !Collide(rows, a, b);
      if StepOf(t, parent, a) && StepOf(t, parent, b) {
        var i :| 0 <= i < |order| && order[i] == a;
        var k :| 0 <= k < |order| && order[k] == b;
      }
    }
  }

  /** When the largest key is past the renumbered range nothing clashes. */
  lemma AmpleMaximum(current: seq<Id>, order: seq<Id>, base: int, maximum: int)
    requires base + 1000 * |order| <= maximum
    ensures !Clashes(current, order, base, maximum)
  {
  }

  // ---------------------------------------------------------------- the commands

  /** Where a key stands in a rising list: after every smaller one. */
  function Rank(rows: Table, ids: seq<Id>, key: int): (at: nat)
    requires forall i | 0 <= i < |ids| :: ids[i] in rows
    ensures at <= |ids| && forall i | 0 <= i < at :: rows[ids[i]].key < key
    ensures at < |ids| ==> key <= rows[ids[at]].key
  {
    if ids == [] || key <= rows[ids[0]].key then 0
    else Rank(rows, ids[1..], key) + 1
  }

  lemma OrderExists(rows: Table, parent: Id, left: set<Id>) returns (ids: seq<Id>)
    requires Inv(rows) && forall id | id in left :: StepOf(rows, parent, id)
    ensures Rising(rows, ids) && forall id :: id in ids <==> id in left
    decreases |left|
  {
    if left == {} {
      ids := [];
    } else {
      var id :| id in left;
      var before := OrderExists(rows, parent, left - {id});
      assert forall i | 0 <= i < |before| :: before[i] in left - {id};
      assert forall i | 0 <= i < |before| :: StepOf(rows, parent, before[i]) && !Collide(rows, id, before[i]);
      var at := Rank(rows, before, rows[id].key);
      RisingPlaced(rows, before, at, id);
      PlacedMembers(before, at, id);
      ids := Placed(before, at, id);
    }
  }

  ghost function OrderOf(rows: Table, parent: Id): (ids: seq<Id>)
    requires Inv(rows)
    ensures IsOrder(rows, parent, ids)
  {
    SomeOrder(rows, parent);
    var ids :| IsOrder(rows, parent, ids);
    ids
  }

  lemma SomeOrder(rows: Table, parent: Id)
    requires Inv(rows)
    ensures exists ids :: IsOrder(rows, parent, ids)
  {
    var ids := OrderExists(rows, parent, set id | id in rows && StepOf(rows, parent, id));
    assert IsOrder(rows, parent, ids);
  }

  /** The order of a table is what the query returns: there is only one. */
  lemma OrderIs(rows: Table, parent: Id, ids: seq<Id>)
    requires Inv(rows) && IsOrder(rows, parent, ids)
    ensures ids == OrderOf(rows, parent)
  {
    OrderUnique(rows, parent, ids, OrderOf(rows, parent), |ids|);
    OrderUnique(rows, parent, OrderOf(rows, parent), ids, |OrderOf(rows, parent)|);
  }

  datatype Place = AtEnd | Before(id: Id) | After(id: Id)

  function IndexOf(ids: seq<Id>, id: Id): (r: Option<nat>)
    ensures r.Some? ==> r.value < |ids| && ids[r.value] == id && id !in ids[..r.value]
    ensures r.None? ==> id !in ids
  {
    if ids == [] then None
    else if ids[0] == id then Some(0)
    else
      match IndexOf(ids[1..], id)
      case None => None
      case Some(i) =>
        assert ids[..i + 1] == [ids[0]] + ids[1..][..i];
        Some(i + 1)
  }

  /** Where the new Step goes among the live Steps; None when the anchor is not one. */
  function Slot(order: seq<Id>, place: Place): (r: Option<nat>)
    ensures r.Some? ==> r.value <= |order|
  {
    match place
    case AtEnd => Some(|order|)
    case Before(id) => IndexOf(order, id)
    case After(id) => match IndexOf(order, id) case None => None case Some(i) => Some(i + 1)
  }

  predicate Free(rows: Table, parent: Id, key: int) {
    !exists id :: id in rows && Sibling(rows, parent, id) && rows[id].key == key
  }

  function FitKey(rows: Table, order: seq<Id>, at: nat, highest: int): Option<int>
    requires at <= |order| && forall i | 0 <= i < |order| :: order[i] in rows
  {
    if at == |order| then NextKey(highest)
    else Midpoint(if at == 0 then 0 else rows[order[at - 1]].key, rows[order[at]].key)
  }

  predicate HasFitKey(rows: Table, parent: Id, order: seq<Id>, at: nat, highest: int)
    requires at <= |order| && forall i | 0 <= i < |order| :: order[i] in rows
  {
    var key := FitKey(rows, order, at, highest);
    key.Some? && Free(rows, parent, key.value)
  }

  function Added(rows: Table, id: Id, row: Row): Result<Table> {
    if id in rows then Err(ErrExists) else Put(rows, id, row)
  }

  /** Renumber every live Step, then take the middle of the gap at the slot. */
  function Squeezed(rows: Table, parent: Id, order: seq<Id>, at: nat, id: Id, base: int, maximum: int): Result<Table> {
    match Renumbered(rows, order, order, base, maximum)
    case Err(e) => Err(e)
    case Ok(t) =>
      if base > MAX - (|order| + 2) * 1000 then Err(ErrResourceLimit)
      else Added(t, id, Row(Step, parent, base + at * 1000 + 500, true))
  }

  /** insertM6Step: a free key at the slot, or one step.reordered event that renumbers
      all live Steps and then a key in the gap that opens. */
  function Inserted(rows: Table, parent: Id, order: seq<Id>, at: nat, id: Id, events: nat, highest: int, base: int,
                    maximum: int)
    : Result<Table>
    requires at <= |order| && forall i | 0 <= i < |order| :: order[i] in rows
  {
    var key := FitKey(rows, order, at, highest);
    if at == |order| && key.None? then Err(ErrResourceLimit)
    else if HasFitKey(rows, parent, order, at, highest) then
      if events == 0 then Err(ErrInvalidProof) else Added(rows, id, Row(Step, parent, key.value, true))
    else if events != 2 then Err(ErrInvalidProof)
    else Squeezed(rows, parent, order, at, id, base, maximum)
  }

  ghost function Insert(rows: Table, parent: Id, place: Place, id: Id, events: nat): Result<Table>
    requires Inv(rows)
  {
    var order := OrderOf(rows, parent);
    match Slot(order, place)
    case None => Err(ErrRejected)
    case Some(at) =>
      Inserted(rows, parent, order, at, id, events, Maximum(rows, LiveChildren(rows, parent)),
               Maximum(rows, OtherChildren(rows, parent)), Maximum(rows, AllChildren(rows, parent)))
  }

  /** t is rows with one new live Step; other rows kept but for keys of live Steps. */
  ghost predicate OneMore(rows: Table, parent: Id, id: Id, t: Table) {
    && id !in rows && t.Keys == rows.Keys + {id} && t[id] == Row(Step, parent, t[id].key, true)
    && (forall x | x in rows :: t[x] == rows[x].(key := t[x].key) && (!StepOf(rows, parent, x) ==> t[x] == rows[x]))
  }

  /** The new Step is exactly at the slot, every other Step keeps its relative order,
      and keys stay distinct, positive and in range. */
  ghost predicate Lands(rows: Table, parent: Id, order: seq<Id>, at: nat, id: Id, t: Table)
    requires at <= |order|
  {
    IsOrder(t, parent, Placed(order, at, id)) && Inv(t) && OneMore(rows, parent, id, t)
  }

  /** A Step with a free key between its neighbours' lands in its slot. */
  lemma AddedLands(rows: Table, parent: Id, order: seq<Id>, at: nat, id: Id, key: int)
    requires Inv(rows) && IsOrder(rows, parent, order) && id !in rows && at <= |order|
    requires Free(rows, parent, key) && 0 < key <= MAX
    requires at > 0 ==> rows[order[at - 1]].key < key
    requires at < |order| ==> key < rows[order[at]].key
    ensures var row := Row(Step, parent, key, true);
            var t := rows[id := row];
            !Taken(rows, id, row) && Inv(t) && IsOrder(t, parent, Placed(order, at, id))
  {
    var t := rows[id := Row(Step, parent, key, true)];
    forall x | x in rows && Sibling(rows, parent, x)
      ensures rows[x].key != key
    {
    }
    AddedInv(rows, id, Row(Step, parent, key, true));
    AddedRises(rows, parent, order, at, id, t);
  }

  lemma AddedInv(rows: Table, id: Id, row: Row)
    requires Inv(rows) && id !in rows && 0 < row.key <= MAX && !Taken(rows, id, row)
    ensures Inv(rows[id := row])
  {
    var t := rows[id := row];
    forall a, b
      ensures !Collide(t, a, b)
    {
      assert !Collide(rows, a, b);
    }
  }

  lemma AddedRises(rows: Table, parent: Id, order: seq<Id>, at: nat, id: Id, t: Table)
    requires IsOrder(rows, parent, order) && id !in rows && at <= |order| && StepOf(t, parent, id)
    requires t == rows[id := t[id]]
    requires at > 0 ==> rows[order[at - 1]].key < t[id].key
    requires at < |order| ==> t[id].key < rows[order[at]].key
    ensures IsOrder(t, parent, Placed(order, at, id))
  {
    forall i | 0 <= i < |order|
      ensures order[i] in rows && t[order[i]] == rows[order[i]]
    {
      assert StepOf(rows, parent, order[i]);
    }
    var placed := Placed(order, at, id);
    RisingPlaced(t, order, at, id);
    PlacedMembers(order, at, id);
    forall i | 0 <= i < |placed|
      ensures StepOf(t, parent, placed[i])
    {
      assert placed[i] in placed;
      if placed[i] != id {
        assert placed[i] in order;
        assert StepOf(rows, parent, placed[i]);
      }
    }
    forall x | StepOf(t, parent, x)
      ensures x in placed
    {
      assert x == id || StepOf(rows, parent, x);
    }
  }

  /** The key at the slot, when there is one, lies strictly between the neighbours. */
  lemma FitKeyFits(rows: Table, parent: Id, order: seq<Id>, at: nat, highest: int)
    requires Inv(rows) && IsOrder(rows, parent, order) && at <= |order|
    requires IsMaximum(rows, LiveChildren(rows, parent), highest) && FitKey(rows, order, at, highest).Some?
    ensures var key := FitKey(rows, order, at, highest).value;
            && 0 < key <= MAX && (at > 0 ==> rows[order[at - 1]].key < key)
            && (at < |order| ==> key < rows[order[at]].key)
            && (at == |order| ==> Free(rows, parent, key))
  {
    forall i | 0 <= i < |order|
      ensures order[i] in LiveChildren(rows, parent)
    {
      assert StepOf(rows, parent, order[i]);
    }
    forall x | x in rows && Sibling(rows, parent, x)
      ensures rows[x].key <= highest
    {
      assert x in LiveChildren(rows, parent);
    }
  }

  /** After renumbering the gap at the slot holds a free key. */
  lemma GapFits(rows: Table, parent: Id, order: seq<Id>, at: nat, base: int, t: Table)
    requires OnlyStepKeys(rows, parent, t) && IsOrder(t, parent, order) && at <= |order|
    requires IsMaximum(rows, OtherChildren(rows, parent), base) && base <= MAX - (|order| + 2) * 1000
    requires forall i | 0 <= i < |order| :: t[order[i]].key == Final(base).Key(i)
    ensures var key := base + at * 1000 + 500;
            && 0 < key <= MAX && (at > 0 ==> t[order[at - 1]].key < key) && (at < |order| ==> key < t[order[at]].key)
            && Free(t, parent, key)
  {
    var key := base + at * 1000 + 500;
    forall x | x in t && Sibling(t, parent, x)
      ensures t[x].key != key
    {
      if StepOf(t, parent, x) {
        var i :| 0 <= i < |order| && order[i] == x;
        assert t[order[i]].key == Final(base).Key(i);
      } else {
        assert t[x] == rows[x];
        assert x in OtherChildren(rows, parent);
      }
    }
  }

  lemma FitPath(rows: Table, parent: Id, order: seq<Id>, at: nat, id: Id, highest: int)
    requires Inv(rows) && IsOrder(rows, parent, order) && at <= |order|
    requires IsMaximum(rows, LiveChildren(rows, parent), highest) && FitKey(rows, order, at, highest).Some?
    requires Free(rows, parent, FitKey(rows, order, at, highest).value)
    ensures var r := Added(rows, id, Row(Step, parent, FitKey(rows, order, at, highest).value, true));
            (r.Err? ==> r.error == ErrExists) && (r.Ok? ==> Lands(rows, parent, order, at, id, r.value))
  {
    FitKeyFits(rows, parent, order, at, highest);
    if id !in rows {
      AddedLands(rows, parent, order, at, id, FitKey(rows, order, at, highest).value);
    }
  }

  lemma SqueezeLands(rows: Table, parent: Id, order: seq<Id>, at: nat, id: Id, base: int, t: Table, row: Row)
    requires Inv(rows) && at <= |order| && IsMaximum(rows, OtherChildren(rows, parent), base)
    requires OnlyStepKeys(rows, parent, t) && IsOrder(t, parent, order) && base <= MAX - (|order| + 2) * 1000
    requires (forall i | 0 <= i < |order| :: t[order[i]].key == Final(base).Key(i)) && id !in rows
    requires row == Row(Step, parent, base + at * 1000 + 500, true)
    ensures !Taken(t, id, row) && Lands(rows, parent, order, at, id, t[id := row])
  {
    RenumberedInv(rows, parent, order, base, t);
    GapFits(rows, parent, order, at, base, t);
    AddedLands(t, parent, order, at, id, row.key);
    OneMoreAfter(rows, parent, t, id, row.key);
  }

  lemma OneMoreAfter(rows: Table, parent: Id, t: Table, id: Id, key: int)
    requires OnlyStepKeys(rows, parent, t) && id !in rows
    ensures OneMore(rows, parent, id, t[id := Row(Step, parent, key, true)])
  {
  }

  lemma SqueezePath(rows: Table, parent: Id, order: seq<Id>, at: nat, id: Id, base: int, maximum: int)
    requires Inv(rows) && IsOrder(rows, parent, order) && at <= |order|
    requires IsMaximum(rows, OtherChildren(rows, parent), base) && IsMaximum(rows, AllChildren(rows, parent), maximum)
    ensures var r := Squeezed(rows, parent, order, at, id, base, maximum);
            && (r == Err(ErrUniqueIndex) <==> base <= MAX - |order| * 1000 && maximum <= MAX - |order| - 1
                                              && Clashes(order, order, base, maximum))
            && (r.Ok? ==> Lands(rows, parent, order, at, id, r.value))
  {
    RenumberedExactly(rows, parent, order, order, base, maximum);
    var renumbered := Renumbered(rows, order, order, base, maximum);
    if renumbered.Ok? && base <= MAX - (|order| + 2) * 1000 && id !in rows {
      SqueezeLands(rows, parent, order, at, id, base, renumbered.value,
                   Row(Step, parent, base + at * 1000 + 500, true));
    }
  }

  /** On both paths a committed insert lands at its slot. */
  lemma InsertedLands(rows: Table, parent: Id, order: seq<Id>, at: nat, id: Id, events: nat, highest: int, base: int,
                      maximum: int)
    requires Inv(rows) && IsOrder(rows, parent, order) && at <= |order|
             && IsMaximum(rows, LiveChildren(rows, parent), highest)
    requires IsMaximum(rows, OtherChildren(rows, parent), base) && IsMaximum(rows, AllChildren(rows, parent), maximum)
    requires Inserted(rows, parent, order, at, id, events, highest, base, maximum).Ok?
    ensures Lands(rows, parent, order, at, id,
                  Inserted(rows, parent, order, at, id, events, highest, base, maximum).value)
  {
    if HasFitKey(rows, parent, order, at, highest) {
      FitPath(rows, parent, order, at, id, highest);
    } else {
      SqueezePath(rows, parent, order, at, id, base, maximum);
    }
  }

  lemma InsertedRefused(rows: Table, parent: Id, order: seq<Id>, at: nat, id: Id, events: nat, highest: int,
                        base: int, maximum: int)
    requires Inv(rows) && IsOrder(rows, parent, order) && at <= |order|
             && IsMaximum(rows, LiveChildren(rows, parent), highest)
    requires IsMaximum(rows, OtherChildren(rows, parent), base) && IsMaximum(rows, AllChildren(rows, parent), maximum)
    ensures Inserted(rows, parent, order, at, id, events, highest, base, maximum) == Err(ErrUniqueIndex) <==>
            && at < |order| && events == 2 && !HasFitKey(rows, parent, order, at, highest)
            && base <= MAX - |order| * 1000 && maximum <= MAX - |order| - 1 && Clashes(order, order, base, maximum)
  {
    if HasFitKey(rows, parent, order, at, highest) {
      FitPath(rows, parent, order, at, id, highest);
    } else {
      SqueezePath(rows, parent, order, at, id, base, maximum);
      if FitKey(rows, order, at, highest).Some? {
        FitKeyFits(rows, parent, order, at, highest);
      }
    }
  }

  /** A committed insert lands at the requested slot. */
  lemma InsertPlaces(rows: Table, parent: Id, place: Place, id: Id, events: nat)
    requires Inv(rows) && Insert(rows, parent, place, id, events).Ok?
    ensures var order := OrderOf(rows, parent);
            && Slot(order, place).Some?
            && Lands(rows, parent, order, Slot(order, place).value, id, Insert(rows, parent, place, id, events).value)
  {
    var order := OrderOf(rows, parent);
    InsertedLands(rows, parent, order, Slot(order, place).value, id, events, Maximum(rows, LiveChildren(rows, parent)),
                  Maximum(rows, OtherChildren(rows, parent)), Maximum(rows, AllChildren(rows, parent)));
  }

  /** The unique index refuses an insert in exactly one family of states: no free key
      at the slot, everything else in order, and a clash while renumbering. */
  lemma InsertUniqueFailure(rows: Table, parent: Id, place: Place, id: Id, events: nat)
    requires Inv(rows)
    ensures var order := OrderOf(rows, parent);
            var base, maximum := Maximum(rows, OtherChildren(rows, parent)), Maximum(rows, AllChildren(rows, parent));
            Insert(rows, parent, place, id, events) == Err(ErrUniqueIndex) <==>
            && Slot(order, place).Some? && Slot(order, place).value < |order| && events == 2
            && !HasFitKey(rows, parent, order, Slot(order, place).value, Maximum(rows, LiveChildren(rows, parent)))
            && base <= MAX - |order| * 1000 && maximum <= MAX - |order| - 1
            && Clashes(order, order, base, maximum)
  {
    var order := OrderOf(rows, parent);
    if Slot(order, place).Some? {
      InsertedRefused(rows, parent, order, Slot(order, place).value, id, events,
                      Maximum(rows, LiveChildren(rows, parent)),
                      Maximum(rows, OtherChildren(rows, parent)), Maximum(rows, AllChildren(rows, parent)));
    }
  }

  /** An insert goes through exactly when the anchor is a live Step, the id is new, and
      either a free key fits the slot or all live Steps can be renumbered without a clash
      and leave a gap in range. */
  lemma InsertExactly(rows: Table, parent: Id, place: Place, id: Id, events: nat)
    requires Inv(rows)
    ensures var order := OrderOf(rows, parent);
            var base, maximum := Maximum(rows, OtherChildren(rows, parent)), Maximum(rows, AllChildren(rows, parent));
            Insert(rows, parent, place, id, events).Ok? <==>
            && id !in rows && Slot(order, place).Some?
            && if HasFitKey(rows, parent, order, Slot(order, place).value, Maximum(rows, LiveChildren(rows, parent)))
               then events > 0
               else && Slot(order, place).value < |order| && events == 2
                    && base <= MAX - (|order| + 2) * 1000 && maximum <= MAX - |order| - 1
                    && !Clashes(order, order, base, maximum)
  {
    var order := OrderOf(rows, parent);
    if Slot(order, place).Some? {
      InsertedExactly(rows, parent, order, Slot(order, place).value, id, events,
                      Maximum(rows, LiveChildren(rows, parent)), Maximum(rows, OtherChildren(rows, parent)),
                      Maximum(rows, AllChildren(rows, parent)));
    }
  }

  lemma InsertedExactly(rows: Table, parent: Id, order: seq<Id>, at: nat, id: Id, events: nat, highest: int,
                        base: int, maximum: int)
    requires Inv(rows) && IsOrder(rows, parent, order) && at <= |order|
    requires IsMaximum(rows, LiveChildren(rows, parent), highest)
    requires IsMaximum(rows, OtherChildren(rows, parent), base) && IsMaximum(rows, AllChildren(rows, parent), maximum)
    ensures Inserted(rows, parent, order, at, id, events, highest, base, maximum).Ok? <==>
            && id !in rows
            && if HasFitKey(rows, parent, order, at, highest) then events > 0
               else && at < |order| && events == 2
                    && base <= MAX - (|order| + 2) * 1000 && maximum <= MAX - |order| - 1
                    && !Clashes(order, order, base, maximum)
  {
    if HasFitKey(rows, parent, order, at, highest) {
      FreeIsNotTaken(rows, parent, id, FitKey(rows, order, at, highest).value);
    } else if at == |order| {
      if FitKey(rows, order, at, highest).Some? {
        FitKeyFits(rows, parent, order, at, highest);
      }
    } else {
      SqueezedExactly(rows, parent, order, at, id, base, maximum);
    }
  }

  lemma FreeIsNotTaken(rows: Table, parent: Id, id: Id, key: int)
    requires Free(rows, parent, key)
    ensures !Taken(rows, id, Row(Step, parent, key, true))
  {
  }

  lemma SqueezedExactly(rows: Table, parent: Id, order: seq<Id>, at: nat, id: Id, base: int, maximum: int)
    requires Inv(rows) && IsOrder(rows, parent, order) && at < |order|
    requires IsMaximum(rows, OtherChildren(rows, parent), base) && IsMaximum(rows, AllChildren(rows, parent), maximum)
    ensures Squeezed(rows, parent, order, at, id, base, maximum).Ok? <==>
            && id !in rows && base <= MAX - (|order| + 2) * 1000 && maximum <= MAX - |order| - 1
            && !Clashes(order, order, base, maximum)
  {
    RenumberedExactly(rows, parent, order, order, base, maximum);
    var r := Renumbered(rows, order, order, base, maximum);
    if r.Ok? && base <= MAX - (|order| + 2) * 1000 {
      RenumberedInv(rows, parent, order, base, r.value);
      GapFits(rows, parent, order, at, base, r.value);
      FreeIsNotTaken(r.value, parent, id, base + at * 1000 + 500);
    }
  }

  // ---------------------------------------------------------------- all Step commands refine a list per parent

  /** steps is the table step.create v1 takes its keys from; nothing else writes it. */
  datatype Tables = Tables(rows: Table, steps: Table)

  /** OpLegacy is step.create v1, OpCreate any other create. */
  datatype Op =
    | OpCreate(parent: Id, kind: Kind, id: Id)
    | OpLegacy(parent: Id, id: Id)
    | OpInsert(parent: Id, place: Place, id: Id, events: nat)
    | OpReorder(parent: Id, order: seq<Id>)
    | OpReplace(id: Id, replacement: Id)
    | OpRemove(id: Id)

  ghost function Create(rows: Table, parent: Id, kind: Kind, id: Id): Result<Table> {
    match NextKey(Maximum(rows, LiveChildren(rows, parent)))
    case None => Err(ErrResourceLimit)
    case Some(key) => Added(rows, id, Row(kind, parent, key, true))
  }

  /** step.create v1: the key follows the largest in the steps table, whatever the live
      siblings' keys are. */
  ghost function CreateLegacy(s: Tables, parent: Id, id: Id): Result<Tables> {
    match NextKey(Maximum(s.steps, AllChildren(s.steps, parent)))
    case None => Err(ErrResourceLimit)
    case Some(key) =>
      match Added(s.rows, id, Row(Step, parent, key, true))
      case Err(e) => Err(e)
      case Ok(t) => Ok(Tables(t, s.steps[id := Row(Step, parent, key, true)]))
  }

  ghost function Reorder(rows: Table, parent: Id, order: seq<Id>): Result<Table>
    requires Inv(rows)
  {
    if order == [] || !Lists(rows, parent, order) then Err(ErrRejected)
    else Renumbered(rows, OrderOf(rows, parent), order, Maximum(rows, OtherChildren(rows, parent)),
                    Maximum(rows, AllChildren(rows, parent)))
  }

  predicate LiveStep(rows: Table, id: Id) {
    id in rows && rows[id].live && rows[id].kind == Step
  }

  function Remove(rows: Table, id: Id): Result<Table> {
    if LiveStep(rows, id) then Ok(rows[id := rows[id].(live := false)]) else Err(ErrNotFound)
  }

  /** The replacement takes over the key of the Step it replaces. */
  function Replace(rows: Table, id: Id, replacement: Id): Result<Table> {
    match Remove(rows, id)
    case Err(e) => Err(e)
    case Ok(t) => Added(t, replacement, rows[id])
  }

  function With(s: Tables, r: Result<Table>): Result<Tables> {
    match r
    case Err(e) => Err(e)
    case Ok(t) => Ok(s.(rows := t))
  }

  ghost function Apply(s: Tables, op: Op): Result<Tables>
    requires Inv(s.rows)
  {
    match op
    case OpCreate(parent, kind, id) => With(s, Create(s.rows, parent, kind, id))
    case OpLegacy(parent, id) => CreateLegacy(s, parent, id)
    case OpInsert(parent, place, id, events) => With(s, Insert(s.rows, parent, place, id, events))
    case OpReorder(parent, order) => With(s, Reorder(s.rows, parent, order))
    case OpReplace(id, replacement) => With(s, Replace(s.rows, id, replacement))
    case OpRemove(id) => With(s, Remove(s.rows, id))
  }

  ghost function ParentOf(rows: Table, op: Op): Id {
    match op
    case OpReplace(id, _) => if id in rows then rows[id].parent else ""
    case OpRemove(id) => if id in rows then rows[id].parent else ""
    case _ => op.parent
  }

  /** The command on the list of Steps; at is the place of a legacy create's key. */
  function Listed(ids: seq<Id>, op: Op, at: nat): seq<Id> {
    match op
    case OpCreate(_, kind, id) => if kind == Step then ids + [id] else ids
    case OpLegacy(_, id) => if at <= |ids| then Placed(ids, at, id) else ids
    case OpInsert(_, place, id, _) => if Slot(ids, place).Some? then Placed(ids, Slot(ids, place).value, id) else ids
    case OpReorder(_, order) => order
    case OpReplace(id, replacement) =>
      if IndexOf(ids, id).Some? then ids[IndexOf(ids, id).value := replacement] else ids
    case OpRemove(id) =>
      if IndexOf(ids, id).Some? then Dropped(ids, IndexOf(ids, id).value) else ids
  }

  function Dropped(ids: seq<Id>, at: nat): (r: seq<Id>)
    requires at < |ids|
    ensures |r| == |ids| - 1 && forall i | 0 <= i < |r| :: r[i] == if i < at then ids[i] else ids[i + 1]
  {
    ids[..at] + ids[at + 1..]
  }

  ghost predicate SameElsewhere(rows: Table, parent: Id, t: Table) {
    && (forall id | id in rows && rows[id].parent != parent :: id in t && t[id] == rows[id])
    && (forall id | id in t && t[id].parent != parent :: id in rows && t[id] == rows[id])
  }

  /** The command did to its parent's list what it does to a plain one, and kept the rest. */
  ghost predicate Refines(rows: Table, parent: Id, op: Op, at: nat, t: Table)
    requires Inv(rows)
  {
    Inv(t) && SameElsewhere(rows, parent, t) && IsOrder(t, parent, Listed(OrderOf(rows, parent), op, at))
  }

  lemma ElsewhereOrder(rows: Table, parent: Id, t: Table, other: Id)
    requires Inv(rows) && Inv(t) && SameElsewhere(rows, parent, t) && other != parent
    ensures OrderOf(t, other) == OrderOf(rows, other)
  {
    var ids := OrderOf(rows, other);
    forall id
      ensures StepOf(t, other, id) <==> StepOf(rows, other, id)
    {
    }
    forall i | 0 <= i < |ids|
      ensures ids[i] in t && t[ids[i]] == rows[ids[i]] && StepOf(t, other, ids[i])
    {
      assert StepOf(rows, other, ids[i]);
    }
    OrderIs(t, other, ids);
  }

  lemma CreateRefines(rows: Table, parent: Id, kind: Kind, id: Id)
    requires Inv(rows) && Create(rows, parent, kind, id).Ok?
    ensures Refines(rows, parent, OpCreate(parent, kind, id), 0, Create(rows, parent, kind, id).value)
  {
    var order, highest := OrderOf(rows, parent), Maximum(rows, LiveChildren(rows, parent));
    var t := Create(rows, parent, kind, id).value;
    FitKeyFits(rows, parent, order, |order|, highest);
    AddedInv(rows, id, t[id]);
    if kind == Step {
      AddedRises(rows, parent, order, |order|, id, t);
      assert Placed(order, |order|, id) == order + [id];
    } else {
      OrderUntouched(rows, parent, order, id, t);
    }
    AddedElsewhere(rows, parent, id, t);
  }

  lemma AddedElsewhere(rows: Table, parent: Id, id: Id, t: Table)
    requires id !in rows && id in t && t == rows[id := t[id]] && t[id].parent == parent
    ensures SameElsewhere(rows, parent, t)
  {
  }

  lemma OrderUntouched(rows: Table, parent: Id, order: seq<Id>, id: Id, t: Table)
    requires IsOrder(rows, parent, order) && id !in rows && id in t && t == rows[id := t[id]] && t[id].kind != Step
    ensures IsOrder(t, parent, order)
  {
    assert forall x :: StepOf(t, parent, x) <==> StepOf(rows, parent, x);
    assert forall i | 0 <= i < |order| :: StepOf(rows, parent, order[i]);
  }

  lemma InsertRefines(rows: Table, parent: Id, place: Place, id: Id, events: nat)
    requires Inv(rows) && Insert(rows, parent, place, id, events).Ok?
    ensures Refines(rows, parent, OpInsert(parent, place, id, events), 0, Insert(rows, parent, place, id, events).value)
  {
    InsertPlaces(rows, parent, place, id, events);
  }

  lemma ReorderRefines(rows: Table, parent: Id, order: seq<Id>)
    requires Inv(rows) && Reorder(rows, parent, order).Ok?
    ensures Refines(rows, parent, OpReorder(parent, order), 0, Reorder(rows, parent, order).value)
  {
    var base, maximum := Maximum(rows, OtherChildren(rows, parent)), Maximum(rows, AllChildren(rows, parent));
    RenumberedExactly(rows, parent, OrderOf(rows, parent), order, base, maximum);
    KeysRefine(rows, parent, order, base, Reorder(rows, parent, order).value);
  }

  lemma KeysRefine(rows: Table, parent: Id, order: seq<Id>, base: int, t: Table)
    requires Inv(rows) && OnlyStepKeys(rows, parent, t) && IsOrder(t, parent, order)
    requires IsMaximum(rows, OtherChildren(rows, parent), base) && base <= MAX - |order| * 1000
    requires forall i | 0 <= i < |order| :: t[order[i]].key == Final(base).Key(i)
    ensures Refines(rows, parent, OpReorder(parent, order), 0, t)
  {
    RenumberedInv(rows, parent, order, base, t);
    assert SameElsewhere(rows, parent, t);
  }

  lemma RemoveKeepsInv(rows: Table, id: Id)
    requires Inv(rows) && id in rows
    ensures Inv(rows[id := rows[id].(live := false)])
  {
    var t := rows[id := rows[id].(live := false)];
    forall a, b
      ensures !Collide(t, a, b)
    {
      assert !Collide(rows, a, b);
    }
  }

  lemma RemoveKeepsOrder(rows: Table, parent: Id, ids: seq<Id>, id: Id)
    requires IsOrder(rows, parent, ids) && StepOf(rows, parent, id)
    ensures IndexOf(ids, id).Some?
    ensures IsOrder(rows[id := rows[id].(live := false)], parent, Listed(ids, OpRemove(id), 0))
  {
    var n := IndexOf(ids, id).value;
    assert ids[n] == id && Listed(ids, OpRemove(id), 0) == Dropped(ids, n);
    DropKeepsOrder(rows, parent, ids, n, rows[id := rows[id].(live := false)]);
  }

  lemma RemoveRefines(rows: Table, id: Id)
    requires Inv(rows) && Remove(rows, id).Ok?
    ensures Refines(rows, rows[id].parent, OpRemove(id), 0, Remove(rows, id).value)
  {
    RemoveKeepsInv(rows, id);
    RemoveKeepsOrder(rows, rows[id].parent, OrderOf(rows, rows[id].parent), id);
  }

  lemma RisingDropped(rows: Table, ids: seq<Id>, n: nat)
    requires Rising(rows, ids) && n < |ids|
    ensures Rising(rows, Dropped(ids, n))
  {
  }

  lemma DroppedMembers(ids: seq<Id>, n: nat)
    requires n < |ids| && forall i, k | 0 <= i < k < |ids| :: ids[i] != ids[k]
    ensures forall x :: x in Dropped(ids, n) <==> x in ids && x != ids[n]
  {
    assert ids == ids[..n] + [ids[n]] + ids[n + 1..];
    assert forall x | x in ids[..n] || x in ids[n + 1..] :: x != ids[n];
  }

  lemma DropKeepsOrder(rows: Table, parent: Id, ids: seq<Id>, n: nat, t: Table)
    requires IsOrder(rows, parent, ids) && n < |ids| && ids[n] in rows
             && t == rows[ids[n] := rows[ids[n]].(live := false)]
    ensures IsOrder(t, parent, Dropped(ids, n))
  {
    var r := Dropped(ids, n);
    RisingDropped(rows, ids, n);
    DroppedMembers(ids, n);
    forall x
      ensures StepOf(t, parent, x) <==> x in r
    {
      assert x in ids <==> StepOf(rows, parent, x);
    }
    forall i | 0 <= i < |r|
      ensures StepOf(t, parent, r[i]) && t[r[i]].key == rows[r[i]].key
    {
      assert r[i] in r;
    }
  }

  lemma ReplaceRefines(rows: Table, id: Id, replacement: Id)
    requires Inv(rows) && Replace(rows, id, replacement).Ok?
    ensures Refines(rows, rows[id].parent, OpReplace(id, replacement), 0, Replace(rows, id, replacement).value)
  {
    var t, parent := Replace(rows, id, replacement).value, rows[id].parent;
    var ids := OrderOf(rows, parent);
    assert StepOf(rows, parent, id);
    forall a, b
      ensures !Collide(t, a, b)
    {
      assert !Collide(rows, a, b) && !Collide(rows, id, b) && !Collide(rows, a, id);
    }
    assert Listed(ids, OpReplace(id, replacement), 0) == ids[IndexOf(ids, id).value := replacement];
    ReplaceKeepsOrder(rows, parent, ids, IndexOf(ids, id).value, replacement, t);
  }

  lemma ReplaceKeepsOrder(rows: Table, parent: Id, ids: seq<Id>, n: nat, replacement: Id, t: Table)
    requires IsOrder(rows, parent, ids) && n < |ids| && ids[n] in rows && replacement !in rows
    requires t == rows[ids[n] := rows[ids[n]].(live := false)][replacement := rows[ids[n]]]
    ensures IsOrder(t, parent, ids[n := replacement])
  {
    var r := ids[n := replacement];
    forall i | 0 <= i < |r|
      ensures StepOf(t, parent, r[i]) && t[r[i]].key == rows[ids[i]].key
    {
      assert StepOf(rows, parent, ids[i]) && StepOf(rows, parent, ids[n]);
    }
    forall x | StepOf(t, parent, x)
      ensures x in r
    {
      if x == replacement {
        assert r[n] == x;
      } else {
        assert StepOf(rows, parent, x) && x != ids[n];
        var i :| 0 <= i < |ids| && ids[i] == x;
        assert r[i] == x;
      }
    }
  }

  /** The place of a legacy create among the Steps of its parent. */
  ghost function PlaceOf(s: Tables, op: Op): nat
    requires Inv(s.rows)
  {
    if op.OpLegacy? then
      Rank(s.rows, OrderOf(s.rows, op.parent), Maximum(s.steps, AllChildren(s.steps, op.parent)) + 1000)
    else 0
  }

  /** The new Step stands where its key puts it, last exactly when no live Step's is larger. */
  lemma LegacyRefines(s: Tables, parent: Id, id: Id)
    requires Inv(s.rows) && CreateLegacy(s, parent, id).Ok?
    ensures Refines(s.rows, parent, OpLegacy(parent, id), PlaceOf(s, OpLegacy(parent, id)),
                    CreateLegacy(s, parent, id).value.rows)
  {
    var rows, order, t := s.rows, OrderOf(s.rows, parent), CreateLegacy(s, parent, id).value.rows;
    var at := Rank(rows, order, t[id].key);
    AddedInv(rows, id, t[id]);
    if at < |order| {
      assert StepOf(rows, parent, order[at]) && rows[order[at]].key != t[id].key;
    }
    AddedRises(rows, parent, order, at, id, t);
  }

  lemma ApplyLands(s: Tables, op: Op)
    requires Inv(s.rows) && Apply(s, op).Ok?
    ensures Refines(s.rows, ParentOf(s.rows, op), op, PlaceOf(s, op), Apply(s, op).value.rows)
  {
    match op
    case OpCreate(p, kind, id) => CreateRefines(s.rows, p, kind, id);
    case OpLegacy(p, id) => LegacyRefines(s, p, id);
    case OpInsert(p, place, id, events) => InsertRefines(s.rows, p, place, id, events);
    case OpReorder(p, order) => ReorderRefines(s.rows, p, order);
    case OpReplace(id, replacement) => ReplaceRefines(s.rows, id, replacement);
    case OpRemove(id) => RemoveRefines(s.rows, id);
  }

  /** Every committed command does to the ordered Steps of its parent what it does to
      a plain list, leaves every other parent's alone, and keeps the invariant. */
  lemma ApplyRefines(s: Tables, op: Op, parent: Id)
    requires Inv(s.rows) && Apply(s, op).Ok?
    ensures var t := Apply(s, op).value;
            && Inv(t.rows)
            && OrderOf(t.rows, parent)
               == if parent == ParentOf(s.rows, op) then Listed(OrderOf(s.rows, parent), op, PlaceOf(s, op))
                  else OrderOf(s.rows, parent)
  {
    ApplyLands(s, op);
    var t, own := Apply(s, op).value.rows, ParentOf(s.rows, op);
    if parent == own {
      OrderIs(t, own, Listed(OrderOf(s.rows, own), op, PlaceOf(s, op)));
    } else {
      ElsewhereOrder(s.rows, own, t, parent);
    }
  }

  // ---------------------------------------------------------------- runs

  /** One command; a refused one leaves everything as it was. */
  ghost function Performed(s: Tables, op: Op): (t: Tables)
    requires Inv(s.rows)
    ensures Inv(t.rows)
  {
    match Apply(s, op)
    case Err(_) => s
    case Ok(t) =>
      ApplyRefines(s, op, "");
      t
  }

  /** Any sequence of commands, from the empty tables: in every run live siblings of
      one kind have distinct keys, all positive and within int64. */
  ghost function Run(ops: seq<Op>): (s: Tables)
    ensures Inv(s.rows)
  {
    if ops == [] then Tables(map[], map[]) else Performed(Run(ops[..|ops| - 1]), ops[|ops| - 1])
  }

  ghost predicate Reached(rows: Table) {
    exists ops :: Run(ops).rows == rows
  }

  lemma RunOnward(ops: seq<Op>, op: Op)
    ensures Run(ops + [op]) == Performed(Run(ops), op)
  {
    assert (ops + [op])[..|ops|] == ops;
  }

  lemma ReachedOnward(rows: Table, op: Op, t: Table)
    requires Reached(rows) && Inv(rows)
    requires forall steps :: Apply(Tables(rows, steps), op) == Ok(Tables(t, steps))
    ensures Reached(t)
  {
    var ops :| Run(ops).rows == rows;
    var s := Run(ops);
    assert s == Tables(rows, s.steps);
    RunOnward(ops, op);
    assert Run(ops + [op]).rows == t;
  }

  lemma EmptyReached()
    ensures Reached(map[])
  {
    assert Run([]).rows == map[];
  }

  lemma StageFirst(p: Id, x: Id)
    ensures Run([OpCreate(p, Stage, x)]) == Tables(map[x := Row(Stage, p, 1000, true)], map[])
  {
    var none: Table := map[];
    assert IsMaximum(none, LiveChildren(none, p), 0);
    CreateIs(none, p, Stage, x, 0);
    RunOnward([], OpCreate(p, Stage, x));
    assert [] + [OpCreate(p, Stage, x)] == [OpCreate(p, Stage, x)];
  }

  /** Keys of different kinds can meet: after a Stage, step.create v1 takes the Stage's key. */
  lemma LegacySharesKey(p: Id, x: Id, a: Id)
    requires x != a
    ensures var s := Run([OpCreate(p, Stage, x)]);
            Apply(s, OpLegacy(p, a)) == Ok(Run([OpCreate(p, Stage, x), OpLegacy(p, a)]))
    ensures var rows := Run([OpCreate(p, Stage, x), OpLegacy(p, a)]).rows;
            && Sibling(rows, p, x) && Sibling(rows, p, a) && rows[x].kind != rows[a].kind
            && rows[x].key == rows[a].key == 1000
  {
    StageFirst(p, x);
    RunOnward([OpCreate(p, Stage, x)], OpLegacy(p, a));
    assert [OpCreate(p, Stage, x)] + [OpLegacy(p, a)] == [OpCreate(p, Stage, x), OpLegacy(p, a)];
    var none: Table := map[];
    MaximumUnique(none, AllChildren(none, p), 0);
  }

  // ---------------------------------------------------------------- a run into the unique index

  /** A new row behind all live ones takes the next thousand. */
  lemma CreateIs(rows: Table, parent: Id, kind: Kind, id: Id, highest: int)
    requires Inv(rows) && id !in rows && IsMaximum(rows, LiveChildren(rows, parent), highest) && highest <= MAX - 1000
    ensures Create(rows, parent, kind, id) == Ok(rows[id := Row(kind, parent, highest + 1000, true)])
  {
    MaximumUnique(rows, LiveChildren(rows, parent), highest);
    forall x | x in rows && Sibling(rows, parent, x)
      ensures rows[x].key <= highest
    {
      assert x in LiveChildren(rows, parent);
    }
  }

  /** A Stage x at 1000 and live Steps: the first at 2000, the last but one at r, the
      last at 3000. */
  ghost predicate Halving(rows: Table, order: seq<Id>, x: Id, r: int) {
    && Inv(rows) && IsOrder(rows, "p", order) && |order| >= 2
    && rows[order[0]].key == 2000 && rows[order[|order| - 2]].key == r && rows[order[|order| - 1]].key == 3000
    && x in rows && rows[x] == Row(Stage, "p", 1000, true) && forall id | id in rows :: id == x || id in order
  }

  lemma IndexIs(ids: seq<Id>, at: nat)
    requires at < |ids| && forall i, k | 0 <= i < k < |ids| :: ids[i] != ids[k]
    ensures IndexOf(ids, ids[at]) == Some(at)
  {
    assert ids[at] in ids;
    var i := IndexOf(ids, ids[at]).value;
    assert ids[i] == ids[at];
  }

  lemma HalvingBounds(rows: Table, order: seq<Id>, x: Id, r: int, id: Id)
    requires Halving(rows, order, x, r) && id in rows
    ensures rows[id].key == 1000 || rows[id].key == 3000 || 2000 <= rows[id].key <= r
  {
    if id != x {
      var i :| 0 <= i < |order| && order[i] == id;
      assert i < |order| - 2 ==> rows[order[i]].key < rows[order[|order| - 2]].key;
      assert 0 < i ==> rows[order[0]].key < rows[order[i]].key;
    }
  }

  lemma HalvingFree(rows: Table, order: seq<Id>, x: Id, r: int, m: int)
    requires Halving(rows, order, x, r) && 2000 <= r < m < 3000
    ensures Free(rows, "p", m)
  {
    forall y | y in rows && Sibling(rows, "p", y)
      ensures rows[y].key != m
    {
      HalvingBounds(rows, order, x, r, y);
    }
  }

  lemma HalfFits(rows: Table, order: seq<Id>, r: int, id: Id, m: int)
    requires Inv(rows) && IsOrder(rows, "p", order) && |order| >= 2 && id !in rows
    requires rows[order[|order| - 2]].key == r && rows[order[|order| - 1]].key == 3000
    requires 0 <= r < 2999 && m == r + (3000 - r) / 2
    requires Free(rows, "p", m) && !Taken(rows, id, Row(Step, "p", m, true))
    ensures Insert(rows, "p", Before(order[|order| - 1]), id, 1) == Ok(rows[id := Row(Step, "p", m, true)])
  {
    OrderIs(rows, "p", order);
    IndexIs(order, |order| - 1);
    InsertFits(rows, "p", order, |order| - 1, id, m);
  }

  lemma HalfLands(rows: Table, order: seq<Id>, x: Id, r: int, id: Id, m: int)
    requires Halving(rows, order, x, r) && id !in rows && 2000 <= r < m < 3000
    ensures Free(rows, "p", m) && !Taken(rows, id, Row(Step, "p", m, true))
    ensures var t := rows[id := Row(Step, "p", m, true)]; Inv(t) && IsOrder(t, "p", Placed(order, |order| - 1, id))
  {
    HalvingFree(rows, order, x, r, m);
    AddedLands(rows, "p", order, |order| - 1, id, m);
  }

  /** An insert that finds a free midpoint adds one row and nothing else. */
  lemma InsertFits(rows: Table, parent: Id, order: seq<Id>, at: nat, id: Id, key: int)
    requires Inv(rows) && order == OrderOf(rows, parent) && at < |order| && id !in rows
    requires Slot(order, Before(order[at])) == Some(at)
    requires Midpoint(if at == 0 then 0 else rows[order[at - 1]].key, rows[order[at]].key) == Some(key)
    requires Free(rows, parent, key) && !Taken(rows, id, Row(Step, parent, key, true))
    ensures Insert(rows, parent, Before(order[at]), id, 1) == Ok(rows[id := Row(Step, parent, key, true)])
  {
  }

  lemma HalvingKept(rows: Table, order: seq<Id>, x: Id, r: int, id: Id, m: int)
    requires Halving(rows, order, x, r) && id !in rows
    requires var t := rows[id := Row(Step, "p", m, true)]; Inv(t) && IsOrder(t, "p", Placed(order, |order| - 1, id))
    ensures Halving(rows[id := Row(Step, "p", m, true)], Placed(order, |order| - 1, id), x, m)
  {
    PlacedMembers(order, |order| - 1, id);
    assert StepOf(rows, "p", order[0]) && StepOf(rows, "p", order[|order| - 1]);
  }

  lemma InsertReaches(rows: Table, place: Place, id: Id, t: Table)
    requires Reached(rows) && Inv(rows) && Insert(rows, "p", place, id, 1) == Ok(t)
    ensures Reached(t)
  {
    ReachedOnward(rows, OpInsert("p", place, id, 1), t);
  }

  lemma RemoveReaches(rows: Table, id: Id, t: Table)
    requires Reached(rows) && Inv(rows) && Remove(rows, id) == Ok(t)
    ensures Reached(t)
  {
    ReachedOnward(rows, OpRemove(id), t);
  }

  lemma HalfReaches(rows: Table, order: seq<Id>, r: int, id: Id, m: int, t: Table)
    requires Reached(rows) && Inv(rows) && IsOrder(rows, "p", order) && |order| >= 2 && id !in rows
    requires rows[order[|order| - 2]].key == r && rows[order[|order| - 1]].key == 3000
    requires 0 <= r < 2999 && m == r + (3000 - r) / 2 && t == rows[id := Row(Step, "p", m, true)]
    requires Free(rows, "p", m) && !Taken(rows, id, Row(Step, "p", m, true))
    ensures Reached(t)
  {
    HalfFits(rows, order, r, id, m);
    InsertReaches(rows, Before(order[|order| - 1]), id, t);
  }

  /** Inserting before the last Step halves the gap once more. */
  lemma HalvingStep(rows: Table, order: seq<Id>, x: Id, r: int, id: Id, m: int) returns (t: Table, after: seq<Id>)
    requires Reached(rows) && Halving(rows, order, x, r) && id !in rows && 2000 <= r < 2999 && m == r + (3000 - r) / 2
    ensures Reached(t) && Halving(t, after, x, m) && t.Keys == rows.Keys + {id}
    ensures |after| == |order| + 1 && after[0] == order[0]
  {
    t, after := rows[id := Row(Step, "p", m, true)], Placed(order, |order| - 1, id);
    HalfLands(rows, order, x, r, id, m);
    HalfReaches(rows, order, r, id, m, t);
    HalvingKept(rows, order, x, r, id, m);
  }

  /** Each key halves the gap between the one before it and 3000. */
  ghost predicate Halves(r: int, keys: seq<int>)
    decreases |keys|
  {
    keys == [] || (2000 <= r < 2999 && keys[0] == r + (3000 - r) / 2 && Halves(keys[0], keys[1..]))
  }

  lemma {:induction false} HalvingRun(rows: Table, order: seq<Id>, x: Id, r: int, ids: seq<Id>, keys: seq<int>)
    returns (t: Table, after: seq<Id>)
    requires Reached(rows) && Halving(rows, order, x, r) && |ids| == |keys| && Halves(r, keys)
    requires (forall i | 0 <= i < |ids| :: ids[i] !in rows) && forall i, j | 0 <= i < j < |ids| :: ids[i] != ids[j]
    ensures Reached(t) && Halving(t, after, x, if keys == [] then r else keys[|keys| - 1])
    ensures |after| == |order| + |ids| && after[0] == order[0] && forall id | id in t :: id in rows || id in ids
    decreases |ids|
  {
    t, after := rows, order;
    if ids != [] {
      var u, placed := HalvingStep(rows, order, x, r, ids[0], keys[0]);
      TailFresh(rows, ids);
      t, after := HalvingRun(u, placed, x, keys[0], ids[1..], keys[1..]);
    }
  }

  lemma TailFresh(rows: Table, ids: seq<Id>)
    requires ids != [] && forall i | 0 <= i < |ids| :: ids[i] !in rows
    requires forall i, j | 0 <= i < j < |ids| :: ids[i] != ids[j]
    ensures forall i | 0 <= i < |ids[1..]| :: ids[1..][i] !in rows && ids[1..][i] != ids[0]
    ensures forall i, j | 0 <= i < j < |ids[1..]| :: ids[1..][i] != ids[1..][j]
  {
  }

  lemma SevenHalves(keys: seq<int>)
    requires keys == [2500, 2750, 2875, 2937, 2968, 2984, 2992]
    ensures Halves(2000, keys)
  {
    var k := keys;
    assert k[6..] == [2992] && k[6..][1..] == [] && Halves(2984, k[6..]);
    assert k[5..][1..] == k[6..] && k[5..][0] == 2984 && Halves(2968, k[5..]);
    assert k[4..][1..] == k[5..] && k[4..][0] == 2968 && Halves(2937, k[4..]);
    assert k[3..][1..] == k[4..] && k[3..][0] == 2937 && Halves(2875, k[3..]);
    assert k[2..][1..] == k[3..] && k[2..][0] == 2875 && Halves(2750, k[2..]);
    assert k[1..][1..] == k[2..] && k[1..][0] == 2750 && Halves(2500, k[1..]);
  }

  /** Creating under a parent whose live children's highest key is known. */
  lemma CreateReaches(rows: Table, kind: Kind, id: Id, highest: int)
    requires Reached(rows) && Inv(rows) && id !in rows && IsMaximum(rows, LiveChildren(rows, "p"), highest)
             && highest <= 3000
    ensures var t := rows[id := Row(kind, "p", highest + 1000, true)];
            Reached(t) && Inv(t) && IsMaximum(t, LiveChildren(t, "p"), highest + 1000)
  {
    var t := rows[id := Row(kind, "p", highest + 1000, true)];
    CreateIs(rows, "p", kind, id, highest);
    ReachedOnward(rows, OpCreate("p", kind, id), t);
    CreateRefines(rows, "p", kind, id);
    assert id in LiveChildren(t, "p");
    forall y | y in LiveChildren(t, "p")
      ensures t[y].key <= highest + 1000
    {
      assert y != id ==> y in LiveChildren(rows, "p");
    }
  }

  /** A Stage and two Steps. */
  lemma HalvingStart(x: Id, a: Id, b: Id) returns (t: Table)
    requires x != a && x != b && a != b
    ensures Reached(t) && Halving(t, [a, b], x, 2000) && t.Keys == {x, a, b}
  {
    t := map[];
    EmptyReached();
    assert IsMaximum(t, LiveChildren(t, "p"), 0);
    CreateReaches(t, Stage, x, 0);
    t := t[x := Row(Stage, "p", 1000, true)];
    CreateReaches(t, Step, a, 1000);
    t := t[a := Row(Step, "p", 2000, true)];
    CreateReaches(t, Step, b, 2000);
    t := t[b := Row(Step, "p", 3000, true)];
    HalvingHolds(t, x, a, b);
  }

  lemma HalvingHolds(t: Table, x: Id, a: Id, b: Id)
    requires x != a && x != b && a != b && Inv(t)
    requires t == map[x := Row(Stage, "p", 1000, true), a := Row(Step, "p", 2000, true),
                      b := Row(Step, "p", 3000, true)]
    ensures Halving(t, [a, b], x, 2000)
  {
    assert IsOrder(t, "p", [a, b]);
  }

  /** The Stage x at 1000 and the Steps of rest, the first at 2000, the highest live key
      2992, and no key past 3000. */
  ghost predicate Halved(rows: Table, rest: seq<Id>, x: Id) {
    && Inv(rows) && IsOrder(rows, "p", rest) && |rest| >= 2 && rows[rest[0]].key == 2000
    && x in rows && rows[x] == Row(Stage, "p", 1000, true) && IsMaximum(rows, LiveChildren(rows, "p"), 2992)
    && (forall id | id in rows :: rows[id].key <= 3000 && (id != x ==> rows[id].kind == Step))
  }

  /** The last Step goes. */
  lemma HalvingDrops(rows: Table, order: seq<Id>, x: Id) returns (u: Table, rest: seq<Id>)
    requires Reached(rows) && Halving(rows, order, x, 2992) && |order| >= 3
    ensures Reached(u) && Halved(u, rest, x) && |rest| == |order| - 1 && rest[0] == order[0] && u.Keys == rows.Keys
  {
    var last := |order| - 1;
    var b := order[last];
    assert StepOf(rows, "p", b);
    u, rest := rows[b := rows[b].(live := false)], Dropped(order, last);
    RemoveKeepsInv(rows, b);
    RemoveReaches(rows, b, u);
    DropKeepsOrder(rows, "p", order, last, u);
    HalvingHighest(rows, order, x, u);
    forall id | id in rows
      ensures rows[id].key <= 3000 && (id != x ==> rows[id].kind == Step)
    {
      HalvingBounds(rows, order, x, 2992, id);
      assert id != x ==> StepOf(rows, "p", id);
    }
  }

  lemma HalvingHighest(rows: Table, order: seq<Id>, x: Id, u: Table)
    requires Halving(rows, order, x, 2992) && |order| >= 3 && order[|order| - 1] in rows
    requires u == rows[order[|order| - 1] := rows[order[|order| - 1]].(live := false)]
    ensures IsMaximum(u, LiveChildren(u, "p"), 2992)
  {
    var b, top := order[|order| - 1], order[|order| - 2];
    assert StepOf(rows, "p", top) && StepOf(rows, "p", b) && top in LiveChildren(u, "p") && u[top].key == 2992;
    forall id | id in LiveChildren(u, "p")
      ensures u[id].key <= 2992
    {
      HalvingBounds(rows, order, x, 2992, id);
      assert !Collide(rows, id, b);
    }
  }

  /** And a new one is created behind the rest. */
  lemma HalvedGrows(u: Table, rest: seq<Id>, x: Id, n: Id) returns (t: Table, after: seq<Id>)
    requires Reached(u) && Halved(u, rest, x) && n !in u
    ensures Reached(t) && Inv(t) && IsOrder(t, "p", after) && |after| == |rest| + 1 && after[0] == rest[0]
    ensures t[after[0]].key == 2000 && x in t && t[x] == Row(Stage, "p", 1000, true)
    ensures IsMaximum(t, AllChildren(t, "p"), 3992) && IsMaximum(t, OtherChildren(t, "p"), 1000)
  {
    t, after := u[n := Row(Step, "p", 3992, true)], rest + [n];
    CreateReaches(u, Step, n, 2992);
    CreateIs(u, "p", Step, n, 2992);
    CreateRefines(u, "p", Step, n);
    OrderIs(u, "p", rest);
    assert StepOf(u, "p", rest[0]);
    assert n in AllChildren(t, "p") && x in OtherChildren(t, "p");
  }

  lemma HalvedSeven(x: Id, a: Id, b: Id, ids: seq<Id>) returns (rows: Table, order: seq<Id>)
    requires x != a && x != b && a != b && |ids| == 7 && forall i, j | 0 <= i < j < |ids| :: ids[i] != ids[j]
    requires forall i | 0 <= i < |ids| :: ids[i] !in {x, a, b}
    ensures Reached(rows) && Halving(rows, order, x, 2992) && |order| == 9 && order[0] == a
    ensures forall id | id in rows :: id in {x, a, b} || id in ids
  {
    var start := HalvingStart(x, a, b);
    var keys := [2500, 2750, 2875, 2937, 2968, 2984, 2992];
    SevenHalves(keys);
    rows, order := HalvingRun(start, [a, b], x, 2000, ids, keys);
  }

  /** The unique index refuses inserts in states that runs reach: with a Stage at 1000
      and nine Steps, the first at 2000 and the last at 3992, an insert before the
      first finds 1000 taken, renumbers from 1000, and the third Step's final key 4000
      meets the eighth Step waiting at 3992 + 8. */
  lemma RenumberingCanClash(x: Id, a: Id, b: Id, ids: seq<Id>, n: Id, z: Id)
    requires x != a && x != b && x != n && a != b && a != n && b != n && |ids| == 7
    requires forall i, j | 0 <= i < j < |ids| :: ids[i] != ids[j]
    requires forall i | 0 <= i < |ids| :: ids[i] !in {x, a, b, n}
    ensures exists t :: Reached(t) && Inv(t) && Insert(t, "p", Before(a), z, 2) == Err(ErrUniqueIndex)
  {
    var rows, order := HalvedSeven(x, a, b, ids);
    var u, rest := HalvingDrops(rows, order, x);
    var t, after := HalvedGrows(u, rest, x, n);
    ClashAtEnd(t, after, x, z);
  }

  lemma ClashAtEnd(t: Table, after: seq<Id>, x: Id, z: Id)
    requires Inv(t) && IsOrder(t, "p", after) && |after| == 9 && t[after[0]].key == 2000
    requires x in t && t[x] == Row(Stage, "p", 1000, true)
    requires IsMaximum(t, AllChildren(t, "p"), 3992) && IsMaximum(t, OtherChildren(t, "p"), 1000)
    ensures Insert(t, "p", Before(after[0]), z, 2) == Err(ErrUniqueIndex)
  {
    OrderIs(t, "p", after);
    MaximumUnique(t, AllChildren(t, "p"), 3992);
    MaximumUnique(t, OtherChildren(t, "p"), 1000);
    IndexIs(after, 0);
    assert Sibling(t, "p", x) && !Free(t, "p", 1000);
    assert after[7] == after[7] && Temporary(3992).Key(7) == Final(1000).Key(2);
    assert ClashAt(after, after, 1000, 3992, 2);
    InsertUniqueFailure(t, "p", Before(after[0]), z, 2);
  }

  // ---------------------------------------------------------------- the table in place

  /** A command's outcome: the new table, or the error with the table rolled back. */
  ghost predicate Outcome<T>(spec: Result<T>, before: T, after: T, failure: Option<Error>) {
    match spec
    case Ok(t) => after == t && failure.None?
    case Err(e) => after == before && failure == Some(e)
  }

  /** One pass of row updates. */
  method UpdateRows(rows: Table, ids: seq<Id>, pass: Pass) returns (r: Result<Table>)
    requires forall i | 0 <= i < |ids| :: ids[i] in rows
    ensures r == Updated(rows, ids, pass, |ids|)
    ensures r.Ok? ==> r.value.Keys == rows.Keys
  {
    var t := rows;
    for i := 0 to |ids|
      invariant Updated(rows, ids, pass, i) == Ok(t) && t.Keys == rows.Keys
    {
      var next := Put(t, ids[i], t[ids[i]].(key := pass.Key(i)));
      if next.Err? {
        UpdatedStops(rows, ids, pass, i + 1, |ids|);
        return next;
      }
      t := next.value;
    }
    r := Ok(t);
  }

  lemma {:induction false} UpdatedStops(rows: Table, ids: seq<Id>, pass: Pass, m: nat, n: nat)
    requires m <= n <= |ids| && Updated(rows, ids, pass, m).Err?
    ensures Updated(rows, ids, pass, n) == Updated(rows, ids, pass, m)
  {
    if m < n {
      UpdatedStops(rows, ids, pass, m, n - 1);
    }
  }

  method Renumber(rows: Table, current: seq<Id>, order: seq<Id>, base: int, maximum: int) returns (r: Result<Table>)
    requires forall i | 0 <= i < |current| :: current[i] in rows
    requires forall i | 0 <= i < |order| :: order[i] in rows
    ensures r == Renumbered(rows, current, order, base, maximum)
  {
    if base > MAX - |order| * 1000 || maximum > MAX - |current| - 1 {
      return Err(ErrResourceLimit);
    }
    var moved := UpdateRows(rows, current, Temporary(maximum));
    if moved.Err? {
      return moved;
    }
    r := UpdateRows(moved.value, order, Final(base));
  }

  /** readM6StepOrder's test: as many names as live Steps, each known and struck off. */
  method NamesEveryStep(rows: Table, parent: Id, current: seq<Id>, order: seq<Id>) returns (ok: bool)
    requires Lists(rows, parent, current)
    ensures ok <==> order != [] && Lists(rows, parent, order)
  {
    if |order| == 0 || |order| != |current| {
      SameLength(rows, parent, current, order);
      return false;
    }
    var known := set id | id in current;
    ghost var all := known;
    SetSize(current);
    for i := 0 to |order|
      invariant forall k | 0 <= k < i :: order[k] in current && order[k] !in known
      invariant forall k, l | 0 <= k < l < i :: order[k] != order[l]
      invariant forall id | id in current :: id in known || id in order[..i]
      invariant known <= all && |known| == |current| - i
    {
      if order[i] !in known {
        assert order[i] !in current || order[i] in order[..i];
        NotListed(rows, parent, current, order, i);
        return false;
      }
      known := known - {order[i]};
      assert order[..i + 1] == order[..i] + [order[i]];
    }
    assert known == {};
    assert order[..|order|] == order;
    forall k | 0 <= k < |order|
      ensures StepOf(rows, parent, order[k])
    {
      var i :| 0 <= i < |current| && current[i] == order[k];
    }
    ok := true;
  }

  lemma SameLength(rows: Table, parent: Id, current: seq<Id>, order: seq<Id>)
    requires Lists(rows, parent, current)
    ensures Lists(rows, parent, order) ==> |order| == |current|
  {
    if Lists(rows, parent, order) {
      SetSize(current);
      SetSize(order);
      assert forall id | id in order :: StepOf(rows, parent, id);
      assert (set id | id in order) == (set id | id in current);
    }
  }

  lemma NotListed(rows: Table, parent: Id, current: seq<Id>, order: seq<Id>, i: nat)
    requires Lists(rows, parent, current) && i < |order| && (order[i] !in current || order[i] in order[..i])
    ensures !Lists(rows, parent, order)
  {
    if order[i] !in current {
      assert !StepOf(rows, parent, order[i]);
    } else {
      var k :| 0 <= k < i && order[..i][k] == order[i];
      assert order[k] == order[i];
    }
  }

  lemma {:induction false} SetSize(ids: seq<Id>)
    requires forall i, k | 0 <= i < k < |ids| :: ids[i] != ids[k]
    ensures |set id | id in ids| == |ids|
  {
    if ids != [] {
      var n := |ids| - 1;
      SetSize(ids[..n]);
      assert ids == ids[..n] + [ids[n]];
      assert (set id | id in ids) == (set id | id in ids[..n]) + {ids[n]};
    }
  }

  class StepTable {
    var rows: Table
    var steps: Table

    constructor ()
      ensures rows == map[] && steps == map[] && Inv(rows)
    {
      rows, steps := map[], map[];
    }

    method CreateLegacyStep(parent: Id, id: Id) returns (failure: Option<Error>)
      requires Inv(rows)
      modifies this
      ensures Outcome(CreateLegacy(old(Tables(rows, steps)), parent, id), old(Tables(rows, steps)),
                      Tables(rows, steps), failure)
    {
      var highest := QueryMaximum(steps, AllChildren(steps, parent));
      if highest > MAX - 1000 {
        return Some(ErrResourceLimit);
      }
      var row := Row(Step, parent, highest + 1000, true);
      if id in rows {
        return Some(ErrExists);
      }
      if Taken(rows, id, row) {
        return Some(ErrUniqueIndex);
      }
      rows, steps := rows[id := row], steps[id := row];
      failure := None;
    }

    method CreateNode(parent: Id, kind: Kind, id: Id) returns (failure: Option<Error>)
      requires Inv(rows)
      modifies this`rows
      ensures Outcome(Create(old(rows), parent, kind, id), old(rows), rows, failure)
    {
      var highest := QueryMaximum(rows, LiveChildren(rows, parent));
      var key := NextKey(highest);
      if key.None? {
        return Some(ErrResourceLimit);
      }
      failure := Commit(Added(rows, id, Row(kind, parent, key.value, true)));
    }

    method Commit(r: Result<Table>) returns (failure: Option<Error>)
      modifies this`rows
      ensures Outcome(r, old(rows), rows, failure)
    {
      if r.Err? {
        return Some(r.error);
      }
      rows := r.value;
      failure := None;
    }

    method InsertStep(parent: Id, place: Place, id: Id, events: nat) returns (failure: Option<Error>)
      requires Inv(rows)
      modifies this`rows
      ensures Outcome(Insert(old(rows), parent, place, id, events), old(rows), rows, failure)
    {
      var order := QueryOrder(rows, parent);
      OrderIs(rows, parent, order);
      var slot := Slot(order, place);
      if slot.None? {
        return Some(ErrRejected);
      }
      var highest := QueryMaximum(rows, LiveChildren(rows, parent));
      var base := QueryMaximum(rows, OtherChildren(rows, parent));
      var maximum := QueryMaximum(rows, AllChildren(rows, parent));
      var r := InsertAt(rows, parent, order, slot.value, id, events, highest, base, maximum);
      failure := Commit(r);
    }

    method ReorderSteps(parent: Id, order: seq<Id>) returns (failure: Option<Error>)
      requires Inv(rows)
      modifies this`rows
      ensures Outcome(Reorder(old(rows), parent, order), old(rows), rows, failure)
    {
      var current := QueryOrder(rows, parent);
      OrderIs(rows, parent, current);
      var complete := NamesEveryStep(rows, parent, current, order);
      if !complete {
        return Some(ErrRejected);
      }
      var base := QueryMaximum(rows, OtherChildren(rows, parent));
      var maximum := QueryMaximum(rows, AllChildren(rows, parent));
      var r := Renumber(rows, current, order, base, maximum);
      failure := Commit(r);
    }

    method ReplaceStep(id: Id, replacement: Id) returns (failure: Option<Error>)
      requires Inv(rows)
      modifies this`rows
      ensures Outcome(Replace(old(rows), id, replacement), old(rows), rows, failure)
    {
      if id !in rows || !rows[id].live || rows[id].kind != Step {
        return Some(ErrNotFound);
      }
      var former := rows[id];
      var without := rows[id := former.(live := false)];
      if replacement in without {
        return Some(ErrExists);
      }
      failure := Commit(Put(without, replacement, former));
    }

    method RemoveStep(id: Id) returns (failure: Option<Error>)
      requires Inv(rows)
      modifies this`rows
      ensures Outcome(Remove(old(rows), id), old(rows), rows, failure)
    {
      if id !in rows || !rows[id].live || rows[id].kind != Step {
        return Some(ErrNotFound);
      }
      rows := rows[id := rows[id].(live := false)];
      failure := None;
    }
  }

  method InsertAt(rows: Table, parent: Id, order: seq<Id>, at: nat, id: Id, events: nat, highest: int, base: int,
                  maximum: int)
    returns (r: Result<Table>)
    requires at <= |order| && forall i | 0 <= i < |order| :: order[i] in rows
    ensures r == Inserted(rows, parent, order, at, id, events, highest, base, maximum)
  {
    var key := FitKey(rows, order, at, highest);
    if at == |order| && key.None? {
      return Err(ErrResourceLimit);
    }
    if key.Some? && Free(rows, parent, key.value) {
      return if events == 0 then Err(ErrInvalidProof) else Added(rows, id, Row(Step, parent, key.value, true));
    }
    if events != 2 {
      return Err(ErrInvalidProof);
    }
    var renumbered := Renumber(rows, order, order, base, maximum);
    if renumbered.Err? {
      return renumbered;
    }
    if base > MAX - (|order| + 2) * 1000 {
      return Err(ErrResourceLimit);
    }
    r := Added(renumbered.value, id, Row(Step, parent, base + at * 1000 + 500, true));
  }
}
