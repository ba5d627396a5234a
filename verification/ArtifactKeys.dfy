/** Authority artifact keys: registration, fencing and rotation by generation, the
    hash chain each generation signs, and the two checks that read it all on reopen. */
module ArtifactKeys {
  import opened Common

  datatype Slot = Slot(epoch: nat, generation: nat)

  datatype Mark = Mark(slot: Slot, sequence: nat)

  /** The owner-signed key certificate; signatures are taken as verified. */
  datatype Certificate = Certificate(slot: Slot, key: Id, start: nat, end: nat) {
    predicate Covers(at: nat) {
      start < end && start <= at < end
    }
  }

  /** The owner-signed fence: the head the generation ends with. */
  datatype Fence = Fence(slot: Slot, key: Id, sequence: nat, digest: Option<Digest>)

  datatype Key = Key(certificate: Certificate, fence: Option<Fence>)

  datatype Wrapper = Wrapper(mark: Mark, key: Id, predecessor: Option<Digest>, issued: nat, payload: Id)

  /** The artifact digest as a collision-free function of the wrapper. */
  datatype Digest = DigestOf(wrapper: Wrapper)

  datatype Artifact = Artifact(digest: Digest, predecessor: Option<Digest>, wrapper: Wrapper)

  type Keys = map<Slot, Key>
  type Artifacts = map<Mark, Artifact>

  datatype Store = Store(active: nat, keys: Keys, artifacts: Artifacts)

  // ---------------------------------------------------------------- the largest row

  ghost predicate IsHighest(ns: set<nat>, n: nat) {
    (n == 0 || n in ns) && forall k | k in ns :: k <= n
  }

  lemma {:induction false} HighestExists(ns: set<nat>)
    ensures exists n: nat :: IsHighest(ns, n)
  {
    if ns == {} {
      assert IsHighest(ns, 0);
    } else {
      var k :| k in ns;
      HighestExists(ns - {k});
      var n: nat :| IsHighest(ns - {k}, n);
      assert forall x | x in ns :: x == k || x in ns - {k};
      assert IsHighest(ns, if k > n then k else n);
    }
  }

  /** ORDER BY ... DESC LIMIT 1, 0 when there is no row. */
  ghost function Highest(ns: set<nat>): (n: nat)
    ensures IsHighest(ns, n)
  {
    HighestExists(ns);
    var n: nat :| IsHighest(ns, n);
    n
  }

  method FindHighest(ns: set<nat>) returns (n: nat)
    ensures n == Highest(ns)
  {
    n := 0;
    var left := ns;
    while left != {}
      invariant left <= ns && IsHighest(ns - left, n)
      decreases |left|
    {
      var k :| k in left;
      if k > n {
        n := k;
      }
      assert ns - (left - {k}) == (ns - left) + {k};
      left := left - {k};
    }
    assert ns - left == ns;
    assert IsHighest(ns, Highest(ns));
  }

  function Generations(keys: Keys, epoch: nat): set<nat> {
    set s | s in keys && s.epoch == epoch :: s.generation
  }

  function Sequences(artifacts: Artifacts, slot: Slot): set<nat> {
    set m | m in artifacts && m.slot == slot :: m.sequence
  }

  /** The generation in use, and the last sequence of a generation. */
  ghost function Current(s: Store): Slot {
    Slot(s.active, Highest(Generations(s.keys, s.active)))
  }

  ghost function Last(artifacts: Artifacts, slot: Slot): nat {
    Highest(Sequences(artifacts, slot))
  }

  function DigestAt(artifacts: Artifacts, m: Mark): Option<Digest> {
    if m in artifacts then Some(artifacts[m].digest) else None
  }

  // ---------------------------------------------------------------- the operations

  ghost function Register(s: Store, c: Certificate, at: nat, retry: bool): Result<Store> {
    var current := Current(s);
    if c.slot.epoch != s.active || c.slot.generation == 0 || !c.Covers(at) then Err(ErrInvalidProof)
    else if current in s.keys && c.slot == current then
      if s.keys[current] == Key(c, None) then (if retry then Ok(s) else Err(ErrExists)) else Err(ErrFenced)
    else if c.slot.generation != current.generation + 1 || (current in s.keys && s.keys[current].fence.None?) then
      Err(ErrFenced)
    else Ok(s.(keys := s.keys[c.slot := Key(c, None)]))
  }

  ghost function FenceKey(s: Store, f: Fence): Result<Store> {
    if f.slot.epoch != s.active || f.slot.generation == 0 then Err(ErrInvalidProof)
    else if f.slot !in s.keys then Err(ErrNotFound)
    else if s.keys[f.slot].certificate.key != f.key || s.keys[f.slot].fence.Some? then Err(ErrFenced)
    else if f.sequence != Last(s.artifacts, f.slot)
            || f.digest != DigestAt(s.artifacts, Mark(f.slot, Last(s.artifacts, f.slot)))
    then Err(ErrInvalidProof)
    else Ok(s.(keys := s.keys[f.slot := s.keys[f.slot].(fence := Some(f))]))
  }

  function Chained(artifacts: Artifacts, slot: Slot, last: nat, key: Id, at: nat, payload: Id): Artifacts {
    var predecessor := DigestAt(artifacts, Mark(slot, last));
    var wrapper := Wrapper(Mark(slot, last + 1), key, predecessor, at, payload);
    artifacts[wrapper.mark := Artifact(DigestOf(wrapper), predecessor, wrapper)]
  }

  /** A terminal receipt, and behind it a claim grant when there is one. */
  function Signed(artifacts: Artifacts, slot: Slot, last: nat, key: Id, at: nat, receipt: Id,
                  grant: Option<Id>): Artifacts {
    var first := Chained(artifacts, slot, last, key, at, receipt);
    if grant.None? then first else Chained(first, slot, last + 1, key, at, grant.value)
  }

  ghost function Append(s: Store, receipt: Id, grant: Option<Id>, at: nat): Result<Store> {
    var slot := Current(s);
    if slot !in s.keys then Err(ErrNotFound)
    else if s.keys[slot].fence.Some? || !s.keys[slot].certificate.Covers(at) then Err(ErrFenced)
    else
      Ok(s.(artifacts :=
              Signed(s.artifacts, slot, Last(s.artifacts, slot), s.keys[slot].certificate.key, at, receipt, grant)))
  }

  /** Where the next artifact goes: right behind the last one of the current generation. */
  ghost function NextMark(s: Store): Mark {
    Mark(Current(s), Last(s.artifacts, Current(s)) + 1)
  }

  /** OpAdvance has no command of its own; the keys are kept per epoch all the same. */
  datatype Op =
    | OpRegister(certificate: Certificate, at: nat, retry: bool)
    | OpFence(fence: Fence)
    | OpAppend(receipt: Id, grant: Option<Id>, at: nat)
    | OpAdvance(epoch: nat)

  ghost function Apply(s: Store, op: Op): Result<Store> {
    match op
    case OpRegister(c, at, retry) => Register(s, c, at, retry)
    case OpFence(f) => FenceKey(s, f)
    case OpAppend(receipt, grant, at) => Append(s, receipt, grant, at)
    case OpAdvance(epoch) => if epoch <= s.active then Err(ErrFenced) else Ok(s.(active := epoch))
  }

  // ---------------------------------------------------------------- the invariant

  /** A generation above the first has a fenced predecessor: generations are 1..g and
      all but the last are fenced. */
  ghost predicate KeyOk(s: Store, k: Slot)
    requires k in s.keys
  {
    && s.keys[k].certificate.slot == k && 0 < k.generation && k.epoch <= s.active
    && s.keys[k].certificate.start < s.keys[k].certificate.end
    && (k.generation > 1
        ==> Slot(k.epoch, k.generation - 1) in s.keys && s.keys[Slot(k.epoch, k.generation - 1)].fence.Some?)
  }

  /** A row continues the chain of its generation and was issued within its key's term. */
  ghost predicate ArtifactOk(keys: Keys, artifacts: Artifacts, m: Mark)
    requires m in artifacts
  {
    var a := artifacts[m];
    && m.slot in keys && 0 < m.sequence && a.digest == DigestOf(a.wrapper) && a.wrapper.mark == m
    && a.wrapper.key == keys[m.slot].certificate.key && a.wrapper.predecessor == a.predecessor
    && keys[m.slot].certificate.Covers(a.wrapper.issued)
    && (if m.sequence == 1 then a.predecessor.None?
        else Mark(m.slot, m.sequence - 1) in artifacts
             && a.predecessor == Some(artifacts[Mark(m.slot, m.sequence - 1)].digest))
  }

  /** A fence is exactly the head of its generation. */
  ghost predicate FenceOk(s: Store, k: Slot)
    requires k in s.keys
  {
    s.keys[k].fence.Some? ==>
      var f := s.keys[k].fence.value;
      && f.slot == k && f.key == s.keys[k].certificate.key
      && f.sequence == Last(s.artifacts, k) && f.digest == DigestAt(s.artifacts, Mark(k, Last(s.artifacts, k)))
  }

  ghost predicate Inv(s: Store) {
    && (forall k | k in s.keys :: KeyOk(s, k))
    && (forall m | m in s.artifacts :: ArtifactOk(s.keys, s.artifacts, m))
    && (forall k | k in s.keys :: FenceOk(s, k))
  }

  lemma CurrentIs(s: Store)
    ensures Current(s) in s.keys
            <==> exists k :: k in s.keys && k.epoch == s.active && k.generation == Current(s).generation
    ensures forall k | k in s.keys && k.epoch == s.active :: k.generation <= Current(s).generation
    ensures Current(s).generation > 0 ==> Current(s) in s.keys
  {
    forall k | k in s.keys && k.epoch == s.active
      ensures k.generation <= Current(s).generation
    {
      assert k.generation in Generations(s.keys, s.active);
    }
    if Current(s).generation > 0 {
      var k :| k in s.keys && k.epoch == s.active && k.generation == Current(s).generation;
      assert k == Current(s);
    }
  }

  lemma LastIs(artifacts: Artifacts, slot: Slot)
    ensures Last(artifacts, slot) > 0 ==> Mark(slot, Last(artifacts, slot)) in artifacts
    ensures forall m | m in artifacts && m.slot == slot :: m.sequence <= Last(artifacts, slot)
  {
    forall m | m in artifacts && m.slot == slot
      ensures m.sequence <= Last(artifacts, slot)
    {
      assert m.sequence in Sequences(artifacts, slot);
    }
    if Last(artifacts, slot) > 0 {
      var m :| m in artifacts && m.slot == slot && m.sequence == Last(artifacts, slot);
      assert m == Mark(slot, Last(artifacts, slot));
    }
  }

  lemma RegisterKeepsInv(s: Store, c: Certificate, at: nat, retry: bool)
    requires Inv(s) && Register(s, c, at, retry).Ok?
    ensures Inv(Register(s, c, at, retry).value)
  {
    var t := Register(s, c, at, retry).value;
    CurrentIs(s);
    if t != s {
      assert c.slot !in s.keys;
      NewKeyKeepsArtifacts(s.keys, s.artifacts, c.slot, Key(c, None));
      forall k | k in t.keys
        ensures KeyOk(t, k) && FenceOk(t, k)
      {
        assert k in s.keys ==> KeyOk(s, k) && FenceOk(s, k);
      }
    }
  }

  lemma NewKeyKeepsArtifacts(keys: Keys, artifacts: Artifacts, slot: Slot, key: Key)
    requires slot !in keys && forall m | m in artifacts :: ArtifactOk(keys, artifacts, m)
    ensures forall m | m in artifacts :: ArtifactOk(keys[slot := key], artifacts, m)
  {
    forall m | m in artifacts
      ensures ArtifactOk(keys[slot := key], artifacts, m)
    {
      assert ArtifactOk(keys, artifacts, m);
    }
  }

  lemma FenceKeepsInv(s: Store, f: Fence)
    requires Inv(s) && FenceKey(s, f).Ok?
    ensures Inv(FenceKey(s, f).value)
  {
    var t := FenceKey(s, f).value;
    forall m | m in t.artifacts
      ensures ArtifactOk(t.keys, t.artifacts, m)
    {
      assert ArtifactOk(s.keys, s.artifacts, m);
    }
    forall k | k in t.keys
      ensures KeyOk(t, k) && FenceOk(t, k)
    {
      assert KeyOk(s, k) && FenceOk(s, k);
    }
  }

  lemma SequenceIn(artifacts: Artifacts, slot: Slot, n: nat)
    ensures n in Sequences(artifacts, slot) <==> Mark(slot, n) in artifacts
  {
    if n in Sequences(artifacts, slot) {
      var m :| m in artifacts && m.slot == slot && m.sequence == n;
      assert m == Mark(slot, n);
    }
  }

  lemma RowsGrow(artifacts: Artifacts, head: Mark, a: Artifact)
    requires head !in artifacts && head.sequence == Last(artifacts, head.slot) + 1
    ensures var t := artifacts[head := a];
            Last(t, head.slot) == head.sequence
            && forall k | k != head.slot :: Sequences(t, k) == Sequences(artifacts, k)
  {
    var t := artifacts[head := a];
    forall k: Slot, n: nat
      ensures n in Sequences(t, k) <==> n in Sequences(artifacts, k) || Mark(k, n) == head
    {
      SequenceIn(artifacts, k, n);
      SequenceIn(t, k, n);
    }
    assert Mark(head.slot, head.sequence) == head;
    assert IsHighest(Sequences(artifacts, head.slot), Last(artifacts, head.slot));
    assert IsHighest(Sequences(t, head.slot), Last(t, head.slot)) && head.sequence in Sequences(t, head.slot);
    assert Last(t, head.slot) in Sequences(t, head.slot);
  }

  lemma OldRowOk(keys: Keys, artifacts: Artifacts, head: Mark, a: Artifact, m: Mark)
    requires m in artifacts && head !in artifacts && ArtifactOk(keys, artifacts, m)
    ensures ArtifactOk(keys, artifacts[head := a], m)
  {
  }

  /** All rows are sound, no row is lost, and only the slot has new ones. */
  ghost predicate Grown(keys: Keys, before: Artifacts, after: Artifacts, slot: Slot) {
    && (forall m | m in after :: ArtifactOk(keys, after, m))
    && (forall k | k != slot :: Sequences(after, k) == Sequences(before, k))
    && (forall m | m in before :: m in after && after[m] == before[m])
  }

  lemma GrownTransitive(keys: Keys, a: Artifacts, b: Artifacts, c: Artifacts, slot: Slot)
    requires Grown(keys, a, b, slot) && Grown(keys, b, c, slot)
    ensures Grown(keys, a, c, slot)
  {
  }

  /** One more artifact: the chain grows by its new head, other generations are untouched. */
  lemma ChainGrows(keys: Keys, artifacts: Artifacts, slot: Slot, last: nat, at: nat, payload: Id)
    requires (forall m | m in artifacts :: ArtifactOk(keys, artifacts, m)) && slot in keys
             && keys[slot].certificate.Covers(at)
    requires last == Last(artifacts, slot)
    ensures var t := Chained(artifacts, slot, last, keys[slot].certificate.key, at, payload);
            Grown(keys, artifacts, t, slot) && Last(t, slot) == last + 1
  {
    var t := Chained(artifacts, slot, last, keys[slot].certificate.key, at, payload);
    var head := Mark(slot, last + 1);
    LastIs(artifacts, slot);
    assert head !in artifacts;
    RowsGrow(artifacts, head, t[head]);
    HeadRowOk(keys, artifacts, slot, at, payload);
    forall m | m in t
      ensures ArtifactOk(keys, t, m)
    {
      if m != head {
        OldRowOk(keys, artifacts, head, t[head], m);
      }
    }
  }

  lemma HeadRowOk(keys: Keys, artifacts: Artifacts, slot: Slot, at: nat, payload: Id)
    requires (forall m | m in artifacts :: ArtifactOk(keys, artifacts, m)) && slot in keys
             && keys[slot].certificate.Covers(at)
    ensures var t := Chained(artifacts, slot, Last(artifacts, slot), keys[slot].certificate.key, at, payload);
            Mark(slot, Last(artifacts, slot) + 1) in t && ArtifactOk(keys, t, Mark(slot, Last(artifacts, slot) + 1))
  {
    LastIs(artifacts, slot);
    assert forall m | m in artifacts :: ArtifactOk(keys, artifacts, m) && m.sequence > 0;
  }

  lemma SignedGrows(keys: Keys, artifacts: Artifacts, slot: Slot, at: nat, receipt: Id, grant: Option<Id>)
    requires (forall m | m in artifacts :: ArtifactOk(keys, artifacts, m)) && slot in keys
             && keys[slot].certificate.Covers(at)
    ensures Grown(keys, artifacts,
                  Signed(artifacts, slot, Last(artifacts, slot), keys[slot].certificate.key, at, receipt, grant), slot)
  {
    var key, last := keys[slot].certificate.key, Last(artifacts, slot);
    var first := Chained(artifacts, slot, last, key, at, receipt);
    ChainGrows(keys, artifacts, slot, last, at, receipt);
    if grant.Some? {
      ChainGrows(keys, first, slot, last + 1, at, grant.value);
      GrownTransitive(keys, artifacts, first, Chained(first, slot, last + 1, key, at, grant.value), slot);
    }
  }

  lemma AppendGrows(s: Store, receipt: Id, grant: Option<Id>, at: nat)
    requires Inv(s) && Append(s, receipt, grant, at).Ok?
    ensures Grown(s.keys, s.artifacts, Append(s, receipt, grant, at).value.artifacts, Current(s))
  {
    SignedGrows(s.keys, s.artifacts, Current(s), at, receipt, grant);
  }

  /** The next place lies after every artifact of every generation and epoch. */
  lemma NextMarkIsLast(s: Store)
    requires Inv(s)
    ensures forall m | m in s.artifacts :: MarkBefore(m, NextMark(s))
  {
    CurrentIs(s);
    LastIs(s.artifacts, Current(s));
    forall m | m in s.artifacts
      ensures MarkBefore(m, NextMark(s))
    {
      assert ArtifactOk(s.keys, s.artifacts, m);
      assert KeyOk(s, m.slot);
    }
  }

  /** An append keeps every artifact and takes the next place. */
  lemma AppendTakesNext(s: Store, receipt: Id, grant: Option<Id>, at: nat)
    requires Append(s, receipt, grant, at).Ok?
    ensures var t := Append(s, receipt, grant, at).value;
            NextMark(s) in t.artifacts && forall m | m in s.artifacts :: m in t.artifacts
  {
    var slot := Current(s);
    SignedHolds(s.artifacts, slot, Last(s.artifacts, slot), s.keys[slot].certificate.key, at, receipt, grant);
  }

  lemma SignedHolds(artifacts: Artifacts, slot: Slot, last: nat, key: Id, at: nat, receipt: Id, grant: Option<Id>)
    ensures var t := Signed(artifacts, slot, last, key, at, receipt, grant);
            Mark(slot, last + 1) in t && forall m | m in artifacts :: m in t
  {
  }

  lemma FencesKept(s: Store, t: Store, slot: Slot, k: Slot)
    requires t.keys == s.keys && k in s.keys && FenceOk(s, k) && (k == slot ==> s.keys[k].fence.None?)
    requires k != slot ==> Sequences(t.artifacts, k) == Sequences(s.artifacts, k)
    requires forall m | m in s.artifacts :: m in t.artifacts && t.artifacts[m] == s.artifacts[m]
    ensures FenceOk(t, k)
  {
    if k != slot {
      SameDigest(s.artifacts, t.artifacts, k);
    }
  }

  lemma AppendKeepsInv(s: Store, receipt: Id, grant: Option<Id>, at: nat)
    requires Inv(s) && Append(s, receipt, grant, at).Ok?
    ensures Inv(Append(s, receipt, grant, at).value)
  {
    var t := Append(s, receipt, grant, at).value;
    AppendGrows(s, receipt, grant, at);
    forall k | k in t.keys
      ensures KeyOk(t, k) && FenceOk(t, k)
    {
      assert KeyOk(s, k) && FenceOk(s, k);
      FencesKept(s, t, Current(s), k);
    }
  }

  lemma SameDigest(before: Artifacts, after: Artifacts, slot: Slot)
    requires Sequences(after, slot) == Sequences(before, slot)
             && forall m | m in before :: m in after && after[m] == before[m]
    ensures forall n: nat :: DigestAt(after, Mark(slot, n)) == DigestAt(before, Mark(slot, n))
  {
    forall n: nat
      ensures DigestAt(after, Mark(slot, n)) == DigestAt(before, Mark(slot, n))
    {
      if Mark(slot, n) in after {
        assert n in Sequences(after, slot);
        var m :| m in before && m.slot == slot && m.sequence == n;
        assert m == Mark(slot, n);
      }
    }
  }

  lemma ApplyKeepsInv(s: Store, op: Op)
    requires Inv(s) && Apply(s, op).Ok?
    ensures Inv(Apply(s, op).value)
  {
    match op
    case OpRegister(c, at, retry) => RegisterKeepsInv(s, c, at, retry);
    case OpFence(f) => FenceKeepsInv(s, f);
    case OpAppend(receipt, grant, at) => AppendKeepsInv(s, receipt, grant, at);
    case OpAdvance(epoch) =>
      var t := Apply(s, op).value;
      assert forall k | k in t.keys :: KeyOk(s, k) && FenceOk(s, k);
      assert forall m | m in t.artifacts :: ArtifactOk(s.keys, s.artifacts, m);
  }

  /** No operation loses an artifact. */
  lemma ApplyKeepsArtifacts(s: Store, op: Op)
    requires Inv(s) && Apply(s, op).Ok?
    ensures forall m | m in s.artifacts :: m in Apply(s, op).value.artifacts
  {
    if op.OpAppend? {
      AppendGrows(s, op.receipt, op.grant, op.at);
    }
  }

  // ---------------------------------------------------------------- generations are contiguous

  /** Generations of an epoch are exactly 1..g, and every one below g is fenced. */
  lemma {:induction false} GenerationsContiguous(s: Store, k: Slot, g: nat)
    requires Inv(s) && k in s.keys && 0 < g <= k.generation
    ensures Slot(k.epoch, g) in s.keys && (g < k.generation ==> s.keys[Slot(k.epoch, g)].fence.Some?)
    decreases k.generation - g
  {
    assert KeyOk(s, k);
    if g < k.generation {
      GenerationsContiguous(s, k, g + 1);
      assert KeyOk(s, Slot(k.epoch, g + 1));
    }
  }

  /** A fenced generation never gets another artifact and its fence never changes. */
  ghost predicate SameSlot(s: Store, t: Store, k: Slot) {
    && k in s.keys && k in t.keys && t.keys[k] == s.keys[k] && Sequences(t.artifacts, k) == Sequences(s.artifacts, k)
    && forall m | m in s.artifacts && m.slot == k :: m in t.artifacts && t.artifacts[m] == s.artifacts[m]
  }

  lemma RegisterSparesFenced(s: Store, c: Certificate, at: nat, retry: bool, k: Slot)
    requires k in s.keys && s.keys[k].fence.Some? && Register(s, c, at, retry).Ok?
    ensures SameSlot(s, Register(s, c, at, retry).value, k)
  {
    CurrentIs(s);
  }

  lemma AppendSparesFenced(s: Store, receipt: Id, grant: Option<Id>, at: nat, k: Slot)
    requires Inv(s) && k in s.keys && s.keys[k].fence.Some? && Append(s, receipt, grant, at).Ok?
    ensures SameSlot(s, Append(s, receipt, grant, at).value, k)
  {
    AppendGrows(s, receipt, grant, at);
  }

  lemma FencedStays(s: Store, op: Op, k: Slot)
    requires Inv(s) && k in s.keys && s.keys[k].fence.Some? && Apply(s, op).Ok?
    ensures SameSlot(s, Apply(s, op).value, k)
  {
    match op
    case OpRegister(c, at, retry) => RegisterSparesFenced(s, c, at, retry, k);
    case OpAppend(receipt, grant, at) => AppendSparesFenced(s, receipt, grant, at, k);
    case _ =>
  }

  // ---------------------------------------------------------------- runs

  ghost predicate Next(s: Store, t: Store) {
    exists op :: Apply(s, op) == Ok(t)
  }

  ghost predicate StepAt(states: seq<Store>, i: nat)
    requires i < |states| - 1
  {
    Next(states[i], states[i + 1])
  }

  ghost predicate IsRun(states: seq<Store>) {
    && |states| > 0 && states[0].keys == map[] && states[0].artifacts == map[]
    && forall i | 0 <= i < |states| - 1 :: StepAt(states, i)
  }

  lemma {:induction false} EveryStateIsSound(states: seq<Store>, n: nat)
    requires IsRun(states) && n < |states|
    ensures Inv(states[n])
  {
    if n > 0 {
      EveryStateIsSound(states, n - 1);
      assert StepAt(states, n - 1);
      var op :| Apply(states[n - 1], op) == Ok(states[n]);
      ApplyKeepsInv(states[n - 1], op);
    }
  }

  lemma SameSlotTransitive(r: Store, s: Store, t: Store, k: Slot)
    requires SameSlot(r, s, k) && SameSlot(s, t, k)
    ensures SameSlot(r, t, k)
  {
  }

  /** In every run a fenced generation keeps its fence and its exact chain. */
  lemma {:induction false} FencedForever(states: seq<Store>, m: nat, n: nat, k: Slot)
    requires IsRun(states) && m <= n < |states| && k in states[m].keys && states[m].keys[k].fence.Some?
    ensures SameSlot(states[m], states[n], k)
  {
    if m < n {
      FencedForever(states, m, n - 1, k);
      EveryStateIsSound(states, n - 1);
      assert StepAt(states, n - 1);
      var op :| Apply(states[n - 1], op) == Ok(states[n]);
      FencedStays(states[n - 1], op, k);
      SameSlotTransitive(states[m], states[n - 1], states[n], k);
    }
  }

  // ---------------------------------------------------------------- the reopen checks

  predicate SlotBefore(a: Slot, b: Slot) {
    a.epoch < b.epoch || (a.epoch == b.epoch && a.generation < b.generation)
  }

  predicate MarkBefore(a: Mark, b: Mark) {
    SlotBefore(a.slot, b.slot) || (a.slot == b.slot && a.sequence < b.sequence)
  }

  /** The rows in ORDER BY epoch, generation. */
  ghost predicate ListsKeys(rows: seq<Slot>, keys: Keys) {
    && (forall i, k | 0 <= i < k < |rows| :: SlotBefore(rows[i], rows[k]))
    && (forall k :: k in rows <==> k in keys)
  }

  ghost predicate ListsArtifacts(rows: seq<Mark>, artifacts: Artifacts) {
    && (forall i, k | 0 <= i < k < |rows| :: MarkBefore(rows[i], rows[k]))
    && (forall m :: m in rows <==> m in artifacts)
  }

  /** What checkArtifactKeys asks of row i, given the row before it. */
  ghost predicate KeyRowOk(keys: Keys, active: nat, rows: seq<Slot>, i: nat)
    requires i < |rows| && forall k | 0 <= k < |rows| :: rows[k] in keys
  {
    var k := rows[i];
    && keys[k].certificate.slot == k && keys[k].certificate.start < keys[k].certificate.end && k.epoch <= active
    && (if i == 0 || rows[i - 1].epoch != k.epoch then k.generation == 1
        else k.generation == rows[i - 1].generation + 1 && keys[rows[i - 1]].fence.Some?)
    && (keys[k].fence.Some? ==> keys[k].fence.value.slot == k && keys[k].fence.value.key == keys[k].certificate.key)
  }

  method CheckArtifactKeys(keys: Keys, active: nat, rows: seq<Slot>) returns (ok: bool)
    requires forall k | 0 <= k < |rows| :: rows[k] in keys
    ensures ok <==> forall i | 0 <= i < |rows| :: KeyRowOk(keys, active, rows, i)
  {
    var lastEpoch, lastGeneration, priorFenced := 0, 0, true;
    var started := false;
    for i := 0 to |rows|
      invariant started <==> i > 0
      invariant i > 0 ==> lastEpoch == rows[i - 1].epoch && lastGeneration == rows[i - 1].generation
                          && priorFenced == keys[rows[i - 1]].fence.Some?
      invariant forall k | 0 <= k < i :: KeyRowOk(keys, active, rows, k)
    {
      var k := rows[i];
      var key := keys[k];
      if !started || k.epoch != lastEpoch {
        lastGeneration, priorFenced := 0, true;
      }
      if key.certificate.slot != k || key.certificate.start >= key.certificate.end
         || k.generation != lastGeneration + 1 || !priorFenced || k.epoch > active
         || (key.fence.Some? && (key.fence.value.slot != k || key.fence.value.key != key.certificate.key)) {
        assert !KeyRowOk(keys, active, rows, i);
        return false;
      }
      started, lastEpoch, lastGeneration, priorFenced := true, k.epoch, k.generation, key.fence.Some?;
    }
    ok := true;
  }

  /** What checkArtifactChains asks of row i, given the row before it. */
  ghost predicate ArtifactRowOk(keys: Keys, artifacts: Artifacts, rows: seq<Mark>, i: nat)
    requires i < |rows| && forall k | 0 <= k < |rows| :: rows[k] in artifacts && rows[k].slot in keys
  {
    var m := rows[i];
    var a := artifacts[m];
    && (if i == 0 || rows[i - 1].slot != m.slot then m.sequence == 1 && a.predecessor.None?
        else m.sequence == rows[i - 1].sequence + 1 && a.predecessor == Some(artifacts[rows[i - 1]].digest))
    && (keys[m.slot].fence.Some? ==> m.sequence <= keys[m.slot].fence.value.sequence)
    && a.wrapper.mark == m && a.wrapper.key == keys[m.slot].certificate.key && a.wrapper.predecessor == a.predecessor
    && a.digest == DigestOf(a.wrapper) && keys[m.slot].certificate.Covers(a.wrapper.issued)
  }

  method CheckArtifactChains(keys: Keys, artifacts: Artifacts, rows: seq<Mark>) returns (ok: bool)
    requires forall k | 0 <= k < |rows| :: rows[k] in artifacts && rows[k].slot in keys
    ensures ok <==> forall i | 0 <= i < |rows| :: ArtifactRowOk(keys, artifacts, rows, i)
  {
    var lastSlot, lastSequence, lastDigest := Slot(0, 0), 0, None;
    var started := false;
    for i := 0 to |rows|
      invariant started <==> i > 0
      invariant i > 0 ==> lastSlot == rows[i - 1].slot && lastSequence == rows[i - 1].sequence
                          && lastDigest == Some(artifacts[rows[i - 1]].digest)
      invariant forall k | 0 <= k < i :: ArtifactRowOk(keys, artifacts, rows, k)
    {
      var m := rows[i];
      var a, key := artifacts[m], keys[m.slot];
      if !started || m.slot != lastSlot {
        lastSequence, lastDigest := 0, None;
      }
      if m.sequence != lastSequence + 1 || a.predecessor != lastDigest
         || (key.fence.Some? && m.sequence > key.fence.value.sequence)
         || a.wrapper.mark != m || a.wrapper.key != key.certificate.key || a.wrapper.predecessor != a.predecessor
         || a.digest != DigestOf(a.wrapper) || !key.certificate.Covers(a.wrapper.issued) {
        assert !ArtifactRowOk(keys, artifacts, rows, i);
        return false;
      }
      started, lastSlot, lastSequence, lastDigest := true, m.slot, m.sequence, Some(a.digest);
    }
    ok := true;
  }

  /** The row before (e, g + 1) in the listing is (e, g). */
  lemma KeyRowBefore(s: Store, rows: seq<Slot>, i: nat)
    requires ListsKeys(rows, s.keys) && i < |rows| && rows[i].generation > 1
             && Slot(rows[i].epoch, rows[i].generation - 1) in s.keys
    ensures i > 0 && rows[i - 1] == Slot(rows[i].epoch, rows[i].generation - 1)
  {
    var before := Slot(rows[i].epoch, rows[i].generation - 1);
    assert before in rows;
    var j :| 0 <= j < |rows| && rows[j] == before;
    assert j < i;
    assert SlotBefore(rows[i - 1], rows[i]) && (rows[j] == rows[i - 1] || SlotBefore(rows[j], rows[i - 1]));
  }

  lemma MarkRowBefore(artifacts: Artifacts, rows: seq<Mark>, i: nat)
    requires ListsArtifacts(rows, artifacts) && i < |rows| && rows[i].sequence > 1
             && Mark(rows[i].slot, rows[i].sequence - 1) in artifacts
    ensures i > 0 && rows[i - 1] == Mark(rows[i].slot, rows[i].sequence - 1)
  {
    var before := Mark(rows[i].slot, rows[i].sequence - 1);
    assert before in rows;
    var j :| 0 <= j < |rows| && rows[j] == before;
    assert j < i;
    assert MarkBefore(rows[i - 1], rows[i]) && (rows[j] == rows[i - 1] || MarkBefore(rows[j], rows[i - 1]));
  }

  /** The key check accepts every row of every reachable state. */
  lemma KeyCheckAccepts(s: Store, rows: seq<Slot>, i: nat)
    requires Inv(s) && ListsKeys(rows, s.keys) && i < |rows|
    ensures (forall k | 0 <= k < |rows| :: rows[k] in s.keys) && KeyRowOk(s.keys, s.active, rows, i)
  {
    assert forall k | 0 <= k < |rows| :: rows[k] in rows && rows[k] in s.keys;
    assert KeyOk(s, rows[i]) && FenceOk(s, rows[i]);
    if rows[i].generation > 1 {
      KeyRowBefore(s, rows, i);
    } else if i > 0 {
      assert SlotBefore(rows[i - 1], rows[i]) && KeyOk(s, rows[i - 1]);
    }
  }

  /** The chain check accepts every row of every reachable state. */
  lemma ChainCheckAccepts(s: Store, rows: seq<Mark>, i: nat)
    requires Inv(s) && ListsArtifacts(rows, s.artifacts) && i < |rows|
    ensures forall k | 0 <= k < |rows| :: rows[k] in s.artifacts && rows[k].slot in s.keys
    ensures ArtifactRowOk(s.keys, s.artifacts, rows, i)
  {
    forall k | 0 <= k < |rows|
      ensures rows[k] in s.artifacts && rows[k].slot in s.keys && ArtifactOk(s.keys, s.artifacts, rows[k])
    {
      assert rows[k] in rows;
    }
    var m := rows[i];
    if s.keys[m.slot].fence.Some? {
      assert FenceOk(s, m.slot);
      LastIs(s.artifacts, m.slot);
    }
    if m.sequence > 1 {
      MarkRowBefore(s.artifacts, rows, i);
    } else if i > 0 {
      assert MarkBefore(rows[i - 1], rows[i]) && ArtifactOk(s.keys, s.artifacts, rows[i - 1]);
    }
  }

  /** The closing query of the chain check: a fence states exactly its chain's head. */
  ghost predicate FenceHead(s: Store, k: Slot)
    requires k in s.keys
  {
    s.keys[k].fence.Some? ==>
      && s.keys[k].fence.value.sequence == Last(s.artifacts, k)
      && s.keys[k].fence.value.digest == DigestAt(s.artifacts, Mark(k, Last(s.artifacts, k)))
  }

  method CheckFenceHeads(keys: Keys, artifacts: Artifacts, active: nat) returns (ok: bool)
    ensures ok <==> forall k | k in keys :: FenceHead(Store(active, keys, artifacts), k)
  {
    ghost var s := Store(active, keys, artifacts);
    var left := keys.Keys;
    while left != {}
      invariant left <= keys.Keys && forall k | k in keys && k !in left :: FenceHead(s, k)
      decreases |left|
    {
      var k :| k in left;
      left := left - {k};
      if keys[k].fence.Some? {
        var last := FindHighest(Sequences(artifacts, k));
        if keys[k].fence.value.sequence != last || keys[k].fence.value.digest != DigestAt(artifacts, Mark(k, last)) {
          assert !FenceHead(s, k);
          return false;
        }
      }
    }
    ok := true;
  }

  /** Every row passes its check, and every fence is its chain's head. */
  ghost predicate ReopenAccepts(s: Store, slots: seq<Slot>, marks: seq<Mark>)
    requires forall i | 0 <= i < |slots| :: slots[i] in s.keys
    requires forall i | 0 <= i < |marks| :: marks[i] in s.artifacts && marks[i].slot in s.keys
  {
    && (forall i | 0 <= i < |slots| :: KeyRowOk(s.keys, s.active, slots, i))
    && (forall i | 0 <= i < |marks| :: ArtifactRowOk(s.keys, s.artifacts, marks, i))
    && (forall k | k in s.keys :: FenceHead(s, k))
  }

  lemma KeyRowsForceKey(s: Store, slots: seq<Slot>, i: nat)
    requires (forall k | 0 <= k < |slots| :: slots[k] in s.keys) && i < |slots| && KeyRowOk(s.keys, s.active, slots, i)
    ensures KeyOk(s, slots[i])
  {
    if slots[i].generation > 1 {
      assert slots[i - 1] == Slot(slots[i].epoch, slots[i].generation - 1);
    }
  }

  lemma ArtifactRowsForceChain(s: Store, marks: seq<Mark>, i: nat)
    requires forall k | 0 <= k < |marks| :: marks[k] in s.artifacts && marks[k].slot in s.keys
    requires i < |marks| && ArtifactRowOk(s.keys, s.artifacts, marks, i) && (i > 0 ==> marks[i - 1].sequence > 0)
    ensures ArtifactOk(s.keys, s.artifacts, marks[i])
  {
    if marks[i].sequence > 1 {
      assert marks[i - 1] == Mark(marks[i].slot, marks[i].sequence - 1);
    }
  }

  lemma {:induction false} SequencesPositive(s: Store, marks: seq<Mark>, n: nat)
    requires forall k | 0 <= k < |marks| :: marks[k] in s.artifacts && marks[k].slot in s.keys
    requires (forall i | 0 <= i < |marks| :: ArtifactRowOk(s.keys, s.artifacts, marks, i)) && n < |marks|
    ensures marks[n].sequence > 0
  {
    assert ArtifactRowOk(s.keys, s.artifacts, marks, n);
    if n > 0 {
      SequencesPositive(s, marks, n - 1);
    }
  }

  lemma AcceptedKeys(s: Store, slots: seq<Slot>, marks: seq<Mark>)
    requires ListsKeys(slots, s.keys) && (forall i | 0 <= i < |slots| :: slots[i] in s.keys)
    requires (forall i | 0 <= i < |marks| :: marks[i] in s.artifacts && marks[i].slot in s.keys)
             && ReopenAccepts(s, slots, marks)
    ensures forall k | k in s.keys :: KeyOk(s, k) && FenceOk(s, k)
  {
    forall k | k in s.keys
      ensures KeyOk(s, k) && FenceOk(s, k)
    {
      assert k in slots;
      var i :| 0 <= i < |slots| && slots[i] == k;
      assert KeyRowOk(s.keys, s.active, slots, i) && FenceHead(s, k);
      KeyRowsForceKey(s, slots, i);
    }
  }

  lemma AcceptedChains(s: Store, slots: seq<Slot>, marks: seq<Mark>)
    requires ListsArtifacts(marks, s.artifacts) && (forall i | 0 <= i < |slots| :: slots[i] in s.keys)
    requires (forall i | 0 <= i < |marks| :: marks[i] in s.artifacts && marks[i].slot in s.keys)
             && ReopenAccepts(s, slots, marks)
    ensures forall m | m in s.artifacts :: ArtifactOk(s.keys, s.artifacts, m)
  {
    forall m | m in s.artifacts
      ensures ArtifactOk(s.keys, s.artifacts, m)
    {
      assert m in marks;
      var i :| 0 <= i < |marks| && marks[i] == m;
      assert ArtifactRowOk(s.keys, s.artifacts, marks, i);
      if i > 0 {
        SequencesPositive(s, marks, i - 1);
      }
      ArtifactRowsForceChain(s, marks, i);
    }
  }

  /** What reopen establishes: on the rows in their orders, with every artifact under a
      key, the two checks and the closing query accept exactly the stores that meet
      the invariant of keys, chains and fences. */
  lemma ReopenIsInv(s: Store, slots: seq<Slot>, marks: seq<Mark>)
    requires ListsKeys(slots, s.keys) && ListsArtifacts(marks, s.artifacts)
    requires (forall i | 0 <= i < |slots| :: slots[i] in s.keys)
    requires forall i | 0 <= i < |marks| :: marks[i] in s.artifacts && marks[i].slot in s.keys
    ensures Inv(s) <==> ReopenAccepts(s, slots, marks)
  {
    if ReopenAccepts(s, slots, marks) {
      AcceptedKeys(s, slots, marks);
      AcceptedChains(s, slots, marks);
    }
    if Inv(s) {
      forall i | 0 <= i < |slots|
        ensures KeyRowOk(s.keys, s.active, slots, i)
      {
        KeyCheckAccepts(s, slots, i);
      }
      forall i | 0 <= i < |marks|
        ensures ArtifactRowOk(s.keys, s.artifacts, marks, i)
      {
        ChainCheckAccepts(s, marks, i);
      }
      assert forall k | k in s.keys :: FenceOk(s, k);
    }
  }

  // ---------------------------------------------------------------- exactly what is accepted

  /** Only the current generation of the active epoch can be unfenced. */
  lemma OthersAreFenced(s: Store, k: Slot)
    requires Inv(s) && k in s.keys && k.epoch == s.active
    ensures Current(s) in s.keys && k.generation <= Current(s).generation && k.generation > 0
    ensures k != Current(s) ==> s.keys[k].fence.Some?
  {
    CurrentIs(s);
    assert KeyOk(s, k);
    GenerationsContiguous(s, Current(s), k.generation);
  }

  /** Every generation of the epoch is fenced, or there is none. */
  ghost predicate AllFenced(s: Store) {
    forall k | k in s.keys && k.epoch == s.active :: s.keys[k].fence.Some?
  }

  lemma AllFencedExactly(s: Store)
    requires Inv(s)
    ensures AllFenced(s) <==> Current(s) !in s.keys || s.keys[Current(s)].fence.Some?
  {
    CurrentIs(s);
    forall k | k in s.keys && k.epoch == s.active
      ensures Current(s) in s.keys && (k != Current(s) ==> s.keys[k].fence.Some?)
    {
      OthersAreFenced(s, k);
    }
  }

  /** The slot comes right after every generation of the active epoch. */
  ghost predicate IsNext(s: Store, slot: Slot) {
    && slot.epoch == s.active && slot.generation > 0
    && (slot.generation > 1 ==> Slot(s.active, slot.generation - 1) in s.keys)
    && forall k | k in s.keys && k.epoch == s.active :: k.generation < slot.generation
  }

  lemma NextExactly(s: Store, slot: Slot)
    requires Inv(s)
    ensures IsNext(s, slot) <==> slot == Slot(s.active, Current(s).generation + 1)
  {
    CurrentIs(s);
    if Current(s).generation > 0 {
      assert Current(s) in s.keys;
    }
  }

  /** A new key is taken exactly as the next generation of the active epoch, within its
      term, once every generation before it is fenced. */
  lemma RegisterExactly(s: Store, c: Certificate, at: nat, retry: bool)
    requires Inv(s) && c.slot !in s.keys
    ensures Register(s, c, at, retry).Ok? <==> IsNext(s, c.slot) && c.Covers(at) && AllFenced(s)
    ensures Register(s, c, at, retry).Ok? ==>
              Register(s, c, at, retry).value == s.(keys := s.keys[c.slot := Key(c, None)])
  {
    AllFencedExactly(s);
    NextExactly(s, c.slot);
  }

  /** A key taken before is accepted again exactly as it was, while it is in use. */
  lemma RegisterAgainExactly(s: Store, c: Certificate, at: nat, retry: bool)
    requires Inv(s) && c.slot in s.keys
    ensures Register(s, c, at, retry) == Ok(s) <==>
              c.slot.epoch == s.active && retry && c.Covers(at) && s.keys[c.slot] == Key(c, None)
    ensures Register(s, c, at, retry).Ok? ==> Register(s, c, at, retry) == Ok(s)
  {
    assert KeyOk(s, c.slot);
    if c.slot.epoch == s.active {
      OthersAreFenced(s, c.slot);
    }
  }

  /** A fence is taken exactly when it names the last artifact of an unfenced key of the
      active epoch, or says that there is none. */
  lemma FenceExactly(s: Store, f: Fence)
    requires Inv(s)
    ensures FenceKey(s, f).Ok? <==>
              && f.slot.epoch == s.active && f.slot in s.keys && s.keys[f.slot].fence.None?
              && s.keys[f.slot].certificate.key == f.key
              && (forall m | m in s.artifacts && m.slot == f.slot :: m.sequence <= f.sequence)
              && (if f.sequence == 0 then f.digest.None?
                  else Mark(f.slot, f.sequence) in s.artifacts
                       && f.digest == Some(s.artifacts[Mark(f.slot, f.sequence)].digest))
  {
    LastIs(s.artifacts, f.slot);
    if f.slot in s.keys {
      assert KeyOk(s, f.slot);
    }
    SequencesStartAtOne(s, f.slot);
  }

  lemma SequencesStartAtOne(s: Store, slot: Slot)
    requires Inv(s)
    ensures Mark(slot, 0) !in s.artifacts
  {
    assert Mark(slot, 0) in s.artifacts ==> ArtifactOk(s.keys, s.artifacts, Mark(slot, 0));
  }

  /** A receipt is signed exactly when some key of the active epoch is unfenced and in term. */
  lemma AppendExactly(s: Store, receipt: Id, grant: Option<Id>, at: nat)
    requires Inv(s)
    ensures Append(s, receipt, grant, at).Ok? <==>
              exists k :: k in s.keys && k.epoch == s.active && s.keys[k].fence.None?
                          && s.keys[k].certificate.Covers(at)
  {
    forall k | k in s.keys && k.epoch == s.active
      ensures Current(s) in s.keys && (k != Current(s) ==> s.keys[k].fence.Some?)
    {
      OthersAreFenced(s, k);
    }
  }

  // ---------------------------------------------------------------- the store in place

  class ArtifactStore {
    var active: nat
    var keys: Keys
    var artifacts: Artifacts

    ghost function View(): Store
      reads this
    {
      Store(active, keys, artifacts)
    }

    constructor (epoch: nat)
      ensures View() == Store(epoch, map[], map[])
    {
      active, keys, artifacts := epoch, map[], map[];
    }

    /** The new state or, on an error, the old one. */
    ghost predicate Did(spec: Result<Store>, before: Store, failure: Option<Error>)
      reads this
    {
      match spec
      case Ok(t) => View() == t && failure.None?
      case Err(e) => View() == before && failure == Some(e)
    }

    method RegisterArtifactKey(c: Certificate, at: nat, retry: bool) returns (failure: Option<Error>)
      modifies this`keys
      ensures Did(Register(old(View()), c, at, retry), old(View()), failure)
    {
      var generation := FindHighest(Generations(keys, active));
      var current := Slot(active, generation);
      if c.slot.epoch != active || c.slot.generation == 0 || !c.Covers(at) {
        return Some(ErrInvalidProof);
      }
      if current in keys && c.slot == current {
        if keys[current] == Key(c, None) {
          return if retry then None else Some(ErrExists);
        }
        return Some(ErrFenced);
      }
      if c.slot.generation != generation + 1 || (current in keys && keys[current].fence.None?) {
        return Some(ErrFenced);
      }
      keys := keys[c.slot := Key(c, None)];
      failure := None;
    }

    method FenceArtifactKey(f: Fence) returns (failure: Option<Error>)
      modifies this`keys
      ensures Did(FenceKey(old(View()), f), old(View()), failure)
    {
      if f.slot.epoch != active || f.slot.generation == 0 {
        return Some(ErrInvalidProof);
      }
      if f.slot !in keys {
        return Some(ErrNotFound);
      }
      if keys[f.slot].certificate.key != f.key || keys[f.slot].fence.Some? {
        return Some(ErrFenced);
      }
      var last := FindHighest(Sequences(artifacts, f.slot));
      if f.sequence != last || f.digest != DigestAt(artifacts, Mark(f.slot, last)) {
        return Some(ErrInvalidProof);
      }
      keys := keys[f.slot := keys[f.slot].(fence := Some(f))];
      failure := None;
    }

    method AppendArtifacts(receipt: Id, grant: Option<Id>, at: nat) returns (failure: Option<Error>)
      modifies this`artifacts
      ensures Did(Append(old(View()), receipt, grant, at), old(View()), failure)
    {
      var generation := FindHighest(Generations(keys, active));
      var slot := Slot(active, generation);
      if slot !in keys {
        return Some(ErrNotFound);
      }
      if keys[slot].fence.Some? || !keys[slot].certificate.Covers(at) {
        return Some(ErrFenced);
      }
      var last := FindHighest(Sequences(artifacts, slot));
      var key := keys[slot].certificate.key;
      artifacts := Chained(artifacts, slot, last, key, at, receipt);
      if grant.Some? {
        artifacts := Chained(artifacts, slot, last + 1, key, at, grant.value);
      }
      failure := None;
    }
  }
}
