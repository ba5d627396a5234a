/** The submission protocol: exact replay, one sequence head per Environment,
    in-memory execution owners, and terminal receipts. */
module Submissions {
  import opened Common

  datatype Command = Command(id: Id, hash: Id, bytes: Id, environment: Id, sequence: nat, epoch: nat, repo: Id,
                             lifecycle: bool)

  datatype Submission = Submission(hash: Id, bytes: Id, environment: Id, sequence: nat, epoch: nat, lifecycle: bool,
                                   terminal: bool)

  /** The row a command makes. */
  function RowOf(c: Command, terminal: bool): Submission {
    Submission(c.hash, c.bytes, c.environment, c.sequence, c.epoch, c.lifecycle, terminal)
  }

  /** A finished evaluation: the result, the allocated ids and the time. */
  type Completion = Id

  /** completion is None for a command that is completed by its own lifecycle fold. */
  datatype Receipt = Receipt(id: Id, hash: Id, environment: Id, sequence: nat, completion: Option<Completion>)

  /** An execution owner. Two executions are the same object when their tokens agree. */
  datatype Execution = Execution(token: nat, recorded: Option<Completion>, running: bool)

  datatype State = State(
    epoch: nat, members: set<Id>, heads: map<Id, nat>,
    submissions: map<Id, Submission>, receipts: map<Id, Receipt>,
    owners: map<Id, Execution>, nextToken: nat)

  datatype Reply =
    | Receipted(receipt: Receipt)
    | Pending
    | Owned(token: nat)
    | Claimed(token: nat, completion: Completion)
    | Done
    | Failed(error: Error)

  predicate SameBytes(x: Submission, c: Command) {
    x.hash == c.hash && x.bytes == c.bytes
  }

  /** UNIQUE(domain_id,environment_id,environment_sequence) */
  predicate SequenceTaken(s: State, environment: Id, sequence: nat) {
    exists d ::
      d in s.submissions && s.submissions[d].environment == environment && s.submissions[d].sequence == sequence
  }

  function Status(s: State, id: Id): Reply {
    if id in s.receipts then Receipted(s.receipts[id]) else Pending
  }

  // ---------------------------------------------------------------- submit

  function Submitted(s: State, c: Command): State {
    s.(submissions := s.submissions[c.id := RowOf(c, false)],
       owners := s.owners[c.id := Execution(s.nextToken, None, false)], nextToken := s.nextToken + 1)
  }

  /** peer says whether the connection authenticates the Environment; before is what
      the operation's own pre-submission check returned. */
  function SubmitReply(s: State, c: Command, peer: bool, before: Option<Error>): Reply {
    if s.epoch != c.epoch then Failed(ErrFenced)
    else if !peer then Failed(ErrInvalidProof)
    else if c.id in s.submissions && !SameBytes(s.submissions[c.id], c) then Failed(ErrConflict)
    else if c.id in s.submissions then Status(s, c.id)
    else if before.Some? then Failed(before.value)
    else if c.repo !in s.members then Failed(ErrFenced)
    else if c.environment !in s.heads then Failed(ErrNotFound)
    else if c.sequence != s.heads[c.environment] + 1 then Failed(ErrPending)
    else if SequenceTaken(s, c.environment, c.sequence) then Failed(ErrConflict)
    else Owned(s.nextToken)
  }

  function Submit(s: State, c: Command, peer: bool, before: Option<Error>): State {
    if SubmitReply(s, c, peer, before).Owned? then Submitted(s, c) else s
  }

  // ---------------------------------------------------------------- owners

  function RecoverReply(s: State, c: Command): Reply {
    if c.id in s.owners then Failed(ErrNotOwner)
    else if c.id !in s.submissions then Failed(ErrNotFound)
    else if !SameBytes(s.submissions[c.id], c) then Failed(ErrConflict)
    else if s.submissions[c.id].terminal then Failed(ErrNotOwner)
    else Owned(s.nextToken)
  }

  function Recover(s: State, c: Command): State {
    if RecoverReply(s, c).Owned?
    then s.(owners := s.owners[c.id := Execution(s.nextToken, None, false)], nextToken := s.nextToken + 1)
    else s
  }

  predicate Owns(s: State, id: Id, token: nat) {
    id in s.owners && s.owners[id].token == token
  }

  predicate MayRelease(s: State, id: Id, token: nat) {
    && Owns(s, id, token) && s.owners[id].recorded.None? && !s.owners[id].running
    && id in s.submissions && !s.submissions[id].terminal
  }

  function ReleasePending(s: State, id: Id, token: nat): State {
    if MayRelease(s, id, token) then s.(owners := s.owners - {id}) else s
  }

  /** Another attempt may claim a recorded completion that is not running. */
  function ClaimReply(s: State, c: Command): Reply {
    if c.id !in s.owners || c.id !in s.submissions || s.submissions[c.id].lifecycle
       || s.owners[c.id].recorded.None? || s.owners[c.id].running then Pending
    else if !SameBytes(s.submissions[c.id], c) then Failed(ErrConflict)
    else Claimed(s.owners[c.id].token, s.owners[c.id].recorded.value)
  }

  function SetRunning(s: State, id: Id, running: bool): State
    requires id in s.owners
  {
    s.(owners := s.owners[id := s.owners[id].(running := running)])
  }

  function ClaimCompletion(s: State, c: Command): State {
    if ClaimReply(s, c).Claimed? then SetRunning(s, c.id, true) else s
  }

  function ReleaseClaimed(s: State, id: Id, token: nat): State {
    if Owns(s, id, token) && s.owners[id].recorded.Some? && s.owners[id].running then SetRunning(s, id, false) else s
  }

  // ---------------------------------------------------------------- completion

  /** The error every terminal transaction can return before its own fold. */
  function TerminalError(s: State, c: Command): Option<Error> {
    if c.id !in s.submissions || c.environment !in s.heads then Some(ErrNotFound)
    else if s.submissions[c.id].terminal || !SameBytes(s.submissions[c.id], c) then Some(ErrNotOwner)
    else if c.sequence != s.heads[c.environment] + 1 then Some(ErrPending)
    else if s.epoch != c.epoch then Some(ErrFenced)
    else None
  }

  /** finishCommandTx: the receipt, the terminal state and the head together. */
  function Finished(s: State, c: Command, completion: Option<Completion>): State
    requires c.id in s.submissions
  {
    s.(receipts := s.receipts[c.id := Receipt(c.id, c.hash, c.environment, c.sequence, completion)],
       submissions := s.submissions[c.id := s.submissions[c.id].(terminal := true)],
       heads := s.heads[c.environment := c.sequence],
       owners := s.owners - {c.id})
  }

  /** The fields the row's bytes decode to. */
  predicate IsFor(s: State, c: Command) {
    && c.id in s.submissions && s.submissions[c.id].environment == c.environment
    && s.submissions[c.id].sequence == c.sequence && s.submissions[c.id].epoch == c.epoch
    && s.submissions[c.id].lifecycle == c.lifecycle
  }

  /** The first completion offered to an execution is the one it keeps. */
  function Recorded(s: State, c: Command, completion: Completion): State
    requires c.id in s.owners
  {
    s.(owners := s.owners[c.id := s.owners[c.id].(recorded := Some(completion), running := false)])
  }

  /** fold is the error of the command's own fold or commit, None when it commits. */
  function CompleteReply(s: State, c: Command, token: nat, completion: Completion, fold: Option<Error>): Reply {
    if c.lifecycle || !IsFor(s, c) then Failed(ErrInvalidProof)
    else if !Owns(s, c.id, token) then Failed(ErrNotOwner)
    else if s.owners[c.id].recorded.Some? && s.owners[c.id].recorded.value != completion then Failed(ErrConflict)
    else if TerminalError(s, c).Some? then Failed(TerminalError(s, c).value)
    else if fold.Some? then Failed(fold.value)
    else Receipted(Receipt(c.id, c.hash, c.environment, c.sequence, Some(completion)))
  }

  /** A failed fold rolls the tables back but keeps the recorded completion. */
  function Complete(s: State, c: Command, token: nat, completion: Completion, fold: Option<Error>): State {
    if c.lifecycle || !IsFor(s, c) || !Owns(s, c.id, token)
       || (s.owners[c.id].recorded.Some? && s.owners[c.id].recorded.value != completion) then s
    else if CompleteReply(s, c, token, completion, fold).Receipted? then Finished(s, c, Some(completion))
    else Recorded(s, c, completion)
  }

  function CompleteLifecycle(s: State, c: Command, fold: Option<Error>): State {
    if !c.lifecycle || !IsFor(s, c) || c.id !in s.owners || TerminalError(s, c).Some? || fold.Some? then s
    else Finished(s, c, None)
  }

  /** A batch sweep, and a gate repair (public when it has a receipt), submit and
      finish in one transaction. */
  function Atomic(s: State, c: Command, peer: bool, public: bool): State {
    if s.epoch != c.epoch || !peer || c.id in s.submissions || c.repo !in s.members || c.environment !in s.heads
       || c.sequence != s.heads[c.environment] + 1 || SequenceTaken(s, c.environment, c.sequence) then s
    else
      s.(submissions := s.submissions[c.id := RowOf(c, true)],
         receipts := if public then s.receipts[c.id := Receipt(c.id, c.hash, c.environment, c.sequence, None)]
                     else s.receipts,
         heads := s.heads[c.environment := c.sequence])
  }

  datatype Op =
    | SubmitOp(c: Command, peer: bool, before: Option<Error>)
    | RecoverOp(c: Command)
    | ReleaseOp(id: Id, token: nat)
    | ClaimOp(c: Command)
    | UnclaimOp(id: Id, token: nat)
    | CompleteOp(c: Command, token: nat, completion: Completion, fold: Option<Error>)
    | LifecycleOp(c: Command, fold: Option<Error>)
    | AtomicOp(c: Command, peer: bool, public: bool)
    | RestartOp
    | EnrollOp(environment: Id)
    | MemberOp(repo: Id)
    | EpochOp(epoch: nat)

  function Apply(s: State, op: Op): State {
    match op
    case SubmitOp(c, peer, before) => Submit(s, c, peer, before)
    case RecoverOp(c) => Recover(s, c)
    case ReleaseOp(id, token) => ReleasePending(s, id, token)
    case ClaimOp(c) => ClaimCompletion(s, c)
    case UnclaimOp(id, token) => ReleaseClaimed(s, id, token)
    case CompleteOp(c, token, completion, fold) => Complete(s, c, token, completion, fold)
    case LifecycleOp(c, fold) => CompleteLifecycle(s, c, fold)
    case AtomicOp(c, peer, public) => Atomic(s, c, peer, public)
    case RestartOp => s.(owners := map[])
    case EnrollOp(e) => if e in s.heads then s else s.(heads := s.heads[e := 0])
    case MemberOp(repo) => s.(members := s.members + {repo})
    case EpochOp(epoch) => if epoch > s.epoch then s.(epoch := epoch) else s
  }

  function Run(ops: seq<Op>): State {
    if ops == [] then State(1, {}, map[], map[], map[], map[], 0)
    else Apply(Run(ops[..|ops| - 1]), ops[|ops| - 1])
  }

  // ---------------------------------------------------------------- what every step keeps

  /** done lists an Environment's terminal commands in sequence order; waiting
      names its one pending command, if any. */
  datatype Index = Index(done: map<Id, seq<Id>>, waiting: map<Id, Id>)

  ghost predicate SubmissionIndexed(id: Id, x: Submission, heads: map<Id, nat>, k: Index) {
    && x.environment in heads && x.environment in k.done
    && (x.terminal ==> 1 <= x.sequence <= |k.done[x.environment]| && k.done[x.environment][x.sequence - 1] == id)
    && (!x.terminal
        ==> x.sequence == heads[x.environment] + 1 && x.environment in k.waiting && k.waiting[x.environment] == id)
  }

  ghost predicate DoneLink(subs: map<Id, Submission>, e: Id, ids: seq<Id>, i: nat)
    requires i < |ids|
  {
    ids[i] in subs && subs[ids[i]].terminal && subs[ids[i]].environment == e && subs[ids[i]].sequence == i + 1
  }

  ghost predicate TablesOk(heads: map<Id, nat>, subs: map<Id, Submission>, k: Index) {
    && k.done.Keys == heads.Keys && (forall e | e in heads :: |k.done[e]| == heads[e])
    && (forall id | id in subs :: SubmissionIndexed(id, subs[id], heads, k))
    && (forall e, i | e in k.done && 0 <= i < |k.done[e]| :: DoneLink(subs, e, k.done[e], i))
  }

  ghost predicate ReceiptOk(r: Receipt, id: Id, subs: map<Id, Submission>) {
    && id in subs && subs[id].terminal && r.id == id && r.hash == subs[id].hash
    && r.environment == subs[id].environment && r.sequence == subs[id].sequence
  }

  ghost predicate Tables(heads: map<Id, nat>, subs: map<Id, Submission>) {
    exists k :: TablesOk(heads, subs, k)
  }

  ghost predicate ReceiptsOk(receipts: map<Id, Receipt>, subs: map<Id, Submission>) {
    forall id | id in receipts :: ReceiptOk(receipts[id], id, subs)
  }

  ghost predicate OwnersOk(owners: map<Id, Execution>, subs: map<Id, Submission>, next: nat) {
    forall id | id in owners :: id in subs && !subs[id].terminal && owners[id].token < next
  }

  ghost predicate Inv(s: State) {
    && Tables(s.heads, s.submissions)
    && ReceiptsOk(s.receipts, s.submissions)
    && OwnersOk(s.owners, s.submissions, s.nextToken)
  }

  ghost predicate TerminalAt(s: State, id: Id, e: Id, n: nat) {
    id in s.submissions && s.submissions[id].terminal && s.submissions[id].environment == e
    && s.submissions[id].sequence == n
  }

  ghost predicate SequenceUsedOnce(s: State, e: Id, n: nat) {
    exists id :: TerminalAt(s, id, e, n) && forall d | TerminalAt(s, d, e, n) :: d == id
  }

  lemma SubmissionPlaced(s: State, k: Index, id: Id)
    requires TablesOk(s.heads, s.submissions, k) && id in s.submissions
    ensures SubmissionIndexed(id, s.submissions[id], s.heads, k)
  {
  }

  /** Every sequence up to the head is used by exactly one terminal command. */
  lemma SequencesExact(s: State, e: Id, n: nat)
    requires Inv(s) && e in s.heads && 1 <= n <= s.heads[e]
    ensures SequenceUsedOnce(s, e, n)
  {
    var k :| TablesOk(s.heads, s.submissions, k);
    assert DoneLink(s.submissions, e, k.done[e], n - 1);
    assert TerminalAt(s, k.done[e][n - 1], e, n);
    forall d | TerminalAt(s, d, e, n)
      ensures d == k.done[e][n - 1]
    {
      SubmissionPlaced(s, k, d);
    }
  }

  /** No terminal command lies beyond the head, and the pending command, of which
      there is at most one, waits right after it. */
  lemma PendingWaitsAtHead(s: State, a: Id, b: Id)
    requires Inv(s) && a in s.submissions && b in s.submissions
             && s.submissions[a].environment == s.submissions[b].environment
    ensures s.submissions[a].environment in s.heads
    ensures s.submissions[a].terminal <==> 1 <= s.submissions[a].sequence <= s.heads[s.submissions[a].environment]
    ensures !s.submissions[a].terminal ==> s.submissions[a].sequence == s.heads[s.submissions[a].environment] + 1
    ensures !s.submissions[a].terminal && !s.submissions[b].terminal ==> a == b
  {
    var k :| TablesOk(s.heads, s.submissions, k);
    SubmissionPlaced(s, k, a);
    SubmissionPlaced(s, k, b);
  }

  lemma PendingAdded(heads: map<Id, nat>, subs: map<Id, Submission>, k: Index, id: Id, x: Submission)
    requires TablesOk(heads, subs, k) && id !in subs && !x.terminal
    requires x.environment in heads && x.sequence == heads[x.environment] + 1
    requires forall d | d in subs && subs[d].environment == x.environment :: subs[d].sequence != x.sequence
    ensures TablesOk(heads, subs[id := x], k.(waiting := k.waiting[x.environment := id]))
  {
    var after, l := subs[id := x], k.(waiting := k.waiting[x.environment := id]);
    forall d | d in after
      ensures SubmissionIndexed(d, after[d], heads, l)
    {
      if d != id {
        assert SubmissionIndexed(d, subs[d], heads, k);
      }
    }
    forall e, i | e in l.done && 0 <= i < |l.done[e]|
      ensures DoneLink(after, e, l.done[e], i)
    {
      assert DoneLink(subs, e, k.done[e], i);
    }
  }

  /** Committing the command at head + 1 moves the head exactly over it. */
  lemma TerminalAdded(heads: map<Id, nat>, subs: map<Id, Submission>, k: Index, id: Id, x: Submission)
    requires TablesOk(heads, subs, k) && x.terminal
    requires x.environment in heads && x.sequence == heads[x.environment] + 1
    requires id in subs ==> subs[id] == x.(terminal := false)
    requires forall d | d in subs && subs[d].environment == x.environment && subs[d].sequence == x.sequence :: d == id
    ensures TablesOk(heads[x.environment := x.sequence], subs[id := x],
                     k.(done := k.done[x.environment := k.done[x.environment] + [id]]))
  {
    var e := x.environment;
    var after, moved, l := subs[id := x], heads[e := x.sequence], k.(done := k.done[e := k.done[e] + [id]]);
    forall d | d in after
      ensures SubmissionIndexed(d, after[d], moved, l)
    {
      if d != id {
        assert SubmissionIndexed(d, subs[d], heads, k);
      }
    }
    forall f, i | f in l.done && 0 <= i < |l.done[f]|
      ensures DoneLink(after, f, l.done[f], i)
    {
      if f != e || i < |k.done[e]| {
        assert DoneLink(subs, f, k.done[f], i);
      }
    }
  }

  lemma HeadIsFree(s: State, c: Command)
    requires Inv(s) && IsFor(s, c) && !s.submissions[c.id].terminal
    ensures c.environment in s.heads && c.sequence == s.heads[c.environment] + 1
    ensures forall d | d in s.submissions && s.submissions[d].environment == c.environment
                       && s.submissions[d].sequence == c.sequence :: d == c.id
  {
    var k :| TablesOk(s.heads, s.submissions, k);
    assert SubmissionIndexed(c.id, s.submissions[c.id], s.heads, k);
    forall d | d in s.submissions && s.submissions[d].environment == c.environment
               && s.submissions[d].sequence == c.sequence
      ensures d == c.id
    {
      assert SubmissionIndexed(d, s.submissions[d], s.heads, k);
    }
  }

  lemma FinishKeepsInv(s: State, c: Command, completion: Option<Completion>)
    requires Inv(s) && IsFor(s, c) && TerminalError(s, c).None?
    ensures Inv(Finished(s, c, completion))
  {
    HeadIsFree(s, c);
    FinishTables(s.heads, s.submissions, c.id, s.submissions[c.id].(terminal := true));
    var t := Finished(s, c, completion);
    forall id | id in t.receipts
      ensures ReceiptOk(t.receipts[id], id, t.submissions)
    {
      if id != c.id {
        assert ReceiptOk(s.receipts[id], id, s.submissions);
      }
    }
  }

  lemma FinishTables(heads: map<Id, nat>, subs: map<Id, Submission>, id: Id, x: Submission)
    requires Tables(heads, subs) && x.terminal
    requires x.environment in heads && x.sequence == heads[x.environment] + 1
    requires id in subs ==> subs[id] == x.(terminal := false)
    requires forall d | d in subs && subs[d].environment == x.environment && subs[d].sequence == x.sequence :: d == id
    ensures Tables(heads[x.environment := x.sequence], subs[id := x])
  {
    var k :| TablesOk(heads, subs, k);
    TerminalAdded(heads, subs, k, id, x);
  }

  lemma SubmitKeepsInv(s: State, c: Command)
    requires Inv(s) && c.id !in s.submissions && c.environment in s.heads && c.sequence == s.heads[c.environment] + 1
    requires !SequenceTaken(s, c.environment, c.sequence)
    ensures Inv(Submitted(s, c))
  {
    var k :| TablesOk(s.heads, s.submissions, k);
    PendingAdded(s.heads, s.submissions, k, c.id, Submitted(s, c).submissions[c.id]);
  }

  lemma AtomicKeepsInv(s: State, c: Command, peer: bool, public: bool)
    requires Inv(s)
    ensures Inv(Atomic(s, c, peer, public))
  {
    var t := Atomic(s, c, peer, public);
    if t != s {
      FinishTables(s.heads, s.submissions, c.id, t.submissions[c.id]);
      forall id | id in t.receipts
        ensures ReceiptOk(t.receipts[id], id, t.submissions)
      {
        if id != c.id {
          assert ReceiptOk(s.receipts[id], id, s.submissions);
        }
      }
    }
  }

  lemma EnrollKeepsInv(s: State, e: Id)
    requires Inv(s) && e !in s.heads
    ensures Inv(s.(heads := s.heads[e := 0]))
  {
    var k :| TablesOk(s.heads, s.submissions, k);
    var t, l := s.(heads := s.heads[e := 0]), k.(done := k.done[e := []]);
    forall d | d in s.submissions
      ensures SubmissionIndexed(d, s.submissions[d], t.heads, l)
    {
      assert SubmissionIndexed(d, s.submissions[d], s.heads, k);
    }
    forall f, i | f in l.done && 0 <= i < |l.done[f]|
      ensures DoneLink(s.submissions, f, l.done[f], i)
    {
      assert DoneLink(s.submissions, f, k.done[f], i);
    }
    assert TablesOk(t.heads, t.submissions, l);
  }

  lemma OwnerStepKeepsInv(s: State, op: Op)
    requires Inv(s) && (op.RecoverOp? || op.ReleaseOp? || op.ClaimOp? || op.UnclaimOp? || op.RestartOp?)
    ensures Inv(Apply(s, op))
  {
  }

  lemma CompleteKeepsInv(s: State, c: Command, token: nat, completion: Completion, fold: Option<Error>)
    requires Inv(s)
    ensures Inv(Complete(s, c, token, completion, fold))
  {
    if CompleteReply(s, c, token, completion, fold).Receipted? {
      FinishKeepsInv(s, c, Some(completion));
    }
  }

  lemma ApplyKeepsInv(s: State, op: Op)
    requires Inv(s)
    ensures Inv(Apply(s, op))
  {
    match op
    case SubmitOp(c, peer, before) =>
      if SubmitReply(s, c, peer, before).Owned? {
        SubmitKeepsInv(s, c);
      }
    case CompleteOp(c, token, completion, fold) => CompleteKeepsInv(s, c, token, completion, fold);
    case LifecycleOp(c, fold) =>
      if IsFor(s, c) && TerminalError(s, c).None? {
        FinishKeepsInv(s, c, None);
      }
    case AtomicOp(c, peer, public) => AtomicKeepsInv(s, c, peer, public);
    case EnrollOp(e) =>
      if e !in s.heads {
        EnrollKeepsInv(s, e);
      }
    case MemberOp(repo) =>
    case EpochOp(epoch) =>
    case _ => OwnerStepKeepsInv(s, op);
  }

  lemma {:induction false} RunKeepsInv(ops: seq<Op>)
    ensures Inv(Run(ops))
  {
    if ops == [] {
      assert TablesOk(map[], map[], Index(map[], map[]));
    } else {
      RunKeepsInv(ops[..|ops| - 1]);
      ApplyKeepsInv(Run(ops[..|ops| - 1]), ops[|ops| - 1]);
    }
  }

  // ---------------------------------------------------------------- receipts and replay

  lemma ReceiptKept(s: State, op: Op, id: Id)
    requires Inv(s) && id in s.receipts
    ensures id in Apply(s, op).receipts && Apply(s, op).receipts[id] == s.receipts[id]
  {
    assert ReceiptOk(s.receipts[id], id, s.submissions);
  }

  /** A receipt once written never changes, whatever the store does next. */
  lemma {:induction false} ReceiptForever(ops: seq<Op>, n: nat, id: Id)
    requires n <= |ops| && id in Run(ops[..n]).receipts
    ensures id in Run(ops).receipts && Run(ops).receipts[id] == Run(ops[..n]).receipts[id]
  {
    if n < |ops| {
      var m := |ops| - 1;
      assert ops[..m][..n] == ops[..n];
      ReceiptForever(ops[..m], n, id);
      RunKeepsInv(ops[..m]);
      ReceiptKept(Run(ops[..m]), ops[m], id);
    } else {
      assert ops[..n] == ops;
    }
  }

  lemma RunOnward(ops: seq<Op>, op: Op)
    ensures Run(ops + [op]) == Apply(Run(ops), op)
  {
    assert (ops + [op])[..|ops|] == ops;
  }

  lemma RowKept(s: State, op: Op, id: Id)
    requires id in s.submissions
    ensures id in Apply(s, op).submissions
    ensures Apply(s, op).submissions[id] == s.submissions[id].(terminal := Apply(s, op).submissions[id].terminal)
  {
  }

  /** A submission once made keeps its bytes, Environment and sequence. */
  lemma {:induction false} RowForever(ops: seq<Op>, n: nat, id: Id)
    requires n <= |ops| && id in Run(ops[..n]).submissions
    ensures id in Run(ops).submissions
    ensures Run(ops).submissions[id] == Run(ops[..n]).submissions[id].(terminal := Run(ops).submissions[id].terminal)
  {
    if n < |ops| {
      var m := |ops| - 1;
      assert ops[..m][..n] == ops[..n];
      RowForever(ops[..m], n, id);
      RowKept(Run(ops[..m]), ops[m], id);
    } else {
      assert ops[..n] == ops;
    }
  }

  /** Once a command is submitted, whatever the store does next, no later submit of its
      id makes a second row or owner, whoever sends it; an exact replay answers Pending or
      the one receipt, and other bytes conflict. */
  lemma ReplayIsExact(ops: seq<Op>, n: nat, c: Command, peer: bool, before: Option<Error>)
    requires n <= |ops| && c.id in Run(ops[..n]).submissions
    ensures Run(ops + [SubmitOp(c, peer, before)]) == Run(ops)
    ensures peer && Run(ops).epoch == c.epoch ==>
              SubmitReply(Run(ops), c, peer, before)
              == if !SameBytes(Run(ops[..n]).submissions[c.id], c) then Failed(ErrConflict)
                 else if c.id in Run(ops).receipts then Receipted(Run(ops).receipts[c.id])
                 else Pending
    ensures c.id in Run(ops[..n]).receipts ==>
              c.id in Run(ops).receipts && Run(ops).receipts[c.id] == Run(ops[..n]).receipts[c.id]
  {
    RowForever(ops, n, c.id);
    RunOnward(ops, SubmitOp(c, peer, before));
    SubmitAgain(Run(ops), c, peer, before);
    if c.id in Run(ops[..n]).receipts {
      ReceiptForever(ops, n, c.id);
    }
  }

  lemma SubmitAgain(s: State, c: Command, peer: bool, before: Option<Error>)
    requires c.id in s.submissions
    ensures Apply(s, SubmitOp(c, peer, before)) == s
    ensures peer && s.epoch == c.epoch ==>
              SubmitReply(s, c, peer, before)
              == if SameBytes(s.submissions[c.id], c) then Status(s, c.id) else Failed(ErrConflict)
  {
  }

  // ---------------------------------------------------------------- the epoch fence

  predicate IsTerminal(s: State, id: Id) {
    id in s.submissions && s.submissions[id].terminal
  }

  lemma ReceiptIsTerminal(s: State, id: Id)
    requires Inv(s)
    ensures id in s.receipts ==> IsTerminal(s, id)
  {
  }

  /** The command is finished in t and was not in s. */
  ghost predicate Finishes(s: State, t: State, id: Id) {
    (id in t.receipts && id !in s.receipts) || (IsTerminal(t, id) && !IsTerminal(s, id))
  }

  lemma FinisherIs(s: State, op: Op, id: Id)
    requires Finishes(s, Apply(s, op), id)
    ensures (op.CompleteOp? || op.LifecycleOp? || op.AtomicOp?) && op.c.id == id && Apply(s, op) != s
  {
  }

  /** The command is terminal now, under the current epoch, and the head stands at it. */
  ghost predicate FinishedNow(s: State, t: State, id: Id) {
    && IsTerminal(t, id) && !IsTerminal(s, id) && t.submissions[id].epoch == s.epoch
    && t.heads == s.heads[t.submissions[id].environment := t.submissions[id].sequence]
  }

  lemma CompleteIsCurrent(s: State, c: Command, token: nat, completion: Completion, fold: Option<Error>)
    requires Inv(s) && Finishes(s, Complete(s, c, token, completion, fold), c.id)
    ensures FinishedNow(s, Complete(s, c, token, completion, fold), c.id)
  {
    ReceiptIsTerminal(s, c.id);
  }

  /** Whatever makes a command terminal, or writes its receipt, is of the current epoch,
      and moves the head of its Environment to it. */
  lemma TerminalIsCurrent(s: State, op: Op, id: Id)
    requires Inv(s) && Finishes(s, Apply(s, op), id)
    ensures FinishedNow(s, Apply(s, op), id)
  {
    FinisherIs(s, op, id);
    if op.CompleteOp? {
      CompleteIsCurrent(s, op.c, op.token, op.completion, op.fold);
    }
  }

  /** A row appears only for an authenticated command of the current epoch, from a member
      Repo and an enrolled Environment, next after its head. */
  lemma FreshIsCurrent(s: State, op: Op, id: Id)
    requires id !in s.submissions && id in Apply(s, op).submissions
    ensures (op.SubmitOp? && op.before.None?) || op.AtomicOp?
    ensures op.c.id == id && op.peer && op.c.epoch == s.epoch && op.c.repo in s.members
    ensures op.c.environment in s.heads && op.c.sequence == s.heads[op.c.environment] + 1
    ensures Apply(s, op).submissions[id] == RowOf(op.c, op.AtomicOp?)
  {
  }

  /** Pending under an epoch that is over. */
  ghost predicate Fenced(s: State, id: Id) {
    id in s.submissions && !s.submissions[id].terminal && s.submissions[id].epoch < s.epoch
  }

  lemma FencedStays(s: State, op: Op, id: Id)
    requires Inv(s) && Fenced(s, id)
    ensures var t := Apply(s, op);
            && Fenced(t, id) && t.submissions[id] == s.submissions[id] && id !in t.receipts
            && s.submissions[id].environment in s.heads && s.submissions[id].environment in t.heads
            && t.heads[s.submissions[id].environment] == s.heads[s.submissions[id].environment]
  {
    PendingWaitsAtHead(s, id, id);
    ReceiptIsTerminal(s, id);
    RowKept(s, op, id);
    var t := Apply(s, op);
    if IsTerminal(t, id) || id in t.receipts {
      TerminalIsCurrent(s, op, id);
    }
    FencedHeadStays(s, op, id, s.submissions[id].environment);
  }

  /** The fenced command keeps its place, so nothing else of its Environment gets past it. */
  lemma FencedHeadStays(s: State, op: Op, id: Id, e: Id)
    requires Inv(s) && Fenced(s, id) && s.submissions[id].environment == e && e in s.heads
    ensures e in Apply(s, op).heads && Apply(s, op).heads[e] == s.heads[e]
  {
    PendingWaitsAtHead(s, id, id);
    if (op.CompleteOp? || op.LifecycleOp?) && op.c.id in s.submissions && s.submissions[op.c.id].environment == e {
      PendingWaitsAtHead(s, op.c.id, id);
    }
  }

  /** In every run: a command still pending when its epoch ends is never completed; its
      row and the head of its Environment stay as they are. */
  lemma {:induction false} FencedForever(ops: seq<Op>, n: nat, id: Id)
    requires n <= |ops| && Fenced(Run(ops[..n]), id)
    ensures var s, t := Run(ops[..n]), Run(ops);
            && Fenced(t, id) && t.submissions[id] == s.submissions[id] && id !in t.receipts
            && s.submissions[id].environment in s.heads && s.submissions[id].environment in t.heads
            && t.heads[s.submissions[id].environment] == s.heads[s.submissions[id].environment]
  {
    if n < |ops| {
      var m := |ops| - 1;
      assert ops[..m][..n] == ops[..n];
      FencedForever(ops[..m], n, id);
      RunKeepsInv(ops[..m]);
      FencedStays(Run(ops[..m]), ops[m], id);
    } else {
      assert ops[..n] == ops;
      RunKeepsInv(ops);
      PendingHasNoReceipt(Run(ops), id);
    }
  }

  lemma PendingHasNoReceipt(s: State, id: Id)
    requires Inv(s) && id in s.submissions && !s.submissions[id].terminal
    ensures id !in s.receipts && s.submissions[id].environment in s.heads
  {
    PendingWaitsAtHead(s, id, id);
    ReceiptIsTerminal(s, id);
  }

  // ---------------------------------------------------------------- exactly what is accepted

  /** A submission is accepted exactly when it is new, authenticated, admitted, of the
      current epoch, and next in an Environment with nothing pending. */
  lemma SubmitExactly(s: State, c: Command, peer: bool, before: Option<Error>)
    requires Inv(s)
    ensures SubmitReply(s, c, peer, before).Owned? <==>
              && c.id !in s.submissions && peer && before.None? && c.epoch == s.epoch && c.repo in s.members
              && c.environment in s.heads && c.sequence == s.heads[c.environment] + 1
              && forall d | d in s.submissions && s.submissions[d].environment == c.environment ::
                   s.submissions[d].terminal
  {
    forall d | d in s.submissions
      ensures s.submissions[d].environment in s.heads
      ensures !s.submissions[d].terminal <==>
                s.submissions[d].sequence == s.heads[s.submissions[d].environment] + 1
    {
      PendingWaitsAtHead(s, d, d);
    }
  }

  /** A completion is committed exactly for the pending command itself, by the handle that
      holds it, if it recorded no other, in the command's own epoch; the head need not be
      asked. */
  lemma CompleteExactly(s: State, c: Command, token: nat, completion: Completion, fold: Option<Error>)
    requires Inv(s)
    ensures CompleteReply(s, c, token, completion, fold).Receipted? <==>
              && !c.lifecycle && c.id in s.submissions && s.submissions[c.id] == RowOf(c, false)
              && c.id in s.owners && s.owners[c.id].token == token
              && (s.owners[c.id].recorded.None? || s.owners[c.id].recorded == Some(completion))
              && fold.None? && c.epoch == s.epoch
    ensures CompleteReply(s, c, token, completion, fold).Receipted? ==>
              Complete(s, c, token, completion, fold)
              == s.(receipts := s.receipts[c.id := Receipt(c.id, c.hash, c.environment, c.sequence, Some(completion))],
                    submissions := s.submissions[c.id := RowOf(c, true)],
                    heads := s.heads[c.environment := c.sequence], owners := s.owners - {c.id})
  {
    if c.id in s.submissions {
      PendingWaitsAtHead(s, c.id, c.id);
    }
  }

  /** A handle is recovered exactly for a pending command, by its exact bytes, when no
      handle holds it; a recorded completion is claimed exactly by the exact bytes, when it
      is not running. */
  lemma HandlesExactly(s: State, c: Command)
    requires Inv(s)
    ensures RecoverReply(s, c).Owned? <==>
              && c.id in s.submissions && !s.submissions[c.id].terminal && c.id !in s.owners
              && s.submissions[c.id].hash == c.hash && s.submissions[c.id].bytes == c.bytes
    ensures RecoverReply(s, c).Owned? ==>
              Recover(s, c).owners == s.owners[c.id := Execution(s.nextToken, None, false)]
              && RecoverReply(s, c) == Owned(s.nextToken) && forall d | d in s.owners :: s.owners[d].token < s.nextToken
    ensures forall token, x :: ClaimReply(s, c) == Claimed(token, x) <==>
              && c.id in s.owners && s.owners[c.id] == Execution(token, Some(x), false)
              && !s.submissions[c.id].lifecycle
              && s.submissions[c.id].hash == c.hash && s.submissions[c.id].bytes == c.bytes
    ensures ClaimReply(s, c).Claimed? ==>
              c.id in s.owners
              && ClaimCompletion(s, c) == s.(owners := s.owners[c.id := s.owners[c.id].(running := true)])
  {
  }

  // ---------------------------------------------------------------- the first completion wins

  /** The command is finished with this completion, or the same execution still
      holds it and nothing else. */
  ghost predicate Bound(s: State, id: Id, token: nat, completion: Completion) {
    if id in s.receipts then s.receipts[id].completion == Some(completion)
    else id in s.submissions && !s.submissions[id].terminal && !s.submissions[id].lifecycle
         && Owns(s, id, token) && s.owners[id].recorded == Some(completion)
  }

  lemma StepKeepsBound(s: State, op: Op, id: Id, token: nat, completion: Completion)
    requires Inv(s) && Bound(s, id, token, completion) && !op.RestartOp?
    ensures Bound(Apply(s, op), id, token, completion)
  {
    if id in s.receipts {
      ReceiptKept(s, op, id);
    } else if op.CompleteOp? {
      CompleteKeepsBound(s, op.c, op.token, op.completion, op.fold, id, token, completion);
    } else {
      OtherKeepsBound(s, op, id, token, completion);
    }
  }

  lemma CompleteKeepsBound(s: State, c: Command, holder: nat, offered: Completion, fold: Option<Error>, id: Id,
                           token: nat, completion: Completion)
    requires Bound(s, id, token, completion) && id !in s.receipts
    ensures Bound(Complete(s, c, holder, offered, fold), id, token, completion)
  {
  }

  lemma OtherKeepsBound(s: State, op: Op, id: Id, token: nat, completion: Completion)
    requires Bound(s, id, token, completion) && id !in s.receipts && !op.RestartOp? && !op.CompleteOp?
    ensures Bound(Apply(s, op), id, token, completion)
  {
  }

  /** Within one handle, once a completion is recorded for a command no other can
      be committed for it, however calls, retries and failures interleave. */
  lemma {:induction false} FirstCompletionWins(ops: seq<Op>, n: nat, id: Id, token: nat, completion: Completion)
    requires n <= |ops| && Bound(Run(ops[..n]), id, token, completion)
    requires forall i | n <= i < |ops| :: !ops[i].RestartOp?
    ensures Bound(Run(ops), id, token, completion)
    ensures id in Run(ops).receipts ==> Run(ops).receipts[id].completion == Some(completion)
  {
    if n < |ops| {
      var m := |ops| - 1;
      assert ops[..m][..n] == ops[..n];
      FirstCompletionWins(ops[..m], n, id, token, completion);
      BoundOnward(ops, m, id, token, completion);
    } else {
      assert ops[..n] == ops;
    }
  }

  lemma BoundOnward(ops: seq<Op>, m: nat, id: Id, token: nat, completion: Completion)
    requires |ops| == m + 1 && Bound(Run(ops[..m]), id, token, completion) && !ops[m].RestartOp?
    ensures Bound(Run(ops), id, token, completion)
  {
    RunKeepsInv(ops[..m]);
    StepKeepsBound(Run(ops[..m]), ops[m], id, token, completion);
  }

  lemma RestartForgetsAt(s: State, c: Command, first: Completion, second: Completion)
    requires Inv(s) && IsFor(s, c) && !c.lifecycle && SameBytes(s.submissions[c.id], c) && s.epoch == c.epoch
    requires c.id in s.owners && Bound(s, c.id, s.owners[c.id].token, first) && c.id !in s.receipts
    ensures var t := Apply(Apply(Apply(s, RestartOp), RecoverOp(c)), CompleteOp(c, s.nextToken, second, None));
            c.id in t.receipts && t.receipts[c.id].completion == Some(second)
  {
    HeadIsFree(s, c);
  }

  /** FirstCompletionWins needs its condition: in any run, one restart later the same
      command is recovered and commits any other completion. */
  lemma RestartForgets(ops: seq<Op>, c: Command, first: Completion, second: Completion)
    requires var s := Run(ops);
             && IsFor(s, c) && !c.lifecycle && SameBytes(s.submissions[c.id], c) && s.epoch == c.epoch
             && c.id in s.owners && Bound(s, c.id, s.owners[c.id].token, first) && c.id !in s.receipts
    ensures var t := Run(ops + [RestartOp] + [RecoverOp(c)] + [CompleteOp(c, Run(ops).nextToken, second, None)]);
            c.id in t.receipts && t.receipts[c.id].completion == Some(second)
  {
    RunKeepsInv(ops);
    RestartForgetsAt(Run(ops), c, first, second);
    RunOnward(ops, RestartOp);
    RunOnward(ops + [RestartOp], RecoverOp(c));
    RunOnward(ops + [RestartOp] + [RecoverOp(c)], CompleteOp(c, Run(ops).nextToken, second, None));
  }

  // ---------------------------------------------------------------- the store

  class SubmissionStore {
    var epoch: nat
    var members: set<Id>
    var heads: map<Id, nat>
    var submissions: map<Id, Submission>
    var receipts: map<Id, Receipt>
    var owners: map<Id, Execution>
    var nextToken: nat

    function View(): State
      reads this
    {
      State(epoch, members, heads, submissions, receipts, owners, nextToken)
    }

    method SubmitIdentity(c: Command, peer: bool, before: Option<Error>) returns (reply: Reply)
      modifies this`submissions, this`owners, this`nextToken
      ensures View() == Apply(old(View()), SubmitOp(c, peer, before))
      ensures reply == SubmitReply(old(View()), c, peer, before)
    {
      if epoch != c.epoch {
        return Failed(ErrFenced);
      }
      if !peer {
        return Failed(ErrInvalidProof);
      }
      if c.id in submissions {
        if !SameBytes(submissions[c.id], c) {
          return Failed(ErrConflict);
        }
        return Status(View(), c.id);
      }
      if before.Some? {
        return Failed(before.value);
      }
      if c.repo !in members {
        return Failed(ErrFenced);
      }
      if c.environment !in heads {
        return Failed(ErrNotFound);
      }
      if c.sequence != heads[c.environment] + 1 {
        return Failed(ErrPending);
      }
      if SequenceTaken(View(), c.environment, c.sequence) {
        return Failed(ErrConflict);
      }
      submissions := submissions[c.id := RowOf(c, false)];
      owners := owners[c.id := Execution(nextToken, None, false)];
      reply := Owned(nextToken);
      nextToken := nextToken + 1;
    }

    /** Record the completion first, then try to commit it. */
    method CompleteCommand(c: Command, token: nat, completion: Completion, fold: Option<Error>) returns (reply: Reply)
      modifies this`submissions, this`receipts, this`heads, this`owners
      ensures View() == Apply(old(View()), CompleteOp(c, token, completion, fold))
      ensures reply == CompleteReply(old(View()), c, token, completion, fold)
    {
      ghost var s := View();
      if c.lifecycle || !IsFor(View(), c) {
        return Failed(ErrInvalidProof);
      }
      if !Owns(View(), c.id, token) {
        return Failed(ErrNotOwner);
      }
      if owners[c.id].recorded.Some? && owners[c.id].recorded.value != completion {
        return Failed(ErrConflict);
      }
      owners := owners[c.id := owners[c.id].(recorded := Some(completion), running := true)];
      var error := fold;
      if c.environment !in heads {
        error := Some(ErrNotFound);
      } else if submissions[c.id].terminal || submissions[c.id].hash != c.hash || submissions[c.id].bytes != c.bytes {
        error := Some(ErrNotOwner);
      } else if c.sequence != heads[c.environment] + 1 {
        error := Some(ErrPending);
      } else if epoch != c.epoch {
        error := Some(ErrFenced);
      }
      if error.Some? {
        owners := owners[c.id := owners[c.id].(running := false)];
        assert View() == Recorded(s, c, completion);
        return Failed(error.value);
      }
      var receipt := Receipt(c.id, c.hash, c.environment, c.sequence, Some(completion));
      receipts := receipts[c.id := receipt];
      submissions := submissions[c.id := submissions[c.id].(terminal := true)];
      heads := heads[c.environment := c.sequence];
      owners := owners - {c.id};
      assert owners == s.owners - {c.id};
      reply := Receipted(receipt);
    }
  }
}
