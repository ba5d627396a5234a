/** Runs of the claim protocol, and the store whose methods take its steps. */
module ClaimRuns {
  import opened Common
  import opened Barrier
  import opened Ulid
  import opened Claims

  datatype Op =
    | AcquireOp(request: AcquireRequest)
    | AppendOp(journal: Id, position: nat, command: JournalCommand)
    | AckOp(journal: Id, position: nat, receipt: Receipt, end: Anchor)
    | OwnedAckOp(holder: Identity, position: nat, receipt: Receipt, end: Anchor)
    | SealOp(journal: Id)
    | OwnedSealOp(holder: Identity, blocked: bool)
    | ReleaseOp(lifecycle: Lifecycle, barrier: BarrierClaim, blocked: bool)
    | StandDownOp(lifecycle: Lifecycle, standDown: StandDown)
    | RepairOp(lifecycle: Lifecycle, repair: Repair)
    | OtherOp

  /** Any other transaction of the store: it may advance the tables the claim
      protocol only reads, and writes none of its own. */
  ghost predicate OtherStep(s: State, t: State) {
    && t.claims == s.claims && t.journals == s.journals && t.nonces == s.nonces
    && (forall m | m in s.matters :: m in t.matters && t.matters[m] == s.matters[m])
    && (forall c | c in s.receipts :: c in t.receipts && t.receipts[c] == s.receipts[c])
    && s.submissions <= t.submissions && s.prefixes <= t.prefixes
  }

  function ErrorReply(e: Option<Error>): Reply {
    match e
    case None => Done
    case Some(error) => Rolled(error)
  }

  ghost predicate Step(s: State, op: Op, t: State, reply: Reply) {
    match op
    case AcquireOp(r) => AcquireStep(s, r, t, reply)
    case AppendOp(j, p, c) => t == Append(s, j, p, c) && reply == ErrorReply(AppendError(s, j, p, c))
    case AckOp(j, p, r, e) => t == Ack(s, j, p, r, e) && reply == ErrorReply(AckError(s, j, p, r, e))
    case OwnedAckOp(h, p, r, e) => t == OwnedAck(s, h, p, r, e) && reply == ErrorReply(OwnedAckError(s, h, p, r, e))
    case SealOp(j) => SealStep(s, j, t, reply)
    case OwnedSealOp(h, blocked) => OwnedSealStep(s, h, blocked, t, reply)
    case ReleaseOp(c, b, blocked) => ReleaseStep(s, c, b, blocked, t, reply)
    case StandDownOp(c, x) => t == StoodDown(s, c, x) && reply == StandDownReply(s, c, x)
    case RepairOp(c, r) => t == RepairedIf(s, c, r) && reply == RepairReply(s, c, r)
    case OtherOp => OtherStep(s, t)
  }

  lemma StepKeepsInv(s: State, op: Op, t: State, reply: Reply)
    requires Inv(s) && Step(s, op, t, reply)
    ensures Inv(t)
  {
    match op
    case AcquireOp(r) => AcquireKeepsInv(s, r, t, reply);
    case AppendOp(j, p, c) => AppendKeepsInv(s, j, p, c);
    case AckOp(j, p, r, e) => AckKeepsInv(s, j, p, r, e);
    case OwnedAckOp(h, p, r, e) => OwnedAckKeepsInv(s, h, p, r, e);
    case SealOp(j) => SealStepKeepsInv(s, j, t, reply);
    case OwnedSealOp(h, blocked) => OwnedSealKeepsInv(s, h, blocked, t, reply);
    case ReleaseOp(c, b, blocked) => ReleaseKeepsInv(s, c, b, blocked, t, reply);
    case StandDownOp(c, x) => StandDownKeepsInv(s, c, x);
    case RepairOp(c, r) => RepairedKeepsInv(s, c, r);
    case OtherOp => SameTablesInv(s, t);
  }

  /** No step touches a journal that is sealed or quarantined. */
  lemma StepFreezes(s: State, op: Op, t: State, reply: Reply, j: Id)
    requires Step(s, op, t, reply) && j in s.journals && s.journals[j].state != Open
    ensures j in t.journals && t.journals[j] == s.journals[j]
  {
  }

  // ---------------------------------------------------------------- runs

  ghost predicate Initial(s: State) {
    s.claims == map[] && s.journals == map[] && s.nonces == {}
  }

  /** A run: one more state than steps. */
  ghost predicate IsRun(states: seq<State>, ops: seq<Op>, replies: seq<Reply>) {
    && |states| == |ops| + 1 && |replies| == |ops| && Initial(states[0])
    && forall i | 0 <= i < |ops| :: Step(states[i], ops[i], states[i + 1], replies[i])
  }

  lemma {:induction false} RunKeepsInv(states: seq<State>, ops: seq<Op>, replies: seq<Reply>, n: nat)
    requires IsRun(states, ops, replies) && n < |states|
    ensures Inv(states[n])
  {
    if n == 0 {
      IndexedFrom(states[0], map[], map[], map[]);
    } else {
      RunKeepsInv(states, ops, replies, n - 1);
      StepKeepsInv(states[n - 1], ops[n - 1], states[n], replies[n - 1]);
    }
  }

  /** Over every run: once sealed or quarantined, a journal never changes. */
  lemma {:induction false} FrozenForever(states: seq<State>, ops: seq<Op>, replies: seq<Reply>, m: nat, n: nat, j: Id)
    requires IsRun(states, ops, replies) && m <= n < |states|
    requires j in states[m].journals && states[m].journals[j].state != Open
    ensures j in states[n].journals && states[n].journals[j] == states[m].journals[j]
  {
    if m < n {
      FrozenForever(states, ops, replies, m, n - 1, j);
      StepFreezes(states[n - 1], ops[n - 1], states[n], replies[n - 1], j);
    }
  }

  /** Over every run: the digest a seal returned is the digest any later release of
      that claim must present, and the release closes only a generation in which
      every command succeeded. */
  lemma SealDecidesRelease(states: seq<State>, ops: seq<Op>, replies: seq<Reply>, m: nat, n: nat)
    requires IsRun(states, ops, replies) && m < n < |ops|
    requires ops[m].OwnedSealOp? && replies[m].SealedAs?
    requires ops[n].ReleaseOp? && replies[n] == Done && ops[n].lifecycle.claim == ops[m].holder.claim
    ensures ops[n].barrier.journal == ops[m].holder.journal
    ensures ops[n].barrier.digest == replies[m].digest && ops[n].barrier.count == replies[m].count
  {
    var h, b := ops[m].holder, ops[n].barrier;
    assert Step(states[m], ops[m], states[m + 1], replies[m]);
    assert Step(states[n], ops[n], states[n + 1], replies[n]);
    FrozenForever(states, ops, replies, m + 1, n, h.journal);
    RunKeepsInv(states, ops, replies, n);
    OneCurrentJournal(states[n], h.claim, h.journal, b.journal);
  }

  /** A release that closes the claim leaves behind a sealed current generation
      whose every entry carries a succeeded receipt. */
  lemma ReleaseMeansAllSucceeded(s: State, c: Lifecycle, b: BarrierClaim, blocked: bool, t: State)
    requires Inv(s) && ReleaseStep(s, c, b, blocked, t, Done)
    ensures forall j | Current(s, c.claim, j) :: j == b.journal
    ensures s.journals[b.journal].state == Sealed && |s.journals[b.journal].entries| == b.count
    ensures forall i | 0 <= i < b.count ::
              s.journals[b.journal].entries[i].state == Terminal
              && s.journals[b.journal].entries[i].receipt.value.code == Succeeded
    ensures t.claims[c.claim].closed == Some(c.id) && t.journals == s.journals
  {
    forall j | Current(s, c.claim, j)
      ensures j == b.journal
    {
      OneCurrentJournal(s, c.claim, j, b.journal);
    }
    var x :| Indexed(s, x);
    assert JournalOk(s.journals[b.journal]);
  }

  lemma JournalIsParsed(s: State, j: Id)
    requires Inv(s) && j in s.journals
    ensures forall i | 0 <= i < |s.journals[j].entries| :: Parsed(s.journals[j].entries[i].command)
  {
    var x :| Indexed(s, x);
    assert JournalOk(s.journals[j]);
    forall i | 0 <= i < |s.journals[j].entries|
      ensures Parsed(s.journals[j].entries[i].command)
    {
      assert EntryOk(s.journals[j].entries[i]);
    }
  }

  /** Two claims released with the same digest had the same journal. */
  lemma SameDigestSameJournal(s: State, a: Id, b: Id)
    requires Inv(s) && a in s.journals && b in s.journals
    requires s.journals[a].state == Sealed && s.journals[b].state == Sealed
    requires AllBarred(s.journals[a].entries) && AllBarred(s.journals[b].entries)
    requires Digest(s.journals[a].entries) == Digest(s.journals[b].entries)
    ensures s.journals[a].entries == [] || a == b
  {
    JournalIsParsed(s, a);
    JournalIsParsed(s, b);
    DigestDeterminesEntries(s.journals[a].entries, s.journals[b].entries);
    if s.journals[a].entries != [] {
      CommandsDistinct(s, a, 0, b, 0);
    }
  }

  // ---------------------------------------------------------------- what a repair may give up

  /** The command has a retained receipt that says it succeeded. */
  predicate TookEffect(s: State, id: Id) {
    id in s.receipts && s.receipts[id].receipt.code == Succeeded
  }

  /** Refused, or never sent: a retained receipt that does not say it succeeded, or
      neither a submission nor a receipt. */
  predicate MayGive(s: State, id: Id) {
    if id in s.receipts then s.receipts[id].receipt.code != Succeeded else id !in s.submissions
  }

  /** The owner of the claim row in the Repo of its Matter. */
  ghost predicate IsOwner(s: State, c: Lifecycle, matter: Id, dispatch: Id) {
    && c.claim in s.claims && matter in s.matters && s.matters[matter] == c.repo
    && s.claims[c.claim] == Claim(matter, c.claimEpoch, c.authority, c.environment, c.worktree, dispatch, None)
  }

  /** A replacement is the owner's own next command, not seen before. */
  ghost predicate IsNextCommand(s: State, c: Lifecycle, x: JournalCommand) {
    && x == JournalCommand(x.id, x.hash, c.environment, c.repo, c.worktree, c.claim, c.authority, c.claimEpoch,
                           c.sequence + 1)
    && Parsed(x) && x.id !in s.submissions && forall j | j in s.journals :: !HasEntry(s.journals[j], x.id)
  }

  /** The repair names the claim's open journal, a fresh successor, and the journal's last
      entry, which is unfinished. */
  ghost predicate NamesHead(s: State, c: Lifecycle, r: Repair) {
    && r.journal in s.journals && r.next !in s.journals
    && s.journals[r.journal].claim == c.claim && s.journals[r.journal].state == Open
    && var entries := s.journals[r.journal].entries;
       && entries != [] && r.position == |entries| && entries[|entries| - 1].state != Terminal
       && entries[|entries| - 1].command.id == r.headId && entries[|entries| - 1].command.hash == r.headHash
  }

  /** The proof says why the head may be given up, and is right. */
  ghost predicate Proves(s: State, r: Repair) {
    && MayGive(s, r.headId)
    && (r.headId in s.receipts ==>
          && r.proof == Refusal(s.receipts[r.headId].receipt)
          && r.proof.receipt.id == r.headId && r.proof.receipt.hash == r.headHash)
    && (r.headId !in s.receipts ==> r.proof == NotSubmitted)
  }

  /** Exactly which repairs are accepted, and which of the others lack only their proof. */
  lemma RepairExactly(s: State, c: Lifecycle, r: Repair)
    requires Inv(s)
    ensures var fits := (exists matter, dispatch :: IsOwner(s, c, matter, dispatch)) && NamesHead(s, c, r)
                        && (r.replacement.Some? ==> IsNextCommand(s, c, r.replacement.value));
            && (RepairReply(s, c, r) == Done <==> fits && Proves(s, r))
            && (RepairReply(s, c, r) == Declined(REPAIR_PROOF) <==> fits && !Proves(s, r))
  {
    OwnerExactly(s, c);
    ProofExactly(s, r);
    if OwnerHolds(s, c) {
      FitsExactly(s, c, r);
    }
  }

  lemma FitsExactly(s: State, c: Lifecycle, r: Repair)
    requires Inv(s) && OwnerHolds(s, c)
    ensures RepairFits(s, c, r) <==>
              NamesHead(s, c, r) && (r.replacement.Some? ==> IsNextCommand(s, c, r.replacement.value))
  {
    if r.journal in s.journals {
      var x :| Indexed(s, x);
      assert JournalOk(s.journals[r.journal]);
      HeadIsLast(s.journals[r.journal].entries, r.position);
      if NamesHead(s, c, r) && r.replacement.Some? {
        HeadIsJournaled(s, r.journal, r.position);
        ReplacementExactly(s, c, r, r.replacement.value);
      }
    }
  }

  lemma OwnerExactly(s: State, c: Lifecycle)
    ensures OwnerHolds(s, c) <==> exists matter, dispatch :: IsOwner(s, c, matter, dispatch)
  {
    if c.claim in s.claims {
      assert OwnerHolds(s, c) <==> IsOwner(s, c, s.claims[c.claim].matter, s.claims[c.claim].dispatch);
    }
  }

  lemma ReplacementExactly(s: State, c: Lifecycle, r: Repair, x: JournalCommand)
    requires OwnerHolds(s, c) && Journaled(s, r.headId)
    ensures ReplacementFits(s, c, r, x) <==> IsNextCommand(s, c, x)
  {
  }

  lemma ProofExactly(s: State, r: Repair)
    ensures ProofHolds(s, r) <==> Proves(s, r)
  {
  }

  lemma HeadIsLast(entries: seq<Entry>, position: nat)
    requires EntriesOk(entries)
    ensures IsHead(entries, position) <==>
              entries != [] && position == |entries| && entries[|entries| - 1].state != Terminal
  {
  }

  lemma HeadIsJournaled(s: State, j: Id, position: nat)
    requires j in s.journals
    ensures 1 <= position <= |s.journals[j].entries| ==> Journaled(s, s.journals[j].entries[position - 1].command.id)
  {
    if 1 <= position <= |s.journals[j].entries| {
      assert HasEntry(s.journals[j], s.journals[j].entries[position - 1].command.id);
    }
  }

  /** An accepted repair quarantines the journal at its first unfinished entry, whose
      command was refused or never sent, and changes no other journal. */
  lemma RepairGivesUp(s: State, c: Lifecycle, r: Repair, t: State)
    requires Inv(s) && Step(s, RepairOp(c, r), t, Done)
    ensures r.journal in s.journals && s.journals[r.journal].state == Open
    ensures var entries := s.journals[r.journal].entries;
            && 1 <= r.position == |entries| && entries[r.position - 1].state != Terminal
            && MayGive(s, entries[r.position - 1].command.id)
    ensures r.next !in s.journals && r.next in t.journals && r.journal in t.journals
    ensures t.journals == s.journals[r.journal := s.journals[r.journal].(state := Quarantined)]
                                    [r.next := t.journals[r.next]]
  {
    RepairExactly(s, c, r);
  }

  /** Every command of the journal that took effect is acknowledged in it. */
  ghost predicate NoneLost(s: State, j: Id)
    requires j in s.journals
  {
    forall i | 0 <= i < |s.journals[j].entries| && TookEffect(s, s.journals[j].entries[i].command.id) ::
      s.journals[j].entries[i].state == Terminal
  }

  lemma RepairLosesNothing(s: State, c: Lifecycle, r: Repair, t: State)
    requires Inv(s) && Step(s, RepairOp(c, r), t, Done)
    ensures r.journal in s.journals && NoneLost(s, r.journal)
  {
    RepairExactly(s, c, r);
    var x :| Indexed(s, x);
    assert JournalOk(s.journals[r.journal]);
    LastMayGive(s, r.journal);
  }

  lemma LastMayGive(s: State, j: Id)
    requires j in s.journals && EntriesOk(s.journals[j].entries) && s.journals[j].entries != []
    requires MayGive(s, s.journals[j].entries[|s.journals[j].entries| - 1].command.id)
    ensures NoneLost(s, j)
  {
  }

  /** Only a repair quarantines. */
  lemma StepQuarantines(s: State, op: Op, t: State, reply: Reply, j: Id)
    requires Step(s, op, t, reply) && j in t.journals && t.journals[j].state == Quarantined
    requires j !in s.journals || s.journals[j].state != Quarantined
    ensures op.RepairOp? && reply == Done && op.repair.journal == j && j in s.journals
  {
  }

  /** The step is a repair that quarantines j while every command of j that took effect is
      acknowledged in it. */
  ghost predicate GivesUp(s: State, op: Op, reply: Reply, j: Id) {
    op.RepairOp? && reply == Done && op.repair.journal == j && j in s.journals && NoneLost(s, j)
  }

  lemma NewlyQuarantined(s: State, op: Op, t: State, reply: Reply, j: Id)
    requires Inv(s) && Step(s, op, t, reply) && j in t.journals && t.journals[j].state == Quarantined
    requires j !in s.journals || s.journals[j].state != Quarantined
    ensures GivesUp(s, op, reply, j) && t.journals[j].entries == s.journals[j].entries
  {
    StepQuarantines(s, op, t, reply, j);
    RepairLosesNothing(s, op.lifecycle, op.repair, t);
    RepairGivesUp(s, op.lifecycle, op.repair, t);
  }

  /** Over every run: each quarantined journal was quarantined by a repair, holds the
      entries it held then, and none of them was a success not yet acknowledged. */
  lemma {:induction false} QuarantineLosesNothing(states: seq<State>, ops: seq<Op>, replies: seq<Reply>, n: nat, j: Id)
    returns (m: nat)
    requires IsRun(states, ops, replies) && n < |states|
    requires j in states[n].journals && states[n].journals[j].state == Quarantined
    ensures m < n && GivesUp(states[m], ops[m], replies[m], j)
    ensures states[n].journals[j].entries == states[m].journals[j].entries
  {
    assert n > 0;
    var s := states[n - 1];
    assert Step(s, ops[n - 1], states[n], replies[n - 1]);
    if j in s.journals && s.journals[j].state == Quarantined {
      m := QuarantineLosesNothing(states, ops, replies, n - 1, j);
      StepFreezes(s, ops[n - 1], states[n], replies[n - 1], j);
    } else {
      m := n - 1;
      RunKeepsInv(states, ops, replies, n - 1);
      NewlyQuarantined(s, ops[n - 1], states[n], replies[n - 1], j);
    }
  }

  // ---------------------------------------------------------------- whose entries, and whose receipts

  /** The command is the claim owner's, in the claim's worktree and Repo, under its epochs. */
  ghost predicate Belongs(s: State, k: Id, x: JournalCommand) {
    && k in s.claims && s.claims[k].matter in s.matters
    && x == JournalCommand(x.id, x.hash, s.claims[k].owner, s.matters[s.claims[k].matter], s.claims[k].worktree, k,
                           s.claims[k].authority, s.claims[k].epoch, x.sequence)
  }

  /** An acknowledged entry carries the receipt retained for its command, under an anchor
      of the log at or past the command's events; it is finished exactly on success. */
  ghost predicate Answered(s: State, e: Entry) {
    && e.receipt.Some? && e.installed.Some? && e.command.id in s.receipts
    && s.receipts[e.command.id].receipt == e.receipt.value
    && e.receipt.value.id == e.command.id && e.receipt.value.hash == e.command.hash
    && e.receipt.value.environment == e.command.environment && e.receipt.value.sequence == e.command.sequence
    && e.receipt.value.authority == e.command.authority
    && AnchorAt(s, e.installed.value.count) == Some(e.installed.value)
    && e.installed.value.count >= s.receipts[e.command.id].lastPosition
    && e.state == if e.receipt.value.code == Succeeded then Terminal else Quarantine
  }

  ghost predicate EntryTrue(s: State, k: Id, e: Entry) {
    && Belongs(s, k, e.command)
    && (e.state == Terminal || e.state == Quarantine ==> Answered(s, e))
    && (e.state != Terminal && e.state != Quarantine ==> e.receipt.None? && e.installed.None?)
  }

  ghost predicate BooksTrue(s: State) {
    forall j, i | j in s.journals && 0 <= i < |s.journals[j].entries| ::
      EntryTrue(s, s.journals[j].claim, s.journals[j].entries[i])
  }

  /** Rows an entry rests on only grow. */
  ghost predicate RowsKept(s: State, t: State) {
    && (forall k | k in s.claims :: k in t.claims && t.claims[k] == s.claims[k].(closed := t.claims[k].closed))
    && (forall m | m in s.matters :: m in t.matters && t.matters[m] == s.matters[m])
    && (forall c | c in s.receipts :: c in t.receipts && t.receipts[c] == s.receipts[c])
    && s.prefixes <= t.prefixes
  }

  lemma StepKeepsRows(s: State, op: Op, t: State, reply: Reply)
    requires Step(s, op, t, reply)
    ensures RowsKept(s, t)
  {
  }

  lemma EntryStaysTrue(s: State, t: State, k: Id, e: Entry)
    requires RowsKept(s, t) && EntryTrue(s, k, e)
    ensures EntryTrue(t, k, e)
  {
    if e.state == Terminal || e.state == Quarantine {
      AnchorKept(s, t, e.installed.value.count);
    }
  }

  lemma AnchorKept(s: State, t: State, count: nat)
    requires s.prefixes <= t.prefixes && AnchorAt(s, count).Some?
    ensures AnchorAt(t, count) == AnchorAt(s, count)
  {
  }

  /** A journal moved by at most one entry. */
  ghost predicate OneEntry(s: State, t: State, j: Id, i: nat)
    requires j in t.journals && i < |t.journals[j].entries|
  {
    j in s.journals && t.journals[j].claim == s.journals[j].claim && i < |s.journals[j].entries|
    && t.journals[j].entries[i] == s.journals[j].entries[i]
  }

  lemma AppendedTrue(s: State, journal: Id, position: nat, c: JournalCommand, j: Id, i: nat)
    requires j in Append(s, journal, position, c).journals && i < |Append(s, journal, position, c).journals[j].entries|
    requires !OneEntry(s, Append(s, journal, position, c), j, i)
    ensures var t := Append(s, journal, position, c); EntryTrue(t, t.journals[j].claim, t.journals[j].entries[i])
  {
  }

  /** Acknowledging writes one entry, with the command it had. */
  lemma AcknowledgedTrue(s: State, t: State, j: Id, i: nat, receipt: Receipt, end: Anchor)
    requires j in s.journals && i < |s.journals[j].entries|
    requires Belongs(s, s.journals[j].claim, s.journals[j].entries[i].command)
    requires ExactReceipt(s, s.journals[j].entries[i], receipt)
    requires AnchorHolds(s, end, s.receipts[s.journals[j].entries[i].command.id].lastPosition)
    requires t == WithEntries(s, j, s.journals[j].entries[i := Acknowledged(s.journals[j].entries[i], receipt, end)])
    ensures EntryTrue(t, t.journals[j].claim, t.journals[j].entries[i])
  {
  }

  lemma AckedTrue(s: State, journal: Id, position: nat, receipt: Receipt, end: Anchor, j: Id, i: nat)
    requires BooksTrue(s)
    requires j in Ack(s, journal, position, receipt, end).journals
    requires i < |Ack(s, journal, position, receipt, end).journals[j].entries|
    requires !OneEntry(s, Ack(s, journal, position, receipt, end), j, i)
    ensures var t := Ack(s, journal, position, receipt, end);
            EntryTrue(t, t.journals[j].claim, t.journals[j].entries[i])
  {
    assert j == journal && i == position - 1 && EntryTrue(s, s.journals[j].claim, s.journals[j].entries[i]);
    AcknowledgedTrue(s, Ack(s, journal, position, receipt, end), j, i, receipt, end);
  }

  lemma OwnedAckedTrue(s: State, h: Identity, position: nat, receipt: Receipt, end: Anchor, j: Id, i: nat)
    requires BooksTrue(s)
    requires j in OwnedAck(s, h, position, receipt, end).journals
    requires i < |OwnedAck(s, h, position, receipt, end).journals[j].entries|
    requires !OneEntry(s, OwnedAck(s, h, position, receipt, end), j, i)
    ensures var t := OwnedAck(s, h, position, receipt, end);
            EntryTrue(t, t.journals[j].claim, t.journals[j].entries[i])
  {
    assert j == h.journal && i == position - 1 && EntryTrue(s, s.journals[j].claim, s.journals[j].entries[i]);
    AcknowledgedTrue(s, OwnedAck(s, h, position, receipt, end), j, i, receipt, end);
  }

  lemma RepairedTrue(s: State, c: Lifecycle, r: Repair, j: Id, i: nat)
    requires Inv(s) && j in RepairedIf(s, c, r).journals && i < |RepairedIf(s, c, r).journals[j].entries|
    requires !OneEntry(s, RepairedIf(s, c, r), j, i)
    ensures var t := RepairedIf(s, c, r); EntryTrue(t, t.journals[j].claim, t.journals[j].entries[i])
  {
    RepairExactly(s, c, r);
  }

  /** The entry a step writes, if it is not one that was there before, is true. */
  lemma NewEntryTrue(s: State, op: Op, t: State, reply: Reply, j: Id, i: nat)
    requires Inv(s) && BooksTrue(s) && Step(s, op, t, reply)
    requires j in t.journals && i < |t.journals[j].entries| && !OneEntry(s, t, j, i)
    ensures EntryTrue(t, t.journals[j].claim, t.journals[j].entries[i])
  {
    match op
    case AppendOp(journal, position, c) => AppendedTrue(s, journal, position, c, j, i);
    case AckOp(journal, position, receipt, end) => AckedTrue(s, journal, position, receipt, end, j, i);
    case OwnedAckOp(h, position, receipt, end) => OwnedAckedTrue(s, h, position, receipt, end, j, i);
    case RepairOp(c, r) => RepairedTrue(s, c, r, j, i);
    case _ => OthersWriteNone(s, op, t, reply, j, i);
  }

  lemma OthersWriteNone(s: State, op: Op, t: State, reply: Reply, j: Id, i: nat)
    requires Step(s, op, t, reply) && !op.AppendOp? && !op.AckOp? && !op.OwnedAckOp? && !op.RepairOp?
    requires j in t.journals && i < |t.journals[j].entries|
    ensures OneEntry(s, t, j, i)
  {
  }

  lemma StepKeepsBooks(s: State, op: Op, t: State, reply: Reply)
    requires Inv(s) && BooksTrue(s) && Step(s, op, t, reply)
    ensures BooksTrue(t)
  {
    StepKeepsRows(s, op, t, reply);
    forall j, i | j in t.journals && 0 <= i < |t.journals[j].entries|
      ensures EntryTrue(t, t.journals[j].claim, t.journals[j].entries[i])
    {
      if OneEntry(s, t, j, i) {
        EntryStaysTrue(s, t, s.journals[j].claim, s.journals[j].entries[i]);
      } else {
        NewEntryTrue(s, op, t, reply, j, i);
      }
    }
  }

  /** Over every run: every journal entry is a command of its claim's owner, in its
      worktree and Repo, under its epochs; and every acknowledged one carries the retained
      receipt under an anchor that covers it, finished exactly when it succeeded. */
  lemma {:induction false} EveryEntryIsTrue(states: seq<State>, ops: seq<Op>, replies: seq<Reply>, n: nat)
    requires IsRun(states, ops, replies) && n < |states|
    ensures BooksTrue(states[n])
  {
    if n > 0 {
      EveryEntryIsTrue(states, ops, replies, n - 1);
      RunKeepsInv(states, ops, replies, n - 1);
      StepKeepsBooks(states[n - 1], ops[n - 1], states[n], replies[n - 1]);
    }
  }

  // ---------------------------------------------------------------- exactly which commands are accepted

  /** A claim is granted exactly to a Matter of the Repo that nobody holds, for a dispatch
      and rows not used before. */
  lemma AcquireExactly(s: State, r: AcquireRequest, t: State, reply: Reply)
    requires AcquireStep(s, r, t, reply)
    ensures reply.Acquired? <==>
              && r.matter in s.matters && s.matters[r.matter] == r.repo
              && r.claim !in s.claims && r.journal !in s.journals
              && forall k | k in s.claims ::
                   s.claims[k].dispatch != r.dispatch && (s.claims[k].matter == r.matter ==> s.claims[k].closed.Some?)
    ensures !reply.Acquired? ==> t == s
  {
  }

  /** An entry is appended exactly when the open claim's owner sends the next command of an
      open journal with nothing outstanding. */
  lemma AppendExactly(s: State, j: Id, position: nat, x: JournalCommand)
    ensures AppendError(s, j, position, x).None? <==>
              && Parsed(x) && Belongs(s, x.claim, x) && s.claims[x.claim].closed.None? && x.authority == s.authority
              && j in s.journals && s.journals[j].claim == x.claim && s.journals[j].state == Open
              && var entries := s.journals[j].entries;
                 && position == |entries| + 1
                 && (forall i | 0 <= i < |entries| :: entries[i].state == Terminal && entries[i].receipt.Some?)
                 && (if entries == [] then x.environment in s.heads && x.sequence == s.heads[x.environment] + 1
                     else entries[|entries| - 1].command.sequence < x.sequence)
                 && forall k | k in s.journals :: !HasEntry(s.journals[k], x.id)
  {
  }

  /** The holder names an open claim of the current authority and its open journal. */
  ghost predicate Names(s: State, h: Identity) {
    && h.claim in s.claims && h.matter in s.matters && h.journal in s.journals && h.authority == s.authority
    && s.claims[h.claim] == Claim(h.matter, h.claimEpoch, h.authority, h.environment, s.claims[h.claim].worktree,
                                  h.dispatch, None)
    && s.journals[h.journal] == Journal(h.claim, h.generation, Open, s.journals[h.journal].entries)
  }

  /** In a reachable state the holder acknowledges exactly what was retained for the
      command, under an anchor that covers it; again only under one no shorter, and not
      after a refusal other than of a gate command. */
  lemma OwnedAckExactly(s: State, h: Identity, position: nat, receipt: Receipt, end: Anchor)
    requires Inv(s) && BooksTrue(s)
    ensures OwnedAckError(s, h, position, receipt, end).None? <==>
              && h.state == Open && Names(s, h) && 1 <= position <= |s.journals[h.journal].entries|
              && var e := s.journals[h.journal].entries[position - 1];
                 && ExactReceipt(s, e, receipt) && AnchorAt(s, end.count) == Some(end)
                 && s.receipts[e.command.id].lastPosition <= end.count
                 && (e.state == Terminal || e.state == Quarantine ==> e.installed.value.count <= end.count)
                 && (e.state == Quarantine ==> receipt.gateOperation && receipt.code == Refused)
  {
    if h.journal in s.journals && 1 <= position <= |s.journals[h.journal].entries| {
      assert EntryTrue(s, s.journals[h.journal].claim, s.journals[h.journal].entries[position - 1]);
      var x :| Indexed(s, x);
      assert JournalOk(s.journals[h.journal]);
    }
  }

  /** The holder seals exactly its own claim's current journal, with nothing unresolved and
      every entry barred, once or again. */
  lemma OwnedSealExactly(s: State, h: Identity, blocked: bool, t: State, reply: Reply)
    requires OwnedSealStep(s, h, blocked, t, reply)
    ensures reply.SealedAs? <==>
              && h.state != Quarantined && !blocked && h.claim in s.claims && h.journal in s.journals
              && s.claims[h.claim] == Claim(h.matter, h.claimEpoch, s.authority, h.environment,
                                            s.claims[h.claim].worktree, h.dispatch, None)
              && h.authority == s.authority
              && (s.journals[h.journal] == Journal(h.claim, h.generation, Open, s.journals[h.journal].entries)
                  || s.journals[h.journal] == Journal(h.claim, h.generation, Sealed, s.journals[h.journal].entries))
              && AllBarred(s.journals[h.journal].entries)
    ensures !reply.SealedAs? ==> t == s
  {
  }

  /** A release closes the claim exactly for its owner, with nothing unresolved, on the
      sealed journal whose entries all succeeded, by its count and digest. */
  lemma ReleaseExactly(s: State, c: Lifecycle, b: BarrierClaim, blocked: bool, t: State, reply: Reply)
    requires Inv(s) && ReleaseStep(s, c, b, blocked, t, reply)
    ensures reply == Done <==>
              && (exists matter, dispatch :: IsOwner(s, c, matter, dispatch)) && !blocked
              && b.journal in s.journals && s.journals[b.journal].claim == c.claim
              && s.journals[b.journal].state == Sealed && BarrierWellFormed(b)
              && b.count == |s.journals[b.journal].entries| && b.digest == Digest(s.journals[b.journal].entries)
    ensures reply != Done ==> t == s && reply == Declined(BARRIER)
  {
    OwnerExactly(s, c);
    if b.journal in s.journals {
      var x :| Indexed(s, x);
      assert JournalOk(s.journals[b.journal]);
    }
  }

  /** A stand-down closes a claim exactly from outside, with a reason, the loss accepted
      and an owner nonce never used before. */
  lemma StandDownExactly(s: State, c: Lifecycle, x: StandDown)
    ensures StandDownReply(s, c, x) == Done <==>
              && (exists matter, dispatch, worktree ::
                    IsOwner(s, c.(environment := x.owner, worktree := worktree), matter, dispatch))
              && x.owner != c.environment && x.reason != "" && x.loss && x.nonce != "" && x.nonce !in s.nonces
    ensures StoodDown(s, c, x).claims
            == if StandDownReply(s, c, x) == Done && c.claim in s.claims
               then s.claims[c.claim := s.claims[c.claim].(closed := Some(c.id))] else s.claims
  {
    if c.claim in s.claims {
      var k := s.claims[c.claim];
      assert TargetHolds(s, c) && k.owner == x.owner <==>
               IsOwner(s, c.(environment := x.owner, worktree := k.worktree), k.matter, k.dispatch);
    }
  }

  // ---------------------------------------------------------------- the store

  // Each method takes exactly one Step, so StepKeepsInv and the run lemmas apply to it.

  class ClaimStore {
    var authority: nat
    var matters: map<Id, Id>
    var heads: map<Id, nat>
    var submissions: set<Id>
    var receipts: map<Id, Retained>
    var prefixes: seq<Id>
    var claims: map<Id, Claim>
    var journals: map<Id, Journal>
    var nonces: set<Id>

    function View(): State
      reads this
    {
      State(authority, matters, heads, submissions, receipts, prefixes, claims, journals, nonces)
    }

    /** COALESCE(max(claim_epoch),0)+1 */
    method NextEpoch(matter: Id) returns (epoch: nat)
      ensures epoch >= 1 && IsMaximum(Epochs(claims, matter), epoch - 1)
    {
      var maximum := 0;
      var left := claims.Keys;
      ghost var seen: set<nat> := {};
      while left != {}
        invariant left <= claims.Keys
        invariant seen == set c | c in claims && c !in left && claims[c].matter == matter :: claims[c].epoch
        invariant IsMaximum(seen, maximum)
        decreases left
      {
        var c :| c in left;
        left := left - {c};
        if claims[c].matter == matter {
          seen := seen + {claims[c].epoch};
          if claims[c].epoch > maximum {
            maximum := claims[c].epoch;
          }
        }
      }
      assert seen == Epochs(claims, matter);
      epoch := maximum + 1;
    }

    method CompleteAcquire(r: AcquireRequest) returns (reply: Reply)
      modifies this`claims, this`journals
      ensures Step(old(View()), AcquireOp(r), View(), reply)
    {
      if r.matter !in matters {
        return Declined(NO_MATTER);
      }
      if matters[r.matter] != r.repo {
        return Declined(WORKTREE);
      }
      if Contended(View(), r) {
        return Declined(CONTENDED);
      }
      if r.claim in claims || r.journal in journals {
        return Rolled(ErrConflict);
      }
      var epoch := NextEpoch(r.matter);
      claims := claims[r.claim := Claim(r.matter, epoch, r.authority, r.environment, r.worktree, r.dispatch, None)];
      journals := journals[r.journal := Journal(r.claim, 1, Open, [])];
      reply := Acquired(epoch);
    }

    /** SELECT count(*) over all journal entries with the command id. */
    method IsJournaled(id: Id) returns (found: bool)
      ensures found == Journaled(View(), id)
    {
      var left := journals.Keys;
      while left != {}
        invariant left <= journals.Keys
        invariant forall j | j in journals && j !in left :: !HasEntry(journals[j], id)
        decreases |left|
      {
        var j :| j in left;
        left := left - {j};
        for i := 0 to |journals[j].entries|
          invariant forall k | 0 <= k < i :: journals[j].entries[k].command.id != id
        {
          if journals[j].entries[i].command.id == id {
            assert HasEntry(journals[j], id);
            return true;
          }
        }
      }
      found := false;
    }

    /** Every earlier entry has come back with a terminal receipt. */
    method AllReturned(entries: seq<Entry>) returns (ok: bool)
      ensures ok == NothingPending(entries)
    {
      for i := 0 to |entries|
        invariant forall k | 0 <= k < i :: entries[k].state == Terminal && entries[k].receipt.Some?
      {
        if entries[i].state != Terminal || entries[i].receipt.None? {
          return false;
        }
      }
      ok := true;
    }

    method AppendEntry(journal: Id, position: nat, c: JournalCommand) returns (reply: Reply)
      modifies this`journals
      ensures Step(old(View()), AppendOp(journal, position, c), View(), reply)
    {
      if !IsUlid(c.id) || |c.hash| != 32 || c.sequence == 0 || position == 0 {
        return Rolled(ErrInvalidProof);
      }
      if journal !in journals || journals[journal].claim != c.claim || c.claim !in claims
         || claims[c.claim].authority != authority || claims[c.claim].matter !in matters {
        return Rolled(ErrNotFound);
      }
      var j, claim := journals[journal], claims[c.claim];
      if j.state != Open || claim.closed.Some? || c.environment != claim.owner || c.repo != matters[claim.matter]
         || c.worktree != claim.worktree || c.authority != claim.authority || c.claimEpoch != claim.epoch {
        return Rolled(ErrFenced);
      }
      var returned := AllReturned(j.entries);
      if position != |j.entries| + 1 || !returned {
        return Rolled(ErrPending);
      }
      if j.entries != [] {
        if c.sequence <= j.entries[|j.entries| - 1].command.sequence {
          return Rolled(ErrPending);
        }
      } else if c.environment !in heads || c.sequence != heads[c.environment] + 1 {
        return Rolled(ErrPending);
      }
      var journaled := IsJournaled(c.id);
      if journaled {
        return Rolled(ErrConflict);
      }
      journals := journals[journal := j.(entries := j.entries + [Entry(c, PendingReturn, None, None)])];
      reply := Done;
    }

    /** The retained anchor with this count, event position 0 standing for none. */
    method HasAnchor(a: Anchor) returns (ok: bool)
      ensures ok <==> AnchorAt(View(), a.count) == Some(a)
    {
      if a.count == 0 {
        return a.digest == "";
      }
      ok := a.count <= |prefixes| && prefixes[a.count - 1] == a.digest;
    }

    /** The holder is the open claim's owner and names its open journal. */
    method HoldsOpen(h: Identity) returns (ok: bool)
      ensures ok == (HoldsOpenOrSealed(View(), h) && journals[h.journal].state == Open)
    {
      if h.claim !in claims || h.journal !in journals || journals[h.journal].claim != h.claim
         || journals[h.journal].state != Open || claims[h.claim].closed.Some? {
        return false;
      }
      var claim := claims[h.claim];
      ok := claim.authority == authority && authority == h.authority && claim.owner == h.environment
            && claim.matter == h.matter && claim.dispatch == h.dispatch && claim.epoch == h.claimEpoch
            && journals[h.journal].generation == h.generation;
    }

    /** A finished entry is acknowledged again only under the anchor it was installed with. */
    method ReplayError(e: Entry, last: nat, end: Anchor) returns (error: Option<Error>)
      ensures error ==
              if e.installed.None? || e.installed.value.count < last then Some(ErrInvalidProof)
              else if AnchorAt(View(), e.installed.value.count) != Some(e.installed.value)
                      || end.count < e.installed.value.count
              then Some(ErrPrefixMismatch)
              else None
    {
      if e.installed.None? || e.installed.value.count < last {
        return Some(ErrInvalidProof);
      }
      var still := HasAnchor(e.installed.value);
      error := if !still || end.count < e.installed.value.count then Some(ErrPrefixMismatch) else None;
    }

    /** The guards of an owned acknowledgement in the order they are decided. */
    method AckGuards(h: Identity, position: nat, receipt: Receipt, end: Anchor) returns (error: Option<Error>)
      ensures error == OwnedAckError(View(), h, position, receipt, end)
    {
      if position == 0 || h.state != Open {
        return Some(ErrInvalidProof);
      }
      var holds := HoldsOpen(h);
      if !holds || h.matter !in matters {
        return Some(ErrFenced);
      }
      var entries := journals[h.journal].entries;
      if position > |entries| || entries[position - 1].command.id !in receipts {
        return Some(ErrNotFound);
      }
      var e := entries[position - 1];
      var retained := receipts[e.command.id];
      if e.state == Quarantine && !(receipt.gateOperation && receipt.code == Refused) {
        return Some(ErrInvalidProof);
      }
      if retained.receipt != receipt || receipt.id != e.command.id || receipt.hash != e.command.hash
         || receipt.environment != e.command.environment || receipt.environment != h.environment
         || receipt.sequence != e.command.sequence || receipt.authority != e.command.authority
         || receipt.authority != h.authority || e.command.claim != h.claim || e.command.claimEpoch != h.claimEpoch
         || e.command.repo != matters[h.matter] || e.command.worktree != claims[h.claim].worktree {
        return Some(ErrInvalidProof);
      }
      if position > 1 && entries[position - 2].state != Terminal {
        return Some(ErrPending);
      }
      var known := HasAnchor(end);
      if !known || end.count < retained.lastPosition {
        return Some(ErrPrefixMismatch);
      }
      error := None;
      if e.state == Terminal || e.state == Quarantine {
        error := ReplayError(e, retained.lastPosition, end);
      }
    }

    method AcknowledgeOwned(h: Identity, position: nat, receipt: Receipt, end: Anchor) returns (reply: Reply)
      modifies this`journals
      ensures Step(old(View()), OwnedAckOp(h, position, receipt, end), View(), reply)
    {
      var error := AckGuards(h, position, receipt, end);
      if error.Some? {
        return Rolled(error.value);
      }
      var j := journals[h.journal];
      var e := j.entries[position - 1];
      if e.state == PendingReturn || e.state == Unknown {
        var state := if receipt.code == Succeeded then Terminal else Quarantine;
        var entry := Entry(e.command, state, Some(receipt), Some(end));
        journals := journals[h.journal := j.(entries := j.entries[position - 1 := entry])];
      }
      reply := Done;
    }

    method SealOwned(h: Identity, blocked: bool) returns (reply: Reply)
      modifies this`journals
      ensures Step(old(View()), OwnedSealOp(h, blocked), View(), reply)
    {
      ghost var s := View();
      if h.state == Quarantined || !HoldsOpenOrSealed(View(), h) {
        return Rolled(ErrFenced);
      }
      if blocked {
        return Rolled(ErrOpenBracket);
      }
      var digest := BarrierDigest(journals[h.journal].entries);
      if digest.Err? {
        return Rolled(digest.error);
      }
      if journals[h.journal].state == Open {
        journals := journals[h.journal := journals[h.journal].(state := Sealed)];
      }
      assert View() == WithState(s, h.journal, Sealed);
      reply := SealedAs(digest.value.0, digest.value.1);
    }

    method Release(c: Lifecycle, b: BarrierClaim, blocked: bool) returns (reply: Reply)
      modifies this`claims
      ensures Step(old(View()), ReleaseOp(c, b, blocked), View(), reply)
    {
      if !OwnerHolds(View(), c) || blocked || !Current(View(), c.claim, b.journal)
         || journals[b.journal].state != Sealed || !BarrierWellFormed(b) {
        return Declined(BARRIER);
      }
      var digest := BarrierDigest(journals[b.journal].entries);
      if digest.Err? || digest.value.1 != b.count || digest.value.0 != b.digest {
        return Declined(BARRIER);
      }
      claims := claims[c.claim := claims[c.claim].(closed := Some(c.id))];
      reply := Done;
    }

    /** The first entry that is not terminal, by position; 0 when there is none. */
    method FindHead(entries: seq<Entry>) returns (position: nat)
      ensures position == 0 ==> forall i | 0 <= i < |entries| :: entries[i].state == Terminal
      ensures position > 0 ==> IsHead(entries, position)
    {
      for i := 0 to |entries|
        invariant forall k | 0 <= k < i :: entries[k].state == Terminal
      {
        if entries[i].state != Terminal {
          return i + 1;
        }
      }
      position := 0;
    }

    /** The replacement command a repair may start the next generation with. */
    method ReplacementAllowed(c: Lifecycle, r: Repair, x: JournalCommand) returns (ok: bool)
      requires c.claim in claims && claims[c.claim].matter in matters
      ensures ok == ReplacementFits(View(), c, r, x)
    {
      var claim := claims[c.claim];
      if !IsUlid(x.id) || |x.hash| != 32 || x.sequence == 0 || x.id == r.headId || x.id in submissions {
        return false;
      }
      if x.claim != c.claim || x.claimEpoch != claim.epoch || x.authority != c.authority || x.environment != claim.owner
         || x.repo != matters[claim.matter] || x.worktree != claim.worktree || x.sequence != c.sequence + 1 {
        return false;
      }
      var journaled := IsJournaled(x.id);
      ok := !journaled;
    }

    /** The repair names the owner's current open journal, a fresh successor and the
        exact head entry. */
    method RepairAllowed(c: Lifecycle, r: Repair) returns (ok: bool)
      ensures ok == (OwnerHolds(View(), c) && RepairFits(View(), c, r))
    {
      if c.claim !in claims || claims[c.claim].matter !in matters || claims[c.claim].closed.Some? {
        return false;
      }
      var claim := claims[c.claim];
      if claim.authority != c.authority || matters[claim.matter] != c.repo || claim.epoch != c.claimEpoch
         || claim.owner != c.environment || claim.worktree != c.worktree {
        return false;
      }
      if r.journal !in journals || journals[r.journal].claim != c.claim || journals[r.journal].state != Open
         || r.next in journals {
        return false;
      }
      var entries := journals[r.journal].entries;
      var head := FindHead(entries);
      if head == 0 || head != r.position || entries[head - 1].command.id != r.headId
         || entries[head - 1].command.hash != r.headHash {
        return false;
      }
      ok := true;
      if r.replacement.Some? {
        ok := ReplacementAllowed(c, r, r.replacement.value);
      }
    }

    method RepairJournal(c: Lifecycle, r: Repair) returns (reply: Reply)
      modifies this`journals
      ensures Step(old(View()), RepairOp(c, r), View(), reply)
    {
      var allowed := RepairAllowed(c, r);
      if !allowed {
        return Declined(REPAIR_CONFLICT);
      }
      if r.proof.Refusal? {
        var receipt := r.proof.receipt;
        if r.headId !in receipts || receipts[r.headId].receipt != receipt || receipt.code == Succeeded
           || receipt.id != r.headId || receipt.hash != r.headHash {
          return Declined(REPAIR_PROOF);
        }
      } else if r.headId in receipts || r.headId in submissions {
        return Declined(REPAIR_PROOF);
      }
      var generation := journals[r.journal].generation;
      journals := journals[r.journal := journals[r.journal].(state := Quarantined)];
      var first := if r.replacement.Some? then [Entry(r.replacement.value, PendingReturn, None, None)] else [];
      journals := journals[r.next := Journal(c.claim, generation + 1, Open, first)];
      reply := Done;
    }
  }
}
