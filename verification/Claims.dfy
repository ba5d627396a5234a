/** Explicit claims, their journal generations, and the barrier that closes them.
    Every method of the store is one transaction, so each is one step here. */
module Claims {
  import opened Common
  import opened Barrier
  import Ulid

  datatype Claim = Claim(matter: Id, epoch: nat, authority: nat, owner: Id, worktree: Id, dispatch: Id,
                         closed: Option<Id>)

  datatype JournalState = Open | Sealed | Quarantined

  datatype Journal = Journal(claim: Id, generation: nat, state: JournalState, entries: seq<Entry>)

  datatype Retained = Retained(receipt: Receipt, lastPosition: nat)

  /** The claim tables and the parts of the other tables they read. */
  datatype State = State(
    authority: nat, matters: map<Id, Id>, heads: map<Id, nat>, submissions: set<Id>,
    receipts: map<Id, Retained>, prefixes: seq<Id>,
    claims: map<Id, Claim>, journals: map<Id, Journal>, nonces: set<Id>)

  datatype Reply =
    | Done
    | Acquired(epoch: nat)
    | SealedAs(digest: Root, count: nat)
    | Declined(code: string)
    | Rolled(error: Error)

  const CONTENDED := "refusal.claim-contended"
  const WORKTREE := "refusal.claim-worktree-mismatch"
  const NO_MATTER := "validation.matter-not-found"
  const BARRIER := "refusal.claim-release-barrier"
  const REPAIR_CONFLICT := "refusal.journal-repair-conflict"
  const REPAIR_PROOF := "refusal.journal-repair-proof"
  const STAND_DOWN_FENCED := "refusal.claim-stand-down-fenced"
  const STAND_DOWN_REASON := "validation.stand-down-reason"
  const LOSS := "refusal.claim-loss-not-acknowledged"

  // ---------------------------------------------------------------- queries

  ghost function Epochs(claims: map<Id, Claim>, matter: Id): set<nat> {
    set c | c in claims && claims[c].matter == matter :: claims[c].epoch
  }

  ghost predicate IsMaximum(s: set<nat>, m: nat) {
    (forall x | x in s :: x <= m) && (if s == {} then m == 0 else m in s)
  }

  lemma MaximumExists(s: set<nat>) returns (m: nat)
    ensures IsMaximum(s, m)
  {
    if s == {} {
      m := 0;
    } else {
      var x :| x in s;
      var k := MaximumExists(s - {x});
      m := if k < x then x else k;
      assert s == (s - {x}) + {x};
    }
  }

  predicate OpenClaim(s: State, c: Id, matter: Id) {
    c in s.claims && s.claims[c].matter == matter && s.claims[c].closed.None?
  }

  predicate HasEntry(j: Journal, id: Id) {
    exists i :: 0 <= i < |j.entries| && j.entries[i].command.id == id
  }

  /** SELECT count(*) FROM claim_journal_entries WHERE command_id=? is not zero. */
  predicate Journaled(s: State, id: Id) {
    exists j :: j in s.journals && HasEntry(s.journals[j], id)
  }

  function AnchorAt(s: State, count: nat): Option<Anchor> {
    if count == 0 then Some(Anchor(0, ""))
    else if count <= |s.prefixes| then Some(Anchor(count, s.prefixes[count - 1])) else None
  }

  predicate AnchorHolds(s: State, end: Anchor, lastPosition: nat) {
    AnchorAt(s, end.count) == Some(end) && end.count >= lastPosition
  }

  function LastSequence(entries: seq<Entry>): nat {
    if entries == [] then 0 else entries[|entries| - 1].command.sequence
  }

  predicate NothingPending(entries: seq<Entry>) {
    forall i | 0 <= i < |entries| :: entries[i].state == Terminal && entries[i].receipt.Some?
  }

  // ---------------------------------------------------------------- acquire

  datatype AcquireRequest = AcquireRequest(claim: Id, journal: Id, matter: Id, repo: Id, dispatch: Id,
                                           environment: Id, worktree: Id, authority: nat)

  predicate Contended(s: State, r: AcquireRequest) {
    exists c :: c in s.claims && (OpenClaim(s, c, r.matter) || s.claims[c].dispatch == r.dispatch)
  }

  function WithClaim(s: State, r: AcquireRequest, epoch: nat): State {
    s.(claims := s.claims[r.claim := Claim(r.matter, epoch, r.authority, r.environment, r.worktree, r.dispatch, None)],
       journals := s.journals[r.journal := Journal(r.claim, 1, Open, [])])
  }

  ghost predicate AcquireStep(s: State, r: AcquireRequest, t: State, reply: Reply) {
    if r.matter !in s.matters then t == s && reply == Declined(NO_MATTER)
    else if s.matters[r.matter] != r.repo then t == s && reply == Declined(WORKTREE)
    else if Contended(s, r) then t == s && reply == Declined(CONTENDED)
    else if r.claim in s.claims || r.journal in s.journals then t == s && reply == Rolled(ErrConflict)
    else reply.Acquired? && reply.epoch >= 1 && IsMaximum(Epochs(s.claims, r.matter), reply.epoch - 1)
         && t == WithClaim(s, r, reply.epoch)
  }

  // ---------------------------------------------------------------- append and acknowledge

  function WithEntries(s: State, journal: Id, entries: seq<Entry>): State
    requires journal in s.journals
  {
    s.(journals := s.journals[journal := s.journals[journal].(entries := entries)])
  }

  /** The error an append returns, None when it may write. */
  function AppendError(s: State, journal: Id, position: nat, c: JournalCommand): Option<Error> {
    if !Parsed(c) || position == 0 then Some(ErrInvalidProof)
    else if journal !in s.journals || s.journals[journal].claim != c.claim || c.claim !in s.claims
            || s.claims[c.claim].authority != s.authority || s.claims[c.claim].matter !in s.matters then
      Some(ErrNotFound)
    else
      var j := s.journals[journal];
      var claim := s.claims[c.claim];
      if j.state != Open || claim.closed.Some? || c.environment != claim.owner || c.repo != s.matters[claim.matter]
         || c.worktree != claim.worktree || c.authority != claim.authority || c.claimEpoch != claim.epoch then
        Some(ErrFenced)
      else if position != |j.entries| + 1 || !NothingPending(j.entries) then Some(ErrPending)
      else if |j.entries| > 0 && c.sequence <= LastSequence(j.entries) then Some(ErrPending)
      else if |j.entries| == 0 && (c.environment !in s.heads || c.sequence != s.heads[c.environment] + 1) then
        Some(ErrPending)
      else if Journaled(s, c.id) then Some(ErrConflict)
      else None
  }

  function Append(s: State, journal: Id, position: nat, c: JournalCommand): State {
    if AppendError(s, journal, position, c).Some? then s
    else WithEntries(s, journal, s.journals[journal].entries + [Entry(c, PendingReturn, None, None)])
  }

  function Acknowledged(e: Entry, receipt: Receipt, end: Anchor): Entry {
    e.(state := if receipt.code == Succeeded then Terminal else Quarantine,
       receipt := Some(receipt), installed := Some(end))
  }

  /** The receipt is the exact one retained for the entry's command. */
  predicate ExactReceipt(s: State, e: Entry, receipt: Receipt) {
    && e.command.id in s.receipts && s.receipts[e.command.id].receipt == receipt
    && receipt.id == e.command.id && receipt.hash == e.command.hash
    && receipt.environment == e.command.environment && receipt.sequence == e.command.sequence
    && receipt.authority == e.command.authority
  }

  function AckError(s: State, journal: Id, position: nat, receipt: Receipt, end: Anchor): Option<Error> {
    if journal !in s.journals || s.journals[journal].state != Open || !(1 <= position <= |s.journals[journal].entries|)
       || s.journals[journal].entries[position - 1].command.id !in s.receipts then Some(ErrNotFound)
    else
      var entries := s.journals[journal].entries;
      var e := entries[position - 1];
      if e.state != PendingReturn && e.state != Unknown then Some(ErrPending)
      else if !ExactReceipt(s, e, receipt) then Some(ErrInvalidProof)
      else if position > 1 && entries[position - 2].state != Terminal then Some(ErrPending)
      else if !AnchorHolds(s, end, s.receipts[e.command.id].lastPosition) then Some(ErrPrefixMismatch)
      else None
  }

  function Ack(s: State, journal: Id, position: nat, receipt: Receipt, end: Anchor): State {
    if AckError(s, journal, position, receipt, end).Some? then s
    else
      var entries := s.journals[journal].entries;
      WithEntries(s, journal, entries[position - 1 := Acknowledged(entries[position - 1], receipt, end)])
  }

  /** The authenticated holder's view of its current journal, state included. */
  datatype Identity = Identity(claim: Id, journal: Id, environment: Id, matter: Id, dispatch: Id,
                               authority: nat, claimEpoch: nat, generation: nat, state: JournalState)

  predicate HoldsOpenOrSealed(s: State, h: Identity) {
    && h.claim in s.claims && h.journal in s.journals && s.journals[h.journal].claim == h.claim
    && s.journals[h.journal].state != Quarantined
    && s.claims[h.claim].authority == s.authority == h.authority
    && s.claims[h.claim].owner == h.environment && s.claims[h.claim].matter == h.matter
    && s.claims[h.claim].dispatch == h.dispatch && s.claims[h.claim].epoch == h.claimEpoch
    && s.journals[h.journal].generation == h.generation && s.claims[h.claim].closed.None?
  }

  function OwnedAckError(s: State, h: Identity, position: nat, receipt: Receipt, end: Anchor): Option<Error> {
    if position == 0 || h.state != Open then Some(ErrInvalidProof)
    else if !HoldsOpenOrSealed(s, h) || s.journals[h.journal].state != Open || h.matter !in s.matters then
      Some(ErrFenced)
    else if position > |s.journals[h.journal].entries|
            || s.journals[h.journal].entries[position - 1].command.id !in s.receipts then Some(ErrNotFound)
    else
      var entries := s.journals[h.journal].entries;
      var e := entries[position - 1];
      var again := e.state == Terminal || (e.state == Quarantine && receipt.gateOperation && receipt.code == Refused);
      if (e.state == Quarantine && !again) || !ExactReceipt(s, e, receipt) || receipt.environment != h.environment
         || receipt.authority != h.authority || e.command.claim != h.claim || e.command.claimEpoch != h.claimEpoch
         || e.command.repo != s.matters[h.matter] || e.command.worktree != s.claims[h.claim].worktree then
        Some(ErrInvalidProof)
      else if position > 1 && entries[position - 2].state != Terminal then Some(ErrPending)
      else if !AnchorHolds(s, end, s.receipts[e.command.id].lastPosition) then Some(ErrPrefixMismatch)
      else if again && (e.installed.None? || e.installed.value.count < s.receipts[e.command.id].lastPosition) then
        Some(ErrInvalidProof)
      else if again
              && (AnchorAt(s, e.installed.value.count) != Some(e.installed.value)
                  || end.count < e.installed.value.count) then Some(ErrPrefixMismatch)
      else None
  }

  /** A replayed acknowledgement commits without a write. */
  function OwnedAck(s: State, h: Identity, position: nat, receipt: Receipt, end: Anchor): State {
    if OwnedAckError(s, h, position, receipt, end).Some? then s
    else
      var entries := s.journals[h.journal].entries;
      var e := entries[position - 1];
      if e.state == Terminal || e.state == Quarantine then s
      else WithEntries(s, h.journal, entries[position - 1 := Acknowledged(e, receipt, end)])
  }

  // ---------------------------------------------------------------- seal

  function WithState(s: State, journal: Id, state: JournalState): State
    requires journal in s.journals
  {
    s.(journals := s.journals[journal := s.journals[journal].(state := state)])
  }

  ghost predicate SealStep(s: State, journal: Id, t: State, reply: Reply) {
    if journal !in s.journals || s.journals[journal].claim !in s.claims
       || s.claims[s.journals[journal].claim].authority != s.authority then t == s && reply == Rolled(ErrNotFound)
    else if s.journals[journal].state != Open || s.claims[s.journals[journal].claim].closed.Some? then
      t == s && reply == Rolled(ErrFenced)
    else if !AllBarred(s.journals[journal].entries) then t == s && reply.Rolled?
    else t == WithState(s, journal, Sealed) && reply == Done
  }

  /** blocked says whether the claim still has unresolved work; sealing twice
      returns the digest again. */
  ghost predicate OwnedSealStep(s: State, h: Identity, blocked: bool, t: State, reply: Reply) {
    if h.state == Quarantined || !HoldsOpenOrSealed(s, h) then t == s && reply == Rolled(ErrFenced)
    else if blocked then t == s && reply == Rolled(ErrOpenBracket)
    else if !AllBarred(s.journals[h.journal].entries) then t == s && reply.Rolled?
    else
      && t == WithState(s, h.journal, Sealed)
      && reply == SealedAs(Digest(s.journals[h.journal].entries), |s.journals[h.journal].entries|)
  }

  // ---------------------------------------------------------------- release, stand-down and repair

  /** The lifecycle command's identity; claim names the target. */
  datatype Lifecycle = Lifecycle(id: Id, claim: Id, claimEpoch: nat, environment: Id, worktree: Id, repo: Id,
                                 authority: nat, sequence: nat)

  predicate TargetHolds(s: State, c: Lifecycle) {
    && c.claim in s.claims && s.claims[c.claim].matter in s.matters
    && s.claims[c.claim].closed.None? && s.claims[c.claim].authority == c.authority
    && s.matters[s.claims[c.claim].matter] == c.repo && s.claims[c.claim].epoch == c.claimEpoch
  }

  predicate OwnerHolds(s: State, c: Lifecycle) {
    && TargetHolds(s, c)
    && s.claims[c.claim].owner == c.environment && s.claims[c.claim].worktree == c.worktree
  }

  /** The claim's row joined with its open or sealed journal. */
  predicate Current(s: State, claim: Id, journal: Id) {
    journal in s.journals && s.journals[journal].claim == claim && s.journals[journal].state != Quarantined
  }

  function Closed(s: State, c: Lifecycle): State
    requires c.claim in s.claims
  {
    s.(claims := s.claims[c.claim := s.claims[c.claim].(closed := Some(c.id))])
  }

  datatype BarrierClaim = BarrierClaim(journal: Id, isSealed: bool, count: nat, last: nat, receipts: nat,
                                       unresolved: nat, quarantined: nat, digest: Root)

  predicate BarrierWellFormed(b: BarrierClaim) {
    b.isSealed && b.unresolved == 0 && b.quarantined == 0 && b.count == b.last && b.count == b.receipts
  }

  ghost predicate BarrierMatches(s: State, c: Lifecycle, b: BarrierClaim) {
    && Current(s, c.claim, b.journal) && s.journals[b.journal].state == Sealed && BarrierWellFormed(b)
    && AllBarred(s.journals[b.journal].entries)
    && |s.journals[b.journal].entries| == b.count && Digest(s.journals[b.journal].entries) == b.digest
  }

  ghost predicate ReleaseStep(s: State, c: Lifecycle, b: BarrierClaim, blocked: bool, t: State, reply: Reply) {
    if !OwnerHolds(s, c) || blocked || !BarrierMatches(s, c, b) then t == s && reply == Declined(BARRIER)
    else t == Closed(s, c) && reply == Done
  }

  datatype StandDown = StandDown(owner: Id, reason: string, loss: bool, nonce: Id)

  function StandDownReply(s: State, c: Lifecycle, x: StandDown): Reply {
    if !TargetHolds(s, c) || s.claims[c.claim].owner != x.owner || x.owner == c.environment then
      Declined(STAND_DOWN_FENCED)
    else if x.reason == "" then Declined(STAND_DOWN_REASON)
    else if !x.loss then Declined(LOSS)
    else if x.nonce == "" then Rolled(ErrInvalidProof)
    else if x.nonce in s.nonces then Declined(STAND_DOWN_FENCED)
    else Done
  }

  function StoodDown(s: State, c: Lifecycle, x: StandDown): State {
    if StandDownReply(s, c, x) != Done then s else Closed(s, c).(nonces := s.nonces + {x.nonce})
  }

  datatype Proof = Refusal(receipt: Receipt) | NotSubmitted

  /** A repair archives the journal at its first unfinished entry and opens the
      next generation, optionally with a replacement command in it. */
  datatype Repair = Repair(journal: Id, next: Id, position: nat, headId: Id, headHash: seq<Ulid.Byte>,
                           proof: Proof, replacement: Option<JournalCommand>)

  predicate ReplacementFits(s: State, c: Lifecycle, r: Repair, x: JournalCommand)
    requires c.claim in s.claims && s.claims[c.claim].matter in s.matters
  {
    var claim := s.claims[c.claim];
    && Parsed(x) && x.id != r.headId && x.claim == c.claim && x.claimEpoch == claim.epoch && x.authority == c.authority
    && x.environment == claim.owner && x.repo == s.matters[claim.matter] && x.worktree == claim.worktree
    && x.sequence == c.sequence + 1 && x.id !in s.submissions && !Journaled(s, x.id)
  }

  /** The first entry that is not terminal. */
  predicate IsHead(entries: seq<Entry>, position: nat) {
    1 <= position <= |entries| && entries[position - 1].state != Terminal
    && forall i | 0 <= i < position - 1 :: entries[i].state == Terminal
  }

  predicate ProofHolds(s: State, r: Repair) {
    match r.proof
    case Refusal(receipt) =>
      && r.headId in s.receipts && s.receipts[r.headId].receipt == receipt
      && receipt.code != Succeeded && receipt.id == r.headId && receipt.hash == r.headHash
    case NotSubmitted => r.headId !in s.receipts && r.headId !in s.submissions
  }

  predicate RepairFits(s: State, c: Lifecycle, r: Repair)
    requires c.claim in s.claims && s.claims[c.claim].matter in s.matters
  {
    && Current(s, c.claim, r.journal) && s.journals[r.journal].state == Open
    && r.next !in s.journals
    && (r.replacement.Some? ==> ReplacementFits(s, c, r, r.replacement.value))
    && IsHead(s.journals[r.journal].entries, r.position)
    && s.journals[r.journal].entries[r.position - 1].command.id == r.headId
    && s.journals[r.journal].entries[r.position - 1].command.hash == r.headHash
  }

  function RepairReply(s: State, c: Lifecycle, r: Repair): Reply {
    if !OwnerHolds(s, c) || !RepairFits(s, c, r) then Declined(REPAIR_CONFLICT)
    else if !ProofHolds(s, r) then Declined(REPAIR_PROOF)
    else Done
  }

  function Repaired(s: State, c: Lifecycle, r: Repair): State
    requires r.journal in s.journals
  {
    var successor := Journal(c.claim, s.journals[r.journal].generation + 1, Open,
                        if r.replacement.Some? then [Entry(r.replacement.value, PendingReturn, None, None)] else []);
    var t := WithState(s, r.journal, Quarantined);
    t.(journals := t.journals[r.next := successor])
  }

  function RepairedIf(s: State, c: Lifecycle, r: Repair): State {
    if RepairReply(s, c, r) != Done then s else Repaired(s, c, r)
  }

  // ---------------------------------------------------------------- what every step keeps

  ghost predicate EntryOk(e: Entry) {
    && Parsed(e.command)
    && (e.state == Terminal ==>
          e.receipt.Some? && e.receipt.value.code == Succeeded
          && e.receipt.value.id == e.command.id && e.receipt.value.hash == e.command.hash)
  }

  /** Only the last entry can be unfinished, and sequences strictly increase. */
  ghost predicate EntriesOk(entries: seq<Entry>) {
    && (forall i | 0 <= i < |entries| :: EntryOk(entries[i]))
    && (forall i | 0 <= i < |entries| - 1 :: entries[i].state == Terminal)
    && (forall i, k | 0 <= i < k < |entries| :: entries[i].command.sequence < entries[k].command.sequence)
  }

  ghost predicate JournalOk(j: Journal) {
    && j.generation >= 1 && EntriesOk(j.entries)
    && (j.state == Sealed ==> AllBarred(j.entries))
  }

  // The invariant is stated through three index maps, so that each fact is about
  // one row at a time; OneOpenClaim and its neighbours below read the tables' own
  // properties off them.

  /** chain lists a Matter's claims by epoch; all but the last are closed. */
  ghost predicate ChainOk(claims: map<Id, Claim>, chain: map<Id, seq<Id>>) {
    && (forall c | c in claims :: ClaimIndexed(claims[c], c, chain))
    && (forall m, i | m in chain && 0 <= i < |chain[m]| :: ChainLink(claims, chain[m], m, i))
  }

  ghost predicate ClaimIndexed(claim: Claim, c: Id, chain: map<Id, seq<Id>>) {
    claim.matter in chain && 1 <= claim.epoch <= |chain[claim.matter]| && chain[claim.matter][claim.epoch - 1] == c
  }

  ghost predicate ChainLink(claims: map<Id, Claim>, ids: seq<Id>, m: Id, i: nat)
    requires i < |ids|
  {
    && ids[i] in claims && claims[ids[i]].matter == m && claims[ids[i]].epoch == i + 1
    && (i < |ids| - 1 ==> claims[ids[i]].closed.Some?)
  }

  /** line lists a claim's journals by generation; exactly the last is current. */
  ghost predicate LineOk(claims: map<Id, Claim>, js: map<Id, Journal>, line: map<Id, seq<Id>>) {
    && line.Keys == claims.Keys
    && (forall j | j in js :: JournalIndexed(js[j], j, line))
    && (forall c | c in line :: |line[c]| >= 1)
    && (forall c, i | c in line && 0 <= i < |line[c]| :: LineLink(js, line[c], c, i))
  }

  ghost predicate JournalIndexed(journal: Journal, j: Id, line: map<Id, seq<Id>>) {
    && journal.claim in line && 1 <= journal.generation <= |line[journal.claim]|
    && line[journal.claim][journal.generation - 1] == j
  }

  ghost predicate LineLink(js: map<Id, Journal>, ids: seq<Id>, c: Id, i: nat)
    requires i < |ids|
  {
    && ids[i] in js && js[ids[i]].claim == c && js[ids[i]].generation == i + 1
    && (js[ids[i]].state == Quarantined <==> i < |ids| - 1)
  }

  /** at says where a command id is journaled: it cannot be in two places. */
  ghost predicate CommandsOk(js: map<Id, Journal>, at: map<Id, (Id, nat)>) {
    forall j, i | j in js && 0 <= i < |js[j].entries| :: CommandAt(js[j].entries[i].command.id, j, i, at)
  }

  ghost predicate CommandAt(id: Id, j: Id, i: nat, at: map<Id, (Id, nat)>) {
    id in at && at[id] == (j, i)
  }

  datatype Index = Index(chain: map<Id, seq<Id>>, line: map<Id, seq<Id>>, at: map<Id, (Id, nat)>)

  ghost predicate Indexed(s: State, x: Index) {
    && ChainOk(s.claims, x.chain)
    && LineOk(s.claims, s.journals, x.line)
    && CommandsOk(s.journals, x.at)
    && (forall j | j in s.journals :: JournalOk(s.journals[j]))
  }

  ghost predicate Inv(s: State) {
    exists x :: Indexed(s, x)
  }

  // ---------------------------------------------------------------- what the invariant says about the tables

  /** Mutual exclusion: at most one open explicit claim per Matter. */
  lemma OneOpenClaim(s: State, a: Id, b: Id, matter: Id)
    requires Inv(s) && OpenClaim(s, a, matter) && OpenClaim(s, b, matter)
    ensures a == b
  {
    var x :| Indexed(s, x);
    assert ClaimIndexed(s.claims[a], a, x.chain) && ClaimIndexed(s.claims[b], b, x.chain);
    assert ChainLink(s.claims, x.chain[matter], matter, s.claims[a].epoch - 1);
    assert ChainLink(s.claims, x.chain[matter], matter, s.claims[b].epoch - 1);
  }

  /** A Matter's epochs are exactly 1..k, one claim each, and an open claim has epoch k. */
  lemma EpochsContiguous(s: State, matter: Id) returns (k: nat)
    requires Inv(s)
    ensures forall e: nat :: e in Epochs(s.claims, matter) <==> 1 <= e <= k
    ensures forall a, b | a in s.claims && b in s.claims && s.claims[a].matter == s.claims[b].matter == matter
                          && s.claims[a].epoch == s.claims[b].epoch :: a == b
    ensures forall c | OpenClaim(s, c, matter) :: s.claims[c].epoch == k
  {
    var x :| Indexed(s, x);
    k := if matter in x.chain then |x.chain[matter]| else 0;
    forall c | c in s.claims && s.claims[c].matter == matter
      ensures 1 <= s.claims[c].epoch <= k && x.chain[matter][s.claims[c].epoch - 1] == c
      ensures s.claims[c].closed.None? ==> s.claims[c].epoch == k
    {
      assert ClaimIndexed(s.claims[c], c, x.chain);
      assert ChainLink(s.claims, x.chain[matter], matter, s.claims[c].epoch - 1);
    }
    forall e: nat | 1 <= e <= k
      ensures e in Epochs(s.claims, matter)
    {
      assert ChainLink(s.claims, x.chain[matter], matter, e - 1);
    }
  }

  ghost predicate HasGeneration(s: State, claim: Id, n: nat) {
    exists j :: j in s.journals && s.journals[j].claim == claim && s.journals[j].generation == n
  }

  /** A claim's generations are exactly 1..g, one journal each; only g is not quarantined. */
  lemma GenerationsContiguous(s: State, claim: Id) returns (g: nat)
    requires Inv(s) && claim in s.claims
    ensures g >= 1
    ensures forall n: nat | 1 <= n <= g :: HasGeneration(s, claim, n)
    ensures forall j | j in s.journals && s.journals[j].claim == claim ::
              1 <= s.journals[j].generation <= g
              && (s.journals[j].state != Quarantined <==> s.journals[j].generation == g)
    ensures forall a, b | a in s.journals && b in s.journals && s.journals[a].claim == s.journals[b].claim == claim
                          && s.journals[a].generation == s.journals[b].generation :: a == b
  {
    var x :| Indexed(s, x);
    g := |x.line[claim]|;
    forall n: nat | 1 <= n <= g
      ensures HasGeneration(s, claim, n)
    {
      assert LineLink(s.journals, x.line[claim], claim, n - 1);
      assert s.journals[x.line[claim][n - 1]].generation == n;
    }
    forall j | j in s.journals && s.journals[j].claim == claim
      ensures 1 <= s.journals[j].generation <= g && x.line[claim][s.journals[j].generation - 1] == j
      ensures s.journals[j].state != Quarantined <==> s.journals[j].generation == g
    {
      assert JournalIndexed(s.journals[j], j, x.line);
      assert LineLink(s.journals, x.line[claim], claim, s.journals[j].generation - 1);
    }
  }

  /** No command id appears in two entries, of one journal or of two. */
  lemma CommandsDistinct(s: State, a: Id, i: nat, b: Id, k: nat)
    requires Inv(s) && a in s.journals && b in s.journals && i < |s.journals[a].entries| && k < |s.journals[b].entries|
    requires s.journals[a].entries[i].command.id == s.journals[b].entries[k].command.id
    ensures a == b && i == k
  {
    var x :| Indexed(s, x);
    assert CommandAt(s.journals[a].entries[i].command.id, a, i, x.at);
    assert CommandAt(s.journals[b].entries[k].command.id, b, k, x.at);
  }

  lemma OneCurrentJournal(s: State, claim: Id, a: Id, b: Id)
    requires Inv(s) && claim in s.claims && Current(s, claim, a) && Current(s, claim, b)
    ensures a == b
  {
    var g := GenerationsContiguous(s, claim);
  }

  // ---------------------------------------------------------------- step by step

  lemma MaximumIsChainLength(s: State, chain: map<Id, seq<Id>>, matter: Id, m: nat)
    requires ChainOk(s.claims, chain) && IsMaximum(Epochs(s.claims, matter), m)
    ensures m == if matter in chain then |chain[matter]| else 0
  {
    var k := if matter in chain then |chain[matter]| else 0;
    if m != 0 {
      var c :| c in s.claims && s.claims[c].matter == matter && s.claims[c].epoch == m;
      assert ClaimIndexed(s.claims[c], c, chain);
    }
    if k > 0 {
      assert ChainLink(s.claims, chain[matter], matter, k - 1);
      assert k in Epochs(s.claims, matter);
    }
  }

  lemma ChainExtended(claims: map<Id, Claim>, chain: map<Id, seq<Id>>, id: Id, claim: Claim)
    requires ChainOk(claims, chain) && id !in claims
    requires forall c | c in claims && claims[c].matter == claim.matter :: claims[c].closed.Some?
    requires claim.epoch == 1 + if claim.matter in chain then |chain[claim.matter]| else 0
    ensures ChainOk(claims[id := claim],
                    chain[claim.matter := (if claim.matter in chain then chain[claim.matter] else []) + [id]])
  {
    var prior := if claim.matter in chain then chain[claim.matter] else [];
    var after, longer := claims[id := claim], chain[claim.matter := prior + [id]];
    forall c | c in after
      ensures ClaimIndexed(after[c], c, longer)
    {
      if c != id {
        assert ClaimIndexed(claims[c], c, chain);
      }
    }
    forall m, i | m in longer && 0 <= i < |longer[m]|
      ensures ChainLink(after, longer[m], m, i)
    {
      if m != claim.matter || i < |prior| {
        assert ChainLink(claims, chain[m], m, i);
      }
    }
  }

  lemma LineStarted(claims: map<Id, Claim>, js: map<Id, Journal>, line: map<Id, seq<Id>>, id: Id, claim: Claim, j: Id)
    requires LineOk(claims, js, line) && id !in claims && j !in js
    ensures LineOk(claims[id := claim], js[j := Journal(id, 1, Open, [])], line[id := [j]])
  {
    var ks, longer := js[j := Journal(id, 1, Open, [])], line[id := [j]];
    forall k | k in ks
      ensures JournalIndexed(ks[k], k, longer)
    {
      if k != j {
        assert JournalIndexed(js[k], k, line);
      }
    }
    forall c, i | c in longer && 0 <= i < |longer[c]|
      ensures LineLink(ks, longer[c], c, i)
    {
      if c != id {
        assert LineLink(js, line[c], c, i);
      }
    }
  }

  lemma AcquireKeepsInv(s: State, r: AcquireRequest, t: State, reply: Reply)
    requires Inv(s) && AcquireStep(s, r, t, reply)
    ensures Inv(t)
  {
    if reply.Acquired? {
      var x :| Indexed(s, x);
      AcquireIndexed(s, r, x, reply.epoch);
    }
  }

  lemma AcquireIndexed(s: State, r: AcquireRequest, x: Index, epoch: nat)
    requires Indexed(s, x) && !Contended(s, r) && r.claim !in s.claims && r.journal !in s.journals
    requires epoch >= 1 && IsMaximum(Epochs(s.claims, r.matter), epoch - 1)
    ensures Inv(WithClaim(s, r, epoch))
  {
    AcquireChain(s, r, x.chain, epoch);
    AcquireLine(s, r, x, epoch);
    IndexedFrom(WithClaim(s, r, epoch), Chained(x.chain, r), x.line[r.claim := [r.journal]], x.at);
  }

  ghost function Chained(chain: map<Id, seq<Id>>, r: AcquireRequest): map<Id, seq<Id>> {
    chain[r.matter := (if r.matter in chain then chain[r.matter] else []) + [r.claim]]
  }

  lemma AcquireChain(s: State, r: AcquireRequest, chain: map<Id, seq<Id>>, epoch: nat)
    requires ChainOk(s.claims, chain) && !Contended(s, r) && r.claim !in s.claims
    requires epoch >= 1 && IsMaximum(Epochs(s.claims, r.matter), epoch - 1)
    ensures ChainOk(WithClaim(s, r, epoch).claims, Chained(chain, r))
  {
    MaximumIsChainLength(s, chain, r.matter, epoch - 1);
    forall c | c in s.claims && s.claims[c].matter == r.matter
      ensures s.claims[c].closed.Some?
    {
      assert !OpenClaim(s, c, r.matter);
    }
    ChainExtended(s.claims, chain, r.claim, WithClaim(s, r, epoch).claims[r.claim]);
  }

  lemma AcquireLine(s: State, r: AcquireRequest, x: Index, epoch: nat)
    requires LineOk(s.claims, s.journals, x.line) && CommandsOk(s.journals, x.at)
    requires r.claim !in s.claims && r.journal !in s.journals
    ensures var t := WithClaim(s, r, epoch);
            LineOk(t.claims, t.journals, x.line[r.claim := [r.journal]]) && CommandsOk(t.journals, x.at)
  {
    var t := WithClaim(s, r, epoch);
    LineStarted(s.claims, s.journals, x.line, r.claim, t.claims[r.claim], r.journal);
    CommandsGrown(s.journals, t.journals, x.at, r.journal, None);
  }

  lemma IndexedFrom(t: State, chain: map<Id, seq<Id>>, line: map<Id, seq<Id>>, at: map<Id, (Id, nat)>)
    requires ChainOk(t.claims, chain) && LineOk(t.claims, t.journals, line) && CommandsOk(t.journals, at)
    requires forall j | j in t.journals :: JournalOk(t.journals[j])
    ensures Inv(t)
  {
    assert Indexed(t, Index(chain, line, at));
  }

  /** Where commands are journaled after one journal is added. */
  lemma CommandsGrown(js: map<Id, Journal>, ks: map<Id, Journal>, at: map<Id, (Id, nat)>, j: Id, first: Option<Id>)
    requires CommandsOk(js, at) && j !in js && ks.Keys == js.Keys + {j}
    requires forall k | k in js :: ks[k].entries == js[k].entries
    requires |ks[j].entries| == if first.Some? then 1 else 0
    requires first.Some?
             ==> ks[j].entries[0].command.id == first.value && forall k | k in js :: !HasEntry(js[k], first.value)
    ensures CommandsOk(ks, if first.Some? then at[first.value := (j, 0)] else at)
  {
    var after := if first.Some? then at[first.value := (j, 0)] else at;
    forall k, i | k in ks && 0 <= i < |ks[k].entries|
      ensures CommandAt(ks[k].entries[i].command.id, k, i, after)
    {
      if k != j {
        assert CommandAt(js[k].entries[i].command.id, k, i, at);
        assert first.Some? ==> !HasEntry(js[k], first.value);
      }
    }
  }

  /** Rewriting one open journal's entries, claim and generation unmoved. */
  lemma LineUnmoved(claims: map<Id, Claim>, js: map<Id, Journal>, line: map<Id, seq<Id>>, j: Id, journal: Journal)
    requires LineOk(claims, js, line) && j in js
    requires journal.claim == js[j].claim && journal.generation == js[j].generation
    requires journal.state == Quarantined <==> js[j].state == Quarantined
    ensures LineOk(claims, js[j := journal], line)
  {
    var ks := js[j := journal];
    forall k | k in ks
      ensures JournalIndexed(ks[k], k, line)
    {
      assert JournalIndexed(js[k], k, line);
    }
    forall c, i | c in line && 0 <= i < |line[c]|
      ensures LineLink(ks, line[c], c, i)
    {
      assert LineLink(js, line[c], c, i);
    }
  }

  lemma RewriteKeepsInv(s: State, x: Index, j: Id, journal: Journal, at: map<Id, (Id, nat)>)
    requires Indexed(s, x) && j in s.journals && JournalOk(journal)
    requires journal.claim == s.journals[j].claim && journal.generation == s.journals[j].generation
    requires journal.state == Quarantined <==> s.journals[j].state == Quarantined
    requires CommandsOk(s.journals[j := journal], at)
    ensures Inv(s.(journals := s.journals[j := journal]))
  {
    LineUnmoved(s.claims, s.journals, x.line, j, journal);
    IndexedFrom(s.(journals := s.journals[j := journal]), x.chain, x.line, at);
  }

  lemma AppendedOk(entries: seq<Entry>, c: JournalCommand)
    requires EntriesOk(entries) && NothingPending(entries) && Parsed(c)
    requires |entries| > 0 ==> c.sequence > LastSequence(entries)
    ensures EntriesOk(entries + [Entry(c, PendingReturn, None, None)])
  {
    var after := entries + [Entry(c, PendingReturn, None, None)];
    forall i, k | 0 <= i < k < |after|
      ensures after[i].command.sequence < after[k].command.sequence
    {
      if k == |entries| && i < |entries| - 1 {
        assert entries[i].command.sequence < entries[|entries| - 1].command.sequence;
      }
    }
  }

  lemma AppendKeepsInv(s: State, journal: Id, position: nat, c: JournalCommand)
    requires Inv(s)
    ensures Inv(Append(s, journal, position, c))
  {
    var x :| Indexed(s, x);
    if AppendError(s, journal, position, c).None? {
      var j := s.journals[journal];
      assert JournalOk(j);
      AppendedOk(j.entries, c);
      var after := j.(entries := j.entries + [Entry(c, PendingReturn, None, None)]);
      var at := x.at[c.id := (journal, |j.entries|)];
      var ks := s.journals[journal := after];
      forall k, i | k in ks && 0 <= i < |ks[k].entries|
        ensures CommandAt(ks[k].entries[i].command.id, k, i, at)
      {
        if k != journal || i < |j.entries| {
          assert CommandAt(s.journals[k].entries[i].command.id, k, i, x.at);
          assert !HasEntry(s.journals[k], c.id);
        }
      }
      RewriteKeepsInv(s, x, journal, after, at);
    }
  }

  lemma AcknowledgedOk(entries: seq<Entry>, n: nat, receipt: Receipt, end: Anchor)
    requires EntriesOk(entries) && n < |entries| && entries[n].state != Terminal
    requires receipt.id == entries[n].command.id && receipt.hash == entries[n].command.hash
    ensures EntriesOk(entries[n := Acknowledged(entries[n], receipt, end)])
  {
    var after := entries[n := Acknowledged(entries[n], receipt, end)];
    assert forall i | 0 <= i < |after| :: after[i].command == entries[i].command;
  }

  lemma AcknowledgeKeepsInv(s: State, journal: Id, position: nat, receipt: Receipt, end: Anchor)
    requires Inv(s) && journal in s.journals && s.journals[journal].state == Open
    requires 1 <= position <= |s.journals[journal].entries|
    requires s.journals[journal].entries[position - 1].state != Terminal
    requires ExactReceipt(s, s.journals[journal].entries[position - 1], receipt)
    ensures var entries := s.journals[journal].entries;
            Inv(WithEntries(s, journal, entries[position - 1 := Acknowledged(entries[position - 1], receipt, end)]))
  {
    var x :| Indexed(s, x);
    var j := s.journals[journal];
    assert JournalOk(j);
    AcknowledgedOk(j.entries, position - 1, receipt, end);
    var after := j.(entries := j.entries[position - 1 := Acknowledged(j.entries[position - 1], receipt, end)]);
    CommandsUnmoved(s.journals, journal, after, x.at);
    RewriteKeepsInv(s, x, journal, after, x.at);
  }

  lemma CommandsUnmoved(js: map<Id, Journal>, j: Id, journal: Journal, at: map<Id, (Id, nat)>)
    requires CommandsOk(js, at) && j in js && |journal.entries| == |js[j].entries|
    requires forall i | 0 <= i < |journal.entries| :: journal.entries[i].command == js[j].entries[i].command
    ensures CommandsOk(js[j := journal], at)
  {
    var ks := js[j := journal];
    forall k, i | k in ks && 0 <= i < |ks[k].entries|
      ensures CommandAt(ks[k].entries[i].command.id, k, i, at)
    {
      assert CommandAt(js[k].entries[i].command.id, k, i, at);
    }
  }

  lemma SealKeepsInv(s: State, journal: Id)
    requires Inv(s) && journal in s.journals && s.journals[journal].state != Quarantined
             && AllBarred(s.journals[journal].entries)
    ensures Inv(WithState(s, journal, Sealed))
  {
    var x :| Indexed(s, x);
    var after := s.journals[journal].(state := Sealed);
    assert JournalOk(s.journals[journal]);
    CommandsUnmoved(s.journals, journal, after, x.at);
    RewriteKeepsInv(s, x, journal, after, x.at);
  }

  lemma CloseKeepsInv(s: State, c: Lifecycle)
    requires Inv(s) && c.claim in s.claims
    ensures Inv(Closed(s, c))
  {
    var x :| Indexed(s, x);
    ChainClosed(s.claims, x.chain, c.claim, c.id);
    IndexedFrom(Closed(s, c), x.chain, x.line, x.at);
  }

  lemma ChainClosed(claims: map<Id, Claim>, chain: map<Id, seq<Id>>, id: Id, command: Id)
    requires ChainOk(claims, chain) && id in claims
    ensures ChainOk(claims[id := claims[id].(closed := Some(command))], chain)
  {
    var after := claims[id := claims[id].(closed := Some(command))];
    forall d | d in after
      ensures ClaimIndexed(after[d], d, chain)
    {
      assert ClaimIndexed(claims[d], d, chain);
    }
    forall m, i | m in chain && 0 <= i < |chain[m]|
      ensures ChainLink(after, chain[m], m, i)
    {
      assert ChainLink(claims, chain[m], m, i);
    }
  }

  lemma LineSucceeded(claims: map<Id, Claim>, js: map<Id, Journal>, line: map<Id, seq<Id>>, j: Id, next: Id,
                      journal: Journal)
    requires LineOk(claims, js, line) && j in js && js[j].state != Quarantined && next !in js
    requires journal.claim == js[j].claim && journal.generation == js[j].generation + 1 && journal.state != Quarantined
    ensures LineOk(claims, js[j := js[j].(state := Quarantined)][next := journal],
                   line[js[j].claim := line[js[j].claim] + [next]])
  {
    var c := js[j].claim;
    assert JournalIndexed(js[j], j, line);
    assert LineLink(js, line[c], c, js[j].generation - 1);
    var ks, longer := js[j := js[j].(state := Quarantined)][next := journal], line[c := line[c] + [next]];
    forall k | k in ks
      ensures JournalIndexed(ks[k], k, longer)
    {
      if k != next {
        assert JournalIndexed(js[k], k, line);
      }
    }
    forall d, i | d in longer && 0 <= i < |longer[d]|
      ensures LineLink(ks, longer[d], d, i)
    {
      if d != c || i < |line[c]| {
        assert LineLink(js, line[d], d, i);
        assert JournalIndexed(js[line[d][i]], line[d][i], line);
      }
    }
  }

  lemma RepairKeepsInv(s: State, c: Lifecycle, r: Repair)
    requires Inv(s) && OwnerHolds(s, c) && RepairFits(s, c, r)
    ensures Inv(Repaired(s, c, r))
  {
    var x :| Indexed(s, x);
    var first := if r.replacement.Some? then Some(r.replacement.value.id) else None;
    assert r.replacement.Some? ==> ReplacementFits(s, c, r, r.replacement.value);
    RepairIndexed(s, c, r, x, first);
  }

  lemma RepairIndexed(s: State, c: Lifecycle, r: Repair, x: Index, first: Option<Id>)
    requires Indexed(s, x) && c.claim in s.claims
    requires Current(s, c.claim, r.journal) && r.next !in s.journals
    requires first == if r.replacement.Some? then Some(r.replacement.value.id) else None
    requires r.replacement.Some? ==> Parsed(r.replacement.value) && !Journaled(s, r.replacement.value.id)
    ensures Inv(Repaired(s, c, r))
  {
    var t := Repaired(s, c, r);
    LineSucceeded(s.claims, s.journals, x.line, r.journal, r.next, t.journals[r.next]);
    RepairCommands(s, c, r, x.at, first);
    RepairJournals(s, c, r);
    IndexedFrom(t, x.chain, x.line[c.claim := x.line[c.claim] + [r.next]],
                if first.Some? then x.at[first.value := (r.next, 0)] else x.at);
  }

  lemma RepairCommands(s: State, c: Lifecycle, r: Repair, at: map<Id, (Id, nat)>, first: Option<Id>)
    requires CommandsOk(s.journals, at) && r.journal in s.journals && r.next !in s.journals
    requires first == if r.replacement.Some? then Some(r.replacement.value.id) else None
    requires r.replacement.Some? ==> !Journaled(s, r.replacement.value.id)
    ensures CommandsOk(Repaired(s, c, r).journals, if first.Some? then at[first.value := (r.next, 0)] else at)
  {
    CommandsGrown(s.journals, Repaired(s, c, r).journals, at, r.next, first);
  }

  lemma RepairJournals(s: State, c: Lifecycle, r: Repair)
    requires forall j | j in s.journals :: JournalOk(s.journals[j])
    requires r.journal in s.journals && r.next !in s.journals
    requires r.replacement.Some? ==> Parsed(r.replacement.value)
    ensures forall j | j in Repaired(s, c, r).journals :: JournalOk(Repaired(s, c, r).journals[j])
  {
    assert JournalOk(s.journals[r.journal]);
    assert JournalOk(Repaired(s, c, r).journals[r.next]);
  }

  lemma AckKeepsInv(s: State, journal: Id, position: nat, receipt: Receipt, end: Anchor)
    requires Inv(s)
    ensures Inv(Ack(s, journal, position, receipt, end))
  {
    if AckError(s, journal, position, receipt, end).None? {
      AcknowledgeKeepsInv(s, journal, position, receipt, end);
    }
  }

  lemma OwnedAckKeepsInv(s: State, h: Identity, position: nat, receipt: Receipt, end: Anchor)
    requires Inv(s)
    ensures Inv(OwnedAck(s, h, position, receipt, end))
  {
    if OwnedAckError(s, h, position, receipt, end).None? {
      var state := s.journals[h.journal].entries[position - 1].state;
      if state != Terminal && state != Quarantine {
        AcknowledgeKeepsInv(s, h.journal, position, receipt, end);
      }
    }
  }

  lemma SealStepKeepsInv(s: State, journal: Id, t: State, reply: Reply)
    requires Inv(s) && SealStep(s, journal, t, reply)
    ensures Inv(t)
  {
    if reply == Done {
      SealKeepsInv(s, journal);
    }
  }

  lemma OwnedSealKeepsInv(s: State, h: Identity, blocked: bool, t: State, reply: Reply)
    requires Inv(s) && OwnedSealStep(s, h, blocked, t, reply)
    ensures Inv(t)
  {
    if reply.SealedAs? {
      SealKeepsInv(s, h.journal);
    }
  }

  lemma ReleaseKeepsInv(s: State, c: Lifecycle, b: BarrierClaim, blocked: bool, t: State, reply: Reply)
    requires Inv(s) && ReleaseStep(s, c, b, blocked, t, reply)
    ensures Inv(t)
  {
    if reply == Done {
      CloseKeepsInv(s, c);
    }
  }

  lemma StandDownKeepsInv(s: State, c: Lifecycle, x: StandDown)
    requires Inv(s)
    ensures Inv(StoodDown(s, c, x))
  {
    if StandDownReply(s, c, x) == Done {
      CloseKeepsInv(s, c);
      SameTablesInv(Closed(s, c), StoodDown(s, c, x));
    }
  }

  lemma RepairedKeepsInv(s: State, c: Lifecycle, r: Repair)
    requires Inv(s)
    ensures Inv(RepairedIf(s, c, r))
  {
    if RepairReply(s, c, r) == Done {
      RepairKeepsInv(s, c, r);
    }
  }

  lemma SameTablesInv(s: State, t: State)
    requires Inv(s) && t.claims == s.claims && t.journals == s.journals
    ensures Inv(t)
  {
    var x :| Indexed(s, x);
    IndexedFrom(t, x.chain, x.line, x.at);
  }
}
