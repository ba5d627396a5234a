/** The anonymous batch sweep: one decision at the current log position, committed
    with that position, and re-evaluated there by the reopen check ever after. */
module BatchSweep {
  import opened Common
  import opened Nodes
  import opened Projection
  import Prefix

  type Anchor = Prefix.Anchor<Event>

  // ---------------------------------------------------------------- tables

  datatype Operation =
    | ClaimRelease(claim: Id, claimEpoch: nat, repo: Id, worktree: Id, barrier: Id)
    | Sweep
    | OtherOperation

  datatype Submission = Submission(hash: Id, environment: Id, epoch: nat, sequence: nat, operation: Operation,
                                   terminal: bool)

  /** first and last are the receipt's event positions, 0 when it has none. */
  datatype Receipt = Receipt(digest: Id, hash: Id, succeeded: bool, first: nat, last: nat, signed: bool)

  datatype Claim = Claim(matter: Id, batch: Id, epoch: nat, authority: nat, owner: Id, worktree: Id, dispatch: Id,
                         acquire: Id, closed: Option<Id>)

  datatype Close = Close(command: Id, release: bool, actor: Id, barrier: Id)

  datatype Birth = Birth(command: Id, owner: Id, repo: Id, release: Option<Id>, barrier: Id)

  datatype Outcome = Swept | AlreadySwept | Refused(code: string)

  datatype Boundary = Boundary(hash: Id, receiptDigest: Id, outcome: Outcome, anchor: Anchor)

  datatype Store = Store(
    nodes: map<Id, Node>, log: seq<Event>, heads: map<Id, nat>,
    submissions: map<Id, Submission>, receipts: map<Id, Receipt>,
    claims: map<Id, Claim>, closes: map<Id, Close>, births: map<Id, Birth>,
    boundaries: map<Id, Boundary>, sweeps: map<Id, Command>)

  /** The evidence a sweep names: the release that closed the Matter's claim. */
  datatype CloseRef = CloseRef(release: Id, releaseHash: Id, receiptDigest: Id, claim: Id, claimEpoch: nat,
                               anchor: Anchor)

  datatype Command = Command(id: Id, hash: Id, environment: Id, epoch: nat, sequence: nat, repo: Id, role: bool,
                             batch: Id, matter: Id, close: CloseRef)

  const MISSING := "batch.sweep-target-missing"
  const NOT_ELIGIBLE := "batch.sweep-not-eligible"
  const CLAIM_CLOSE := "batch.sweep-claim-close"
  const UNSUPPORTED := "batch.sweep-unsupported"

  // ---------------------------------------------------------------- reading the prefix

  predicate Prior(prefix: seq<Event>, subject: Id, body: Body) {
    exists i :: 0 <= i < |prefix| && prefix[i].subject == subject && prefix[i].body == body
  }

  /** The Matter an anonymous Batch was created for, by the last such event. */
  function BatchMatter(prefix: seq<Event>, batch: Id): Option<Id> {
    if prefix == [] then None
    else
      var e := prefix[|prefix| - 1];
      if e.subject == batch && e.body.BatchAnonymous? then Some(e.body.matter)
      else BatchMatter(prefix[..|prefix| - 1], batch)
  }

  /** Runs, dispatches and roles tied to the Batch or Matter, with whether they are open. */
  datatype Brackets = Brackets(runs: map<Id, bool>, dispatches: map<Id, bool>, roles: set<Id>)

  function Bracketed(b: Brackets, e: Event, batch: Id, matter: Id): Brackets {
    match e.body
    case RunStarted(x, y) => if x == batch || y == batch then b.(runs := b.runs[e.subject := true]) else b
    case RunEnded => if e.subject in b.runs then b.(runs := b.runs[e.subject := false]) else b
    case DispatchOpened(x, y, z, run) =>
      if x == batch || y == matter || z == matter || run in b.runs then
        b.(dispatches := b.dispatches[e.subject := true])
      else b
    case DispatchClosed => if e.subject in b.dispatches then b.(dispatches := b.dispatches[e.subject := false]) else b
    case RoleSpawned(x, y) => if x in b.dispatches || y in b.dispatches then b.(roles := b.roles + {e.subject}) else b
    case RoleClosed => b.(roles := b.roles - {e.subject})
    case _ => b
  }

  function AllBrackets(prefix: seq<Event>, batch: Id, matter: Id): Brackets {
    if prefix == [] then Brackets(map[], map[], {})
    else Bracketed(AllBrackets(prefix[..|prefix| - 1], batch, matter), prefix[|prefix| - 1], batch, matter)
  }

  predicate IsOpen(b: Brackets) {
    (exists r :: r in b.runs && b.runs[r]) || (exists d :: d in b.dispatches && b.dispatches[d]) || b.roles != {}
  }

  // ---------------------------------------------------------------- reading the tables at a position

  /** A claim is active at p when it was acquired by p and not closed by p. */
  predicate ActiveAt(receipts: map<Id, Receipt>, acquire: Id, closed: Option<Id>, p: nat) {
    && acquire in receipts && 0 < receipts[acquire].first <= p
    && (closed.None? || closed.value !in receipts || receipts[closed.value].last == 0
        || receipts[closed.value].last > p)
  }

  predicate ClaimActive(receipts: map<Id, Receipt>, claims: map<Id, Claim>, matter: Id, p: nat) {
    exists c :: c in claims && claims[c].matter == matter && ActiveAt(receipts, claims[c].acquire, claims[c].closed, p)
  }

  predicate BirthActive(receipts: map<Id, Receipt>, births: map<Id, Birth>, matter: Id, p: nat) {
    matter in births && ActiveAt(receipts, births[matter].command, births[matter].release, p)
  }

  predicate AnyActive(s: Store, matter: Id, p: nat) {
    ClaimActive(s.receipts, s.claims, matter, p) || BirthActive(s.receipts, s.births, matter, p)
  }

  function Owned(log: seq<Event>, command: Id): nat {
    if log == [] then 0 else Owned(log[..|log| - 1], command) + if log[|log| - 1].command == command then 1 else 0
  }

  predicate ReleaseRow(x: Submission, r: Receipt, c: Command, p: nat) {
    var ref := c.close;
    && x.operation.ClaimRelease? && x.terminal && x.hash == ref.releaseHash == r.hash && r.digest == ref.receiptDigest
    && r.succeeded && r.signed && x.epoch == c.epoch && x.environment == c.environment && x.sequence < c.sequence
    && x.operation.repo == c.repo && x.operation.claim == ref.claim && x.operation.claimEpoch == ref.claimEpoch
    && 0 < r.first <= r.last <= p
  }

  predicate ExplicitClosed(claims: map<Id, Claim>, closes: map<Id, Close>, c: Command, x: Operation)
    requires x.ClaimRelease?
  {
    var k := c.close.claim;
    && k in claims && k in closes
    && claims[k].matter == c.matter && claims[k].batch == c.batch && claims[k].owner == c.environment
    && claims[k].worktree == x.worktree && claims[k].closed == Some(c.close.release)
    && claims[k].epoch == c.close.claimEpoch && claims[k].authority == c.epoch
    && closes[k].release && closes[k].actor == c.environment && closes[k].barrier == x.barrier
  }

  predicate BirthReleased(births: map<Id, Birth>, c: Command, x: Operation)
    requires x.ClaimRelease?
  {
    var m := c.matter;
    && c.close.claim == m && c.close.claimEpoch == 1 && m in births
    && births[m].owner == c.environment && births[m].repo == c.repo
    && births[m].release == Some(c.close.release) && births[m].barrier == x.barrier
  }

  /** The claim or the birth journal the release closed. */
  predicate ClosedBy(s: Store, c: Command, x: Operation, r: Receipt)
    requires x.ClaimRelease?
  {
    if x.worktree == "" then BirthReleased(s.births, c, x) && r.first == r.last
    else ExplicitClosed(s.claims, s.closes, c, x) && r.last == r.first + 1
  }

  /** The release's own events, in place, and no others: the dispatch closed before an
      explicit claim, and an installed anchor at or after them. */
  predicate ReleaseEvents(log: seq<Event>, c: Command, dispatch: Id, r: Receipt, p: nat) {
    && 0 < r.first <= r.last <= |log|
    && (forall i | r.first - 1 <= i < r.last :: log[i].command == c.close.release && log[i].repo == c.repo)
    && log[r.last - 1].body == ClaimReleased(c.close.claim) && log[r.last - 1].subject == c.close.claim
    && (r.first < r.last ==> log[r.first - 1].body == DispatchClosed && log[r.first - 1].subject == dispatch)
    && Owned(log, c.close.release) == r.last - r.first + 1
    && r.last <= c.close.anchor.count <= p && c.close.anchor.count <= |log|
    && c.close.anchor == Anchored(log[..c.close.anchor.count])
  }

  /** The anchor of a whole log. */
  function Anchored(log: seq<Event>): Anchor {
    Prefix.Anchor(|log|, if log == [] then 0 else log[|log| - 1].id, Prefix.ChainOf(log))
  }

  function DispatchOf(claims: map<Id, Claim>, claim: Id): Id {
    if claim in claims then claims[claim].dispatch else ""
  }

  predicate CloseEvidence(s: Store, c: Command, p: nat) {
    && c.close.release in s.submissions && c.close.release in s.receipts
    && ReleaseRow(s.submissions[c.close.release], s.receipts[c.close.release], c, p)
    && ClosedBy(s, c, s.submissions[c.close.release].operation, s.receipts[c.close.release])
    && ReleaseEvents(s.log, c, DispatchOf(s.claims, c.close.claim), s.receipts[c.close.release], p)
  }

  /** The refusals about the Matter and the Batch themselves. */
  function TargetRefusal(nodes: map<Id, Node>, prefix: seq<Event>, c: Command): Option<string> {
    if c.matter !in nodes || nodes[c.matter].kind != Matter || nodes[c.matter].birth > |prefix|
       || !nodes[c.matter].LiveAt(|prefix|)
    then Some(MISSING)
    else if BatchMatter(prefix, c.batch).None? && !Prior(prefix, c.batch, BatchNamed) then Some(MISSING)
    else if BatchMatter(prefix, c.batch) != Some(c.matter) || nodes[c.matter].repo != c.repo
            || Prior(prefix, c.batch, BatchDismissed)
    then Some(NOT_ELIGIBLE)
    else None
  }

  /** The outcome once the Matter is sealed and free; a function of the prefix alone. */
  function FinalOutcome(prefix: seq<Event>, c: Command): Outcome {
    if c.role || IsOpen(AllBrackets(prefix, c.batch, c.matter)) then Refused(UNSUPPORTED)
    else if Prior(prefix, c.batch, BatchSwept) then AlreadySwept
    else Swept
  }

  /** batchSweepResultAt: every table read, every event up to p, in the order the
      refusals are decided. None is the store error of an unprojectable prefix. */
  ghost function Evaluate(s: Store, c: Command, p: nat): Option<Outcome>
    requires WellFormed(s.nodes) && p <= |s.log|
  {
    var prefix := s.log[..p];
    if TargetRefusal(s.nodes, prefix, c).Some? then Some(Refused(TargetRefusal(s.nodes, prefix, c).value))
    else if !CloseEvidence(s, c, p) then Some(Refused(CLAIM_CLOSE))
    else if StateOf(prefix, c.matter, Matter) != Done then Some(Refused(NOT_ELIGIBLE))
    else
      match Fold(s.nodes, prefix)
      case None => None
      case Some(g) =>
        if AnyActive(s, c.matter, p) || !ChainMet(s.nodes, g, c.matter, p) then Some(Refused(NOT_ELIGIBLE))
        else Some(FinalOutcome(prefix, c))
  }

  // ---------------------------------------------------------------- what later transactions may do

  ghost predicate ReceiptsGrow(before: map<Id, Receipt>, after: map<Id, Receipt>, p: nat) {
    && (forall c | c in before :: c in after && after[c] == before[c])
    && (forall c | c in after && c !in before ::
          (after[c].first == 0 || after[c].first > p) && (after[c].last == 0 || after[c].last > p))
  }

  ghost predicate SubmissionsGrow(before: map<Id, Submission>, after: map<Id, Submission>) {
    forall c | c in before ::
      c in after && after[c] == before[c].(terminal := after[c].terminal) && (before[c].terminal ==> after[c].terminal)
  }

  /** A reference that was empty may be filled by a command that had no receipt. */
  ghost predicate FilledLater(receipts: map<Id, Receipt>, before: Option<Id>, after: Option<Id>) {
    after == before || (before.None? && after.Some? && after.value !in receipts)
  }

  ghost predicate ClaimsGrow(receipts: map<Id, Receipt>, before: map<Id, Claim>, after: map<Id, Claim>) {
    && (forall c | c in before ::
          c in after && after[c] == before[c].(closed := after[c].closed)
          && FilledLater(receipts, before[c].closed, after[c].closed))
    && (forall c | c in after && c !in before ::
          after[c].acquire !in receipts && (after[c].closed.None? || after[c].closed.value !in receipts))
  }

  ghost predicate ClosesGrow(before: map<Id, Close>, after: map<Id, Close>) {
    forall c | c in before :: c in after && after[c] == before[c]
  }

  ghost predicate BirthsGrow(receipts: map<Id, Receipt>, before: map<Id, Birth>, after: map<Id, Birth>) {
    && (forall m | m in before ::
          && m in after && after[m] == before[m].(release := after[m].release, barrier := after[m].barrier)
          && FilledLater(receipts, before[m].release, after[m].release)
          && (before[m].release.Some? ==> after[m].barrier == before[m].barrier))
    && (forall m | m in after && m !in before ::
          after[m].command !in receipts && (after[m].release.None? || after[m].release.value !in receipts))
  }

  ghost predicate EventsGrow(receipts: map<Id, Receipt>, log: seq<Event>, more: seq<Event>) {
    log <= more && forall i | |log| <= i < |more| :: more[i].command !in receipts
  }

  /** Everything the authority's transactions do to the tables a sweep reads: they
      append events of commands that were not terminal, and fill in births,
      tombstones, claims, closes and receipts that lie after the current position. */
  ghost predicate Extends(s: Store, t: Store) {
    && EventsGrow(s.receipts, s.log, t.log) && GrowsAfter(s.nodes, t.nodes, |s.log|)
    && ReceiptsGrow(s.receipts, t.receipts, |s.log|) && SubmissionsGrow(s.submissions, t.submissions)
    && ClaimsGrow(s.receipts, s.claims, t.claims) && ClosesGrow(s.closes, t.closes)
    && BirthsGrow(s.receipts, s.births, t.births)
  }

  predicate Terminal(submissions: map<Id, Submission>, id: Id) {
    id in submissions && submissions[id].terminal
  }

  ghost predicate ReceiptsTerminal(receipts: map<Id, Receipt>, submissions: map<Id, Submission>) {
    forall c | c in receipts :: Terminal(submissions, c)
  }

  ghost predicate ClosesMatch(claims: map<Id, Claim>, closes: map<Id, Close>) {
    forall c | c in claims :: claims[c].closed.Some? <==> c in closes
  }

  ghost predicate EventsTerminal(log: seq<Event>, submissions: map<Id, Submission>) {
    forall i | 0 <= i < |log| :: Terminal(submissions, log[i].command)
  }

  ghost predicate HeadsCover(submissions: map<Id, Submission>, heads: map<Id, nat>) {
    forall c | Terminal(submissions, c) ::
      submissions[c].environment in heads && submissions[c].sequence <= heads[submissions[c].environment]
  }

  ghost predicate Inv(s: Store) {
    && WellFormed(s.nodes) && ReceiptsTerminal(s.receipts, s.submissions) && ClosesMatch(s.claims, s.closes)
    && EventsTerminal(s.log, s.submissions) && HeadsCover(s.submissions, s.heads)
  }

  // ---------------------------------------------------------------- the decision does not move

  lemma ActiveStable(receipts: map<Id, Receipt>, later: map<Id, Receipt>, acquire: Id, before: Option<Id>,
                     after: Option<Id>, p: nat, q: nat)
    requires ReceiptsGrow(receipts, later, q) && p <= q && FilledLater(receipts, before, after)
    ensures ActiveAt(receipts, acquire, before, p) == ActiveAt(later, acquire, after, p)
    ensures acquire !in receipts ==> !ActiveAt(later, acquire, after, p)
  {
  }

  lemma ClaimActiveStable(receipts: map<Id, Receipt>, later: map<Id, Receipt>, before: map<Id, Claim>,
                          after: map<Id, Claim>,
                          matter: Id, p: nat, q: nat)
    requires ReceiptsGrow(receipts, later, q) && p <= q && ClaimsGrow(receipts, before, after)
    ensures ClaimActive(receipts, before, matter, p) == ClaimActive(later, after, matter, p)
  {
    forall c | c in after
      ensures ActiveAt(later, after[c].acquire, after[c].closed, p) ==> c in before
      ensures c in before ==> ActiveAt(receipts, before[c].acquire, before[c].closed, p)
                              == ActiveAt(later, after[c].acquire, after[c].closed, p)
    {
      if c in before {
        ActiveStable(receipts, later, before[c].acquire, before[c].closed, after[c].closed, p, q);
      } else {
        ActiveStable(receipts, later, after[c].acquire, after[c].closed, after[c].closed, p, q);
      }
    }
  }

  lemma BirthActiveStable(receipts: map<Id, Receipt>, later: map<Id, Receipt>, before: map<Id, Birth>,
                          after: map<Id, Birth>,
                          matter: Id, p: nat, q: nat)
    requires ReceiptsGrow(receipts, later, q) && p <= q && BirthsGrow(receipts, before, after)
    ensures BirthActive(receipts, before, matter, p) == BirthActive(later, after, matter, p)
  {
    if matter in before {
      ActiveStable(receipts, later, before[matter].command, before[matter].release, after[matter].release, p, q);
    } else if matter in after {
      ActiveStable(receipts, later, after[matter].command, after[matter].release, after[matter].release, p, q);
    }
  }

  lemma AnyActiveStable(s: Store, t: Store, matter: Id, p: nat)
    requires Extends(s, t) && p <= |s.log|
    ensures AnyActive(s, matter, p) == AnyActive(t, matter, p)
  {
    ClaimActiveStable(s.receipts, t.receipts, s.claims, t.claims, matter, p, |s.log|);
    BirthActiveStable(s.receipts, t.receipts, s.births, t.births, matter, p, |s.log|);
  }

  lemma {:induction false} OwnedStable(log: seq<Event>, more: seq<Event>, command: Id)
    requires log <= more && forall i | |log| <= i < |more| :: more[i].command != command
    ensures Owned(log, command) == Owned(more, command)
  {
    if |log| < |more| {
      OwnedStable(log, more[..|more| - 1], command);
    } else {
      assert log == more;
    }
  }

  lemma ReleaseEventsStable(log: seq<Event>, more: seq<Event>, c: Command, dispatch: Id, r: Receipt, p: nat)
    requires log <= more && p <= |log| && r.last <= p
    requires forall i | |log| <= i < |more| :: more[i].command != c.close.release
    ensures ReleaseEvents(log, c, dispatch, r, p) == ReleaseEvents(more, c, dispatch, r, p)
  {
    OwnedStable(log, more, c.close.release);
    assert forall i | 0 <= i < |log| :: log[i] == more[i];
    if c.close.anchor.count <= p {
      assert more[..c.close.anchor.count] == log[..c.close.anchor.count];
    }
  }

  /** A birth journal's release has no dispatch event; an explicit claim keeps its dispatch. */
  lemma DispatchStable(s: Store, t: Store, c: Command, x: Operation, r: Receipt, p: nat)
    requires x.ClaimRelease? && ClaimsGrow(s.receipts, s.claims, t.claims) && ClosedBy(s, c, x, r)
    ensures ReleaseEvents(t.log, c, DispatchOf(s.claims, c.close.claim), r, p)
            == ReleaseEvents(t.log, c, DispatchOf(t.claims, c.close.claim), r, p)
  {
    if c.close.claim in s.claims {
      assert t.claims[c.close.claim].dispatch == s.claims[c.close.claim].dispatch;
    }
  }

  lemma ExplicitClosedStable(receipts: map<Id, Receipt>, before: map<Id, Claim>, after: map<Id, Claim>,
                             was: map<Id, Close>, are: map<Id, Close>, c: Command, x: Operation)
    requires x.ClaimRelease? && c.close.release in receipts && ClosesMatch(before, was)
    requires ClaimsGrow(receipts, before, after) && ClosesGrow(was, are)
    ensures ExplicitClosed(before, was, c, x) == ExplicitClosed(after, are, c, x)
  {
    var k := c.close.claim;
    if k in before {
      assert after[k] == before[k].(closed := after[k].closed);
    }
  }

  lemma BirthReleasedStable(receipts: map<Id, Receipt>, before: map<Id, Birth>, after: map<Id, Birth>, c: Command,
                            x: Operation)
    requires x.ClaimRelease? && c.close.release in receipts && BirthsGrow(receipts, before, after)
    ensures BirthReleased(before, c, x) == BirthReleased(after, c, x)
  {
  }

  lemma ClosedByStable(s: Store, t: Store, c: Command, x: Operation, r: Receipt)
    requires Inv(s) && Extends(s, t) && x.ClaimRelease? && c.close.release in s.receipts
    ensures ClosedBy(s, c, x, r) == ClosedBy(t, c, x, r)
  {
    ExplicitClosedStable(s.receipts, s.claims, t.claims, s.closes, t.closes, c, x);
    BirthReleasedStable(s.receipts, s.births, t.births, c, x);
  }

  /** A command with a receipt gets no further events, rows or receipts. */
  lemma TerminalFixed(s: Store, t: Store, k: Id)
    requires Inv(s) && Extends(s, t) && k in s.receipts
    ensures k in s.submissions && k in t.receipts && t.receipts[k] == s.receipts[k]
    ensures k in t.submissions && t.submissions[k] == s.submissions[k]
    ensures s.log <= t.log && forall i | |s.log| <= i < |t.log| :: t.log[i].command != k
  {
    assert Terminal(s.submissions, k);
  }

  lemma EvidenceStable(s: Store, t: Store, c: Command, p: nat)
    requires Inv(s) && Inv(t) && Extends(s, t) && p <= |s.log|
    ensures CloseEvidence(s, c, p) == CloseEvidence(t, c, p)
  {
    var k := c.close.release;
    if k in s.receipts {
      TerminalFixed(s, t, k);
      var x, r := s.submissions[k], s.receipts[k];
      if ReleaseRow(x, r, c, p) {
        ClosedByStable(s, t, c, x.operation, r);
        ReleaseEventsStable(s.log, t.log, c, DispatchOf(s.claims, c.close.claim), r, p);
        if ClosedBy(s, c, x.operation, r) {
          DispatchStable(s, t, c, x.operation, r, p);
        }
      }
    } else if k in t.receipts {
      assert t.receipts[k].last == 0 || t.receipts[k].last > |s.log|;
    }
  }

  lemma TargetStable(nodes: map<Id, Node>, later: map<Id, Node>, prefix: seq<Event>, c: Command, q: nat)
    requires GrowsAfter(nodes, later, q) && |prefix| <= q
    ensures TargetRefusal(nodes, prefix, c) == TargetRefusal(later, prefix, c)
    ensures TargetRefusal(nodes, prefix, c).None? ==> c.matter in nodes
  {
    if c.matter in nodes {
      assert later[c.matter] == nodes[c.matter].(tombstone := later[c.matter].tombstone);
    }
  }

  /** What an outcome reads from the node table and the prefix: the target, the
      projection, and the gate states under which the Matter's chain is met. */
  ghost function NodeReading(nodes: map<Id, Node>, prefix: seq<Event>, c: Command)
    : (Option<string>, Option<Gated>, iset<Gated>)
    requires WellFormed(nodes)
  {
    (TargetRefusal(nodes, prefix, c), Fold(nodes, prefix),
     if c.matter in nodes then iset g | ChainMet(nodes, g, c.matter, |prefix|) else iset{})
  }

  /** Whether the close evidence holds, and whether the Matter is still claimed. */
  ghost function ClaimReading(s: Store, c: Command, p: nat): (bool, bool) {
    (CloseEvidence(s, c, p), AnyActive(s, c.matter, p))
  }

  lemma SamePrefix(log: seq<Event>, more: seq<Event>, p: nat)
    requires log <= more && p <= |log|
    ensures log[..p] == more[..p]
  {
  }

  lemma ClaimsStable(s: Store, t: Store, c: Command, p: nat)
    requires Inv(s) && Inv(t) && Extends(s, t) && p <= |s.log|
    ensures ClaimReading(s, c, p) == ClaimReading(t, c, p)
  {
    EvidenceStable(s, t, c, p);
    AnyActiveStable(s, t, c.matter, p);
  }

  lemma ReadingsDecide(s: Store, t: Store, c: Command, p: nat)
    requires WellFormed(s.nodes) && WellFormed(t.nodes) && p <= |s.log| && p <= |t.log| && s.log[..p] == t.log[..p]
    requires NodeReading(s.nodes, s.log[..p], c) == NodeReading(t.nodes, s.log[..p], c)
             || TargetRefusal(s.nodes, s.log[..p], c).Some?
    requires ClaimReading(s, c, p) == ClaimReading(t, c, p)
    requires TargetRefusal(s.nodes, s.log[..p], c) == TargetRefusal(t.nodes, s.log[..p], c)
    ensures Evaluate(s, c, p) == Evaluate(t, c, p)
  {
    var prefix := s.log[..p];
    if TargetRefusal(s.nodes, prefix, c).None? {
      var g := Fold(s.nodes, prefix);
      assert g.Some?
        ==> (g.value in NodeReading(s.nodes, prefix, c).2 <==> g.value in NodeReading(t.nodes, prefix, c).2);
    }
  }

  lemma NodesStable(nodes: map<Id, Node>, later: map<Id, Node>, prefix: seq<Event>, c: Command, q: nat)
    requires WellFormed(nodes) && WellFormed(later) && GrowsAfter(nodes, later, q) && |prefix| <= q
    ensures NodeReading(nodes, prefix, c) == NodeReading(later, prefix, c) || TargetRefusal(nodes, prefix, c).Some?
    ensures TargetRefusal(nodes, prefix, c) == TargetRefusal(later, prefix, c)
  {
    TargetStable(nodes, later, prefix, c, q);
    FoldStable(nodes, later, prefix, q);
    if TargetRefusal(nodes, prefix, c).None? {
      forall g: Gated
        ensures ChainMet(nodes, g, c.matter, |prefix|) == ChainMet(later, g, c.matter, |prefix|)
      {
        ChainStable(nodes, later, g, c.matter, |prefix|, q);
      }
      assert NodeReading(nodes, prefix, c).2 == NodeReading(later, prefix, c).2;
    }
  }

  /** The outcome evaluated at p is the same in every later state of the store. */
  lemma EvaluateStable(s: Store, t: Store, c: Command, p: nat)
    requires Inv(s) && Inv(t) && Extends(s, t) && p <= |s.log|
    ensures Evaluate(s, c, p) == Evaluate(t, c, p)
  {
    SamePrefix(s.log, t.log, p);
    NodesStable(s.nodes, t.nodes, s.log[..p], c, |s.log|);
    ClaimsStable(s, t, c, p);
    ReadingsDecide(s, t, c, p);
  }

  // ---------------------------------------------------------------- terminal transactions

  /** What every terminal transaction writes: its events, the submission, the
      Environment's head and the receipt with the range of its events. */
  function Committed(s: Store, id: Id, row: Submission, digest: Id, succeeded: bool, events: seq<Event>): Store {
    s.(log := s.log + events,
       heads := s.heads[row.environment := row.sequence],
       submissions := s.submissions[id := row.(terminal := true)],
       receipts := s.receipts[id := Receipt(digest, row.hash, succeeded,
                                            if events == [] then 0 else |s.log| + 1,
                                            if events == [] then 0 else |s.log| + |events|, true)])
  }

  ghost predicate MayCommit(s: Store, id: Id, row: Submission, events: seq<Event>) {
    && !Terminal(s.submissions, id) && (id in s.submissions ==> s.submissions[id] == row)
    && row.environment in s.heads && row.sequence == s.heads[row.environment] + 1
    && forall i | 0 <= i < |events| :: events[i].command == id
  }

  lemma CommitExtends(s: Store, id: Id, row: Submission, digest: Id, succeeded: bool, events: seq<Event>)
    requires Inv(s) && MayCommit(s, id, row, events)
    ensures Extends(s, Committed(s, id, row, digest, succeeded, events))
  {
    assert id !in s.receipts;
  }

  lemma CommitKeepsInv(s: Store, id: Id, row: Submission, digest: Id, succeeded: bool, events: seq<Event>)
    requires Inv(s) && MayCommit(s, id, row, events)
    ensures Inv(Committed(s, id, row, digest, succeeded, events))
  {
    var t := Committed(s, id, row, digest, succeeded, events);
    forall i | 0 <= i < |t.log|
      ensures Terminal(t.submissions, t.log[i].command)
    {
      if i < |s.log| {
        assert Terminal(s.submissions, s.log[i].command);
      } else {
        assert events[i - |s.log|].command == id;
      }
    }
    CommitKeepsHeads(s.submissions, s.heads, id, row);
  }

  lemma CommitKeepsHeads(submissions: map<Id, Submission>, heads: map<Id, nat>, id: Id, row: Submission)
    requires HeadsCover(submissions, heads) && row.environment in heads && row.sequence == heads[row.environment] + 1
    ensures HeadsCover(submissions[id := row.(terminal := true)], heads[row.environment := row.sequence])
  {
    var t, h := submissions[id := row.(terminal := true)], heads[row.environment := row.sequence];
    forall c | Terminal(t, c)
      ensures t[c].environment in h && t[c].sequence <= h[t[c].environment]
    {
      assert c == id || Terminal(submissions, c);
    }
  }

  // ---------------------------------------------------------------- the sweep and its check

  function SweptEvent(c: Command, event: EventId): Event {
    Event(event, c.id, c.repo, c.batch, BatchSwept)
  }

  function SweepRow(c: Command): Submission {
    Submission(c.hash, c.environment, c.epoch, c.sequence, Sweep, false)
  }

  function SweepEvents(c: Command, event: EventId, outcome: Outcome): seq<Event> {
    if outcome == Swept then [SweptEvent(c, event)] else []
  }

  /** The terminal, and beside it the boundary the outcome was decided at. */
  function Sweeping(s: Store, c: Command, event: EventId, digest: Id, outcome: Outcome): Store {
    Committed(s, c.id, SweepRow(c), digest, !outcome.Refused?, SweepEvents(c, event, outcome)).(
      boundaries := s.boundaries[c.id := Boundary(c.hash, digest, outcome, Anchored(s.log))],
      sweeps := s.sweeps[c.id := c])
  }

  ghost predicate MaySweep(s: Store, c: Command)
    requires WellFormed(s.nodes)
  {
    && c.id !in s.submissions && c.environment in s.heads && c.sequence == s.heads[c.environment] + 1
    && Evaluate(s, c, |s.log|).Some?
  }

  /** No event up to p belongs to this or a later submission of the Environment. */
  ghost predicate NoFutureEffects(log: seq<Event>, submissions: map<Id, Submission>, environment: Id, sequence: nat,
                                  p: nat)
    requires p <= |log|
  {
    forall i | 0 <= i < p && log[i].command in submissions ::
      submissions[log[i].command].environment != environment || submissions[log[i].command].sequence < sequence
  }

  /** The boundary, the command, the submission and the receipt belong together. */
  predicate Bound(b: Boundary, c: Command, x: Submission, r: Receipt) {
    && x.operation == Sweep && x.hash == b.hash == r.hash == c.hash && r.digest == b.receiptDigest
    && x.environment == c.environment && x.sequence == c.sequence && x.terminal
    && (r.succeeded <==> !b.outcome.Refused?)
  }

  /** A swept outcome owns the one event right after its boundary, any other none. */
  predicate EventsFit(log: seq<Event>, b: Boundary, c: Command, r: Receipt, id: Id)
    requires b.anchor.count <= |log|
  {
    var p := b.anchor.count;
    if b.outcome == Swept then
      && r.first == r.last == p + 1 && p < |log| && Owned(log, id) == 1
      && log[p].command == id && log[p].subject == c.batch && log[p].repo == c.repo && log[p].body == BatchSwept
    else r.first == r.last == 0 && Owned(log, id) == 0
  }

  /** The reopen check of one sweep terminal. */
  ghost predicate Validates(s: Store, id: Id)
    requires WellFormed(s.nodes)
  {
    && id in s.boundaries && id in s.sweeps && id in s.submissions && id in s.receipts
    && var b, c := s.boundaries[id], s.sweeps[id];
       && Bound(b, c, s.submissions[id], s.receipts[id])
       && b.anchor.count <= |s.log| && b.anchor == Anchored(s.log[..b.anchor.count])
       && NoFutureEffects(s.log, s.submissions, c.environment, c.sequence, b.anchor.count)
       && Evaluate(s, c, b.anchor.count) == Some(b.outcome)
       && EventsFit(s.log, b, c, s.receipts[id], id)
  }

  lemma {:induction false} OwnedNone(log: seq<Event>, command: Id)
    requires forall i | 0 <= i < |log| :: log[i].command != command
    ensures Owned(log, command) == 0
  {
    if log != [] {
      OwnedNone(log[..|log| - 1], command);
    }
  }

  lemma OwnedAppend(log: seq<Event>, e: Event, command: Id)
    ensures Owned(log + [e], command) == Owned(log, command) + if e.command == command then 1 else 0
  {
    assert (log + [e])[..|log|] == log;
  }

  lemma SweepMayCommit(s: Store, c: Command, event: EventId, outcome: Outcome)
    requires Inv(s) && MaySweep(s, c)
    ensures MayCommit(s, c.id, SweepRow(c), SweepEvents(c, event, outcome))
  {
  }

  lemma SweepExtends(s: Store, c: Command, event: EventId, digest: Id, outcome: Outcome)
    requires Inv(s) && MaySweep(s, c)
    ensures Extends(s, Sweeping(s, c, event, digest, outcome)) && Inv(Sweeping(s, c, event, digest, outcome))
  {
    SweepMayCommit(s, c, event, outcome);
    CommitExtends(s, c.id, SweepRow(c), digest, !outcome.Refused?, SweepEvents(c, event, outcome));
    CommitKeepsInv(s, c.id, SweepRow(c), digest, !outcome.Refused?, SweepEvents(c, event, outcome));
  }

  /** No terminal event of the Environment is at or past its next sequence. */
  lemma NothingAhead(log: seq<Event>, submissions: map<Id, Submission>, heads: map<Id, nat>, id: Id, row: Submission)
    requires EventsTerminal(log, submissions) && HeadsCover(submissions, heads) && id !in submissions
    requires row.environment in heads && row.sequence == heads[row.environment] + 1
    ensures NoFutureEffects(log, submissions[id := row], row.environment, row.sequence, |log|)
    ensures forall i | 0 <= i < |log| :: log[i].command != id
  {
    forall i | 0 <= i < |log|
      ensures log[i].command in submissions && log[i].command != id
      ensures submissions[log[i].command].environment != row.environment
              || submissions[log[i].command].sequence < row.sequence
    {
      assert Terminal(submissions, log[i].command);
    }
  }

  lemma SweepEventsFit(log: seq<Event>, c: Command, event: EventId, b: Boundary, r: Receipt)
    requires b.anchor.count == |log| && forall i | 0 <= i < |log| :: log[i].command != c.id
    requires r.first == r.last == if b.outcome == Swept then |log| + 1 else 0
    ensures EventsFit(log + SweepEvents(c, event, b.outcome), b, c, r, c.id)
  {
    OwnedNone(log, c.id);
    OwnedAppend(log, SweptEvent(c, event), c.id);
    assert log + [] == log;
  }

  lemma NoFutureEffectsStable(log: seq<Event>, more: seq<Event>, before: map<Id, Submission>,
                              after: map<Id, Submission>,
                              environment: Id, sequence: nat, p: nat)
    requires log <= more && p <= |log| && SubmissionsGrow(before, after) && EventsTerminal(log, before)
    requires NoFutureEffects(log, before, environment, sequence, p)
    ensures NoFutureEffects(more, after, environment, sequence, p)
  {
    forall i | 0 <= i < p
      ensures log[i] == more[i] && log[i].command in before
    {
      assert Terminal(before, log[i].command);
    }
  }

  /** A sweep terminal passes its check as soon as it is committed. */
  lemma SweepValidates(s: Store, c: Command, event: EventId, digest: Id, t: Store)
    requires Inv(s) && MaySweep(s, c) && t == Sweeping(s, c, event, digest, Evaluate(s, c, |s.log|).value)
    ensures WellFormed(t.nodes) && Validates(t, c.id)
  {
    var outcome := Evaluate(s, c, |s.log|).value;
    SweepExtends(s, c, event, digest, outcome);
    EvaluateStable(s, t, c, |s.log|);
    SamePrefix(s.log, t.log, |s.log|);
    NothingAhead(s.log, s.submissions, s.heads, c.id, SweepRow(c).(terminal := true));
    SweepEventsFit(s.log, c, event, t.boundaries[c.id], t.receipts[c.id]);
    assert s.log[..|s.log|] == s.log;
    NoFutureEffectsGrow(s.log, t.log, t.submissions, c.environment, c.sequence);
  }

  lemma NoFutureEffectsGrow(log: seq<Event>, more: seq<Event>, submissions: map<Id, Submission>, environment: Id,
                            sequence: nat)
    requires log <= more && NoFutureEffects(log, submissions, environment, sequence, |log|)
    ensures NoFutureEffects(more, submissions, environment, sequence, |log|)
  {
  }

  /** A sweep terminal that passes its check passes it after any later transaction. */
  lemma ValidationStable(s: Store, t: Store, id: Id)
    requires Inv(s) && Inv(t) && Extends(s, t) && Validates(s, id)
    requires id in t.boundaries && t.boundaries[id] == s.boundaries[id] && id in t.sweeps
             && t.sweeps[id] == s.sweeps[id]
    ensures Validates(t, id)
  {
    var p, c := s.boundaries[id].anchor.count, s.sweeps[id];
    EvaluateStable(s, t, c, p);
    SamePrefix(s.log, t.log, p);
    TerminalFixed(s, t, id);
    OwnedStable(s.log, t.log, id);
    NoFutureEffectsStable(s.log, t.log, s.submissions, t.submissions, c.environment, c.sequence, p);
  }

  // ---------------------------------------------------------------- runs

  /** What a terminal transaction writes besides its events, submission and receipt,
      row by row; births and tombstones name the event they belong to. */
  datatype Effect =
    | Bear(node: Id, row: Node)
    | Bury(node: Id, at: nat)
    | Acquire(claim: Id, opening: Claim)
    | CloseClaim(claim: Id, close: Close)
    | OpenJournal(matter: Id, birth: Birth)
    | ReleaseJournal(matter: Id, barrier: Id)

  datatype Tables = Tables(nodes: map<Id, Node>, claims: map<Id, Claim>, closes: map<Id, Close>, births: map<Id, Birth>)

  function TablesOf(s: Store): Tables {
    Tables(s.nodes, s.claims, s.closes, s.births)
  }

  /** The row can be written by the command whose events have the positions low + 1..high. */
  ghost predicate EffectFits(t: Tables, id: Id, effect: Effect, low: nat, high: nat) {
    match effect
    case Bear(n, row) =>
      n !in t.nodes && low < row.birth <= high && row.tombstone == 0 && WellFormed(t.nodes[n := row])
    case Bury(n, at) =>
      n in t.nodes && t.nodes[n].kind == Step && t.nodes[n].tombstone == 0 && t.nodes[n].birth < at && low < at <= high
    case Acquire(k, opening) => k !in t.claims && k !in t.closes && opening.acquire == id && opening.closed.None?
    case CloseClaim(k, close) => k in t.claims && t.claims[k].closed.None? && close.command == id
    case OpenJournal(m, birth) => m !in t.births && birth.command == id && birth.release.None?
    case ReleaseJournal(m, barrier) => m in t.births && t.births[m].release.None?
  }

  function Written(t: Tables, id: Id, effect: Effect): Tables {
    match effect
    case Bear(n, row) => t.(nodes := t.nodes[n := row])
    case Bury(n, at) => if n in t.nodes then t.(nodes := t.nodes[n := t.nodes[n].(tombstone := at)]) else t
    case Acquire(k, opening) => t.(claims := t.claims[k := opening])
    case CloseClaim(k, close) =>
      if k !in t.claims then t
      else t.(claims := t.claims[k := t.claims[k].(closed := Some(id))], closes := t.closes[k := close])
    case OpenJournal(m, birth) => t.(births := t.births[m := birth])
    case ReleaseJournal(m, barrier) =>
      if m in t.births then t.(births := t.births[m := t.births[m].(release := Some(id), barrier := barrier)]) else t
  }

  /** All the rows of one transaction, one after the other. */
  ghost predicate EffectsFit(t: Tables, id: Id, effects: seq<Effect>, low: nat, high: nat)
    decreases |effects|
  {
    effects == [] ||
    (EffectFits(t, id, effects[0], low, high) && EffectsFit(Written(t, id, effects[0]), id, effects[1..], low, high))
  }

  function AllWritten(t: Tables, id: Id, effects: seq<Effect>): Tables
    decreases |effects|
  {
    if effects == [] then t else AllWritten(Written(t, id, effects[0]), id, effects[1..])
  }

  /** Every transaction: an Environment is enrolled, a command is submitted, a
      submitted command becomes terminal with its events and rows, or a sweep. */
  datatype Transaction =
    | Enroll(environment: Id)
    | Submit(id: Id, row: Submission)
    | Finish(id: Id, events: seq<Event>, digest: Id, succeeded: bool, effects: seq<Effect>)
    | SweepBatch(command: Command, event: EventId, digest: Id)

  function Finishing(s: Store, id: Id, row: Submission, digest: Id, succeeded: bool, events: seq<Event>,
                     t: Tables): Store {
    Committed(s, id, row, digest, succeeded, events).(
      nodes := t.nodes, claims := t.claims, closes := t.closes, births := t.births)
  }

  ghost predicate Transacts(s: Store, tx: Transaction, t: Store) {
    match tx
    case Enroll(e) => e !in s.heads && t == s.(heads := s.heads[e := 0])
    case Submit(id, row) => id !in s.submissions && !row.terminal && t == s.(submissions := s.submissions[id := row])
    case Finish(id, events, digest, succeeded, effects) =>
      && id in s.submissions && MayCommit(s, id, s.submissions[id], events)
      && EffectsFit(TablesOf(s), id, effects, |s.log|, |s.log| + |events|)
      && t == Finishing(s, id, s.submissions[id], digest, succeeded, events, AllWritten(TablesOf(s), id, effects))
    case SweepBatch(c, event, digest) =>
      WellFormed(s.nodes) && MaySweep(s, c) && t == Sweeping(s, c, event, digest, Evaluate(s, c, |s.log|).value)
  }

  /** matter.create bears the Matter and opens its birth journal under one event. */
  lemma MatterCreateFits(t: Tables, id: Id, m: Id, repo: Id, birth: Birth, p: nat)
    requires WellFormed(t.nodes) && m !in t.nodes && m !in t.births && birth.command == id && birth.release.None?
    ensures EffectsFit(t, id, [Bear(m, Node(Matter, repo, None, p + 1, 0)), OpenJournal(m, birth)], p, p + 1)
  {
    var effects := [Bear(m, Node(Matter, repo, None, p + 1, 0)), OpenJournal(m, birth)];
    assert effects[1..] == [OpenJournal(m, birth)] && effects[1..][1..] == [];
    BearWellFormed(t.nodes, m, effects[0].row);
  }

  /** step.replace buries one Step and bears another in its place under one event. */
  lemma StepReplaceFits(t: Tables, id: Id, former: Id, next: Id, p: nat)
    requires WellFormed(t.nodes) && former in t.nodes && next !in t.nodes && t.nodes[former].birth <= p
    requires t.nodes[former].kind == Step && t.nodes[former].tombstone == 0
    ensures EffectsFit(t, id, [Bury(former, p + 1), Bear(next, t.nodes[former].(birth := p + 1))], p, p + 1)
  {
    var row := t.nodes[former].(birth := p + 1);
    BearAfterBury(t, id, former, next, p, row);
    TwoFit(t, id, Bury(former, p + 1), Bear(next, row), p, p + 1);
  }

  lemma BearAfterBury(t: Tables, id: Id, former: Id, next: Id, p: nat, row: Node)
    requires WellFormed(t.nodes) && former in t.nodes && next !in t.nodes && t.nodes[former].birth <= p
    requires t.nodes[former].kind == Step && t.nodes[former].tombstone == 0 && row == t.nodes[former].(birth := p + 1)
    ensures EffectFits(Written(t, id, Bury(former, p + 1)), id, Bear(next, row), p, p + 1)
  {
    ReplacedWellFormed(t.nodes, former, next, p + 1);
  }

  lemma TwoFit(t: Tables, id: Id, a: Effect, b: Effect, low: nat, high: nat)
    requires EffectFits(t, id, a, low, high) && EffectFits(Written(t, id, a), id, b, low, high)
    ensures EffectsFit(t, id, [a, b], low, high)
  {
    assert [a, b][1..] == [b] && [b][1..] == [];
  }

  lemma ReplacedWellFormed(nodes: map<Id, Node>, former: Id, next: Id, p: nat)
    requires WellFormed(nodes) && former in nodes && next !in nodes && nodes[former].birth < p
    requires nodes[former].kind == Step && nodes[former].tombstone == 0
    ensures WellFormed(nodes[former := nodes[former].(tombstone := p)][next := nodes[former].(birth := p)])
  {
    var buried, parent := nodes[former := nodes[former].(tombstone := p)], nodes[former].parent.value;
    assert parent in nodes && parent != former && nodes[parent].birth < nodes[former].birth;
    BuryWellFormed(nodes, former, p);
    assert buried[parent] == nodes[parent];
    BearWellFormed(buried, next, nodes[former].(birth := p));
  }

  lemma BearWellFormed(nodes: map<Id, Node>, n: Id, row: Node)
    requires WellFormed(nodes) && n !in nodes && row.birth > 0 && row.tombstone == 0
    requires row.parent.None? <==> row.kind == Matter
    requires row.parent.Some? ==>
               && row.parent.value in nodes && nodes[row.parent.value].kind.Rank() > row.kind.Rank()
               && nodes[row.parent.value].repo == row.repo && nodes[row.parent.value].birth < row.birth
    ensures WellFormed(nodes[n := row])
  {
    var after := nodes[n := row];
    forall id | id in after
      ensures after[id].birth > 0 && (after[id].tombstone > 0 ==> after[id].birth < after[id].tombstone)
      ensures after[id].parent.None? <==> after[id].kind == Matter
      ensures after[id].parent.Some? ==>
                && after[id].parent.value in after && after[after[id].parent.value].kind.Rank() > after[id].kind.Rank()
                && after[after[id].parent.value].repo == after[id].repo
                && after[after[id].parent.value].birth < after[id].birth
    {
      if id != n {
        assert nodes[id].birth > 0;
      }
    }
  }

  /** Every row written is new or fills in what was empty, after position p. */
  ghost predicate TablesGrow(receipts: map<Id, Receipt>, p: nat, before: Tables, after: Tables) {
    && GrowsAfter(before.nodes, after.nodes, p) && ClaimsGrow(receipts, before.claims, after.claims)
    && ClosesGrow(before.closes, after.closes) && BirthsGrow(receipts, before.births, after.births)
  }

  ghost predicate TablesOk(t: Tables) {
    WellFormed(t.nodes) && ClosesMatch(t.claims, t.closes)
  }

  lemma BearGrows(nodes: map<Id, Node>, n: Id, row: Node, p: nat)
    requires n !in nodes && row.birth > p && row.tombstone == 0
    ensures GrowsAfter(nodes, nodes[n := row], p)
  {
  }

  lemma BuryGrows(nodes: map<Id, Node>, n: Id, p: nat, at: nat)
    requires n in nodes && nodes[n].tombstone == 0 && at > p
    ensures GrowsAfter(nodes, nodes[n := nodes[n].(tombstone := at)], p)
  {
  }

  lemma BuryWellFormed(nodes: map<Id, Node>, n: Id, p: nat)
    requires WellFormed(nodes) && n in nodes && nodes[n].birth < p
    ensures WellFormed(nodes[n := nodes[n].(tombstone := p)])
  {
    var after := nodes[n := nodes[n].(tombstone := p)];
    forall id | id in after
      ensures after[id].birth > 0 && (after[id].parent.None? <==> after[id].kind == Matter)
      ensures after[id].parent.Some? ==>
                && after[id].parent.value in after && after[after[id].parent.value].kind.Rank() > after[id].kind.Rank()
                && after[after[id].parent.value].repo == after[id].repo
                && after[after[id].parent.value].birth < after[id].birth
    {
      assert nodes[id].birth > 0;
    }
  }

  lemma EffectGrowsNodes(t: Tables, id: Id, effect: Effect, low: nat, high: nat)
    requires WellFormed(t.nodes) && EffectFits(t, id, effect, low, high)
    ensures GrowsAfter(t.nodes, Written(t, id, effect).nodes, low) && WellFormed(Written(t, id, effect).nodes)
  {
    match effect
    case Bury(n, at) =>
      BuryGrows(t.nodes, n, low, at);
      BuryWellFormed(t.nodes, n, at);
    case Bear(n, row) => BearGrows(t.nodes, n, row, low);
    case _ =>
  }

  lemma EffectGrowsClaims(receipts: map<Id, Receipt>, t: Tables, id: Id, effect: Effect, low: nat, high: nat)
    requires id !in receipts && EffectFits(t, id, effect, low, high) && ClosesMatch(t.claims, t.closes)
    ensures var u := Written(t, id, effect);
            ClaimsGrow(receipts, t.claims, u.claims) && ClosesMatch(u.claims, u.closes)
            && ClosesGrow(t.closes, u.closes)
  {
  }

  lemma EffectGrowsBirths(receipts: map<Id, Receipt>, t: Tables, id: Id, effect: Effect, low: nat, high: nat)
    requires id !in receipts && EffectFits(t, id, effect, low, high)
    ensures BirthsGrow(receipts, t.births, Written(t, id, effect).births)
  {
  }

  lemma EffectGrows(receipts: map<Id, Receipt>, t: Tables, id: Id, effect: Effect, low: nat, high: nat)
    requires id !in receipts && EffectFits(t, id, effect, low, high) && TablesOk(t)
    ensures TablesGrow(receipts, low, t, Written(t, id, effect)) && TablesOk(Written(t, id, effect))
  {
    EffectGrowsNodes(t, id, effect, low, high);
    EffectGrowsClaims(receipts, t, id, effect, low, high);
    EffectGrowsBirths(receipts, t, id, effect, low, high);
  }

  lemma ClaimsGrowTransitive(receipts: map<Id, Receipt>, a: map<Id, Claim>, b: map<Id, Claim>, c: map<Id, Claim>)
    requires ClaimsGrow(receipts, a, b) && ClaimsGrow(receipts, b, c)
    ensures ClaimsGrow(receipts, a, c)
  {
  }

  lemma BirthsGrowTransitive(receipts: map<Id, Receipt>, a: map<Id, Birth>, b: map<Id, Birth>, c: map<Id, Birth>)
    requires BirthsGrow(receipts, a, b) && BirthsGrow(receipts, b, c)
    ensures BirthsGrow(receipts, a, c)
  {
  }

  lemma TablesGrowTransitive(receipts: map<Id, Receipt>, p: nat, a: Tables, b: Tables, c: Tables)
    requires TablesGrow(receipts, p, a, b) && TablesGrow(receipts, p, b, c)
    ensures TablesGrow(receipts, p, a, c)
  {
    GrowsAfterTransitive(a.nodes, b.nodes, c.nodes, p, p);
    ClaimsGrowTransitive(receipts, a.claims, b.claims, c.claims);
    BirthsGrowTransitive(receipts, a.births, b.births, c.births);
  }

  lemma NothingGrows(receipts: map<Id, Receipt>, p: nat, t: Tables)
    ensures TablesGrow(receipts, p, t, t)
  {
  }

  /** However many rows a transaction writes, together they only grow the tables. */
  lemma {:induction false} EffectsGrow(receipts: map<Id, Receipt>, t: Tables, id: Id, effects: seq<Effect>, low: nat,
                                       high: nat)
    requires id !in receipts && EffectsFit(t, id, effects, low, high) && TablesOk(t)
    ensures TablesGrow(receipts, low, t, AllWritten(t, id, effects)) && TablesOk(AllWritten(t, id, effects))
    decreases |effects|
  {
    if effects == [] {
      NothingGrows(receipts, low, t);
    } else {
      var u := Written(t, id, effects[0]);
      EffectGrows(receipts, t, id, effects[0], low, high);
      EffectsGrow(receipts, u, id, effects[1..], low, high);
      TablesGrowTransitive(receipts, low, t, u, AllWritten(u, id, effects[1..]));
    }
  }

  lemma FinishExtends(s: Store, id: Id, row: Submission, digest: Id, succeeded: bool, events: seq<Event>, t: Tables)
    requires Inv(s) && MayCommit(s, id, row, events) && TablesGrow(s.receipts, |s.log|, TablesOf(s), t)
    ensures Extends(s, Finishing(s, id, row, digest, succeeded, events, t))
  {
    CommitExtends(s, id, row, digest, succeeded, events);
  }

  lemma FinishKeepsInv(s: Store, id: Id, row: Submission, digest: Id, succeeded: bool, events: seq<Event>, t: Tables)
    requires Inv(s) && MayCommit(s, id, row, events) && TablesOk(t)
    ensures Inv(Finishing(s, id, row, digest, succeeded, events, t))
  {
    CommitKeepsInv(s, id, row, digest, succeeded, events);
  }

  lemma SubmitExtends(s: Store, id: Id, row: Submission)
    requires Inv(s) && id !in s.submissions && !row.terminal
    ensures Extends(s, s.(submissions := s.submissions[id := row])) && Inv(s.(submissions := s.submissions[id := row]))
  {
    var after := s.submissions[id := row];
    assert forall c :: Terminal(after, c) <==> Terminal(s.submissions, c);
  }

  /** Every transaction only extends the tables, in the sense the stability of a
      sweep's decision needs. */
  lemma StepExtends(s: Store, tx: Transaction, t: Store)
    requires Inv(s) && Transacts(s, tx, t)
    ensures Extends(s, t) && Inv(t)
  {
    match tx
    case Enroll(e) =>
    case Submit(id, row) => SubmitExtends(s, id, row);
    case Finish(id, events, digest, succeeded, effects) =>
      assert id !in s.receipts;
      EffectsGrow(s.receipts, TablesOf(s), id, effects, |s.log|, |s.log| + |events|);
      FinishExtends(s, id, s.submissions[id], digest, succeeded, events, AllWritten(TablesOf(s), id, effects));
      FinishKeepsInv(s, id, s.submissions[id], digest, succeeded, events, AllWritten(TablesOf(s), id, effects));
    case SweepBatch(c, event, digest) => SweepExtends(s, c, event, digest, Evaluate(s, c, |s.log|).value);
  }

  /** An event of one of the sweep commands is the first swept event of its Batch. */
  ghost predicate SweptOnce(log: seq<Event>, sweeps: set<Id>) {
    forall i, k | 0 <= i < k < |log| && log[i].body == BatchSwept && log[k].body == BatchSwept
                  && log[k].command in sweeps ::
      log[i].subject != log[k].subject
  }

  lemma SweptOnceSweep(log: seq<Event>, sweeps: set<Id>, e: Event, id: Id)
    requires SweptOnce(log, sweeps) && !Prior(log, e.subject, BatchSwept)
             && forall i | 0 <= i < |log| :: log[i].command != id
    ensures SweptOnce(log + [e], sweeps + {id})
  {
  }

  lemma SweptOnceOther(log: seq<Event>, sweeps: set<Id>, events: seq<Event>, id: Id)
    requires SweptOnce(log, sweeps) && id !in sweeps && forall i | 0 <= i < |events| :: events[i].command == id
    ensures SweptOnce(log + events, sweeps)
  {
  }

  lemma SweptOnceSilent(log: seq<Event>, sweeps: set<Id>, id: Id)
    requires SweptOnce(log, sweeps) && forall i | 0 <= i < |log| :: log[i].command != id
    ensures SweptOnce(log, sweeps + {id})
  {
  }

  lemma SweptMeansFirst(s: Store, c: Command)
    requires WellFormed(s.nodes) && Evaluate(s, c, |s.log|) == Some(Swept)
    ensures !Prior(s.log, c.batch, BatchSwept)
  {
    assert s.log[..|s.log|] == s.log;
  }

  /** The tables hang together, no Batch was swept twice from this path, and every
      sweep terminal passes its check. */
  ghost predicate Good(s: Store) {
    && Inv(s) && SweptOnce(s.log, s.boundaries.Keys) && s.boundaries.Keys == s.sweeps.Keys
    && forall id | id in s.boundaries :: Validates(s, id)
  }

  lemma SweepKeepsSweptOnce(s: Store, c: Command, event: EventId, digest: Id)
    requires Inv(s) && SweptOnce(s.log, s.boundaries.Keys) && MaySweep(s, c)
    ensures var t := Sweeping(s, c, event, digest, Evaluate(s, c, |s.log|).value); SweptOnce(t.log, t.boundaries.Keys)
  {
    var outcome := Evaluate(s, c, |s.log|).value;
    NothingAhead(s.log, s.submissions, s.heads, c.id, SweepRow(c));
    assert Sweeping(s, c, event, digest, outcome).boundaries.Keys == s.boundaries.Keys + {c.id};
    if outcome == Swept {
      SweptMeansFirst(s, c);
      SweptOnceSweep(s.log, s.boundaries.Keys, SweptEvent(c, event), c.id);
    } else {
      SweptOnceSilent(s.log, s.boundaries.Keys, c.id);
      assert s.log + [] == s.log;
    }
  }

  lemma StepKeepsSweptOnce(s: Store, tx: Transaction, t: Store)
    requires Good(s) && Transacts(s, tx, t)
    ensures SweptOnce(t.log, t.boundaries.Keys)
  {
    match tx
    case Enroll(e) =>
    case Submit(id, row) =>
    case Finish(id, events, digest, succeeded, effects) =>
      assert id in s.boundaries ==> Validates(s, id);
      SweptOnceOther(s.log, s.boundaries.Keys, events, id);
    case SweepBatch(c, event, digest) => SweepKeepsSweptOnce(s, c, event, digest);
  }

  /** Every boundary but the transaction's own was there before, unchanged. */
  ghost predicate Retained(s: Store, t: Store, own: Option<Id>) {
    && t.boundaries.Keys == t.sweeps.Keys
    && forall id | id in t.boundaries && own != Some(id) ::
         id in s.boundaries && id in s.sweeps && t.boundaries[id] == s.boundaries[id] && id in t.sweeps
         && t.sweeps[id] == s.sweeps[id]
  }

  function Own(tx: Transaction): Option<Id> {
    if tx.SweepBatch? then Some(tx.command.id) else None
  }

  lemma StepRetains(s: Store, tx: Transaction, t: Store)
    requires Transacts(s, tx, t) && s.boundaries.Keys == s.sweeps.Keys
    ensures Retained(s, t, Own(tx))
  {
  }

  lemma AllValidate(s: Store, t: Store, own: Option<Id>)
    requires Good(s) && Inv(t) && Extends(s, t) && Retained(s, t, own)
    requires own.Some? ==> Validates(t, own.value)
    ensures forall id | id in t.boundaries :: Validates(t, id)
  {
    forall id | id in t.boundaries && own != Some(id)
      ensures Validates(t, id)
    {
      assert Validates(s, id);
      ValidationStable(s, t, id);
    }
  }

  lemma OwnValidates(s: Store, tx: Transaction, t: Store)
    requires Inv(s) && Transacts(s, tx, t)
    ensures tx.SweepBatch? ==> WellFormed(t.nodes) && Validates(t, tx.command.id)
  {
    if tx.SweepBatch? {
      SweepValidates(s, tx.command, tx.event, tx.digest, t);
    }
  }

  lemma StepKeepsGood(s: Store, tx: Transaction, t: Store)
    requires Good(s) && Transacts(s, tx, t)
    ensures Good(t)
  {
    StepExtends(s, tx, t);
    StepKeepsSweptOnce(s, tx, t);
    StepRetains(s, tx, t);
    OwnValidates(s, tx, t);
    AllValidate(s, t, Own(tx));
  }

  ghost predicate Next(s: Store, t: Store) {
    exists tx :: Transacts(s, tx, t)
  }

  ghost predicate IsRun(states: seq<Store>) {
    && |states| > 0
    && states[0] == Store(map[], [], map[], map[], map[], map[], map[], map[], map[], map[])
    && forall i | 0 <= i < |states| - 1 :: Next(states[i], states[i + 1])
  }

  /** In every run, at every state: each sweep terminal committed so far, swept,
      already swept or refused, is accepted by the check, and no Batch has been
      swept twice from this path. */
  lemma {:induction false} EveryTerminalValidates(states: seq<Store>, n: nat)
    requires IsRun(states) && n < |states|
    ensures Good(states[n])
  {
    if n > 0 {
      EveryTerminalValidates(states, n - 1);
      var tx :| Transacts(states[n - 1], tx, states[n]);
      StepKeepsGood(states[n - 1], tx, states[n]);
    }
  }

  // ---------------------------------------------------------------- what an outcome means

  /** The last creation of the anonymous Batch in the prefix names the Matter. */
  ghost predicate LastNames(prefix: seq<Event>, batch: Id, matter: Id) {
    exists i :: 0 <= i < |prefix| && prefix[i].subject == batch && prefix[i].body == BatchAnonymous(matter)
                && forall j | i < j < |prefix| :: prefix[j].subject != batch || !prefix[j].body.BatchAnonymous?
  }

  /** The last transition of the Matter in the prefix is its finish. */
  ghost predicate LastFinishes(prefix: seq<Event>, matter: Id) {
    exists i :: 0 <= i < |prefix| && Moves(prefix[i], matter, Matter) && prefix[i].body.verb == Finished
                && forall j | i < j < |prefix| :: !Moves(prefix[j], matter, Matter)
  }

  /** Acquired at or before p, and not closed at or before p. */
  ghost predicate HeldAt(receipts: map<Id, Receipt>, acquire: Id, closed: Option<Id>, p: nat) {
    && acquire in receipts && 0 < receipts[acquire].first <= p
    && !exists close :: closed == Some(close) && close in receipts && 0 < receipts[close].last <= p
  }

  /** Some claim row of the Matter, or its birth journal, is held at p. */
  ghost predicate Held(s: Store, matter: Id, p: nat) {
    || (exists k :: k in s.claims && s.claims[k].matter == matter
                    && HeldAt(s.receipts, s.claims[k].acquire, s.claims[k].closed, p))
    || (matter in s.births && HeldAt(s.receipts, s.births[matter].command, s.births[matter].release, p))
  }

  // Brackets by event positions.

  function RunStarts(prefix: seq<Event>, batch: Id): set<nat> {
    set i: nat | i < |prefix| && prefix[i].body.RunStarted?
                 && (prefix[i].body.batchId == batch || prefix[i].body.batch == batch)
  }

  /** One of the events at these positions has the subject. */
  predicate Named(prefix: seq<Event>, at: set<nat>, x: Id) {
    exists i :: i in at && i < |prefix| && prefix[i].subject == x
  }

  /** A dispatch of the Batch, of the Matter, or of a related run started before it. */
  predicate OpensAt(prefix: seq<Event>, batch: Id, matter: Id, i: nat)
    requires i < |prefix|
  {
    var b := prefix[i].body;
    && b.DispatchOpened?
    && (b.batchId == batch || b.matterId == matter || b.matter == matter
        || Named(prefix[..i], RunStarts(prefix[..i], batch), b.run))
  }

  function DispatchOpens(prefix: seq<Event>, batch: Id, matter: Id): set<nat> {
    set i: nat | i < |prefix| && OpensAt(prefix, batch, matter, i)
  }

  /** A role of a related dispatch opened before it. */
  predicate SpawnsAt(prefix: seq<Event>, batch: Id, matter: Id, i: nat)
    requires i < |prefix|
  {
    var b := prefix[i].body;
    && b.RoleSpawned?
    && (Named(prefix[..i], DispatchOpens(prefix[..i], batch, matter), b.dispatch)
        || Named(prefix[..i], DispatchOpens(prefix[..i], batch, matter), b.dispatchId))
  }

  function RoleSpawns(prefix: seq<Event>, batch: Id, matter: Id): set<nat> {
    set i: nat | i < |prefix| && SpawnsAt(prefix, batch, matter, i)
  }

  ghost predicate Unclosed(prefix: seq<Event>, i: nat, closing: Body)
    requires i < |prefix|
  {
    forall j | i < j < |prefix| :: !(prefix[j].subject == prefix[i].subject && prefix[j].body == closing)
  }

  /** Opened at one of the positions, with no closing event after it. */
  ghost predicate StillOpen(prefix: seq<Event>, at: set<nat>, x: Id, closing: Body) {
    exists i :: i in at && i < |prefix| && prefix[i].subject == x && Unclosed(prefix, i, closing)
  }

  ghost predicate OpenBracket(prefix: seq<Event>, batch: Id, matter: Id) {
    exists x ::
      || StillOpen(prefix, RunStarts(prefix, batch), x, RunEnded)
      || StillOpen(prefix, DispatchOpens(prefix, batch, matter), x, DispatchClosed)
      || StillOpen(prefix, RoleSpawns(prefix, batch, matter), x, RoleClosed)
  }

  lemma NamedAppend(prefix: seq<Event>, e: Event, at: set<nat>, more: set<nat>, x: Id)
    requires (forall i | i in at :: i < |prefix|) && (more == at || more == at + {|prefix|})
    ensures Named(prefix + [e], more, x) <==> Named(prefix, at, x) || (|prefix| in more && e.subject == x)
  {
    var all := prefix + [e];
    assert all[|prefix|] == e && forall i | 0 <= i < |prefix| :: all[i] == prefix[i];
    if Named(prefix, at, x) {
      var i :| i in at && i < |prefix| && prefix[i].subject == x;
      assert all[i].subject == x;
    }
  }

  lemma UnclosedAppend(prefix: seq<Event>, e: Event, i: nat, closing: Body)
    requires i < |prefix|
    ensures Unclosed(prefix + [e], i, closing) <==>
              Unclosed(prefix, i, closing) && !(e.subject == prefix[i].subject && e.body == closing)
  {
    var all := prefix + [e];
    assert all[|prefix|] == e && forall j | 0 <= j < |prefix| :: all[j] == prefix[j];
  }

  lemma StillOpenAppend(prefix: seq<Event>, e: Event, at: set<nat>, more: set<nat>, x: Id, closing: Body)
    requires (forall i | i in at :: i < |prefix|) && (more == at || more == at + {|prefix|})
    ensures StillOpen(prefix + [e], more, x, closing) <==>
              || (|prefix| in more && e.subject == x)
              || (StillOpen(prefix, at, x, closing) && !(e.subject == x && e.body == closing))
  {
    var all := prefix + [e];
    assert all[|prefix|] == e && forall i | 0 <= i < |prefix| :: all[i] == prefix[i];
    forall i: nat | i < |prefix|
      ensures Unclosed(all, i, closing) <==>
                Unclosed(prefix, i, closing) && !(e.subject == prefix[i].subject && e.body == closing)
    {
      UnclosedAppend(prefix, e, i, closing);
    }
    if |prefix| in more && e.subject == x {
      assert Unclosed(all, |prefix|, closing);
    }
    if StillOpen(prefix, at, x, closing) && !(e.subject == x && e.body == closing) {
      var i :| i in at && i < |prefix| && prefix[i].subject == x && Unclosed(prefix, i, closing);
      assert i in more && all[i].subject == x && Unclosed(all, i, closing);
    }
  }

  lemma StartsAppend(prefix: seq<Event>, e: Event, batch: Id)
    ensures RunStarts(prefix + [e], batch)
            == RunStarts(prefix, batch)
               + if e.body.RunStarted? && (e.body.batchId == batch || e.body.batch == batch) then {|prefix|} else {}
  {
    var all := prefix + [e];
    assert all[|prefix|] == e && forall i | 0 <= i < |prefix| :: all[i] == prefix[i];
  }

  lemma OpensAppend(prefix: seq<Event>, e: Event, batch: Id, matter: Id)
    ensures DispatchOpens(prefix + [e], batch, matter)
            == DispatchOpens(prefix, batch, matter)
               + if OpensAt(prefix + [e], batch, matter, |prefix|) then {|prefix|} else {}
  {
    var all := prefix + [e];
    forall i: nat | i < |prefix|
      ensures OpensAt(all, batch, matter, i) == OpensAt(prefix, batch, matter, i)
    {
      assert all[..i] == prefix[..i] && all[i] == prefix[i];
    }
  }

  lemma SpawnsAppend(prefix: seq<Event>, e: Event, batch: Id, matter: Id)
    ensures RoleSpawns(prefix + [e], batch, matter)
            == RoleSpawns(prefix, batch, matter)
               + if SpawnsAt(prefix + [e], batch, matter, |prefix|) then {|prefix|} else {}
  {
    var all := prefix + [e];
    forall i: nat | i < |prefix|
      ensures SpawnsAt(all, batch, matter, i) == SpawnsAt(prefix, batch, matter, i)
    {
      assert all[..i] == prefix[..i] && all[i] == prefix[i];
    }
  }

  /** The map knows what was opened at these positions, and says whether it still is. */
  ghost predicate Tracks(m: map<Id, bool>, prefix: seq<Event>, at: set<nat>, closing: Body) {
    && (forall x :: x in m <==> Named(prefix, at, x))
    && (forall x :: x in m && m[x] <==> StillOpen(prefix, at, x, closing))
  }

  /** One more event: it opens, closes what is known, or leaves the map alone. */
  ghost predicate Retracked(m: map<Id, bool>, e: Event, opens: bool, closing: Body, after: map<Id, bool>) {
    if opens then e.body != closing && after == m[e.subject := true]
    else if e.body == closing && e.subject in m then after == m[e.subject := false]
    else after == m
  }

  lemma TracksAt(m: map<Id, bool>, prefix: seq<Event>, e: Event, at: set<nat>, more: set<nat>, closing: Body,
                 after: map<Id, bool>, x: Id)
    requires Tracks(m, prefix, at, closing) && Retracked(m, e, |prefix| in more, closing, after)
    requires (forall i | i in at :: i < |prefix|) && (more == at || more == at + {|prefix|})
    ensures x in after <==> Named(prefix + [e], more, x)
    ensures x in after && after[x] <==> StillOpen(prefix + [e], more, x, closing)
  {
    NamedAppend(prefix, e, at, more, x);
    StillOpenAppend(prefix, e, at, more, x, closing);
  }

  lemma TracksAppend(m: map<Id, bool>, prefix: seq<Event>, e: Event, at: set<nat>, more: set<nat>, closing: Body,
                     after: map<Id, bool>)
    requires Tracks(m, prefix, at, closing) && Retracked(m, e, |prefix| in more, closing, after)
    requires (forall i | i in at :: i < |prefix|) && (more == at || more == at + {|prefix|})
    ensures Tracks(after, prefix + [e], more, closing)
  {
    forall x
      ensures x in after <==> Named(prefix + [e], more, x)
      ensures x in after && after[x] <==> StillOpen(prefix + [e], more, x, closing)
    {
      TracksAt(m, prefix, e, at, more, closing, after, x);
    }
  }

  ghost predicate TracksRuns(b: Brackets, prefix: seq<Event>, batch: Id) {
    Tracks(b.runs, prefix, RunStarts(prefix, batch), RunEnded)
  }

  ghost predicate TracksDispatches(b: Brackets, prefix: seq<Event>, batch: Id, matter: Id) {
    Tracks(b.dispatches, prefix, DispatchOpens(prefix, batch, matter), DispatchClosed)
  }

  ghost predicate TracksRoles(roles: set<Id>, prefix: seq<Event>, at: set<nat>) {
    forall x :: x in roles <==> StillOpen(prefix, at, x, RoleClosed)
  }

  lemma RunsTracked(b: Brackets, prefix: seq<Event>, e: Event, batch: Id, matter: Id)
    requires TracksRuns(b, prefix, batch)
    ensures TracksRuns(Bracketed(b, e, batch, matter), prefix + [e], batch)
  {
    StartsAppend(prefix, e, batch);
    TracksAppend(b.runs, prefix, e, RunStarts(prefix, batch), RunStarts(prefix + [e], batch), RunEnded,
                 Bracketed(b, e, batch, matter).runs);
  }

  /** What the loop asks of a dispatch is what its position says. */
  lemma OpensHere(b: Brackets, prefix: seq<Event>, e: Event, batch: Id, matter: Id)
    requires TracksRuns(b, prefix, batch)
    ensures OpensAt(prefix + [e], batch, matter, |prefix|) <==>
              && e.body.DispatchOpened?
              && (e.body.batchId == batch || e.body.matterId == matter || e.body.matter == matter
                  || e.body.run in b.runs)
  {
    assert (prefix + [e])[..|prefix|] == prefix && (prefix + [e])[|prefix|] == e;
  }

  lemma DispatchesTracked(b: Brackets, prefix: seq<Event>, e: Event, batch: Id, matter: Id)
    requires TracksRuns(b, prefix, batch) && TracksDispatches(b, prefix, batch, matter)
    ensures TracksDispatches(Bracketed(b, e, batch, matter), prefix + [e], batch, matter)
  {
    OpensAppend(prefix, e, batch, matter);
    OpensHere(b, prefix, e, batch, matter);
    TracksAppend(b.dispatches, prefix, e, DispatchOpens(prefix, batch, matter),
                 DispatchOpens(prefix + [e], batch, matter), DispatchClosed,
                 Bracketed(b, e, batch, matter).dispatches);
  }

  lemma SpawnsHere(b: Brackets, prefix: seq<Event>, e: Event, batch: Id, matter: Id)
    requires TracksDispatches(b, prefix, batch, matter)
    ensures SpawnsAt(prefix + [e], batch, matter, |prefix|) <==>
              e.body.RoleSpawned? && (e.body.dispatch in b.dispatches || e.body.dispatchId in b.dispatches)
  {
    assert (prefix + [e])[..|prefix|] == prefix && (prefix + [e])[|prefix|] == e;
  }

  lemma RolesAppend(roles: set<Id>, prefix: seq<Event>, e: Event, at: set<nat>, more: set<nat>, after: set<Id>)
    requires TracksRoles(roles, prefix, at)
    requires (forall i | i in at :: i < |prefix|) && (more == at || more == at + {|prefix|})
    requires after == if |prefix| in more then roles + {e.subject}
                      else if e.body == RoleClosed then roles - {e.subject} else roles
    requires |prefix| in more ==> e.body != RoleClosed
    ensures TracksRoles(after, prefix + [e], more)
  {
    forall x
      ensures x in after <==> StillOpen(prefix + [e], more, x, RoleClosed)
    {
      StillOpenAppend(prefix, e, at, more, x, RoleClosed);
    }
  }

  lemma RolesTracked(b: Brackets, prefix: seq<Event>, e: Event, batch: Id, matter: Id)
    requires TracksDispatches(b, prefix, batch, matter)
    requires TracksRoles(b.roles, prefix, RoleSpawns(prefix, batch, matter))
    ensures TracksRoles(Bracketed(b, e, batch, matter).roles, prefix + [e], RoleSpawns(prefix + [e], batch, matter))
  {
    SpawnsAppend(prefix, e, batch, matter);
    SpawnsHere(b, prefix, e, batch, matter);
    RolesAppend(b.roles, prefix, e, RoleSpawns(prefix, batch, matter), RoleSpawns(prefix + [e], batch, matter),
                Bracketed(b, e, batch, matter).roles);
  }

  lemma {:induction false} BracketsTracked(prefix: seq<Event>, batch: Id, matter: Id)
    ensures var b := AllBrackets(prefix, batch, matter);
            && TracksRuns(b, prefix, batch) && TracksDispatches(b, prefix, batch, matter)
            && TracksRoles(b.roles, prefix, RoleSpawns(prefix, batch, matter))
  {
    if prefix != [] {
      var before, e := prefix[..|prefix| - 1], prefix[|prefix| - 1];
      assert prefix == before + [e];
      BracketsTracked(before, batch, matter);
      var b := AllBrackets(before, batch, matter);
      RunsTracked(b, before, e, batch, matter);
      DispatchesTracked(b, before, e, batch, matter);
      RolesTracked(b, before, e, batch, matter);
    }
  }

  /** A bracket is open exactly when a related run, dispatch or role was opened and no
      closing event of it came after. */
  lemma BracketsExactly(prefix: seq<Event>, batch: Id, matter: Id)
    ensures IsOpen(AllBrackets(prefix, batch, matter)) <==> OpenBracket(prefix, batch, matter)
  {
    BracketsTracked(prefix, batch, matter);
    var b := AllBrackets(prefix, batch, matter);
    if b.roles != {} {
      var x :| x in b.roles;
      assert StillOpen(prefix, RoleSpawns(prefix, batch, matter), x, RoleClosed);
    }
  }

  lemma {:induction false} LastNamesExactly(prefix: seq<Event>, batch: Id, matter: Id)
    ensures BatchMatter(prefix, batch) == Some(matter) <==> LastNames(prefix, batch, matter)
    ensures BatchMatter(prefix, batch).None? <==>
              forall i | 0 <= i < |prefix| :: prefix[i].subject != batch || !prefix[i].body.BatchAnonymous?
  {
    if prefix != [] {
      var before, e := prefix[..|prefix| - 1], prefix[|prefix| - 1];
      LastNamesExactly(before, batch, matter);
      assert prefix == before + [e];
      if e.subject == batch && e.body.BatchAnonymous? {
        assert prefix[|before|] == e;
      } else {
        LastNamesSkips(before, e, batch, matter);
      }
    }
  }

  lemma LastNamesSkips(prefix: seq<Event>, e: Event, batch: Id, matter: Id)
    requires e.subject != batch || !e.body.BatchAnonymous?
    ensures LastNames(prefix + [e], batch, matter) <==> LastNames(prefix, batch, matter)
  {
    var all := prefix + [e];
    assert all[|prefix|] == e && forall i | 0 <= i < |prefix| :: all[i] == prefix[i];
    if LastNames(prefix, batch, matter) {
      var i :| 0 <= i < |prefix| && prefix[i].subject == batch && prefix[i].body == BatchAnonymous(matter)
               && forall j | i < j < |prefix| :: prefix[j].subject != batch || !prefix[j].body.BatchAnonymous?;
      assert all[i].subject == batch;
    }
  }

  lemma {:induction false} LastFinishesExactly(prefix: seq<Event>, matter: Id)
    ensures StateOf(prefix, matter, Matter) == Done <==> LastFinishes(prefix, matter)
  {
    if prefix != [] {
      var before, e := prefix[..|prefix| - 1], prefix[|prefix| - 1];
      LastFinishesExactly(before, matter);
      assert prefix == before + [e];
      if Moves(e, matter, Matter) {
        assert prefix[|before|] == e;
      } else {
        LastFinishesSkips(before, e, matter);
      }
    }
  }

  lemma LastFinishesSkips(prefix: seq<Event>, e: Event, matter: Id)
    requires !Moves(e, matter, Matter)
    ensures LastFinishes(prefix + [e], matter) <==> LastFinishes(prefix, matter)
  {
    var all := prefix + [e];
    assert all[|prefix|] == e && forall i | 0 <= i < |prefix| :: all[i] == prefix[i];
    if LastFinishes(prefix, matter) {
      var i :| 0 <= i < |prefix| && Moves(prefix[i], matter, Matter) && prefix[i].body.verb == Finished
               && forall j | i < j < |prefix| :: !Moves(prefix[j], matter, Matter);
      assert Moves(all[i], matter, Matter);
    }
  }

  lemma HeldExactly(s: Store, matter: Id, p: nat)
    ensures AnyActive(s, matter, p) <==> Held(s, matter, p)
  {
    forall acquire, closed
      ensures ActiveAt(s.receipts, acquire, closed, p) <==> HeldAt(s.receipts, acquire, closed, p)
    {
    }
  }

  /** The release command wrote exactly the events at the positions first to last, all in
      the Repo: the release of the claim, and before it the end of an explicit claim's
      dispatch. */
  ghost predicate WroteRelease(log: seq<Event>, release: Id, repo: Id, claim: Id, dispatch: Option<Id>, first: nat,
                               last: nat)
  {
    && 0 < first <= last <= |log| && (last == if dispatch.Some? then first + 1 else first)
    && (forall i | 0 <= i < |log| :: log[i].command == release <==> first <= i + 1 <= last)
    && (forall i | first <= i + 1 <= last :: log[i].repo == repo)
    && log[last - 1].subject == claim && log[last - 1].body == ClaimReleased(claim)
    && (dispatch.Some? ==> log[first - 1].subject == dispatch.value && log[first - 1].body == DispatchClosed)
  }

  /** The release x closed the Matter's birth journal, or its claim in the Batch; the
      dispatch is that of the claim. */
  ghost predicate Closed(s: Store, c: Command, x: Operation, dispatch: Option<Id>)
    requires x.ClaimRelease?
  {
    var k := c.close.claim;
    if x.worktree == "" then
      && dispatch.None? && k == c.matter && c.close.claimEpoch == 1 && k in s.births
      && s.births[k] == Birth(s.births[k].command, c.environment, c.repo, Some(c.close.release), x.barrier)
    else
      && k in s.claims && k in s.closes && dispatch == Some(s.claims[k].dispatch)
      && s.claims[k] == Claim(c.matter, c.batch, c.close.claimEpoch, c.epoch, c.environment, x.worktree,
                              s.claims[k].dispatch, s.claims[k].acquire, Some(c.close.release))
      && s.closes[k] == Close(s.closes[k].command, true, c.environment, x.barrier)
  }

  function DispatchEnded(s: Store, c: Command, x: Operation): Option<Id>
    requires x.ClaimRelease?
  {
    if x.worktree == "" || c.close.claim !in s.claims then None else Some(s.claims[c.close.claim].dispatch)
  }

  /** What a sweep must show: an earlier command of the same Environment and epoch, named
      by hash and receipt digest, released the Matter's claim by p with exactly its own
      events, and the named anchor is the log's own at some position from there to p. */
  ghost predicate Evidence(s: Store, c: Command, p: nat) {
    && c.close.release in s.submissions && c.close.release in s.receipts
    && var x, r := s.submissions[c.close.release], s.receipts[c.close.release];
       && x.operation.ClaimRelease?
       && x == Submission(c.close.releaseHash, c.environment, c.epoch, x.sequence,
                          ClaimRelease(c.close.claim, c.close.claimEpoch, c.repo, x.operation.worktree,
                                       x.operation.barrier), true)
       && r == Receipt(c.close.receiptDigest, c.close.releaseHash, true, r.first, r.last, true)
       && x.sequence < c.sequence && r.last <= p
       && Closed(s, c, x.operation, DispatchEnded(s, c, x.operation))
       && WroteRelease(s.log, c.close.release, c.repo, c.close.claim, DispatchEnded(s, c, x.operation), r.first, r.last)
       && r.last <= c.close.anchor.count <= p && c.close.anchor.count <= |s.log|
       && c.close.anchor == Anchored(s.log[..c.close.anchor.count])
  }

  /** Owning a range and as many events as it is long is owning exactly the range. */
  lemma {:induction false} OwnedExactly(log: seq<Event>, command: Id, a: nat, b: nat)
    requires a <= b <= |log| && forall i | a <= i < b :: log[i].command == command
    ensures Owned(log, command) >= b - a
    ensures Owned(log, command) == b - a <==> forall i | 0 <= i < |log| :: log[i].command == command <==> a <= i < b
  {
    if log != [] {
      var n := |log| - 1;
      var before := log[..n];
      OwnedExactly(before, command, if a < n then a else n, if b < n then b else n);
      assert forall i | 0 <= i < n :: before[i] == log[i];
    }
  }

  /** The events a release checks are exactly the ones it wrote. */
  lemma WroteExactly(log: seq<Event>, c: Command, dispatch: Option<Id>, r: Receipt, p: nat)
    requires r.last == if dispatch.Some? then r.first + 1 else r.first
    ensures ReleaseEvents(log, c, if dispatch.Some? then dispatch.value else "", r, p) <==>
              && WroteRelease(log, c.close.release, c.repo, c.close.claim, dispatch, r.first, r.last)
              && r.last <= c.close.anchor.count <= p && c.close.anchor.count <= |log|
              && c.close.anchor == Anchored(log[..c.close.anchor.count])
  {
    if 0 < r.first <= r.last <= |log| && forall i | r.first - 1 <= i < r.last :: log[i].command == c.close.release {
      OwnedExactly(log, c.close.release, r.first - 1, r.last);
    }
  }

  lemma EvidenceExactly(s: Store, c: Command, p: nat)
    ensures CloseEvidence(s, c, p) <==> Evidence(s, c, p)
  {
    if c.close.release in s.submissions && c.close.release in s.receipts
       && s.submissions[c.close.release].operation.ClaimRelease? {
      var x, r := s.submissions[c.close.release].operation, s.receipts[c.close.release];
      if r.last == if DispatchEnded(s, c, x).Some? then r.first + 1 else r.first {
        WroteExactly(s.log, c, DispatchEnded(s, c, x), r, p);
      }
    }
  }

  /** No live Matter, or a Batch nobody created. */
  ghost predicate Missing(nodes: map<Id, Node>, prefix: seq<Event>, c: Command) {
    || !(c.matter in nodes && nodes[c.matter].kind == Matter && nodes[c.matter].birth <= |prefix|
         && (nodes[c.matter].tombstone == 0 || nodes[c.matter].tombstone > |prefix|))
    || (forall i | 0 <= i < |prefix| && prefix[i].subject == c.batch ::
          !prefix[i].body.BatchAnonymous? && prefix[i].body != BatchNamed)
  }

  /** The Batch is another Matter's, another Repo's, named, or dismissed. */
  ghost predicate Mismatched(nodes: map<Id, Node>, prefix: seq<Event>, c: Command) {
    || !LastNames(prefix, c.batch, c.matter) || c.matter !in nodes || nodes[c.matter].repo != c.repo
    || (exists i :: 0 <= i < |prefix| && prefix[i].subject == c.batch && prefix[i].body == BatchDismissed)
  }

  ghost predicate SealedAt(nodes: map<Id, Node>, prefix: seq<Event>, matter: Id)
    requires WellFormed(nodes)
  {
    Fold(nodes, prefix).Some? && Sealed(nodes, Fold(nodes, prefix).value, matter, |prefix|)
  }

  /** Everything but brackets and the actor is in order. */
  ghost predicate Ready(s: Store, c: Command, p: nat)
    requires WellFormed(s.nodes) && p <= |s.log|
  {
    && !Missing(s.nodes, s.log[..p], c) && !Mismatched(s.nodes, s.log[..p], c) && Evidence(s, c, p)
    && LastFinishes(s.log[..p], c.matter) && SealedAt(s.nodes, s.log[..p], c.matter) && !Held(s, c.matter, p)
  }

  ghost predicate SweptBefore(prefix: seq<Event>, batch: Id) {
    exists i :: 0 <= i < |prefix| && prefix[i].subject == batch && prefix[i].body == BatchSwept
  }

  /** What each answer means, by the tables and the positions of the events. None is the
      error of a prefix the projection refuses. */
  ghost predicate Decides(s: Store, c: Command, p: nat, r: Option<Outcome>)
    requires WellFormed(s.nodes) && p <= |s.log|
  {
    var prefix := s.log[..p];
    var placed := !Missing(s.nodes, prefix, c) && !Mismatched(s.nodes, prefix, c);
    var clear := Ready(s, c, p) && !c.role && !OpenBracket(prefix, c.batch, c.matter);
    && (r == Some(Swept) <==> clear && !SweptBefore(prefix, c.batch))
    && (r == Some(AlreadySwept) <==> clear && SweptBefore(prefix, c.batch))
    && (r == Some(Refused(MISSING)) <==> Missing(s.nodes, prefix, c))
    && (r == Some(Refused(CLAIM_CLOSE)) <==> placed && !Evidence(s, c, p))
    && (r == Some(Refused(UNSUPPORTED)) <==>
          Ready(s, c, p) && (c.role || OpenBracket(prefix, c.batch, c.matter)))
    && (r == Some(Refused(NOT_ELIGIBLE)) <==>
          !Missing(s.nodes, prefix, c)
          && (Mismatched(s.nodes, prefix, c)
              || (Evidence(s, c, p)
                  && (!LastFinishes(prefix, c.matter)
                      || (Fold(s.nodes, prefix).Some?
                          && (Held(s, c.matter, p) || !SealedAt(s.nodes, prefix, c.matter)))))))
    && (r.None? <==> placed && Evidence(s, c, p) && LastFinishes(prefix, c.matter) && Fold(s.nodes, prefix).None?)
  }

  lemma TargetExactly(nodes: map<Id, Node>, prefix: seq<Event>, c: Command)
    ensures TargetRefusal(nodes, prefix, c)
            == if Missing(nodes, prefix, c) then Some(MISSING)
               else if Mismatched(nodes, prefix, c) then Some(NOT_ELIGIBLE) else None
  {
    LastNamesExactly(prefix, c.batch, c.matter);
  }

  lemma SealedExactly(nodes: map<Id, Node>, prefix: seq<Event>, matter: Id)
    requires WellFormed(nodes) && matter in nodes && nodes[matter].kind == Matter && Fold(nodes, prefix).Some?
    requires StateOf(prefix, matter, Matter) == Done
    ensures ChainMet(nodes, Fold(nodes, prefix).value, matter, |prefix|) <==> SealedAt(nodes, prefix, matter)
  {
    StateIsPhase(nodes, prefix, matter);
  }

  /** The answer, from what the tables and the events say. */
  ghost function Verdict(missing: bool, mismatched: bool, evidence: bool, finished: bool, projects: bool, busy: bool,
                         unsupported: bool, before: bool): Option<Outcome>
  {
    if missing then Some(Refused(MISSING))
    else if mismatched then Some(Refused(NOT_ELIGIBLE))
    else if !evidence then Some(Refused(CLAIM_CLOSE))
    else if !finished then Some(Refused(NOT_ELIGIBLE))
    else if !projects then None
    else if busy then Some(Refused(NOT_ELIGIBLE))
    else if unsupported then Some(Refused(UNSUPPORTED))
    else Some(if before then AlreadySwept else Swept)
  }

  ghost function VerdictAt(s: Store, c: Command, p: nat): Option<Outcome>
    requires WellFormed(s.nodes) && p <= |s.log|
  {
    var prefix := s.log[..p];
    Verdict(Missing(s.nodes, prefix, c), Mismatched(s.nodes, prefix, c), Evidence(s, c, p),
            LastFinishes(prefix, c.matter), Fold(s.nodes, prefix).Some?,
            Held(s, c.matter, p) || !SealedAt(s.nodes, prefix, c.matter),
            c.role || OpenBracket(prefix, c.batch, c.matter), SweptBefore(prefix, c.batch))
  }

  lemma VerdictDecides(s: Store, c: Command, p: nat)
    requires WellFormed(s.nodes) && p <= |s.log|
    ensures Decides(s, c, p, VerdictAt(s, c, p))
  {
  }

  lemma EvaluateIsVerdict(s: Store, c: Command, p: nat)
    requires WellFormed(s.nodes) && p <= |s.log|
    ensures Evaluate(s, c, p) == VerdictAt(s, c, p)
  {
    var prefix := s.log[..p];
    TargetExactly(s.nodes, prefix, c);
    EvidenceExactly(s, c, p);
    LastFinishesExactly(prefix, c.matter);
    HeldExactly(s, c.matter, p);
    BracketsExactly(prefix, c.batch, c.matter);
    if TargetRefusal(s.nodes, prefix, c).None? && StateOf(prefix, c.matter, Matter) == Done
       && Fold(s.nodes, prefix).Some? {
      SealedExactly(s.nodes, prefix, c.matter);
    }
  }

  /** The evaluation answers exactly what the tables and the log up to p say. */
  lemma OutcomeExactly(s: Store, c: Command, p: nat)
    requires WellFormed(s.nodes) && p <= |s.log|
    ensures Decides(s, c, p, Evaluate(s, c, p))
  {
    EvaluateIsVerdict(s, c, p);
    VerdictDecides(s, c, p);
  }

  // ---------------------------------------------------------------- the sweep in place

  /** batchSweepOpenBrackets: one pass over the prefix. */
  method OpenBrackets(prefix: seq<Event>, batch: Id, matter: Id) returns (found: bool)
    ensures found == IsOpen(AllBrackets(prefix, batch, matter))
  {
    var b := Brackets(map[], map[], {});
    for i := 0 to |prefix|
      invariant b == AllBrackets(prefix[..i], batch, matter)
    {
      assert prefix[..i + 1][..i] == prefix[..i];
      b := Bracketed(b, prefix[i], batch, matter);
    }
    assert prefix[..|prefix|] == prefix;
    found := IsOpen(b);
  }

  /** batchSweepResultAt. */
  method ResultAt(s: Store, c: Command, p: nat) returns (r: Option<Outcome>)
    requires WellFormed(s.nodes) && p <= |s.log|
    ensures r == Evaluate(s, c, p)
    ensures Decides(s, c, p, r)
  {
    var prefix := s.log[..p];
    OutcomeExactly(s, c, p);
    var refusal := TargetRefusal(s.nodes, prefix, c);
    if refusal.Some? {
      return Some(Refused(refusal.value));
    }
    if !CloseEvidence(s, c, p) {
      return Some(Refused(CLAIM_CLOSE));
    }
    var state := LifecycleState(prefix, c.matter, Matter);
    if state != Done {
      return Some(Refused(NOT_ELIGIBLE));
    }
    var g := Derive(s.nodes, prefix);
    if g.None? {
      return None;
    }
    StateIsPhase(s.nodes, prefix, c.matter);
    var sealed := IsSealed(s.nodes, g.value, c.matter, p);
    if AnyActive(s, c.matter, p) || !sealed {
      return Some(Refused(NOT_ELIGIBLE));
    }
    var bracketed := OpenBrackets(prefix, c.batch, c.matter);
    r := Some(if c.role || bracketed then Refused(UNSUPPORTED)
              else if Prior(prefix, c.batch, BatchSwept) then AlreadySwept else Swept);
  }

  datatype Reply = Decided(outcome: Outcome) | Replayed(receipt: Receipt) | Failed(error: Error)

  /** What a sweep answers: a known command only ever gets its own receipt back, and a
      new one is decided at the end of the log. */
  ghost function Answer(s: Store, c: Command, active: nat, repos: set<Id>): Reply
    requires WellFormed(s.nodes)
  {
    if c.epoch != active then Failed(ErrFenced)
    else if c.id in s.submissions then
      if s.submissions[c.id].hash != c.hash then Failed(ErrConflict)
      else if !s.submissions[c.id].terminal then Failed(ErrNotOwner)
      else if c.id in s.receipts then Replayed(s.receipts[c.id])
      else Failed(ErrInvalidStore)
    else if c.repo !in repos then Failed(ErrFenced)
    else if c.environment !in s.heads then Failed(ErrNotFound)
    else if c.sequence != s.heads[c.environment] + 1 then Failed(ErrPending)
    else
      match Evaluate(s, c, |s.log|)
      case None => Failed(ErrInvalidStore)
      case Some(outcome) => Decided(outcome)
  }

  /** A sweep is decided exactly when it is new, of the current epoch, from a member Repo,
      next in its Environment, and the log projects if the decision gets that far; a known
      one gets its receipt back exactly when it is the same command and terminal. */
  lemma AnswerExactly(s: Store, c: Command, active: nat, repos: set<Id>)
    requires WellFormed(s.nodes)
    ensures Answer(s, c, active, repos).Decided? <==>
              && c.id !in s.submissions && c.epoch == active && c.repo in repos
              && (c.environment, c.sequence - 1) in s.heads.Items && !Decides(s, c, |s.log|, None)
    ensures forall r :: Answer(s, c, active, repos) == Replayed(r) <==>
                        && c.epoch == active && (c.id, r) in s.receipts.Items && c.id in s.submissions
                        && s.submissions[c.id].terminal && s.submissions[c.id].hash == c.hash
  {
    OutcomeExactly(s, c, |s.log|);
  }

  class SweepStore {
    var nodes: map<Id, Node>
    var log: seq<Event>
    var heads: map<Id, nat>
    var submissions: map<Id, Submission>
    var receipts: map<Id, Receipt>
    var claims: map<Id, Claim>
    var closes: map<Id, Close>
    var births: map<Id, Birth>
    var boundaries: map<Id, Boundary>
    var sweeps: map<Id, Command>

    function View(): Store
      reads this
    {
      Store(nodes, log, heads, submissions, receipts, claims, closes, births, boundaries, sweeps)
    }

    /** SweepAnonymousBatch: replay of a known command, the guards in the order they are
        decided, then the transaction; an error leaves everything as it was. */
    method Sweep(c: Command, event: EventId, digest: Id, active: nat, repos: set<Id>) returns (reply: Reply)
      requires WellFormed(nodes)
      modifies this
      ensures reply == Answer(old(View()), c, active, repos)
      ensures reply.Decided?
              ==> MaySweep(old(View()), c) && View() == Sweeping(old(View()), c, event, digest, reply.outcome)
      ensures reply.Decided? ==> Decides(old(View()), c, |old(log)|, Some(reply.outcome))
      ensures !reply.Decided? ==> View() == old(View())
    {
      if c.epoch != active {
        return Failed(ErrFenced);
      }
      if c.id in submissions {
        if submissions[c.id].hash != c.hash {
          return Failed(ErrConflict);
        }
        if !submissions[c.id].terminal {
          return Failed(ErrNotOwner);
        }
        return if c.id in receipts then Replayed(receipts[c.id]) else Failed(ErrInvalidStore);
      }
      if c.repo !in repos {
        return Failed(ErrFenced);
      }
      if c.environment !in heads {
        return Failed(ErrNotFound);
      }
      if c.sequence != heads[c.environment] + 1 {
        return Failed(ErrPending);
      }
      var outcome := ResultAt(View(), c, |log|);
      if outcome.None? {
        return Failed(ErrInvalidStore);
      }
      Retain(c, event, digest, outcome.value);
      reply := Decided(outcome.value);
    }

    method Retain(c: Command, event: EventId, digest: Id, outcome: Outcome)
      modifies this
      ensures View() == Sweeping(old(View()), c, event, digest, outcome)
    {
      boundaries := boundaries[c.id := Boundary(c.hash, digest, outcome, Anchored(log))];
      sweeps := sweeps[c.id := c];
      submissions := submissions[c.id := Submission(c.hash, c.environment, c.epoch, c.sequence, Operation.Sweep, true)];
      heads := heads[c.environment := c.sequence];
      var position := if outcome == Swept then |log| + 1 else 0;
      receipts := receipts[c.id := Receipt(digest, c.hash, !outcome.Refused?, position, position, true)];
      if outcome == Swept {
        log := log + [SweptEvent(c, event)];
      } else {
        assert log + [] == log;
      }
    }
  }
}
