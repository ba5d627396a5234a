/** Node lifecycle commands: the writer starts planned ancestors root first, and the
    reopen check recomputes every committed command from the prefix before it. */
module Lifecycle {
  import opened Common
  import opened Nodes
  import opened Projection

  /** A committed command and the positions of its events. */
  datatype Record = Record(command: Command, first: nat, last: nat)

  /** ids are the event ids the caller offers; fenced: its claim is not the open one. */
  datatype Command = Command(id: Id, repo: Id, target: Id, scale: Kind, verb: Verb, fenced: bool, ids: seq<EventId>)

  datatype Store = Store(nodes: map<Id, Node>, log: seq<Event>, records: map<Id, Record>)

  datatype Outcome = Committed | Refused(code: string) | Failed(error: Error)

  // ---------------------------------------------------------------- the cascade

  /** The ancestors still planned at the prefix, root first. */
  function PlannedAbove(nodes: map<Id, Node>, prefix: seq<Event>, id: Id): seq<Id>
    requires WellFormed(nodes) && id in nodes
    decreases 2 - nodes[id].kind.Rank()
  {
    match nodes[id].parent
    case None => []
    case Some(p) =>
      PlannedAbove(nodes, prefix, p) + if StateOf(prefix, p, nodes[p].kind) == Planned then [p] else []
  }

  function Path(nodes: map<Id, Node>, prefix: seq<Event>, target: Id, verb: Verb): seq<Id>
    requires WellFormed(nodes) && target in nodes
  {
    if verb == Started then PlannedAbove(nodes, prefix, target) + [target] else [target]
  }

  /** Reverse in place with two indices. */
  method ReverseInPlace(a: array<Id>)
    modifies a
    ensures forall k | 0 <= k < a.Length :: a[k] == old(a[a.Length - 1 - k])
  {
    var left, right := 0, a.Length - 1;
    while left < right
      invariant 0 <= left <= a.Length && left + right == a.Length - 1 && left <= right + 1
      invariant forall k | 0 <= k < left :: a[k] == old(a[a.Length - 1 - k])
      invariant forall k | right < k < a.Length :: a[k] == old(a[a.Length - 1 - k])
      invariant forall k | left <= k <= right :: a[k] == old(a[k])
    {
      a[left], a[right] := a[right], a[left];
      left, right := left + 1, right - 1;
    }
  }

  function Reversed(s: seq<Id>): (r: seq<Id>)
    ensures |r| == |s| && forall k | 0 <= k < |s| :: r[k] == s[|s| - 1 - k]
  {
    seq(|s|, k requires 0 <= k < |s| => s[|s| - 1 - k])
  }

  /** Walk up collecting planned ancestors, nearest first, then reverse. */
  method CollectPlanned(nodes: map<Id, Node>, prefix: seq<Event>, target: Id) returns (path: seq<Id>)
    requires WellFormed(nodes) && target in nodes
    ensures path == PlannedAbove(nodes, prefix, target)
  {
    var planned: seq<Id> := [];
    var current := target;
    while nodes[current].parent.Some?
      invariant current in nodes
      invariant PlannedAbove(nodes, prefix, target) == PlannedAbove(nodes, prefix, current) + Reversed(planned)
      decreases 2 - nodes[current].kind.Rank()
    {
      var above := nodes[current].parent.value;
      var state := LifecycleState(prefix, above, nodes[above].kind);
      ghost var before := planned;
      if state == Planned {
        planned := planned + [above];
        assert Reversed(planned) == [above] + Reversed(before);
      }
      assert PlannedAbove(nodes, prefix, above) + ([above] + Reversed(before))
        == (PlannedAbove(nodes, prefix, above) + [above]) + Reversed(before);
      current := above;
    }
    var a := new Id[|planned|](i requires 0 <= i < |planned| => planned[i]);
    ReverseInPlace(a);
    path := a[..];
    assert path == Reversed(planned);
  }

  /** One event per node of the path: each but the target's is marked as cascade, each
      but the first names the event before it as its cause. */
  function EventAt(nodes: map<Id, Node>, c: Command, path: seq<Id>, i: nat): Event
    requires i < |path| <= |c.ids| && path[i] in nodes
  {
    Event(c.ids[i], c.id, c.repo, path[i],
          Lifecycle(nodes[path[i]].kind, c.verb, path[i] != c.target, if i == 0 then 0 else c.ids[i - 1]))
  }

  function EventsFor(nodes: map<Id, Node>, c: Command, path: seq<Id>): (r: seq<Event>)
    requires |path| <= |c.ids| && forall i | 0 <= i < |path| :: path[i] in nodes
    ensures |r| == |path| && forall i | 0 <= i < |path| :: r[i] == EventAt(nodes, c, path, i)
  {
    seq(|path|, i requires 0 <= i < |path| => EventAt(nodes, c, path, i))
  }

  /** The node and its ancestors have no tombstone. */
  predicate Standing(nodes: map<Id, Node>, id: Id)
    requires WellFormed(nodes) && id in nodes
    decreases 2 - nodes[id].kind.Rank()
  {
    nodes[id].tombstone == 0 && match nodes[id].parent case None => true case Some(p) => Standing(nodes, p)
  }

  /** The offered event ids are strictly ascending. */
  predicate IdsRise(ids: seq<EventId>) {
    forall i, k | 0 <= i < k < |ids| :: ids[i] < ids[k]
  }

  function LastId(log: seq<Event>): EventId {
    if log == [] then 0 else log[|log| - 1].id
  }

  predicate Resolves(nodes: map<Id, Node>, c: Command) {
    c.target in nodes && nodes[c.target].tombstone == 0 && nodes[c.target].repo == c.repo
    && nodes[c.target].kind == c.scale
  }

  lemma {:induction false} PlannedAboveInNodes(nodes: map<Id, Node>, prefix: seq<Event>, id: Id)
    requires WellFormed(nodes) && id in nodes
    ensures forall x | x in PlannedAbove(nodes, prefix, id) ::
              x in nodes && x != id && nodes[x].kind.Rank() > nodes[id].kind.Rank() && nodes[x].repo == nodes[id].repo
    ensures forall x | x in PlannedAbove(nodes, prefix, id) ::
              x in nodes && StateOf(prefix, x, nodes[x].kind) == Planned
    decreases 2 - nodes[id].kind.Rank()
  {
    if nodes[id].parent.Some? {
      PlannedAboveInNodes(nodes, prefix, nodes[id].parent.value);
    }
  }

  lemma PathInNodes(nodes: map<Id, Node>, prefix: seq<Event>, target: Id, verb: Verb)
    requires WellFormed(nodes) && target in nodes
    ensures forall i | 0 <= i < |Path(nodes, prefix, target, verb)| :: Path(nodes, prefix, target, verb)[i] in nodes
  {
    PlannedAboveInNodes(nodes, prefix, target);
  }

  /** completeM6LifecycleTx. A matter.finish writes the same event; its record
      also holds the sealing it reported and is kept by MatterFinish. */
  function Complete(s: Store, c: Command): (Store, Outcome)
    requires WellFormed(s.nodes)
  {
    if !IdsRise(c.ids) then (s, Failed(ErrInvalidProof))
    else if !Resolves(s.nodes, c) then (s, Failed(ErrFenced))
    else if c.fenced then (s, Refused("refusal.claim-fenced"))
    else if StateOf(s.log, c.target, c.scale) != c.verb.From() then (s, Refused("refusal.invalid-transition"))
    else if c.verb == Started && !Standing(s.nodes, c.target) then (s, Failed(ErrFenced))
    else
      var path := Path(s.nodes, s.log, c.target, c.verb);
      if |path| > |c.ids| || c.ids[0] <= LastId(s.log) then (s, Failed(ErrInvalidProof))
      else
        PathInNodes(s.nodes, s.log, c.target, c.verb);
        (s.(log := s.log + EventsFor(s.nodes, c, path),
            records := if c.verb == Finished && c.scale == Matter then s.records
                       else s.records[c.id := Record(c, |s.log| + 1, |s.log| + |path|)]), Committed)
  }

  // ---------------------------------------------------------------- the reopen check

  predicate LiveForRange(nodes: map<Id, Node>, id: Id, first: nat, last: nat)
    requires id in nodes
  {
    nodes[id].birth <= first && (nodes[id].tombstone == 0 || nodes[id].tombstone > last)
  }

  predicate ChainLive(nodes: map<Id, Node>, id: Id, first: nat, last: nat)
    requires WellFormed(nodes) && id in nodes
    decreases 2 - nodes[id].kind.Rank()
  {
    && LiveForRange(nodes, id, first, last)
    && match nodes[id].parent case None => true case Some(p) => ChainLive(nodes, p, first, last)
  }

  /** The subject and body the check expects at index i, given the events found. */
  predicate Matches(nodes: map<Id, Node>, c: Command, path: seq<Id>, events: seq<Event>, i: nat)
    requires i < |path| == |events| && path[i] in nodes
  {
    && events[i].subject == path[i]
    && events[i].body
       == Lifecycle(nodes[path[i]].kind, c.verb, path[i] != c.target, if i == 0 then 0 else events[i - 1].id)
  }

  /** The command recomputed at the prefix before its first event gives these events. */
  ghost predicate Recomputes(nodes: map<Id, Node>, prefix: seq<Event>, events: seq<Event>, c: Command)
    requires WellFormed(nodes)
  {
    && c.target in nodes && nodes[c.target].kind == c.scale
    && LiveForRange(nodes, c.target, |prefix| + 1, |prefix| + |events|)
    && StateOf(prefix, c.target, c.scale) == c.verb.From()
    && (c.verb == Started ==> ChainLive(nodes, c.target, |prefix| + 1, |prefix| + |events|))
    && AllMatch(nodes, c, Path(nodes, prefix, c.target, c.verb), events)
  }

  ghost predicate AllMatch(nodes: map<Id, Node>, c: Command, path: seq<Id>, events: seq<Event>) {
    |path| == |events| && forall i | 0 <= i < |path| :: path[i] in nodes && Matches(nodes, c, path, events, i)
  }

  ghost predicate Validates(nodes: map<Id, Node>, log: seq<Event>, r: Record)
    requires WellFormed(nodes)
  {
    0 < r.first <= r.last <= |log| && Recomputes(nodes, log[..r.first - 1], log[r.first - 1..r.last], r.command)
  }

  // ---------------------------------------------------------------- stability

  lemma {:induction false} PathStable(nodes: map<Id, Node>, later: map<Id, Node>, prefix: seq<Event>, id: Id, q: nat)
    requires WellFormed(nodes) && WellFormed(later) && GrowsAfter(nodes, later, q) && id in nodes
    ensures PlannedAbove(nodes, prefix, id) == PlannedAbove(later, prefix, id)
    decreases 2 - nodes[id].kind.Rank()
  {
    assert later[id] == nodes[id].(tombstone := later[id].tombstone);
    if nodes[id].parent.Some? {
      var p := nodes[id].parent.value;
      assert later[p] == nodes[p].(tombstone := later[p].tombstone);
      PathStable(nodes, later, prefix, p, q);
    }
  }

  lemma {:induction false} ChainLiveStable(nodes: map<Id, Node>, later: map<Id, Node>, id: Id, first: nat, last: nat,
                                           q: nat)
    requires WellFormed(nodes) && WellFormed(later) && GrowsAfter(nodes, later, q) && id in nodes && last <= q
    ensures ChainLive(nodes, id, first, last) == ChainLive(later, id, first, last)
    ensures LiveForRange(nodes, id, first, last) == LiveForRange(later, id, first, last)
    decreases 2 - nodes[id].kind.Rank()
  {
    assert later[id] == nodes[id].(tombstone := later[id].tombstone);
    if nodes[id].parent.Some? {
      ChainLiveStable(nodes, later, nodes[id].parent.value, first, last, q);
    }
  }

  lemma SameSlices(log: seq<Event>, more: seq<Event>, i: nat, k: nat)
    requires log <= more && i <= k <= |log|
    ensures more[..i] == log[..i] && more[i..k] == log[i..k]
  {
  }

  lemma RecomputesStable(nodes: map<Id, Node>, later: map<Id, Node>, prefix: seq<Event>, events: seq<Event>,
                         c: Command, q: nat)
    requires WellFormed(nodes) && WellFormed(later) && GrowsAfter(nodes, later, q) && |prefix| + |events| <= q
    requires Recomputes(nodes, prefix, events, c)
    ensures Recomputes(later, prefix, events, c)
  {
    TargetStable(nodes, later, prefix, c.target, c.verb, q);
    ChainLiveStable(nodes, later, c.target, |prefix| + 1, |prefix| + |events|, q);
    MatchesStable(nodes, later, c, Path(nodes, prefix, c.target, c.verb), events, q);
  }

  lemma TargetStable(nodes: map<Id, Node>, later: map<Id, Node>, prefix: seq<Event>, id: Id, verb: Verb, q: nat)
    requires WellFormed(nodes) && WellFormed(later) && GrowsAfter(nodes, later, q) && id in nodes
    ensures id in later && later[id].kind == nodes[id].kind
    ensures Path(later, prefix, id, verb) == Path(nodes, prefix, id, verb)
  {
    assert later[id] == nodes[id].(tombstone := later[id].tombstone);
    PathStable(nodes, later, prefix, id, q);
  }

  /** A command that passes the check passes it whatever is appended, born or buried later. */
  lemma ValidationStable(nodes: map<Id, Node>, later: map<Id, Node>, log: seq<Event>, more: seq<Event>, r: Record)
    requires WellFormed(nodes) && WellFormed(later) && GrowsAfter(nodes, later, |log|) && log <= more
             && Validates(nodes, log, r)
    ensures Validates(later, more, r)
  {
    SameSlices(log, more, r.first - 1, r.last);
    RecomputesStable(nodes, later, log[..r.first - 1], log[r.first - 1..r.last], r.command, |log|);
  }

  lemma MatchesStable(nodes: map<Id, Node>, later: map<Id, Node>, c: Command, path: seq<Id>, events: seq<Event>, q: nat)
    requires GrowsAfter(nodes, later, q) && AllMatch(nodes, c, path, events)
    ensures AllMatch(later, c, path, events)
  {
    forall i | 0 <= i < |path|
      ensures path[i] in later && Matches(later, c, path, events, i)
    {
      assert Matches(nodes, c, path, events, i);
      assert later[path[i]] == nodes[path[i]].(tombstone := later[path[i]].tombstone);
    }
  }

  // ---------------------------------------------------------------- the writer passes its check

  ghost predicate BornInLog(nodes: map<Id, Node>, log: seq<Event>) {
    forall id | id in nodes :: nodes[id].birth <= |log| && nodes[id].tombstone <= |log|
  }

  lemma {:induction false} StandingIsLive(nodes: map<Id, Node>, log: seq<Event>, id: Id, first: nat, last: nat)
    requires WellFormed(nodes) && id in nodes && BornInLog(nodes, log) && Standing(nodes, id) && |log| <= first
    ensures ChainLive(nodes, id, first, last)
    decreases 2 - nodes[id].kind.Rank()
  {
    if nodes[id].parent.Some? {
      StandingIsLive(nodes, log, nodes[id].parent.value, first, last);
    }
  }

  /** What a commit says of the store it was made in, and the log it leaves. */
  ghost predicate Moved(nodes: map<Id, Node>, log: seq<Event>, c: Command, path: seq<Id>, more: seq<Event>)
    requires WellFormed(nodes)
  {
    && Resolves(nodes, c) && path == Path(nodes, log, c.target, c.verb) && IdsRise(c.ids)
    && StateOf(log, c.target, c.scale) == c.verb.From() && (c.verb == Started ==> Standing(nodes, c.target))
    && |path| <= |c.ids| && (forall i | 0 <= i < |path| :: path[i] in nodes) && more == log + EventsFor(nodes, c, path)
  }

  lemma CommitMoves(s: Store, c: Command)
    requires WellFormed(s.nodes) && Complete(s, c).1 == Committed
    ensures Moved(s.nodes, s.log, c, Path(s.nodes, s.log, c.target, c.verb), Complete(s, c).0.log)
  {
    PathInNodes(s.nodes, s.log, c.target, c.verb);
  }

  lemma WrittenMatch(nodes: map<Id, Node>, c: Command, path: seq<Id>, i: nat)
    requires i < |path| <= |c.ids| && forall k | 0 <= k < |path| :: path[k] in nodes
    ensures Matches(nodes, c, path, EventsFor(nodes, c, path), i)
  {
    var events := EventsFor(nodes, c, path);
    assert events[i] == EventAt(nodes, c, path, i);
    if i > 0 {
      assert events[i - 1] == EventAt(nodes, c, path, i - 1);
    }
  }

  lemma SlicesOfAppend(log: seq<Event>, events: seq<Event>)
    ensures (log + events)[..|log|] == log && (log + events)[|log|..|log| + |events|] == events
  {
  }

  lemma AllWrittenMatch(nodes: map<Id, Node>, c: Command, path: seq<Id>)
    requires |path| <= |c.ids| && forall k | 0 <= k < |path| :: path[k] in nodes
    ensures AllMatch(nodes, c, path, EventsFor(nodes, c, path))
  {
    forall i | 0 <= i < |path|
      ensures path[i] in nodes && Matches(nodes, c, path, EventsFor(nodes, c, path), i)
    {
      WrittenMatch(nodes, c, path, i);
    }
  }

  lemma TargetLive(nodes: map<Id, Node>, log: seq<Event>, c: Command, last: nat)
    requires WellFormed(nodes) && BornInLog(nodes, log) && Resolves(nodes, c)
    requires c.verb == Started ==> Standing(nodes, c.target)
    ensures LiveForRange(nodes, c.target, |log| + 1, last)
    ensures c.verb == Started ==> ChainLive(nodes, c.target, |log| + 1, last)
  {
    if c.verb == Started {
      StandingIsLive(nodes, log, c.target, |log| + 1, last);
    }
  }

  lemma MoveRecomputes(nodes: map<Id, Node>, log: seq<Event>, c: Command, path: seq<Id>, more: seq<Event>)
    requires WellFormed(nodes) && BornInLog(nodes, log) && Moved(nodes, log, c, path, more)
    ensures Recomputes(nodes, log, EventsFor(nodes, c, path), c)
  {
    TargetLive(nodes, log, c, |log| + |path|);
    AllWrittenMatch(nodes, c, path);
  }

  lemma MoveValidates(nodes: map<Id, Node>, log: seq<Event>, c: Command, path: seq<Id>, more: seq<Event>)
    requires WellFormed(nodes) && BornInLog(nodes, log) && Moved(nodes, log, c, path, more)
    ensures Validates(nodes, more, Record(c, |log| + 1, |more|))
  {
    MoveRecomputes(nodes, log, c, path, more);
    AppendValidates(nodes, log, EventsFor(nodes, c, path), c);
  }

  lemma AppendValidates(nodes: map<Id, Node>, log: seq<Event>, events: seq<Event>, c: Command)
    requires WellFormed(nodes) && Recomputes(nodes, log, events, c)
    ensures Validates(nodes, log + events, Record(c, |log| + 1, |log| + |events|))
  {
    SlicesOfAppend(log, events);
    ValidatesFrom(nodes, log + events, Record(c, |log| + 1, |log| + |events|), log, events);
  }

  lemma ValidatesFrom(nodes: map<Id, Node>, log: seq<Event>, r: Record, prefix: seq<Event>, events: seq<Event>)
    requires WellFormed(nodes) && 0 < r.first <= r.last <= |log| && Recomputes(nodes, prefix, events, r.command)
    requires log[..r.first - 1] == prefix && log[r.first - 1..r.last] == events
    ensures Validates(nodes, log, r)
  {
  }

  /** Every committed command is accepted at once. */
  lemma WriterValidates(s: Store, c: Command)
    requires WellFormed(s.nodes) && BornInLog(s.nodes, s.log) && Complete(s, c).1 == Committed
    ensures Validates(s.nodes, Complete(s, c).0.log, Record(c, |s.log| + 1, |Complete(s, c).0.log|))
  {
    CommitMoves(s, c);
    MoveValidates(s.nodes, s.log, c, Path(s.nodes, s.log, c.target, c.verb), Complete(s, c).0.log);
  }

  // ---------------------------------------------------------------- states over time

  /** No node has left planned while its parent is planned. */
  ghost predicate RootsFirst(nodes: map<Id, Node>, log: seq<Event>) {
    forall id | id in nodes && nodes[id].parent.Some? && nodes[id].parent.value in nodes
                && StateOf(log, id, nodes[id].kind) != Planned ::
      StateOf(log, nodes[id].parent.value, nodes[nodes[id].parent.value].kind) != Planned
  }

  predicate IsAncestor(nodes: map<Id, Node>, a: Id, id: Id)
    requires WellFormed(nodes) && id in nodes
    decreases 2 - nodes[id].kind.Rank()
  {
    match nodes[id].parent
    case None => false
    case Some(p) => a == p || IsAncestor(nodes, a, p)
  }

  /** So no started node has a planned ancestor, however far up. */
  lemma {:induction false} NoPlannedAncestor(nodes: map<Id, Node>, log: seq<Event>, a: Id, id: Id)
    requires WellFormed(nodes) && RootsFirst(nodes, log) && id in nodes && IsAncestor(nodes, a, id)
    requires StateOf(log, id, nodes[id].kind) != Planned
    ensures a in nodes && StateOf(log, a, nodes[a].kind) != Planned
    decreases 2 - nodes[id].kind.Rank()
  {
    var p := nodes[id].parent.value;
    if a != p {
      NoPlannedAncestor(nodes, log, a, p);
    }
  }

  /** Each event moves the node at its place of the path, and no other. */
  ghost predicate MovesAlong(events: seq<Event>, path: seq<Id>, id: Id, scale: Kind, to: Phase) {
    && |events| == |path|
    && forall i | 0 <= i < |path| ::
         (Moves(events[i], id, scale) <==> path[i] == id) && (path[i] == id ==> events[i].body.verb.To() == to)
  }

  lemma {:induction false} StateAlong(log: seq<Event>, events: seq<Event>, path: seq<Id>, id: Id, scale: Kind,
                                      to: Phase)
    requires MovesAlong(events, path, id, scale, to)
    ensures StateOf(log + events, id, scale) == if id in path then to else StateOf(log, id, scale)
  {
    if events == [] {
      assert log + events == log;
    } else {
      var n := |events| - 1;
      StateAlong(log, events[..n], path[..n], id, scale, to);
      assert (log + events)[..|log| + n] == log + events[..n] && (log + events)[|log| + n] == events[n];
      assert path == path[..n] + [path[n]];
    }
  }

  lemma StateAfter(nodes: map<Id, Node>, log: seq<Event>, c: Command, path: seq<Id>, n: nat, id: Id)
    requires n <= |path| <= |c.ids| && (forall i | 0 <= i < |path| :: path[i] in nodes) && id in nodes
    ensures StateOf(log + EventsFor(nodes, c, path)[..n], id, nodes[id].kind)
            == if id in path[..n] then c.verb.To() else StateOf(log, id, nodes[id].kind)
  {
    StateAlong(log, EventsFor(nodes, c, path)[..n], path[..n], id, nodes[id].kind, c.verb.To());
  }

  lemma StateAfterAll(nodes: map<Id, Node>, log: seq<Event>, c: Command, path: seq<Id>, id: Id)
    requires |path| <= |c.ids| && (forall i | 0 <= i < |path| :: path[i] in nodes) && id in nodes
    ensures StateOf(log + EventsFor(nodes, c, path), id, nodes[id].kind)
            == if id in path then c.verb.To() else StateOf(log, id, nodes[id].kind)
  {
    StateAfter(nodes, log, c, path, |path|, id);
    assert EventsFor(nodes, c, path)[..|path|] == EventsFor(nodes, c, path) && path[..|path|] == path;
  }

  /** A parent of a node on the path is on the path itself or was not planned. */
  lemma {:induction false} PathClosed(nodes: map<Id, Node>, prefix: seq<Event>, id: Id, x: Id)
    requires WellFormed(nodes) && id in nodes && (x == id || x in PlannedAbove(nodes, prefix, id)) && x in nodes
             && nodes[x].parent.Some?
    ensures var p := nodes[x].parent.value;
            p in PlannedAbove(nodes, prefix, id) || StateOf(prefix, p, nodes[p].kind) != Planned
    decreases 2 - nodes[id].kind.Rank()
  {
    if x != id {
      PathClosed(nodes, prefix, nodes[id].parent.value, x);
    }
  }

  lemma MoveKeepsRootsFirst(nodes: map<Id, Node>, log: seq<Event>, c: Command, path: seq<Id>, more: seq<Event>)
    requires WellFormed(nodes) && RootsFirst(nodes, log) && Moved(nodes, log, c, path, more)
    ensures RootsFirst(nodes, more)
  {
    forall id | id in nodes && nodes[id].parent.Some? && nodes[id].parent.value in nodes
                && StateOf(more, id, nodes[id].kind) != Planned
      ensures StateOf(more, nodes[id].parent.value, nodes[nodes[id].parent.value].kind) != Planned
    {
      MoveKeepsParent(nodes, log, c, path, more, id);
    }
  }

  lemma MoveKeepsParent(nodes: map<Id, Node>, log: seq<Event>, c: Command, path: seq<Id>, more: seq<Event>, id: Id)
    requires WellFormed(nodes) && RootsFirst(nodes, log) && Moved(nodes, log, c, path, more)
    requires id in nodes && nodes[id].parent.Some? && StateOf(more, id, nodes[id].kind) != Planned
    ensures StateOf(more, nodes[id].parent.value, nodes[nodes[id].parent.value].kind) != Planned
  {
    var p := nodes[id].parent.value;
    StateAfterAll(nodes, log, c, path, id);
    StateAfterAll(nodes, log, c, path, p);
    if id in path && c.verb == Started {
      PathClosed(nodes, log, c.target, id);
    }
  }

  predicate Final(phase: Phase) {
    phase == Done || phase == Canceled
  }

  /** Done and canceled are absorbing under every command. */
  lemma MoveKeepsFinal(nodes: map<Id, Node>, log: seq<Event>, c: Command, path: seq<Id>, more: seq<Event>, id: Id)
    requires WellFormed(nodes) && Moved(nodes, log, c, path, more) && id in nodes
             && Final(StateOf(log, id, nodes[id].kind))
    ensures StateOf(more, id, nodes[id].kind) == StateOf(log, id, nodes[id].kind)
  {
    StateAfterAll(nodes, log, c, path, id);
    PlannedAboveInNodes(nodes, log, c.target);
  }

  /** The cascade runs root first: every node comes after all its ancestors on the path. */
  lemma {:induction false} PathRisesToTarget(nodes: map<Id, Node>, prefix: seq<Event>, target: Id, verb: Verb, i: nat,
                                             k: nat)
    requires WellFormed(nodes) && target in nodes && i < k < |Path(nodes, prefix, target, verb)|
    ensures var path := Path(nodes, prefix, target, verb);
            path[i] in nodes && path[k] in nodes && nodes[path[i]].kind.Rank() > nodes[path[k]].kind.Rank()
    decreases 2 - nodes[target].kind.Rank()
  {
    PlannedAboveInNodes(nodes, prefix, target);
    var above := PlannedAbove(nodes, prefix, target);
    if k < |above| {
      var p := nodes[target].parent.value;
      var higher := PlannedAbove(nodes, prefix, p);
      assert Path(nodes, prefix, p, Started) == higher + [p];
      PathRisesToTarget(nodes, prefix, p, Started, i, k);
      assert above[i] == (higher + [p])[i] && above[k] == (higher + [p])[k];
    } else {
      assert above[i] in above;
    }
  }

  // ---------------------------------------------------------------- the projection accepts what the writer writes

  lemma {:induction false} PlannedAboveStands(nodes: map<Id, Node>, prefix: seq<Event>, id: Id, x: Id)
    requires WellFormed(nodes) && id in nodes && Standing(nodes, id) && x in PlannedAbove(nodes, prefix, id)
    ensures x in nodes && nodes[x].tombstone == 0
    decreases 2 - nodes[id].kind.Rank()
  {
    var p := nodes[id].parent.value;
    if x != p {
      PlannedAboveStands(nodes, prefix, p, x);
    }
  }

  /** Each node of the path is live, in the command's Repo and in the state the verb leaves. */
  lemma PathReady(nodes: map<Id, Node>, log: seq<Event>, c: Command, path: seq<Id>, more: seq<Event>, x: Id)
    requires WellFormed(nodes) && Moved(nodes, log, c, path, more) && x in path
    ensures x in nodes && nodes[x].tombstone == 0 && nodes[x].repo == c.repo
    ensures StateOf(log, x, nodes[x].kind) == c.verb.From()
  {
    if x != c.target {
      PlannedAboveInNodes(nodes, log, c.target);
      PlannedAboveStands(nodes, log, c.target, x);
    }
  }

  /** One more event of the path passes the projection. */
  lemma EventFolds(nodes: map<Id, Node>, before: seq<Event>, e: Event, x: Id, repo: Id)
    requires BornInLog(nodes, before) && Fold(nodes, before).Some? && x in nodes && nodes[x].tombstone == 0
             && nodes[x].repo == repo
    requires e.subject == x && e.repo == repo && e.body.Lifecycle? && e.body.scale == nodes[x].kind
    requires StateOf(before, x, nodes[x].kind) == e.body.verb.From()
    ensures Fold(nodes, before + [e]).Some?
  {
    StateIsPhase(nodes, before, x);
    FoldAppend(nodes, before, e);
  }

  /** The n-th node of the path can take its event once those before it have theirs. */
  ghost predicate Ready(nodes: map<Id, Node>, log: seq<Event>, c: Command, path: seq<Id>, n: nat)
    requires n < |path| <= |c.ids| && forall i | 0 <= i < |path| :: path[i] in nodes
  {
    && nodes[path[n]].tombstone == 0 && nodes[path[n]].repo == c.repo
    && StateOf(log + EventsFor(nodes, c, path)[..n], path[n], nodes[path[n]].kind) == c.verb.From()
  }

  lemma NextOnPath(nodes: map<Id, Node>, log: seq<Event>, c: Command, path: seq<Id>, more: seq<Event>, n: nat)
    requires WellFormed(nodes) && Moved(nodes, log, c, path, more) && n < |path|
    ensures Ready(nodes, log, c, path, n)
  {
    PathReady(nodes, log, c, path, more, path[n]);
    StateAfter(nodes, log, c, path, n, path[n]);
    forall i | 0 <= i < n
      ensures path[i] != path[n]
    {
      PathRisesToTarget(nodes, log, c.target, c.verb, i, n);
    }
  }

  lemma {:induction false} ReadyPathFolds(nodes: map<Id, Node>, log: seq<Event>, c: Command, path: seq<Id>, n: nat)
    requires BornInLog(nodes, log) && Fold(nodes, log).Some? && n <= |path| <= |c.ids|
             && forall i | 0 <= i < |path| :: path[i] in nodes
    requires forall i | 0 <= i < |path| :: Ready(nodes, log, c, path, i)
    ensures Fold(nodes, log + EventsFor(nodes, c, path)[..n]).Some?
  {
    var events := EventsFor(nodes, c, path);
    if n == 0 {
      assert log + events[..0] == log;
    } else {
      ReadyPathFolds(nodes, log, c, path, n - 1);
      assert Ready(nodes, log, c, path, n - 1);
      ReadyEventFolds(nodes, log, c, path, n - 1);
    }
  }

  lemma ReadyEventFolds(nodes: map<Id, Node>, log: seq<Event>, c: Command, path: seq<Id>, n: nat)
    requires BornInLog(nodes, log) && n < |path| <= |c.ids| && forall i | 0 <= i < |path| :: path[i] in nodes
    requires Fold(nodes, log + EventsFor(nodes, c, path)[..n]).Some? && Ready(nodes, log, c, path, n)
    ensures Fold(nodes, log + EventsFor(nodes, c, path)[..n + 1]).Some?
  {
    var events := EventsFor(nodes, c, path);
    EventFolds(nodes, log + events[..n], events[n], path[n], c.repo);
    OneMoreEvent(log, events, n);
  }

  lemma MoveFolds(nodes: map<Id, Node>, log: seq<Event>, c: Command, path: seq<Id>, more: seq<Event>)
    requires WellFormed(nodes) && BornInLog(nodes, log) && Fold(nodes, log).Some? && Moved(nodes, log, c, path, more)
    ensures Fold(nodes, more).Some?
  {
    forall i | 0 <= i < |path|
      ensures Ready(nodes, log, c, path, i)
    {
      NextOnPath(nodes, log, c, path, more, i);
    }
    ReadyPathFolds(nodes, log, c, path, |path|);
    assert EventsFor(nodes, c, path)[..|path|] == EventsFor(nodes, c, path);
  }

  /** The gate and lifecycle projection accepts every log the writer produces. */
  lemma WriterFolds(s: Store, c: Command)
    requires WellFormed(s.nodes) && BornInLog(s.nodes, s.log) && Fold(s.nodes, s.log).Some?
             && Complete(s, c).1 == Committed
    ensures Fold(s.nodes, Complete(s, c).0.log).Some?
  {
    CommitMoves(s, c);
    MoveFolds(s.nodes, s.log, c, Path(s.nodes, s.log, c.target, c.verb), Complete(s, c).0.log);
  }

  lemma OneMoreEvent(log: seq<Event>, events: seq<Event>, n: nat)
    requires n < |events|
    ensures log + events[..n + 1] == log + events[..n] + [events[n]]
  {
  }

  // ---------------------------------------------------------------- runs

  /** Anything else the authority commits: births, tombstones and events of other kinds. */
  ghost predicate Grows(s: Store, t: Store) {
    && GrowsAfter(s.nodes, t.nodes, |s.log|) && WellFormed(t.nodes) && BornInLog(t.nodes, t.log)
    && s.log <= t.log && (forall i | |s.log| <= i < |t.log| :: !t.log[i].body.Lifecycle?)
    && t.records == s.records && Fold(t.nodes, t.log).Some?
  }

  ghost predicate Next(s: Store, t: Store) {
    (WellFormed(s.nodes) && exists c: Command :: c.id !in s.records && t == Complete(s, c).0) || Grows(s, t)
  }

  ghost predicate Inv(s: Store) {
    && WellFormed(s.nodes) && BornInLog(s.nodes, s.log) && RootsFirst(s.nodes, s.log) && Fold(s.nodes, s.log).Some?
    && forall k | k in s.records :: Validates(s.nodes, s.log, s.records[k])
  }

  lemma RecordsKept(s: Store, t: Store, id: Id, r: Record)
    requires Inv(s) && t.nodes == s.nodes && s.log <= t.log && Validates(t.nodes, t.log, r)
    requires t.records == s.records || t.records == s.records[id := r]
    ensures forall k | k in t.records :: Validates(t.nodes, t.log, t.records[k])
  {
    forall k | k in t.records
      ensures Validates(t.nodes, t.log, t.records[k])
    {
      if k in s.records && t.records[k] == s.records[k] {
        ValidationStable(s.nodes, t.nodes, s.log, t.log, s.records[k]);
      }
    }
  }

  /** The record a commit leaves, if any, is the one its events make. */
  lemma CommitRecords(s: Store, c: Command)
    requires WellFormed(s.nodes) && Complete(s, c).1 == Committed
    ensures var t := Complete(s, c).0;
            && t.nodes == s.nodes && s.log <= t.log
            && (t.records == s.records || t.records == s.records[c.id := Record(c, |s.log| + 1, |t.log|)])
  {
  }

  lemma CompleteKeepsRecords(s: Store, c: Command, t: Store)
    requires Inv(s) && Complete(s, c) == (t, Committed)
    ensures WellFormed(t.nodes) && forall k | k in t.records :: Validates(t.nodes, t.log, t.records[k])
  {
    WriterValidates(s, c);
    CommitRecords(s, c);
    RecordsKept(s, t, c.id, Record(c, |s.log| + 1, |t.log|));
  }

  lemma CompleteKeepsInv(s: Store, c: Command)
    requires Inv(s)
    ensures Inv(Complete(s, c).0)
  {
    if Complete(s, c).1 == Committed {
      var t := Complete(s, c).0;
      CommitMoves(s, c);
      CompleteKeepsRecords(s, c, t);
      CommitRecords(s, c);
      MoveKeepsRootsFirst(s.nodes, s.log, c, Path(s.nodes, s.log, c.target, c.verb), t.log);
      WriterFolds(s, c);
    }
  }

  lemma {:induction false} StateUnmoved(log: seq<Event>, more: seq<Event>, id: Id, scale: Kind)
    requires log <= more && forall i | |log| <= i < |more| :: !more[i].body.Lifecycle?
    ensures StateOf(more, id, scale) == StateOf(log, id, scale)
  {
    if |log| < |more| {
      StateUnmoved(log, more[..|more| - 1], id, scale);
    } else {
      assert log == more;
    }
  }

  /** A node not yet born has no events. */
  lemma UnbornIsPlanned(s: Store, t: Store, id: Id)
    requires Inv(s) && Grows(s, t) && id in t.nodes && id !in s.nodes
    ensures StateOf(s.log, id, t.nodes[id].kind) == Planned
  {
    FoldStable(s.nodes, t.nodes, s.log, |s.log|);
    FoldOk(s.nodes, s.log);
    StateIsPhase(t.nodes, s.log, id);
  }

  lemma GrowthKeepsRootsFirst(s: Store, t: Store)
    requires Inv(s) && Grows(s, t)
    ensures RootsFirst(t.nodes, t.log)
  {
    forall id | id in t.nodes && t.nodes[id].parent.Some? && t.nodes[id].parent.value in t.nodes
                && StateOf(t.log, id, t.nodes[id].kind) != Planned
      ensures StateOf(t.log, t.nodes[id].parent.value, t.nodes[t.nodes[id].parent.value].kind) != Planned
    {
      var p := t.nodes[id].parent.value;
      StateUnmoved(s.log, t.log, id, t.nodes[id].kind);
      StateUnmoved(s.log, t.log, p, t.nodes[p].kind);
      if id in s.nodes {
        assert t.nodes[id] == s.nodes[id].(tombstone := t.nodes[id].tombstone);
        assert t.nodes[p] == s.nodes[p].(tombstone := t.nodes[p].tombstone);
      } else {
        UnbornIsPlanned(s, t, id);
      }
    }
  }

  lemma GrowthKeepsInv(s: Store, t: Store)
    requires Inv(s) && Grows(s, t)
    ensures Inv(t)
  {
    GrowthKeepsRootsFirst(s, t);
    forall k | k in t.records
      ensures Validates(t.nodes, t.log, t.records[k])
    {
      ValidationStable(s.nodes, t.nodes, s.log, t.log, s.records[k]);
    }
  }

  ghost predicate IsRun(states: seq<Store>) {
    && |states| > 0 && states[0] == Store(map[], [], map[])
    && forall i | 0 <= i < |states| - 1 :: StepAt(states, i)
  }

  ghost predicate StepAt(states: seq<Store>, i: nat)
    requires i < |states| - 1
  {
    Next(states[i], states[i + 1])
  }

  /** In every state of every run: each committed lifecycle command passes its check,
      and no node has left planned under a planned parent. */
  lemma {:induction false} EveryStateIsSound(states: seq<Store>, n: nat)
    requires IsRun(states) && n < |states|
    ensures Inv(states[n])
  {
    if n > 0 {
      EveryStateIsSound(states, n - 1);
      SoundOnward(states, n - 1);
    }
  }

  lemma SoundOnward(states: seq<Store>, n: nat)
    requires IsRun(states) && n < |states| - 1 && Inv(states[n])
    ensures Inv(states[n + 1])
  {
    RunStep(states, n);
    StepKeepsInv(states[n], states[n + 1]);
  }

  lemma RunStep(states: seq<Store>, n: nat)
    requires IsRun(states) && n < |states| - 1
    ensures Next(states[n], states[n + 1])
  {
    assert StepAt(states, n);
  }

  lemma StepKeepsInv(s: Store, t: Store)
    requires Inv(s) && Next(s, t)
    ensures Inv(t)
  {
    if Grows(s, t) {
      GrowthKeepsInv(s, t);
    } else {
      var c: Command :| c.id !in s.records && t == Complete(s, c).0;
      CompleteKeepsInv(s, c);
    }
  }

  ghost predicate Rests(s: Store, id: Id, kind: Kind, phase: Phase) {
    id in s.nodes && s.nodes[id].kind == kind && StateOf(s.log, id, kind) == phase
  }

  lemma GrowthKeepsState(s: Store, t: Store, id: Id, kind: Kind, phase: Phase)
    requires Grows(s, t) && Rests(s, id, kind, phase)
    ensures Rests(t, id, kind, phase)
  {
    assert t.nodes[id] == s.nodes[id].(tombstone := t.nodes[id].tombstone);
    StateUnmoved(s.log, t.log, id, kind);
  }

  lemma StepKeepsFinal(s: Store, t: Store, id: Id, kind: Kind, phase: Phase)
    requires Next(s, t) && Rests(s, id, kind, phase) && Final(phase)
    ensures Rests(t, id, kind, phase)
  {
    if Grows(s, t) {
      GrowthKeepsState(s, t, id, kind, phase);
    } else {
      var c: Command :| c.id !in s.records && t == Complete(s, c).0;
      CompleteKeepsState(s, c, id, kind, phase);
    }
  }

  lemma CompleteKeepsState(s: Store, c: Command, id: Id, kind: Kind, phase: Phase)
    requires WellFormed(s.nodes) && Rests(s, id, kind, phase) && Final(phase)
    ensures Rests(Complete(s, c).0, id, kind, phase)
  {
    if Complete(s, c).1 == Committed {
      CommitMoves(s, c);
      MoveKeepsFinal(s.nodes, s.log, c, Path(s.nodes, s.log, c.target, c.verb), Complete(s, c).0.log, id);
    }
  }

  /** Done and canceled are absorbing in every run. */
  lemma {:induction false} FinalForever(states: seq<Store>, m: nat, n: nat, id: Id, kind: Kind, phase: Phase)
    requires IsRun(states) && m <= n < |states| && Rests(states[m], id, kind, phase) && Final(phase)
    ensures Rests(states[n], id, kind, phase)
  {
    if m < n {
      FinalForever(states, m, n - 1, id, kind, phase);
      FinalOnward(states, n - 1, id, kind, phase);
    }
  }

  lemma FinalOnward(states: seq<Store>, n: nat, id: Id, kind: Kind, phase: Phase)
    requires IsRun(states) && n < |states| - 1 && Rests(states[n], id, kind, phase) && Final(phase)
    ensures Rests(states[n + 1], id, kind, phase)
  {
    RunStep(states, n);
    StepKeepsFinal(states[n], states[n + 1], id, kind, phase);
  }

  // ---------------------------------------------------------------- what each command does

  /** The transitions, spelled out. */
  predicate Goes(before: Phase, verb: Verb, after: Phase) {
    || (before == Planned && verb == Started && after == InProgress)
    || (before == InProgress && verb == PausedVerb && after == Paused)
    || (before == Paused && verb == Resumed && after == InProgress)
    || (before == InProgress && verb == Finished && after == Done)
    || (before == InProgress && verb == CanceledVerb && after == Canceled)
  }

  lemma {:induction false} PlannedAboveExactly(nodes: map<Id, Node>, prefix: seq<Event>, id: Id, a: Id)
    requires WellFormed(nodes) && id in nodes
    ensures a in PlannedAbove(nodes, prefix, id) <==>
              IsAncestor(nodes, a, id) && a in nodes && StateOf(prefix, a, nodes[a].kind) == Planned
    decreases 2 - nodes[id].kind.Rank()
  {
    if nodes[id].parent.Some? {
      PlannedAboveExactly(nodes, prefix, nodes[id].parent.value, a);
    }
  }

  /** The node and every ancestor stand. */
  lemma {:induction false} StandingExactly(nodes: map<Id, Node>, id: Id)
    requires WellFormed(nodes) && id in nodes
    ensures Standing(nodes, id) <==>
              nodes[id].tombstone == 0
              && forall a | a in nodes && IsAncestor(nodes, a, id) :: nodes[a].tombstone == 0
    decreases 2 - nodes[id].kind.Rank()
  {
    if nodes[id].parent.Some? {
      StandingExactly(nodes, nodes[id].parent.value);
    }
  }

  /** The nodes a command moves: its target, and on a start every planned ancestor. */
  ghost predicate Touches(s: Store, c: Command, id: Id)
    requires WellFormed(s.nodes) && c.target in s.nodes && id in s.nodes
  {
    id == c.target
    || (c.verb == Started && IsAncestor(s.nodes, id, c.target) && StateOf(s.log, id, s.nodes[id].kind) == Planned)
  }

  /** A committed command takes its target along the transition of its verb, a start takes
      every planned ancestor with it, and no other node's phase changes. */
  lemma CommandGoes(s: Store, c: Command, id: Id)
    requires WellFormed(s.nodes) && Complete(s, c).1 == Committed && id in s.nodes
    ensures c.target in s.nodes
    ensures var before := StateOf(s.log, id, s.nodes[id].kind);
            var after := StateOf(Complete(s, c).0.log, id, s.nodes[id].kind);
            if Touches(s, c, id) then Goes(before, c.verb, after) else after == before
  {
    var path := Path(s.nodes, s.log, c.target, c.verb);
    PathInNodes(s.nodes, s.log, c.target, c.verb);
    StateAfterAll(s.nodes, s.log, c, path, id);
    PlannedAboveExactly(s.nodes, s.log, c.target, id);
  }

  /** Enough fresh event ids, rising past the log. */
  ghost predicate IdsSuffice(s: Store, c: Command)
    requires WellFormed(s.nodes) && c.target in s.nodes
  {
    && (forall i, k | 0 <= i < k < |c.ids| :: c.ids[i] < c.ids[k])
    && |Path(s.nodes, s.log, c.target, c.verb)| <= |c.ids|
    && (s.log != [] ==> c.ids[0] > s.log[|s.log| - 1].id) && c.ids[0] > 0
  }

  /** A command commits exactly when its target stands at its scale in its Repo, under the
      open claim, in a phase its verb leads on from; a start needs every ancestor to stand. */
  lemma CommitExactly(s: Store, c: Command)
    requires WellFormed(s.nodes)
    ensures Complete(s, c).1 == Committed <==>
              && c.target in s.nodes && s.nodes[c.target].kind == c.scale && s.nodes[c.target].repo == c.repo
              && s.nodes[c.target].tombstone == 0 && !c.fenced && IdsSuffice(s, c)
              && (exists after :: Goes(StateOf(s.log, c.target, c.scale), c.verb, after))
              && (c.verb == Started ==>
                    forall a | a in s.nodes && IsAncestor(s.nodes, a, c.target) :: s.nodes[a].tombstone == 0)
    ensures Complete(s, c).1 != Committed ==> Complete(s, c).0 == s
  {
    CommitGuards(s, c);
    GoesExactly(StateOf(s.log, c.target, c.scale), c.verb);
    if c.target in s.nodes {
      StandingExactly(s.nodes, c.target);
      IdsExactly(s, c);
    }
  }

  lemma CommitGuards(s: Store, c: Command)
    requires WellFormed(s.nodes)
    ensures Complete(s, c).1 == Committed <==>
              && Resolves(s.nodes, c) && IdsRise(c.ids) && !c.fenced
              && StateOf(s.log, c.target, c.scale) == c.verb.From()
              && (c.verb == Started ==> Standing(s.nodes, c.target))
              && |Path(s.nodes, s.log, c.target, c.verb)| <= |c.ids| && c.ids[0] > LastId(s.log)
  {
  }

  lemma IdsExactly(s: Store, c: Command)
    requires WellFormed(s.nodes) && c.target in s.nodes
    ensures Path(s.nodes, s.log, c.target, c.verb) != []
    ensures IdsSuffice(s, c) <==>
              IdsRise(c.ids) && |Path(s.nodes, s.log, c.target, c.verb)| <= |c.ids| && c.ids[0] > LastId(s.log)
  {
  }

  lemma GoesExactly(before: Phase, verb: Verb)
    ensures (exists after :: Goes(before, verb, after)) <==> before == verb.From()
  {
    assert Goes(Planned, Started, InProgress) && Goes(Paused, Resumed, InProgress);
    assert Goes(InProgress, PausedVerb, Paused) && Goes(InProgress, Finished, Done);
    assert Goes(InProgress, CanceledVerb, Canceled);
  }

  /** Resume undoes pause. */
  lemma ResumeRestores(s: Store, pause: Command, resume: Command, id: Id)
    requires WellFormed(s.nodes) && Complete(s, pause).1 == Committed && pause.verb == PausedVerb && id in s.nodes
    requires WellFormed(Complete(s, pause).0.nodes) && Complete(Complete(s, pause).0, resume).1 == Committed
    requires resume.verb == Resumed && resume.target == pause.target
    ensures StateOf(Complete(Complete(s, pause).0, resume).0.log, id, s.nodes[id].kind)
            == StateOf(s.log, id, s.nodes[id].kind)
  {
    CommitRecords(s, pause);
    CommandGoes(s, pause, id);
    CommandGoes(Complete(s, pause).0, resume, id);
  }

  // ---------------------------------------------------------------- the phases of a node over its life

  /** The phases a node has been in, one more for each of its transitions in the log. */
  function Trace(log: seq<Event>, id: Id, scale: Kind): (r: seq<Phase>)
    ensures r != [] && r[|r| - 1] == StateOf(log, id, scale)
  {
    if log == [] then [Planned]
    else
      var before := Trace(log[..|log| - 1], id, scale);
      if Moves(log[|log| - 1], id, scale) then before + [StateOf(log, id, scale)] else before
  }

  /** planned, in progress, then paused and in progress in turn, and at the end, from in
      progress, done or canceled. */
  ghost predicate IsLife(trace: seq<Phase>) {
    && trace != [] && trace[0] == Planned
    && (forall k | 0 < k < |trace| && k % 2 == 1 :: trace[k] == InProgress)
    && (forall k | 0 < k < |trace| - 1 && k % 2 == 0 :: trace[k] == Paused)
    && (|trace| > 1 && |trace| % 2 == 1 ==> trace[|trace| - 1] in {Paused, Done, Canceled})
  }

  /** An accepted event of the node goes along a transition. */
  lemma EventGoes(nodes: map<Id, Node>, log: seq<Event>, id: Id)
    requires log != [] && id in nodes && Fold(nodes, log).Some? && Moves(log[|log| - 1], id, nodes[id].kind)
    ensures Goes(StateOf(log[..|log| - 1], id, nodes[id].kind), log[|log| - 1].body.verb,
                 StateOf(log, id, nodes[id].kind))
  {
    StateIsPhase(nodes, log[..|log| - 1], id);
  }

  lemma LifeGoesOn(trace: seq<Phase>, verb: Verb, after: Phase)
    requires IsLife(trace) && Goes(trace[|trace| - 1], verb, after)
    ensures IsLife(trace + [after])
  {
  }

  lemma {:induction false} AcceptedLife(nodes: map<Id, Node>, log: seq<Event>, id: Id)
    requires id in nodes && Fold(nodes, log).Some?
    ensures IsLife(Trace(log, id, nodes[id].kind))
  {
    if log != [] {
      var before := log[..|log| - 1];
      AcceptedLife(nodes, before, id);
      if Moves(log[|log| - 1], id, nodes[id].kind) {
        EventGoes(nodes, log, id);
        LifeGoesOn(Trace(before, id, nodes[id].kind), log[|log| - 1].body.verb, StateOf(log, id, nodes[id].kind));
      }
    }
  }

  /** In every run every node lives such a life, and is now in its last phase. */
  lemma EveryNodeLives(states: seq<Store>, n: nat, id: Id)
    requires IsRun(states) && n < |states| && id in states[n].nodes
    ensures IsLife(Trace(states[n].log, id, states[n].nodes[id].kind))
  {
    EveryStateIsSound(states, n);
    AcceptedLife(states[n].nodes, states[n].log, id);
  }

  // ---------------------------------------------------------------- the check and the store in place

  method ChainLiveWalk(nodes: map<Id, Node>, target: Id, first: nat, last: nat) returns (ok: bool)
    requires WellFormed(nodes) && target in nodes
    ensures ok == ChainLive(nodes, target, first, last)
  {
    var current := target;
    while true
      invariant current in nodes && ChainLive(nodes, target, first, last) == ChainLive(nodes, current, first, last)
      decreases 2 - nodes[current].kind.Rank()
    {
      if !LiveForRange(nodes, current, first, last) {
        return false;
      }
      if nodes[current].parent.None? {
        return true;
      }
      current := nodes[current].parent.value;
    }
  }

  /** checkM6LifecycleEvents for one record. */
  method CheckRecord(nodes: map<Id, Node>, log: seq<Event>, r: Record) returns (ok: bool)
    requires WellFormed(nodes)
    ensures ok == Validates(nodes, log, r)
  {
    var c := r.command;
    if !(0 < r.first <= r.last <= |log|) || c.target !in nodes || nodes[c.target].kind != c.scale {
      return false;
    }
    var prefix, events := log[..r.first - 1], log[r.first - 1..r.last];
    var state := LifecycleState(prefix, c.target, c.scale);
    if !LiveForRange(nodes, c.target, r.first, r.last) || state != c.verb.From() {
      return false;
    }
    var want := [c.target];
    if c.verb == Started {
      var live := ChainLiveWalk(nodes, c.target, r.first, r.last);
      if !live {
        return false;
      }
      var above := CollectPlanned(nodes, prefix, c.target);
      want := above + want;
    }
    assert want == Path(nodes, prefix, c.target, c.verb);
    PathInNodes(nodes, prefix, c.target, c.verb);
    if |want| != |events| {
      return false;
    }
    ok := MatchEvents(nodes, c, want, events);
  }

  /** Compare event by event, carrying the id of the event before as the cause. */
  method MatchEvents(nodes: map<Id, Node>, c: Command, want: seq<Id>, events: seq<Event>) returns (ok: bool)
    requires |want| == |events| && forall i | 0 <= i < |want| :: want[i] in nodes
    ensures ok <==> forall i | 0 <= i < |want| :: Matches(nodes, c, want, events, i)
  {
    var cause := 0;
    for i := 0 to |want|
      invariant cause == if i == 0 then 0 else events[i - 1].id
      invariant forall k | 0 <= k < i :: Matches(nodes, c, want, events, k)
    {
      var e := events[i];
      if e.subject != want[i] || e.body != Lifecycle(nodes[want[i]].kind, c.verb, want[i] != c.target, cause) {
        assert !Matches(nodes, c, want, events, i);
        return false;
      }
      cause := e.id;
    }
    ok := true;
  }

  lemma RiseGrows(ids: seq<EventId>, n: nat)
    requires n < |ids| && IdsRise(ids[..n]) && (n > 0 ==> ids[n - 1] < ids[n])
    ensures IdsRise(ids[..n + 1])
  {
    var before, after := ids[..n], ids[..n + 1];
    assert forall i | 0 <= i < n :: before[i] == ids[i] && after[i] == ids[i];
    assert n > 0 ==> forall i | 0 <= i < n - 1 :: before[i] < before[n - 1];
  }

  class LifecycleStore {
    var nodes: map<Id, Node>
    var log: seq<Event>
    var records: map<Id, Record>

    ghost function View(): Store
      reads this
    {
      Store(nodes, log, records)
    }

    constructor ()
      ensures View() == Store(map[], [], map[])
    {
      nodes, log, records := map[], [], map[];
    }

    method CheckIds(ids: seq<EventId>) returns (ok: bool)
      ensures ok == IdsRise(ids)
    {
      for i := 0 to |ids|
        invariant IdsRise(ids[..i])
      {
        if i > 0 && ids[i - 1] >= ids[i] {
          return false;
        }
        RiseGrows(ids, i);
      }
      assert ids[..|ids|] == ids;
      ok := true;
    }

    method StandingWalk(target: Id) returns (ok: bool)
      requires WellFormed(nodes) && target in nodes
      ensures ok == Standing(nodes, target)
    {
      var current := target;
      while true
        invariant current in nodes && Standing(nodes, target) == Standing(nodes, current)
        decreases 2 - nodes[current].kind.Rank()
      {
        if nodes[current].tombstone != 0 {
          return false;
        }
        if nodes[current].parent.None? {
          return true;
        }
        current := nodes[current].parent.value;
      }
    }

    /** Append the path's events, each naming the one before it as its cause. */
    method AppendPath(c: Command, path: seq<Id>)
      requires |path| <= |c.ids| && forall i | 0 <= i < |path| :: path[i] in nodes
      modifies this`log
      ensures log == old(log) + EventsFor(nodes, c, path)
    {
      var cause := 0;
      ghost var events := EventsFor(nodes, c, path);
      for i := 0 to |path|
        invariant cause == if i == 0 then 0 else c.ids[i - 1]
        invariant log == old(log) + events[..i]
      {
        log :=
          log + [Event(c.ids[i], c.id, c.repo, path[i],
                       Lifecycle(nodes[path[i]].kind, c.verb, path[i] != c.target, cause))];
        cause := c.ids[i];
        assert events[..i + 1] == events[..i] + [events[i]];
      }
      assert events[..|path|] == events;
    }

    method CompleteLifecycle(c: Command) returns (outcome: Outcome)
      requires WellFormed(nodes)
      modifies this`log, this`records
      ensures (View(), outcome) == Complete(old(View()), c)
    {
      var rising := CheckIds(c.ids);
      if !rising {
        return Failed(ErrInvalidProof);
      }
      if !Resolves(nodes, c) {
        return Failed(ErrFenced);
      }
      if c.fenced {
        return Refused("refusal.claim-fenced");
      }
      var state := LifecycleState(log, c.target, c.scale);
      if state != c.verb.From() {
        return Refused("refusal.invalid-transition");
      }
      var path := [c.target];
      if c.verb == Started {
        var standing := StandingWalk(c.target);
        if !standing {
          return Failed(ErrFenced);
        }
        var above := CollectPlanned(nodes, log, c.target);
        path := above + path;
      }
      if |path| > |c.ids| || c.ids[0] <= (if log == [] then 0 else log[|log| - 1].id) {
        return Failed(ErrInvalidProof);
      }
      assert path == Path(nodes, log, c.target, c.verb);
      PathInNodes(nodes, log, c.target, c.verb);
      var first := |log| + 1;
      AppendPath(c, path);
      if !(c.verb == Finished && c.scale == Matter) {
        records := records[c.id := Record(c, first, |log|)];
      }
      outcome := Committed;
    }
  }
}
