/** Journal entries and the barrier digest that a seal returns and a release must match. */
module Barrier {
  import opened Common
  import opened Ulid

  newtype U64 = n: int | 0 <= n < 0x1_0000_0000_0000_0000

  datatype Code = Succeeded | Rejected | Refused | Failed

  datatype Range = Range(first: Id, last: Id, count: U64)

  /** The signed terminal receipt, as far as the journal protocol reads it. */
  datatype Receipt = Receipt(id: Id, hash: seq<Byte>, environment: Id, sequence: nat, authority: nat,
                             code: Code, range: Option<Range>, gateOperation: bool)

  datatype JournalCommand = JournalCommand(id: Id, hash: seq<Byte>, environment: Id, repo: Id, worktree: Id,
                                           claim: Id, authority: nat, claimEpoch: nat, sequence: nat)

  /** What parsing a journal command guarantees: a ULID identity, a 32-byte request
      hash and a positive sequence. */
  predicate Parsed(c: JournalCommand) {
    IsUlid(c.id) && |c.hash| == 32 && c.sequence > 0
  }

  datatype Anchor = Anchor(count: nat, digest: Id)

  datatype EntryState = PendingReturn | Unknown | Terminal | Quarantine

  datatype Entry = Entry(command: JournalCommand, state: EntryState, receipt: Option<Receipt>,
                         installed: Option<Anchor>)

  // ---------------------------------------------------------------- the digest

  datatype Component = Component(position: nat, id: Id, hash: seq<Byte>, code: Code, range: Option<Range>)

  /** SHA-256 of one barrier step, as a collision-free function of the bytes it hashes. */
  datatype Root = Genesis | Hashed(previous: Root, bytes: seq<int>)

  function Text(s: string): (b: seq<int>)
    ensures |b| == |s|
  {
    seq(|s|, i requires 0 <= i < |s| => s[i] as int)
  }

  /** binary.BigEndian.PutUint64, one byte at a time from the low end. */
  function BigEndian(n: nat, width: nat): (b: seq<int>)
    ensures |b| == width
  {
    if width == 0 then [] else BigEndian(n / 256, width - 1) + [n % 256]
  }

  function CodeByte(c: Code): int {
    match c
    case Succeeded => 0
    case Rejected => 1
    case Refused => 2
    case Failed => 3
  }

  function RangeBytes(r: Option<Range>): seq<int> {
    match r
    case None => [0]
    case Some(x) => [1] + Text(x.first) + Text(x.last) + BigEndian(x.count as int, 8)
  }

  /** The bytes hashed for one entry. */
  function Encoding(c: Component): seq<int> {
    BigEndian(c.position, 8) + Text(c.id) + c.hash + [CodeByte(c.code)] + RangeBytes(c.range)
  }

  predicate RangeParsed(r: Option<Range>) {
    r.Some? ==> IsUlid(r.value.first) && IsUlid(r.value.last) && r.value.count > 0
  }

  /** An entry the barrier accepts. */
  predicate Barred(e: Entry) {
    && e.state == Terminal && e.receipt.Some?
    && e.receipt.value.id == e.command.id && e.receipt.value.hash == e.command.hash
    && RangeParsed(e.receipt.value.range)
  }

  ghost predicate AllBarred(entries: seq<Entry>) {
    forall i | 0 <= i < |entries| :: Barred(entries[i])
  }

  /** The running root over the steps' bytes. */
  function Chain(steps: seq<seq<int>>): Root {
    if steps == [] then Genesis else Hashed(Chain(steps[..|steps| - 1]), steps[|steps| - 1])
  }

  function EntryComponent(position: nat, e: Entry): Component
    requires e.receipt.Some?
  {
    Component(position, e.command.id, e.command.hash, e.receipt.value.code, e.receipt.value.range)
  }

  /** The bytes hashed for the entry at a position. */
  function StepBytes(position: nat, e: Entry): seq<int>
    requires e.receipt.Some?
  {
    Encoding(EntryComponent(position, e))
  }

  ghost function Steps(entries: seq<Entry>): (steps: seq<seq<int>>)
    requires AllBarred(entries)
    ensures |steps| == |entries|
    ensures forall i | 0 <= i < |entries| :: steps[i] == StepBytes(i + 1, entries[i])
  {
    seq(|entries|, i requires 0 <= i < |entries| => StepBytes(i + 1, entries[i]))
  }

  ghost function Digest(entries: seq<Entry>): Root
    requires AllBarred(entries)
  {
    Chain(Steps(entries))
  }

  /** root is the running root over the first n entries. */
  ghost predicate Running(entries: seq<Entry>, n: nat, root: Root) {
    n <= |entries| && AllBarred(entries[..n]) && root == Digest(entries[..n])
  }

  lemma RunningGrows(entries: seq<Entry>, n: nat, root: Root)
    requires Running(entries, n, root) && n < |entries| && Barred(entries[n])
    ensures Running(entries, n + 1, Hashed(root, StepBytes(n + 1, entries[n])))
  {
    var before, after := entries[..n], entries[..n + 1];
    assert after == before + [entries[n]];
    assert AllBarred(after);
    assert Steps(after)[..n] == Steps(before);
  }

  /** One pass over the journal in position order, with a running root. */
  method BarrierDigest(entries: seq<Entry>) returns (r: Result<(Root, nat)>)
    ensures r.Ok? <==> AllBarred(entries)
    ensures r.Ok? ==> r.value == (Digest(entries), |entries|)
  {
    var root := Genesis;
    var count := 0;
    assert entries[..0] == [];
    while count < |entries|
      invariant Running(entries, count, root)
    {
      var e := entries[count];
      if e.state != Terminal || e.receipt.None? {
        assert !Barred(entries[count]);
        return Err(ErrPending);
      }
      if e.receipt.value.id != e.command.id || e.receipt.value.hash != e.command.hash
         || !RangeParsed(e.receipt.value.range) {
        assert !Barred(entries[count]);
        return Err(ErrInvalidProof);
      }
      RunningGrows(entries, count, root);
      root := Hashed(root, StepBytes(count + 1, e));
      count := count + 1;
    }
    assert entries[..count] == entries;
    r := Ok((root, count));
  }

  // ---------------------------------------------------------------- the digest determines the journal

  lemma TextInjective(s: string, t: string)
    requires Text(s) == Text(t)
    ensures s == t
  {
    assert |s| == |t|;
    forall i | 0 <= i < |s|
      ensures s[i] == t[i]
    {
      assert Text(s)[i] == s[i] as int && Text(t)[i] == t[i] as int;
    }
  }

  function Pow256(n: nat): nat {
    if n == 0 then 1 else 256 * Pow256(n - 1)
  }

  lemma {:induction false} BigEndianInjective(m: nat, n: nat, width: nat)
    requires m < Pow256(width) && n < Pow256(width)
    requires BigEndian(m, width) == BigEndian(n, width)
    ensures m == n
  {
    if width > 0 {
      var a, b := BigEndian(m / 256, width - 1), BigEndian(n / 256, width - 1);
      assert (a + [m % 256])[width - 1] == (b + [n % 256])[width - 1];
      assert (a + [m % 256])[..width - 1] == a && (b + [n % 256])[..width - 1] == b;
      BigEndianInjective(m / 256, n / 256, width - 1);
    }
  }

  lemma U64Fits()
    ensures Pow256(8) == 0x1_0000_0000_0000_0000
  {
    assert Pow256(2) == 65536;
    assert Pow256(4) == 4294967296;
    assert Pow256(6) == 281474976710656;
  }

  lemma RangeSlices(x: Range)
    requires |x.first| == 26 && |x.last| == 26
    ensures var b := RangeBytes(Some(x));
            && |b| == 61 && b[0] == 1 && b[1..27] == Text(x.first) && b[27..53] == Text(x.last)
            && b[53..] == BigEndian(x.count as int, 8)
  {
  }

  lemma RangeInjective(x: Range, y: Range)
    requires |x.first| == |x.last| == |y.first| == |y.last| == 26
    requires RangeBytes(Some(x)) == RangeBytes(Some(y))
    ensures x == y
  {
    RangeSlices(x);
    RangeSlices(y);
    TextInjective(x.first, y.first);
    TextInjective(x.last, y.last);
    U64Fits();
    BigEndianInjective(x.count as int, y.count as int, 8);
  }

  lemma RangeBytesInjective(a: Option<Range>, b: Option<Range>)
    requires RangeParsed(a) && RangeParsed(b) && RangeBytes(a) == RangeBytes(b)
    ensures a == b
  {
    assert RangeBytes(a)[0] == RangeBytes(b)[0];
    if a.Some? && b.Some? {
      RangeInjective(a.value, b.value);
    }
  }

  lemma EncodingSlices(c: Component)
    requires |c.id| == 26 && |c.hash| == 32
    ensures var x := Encoding(c);
            && |x| >= 67 && x[..8] == BigEndian(c.position, 8) && x[8..34] == Text(c.id) && x[34..66] == c.hash
            && x[66] == CodeByte(c.code) && x[67..] == RangeBytes(c.range)
  {
  }

  /** A component of a parsed command and receipt. */
  ghost predicate Encodable(c: Component) {
    IsUlid(c.id) && |c.hash| == 32 && RangeParsed(c.range)
  }

  /** The hashed bytes determine the component; the position as far as 64 bits hold it. */
  lemma EncodingInjective(c: Component, d: Component)
    requires Encodable(c) && Encodable(d) && Encoding(c) == Encoding(d)
    ensures c.(position := 0) == d.(position := 0)
    ensures c.position < 0x1_0000_0000_0000_0000 && d.position < 0x1_0000_0000_0000_0000 ==> c == d
  {
    EncodingSlices(c);
    EncodingSlices(d);
    TextInjective(c.id, d.id);
    RangeBytesInjective(c.range, d.range);
    if c.position < 0x1_0000_0000_0000_0000 && d.position < 0x1_0000_0000_0000_0000 {
      U64Fits();
      BigEndianInjective(c.position, d.position, 8);
    }
  }

  /** What the digest records of one entry. */
  ghost predicate SameOutcome(e: Entry, f: Entry)
    requires Barred(e) && Barred(f)
  {
    && e.command.id == f.command.id && e.command.hash == f.command.hash
    && e.receipt.value.code == f.receipt.value.code && e.receipt.value.range == f.receipt.value.range
  }

  lemma {:induction false} ChainInjective(a: seq<seq<int>>, b: seq<seq<int>>)
    requires Chain(a) == Chain(b)
    ensures a == b
  {
    if a != [] && b != [] {
      ChainInjective(a[..|a| - 1], b[..|b| - 1]);
      assert a == a[..|a| - 1] + [a[|a| - 1]] && b == b[..|b| - 1] + [b[|b| - 1]];
    }
  }

  lemma StepBytesInjective(position: nat, e: Entry, f: Entry)
    requires Barred(e) && Barred(f) && Parsed(e.command) && Parsed(f.command)
    requires StepBytes(position, e) == StepBytes(position, f)
    ensures SameOutcome(e, f)
  {
    EncodingInjective(EntryComponent(position, e), EntryComponent(position, f));
  }

  /** Equal digests force equal journals: the same commands, hashes, results and
      event ranges in the same order, whatever the length. */
  lemma DigestDeterminesEntries(a: seq<Entry>, b: seq<Entry>)
    requires AllBarred(a) && AllBarred(b)
    requires (forall i | 0 <= i < |a| :: Parsed(a[i].command)) && forall i | 0 <= i < |b| :: Parsed(b[i].command)
    requires Digest(a) == Digest(b)
    ensures |a| == |b|
    ensures forall i | 0 <= i < |a| :: SameOutcome(a[i], b[i])
  {
    ChainInjective(Steps(a), Steps(b));
    forall i | 0 <= i < |a|
      ensures SameOutcome(a[i], b[i])
    {
      StepsAgree(a, b, i);
    }
  }

  lemma StepsAgree(a: seq<Entry>, b: seq<Entry>, i: nat)
    requires AllBarred(a) && AllBarred(b) && Steps(a) == Steps(b) && i < |a| && i < |b|
    requires Parsed(a[i].command) && Parsed(b[i].command)
    ensures SameOutcome(a[i], b[i])
  {
    assert Steps(a)[i] == StepBytes(i + 1, a[i]) && Steps(b)[i] == StepBytes(i + 1, b[i]);
    StepBytesInjective(i + 1, a[i], b[i]);
  }
}
