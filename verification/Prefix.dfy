/** The hash chain over the event log: append, prefix anchors and their verifier. */
module Prefix {
  import opened Common

  /** The running SHA-256 over length-prefixed records, as a collision-free function. */
  datatype Chain<T> = Genesis | Link(previous: Chain<T>, record: T)

  function ChainOf<T>(records: seq<T>): Chain<T> {
    if records == [] then Genesis else Link(ChainOf(records[..|records| - 1]), records[|records| - 1])
  }

  datatype Row<T> = Row(position: nat, id: EventId, record: T, digest: Chain<T>)

  datatype Anchor<T> = Anchor(count: nat, id: EventId, digest: Chain<T>)

  function Records<T>(rows: seq<Row<T>>): (r: seq<T>)
    ensures |r| == |rows| && forall i | 0 <= i < |rows| :: r[i] == rows[i].record
  {
    seq(|rows|, i requires 0 <= i < |rows| => rows[i].record)
  }

  /** appendCommandEvent: an id past the last one, the next position, one more link. */
  function Append<T>(rows: seq<Row<T>>, id: EventId, record: T): Result<seq<Row<T>>> {
    var lastId := if rows == [] then 0 else rows[|rows| - 1].id;
    var lastDigest := if rows == [] then Genesis else rows[|rows| - 1].digest;
    if id <= lastId then Err(ErrInvalidProof)
    else Ok(rows + [Row(|rows| + 1, id, record, Link(lastDigest, record))])
  }

  /** anchorAt: the retained row at a count. */
  function AnchorAt<T>(rows: seq<Row<T>>, count: nat): Option<Anchor<T>> {
    if count == 0 then Some(Anchor(0, 0, Genesis))
    else if count <= |rows| then Some(Anchor(rows[count - 1].position, rows[count - 1].id, rows[count - 1].digest))
    else None
  }

  // ---------------------------------------------------------------- the verifier

  ghost predicate RowOk<T>(rows: seq<Row<T>>, i: nat)
    requires i < |rows|
  {
    && rows[i].position == i + 1
    && rows[i].id > (if i == 0 then 0 else rows[i - 1].id)
    && rows[i].digest == ChainOf(Records(rows[..i + 1]))
  }

  ghost predicate Sound<T(!new)>(rows: seq<Row<T>>, count: nat)
    requires count <= |rows|
  {
    forall i | 0 <= i < count :: RowOk(rows, i)
  }

  lemma ChainGrows<T>(rows: seq<Row<T>>, n: nat)
    requires n < |rows|
    ensures ChainOf(Records(rows[..n + 1])) == Link(ChainOf(Records(rows[..n])), rows[n].record)
  {
    var r := Records(rows[..n + 1]);
    assert r[..n] == Records(rows[..n]);
  }

  /** Recompute the chain over the rows up to the anchor; accept only a contiguous,
      id-ordered, correctly linked prefix that ends in the anchor. */
  method VerifyPrefix<T(==,!new)>(rows: seq<Row<T>>, anchor: Anchor<T>) returns (ok: bool)
    ensures ok <==> anchor.count <= |rows| && Sound(rows, anchor.count) && AnchorAt(rows, anchor.count) == Some(anchor)
  {
    var chain := Genesis;
    var count := 0;
    var previous := 0;
    while count < anchor.count && count < |rows|
      invariant 0 <= count <= |rows| && count <= anchor.count
      invariant chain == ChainOf(Records(rows[..count]))
      invariant previous == if count == 0 then 0 else rows[count - 1].id
      invariant Sound(rows, count)
    {
      var row := rows[count];
      ChainGrows(rows, count);
      if row.position != count + 1 || row.id <= previous {
        assert !RowOk(rows, count);
        return false;
      }
      chain := Link(chain, row.record);
      if row.digest != chain {
        assert !RowOk(rows, count);
        return false;
      }
      previous := row.id;
      count := count + 1;
    }
    if count > 0 {
      assert RowOk(rows, count - 1);
    }
    ok := count == anchor.count && previous == anchor.id && chain == anchor.digest;
  }

  // ---------------------------------------------------------------- logs built by append

  ghost predicate Built<T(!new)>(rows: seq<Row<T>>) {
    Sound(rows, |rows|)
  }

  lemma AppendKeepsBuilt<T(!new)>(rows: seq<Row<T>>, id: EventId, record: T)
    requires Built(rows)
    ensures Append(rows, id, record).Ok? ==> Built(Append(rows, id, record).value)
    ensures Append(rows, id, record).Ok? <==> id > (if rows == [] then 0 else rows[|rows| - 1].id)
  {
    if Append(rows, id, record).Ok? {
      var after := Append(rows, id, record).value;
      forall i | 0 <= i < |after|
        ensures RowOk(after, i)
      {
        if i < |rows| {
          assert RowOk(rows, i);
          assert after[..i + 1] == rows[..i + 1];
        } else {
          ChainGrows(after, i);
          assert after[..i] == rows;
          if rows == [] {
            assert Records(after[..0]) == [];
          } else {
            assert RowOk(rows, |rows| - 1);
            assert rows[..|rows|] == rows;
          }
        }
      }
    }
  }

  /** Every cut of a built log passes the verifier's acceptance condition. */
  lemma EveryCutVerifies<T(!new)>(rows: seq<Row<T>>, n: nat)
    requires Built(rows) && n <= |rows|
    ensures AnchorAt(rows, n).Some?
    ensures var a := AnchorAt(rows, n).value;
            a.count == n && Sound(rows, a.count) && AnchorAt(rows, a.count) == Some(a)
            && a.digest == ChainOf(Records(rows[..n]))
  {
    if n > 0 {
      assert RowOk(rows, n - 1);
    } else {
      assert Records(rows[..0]) == [];
    }
  }

  lemma {:induction false} ChainInjective<T>(a: seq<T>, b: seq<T>)
    requires ChainOf(a) == ChainOf(b)
    ensures a == b
  {
    if a != [] && b != [] {
      ChainInjective(a[..|a| - 1], b[..|b| - 1]);
      assert a == a[..|a| - 1] + [a[|a| - 1]] && b == b[..|b| - 1] + [b[|b| - 1]];
    }
  }

  /** Equal anchors on two built logs force equal records up to the count: not even
      the counts need comparing, the digest alone decides. */
  lemma EqualDigestsForceEqualRecords<T(!new)>(a: seq<Row<T>>, b: seq<Row<T>>, m: nat, n: nat)
    requires Built(a) && Built(b) && m <= |a| && n <= |b|
    requires AnchorAt(a, m).value.digest == AnchorAt(b, n).value.digest
    ensures m == n && Records(a[..m]) == Records(b[..n])
  {
    EveryCutVerifies(a, m);
    EveryCutVerifies(b, n);
    ChainInjective(Records(a[..m]), Records(b[..n]));
    assert |Records(a[..m])| == m && |Records(b[..n])| == n;
  }

  /** Folding a pinned delta's records from its start anchor. */
  function FoldDelta<T>(start: Chain<T>, records: seq<T>): Chain<T> {
    if records == [] then start else Link(FoldDelta(start, records[..|records| - 1]), records[|records| - 1])
  }

  lemma {:induction false} FoldDeltaIsChain<T>(a: seq<T>, b: seq<T>)
    ensures FoldDelta(ChainOf(a), b) == ChainOf(a + b)
  {
    if b == [] {
      assert a + b == a;
    } else {
      FoldDeltaIsChain(a, b[..|b| - 1]);
      assert (a + b)[..|a + b| - 1] == a + b[..|b| - 1];
    }
  }

  /** A delta pinned between two anchors leads from the one exactly to the other. */
  lemma DeltaReachesItsEnd<T(!new)>(rows: seq<Row<T>>, start: nat, end: nat)
    requires Built(rows) && start <= end <= |rows|
    ensures FoldDelta(AnchorAt(rows, start).value.digest, Records(rows[start..end])) == AnchorAt(rows, end).value.digest
  {
    EveryCutVerifies(rows, start);
    EveryCutVerifies(rows, end);
    FoldDeltaIsChain(Records(rows[..start]), Records(rows[start..end]));
    assert Records(rows[..start]) + Records(rows[start..end]) == Records(rows[..end]);
  }
}
