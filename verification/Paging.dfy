/** Paging a pinned snapshot: the keyset cursor over (locator, id) and the offset cursor. */
module Paging {
  import opened Common
  import opened Order

  datatype Item = Item(id: Id, repo: Id, locator: string)

  /** What a continuation token carries, its scope and signature being verified. */
  datatype Token = Token(size: nat, locator: string, id: Id)

  datatype Page = Page(items: seq<Item>, next: Option<Token>)

  // ---------------------------------------------------------------- the order

  predicate Before(l: string, i: Id, locator: string, id: Id) {
    Less(l, locator) || (l == locator && Less(i, id))
  }

  lemma LessTransitive(a: string, b: string, c: string)
    requires Less(a, b) && Less(b, c)
    ensures Less(a, c)
  {
    LeqTransitive(a, b, c);
    if a == c {
      LeqAntisymmetric(a, b);
    }
  }

  lemma BeforeTransitive(a: Item, b: Item, c: Item)
    requires Before(a.locator, a.id, b.locator, b.id) && Before(b.locator, b.id, c.locator, c.id)
    ensures Before(a.locator, a.id, c.locator, c.id)
  {
    if Less(a.locator, b.locator) && Less(b.locator, c.locator) {
      LessTransitive(a.locator, b.locator, c.locator);
    } else if a.locator == b.locator == c.locator {
      LessTransitive(a.id, b.id, c.id);
    }
  }

  lemma BeforeAsymmetric(a: Item, b: Item)
    requires Before(a.locator, a.id, b.locator, b.id)
    ensures !Before(b.locator, b.id, a.locator, a.id) && a != b
  {
    if Leq(a.locator, b.locator) && Leq(b.locator, a.locator) {
      LeqAntisymmetric(a.locator, b.locator);
    }
    if Leq(a.id, b.id) && Leq(b.id, a.id) {
      LeqAntisymmetric(a.id, b.id);
    }
  }

  /** The pinned rows: complete projections in strictly ascending order. */
  ghost predicate Pinned(rows: seq<Item>) {
    && (forall i | 0 <= i < |rows| :: rows[i].locator != "" && rows[i].id != "")
    && (forall i, k | 0 <= i < k < |rows| :: Before(rows[i].locator, rows[i].id, rows[k].locator, rows[k].id))
  }

  // ---------------------------------------------------------------- keyset paging

  /** The row passes the Repo filter and lies after the cursor; "" is no filter, no cursor. */
  predicate Selected(row: Item, repo: Id, locator: string, id: Id) {
    (repo == "" || row.repo == repo) && (locator == "" || Before(locator, id, row.locator, row.id))
  }

  function Rest(rows: seq<Item>, repo: Id, locator: string, id: Id): seq<Item> {
    if rows == [] then []
    else
      var last := rows[|rows| - 1];
      Rest(rows[..|rows| - 1], repo, locator, id) + if Selected(last, repo, locator, id) then [last] else []
  }

  function FirstPage(rest: seq<Item>, size: nat): Page
    requires size > 0
  {
    if |rest| <= size then Page(rest, None)
    else Page(rest[..size], Some(Token(size, rest[size - 1].locator, rest[size - 1].id)))
  }

  /** Row i has no locator, or does not come after the row before it. */
  ghost predicate OutOfOrder(rows: seq<Item>, i: nat) {
    i < |rows|
    && (rows[i].locator == "" || (i > 0 && !Before(rows[i - 1].locator, rows[i - 1].id, rows[i].locator, rows[i].id)))
  }

  lemma Steps(rows: seq<Item>, i: nat)
    requires Pinned(rows)
    ensures !OutOfOrder(rows, i)
  {
  }

  /** ReadMatterPage from the decoded token on: one scan in ordinal order. */
  method ReadMatterPage(rows: seq<Item>, repo: Id, requested: nat, token: Option<Token>) returns (r: Result<Page>)
    ensures var size := if token.Some? then token.value.size else if requested == 0 then 100 else requested;
            var locator, id := if token.Some? then token.value.locator else "",
                               if token.Some? then token.value.id else "";
            if requested > 1000 || (token.Some? && (size == 0 || size > 1000 || locator == "" || id == "")) then r.Err?
            else if Pinned(rows) then r == Ok(FirstPage(Rest(rows, repo, locator, id), size))
            else r.Ok? || (r.error == ErrInvalidStore && exists i :: OutOfOrder(rows, i))
  {
    var size := if requested == 0 then 100 else requested;
    if size > 1000 {
      return Err(ErrInvalidProof);
    }
    var lastLocator, lastId := "", "";
    if token.Some? {
      if token.value.size == 0 || token.value.size > 1000 || token.value.locator == "" || token.value.id == "" {
        return Err(ErrInvalidProof);
      }
      size, lastLocator, lastId := token.value.size, token.value.locator, token.value.id;
    }
    var items: seq<Item> := [];
    var previousLocator, previousId := "", "";
    var n := 0;
    while n < |rows|
      invariant n <= |rows| && |items| <= size && items == Rest(rows[..n], repo, lastLocator, lastId)
      invariant n > 0 ==> previousLocator == rows[n - 1].locator != "" && previousId == rows[n - 1].id
      invariant n == 0 ==> previousLocator == ""
    {
      var row := rows[n];
      if row.locator == ""
         || (previousLocator != "" && !Before(previousLocator, previousId, row.locator, row.id)) {
        assert OutOfOrder(rows, n);
        if Pinned(rows) {
          Steps(rows, n);
        }
        return Err(ErrInvalidStore);
      }
      previousLocator, previousId := row.locator, row.id;
      assert rows[..n + 1][..n] == rows[..n];
      n := n + 1;
      if Selected(row, repo, lastLocator, lastId) {
        if |items| == size {
          RestExtends(rows, n, repo, lastLocator, lastId);
          ghost var rest := Rest(rows, repo, lastLocator, lastId);
          assert Rest(rows[..n], repo, lastLocator, lastId) == items + [row];
          assert rest[..size] == (items + [row])[..size] == items;
          var last := items[size - 1];
          return Ok(Page(items, Some(Token(size, last.locator, last.id))));
        }
        items := items + [row];
      }
    }
    assert rows[..n] == rows;
    r := Ok(Page(items, None));
  }

  lemma {:induction false} RestExtends(rows: seq<Item>, n: nat, repo: Id, locator: string, id: Id)
    requires n <= |rows|
    ensures Rest(rows[..n], repo, locator, id) <= Rest(rows, repo, locator, id)
  {
    if n == |rows| {
      assert rows[..n] == rows;
    } else {
      RestExtends(rows[..|rows| - 1], n, repo, locator, id);
      assert rows[..|rows| - 1][..n] == rows[..n];
    }
  }

  lemma {:induction false} RestSorted(rows: seq<Item>, repo: Id, locator: string, id: Id)
    requires Pinned(rows)
    ensures forall x | x in Rest(rows, repo, locator, id) :: x in rows && Selected(x, repo, locator, id)
  {
    if rows != [] {
      RestSorted(rows[..|rows| - 1], repo, locator, id);
    }
  }

  /** Nothing is selected after a row that is not before any of them. */
  lemma {:induction false} NothingAfter(rows: seq<Item>, repo: Id, x: Item)
    requires x.locator != "" && forall i | 0 <= i < |rows| :: !Before(x.locator, x.id, rows[i].locator, rows[i].id)
    ensures Rest(rows, repo, x.locator, x.id) == []
  {
    if rows != [] {
      NothingAfter(rows[..|rows| - 1], repo, x);
    }
  }

  /** A row after x is after the cursor x was selected past. */
  lemma StillSelected(row: Item, repo: Id, locator: string, id: Id, x: Item)
    requires Selected(x, repo, locator, id) && x.locator != "" && Selected(row, repo, x.locator, x.id)
    ensures Selected(row, repo, locator, id)
  {
    if locator != "" {
      BeforeTransitive(Item(id, "", locator), x, row);
    }
  }

  /** When x was selected earlier, the last row is selected past x exactly as before. */
  lemma LastPastCursor(rows: seq<Item>, repo: Id, locator: string, id: Id, x: Item)
    requires Pinned(rows) && rows != [] && x in rows[..|rows| - 1] && Selected(x, repo, locator, id)
    ensures var last := rows[|rows| - 1]; Selected(last, repo, x.locator, x.id) == Selected(last, repo, locator, id)
  {
    var n := |rows| - 1;
    var i :| 0 <= i < n && rows[..n][i] == x;
    assert rows[i] == x && Before(rows[i].locator, rows[i].id, rows[n].locator, rows[n].id);
    if Selected(rows[n], repo, x.locator, x.id) {
      StillSelected(rows[n], repo, locator, id, x);
    }
  }

  /** Moving the cursor to the k-th selected row drops exactly the first k + 1. */
  lemma {:induction false} CursorDrops(rows: seq<Item>, repo: Id, locator: string, id: Id, k: nat)
    requires Pinned(rows) && k < |Rest(rows, repo, locator, id)|
    ensures var x := Rest(rows, repo, locator, id)[k];
            Rest(rows, repo, x.locator, x.id) == Rest(rows, repo, locator, id)[k + 1..]
  {
    var before, rest := rows[..|rows| - 1], Rest(rows, repo, locator, id);
    var earlier := Rest(before, repo, locator, id);
    if k < |earlier| {
      CursorDrops(before, repo, locator, id, k);
      RestSorted(before, repo, locator, id);
      assert rest[k] == earlier[k] && earlier[k] in earlier;
      LastPastCursor(rows, repo, locator, id, rest[k]);
    } else {
      assert rest[k] == rows[|rows| - 1];
      LastDropsAll(rows, repo);
    }
  }

  lemma LastDropsAll(rows: seq<Item>, repo: Id)
    requires Pinned(rows) && rows != []
    ensures var last := rows[|rows| - 1]; Rest(rows, repo, last.locator, last.id) == []
  {
    forall i | 0 <= i < |rows|
      ensures !Before(rows[|rows| - 1].locator, rows[|rows| - 1].id, rows[i].locator, rows[i].id)
    {
      NotAfterLast(rows, i);
    }
    NothingAfter(rows, repo, rows[|rows| - 1]);
  }

  lemma NotAfterLast(rows: seq<Item>, i: nat)
    requires Pinned(rows) && i < |rows|
    ensures var last := rows[|rows| - 1]; !Before(last.locator, last.id, rows[i].locator, rows[i].id)
  {
    if i < |rows| - 1 {
      BeforeAsymmetric(rows[i], rows[|rows| - 1]);
    }
  }

  /** All items of the pages a client gets by following tokens from a cursor. */
  function Followed(rows: seq<Item>, repo: Id, size: nat, locator: string, id: Id): seq<Item>
    requires Pinned(rows) && size > 0
    decreases |Rest(rows, repo, locator, id)|
  {
    var page := FirstPage(Rest(rows, repo, locator, id), size);
    match page.next
    case None => page.items
    case Some(t) =>
      CursorDrops(rows, repo, locator, id, size - 1);
      page.items + Followed(rows, repo, size, t.locator, t.id)
  }

  /** Following tokens ends and yields every selected row once, in order. */
  lemma {:induction false} FollowingIsComplete(rows: seq<Item>, repo: Id, size: nat, locator: string, id: Id)
    requires Pinned(rows) && size > 0
    ensures Followed(rows, repo, size, locator, id) == Rest(rows, repo, locator, id)
    decreases |Rest(rows, repo, locator, id)|
  {
    var rest := Rest(rows, repo, locator, id);
    if |rest| > size {
      CursorDrops(rows, repo, locator, id, size - 1);
      FollowingIsComplete(rows, repo, size, rest[size - 1].locator, rest[size - 1].id);
      assert rest == rest[..size] + rest[size..];
    }
  }

  /** From no cursor and no filter the pages concatenate to the whole snapshot. */
  lemma {:induction false} NoFilterSelectsAll(rows: seq<Item>, id: Id)
    ensures Rest(rows, "", "", id) == rows
  {
    if rows != [] {
      NoFilterSelectsAll(rows[..|rows| - 1], id);
      assert rows == rows[..|rows| - 1] + [rows[|rows| - 1]];
    }
  }

  // ---------------------------------------------------------------- offset paging

  /** The offset is the position past the page; a token never carries 0. */
  datatype OffsetPage<T> = OffsetPage(items: seq<T>, next: Option<nat>)

  /** A decoded token: the first page's size and the offset to go on from. */
  datatype OffsetToken = OffsetToken(size: nat, offset: nat)

  method ReadOffsetPage<T>(items: seq<T>, requested: nat, token: Option<OffsetToken>) returns (r: Result<OffsetPage<T>>)
    ensures var size := if token.Some? then token.value.size else if requested == 0 then 100 else requested;
            var offset := if token.Some? then token.value.offset else 0;
            if requested > 1000 || (token.Some? && (size == 0 || size > 1000 || offset == 0)) || offset > |items| then
              r.Err?
            else r == Ok(PageAt(items, size, offset))
  {
    var size := if requested == 0 then 100 else requested;
    if size > 1000 {
      return Err(ErrInvalidProof);
    }
    var start := 0;
    if token.Some? {
      if token.value.size == 0 || token.value.size > 1000 || token.value.offset == 0 {
        return Err(ErrInvalidProof);
      }
      size, start := token.value.size, token.value.offset;
    }
    if start > |items| {
      return Err(ErrInvalidProof);
    }
    var end := start + size;
    if end > |items| {
      end := |items|;
    }
    assert items[start..|items|] == items[start..];
    r := Ok(OffsetPage(items[start..end], if end == |items| then None else Some(end)));
  }

  function PageAt<T>(items: seq<T>, size: nat, start: nat): OffsetPage<T>
    requires start <= |items|
  {
    if |items| - start <= size then OffsetPage(items[start..], None)
    else OffsetPage(items[start..start + size], Some(start + size))
  }

  function FollowedFrom<T>(items: seq<T>, size: nat, start: nat): seq<T>
    requires start <= |items| && size > 0
    decreases |items| - start
  {
    var page := PageAt(items, size, start);
    match page.next
    case None => page.items
    case Some(next) => page.items + FollowedFrom(items, size, next)
  }

  lemma {:induction false} FollowingOffsetsIsComplete<T>(items: seq<T>, size: nat, start: nat)
    requires start <= |items| && size > 0
    ensures FollowedFrom(items, size, start) == items[start..]
    decreases |items| - start
  {
    if |items| - start > size {
      FollowingOffsetsIsComplete(items, size, start + size);
    }
  }
}
