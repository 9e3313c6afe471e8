/** The three loops that read a contract's lists page by page, against the lists themselves. */
module Pagination {
  import opened Wrappers
  import opened Lists

  // ---- a cursor over rails, of which a page skips the finalized ones ----

  datatype Rail = Rail(id: int, finalized: bool)

  datatype RailPage = RailPage(ids: seq<int>, next: nat, total: nat)

  function OpenIds(rails: seq<Rail>): seq<int> {
    if rails == [] then []
    else (if rails[0].finalized then [] else [rails[0].id]) + OpenIds(rails[1..])
  }

  /** What the loop returns, whatever the contract answers. */
  function CursorWalk(serve: nat -> RailPage, offset: nat, total: nat): seq<int>
    decreases total - offset
  {
    var page := serve(offset);
    if page.next >= total || page.next <= offset then page.ids
    else page.ids + CursorWalk(serve, page.next, total)
  }

  /** Reads until the cursor reaches the total or does not advance; it ends for every contract with a fixed total. */
  method GetPayerRailIds(serve: nat -> RailPage, ghost total: nat) returns (railIds: seq<int>)
    requires forall o :: serve(o).total == total
    ensures railIds == CursorWalk(serve, 0, total)
  {
    railIds := [];
    var offset := 0;
    while true
      invariant railIds + CursorWalk(serve, offset, total) == CursorWalk(serve, 0, total)
      decreases total - offset
    {
      var page := serve(offset);
      if page.next >= page.total || page.next <= offset {
        return railIds + page.ids;
      }
      assert railIds + (page.ids + CursorWalk(serve, page.next, total)) ==
             (railIds + page.ids) + CursorWalk(serve, page.next, total);
      railIds := railIds + page.ids;
      offset := page.next;
    }
  }

  /** The contract pages over `rails`: each page covers a stretch that moves the cursor on, even if short or empty. */
  ghost predicate ServesRails(serve: nat -> RailPage, rails: seq<Rail>) {
    forall o: nat {:trigger serve(o)} ::
      && serve(o).total == |rails|
      && (o < |rails| ==> o < serve(o).next <= |rails| && serve(o).ids == OpenIds(rails[o..serve(o).next]))
      && (o >= |rails| ==> serve(o).ids == [])
  }

  lemma {:induction false} OpenIdsConcat(a: seq<Rail>, b: seq<Rail>)
    ensures OpenIds(a + b) == OpenIds(a) + OpenIds(b)
  {
    if a == [] {
      assert a + b == b;
    } else {
      assert (a + b)[1..] == a[1..] + b;
      OpenIdsConcat(a[1..], b);
    }
  }

  lemma {:induction false} CursorWalkFrom(serve: nat -> RailPage, rails: seq<Rail>, offset: nat)
    requires ServesRails(serve, rails) && offset <= |rails|
    ensures CursorWalk(serve, offset, |rails|) == OpenIds(rails[offset..])
    decreases |rails| - offset
  {
    var next := serve(offset).next;
    if offset < |rails| {
      assert rails[offset..] == rails[offset..next] + rails[next..];
      OpenIdsConcat(rails[offset..next], rails[next..]);
      if next < |rails| {
        CursorWalkFrom(serve, rails, next);
      }
    }
  }

  lemma {:induction false} OpenPositions(rails: seq<Rail>) returns (at: seq<nat>)
    ensures |at| == |OpenIds(rails)| && forall k :: 0 <= k < |at| ==>
              at[k] < |rails| && !rails[at[k]].finalized && OpenIds(rails)[k] == rails[at[k]].id
    ensures forall j, k :: 0 <= j < k < |at| ==> at[j] < at[k]
    ensures forall i :: 0 <= i < |rails| && !rails[i].finalized ==> i in at
  {
    if rails == [] {
      at := [];
    } else {
      var init, last := rails[..|rails| - 1], rails[|rails| - 1];
      at := OpenPositions(init);
      assert rails == init + [last];
      OpenIdsConcat(init, [last]);
      if !last.finalized {
        at := at + [|init|];
      }
    }
  }

  /** The cursor loop is a filter: it returns the ids of the rails that are not finalized, all of them, in order; `at`
      are their positions. */
  lemma CursorIsFilter(serve: nat -> RailPage, rails: seq<Rail>) returns (at: seq<nat>)
    requires ServesRails(serve, rails)
    ensures var ids := CursorWalk(serve, 0, |rails|);
            |at| == |ids| && forall k :: 0 <= k < |at| ==>
              at[k] < |rails| && !rails[at[k]].finalized && ids[k] == rails[at[k]].id
    ensures forall j, k :: 0 <= j < k < |at| ==> at[j] < at[k]
    ensures forall i :: 0 <= i < |rails| && !rails[i].finalized ==> i in at
  {
    CursorWalkFrom(serve, rails, 0);
    assert rails[0..] == rails;
    at := OpenPositions(rails);
  }

  // ---- offsets into a list that may grow between calls ----

  function Min(a: nat, b: nat): nat {
    if a < b then a else b
  }

  function PageOf<T>(list: seq<T>, offset: nat, limit: nat): (page: seq<T>) {
    list[Min(offset, |list|)..Min(offset + limit, |list|)]
  }

  /** `listAt(k)` is the list when it is called for the `k`-th time: it is only appended to, and within `final`. */
  ghost predicate Grows<T(!new)>(listAt: nat -> seq<T>, final: seq<T>) {
    && (forall k :: listAt(k) <= final)
    && (forall j, k :: j <= k ==> listAt(j) <= listAt(k))
  }

  function PageStart(k: nat, size: nat): nat {
    k * size
  }

  /** The calls so far asked for one page after the other, and before each but the first there was more to come. */
  ghost predicate AskedInTurn<T(!new)>(asked: seq<(nat, nat)>, size: nat, listAt: nat -> seq<T>, first: nat) {
    && (forall k :: 0 <= k < |asked| ==> asked[k] == (PageStart(k, size), size))
    && (forall k :: 1 <= k < |asked| ==> |listAt(first + k - 1)| > asked[k].0)
  }

  lemma NextPage(k: nat, size: nat)
    ensures PageStart(0, size) == 0 && PageStart(k + 1, size) == PageStart(k, size) + size
  {
  }

  lemma NothingAsked<T(!new)>(size: nat, listAt: nat -> seq<T>, first: nat)
    ensures AskedInTurn([], size, listAt, first)
  {
  }

  lemma OneMoreAsked<T(!new)>(asked: seq<(nat, nat)>, size: nat, listAt: nat -> seq<T>, first: nat, offset: nat)
    requires AskedInTurn(asked, size, listAt, first) && offset == PageStart(|asked|, size)
    requires asked != [] ==> |listAt(first + |asked| - 1)| > offset
    ensures AskedInTurn(asked + [(offset, size)], size, listAt, first)
  {
    hide PageStart;
  }

  datatype PageError = LoneBound

  /** Pages of 100, the offset moving on by 100 each time.  Without explicit bounds, what is returned is the whole list
      as it was at the last of the calls: it begins with all of the initial list and goes no further than the final one,
      so that on a list that does not change it is that list.  `asked` are the offset and limit of each call; there is
      no call more than it takes. */
  method CallContractPaginated<T(!new)>(listAt: nat -> seq<T>, ghost final: seq<T>, from: Option<nat>,
                                         count: Option<nat>)
    returns (r: Result<seq<T>, PageError>, ghost asked: seq<(nat, nat)>)
    requires Grows(listAt, final)
    ensures from.None? && count.None? ==> asked != [] && AskedInTurn(asked, 100, listAt, 0)
    ensures from.None? && count.None? ==> r == Ok(listAt(|asked| - 1)) && listAt(0) <= r.value <= final
    ensures from.Some? && count.Some? ==>
              r == Ok(PageOf(listAt(0), from.value, count.value)) && asked == [(from.value, count.value)]
    ensures from.None? != count.None? ==> r == Err(LoneBound) && asked == []
  {
    asked := [];
    hide AskedInTurn, PageStart;
    NextPage(0, 100);
    NothingAsked(100, listAt, 0);
    if from.Some? && count.Some? {
      asked := [(from.value, count.value)];
      return Ok(PageOf(listAt(0), from.value, count.value)), asked;
    }
    if from.None? != count.None? {
      return Err(LoneBound), asked;
    }
    var all: seq<T> := [];
    var offset, limit := 0, 100;
    var call := 0;
    while true
      invariant offset == |all| == PageStart(call, limit) && limit == 100 && all <= listAt(call)
      invariant |all| <= |final|
      invariant |asked| == call && AskedInTurn(asked, limit, listAt, 0)
      invariant call > 0 ==> |listAt(call - 1)| > offset
      decreases |final| - |all|
    {
      var list := listAt(call);
      OneMoreAsked(asked, limit, listAt, 0, offset);
      asked := asked + [(offset, limit)];
      var page, total := PageOf(list, offset, limit), |list|;
      assert all + page == list[..Min(offset + limit, |list|)];
      all := all + page;
      if page == [] || |all| >= total {
        assert all == list;
        return Ok(all), asked;
      }
      NextPage(call, limit);
      offset := offset + limit;
      assert list <= listAt(call + 1);
      call := call + 1;
    }
  }

  /** Pages of `pageSize`, the offset moving on by the length of each page.  What is returned is the whole list as it
      was at the last of the calls, the first of which is number `first`; it lies between the initial and the final
      list.  There is no call more than it takes. */
  method AllAdapterIds<T(!new)>(listAt: nat -> seq<T>, ghost final: seq<T>, pageSize: nat, first: nat)
    returns (ids: seq<T>, lastCall: nat, ghost asked: seq<(nat, nat)>)
    requires Grows(listAt, final) && pageSize > 0
    ensures asked != [] && lastCall == first + |asked| - 1 && AskedInTurn(asked, pageSize, listAt, first)
    ensures ids == listAt(lastCall) && listAt(first) <= ids <= final
  {
    ids, asked := [], [];
    hide AskedInTurn, PageStart;
    NextPage(0, pageSize);
    NothingAsked(pageSize, listAt, first);
    var offset := 0;
    lastCall := first;
    while true
      invariant lastCall == first + |asked| && ids <= listAt(lastCall)
      invariant offset == |ids| == PageStart(|asked|, pageSize)
      invariant |ids| <= |final|
      invariant AskedInTurn(asked, pageSize, listAt, first)
      invariant asked != [] ==> |listAt(lastCall - 1)| > offset
      decreases |final| - |ids|
    {
      var list := listAt(lastCall);
      NextPage(|asked|, pageSize);
      OneMoreAsked(asked, pageSize, listAt, first, offset);
      asked := asked + [(offset, pageSize)];
      var page, total := PageOf(list, offset, pageSize), |list|;
      assert ids + page == list[..Min(offset + pageSize, |list|)];
      ids := ids + page;
      offset := offset + |page|;
      if page == [] || offset >= total {
        return;
      }
      assert list <= listAt(lastCall + 1);
      lastCall := lastCall + 1;
    }
  }

  datatype AdapterError = RepeatedIds(ids: set<int>)

  /** The ids the adapter holds: the pending list as it was at call `i` and the confirmed list as it was at a later call
      `j`, refused when they share an id.  Both are read in pages of 500, one right after the other. */
  method AdapterClaimIds(pendingAt: nat -> seq<int>, confirmedAt: nat -> seq<int>, ghost pending: seq<int>,
                         ghost confirmed: seq<int>)
    returns (r: Result<seq<int>, AdapterError>, i: nat, j: nat, ghost askedPending: seq<(nat, nat)>,
             ghost askedConfirmed: seq<(nat, nat)>)
    requires Grows(pendingAt, pending) && Grows(confirmedAt, confirmed)
    ensures i + 1 == |askedPending| && j - i == |askedConfirmed| > 0
    ensures AskedInTurn(askedPending, 500, pendingAt, 0) && AskedInTurn(askedConfirmed, 500, confirmedAt, i + 1)
    ensures r == if Elements(pendingAt(i)) !! Elements(confirmedAt(j)) then Ok(pendingAt(i) + confirmedAt(j))
                 else Err(RepeatedIds(Elements(pendingAt(i)) * Elements(confirmedAt(j))))
  {
    var held, claimed;
    held, i, askedPending := AllAdapterIds(pendingAt, pending, 500, 0);
    claimed, j, askedConfirmed := AllAdapterIds(confirmedAt, confirmed, 500, i + 1);
    var overlap := Elements(held) * Elements(claimed);
    if overlap != {} {
      r := Err(RepeatedIds(overlap));
      return;
    }
    assert forall x | x in Elements(held) :: x !in overlap;
    r := Ok(held + claimed);
  }
}
