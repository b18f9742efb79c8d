/** list_entries: walking an account's entries page by page while new entries arrive. */
module Paging {
  import opened Values
  import opened Sorting

  function EntryKey(e: Entry): int {
    e.id
  }

  function FindEntry(table: seq<Entry>, id: Uuid): Option<Entry> {
    if table == [] then None else if table[0].id == id then Some(table[0]) else FindEntry(table[1..], id)
  }

  /** WHERE account_id = ... AND id > after, in physical order. */
  function Selected(table: seq<Entry>, account: Uuid, after: int): seq<Entry> {
    if table == [] then []
    else
      (if table[0].accountId == account && table[0].id > after then [table[0]] else []) +
      Selected(table[1..], account, after)
  }

  datatype Page = Page(items: seq<Entry>, next: Option<Uuid>)

  /** The lower bound the query uses: a cursor that names no entry is ignored. */
  function Bound(lookup: seq<Entry>, cursor: Option<Uuid>): int {
    if cursor.Some? && FindEntry(lookup, cursor.value).Some? then cursor.value else -1
  }

  /** What the two statements of one request see: the lookup of the cursor entry, and the query for the page. */
  datatype Seen = Seen(lookup: seq<Entry>, table: seq<Entry>)

  /** One page: up to limit + 1 rows by id, of which the last only shows that more follow. */
  function ListEntries(seen: Seen, account: Uuid, cursor: Option<Uuid>, limit: nat): Page
    requires limit > 0
  {
    Cut(SortBy(EntryKey, Selected(seen.table, account, Bound(seen.lookup, cursor))), limit)
  }

  function Cut(rows: seq<Entry>, limit: nat): Page
    requires limit > 0
  {
    if |rows| <= limit then Page(rows, None) else Page(rows[..limit], Some(rows[limit - 1].id))
  }

  // ----- What one page contains -----

  ghost predicate UniqueIds(table: seq<Entry>) {
    forall i, j :: 0 <= i < j < |table| ==> table[i].id != table[j].id
  }

  lemma {:induction false} SelectedMeaning(table: seq<Entry>, account: Uuid, after: int)
    requires UniqueIds(table)
    ensures forall e :: e in Selected(table, account, after) <==> e in table && e.accountId == account && e.id > after
    ensures DistinctKeys(EntryKey, Selected(table, account, after))
  {
    if table != [] {
      SelectedMeaning(table[1..], account, after);
      assert table == [table[0]] + table[1..];
      var rest := Selected(table[1..], account, after);
      forall i | 0 <= i < |rest|
        ensures rest[i].id != table[0].id
      {
        assert rest[i] in table[1..];
      }
    }
  }

  lemma {:induction false} FindEntryMeaning(table: seq<Entry>, id: Uuid)
    ensures FindEntry(table, id).Some? <==> exists i :: 0 <= i < |table| && table[i].id == id
  {
    if table != [] {
      FindEntryMeaning(table[1..], id);
      assert forall i :: 0 < i < |table| ==> table[i] == table[1..][i - 1];
    }
  }

  /** e is on the account and beyond the bound. */
  predicate Wanted(e: Entry, account: Uuid, after: int) {
    e.accountId == account && e.id > after
  }

  /** A page is in strict id order, holds only wanted entries of the table, and leaves out none up to its end. */
  ghost predicate PageOk(page: Page, table: seq<Entry>, account: Uuid, after: int) {
    && (forall i, j :: 0 <= i < j < |page.items| ==> page.items[i].id < page.items[j].id)
    && (forall e :: e in page.items ==> e in table && Wanted(e, account, after))
    && (page.next.Some? ==> page.items != [] && page.items[|page.items| - 1].id == page.next.value)
    && forall e :: e in table && Wanted(e, account, after) && (page.next.Some? ==> e.id <= page.next.value) ==>
         e in page.items
  }

  lemma IncreasingIds(items: seq<Entry>)
    ensures Increasing(EntryKey, items) <==> forall i, j :: 0 <= i < j < |items| ==> items[i].id < items[j].id
  {
    assert forall i, j :: 0 <= i < j < |items| ==>
      (EntryKey(items[i]) < EntryKey(items[j]) <==> items[i].id < items[j].id);
  }

  lemma CutOk(rows: seq<Entry>, limit: nat)
    requires limit > 0 && Increasing(EntryKey, rows)
    ensures var page := Cut(rows, limit);
      && Increasing(EntryKey, page.items)
      && (forall e :: e in page.items ==> e in rows)
      && (page.next.Some? ==> page.items != [] && page.items[|page.items| - 1].id == page.next.value)
      && |page.items| <= limit
      && (page.next.Some? ==> |page.items| == limit && exists e :: e in rows && e.id > page.next.value)
      && forall e :: e in rows && (page.next.Some? ==> e.id <= page.next.value) ==> e in page.items
  {
    if |rows| > limit {
      forall e | e in rows && e.id <= rows[limit - 1].id
        ensures e in rows[..limit]
      {
        var i :| 0 <= i < |rows| && rows[i] == e;
        assert i >= limit ==> EntryKey(rows[limit - 1]) < EntryKey(rows[i]);
        assert rows[..limit][i] == e;
      }
      assert EntryKey(rows[limit - 1]) < EntryKey(rows[limit]) && rows[limit] in rows;
    }
  }

  lemma SortedSelection(table: seq<Entry>, account: Uuid, after: int)
    requires UniqueIds(table)
    ensures Increasing(EntryKey, SortBy(EntryKey, Selected(table, account, after)))
    ensures forall e ::
      e in SortBy(EntryKey, Selected(table, account, after)) <==> e in table && Wanted(e, account, after)
  {
    var selected := Selected(table, account, after);
    SelectedMeaning(table, account, after);
    SortIncreasing(EntryKey, selected);
    SortMembers(EntryKey, selected);
    assert forall e :: e in selected <==> e in table && Wanted(e, account, after);
  }

  lemma BoundExactly(lookup: seq<Entry>, cursor: Option<Uuid>)
    ensures Bound(lookup, cursor) ==
            if cursor.Some? && exists e :: e in lookup && e.id == cursor.value then cursor.value else -1
  {
    if cursor.Some? {
      FindEntryMeaning(lookup, cursor.value);
      if e :| e in lookup && e.id == cursor.value {
        var i :| 0 <= i < |lookup| && lookup[i] == e;
        assert lookup[i].id == cursor.value;
      }
    }
  }

  lemma CutIsOk(rows: seq<Entry>, table: seq<Entry>, account: Uuid, after: int, limit: nat)
    requires limit > 0 && Increasing(EntryKey, rows)
    requires forall e :: e in rows <==> e in table && Wanted(e, account, after)
    ensures PageOk(Cut(rows, limit), table, account, after)
  {
    hide Cut, Wanted;
    CutOk(rows, limit);
    IncreasingIds(Cut(rows, limit).items);
  }

  lemma PageIsOk(seen: Seen, account: Uuid, cursor: Option<Uuid>, limit: nat)
    requires UniqueIds(seen.table) && limit > 0
    ensures PageOk(ListEntries(seen, account, cursor, limit), seen.table, account, Bound(seen.lookup, cursor))
  {
    hide Selected, Bound;
    var after := Bound(seen.lookup, cursor);
    SortedSelection(seen.table, account, after);
    CutIsOk(SortBy(EntryKey, Selected(seen.table, account, after)), seen.table, account, after, limit);
  }

  /** A page holds at most limit entries; one that carries a cursor is full, and more wanted entries follow it. */
  lemma PageIsFull(seen: Seen, account: Uuid, cursor: Option<Uuid>, limit: nat)
    requires UniqueIds(seen.table) && limit > 0
    ensures |ListEntries(seen, account, cursor, limit).items| <= limit
    ensures ListEntries(seen, account, cursor, limit).next.Some? ==>
      && |ListEntries(seen, account, cursor, limit).items| == limit
      && exists e :: e in seen.table && Wanted(e, account, ListEntries(seen, account, cursor, limit).next.value)
  {
    hide Selected, Bound;
    SortedSelection(seen.table, account, Bound(seen.lookup, cursor));
    CutOk(SortBy(EntryKey, Selected(seen.table, account, Bound(seen.lookup, cursor))), limit);
  }

  // ----- Following next_cursor -----

  ghost predicate Within(a: seq<Entry>, b: seq<Entry>) {
    forall e :: e in a ==> e in b
  }

  /** The tables as the statements of the walk find them: entries are only ever added. */
  ghost predicate Growing(walk: seq<Seen>) {
    && (forall i :: 0 <= i < |walk| ==> UniqueIds(walk[i].table) && Within(walk[i].lookup, walk[i].table))
    && forall i, j :: 0 <= i < j < |walk| ==> Within(walk[i].table, walk[j].lookup)
  }

  datatype Walk = Walk(items: seq<Entry>, next: Option<Uuid>, finished: bool)

  /** Requests page after page until a page carries no cursor or the requests run out. */
  function Follow(walk: seq<Seen>, account: Uuid, cursor: Option<Uuid>, limit: nat): Walk
    requires limit > 0
  {
    if walk == [] then Walk([], cursor, false)
    else
      var page := ListEntries(walk[0], account, cursor, limit);
      if page.next.None? then Walk(page.items, None, true)
      else
        var rest := Follow(walk[1..], account, page.next, limit);
        Walk(page.items + rest.items, rest.next, rest.finished)
  }

  lemma GrowingRest(walk: seq<Seen>)
    requires Growing(walk) && walk != []
    ensures Growing(walk[1..])
    ensures walk[1..] != [] ==> Within(walk[0].table, walk[1].lookup) && Within(walk[0].table, walk[1].table)
  {
    if |walk| > 1 {
      assert Within(walk[1].lookup, walk[1].table);
    }
  }

  /** The cursor taken from a page names an entry that every later lookup finds. */
  lemma CursorStays(page: Page, table: seq<Entry>, later: seq<Entry>, account: Uuid, after: int)
    requires PageOk(page, table, account, after) && page.next.Some?
    requires Within(table, later)
    ensures Bound(later, page.next) == page.next.value
  {
    var last := page.items[|page.items| - 1];
    assert last in page.items && last in later;
    FindEntryMeaning(later, page.next.value);
  }

  lemma JoinIncreasing(a: seq<Entry>, b: seq<Entry>)
    requires Increasing(EntryKey, a) && Increasing(EntryKey, b)
    requires a != [] && forall e :: e in b ==> e.id > a[|a| - 1].id
    ensures Increasing(EntryKey, a + b)
  {
    forall i, j | 0 <= i < j < |a + b|
      ensures EntryKey((a + b)[i]) < EntryKey((a + b)[j])
    {
      if i < |a| <= j {
        assert (a + b)[j] in b;
        assert EntryKey(a[i]) <= EntryKey(a[|a| - 1]);
      }
    }
  }

  lemma {:induction false} FollowFrom(
      walk: seq<Seen>, account: Uuid, cursor: Option<Uuid>, limit: nat, after: int)
    requires Growing(walk) && limit > 0
    requires walk != [] ==> Bound(walk[0].lookup, cursor) == after
    ensures var w := Follow(walk, account, cursor, limit);
      && Increasing(EntryKey, w.items)
      && (forall e :: e in w.items ==> Wanted(e, account, after))
      && (walk != [] && w.finished ==> forall e :: e in walk[0].table && Wanted(e, account, after) ==> e in w.items)
  {
    if walk != [] {
      PageIsOk(walk[0], account, cursor, limit);
      var page := ListEntries(walk[0], account, cursor, limit);
      hide ListEntries, Bound;
      IncreasingIds(page.items);
      if page.next.Some? {
        GrowingRest(walk);
        if |walk| > 1 {
          CursorStays(page, walk[0].table, walk[1].lookup, account, after);
        }
        FollowFrom(walk[1..], account, page.next, limit, page.next.value);
        JoinIncreasing(page.items, Follow(walk[1..], account, page.next, limit).items);
        EarlierOrLater(page, walk[0].table, account, after);
      }
    }
  }

  /** A wanted entry is on the page or beyond its cursor. */
  lemma EarlierOrLater(page: Page, table: seq<Entry>, account: Uuid, after: int)
    requires PageOk(page, table, account, after) && page.next.Some?
    ensures forall e :: e in table && Wanted(e, account, after) ==>
      e in page.items || Wanted(e, account, page.next.value)
    ensures page.next.value > after
  {
    assert page.items[|page.items| - 1] in page.items;
  }

  /** Following the cursors to the end returns every entry present at the start exactly once, in id order and with
      no repeats, whatever the page size and whatever is appended between pages. */
  lemma PagingIsComplete(walk: seq<Seen>, account: Uuid, limit: nat)
    requires Growing(walk) && walk != [] && limit > 0
    ensures var w := Follow(walk, account, None, limit);
      && (forall i, j :: 0 <= i < j < |w.items| ==> w.items[i].id < w.items[j].id)
      && (forall e :: e in w.items ==> e.accountId == account)
      && (w.finished ==> forall e :: e in walk[0].table && e.accountId == account ==>
            e in w.items && multiset(w.items)[e] == 1)
  {
    FollowFrom(walk, account, None, limit, -1);
    var items := Follow(walk, account, None, limit).items;
    IncreasingIds(items);
    forall e | e in items
      ensures multiset(items)[e] == 1
    {
      OnceInIncreasing(items, e);
    }
  }

  lemma {:induction false} OnceInIncreasing(items: seq<Entry>, e: Entry)
    requires Increasing(EntryKey, items)
    ensures multiset(items)[e] == if e in items then 1 else 0
  {
    if items != [] {
      OnceInIncreasing(items[1..], e);
      assert items == [items[0]] + items[1..];
      assert forall k :: 0 <= k < |items[1..]| ==> items[1..][k] == items[k + 1];
      assert items[0] !in items[1..];
    }
  }

  // ----- The walk ends -----

  lemma {:induction false} UnfinishedIsFull(walk: seq<Seen>, account: Uuid, cursor: Option<Uuid>, limit: nat)
    requires limit > 0 && !Follow(walk, account, cursor, limit).finished
    ensures |Follow(walk, account, cursor, limit).items| == |walk| * limit
  {
    if walk != [] {
      var page := ListEntries(walk[0], account, cursor, limit);
      assert page.next.Some? && |page.items| == limit;
      UnfinishedIsFull(walk[1..], account, page.next, limit);
      MulStep(|walk[1..]|, limit);
    }
  }

  lemma LastHasAll(walk: seq<Seen>, i: nat, e: Entry)
    requires Growing(walk) && i < |walk| && e in walk[i].table
    ensures e in walk[|walk| - 1].table
  {
  }

  lemma {:induction false} WalkedAreStored(walk: seq<Seen>, account: Uuid, cursor: Option<Uuid>, limit: nat)
    requires Growing(walk) && walk != [] && limit > 0
    ensures forall e :: e in Follow(walk, account, cursor, limit).items ==> e in walk[|walk| - 1].table
  {
    PageIsOk(walk[0], account, cursor, limit);
    var page := ListEntries(walk[0], account, cursor, limit);
    forall e | e in page.items
      ensures e in walk[|walk| - 1].table
    {
      LastHasAll(walk, 0, e);
    }
    if page.next.Some? && |walk| > 1 {
      GrowingRest(walk);
      WalkedAreStored(walk[1..], account, page.next, limit);
    }
  }

  lemma {:induction false} DistinctFit(items: seq<Entry>, table: seq<Entry>)
    requires Increasing(EntryKey, items)
    requires forall e :: e in items ==> e in table
    ensures |items| <= |table|
  {
    forall e
      ensures multiset(items)[e] <= multiset(table)[e]
    {
      OnceInIncreasing(items, e);
    }
    assert multiset(items) <= multiset(table);
    assert |multiset(table)| == |multiset(items)| + |multiset(table) - multiset(items)|;
    assert |multiset(items)| == |items| && |multiset(table)| == |table|;
  }

  /** Entries that arrive cannot keep the walk going for ever: it has finished as soon as the pages asked for could
      hold more entries than the table does. */
  lemma WalkFinishes(walk: seq<Seen>, account: Uuid, limit: nat)
    requires Growing(walk) && walk != [] && limit > 0
    requires |walk| * limit > |walk[|walk| - 1].table|
    ensures Follow(walk, account, None, limit).finished
  {
    var w := Follow(walk, account, None, limit);
    if !w.finished {
      UnfinishedIsFull(walk, account, None, limit);
      FollowFrom(walk, account, None, limit, -1);
      WalkedAreStored(walk, account, None, limit);
      DistinctFit(w.items, walk[|walk| - 1].table);
    }
  }
}
