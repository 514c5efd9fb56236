/** A range scan read page by page, each page in a transaction of its own, so that
    anything may be written between two pages. */
module RangeScan {
  import opened Facts
  import Orders

  newtype Byte = b: int | 0 <= b < 256

  type Key = seq<Byte>

  type Store = map<Key, seq<Byte>>

  datatype Entry = Entry(key: Key, value: seq<Byte>)

  datatype RangeOptions = RangeOptions(start: Key, end: Key, reverse: bool, limit: Option<int>)

  datatype Cursor = Cursor(start: Key, end: Key, reverse: bool, remaining: Option<int>)

  datatype Page = Page(entries: seq<Entry>, next: Option<Cursor>)

  // Keys in byte order

  function ByteLess(): (Byte, Byte) -> bool {
    (a, b) => a < b
  }

  predicate KeyLess(a: Key, b: Key) {
    Orders.LexLess(ByteLess(), a, b)
  }

  function KeyAfter(key: Key): Key {
    key + [0]
  }

  /** Nothing lies between a key and its successor. */
  lemma {:induction false} KeyAfterIsNext(key: Key, x: Key)
    ensures !KeyLess(x, KeyAfter(key)) <==> KeyLess(key, x)
  {
    var after := KeyAfter(key);
    if key == [] {
      assert after == [0] && after[1..] == [];
      assert x != [] ==> !Orders.LexLess(ByteLess(), x[1..], after[1..]);
    } else {
      assert after[0] == key[0] && after[1..] == KeyAfter(key[1..]);
      if x != [] { KeyAfterIsNext(key[1..], x[1..]); }
    }
  }

  /** The order the scan emits keys in. */
  function ScanLess(reverse: bool): (Key, Key) -> bool {
    (a, b) => if reverse then KeyLess(b, a) else KeyLess(a, b)
  }

  lemma ScanOrderTotal(reverse: bool, keys: set<Key>)
    ensures Orders.StrictTotalOn(ScanLess(reverse), keys)
  {
    var forward := ScanLess(false);
    Orders.LexStrictTotalOn(ByteLess(), forward, keys);
    forall a, b, c | a in keys && b in keys && c in keys && forward(c, b) && forward(b, a) ensures forward(c, a) {
    }
  }

  predicate InRange(key: Key, start: Key, end: Key) {
    !KeyLess(key, start) && KeyLess(key, end)
  }

  function RangeKeys(store: Store, start: Key, end: Key): set<Key> {
    set k | k in store && InRange(k, start, end)
  }

  ghost function RangeList(store: Store, start: Key, end: Key, reverse: bool): (keys: seq<Key>)
    ensures Orders.StrictlySorted(ScanLess(reverse), keys)
    ensures forall k :: k in keys <==> k in store && InRange(k, start, end)
  {
    ScanOrderTotal(reverse, RangeKeys(store, start, end));
    Orders.Listing(ScanLess(reverse), RangeKeys(store, start, end))
  }

  function Entries(store: Store, keys: seq<Key>): (entries: seq<Entry>)
    requires forall k | k in keys :: k in store
    ensures |entries| == |keys|
    ensures forall i :: 0 <= i < |keys| ==> entries[i] == Entry(keys[i], store[keys[i]])
  {
    seq(|keys|, i requires 0 <= i < |keys| => Entry(keys[i], store[keys[i]]))
  }

  function Take<T>(s: seq<T>, limit: int): seq<T>
    requires limit >= 0
  {
    if |s| <= limit then s else s[..limit]
  }

  /** The client's range read: the first `limit` keys of the range, in scan order. */
  ghost function GetRangeAll(store: Store, start: Key, end: Key, limit: int, reverse: bool): seq<Entry>
    requires limit >= 1
  {
    Entries(store, Take(RangeList(store, start, end, reverse), limit))
  }

  /** What a page read is handed to: a snapshot of the database, or a transaction. */
  type RangeSource = (Store, Key, Key, int, bool) -> seq<Entry>

  ghost predicate ReadsRange(source: RangeSource, store: Store, start: Key, end: Key, limit: int, reverse: bool) {
    limit >= 1 ==> source(store, start, end, limit, reverse) == GetRangeAll(store, start, end, limit, reverse)
  }

  ghost predicate Serves(source: RangeSource) {
    forall store, start, end, limit, reverse :: ReadsRange(source, store, start, end, limit, reverse)
  }

  /** Some source meets the contract. */
  lemma SomeSourceServes() returns (source: RangeSource)
    ensures Serves(source)
  {
    source := (store, start, end, limit, reverse) =>
      if limit >= 1 then GetRangeAll(store, start, end, limit, reverse) else [];
  }

  // Pages

  function Start(options: RangeOptions): Option<Cursor> {
    if options.limit.Some? && options.limit.value <= 0 then None
    else Some(Cursor(options.start, options.end, options.reverse, options.limit))
  }

  function PageLimit(cursor: Cursor, pageSize: int): int {
    var scanPageSize := if pageSize < 1 then 1 else pageSize;
    if cursor.remaining.Some? && cursor.remaining.value < scanPageSize then cursor.remaining.value else scanPageSize
  }

  function Next(cursor: Cursor, entries: seq<Entry>, limit: int): Option<Cursor> {
    var remaining := if cursor.remaining.None? then None else Some(cursor.remaining.value - |entries|);
    if |entries| == limit && (remaining.None? || remaining.value > 0) && |entries| > 0 then
      var lastKey := entries[|entries| - 1].key;
      Some(Cursor(if cursor.reverse then cursor.start else KeyAfter(lastKey),
                  if cursor.reverse then lastKey else cursor.end,
                  cursor.reverse, remaining))
    else None
  }

  predicate Running(cursor: Cursor) {
    cursor.remaining.Some? ==> cursor.remaining.value > 0
  }

  function ReadPage(source: RangeSource, store: Store, cursor: Cursor, pageSize: int): Page
    requires Running(cursor)
  {
    var limit := PageLimit(cursor, pageSize);
    var entries := source(store, cursor.start, cursor.end, limit, cursor.reverse);
    Page(entries, Next(cursor, entries, limit))
  }

  /** A page holds as much of the cursor's interval as the page size, which is at least
      one, and what is left of the limit allow. */
  lemma PageIsFull(source: RangeSource, store: Store, cursor: Cursor, pageSize: int)
    requires Serves(source) && Running(cursor)
    ensures var wanted := |RangeList(store, cursor.start, cursor.end, cursor.reverse)|;
      var got := |ReadPage(source, store, cursor, pageSize).entries|;
      && got <= wanted && (pageSize >= 1 ==> got <= pageSize) && (pageSize < 1 ==> got <= 1)
      && (cursor.remaining.Some? ==> got <= cursor.remaining.value)
      && (got == wanted || got == pageSize || (got == 1 && pageSize < 1)
          || (cursor.remaining.Some? && got == cursor.remaining.value))
  {
    assert ReadsRange(source, store, cursor.start, cursor.end, PageLimit(cursor, pageSize), cursor.reverse);
  }

  // A scan whose n-th page meets the store `stores(n)`

  datatype Scan = Scan(emitted: seq<Entry>, cursor: Option<Cursor>)
  {
    predicate Going() { cursor.Some? ==> Running(cursor.value) }
  }

  function Extend(scan: Scan, page: Page): Scan {
    Scan(scan.emitted + page.entries, page.next)
  }

  function Advance(source: RangeSource, store: Store, scan: Scan, pageSize: int): (next: Scan)
    requires scan.Going()
    ensures next.Going()
  {
    if scan.cursor.None? then scan else Extend(scan, ReadPage(source, store, scan.cursor.value, pageSize))
  }

  /** The scan after `n` page reads. */
  function ScanAfter(source: RangeSource, stores: nat -> Store, options: RangeOptions, pageSize: int,
                     n: nat): (scan: Scan)
    ensures scan.Going()
  {
    if n == 0 then Scan([], Start(options))
    else Advance(source, stores(n - 1), ScanAfter(source, stores, options, pageSize, n - 1), pageSize)
  }

  // What one page leaves for the next

  /** The cursor's interval is what follows the emitted entries in the whole range. */
  ghost predicate Remaining(options: RangeOptions, emitted: seq<Entry>, cursor: Cursor) {
    && cursor.reverse == options.reverse
    && (options.limit.None? <==> cursor.remaining.None?)
    && (options.limit.Some? ==> cursor.remaining.value == options.limit.value - |emitted|)
    && forall k :: InRange(k, cursor.start, cursor.end) <==>
         InRange(k, options.start, options.end)
             && (emitted != [] ==> ScanLess(options.reverse)(emitted[|emitted| - 1].key, k))
  }

  ghost predicate Ordered(options: RangeOptions, emitted: seq<Entry>) {
    && (forall i :: 0 <= i < |emitted| ==> InRange(emitted[i].key, options.start, options.end))
    && (forall i, j :: 0 <= i < j < |emitted| ==> ScanLess(options.reverse)(emitted[i].key, emitted[j].key))
  }

  lemma ListedInOrder(store: Store, start: Key, end: Key, limit: int, reverse: bool)
    requires limit >= 1
    ensures Ordered(RangeOptions(start, end, reverse, None), GetRangeAll(store, start, end, limit, reverse))
    ensures forall e | e in GetRangeAll(store, start, end, limit, reverse) :: e.key in store && e.value == store[e.key]
  {
    var keys := RangeList(store, start, end, reverse);
    forall i | 0 <= i < |keys| ensures keys[i] in store && InRange(keys[i], start, end) {
      assert keys[i] in keys;
    }
  }

  lemma PageOrdered(source: RangeSource, store: Store, cursor: Cursor, pageSize: int)
    requires Serves(source) && Running(cursor)
    ensures Ordered(RangeOptions(cursor.start, cursor.end, cursor.reverse, None),
                    ReadPage(source, store, cursor, pageSize).entries)
    ensures forall e | e in ReadPage(source, store, cursor, pageSize).entries ::
              e.key in store && e.value == store[e.key]
  {
    assert ReadsRange(source, store, cursor.start, cursor.end, PageLimit(cursor, pageSize), cursor.reverse);
    ListedInOrder(store, cursor.start, cursor.end, PageLimit(cursor, pageSize), cursor.reverse);
  }

  lemma BytesTransitive(a: Key, b: Key, c: Key)
    requires KeyLess(a, b) && KeyLess(b, c)
    ensures KeyLess(a, c)
  {
    Orders.LexTransitive(ByteLess(), a, b, c);
  }

  /** The next cursor's interval is what follows the page's last key in this one. */
  lemma NextInterval(cursor: Cursor, entries: seq<Entry>, limit: int, k: Key)
    requires Next(cursor, entries, limit).Some?
    requires InRange(entries[|entries| - 1].key, cursor.start, cursor.end)
    ensures var next := Next(cursor, entries, limit).value;
      InRange(k, next.start, next.end) <==>
      InRange(k, cursor.start, cursor.end) && ScanLess(cursor.reverse)(entries[|entries| - 1].key, k)
  {
    var last := entries[|entries| - 1].key;
    if cursor.reverse {
      if KeyLess(k, last) { BytesTransitive(k, last, cursor.end); }
    } else {
      KeyAfterIsNext(last, k);
      if KeyLess(last, k) && KeyLess(k, cursor.start) { BytesTransitive(last, k, cursor.start); }
    }
  }

  lemma ScanTransitive(reverse: bool, a: Key, b: Key, c: Key)
    requires ScanLess(reverse)(a, b) && ScanLess(reverse)(b, c)
    ensures ScanLess(reverse)(a, c)
  {
    if reverse { BytesTransitive(c, b, a); } else { BytesTransitive(a, b, c); }
  }

  lemma FollowsEmitted(options: RangeOptions, emitted: seq<Entry>, cursor: Cursor, i: nat, k: Key)
    requires Ordered(options, emitted) && Remaining(options, emitted, cursor)
    requires i < |emitted| && InRange(k, cursor.start, cursor.end)
    ensures ScanLess(options.reverse)(emitted[i].key, k)
  {
    if i < |emitted| - 1 {
      ScanTransitive(options.reverse, emitted[i].key, emitted[|emitted| - 1].key, k);
    }
  }

  lemma PageExtendsOrder(options: RangeOptions, emitted: seq<Entry>, cursor: Cursor, page: seq<Entry>)
    requires Ordered(options, emitted) && Remaining(options, emitted, cursor)
    requires Ordered(RangeOptions(cursor.start, cursor.end, cursor.reverse, None), page)
    ensures Ordered(options, emitted + page)
  {
    var all := emitted + page;
    forall i, j | 0 <= i < j < |all| ensures ScanLess(options.reverse)(all[i].key, all[j].key) {
      if i < |emitted| <= j { FollowsEmitted(options, emitted, cursor, i, all[j].key); }
    }
  }

  lemma NextRemaining(options: RangeOptions, emitted: seq<Entry>, cursor: Cursor, page: seq<Entry>, limit: int)
    requires Ordered(options, emitted) && Remaining(options, emitted, cursor)
    requires Ordered(RangeOptions(cursor.start, cursor.end, cursor.reverse, None), page)
    requires Next(cursor, page, limit).Some?
    ensures Remaining(options, emitted + page, Next(cursor, page, limit).value)
  {
    var next := Next(cursor, page, limit).value;
    var all := emitted + page;
    assert all[|all| - 1] == page[|page| - 1];
    var last := page[|page| - 1].key;
    forall k
      ensures InRange(k, next.start, next.end) <==>
              InRange(k, options.start, options.end) && ScanLess(options.reverse)(last, k)
    {
      NextInterval(cursor, page, limit, k);
      if emitted != [] && ScanLess(options.reverse)(last, k) {
        FollowsEmitted(options, emitted, cursor, |emitted| - 1, last);
        ScanTransitive(options.reverse, emitted[|emitted| - 1].key, last, k);
      }
    }
  }

  ghost predicate InOrder(options: RangeOptions, scan: Scan) {
    && Ordered(options, scan.emitted)
    && (scan.cursor.Some? ==> Remaining(options, scan.emitted, scan.cursor.value))
  }

  lemma PageKeepsOrder(options: RangeOptions, scan: Scan, page: Page, limit: int)
    requires InOrder(options, scan) && scan.cursor.Some?
    requires Ordered(RangeOptions(scan.cursor.value.start, scan.cursor.value.end, scan.cursor.value.reverse, None),
                     page.entries)
    requires page.next == Next(scan.cursor.value, page.entries, limit)
    ensures InOrder(options, Extend(scan, page))
  {
    PageExtendsOrder(options, scan.emitted, scan.cursor.value, page.entries);
    if page.next.Some? {
      NextRemaining(options, scan.emitted, scan.cursor.value, page.entries, limit);
    }
  }

  lemma AdvanceKeepsOrder(source: RangeSource, store: Store, options: RangeOptions, scan: Scan, pageSize: int)
    requires Serves(source) && scan.Going() && InOrder(options, scan)
    ensures InOrder(options, Advance(source, store, scan, pageSize))
  {
    if scan.cursor.Some? {
      PageOrdered(source, store, scan.cursor.value, pageSize);
      PageKeepsOrder(options, scan, ReadPage(source, store, scan.cursor.value, pageSize),
                     PageLimit(scan.cursor.value, pageSize));
    }
  }

  /** After any number of pages, whatever was written between them, the emitted keys
      run strictly in scan order inside the range, and the cursor, if any, covers
      exactly what follows them. */
  lemma {:induction false} ScanStaysOrdered(source: RangeSource, stores: nat -> Store, options: RangeOptions,
                                            pageSize: int, n: nat)
    requires Serves(source)
    ensures InOrder(options, ScanAfter(source, stores, options, pageSize, n))
  {
    if n > 0 {
      ScanStaysOrdered(source, stores, options, pageSize, n - 1);
      AdvanceKeepsOrder(source, stores(n - 1), options, ScanAfter(source, stores, options, pageSize, n - 1), pageSize);
    }
  }

  predicate NotInverted(cursor: Cursor) {
    !KeyLess(cursor.end, cursor.start)
  }

  lemma PageNotInverted(source: RangeSource, store: Store, cursor: Cursor, pageSize: int)
    requires Serves(source) && Running(cursor) && NotInverted(cursor)
    ensures var next := ReadPage(source, store, cursor, pageSize).next; next.Some? ==> NotInverted(next.value)
  {
    var page := ReadPage(source, store, cursor, pageSize);
    PageOrdered(source, store, cursor, pageSize);
    if page.next.Some? {
      var last := page.entries[|page.entries| - 1].key;
      assert InRange(last, cursor.start, cursor.end);
      KeyAfterIsNext(last, cursor.end);
    }
  }

  /** A range that was not inverted is never followed by an inverted one. */
  lemma {:induction false} CursorsNeverInverted(source: RangeSource, stores: nat -> Store, options: RangeOptions,
                                                pageSize: int, n: nat)
    requires Serves(source) && !KeyLess(options.end, options.start)
    ensures var cursor := ScanAfter(source, stores, options, pageSize, n).cursor;
      cursor.Some? ==> NotInverted(cursor.value)
  {
    if n > 0 {
      CursorsNeverInverted(source, stores, options, pageSize, n - 1);
      var before := ScanAfter(source, stores, options, pageSize, n - 1);
      if before.cursor.Some? {
        PageNotInverted(source, stores(n - 1), before.cursor.value, pageSize);
      }
    }
  }

  // Nothing that stays is missed, and nothing is emitted twice

  ghost predicate EmittedKey(emitted: seq<Entry>, k: Key) {
    exists i :: 0 <= i < |emitted| && emitted[i].key == k
  }

  /** A page that ends the scan of a range, short of its limit, held all its keys. */
  lemma PageHolds(source: RangeSource, store: Store, cursor: Cursor, pageSize: int, k: Key)
    requires Serves(source) && Running(cursor) && k in store && InRange(k, cursor.start, cursor.end)
    ensures var page := ReadPage(source, store, cursor, pageSize);
      || EmittedKey(page.entries, k)
      || (page.next.Some? && InRange(k, page.next.value.start, page.next.value.end))
      || (cursor.remaining.Some? && |page.entries| == cursor.remaining.value)
  {
    var keys := RangeList(store, cursor.start, cursor.end, cursor.reverse);
    var limit := PageLimit(cursor, pageSize);
    assert ReadsRange(source, store, cursor.start, cursor.end, limit, cursor.reverse);
    var page := ReadPage(source, store, cursor, pageSize);
    var i :| 0 <= i < |keys| && keys[i] == k;
    if i < |page.entries| {
      assert page.entries[i].key == k;
    } else {
      assert |page.entries| == limit && page.entries[limit - 1].key == keys[limit - 1];
      if page.next.Some? {
        PageOrdered(source, store, cursor, pageSize);
        NextInterval(cursor, page.entries, limit, k);
      }
    }
  }

  lemma EmittedKeyAppend(a: seq<Entry>, b: seq<Entry>, k: Key)
    ensures EmittedKey(a + b, k) <==> EmittedKey(a, k) || EmittedKey(b, k)
  {
    if EmittedKey(a, k) {
      var i :| 0 <= i < |a| && a[i].key == k;
      assert (a + b)[i].key == k;
    }
    if EmittedKey(b, k) {
      var i :| 0 <= i < |b| && b[i].key == k;
      assert (a + b)[|a| + i].key == k;
    }
  }

  predicate Unlimited(scan: Scan) {
    scan.cursor.Some? ==> scan.cursor.value.remaining.None?
  }

  lemma {:induction false} StaysUnlimited(source: RangeSource, stores: nat -> Store, options: RangeOptions,
                                          pageSize: int, n: nat)
    requires options.limit.None?
    ensures Unlimited(ScanAfter(source, stores, options, pageSize, n))
  {
    if n > 0 {
      StaysUnlimited(source, stores, options, pageSize, n - 1);
    }
  }

  ghost predicate Accounted(scan: Scan, k: Key) {
    EmittedKey(scan.emitted, k) || (scan.cursor.Some? && InRange(k, scan.cursor.value.start, scan.cursor.value.end))
  }

  lemma AdvanceAccounts(source: RangeSource, store: Store, scan: Scan, pageSize: int, k: Key)
    requires Serves(source) && scan.Going() && Accounted(scan, k) && k in store
    requires Unlimited(scan)
    ensures Accounted(Advance(source, store, scan, pageSize), k)
  {
    if scan.cursor.Some? {
      EmittedKeyAppend(scan.emitted, ReadPage(source, store, scan.cursor.value, pageSize).entries, k);
      if InRange(k, scan.cursor.value.start, scan.cursor.value.end) {
        PageHolds(source, store, scan.cursor.value, pageSize, k);
      }
    }
  }

  lemma {:induction false} StayingKeyAccounted(source: RangeSource, stores: nat -> Store, options: RangeOptions,
                                               pageSize: int, n: nat, k: Key)
    requires Serves(source) && InRange(k, options.start, options.end) && options.limit.None?
    requires forall i: nat | i < n :: k in stores(i)
    ensures Accounted(ScanAfter(source, stores, options, pageSize, n), k)
  {
    if n > 0 {
      StayingKeyAccounted(source, stores, options, pageSize, n - 1, k);
      StaysUnlimited(source, stores, options, pageSize, n - 1);
      AdvanceAccounts(source, stores(n - 1), ScanAfter(source, stores, options, pageSize, n - 1), pageSize, k);
    }
  }

  ghost predicate StoredIn(stores: nat -> Store, n: nat, e: Entry) {
    exists i: nat :: i < n && e.key in stores(i) && stores(i)[e.key] == e.value
  }

  lemma StoredAt(stores: nat -> Store, n: nat, i: nat, e: Entry)
    requires i < n && e.key in stores(i) && stores(i)[e.key] == e.value
    ensures StoredIn(stores, n, e)
  {
  }

  lemma PageWasStored(source: RangeSource, store: Store, scan: Scan, pageSize: int, e: Entry)
    requires Serves(source) && scan.Going() && e in Advance(source, store, scan, pageSize).emitted && e !in scan.emitted
    ensures e.key in store && store[e.key] == e.value
  {
    PageOrdered(source, store, scan.cursor.value, pageSize);
    assert e in ReadPage(source, store, scan.cursor.value, pageSize).entries;
  }

  lemma {:induction false} EmittedWasStored(source: RangeSource, stores: nat -> Store, options: RangeOptions,
                                            pageSize: int, n: nat, e: Entry)
    requires Serves(source) && e in ScanAfter(source, stores, options, pageSize, n).emitted
    ensures StoredIn(stores, n, e)
  {
    if n > 0 {
      var before := ScanAfter(source, stores, options, pageSize, n - 1);
      if e in before.emitted {
        EmittedWasStored(source, stores, options, pageSize, n - 1, e);
        var i: nat :| i < n - 1 && e.key in stores(i) && stores(i)[e.key] == e.value;
        StoredAt(stores, n, i, e);
      } else {
        PageWasStored(source, stores(n - 1), before, pageSize, e);
        StoredAt(stores, n, n - 1, e);
      }
    }
  }

  /** A completed scan without a limit emits every key of the range that was present
      throughout, at exactly one place, whatever else was written meanwhile; and each
      entry it emits was in the store that its page met. */
  lemma CompletedScanMissesNothing(source: RangeSource, stores: nat -> Store, options: RangeOptions, pageSize: int,
                                   n: nat, k: Key)
    requires Serves(source) && options.limit.None? && ScanAfter(source, stores, options, pageSize, n).cursor.None?
    requires InRange(k, options.start, options.end)
    requires forall i: nat | i < n :: k in stores(i)
    ensures var emitted := ScanAfter(source, stores, options, pageSize, n).emitted;
      && (exists i :: 0 <= i < |emitted| && emitted[i].key == k)
      && (forall i, j :: 0 <= i < j < |emitted| ==> emitted[i].key != emitted[j].key)
      && (forall e | e in emitted :: StoredIn(stores, n, e))
  {
    var emitted := ScanAfter(source, stores, options, pageSize, n).emitted;
    StayingKeyAccounted(source, stores, options, pageSize, n, k);
    ScanStaysOrdered(source, stores, options, pageSize, n);
    forall i, j | 0 <= i < j < |emitted| ensures emitted[i].key != emitted[j].key {
      Orders.LexIrreflexive(ByteLess(), emitted[i].key);
    }
    forall e | e in emitted ensures StoredIn(stores, n, e) {
      EmittedWasStored(source, stores, options, pageSize, n, e);
    }
  }

  // A store nobody writes to

  /** The list of the cursor's interval is the rest of the list of the whole range. */
  lemma RestOfRange(store: Store, options: RangeOptions, cursor: Cursor, emitted: seq<Entry>, list: seq<Key>)
    requires Remaining(options, emitted, cursor)
    requires list == RangeList(store, options.start, options.end, options.reverse)
    requires |emitted| <= |list| && forall i :: 0 <= i < |emitted| ==> emitted[i].key == list[i]
    ensures RangeList(store, cursor.start, cursor.end, cursor.reverse) == list[|emitted|..]
  {
    var keys, rest := RangeKeys(store, options.start, options.end), RangeKeys(store, cursor.start, cursor.end);
    var less, m := ScanLess(options.reverse), |emitted|;
    ScanOrderTotal(options.reverse, keys);
    ScanOrderTotal(options.reverse, rest);
    if m > 0 {
      RestKeys(store, options, cursor, emitted, keys, rest);
      Orders.RestOfListing(less, keys, list, m, rest);
      Orders.ListingUnique(less, rest, list[m..], RangeList(store, cursor.start, cursor.end, cursor.reverse));
    } else {
      assert list[0..] == list && rest == keys;
      Orders.ListingUnique(less, rest, list, RangeList(store, cursor.start, cursor.end, cursor.reverse));
    }
  }

  lemma RestKeys(store: Store, options: RangeOptions, cursor: Cursor, emitted: seq<Entry>, keys: set<Key>,
                 rest: set<Key>)
    requires Remaining(options, emitted, cursor) && emitted != []
    requires keys == RangeKeys(store, options.start, options.end) && rest == RangeKeys(store, cursor.start, cursor.end)
    ensures rest == set k | k in keys && ScanLess(options.reverse)(emitted[|emitted| - 1].key, k)
  {
  }

  ghost function Wanted(store: Store, options: RangeOptions): seq<Entry> {
    Limited(RangeEntries(store, options), options.limit)
  }

  ghost function RangeEntries(store: Store, options: RangeOptions): seq<Entry> {
    Entries(store, RangeList(store, options.start, options.end, options.reverse))
  }

  function Limited(all: seq<Entry>, limit: Option<int>): seq<Entry> {
    if limit.None? then all else if limit.value <= 0 then [] else Take(all, limit.value)
  }

  ghost predicate Fixed(stores: nat -> Store, store: Store) {
    forall i: nat :: stores(i) == store
  }

  ghost predicate OnTrack(scan: Scan, wanted: seq<Entry>) {
    scan.emitted <= wanted && (scan.cursor.None? ==> scan.emitted == wanted)
  }

  lemma PrefixKeys(store: Store, list: seq<Key>, emitted: seq<Entry>)
    requires (forall k | k in list :: k in store) && emitted <= Entries(store, list)
    ensures |emitted| <= |list| && forall i :: 0 <= i < |emitted| ==> emitted[i].key == list[i]
  {
  }

  lemma ReadOfRest(store: Store, options: RangeOptions, cursor: Cursor, emitted: seq<Entry>, list: seq<Key>, limit: int)
    requires limit >= 1 && Remaining(options, emitted, cursor)
    requires list == RangeList(store, options.start, options.end, options.reverse)
    requires emitted <= Entries(store, list)
    ensures |emitted| <= |list|
    ensures GetRangeAll(store, cursor.start, cursor.end, limit, cursor.reverse)
            == Entries(store, Take(list[|emitted|..], limit))
  {
    PrefixKeys(store, list, emitted);
    RestOfRange(store, options, cursor, emitted, list);
  }

  lemma PrefixIsTake(emitted: seq<Entry>, all: seq<Entry>)
    requires emitted <= all
    ensures emitted == all[..|emitted|]
  {
  }

  lemma RestEntries(store: Store, options: RangeOptions, cursor: Cursor, emitted: seq<Entry>, list: seq<Key>,
                    limit: int)
    requires limit >= 1 && Remaining(options, emitted, cursor)
    requires list == RangeList(store, options.start, options.end, options.reverse)
    requires emitted <= Entries(store, list)
    ensures emitted + GetRangeAll(store, cursor.start, cursor.end, limit, cursor.reverse)
            == Take(Entries(store, list), |emitted| + limit)
  {
    ReadOfRest(store, options, cursor, emitted, list, limit);
    PrefixIsTake(emitted, Entries(store, list));
    PageOfRest(store, list, |emitted|, limit);
  }

  lemma FixedRead(source: RangeSource, store: Store, options: RangeOptions, cursor: Cursor, emitted: seq<Entry>,
                  limit: int)
    requires Serves(source) && limit >= 1 && Remaining(options, emitted, cursor)
    requires emitted <= RangeEntries(store, options)
    ensures emitted + source(store, cursor.start, cursor.end, limit, cursor.reverse)
            == Take(RangeEntries(store, options), |emitted| + limit)
  {
    assert ReadsRange(source, store, cursor.start, cursor.end, limit, cursor.reverse);
    RestEntries(store, options, cursor, emitted, RangeList(store, options.start, options.end, options.reverse), limit);
  }

  lemma TakesOn(all: seq<Entry>, limit: Option<int>, emitted: seq<Entry>, page: seq<Entry>, cursor: Cursor,
                pageLimit: int)
    requires Running(cursor) && pageLimit >= 1 && (cursor.remaining.Some? ==> pageLimit <= cursor.remaining.value)
    requires limit.Some? <==> cursor.remaining.Some?
    requires limit.Some? ==> cursor.remaining.value == limit.value - |emitted|
    requires emitted <= all && emitted + page == Take(all, |emitted| + pageLimit)
    ensures var next := Next(cursor, page, pageLimit);
      && emitted + page <= Limited(all, limit)
      && (next.None? ==> emitted + page == Limited(all, limit))
      && (next.Some? ==> page != [])
  {
  }

  lemma LimitedIsPrefix(all: seq<Entry>, limit: Option<int>)
    ensures Limited(all, limit) <= all
  {
  }

  lemma FixedStorePage(source: RangeSource, store: Store, options: RangeOptions, scan: Scan, pageSize: int)
    requires Serves(source) && scan.Going() && scan.cursor.Some?
    requires Remaining(options, scan.emitted, scan.cursor.value) && OnTrack(scan, Wanted(store, options))
    ensures var next := Advance(source, store, scan, pageSize);
      OnTrack(next, Wanted(store, options)) && (next.cursor.Some? ==> |next.emitted| > |scan.emitted|)
  {
    var cursor, all := scan.cursor.value, RangeEntries(store, options);
    var page, limit := ReadPage(source, store, cursor, pageSize), PageLimit(cursor, pageSize);
    LimitedIsPrefix(all, options.limit);
    FixedRead(source, store, options, cursor, scan.emitted, limit);
    TakesOn(all, options.limit, scan.emitted, page.entries, cursor, limit);
    assert Advance(source, store, scan, pageSize) == Extend(scan, page);
  }

  lemma PageOfRest(store: Store, list: seq<Key>, m: nat, limit: int)
    requires m <= |list| && limit >= 1 && forall k | k in list :: k in store
    ensures Entries(store, list)[..m] + Entries(store, Take(list[m..], limit)) == Take(Entries(store, list), m + limit)
  {
  }

  /** A scan that has read `n` pages is on track, and each of them showed something. */
  ghost predicate OnTrackAfter(scan: Scan, wanted: seq<Entry>, n: nat) {
    OnTrack(scan, wanted) && (scan.cursor.Some? ==> n <= |scan.emitted|)
  }

  lemma FixedStoreNext(source: RangeSource, store: Store, options: RangeOptions, scan: Scan, pageSize: int, n: nat)
    requires Serves(source) && scan.Going() && InOrder(options, scan)
    requires OnTrackAfter(scan, Wanted(store, options), n)
    ensures OnTrackAfter(Advance(source, store, scan, pageSize), Wanted(store, options), n + 1)
  {
    if scan.cursor.Some? {
      FixedStorePage(source, store, options, scan, pageSize);
    }
  }

  /** On a store nobody writes to, after any number of pages of any size: what was
      emitted starts the first `limit` entries of the range in scan order, it is all
      of them once the cursor is gone, and each further page shows at least one. */
  lemma {:induction false} FixedStoreScan(source: RangeSource, stores: nat -> Store, store: Store,
                                          options: RangeOptions, pageSize: int, n: nat)
    requires Serves(source) && Fixed(stores, store)
    ensures OnTrackAfter(ScanAfter(source, stores, options, pageSize, n), Wanted(store, options), n)
  {
    if n > 0 {
      FixedStoreScan(source, stores, store, options, pageSize, n - 1);
      ScanStaysOrdered(source, stores, options, pageSize, n - 1);
      assert stores(n - 1) == store;
      FixedStoreNext(source, store, options, ScanAfter(source, stores, options, pageSize, n - 1), pageSize, n - 1);
    }
  }

  /** So the scan ends, with exactly those entries, within one page more than there
      are entries. */
  lemma FixedStoreScanEnds(source: RangeSource, stores: nat -> Store, store: Store, options: RangeOptions,
                           pageSize: int)
    requires Serves(source) && Fixed(stores, store)
    ensures ScanAfter(source, stores, options, pageSize, |Wanted(store, options)| + 1)
            == Scan(Wanted(store, options), None)
  {
    FixedStoreScan(source, stores, store, options, pageSize, |Wanted(store, options)| + 1);
  }
}
