/**
  Least-recently-used eviction by modification time, bounded by count and by bytes:
  `_iter_entries` and `_evict` (engine/simplicio_cache.py).
 */
module Eviction {
  import opened Wrappers

  datatype Record = Record(status: int, headers: map<string, string>, bodyHex: string)

  /** A file of the cache: its text, its length and its modification time. */
  datatype Entry = Entry(record: Record, size: nat, mtime: int)

  type Files = map<string, Entry>

  datatype Limits = Limits(entries: int, bytes: int)

  datatype Item = Item(key: string, mtime: int, size: nat)

  /** A directory names each file once, in any order. */
  type Order = order: seq<string> | Distinct(order) witness []

  /** The entries a walk in this order finds; a file that cannot be read is passed over. */
  function Listing(order: seq<string>, files: Files): seq<Item> {
    if order == [] then []
    else (if order[0] in files then [Item(order[0], files[order[0]].mtime, files[order[0]].size)] else [])
         + Listing(order[1..], files)
  }

  predicate Covers(order: seq<string>, files: Files) {
    forall k | k in files :: k in order
  }

  function Total(items: seq<Item>): nat {
    if items == [] then 0 else items[0].size + Total(items[1..])
  }

  predicate Fits(count: int, total: int, limits: Limits) {
    count <= limits.entries && total <= limits.bytes
  }

  predicate AllFit(items: seq<Item>, limits: Limits) {
    Fits(|items|, Total(items), limits)
  }

  function Keys(items: seq<Item>): set<string> {
    set i | 0 <= i < |items| :: items[i].key
  }

  // ---- sorting by time --------------------------------------------------------------------

  function InsertByTime(x: Item, items: seq<Item>): seq<Item> {
    if items == [] || x.mtime <= items[0].mtime then [x] + items
    else [items[0]] + InsertByTime(x, items[1..])
  }

  /** Oldest first; entries of the same time stay in listing order. */
  function ByTime(items: seq<Item>): seq<Item> {
    if items == [] then [] else InsertByTime(items[0], ByTime(items[1..]))
  }

  predicate InTimeOrder(items: seq<Item>) {
    forall i, j | 0 <= i < j < |items| :: items[i].mtime <= items[j].mtime
  }

  lemma {:induction false} InsertIsPermutation(x: Item, items: seq<Item>)
    ensures multiset(InsertByTime(x, items)) == multiset{x} + multiset(items)
  {
    if items != [] && x.mtime > items[0].mtime {
      InsertIsPermutation(x, items[1..]);
      assert items == [items[0]] + items[1..];
    }
  }

  lemma {:induction false} InsertTotals(x: Item, items: seq<Item>)
    ensures |InsertByTime(x, items)| == 1 + |items|
    ensures Total(InsertByTime(x, items)) == x.size + Total(items)
  {
    if items == [] || x.mtime <= items[0].mtime {
      assert ([x] + items)[1..] == items;
    } else {
      InsertTotals(x, items[1..]);
      assert InsertByTime(x, items)[1..] == InsertByTime(x, items[1..]);
    }
  }

  predicate AllSince(items: seq<Item>, time: int) {
    forall i | 0 <= i < |items| :: time <= items[i].mtime
  }

  lemma {:induction false} InsertSince(x: Item, items: seq<Item>, time: int)
    requires time <= x.mtime && AllSince(items, time)
    ensures AllSince(InsertByTime(x, items), time)
  {
    if items != [] && x.mtime > items[0].mtime {
      InsertSince(x, items[1..], time);
    }
  }

  lemma {:induction false} InsertInOrder(x: Item, items: seq<Item>)
    requires InTimeOrder(items)
    ensures InTimeOrder(InsertByTime(x, items))
  {
    if items != [] && x.mtime > items[0].mtime {
      InsertInOrder(x, items[1..]);
      InsertSince(x, items[1..], items[0].mtime);
    }
  }

  lemma {:induction false} ByTimeIsSorting(items: seq<Item>)
    ensures InTimeOrder(ByTime(items)) && multiset(ByTime(items)) == multiset(items)
  {
    if items != [] {
      ByTimeIsSorting(items[1..]);
      InsertIsPermutation(items[0], ByTime(items[1..]));
      InsertInOrder(items[0], ByTime(items[1..]));
      assert items == [items[0]] + items[1..];
    }
  }

  lemma {:induction false} ByTimeTotals(items: seq<Item>)
    ensures |ByTime(items)| == |items| && Total(ByTime(items)) == Total(items)
  {
    if items != [] {
      ByTimeTotals(items[1..]);
      InsertTotals(items[0], ByTime(items[1..]));
    }
  }

  // ---- the loop ---------------------------------------------------------------------------

  /** How many entries the loop tries to unlink before both bounds hold. */
  function Cut(items: seq<Item>, fails: set<string>, count: int, total: int, limits: Limits): (k: nat)
    ensures k <= |items|
  {
    if items == [] || Fits(count, total, limits) then 0
    else if items[0].key in fails then 1 + Cut(items[1..], fails, count, total, limits)
    else 1 + Cut(items[1..], fails, count - 1, total - items[0].size, limits)
  }

  /** The entries whose unlink fails stay. */
  function Stuck(items: seq<Item>, fails: set<string>): seq<Item> {
    if items == [] then []
    else (if items[0].key in fails then [items[0]] else []) + Stuck(items[1..], fails)
  }

  /** What the loop counts after trying the first `k` entries. */
  function After(items: seq<Item>, fails: set<string>, k: nat): seq<Item>
    requires k <= |items|
  {
    Stuck(items[..k], fails) + items[k..]
  }

  function Queue(files: Files, order: Order): seq<Item> {
    ByTime(Listing(order, files))
  }

  function Tried(files: Files, order: Order, fails: set<string>, limits: Limits): (tried: seq<Item>)
    ensures tried <= Queue(files, order)
  {
    var listed, queue := Listing(order, files), Queue(files, order);
    queue[..Cut(queue, fails, |listed|, Total(listed), limits)]
  }

  function Without(files: Files, items: seq<Item>, fails: set<string>): (rest: Files)
    ensures forall k | k in rest :: k in files && rest[k] == files[k]
  {
    files - (Keys(items) - fails)
  }

  function Evicted(files: Files, order: Order, fails: set<string>, limits: Limits): (rest: Files)
    ensures forall k | k in rest :: k in files && rest[k] == files[k]
  {
    Without(files, Tried(files, order, fails, limits), fails)
  }

  lemma KeysOfAppend(items: seq<Item>, x: Item)
    ensures Keys(items + [x]) == Keys(items) + {x.key}
  {
    var all := items + [x];
    forall k | k in Keys(items) + {x.key} ensures k in Keys(all) {
      if k in Keys(items) {
        var i :| 0 <= i < |items| && items[i].key == k;
        assert all[i].key == k;
      } else {
        assert all[|items|].key == k;
      }
    }
  }

  lemma WithoutNext(files: Files, queue: seq<Item>, i: nat, fails: set<string>)
    requires i < |queue|
    ensures var rest := Without(files, queue[..i], fails);
            Without(files, queue[..i + 1], fails) == if queue[i].key in fails then rest else rest - {queue[i].key}
  {
    assert queue[..i + 1] == queue[..i] + [queue[i]];
    KeysOfAppend(queue[..i], queue[i]);
  }

  /** Where the loop stands after `i` rounds. */
  predicate Reached(files: Files, queue: seq<Item>, fails: set<string>, limits: Limits,
                    i: nat, count: int, total: int, rest: Files)
  {
    && i <= |queue|
    && i + Cut(queue[i..], fails, count, total, limits) == Cut(queue, fails, |queue|, Total(queue), limits)
    && rest == Without(files, queue[..i], fails)
  }

  lemma ReachedAtFirst(files: Files, queue: seq<Item>, fails: set<string>, limits: Limits)
    ensures Reached(files, queue, fails, limits, 0, |queue|, Total(queue), files)
  {
    assert queue[0..] == queue && Keys(queue[..0]) == {};
  }

  /** One round of the loop: the next entry goes unless its unlink fails. */
  lemma ReachedNext(files: Files, queue: seq<Item>, fails: set<string>, limits: Limits,
                    i: nat, count: int, total: int, rest: Files)
    requires Reached(files, queue, fails, limits, i, count, total, rest)
    requires i < |queue| && !Fits(count, total, limits)
    ensures queue[i].key in fails ==> Reached(files, queue, fails, limits, i + 1, count, total, rest)
    ensures queue[i].key !in fails ==> Reached(files, queue, fails, limits, i + 1, count - 1,
                                               total - queue[i].size, rest - {queue[i].key})
  {
    assert queue[i..][1..] == queue[i + 1..];
    WithoutNext(files, queue, i, fails);
  }

  lemma ReachedAtLast(files: Files, order: Order, fails: set<string>, limits: Limits,
                      i: nat, count: int, total: int, rest: Files)
    requires Reached(files, Queue(files, order), fails, limits, i, count, total, rest)
    requires i == |Queue(files, order)| || Fits(count, total, limits)
    ensures rest == Evicted(files, order, fails, limits)
  {
    ByTimeTotals(Listing(order, files));
  }

  // ---- when the loop stops ----------------------------------------------------------------

  lemma {:induction false} TotalOfAppend(a: seq<Item>, b: seq<Item>)
    ensures Total(a + b) == Total(a) + Total(b)
  {
    if a == [] {
      assert a + b == b;
    } else {
      assert (a + b)[1..] == a[1..] + b;
      TotalOfAppend(a[1..], b);
    }
  }

  lemma AfterStep(items: seq<Item>, fails: set<string>, k: nat)
    requires 0 < k <= |items|
    ensures After(items, fails, k)
         == (if items[0].key in fails then [items[0]] else []) + After(items[1..], fails, k - 1)
  {
    assert items[..k][1..] == items[1..][..k - 1];
    assert items[k..] == items[1..][k - 1..];
  }

  predicate AfterFits(items: seq<Item>, fails: set<string>, k: nat, count: int, total: int, limits: Limits)
    requires k <= |items|
  {
    var left := After(items, fails, k);
    Fits(count - |items| + |left|, total - Total(items) + Total(left), limits)
  }

  lemma AfterFitsStep(items: seq<Item>, fails: set<string>, k: nat, count: int, total: int, limits: Limits)
    requires 0 < k <= |items|
    ensures AfterFits(items, fails, k, count, total, limits)
        <==> (if items[0].key in fails then AfterFits(items[1..], fails, k - 1, count, total, limits)
              else AfterFits(items[1..], fails, k - 1, count - 1, total - items[0].size, limits))
  {
    AfterStep(items, fails, k);
    var tail := After(items[1..], fails, k - 1);
    TotalOfAppend([items[0]], tail);
    assert [] + tail == tail;
  }

  /** The loop tries the oldest entries, none while both bounds hold, until they hold or none is left. */
  lemma {:induction false} CutIsLeast(items: seq<Item>, fails: set<string>, count: int, total: int, limits: Limits)
    ensures var k := Cut(items, fails, count, total, limits);
            && (k == |items| || AfterFits(items, fails, k, count, total, limits))
            && forall j | 0 <= j < k :: !AfterFits(items, fails, j, count, total, limits)
  {
    var k := Cut(items, fails, count, total, limits);
    assert After(items, fails, 0) == items by {
      assert items[..0] == [] && items[0..] == items;
    }
    if items != [] && !Fits(count, total, limits) {
      var stuck := items[0].key in fails;
      var count', total' := if stuck then count else count - 1, if stuck then total else total - items[0].size;
      CutIsLeast(items[1..], fails, count', total', limits);
      AfterFitsStep(items, fails, k, count, total, limits);
      forall j | 0 <= j < k ensures !AfterFits(items, fails, j, count, total, limits) {
        if j > 0 {
          AfterFitsStep(items, fails, j, count, total, limits);
        }
      }
    }
  }

  /** Main result: eviction tries a least prefix of the entries from the least recently used on.
      Before each attempt a bound is broken; at the end both hold, or every entry was tried. */
  lemma EvictionIsExact(files: Files, order: Order, fails: set<string>, limits: Limits)
    ensures var queue, k := Queue(files, order), |Tried(files, order, fails, limits)|;
            && InTimeOrder(queue) && multiset(queue) == multiset(Listing(order, files))
            && Evicted(files, order, fails, limits) == Without(files, queue[..k], fails)
            && (k == |queue| || AllFit(After(queue, fails, k), limits))
            && forall j | 0 <= j < k :: !AllFit(After(queue, fails, j), limits)
  {
    var listed, queue := Listing(order, files), Queue(files, order);
    ByTimeIsSorting(listed);
    ByTimeTotals(listed);
    CutIsLeast(queue, fails, |listed|, Total(listed), limits);
    assert forall j | 0 <= j <= |queue| ::
      AfterFits(queue, fails, j, |listed|, Total(listed), limits) == AllFit(After(queue, fails, j), limits);
  }

  lemma {:induction false} NoneStuck(items: seq<Item>)
    ensures Stuck(items, {}) == []
  {
    if items != [] {
      NoneStuck(items[1..]);
    }
  }

  lemma AfterWithoutFailure(items: seq<Item>, k: nat)
    requires k <= |items|
    ensures After(items, {}, k) == items[k..]
  {
    NoneStuck(items[..k]);
  }

  lemma WithoutFailure(files: Files, items: seq<Item>)
    ensures Without(files, items, {}) == files - Keys(items)
  {
    assert Keys(items) - {} == Keys(items);
  }

  /** Main result: when every unlink succeeds, what survives of the entries is the longest suffix,
      from the most recently used back, that meets both bounds. */
  lemma SurvivorsAreTheLongestSuffix(files: Files, order: Order, limits: Limits)
    ensures var queue, k := Queue(files, order), |Tried(files, order, {}, limits)|;
            && Evicted(files, order, {}, limits) == files - Keys(queue[..k])
            && (k == |queue| || AllFit(queue[k..], limits))
            && forall j | 0 <= j < k :: !AllFit(queue[j..], limits)
  {
    EvictionIsExact(files, order, {}, limits);
    var queue, k := Queue(files, order), |Tried(files, order, {}, limits)|;
    AfterWithoutFailure(queue, k);
    WithoutFailure(files, queue[..k]);
    forall j | 0 <= j < k ensures !AllFit(queue[j..], limits) {
      AfterWithoutFailure(queue, j);
    }
  }

  // ---- in terms of files ------------------------------------------------------------------

  function ItemOf(files: Files, key: string): Item
    requires key in files
  {
    Item(key, files[key].mtime, files[key].size)
  }

  lemma {:induction false} ListingIsExact(order: seq<string>, files: Files, x: Item)
    ensures x in Listing(order, files) <==> x.key in order && x.key in files && x == ItemOf(files, x.key)
  {
    if order != [] {
      ListingIsExact(order[1..], files, x);
    }
  }

  predicate DistinctKeys(items: seq<Item>) {
    forall i, j | 0 <= i < j < |items| :: items[i].key != items[j].key
  }

  lemma {:induction false} ListingIsDistinct(order: seq<string>, files: Files)
    requires Distinct(order)
    ensures DistinctKeys(Listing(order, files))
  {
    if order != [] {
      ListingIsDistinct(order[1..], files);
      forall x | x in Listing(order[1..], files) ensures x.key != order[0] {
        ListingIsExact(order[1..], files, x);
      }
    }
  }

  lemma {:induction false} InsertMembers(x: Item, items: seq<Item>, y: Item)
    ensures y in InsertByTime(x, items) <==> y == x || y in items
  {
    if items != [] && x.mtime > items[0].mtime {
      InsertMembers(x, items[1..], y);
      assert items == [items[0]] + items[1..];
    }
  }

  lemma {:induction false} InsertIsDistinct(x: Item, items: seq<Item>)
    requires DistinctKeys(items) && forall y | y in items :: y.key != x.key
    ensures DistinctKeys(InsertByTime(x, items))
  {
    if items != [] && x.mtime > items[0].mtime {
      var rest := InsertByTime(x, items[1..]);
      InsertIsDistinct(x, items[1..]);
      forall i | 0 <= i < |rest| ensures rest[i].key != items[0].key {
        InsertMembers(x, items[1..], rest[i]);
      }
    }
  }

  lemma {:induction false} ByTimeIsDistinct(items: seq<Item>)
    requires DistinctKeys(items)
    ensures DistinctKeys(ByTime(items))
    ensures forall y :: y in ByTime(items) <==> y in items
  {
    if items != [] {
      ByTimeIsDistinct(items[1..]);
      assert items == [items[0]] + items[1..];
      InsertIsDistinct(items[0], ByTime(items[1..]));
      forall y ensures y in ByTime(items) <==> y in items {
        InsertMembers(items[0], ByTime(items[1..]), y);
      }
    }
  }

  lemma QueueIsDistinct(files: Files, order: Order)
    ensures DistinctKeys(Queue(files, order))
  {
    ListingIsDistinct(order, files);
    ByTimeIsDistinct(Listing(order, files));
  }

  lemma QueueFacts(files: Files, order: Order)
    ensures DistinctKeys(Queue(files, order)) && InTimeOrder(Queue(files, order))
    ensures forall x :: x in Queue(files, order)
                   <==> x.key in order && x.key in files && x == ItemOf(files, x.key)
  {
    ListingIsDistinct(order, files);
    ByTimeIsDistinct(Listing(order, files));
    ByTimeIsSorting(Listing(order, files));
    forall x ensures x in Queue(files, order)
                <==> x.key in order && x.key in files && x == ItemOf(files, x.key) {
      ListingIsExact(order, files, x);
    }
  }

  lemma {:induction false} ListingOfOthers(order: seq<string>, files: Files, key: string)
    requires key !in order
    ensures Listing(order, files - {key}) == Listing(order, files)
  {
    if order != [] {
      ListingOfOthers(order[1..], files, key);
    }
  }

  lemma {:induction false} ListingWithout(order: seq<string>, files: Files, key: string)
    requires Distinct(order) && key in order && key in files
    ensures |Listing(order, files - {key})| == |Listing(order, files)| - 1
    ensures Total(Listing(order, files - {key})) == Total(Listing(order, files)) - files[key].size
  {
    var rest := files - {key};
    TotalOfFirst(order, files);
    TotalOfFirst(order, rest);
    if order[0] == key {
      ListingOfOthers(order[1..], files, key);
    } else {
      ListingWithout(order[1..], files, key);
    }
  }

  lemma TotalOfFirst(order: seq<string>, files: Files)
    requires order != []
    ensures Total(Listing(order, files))
         == (if order[0] in files then files[order[0]].size else 0) + Total(Listing(order[1..], files))
  {
    if order[0] in files {
      TotalOfAppend([ItemOf(files, order[0])], Listing(order[1..], files));
    } else {
      assert Listing(order, files) == Listing(order[1..], files);
    }
  }

  predicate SameTotals(a: seq<Item>, b: seq<Item>) {
    |a| == |b| && Total(a) == Total(b)
  }

  lemma {:induction false} StuckOfAppend(items: seq<Item>, x: Item, fails: set<string>)
    ensures Stuck(items + [x], fails) == Stuck(items, fails) + if x.key in fails then [x] else []
  {
    if items == [] {
      assert [] + [x] == [x];
    } else {
      assert (items + [x])[1..] == items[1..] + [x];
      StuckOfAppend(items[1..], x, fails);
      Regroup(if items[0].key in fails then [items[0]] else [], Stuck(items[1..], fails),
              if x.key in fails then [x] else []);
    }
  }

  lemma AfterNext(items: seq<Item>, fails: set<string>, k: nat)
    requires k < |items|
    ensures var now, next := After(items, fails, k), After(items, fails, k + 1);
            if items[k].key in fails then next == now
            else |next| == |now| - 1 && Total(next) == Total(now) - items[k].size
  {
    var stuck, x, rest := Stuck(items[..k], fails), items[k], items[k + 1..];
    assert items[..k + 1] == items[..k] + [x] && items[k..] == [x] + rest;
    StuckOfAppend(items[..k], x, fails);
    if x.key in fails {
      Regroup(stuck, [x], rest);
    } else {
      assert stuck + [] + rest == stuck + rest;
      TotalOfAppend(stuck, [x] + rest);
      TotalOfAppend([x], rest);
      TotalOfAppend(stuck, rest);
    }
  }

  lemma KeyOfPrefix(items: seq<Item>, k: nat, i: nat)
    requires DistinctKeys(items) && k <= |items| && i < |items|
    ensures items[i].key in Keys(items[..k]) <==> i < k
  {
    if i < k {
      assert items[..k][i].key in Keys(items[..k]);
    }
  }

  lemma AfterListingNext(files: Files, order: Order, fails: set<string>, k: nat)
    requires k < |Queue(files, order)|
    requires SameTotals(After(Queue(files, order), fails, k),
                        Listing(order, Without(files, Queue(files, order)[..k], fails)))
    ensures SameTotals(After(Queue(files, order), fails, k + 1),
                       Listing(order, Without(files, Queue(files, order)[..k + 1], fails)))
  {
    var queue := Queue(files, order);
    var x, rest := queue[k], Without(files, queue[..k], fails);
    AfterNext(queue, fails, k);
    WithoutNext(files, queue, k, fails);
    NextIsThere(files, order, k);
    if x.key !in fails {
      ListingWithout(order, rest, x.key);
    }
  }

  lemma NextIsThere(files: Files, order: Order, k: nat)
    requires k < |Queue(files, order)|
    ensures var queue := Queue(files, order);
            && queue[k].key in order && queue[k].key in files && queue[k] == ItemOf(files, queue[k].key)
            && queue[k].key !in Keys(queue[..k])
  {
    var queue := Queue(files, order);
    QueueFacts(files, order);
    assert queue[k] in queue;
    KeyOfPrefix(queue, k, k);
  }

  /** The counters of the loop are exact: they count the entries that are still there. */
  lemma {:induction false} AfterIsTheListing(files: Files, order: Order, fails: set<string>, k: nat)
    requires k <= |Queue(files, order)|
    ensures SameTotals(After(Queue(files, order), fails, k),
                       Listing(order, Without(files, Queue(files, order)[..k], fails)))
  {
    if k == 0 {
      var queue := Queue(files, order);
      ByTimeTotals(Listing(order, files));
      assert After(queue, fails, 0) == queue;
      assert Without(files, queue[..0], fails) == files;
    } else {
      AfterIsTheListing(files, order, fails, k - 1);
      AfterListingNext(files, order, fails, k - 1);
    }
  }

  /** Main result: whatever unlinks fail, at the end both bounds hold of the entries that are left, or
      each of them refused to go; and nothing was removed while both bounds held. */
  lemma EvictionEnds(files: Files, order: Order, fails: set<string>, limits: Limits)
    ensures var rest := Evicted(files, order, fails, limits);
            AllFit(Listing(order, rest), limits) || forall key | key in rest && key in order :: key in fails
    ensures AllFit(Listing(order, files), limits) ==> Evicted(files, order, fails, limits) == files
  {
    var queue, k := Queue(files, order), |Tried(files, order, fails, limits)|;
    EvictionIsExact(files, order, fails, limits);
    AfterIsTheListing(files, order, fails, k);
    if AllFit(Listing(order, files), limits) {
      ByTimeTotals(Listing(order, files));
      assert After(queue, fails, 0) == queue;
      assert Keys(queue[..0]) == {};
    }
    QueueFacts(files, order);
    if k == |queue| {
      assert queue[..k] == queue;
      forall key | key in Evicted(files, order, fails, limits) && key in order ensures key in fails {
        AllAreTried(files, order, key);
      }
    }
  }

  lemma AllAreTried(files: Files, order: Order, key: string)
    requires key in files && key in order
    ensures key in Keys(Queue(files, order))
  {
    QueueFacts(files, order);
    assert ItemOf(files, key) in Queue(files, order);
  }

  /** Main result: eviction is by least recent use. A removed entry is no newer than any entry
      that stays and could have been removed. */
  lemma EvictionIsLru(files: Files, order: Order, fails: set<string>, limits: Limits, gone: string, left: string)
    requires var rest := Evicted(files, order, fails, limits);
             gone in files && gone !in rest && left in rest && left in order && left !in fails
    ensures gone in order && gone !in fails && files[gone].mtime <= files[left].mtime
  {
    var queue, tried := Queue(files, order), Tried(files, order, fails, limits);
    QueueFacts(files, order);
    assert ItemOf(files, left) in queue;
    var i :| 0 <= i < |tried| && tried[i].key == gone;
    var j :| 0 <= j < |queue| && queue[j] == ItemOf(files, left);
    assert queue[i] == tried[i] && queue[i] in queue;
    KeyOfPrefix(queue, |tried|, j);
  }

  // ---- which entries survive --------------------------------------------------------------

  /** Those no older than `time`, and those whose unlink fails. */
  function NotBefore(items: seq<Item>, time: int, fails: set<string>): seq<Item> {
    if items == [] then []
    else (if time <= items[0].mtime || items[0].key in fails then [items[0]] else [])
         + NotBefore(items[1..], time, fails)
  }

  /** What stands when the loop comes to `x`: `x`, the newer entries, those of the same time that are
      listed after it, and those whose unlink fails. */
  function Standing(items: seq<Item>, x: Item, fails: set<string>): seq<Item> {
    if items == [] then []
    else if items[0] == x then [x] + NotBefore(items[1..], x.mtime, fails)
    else (if x.mtime < items[0].mtime || items[0].key in fails then [items[0]] else [])
         + Standing(items[1..], x, fails)
  }

  /** The same read off the queue. */
  function FromOn(queue: seq<Item>, x: Item, fails: set<string>): seq<Item> {
    if queue == [] then []
    else if queue[0] == x then queue
    else (if queue[0].key in fails then [queue[0]] else []) + FromOn(queue[1..], x, fails)
  }

  lemma MaybeFirst(c: bool, y: Item, rest: seq<Item>)
    ensures var s := (if c then [y] else []) + rest;
            |s| == (if c then 1 else 0) + |rest| && Total(s) == (if c then y.size else 0) + Total(rest)
  {
    if c {
      assert ([y] + rest)[1..] == rest;
    } else {
      assert [] + rest == rest;
    }
  }

  lemma {:induction false} AllNotBefore(items: seq<Item>, time: int, fails: set<string>)
    requires AllSince(items, time)
    ensures NotBefore(items, time, fails) == items
  {
    if items != [] {
      AllNotBefore(items[1..], time, fails);
    }
  }

  lemma {:induction false} NotBeforeOfInsert(h: Item, queue: seq<Item>, time: int, fails: set<string>)
    ensures SameTotals(NotBefore(InsertByTime(h, queue), time, fails), NotBefore([h] + queue, time, fails))
  {
    var c := time <= h.mtime || h.key in fails;
    assert ([h] + queue)[1..] == queue;
    MaybeFirst(c, h, NotBefore(queue, time, fails));
    if queue != [] && h.mtime > queue[0].mtime {
      var rest := queue[1..];
      NotBeforeOfInsert(h, rest, time, fails);
      assert ([h] + rest)[1..] == rest && InsertByTime(h, queue)[1..] == InsertByTime(h, rest);
      var d := time <= queue[0].mtime || queue[0].key in fails;
      MaybeFirst(d, queue[0], NotBefore(InsertByTime(h, rest), time, fails));
      MaybeFirst(d, queue[0], NotBefore(rest, time, fails));
      MaybeFirst(c, h, NotBefore(rest, time, fails));
    }
  }

  lemma {:induction false} NotBeforeOfSorted(items: seq<Item>, time: int, fails: set<string>)
    ensures SameTotals(NotBefore(ByTime(items), time, fails), NotBefore(items, time, fails))
  {
    if items != [] {
      var h, rest := items[0], items[1..];
      NotBeforeOfSorted(rest, time, fails);
      NotBeforeOfInsert(h, ByTime(rest), time, fails);
      assert ([h] + ByTime(rest))[1..] == ByTime(rest);
      MaybeFirst(time <= h.mtime || h.key in fails, h, NotBefore(ByTime(rest), time, fails));
      MaybeFirst(time <= h.mtime || h.key in fails, h, NotBefore(rest, time, fails));
    }
  }

  lemma {:induction false} FromOnInserted(x: Item, queue: seq<Item>, fails: set<string>)
    requires InTimeOrder(queue) && x !in queue
    ensures SameTotals(FromOn(InsertByTime(x, queue), x, fails), [x] + NotBefore(queue, x.mtime, fails))
  {
    MaybeFirst(true, x, NotBefore(queue, x.mtime, fails));
    if queue == [] || x.mtime <= queue[0].mtime {
      AllNotBefore(queue, x.mtime, fails);
      assert InsertByTime(x, queue)[0] == x;
    } else {
      var rest, c := queue[1..], queue[0].key in fails;
      FromOnInserted(x, rest, fails);
      assert InsertByTime(x, queue)[1..] == InsertByTime(x, rest);
      MaybeFirst(true, x, NotBefore(rest, x.mtime, fails));
      MaybeFirst(c, queue[0], FromOn(InsertByTime(x, rest), x, fails));
      MaybeFirst(c, queue[0], NotBefore(rest, x.mtime, fails));
    }
  }

  /** An entry inserted into the queue stands behind `x` if it is newer. */
  lemma {:induction false} FromOnOfInsert(h: Item, queue: seq<Item>, x: Item, fails: set<string>)
    requires InTimeOrder(queue) && x in queue && h != x
    ensures SameTotals(FromOn(InsertByTime(h, queue), x, fails),
                       (if x.mtime < h.mtime || h.key in fails then [h] else []) + FromOn(queue, x, fails))
  {
    var c := x.mtime < h.mtime || h.key in fails;
    MaybeFirst(c, h, FromOn(queue, x, fails));
    var i :| 0 <= i < |queue| && queue[i] == x;
    assert queue[0].mtime <= x.mtime;
    if h.mtime <= queue[0].mtime {
      assert InsertByTime(h, queue)[1..] == queue;
    } else {
      var rest, d := queue[1..], queue[0].key in fails;
      assert InsertByTime(h, queue)[1..] == InsertByTime(h, rest);
      if queue[0] == x {
        InsertTotals(h, queue);
      } else {
        assert rest[i - 1] == x;
        FromOnOfInsert(h, rest, x, fails);
        MaybeFirst(c, h, FromOn(rest, x, fails));
        MaybeFirst(d, queue[0], FromOn(InsertByTime(h, rest), x, fails));
        MaybeFirst(d, queue[0], FromOn(rest, x, fails));
      }
    }
  }

  lemma {:induction false} StandingIsFromOn(items: seq<Item>, x: Item, fails: set<string>)
    requires x in items && DistinctKeys(items)
    ensures SameTotals(FromOn(ByTime(items), x, fails), Standing(items, x, fails))
  {
    var h, rest := items[0], items[1..];
    var queue := ByTime(rest);
    assert items == [h] + rest;
    ByTimeIsSorting(rest);
    ByTimeIsDistinct(rest);
    if h == x {
      FromOnInserted(x, queue, fails);
      NotBeforeOfSorted(rest, x.mtime, fails);
      MaybeFirst(true, x, NotBefore(queue, x.mtime, fails));
      MaybeFirst(true, x, NotBefore(rest, x.mtime, fails));
    } else {
      var c := x.mtime < h.mtime || h.key in fails;
      StandingIsFromOn(rest, x, fails);
      FromOnOfInsert(h, queue, x, fails);
      MaybeFirst(c, h, FromOn(queue, x, fails));
      MaybeFirst(c, h, Standing(rest, x, fails));
    }
  }

  lemma {:induction false} FromOnIsAfter(queue: seq<Item>, x: Item, fails: set<string>, p: nat)
    requires p < |queue| && queue[p] == x && forall i | 0 <= i < p :: queue[i] != x
    ensures FromOn(queue, x, fails) == After(queue, fails, p)
  {
    if p > 0 {
      FromOnIsAfter(queue[1..], x, fails, p - 1);
      AfterStep(queue, fails, p);
    } else {
      assert After(queue, fails, 0) == queue;
    }
  }

  lemma {:induction false} AfterShrinks(items: seq<Item>, fails: set<string>, k: nat, p: nat)
    requires k <= p <= |items|
    ensures |After(items, fails, p)| <= |After(items, fails, k)|
    ensures Total(After(items, fails, p)) <= Total(After(items, fails, k))
    decreases p - k
  {
    if k < p {
      AfterNext(items, fails, k);
      AfterShrinks(items, fails, k + 1, p);
    }
  }

  lemma PlaceInQueue(files: Files, order: Order, key: string) returns (p: nat)
    requires key in files && key in order
    ensures p < |Queue(files, order)| && Queue(files, order)[p] == ItemOf(files, key)
    ensures forall i | 0 <= i < p :: Queue(files, order)[i] != ItemOf(files, key)
  {
    QueueFacts(files, order);
    assert ItemOf(files, key) in Queue(files, order);
    p :| p < |Queue(files, order)| && Queue(files, order)[p] == ItemOf(files, key);
  }

  /** The entry is reached exactly if what stands before it is tried does not fit. */
  lemma ReachedIff(files: Files, order: Order, fails: set<string>, limits: Limits, p: nat)
    requires p < |Queue(files, order)|
    ensures |Tried(files, order, fails, limits)| <= p <==> AllFit(After(Queue(files, order), fails, p), limits)
  {
    var queue, k := Queue(files, order), |Tried(files, order, fails, limits)|;
    EvictionIsExact(files, order, fails, limits);
    if k <= p {
      AfterShrinks(queue, fails, k, p);
    }
  }

  /** Main result: for any times and any failing unlinks, an entry survives exactly if the walk does not
      see it, its unlink fails, or it fits together with all that stands when the loop comes to it. */
  lemma SurvivesIff(files: Files, order: Order, fails: set<string>, limits: Limits, key: string)
    requires key in files
    ensures key in Evicted(files, order, fails, limits)
       <==> key !in order || key in fails || AllFit(Standing(Listing(order, files), ItemOf(files, key), fails), limits)
  {
    if key in order {
      var listed, queue, x := Listing(order, files), Queue(files, order), ItemOf(files, key);
      var p := PlaceInQueue(files, order, key);
      ListingIsDistinct(order, files);
      ListingIsExact(order, files, x);
      StandingIsFromOn(listed, x, fails);
      FromOnIsAfter(queue, x, fails, p);
      ReachedIff(files, order, fails, limits, p);
      QueueIsDistinct(files, order);
      KeyOfPrefix(queue, |Tried(files, order, fails, limits)|, p);
    } else {
      QueueFacts(files, order);
      forall i | 0 <= i < |Queue(files, order)| ensures Queue(files, order)[i].key != key {
        assert Queue(files, order)[i] in Queue(files, order);
      }
    }
  }

  lemma {:induction false} NoneNotBefore(items: seq<Item>, time: int)
    requires forall y | y in items :: y.mtime < time
    ensures NotBefore(items, time, {}) == []
  {
    if items != [] {
      NoneNotBefore(items[1..], time);
    }
  }

  lemma {:induction false} NewestStandsAlone(items: seq<Item>, x: Item)
    requires DistinctKeys(items) && x in items && forall y | y in items && y != x :: y.mtime < x.mtime
    ensures Standing(items, x, {}) == [x]
  {
    var rest := items[1..];
    assert items == [items[0]] + rest;
    if items[0] == x {
      NoneNotBefore(rest, x.mtime);
    } else {
      NewestStandsAlone(rest, x);
    }
  }

  lemma TotalOfOne(x: Item)
    ensures Total([x]) == x.size
  {
  }

  /** In particular, when every unlink succeeds, the newest entry survives exactly if it fits on its own. */
  lemma NewestSurvives(files: Files, order: Order, limits: Limits, key: string)
    requires key in files && key in order && forall k | k in files && k != key :: files[k].mtime < files[key].mtime
    ensures key in Evicted(files, order, {}, limits) <==> Fits(1, files[key].size, limits)
  {
    var items, x := Listing(order, files), ItemOf(files, key);
    ListingIsDistinct(order, files);
    forall y: Item ensures y in items ==> y == x || y.mtime < x.mtime {
      ListingIsExact(order, files, y);
    }
    ListingIsExact(order, files, x);
    NewestStandsAlone(items, x);
    TotalOfOne(x);
    SurvivesIff(files, order, {}, limits, key);
  }
}
