/**
  The response cache (engine/simplicio_cache.py): entries on disk, bounded by count and bytes,
  with reads, writes and unlinks that may fail.
 */
module Cache {
  import opened Wrappers
  import opened Hex
  import opened Eviction

  datatype Response = Response(status: int, headers: map<string, string>, body: seq<Byte>)

  /** Whether the statistics file can be read and written. */
  datatype StatsIo = StatsIo(readable: bool, writable: bool)

  datatype State = State(files: Files, hits: nat, misses: nat)

  /** An operation with everything it does not decide itself: the time, the stored size, what the
      file system refuses and the order in which it lists the entries. */
  datatype Op =
    | Put(key: string, response: Response, size: nat, time: int, stored: bool, order: Order, fails: set<string>)
    | Get(key: string, time: int, readable: bool, touched: bool, stats: StatsIo)
    | Clear(kept: set<string>, statsKept: bool)

  // ---- entries ----------------------------------------------------------------------------

  function Encode(r: Response): Record {
    Record(r.status, r.headers, ToHex(r.body))
  }

  /** A corrupt entry has no response. */
  function Decode(r: Record): Option<Response> {
    var body := FromHex(r.bodyHex);
    if body.None? then None else Some(Response(r.status, r.headers, body.value))
  }

  lemma EntryRoundTrip(r: Response)
    ensures Decode(Encode(r)) == Some(r)
  {
    HexRoundTrip(r.body);
  }

  function Lookup(files: Files, key: string): Option<Response> {
    if key in files then Decode(files[key].record) else None
  }

  // ---- what each operation does -----------------------------------------------------------

  function Counted(s: State, hit: bool, io: StatsIo): (r: State)
    ensures r.files == s.files
  {
    var hits, misses := if io.readable then s.hits else 0, if io.readable then s.misses else 0;
    if !io.writable then s
    else if hit then s.(hits := hits + 1, misses := misses)
    else s.(hits := hits, misses := misses + 1)
  }

  function Answer(files: Files, key: string, readable: bool): Option<Response> {
    if readable then Lookup(files, key) else None
  }

  /** Only a response that is no error and reaches the disk counts. */
  predicate Stores(op: Op) {
    op.Put? && op.response.status < 400 && op.stored
  }

  predicate Touches(op: Op) {
    op.Get? && op.readable && op.touched
  }

  function Stored(files: Files, op: Op): Files
    requires op.Put?
  {
    files[op.key := Entry(Encode(op.response), op.size, op.time)]
  }

  function Touched(files: Files, op: Op): Files
    requires op.Get?
  {
    if Touches(op) && Lookup(files, op.key).Some? then files[op.key := files[op.key].(mtime := op.time)] else files
  }

  function FilesAfter(files: Files, op: Op, limits: Limits): Files {
    match op
    case Put(_, _, _, _, _, order, fails) =>
      if Stores(op) then Evicted(Stored(files, op), order, fails, limits) else files
    case Get(_, _, _, _, _) => Touched(files, op)
    case Clear(kept, _) => map k | k in files && k in kept :: files[k]
  }

  function Apply(s: State, op: Op, limits: Limits): (r: State)
    ensures r.files == FilesAfter(s.files, op, limits)
  {
    var r := s.(files := FilesAfter(s.files, op, limits));
    match op
    case Put(_, _, _, _, _, _, _) => r
    case Get(key, _, readable, _, stats) => Counted(r, Answer(s.files, key, readable).Some?, stats)
    case Clear(_, statsKept) => if statsKept then r else r.(hits := 0, misses := 0)
  }

  const EMPTY := State(map[], 0, 0)

  /** The state after a run from an empty cache. */
  function Run(ops: seq<Op>, limits: Limits): State {
    if ops == [] then EMPTY else Apply(Run(ops[..|ops| - 1], limits), ops[|ops| - 1], limits)
  }

  // ---- the class --------------------------------------------------------------------------

  class ResponseCache {
    const limits: Limits
    var files: Files
    var hits: nat
    var misses: nat

    function Disk(): State
      reads this
    {
      State(files, hits, misses)
    }

    /** Opens the directory with what is in it. */
    constructor (limits: Limits, disk: State)
      ensures this.limits == limits && Disk() == disk
    {
      this.limits := limits;
      files, hits, misses := disk.files, disk.hits, disk.misses;
    }

    /** `_bump`: statistics that cannot be read count from zero. */
    method Bump(hit: bool, io: StatsIo)
      modifies this`hits, this`misses
      ensures Disk() == Counted(old(Disk()), hit, io)
      ensures io.writable ==> hits == (if io.readable then old(hits) else 0) + (if hit then 1 else 0)
      ensures io.writable ==> misses == (if io.readable then old(misses) else 0) + (if hit then 0 else 1)
      ensures !io.writable ==> hits == old(hits) && misses == old(misses)
    {
      var h, m := 0, 0;
      if io.readable {
        h, m := hits, misses;
      }
      if hit {
        h := h + 1;
      } else {
        m := m + 1;
      }
      if io.writable {
        hits, misses := h, m;
      }
    }

    method Get(key: string, time: int, readable: bool, touched: bool, stats: StatsIo)
        returns (r: Option<Response>)
      modifies this
      ensures r == Answer(old(files), key, readable)
      ensures Disk() == Apply(old(Disk()), Op.Get(key, time, readable, touched, stats), limits)
      ensures stats == StatsIo(true, true) ==> hits == old(hits) + (if r.Some? then 1 else 0)
      ensures stats == StatsIo(true, true) ==> misses == old(misses) + (if r.None? then 1 else 0)
      ensures files == if r.Some? && touched then old(files)[key := old(files)[key].(mtime := time)] else old(files)
    {
      if !readable || key !in files {
        Bump(false, stats);
        return None;
      }
      var record := files[key].record;
      var body := FromHex(record.bodyHex);
      if body.None? {
        Bump(false, stats);
        return None;
      }
      if touched {
        files := files[key := files[key].(mtime := time)];
      }
      Bump(true, stats);
      return Some(Response(record.status, record.headers, body.value));
    }

    method Put(key: string, status: int, headers: Option<map<string, string>>, body: Option<seq<Byte>>,
               size: nat, time: int, stored: bool, order: Order, fails: set<string>)
      modifies this`files
      ensures Disk() == Apply(old(Disk()),
                              Op.Put(key, Given(status, headers, body), size, time, stored, order, fails), limits)
      ensures status >= 400 || !stored ==> files == old(files)
      ensures status < 400 && stored ==>
                var r := Response(status, if headers.Some? then headers.value else map[],
                                  if body.Some? then body.value else []);
                files == Evicted(old(files)[key := Entry(Record(r.status, r.headers, ToHex(r.body)), size, time)],
                                 order, fails, limits)
    {
      if status >= 400 {
        return;
      }
      var record := Encode(Given(status, headers, body));
      if !stored {
        return;
      }
      files := files[key := Entry(record, size, time)];
      Evict(order, fails);
    }

    /** The loop stops as soon as both bounds hold and goes on past a failed unlink. */
    method Evict(order: Order, fails: set<string>)
      modifies this`files
      ensures files == Evicted(old(files), order, fails, limits)
    {
      var entries := Listing(order, files);
      var total: int := Total(entries);
      ghost var all := files;
      ByTimeTotals(entries);
      ReachedAtFirst(files, ByTime(entries), fails, limits);
      if Fits(|entries|, total, limits) {
        ReachedAtLast(files, order, fails, limits, 0, |entries|, total, files);
        return;
      }
      var queue := ByTime(entries);
      var count, i := |queue|, 0;
      while i < |queue|
        invariant Reached(all, queue, fails, limits, i, count, total, files)
      {
        if Fits(count, total, limits) {
          break;
        }
        ReachedNext(all, queue, fails, limits, i, count, total, files);
        if queue[i].key !in fails {
          files := files - {queue[i].key};
          count, total := count - 1, total - queue[i].size;
        }
        i := i + 1;
      }
      ReachedAtLast(all, order, fails, limits, i, count, total, files);
    }

    method Stats(order: Order, readable: bool) returns (entries: nat, bytes: nat, h: nat, m: nat)
      ensures entries == |Listing(order, files)| && bytes == Total(Listing(order, files))
      ensures h == (if readable then hits else 0) && m == (if readable then misses else 0)
    {
      entries, bytes := 0, 0;
      var listed, i := Listing(order, files), 0;
      while i < |listed|
        invariant 0 <= i <= |listed| && entries == i && bytes + Total(listed[i..]) == Total(listed)
      {
        entries, bytes := entries + 1, bytes + listed[i].size;
        assert listed[i..][1..] == listed[i + 1..];
        i := i + 1;
      }
      h, m := if readable then hits else 0, if readable then misses else 0;
    }

    /** Files that cannot be removed stay. */
    method Clear(kept: set<string>, statsKept: bool)
      modifies this
      ensures Disk() == Apply(old(Disk()), Op.Clear(kept, statsKept), limits)
      ensures files.Keys == old(files).Keys * kept && forall k | k in files :: files[k] == old(files)[k]
      ensures hits == (if statsKept then old(hits) else 0) && misses == (if statsKept then old(misses) else 0)
    {
      files := map k | k in files && k in kept :: files[k];
      if !statsKept {
        hits, misses := 0, 0;
      }
    }
  }

  function Given(status: int, headers: Option<map<string, string>>, body: Option<seq<Byte>>): Response {
    Response(status, if headers.Some? then headers.value else map[], if body.Some? then body.value else [])
  }

  // ---- the unbounded map ------------------------------------------------------------------

  /** The response of the last successful put of the key since the key was last cleared away. */
  function LastPut(ops: seq<Op>, key: string): Option<Response> {
    if ops == [] then None
    else
      var op, before := ops[|ops| - 1], ops[..|ops| - 1];
      if Stores(op) && op.key == key then Some(op.response)
      else if op.Clear? && key !in op.kept then None
      else LastPut(before, key)
  }

  /** The time of the last put of the key or touch by a read. */
  function LastUse(ops: seq<Op>, key: string): int {
    if ops == [] then 0
    else
      var op, before := ops[|ops| - 1], ops[..|ops| - 1];
      if (Stores(op) || Touches(op)) && op.key == key then op.time else LastUse(before, key)
  }

  /** What is on disk for a key is the last put response, stamped with the time of its last use. */
  predicate Holds(files: Files, ops: seq<Op>, key: string) {
    key in files ==> Lookup(files, key).Some? && Lookup(files, key) == LastPut(ops, key)
                     && files[key].mtime == LastUse(ops, key)
  }

  lemma {:induction false} RunIsFaithful(ops: seq<Op>, limits: Limits, key: string)
    ensures Holds(Run(ops, limits).files, ops, key)
  {
    if ops != [] {
      var op, before := ops[|ops| - 1], ops[..|ops| - 1];
      RunIsFaithful(before, limits, key);
      if op.Put? {
        EntryRoundTrip(op.response);
      }
    }
  }

  /** Main result: whatever was evicted or refused on the way, a hit is exactly the status, headers
      and bytes of the last successful put of that key since it was last cleared. */
  lemma HitIsTheLastPut(ops: seq<Op>, limits: Limits, key: string, readable: bool)
    ensures var answer := Answer(Run(ops, limits).files, key, readable);
            answer.Some? ==> answer == LastPut(ops, key)
    ensures readable && key in Run(ops, limits).files ==> Answer(Run(ops, limits).files, key, readable).Some?
  {
    RunIsFaithful(ops, limits, key);
  }

  lemma StoredHolds(ops: seq<Op>, op: Op, limits: Limits, key: string)
    requires Stores(op)
    ensures var all := Stored(Run(ops, limits).files, op); key in all ==> all[key].mtime == LastUse(ops + [op], key)
  {
    assert (ops + [op])[..|ops|] == ops;
    RunIsFaithful(ops, limits, key);
  }

  /** Main result: over any run, an entry that a put evicts was last used no later than any entry
      that stays and could have been evicted. */
  lemma EvictionIsByLastUse(ops: seq<Op>, op: Op, limits: Limits, gone: string, left: string)
    requires Stores(op) && (gone in Run(ops, limits).files || gone == op.key)
    requires gone !in Run(ops + [op], limits).files && left in Run(ops + [op], limits).files
    requires left in op.order && left !in op.fails
    ensures LastUse(ops + [op], gone) <= LastUse(ops + [op], left)
  {
    assert (ops + [op])[..|ops|] == ops;
    var all := Stored(Run(ops, limits).files, op);
    StoredHolds(ops, op, limits, gone);
    StoredHolds(ops, op, limits, left);
    EvictionIsLru(all, op.order, op.fails, limits, gone, left);
  }

  // ---- a put followed by a get ------------------------------------------------------------

  /** What stands on disk, of the entries the walk sees, when the eviction after a put comes to the new
      entry: newer ones, ones of the same time listed after it, ones that refuse to go, and itself. */
  function StandingAtPut(files: Files, op: Op): seq<Item>
    requires op.Put?
  {
    var all := Stored(files, op);
    Standing(Listing(op.order, all), ItemOf(all, op.key), op.fails)
  }

  /** Main result: for any times, listing order and failing unlinks, a response just put comes back as it
      was put if the walk does not see it, its unlink fails, or what stands then fits; otherwise it is lost. */
  lemma PutThenGetIff(files: Files, op: Op, limits: Limits)
    requires op.Put? && op.response.status < 400 && op.stored
    ensures Answer(FilesAfter(files, op, limits), op.key, true)
         == if op.key !in op.order || op.key in op.fails || AllFit(StandingAtPut(files, op), limits)
            then Some(op.response) else None
  {
    SurvivesIff(Stored(files, op), op.order, op.fails, limits, op.key);
    EntryRoundTrip(op.response);
  }

  /** An error, or a response that does not reach the disk, changes nothing. */
  lemma ErrorIsNotStored(s: State, op: Op, limits: Limits)
    requires op.Put? && (op.response.status >= 400 || !op.stored)
    ensures Apply(s, op, limits) == s
  {
  }

  /** Every unlink succeeds, the walk sees every entry, and the clock has moved on. */
  predicate IsFreshPut(files: Files, op: Op) {
    && Stores(op) && op.fails == {} && Covers(op.order, Stored(files, op))
    && forall k | k in files && k != op.key :: files[k].mtime < op.time
  }

  /** In particular it is found exactly if it fits the byte bound and the cache may hold an entry at all. */
  lemma PutThenGet(files: Files, op: Op, limits: Limits)
    requires IsFreshPut(files, op)
    ensures Answer(FilesAfter(files, op, limits), op.key, true)
         == if op.size <= limits.bytes && limits.entries >= 1 then Some(op.response) else None
  {
    var all := Stored(files, op);
    NewestSurvives(all, op.order, limits, op.key);
    EntryRoundTrip(op.response);
  }

  /** And the clock must have moved on: of two entries of the same time, in a cache for one, the one put
      last is lost exactly if it is listed first. */
  lemma TiedPutIsLost(files: Files, op: Op, limits: Limits, other: string)
    requires Stores(op) && op.fails == {} && files.Keys == {other} && op.key != other && files[other].mtime == op.time
    requires limits.entries == 1 && limits.bytes >= files[other].size + op.size
    requires op.order == [op.key, other] || op.order == [other, op.key]
    ensures Answer(FilesAfter(files, op, limits), op.key, true).None? <==> op.order == [op.key, other]
  {
    var all := Stored(files, op);
    var o, n := ItemOf(all, other), ItemOf(all, op.key);
    ListingOfTwo(op.order, all);
    StandingOfTwo(n, o);
    TotalOfOne(n);
    PutThenGetIff(files, op, limits);
  }

  lemma ListingOfTwo(order: seq<string>, files: Files)
    requires |order| == 2 && order[0] in files && order[1] in files
    ensures Listing(order, files) == [ItemOf(files, order[0]), ItemOf(files, order[1])]
  {
    var last := order[1..];
    assert last[0] == order[1] && last[1..] == [];
    assert Listing(last[1..], files) == [];
    assert Listing(last, files) == [ItemOf(files, order[1])];
  }

  lemma StandingOfTwo(n: Item, o: Item)
    requires n != o && n.mtime == o.mtime
    ensures Standing([n, o], n, {}) == [n, o] && Standing([o, n], n, {}) == [n]
  {
    assert [n, o][1..] == [o] && [o, n][1..] == [n];
    assert [o][1..] == [] && [n][1..] == [];
    assert NotBefore([], n.mtime, {}) == [];
    assert NotBefore([o], n.mtime, {}) == [o];
    assert Standing([n], n, {}) == [n];
  }

  // ---- a cache without bounds -------------------------------------------------------------

  function PutCount(ops: seq<Op>): nat {
    if ops == [] then 0 else PutCount(ops[..|ops| - 1]) + if Stores(ops[|ops| - 1]) then 1 else 0
  }

  function PutBytes(ops: seq<Op>): nat {
    if ops == [] then 0
    else PutBytes(ops[..|ops| - 1]) + if Stores(ops[|ops| - 1]) then ops[|ops| - 1].size else 0
  }

  /** Bounds that no put of the run can reach. */
  predicate Ample(limits: Limits, ops: seq<Op>) {
    PutCount(ops) <= limits.entries && PutBytes(ops) <= limits.bytes
  }

  ghost predicate ListsWithin(files: Files, count: int, bytes: int) {
    forall order: Order :: |Listing(order, files)| <= count && Total(Listing(order, files)) <= bytes
  }

  lemma {:induction false} ListingAfterPut(order: seq<string>, files: Files, key: string, e: Entry)
    requires Distinct(order)
    ensures |Listing(order, files[key := e])| <= |Listing(order, files)| + 1
    ensures Total(Listing(order, files[key := e])) <= Total(Listing(order, files)) + e.size
  {
    if order != [] {
      TotalOfFirst(order, files);
      TotalOfFirst(order, files[key := e]);
      if order[0] == key {
        ListingOfOther(order[1..], files, key, e);
      } else {
        ListingAfterPut(order[1..], files, key, e);
      }
    }
  }

  lemma {:induction false} ListingOfOther(order: seq<string>, files: Files, key: string, e: Entry)
    requires key !in order
    ensures Listing(order, files[key := e]) == Listing(order, files)
  {
    if order != [] {
      ListingOfOther(order[1..], files, key, e);
    }
  }

  predicate Smaller(less: Files, files: Files) {
    forall k | k in less :: k in files && less[k].size == files[k].size
  }

  lemma {:induction false} ListingOfFewer(order: seq<string>, less: Files, files: Files)
    requires Smaller(less, files)
    ensures |Listing(order, less)| <= |Listing(order, files)|
    ensures Total(Listing(order, less)) <= Total(Listing(order, files))
  {
    if order != [] {
      TotalOfFirst(order, less);
      TotalOfFirst(order, files);
      ListingOfFewer(order[1..], less, files);
    }
  }

  lemma StoreListsWithin(files: Files, op: Op, limits: Limits, count: int, bytes: int)
    requires ListsWithin(files, count, bytes) && Stores(op)
    requires count + 1 <= limits.entries && bytes + op.size <= limits.bytes
    ensures FilesAfter(files, op, limits) == Stored(files, op)
    ensures ListsWithin(Stored(files, op), count + 1, bytes + op.size)
  {
    var e := Entry(Encode(op.response), op.size, op.time);
    forall order: Order ensures |Listing(order, Stored(files, op))| <= count + 1
                                && Total(Listing(order, Stored(files, op))) <= bytes + op.size {
      ListingAfterPut(order, files, op.key, e);
    }
    EvictionEnds(Stored(files, op), op.order, op.fails, limits);
  }

  lemma FewerListsWithin(less: Files, files: Files, count: int, bytes: int)
    requires ListsWithin(files, count, bytes) && Smaller(less, files)
    ensures ListsWithin(less, count, bytes)
  {
    forall order: Order ensures |Listing(order, less)| <= count && Total(Listing(order, less)) <= bytes {
      ListingOfFewer(order, less, files);
    }
  }

  lemma {:induction false} ListingOfNone(order: seq<string>)
    ensures Listing(order, map[]) == []
  {
    if order != [] {
      ListingOfNone(order[1..]);
    }
  }

  lemma {:induction false} NothingIsEvicted(ops: seq<Op>, limits: Limits)
    requires Ample(limits, ops)
    ensures ListsWithin(Run(ops, limits).files, PutCount(ops), PutBytes(ops))
    ensures forall key :: key in Run(ops, limits).files <==> LastPut(ops, key).Some?
  {
    if ops != [] {
      var op, before := ops[|ops| - 1], ops[..|ops| - 1];
      var files := Run(before, limits).files;
      NothingIsEvicted(before, limits);
      if Stores(op) {
        StoreListsWithin(files, op, limits, PutCount(before), PutBytes(before));
      } else {
        forall key | key in files ensures Lookup(files, key).Some? {
          RunIsFaithful(before, limits, key);
        }
        FewerListsWithin(FilesAfter(files, op, limits), files, PutCount(before), PutBytes(before));
      }
    } else {
      forall order: Order ensures Listing(order, map[]) == [] {
        ListingOfNone(order);
      }
    }
  }

  /** Main result: with bounds that are never reached the cache is the unbounded map; with any
      bounds it gives the same answer or misses. So eviction only turns hits into misses. */
  lemma EvictionOnlyLosesHits(ops: seq<Op>, limits: Limits, ample: Limits, key: string, readable: bool)
    requires Ample(ample, ops)
    ensures Answer(Run(ops, ample).files, key, true) == LastPut(ops, key)
    ensures var answer := Answer(Run(ops, limits).files, key, readable);
            answer.None? || answer == Answer(Run(ops, ample).files, key, true)
  {
    NothingIsEvicted(ops, ample);
    RunIsFaithful(ops, ample, key);
    RunIsFaithful(ops, limits, key);
  }

  // ---- statistics -------------------------------------------------------------------------

  /** The answers of the lookups since the statistics were last wiped. */
  function Answers(ops: seq<Op>, limits: Limits): seq<Option<Response>> {
    if ops == [] then []
    else
      var op, before := ops[|ops| - 1], ops[..|ops| - 1];
      match op
      case Put(_, _, _, _, _, _, _) => Answers(before, limits)
      case Get(key, _, readable, _, _) => Answers(before, limits) + [Answer(Run(before, limits).files, key, readable)]
      case Clear(_, statsKept) => if statsKept then Answers(before, limits) else []
  }

  /** How many of the answers are hits. */
  function Hits(answers: seq<Option<Response>>): (n: nat)
    ensures n <= |answers|
  {
    if answers == [] then 0
    else Hits(answers[..|answers| - 1]) + if answers[|answers| - 1].Some? then 1 else 0
  }

  /** Main result: with statistics that can be read and written, after any run the counters are the number of
      answers since the last wipe that were some response, and the number that were none. */
  lemma {:induction false} CountersAreRight(ops: seq<Op>, limits: Limits)
    requires forall i | 0 <= i < |ops| && ops[i].Get? :: ops[i].stats == StatsIo(true, true)
    ensures Run(ops, limits).hits == Hits(Answers(ops, limits))
    ensures Run(ops, limits).misses == |Answers(ops, limits)| - Hits(Answers(ops, limits))
  {
    if ops != [] {
      var op, before := ops[|ops| - 1], ops[..|ops| - 1];
      CountersAreRight(before, limits);
      if op.Get? {
        var answer := Answer(Run(before, limits).files, op.key, op.readable);
        assert (Answers(before, limits) + [answer])[..|Answers(before, limits)|] == Answers(before, limits);
      }
    }
  }

  /** Every lookup is counted once, as a hit or as a miss; bad statistics I/O can only lose counts. */
  lemma {:induction false} CountersAdd(ops: seq<Op>, limits: Limits)
    ensures Run(ops, limits).hits + Run(ops, limits).misses <= |Answers(ops, limits)|
    ensures (forall i | 0 <= i < |ops| :: ops[i].Get? ==> ops[i].stats == StatsIo(true, true))
        ==> Run(ops, limits).hits + Run(ops, limits).misses == |Answers(ops, limits)|
  {
    if ops != [] {
      CountersAdd(ops[..|ops| - 1], limits);
    }
  }
}
