/** The file cache on values: a recency list of entries, most recent first, and a directory of files.
    Every operation takes the clock (Unix seconds) as an input. */
module CacheModel {
  import opened Text

  /** `ttl` is in seconds, and zero or less means that the item never expires. */
  datatype CacheItem = CacheItem(data: string, timestamp: int, ttl: int)

  datatype Entry = Entry(key: string, item: CacheItem)

  /** A file of the cache directory: a parsable item or anything else. */
  datatype File = Stored(item: CacheItem) | Unreadable

  /** A `maxSize` of zero or less means no bound. */
  datatype State = State(entries: seq<Entry>, files: map<string, File>, maxSize: int, persisted: bool)

  datatype Op = Get(key: string) | Set(key: string, data: string, ttlNanos: int) | Delete(key: string) | Clear

  datatype Timed = At(op: Op, now: int)

  datatype Answer = Miss | Hit(data: string) | Done

  const NANOS_PER_SECOND := 1_000_000_000

  /** int64(ttl.Seconds()): truncation toward zero. */
  function TtlSeconds(nanos: int): int {
    if nanos >= 0 then nanos / NANOS_PER_SECOND else -(-nanos / NANOS_PER_SECOND)
  }

  predicate Expired(item: CacheItem, now: int) { item.ttl > 0 && now - item.timestamp > item.ttl }

  function FileName(key: string): string { key + ".json" }

  function Find(entries: seq<Entry>, key: string): Option<CacheItem> {
    if entries == [] then None
    else if entries[0].key == key then Some(entries[0].item)
    else Find(entries[1..], key)
  }

  function Without(entries: seq<Entry>, key: string): seq<Entry> {
    if entries == [] then []
    else if entries[0].key == key then Without(entries[1..], key)
    else [entries[0]] + Without(entries[1..], key)
  }

  function RemoveFile(s: State, key: string): State {
    if s.persisted then s.(files := s.files - {FileName(key)}) else s
  }

  function Touched(s: State, key: string, item: CacheItem): State {
    s.(entries := [Entry(key, item)] + Without(s.entries, key))
  }

  function Removed(s: State, key: string): State {
    RemoveFile(s.(entries := Without(s.entries, key)), key)
  }

  function EvictLru(s: State): State {
    if s.entries == [] then s
    else
      var last := |s.entries| - 1;
      RemoveFile(s.(entries := s.entries[..last]), s.entries[last].key)
  }

  predicate Overfull(s: State) { s.maxSize > 0 && |s.entries| > s.maxSize }

  function Insert(s: State, key: string, item: CacheItem): State {
    var s' := Touched(s, key, item);
    if Find(s.entries, key).None? && Overfull(s') then EvictLru(s') else s'
  }

  function SetItem(s: State, key: string, item: CacheItem): State {
    var s' := Insert(s, key, item);
    if s.persisted then s'.(files := s'.files[FileName(key) := Stored(item)]) else s'
  }

  function Step(s: State, t: Timed): State {
    match t.op
    case Get(key) =>
      (match Find(s.entries, key)
       case None => s
       case Some(item) => if Expired(item, t.now) then Removed(s, key) else Touched(s, key, item))
    case Set(key, data, ttlNanos) => SetItem(s, key, CacheItem(data, t.now, TtlSeconds(ttlNanos)))
    case Delete(key) => Removed(s, key)
    case Clear =>
      var kept := if s.persisted then map n | n in s.files && !HasSuffix(n, ".json") :: s.files[n] else s.files;
      s.(entries := [], files := kept)
  }

  function Reply(s: State, t: Timed): Answer {
    match t.op
    case Get(key) =>
      (match Find(s.entries, key)
       case None => Miss
       case Some(item) => if Expired(item, t.now) then Miss else Hit(item.data))
    case _ => Done
  }

  function Run(s: State, ops: seq<Timed>): State {
    if ops == [] then s else Step(Run(s, ops[..|ops| - 1]), ops[|ops| - 1])
  }

  /** The answers of a run, one per operation. */
  function Replies(s: State, ops: seq<Timed>): seq<Answer> {
    if ops == [] then []
    else Replies(s, ops[..|ops| - 1]) + [Reply(Run(s, ops[..|ops| - 1]), ops[|ops| - 1])]
  }

  // ---- Keys of the recency list ----

  predicate Distinct(entries: seq<Entry>) {
    forall i, j :: 0 <= i < j < |entries| ==> entries[i].key != entries[j].key
  }

  lemma {:induction false} FindMember(entries: seq<Entry>, key: string)
    ensures Find(entries, key).Some? <==> exists i :: 0 <= i < |entries| && entries[i].key == key
    ensures Distinct(entries) ==> forall i :: 0 <= i < |entries| && entries[i].key == key ==>
        Find(entries, key) == Some(entries[i].item)
    ensures Find(entries, key).Some? ==> Entry(key, Find(entries, key).value) in entries
  {
    if entries != [] {
      FindMember(entries[1..], key);
      if Find(entries, key).Some? && entries[0].key != key {
        var i :| 0 <= i < |entries[1..]| && entries[1..][i].key == key;
        assert entries[i + 1].key == key;
      }
    }
  }

  lemma {:induction false} WithoutLookup(entries: seq<Entry>, key: string, other: string)
    ensures Find(Without(entries, key), other) == if other == key then None else Find(entries, other)
  {
    if entries != [] { WithoutLookup(entries[1..], key, other); }
  }

  lemma {:induction false} WithoutMembers(entries: seq<Entry>, key: string)
    ensures forall e :: e in Without(entries, key) <==> e in entries && e.key != key
  {
    if entries != [] {
      WithoutMembers(entries[1..], key);
      assert entries == [entries[0]] + entries[1..];
    }
  }

  lemma {:induction false} WithoutAbsent(entries: seq<Entry>, key: string)
    requires Find(entries, key).None?
    ensures Without(entries, key) == entries
  {
    if entries != [] { WithoutAbsent(entries[1..], key); }
  }

  lemma {:induction false} WithoutDistinct(entries: seq<Entry>, key: string)
    requires Distinct(entries)
    ensures Distinct(Without(entries, key))
    ensures |Without(entries, key)| == |entries| - if Find(entries, key).Some? then 1 else 0
  {
    if entries != [] {
      var rest := entries[1..];
      assert Distinct(rest) && forall i :: 0 <= i < |rest| ==> rest[i].key != entries[0].key;
      WithoutDistinct(rest, key);
      FindMember(rest, key);
      if entries[0].key == key {
        WithoutAbsent(rest, key);
      } else {
        WithoutMembers(rest, key);
        DistinctCons(entries[0], Without(rest, key));
      }
    }
  }

  lemma DistinctCons(first: Entry, rest: seq<Entry>)
    requires Distinct(rest) && forall e :: e in rest ==> e.key != first.key
    ensures Distinct([first] + rest)
  {}

  /** Taking an entry out by its position is taking it out by its key. */
  lemma {:induction false} WithoutAt(entries: seq<Entry>, i: nat)
    requires Distinct(entries) && i < |entries|
    ensures Without(entries, entries[i].key) == entries[..i] + entries[i + 1..]
  {
    var rest := entries[1..];
    assert Distinct(rest);
    if i == 0 {
      FindMember(rest, entries[0].key);
      WithoutAbsent(rest, entries[0].key);
    } else {
      WithoutAt(rest, i - 1);
      assert entries[..i] + entries[i + 1..] == [entries[0]] + (rest[..i - 1] + rest[i..]);
    }
  }

  lemma TouchedDistinct(s: State, key: string, item: CacheItem)
    requires Distinct(s.entries)
    ensures Distinct(Touched(s, key, item).entries)
  {
    WithoutDistinct(s.entries, key);
    WithoutMembers(s.entries, key);
    forall i | 0 <= i < |Without(s.entries, key)| ensures Without(s.entries, key)[i].key != key {
      assert Without(s.entries, key)[i] in Without(s.entries, key);
    }
  }

  lemma StepKeepsDistinct(s: State, t: Timed)
    requires Distinct(s.entries)
    ensures Distinct(Step(s, t).entries)
  {
    match t.op
    case Get(key) =>
      if Find(s.entries, key).Some? {
        TouchedDistinct(s, key, Find(s.entries, key).value);
        WithoutDistinct(s.entries, key);
      }
    case Set(key, data, ttlNanos) => TouchedDistinct(s, key, CacheItem(data, t.now, TtlSeconds(ttlNanos)));
    case Delete(key) => WithoutDistinct(s.entries, key);
    case Clear =>
  }

  /** How long an item is found after it was set: for its whole seconds, and for ever if there are none. */
  lemma FoundAfterSet(s: State, key: string, data: string, ttlNanos: int, now: int, later: int)
    ensures Reply(Step(s, At(Set(key, data, ttlNanos), now)), At(Get(key), later)) == Hit(data)
       <==> ttlNanos < NANOS_PER_SECOND || later - now <= ttlNanos / NANOS_PER_SECOND
  {
    hide Without;
  }

  /** An item never expires exactly when its time to live is under one second. */
  lemma NeverExpires(s: State, key: string, data: string, ttlNanos: int, now: int)
    ensures (forall later :: Reply(Step(s, At(Set(key, data, ttlNanos), now)), At(Get(key), later)) == Hit(data))
       <==> ttlNanos < NANOS_PER_SECOND
  {
    var set_ := Step(s, At(Set(key, data, ttlNanos), now));
    forall later { FoundAfterSet(s, key, data, ttlNanos, now, later); }
    var late := now + ttlNanos / NANOS_PER_SECOND + 1;
    assert Reply(set_, At(Get(key), late)) == Hit(data) <==> ttlNanos < NANOS_PER_SECOND;
  }

  /** The entry just set is never the one evicted. */
  lemma SetIsKept(s: State, key: string, item: CacheItem)
    requires Distinct(s.entries)
    ensures Find(SetItem(s, key, item).entries, key) == Some(item)
    ensures SetItem(s, key, item).entries != [] && SetItem(s, key, item).entries[0] == Entry(key, item)
  {}

  /** Nothing is evicted while there is room, and nothing when a key that is there is set anew. */
  lemma NothingEvicted(s: State, key: string, item: CacheItem)
    requires s.maxSize <= 0 || |s.entries| < s.maxSize || Find(s.entries, key).Some?
    ensures SetItem(s, key, item).entries == [Entry(key, item)] + Without(s.entries, key)
    ensures Find(s.entries, key).None? ==> SetItem(s, key, item).entries == [Entry(key, item)] + s.entries
  {
    if Find(s.entries, key).None? { WithoutAbsent(s.entries, key); }
  }

  /** A bounded cache never grows past its bound, or past what was loaded into it. */
  lemma SizeBound(s: State, t: Timed, bound: nat)
    requires Distinct(s.entries) && s.maxSize > 0 && s.maxSize <= bound && |s.entries| <= bound
    ensures |Step(s, t).entries| <= bound
  {
    match t.op
    case Get(key) => WithoutDistinct(s.entries, key);
    case Set(key, data, ttlNanos) => WithoutDistinct(s.entries, key);
    case Delete(key) => WithoutDistinct(s.entries, key);
    case Clear =>
  }

  lemma {:induction false} RunInv(s: State, ops: seq<Timed>, bound: nat)
    requires Distinct(s.entries)
    requires s.maxSize > 0 ==> s.maxSize <= bound && |s.entries| <= bound
    ensures var s' := Run(s, ops);
            && Distinct(s'.entries) && s'.maxSize == s.maxSize && s'.persisted == s.persisted
            && (s.maxSize > 0 ==> |s'.entries| <= bound)
  {
    if ops != [] {
      var n := |ops| - 1;
      RunInv(s, ops[..n], bound);
      StepKeepsDistinct(Run(s, ops[..n]), ops[n]);
      if s.maxSize > 0 { SizeBound(Run(s, ops[..n]), ops[n], bound); }
    }
  }

  // ---- The list order is the order of last use ----

  /** The key an operation uses: a hit or a set moves it to the front. */
  function Uses(s: State, t: Timed): Option<string> {
    match t.op
    case Set(key, _, _) => Some(key)
    case Get(key) => if Reply(s, t).Hit? then Some(key) else None
    case _ => None
  }

  /** The position in `ops` of the last operation that used `key`, or -1. */
  function LastUse(s: State, ops: seq<Timed>, key: string): int {
    if ops == [] then -1
    else if Uses(Run(s, ops[..|ops| - 1]), ops[|ops| - 1]) == Some(key) then |ops| - 1
    else LastUse(s, ops[..|ops| - 1], key)
  }

  lemma {:induction false} LastUseBefore(s: State, ops: seq<Timed>, key: string)
    ensures -1 <= LastUse(s, ops, key) < |ops|
  {
    if ops != [] { LastUseBefore(s, ops[..|ops| - 1], key); }
  }

  /** `a` is what is left of `b` after some entries are taken out. */
  predicate Subsequence(a: seq<Entry>, b: seq<Entry>) {
    if a == [] then true
    else b != [] && ((a[0] == b[0] && Subsequence(a[1..], b[1..])) || Subsequence(a, b[1..]))
  }

  lemma {:induction false} SubsequenceSelf(a: seq<Entry>)
    ensures Subsequence(a, a)
  {
    if a != [] { SubsequenceSelf(a[1..]); }
  }

  lemma {:induction false} SubsequenceWithout(a: seq<Entry>, key: string)
    ensures Subsequence(Without(a, key), a)
  {
    if a != [] {
      SubsequenceWithout(a[1..], key);
      if a[0].key == key { SubsequenceWider(Without(a, key), a[0], a[1..]); }
    }
  }

  lemma SubsequenceWider(a: seq<Entry>, e: Entry, b: seq<Entry>)
    requires Subsequence(a, b)
    ensures Subsequence(a, [e] + b)
  {}

  predicate RankedDown(entries: seq<Entry>, rank: string -> int) {
    forall i, j :: 0 <= i < j < |entries| ==> rank(entries[i].key) > rank(entries[j].key)
  }

  lemma {:induction false} WithoutRanked(entries: seq<Entry>, key: string, rank: string -> int)
    requires RankedDown(entries, rank)
    ensures RankedDown(Without(entries, key), rank)
  {
    if entries != [] {
      var rest := entries[1..];
      assert RankedDown(rest, rank);
      WithoutRanked(rest, key, rank);
      WithoutMembers(rest, key);
      if entries[0].key != key {
        forall j | 0 <= j < |Without(rest, key)| ensures rank(entries[0].key) > rank(Without(rest, key)[j].key) {
          assert Without(rest, key)[j] in rest;
        }
      }
    }
  }

  lemma UsedFirst(entries: seq<Entry>, key: string, item: CacheItem, rank: string -> int, rank': string -> int)
    requires RankedDown(entries, rank) && (forall k :: k != key ==> rank'(k) == rank(k))
        && forall k :: rank(k) < rank'(key)
    ensures RankedDown([Entry(key, item)] + Without(entries, key), rank')
  {
    var kept := Without(entries, key);
    WithoutRanked(entries, key, rank);
    WithoutMembers(entries, key);
    forall i | 0 <= i < |kept| ensures rank'(kept[i].key) == rank(kept[i].key) { assert kept[i] in kept; }
  }

  /** The place of `key` in the list, or the length of the list. */
  function Position(entries: seq<Entry>, key: string): nat {
    if entries == [] || entries[0].key == key then 0 else 1 + Position(entries[1..], key)
  }

  /** When `key` was used last: in the run, or else before it, the order being that of the first list. */
  function Recency(s: State, ops: seq<Timed>, key: string): int {
    if LastUse(s, ops, key) >= 0 then LastUse(s, ops, key) else -1 - Position(s.entries, key)
  }

  lemma {:induction false} PositionAt(entries: seq<Entry>, i: nat)
    requires Distinct(entries) && i < |entries|
    ensures Position(entries, entries[i].key) == i
  {
    if i > 0 {
      assert Distinct(entries[1..]);
      PositionAt(entries[1..], i - 1);
    }
  }

  /** After any run on any cache, an entry stands before another exactly when it was used later. */
  lemma {:induction false} ListIsRecencyOrder(s: State, ops: seq<Timed>)
    requires Distinct(s.entries)
    ensures RankedDown(Run(s, ops).entries, key => Recency(s, ops, key))
  {
    if ops == [] {
      forall i | 0 <= i < |s.entries| ensures Recency(s, [], s.entries[i].key) == -1 - i { PositionAt(s.entries, i); }
    } else {
      var n := |ops| - 1;
      var before, t := Run(s, ops[..n]), ops[n];
      var rank, rank' := (key => Recency(s, ops[..n], key)), (key => Recency(s, ops, key));
      ListIsRecencyOrder(s, ops[..n]);
      forall k ensures rank(k) < n { LastUseBefore(s, ops[..n], k); }
      forall k ensures rank'(k) == if Uses(before, t) == Some(k) then n else rank(k) {}
      StepIsRanked(before, t, rank, rank');
    }
  }

  /** One operation moves the key it uses, if any, to the front, and keeps the order of the others. */
  lemma StepIsRanked(s: State, t: Timed, rank: string -> int, rank': string -> int)
    requires RankedDown(s.entries, rank)
    requires forall k :: Uses(s, t) == Some(k) ==> forall o :: rank(o) < rank'(k)
    requires forall k :: Uses(s, t) != Some(k) ==> rank'(k) == rank(k)
    ensures RankedDown(Step(s, t).entries, rank')
  {
    if Uses(s, t).Some? {
      var key := Uses(s, t).value;
      var item := if t.op.Set? then CacheItem(t.op.data, t.now, TtlSeconds(t.op.ttlNanos))
        else Find(s.entries, key).value;
      UsedFirst(s.entries, key, item, rank, rank');
      assert Step(s, t).entries <= Touched(s, key, item).entries;
    } else if !t.op.Clear? {
      WithoutRanked(s.entries, t.op.key, rank);
    }
  }

  /** What a set of a new key into a full cache evicts is the least recently used entry, and only that one. */
  lemma EvictsLeastRecentlyUsed(s: State, ops: seq<Timed>, key: string, item: CacheItem)
    requires Distinct(s.entries) && s.maxSize > 0
    requires var before := Run(s, ops).entries; Find(before, key).None? && |before| >= s.maxSize
    ensures var before, after := Run(s, ops).entries, SetItem(Run(s, ops), key, item).entries;
            var victim := before[|before| - 1];
            && (forall e :: e in after <==> e == Entry(key, item) || (e in before && e != victim))
            && (forall e :: e in before && e != victim ==> Recency(s, ops, e.key) > Recency(s, ops, victim.key))
  {
    hide SetItem, Find, Without, Run, Recency, Distinct;
    var before := Run(s, ops);
    RunInv(s, ops, if s.maxSize > |s.entries| then s.maxSize else |s.entries|);
    ListIsRecencyOrder(s, ops);
    EvictedEntries(before, key, item);
    var last := |before.entries| - 1;
    forall e | e in before.entries && e != before.entries[last]
      ensures Recency(s, ops, e.key) > Recency(s, ops, before.entries[last].key)
    {
      var i :| 0 <= i < |before.entries| && before.entries[i] == e;
    }
  }

  lemma EvictedEntries(s: State, key: string, item: CacheItem)
    requires Distinct(s.entries) && Find(s.entries, key).None? && |s.entries| >= s.maxSize > 0
    ensures var after, victim := SetItem(s, key, item).entries, s.entries[|s.entries| - 1];
            forall e :: e in after <==> e == Entry(key, item) || (e in s.entries && e != victim)
  {
    LastDropped(s, key, item);
    InitMembers(s.entries);
    hide *;
    var front := s.entries[..|s.entries| - 1];
    forall e ensures e in [Entry(key, item)] + front <==> e == Entry(key, item) || e in front {}
  }

  lemma LastDropped(s: State, key: string, item: CacheItem)
    requires Find(s.entries, key).None? && |s.entries| >= s.maxSize > 0
    ensures SetItem(s, key, item).entries == [Entry(key, item)] + s.entries[..|s.entries| - 1]
  {
    WithoutAbsent(s.entries, key);
    hide Find, Without;
    var whole := [Entry(key, item)] + s.entries;
    assert Insert(s, key, item) == EvictLru(s.(entries := whole));
    assert EvictLru(s.(entries := whole)).entries == whole[..|whole| - 1];
  }

  lemma InitMembers(entries: seq<Entry>)
    requires Distinct(entries) && entries != []
    ensures forall e :: e in entries[..|entries| - 1] <==> e in entries && e != entries[|entries| - 1]
  {}

  // ---- A larger cache holds whatever a smaller one holds ----

  lemma {:induction false} SubsequenceKeeps(a: seq<Entry>, b: seq<Entry>, key: string)
    requires Subsequence(a, b) && Distinct(b)
    ensures |a| <= |b| && (forall e :: e in a ==> e in b)
    ensures Find(a, key).Some? ==> Find(b, key) == Find(a, key)
    decreases |b|
  {
    if a != [] {
      assert Distinct(b[1..]);
      FindMember(b, key);
      if a[0] == b[0] && Subsequence(a[1..], b[1..]) {
        SubsequenceKeeps(a[1..], b[1..], key);
        assert forall e :: e in a ==> e == a[0] || e in a[1..];
      } else {
        SubsequenceKeeps(a, b[1..], key);
        FindMember(b[1..], key);
      }
    }
  }

  lemma {:induction false} SubsequenceFilter(a: seq<Entry>, b: seq<Entry>, key: string)
    requires Subsequence(a, b)
    ensures Subsequence(Without(a, key), Without(b, key))
    decreases |b|
  {
    if a != [] {
      if a[0] == b[0] && Subsequence(a[1..], b[1..]) {
        SubsequenceFilter(a[1..], b[1..], key);
      } else {
        SubsequenceFilter(a, b[1..], key);
        if b[0].key != key { SubsequenceWider(Without(a, key), b[0], Without(b[1..], key)); }
      }
    }
  }

  lemma {:induction false} SubsequenceInit(a: seq<Entry>, b: seq<Entry>)
    requires Subsequence(a, b) && a != []
    ensures b != [] && Subsequence(a[..|a| - 1], b[..|b| - 1]) && Subsequence(a[..|a| - 1], b)
    decreases |b|
  {
    var a', b' := a[..|a| - 1], b[..|b| - 1];
    if |a| > 1 {
      if a[0] == b[0] && Subsequence(a[1..], b[1..]) {
        SubsequenceInit(a[1..], b[1..]);
        assert a'[1..] == a[1..][..|a| - 2];
      } else {
        SubsequenceInit(a, b[1..]);
      }
      assert b'[1..] == b[1..][..|b| - 2];
    }
  }

  /** `large` has room for whatever `small` has room for. */
  predicate FitsUnder(small: int, large: int) { large <= 0 || 0 < small <= large }

  ghost predicate Covers(large: State, small: State) {
    && FitsUnder(small.maxSize, large.maxSize)
    && Distinct(small.entries) && Distinct(large.entries) && Subsequence(small.entries, large.entries)
    && (small.maxSize > 0 ==> |small.entries| <= small.maxSize)
    && (large.maxSize > 0 ==> |large.entries| <= large.maxSize
                              && |large.entries| - |small.entries| <= large.maxSize - small.maxSize)
  }

  lemma SubsequenceCons(e: Entry, a: seq<Entry>, b: seq<Entry>)
    requires Subsequence(a, b)
    ensures Subsequence([e] + a, [e] + b)
  {}

  lemma SetKeepsCover(large: State, small: State, key: string, item: CacheItem)
    requires Covers(large, small)
    ensures Subsequence(SetItem(small, key, item).entries, SetItem(large, key, item).entries)
    ensures |SetItem(large, key, item).entries| - |SetItem(small, key, item).entries|
            <= |large.entries| - |small.entries|
            || large.maxSize <= 0 || |SetItem(small, key, item).entries| == small.maxSize
  {
    hide Subsequence, Without, Find, Distinct;
    var e, s, l := Entry(key, item), Without(small.entries, key), Without(large.entries, key);
    SubsequenceFilter(small.entries, large.entries, key);
    SubsequenceKeeps(small.entries, large.entries, key);
    WithoutDistinct(small.entries, key);
    WithoutDistinct(large.entries, key);
    SubsequenceCons(e, s, l);
    SubsequenceInit([e] + s, [e] + l);
  }

  lemma StepKeepsCover(large: State, small: State, t: Timed)
    requires Covers(large, small)
    ensures Covers(Step(large, t), Step(small, t))
    ensures Reply(small, t).Hit? ==> Reply(large, t) == Reply(small, t)
  {
    StepKeepsDistinct(small, t);
    StepKeepsDistinct(large, t);
    if small.maxSize > 0 { SizeBound(small, t, small.maxSize); }
    if large.maxSize > 0 { SizeBound(large, t, large.maxSize); }
    match t.op
    case Set(key, data, ttlNanos) => SetKeepsCover(large, small, key, CacheItem(data, t.now, TtlSeconds(ttlNanos)));
    case Get(key) => GetKeepsCover(large, small, t);
    case Delete(key) => DropKeepsCover(large.entries, small.entries, key);
    case Clear =>
  }

  lemma DropKeepsCover(large: seq<Entry>, small: seq<Entry>, key: string)
    requires Subsequence(small, large) && Distinct(small) && Distinct(large)
    ensures Subsequence(Without(small, key), Without(large, key))
    ensures |Without(large, key)| - |Without(small, key)| <= |large| - |small|
    ensures Find(small, key).None? && Find(large, key).Some? ==> Subsequence(small, Without(large, key))
  {
    SubsequenceFilter(small, large, key);
    SubsequenceKeeps(small, large, key);
    WithoutDistinct(small, key);
    WithoutDistinct(large, key);
    if Find(small, key).None? { WithoutAbsent(small, key); }
  }

  lemma GetKeepsCover(large: State, small: State, t: Timed)
    requires t.op.Get? && Subsequence(small.entries, large.entries) && Distinct(small.entries)
        && Distinct(large.entries)
    ensures Subsequence(Step(small, t).entries, Step(large, t).entries)
    ensures |Step(large, t).entries| - |Step(small, t).entries| <= |large.entries| - |small.entries|
    ensures Reply(small, t).Hit? ==> Reply(large, t) == Reply(small, t)
  {
    var s, l, key := small.entries, large.entries, t.op.key;
    DropKeepsCover(l, s, key);
    SubsequenceKeeps(s, l, key);
    WithoutDistinct(s, key);
    WithoutDistinct(l, key);
    if Find(s, key).None? && Find(l, key).Some? {
      SubsequenceWider(s, Entry(key, Find(l, key).value), Without(l, key));
    }
  }

  /** Inclusion: fed the same operations and clocks from empty, every hit of the smaller cache is a hit
      of the larger one with the same value, and their lists never drift apart by more than the bounds do. */
  lemma {:induction false} Inclusion(large: State, small: State, ops: seq<Timed>, next: Timed)
    requires large.entries == [] && small.entries == [] && FitsUnder(small.maxSize, large.maxSize)
    ensures Covers(Run(large, ops), Run(small, ops))
    ensures Reply(Run(small, ops), next).Hit? ==> Reply(Run(large, ops), next) == Reply(Run(small, ops), next)
  {
    if ops != [] {
      var n := |ops| - 1;
      Inclusion(large, small, ops[..n], ops[n]);
      StepKeepsCover(Run(large, ops[..n]), Run(small, ops[..n]), ops[n]);
    }
    StepKeepsCover(Run(large, ops), Run(small, ops), next);
  }
}
