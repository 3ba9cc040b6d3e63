/** The directory behind a persisted cache, reloading it, and the Badger store that the
    unbounded cache must agree with. */
module CacheReload {
  import opened Text
  import opened CacheModel

  function Lookup(m: map<string, CacheItem>, key: string): Option<CacheItem> {
    if key in m then Some(m[key]) else None
  }

  function OnDisk(files: map<string, File>, key: string): Option<CacheItem> {
    var name := FileName(key);
    if name in files && files[name].Stored? then Some(files[name].item) else None
  }

  /** The readable .json files are exactly the entries in memory. */
  ghost predicate Synced(s: State) {
    forall key :: OnDisk(s.files, key) == Find(s.entries, key)
  }

  lemma FileNameInjective(a: string, b: string)
    ensures FileName(a) == FileName(b) ==> a == b
    ensures HasSuffix(FileName(a), ".json")
  {
    assert FileName(a)[..|FileName(a)| - 5] == a && FileName(b)[..|FileName(b)| - 5] == b;
  }

  lemma RemovedSynced(s: State, key: string)
    requires s.persisted && Synced(s)
    ensures Synced(Removed(s, key))
  {
    forall k ensures OnDisk(Removed(s, key).files, k) == Find(Removed(s, key).entries, k) {
      assert OnDisk(s.files, k) == Find(s.entries, k);
      FileNameInjective(k, key);
      WithoutLookup(s.entries, key, k);
    }
  }

  lemma EvictIsRemove(s: State)
    requires Distinct(s.entries) && s.entries != []
    ensures EvictLru(s) == Removed(s, s.entries[|s.entries| - 1].key)
  {
    var last := |s.entries| - 1;
    WithoutAt(s.entries, last);
    assert s.entries[..last] + s.entries[last + 1..] == s.entries[..last];
  }

  lemma TouchedLookup(s: State, key: string, item: CacheItem, other: string)
    ensures Find(Touched(s, key, item).entries, other) == if other == key then Some(item) else Find(s.entries, other)
  {
    WithoutLookup(s.entries, key, other);
  }

  function Written(s: State, key: string, item: CacheItem): State {
    Touched(s, key, item).(files := s.files[FileName(key) := Stored(item)])
  }

  lemma WrittenSynced(s: State, key: string, item: CacheItem)
    requires Synced(s)
    ensures Synced(Written(s, key, item))
  {
    var s' := Written(s, key, item);
    forall k ensures OnDisk(s'.files, k) == Find(s'.entries, k) {
      assert OnDisk(s.files, k) == Find(s.entries, k);
      FileNameInjective(k, key);
      TouchedLookup(s, key, item, k);
    }
  }

  lemma SetSynced(s: State, key: string, item: CacheItem)
    requires s.persisted && Synced(s) && Distinct(s.entries)
    ensures Synced(SetItem(s, key, item))
  {
    var touched, written := Touched(s, key, item), Written(s, key, item);
    WrittenSynced(s, key, item);
    if Find(s.entries, key).None? && Overfull(touched) {
      var victim := touched.entries[|touched.entries| - 1].key;
      TouchedDistinct(s, key, item);
      FileNameInjective(victim, key);
      EvictIsRemove(written);
      assert SetItem(s, key, item) == Removed(written, victim);
      RemovedSynced(written, victim);
    }
  }

  /** Every operation of a persisted cache leaves the directory equal to the memory. */
  lemma StepKeepsSynced(s: State, t: Timed)
    requires s.persisted && Synced(s) && Distinct(s.entries)
    ensures Synced(Step(s, t))
  {
    match t.op
    case Get(key) =>
      if Find(s.entries, key).Some? {
        RemovedSynced(s, key);
        forall k ensures OnDisk(s.files, k) == Find(Touched(s, key, Find(s.entries, key).value).entries, k) {
          assert OnDisk(s.files, k) == Find(s.entries, k);
          TouchedLookup(s, key, Find(s.entries, key).value, k);
        }
      }
    case Set(key, data, ttlNanos) => SetSynced(s, key, CacheItem(data, t.now, TtlSeconds(ttlNanos)));
    case Delete(key) => RemovedSynced(s, key);
    case Clear => forall k ensures OnDisk(Step(s, t).files, k).None? { FileNameInjective(k, k); }
  }

  /** No operation touches a file that is not a cache file, and a cache that is not persisted touches none. */
  lemma {:induction false} OnlyCacheFiles(s: State, ops: seq<Timed>, name: string)
    ensures var s' := Run(s, ops);
            (!HasSuffix(name, ".json") || !s.persisted ==>
               (name in s'.files <==> name in s.files) && (name in s.files ==> s'.files[name] == s.files[name]))
            && s'.persisted == s.persisted
  {
    if ops != [] {
      var n := |ops| - 1;
      OnlyCacheFiles(s, ops[..n], name);
      StepOnlyCacheFiles(Run(s, ops[..n]), ops[n], name);
    }
  }

  lemma StepOnlyCacheFiles(s: State, t: Timed, name: string)
    ensures var s' := Step(s, t);
            (!HasSuffix(name, ".json") || !s.persisted ==>
               (name in s'.files <==> name in s.files) && (name in s.files ==> s'.files[name] == s.files[name]))
            && s'.persisted == s.persisted
  {
    hide HasSuffix, Without, Find;
    forall key ensures HasSuffix(FileName(key), ".json") { FileNameInjective(key, key); }
  }

  // ---- Loading ----

  /** The key of a directory entry that loading considers. */
  function KeyOf(name: string): string
    requires HasSuffix(name, ".json")
  {
    name[..|name| - 5]
  }

  lemma KeyOfFileName(name: string)
    requires HasSuffix(name, ".json")
    ensures FileName(KeyOf(name)) == name
  {}

  predicate Loadable(files: map<string, File>, name: string, now: int) {
    HasSuffix(name, ".json") && name in files && files[name].Stored? && !Expired(files[name].item, now)
  }

  predicate Stale(files: map<string, File>, name: string, now: int) {
    HasSuffix(name, ".json") && name in files && files[name].Stored? && Expired(files[name].item, now)
  }

  /** The recency list after reading the directory entries `names` in turn. */
  function Loaded(files: map<string, File>, names: seq<string>, now: int): seq<Entry> {
    if names == [] then []
    else
      var rest, name := Loaded(files, names[..|names| - 1], now), names[|names| - 1];
      if Loadable(files, name, now) then [Entry(KeyOf(name), files[name].item)] + rest else rest
  }

  function Opened(files: map<string, File>, names: seq<string>, now: int, maxSize: int): State {
    var kept := map n | n in files && !(n in names && Stale(files, n, now)) :: files[n];
    State(Loaded(files, names, now), kept, maxSize, true)
  }

  /** What reading one more directory entry does. */
  lemma OpenedStep(files: map<string, File>, names: seq<string>, name: string, now: int, maxSize: int)
    requires name in files && name !in names
    ensures var before, after := Opened(files, names, now, maxSize), Opened(files, names + [name], now, maxSize);
            && name in before.files && before.files[name] == files[name]
            && after.files == (if Stale(files, name, now) then before.files - {name} else before.files)
            && after.entries == (if Loadable(files, name, now) then [Entry(KeyOf(name), files[name].item)] else [])
                  + before.entries
  {}

  /** `names` is a listing of the directory, in any order. */
  ghost predicate Lists(names: seq<string>, files: map<string, File>) {
    (forall i, j :: 0 <= i < j < |names| ==> names[i] != names[j]) && forall n :: n in names <==> n in files
  }

  lemma {:induction false} LoadedLookup(files: map<string, File>, names: seq<string>, now: int, key: string)
    requires forall i, j :: 0 <= i < j < |names| ==> names[i] != names[j]
    ensures Find(Loaded(files, names, now), key)
         == if FileName(key) in names && Loadable(files, FileName(key), now)
            then Some(files[FileName(key)].item) else None
    ensures Distinct(Loaded(files, names, now))
  {
    if names != [] {
      var n := |names| - 1;
      LoadedLookup(files, names[..n], now, key);
      assert names == names[..n] + [names[n]];
      if Loadable(files, names[n], now) {
        KeyOfFileName(names[n]);
        LoadedLookup(files, names[..n], now, KeyOf(names[n]));
        FindMember(Loaded(files, names[..n], now), KeyOf(names[n]));
        FileNameInjective(key, KeyOf(names[n]));
      } else {
        FileNameInjective(key, key);
      }
    }
  }

  /** Opening any directory leaves the directory equal to the memory. */
  lemma OpenedSynced(files: map<string, File>, names: seq<string>, now: int, maxSize: int)
    requires Lists(names, files)
    ensures Synced(Opened(files, names, now, maxSize)) && Distinct(Opened(files, names, now, maxSize).entries)
  {
    LoadedLookup(files, names, now, "");
    forall key ensures OnDisk(Opened(files, names, now, maxSize).files, key) == Find(Loaded(files, names, now), key) {
      LoadedLookup(files, names, now, key);
      FileNameInjective(key, key);
    }
  }

  /** Reload round trip: after any operations on a persisted cache, a fresh cache over its directory
      holds exactly the entries that have not expired by then, with the same items. */
  lemma Reload(files: map<string, File>, names: seq<string>, openedAt: int, maxSize: int, ops: seq<Timed>,
               names': seq<string>, now: int, maxSize': int, key: string)
    requires Lists(names, files)
    requires Lists(names', Run(Opened(files, names, openedAt, maxSize), ops).files)
    ensures var before := Run(Opened(files, names, openedAt, maxSize), ops);
            var after := Opened(before.files, names', now, maxSize');
            && Synced(before) && Synced(after)
            && Find(after.entries, key) == match Find(before.entries, key)
                                           case None => None
                                           case Some(item) => if Expired(item, now) then None else Some(item)
  {
    var before := Run(Opened(files, names, openedAt, maxSize), ops);
    RunSynced(files, names, openedAt, maxSize, ops);
    OpenedSynced(before.files, names', now, maxSize');
    LoadedLookup(before.files, names', now, key);
    FileNameInjective(key, key);
    assert OnDisk(before.files, key) == Find(before.entries, key);
  }

  lemma {:induction false} RunSynced(files: map<string, File>, names: seq<string>, openedAt: int, maxSize: int,
                                     ops: seq<Timed>)
    requires Lists(names, files)
    ensures var s := Run(Opened(files, names, openedAt, maxSize), ops);
            Synced(s) && Distinct(s.entries) && s.persisted && s.maxSize == maxSize
  {
    if ops == [] {
      OpenedSynced(files, names, openedAt, maxSize);
    } else {
      var n := |ops| - 1;
      RunSynced(files, names, openedAt, maxSize, ops[..n]);
      StepKeepsSynced(Run(Opened(files, names, openedAt, maxSize), ops[..n]), ops[n]);
      StepKeepsDistinct(Run(Opened(files, names, openedAt, maxSize), ops[..n]), ops[n]);
    }
  }

  // ---- The Badger store ----

  function BadgerReply(store: map<string, CacheItem>, t: Timed): Answer {
    match t.op
    case Get(key) => if key in store && !Expired(store[key], t.now) then Hit(store[key].data) else Miss
    case _ => Done
  }

  /** Get reads in one transaction and, on a miss of any kind, deletes in another. */
  function BadgerStep(store: map<string, CacheItem>, t: Timed): map<string, CacheItem> {
    match t.op
    case Get(key) => if BadgerReply(store, t).Hit? then store else store - {key}
    case Set(key, data, ttlNanos) => store[key := CacheItem(data, t.now, TtlSeconds(ttlNanos))]
    case Delete(key) => store - {key}
    case Clear => map[]
  }

  function BadgerRun(store: map<string, CacheItem>, ops: seq<Timed>): map<string, CacheItem> {
    if ops == [] then store else BadgerStep(BadgerRun(store, ops[..|ops| - 1]), ops[|ops| - 1])
  }

  ghost predicate SameContents(s: State, store: map<string, CacheItem>) {
    forall key :: Find(s.entries, key) == Lookup(store, key)
  }

  lemma StepKeepsContents(s: State, store: map<string, CacheItem>, t: Timed)
    requires s.maxSize <= 0 && SameContents(s, store)
    ensures SameContents(Step(s, t), BadgerStep(store, t)) && BadgerReply(store, t) == Reply(s, t)
  {
    if !t.op.Clear? { assert Find(s.entries, t.op.key) == Lookup(store, t.op.key); }
    forall k ensures Find(Step(s, t).entries, k) == Lookup(BadgerStep(store, t), k) {
      assert Find(s.entries, k) == Lookup(store, k);
      if !t.op.Clear? { WithoutLookup(s.entries, t.op.key, k); }
    }
  }

  /** Two implementations, one meaning: without a bound, the file cache and the Badger cache answer
      every sequence of operations alike and hold the same items after it. */
  lemma {:induction false} UnboundedEqualsBadger(s: State, store: map<string, CacheItem>, ops: seq<Timed>, next: Timed)
    requires s.maxSize <= 0 && SameContents(s, store)
    ensures SameContents(Run(s, ops), BadgerRun(store, ops)) && Run(s, ops).maxSize == s.maxSize
    ensures BadgerReply(BadgerRun(store, ops), next) == Reply(Run(s, ops), next)
  {
    if ops != [] {
      var n := |ops| - 1;
      UnboundedEqualsBadger(s, store, ops[..n], ops[n]);
      StepKeepsContents(Run(s, ops[..n]), BadgerRun(store, ops[..n]), ops[n]);
    }
    StepKeepsContents(Run(s, ops), BadgerRun(store, ops), next);
  }
}
