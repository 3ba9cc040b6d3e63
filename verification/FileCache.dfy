/** The cache objects, updated in place, each method proved against the value model. */
module FileCaching {
  import opened Text
  import opened CacheModel
  import opened CacheReload

  /** The directory on disk, shared by every cache opened on it. */
  class Directory {
    var files: map<string, File>
  }

  /** A list element: an entry that the key map and the recency list both point at. */
  class Element {
    const key: string
    var item: CacheItem

    constructor (key: string, item: CacheItem)
      ensures this.key == key && this.item == item
    {
      this.key, this.item := key, item;
    }
  }

  function EntriesOf(elements: seq<Element>): (entries: seq<Entry>)
    reads elements
    ensures |entries| == |elements|
    ensures forall i :: 0 <= i < |elements| ==> entries[i] == Entry(elements[i].key, elements[i].item)
  {
    if elements == [] then []
    else [Entry(elements[0].key, elements[0].item)] + EntriesOf(elements[1..])
  }

  /** The map and the list hold the same elements, one per key. */
  ghost predicate Linked(inMemory: map<string, Element>, lruList: seq<Element>) {
    && (forall i, j :: 0 <= i < j < |lruList| ==> lruList[i].key != lruList[j].key)
    && (forall e :: e in lruList ==> e.key in inMemory && inMemory[e.key] == e)
    && (forall k :: k in inMemory ==> inMemory[k] in lruList && inMemory[k].key == k)
  }

  lemma CutMembers(list: seq<Element>, i: nat)
    requires i < |list| && forall j, k :: 0 <= j < k < |list| ==> list[j].key != list[k].key
    ensures forall e :: e in list[..i] + list[i + 1..] <==> e in list && e != list[i]
    ensures forall e :: e in list[..i] + list[i + 1..] ==> e.key != list[i].key
  {}

  lemma CutLinked(inMemory: map<string, Element>, list: seq<Element>, i: nat)
    requires Linked(inMemory, list) && i < |list|
    ensures Linked(inMemory - {list[i].key}, list[..i] + list[i + 1..])
  {}

  lemma FrontLinked(inMemory: map<string, Element>, list: seq<Element>, i: nat)
    requires Linked(inMemory, list) && i < |list|
    ensures Linked(inMemory, [list[i]] + (list[..i] + list[i + 1..]))
    ensures forall e :: e in [list[i]] + (list[..i] + list[i + 1..]) <==> e in list
  {}

  class FileCache {
    var inMemory: map<string, Element>
    var lruList: seq<Element>
    const dir: Directory
    const maxSize: int
    const persisted: bool

    ghost predicate Valid()
      reads this
    {
      Linked(inMemory, lruList)
    }

    ghost function View(): State
      reads this, lruList, dir
    {
      State(EntriesOf(lruList), dir.files, maxSize, persisted)
    }

    /** NewFileCacheWithSize: a persisted cache first reads what the directory holds. */
    constructor (dir: Directory, persisted: bool, maxSize: int, now: int)
      modifies dir
      ensures Valid() && (forall e :: e in lruList ==> fresh(e)) && this.dir == dir && this.persisted == persisted
          && this.maxSize == maxSize
      ensures !persisted ==> View() == State([], old(dir.files), maxSize, false)
      ensures persisted ==>
        exists names :: Lists(names, old(dir.files)) && View() == Opened(old(dir.files), names, now, maxSize)
    {
      this.dir, this.persisted, this.maxSize := dir, persisted, maxSize;
      inMemory, lruList := map[], [];
      new;
      if persisted { LoadCacheFiles(now); }
    }

    method LoadCacheFiles(now: int)
      requires Valid() && lruList == [] && persisted
      modifies this, dir
      ensures Valid() && forall e :: e in lruList ==> fresh(e)
      ensures exists names :: Lists(names, old(dir.files)) && View() == Opened(old(dir.files), names, now, maxSize)
    {
      hide EntriesOf;
      ghost var files := dir.files;
      var names := SortedKeys(dir.files.Keys);
      SortedIsListing(names, files);
      for n := 0 to |names|
        invariant Valid() && forall e :: e in lruList ==> fresh(e)
        invariant View() == Opened(files, names[..n], now, maxSize)
      {
        assert names[..n + 1] == names[..n] + [names[n]];
        OpenedStep(files, names[..n], names[n], now, maxSize);
        if Loadable(files, names[n], now) {
          NotYetLoaded(files, names, n, now);
          KeysAgree(KeyOf(names[n]));
        }
        LoadFile(names[n], now);
      }
      assert names[..|names|] == names;
    }

    method LoadFile(name: string, now: int)
      requires Valid() && name in dir.files
      requires Loadable(dir.files, name, now) ==> KeyOf(name) !in inMemory
      modifies this, dir
      ensures Valid() && forall e :: e in lruList ==> e in old(lruList) || fresh(e)
      ensures dir.files == old(if Stale(dir.files, name, now) then dir.files - {name} else dir.files)
      ensures EntriesOf(lruList)
           == old((if Loadable(dir.files, name, now) then [Entry(KeyOf(name), dir.files[name].item)] else [])
                  + EntriesOf(lruList))
    {
      if !HasSuffix(name, ".json") { return; }
      var key := name[..|name| - 5];
      var file := dir.files[name];
      if file.Stored? {
        if Expired(file.item, now) {
          dir.files := dir.files - {name};
        } else {
          var _ := PushFront(key, file.item);
        }
      }
    }

    /** Looking a key up in the map is looking it up in the recency list. */
    lemma KeysAgree(key: string)
      requires Valid()
      ensures Find(EntriesOf(lruList), key) == if key in inMemory then Some(inMemory[key].item) else None
      ensures Distinct(EntriesOf(lruList))
    {
      var entries := EntriesOf(lruList);
      FindMember(entries, key);
      if key in inMemory {
        var i :| 0 <= i < |lruList| && lruList[i] == inMemory[key];
        assert entries[i].key == key;
      }
    }

    method PushFront(key: string, item: CacheItem) returns (element: Element)
      requires Valid() && key !in inMemory
      modifies this
      ensures Valid() && fresh(element) && lruList == [element] + old(lruList)
      ensures EntriesOf(lruList) == [Entry(key, item)] + old(EntriesOf(lruList))
    {
      element := new Element(key, item);
      lruList := [element] + lruList;
      inMemory := inMemory[key := element];
      assert lruList[1..] == old(lruList);
    }

    lemma Cut(i: nat)
      requires Valid() && i < |lruList|
      ensures EntriesOf(lruList[..i] + lruList[i + 1..]) == Without(EntriesOf(lruList), lruList[i].key)
    {
      KeysAgree(lruList[i].key);
      WithoutAt(EntriesOf(lruList), i);
      EntriesWithout(lruList, i);
    }

    /** list.Remove and the deletion of the key. */
    method Unlink(element: Element)
      requires Valid() && element in lruList
      modifies this
      ensures Valid() && element.key !in inMemory && (forall e :: e in lruList ==> e in old(lruList) && e != element)
      ensures EntriesOf(lruList) == Without(old(EntriesOf(lruList)), element.key)
    {
      hide EntriesOf, Without, Find, Linked;
      assert Distinct(EntriesOf(lruList)) by { KeysAgree(element.key); }
      var i :| 0 <= i < |lruList| && lruList[i] == element;
      Cut(i);
      CutLinked(inMemory, lruList, i);
      CutMembers(lruList, i);
      lruList := lruList[..i] + lruList[i + 1..];
      inMemory := inMemory - {element.key};
    }

    /** list.MoveToFront. */
    method MoveToFront(element: Element)
      requires Valid() && element in lruList
      modifies this`lruList
      ensures Valid() && (forall e :: e in lruList <==> e in old(lruList))
      ensures EntriesOf(lruList) == [Entry(element.key, element.item)] + Without(old(EntriesOf(lruList)), element.key)
    {
      hide EntriesOf, Without, Find, Linked;
      var i :| 0 <= i < |lruList| && lruList[i] == element;
      Cut(i);
      FrontLinked(inMemory, lruList, i);
      var rest := lruList[..i] + lruList[i + 1..];
      EntriesCons(element, rest);
      lruList := [element] + rest;
    }

    method RemoveFile(key: string)
      modifies dir
      ensures dir.files == if persisted then old(dir.files) - {FileName(key)} else old(dir.files)
    {
      if persisted { dir.files := dir.files - {key + ".json"}; }
    }

    method Get(key: string, now: int) returns (found: bool, data: string)
      requires Valid()
      modifies this, dir
      ensures Valid() && (forall e :: e in lruList ==> e in old(lruList))
      ensures View() == Step(old(View()), At(CacheModel.Get(key), now))
      ensures Reply(old(View()), At(CacheModel.Get(key), now)) == if found then Hit(data) else Miss
    {
      hide EntriesOf, Without;
      KeysAgree(key);
      if key !in inMemory { return false, ""; }
      var element := inMemory[key];
      if Expired(element.item, now) {
        Unlink(element);
        RemoveFile(key);
        return false, "";
      }
      MoveToFront(element);
      return true, element.item.data;
    }

    method Delete(key: string)
      requires Valid()
      modifies this, dir
      ensures Valid() && (forall e :: e in lruList ==> e in old(lruList))
      ensures forall now :: View() == Step(old(View()), At(CacheModel.Delete(key), now))
    {
      KeysAgree(key);
      if key in inMemory {
        Unlink(inMemory[key]);
      } else {
        WithoutAbsent(EntriesOf(lruList), key);
      }
      RemoveFile(key);
    }

    method Clear()
      requires Valid()
      modifies this, dir
      ensures Valid() && lruList == [] && inMemory == map[]
      ensures forall now :: View() == Step(old(View()), At(CacheModel.Clear, now))
    {
      inMemory, lruList := map[], [];
      if persisted { dir.files := map n | n in dir.files && !HasSuffix(n, ".json") :: dir.files[n]; }
    }

    method EvictLru()
      requires Valid()
      modifies this, dir
      ensures Valid() && (forall e :: e in lruList ==> e in old(lruList))
      ensures View() == CacheModel.EvictLru(old(View()))
    {
      hide EntriesOf, Without, Find;
      if lruList == [] { return; }
      var last := |lruList| - 1;
      var element := lruList[last];
      KeysAgree(element.key);
      WithoutAt(EntriesOf(lruList), last);
      assert EntriesOf(lruList)[..last] + EntriesOf(lruList)[last + 1..] == EntriesOf(lruList)[..last];
      Unlink(element);
      RemoveFile(element.key);
    }

    method Set(key: string, data: string, ttlNanos: int, now: int)
      requires Valid()
      modifies this, dir, lruList
      ensures Valid() && (forall e :: e in lruList ==> e in old(lruList) || fresh(e))
      ensures View() == Step(old(View()), At(CacheModel.Set(key, data, ttlNanos), now))
    {
      hide EntriesOf, Without, Find;
      var item := CacheItem(data, now, TtlSeconds(ttlNanos));
      KeysAgree(key);
      if key in inMemory {
        Update(inMemory[key], item);
      } else {
        AddNew(key, item);
      }
      assert View() == Insert(old(View()), key, item);
      if persisted { dir.files := dir.files[key + ".json" := Stored(item)]; }
    }

    method AddNew(key: string, item: CacheItem)
      requires Valid() && key !in inMemory
      modifies this, dir
      ensures Valid() && (forall e :: e in lruList ==> e in old(lruList) || fresh(e))
      ensures View() == Insert(old(View()), key, item)
    {
      hide EntriesOf, Without, Find;
      KeysAgree(key);
      WithoutAbsent(EntriesOf(lruList), key);
      var _ := PushFront(key, item);
      assert View() == Touched(old(View()), key, item);
      if maxSize > 0 && |lruList| > maxSize { EvictLru(); }
    }

    /** The element's item is replaced in place, then the element moves to the front. */
    method Update(element: Element, item: CacheItem)
      requires Valid() && element in lruList
      modifies this`lruList, element
      ensures Valid() && (forall e :: e in lruList <==> e in old(lruList))
      ensures EntriesOf(lruList) == [Entry(element.key, item)] + Without(old(EntriesOf(lruList)), element.key)
    {
      ghost var before := EntriesOf(lruList);
      KeysAgree(element.key);
      element.item := item;
      SameWithout(before, EntriesOf(lruList), element.key);
      MoveToFront(element);
    }
  }

  lemma EntriesCons(element: Element, rest: seq<Element>)
    ensures EntriesOf([element] + rest) == [Entry(element.key, element.item)] + EntriesOf(rest)
  {}

  lemma {:induction false} SameWithout(a: seq<Entry>, b: seq<Entry>, key: string)
    requires |a| == |b| && forall i :: 0 <= i < |a| ==> a[i].key == b[i].key && (a[i].key != key ==> a[i] == b[i])
    ensures Without(a, key) == Without(b, key)
  {
    if a != [] { SameWithout(a[1..], b[1..], key); }
  }

  lemma EntriesWithout(elements: seq<Element>, i: nat)
    requires i < |elements|
    ensures EntriesOf(elements[..i] + elements[i + 1..]) == EntriesOf(elements)[..i] + EntriesOf(elements)[i + 1..]
  {
    hide EntriesOf;
    var rest, entries := elements[..i] + elements[i + 1..], EntriesOf(elements);
    var cut := entries[..i] + entries[i + 1..];
    forall j | 0 <= j < |rest| ensures EntriesOf(rest)[j] == cut[j] {
      if j < i {
        assert rest[j] == elements[j] && cut[j] == entries[j];
      } else {
        assert rest[j] == elements[j + 1] && cut[j] == entries[j + 1];
      }
    }
  }

  lemma NotYetLoaded(files: map<string, File>, names: seq<string>, n: nat, now: int)
    requires Lists(names, files) && n < |names| && HasSuffix(names[n], ".json")
    ensures Find(Loaded(files, names[..n], now), KeyOf(names[n])).None?
  {
    KeyOfFileName(names[n]);
    LoadedLookup(files, names[..n], now, KeyOf(names[n]));
  }

  lemma SortedIsListing(names: seq<string>, files: map<string, File>)
    requires Sorted(names) && forall n :: n in names <==> n in files.Keys
    ensures Lists(names, files)
  {
    forall i, j | 0 <= i < j < |names| ensures names[i] != names[j] {
      LessTrichotomy(names[i], names[j]);
    }
  }

  /** The Badger cache, whose database is a map here. */
  class BadgerCache {
    var db: map<string, CacheItem>

    method Get(key: string, now: int) returns (found: bool, data: string)
      modifies this
      ensures db == BadgerStep(old(db), At(CacheModel.Get(key), now))
      ensures BadgerReply(old(db), At(CacheModel.Get(key), now)) == if found then Hit(data) else Miss
    {
      found, data := false, "";
      if key in db {
        var item := db[key];
        if !Expired(item, now) { found, data := true, item.data; }
      }
      if !found {
        ghost var before := db;
        Delete(key);
        assert db == BadgerStep(before, At(CacheModel.Delete(key), now));
      }
    }

    method Set(key: string, data: string, ttlNanos: int, now: int)
      modifies this
      ensures db == BadgerStep(old(db), At(CacheModel.Set(key, data, ttlNanos), now))
    {
      db := db[key := CacheItem(data, now, TtlSeconds(ttlNanos))];
    }

    method Delete(key: string)
      modifies this
      ensures forall now :: db == BadgerStep(old(db), At(CacheModel.Delete(key), now))
    {
      db := db - {key};
    }

    method Clear()
      modifies this
      ensures forall now :: db == BadgerStep(old(db), At(CacheModel.Clear, now))
    {
      db := map[];
    }
  }
}
