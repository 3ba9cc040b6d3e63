/** The mock server object. Each method is one section that holds the lock, proved to be a step of `MockTasks`. */
module MockServer {
  import opened Text
  import opened MockTasks
  import DiskSize

  class MockState {
    var guests: map<string, Guest>
    var storages: seq<Storage>
    var content: map<string, map<string, Volume>>
    var backups: set<string>
    var tasks: map<string, Task>
    var nextId: int

    // Which completion each task was given; its position is the task's serial.
    var issued: seq<Completion>
    ghost var pending: seq<(nat, Completion)>
    ghost var ran: seq<nat>
    ghost var firstExit: map<nat, string>
    ghost var lost: set<nat>

    ghost function View(): State
      reads this
    {
      State(guests, storages, content, backups, tasks, nextId, pending, issued, ran, firstExit, lost)
    }

    /** `upid` is whatever identifier the clock and the arguments give: it may be one already in use. */
    method StartTask(upid: string, onComplete: Completion)
      modifies this
      ensures View() == After(old(View()), CreateTask(upid, onComplete))
    {
      lost := if Running(View(), upid) then lost + {tasks[upid].serial} else lost;
      tasks := tasks[upid := Task(|issued|, false, "", onComplete)];
      issued := issued + [onComplete];
    }

    /** The lock-held part of CompleteTask. The caller then runs what is returned. */
    method MarkStopped(upid: string, exitStatus: string) returns (run: Completion)
      modifies this
      ensures View() == After(old(View()), CompleteTask(upid, exitStatus))
      ensures run == if pending == old(pending) then Nothing else pending[|pending| - 1].1
    {
      if upid !in tasks || tasks[upid].stopped { return Nothing; }
      var task := tasks[upid];
      tasks := tasks[upid := task.(stopped := true, exitStatus := exitStatus)];
      firstExit := firstExit[task.serial := exitStatus];
      run := if exitStatus == "OK" then task.onComplete else Nothing;
      if run != Nothing { pending := pending + [(task.serial, run)]; }
    }

    /** Running the completion of `pending[index]`. */
    method RunCompletion(ghost index: nat, completion: Completion) returns (ghost key: string)
      requires index < |pending| && completion == pending[index].1
      modifies this
      ensures Enabled(old(View()), MockTasks.RunCompletion(index, key))
      ensures View() == After(old(View()), MockTasks.RunCompletion(index, key))
    {
      key := Perform(completion);
      ran := ran + [pending[index].0];
      pending := pending[..index] + pending[index + 1..];
    }

    method Perform(c: Completion) returns (ghost key: string)
      modifies this`guests, this`storages, this`content, this`backups, this`nextId
      ensures Sought(old(View()), c).Some? ==> IsSite(old(content), Sought(old(View()), c).value, key)
      ensures View() == Applied(old(View()), c, key)
    {
      key := "";
      match c {
        case Nothing =>
        case SetStatus(vmid, action) =>
          if vmid in guests { guests := guests[vmid := StatusAfter(guests[vmid], action)]; }
        case CreateGuest(id, guest, volumes, forceRestore) =>
          PerformCreate(id, guest, volumes, forceRestore);
        case ResizeDisk(vmid, disk, size) =>
          key := PerformResize(vmid, disk, size);
        case StoreBackup(backup) =>
          backups := backups + {backup.volId};
          AddVolumeTo(backup);
          Recalculate();
        case DeleteContent(volId) =>
          key := DeleteVolume(volId);
          backups := backups - {volId};
          Recalculate();
        case AddVolume(volume) =>
          AddVolumeTo(volume);
          Recalculate();
      }
    }

    method PerformCreate(id: int, guest: Guest, volumes: seq<Volume>, forceRestore: bool)
      modifies this`guests, this`storages, this`content, this`nextId
      ensures View() == Applied(old(View()), CreateGuest(id, guest, volumes, forceRestore), "")
      ensures forceRestore ==> forall k, v :: RestoredAt(old(content), content, id, volumes, k, v)
      ensures forceRestore ==>
        forall k, v :: k in content && v in content[k] && content[k][v].vmid == id ==> content[k][v] in volumes
    {
      ForcedRestoreReplaces(View(), id, guest, volumes);
      if forceRestore { DeleteGuestVolumes(id); }
      guests := guests[Dec(id) := guest];
      AddVolumes(volumes);
      if id >= nextId { nextId := id + 1; }
      Recalculate();
    }

    method DeleteVolume(volId: string) returns (ghost site: string)
      modifies this`content
      ensures IsSite(old(content), volId, site) && content == WithoutVolume(old(content), volId, site)
      ensures OnlyThatGone(old(content), content, volId, site)
    {
      hide OnlyThatGone;
      ghost var before := content;
      var key := FindVolume(volId);
      site := key;
      if key in content && volId in content[key] {
        content := content[key := content[key] - {volId}];
        if content[key] == map[] { content := content - {key}; }
      }
      VolumeLeaves(before, volId, key);
    }

    method PerformResize(vmid: string, disk: string, size: string) returns (ghost key: string)
      modifies this`guests, this`storages, this`content
      ensures ResizeTarget(old(View()), vmid, disk).Some? ==>
          IsSite(old(content), ResizeTarget(old(View()), vmid, disk).value, key)
      ensures View() == Resized(old(View()), vmid, disk, size, key)
    {
      hide DiskSize.ExtractVolumeId, DiskSize.ApplySizeDelta, DiskSize.ReplaceConfigSize, Recalculated;
      key := "";
      if vmid !in guests || disk !in guests[vmid].config { return; }
      var guest := guests[vmid];
      var current := guest.config[disk];
      if current == "" { return; }
      var volId := DiskSize.ExtractVolumeId(current);
      if volId == "" { return; }
      var site := FindVolume(volId);
      key := site;
      if site !in content || volId !in content[site] { return; }
      var volume := content[site][volId];
      var newSize := DiskSize.ApplySizeDelta(volume.size, size);
      if newSize.None? { return; }
      content := content[site := content[site][volId := volume.(size := newSize.value)]];
      var config := DiskSize.RewriteSize(current, newSize.value);
      guests := guests[vmid := guest.(maxDisk := newSize.value, config := guest.config[disk := config])];
      Recalculate();
    }

    /** Any storage that holds the volume, or any name at all when none does. */
    method FindVolume(volId: string) returns (site: string)
      ensures IsSite(content, volId, site)
    {
      site := "";
      var left := content.Keys;
      while left != {}
        invariant left <= content.Keys
        invariant forall k :: k in content && k !in left ==> volId !in content[k]
        decreases |left|
      {
        var k :| k in left;
        left := left - {k};
        if volId in content[k] { return k; }
      }
    }

    method AddVolumeTo(volume: Volume)
      modifies this`content
      ensures content == WithVolume(old(content), volume)
    {
      var key := ContentKey(volume.node, volume.storage);
      if key !in content { content := content[key := map[]]; }
      content := content[key := content[key][volume.volId := volume]];
    }

    method AddVolumes(volumes: seq<Volume>)
      modifies this`content
      ensures content == WithVolumes(old(content), volumes)
    {
      for i := 0 to |volumes|
        invariant content == WithVolumes(old(content), volumes[..i])
      {
        assert volumes[..i + 1][..i] == volumes[..i];
        AddVolumeTo(volumes[i]);
      }
      assert volumes[..|volumes|] == volumes;
    }

    method DeleteGuestVolumes(vmid: int)
      modifies this`content
      ensures content == WithoutGuest(old(content), vmid) && OnlyOthersLeft(old(content), content, vmid)
    {
      GuestVolumesLeave(content, vmid);
      hide OnlyOthersLeft;
      hide OfOthers, PartlyWithoutGuest, WithoutGuest;
      ghost var start := content;
      PartlyStarts(start, vmid);
      var left := content.Keys;
      while left != {}
        invariant left <= start.Keys
        invariant content == PartlyWithoutGuest(start, vmid, left)
        decreases |left|
      {
        var key :| key in left;
        PartlyStep(start, vmid, left, key);
        left := left - {key};
        DropFrom(key, vmid);
      }
    }

    method DropFrom(key: string, vmid: int)
      requires key in content
      modifies this`content
      ensures var kept := OfOthers(old(content)[key], vmid);
              content == if kept == map[] then old(content) - {key} else old(content)[key := kept]
    {
      hide OfOthers;
      var volumes := KeepOthers(content[key], vmid);
      content := content[key := volumes];
      if |volumes| == 0 { content := content - {key}; }
    }

    static method KeepOthers(volumes0: map<string, Volume>, vmid: int) returns (volumes: map<string, Volume>)
      ensures volumes == OfOthers(volumes0, vmid)
    {
      volumes := volumes0;
      var left := volumes0.Keys;
      while left != {}
        invariant left <= volumes0.Keys
        invariant forall v :: v in volumes <==> v in volumes0 && (v in left || volumes0[v].vmid != vmid)
        invariant forall v :: v in volumes ==> volumes[v] == volumes0[v]
        decreases |left|
      {
        var v :| v in left;
        left := left - {v};
        if volumes0[v].vmid == vmid { volumes := volumes - {v}; }
      }
    }

    method Recalculate()
      modifies this`storages
      ensures storages == Recalculated(old(storages), content)
    {
      var usage: map<string, int> := map[];
      var left := content.Keys;
      while left != {}
        invariant left <= content.Keys && usage.Keys == content.Keys - left && storages == old(storages)
        invariant forall k :: k in usage ==> usage[k] == Usage(content, k)
        decreases |left|
      {
        var key :| key in left;
        left := left - {key};
        var total := Sum(content[key]);
        usage := usage[key := total];
      }
      for i := 0 to |storages|
        invariant |storages| == |old(storages)| && storages[i..] == old(storages)[i..]
        invariant storages[..i] == Recalculated(old(storages), content)[..i]
      {
        var key := ContentKey(storages[i].node, storages[i].id);
        assert storages[i] == storages[i..][0] == old(storages)[i..][0];
        storages := storages[i := storages[i].(disk := if key in usage then usage[key] else 0)];
      }
      assert storages == storages[..|storages|] == Recalculated(old(storages), content);
    }

    static method Sum(volumes: map<string, Volume>) returns (total: int)
      ensures total == Total(volumes)
    {
      total := 0;
      var left := volumes;
      while left != map[]
        invariant total + Total(left) == Total(volumes)
        decreases |left|
      {
        var v :| v in left;
        TotalWithout(left, v);
        total := total + left[v].size;
        left := left - {v};
      }
    }

    /** The requested number if it is free; otherwise an error. Without a request, the least free number
        from nextId on, found within one probe more than there are guests. */
    method GetNextId(requested: int) returns (id: int, ok: bool)
      ensures requested > 0 ==> ok == (Dec(requested) !in guests) && (ok ==> id == requested)
      ensures requested <= 0 ==> ok && nextId <= id <= nextId + |guests| && Dec(id) !in guests
                                 && forall n :: nextId <= n < id ==> Dec(n) in guests
    {
      if requested > 0 {
        if Dec(requested) in guests { return 0, false; }
        return requested, true;
      }
      id, ok := nextId, true;
      IdsBounded(guests, nextId, 0);
      while Dec(id) in guests
        invariant nextId <= id <= nextId + |guests|
        invariant forall n :: nextId <= n < id ==> Dec(n) in guests
        decreases nextId + |guests| - id
      {
        IdsBounded(guests, nextId, id + 1 - nextId);
        id := id + 1;
      }
    }
  }

  /** The content while the guest's volumes are being deleted: the storages in `left` are still to be visited. */
  function PartlyWithoutGuest(content: map<string, map<string, Volume>>, vmid: int, left: set<string>)
    : map<string, map<string, Volume>>
  {
    map key | key in content && (key in left || OfOthers(content[key], vmid) != map[])
      :: if key in left then content[key] else OfOthers(content[key], vmid)
  }

  lemma PartlyStarts(content: map<string, map<string, Volume>>, vmid: int)
    ensures PartlyWithoutGuest(content, vmid, content.Keys) == content
    ensures PartlyWithoutGuest(content, vmid, {}) == WithoutGuest(content, vmid)
  {}

  lemma PartlyStep(content: map<string, map<string, Volume>>, vmid: int, left: set<string>, key: string)
    requires key in left && left <= content.Keys
    ensures var now, volumes := PartlyWithoutGuest(content, vmid, left), OfOthers(content[key], vmid);
            && key in now && now[key] == content[key]
            && PartlyWithoutGuest(content, vmid, left - {key})
               == if volumes == map[] then now - {key} else now[key := volumes]
  {
    hide OfOthers;
  }

  /** Pigeonhole: consecutive numbers that are all taken are no more than there are guests. */
  lemma IdsBounded(guests: map<string, Guest>, from: int, count: nat)
    requires forall n :: from <= n < from + count ==> Dec(n) in guests
    ensures count <= |guests|
  {
    var names := Names(from, count);
    NamesAreDistinct(from, count);
    assert names <= guests.Keys;
    SubsetBounded(names, guests.Keys);
  }

  function Names(from: int, count: nat): set<string> { set n | from <= n < from + count :: Dec(n) }

  lemma {:induction false} NamesAreDistinct(from: int, count: nat)
    ensures |Names(from, count)| == count
  {
    hide Dec;
    if count == 0 {
      assert Names(from, 0) == {};
    } else {
      var last := from + count - 1;
      NamesAreDistinct(from, count - 1);
      forall n | from <= n < last ensures Dec(n) != Dec(last) { DecInjective(n, last); }
      assert Names(from, count) == Names(from, count - 1) + {Dec(last)};
    }
  }
}
