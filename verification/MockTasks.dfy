/** The mock server's state: asynchronous tasks whose completions change guests and storage. Every section
    that holds the lock is one step; marking a task as stopped and running its completion are two of them. */
module MockTasks {
  import opened Text
  import DiskSize

  datatype Volume = Volume(volId: string, node: string, storage: string, content: string, size: int, vmid: int)

  datatype Storage = Storage(id: string, node: string, disk: int)

  /** Only the string values of a configuration matter here. */
  datatype Guest = Guest(id: int, name: string, node: string, status: string, uptime: int, maxDisk: int,
                         config: map<string, string>)

  /** The closure a task carries. */
  datatype Completion =
    | Nothing
    | SetStatus(vmid: string, action: string)
    | CreateGuest(newId: int, guest: Guest, volumes: seq<Volume>, forceRestore: bool)
    | ResizeDisk(vmid: string, disk: string, size: string)
    | StoreBackup(backup: Volume)
    | DeleteContent(volId: string)
    | AddVolume(volume: Volume)

  /** `serial` tells apart tasks that were given the same identifier. */
  datatype Task = Task(serial: nat, stopped: bool, exitStatus: string, onComplete: Completion)

  datatype State = State(
    guests: map<string, Guest>,
    storages: seq<Storage>,
    content: map<string, map<string, Volume>>,
    backups: set<string>,
    tasks: map<string, Task>,
    nextId: int,
    // goroutines between marking a task and running its completion
    pending: seq<(nat, Completion)>,
    // history
    issued: seq<Completion>,
    ran: seq<nat>,
    firstExit: map<nat, string>,
    lost: set<nat>)

  // ---- Storage ----

  function ContentKey(node: string, storage: string): string { node + "/" + storage }

  ghost function Total(volumes: map<string, Volume>): int {
    if volumes == map[] then 0
    else
      var v :| v in volumes;
      volumes[v].size + Total(volumes - {v})
  }

  ghost function Usage(content: map<string, map<string, Volume>>, key: string): int {
    if key in content then Total(content[key]) else 0
  }

  lemma {:induction false} TotalWithout(volumes: map<string, Volume>, v: string)
    requires v in volumes
    ensures Total(volumes) == volumes[v].size + Total(volumes - {v})
    decreases |volumes|
  {
    var w :| w in volumes && Total(volumes) == volumes[w].size + Total(volumes - {w});
    if w != v {
      TotalWithout(volumes - {w}, v);
      TotalWithout(volumes - {v}, w);
      assert volumes - {w} - {v} == volumes - {v} - {w};
    }
  }

  /** What recalculateStorageUsageLocked establishes. */
  ghost predicate Accounted(storages: seq<Storage>, content: map<string, map<string, Volume>>) {
    forall i :: 0 <= i < |storages| ==> storages[i].disk == Usage(content, ContentKey(storages[i].node, storages[i].id))
  }

  ghost function Recalculated(storages: seq<Storage>, content: map<string, map<string, Volume>>): seq<Storage> {
    seq(|storages|, i requires 0 <= i < |storages| =>
      storages[i].(disk := Usage(content, ContentKey(storages[i].node, storages[i].id))))
  }

  function WithVolume(content: map<string, map<string, Volume>>, v: Volume): map<string, map<string, Volume>> {
    var key := ContentKey(v.node, v.storage);
    content[key := (if key in content then content[key] else map[])[v.volId := v]]
  }

  function WithVolumes(content: map<string, map<string, Volume>>, volumes: seq<Volume>)
    : map<string, map<string, Volume>>
  {
    if volumes == [] then content
    else WithVolume(WithVolumes(content, volumes[..|volumes| - 1]), volumes[|volumes| - 1])
  }

  /** `key` is a place where `volId` is stored, or nothing stores it. */
  predicate IsSite(content: map<string, map<string, Volume>>, volId: string, key: string) {
    (key in content && volId in content[key]) || forall k :: k in content ==> volId !in content[k]
  }

  function WithoutVolume(content: map<string, map<string, Volume>>, volId: string, key: string)
    : map<string, map<string, Volume>>
  {
    if key !in content || volId !in content[key] then content
    else if content[key] - {volId} == map[] then content - {key}
    else content[key := content[key] - {volId}]
  }

  function OfOthers(volumes: map<string, Volume>, vmid: int): map<string, Volume> {
    map v | v in volumes && volumes[v].vmid != vmid :: volumes[v]
  }

  /** Every volume of the guest is gone, and with them the storages left empty. */
  function WithoutGuest(content: map<string, map<string, Volume>>, vmid: int): map<string, map<string, Volume>> {
    map key | key in content && OfOthers(content[key], vmid) != map[] :: OfOthers(content[key], vmid)
  }

  // ---- Completions ----

  ghost function Settled(s: State): State { s.(storages := Recalculated(s.storages, s.content)) }

  function StatusAfter(g: Guest, action: string): Guest {
    if action == "start" || action == "reboot" then g.(status := "running", uptime := 1)
    else if action == "stop" || action == "shutdown" then g.(status := "stopped", uptime := 0)
    else g
  }

  /** The volume that a resize finds, when the guest and its disk are there. */
  function ResizeTarget(s: State, vmid: string, disk: string): Option<string> {
    if vmid in s.guests && disk in s.guests[vmid].config && s.guests[vmid].config[disk] != ""
       && DiskSize.ExtractVolumeId(s.guests[vmid].config[disk]) != ""
    then Some(DiskSize.ExtractVolumeId(s.guests[vmid].config[disk])) else None
  }

  ghost function Resized(s: State, vmid: string, disk: string, raw: string, key: string): State {
    match ResizeTarget(s, vmid, disk)
    case None => s
    case Some(volId) =>
      if key !in s.content || volId !in s.content[key] then s
      else
        match DiskSize.ApplySizeDelta(s.content[key][volId].size, raw)
        case None => s
        case Some(size) =>
          var g := s.guests[vmid];
          var volume := s.content[key][volId].(size := size);
          var config := g.config[disk := DiskSize.ReplaceConfigSize(g.config[disk], size)];
          Settled(s.(
            content := s.content[key := s.content[key][volId := volume]],
            guests := s.guests[vmid := g.(maxDisk := size, config := config)]))
  }

  /** The effect of a completion. `key` is the storage where a volume identifier was found, which is any of
      those that hold it, since the maps are searched in no particular order. */
  ghost function Applied(s: State, c: Completion, key: string): State {
    match c
    case Nothing => s
    case SetStatus(vmid, action) =>
      if vmid in s.guests then s.(guests := s.guests[vmid := StatusAfter(s.guests[vmid], action)]) else s
    case CreateGuest(id, guest, volumes, forceRestore) =>
      var kept := if forceRestore then WithoutGuest(s.content, id) else s.content;
      Settled(s.(guests := s.guests[Dec(id) := guest], content := WithVolumes(kept, volumes),
                 nextId := if id >= s.nextId then id + 1 else s.nextId))
    case ResizeDisk(vmid, disk, size) => Resized(s, vmid, disk, size, key)
    case StoreBackup(backup) =>
      Settled(s.(backups := s.backups + {backup.volId}, content := WithVolume(s.content, backup)))
    case DeleteContent(volId) =>
      Settled(s.(content := WithoutVolume(s.content, volId, key), backups := s.backups - {volId}))
    case AddVolume(volume) => Settled(s.(content := WithVolume(s.content, volume)))
  }

  /** The volume identifier a completion searches for. */
  function Sought(s: State, c: Completion): Option<string> {
    match c
    case ResizeDisk(vmid, disk, _) => ResizeTarget(s, vmid, disk)
    case DeleteContent(volId) => Some(volId)
    case _ => None
  }

  // ---- Steps ----

  datatype Step =
    | CreateTask(upid: string, onComplete: Completion)
    | CompleteTask(upid: string, exitStatus: string)
    | RunCompletion(index: nat, key: string)
    | DeleteGuest(vmid: string)
    | PutGuest(vmid: string, guest: Guest)
    | DropBackup(volId: string)

  ghost predicate Enabled(s: State, step: Step) {
    match step
    case RunCompletion(index, key) =>
      index < |s.pending|
      && (Sought(s, s.pending[index].1).Some? ==> IsSite(s.content, Sought(s, s.pending[index].1).value, key))
    case _ => true
  }

  predicate Running(s: State, upid: string) { upid in s.tasks && !s.tasks[upid].stopped }

  ghost function After(s: State, step: Step): State
    requires Enabled(s, step)
  {
    match step
    case CreateTask(upid, onComplete) =>
      s.(tasks := s.tasks[upid := Task(|s.issued|, false, "", onComplete)], issued := s.issued + [onComplete],
         lost := if Running(s, upid) then s.lost + {s.tasks[upid].serial} else s.lost)
    case CompleteTask(upid, exitStatus) =>
      if !Running(s, upid) then s
      else
        var t := s.tasks[upid];
        var runs := exitStatus == "OK" && t.onComplete != Nothing;
        s.(tasks := s.tasks[upid := t.(stopped := true, exitStatus := exitStatus)],
           firstExit := s.firstExit[t.serial := exitStatus],
           pending := if runs then s.pending + [(t.serial, t.onComplete)] else s.pending)
    case RunCompletion(index, key) =>
      var (serial, completion) := s.pending[index];
      Applied(s, completion, key).(pending := s.pending[..index] + s.pending[index + 1..], ran := s.ran + [serial])
    case DeleteGuest(vmid) => s.(guests := s.guests - {vmid})
    case PutGuest(vmid, guest) => s.(guests := s.guests[vmid := guest])
    case DropBackup(volId) => s.(backups := s.backups - {volId})
  }

  ghost predicate IsRun(states: seq<State>, steps: seq<Step>) {
    |states| == |steps| + 1 && Initial(states[0])
    && forall i :: 0 <= i < |steps| ==> Enabled(states[i], steps[i]) && states[i + 1] == After(states[i], steps[i])
  }

  /** NewMockState: whatever it seeds, it ends by recalculating the usage and has no task yet. */
  ghost predicate Initial(s: State) {
    Accounted(s.storages, s.content) && s.tasks == map[] && s.pending == [] && s.ran == [] && s.issued == []
    && s.firstExit == map[] && s.lost == {}
  }

  // ---- Storage accounting ----

  /** Whenever the lock is free, every storage's usage is the sum of the sizes of its volumes. */
  lemma StepKeepsAccounts(s: State, step: Step)
    requires Enabled(s, step) && Accounted(s.storages, s.content)
    ensures Accounted(After(s, step).storages, After(s, step).content)
  {
    hide Total;
    if step.RunCompletion? {
      ApplyKeepsAccounts(s, s.pending[step.index].1, step.key);
    }
  }

  lemma ApplyKeepsAccounts(s: State, c: Completion, key: string)
    requires Accounted(s.storages, s.content)
    ensures Accounted(Applied(s, c, key).storages, Applied(s, c, key).content)
  {
    hide Total, Usage;
  }

  /** Adding a volume adds its size to its own storage, in place of a volume of the same name. */
  lemma AddedUsage(content: map<string, map<string, Volume>>, v: Volume, key: string)
    ensures var own := ContentKey(v.node, v.storage);
            Usage(WithVolume(content, v), key)
            == Usage(content, key)
               + if key != own then 0
                 else if own in content && v.volId in content[own] then v.size - content[own][v.volId].size
                 else v.size
  {
    var own := ContentKey(v.node, v.storage);
    if key == own {
      var before := if own in content then content[own] else map[];
      var after := before[v.volId := v];
      TotalWithout(after, v.volId);
      assert after - {v.volId} == before - {v.volId};
      if v.volId in before { TotalWithout(before, v.volId); } else { assert before - {v.volId} == before; }
    }
  }

  /** Deleting a volume takes its size from the storage where it was found, and from no other. */
  lemma DeletedUsage(content: map<string, map<string, Volume>>, volId: string, site: string, key: string)
    ensures Usage(WithoutVolume(content, volId, site), key)
         == Usage(content, key)
            - if key == site && site in content && volId in content[site] then content[site][volId].size else 0
  {
    if site in content && volId in content[site] { TotalWithout(content[site], volId); }
  }

  /** What is left when a guest's volumes are deleted: exactly the volumes of other guests, as they were, and no
      storage without volumes. */
  ghost predicate OnlyOthersLeft(before: map<string, map<string, Volume>>, after: map<string, map<string, Volume>>,
                                 vmid: int)
  {
    && (forall k, v :: k in after && v in after[k] <==> k in before && v in before[k] && before[k][v].vmid != vmid)
    && (forall k, v :: k in after && v in after[k] && k in before && v in before[k] ==> after[k][v] == before[k][v])
    && (forall k :: k in after ==> after[k] != map[])
  }

  lemma GuestVolumesLeave(content: map<string, map<string, Volume>>, vmid: int)
    ensures OnlyOthersLeft(content, WithoutGuest(content, vmid), vmid)
  {
    forall k, v | k in content && v in content[k] && content[k][v].vmid != vmid
      ensures k in WithoutGuest(content, vmid)
    {
      assert v in OfOthers(content[k], vmid);
    }
  }

  /** What is left when one volume is deleted where it was found: every other one as it was, and that storage only
      if it still holds some. */
  ghost predicate OnlyThatGone(before: map<string, map<string, Volume>>, after: map<string, map<string, Volume>>,
                               volId: string, site: string)
  {
    && (forall k, v :: k in after && v in after[k] <==> k in before && v in before[k] && !(k == site && v == volId))
    && (forall k, v :: k in after && v in after[k] && k in before && v in before[k] ==> after[k][v] == before[k][v])
    && (site in before && volId in before[site] && site in after ==> after[site] != map[])
  }

  lemma VolumeLeaves(content: map<string, map<string, Volume>>, volId: string, site: string)
    ensures OnlyThatGone(content, WithoutVolume(content, volId, site), volId, site)
  {
    var after := WithoutVolume(content, volId, site);
    forall k, v | k in content && v in content[k] && !(k == site && v == volId) ensures k in after && v in after[k] {
      if k == site && volId in content[k] { assert v in content[k] - {volId}; }
    }
  }

  function Owned(volumes: map<string, Volume>, vmid: int): map<string, Volume> {
    map v | v in volumes && volumes[v].vmid == vmid :: volumes[v]
  }

  lemma OwnersWithout(volumes: map<string, Volume>, vmid: int, v: string)
    requires v in volumes
    ensures Owned(volumes - {v}, vmid) == Owned(volumes, vmid) - {v}
    ensures OfOthers(volumes - {v}, vmid) == OfOthers(volumes, vmid) - {v}
    ensures volumes[v].vmid == vmid ==>
        v in Owned(volumes, vmid) && OfOthers(volumes, vmid) - {v} == OfOthers(volumes, vmid)
    ensures volumes[v].vmid != vmid ==>
        v in OfOthers(volumes, vmid) && Owned(volumes, vmid) - {v} == Owned(volumes, vmid)
    ensures v in Owned(volumes, vmid) ==> Owned(volumes, vmid)[v] == volumes[v]
    ensures v in OfOthers(volumes, vmid) ==> OfOthers(volumes, vmid)[v] == volumes[v]
  {}

  lemma {:induction false} TotalSplits(volumes: map<string, Volume>, vmid: int)
    ensures Total(OfOthers(volumes, vmid)) + Total(Owned(volumes, vmid)) == Total(volumes)
    decreases |volumes|
  {
    if volumes == map[] {
      assert Owned(volumes, vmid) == map[] && OfOthers(volumes, vmid) == map[];
    } else {
      var v :| v in volumes;
      OwnersWithout(volumes, vmid, v);
      TotalSplits(volumes - {v}, vmid);
      hide Owned, OfOthers;
      TotalWithout(volumes, v);
      if volumes[v].vmid == vmid {
        TotalWithout(Owned(volumes, vmid), v);
      } else {
        TotalWithout(OfOthers(volumes, vmid), v);
      }
    }
  }

  /** Deleting a guest's volumes takes their sizes from each storage that holds some, and nothing else. */
  lemma GuestUsageLeaves(content: map<string, map<string, Volume>>, vmid: int, key: string)
    ensures Usage(WithoutGuest(content, vmid), key)
         == Usage(content, key) - if key in content then Total(Owned(content[key], vmid)) else 0
  {
    if key in content { TotalSplits(content[key], vmid); }
  }

  /** `v` goes to that place under that name. */
  predicate GoesTo(v: Volume, key: string, volId: string) { ContentKey(v.node, v.storage) == key && v.volId == volId }

  /** The last of these volumes that goes there. */
  predicate LastTo(volumes: seq<Volume>, i: int, key: string, volId: string) {
    && 0 <= i < |volumes| && GoesTo(volumes[i], key, volId)
    && forall j :: i < j < |volumes| ==> !GoesTo(volumes[j], key, volId)
  }

  /** Added volumes are stored where they go, the last one of each name, and all others stay as they were. */
  lemma {:induction false} AddedVolumes(content: map<string, map<string, Volume>>, volumes: seq<Volume>,
                                        key: string, v: string)
    ensures var after := WithVolumes(content, volumes);
            if exists i :: 0 <= i < |volumes| && GoesTo(volumes[i], key, v) then
              key in after && v in after[key] && exists i :: LastTo(volumes, i, key, v) && after[key][v] == volumes[i]
            else
              && (key in after && v in after[key] <==> key in content && v in content[key])
              && (key in after && v in after[key] ==> after[key][v] == content[key][v])
  {
    hide WithVolume, GoesTo;
    if volumes != [] {
      var n := |volumes| - 1;
      AddedVolumes(content, volumes[..n], key, v);
      OneAdded(WithVolumes(content, volumes[..n]), volumes[n], key, v);
      if GoesTo(volumes[n], key, v) {
        assert LastTo(volumes, n, key, v);
      } else if i :| 0 <= i < n && GoesTo(volumes[i], key, v) {
        assert GoesTo(volumes[..n][i], key, v);
        var last :| LastTo(volumes[..n], last, key, v)
                    && WithVolumes(content, volumes[..n])[key][v] == volumes[..n][last];
        LastStays(volumes, n, last, key, v);
      } else {
        assert forall i :: 0 <= i < n ==> volumes[..n][i] == volumes[i];
      }
    }
  }

  lemma OneAdded(content: map<string, map<string, Volume>>, volume: Volume, key: string, v: string)
    ensures var after := WithVolume(content, volume);
            if GoesTo(volume, key, v) then key in after && v in after[key] && after[key][v] == volume
            else
              && (key in after && v in after[key] <==> key in content && v in content[key])
              && (key in after && v in after[key] ==> after[key][v] == content[key][v])
  {
    hide ContentKey;
  }

  lemma LastStays(volumes: seq<Volume>, n: nat, last: int, key: string, v: string)
    requires |volumes| == n + 1 && LastTo(volumes[..n], last, key, v) && !GoesTo(volumes[n], key, v)
    ensures LastTo(volumes, last, key, v)
  {
    hide GoesTo;
    assert forall j :: 0 <= j < n ==> volumes[..n][j] == volumes[j];
  }

  /** What a forced restore stores at one place under one name: the last new volume that goes there, else what was
      there before, unless it was the guest's. */
  ghost predicate RestoredAt(before: map<string, map<string, Volume>>, after: map<string, map<string, Volume>>, id: int,
                       volumes: seq<Volume>, k: string, v: string)
  {
    if exists i :: 0 <= i < |volumes| && GoesTo(volumes[i], k, v) then
      k in after && v in after[k] && exists i :: LastTo(volumes, i, k, v) && after[k][v] == volumes[i]
    else
      && (k in after && v in after[k] <==> k in before && v in before[k] && before[k][v].vmid != id)
      && (k in after && v in after[k] ==> after[k][v] == before[k][v])
  }

  /** After a forced restore the new volumes are stored, the guest has no others, and those of other guests stay as
      they were unless a new one took their name. */
  lemma ForcedRestoreReplaces(s: State, id: int, guest: Guest, volumes: seq<Volume>)
    ensures var after := Applied(s, CreateGuest(id, guest, volumes, true), "").content;
            && (forall k, v :: RestoredAt(s.content, after, id, volumes, k, v))
            && forall k, v :: k in after && v in after[k] && after[k][v].vmid == id ==> after[k][v] in volumes
  {
    hide Applied, WithVolumes, WithoutGuest, GoesTo;
    var after := Applied(s, CreateGuest(id, guest, volumes, true), "").content;
    ForcedContent(s, id, guest, volumes);
    LeavesOthers(s.content, id);
    forall k, v
      ensures RestoredAt(s.content, after, id, volumes, k, v)
      ensures k in after && v in after[k] && after[k][v].vmid == id ==> after[k][v] in volumes
    {
      AddedVolumes(WithoutGuest(s.content, id), volumes, k, v);
    }
  }

  lemma ForcedContent(s: State, id: int, guest: Guest, volumes: seq<Volume>)
    ensures Applied(s, CreateGuest(id, guest, volumes, true), "").content
         == WithVolumes(WithoutGuest(s.content, id), volumes)
  {
    hide WithVolumes, WithoutGuest, Recalculated;
  }

  lemma LeavesOthers(content: map<string, map<string, Volume>>, vmid: int)
    ensures var left := WithoutGuest(content, vmid);
            forall k, v ::
              && (k in left && v in left[k] <==> k in content && v in content[k] && content[k][v].vmid != vmid)
              && (k in left && v in left[k] ==> left[k][v] == content[k][v])
  {
    GuestVolumesLeave(content, vmid);
    hide WithoutGuest;
  }

  // ---- What requests and completions do to a guest ----

  /** A request acts on its own guest or backup alone. */
  lemma RequestsActAlone(s: State, vmid: string, guest: Guest, volId: string)
    ensures var deleted, put := After(s, DeleteGuest(vmid)), After(s, PutGuest(vmid, guest));
            && vmid !in deleted.guests && vmid in put.guests && put.guests[vmid] == guest
            && (forall g :: g != vmid ==>
                  (g in deleted.guests <==> g in s.guests) && (g in put.guests <==> g in s.guests))
            && (forall g :: g != vmid && g in s.guests ==> deleted.guests[g] == put.guests[g] == s.guests[g])
            && deleted == s.(guests := deleted.guests) && put == s.(guests := put.guests)
    ensures var dropped := After(s, DropBackup(volId));
            (forall b :: b in dropped.backups <==> b in s.backups && b != volId)
              && dropped == s.(backups := dropped.backups)
  {}

  /** Starting and stopping, by name; an action of another name changes nothing, and neither does one on a guest
      that is gone. Only the status and the uptime change, and only of that guest. */
  lemma StatusChanges(s: State, vmid: string, action: string)
    ensures var s' := Applied(s, SetStatus(vmid, action), "");
            && s'.guests.Keys == s.guests.Keys && s' == s.(guests := s'.guests)
            && (forall g :: g in s.guests && g != vmid ==> s'.guests[g] == s.guests[g])
            && (vmid in s.guests ==>
                  var g, g' := s.guests[vmid], s'.guests[vmid];
                  && (action in ["start", "reboot"] ==> g'.status == "running" && g'.uptime == 1)
                  && (action in ["stop", "shutdown"] ==> g'.status == "stopped" && g'.uptime == 0)
                  && (action !in ["start", "reboot", "stop", "shutdown"] ==> g' == g)
                  && g'.(status := g.status, uptime := g.uptime) == g)
  {}

  /** The counter never falls, passes every number created, and moves by no more than that needs. */
  lemma CounterMoves(s: State, c: Completion, key: string)
    ensures var next := Applied(s, c, key).nextId;
            && next >= s.nextId
            && (c.CreateGuest? ==> next > c.newId && (next == s.nextId || next == c.newId + 1))
            && (!c.CreateGuest? ==> next == s.nextId)
  {
    hide Recalculated, WithVolumes, WithoutGuest, WithoutVolume, WithVolume, ResizeTarget;
  }

  /** A finished download or backup is stored, and a deleted one is not found again where it was. */
  lemma StoredAndDeleted(s: State, v: Volume, volId: string, key: string)
    ensures var place := v.node + "/" + v.storage;
            && (var c := Applied(s, AddVolume(v), key).content;
                place in c && v.volId in c[place] && c[place][v.volId] == v)
            && (var b := Applied(s, StoreBackup(v), key);
                v.volId in b.backups && place in b.content && v.volId in b.content[place])
            && (var d := Applied(s, DeleteContent(volId), key);
                volId !in d.backups && !(key in d.content && volId in d.content[key]))
  {
    hide Recalculated;
  }

  // ---- Completions run at most once ----

  function Serials(pending: seq<(nat, Completion)>): seq<nat> {
    seq(|pending|, i requires 0 <= i < |pending| => pending[i].0)
  }

  predicate NoRepeats(q: seq<nat>) { forall i, j :: 0 <= i < j < |q| ==> q[i] != q[j] }

  /** Each task created so far is in exactly one place: still running under its identifier, completed
      for the first time, or overwritten by a later task of the same identifier while it ran. */
  ghost predicate OnePlace(s: State) { TasksKnown(s) && PlacesApart(s) && Placed(s) }

  ghost predicate TasksKnown(s: State) {
    && (forall u :: u in s.tasks ==>
          s.tasks[u].serial < |s.issued| && s.issued[s.tasks[u].serial] == s.tasks[u].onComplete)
    && (forall u, v :: u in s.tasks && v in s.tasks && u != v ==> s.tasks[u].serial != s.tasks[v].serial)
  }

  ghost predicate PlacesApart(s: State) {
    && (forall u :: Running(s, u) ==> s.tasks[u].serial !in s.firstExit && s.tasks[u].serial !in s.lost)
    && (forall n :: n in s.firstExit ==> n < |s.issued| && n !in s.lost)
    && (forall n :: n in s.lost ==> n < |s.issued|)
  }

  ghost predicate Placed(s: State) {
    forall n: nat :: n < |s.issued| && n !in s.firstExit && n !in s.lost ==> HasRunning(s, n)
  }

  ghost predicate HasRunning(s: State, n: nat) { exists u :: Running(s, u) && s.tasks[u].serial == n }

  /** The task's first exit status was OK and it carries something to run. */
  predicate Due(s: State, n: nat) {
    n in s.firstExit && s.firstExit[n] == "OK" && n < |s.issued| && s.issued[n] != Nothing
  }

  /** The completions that have run or are about to are exactly the due ones, each of them once. */
  ghost predicate RunOnce(s: State) {
    && NoRepeats(s.ran + Serials(s.pending))
    && (forall n :: n in s.ran + Serials(s.pending) <==> Due(s, n))
    && (forall i :: 0 <= i < |s.pending| ==> s.pending[i].0 < |s.issued| && s.pending[i].1 == s.issued[s.pending[i].0])
  }

  ghost predicate Inv(s: State) { Accounted(s.storages, s.content) && OnePlace(s) && RunOnce(s) }

  lemma CreateKeepsPlace(s: State, upid: string, c: Completion)
    requires OnePlace(s)
    ensures OnePlace(After(s, CreateTask(upid, c)))
  {
    CreateKeepsKnown(s, upid, c);
    CreateKeepsApart(s, upid, c);
    CreateKeepsPlaced(s, upid, c);
  }

  lemma CreateKeepsKnown(s: State, upid: string, c: Completion)
    requires TasksKnown(s)
    ensures TasksKnown(After(s, CreateTask(upid, c)))
  {}

  lemma CreateKeepsApart(s: State, upid: string, c: Completion)
    requires TasksKnown(s) && PlacesApart(s)
    ensures PlacesApart(After(s, CreateTask(upid, c)))
  {}

  lemma CreateKeepsPlaced(s: State, upid: string, c: Completion)
    requires Placed(s)
    ensures Placed(After(s, CreateTask(upid, c)))
  {
    var s' := After(s, CreateTask(upid, c));
    forall n: nat | n < |s'.issued| && n !in s'.firstExit && n !in s'.lost ensures HasRunning(s', n) {
      if n == |s.issued| {
        assert Running(s', upid);
      } else {
        assert HasRunning(s, n);
        var u :| Running(s, u) && s.tasks[u].serial == n;
        assert Running(s', u);
      }
    }
  }

  lemma CompleteKeepsPlace(s: State, upid: string, exit: string)
    requires OnePlace(s)
    ensures OnePlace(After(s, CompleteTask(upid, exit)))
  {
    CompleteKeepsKnown(s, upid, exit);
    CompleteKeepsApart(s, upid, exit);
    CompleteKeepsPlaced(s, upid, exit);
  }

  lemma CompleteKeepsKnown(s: State, upid: string, exit: string)
    requires TasksKnown(s)
    ensures TasksKnown(After(s, CompleteTask(upid, exit)))
  {}

  lemma CompleteKeepsApart(s: State, upid: string, exit: string)
    requires TasksKnown(s) && PlacesApart(s)
    ensures PlacesApart(After(s, CompleteTask(upid, exit)))
  {}

  lemma CompleteKeepsPlaced(s: State, upid: string, exit: string)
    requires Placed(s)
    ensures Placed(After(s, CompleteTask(upid, exit)))
  {
    var s' := After(s, CompleteTask(upid, exit));
    forall n: nat | n < |s'.issued| && n !in s'.firstExit && n !in s'.lost ensures HasRunning(s', n) {
      assert HasRunning(s, n);
      var u :| Running(s, u) && s.tasks[u].serial == n;
      assert Running(s', u);
    }
  }

  lemma CreateRunsOnce(s: State, upid: string, c: Completion)
    requires OnePlace(s) && RunOnce(s)
    ensures RunOnce(After(s, CreateTask(upid, c)))
  {
    var s' := After(s, CreateTask(upid, c));
    forall n ensures Due(s', n) <==> Due(s, n) {}
  }

  lemma CompleteRunsOnce(s: State, upid: string, exit: string)
    requires OnePlace(s) && RunOnce(s)
    ensures RunOnce(After(s, CompleteTask(upid, exit)))
  {
    var s' := After(s, CompleteTask(upid, exit));
    if Running(s, upid) {
      var serial := s.tasks[upid].serial;
      assert !Due(s, serial) && serial !in s.ran + Serials(s.pending);
      forall n | n != serial ensures Due(s', n) <==> Due(s, n) {}
      if s'.pending != s.pending {
        assert Serials(s'.pending) == Serials(s.pending) + [serial];
        assert s'.ran + Serials(s'.pending) == (s.ran + Serials(s.pending)) + [serial];
      }
    }
  }

  /** Running a completion moves its serial from the waiting ones to those that ran. */
  lemma RunKeepsOnce(s: State, index: nat, key: string)
    requires Enabled(s, RunCompletion(index, key)) && RunOnce(s)
    ensures RunOnce(After(s, RunCompletion(index, key)))
  {
    var s' := After(s, RunCompletion(index, key));
    AppliedKeepsTasks(s, s.pending[index].1, key);
    var before, after := s.ran + Serials(s.pending), s'.ran + Serials(s'.pending);
    assert forall n :: Due(s', n) <==> Due(s, n);
    MovedOrder(s.ran, Serials(s.pending), index);
    assert Serials(s'.pending) == Serials(s.pending)[..index] + Serials(s.pending)[index + 1..];
    assert after == s.ran + [Serials(s.pending)[index]]
        + (Serials(s.pending)[..index] + Serials(s.pending)[index + 1..]);
  }

  /** Moving one waiting element to the end of those that ran repeats and loses nothing. */
  lemma MovedOrder(ran: seq<nat>, waiting: seq<nat>, index: nat)
    requires NoRepeats(ran + waiting) && index < |waiting|
    ensures var after := ran + [waiting[index]] + (waiting[..index] + waiting[index + 1..]);
            NoRepeats(after) && forall n :: n in after <==> n in ran + waiting
  {
    var before, after := ran + waiting, ran + [waiting[index]] + (waiting[..index] + waiting[index + 1..]);
    forall k | 0 <= k < |after| ensures after[k] == before[From(|ran|, index, k)] {}
    forall i, j | 0 <= i < j < |after| ensures after[i] != after[j] {
      assert From(|ran|, index, i) != From(|ran|, index, j);
    }
    forall n | n in before ensures n in after {
      var k :| 0 <= k < |before| && before[k] == n;
      if k < |ran| { assert after[k] == n; }
      else if k < |ran| + index { assert after[k + 1] == n; }
      else if k == |ran| + index { assert after[|ran|] == n; }
      else { assert after[k] == n; }
    }
    forall n | n in after ensures n in before {
      var k :| 0 <= k < |after| && after[k] == n;
      assert before[From(|ran|, index, k)] in before;
    }
  }

  function From(ran: nat, index: nat, k: nat): nat {
    if k < ran then k else if k == ran then ran + index else if k <= ran + index then k - 1 else k
  }

  lemma AppliedKeepsTasks(s: State, c: Completion, key: string)
    ensures var s' := Applied(s, c, key);
            s'.tasks == s.tasks && s'.pending == s.pending && s'.ran == s.ran && s'.firstExit == s.firstExit
            && s'.issued == s.issued && s'.lost == s.lost
  {
    hide Total, Usage;
  }

  lemma SamePlace(s: State, s': State)
    requires OnePlace(s) && s'.tasks == s.tasks && s'.firstExit == s.firstExit && s'.issued == s.issued
        && s'.lost == s.lost
    ensures OnePlace(s')
  {}

  lemma StepKeepsInv(s: State, step: Step)
    requires Enabled(s, step) && Inv(s)
    ensures Inv(After(s, step))
  {
    StepKeepsAccounts(s, step);
    match step
    case CreateTask(upid, c) =>
      CreateKeepsPlace(s, upid, c);
      CreateRunsOnce(s, upid, c);
    case CompleteTask(upid, exit) =>
      CompleteKeepsPlace(s, upid, exit);
      CompleteRunsOnce(s, upid, exit);
    case RunCompletion(index, key) =>
      AppliedKeepsTasks(s, s.pending[index].1, key);
      SamePlace(s, After(s, step));
      RunKeepsOnce(s, index, key);
    case _ =>
      SamePlace(s, After(s, step));
      assert forall n :: Due(After(s, step), n) <==> Due(s, n);
  }

  lemma InitialInv(s: State)
    requires Initial(s)
    ensures Inv(s)
  {}

  lemma {:induction false} RunsKeepInv(states: seq<State>, steps: seq<Step>)
    requires IsRun(states, steps)
    ensures forall i :: 0 <= i < |states| ==> Inv(states[i])
    decreases |steps|
  {
    hide Enabled, After, Inv, Initial;
    if steps == [] {
      InitialInv(states[0]);
    } else {
      var n := |steps| - 1;
      RunsKeepInv(states[..n + 1], steps[..n]);
      assert states[..n + 1][n] == states[n];
      StepKeepsInv(states[n], steps[n]);
      forall i | 0 <= i < |states| ensures Inv(states[i]) {
        if i <= n { assert states[..n + 1][i] == states[i]; }
      }
    }
  }

  lemma PlacesApartAt(states: seq<State>, steps: seq<Step>, i: nat)
    requires IsRun(states, steps) && i < |states|
    ensures PlacesApart(states[i])
  {
    hide IsRun, PlacesApart, TasksKnown, Placed, RunOnce, Accounted;
    RunsKeepInv(states, steps);
    assert Inv(states[i]);
  }

  /** Exit statuses are final, and nothing that ran is forgotten. */
  lemma {:induction false} HistoryGrows(states: seq<State>, steps: seq<Step>, i: nat, j: nat)
    requires IsRun(states, steps) && i <= j < |states|
    ensures Grows(states[i], states[j])
    decreases j - i
  {
    if i < j {
      hide After, PlacesApart, Grows, Enabled, Initial;
      HistoryGrows(states, steps, i, j - 1);
      PlacesApartAt(states, steps, j - 1);
      StepGrows(states[j - 1], steps[j - 1]);
      GrowsOn(states[i], states[j - 1], states[j]);
    } else {
      assert Grows(states[i], states[i]);
    }
  }

  predicate Grows(s: State, s': State) {
    && s.ran <= s'.ran && s.issued <= s'.issued
    && forall n :: n in s.firstExit ==> n in s'.firstExit && s'.firstExit[n] == s.firstExit[n]
  }

  lemma GrowsOn(s1: State, s2: State, s3: State)
    requires Grows(s1, s2) && Grows(s2, s3)
    ensures Grows(s1, s3)
  {}

  lemma StepGrows(s: State, step: Step)
    requires Enabled(s, step) && PlacesApart(s)
    ensures Grows(s, After(s, step))
  {
    if step.RunCompletion? { AppliedKeepsTasks(s, s.pending[step.index].1, step.key); }
  }

  /** At most once, and exactly once when its first exit status is OK: over any run and any interleaving, the
      completion of task `n` runs once if its goroutines are done, its first exit status was OK and it carries
      one, and never otherwise. In particular it never runs for a task overwritten while it ran. */
  lemma CompletionRunsExactlyWhenDue(states: seq<State>, steps: seq<Step>, n: nat)
    requires IsRun(states, steps) && states[|steps|].pending == []
    ensures var last := states[|steps|];
            && multiset(last.ran)[n] == (if Due(last, n) then 1 else 0)
            && (n in last.lost ==> n !in last.ran)
            && Accounted(last.storages, last.content)
  {
    RunsKeepInv(states, steps);
    var last := states[|steps|];
    assert last.ran + Serials(last.pending) == last.ran;
    CountOnce(last.ran, n);
  }

  /** It does happen: two tasks under one identifier, and the first one's completion is lost for good. */
  lemma OverwrittenRun(s: State, upid: string, first: Completion, second: Completion)
    returns (states: seq<State>, steps: seq<Step>)
    requires Initial(s) && second != Nothing
    ensures IsRun(states, steps) && states[0] == s
    ensures var last := states[|steps|];
            last.pending == [] && last.issued == [first, second] && last.lost == {0} && last.ran == [1]
  {
    var create1, create2 := CreateTask(upid, first), CreateTask(upid, second);
    var s1 := After(s, create1);
    var s2 := After(s1, create2);
    var s3 := After(s2, CompleteTask(upid, "OK"));
    var key := SomeSite(s3.content, Sought(s3, second));
    var run := RunCompletion(0, key);
    assert s3.pending == [(1, second)];
    AppliedKeepsTasks(s3, second, key);
    hide Applied, Sought, Accounted;
    states := [s, s1, s2, s3, After(s3, run)];
    steps := [create1, create2, CompleteTask(upid, "OK"), run];
  }

  lemma SomeSite(content: map<string, map<string, Volume>>, sought: Option<string>) returns (key: string)
    ensures sought.Some? ==> IsSite(content, sought.value, key)
  {
    key := "";
    if sought.Some? && exists k :: k in content && sought.value in content[k] {
      key :| key in content && sought.value in content[key];
    }
  }

  lemma {:induction false} CountOnce(q: seq<nat>, n: nat)
    requires NoRepeats(q)
    ensures multiset(q)[n] == if n in q then 1 else 0
  {
    if q != [] {
      assert q == [q[0]] + q[1..];
      CountOnce(q[1..], n);
    }
  }
}
