/** A guest's disk on the running mock server: its configuration, its recorded size and its volume stay in agreement
    over every interleaving of tasks that do not reach for that disk. */
module MockDisks {
  import opened Text
  import opened MockTasks
  import DiskSize
  import DiskUnits

  /** A disk that the server allocated: whose guest, under which key, and where its volume is stored. */
  datatype Place = Place(vmid: string, disk: string, site: string, volumeId: string, cdrom: bool)

  predicate Sound(p: Place) { p.volumeId != "" && ',' !in p.volumeId && !DiskSize.NamesSize(p.volumeId) }

  /** The guest shows the volume with its recorded size. */
  predicate GuestShows(g: Guest, p: Place) {
    && IsInt64(g.maxDisk) && p.disk in g.config
    && g.config[p.disk] == DiskSize.VolumeConfig(p.volumeId, g.maxDisk, p.cdrom)
  }

  predicate StoredOnlyAt(content: map<string, map<string, Volume>>, volumeId: string, site: string) {
    && site in content && volumeId in content[site]
    && forall k :: k in content && volumeId in content[k] ==> k == site
  }

  predicate Agrees(s: State, p: Place) {
    && p.vmid in s.guests && GuestShows(s.guests[p.vmid], p)
    && StoredOnlyAt(s.content, p.volumeId, p.site)
    && s.content[p.site][p.volumeId].size == s.guests[p.vmid].maxDisk
  }

  /** The completions that reach for the disk without being a resize of it. A resize of another disk of the guest
      is one of them, since a guest records the size of one disk only. */
  predicate Reaches(s: State, c: Completion, p: Place)
    requires Agrees(s, p)
  {
    match c
    case Nothing => false
    case SetStatus(_, _) => false
    case CreateGuest(id, _, volumes, forceRestore) =>
      || Dec(id) == p.vmid || (exists i :: 0 <= i < |volumes| && volumes[i].volId == p.volumeId)
      || (forceRestore && s.content[p.site][p.volumeId].vmid == id)
    case ResizeDisk(vmid, disk, _) =>
      if vmid == p.vmid then disk != p.disk else ResizeTarget(s, vmid, disk) == Some(p.volumeId)
    case StoreBackup(backup) => backup.volId == p.volumeId
    case DeleteContent(volId) => volId == p.volumeId
    case AddVolume(volume) => volume.volId == p.volumeId
  }

  /** A replaced guest must still show the volume. */
  predicate Disturbs(s: State, step: Step, p: Place)
    requires Agrees(s, p)
  {
    match step
    case RunCompletion(index, _) => index < |s.pending| && Reaches(s, s.pending[index].1, p)
    case DeleteGuest(vmid) => vmid == p.vmid
    case PutGuest(vmid, guest) =>
      vmid == p.vmid && !(GuestShows(guest, p) && guest.maxDisk == s.guests[p.vmid].maxDisk)
    case _ => false
  }

  lemma AddedElsewhere(content: map<string, map<string, Volume>>, v: Volume, p: Place)
    requires StoredOnlyAt(content, p.volumeId, p.site) && v.volId != p.volumeId
    ensures StoredOnlyAt(WithVolume(content, v), p.volumeId, p.site)
    ensures WithVolume(content, v)[p.site][p.volumeId] == content[p.site][p.volumeId]
  {}

  lemma {:induction false} AllAddedElsewhere(content: map<string, map<string, Volume>>, volumes: seq<Volume>, p: Place)
    requires StoredOnlyAt(content, p.volumeId, p.site)
    requires forall i :: 0 <= i < |volumes| ==> volumes[i].volId != p.volumeId
    ensures StoredOnlyAt(WithVolumes(content, volumes), p.volumeId, p.site)
    ensures WithVolumes(content, volumes)[p.site][p.volumeId] == content[p.site][p.volumeId]
  {
    hide StoredOnlyAt, WithVolume;
    if volumes != [] {
      var n := |volumes| - 1;
      AllAddedElsewhere(content, volumes[..n], p);
      AddedElsewhere(WithVolumes(content, volumes[..n]), volumes[n], p);
    }
  }

  lemma RemovedElsewhere(content: map<string, map<string, Volume>>, volId: string, key: string, p: Place)
    requires StoredOnlyAt(content, p.volumeId, p.site) && volId != p.volumeId
    ensures StoredOnlyAt(WithoutVolume(content, volId, key), p.volumeId, p.site)
    ensures WithoutVolume(content, volId, key)[p.site][p.volumeId] == content[p.site][p.volumeId]
  {
    if key == p.site && key in content { assert p.volumeId in content[key] - {volId}; }
  }

  lemma OthersDropped(content: map<string, map<string, Volume>>, vmid: int, p: Place)
    requires StoredOnlyAt(content, p.volumeId, p.site) && content[p.site][p.volumeId].vmid != vmid
    ensures StoredOnlyAt(WithoutGuest(content, vmid), p.volumeId, p.site)
    ensures WithoutGuest(content, vmid)[p.site][p.volumeId] == content[p.site][p.volumeId]
  {
    assert p.volumeId in OfOthers(content[p.site], vmid);
  }

  /** The server finds the volume of the disk, and nowhere else than where it is. */
  lemma OwnTarget(s: State, p: Place)
    requires Sound(p) && Agrees(s, p)
    ensures ResizeTarget(s, p.vmid, p.disk) == Some(p.volumeId)
    ensures forall key :: IsSite(s.content, p.volumeId, key) ==> key == p.site
  {
    hide DiskSize.VolumeConfig, DiskSize.ExtractVolumeId, DiskSize.NamesSize, DiskSize.ParseConfigSize,
      DiskSize.PartSize;
    var g := s.guests[p.vmid];
    DiskSize.VolumeReadsBack(p.volumeId, g.maxDisk, p.cdrom);
    VolumeConfigNotEmpty(p.volumeId, g.maxDisk, p.cdrom);
    forall key | IsSite(s.content, p.volumeId, key) ensures key == p.site {}
  }

  lemma VolumeConfigNotEmpty(volumeId: string, size: int, cdrom: bool)
    ensures DiskSize.VolumeConfig(volumeId, size, cdrom) != ""
  {}

  /** A resize of the disk itself changes the volume, the recorded size and the configuration together. */
  lemma ResizeAgrees(s: State, raw: string, p: Place)
    requires Sound(p) && Agrees(s, p)
    ensures Agrees(Resized(s, p.vmid, p.disk, raw, p.site), p)
  {
    OwnTarget(s, p);
    assert p.site in s.content && p.volumeId in s.content[p.site];
    var g, volume := s.guests[p.vmid], s.content[p.site][p.volumeId];
    hide DiskSize.ApplySizeDelta, DiskSize.ReplaceConfigSize, Recalculated, ResizeTarget, GuestShows,
      StoredOnlyAt, Sound;
    var size := DiskSize.ApplySizeDelta(volume.size, raw);
    if size.Some? {
      ResizedGuestShows(g, size.value, p);
      ResizedStored(s.content, volume.(size := size.value), p);
    }
  }

  /** A resize by "+n" and a unit makes the volume that much larger, and one by "n" and a unit makes it that large. */
  lemma ResizeGrows(s: State, n: nat, unit: string, p: Place)
    requires Sound(p) && Agrees(s, p)
    requires DiskUnits.Exponent(unit).Some? && IsInt64(n)
    requires IsInt64(s.content[p.site][p.volumeId].size + DiskUnits.Bytes(n, unit)) && IsInt64(DiskUnits.Bytes(n, unit))
    ensures var text, size := DiskUnits.SizeText(n, unit), s.content[p.site][p.volumeId].size;
            var grown, set_ := Resized(s, p.vmid, p.disk, "+" + text, p.site), Resized(s, p.vmid, p.disk, text, p.site);
            && Agrees(grown, p) && grown.content[p.site][p.volumeId].size == size + DiskUnits.Bytes(n, unit)
            && Agrees(set_, p) && set_.content[p.site][p.volumeId].size == DiskUnits.Bytes(n, unit)
  {
    var text, size := DiskUnits.SizeText(n, unit), s.content[p.site][p.volumeId].size;
    OwnTarget(s, p);
    assert p.site in s.content && p.volumeId in s.content[p.site];
    hide ResizeTarget, Recalculated, Sound, DiskSize.ApplySizeDelta, DiskSize.ReplaceConfigSize, DiskUnits.Bytes;
    hide DiskUnits.SizeText, DiskUnits.Exponent, GuestShows;
    DiskUnits.GrowsOrReplaces(size, n, unit);
    ResizeAgrees(s, "+" + text, p);
    ResizeAgrees(s, text, p);
  }

  lemma ResizedGuestShows(g: Guest, size: int, p: Place)
    requires Sound(p) && GuestShows(g, p) && IsInt64(size)
    ensures var config := DiskSize.ReplaceConfigSize(g.config[p.disk], size);
            GuestShows(g.(maxDisk := size, config := g.config[p.disk := config]), p)
  {
    hide DiskSize.VolumeConfig, DiskSize.ReplaceConfigSize, DiskSize.NamesSize, DiskSize.SizeToken;
    DiskSize.NoSizePrefix(p.volumeId);
    DiskSize.ResizeKeepsShape(p.volumeId, g.maxDisk, p.cdrom, size);
  }

  lemma ResizedStored(content: map<string, map<string, Volume>>, v: Volume, p: Place)
    requires StoredOnlyAt(content, p.volumeId, p.site)
    ensures StoredOnlyAt(content[p.site := content[p.site][p.volumeId := v]], p.volumeId, p.site)
  {}

  lemma OtherResizeAgrees(s: State, vmid: string, disk: string, raw: string, key: string, p: Place)
    requires Agrees(s, p) && vmid != p.vmid && ResizeTarget(s, vmid, disk) != Some(p.volumeId)
    ensures Agrees(Resized(s, vmid, disk, raw, key), p)
  {
    hide DiskSize.VolumeConfig, DiskSize.ReplaceConfigSize, DiskSize.ExtractVolumeId, DiskSize.ApplySizeDelta;
    hide ResizeTarget, Recalculated;
  }

  lemma AppliedAgrees(s: State, c: Completion, key: string, p: Place)
    requires Sound(p) && Agrees(s, p) && !Reaches(s, c, p)
    requires Sought(s, c).Some? ==> IsSite(s.content, Sought(s, c).value, key)
    ensures Agrees(Applied(s, c, key), p)
  {
    hide StoredOnlyAt, GuestShows, WithVolume, WithVolumes, WithoutVolume, WithoutGuest, Resized, ResizeTarget;
    hide Recalculated, Sound, Dec;
    match c
    case Nothing =>
    case SetStatus(_, action) => StatusShows(s.guests[p.vmid], action, p);
    case CreateGuest(id, _, volumes, forceRestore) =>
      if forceRestore { OthersDropped(s.content, id, p); }
      AllAddedElsewhere(if forceRestore then WithoutGuest(s.content, id) else s.content, volumes, p);
    case ResizeDisk(vmid, disk, raw) =>
      if vmid == p.vmid {
        OwnTarget(s, p);
        ResizeAgrees(s, raw, p);
      } else {
        OtherResizeAgrees(s, vmid, disk, raw, key, p);
      }
    case StoreBackup(backup) => AddedElsewhere(s.content, backup, p);
    case DeleteContent(volId) => RemovedElsewhere(s.content, volId, key, p);
    case AddVolume(volume) => AddedElsewhere(s.content, volume, p);
  }

  lemma StatusShows(g: Guest, action: string, p: Place)
    requires GuestShows(g, p)
    ensures GuestShows(StatusAfter(g, action), p) && StatusAfter(g, action).maxDisk == g.maxDisk
  {}

  lemma StepKeepsAgreement(s: State, step: Step, p: Place)
    requires Sound(p) && Agrees(s, p) && Enabled(s, step) && !Disturbs(s, step, p)
    ensures Agrees(After(s, step), p)
  {
    hide Sound, Applied, Reaches, Sought;
    if step.RunCompletion? { AppliedAgrees(s, s.pending[step.index].1, step.key, p); }
  }

  predicate StoredNowhere(content: map<string, map<string, Volume>>, volumeId: string) {
    forall k :: k in content ==> volumeId !in content[k]
  }

  lemma {:induction false} AddedOnce(content: map<string, map<string, Volume>>, volumes: seq<Volume>, i: nat, p: Place)
    requires StoredNowhere(content, p.volumeId) && i < |volumes| && volumes[i].volId == p.volumeId
    requires ContentKey(volumes[i].node, volumes[i].storage) == p.site
    requires forall j :: 0 <= j < |volumes| && j != i ==> volumes[j].volId != p.volumeId
    ensures StoredOnlyAt(WithVolumes(content, volumes), p.volumeId, p.site)
    ensures WithVolumes(content, volumes)[p.site][p.volumeId] == volumes[i]
  {
    var n := |volumes| - 1;
    if i < n {
      AddedOnce(content, volumes[..n], i, p);
      AddedElsewhere(WithVolumes(content, volumes[..n]), volumes[n], p);
    } else {
      NoneAdded(content, volumes[..n], p.volumeId);
    }
  }

  lemma {:induction false} NoneAdded(content: map<string, map<string, Volume>>, volumes: seq<Volume>, volumeId: string)
    requires StoredNowhere(content, volumeId) && forall j :: 0 <= j < |volumes| ==> volumes[j].volId != volumeId
    ensures StoredNowhere(WithVolumes(content, volumes), volumeId)
  {
    if volumes != [] { NoneAdded(content, volumes[..|volumes| - 1], volumeId); }
  }

  /** Creating a guest puts a disk in agreement whose volume is new and whose configuration and size show it. */
  lemma CreationAgrees(s: State, id: int, guest: Guest, volumes: seq<Volume>, i: nat, forceRestore: bool, p: Place)
    requires p.vmid == Dec(id) && GuestShows(guest, p) && i < |volumes|
    requires volumes[i].volId == p.volumeId && volumes[i].size == guest.maxDisk
    requires ContentKey(volumes[i].node, volumes[i].storage) == p.site
    requires forall j :: 0 <= j < |volumes| && j != i ==> volumes[j].volId != p.volumeId
    requires StoredNowhere(if forceRestore then WithoutGuest(s.content, id) else s.content, p.volumeId)
    ensures Agrees(Applied(s, CreateGuest(id, guest, volumes, forceRestore), ""), p)
  {
    AddedOnce(if forceRestore then WithoutGuest(s.content, id) else s.content, volumes, i, p);
    hide GuestShows, StoredOnlyAt, StoredNowhere, WithVolumes, WithoutGuest, Recalculated, Dec;
  }

  /** Over any run: as long as no other completion or request reaches for the disk, resizes of it keep its volume,
      its recorded size and its configuration in agreement, and the client reads that size back. */
  lemma {:induction false} RunKeepsAgreement(states: seq<State>, steps: seq<Step>, i: nat, j: nat, p: Place)
    requires IsRun(states, steps) && i <= j < |states| && Sound(p) && Agrees(states[i], p)
    requires forall k :: i <= k < j && Agrees(states[k], p) ==> !Disturbs(states[k], steps[k], p)
    ensures Agrees(states[j], p)
    ensures var g := states[j].guests[p.vmid];
            DiskSize.ReadsBack(DiskSize.Disk(g.config[p.disk], p.volumeId, states[j].content[p.site][p.volumeId].size))
    decreases j - i
  {
    hide Agrees, Sound, Disturbs, After, Enabled, Initial, DiskSize.ReadsBack;
    if i < j {
      RunKeepsAgreement(states, steps, i, j - 1, p);
      StepKeepsAgreement(states[j - 1], steps[j - 1], p);
    }
    AgreeingReadsBack(states[j], p);
  }

  lemma AgreeingReadsBack(s: State, p: Place)
    requires Sound(p) && Agrees(s, p)
    ensures p.vmid in s.guests && p.disk in s.guests[p.vmid].config && StoredOnlyAt(s.content, p.volumeId, p.site)
    ensures var g := s.guests[p.vmid];
            DiskSize.ReadsBack(DiskSize.Disk(g.config[p.disk], p.volumeId, s.content[p.site][p.volumeId].size))
  {
    hide DiskSize.VolumeConfig, DiskSize.NamesSize, DiskSize.ParseConfigSize, DiskSize.ExtractVolumeId,
      DiskSize.WholeGib;
    var g := s.guests[p.vmid];
    DiskSize.VolumeReadsBack(p.volumeId, g.maxDisk, p.cdrom);
    DiskSize.WholeGibBounds(g.maxDisk);
  }
}
