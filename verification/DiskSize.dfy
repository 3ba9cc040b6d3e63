/** Disk sizes: what the mock server writes into a guest's configuration and what the client reads back. */
module DiskSize {
  import opened Text

  const KIB := 1024
  const MIB := 1024 * 1024
  const GIB := 1024 * 1024 * 1024
  const TIB := 1024 * 1024 * 1024 * 1024

  /** int64 arithmetic wraps around. */
  function Wrap(n: int): (w: int)
    ensures IsInt64(w) && (IsInt64(n) ==> w == n)
  {
    (n - INT64_MIN) % 0x1_0000_0000_0000_0000 + INT64_MIN
  }

  /** Wrapping around changes a number by a multiple of two to the 64th. */
  lemma WrapIs(n: int)
    ensures (Wrap(n) - n) % 0x1_0000_0000_0000_0000 == 0
  {
    var m := 0x1_0000_0000_0000_0000;
    var q := (n - INT64_MIN) / m;
    assert Wrap(n) - n == -q * m;
    assert (-q * m) % m == 0;
  }

  /** Integer division truncates toward zero. */
  function TruncDiv(a: int, b: int): int
    requires b > 0
  {
    if a >= 0 then a / b else -(-a / b)
  }

  /** A size as a whole number of GiB, the remainder cut off. */
  function WholeGib(size: int): int { TruncDiv(size, GIB) * GIB }

  function UpperChar(c: char): char { if 'a' <= c <= 'z' then c - 'a' + 'A' else c }

  function ToUpper(s: string): string { seq(|s|, i requires 0 <= i < |s| => UpperChar(s[i])) }

  // ---- The mock server ----

  function Unit(c: char): int {
    if c == 'K' then KIB else if c == 'M' then MIB else if c == 'T' then TIB else GIB
  }

  predicate IsUnit(c: char) { c == 'K' || c == 'M' || c == 'G' || c == 'T' }

  function ScaledInt(digits: string, multiplier: int): (size: Option<int>)
    ensures size.Some? ==> IsInt64(size.value)
  {
    match ParseInt64(digits)
    case None => None
    case Some(value) => Some(Wrap(value * multiplier))
  }

  /** A number with an optional unit; GiB without one. */
  function ParseSized(s: string): (size: Option<int>)
    ensures size.Some? ==> IsInt64(size.value)
  {
    if s == "" then None
    else if IsUnit(s[|s| - 1]) then ScaledInt(s[..|s| - 1], Unit(s[|s| - 1]))
    else ScaledInt(s, GIB)
  }

  function ParseDiskSize(raw: string): (size: Option<int>)
    ensures size.Some? ==> IsInt64(size.value)
  {
    ParseSized(TrimSpace(ToUpper(raw)))
  }

  function ApplySizeDelta(current: int, raw: string): (size: Option<int>)
    ensures size.Some? ==> IsInt64(size.value)
  {
    var s := TrimSpace(raw);
    if s == "" then None
    else if s[0] == '+' then
      match ParseDiskSize(s[1..])
      case None => None
      case Some(delta) => Some(Wrap(current + delta))
    else ParseDiskSize(s)
  }

  function SizeToken(size: int): string { "size=" + (Dec(TruncDiv(size, GIB)) + "G") }

  function ReplaceParts(parts: seq<string>, token: string): seq<string> {
    seq(|parts|, i requires 0 <= i < |parts| => if HasPrefix(parts[i], "size=") then token else parts[i])
  }

  function ReplaceConfigSize(config: string, size: int): string {
    if Contains(config, "size=") then Join(ReplaceParts(Split(config, ','), SizeToken(size)), ",")
    else config + "," + SizeToken(size)
  }

  method RewriteSize(config: string, size: int) returns (r: string)
    ensures r == ReplaceConfigSize(config, size)
  {
    hide Split, Join, SizeToken;
    TokenChars(size);
    if Contains(config, "size=") {
      var parts := Split(config, ',');
      ghost var replaced := ReplaceParts(parts, SizeToken(size));
      for i := 0 to |parts|
        invariant |parts| == |replaced| && parts[..i] == replaced[..i]
        invariant ReplaceParts(parts, SizeToken(size)) == replaced
      {
        if HasPrefix(parts[i], "size=") { parts := parts[i := SizeToken(size)]; }
      }
      assert parts[..|parts|] == parts && replaced[..|parts|] == replaced;
      return Join(parts, ",");
    }
    return config + "," + SizeToken(size);
  }

  function ExtractVolumeId(config: string): string { Split(config, ',')[0] }

  datatype Allocation =
    | Unchanged(config: string)
    | Allocated(config: string, volumeId: string, size: int)
    | InvalidSize
    | SourceMissing

  /** strings.Cut(value, ":"). */
  function CutColon(value: string): Option<(string, string)> {
    var i := Index(value, ":");
    if i == -1 then None else Some((value[..i], value[i + 1..]))
  }

  /** The last part of the form `key...`, without the key; "" when there is none. */
  function Setting(parts: seq<string>, key: string): string {
    if parts == [] then ""
    else if HasPrefix(parts[|parts| - 1], key) then parts[|parts| - 1][|key|..]
    else Setting(parts[..|parts| - 1], key)
  }

  function VolumeConfig(volumeId: string, size: int, cdrom: bool): string {
    volumeId + ("," + (SizeToken(size) + if cdrom then ",media=cdrom" else ""))
  }

  /** buildAllocatedVolume: `source` is the size of the volume that import-from names, if it is found. */
  function BuildAllocated(value: string, vmid: int, lxc: bool, index: nat, source: Option<int>): Allocation {
    match CutColon(value)
    case None => Unchanged(value)
    case Some((storage, payload)) =>
      if storage == "" || payload == "" then Unchanged(value)
      else
        var parts := Split(payload, ',');
        var first := parts[0];
        if Contains(first, "/") || HasPrefix(first, "vm-") || HasPrefix(first, "subvol-") then Unchanged(value)
        else
          match ParseDiskSize(first)
          case None => InvalidSize
          case Some(asked) =>
            var importFrom := Setting(parts[1..], "import-from=");
            if importFrom != "" && source.None? then SourceMissing
            else
              var size := if importFrom != "" then source.value else asked;
              var name := (if lxc then "subvol-" else "vm-") + Dec(vmid) + "-disk-" + Dec(index);
              var volumeId := storage + ":" + name;
              Allocated(VolumeConfig(volumeId, size, Contains(value, "media=cdrom")), volumeId, size)
  }

  // ---- The client ----

  predicate NamesSize(part: string) { HasPrefix(TrimSpace(part), "size=") }

  function PartSize(part: string): Option<int>
    requires NamesSize(part)
  {
    var value := TrimSpace(part)[5..];
    if value == "" then None
    else
      var c := UpperChar(value[|value| - 1]);
      if IsUnit(c) then ScaledInt(value[..|value| - 1], Unit(c)) else ScaledInt(value, GIB)
  }

  predicate NoneBefore(parts: seq<string>, i: nat)
    requires i <= |parts|
  {
    forall j :: 0 <= j < i ==> !NamesSize(parts[j])
  }

  lemma NoneShift(parts: seq<string>, i: nat)
    requires parts != [] && i < |parts| && NoneBefore(parts[1..], i)
    ensures NoneBefore(parts, 0) && (!NamesSize(parts[0]) ==> NoneBefore(parts, i + 1))
  {}

  /** The position of the first part that names a size, or the number of parts. */
  function FirstSize(parts: seq<string>): (i: nat)
    ensures i <= |parts| && NoneBefore(parts, i) && (i < |parts| ==> NamesSize(parts[i]))
  {
    if parts == [] || NamesSize(parts[0]) then 0
    else
      var i := FirstSize(parts[1..]);
      NoneShift(parts, i);
      hide NoneBefore, NamesSize;
      i + 1
  }

  /** parseConfigSizeBytes: only the first part that names a size is read. */
  function SizeOfParts(parts: seq<string>): Option<int> {
    var i := FirstSize(parts);
    if i == |parts| then None else PartSize(parts[i])
  }

  function ParseConfigSize(config: string): Option<int> { SizeOfParts(Split(config, ',')) }

  method ParseConfigSizeBytes(raw: string) returns (size: int, ok: bool)
    ensures ParseConfigSize(raw) == if ok then Some(size) else None
    ensures !ok ==> size == 0
  {
    hide TrimSpace, FirstSize, Split, ParseInt64, UpperChar, Wrap;
    var parts := Split(raw, ',');
    for i := 0 to |parts|
      invariant forall j :: 0 <= j < i ==> !NamesSize(parts[j])
    {
      var part := TrimSpace(parts[i]);
      if HasPrefix(part, "size=") {
        FirstSizeIs(parts, i);
        var value := part[5..];
        if value == "" { return 0, false; }
        var multiplier := GIB;
        var suffix := UpperChar(value[|value| - 1]);
        if suffix == 'K' { multiplier := KIB; value := value[..|value| - 1]; }
        else if suffix == 'M' { multiplier := MIB; value := value[..|value| - 1]; }
        else if suffix == 'G' { value := value[..|value| - 1]; }
        else if suffix == 'T' { multiplier := TIB; value := value[..|value| - 1]; }
        var parsed := ParseInt64(value);
        if parsed.None? { return 0, false; }
        return Wrap(parsed.value * multiplier), true;
      }
    }
    return 0, false;
  }

  // ---- Reading a size back ----

  lemma WholeGibBounds(size: int)
    requires IsInt64(size)
    ensures IsInt64(TruncDiv(size, GIB)) && IsInt64(WholeGib(size))
    ensures WholeGib(size) == size <==> size % GIB == 0
    ensures (if size >= 0 then 0 <= size - WholeGib(size) < GIB else 0 <= WholeGib(size) - size < GIB)
  {}

  lemma TokenChars(size: int)
    ensures ',' !in SizeToken(size) && SizeToken(size) != "" && HasPrefix(SizeToken(size), "size=")
    ensures !IsSpace(SizeToken(size)[0]) && !IsSpace(SizeToken(size)[|SizeToken(size)| - 1])
  {}

  lemma TrimNothing(s: string)
    requires s != "" && !IsSpace(s[0]) && !IsSpace(s[|s| - 1])
    ensures TrimSpace(s) == s
  {}

  lemma TokenReadsBack(size: int)
    requires IsInt64(size)
    ensures NamesSize(SizeToken(size)) && PartSize(SizeToken(size)) == Some(WholeGib(size))
  {
    var t, d := SizeToken(size), Dec(TruncDiv(size, GIB));
    TokenChars(size);
    TrimNothing(t);
    ParseDec(TruncDiv(size, GIB));
    WholeGibBounds(size);
    assert t[5..] == d + "G" && (d + "G")[..|d|] == d;
  }

  lemma PrefixSurvivesTrim(part: string)
    requires HasPrefix(part, "size=")
    ensures NamesSize(part)
  {
    var t := TrimRight(part);
    assert TrimLeft(part) == part;
    TrimRightLong(part);
  }

  lemma {:induction false} TrimRightLong(s: string)
    requires HasPrefix(s, "size=")
    ensures HasPrefix(TrimRight(s), "size=")
    decreases |s|
  {
    if IsSpace(s[|s| - 1]) {
      assert s[4] == '=' && |s| > 5;
      assert HasPrefix(s[..|s| - 1], "size=");
      TrimRightLong(s[..|s| - 1]);
    }
  }

  lemma SizeInTrimmed(part: string)
    requires NamesSize(part)
    ensures exists k: nat :: OccursAt(part, "size=", k)
  {
    var left := TrimLeft(part);
    var k := |part| - |left|;
    assert left == part[k..] && left[..5] == TrimSpace(part)[..5];
    assert part[k..k + 5] == left[..5];
    assert OccursAt(part, "size=", k);
  }

  lemma {:induction false} PartOccurs(s: string, sep: char, i: nat, sub: string, k: nat)
    requires i < |Split(s, sep)| && OccursAt(Split(s, sep)[i], sub, k) && sub != ""
    ensures exists j: nat :: OccursAt(s, sub, j)
  {
    if s != "" {
      var rest := Split(s[1..], sep);
      if s[0] == sep {
        if i > 0 {
          PartOccurs(s[1..], sep, i - 1, sub, k);
          var j: nat :| OccursAt(s[1..], sub, j);
          assert s[1..][j..j + |sub|] == s[j + 1..j + 1 + |sub|];
          assert OccursAt(s, sub, j + 1);
        }
      } else if i == 0 && k == 0 {
        SplitFirstIsPrefix(s, sep);
        assert OccursAt(s, sub, 0);
      } else {
        var k' := if i == 0 then k - 1 else k;
        assert i == 0 ==> Split(s, sep)[0][k..k + |sub|] == rest[0][k'..k' + |sub|];
        PartOccurs(s[1..], sep, i, sub, k');
        var j: nat :| OccursAt(s[1..], sub, j);
        assert s[1..][j..j + |sub|] == s[j + 1..j + 1 + |sub|];
        assert OccursAt(s, sub, j + 1);
      }
    }
  }

  lemma {:induction false} SplitFirstIsPrefix(s: string, sep: char)
    ensures HasPrefix(s, Split(s, sep)[0])
  {
    if s != "" && s[0] != sep {
      SplitFirstIsPrefix(s[1..], sep);
      assert s == [s[0]] + s[1..];
    }
  }

  lemma NoSizeAnywhere(config: string)
    requires !Contains(config, "size=")
    ensures FirstSize(Split(config, ',')) == |Split(config, ',')|
  {
    var parts := Split(config, ',');
    forall i: nat | i < |parts| && NamesSize(parts[i]) ensures false {
      SizeInTrimmed(parts[i]);
      var k: nat :| OccursAt(parts[i], "size=", k);
      PartOccurs(config, ',', i, "size=", k);
    }
  }

  lemma FirstSizeIs(parts: seq<string>, i: nat)
    requires i <= |parts| && (forall j :: 0 <= j < i ==> !NamesSize(parts[j])) && (i < |parts| ==> NamesSize(parts[i]))
    ensures FirstSize(parts) == i
  {}

  lemma ReplacedFirstSize(parts: seq<string>, size: int)
    requires IsInt64(size)
    ensures var i := FirstSize(parts);
            SizeOfParts(ReplaceParts(parts, SizeToken(size)))
            == if i == |parts| then None
               else if HasPrefix(parts[i], "size=") then Some(WholeGib(size)) else PartSize(parts[i])
  {
    hide FirstSize, SizeToken, PartSize, IsInt64;
    var i, replaced := FirstSize(parts), ReplaceParts(parts, SizeToken(size));
    TokenReadsBack(size);
    hide NamesSize, HasPrefix;
    forall j | 0 <= j < |parts| ensures NamesSize(replaced[j]) <==> NamesSize(parts[j]) {
      if HasPrefix(parts[j], "size=") { PrefixSurvivesTrim(parts[j]); }
    }
    FirstSizeIs(replaced, i);
  }

  lemma SplitReplaced(config: string, size: int)
    ensures Split(ReplaceConfigSize(config, size), ',')
         == if Contains(config, "size=") then ReplaceParts(Split(config, ','), SizeToken(size))
            else Split(config, ',') + [SizeToken(size)]
  {
    TokenChars(size);
    if Contains(config, "size=") {
      SplitJoin(ReplaceParts(Split(config, ','), SizeToken(size)), ',');
    } else {
      SplitConcat(config, ',', SizeToken(size));
      SplitWhole(SizeToken(size), ',');
    }
  }

  /** The first part that names a size does so without a leading blank, or already reads as `size`. */
  predicate ShowsSize(parts: seq<string>, size: int) {
    var i := FirstSize(parts);
    i < |parts| && (HasPrefix(parts[i], "size=") || PartSize(parts[i]) == Some(WholeGib(size)))
  }

  /** For any configuration and any size: after replaceConfigSize the client reads the new size, in whole GiB, if and
      only if the old text did not mention "size=" at all, or its first part that names a size shows the new one. */
  lemma ReplacedSizeReadsBack(config: string, size: int)
    requires IsInt64(size)
    ensures ParseConfigSize(ReplaceConfigSize(config, size)) == Some(WholeGib(size))
       <==> (Contains(config, "size=") ==> ShowsSize(Split(config, ','), size))
  {
    SplitReplaced(config, size);
    if Contains(config, "size=") {
      ReplacedFirstSize(Split(config, ','), size);
    } else {
      NoSizeAnywhere(config);
      TokenReadsBack(size);
      FirstSizeIs(Split(config, ',') + [SizeToken(size)], |Split(config, ',')|);
    }
  }

  // ---- A volume over its life ----

  /** A guest's disk: its configuration text, and the identifier and size of its volume. */
  datatype Disk = Disk(config: string, volumeId: string, size: int)

  /** What a completed resize task does. A configuration that names another volume, or a size that does not
      parse, changes nothing. */
  function Resize(d: Disk, raw: string): Disk {
    if ExtractVolumeId(d.config) != d.volumeId then d
    else
      match ApplySizeDelta(d.size, raw)
      case None => d
      case Some(size) => d.(config := ReplaceConfigSize(d.config, size), size := size)
  }

  function ResizeAll(d: Disk, raws: seq<string>): Disk {
    if raws == [] then d else Resize(ResizeAll(d, raws[..|raws| - 1]), raws[|raws| - 1])
  }

  /** The server finds the volume, and the client reads its size rounded toward zero to whole GiB, which is the
      size itself exactly when that is whole. */
  predicate ReadsBack(d: Disk) {
    && ExtractVolumeId(d.config) == d.volumeId
    && ParseConfigSize(d.config) == Some(WholeGib(d.size))
    && (ParseConfigSize(d.config) == Some(d.size) <==> d.size % GIB == 0)
  }

  lemma VolumeParts(volumeId: string, size: int, cdrom: bool)
    requires ',' !in volumeId
    ensures Split(VolumeConfig(volumeId, size, cdrom), ',')
         == [volumeId, SizeToken(size)] + if cdrom then ["media=cdrom"] else []
  {
    hide Split, SizeToken;
    TokenChars(size);
    SplitWhole(volumeId, ',');
    SplitWhole(SizeToken(size), ',');
    SplitWhole("media=cdrom", ',');
    var tail := SizeToken(size) + if cdrom then ",media=cdrom" else "";
    if cdrom {
      assert tail == SizeToken(size) + [','] + "media=cdrom";
      SplitConcat(SizeToken(size), ',', "media=cdrom");
    } else {
      assert tail == SizeToken(size);
    }
    assert VolumeConfig(volumeId, size, cdrom) == volumeId + [','] + tail;
    SplitConcat(volumeId, ',', tail);
  }

  lemma VolumeReadsBack(volumeId: string, size: int, cdrom: bool)
    requires ',' !in volumeId && IsInt64(size)
    ensures var config := VolumeConfig(volumeId, size, cdrom);
            && ExtractVolumeId(config) == volumeId && Contains(config, "size=")
            && (!NamesSize(volumeId) ==> ParseConfigSize(config) == Some(WholeGib(size)))
            && (NamesSize(volumeId) ==> ParseConfigSize(config) == PartSize(volumeId))
  {
    hide Split, SizeToken, NamesSize, PartSize, FirstSize;
    var config := VolumeConfig(volumeId, size, cdrom);
    var parts := [volumeId, SizeToken(size)] + if cdrom then ["media=cdrom"] else [];
    VolumeParts(volumeId, size, cdrom);
    TokenReadsBack(size);
    TokenChars(size);
    assert config[|volumeId| + 1..|volumeId| + 6] == SizeToken(size)[..5] == "size=";
    assert OccursAt(config, "size=", |volumeId| + 1);
    FirstSizeIs(parts, if NamesSize(volumeId) then 0 else 1);
  }

  /** A resize rewrites the size and nothing else, unless the identifier starts with "size=": then the resize
      overwrites the identifier as well. */
  lemma ResizeKeepsShape(volumeId: string, size: int, cdrom: bool, size': int)
    requires ',' !in volumeId && IsInt64(size)
    ensures ReplaceConfigSize(VolumeConfig(volumeId, size, cdrom), size')
         == VolumeConfig(if HasPrefix(volumeId, "size=") then SizeToken(size') else volumeId, size', cdrom)
  {
    hide Split, Join, NamesSize, SizeToken, VolumeConfig, Contains, HasPrefix;
    var config := VolumeConfig(volumeId, size, cdrom);
    var tail := if cdrom then ["media=cdrom"] else [];
    VolumeReadsBack(volumeId, size, cdrom);
    VolumeParts(volumeId, size, cdrom);
    TokenChars(size);
    NoCdromSize();
    ReplaceMiddle(volumeId, SizeToken(size), tail, SizeToken(size'));
    JoinVolume(if HasPrefix(volumeId, "size=") then SizeToken(size') else volumeId, size', cdrom);
  }

  lemma NoCdromSize()
    ensures !HasPrefix("media=cdrom", "size=")
  {
    assert "media=cdrom"[0] != "size="[0];
  }

  lemma ReplaceMiddle(first: string, token: string, tail: seq<string>, token': string)
    requires HasPrefix(token, "size=") && forall i :: 0 <= i < |tail| ==> !HasPrefix(tail[i], "size=")
    ensures ReplaceParts([first, token] + tail, token')
         == [if HasPrefix(first, "size=") then token' else first, token'] + tail
  {
    hide HasPrefix;
  }

  lemma JoinVolume(volumeId: string, size: int, cdrom: bool)
    ensures Join([volumeId, SizeToken(size)] + (if cdrom then ["media=cdrom"] else []), ",")
        == VolumeConfig(volumeId, size, cdrom)
  {
    hide SizeToken;
    var parts := [volumeId, SizeToken(size)] + if cdrom then ["media=cdrom"] else [];
    assert parts[1..] == [SizeToken(size)] + if cdrom then ["media=cdrom"] else [];
    if cdrom {
      assert parts[1..][1..] == ["media=cdrom"];
      assert Join(parts[1..], ",") == SizeToken(size) + "," + "media=cdrom";
    } else {
      assert Join(parts[1..], ",") == SizeToken(size);
    }
  }

  /** The volume the mock server allocates, as the guest's disk. */
  function AllocatedDisk(a: Allocation): Disk
    requires a.Allocated?
  {
    Disk(a.config, a.volumeId, a.size)
  }

  /** The size reads back after every sequence of resizes. */
  ghost predicate AlwaysReadsBack(d: Disk) { forall raws :: ReadsBack(ResizeAll(d, raws)) }

  /** The round trip over a volume's life: for any allocation, the size reads back after every sequence of resizes
      if and only if the volume's identifier holds no comma and does not itself name a size. */
  lemma SizeRoundTrip(value: string, vmid: int, lxc: bool, index: nat, source: Option<int>)
    requires source.Some? ==> IsInt64(source.value)
    ensures var a := BuildAllocated(value, vmid, lxc, index, source);
            a.Allocated? ==>
              (AlwaysReadsBack(AllocatedDisk(a)) <==> ',' !in a.volumeId && !NamesSize(a.volumeId))
  {
    hide BuildAllocated, ReadsBack, NamesSize, VolumeConfig, Contains;
    var a := BuildAllocated(value, vmid, lxc, index, source);
    if a.Allocated? {
      var cdrom := Contains(value, "media=cdrom");
      AllocatedSize(value, vmid, lxc, index, source);
      AllocatedName(value, vmid, lxc, index, source);
      var disk := AllocatedDisk(a);
      if ',' !in a.volumeId && !NamesSize(a.volumeId) {
        forall raws ensures ReadsBack(ResizeAll(disk, raws)) { SurvivesResizes(a.volumeId, a.size, cdrom, raws); }
      } else {
        NotReadBack(a.volumeId, a.size, cdrom);
        assert ResizeAll(disk, []) == disk && !ReadsBack(ResizeAll(disk, []));
        assert !AlwaysReadsBack(disk);
      }
    }
  }

  lemma NotReadBack(volumeId: string, size: int, cdrom: bool)
    requires IsInt64(size) && ':' in volumeId && IsDigit(volumeId[|volumeId| - 1])
    ensures ',' in volumeId || NamesSize(volumeId) ==>
              !ReadsBack(Disk(VolumeConfig(volumeId, size, cdrom), volumeId, size))
  {
    hide VolumeConfig, NamesSize, ParseConfigSize, Split, PartSize, Contains;
    if ',' !in volumeId && NamesSize(volumeId) {
      VolumeReadsBack(volumeId, size, cdrom);
      NameIsNoSize(volumeId);
    }
  }

  lemma {:induction false} SurvivesResizes(volumeId: string, size: int, cdrom: bool, raws: seq<string>)
    requires ',' !in volumeId && !NamesSize(volumeId) && IsInt64(size)
    ensures var d := ResizeAll(Disk(VolumeConfig(volumeId, size, cdrom), volumeId, size), raws);
            && IsInt64(d.size) && d.volumeId == volumeId && d.config == VolumeConfig(volumeId, d.size, cdrom)
            && ReadsBack(d)
  {
    hide VolumeConfig, ReplaceConfigSize, ParseConfigSize, ExtractVolumeId, Contains, NamesSize, ApplySizeDelta;
    hide HasPrefix;
    var start := Disk(VolumeConfig(volumeId, size, cdrom), volumeId, size);
    if raws != [] {
      var n := |raws| - 1;
      SurvivesResizes(volumeId, size, cdrom, raws[..n]);
      var before := ResizeAll(start, raws[..n]);
      var now := ApplySizeDelta(before.size, raws[n]);
      NoSizePrefix(volumeId);
      if now.Some? { ResizeKeepsShape(volumeId, before.size, cdrom, now.value); }
    }
    var d := ResizeAll(start, raws);
    VolumeReadsBack(volumeId, d.size, cdrom);
    WholeGibBounds(d.size);
  }

  lemma NoSizePrefix(volumeId: string)
    requires !NamesSize(volumeId)
    ensures !HasPrefix(volumeId, "size=")
  {
    if HasPrefix(volumeId, "size=") { PrefixSurvivesTrim(volumeId); }
  }

  lemma AllocatedSize(value: string, vmid: int, lxc: bool, index: nat, source: Option<int>)
    requires source.Some? ==> IsInt64(source.value)
    ensures var a := BuildAllocated(value, vmid, lxc, index, source);
            a.Allocated? ==>
              && IsInt64(a.size)
              && a.config == VolumeConfig(a.volumeId, a.size, Contains(value, "media=cdrom"))
  {
    hide Split, Contains, HasPrefix, Setting, CutColon, ParseDiskSize, VolumeConfig, Dec;
  }

  // ---- Identifiers that name a size ----

  /** The client reads an allocated volume's size exactly when its identifier does not itself name a size,
      and when it does the client reads nothing. */
  lemma AllocatedReadsBack(value: string, vmid: int, lxc: bool, index: nat, source: Option<int>)
    requires source.Some? ==> IsInt64(source.value)
    ensures var a := BuildAllocated(value, vmid, lxc, index, source);
            a.Allocated? && ',' !in a.volumeId ==>
              && (ParseConfigSize(a.config) == Some(WholeGib(a.size)) <==> !NamesSize(a.volumeId))
              && (NamesSize(a.volumeId) ==> ParseConfigSize(a.config) == None)
  {
    hide BuildAllocated, NamesSize, ParseConfigSize, VolumeConfig, PartSize, Contains;
    var a := BuildAllocated(value, vmid, lxc, index, source);
    if a.Allocated? && ',' !in a.volumeId {
      AllocatedSize(value, vmid, lxc, index, source);
      AllocatedName(value, vmid, lxc, index, source);
      VolumeReadsBack(a.volumeId, a.size, Contains(value, "media=cdrom"));
      if NamesSize(a.volumeId) { NameIsNoSize(a.volumeId); }
    }
  }

  /** After a resize the server still finds the volume unless its identifier starts with "size=". */
  lemma ResizeKeepsVolume(value: string, vmid: int, lxc: bool, index: nat, source: Option<int>, size: int)
    requires (source.Some? ==> IsInt64(source.value)) && IsInt64(size)
    ensures var a := BuildAllocated(value, vmid, lxc, index, source);
            a.Allocated? && ',' !in a.volumeId ==>
              (ExtractVolumeId(ReplaceConfigSize(a.config, size)) == a.volumeId <==> !HasPrefix(a.volumeId, "size="))
  {
    hide BuildAllocated, VolumeConfig, ReplaceConfigSize, ParseConfigSize, ExtractVolumeId, Contains;
    hide HasPrefix, SizeToken;
    var a := BuildAllocated(value, vmid, lxc, index, source);
    if a.Allocated? && ',' !in a.volumeId {
      var cdrom := Contains(value, "media=cdrom");
      AllocatedSize(value, vmid, lxc, index, source);
      AllocatedName(value, vmid, lxc, index, source);
      ResizeKeepsShape(a.volumeId, a.size, cdrom, size);
      TokenChars(size);
      TokenHasNoColon(size);
      VolumeReadsBack(if HasPrefix(a.volumeId, "size=") then SizeToken(size) else a.volumeId, size, cdrom);
    }
  }

  lemma TokenHasNoColon(size: int)
    ensures ':' !in SizeToken(size)
  {
    ParseDec(TruncDiv(size, GIB));
    var t, d := SizeToken(size), Dec(TruncDiv(size, GIB));
    forall i | 0 <= i < |t| ensures t[i] != ':' { assert i < 5 || i == |t| - 1 || t[i] == d[i - 5]; }
  }

  /** An allocated identifier is a storage, a colon and a name that ends in a digit. */
  lemma AllocatedName(value: string, vmid: int, lxc: bool, index: nat, source: Option<int>)
    ensures var a := BuildAllocated(value, vmid, lxc, index, source);
            a.Allocated? ==> ':' in a.volumeId && IsDigit(a.volumeId[|a.volumeId| - 1])
  {
    hide Split, Contains, HasPrefix, Setting, CutColon, ParseDiskSize, VolumeConfig, DecNat;
    var d := Dec(index);
    assert IsDigit(d[|d| - 1]);
  }

  /** What is left of a text that holds a colon and ends in a digit when blanks are trimmed does so too. */
  lemma {:induction false} TrimLeftName(s: string)
    requires ':' in s && IsDigit(s[|s| - 1])
    ensures ':' in TrimLeft(s) && IsDigit(TrimLeft(s)[|TrimLeft(s)| - 1])
  {
    hide HasSuffix, HasPrefix;
    if IsSpace(s[0]) {
      var rest := s[1..];
      assert s == [s[0]] + rest && s[0] != ':';
      assert rest != "" && rest[|rest| - 1] == s[|s| - 1];
      TrimLeftName(rest);
    }
  }

  /** Such an identifier may name a size, but what it names is never a number. */
  lemma NameIsNoSize(volumeId: string)
    requires NamesSize(volumeId) && ':' in volumeId && IsDigit(volumeId[|volumeId| - 1])
    ensures PartSize(volumeId) == None
  {
    hide HasSuffix, TrimLeft, ParseInt64, IsInt64;
    TrimLeftName(volumeId);
    var t := TrimLeft(volumeId);
    assert TrimSpace(volumeId) == t by { assert !IsSpace(t[|t| - 1]); }
    hide TrimSpace, TrimRight, IsSpace;
    var value := t[5..];
    assert t == "size=" + value;
    NotANumber(value);
  }

  lemma NotANumber(s: string)
    requires ':' in s
    ensures ParseInt64(s) == None
  {
    assert s == [s[0]] + s[1..];
  }
}
