/** What the size texts mean: units, growth, and what is asked of an allocation. */
module DiskUnits {
  import opened Text
  import opened DiskSize

  function Power1024(k: nat): nat { if k == 0 then 1 else 1024 * Power1024(k - 1) }

  /** Which power of 1024 a unit stands for, in either letter case. No unit means GiB. */
  function Exponent(unit: string): Option<nat> {
    if unit == "K" || unit == "k" then Some(1)
    else if unit == "M" || unit == "m" then Some(2)
    else if unit == "G" || unit == "g" || unit == "" then Some(3)
    else if unit == "T" || unit == "t" then Some(4)
    else None
  }

  /** `n` of that unit, in bytes. */
  function Bytes(n: nat, unit: string): nat
    requires Exponent(unit).Some?
  {
    n * Power1024(Exponent(unit).value)
  }

  function SizeText(n: nat, unit: string): string { Dec(n) + unit }

  lemma Powers()
    ensures Power1024(1) == KIB && Power1024(2) == MIB && Power1024(3) == GIB && Power1024(4) == TIB
  {
    assert Power1024(1) == 1024 * Power1024(0) && Power1024(2) == 1024 * Power1024(1);
    assert Power1024(3) == 1024 * Power1024(2) && Power1024(4) == 1024 * Power1024(3);
  }

  lemma DecIsDigits(n: nat)
    ensures Dec(n) != "" && AllDigits(Dec(n)) && ParseInt64(Dec(n)) == if IsInt64(n) then Some(n) else None
  {
    ParseDec(n);
  }

  /** The unit at the end of a text, in capitals, with what stands before it. */
  predicate EndsAs(t: string, n: nat, k: nat) {
    && t != "" && IsDigit(t[0])
    && if IsUnit(UpperChar(t[|t| - 1]))
       then ParseInt64(t[..|t| - 1]) == Some(n) && Unit(UpperChar(t[|t| - 1])) == Power1024(k)
       else IsDigit(t[|t| - 1]) && ParseInt64(t) == Some(n) && GIB == Power1024(k)
  }

  lemma TextEnds(n: nat, unit: string)
    requires Exponent(unit).Some? && IsInt64(n)
    ensures EndsAs(SizeText(n, unit), n, Exponent(unit).value)
  {
    Powers();
    DecIsDigits(n);
    hide Dec, ParseInt64, Power1024;
    var t, d := SizeText(n, unit), Dec(n);
    assert t[0] == d[0];
    if unit == "" {
      assert t == d;
    } else {
      assert |unit| == 1 && t[|t| - 1] == unit[0] && t[..|t| - 1] == d;
    }
  }

  lemma TextChars(n: nat, unit: string)
    requires Exponent(unit).Some?
    ensures var t := SizeText(n, unit);
            && t != "" && ',' !in t && '/' !in t && IsDigit(t[0]) && !IsSpace(t[|t| - 1]) && TrimSpace(t) == t
  {
    DecIsDigits(n);
    hide Dec, ParseInt64;
    var t, d := SizeText(n, unit), Dec(n);
    assert forall i :: 0 <= i < |t| ==> t[i] == if i < |d| then d[i] else unit[i - |d|];
    TrimNothing(t);
  }

  lemma UpperEnds(t: string, n: nat, k: nat)
    requires EndsAs(t, n, k) && AllDigits(t[..|t| - 1])
    ensures EndsAs(ToUpper(t), n, k) && TrimSpace(ToUpper(t)) == ToUpper(t)
    ensures var u := ToUpper(t); UpperChar(u[|u| - 1]) == u[|u| - 1] == UpperChar(t[|t| - 1])
  {
    hide ParseInt64, Power1024;
    var u := ToUpper(t);
    assert u[..|u| - 1] == t[..|t| - 1];
    if IsDigit(t[|t| - 1]) { assert u == t; }
    assert u[0] == t[0];
    TrimNothing(u);
  }

  lemma TextDigits(n: nat, unit: string)
    requires Exponent(unit).Some?
    ensures var t := SizeText(n, unit); t != "" && AllDigits(t[..|t| - 1])
  {
    DecIsDigits(n);
    hide Dec, ParseInt64;
    var t, d := SizeText(n, unit), Dec(n);
    assert |unit| <= 1 && t[..|t| - 1] == d[..|t| - 1];
  }

  /** A number and a unit are that many bytes. */
  lemma ParsesBytes(n: nat, unit: string)
    requires Exponent(unit).Some? && IsInt64(n) && IsInt64(Bytes(n, unit))
    ensures ParseDiskSize(SizeText(n, unit)) == Some(Bytes(n, unit))
  {
    var t, k := SizeText(n, unit), Exponent(unit).value;
    TextEnds(n, unit);
    TextDigits(n, unit);
    UpperEnds(t, n, k);
    hide SizeText, Exponent, ParseInt64, TrimSpace, Power1024, ToUpper;
  }

  /** A size with a plus sign is added to the current one, and one without replaces it. */
  lemma GrowsOrReplaces(current: int, n: nat, unit: string)
    requires Exponent(unit).Some? && IsInt64(n) && IsInt64(Bytes(n, unit))
    ensures IsInt64(current + Bytes(n, unit)) ==>
              ApplySizeDelta(current, "+" + SizeText(n, unit)) == Some(current + Bytes(n, unit))
    ensures ApplySizeDelta(current, SizeText(n, unit)) == Some(Bytes(n, unit))
  {
    hide *;
    var t := SizeText(n, unit);
    ParsesBytes(n, unit);
    TextChars(n, unit);
    assert t[0] != '+' by { DigitIsNoPlus(t[0]); }
    TrimEnds(t, "+" + t);
    DeltaOf(current, t);
  }

  lemma DigitIsNoPlus(c: char)
    requires IsDigit(c)
    ensures c != '+'
  {}

  lemma DeltaOf(current: int, t: string)
    requires t != "" && t[0] != '+' && TrimSpace(t) == t && TrimSpace("+" + t) == "+" + t
    ensures ApplySizeDelta(current, t) == ParseDiskSize(t)
    ensures ParseDiskSize(t).Some? && IsInt64(current + ParseDiskSize(t).value) ==>
              ApplySizeDelta(current, "+" + t) == Some(current + ParseDiskSize(t).value)
  {
    hide ParseDiskSize, TrimSpace;
    assert ("+" + t)[1..] == t && ("+" + t)[0] == '+';
  }

  lemma TrimEnds(t: string, plus: string)
    requires plus == "+" + t && t != "" && TrimSpace(t) == t
    ensures TrimSpace(plus) == plus
  {
    var before, after := TrimSpaceCuts(t);
    assert !IsSpace(t[|t| - 1]) && plus[|plus| - 1] == t[|t| - 1];
    TrimNothing(plus);
  }

  lemma ParsePadding(before: string, t: string, after: string)
    requires AllSpace(before) && AllSpace(after)
    ensures ParseDiskSize(before + t + after) == ParseDiskSize(t)
  {
    hide ParseSized, TrimSpace;
    TrimPadding(ToUpper(before), ToUpper(t), ToUpper(after));
    assert ToUpper(before + t + after) == ToUpper(before) + ToUpper(t) + ToUpper(after);
  }

  lemma DeltaParses(current: int, t: string)
    requires t != "" && !IsSpace(t[|t| - 1])
    ensures ApplySizeDelta(current, "+" + t)
         == match ParseDiskSize(t) case None => None case Some(delta) => Some(Wrap(current + delta))
  {
    hide *;
    var plus := "+" + t;
    assert plus[0] == '+' && plus[1..] == t && plus[|plus| - 1] == t[|t| - 1];
    assert !IsSpace('+') by { PlusIsNoSpace(); }
    TrimNothing(plus);
    DeltaIs(current, plus);
  }

  lemma PlusIsNoSpace()
    ensures !IsSpace('+')
  {}

  lemma DeltaIs(current: int, s: string)
    requires s != "" && TrimSpace(s) == s && s[0] == '+'
    ensures ApplySizeDelta(current, s)
         == match ParseDiskSize(s[1..]) case None => None case Some(delta) => Some(Wrap(current + delta))
  {
    hide ParseDiskSize, TrimSpace, Wrap;
  }

  /** White space around a size makes no difference, nor does any between the plus sign and the number. */
  lemma PaddingIgnored(current: int, before: string, t: string, after: string)
    requires AllSpace(before) && AllSpace(after)
    ensures ApplySizeDelta(current, before + t + after) == ApplySizeDelta(current, t)
    ensures t != "" && !IsSpace(t[|t| - 1]) ==>
              ApplySizeDelta(current, "+" + (before + t)) == ApplySizeDelta(current, "+" + t)
  {
    hide ParseDiskSize, TrimSpace, IsSpace, Wrap;
    TrimPadding(before, t, after);
    if t != "" && !IsSpace(t[|t| - 1]) {
      hide ApplySizeDelta;
      var padded := before + t;
      assert padded[|padded| - 1] == t[|t| - 1];
      DeltaParses(current, t);
      DeltaParses(current, padded);
      ParsePadding(before, t, "");
      assert before + t + "" == padded;
    }
  }

  /** One growth of a disk: a number and a unit. */
  datatype Growth = Growth(n: nat, unit: string)

  predicate Readable(g: Growth) { Exponent(g.unit).Some? && IsInt64(g.n) }

  function GrowthText(g: Growth): string { "+" + SizeText(g.n, g.unit) }

  function Texts(growths: seq<Growth>): seq<string> {
    seq(|growths|, i requires 0 <= i < |growths| => GrowthText(growths[i]))
  }

  function TotalGrowth(growths: seq<Growth>): nat
    requires forall i :: 0 <= i < |growths| ==> Readable(growths[i])
  {
    if growths == [] then 0
    else
      var n := |growths| - 1;
      assert Readable(growths[n]);
      TotalGrowth(growths[..n]) + Bytes(growths[n].n, growths[n].unit)
  }

  /** Over the life of a volume, growths add up. */
  lemma {:induction false} GrowthsAddUp(volumeId: string, size: nat, cdrom: bool, growths: seq<Growth>)
    requires ',' !in volumeId && !NamesSize(volumeId)
    requires forall i :: 0 <= i < |growths| ==> Readable(growths[i])
    requires IsInt64(size + TotalGrowth(growths))
    ensures ResizeAll(Disk(VolumeConfig(volumeId, size, cdrom), volumeId, size), Texts(growths)).size
         == size + TotalGrowth(growths)
  {
    hide VolumeConfig, NamesSize, ApplySizeDelta, ReplaceConfigSize, ExtractVolumeId, Bytes, Exponent, GrowthText;
    var start := Disk(VolumeConfig(volumeId, size, cdrom), volumeId, size);
    if growths != [] {
      var n := |growths| - 1;
      GrowthsAddUp(volumeId, size, cdrom, growths[..n]);
      assert Texts(growths)[..n] == Texts(growths[..n]);
      var before := ResizeAll(start, Texts(growths[..n]));
      SurvivesResizes(volumeId, size, cdrom, Texts(growths[..n]));
      assert ExtractVolumeId(before.config) == volumeId by { FoundWhenReadsBack(before); }
      OneGrowth(before.size, growths[n]);
    }
  }

  lemma FoundWhenReadsBack(d: Disk)
    requires ReadsBack(d)
    ensures ExtractVolumeId(d.config) == d.volumeId
  {}

  lemma OneGrowth(size: nat, g: Growth)
    requires Readable(g) && IsInt64(size + Bytes(g.n, g.unit))
    ensures ApplySizeDelta(size, GrowthText(g)) == Some(size + Bytes(g.n, g.unit))
  {
    hide Exponent, Bytes, SizeText, ApplySizeDelta;
    GrowsOrReplaces(size, g.n, g.unit);
  }

  /** The client reads the units alike. */
  lemma ClientReadsBytes(volumeId: string, n: nat, unit: string)
    requires ',' !in volumeId && !NamesSize(volumeId)
    requires Exponent(unit).Some? && IsInt64(n) && IsInt64(Bytes(n, unit))
    ensures ParseConfigSize(volumeId + [','] + ("size=" + SizeText(n, unit))) == Some(Bytes(n, unit))
  {
    hide *;
    var token := "size=" + SizeText(n, unit);
    TokenIs(n, unit);
    SplitWhole(volumeId, ',');
    SplitWhole(token, ',');
    SplitConcat(volumeId, ',', token);
    assert [volumeId] + [token] == [volumeId, token];
    SecondNamesSize(volumeId, token);
    ConfigIs(volumeId + [','] + token);
  }

  lemma SecondNamesSize(first: string, second: string)
    requires !NamesSize(first) && NamesSize(second)
    ensures SizeOfParts([first, second]) == PartSize(second)
  {
    hide NamesSize, PartSize;
    FirstSizeIs([first, second], 1);
  }

  lemma ConfigIs(config: string)
    ensures ParseConfigSize(config) == SizeOfParts(Split(config, ','))
  {}

  lemma TokenIs(n: nat, unit: string)
    requires Exponent(unit).Some? && IsInt64(n) && IsInt64(Bytes(n, unit))
    ensures var token := "size=" + SizeText(n, unit);
            ',' !in token && NamesSize(token) && PartSize(token) == Some(Bytes(n, unit))
  {
    TextEnds(n, unit);
    TextChars(n, unit);
    hide SizeText, Exponent;
    var t := SizeText(n, unit);
    var token := "size=" + t;
    assert token[0] == 's' && token[|token| - 1] == t[|t| - 1] && token[5..] == t;
    TrimNothing(token);
    assert token[..5] == "size=";
    hide TrimSpace, ParseInt64, Power1024, IsSpace;
  }

  // ---- Allocations ----

  lemma CutAtColon(storage: string, payload: string)
    requires ':' !in storage
    ensures CutColon(storage + ":" + payload) == Some((storage, payload))
  {
    var value := storage + ":" + payload;
    assert OccursAt(value, ":", |storage|) by { assert value[|storage|..|storage| + 1] == ":"; }
    forall i: nat | i < |storage| ensures !OccursAt(value, ":", i) {
      assert value[i..i + 1][0] == storage[i];
    }
    assert value[..|storage|] == storage && value[|storage| + 1..] == payload;
  }

  /** The identifier an allocation gets. */
  function VolumeName(storage: string, vmid: int, lxc: bool, index: nat): string {
    storage + ":" + ((if lxc then "subvol-" else "vm-") + Dec(vmid) + "-disk-" + Dec(index))
  }

  lemma RequestIsPlain(n: nat, unit: string)
    requires Exponent(unit).Some?
    ensures var t := SizeText(n, unit);
            t != "" && ',' !in t && !Contains(t, "/") && !HasPrefix(t, "vm-") && !HasPrefix(t, "subvol-")
  {
    TextChars(n, unit);
    hide SizeText, Exponent;
    var t := SizeText(n, unit);
    forall i: nat ensures !OccursAt(t, "/", i) {
      if i + 1 <= |t| { assert t[i] == t[i..i + 1][0]; }
    }
    assert "vm-"[0] == 'v' && "subvol-"[0] == 's';
  }

  /** A request for so much on a storage allocates that much there, under a name of the guest and the disk. */
  lemma AllocatesRequested(storage: string, n: nat, unit: string, vmid: int, lxc: bool, index: nat, source: Option<int>)
    requires storage != "" && ':' !in storage
    requires Exponent(unit).Some? && IsInt64(n) && IsInt64(Bytes(n, unit))
    ensures var a := BuildAllocated(storage + ":" + SizeText(n, unit), vmid, lxc, index, source);
            a.Allocated? && a.volumeId == VolumeName(storage, vmid, lxc, index) && a.size == Bytes(n, unit)
  {
    var t := SizeText(n, unit);
    RequestIsPlain(n, unit);
    ParsesBytes(n, unit);
    CutAtColon(storage, t);
    SplitWhole(t, ',');
    assert Split(t, ',')[1..] == [];
    hide Contains, HasPrefix, ParseDiskSize, CutColon, Split, Dec, Bytes, VolumeConfig;
  }

  /** With an import the size is that of the volume named there, and without such a volume it fails. */
  lemma AllocatesImported(storage: string, n: nat, unit: string, from: string, vmid: int, lxc: bool, index: nat,
                          source: Option<int>)
    requires storage != "" && ':' !in storage && from != "" && ',' !in from
    requires Exponent(unit).Some? && IsInt64(n) && IsInt64(Bytes(n, unit))
    ensures var value := storage + ":" + (SizeText(n, unit) + [','] + ("import-from=" + from));
            var a := BuildAllocated(value, vmid, lxc, index, source);
            if source.Some? then
              a.Allocated? && a.volumeId == VolumeName(storage, vmid, lxc, index) && a.size == source.value
            else a == SourceMissing
  {
    hide Contains, HasPrefix, ParseDiskSize, CutColon, Split, Dec, Bytes, VolumeConfig, Setting, SizeText, Exponent;
    var t, part := SizeText(n, unit), "import-from=" + from;
    RequestIsPlain(n, unit);
    ParsesBytes(n, unit);
    CutAtColon(storage, t + [','] + part);
    ImportParts(t, from);
    SettingIs(from);
  }

  lemma ImportParts(t: string, from: string)
    requires ',' !in t && ',' !in from
    ensures var part := "import-from=" + from;
            Split(t + [','] + part, ',') == [t, part] && [t, part][1..] == [part]
  {
    var part := "import-from=" + from;
    SplitWhole(t, ',');
    SplitWhole(part, ',');
    SplitConcat(t, ',', part);
    assert [t] + [part] == [t, part];
  }

  /** Of several settings of one name the last one counts, and the others do not matter. */
  lemma LastSettingCounts(parts: seq<string>, key: string, value: string, other: string)
    ensures Setting(parts + [key + value], key) == value
    ensures !HasPrefix(other, key) ==> Setting(parts + [other], key) == Setting(parts, key)
    ensures Setting([], key) == ""
  {
    assert (key + value)[|key|..] == value && (parts + [other])[..|parts|] == parts;
  }

  lemma SettingIs(from: string)
    ensures Setting(["import-from=" + from], "import-from=") == from
  {
    assert ("import-from=" + from)[|"import-from="|..] == from;
  }

  /** A value that already names a volume is kept: one without a storage, or whose first part holds a slash or is
      named like a volume. */
  lemma KeepsExisting(storage: string, payload: string, vmid: int, lxc: bool, index: nat, source: Option<int>)
    requires ':' !in storage
    ensures storage == "" || payload == "" || Contains(Split(payload, ',')[0], "/")
            || HasPrefix(payload, "vm-") || HasPrefix(payload, "subvol-") ==>
              BuildAllocated(storage + ":" + payload, vmid, lxc, index, source) == Unchanged(storage + ":" + payload)
    ensures BuildAllocated(storage, vmid, lxc, index, source) == Unchanged(storage)
  {
    CutAtColon(storage, payload);
    NoColon(storage);
    if HasPrefix(payload, "vm-") { PrefixInFirst(payload, "vm-"); }
    if HasPrefix(payload, "subvol-") { PrefixInFirst(payload, "subvol-"); }
    hide Contains, HasPrefix, ParseDiskSize, CutColon, Split, VolumeConfig, Setting;
  }

  lemma NoColon(s: string)
    requires ':' !in s
    ensures CutColon(s) == None
  {
    forall i: nat ensures !OccursAt(s, ":", i) {
      if i + 1 <= |s| { assert s[i] == s[i..i + 1][0]; }
    }
  }

  lemma {:induction false} PrefixInFirst(s: string, prefix: string)
    requires HasPrefix(s, prefix) && ',' !in prefix
    ensures HasPrefix(Split(s, ',')[0], prefix)
  {
    if prefix != "" {
      assert s[0] == prefix[0] && s[1..][..|prefix| - 1] == prefix[1..];
      PrefixInFirst(s[1..], prefix[1..]);
      assert Split(s, ',')[0] == [s[0]] + Split(s[1..], ',')[0];
    }
  }
}
