/** The Ansible inventory: hoisting shared variables, unique aliases and the host groups. */
module Inventory {
  import opened Text

  datatype Host = Host(alias: string, target: string, groupNames: seq<string>, vars: map<string, string>)

  datatype Style = Compact | Expanded

  // ---- Shared variables ----

  predicate IsShareable(key: string) { HasPrefix(key, "ansible_") && key != "ansible_host" }

  /** A host's variables as they count: trimmed, blank ones left out. */
  function NonBlank(vars: map<string, string>): map<string, string> {
    map k | k in vars && TrimSpace(vars[k]) != "" :: TrimSpace(vars[k])
  }

  function Filtered(vars: map<string, string>, shared: map<string, string>): map<string, string> {
    map k | k in vars && TrimSpace(vars[k]) != ""
      && !(k in shared && shared[k] == TrimSpace(vars[k])) :: TrimSpace(vars[k])
  }

  function ValueIn(host: Host, key: string): string {
    if key in host.vars then TrimSpace(host.vars[key]) else ""
  }

  /** The shareable variables that every host sets to the same non-blank value. */
  function Shared(hosts: seq<Host>): map<string, string> {
    if hosts == [] then map[]
    else
      map k | k in hosts[0].vars && IsShareable(k) && ValueIn(hosts[0], k) != ""
              && (forall i :: 0 <= i < |hosts| ==> ValueIn(hosts[i], k) == ValueIn(hosts[0], k)) :: ValueIn(hosts[0], k)
  }

  method FilterHostVars(vars: map<string, string>, shared: map<string, string>) returns (filtered: map<string, string>)
    ensures filtered == Filtered(vars, shared)
  {
    hide TrimSpace;
    filtered := map[];
    var left := vars.Keys;
    while left != {}
      invariant left <= vars.Keys
      invariant forall k :: k in filtered <==> k !in left && k in Filtered(vars, shared)
      invariant forall k :: k in filtered ==> filtered[k] == TrimSpace(vars[k])
      decreases |left|
    {
      var k :| k in left;
      left := left - {k};
      var trimmed := TrimSpace(vars[k]);
      if trimmed != "" && !(k in shared && shared[k] == trimmed) { filtered := filtered[k := trimmed]; }
    }
  }

  /** The shared variables on which one more host agrees. */
  function Agreeing(shared: map<string, string>, host: Host): map<string, string> {
    map k | k in shared && ValueIn(host, k) != "" && ValueIn(host, k) == shared[k] :: shared[k]
  }

  method DropDisagreeing(shared0: map<string, string>, host: Host) returns (shared: map<string, string>)
    ensures shared == Agreeing(shared0, host)
  {
    shared := shared0;
    var left := shared0.Keys;
    while left != {}
      invariant left <= shared0.Keys
      invariant forall k :: k in shared <==> k in shared0 && (k in left || k in Agreeing(shared0, host))
      invariant forall k :: k in shared ==> shared[k] == shared0[k]
      decreases |left|
    {
      var key :| key in left;
      left := left - {key};
      var actual := ValueIn(host, key);
      if actual == "" || actual != shared[key] { shared := shared - {key}; }
    }
  }

  method ComputeSharedVars(hosts: seq<Host>) returns (shared: map<string, string>)
    ensures shared == Shared(hosts)
  {
    if |hosts| == 0 { return map[]; }
    shared := map k | k in hosts[0].vars && ValueIn(hosts[0], k) != "" && IsShareable(k) :: ValueIn(hosts[0], k);
    assert shared == Shared(hosts[..1]);
    for i := 1 to |hosts|
      invariant shared == Shared(hosts[..i])
    {
      shared := DropDisagreeing(shared, hosts[i]);
      SharedStep(hosts[..i], hosts[i]);
      assert hosts[..i + 1] == hosts[..i] + [hosts[i]];
    }
    assert hosts[..|hosts|] == hosts;
  }

  lemma SharedStep(hosts: seq<Host>, host: Host)
    requires hosts != []
    ensures Shared(hosts + [host]) == Agreeing(Shared(hosts), host)
  {
    hide ValueIn, IsShareable;
    var longer := hosts + [host];
    assert longer[0] == hosts[0] && longer[|hosts|] == host;
    assert forall j :: 0 <= j < |hosts| ==> longer[j] == hosts[j];
    forall k ensures k in Shared(longer) <==> k in Agreeing(Shared(hosts), host) {
      if k in Shared(longer) { assert ValueIn(longer[|hosts|], k) == ValueIn(longer[0], k); }
    }
  }

  /** Compact style changes no host: the shared variables, overlaid with what is left of a host's own,
      are exactly that host's variables, and so is what expanded style writes. */
  lemma CompactKeepsMeaning(hosts: seq<Host>, i: nat)
    requires i < |hosts|
    ensures Shared(hosts) + Filtered(hosts[i].vars, Shared(hosts)) == NonBlank(hosts[i].vars)
    ensures map[] + Filtered(hosts[i].vars, map[]) == NonBlank(hosts[i].vars)
  {
    var shared, vars := Shared(hosts), hosts[i].vars;
    forall k | k in shared ensures k in vars && TrimSpace(vars[k]) == shared[k] != "" {
      assert ValueIn(hosts[i], k) == ValueIn(hosts[0], k) != "";
    }
    hide Shared, TrimSpace;
    Overlay(vars, shared);
    Overlay(vars, map[]);
  }

  lemma Overlay(vars: map<string, string>, shared: map<string, string>)
    requires forall k :: k in shared ==> k in vars && TrimSpace(vars[k]) == shared[k] != ""
    ensures shared + Filtered(vars, shared) == NonBlank(vars)
  {}

  /** Hoisting is as complete as it may be: exactly the shareable variables on which all hosts agree. */
  lemma SharedIsMaximal(hosts: seq<Host>, key: string, value: string)
    requires hosts != []
    ensures key in Shared(hosts) && Shared(hosts)[key] == value
       <==> IsShareable(key) && value != "" && forall i :: 0 <= i < |hosts| ==> ValueIn(hosts[i], key) == value
  {}

  /** What is hoisted, by name: a variable "ansible_..." other than "ansible_host" to which every host gives the same
      text once white space is trimmed, and not the empty one. */
  lemma SharedKeys(hosts: seq<Host>, key: string)
    ensures key in Shared(hosts) ==>
              && |key| >= 8 && key[..8] == "ansible_" && key != "ansible_host"
              && forall i :: 0 <= i < |hosts| ==>
                   key in hosts[i].vars && TrimSpace(hosts[i].vars[key]) == Shared(hosts)[key] != ""
    ensures hosts != [] && |key| >= 8 && key[..8] == "ansible_" && key != "ansible_host"
            && (forall i :: 0 <= i < |hosts| ==> key in hosts[i].vars && TrimSpace(hosts[i].vars[key]) != "")
            && (forall i :: 0 <= i < |hosts| ==>
                  TrimSpace(hosts[i].vars[key]) == TrimSpace(hosts[0].vars[key])) ==>
              key in Shared(hosts)
  {
    hide TrimSpace;
    forall i | 0 <= i < |hosts| && ValueIn(hosts[i], key) != "" ensures key in hosts[i].vars {}
    assert hosts != [] ==> ValueIn(hosts[0], key) == if key in hosts[0].vars then TrimSpace(hosts[0].vars[key]) else "";
  }

  /** No host repeats a hoisted variable. */
  lemma SharedNotRepeated(hosts: seq<Host>, i: nat, key: string)
    requires i < |hosts| && key in Shared(hosts)
    ensures key !in Filtered(hosts[i].vars, Shared(hosts))
  {
    SharedKeys(hosts, key);
  }

  /** A host's variables as they count, one by one. */
  lemma EffectiveVariables(hosts: seq<Host>, i: nat, key: string)
    requires i < |hosts|
    ensures var vars := hosts[i].vars;
            var effective := Shared(hosts) + Filtered(vars, Shared(hosts));
            && (key in effective <==> key in vars && TrimSpace(vars[key]) != "")
            && (key in effective ==> effective[key] == TrimSpace(vars[key]))
  {
    CompactKeepsMeaning(hosts, i);
    hide TrimSpace, Shared, Filtered;
  }

  // ---- Aliases ----

  function Aliases(hosts: seq<Host>): set<string> { set i | 0 <= i < |hosts| :: hosts[i].alias }

  predicate HasAlias(hosts: seq<Host>, alias: string) { exists i :: 0 <= i < |hosts| && hosts[i].alias == alias }

  /** The alias tried at the `idx`-th probe. */
  function Candidate(base: string, idx: nat): string { if idx <= 1 then base else base + "_" + Dec(idx) }

  lemma CandidatesDiffer(base: string, i: nat, j: nat)
    requires 1 <= i < j
    ensures Candidate(base, i) != Candidate(base, j)
  {
    SameHead(base + "_", Dec(i), Dec(j));
    DecInjective(i, j);
    assert |base + "_" + Dec(j)| > |base|;
  }

  function Probed(base: string, n: nat): set<string> { set i | 1 <= i <= n :: Candidate(base, i) }

  lemma {:induction false} ProbesAreDistinct(base: string, n: nat)
    ensures |Probed(base, n)| == n
  {
    if n == 0 {
      assert Probed(base, 0) == {};
    } else {
      ProbesAreDistinct(base, n - 1);
      forall i | 1 <= i < n ensures Candidate(base, i) != Candidate(base, n) { CandidatesDiffer(base, i, n); }
      assert Probed(base, n) == Probed(base, n - 1) + {Candidate(base, n)};
    }
  }

  lemma {:induction false} AliasesBounded(hosts: seq<Host>)
    ensures |Aliases(hosts)| <= |hosts|
  {
    if hosts == [] {
      assert Aliases(hosts) == {};
    } else {
      var n := |hosts| - 1;
      AliasesBounded(hosts[..n]);
      assert Aliases(hosts) == Aliases(hosts[..n]) + {hosts[n].alias} by {
        forall a | a in Aliases(hosts) ensures a in Aliases(hosts[..n]) + {hosts[n].alias} {
          var i :| 0 <= i < |hosts| && hosts[i].alias == a;
          if i < n { assert hosts[..n][i].alias == a; }
        }
        forall a | a in Aliases(hosts[..n]) ensures a in Aliases(hosts) {
          var i :| 0 <= i < n && hosts[..n][i].alias == a;
          assert hosts[i].alias == a;
        }
      }
    }
  }

  /** Pigeonhole: among the first |existing| + 1 candidates at least one is free. */
  lemma SomeCandidateFree(existing: seq<Host>, base: string, n: nat)
    requires forall i :: 1 <= i <= n ==> HasAlias(existing, Candidate(base, i))
    ensures n <= |existing|
  {
    ProbesAreDistinct(base, n);
    AliasesBounded(existing);
    forall a | a in Probed(base, n) ensures a in Aliases(existing) {
      var i :| 1 <= i <= n && Candidate(base, i) == a;
      assert HasAlias(existing, a);
    }
    SubsetBounded(Probed(base, n), Aliases(existing));
  }

  predicate FirstFree(existing: seq<Host>, base: string, alias: string, probes: nat) {
    && 1 <= probes <= |existing| + 1 && alias == Candidate(base, probes) && !HasAlias(existing, alias)
    && forall i :: 1 <= i < probes ==> HasAlias(existing, Candidate(base, i))
  }

  function AliasBase(base: string): string { if base == "" then "host" else base }

  /** When only the base itself is taken, the alias is the base with "_2". */
  lemma SecondAlias(existing: seq<Host>, base: string, alias: string, probes: nat)
    requires FirstFree(existing, base, alias, probes)
    ensures !HasAlias(existing, base) ==> alias == base
    ensures HasAlias(existing, base) && !HasAlias(existing, base + "_2") ==> alias == base + "_2"
  {
    assert Candidate(base, 1) == base;
    assert Candidate(base, 2) == base + "_2" by { DecTwo(); }
  }

  lemma DecTwo()
    ensures Dec(2) == "2"
  {}

  /** The first free candidate, found within |existing| + 1 probes. */
  method UniqueAlias(existing: seq<Host>, base0: string) returns (alias: string, ghost probes: nat)
    ensures FirstFree(existing, AliasBase(base0), alias, probes)
    ensures !HasAlias(existing, alias) && HasPrefix(alias, if base0 == "" then "host" else base0)
  {
    var base := if base0 == "" then "host" else base0;
    alias := base;
    var idx := 1;
    while HasAlias(existing, alias)
      invariant idx >= 1 && alias == Candidate(base, idx)
      invariant forall i :: 1 <= i < idx ==> HasAlias(existing, Candidate(base, i))
      decreases |existing| + 1 - idx
    {
      SomeCandidateFree(existing, base, idx);
      idx := idx + 1;
      alias := base + "_" + Dec(idx);
    }
    SomeCandidateFree(existing, base, idx - 1);
    probes := idx;
  }

  // ---- Identifiers ----

  predicate IsAlnum(c: char) { 'a' <= c <= 'z' || '0' <= c <= '9' }

  function TrimUnderscores(s: string): string {
    if s != "" && s[0] == '_' then TrimUnderscores(s[1..])
    else if s != "" && s[|s| - 1] == '_' then TrimUnderscores(s[..|s| - 1])
    else s
  }

  lemma AlnumCharacters(c: char)
    ensures IsAlnum(c) <==> c in "abcdefghijklmnopqrstuvwxyz" || c in "0123456789"
  {
    var letters, digits := "abcdefghijklmnopqrstuvwxyz", "0123456789";
    assert forall k :: 0 <= k < 26 ==> letters[k] as int == 97 + k;
    assert forall k :: 0 <= k < 10 ==> digits[k] as int == 48 + k;
    if 'a' <= c <= 'z' { assert letters[c as int - 97] == c; }
    if '0' <= c <= '9' { assert digits[c as int - 48] == c; }
  }

  predicate IsWord(s: string) { s != "" && forall i :: 0 <= i < |s| ==> IsAlnum(s[i]) }

  predicate EndsInWord(s: string) { s != "" && IsAlnum(s[|s| - 1]) }

  /** The maximal runs of letters and digits, in order. */
  function Words(s: string): (words: seq<string>)
    ensures forall i :: 0 <= i < |words| ==> IsWord(words[i])
    ensures EndsInWord(s) ==> words != []
  {
    if s == "" then []
    else
      var n := |s| - 1;
      var front := Words(s[..n]);
      if !IsAlnum(s[n]) then front
      else if EndsInWord(s[..n]) then front[..|front| - 1] + [front[|front| - 1] + [s[n]]]
      else front + [[s[n]]]
  }

  function Extended(words: seq<string>, c: char): seq<string>
    requires words != []
  {
    words[..|words| - 1] + [words[|words| - 1] + [c]]
  }

  lemma WordsStep(s: string, c: char)
    ensures Words(s + [c])
         == if !IsAlnum(c) then Words(s) else if EndsInWord(s) then Extended(Words(s), c) else Words(s) + [[c]]
  {
    assert (s + [c])[..|s|] == s;
  }

  /** Words end at every other character. */
  lemma {:induction false} WordsCut(a: string, c: char, b: string)
    requires !IsAlnum(c)
    ensures Words(a + [c] + b) == Words(a) + Words(b)
    decreases |b|
  {
    hide Words;
    if b == "" {
      WordsStep(a, c);
      assert a + [c] + b == a + [c] && Words("") == [] by { NoWords(); }
    } else {
      var front, last := b[..|b| - 1], b[|b| - 1];
      WordsCut(a, c, front);
      WordsStep(a + [c] + front, last);
      WordsStep(front, last);
      assert b == front + [last] && a + [c] + b == a + [c] + front + [last];
      assert EndsInWord(a + [c] + front) == EndsInWord(front);
      assert EndsInWord(front) ==> Extended(Words(a) + Words(front), last) == Words(a) + Extended(Words(front), last);
    }
  }

  lemma NoWords()
    ensures Words("") == []
  {}

  /** A text of letters and digits is one word. */
  lemma {:induction false} OneWord(s: string)
    requires IsWord(s)
    ensures Words(s) == [s]
  {
    var front, last := s[..|s| - 1], s[|s| - 1];
    if front != "" { OneWord(front); } else { NoWords(); }
    WordsStep(front, last);
    assert s == front + [last];
  }

  /** What sanitizeIdentifier promises: the words of the name in lower case, one underscore between two of them. */
  function Sanitized(name: string): string {
    var words := Words(ToLower(TrimSpace(name)));
    if words == [] then "unknown" else Join(words, "_")
  }

  /** Letters and digits, with single underscores inside. */
  predicate IsIdentifier(s: string) {
    && EndsInWord(s) && IsAlnum(s[0]) && SingleUnderscores(s)
  }

  predicate SingleUnderscores(s: string) {
    && (forall i :: 0 <= i < |s| ==> IsAlnum(s[i]) || s[i] == '_')
    && (forall i :: 0 <= i < |s| - 1 ==> s[i] != '_' || s[i + 1] != '_')
  }

  /** Each run of other characters as one underscore, at the ends too. */
  function Squashed(s: string): string {
    (if s != "" && !IsAlnum(s[0]) then "_" else "")
    + (Join(Words(s), "_") + if s != "" && !EndsInWord(s) && Words(s) != [] then "_" else "")
  }

  lemma {:induction false} JoinExtend(parts: seq<string>, last: string)
    requires parts != []
    ensures Join(parts[..|parts| - 1] + [parts[|parts| - 1] + last], "_") == Join(parts, "_") + last
    ensures Join(parts + [last], "_") == Join(parts, "_") + ("_" + last)
  {
    var n := |parts| - 1;
    var longer, added := parts[..n] + [parts[n] + last], parts + [last];
    if n > 0 {
      JoinExtend(parts[1..], last);
      assert longer[1..] == parts[1..][..n - 1] + [parts[1..][n - 1] + last];
      assert added[1..] == parts[1..] + [last];
      JoinFirst(parts[0], Join(parts[1..], "_"), last);
      JoinFirst(parts[0], Join(parts[1..], "_"), "_" + last);
    }
  }

  lemma JoinFirst(first: string, rest: string, last: string)
    ensures first + "_" + (rest + last) == first + "_" + rest + last
  {}

  /** What one more character does to the squashed text. */
  lemma SquashStep(s: string, c: char)
    ensures Squashed(s + [c])
         == Squashed(s) + if IsAlnum(c) then [c] else if s != "" && !EndsInWord(s) then "" else "_"
  {
    hide Join;
    var longer, words, joined := s + [c], Words(s), Join(Words(s), "_");
    var lead := if longer != "" && !IsAlnum(longer[0]) then "_" else "";
    assert longer[..|s|] == s && EndsInWord(longer) == IsAlnum(c);
    JoinShort(c);
    if words == [] {
      assert Words(longer) == if IsAlnum(c) then [[c]] else [];
      assert Squashed(longer) == lead + if IsAlnum(c) then [c] else "";
    } else {
      JoinExtend(words, [c]);
      assert Squashed(s) == lead + (joined + if EndsInWord(s) then "" else "_");
      if !IsAlnum(c) {
        assert Squashed(longer) == lead + (joined + "_");
      } else if EndsInWord(s) {
        assert Squashed(longer) == lead + (joined + [c]);
      } else {
        assert Squashed(longer) == lead + (joined + ("_" + [c]));
      }
    }
  }

  lemma JoinShort(c: char)
    ensures Join([], "_") == "" && Join([[c]], "_") == [c]
  {}

  lemma {:induction false} JoinedIsIdentifier(words: seq<string>)
    requires words != [] && forall i :: 0 <= i < |words| ==> IsWord(words[i])
    ensures IsIdentifier(Join(words, "_"))
  {
    assert IsWord(words[0]);
    if |words| > 1 {
      var rest := Join(words[1..], "_");
      JoinedIsIdentifier(words[1..]);
      WordBefore(words[0], rest);
    }
  }

  lemma WordBefore(word: string, rest: string)
    requires IsWord(word) && IsIdentifier(rest)
    ensures IsIdentifier(word + "_" + rest)
  {
    var s := word + "_" + rest;
    forall i | 0 <= i < |s| ensures IsAlnum(s[i]) || s[i] == '_' {}
    forall i | 0 <= i < |s| - 1 ensures s[i] != '_' || s[i + 1] != '_' {
      if i > |word| { assert s[i] == rest[i - |word| - 1] && s[i + 1] == rest[i - |word|]; }
      if i == |word| { assert s[i + 1] == rest[0]; }
    }
  }

  /** Underscores are trimmed from both ends, and none stand there otherwise. */
  lemma TrimSquashed(s: string)
    ensures TrimUnderscores(Squashed(s)) == Join(Words(s), "_")
  {
    var joined := Join(Words(s), "_");
    if Words(s) != [] {
      JoinedIsIdentifier(Words(s));
      assert TrimUnderscores(joined) == joined;
      assert (joined + "_")[..|joined|] == joined && TrimUnderscores(joined + "_") == joined;
      assert ("_" + joined)[1..] == joined && ("_" + (joined + "_"))[1..] == joined + "_";
    }
  }

  lemma {:induction false} SquashedIdentifier(s: string)
    requires SingleUnderscores(s)
    ensures Squashed(s) == s
  {
    if s != "" {
      var n := |s| - 1;
      SquashedIdentifier(s[..n]);
      SquashStep(s[..n], s[n]);
      assert s == s[..n] + [s[n]];
    }
  }

  /** A name without letters and digits becomes "unknown". */
  lemma NamelessIsUnknown(name: string)
    requires forall i :: 0 <= i < |name| ==> !IsAlnum(LowerChar(name[i]))
    ensures Sanitized(name) == "unknown"
  {
    var before, after := TrimSpaceCuts(name);
    var raw := ToLower(TrimSpace(name));
    forall i | 0 <= i < |raw| ensures !IsAlnum(raw[i]) { assert name[|before| + i] == TrimSpace(name)[i]; }
    NoWordsWithout(raw);
  }

  lemma {:induction false} NoWordsWithout(s: string)
    requires forall i :: 0 <= i < |s| ==> !IsAlnum(s[i])
    ensures Words(s) == []
  {
    if s != "" { NoWordsWithout(s[..|s| - 1]); }
  }

  /** The result is always an identifier, and a name that is one already stays as it is. */
  lemma SanitizedIsIdentifier(name: string)
    ensures IsIdentifier(Sanitized(name))
    ensures IsIdentifier(ToLower(TrimSpace(name))) ==> Sanitized(name) == ToLower(TrimSpace(name))
  {
    hide ToLower, TrimSpace;
    var raw := ToLower(TrimSpace(name));
    if Words(raw) != [] { JoinedIsIdentifier(Words(raw)); }
    if IsIdentifier(raw) { SquashedIdentifier(raw); }
    assert IsIdentifier("unknown");
  }

  /** The loop of sanitizeIdentifier. */
  method Squash(raw: string) returns (out: string)
    ensures out == Squashed(raw)
  {
    hide Squashed;
    out := "";
    var prevUnderscore := false;
    assert raw[..0] == "" && Squashed("") == "" by { EmptySquashed(); }
    for i := 0 to |raw|
      invariant out == Squashed(raw[..i]) && prevUnderscore == (i > 0 && !IsAlnum(raw[i - 1]))
    {
      var ch := raw[i];
      assert raw[..i + 1] == raw[..i] + [ch];
      SquashStep(raw[..i], ch);
      if IsAlnum(ch) {
        out := out + [ch];
        prevUnderscore := false;
      } else if !prevUnderscore {
        out := out + ['_'];
        prevUnderscore := true;
      }
    }
    assert raw[..|raw|] == raw;
  }

  lemma EmptySquashed()
    ensures Squashed("") == ""
  {}

  method SanitizeIdentifier(name: string) returns (sanitized: string)
    ensures sanitized == Sanitized(name)
  {
    hide ToLower, TrimSpace;
    var raw := ToLower(TrimSpace(name));
    if raw == "" { return "unknown"; }
    var out := Squash(raw);
    TrimSquashed(raw);
    sanitized := TrimUnderscores(out);
    if sanitized == "" {
      if Words(raw) != [] { JoinedIsIdentifier(Words(raw)); }
      sanitized := "unknown";
    }
  }
}
