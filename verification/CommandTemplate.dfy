/** Command templates: finding and filling the parameters, and matching a command against the static parts. */
module CommandTemplate {
  import opened Text

  datatype Template = Template(text: string, parameters: seq<string>)

  datatype FillResult = Filled(command: string) | Missing(parameter: string) | Invalid(parameter: string)

  /** `Panics`: the program indexes the first static part of a template that has none. */
  datatype Verdict = Accepted | Rejected | Panics

  // ---- What the scans compute ----

  /** The parameter names from position `i` on, when the last unclosed brace is at `start`. */
  function ParamsFrom(cmd: string, i: nat, start: int): seq<string>
    requires i <= |cmd| && -1 <= start < i
    decreases |cmd| - i
  {
    if i == |cmd| then []
    else if cmd[i] == '{' then ParamsFrom(cmd, i + 1, i)
    else if cmd[i] == '}' && start != -1 then [cmd[start + 1..i]] + ParamsFrom(cmd, i + 1, -1)
    else ParamsFrom(cmd, i + 1, start)
  }

  function Parse(cmd: string): Template { Template(cmd, ParamsFrom(cmd, 0, -1)) }

  function Flush(current: string): seq<string> { if current == "" then [] else [current] }

  /** The static parts of `text`, when `current` has been gathered so far. */
  function PartsFrom(text: string, current: string, inParam: bool): seq<string> {
    if text == "" then Flush(current)
    else if text[0] == '{' then Flush(current) + PartsFrom(text[1..], "", true)
    else if text[0] == '}' then PartsFrom(text[1..], current, false)
    else if inParam then PartsFrom(text[1..], current, true)
    else PartsFrom(text[1..], current + [text[0]], false)
  }

  function StaticParts(text: string): seq<string> { PartsFrom(text, "", false) }

  const METACHARS: set<char> := {';', '&', '|', '$', '`', '(', ')', '<', '>', '\n', '\r'}

  predicate HasMetachar(s: string) { exists i :: 0 <= i < |s| && s[i] in METACHARS }

  function Placeholder(parameter: string): string { "{" + parameter + "}" }

  /** Replacing the placeholders of `parameters` one after the other. */
  function FillFrom(text: string, parameters: seq<string>, values: map<string, string>): FillResult
    decreases |parameters|
  {
    if parameters == [] then Filled(text)
    else
      var p := parameters[0];
      if p !in values then Missing(p)
      else if HasMetachar(values[p]) then Invalid(p)
      else FillFrom(ReplaceAll(text, Placeholder(p), values[p]), parameters[1..], values)
  }

  function Fill(t: Template, values: map<string, string>): FillResult { FillFrom(t.text, t.parameters, values) }

  // ---- The program's loops ----

  method ParseTemplate(cmd: string) returns (t: Template)
    ensures t == Parse(cmd)
  {
    var params: seq<string> := [];
    var start := -1;
    for i := 0 to |cmd|
      invariant -1 <= start < i
      invariant params + ParamsFrom(cmd, i, start) == ParamsFrom(cmd, 0, -1)
    {
      var ch := cmd[i];
      if ch == '{' {
        start := i;
      } else if ch == '}' && start != -1 {
        var param := cmd[start + 1..i];
        assert params + ([param] + ParamsFrom(cmd, i + 1, -1)) == (params + [param]) + ParamsFrom(cmd, i + 1, -1);
        params := params + [param];
        start := -1;
      }
    }
    t := Template(cmd, params);
  }

  method SplitTemplate(text: string) returns (parts: seq<string>)
    ensures parts == StaticParts(text)
  {
    parts := [];
    var current, inParam := "", false;
    for i := 0 to |text|
      invariant parts + PartsFrom(text[i..], current, inParam) == StaticParts(text)
    {
      var ch := text[i];
      assert text[i..][1..] == text[i + 1..];
      ghost var rest := PartsFrom(text[i + 1..], "", true);
      if ch == '{' {
        assert parts + (Flush(current) + rest) == (parts + Flush(current)) + rest;
        if current != "" {
          parts := parts + [current];
          current := "";
        }
        inParam := true;
      } else if ch == '}' {
        inParam := false;
      } else if !inParam {
        current := current + [ch];
      }
    }
    assert text[|text|..] == "";
    if current != "" { parts := parts + [current]; }
  }

  method ContainsShellMetachars(s: string) returns (found: bool)
    ensures found == HasMetachar(s)
  {
    var dangerous := ";&|$`()<>\n\r";
    assert forall c :: c in dangerous <==> c in METACHARS;
    for i := 0 to |dangerous|
      invariant forall k :: 0 <= k < i ==> dangerous[k] !in s
    {
      if dangerous[i] in s { return true; }
    }
    found := false;
  }

  method FillTemplate(t: Template, values: map<string, string>) returns (r: FillResult)
    ensures r == Fill(t, values)
  {
    var result := t.text;
    for i := 0 to |t.parameters|
      invariant FillFrom(result, t.parameters[i..], values) == Fill(t, values)
    {
      var param := t.parameters[i];
      assert t.parameters[i..][1..] == t.parameters[i + 1..];
      if param !in values { return Missing(param); }
      var value := values[param];
      var bad := ContainsShellMetachars(value);
      if bad { return Invalid(param); }
      result := ReplaceAll(result, "{" + param + "}", value);
    }
    assert t.parameters[|t.parameters|..] == [];
    r := Filled(result);
  }

  // ---- The scans on any text ----

  /** A brace opens at `open` and closes at `close`, and no brace stands between them. */
  predicate Pair(cmd: string, open: nat, close: nat) {
    open < close < |cmd| && cmd[open] == '{' && cmd[close] == '}' && BraceFree(cmd[open + 1..close])
  }

  /** A pair that closes at `i` or later and opens there or at `start` has `p` inside. */
  ghost predicate PairFrom(cmd: string, i: nat, start: int, p: string) {
    exists open: nat, close: nat ::
      Pair(cmd, open, close) && (open == start || open >= i) && close >= i && p == cmd[open + 1..close]
  }

  predicate OpenSince(cmd: string, i: nat, start: int)
    requires i <= |cmd| && -1 <= start < i
  {
    start != -1 ==> cmd[start] == '{' && BraceFree(cmd[start + 1..i])
  }

  function NextStart(c: char, i: nat, start: int): int { if c == '{' then i else if c == '}' then -1 else start }

  lemma PairStep(cmd: string, i: nat, start: int, p: string)
    requires i < |cmd| && -1 <= start < i && OpenSince(cmd, i, start)
    ensures OpenSince(cmd, i + 1, NextStart(cmd[i], i, start))
    ensures PairFrom(cmd, i, start, p) <==>
            || (cmd[i] == '}' && start != -1 && p == cmd[start + 1..i])
            || PairFrom(cmd, i + 1, NextStart(cmd[i], i, start), p)
  {
    OpenStep(cmd, i, start);
    if cmd[i] == '}' && start != -1 { assert Pair(cmd, start, i); }
    PairsAround(cmd, i);
    hide Pair, BraceFree, OpenSince;
  }

  lemma OpenStep(cmd: string, i: nat, start: int)
    requires i < |cmd| && -1 <= start < i && OpenSince(cmd, i, start)
    ensures OpenSince(cmd, i + 1, NextStart(cmd[i], i, start))
  {
    if cmd[i] == '{' { assert cmd[i + 1..i + 1] == ""; }
    else if start != -1 { assert cmd[start + 1..i + 1] == cmd[start + 1..i] + [cmd[i]]; }
  }

  lemma {:induction false} ParamsArePairs(cmd: string, i: nat, start: int, p: string)
    requires i <= |cmd| && -1 <= start < i && OpenSince(cmd, i, start)
    ensures p in ParamsFrom(cmd, i, start) <==> PairFrom(cmd, i, start, p)
    decreases |cmd| - i
  {
    if i < |cmd| {
      hide PairFrom, OpenSince;
      PairStep(cmd, i, start, p);
      ParamsArePairs(cmd, i + 1, NextStart(cmd[i], i, start), p);
    }
  }

  lemma PairsAround(cmd: string, i: nat)
    ensures forall open: nat, close: nat | Pair(cmd, open, close) ::
              open < close < |cmd| && cmd[open] == '{' && cmd[close] == '}'
              && (open < i < close ==> cmd[i] != '{' && cmd[i] != '}')
  {
    forall open: nat, close: nat | Pair(cmd, open, close) && open < i < close ensures cmd[i] != '{' && cmd[i] != '}' {
      assert cmd[open + 1..close][i - open - 1] == cmd[i];
    }
  }

  lemma PairOccurs(cmd: string, open: nat, close: nat)
    requires Pair(cmd, open, close)
    ensures BraceFree(cmd[open + 1..close]) && OccursAt(cmd, "{" + cmd[open + 1..close] + "}", open)
  {
    assert cmd[open..close + 1] == "{" + cmd[open + 1..close] + "}";
  }

  lemma OccursPairs(cmd: string, p: string, open: nat)
    requires BraceFree(p) && OccursAt(cmd, "{" + p + "}", open)
    ensures Pair(cmd, open, open + |p| + 1) && p == cmd[open + 1..open + |p| + 1]
  {
    var close := open + |p| + 1;
    var found := cmd[open..close + 1];
    assert found == "{" + p + "}";
    Inside(p);
    assert found[0] == cmd[open] && found[|p| + 1] == cmd[close];
    SliceOfSlice(cmd, open, close + 1, 1, |p| + 1);
  }

  lemma SliceOfSlice(s: string, a: nat, b: nat, i: nat, j: nat)
    requires a <= b <= |s| && i <= j <= b - a
    ensures s[a..b][i..j] == s[a + i..a + j]
  {
    var x, y := s[a..b][i..j], s[a + i..a + j];
    assert |x| == j - i == |y|;
    forall k | 0 <= k < |x| ensures x[k] == y[k] {
      assert x[k] == s[a..b][i + k] == s[a + (i + k)] && y[k] == s[a + i + k];
    }
  }

  lemma Inside(p: string)
    ensures var whole := "{" + p + "}";
            |whole| == |p| + 2 && whole[0] == '{' && whole[|p| + 1] == '}' && whole[1..|p| + 1] == p
  {}

  /** In any text, the parameters are the brace-free texts that stand between an opening and a closing brace. */
  lemma ParamsAreInnermost(cmd: string, p: string)
    ensures p in Parse(cmd).parameters <==> BraceFree(p) && exists i: nat :: OccursAt(cmd, "{" + p + "}", i)
  {
    ParamsArePairs(cmd, 0, -1, p);
    hide OccursAt, BraceFree, Pair, ParamsFrom;
    if p in Parse(cmd).parameters {
      var open: nat, close: nat :| Pair(cmd, open, close) && close >= 0 && p == cmd[open + 1..close];
      PairOccurs(cmd, open, close);
    }
    if i: nat :| BraceFree(p) && OccursAt(cmd, "{" + p + "}", i) {
      OccursPairs(cmd, p, i);
    }
  }

  function WithoutClosing(s: string): string {
    if s == "" then "" else (if s[0] == '}' then "" else [s[0]]) + WithoutClosing(s[1..])
  }

  /** What follows the first closing brace, if there is one. */
  function AfterClosing(s: string): string {
    if s == "" then "" else if s[0] == '}' then WithoutClosing(s[1..]) else AfterClosing(s[1..])
  }

  /** What a text shows outside its braces, one piece for each opening brace after the first. */
  function Shown(segments: seq<string>): seq<string> {
    if segments == [] then [] else Flush(AfterClosing(segments[0])) + Shown(segments[1..])
  }

  lemma {:induction false} PartsAreShown(text: string, current: string, inParam: bool)
    ensures var segments := Split(text, '{');
            PartsFrom(text, current, inParam)
            == Flush(current + if inParam then AfterClosing(segments[0]) else WithoutClosing(segments[0]))
               + Shown(segments[1..])
  {
    if text == "" {
      assert current + "" == current && Flush(current) + [] == Flush(current);
    } else {
      var segments, rest, c := Split(text, '{'), Split(text[1..], '{'), text[0];
      PartsAreShown(text[1..], if c == '{' then "" else if c == '}' || inParam then current else current + [c],
                    c == '{' || (inParam && c != '}'));
      if c == '{' {
        assert segments == [""] + rest && rest == [rest[0]] + rest[1..];
        NothingBefore(current, AfterClosing(rest[0]));
      } else {
        assert segments == Prepend(c, rest) && segments[1..] == rest[1..];
        hide Split, Shown;
        OneMore(c, current, rest[0]);
      }
    }
  }

  lemma NothingBefore(current: string, s: string)
    ensures "" + s == s && current + "" == current
  {}

  lemma OneMore(c: char, current: string, s: string)
    ensures WithoutClosing([c] + s) == (if c == '}' then "" else [c]) + WithoutClosing(s)
    ensures AfterClosing([c] + s) == if c == '}' then WithoutClosing(s) else AfterClosing(s)
    ensures current + [c] + WithoutClosing(s) == current + ([c] + WithoutClosing(s))
    ensures "" + WithoutClosing(s) == WithoutClosing(s)
  {
    assert ([c] + s)[1..] == s;
  }

  /** In any text, the static parts are what stands before the first opening brace and after the first closing
      brace behind each opening one, without closing braces and without empty parts. */
  lemma StaticPartsAreShown(text: string)
    ensures var segments := Split(text, '{');
            StaticParts(text) == Flush(WithoutClosing(segments[0])) + Shown(segments[1..])
  {
    PartsAreShown(text, "", false);
    var first := WithoutClosing(Split(text, '{')[0]);
    assert "" + first == first;
  }

  /** The refused characters, one by one. */
  lemma RefusedCharacters(s: string)
    ensures HasMetachar(s) <==>
            || ';' in s || '&' in s || '|' in s || '$' in s || '`' in s || '(' in s || ')' in s
            || '<' in s || '>' in s || '\n' in s || '\r' in s
  {}

  // ---- Matching ----

  /** The parts occur in `s` in order and without overlap. */
  ghost predicate Embeds(parts: seq<string>, s: string) {
    if parts == [] then true
    else exists i: nat :: OccursAt(s, parts[0], i) && Embeds(parts[1..], s[i + |parts[0]|..])
  }

  /** They do, and `s` begins with the first of them. */
  ghost predicate StartsAndEmbeds(parts: seq<string>, s: string)
    requires parts != []
  {
    HasPrefix(s, parts[0]) && Embeds(parts[1..], s[|parts[0]|..])
  }

  lemma {:induction false} EmbedsEarlier(parts: seq<string>, s: string, k: nat)
    requires k <= |s| && Embeds(parts, s[k..])
    ensures Embeds(parts, s)
  {
    if parts != [] {
      var i: nat :| OccursAt(s[k..], parts[0], i) && Embeds(parts[1..], s[k..][i + |parts[0]|..]);
      assert s[k..][i..i + |parts[0]|] == s[k + i..k + i + |parts[0]|];
      assert OccursAt(s, parts[0], k + i);
      assert s[k..][i + |parts[0]|..] == s[k + i + |parts[0]|..];
    }
  }

  /** Taking the leftmost occurrence never loses an embedding. */
  lemma GreedyStep(parts: seq<string>, s: string)
    requires parts != []
    ensures Embeds(parts, s) <==> Index(s, parts[0]) != -1 && Embeds(parts[1..], s[Index(s, parts[0]) + |parts[0]|..])
  {
    hide Index;
    var first := Index(s, parts[0]);
    if Embeds(parts, s) {
      var i: nat :| OccursAt(s, parts[0], i) && Embeds(parts[1..], s[i + |parts[0]|..]);
      assert first <= i;
      AnyEarlierWillDo(parts[1..], s, first + |parts[0]|, i + |parts[0]|);
    } else if first != -1 {
      assert OccursAt(s, parts[0], first);
    }
  }

  lemma AnyEarlierWillDo(parts: seq<string>, s: string, earlier: nat, later: nat)
    requires earlier <= later <= |s| && Embeds(parts, s[later..])
    ensures Embeds(parts, s[earlier..])
  {
    assert s[earlier..][later - earlier..] == s[later..];
    EmbedsEarlier(parts, s[earlier..], later - earlier);
  }

  lemma IndexOfPrefix(s: string, prefix: string)
    requires HasPrefix(s, prefix)
    ensures Index(s, prefix) == 0
  {}

  /** The greedy search decides whether an embedding exists. */
  method MatchesTemplateStructure(command: string, t: Template) returns (verdict: Verdict)
    ensures var parts := StaticParts(t.text);
            && (verdict == Panics <==> parts == [])
            && (verdict == Accepted <==> parts != [] && StartsAndEmbeds(parts, command))
  {
    hide Index;
    var parts := SplitTemplate(t.text);
    if |parts| == 0 { return Panics; }
    if !HasPrefix(command, parts[0]) { return Rejected; }
    IndexOfPrefix(command, parts[0]);
    GreedyStep(parts, command);
    var pos := 0;
    for n := 0 to |parts|
      invariant 0 <= pos <= |command|
      invariant Embeds(parts[n..], command[pos..]) <==> Embeds(parts, command)
    {
      var part := parts[n];
      assert parts[n..][1..] == parts[n + 1..];
      GreedyStep(parts[n..], command[pos..]);
      if part != "" {
        var idx := Index(command[pos..], part);
        if idx == -1 { return Rejected; }
        assert command[pos..][idx + |part|..] == command[pos + idx + |part|..];
        pos := pos + (idx + |part|);
      } else {
        IndexOfPrefix(command[pos..], part);
        assert command[pos..][0..] == command[pos..];
      }
    }
    verdict := Accepted;
  }

  /** The verdict on one pattern, in terms of what matching means. */
  ghost function Matching(command: string, pattern: string): Verdict {
    if command == pattern then Accepted
    else if Parse(pattern).parameters == [] then Rejected
    else if StaticParts(pattern) == [] then Panics
    else if StartsAndEmbeds(StaticParts(pattern), command) then Accepted
    else Rejected
  }

  /** A pattern without braces accepts only itself. A well-formed one with holes accepts itself, and what begins with
      its first literal and holds all its literals in order; without a literal it panics on anything else. */
  method MatchesPattern(command: string, pattern: string) returns (verdict: Verdict)
    ensures verdict == Matching(command, pattern)
    ensures BraceFree(pattern) ==> verdict == if command == pattern then Accepted else Rejected
    ensures Balanced(pattern, false) && '{' in pattern ==>
              var literals := Literals(ShapeOf(pattern, false));
              && (verdict == Accepted <==> command == pattern || HasLiterals(literals, command))
              && (verdict == Panics <==> command != pattern && literals == [])
  {
    PlainPattern(command, pattern);
    PatternWithHoles(command, pattern);
    if command == pattern { return Accepted; }
    var t := ParseTemplate(pattern);
    if |t.parameters| == 0 { return Rejected; }
    verdict := MatchesTemplateStructure(command, t);
  }

  /** A command is accepted by the first pattern that does not reject it, unless that pattern panics. */
  method ValidateCommand(allowed: seq<string>, command: string) returns (verdict: Verdict)
    ensures verdict == Rejected <==> forall i :: 0 <= i < |allowed| ==> Matching(command, allowed[i]) == Rejected
    ensures verdict != Rejected ==>
      exists i :: 0 <= i < |allowed| && Matching(command, allowed[i]) == verdict
                  && forall j :: 0 <= j < i ==> Matching(command, allowed[j]) == Rejected
    ensures (forall i :: 0 <= i < |allowed| ==> BraceFree(allowed[i])) ==>
              verdict == if command in allowed then Accepted else Rejected
  {
    forall i | 0 <= i < |allowed| { PlainPattern(command, allowed[i]); }
    for i := 0 to |allowed|
      invariant forall j :: 0 <= j < i ==> Matching(command, allowed[j]) == Rejected
    {
      verdict := MatchesPattern(command, allowed[i]);
      if verdict != Rejected { return; }
    }
    verdict := Rejected;
  }

  /** Positions at which the parts stand in `s`, in order and without overlap. */
  ghost predicate InOrder(parts: seq<string>, s: string, positions: seq<nat>) {
    && |positions| == |parts|
    && (forall i :: 0 <= i < |parts| ==> OccursAt(s, parts[i], positions[i]))
    && (forall i :: 0 <= i < |parts| - 1 ==> positions[i] + |parts[i]| <= positions[i + 1])
  }

  lemma {:induction false} EmbedsFromPositions(parts: seq<string>, s: string, positions: seq<nat>, from: nat)
    requires InOrder(parts, s, positions) && from <= |s| && (parts != [] ==> from <= positions[0])
    ensures Embeds(parts, s[from..])
  {
    if parts != [] {
      var i := positions[0] - from;
      var next := positions[0] + |parts[0]|;
      assert s[from..][i..i + |parts[0]|] == s[positions[0]..next];
      assert s[from..][i + |parts[0]|..] == s[next..];
      EmbedsFromPositions(parts[1..], s, positions[1..], next);
      assert OccursAt(s[from..], parts[0], i);
    }
  }

  lemma {:induction false} PositionsFromEmbeds(parts: seq<string>, s: string, from: nat) returns (positions: seq<nat>)
    requires from <= |s| && Embeds(parts, s[from..])
    ensures InOrder(parts, s, positions) && (parts != [] ==> from <= positions[0])
  {
    positions := [];
    if parts != [] {
      var i: nat :| OccursAt(s[from..], parts[0], i) && Embeds(parts[1..], s[from..][i + |parts[0]|..]);
      var next := from + i + |parts[0]|;
      assert s[from..][i..i + |parts[0]|] == s[from + i..next];
      assert s[from..][i + |parts[0]|..] == s[next..];
      assert OccursAt(s, parts[0], from + i);
      hide OccursAt, InOrder, Embeds;
      var rest := PositionsFromEmbeds(parts[1..], s, next);
      InOrderCons(parts, s, from + i, rest);
      positions := [from + i] + rest;
    }
  }

  /** Embedding, said without recursion. */
  lemma EmbedsIffInOrder(parts: seq<string>, s: string)
    ensures Embeds(parts, s) <==> exists positions :: InOrder(parts, s, positions)
  {
    assert s[0..] == s;
    if Embeds(parts, s) { var positions := PositionsFromEmbeds(parts, s, 0); }
    if positions :| InOrder(parts, s, positions) { EmbedsFromPositions(parts, s, positions, 0); }
  }

  /** The literals stand in `s` in order and without overlap, the first of them at the very beginning. */
  ghost predicate HasLiterals(literals: seq<string>, s: string) {
    literals != [] && exists positions :: InOrder(literals, s, positions) && positions[0] == 0
  }

  lemma InOrderCons(parts: seq<string>, s: string, first: nat, rest: seq<nat>)
    requires parts != [] && OccursAt(s, parts[0], first) && InOrder(parts[1..], s, rest)
    requires rest != [] ==> first + |parts[0]| <= rest[0]
    ensures InOrder(parts, s, [first] + rest)
  {
    hide OccursAt;
    var positions := [first] + rest;
    forall i | 0 <= i < |parts| ensures OccursAt(s, parts[i], positions[i]) {
      if i > 0 { assert parts[i] == parts[1..][i - 1] && positions[i] == rest[i - 1]; }
    }
    forall i | 0 <= i < |parts| - 1 ensures positions[i] + |parts[i]| <= positions[i + 1] {
      if i > 0 { assert parts[i] == parts[1..][i - 1] && positions[i + 1] == rest[i]; }
    }
  }

  lemma PrefixOccurs(s: string, prefix: string)
    requires HasPrefix(s, prefix)
    ensures OccursAt(s, prefix, 0)
  {}

  lemma StartsIffInOrder(parts: seq<string>, s: string)
    requires parts != []
    ensures StartsAndEmbeds(parts, s) <==> HasLiterals(parts, s)
  {
    hide Embeds;
    if StartsAndEmbeds(parts, s) {
      var rest := PositionsFromEmbeds(parts[1..], s, |parts[0]|);
      PrefixOccurs(s, parts[0]);
      InOrderCons(parts, s, 0, rest);
    }
    if HasLiterals(parts, s) {
      var positions :| InOrder(parts, s, positions) && positions[0] == 0;
      assert OccursAt(s, parts[0], 0);
      EmbedsFromPositions(parts[1..], s, positions[1..], |parts[0]|);
    }
  }

  lemma PlainPattern(command: string, pattern: string)
    ensures BraceFree(pattern) ==> Matching(command, pattern) == if command == pattern then Accepted else Rejected
  {
    if BraceFree(pattern) {
      assert pattern[0..] == pattern;
      ParamsAreNames(pattern, 0, Last(pattern));
    }
  }

  lemma PatternWithHoles(command: string, pattern: string)
    ensures Balanced(pattern, false) && '{' in pattern ==>
              var literals, verdict := Literals(ShapeOf(pattern, false)), Matching(command, pattern);
              && (verdict == Accepted <==> command == pattern || HasLiterals(literals, command))
              && (verdict == Panics <==> command != pattern && literals == [])
  {
    if Balanced(pattern, false) && '{' in pattern {
      hide Embeds, HasLiterals;
      var shape := ShapeOf(pattern, false);
      assert pattern[0..] == pattern;
      ParamsAreNames(pattern, 0, shape);
      PartsAreLiterals(shape);
      if Literals(shape) != [] { StartsIffInOrder(Literals(shape), command); }
      assert shape.Hole?;
      assert Literals(shape) == [] ==> !HasLiterals(Literals(shape), command) by { NoLiterals(command); }
    }
  }

  lemma NoLiterals(s: string)
    ensures !HasLiterals([], s)
  {}

  // ---- Well-formed templates ----

  /** A template whose braces come in pairs that do not nest. */
  predicate Balanced(text: string, inParam: bool) {
    if text == "" then !inParam
    else if text[0] == '{' then !inParam && Balanced(text[1..], true)
    else if text[0] == '}' then inParam && Balanced(text[1..], false)
    else Balanced(text[1..], inParam)
  }

  /** Literals and parameters in turn: `lit {name} lit {name} ... lit`. */
  datatype Shape = Last(lit: string) | Hole(lit: string, name: string, rest: Shape)

  predicate BraceFree(s: string) { '{' !in s && '}' !in s }

  predicate OpenFree(s: string) { '{' !in s }

  predicate Clean(shape: Shape) {
    BraceFree(shape.lit) && (shape.Hole? ==> BraceFree(shape.name) && Clean(shape.rest))
  }

  /** A clean shape, or what filling some of its holes leaves of it. */
  predicate Fillable(shape: Shape) {
    OpenFree(shape.lit) && (shape.Hole? ==> BraceFree(shape.name) && Fillable(shape.rest))
  }

  lemma {:induction false} CleanIsFillable(shape: Shape)
    requires Clean(shape)
    ensures Fillable(shape)
  {
    if shape.Hole? { CleanIsFillable(shape.rest); }
  }

  function Render(shape: Shape): string {
    match shape
    case Last(lit) => lit
    case Hole(lit, name, rest) => lit + (Placeholder(name) + Render(rest))
  }

  function Names(shape: Shape): seq<string> {
    match shape
    case Last(_) => []
    case Hole(_, name, rest) => [name] + Names(rest)
  }

  /** The literals that are not empty. */
  function Literals(shape: Shape): seq<string> {
    match shape
    case Last(lit) => Flush(lit)
    case Hole(lit, _, rest) => Flush(lit) + Literals(rest)
  }

  /** All parameters filled at once. */
  function Instance(shape: Shape, values: map<string, string>): string
    requires forall n :: n in Names(shape) ==> n in values
  {
    match shape
    case Last(lit) => lit
    case Hole(lit, name, rest) =>
      assert name in Names(shape) && forall n :: n in Names(rest) ==> n in Names(shape);
      lit + (values[name] + Instance(rest, values))
  }

  function WithLit(c: char, shape: Shape): Shape { shape.(lit := [c] + shape.lit) }

  lemma WithLitRenders(c: char, shape: Shape)
    requires Clean(shape) && c != '{' && c != '}'
    ensures Clean(WithLit(c, shape)) && Render(WithLit(c, shape)) == [c] + Render(shape)
    ensures RenderRest(WithLit(c, shape)) == RenderRest(shape)
    ensures WithLit(c, shape).lit + ("}" + RenderRest(shape)) == [c] + (shape.lit + ("}" + RenderRest(shape)))
  {}

  /** The shape of a template, or of what follows an opening brace when `inParam`. */
  function ShapeOf(text: string, inParam: bool): (shape: Shape)
    requires Balanced(text, inParam)
    ensures Clean(shape)
    ensures if inParam then text == shape.lit + ("}" + RenderRest(shape)) && shape.Hole? else Render(shape) == text
  {
    if text == "" then Last("")
    else if text[0] == '{' then
      var inner := ShapeOf(text[1..], true);
      assert text == "" + (Placeholder(inner.lit) + Render(inner.rest));
      Hole("", inner.lit, inner.rest)
    else if text[0] == '}' then
      assert text == "" + ("}" + text[1..]);
      Hole("", "", ShapeOf(text[1..], false))
    else
      var shape := ShapeOf(text[1..], inParam);
      WithLitRenders(text[0], shape);
      assert text == [text[0]] + text[1..];
      hide *;
      WithLit(text[0], shape)
  }

  function RenderRest(shape: Shape): string { if shape.Hole? then Render(shape.rest) else "" }

  // ---- The scans of a well-formed template ----

  lemma {:induction false} ParamsSkip(cmd: string, i: nat, k: nat, start: int)
    requires -1 <= start < i && i + k <= |cmd| && BraceFree(cmd[i..i + k])
    ensures ParamsFrom(cmd, i, start) == ParamsFrom(cmd, i + k, start)
    decreases k
  {
    if k > 0 {
      assert cmd[i] == cmd[i..i + k][0] && cmd[i + 1..i + k] == cmd[i..i + k][1..];
      ParamsSkip(cmd, i + 1, k - 1, start);
    }
  }

  function RenderTail(shape: Shape): string {
    if shape.Hole? then Placeholder(shape.name) + Render(shape.rest) else ""
  }

  lemma RenderParts(shape: Shape)
    ensures Render(shape) == shape.lit + RenderTail(shape)
  {}

  lemma SliceParts(cmd: string, i: nat, a: string, b: string)
    requires i <= |cmd| && cmd[i..] == a + b
    ensures i + |a| <= |cmd| && cmd[i..i + |a|] == a && cmd[i + |a|..] == b
  {
    assert |cmd[i..]| == |cmd| - i;
    assert cmd[i..i + |a|] == cmd[i..][..|a|] && cmd[i + |a|..] == cmd[i..][|a|..];
  }

  lemma ParamsEnd(cmd: string)
    ensures ParamsFrom(cmd, |cmd|, -1) == []
  {}

  /** ParseTemplate finds exactly the names of the holes, in order. */
  lemma {:induction false} ParamsAreNames(cmd: string, i: nat, shape: Shape)
    requires i <= |cmd| && cmd[i..] == Render(shape) && Clean(shape)
    ensures ParamsFrom(cmd, i, -1) == Names(shape)
    decreases shape
  {
    hide ParamsFrom;
    var n := |shape.lit|;
    RenderParts(shape);
    SliceParts(cmd, i, shape.lit, RenderTail(shape));
    ParamsSkip(cmd, i, n, -1);
    if shape.Last? {
      ParamsEnd(cmd);
    } else {
      ParamsOfHole(cmd, i + n, shape.name, Render(shape.rest));
      ParamsAreNames(cmd, i + n + |shape.name| + 2, shape.rest);
    }
  }

  lemma ParamsOfHole(cmd: string, open: nat, name: string, rest: string)
    requires open <= |cmd| && cmd[open..] == Placeholder(name) + rest && BraceFree(name)
    ensures var next := open + |name| + 2;
            next <= |cmd| && cmd[next..] == rest && ParamsFrom(cmd, open, -1) == [name] + ParamsFrom(cmd, next, -1)
  {
    var close := open + 1 + |name|;
    assert |cmd[open..]| == |cmd| - open;
    assert cmd[open] == cmd[open..][0] && cmd[close] == cmd[open..][|name| + 1];
    assert cmd[open + 1..close] == cmd[open..][1..|name| + 1] == name;
    assert cmd[close + 1..] == cmd[open..][|name| + 2..] == rest;
    ParamsSkip(cmd, open + 1, |name|, open);
  }

  lemma {:induction false} PartsSkip(lit: string, rest: string, current: string, inParam: bool)
    requires BraceFree(lit)
    ensures PartsFrom(lit + rest, current, inParam)
        == PartsFrom(rest, if inParam then current else current + lit, inParam)
    decreases |lit|
  {
    if lit == "" {
      assert lit + rest == rest && current + lit == current;
    } else {
      assert (lit + rest)[1..] == lit[1..] + rest;
      PartsSkip(lit[1..], rest, if inParam then current else current + [lit[0]], inParam);
      assert current + [lit[0]] + lit[1..] == current + lit;
    }
  }

  /** splitTemplate gives exactly the literals that are not empty. */
  lemma {:induction false} PartsAreLiterals(shape: Shape)
    requires Clean(shape)
    ensures StaticParts(Render(shape)) == Literals(shape)
  {
    match shape
    case Last(lit) =>
      PartsSkip(lit, "", "", false);
      assert lit + "" == lit && "" + lit == lit;
    case Hole(lit, name, rest) =>
      var tail := Placeholder(name) + Render(rest);
      PartsSkip(lit, tail, "", false);
      assert "" + lit == lit && tail[1..] == name + ("}" + Render(rest));
      PartsSkip(name, "}" + Render(rest), "", true);
      assert ("}" + Render(rest))[1..] == Render(rest);
      PartsAreLiterals(rest);
  }

  // ---- Filling a well-formed template ----

  lemma {:induction false} ReplaceSkip(lit: string, rest: string, name: string, value: string)
    requires OpenFree(lit)
    ensures ReplaceAll(lit + rest, Placeholder(name), value) == lit + ReplaceAll(rest, Placeholder(name), value)
  {
    if lit == "" {
      assert lit + rest == rest;
    } else {
      assert (lit + rest)[0] == lit[0] && Placeholder(name)[0] == '{';
      assert (lit + rest)[1..] == lit[1..] + rest;
      ReplaceSkip(lit[1..], rest, name, value);
    }
  }

  lemma {:induction false} PlaceholderMatches(name: string, other: string, rest: string)
    requires BraceFree(name) && BraceFree(other)
    ensures HasPrefix(Placeholder(name) + rest, Placeholder(other)) <==> name == other
  {
    var text := Placeholder(name) + rest;
    if HasPrefix(text, Placeholder(other)) {
      assert text[|name| + 1] == '}' && text[|other| + 1] == '}';
      assert forall i :: 0 <= i < |name| ==> text[i + 1] == name[i];
      assert forall i :: 0 <= i < |other| ==> text[i + 1] == Placeholder(other)[i + 1] == other[i];
      assert |name| == |other|;
    }
  }

  function Glue(lit: string, shape: Shape): Shape { shape.(lit := lit + shape.lit) }

  /** The shape once every hole called `name` holds `value`. */
  function Substitute(shape: Shape, name: string, value: string): Shape {
    match shape
    case Last(_) => shape
    case Hole(lit, n, rest) =>
      var rest' := Substitute(rest, name, value);
      if n == name then Glue(lit + value, rest') else Hole(lit, n, rest')
  }

  lemma {:induction false} SubstituteKeeps(shape: Shape, name: string, value: string)
    requires Fillable(shape) && OpenFree(value)
    ensures Fillable(Substitute(shape, name, value))
    ensures forall n :: n in Names(Substitute(shape, name, value)) <==> n in Names(shape) && n != name
  {
    if shape.Hole? { SubstituteKeeps(shape.rest, name, value); }
  }

  /** strings.ReplaceAll of a placeholder fills exactly the holes of that name. */
  lemma {:induction false} ReplaceFillsHoles(shape: Shape, name: string, value: string)
    requires Fillable(shape) && BraceFree(name)
    ensures ReplaceAll(Render(shape), Placeholder(name), value) == Render(Substitute(shape, name, value))
  {
    hide ReplaceAll, BraceFree, OpenFree;
    match shape
    case Last(lit) =>
      ReplaceNothing(lit, name, value);
    case Hole(lit, n, rest) =>
      var rest' := Substitute(rest, name, value);
      ReplaceSkip(lit, Placeholder(n) + Render(rest), name, value);
      ReplaceHole(n, Render(rest), name, value);
      ReplaceFillsHoles(rest, name, value);
      if n == name {
        RenderGlue(lit + value, rest');
        Regrouped(lit, value, Render(rest'));
      }
  }

  lemma ReplaceNothing(lit: string, name: string, value: string)
    requires OpenFree(lit)
    ensures ReplaceAll(lit, Placeholder(name), value) == lit
  {
    ReplaceSkip(lit, "", name, value);
    assert lit + "" == lit;
  }

  lemma ReplaceHole(n: string, rest: string, name: string, value: string)
    requires BraceFree(n) && BraceFree(name)
    ensures ReplaceAll(Placeholder(n) + rest, Placeholder(name), value)
         == (if n == name then value else Placeholder(n)) + ReplaceAll(rest, Placeholder(name), value)
  {
    var text, replaced := Placeholder(n) + rest, ReplaceAll(rest, Placeholder(name), value);
    PlaceholderMatches(n, name, rest);
    if n == name {
      assert text[|Placeholder(name)|..] == rest;
    } else {
      assert text[1..] == (n + "}") + rest && text[0] == '{';
      OpenFreeName(n);
      ReplaceSkip(n + "}", rest, name, value);
      assert ['{'] + ((n + "}") + replaced) == Placeholder(n) + replaced;
    }
  }

  lemma OpenFreeName(name: string)
    requires BraceFree(name)
    ensures OpenFree(name + "}")
  {
    assert '{' in name + "}" <==> '{' in name || '{' in "}";
  }

  lemma RenderGlue(lit: string, shape: Shape)
    ensures Render(Glue(lit, shape)) == lit + Render(shape)
  {}

  lemma {:induction false} InstanceSubstitute(shape: Shape, name: string, values: map<string, string>)
    requires name in values && forall n :: n in Names(shape) ==> n in values
    ensures forall n :: n in Names(Substitute(shape, name, values[name])) ==> n in values
    ensures Instance(Substitute(shape, name, values[name]), values) == Instance(shape, values)
  {
    if shape.Hole? {
      InstanceSubstitute(shape.rest, name, values);
      if shape.name == name {
        var rest' := Substitute(shape.rest, name, values[name]);
        InstanceGlue(shape.lit + values[name], rest', values);
        assert shape.lit + values[name] + Instance(rest', values)
            == shape.lit + (values[name] + Instance(rest', values));
      }
    }
  }

  lemma InstanceGlue(lit: string, shape: Shape, values: map<string, string>)
    requires forall n :: n in Names(shape) ==> n in values
    ensures Names(Glue(lit, shape)) == Names(shape)
        && Instance(Glue(lit, shape), values) == lit + Instance(shape, values)
  {}

  /** The values of `parameters` are all there, hold no shell metacharacter and no opening brace. */
  predicate Usable(parameters: seq<string>, values: map<string, string>) {
    forall i :: 0 <= i < |parameters| ==>
      parameters[i] in values && !HasMetachar(values[parameters[i]]) && OpenFree(values[parameters[i]])
  }

  lemma HoleHasName(shape: Shape)
    ensures shape.Hole? ==> exists n :: n in Names(shape)
  {
    match shape
    case Last(_) =>
    case Hole(_, name, _) => assert name in Names(shape);
  }

  /** Replacing one parameter after the other is filling all of them at once. */
  lemma {:induction false} FillIsInstance(shape: Shape, parameters: seq<string>, values: map<string, string>)
    requires Fillable(shape) && Usable(parameters, values)
    requires forall i :: 0 <= i < |parameters| ==> BraceFree(parameters[i])
    requires forall n :: n in Names(shape) ==> n in parameters && n in values
    ensures FillFrom(Render(shape), parameters, values) == Filled(Instance(shape, values))
    decreases |parameters|
  {
    if parameters == [] {
      HoleHasName(shape);
    } else {
      var p := parameters[0];
      assert parameters == [p] + parameters[1..];
      ReplaceFillsHoles(shape, p, values[p]);
      SubstituteKeeps(shape, p, values[p]);
      InstanceSubstitute(shape, p, values);
      hide ReplaceAll, Fillable, Instance, Render, HasMetachar, OpenFree, BraceFree;
      FillIsInstance(Substitute(shape, p, values[p]), parameters[1..], values);
    }
  }

  // ---- A filled template is accepted ----

  lemma EmbedsFlushed(lit: string, parts: seq<string>, tail: string)
    requires Embeds(parts, tail)
    ensures Embeds(Flush(lit) + parts, lit + tail)
  {
    var all, s := Flush(lit) + parts, lit + tail;
    if lit == "" {
      assert all == parts && s == tail;
    } else {
      assert OccursAt(s, all[0], 0) && all[1..] == parts && s[0 + |lit|..] == tail;
    }
  }

  lemma {:induction false} NamesAreBraceFree(shape: Shape)
    requires Clean(shape)
    ensures forall n :: n in Names(shape) ==> BraceFree(n)
  {
    if shape.Hole? { NamesAreBraceFree(shape.rest); }
  }

  lemma StartsIfPrefix(parts: seq<string>, command: string)
    requires parts != [] && Embeds(parts, command)
    ensures HasPrefix(command, parts[0]) ==> StartsAndEmbeds(parts, command)
  {
    hide Embeds;
    if HasPrefix(command, parts[0]) {
      GreedyStep(parts, command);
      IndexOfPrefix(command, parts[0]);
    }
  }

  /** Which error filling reports: the first parameter that is missing or holds a metacharacter. */
  lemma {:induction false} FillFails(text: string, parameters: seq<string>, values: map<string, string>)
    ensures FillFrom(text, parameters, values).Filled? <==>
            forall i :: 0 <= i < |parameters| ==> parameters[i] in values && !HasMetachar(values[parameters[i]])
    ensures !FillFrom(text, parameters, values).Filled? ==>
            exists i :: 0 <= i < |parameters|
              && FillFrom(text, parameters, values)
                 == (if parameters[i] !in values then Missing(parameters[i]) else Invalid(parameters[i]))
              && (parameters[i] in values ==> HasMetachar(values[parameters[i]]))
              && forall j :: 0 <= j < i ==> parameters[j] in values && !HasMetachar(values[parameters[j]])
    decreases |parameters|
  {
    if parameters != [] && parameters[0] in values && !HasMetachar(values[parameters[0]]) {
      var p, rest := parameters[0], parameters[1..];
      var text' := ReplaceAll(text, Placeholder(p), values[p]);
      FillFails(text', rest, values);
      if !FillFrom(text', rest, values).Filled? {
        var i :| 0 <= i < |rest| && FillFrom(text', rest, values)
                   == (if rest[i] !in values then Missing(rest[i]) else Invalid(rest[i]))
                 && (rest[i] in values ==> HasMetachar(values[rest[i]]))
                 && forall j :: 0 <= j < i ==> rest[j] in values && !HasMetachar(values[rest[j]]);
        assert parameters[i + 1] == rest[i];
        assert forall j :: 1 <= j < i + 1 ==> parameters[j] == rest[j - 1];
      }
    }
  }

  // ---- Which values are filled at once ----

  /** `values` gives `value` to the parameter `name` of the template, and harmless values without an opening
      brace to the others. */
  predicate Fits(shape: Shape, name: string, value: string, values: map<string, string>) {
    && name in Names(shape) && name in values && values[name] == value
    && forall n :: n in Names(shape) ==> n in values && !HasMetachar(values[n]) && (n != name ==> OpenFree(values[n]))
  }

  /** In every well-formed template, filling one parameter after the other is filling all at once. */
  ghost predicate FilledAtOnce(value: string) {
    forall shape, name, values :: Clean(shape) && Fits(shape, name, value, values) ==>
      Fill(Parse(Render(shape)), values) == Filled(Instance(shape, values))
  }

  /** A value is filled faithfully exactly when it holds no opening brace: braces are no metacharacters, so a
      placeholder that a value brings along, or opens, is filled in its turn. */
  lemma FilledAtOnceIff(value: string)
    requires !HasMetachar(value)
    ensures FilledAtOnce(value) <==> OpenFree(value)
  {
    hide Fill, Instance, Parse, Render, HasMetachar;
    if OpenFree(value) {
      forall shape, name, values | Clean(shape) && Fits(shape, name, value, values)
        ensures Fill(Parse(Render(shape)), values) == Filled(Instance(shape, values))
      {
        FilledWhenOpenFree(shape, values);
      }
    } else {
      var shape, name, values := RefilledWitness(value);
    }
  }

  lemma FilledWhenOpenFree(shape: Shape, values: map<string, string>)
    requires Clean(shape)
    requires forall n :: n in Names(shape) ==> n in values && !HasMetachar(values[n]) && OpenFree(values[n])
    ensures Fill(Parse(Render(shape)), values) == Filled(Instance(shape, values))
  {
    hide HasMetachar, Instance, OpenFree;
    assert Render(shape)[0..] == Render(shape);
    ParamsAreNames(Render(shape), 0, shape);
    NamesAreBraceFree(shape);
    CleanIsFillable(shape);
    FillIsInstance(shape, Names(shape), values);
  }

  /** For a value with an opening brace, a template and values for which filling goes wrong. */
  lemma RefilledWitness(value: string) returns (shape: Shape, name: string, values: map<string, string>)
    requires !HasMetachar(value) && !OpenFree(value)
    ensures Clean(shape) && Fits(shape, name, value, values)
    ensures Fill(Parse(Render(shape)), values) != Filled(Instance(shape, values))
  {
    var head, tail := CutAtLast(value, '{');
    if '}' in tail {
      var inner, rest := CutAtFirst(tail, '}');
      shape, name, values := ClosedWitness(value, head, inner, rest);
    } else {
      shape, name, values := OpenWitness(value, head, tail);
    }
  }

  lemma {:induction false} CutAtLast(s: string, c: char) returns (head: string, tail: string)
    requires c in s
    ensures s == head + ([c] + tail) && c !in tail
  {
    var n := |s| - 1;
    if s[n] == c {
      head, tail := s[..n], "";
    } else {
      head, tail := CutAtLast(s[..n], c);
      tail := tail + [s[n]];
    }
  }

  lemma {:induction false} CutAtFirst(s: string, c: char) returns (head: string, tail: string)
    requires c in s
    ensures s == head + ([c] + tail) && c !in head
  {
    if s[0] == c {
      head, tail := "", s[1..];
    } else {
      head, tail := CutAtFirst(s[1..], c);
      head := [s[0]] + head;
    }
  }

  /** A parameter name as long as wanted. */
  function LongName(length: nat): string { seq(length, _ => 'x') }

  lemma Harmless()
    ensures !HasMetachar("") && !HasMetachar("}") && OpenFree("") && OpenFree("}")
  {}

  /** The value brings a whole placeholder along, and the template has another one of that name. */
  lemma ClosedWitness(value: string, head: string, inner: string, rest: string)
    returns (shape: Shape, name: string, values: map<string, string>)
    requires !HasMetachar(value) && BraceFree(inner) && value == head + (['{'] + (inner + (['}'] + rest)))
    ensures Clean(shape) && Fits(shape, name, value, values)
    ensures Fill(Parse(Render(shape)), values) != Filled(Instance(shape, values))
  {
    name := LongName(|value| + 1);
    values := map[name := value, inner := ""];
    shape := Hole("", name, Hole("", inner, Last("")));
    TwoHoles(name, inner, values);
    ClosedLength(value, head, inner, rest, name);
    Harmless();
    hide HasMetachar, Parse, FillFrom, ReplaceAll, Instance, Render, Names, Clean;
    FillTwo(Placeholder(name) + Placeholder(inner), name, inner, values);
  }

  lemma ClosedLength(value: string, head: string, inner: string, rest: string, name: string)
    requires BraceFree(inner) && BraceFree(name) && name != inner
    requires value == head + (['{'] + (inner + (['}'] + rest)))
    ensures var p, q := Placeholder(name), Placeholder(inner);
            |ReplaceAll(ReplaceAll(p + q, p, value), q, "")| < |value|
  {
    hide ReplaceAll;
    var p, q := Placeholder(name), Placeholder(inner);
    assert value == head + (q + rest) && q + "" == q;
    ReplaceHole(name, q, name, value);
    OtherHole(inner, name, value);
    assert value + q == head + (q + (rest + (q + "")));
    ReplaceAround(head, inner, rest + (q + ""), "");
    ReplaceAround(rest, inner, "", "");
    ReplaceShrinks(head, q);
    ReplaceShrinks(rest, q);
    ReplaceShrinks("", q);
  }

  /** The value opens a placeholder that the next value closes. */
  lemma OpenWitness(value: string, head: string, tail: string)
    returns (shape: Shape, name: string, values: map<string, string>)
    requires !HasMetachar(value) && BraceFree(tail) && value == head + (['{'] + tail)
    ensures Clean(shape) && Fits(shape, name, value, values)
    ensures Fill(Parse(Render(shape)), values) != Filled(Instance(shape, values))
  {
    name := LongName(|value| + 1);
    var closer := LongName(|value|);
    values := map[name := value, closer := "}", tail := ""];
    shape := Hole("", name, Hole("", closer, Hole("", tail, Last(""))));
    ThreeHoles(name, closer, tail, values);
    OpenLength(value, head, tail, name, closer);
    Harmless();
    hide HasMetachar, Parse, FillFrom, ReplaceAll, Instance, Render, Names, Clean;
    FillThree(Placeholder(name) + (Placeholder(closer) + Placeholder(tail)), name, closer, tail, values);
  }

  lemma OpenLength(value: string, head: string, tail: string, name: string, closer: string)
    requires BraceFree(tail) && BraceFree(name) && BraceFree(closer) && name != closer && name != tail && closer != tail
    requires value == head + (['{'] + tail) && |value| < |Placeholder(closer)|
    ensures var p, q, r := Placeholder(name), Placeholder(closer), Placeholder(tail);
            |ReplaceAll(ReplaceAll(ReplaceAll(p + (q + r), p, value), q, "}"), r, "")| < |value|
  {
    hide ReplaceAll;
    var p, q, r := Placeholder(name), Placeholder(closer), Placeholder(tail);
    ReplaceHole(name, q + r, name, value);
    ReplaceHole(closer, r, name, value);
    OtherHole(tail, name, value);
    ReplaceAround(value, closer, r, "}");
    ReplaceLonger(value, q, "}");
    OtherHole(tail, closer, "}");
    assert value + ("}" + r) == head + (r + (r + ""));
    ReplaceAround(head, tail, r + "", "");
    assert "" + (r + "") == r + "";
    ReplaceAround("", tail, "", "");
    ReplaceShrinks(head, r);
    ReplaceShrinks("", r);
  }

  lemma OtherHole(name: string, replaced: string, value: string)
    requires BraceFree(name) && BraceFree(replaced) && name != replaced
    ensures ReplaceAll(Placeholder(name), Placeholder(replaced), value) == Placeholder(name)
  {
    assert Placeholder(name) + "" == Placeholder(name);
    ReplaceHole(name, "", replaced, value);
  }

  lemma TwoHoles(a: string, b: string, values: map<string, string>)
    requires BraceFree(a) && BraceFree(b) && a in values && b in values
    ensures var shape := Hole("", a, Hole("", b, Last("")));
            && Clean(shape) && Names(shape) == [a, b] && Render(shape) == Placeholder(a) + Placeholder(b)
            && Parse(Render(shape)).parameters == [a, b] && Instance(shape, values) == values[a] + values[b]
  {
    var inner := Hole("", b, Last(""));
    var shape := Hole("", a, inner);
    assert Clean(Last("")) && Clean(inner) && Clean(shape) && Names(inner) == [b];
    assert Render(inner) == "" + (Placeholder(b) + "") == Placeholder(b) && Instance(inner, values) == values[b];
    assert Render(shape) == "" + (Placeholder(a) + Render(inner)) == Placeholder(a) + Placeholder(b);
    assert Render(shape)[0..] == Render(shape);
    ParamsAreNames(Render(shape), 0, shape);
  }

  lemma ThreeHoles(a: string, b: string, c: string, values: map<string, string>)
    requires BraceFree(a) && BraceFree(b) && BraceFree(c) && a in values && b in values && c in values
    ensures var shape := Hole("", a, Hole("", b, Hole("", c, Last(""))));
            && Clean(shape) && Names(shape) == [a, b, c]
            && Render(shape) == Placeholder(a) + (Placeholder(b) + Placeholder(c))
            && Parse(Render(shape)).parameters == [a, b, c]
            && Instance(shape, values) == values[a] + (values[b] + values[c])
  {
    TwoHoles(b, c, values);
    var inner := Hole("", b, Hole("", c, Last("")));
    var shape := Hole("", a, inner);
    assert Clean(inner) && Clean(shape);
    assert Names(shape) == [a] + Names(inner) && Render(shape) == Placeholder(a) + Render(inner);
    assert Render(shape)[0..] == Render(shape);
    ParamsAreNames(Render(shape), 0, shape);
  }

  lemma FillTwo(text: string, a: string, b: string, values: map<string, string>)
    requires a in values && b in values && !HasMetachar(values[a]) && !HasMetachar(values[b])
    ensures FillFrom(text, [a, b], values)
         == Filled(ReplaceAll(ReplaceAll(text, Placeholder(a), values[a]), Placeholder(b), values[b]))
  {
    var once := ReplaceAll(text, Placeholder(a), values[a]);
    assert [a, b][1..] == [b] && [b][1..] == [];
    assert FillFrom(text, [a, b], values) == FillFrom(once, [b], values);
    assert FillFrom(once, [b], values) == FillFrom(ReplaceAll(once, Placeholder(b), values[b]), [], values);
  }

  lemma FillThree(text: string, a: string, b: string, c: string, values: map<string, string>)
    requires a in values && b in values && c in values
    requires !HasMetachar(values[a]) && !HasMetachar(values[b]) && !HasMetachar(values[c])
    ensures var once := ReplaceAll(text, Placeholder(a), values[a]);
            FillFrom(text, [a, b, c], values)
            == Filled(ReplaceAll(ReplaceAll(once, Placeholder(b), values[b]), Placeholder(c), values[c]))
  {
    var once := ReplaceAll(text, Placeholder(a), values[a]);
    assert [a, b, c][1..] == [b, c];
    FillTwo(once, b, c, values);
  }

  /** Placeholders do not overlap, so one that stands in a text is replaced whatever surrounds it. */
  lemma {:induction false} ReplaceAround(head: string, name: string, rest: string, value: string)
    requires BraceFree(name)
    ensures ReplaceAll(head + (Placeholder(name) + rest), Placeholder(name), value)
         == ReplaceAll(head, Placeholder(name), value) + (value + ReplaceAll(rest, Placeholder(name), value))
    decreases |head|
  {
    var p := Placeholder(name);
    var text := head + (p + rest);
    if head == "" {
      assert text == p + rest && text[|p|..] == rest;
    } else if HasPrefix(head, p) {
      assert text[|p|..] == head[|p|..] + (p + rest);
      ReplaceAround(head[|p|..], name, rest, value);
      Regrouped(value, ReplaceAll(head[|p|..], p, value), value + ReplaceAll(rest, p, value));
    } else {
      PlaceholderStart(head, name, rest);
      assert text[1..] == head[1..] + (p + rest);
      ReplaceAround(head[1..], name, rest, value);
      Regrouped([head[0]], ReplaceAll(head[1..], p, value), value + ReplaceAll(rest, p, value));
    }
  }

  lemma Regrouped(a: string, b: string, c: string)
    ensures a + (b + c) == (a + b) + c
  {}

  lemma PlaceholderStart(head: string, name: string, rest: string)
    requires BraceFree(name) && head != "" && !HasPrefix(head, Placeholder(name))
    ensures !HasPrefix(head + (Placeholder(name) + rest), Placeholder(name))
  {
    var p := Placeholder(name);
    var text := head + (p + rest);
    assert |p| <= |head| ==> text[..|p|] == head[..|p|];
    assert |head| < |p| ==> text[|head|] == '{' && p[|head|] != '{';
  }

  lemma {:induction false} ReplaceShrinks(s: string, old_: string)
    requires old_ != ""
    ensures |ReplaceAll(s, old_, "")| <= |s|
    decreases |s|
  {
    if HasPrefix(s, old_) {
      ReplaceShrinks(s[|old_|..], old_);
    } else if s != "" {
      ReplaceShrinks(s[1..], old_);
    }
  }

  lemma {:induction false} ReplaceLonger(s: string, old_: string, new_: string)
    requires |s| < |old_|
    ensures ReplaceAll(s, old_, new_) == s
  {
    if s != "" {
      ReplaceLonger(s[1..], old_, new_);
      assert s == [s[0]] + s[1..];
    }
  }
}
