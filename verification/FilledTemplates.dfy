/** What the whitelist says of a filled template, for values with braces too. */
module FilledTemplates {
  import opened Text
  import opened CommandTemplate

  // ---- Brackets ----

  /** How many opening braces are still open after `s` when `d` were before it. A closing brace closes the
      innermost one, if there is any. */
  function Depth(s: string, d: nat): nat {
    if s == "" then d
    else Depth(s[1..], if s[0] == '{' then d + 1 else if s[0] == '}' && d > 0 then d - 1 else d)
  }

  /** Every opening brace is closed again. Closing braces may stand alone. */
  predicate Closed(s: string) { Depth(s, 0) == 0 }

  lemma {:induction false} DepthMono(s: string, d: nat, e: nat)
    requires d <= e
    ensures Depth(s, d) <= Depth(s, e) <= Depth(s, d) + (e - d)
    decreases |s|
  {
    if s != "" {
      var c := s[0];
      DepthMono(s[1..], if c == '{' then d + 1 else if c == '}' && d > 0 then d - 1 else d,
                if c == '{' then e + 1 else if c == '}' && e > 0 then e - 1 else e);
    }
  }

  lemma {:induction false} DepthConcat(a: string, b: string, d: nat)
    ensures Depth(a + b, d) == Depth(b, Depth(a, d))
    decreases |a|
  {
    if a == "" {
      assert a + b == b;
    } else {
      assert (a + b)[1..] == a[1..] + b;
      DepthConcat(a[1..], b, if a[0] == '{' then d + 1 else if a[0] == '}' && d > 0 then d - 1 else d);
    }
  }

  lemma {:induction false} DepthOpenFree(s: string, d: nat)
    requires OpenFree(s)
    ensures Depth(s, d) <= d && (BraceFree(s) ==> Depth(s, d) == d)
    decreases |s|
  {
    if s != "" { DepthOpenFree(s[1..], if s[0] == '}' && d > 0 then d - 1 else d); }
  }

  lemma ClosedTail(s: string, k: nat)
    requires Closed(s) && k <= |s|
    ensures Closed(s[k..])
  {
    assert s == s[..k] + s[k..];
    DepthConcat(s[..k], s[k..], 0);
    DepthMono(s[k..], 0, Depth(s[..k], 0));
  }

  lemma PlaceholderDepth(name: string, d: nat)
    requires BraceFree(name)
    ensures Depth(Placeholder(name), d) == d
  {
    assert Placeholder(name) == "{" + (name + "}");
    DepthConcat("{", name + "}", d);
    DepthConcat(name, "}", d + 1);
    DepthOpenFree(name, d + 1);
  }

  /** A placeholder that begins in a closed text ends in it. */
  lemma NoStraddling(mid: string, rest: string, name: string)
    requires Closed(mid) && mid != "" && BraceFree(name)
    ensures HasPrefix(mid + rest, Placeholder(name)) <==> HasPrefix(mid, Placeholder(name))
  {
    var p, text := Placeholder(name), mid + rest;
    assert text[..|mid|] == mid;
    if |mid| < |p| {
      StartIsOpen(name, |mid|);
      assert mid != p[..|mid|];
    } else {
      assert text[..|p|] == mid[..|p|];
    }
  }

  lemma StartIsOpen(name: string, k: nat)
    requires BraceFree(name) && 1 <= k < |Placeholder(name)|
    ensures Depth(Placeholder(name)[..k], 0) == 1
  {
    assert Placeholder(name)[..k] == "{" + name[..k - 1];
    DepthConcat("{", name[..k - 1], 0);
    DepthOpenFree(name[..k - 1], 1);
  }

  lemma {:induction false} ReplaceApart(mid: string, rest: string, name: string, value: string)
    requires Closed(mid) && BraceFree(name)
    ensures ReplaceAll(mid + rest, Placeholder(name), value)
         == ReplaceAll(mid, Placeholder(name), value) + ReplaceAll(rest, Placeholder(name), value)
    decreases |mid|
  {
    hide Closed;
    var p := Placeholder(name);
    if mid == "" {
      assert mid + rest == rest;
    } else {
      NoStraddling(mid, rest, name);
      var k := if HasPrefix(mid, p) then |p| else 1;
      ClosedTail(mid, k);
      assert (mid + rest)[k..] == mid[k..] + rest;
      ReplaceApart(mid[k..], rest, name, value);
      var head := if HasPrefix(mid, p) then value else [mid[0]];
      Regrouped(head, ReplaceAll(mid[k..], p, value), ReplaceAll(rest, p, value));
    }
  }

  lemma {:induction false} ReplaceDepth(s: string, name: string, value: string, d: nat, e: nat)
    requires Closed(value) && BraceFree(name) && d <= e
    ensures Depth(ReplaceAll(s, Placeholder(name), value), d) <= Depth(s, e)
    decreases |s|
  {
    var p := Placeholder(name);
    if HasPrefix(s, p) {
      var rest := ReplaceAll(s[|p|..], p, value);
      assert s == p + s[|p|..];
      DepthConcat(p, s[|p|..], e);
      PlaceholderDepth(name, e);
      DepthConcat(value, rest, d);
      DepthMono(value, 0, d);
      ReplaceDepth(s[|p|..], name, value, Depth(value, d), e);
    } else if s != "" {
      var c := s[0];
      assert ([c] + ReplaceAll(s[1..], p, value))[1..] == ReplaceAll(s[1..], p, value);
      ReplaceDepth(s[1..], name, value, if c == '{' then d + 1 else if c == '}' && d > 0 then d - 1 else d,
                   if c == '{' then e + 1 else if c == '}' && e > 0 then e - 1 else e);
    }
  }

  // ---- Literals survive closed values ----

  /** A partly filled template: its literals, and between them what its holes have become. */
  datatype Pieces = Final(lit: string) | Piece(lit: string, mid: string, rest: Pieces)

  predicate Separate(t: Pieces) { BraceFree(t.lit) && (t.Piece? ==> Closed(t.mid) && Separate(t.rest)) }

  function Flat(t: Pieces): string {
    match t
    case Final(lit) => lit
    case Piece(lit, mid, rest) => lit + (mid + Flat(rest))
  }

  function PieceLiterals(t: Pieces): seq<string> {
    match t
    case Final(lit) => Flush(lit)
    case Piece(lit, _, rest) => Flush(lit) + PieceLiterals(rest)
  }

  function PiecesOf(shape: Shape): Pieces {
    match shape
    case Last(lit) => Final(lit)
    case Hole(lit, name, rest) => Piece(lit, Placeholder(name), PiecesOf(rest))
  }

  lemma {:induction false} PiecesOfShape(shape: Shape)
    requires Clean(shape)
    ensures Separate(PiecesOf(shape)) && Flat(PiecesOf(shape)) == Render(shape)
    ensures PieceLiterals(PiecesOf(shape)) == Literals(shape) && PiecesOf(shape).lit == shape.lit
  {
    if shape.Hole? {
      PiecesOfShape(shape.rest);
      PlaceholderDepth(shape.name, 0);
    }
  }

  function ReplaceMids(t: Pieces, name: string, value: string): Pieces {
    match t
    case Final(_) => t
    case Piece(lit, mid, rest) => Piece(lit, ReplaceAll(mid, Placeholder(name), value), ReplaceMids(rest, name, value))
  }

  /** A placeholder is replaced in each piece apart, and the pieces stay closed. */
  lemma {:induction false} ReplaceInPieces(t: Pieces, name: string, value: string)
    requires Separate(t) && BraceFree(name) && Closed(value)
    ensures var t' := ReplaceMids(t, name, value);
            && Separate(t') && t'.lit == t.lit && PieceLiterals(t') == PieceLiterals(t)
            && ReplaceAll(Flat(t), Placeholder(name), value) == Flat(t')
  {
    hide ReplaceAll;
    match t
    case Final(lit) =>
      ReplaceNothing(lit, name, value);
    case Piece(lit, mid, rest) =>
      ReplaceInPieces(rest, name, value);
      ReplaceSkip(lit, mid + Flat(rest), name, value);
      ReplaceApart(mid, Flat(rest), name, value);
      ReplaceDepth(mid, name, value, 0, 0);
  }

  /** The values of `parameters` are all there, hold no shell metacharacter and close their braces. */
  predicate AllClosed(parameters: seq<string>, values: map<string, string>) {
    forall i :: 0 <= i < |parameters| ==>
      parameters[i] in values && !HasMetachar(values[parameters[i]]) && Closed(values[parameters[i]])
  }

  lemma {:induction false} FillPieces(t: Pieces, parameters: seq<string>, values: map<string, string>)
    returns (t': Pieces)
    requires Separate(t) && AllClosed(parameters, values)
    requires forall i :: 0 <= i < |parameters| ==> BraceFree(parameters[i])
    ensures FillFrom(Flat(t), parameters, values) == Filled(Flat(t'))
    ensures Separate(t') && t'.lit == t.lit && PieceLiterals(t') == PieceLiterals(t)
    decreases |parameters|
  {
    t' := t;
    if parameters != [] {
      var p := parameters[0];
      ReplaceInPieces(t, p, values[p]);
      t' := FillPieces(ReplaceMids(t, p, values[p]), parameters[1..], values);
    }
  }

  lemma {:induction false} PiecesEmbed(t: Pieces)
    ensures Embeds(PieceLiterals(t), Flat(t)) && HasPrefix(Flat(t), t.lit)
  {
    if t.Piece? {
      PiecesEmbed(t.rest);
      assert (t.mid + Flat(t.rest))[|t.mid|..] == Flat(t.rest);
      EmbedsEarlier(PieceLiterals(t.rest), t.mid + Flat(t.rest), |t.mid|);
      EmbedsFlushed(t.lit, PieceLiterals(t.rest), t.mid + Flat(t.rest));
    } else {
      EmbedsFlushed(t.lit, [], "");
      assert Flush(t.lit) + [] == Flush(t.lit) && t.lit + "" == t.lit;
    }
  }

  /** A template as a shape, and what filling and splitting make of it. */
  lemma FilledPieces(shape: Shape, values: map<string, string>) returns (t: Pieces)
    requires Clean(shape) && AllClosed(Names(shape), values)
    ensures Parse(Render(shape)).parameters == Names(shape) && StaticParts(Render(shape)) == Literals(shape)
    ensures Fill(Parse(Render(shape)), values) == Filled(Flat(t))
    ensures t.lit == shape.lit && PieceLiterals(t) == Literals(shape)
  {
    hide AllClosed, Separate;
    assert Render(shape)[0..] == Render(shape);
    ParamsAreNames(Render(shape), 0, shape);
    PartsAreLiterals(shape);
    NamesAreBraceFree(shape);
    PiecesOfShape(shape);
    t := FillPieces(PiecesOf(shape), Names(shape), values);
  }

  /** What matching says of a filled template: unless the command is the template itself, it is accepted exactly
      when it begins with the first static part, and when the template has no static part, matching panics. */
  lemma FilledVerdict(text: string, values: map<string, string>)
    requires Balanced(text, false) && Parse(text).parameters != [] && AllClosed(Parse(text).parameters, values)
    ensures Fill(Parse(text), values).Filled?
    ensures var command, parts := Fill(Parse(text), values).command, StaticParts(text);
            Matching(command, text)
            == if command == text then Accepted
               else if parts == [] then Panics
               else if HasPrefix(command, parts[0]) then Accepted else Rejected
  {
    hide AllClosed, Embeds, Balanced, FillFrom;
    var shape := ShapeOf(text, false);
    assert text[0..] == text;
    ParamsAreNames(text, 0, shape);
    var t := FilledPieces(shape, values);
    PiecesEmbed(t);
    if Literals(shape) != [] { StartsIfPrefix(Literals(shape), Flat(t)); }
  }

  lemma LiteralFirst(shape: Shape)
    ensures Render(shape) != "" && Render(shape)[0] != '{' ==> shape.lit != ""
  {
    match shape
    case Last(_) =>
    case Hole(lit, name, rest) => assert lit == "" ==> Render(shape) == Placeholder(name) + Render(rest);
  }

  /** Every filling, with closed values, of a well-formed template that begins with a literal is accepted by it. */
  lemma FilledIsAccepted(text: string, values: map<string, string>)
    requires Balanced(text, false) && text != "" && text[0] != '{' && AllClosed(Parse(text).parameters, values)
    ensures Fill(Parse(text), values).Filled?
    ensures Matching(Fill(Parse(text), values).command, text) == Accepted
  {
    hide AllClosed, Embeds, Balanced;
    var shape := ShapeOf(text, false);
    assert text[0..] == text;
    ParamsAreNames(text, 0, shape);
    var t := FilledPieces(shape, values);
    PiecesEmbed(t);
    LiteralFirst(shape);
    if Names(shape) != [] {
      FilledVerdict(text, values);
      assert Literals(shape)[0] == shape.lit;
    } else {
      assert Fill(Parse(text), values) == Filled(text);
    }
  }

  // ---- Only closed values are always accepted ----

  function Opens(s: string): nat { if s == "" then 0 else (if s[0] == '{' then 1 else 0) + Opens(s[1..]) }

  function Closes(s: string): nat { if s == "" then 0 else (if s[0] == '}' then 1 else 0) + Closes(s[1..]) }

  /** Every brace is matched. */
  predicate Nested(s: string) { Closed(s) && Opens(s) == Closes(s) }

  lemma {:induction false} CountsConcat(a: string, b: string)
    ensures Opens(a + b) == Opens(a) + Opens(b) && Closes(a + b) == Closes(a) + Closes(b)
  {
    if a == "" {
      assert a + b == b;
    } else {
      assert (a + b)[1..] == a[1..] + b;
      CountsConcat(a[1..], b);
    }
  }

  lemma {:induction false} DepthAtLeast(s: string, d: nat)
    ensures Depth(s, d) + Closes(s) >= d + Opens(s)
    decreases |s|
  {
    if s != "" { DepthAtLeast(s[1..], if s[0] == '{' then d + 1 else if s[0] == '}' && d > 0 then d - 1 else d); }
  }

  lemma NestedDepth(s: string, d: nat)
    requires Nested(s)
    ensures Depth(s, d) == d
  {
    DepthAtLeast(s, d);
    DepthMono(s, 0, d);
  }

  lemma {:induction false} FreeCounts(s: string)
    ensures Opens(s) == 0 <==> '{' !in s
    ensures Closes(s) == 0 <==> '}' !in s
  {
    if s != "" {
      FreeCounts(s[1..]);
      assert s == [s[0]] + s[1..];
    }
  }

  /** The innermost brace that stays open, and a nested rest. */
  lemma {:induction false} CutUnclosed(s: string) returns (head: string, tail: string)
    requires Depth(s, 0) > 0
    ensures s == head + ("{" + tail) && Nested(tail) && Depth(head, 0) == Depth(s, 0) - 1
    decreases |s|
  {
    var n := |s| - 1;
    var front, c := s[..n], s[n];
    assert s == front + [c];
    DepthConcat(front, [c], 0);
    if c == '{' {
      head, tail := front, "";
    } else {
      head, tail := CutUnclosed(front);
      if c == '}' {
        var inner := tail;
        head, tail := CutUnclosed(head);
        NestedPair(tail, inner);
        assert s == head + ("{" + (tail + ("{" + (inner + "}"))));
        tail := tail + ("{" + (inner + "}"));
      } else {
        NestedPlain(tail, c);
        assert s == head + ("{" + (tail + [c]));
        tail := tail + [c];
      }
    }
  }

  lemma NestedPair(before: string, inner: string)
    requires Nested(before) && Nested(inner)
    ensures Nested(before + ("{" + (inner + "}")))
  {
    var pair := "{" + (inner + "}");
    DepthConcat(before, pair, 0);
    DepthConcat("{", inner + "}", 0);
    DepthConcat(inner, "}", 1);
    NestedDepth(inner, 1);
    CountsConcat(before, pair);
    CountsConcat("{", inner + "}");
    CountsConcat(inner, "}");
  }

  lemma NestedPlain(before: string, c: char)
    requires Nested(before) && c != '{' && c != '}'
    ensures Nested(before + [c])
  {
    DepthConcat(before, [c], 0);
    CountsConcat(before, [c]);
  }

  /** Emptying a placeholder leaves a nested text nested, with fewer braces if it was there. */
  lemma {:induction false} EmptiedCounts(s: string, name: string)
    requires BraceFree(name)
    ensures var e := ReplaceAll(s, Placeholder(name), "");
            Opens(e) <= Opens(s) && Opens(s) - Opens(e) == Closes(s) - Closes(e)
    decreases |s|
  {
    var p := Placeholder(name);
    if HasPrefix(s, p) {
      assert s == p + s[|p|..] && ReplaceAll(s, p, "") == ReplaceAll(s[|p|..], p, "");
      CountsConcat(p, s[|p|..]);
      PlaceholderCounts(name);
      EmptiedCounts(s[|p|..], name);
    } else if s != "" {
      assert ([s[0]] + ReplaceAll(s[1..], p, ""))[1..] == ReplaceAll(s[1..], p, "");
      EmptiedCounts(s[1..], name);
    }
  }

  lemma PlaceholderCounts(name: string)
    requires BraceFree(name)
    ensures Opens(Placeholder(name)) == 1 && Closes(Placeholder(name)) == 1
  {
    assert Placeholder(name) == "{" + (name + "}");
    CountsConcat("{", name + "}");
    CountsConcat(name, "}");
    FreeCounts(name);
  }

  /** A nested text with braces holds a whole placeholder, and emptying it makes progress. */
  lemma EmptyInnermost(s: string) returns (name: string)
    requires Nested(s) && Opens(s) > 0
    ensures BraceFree(name) && |name| < |s|
    ensures var e := ReplaceAll(s, Placeholder(name), ""); Nested(e) && Opens(e) < Opens(s) && |e| <= |s|
  {
    FreeCounts(s);
    var head, tail := CutAtLast(s, '{');
    assert '}' in tail by { LastIsClosed(s, head, tail); }
    var rest;
    name, rest := CutAtFirst(tail, '}');
    var p := Placeholder(name);
    assert s == head + (p + rest);
    ReplaceAround(head, name, rest, "");
    var headEmptied, restEmptied := ReplaceAll(head, p, ""), ReplaceAll(rest, p, "");
    EmptiedCounts(head, name);
    EmptiedCounts(rest, name);
    EmptiedCounts(s, name);
    CountsConcat(head, p + rest);
    CountsConcat(p, rest);
    CountsConcat(headEmptied, "" + restEmptied);
    assert "" + restEmptied == restEmptied;
    PlaceholderCounts(name);
    ReplaceDepth(s, name, "", 0, 0);
    ReplaceShrinks(s, p);
  }

  lemma LastIsClosed(s: string, head: string, tail: string)
    requires Closed(s) && s == head + (['{'] + tail)
    ensures OpenFree(tail) ==> '}' in tail
  {
    DepthConcat(head, ['{'] + tail, 0);
    DepthConcat(['{'], tail, Depth(head, 0));
    if BraceFree(tail) { DepthOpenFree(tail, Depth(head, 0) + 1); }
  }

  function Holes(names: seq<string>): string {
    if names == [] then "" else Placeholder(names[0]) + Holes(names[1..])
  }

  function Others(names: seq<string>, name: string): seq<string> {
    if names == [] then []
    else (if names[0] == name then [] else [names[0]]) + Others(names[1..], name)
  }

  lemma {:induction false} HolesReplaced(names: seq<string>, name: string)
    requires BraceFree(name) && forall n :: n in names ==> BraceFree(n)
    ensures ReplaceAll(Holes(names), Placeholder(name), "") == Holes(Others(names, name))
    ensures forall n :: n in Others(names, name) <==> n in names && n != name
  {
    hide ReplaceAll, Placeholder, BraceFree;
    if names == [] {
      ReplaceNothing("", name, "");
    } else {
      var first, later := names[0], Others(names[1..], name);
      assert names == [first] + names[1..];
      HolesReplaced(names[1..], name);
      ReplaceHole(first, Holes(names[1..]), name, "");
      assert ([first] + later)[1..] == later && [] + later == later && "" + Holes(later) == Holes(later);
    }
  }

  /** Emptying the placeholders of `names` one after the other. */
  function Strip(text: string, names: seq<string>): string
    decreases |names|
  {
    if names == [] then text else Strip(ReplaceAll(text, Placeholder(names[0]), ""), names[1..])
  }

  lemma {:induction false} FillIsStrip(text: string, names: seq<string>, values: map<string, string>)
    requires forall n :: n in names ==> n in values && values[n] == ""
    ensures FillFrom(text, names, values) == Filled(Strip(text, names))
    decreases |names|
  {
    if names != [] { FillIsStrip(ReplaceAll(text, Placeholder(names[0]), ""), names[1..], values); }
  }

  /** A brace left open, a nested text, a literal and a closing brace, with placeholders after them. */
  function Trapped(before: string, nested: string, lit: string, after: seq<string>): string {
    before + ("{" + (nested + (lit + ("}" + Holes(after)))))
  }

  /** The names under which everything from the open brace on vanishes, the literal included. */
  lemma {:induction false} SwallowingNames(nested: string, lit: string) returns (names: seq<string>)
    requires Nested(nested) && BraceFree(lit)
    ensures forall n :: n in names ==> BraceFree(n) && |n| <= |nested| + |lit|
    ensures forall before, after :: (forall n :: n in after ==> n in names) ==>
              |Strip(Trapped(before, nested, lit, after), names)| <= |before|
    decreases Opens(nested)
  {
    FreeCounts(nested);
    if Opens(nested) == 0 {
      names := [nested + lit];
      forall before, after | forall n :: n in after ==> n in names
        ensures |Strip(Trapped(before, nested, lit, after), names)| <= |before|
      {
        SwallowLast(before, nested, lit, after);
      }
    } else {
      var name := EmptyInnermost(nested);
      var emptied := ReplaceAll(nested, Placeholder(name), "");
      var later := SwallowingNames(emptied, lit);
      names := [name] + later;
      forall before, after | forall n :: n in after ==> n in names
        ensures |Strip(Trapped(before, nested, lit, after), names)| <= |before|
      {
        SwallowStep(before, nested, lit, after, name);
        HolesReplaced(after, name);
        ReplaceShrinks(before, Placeholder(name));
        var before' := ReplaceAll(before, Placeholder(name), "");
        assert names[1..] == later;
        assert |Strip(Trapped(before', emptied, lit, Others(after, name)), later)| <= |before'|;
      }
    }
  }

  lemma SwallowLast(before: string, nested: string, lit: string, after: seq<string>)
    requires BraceFree(nested) && BraceFree(lit) && forall n :: n in after ==> n == nested + lit
    ensures |Strip(Trapped(before, nested, lit, after), [nested + lit])| <= |before|
  {
    var name := nested + lit;
    var p := Placeholder(name);
    assert Trapped(before, nested, lit, after) == before + (p + Holes(after));
    ReplaceAround(before, name, Holes(after), "");
    HolesReplaced(after, name);
    NoOthers(after, name);
    ReplaceShrinks(before, p);
    assert [name][1..] == [];
  }

  lemma {:induction false} NoOthers(names: seq<string>, name: string)
    requires forall n :: n in names ==> n == name
    ensures Others(names, name) == []
  {
    if names != [] {
      assert names[0] in names;
      forall n | n in names[1..] ensures n == name { assert n in names; }
      NoOthers(names[1..], name);
    }
  }

  lemma SwallowStep(before: string, nested: string, lit: string, after: seq<string>, name: string)
    requires Nested(nested) && Opens(nested) > 0 && BraceFree(lit) && BraceFree(name)
    requires forall n :: n in after ==> BraceFree(n)
    ensures ReplaceAll(Trapped(before, nested, lit, after), Placeholder(name), "")
         == Trapped(ReplaceAll(before, Placeholder(name), ""), ReplaceAll(nested, Placeholder(name), ""), lit,
                    Others(after, name))
  {
    NestedIsClosed(nested);
    var closing := lit + ("}" + Holes(after));
    ReplaceBeforeOpen(before, nested + closing, name);
    OpenIsNoPlaceholder(nested, closing, name);
    ReplaceApart(nested, closing, name, "");
    ClosingReplaced(lit, after, name);
    hide *;
    TrappedIs(before, nested, lit, after);
    TrappedIs(ReplaceAll(before, Placeholder(name), ""), ReplaceAll(nested, Placeholder(name), ""), lit,
              Others(after, name));
  }

  lemma TrappedIs(before: string, nested: string, lit: string, after: seq<string>)
    ensures Trapped(before, nested, lit, after) == before + ("{" + (nested + (lit + ("}" + Holes(after)))))
  {}

  lemma ClosingReplaced(lit: string, after: seq<string>, name: string)
    requires BraceFree(lit) && BraceFree(name) && forall n :: n in after ==> BraceFree(n)
    ensures ReplaceAll(lit + ("}" + Holes(after)), Placeholder(name), "") == lit + ("}" + Holes(Others(after, name)))
  {
    hide ReplaceAll;
    assert lit + ("}" + Holes(after)) == (lit + "}") + Holes(after);
    ReplaceSkip(lit + "}", Holes(after), name, "");
    HolesReplaced(after, name);
    assert (lit + "}") + Holes(Others(after, name)) == lit + ("}" + Holes(Others(after, name)));
  }

  lemma NestedIsClosed(s: string)
    requires Nested(s)
    ensures Closed(s)
  {}

  /** No placeholder begins before an opening brace and ends after it. */
  lemma {:induction false} ReplaceBeforeOpen(head: string, rest: string, name: string)
    requires BraceFree(name)
    ensures ReplaceAll(head + ("{" + rest), Placeholder(name), "")
         == ReplaceAll(head, Placeholder(name), "") + ReplaceAll("{" + rest, Placeholder(name), "")
    decreases |head|
  {
    var p, text := Placeholder(name), head + ("{" + rest);
    if head == "" {
      assert text == "{" + rest;
    } else {
      assert |p| <= |head| ==> text[..|p|] == head[..|p|];
      assert |head| < |p| ==> text[|head|] == '{' && p[|head|] != '{';
      var k := if HasPrefix(head, p) then |p| else 1;
      assert text[k..] == head[k..] + ("{" + rest);
      ReplaceBeforeOpen(head[k..], rest, name);
      var first := if HasPrefix(head, p) then "" else [head[0]];
      Regrouped(first, ReplaceAll(head[k..], p, ""), ReplaceAll("{" + rest, p, ""));
    }
  }

  /** The brace left open begins no placeholder while another one opens behind it first. */
  lemma OpenIsNoPlaceholder(nested: string, closing: string, name: string)
    requires Nested(nested) && Opens(nested) > 0 && BraceFree(name)
    ensures ReplaceAll("{" + (nested + closing), Placeholder(name), "")
         == "{" + ReplaceAll(nested + closing, Placeholder(name), "")
  {
    var p, text := Placeholder(name), "{" + (nested + closing);
    FreeCounts(nested);
    var k := FirstBrace(nested);
    assert text[k + 1] == '{' && forall i :: 1 <= i <= k ==> text[i] != '}';
    assert |p| == |name| + 2 && p[|p| - 1] == '}' && forall i :: 1 <= i < |p| ==> p[i] != '{';
    assert |p| - 1 <= k ==> text[|p| - 1] != p[|p| - 1];
    assert k + 1 < |p| ==> text[k + 1] != p[k + 1];
    assert !HasPrefix(text, p);
    assert text[1..] == nested + closing;
  }

  /** The first brace of a nested text is an opening one. */
  lemma FirstBrace(s: string) returns (k: nat)
    requires Nested(s) && Opens(s) > 0
    ensures k < |s| && s[k] == '{' && forall i :: 0 <= i < k ==> s[i] != '}'
  {
    FreeCounts(s);
    var head, tail := CutAtFirst(s, '{');
    k := |head|;
    CountsConcat(head, ['{'] + tail);
    DepthConcat(head, ['{'] + tail, 0);
    FreeCounts(head);
    DepthOpenFree(head, 0);
    assert Depth(head, 0) == 0;
    DepthAtLeast(['{'] + tail, 0);
  }

  /** In every well-formed template that begins with a literal, filling with `value` is accepted. */
  ghost predicate AlwaysAccepted(value: string) {
    forall shape, name, values :: Clean(shape) && shape.lit != "" && Fits(shape, name, value, values) ==>
      AcceptsFilling(Render(shape), values)
  }

  ghost predicate AcceptsFilling(text: string, values: map<string, string>) {
    Fill(Parse(text), values).Filled? && Matching(Fill(Parse(text), values).command, text) == Accepted
  }

  /** A harmless value is always accepted exactly when it closes its braces. A brace left open can swallow a literal
      of the template. */
  lemma AlwaysAcceptedIff(value: string)
    requires !HasMetachar(value)
    ensures AlwaysAccepted(value) <==> Closed(value)
  {
    hide AcceptsFilling, Fits, Closed, HasMetachar;
    if Closed(value) {
      forall shape, name, values | Clean(shape) && shape.lit != "" && Fits(shape, name, value, values)
        ensures AcceptsFilling(Render(shape), values)
      {
        ClosedIsAccepted(shape, name, value, values);
      }
    } else {
      var shape, name, values := SwallowedWitness(value);
      assert Fits(shape, name, value, values);
    }
  }

  lemma ClosedIsAccepted(shape: Shape, name: string, value: string, values: map<string, string>)
    requires Clean(shape) && shape.lit != "" && Fits(shape, name, value, values) && Closed(value)
    ensures AcceptsFilling(Render(shape), values)
  {
    hide HasMetachar, Closed, Matching, FillFrom;
    forall n | n in Names(shape) && n != name ensures Closed(values[n]) { OpenFreeIsClosed(values[n]); }
    assert AllClosed(Names(shape), values);
    var t := FilledPieces(shape, values);
    RenderBalanced(shape);
    assert Render(shape)[0] == shape.lit[0];
    FilledIsAccepted(Render(shape), values);
  }

  lemma OpenFreeIsClosed(s: string)
    requires OpenFree(s)
    ensures Closed(s)
  {
    DepthOpenFree(s, 0);
  }

  lemma {:induction false} BalancedPlain(lit: string, rest: string, inParam: bool)
    requires BraceFree(lit)
    ensures Balanced(lit + rest, inParam) == Balanced(rest, inParam)
  {
    if lit == "" {
      assert lit + rest == rest;
    } else {
      assert (lit + rest)[1..] == lit[1..] + rest;
      BalancedPlain(lit[1..], rest, inParam);
    }
  }

  /** The well-formed templates are exactly the texts of clean shapes: `ShapeOf` is the other direction. */
  lemma {:induction false} RenderBalanced(shape: Shape)
    requires Clean(shape)
    ensures Balanced(Render(shape), false)
  {
    match shape
    case Last(lit) =>
      BalancedPlain(lit, "", false);
      assert lit + "" == lit;
    case Hole(lit, name, rest) =>
      RenderBalanced(rest);
      var tail := Placeholder(name) + Render(rest);
      BalancedPlain(lit, tail, false);
      assert tail[1..] == name + ("}" + Render(rest));
      BalancedPlain(name, "}" + Render(rest), true);
      assert ("}" + Render(rest))[1..] == Render(rest);
  }

  function HolesShape(names: seq<string>): Shape {
    if names == [] then Last("") else Hole("", names[0], HolesShape(names[1..]))
  }

  lemma {:induction false} HolesShapeIs(names: seq<string>)
    requires forall i :: 0 <= i < |names| ==> BraceFree(names[i])
    ensures var shape := HolesShape(names);
            Clean(shape) && Names(shape) == names && Render(shape) == Holes(names) && Literals(shape) == []
  {
    if names != [] {
      HolesShapeIs(names[1..]);
      assert names == [names[0]] + names[1..];
    }
  }

  lemma {:induction false} SubstituteHoles(names: seq<string>, name: string, value: string)
    requires name !in names
    ensures Substitute(HolesShape(names), name, value) == HolesShape(names)
  {
    if names != [] {
      SubstituteHoles(names[1..], name, value);
      assert names == [names[0]] + names[1..];
    }
  }

  /** For a value that leaves a brace open, a template and values whose filling is refused: a literal follows the
      value, another value closes the brace behind it, and all between is a parameter with an empty value. */
  lemma SwallowedWitness(value: string) returns (shape: Shape, name: string, values: map<string, string>)
    requires !HasMetachar(value) && !Closed(value)
    ensures Clean(shape) && shape.lit != "" && Fits(shape, name, value, values)
    ensures !AcceptsFilling(Render(shape), values)
  {
    Harmless();
    hide Nested, Closed, HasMetachar, Clean, Literals, Render, HolesShape, FillFrom, Strip, Trapped, StaticParts;
    hide ParamsFrom, AcceptsFilling, BraceFree;
    var head, tail := CutUnclosed(value) by { assert Depth(value, 0) > 0 by { NotClosed(value); } }
    var lit := LongName(|value| + 1);
    var names := SwallowingNames(tail, lit) by { LongNameFree(|value| + 1); }
    var closer := LongName(2 * |value| + 4);
    name := LongName(2 * |value| + 5);
    LongNameFree(|lit|);
    LongNameFree(|closer|);
    LongNameFree(|name|);
    assert name !in names && closer !in names;
    values := (map n | n in names :: "")[name := value][closer := "}"];
    shape := Hole("x", name, Hole(lit, closer, HolesShape(names)));
    WitnessShape(name, lit, closer, names);
    WitnessFills(value, head, tail, lit, name, closer, names, values);
    var command := Strip(Trapped("x" + head, tail, lit, names), names);
    assert |command| <= |"x" + head|;
    RefusedIfShort(shape, values, "x", lit, command);
  }

  lemma NotClosed(s: string)
    requires !Closed(s)
    ensures Depth(s, 0) > 0
  {}

  lemma LongNameFree(length: nat)
    ensures BraceFree(LongName(length)) && |LongName(length)| == length
  {}

  lemma WitnessShape(name: string, lit: string, closer: string, names: seq<string>)
    requires BraceFree(name) && BraceFree(lit) && BraceFree(closer) && lit != ""
    requires forall n :: n in names ==> BraceFree(n)
    ensures var shape := Hole("x", name, Hole(lit, closer, HolesShape(names)));
            && Clean(shape) && Names(shape) == [name, closer] + names && Literals(shape) == ["x", lit]
            && Parse(Render(shape)) == Template(Render(shape), Names(shape))
            && StaticParts(Render(shape)) == ["x", lit] && |Render(shape)| > 1 + |lit|
  {
    HolesShapeIs(names);
    var inner := Hole(lit, closer, HolesShape(names));
    var shape := Hole("x", name, inner);
    assert Names(inner) == [closer] + names && Names(shape) == [name] + Names(inner);
    assert Literals(inner) == [lit] + [] && Literals(shape) == ["x"] + Literals(inner);
    assert Render(shape)[0..] == Render(shape);
    ParamsAreNames(Render(shape), 0, shape);
    PartsAreLiterals(shape);
  }

  lemma WitnessFills(value: string, head: string, tail: string, lit: string, name: string, closer: string,
                     names: seq<string>, values: map<string, string>)
    requires BraceFree(name) && BraceFree(lit) && BraceFree(closer)
    requires name != closer && name !in names && closer !in names
    requires forall n :: n in names ==> BraceFree(n) && n in values && values[n] == ""
    requires name in values && values[name] == value && closer in values && values[closer] == "}"
    requires !HasMetachar(value) && value == head + ("{" + tail) && |value| + |lit| + 1 < |closer|
    ensures var shape := Hole("x", name, Hole(lit, closer, HolesShape(names)));
            FillFrom(Render(shape), [name, closer] + names, values)
            == Filled(Strip(Trapped("x" + head, tail, lit, names), names))
  {
    Harmless();
    hide HasMetachar, ReplaceAll, BraceFree, FillFrom, Strip, Render;
    var text := Render(Hole("x", name, Hole(lit, closer, HolesShape(names))));
    NameFilled(value, lit, name, closer, names);
    CloserFilled("x" + value + lit, closer, names);
    assert "x" + value + lit + ("}" + Holes(names)) == Trapped("x" + head, tail, lit, names);
    FillTwoThen(text, name, closer, names, values);
    FillIsStrip(Trapped("x" + head, tail, lit, names), names, values);
  }

  lemma NameFilled(value: string, lit: string, name: string, closer: string, names: seq<string>)
    requires BraceFree(name) && BraceFree(lit) && BraceFree(closer) && name != closer && name !in names
    requires forall n :: n in names ==> BraceFree(n)
    ensures var shape := Hole("x", name, Hole(lit, closer, HolesShape(names)));
            ReplaceAll(Render(shape), Placeholder(name), value)
            == "x" + value + lit + (Placeholder(closer) + Holes(names))
  {
    hide ReplaceAll;
    HolesShapeIs(names);
    var inner := Hole(lit, closer, HolesShape(names));
    var shape := Hole("x", name, inner);
    CleanIsFillable(shape);
    ReplaceFillsHoles(shape, name, value);
    SubstituteHoles(names, name, value);
    assert Substitute(inner, name, value) == inner;
    assert Substitute(shape, name, value) == Hole("x" + value + lit, closer, HolesShape(names));
  }

  lemma CloserFilled(start: string, closer: string, names: seq<string>)
    requires BraceFree(closer) && closer !in names && |start| < |closer| && forall n :: n in names ==> BraceFree(n)
    ensures ReplaceAll(start + (Placeholder(closer) + Holes(names)), Placeholder(closer), "}")
         == start + ("}" + Holes(names))
  {
    ReplaceAround(start, closer, Holes(names), "}");
    ReplaceLonger(start, Placeholder(closer), "}");
    HolesKept(names, closer, "}");
  }

  lemma HolesKept(names: seq<string>, name: string, value: string)
    requires BraceFree(name) && name !in names && forall n :: n in names ==> BraceFree(n)
    ensures ReplaceAll(Holes(names), Placeholder(name), value) == Holes(names)
  {
    HolesShapeIs(names);
    CleanIsFillable(HolesShape(names));
    ReplaceFillsHoles(HolesShape(names), name, value);
    SubstituteHoles(names, name, value);
  }

  lemma FillTwoThen(text: string, a: string, b: string, rest: seq<string>, values: map<string, string>)
    requires a in values && b in values && !HasMetachar(values[a]) && !HasMetachar(values[b])
    ensures FillFrom(text, [a, b] + rest, values)
         == FillFrom(ReplaceAll(ReplaceAll(text, Placeholder(a), values[a]), Placeholder(b), values[b]), rest, values)
  {
    var all, once := [a, b] + rest, ReplaceAll(text, Placeholder(a), values[a]);
    assert all[1..] == [b] + rest && ([b] + rest)[1..] == rest;
    assert FillFrom(text, all, values) == FillFrom(once, [b] + rest, values);
  }

  lemma RefusedIfShort(shape: Shape, values: map<string, string>, first: string, second: string, command: string)
    requires Fill(Parse(Render(shape)), values) == Filled(command) && StaticParts(Render(shape)) == [first, second]
    requires |command| < |first| + |second| < |Render(shape)|
    ensures !AcceptsFilling(Render(shape), values)
  {
    var parts := [first, second];
    assert parts[1..] == [second];
    if |first| <= |command| { EmbedsFits(second, command[|first|..]); }
  }

  lemma EmbedsFits(part: string, s: string)
    ensures Embeds([part], s) ==> |part| <= |s|
  {
    if Embeds([part], s) { var i: nat :| OccursAt(s, [part][0], i); }
  }
}
