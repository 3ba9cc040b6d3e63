/** The string operations of Go's `strings`, `strconv` and `sort` packages that the modelled code calls.
    A Go string is a sequence of characters here: the modelled code only ever compares
    with, searches for and cuts at ASCII characters. */
module Text {

  datatype Option<+T> = None | Some(value: T)

  // ---- Integers: %d, strconv.Itoa and strconv.ParseInt(_, 10, 64) ----

  const INT64_MIN := -0x8000_0000_0000_0000
  const INT64_MAX := 0x7fff_ffff_ffff_ffff

  predicate IsInt64(n: int) { INT64_MIN <= n <= INT64_MAX }

  predicate IsDigit(c: char) { '0' <= c <= '9' }

  predicate AllDigits(s: string) { forall i :: 0 <= i < |s| ==> IsDigit(s[i]) }

  function DigitsValue(s: string): nat
    requires AllDigits(s)
  {
    if s == "" then 0
    else 10 * DigitsValue(s[..|s| - 1]) + (s[|s| - 1] as int - '0' as int)
  }

  function DecNat(n: nat): (s: string)
    ensures s != "" && AllDigits(s) && DigitsValue(s) == n
  {
    var last := ('0' as int + n % 10) as char;
    if n < 10 then [last]
    else
      var front := DecNat(n / 10);
      assert (front + [last])[..|front|] == front;
      front + [last]
  }

  function Dec(n: int): string { if n < 0 then "-" + DecNat(-n) else DecNat(n) }

  function ParseInt64(s: string): Option<int> {
    var negative := s != "" && s[0] == '-';
    var digits := if s != "" && (s[0] == '-' || s[0] == '+') then s[1..] else s;
    if digits == "" || !AllDigits(digits) then None
    else
      var magnitude: int := DigitsValue(digits);
      var value := if negative then -magnitude else magnitude;
      if IsInt64(value) then Some(value) else None
  }

  lemma ParseDec(n: int)
    ensures Dec(n) != ""
    ensures forall i :: 0 <= i < |Dec(n)| ==> IsDigit(Dec(n)[i]) || Dec(n)[i] == '-'
    ensures ParseInt64(Dec(n)) == if IsInt64(n) then Some(n) else None
  {}

  lemma DecInjective(a: int, b: int)
    ensures Dec(a) == Dec(b) ==> a == b
  {
    assert a < 0 ==> Dec(a)[0] == '-' && Dec(a)[1..] == DecNat(-a);
    assert b < 0 ==> Dec(b)[0] == '-' && Dec(b)[1..] == DecNat(-b);
    assert a >= 0 ==> IsDigit(Dec(a)[0]);
    assert b >= 0 ==> IsDigit(Dec(b)[0]);
  }

  /** A plus sign is read over. */
  lemma ParsePlus(n: nat)
    ensures ParseInt64("+" + Dec(n)) == if IsInt64(n) then Some(n) else None
  {
    assert ("+" + Dec(n))[1..] == Dec(n);
  }

  /** Only decimal digits after at most one sign are a number, and leading zeros do not change it. */
  lemma {:induction false} NumbersAre(s: string)
    ensures ParseInt64(s).Some? ==>
              && s != "" && (IsDigit(s[0]) || ((s[0] == '+' || s[0] == '-') && |s| > 1))
              && forall i :: 1 <= i < |s| ==> IsDigit(s[i])
    ensures AllDigits(s) ==> DigitsValue("0" + s) == DigitsValue(s)
    decreases |s|
  {
    if s != "" {
      var front := s[..|s| - 1];
      NumbersAre(front);
      assert ("0" + s)[..|s|] == "0" + front;
      var digits := if s[0] == '-' || s[0] == '+' then s[1..] else s;
      assert forall i :: 1 <= i < |s| ==> s[i] == if digits == s then digits[i] else digits[i - 1];
    } else {
      assert "0"[..0] == "" && "0" + "" == "0";
    }
  }

  lemma SameHead(head: string, a: string, b: string)
    ensures head + a == head + b ==> a == b
  {
    assert a == (head + a)[|head|..] && b == (head + b)[|head|..];
  }

  // ---- Searching ----

  predicate HasPrefix(s: string, prefix: string) { prefix <= s }

  predicate HasSuffix(s: string, suffix: string) {
    |suffix| <= |s| && s[|s| - |suffix|..] == suffix
  }

  predicate OccursAt(s: string, sub: string, i: nat) {
    i + |sub| <= |s| && s[i..i + |sub|] == sub
  }

  lemma OccursShift(s: string, sub: string, i: nat)
    requires s != "" && i > 0
    ensures OccursAt(s, sub, i) <==> OccursAt(s[1..], sub, i - 1)
  {}

  /** strings.Index: the leftmost occurrence, or -1. */
  function Index(s: string, sub: string): (r: int)
    ensures r == -1 ==> forall i: nat :: !OccursAt(s, sub, i)
    ensures r != -1 ==> r >= 0 && OccursAt(s, sub, r) && forall i: nat :: i < r ==> !OccursAt(s, sub, i)
  {
    if HasPrefix(s, sub) then
      assert OccursAt(s, sub, 0);
      0
    else if s == "" then -1
    else
      var r := Index(s[1..], sub);
      assert forall i: nat :: i > 0 ==> (OccursAt(s, sub, i) <==> OccursAt(s[1..], sub, i - 1)) by {
        forall i: nat | i > 0 ensures OccursAt(s, sub, i) <==> OccursAt(s[1..], sub, i - 1) { OccursShift(s, sub, i); }
      }
      assert !OccursAt(s, sub, 0);
      if r == -1 then -1 else r + 1
  }

  predicate Contains(s: string, sub: string) { Index(s, sub) != -1 }

  /** strings.ReplaceAll for a non-empty `old`. */
  function ReplaceAll(s: string, old_: string, new_: string): string
    requires old_ != ""
  {
    if HasPrefix(s, old_) then new_ + ReplaceAll(s[|old_|..], old_, new_)
    else if s == "" then ""
    else [s[0]] + ReplaceAll(s[1..], old_, new_)
  }

  // ---- Splitting, joining, trimming ----

  function Prepend(c: char, parts: seq<string>): seq<string>
    requires parts != []
  {
    [[c] + parts[0]] + parts[1..]
  }

  function Split(s: string, sep: char): (parts: seq<string>)
    ensures |parts| >= 1
    ensures forall i :: 0 <= i < |parts| ==> sep !in parts[i]
  {
    if s == "" then [""]
    else if s[0] == sep then [""] + Split(s[1..], sep)
    else Prepend(s[0], Split(s[1..], sep))
  }

  function Join(parts: seq<string>, sep: string): string {
    if |parts| == 0 then ""
    else if |parts| == 1 then parts[0]
    else parts[0] + sep + Join(parts[1..], sep)
  }

  lemma {:induction false} SplitWhole(s: string, sep: char)
    requires sep !in s
    ensures Split(s, sep) == [s]
  {
    if s != "" {
      SplitWhole(s[1..], sep);
      assert s == [s[0]] + s[1..];
    }
  }

  lemma {:induction false} SplitConcat(a: string, sep: char, b: string)
    ensures Split(a + [sep] + b, sep) == Split(a, sep) + Split(b, sep)
  {
    var whole := a + [sep] + b;
    if a == "" {
      assert whole[1..] == b;
    } else {
      assert whole[1..] == a[1..] + [sep] + b;
      SplitConcat(a[1..], sep, b);
      PrependConcat(a[0], Split(a[1..], sep), Split(b, sep));
    }
  }

  lemma PrependConcat(c: char, a: seq<string>, b: seq<string>)
    requires a != []
    ensures Prepend(c, a + b) == Prepend(c, a) + b
    ensures [""] + (a + b) == [""] + a + b
  {}

  /** Joining is undone by splitting when no part holds the separator. */
  lemma {:induction false} SplitJoin(parts: seq<string>, sep: char)
    requires |parts| >= 1
    requires forall i :: 0 <= i < |parts| ==> sep !in parts[i]
    ensures Split(Join(parts, [sep]), sep) == parts
  {
    SplitWhole(parts[0], sep);
    if |parts| > 1 {
      SplitJoin(parts[1..], sep);
      SplitConcat(parts[0], sep, Join(parts[1..], [sep]));
    }
  }

  /** unicode.IsSpace. */
  predicate IsSpace(c: char) {
    var n := c as int;
    0x09 <= n <= 0x0d || n == 0x20 || n == 0x85 || n == 0xa0 || n == 0x1680 || 0x2000 <= n <= 0x200a
    || n == 0x2028 || n == 0x2029 || n == 0x202f || n == 0x205f || n == 0x3000
  }

  function TrimLeft(s: string): (r: string)
    ensures r == "" || !IsSpace(r[0])
    ensures HasSuffix(s, r)
  {
    if s != "" && IsSpace(s[0]) then
      var r := TrimLeft(s[1..]);
      assert s[1..][|s| - 1 - |r|..] == s[|s| - |r|..];
      r
    else s
  }

  function TrimRight(s: string): (r: string)
    ensures r == "" || !IsSpace(r[|r| - 1])
    ensures HasPrefix(s, r)
  {
    if s != "" && IsSpace(s[|s| - 1]) then TrimRight(s[..|s| - 1]) else s
  }

  function TrimSpace(s: string): string { TrimRight(TrimLeft(s)) }

  predicate AllSpace(s: string) { forall i :: 0 <= i < |s| ==> IsSpace(s[i]) }

  lemma {:induction false} TrimLeftCuts(s: string) returns (cut: string)
    ensures s == cut + TrimLeft(s) && AllSpace(cut)
  {
    hide HasSuffix, IsSpace;
    cut := "";
    if s != "" && IsSpace(s[0]) {
      var rest := TrimLeftCuts(s[1..]);
      cut := [s[0]] + rest;
      assert s == [s[0]] + s[1..];
    }
  }

  lemma {:induction false} TrimRightCuts(s: string) returns (cut: string)
    ensures s == TrimRight(s) + cut && AllSpace(cut)
  {
    cut := "";
    if s != "" && IsSpace(s[|s| - 1]) {
      var rest := TrimRightCuts(s[..|s| - 1]);
      cut := rest + [s[|s| - 1]];
    }
  }

  /** Trimming cuts white space off both ends, and all of it. */
  lemma TrimSpaceCuts(s: string) returns (before: string, after: string)
    ensures var t := TrimSpace(s);
            && s == before + t + after && AllSpace(before) && AllSpace(after)
            && (t != "" ==> !IsSpace(t[0]) && !IsSpace(t[|t| - 1]))
  {
    before := TrimLeftCuts(s);
    after := TrimRightCuts(TrimLeft(s));
    var t := TrimSpace(s);
    if t != "" { assert t[0] == TrimLeft(s)[0]; }
  }

  /** A text is trimmed away exactly when it is all white space. */
  lemma BlankIs(s: string)
    ensures TrimSpace(s) == "" <==> AllSpace(s)
  {
    var before, after := TrimSpaceCuts(s);
    var t := TrimSpace(s);
    if t != "" { assert s[|before|] == t[0]; }
    if t == "" { assert forall i :: 0 <= i < |s| ==> s[i] == if i < |before| then before[i] else after[i - |before|]; }
  }

  lemma TrimFirst(c: char, s: string)
    requires IsSpace(c)
    ensures TrimSpace([c] + s) == TrimSpace(s)
  {
    hide *;
    var t := [c] + s;
    assert t != "" && t[0] == c && t[1..] == s;
    TrimLeftStep(t);
    TrimIs(t);
    TrimIs(s);
  }

  lemma TrimIs(s: string)
    ensures TrimSpace(s) == TrimRight(TrimLeft(s))
  {}

  lemma TrimLeftStep(s: string)
    requires s != ""
    ensures TrimLeft(s) == if IsSpace(s[0]) then TrimLeft(s[1..]) else s
  {}

  lemma TrimRightStep(s: string, c: char)
    requires IsSpace(c)
    ensures TrimRight(s + [c]) == TrimRight(s)
  {
    assert (s + [c])[..|s|] == s;
  }

  lemma {:induction false} TrimLast(s: string, c: char)
    requires IsSpace(c)
    ensures TrimSpace(s + [c]) == TrimSpace(s)
  {
    hide *;
    var t := s + [c];
    TrimIs(t);
    TrimIs(s);
    TrimLeftStep(t);
    assert t[1..] == if s == "" then "" else s[1..] + [c];
    if s != "" {
      assert t[0] == s[0];
      TrimLeftStep(s);
      TrimIs(s[1..]);
      TrimIs(s[1..] + [c]);
      TrimLast(s[1..], c);
      TrimRightStep(s, c);
    }
  }

  /** White space around a text makes no difference to what is left of it. */
  lemma {:induction false} TrimPadding(before: string, s: string, after: string)
    requires AllSpace(before) && AllSpace(after)
    ensures TrimSpace(before + s + after) == TrimSpace(s)
    decreases |before| + |after|
  {
    hide TrimSpace, TrimLeft, TrimRight, IsSpace;
    if before != "" {
      TrimPadding(before[1..], s, after);
      TrimFirst(before[0], before[1..] + s + after);
      assert before + s + after == [before[0]] + (before[1..] + s + after);
    } else if after != "" {
      var n := |after| - 1;
      TrimPadding(before, s, after[..n]);
      TrimLast(before + s + after[..n], after[n]);
      assert before + s + after == (before + s + after[..n]) + [after[n]];
    } else {
      assert before + s + after == s;
    }
  }

  /** The white space of Unicode. */
  lemma SpaceCharacters(c: char)
    ensures IsSpace(c) <==>
            c in ['\t', '\n', '\U{b}', '\U{c}', '\r', ' ', '\U{85}', '\U{a0}', '\U{1680}', '\U{2000}', '\U{2001}',
                  '\U{2002}', '\U{2003}', '\U{2004}', '\U{2005}', '\U{2006}', '\U{2007}', '\U{2008}', '\U{2009}',
                  '\U{200a}', '\U{2028}', '\U{2029}', '\U{202f}', '\U{205f}', '\U{3000}']
  {}

  /** Replacing one character is joining what it separates. */
  lemma {:induction false} ReplaceIsSplitJoin(s: string, c: char, new_: string)
    ensures ReplaceAll(s, [c], new_) == Join(Split(s, c), new_)
  {
    if s != "" {
      var rest := Split(s[1..], c);
      ReplaceIsSplitJoin(s[1..], c, new_);
      if s[0] == c {
        assert HasPrefix(s, [c]) && ([""] + rest)[1..] == rest;
      } else {
        assert !HasPrefix(s, [c]);
        JoinPrepend(s[0], rest, new_);
      }
    }
  }

  lemma JoinPrepend(c: char, parts: seq<string>, sep: string)
    requires parts != []
    ensures Join(Prepend(c, parts), sep) == [c] + Join(parts, sep)
  {
    assert Prepend(c, parts)[1..] == parts[1..];
  }

  // ---- Letter case ----

  function LowerChar(c: char): char { if 'A' <= c <= 'Z' then c - 'A' + 'a' else c }

  /** strings.ToLower on ASCII letters. */
  function ToLower(s: string): string { seq(|s|, i requires 0 <= i < |s| => LowerChar(s[i])) }

  /** Each capital letter becomes the small one, and nothing else changes. */
  lemma Lowered(s: string)
    ensures |ToLower(s)| == |s|
    ensures forall i, k :: 0 <= i < |s| && 0 <= k < 26 && s[i] == "ABCDEFGHIJKLMNOPQRSTUVWXYZ"[k] ==>
              ToLower(s)[i] == "abcdefghijklmnopqrstuvwxyz"[k]
    ensures forall i :: 0 <= i < |s| && s[i] !in "ABCDEFGHIJKLMNOPQRSTUVWXYZ" ==> ToLower(s)[i] == s[i]
  {
    var upper, lower := "ABCDEFGHIJKLMNOPQRSTUVWXYZ", "abcdefghijklmnopqrstuvwxyz";
    assert forall k :: 0 <= k < 26 ==> upper[k] as int == 65 + k && lower[k] as int == 97 + k;
    forall i | 0 <= i < |s| && 'A' <= s[i] <= 'Z' ensures s[i] in upper { assert upper[s[i] as int - 65] == s[i]; }
  }

  // ---- Ordering: sort.Strings ----

  predicate Less(a: string, b: string) {
    b != "" && (a == "" || a[0] < b[0] || (a[0] == b[0] && Less(a[1..], b[1..])))
  }

  lemma {:induction false} LessTrichotomy(a: string, b: string)
    ensures Less(a, b) || a == b || Less(b, a)
    ensures !(Less(a, b) && Less(b, a)) && !Less(a, a)
  {
    if a != "" {
      LessTrichotomy(a[1..], a[1..]);
      if b != "" {
        LessTrichotomy(a[1..], b[1..]);
        assert a == [a[0]] + a[1..] && b == [b[0]] + b[1..];
      }
    }
  }

  lemma {:induction false} LessTransitive(a: string, b: string, c: string)
    requires Less(a, b) && Less(b, c)
    ensures Less(a, c)
  {
    if a != "" && a[0] == b[0] && b[0] == c[0] { LessTransitive(a[1..], b[1..], c[1..]); }
  }

  /** The order is that of a dictionary: the first place where the two differ decides, and a beginning comes first. */
  lemma {:induction false} LessIsDictionaryOrder(a: string, b: string)
    ensures Less(a, b) <==> exists k: nat :: k <= |a| && k < |b| && a[..k] == b[..k] && (k == |a| || a[k] < b[k])
  {
    if a != "" && b != "" {
      LessIsDictionaryOrder(a[1..], b[1..]);
      if a[0] == b[0] && Less(a, b) {
        var k: nat :| k <= |a[1..]| && k < |b[1..]| && a[1..][..k] == b[1..][..k]
          && (k == |a[1..]| || a[1..][k] < b[1..][k]);
        assert a[..k + 1] == [a[0]] + a[1..][..k] && b[..k + 1] == [b[0]] + b[1..][..k];
      } else if Less(a, b) {
        assert a[..0] == b[..0];
      }
      if k: nat :| k <= |a| && k < |b| && a[..k] == b[..k] && (k == |a| || a[k] < b[k]) {
        if k > 0 {
          assert a[0] == a[..k][0] && b[0] == b[..k][0];
          assert a[1..][..k - 1] == a[..k][1..] && b[1..][..k - 1] == b[..k][1..];
        }
      }
    } else if b != "" {
      assert a[..0] == b[..0];
    }
  }

  predicate Sorted(s: seq<string>) { forall i, j :: 0 <= i < j < |s| ==> Less(s[i], s[j]) }

  /** The keys of a map in the order sort.Strings gives them. */
  method SortedKeys(keys: set<string>) returns (sorted: seq<string>)
    ensures Sorted(sorted)
    ensures forall k :: k in sorted <==> k in keys
    ensures |sorted| == |keys|
  {
    sorted := [];
    var left := keys;
    while left != {}
      invariant left <= keys
      invariant |sorted| + |left| == |keys|
      invariant forall k :: k in sorted <==> k in keys && k !in left
      invariant Sorted(sorted)
      invariant forall i, k :: 0 <= i < |sorted| && k in left ==> Less(sorted[i], k)
      decreases |left|
    {
      var next := Least(left);
      sorted := sorted + [next];
      left := left - {next};
    }
  }

  method Least(keys: set<string>) returns (least: string)
    requires keys != {}
    ensures least in keys && forall k :: k in keys && k != least ==> Less(least, k)
  {
    least :| least in keys;
    var left := keys - {least};
    while left != {}
      invariant least in keys && least !in left && left <= keys
      invariant forall k :: k in keys && k != least && k !in left ==> Less(least, k)
      decreases |left|
    {
      var k :| k in left;
      left := left - {k};
      LessTrichotomy(k, least);
      if Less(k, least) {
        forall o | o in keys && o != k && o !in left && o != least ensures Less(k, o) {
          LessTransitive(k, least, o);
        }
        least := k;
      }
    }
  }

  lemma {:induction false} HasLeast(keys: set<string>) returns (least: string)
    requires keys != {}
    ensures least in keys && forall k :: k in keys && k != least ==> Less(least, k)
    decreases |keys|
  {
    least :| least in keys;
    var rest := keys - {least};
    if rest != {} {
      var other := HasLeast(rest);
      LessTrichotomy(least, other);
      if Less(other, least) {
        least := other;
      } else {
        forall k | k in rest && k != other ensures Less(least, k) { LessTransitive(least, other, k); }
      }
    }
  }

  lemma {:induction false} SubsetBounded(a: set<string>, b: set<string>)
    requires a <= b
    ensures |a| <= |b|
    decreases |a|
  {
    if a != {} {
      var x :| x in a;
      SubsetBounded(a - {x}, b - {x});
    }
  }
}
