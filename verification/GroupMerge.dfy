/** Merging the nodes and guests that the profiles of a group report. The profiles answer in any order,
    so the input of the merge is one of many permutations. */
module GroupMerge {
  import opened Text

  datatype Node = Node(id: string, name: string, ip: string, online: bool, sourceProfile: string)

  datatype VM = VM(id: int, kind: string, name: string, node: string, sourceProfile: string)

  predicate IsPlaceholder(node: Node) { HasPrefix(node.id, "offline-") }

  function NodeKey(node: Node): string {
    if IsPlaceholder(node) then "placeholder|" + node.id
    else
      var key := "node|" + node.name + "|" + node.ip;
      if key == "node||" then "node|" + node.id + "|" + node.sourceProfile else key
  }

  function VmKey(vm: VM): string {
    var key := "vm|" + vm.kind + "|" + Dec(vm.id) + "|" + vm.node;
    if key == "vm||0|" then "vm|fallback|" + vm.name + "|" + vm.node + "|" + vm.sourceProfile else key
  }

  // ---- What de-duplication means ----

  /** The keys in order of first appearance. */
  function Keys<T>(items: seq<Option<T>>, keyOf: T -> string): (keys: seq<string>)
    ensures forall i, j :: 0 <= i < j < |keys| ==> keys[i] != keys[j]
    ensures forall k :: k in keys <==> HasKey(items, keyOf, k)
  {
    if items == [] then []
    else
      var n := |items| - 1;
      var front := Keys(items[..n], keyOf);
      HasKeyStep(items, keyOf);
      if items[n].None? || keyOf(items[n].value) in front then front else front + [keyOf(items[n].value)]
  }

  predicate HasKey<T>(items: seq<Option<T>>, keyOf: T -> string, key: string) {
    exists i :: 0 <= i < |items| && IsCopy(items[i], keyOf, key)
  }

  predicate IsCopy<T>(item: Option<T>, keyOf: T -> string, key: string) { item.Some? && keyOf(item.value) == key }

  lemma HasKeyStep<T>(items: seq<Option<T>>, keyOf: T -> string)
    requires items != []
    ensures forall k ::
              HasKey(items, keyOf, k) <==>
              HasKey(items[..|items| - 1], keyOf, k) || IsCopy(items[|items| - 1], keyOf, k)
  {}

  /** A later copy replaces the kept one only to put an online node in the place of an offline one. */
  function Kept(nodes: seq<Option<Node>>, key: string): Option<Node> {
    if nodes == [] then None
    else
      var n := |nodes| - 1;
      var kept := Kept(nodes[..n], key);
      if !IsCopy(nodes[n], NodeKey, key) then kept
      else if kept.None? then nodes[n]
      else if !IsPlaceholder(nodes[n].value) && !kept.value.online && nodes[n].value.online then nodes[n]
      else kept
  }

  function First(vms: seq<Option<VM>>, key: string): Option<VM> {
    if vms == [] then None
    else
      var n := |vms| - 1;
      var kept := First(vms[..n], key);
      if kept.None? && IsCopy(vms[n], VmKey, key) then vms[n] else kept
  }

  lemma {:induction false} KeptIsACopy(nodes: seq<Option<Node>>, key: string)
    ensures Kept(nodes, key).Some? <==> HasKey(nodes, NodeKey, key)
    ensures Kept(nodes, key).Some? ==> NodeKey(Kept(nodes, key).value) == key && Kept(nodes, key) in nodes
  {
    if nodes != [] {
      KeptIsACopy(nodes[..|nodes| - 1], key);
      HasKeyStep(nodes, NodeKey);
      assert nodes == nodes[..|nodes| - 1] + [nodes[|nodes| - 1]];
    }
  }

  lemma {:induction false} FirstIsACopy(vms: seq<Option<VM>>, key: string)
    ensures First(vms, key).Some? <==> HasKey(vms, VmKey, key)
    ensures First(vms, key).Some? ==> VmKey(First(vms, key).value) == key && First(vms, key) in vms
  {
    if vms != [] {
      FirstIsACopy(vms[..|vms| - 1], key);
      HasKeyStep(vms, VmKey);
      assert vms == vms[..|vms| - 1] + [vms[|vms| - 1]];
    }
  }

  function MergedNodes(nodes: seq<Option<Node>>): seq<Option<Node>> {
    var keys := Keys(nodes, NodeKey);
    seq(|keys|, i requires 0 <= i < |keys| => Kept(nodes, keys[i]))
  }

  function MergedVms(vms: seq<Option<VM>>): seq<Option<VM>> {
    var keys := Keys(vms, VmKey);
    seq(|keys|, i requires 0 <= i < |keys| => First(vms, keys[i]))
  }

  // ---- The program ----

  /** The table after a prefix of the input: the keys seen, in order, and the copy kept for each. */
  ghost predicate Table<T>(seen: map<string, Option<T>>, order: seq<string>, keys: seq<string>,
                           kept: string -> Option<T>)
  {
    && order == keys && (forall k :: k in seen <==> k in order) && forall k :: k in seen ==> seen[k] == kept(k)
  }

  lemma NoKeys<T>(items: seq<Option<T>>, keyOf: T -> string)
    requires items == []
    ensures Keys(items, keyOf) == []
  {}

  lemma KeysStep<T>(before: seq<Option<T>>, item: Option<T>, keyOf: T -> string)
    ensures Keys(before + [item], keyOf)
         == if item.None? || keyOf(item.value) in Keys(before, keyOf) then Keys(before, keyOf)
            else Keys(before, keyOf) + [keyOf(item.value)]
  {}

  lemma NodeStep(before: seq<Option<Node>>, item: Option<Node>)
    ensures Keys(before + [item], NodeKey)
         == if item.None? || NodeKey(item.value) in Keys(before, NodeKey) then Keys(before, NodeKey)
            else Keys(before, NodeKey) + [NodeKey(item.value)]
    ensures forall k :: Kept(before + [item], k)
                     == var kept := Kept(before, k);
                        if item.None? || NodeKey(item.value) != k then kept
                        else if kept.None? then item
                        else if !IsPlaceholder(item.value) && !kept.value.online && item.value.online then item
                        else kept
  {}

  lemma VmStep(before: seq<Option<VM>>, item: Option<VM>)
    ensures Keys(before + [item], VmKey)
         == if item.None? || VmKey(item.value) in Keys(before, VmKey) then Keys(before, VmKey)
            else Keys(before, VmKey) + [VmKey(item.value)]
    ensures forall k :: k in Keys(before, VmKey) ==> First(before + [item], k) == First(before, k)
    ensures item.Some? && VmKey(item.value) !in Keys(before, VmKey) ==>
        First(before + [item], VmKey(item.value)) == item
  {
    KeysStep(before, item, VmKey);
    assert (before + [item])[..|before|] == before;
    forall k ensures First(before, k).Some? <==> k in Keys(before, VmKey) { FirstIsACopy(before, k); }
  }

  method GatherNode(seen0: map<string, Option<Node>>, order0: seq<string>, item: Option<Node>,
                    ghost before: seq<Option<Node>>)
    returns (seen: map<string, Option<Node>>, order: seq<string>)
    requires Table(seen0, order0, Keys(before, NodeKey), k => Kept(before, k))
    ensures Table(seen, order, Keys(before + [item], NodeKey), k => Kept(before + [item], k))
  {
    hide Keys, Kept, IsPlaceholder;
    seen, order := seen0, order0;
    NodeStep(before, item);
    if item.Some? {
      var node := item.value;
      var key := NodeKey(node);
      KeptIsACopy(before, key);
      if IsPlaceholder(node) {
        if key !in seen {
          seen := seen[key := item];
          order := order + [key];
        }
      } else if key !in seen {
        seen := seen[key := item];
        order := order + [key];
      } else if !seen[key].value.online && node.online {
        seen := seen[key := item];
      }
    }
  }

  method GatherVm(seen0: map<string, Option<VM>>, order0: seq<string>, item: Option<VM>, ghost before: seq<Option<VM>>)
    returns (seen: map<string, Option<VM>>, order: seq<string>)
    requires Table(seen0, order0, Keys(before, VmKey), k => First(before, k))
    ensures Table(seen, order, Keys(before + [item], VmKey), k => First(before + [item], k))
  {
    hide Keys, First, VmKey;
    seen, order := seen0, order0;
    VmStep(before, item);
    if item.Some? {
      var key := VmKey(item.value);
      if key !in seen {
        seen := seen[key := item];
        order := order + [key];
      }
    }
  }

  method InOrder<T>(seen: map<string, Option<T>>, order: seq<string>) returns (out: seq<Option<T>>)
    requires forall k :: k in order ==> k in seen
    ensures |out| == |order| && forall i :: 0 <= i < |order| ==> out[i] == seen[order[i]]
  {
    out := [];
    for i := 0 to |order|
      invariant |out| == i && forall j :: 0 <= j < i ==> out[j] == seen[order[j]]
    {
      out := out + [seen[order[i]]];
    }
  }

  method DeduplicateNodes(nodes: seq<Option<Node>>) returns (out: seq<Option<Node>>)
    ensures out == MergedNodes(nodes)
    ensures (forall i :: 0 <= i < |nodes| && nodes[i].Some? ==> PlainNode(nodes[i].value)) ==>
              && (forall p :: 0 <= p < |out| ==> out[p].Some? && out[p] in nodes)
              && (forall i :: 0 <= i < |nodes| && nodes[i].Some? ==>
                    exists p :: 0 <= p < |out| && SameNode(out[p].value, nodes[i].value))
              && (forall p, q :: 0 <= p < q < |out| ==> !SameNode(out[p].value, out[q].value))
  {
    if forall i :: 0 <= i < |nodes| && nodes[i].Some? ==> PlainNode(nodes[i].value) { MergedOnce(nodes); }
    hide Keys, Kept, SameNode, PlainNode;
    assert Keys(nodes[..0], NodeKey) == [] by { NoKeys(nodes[..0], NodeKey); }
    var seen: map<string, Option<Node>> := map[];
    var order: seq<string> := [];
    for i := 0 to |nodes|
      invariant Table(seen, order, Keys(nodes[..i], NodeKey), k => Kept(nodes[..i], k))
    {
      seen, order := GatherNode(seen, order, nodes[i], nodes[..i]);
      assert nodes[..i + 1] == nodes[..i] + [nodes[i]];
    }
    assert nodes[..|nodes|] == nodes;
    out := InOrder(seen, order);
  }

  method DeduplicateVms(vms: seq<Option<VM>>) returns (out: seq<Option<VM>>)
    ensures out == MergedVms(vms)
  {
    hide Keys, First;
    assert Keys(vms[..0], VmKey) == [] by { NoKeys(vms[..0], VmKey); }
    var seen: map<string, Option<VM>> := map[];
    var order: seq<string> := [];
    for i := 0 to |vms|
      invariant Table(seen, order, Keys(vms[..i], VmKey), k => First(vms[..i], k))
    {
      seen, order := GatherVm(seen, order, vms[i], vms[..i]);
      assert vms[..i + 1] == vms[..i] + [vms[i]];
    }
    assert vms[..|vms|] == vms;
    out := InOrder(seen, order);
  }

  // ---- Timing does not matter where it should not ----

  /** Some copy of the node says it is online. */
  predicate SomeOnline(nodes: seq<Option<Node>>, key: string) {
    exists i :: 0 <= i < |nodes| && IsCopy(nodes[i], NodeKey, key) && nodes[i].value.online
  }

  predicate IsPlaceholderKey(key: string) { HasPrefix(key, "placeholder|") }

  lemma KeyKind(node: Node)
    ensures IsPlaceholder(node) <==> IsPlaceholderKey(NodeKey(node))
  {
    if IsPlaceholder(node) {
      assert NodeKey(node)[..12] == "placeholder|";
    } else {
      assert NodeKey(node)[0] == 'n';
      assert "placeholder|"[0] == 'p';
    }
  }

  /** A merged node is online exactly when some copy of it is. */
  lemma {:induction false} OnlineIfAnyCopyIs(nodes: seq<Option<Node>>, key: string)
    requires !IsPlaceholderKey(key) && Kept(nodes, key).Some?
    ensures Kept(nodes, key).value.online <==> SomeOnline(nodes, key)
  {
    var n := |nodes| - 1;
    var front := nodes[..n];
    if IsCopy(nodes[n], NodeKey, key) { KeyKind(nodes[n].value); }
    if Kept(front, key).Some? {
      OnlineIfAnyCopyIs(front, key);
    } else {
      KeptIsACopy(front, key);
    }
    SomeOnlineStep(nodes, key);
  }

  lemma SomeOnlineStep(nodes: seq<Option<Node>>, key: string)
    requires nodes != []
    ensures var n := |nodes| - 1;
            SomeOnline(nodes, key) <==>
            SomeOnline(nodes[..n], key) || (IsCopy(nodes[n], NodeKey, key) && nodes[n].value.online)
    ensures SomeOnline(nodes, key) ==> HasKey(nodes, NodeKey, key)
    ensures SomeOnline(nodes[..|nodes| - 1], key) ==> HasKey(nodes[..|nodes| - 1], NodeKey, key)
  {}

  lemma SameMembers<T>(a: seq<T>, b: seq<T>)
    requires multiset(a) == multiset(b)
    ensures forall x :: x in a <==> x in b
  {
    forall x ensures x in a <==> x in b {
      assert x in a <==> x in multiset(a);
      assert x in b <==> x in multiset(b);
    }
  }

  /** In whatever order the profiles answer, the merge has the same keys and each node the same online flag. */
  lemma TimingIndependent(nodes: seq<Option<Node>>, nodes': seq<Option<Node>>, key: string)
    requires multiset(nodes) == multiset(nodes')
    ensures key in Keys(nodes, NodeKey) <==> key in Keys(nodes', NodeKey)
    ensures key in Keys(nodes, NodeKey) && !IsPlaceholderKey(key) ==>
              Kept(nodes, key).Some? && Kept(nodes', key).Some?
                && Kept(nodes, key).value.online == Kept(nodes', key).value.online
  {
    SameMembers(nodes, nodes');
    if HasKey(nodes, NodeKey, key) { MovedCopy(nodes, nodes', NodeKey, key); }
    if HasKey(nodes', NodeKey, key) { MovedCopy(nodes', nodes, NodeKey, key); }
    KeptIsACopy(nodes, key);
    KeptIsACopy(nodes', key);
    if key in Keys(nodes, NodeKey) && !IsPlaceholderKey(key) {
      OnlineIfAnyCopyIs(nodes, key);
      OnlineIfAnyCopyIs(nodes', key);
      if SomeOnline(nodes, key) { MovedOnline(nodes, nodes', key); }
      if SomeOnline(nodes', key) { MovedOnline(nodes', nodes, key); }
    }
  }

  lemma MovedCopy<T>(items: seq<Option<T>>, items': seq<Option<T>>, keyOf: T -> string, key: string)
    requires HasKey(items, keyOf, key) && forall x :: x in items ==> x in items'
    ensures HasKey(items', keyOf, key)
  {
    var i :| 0 <= i < |items| && IsCopy(items[i], keyOf, key);
    assert items[i] in items';
  }

  lemma MovedOnline(nodes: seq<Option<Node>>, nodes': seq<Option<Node>>, key: string)
    requires SomeOnline(nodes, key) && forall x :: x in nodes ==> x in nodes'
    ensures SomeOnline(nodes', key)
  {
    var i :| 0 <= i < |nodes| && IsCopy(nodes[i], NodeKey, key) && nodes[i].value.online;
    assert nodes[i] in nodes';
  }

  /** What `view` shows of the item that `pick` chooses is the same in whatever order the items arrive. */
  ghost predicate OrderFree<T(!new), U>(items: seq<Option<T>>, pick: seq<Option<T>> -> Option<T>,
                                        view: Option<T> -> U)
  {
    forall p :: multiset(p) == multiset(items) ==> view(pick(p)) == view(pick(items))
  }

  ghost predicate LookAlike<T(!new), U>(items: seq<Option<T>>, candidate: Option<T> -> bool, view: Option<T> -> U) {
    forall a, b :: a in items && b in items && candidate(a) && candidate(b) ==> view(a) == view(b)
  }

  /** When a choice always takes the first candidate, its view is independent of the order of the items exactly
      when all candidates look alike. */
  lemma OrderMatters<T(!new), U>(items: seq<Option<T>>, pick: seq<Option<T>> -> Option<T>, candidate: Option<T> -> bool,
                           view: Option<T> -> U)
    requires forall p :: multiset(p) == multiset(items) ==> pick(p) in p && candidate(pick(p))
    requires forall p :: multiset(p) == multiset(items) && p != [] && candidate(p[0]) ==> pick(p) == p[0]
    ensures OrderFree(items, pick, view) <==> LookAlike(items, candidate, view)
  {
    if OrderFree(items, pick, view) {
      forall a | a in items && candidate(a) ensures view(a) == view(pick(items)) {
        var front := MovedToFront(items, a);
        assert pick(front) == a;
      }
    } else {
      var p :| multiset(p) == multiset(items) && view(pick(p)) != view(pick(items));
      SameMembers(p, items);
      assert pick(p) in items && pick(items) in items;
    }
  }

  lemma MovedToFront<T>(items: seq<T>, a: T) returns (front: seq<T>)
    requires a in items
    ensures multiset(front) == multiset(items) && front != [] && front[0] == a
  {
    var i :| 0 <= i < |items| && items[i] == a;
    front := [a] + (items[..i] + items[i + 1..]);
    assert items == items[..i] + [a] + items[i + 1..];
  }

  /** The copies of which the merge keeps the first: the online ones if there are any, else all of them, and for
      a placeholder always all of them. */
  predicate Eligible(nodes: seq<Option<Node>>, item: Option<Node>, key: string) {
    IsCopy(item, NodeKey, key) && (IsPlaceholderKey(key) || item.value.online || !SomeOnline(nodes, key))
  }

  lemma {:induction false} FirstOnlineKept(nodes: seq<Option<Node>>, key: string, i: nat)
    requires !IsPlaceholderKey(key) && i < |nodes| && IsCopy(nodes[i], NodeKey, key) && nodes[i].value.online
    requires forall j :: 0 <= j < i && IsCopy(nodes[j], NodeKey, key) ==> !nodes[j].value.online
    ensures Kept(nodes, key) == nodes[i]
  {
    hide NodeKey, IsPlaceholder, IsPlaceholderKey;
    var n := |nodes| - 1;
    if nodes[n].Some? { KeyKind(nodes[n].value); }
    if i < n {
      FirstOnlineKept(nodes[..n], key, i);
    } else if Kept(nodes[..n], key).Some? {
      OnlineIfAnyCopyIs(nodes[..n], key);
    }
  }

  lemma {:induction false} FirstCopyKept(nodes: seq<Option<Node>>, key: string, i: nat)
    requires IsPlaceholderKey(key) || !SomeOnline(nodes, key)
    requires i < |nodes| && IsCopy(nodes[i], NodeKey, key) && forall j :: 0 <= j < i ==> !IsCopy(nodes[j], NodeKey, key)
    ensures Kept(nodes, key) == nodes[i]
  {
    hide NodeKey, IsPlaceholder, IsPlaceholderKey;
    var n := |nodes| - 1;
    if nodes[n].Some? { KeyKind(nodes[n].value); }
    SomeOnlineStep(nodes, key);
    KeptIsACopy(nodes[..n], key);
    if i < n { FirstCopyKept(nodes[..n], key, i); }
  }

  lemma KeptIsFirstEligible(nodes: seq<Option<Node>>, key: string)
    requires nodes != [] && Eligible(nodes, nodes[0], key)
    ensures Kept(nodes, key) == nodes[0]
  {
    if nodes[0].value.online && !IsPlaceholderKey(key) {
      FirstOnlineKept(nodes, key, 0);
    } else {
      FirstCopyKept(nodes, key, 0);
    }
  }

  lemma KeptIsEligible(nodes: seq<Option<Node>>, key: string)
    requires HasKey(nodes, NodeKey, key)
    ensures Kept(nodes, key) in nodes && Eligible(nodes, Kept(nodes, key), key)
  {
    hide NodeKey, IsPlaceholderKey;
    KeptIsACopy(nodes, key);
    if !IsPlaceholderKey(key) { OnlineIfAnyCopyIs(nodes, key); }
  }

  /** Which node is kept, or any part of it, is independent of the order of arrival exactly when all eligible
      copies look alike. */
  lemma NodeTiming<U>(nodes: seq<Option<Node>>, key: string, view: Option<Node> -> U)
    requires HasKey(nodes, NodeKey, key)
    ensures OrderFree(nodes, p => Kept(p, key), view) <==> LookAlike(nodes, item => Eligible(nodes, item, key), view)
  {
    hide NodeKey, Kept, IsPlaceholderKey, Eligible, OrderFree, LookAlike;
    forall p | multiset(p) == multiset(nodes)
      ensures Kept(p, key) in p && Eligible(nodes, Kept(p, key), key)
      ensures p != [] && Eligible(nodes, p[0], key) ==> Kept(p, key) == p[0]
    {
      SameEligible(nodes, p, key);
      KeptIsEligible(p, key);
      if p != [] && Eligible(nodes, p[0], key) { KeptIsFirstEligible(p, key); }
    }
    OrderMatters(nodes, p => Kept(p, key), item => Eligible(nodes, item, key), view);
  }

  lemma SameEligible(nodes: seq<Option<Node>>, nodes': seq<Option<Node>>, key: string)
    requires multiset(nodes) == multiset(nodes')
    ensures HasKey(nodes, NodeKey, key) ==> HasKey(nodes', NodeKey, key) && nodes' != []
    ensures forall item :: Eligible(nodes', item, key) <==> Eligible(nodes, item, key)
  {
    hide NodeKey, IsPlaceholderKey;
    SameMembers(nodes, nodes');
    if HasKey(nodes, NodeKey, key) { MovedCopy(nodes, nodes', NodeKey, key); }
    if SomeOnline(nodes, key) { MovedOnline(nodes, nodes', key); }
    if SomeOnline(nodes', key) { MovedOnline(nodes', nodes, key); }
  }

  /** A placeholder's online flag is independent of the order of arrival exactly when its copies agree on it. */
  lemma PlaceholderTiming(nodes: seq<Option<Node>>, key: string)
    requires IsPlaceholderKey(key) && HasKey(nodes, NodeKey, key)
    ensures OrderFree(nodes, p => Kept(p, key), Online)
       <==> forall a, b :: a in nodes && b in nodes && IsCopy(a, NodeKey, key) && IsCopy(b, NodeKey, key) ==>
              Online(a) == Online(b)
  {
    hide Kept, NodeKey, OrderFree;
    NodeTiming(nodes, key, Online);
    assert forall item :: Eligible(nodes, item, key) <==> IsCopy(item, NodeKey, key);
  }

  predicate Online(item: Option<Node>) { item.Some? && item.value.online }

  lemma FirstIsFirst(vms: seq<Option<VM>>, key: string)
    requires vms != [] && IsCopy(vms[0], VmKey, key)
    ensures First(vms, key) == vms[0]
  {
    if |vms| > 1 { FirstIsFirst(vms[..|vms| - 1], key); }
  }

  /** Which guest is kept, or any part of it, is independent of the order of arrival exactly when its copies look
      alike. Copies that different profiles reported never do. */
  lemma GuestTiming<U>(vms: seq<Option<VM>>, key: string, view: Option<VM> -> U)
    requires HasKey(vms, VmKey, key)
    ensures OrderFree(vms, p => First(p, key), view) <==> LookAlike(vms, item => IsCopy(item, VmKey, key), view)
  {
    hide VmKey, First, OrderFree, LookAlike;
    forall p | multiset(p) == multiset(vms)
      ensures First(p, key) in p && IsCopy(First(p, key), VmKey, key)
      ensures p != [] && IsCopy(p[0], VmKey, key) ==> First(p, key) == p[0]
    {
      SameMembers(vms, p);
      MovedCopy(vms, p, VmKey, key);
      FirstIsACopy(p, key);
      if p != [] && IsCopy(p[0], VmKey, key) { FirstIsFirst(p, key); }
    }
    OrderMatters(vms, p => First(p, key), item => IsCopy(item, VmKey, key), view);
  }

  /** The merge of the guests has the same keys in whatever order the profiles answer. */
  lemma GuestsTimingIndependent(vms: seq<Option<VM>>, vms': seq<Option<VM>>, key: string)
    requires multiset(vms) == multiset(vms')
    ensures key in Keys(vms, VmKey) <==> key in Keys(vms', VmKey)
  {
    SameMembers(vms, vms');
    if HasKey(vms, VmKey, key) { MovedCopy(vms, vms', VmKey, key); }
    if HasKey(vms', VmKey, key) { MovedCopy(vms', vms, VmKey, key); }
  }

  /** Keys stand in the order of their first copies: before any copy of a later key there is one of each earlier key. */
  lemma {:induction false} FirstAppearance<T>(items: seq<Option<T>>, keyOf: T -> string, i: nat, j: nat, p: nat)
    requires i < j < |Keys(items, keyOf)| && p < |items| && IsCopy(items[p], keyOf, Keys(items, keyOf)[j])
    ensures exists q :: 0 <= q < p && IsCopy(items[q], keyOf, Keys(items, keyOf)[i])
  {
    var n := |items| - 1;
    var front := Keys(items[..n], keyOf);
    if p < n {
      assert IsCopy(items[..n][p], keyOf, Keys(items, keyOf)[j]);
      assert HasKey(items[..n], keyOf, Keys(items, keyOf)[j]);
      FirstAppearance(items[..n], keyOf, i, j, p);
      var q :| 0 <= q < p && IsCopy(items[..n][q], keyOf, front[i]);
      assert IsCopy(items[q], keyOf, Keys(items, keyOf)[i]);
    } else {
      assert front[i] in front;
      var q :| 0 <= q < |items[..n]| && IsCopy(items[..n][q], keyOf, front[i]);
      assert IsCopy(items[q], keyOf, Keys(items, keyOf)[i]);
    }
  }

  // ---- Merging twice ----

  /** The merge has no duplicate key, and its nodes stand in order of first appearance. */
  lemma MergedKeys(nodes: seq<Option<Node>>)
    ensures Keys(MergedNodes(nodes), NodeKey) == Keys(nodes, NodeKey)
    ensures forall i :: 0 <= i < |MergedNodes(nodes)| ==>
        IsCopy(MergedNodes(nodes)[i], NodeKey, Keys(nodes, NodeKey)[i])
  {
    var keys, merged := Keys(nodes, NodeKey), MergedNodes(nodes);
    forall i | 0 <= i < |merged| ensures IsCopy(merged[i], NodeKey, keys[i]) {
      assert keys[i] in keys;
      KeptIsACopy(nodes, keys[i]);
    }
    DistinctKeys(merged, NodeKey, keys);
  }

  lemma {:induction false} DistinctKeys<T>(items: seq<Option<T>>, keyOf: T -> string, keys: seq<string>)
    requires |items| == |keys| && forall i :: 0 <= i < |items| ==> IsCopy(items[i], keyOf, keys[i])
    requires forall i, j :: 0 <= i < j < |keys| ==> keys[i] != keys[j]
    ensures Keys(items, keyOf) == keys
  {
    if items != [] {
      var n := |items| - 1;
      DistinctKeys(items[..n], keyOf, keys[..n]);
      assert keys == keys[..n] + [keys[n]];
    }
  }

  lemma {:induction false} KeptAmongDistinct(nodes: seq<Option<Node>>, keys: seq<string>, i: nat)
    requires |nodes| == |keys| && i < |nodes| && forall j :: 0 <= j < |nodes| ==> IsCopy(nodes[j], NodeKey, keys[j])
    requires forall j, k :: 0 <= j < k < |keys| ==> keys[j] != keys[k]
    ensures Kept(nodes, keys[i]) == nodes[i]
  {
    var n := |nodes| - 1;
    if i < n {
      KeptAmongDistinct(nodes[..n], keys[..n], i);
    } else {
      KeptIsACopy(nodes[..n], keys[n]);
    }
  }

  /** De-duplicating twice changes nothing. */
  lemma MergeIdempotent(nodes: seq<Option<Node>>)
    ensures MergedNodes(MergedNodes(nodes)) == MergedNodes(nodes)
  {
    var merged, keys := MergedNodes(nodes), Keys(nodes, NodeKey);
    MergedKeys(nodes);
    forall i | 0 <= i < |keys| ensures Kept(merged, keys[i]) == merged[i] { KeptAmongDistinct(merged, keys, i); }
  }

  lemma {:induction false} FirstAmongDistinct(vms: seq<Option<VM>>, keys: seq<string>, i: nat)
    requires |vms| == |keys| && i < |vms| && forall j :: 0 <= j < |vms| ==> IsCopy(vms[j], VmKey, keys[j])
    requires forall j, k :: 0 <= j < k < |keys| ==> keys[j] != keys[k]
    ensures First(vms, keys[i]) == vms[i]
  {
    var n := |vms| - 1;
    if i < n {
      FirstAmongDistinct(vms[..n], keys[..n], i);
    } else {
      FirstIsACopy(vms[..n], keys[n]);
    }
  }

  /** So it is for guests: no duplicate key, order of first appearance kept, and nothing left to merge. */
  lemma GuestMergeIdempotent(vms: seq<Option<VM>>)
    ensures Keys(MergedVms(vms), VmKey) == Keys(vms, VmKey)
    ensures MergedVms(MergedVms(vms)) == MergedVms(vms)
  {
    var merged, keys := MergedVms(vms), Keys(vms, VmKey);
    forall i | 0 <= i < |merged| ensures IsCopy(merged[i], VmKey, keys[i]) { MergedCopy(vms, i); }
    DistinctKeys(merged, VmKey, keys);
    forall i | 0 <= i < |keys| ensures First(merged, keys[i]) == merged[i] { FirstAmongDistinct(merged, keys, i); }
  }

  // ---- Which nodes are one ----

  /** A node that is no placeholder and has a name or an address. */
  predicate Ordinary(node: Node) { !HasPrefix(node.id, "offline-") && (node.name != "" || node.ip != "") }

  /** A node that is no placeholder and has neither. */
  predicate Blank(node: Node) { !HasPrefix(node.id, "offline-") && node.name == "" && node.ip == "" }

  lemma OrdinaryNodeKey(node: Node)
    requires Ordinary(node)
    ensures NodeKey(node) == "node|" + (node.name + ("|" + node.ip))
  {
    assert "node|" + node.name + "|" + node.ip == "node|" + (node.name + ("|" + node.ip));
    assert |"node|" + node.name + "|" + node.ip| > |"node||"|;
  }

  lemma BlankNodeKey(node: Node)
    requires Blank(node)
    ensures NodeKey(node) == "node|" + (node.id + ("|" + node.sourceProfile))
  {
    assert "node|" + node.name + "|" + node.ip == "node||";
    assert "node|" + node.id + "|" + node.sourceProfile == "node|" + (node.id + ("|" + node.sourceProfile));
  }

  /** Which nodes share a key: placeholders of one identifier; nodes of one name and address; and of the nodes with
      neither, those of one identifier and profile. Names, and the identifiers of the latter, hold no bar. */
  lemma NodeKeyIdentifies(a: Node, b: Node)
    ensures HasPrefix(a.id, "offline-") && HasPrefix(b.id, "offline-") ==> (NodeKey(a) == NodeKey(b) <==> a.id == b.id)
    ensures HasPrefix(a.id, "offline-") != HasPrefix(b.id, "offline-") ==> NodeKey(a) != NodeKey(b)
    ensures Ordinary(a) && Ordinary(b) && '|' !in a.name && '|' !in b.name ==>
              (NodeKey(a) == NodeKey(b) <==> a.name == b.name && a.ip == b.ip)
    ensures Blank(a) && Blank(b) && '|' !in a.id && '|' !in b.id ==>
              (NodeKey(a) == NodeKey(b) <==> a.id == b.id && a.sourceProfile == b.sourceProfile)
    ensures Blank(a) && Ordinary(b) && '|' !in a.id && '|' !in b.name ==>
              (NodeKey(a) == NodeKey(b) <==> a.id == b.name && a.sourceProfile == b.ip)
  {
    KeyKind(a);
    KeyKind(b);
    SameHead("placeholder|", a.id, b.id);
    if Ordinary(a) { OrdinaryNodeKey(a); }
    if Ordinary(b) { OrdinaryNodeKey(b); }
    if Blank(a) { BlankNodeKey(a); }
    if Blank(b) { BlankNodeKey(b); }
    PairKeys(a.name, a.ip, b.name, b.ip);
    PairKeys(a.id, a.sourceProfile, b.id, b.sourceProfile);
    PairKeys(a.id, a.sourceProfile, b.name, b.ip);
    hide NodeKey;
  }

  lemma PairKeys(a: string, restA: string, b: string, restB: string)
    ensures '|' !in a && '|' !in b ==>
              ("node|" + (a + ("|" + restA)) == "node|" + (b + ("|" + restB)) <==> a == b && restA == restB)
  {
    if '|' !in a && '|' !in b {
      SameHead("node|", a + ("|" + restA), b + ("|" + restB));
      CutAtBar(a, restA, b, restB);
    }
  }

  /** Two reports are of one node: placeholders of one identifier, or ordinary nodes of one name and address. */
  predicate SameNode(a: Node, b: Node) {
    if HasPrefix(a.id, "offline-") || HasPrefix(b.id, "offline-") then a.id == b.id
    else a.name == b.name && a.ip == b.ip
  }

  /** The reports whose identity is plain: no bar in a name, and none without name and address. */
  predicate PlainNode(node: Node) { HasPrefix(node.id, "offline-") || (Ordinary(node) && '|' !in node.name) }

  /** Every report is in the merge, as itself or as another report of the same node, and no node is there twice. */
  lemma MergedOnce(nodes: seq<Option<Node>>)
    requires forall i :: 0 <= i < |nodes| && nodes[i].Some? ==> PlainNode(nodes[i].value)
    ensures forall p :: 0 <= p < |MergedNodes(nodes)| ==> MergedNodes(nodes)[p].Some? && MergedNodes(nodes)[p] in nodes
    ensures forall i :: 0 <= i < |nodes| && nodes[i].Some? ==>
              exists p :: 0 <= p < |MergedNodes(nodes)| && SameNode(MergedNodes(nodes)[p].value, nodes[i].value)
    ensures forall p, q :: 0 <= p < q < |MergedNodes(nodes)| ==>
              !SameNode(MergedNodes(nodes)[p].value, MergedNodes(nodes)[q].value)
  {
    hide NodeKey, Kept, SameNode, PlainNode;
    var keys, merged := Keys(nodes, NodeKey), MergedNodes(nodes);
    forall p | 0 <= p < |merged| ensures IsCopy(merged[p], NodeKey, keys[p]) && merged[p] in nodes {
      assert keys[p] in keys;
      KeptIsACopy(nodes, keys[p]);
    }
    forall i | 0 <= i < |nodes| && nodes[i].Some?
      ensures exists p :: 0 <= p < |merged| && SameNode(merged[p].value, nodes[i].value)
    {
      assert IsCopy(nodes[i], NodeKey, NodeKey(nodes[i].value));
      assert NodeKey(nodes[i].value) in keys;
      var p :| 0 <= p < |keys| && keys[p] == NodeKey(nodes[i].value);
      SameKeySameNode(merged[p].value, nodes[i].value);
    }
    forall p, q | 0 <= p < q < |merged| ensures !SameNode(merged[p].value, merged[q].value) {
      SameKeySameNode(merged[p].value, merged[q].value);
    }
  }

  lemma SameKeySameNode(a: Node, b: Node)
    requires PlainNode(a) && PlainNode(b)
    ensures NodeKey(a) == NodeKey(b) <==> SameNode(a, b)
  {
    NodeKeyIdentifies(a, b);
    hide NodeKey;
  }

  /** Guests without kind, number and node are told apart by name and profile. */
  lemma BlankVmKeyIdentifies(a: VM, b: VM)
    requires a.kind == "" && a.id == 0 && a.node == "" && b.kind == "" && b.id == 0 && b.node == ""
    requires '|' !in a.name && '|' !in b.name
    ensures VmKey(a) == VmKey(b) <==> a.name == b.name && a.sourceProfile == b.sourceProfile
  {
    BlankVmKey(a);
    BlankVmKey(b);
    hide VmKey;
    SameHead("vm|fallback|", a.name + ("|" + ("|" + a.sourceProfile)), b.name + ("|" + ("|" + b.sourceProfile)));
    CutAtBar(a.name, "|" + a.sourceProfile, b.name, "|" + b.sourceProfile);
    SameHead("|", a.sourceProfile, b.sourceProfile);
  }

  lemma BlankVmKey(vm: VM)
    requires vm.kind == "" && vm.id == 0 && vm.node == ""
    ensures VmKey(vm) == "vm|fallback|" + (vm.name + ("|" + ("|" + vm.sourceProfile)))
  {
    DecZero();
    assert "vm|" + "" + "|" + "0" + "|" + "" == "vm||0|";
    assert "vm|fallback|" + vm.name + "|" + "" + "|" + vm.sourceProfile
        == "vm|fallback|" + (vm.name + ("|" + ("|" + vm.sourceProfile)));
  }

  // ---- Finding a guest by number ----

  datatype Found = NotFound | Unique(vm: VM) | Ambiguous(matches: seq<VM>)

  function Matches(vms: seq<Option<VM>>, id: int): seq<VM> {
    if vms == [] then []
    else
      var n := |vms| - 1;
      Matches(vms[..n], id) + if vms[n].Some? && vms[n].value.id == id then [vms[n].value] else []
  }

  /** FindVMByIDInGroup on the merged guests, which the caller has sorted in some way. */
  method FindVmById(sorted: seq<Option<VM>>, id: int) returns (found: Found)
    requires forall i :: 0 <= i < |sorted| ==> sorted[i].Some?
    ensures var matches := Matches(sorted, id);
            found == if |matches| == 0 then NotFound else if |matches| == 1 then Unique(matches[0])
              else Ambiguous(matches)
  {
    var matches: seq<VM> := [];
    for i := 0 to |sorted|
      invariant matches == Matches(sorted[..i], id)
    {
      assert sorted[..i + 1][..i] == sorted[..i];
      if sorted[i].value.id == id { matches := matches + [sorted[i].value]; }
    }
    assert sorted[..|sorted|] == sorted;
    match |matches|
    case 0 => return NotFound;
    case 1 => return Unique(matches[0]);
    case _ => return Ambiguous(matches);
  }

  // ---- What the search finds ----

  /** A kind without a bar, of a guest that is not blank altogether: the client only lists kinds qemu and lxc. */
  predicate PlainKind(vm: VM) { '|' !in vm.kind && !(vm.kind == "" && vm.id == 0 && vm.node == "") }

  /** Among guests of a plain kind, a key is the kind, the number and the node. */
  lemma VmKeyIdentifies(a: VM, b: VM)
    requires PlainKind(a) && PlainKind(b)
    ensures VmKey(a) == VmKey(b) <==> a.kind == b.kind && a.id == b.id && a.node == b.node
  {
    var tailA, tailB := Dec(a.id) + ("|" + a.node), Dec(b.id) + ("|" + b.node);
    PlainVmKey(a);
    PlainVmKey(b);
    if VmKey(a) == VmKey(b) {
      SameHead("vm|", a.kind + ("|" + tailA), b.kind + ("|" + tailB));
      CutAtBar(a.kind, tailA, b.kind, tailB);
      ParseDec(a.id);
      ParseDec(b.id);
      CutAtBar(Dec(a.id), a.node, Dec(b.id), b.node);
      DecInjective(a.id, b.id);
    }
  }

  lemma PlainVmKey(vm: VM)
    requires PlainKind(vm)
    ensures VmKey(vm) == "vm|" + (vm.kind + ("|" + (Dec(vm.id) + ("|" + vm.node))))
  {
    hide Dec;
    var tail := Dec(vm.id) + ("|" + vm.node);
    assert "vm|" + vm.kind + "|" + Dec(vm.id) + "|" + vm.node == "vm|" + (vm.kind + ("|" + tail));
    assert "vm||0|" == "vm|" + ("" + ("|" + ("0" + ("|" + ""))));
    SameHead("vm|", vm.kind + ("|" + tail), "" + ("|" + ("0" + ("|" + ""))));
    CutAtBar(vm.kind, tail, "", "0" + ("|" + ""));
    ParseDec(vm.id);
    CutAtBar(Dec(vm.id), vm.node, "0", "");
    assert Dec(0) == "0" by { DecZero(); }
    DecInjective(vm.id, 0);
  }

  lemma DecZero()
    ensures Dec(0) == "0"
  {}

  /** Text before the first bar is determined by the whole. */
  lemma CutAtBar(a: string, restA: string, b: string, restB: string)
    requires '|' !in a && '|' !in b
    ensures a + ("|" + restA) == b + ("|" + restB) ==> a == b && restA == restB
  {
    var x, y := a + ("|" + restA), b + ("|" + restB);
    assert x[|a|] == '|' && y[|b|] == '|';
    assert forall i :: 0 <= i < |a| ==> x[i] == a[i];
    assert forall i :: 0 <= i < |b| ==> y[i] == b[i];
    assert x == y ==> |a| == |b|;
    assert a == x[..|a|] && b == y[..|b|] && restA == x[|a| + 1..] && restB == y[|b| + 1..];
  }

  lemma {:induction false} MatchesCounted(vms: seq<Option<VM>>, id: int, vm: VM)
    ensures multiset(Matches(vms, id))[vm] == if vm.id == id then multiset(vms)[Some(vm)] else 0
  {
    if vms != [] {
      var n := |vms| - 1;
      MatchesCounted(vms[..n], id, vm);
      assert vms == vms[..n] + [vms[n]];
    }
  }

  lemma SortingKeepsCount(merged: seq<Option<VM>>, sorted: seq<Option<VM>>, id: int)
    requires multiset(sorted) == multiset(merged)
    ensures |Matches(sorted, id)| == |Matches(merged, id)|
  {
    forall vm ensures multiset(Matches(sorted, id))[vm] == multiset(Matches(merged, id))[vm] {
      MatchesCounted(sorted, id, vm);
      MatchesCounted(merged, id, vm);
    }
    assert multiset(Matches(sorted, id)) == multiset(Matches(merged, id));
    assert |multiset(Matches(sorted, id))| == |Matches(sorted, id)|;
    assert |multiset(Matches(merged, id))| == |Matches(merged, id)|;
  }

  predicate Holds(item: Option<VM>, id: int) { item.Some? && item.value.id == id }

  lemma {:induction false} NoMatch(items: seq<Option<VM>>, id: int)
    requires forall i :: 0 <= i < |items| ==> !Holds(items[i], id)
    ensures Matches(items, id) == []
  {
    if items != [] { NoMatch(items[..|items| - 1], id); }
  }

  lemma {:induction false} OneMatch(items: seq<Option<VM>>, id: int, i: nat)
    requires i < |items| && Holds(items[i], id) && forall j :: 0 <= j < |items| && j != i ==> !Holds(items[j], id)
    ensures |Matches(items, id)| == 1
  {
    var n := |items| - 1;
    if i < n { OneMatch(items[..n], id, i); } else { NoMatch(items[..n], id); }
  }

  lemma {:induction false} SomeMatch(items: seq<Option<VM>>, id: int, i: nat)
    requires i < |items| && Holds(items[i], id)
    ensures |Matches(items, id)| >= 1
  {
    if i < |items| - 1 { SomeMatch(items[..|items| - 1], id, i); }
  }

  lemma {:induction false} TwoMatches(items: seq<Option<VM>>, id: int, i: nat, j: nat)
    requires i < j < |items| && Holds(items[i], id) && Holds(items[j], id)
    ensures |Matches(items, id)| >= 2
  {
    var n := |items| - 1;
    if j < n { TwoMatches(items[..n], id, i, j); } else { SomeMatch(items[..n], id, i); }
  }

  /** All reports of the number have the same key. */
  predicate SameKey(vms: seq<Option<VM>>, id: int) {
    forall i, j :: 0 <= i < |vms| && 0 <= j < |vms| && Holds(vms[i], id) && Holds(vms[j], id) ==>
      VmKey(vms[i].value) == VmKey(vms[j].value)
  }

  /** Reports that share a key agree on the number. */
  predicate KeysCarryIds(vms: seq<Option<VM>>) {
    forall i, j :: 0 <= i < |vms| && 0 <= j < |vms| && vms[i].Some? && vms[j].Some? ==>
      (VmKey(vms[i].value) == VmKey(vms[j].value) ==> vms[i].value.id == vms[j].value.id)
  }

  /** What the search finds, in terms of what the profiles reported: nothing exactly when no profile reports the
      number, one guest exactly when all reports of it have one key, and an ambiguity otherwise. */
  lemma SearchIsExact(vms: seq<Option<VM>>, sorted: seq<Option<VM>>, id: int)
    requires KeysCarryIds(vms) && multiset(sorted) == multiset(MergedVms(vms))
    ensures |Matches(sorted, id)| == 0 <==> forall i :: 0 <= i < |vms| ==> !Holds(vms[i], id)
    ensures |Matches(sorted, id)| >= 2 <==> !SameKey(vms, id)
  {
    hide Matches, MergedVms, Keys, VmKey, KeysCarryIds;
    var merged := MergedVms(vms);
    SortingKeepsCount(merged, sorted, id);
    forall p | 0 <= p < |merged| ensures merged[p] in vms { MergedCopy(vms, p); }
    if i :| 0 <= i < |vms| && Holds(vms[i], id) {
      var p := WhereMerged(vms, i);
      if SameKey(vms, id) {
        forall q | 0 <= q < |merged| && q != p ensures !Holds(merged[q], id) { OnlyOneMerged(vms, id, p, q); }
        OneMatch(merged, id, p);
      } else {
        var a, b :| 0 <= a < |vms| && 0 <= b < |vms| && Holds(vms[a], id) && Holds(vms[b], id)
          && VmKey(vms[a].value) != VmKey(vms[b].value);
        var pa := WhereMerged(vms, a);
        var pb := WhereMerged(vms, b);
        if pa < pb { TwoMatches(merged, id, pa, pb); } else { TwoMatches(merged, id, pb, pa); }
      }
      SomeMatch(merged, id, p);
    } else {
      NoMatch(merged, id);
    }
  }

  /** Among guests of plain kinds that is: an ambiguity exactly when two reports differ in kind or node. Two profiles
      that report the same guest are none. */
  lemma PlainReports(vms: seq<Option<VM>>, id: int)
    requires forall i :: 0 <= i < |vms| && vms[i].Some? ==> PlainKind(vms[i].value)
    ensures KeysCarryIds(vms)
    ensures SameKey(vms, id) <==>
            forall i, j :: 0 <= i < |vms| && 0 <= j < |vms| && Holds(vms[i], id) && Holds(vms[j], id) ==>
              vms[i].value.kind == vms[j].value.kind && vms[i].value.node == vms[j].value.node
  {
    hide VmKey, PlainKind;
    forall i, j | 0 <= i < |vms| && 0 <= j < |vms| && vms[i].Some? && vms[j].Some?
      ensures var a, b := vms[i].value, vms[j].value;
              VmKey(a) == VmKey(b) <==> a.kind == b.kind && a.id == b.id && a.node == b.node
    {
      VmKeyIdentifies(vms[i].value, vms[j].value);
    }
  }

  lemma MergedCopy(vms: seq<Option<VM>>, p: nat)
    requires p < |MergedVms(vms)|
    ensures MergedVms(vms)[p] in vms && IsCopy(MergedVms(vms)[p], VmKey, Keys(vms, VmKey)[p])
  {
    assert Keys(vms, VmKey)[p] in Keys(vms, VmKey);
    FirstIsACopy(vms, Keys(vms, VmKey)[p]);
  }

  /** The place in the merge of the guest that one profile reported. */
  lemma WhereMerged(vms: seq<Option<VM>>, i: nat) returns (p: nat)
    requires KeysCarryIds(vms) && i < |vms| && vms[i].Some?
    ensures p < |MergedVms(vms)| && Holds(MergedVms(vms)[p], vms[i].value.id)
    ensures Keys(vms, VmKey)[p] == VmKey(vms[i].value)
  {
    hide VmKey;
    var key, keys := VmKey(vms[i].value), Keys(vms, VmKey);
    assert IsCopy(vms[i], VmKey, key);
    assert key in keys;
    p :| 0 <= p < |keys| && keys[p] == key;
    MergedCopy(vms, p);
    var k :| 0 <= k < |vms| && vms[k] == MergedVms(vms)[p];
  }

  lemma OnlyOneMerged(vms: seq<Option<VM>>, id: int, p: nat, q: nat)
    requires SameKey(vms, id) && p < |MergedVms(vms)| && q < |MergedVms(vms)| && p != q && Holds(MergedVms(vms)[p], id)
    ensures !Holds(MergedVms(vms)[q], id)
  {
    hide VmKey;
    var merged, keys := MergedVms(vms), Keys(vms, VmKey);
    MergedCopy(vms, p);
    MergedCopy(vms, q);
    var a :| 0 <= a < |vms| && vms[a] == merged[p];
    var b :| 0 <= b < |vms| && vms[b] == merged[q];
    assert keys[p] != keys[q];
  }
}
