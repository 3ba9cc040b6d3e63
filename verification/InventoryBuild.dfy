/** Building the inventory document from nodes and guests. */
module InventoryBuild {
  import opened Text
  import opened Inventory

  datatype Node = Node(name: string, ip: string, online: bool, sourceProfile: string)

  datatype Guest = Guest(id: int, name: string, ip: string, template: bool, kind: string, status: string, node: string,
                         osType: string, tags: string, sourceProfile: string)

  datatype Defaults = Defaults(nodeSshUser: string, vmSshUser: string, privateKeyFile: string, password: string,
                               inventoryVars: map<string, string>, style: Style)

  /** The parts of the document that hold variables: those of `all`, and per group and alias those of a host. */
  datatype Document = Document(vars: map<string, string>, children: map<string, map<string, map<string, string>>>)

  function ChooseTarget(ip: string, name: string): string {
    if TrimSpace(ip) != "" then TrimSpace(ip) else TrimSpace(name)
  }

  // ---- What a built inventory must be ----

  predicate DistinctAliases(hosts: seq<Host>) {
    forall i, j :: 0 <= i < j < |hosts| ==> hosts[i].alias != hosts[j].alias
  }

  function Members(hosts: seq<Host>, group: string): seq<Host> {
    if hosts == [] then []
    else
      var n := |hosts| - 1;
      Members(hosts[..n], group) + if group in hosts[n].groupNames then [hosts[n]] else []
  }

  function GroupOf(groups: map<string, seq<Host>>, group: string): seq<Host> {
    if group in groups then groups[group] else []
  }

  ghost predicate GroupsMatch(groups: map<string, seq<Host>>, hosts: seq<Host>) {
    forall g :: GroupOf(groups, g) == Members(hosts, g)
  }

  function IncludedNodes(nodes: seq<Option<Node>>): seq<Node> {
    if nodes == [] then []
    else
      var n := |nodes| - 1;
      IncludedNodes(nodes[..n]) + if HasTarget(nodes[n]) then [nodes[n].value] else []
  }

  predicate HasTarget(node: Option<Node>) { node.Some? && ChooseTarget(node.value.ip, node.value.name) != "" }

  function IncludedGuests(guests: seq<Option<Guest>>): seq<Guest> {
    if guests == [] then []
    else
      var n := |guests| - 1;
      IncludedGuests(guests[..n]) + if Included(guests[n]) then [guests[n].value] else []
  }

  predicate Included(guest: Option<Guest>) {
    guest.Some? && !guest.value.template && ChooseTarget(guest.value.ip, guest.value.name) != ""
  }

  /** The alias is the first free one of those that begin with `base`. */
  ghost predicate IsUniqueAlias(before: seq<Host>, base: string, alias: string) {
    exists probes: nat :: FirstFree(before, AliasBase(base), alias, probes)
  }

  /** The host of a node, when the hosts of `before` are there already. */
  ghost predicate NodeHost(before: seq<Host>, host: Host, node: Node, defaults: Defaults) {
    var target := ChooseTarget(node.ip, node.name);
    && IsUniqueAlias(before, "node_" + Sanitized(node.name), host.alias)
    && host.target == target && host.groupNames == NodeGroups(node)
    && Overlaid(host.vars, NodeVars(node, target, defaults), defaults.inventoryVars)
  }

  ghost predicate GuestHost(before: seq<Host>, host: Host, guest: Guest, defaults: Defaults) {
    var target := ChooseTarget(guest.ip, guest.name);
    && IsUniqueAlias(before, "guest_" + Dec(guest.id) + "_" + Sanitized(guest.name), host.alias)
    && host.target == target && host.groupNames == GuestGroups(guest)
    && Overlaid(host.vars, GuestVars(guest, target, defaults), defaults.inventoryVars)
  }

  /** One host per node, then one per guest, each with the alias, target, groups and variables it should have. */
  ghost predicate HostsFor(hosts: seq<Host>, nodes: seq<Node>, guests: seq<Guest>, defaults: Defaults) {
    && |hosts| == |nodes| + |guests|
    && (forall i :: 0 <= i < |nodes| ==> NodeHost(hosts[..i], hosts[i], nodes[i], defaults))
    && (forall i :: 0 <= i < |guests| ==>
          GuestHost(hosts[..|nodes| + i], hosts[|nodes| + i], guests[i], defaults))
  }

  lemma HostsForNode(hosts: seq<Host>, nodes: seq<Node>, defaults: Defaults, host: Host, node: Node)
    ensures HostsFor(hosts, nodes, [], defaults) && NodeHost(hosts, host, node, defaults) ==>
              HostsFor(hosts + [host], nodes + [node], [], defaults)
  {
    hide NodeHost, GuestHost;
    var longer := hosts + [host];
    if HostsFor(hosts, nodes, [], defaults) && NodeHost(hosts, host, node, defaults) {
      forall i | 0 <= i < |nodes| + 1 ensures NodeHost(longer[..i], longer[i], (nodes + [node])[i], defaults) {
        assert longer[..i] == hosts[..i];
      }
    }
  }

  lemma HostsForGuest(hosts: seq<Host>, nodes: seq<Node>, guests: seq<Guest>, defaults: Defaults, host: Host,
                      guest: Guest)
    ensures HostsFor(hosts, nodes, guests, defaults) && GuestHost(hosts, host, guest, defaults) ==>
              HostsFor(hosts + [host], nodes, guests + [guest], defaults)
  {
    hide NodeHost, GuestHost;
    var longer, m := hosts + [host], |nodes|;
    if HostsFor(hosts, nodes, guests, defaults) && GuestHost(hosts, host, guest, defaults) {
      forall i | 0 <= i < m ensures NodeHost(longer[..i], longer[i], nodes[i], defaults) {
        assert longer[..i] == hosts[..i];
      }
      forall i | 0 <= i < |guests| + 1
        ensures GuestHost(longer[..m + i], longer[m + i], (guests + [guest])[i], defaults)
      {
        assert longer[..m + i] == hosts[..m + i];
      }
    }
  }

  /** Every host belongs to at least one group. */
  predicate Grouped(hosts: seq<Host>) { forall i :: 0 <= i < |hosts| ==> hosts[i].groupNames != [] }

  lemma HostsAreGrouped(hosts: seq<Host>, nodes: seq<Node>, guests: seq<Guest>, defaults: Defaults)
    requires HostsFor(hosts, nodes, guests, defaults)
    ensures Grouped(hosts)
  {
    hide Overlaid, IsUniqueAlias;
    forall i | 0 <= i < |hosts| ensures hosts[i].groupNames != [] {
      if i < |nodes| {
        assert NodeHost(hosts[..i], hosts[i], nodes[i], defaults);
      } else {
        assert GuestHost(hosts[..|nodes| + (i - |nodes|)], hosts[i], guests[i - |nodes|], defaults);
      }
    }
  }

  /** Every host stands in a group and in each of its groups, reading the document there gives it exactly its
      own variables, and no other host appears. */
  ghost predicate Lossless(doc: Document, hosts: seq<Host>) {
    && Grouped(hosts)
    && (forall i, g :: 0 <= i < |hosts| && g in hosts[i].groupNames ==>
          && g in doc.children && hosts[i].alias in doc.children[g]
          && doc.vars + doc.children[g][hosts[i].alias] == NonBlank(hosts[i].vars))
    && (forall g, alias :: g in doc.children && alias in doc.children[g] ==>
          exists i :: 0 <= i < |hosts| && hosts[i].alias == alias && g in hosts[i].groupNames)
  }

  // ---- Building the hosts ----

  predicate NoRepeats(names: seq<string>) { forall i, j :: 0 <= i < j < |names| ==> names[i] != names[j] }

  method PushHost(hosts0: seq<Host>, groups0: map<string, seq<Host>>, host: Host)
    returns (hosts: seq<Host>, groups: map<string, seq<Host>>)
    requires GroupsMatch(groups0, hosts0) && NoRepeats(host.groupNames)
    requires DistinctAliases(hosts0) && !HasAlias(hosts0, host.alias)
    ensures hosts == hosts0 + [host] && GroupsMatch(groups, hosts) && DistinctAliases(hosts)
  {
    hosts := hosts0 + [host];
    groups := AddToGroups(groups0, host);
    assert hosts[..|hosts0|] == hosts0;
    forall g ensures GroupOf(groups, g) == Members(hosts, g) { assert GroupOf(groups0, g) == Members(hosts0, g); }
    forall i, j | 0 <= i < j < |hosts| ensures hosts[i].alias != hosts[j].alias {
      if j == |hosts0| { assert HasAlias(hosts0, hosts0[i].alias); }
    }
  }

  method AddToGroups(groups0: map<string, seq<Host>>, host: Host) returns (groups: map<string, seq<Host>>)
    requires NoRepeats(host.groupNames)
    ensures forall g :: GroupOf(groups, g) == GroupOf(groups0, g) + if g in host.groupNames then [host] else []
  {
    hide NoRepeats;
    groups := groups0;
    for k := 0 to |host.groupNames|
      invariant Joined(groups, groups0, host.groupNames[..k], host)
    {
      var group := host.groupNames[k];
      assert group !in host.groupNames[..k] by { NotBefore(host.groupNames, k); }
      assert host.groupNames[..k + 1] == host.groupNames[..k] + [group];
      JoinStep(groups, groups0, host.groupNames[..k], group, host);
      hide *;
      groups := groups[group := (if group in groups then groups[group] else []) + [host]];
    }
    assert host.groupNames[..|host.groupNames|] == host.groupNames;
  }

  ghost predicate Joined(groups: map<string, seq<Host>>, groups0: map<string, seq<Host>>, names: seq<string>,
                         host: Host)
  {
    forall g :: GroupOf(groups, g) == GroupOf(groups0, g) + if g in names then [host] else []
  }

  lemma NotBefore(names: seq<string>, k: nat)
    requires NoRepeats(names) && k < |names|
    ensures names[k] !in names[..k]
  {}

  lemma JoinStep(groups: map<string, seq<Host>>, groups0: map<string, seq<Host>>, names: seq<string>,
                 group: string, host: Host)
    requires Joined(groups, groups0, names, host) && group !in names
    ensures var grown := groups[group := (if group in groups then groups[group] else []) + [host]];
            Joined(grown, groups0, names + [group], host)
  {
    GroupGrows(groups, group, host);
  }

  lemma GroupGrows(groups: map<string, seq<Host>>, group: string, host: Host)
    ensures var grown := groups[group := (if group in groups then groups[group] else []) + [host]];
            forall g :: GroupOf(grown, g) == GroupOf(groups, g) + if g == group then [host] else []
  {}

  function Optional(vars: map<string, string>, key: string, value: string): map<string, string> {
    if value != "" then vars[key := value] else vars
  }

  function Credentials(vars: map<string, string>, defaults: Defaults): map<string, string> {
    Optional(Optional(vars, "ansible_ssh_private_key_file", TrimSpace(defaults.privateKeyFile)),
             "ansible_password", TrimSpace(defaults.password))
  }

  /** The variables that every node has. */
  function NodeBase(node: Node, target: string, defaults: Defaults): map<string, string> {
    map["ansible_host" := target, "ansible_user" := defaults.nodeSshUser, "pvetui_kind" := "node",
        "pvetui_node" := node.name, "pvetui_online" := if node.online then "true" else "false"]
  }

  function NodeVars(node: Node, target: string, defaults: Defaults): map<string, string> {
    Credentials(Optional(NodeBase(node, target, defaults), "pvetui_source_profile", node.sourceProfile), defaults)
  }

  /** The variables that every guest has. */
  function GuestBase(guest: Guest, target: string, defaults: Defaults): map<string, string> {
    map["ansible_host" := target, "ansible_user" := defaults.vmSshUser, "pvetui_kind" := "guest",
        "pvetui_guest_name" := guest.name, "pvetui_guest_id" := Dec(guest.id), "pvetui_guest_type" := guest.kind,
        "pvetui_guest_os" := TrimSpace(guest.osType), "pvetui_status" := guest.status, "pvetui_node" := guest.node]
  }

  function GuestVars(guest: Guest, target: string, defaults: Defaults): map<string, string> {
    var base := GuestBase(guest, target, defaults);
    var profiled := Optional(base, "pvetui_source_profile", guest.sourceProfile);
    Credentials(if TrimSpace(guest.tags) != "" then profiled["pvetui_tags" := guest.tags] else profiled, defaults)
  }

  /** Some key of `extra` names `key`. */
  predicate Named(extra: map<string, string>, key: string) {
    key != "" && exists raw :: raw in extra && TrimSpace(raw) == key
  }

  /** `vars` is `vars0` overwritten by `extra` with keys and values trimmed. Of several keys that trim to the
      same name any one may win, since the map is visited in no particular order. */
  ghost predicate Overlaid(vars: map<string, string>, vars0: map<string, string>, extra: map<string, string>) {
    && (forall k :: k in vars <==> k in vars0 || Named(extra, k))
    && (forall k :: k in vars && !Named(extra, k) ==> vars[k] == vars0[k])
    && (forall k :: Named(extra, k) ==>
          exists raw :: raw in extra && TrimSpace(raw) == k && vars[k] == TrimSpace(extra[raw]))
  }

  lemma OverlayStep(vars: map<string, string>, vars0: map<string, string>, extra: map<string, string>, raw: string,
                    value: string)
    requires Overlaid(vars, vars0, extra) && raw !in extra
    ensures var key := TrimSpace(raw);
            Overlaid(if key != "" then vars[key := TrimSpace(value)] else vars, vars0, extra[raw := value])
  {
    hide TrimSpace;
    var key, longer := TrimSpace(raw), extra[raw := value];
    var vars' := if key != "" then vars[key := TrimSpace(value)] else vars;
    forall k ensures Named(longer, k) <==> Named(extra, k) || (k == key && key != "") {
      if Named(extra, k) {
        var r :| r in extra && TrimSpace(r) == k;
        assert r in longer;
      }
      if k == key { assert raw in longer; }
    }
    forall k | Named(longer, k)
      ensures exists r :: r in longer && TrimSpace(r) == k && vars'[k] == TrimSpace(longer[r])
    {
      if k == key {
        assert raw in longer;
      } else {
        var r :| r in extra && TrimSpace(r) == k && vars[k] == TrimSpace(extra[r]);
        assert r in longer && longer[r] == extra[r];
      }
    }
  }

  method MergeInventoryVars(vars0: map<string, string>, extra: map<string, string>) returns (vars: map<string, string>)
    ensures Overlaid(vars, vars0, extra)
  {
    hide TrimSpace, Overlaid;
    vars := vars0;
    var left := extra.Keys;
    ghost var done: map<string, string> := map[];
    assert Overlaid(vars, vars0, done) by { NothingOverlaid(vars0); }
    while left != {}
      invariant left <= extra.Keys && done == extra - left && Overlaid(vars, vars0, done)
      decreases |left|
    {
      var raw :| raw in left;
      OverlayStep(vars, vars0, done, raw, extra[raw]);
      left := left - {raw};
      done := done[raw := extra[raw]];
      var key := TrimSpace(raw);
      if key != "" { vars := vars[key := TrimSpace(extra[raw])]; }
    }
    assert done == extra;
  }

  lemma NothingOverlaid(vars0: map<string, string>)
    ensures Overlaid(vars0, vars0, map[])
  {}

  function NodeGroups(node: Node): (names: seq<string>)
    ensures NoRepeats(names)
  {
    ["proxmox_nodes", if node.online then "running" else "stopped"]
  }

  function GuestGroups(guest: Guest): (names: seq<string>)
    ensures NoRepeats(names)
  {
    var byNode := "by_node_" + Sanitized(guest.node);
    var state := if ToLower(guest.status) == "running" then "running" else "stopped";
    assert byNode[0] == 'b';
    hide *;
    GroupsDiffer(byNode, guest.kind, state);
    ["proxmox_guests", byNode]
    + (if guest.kind == "qemu" then ["qemu"] else if guest.kind == "lxc" then ["lxc"] else []) + [state]
  }

  lemma GroupsDiffer(byNode: string, kind: string, state: string)
    requires byNode != "" && byNode[0] == 'b' && (state == "running" || state == "stopped")
    ensures NoRepeats(["proxmox_guests", byNode]
                      + (if kind == "qemu" then ["qemu"] else if kind == "lxc" then ["lxc"] else []) + [state])
  {
    assert "proxmox_guests"[0] == 'p' && "qemu"[0] == 'q' && "lxc"[0] == 'l' && state[0] in "rs";
  }

  method AddNode(hosts0: seq<Host>, groups0: map<string, seq<Host>>, node: Node, defaults: Defaults)
    returns (hosts: seq<Host>, groups: map<string, seq<Host>>, ghost host: Host)
    requires GroupsMatch(groups0, hosts0) && DistinctAliases(hosts0)
    ensures GroupsMatch(groups, hosts) && DistinctAliases(hosts)
    ensures hosts == hosts0 + [host] && NodeHost(hosts0, host, node, defaults)
  {
    hide GroupsMatch, DistinctAliases, HasAlias, TrimSpace, NodeVars, Overlaid, FirstFree, Sanitized;
    var target := ChooseTarget(node.ip, node.name);
    var id := SanitizeIdentifier(node.name);
    var alias, probes := UniqueAlias(hosts0, "node_" + id);
    var vars := MergeInventoryVars(NodeVars(node, target, defaults), defaults.inventoryVars);
    host := Host(alias, target, NodeGroups(node), vars);
    assert IsUniqueAlias(hosts0, "node_" + id, alias);
    hosts, groups := PushHost(hosts0, groups0, Host(alias, target, NodeGroups(node), vars));
  }

  method AddGuest(hosts0: seq<Host>, groups0: map<string, seq<Host>>, guest: Guest, defaults: Defaults)
    returns (hosts: seq<Host>, groups: map<string, seq<Host>>, ghost host: Host)
    requires GroupsMatch(groups0, hosts0) && DistinctAliases(hosts0)
    ensures GroupsMatch(groups, hosts) && DistinctAliases(hosts)
    ensures hosts == hosts0 + [host] && GuestHost(hosts0, host, guest, defaults)
  {
    hide GroupsMatch, DistinctAliases, HasAlias, TrimSpace, GuestVars, Dec, Overlaid, FirstFree, Sanitized;
    var target := ChooseTarget(guest.ip, guest.name);
    var id := SanitizeIdentifier(guest.name);
    var seed := "guest_" + Dec(guest.id) + "_" + id;
    var alias, probes := UniqueAlias(hosts0, seed);
    var vars := MergeInventoryVars(GuestVars(guest, target, defaults), defaults.inventoryVars);
    host := Host(alias, target, GuestGroups(guest), vars);
    assert IsUniqueAlias(hosts0, seed, alias);
    hosts, groups := PushHost(hosts0, groups0, Host(alias, target, GuestGroups(guest), vars));
  }

  /** One host per node with a target, then one per included guest; aliases pairwise distinct. */
  method BuildHosts(nodes: seq<Option<Node>>, guests: seq<Option<Guest>>, defaults: Defaults)
    returns (hosts: seq<Host>, groups: map<string, seq<Host>>)
    ensures GroupsMatch(groups, hosts) && DistinctAliases(hosts)
    ensures HostsFor(hosts, IncludedNodes(nodes), IncludedGuests(guests), defaults)
  {
    hosts, groups := BuildNodes(nodes, defaults);
    ghost var nodeHosts := IncludedNodes(nodes);
    for n := 0 to |guests|
      invariant GroupsMatch(groups, hosts) && DistinctAliases(hosts)
      invariant HostsFor(hosts, nodeHosts, IncludedGuests(guests[..n]), defaults)
    {
      GuestsUpTo(guests, n);
      hide *;
      if guests[n].Some? && !guests[n].value.template {
        var guest := guests[n].value;
        var target := ChooseTarget(guest.ip, guest.name);
        if target != "" {
          ghost var before := hosts;
          ghost var host;
          hosts, groups, host := AddGuest(hosts, groups, guest, defaults);
          HostsForGuest(before, nodeHosts, IncludedGuests(guests[..n]), defaults, host, guest);
        }
      }
    }
    assert guests[..|guests|] == guests;
  }

  method BuildNodes(nodes: seq<Option<Node>>, defaults: Defaults)
    returns (hosts: seq<Host>, groups: map<string, seq<Host>>)
    ensures GroupsMatch(groups, hosts) && DistinctAliases(hosts)
    ensures HostsFor(hosts, IncludedNodes(nodes), [], defaults)
  {
    hosts, groups := [], map[];
    for n := 0 to |nodes|
      invariant GroupsMatch(groups, hosts) && DistinctAliases(hosts)
      invariant HostsFor(hosts, IncludedNodes(nodes[..n]), [], defaults)
    {
      NodesUpTo(nodes, n);
      hide *;
      if nodes[n].Some? {
        var node := nodes[n].value;
        var target := ChooseTarget(node.ip, node.name);
        if target != "" {
          ghost var before := hosts;
          ghost var host;
          hosts, groups, host := AddNode(hosts, groups, node, defaults);
          HostsForNode(before, IncludedNodes(nodes[..n]), defaults, host, node);
        }
      }
    }
    assert nodes[..|nodes|] == nodes;
  }

  lemma NodesUpTo(nodes: seq<Option<Node>>, n: nat)
    requires n < |nodes|
    ensures IncludedNodes(nodes[..n + 1])
         == IncludedNodes(nodes[..n])
            + if nodes[n].Some? && ChooseTarget(nodes[n].value.ip, nodes[n].value.name) != ""
              then [nodes[n].value] else []
  {
    hide ChooseTarget;
    assert nodes[..n + 1][..n] == nodes[..n];
  }

  lemma GuestsUpTo(guests: seq<Option<Guest>>, n: nat)
    requires n < |guests|
    ensures IncludedGuests(guests[..n + 1])
         == IncludedGuests(guests[..n])
            + if guests[n].Some? && !guests[n].value.template
                 && ChooseTarget(guests[n].value.ip, guests[n].value.name) != ""
              then [guests[n].value] else []
  {
    hide ChooseTarget;
    assert guests[..n + 1][..n] == guests[..n];
  }

  // ---- Which hosts there are ----

  /** Counting one element, with and without one more at the end. */
  lemma SnocCount<T>(q: seq<T>, x: T, y: T)
    ensures multiset(q + [x])[y] == multiset(q)[y] + if x == y then 1 else 0
  {}

  lemma NodesEnd(nodes: seq<Option<Node>>)
    requires nodes != []
    ensures var front, last := nodes[..|nodes| - 1], nodes[|nodes| - 1];
            && nodes == front + [last]
            && IncludedNodes(nodes) == if HasTarget(last) then IncludedNodes(front) + [last.value]
                  else IncludedNodes(front)
  {
    hide HasTarget;
  }

  lemma HasTargetIs(node: Option<Node>)
    ensures HasTarget(node) <==> node.Some? && !(AllSpace(node.value.ip) && AllSpace(node.value.name))
  {
    if node.Some? { TargetIs(node.value.ip, node.value.name); }
    hide ChooseTarget, AllSpace;
  }

  lemma IncludedIs(guest: Option<Guest>)
    ensures Included(guest) <==>
            guest.Some? && !guest.value.template && !(AllSpace(guest.value.ip) && AllSpace(guest.value.name))
  {
    if guest.Some? { TargetIs(guest.value.ip, guest.value.name); }
    hide ChooseTarget, AllSpace;
  }

  lemma GuestsEnd(guests: seq<Option<Guest>>)
    requires guests != []
    ensures var front, last := guests[..|guests| - 1], guests[|guests| - 1];
            && guests == front + [last]
            && IncludedGuests(guests) == if Included(last) then IncludedGuests(front) + [last.value]
                  else IncludedGuests(front)
  {
    hide Included;
  }

  /** Every node with a name or an address is included as often as it is listed. */
  lemma {:induction false} IncludedNodesAre(nodes: seq<Option<Node>>, node: Node)
    ensures multiset(IncludedNodes(nodes))[node]
         == if AllSpace(node.ip) && AllSpace(node.name) then 0 else multiset(nodes)[Some(node)]
  {
    if nodes != [] {
      hide *;
      var front, last := nodes[..|nodes| - 1], nodes[|nodes| - 1];
      IncludedNodesAre(front, node);
      NodesEnd(nodes);
      SnocCount(front, last, Some(node));
      HasTargetIs(last);
      if HasTarget(last) { SnocCount(IncludedNodes(front), last.value, node); }
    }
  }

  /** And every guest that is no template and has a name or an address. */
  lemma {:induction false} IncludedGuestsAre(guests: seq<Option<Guest>>, guest: Guest)
    ensures multiset(IncludedGuests(guests))[guest]
         == if guest.template || (AllSpace(guest.ip) && AllSpace(guest.name)) then 0 else multiset(guests)[Some(guest)]
  {
    if guests != [] {
      hide *;
      var front, last := guests[..|guests| - 1], guests[|guests| - 1];
      IncludedGuestsAre(front, guest);
      GuestsEnd(guests);
      SnocCount(front, last, Some(guest));
      IncludedIs(last);
      if Included(last) { SnocCount(IncludedGuests(front), last.value, guest); }
    }
  }

  lemma AliasHasPrefix(before: seq<Host>, base: string, alias: string)
    requires base != ""
    ensures IsUniqueAlias(before, base, alias) ==> HasPrefix(alias, base)
  {
    hide HasAlias;
  }

  /** Aliases begin with what the host is: a node and its name, or a guest with its number and name. */
  lemma AliasesBegin(before: seq<Host>, host: Host, node: Node, guest: Guest, defaults: Defaults)
    ensures NodeHost(before, host, node, defaults) ==> HasPrefix(host.alias, "node_" + Sanitized(node.name))
    ensures GuestHost(before, host, guest, defaults) ==>
              HasPrefix(host.alias, "guest_" + (Dec(guest.id) + ("_" + Sanitized(guest.name))))
  {
    hide Sanitized, Dec, Overlaid, NodeVars, GuestVars, NodeGroups, GuestGroups, IsUniqueAlias;
    AliasHasPrefix(before, "node_" + Sanitized(node.name), host.alias);
    AliasHasPrefix(before, "guest_" + Dec(guest.id) + "_" + Sanitized(guest.name), host.alias);
    assert "guest_" + Dec(guest.id) + "_" + Sanitized(guest.name)
        == "guest_" + (Dec(guest.id) + ("_" + Sanitized(guest.name)));
  }

  // ---- What the hosts say ----

  /** The target is the address without the white space around it, or the name when the address is blank; none when
      both are. */
  lemma TargetIs(ip: string, name: string)
    ensures ChooseTarget(ip, name) == "" <==> AllSpace(ip) && AllSpace(name)
    ensures !AllSpace(ip) ==> ChooseTarget(ip, name) == TrimSpace(ip)
    ensures AllSpace(ip) ==> ChooseTarget(ip, name) == TrimSpace(name)
  {
    BlankIs(ip);
    BlankIs(name);
    hide TrimSpace;
  }

  lemma NodeMember(node: Node, group: string)
    ensures group in NodeGroups(node) <==>
            group == "proxmox_nodes" || (group == "running" && node.online) || (group == "stopped" && !node.online)
  {}

  lemma GuestMember(guest: Guest, group: string)
    ensures group in GuestGroups(guest) <==>
            || group == "proxmox_guests" || group == "by_node_" + Sanitized(guest.node)
            || (group == "qemu" && guest.kind == "qemu") || (group == "lxc" && guest.kind == "lxc")
            || (group == "running" && ToLower(guest.status) == "running")
            || (group == "stopped" && ToLower(guest.status) != "running")
  {
    hide Sanitized, ToLower;
  }

  /** `vars` has `key` with `value`, or does not have it when `value` is empty. */
  predicate HasOptional(vars: map<string, string>, key: string, value: string) {
    (key in vars <==> value != "") && (key in vars ==> vars[key] == value)
  }

  /** What a node's host says, variable by variable, where no inventory variable says otherwise. */
  lemma NodeHostSays(before: seq<Host>, host: Host, node: Node, defaults: Defaults, key: string)
    requires NodeHost(before, host, node, defaults) && !Named(defaults.inventoryVars, key)
    ensures key == "ansible_host" ==> key in host.vars && host.vars[key] == host.target
    ensures key == "ansible_user" ==> key in host.vars && host.vars[key] == defaults.nodeSshUser
    ensures key == "pvetui_kind" ==> key in host.vars && host.vars[key] == "node"
    ensures key == "pvetui_node" ==> key in host.vars && host.vars[key] == node.name
    ensures key == "pvetui_online" ==> key in host.vars && host.vars[key] == if node.online then "true" else "false"
    ensures key == "pvetui_source_profile" ==> HasOptional(host.vars, key, node.sourceProfile)
    ensures key == "ansible_ssh_private_key_file" ==> HasOptional(host.vars, key, TrimSpace(defaults.privateKeyFile))
    ensures key == "ansible_password" ==> HasOptional(host.vars, key, TrimSpace(defaults.password))
    ensures key in host.vars ==>
              key in ["ansible_host", "ansible_user", "pvetui_kind", "pvetui_node", "pvetui_online",
                      "pvetui_source_profile", "ansible_ssh_private_key_file", "ansible_password"]
  {
    hide *;
    var base := NodeBase(node, host.target, defaults);
    var profiled := Optional(base, "pvetui_source_profile", node.sourceProfile);
    NodeVarsUnnamed(before, host, node, defaults, key);
    NodeBaseKey(node, host.target, defaults, key);
    OptionalKey(base, "pvetui_source_profile", node.sourceProfile, key);
    CredentialsKey(profiled, defaults, key);
    NodeOptionalNames(key);
    HasOptionalIs(host.vars, key);
  }

  lemma NodeVarsUnnamed(before: seq<Host>, host: Host, node: Node, defaults: Defaults, key: string)
    requires NodeHost(before, host, node, defaults) && !Named(defaults.inventoryVars, key)
    ensures var profiled := Optional(NodeBase(node, host.target, defaults), "pvetui_source_profile",
                                     node.sourceProfile);
            var vars := Credentials(profiled, defaults);
            (key in host.vars <==> key in vars) && (key in host.vars ==> host.vars[key] == vars[key])
  {
    hide IsUniqueAlias, Named, NodeBase, Credentials;
  }

  predicate NodeAlwaysKey(key: string) {
    key in ["ansible_host", "ansible_user", "pvetui_kind", "pvetui_node", "pvetui_online"]
  }

  lemma NodeBaseKey(node: Node, target: string, defaults: Defaults, key: string)
    ensures var vars := NodeBase(node, target, defaults);
            && (key == "ansible_host" ==> key in vars && vars[key] == target)
            && (key == "ansible_user" ==> key in vars && vars[key] == defaults.nodeSshUser)
            && (key == "pvetui_kind" ==> key in vars && vars[key] == "node")
            && (key == "pvetui_node" ==> key in vars && vars[key] == node.name)
            && (key == "pvetui_online" ==> key in vars && vars[key] == if node.online then "true" else "false")
    ensures key in NodeBase(node, target, defaults) <==> NodeAlwaysKey(key)
  {}

  lemma NodeOptionalNames(key: string)
    ensures key == "pvetui_source_profile" || key == "ansible_ssh_private_key_file" || key == "ansible_password" ==>
              !NodeAlwaysKey(key)
    ensures key == "pvetui_source_profile" ==> key != "ansible_ssh_private_key_file" && key != "ansible_password"
    ensures key == "ansible_password" ==> key != "ansible_ssh_private_key_file"
    ensures key == "ansible_host" || key == "ansible_user" || key == "pvetui_kind" || key == "pvetui_node"
            || key == "pvetui_online" ==>
              NodeAlwaysKey(key)
    ensures NodeAlwaysKey(key) ==> key != "pvetui_source_profile" && key != "ansible_ssh_private_key_file"
                                   && key != "ansible_password"
    ensures NodeAlwaysKey(key) || key == "pvetui_source_profile" || key == "ansible_ssh_private_key_file"
            || key == "ansible_password" ==>
              key in ["ansible_host", "ansible_user", "pvetui_kind", "pvetui_node", "pvetui_online",
                      "pvetui_source_profile", "ansible_ssh_private_key_file", "ansible_password"]
  {}

  lemma GuestHostSays(before: seq<Host>, host: Host, guest: Guest, defaults: Defaults, key: string)
    requires GuestHost(before, host, guest, defaults) && !Named(defaults.inventoryVars, key)
    ensures key == "ansible_host" ==> key in host.vars && host.vars[key] == host.target
    ensures key == "ansible_user" ==> key in host.vars && host.vars[key] == defaults.vmSshUser
    ensures key == "pvetui_kind" ==> key in host.vars && host.vars[key] == "guest"
    ensures key == "pvetui_guest_name" ==> key in host.vars && host.vars[key] == guest.name
    ensures key == "pvetui_guest_id" ==> key in host.vars && host.vars[key] == Dec(guest.id)
    ensures key == "pvetui_guest_type" ==> key in host.vars && host.vars[key] == guest.kind
    ensures key == "pvetui_guest_os" ==> key in host.vars && host.vars[key] == TrimSpace(guest.osType)
    ensures key == "pvetui_status" ==> key in host.vars && host.vars[key] == guest.status
    ensures key == "pvetui_node" ==> key in host.vars && host.vars[key] == guest.node
    ensures key == "pvetui_source_profile" ==> HasOptional(host.vars, key, guest.sourceProfile)
    ensures key == "pvetui_tags" ==> HasOptional(host.vars, key, if AllSpace(guest.tags) then "" else guest.tags)
    ensures key == "ansible_ssh_private_key_file" ==> HasOptional(host.vars, key, TrimSpace(defaults.privateKeyFile))
    ensures key == "ansible_password" ==> HasOptional(host.vars, key, TrimSpace(defaults.password))
    ensures key in host.vars ==>
              key in ["ansible_host", "ansible_user", "pvetui_kind", "pvetui_guest_name", "pvetui_guest_id",
                      "pvetui_guest_type", "pvetui_guest_os", "pvetui_status", "pvetui_node", "pvetui_source_profile",
                      "pvetui_tags", "ansible_ssh_private_key_file", "ansible_password"]
  {
    hide *;
    GuestVarsUnnamed(before, host, guest, defaults, key);
    GuestAlways(guest, host.target, defaults, key);
    GuestSometimes(guest, host.target, defaults, key);
    SameOptional(host.vars, GuestVars(guest, host.target, defaults), key);
  }

  lemma SameOptional(vars: map<string, string>, vars': map<string, string>, key: string)
    requires (key in vars <==> key in vars') && (key in vars ==> vars[key] == vars'[key])
    ensures forall value :: HasOptional(vars', key, value) ==> HasOptional(vars, key, value)
  {}

  lemma GuestVarsUnnamed(before: seq<Host>, host: Host, guest: Guest, defaults: Defaults, key: string)
    requires GuestHost(before, host, guest, defaults) && !Named(defaults.inventoryVars, key)
    ensures var vars := GuestVars(guest, host.target, defaults);
            (key in host.vars <==> key in vars) && (key in host.vars ==> host.vars[key] == vars[key])
  {
    hide IsUniqueAlias, Named, GuestVars;
  }

  predicate GuestAlwaysKey(key: string) {
    key in ["ansible_host", "ansible_user", "pvetui_kind", "pvetui_guest_name", "pvetui_guest_id",
            "pvetui_guest_type", "pvetui_guest_os", "pvetui_status", "pvetui_node"]
  }

  lemma GuestAlways(guest: Guest, target: string, defaults: Defaults, key: string)
    ensures var vars := GuestVars(guest, target, defaults);
            && (key == "ansible_host" ==> key in vars && vars[key] == target)
            && (key == "ansible_user" ==> key in vars && vars[key] == defaults.vmSshUser)
            && (key == "pvetui_kind" ==> key in vars && vars[key] == "guest")
            && (key == "pvetui_guest_name" ==> key in vars && vars[key] == guest.name)
            && (key == "pvetui_guest_id" ==> key in vars && vars[key] == Dec(guest.id))
            && (key == "pvetui_guest_type" ==> key in vars && vars[key] == guest.kind)
            && (key == "pvetui_guest_os" ==> key in vars && vars[key] == TrimSpace(guest.osType))
            && (key == "pvetui_status" ==> key in vars && vars[key] == guest.status)
            && (key == "pvetui_node" ==> key in vars && vars[key] == guest.node)
  {
    hide *;
    var base := GuestBase(guest, target, defaults);
    var profiled := Optional(base, "pvetui_source_profile", guest.sourceProfile);
    var tags := if AllSpace(guest.tags) then "" else guest.tags;
    GuestBaseKey(guest, target, defaults, key);
    OptionalKey(base, "pvetui_source_profile", guest.sourceProfile, key);
    OptionalKey(profiled, "pvetui_tags", tags, key);
    CredentialsKey(Optional(profiled, "pvetui_tags", tags), defaults, key);
    GuestVarsAre(guest, target, defaults);
    GuestAlwaysNames(key);
  }

  lemma GuestAlwaysNames(key: string)
    ensures key == "ansible_host" || key == "ansible_user" || key == "pvetui_kind" || key == "pvetui_guest_name"
            || key == "pvetui_guest_id" || key == "pvetui_guest_type" || key == "pvetui_guest_os"
            || key == "pvetui_status" || key == "pvetui_node" ==>
              key != "pvetui_source_profile" && key != "pvetui_tags" && key != "ansible_ssh_private_key_file"
              && key != "ansible_password"
  {}

  lemma GuestBaseKey(guest: Guest, target: string, defaults: Defaults, key: string)
    ensures var vars := GuestBase(guest, target, defaults);
            && (key == "ansible_host" ==> key in vars && vars[key] == target)
            && (key == "ansible_user" ==> key in vars && vars[key] == defaults.vmSshUser)
            && (key == "pvetui_kind" ==> key in vars && vars[key] == "guest")
            && (key == "pvetui_guest_name" ==> key in vars && vars[key] == guest.name)
            && (key == "pvetui_guest_id" ==> key in vars && vars[key] == Dec(guest.id))
            && (key == "pvetui_guest_type" ==> key in vars && vars[key] == guest.kind)
            && (key == "pvetui_guest_os" ==> key in vars && vars[key] == TrimSpace(guest.osType))
            && (key == "pvetui_status" ==> key in vars && vars[key] == guest.status)
            && (key == "pvetui_node" ==> key in vars && vars[key] == guest.node)
    ensures key in GuestBase(guest, target, defaults) <==> GuestAlwaysKey(key)
  {
    hide TrimSpace, Dec;
  }

  lemma GuestSometimes(guest: Guest, target: string, defaults: Defaults, key: string)
    ensures var vars := GuestVars(guest, target, defaults);
            && (key == "pvetui_source_profile" ==> HasOptional(vars, key, guest.sourceProfile))
            && (key == "pvetui_tags" ==> HasOptional(vars, key, if AllSpace(guest.tags) then "" else guest.tags))
            && (key == "ansible_ssh_private_key_file" ==> HasOptional(vars, key, TrimSpace(defaults.privateKeyFile)))
            && (key == "ansible_password" ==> HasOptional(vars, key, TrimSpace(defaults.password)))
            && (key in vars ==>
                  key in ["ansible_host", "ansible_user", "pvetui_kind", "pvetui_guest_name", "pvetui_guest_id",
                          "pvetui_guest_type", "pvetui_guest_os", "pvetui_status", "pvetui_node",
                          "pvetui_source_profile", "pvetui_tags", "ansible_ssh_private_key_file", "ansible_password"])
  {
    hide *;
    var base := GuestBase(guest, target, defaults);
    var profiled := Optional(base, "pvetui_source_profile", guest.sourceProfile);
    var tags := if AllSpace(guest.tags) then "" else guest.tags;
    var tagged := Optional(profiled, "pvetui_tags", tags);
    GuestBaseKey(guest, target, defaults, key);
    OptionalKey(base, "pvetui_source_profile", guest.sourceProfile, key);
    OptionalKey(profiled, "pvetui_tags", tags, key);
    CredentialsKey(tagged, defaults, key);
    GuestVarsAre(guest, target, defaults);
    OptionalNames(key);
    HasOptionalIs(GuestVars(guest, target, defaults), key);
  }

  lemma HasOptionalIs(vars: map<string, string>, key: string)
    ensures forall value :: HasOptional(vars, key, value) <==>
              ((key in vars <==> value != "") && (key in vars ==> vars[key] == value))
  {}

  lemma OptionalKey(vars: map<string, string>, name: string, value: string, key: string)
    ensures var vars' := Optional(vars, name, value);
            && (key in vars' <==> key in vars || (key == name && value != ""))
            && (key in vars' ==> vars'[key] == if key == name && value != "" then value else vars[key])
  {}

  lemma CredentialsKey(vars: map<string, string>, defaults: Defaults, key: string)
    ensures var vars', file, word := Credentials(vars, defaults), "ansible_ssh_private_key_file", "ansible_password";
            var fileSet := key == file && TrimSpace(defaults.privateKeyFile) != "";
            var wordSet := key == word && TrimSpace(defaults.password) != "";
            && (key in vars' <==> key in vars || fileSet || wordSet)
            && (key in vars' ==>
                  vars'[key] == if fileSet then TrimSpace(defaults.privateKeyFile)
                                else if wordSet then TrimSpace(defaults.password) else vars[key])
  {
    hide TrimSpace;
    assert |"ansible_ssh_private_key_file"| != |"ansible_password"|;
  }

  lemma GuestVarsAre(guest: Guest, target: string, defaults: Defaults)
    ensures var tags := if AllSpace(guest.tags) then "" else guest.tags;
            var profiled := Optional(GuestBase(guest, target, defaults), "pvetui_source_profile", guest.sourceProfile);
            GuestVars(guest, target, defaults) == Credentials(Optional(profiled, "pvetui_tags", tags), defaults)
  {
    BlankIs(guest.tags);
    assert guest.tags == "" ==> AllSpace(guest.tags);
    hide TrimSpace, AllSpace, GuestBase, Credentials;
  }

  /** The optional names are four, and none of those that every guest has. */
  lemma OptionalNames(key: string)
    ensures key in ["pvetui_source_profile", "pvetui_tags", "ansible_ssh_private_key_file", "ansible_password"] ==>
              !GuestAlwaysKey(key)
    ensures key == "pvetui_tags" ==> key != "pvetui_source_profile"
    ensures key == "pvetui_source_profile" || key == "pvetui_tags" ==>
              key != "ansible_ssh_private_key_file" && key != "ansible_password"
    ensures key == "ansible_password" ==> key != "ansible_ssh_private_key_file"
    ensures GuestAlwaysKey(key) || key in ["pvetui_source_profile", "pvetui_tags", "ansible_ssh_private_key_file",
                                           "ansible_password"] ==>
              key in ["ansible_host", "ansible_user", "pvetui_kind", "pvetui_guest_name", "pvetui_guest_id",
                      "pvetui_guest_type", "pvetui_guest_os", "pvetui_status", "pvetui_node",
                      "pvetui_source_profile", "pvetui_tags", "ansible_ssh_private_key_file", "ansible_password"]
    ensures key == "pvetui_source_profile" || key == "pvetui_tags" || key == "ansible_ssh_private_key_file"
            || key == "ansible_password" ==>
              key in ["pvetui_source_profile", "pvetui_tags", "ansible_ssh_private_key_file", "ansible_password"]
  {}

  // ---- The document ----

  lemma {:induction false} MembersOf(hosts: seq<Host>, group: string)
    ensures forall h :: h in Members(hosts, group) <==> h in hosts && group in h.groupNames
  {
    if hosts != [] {
      MembersOf(hosts[..|hosts| - 1], group);
      assert hosts == hosts[..|hosts| - 1] + [hosts[|hosts| - 1]];
    }
  }

  method RenderGroup(members: seq<Host>, shared: map<string, string>) returns (rows: map<string, map<string, string>>)
    requires DistinctAliases(members)
    ensures Rows(rows, members, shared)
  {
    rows := map[];
    for i := 0 to |members|
      invariant forall alias :: alias in rows <==> HasAlias(members[..i], alias)
      invariant forall j :: 0 <= j < i ==>
          members[j].alias in rows && rows[members[j].alias] == Filtered(members[j].vars, shared)
    {
      var vars := FilterHostVars(members[i].vars, shared);
      rows := rows[members[i].alias := vars];
      assert members[..i + 1] == members[..i] + [members[i]];
      AliasSnoc(members[..i], members[i]);
    }
    assert members[..|members|] == members;
  }

  lemma AliasSnoc(hosts: seq<Host>, host: Host)
    ensures forall alias :: HasAlias(hosts + [host], alias) <==> HasAlias(hosts, alias) || alias == host.alias
  {
    forall alias ensures HasAlias(hosts + [host], alias) <==> HasAlias(hosts, alias) || alias == host.alias {
      var longer := hosts + [host];
      assert longer[|hosts|] == host;
      if HasAlias(hosts, alias) {
        var i :| 0 <= i < |hosts| && hosts[i].alias == alias;
        assert longer[i].alias == alias;
      }
    }
  }

  /** The whole document: the hosts are those of the included nodes and guests, each with the variables it should
      have, and in either style none is lost and every host reads exactly its own. */
  method BuildInventory(nodes: seq<Option<Node>>, guests: seq<Option<Guest>>, defaults: Defaults)
    returns (doc: Document, hosts: seq<Host>)
    ensures HostsFor(hosts, IncludedNodes(nodes), IncludedGuests(guests), defaults) && DistinctAliases(hosts)
    ensures doc.vars == if defaults.style == Compact then Shared(hosts) else map[]
    ensures Lossless(doc, hosts)
  {
    var groups;
    hosts, groups := BuildHosts(nodes, guests, defaults);
    HostsAreGrouped(hosts, IncludedNodes(nodes), IncludedGuests(guests), defaults);
    doc := Render(groups, hosts, defaults.style);
  }

  method Render(groups: map<string, seq<Host>>, hosts: seq<Host>, style: Style) returns (doc: Document)
    requires GroupsMatch(groups, hosts) && DistinctAliases(hosts) && Grouped(hosts)
    ensures doc.vars == (if style == Compact then Shared(hosts) else map[]) && Lossless(doc, hosts)
  {
    hide Rows, Members, Shared, Filtered, NonBlank, DistinctAliases, Lossless;
    var shared := map[];
    if style == Compact { shared := ComputeSharedVars(hosts); }
    var children: map<string, map<string, map<string, string>>> := map[];
    var left := groups.Keys;
    while left != {}
      invariant left <= groups.Keys
      invariant forall g :: g in children <==> g in groups && g !in left
      invariant forall g :: g in children ==> Rows(children[g], Members(hosts, g), shared)
      decreases |left|
    {
      var g :| g in left;
      left := left - {g};
      assert GroupOf(groups, g) == Members(hosts, g);
      MembersDistinct(hosts, g);
      var rows := RenderGroup(groups[g], shared);
      children := children[g := rows];
    }
    doc := Document(shared, children);
    RowsAreLossless(groups, hosts, style, doc);
  }

  /** One row per member, holding what the shared variables do not say. */
  ghost predicate Rows(rows: map<string, map<string, string>>, members: seq<Host>, shared: map<string, string>) {
    && (forall alias :: alias in rows <==> HasAlias(members, alias))
    && (forall i :: 0 <= i < |members| ==>
          members[i].alias in rows && rows[members[i].alias] == Filtered(members[i].vars, shared))
  }

  lemma {:induction false} MembersDistinct(hosts: seq<Host>, group: string)
    requires DistinctAliases(hosts)
    ensures DistinctAliases(Members(hosts, group))
  {
    if hosts != [] {
      var n := |hosts| - 1;
      assert DistinctAliases(hosts[..n]);
      MembersDistinct(hosts[..n], group);
      MembersOf(hosts[..n], group);
      var front := Members(hosts[..n], group);
      forall i | 0 <= i < |front| ensures front[i].alias != hosts[n].alias {
        assert front[i] in hosts[..n];
      }
    }
  }

  lemma RowsAreLossless(groups: map<string, seq<Host>>, hosts: seq<Host>, style: Style, doc: Document)
    requires GroupsMatch(groups, hosts) && Grouped(hosts)
    requires doc.vars == if style == Compact then Shared(hosts) else map[]
    requires forall g :: g in doc.children <==> g in groups
    requires forall g :: g in doc.children ==> Rows(doc.children[g], Members(hosts, g), doc.vars)
    ensures Lossless(doc, hosts)
  {
    hide Rows, Members, Shared, Filtered, NonBlank;
    forall i, g | 0 <= i < |hosts| && g in hosts[i].groupNames
      ensures g in doc.children && hosts[i].alias in doc.children[g]
      ensures doc.vars + doc.children[g][hosts[i].alias] == NonBlank(hosts[i].vars)
    {
      assert GroupOf(groups, g) == Members(hosts, g);
      MembersOf(hosts, g);
      assert hosts[i] in Members(hosts, g);
      HostRow(doc.children[g], hosts, i, g, doc.vars);
      CompactKeepsMeaning(hosts, i);
    }
    forall g, alias | g in doc.children && alias in doc.children[g]
      ensures exists i :: 0 <= i < |hosts| && hosts[i].alias == alias && g in hosts[i].groupNames
    {
      RowHost(doc.children[g], hosts, g, doc.vars, alias);
    }
  }

  lemma HostRow(rows: map<string, map<string, string>>, hosts: seq<Host>, i: nat, g: string,
                shared: map<string, string>)
    requires Rows(rows, Members(hosts, g), shared) && i < |hosts| && g in hosts[i].groupNames
    ensures hosts[i].alias in rows && rows[hosts[i].alias] == Filtered(hosts[i].vars, shared)
  {
    MembersOf(hosts, g);
    var k :| 0 <= k < |Members(hosts, g)| && Members(hosts, g)[k] == hosts[i];
  }

  lemma RowHost(rows: map<string, map<string, string>>, hosts: seq<Host>, g: string, shared: map<string, string>,
                alias: string)
    requires Rows(rows, Members(hosts, g), shared) && alias in rows
    ensures exists i :: 0 <= i < |hosts| && hosts[i].alias == alias && g in hosts[i].groupNames
  {
    MembersOf(hosts, g);
    var members := Members(hosts, g);
    var k :| 0 <= k < |members| && members[k].alias == alias;
    assert members[k] in hosts;
    var i :| 0 <= i < |hosts| && hosts[i] == members[k];
  }
}
