/** Patching a host name into the extra_hosts of compose services, in place on a parsed YAML tree. */
module ExtraHosts {
  import opened Optional
  import opened Strings

  datatype Kind = Document | Sequence | Mapping | Scalar | Alias

  /** What a node says by itself, without its children. */
  datatype Leaf = Leaf(kind: Kind, tag: string, value: string)

  class Node {
    var kind: Kind
    var tag: string
    var value: string
    var content: seq<Node>

    constructor (kind: Kind, tag: string, value: string, content: seq<Node>)
      ensures Own() == Leaf(kind, tag, value) && this.content == content
    {
      this.kind, this.tag, this.value, this.content := kind, tag, value, content;
    }

    function Own(): Leaf
      reads this
    {
      Leaf(kind, tag, value)
    }
  }

  const EXTRA_HOSTS := "extra_hosts"
  const SEQ := "!!seq"
  const STR := "!!str"

  function Text(value: string): Leaf {
    Leaf(Scalar, STR, value)
  }

  function Leaves(content: seq<Node>): seq<Leaf>
    reads content
  {
    seq(|content|, i requires 0 <= i < |content| reads content => content[i].Own())
  }

  // ---------- the entry on values ----------

  /** The extra_hosts of a service, as far as patching looks at them. */
  datatype Hosts =
    | NoService                             // the service is not a mapping
    | Absent
    | Single(value: string)                 // a scalar, normally empty
    | Listed(tag: string, items: seq<Leaf>)
    | Keyed(tag: string, items: seq<Leaf>)  // keys and values in turn
    | Unsupported

  /** The first key at or after i. */
  function KeyFrom(items: seq<Leaf>, key: string, i: nat): (r: Option<nat>)
    ensures r.Some? ==> i <= r.value && r.value + 1 < |items| && items[r.value].value == key
    decreases |items| - i
  {
    if i + 1 >= |items| then None else if items[i].value == key then Some(i) else KeyFrom(items, key, i + 2)
  }

  /** It is the first at its parity, and none is found only if there is none. */
  lemma {:induction false} KeyFromIsFirst(items: seq<Leaf>, key: string, i: nat)
    ensures var r := KeyFrom(items, key, i);
      && (r.Some? ==> (r.value - i) % 2 == 0)
      && forall k | i <= k && (if r.Some? then k < r.value else k + 1 < |items|) && (k - i) % 2 == 0 ::
        items[k].value != key
    decreases |items| - i
  {
    if i + 1 < |items| && items[i].value != key {
      KeyFromIsFirst(items, key, i + 2);
    }
  }

  /** A list entry such as host=ip or host:ip names the host. */
  predicate Names(entry: string, host: string) {
    || ('=' in entry && Before(entry, '=') == host)
    || (':' in entry && Before(entry, ':') == host)
  }

  predicate Listing(items: seq<Leaf>, host: string) {
    exists i | 0 <= i < |items| :: Names(items[i].value, host)
  }

  predicate Declared(h: Hosts, host: string) {
    match h
    case Listed(_, items) => Listing(items, host)
    case Keyed(_, items) => KeyFrom(items, host, 0).Some?
    case _ => false
  }

  function Entry(host: string, ip: string): string {
    host + [':'] + ip
  }

  /** The extra_hosts after a host was added. */
  function Added(h: Hosts, host: string, ip: string): Hosts {
    if Declared(h, host) then h
    else
      match h
      case Absent => Listed(SEQ, [Text(Entry(host, ip))])
      case Single(_) => Listed(SEQ, [Text(Entry(host, ip))])
      case Listed(tag, items) => Listed(tag, items + [Text(Entry(host, ip))])
      case Keyed(tag, items) => Keyed(tag, items + [Text(host), Text(ip)])
      case _ => h
  }

  predicate WellFormed(h: Hosts) {
    h.Keyed? ==> |h.items| % 2 == 0
  }

  lemma EntryNames(host: string, ip: string)
    ensures Names(Entry(host, ip), host) <==> ':' !in host
  {
    var entry := Entry(host, ip);
    assert entry[|host|] == ':';
    if ':' !in host {
      BeforeIs(host, ':', ip);
    }
  }

  lemma {:induction false} KeyFromAppend(items: seq<Leaf>, key: Leaf, value: Leaf, i: nat)
    requires |items| % 2 == 0 && i % 2 == 0 && i <= |items| && KeyFrom(items, key.value, i).None?
    ensures KeyFrom(items + [key, value], key.value, i) == Some(|items|)
    decreases |items| - i
  {
    if i < |items| {
      assert (items + [key, value])[i] == items[i];
      KeyFromAppend(items, key, value, i + 2);
    } else {
      assert (items + [key, value])[i] == key;
    }
  }

  /**
   Whether the host is declared afterwards: always in a mapping; in a list, which is also what a missing or scalar value
   becomes, unless the name has a colon; and never for an alias or for a service that is no mapping.
   */
  lemma DeclaredIff(h: Hosts, host: string, ip: string)
    requires WellFormed(h)
    ensures Declared(Added(h, host, ip), host) <==>
      Declared(h, host) || h.Keyed? || ((h.Absent? || h.Single? || h.Listed?) && ':' !in host)
    ensures WellFormed(Added(h, host, ip))
  {
    if !Declared(h, host) {
      match h
      case Keyed(_, items) => KeyFromAppend(items, Text(host), Text(ip), 0);
      case Listed(_, items) => ListedAfterwards(items, host, ip);
      case _ => ListedAfterwards([], host, ip);
    }
  }

  lemma ListedAfterwards(items: seq<Leaf>, host: string, ip: string)
    ensures Listing(items + [Text(Entry(host, ip))], host) <==> Listing(items, host) || ':' !in host
    ensures [] + [Text(Entry(host, ip))] == [Text(Entry(host, ip))]
  {
    var more := items + [Text(Entry(host, ip))];
    EntryNames(host, ip);
    assert more[|items|] == Text(Entry(host, ip));
    assert forall i | 0 <= i < |items| :: more[i] == items[i];
  }

  /** Adding a host again changes nothing unless the name has a colon and went into a list that does not declare it. */
  lemma AddedTwiceIff(h: Hosts, host: string, ip: string)
    requires WellFormed(h)
    ensures var once := Added(h, host, ip);
      Added(once, host, ip) == once <==>
        Declared(h, host) || h.Keyed? || h.NoService? || h.Unsupported? || ':' !in host
  {
    var once := Added(h, host, ip);
    DeclaredIff(h, host, ip);
    if !Declared(once, host) && once.Listed? {
      assert |Added(once, host, ip).items| == |once.items| + 1;
    }
  }

  /** An entry names a host if and only if it is the host, a separator of either kind not in it, and anything. */
  lemma NamesIff(entry: string, host: string)
    ensures Names(entry, host) <==> (host + "=" <= entry && '=' !in host) || (host + ":" <= entry && ':' !in host)
  {
    BeforeHost(entry, '=', host);
    BeforeHost(entry, ':', host);
  }

  lemma BeforeHost(entry: string, c: char, host: string)
    ensures c in entry && Before(entry, c) == host <==> host + [c] <= entry && c !in host
  {
    if c in entry && Before(entry, c) == host {
      assert entry[..|host| + 1] == host + [c];
    } else if host + [c] <= entry && c !in host {
      SeparatedHost(entry, c, host);
    }
  }

  lemma SeparatedHost(entry: string, c: char, host: string)
    requires host + [c] <= entry && c !in host
    ensures c in entry && Before(entry, c) == host
  {
    var rest := entry[|host| + 1..];
    assert entry[|host|] == (host + [c])[|host|] == c;
    assert entry == host + [c] + rest;
    BeforeIs(host, c, rest);
  }

  /** What is added: behind a list, or as a new one, host, colon and address; behind a mapping both in turn. */
  lemma AddedAtTheEnd(h: Hosts, host: string, ip: string)
    requires !Declared(h, host)
    ensures match h
      case Absent => Added(h, host, ip) == Listed("!!seq", [Leaf(Scalar, "!!str", host + ":" + ip)])
      case Single(_) => Added(h, host, ip) == Listed("!!seq", [Leaf(Scalar, "!!str", host + ":" + ip)])
      case Listed(tag, items) => Added(h, host, ip) == Listed(tag, items + [Leaf(Scalar, "!!str", host + ":" + ip)])
      case Keyed(tag, items) =>
        Added(h, host, ip) == Keyed(tag, items + [Leaf(Scalar, "!!str", host), Leaf(Scalar, "!!str", ip)])
      case _ => Added(h, host, ip) == h
  {
  }

  /** Patching twice for the host a:b leaves its entry twice. */
  lemma HostWithColonIsRepeated(ip: string)
    ensures var once := Added(Absent, "a:b", ip);
      && once == Listed(SEQ, [Text(Entry("a:b", ip))])
      && Added(once, "a:b", ip) == Listed(SEQ, [Text(Entry("a:b", ip)), Text(Entry("a:b", ip))])
  {
    DeclaredIff(Absent, "a:b", ip);
    assert "a:b"[1] == ':';
  }

  /** Every earlier entry stays, in order and with its tag; and hosts that were declared stay declared. */
  lemma EarlierEntriesStay(h: Hosts, host: string, ip: string, other: string)
    ensures h.Listed? ==>
      Added(h, host, ip).Listed? && Added(h, host, ip).tag == h.tag && h.items <= Added(h, host, ip).items
    ensures h.Keyed? ==>
      Added(h, host, ip).Keyed? && Added(h, host, ip).tag == h.tag && h.items <= Added(h, host, ip).items
    ensures Declared(h, other) ==> Declared(Added(h, host, ip), other)
  {
    if !Declared(h, host) {
      match h
      case Listed(_, items) =>
        if Listing(items, other) {
          var i :| 0 <= i < |items| && Names(items[i].value, other);
          assert (items + [Text(Entry(host, ip))])[i] == items[i];
        }
      case Keyed(_, items) =>
        if KeyFrom(items, other, 0).Some? {
          KeyFromGrows(items, [Text(host), Text(ip)], other, 0);
        }
      case _ =>
    }
  }

  lemma {:induction false} KeyFromGrows(items: seq<Leaf>, more: seq<Leaf>, key: string, i: nat)
    requires KeyFrom(items, key, i).Some?
    ensures KeyFrom(items + more, key, i) == KeyFrom(items, key, i)
    decreases |items| - i
  {
    assert (items + more)[i] == items[i];
    if items[i].value != key {
      KeyFromGrows(items, more, key, i + 2);
    }
  }

  // ---------- the entry in the tree ----------

  function Children(nodes: seq<Node>): set<Node>
    reads nodes
  {
    set n, m | n in nodes && m in n.content :: m
  }

  /** The nodes of a service that patching looks at. */
  function Footprint(service: Node): set<Node>
    reads service, service.content
  {
    {service} + (set n | n in service.content) + Children(service.content)
  }

  ghost predicate Distinct(nodes: seq<Node>) {
    nodes == [] || (nodes[|nodes| - 1] !in nodes[..|nodes| - 1] && Distinct(nodes[..|nodes| - 1]))
  }

  lemma {:induction false} DistinctAt(nodes: seq<Node>, i: nat, j: nat)
    requires Distinct(nodes) && i < j < |nodes|
    ensures nodes[i] != nodes[j]
  {
    var n := |nodes| - 1;
    if j == n {
      assert nodes[i] in nodes[..n];
    } else {
      assert nodes[..n][i] == nodes[i] && nodes[..n][j] == nodes[j];
      DistinctAt(nodes[..n], i, j);
    }
  }

  ghost predicate TreeOf(root: Node, content: seq<Node>, kids: set<Node>) {
    root !in content && root !in kids && Distinct(content) && forall n | n in content :: n !in kids
  }

  /** Part of a tree: no node is its own descendant or appears twice, and a mapping has keys and values in turn. */
  ghost predicate Tree(service: Node)
    reads service, service.content
  {
    && TreeOf(service, service.content, Children(service.content))
    && (service.kind == Mapping ==> |service.content| % 2 == 0)
  }

  /** The value of the extra_hosts key. */
  function ExtraHostsNode(service: Node): Node?
    reads service, service.content
  {
    if service.kind != Mapping then null
    else
      match KeyFrom(Leaves(service.content), EXTRA_HOSTS, 0)
      case None => null
      case Some(i) => service.content[i + 1]
  }

  function HostsOf(node: Node): Hosts
    reads node, node.content
  {
    match node.kind
    case Scalar => Single(node.value)
    case Sequence => Listed(node.tag, Leaves(node.content))
    case Mapping => Keyed(node.tag, Leaves(node.content))
    case _ => Unsupported
  }

  function View(service: Node): Hosts
    reads Footprint(service)
  {
    if service.kind != Mapping then NoService
    else
      var node := ExtraHostsNode(service);
      if node == null then Absent
      else
        assert node in service.content;
        assert forall m | m in node.content :: m in Children(service.content);
        HostsOf(node)
  }

  method FindMappingValue(node: Node?, key: string) returns (found: Node?)
    ensures node == null ==> found == null
    ensures node != null && node.kind != Mapping ==> found == null
    ensures node != null && node.kind == Mapping ==>
      match KeyFrom(Leaves(node.content), key, 0)
      case None => found == null
      case Some(i) => found == node.content[i + 1]
  {
    if node == null || node.kind != Mapping {
      return null;
    }
    ghost var leaves := Leaves(node.content);
    var i := 0;
    while i + 1 < |node.content|
      invariant 0 <= i
      invariant KeyFrom(leaves, key, 0) == KeyFrom(leaves, key, i)
    {
      if node.content[i].value == key {
        return node.content[i + 1];
      }
      i := i + 2;
    }
    return null;
  }

  lemma LeavesAppend(a: seq<Node>, b: seq<Node>)
    ensures Leaves(a + b) == Leaves(a) + Leaves(b)
  {
  }

  /** Adds the host to a list, unless an entry names it. */
  method AddToList(node: Node, host: string, ip: string)
    requires node.kind == Sequence && node !in node.content
    modifies node
    ensures HostsOf(node) == Added(old(HostsOf(node)), host, ip)
    ensures Grown(node)
  {
    ghost var leaves := Leaves(node.content);
    var i := 0;
    while i < |node.content|
      invariant 0 <= i <= |node.content|
      invariant forall j | 0 <= j < i :: !Names(leaves[j].value, host)
    {
      if Names(node.content[i].value, host) {
        assert Names(leaves[i].value, host);
        return;
      }
      i := i + 1;
    }
    var entry := new Node(Scalar, STR, Entry(host, ip), []);
    LeavesAppend(node.content, [entry]);
    node.content := node.content + [entry];
  }

  /** Adds the host to a mapping, unless it is a key. */
  method AddToMapping(node: Node, host: string, ip: string)
    requires node.kind == Mapping && node !in node.content
    modifies node
    ensures HostsOf(node) == Added(old(HostsOf(node)), host, ip)
    ensures Grown(node)
  {
    ghost var leaves := Leaves(node.content);
    var i := 0;
    while i + 1 < |node.content|
      invariant 0 <= i
      invariant KeyFrom(leaves, host, 0) == KeyFrom(leaves, host, i)
    {
      if node.content[i].value == host {
        return;
      }
      i := i + 2;
    }
    var key := new Node(Scalar, STR, host, []);
    var value := new Node(Scalar, STR, ip, []);
    LeavesAppend(node.content, [key, value]);
    node.content := node.content + [key, value];
  }

  /** The node was only appended to, with new nodes. */
  /** The node has got a key extra_hosts and its value at the end. */
  twostate predicate AtTheEnd(node: Node)
    reads node, node.content
  {
    && |node.content| == |old(node.content)| + 2
    && node.content[|old(node.content)|].Own() == Leaf(Scalar, "!!str", "extra_hosts")
  }

  twostate predicate Grown(node: Node)
    reads node
  {
    && node.Own() == old(node.Own())
    && |old(node.content)| <= |node.content| && old(node.content) == node.content[..|old(node.content)|]
    && forall i | |old(node.content)| <= i < |node.content| :: fresh(node.content[i])
  }

  lemma {:induction false} KeyFromByValues(items: seq<Leaf>, others: seq<Leaf>, key: string, i: nat)
    requires |items| == |others| && i % 2 == 0
    requires forall k | 0 <= k < |items| && k % 2 == 0 :: items[k].value == others[k].value
    ensures KeyFrom(items, key, i) == KeyFrom(others, key, i)
    decreases |items| - i
  {
    if i + 1 < |items| {
      KeyFromByValues(items, others, key, i + 2);
    }
  }

  lemma {:induction false} KeyFromEven(items: seq<Leaf>, key: string, i: nat)
    requires i % 2 == 0
    ensures KeyFrom(items, key, i).Some? ==> KeyFrom(items, key, i).value % 2 == 0
    decreases |items| - i
  {
    if i + 1 < |items| {
      KeyFromEven(items, key, i + 2);
    }
  }

  /** Children that are old ones, or are new, leave a tree a tree. */
  lemma TreeWith(root: Node, content: seq<Node>, kids: set<Node>, kids': set<Node>, more: set<Node>)
    requires TreeOf(root, content, kids) && kids' <= kids + more
    requires root !in more && (forall n | n in content :: n !in more)
    ensures TreeOf(root, content, kids')
  {
  }

  lemma TreeAppend(root: Node, content: seq<Node>, kids: set<Node>, key: Node, value: Node)
    requires TreeOf(root, content, kids)
    requires key != value && root != key && root != value && key !in content && value !in content
    requires key !in kids && value !in kids
    ensures TreeOf(root, content + [key, value], kids)
  {
    assert (content + [key])[..|content|] == content;
    assert (content + [key, value])[..|content| + 1] == content + [key];
  }

  lemma ChildrenAppend(a: seq<Node>, b: seq<Node>)
    ensures Children(a + b) == Children(a) + Children(b)
  {
  }

  lemma ChildrenOfEntry(key: Node, value: Node, entry: Node)
    requires key.content == [] && value.content == [entry]
    ensures Children([key, value]) == {entry}
  {
    assert value in [key, value] && entry in value.content;
  }

  lemma AppendedTree(service: Node, content: seq<Node>, kids: set<Node>, key: Node, value: Node, entry: Node)
    requires TreeOf(service, content, kids) && (service.kind == Mapping ==> |content| % 2 == 0)
    requires service.content == content + [key, value] && Children(service.content) == kids + {entry}
    requires key != value && key != entry && value != entry
    requires forall n | n in {key, value, entry} :: n != service && n !in content && n !in kids
    ensures Tree(service)
  {
    TreeAppend(service, content, kids, key, value);
    TreeWith(service, service.content, kids, Children(service.content), {entry});
  }

  method AppendHosts(service: Node, host: string, ip: string) returns (key: Node, value: Node)
    requires Tree(service)
    modifies service
    ensures service.content == old(service.content) + [key, value] && service.Own() == old(service.Own())
    ensures fresh(key) && key.Own() == Text(EXTRA_HOSTS)
    ensures fresh(value) && value.Own() == Leaf(Sequence, SEQ, "") && Leaves(value.content) == [Text(Entry(host, ip))]
    ensures Tree(service) == old(Tree(service)) && fresh(Children(service.content) - old(Children(service.content)))
  {
    ghost var entry;
    key, value, entry := NewHosts(host, ip);
    AppendEntry(service, key, value, entry);
  }

  /** Appends a key and a value that are no part of the service yet. */
  method AppendEntry(service: Node, key: Node, value: Node, ghost entry: Node)
    requires Tree(service) && Children([key, value]) == {entry}
    requires key != value && key != entry && value != entry
    requires forall n | n in {key, value, entry} :: n !in {service} + Children(service.content) && n !in service.content
    modifies service
    ensures service.content == old(service.content) + [key, value] && service.Own() == old(service.Own())
    ensures Tree(service) == old(Tree(service)) && Children(service.content) == old(Children(service.content)) + {entry}
  {
    ghost var content, kids := service.content, Children(service.content);
    service.content := service.content + [key, value];
    ChildrenAppend(content, [key, value]);
    AppendedTree(service, content, kids, key, value, entry);
  }

  /** A key and a list with one entry. */
  method NewHosts(host: string, ip: string) returns (key: Node, value: Node, ghost entry: Node)
    ensures fresh({key, value, entry}) && key != value && key != entry && value != entry
    ensures Children([key, value]) == {entry}
    ensures key.Own() == Text(EXTRA_HOSTS) && value.Own() == Leaf(Sequence, SEQ, "")
    ensures Leaves(value.content) == [Text(Entry(host, ip))]
  {
    key := new Node(Scalar, STR, EXTRA_HOSTS, []);
    var child := new Node(Scalar, STR, Entry(host, ip), []);
    value := new Node(Sequence, SEQ, "", [child]);
    entry := child;
    ChildrenOfEntry(key, value, entry);
  }

  /** A service without extra_hosts gets them at its end. */
  method AddHosts(service: Node, host: string, ip: string)
    requires Tree(service) && ExtraHostsNode(service) == null
    modifies service
    ensures View(service) == Added(old(View(service)), host, ip)
    ensures Tree(service) == old(Tree(service)) && fresh(Footprint(service) - old(Footprint(service)))
    ensures Grown(service) && AtTheEnd(service)
  {
    ghost var leaves := Leaves(service.content);
    var key, value := AppendHosts(service, host, ip);
    if service.kind == Mapping {
      assert Leaves(service.content) == leaves + [Text(EXTRA_HOSTS), value.Own()];
      KeyFromAppend(leaves, Text(EXTRA_HOSTS), value.Own(), 0);
    }
  }

  /** A scalar becomes an empty list first; then the host is added to what is there. */
  method AddToHosts(extra: Node, host: string, ip: string)
    requires extra !in extra.content
    modifies extra
    ensures HostsOf(extra) == Added(old(HostsOf(extra)), host, ip)
    ensures forall m | m in extra.content :: m in old(extra.content) || fresh(m)
  {
    if extra.kind == Scalar {
      extra.kind, extra.tag, extra.value, extra.content := Sequence, SEQ, "", [];
    }
    label Promoted:
    if extra.kind == Sequence {
      AddToList(extra, host, ip);
      assert Grown@Promoted(extra);
    } else if extra.kind == Mapping {
      AddToMapping(extra, host, ip);
    }
  }

  /** Only the value of extra_hosts changes, and the service stays a tree. */
  method AddToExisting(service: Node, extra: Node, host: string, ip: string)
    requires Tree(service) && extra == ExtraHostsNode(service)
    modifies extra
    ensures View(service) == Added(old(View(service)), host, ip)
    ensures Tree(service) == old(Tree(service)) && fresh(Footprint(service) - old(Footprint(service)))
  {
    ghost var kids, leaves, entries := Children(service.content), Leaves(service.content), extra.content;
    assert forall m | m in extra.content :: m in kids;
    ghost var at := KeyFrom(leaves, EXTRA_HOSTS, 0).value + 1;
    KeyFromEven(leaves, EXTRA_HOSTS, 0);
    forall k | 0 <= k < |leaves| && k != at ensures service.content[k] != extra {
      DistinctAt(service.content, if k < at then k else at, if k < at then at else k);
    }
    AddToHosts(extra, host, ip);
    ghost var more := set n | n in extra.content && n !in entries;
    assert Children(service.content) <= kids + more;
    TreeWith(service, service.content, kids, Children(service.content), more);
    KeyFromByValues(leaves, Leaves(service.content), EXTRA_HOSTS, 0);
  }

  /** Adds a host to the extra_hosts of a service, in place, unless it is there already. */
  method AddExtraHostEntry(service: Node, host: string, ip: string)
    requires Tree(service)
    modifies service, ExtraHostsNode(service)
    ensures View(service) == Added(old(View(service)), host, ip)
    ensures Tree(service) == old(Tree(service)) && fresh(Footprint(service) - old(Footprint(service)))
    ensures Grown(service)
    ensures if old(ExtraHostsNode(service)) != null then service.content == old(service.content) else AtTheEnd(service)
  {
    var extra := FindMappingValue(service, EXTRA_HOSTS);
    if extra == null {
      AddHosts(service, host, ip);
    } else {
      AddToExisting(service, extra, host, ip);
    }
  }

  // ---------- all services of a file ----------

  /** What becomes of the extra_hosts of one service. */
  function Patched(h: Hosts, name: string, needsPatch: set<string>, host: string, ip: string): Hosts {
    if name in needsPatch then Added(h, host, ip) else h
  }

  /** The node holds names and services in turn. */
  ghost predicate Holds(file: Node, keys: seq<Node>, names: seq<string>, services: seq<Node>)
    reads file, keys
  {
    && |keys| == |names| == |services| == |file.content| / 2
    && (forall k | 0 <= k < |services| :: file.content[2 * k] == keys[k] && file.content[2 * k + 1] == services[k])
    && forall k | 0 <= k < |keys| :: keys[k].value == names[k]
  }

  /** The service is a tree with these extra_hosts and these nodes. */
  ghost predicate Showing(service: Node, view: Hosts, feet: set<Node>)
    reads Footprint(service)
  {
    Tree(service) && View(service) == view && Footprint(service) == feet
  }

  function Grandchildren(nodes: seq<Node>): set<Node>
    reads nodes, Children(nodes)
  {
    set s, n, m | s in nodes && n in s.content && n in Children(nodes) && m in n.content :: m
  }

  /** All services are trees with these extra_hosts and these nodes, and no two share a node. */
  ghost predicate AllShow(services: seq<Node>, views: seq<Hosts>, feet: seq<set<Node>>)
    reads services, Children(services), Grandchildren(services)
  {
    assert forall s, n | s in services && n in s.content :: n in Children(services);
    assert forall s, n, m | s in services && n in s.content && m in n.content :: m in Grandchildren(services);
    && |services| == |views| == |feet|
    && (forall k | 0 <= k < |services| :: Showing(services[k], views[k], feet[k]))
    && forall k, l | 0 <= k < l < |feet| :: feet[k] !! feet[l]
  }

  /** The same of the first n services, one by one. */
  ghost predicate Shows(services: seq<Node>, views: seq<Hosts>, feet: seq<set<Node>>, n: nat)
    requires n <= |services| == |views| == |feet|
    reads services, Children(services), Grandchildren(services)
  {
    if n == 0 then true
    else
      assert services[n - 1] in services;
      assert forall m | m in services[n - 1].content :: m in Children(services);
      assert forall m, x | m in services[n - 1].content && x in m.content :: x in Grandchildren(services);
      && Showing(services[n - 1], views[n - 1], feet[n - 1])
      && (forall k | 0 <= k < n - 1 :: feet[k] !! feet[n - 1])
      && Shows(services, views, feet, n - 1)
  }

  lemma {:induction false} ShowsIff(services: seq<Node>, views: seq<Hosts>, feet: seq<set<Node>>, n: nat)
    requires n <= |services| == |views| == |feet|
    ensures Shows(services, views, feet, n) <==>
      && (forall k | 0 <= k < n :: Showing(services[k], views[k], feet[k]))
      && (forall k, l | 0 <= k < l < n :: feet[k] !! feet[l])
  {
    if n > 0 {
      ShowsIff(services, views, feet, n - 1);
    }
  }

  method PatchOne(ghost services: seq<Node>, ghost views: seq<Hosts>, ghost feet: seq<set<Node>>, ghost i: nat,
                  service: Node, host: string, ip: string)
    returns (ghost foot: set<Node>)
    requires AllShow(services, views, feet) && i < |services| && services[i] == service
    modifies feet[i]
    ensures Showing(service, Added(views[i], host, ip), foot) && fresh(foot - feet[i])
    ensures forall k | 0 <= k < |services| && k != i :: Showing(services[k], views[k], feet[k])
  {
    assert Showing(service, views[i], feet[i]);
    forall k | 0 <= k < |services| && k != i ensures feet[k] !! feet[i] && Showing(services[k], views[k], feet[k]) {
    }
    AddExtraHostEntry(service, host, ip);
    foot := Footprint(service);
  }

  /** The node of all services and the names are no part of a service. */
  ghost predicate Outside(file: Node, keys: seq<Node>, foot: set<Node>) {
    file !in foot && forall k | 0 <= k < |keys| :: keys[k] !in foot
  }

  /** One service is patched if it needs to be: the others keep theirs, and still no two share a node. */
  method PatchService(ghost file: Node, ghost keys: seq<Node>, ghost services: seq<Node>, ghost views: seq<Hosts>,
                      ghost feet: seq<set<Node>>, ghost i: nat, ghost foot: set<Node>, name: string, service: Node,
                      needsPatch: set<string>, host: string, ip: string)
    returns (ghost views': seq<Hosts>, ghost feet': seq<set<Node>>)
    requires i < |services| == |views| == |feet| && services[i] == service && Shows(services, views, feet, |services|)
    requires feet[i] == foot && Outside(file, keys, foot)
    modifies if name in needsPatch then foot else {}
    ensures |services| == |views'| == |feet'| && Shows(services, views', feet', |services|)
    ensures views' == views[i := Patched(views[i], name, needsPatch, host, ip)] && feet' == feet[i := feet'[i]]
    ensures file.content == old(file.content) && forall k | 0 <= k < |keys| :: keys[k].value == old(keys[k].value)
  {
    if name !in needsPatch {
      return views, feet;
    }
    ShowsIff(services, views, feet, |services|);
    ghost var grown := PatchOne(services, views, feet, i, service, host, ip);
    views', feet' := views[i := Added(views[i], host, ip)], feet[i := grown];
    ShowsIff(services, views', feet', |services|);
  }

  /**
   Adds the host to every service whose name needs the patch, and changes no node of any other: `vs` are the
   extra_hosts afterwards, and `fs` the nodes.
   */
  method PatchServices(file: Node, ghost keys: seq<Node>, ghost names: seq<string>, ghost services: seq<Node>,
                       ghost views: seq<Hosts>, ghost feet: seq<set<Node>>,
                       needsPatch: set<string>, host: string, ip: string)
    returns (ghost vs: seq<Hosts>, ghost fs: seq<set<Node>>)
    requires Holds(file, keys, names, services)
    requires |services| == |views| == |feet| && Shows(services, views, feet, |services|)
    requires forall k | 0 <= k < |feet| :: Outside(file, keys, feet[k])
    modifies set k, n | 0 <= k < |feet| && names[k] in needsPatch && n in feet[k] :: n
    ensures Holds(file, keys, names, services)
    ensures |services| == |vs| == |fs| && Shows(services, vs, fs, |services|)
    ensures forall k | 0 <= k < |services| :: vs[k] == Patched(views[k], names[k], needsPatch, host, ip)
  {
    vs, fs := views, feet;
    ghost var k := 0;
    var i := 0;
    while i + 1 < |file.content|
      invariant k <= |services| && i == 2 * k
      invariant Halfway(file, keys, names, services, views, feet, needsPatch, host, ip, k, vs, fs)
      decreases |file.content| - i
    {
      Turn(file, keys, names, services, views, feet, needsPatch, host, ip, k, vs, fs);
      vs, fs := PatchNext(file, keys, names, services, views, feet, file.content[i].value, file.content[i + 1],
        needsPatch, host, ip, k, vs, fs);
      i, k := i + 2, k + 1;
    }
  }

  /** The file holds its services, of which the first k are patched. */
  ghost predicate Halfway(file: Node, keys: seq<Node>, names: seq<string>, services: seq<Node>, views: seq<Hosts>,
                          feet: seq<set<Node>>, needsPatch: set<string>, host: string, ip: string,
                          k: nat, vs: seq<Hosts>, fs: seq<set<Node>>)
    reads file, keys, services, Children(services), Grandchildren(services)
  {
    && Holds(file, keys, names, services)
    && |services| == |vs| == |fs| && Shows(services, vs, fs, |services|)
    && SoFar(views, names, feet, needsPatch, host, ip, k, vs, fs)
    && forall l | 0 <= l < |feet| :: Outside(file, keys, feet[l])
  }

  /** What the loop finds at the k-th pair. */
  lemma Turn(file: Node, keys: seq<Node>, names: seq<string>, services: seq<Node>, views: seq<Hosts>,
             feet: seq<set<Node>>, needsPatch: set<string>, host: string, ip: string,
             k: nat, vs: seq<Hosts>, fs: seq<set<Node>>)
    requires Halfway(file, keys, names, services, views, feet, needsPatch, host, ip, k, vs, fs)
    requires 2 * k + 1 < |file.content|
    ensures k < |services| && services[k] == file.content[2 * k + 1] && file.content[2 * k].value == names[k]
    ensures Outside(file, keys, feet[k]) && fs[k] == feet[k]
  {
    assert keys[k] == file.content[2 * k];
  }

  /** The k-th service's turn. */
  method PatchNext(ghost file: Node, ghost keys: seq<Node>, ghost names: seq<string>, ghost services: seq<Node>,
                   ghost views: seq<Hosts>, ghost feet: seq<set<Node>>, name: string, service: Node,
                   needsPatch: set<string>, host: string, ip: string,
                   ghost k: nat, ghost vs: seq<Hosts>, ghost fs: seq<set<Node>>)
    returns (ghost vs': seq<Hosts>, ghost fs': seq<set<Node>>)
    requires Holds(file, keys, names, services)
    requires |services| == |vs| == |fs| && Shows(services, vs, fs, |services|)
    requires k < |services| && service == services[k] && name == names[k]
    requires SoFar(views, names, feet, needsPatch, host, ip, k, vs, fs) && Outside(file, keys, feet[k])
    modifies if name in needsPatch then feet[k] else {}
    ensures Holds(file, keys, names, services)
    ensures |services| == |vs'| == |fs'| && Shows(services, vs', fs', |services|)
    ensures SoFar(views, names, feet, needsPatch, host, ip, k + 1, vs', fs')
    ensures file.content == old(file.content)
  {
    vs', fs' := PatchService(file, keys, services, vs, fs, k, feet[k], name, service, needsPatch, host, ip);
    SoFarSnoc(views, names, feet, needsPatch, host, ip, k, vs, fs, fs'[k]);
  }

  /** The first k services are patched, and the others are as they were. */
  ghost predicate SoFar(views: seq<Hosts>, names: seq<string>, feet: seq<set<Node>>, needsPatch: set<string>,
                        host: string, ip: string, k: nat, vs: seq<Hosts>, fs: seq<set<Node>>)
  {
    && k <= |views| == |names| == |feet| == |vs| == |fs|
    && (forall l | 0 <= l < k :: vs[l] == Patched(views[l], names[l], needsPatch, host, ip))
    && (forall l | k <= l < |views| :: vs[l] == views[l] && fs[l] == feet[l])
  }

  lemma SoFarSnoc(views: seq<Hosts>, names: seq<string>, feet: seq<set<Node>>, needsPatch: set<string>, host: string,
                  ip: string, k: nat, vs: seq<Hosts>, fs: seq<set<Node>>, foot: set<Node>)
    requires SoFar(views, names, feet, needsPatch, host, ip, k, vs, fs) && k < |views|
    ensures SoFar(views, names, feet, needsPatch, host, ip, k + 1,
                  vs[k := Patched(vs[k], names[k], needsPatch, host, ip)], fs[k := foot])
  {
  }
}
