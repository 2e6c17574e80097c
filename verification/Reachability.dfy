/** The heap as the marker sees it, and what it means for an object to be reachable. */
module Reachability {
  import opened Wrappers

  /** One cell.  `size` is the length of the block that a header opens. */
  datatype HeapBlock =
    | Reference(target: Option<nat>)
    | Instance(size: nat) // a class or a value type: its fields follow
    | Array(size: nat, references: bool, numOfElements: nat) // its elements follow
    | Delegate(size: nat, instance: nat)
    | DelegateList(size: nat, delegates: nat, length: nat)
    | Other(size: nat)

  datatype Cluster = Cluster(payloadStart: nat, payloadEnd: nat)

  /** `events` holds the blocks that are alive by their own flag. */
  datatype Memory = Memory(cells: seq<HeapBlock>, clusters: seq<Cluster>, events: set<nat>)

  function DataSize(b: HeapBlock): nat {
    if b.Reference? then 1 else b.size
  }

  /** The cells that a header leads to: how many, from where. */
  function ListOf(cells: seq<HeapBlock>, ptr: nat): (nat, nat)
    requires ptr < |cells|
  {
    match cells[ptr]
    case Instance(size) => (ptr + 1, if size == 0 then 0 else size - 1)
    case Array(_, references, n) => if references then (ptr + 1, n) else (0, 0)
    case Delegate(_, instance) => (instance, 1)
    case DelegateList(_, delegates, length) => (delegates, length)
    case _ => (0, 0)
  }

  /** The block headers from `ptr` to the end of a cluster. */
  function Starts(cells: seq<HeapBlock>, ptr: nat, end: nat): set<nat>
    decreases end - ptr
  {
    if ptr >= end || ptr >= |cells| || DataSize(cells[ptr]) == 0 then {}
    else {ptr} + Starts(cells, ptr + DataSize(cells[ptr]), end)
  }

  function HeadersOf(cells: seq<HeapBlock>, clusters: seq<Cluster>): set<nat> {
    if clusters == [] then {}
    else HeadersOf(cells, clusters[..|clusters| - 1])
         + Starts(cells, clusters[|clusters| - 1].payloadStart, clusters[|clusters| - 1].payloadEnd)
  }

  function Headers(m: Memory): set<nat> {
    HeadersOf(m.cells, m.clusters)
  }

  lemma {:induction false} StartsChain(cells: seq<HeapBlock>, ptr: nat, end: nat, h: nat)
    requires TiledBy(cells, ptr, end) && h in Starts(cells, ptr, end)
    ensures ptr <= h < end && h < |cells| && !(ptr < h < ptr + DataSize(cells[ptr]))
    ensures h + DataSize(cells[h]) >= end || h + DataSize(cells[h]) in Starts(cells, ptr, end)
    ensures h == ptr || exists g: nat :: g in Starts(cells, ptr, end) && g < |cells| && g + DataSize(cells[g]) == h
    decreases end - ptr
  {
    var next := ptr + DataSize(cells[ptr]);
    if h != ptr {
      StartsChain(cells, next, end, h);
    }
  }

  lemma {:induction false} HeaderCluster(cells: seq<HeapBlock>, clusters: seq<Cluster>, h: nat) returns (k: nat)
    requires h in HeadersOf(cells, clusters)
    ensures k < |clusters| && h in Starts(cells, clusters[k].payloadStart, clusters[k].payloadEnd)
  {
    var n := |clusters| - 1;
    if h in Starts(cells, clusters[n].payloadStart, clusters[n].payloadEnd) {
      k := n;
    } else {
      k := HeaderCluster(cells, clusters[..n], h);
    }
  }

  lemma {:induction false} ClusterHeaders(cells: seq<HeapBlock>, clusters: seq<Cluster>, k: nat)
    requires k < |clusters|
    ensures Starts(cells, clusters[k].payloadStart, clusters[k].payloadEnd) <= HeadersOf(cells, clusters)
  {
    var n := |clusters| - 1;
    if k < n { ClusterHeaders(cells, clusters[..n], k); }
  }

  function SizeOf(b: HeapBlock): nat {
    match b
    case Reference(_) => 1
    case Instance(size) => size
    case Array(size, _, _) => size
    case Delegate(size, _) => size
    case DelegateList(size, _, _) => size
    case Other(size) => size
  }

  /** The headers are the start of every cluster that is not empty, and behind every header the next, up to the end. */
  lemma HeadersTile(m: Memory, h: nat) returns (k: nat)
    requires WellFormed(m) && h in Headers(m)
    ensures k < |m.clusters| && m.clusters[k].payloadStart <= h < m.clusters[k].payloadEnd && h < |m.cells|
    ensures var next := h + SizeOf(m.cells[h]); next >= m.clusters[k].payloadEnd || next in Headers(m)
    ensures h == m.clusters[k].payloadStart || exists g: nat :: g in Headers(m) && g < |m.cells| && g + SizeOf(m.cells[g]) == h
  {
    k := HeaderCluster(m.cells, m.clusters, h);
    ClusterHeaders(m.cells, m.clusters, k);
    StartsChain(m.cells, m.clusters[k].payloadStart, m.clusters[k].payloadEnd, h);
  }

  lemma FirstHeader(m: Memory, k: nat)
    requires WellFormed(m) && k < |m.clusters| && m.clusters[k].payloadStart < m.clusters[k].payloadEnd
    ensures m.clusters[k].payloadStart in Headers(m)
  {
    ClusterHeaders(m.cells, m.clusters, k);
  }

  /** `num` plain cells from `lst` on: references and values, no headers. */
  ghost predicate PlainCells(m: Memory, lst: nat, num: nat) {
    lst + num <= |m.cells| && forall c :: lst <= c < lst + num ==>
      (m.cells[c].Reference? || m.cells[c].Other?) && c !in Headers(m)
  }

  ghost predicate TiledBy(cells: seq<HeapBlock>, ptr: nat, end: nat)
    decreases end - ptr
  {
    ptr >= end || (ptr < |cells| && DataSize(cells[ptr]) > 0 && TiledBy(cells, ptr + DataSize(cells[ptr]), end))
  }

  ghost predicate WellFormed(m: Memory) {
    && (forall k :: 0 <= k < |m.clusters| ==> TiledBy(m.cells, m.clusters[k].payloadStart, m.clusters[k].payloadEnd))
    && (forall h :: h in Headers(m) ==> h < |m.cells| && !m.cells[h].Reference?)
    && (forall h :: h in Headers(m) && h < |m.cells| && ListOf(m.cells, h).1 > 0 ==> PlainCells(m, ListOf(m.cells, h).0, ListOf(m.cells, h).1))
    && (forall c :: 0 <= c < |m.cells| && m.cells[c].Reference? && m.cells[c].target.Some? ==> m.cells[c].target.value in Headers(m))
  }

  /** Cell `c` refers to object `t`, which is not kept alive by its own flag. */
  ghost predicate Refers(m: Memory, c: nat, t: nat) {
    c < |m.cells| && m.cells[c] == Reference(Some(t)) && t !in m.events
  }

  ghost predicate InList(m: Memory, h: nat, c: nat) {
    h < |m.cells| && ListOf(m.cells, h).0 <= c < ListOf(m.cells, h).0 + ListOf(m.cells, h).1
  }

  ghost predicate Edge(m: Memory, h: nat, t: nat) {
    exists c: nat :: InList(m, h, c) && Refers(m, c, t)
  }

  ghost predicate IsPath(m: Memory, p: seq<nat>) {
    |p| > 0 && forall i :: 0 <= i < |p| - 1 ==> Edge(m, p[i], p[i + 1])
  }

  /** Object `h` can be reached from one of `from` along references. */
  ghost predicate Reachable(m: Memory, from: iset<nat>, h: nat) {
    exists p: seq<nat> :: IsPath(m, p) && p[0] in from && p[|p| - 1] == h
  }

  lemma ReachRoot(m: Memory, from: iset<nat>, h: nat)
    requires h in from
    ensures Reachable(m, from, h)
  {
    assert IsPath(m, [h]) && [h][0] in from;
  }

  lemma ReachEdge(m: Memory, from: iset<nat>, h: nat, c: nat, t: nat)
    requires Reachable(m, from, h) && InList(m, h, c) && Refers(m, c, t)
    ensures Reachable(m, from, t)
  {
    var p: seq<nat> :| IsPath(m, p) && p[0] in from && p[|p| - 1] == h;
    var q := p + [t];
    assert Edge(m, h, t);
    assert forall i :: 0 <= i < |q| - 1 ==> Edge(m, q[i], q[i + 1]);
    assert IsPath(m, q) && q[0] in from && q[|q| - 1] == t;
  }

  /** A set that holds the start and is closed under references holds all that is reachable. */
  lemma {:induction false} ReachClosed(m: Memory, from: iset<nat>, inside: iset<nat>, p: seq<nat>)
    requires from <= inside && forall h, t :: h in inside && Edge(m, h, t) ==> t in inside
    requires IsPath(m, p) && p[0] in from
    ensures p[|p| - 1] in inside
  {
    if |p| > 1 {
      var q := p[..|p| - 1];
      assert forall i :: 0 <= i < |q| - 1 ==> Edge(m, q[i], q[i + 1]);
      ReachClosed(m, from, inside, q);
      assert Edge(m, p[|p| - 2], p[|p| - 1]);
    }
  }

  lemma ReachMore(m: Memory, from: iset<nat>, more: iset<nat>, h: nat)
    requires Reachable(m, from, h) && from <= more
    ensures Reachable(m, more, h)
  {
    var p: seq<nat> :| IsPath(m, p) && p[0] in from && p[|p| - 1] == h;
    assert p[0] in more;
  }
}
