/** The height-balanced tree of the runtime, updated in place through parent links.

    A node reference passed by reference in the runtime is an in-parameter and an
    out-parameter here.  The shape of a tree travels beside the nodes as a ghost
    value, so heights, node sets and the in-order sequence do not depend on the heap;
    only the links and skews of the nodes are read from it. */
module AvlTree {

  type uint32 = x: int | 0 <= x < 0x1_0000_0000

  /** One cached answer: the first two fields are the key, the third is the value. */
  datatype Payload = Payload(mdVirtual: uint32, cls: uint32, md: uint32)

  /** The key as one number: the virtual method decides first, the class second. */
  function Rank(p: Payload): int {
    p.mdVirtual * 0x1_0000_0000 + p.cls
  }

  function Compare(left: Payload, right: Payload): (r: int) {
    if left.mdVirtual == right.mdVirtual then
      if left.cls == right.cls then 0
      else if left.cls < right.cls then -1 else 1
    else if left.mdVirtual < right.mdVirtual then -1 else 1
  }

  /** The comparer is a total order: its sign is the sign of the difference of the ranks. */
  lemma CompareOrders(a: Payload, b: Payload)
    ensures Compare(a, b) < 0 <==> Rank(a) < Rank(b)
    ensures Compare(a, b) == 0 <==> Rank(a) == Rank(b)
    ensures Compare(a, b) > 0 <==> Rank(a) > Rank(b)
    ensures Rank(a) == Rank(b) <==> a.mdVirtual == b.mdVirtual && a.cls == b.cls
  {
  }

  const SKEW_LEFT := -1
  const SKEW_NONE := 0
  const SKEW_RIGHT := 1

  datatype Result = RES_OK | RES_BALANCE | RES_NOTFOUND | RES_DUPLICATE | RES_ERROR

  class Entry {
    var left: Entry?
    var right: Entry?
    var skew: int
    var payload: Payload

    constructor (p: Payload) {
      left, right, skew, payload := null, null, SKEW_NONE, p;
    }
  }

  // ---------- Shapes: the linked structure as a value ----------

  datatype Shape = Nil | Bin(l: Shape, node: Entry, skew: int, payload: Payload, r: Shape)

  ghost function Nodes(s: Shape): set<Entry> {
    match s
    case Nil => {}
    case Bin(l, n, _, _, r) => Nodes(l) + {n} + Nodes(r)
  }

  ghost function InOrder(s: Shape): seq<Payload> {
    match s
    case Nil => []
    case Bin(l, _, _, p, r) => InOrder(l) + [p] + InOrder(r)
  }

  ghost function Height(s: Shape): nat {
    match s
    case Nil => 0
    case Bin(l, _, _, _, r) => Above(Height(l), Height(r))
  }

  ghost function Above(hl: nat, hr: nat): nat {
    1 + if hl < hr then hr else hl
  }

  /** No node occurs twice. */
  ghost predicate Proper(s: Shape) {
    match s
    case Nil => true
    case Bin(l, n, _, _, r) => Proper(l) && Proper(r) && n !in Nodes(l) && n !in Nodes(r) && Nodes(l) !! Nodes(r)
  }

  /** Every skew field is the difference of the subtree heights, and lies in {-1, 0, 1}. */
  ghost predicate Balanced(s: Shape) {
    match s
    case Nil => true
    case Bin(l, _, k, _, r) => Balanced(l) && Balanced(r) && k == Height(r) - Height(l) && -1 <= k <= 1
  }

  /** The fewest nodes a balanced tree of height `h` can have. */
  ghost function FewestNodes(h: nat): nat {
    if h == 0 then 0 else if h == 1 then 1 else 1 + FewestNodes(h - 1) + FewestNodes(h - 2)
  }

  lemma {:induction false} FewestNodesUp(h: nat, k: nat)
    requires h <= k
    ensures FewestNodes(h) <= FewestNodes(k)
    decreases k
  {
    if h < k {
      FewestNodesGrow(k - 1);
      FewestNodesUp(h, k - 1);
    }
  }

  lemma {:induction false} FewestNodesGrow(h: nat)
    ensures FewestNodes(h) < FewestNodes(h + 1)
  {
    if h > 1 {
      FewestNodesGrow(h - 1);
      FewestNodesGrow(h - 2);
    }
  }

  /** Balance bounds the height, and with it the number of nodes that a search visits. */
  lemma {:induction false} BalancedIsShallow(s: Shape)
    requires Balanced(s)
    ensures FewestNodes(Height(s)) <= |InOrder(s)|
  {
    if s.Bin? {
      BalancedIsShallow(s.l);
      BalancedIsShallow(s.r);
      var h := Height(s);
      if h > 1 {
        FewestNodesGrow(h - 2);
      }
    }
  }

  /** The nodes reached from `n` hold exactly the shape `s`. */
  ghost predicate Linked(n: Entry?, s: Shape)
    reads Nodes(s)
  {
    match s
    case Nil => n == null
    case Bin(l, e, k, p, r) =>
      n == e && e.skew == k && e.payload == p && Linked(e.left, l) && Linked(e.right, r)
  }

  /** The children of a linked node are its shape's subtrees. */
  lemma LinkedNode(n: Entry?, s: Shape)
    requires Linked(n, s) && s.Bin?
    ensures n == s.node && Linked(s.node.left, s.l) && Linked(s.node.right, s.r)
    ensures s.l.Bin? ==> s.node.left == s.l.node
    ensures s.r.Bin? ==> s.node.right == s.r.node
  {
  }

  // ---------- Rotations ----------

  ghost function RotatedLeft(s: Shape): (t: Shape)
    requires s.Bin? && s.r.Bin?
    ensures InOrder(t) == InOrder(s) && Nodes(t) == Nodes(s)
  {
    assert InOrder(s.l) + [s.payload] + (InOrder(s.r.l) + [s.r.payload] + InOrder(s.r.r))
        == (InOrder(s.l) + [s.payload] + InOrder(s.r.l)) + [s.r.payload] + InOrder(s.r.r);
    s.r.(l := s.(r := s.r.l))
  }

  ghost function RotatedRight(s: Shape): (t: Shape)
    requires s.Bin? && s.l.Bin?
    ensures InOrder(t) == InOrder(s) && Nodes(t) == Nodes(s)
  {
    assert (InOrder(s.l.l) + [s.l.payload] + InOrder(s.l.r)) + [s.payload] + InOrder(s.r)
        == InOrder(s.l.l) + [s.l.payload] + (InOrder(s.l.r) + [s.payload] + InOrder(s.r));
    s.l.(r := s.(l := s.l.r))
  }

  lemma RotatedProper(s: Shape)
    requires Proper(s) && s.Bin?
    ensures s.r.Bin? ==> Proper(RotatedLeft(s))
    ensures s.l.Bin? ==> Proper(RotatedRight(s))
  {
    if s.r.Bin? {
      assert Proper(s.r);
      assert Proper(s.(r := s.r.l));
    }
    if s.l.Bin? {
      assert Proper(s.l);
      assert Proper(s.(l := s.l.r));
    }
  }

  method RotateLeft(n: Entry, ghost s: Shape) returns (m: Entry)
    requires Proper(s) && Linked(n, s) && s.Bin? && s.r.Bin?
    modifies n`right, s.r.node`left
    ensures Proper(RotatedLeft(s)) && Linked(m, RotatedLeft(s))
  {
    RotatedProper(s);
    LinkedNode(n, s);
    LinkedNode(n.right, s.r);
    var top := n;
    var bottom := top.right;
    top.right := bottom.left;
    bottom.left := top;
    m := bottom;
    assert Linked(top, s.(r := s.r.l));
  }

  method RotateRight(n: Entry, ghost s: Shape) returns (m: Entry)
    requires Proper(s) && Linked(n, s) && s.Bin? && s.l.Bin?
    modifies n`left, s.l.node`right
    ensures Proper(RotatedRight(s)) && Linked(m, RotatedRight(s))
  {
    RotatedProper(s);
    LinkedNode(n, s);
    LinkedNode(n.left, s.l);
    var top := n;
    var bottom := top.left;
    top.left := bottom.right;
    bottom.right := top;
    m := bottom;
    assert Linked(top, s.(l := s.l.r));
  }

  /** What an insertion leaves behind when it has added a level: a fresh leaf or a leaning tree. */
  ghost predicate Grown(s: Shape) {
    s.Bin? && Balanced(s) && (s.skew != SKEW_NONE || Height(s) == 1)
  }

  method SetSkew(n: Entry, k: int, ghost s: Shape) returns (ghost t: Shape)
    requires Proper(s) && Linked(n, s) && s.Bin?
    modifies n`skew
    ensures t == s.(skew := k) && Proper(t) && Linked(n, t)
  {
    n.skew := k;
    t := s.(skew := k);
  }

  // ---------- Rebalancing a tree that leans left ----------

  ghost function OnceRight(s: Shape, outer: int, inner: int): (t: Shape)
    requires s.Bin? && s.l.Bin?
    ensures InOrder(t) == InOrder(s) && Nodes(t) == Nodes(s)
  {
    assert InOrder(s.l.(skew := inner)) == InOrder(s.l) && Nodes(s.l.(skew := inner)) == Nodes(s.l);
    RotatedRight(s.(skew := outer, l := s.l.(skew := inner)))
  }

  /** Skews set before a double rotation, from the skew of the node that comes to the top. */
  ghost function SkewedRight(s: Shape): Shape
    requires s.Bin? && s.l.Bin? && s.l.r.Bin?
  {
    var k := s.l.r.skew;
    s.(skew := if k == SKEW_LEFT then SKEW_RIGHT else SKEW_NONE,
       l := s.l.(skew := if k == SKEW_RIGHT then SKEW_LEFT else SKEW_NONE,
                 r := s.l.r.(skew := SKEW_NONE)))
  }

  ghost function TwiceRight(s: Shape): Shape
    requires s.Bin? && s.l.Bin? && s.l.r.Bin?
  {
    var k := SkewedRight(s);
    RotatedRight(k.(l := RotatedLeft(k.l)))
  }

  /** The left subtree is two levels higher than the right one. */
  ghost predicate LeansLeft(s: Shape) {
    s.Bin? && Balanced(s.l) && Balanced(s.r) && Height(s.l) == Height(s.r) + 2
  }

  lemma OnceRightBalances(s: Shape)
    requires LeansLeft(s) && s.l.skew == SKEW_LEFT
    ensures var t := OnceRight(s, SKEW_NONE, SKEW_NONE);
            Balanced(t) && Height(t) == Height(s.l)
  {
    var t := OnceRight(s, SKEW_NONE, SKEW_NONE);
    assert Height(t.r) == Height(s.r) + 1 && Balanced(t.r);
    assert Balanced(t.l);
  }

  lemma OnceRightLevels(s: Shape)
    requires LeansLeft(s) && s.l.skew == SKEW_NONE
    ensures var t := OnceRight(s, SKEW_LEFT, SKEW_RIGHT);
            Balanced(t) && Height(t) == Height(s.l) + 1
  {
    var t := OnceRight(s, SKEW_LEFT, SKEW_RIGHT);
    assert Height(t.r) == Height(s.r) + 2 && Balanced(t.r);
    assert Balanced(t.l);
  }

  lemma TwiceRightBalances(s: Shape)
    requires LeansLeft(s) && s.l.skew == SKEW_RIGHT
    ensures s.l.r.Bin?
    ensures var t := TwiceRight(s);
            Balanced(t) && Height(t) == Height(s.l) && InOrder(t) == InOrder(s) && Nodes(t) == Nodes(s)
  {
    var k := SkewedRight(s);
    assert Balanced(s.l.r);
    assert InOrder(k.l) == InOrder(s.l) && Nodes(k.l) == Nodes(s.l);
    var t := TwiceRight(s);
    assert Balanced(t.l) && Balanced(t.r);
  }

  lemma SkewedRightProper(s: Shape)
    requires Proper(s) && s.Bin? && s.l.Bin? && s.l.r.Bin?
    ensures Proper(SkewedRight(s)) && Nodes(SkewedRight(s)) == Nodes(s)
  {
    var t := SkewedRight(s);
    assert Proper(s.l) && Proper(s.l.r);
    assert Nodes(t.l.r) == Nodes(s.l.r) && Proper(t.l.r);
    assert Nodes(t.l) == Nodes(s.l) && Proper(t.l);
  }

  method SetSkewsRight(n: Entry, left: Entry, right: Entry, ghost s: Shape)
    requires Proper(s) && Linked(n, s) && s.Bin? && s.l.Bin? && s.l.r.Bin?
    requires left == s.l.node && right == s.l.r.node
    modifies n`skew, left`skew, right`skew
    ensures Linked(n, SkewedRight(s)) && Proper(SkewedRight(s))
  {
    hide Balanced, InOrder, Height;
    LinkedNode(n, s);
    LinkedNode(left, s.l);
    LinkedNode(right, s.l.r);
    SkewedRightProper(s);
    assert Proper(s.l) && Proper(s.l.r);
    var outer, inner := SKEW_NONE, SKEW_NONE;
    if right.skew == SKEW_LEFT {
      outer := SKEW_RIGHT;
    } else if right.skew == SKEW_RIGHT {
      inner := SKEW_LEFT;
    }
    n.skew, left.skew, right.skew := outer, inner, SKEW_NONE;
    ghost var t := SkewedRight(s);
    assert Linked(right, t.l.r);
    assert Linked(left, t.l);
  }

  method RotateOnceRight(n: Entry, outer: int, inner: int, ghost s: Shape) returns (m: Entry)
    requires Proper(s) && Linked(n, s) && s.Bin? && s.l.Bin?
    modifies n`left, n`skew, s.l.node`right, s.l.node`skew
    ensures Linked(m, OnceRight(s, outer, inner)) && Proper(OnceRight(s, outer, inner))
  {
    LinkedNode(n, s);
    var left := n.left;
    LinkedNode(left, s.l);
    n.skew := outer;
    left.skew := inner;
    ghost var k := s.(skew := outer, l := s.l.(skew := inner));
    assert Nodes(k.l) == Nodes(s.l) && Proper(k.l);
    assert Linked(left, k.l);
    m := RotateRight(n, k);
  }

  method RotateLeftChild(n: Entry, ghost s: Shape)
    requires Proper(s) && Linked(n, s) && s.Bin? && s.l.Bin? && s.l.r.Bin?
    modifies n`left, s.l.node`right, s.l.r.node`left
    ensures Linked(n, s.(l := RotatedLeft(s.l))) && Proper(s.(l := RotatedLeft(s.l)))
  {
    LinkedNode(n, s);
    assert s.l.node in Nodes(s.l) && s.l.r.node in Nodes(s.l);
    assert allocated(Nodes(s.r));
    var p := RotateLeft(n.left, s.l);
    n.left := p;
    assert Linked(n.right, s.r);
    assert Linked(n.left, RotatedLeft(s.l));
  }

  method RotateTwiceRight(n: Entry, ghost s: Shape) returns (m: Entry)
    requires Proper(s) && Linked(n, s) && s.Bin? && s.l.Bin? && s.l.r.Bin?
    modifies n`left, n`skew, s.l.node`left, s.l.node`right, s.l.node`skew,
             s.l.r.node`left, s.l.r.node`right, s.l.r.node`skew
    ensures Linked(m, TwiceRight(s)) && Proper(TwiceRight(s))
  {
    LinkedNode(n, s);
    LinkedNode(n.left, s.l);
    SetSkewsRight(n, n.left, n.left.right, s);
    ghost var k := SkewedRight(s);
    RotateLeftChild(n, k);
    m := RotateRight(n, k.(l := RotatedLeft(k.l)));
  }

  /** The left subtree of `n` has just grown by one level. */
  method LeftGrown(n: Entry, ghost s: Shape) returns (m: Entry, res: Result, ghost t: Shape)
    requires Proper(s) && Linked(n, s) && s.Bin? && Grown(s.l) && Balanced(s.r)
    requires s.skew == Height(s.r) - (Height(s.l) - 1) && -1 <= s.skew <= 1
    modifies Nodes(s)`left, Nodes(s)`right, Nodes(s)`skew
    ensures Proper(t) && Linked(m, t) && Balanced(t) && InOrder(t) == InOrder(s) && Nodes(t) == Nodes(s)
    ensures res == RES_OK || (res == RES_BALANCE && Grown(t))
    ensures Height(t) == Above(Height(s.l) - 1, Height(s.r)) + if res == RES_BALANCE then 1 else 0
  {
    LinkedNode(n, s);
    m, t := n, s;
    if n.skew == SKEW_LEFT {
      var left := n.left;
      LinkedNode(left, s.l);
      if left.skew == SKEW_LEFT {
        OnceRightBalances(s);
        t := OnceRight(s, SKEW_NONE, SKEW_NONE);
        m := RotateOnceRight(n, SKEW_NONE, SKEW_NONE, s);
      } else {
        TwiceRightBalances(s);
        t := TwiceRight(s);
        m := RotateTwiceRight(n, s);
      }
      res := RES_OK;
    } else if n.skew == SKEW_RIGHT {
      t := SetSkew(n, SKEW_NONE, s);
      res := RES_OK;
    } else {
      t := SetSkew(n, SKEW_LEFT, s);
      res := RES_BALANCE;
    }
  }

  /** The right subtree of `n` has just lost one level. */
  method RightShrunk(n: Entry, ghost s: Shape) returns (m: Entry, res: Result, ghost t: Shape)
    requires Proper(s) && Linked(n, s) && s.Bin? && Balanced(s.l) && Balanced(s.r)
    requires s.skew == Height(s.r) + 1 - Height(s.l) && -1 <= s.skew <= 1
    modifies Nodes(s)`left, Nodes(s)`right, Nodes(s)`skew
    ensures Proper(t) && Linked(m, t) && Balanced(t) && InOrder(t) == InOrder(s) && Nodes(t) == Nodes(s)
    ensures res == RES_OK || res == RES_BALANCE
    ensures Height(t) == Above(Height(s.l), Height(s.r) + 1) - if res == RES_BALANCE then 1 else 0
  {
    LinkedNode(n, s);
    m, t := n, s;
    if n.skew == SKEW_RIGHT {
      t := SetSkew(n, SKEW_NONE, s);
      res := RES_BALANCE;
    } else if n.skew == SKEW_LEFT {
      var left := n.left;
      LinkedNode(left, s.l);
      if left.skew == SKEW_LEFT {
        OnceRightBalances(s);
        t := OnceRight(s, SKEW_NONE, SKEW_NONE);
        m := RotateOnceRight(n, SKEW_NONE, SKEW_NONE, s);
        res := RES_BALANCE;
      } else if left.skew == SKEW_NONE {
        OnceRightLevels(s);
        t := OnceRight(s, SKEW_LEFT, SKEW_RIGHT);
        m := RotateOnceRight(n, SKEW_LEFT, SKEW_RIGHT, s);
        res := RES_OK;
      } else {
        TwiceRightBalances(s);
        t := TwiceRight(s);
        m := RotateTwiceRight(n, s);
        res := RES_BALANCE;
      }
    } else {
      t := SetSkew(n, SKEW_LEFT, s);
      res := RES_OK;
    }
  }

  // ---------- Rebalancing a tree that leans right ----------

  ghost function OnceLeft(s: Shape, outer: int, inner: int): (t: Shape)
    requires s.Bin? && s.r.Bin?
    ensures InOrder(t) == InOrder(s) && Nodes(t) == Nodes(s)
  {
    assert InOrder(s.r.(skew := inner)) == InOrder(s.r) && Nodes(s.r.(skew := inner)) == Nodes(s.r);
    RotatedLeft(s.(skew := outer, r := s.r.(skew := inner)))
  }

  /** Skews set before a double rotation, from the skew of the node that comes to the top. */
  ghost function SkewedLeft(s: Shape): Shape
    requires s.Bin? && s.r.Bin? && s.r.l.Bin?
  {
    var k := s.r.l.skew;
    s.(skew := if k == SKEW_RIGHT then SKEW_LEFT else SKEW_NONE,
       r := s.r.(skew := if k == SKEW_LEFT then SKEW_RIGHT else SKEW_NONE,
                 l := s.r.l.(skew := SKEW_NONE)))
  }

  ghost function TwiceLeft(s: Shape): Shape
    requires s.Bin? && s.r.Bin? && s.r.l.Bin?
  {
    var k := SkewedLeft(s);
    RotatedLeft(k.(r := RotatedRight(k.r)))
  }

  /** The right subtree is two levels higher than the left one. */
  ghost predicate LeansRight(s: Shape) {
    s.Bin? && Balanced(s.r) && Balanced(s.l) && Height(s.r) == Height(s.l) + 2
  }

  lemma OnceLeftBalances(s: Shape)
    requires LeansRight(s) && s.r.skew == SKEW_RIGHT
    ensures var t := OnceLeft(s, SKEW_NONE, SKEW_NONE);
            Balanced(t) && Height(t) == Height(s.r)
  {
    var t := OnceLeft(s, SKEW_NONE, SKEW_NONE);
    assert Height(t.l) == Height(s.l) + 1 && Balanced(t.l);
    assert Balanced(t.r);
  }

  lemma OnceLeftLevels(s: Shape)
    requires LeansRight(s) && s.r.skew == SKEW_NONE
    ensures var t := OnceLeft(s, SKEW_RIGHT, SKEW_LEFT);
            Balanced(t) && Height(t) == Height(s.r) + 1
  {
    var t := OnceLeft(s, SKEW_RIGHT, SKEW_LEFT);
    assert Height(t.l) == Height(s.l) + 2 && Balanced(t.l);
    assert Balanced(t.r);
  }

  lemma TwiceLeftBalances(s: Shape)
    requires LeansRight(s) && s.r.skew == SKEW_LEFT
    ensures s.r.l.Bin?
    ensures var t := TwiceLeft(s);
            Balanced(t) && Height(t) == Height(s.r) && InOrder(t) == InOrder(s) && Nodes(t) == Nodes(s)
  {
    var k := SkewedLeft(s);
    assert Balanced(s.r.l);
    assert InOrder(k.r) == InOrder(s.r) && Nodes(k.r) == Nodes(s.r);
    var t := TwiceLeft(s);
    assert Balanced(t.r) && Balanced(t.l);
  }

  lemma SkewedLeftProper(s: Shape)
    requires Proper(s) && s.Bin? && s.r.Bin? && s.r.l.Bin?
    ensures Proper(SkewedLeft(s)) && Nodes(SkewedLeft(s)) == Nodes(s)
  {
    var t := SkewedLeft(s);
    assert Proper(s.r) && Proper(s.r.l);
    assert Nodes(t.r.l) == Nodes(s.r.l) && Proper(t.r.l);
    assert Nodes(t.r) == Nodes(s.r) && Proper(t.r);
  }

  method SetSkewsLeft(n: Entry, right: Entry, left: Entry, ghost s: Shape)
    requires Proper(s) && Linked(n, s) && s.Bin? && s.r.Bin? && s.r.l.Bin?
    requires right == s.r.node && left == s.r.l.node
    modifies n`skew, right`skew, left`skew
    ensures Linked(n, SkewedLeft(s)) && Proper(SkewedLeft(s))
  {
    hide Balanced, InOrder, Height;
    LinkedNode(n, s);
    LinkedNode(right, s.r);
    LinkedNode(left, s.r.l);
    SkewedLeftProper(s);
    assert Proper(s.r) && Proper(s.r.l);
    var outer, inner := SKEW_NONE, SKEW_NONE;
    if left.skew == SKEW_RIGHT {
      outer := SKEW_LEFT;
    } else if left.skew == SKEW_LEFT {
      inner := SKEW_RIGHT;
    }
    n.skew := outer;
    right.skew := inner;
    left.skew := SKEW_NONE;
    ghost var t := SkewedLeft(s);
    assert Linked(left, t.r.l);
    assert Linked(right, t.r);
  }

  method RotateOnceLeft(n: Entry, outer: int, inner: int, ghost s: Shape) returns (m: Entry)
    requires Proper(s) && Linked(n, s) && s.Bin? && s.r.Bin?
    modifies n`right, n`skew, s.r.node`left, s.r.node`skew
    ensures Linked(m, OnceLeft(s, outer, inner)) && Proper(OnceLeft(s, outer, inner))
  {
    LinkedNode(n, s);
    var right := n.right;
    LinkedNode(right, s.r);
    n.skew := outer;
    right.skew := inner;
    ghost var k := s.(skew := outer, r := s.r.(skew := inner));
    assert Nodes(k.r) == Nodes(s.r) && Proper(k.r);
    assert Linked(right, k.r);
    m := RotateLeft(n, k);
  }

  method RotateRightChild(n: Entry, ghost s: Shape)
    requires Proper(s) && Linked(n, s) && s.Bin? && s.r.Bin? && s.r.l.Bin?
    modifies n`right, s.r.node`left, s.r.l.node`right
    ensures Linked(n, s.(r := RotatedRight(s.r))) && Proper(s.(r := RotatedRight(s.r)))
  {
    LinkedNode(n, s);
    assert s.r.node in Nodes(s.r) && s.r.l.node in Nodes(s.r);
    assert allocated(Nodes(s.l));
    var p := RotateRight(n.right, s.r);
    n.right := p;
    assert Linked(n.left, s.l);
    assert Linked(n.right, RotatedRight(s.r));
  }

  method RotateTwiceLeft(n: Entry, ghost s: Shape) returns (m: Entry)
    requires Proper(s) && Linked(n, s) && s.Bin? && s.r.Bin? && s.r.l.Bin?
    modifies n`right, n`skew, s.r.node`right, s.r.node`left, s.r.node`skew,
             s.r.l.node`right, s.r.l.node`left, s.r.l.node`skew
    ensures Linked(m, TwiceLeft(s)) && Proper(TwiceLeft(s))
  {
    LinkedNode(n, s);
    LinkedNode(n.right, s.r);
    SetSkewsLeft(n, n.right, n.right.left, s);
    ghost var k := SkewedLeft(s);
    RotateRightChild(n, k);
    m := RotateLeft(n, k.(r := RotatedRight(k.r)));
  }

  /** The right subtree of `n` has just grown by one level. */
  method RightGrown(n: Entry, ghost s: Shape) returns (m: Entry, res: Result, ghost t: Shape)
    requires Proper(s) && Linked(n, s) && s.Bin? && Grown(s.r) && Balanced(s.l)
    requires s.skew == Height(s.r) - 1 - Height(s.l) && -1 <= s.skew <= 1
    modifies Nodes(s)`right, Nodes(s)`left, Nodes(s)`skew
    ensures Proper(t) && Linked(m, t) && Balanced(t) && InOrder(t) == InOrder(s) && Nodes(t) == Nodes(s)
    ensures res == RES_OK || (res == RES_BALANCE && Grown(t))
    ensures Height(t) == Above(Height(s.l), Height(s.r) - 1) + if res == RES_BALANCE then 1 else 0
  {
    LinkedNode(n, s);
    m, t := n, s;
    if n.skew == SKEW_RIGHT {
      var right := n.right;
      LinkedNode(right, s.r);
      if right.skew == SKEW_RIGHT {
        OnceLeftBalances(s);
        t := OnceLeft(s, SKEW_NONE, SKEW_NONE);
        m := RotateOnceLeft(n, SKEW_NONE, SKEW_NONE, s);
      } else {
        TwiceLeftBalances(s);
        t := TwiceLeft(s);
        m := RotateTwiceLeft(n, s);
      }
      res := RES_OK;
    } else if n.skew == SKEW_LEFT {
      t := SetSkew(n, SKEW_NONE, s);
      res := RES_OK;
    } else {
      t := SetSkew(n, SKEW_RIGHT, s);
      res := RES_BALANCE;
    }
  }

  /** The left subtree of `n` has just lost one level. */
  method LeftShrunk(n: Entry, ghost s: Shape) returns (m: Entry, res: Result, ghost t: Shape)
    requires Proper(s) && Linked(n, s) && s.Bin? && Balanced(s.r) && Balanced(s.l)
    requires s.skew == Height(s.r) - (Height(s.l) + 1) && -1 <= s.skew <= 1
    modifies Nodes(s)`right, Nodes(s)`left, Nodes(s)`skew
    ensures Proper(t) && Linked(m, t) && Balanced(t) && InOrder(t) == InOrder(s) && Nodes(t) == Nodes(s)
    ensures res == RES_OK || res == RES_BALANCE
    ensures Height(t) == Above(Height(s.l) + 1, Height(s.r)) - if res == RES_BALANCE then 1 else 0
  {
    LinkedNode(n, s);
    m, t := n, s;
    if n.skew == SKEW_LEFT {
      t := SetSkew(n, SKEW_NONE, s);
      res := RES_BALANCE;
    } else if n.skew == SKEW_RIGHT {
      var right := n.right;
      LinkedNode(right, s.r);
      if right.skew == SKEW_RIGHT {
        OnceLeftBalances(s);
        t := OnceLeft(s, SKEW_NONE, SKEW_NONE);
        m := RotateOnceLeft(n, SKEW_NONE, SKEW_NONE, s);
        res := RES_BALANCE;
      } else if right.skew == SKEW_NONE {
        OnceLeftLevels(s);
        t := OnceLeft(s, SKEW_RIGHT, SKEW_LEFT);
        m := RotateOnceLeft(n, SKEW_RIGHT, SKEW_LEFT, s);
        res := RES_OK;
      } else {
        TwiceLeftBalances(s);
        t := TwiceLeft(s);
        m := RotateTwiceLeft(n, s);
        res := RES_BALANCE;
      }
    } else {
      t := SetSkew(n, SKEW_RIGHT, s);
      res := RES_OK;
    }
  }
}
