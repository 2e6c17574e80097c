/** Recursive locks: owners, queued requests, and the hand-over from one thread to the next. */
module Locks {

  /** What is locked: an object that keeps a pointer to its lock, or something whose lock has to be searched for. */
  datatype Resource = Object(id: nat) | Other(id: nat)

  datatype Owner = Owner(sub: nat, recursion: nat)

  datatype Request = Request(sub: nat, expire: int, force: bool)

  datatype Lock = Lock(live: bool, thread: nat, resource: Resource, owners: seq<Owner>, requests: seq<Request>)

  datatype Outcome = Ok | ThreadWaiting | OutOfMemory | SynchronizationException

  // ---------- Owners ----------

  /** How many times a sub-thread holds a lock. */
  function Depth(owners: seq<Owner>, sub: nat): nat {
    if owners == [] then 0
    else if owners[0].sub == sub then owners[0].recursion
    else Depth(owners[1..], sub)
  }

  function IndexOf(owners: seq<Owner>, sub: nat): (i: nat)
    ensures i <= |owners| && (forall j :: 0 <= j < i ==> owners[j].sub != sub) && (i < |owners| ==> owners[i].sub == sub)
  {
    if owners == [] || owners[0].sub == sub then 0 else 1 + IndexOf(owners[1..], sub)
  }

  /** One more level for `sub`, which joins at the front if it is not an owner. */
  function Entered(owners: seq<Owner>, sub: nat): seq<Owner> {
    var i := IndexOf(owners, sub);
    if i < |owners| then owners[i := Owner(sub, owners[i].recursion + 1)] else [Owner(sub, 1)] + owners
  }

  /** One level less for `sub`, which leaves with the last one. */
  function Left(owners: seq<Owner>, sub: nat): seq<Owner> {
    var i := IndexOf(owners, sub);
    if i == |owners| then owners
    else if owners[i].recursion > 1 then owners[i := Owner(sub, owners[i].recursion - 1)]
    else owners[..i] + owners[i + 1..]
  }

  function Without(owners: seq<Owner>, sub: nat): (r: seq<Owner>)
    ensures forall i :: 0 <= i < |r| ==> r[i].sub != sub
  {
    if owners == [] then []
    else if owners[0].sub == sub then Without(owners[1..], sub)
    else [owners[0]] + Without(owners[1..], sub)
  }

  /** Distinct sub-threads of one thread, each at least one level deep. */
  ghost predicate OwnersOk(home: seq<nat>, thread: nat, owners: seq<Owner>) {
    && (forall i :: 0 <= i < |owners| ==> owners[i].sub < |home| && home[owners[i].sub] == thread && owners[i].recursion > 0)
    && (forall i, j :: 0 <= i < j < |owners| ==> owners[i].sub != owners[j].sub)
  }

  lemma {:induction false} DepthAt(owners: seq<Owner>, sub: nat)
    ensures Depth(owners, sub) == if IndexOf(owners, sub) < |owners| then owners[IndexOf(owners, sub)].recursion else 0
  {
    if owners != [] && owners[0].sub != sub { DepthAt(owners[1..], sub); }
  }

  lemma {:induction false} IndexIs(owners: seq<Owner>, sub: nat, i: nat)
    requires i <= |owners| && (forall j :: 0 <= j < i ==> owners[j].sub != sub) && (i < |owners| ==> owners[i].sub == sub)
    ensures IndexOf(owners, sub) == i
  {
  }

  /** Entering adds one level for the sub-thread that enters and none for any other. */
  lemma EnteredDepth(home: seq<nat>, thread: nat, owners: seq<Owner>, sub: nat, other: nat)
    requires OwnersOk(home, thread, owners) && sub < |home| && home[sub] == thread
    ensures OwnersOk(home, thread, Entered(owners, sub))
    ensures Depth(Entered(owners, sub), other) == Depth(owners, other) + if other == sub then 1 else 0
  {
    DepthAt(owners, other);
    DepthAt(Entered(owners, sub), other);
    var i, e := IndexOf(owners, sub), Entered(owners, sub);
    var j := IndexOf(owners, other);
    if i < |owners| {
      IndexIs(e, other, j);
    } else {
      IndexIs(e, other, if other == sub then 0 else j + 1);
    }
  }

  lemma LeftOk(home: seq<nat>, thread: nat, owners: seq<Owner>, sub: nat)
    requires OwnersOk(home, thread, owners)
    ensures OwnersOk(home, thread, Left(owners, sub))
  {
  }

  /** Leaving takes one level from the sub-thread that leaves and none from any other. */
  lemma LeftDepth(home: seq<nat>, thread: nat, owners: seq<Owner>, sub: nat, other: nat)
    requires OwnersOk(home, thread, owners) && Depth(owners, sub) > 0
    ensures OwnersOk(home, thread, Left(owners, sub))
    ensures Depth(Left(owners, sub), other) == Depth(owners, other) - if other == sub then 1 else 0
  {
    LeftOk(home, thread, owners, sub);
    DepthAt(owners, sub);
    DepthAt(owners, other);
    DepthAt(Left(owners, sub), other);
    hide Depth;
    LeftAt(owners, sub, other);
  }

  lemma LeftAt(owners: seq<Owner>, sub: nat, other: nat)
    requires (forall i, j :: 0 <= i < j < |owners| ==> owners[i].sub != owners[j].sub) && IndexOf(owners, sub) < |owners|
    requires owners[IndexOf(owners, sub)].recursion > 0
    ensures var l := Left(owners, sub); var a, b := IndexOf(owners, other), IndexOf(l, other);
            (if b < |l| then l[b].recursion else 0) == (if a < |owners| then owners[a].recursion else 0) - if other == sub then 1 else 0
  {
    var i := IndexOf(owners, sub);
    if owners[i].recursion > 1 {
      IndexIs(Left(owners, sub), other, IndexOf(owners, other));
    } else {
      IndexRemoved(owners, i, other);
    }
  }

  lemma IndexRemoved(owners: seq<Owner>, i: nat, other: nat)
    requires i < |owners| && forall j :: 0 <= j < |owners| && j != i ==> owners[j].sub != owners[i].sub
    ensures var l, j := owners[..i] + owners[i + 1..], IndexOf(owners, other);
            IndexOf(l, other) == if other == owners[i].sub then |l| else if j > i then j - 1 else j
  {
    var l, j := owners[..i] + owners[i + 1..], IndexOf(owners, other);
    IndexIs(l, other, if other == owners[i].sub then |l| else if j > i then j - 1 else j);
  }

  lemma {:induction false} WithoutIn(owners: seq<Owner>, sub: nat)
    ensures |Without(owners, sub)| <= |owners| && forall o :: o in Without(owners, sub) ==> o in owners
  {
    if owners != [] { WithoutIn(owners[1..], sub); }
  }

  lemma {:induction false} WithoutOk(home: seq<nat>, thread: nat, owners: seq<Owner>, sub: nat)
    requires OwnersOk(home, thread, owners)
    ensures OwnersOk(home, thread, Without(owners, sub))
  {
    if owners != [] {
      var rest := owners[1..];
      WithoutOk(home, thread, rest, sub);
      WithoutIn(rest, sub);
      if owners[0].sub != sub { FrontOk(home, thread, owners[0], Without(rest, sub), rest); }
    }
  }

  lemma FrontOk(home: seq<nat>, thread: nat, o: Owner, owners: seq<Owner>, rest: seq<Owner>)
    requires OwnersOk(home, thread, owners) && OwnersOk(home, thread, [o] + rest) && forall x :: x in owners ==> x in rest
    ensures OwnersOk(home, thread, [o] + owners)
  {
    var w := [o] + owners;
    assert ([o] + rest)[0] == o;
    forall j | 0 <= j < |owners| ensures owners[j].sub != o.sub {
      assert owners[j] in rest;
      var k :| 0 <= k < |rest| && rest[k] == owners[j];
      assert ([o] + rest)[k + 1] == rest[k];
    }
  }

  /** After leaving altogether a sub-thread holds nothing, and the others what they held. */
  lemma {:induction false} WithoutDepth(owners: seq<Owner>, sub: nat, other: nat)
    ensures Depth(Without(owners, sub), other) == if other == sub then 0 else Depth(owners, other)
  {
    if owners != [] {
      WithoutDepth(owners[1..], sub, other);
      assert ([owners[0]] + Without(owners[1..], sub))[1..] == Without(owners[1..], sub);
    }
  }

  // ---------- Requests ----------

  /** How many of the requests come from sub-threads of a set. */
  function Count(requests: seq<Request>, subs: set<nat>): nat {
    if requests == [] then 0
    else Count(requests[..|requests| - 1], subs) + if requests[|requests| - 1].sub in subs then 1 else 0
  }

  function Tally(locks: seq<Lock>, subs: set<nat>): nat {
    if locks == [] then 0 else Tally(locks[..|locks| - 1], subs) + Count(locks[|locks| - 1].requests, subs)
  }

  /** The sub-threads of a thread. */
  ghost function SubsOf(home: seq<nat>, thread: nat): set<nat> {
    set s: nat | s < |home| && home[s] == thread
  }

  lemma {:induction false} CountConcat(a: seq<Request>, b: seq<Request>, subs: set<nat>)
    ensures Count(a + b, subs) == Count(a, subs) + Count(b, subs)
  {
    if b == [] {
      assert a + b == a;
    } else {
      assert (a + b)[..|a + b| - 1] == a + b[..|b| - 1];
      CountConcat(a, b[..|b| - 1], subs);
    }
  }

  lemma CountOne(r: Request, subs: set<nat>)
    ensures Count([r], subs) == if r.sub in subs then 1 else 0
  {
    assert [r][..0] == [];
  }

  lemma CountRemoved(requests: seq<Request>, k: nat, subs: set<nat>)
    requires k < |requests|
    ensures Count(requests[..k] + requests[k + 1..], subs) == Count(requests, subs) - if requests[k].sub in subs then 1 else 0
    ensures requests[k].sub in subs ==> Count(requests, subs) > 0
  {
    assert requests == requests[..k] + [requests[k]] + requests[k + 1..];
    CountConcat(requests[..k] + [requests[k]], requests[k + 1..], subs);
    CountConcat(requests[..k], [requests[k]], subs);
    CountConcat(requests[..k], requests[k + 1..], subs);
    CountOne(requests[k], subs);
  }

  lemma {:induction false} TallyUpdate(locks: seq<Lock>, l: nat, lock: Lock, subs: set<nat>)
    requires l < |locks|
    ensures Tally(locks[l := lock], subs) == Tally(locks, subs) - Count(locks[l].requests, subs) + Count(lock.requests, subs)
    ensures Count(locks[l].requests, subs) <= Tally(locks, subs)
  {
    var n := |locks| - 1;
    if l == n {
      assert locks[l := lock][..n] == locks[..n];
    } else {
      assert locks[l := lock][..n] == locks[..n][l := lock];
      TallyUpdate(locks[..n], l, lock, subs);
    }
  }

  lemma TallyAppend(locks: seq<Lock>, lock: Lock, subs: set<nat>)
    requires lock.requests == []
    ensures Tally(locks + [lock], subs) == Tally(locks, subs)
  {
    assert (locks + [lock])[..|locks|] == locks;
  }

  // ---------- What always holds ----------

  ghost predicate LockOk(home: seq<nat>, lock: Lock) {
    if lock.live then OwnersOk(home, lock.thread, lock.owners) && forall i :: 0 <= i < |lock.requests| ==> lock.requests[i].sub < |home|
    else lock.owners == [] && lock.requests == []
  }

  /** Each live lock is in the list of its owning thread, once, and no list holds anything else. */
  ghost predicate HeldOk(locks: seq<Lock>, held: seq<seq<nat>>) {
    && (forall t, i :: 0 <= t < |held| && 0 <= i < |held[t]| ==>
          held[t][i] < |locks| && locks[held[t][i]].live && locks[held[t][i]].thread == t)
    && (forall t, i, j :: 0 <= t < |held| && 0 <= i < j < |held[t]| ==> held[t][i] != held[t][j])
    && (forall l: nat :: l < |locks| && locks[l].live ==> locks[l].thread < |held| && l in held[locks[l].thread])
  }

  /** An object's lock pointer is set exactly while its lock is live. */
  ghost predicate PointersOk(locks: seq<Lock>, lockOf: map<nat, nat>) {
    && (forall l: nat :: l < |locks| && locks[l].live && locks[l].resource.Object? ==>
          locks[l].resource.id in lockOf && lockOf[locks[l].resource.id] == l)
    && (forall o :: o in lockOf ==> lockOf[o] < |locks| && locks[lockOf[o]].live && locks[lockOf[o]].resource == Object(o))
  }

  ghost predicate OneEach(locks: seq<Lock>) {
    forall l, k :: 0 <= l < k < |locks| && locks[l].live && locks[k].live ==> locks[l].resource != locks[k].resource
  }

  /** A sub-thread's count is the number of its queued requests, and so is a thread's. */
  ghost predicate CountsOk(home: seq<nat>, locks: seq<Lock>, pending: seq<nat>, total: seq<nat>) {
    && |pending| == |home|
    && (forall s :: 0 <= s < |home| ==> home[s] < |total| && pending[s] == Tally(locks, {s}))
    && (forall t :: 0 <= t < |total| ==> total[t] == Tally(locks, SubsOf(home, t)))
  }

  datatype State = State(home: seq<nat>, locks: seq<Lock>, held: seq<seq<nat>>, pending: seq<nat>, total: seq<nat>, lockOf: map<nat, nat>)

  /** Everything but that locks have owners. */
  ghost predicate Consistent(s: State) {
    && |s.held| == |s.total| && CountsOk(s.home, s.locks, s.pending, s.total)
    && (forall l :: 0 <= l < |s.locks| ==> LockOk(s.home, s.locks[l]))
    && HeldOk(s.locks, s.held) && PointersOk(s.locks, s.lockOf) && OneEach(s.locks)
  }

  /** Every live lock but lock `x` has an owner. */
  ghost predicate OwnedBut(locks: seq<Lock>, x: int) {
    forall l :: 0 <= l < |locks| && l != x && locks[l].live ==> locks[l].owners != []
  }

  ghost predicate Safe(s: State) {
    Consistent(s) && OwnedBut(s.locks, -1)
  }

  // ---------- Lists of locks ----------

  function Unlinked(list: seq<nat>, l: nat): (r: seq<nat>)
    ensures forall k :: k in r <==> k in list && k != l
  {
    if list == [] then [] else (if list[0] == l then [] else [list[0]]) + Unlinked(list[1..], l)
  }

  ghost predicate NoneTwice(list: seq<nat>) {
    forall i, j :: 0 <= i < j < |list| ==> list[i] != list[j]
  }

  lemma {:induction false} UnlinkedOnce(list: seq<nat>, l: nat)
    requires NoneTwice(list)
    ensures NoneTwice(Unlinked(list, l))
  {
    if list != [] {
      UnlinkedOnce(list[1..], l);
      assert list[0] !in list[1..];
    }
  }

  // ---------- Steps ----------

  /** A request goes to the back of the queue. */
  function Queued(s: State, l: nat, r: Request): State
    requires l < |s.locks| && r.sub < |s.home| == |s.pending| && s.home[r.sub] < |s.total|
  {
    s.(locks := s.locks[l := s.locks[l].(requests := s.locks[l].requests + [r])],
       pending := s.pending[r.sub := s.pending[r.sub] + 1],
       total := s.total[s.home[r.sub] := s.total[s.home[r.sub]] + 1])
  }

  function Less(n: nat): nat {
    if n == 0 then 0 else n - 1
  }

  /** Request `k` leaves the queue. */
  function Dropped(s: State, l: nat, k: nat): State
    requires l < |s.locks| && k < |s.locks[l].requests| && |s.home| == |s.pending|
    requires var sub := s.locks[l].requests[k].sub; sub < |s.home| && s.home[sub] < |s.total|
  {
    var q := s.locks[l].requests;
    var sub := q[k].sub;
    s.(locks := s.locks[l := s.locks[l].(requests := q[..k] + q[k + 1..])],
       pending := s.pending[sub := Less(s.pending[sub])],
       total := s.total[s.home[sub] := Less(s.total[s.home[sub]])])
  }

  function Owned(s: State, l: nat, owners: seq<Owner>): State
    requires l < |s.locks|
  {
    s.(locks := s.locks[l := s.locks[l].(owners := owners)])
  }

  /** The lock goes to another thread, whose list it joins at the back. */
  function Passed(s: State, l: nat, thread: nat, owners: seq<Owner>): State
    requires l < |s.locks| && s.locks[l].thread < |s.held| && thread < |s.held|
  {
    var from := s.held[s.locks[l].thread := Unlinked(s.held[s.locks[l].thread], l)];
    s.(locks := s.locks[l := s.locks[l].(thread := thread, owners := owners)], held := from[thread := from[thread] + [l]])
  }

  /** The lock goes back to where it came from, and its object is not locked any more. */
  function Buried(s: State, l: nat): State
    requires l < |s.locks| && s.locks[l].thread < |s.held|
  {
    var t := s.locks[l].thread;
    s.(locks := s.locks[l := s.locks[l].(live := false, owners := [])],
       held := s.held[t := Unlinked(s.held[t], l)],
       lockOf := if s.locks[l].resource.Object? then s.lockOf - {s.locks[l].resource.id} else s.lockOf)
  }

  function Born(s: State, thread: nat, resource: Resource): State
    requires thread < |s.held|
  {
    var l := |s.locks|;
    s.(locks := s.locks + [Lock(true, thread, resource, [], [])],
       held := s.held[thread := s.held[thread] + [l]],
       lockOf := if resource.Object? then s.lockOf[resource.id := l] else s.lockOf)
  }

  // ---------- Each step keeps the state consistent ----------

  lemma SubsOfSub(home: seq<nat>, sub: nat, t: nat)
    requires sub < |home|
    ensures sub in SubsOf(home, t) <==> home[sub] == t
  {
  }

  lemma QueuedTally(s: State, l: nat, r: Request, subs: set<nat>)
    requires l < |s.locks| && r.sub < |s.home| == |s.pending| && s.home[r.sub] < |s.total|
    ensures Tally(Queued(s, l, r).locks, subs) == Tally(s.locks, subs) + if r.sub in subs then 1 else 0
  {
    TallyUpdate(s.locks, l, s.locks[l].(requests := s.locks[l].requests + [r]), subs);
    CountConcat(s.locks[l].requests, [r], subs);
    CountOne(r, subs);
  }

  lemma QueuedCounts(s: State, l: nat, r: Request)
    requires CountsOk(s.home, s.locks, s.pending, s.total) && l < |s.locks| && r.sub < |s.home|
    ensures var n := Queued(s, l, r); CountsOk(n.home, n.locks, n.pending, n.total)
  {
    hide Tally, SubsOf;
    var n := Queued(s, l, r);
    forall x | 0 <= x < |s.home| ensures n.pending[x] == Tally(n.locks, {x}) { QueuedTally(s, l, r, {x}); }
    forall t | 0 <= t < |n.total| ensures n.total[t] == Tally(n.locks, SubsOf(s.home, t)) {
      QueuedTally(s, l, r, SubsOf(s.home, t));
      SubsOfSub(s.home, r.sub, t);
    }
  }

  lemma DroppedTally(s: State, l: nat, k: nat, subs: set<nat>)
    requires l < |s.locks| && k < |s.locks[l].requests| && |s.home| == |s.pending|
    requires var sub := s.locks[l].requests[k].sub; sub < |s.home| && s.home[sub] < |s.total|
    ensures Tally(Dropped(s, l, k).locks, subs) == Tally(s.locks, subs) - if s.locks[l].requests[k].sub in subs then 1 else 0
    ensures s.locks[l].requests[k].sub in subs ==> Tally(s.locks, subs) > 0
  {
    var q := s.locks[l].requests;
    TallyUpdate(s.locks, l, s.locks[l].(requests := q[..k] + q[k + 1..]), subs);
    CountRemoved(q, k, subs);
  }

  lemma DroppedCounts(s: State, l: nat, k: nat)
    requires CountsOk(s.home, s.locks, s.pending, s.total) && l < |s.locks| && k < |s.locks[l].requests|
    requires s.locks[l].requests[k].sub < |s.home|
    ensures var n := Dropped(s, l, k); CountsOk(n.home, n.locks, n.pending, n.total)
    ensures s.pending[s.locks[l].requests[k].sub] > 0 && s.total[s.home[s.locks[l].requests[k].sub]] > 0
  {
    hide Tally, SubsOf;
    var n, sub := Dropped(s, l, k), s.locks[l].requests[k].sub;
    forall x | 0 <= x < |s.home| ensures n.pending[x] == Tally(n.locks, {x}) { DroppedTally(s, l, k, {x}); }
    forall t | 0 <= t < |n.total| ensures n.total[t] == Tally(n.locks, SubsOf(s.home, t)) {
      DroppedTally(s, l, k, SubsOf(s.home, t));
      SubsOfSub(s.home, sub, t);
    }
    DroppedTally(s, l, k, {sub});
    DroppedTally(s, l, k, SubsOf(s.home, s.home[sub]));
    SubsOfSub(s.home, sub, s.home[sub]);
  }

  lemma SameCounts(s: State, l: nat, lock: Lock)
    requires CountsOk(s.home, s.locks, s.pending, s.total) && l < |s.locks| && lock.requests == s.locks[l].requests
    ensures CountsOk(s.home, s.locks[l := lock], s.pending, s.total)
  {
    hide Tally, SubsOf;
    forall x | 0 <= x < |s.home| ensures s.pending[x] == Tally(s.locks[l := lock], {x}) { TallyUpdate(s.locks, l, lock, {x}); }
    forall t | 0 <= t < |s.total| ensures s.total[t] == Tally(s.locks[l := lock], SubsOf(s.home, t)) {
      TallyUpdate(s.locks, l, lock, SubsOf(s.home, t));
    }
  }

  /** Nothing but owners and requests has changed. */
  ghost predicate SameLocks(was: seq<Lock>, locks: seq<Lock>) {
    |was| == |locks| && forall l :: 0 <= l < |was| ==>
      locks[l].live == was[l].live && locks[l].thread == was[l].thread && locks[l].resource == was[l].resource
  }

  lemma SameLocksOk(was: seq<Lock>, locks: seq<Lock>, held: seq<seq<nat>>, lockOf: map<nat, nat>)
    requires SameLocks(was, locks) && HeldOk(was, held) && PointersOk(was, lockOf) && OneEach(was)
    ensures HeldOk(locks, held) && PointersOk(locks, lockOf) && OneEach(locks)
  {
  }

  lemma QueuedOk(s: State, l: nat, r: Request)
    requires Consistent(s) && l < |s.locks| && s.locks[l].live && r.sub < |s.home|
    ensures |s.home| == |s.pending| && s.home[r.sub] < |s.total|
    ensures Consistent(Queued(s, l, r)) && forall x :: OwnedBut(s.locks, x) ==> OwnedBut(Queued(s, l, r).locks, x)
  {
    QueuedCounts(s, l, r);
    SameLocksOk(s.locks, Queued(s, l, r).locks, s.held, s.lockOf);
    hide Tally, CountsOk, HeldOk, PointersOk, OneEach;
  }

  lemma DroppedOk(s: State, l: nat, k: nat)
    requires Consistent(s) && l < |s.locks| && k < |s.locks[l].requests|
    ensures s.locks[l].live && s.locks[l].requests[k].sub < |s.home| == |s.pending|
    ensures s.home[s.locks[l].requests[k].sub] < |s.total|
    ensures Consistent(Dropped(s, l, k)) && forall x :: OwnedBut(s.locks, x) ==> OwnedBut(Dropped(s, l, k).locks, x)
    ensures s.pending[s.locks[l].requests[k].sub] > 0 && s.total[s.home[s.locks[l].requests[k].sub]] > 0
  {
    assert LockOk(s.home, s.locks[l]);
    DroppedCounts(s, l, k);
    SameLocksOk(s.locks, Dropped(s, l, k).locks, s.held, s.lockOf);
    hide Tally, CountsOk, HeldOk, PointersOk, OneEach;
  }

  lemma OwnedOk(s: State, l: nat, owners: seq<Owner>)
    requires Consistent(s) && l < |s.locks| && s.locks[l].live && OwnersOk(s.home, s.locks[l].thread, owners)
    ensures Consistent(Owned(s, l, owners))
    ensures OwnedBut(s.locks, l) ==> OwnedBut(Owned(s, l, owners).locks, if owners == [] then l else -1)
  {
    SameCounts(s, l, s.locks[l].(owners := owners));
    SameLocksOk(s.locks, Owned(s, l, owners).locks, s.held, s.lockOf);
    hide Tally, CountsOk, HeldOk, PointersOk, OneEach;
  }

  lemma PassedHeld(s: State, l: nat, thread: nat, owners: seq<Owner>)
    requires HeldOk(s.locks, s.held) && l < |s.locks| && s.locks[l].live && thread < |s.held|
    ensures s.locks[l].thread < |s.held| && HeldOk(Passed(s, l, thread, owners).locks, Passed(s, l, thread, owners).held)
  {
    var t := s.locks[l].thread;
    var from := s.held[t := Unlinked(s.held[t], l)];
    var n := Passed(s, l, thread, owners);
    assert NoneTwice(s.held[t]);
    UnlinkedOnce(s.held[t], l);
    hide Unlinked;
    forall u, i | 0 <= u < |n.held| && 0 <= i < |n.held[u]|
      ensures n.held[u][i] < |n.locks| && n.locks[n.held[u][i]].live && n.locks[n.held[u][i]].thread == u {
      if u != thread || i < |from[u]| {
        assert n.held[u][i] == from[u][i] && from[u][i] in from[u];
        assert from[u][i] in s.held[u];
      }
    }
    forall k: nat | k < |n.locks| && n.locks[k].live ensures n.locks[k].thread < |n.held| && k in n.held[n.locks[k].thread] {
      if k != l { assert k in s.held[s.locks[k].thread] && k in from[s.locks[k].thread]; }
      else { assert n.held[thread][|n.held[thread]| - 1] == l; }
    }
    forall u, i, j | 0 <= u < |n.held| && 0 <= i < j < |n.held[u]| ensures n.held[u][i] != n.held[u][j] {
      assert NoneTwice(from[u]);
      if u == thread && j == |from[u]| { assert from[u][i] in from[u]; assert from[u][i] in s.held[u]; }
    }
  }

  lemma SameResources(was: seq<Lock>, locks: seq<Lock>, lockOf: map<nat, nat>)
    requires |was| == |locks| && forall l :: 0 <= l < |was| ==> locks[l].live == was[l].live && locks[l].resource == was[l].resource
    requires PointersOk(was, lockOf) && OneEach(was)
    ensures PointersOk(locks, lockOf) && OneEach(locks)
  {
  }

  lemma PassedOk(s: State, l: nat, thread: nat, owners: seq<Owner>)
    requires Consistent(s) && OwnedBut(s.locks, l) && l < |s.locks| && s.locks[l].live && thread < |s.held|
    requires OwnersOk(s.home, thread, owners) && owners != []
    ensures s.locks[l].thread < |s.held| && Safe(Passed(s, l, thread, owners))
  {
    PassedHeld(s, l, thread, owners);
    SameCounts(s, l, s.locks[l].(thread := thread, owners := owners));
    SameResources(s.locks, Passed(s, l, thread, owners).locks, s.lockOf);
    hide Tally, CountsOk, HeldOk, Unlinked, PointersOk, OneEach, OwnersOk;
    assert LockOk(s.home, s.locks[l]);
  }

  lemma BuriedHeld(s: State, l: nat)
    requires HeldOk(s.locks, s.held) && l < |s.locks| && s.locks[l].live
    ensures s.locks[l].thread < |s.held| && HeldOk(Buried(s, l).locks, Buried(s, l).held)
  {
    var t := s.locks[l].thread;
    var n := Buried(s, l);
    assert NoneTwice(s.held[t]);
    UnlinkedOnce(s.held[t], l);
    hide Unlinked;
    forall u, i | 0 <= u < |n.held| && 0 <= i < |n.held[u]|
      ensures n.held[u][i] < |n.locks| && n.locks[n.held[u][i]].live && n.locks[n.held[u][i]].thread == u {
      assert n.held[u][i] in n.held[u];
      assert n.held[u][i] in s.held[u];
    }
    forall k: nat | k < |n.locks| && n.locks[k].live ensures n.locks[k].thread < |n.held| && k in n.held[n.locks[k].thread] {
      assert k in s.held[s.locks[k].thread];
    }
    assert NoneTwice(n.held[t]);
  }

  lemma BuriedOk(s: State, l: nat)
    requires Consistent(s) && OwnedBut(s.locks, l) && l < |s.locks| && s.locks[l].live && s.locks[l].requests == []
    ensures s.locks[l].thread < |s.held| && Safe(Buried(s, l))
  {
    BuriedHeld(s, l);
    SameCounts(s, l, s.locks[l].(live := false, owners := []));
    hide Tally, CountsOk, HeldOk, Unlinked;
  }

  lemma BornHeld(s: State, thread: nat, resource: Resource)
    requires HeldOk(s.locks, s.held) && thread < |s.held|
    ensures HeldOk(Born(s, thread, resource).locks, Born(s, thread, resource).held)
  {
    var n, l := Born(s, thread, resource), |s.locks|;
    forall k: nat | k < |n.locks| && n.locks[k].live ensures n.locks[k].thread < |n.held| && k in n.held[n.locks[k].thread] {
      if k < l { assert k in s.held[s.locks[k].thread]; } else { assert n.held[thread][|s.held[thread]|] == l; }
    }
  }

  lemma BornOk(s: State, thread: nat, resource: Resource)
    requires Safe(s) && thread < |s.held| && forall l :: 0 <= l < |s.locks| && s.locks[l].live ==> s.locks[l].resource != resource
    ensures Consistent(Born(s, thread, resource)) && OwnedBut(Born(s, thread, resource).locks, |s.locks|)
  {
    BornHeld(s, thread, resource);
    BornCounts(s, thread, resource);
    BornPointers(s, thread, resource);
    hide Tally, CountsOk, HeldOk, PointersOk, OneEach;
  }

  lemma BornPointers(s: State, thread: nat, resource: Resource)
    requires PointersOk(s.locks, s.lockOf) && OneEach(s.locks) && thread < |s.held|
    requires forall l :: 0 <= l < |s.locks| && s.locks[l].live ==> s.locks[l].resource != resource
    ensures var n := Born(s, thread, resource); PointersOk(n.locks, n.lockOf) && OneEach(n.locks)
  {
  }

  lemma BornCounts(s: State, thread: nat, resource: Resource)
    requires CountsOk(s.home, s.locks, s.pending, s.total) && thread < |s.held|
    ensures var n := Born(s, thread, resource); CountsOk(n.home, n.locks, n.pending, n.total)
  {
    hide Tally, SubsOf;
    var n := Born(s, thread, resource);
    forall x | 0 <= x < |s.home| ensures n.pending[x] == Tally(n.locks, {x}) { TallyAppend(s.locks, n.locks[|s.locks|], {x}); }
    forall t | 0 <= t < |n.total| ensures n.total[t] == Tally(n.locks, SubsOf(s.home, t)) {
      TallyAppend(s.locks, n.locks[|s.locks|], SubsOf(s.home, t));
    }
  }

  // ---------- Requests that are withdrawn ----------

  /** Which requests: those whose time is up, or those of some sub-threads. */
  datatype Which = Expired(now: int) | From(subs: set<nat>)

  predicate Hit(w: Which, r: Request) {
    match w
    case Expired(now) => r.expire <= now
    case From(subs) => r.sub in subs
  }

  /** The requests that stay, in their order. */
  function Kept(requests: seq<Request>, w: Which): (r: seq<Request>)
    ensures |r| <= |requests| && forall i :: 0 <= i < |r| ==> !Hit(w, r[i]) && r[i] in requests
  {
    if requests == [] then []
    else Kept(requests[..|requests| - 1], w) + if Hit(w, requests[|requests| - 1]) then [] else [requests[|requests| - 1]]
  }

  lemma {:induction false} KeptConcat(a: seq<Request>, b: seq<Request>, w: Which)
    ensures Kept(a + b, w) == Kept(a, w) + Kept(b, w)
  {
    if b == [] {
      assert a + b == a;
    } else {
      assert (a + b)[..|a + b| - 1] == a + b[..|b| - 1];
      KeptConcat(a, b[..|b| - 1], w);
    }
  }

  lemma {:induction false} KeptAll(a: seq<Request>, w: Which)
    requires forall i :: 0 <= i < |a| ==> !Hit(w, a[i])
    ensures Kept(a, w) == a
  {
    if a != [] { KeptAll(a[..|a| - 1], w); }
  }

  /** Taking out a request that is hit changes nothing in what is kept. */
  lemma KeptDropped(a: seq<Request>, k: nat, w: Which)
    requires k < |a| && Hit(w, a[k])
    ensures Kept(a[..k] + a[k + 1..], w) == Kept(a, w)
  {
    assert Kept([a[k]], w) == [] by { assert [a[k]][..0] == []; }
    hide Kept;
    assert a == a[..k] + [a[k]] + a[k + 1..];
    KeptConcat(a[..k] + [a[k]], a[k + 1..], w);
    KeptConcat(a[..k], [a[k]], w);
    KeptConcat(a[..k], a[k + 1..], w);
  }

  lemma {:induction false} CountNone(requests: seq<Request>, subs: set<nat>)
    requires Count(requests, subs) == 0
    ensures forall i :: 0 <= i < |requests| ==> requests[i].sub !in subs
  {
    if requests != [] { CountNone(requests[..|requests| - 1], subs); }
  }

  /** With the count of all requests at nothing, no lock has one. */
  lemma TallyNone(locks: seq<Lock>, subs: set<nat>, l: nat)
    requires Tally(locks, subs) == 0 && l < |locks|
    ensures forall i :: 0 <= i < |locks[l].requests| ==> locks[l].requests[i].sub !in subs
  {
    TallyUpdate(locks, l, locks[l], subs);
    CountNone(locks[l].requests, subs);
  }

  /** Nothing has changed but that requests have been withdrawn, and those of locks `over` all that are hit. */
  ghost predicate Withdrawn(was: State, s: State, w: Which, over: set<nat>) {
    && s.home == was.home && s.held == was.held && s.lockOf == was.lockOf && |s.locks| == |was.locks|
    && forall l :: 0 <= l < |was.locks| ==>
         && s.locks[l] == was.locks[l].(requests := s.locks[l].requests)
         && Kept(s.locks[l].requests, w) == Kept(was.locks[l].requests, w)
         && (l in over ==> s.locks[l].requests == Kept(was.locks[l].requests, w))
  }

  lemma WithdrawnOne(was: State, s: State, w: Which, over: set<nat>, l: nat, k: nat)
    requires Withdrawn(was, s, w, over) && Consistent(s) && l < |s.locks| && l !in over
    requires k < |s.locks[l].requests| && Hit(w, s.locks[l].requests[k])
    ensures |s.home| == |s.pending| && s.locks[l].requests[k].sub < |s.home| && s.home[s.locks[l].requests[k].sub] < |s.total|
    ensures Withdrawn(was, Dropped(s, l, k), w, over)
  {
    DroppedOk(s, l, k);
    KeptDropped(s.locks[l].requests, k, w);
    hide Kept, Consistent, CountsOk, LockOk, HeldOk, PointersOk, OneEach, OwnedBut;
  }

  /** No request of lock `l` is hit any more. */
  lemma WithdrawnAll(was: State, s: State, w: Which, over: set<nat>, l: nat)
    requires Withdrawn(was, s, w, over) && l < |s.locks| && forall i :: 0 <= i < |s.locks[l].requests| ==> !Hit(w, s.locks[l].requests[i])
    ensures Withdrawn(was, s, w, over + {l})
  {
    KeptAll(s.locks[l].requests, w);
  }
}
