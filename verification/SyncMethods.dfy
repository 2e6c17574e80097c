/** Synchronized methods: what their frames say they hold is what the locks say, through waiting and hand-over. */
module SyncMethods {
  import opened Wrappers
  import opened Locks
  import opened Frames
  import opened LockManager

  // ---------- What frames hold ----------

  function One(b: bool): nat {
    if b then 1 else 0
  }

  /** How often a frame holds the lock of a resource. */
  function HeldIn(f: Frame, global: Resource, r: Resource): nat {
    One(f.global.held && r == global) + One(f.own.held && r == f.resource)
  }

  function HeldBy(stack: seq<Frame>, global: Resource, sub: nat, r: Resource): nat {
    if stack == [] then 0
    else HeldBy(stack[..|stack| - 1], global, sub, r) + if stack[|stack| - 1].sub == sub then HeldIn(stack[|stack| - 1], global, r) else 0
  }

  function HeldAll(stacks: seq<seq<Frame>>, global: Resource, sub: nat, r: Resource): nat {
    if stacks == [] then 0
    else HeldAll(stacks[..|stacks| - 1], global, sub, r) + HeldBy(stacks[|stacks| - 1], global, sub, r)
  }

  lemma {:induction false} HeldUpdate(stacks: seq<seq<Frame>>, t: nat, stack: seq<Frame>, global: Resource, sub: nat, r: Resource)
    requires t < |stacks|
    ensures HeldAll(stacks[t := stack], global, sub, r) ==
              HeldAll(stacks, global, sub, r) - HeldBy(stacks[t], global, sub, r) + HeldBy(stack, global, sub, r)
    ensures HeldBy(stacks[t], global, sub, r) <= HeldAll(stacks, global, sub, r)
  {
    var n := |stacks| - 1;
    if t == n {
      assert stacks[t := stack][..n] == stacks[..n];
    } else {
      assert stacks[t := stack][..n] == stacks[..n][t := stack];
      HeldUpdate(stacks[..n], t, stack, global, sub, r);
    }
  }

  function Top(stack: seq<Frame>): Frame
    requires stack != []
  {
    stack[|stack| - 1]
  }

  function WithTop(stack: seq<Frame>, f: Frame): (r: seq<Frame>)
    requires stack != []
    ensures r != [] && |r| == |stack| && Top(r) == f && r[..|r| - 1] == stack[..|stack| - 1]
  {
    stack[..|stack| - 1] + [f]
  }

  /** Another frame on top. */
  lemma HeldTop(stacks: seq<seq<Frame>>, t: nat, f: Frame, global: Resource, sub: nat, r: Resource)
    requires t < |stacks| && stacks[t] != [] && f.sub == Top(stacks[t]).sub
    ensures HeldAll(stacks[t := WithTop(stacks[t], f)], global, sub, r) + (if f.sub == sub then HeldIn(Top(stacks[t]), global, r) else 0)
            == HeldAll(stacks, global, sub, r) + if f.sub == sub then HeldIn(f, global, r) else 0
    ensures f.sub == sub ==> HeldIn(Top(stacks[t]), global, r) <= HeldAll(stacks, global, sub, r)
  {
    HeldUpdate(stacks, t, WithTop(stacks[t], f), global, sub, r);
  }

  // ---------- How deep a sub-thread is ----------

  function LockOf(locks: seq<Lock>, r: Resource): (l: nat)
    ensures l <= |locks| && (l < |locks| ==> locks[l].live && locks[l].resource == r)
    ensures forall k :: 0 <= k < l ==> !(locks[k].live && locks[k].resource == r)
  {
    if locks == [] then 0
    else if locks[0].live && locks[0].resource == r then 0
    else 1 + LockOf(locks[1..], r)
  }

  /** How many times a sub-thread has the lock of a resource. */
  function DepthOf(locks: seq<Lock>, r: Resource, sub: nat): nat {
    if LockOf(locks, r) < |locks| then Depth(locks[LockOf(locks, r)].owners, sub) else 0
  }

  lemma DepthIs(s: State, l: nat, r: Resource, sub: nat)
    requires OneEach(s.locks) && IsLockOf(s, l, r)
    ensures LockOf(s.locks, r) == l && DepthOf(s.locks, r, sub) == Depth(s.locks[l].owners, sub)
  {
  }

  lemma DepthNone(s: State, r: Resource, sub: nat)
    requires !Locked(s, r)
    ensures DepthOf(s.locks, r, sub) == 0
  {
    assert !IsLockOf(s, LockOf(s.locks, r), r);
  }

  /** Locks of other resources are as they were. */
  ghost predicate Others(was: seq<Lock>, now: seq<Lock>, r: Resource) {
    && |was| <= |now|
    && (forall l :: 0 <= l < |was| && (was[l].resource != r || !was[l].live) ==> now[l] == was[l])
    && (forall l :: 0 <= l < |was| ==> now[l].resource == was[l].resource)
    && (forall l :: |was| <= l < |now| ==> now[l].resource == r)
  }

  lemma DepthOthers(was: seq<Lock>, now: seq<Lock>, r: Resource, other: Resource, sub: nat)
    requires Others(was, now, r) && other != r
    ensures DepthOf(now, other, sub) == DepthOf(was, other, sub)
  {
    forall l | 0 <= l < |was| ensures (now[l].live && now[l].resource == other) == (was[l].live && was[l].resource == other) {
      if was[l].resource != r { assert now[l] == was[l]; }
    }
    FirstSame(was, now, other);
  }

  /** The first lock of a resource is the same in two lists that differ only in locks of other resources. */
  lemma FirstSame(was: seq<Lock>, now: seq<Lock>, r: Resource)
    requires |was| <= |now| && forall l :: |was| <= l < |now| ==> now[l].resource != r
    requires forall l :: 0 <= l < |was| ==> ((now[l].live && now[l].resource == r) == (was[l].live && was[l].resource == r))
    ensures LockOf(was, r) < |was| ==> LockOf(now, r) == LockOf(was, r)
    ensures LockOf(was, r) == |was| <==> LockOf(now, r) == |now|
  {
  }

  // ---------- The effect of the lock operations ----------

  /** The sub-thread goes one level deeper, and no other count changes. */
  ghost predicate Deepened(was: seq<Lock>, now: seq<Lock>, r: Resource, sub: nat) {
    forall x: nat, y: Resource :: DepthOf(now, y, x) == DepthOf(was, y, x) + One(x == sub && y == r)
  }

  lemma EnteredDeepens(s: State, l: nat, r: Resource, sub: nat)
    requires Safe(s) && IsLockOf(s, l, r) && sub < |s.home| && s.locks[l].thread == s.home[sub]
    requires Safe(Owned(s, l, Entered(s.locks[l].owners, sub)))
    ensures Deepened(s.locks, Owned(s, l, Entered(s.locks[l].owners, sub)).locks, r, sub)
  {
    hide Entered, Depth, CountsOk, HeldOk, PointersOk, DepthOf, LockOf;
    assert LockOk(s.home, s.locks[l]);
    var n := Owned(s, l, Entered(s.locks[l].owners, sub));
    forall x: nat, y: Resource ensures DepthOf(n.locks, y, x) == DepthOf(s.locks, y, x) + One(x == sub && y == r) {
      if y == r {
        EnteredDepth(s.home, s.locks[l].thread, s.locks[l].owners, sub, x);
        DepthIs(s, l, r, x);
        DepthIs(n, l, r, x);
      } else {
        OnlyOne(s, l, r);
        DepthOthers(s.locks, n.locks, r, y, x);
      }
    }
  }

  /** No other lock has the resource. */
  lemma OnlyOne(s: State, l: nat, r: Resource)
    requires OneEach(s.locks) && IsLockOf(s, l, r)
    ensures forall k :: 0 <= k < |s.locks| && k != l && s.locks[k].live ==> s.locks[k].resource != r
  {
  }

  lemma BornDeepens(s: State, r: Resource, sub: nat)
    requires Safe(s) && !Locked(s, r) && sub < |s.home| && s.home[sub] < |s.held|
    ensures Deepened(s.locks, Owned(Born(s, s.home[sub], r), |s.locks|, [Owner(sub, 1)]).locks, r, sub)
  {
    hide CountsOk, HeldOk, PointersOk, DepthOf, LockOf;
    var n := Owned(Born(s, s.home[sub], r), |s.locks|, [Owner(sub, 1)]);
    forall x: nat, y: Resource ensures DepthOf(n.locks, y, x) == DepthOf(s.locks, y, x) + One(x == sub && y == r) {
      if y == r {
        DepthNone(s, r, x);
        BornLock(s, n, r);
        DepthIs(n, |s.locks|, r, x);
      } else {
        DepthOthers(s.locks, n.locks, r, y, x);
      }
    }
  }

  lemma BornLock(s: State, n: State, r: Resource)
    requires OneEach(s.locks) && !Locked(s, r) && |n.locks| == |s.locks| + 1 && n.locks[..|s.locks|] == s.locks
    requires n.locks[|s.locks|].live && n.locks[|s.locks|].resource == r
    ensures OneEach(n.locks) && IsLockOf(n, |s.locks|, r)
  {
    forall l, k | 0 <= l < k < |n.locks| && n.locks[l].live && n.locks[k].live ensures n.locks[l].resource != n.locks[k].resource {
      assert n.locks[l] == n.locks[..|s.locks|][l];
      if k < |s.locks| { assert n.locks[k] == n.locks[..|s.locks|][k]; }
      else { assert !IsLockOf(s, l, r); }
    }
  }

  lemma QueuedSame(s: State, l: nat, q: Request)
    requires l < |s.locks| && q.sub < |s.home| == |s.pending| && s.home[q.sub] < |s.total|
    ensures forall x: nat, y: Resource :: DepthOf(Queued(s, l, q).locks, y, x) == DepthOf(s.locks, y, x)
  {
    var n := Queued(s, l, q);
    forall x: nat, y: Resource ensures DepthOf(n.locks, y, x) == DepthOf(s.locks, y, x) {
      FirstSame(s.locks, n.locks, y);
    }
  }

  /** The sub-thread that is granted the lock when it is left to `owners`, if any. */
  function GrantedTo(s: State, l: nat, owners: seq<Owner>): Option<nat>
    requires l < |s.locks|
  {
    if owners != [] || s.locks[l].requests == [] then None else Some(s.locks[l].requests[0].sub)
  }

  /** The sub-thread that leaves goes up one level, and the one that is granted the lock down one. */
  lemma LeftDepths(s: State, l: nat, r: Resource, sub: nat, x: nat, y: Resource)
    requires Safe(s) && IsLockOf(s, l, r) && Holds(s, l, sub) && Transferable(s, l)
    requires Safe(Regranted(s, l, Left(s.locks[l].owners, sub)))
    ensures var owners := Left(s.locks[l].owners, sub);
            DepthOf(Regranted(s, l, owners).locks, y, x) + One(x == sub && y == r)
              == DepthOf(s.locks, y, x) + One(GrantedTo(s, l, owners) == Some(x) && y == r)
  {
    hide Left, Depth, CountsOk, HeldOk, PointersOk, DepthOf, LockOf;
    var owners := Left(s.locks[l].owners, sub);
    var n := Regranted(s, l, owners);
    assert LockOk(s.home, s.locks[l]);
    LeftDepth(s.home, s.locks[l].thread, s.locks[l].owners, sub, x);
    DepthEmpty(x);
    OnlyOne(s, l, r);
    if y != r {
      DepthOthers(s.locks, n.locks, r, y, x);
    } else {
      DepthIs(s, l, r, x);
      if owners != [] || s.locks[l].requests != [] {
        DepthIs(n, l, r, x);
        DepthSingle(if s.locks[l].requests == [] then 0 else s.locks[l].requests[0].sub, x);
      } else {
        DepthNone(n, r, x);
      }
    }
  }

  lemma DepthEmpty(x: nat)
    ensures Depth([], x) == 0
  {
  }

  lemma DepthSingle(sub: nat, x: nat)
    ensures Depth([Owner(sub, 1)], x) == One(x == sub)
  {
    assert [Owner(sub, 1)][1..] == [];
  }

  // ---------- What always holds ----------

  type Monitors = map<(nat, Resource), nat>

  /** How often a sub-thread has entered the monitor of a resource by itself. */
  function Entries(m: Monitors, sub: nat, r: Resource): nat {
    if (sub, r) in m then m[(sub, r)] else 0
  }

  function Changed(m: Monitors, sub: nat, r: Resource, n: nat): Monitors {
    m[(sub, r) := n]
  }

  /** The depth of every sub-thread in every lock is what it has entered by itself and what its frames hold, but for
      one level of `sub` in the lock of `r`, if `extra`. */
  ghost predicate Balanced(locks: seq<Lock>, stacks: seq<seq<Frame>>, m: Monitors, global: Resource, sub: nat, r: Resource, extra: bool) {
    forall x: nat, y: Resource ::
      DepthOf(locks, y, x) == Entries(m, x, y) + HeldAll(stacks, global, x, y) + One(extra && x == sub && y == r)
  }

  predicate AtMostOne(s: Sync) {
    !(s.need && s.pending) && !(s.need && s.held) && !(s.pending && s.held)
  }

  predicate Pending(f: Frame) {
    f.global.pending || f.own.pending
  }

  /** The flags of every frame exclude one another, at most one kind is pending, and only in the top frame. */
  ghost predicate FramesOk(home: seq<nat>, stacks: seq<seq<Frame>>) {
    forall t, i :: 0 <= t < |stacks| && 0 <= i < |stacks[t]| ==> FrameOk(home, t, stacks[t][i], i == |stacks[t]| - 1)
  }

  ghost predicate FrameOk(home: seq<nat>, t: nat, f: Frame, top: bool) {
    && f.sub < |home| && home[f.sub] == t && AtMostOne(f.global) && AtMostOne(f.own)
    && !(f.global.pending && f.own.pending) && (!top ==> !Pending(f))
  }

  /** What a frame waits for. */
  function Awaited(f: Frame, global: Resource): Resource {
    if f.global.pending then global else f.resource
  }

  ghost predicate IsPending(stack: seq<Frame>) {
    stack != [] && Pending(Top(stack))
  }

  /** The requests of a thread whose top frame is pending are for what the frame waits for. */
  ghost predicate RequestsOk(s: State, stacks: seq<seq<Frame>>, global: Resource) {
    forall l, i :: 0 <= l < |s.locks| && 0 <= i < |s.locks[l].requests| ==> RequestOk(s, stacks, global, s.locks[l], s.locks[l].requests[i])
  }

  ghost predicate RequestOk(s: State, stacks: seq<seq<Frame>>, global: Resource, lock: Lock, q: Request) {
    q.sub < |s.home| && s.home[q.sub] < |stacks| &&
    var stack := stacks[s.home[q.sub]];
    IsPending(stack) ==> q.sub == Top(stack).sub && lock.resource == Awaited(Top(stack), global)
  }

  /** A pending frame has a request queued, so its thread does not run. */
  ghost predicate WaitingOk(total: seq<nat>, stacks: seq<seq<Frame>>) {
    |total| == |stacks| && forall t :: 0 <= t < |stacks| && IsPending(stacks[t]) ==> total[t] > 0
  }

  ghost predicate Good(s: State, stacks: seq<seq<Frame>>, m: Monitors, global: Resource, sub: nat, r: Resource, extra: bool) {
    && Safe(s) && FramesOk(s.home, stacks) && RequestsOk(s, stacks, global) && WaitingOk(s.total, stacks)
    && Balanced(s.locks, stacks, m, global, sub, r, extra)
  }

  // ---------- The top frame changes its flags ----------

  /** The top frame of thread `t`, which is not pending, gets other flags that are not pending either. */
  lemma FlagsOk(s: State, stacks: seq<seq<Frame>>, global: Resource, t: nat, f: Frame)
    requires FramesOk(s.home, stacks) && RequestsOk(s, stacks, global) && WaitingOk(s.total, stacks) && t < |stacks| && stacks[t] != []
    requires FrameOk(s.home, t, f, true) && !Pending(f) && f.sub == Top(stacks[t]).sub
    ensures var n := stacks[t := WithTop(stacks[t], f)]; FramesOk(s.home, n) && RequestsOk(s, n, global) && WaitingOk(s.total, n)
  {
    var n := stacks[t := WithTop(stacks[t], f)];
    FramesTop(s.home, stacks, t, f);
    hide FrameOk;
    forall l, i | 0 <= l < |s.locks| && 0 <= i < |s.locks[l].requests| ensures RequestOk(s, n, global, s.locks[l], s.locks[l].requests[i]) {
      assert RequestOk(s, stacks, global, s.locks[l], s.locks[l].requests[i]);
    }
  }

  lemma FramesTop(home: seq<nat>, stacks: seq<seq<Frame>>, t: nat, f: Frame)
    requires FramesOk(home, stacks) && t < |stacks| && stacks[t] != [] && FrameOk(home, t, f, true)
    ensures FramesOk(home, stacks[t := WithTop(stacks[t], f)])
  {
    hide FrameOk;
    var n := stacks[t := WithTop(stacks[t], f)];
    forall u, i | 0 <= u < |n| && 0 <= i < |n[u]| ensures FrameOk(home, u, n[u][i], i == |n[u]| - 1) {
      if u == t && i < |n[t]| - 1 { assert n[t][i] == n[t][..|n[t]| - 1][i] == stacks[t][..|stacks[t]| - 1][i] == stacks[t][i]; }
    }
  }

  /** A frame that does not hold the lock any more leaves one level over; a frame that holds it takes one up. */
  lemma HoldFlag(locks: seq<Lock>, stacks: seq<seq<Frame>>, m: Monitors, global: Resource, t: nat, f: Frame, r: Resource, was: bool, now: bool)
    requires t < |stacks| && stacks[t] != [] && f.sub == Top(stacks[t]).sub
    requires Balanced(locks, stacks, m, global, f.sub, r, was)
    requires forall y: Resource :: HeldIn(f, global, y) + One(now && y == r) == HeldIn(Top(stacks[t]), global, y) + One(was && y == r)
    ensures Balanced(locks, stacks[t := WithTop(stacks[t], f)], m, global, f.sub, r, now)
  {
    hide HeldIn, HeldAll, DepthOf, Entries;
    var n := stacks[t := WithTop(stacks[t], f)];
    forall x: nat, y: Resource ensures DepthOf(locks, y, x) == Entries(m, x, y) + HeldAll(n, global, x, y) + One(now && x == f.sub && y == r) {
      HeldTop(stacks, t, f, global, x, y);
      assert HeldIn(f, global, y) + One(now && y == r) == HeldIn(Top(stacks[t]), global, y) + One(was && y == r);
    }
  }

  // ---------- A lock is asked for ----------

  /** No queue has changed but for one more request. */
  ghost predicate Asked(was: State, now: State, q: Option<Request>, r: Resource) {
    && now.home == was.home && |was.locks| <= |now.locks| && |now.total| == |was.total|
    && (forall l, i :: 0 <= l < |now.locks| && 0 <= i < |now.locks[l].requests| ==>
          (l < |was.locks| && i < |was.locks[l].requests| && now.locks[l].requests[i] == was.locks[l].requests[i]
             && now.locks[l].resource == was.locks[l].resource)
          || (q == Some(now.locks[l].requests[i]) && now.locks[l].resource == r))
    && (forall t :: 0 <= t < |was.total| ==> now.total[t] >= was.total[t])
    && (q.Some? ==> q.value.sub < |now.home| && now.home[q.value.sub] < |now.total| && now.total[now.home[q.value.sub]] > 0)
  }

  /** What `LockObject` says of its result, as needed here. */
  lemma LockEffect(was: State, now: State, r: Resource, q: Request, lockMemory: bool, ownerMemory: bool, requestMemory: bool, hr: Outcome)
    requires Safe(was) && q.sub < |was.home| == |was.pending| && was.home[q.sub] < |was.held| == |was.total|
    requires forall l: nat :: IsLockOf(was, l, r) ==> Incremented(was, l, q.sub, q, ownerMemory, requestMemory, hr, now)
    requires !Locked(was, r) ==>
               if !lockMemory then hr == OutOfMemory && now == was
               else if !ownerMemory then hr == OutOfMemory && now == Born(was, was.home[q.sub], r)
               else hr == Ok && now == Owned(Born(was, was.home[q.sub], r), |was.locks|, [Owner(q.sub, 1)])
    requires Safe(now)
    ensures hr == Ok || hr == ThreadWaiting || hr == OutOfMemory
    ensures hr == Ok ==> Deepened(was.locks, now.locks, r, q.sub) && Asked(was, now, None, r)
    ensures hr == ThreadWaiting ==> Asked(was, now, Some(q), r) && forall x: nat, y: Resource :: DepthOf(now.locks, y, x) == DepthOf(was.locks, y, x)
    ensures hr == OutOfMemory ==> now == was
  {
    hide DepthOf, Depth, Entered, CountsOk, HeldOk, PointersOk, LockOk, Safe, Deepened;
    if Locked(was, r) {
      var l: nat :| IsLockOf(was, l, r);
      assert Incremented(was, l, q.sub, q, ownerMemory, requestMemory, hr, now);
      if hr == Ok { EnteredDeepens(was, l, r, q.sub); }
      if hr == ThreadWaiting { QueuedSame(was, l, q); }
    } else {
      if hr == Ok { BornDeepens(was, r, q.sub); }
      else if lockMemory { BornUnowned(was, was.home[q.sub], r); }
    }
  }

  lemma BornUnowned(s: State, thread: nat, r: Resource)
    requires thread < |s.held|
    ensures !Safe(Born(s, thread, r))
  {
    Unowned(Born(s, thread, r), |s.locks|);
  }

  /** A thread that does not wait has no request queued. */
  lemma NoRequest(s: State, t: nat, l: nat, i: nat)
    requires Safe(s) && t < |s.total| && s.total[t] == 0 && l < |s.locks| && i < |s.locks[l].requests|
    ensures s.locks[l].requests[i].sub < |s.home| && s.home[s.locks[l].requests[i].sub] != t
  {
    hide HeldOk, PointersOk, OneEach, Tally;
    assert LockOk(s.home, s.locks[l]);
    TallyNone(s.locks, SubsOf(s.home, t), l);
    SubsOfSub(s.home, s.locks[l].requests[i].sub, t);
  }

  /** The queues stay in order when a thread that has not waited asks, and its top frame becomes `f`. */
  lemma AskedOk(was: State, now: State, q: Option<Request>, r: Resource, stacks: seq<seq<Frame>>, global: Resource, t: nat, f: Frame)
    requires Safe(was) && RequestsOk(was, stacks, global) && WaitingOk(was.total, stacks) && Asked(was, now, q, r)
    requires t < |stacks| && stacks[t] != [] && was.total[t] == 0 && f.sub == Top(stacks[t]).sub < |was.home| && was.home[f.sub] == t
    requires if q.Some? then q.value.sub == f.sub && (Pending(f) ==> r == Awaited(f, global)) else !Pending(f)
    ensures var n := stacks[t := WithTop(stacks[t], f)]; RequestsOk(now, n, global) && WaitingOk(now.total, n)
  {
    hide Safe, RequestOk;
    var n := stacks[t := WithTop(stacks[t], f)];
    forall l, i | 0 <= l < |now.locks| && 0 <= i < |now.locks[l].requests| ensures RequestOk(now, n, global, now.locks[l], now.locks[l].requests[i]) {
      if l < |was.locks| && i < |was.locks[l].requests| && now.locks[l].requests[i] == was.locks[l].requests[i] && now.locks[l].resource == was.locks[l].resource {
        NoRequest(was, t, l, i);
        assert RequestOk(was, stacks, global, was.locks[l], was.locks[l].requests[i]);
        RequestThread(was, stacks, global, was.locks[l], was.locks[l].requests[i]);
        RequestStays(was, now, stacks, n, global, was.locks[l], now.locks[l], now.locks[l].requests[i]);
      } else {
        RequestNew(now, n, global, now.locks[l], now.locks[l].requests[i]);
      }
    }
  }

  lemma RequestThread(s: State, stacks: seq<seq<Frame>>, global: Resource, lock: Lock, q: Request)
    requires RequestOk(s, stacks, global, lock, q)
    ensures q.sub < |s.home| && s.home[q.sub] < |stacks|
  {
  }

  lemma RequestStays(was: State, now: State, stacks: seq<seq<Frame>>, n: seq<seq<Frame>>, global: Resource, a: Lock, b: Lock, q: Request)
    requires RequestOk(was, stacks, global, a, q) && now.home == was.home && b.resource == a.resource && |n| == |stacks|
    requires n[was.home[q.sub]] == stacks[was.home[q.sub]]
    ensures RequestOk(now, n, global, b, q)
  {
  }

  lemma RequestNew(s: State, n: seq<seq<Frame>>, global: Resource, lock: Lock, q: Request)
    requires q.sub < |s.home| && s.home[q.sub] < |n|
    requires var stack := n[s.home[q.sub]]; stack != [] && (Pending(Top(stack)) ==> q.sub == Top(stack).sub && lock.resource == Awaited(Top(stack), global))
    ensures RequestOk(s, n, global, lock, q)
  {
  }

  // ---------- A lock is given up ----------

  /** Who is granted the lock by what it waited for: its frame, or itself. */
  function MonitorsAfter(s: State, l: nat, owners: seq<Owner>, stacks: seq<seq<Frame>>, m: Monitors, r: Resource): Monitors
    requires l < |s.locks|
  {
    match GrantedTo(s, l, owners)
    case None => m
    case Some(x) =>
      if x < |s.home| && s.home[x] < |stacks| && stacks[s.home[x]] != [] && Pending(Top(stacks[s.home[x]])) then m
      else Changed(m, x, r, Entries(m, x, r) + 1)
  }

  /** A frame that is granted what it waits for holds it. */
  lemma GrantedHolds(f: Frame, global: Resource, r: Resource, y: Resource)
    requires AtMostOne(f.global) && AtMostOne(f.own) && !(f.global.pending && f.own.pending) && (Pending(f) ==> r == Awaited(f, global))
    ensures HeldIn(Granted(f), global, y) == HeldIn(f, global, y) + One(Pending(f) && y == r)
    ensures !Pending(Granted(f)) && AtMostOne(Granted(f).global) && AtMostOne(Granted(f).own) && Granted(f).sub == f.sub
    ensures !Pending(f) ==> Granted(f) == f
  {
  }

  lemma LeftBalanced(s: State, l: nat, r: Resource, sub: nat, stacks: seq<seq<Frame>>, m: Monitors, global: Resource)
    requires Good(s, stacks, m, global, sub, r, true) && IsLockOf(s, l, r) && Holds(s, l, sub) && Transferable(s, l) && |stacks| == |s.total|
    requires Safe(Regranted(s, l, Left(s.locks[l].owners, sub)))
    ensures s.locks[l].requests != [] ==> s.locks[l].requests[0].sub < |s.home| && s.home[s.locks[l].requests[0].sub] < |stacks|
    ensures var owners := Left(s.locks[l].owners, sub);
            Balanced(Regranted(s, l, owners).locks, AfterRegrant(s, l, owners, stacks), MonitorsAfter(s, l, owners, stacks, m, r), global, sub, r, false)
  {
    hide Left, DepthOf, HeldAll, Entries, Safe, Regranted, HeldIn;
    var owners := Left(s.locks[l].owners, sub);
    var n, st, mm := Regranted(s, l, owners), AfterRegrant(s, l, owners, stacks), MonitorsAfter(s, l, owners, stacks, m, r);
    forall x: nat, y: Resource ensures DepthOf(n.locks, y, x) == Entries(mm, x, y) + HeldAll(st, global, x, y) {
      LeftDepths(s, l, r, sub, x, y);
      GrantedBalance(s, l, r, owners, stacks, m, global, x, y);
    }
  }

  /** The level that the granted sub-thread gains is held by its frame or counts as its own. */
  lemma GrantedBalance(s: State, l: nat, r: Resource, owners: seq<Owner>, stacks: seq<seq<Frame>>, m: Monitors, global: Resource, x: nat, y: Resource)
    requires l < |s.locks| && s.locks[l].resource == r && FramesOk(s.home, stacks) && RequestsOk(s, stacks, global) && |stacks| == |s.total|
    ensures s.locks[l].requests != [] ==> s.locks[l].requests[0].sub < |s.home| && s.home[s.locks[l].requests[0].sub] < |stacks|
    ensures Entries(MonitorsAfter(s, l, owners, stacks, m, r), x, y) + HeldAll(AfterRegrant(s, l, owners, stacks), global, x, y)
              == Entries(m, x, y) + HeldAll(stacks, global, x, y) + One(GrantedTo(s, l, owners) == Some(x) && y == r)
  {
    hide HeldAll, HeldIn;
    if s.locks[l].requests != [] {
      var q := s.locks[l].requests[0];
      assert RequestOk(s, stacks, global, s.locks[l], q);
      if owners == [] {
        var t := s.home[q.sub];
        if stacks[t] != [] {
          var f := Top(stacks[t]);
          assert FrameOk(s.home, t, stacks[t][|stacks[t]| - 1], true);
          GrantedHolds(f, global, r, y);
          HeldTop(stacks, t, Granted(f), global, x, y);
          assert GrantedTop(stacks[t]) == WithTop(stacks[t], Granted(f));
        } else {
          assert stacks[t := GrantedTop(stacks[t])] == stacks;
        }
      }
    }
  }

  /** Frames and queues after a lock has been given up. */
  lemma LeftQueues(s: State, l: nat, r: Resource, owners: seq<Owner>, stacks: seq<seq<Frame>>, global: Resource)
    requires Safe(s) && IsLockOf(s, l, r) && Transferable(s, l) && Safe(Regranted(s, l, owners)) && |stacks| == |s.total|
    requires FramesOk(s.home, stacks) && RequestsOk(s, stacks, global) && WaitingOk(s.total, stacks)
    ensures s.locks[l].requests != [] ==> s.locks[l].requests[0].sub < |s.home| && s.home[s.locks[l].requests[0].sub] < |stacks|
    ensures var n, st := Regranted(s, l, owners), AfterRegrant(s, l, owners, stacks);
            FramesOk(s.home, st) && RequestsOk(n, st, global) && WaitingOk(n.total, st)
  {
    hide Safe, RequestOk, FrameOk;
    var n, st := Regranted(s, l, owners), AfterRegrant(s, l, owners, stacks);
    if owners == [] && s.locks[l].requests != [] {
      var q := s.locks[l].requests[0];
      RequestThread(s, stacks, global, s.locks[l], q);
      var t := s.home[q.sub];
      if stacks[t] == [] {
        assert st == stacks;
      } else {
        assert FrameOk(s.home, t, stacks[t][|stacks[t]| - 1], true);
        assert RequestOk(s, stacks, global, s.locks[l], q);
        GrantedFrame(s.home, t, Top(stacks[t]));
        FramesTop(s.home, stacks, t, Granted(Top(stacks[t])));
        assert GrantedTop(stacks[t]) == WithTop(stacks[t], Granted(Top(stacks[t])));
      }
      forall k, i | 0 <= k < |n.locks| && 0 <= i < |n.locks[k].requests| ensures RequestOk(n, st, global, n.locks[k], n.locks[k].requests[i]) {
        var j := if k == l then i + 1 else i;
        assert n.locks[k].requests[i] == s.locks[k].requests[j];
        assert RequestOk(s, stacks, global, s.locks[k], s.locks[k].requests[j]);
        RequestThread(s, stacks, global, s.locks[k], s.locks[k].requests[j]);
        RequestGranted(s, n, stacks, st, global, s.locks[k], n.locks[k], n.locks[k].requests[i], t);
      }
    } else {
      forall k, i | 0 <= k < |n.locks| && 0 <= i < |n.locks[k].requests| ensures RequestOk(n, st, global, n.locks[k], n.locks[k].requests[i]) {
        assert n.locks[k].requests[i] == s.locks[k].requests[i];
        assert RequestOk(s, stacks, global, s.locks[k], s.locks[k].requests[i]);
        RequestThread(s, stacks, global, s.locks[k], s.locks[k].requests[i]);
        RequestStays(s, n, stacks, st, global, s.locks[k], n.locks[k], n.locks[k].requests[i]);
      }
    }
  }

  lemma GrantedFrame(home: seq<nat>, t: nat, f: Frame)
    requires FrameOk(home, t, f, true)
    ensures FrameOk(home, t, Granted(f), true) && !Pending(Granted(f))
  {
  }

  lemma RequestGranted(was: State, now: State, stacks: seq<seq<Frame>>, n: seq<seq<Frame>>, global: Resource, a: Lock, b: Lock, q: Request, t: nat)
    requires RequestOk(was, stacks, global, a, q) && now.home == was.home && b.resource == a.resource && |n| == |stacks| && t < |n|
    requires was.home[q.sub] != t ==> n[was.home[q.sub]] == stacks[was.home[q.sub]]
    requires !IsPending(n[t])
    ensures RequestOk(now, n, global, b, q)
  {
  }

  const TIMEOUT_INFINITE := 0x7FFF_FFFF_FFFF_FFFF

  /** The flags of a frame for one kind of lock. */
  function Flags(f: Frame, isGlobal: bool): Sync {
    if isGlobal then f.global else f.own
  }

  function WithFlags(f: Frame, isGlobal: bool, s: Sync): Frame {
    if isGlobal then f.(global := s) else f.(own := s)
  }

  /** What a frame locks. */
  function Locking(f: Frame, isGlobal: bool, global: Resource): Resource {
    if isGlobal then global else f.resource
  }

  // ---------- The steps on whole states ----------

  lemma NothingHeld(stacks: seq<seq<Frame>>, global: Resource, x: nat, y: Resource)
    requires forall t :: 0 <= t < |stacks| ==> stacks[t] == []
    ensures HeldAll(stacks, global, x, y) == 0
  {
  }

  /** With nothing over, it does not matter for whom. */
  lemma AnyExtra(s: State, stacks: seq<seq<Frame>>, m: Monitors, global: Resource, sub: nat, r: Resource, sub': nat, r': Resource)
    requires Good(s, stacks, m, global, sub, r, false)
    ensures Good(s, stacks, m, global, sub', r', false)
  {
    hide DepthOf, HeldAll, Entries, Safe;
  }

  /** The thread of a thread that runs is not pending. */
  lemma NotPending(s: State, stacks: seq<seq<Frame>>, t: nat)
    requires FramesOk(s.home, stacks) && WaitingOk(s.total, stacks) && t < |stacks| && stacks[t] != [] && s.total[t] == 0
    ensures !Pending(Top(stacks[t])) && FrameOk(s.home, t, Top(stacks[t]), true)
  {
    assert FrameOk(s.home, t, stacks[t][|stacks[t]| - 1], true);
  }

  /** A lock is asked for: the thread is one level deeper, or waits, or nothing has happened. */
  ghost predicate LockAsked(was: State, now: State, r: Resource, q: Request, hr: Outcome) {
    && (hr == Ok || hr == ThreadWaiting || hr == OutOfMemory)
    && (hr == Ok ==> Deepened(was.locks, now.locks, r, q.sub) && Asked(was, now, None, r))
    && (hr == ThreadWaiting ==> Asked(was, now, Some(q), r) && forall x: nat, y: Resource :: DepthOf(now.locks, y, x) == DepthOf(was.locks, y, x))
    && (hr == OutOfMemory ==> now == was)
  }

  lemma DeepenedBalance(was: seq<Lock>, now: seq<Lock>, stacks: seq<seq<Frame>>, m: Monitors, global: Resource, sub: nat, r: Resource)
    requires Balanced(was, stacks, m, global, sub, r, false) && Deepened(was, now, r, sub)
    ensures Balanced(now, stacks, m, global, sub, r, true)
  {
    hide DepthOf, HeldAll, Entries;
  }

  lemma SameBalance(was: seq<Lock>, now: seq<Lock>, stacks: seq<seq<Frame>>, m: Monitors, global: Resource, sub: nat, r: Resource)
    requires Balanced(was, stacks, m, global, sub, r, false) && forall x: nat, y: Resource :: DepthOf(now, y, x) == DepthOf(was, y, x)
    ensures Balanced(now, stacks, m, global, sub, r, false)
  {
    hide DepthOf, HeldAll, Entries;
  }

  /** The top frame of a thread that runs has asked for a lock. */
  lemma Acquired(s: State, n: State, stacks: seq<seq<Frame>>, m: Monitors, global: Resource, t: nat, isGlobal: bool, q: Request, hr: Outcome)
    requires Good(s, stacks, m, global, 0, global, false) && t < |stacks| && stacks[t] != [] && s.total[t] == 0 && Safe(n)
    requires Flags(Top(stacks[t]), isGlobal).need && q.sub == Top(stacks[t]).sub
    requires LockAsked(s, n, Locking(Top(stacks[t]), isGlobal, global), q, hr)
    ensures var f := WithFlags(Top(stacks[t]), isGlobal, Sync(false, hr == ThreadWaiting, hr == Ok));
            Good(n, stacks[t := WithTop(stacks[t], f)], m, global, 0, global, false)
  {
    hide Safe, Balanced, RequestsOk, FramesOk, DepthOf, HeldAll, Asked, Deepened;
    var top, r := Top(stacks[t]), Locking(Top(stacks[t]), isGlobal, global);
    var f := WithFlags(top, isGlobal, Sync(false, hr == ThreadWaiting, hr == Ok));
    NotPending(s, stacks, t);
    AnyExtra(s, stacks, m, global, 0, global, top.sub, r);
    FramesTop(s.home, stacks, t, f);
    AskedHome(s, n, r, q, hr);
    if hr == Ok {
      AskedOk(s, n, None, r, stacks, global, t, f);
      DeepenedBalance(s.locks, n.locks, stacks, m, global, top.sub, r);
      HoldFlag(n.locks, stacks, m, global, t, f, r, true, false);
    } else if hr == ThreadWaiting {
      AskedOk(s, n, Some(q), r, stacks, global, t, f);
      SameBalance(s.locks, n.locks, stacks, m, global, top.sub, r);
      HoldFlag(n.locks, stacks, m, global, t, f, r, false, false);
    } else {
      FlagsOk(s, stacks, global, t, f);
      HoldFlag(n.locks, stacks, m, global, t, f, r, false, false);
    }
    AnyExtra(n, stacks[t := WithTop(stacks[t], f)], m, global, top.sub, r, 0, global);
  }

  lemma AskedHome(was: State, now: State, r: Resource, q: Request, hr: Outcome)
    requires LockAsked(was, now, r, q, hr)
    ensures now.home == was.home && |now.total| == |was.total|
  {
  }

  /** A lock has been given up that is one level over: everything is in balance again. */
  lemma Released(s: State, l: nat, r: Resource, sub: nat, stacks: seq<seq<Frame>>, m: Monitors, global: Resource, n: State)
    requires Good(s, stacks, m, global, sub, r, true) && IsLockOf(s, l, r) && Holds(s, l, sub) && Safe(n)
    requires Regrants(s, l, Left(s.locks[l].owners, sub), n) && |stacks| == |s.total|
    ensures s.locks[l].requests != [] ==> s.locks[l].requests[0].sub < |s.home| && s.home[s.locks[l].requests[0].sub] < |stacks|
    ensures var owners := Left(s.locks[l].owners, sub);
            Good(n, AfterRegrant(s, l, owners, stacks), MonitorsAfter(s, l, owners, stacks, m, r), global, 0, global, false)
  {
    hide Safe, RequestsOk, FramesOk, Balanced, Left, Regranted;
    var owners := Left(s.locks[l].owners, sub);
    LeftBalanced(s, l, r, sub, stacks, m, global);
    LeftQueues(s, l, r, owners, stacks, global);
    RegrantedHome(s, l, owners);
    AnyExtra(n, AfterRegrant(s, l, owners, stacks), MonitorsAfter(s, l, owners, stacks, m, r), global, sub, r, 0, global);
  }

  lemma RegrantedHome(s: State, l: nat, owners: seq<Owner>)
    requires Transferable(s, l)
    ensures Regranted(s, l, owners).home == s.home
  {
  }

  /** A sub-thread that is one level over has the lock. */
  lemma OverHolds(s: State, stacks: seq<seq<Frame>>, m: Monitors, global: Resource, sub: nat, r: Resource) returns (l: nat)
    requires Good(s, stacks, m, global, sub, r, true)
    ensures IsLockOf(s, l, r) && Holds(s, l, sub)
  {
    hide HeldAll, Entries, CountsOk, HeldOk, PointersOk;
    assert DepthOf(s.locks, r, sub) > 0;
    l := LockOf(s.locks, r);
    assert LockOk(s.home, s.locks[l]);
    DepthAt(s.locks[l].owners, sub);
  }

  /** The top frame of a thread that runs lets go of a lock. */
  lemma LetGo(s: State, stacks: seq<seq<Frame>>, m: Monitors, global: Resource, t: nat, isGlobal: bool)
    requires Good(s, stacks, m, global, 0, global, false) && t < |stacks| && stacks[t] != [] && s.total[t] == 0
    requires Flags(Top(stacks[t]), isGlobal).held
    ensures var f := WithFlags(Top(stacks[t]), isGlobal, Sync(false, false, false));
            Good(s, stacks[t := WithTop(stacks[t], f)], m, global, f.sub, Locking(f, isGlobal, global), true)
  {
    hide Safe, Balanced, RequestsOk, FramesOk, DepthOf, HeldAll;
    var top, r := Top(stacks[t]), Locking(Top(stacks[t]), isGlobal, global);
    var f := WithFlags(top, isGlobal, Sync(false, false, false));
    NotPending(s, stacks, t);
    AnyExtra(s, stacks, m, global, 0, global, top.sub, r);
    FlagsOk(s, stacks, global, t, f);
    HoldFlag(s.locks, stacks, m, global, t, f, r, false, true);
  }

  /** A new frame that holds nothing. */
  lemma Called(s: State, stacks: seq<seq<Frame>>, m: Monitors, global: Resource, t: nat, f: Frame)
    requires Good(s, stacks, m, global, 0, global, false) && t < |stacks| && s.total[t] == 0
    requires FrameOk(s.home, t, f, true) && !Pending(f) && !f.global.held && !f.own.held
    ensures Good(s, stacks[t := stacks[t] + [f]], m, global, 0, global, false)
  {
    hide Safe, DepthOf, HeldAll, Entries, HeldBy, RequestOk, FrameOk;
    var n := stacks[t := stacks[t] + [f]];
    if stacks[t] != [] { NotPending(s, stacks, t); }
    forall x: nat, y: Resource ensures HeldAll(n, global, x, y) == HeldAll(stacks, global, x, y) {
      HeldUpdate(stacks, t, n[t], global, x, y);
      HeldMore(stacks[t], f, global, x, y);
    }
    forall u, i | 0 <= u < |n| && 0 <= i < |n[u]| ensures FrameOk(s.home, u, n[u][i], i == |n[u]| - 1) {
      if u == t && i < |stacks[t]| {
        assert n[t][i] == stacks[t][i];
        assert FrameOk(s.home, t, stacks[t][i], i == |stacks[t]| - 1);
        NoLongerTop(s.home, t, stacks[t][i], i == |stacks[t]| - 1);
      }
    }
    forall l, i | 0 <= l < |s.locks| && 0 <= i < |s.locks[l].requests| ensures RequestOk(s, n, global, s.locks[l], s.locks[l].requests[i]) {
      NoRequest(s, t, l, i);
      RequestThread(s, stacks, global, s.locks[l], s.locks[l].requests[i]);
      RequestStays(s, s, stacks, n, global, s.locks[l], s.locks[l], s.locks[l].requests[i]);
    }
  }

  lemma HeldMore(stack: seq<Frame>, f: Frame, global: Resource, x: nat, y: Resource)
    ensures HeldBy(stack + [f], global, x, y) == HeldBy(stack, global, x, y) + if f.sub == x then HeldIn(f, global, y) else 0
  {
    assert (stack + [f])[..|stack|] == stack;
  }

  lemma NoLongerTop(home: seq<nat>, t: nat, f: Frame, top: bool)
    requires FrameOk(home, t, f, top) && (top ==> !Pending(f))
    ensures FrameOk(home, t, f, false)
  {
  }

  /** A frame that holds nothing is gone. */
  lemma Returned(s: State, stacks: seq<seq<Frame>>, m: Monitors, global: Resource, t: nat)
    requires Good(s, stacks, m, global, 0, global, false) && t < |stacks| && stacks[t] != [] && s.total[t] == 0
    requires !Top(stacks[t]).global.held && !Top(stacks[t]).own.held
    ensures Good(s, stacks[t := stacks[t][..|stacks[t]| - 1]], m, global, 0, global, false)
  {
    hide Safe, DepthOf, HeldAll, Entries, HeldBy, RequestOk, FrameOk;
    var below, f := stacks[t][..|stacks[t]| - 1], Top(stacks[t]);
    var n := stacks[t := below];
    assert below + [f] == stacks[t];
    forall x: nat, y: Resource ensures HeldAll(n, global, x, y) == HeldAll(stacks, global, x, y) {
      HeldUpdate(stacks, t, below, global, x, y);
      HeldMore(below, f, global, x, y);
    }
    forall u, i | 0 <= u < |n| && 0 <= i < |n[u]| ensures FrameOk(s.home, u, n[u][i], i == |n[u]| - 1) && (u == t ==> !Pending(n[u][i])) {
      if u == t {
        assert FrameOk(s.home, t, stacks[t][i], i == |stacks[t]| - 1);
        TopAgain(s.home, t, stacks[t][i]);
      }
    }
    forall l, i | 0 <= l < |s.locks| && 0 <= i < |s.locks[l].requests| ensures RequestOk(s, n, global, s.locks[l], s.locks[l].requests[i]) {
      NoRequest(s, t, l, i);
      RequestThread(s, stacks, global, s.locks[l], s.locks[l].requests[i]);
      RequestStays(s, s, stacks, n, global, s.locks[l], s.locks[l], s.locks[l].requests[i]);
    }
  }

  lemma TopAgain(home: seq<nat>, t: nat, f: Frame)
    requires FrameOk(home, t, f, false)
    ensures FrameOk(home, t, f, true) && !Pending(f)
  {
  }

  /** A sub-thread of a thread that runs has entered a monitor by itself, or waits for it. */
  lemma MonitorEntered(s: State, n: State, stacks: seq<seq<Frame>>, m: Monitors, global: Resource, t: nat, r: Resource, q: Request, hr: Outcome)
    requires Good(s, stacks, m, global, 0, global, false) && t < |stacks| && stacks[t] != [] && s.total[t] == 0 && Safe(n)
    requires LockAsked(s, n, r, q, hr) && q.sub == Top(stacks[t]).sub
    ensures Good(n, stacks, if hr == Ok then Changed(m, q.sub, r, Entries(m, q.sub, r) + 1) else m, global, 0, global, false)
  {
    hide Safe, Balanced, RequestsOk, FramesOk, DepthOf, HeldAll, Asked, Deepened;
    var top := Top(stacks[t]);
    NotPending(s, stacks, t);
    AnyExtra(s, stacks, m, global, 0, global, q.sub, r);
    assert WithTop(stacks[t], top) == stacks[t];
    assert stacks[t := WithTop(stacks[t], top)] == stacks;
    AskedHome(s, n, r, q, hr);
    if hr == Ok {
      AskedOk(s, n, None, r, stacks, global, t, top);
      DeepenedBalance(s.locks, n.locks, stacks, m, global, q.sub, r);
      OverCounts(n.locks, stacks, m, global, q.sub, r);
      AnyExtra(n, stacks, Changed(m, q.sub, r, Entries(m, q.sub, r) + 1), global, q.sub, r, 0, global);
    } else if hr == ThreadWaiting {
      AskedOk(s, n, Some(q), r, stacks, global, t, top);
      SameBalance(s.locks, n.locks, stacks, m, global, q.sub, r);
      AnyExtra(n, stacks, m, global, q.sub, r, 0, global);
    }
  }

  /** One level over counts as an entry. */
  lemma OverCounts(locks: seq<Lock>, stacks: seq<seq<Frame>>, m: Monitors, global: Resource, sub: nat, r: Resource)
    requires Balanced(locks, stacks, m, global, sub, r, true)
    ensures Balanced(locks, stacks, Changed(m, sub, r, Entries(m, sub, r) + 1), global, sub, r, false)
  {
    hide DepthOf, HeldAll;
  }

  /** One entry less is one level over. */
  lemma CountsOver(locks: seq<Lock>, stacks: seq<seq<Frame>>, m: Monitors, global: Resource, sub: nat, r: Resource)
    requires Balanced(locks, stacks, m, global, sub, r, false) && Entries(m, sub, r) > 0
    ensures Balanced(locks, stacks, Changed(m, sub, r, Entries(m, sub, r) - 1), global, sub, r, true)
  {
    hide DepthOf, HeldAll;
  }

  // ---------- The synchronizer ----------

  class Synchronizer {
    const engine: LockEngine
    const global: Resource // the private object for global locks
    ghost var monitors: Monitors

    /** The flags of the frames and the locks agree. */
    ghost predicate Valid()
      reads this, engine
    {
      engine.Waits() && Good(engine.Now(), engine.stacks, monitors, global, 0, global, false)
    }

    /** A thread that runs: it has a frame, and no request queued. */
    ghost predicate Runs(t: nat)
      reads engine
    {
      t < |engine.stacks| && t < |engine.total| && engine.stacks[t] != [] && engine.total[t] == 0
    }

    constructor (home: seq<nat>, threads: nat, global: Resource)
      requires forall s :: 0 <= s < |home| ==> home[s] < threads
      ensures Valid() && fresh(engine) && this.global == global && monitors == map[]
      ensures engine.locks == [] && |engine.total| == |engine.stacks| == threads && engine.home == home
      ensures forall t :: 0 <= t < threads ==> engine.total[t] == 0 && engine.stacks[t] == []
    {
      this.global := global;
      engine := new LockEngine(home, threads);
      monitors := map[];
      new;
      hide Safe;
      forall x: nat, y: Resource ensures HeldAll(engine.stacks, global, x, y) == 0 { NothingHeld(engine.stacks, global, x, y); }
    }

    /** A method is called: its frame has still to ask for what it locks. */
    method Call(t: nat, sub: nat, resource: Resource, synchronized: bool, globally: bool)
      requires Valid() && t < |engine.stacks| && t < |engine.total| && engine.total[t] == 0 && sub < |engine.home| && engine.home[sub] == t
      modifies engine`stacks
      ensures Valid()
      ensures var f := Frame(sub, resource, Sync(globally, false, false), Sync(synchronized, false, false));
              engine.stacks == old(engine.stacks)[t := old(engine.stacks)[t] + [f]]
    {
      hide Good;
      var f := Frame(sub, resource, Sync(globally, false, false), Sync(synchronized, false, false));
      Called(engine.Now(), engine.stacks, monitors, global, t, f);
      engine.stacks := engine.stacks[t := engine.stacks[t] + [f]];
    }

    /** The top frame of a thread asks for a lock of one kind, which it needs. */
    method Acquire(t: nat, isGlobal: bool, lockMemory: bool, ownerMemory: bool, requestMemory: bool) returns (hr: Outcome)
      requires Valid() && Runs(t) && Flags(Top(engine.stacks[t]), isGlobal).need
      modifies engine
      ensures hr in {Ok, ThreadWaiting, OutOfMemory} && (hr != OutOfMemory ==> Safe(engine.Now())) && (Safe(engine.Now()) ==> Valid())
      ensures |engine.stacks| == |old(engine.stacks)| && engine.stacks[t] != []
      ensures Top(engine.stacks[t]) == WithFlags(Top(old(engine.stacks)[t]), isGlobal, Sync(false, hr == ThreadWaiting, hr == Ok))
      ensures hr == Ok ==> Runs(t)
      ensures lockMemory && ownerMemory && !Locked(old(engine.Now()), Locking(Top(old(engine.stacks)[t]), isGlobal, global)) ==> hr == Ok
    {
      hide Good, DepthOf, Safe, Asked, Deepened, Entered, Depth;
      ghost var s, was := engine.Now(), engine.stacks;
      GoodIs(s, was, monitors, global);
      var f := Top(engine.stacks[t]);
      engine.stacks := engine.stacks[t := WithTop(engine.stacks[t], WithFlags(f, isGlobal, Sync(false, false, false)))];
      var r := Locking(f, isGlobal, global);
      ghost var q := Request(f.sub, TIMEOUT_INFINITE, false);
      hr := engine.LockObject(r, f.sub, TIMEOUT_INFINITE, false, lockMemory, ownerMemory, requestMemory);
      Outcomes(s, engine.Now(), r, q, lockMemory, ownerMemory, requestMemory, hr);
      engine.stacks := engine.stacks[t := WithTop(engine.stacks[t], WithFlags(f, isGlobal, Sync(false, hr == ThreadWaiting, hr == Ok)))];
      assert engine.stacks == was[t := WithTop(was[t], WithFlags(f, isGlobal, Sync(false, hr == ThreadWaiting, hr == Ok)))];
      if Safe(engine.Now()) {
        Acquired(s, engine.Now(), was, monitors, global, t, isGlobal, q, hr);
      }
    }

    /** The interpreter comes to the top frame of a thread.  It goes on only when the frame needs no lock any more. */
    method Synchronize(t: nat, lockMemory: bool, ownerMemory: bool, requestMemory: bool) returns (hr: Outcome)
      requires Valid() && t < |engine.stacks| && t < |engine.total| && engine.stacks[t] != []
      requires Runs(t) || Pending(Top(engine.stacks[t]))
      modifies engine
      ensures Safe(engine.Now()) ==> Valid()
      ensures |engine.stacks| == |old(engine.stacks)| && engine.stacks[t] != [] && hr in {Ok, ThreadWaiting, OutOfMemory}
      ensures hr == Ok ==> Runs(t) && Safe(engine.Now()) && Synchronized(Top(old(engine.stacks)[t]), Top(engine.stacks[t]))
      ensures hr == ThreadWaiting ==> Safe(engine.Now()) && Pending(Top(engine.stacks[t]))
      ensures var f := Top(old(engine.stacks)[t]);
              lockMemory && ownerMemory && !Pending(f) && !f.global.need && !Locked(old(engine.Now()), f.resource) ==> hr == Ok
    {
      hide Good, Safe;
      GoodIs(engine.Now(), engine.stacks, monitors, global);
      var f := Top(engine.stacks[t]);
      if f.global.pending || f.own.pending { return ThreadWaiting; }
      if f.global.need {
        hr := Acquire(t, true, lockMemory, ownerMemory, requestMemory);
        if hr != Ok { return hr; }
      }
      if f.own.need {
        hr := Acquire(t, false, lockMemory, ownerMemory, requestMemory);
        if hr != Ok { return hr; }
      }
      hr := Ok;
    }

    /** The top frame of a thread that runs lets go of a lock of one kind, which it holds: the lock is given up by
        one level, and if that was the last, the frame that is next has it. */
    method LetGoOf(t: nat, isGlobal: bool)
      requires Valid() && Runs(t) && Flags(Top(engine.stacks[t]), isGlobal).held
      modifies this, engine
      ensures Valid() && Runs(t) && |engine.stacks| == |old(engine.stacks)| && |engine.stacks[t]| == |old(engine.stacks)[t]|
      ensures Top(engine.stacks[t]) == WithFlags(Top(old(engine.stacks)[t]), isGlobal, Sync(false, false, false))
      ensures engine.stacks[t][..|engine.stacks[t]| - 1] == old(engine.stacks)[t][..|engine.stacks[t]| - 1]
    {
      hide Good, DepthOf, Safe, Left, Depth, Regranted;
      GoodIs(engine.Now(), engine.stacks, monitors, global);
      LetGo(engine.Now(), engine.stacks, monitors, global, t, isGlobal);
      var f := Top(engine.stacks[t]);
      engine.stacks := engine.stacks[t := WithTop(engine.stacks[t], WithFlags(f, isGlobal, Sync(false, false, false)))];
      Unlock(Locking(f, isGlobal, global), f.sub, t);
    }

    /** A lock that is one level over is given up by one level. */
    method Unlock(r: Resource, sub: nat, ghost t: nat)
      requires engine.Waits() && Good(engine.Now(), engine.stacks, monitors, global, sub, r, true)
      requires sub < |engine.home| && engine.home[sub] == t && t < |engine.total| && engine.total[t] == 0
      modifies this, engine
      ensures Valid() && |engine.stacks| == |old(engine.stacks)| && |engine.total| == |engine.stacks| > t
      ensures engine.stacks[t] == old(engine.stacks)[t] && engine.total[t] == 0
    {
      hide Good, DepthOf, Left, Depth, Regranted;
      ghost var s, was, m := engine.Now(), engine.stacks, monitors;
      OverGood(s, was, m, global, sub, r);
      hide Safe;
      ghost var l := OverHolds(s, was, m, global, sub, r);
      var hr := engine.UnlockObject(r, sub);
      Released(s, l, r, sub, was, m, global, engine.Now());
      monitors := MonitorsAfter(s, l, Left(s.locks[l].owners, sub), was, m, r);
      OthersGranted(s, l, Left(s.locks[l].owners, sub), was, engine.Now(), t);
    }

    /** The method of the top frame returns, and its frame gives up what it holds. */
    method Pop(t: nat)
      requires Valid() && Runs(t)
      modifies this, engine
      ensures Valid() && |engine.stacks| == |old(engine.stacks)|
      ensures engine.stacks[t] == old(engine.stacks)[t][..|old(engine.stacks)[t]| - 1]
    {
      hide Good, Safe;
      GoodIs(engine.Now(), engine.stacks, monitors, global);
      if Top(engine.stacks[t]).own.held { LetGoOf(t, false); }
      if Top(engine.stacks[t]).global.held { LetGoOf(t, true); }
      Returned(engine.Now(), engine.stacks, monitors, global, t);
      engine.stacks := engine.stacks[t := engine.stacks[t][..|engine.stacks[t]| - 1]];
    }

    /** A thread that runs enters the monitor of a resource by itself. */
    method MonitorEnter(t: nat, r: Resource, lockMemory: bool, ownerMemory: bool, requestMemory: bool) returns (hr: Outcome)
      requires Valid() && Runs(t)
      modifies this, engine
      ensures (hr != OutOfMemory ==> Safe(engine.Now())) && (Safe(engine.Now()) ==> Valid()) && engine.stacks == old(engine.stacks)
      ensures var x := Top(engine.stacks[t]).sub;
              monitors == if hr == Ok then Changed(old(monitors), x, r, Entries(old(monitors), x, r) + 1) else old(monitors)
    {
      hide Good, DepthOf, Safe, Asked, Deepened, Entered, Depth;
      ghost var s := engine.Now();
      GoodIs(s, engine.stacks, monitors, global);
      var sub := Top(engine.stacks[t]).sub;
      ghost var q := Request(sub, TIMEOUT_INFINITE, false);
      hr := engine.LockObject(r, sub, TIMEOUT_INFINITE, false, lockMemory, ownerMemory, requestMemory);
      Outcomes(s, engine.Now(), r, q, lockMemory, ownerMemory, requestMemory, hr);
      if Safe(engine.Now()) { MonitorEntered(s, engine.Now(), engine.stacks, monitors, global, t, r, q, hr); }
      if hr == Ok { monitors := Changed(monitors, sub, r, Entries(monitors, sub, r) + 1); }
    }

    /** A thread that runs exits a monitor.  Nothing happens unless it has the lock.  If it has it, but only because
        of synchronized methods, it loses a level that a frame still holds. */
    method MonitorExit(t: nat, r: Resource) returns (hr: Outcome)
      requires Valid() && Runs(t)
      modifies this, engine
      ensures |engine.stacks| == |old(engine.stacks)| && engine.stacks[t] == old(engine.stacks)[t]
      ensures var s, x := old(engine.Now()), Top(old(engine.stacks)[t]).sub;
              && (hr == Ok <==> DepthOf(s.locks, r, x) > 0)
              && (Valid() <==> old(Entries(monitors, x, r)) > 0 || DepthOf(s.locks, r, x) == 0)
      ensures hr != Ok ==> hr == SynchronizationException && engine.Now() == old(engine.Now())
                             && engine.stacks == old(engine.stacks) && monitors == old(monitors)
    {
      hide Good, DepthOf, Safe, Left, Depth, Regranted;
      ghost var s, was, m := engine.Now(), engine.stacks, monitors;
      GoodIs(s, was, m, global);
      var sub := Top(engine.stacks[t]).sub;
      ghost var l := LockOf(s.locks, r);
      OwnsByDepth(s, r, sub);
      NoDepthNoEntries(s, was, m, global, sub, r);
      hr := engine.UnlockObject(r, sub);
      if hr == Ok {
        Exited(s, l, r, sub, was, m, global, engine.Now());
        monitors := MonitorsAfter(s, l, Left(s.locks[l].owners, sub), was, EntryLess(m, sub, r), r);
        OthersGranted(s, l, Left(s.locks[l].owners, sub), was, engine.Now(), t);
      }
    }
  }

  /** A synchronized method that exits the monitor of its own object: the balance is lost. */
  method ExitsItsOwnLock() returns (s: Synchronizer, hr: Outcome)
    ensures hr == Ok && !s.Valid()
  {
    hide DepthOf, Safe, Good;
    s := new Synchronizer([0], 1, Other(0));
    NoLock(s.engine.Now(), Object(1));
    s.Call(0, 0, Object(1), true, false);
    GoodIs(s.engine.Now(), s.engine.stacks, s.monitors, s.global);
    hr := s.Synchronize(0, true, true, true);
    FrameHas(s.engine.Now(), s.engine.stacks, s.monitors, s.global, 0);
    hr := s.MonitorExit(0, Object(1));
  }

  lemma NoLock(s: State, r: Resource)
    requires s.locks == []
    ensures !Locked(s, r)
  {
  }

  /** What the top frame holds, its sub-thread has. */
  lemma FrameHas(s: State, stacks: seq<seq<Frame>>, m: Monitors, global: Resource, t: nat)
    requires Good(s, stacks, m, global, 0, global, false) && t < |stacks| && stacks[t] != [] && Top(stacks[t]).own.held
    ensures DepthOf(s.locks, Top(stacks[t]).resource, Top(stacks[t]).sub) > 0
  {
    hide DepthOf, Safe, HeldAll, Entries, FramesOk, RequestsOk, WaitingOk;
    var f := Top(stacks[t]);
    HeldTop(stacks, t, f, global, f.sub, f.resource);
  }

  function EntryLess(m: Monitors, sub: nat, r: Resource): Monitors {
    if Entries(m, sub, r) > 0 then Changed(m, sub, r, Entries(m, sub, r) - 1) else m
  }

  /** The lock that a sub-thread has a depth in is the one that it holds. */
  lemma OwnsByDepth(s: State, r: Resource, sub: nat)
    requires Safe(s)
    ensures var l := LockOf(s.locks, r);
            DepthOf(s.locks, r, sub) > 0 <==> IsLockOf(s, l, r) && Holds(s, l, sub)
    ensures DepthOf(s.locks, r, sub) > 0 <==> exists l: nat :: IsLockOf(s, l, r) && Holds(s, l, sub)
  {
    hide CountsOk, HeldOk, PointersOk;
    var l := LockOf(s.locks, r);
    if DepthOf(s.locks, r, sub) > 0 {
      assert LockOk(s.home, s.locks[l]);
      DepthAt(s.locks[l].owners, sub);
    }
    forall k: nat | IsLockOf(s, k, r) && Holds(s, k, sub) ensures DepthOf(s.locks, r, sub) > 0 && k == l { DepthIs(s, k, r, sub); }
  }

  lemma NoDepthNoEntries(s: State, stacks: seq<seq<Frame>>, m: Monitors, global: Resource, sub: nat, r: Resource)
    requires Good(s, stacks, m, global, 0, global, false)
    ensures DepthOf(s.locks, r, sub) == 0 ==> Entries(m, sub, r) == 0
  {
    hide DepthOf, Entries, HeldAll, Safe;
  }

  /** A monitor has been exited: the balance is kept exactly when it had been entered. */
  lemma Exited(s: State, l: nat, r: Resource, sub: nat, stacks: seq<seq<Frame>>, m: Monitors, global: Resource, n: State)
    requires Good(s, stacks, m, global, 0, global, false) && IsLockOf(s, l, r) && Holds(s, l, sub) && Safe(n)
    requires Regrants(s, l, Left(s.locks[l].owners, sub), n) && |stacks| == |s.total|
    ensures s.locks[l].requests != [] ==> s.locks[l].requests[0].sub < |s.home| && s.home[s.locks[l].requests[0].sub] < |stacks|
    ensures var owners := Left(s.locks[l].owners, sub);
            Good(n, AfterRegrant(s, l, owners, stacks), MonitorsAfter(s, l, owners, stacks, EntryLess(m, sub, r), r), global, 0, global, false)
            <==> Entries(m, sub, r) > 0
  {
    hide Good, Left, Regranted, Safe, DepthOf, AfterRegrant, MonitorsAfter, Entries;
    if Entries(m, sub, r) > 0 {
      ExitOver(s, stacks, m, global, sub, r);
      Released(s, l, r, sub, stacks, Changed(m, sub, r, Entries(m, sub, r) - 1), global, n);
    } else {
      FrameLoses(s, l, r, sub, stacks, m, global, n);
    }
  }

  /** Without an entry of its own, the level that is lost is one that a frame still counts on. */
  lemma FrameLoses(s: State, l: nat, r: Resource, sub: nat, stacks: seq<seq<Frame>>, m: Monitors, global: Resource, n: State)
    requires Good(s, stacks, m, global, 0, global, false) && IsLockOf(s, l, r) && Holds(s, l, sub) && Safe(n)
    requires Regrants(s, l, Left(s.locks[l].owners, sub), n) && |stacks| == |s.total|
    ensures s.locks[l].requests != [] ==> s.locks[l].requests[0].sub < |s.home| && s.home[s.locks[l].requests[0].sub] < |stacks|
    ensures var owners := Left(s.locks[l].owners, sub);
            !Good(n, AfterRegrant(s, l, owners, stacks), MonitorsAfter(s, l, owners, stacks, m, r), global, 0, global, false)
  {
    hide Safe, Left, Regranted, DepthOf, AfterRegrant, MonitorsAfter, Entries, HeldAll, FramesOk, RequestsOk, WaitingOk;
    var owners := Left(s.locks[l].owners, sub);
    LeftDepths(s, l, r, sub, sub, r);
    GrantedBalance(s, l, r, owners, stacks, m, global, sub, r);
  }

  /** The frame when the interpreter goes on with it: what it needed is held. */
  ghost predicate Synchronized(was: Frame, now: Frame) {
    && now.sub == was.sub && now.resource == was.resource
    && now.global == (if was.global.need then Sync(false, false, true) else was.global)
    && now.own == if was.own.need then Sync(false, false, true) else was.own
  }

  lemma OverGood(s: State, stacks: seq<seq<Frame>>, m: Monitors, global: Resource, sub: nat, r: Resource)
    requires Good(s, stacks, m, global, sub, r, true)
    ensures Safe(s) && |stacks| == |s.total| == |s.held| && |s.home| == |s.pending|
  {
  }

  lemma ExitOver(s: State, stacks: seq<seq<Frame>>, m: Monitors, global: Resource, sub: nat, r: Resource)
    requires Good(s, stacks, m, global, 0, global, false) && Entries(m, sub, r) > 0
    ensures Good(s, stacks, Changed(m, sub, r, Entries(m, sub, r) - 1), global, sub, r, true)
  {
    hide Safe, Balanced, FramesOk, RequestsOk;
    AnyExtra(s, stacks, m, global, 0, global, sub, r);
    CountsOver(s.locks, stacks, m, global, sub, r);
  }

  /** A thread that runs is not the one that is granted a lock. */
  lemma OthersGranted(s: State, l: nat, owners: seq<Owner>, stacks: seq<seq<Frame>>, n: State, t: nat)
    requires Safe(s) && Regrants(s, l, owners, n) && t < |s.total| && s.total[t] == 0 && |stacks| == |s.total|
    ensures s.locks[l].requests != [] ==> s.locks[l].requests[0].sub < |s.home| && s.home[s.locks[l].requests[0].sub] < |stacks|
    ensures AfterRegrant(s, l, owners, stacks)[t] == stacks[t] && |n.total| == |s.total| && n.total[t] == 0
  {
    hide Safe;
    if s.locks[l].requests != [] { NoRequest(s, t, l, 0); }
  }

  lemma GoodIs(s: State, stacks: seq<seq<Frame>>, m: Monitors, global: Resource)
    requires Good(s, stacks, m, global, 0, global, false)
    ensures Safe(s) && |s.total| == |stacks| == |s.held| && |s.home| == |s.pending|
    ensures forall t :: 0 <= t < |stacks| && stacks[t] != [] ==> FrameOk(s.home, t, Top(stacks[t]), true)
  {
    forall t | 0 <= t < |stacks| && stacks[t] != [] ensures FrameOk(s.home, t, Top(stacks[t]), true) {
      assert FrameOk(s.home, t, stacks[t][|stacks[t]| - 1], true);
    }
  }

  /** `LockEffect`, for any state that may come of it. */
  lemma Outcomes(was: State, now: State, r: Resource, q: Request, lockMemory: bool, ownerMemory: bool, requestMemory: bool, hr: Outcome)
    requires Safe(was) && q.sub < |was.home| == |was.pending| && was.home[q.sub] < |was.held| == |was.total|
    requires Safe(now) <==> Locked(was, r) || !lockMemory || ownerMemory
    requires forall l: nat :: IsLockOf(was, l, r) ==> Incremented(was, l, q.sub, q, ownerMemory, requestMemory, hr, now)
    requires !Locked(was, r) ==>
               if !lockMemory then hr == OutOfMemory && now == was
               else if !ownerMemory then hr == OutOfMemory && now == Born(was, was.home[q.sub], r)
               else hr == Ok && now == Owned(Born(was, was.home[q.sub], r), |was.locks|, [Owner(q.sub, 1)])
    ensures Safe(now) ==> LockAsked(was, now, r, q, hr)
    ensures hr == Ok || hr == ThreadWaiting || hr == OutOfMemory
    ensures hr != OutOfMemory ==> Safe(now)
    ensures hr == Ok ==> now.total == was.total
  {
    hide Safe, Asked, Deepened, DepthOf, Entered, Depth;
    if Safe(now) { LockEffect(was, now, r, q, lockMemory, ownerMemory, requestMemory, hr); }
    if Locked(was, r) {
      var l: nat :| IsLockOf(was, l, r);
      assert Incremented(was, l, q.sub, q, ownerMemory, requestMemory, hr, now);
    }
  }
}
