/** The lock operations of the execution engine. */
module LockManager {
  import opened Wrappers
  import opened Locks
  import opened Frames

  /** The lock, its queue and the thread that is next are there. */
  predicate Transferable(s: State, l: nat) {
    && l < |s.locks| && s.locks[l].thread < |s.held| && |s.home| == |s.pending|
    && (s.locks[l].requests != [] ==>
          var sub := s.locks[l].requests[0].sub; sub < |s.home| && s.home[sub] < |s.total| == |s.held|)
  }

  /** The first request in the queue gets the lock; if there is none, the lock is gone. */
  function NextOwner(s: State, l: nat): State
    requires Transferable(s, l)
  {
    if s.locks[l].requests == [] then Buried(s, l)
    else
      var sub := s.locks[l].requests[0].sub;
      Passed(Dropped(s, l, 0), l, s.home[sub], [Owner(sub, 1)])
  }

  lemma NextOwnerOk(s: State, l: nat)
    requires Consistent(s) && OwnedBut(s.locks, l) && l < |s.locks| && s.locks[l].live
    ensures Transferable(s, l) && Safe(NextOwner(s, l))
  {
    hide PointersOk, OneEach, Tally;
    if s.locks[l].requests == [] {
      BuriedOk(s, l);
    } else {
      DroppedOk(s, l, 0);
      var sub := s.locks[l].requests[0].sub;
      PassedOk(Dropped(s, l, 0), l, s.home[sub], [Owner(sub, 1)]);
    }
  }

  /** The owners of a lock change; without any the lock is handed over. */
  function Regranted(s: State, l: nat, owners: seq<Owner>): State
    requires Transferable(s, l)
  {
    if owners == [] then NextOwner(Owned(s, l, []), l) else Owned(s, l, owners)
  }

  lemma RegrantedOk(s: State, l: nat, owners: seq<Owner>)
    requires Safe(s) && l < |s.locks| && s.locks[l].live && OwnersOk(s.home, s.locks[l].thread, owners)
    ensures Transferable(s, l) && Safe(Regranted(s, l, owners))
  {
    OwnedOk(s, l, owners);
    OwnedOk(s, l, []);
    NextOwnerOk(Owned(s, l, []), l);
    hide Consistent, NextOwner;
  }

  class LockEngine {
    const home: seq<nat> // the thread of each sub-thread
    var locks: seq<Lock>
    var held: seq<seq<nat>>
    var pending: seq<nat>
    var total: seq<nat>
    var lockOf: map<nat, nat>
    var waiting: seq<bool>
    var stacks: seq<seq<Frame>> // the frames of each thread

    ghost function Now(): State
      reads this
    {
      State(home, locks, held, pending, total, lockOf)
    }

    /** A thread waits while it has requests queued. */
    ghost predicate Waits()
      reads this
    {
      |waiting| == |total| == |stacks| && forall t :: 0 <= t < |total| ==> (waiting[t] <==> total[t] > 0)
    }

    constructor (home: seq<nat>, threads: nat)
      requires forall s :: 0 <= s < |home| ==> home[s] < threads
      ensures this.home == home && Safe(Now()) && Waits() && stacks == seq(threads, _ => [])
      ensures Now() == State(home, [], seq(threads, _ => []), seq(|home|, _ => 0), seq(threads, _ => 0), map[])
    {
      this.home := home;
      locks, lockOf := [], map[];
      held := seq(threads, _ => []);
      pending := seq(|home|, _ => 0);
      total := seq(threads, _ => 0);
      waiting := seq(threads, _ => false);
      stacks := seq(threads, _ => []);
    }

    /** The live lock of a resource: an object's pointer says it, for anything else all locks are searched. */
    method FindLockObject(resource: Resource) returns (lock: Option<nat>)
      requires Consistent(Now())
      ensures lock.Some? ==> lock.value < |locks| && locks[lock.value].live && locks[lock.value].resource == resource
      ensures lock.None? ==> forall l :: 0 <= l < |locks| && locks[l].live ==> locks[l].resource != resource
    {
      hide CountsOk, LockOk, OneEach;
      if resource.Object? {
        return if resource.id in lockOf then Some(lockOf[resource.id]) else None;
      }
      var t := 0;
      while t < |held|
        invariant t <= |held|
        invariant forall u, i :: 0 <= u < t && 0 <= i < |held[u]| ==> locks[held[u][i]].resource != resource
      {
        var i := 0;
        while i < |held[t]|
          invariant i <= |held[t]|
          invariant forall j :: 0 <= j < i ==> locks[held[t][j]].resource != resource
        {
          if locks[held[t][i]].resource == resource { return Some(held[t][i]); }
          i := i + 1;
        }
        t := t + 1;
      }
      forall l: nat | l < |locks| && locks[l].live ensures locks[l].resource != resource {
        assert l in held[locks[l].thread];
      }
      lock := None;
    }

    /** The request of a sub-thread counts for its thread too, which waits until it has none left. */
    method ChangeLockRequestCount(sub: nat, up: bool) returns (restarted: bool)
      requires sub < |home| == |pending| && home[sub] < |total| == |waiting| && (up || (pending[sub] > 0 && total[home[sub]] > 0))
      modifies this`pending, this`total, this`waiting
      ensures var t, d: int := home[sub], if up then 1 else -1;
              && pending == old(pending)[sub := old(pending)[sub] + d] && total == old(total)[t := old(total)[t] + d]
              && waiting == old(waiting)[t := total[t] > 0] && restarted == (total[t] == 0)
    {
      var d: int := if up then 1 else -1;
      pending := pending[sub := pending[sub] + d];
      total := total[home[sub] := total[home[sub]] + d];
      restarted := total[home[sub]] == 0;
      waiting := waiting[home[sub] := !restarted];
    }

    method CreateRequest(l: nat, sub: nat, expire: int, force: bool, memory: bool) returns (hr: Outcome)
      requires Safe(Now()) && Waits() && l < |locks| && locks[l].live && sub < |home|
      modifies this`locks, this`pending, this`total, this`waiting
      ensures |home| == old(|pending|) && home[sub] < old(|total|) && Safe(Now()) && Waits()
      ensures hr == if memory then ThreadWaiting else OutOfMemory
      ensures Now() == if memory then Queued(old(Now()), l, Request(sub, expire, force)) else old(Now())
    {
      hide Consistent, CountsOk, OwnedBut;
      var req := Request(sub, expire, force);
      QueuedOk(Now(), l, req);
      if !memory { return OutOfMemory; }
      locks := locks[l := locks[l].(requests := locks[l].requests + [req])];
      var _ := ChangeLockRequestCount(sub, true);
      hr := ThreadWaiting;
    }

    /** The thread that owns the lock goes one level deeper; any other is put in the queue. */
    method IncrementOwnership(l: nat, sub: nat, expire: int, force: bool, ownerMemory: bool, requestMemory: bool) returns (hr: Outcome)
      requires Consistent(Now()) && OwnedBut(locks, l) && Waits() && l < |locks| && locks[l].live && sub < |home|
      requires home[sub] != locks[l].thread ==> locks[l].owners != []
      modifies this`locks, this`pending, this`total, this`waiting
      ensures |home| == old(|pending|) && home[sub] < old(|total|) && Consistent(Now()) && Waits()
      ensures var was := old(Now()); var lock := was.locks[l];
              if lock.thread == home[sub] then
                if Depth(lock.owners, sub) > 0 || ownerMemory then hr == Ok && Now() == Owned(was, l, Entered(lock.owners, sub)) && Safe(Now())
                else hr == OutOfMemory && Now() == was
              else
                && Safe(Now())
                && hr == (if requestMemory then ThreadWaiting else OutOfMemory)
                && Now() == if requestMemory then Queued(was, l, Request(sub, expire, force)) else was
    {
      hide CountsOk, HeldOk, PointersOk, OneEach;
      Deeper(Now(), l, sub);
      if locks[l].thread == home[sub] {
        var owners, i := locks[l].owners, 0;
        while i < |owners|
          invariant i <= |owners| && forall j :: 0 <= j < i ==> owners[j].sub != sub
        {
          if owners[i].sub == sub {
            IndexIs(owners, sub, i);
            locks := locks[l := locks[l].(owners := owners[i := owners[i].(recursion := owners[i].recursion + 1)])];
            return Ok;
          }
          i := i + 1;
        }
        IndexIs(owners, sub, i);
        if !ownerMemory { return OutOfMemory; }
        locks := locks[l := locks[l].(owners := [Owner(sub, 1)] + owners)];
        return Ok;
      }
      hr := CreateRequest(l, sub, expire, force, requestMemory);
    }

    /** The first request in the queue is granted.  Its owner node is one that the cache of event blocks has just got
        back from the last owner, so it does not have to be allocated. */
    method HandOver(l: nat)
      requires Transferable(Now(), l) && locks[l].requests != [] && Waits()
      requires var sub := locks[l].requests[0].sub; pending[sub] > 0 && total[home[sub]] > 0
      modifies this`locks, this`held, this`pending, this`total, this`waiting, this`stacks
      ensures Now() == NextOwner(old(Now()), l) && Waits() && |old(stacks)| == |old(total)| == |stacks|
      ensures stacks == AfterRegrant(old(Now()), l, [], old(stacks))
    {
      hide Unlinked;
      var t, req := locks[l].thread, locks[l].requests[0];
      assert locks[l].requests[..0] + locks[l].requests[1..] == locks[l].requests[1..];
      locks := locks[l := locks[l].(requests := locks[l].requests[1..])];
      var _ := ChangeLockRequestCount(req.sub, false);
      var th := home[req.sub];
      held := held[t := Unlinked(held[t], l)];
      held := held[th := held[th] + [l]];
      locks := locks[l := locks[l].(thread := th)];
      locks := locks[l := locks[l].(owners := [Owner(req.sub, 1)])];
      if stacks[th] != [] {
        var front, stack := stacks[th][..|stacks[th]| - 1], stacks[th][|stacks[th]| - 1];
        if stack.global.pending { stack := stack.(global := stack.global.(pending := false, held := true)); }
        if stack.own.pending { stack := stack.(own := stack.own.(pending := false, held := true)); }
        stacks := stacks[th := front + [stack]];
      }
    }

    /** The lock has no owner any more. */
    method ChangeOwner(l: nat)
      requires Consistent(Now()) && OwnedBut(locks, l) && Waits() && l < |locks| && locks[l].live && locks[l].owners == []
      modifies this`locks, this`held, this`pending, this`total, this`waiting, this`lockOf, this`stacks
      ensures Safe(Now()) && Waits() && Transferable(old(Now()), l) && Now() == NextOwner(old(Now()), l)
      ensures |old(stacks)| == |old(total)| == |stacks| && stacks == AfterRegrant(old(Now()), l, [], old(stacks))
    {
      NextOwnerOk(Now(), l);
      hide Consistent, CountsOk, LockOk, HeldOk, PointersOk, OneEach, OwnedBut, Safe, Tally;
      if locks[l].requests != [] {
        DroppedOk(Now(), l, 0);
        HandOver(l);
      } else {
        var t := locks[l].thread;
        if locks[l].resource.Object? { lockOf := lockOf - {locks[l].resource.id}; }
        held := held[t := Unlinked(held[t], l)];
        locks := locks[l := locks[l].(live := false)];
      }
    }

    /** One level less; with the last one the sub-thread is no owner any more. */
    method DecrementOwnership(lock: Option<nat>, sub: nat) returns (hr: Outcome)
      requires Safe(Now()) && Waits() && sub < |home| && (lock.Some? ==> lock.value < |locks| && locks[lock.value].live)
      modifies this`locks, this`held, this`pending, this`total, this`waiting, this`lockOf, this`stacks
      ensures Safe(Now()) && Waits() && |old(stacks)| == |old(total)|
      ensures hr == Ok <==> lock.Some? && old(locks)[lock.value].thread == home[sub] && Depth(old(locks)[lock.value].owners, sub) > 0
      ensures hr != Ok ==> hr == SynchronizationException && Now() == old(Now()) && stacks == old(stacks)
      ensures hr == Ok ==> Regrants(old(Now()), lock.value, Left(old(locks)[lock.value].owners, sub), Now())
      ensures hr == Ok ==> stacks == AfterRegrant(old(Now()), lock.value, Left(old(locks)[lock.value].owners, sub), old(stacks))
    {
      hide CountsOk, HeldOk, PointersOk, OneEach, OwnedBut, Tally, Left, Depth, OwnersOk;
      if lock.Some? && locks[lock.value].thread == home[sub] {
        var l := lock.value;
        ghost var was := Now();
        var owners, i := locks[l].owners, 0;
        Shallower(was, l, sub);
        while i < |owners|
          invariant i <= |owners| && Now() == was && stacks == old(stacks) && Waits() && forall j :: 0 <= j < i ==> owners[j].sub != sub
        {
          if owners[i].sub == sub {
            IndexIs(owners, sub, i);
            var rest := Decremented(owners, i, sub);
            locks := locks[l := locks[l].(owners := rest)];
            if rest == [] { ChangeOwner(l); }
            return Ok;
          }
          i := i + 1;
        }
        IndexIs(owners, sub, i);
      }
      hr := SynchronizationException;
    }

    /** The sub-thread is no owner any more, however deep it was. */
    method DestroyOwner(l: nat, sub: nat)
      requires Safe(Now()) && Waits() && l < |locks| && locks[l].live
      modifies this`locks, this`held, this`pending, this`total, this`waiting, this`lockOf, this`stacks
      ensures Safe(Now()) && Waits() && Regrants(old(Now()), l, Without(old(locks)[l].owners, sub), Now()) && |old(stacks)| == |old(total)|
      ensures stacks == AfterRegrant(old(Now()), l, Without(old(locks)[l].owners, sub), old(stacks))
    {
      hide CountsOk, HeldOk, PointersOk, OneEach, OwnedBut, Tally, OwnersOk;
      ghost var was := Now();
      RemovedAll(was, l, sub);
      var owners, rest, i := locks[l].owners, [], 0;
      while i < |owners|
        invariant i <= |owners| && Now() == was && stacks == old(stacks) && Waits() && rest + Without(owners[i..], sub) == Without(owners, sub)
      {
        if owners[i].sub != sub { rest := rest + [owners[i]]; }
        i := i + 1;
      }
      assert owners[i..] == [] && rest + [] == rest;
      locks := locks[l := locks[l].(owners := rest)];
      if rest == [] { ChangeOwner(l); }
    }

    /** A request is taken out of its queue. */
    method Withdraw(l: nat, k: nat) returns (restarted: bool)
      requires Safe(Now()) && Waits() && l < |locks| && k < |locks[l].requests|
      modifies this`locks, this`pending, this`total, this`waiting
      ensures |home| == old(|pending|) && old(locks[l].requests[k].sub) < |home| && home[old(locks[l].requests[k].sub)] < old(|total|)
      ensures Safe(Now()) && Waits() && Now() == Dropped(old(Now()), l, k)
      ensures |home| == |pending| && restarted == (total[home[old(locks[l].requests[k].sub)]] == 0)
    {
      DroppedOk(Now(), l, k);
      hide Consistent, CountsOk, OwnedBut, LockOk, HeldOk, PointersOk, OneEach;
      var q := locks[l].requests;
      restarted := ChangeLockRequestCount(q[k].sub, false);
      locks := locks[l := locks[l].(requests := q[..k] + q[k + 1..])];
    }

    /** Requests of one lock whose time is up are given up. */
    method CheckLock(l: nat, now: int, ghost was: State, ghost over: set<nat>)
      requires Safe(Now()) && Waits() && l < |locks| && Withdrawn(was, Now(), Expired(now), over)
      modifies this`locks, this`pending, this`total, this`waiting
      ensures Safe(Now()) && Waits() && Withdrawn(was, Now(), Expired(now), over + {l})
      ensures OnlyThese(old(locks), locks, {l})
    {
      hide Safe, Withdrawn, Consistent;
      var k := 0;
      while k < |locks[l].requests|
        invariant Safe(Now()) && Waits() && l < |locks| && k <= |locks[l].requests| && Withdrawn(was, Now(), Expired(now), over)
        invariant |locks| == |old(locks)| && forall i :: 0 <= i < |locks| && i != l ==> locks[i] == old(locks)[i]
        invariant forall i :: 0 <= i < k ==> !Hit(Expired(now), locks[l].requests[i])
        decreases |locks[l].requests| - k
      {
        if locks[l].requests[k].expire <= now {
          SafeIs(Now());
          NotYet(was, Now(), Expired(now), over, l, k);
          WithdrawnOne(was, Now(), Expired(now), over, l, k);
          var _ := Withdraw(l, k);
        } else {
          k := k + 1;
        }
      }
      WithdrawnAll(was, Now(), Expired(now), over, l);
    }

    /** Requests for the locks of one thread whose time is up are given up; all others stay as they are queued. */
    method CheckLockRequests(thread: nat, now: int)
      requires Safe(Now()) && Waits() && thread < |held|
      modifies this`locks, this`pending, this`total, this`waiting
      ensures Safe(Now()) && Waits() && Withdrawn(old(Now()), Now(), Expired(now), set l | l in old(held)[thread])
      ensures held == old(held) && TimedOut(old(locks), locks, held[thread], now)
    {
      ghost var was := Now();
      SafeIs(was);
      WithdrawnNone(was, Expired(now));
      hide Safe, Withdrawn, Consistent, CountsOk, OwnedBut, OnlyThese, TimedOut, Waits;
      ghost var over := {};
      var i := 0;
      while i < |held[thread]|
        invariant Safe(Now()) && Waits() && held == was.held && |locks| == |was.locks| && i <= |held[thread]|
        invariant Withdrawn(was, Now(), Expired(now), over) && over == set l | l in held[thread][..i]
        invariant OnlyThese(was.locks, locks, over)
      {
        ghost var before := locks;
        CheckLock(held[thread][i], now, was, over);
        OneMore(was.locks, before, locks, over, held[thread][i]);
        SameHeld(was, Now(), Expired(now), over + {held[thread][i]});
        over := over + {held[thread][i]};
        i := i + 1;
      }
      assert held[thread][..i] == held[thread];
      AllTimedOut(was, Now(), held[thread], now, over);
    }

    /** Requests of the target for one lock are deleted, until the thread of one has none left. */
    method DeleteFrom(l: nat, target: Target, ghost was: State, ghost over: set<nat>) returns (done: bool)
      requires Safe(Now()) && Waits() && l < |locks| && TargetOk(Now(), target)
      requires Withdrawn(was, Now(), From(Subs(home, target)), over)
      modifies this`locks, this`pending, this`total, this`waiting
      ensures Safe(Now()) && Waits() && TargetOk(Now(), target)
      ensures Withdrawn(was, Now(), From(Subs(home, target)), over + {l})
      ensures done ==> NoneLeft(Now(), Subs(home, target))
    {
      hide Safe, Withdrawn, Consistent, NoneLeft;
      ghost var w := From(Subs(home, target));
      var k := 0;
      while k < |locks[l].requests|
        invariant Safe(Now()) && Waits() && l < |locks| && k <= |locks[l].requests| && TargetOk(Now(), target)
        invariant Withdrawn(was, Now(), w, over)
        invariant forall i :: 0 <= i < k ==> !Hit(w, locks[l].requests[i])
        decreases |locks[l].requests| - k
      {
        SafeIs(Now());
        var sub := locks[l].requests[k].sub;
        RequestKnown(Now(), l, k);
        if (target.OfSub? && sub == target.sub) || (target.OfThread? && home[sub] == target.thread) {
          NotYet(was, Now(), w, over, l, k);
          WithdrawnOne(was, Now(), w, over, l, k);
          var restarted := Withdraw(l, k);
          if restarted {
            SafeIs(Now());
            NoMore(Now(), target, sub);
            assert forall i :: 0 <= i < |locks[l].requests| ==> !Hit(w, locks[l].requests[i]) by { NoneOf(Now(), Subs(home, target), l); }
            WithdrawnAll(was, Now(), w, over, l);
            return true;
          }
        } else {
          k := k + 1;
        }
      }
      WithdrawnAll(was, Now(), w, over, l);
      done := false;
    }

    /** All requests of a thread or of a sub-thread are deleted, though the search ends early. */
    method DeleteLockRequests(target: Target)
      requires Safe(Now()) && Waits() && TargetOk(Now(), target)
      modifies this`locks, this`pending, this`total, this`waiting
      ensures Safe(Now()) && Waits() && NoneLeft(Now(), Subs(home, target))
      ensures WithdrawnAny(old(Now()), Now(), From(Subs(home, target)))
      ensures held == old(held) && lockOf == old(lockOf) && |locks| == |old(locks)|
      ensures forall l :: 0 <= l < |locks| ==>
                && locks[l] == old(locks)[l].(requests := locks[l].requests)
                && forall r :: multiset(locks[l].requests)[r] == if r.sub in Subs(home, target) then 0 else multiset(old(locks)[l].requests)[r]
    {
      hide Safe, Withdrawn, WithdrawnAny, Consistent, NoneLeft, CountsOk, OwnedBut, Subs, HeldOk, LockOk, PointersOk, OneEach, Waits;
      ghost var was, w := Now(), From(Subs(home, target));
      WithdrawnNone(was, w);
      if (if target.OfThread? then total[target.thread] else pending[target.sub]) == 0 {
        NoneAtAll(was, target);
        WithdrawnEnd(was, was, w, {});
        AnyExactly(was, was, w);
        return;
      }
      ghost var over := {};
      var t := 0;
      while t < |held|
        invariant Safe(Now()) && Waits() && held == was.held && |locks| == |was.locks| && t <= |held| && TargetOk(Now(), target)
        invariant Withdrawn(was, Now(), w, over) && forall u, i :: 0 <= u < t && 0 <= i < |held[u]| ==> held[u][i] in over
      {
        var done;
        done, over := DeleteFor(t, target, was, over);
        if done {
          WithdrawnEnd(was, Now(), w, over);
          AnyExactly(was, Now(), w);
          return;
        }
        t := t + 1;
      }
      AllHeld(was, Now(), w, over);
      WithdrawnEnd(was, Now(), w, over);
      AnyExactly(was, Now(), w);
    }

    /** Requests of the target for the locks of one thread are deleted. */
    method DeleteFor(t: nat, target: Target, ghost was: State, ghost over: set<nat>) returns (done: bool, ghost more: set<nat>)
      requires Safe(Now()) && Waits() && t < |held| && held == was.held && |locks| == |was.locks| && TargetOk(Now(), target)
      requires Withdrawn(was, Now(), From(Subs(home, target)), over)
      modifies this`locks, this`pending, this`total, this`waiting
      ensures Safe(Now()) && Waits() && |locks| == |was.locks| && TargetOk(Now(), target)
      ensures Withdrawn(was, Now(), From(Subs(home, target)), more) && over <= more
      ensures if done then NoneLeft(Now(), Subs(home, target)) else forall i :: 0 <= i < |held[t]| ==> held[t][i] in more
    {
      hide Safe, Withdrawn, Consistent, NoneLeft, Subs;
      SafeIs(Now());
      more := over;
      var i := 0;
      while i < |held[t]|
        invariant Safe(Now()) && Waits() && |locks| == |was.locks| && i <= |held[t]| && TargetOk(Now(), target)
        invariant Withdrawn(was, Now(), From(Subs(home, target)), more) && over <= more
        invariant forall j :: 0 <= j < i ==> held[t][j] in more
      {
        SafeIs(Now());
        done := DeleteFrom(held[t][i], target, was, more);
        SameHeld(was, Now(), From(Subs(home, target)), more + {held[t][i]});
        more := more + {held[t][i]};
        if done { return; }
        i := i + 1;
      }
      done := false;
    }

    /** A lock that nobody owns yet, in the list of the thread that asks for it. */
    method CreateInstance(thread: nat, resource: Resource, memory: bool) returns (lock: Option<nat>)
      requires Safe(Now()) && Waits() && thread < |held| && forall l :: 0 <= l < |locks| && locks[l].live ==> locks[l].resource != resource
      modifies this`locks, this`held, this`lockOf
      ensures Waits() && lock == if memory then Some(old(|locks|)) else None
      ensures Now() == if memory then Born(old(Now()), thread, resource) else old(Now())
      ensures memory ==> Consistent(Now()) && OwnedBut(locks, old(|locks|))
    {
      hide Consistent, OwnedBut;
      if !memory { return None; }
      BornOk(Now(), thread, resource);
      var l := |locks|;
      locks := locks + [Lock(true, thread, resource, [], [])];
      if resource.Object? { lockOf := lockOf[resource.id := l]; }
      held := held[thread := held[thread] + [l]];
      lock := Some(l);
    }

    /** The sub-thread gets the lock of the resource, goes one level deeper, or waits in the queue.  One thing can go
        wrong for good: a new lock whose first owner finds no memory stays behind without an owner. */
    method LockObject(resource: Resource, sub: nat, expire: int, force: bool, lockMemory: bool, ownerMemory: bool, requestMemory: bool)
        returns (hr: Outcome)
      requires Safe(Now()) && Waits() && sub < |home|
      modifies this`locks, this`held, this`pending, this`total, this`waiting, this`lockOf
      ensures Waits() && |home| == old(|pending|) && home[sub] < old(|held|) == old(|total|)
      ensures Safe(Now()) <==> Locked(old(Now()), resource) || !lockMemory || ownerMemory
      ensures forall l: nat :: IsLockOf(old(Now()), l, resource) ==>
                Incremented(old(Now()), l, sub, Request(sub, expire, force), ownerMemory, requestMemory, hr, Now())
                && Requested(old(Now()), l, sub, expire, force, ownerMemory, requestMemory, hr, Now())
      ensures !Locked(old(Now()), resource) ==>
                var born := Born(old(Now()), home[sub], resource);
                if !lockMemory then hr == OutOfMemory && Now() == old(Now())
                else if !ownerMemory then hr == OutOfMemory && Now() == born
                else hr == Ok && Now() == Owned(born, old(|locks|), [Owner(sub, 1)])
      ensures !Locked(old(Now()), resource) && lockMemory && ownerMemory ==>
                && locks == old(locks) + [Lock(true, home[sub], resource, [Owner(sub, 1)], [])]
                && held == old(held)[home[sub] := old(held)[home[sub]] + [|old(locks)|]] && pending == old(pending) && total == old(total)
                && lockOf == if resource.Object? then old(lockOf)[resource.id := |old(locks)|] else old(lockOf)
    {
      hide Consistent, CountsOk, OwnedBut, HeldOk, LockOk, PointersOk, OneEach, Entered, Depth, Requested;
      SafeIs(Now());
      KnownSub(Now(), sub);
      ghost var was := Now();
      var lock := FindLockObject(resource);
      if lock == None {
        assert !Locked(was, resource);
        lock := CreateInstance(home[sub], resource, lockMemory);
        if lock == None { return OutOfMemory; }
        FirstEntered(sub);
        Unowned(Now(), lock.value);
      } else {
        OnlyLock(was, resource, lock.value);
        StillSafe(was, lock.value);
      }
      hr := IncrementOwnership(lock.value, sub, expire, force, ownerMemory, requestMemory);
      if lock.value < |was.locks| {
        AskedFor(was, lock.value, sub, expire, force, ownerMemory, requestMemory, hr, Now());
      }
    }

    /** One level less for the sub-thread; with the last one the lock goes to the first in the queue. */
    method UnlockObject(resource: Resource, sub: nat) returns (hr: Outcome)
      requires Safe(Now()) && Waits() && sub < |home|
      modifies this`locks, this`held, this`pending, this`total, this`waiting, this`lockOf, this`stacks
      ensures Safe(Now()) && Waits() && |old(stacks)| == |old(total)|
      ensures hr == Ok <==> exists l: nat :: IsLockOf(old(Now()), l, resource) && Holds(old(Now()), l, sub)
      ensures hr != Ok ==> hr == SynchronizationException && Now() == old(Now()) && stacks == old(stacks)
      ensures forall l: nat :: IsLockOf(old(Now()), l, resource) && hr == Ok ==>
                Regrants(old(Now()), l, Left(old(locks)[l].owners, sub), Now()) && Yielded(old(Now()), l, sub, Now())
                && stacks == AfterRegrant(old(Now()), l, Left(old(locks)[l].owners, sub), old(stacks))
    {
      hide Consistent, CountsOk, OwnedBut, HeldOk, LockOk, PointersOk, OneEach, Left, Depth, Regrants, Yielded;
      SafeIs(Now());
      ghost var was := Now();
      var lock := FindLockObject(resource);
      if lock.Some? { OnlyLock(was, resource, lock.value); }
      hr := DecrementOwnership(lock, sub);
      if hr == Ok { GivenUp(was, lock.value, sub, Now()); }
    }
  }

  ghost predicate IsLockOf(s: State, l: nat, resource: Resource) {
    l < |s.locks| && s.locks[l].live && s.locks[l].resource == resource
  }

  ghost predicate Locked(s: State, resource: Resource) {
    exists l: nat :: IsLockOf(s, l, resource)
  }

  /** The sub-thread is an owner, and with it its thread. */
  ghost predicate Holds(s: State, l: nat, sub: nat) {
    l < |s.locks| && sub < |s.home| && s.locks[l].thread == s.home[sub] && Depth(s.locks[l].owners, sub) > 0
  }

  /** What asking for a live lock does. */
  ghost predicate Incremented(was: State, l: nat, sub: nat, r: Request, ownerMemory: bool, requestMemory: bool, hr: Outcome, now: State)
    requires l < |was.locks| && r.sub == sub < |was.home| == |was.pending| && was.home[sub] < |was.total|
  {
    var lock := was.locks[l];
    if lock.thread == was.home[sub] then
      if Depth(lock.owners, sub) > 0 || ownerMemory then hr == Ok && now == Owned(was, l, Entered(lock.owners, sub))
      else hr == OutOfMemory && now == was
    else if requestMemory then hr == ThreadWaiting && now == Queued(was, l, r)
    else hr == OutOfMemory && now == was
  }

  /** Nothing has happened but to lock `l`, whose resource is the same. */
  ghost predicate OnlyThis(was: State, l: nat, now: State) {
    && l < |was.locks| == |now.locks| && now.home == was.home && now.locks[l].resource == was.locks[l].resource
    && forall k :: 0 <= k < |was.locks| && k != l ==> now.locks[k] == was.locks[k]
  }

  /** The lock stays where it is with the same queue, and sub-thread `sub` has `d` levels more. */
  ghost predicate LevelsMore(was: State, l: nat, sub: nat, d: int, now: State) {
    && OnlyThis(was, l, now) && now.locks[l].live && now.locks[l].thread == was.locks[l].thread && now.locks[l].requests == was.locks[l].requests
    && (forall x: nat :: Depth(now.locks[l].owners, x) == Depth(was.locks[l].owners, x) + if x == sub then d else 0)
    && now.held == was.held && now.pending == was.pending && now.total == was.total && now.lockOf == was.lockOf
  }

  /** What asking for a live lock does, field by field.  A sub-thread of the thread that has it goes one level deeper, unless
      it needs memory for that and there is none; any other is last in the queue, or there is no memory for that. */
  ghost predicate Requested(was: State, l: nat, sub: nat, expire: int, force: bool, ownerMemory: bool, requestMemory: bool, hr: Outcome, now: State) {
    && l < |was.locks| && sub < |was.home| == |was.pending| && was.home[sub] < |was.total|
    && if was.locks[l].thread == was.home[sub] then
         if (exists o :: o in was.locks[l].owners && o.sub == sub) || ownerMemory then hr == Ok && LevelsMore(was, l, sub, 1, now)
         else hr == OutOfMemory && now == was
       else if !requestMemory then hr == OutOfMemory && now == was
       else
         && hr == ThreadWaiting && OnlyThis(was, l, now)
         && now.locks[l] == was.locks[l].(requests := was.locks[l].requests + [Request(sub, expire, force)])
         && now.held == was.held && now.lockOf == was.lockOf
         && now.pending == was.pending[sub := was.pending[sub] + 1]
         && now.total == was.total[was.home[sub] := was.total[was.home[sub]] + 1]
  }

  /** What giving up a level does, field by field.  While the sub-thread has more levels, or another of its thread has some,
      the lock stays.  With the last one it goes to the first in the queue, who has one level and is counted no more, and
      whose thread has the lock last in its list; or, if there is none, it is gone. */
  ghost predicate Yielded(was: State, l: nat, sub: nat, now: State) {
    && OnlyThis(was, l, now) && |now.held| == |was.held| && was.locks[l].thread < |was.held|
    && var lock, next := was.locks[l], now.locks[l];
    if Depth(lock.owners, sub) > 1 || exists o :: o in lock.owners && o.sub != sub then
      LevelsMore(was, l, sub, -1, now)
    else if lock.requests == [] then
      && !next.live && next.owners == [] && next.requests == []
      && (forall k :: k in now.held[lock.thread] <==> k in was.held[lock.thread] && k != l)
      && (forall t :: 0 <= t < |was.held| && t != lock.thread ==> now.held[t] == was.held[t])
      && now.pending == was.pending && now.total == was.total
      && now.lockOf == if lock.resource.Object? then was.lockOf - {lock.resource.id} else was.lockOf
    else
      var first := lock.requests[0];
      && first.sub < |was.home| == |was.pending| && was.home[first.sub] < |was.total| == |was.held|
      && var heir := was.home[first.sub];
      && next == Lock(true, heir, lock.resource, [Owner(first.sub, 1)], lock.requests[1..])
      && (forall t, k :: 0 <= t < |was.held| ==> (k in now.held[t] <==> (k in was.held[t] && k != l) || (t == heir && k == l)))
      && now.held[heir] != [] && now.held[heir][|now.held[heir]| - 1] == l
      && was.pending[first.sub] > 0 && now.pending == was.pending[first.sub := was.pending[first.sub] - 1]
      && was.total[heir] > 0 && now.total == was.total[heir := was.total[heir] - 1]
      && now.lockOf == was.lockOf
  }

  lemma AskedFor(was: State, l: nat, sub: nat, expire: int, force: bool, ownerMemory: bool, requestMemory: bool, hr: Outcome, now: State)
    requires Consistent(was) && l < |was.locks| && was.locks[l].live
    requires sub < |was.home| == |was.pending| && was.home[sub] < |was.total|
    requires Incremented(was, l, sub, Request(sub, expire, force), ownerMemory, requestMemory, hr, now)
    ensures Requested(was, l, sub, expire, force, ownerMemory, requestMemory, hr, now)
  {
    hide CountsOk, HeldOk, PointersOk, OneEach, Entered, Depth, IndexOf;
    var lock := was.locks[l];
    assert LockOk(was.home, lock);
    OwnerDepth(was.home, lock.thread, lock.owners, sub);
    if lock.thread == was.home[sub] {
      forall x: nat ensures Depth(Entered(lock.owners, sub), x) == Depth(lock.owners, x) + if x == sub then 1 else 0 {
        EnteredDepth(was.home, lock.thread, lock.owners, sub, x);
      }
    }
  }

  lemma OwnerDepth(home: seq<nat>, thread: nat, owners: seq<Owner>, sub: nat)
    requires OwnersOk(home, thread, owners)
    ensures Depth(owners, sub) > 0 <==> exists o :: o in owners && o.sub == sub
  {
    DepthAt(owners, sub);
    var i := IndexOf(owners, sub);
    if i < |owners| { assert owners[i] in owners; }
  }

  lemma LeftNone(home: seq<nat>, thread: nat, owners: seq<Owner>, sub: nat)
    requires OwnersOk(home, thread, owners) && Depth(owners, sub) > 0
    ensures Left(owners, sub) == [] <==> !(Depth(owners, sub) > 1 || exists o :: o in owners && o.sub != sub)
  {
    DepthAt(owners, sub);
    hide Depth;
    var i := IndexOf(owners, sub);
    if |owners| > 1 {
      var j := if i == 0 then 1 else 0;
      assert owners[j] in owners && owners[j].sub != sub;
    }
  }

  lemma GivenUp(was: State, l: nat, sub: nat, now: State)
    requires Safe(was) && l < |was.locks| && was.locks[l].live && Depth(was.locks[l].owners, sub) > 0
    requires Regrants(was, l, Left(was.locks[l].owners, sub), now)
    ensures Yielded(was, l, sub, now)
  {
    var lock := was.locks[l];
    assert LockOk(was.home, lock);
    LeftNone(was.home, lock.thread, lock.owners, sub);
    if Left(lock.owners, sub) != [] {
      hide CountsOk, HeldOk, PointersOk, OneEach, Depth, Left, Tally;
      forall x: nat ensures Depth(Left(lock.owners, sub), x) == Depth(lock.owners, x) - if x == sub then 1 else 0 {
        LeftDepth(was.home, lock.thread, lock.owners, sub, x);
      }
    } else {
      LastGivenUp(was, l, sub, now);
    }
  }

  lemma LastGivenUp(was: State, l: nat, sub: nat, now: State)
    requires Safe(was) && l < |was.locks| && was.locks[l].live && Transferable(was, l) && now == NextOwner(Owned(was, l, []), l)
    requires !(Depth(was.locks[l].owners, sub) > 1 || exists o :: o in was.locks[l].owners && o.sub != sub)
    ensures Yielded(was, l, sub, now)
  {
    hide PointersOk, OneEach, Depth, Tally, OwnersOk, Buried, Dropped, Passed;
    var lock := was.locks[l];
    if lock.requests == [] {
      GoneMeans(was, l, now);
    } else {
      DroppedCounts(was, l, 0);
      HeirMeans(was, l, now);
    }
  }

  lemma GoneMeans(was: State, l: nat, now: State)
    requires l < |was.locks| && was.locks[l].thread < |was.held| && was.locks[l].requests == [] && now == Buried(Owned(was, l, []), l)
    ensures var lock := was.locks[l];
            && OnlyThis(was, l, now) && |now.held| == |was.held| && now.locks[l] == Lock(false, lock.thread, lock.resource, [], [])
            && (forall k :: k in now.held[lock.thread] <==> k in was.held[lock.thread] && k != l)
            && (forall t :: 0 <= t < |was.held| && t != lock.thread ==> now.held[t] == was.held[t])
            && now.pending == was.pending && now.total == was.total
            && now.lockOf == if lock.resource.Object? then was.lockOf - {lock.resource.id} else was.lockOf
  {
    hide Unlinked;
  }

  lemma HeirMeans(was: State, l: nat, now: State)
    requires Transferable(was, l) && was.locks[l].live && was.locks[l].requests != []
    requires forall t, i :: 0 <= t < |was.held| && 0 <= i < |was.held[t]| && was.held[t][i] == l ==> t == was.locks[l].thread
    requires var sub := was.locks[l].requests[0].sub;
             && was.pending[sub] > 0 && was.total[was.home[sub]] > 0
             && now == Passed(Dropped(Owned(was, l, []), l, 0), l, was.home[sub], [Owner(sub, 1)])
    ensures var lock, first := was.locks[l], was.locks[l].requests[0]; var heir := was.home[first.sub];
            && OnlyThis(was, l, now) && |now.held| == |was.held|
            && now.locks[l] == Lock(true, heir, lock.resource, [Owner(first.sub, 1)], lock.requests[1..])
            && (forall t, k :: 0 <= t < |was.held| ==> (k in now.held[t] <==> (k in was.held[t] && k != l) || (t == heir && k == l)))
            && now.held[heir] != [] && now.held[heir][|now.held[heir]| - 1] == l
            && now.pending == was.pending[first.sub := was.pending[first.sub] - 1] && now.total == was.total[heir := was.total[heir] - 1]
            && now.lockOf == was.lockOf
  {
    var q, heir, t0 := was.locks[l].requests, was.home[was.locks[l].requests[0].sub], was.locks[l].thread;
    assert q[..0] + q[1..] == q[1..];
    var from := was.held[t0 := Unlinked(was.held[t0], l)];
    assert now.held == from[heir := from[heir] + [l]];
    hide Unlinked, Passed, Dropped;
    forall t, k | 0 <= t < |was.held| ensures k in now.held[t] <==> (k in was.held[t] && k != l) || (t == heir && k == l) {
      assert k in from[t] <==> k in was.held[t] && k != l;
    }
  }

  lemma OnlyLock(s: State, resource: Resource, l: nat)
    requires Safe(s) && IsLockOf(s, l, resource)
    ensures forall k: nat :: IsLockOf(s, k, resource) ==> k == l
    ensures Locked(s, resource)
  {
    hide CountsOk, HeldOk, PointersOk, LockOk;
  }

  lemma KnownSub(s: State, sub: nat)
    requires Safe(s) && sub < |s.home|
    ensures s.home[sub] < |s.total|
  {
  }

  lemma FirstEntered(sub: nat)
    ensures Entered([], sub) == [Owner(sub, 1)] && Depth([], sub) == 0
  {
  }

  /** A lock without owner spoils the state. */
  lemma Unowned(s: State, l: nat)
    requires l < |s.locks| && s.locks[l].live && s.locks[l].owners == []
    ensures !Safe(s)
  {
  }

  lemma StillSafe(s: State, l: nat)
    requires Safe(s) && l < |s.locks| && s.locks[l].live
    ensures OwnedBut(s.locks, l) && s.locks[l].owners != []
  {
  }

  /** Whose requests are deleted. */
  datatype Target = OfThread(thread: nat) | OfSub(sub: nat)

  ghost function Subs(home: seq<nat>, target: Target): set<nat> {
    match target
    case OfThread(thread) => SubsOf(home, thread)
    case OfSub(sub) => {sub}
  }

  ghost predicate TargetOk(s: State, target: Target) {
    match target
    case OfThread(thread) => thread < |s.total|
    case OfSub(sub) => sub < |s.home| == |s.pending|
  }

  ghost predicate NoneLeft(s: State, subs: set<nat>) {
    forall l, i :: 0 <= l < |s.locks| && 0 <= i < |s.locks[l].requests| ==> s.locks[l].requests[i].sub !in subs
  }

  lemma NoneOf(s: State, subs: set<nat>, l: nat)
    requires NoneLeft(s, subs) && l < |s.locks|
    ensures forall i :: 0 <= i < |s.locks[l].requests| ==> s.locks[l].requests[i].sub !in subs
  {
  }

  lemma TallyLeft(s: State, all: set<nat>, subs: set<nat>)
    requires Tally(s.locks, all) == 0 && subs <= all
    ensures NoneLeft(s, subs)
  {
    hide Tally;
    forall l, i | 0 <= l < |s.locks| && 0 <= i < |s.locks[l].requests| ensures s.locks[l].requests[i].sub !in subs {
      TallyNone(s.locks, all, l);
    }
  }

  /** A thread that has no requests left has none of the target. */
  lemma NoMore(s: State, target: Target, sub: nat)
    requires Consistent(s) && sub < |s.home| && s.home[sub] < |s.total| && s.total[s.home[sub]] == 0 && sub in Subs(s.home, target)
    ensures NoneLeft(s, Subs(s.home, target))
  {
    TallyLeft(s, SubsOf(s.home, s.home[sub]), Subs(s.home, target));
  }

  lemma NoneAtAll(s: State, target: Target)
    requires Safe(s) && TargetOk(s, target) && (if target.OfThread? then s.total[target.thread] else s.pending[target.sub]) == 0
    ensures NoneLeft(s, Subs(s.home, target))
  {
    TallyLeft(s, Subs(s.home, target), Subs(s.home, target));
  }

  lemma RequestKnown(s: State, l: nat, k: nat)
    requires Consistent(s) && l < |s.locks| && k < |s.locks[l].requests|
    ensures s.locks[l].requests[k].sub < |s.home|
  {
    assert LockOk(s.home, s.locks[l]);
  }

  lemma NotYet(was: State, s: State, w: Which, over: set<nat>, l: nat, k: nat)
    requires Withdrawn(was, s, w, over) && l < |s.locks| && k < |s.locks[l].requests| && Hit(w, s.locks[l].requests[k])
    ensures l !in over
  {
  }

  lemma WithdrawnNone(s: State, w: Which)
    ensures Withdrawn(s, s, w, {})
  {
  }

  lemma SameHeld(was: State, s: State, w: Which, over: set<nat>)
    requires Withdrawn(was, s, w, over)
    ensures s.held == was.held && |s.locks| == |was.locks|
  {
  }

  /** Nothing has changed but that all requests that are hit have been withdrawn. */
  ghost predicate WithdrawnAny(was: State, s: State, w: Which) {
    && s.home == was.home && s.held == was.held && s.lockOf == was.lockOf && |s.locks| == |was.locks|
    && forall l :: 0 <= l < |was.locks| ==> s.locks[l] == was.locks[l].(requests := Kept(was.locks[l].requests, w))
  }

  lemma {:induction false} KeptExactly(requests: seq<Request>, w: Which, r: Request)
    ensures multiset(Kept(requests, w))[r] == if Hit(w, r) then 0 else multiset(requests)[r]
  {
    if requests != [] {
      var n := |requests| - 1;
      KeptExactly(requests[..n], w, r);
      assert requests == requests[..n] + [requests[n]];
    }
  }

  /** Locks outside the set are as they were. */
  ghost predicate OnlyThese(was: seq<Lock>, now: seq<Lock>, over: set<nat>) {
    |now| == |was| && forall l :: 0 <= l < |was| && l !in over ==> now[l] == was[l]
  }

  lemma OneMore(was: seq<Lock>, before: seq<Lock>, now: seq<Lock>, over: set<nat>, l: nat)
    requires OnlyThese(was, before, over) && OnlyThese(before, now, {l})
    ensures OnlyThese(was, now, over + {l})
  {
  }

  /** The queues of the listed locks have lost exactly the requests whose time is up; nothing else has changed. */
  ghost predicate TimedOut(was: seq<Lock>, now: seq<Lock>, list: seq<nat>, time: int) {
    && |now| == |was| && (forall l :: 0 <= l < |was| && l !in list ==> now[l] == was[l])
    && forall l :: 0 <= l < |was| && l in list ==>
         && now[l] == was[l].(requests := now[l].requests)
         && forall r :: multiset(now[l].requests)[r] == if r.expire <= time then 0 else multiset(was[l].requests)[r]
  }

  lemma AllTimedOut(was: State, s: State, list: seq<nat>, time: int, over: set<nat>)
    requires Withdrawn(was, s, Expired(time), over) && OnlyThese(was.locks, s.locks, over) && forall l :: l in list <==> l in over
    ensures TimedOut(was.locks, s.locks, list, time)
  {
    forall l, r | 0 <= l < |was.locks| && l in list
      ensures multiset(s.locks[l].requests)[r] == if r.expire <= time then 0 else multiset(was.locks[l].requests)[r] {
      KeptExactly(was.locks[l].requests, Expired(time), r);
    }
  }

  lemma AnyExactly(was: State, s: State, w: Which)
    requires WithdrawnAny(was, s, w)
    ensures s.held == was.held && s.lockOf == was.lockOf && |s.locks| == |was.locks|
    ensures forall l :: 0 <= l < |was.locks| ==>
              && s.locks[l] == was.locks[l].(requests := s.locks[l].requests)
              && forall r :: multiset(s.locks[l].requests)[r] == if Hit(w, r) then 0 else multiset(was.locks[l].requests)[r]
  {
    forall l, r | 0 <= l < |was.locks|
      ensures multiset(s.locks[l].requests)[r] == if Hit(w, r) then 0 else multiset(was.locks[l].requests)[r] {
      KeptExactly(was.locks[l].requests, w, r);
    }
  }

  lemma WithdrawnEnd(was: State, s: State, w: Which, over: set<nat>)
    requires Withdrawn(was, s, w, over) && w.From? && NoneLeft(s, w.subs)
    ensures WithdrawnAny(was, s, w)
  {
    forall l | 0 <= l < |was.locks| ensures s.locks[l].requests == Kept(was.locks[l].requests, w) {
      KeptAll(s.locks[l].requests, w);
    }
  }

  lemma AllHeld(was: State, s: State, w: Which, over: set<nat>)
    requires Safe(s) && Withdrawn(was, s, w, over) && w.From?
    requires forall u, i :: 0 <= u < |s.held| && 0 <= i < |s.held[u]| ==> s.held[u][i] in over
    ensures NoneLeft(s, w.subs)
  {
    hide CountsOk, PointersOk, OneEach;
    forall l, i | 0 <= l < |s.locks| && 0 <= i < |s.locks[l].requests| ensures s.locks[l].requests[i].sub !in w.subs {
      assert LockOk(s.home, s.locks[l]);
      assert l in s.held[s.locks[l].thread];
      assert s.locks[l].requests == Kept(was.locks[l].requests, w);
      assert !Hit(w, s.locks[l].requests[i]);
    }
  }

  lemma SafeIs(s: State)
    requires Safe(s)
    ensures Consistent(s) && OwnedBut(s.locks, -1) && |s.held| == |s.total| && |s.home| == |s.pending|
    ensures forall t, i :: 0 <= t < |s.held| && 0 <= i < |s.held[t]| ==> s.held[t][i] < |s.locks|
    ensures forall t, i, j :: 0 <= t < |s.held| && 0 <= i < j < |s.held[t]| ==> s.held[t][i] != s.held[t][j]
  {
  }

  function Decremented(owners: seq<Owner>, i: nat, sub: nat): (r: seq<Owner>)
    requires i < |owners| && IndexOf(owners, sub) == i && owners[i].sub == sub
    ensures r == Left(owners, sub)
  {
    var depth := Less(owners[i].recursion);
    if depth == 0 then owners[..i] + owners[i + 1..] else owners[i := owners[i].(recursion := depth)]
  }

  /** The owners of lock `l` become `owners`, and if there are none the lock goes to the first in the queue. */
  ghost predicate Regrants(was: State, l: nat, owners: seq<Owner>, now: State) {
    Transferable(was, l) && now == Regranted(was, l, owners)
  }

  lemma Shallower(s: State, l: nat, sub: nat)
    requires Safe(s) && l < |s.locks| && s.locks[l].live
    ensures Depth(s.locks[l].owners, sub) > 0 <==> IndexOf(s.locks[l].owners, sub) < |s.locks[l].owners|
    ensures Depth(s.locks[l].owners, sub) > 0 ==> Removable(s, l, Left(s.locks[l].owners, sub))
  {
    hide HeldOk, PointersOk, OneEach, Tally, Left, Depth;
    var lock := s.locks[l];
    assert LockOk(s.home, lock);
    DepthAt(lock.owners, sub);
    if Depth(lock.owners, sub) > 0 {
      LeftOk(s.home, lock.thread, lock.owners, sub);
      CanRegrant(s, l, Left(lock.owners, sub));
    }
  }

  /** The lock can be left to these owners. */
  ghost predicate Removable(s: State, l: nat, owners: seq<Owner>) {
    && l < |s.locks| && s.locks[l].live
    && Consistent(Owned(s, l, owners)) && OwnedBut(Owned(s, l, owners).locks, if owners == [] then l else -1)
    && Transferable(s, l)
  }

  lemma CanRegrant(s: State, l: nat, owners: seq<Owner>)
    requires Safe(s) && l < |s.locks| && s.locks[l].live && OwnersOk(s.home, s.locks[l].thread, owners)
    ensures Removable(s, l, owners)
  {
    hide Tally, HeldOk, PointersOk, OneEach;
    OwnedOk(s, l, owners);
    RegrantedOk(s, l, owners);
  }

  lemma RemovedAll(s: State, l: nat, sub: nat)
    requires Safe(s) && l < |s.locks| && s.locks[l].live
    ensures Removable(s, l, Without(s.locks[l].owners, sub))
  {
    hide HeldOk, PointersOk, OneEach, Tally;
    assert LockOk(s.home, s.locks[l]);
    WithoutOk(s.home, s.locks[l].thread, s.locks[l].owners, sub);
    CanRegrant(s, l, Without(s.locks[l].owners, sub));
  }

  /** A sub-thread of the owning thread can go one level deeper. */
  lemma Deeper(s: State, l: nat, sub: nat)
    requires Consistent(s) && OwnedBut(s.locks, l) && l < |s.locks| && s.locks[l].live && sub < |s.home|
    ensures |s.home| == |s.pending| && s.home[sub] < |s.total|
    ensures s.locks[l].owners != [] ==> Safe(s)
    ensures (Depth(s.locks[l].owners, sub) > 0 <==> IndexOf(s.locks[l].owners, sub) < |s.locks[l].owners|)
    ensures s.locks[l].thread == s.home[sub] ==> Safe(Owned(s, l, Entered(s.locks[l].owners, sub)))
  {
    hide HeldOk, PointersOk, OneEach, Tally;
    var lock := s.locks[l];
    assert LockOk(s.home, lock);
    DepthAt(lock.owners, sub);
    if lock.thread == s.home[sub] {
      EnteredDepth(s.home, lock.thread, lock.owners, sub, sub);
      OwnedOk(s, l, Entered(lock.owners, sub));
    }
  }
}
