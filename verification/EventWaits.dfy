/** Threads that wait for one or for all of a number of event objects. */
module EventWaits {
  import opened Wrappers

  /** An event object: set or not, and whether a wait that succeeds resets it. */
  datatype Event = Event(signaled: bool, autoReset: bool)

  datatype Wait = Wait(objects: seq<nat>, all: bool, expire: int)

  datatype WaitResult = Init | Handle(index: nat) | HandleAll | TimedOut

  datatype Outcome = Done | ThreadWaiting | OutOfMemory | InvalidParameter | NullReference

  datatype Thread = NotWaiting | WaitingFor(wait: Wait)

  const MAXIMUM_OBJECTS := 64

  ghost predicate Known(events: seq<Event>, w: Wait) {
    forall i :: 0 <= i < |w.objects| ==> w.objects[i] < |events|
  }

  /** The wait need not go on. */
  ghost predicate Satisfied(events: seq<Event>, w: Wait)
    requires Known(events, w)
  {
    if w.all then forall i :: 0 <= i < |w.objects| ==> events[w.objects[i]].signaled
    else exists i :: 0 <= i < |w.objects| && events[w.objects[i]].signaled
  }

  /** The first object that is signaled, or the number of objects. */
  function FirstSignaled(events: seq<Event>, objects: seq<nat>): (i: nat)
    requires forall k :: 0 <= k < |objects| ==> objects[k] < |events|
    ensures i <= |objects| && (forall k :: 0 <= k < i ==> !events[objects[k]].signaled)
    ensures i < |objects| ==> events[objects[i]].signaled
    decreases objects
  {
    if objects == [] || events[objects[0]].signaled then 0 else 1 + FirstSignaled(events, objects[1..])
  }

  /** The event after a wait has used its signal. */
  function Used(e: Event): Event {
    if e.autoReset then e.(signaled := false) else e
  }

  /** What a successful wait leaves: all its events used, or only the first that is signaled. */
  function Consumed(events: seq<Event>, w: Wait): (r: seq<Event>)
    requires forall i :: 0 <= i < |w.objects| ==> w.objects[i] < |events|
    ensures |r| == |events|
  {
    if w.all then
      seq(|events|, o requires 0 <= o < |events| => if o in w.objects then Used(events[o]) else events[o])
    else
      var i := FirstSignaled(events, w.objects);
      if i < |w.objects| then events[w.objects[i] := Used(events[w.objects[i]])] else events
  }

  /** No event has become signaled. */
  ghost predicate Fewer(now: seq<Event>, was: seq<Event>) {
    |now| == |was| && forall o :: 0 <= o < |was| ==> now[o] == was[o] || now[o] == was[o].(signaled := false)
  }

  /** With fewer signals a wait that must go on still must. */
  lemma StillWaits(now: seq<Event>, was: seq<Event>, w: Wait)
    requires Fewer(now, was) && Known(was, w) && !Satisfied(was, w)
    ensures Known(now, w) && !Satisfied(now, w)
  {
    if w.all {
      var i :| 0 <= i < |w.objects| && !was[w.objects[i]].signaled;
      assert !now[w.objects[i]].signaled;
    }
  }

  lemma ConsumedFewer(events: seq<Event>, w: Wait)
    requires Known(events, w)
    ensures Fewer(Consumed(events, w), events)
  {
  }

  /** A wait uses up the auto-reset signals it is granted, and only these: all of its objects' or none, or one. */
  lemma ConsumedExactly(events: seq<Event>, w: Wait, o: nat)
    requires Known(events, w) && Satisfied(events, w) && o < |events|
    ensures Consumed(events, w)[o].signaled <==>
              events[o].signaled && !(events[o].autoReset &&
                if w.all then o in w.objects else o == w.objects[FirstSignaled(events, w.objects)])
    ensures !w.all ==> FirstSignaled(events, w.objects) < |w.objects|
  {
  }

  /** What a wait that succeeds takes and is told.  If it is for all it takes the signals of all its auto-reset events.
      If not it is told the lowest index of an event that is signaled, and takes only that one's signal. */
  ghost predicate Granted(was: seq<Event>, w: Wait, now: seq<Event>, result: WaitResult) {
    && Known(was, w) && |now| == |was| && (forall o :: 0 <= o < |was| ==> now[o].autoReset == was[o].autoReset)
    && if w.all then
         && result == HandleAll
         && forall o :: 0 <= o < |was| ==> (now[o].signaled <==> was[o].signaled && !(o in w.objects && was[o].autoReset))
       else
         && result.Handle? && result.index < |w.objects| && was[w.objects[result.index]].signaled
         && (forall k :: 0 <= k < result.index ==> !was[w.objects[k]].signaled)
         && forall o :: 0 <= o < |was| ==> (now[o].signaled <==> was[o].signaled && !(o == w.objects[result.index] && was[o].autoReset))
  }

  /** The result of a wait that succeeds. */
  function ResultOf(events: seq<Event>, w: Wait): WaitResult
    requires forall i :: 0 <= i < |w.objects| ==> w.objects[i] < |events|
  {
    if w.all then HandleAll else Handle(FirstSignaled(events, w.objects))
  }

  lemma ConsumedGranted(events: seq<Event>, w: Wait)
    requires Known(events, w) && Satisfied(events, w)
    ensures Granted(events, w, Consumed(events, w), ResultOf(events, w))
  {
  }

  // ---------- The waiting list ----------

  /** Waiting threads are in the list, once, and wait for known events. */
  ghost predicate ListOk(events: seq<Event>, threads: seq<Thread>, list: seq<nat>) {
    && (forall i :: 0 <= i < |list| ==> list[i] < |threads|)
    && (forall i, j :: 0 <= i < j < |list| ==> list[i] != list[j])
    && (forall t :: 0 <= t < |threads| && threads[t].WaitingFor? ==> t in list && Known(events, threads[t].wait))
  }

  /** Every one of them still has to wait. */
  ghost predicate AllMustWait(events: seq<Event>, threads: seq<Thread>, list: seq<nat>) {
    forall t :: t in list && t < |threads| && threads[t].WaitingFor? ==>
      Known(events, threads[t].wait) && !Satisfied(events, threads[t].wait)
  }

  /** What signaling object `o` does to the events and to the waiting threads, from the first to the last: each
      that can go on does, until the signal is used up. */
  function Run(events: seq<Event>, threads: seq<Thread>, said: seq<WaitResult>, list: seq<nat>, o: nat): (r: (seq<Event>, seq<nat>, seq<WaitResult>))
    requires o < |events| && |said| == |threads| && forall i :: 0 <= i < |list| ==> list[i] < |threads|
    ensures |r.0| == |events| && |r.2| == |said|
    decreases |list|
  {
    if list == [] || !events[o].signaled then (events, list, said)
    else
      var t := threads[list[0]];
      if t.WaitingFor? && Ends(events, t.wait) then
        Run(Consumed(events, t.wait), threads, said[list[0] := ResultOf(events, t.wait)], list[1..], o)
      else var r := Run(events, threads, said, list[1..], o); (r.0, [list[0]] + r.1, r.2)
  }

  /** `Satisfied`, as a test. */
  predicate Ends(events: seq<Event>, w: Wait)
    ensures Ends(events, w) ==> Known(events, w)
  {
    && (forall i :: 0 <= i < |w.objects| ==> w.objects[i] < |events|)
    && if w.all then forall i :: 0 <= i < |w.objects| ==> events[w.objects[i]].signaled
       else exists i :: 0 <= i < |w.objects| && events[w.objects[i]].signaled
  }

  function Set(events: seq<Event>, o: nat): (r: seq<Event>)
    requires o < |events|
    ensures |r| == |events|
  {
    events[o := events[o].(signaled := true)]
  }

  /** A wait that `o` has ended needed it: an auto-reset signal is used up by it. */
  lemma UsesUp(events: seq<Event>, w: Wait, o: nat)
    requires o < |events| && Known(events, w) && !Satisfied(events, w) && Satisfied(Set(events, o), w)
    ensures Set(events, o)[o].autoReset ==> !Consumed(Set(events, o), w)[o].signaled
  {
    var e := Set(events, o);
    if w.all {
      var i :| 0 <= i < |w.objects| && !events[w.objects[i]].signaled;
      assert w.objects[i] == o;
    }
  }

  predicate GoesOn(events: seq<Event>, t: Thread) {
    t.WaitingFor? && Ends(events, t.wait)
  }

  /** The first thread of the list that can go on, or the length of the list. */
  function FirstEnding(events: seq<Event>, threads: seq<Thread>, list: seq<nat>): (k: nat)
    requires forall i :: 0 <= i < |list| ==> list[i] < |threads|
    ensures k <= |list| && (forall i :: 0 <= i < k ==> !GoesOn(events, threads[list[i]]))
    ensures k < |list| ==> GoesOn(events, threads[list[k]])
    decreases |list|
  {
    if list == [] || GoesOn(events, threads[list[0]]) then 0 else 1 + FirstEnding(events, threads, list[1..])
  }

  /** An auto-reset signal frees at most one thread, the first that it lets go on. */
  lemma {:induction false} FreesOne(events: seq<Event>, threads: seq<Thread>, said: seq<WaitResult>, list: seq<nat>, o: nat)
    requires o < |events| && |said| == |threads| && events[o].autoReset && (forall i :: 0 <= i < |list| ==> list[i] < |threads|)
    requires AllMustWait(events, threads, list)
    ensures var e, r, k := Set(events, o), Run(Set(events, o), threads, said, list, o), FirstEnding(Set(events, o), threads, list);
            if k < |list| then
              var w := threads[list[k]].wait;
              r == (Consumed(e, w), list[..k] + list[k + 1..], said[list[k] := ResultOf(e, w)]) && !r.0[o].signaled
            else r == (e, list, said)
    decreases |list|
  {
    hide Satisfied, Consumed, Ends, Used, ResultOf, Run;
    var e := Set(events, o);
    RunFirst(e, threads, said, list, o);
    if list != [] {
      var t, rest := threads[list[0]], list[1..];
      if GoesOn(e, t) {
        EndsSatisfied(e, t.wait);
        UsesUp(events, t.wait, o);
        RunFirst(Consumed(e, t.wait), threads, said[list[0] := ResultOf(e, t.wait)], rest, o);
        assert list[..0] + rest == rest;
      } else {
        FreesOne(events, threads, said, rest, o);
        FirstSkipped(list, FirstEnding(e, threads, rest));
      }
    }
  }

  lemma FirstSkipped(list: seq<nat>, k: nat)
    requires list != [] && k <= |list| - 1
    ensures [list[0]] + list[1..] == list
    ensures k < |list| - 1 ==> [list[0]] + (list[1..][..k] + list[1..][k + 1..]) == list[..k + 1] + list[k + 2..] && list[1..][k] == list[k + 1]
  {
  }

  /** One turn. */
  lemma RunFirst(events: seq<Event>, threads: seq<Thread>, said: seq<WaitResult>, list: seq<nat>, o: nat)
    requires o < |events| && |said| == |threads| && forall i :: 0 <= i < |list| ==> list[i] < |threads|
    ensures list == [] || !events[o].signaled ==> Run(events, threads, said, list, o) == (events, list, said)
    ensures list != [] && events[o].signaled ==>
              var t := threads[list[0]];
              if GoesOn(events, t) then
                Run(events, threads, said, list, o) == Run(Consumed(events, t.wait), threads, said[list[0] := ResultOf(events, t.wait)], list[1..], o)
              else var r := Run(events, threads, said, list[1..], o); Run(events, threads, said, list, o) == (r.0, [list[0]] + r.1, r.2)
  {
  }

  lemma EndsSatisfied(events: seq<Event>, w: Wait)
    ensures Ends(events, w) <==> Known(events, w) && Satisfied(events, w)
  {
  }

  /** Afterwards no thread that still waits can go on. */
  lemma {:induction false} RunLeaves(events: seq<Event>, threads: seq<Thread>, said: seq<WaitResult>, list: seq<nat>, o: nat, before: seq<Event>)
    requires o < |events| == |before| && |said| == |threads| && (forall i :: 0 <= i < |list| ==> list[i] < |threads|)
    requires Fewer(events, Set(before, o))
    requires AllMustWait(before, threads, list)
    ensures var r := Run(events, threads, said, list, o);
            Fewer(r.0, events) && AllMustWait(r.0, threads, r.1) && forall t :: t in r.1 ==> t in list
    decreases |list|
  {
    hide Satisfied, Consumed, Ends, ResultOf;
    var r := Run(events, threads, said, list, o);
    if list == [] || !events[o].signaled {
      forall i | 0 <= i < |list| && threads[list[i]].WaitingFor? ensures Known(events, threads[list[i]].wait) && !Satisfied(events, threads[list[i]].wait) {
        UnsetFewer(events, before, o);
        StillWaits(events, before, threads[list[i]].wait);
      }
    } else {
      var t := threads[list[0]];
      if t.WaitingFor? { EndsSatisfied(events, t.wait); }
      if t.WaitingFor? && Ends(events, t.wait) {
        ConsumedFewer(events, t.wait);
        RunLeaves(Consumed(events, t.wait), threads, said[list[0] := ResultOf(events, t.wait)], list[1..], o, before);
      } else {
        RunLeaves(events, threads, said, list[1..], o, before);
        if t.WaitingFor? { StillWaits(Run(events, threads, said, list[1..], o).0, events, t.wait); }
      }
    }
  }

  /** The thread waits for what these events signal. */
  ghost predicate Frees(events: seq<Event>, t: Thread) {
    t.WaitingFor? && Known(events, t.wait) && Satisfied(events, t.wait)
  }

  /** What is left of a list when some of its elements have left it. */
  ghost predicate InOrder(rest: seq<nat>, list: seq<nat>) {
    if rest == [] then true
    else if list == [] then false
    else if rest[0] == list[0] then InOrder(rest[1..], list[1..])
    else InOrder(rest, list[1..])
  }

  /** The thread is told what it waited for: all of its objects, or one that was signaled. */
  ghost predicate Told(events: seq<Event>, t: Thread, result: WaitResult) {
    && t.WaitingFor? && Known(events, t.wait)
    && if t.wait.all then result == HandleAll
       else result.Handle? && result.index < |t.wait.objects| && events[t.wait.objects[result.index]].signaled
  }

  /** An auto-reset event that was signaled, and that this thread waited for. */
  ghost predicate Takes(events: seq<Event>, t: Thread, x: nat) {
    x < |events| && events[x].signaled && events[x].autoReset && t.WaitingFor? && x in t.wait.objects
  }

  /** What signaling makes of the events and the list.  Every thread that leaves the list had what it waited for and is told
      so, the others are told nothing, and signals are lost only to threads that leave and waited for them. */
  ghost predicate Outcomes(events: seq<Event>, threads: seq<Thread>, said: seq<WaitResult>, list: seq<nat>,
                           now: seq<Event>, rest: seq<nat>, results: seq<WaitResult>) {
    && |now| == |events| && |results| == |said| == |threads| && InOrder(rest, list)
    && (forall t :: t in list && t !in rest ==> t < |threads| && Frees(events, threads[t]) && Told(events, threads[t], results[t]))
    && (forall t :: 0 <= t < |threads| && !(t in list && t !in rest) ==> results[t] == said[t])
    && forall x :: 0 <= x < |events| ==>
         now[x] == events[x] ||
         (now[x] == events[x].(signaled := false) && exists t :: t in list && t !in rest && t < |threads| && Takes(events, threads[t], x))
  }

  ghost predicate Signals(was: seq<Event>, threads: seq<Thread>, said: seq<WaitResult>, list: seq<nat>, o: nat,
                          now: seq<Event>, rest: seq<nat>, results: seq<WaitResult>) {
    o < |was| && Outcomes(was[o := Event(true, was[o].autoReset)], threads, said, list, now, rest, results)
  }

  lemma {:induction false} RunMeans(events: seq<Event>, threads: seq<Thread>, said: seq<WaitResult>, list: seq<nat>, o: nat)
    requires o < |events| && |said| == |threads| && (forall i :: 0 <= i < |list| ==> list[i] < |threads|)
    requires forall i, j :: 0 <= i < j < |list| ==> list[i] != list[j]
    ensures var r := Run(events, threads, said, list, o); Outcomes(events, threads, said, list, r.0, r.1, r.2)
    decreases |list|
  {
    hide Satisfied, Consumed, Ends, ResultOf, Outcomes;
    if list == [] || !events[o].signaled {
      NoOutcome(events, threads, said, list);
    } else {
      var t := threads[list[0]];
      EndsSatisfied(events, if t.WaitingFor? then t.wait else Wait([], true, 0));
      if t.WaitingFor? && Ends(events, t.wait) {
        var r := Run(events, threads, said, list, o);
        RunMeans(Consumed(events, t.wait), threads, said[list[0] := ResultOf(events, t.wait)], list[1..], o);
        FirstFreed(events, threads, said, list, r.0, r.1, r.2);
      } else {
        var r := Run(events, threads, said, list[1..], o);
        RunMeans(events, threads, said, list[1..], o);
        FirstKept(events, threads, said, list, r.0, r.1, r.2);
      }
    }
  }

  lemma {:induction false} InOrderAll(list: seq<nat>)
    ensures InOrder(list, list)
  {
    if list != [] { InOrderAll(list[1..]); }
  }

  lemma {:induction false} InOrderIn(rest: seq<nat>, list: seq<nat>)
    requires InOrder(rest, list)
    ensures forall t :: t in rest ==> t in list
  {
    if rest != [] {
      var same := rest[0] == list[0];
      InOrderIn(if same then rest[1..] else rest, list[1..]);
      forall t | t in rest ensures t in list {
        assert t in list[1..] || (same && t == rest[0]);
      }
    }
  }

  lemma NoOutcome(events: seq<Event>, threads: seq<Thread>, said: seq<WaitResult>, list: seq<nat>)
    requires |said| == |threads|
    ensures Outcomes(events, threads, said, list, events, list, said)
  {
    InOrderAll(list);
  }

  lemma FirstKept(events: seq<Event>, threads: seq<Thread>, said: seq<WaitResult>, list: seq<nat>,
                  now: seq<Event>, rest: seq<nat>, results: seq<WaitResult>)
    requires list != [] && Outcomes(events, threads, said, list[1..], now, rest, results)
    requires forall i, j :: 0 <= i < j < |list| ==> list[i] != list[j]
    ensures Outcomes(events, threads, said, list, now, [list[0]] + rest, results)
  {
    hide Frees, Told, Takes;
    FirstApart(list);
    InOrderIn(rest, list[1..]);
    assert ([list[0]] + rest)[1..] == rest;
    assert forall t :: t in list && t !in [list[0]] + rest <==> t in list[1..] && t !in rest;
  }

  lemma FirstApart(list: seq<nat>)
    requires list != [] && forall i, j :: 0 <= i < j < |list| ==> list[i] != list[j]
    ensures list[0] !in list[1..] && forall t :: t in list <==> t == list[0] || t in list[1..]
    ensures forall i, j :: 0 <= i < j < |list[1..]| ==> list[1..][i] != list[1..][j]
  {
  }

  lemma FirstFreed(events: seq<Event>, threads: seq<Thread>, said: seq<WaitResult>, list: seq<nat>,
                   now: seq<Event>, rest: seq<nat>, results: seq<WaitResult>)
    requires list != [] && list[0] < |threads| == |said| && Frees(events, threads[list[0]])
    requires forall i, j :: 0 <= i < j < |list| ==> list[i] != list[j]
    requires var w := threads[list[0]].wait;
             Outcomes(Consumed(events, w), threads, said[list[0] := ResultOf(events, w)], list[1..], now, rest, results)
    ensures Outcomes(events, threads, said, list, now, rest, results)
  {
    var t0, w := list[0], threads[list[0]].wait;
    var e, s := Consumed(events, w), said[t0 := ResultOf(events, w)];
    ConsumedGranted(events, w);
    ConsumedFewer(events, w);
    hide Satisfied, Consumed, ResultOf;
    FirstApart(list);
    InOrderIn(rest, list[1..]);
    GrantedTells(events, threads[t0], e, s[t0]);
    hide Frees, Told, Takes, Granted;
    forall t | t in list && t !in rest
      ensures t < |threads| && Frees(events, threads[t]) && Told(events, threads[t], results[t])
    {
      if t != t0 { FreesBefore(e, events, threads[t], results[t]); }
    }
    forall x | 0 <= x < |events| && now[x] != events[x]
      ensures now[x] == events[x].(signaled := false) && exists t :: t in list && t !in rest && t < |threads| && Takes(events, threads[t], x)
    {
      if e[x] != events[x] {
        assert Takes(events, threads[t0], x);
      } else {
        var t :| t in list[1..] && t !in rest && t < |threads| && Takes(e, threads[t], x);
        TakesBefore(e, events, threads[t], x);
      }
    }
    assert forall t :: 0 <= t < |threads| && !(t in list && t !in rest) ==> results[t] == s[t] == said[t];
  }

  lemma GrantedTells(was: seq<Event>, t: Thread, now: seq<Event>, result: WaitResult)
    requires t.WaitingFor? && Granted(was, t.wait, now, result)
    ensures Told(was, t, result) && |now| == |was|
    ensures forall x :: 0 <= x < |was| && now[x] != was[x] ==> now[x] == was[x].(signaled := false) && Takes(was, t, x)
  {
  }

  lemma FreesBefore(now: seq<Event>, was: seq<Event>, t: Thread, result: WaitResult)
    requires Fewer(now, was) && Frees(now, t) && Told(now, t, result)
    ensures Frees(was, t) && Told(was, t, result)
  {
    hide Satisfied;
    if !Satisfied(was, t.wait) { StillWaits(now, was, t.wait); }
  }

  lemma TakesBefore(now: seq<Event>, was: seq<Event>, t: Thread, x: nat)
    requires Fewer(now, was) && Takes(now, t, x)
    ensures Takes(was, t, x)
  {
  }

  lemma UnsetFewer(events: seq<Event>, before: seq<Event>, o: nat)
    requires o < |before| && Fewer(events, Set(before, o)) && !events[o].signaled
    ensures Fewer(events, before)
  {
    forall k | 0 <= k < |before| ensures events[k] == before[k] || events[k] == before[k].(signaled := false) {
      assert events[k] == Set(before, o)[k] || events[k] == Set(before, o)[k].(signaled := false);
    }
  }

  class EventEngine {
    var events: seq<Event>
    var threads: seq<Thread>
    var results: seq<WaitResult>
    var ready: set<nat>
    var waiting: seq<nat>

    ghost predicate Ordered()
      reads this
    {
      |results| == |threads| && ListOk(events, threads, waiting) && forall t :: t in ready ==> t !in waiting
    }

    /** No thread in the waiting list has a wait that is satisfied. */
    ghost predicate Valid()
      reads this
    {
      Ordered() && AllMustWait(events, threads, waiting)
    }

    constructor (events: seq<Event>, threads: nat)
      ensures Valid() && this.events == events && |this.threads| == threads && waiting == [] && ready == {}
    {
      this.events := events;
      this.threads := seq(threads, _ => NotWaiting);
      results := seq(threads, _ => Init);
      ready := {};
      waiting := [];
    }

    /** The signals of all these events are used. */
    method UseAll(objects: seq<nat>)
      requires forall i :: 0 <= i < |objects| ==> objects[i] < |events|
      modifies this`events
      ensures |events| == |old(events)|
      ensures forall o :: 0 <= o < |events| ==> events[o] == if o in objects then Used(old(events)[o]) else old(events)[o]
    {
      var i := 0;
      while i < |objects|
        invariant i <= |objects| && |events| == |old(events)|
        invariant forall o :: 0 <= o < |events| ==> events[o] == if o in objects[..i] then Used(old(events)[o]) else old(events)[o]
      {
        if events[objects[i]].autoReset { events := events[objects[i] := events[objects[i]].(signaled := false)]; }
        assert objects[..i + 1] == objects[..i] + [objects[i]];
        i := i + 1;
      }
      assert objects[..i] == objects;
    }

    /** Tries to end a wait.  Of a wait for all nothing is used up unless all are signaled. */
    method TryWaitForSignal(th: nat, w: Wait) returns (done: bool)
      requires Known(events, w) && th < |results|
      modifies this`events, this`results
      ensures done == Satisfied(old(events), w)
      ensures w.all ==> (done <==> forall i :: 0 <= i < |w.objects| ==> old(events)[w.objects[i]].signaled)
      ensures !w.all ==> (done <==> exists i :: 0 <= i < |w.objects| && old(events)[w.objects[i]].signaled)
      ensures events == if done then Consumed(old(events), w) else old(events)
      ensures results == if done then old(results)[th := ResultOf(old(events), w)] else old(results)
      ensures done ==> Granted(old(events), w, events, results[th])
    {
      if Satisfied(events, w) { ConsumedGranted(events, w); }
      hide Granted;
      var objects := w.objects;
      if w.all {
        var i := 0;
        while i < |objects|
          invariant i <= |objects| && events == old(events) && results == old(results)
          invariant forall k :: 0 <= k < i ==> events[objects[k]].signaled
        {
          if !events[objects[i]].signaled { return false; }
          i := i + 1;
        }
        UseAll(objects);
        results := results[th := HandleAll];
        return true;
      }
      var i := 0;
      while i < |objects|
        invariant i <= |objects| && events == old(events) && results == old(results)
        invariant forall k :: 0 <= k < i ==> !events[objects[k]].signaled
      {
        if events[objects[i]].signaled {
          FirstIs(events, objects, i);
          if events[objects[i]].autoReset { events := events[objects[i] := events[objects[i]].(signaled := false)]; }
          results := results[th := Handle(i)];
          return true;
        }
        i := i + 1;
      }
      done := false;
    }

    /** A thread becomes ready, and its wait is over. */
    method Restart(k: nat)
      requires Ordered() && k < |waiting|
      modifies this`threads, this`ready, this`waiting
      ensures Ordered() && Restarted(old(threads), old(waiting), k, threads, waiting) && ready == old(ready) + {old(waiting)[k]}
    {
      var th := waiting[k];
      waiting := waiting[..k] + waiting[k + 1..];
      threads := threads[th := NotWaiting];
      ready := ready + {th};
    }

    /** The wait of thread `k` of the waiting list is tried, and if it is over the thread goes on. */
    method TryThread(k: nat) returns (done: bool)
      requires Ordered() && k < |waiting|
      modifies this
      ensures Ordered() && done == GoesOn(old(events), old(threads)[old(waiting)[k]])
      ensures if done then
                && Known(old(events), old(threads)[old(waiting)[k]].wait) && events == Consumed(old(events), old(threads)[old(waiting)[k]].wait)
                && Restarted(old(threads), old(waiting), k, threads, waiting) && ready == old(ready) + {old(waiting)[k]}
                && results == old(results)[old(waiting)[k] := ResultOf(old(events), old(threads)[old(waiting)[k]].wait)]
              else
                events == old(events) && waiting == old(waiting) && threads == old(threads) && results == old(results) && ready == old(ready)
    {
      var th := waiting[k];
      if threads[th].NotWaiting? { return false; }
      EndsSatisfied(events, threads[th].wait);
      ConsumedFewer(events, threads[th].wait);
      hide Satisfied, Consumed, ResultOf, Granted, Ends;
      done := TryWaitForSignal(th, threads[th].wait);
      if done { Restart(k); }
    }

    /** The waiting threads are tried in their order, until the object is not signaled any more. */
    method TryAll(o: nat)
      requires Ordered() && o < |events| && events[o].signaled
      modifies this
      ensures Ordered() && forall j :: 0 <= j < |old(waiting)| ==> old(waiting)[j] < |old(threads)|
      ensures (events, waiting, results) == Run(old(events), old(threads), old(results), old(waiting), o)
      ensures Freed(old(threads), old(waiting), old(results), threads, waiting, results, ready)
    {
      ghost var was, list, e, said := threads, waiting, events, results;
      FreedNone(was, list, said, ready);
      hide Satisfied, Consumed, Ends, AllMustWait, Run, Freed, GoesOn, Known, ResultOf;
      var i := 0;
      assert waiting[0..] == waiting && waiting[..0] + Run(e, was, said, list, o).1 == Run(e, was, said, list, o).1;
      while i < |waiting|
        invariant Ordered() && i <= |waiting| && |events| == |e| && (i < |waiting| ==> events[o].signaled) && |threads| == |was|
        invariant forall j :: 0 <= j < |waiting| ==> waiting[j] in list
        invariant Freed(was, list, said, threads, waiting, results, ready)
        invariant var r := Run(events, was, results, waiting[i..], o); Run(e, was, said, list, o) == (r.0, waiting[..i] + r.1, r.2)
        decreases |waiting| - i
      {
        FreedHere(was, list, said, threads, waiting, results, ready, i);
        RunStep(events, was, results, waiting, i, o);
        ghost var ths, rest, res, rdy := threads, waiting, results, ready;
        var done := TryThread(i);
        if done {
          AfterRemoval(rest, i);
          FreedMore(was, list, said, ths, rest, res, rdy, i, threads, waiting, results, ready);
        }
        if !done { i := i + 1; }
        if !events[o].signaled { break; }
      }
      RunEnds(events, was, results, waiting, i, o);
      assert waiting[..i] + waiting[i..] == waiting;
    }

    /** The object is signaled, and the waiting threads are tried in their order until the signal is used up. */
    method SignalObject(o: nat)
      requires Valid() && o < |events|
      modifies this
      ensures Valid() && forall j :: 0 <= j < |old(waiting)| ==> old(waiting)[j] < |old(threads)|
      ensures (events, waiting, results) == Run(Set(old(events), o), old(threads), old(results), old(waiting), o)
      ensures Signals(old(events), old(threads), old(results), old(waiting), o, events, waiting, results)
      ensures Freed(old(threads), old(waiting), old(results), threads, waiting, results, ready)
    {
      ghost var was, list, before, said := threads, waiting, events, results;
      RunLeaves(Set(events, o), was, said, list, o, before);
      RunMeans(Set(events, o), was, said, list, o);
      events := events[o := events[o].(signaled := true)];
      hide Satisfied, Consumed, Ends, AllMustWait, Run, Freed, GoesOn, ResultOf, Frees;
      TryAll(o);
      StillMustWait(was, list, said, threads, waiting, results, ready, events);
    }

    /** A thread asks to wait: it goes on at once, or joins the back of the waiting list.  Called again when the
        thread goes on, it is done. */
    method WaitForSignal(th: nat, first: bool, objects: seq<Option<nat>>, all: bool, expire: int, memory: bool) returns (hr: Outcome)
      requires Valid() && th < |threads| && th !in waiting
      requires forall i :: 0 <= i < |objects| && objects[i].Some? ==> objects[i].value < |events|
      modifies this
      ensures Valid()
      ensures !first ==> hr == Done
      ensures first && |objects| > 64 ==> hr == InvalidParameter
      ensures first && |objects| <= 64 && (exists i :: 0 <= i < |objects| && objects[i].None?) ==> hr == NullReference
      ensures Refused(first, objects) != ThreadWaiting ==>
                hr == Refused(first, objects) && events == old(events) && threads == old(threads) && waiting == old(waiting) && results == old(results)
      ensures first && |objects| <= MAXIMUM_OBJECTS && Given(objects) ==>
                var w := Wait(Values(objects), all, expire);
                if Known(old(events), w) && Satisfied(old(events), w) then
                  && hr == Done && events == Consumed(old(events), w) && threads == old(threads) && waiting == old(waiting)
                  && results == old(results)[th := ResultOf(old(events), w)] && Granted(old(events), w, events, results[th])
                else
                  && hr == (if memory then ThreadWaiting else OutOfMemory) && events == old(events)
                  && waiting == (if memory then old(waiting) + [th] else old(waiting))
                  && threads == (if memory then old(threads)[th := WaitingFor(w)] else old(threads))
                  && results == if memory then old(results)[th := Init] else old(results)
    {
      if !first { return Done; }
      if |objects| > MAXIMUM_OBJECTS { return InvalidParameter; }
      var i := 0;
      while i < |objects|
        invariant i <= |objects| && forall k :: 0 <= k < i ==> objects[k].Some?
        invariant Valid() && events == old(events) && threads == old(threads) && waiting == old(waiting) && results == old(results)
      {
        if objects[i].None? { return NullReference; }
        i := i + 1;
      }
      var w := Wait(Values(objects), all, expire);
      EndsSatisfied(events, w);
      ConsumedFewer(events, w);
      ghost var before := events;
      hide Satisfied, Consumed, ResultOf, Granted, Ends;
      var done := TryWaitForSignal(th, w);
      if done {
        FewerMustWait(events, before, threads, waiting);
        return Done;
      }
      if !memory { return OutOfMemory; }
      threads := threads[th := WaitingFor(w)];
      results := results[th := Init];
      ready := ready - {th};
      waiting := waiting + [th];
      hr := ThreadWaiting;
    }

    /** The signal is taken back. */
    method Reset(o: nat)
      requires Valid() && o < |events|
      modifies this`events
      ensures Valid() && events == old(events)[o := old(events)[o].(signaled := false)]
    {
      hide Satisfied;
      ghost var before := events;
      events := events[o := events[o].(signaled := false)];
      FewerMustWait(events, before, threads, waiting);
    }

    /** A wait whose time is up ends without a signal. */
    method CheckWait(k: nat, now: int)
      requires Valid() && k < |waiting|
      modifies this
      ensures Valid() && events == old(events)
      ensures var t := old(threads)[old(waiting)[k]];
              if t.WaitingFor? && t.wait.expire <= now then
                && Restarted(old(threads), old(waiting), k, threads, waiting)
                && results == old(results)[old(waiting)[k] := TimedOut]
              else threads == old(threads) && waiting == old(waiting) && results == old(results)
    {
      hide Satisfied;
      var th := waiting[k];
      if threads[th].WaitingFor? && threads[th].wait.expire <= now {
        results := results[th := TimedOut];
        Restart(k);
      }
    }
  }

  predicate Given(objects: seq<Option<nat>>) {
    forall i :: 0 <= i < |objects| ==> objects[i].Some?
  }

  function Values(objects: seq<Option<nat>>): (r: seq<nat>)
    requires Given(objects)
    ensures |r| == |objects|
  {
    seq(|objects|, i requires 0 <= i < |objects| => objects[i].value)
  }

  /** Why there is nothing to wait for, if so. */
  function Refused(first: bool, objects: seq<Option<nat>>): Outcome {
    if !first then Done
    else if |objects| > MAXIMUM_OBJECTS then InvalidParameter
    else if !Given(objects) then NullReference
    else ThreadWaiting
  }

  lemma FewerMustWait(events: seq<Event>, before: seq<Event>, threads: seq<Thread>, list: seq<nat>)
    requires Fewer(events, before) && AllMustWait(before, threads, list) && ListOk(before, threads, list)
    ensures AllMustWait(events, threads, list) && ListOk(events, threads, list)
  {
    hide Satisfied;
    forall t | t in list && t < |threads| && threads[t].WaitingFor?
      ensures Known(events, threads[t].wait) && !Satisfied(events, threads[t].wait) {
      StillWaits(events, before, threads[t].wait);
    }
  }

  /** Thread `k` of the list is no longer in it. */
  ghost predicate Restarted(was: seq<Thread>, list: seq<nat>, k: nat, threads: seq<Thread>, rest: seq<nat>)
    requires k < |list|
  {
    rest == list[..k] + list[k + 1..] && list[k] < |was| && threads == was[list[k] := NotWaiting]
  }

  /** The threads that have left the list wait no more; nothing has happened to the others. */
  ghost predicate Freed(was: seq<Thread>, list: seq<nat>, said: seq<WaitResult>,
                        threads: seq<Thread>, rest: seq<nat>, results: seq<WaitResult>, ready: set<nat>) {
    && |threads| == |was| && |results| == |said|
    && (forall t :: 0 <= t < |was| ==> if t in list && t !in rest then threads[t] == NotWaiting && t in ready else threads[t] == was[t])
    && (forall t :: 0 <= t < |said| && !(t in list && t !in rest) ==> results[t] == said[t])
  }

  lemma FreedNone(was: seq<Thread>, list: seq<nat>, said: seq<WaitResult>, ready: set<nat>)
    ensures Freed(was, list, said, was, list, said, ready)
  {
  }

  lemma StillMustWait(was: seq<Thread>, list: seq<nat>, said: seq<WaitResult>,
                      threads: seq<Thread>, rest: seq<nat>, results: seq<WaitResult>, ready: set<nat>, events: seq<Event>)
    requires Freed(was, list, said, threads, rest, results, ready) && AllMustWait(events, was, rest)
    ensures AllMustWait(events, threads, rest)
  {
    hide Satisfied;
  }

  lemma FreedHere(was: seq<Thread>, list: seq<nat>, said: seq<WaitResult>,
                  threads: seq<Thread>, rest: seq<nat>, results: seq<WaitResult>, ready: set<nat>, k: nat)
    requires Freed(was, list, said, threads, rest, results, ready) && k < |rest| && rest[k] < |was|
    ensures threads[rest[k]] == was[rest[k]] && |threads| == |was|
  {
  }

  lemma FreedMore(was: seq<Thread>, list: seq<nat>, said: seq<WaitResult>,
                  threads: seq<Thread>, rest: seq<nat>, results: seq<WaitResult>, ready: set<nat>, k: nat,
                  threads': seq<Thread>, rest': seq<nat>, results': seq<WaitResult>, ready': set<nat>)
    requires Freed(was, list, said, threads, rest, results, ready) && k < |rest| && (forall j :: 0 <= j < |rest| ==> rest[j] in list)
    requires forall i, j :: 0 <= i < j < |rest| ==> rest[i] != rest[j]
    requires Restarted(threads, rest, k, threads', rest') && ready' == ready + {rest[k]} && |results'| == |results|
    requires forall t :: 0 <= t < |results'| && t != rest[k] ==> results'[t] == results[t]
    ensures Freed(was, list, said, threads', rest', results', ready')
  {
    forall t ensures t in rest' <==> t in rest && t != rest[k] {
      if t in rest && t != rest[k] {
        var i :| 0 <= i < |rest| && rest[i] == t;
        assert rest'[if i < k then i else i - 1] == t;
      }
    }
  }

  /** One thread of the list. */
  lemma RunStep(events: seq<Event>, threads: seq<Thread>, said: seq<WaitResult>, list: seq<nat>, i: nat, o: nat)
    requires o < |events| && |said| == |threads| && i < |list| && events[o].signaled && forall j :: 0 <= j < |list| ==> list[j] < |threads|
    ensures var t := threads[list[i]];
            if GoesOn(events, t) then
              Run(events, threads, said, list[i..], o)
                == Run(Consumed(events, t.wait), threads, said[list[i] := ResultOf(events, t.wait)], (list[..i] + list[i + 1..])[i..], o)
            else var r := Run(events, threads, said, list[i + 1..], o);
                 var q := Run(events, threads, said, list[i..], o); q.0 == r.0 && list[..i] + q.1 == list[..i + 1] + r.1 && q.2 == r.2
  {
    RunFirst(events, threads, said, list[i..], o);
    hide Ends, Consumed, ResultOf, Run;
    SplitAt(list, i, Run(events, threads, said, list[i + 1..], o).1);
  }

  lemma SplitAt(list: seq<nat>, i: nat, more: seq<nat>)
    requires i < |list|
    ensures list[i..] != [] && list[i..][0] == list[i] && list[i..][1..] == list[i + 1..] == (list[..i] + list[i + 1..])[i..]
    ensures list[..i] + ([list[i]] + more) == list[..i + 1] + more
  {
    assert list[..i + 1] == list[..i] + [list[i]];
  }

  lemma AfterRemoval(list: seq<nat>, i: nat)
    requires i < |list|
    ensures (list[..i] + list[i + 1..])[..i] == list[..i]
  {
  }

  lemma RunEnds(events: seq<Event>, threads: seq<Thread>, said: seq<WaitResult>, list: seq<nat>, i: nat, o: nat)
    requires o < |events| && |said| == |threads| && i <= |list| && (i == |list| || !events[o].signaled) && forall j :: 0 <= j < |list| ==> list[j] < |threads|
    ensures Run(events, threads, said, list[i..], o) == (events, list[i..], said)
  {
  }

  lemma {:induction false} FirstIs(events: seq<Event>, objects: seq<nat>, i: nat)
    requires (forall k :: 0 <= k < |objects| ==> objects[k] < |events|) && i < |objects| && events[objects[i]].signaled
    requires forall k :: 0 <= k < i ==> !events[objects[k]].signaled
    ensures FirstSignaled(events, objects) == i
  {
    if i > 0 { FirstIs(events, objects[1..], i - 1); }
  }
}
