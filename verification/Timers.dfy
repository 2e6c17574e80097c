/** Timers that fire again and again. */
module Timers {

  const TIMEOUT_INFINITE := 0x7FFF_FFFF_FFFF_FFFF

  /** `t` is a whole number of periods from `base`. */
  ghost predicate OnBeat(t: int, base: int, period: int) {
    exists k: int :: t == base + k * period
  }

  /** The first time on the beat after `now`, counted from a time `late` on the beat that is not after `now`. */
  lemma NextBeat(base: int, period: int, late: int, now: int)
    requires period > 0 && late <= now && OnBeat(late, base, period)
    ensures var t := now - (now - late) % period + period;
            OnBeat(t, base, period) && now < t <= now + period && forall u :: OnBeat(u, base, period) && u > now ==> t <= u
  {
    var k: int :| late == base + k * period;
    var q, r := (now - late) / period, (now - late) % period;
    var t := now - r + period;
    assert now - late == q * period + r;
    assert t == base + (k + q + 1) * period by { Distribute(k, q, 1, period); }
    forall u | OnBeat(u, base, period) && u > now ensures t <= u {
      var j: int :| u == base + j * period;
      if j < k + q + 1 { MulOrder(j, k + q, period); Distribute(k, q, 0, period); }
      MulOrder(k + q + 1, j, period);
    }
  }

  lemma Distribute(a: int, b: int, c: int, p: int)
    ensures (a + b + c) * p == a * p + b * p + c * p
  {
  }

  lemma MulOrder(a: int, b: int, p: int)
    requires p > 0
    ensures a <= b ==> a * p <= b * p
  {
  }

  lemma OneMoreBeat(t: int, base: int, period: int)
    requires OnBeat(t, base, period)
    ensures OnBeat(t + period, base, period)
  {
    var k: int :| t == base + k * period;
    assert t + period == base + (k + 1) * period;
  }

  /** Being on the beat is a matter of the remainder. */
  lemma OnBeatIs(t: int, base: int, period: nat)
    requires period > 0
    ensures OnBeat(t, base, period) <==> (t - base) % period == 0
  {
    if (t - base) % period == 0 {
      assert t == base + (t - base) / period * period;
    }
    if OnBeat(t, base, period) {
      var k: int :| t == base + k * period;
      Multiple(k, period);
    }
  }

  lemma Multiple(k: int, p: nat)
    requires p > 0
    ensures (k * p) % p == 0
  {
    var q, r := (k * p) / p, (k * p) % p;
    assert k * p == q * p + r;
    if k > q { MulOrder(q + 1, k, p); }
    if k < q { MulOrder(k, q - 1, p); }
  }

  class Timer {
    var enabled: bool
    var recurring: bool
    var triggered: bool
    var executing: bool
    var timeExpire: int
    var timeFrequency: int
    var timeLastExpiration: int
    ghost var base: int

    /** Every time at which the timer has expired or will expire is on the beat. */
    ghost predicate Valid()
      reads this
    {
      && timeFrequency > 0
      && (timeExpire == TIMEOUT_INFINITE || OnBeat(timeExpire, base, timeFrequency))
      && (executing ==> OnBeat(timeLastExpiration, base, timeFrequency))
      && (triggered ==> !executing && timeExpire != TIMEOUT_INFINITE)
    }

    constructor (first: int, period: int)
      requires period > 0
      ensures Valid() && base == first && enabled && recurring && timeExpire == first && timeFrequency == period && !triggered && !executing
    {
      enabled, recurring, triggered, executing := true, true, false, false;
      timeExpire, timeFrequency, timeLastExpiration, base := first, period, 0, first;
      new;
      assert first == first + 0 * period;
    }

    /** The time is checked; `referenced` says whether the timer is still in use. */
    method CheckTimer(now: int, referenced: bool)
      requires Valid()
      modifies this`triggered
      ensures Valid()
      ensures triggered <==> old(triggered) || (enabled && timeExpire <= now && referenced && !executing && timeExpire != TIMEOUT_INFINITE)
    {
      if enabled && timeExpire != TIMEOUT_INFINITE && timeExpire <= now {
        if !referenced { return; }
        if executing { return; }
        triggered := true;
      }
    }

    /** The thread of the timer starts, if it can.  If it cannot, the timer is left triggered but without its time,
        so that the next attempt would take the time that means never for its last one. */
    method SpawnTimer(started: bool)
      requires triggered && !executing
      modifies this`timeLastExpiration, this`timeExpire, this`executing, this`triggered
      ensures timeLastExpiration == old(timeExpire) && timeExpire == TIMEOUT_INFINITE
      ensures (executing <==> started) && (triggered <==> !started) && (old(Valid()) ==> (Valid() <==> started))
    {
      timeLastExpiration := timeExpire;
      timeExpire := TIMEOUT_INFINITE;
      if started {
        executing := true;
        triggered := false;
      }
    }

    /** A timer whose thread starts at the second attempt is off its beat, unless the time that means never is on it. */
    static method LosesItsBeat(first: int, period: nat) returns (t: Timer)
      requires period > 0 && first != TIMEOUT_INFINITE
      ensures t.executing && t.recurring && t.base == first && t.timeFrequency == period && t.timeLastExpiration == TIMEOUT_INFINITE
      ensures OnBeat(t.timeLastExpiration, first, period) <==> (TIMEOUT_INFINITE - first) % period == 0
      ensures t.Valid() <==> (TIMEOUT_INFINITE - first) % period == 0
    {
      t := new Timer(first, period);
      t.CheckTimer(first, true);
      t.SpawnTimer(false);
      t.SpawnTimer(true);
      OnBeatIs(TIMEOUT_INFINITE, first, period);
    }

    /** The thread of the timer has ended. */
    method ThreadTerminationCallback(now: int)
      requires Valid() && executing
      modifies this`executing, this`timeExpire
      ensures Valid() && !executing
      ensures !(recurring && enabled) ==> timeExpire == old(timeExpire)
      ensures recurring && enabled ==> Rearmed(timeLastExpiration, base, timeFrequency, now, timeExpire)
    {
      executing := false;
      Reschedule(now);
    }

    /** The next time: a period after the last, or, if that has gone by, the first on the beat after now. */
    method Reschedule(now: int)
      requires Valid() && OnBeat(timeLastExpiration, base, timeFrequency) && !triggered
      modifies this`timeExpire
      ensures Valid()
      ensures !(recurring && enabled) ==> timeExpire == old(timeExpire)
      ensures recurring && enabled ==> Rearmed(timeLastExpiration, base, timeFrequency, now, timeExpire)
    {
      if recurring && enabled {
        var expire := timeLastExpiration + timeFrequency;
        OneMoreBeat(timeLastExpiration, base, timeFrequency);
        if expire < now {
          NextBeat(base, timeFrequency, expire, now);
          expire := now - (now - expire) % timeFrequency + timeFrequency;
        }
        timeExpire := expire;
      }
    }
  }

  /** The new time is on the beat: the one after the last, if that has not gone by, or the least after now. */
  ghost predicate Rearmed(last: int, base: int, period: int, now: int, expire: int) {
    && OnBeat(expire, base, period)
    && if last + period >= now then expire == last + period
       else expire > now && forall u :: OnBeat(u, base, period) && u > now ==> expire <= u
  }
}
