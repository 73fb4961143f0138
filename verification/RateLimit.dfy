/** The per-key request limiter (RateLimiter::check). Its own comment calls it a sliding
    window; the code keeps a fixed window anchored at an admitted request. Times are
    nanoseconds of a clock the caller reads before taking the per-key lock. */
module RateLimit {
  import opened Common

  const SECOND: nat := 1_000_000_000

  datatype Window = Window(start: nat, count: nat)

  datatype Decision = Decision(allowed: bool, window: Option<Window>)

  /** One call of check on what is stored for the key. duration_since saturates at zero. */
  function Decide(max: nat, stored: Option<Window>, now: nat): Decision {
    if max == 0 then Decision(true, stored)
    else
      var w := stored.GetOr(Window(now, 0));
      if now >= w.start && (now - w.start) / SECOND >= 1 then Decision(true, Some(Window(now, 1)))
      else if w.count < max then Decision(true, Some(Window(w.start, w.count + 1)))
      else Decision(false, Some(w))
  }

  function Stored(counters: map<string, Window>, key: string): Option<Window> {
    if key in counters then Some(counters[key]) else None
  }

  class RateLimiter {
    const maxPerSecond: nat
    var counters: map<string, Window>

    constructor (maxPerSecond: nat)
      ensures this.maxPerSecond == maxPerSecond && counters == map[]
    {
      this.maxPerSecond := maxPerSecond;
      counters := map[];
    }

    method Check(key: string, now: nat) returns (allowed: bool)
      modifies this
      ensures allowed == Decide(maxPerSecond, Stored(old(counters), key), now).allowed
      ensures Stored(counters, key) == Decide(maxPerSecond, Stored(old(counters), key), now).window
      ensures forall k :: k != key ==> Stored(counters, k) == Stored(old(counters), k)
    {
      if maxPerSecond == 0 {
        return true;
      }
      if key !in counters {
        counters := counters[key := Window(now, 0)];
      }
      var entry := counters[key];
      var elapsed := if now >= entry.start then now - entry.start else 0;
      if elapsed / SECOND >= 1 {
        counters := counters[key := Window(now, 1)];
        return true;
      } else if entry.count < maxPerSecond {
        counters := counters[key := Window(entry.start, entry.count + 1)];
        return true;
      } else {
        return false;
      }
    }
  }

  // ---- One key's requests, in the order in which they take the lock ----

  /** What is stored for the key after requests at these times. */
  function After(max: nat, times: seq<nat>): Option<Window> {
    if times == [] then None
    else Decide(max, After(max, times[..|times| - 1]), times[|times| - 1]).window
  }

  /** Whether request i is let through. */
  predicate Admitted(max: nat, times: seq<nat>, i: nat)
    requires i < |times|
  {
    Decide(max, After(max, times[..i]), times[i]).allowed
  }

  /** How many requests are let through at times in [from, until). */
  function AdmittedIn(max: nat, times: seq<nat>, from: nat, until: nat): nat {
    if times == [] then 0
    else
      var n := |times| - 1;
      AdmittedIn(max, times[..n], from, until)
      + Bit(Decide(max, After(max, times[..n]), times[n]).allowed && from <= times[n] < until)
  }

  ghost predicate NonDecreasing(times: seq<nat>) {
    forall i, j :: 0 <= i < j < |times| ==> times[i] <= times[j]
  }

  /** What n windows can admit: n * max, as a sum. */
  function Quota(n: nat, max: nat): nat {
    if n == 0 then 0 else Quota(n - 1, max) + max
  }

  lemma {:induction false} QuotaIsProduct(n: nat, max: nat)
    ensures Quota(n, max) == n * max
  {
    if n > 0 {
      QuotaIsProduct(n - 1, max);
      assert (n - 1) * max + max == n * max;
    }
  }

  lemma {:induction false} QuotaOfMore(a: nat, b: nat, max: nat)
    requires a < b
    ensures Quota(a, max) + max == Quota(a + 1, max) <= Quota(b, max)
  {
    if a + 1 < b {
      QuotaOfMore(a, b - 1, max);
    }
  }

  /** How many whole seconds after from. */
  function SecondsAfter(from: nat, t: nat): nat
    requires from <= t
  {
    (t - from) / SECOND
  }

  lemma LaterSeconds(from: nat, t: nat, t': nat)
    requires from <= t && t + SECOND <= t'
    ensures SecondsAfter(from, t) < SecondsAfter(from, t')
  {
  }

  /** How far admissions in [from, from + L seconds) can have got, by where the current window starts. */
  ghost predicate BoundInv(max: nat, w: Window, last: nat, n: nat, from: nat, L: nat)
    requires max >= 1
  {
    && 1 <= w.count <= max && w.start <= last
    && (last < from ==> n == 0)
    && (w.start < from ==> n <= w.count - 1)
    && (from <= w.start < from + L * SECOND ==> n <= max - 1 + Quota(SecondsAfter(from, w.start), max) + w.count)
    && n <= Quota(L, max) + max - 1
  }

  /** A window that starts inside the stretch leaves room for itself. */
  lemma RoomForOne(max: nat, start: nat, from: nat, L: nat)
    requires from <= start < from + L * SECOND
    ensures Quota(SecondsAfter(from, start), max) + max <= Quota(L, max)
  {
    hide Quota;
    assert SecondsAfter(from, start) < L;
    QuotaOfMore(SecondsAfter(from, start), L, max);
  }

  lemma NewWindowKeepsBound(max: nat, w: Window, last: nat, n: nat, from: nat, L: nat, now: nat)
    requires max >= 1 && BoundInv(max, w, last, n, from, L) && last <= now && now >= w.start + SECOND
    ensures BoundInv(max, Window(now, 1), now, n + Bit(from <= now < from + L * SECOND), from, L)
  {
    hide Quota, SecondsAfter;
    if from <= now < from + L * SECOND {
      RoomForOne(max, now, from, L);
      if from <= w.start {
        LaterSeconds(from, w.start, now);
        QuotaOfMore(SecondsAfter(from, w.start), SecondsAfter(from, now), max);
      }
    }
  }

  lemma SameWindowKeepsBound(max: nat, w: Window, last: nat, n: nat, from: nat, L: nat, now: nat)
    requires max >= 1 && L >= 1 && BoundInv(max, w, last, n, from, L) && last <= now && w.count < max
    ensures BoundInv(max, w.(count := w.count + 1), now, n + Bit(from <= now < from + L * SECOND), from, L)
  {
    hide Quota, SecondsAfter;
    QuotaOfMore(0, L, max);
    if from <= w.start < from + L * SECOND {
      RoomForOne(max, w.start, from, L);
    }
  }

  lemma BoundStep(max: nat, w: Window, last: nat, n: nat, from: nat, L: nat, now: nat)
    requires max >= 1 && L >= 1 && BoundInv(max, w, last, n, from, L) && last <= now
    ensures var d := Decide(max, Some(w), now);
      d.window.Some? &&
      BoundInv(max, d.window.value, now, n + Bit(d.allowed && from <= now < from + L * SECOND), from, L)
  {
    if (now - w.start) / SECOND >= 1 {
      NewWindowKeepsBound(max, w, last, n, from, L, now);
    } else if w.count < max {
      SameWindowKeepsBound(max, w, last, n, from, L, now);
    }
  }

  lemma {:induction false} BoundHolds(max: nat, times: seq<nat>, from: nat, L: nat)
    requires max >= 1 && L >= 1 && NonDecreasing(times) && times != []
    ensures After(max, times).Some?
    ensures BoundInv(max, After(max, times).value, times[|times| - 1],
                     AdmittedIn(max, times, from, from + L * SECOND), from, L)
  {
    hide Quota, SecondsAfter;
    var n := |times| - 1;
    QuotaOfMore(0, L, max);
    if n == 0 {
      assert times[..0] == [];
    } else {
      var before := times[..n];
      BoundHolds(max, before, from, L);
      BoundStep(max, After(max, before).value, before[n - 1], AdmittedIn(max, before, from, from + L * SECOND), from, L, times[n]);
    }
  }

  /** Rate bound: whatever the arrival times, no stretch of L seconds lets through more than
      (L+1)*max - 1 requests of one key. */
  lemma RateBound(max: nat, times: seq<nat>, from: nat, L: nat)
    requires max >= 1 && L >= 1 && NonDecreasing(times)
    ensures AdmittedIn(max, times, from, from + L * SECOND) <= (L + 1) * max - 1
  {
    hide Quota;
    QuotaIsProduct(L + 1, max);
    QuotaOfMore(0, L + 1, max);
    QuotaOfMore(L, L + 1, max);
    if times != [] {
      BoundHolds(max, times, from, L);
    }
  }

  // ---- The bound is attained ----

  function Burst(t: nat, k: nat): seq<nat> {
    seq(k, _ => t)
  }

  lemma OneMoreFits(max: nat, times: seq<nat>, t: nat, from: nat, until: nat, w: Window)
    requires After(max, times) == Some(w) && w.start <= t < w.start + SECOND && w.count < max && from <= t < until
    ensures After(max, times + [t]) == Some(Window(w.start, w.count + 1))
    ensures AdmittedIn(max, times + [t], from, until) == AdmittedIn(max, times, from, until) + 1
  {
    assert (times + [t])[..|times|] == times;
  }

  /** k more requests at one moment of the current window, all within its allowance. */
  lemma {:induction false} BurstFits(max: nat, times: seq<nat>, t: nat, k: nat, from: nat, until: nat, w: Window)
    requires After(max, times) == Some(w) && w.start <= t < w.start + SECOND && w.count + k <= max
    requires from <= t < until
    ensures After(max, times + Burst(t, k)) == Some(Window(w.start, w.count + k))
    ensures AdmittedIn(max, times + Burst(t, k), from, until) == AdmittedIn(max, times, from, until) + k
  {
    hide After, AdmittedIn, Decide;
    if k == 0 {
      assert times + Burst(t, k) == times;
    } else {
      var before := times + Burst(t, k - 1);
      BurstFits(max, times, t, k - 1, from, until, w);
      OneMoreFits(max, before, t, from, until, Window(w.start, w.count + k - 1));
      assert times + Burst(t, k) == before + [t];
    }
  }

  /** One request at 0, max - 1 just before the first second is over, then max on every full second. */
  function Worst(max: nat, L: nat): seq<nat>
    requires max >= 1
  {
    if L == 0 then [0] + Burst(SECOND - 1, max - 1)
    else Worst(max, L - 1) + [L * SECOND] + Burst(L * SECOND, max - 1)
  }

  lemma {:induction false} WorstIsOrdered(max: nat, L: nat)
    requires max >= 1
    ensures NonDecreasing(Worst(max, L))
    ensures forall i :: 0 <= i < |Worst(max, L)| ==> Worst(max, L)[i] < (L + 1) * SECOND
  {
    if L > 0 {
      WorstIsOrdered(max, L - 1);
      assert forall i :: |Worst(max, L - 1)| <= i < |Worst(max, L)| ==> Worst(max, L)[i] == L * SECOND;
    }
  }

  /** A request a full second after the window's start opens the next window. */
  lemma OpensWindow(max: nat, times: seq<nat>, t: nat, from: nat, until: nat, w: Window)
    requires max >= 1 && After(max, times) == Some(w) && t >= w.start + SECOND && from <= t < until
    ensures After(max, times + [t]) == Some(Window(t, 1))
    ensures AdmittedIn(max, times + [t], from, until) == AdmittedIn(max, times, from, until) + 1
  {
    assert (times + [t])[..|times|] == times;
  }

  lemma FirstRequest(max: nat, until: nat)
    requires max >= 1
    ensures After(max, [0]) == Some(Window(0, 1)) && AdmittedIn(max, [0], SECOND - 1, until) == 0
  {
    assert [0][..0] == [];
  }

  lemma {:induction false} WorstRun(max: nat, L: nat, until: nat)
    requires max >= 1 && until > L * SECOND && until >= SECOND
    ensures After(max, Worst(max, L)) == Some(Window(L * SECOND, max))
    ensures AdmittedIn(max, Worst(max, L), SECOND - 1, until) == L * max + max - 1
  {
    hide After, AdmittedIn, Decide, Burst;
    if L == 0 {
      FirstRequest(max, until);
      BurstFits(max, [0], SECOND - 1, max - 1, SECOND - 1, until, Window(0, 1));
    } else {
      var before, t := Worst(max, L - 1), L * SECOND;
      WorstRun(max, L - 1, until);
      assert (L - 1) * max + max == L * max;
      OpensWindow(max, before, t, SECOND - 1, until, Window((L - 1) * SECOND, max));
      BurstFits(max, before + [t], t, max - 1, SECOND - 1, until, Window(t, 1));
    }
  }

  /** For every limit and every length there is a run that lets through exactly (L+1)*max - 1
      requests in L seconds: RateBound cannot be improved. */
  lemma RateBoundAttained(max: nat, L: nat) returns (times: seq<nat>, from: nat)
    requires max >= 1 && L >= 1
    ensures NonDecreasing(times) && AdmittedIn(max, times, from, from + L * SECOND) == (L + 1) * max - 1
  {
    times, from := Worst(max, L), SECOND - 1;
    WorstRun(max, L, from + L * SECOND);
    WorstIsOrdered(max, L);
    assert (L + 1) * max == L * max + max;
  }

  // ---- No unjust rejection ----

  lemma {:induction false} EarlierFromCountsMore(max: nat, times: seq<nat>, from: nat, from': nat, until: nat)
    requires from <= from'
    ensures AdmittedIn(max, times, from, until) >= AdmittedIn(max, times, from', until)
  {
    if times != [] {
      EarlierFromCountsMore(max, times[..|times| - 1], from, from', until);
    }
  }

  /** The count of the current window is backed by admissions since its start. */
  lemma {:induction false} WindowIsBacked(max: nat, times: seq<nat>, until: nat)
    requires max >= 1 && NonDecreasing(times) && times != [] && times[|times| - 1] < until
    ensures After(max, times).Some? && After(max, times).value.start <= times[|times| - 1]
    ensures AdmittedIn(max, times, After(max, times).value.start, until) >= After(max, times).value.count
  {
    var n := |times| - 1;
    if n == 0 {
      assert times[..0] == [];
    } else {
      WindowIsBacked(max, times[..n], until);
    }
  }

  /** The first moment less than a second before t. */
  function SecondBefore(t: nat): nat {
    if t + 1 >= SECOND then t + 1 - SECOND else 0
  }

  /** A refusal at time t means max earlier admissions less than a second before. */
  lemma RefusalIsJust(max: nat, times: seq<nat>, i: nat)
    requires NonDecreasing(times) && i < |times| && !Admitted(max, times, i)
    ensures max >= 1
    ensures AdmittedIn(max, times[..i], SecondBefore(times[i]), times[i] + 1) >= max
  {
    var t, earlier := times[i], times[..i];
    assert i > 0;
    WindowIsBacked(max, earlier, t + 1);
    EarlierFromCountsMore(max, earlier, SecondBefore(t), After(max, earlier).value.start, t + 1);
  }

  function Within(from: nat, until: nat): nat -> bool {
    (t: nat) => from <= t < until
  }

  lemma {:induction false} AdmissionsAreArrivals(max: nat, times: seq<nat>, from: nat, until: nat)
    ensures AdmittedIn(max, times, from, until) <= Count(times, Within(from, until))
  {
    if times != [] {
      AdmissionsAreArrivals(max, times[..|times| - 1], from, until);
    }
  }

  lemma {:induction false} PrefixArrivals(times: seq<nat>, n: nat, from: nat, until: nat, until': nat)
    requires n <= |times| && until <= until'
    ensures Count(times[..n], Within(from, until)) <= Count(times, Within(from, until'))
  {
    var m := |times| - 1;
    if times == [] {
      assert times[..n] == [];
    } else if n == |times| {
      assert times[..n] == times;
      PrefixArrivals(times[..m], m, from, until, until');
      assert times[..m][..m] == times[..m];
    } else {
      PrefixArrivals(times[..m], n, from, until, until');
      assert times[..m][..n] == times[..n];
    }
  }

  function ArrivalsInSecondFrom(times: seq<nat>, from: nat): nat {
    Count(times, Within(from, from + SECOND))
  }

  /** A key whose arrivals never exceed max in any stretch shorter than a second is never refused. */
  lemma ModestKeyNeverRefused(max: nat, times: seq<nat>, i: nat)
    requires NonDecreasing(times) && i < |times|
    requires forall from: nat :: ArrivalsInSecondFrom(times, from) <= max
    ensures Admitted(max, times, i)
  {
    if !Admitted(max, times, i) {
      var t, from := times[i], SecondBefore(times[i]);
      assert ArrivalsInSecondFrom(times, from) <= max;
      RefusalIsJust(max, times, i);
      AdmissionsAreArrivals(max, times[..i], from, t + 1);
      assert times[..i + 1] == times[..i] + [t];
      CountAppend(times[..i], t, Within(from, t + 1));
      PrefixArrivals(times, i + 1, from, t + 1, from + SECOND);
      assert false;
    }
  }

  // ---- Keys do not affect each other ----

  datatype Arrival = Arrival(key: string, time: nat)

  /** The stored windows after a run of checks for many keys. */
  function Counters(max: nat, arrivals: seq<Arrival>): map<string, Window> {
    if arrivals == [] then map[]
    else
      var n := |arrivals| - 1;
      var before := Counters(max, arrivals[..n]);
      match Decide(max, Stored(before, arrivals[n].key), arrivals[n].time).window
      case None => before
      case Some(w) => before[arrivals[n].key := w]
  }

  /** The arrival times of one key's own requests. */
  function TimesOf(arrivals: seq<Arrival>, key: string): seq<nat> {
    if arrivals == [] then []
    else
      var n := |arrivals| - 1;
      TimesOf(arrivals[..n], key) + if arrivals[n].key == key then [arrivals[n].time] else []
  }

  lemma {:induction false} StoredAsIfAlone(max: nat, arrivals: seq<Arrival>, key: string)
    ensures Stored(Counters(max, arrivals), key) == After(max, TimesOf(arrivals, key))
  {
    if arrivals != [] {
      var n := |arrivals| - 1;
      StoredAsIfAlone(max, arrivals[..n], key);
      var own := TimesOf(arrivals[..n], key);
      if arrivals[n].key == key {
        assert (own + [arrivals[n].time])[..|own|] == own;
      } else {
        assert own + [] == own;
      }
    }
  }

  /** In any interleaving, each request is decided as in a run of its own key's requests alone. */
  lemma KeysAreIndependent(max: nat, arrivals: seq<Arrival>, i: nat)
    requires i < |arrivals|
    ensures var key := arrivals[i].key;
      var own := TimesOf(arrivals[..i + 1], key);
      own != [] && own[|own| - 1] == arrivals[i].time &&
      Decide(max, Stored(Counters(max, arrivals[..i]), key), arrivals[i].time).allowed == Admitted(max, own, |own| - 1)
  {
    var key := arrivals[i].key;
    StoredAsIfAlone(max, arrivals[..i], key);
    assert arrivals[..i + 1][..i] == arrivals[..i];
    var own := TimesOf(arrivals[..i], key);
    assert (own + [arrivals[i].time])[..|own|] == own;
  }
}
