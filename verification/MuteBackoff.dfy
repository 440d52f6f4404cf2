/** The mute backoff of repeated notifications under one label (service/singleton/notification.go:196-236).
    The check and the cache update are one step; times are nanoseconds. */
module MuteBackoff {
  import opened GoIntegers
  import opened Wrappers

  const MINUTE := 60_000_000_000
  const FIRST_DELAY := 15 * MINUTE
  const MAX_DELAY := 24 * 60 * MINUTE
  const CACHE_SLACK := 10 * MINUTE

  /** The cache entry: quiet period, its end, and when the cache drops the entry. */
  datatype Entry = Entry(duration: int, until: int, expires: int)

  /** What the cache returns at `now`. */
  function Lookup(e: Option<Entry>, now: int): Option<Entry> {
    if e.Some? && now > e.value.expires then None else e
  }

  function Doubled(duration: int): int {
    if duration * 2 > MAX_DELAY then MAX_DELAY else duration * 2
  }

  function Muted(duration: int, now: int): Entry {
    Entry(duration, now + duration, now + duration + CACHE_SLACK)
  }

  datatype Outcome = Outcome(delivered: bool, entry: Option<Entry>)

  function Notify(e: Option<Entry>, now: int): Outcome {
    match Lookup(e, now)
    case None => Outcome(true, Some(Muted(FIRST_DELAY, now)))
    case Some(h) =>
      if now > h.until then Outcome(true, Some(Muted(Doubled(h.duration), now)))
      else Outcome(false, e)
  }

  /** The cache and the deliveries it let through, as the code updates them. */
  class Cache {
    var entry: Option<Entry>

    constructor ()
      ensures entry == None
    {
      entry := None;
    }

    method SendNotification(now: int) returns (flag: bool)
      modifies this
      ensures Notify(old(entry), now) == Outcome(flag, entry)
      ensures var cached := old(entry).Some? && now <= old(entry).value.expires;
        && (flag <==> !cached || now > old(entry).value.until)
        && (!flag ==> entry == old(entry))
        && (flag ==>
              && entry.Some?
              && entry.value.duration == (if !cached then 900_000_000_000
                                          else if old(entry).value.duration > 43_200_000_000_000 then 86_400_000_000_000
                                          else 2 * old(entry).value.duration)
              && entry.value.until == now + entry.value.duration
              && entry.value.expires == entry.value.until + 600_000_000_000)
    {
      flag := false;
      if entry.Some? && now <= entry.value.expires {
        var nHistory := entry.value;
        if now > nHistory.until {
          flag := true;
          var duration := nHistory.duration * 2;
          if duration > 24 * 60 * MINUTE {
            duration := 24 * 60 * MINUTE;
          }
          entry := Some(Entry(duration, now + duration, now + duration + CACHE_SLACK));
        }
      } else {
        flag := true;
        entry := Some(Entry(FIRST_DELAY, now + FIRST_DELAY, now + FIRST_DELAY + CACHE_SLACK));
      }
    }
  }

  // ---- runs without unmute

  /** Delivery times and the quiet period that followed each. */
  datatype Log = Log(entry: Option<Entry>, times: seq<int>, periods: seq<int>)

  function Run(times: seq<int>): Log {
    if times == [] then Log(None, [], [])
    else
      var l, now := Run(times[..|times| - 1]), times[|times| - 1];
      var o := Notify(l.entry, now);
      if o.delivered then Log(o.entry, l.times + [now], l.periods + [o.entry.value.duration])
      else Log(o.entry, l.times, l.periods)
  }

  /** The period after `k` doublings. */
  function Period(k: nat): int {
    if k == 0 then FIRST_DELAY else Doubled(Period(k - 1))
  }

  function Pow2(k: nat): nat {
    if k == 0 then 1 else 2 * Pow2(k - 1)
  }

  lemma {:induction false} PeriodClosedForm(k: nat)
    ensures Period(k) == if FIRST_DELAY * Pow2(k) > MAX_DELAY then MAX_DELAY else FIRST_DELAY * Pow2(k)
    ensures FIRST_DELAY <= Period(k) <= MAX_DELAY
  {
    if k > 0 {
      PeriodClosedForm(k - 1);
    }
  }

  /** A delivery is a repeat if the entry of the previous one was still cached. */
  predicate Repeat(l: Log, i: nat)
    requires |l.times| == |l.periods| && 0 < i < |l.times|
  {
    l.times[i] <= l.times[i - 1] + l.periods[i - 1] + CACHE_SLACK
  }

  ghost predicate LogOk(l: Log) {
    && |l.times| == |l.periods|
    && (forall i :: 0 <= i < |l.periods| ==> FIRST_DELAY <= l.periods[i] <= MAX_DELAY)
    && (forall i :: 0 < i < |l.times| ==> Gap(l, i))
    && (l.entry.None? <==> l.times == [])
    && (l.times != [] ==> l.entry == Some(Muted(l.periods[|l.times| - 1], l.times[|l.times| - 1])))
    && (l.times != [] ==> l.periods[0] == FIRST_DELAY)
  }

  /** Consecutive deliveries: more than the quiet period apart, and the next period is twice the last
      one, up to a day, or starts over once the cache has dropped the entry. */
  ghost predicate Gap(l: Log, i: nat)
    requires |l.times| == |l.periods| && 0 < i < |l.times|
  {
    && l.times[i] > l.times[i - 1] + l.periods[i - 1]
    && l.periods[i] == if Repeat(l, i) then Doubled(l.periods[i - 1]) else FIRST_DELAY
  }

  lemma {:induction false} RunOk(times: seq<int>)
    ensures LogOk(Run(times))
  {
    if times != [] {
      var before, now := times[..|times| - 1], times[|times| - 1];
      RunOk(before);
      var l, n := Run(before), Run(times);
      var o := Notify(l.entry, now);
      if o.delivered {
        var k := |l.times|;
        forall i | 0 < i < |n.times|
          ensures Gap(n, i)
        {
          if i < k {
            assert Gap(l, i);
            assert n.times[i] == l.times[i] && n.times[i - 1] == l.times[i - 1];
            assert n.periods[i] == l.periods[i] && n.periods[i - 1] == l.periods[i - 1];
          } else {
            assert n.times[k - 1] == l.times[k - 1] && n.periods[k - 1] == l.periods[k - 1];
          }
        }
      }
    }
  }

  /** A notification is suppressed exactly during the quiet period after the last delivery. */
  lemma SuppressedOnlyWhileQuiet(times: seq<int>, now: int)
    ensures var l := Run(times);
      |l.times| == |l.periods|
      && (!Notify(l.entry, now).delivered <==>
            l.times != [] && now <= l.times[|l.times| - 1] + l.periods[|l.times| - 1])
  {
    RunOk(times);
  }

  /** In an unbroken series of repeats that starts with a fresh entry at delivery `i`, the k-th period
      is min(15 minutes * 2^k, one day). */
  lemma {:induction false} PeriodsDouble(l: Log, i: nat, k: nat)
    requires LogOk(l) && i + k < |l.times|
    requires l.periods[i] == FIRST_DELAY
    requires forall j :: i < j <= i + k ==> Repeat(l, j)
    ensures l.periods[i + k] == if FIRST_DELAY * Pow2(k) > MAX_DELAY then MAX_DELAY else FIRST_DELAY * Pow2(k)
  {
    PeriodClosedForm(k);
    PeriodsFollow(l, i, k);
  }

  lemma {:induction false} PeriodsFollow(l: Log, i: nat, k: nat)
    requires LogOk(l) && i + k < |l.times|
    requires l.periods[i] == FIRST_DELAY
    requires forall j :: i < j <= i + k ==> Repeat(l, j)
    ensures l.periods[i + k] == Period(k)
  {
    if k > 0 {
      PeriodsFollow(l, i, k - 1);
      assert Gap(l, i + k);
      assert Repeat(l, i + k);
    }
  }

  /** The shortest time between deliveries that are not repeats. */
  const SPREAD := FIRST_DELAY + CACHE_SLACK + 1

  /** A repeat may follow sooner than that, but the next delivery then waits for at least twice the
      first delay; so over any stretch at most the slack of the cache is gained. */
  lemma {:induction false} DeliveriesSpread(l: Log, i: nat, j: nat)
    requires LogOk(l) && i <= j < |l.times|
    ensures l.times[j] - l.times[i] >= (j - i) * SPREAD - CACHE_SLACK
    ensures l.periods[j] < 2 * FIRST_DELAY ==> l.times[j] - l.times[i] >= (j - i) * SPREAD
    ensures l.periods[j] == FIRST_DELAY || l.periods[j] >= 2 * FIRST_DELAY
    decreases j
  {
    if i < j {
      assert Gap(l, j);
      DeliveriesSpread(l, i, j - 1);
      assert (j - i) * SPREAD == (j - 1 - i) * SPREAD + SPREAD;
    } else if j > 0 {
      assert Gap(l, j);
      DeliveriesSpread(l, j - 1, j - 1);
    }
  }

  /** The largest number of deliveries in a window of length `w`: one per 25 minutes, roughly. */
  function MaxDeliveries(w: nat): nat {
    (w + CACHE_SLACK) / SPREAD + 1
  }

  /** However often a notification is repeated: if deliveries i..j-1 fall into a window, there are no
      more of them. */
  lemma DeliveriesPerWindow(times: seq<int>, from: int, w: nat, i: nat, j: nat)
    requires var l := Run(times);
      i <= j <= |l.times| && forall k :: i <= k < j ==> from <= l.times[k] <= from + w
    ensures j - i <= MaxDeliveries(w)
  {
    hide MaxDeliveries;
    NotNegative(w);
    if j - i >= 1 {
      RunOk(times);
      var l := Run(times);
      DeliveriesSpread(l, i, j - 1);
      assert from <= l.times[i] && l.times[j - 1] <= from + w;
      hide Run, LogOk;
      WindowCount(j - 1 - i, w);
    }
  }

  lemma NotNegative(w: nat)
    ensures MaxDeliveries(w) >= 1
  {
  }

  lemma WindowCount(n: nat, w: nat)
    requires n * SPREAD - CACHE_SLACK <= w
    ensures n + 1 <= MaxDeliveries(w)
  {
    QuotientAtLeast(w + CACHE_SLACK, SPREAD, n);
  }

  /** In particular at most one delivery per 15 minutes, plus one. */
  lemma DeliveriesPerQuarter(w: nat)
    ensures MaxDeliveries(w) <= w / FIRST_DELAY + 1
  {
    var n := (w + CACHE_SLACK) / SPREAD;
    if n > 0 {
      assert n * SPREAD <= w + CACHE_SLACK;
      assert n * FIRST_DELAY <= n * SPREAD - CACHE_SLACK;
      QuotientAtLeast(w, FIRST_DELAY, n);
    }
  }

  /** Notifications that come just after the cache has dropped the entry of the one before. */
  function JustExpired(n: nat): seq<int> {
    if n == 0 then [0] else JustExpired(n - 1) + [n * SPREAD]
  }

  lemma FreshDelivery(times: seq<int>, n: nat)
    requires Run(times).times == times && Run(times).entry == Some(Muted(FIRST_DELAY, n * SPREAD))
    ensures var l := Run(times + [(n + 1) * SPREAD]);
      l.times == times + [(n + 1) * SPREAD] && l.entry == Some(Muted(FIRST_DELAY, (n + 1) * SPREAD))
  {
    assert (n + 1) * SPREAD == n * SPREAD + SPREAD;
    assert (times + [(n + 1) * SPREAD])[..|times|] == times;
  }

  lemma FirstDelivery()
    ensures var l := Run(JustExpired(0));
      l.times == JustExpired(0) == [0] && l.entry == Some(Muted(FIRST_DELAY, 0 * SPREAD))
  {
    assert Run([]) == Log(None, [], []);
    assert [0][..0] == [];
  }

  lemma {:induction false} AllDelivered(n: nat)
    ensures var l := Run(JustExpired(n));
      && l.times == JustExpired(n) && |l.times| == n + 1 && l.times[0] == 0
      && l.entry == Some(Muted(FIRST_DELAY, n * SPREAD))
  {
    hide Run, Muted;
    if n > 0 {
      AllDelivered(n - 1);
      FreshDelivery(JustExpired(n - 1), n - 1);
    } else {
      FirstDelivery();
    }
  }

  /** The bound is reached, for every number of deliveries from two on: all but the last just miss the
      cache, and the last one just passes the first delay. */
  lemma BoundIsReached(n: nat) returns (times: seq<int>)
    ensures var l := Run(times);
      && |l.times| == n + 2 && l.times[n + 1] >= l.times[0]
      && |l.times| == MaxDeliveries(l.times[n + 1] - l.times[0])
  {
    var last := n * SPREAD + FIRST_DELAY + 1;
    times := JustExpired(n) + [last];
    AllDelivered(n);
    assert times[..|times| - 1] == JustExpired(n);
    assert Run(times).times == JustExpired(n) + [last];
    hide Run, JustExpired, MaxDeliveries;
    Filled(n);
  }

  lemma Filled(n: nat)
    ensures MaxDeliveries(n * SPREAD + FIRST_DELAY + 1) == n + 2
  {
    assert n * SPREAD + FIRST_DELAY + 1 + CACHE_SLACK == (n + 1) * SPREAD;
  }
}
