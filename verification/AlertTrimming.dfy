/** The run of one alert on one server: each tick appends a row, checks the stored history and
    cuts it to the number of rows Check asked for (service/singleton/alertsentinel.go:155-191).
    Main result: the cut never changes a verdict exactly for the alerts that satisfy TrimSafe. */
module AlertTrimming {
  import opened AlertRules

  ghost function Trim(rules: seq<Rule>, points: seq<Row>): seq<Row> {
    var max := MaxKeep(rules, |rules|, points);
    if 0 < max < |points| then points[|points| - max..] else points
  }

  /** The store after the ticks of `hist`. */
  ghost function Store(rules: seq<Rule>, hist: seq<Row>): seq<Row>
    decreases |hist|, 1
  {
    if hist == [] then [] else Trim(rules, Seen(rules, hist))
  }

  /** What Check is given at the last tick of `hist`: the store so far plus the new row. */
  ghost function Seen(rules: seq<Rule>, hist: seq<Row>): seq<Row>
    requires hist != []
    decreases |hist|, 0
  {
    Store(rules, hist[..|hist| - 1]) + [hist[|hist| - 1]]
  }

  /** The verdict of every tick, as computed on the trimmed store. */
  ghost function Verdicts(rules: seq<Rule>, hist: seq<Row>): (v: seq<bool>)
    ensures |v| == |hist|
  {
    if hist == [] then [] else Verdicts(rules, hist[..|hist| - 1]) + [Passed(rules, Seen(rules, hist))]
  }

  ghost predicate NoCycle(rules: seq<Rule>) {
    forall i :: 0 <= i < |rules| ==> !rules[i].kind.Cycle?
  }

  ghost predicate AllCycle(rules: seq<Rule>) {
    forall i :: 0 <= i < |rules| ==> rules[i].kind.Cycle?
  }

  ghost predicate Within(rules: seq<Rule>, d: nat) {
    forall i :: 0 <= i < |rules| && !rules[i].kind.Cycle? ==> rules[i].duration <= d
  }

  /** Readable off the rule list alone. One row more than the first window is always at hand. */
  ghost predicate TrimSafe(rules: seq<Rule>)
    requires |rules| > 0
  {
    AllCycle(rules) || (NoCycle(rules) && Within(rules, rules[0].duration + 1))
  }

  ghost predicate TrimInvisible(rules: seq<Rule>) {
    forall hist: seq<Row> :: hist != [] && WideRows(hist, |rules|) ==>
      (Passed(rules, Seen(rules, hist)) <==> Passed(rules, hist))
  }

  ghost predicate IsSuffix(s: seq<Row>, t: seq<Row>) {
    |s| <= |t| && s == t[|t| - |s|..]
  }

  // ---- the store is a suffix of the history, and a suffix errs on the quiet side only

  lemma SuffixTransitive(r: seq<Row>, s: seq<Row>, t: seq<Row>)
    requires IsSuffix(r, s) && IsSuffix(s, t)
    ensures IsSuffix(r, t)
  {
  }

  lemma SuffixAppend(s: seq<Row>, t: seq<Row>)
    requires t != [] && IsSuffix(s, t[..|t| - 1])
    ensures IsSuffix(s + [t[|t| - 1]], t)
  {
  }

  lemma TrimIsSuffix(rules: seq<Rule>, points: seq<Row>)
    ensures IsSuffix(Trim(rules, points), points)
    ensures points != [] ==> Trim(rules, points) != []
  {
  }

  lemma {:induction false} StoreIsSuffix(rules: seq<Rule>, hist: seq<Row>)
    ensures IsSuffix(Store(rules, hist), hist)
    ensures hist != [] ==> Store(rules, hist) != [] && IsSuffix(Seen(rules, hist), hist)
  {
    if hist != [] {
      var before := hist[..|hist| - 1];
      StoreIsSuffix(rules, before);
      SuffixAppend(Store(rules, before), hist);
      TrimIsSuffix(rules, Seen(rules, hist));
      SuffixTransitive(Store(rules, hist), Seen(rules, hist), hist);
    }
  }

  lemma {:induction false} StoreGrowsByOne(rules: seq<Rule>, hist: seq<Row>, n: nat)
    requires n <= |hist|
    ensures |Store(rules, hist)| <= |Store(rules, hist[..n])| + (|hist| - n)
    decreases |hist|
  {
    if n < |hist| {
      var before := hist[..|hist| - 1];
      StoreGrowsByOne(rules, before, n);
      assert before[..n] == hist[..n];
    } else {
      assert hist[..n] == hist;
    }
  }

  lemma SuffixWindow(s: seq<Row>, t: seq<Row>, d: nat)
    requires IsSuffix(s, t) && d <= |s|
    ensures Last(s, d) == Last(t, d)
  {
  }

  lemma RulePassesOnSuffix(rule: Rule, i: nat, s: seq<Row>, t: seq<Row>)
    requires IsSuffix(s, t) && s != []
    requires RulePasses(rule, i, t)
    ensures RulePasses(rule, i, s)
  {
    if !rule.kind.Cycle? && rule.duration <= |s| {
      SuffixWindow(s, t, rule.duration);
    }
  }

  lemma PassedOnSuffix(rules: seq<Rule>, s: seq<Row>, t: seq<Row>)
    requires IsSuffix(s, t) && s != []
    requires Passed(rules, t)
    ensures Passed(rules, s)
  {
    var k :| 0 <= k < |rules| && RulePasses(rules[k], k, t);
    RulePassesOnSuffix(rules[k], k, s, t);
  }

  lemma FailsOnLongSuffix(rules: seq<Rule>, s: seq<Row>, t: seq<Row>)
    requires IsSuffix(s, t) && s != []
    requires Within(rules, |s|)
    requires !Passed(rules, t)
    ensures !Passed(rules, s)
  {
    forall k | 0 <= k < |rules|
      ensures !RulePasses(rules[k], k, s)
    {
      assert !RulePasses(rules[k], k, t);
      if !rules[k].kind.Cycle? {
        SuffixWindow(s, t, rules[k].duration);
      }
    }
  }

  // ---- sufficiency

  /** Either the store still covers the first window, or it starts at a row that satisfies the
      first rule (the point an offline rule was cut at). */
  ghost predicate Covers(rules: seq<Rule>, store: seq<Row>, ticks: nat)
    requires |rules| > 0
  {
    var d := rules[0].duration;
    || |store| >= (if ticks < d then ticks else d)
    || (rules[0].kind.Offline? && store != [] && Hit(store[0], 0))
  }

  lemma MaxKeepOfPassing(rules: seq<Rule>, points: seq<Row>)
    requires |rules| > 0 && NoCycle(rules) && RulePasses(rules[0], 0, points)
    ensures MaxKeep(rules, |rules|, points) == Keep(rules, 0, points)
  {
    forall k | 0 < k < |rules|
      ensures Keep(rules, k, points) == 0
    {
      assert AnyPass(rules, k, points);
    }
    MaxKeepIsMaximum(rules, |rules|, points);
  }

  lemma {:induction false} StoreCovers(rules: seq<Rule>, hist: seq<Row>)
    requires ValidRules(rules) && NoCycle(rules)
    ensures Covers(rules, Store(rules, hist), |hist|)
  {
    if hist != [] {
      var before := hist[..|hist| - 1];
      StoreCovers(rules, before);
      var seen := Seen(rules, hist);
      var d := rules[0].duration;
      assert !AnyPass(rules, 0, seen);
      if RulePasses(rules[0], 0, seen) {
        MaxKeepOfPassing(rules, seen);
      }
      MaxKeepIsMaximum(rules, |rules|, seen);
      assert Keep(rules, 0, seen) <= MaxKeep(rules, |rules|, seen);
      if |seen| < d {
        assert Store(rules, hist) == seen;
      }
    }
  }

  lemma FirstRowInWindow(s: seq<Row>, t: seq<Row>, d: nat)
    requires IsSuffix(s, t) && 0 < |s| <= d <= |t|
    ensures Last(t, d)[d - |s|] == s[0]
  {
  }

  lemma CoveringIsLongEnough(rules: seq<Rule>, store: seq<Row>, hist: seq<Row>)
    requires ValidRules(rules) && NoCycle(rules) && hist != []
    requires Covers(rules, store, |hist| - 1)
    requires IsSuffix(store + [hist[|hist| - 1]], hist)
    requires !RulePasses(rules[0], 0, hist)
    ensures |store| + 1 >= (if |hist| < rules[0].duration + 1 then |hist| else rules[0].duration + 1)
  {
    var d := rules[0].duration;
    if |store| < d && rules[0].kind.Offline? && store != [] && Hit(store[0], 0) {
      FirstRowInWindow(store + [hist[|hist| - 1]], hist, d);
      assert AnyHit(Last(hist, d), 0);
      assert false;
    }
  }

  lemma SeenIsLongEnough(rules: seq<Rule>, hist: seq<Row>)
    requires ValidRules(rules) && NoCycle(rules) && hist != []
    requires !Passed(rules, hist)
    ensures |Seen(rules, hist)| >= (if |hist| < rules[0].duration + 1 then |hist| else rules[0].duration + 1)
  {
    StoreCovers(rules, hist[..|hist| - 1]);
    StoreIsSuffix(rules, hist);
    assert !RulePasses(rules[0], 0, hist);
    CoveringIsLongEnough(rules, Store(rules, hist[..|hist| - 1]), hist);
  }

  lemma TrimSafeIsInvisible(rules: seq<Rule>)
    requires ValidRules(rules) && TrimSafe(rules)
    ensures TrimInvisible(rules)
  {
    forall hist: seq<Row> | hist != [] && WideRows(hist, |rules|)
      ensures Passed(rules, Seen(rules, hist)) <==> Passed(rules, hist)
    {
      var seen := Seen(rules, hist);
      StoreIsSuffix(rules, hist);
      if Passed(rules, hist) {
        PassedOnSuffix(rules, seen, hist);
      } else {
        if NoCycle(rules) {
          SeenIsLongEnough(rules, hist);
          forall i | 0 <= i < |rules|
            ensures rules[i].duration <= |seen|
          {
            assert !RulePasses(rules[i], i, hist);
          }
        }
        FailsOnLongSuffix(rules, seen, hist);
      }
    }
  }

  // ---- necessity: for every other alert a history on which the cut hides a failure

  ghost function MaxDuration(rules: seq<Rule>): (d: nat)
    ensures forall i :: 0 <= i < |rules| && !rules[i].kind.Cycle? ==> rules[i].duration <= d
    ensures d > 0 ==> exists i :: 0 <= i < |rules| && !rules[i].kind.Cycle? && rules[i].duration == d
  {
    if rules == [] then 0
    else
      var n := |rules| - 1;
      var d := MaxDuration(rules[..n]);
      assert forall i :: 0 <= i < n ==> rules[..n][i] == rules[i];
      if !rules[n].kind.Cycle? && rules[n].duration > d then rules[n].duration else d
  }

  /** `n` rows in which only the first rule is ever satisfied, in the rows `lo..hi`. */
  ghost function Bump(n: nat, width: nat, lo: nat, hi: nat): seq<Row> {
    seq(n, t => seq(width, i => i == 0 && lo <= t < hi))
  }

  lemma {:induction false} MissesOfBump(points: seq<Row>, i: nat, c: nat)
    requires c <= |points|
    requires forall k :: 0 <= k < |points| ==> (Hit(points[k], i) <==> k < c)
    ensures Misses(points, i) == |points| - c
  {
    if points != [] {
      var n := |points| - 1;
      if c == |points| {
        MissesOfBump(points[..n], i, c - 1);
      } else {
        MissesOfBump(points[..n], i, c);
      }
    }
  }

  /** A rule that was satisfied in no row of its window, or in too few, does not pass. */
  lemma RuleFails(rule: Rule, i: nat, points: seq<Row>, c: nat)
    requires points != []
    requires !rule.kind.Cycle? ==> 0 < rule.duration <= |points| && c <= rule.duration
    requires rule.kind.Cycle? ==> c < |points|
    requires !rule.kind.Ordinary? ==> c == 0
    requires rule.kind.Ordinary? ==> (rule.duration - c) * 100 >= 71 * rule.duration
    requires rule.kind.Cycle? ==> !Hit(points[|points| - 1], i)
    requires !rule.kind.Cycle? ==>
               forall k :: 0 <= k < rule.duration ==> (Hit(Last(points, rule.duration)[k], i) <==> k < c)
    ensures !RulePasses(rule, i, points)
  {
    if rule.kind.Ordinary? {
      MissesOfBump(Last(points, rule.duration), i, c);
    }
  }

  lemma HiddenFailure(rules: seq<Rule>, hist: seq<Row>, i: nat)
    requires hist != [] && WideRows(hist, |rules|) && !Passed(rules, hist)
    requires i < |rules| && !rules[i].kind.Cycle? && |Seen(rules, hist)| < rules[i].duration
    ensures !TrimInvisible(rules)
  {
    assert RulePasses(rules[i], i, Seen(rules, hist));
  }

  /** With a cycle rule beside another one, the store never holds more than one row. */
  lemma {:induction false} MixedStoreIsOneRow(rules: seq<Rule>, hist: seq<Row>, c: nat)
    requires ValidRules(rules) && c < |rules| && rules[c].kind.Cycle?
    ensures |Store(rules, hist)| <= 1
  {
    if hist != [] {
      MixedStoreIsOneRow(rules, hist[..|hist| - 1], c);
      var seen := Seen(rules, hist);
      MaxKeepIsMaximum(rules, |rules|, seen);
      assert forall k :: 0 <= k < |rules| ==> Keep(rules, k, seen) <= 1;
      assert Keep(rules, c, seen) == 1;
    }
  }

  lemma AllMissesFail(rules: seq<Rule>, hist: seq<Row>)
    requires ValidRules(rules) && Within(rules, |hist|) && hist != []
    requires forall t, i :: 0 <= t < |hist| ==> !Hit(hist[t], i)
    ensures !Passed(rules, hist)
  {
    forall k | 0 <= k < |rules|
      ensures !RulePasses(rules[k], k, hist)
    {
      RuleFails(rules[k], k, hist, 0);
    }
  }

  lemma MixedSeen(rules: seq<Rule>, hist: seq<Row>, c: nat)
    requires ValidRules(rules) && c < |rules| && rules[c].kind.Cycle? && hist != []
    ensures |Seen(rules, hist)| <= 2
  {
    MixedStoreIsOneRow(rules, hist[..|hist| - 1], c);
  }

  lemma MixedIsVisible(rules: seq<Rule>)
    requires ValidRules(rules) && !AllCycle(rules) && !NoCycle(rules)
    ensures !TrimInvisible(rules)
  {
    var c :| 0 <= c < |rules| && rules[c].kind.Cycle?;
    var i :| 0 <= i < |rules| && !rules[i].kind.Cycle?;
    var hist := Bump(MaxDuration(rules), |rules|, 0, 0);
    AllMissesFail(rules, hist);
    MixedSeen(rules, hist, c);
    HiddenFailure(rules, hist, i);
  }

  /** Rows satisfied by the first rule before it starts failing for good. */
  ghost function BumpEnd(rule: Rule): nat {
    if rule.kind.Offline? then 2 else rule.duration + 1 - (71 * rule.duration - 1) / 100
  }

  ghost function BumpStart(rule: Rule): nat {
    if rule.kind.Offline? then 1 else 0
  }

  lemma {:induction false} NoCutBefore(rules: seq<Rule>, hist: seq<Row>)
    requires ValidRules(rules) && NoCycle(rules) && |hist| < rules[0].duration
    ensures Store(rules, hist) == hist
  {
    if hist != [] {
      var before := hist[..|hist| - 1];
      NoCutBefore(rules, before);
      assert Seen(rules, hist) == hist;
      assert RulePasses(rules[0], 0, hist);
      MaxKeepOfPassing(rules, hist);
    }
  }

  lemma OfflineCut(rules: seq<Rule>, points: seq<Row>)
    requires ValidRules(rules) && NoCycle(rules) && rules[0].kind.Offline?
    requires |points| == rules[0].duration
    requires forall k :: 0 <= k < |points| ==> (Hit(points[k], 0) <==> k == 1)
    ensures |Trim(rules, points)| < |points|
  {
    assert Last(points, |points|) == points;
    assert Hit(points[1], 0);
    assert RulePasses(rules[0], 0, points);
    MaxKeepOfPassing(rules, points);
    assert !AnyPass(rules, 0, points);
    assert 0 < ScanAge(points, 0, |points|) < |points|;
  }

  lemma OrdinaryCut(rules: seq<Rule>, points: seq<Row>)
    requires ValidRules(rules) && NoCycle(rules) && rules[0].kind.Ordinary?
    requires |points| == rules[0].duration + 1
    requires forall k :: 0 <= k < |points| ==> (Hit(points[k], 0) <==> k < BumpEnd(rules[0]))
    ensures |Trim(rules, points)| < |points|
  {
    var d := rules[0].duration;
    BumpEndBounds(d);
    MissesOfBump(Last(points, d), 0, BumpEnd(rules[0]) - 1);
    assert RulePasses(rules[0], 0, points);
    MaxKeepOfPassing(rules, points);
    assert !AnyPass(rules, 0, points);
  }

  lemma WholeSuffix(s: seq<Row>, t: seq<Row>)
    requires IsSuffix(s, t) && |s| >= |t|
    ensures s == t
  {
  }

  /** Up to the first full window nothing is cut: Check sees the whole history. */
  lemma NothingCutYet(rules: seq<Rule>, hist: seq<Row>)
    requires ValidRules(rules) && NoCycle(rules)
    requires |hist| < rules[0].duration || (rules[0].kind.Ordinary? && |hist| == rules[0].duration)
    ensures Store(rules, hist) == hist
  {
    if |hist| < rules[0].duration {
      NoCutBefore(rules, hist);
    } else {
      StoreCovers(rules, hist);
      StoreIsSuffix(rules, hist);
      WholeSuffix(Store(rules, hist), hist);
    }
  }

  lemma SeenAfter(rules: seq<Rule>, hist: seq<Row>)
    requires hist != [] && Store(rules, hist[..|hist| - 1]) == hist[..|hist| - 1]
    ensures Seen(rules, hist) == hist
  {
  }

  lemma BumpEndBounds(d: nat)
    requires d >= MIN_DURATION
    ensures var c := d + 1 - (71 * d - 1) / 100;
      2 <= c <= d + 1 && (d + 1 - c) * 100 < 71 * d <= (d + 2 - c) * 100
  {
  }

  /** Only the first rule is ever satisfied, between its bump's start and end. */
  ghost predicate BumpShaped(rules: seq<Rule>, hist: seq<Row>)
    requires |rules| > 0 && rules[0].duration >= MIN_DURATION
  {
    forall t, i :: 0 <= t < |hist| ==>
      (Hit(hist[t], i) <==> i == 0 && BumpStart(rules[0]) <= t < BumpEnd(rules[0]))
  }

  lemma BumpFails(rules: seq<Rule>, hist: seq<Row>)
    requires ValidRules(rules) && NoCycle(rules) && Within(rules, |hist|) && rules[0].duration + 2 <= |hist|
    requires BumpShaped(rules, hist)
    ensures !Passed(rules, hist)
  {
    var n, d := |hist|, rules[0].duration;
    BumpEndBounds(d);
    forall k | 0 <= k < |rules|
      ensures !RulePasses(rules[k], k, hist)
    {
      if k == 0 && rules[0].kind.Ordinary? && BumpEnd(rules[0]) > n - d {
        RuleFails(rules[0], 0, hist, BumpEnd(rules[0]) - (n - d));
      } else {
        RuleFails(rules[k], k, hist, 0);
      }
    }
  }

  lemma CutStaysVisible(rules: seq<Rule>, hist: seq<Row>, cut: nat)
    requires 0 < cut < |hist|
    requires |Store(rules, hist[..cut])| < cut
    ensures |Seen(rules, hist)| < |hist|
  {
    var before := hist[..|hist| - 1];
    StoreGrowsByOne(rules, before, cut);
    assert before[..cut] == hist[..cut];
  }

  lemma FirstCut(rules: seq<Rule>, points: seq<Row>)
    requires ValidRules(rules) && NoCycle(rules)
    requires |points| == if rules[0].kind.Offline? then rules[0].duration else rules[0].duration + 1
    requires forall k :: 0 <= k < |points| ==>
               (Hit(points[k], 0) <==> BumpStart(rules[0]) <= k < BumpEnd(rules[0]))
    ensures |Trim(rules, points)| < |points|
  {
    if rules[0].kind.Offline? {
      OfflineCut(rules, points);
    } else {
      OrdinaryCut(rules, points);
    }
  }

  lemma FirstCutInStore(rules: seq<Rule>, hist: seq<Row>)
    requires ValidRules(rules) && NoCycle(rules)
    requires |hist| == if rules[0].kind.Offline? then rules[0].duration else rules[0].duration + 1
    requires |Trim(rules, hist)| < |hist|
    ensures |Store(rules, hist)| < |hist|
  {
    NothingCutYet(rules, hist[..|hist| - 1]);
    SeenAfter(rules, hist);
  }

  lemma BumpIsCut(rules: seq<Rule>, hist: seq<Row>)
    requires ValidRules(rules) && NoCycle(rules) && rules[0].duration + 2 <= |hist|
    requires forall k :: 0 <= k < |hist| ==>
               (Hit(hist[k], 0) <==> BumpStart(rules[0]) <= k < BumpEnd(rules[0]))
    ensures |Seen(rules, hist)| < |hist|
  {
    var cut := if rules[0].kind.Offline? then rules[0].duration else rules[0].duration + 1;
    FirstCut(rules, hist[..cut]);
    FirstCutInStore(rules, hist[..cut]);
    CutStaysVisible(rules, hist, cut);
  }

  lemma BumpIsHidden(rules: seq<Rule>, hist: seq<Row>, i: nat)
    requires ValidRules(rules) && NoCycle(rules) && Within(rules, |hist|)
    requires i < |rules| && rules[i].duration == |hist| >= rules[0].duration + 2
    requires WideRows(hist, |rules|) && BumpShaped(rules, hist)
    ensures !TrimInvisible(rules)
  {
    BumpFails(rules, hist);
    BumpIsCut(rules, hist);
    HiddenFailure(rules, hist, i);
  }

  lemma LongLaterWindowIsVisible(rules: seq<Rule>)
    requires ValidRules(rules) && NoCycle(rules) && !Within(rules, rules[0].duration + 1)
    ensures !TrimInvisible(rules)
  {
    var n := MaxDuration(rules);
    var i :| 0 <= i < |rules| && rules[i].duration == n;
    BumpIsHidden(rules, Bump(n, |rules|, BumpStart(rules[0]), BumpEnd(rules[0])), i);
  }

  /** Cutting the store is invisible on every tick of every run exactly for these alerts. */
  lemma TrimInvisibleIffSafe(rules: seq<Rule>)
    requires ValidRules(rules)
    ensures TrimInvisible(rules) <==> TrimSafe(rules)
  {
    if TrimSafe(rules) {
      TrimSafeIsInvisible(rules);
    } else if NoCycle(rules) {
      LongLaterWindowIsVisible(rules);
    } else {
      MixedIsVisible(rules);
    }
  }

  /** For a safe alert, the recorded verdicts are those of the complete history at every tick. */
  lemma {:induction false} VerdictsOfFullHistory(rules: seq<Rule>, hist: seq<Row>, t: nat)
    requires ValidRules(rules) && TrimSafe(rules) && WideRows(hist, |rules|)
    requires t < |hist|
    ensures Verdicts(rules, hist)[t] <==> Passed(rules, hist[..t + 1])
    decreases |hist|
  {
    TrimSafeIsInvisible(rules);
    if t + 1 == |hist| {
      assert hist[..t + 1] == hist;
    } else {
      VerdictsOfFullHistory(rules, hist[..|hist| - 1], t);
      assert hist[..|hist| - 1][..t + 1] == hist[..t + 1];
    }
  }

  /** For the other alerts the cut only ever hides a failure: what the full history lets pass,
      the store lets pass. */
  lemma TrimErrsOnQuietSide(rules: seq<Rule>, hist: seq<Row>)
    requires hist != [] && Passed(rules, hist)
    ensures Passed(rules, Seen(rules, hist))
  {
    StoreIsSuffix(rules, hist);
    PassedOnSuffix(rules, Seen(rules, hist), hist);
  }

  ghost function LargestWindow(rules: seq<Rule>): nat {
    if MaxDuration(rules) > 1 then MaxDuration(rules) else 1
  }

  lemma TrimIsBounded(rules: seq<Rule>, points: seq<Row>)
    requires StoredRules(rules)
    ensures |Trim(rules, points)| <= LargestWindow(rules)
  {
    MaxKeepIsMaximum(rules, |rules|, points);
    forall k | 0 <= k < |rules|
      ensures Keep(rules, k, points) <= LargestWindow(rules)
    {
    }
    if MaxKeep(rules, |rules|, points) == 0 {
      assert Keep(rules, 0, points) == 0 && !AnyPass(rules, 0, points);
    }
  }

  /** The store after a tick is no longer than the largest window, one row for a cycle rule. */
  lemma StoreIsBounded(rules: seq<Rule>, hist: seq<Row>)
    requires StoredRules(rules)
    ensures |Store(rules, hist)| <= LargestWindow(rules)
  {
    if hist != [] {
      TrimIsBounded(rules, Seen(rules, hist));
    }
  }
}
