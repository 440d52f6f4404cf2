/** Evaluation of an alert over the stored history of one server (model/alertrule.go).
    A row holds one result per rule, `true` meaning that the rule was satisfied at that tick. */
module AlertRules {
  import opened GoIntegers

  datatype Kind = Cycle | Offline | Ordinary

  /** `kind` is the outcome of the two type tests of model/rule.go:175-181. */
  datatype Rule = Rule(kind: Kind, duration: nat)

  type Row = seq<bool>

  const MIN_DURATION := 3

  /** What validateRule demands; durations are unsigned 64-bit numbers. */
  predicate StoredRules(rules: seq<Rule>) {
    && |rules| > 0
    && forall i :: 0 <= i < |rules| && !rules[i].kind.Cycle? ==> MIN_DURATION <= rules[i].duration <= MAX_UINT
  }

  /** The duration turns negative in the conversion to an int. */
  predicate Wraps(rule: Rule) {
    !rule.kind.Cycle? && rule.duration > MAX_INT
  }

  predicate ValidRules(rules: seq<Rule>) {
    StoredRules(rules) && forall i :: 0 <= i < |rules| ==> !Wraps(rules[i])
  }

  predicate WideRows(points: seq<Row>, width: nat) {
    forall k :: 0 <= k < |points| ==> |points[k]| == width
  }

  predicate Hit(row: Row, i: nat) {
    i < |row| && row[i]
  }

  /** Number of rows in which rule `i` was not satisfied. */
  ghost function Misses(points: seq<Row>, i: nat): nat {
    if points == [] then 0
    else Misses(points[..|points| - 1], i) + if Hit(points[|points| - 1], i) then 0 else 1
  }

  ghost function Last(points: seq<Row>, n: nat): seq<Row>
    requires n <= |points|
  {
    points[|points| - n..]
  }

  ghost predicate AnyHit(points: seq<Row>, i: nat) {
    exists k :: 0 <= k < |points| && Hit(points[k], i)
  }

  /** When one rule alone keeps the alert quiet. A window that is not full yet always does. */
  ghost predicate RulePasses(rule: Rule, i: nat, points: seq<Row>) {
    match rule.kind
    case Cycle => points != [] && Hit(points[|points| - 1], i)
    case Offline => |points| < rule.duration || AnyHit(Last(points, rule.duration), i)
    case Ordinary => |points| < rule.duration || Misses(Last(points, rule.duration), i) * 100 < 71 * rule.duration
  }

  /** Evaluating this rule on a store of that length goes out of bounds: the offline slice starts
      behind the end, and the ordinary window starts beyond the largest int, that is, below zero. */
  predicate RulePanics(rule: Rule, length: nat) {
    Wraps(rule) && (rule.kind.Offline? || rule.duration <= MAX_INT + 1 + length)
  }

  /** Check panics: a rule that does is reached, no rule before it having passed. */
  ghost predicate CheckPanics(rules: seq<Rule>, points: seq<Row>) {
    exists k :: 0 <= k < |rules| && PanicsAt(rules, k, points)
  }

  ghost predicate PanicsAt(rules: seq<Rule>, k: nat, points: seq<Row>)
    requires k < |rules|
  {
    RulePanics(rules[k], |points|) && !AnyPass(rules, k, points)
  }

  ghost predicate AnyPass(rules: seq<Rule>, upTo: nat, points: seq<Row>)
    requires upTo <= |rules|
  {
    exists k :: 0 <= k < upTo && RulePasses(rules[k], k, points)
  }

  ghost predicate Passed(rules: seq<Rule>, points: seq<Row>) {
    AnyPass(rules, |rules|, points)
  }

  /** Age (1 = newest) of the newest row that satisfies rule `i`, looking at `d` rows at most. */
  ghost function ScanAge(points: seq<Row>, i: nat, d: nat): (age: nat)
    requires d <= |points|
    ensures age <= d
    ensures forall k :: |points| - age < k < |points| ==> !Hit(points[k], i)
    ensures age < d ==> 0 < age && Hit(points[|points| - age], i)
    ensures d > 0 ==> age > 0
    ensures AnyHit(Last(points, d), i) ==> Hit(points[|points| - age], i)
    ensures !AnyHit(Last(points, d), i) ==> age == d
    decreases d
  {
    if d == 0 then 0
    else if Hit(points[|points| - 1], i) then
      assert Last(points, d)[d - 1] == points[|points| - 1];
      1
    else
      var before := points[..|points| - 1];
      assert Last(points, d) == Last(before, d - 1) + [points[|points| - 1]];
      var age := ScanAge(before, i, d - 1);
      assert AnyHit(Last(points, d), i) ==> AnyHit(Last(before, d - 1), i);
      assert AnyHit(Last(before, d - 1), i) ==> AnyHit(Last(points, d), i) by {
        if AnyHit(Last(before, d - 1), i) {
          var k :| 0 <= k < d - 1 && Hit(Last(before, d - 1)[k], i);
          assert Hit(Last(points, d)[k], i);
        }
      }
      1 + age
  }

  /** How many rows rule `k` asks the store to keep; a rule behind a passing one asks for none. */
  ghost function Keep(rules: seq<Rule>, k: nat, points: seq<Row>): nat
    requires k < |rules|
  {
    var r := rules[k];
    if r.kind.Cycle? then 1
    else if AnyPass(rules, k, points) || |points| < r.duration then 0
    else if r.kind.Offline? then ScanAge(points, k, r.duration)
    else r.duration
  }

  ghost function MaxKeep(rules: seq<Rule>, upTo: nat, points: seq<Row>): nat
    requires upTo <= |rules|
  {
    if upTo == 0 then 0
    else
      var m := MaxKeep(rules, upTo - 1, points);
      var d := Keep(rules, upTo - 1, points);
      if d > m then d else m
  }

  lemma {:induction false} MaxKeepIsMaximum(rules: seq<Rule>, upTo: nat, points: seq<Row>)
    requires upTo <= |rules|
    ensures var m := MaxKeep(rules, upTo, points);
      && (forall k :: 0 <= k < upTo ==> Keep(rules, k, points) <= m)
      && (m == 0 || exists k :: 0 <= k < upTo && Keep(rules, k, points) == m)
  {
    if upTo > 0 {
      MaxKeepIsMaximum(rules, upTo - 1, points);
    }
  }

  lemma MissesAppend(points: seq<Row>, lo: nat, hi: nat, i: nat)
    requires lo <= hi < |points|
    ensures Misses(points[lo..hi + 1], i) == Misses(points[lo..hi], i) + if Hit(points[hi], i) then 0 else 1
  {
    assert points[lo..hi + 1][..hi - lo] == points[lo..hi];
  }

  /** The code's integer test against 70 percent, without the division. */
  lemma SeventyPercent(fail: nat, total: nat)
    requires total > 0
    ensures fail * 100 / total <= 70 <==> fail * 100 < 71 * total
  {
    QuotientAtLeast(fail * 100, total, 71);
  }

  lemma FailureRate(fail: nat, total: int)
    requires total != 0
    ensures total > 0 ==> (Quotient(fail * 100, total) <= 70 <==> fail * 100 < 71 * total)
    ensures total < 0 && fail == 0 ==> Quotient(fail * 100, total) == 0
  {
    if total > 0 {
      SeventyPercent(fail, total);
    }
  }

  lemma NoMisses(i: nat)
    ensures Misses([], i) == 0
  {
  }

  lemma AnyPassStep(rules: seq<Rule>, k: nat, points: seq<Row>)
    requires k < |rules|
    ensures AnyPass(rules, k + 1, points) <==> AnyPass(rules, k, points) || RulePasses(rules[k], k, points)
  {
  }

  /** An alert with a duration of 2^63 or more never fails: it passes or panics on every store. */
  lemma WrappedNeverFails(rules: seq<Rule>, points: seq<Row>)
    requires |points| <= MAX_INT
    requires exists k :: 0 <= k < |rules| && Wraps(rules[k])
    ensures Passed(rules, points)
  {
    var k :| 0 <= k < |rules| && Wraps(rules[k]);
    assert RulePasses(rules[k], k, points);
  }

  lemma {:induction false} AllMissed(points: seq<Row>, i: nat)
    requires forall k :: 0 <= k < |points| ==> !Hit(points[k], i)
    ensures Misses(points, i) == |points|
  {
    if points != [] {
      AllMissed(points[..|points| - 1], i);
    }
  }

  /** Rules before `k` that can all fail on a store of that length: their windows are full. */
  predicate FullBefore(rules: seq<Rule>, k: nat, length: nat)
    requires k < |rules|
  {
    forall j :: 0 <= j < k ==> rules[j].kind.Cycle? || rules[j].duration <= length
  }

  /** Which rule lists can panic, for each length of the store: those with a rule out of bounds behind
      none but rules whose windows are full. */
  lemma SomeStorePanics(rules: seq<Rule>, length: nat)
    requires StoredRules(rules)
    ensures (exists points :: |points| == length && WideRows(points, |rules|) && CheckPanics(rules, points))
            <==> exists k :: 0 <= k < |rules| && RulePanics(rules[k], length) && FullBefore(rules, k, length)
  {
    forall points | |points| == length && WideRows(points, |rules|) && CheckPanics(rules, points)
      ensures exists k :: 0 <= k < |rules| && RulePanics(rules[k], length) && FullBefore(rules, k, length)
    {
      var k :| 0 <= k < |rules| && PanicsAt(rules, k, points);
      assert forall j :: 0 <= j < k ==> !RulePasses(rules[j], j, points);
      assert FullBefore(rules, k, length);
    }
    forall k | 0 <= k < |rules| && RulePanics(rules[k], length) && FullBefore(rules, k, length)
      ensures exists points :: |points| == length && WideRows(points, |rules|) && CheckPanics(rules, points)
    {
      var points: seq<Row> := seq(length, _ => seq(|rules|, _ => false));
      forall j | 0 <= j < k
        ensures !RulePasses(rules[j], j, points)
      {
        NothingPasses(rules[j], j, points);
      }
      assert PanicsAt(rules, k, points);
    }
  }

  lemma NothingPasses(rule: Rule, i: nat, points: seq<Row>)
    requires rule.kind.Cycle? || rule.duration <= |points|
    requires forall k :: 0 <= k < |points| ==> !Hit(points[k], i)
    requires rule.kind.Ordinary? ==> rule.duration > 0
    ensures !RulePasses(rule, i, points)
  {
    if rule.kind.Ordinary? {
      AllMissed(Last(points, rule.duration), i);
    }
  }

  lemma ValidNeverPanics(rules: seq<Rule>, points: seq<Row>)
    requires ValidRules(rules)
    ensures !CheckPanics(rules, points)
  {
  }

  // ---- what the verdict means, row by row

  /** The ticks from `lo` on at which rule `i` was not satisfied. */
  ghost function MissedTicks(points: seq<Row>, lo: nat, i: nat): set<nat> {
    set t: nat | lo <= t < |points| && !(i < |points[t]| && points[t][i])
  }

  lemma {:induction false} MissesCounted(points: seq<Row>, lo: nat, i: nat)
    requires lo <= |points|
    ensures Misses(points[lo..], i) == |MissedTicks(points, lo, i)|
    decreases |points|
  {
    if lo < |points| {
      var n := |points| - 1;
      var before := points[..n];
      MissesCounted(before, lo, i);
      assert points[lo..][..n - lo] == before[lo..];
      var more: set<nat> := if Hit(points[n], i) then {} else {n};
      assert MissedTicks(points, lo, i) == MissedTicks(before, lo, i) + more;
    } else {
      assert MissedTicks(points, lo, i) == {};
    }
  }

  /** A single rule keeps the alert quiet: a cycle rule if its last row was satisfied; the others while
      their window is not full, or if one row of it (offline) or enough of them (ordinary) are. */
  ghost predicate KeepsQuiet(rule: Rule, k: nat, points: seq<Row>)
    requires forall t :: 0 <= t < |points| ==> k < |points[t]|
  {
    match rule.kind
    case Cycle => points != [] && points[|points| - 1][k]
    case Offline =>
      || |points| < rule.duration
      || exists t :: |points| - rule.duration <= t < |points| && points[t][k]
    case Ordinary =>
      || |points| < rule.duration
      || |MissedTicks(points, |points| - rule.duration, k)| * 100 < 71 * rule.duration
  }

  lemma RulePassesMeans(rule: Rule, k: nat, points: seq<Row>)
    requires forall t :: 0 <= t < |points| ==> k < |points[t]|
    ensures RulePasses(rule, k, points) <==> KeepsQuiet(rule, k, points)
  {
    if !rule.kind.Cycle? && rule.duration <= |points| {
      var lo := |points| - rule.duration;
      var window := Last(points, rule.duration);
      MissesCounted(points, lo, k);
      assert window == points[lo..];
      if t :| lo <= t < |points| && points[t][k] {
        assert Hit(window[t - lo], k);
      }
      if j :| 0 <= j < |window| && Hit(window[j], k) {
        assert points[lo + j][k];
      }
    }
  }

  lemma PassedMeans(rules: seq<Rule>, points: seq<Row>)
    requires WideRows(points, |rules|)
    ensures Passed(rules, points) <==> exists k :: 0 <= k < |rules| && KeepsQuiet(rules[k], k, points)
    ensures points != [] && (forall k :: 0 <= k < |rules| ==> rules[k].kind.Cycle?) ==>
              (Passed(rules, points) <==> true in points[|points| - 1])
  {
    forall k | 0 <= k < |rules|
      ensures RulePasses(rules[k], k, points) <==> KeepsQuiet(rules[k], k, points)
    {
      RulePassesMeans(rules[k], k, points);
    }
    if points != [] && forall k :: 0 <= k < |rules| ==> rules[k].kind.Cycle? {
      var row := points[|points| - 1];
      if k :| 0 <= k < |row| && row[k] {
        assert KeepsQuiet(rules[k], k, points);
      }
      if k :| 0 <= k < |rules| && KeepsQuiet(rules[k], k, points) {
        assert row[k];
      }
    }
  }

  lemma FailingKeepsAll(rules: seq<Rule>, points: seq<Row>)
    requires StoredRules(rules) && !Passed(rules, points)
    ensures var max := MaxKeep(rules, |rules|, points);
      && (forall k :: 0 <= k < |rules| ==> max >= if rules[k].kind.Cycle? then 1 else rules[k].duration)
      && (exists k :: 0 <= k < |rules| && max == if rules[k].kind.Cycle? then 1 else rules[k].duration)
  {
    MaxKeepIsMaximum(rules, |rules|, points);
    forall k | 0 <= k < |rules|
      ensures Keep(rules, k, points) == if rules[k].kind.Cycle? then 1 else rules[k].duration
    {
      assert !RulePasses(rules[k], k, points) && !AnyPass(rules, k, points);
    }
    assert Keep(rules, 0, points) > 0;
  }

  function BoundCheck(length: nat, duration: int, passed: bool): bool {
    passed || length < duration
  }

  /** len(points) - duration: only a negative duration can leave the range of int. */
  function FirstRow(length: nat, duration: int): int {
    if duration > 0 then length - duration else Wrapped(length - duration)
  }

  /** AlertRule.Check: the number of rows to keep, and whether the alert stays quiet. A Go slice is no
      longer than the largest int. */
  method Check(rules: seq<Rule>, points: seq<Row>) returns (panicked: bool, max: nat, passed: bool)
    requires StoredRules(rules)
    requires WideRows(points, |rules|)
    requires forall i :: 0 <= i < |rules| && Wraps(rules[i]) ==> |points| <= MAX_INT
    ensures panicked <==> CheckPanics(rules, points)
    ensures !panicked ==> (passed <==> Passed(rules, points))
    ensures !panicked ==> max == MaxKeep(rules, |rules|, points)
    ensures !panicked && (exists k :: 0 <= k < |rules| && Wraps(rules[k])) ==> passed
    ensures !panicked ==> (passed <==> exists k :: 0 <= k < |rules| && KeepsQuiet(rules[k], k, points))
    ensures forall k :: 0 <= k < |rules| && rules[k].kind.Cycle? && points != [] && points[|points| - 1][k] ==>
              panicked || passed
    ensures points != [] && (forall k :: 0 <= k < |rules| ==> rules[k].kind.Cycle?) ==>
              && !panicked && max == 1
              && (passed <==> true in points[|points| - 1])
    ensures !panicked && !passed ==>
              && (forall k :: 0 <= k < |rules| ==> max >= if rules[k].kind.Cycle? then 1 else rules[k].duration)
              && (exists k :: 0 <= k < |rules| && max == if rules[k].kind.Cycle? then 1 else rules[k].duration)
  {
    hide Misses, ScanAge, AnyHit, MaxKeep, KeepsQuiet;
    var hasPassedRule := false;
    var durations := new nat[|rules|](_ => 0);
    for ruleIndex := 0 to |rules|
      invariant hasPassedRule <==> AnyPass(rules, ruleIndex, points)
      invariant forall k :: 0 <= k < ruleIndex ==> !PanicsAt(rules, k, points)
      invariant forall k :: 0 <= k < ruleIndex ==> durations[k] == Keep(rules, k, points)
      invariant forall k :: ruleIndex <= k < |rules| ==> durations[k] == 0
    {
      AnyPassStep(rules, ruleIndex, points);
      var rule := rules[ruleIndex];
      var duration := Wrapped(rule.duration);
      if rule.kind.Cycle? {
        if durations[ruleIndex] < 1 {
          durations[ruleIndex] := 1;
        }
        if !hasPassedRule && |points| > 0 && points[|points| - 1][ruleIndex] {
          hasPassedRule := true;
        }
      } else {
        hasPassedRule := BoundCheck(|points|, duration, hasPassedRule);
        if hasPassedRule {
          continue;
        }
        if rule.kind.Offline? {
          var first := FirstRow(|points|, duration);
          if first < 0 || first > |points| {
            assert PanicsAt(rules, ruleIndex, points);
            return true, 0, false;
          }
          var fail;
          fail, hasPassedRule := CheckOffline(points, ruleIndex, duration);
          durations[ruleIndex] := fail;
        } else {
          if duration > durations[ruleIndex] {
            durations[ruleIndex] := duration;
          }
          var beyond;
          beyond, hasPassedRule := CheckOrdinary(points, ruleIndex, duration);
          if beyond {
            assert PanicsAt(rules, ruleIndex, points);
            return true, 0, false;
          }
        }
      }
    }
    panicked := false;
    max := SliceMax(rules, points, durations);
    passed := hasPassedRule;
    if exists k :: 0 <= k < |rules| && Wraps(rules[k]) {
      WrappedNeverFails(rules, points);
    }
    VerdictMeans(rules, points);
  }

  /** What Check returns, said of the rows. */
  lemma VerdictMeans(rules: seq<Rule>, points: seq<Row>)
    requires StoredRules(rules) && WideRows(points, |rules|)
    ensures var max, passed := MaxKeep(rules, |rules|, points), Passed(rules, points);
      && (passed <==> exists k :: 0 <= k < |rules| && KeepsQuiet(rules[k], k, points))
      && (points != [] && (forall k :: 0 <= k < |rules| ==> rules[k].kind.Cycle?) ==>
            && max == 1
            && (passed <==> true in points[|points| - 1]))
      && (!passed ==>
            && (forall k :: 0 <= k < |rules| ==> max >= if rules[k].kind.Cycle? then 1 else rules[k].duration)
            && (exists k :: 0 <= k < |rules| && max == if rules[k].kind.Cycle? then 1 else rules[k].duration))
    ensures forall k :: 0 <= k < |rules| && rules[k].kind.Cycle? && points != [] && points[|points| - 1][k] ==>
              Passed(rules, points)
  {
    PassedMeans(rules, points);
    MaxKeepIsMaximum(rules, |rules|, points);
    if !Passed(rules, points) {
      FailingKeepsAll(rules, points);
    }
    hide Passed, MaxKeep;
    if forall k :: 0 <= k < |rules| ==> rules[k].kind.Cycle? {
      assert forall k :: 0 <= k < |rules| ==> Keep(rules, k, points) == 1;
    }
    forall k | 0 <= k < |rules| && rules[k].kind.Cycle? && points != [] && points[|points| - 1][k]
      ensures Passed(rules, points)
    {
      assert KeepsQuiet(rules[k], k, points);
    }
  }

  /** The backward scan of an offline rule. */
  method CheckOffline(points: seq<Row>, i: nat, duration: nat) returns (fail: nat, hit: bool)
    requires 0 < duration <= |points|
    requires forall k :: 0 <= k < |points| ==> i < |points[k]|
    ensures hit <==> AnyHit(Last(points, duration), i)
    ensures fail == ScanAge(points, i, duration)
  {
    var window := points[|points| - duration..];
    fail, hit := 0, false;
    while fail < duration && !hit
      invariant fail <= duration
      invariant forall k :: |points| - fail < k < |points| ==> !Hit(points[k], i)
      invariant hit ==> fail > 0 && Hit(points[|points| - fail], i)
      invariant !hit ==> forall k :: |points| - fail <= k < |points| ==> !Hit(points[k], i)
      decreases duration - fail, !hit
    {
      fail := fail + 1;
      assert window[duration - fail] == points[|points| - fail];
      if window[duration - fail][i] {
        hit := true;
      }
    }
    if hit {
      assert Hit(Last(points, duration)[duration - fail], i);
    }
  }

  /** The window count of an ordinary rule; with a negative duration the loop has no round, or starts
      at a negative index. */
  method CheckOrdinary(points: seq<Row>, i: nat, duration: int) returns (panicked: bool, pass: bool)
    requires -MAX_INT - 1 <= duration <= |points| && duration != 0
    requires duration < 0 ==> |points| <= MAX_INT
    requires forall k :: 0 <= k < |points| ==> i < |points[k]|
    ensures panicked <==> duration < 0 && |points| - duration > MAX_INT
    ensures duration > 0 ==> (pass <==> Misses(Last(points, duration), i) * 100 < 71 * duration)
    ensures duration < 0 && !panicked ==> pass
  {
    hide Quotient, Misses;
    assert Misses([], i) == 0 by { NoMisses(i); }
    var total, fail := duration, 0;
    var timeTick := FirstRow(|points|, duration);
    if timeTick < 0 {
      return true, false;
    }
    ghost var lo := timeTick;
    assert duration > 0 ==> points[lo..lo] == [];
    while timeTick < |points|
      invariant duration < 0 ==> fail == 0 && timeTick == |points| - duration
      invariant duration > 0 ==> lo <= timeTick <= |points| && fail == Misses(points[lo..timeTick], i)
    {
      MissesAppend(points, lo, timeTick, i);
      if !points[timeTick][i] {
        fail := fail + 1;
      }
      timeTick := timeTick + 1;
    }
    panicked := false;
    assert duration > 0 ==> points[lo..|points|] == Last(points, duration);
    FailureRate(fail, total);
    pass := Quotient(fail * 100, total) <= 70;
  }

  method SliceMax(ghost rules: seq<Rule>, ghost points: seq<Row>, durations: array<nat>) returns (max: nat)
    requires durations.Length == |rules| > 0
    requires forall k :: 0 <= k < |rules| ==> durations[k] == Keep(rules, k, points)
    ensures max == MaxKeep(rules, |rules|, points)
  {
    max := durations[0];
    assert max == MaxKeep(rules, 1, points);
    for k := 1 to durations.Length
      invariant max == MaxKeep(rules, k, points)
    {
      if durations[k] > max {
        max := durations[k];
      }
    }
  }
}
