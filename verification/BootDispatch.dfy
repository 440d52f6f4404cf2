/** Dispatching the boot script once per boot (service/rpc/nezha.go:335-362, 380-386, 417-435). The row
    of model/node_boot_run.go is inserted if absent and serves as a lock; any number of reconnecting
    task streams run the dispatch beside each other, and an operator may delete rows to force a rerun
    (service/rpc/nezha.go:333-334). One step is one database statement or one Send. */
module BootDispatch {

  const SCRIPT_ID := "idx-meta"

  /** The unique index of the row. */
  datatype Key = Key(serverID: nat, bootTime: nat, scriptID: string)

  /** `Holding`: inserted the row, about to send. `Failing`: the token or the Send failed, the row is
      about to be deleted. `Stuck`: the deletion failed, too, which nobody notices. */
  datatype Phase = Ready | Holding | Failing | Sent | Failed | Stuck | Skipped

  datatype Attempt = Attempt(key: Key, phase: Phase)

  /** `reruns` counts the rows the operator removed. */
  datatype State = State(rows: set<Key>, attempts: seq<Attempt>, reruns: multiset<Key>)

  datatype Step =
    | Connect(serverID: nat, bootTime: nat)
    | Insert(i: nat, failed: bool)
    | TokenFails(i: nat)
    | SendTask(i: nat, ok: bool)
    | DeleteRow(i: nat, ok: bool)
    | ForceRerun(key: Key)

  predicate InPhase(s: State, i: nat, phase: Phase) {
    i < |s.attempts| && s.attempts[i].phase == phase
  }

  /** A zero boot time never gets this far. */
  predicate Enabled(s: State, step: Step) {
    match step
    case Connect(_, bootTime) => bootTime != 0
    case Insert(i, _) => InPhase(s, i, Ready)
    case TokenFails(i) => InPhase(s, i, Holding)
    case SendTask(i, _) => InPhase(s, i, Holding)
    case DeleteRow(i, _) => InPhase(s, i, Failing)
    case ForceRerun(key) => key in s.rows
  }

  function Enter(s: State, i: nat, phase: Phase): seq<Attempt>
    requires i < |s.attempts|
  {
    s.attempts[i := s.attempts[i].(phase := phase)]
  }

  function Next(s: State, step: Step): State
    requires Enabled(s, step)
  {
    match step
    case Connect(serverID, bootTime) =>
      s.(attempts := s.attempts + [Attempt(Key(serverID, bootTime, SCRIPT_ID), Ready)])
    case Insert(i, failed) =>
      var key := s.attempts[i].key;
      if failed || key in s.rows then s.(attempts := Enter(s, i, Skipped))
      else s.(rows := s.rows + {key}, attempts := Enter(s, i, Holding))
    case TokenFails(i) => s.(attempts := Enter(s, i, Failing))
    case SendTask(i, ok) => s.(attempts := Enter(s, i, if ok then Sent else Failing))
    case DeleteRow(i, ok) =>
      if ok then s.(rows := s.rows - {s.attempts[i].key}, attempts := Enter(s, i, Failed))
      else s.(attempts := Enter(s, i, Stuck))
    case ForceRerun(key) => s.(rows := s.rows - {key}, reruns := s.reruns + multiset{key})
  }

  const START := State({}, [], multiset{})

  // ---- counting attempts

  predicate Live(a: Attempt) {
    a.phase.Holding? || a.phase.Failing? || a.phase.Sent? || a.phase.Stuck?
  }

  /** Attempts at `key` that hold its row, were sent, or left the row behind. */
  function LiveCount(attempts: seq<Attempt>, key: Key): nat {
    if attempts == [] then 0
    else LiveCount(attempts[1..], key) + if attempts[0].key == key && Live(attempts[0]) then 1 else 0
  }

  function SentCount(attempts: seq<Attempt>, key: Key): nat {
    if attempts == [] then 0
    else SentCount(attempts[1..], key) + if attempts[0].key == key && attempts[0].phase.Sent? then 1 else 0
  }

  lemma {:induction false} LiveCountUpdate(attempts: seq<Attempt>, i: nat, a: Attempt, key: Key)
    requires i < |attempts|
    ensures LiveCount(attempts[i := a], key)
            == LiveCount(attempts, key)
               - (if attempts[i].key == key && Live(attempts[i]) then 1 else 0)
               + (if a.key == key && Live(a) then 1 else 0)
  {
    if i == 0 {
      assert attempts[i := a][1..] == attempts[1..];
    } else {
      assert attempts[i := a][1..] == attempts[1..][i - 1 := a];
      LiveCountUpdate(attempts[1..], i - 1, a, key);
    }
  }

  lemma {:induction false} LiveCountAppend(attempts: seq<Attempt>, a: Attempt, key: Key)
    requires !Live(a)
    ensures LiveCount(attempts + [a], key) == LiveCount(attempts, key)
  {
    if attempts != [] {
      assert (attempts + [a])[1..] == attempts[1..] + [a];
      LiveCountAppend(attempts[1..], a, key);
    }
  }

  lemma {:induction false} SentIsLive(attempts: seq<Attempt>, key: Key)
    ensures SentCount(attempts, key) <= LiveCount(attempts, key)
  {
    if attempts != [] {
      SentIsLive(attempts[1..], key);
    }
  }

  lemma {:induction false} LiveIsCounted(attempts: seq<Attempt>, i: nat)
    requires i < |attempts| && Live(attempts[i])
    ensures LiveCount(attempts, attempts[i].key) >= 1
  {
    if i > 0 {
      LiveIsCounted(attempts[1..], i - 1);
    }
  }

  lemma {:induction false} TwoLiveAreCounted(attempts: seq<Attempt>, i: nat, j: nat)
    requires i < j < |attempts| && Live(attempts[i]) && Live(attempts[j]) && attempts[i].key == attempts[j].key
    ensures LiveCount(attempts, attempts[i].key) >= 2
  {
    if i > 0 {
      TwoLiveAreCounted(attempts[1..], i - 1, j - 1);
    } else {
      LiveIsCounted(attempts[1..], j - 1);
    }
  }

  // ---- the invariant

  function RowCount(s: State, key: Key): nat {
    if key in s.rows then 1 else 0
  }

  /** Live attempts are paid for by the row, or by a rerun that was forced; without reruns the row is
      there exactly while there is a live attempt. */
  ghost predicate Valid(s: State, key: Key) {
    && LiveCount(s.attempts, key) <= RowCount(s, key) + s.reruns[key]
    && (s.reruns[key] == 0 ==> LiveCount(s.attempts, key) == RowCount(s, key))
  }

  lemma StepValid(s: State, step: Step, key: Key)
    requires Valid(s, key) && Enabled(s, step)
    ensures Valid(Next(s, step), key)
    ensures Next(s, step).reruns[key] >= s.reruns[key]
  {
    var n := Next(s, step);
    match step
    case Connect(serverID, bootTime) => LiveCountAppend(s.attempts, n.attempts[|s.attempts|], key);
    case Insert(i, _) => LiveCountUpdate(s.attempts, i, n.attempts[i], key);
    case TokenFails(i) => LiveCountUpdate(s.attempts, i, n.attempts[i], key);
    case SendTask(i, _) => LiveCountUpdate(s.attempts, i, n.attempts[i], key);
    case DeleteRow(i, _) => LiveCountUpdate(s.attempts, i, n.attempts[i], key);
    case ForceRerun(_) =>
  }

  predicate Runnable(s: State, steps: seq<Step>)
    decreases steps
  {
    steps == [] || (Enabled(s, steps[0]) && Runnable(Next(s, steps[0]), steps[1..]))
  }

  function Run(s: State, steps: seq<Step>): State
    requires Runnable(s, steps)
    decreases steps
  {
    if steps == [] then s else Run(Next(s, steps[0]), steps[1..])
  }

  lemma {:induction false} RunValid(s: State, steps: seq<Step>, key: Key)
    requires Valid(s, key) && Runnable(s, steps)
    ensures Valid(Run(s, steps), key)
    decreases steps
  {
    if steps != [] {
      StepValid(s, steps[0], key);
      hide Valid, Next, Enabled;
      RunValid(Next(s, steps[0]), steps[1..], key);
    }
  }

  /** Over every interleaving, the script is sent at most once per server and boot, plus once for every
      rerun that was forced. */
  lemma OncePerBoot(steps: seq<Step>, key: Key)
    requires Runnable(START, steps)
    ensures var s := Run(START, steps);
      SentCount(s.attempts, key) <= 1 + s.reruns[key]
  {
    RunValid(START, steps, key);
    SentIsLive(Run(START, steps).attempts, key);
  }

  /** While nobody forces a rerun, only one attempt at a boot can send: the one that inserted the row. */
  lemma OnlyOneSender(steps: seq<Step>, i: nat, j: nat)
    requires Runnable(START, steps)
    requires var s := Run(START, steps);
      && i < |s.attempts| && j < |s.attempts| && i != j
      && s.attempts[i].key == s.attempts[j].key && s.reruns[s.attempts[i].key] == 0
      && Live(s.attempts[i])
    ensures var s := Run(START, steps);
      s.attempts[i].key in s.rows && !Live(s.attempts[j])
  {
    var s := Run(START, steps);
    var key := s.attempts[i].key;
    RunValid(START, steps, key);
    LiveIsCounted(s.attempts, i);
    if Live(s.attempts[j]) {
      TwoLiveAreCounted(s.attempts, if i < j then i else j, if i < j then j else i);
    }
  }

  /** Each step of an attempt: the row is inserted if absent; a failed token or Send leads to the deletion
      of the row, which frees the boot; a Send that succeeds leaves the row. */
  lemma AttemptSteps(s: State, i: nat)
    requires i < |s.attempts|
    ensures var key := s.attempts[i].key;
      InPhase(s, i, Ready) ==>
        && (key !in s.rows ==>
              && InPhase(Next(s, Insert(i, false)), i, Holding)
              && Next(s, Insert(i, false)).rows == s.rows + {key})
        && (key in s.rows ==>
              InPhase(Next(s, Insert(i, false)), i, Skipped) && Next(s, Insert(i, false)).rows == s.rows)
        && InPhase(Next(s, Insert(i, true)), i, Skipped) && Next(s, Insert(i, true)).rows == s.rows
    ensures InPhase(s, i, Holding) ==>
      && InPhase(Next(s, SendTask(i, true)), i, Sent) && Next(s, SendTask(i, true)).rows == s.rows
      && FailureFrees(s, i, Next(s, SendTask(i, false)))
      && FailureFrees(s, i, Next(s, TokenFails(i)))
    ensures forall key :: key in s.rows ==> Next(s, ForceRerun(key)).rows == s.rows - {key}
  {
  }

  /** After the failure the row is still there, its deletion is next, and then it is gone. */
  predicate FailureFrees(s: State, i: nat, failed: State)
    requires i < |s.attempts|
  {
    && failed.rows == s.rows && |failed.attempts| == |s.attempts| && failed.attempts[i].key == s.attempts[i].key
    && Enabled(failed, DeleteRow(i, true)) && Enabled(failed, DeleteRow(i, false))
    && s.attempts[i].key !in Next(failed, DeleteRow(i, true)).rows
    && Next(failed, DeleteRow(i, false)).rows == s.rows
  }

  datatype Failure = TokenFailed | SendFailed

  function FailureStep(f: Failure, i: nat): Step {
    if f.TokenFailed? then TokenFails(i) else SendTask(i, false)
  }

  /** From an attempt that holds the row, a failure of the token or of the Send leads to the deletion of the
      row; the next attempt at that boot gets to send if it succeeds; and, as long as nobody forced a
      rerun, only then. */
  lemma FailureAllowsRetry(steps: seq<Step>, i: nat, f: Failure, ok: bool, serverID: nat, bootTime: nat)
    requires Runnable(START, steps) && bootTime != 0
    requires var s := Run(START, steps);
      i < |s.attempts| && s.attempts[i] == Attempt(Key(serverID, bootTime, SCRIPT_ID), Holding)
    ensures var s := Run(START, steps);
      var failed := Next(s, FailureStep(f, i));
      && Enabled(failed, DeleteRow(i, ok))
      && var deleted := Next(failed, DeleteRow(i, ok));
         var j := |s.attempts|;
         var retry := [Connect(serverID, bootTime), Insert(j, false), SendTask(j, true)];
         && (ok ==>
               && s.attempts[i].key !in deleted.rows
               && Runnable(deleted, retry)
               && |Run(deleted, retry).attempts| == j + 1
               && Run(deleted, retry).attempts[j] == Attempt(s.attempts[i].key, Sent))
         && (s.reruns[s.attempts[i].key] == 0 ==> (Runnable(deleted, retry) <==> ok))
  {
    RunValid(START, steps, Key(serverID, bootTime, SCRIPT_ID));
    LiveIsCounted(Run(START, steps).attempts, i);
    hide Run;
    var s := Run(START, steps);
    AttemptSteps(s, i);
    var deleted := Next(Next(s, FailureStep(f, i)), DeleteRow(i, ok));
    if ok {
      RetrySends(deleted, serverID, bootTime);
    } else if s.reruns[s.attempts[i].key] == 0 {
      RetrySkipped(deleted, serverID, bootTime);
    }
  }

  /** Whatever has happened since the failure: once the row is to be deleted, the next attempt at that boot
      gets to send if the deletion succeeds; and, as long as nobody forced a rerun, only then. */
  lemma DeletionAllowsRetry(steps: seq<Step>, i: nat, ok: bool, serverID: nat, bootTime: nat)
    requires Runnable(START, steps) && bootTime != 0
    requires var s := Run(START, steps);
      i < |s.attempts| && s.attempts[i] == Attempt(Key(serverID, bootTime, SCRIPT_ID), Failing)
    ensures var s := Run(START, steps);
      var deleted := Next(s, DeleteRow(i, ok));
      var j := |s.attempts|;
      var retry := [Connect(serverID, bootTime), Insert(j, false), SendTask(j, true)];
      && (ok ==>
            && s.attempts[i].key !in deleted.rows
            && Runnable(deleted, retry)
            && |Run(deleted, retry).attempts| == j + 1
            && Run(deleted, retry).attempts[j] == Attempt(s.attempts[i].key, Sent))
      && (s.reruns[s.attempts[i].key] == 0 ==> (Runnable(deleted, retry) <==> ok))
  {
    RunValid(START, steps, Key(serverID, bootTime, SCRIPT_ID));
    LiveIsCounted(Run(START, steps).attempts, i);
    hide Run;
    var s := Run(START, steps);
    var deleted := Next(s, DeleteRow(i, ok));
    if ok {
      RetrySends(deleted, serverID, bootTime);
    } else if s.reruns[s.attempts[i].key] == 0 {
      RetrySkipped(deleted, serverID, bootTime);
    }
  }

  lemma RetrySkipped(s: State, serverID: nat, bootTime: nat)
    requires bootTime != 0 && Key(serverID, bootTime, SCRIPT_ID) in s.rows
    ensures var j := |s.attempts|;
      !Runnable(s, [Connect(serverID, bootTime), Insert(j, false), SendTask(j, true)])
  {
    var j := |s.attempts|;
    var s1 := Next(s, Connect(serverID, bootTime));
    var s2 := Next(s1, Insert(j, false));
    assert s2.attempts[j].phase == Skipped;
    assert !Runnable(s2, [SendTask(j, true)]);
    assert !Runnable(s1, [Insert(j, false), SendTask(j, true)]);
  }

  /** A row left behind blocks the boot for good: without a forced rerun no other attempt at it ever
      sends, however many come. */
  lemma {:induction false} StuckBlocks(steps: seq<Step>, more: seq<Step>, i: nat, j: nat)
    requires Runnable(START, steps) && i != j
    requires var s := Run(START, steps);
      && InPhase(s, i, Stuck) && Runnable(s, more)
      && Run(s, more).reruns[s.attempts[i].key] == 0
    ensures var e := Run(Run(START, steps), more);
      && InPhase(e, i, Stuck) && e.attempts[i].key in e.rows
      && (j < |e.attempts| && e.attempts[j].key == e.attempts[i].key ==> !Live(e.attempts[j]))
  {
    var s := Run(START, steps);
    StuckStays(s, more, i);
    RunAppend(START, steps, more);
    var e := Run(s, more);
    if j < |e.attempts| && e.attempts[j].key == e.attempts[i].key {
      OnlyOneSender(steps + more, i, j);
    } else {
      RunValid(START, steps + more, e.attempts[i].key);
      LiveIsCounted(e.attempts, i);
    }
  }

  lemma {:induction false} StuckStays(s: State, steps: seq<Step>, i: nat)
    requires Runnable(s, steps) && InPhase(s, i, Stuck)
    ensures InPhase(Run(s, steps), i, Stuck) && Run(s, steps).attempts[i] == s.attempts[i]
    decreases steps
  {
    if steps != [] {
      assert InPhase(Next(s, steps[0]), i, Stuck) && Next(s, steps[0]).attempts[i] == s.attempts[i];
      hide Next, Enabled;
      StuckStays(Next(s, steps[0]), steps[1..], i);
    }
  }

  lemma {:induction false} RunAppend(s: State, first: seq<Step>, second: seq<Step>)
    requires Runnable(s, first) && Runnable(Run(s, first), second)
    ensures Runnable(s, first + second) && Run(s, first + second) == Run(Run(s, first), second)
    decreases first
  {
    if first == [] {
      assert first + second == second;
    } else {
      assert (first + second)[1..] == first[1..] + second;
      hide Next;
      RunAppend(Next(s, first[0]), first[1..], second);
    }
  }

  lemma RetrySends(s: State, serverID: nat, bootTime: nat)
    requires bootTime != 0 && Key(serverID, bootTime, SCRIPT_ID) !in s.rows
    ensures var j := |s.attempts|;
      var retry := [Connect(serverID, bootTime), Insert(j, false), SendTask(j, true)];
      && Runnable(s, retry)
      && |Run(s, retry).attempts| == j + 1
      && Run(s, retry).attempts[j] == Attempt(Key(serverID, bootTime, SCRIPT_ID), Sent)
  {
    var j, key := |s.attempts|, Key(serverID, bootTime, SCRIPT_ID);
    var s1 := Next(s, Connect(serverID, bootTime));
    var s2 := Next(s1, Insert(j, false));
    assert s2.attempts[j] == Attempt(key, Holding);
    var s3 := Next(s2, SendTask(j, true));
    assert Run(s2, [SendTask(j, true)]) == s3;
    assert Run(s1, [Insert(j, false), SendTask(j, true)]) == s3;
  }

  // ---- one dispatch without company

  /** The steps of one attempt that nobody else interferes with. */
  function SoloSteps(i: nat, present: bool, insertOk: bool, tokenOk: bool, sendOk: bool, deleteOk: bool): seq<Step> {
    if !insertOk || present then [Insert(i, !insertOk)]
    else if !tokenOk then [Insert(i, false), TokenFails(i), DeleteRow(i, deleteOk)]
    else if sendOk then [Insert(i, false), SendTask(i, true)]
    else [Insert(i, false), SendTask(i, false), DeleteRow(i, deleteOk)]
  }

  /** Where they lead. */
  lemma SoloRun(s: State, i: nat, insertOk: bool, tokenOk: bool, sendOk: bool, deleteOk: bool)
    requires InPhase(s, i, Ready)
    ensures var key := s.attempts[i].key;
      var steps := SoloSteps(i, key in s.rows, insertOk, tokenOk, sendOk, deleteOk);
      && Runnable(s, steps)
      && var e := Run(s, steps);
         && i < |e.attempts|
         && e.attempts[i].phase == (if !insertOk || key in s.rows then Skipped
                                    else if tokenOk && sendOk then Sent
                                    else if deleteOk then Failed else Stuck)
         && e.rows ==
            (if insertOk && key !in s.rows && (!deleteOk || (tokenOk && sendOk)) then s.rows + {key} else s.rows)
  {
    var key := s.attempts[i].key;
    var steps := SoloSteps(i, key in s.rows, insertOk, tokenOk, sendOk, deleteOk);
    var s1 := Next(s, steps[0]);
    if |steps| == 1 {
      assert steps[1..] == [];
    } else {
      var s2 := Next(s1, steps[1]);
      assert Runnable(s2, steps[2..]) && (|steps| == 2 ==> steps[2..] == []);
      if |steps| == 3 {
        assert steps[2..] == [DeleteRow(i, deleteOk)] && steps[2..][1..] == [];
        assert Run(s2, steps[2..]) == Next(s2, DeleteRow(i, deleteOk));
      }
      assert steps[1..][1..] == steps[2..];
      assert Run(s1, steps[1..]) == Run(s2, steps[2..]);
    }
  }

  function PhaseOf(r: Outcome): Phase {
    match r
    case InsertFailed => Skipped
    case AlreadyDispatched => Skipped
    case Dispatched => Sent
    case DispatchFailed(deleted) => if deleted then Failed else Stuck
  }

  datatype Outcome = InsertFailed | AlreadyDispatched | Dispatched | DispatchFailed(rowDeleted: bool)

  class BootRuns {
    var rows: set<Key>
    var sent: seq<Key>

    constructor ()
      ensures rows == {} && sent == []
    {
      rows, sent := {}, [];
    }

    /** The tail of dispatchIDXMetaOnce: insert if absent, build the token, send. */
    method DispatchOnce(serverID: nat, bootTime: nat, insertOk: bool, tokenOk: bool, sendOk: bool, deleteOk: bool)
      returns (r: Outcome)
      modifies this
      ensures var key := Key(serverID, bootTime, SCRIPT_ID);
        && (r.InsertFailed? <==> !insertOk)
        && (r.AlreadyDispatched? <==> insertOk && key in old(rows))
        && (r.Dispatched? <==> insertOk && key !in old(rows) && tokenOk && sendOk)
        && (r.DispatchFailed? ==> r.rowDeleted == deleteOk)
        && rows == (if r.Dispatched? || (r.DispatchFailed? && !deleteOk) then old(rows) + {key} else old(rows))
        && sent == (if r.Dispatched? then old(sent) + [key] else old(sent))
      ensures forall s: State, i: nat ::
                && InPhase(s, i, Ready) && s.rows == old(rows)
                && s.attempts[i].key == Key(serverID, bootTime, "idx-meta") ==>
                  var steps := SoloSteps(i, s.attempts[i].key in s.rows, insertOk, tokenOk, sendOk, deleteOk);
                  Runnable(s, steps) && InPhase(Run(s, steps), i, PhaseOf(r)) && Run(s, steps).rows == rows
    {
      var key := Key(serverID, bootTime, SCRIPT_ID);
      if !insertOk {
        r := InsertFailed;
      } else if key in rows {
        r := AlreadyDispatched;
      } else {
        rows := rows + {key};
        if !tokenOk {
          DeleteRun(key, deleteOk);
          r := DispatchFailed(deleteOk);
        } else if sendOk {
          sent := sent + [key];
          r := Dispatched;
        } else {
          DeleteRun(key, deleteOk);
          r := DispatchFailed(deleteOk);
        }
        assert old(rows) + {key} - {key} == old(rows);
      }
      forall s: State, i: nat | InPhase(s, i, Ready) && s.attempts[i].key == key && s.rows == old(rows)
        ensures var steps := SoloSteps(i, key in s.rows, insertOk, tokenOk, sendOk, deleteOk);
          Runnable(s, steps) && InPhase(Run(s, steps), i, PhaseOf(r)) && Run(s, steps).rows == rows
      {
        SoloRun(s, i, insertOk, tokenOk, sendOk, deleteOk);
      }
    }

    /** The error of the deletion is ignored. */
    method DeleteRun(key: Key, ok: bool)
      modifies this`rows
      ensures rows == if ok then old(rows) - {key} else old(rows)
    {
      if ok {
        rows := rows - {key};
      }
    }
  }
}
