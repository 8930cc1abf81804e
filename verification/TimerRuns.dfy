/** What timers are for: over a whole run, exactly which records make an event. */
module TimerRuns {
  import opened Timers

  // ---------------------------------------------------------------- the life of a record

  /** The step takes a listed record out of the table: a callback that finds the program exiting or
      the computer gone, the record's provider, or a cancel with its id. */
  ghost predicate Takes(s: State, step: Step, a: Address)
  {
    a in s.records && s.records[a].stage == Listed &&
    match step
    case Notify(b) => b == a && (s.exiting || s.records[a].timer in s.dead)
    case Deliver(b) => b == a
    case Erase(_, id) => id == s.records[a].timer
    case _ => false
  }

  /** A callback that is none of these makes an event pending. */
  ghost predicate Fires(s: State, step: Step, a: Address)
  {
    && step == Notify(a) && a in s.records && s.records[a].stage == Listed
    && !s.exiting && s.records[a].timer !in s.dead
  }

  /** The step is the start's own, on its new record. */
  predicate Own(s: State, step: Step, a: Address)
  {
    (step.Arm? || step.Read?) && step.c in s.calls && s.calls[step.c].a == a
  }

  function NextStage(s: State, step: Step, a: Address): Stage
    requires a in s.records
  {
    match s.records[a].stage
    case New => if !Own(s, step, a) || step == Arm(step.c, 0) then New else if step.Arm? then Listed else Freed
    case Listed =>
      if step == Deliver(a) || (step == Notify(a) && (s.exiting || s.records[a].timer in s.dead)) then Freed
      else if step.Erase? && step.id == s.records[a].timer then Cancelling(step.c)
      else Listed
    case Cancelling(c) => if step == Release(c) && c in s.calls && s.calls[c].a == a then Freed else Cancelling(c)
    case Freed => Freed
  }

  /** A record's life: made by a start, listed once SDL gives a timer, then delivered, cancelled or
      dropped, and freed. Its computer and kind never change, its timer is set once. */
  ghost predicate Lives(s: State, step: Step, a: Address, t: State)
    requires a in s.records
  {
    var r := s.records[a];
    && a in t.records
    && t.records[a].comp == r.comp && t.records[a].alarm == r.alarm
    && t.records[a].timer == (if Own(s, step, a) && step.Arm? then step.id else r.timer)
    && t.records[a].stage == NextStage(s, step, a)
  }

  lemma LivesNotify(s: State, b: Address, a: Address)
    requires Inv(s) && b in s.records && a in s.records
    ensures Lives(s, Notify(b), a, Notified(s, b))
  {
    hide Inv, Found;
    FoundIsListed(s, b);
  }

  lemma LivesDeliver(s: State, b: Address, a: Address)
    requires Inv(s) && b in s.records && a in s.records
    ensures Lives(s, Deliver(b), a, Provided(s, b))
  {
    hide Inv, Found;
    FoundIsListed(s, b);
  }

  lemma LivesErase(s: State, c: Computer, id: TimerId, a: Address)
    requires Inv(s) && Enabled(s, Erase(c, id)) && a in s.records
    ensures Lives(s, Erase(c, id), a, Erased(s, c, id))
  {
    hide Safe, Entries, Calls, Records;
    EntryAt(s, id);
    RecordAt(s, a);
  }

  lemma RecordAt(s: State, a: Address)
    requires Inv(s) && a in s.records
    ensures RecordOk(s, a)
  {
  }

  lemma LivesCall(s: State, step: Step, a: Address)
    requires Inv(s) && Enabled(s, step) && a in s.records && (step.Arm? || step.Read? || step.Release?)
    ensures Lives(s, step, a, Do(s, step))
  {
    hide Safe, Entries, Calls, Records;
    CallAt(s, step.c);
  }

  lemma LifeCycle(s: State, step: Step, a: Address)
    requires Inv(s) && Enabled(s, step) && a in s.records
    ensures Lives(s, step, a, Do(s, step))
  {
    match step
    case Notify(b) => LivesNotify(s, b, a);
    case Deliver(b) => LivesDeliver(s, b, a);
    case Erase(c, id) => LivesErase(s, c, id, a);
    case Arm(_, _) => LivesCall(s, step, a);
    case Read(_) => LivesCall(s, step, a);
    case Release(_) => LivesCall(s, step, a);
    case _ =>
  }

  // ---------------------------------------------------------------- the states of a run

  ghost function Trace(s: State, steps: seq<Step>): (t: seq<State>)
    requires IsRun(s, steps)
    ensures |t| == |steps| + 1 && t[0] == s
    decreases |steps|
  {
    if steps == [] then [s] else [s] + Trace(Do(s, steps[0]), steps[1..])
  }

  /** Every step goes on from the state before; this is all the proofs need of a run. */
  ghost predicate Steps(t: seq<State>, steps: seq<Step>)
  {
    && |t| == |steps| + 1
    && (forall k :: 0 <= k <= |steps| ==> Inv(t[k]))
    && (forall k :: 0 <= k < |steps| ==> Enabled(t[k], steps[k]) && t[k + 1] == Do(t[k], steps[k]))
  }

  lemma StepsFront(s: State, step: Step, t: seq<State>, steps: seq<Step>)
    requires Inv(s) && Enabled(s, step) && Steps(t, steps) && t[0] == Do(s, step)
    ensures Steps([s] + t, [step] + steps)
  {
    hide Inv, Enabled, Do;
    var t', steps' := [s] + t, [step] + steps;
    forall k | 0 <= k <= |steps'|
      ensures Inv(t'[k])
    {
      assert k > 0 ==> t'[k] == t[k - 1];
    }
    forall k {:trigger steps'[k]} | 0 <= k < |steps'|
      ensures Enabled(t'[k], steps'[k]) && t'[k + 1] == Do(t'[k], steps'[k])
    {
      assert t'[k + 1] == t[k];
      if k > 0 {
        assert t'[k] == t[k - 1] && steps'[k] == steps[k - 1];
      }
    }
  }

  lemma {:induction false} TraceIs(s: State, steps: seq<Step>)
    requires IsRun(s, steps) && Inv(s)
    ensures Steps(Trace(s, steps), steps) && Trace(s, steps)[|steps|] == After(s, steps)
    decreases |steps|
  {
    hide Inv, Enabled, Do, Steps;
    if steps == [] {
      StepsNone(s, steps);
    } else {
      var next := Do(s, steps[0]);
      StepInv(s, steps[0]);
      TraceIs(next, steps[1..]);
      StepsFront(s, steps[0], Trace(next, steps[1..]), steps[1..]);
      assert [steps[0]] + steps[1..] == steps;
    }
  }

  lemma StepsNone(s: State, steps: seq<Step>)
    requires Inv(s) && steps == []
    ensures Steps([s], steps)
  {
  }

  ghost predicate InTable(s: State, a: Address)
  {
    a in s.records && s.records[a].stage == Listed
  }

  /** The record was taken out of the table. */
  ghost predicate Gone(s: State, a: Address)
  {
    a in s.records && (s.records[a].stage.Cancelling? || s.records[a].stage == Freed)
  }

  lemma StepAt(t: seq<State>, steps: seq<Step>, k: nat, a: Address)
    requires Steps(t, steps) && k < |steps| && a in t[k].records
    ensures Lives(t[k], steps[k], a, t[k + 1])
  {
    hide Inv, Enabled, Do, Lives;
    LifeCycle(t[k], steps[k], a);
  }

  /** A listed record stays listed until a step takes it. */
  lemma ListedStep(t: seq<State>, steps: seq<Step>, k: nat, a: Address)
    requires Steps(t, steps) && k < |steps|
    ensures InTable(t[k], a) ==> if Takes(t[k], steps[k], a) then Gone(t[k + 1], a) else InTable(t[k + 1], a)
    ensures Gone(t[k], a) ==> Gone(t[k + 1], a)
  {
    hide Inv, Enabled, Do;
    if a in t[k].records {
      StepAt(t, steps, k, a);
    }
  }

  lemma {:induction false} GoneLater(t: seq<State>, steps: seq<Step>, i: nat, j: nat, a: Address)
    requires Steps(t, steps) && i <= j <= |steps| && Gone(t[i], a)
    ensures Gone(t[j], a)
    decreases j
  {
    hide Steps, Gone;
    TraceLength(t, steps);
    if i < j {
      GoneLater(t, steps, i, j - 1, a);
      ListedStep(t, steps, j - 1, a);
    }
  }

  lemma TraceLength(t: seq<State>, steps: seq<Step>)
    requires Steps(t, steps)
    ensures |t| == |steps| + 1
  {
  }

  /** From where it was listed, a record is listed exactly until the first step that takes it. */
  lemma {:induction false} ListedUntil(t: seq<State>, steps: seq<Step>, i: nat, j: nat, a: Address)
    requires Steps(t, steps) && i <= j <= |steps| && InTable(t[i], a)
    ensures |t| == |steps| + 1
    ensures InTable(t[j], a) <==> forall k :: i <= k < j ==> !Takes(t[k], steps[k], a)
    ensures InTable(t[j], a) || Gone(t[j], a)
    decreases j
  {
    hide Steps, Takes;
    TraceLength(t, steps);
    if i < j {
      ListedUntil(t, steps, i, j - 1, a);
      ListedStep(t, steps, j - 1, a);
    }
  }

  // ---------------------------------------------------------------- what makes an event

  /** A callback that fires makes one more event pending. */
  lemma FiringQueues(s: State, step: Step, a: Address)
    requires Inv(s) && Enabled(s, step) && Fires(s, step, a)
    ensures var t := Do(s, step);
            && t.queued == s.queued + multiset{a} && InTable(t, a) && t.records == s.records
            && (Enabled(t, Deliver(a)) <==> s.records[a].comp !in s.calls)
            && (Enabled(t, Deliver(a)) ==> Emit(a) in Do(t, Deliver(a)).log)
  {
    hide Inv;
    FoundIsListed(s, a);
    StepInv(s, step);
    var t := Do(s, step);
    FoundIsListed(t, a);
    if Enabled(t, Deliver(a)) {
      Emits(t, a);
    }
  }

  lemma Emits(s: State, a: Address)
    requires Inv(s) && Enabled(s, Deliver(a)) && InTable(s, a)
    ensures Emit(a) in Do(s, Deliver(a)).log
  {
    hide Inv;
    FoundIsListed(s, a);
    var ops := [Use(Provider, a), Emit(a)] + [Free(a)];
    assert ops[1] == Emit(a);
  }

  /** Only a firing callback makes an event pending. */
  lemma QueuedStep(s: State, step: Step, a: Address)
    requires Inv(s) && Enabled(s, step) && a in Do(s, step).queued && a !in s.queued
    ensures Fires(s, step, a)
  {
    hide Inv, Found;
    if step.Notify? {
      FoundIsListed(s, step.a);
    }
  }

  lemma EmitNotify(s: State, b: Address, a: Address)
    requires Inv(s) && b in s.records
    ensures Emit(a) in Notified(s, b).log <==> Emit(a) in s.log
  {
    hide Inv, Found;
  }

  lemma EmitDeliver(s: State, b: Address, a: Address)
    requires Inv(s) && b in s.records
    ensures Emit(a) in Provided(s, b).log <==> Emit(a) in s.log || (a == b && InTable(s, b))
  {
    hide Inv, Found;
    FoundIsListed(s, b);
    var ops := [Use(Provider, b), Emit(b)] + [Free(b)];
    assert ops[1] == Emit(b);
  }

  /** Only the provider of a listed record emits. */
  lemma EmitStep(s: State, step: Step, a: Address)
    requires Inv(s) && Enabled(s, step)
    ensures Emit(a) in Do(s, step).log <==> Emit(a) in s.log || (step == Deliver(a) && InTable(s, a))
  {
    hide Inv, Notified, Provided, InTable;
    match step
    case Notify(b) => EmitNotify(s, b, a);
    case Deliver(b) => EmitDeliver(s, b, a);
    case _ =>
  }

  lemma {:induction false} EmittedWhen(t: seq<State>, steps: seq<Step>, n: nat, a: Address)
    requires Steps(t, steps) && n <= |steps| && Emit(a) !in t[0].log
    ensures |t| == |steps| + 1
    ensures Emit(a) in t[n].log <==> exists j :: 0 <= j < n && steps[j] == Deliver(a) && InTable(t[j], a)
  {
    hide Inv, Enabled, Do, InTable;
    if n > 0 {
      EmittedWhen(t, steps, n - 1, a);
      EmitStep(t[n - 1], steps[n - 1], a);
    }
  }

  lemma {:induction false} QueuedAfter(t: seq<State>, steps: seq<Step>, n: nat, a: Address)
    requires Steps(t, steps) && n <= |steps| && a !in t[0].queued && a in t[n].queued
    ensures |t| == |steps| + 1
    ensures exists i :: 0 <= i < n && Fires(t[i], steps[i], a)
  {
    hide Inv, Enabled, Do, Fires;
    if n > 0 {
      if a in t[n - 1].queued {
        QueuedAfter(t, steps, n - 1, a);
      } else {
        QueuedStep(t[n - 1], steps[n - 1], a);
      }
    }
  }

  /** The callback fired at `i`, the provider ran at `j`, and nothing took the record between. */
  ghost predicate Served(t: seq<State>, steps: seq<Step>, i: nat, j: nat, a: Address)
    requires |t| == |steps| + 1
  {
    && i < j < |steps| && Fires(t[i], steps[i], a) && steps[j] == Deliver(a)
    && forall k :: i < k < j ==> !Takes(t[k], steps[k], a)
  }

  lemma FiredListed(t: seq<State>, steps: seq<Step>, i: nat, a: Address)
    requires Steps(t, steps) && i < |steps| && Fires(t[i], steps[i], a)
    ensures InTable(t[i], a) && InTable(t[i + 1], a)
  {
    hide Inv;
    FiringQueues(t[i], steps[i], a);
  }

  /** The first direction: being served means being listed when the provider runs. */
  lemma ServedListed(t: seq<State>, steps: seq<Step>, i: nat, j: nat, a: Address)
    requires Steps(t, steps) && Served(t, steps, i, j, a)
    ensures InTable(t[j], a)
  {
    hide Inv, Enabled, Do, Takes, Fires, InTable;
    FiredListed(t, steps, i, a);
    ListedUntil(t, steps, i + 1, j, a);
  }

  /** The other: what is delivered while listed was made pending by a callback that fired. */
  lemma ListedServed(t: seq<State>, steps: seq<Step>, j: nat, a: Address)
    requires Steps(t, steps) && a !in t[0].queued && j < |steps| && steps[j] == Deliver(a) && InTable(t[j], a)
    ensures exists i :: Served(t, steps, i, j, a)
  {
    hide Inv, Do, Takes, Fires, Gone;
    QueuedAfter(t, steps, j, a);
    var i :| 0 <= i < j && Fires(t[i], steps[i], a);
    FiredListed(t, steps, i, a);
    ListedUntil(t, steps, i + 1, j, a);
    assert Served(t, steps, i, j, a);
  }

  /** In every run a record makes its event if and only if its callback fires, that is, runs while
      the record is listed, the program not exiting and the computer not gone, and later its
      provider runs, with no cancel, exit or destruction taking it between. */
  lemma EmittedIff(steps: seq<Step>, a: Address)
    requires IsRun(Initial(), steps)
    ensures var t := Trace(Initial(), steps);
            Emit(a) in After(Initial(), steps).log <==> exists i, j :: Served(t, steps, i, j, a)
  {
    hide IsRun, After, Trace, Served, InTable;
    var t := Trace(Initial(), steps);
    TraceIs(Initial(), steps);
    EmittedWhen(t, steps, |steps|, a);
    if Emit(a) in After(Initial(), steps).log {
      var j :| 0 <= j < |steps| && steps[j] == Deliver(a) && InTable(t[j], a);
      ListedServed(t, steps, j, a);
    }
    if i, j :| Served(t, steps, i, j, a) {
      ServedListed(t, steps, i, j, a);
      ServedDelivers(t, steps, i, j, a);
    }
  }

  lemma ServedDelivers(t: seq<State>, steps: seq<Step>, i: nat, j: nat, a: Address)
    requires |t| == |steps| + 1 && Served(t, steps, i, j, a)
    ensures j < |steps| && steps[j] == Deliver(a)
  {
  }

  // ---------------------------------------------------------------- nothing is lost or left over

  /** A record that is not in the table and not freed belongs to a call that has not ended. */
  ghost predicate OwnedAt(s: State, a: Address)
    requires a in s.records
  {
    var r := s.records[a];
    && (r.stage == New ==> r.comp in s.calls && s.calls[r.comp].a == a && !s.calls[r.comp].Releasing?)
    && (r.stage.Cancelling? ==> r.stage.c in s.calls && s.calls[r.stage.c] == Releasing(a))
  }

  ghost predicate Owned(s: State)
  {
    forall a :: a in s.records ==> OwnedAt(s, a)
  }

  /** Only a computer's own steps move its call on. */
  lemma CallStays(s: State, step: Step, c: Computer)
    requires Enabled(s, step) && c in s.calls
    requires !((step.Arm? || step.Read? || step.Release?) && step.c == c)
    ensures c in Do(s, step).calls && Do(s, step).calls[c] == s.calls[c]
  {
    hide Found;
  }

  lemma ArmedCall(s: State, step: Step)
    requires Enabled(s, step) && step.Arm?
    ensures step.c in Do(s, step).calls && Do(s, step).calls[step.c] == Tail(s.calls[step.c].a, 3)
  {
  }

  lemma ErasedCall(s: State, step: Step, a: Address)
    requires Enabled(s, step) && step.Erase? && step.id in s.running && s.running[step.id] == a
    ensures step.c in Do(s, step).calls && Do(s, step).calls[step.c] == Releasing(a)
  {
  }

  lemma OldOwned(s: State, step: Step, a: Address)
    requires Inv(s) && Enabled(s, step) && a in s.records && OwnedAt(s, a)
    ensures a in Do(s, step).records && OwnedAt(Do(s, step), a)
  {
    hide Safe, Entries, Calls, Records, Do;
    LifeCycle(s, step, a);
    RecordAt(s, a);
    var r := s.records[a];
    match r.stage
    case New =>
      CallAt(s, r.comp);
      if step.Arm? && step.c == r.comp {
        ArmedCall(s, step);
      } else if !(step.Read? && step.c == r.comp) {
        CallStays(s, step, r.comp);
      }
    case Listed =>
      if step.Erase? && step.id == r.timer {
        ErasedCall(s, step, a);
      }
    case Cancelling(c) =>
      if step != Release(c) {
        CallStays(s, step, c);
      }
    case Freed =>
  }

  lemma NewRecord(s: State, step: Step, a: Address)
    requires Enabled(s, step) && a !in s.records && a in Do(s, step).records
    ensures step.Begin? && step.a == a
    ensures Do(s, step).records[a] == Record(step.c, 0, step.alarm, New) && OwnedAt(Do(s, step), a)
  {
    hide Found;
  }

  lemma StepOwned(s: State, step: Step)
    requires Inv(s) && Enabled(s, step) && Owned(s)
    ensures Owned(Do(s, step))
  {
    hide Inv, Enabled, Do, OwnedAt;
    forall a | a in Do(s, step).records
      ensures OwnedAt(Do(s, step), a)
    {
      if a in s.records {
        OldOwned(s, step, a);
      } else {
        NewRecord(s, step, a);
      }
    }
  }

  lemma {:induction false} RunOwned(s: State, steps: seq<Step>)
    requires Inv(s) && Owned(s) && IsRun(s, steps)
    ensures Owned(After(s, steps))
    decreases |steps|
  {
    hide Inv, Enabled, Do, Owned;
    if steps != [] {
      StepInv(s, steps[0]);
      StepOwned(s, steps[0]);
      RunOwned(Do(s, steps[0]), steps[1..]);
    }
  }

  lemma InitialInv()
    ensures Inv(Initial()) && Owned(Initial())
  {
  }

  /** When no call is under way, every record ever made is in the table or was freed. */
  lemma NothingLeaks(steps: seq<Step>, a: Address)
    requires IsRun(Initial(), steps) && After(Initial(), steps).calls == map[]
    requires a in After(Initial(), steps).records
    ensures var s := After(Initial(), steps); Found(s, a) || Free(a) in s.log
  {
    hide Safe, Entries, Calls, Records, IsRun, After, Found;
    InitialInv();
    RunInv(Initial(), steps);
    RunOwned(Initial(), steps);
    var s := After(Initial(), steps);
    assert OwnedAt(s, a);
    RecordAt(s, a);
    FoundIsListed(s, a);
  }

  /** A record's computer and kind are those of the start that made it. */
  lemma {:induction false} RecordOrigin(t: seq<State>, steps: seq<Step>, n: nat, a: Address)
    requires Steps(t, steps) && n <= |steps| && a !in t[0].records && a in t[n].records
    ensures |t| == |steps| + 1
    ensures exists i :: 0 <= i < n && steps[i] == Begin(t[n].records[a].comp, a, t[n].records[a].alarm)
  {
    hide Inv, Enabled, Do;
    if n > 0 {
      if a in t[n - 1].records {
        RecordOrigin(t, steps, n - 1, a);
        StepAt(t, steps, n - 1, a);
      } else {
        NewRecord(t[n - 1], steps[n - 1], a);
      }
    }
  }

  /** Its timer, if it has one, is what SDL answered to that start. */
  lemma {:induction false} TimerOrigin(t: seq<State>, steps: seq<Step>, n: nat, a: Address)
    requires Steps(t, steps) && n <= |steps| && a !in t[0].records && a in t[n].records && t[n].records[a].timer != 0
    ensures |t| == |steps| + 1
    ensures exists i :: 0 <= i < n && steps[i].Arm? && Own(t[i], steps[i], a) && steps[i].id == t[n].records[a].timer
  {
    hide Inv, Enabled, Do, Own;
    if n > 0 {
      if a in t[n - 1].records {
        StepAt(t, steps, n - 1, a);
        if !(Own(t[n - 1], steps[n - 1], a) && steps[n - 1].Arm?) {
          TimerOrigin(t, steps, n - 1, a);
        }
      } else {
        NewRecord(t[n - 1], steps[n - 1], a);
      }
    }
  }
}
