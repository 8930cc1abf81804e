/** Timer records, shared by the call that starts a timer, the SDL callback, the event
    provider and a cancel call. Each critical section is one step; a record's address is
    never handed out again. */
module Timers {

  type Address = nat
  type Computer = nat
  /** Zero is SDL's answer when it cannot create a timer. */
  type TimerId = nat

  /** Who may free a record. A history variable: no step looks at it. */
  datatype Stage = New | Listed | Cancelling(c: Computer) | Freed

  datatype Record = Record(comp: Computer, timer: TimerId, alarm: bool, stage: Stage)

  /** Where a computer's thread is inside a call. After arming, a start still reads its
      record `left` times, without the lock. */
  datatype Call = Starting(a: Address) | Tail(a: Address, left: nat) | Releasing(a: Address)

  datatype Who = Starter | Callback | Provider | Canceller

  /** What happened to records. `Cancelled` is the moment a cancel takes one out of the table. */
  datatype Op = Use(who: Who, a: Address) | Free(a: Address) | Emit(a: Address) | Cancelled(a: Address)

  datatype State = State(
    records: map<Address, Record>,
    calls: map<Computer, Call>,
    running: map<TimerId, Address>,
    queued: multiset<Address>,
    dead: set<TimerId>,
    exiting: bool,
    log: seq<Op>)

  datatype Step =
    | Begin(c: Computer, a: Address, alarm: bool)
    | Arm(c: Computer, id: TimerId)
    | Read(c: Computer)
    | Notify(a: Address)
    | Deliver(a: Address)
    | Erase(c: Computer, id: TimerId)
    | Release(c: Computer)
    | Destroy(c: Computer, ids: set<TimerId>)
    | Exit

  function Initial(): State
  {
    State(map[], map[], map[], multiset{}, {}, false, [])
  }

  /** The search through the table for a record. */
  ghost predicate Found(s: State, a: Address)
  {
    exists id :: id in s.running && s.running[id] == a
  }

  /** Providers run, and cancels are made, on a computer's own thread; the callback may run
      at any time and any number of times, even after SDL was told to remove the timer. */
  ghost predicate Enabled(s: State, step: Step)
  {
    match step
    case Begin(c, a, _) => c !in s.calls && a !in s.records
    case Arm(c, id) => c in s.calls && s.calls[c].Starting? && s.calls[c].a in s.records
                       && (id != 0 ==> forall a :: a in s.records ==> s.records[a].timer != id)
    case Read(c) => c in s.calls && s.calls[c].Tail? && s.calls[c].a in s.records
    case Notify(a) => a in s.records
    case Deliver(a) => a in s.queued && a in s.records && s.records[a].comp !in s.calls
    case Erase(c, id) => c !in s.calls && (id in s.running ==> s.running[id] in s.records)
    case Release(c) => c in s.calls && s.calls[c].Releasing? && s.calls[c].a in s.records
    case Destroy(c, ids) =>
      && c !in s.calls
      && (forall id :: id in ids ==> id != 0 && exists a :: a in s.records && s.records[a].timer == id)
      && (forall a :: a in s.records && s.records[a].timer in ids ==> s.records[a].comp == c)
    case Exit => true
  }

  function Logged(s: State, ops: seq<Op>): State
  {
    s.(log := s.log + ops)
  }

  function Finish(s: State, c: Computer): State
  {
    s.(calls := s.calls - {c})
  }

  function Staged(s: State, a: Address, stage: Stage): State
    requires a in s.records
  {
    s.(records := s.records[a := s.records[a].(stage := stage)])
  }

  /** Deletes a record. */
  function Deleted(s: State, a: Address, ops: seq<Op>): State
    requires a in s.records
  {
    Logged(Staged(s, a, Freed), ops + [Free(a)])
  }

  /** Takes a record's id out of the table. */
  function Unlisted(s: State, a: Address): State
    requires a in s.records
  {
    s.(running := s.running - {s.records[a].timer})
  }

  function BeginStart(s: State, c: Computer, a: Address, alarm: bool): State
  {
    s.(records := s.records[a := Record(c, 0, alarm, New)], calls := s.calls[c := Starting(a)])
  }

  /** SDL creates the timer and the record enters the table, under the lock. */
  function Armed(s: State, c: Computer, id: TimerId): State
    requires c in s.calls && s.calls[c].a in s.records
  {
    var a := s.calls[c].a;
    var t := s.(records := s.records[a := s.records[a].(timer := id)], calls := s.calls[c := Tail(a, 3)]);
    if id == 0 then t else Staged(t.(running := s.running[id := a]), a, Listed)
  }

  /** A start looks at its record again; it frees it when there is no timer. */
  function TailRead(s: State, c: Computer): State
    requires c in s.calls && s.calls[c].Tail? && s.calls[c].a in s.records
  {
    var a, left := s.calls[c].a, s.calls[c].left;
    if s.records[a].timer == 0 then Finish(Deleted(s, a, [Use(Starter, a)]), c)
    else if left > 1 then Logged(s.(calls := s.calls[c := Tail(a, left - 1)]), [Use(Starter, a)])
    else Finish(Logged(s, [Use(Starter, a)]), c)
  }

  ghost function Notified(s: State, a: Address): State
    requires a in s.records
  {
    var id := s.records[a].timer;
    if !Found(s, a) then s
    else if s.exiting then Deleted(Unlisted(s, a), a, [Use(Callback, a)])
    else if id in s.dead then Deleted(Unlisted(s.(dead := s.dead - {id}), a), a, [Use(Callback, a)])
    else Logged(s.(queued := s.queued + multiset{a}), [Use(Callback, a)])
  }

  ghost function Provided(s: State, a: Address): State
    requires a in s.records
  {
    var t := s.(queued := s.queued - multiset{a});
    if !Found(s, a) then t else Deleted(Unlisted(t, a), a, [Use(Provider, a), Emit(a)])
  }

  /** The first section of a cancel. */
  function Erased(s: State, c: Computer, id: TimerId): State
    requires id in s.running ==> s.running[id] in s.records
  {
    if id !in s.running then s
    else
      var a := s.running[id];
      Logged(Staged(s.(running := s.running - {id}, calls := s.calls[c := Releasing(a)]), a, Cancelling(c)),
             [Cancelled(a)])
  }

  /** The second section of a cancel, and the deletions. */
  function Released(s: State, c: Computer): State
    requires c in s.calls && s.calls[c].a in s.records
  {
    Finish(Deleted(s, s.calls[c].a, [Use(Canceller, s.calls[c].a)]), c)
  }

  ghost function Do(s: State, step: Step): State
    requires Enabled(s, step)
  {
    match step
    case Begin(c, a, alarm) => BeginStart(s, c, a, alarm)
    case Arm(c, id) => Armed(s, c, id)
    case Read(c) => TailRead(s, c)
    case Notify(a) => Notified(s, a)
    case Deliver(a) => Provided(s, a)
    case Erase(c, id) => Erased(s, c, id)
    case Release(c) => Released(s, c)
    case Destroy(c, ids) => s.(dead := s.dead + ids)
    case Exit => s.(exiting := true)
  }

  ghost predicate IsRun(s: State, steps: seq<Step>)
    decreases |steps|
  {
    steps == [] || (Enabled(s, steps[0]) && IsRun(Do(s, steps[0]), steps[1..]))
  }

  ghost function After(s: State, steps: seq<Step>): State
    requires IsRun(s, steps)
    decreases |steps|
  {
    if steps == [] then s else After(Do(s, steps[0]), steps[1..])
  }

  // ---------------------------------------------------------------- safety over whole runs

  /** May the operation follow the earlier ones? Only a start's own reads go unchecked. */
  ghost predicate Allowed(op: Op, earlier: seq<Op>)
  {
    match op
    case Use(who, a) => who == Starter || Free(a) !in earlier
    case Free(a) => Free(a) !in earlier
    case Emit(a) => Emit(a) !in earlier && Cancelled(a) !in earlier && Free(a) !in earlier
    case Cancelled(a) => Cancelled(a) !in earlier && Free(a) !in earlier
  }

  ghost predicate Safe(log: seq<Op>)
  {
    forall j :: 0 <= j < |log| ==> Allowed(log[j], log[..j])
  }

  predicate EntryOk(s: State, id: TimerId)
    requires id in s.running
  {
    var a := s.running[id];
    id != 0 && a in s.records && s.records[a].timer == id && s.records[a].stage == Listed
  }

  predicate CallOk(s: State, c: Computer)
    requires c in s.calls
  {
    var a := s.calls[c].a;
    a in s.records &&
    var r := s.records[a];
    match s.calls[c]
    case Starting(_) => r.comp == c && r.stage == New && r.timer == 0
    case Tail(_, left) => r.comp == c && left > 0 && (r.stage == New <==> r.timer == 0)
    case Releasing(_) => r.stage == Cancelling(c)
  }

  /** What the history says about a record agrees with its stage. */
  ghost predicate RecordOk(s: State, a: Address)
    requires a in s.records
  {
    var r := s.records[a];
    && (r.stage == Listed ==> r.timer in s.running && s.running[r.timer] == a)
    && (r.stage == Freed <==> Free(a) in s.log)
    && (Emit(a) in s.log ==> r.stage == Freed)
    && (Cancelled(a) in s.log ==> r.stage.Cancelling? || r.stage == Freed)
  }

  ghost predicate Entries(s: State)
  {
    forall id :: id in s.running ==> EntryOk(s, id)
  }

  ghost predicate Calls(s: State)
  {
    forall c :: c in s.calls ==> CallOk(s, c)
  }

  ghost predicate Records(s: State)
  {
    && (forall a :: a in s.records ==> RecordOk(s, a))
    && (forall a :: a !in s.records ==> Free(a) !in s.log && Emit(a) !in s.log && Cancelled(a) !in s.log)
  }

  ghost predicate Inv(s: State)
  {
    Entries(s) && Calls(s) && Records(s) && Safe(s.log)
  }

  lemma FoundIsListed(s: State, a: Address)
    requires Inv(s) && a in s.records
    ensures Found(s, a) <==> s.records[a].stage == Listed
  {
    hide Safe;
  }

  /** The step changes no record but one, no table entry but one, and logs that record alone. */
  ghost predicate Touches(s: State, t: State, a: Address, id: TimerId)
  {
    && (forall b :: b != a ==>
          (b in t.records <==> b in s.records) && (b in s.records ==> t.records[b] == s.records[b]))
    && (forall x :: x != id ==>
          (x in t.running <==> x in s.running) && (x in s.running ==> t.running[x] == s.running[x]))
    && s.log <= t.log
    && (forall op :: op in t.log[|s.log|..] ==> op.a == a)
  }

  lemma LogElsewhere(s: State, t: State, a: Address, id: TimerId, op: Op)
    requires Touches(s, t, a, id) && op.a != a
    ensures op in t.log <==> op in s.log
  {
    assert t.log == s.log + t.log[|s.log|..];
  }

  lemma TouchedKeeps(s: State, t: State, a: Address, id: TimerId)
    requires Entries(s) && Records(s) && Touches(s, t, a, id)
    requires a in s.records && s.records[a].stage == Listed ==> s.records[a].timer == id
    requires id in s.running ==> s.running[id] == a
    requires id in t.running ==> EntryOk(t, id)
    requires a in t.records && RecordOk(t, a)
    ensures Entries(t) && Records(t)
  {
    forall x | x in t.running && x != id
      ensures EntryOk(t, x)
    {
      assert EntryOk(s, x);
    }
    forall b | b != a
      ensures b in t.records ==> RecordOk(t, b)
      ensures b !in t.records ==> Free(b) !in t.log && Emit(b) !in t.log && Cancelled(b) !in t.log
    {
      LogElsewhere(s, t, a, id, Free(b));
      LogElsewhere(s, t, a, id, Emit(b));
      LogElsewhere(s, t, a, id, Cancelled(b));
      if b in t.records {
        assert RecordOk(s, b);
      }
    }
  }

  lemma CallsKept(s: State, t: State, a: Address, c: Computer)
    requires Calls(s)
    requires forall b :: b != a && b in s.records ==> b in t.records && t.records[b] == s.records[b]
    requires forall d :: d != c ==> (d in t.calls <==> d in s.calls) && (d in s.calls ==> t.calls[d] == s.calls[d])
    requires forall d :: d in s.calls && d != c && s.calls[d].a == a ==> CallOk(t, d)
    requires c in t.calls ==> CallOk(t, c)
    ensures Calls(t)
  {
    forall d | d in t.calls && d != c
      ensures CallOk(t, d)
    {
      assert CallOk(s, d);
    }
  }

  lemma SafeMore(log: seq<Op>, op: Op)
    requires Safe(log) && Allowed(op, log)
    ensures Safe(log + [op])
  {
    hide Allowed;
    var more := log + [op];
    forall j | 0 <= j < |more|
      ensures Allowed(more[j], more[..j])
    {
      assert more[..j] == log[..j];
    }
  }

  lemma EntryAt(s: State, id: TimerId)
    requires Entries(s)
    ensures id in s.running ==> EntryOk(s, id)
    ensures 0 !in s.running
  {
  }

  lemma CallAt(s: State, c: Computer)
    requires Calls(s) && Records(s) && c in s.calls
    ensures CallOk(s, c) && RecordOk(s, s.calls[c].a)
  {
  }

  lemma BeginInv(s: State, c: Computer, a: Address, alarm: bool)
    requires Inv(s) && Enabled(s, Begin(c, a, alarm))
    ensures Inv(BeginStart(s, c, a, alarm))
  {
    hide Safe;
    var t := BeginStart(s, c, a, alarm);
    assert 0 !in s.running;
    TouchedKeeps(s, t, a, 0);
    CallsKept(s, t, a, c);
  }

  /** A record that no timer belongs to is its starter's alone. */
  lemma NewIsAlone(s: State, c: Computer, d: Computer)
    requires Calls(s) && c in s.calls && d in s.calls && c != d
    requires s.calls[c].a in s.records && s.records[s.calls[c].a].comp == c && s.records[s.calls[c].a].stage == New
    ensures s.calls[d].a != s.calls[c].a
  {
    assert CallOk(s, d);
  }

  lemma ArmTouches(s: State, c: Computer, id: TimerId)
    requires Entries(s) && Calls(s) && Records(s) && Enabled(s, Arm(c, id))
    ensures var t, a := Armed(s, c, id), s.calls[c].a;
            Touches(s, t, a, id) && id !in s.running && RecordOk(t, a) && CallOk(t, c) &&
            (id in t.running ==> EntryOk(t, id))
  {
    hide Entries, Calls, Records;
    EntryAt(s, id);
    CallAt(s, c);
    assert Armed(s, c, id).log == s.log;
  }

  lemma ArmInv(s: State, c: Computer, id: TimerId)
    requires Inv(s) && Enabled(s, Arm(c, id))
    ensures Inv(Armed(s, c, id))
  {
    hide Safe, Entries, Calls, Records, Touches, EntryOk, RecordOk;
    ArmTouches(s, c, id);
    CallAt(s, c);
    var t, a := Armed(s, c, id), s.calls[c].a;
    TouchedKeeps(s, t, a, id);
    forall d | d in s.calls && d != c
      ensures s.calls[d].a != a
    {
      NewIsAlone(s, c, d);
    }
    CallsKept(s, t, a, c);
  }

  lemma DropTouches(s: State, a: Address, ops: seq<Op>)
    requires Entries(s) && a in s.records && RecordOk(s, a) && s.records[a].stage == Listed
    requires forall op :: op in ops ==> op.a == a
    ensures var t, id := Deleted(Unlisted(s, a), a, ops), s.records[a].timer;
            Touches(s, t, a, id) && id in s.running && s.running[id] == a && id !in t.running && RecordOk(t, a)
  {
    hide Entries;
    var t := Deleted(Unlisted(s, a), a, ops);
    assert t.log[|s.log|..] == ops + [Free(a)];
    assert t.log[|t.log| - 1] == Free(a);
  }

  /** Freeing a record that is in the table, once its operations are in order. */
  lemma DropInv(s: State, a: Address, ops: seq<Op>)
    requires Inv(s) && a in s.records && s.records[a].stage == Listed
    requires forall op :: op in ops ==> op.a == a
    requires Safe(s.log + (ops + [Free(a)]))
    ensures Inv(Deleted(Unlisted(s, a), a, ops))
  {
    hide Safe, Touches, EntryOk, RecordOk;
    assert RecordOk(s, a);
    DropInvListed(s, a, ops);
  }

  lemma DropInvListed(s: State, a: Address, ops: seq<Op>)
    requires Inv(s) && a in s.records && RecordOk(s, a) && s.records[a].stage == Listed
    requires forall op :: op in ops ==> op.a == a
    requires Safe(s.log + (ops + [Free(a)]))
    ensures Inv(Deleted(Unlisted(s, a), a, ops))
  {
    hide Safe, Entries, Records, Touches, EntryOk, RecordOk;
    var t, id := Deleted(Unlisted(s, a), a, ops), s.records[a].timer;
    DropTouches(s, a, ops);
    EntryAt(s, id);
    TouchedKeeps(s, t, a, id);
    forall d | d in t.calls
      ensures CallOk(t, d)
    {
      CallAt(s, d);
      ListedHasTimer(s, a);
    }
  }

  lemma ListedHasTimer(s: State, a: Address)
    requires Entries(s) && a in s.records && RecordOk(s, a) && s.records[a].stage == Listed
    ensures s.records[a].timer != 0
  {
    assert EntryOk(s, s.records[a].timer);
  }

  lemma SafeThree(log: seq<Op>, x: Op, y: Op, z: Op)
    requires Safe(log) && Allowed(x, log) && Allowed(y, log + [x]) && Allowed(z, log + [x] + [y])
    ensures Safe(log + ([x, y] + [z]))
    ensures Safe(log + [x])
  {
    hide Safe, Allowed;
    SafeMore(log, x);
    SafeMore(log + [x], y);
    SafeMore(log + [x] + [y], z);
    assert log + [x] + [y] + [z] == log + ([x, y] + [z]);
  }

  lemma SafeTwo(log: seq<Op>, x: Op, y: Op)
    requires Safe(log) && Allowed(x, log) && Allowed(y, log + [x])
    ensures Safe(log + ([x] + [y]))
  {
    hide Safe, Allowed;
    SafeMore(log, x);
    SafeMore(log + [x], y);
    assert log + [x] + [y] == log + ([x] + [y]);
  }

  /** Flags and the event queue play no part in the invariant. */
  lemma FlagsInv(s: State, t: State)
    requires Inv(s) && s.records == t.records && s.calls == t.calls && s.running == t.running && s.log == t.log
    ensures Inv(t)
  {
    hide Safe;
  }

  /** Using a record that is alive. */
  lemma UseInv(s: State, a: Address, who: Who)
    requires Inv(s) && a in s.records && Allowed(Use(who, a), s.log)
    ensures Inv(Logged(s, [Use(who, a)]))
  {
    hide Safe, Allowed;
    SafeMore(s.log, Use(who, a));
    var t := Logged(s, [Use(who, a)]);
    assert forall b :: Free(b) in t.log <==> Free(b) in s.log;
    assert forall b :: Emit(b) in t.log <==> Emit(b) in s.log;
    assert forall b :: Cancelled(b) in t.log <==> Cancelled(b) in s.log;
  }

  lemma NotifyInv(s: State, a: Address)
    requires Inv(s) && a in s.records
    ensures Inv(Notified(s, a))
  {
    hide Safe, Inv;
    FoundIsListed(s, a);
    if Found(s, a) {
      ListedIsClean(s, a);
      var u := if s.exiting then s else s.(dead := s.dead - {s.records[a].timer});
      if s.exiting || s.records[a].timer in s.dead {
        FlagsInv(s, u);
        SafeTwo(u.log, Use(Callback, a), Free(a));
        DropInv(u, a, [Use(Callback, a)]);
      } else {
        UseInv(s, a, Callback);
        FlagsInv(Logged(s, [Use(Callback, a)]), Notified(s, a));
      }
    }
  }

  lemma ListedIsClean(s: State, a: Address)
    requires Inv(s) && a in s.records && s.records[a].stage == Listed
    ensures Safe(s.log) && Free(a) !in s.log && Emit(a) !in s.log && Cancelled(a) !in s.log
  {
    hide Safe;
    assert RecordOk(s, a);
  }

  lemma DeliverInv(s: State, a: Address)
    requires Inv(s) && a in s.records
    ensures Inv(Provided(s, a))
  {
    hide Safe, Inv;
    FoundIsListed(s, a);
    var u := s.(queued := s.queued - multiset{a});
    FlagsInv(s, u);
    if Found(s, a) {
      ListedIsClean(s, a);
      SafeThree(s.log, Use(Provider, a), Emit(a), Free(a));
      DropInv(u, a, [Use(Provider, a), Emit(a)]);
    }
  }

  lemma EraseTouches(s: State, c: Computer, id: TimerId)
    requires Entries(s) && Records(s) && id in s.running
    ensures s.running[id] in s.records && s.records[s.running[id]].stage == Listed &&
            s.records[s.running[id]].timer == id
    ensures var t, a := Erased(s, c, id), s.running[id];
            Touches(s, t, a, id) && id !in t.running && RecordOk(t, a) && CallOk(t, c)
  {
    assert EntryOk(s, id) && RecordOk(s, s.running[id]);
    hide Entries, Records;
    var t := Erased(s, c, id);
    assert t.log[|s.log|..] == [Cancelled(s.running[id])];
  }

  lemma EraseInv(s: State, c: Computer, id: TimerId)
    requires Inv(s) && Enabled(s, Erase(c, id)) && id in s.running
    ensures Inv(Erased(s, c, id))
  {
    hide Safe, Entries, Records, Touches, EntryOk, RecordOk;
    EraseTouches(s, c, id);
    var t, a := Erased(s, c, id), s.running[id];
    TouchedKeeps(s, t, a, id);
    ListedIsClean(s, a);
    SafeMore(s.log, Cancelled(a));
    EntryAt(s, id);
    forall d | d in t.calls && d != c
      ensures CallOk(t, d)
    {
      CallAt(s, d);
    }
  }

  /** Deleting a record that is not in the table and ending the call that did it. */
  lemma DeletedTouches(s: State, a: Address, who: Who, c: Computer)
    requires Entries(s) && a in s.records && RecordOk(s, a) && s.records[a].stage != Listed &&
             s.records[a].stage != Freed
    ensures var t := Finish(Deleted(s, a, [Use(who, a)]), c); Touches(s, t, a, 0) && RecordOk(t, a)
    ensures Free(a) !in s.log
  {
    hide Entries;
    var t := Finish(Deleted(s, a, [Use(who, a)]), c);
    assert t.log[|s.log|..] == [Use(who, a), Free(a)];
    assert t.log[|t.log| - 1] == Free(a);
  }

  lemma ReleaseInv(s: State, c: Computer)
    requires Inv(s) && Enabled(s, Release(c))
    ensures Inv(Released(s, c))
  {
    hide Safe, Entries, Records, Touches, EntryOk, RecordOk;
    CallAt(s, c);
    var t, a := Released(s, c), s.calls[c].a;
    DeletedTouches(s, a, Canceller, c);
    EntryAt(s, 0);
    TouchedKeeps(s, t, a, 0);
    SafeTwo(s.log, Use(Canceller, a), Free(a));
    assert [Use(Canceller, a)] + [Free(a)] == [Use(Canceller, a), Free(a)];
    forall d | d in t.calls
      ensures CallOk(t, d)
    {
      CallAt(s, d);
    }
  }

  /** SDL made no timer: the start frees its own record. */
  lemma FailInv(s: State, c: Computer)
    requires Inv(s) && Enabled(s, Read(c)) && s.records[s.calls[c].a].timer == 0
    ensures Inv(TailRead(s, c))
  {
    hide Safe, Entries, Records, Touches, EntryOk, RecordOk;
    CallAt(s, c);
    var t, a := TailRead(s, c), s.calls[c].a;
    DeletedTouches(s, a, Starter, c);
    EntryAt(s, 0);
    TouchedKeeps(s, t, a, 0);
    SafeTwo(s.log, Use(Starter, a), Free(a));
    forall d | d in t.calls
      ensures CallOk(t, d)
    {
      CallAt(s, d);
      NewIsAlone(s, c, d);
    }
  }

  lemma ReadInv(s: State, c: Computer)
    requires Inv(s) && Enabled(s, Read(c))
    ensures Inv(TailRead(s, c))
  {
    hide Safe, Records;
    if s.records[s.calls[c].a].timer == 0 {
      FailInv(s, c);
    } else {
      CallAt(s, c);
      UseInv(s, s.calls[c].a, Starter);
      NextReadInv(Logged(s, [Use(Starter, s.calls[c].a)]), c);
    }
  }

  /** A start comes a step nearer its end. */
  lemma NextReadInv(s: State, c: Computer)
    requires Inv(s) && c in s.calls && s.calls[c].Tail? && s.calls[c].a in s.records
    ensures s.calls[c].left > 1 ==> Inv(s.(calls := s.calls[c := Tail(s.calls[c].a, s.calls[c].left - 1)]))
    ensures Inv(Finish(s, c))
  {
    hide Safe;
  }

  lemma StepInv(s: State, step: Step)
    requires Inv(s) && Enabled(s, step)
    ensures Inv(Do(s, step))
  {
    hide Inv, BeginStart, Armed, TailRead, Notified, Provided, Released;
    match step
    case Begin(c, a, alarm) => BeginInv(s, c, a, alarm);
    case Arm(c, id) => ArmInv(s, c, id);
    case Read(c) => ReadInv(s, c);
    case Notify(a) => NotifyInv(s, a);
    case Deliver(a) => DeliverInv(s, a);
    case Erase(c, id) => if id in s.running { EraseInv(s, c, id); }
    case Release(c) => ReleaseInv(s, c);
    case Destroy(_, _) => FlagsInv(s, Do(s, step));
    case Exit => FlagsInv(s, Do(s, step));
  }

  lemma {:induction false} RunInv(s: State, steps: seq<Step>)
    requires Inv(s) && IsRun(s, steps)
    ensures Inv(After(s, steps))
    decreases |steps|
  {
    hide Inv, Enabled, Do;
    if steps != [] {
      StepInv(s, steps[0]);
      RunInv(Do(s, steps[0]), steps[1..]);
    }
  }

  /** In every run each record is freed at most once, no callback, provider or cancel uses it
      afterwards, and it makes at most one event, none once a cancel has taken it. */
  lemma RunsAreSafe(steps: seq<Step>)
    requires IsRun(Initial(), steps)
    ensures Safe(After(Initial(), steps).log)
  {
    RunInv(Initial(), steps);
  }

  // ---------------------------------------------------------------- when a start reads a freed record

  /** Is the call that started the timer still going to look at its record? */
  predicate Reading(s: State, a: Address)
  {
    a in s.records &&
    var c := s.records[a].comp;
    c in s.calls && s.calls[c].Tail? && s.calls[c].a == a
  }

  ghost predicate Dangling(s: State)
  {
    exists a :: Reading(s, a) && s.records[a].stage == Freed
  }

  ghost predicate Faulty(log: seq<Op>)
  {
    exists j :: 0 <= j < |log| && log[j].Use? && Free(log[j].a) in log[..j]
  }

  /** A callback while the program exits, or a cancel by another computer, frees the record of
      a start that has not ended. */
  ghost predicate Hazard(s: State, step: Step)
  {
    match step
    case Notify(a) => s.exiting && Found(s, a) && Reading(s, a)
    case Release(c) => c in s.calls && Reading(s, s.calls[c].a)
    case _ => false
  }

  ghost predicate HazardIn(s: State, steps: seq<Step>)
    requires IsRun(s, steps)
    decreases |steps|
  {
    steps != [] && (Hazard(s, steps[0]) || HazardIn(Do(s, steps[0]), steps[1..]))
  }

  /** A destroyed computer's timers are not being started. */
  ghost predicate DeadInv(s: State)
  {
    && (forall id :: id in s.dead ==> id != 0 && exists a :: a in s.records && s.records[a].timer == id)
    && (forall a :: Reading(s, a) ==> s.records[a].timer !in s.dead)
  }

  lemma ArmDead(s: State, c: Computer, id: TimerId)
    requires Calls(s) && DeadInv(s) && Enabled(s, Arm(c, id))
    ensures DeadInv(Armed(s, c, id))
  {
    var t, a := Armed(s, c, id), s.calls[c].a;
    assert CallOk(s, c);
    forall x | x in t.dead
      ensures x != 0 && exists b :: b in t.records && t.records[b].timer == x
    {
      var b :| b in s.records && s.records[b].timer == x;
      assert b != a && t.records[b] == s.records[b];
    }
    forall b | Reading(t, b)
      ensures t.records[b].timer !in t.dead
    {
      if b != a {
        assert Reading(s, b);
      }
    }
  }

  /** No start begins to read, and no timer id changes. */
  ghost predicate Quiet(s: State, t: State)
  {
    && t.dead <= s.dead
    && (forall b :: b in s.records ==> b in t.records && t.records[b].timer == s.records[b].timer)
    && (forall b :: Reading(t, b) ==> Reading(s, b))
  }

  lemma DeadKept(s: State, t: State)
    requires DeadInv(s) && Quiet(s, t)
    ensures DeadInv(t)
  {
    forall x | x in t.dead
      ensures x != 0 && exists b :: b in t.records && t.records[b].timer == x
    {
      var b :| b in s.records && s.records[b].timer == x;
      assert b in t.records;
    }
  }

  lemma BeginQuiet(s: State, c: Computer, a: Address, alarm: bool)
    requires Enabled(s, Begin(c, a, alarm))
    ensures Quiet(s, BeginStart(s, c, a, alarm))
  {
  }

  lemma ReadQuiet(s: State, c: Computer)
    requires Enabled(s, Read(c))
    ensures Quiet(s, TailRead(s, c))
  {
  }

  lemma NotifyQuiet(s: State, a: Address)
    requires a in s.records
    ensures Quiet(s, Notified(s, a))
  {
  }

  lemma DeliverQuiet(s: State, a: Address)
    requires a in s.records
    ensures Quiet(s, Provided(s, a))
  {
  }

  lemma EraseQuiet(s: State, c: Computer, id: TimerId)
    requires Enabled(s, Erase(c, id))
    ensures Quiet(s, Erased(s, c, id))
  {
  }

  lemma ReleaseQuiet(s: State, c: Computer)
    requires Enabled(s, Release(c))
    ensures Quiet(s, Released(s, c))
  {
  }

  lemma DeadStep(s: State, step: Step)
    requires Calls(s) && DeadInv(s) && Enabled(s, step)
    ensures DeadInv(Do(s, step))
  {
    hide DeadInv, Calls, Quiet, BeginStart, Armed, TailRead, Notified, Provided, Erased, Released;
    var t := Do(s, step);
    match step
    case Begin(c, a, alarm) => BeginQuiet(s, c, a, alarm); DeadKept(s, t);
    case Arm(c, id) => ArmDead(s, c, id);
    case Read(c) => ReadQuiet(s, c); DeadKept(s, t);
    case Notify(a) => NotifyQuiet(s, a); DeadKept(s, t);
    case Deliver(a) => DeliverQuiet(s, a); DeadKept(s, t);
    case Erase(c, id) => EraseQuiet(s, c, id); DeadKept(s, t);
    case Release(c) => ReleaseQuiet(s, c); DeadKept(s, t);
    case Destroy(c, ids) => DestroyDead(s, c, ids);
    case Exit => ExitDead(s);
  }

  lemma ExitDead(s: State)
    requires DeadInv(s)
    ensures DeadInv(s.(exiting := true))
  {
    assert forall b :: Reading(s.(exiting := true), b) <==> Reading(s, b);
    DeadKept(s, s.(exiting := true));
  }

  lemma DestroyDead(s: State, c: Computer, ids: set<TimerId>)
    requires DeadInv(s) && Enabled(s, Destroy(c, ids))
    ensures DeadInv(s.(dead := s.dead + ids))
  {
    var t := s.(dead := s.dead + ids);
    forall b | Reading(t, b)
      ensures t.records[b].timer !in t.dead
    {
      assert Reading(s, b);
    }
  }

  lemma FaultyMore(log: seq<Op>, ops: seq<Op>)
    requires Faulty(log)
    ensures Faulty(log + ops)
  {
    var j :| 0 <= j < |log| && log[j].Use? && Free(log[j].a) in log[..j];
    assert (log + ops)[..j] == log[..j];
  }

  lemma FaultNow(log: seq<Op>, op: Op)
    ensures Faulty(log + [op]) <==> Faulty(log) || (op.Use? && Free(op.a) in log)
  {
    var more := log + [op];
    assert more[|log|] == op && more[..|log|] == log;
    if Faulty(log) {
      FaultyMore(log, [op]);
    } else if Faulty(more) {
      var j :| 0 <= j < |more| && more[j].Use? && Free(more[j].a) in more[..j];
      assert more[..j] == log[..j];
    }
  }

  /** Only a use adds a fault, and only after the record was freed. */
  lemma FaultWith(log: seq<Op>, use: Op, rest: seq<Op>)
    requires use.Use? && forall op :: op in rest ==> !op.Use?
    requires |rest| <= 2
    ensures Faulty(log + ([use] + rest)) <==> Faulty(log) || Free(use.a) in log
  {
    hide Faulty;
    FaultNow(log, use);
    if |rest| > 0 {
      FaultNow(log + [use], rest[0]);
      assert log + [use] + [rest[0]] == log + ([use] + rest[..1]);
    }
    if |rest| == 2 {
      FaultNow(log + [use] + [rest[0]], rest[1]);
      assert rest[..2] == rest && log + [use] + [rest[0]] + [rest[1]] == log + ([use] + rest);
    }
    assert |rest| < 2 ==> rest == rest[..|rest|];
    assert |rest| == 0 ==> [use] + rest == [use];
    assert |rest| == 1 ==> rest[..1] == rest;
  }

  /** Only its own reads move a start on. */
  lemma TailStays(s: State, step: Step, d: Computer)
    requires Enabled(s, step) && d in s.calls && s.calls[d].Tail? && step != Read(d)
    ensures d in Do(s, step).calls && Do(s, step).calls[d] == s.calls[d]
  {
  }

  /** A record out of the table is not touched by the steps that look there. */
  lemma FreedNotFound(s: State, step: Step, a: Address)
    requires Inv(s) && Enabled(s, step) && a in s.records && s.records[a].stage == Freed
    requires step.Notify? || step.Deliver? || step.Erase?
    ensures a in Do(s, step).records && Do(s, step).records[a] == s.records[a]
  {
    hide Safe, Entries, Calls, Records, Found;
    match step
    case Notify(b) => FoundIsListed(s, b);
    case Deliver(b) => FoundIsListed(s, b);
    case Erase(c, id) => EntryAt(s, id);
  }

  lemma FreedStays(s: State, step: Step, a: Address)
    requires Inv(s) && Enabled(s, step) && a in s.records && s.records[a].stage == Freed
    ensures a in Do(s, step).records && Do(s, step).records[a] == s.records[a]
  {
    hide Safe, Entries, Calls, Records, Notified, Provided, Erased;
    if step.Notify? || step.Deliver? || step.Erase? {
      FreedNotFound(s, step, a);
    } else if step.Arm? || step.Read? || step.Release? {
      CallAt(s, step.c);
    }
  }

  /** A freed record stays so, and its reader goes on until it reads. */
  lemma StaysDangling(s: State, step: Step, a: Address)
    requires Inv(s) && Enabled(s, step) && Reading(s, a) && s.records[a].stage == Freed
    requires step != Read(s.records[a].comp)
    ensures Reading(Do(s, step), a) && Do(s, step).records[a].stage == Freed
  {
    hide Inv, Enabled, Do;
    TailStays(s, step, s.records[a].comp);
    FreedStays(s, step, a);
  }

  /** Which steps by other threads free a record, */
  lemma FreedElsewhere(s: State, step: Step, a: Address)
    requires Enabled(s, step) && a in Do(s, step).records && Do(s, step).records[a].stage == Freed
    requires step.Notify? || step.Deliver?
    ensures a in s.records
    ensures s.records[a].stage != Freed ==>
              step.a == a && (step.Notify? ==> Found(s, a) && (s.exiting || s.records[a].timer in s.dead))
  {
    hide Found;
  }

  /** and which by calls. */
  lemma FreedByCall(s: State, step: Step, a: Address)
    requires Enabled(s, step) && a in Do(s, step).records && Do(s, step).records[a].stage == Freed
    requires !step.Notify? && !step.Deliver?
    ensures a in s.records
    ensures s.records[a].stage != Freed ==>
              (step.Release? && s.calls[step.c].a == a) ||
              (step.Read? && s.calls[step.c].a == a && s.records[a].timer == 0)
  {
    hide Notified, Provided;
  }

  lemma BecomesDangling(s: State, step: Step, a: Address)
    requires Inv(s) && DeadInv(s) && Enabled(s, step)
    requires Reading(Do(s, step), a) && Do(s, step).records[a].stage == Freed
    ensures (Reading(s, a) && s.records[a].stage == Freed) || Hazard(s, step)
  {
    hide Inv, DeadInv, Found, Do;
    if step.Notify? || step.Deliver? {
      FreedElsewhere(s, step, a);
    } else {
      FreedByCall(s, step, a);
    }
    ReadBefore(s, step, a);
    DeadAt(s, a);
  }

  lemma DeadAt(s: State, a: Address)
    requires DeadInv(s)
    ensures Reading(s, a) ==> s.records[a].timer !in s.dead
  {
  }

  /** A start that reads a freed record was reading before the step. */
  lemma ReadBefore(s: State, step: Step, a: Address)
    requires Inv(s) && Enabled(s, step)
    requires Reading(Do(s, step), a) && Do(s, step).records[a].stage == Freed
    ensures Reading(s, a)
    ensures !(step.Deliver? && step.a == a) && !(step.Read? && s.calls[step.c].a == a && s.records[a].timer == 0)
  {
    hide Safe, Entries, Calls, Records, Found;
    match step
    case Begin(c, b, alarm) => BeginQuiet(s, c, b, alarm);
    case Arm(c, id) => CallAt(s, c);
    case Read(c) => CallAt(s, c);
    case Notify(b) => NotifyQuiet(s, b);
    case Deliver(b) => DeliverQuiet(s, b);
    case Erase(c, id) => EraseQuiet(s, c, id);
    case Release(c) => ReleaseQuiet(s, c);
    case Destroy(_, _) =>
    case Exit =>
  }

  lemma HazardDangles(s: State, step: Step)
    requires Inv(s) && Enabled(s, step) && Hazard(s, step)
    ensures Dangling(Do(s, step))
  {
    hide Safe, Entries, Calls, Records;
    match step
    case Notify(a) => assert Reading(Do(s, step), a);
    case Release(c) => assert Reading(Do(s, step), s.calls[c].a);
  }

  lemma ReadFault(s: State, c: Computer)
    requires Inv(s) && Enabled(s, Read(c))
    ensures Faulty(TailRead(s, c).log) <==> Faulty(s.log) || s.records[s.calls[c].a].stage == Freed
  {
    hide Safe, Faulty, Entries, Calls, Records;
    CallAt(s, c);
    var a := s.calls[c].a;
    FaultWith(s.log, Use(Starter, a), []);
    FaultWith(s.log, Use(Starter, a), [Free(a)]);
    assert [Use(Starter, a)] + [] == [Use(Starter, a)];
    assert [Use(Starter, a)] + [Free(a)] == [Use(Starter, a), Free(a)];
  }

  lemma NotifyFault(s: State, a: Address)
    requires Inv(s) && a in s.records
    ensures Faulty(Notified(s, a).log) <==> Faulty(s.log)
  {
    hide Faulty, Inv;
    FoundIsListed(s, a);
    if Found(s, a) {
      ListedIsClean(s, a);
      FaultWith(s.log, Use(Callback, a), []);
      FaultWith(s.log, Use(Callback, a), [Free(a)]);
      assert [Use(Callback, a)] + [] == [Use(Callback, a)];
    }
  }

  lemma DeliverFault(s: State, a: Address)
    requires Inv(s) && a in s.records
    ensures Faulty(Provided(s, a).log) <==> Faulty(s.log)
  {
    hide Faulty, Inv;
    FoundIsListed(s, a);
    if Found(s, a) {
      ListedIsClean(s, a);
      FaultWith(s.log, Use(Provider, a), [Emit(a), Free(a)]);
      assert [Use(Provider, a)] + [Emit(a), Free(a)] == [Use(Provider, a), Emit(a)] + [Free(a)];
    }
  }

  lemma ReleaseFault(s: State, c: Computer)
    requires Inv(s) && Enabled(s, Release(c))
    ensures Faulty(Released(s, c).log) <==> Faulty(s.log)
  {
    hide Safe, Faulty, Entries, Calls, Records;
    CallAt(s, c);
    var a := s.calls[c].a;
    FaultWith(s.log, Use(Canceller, a), [Free(a)]);
  }

  /** Only a start's read of a freed record is a fault. */
  lemma StepFault(s: State, step: Step)
    requires Inv(s) && Enabled(s, step)
    ensures Faulty(Do(s, step).log) <==>
              Faulty(s.log) || (step.Read? && s.records[s.calls[step.c].a].stage == Freed)
  {
    hide Inv, Faulty, TailRead, Notified, Provided, Released;
    match step
    case Read(c) => ReadFault(s, c);
    case Notify(a) => NotifyFault(s, a);
    case Deliver(a) => DeliverFault(s, a);
    case Erase(c, id) => if id in s.running { FaultNow(s.log, Cancelled(s.running[id])); }
    case Release(c) => ReleaseFault(s, c);
    case _ =>
  }

  lemma {:induction false} CalmRunIsClean(s: State, steps: seq<Step>)
    requires Inv(s) && DeadInv(s) && !Dangling(s) && IsRun(s, steps) && !HazardIn(s, steps)
    ensures Faulty(After(s, steps).log) <==> Faulty(s.log)
    decreases |steps|
  {
    hide Inv, DeadInv, Enabled, Do, Hazard, Faulty;
    if steps != [] {
      var step := steps[0];
      var t := Do(s, step);
      StepInv(s, step);
      DeadStepInv(s, step);
      StepFault(s, step);
      if step.Read? {
        ReaderReads(s, step.c);
      }
      forall a | Reading(t, a)
        ensures t.records[a].stage != Freed
      {
        if t.records[a].stage == Freed {
          BecomesDangling(s, step, a);
        }
      }
      CalmRunIsClean(t, steps[1..]);
    }
  }

  lemma DeadStepInv(s: State, step: Step)
    requires Inv(s) && DeadInv(s) && Enabled(s, step)
    ensures DeadInv(Do(s, step))
  {
    hide Safe, Entries, Calls, Records, DeadInv, Do, Enabled;
    DeadStep(s, step);
  }

  lemma ReaderReads(s: State, c: Computer)
    requires Inv(s) && Enabled(s, Read(c))
    ensures Reading(s, s.calls[c].a) && s.records[s.calls[c].a].comp == c
  {
    hide Safe, Entries, Calls, Records;
    CallAt(s, c);
  }

  lemma {:induction false} HazardFaults(s: State, steps: seq<Step>)
    requires Inv(s) && IsRun(s, steps) && After(s, steps).calls == map[]
    requires Faulty(s.log) || Dangling(s) || HazardIn(s, steps)
    ensures Faulty(After(s, steps).log)
    decreases |steps|
  {
    hide Inv, Enabled, Do, Hazard, Faulty;
    if steps != [] {
      var step := steps[0];
      StepInv(s, step);
      StepFault(s, step);
      if Hazard(s, step) {
        HazardDangles(s, step);
      } else if Dangling(s) {
        var a :| Reading(s, a) && s.records[a].stage == Freed;
        if step == Read(s.records[a].comp) {
          assert s.calls[step.c].a == a;
        } else {
          StaysDangling(s, step, a);
        }
      }
      HazardFaults(Do(s, step), steps[1..]);
    }
  }

  /** A run that lets every call end reads a freed record exactly when some record was freed,
      by a callback while exiting or by another computer's cancel, before its start ended. */
  lemma FaultyIff(steps: seq<Step>)
    requires IsRun(Initial(), steps) && After(Initial(), steps).calls == map[]
    ensures Faulty(After(Initial(), steps).log) <==> HazardIn(Initial(), steps)
  {
    hide IsRun, After, HazardIn;
    if HazardIn(Initial(), steps) {
      HazardFaults(Initial(), steps);
    } else {
      CalmRunIsClean(Initial(), steps);
    }
  }

  /** A cancel by another computer while a start still reads its record is such a run. */
  lemma CancelDuringStart(s: State, c: Computer, d: Computer)
    requires Inv(s) && c in s.calls && s.calls[c].Tail? && d !in s.calls
    requires s.calls[c].a in s.records && s.records[s.calls[c].a].stage == Listed
    ensures var a, id := s.calls[c].a, s.records[s.calls[c].a].timer;
            Enabled(s, Erase(d, id)) &&
            var t := Do(s, Erase(d, id));
            Enabled(t, Release(d)) &&
            var u := Do(t, Release(d));
            Enabled(u, Read(c)) && Faulty(Do(u, Read(c)).log)
  {
    hide Safe, Entries, Calls, Records, Faulty;
    CallAt(s, c);
    var a, id := s.calls[c].a, s.records[s.calls[c].a].timer;
    EntryAt(s, id);
    StepInv(s, Erase(d, id));
    var t := Do(s, Erase(d, id));
    StepInv(t, Release(d));
    ReadFault(Do(t, Release(d)), c);
  }

  /** So is a callback that runs then while the program exits. */
  lemma ExitDuringStart(s: State, c: Computer)
    requires Inv(s) && c in s.calls && s.calls[c].Tail?
    requires s.calls[c].a in s.records && s.records[s.calls[c].a].stage == Listed
    ensures var t := Do(s, Exit);
              (var u := Do(t, Notify(s.calls[c].a)); Enabled(u, Read(c)) && Faulty(Do(u, Read(c)).log))
  {
    hide Safe, Entries, Calls, Records, Faulty;
    CallAt(s, c);
    var t, a := Do(s, Exit), s.calls[c].a;
    StepInv(s, Exit);
    FoundIsListed(t, a);
    NotifyInv(t, a);
    ReadFault(Do(t, Notify(a)), c);
  }

  lemma SameTable(s: State, t: State, a: Address)
    requires s.running == t.running
    ensures Found(s, a) <==> Found(t, a)
  {
  }

  // ---------------------------------------------------------------- the critical sections

  class TimerTable {
    var records: map<Address, Record>
    var running: map<TimerId, Address>
    var queued: multiset<Address>
    var dead: set<TimerId>
    var exiting: bool
    ghost var calls: map<Computer, Call>
    ghost var log: seq<Op>

    constructor ()
      ensures Now() == Initial()
    {
      records, running, queued, dead, exiting := map[], map[], multiset{}, {}, false;
      calls, log := map[], [];
    }

    ghost function Now(): State
      reads this
    {
      State(records, calls, running, queued, dead, exiting, log)
    }

    /** Looks for the record among all entries. */
    method Find(a: Address) returns (found: bool)
      ensures found <==> Found(Now(), a)
    {
      var ids := running.Keys;
      found := false;
      while ids != {} && !found
        invariant ids <= running.Keys
        invariant found ==> Found(Now(), a)
        invariant !found ==> forall id :: id in running && id !in ids ==> running[id] != a
        decreases ids, !found
      {
        var id :| id in ids;
        found := running[id] == a;
        ids := ids - {id};
      }
    }

    method StartTimer(c: Computer, a: Address, alarm: bool)
      requires Enabled(Now(), Begin(c, a, alarm))
      modifies this
      ensures Now() == Do(old(Now()), Begin(c, a, alarm))
    {
      records := records[a := Record(c, 0, alarm, New)];
      calls := calls[c := Starting(a)];
    }

    /** Creates the SDL timer on the main thread; `id` is the answer SDL gives. */
    method AddTimer(c: Computer, a: Address, id: TimerId)
      requires Enabled(Now(), Arm(c, id)) && calls[c].a == a
      modifies this
      ensures Now() == Do(old(Now()), Arm(c, id))
    {
      records := records[a := records[a].(timer := id)];
      if id != 0 {
        running := running[id := a];
        records := records[a := records[a].(stage := Listed)];
      }
      calls := calls[c := Tail(a, 3)];
    }

    /** What a start does afterwards, without the lock: three looks at the id of its timer. */
    method LookAtTimer(c: Computer, a: Address) returns (id: TimerId)
      requires Enabled(Now(), Read(c)) && calls[c].a == a
      modifies this
      ensures Now() == Do(old(Now()), Read(c)) && id == old(records[a].timer)
    {
      log := log + [Use(Starter, a)];
      assert log + ([] + [Free(a)]) == old(log) + ([Use(Starter, a)] + [Free(a)]);
      id := records[a].timer;
      ghost var left := calls[c].left;
      calls := calls - {c};
      if id == 0 {
        DeleteRecord(a);
        return;
      }
      if left > 1 {
        calls := old(calls)[c := Tail(a, left - 1)];
      }
    }

    method DeleteRecord(a: Address)
      requires a in records
      modifies this`records, this`log
      ensures Now() == Deleted(old(Now()), a, [])
    {
      records := records[a := records[a].(stage := Freed)];
      log := log + ([] + [Free(a)]);
    }

    method NotifyEvent(a: Address)
      requires Enabled(Now(), Notify(a))
      modifies this
      ensures Now() == Do(old(Now()), Notify(a))
    {
      var found := Find(a);
      if !found {
        return;
      }
      log := log + [Use(Callback, a)];
      assert log + ([] + [Free(a)]) == old(log) + ([Use(Callback, a)] + [Free(a)]);
      var id := records[a].timer;
      if exiting {
        running := running - {id};
        DeleteRecord(a);
        return;
      }
      if id in dead {
        dead := dead - {id};
        running := running - {id};
        DeleteRecord(a);
        return;
      }
      queued := queued + multiset{a};
    }

    /** The event provider; an empty name is no event. */
    method TimerEvent(a: Address) returns (name: string, id: TimerId)
      requires Enabled(Now(), Deliver(a))
      modifies this
      ensures Now() == Do(old(Now()), Deliver(a))
      ensures name == if !old(Found(Now(), a)) then "" else if old(records[a].alarm) then "alarm" else "timer"
      ensures id == old(records[a].timer)
    {
      hide Found;
      queued := queued - multiset{a};
      var found := Find(a);
      SameTable(old(Now()), Now(), a);
      id := records[a].timer;
      if !found {
        return "", id;
      }
      var alarm := records[a].alarm;
      RemoveDelivered(a);
      name := if alarm then "alarm" else "timer";
    }

    /** The provider's work on a record it found. */
    method RemoveDelivered(a: Address)
      requires a in records
      modifies this`records, this`running, this`log
      ensures Now() == Deleted(Unlisted(old(Now()), a), a, [Use(Provider, a), Emit(a)])
    {
      log := log + [Use(Provider, a), Emit(a)];
      assert log + ([] + [Free(a)]) == old(log) + ([Use(Provider, a), Emit(a)] + [Free(a)]);
      running := running - {records[a].timer};
      DeleteRecord(a);
    }

    /** The first section of a cancel. */
    method TakeOut(c: Computer, id: TimerId) returns (a: Address, found: bool)
      requires Enabled(Now(), Erase(c, id))
      modifies this
      ensures Now() == Do(old(Now()), Erase(c, id))
      ensures found <==> id in old(running)
      ensures found ==> a == old(running)[id]
    {
      if id !in running {
        return 0, false;
      }
      a, found := running[id], true;
      running := running - {id};
      records := records[a := records[a].(stage := Cancelling(c))];
      calls := calls[c := Releasing(a)];
      log := log + [Cancelled(a)];
    }

    /** The second section of a cancel, and the deletions. */
    method LetGo(c: Computer, a: Address)
      requires Enabled(Now(), Release(c)) && calls[c].a == a
      modifies this
      ensures Now() == Do(old(Now()), Release(c))
    {
      log := log + [Use(Canceller, a)];
      assert log + ([] + [Free(a)]) == old(log) + ([Use(Canceller, a)] + [Free(a)]);
      DeleteRecord(a);
      calls := calls - {c};
    }
  }
}
