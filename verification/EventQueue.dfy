/** Event delivery: names and parameter lists travel in two queues, refilled from a queue
    of event providers that other threads may push to at any moment. */
module EventQueue {

  const QUEUE_LIMIT := 256

  datatype Value = Number(n: int) | Text(s: string)

  /** An event provider: running it pushes values onto the parameter list at hand, returns
      a name, empty for no event, and may stop the computer. */
  datatype Provider = Provider(name: string, values: seq<Value>, stops: bool)

  /** Renames an event; the empty name drops it. */
  type Hook = string -> string

  datatype Hooks = Hooks(own: map<string, seq<Hook>>, shared: map<string, seq<Hook>>)

  function RunHooks(hooks: seq<Hook>, name: string): string
  {
    if hooks == [] || name == "" then name else RunHooks(hooks[1..], hooks[0](name))
  }

  function Hooked(hooks: map<string, seq<Hook>>, name: string): string
  {
    if name != "" && name in hooks then RunHooks(hooks[name], name) else name
  }

  /** The name under which an event is queued: the computer's hooks, then the shared ones. */
  function Renamed(h: Hooks, name: string): string
  {
    Hooked(h.shared, Hooked(h.own, name))
  }

  /** A computer's own hooks see the name first, the shared ones the name they made of it; an event
      that one of them dropped goes no further, and one without hooks keeps its name. */
  lemma HooksInTurn(h: Hooks, name: string, own: Hook, shared: Hook)
    requires name != "" && name in h.own && h.own[name] == [own]
    requires own(name) in h.shared && h.shared[own(name)] == [shared]
    ensures Renamed(h, name) == if own(name) == "" then "" else shared(own(name))
    ensures forall n: string :: n != "" && n !in h.own && n !in h.shared ==> Renamed(h, n) == n
  {
    assert [own][1..] == [] && [shared][1..] == [];
    assert RunHooks([own], name) == RunHooks([], own(name)) == own(name);
    if own(name) != "" {
      assert RunHooks([shared], own(name)) == RunHooks([], shared(own(name)));
    }
  }

  /** Every hook of a list is given what the one before it returned, until one drops the event. */
  lemma TwoHooks(name: string, first: Hook, second: Hook)
    requires name != ""
    ensures RunHooks([first, second], name) == if first(name) == "" then "" else second(first(name))
  {
    assert [first, second][1..] == [second] && [second][1..] == [];
    assert RunHooks([second], first(name)) == if first(name) == "" then "" else RunHooks([], second(first(name)));
  }

  datatype Event = Event(name: string, params: seq<Value>)

  /** Does a call with this filter return the event? */
  predicate Wanted(filter: string, e: Event)
  {
    filter == "" || e.name == filter || e.name == "terminate"
  }

  /** What other threads do between two looks at the computer's state. */
  datatype Arrival = Arrival(queued: seq<Provider>, stop: bool)

  // ---------------------------------------------------------------- one call, step by step

  /** `spare` is the parameter list prepared for the next event. */
  datatype State = State(queue: seq<Event>, providers: seq<Provider>, spare: seq<Value>, running: bool,
                         world: seq<Arrival>)

  function Coming(world: seq<Arrival>): seq<Provider>
  {
    if world == [] then [] else world[0].queued + Coming(world[1..])
  }

  function Room(s: State): nat
  {
    |s.queue| + |s.providers| + |Coming(s.world)|
  }

  function Absorb(s: State): (t: State)
    ensures Room(t) == Room(s) && t.queue == s.queue && t.spare == s.spare
    ensures |t.world| == if s.world == [] then 0 else |s.world| - 1
    ensures s.world == [] ==> t == s
    ensures t.running ==> s.running
    ensures t.providers + Coming(t.world) == s.providers + Coming(s.world)
  {
    if s.world == [] then s
    else s.(providers := s.providers + s.world[0].queued,
            running := s.running && !s.world[0].stop, world := s.world[1..])
  }

  /** Runs the first provider; a kept event takes the spare list, a dropped one leaves it. */
  function Run(h: Hooks, s: State): (t: State)
    requires s.providers != []
    ensures t.providers == s.providers[1..] && t.world == s.world
    ensures Room(t) <= Room(s)
  {
    var p := s.providers[0];
    var values, name := s.spare + p.values, Renamed(h, p.name);
    var t := s.(providers := s.providers[1..], running := s.running && !p.stops);
    if name == "" then t.(spare := values) else t.(queue := s.queue + [Event(name, values)], spare := [])
  }

  predicate Fills(s: State)
  {
    s.running && s.providers != [] && |s.queue| < QUEUE_LIMIT
  }

  function Fill(h: Hooks, s: State): (f: State)
    ensures Room(f) <= Room(s) && !Fills(f) && |f.world| <= |s.world|
    ensures s.world == [] ==> f.world == []
    ensures s.world != [] ==> |f.world| < |s.world|
    decreases |s.providers| + |Coming(s.world)|
  {
    var t := Absorb(s);
    if Fills(t) then Fill(h, Run(h, t)) else t
  }

  /** A fill goes on until the computer stops, no provider is left, or 256 events are queued; it
      never queues more. */
  lemma {:induction false} FillLimit(h: Hooks, s: State)
    ensures var f := Fill(h, s);
            && (!f.running || f.providers == [] || |f.queue| >= 256)
            && |f.queue| <= if |s.queue| <= 256 then 256 else |s.queue|
    decreases |s.providers| + |Coming(s.world)|
  {
    hide Renamed, Coming;
    var t := Absorb(s);
    if Fills(t) {
      FillLimit(h, Run(h, t));
    }
  }

  /** Waits until a provider or a stop arrives. A wait that nothing ends counts as a stop. */
  function Wait(s: State): (w: State)
    ensures Room(w) <= Room(s) && w.queue == s.queue && w.spare == s.spare && |w.world| <= |s.world|
    ensures w.running ==> s.running && w.providers != []
    ensures s.world == [] && w.running ==> w == s
    decreases |s.world|
  {
    if !s.running || s.providers != [] then s
    else if s.world == [] then s.(running := false)
    else Wait(Absorb(s))
  }

  /** Fills the queue, waiting as long as it stays empty; it is still empty only after a stop. */
  function Await(h: Hooks, s: State): (a: State)
    ensures Room(a) <= Room(s)
    ensures a.queue == [] ==> !a.running
    decreases |s.world|
  {
    var f := Fill(h, s);
    if f.queue != [] then f
    else
      var w := Wait(f);
      if w.running then Await(h, w) else w
  }

  datatype Outcome = Delivered(e: Event, rest: State) | NoEvent(rest: State)

  /** The first wanted event; events before it are discarded. */
  function Next(h: Hooks, filter: string, s: State): Outcome
    decreases Room(s)
  {
    var a := Await(h, s.(spare := []));
    if a.queue == [] then NoEvent(a)
    else if Wanted(filter, a.queue[0]) then Delivered(a.queue[0], a.(queue := a.queue[1..]))
    else Next(h, filter, a.(queue := a.queue[1..]))
  }

  // ---------------------------------------------------------------- what a call delivers

  /** An event seen whole, or by its name alone. */
  function Sight(e: Event, whole: bool): Event
  {
    if whole then e else Event(e.name, [])
  }

  function Seen(events: seq<Event>, whole: bool): (r: seq<Event>)
    ensures |r| == |events| && forall i :: 0 <= i < |r| ==> r[i] == Sight(events[i], whole)
  {
    seq(|events|, i requires 0 <= i < |events| => Sight(events[i], whole))
  }

  /** The events a run of providers stands for, each with the values it pushed itself. */
  function Kept(h: Hooks, ps: seq<Provider>, whole: bool): seq<Event>
  {
    if ps == [] then []
    else
      var name := Renamed(h, ps[0].name);
      (if name == "" then [] else [Sight(Event(name, ps[0].values), whole)]) + Kept(h, ps[1..], whole)
  }

  /** Does no event come after a dropped one that left values on the list? */
  ghost predicate NoneBehindALeak(h: Hooks, ps: seq<Provider>)
  {
    forall i, j :: 0 <= i < j < |ps| && Renamed(h, ps[i].name) == "" && Renamed(h, ps[j].name) != "" ==>
      ps[i].values == []
  }

  /** The same by one pass, given whether values are waiting on the list already. */
  predicate Clear(h: Hooks, ps: seq<Provider>, dirty: bool)
  {
    ps == [] ||
    if Renamed(h, ps[0].name) == "" then Clear(h, ps[1..], dirty || ps[0].values != [])
    else !dirty && Clear(h, ps[1..], false)
  }

  lemma {:induction false} ClearIff(h: Hooks, ps: seq<Provider>, dirty: bool)
    ensures Clear(h, ps, dirty) <==>
              NoneBehindALeak(h, ps) && (dirty ==> forall j :: 0 <= j < |ps| ==> Renamed(h, ps[j].name) == "")
  {
    hide Renamed;
    if ps != [] {
      var rest := ps[1..];
      ClearIff(h, rest, if Renamed(h, ps[0].name) == "" then dirty || ps[0].values != [] else false);
      assert forall j :: 0 < j < |ps| ==> ps[j] == rest[j - 1];
      assert forall j :: 0 <= j < |rest| ==> rest[j] == ps[j + 1];
    }
  }

  function Pending(s: State): seq<Provider>
  {
    s.providers + Coming(s.world)
  }

  /** Everything still to be delivered, in order, whenever the providers arrive. */
  function Stream(h: Hooks, s: State, whole: bool): seq<Event>
  {
    Seen(s.queue, whole) + Kept(h, Pending(s), whole)
  }

  /** Whenever the pending events are told whole, none will take values left by another. */
  ghost predicate Tidy(h: Hooks, s: State, whole: bool)
  {
    whole ==> Clear(h, Pending(s), s.spare != [])
  }

  function FirstWanted(filter: string, events: seq<Event>): (k: nat)
    ensures k <= |events|
    ensures forall j :: 0 <= j < k ==> !Wanted(filter, events[j])
    ensures k < |events| ==> Wanted(filter, events[k])
  {
    if events == [] || Wanted(filter, events[0]) then 0 else 1 + FirstWanted(filter, events[1..])
  }

  /** Nothing stops the computer. */
  ghost predicate Calm(s: State)
  {
    && s.running
    && (forall i :: 0 <= i < |Pending(s)| ==> !Pending(s)[i].stops)
    && (forall i :: 0 <= i < |s.world| ==> !s.world[i].stop)
  }

  lemma AbsorbKeeps(h: Hooks, s: State, whole: bool)
    ensures Stream(h, Absorb(s), whole) == Stream(h, s, whole)
    ensures Tidy(h, s, whole) ==> Tidy(h, Absorb(s), whole)
    ensures Calm(s) ==> Calm(Absorb(s))
  {
    hide Kept, Clear, Coming;
    assert Pending(Absorb(s)) == Pending(s);
  }

  lemma SeenOneMore(events: seq<Event>, e: Event, whole: bool)
    ensures Seen(events + [e], whole) == Seen(events, whole) + [Sight(e, whole)]
  {
  }

  lemma Regroup(a: seq<Event>, b: seq<Event>, c: seq<Event>)
    ensures (a + b) + c == a + (b + c)
    ensures [] + c == c
  {
  }

  lemma RunKeeps(h: Hooks, s: State, whole: bool)
    requires s.providers != [] && Tidy(h, s, whole)
    ensures Stream(h, Run(h, s), whole) == Stream(h, s, whole)
    ensures Tidy(h, Run(h, s), whole)
    ensures Calm(s) ==> Calm(Run(h, s))
  {
    hide Renamed, Coming;
    var p, t := s.providers[0], Run(h, s);
    assert Pending(s)[0] == p && Pending(t) == Pending(s)[1..];
    var name := Renamed(h, p.name);
    if name == "" {
      Regroup([], [], Kept(h, Pending(t), whole));
      assert (s.spare + p.values != []) == (s.spare != [] || p.values != []);
    } else {
      var e := Event(name, s.spare + p.values);
      assert whole ==> s.spare == [] && s.spare + p.values == p.values;
      SeenOneMore(s.queue, e, whole);
      Regroup(Seen(s.queue, whole), [Sight(e, whole)], Kept(h, Pending(t), whole));
    }
  }

  lemma {:induction false} FillKeeps(h: Hooks, s: State, whole: bool)
    requires Tidy(h, s, whole)
    ensures Stream(h, Fill(h, s), whole) == Stream(h, s, whole)
    ensures Tidy(h, Fill(h, s), whole)
    ensures Calm(s) ==> Calm(Fill(h, s))
    decreases |s.providers| + |Coming(s.world)|
  {
    hide Stream, Tidy, Calm, Run, Absorb, Coming;
    var t := Absorb(s);
    AbsorbKeeps(h, s, whole);
    if Fills(t) {
      RunKeeps(h, t, whole);
      FillKeeps(h, Run(h, t), whole);
    }
  }

  lemma {:induction false} WaitKeeps(h: Hooks, s: State, whole: bool)
    requires Tidy(h, s, whole)
    ensures Stream(h, Wait(s), whole) == Stream(h, s, whole)
    ensures Tidy(h, Wait(s), whole)
    ensures Calm(s) ==> (if Wait(s).running then Calm(Wait(s)) else Pending(Wait(s)) == [])
    decreases |s.world|
  {
    if !s.running || s.providers != [] {
    } else if s.world == [] {
      assert Pending(Wait(s)) == Pending(s);
    } else {
      AbsorbKeeps(h, s, whole);
      WaitKeeps(h, Absorb(s), whole);
    }
  }

  lemma {:induction false} AwaitKeeps(h: Hooks, s: State, whole: bool)
    requires Tidy(h, s, whole)
    ensures Stream(h, Await(h, s), whole) == Stream(h, s, whole)
    ensures Tidy(h, Await(h, s), whole)
    ensures Calm(s) ==> var a := Await(h, s); if a.queue == [] then Pending(a) == [] else Calm(a)
    decreases |s.world|
  {
    hide Stream, Tidy, Calm, Fill, Wait, Coming, Pending;
    FillKeeps(h, s, whole);
    var f := Fill(h, s);
    if f.queue == [] {
      WaitKeeps(h, f, whole);
      var w := Wait(f);
      if w.running {
        AwaitKeeps(h, w, whole);
      }
    }
  }

  lemma PopFront(h: Hooks, s: State, whole: bool)
    requires s.queue != []
    ensures Stream(h, s, whole) != [] && Stream(h, s, whole)[0] == Sight(s.queue[0], whole)
    ensures Stream(h, s.(queue := s.queue[1..]), whole) == Stream(h, s, whole)[1..]
  {
    hide Kept, Coming;
    var t := s.(queue := s.queue[1..]);
    assert Pending(t) == Pending(s);
    assert Seen(t.queue, whole) == Seen(s.queue, whole)[1..];
  }

  /** Nothing but the queue and the spare list tells the two states apart. */
  lemma SameArrivals(h: Hooks, s: State, t: State, whole: bool)
    requires s.providers == t.providers && s.world == t.world && s.running == t.running
    ensures Pending(s) == Pending(t)
    ensures Calm(s) <==> Calm(t)
    ensures s.queue == t.queue ==> Stream(h, s, whole) == Stream(h, t, whole)
  {
    hide Coming, Kept;
  }

  lemma FirstWantedStep(filter: string, all: seq<Event>)
    requires all != []
    ensures FirstWanted(filter, all) == if Wanted(filter, all[0]) then 0 else 1 + FirstWanted(filter, all[1..])
  {
  }

  /** What a call hands over and what stays behind, whatever the other threads do meanwhile. */
  ghost predicate Serves(filter: string, all: seq<Event>, left: seq<Event>, o: Outcome, whole: bool)
  {
    var k := FirstWanted(filter, all);
    match o
    case Delivered(e, _) => k < |all| && all[k] == Sight(e, whole) && left == all[k + 1..]
    case NoEvent(_) => |left| <= |all| && |all| - |left| <= k && left == all[|all| - |left|..]
  }

  lemma DropTwice(all: seq<Event>, j: nat)
    requires j < |all|
    ensures all[1..][j..] == all[j + 1..]
  {
  }

  lemma ServesLater(filter: string, all: seq<Event>, left: seq<Event>, o: Outcome, whole: bool)
    requires all != [] && !Wanted(filter, all[0]) && Serves(filter, all[1..], left, o, whole)
    ensures Serves(filter, all, left, o, whole)
  {
    hide Sight, FirstWanted;
    FirstWantedStep(filter, all);
    DropTwice(all, if o.Delivered? then FirstWanted(filter, all) else |all| - 1 - |left|);
  }

  lemma ServesNow(filter: string, all: seq<Event>, o: Outcome, whole: bool)
    requires all != [] && o.Delivered? && Wanted(filter, o.e) && all[0] == Sight(o.e, whole)
    ensures Serves(filter, all, all[1..], o, whole)
  {
    FirstWantedStep(filter, all);
  }

  lemma ServesNothing(h: Hooks, filter: string, s: State, whole: bool)
    requires s.queue == []
    ensures Serves(filter, Stream(h, s, whole), Stream(h, s, whole), NoEvent(s), whole)
    ensures Pending(s) == [] ==> Stream(h, s, whole) == []
  {
    hide FirstWanted, Coming;
  }

  /** A call delivers the first wanted event of the stream, with its own parameters when no
      event comes behind a dropped one that left any, and leaves exactly the events after it. */
  lemma {:induction false} NextIsFirst(h: Hooks, filter: string, s: State, whole: bool)
    requires whole ==> NoneBehindALeak(h, Pending(s))
    ensures Serves(filter, Stream(h, s, whole), Stream(h, Next(h, filter, s).rest, whole), Next(h, filter, s), whole)
    ensures whole ==> NoneBehindALeak(h, Pending(Next(h, filter, s).rest))
    ensures Calm(s) ==> (Next(h, filter, s).Delivered? <==>
                         FirstWanted(filter, Stream(h, s, whole)) < |Stream(h, s, whole)|)
    ensures Calm(s) && Next(h, filter, s).Delivered? ==> Calm(Next(h, filter, s).rest)
    decreases Room(s)
  {
    hide NoneBehindALeak, Clear, Coming, Kept, Await, FirstWanted, Serves, Stream, Calm, Pending;
    var c := s.(spare := []);
    SameArrivals(h, s, c, whole);
    ClearIff(h, Pending(c), false);
    AwaitKeeps(h, c, whole);
    var a := Await(h, c);
    ClearIff(h, Pending(a), a.spare != []);
    if a.queue == [] {
      ServesNothing(h, filter, a, whole);
    } else {
      PopFront(h, a, whole);
      var b := a.(queue := a.queue[1..]);
      SameArrivals(h, a, b, whole);
      if Wanted(filter, a.queue[0]) {
        ServesNow(filter, Stream(h, a, whole), Delivered(a.queue[0], b), whole);
      } else {
        NextIsFirst(h, filter, b, whole);
        ServesLater(filter, Stream(h, a, whole), Stream(h, Next(h, filter, b).rest, whole), Next(h, filter, b), whole);
      }
    }
  }

  /** The events a run of calls, one for each filter, delivers until one returns nothing. */
  function Served(h: Hooks, filters: seq<string>, s: State): seq<Event>
    decreases |filters|
  {
    if filters == [] then []
    else
      match Next(h, filters[0], s)
      case Delivered(e, rest) => [e] + Served(h, filters[1..], rest)
      case NoEvent(_) => []
  }

  /** The events the filters pick from a stream, each taking the first it wants and skipping
      those before it. */
  function Picked(filters: seq<string>, all: seq<Event>): seq<Event>
    decreases |filters|
  {
    if filters == [] then []
    else
      var k := FirstWanted(filters[0], all);
      if k == |all| then [] else [all[k]] + Picked(filters[1..], all[k + 1..])
  }

  /** A whole run of calls delivers what its filters pick from the stream, in order, until the
      computer stops; if nothing stops it, all of it. */
  lemma {:induction false} ServedIsPicked(h: Hooks, filters: seq<string>, s: State, whole: bool)
    requires whole ==> NoneBehindALeak(h, Pending(s))
    ensures Seen(Served(h, filters, s), whole) <= Picked(filters, Stream(h, s, whole))
    ensures Calm(s) ==> Seen(Served(h, filters, s), whole) == Picked(filters, Stream(h, s, whole))
    decreases |filters|
  {
    hide NoneBehindALeak, Next, Stream, Calm, Pending, FirstWanted;
    if filters != [] {
      NextIsFirst(h, filters[0], s, whole);
      match Next(h, filters[0], s) {
        case Delivered(e, rest) =>
          ServedIsPicked(h, filters[1..], rest, whole);
          SeenFront(e, Served(h, filters[1..], rest), whole);
        case NoEvent(_) =>
      }
    }
  }

  lemma SeenFront(e: Event, events: seq<Event>, whole: bool)
    ensures Seen([e] + events, whole) == [Sight(e, whole)] + Seen(events, whole)
  {
  }

  // ---------------------------------------------------------------- when parameters are misplaced

  lemma {:induction false} FillExtends(h: Hooks, s: State)
    ensures s.queue <= Fill(h, s).queue
    decreases |s.providers| + |Coming(s.world)|
  {
    hide Renamed, Coming;
    var t := Absorb(s);
    if Fills(t) {
      FillExtends(h, Run(h, t));
    }
  }

  lemma FrontTells(q: seq<Event>, e: Event, own: Event, filled: seq<Event>, rest: seq<Event>)
    requires q + [e] <= filled && |e.params| != |own.params|
    ensures filled != q + ([own] + rest)
  {
    assert filled[|q|] == e;
    assert (q + ([own] + rest))[|q|] == own;
  }

  /** The providers that a fill runs: how many there are depends on the other threads, the
      queue limit and what stops the computer. */
  function Taken(h: Hooks, s: State): seq<Provider>
    decreases |s.providers| + |Coming(s.world)|
  {
    var t := Absorb(s);
    if Fills(t) then [t.providers[0]] + Taken(h, Run(h, t)) else []
  }

  /** They are the first of those pending. */
  lemma {:induction false} TakenIsFirst(h: Hooks, s: State)
    ensures Pending(s) == Taken(h, s) + Pending(Fill(h, s))
    decreases |s.providers| + |Coming(s.world)|
  {
    hide Coming, Run, Pending;
    var t := Absorb(s);
    PendingAfter(h, s, t);
    if Fills(t) {
      TakenIsFirst(h, Run(h, t));
      PendingAfter(h, t, t);
      RegroupProviders([t.providers[0]], Taken(h, Run(h, t)), Pending(Fill(h, s)));
    }
  }

  /** A provider that stops the computer is the last one a fill runs; so is one during whose run
      another thread stopped it. */
  lemma {:induction false} StopIsLast(h: Hooks, s: State, i: nat)
    requires i < |Taken(h, s)| && Taken(h, s)[i].stops
    ensures i == |Taken(h, s)| - 1 && !Fill(h, s).running
    decreases |s.providers| + |Coming(s.world)|
  {
    hide Renamed, Coming;
    var t := Absorb(s);
    var u := Run(h, t);
    if i == 0 {
      assert !u.running && !Fills(Absorb(u));
    } else {
      StopIsLast(h, u, i - 1);
    }
  }

  lemma ArrivalStops(h: Hooks, s: State)
    requires s.world != [] && s.world[0].stop
    ensures Taken(h, s) == [] && !Fill(h, s).running && Fill(h, s).queue == s.queue
  {
  }

  lemma PendingAfter(h: Hooks, s: State, t: State)
    ensures t == Absorb(s) ==> Pending(t) == Pending(s)
    ensures t.providers != [] ==> Pending(t) == [t.providers[0]] + Pending(Run(h, t))
  {
    hide Coming;
  }

  lemma RegroupProviders(a: seq<Provider>, b: seq<Provider>, c: seq<Provider>)
    ensures (a + b) + c == a + (b + c)
  {
  }

  /** What one provider makes of a state, in terms of the providers run after it. */
  lemma OnePairs(h: Hooks, t: State, filled: seq<Event>, rest: seq<Provider>)
    requires t.providers != [] && Run(h, t).queue <= filled
    ensures var u := Run(h, t);
            (filled == u.queue + Kept(h, rest, true) <==> Clear(h, rest, u.spare != [])) ==>
              (filled == t.queue + Kept(h, [t.providers[0]] + rest, true) <==>
               Clear(h, [t.providers[0]] + rest, t.spare != []))
  {
    hide Renamed;
    var p := t.providers[0];
    assert ([p] + rest)[1..] == rest;
    if Renamed(h, p.name) == "" {
      Regroup([], [], Kept(h, rest, true));
      assert (t.spare + p.values != []) == (t.spare != [] || p.values != []);
    } else {
      var e := Event(Renamed(h, p.name), p.values);
      Regroup(t.queue, [e], Kept(h, rest, true));
      if t.spare != [] {
        FrontTells(t.queue, Event(e.name, t.spare + p.values), e, filled, Kept(h, rest, true));
      }
      assert t.spare == [] ==> t.spare + p.values == p.values;
    }
  }

  lemma {:induction false} FillPairsFrom(h: Hooks, s: State)
    ensures Fill(h, s).queue == s.queue + Kept(h, Taken(h, s), true) <==> Clear(h, Taken(h, s), s.spare != [])
    decreases |s.providers| + |Coming(s.world)|
  {
    hide Renamed, Coming, Run, Kept, Clear;
    var t := Absorb(s);
    if Fills(t) {
      FillPairsFrom(h, Run(h, t));
      FillExtends(h, Run(h, t));
      OnePairs(h, t, Fill(h, s).queue, Taken(h, Run(h, t)));
    } else {
      NothingTaken(h, s.queue, s.spare != []);
    }
  }

  lemma NothingTaken(h: Hooks, queue: seq<Event>, dirty: bool)
    ensures queue == queue + Kept(h, [], true) && Clear(h, [], dirty)
  {
  }

  /** In any state, whatever arrives or stops meanwhile: the events that a fill queues all have
      their own parameters exactly when none of them comes behind a dropped event that left
      values, nor any behind values that were there before. */
  lemma FillPairs(h: Hooks, s: State)
    ensures Pending(s) == Taken(h, s) + Pending(Fill(h, s))
    ensures Fill(h, s).queue == s.queue + Kept(h, Taken(h, s), true) <==>
            && NoneBehindALeak(h, Taken(h, s))
            && (s.spare != [] ==> forall j :: 0 <= j < |Taken(h, s)| ==> Renamed(h, Taken(h, s)[j].name) == "")
  {
    hide Renamed, Kept, Fill, Taken, Clear, Pending;
    TakenIsFirst(h, s);
    FillPairsFrom(h, s);
    ClearIff(h, Taken(h, s), s.spare != []);
  }

  /** A fill that leaves the queue empty dropped everything it ran; the values it left make
      the spare list dirty for the next one. */
  lemma {:induction false} FillNothing(h: Hooks, s: State, rest: seq<Provider>)
    requires Fill(h, s).queue == []
    ensures s.queue == []
    ensures Kept(h, Taken(h, s) + rest, true) == Kept(h, rest, true)
    ensures Clear(h, Taken(h, s) + rest, s.spare != []) <==> Clear(h, rest, Fill(h, s).spare != [])
    decreases |s.providers| + |Coming(s.world)|
  {
    hide Renamed, Coming, Run, Kept, Clear;
    var t := Absorb(s);
    if Fills(t) {
      FillNothing(h, Run(h, t), rest);
      RegroupProviders([t.providers[0]], Taken(h, Run(h, t)), rest);
      DroppedFirst(h, t, Taken(h, Run(h, t)) + rest);
    } else {
      assert Taken(h, s) + rest == rest;
    }
  }

  lemma DroppedFirst(h: Hooks, t: State, rest: seq<Provider>)
    requires t.providers != [] && Run(h, t).queue == []
    ensures t.queue == [] && Kept(h, [t.providers[0]] + rest, true) == Kept(h, rest, true)
    ensures Clear(h, [t.providers[0]] + rest, t.spare != []) <==> Clear(h, rest, Run(h, t).spare != [])
  {
    hide Renamed;
    var p := t.providers[0];
    assert ([p] + rest)[1..] == rest;
    assert |t.spare + p.values| == |t.spare| + |p.values|;
  }

  /** The providers run until there is an event to take or the computer stops. */
  function AwaitTaken(h: Hooks, s: State): seq<Provider>
    decreases |s.world|
  {
    var f := Fill(h, s);
    if f.queue != [] then Taken(h, s)
    else
      var w := Wait(f);
      Taken(h, s) + if w.running then AwaitTaken(h, w) else []
  }

  /** The same over all the waits of a call. */
  lemma {:induction false} AwaitPairs(h: Hooks, s: State)
    ensures Await(h, s).queue == s.queue + Kept(h, AwaitTaken(h, s), true) <==>
            Clear(h, AwaitTaken(h, s), s.spare != [])
    decreases |s.world|
  {
    hide Renamed, Coming, Fill, Kept, Clear, Taken, Wait;
    var f, w := Fill(h, s), Wait(Fill(h, s));
    FillPairsFrom(h, s);
    if f.queue == [] {
      if w.running {
        AwaitPairs(h, w);
        FillNothing(h, s, AwaitTaken(h, w));
        assert [] + Kept(h, AwaitTaken(h, w), true) == Kept(h, AwaitTaken(h, w), true);
      } else {
        assert Taken(h, s) + [] == Taken(h, s);
      }
    }
  }

  /** A hook that drops an event leaves its parameters to the next one. */
  lemma DroppedParametersLeak()
    ensures exists h: Hooks, s: State ::
              s.queue == [] && s.spare == [] && s.running && Next(h, "", s).Delivered? &&
              |Next(h, "", s).e.params| == 2 &&
              exists i ::
                0 <= i < |s.providers| && Renamed(h, s.providers[i].name) == Next(h, "", s).e.name &&
                |s.providers[i].values| == 1
  {
    var drop: Hook := (name: string) => "";
    var h := Hooks(map["timer" := [drop]], map[]);
    var s := State([], [Provider("timer", [Number(7)], false), Provider("key", [Number(30)], false)], [], true, []);
    assert |"timer"| == 5 && |"key"| == 3;
    assert h.own["timer"] == [drop] && "key" !in h.own && [drop][1..] == [];
    assert RunHooks([drop], "timer") == RunHooks([], drop("timer")) == "";
    assert Renamed(h, "timer") == "" && Renamed(h, "key") == "key";
    var t := Run(h, s);
    assert t == State([], [Provider("key", [Number(30)], false)], [Number(7)], true, []);
    var u := Run(h, t);
    assert t.spare + t.providers[0].values == [Number(7), Number(30)];
    assert u == State([Event("key", [Number(7), Number(30)])], [], [], true, []);
    assert Fill(h, s) == Fill(h, t) == Fill(h, u) == u;
    assert Await(h, s) == u;
    assert s.(spare := []) == s;
    assert Next(h, "", s) == Delivered(u.queue[0], u.(queue := []));
    assert s.providers[1].name == "key";
  }

  // ---------------------------------------------------------------- the two queues

  /** The events behind a name queue and a parameter queue. */
  function Zip(names: seq<string>, params: seq<seq<Value>>): (r: seq<Event>)
    requires |names| == |params|
    ensures |r| == |names| && forall i :: 0 <= i < |r| ==> r[i] == Event(names[i], params[i])
  {
    seq(|names|, i requires 0 <= i < |names| => Event(names[i], params[i]))
  }

  lemma ZipPush(names: seq<string>, params: seq<seq<Value>>, name: string, values: seq<Value>)
    requires |names| == |params|
    ensures Zip(names + [name], params + [values]) == Zip(names, params) + [Event(name, values)]
  {
  }

  lemma ZipPop(names: seq<string>, params: seq<seq<Value>>)
    requires |names| == |params| > 0
    ensures Zip(names, params)[0] == Event(names[0], params[0])
    ensures Zip(names[1..], params[1..]) == Zip(names, params)[1..]
  {
  }

  /** What one call returns to Lua. */
  datatype Returned = Nothing | Values(name: string, params: seq<Value>)

  class EventLoop {
    const hooks: Hooks
    var eventQueue: seq<string>
    var paramQueue: seq<seq<Value>>
    var providers: seq<Provider>
    var running: bool
    /** What the other threads are still going to do. */
    var world: seq<Arrival>

    constructor (h: Hooks, arrivals: seq<Arrival>)
      ensures hooks == h && Paired() && Events() == [] && providers == [] && running && world == arrivals
    {
      hooks, world := h, arrivals;
      eventQueue, paramQueue, providers, running := [], [], [], true;
    }

    /** Between calls, while the computer runs, there is one parameter list for each name. */
    ghost predicate Paired()
      reads this
    {
      |paramQueue| == |eventQueue|
    }

    ghost function Events(): seq<Event>
      requires Paired()
      reads this
    {
      Zip(eventQueue, paramQueue)
    }

    /** During a call one more list lies on top, for the next event. */
    ghost predicate Open()
      reads this
    {
      |paramQueue| == |eventQueue| + 1
    }

    ghost function Now(): State
      requires Open()
      reads this
    {
      State(Zip(eventQueue, paramQueue[..|eventQueue|]), providers, paramQueue[|eventQueue|], running, world)
    }

    method QueueLuaEvent(name: string, values: seq<Value>)
      requires Paired()
      modifies this`eventQueue, this`paramQueue
      ensures Paired() && Events() == old(Events()) + [Event(name, values)]
    {
      ZipPush(eventQueue, paramQueue, name, values);
      paramQueue := paramQueue + [values];
      eventQueue := eventQueue + [name];
    }

    method QueueEvent(p: Provider)
      modifies this`providers
      ensures providers == old(providers) + [p]
    {
      providers := providers + [p];
    }

    /** Lets the other threads take their turn. */
    method Yield()
      requires Open()
      modifies this`providers, this`running, this`world
      ensures Now() == Absorb(old(Now()))
    {
      if world != [] {
        providers, running, world := providers + world[0].queued, running && !world[0].stop, world[1..];
      }
    }

    method ApplyHooks(table: map<string, seq<Hook>>, name: string) returns (r: string)
      ensures r == Hooked(table, name)
    {
      r := name;
      if name != "" && name in table {
        var list := table[name];
        var i := 0;
        while i < |list| && r != ""
          invariant i <= |list| && RunHooks(list[i..], r) == RunHooks(list, name)
        {
          r := list[i](r);
          i := i + 1;
        }
      }
    }

    /** Runs the first provider, hooks and all. */
    method TakeEvent()
      requires Open() && providers != []
      modifies this`eventQueue, this`paramQueue, this`providers, this`running
      ensures Open() && Now() == Run(hooks, old(Now()))
    {
      hide Hooked;
      ghost var before, top := Now(), |eventQueue|;
      var p := providers[0];
      providers := providers[1..];
      running := running && !p.stops;
      paramQueue := paramQueue[|paramQueue| - 1 := paramQueue[|paramQueue| - 1] + p.values];
      assert paramQueue[..top] == old(paramQueue)[..top];
      var own := ApplyHooks(hooks.own, p.name);
      var name := ApplyHooks(hooks.shared, own);
      if name != "" {
        ZipPush(eventQueue, paramQueue[..top], name, paramQueue[top]);
        assert paramQueue == paramQueue[..top] + [paramQueue[top]];
        eventQueue := eventQueue + [name];
        paramQueue := paramQueue + [[]];
        assert paramQueue[..top + 1] == old(paramQueue)[..top] + [before.spare + p.values];
      }
    }

    method FillQueue()
      requires Open()
      modifies this`eventQueue, this`paramQueue, this`providers, this`running, this`world
      ensures Open() && Now() == Fill(hooks, old(Now()))
    {
      hide Run, Absorb, Renamed, Coming;
      Yield();
      while running && providers != [] && |eventQueue| < QUEUE_LIMIT
        invariant Open()
        invariant Fill(hooks, old(Now())) == if Fills(Now()) then Fill(hooks, Run(hooks, Now())) else Now()
        decreases |providers| + |Coming(world)|
      {
        TakeEvent();
        Yield();
      }
    }

    /** Blocks until there is something to take or the computer stops. */
    method WaitForEvent()
      requires Open()
      modifies this`providers, this`running, this`world
      ensures Open() && Now() == Wait(old(Now()))
    {
      while running && providers == []
        invariant Open() && Wait(Now()) == Wait(old(Now()))
        decreases running, |world|
      {
        if world == [] {
          running := false;
        } else {
          Yield();
        }
      }
    }

    /** Fills the queue until there is an event in it or the computer stops. */
    method AwaitEvent()
      requires Open()
      modifies this`eventQueue, this`paramQueue, this`providers, this`running, this`world
      ensures Open() && Now() == Await(hooks, old(Now()))
    {
      hide Fill, Wait, Coming;
      FillQueue();
      while eventQueue == []
        invariant Open()
        invariant Await(hooks, old(Now())) ==
                  if eventQueue != [] then Now()
                  else
                    var w := Wait(Now());
                    if w.running then Await(hooks, w) else w
        invariant eventQueue == [] ==> !Fills(Now())
        decreases |world|, eventQueue == []
      {
        label before:
        WaitForEvent();
        if !running {
          return;
        }
        FillQueue();
      }
    }

    /** The computer between calls. */
    ghost function Idle(): State
      requires Paired()
      reads this
    {
      State(Events(), providers, [], running, world)
    }

    /** Takes the front event off the name queue; its parameters stay only when it is wanted.
        The spare list goes. */
    method PopEvent(filter: string) returns (ev: string, wanted: bool)
      requires Open() && eventQueue != []
      modifies this`eventQueue, this`paramQueue
      ensures wanted == Wanted(filter, old(Now()).queue[0]) && ev == old(Now()).queue[0].name
      ensures wanted <==> filter == "" || ev == filter || ev == "terminate"
      ensures eventQueue == old(eventQueue)[1..]
      ensures wanted ==> paramQueue == old(paramQueue)[..|old(eventQueue)|]
      ensures !wanted ==> paramQueue == old(paramQueue)[1..|old(eventQueue)|]
    {
      ev := eventQueue[0];
      eventQueue := eventQueue[1..];
      wanted := filter == "" || ev == filter || ev == "terminate";
      if !wanted {
        paramQueue := paramQueue[1..];
      }
      paramQueue := paramQueue[..|paramQueue| - 1];
    }

    method GetNextEvent(filter: string) returns (r: Returned)
      requires running ==> Paired()
      modifies this
      ensures !old(running) ==> r == Nothing && unchanged(this)
      ensures old(running) ==>
                match Next(hooks, filter, old(Idle()))
                case Delivered(e, rest) => r == Values(e.name, e.params) && Paired() && Idle() == rest.(spare := [])
                case NoEvent(rest) => r == Nothing && !running && Open() && Now() == rest
      ensures r.Values? ==> filter == "" || r.name == filter || r.name == "terminate"
    {
      hide Await, Coming;
      if !running {
        return Nothing;
      }
      var ev, wanted := "", false;
      ghost var first := Idle();
      while !wanted
        invariant first == old(Idle())
        invariant !wanted ==> Paired() && Next(hooks, filter, first) == Next(hooks, filter, Idle())
        invariant wanted ==> Open() && (filter == "" || ev == filter || ev == "terminate")
        invariant wanted ==>
                    var spare := Next(hooks, filter, first).rest.spare;
                    Next(hooks, filter, first) ==
                    Delivered(Event(ev, paramQueue[0]),
                              State(Zip(eventQueue, paramQueue[1..]), providers, spare, running, world))
        decreases !wanted, if wanted then 0 else Room(Idle())
      {
        ghost var c := Idle();
        paramQueue := paramQueue + [[]];
        assert Now() == c;
        AwaitEvent();
        if eventQueue == [] {
          return Nothing;
        }
        ghost var a := Now();
        ZipPop(eventQueue, paramQueue[..|eventQueue|]);
        ev, wanted := PopEvent(filter);
      }
      if |paramQueue| != |eventQueue| + 1 {
        assert false;
      }
      if paramQueue == [] {
        assert false;
      }
      var params := paramQueue[0];
      paramQueue := paramQueue[1..];
      return Values(ev, params);
    }
  }
}
