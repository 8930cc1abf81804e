/** Which parameters each event of a call really carries: its own, behind whatever the dropped
    events right before it left on the list. */
module EventOrigins {
  import opened EventQueue

  predicate Dropped(h: Hooks, p: Provider) { Renamed(h, p.name) == "" }

  /** What running the providers leaves on the parameter list. */
  function Left(h: Hooks, ps: seq<Provider>, spare: seq<Value>): seq<Value>
  {
    if ps == [] then spare
    else Left(h, ps[1..], if Dropped(h, ps[0]) then spare + ps[0].values else [])
  }

  /** The events that running the providers makes, with the parameters they get. */
  function Made(h: Hooks, ps: seq<Provider>, spare: seq<Value>): seq<Event>
  {
    if ps == [] then []
    else if Dropped(h, ps[0]) then Made(h, ps[1..], spare + ps[0].values)
    else [Event(Renamed(h, ps[0].name), spare + ps[0].values)] + Made(h, ps[1..], [])
  }

  /** Number `k` among the providers that are kept. */
  function Origin(h: Hooks, ps: seq<Provider>, k: nat): (j: nat)
    ensures j <= |ps|
  {
    if ps == [] then 0
    else if Dropped(h, ps[0]) then 1 + Origin(h, ps[1..], k)
    else if k == 0 then 0
    else 1 + Origin(h, ps[1..], k - 1)
  }

  /** Every event comes from one kept provider, and carries its values behind those left. */
  lemma {:induction false} MadeAt(h: Hooks, ps: seq<Provider>, spare: seq<Value>, k: nat)
    requires k < |Made(h, ps, spare)|
    ensures var j := Origin(h, ps, k);
            && j < |ps| && !Dropped(h, ps[j])
            && Made(h, ps, spare)[k] == Event(Renamed(h, ps[j].name), Left(h, ps[..j], spare) + ps[j].values)
    decreases |ps|
  {
    hide Renamed;
    var j := Origin(h, ps, k);
    if Dropped(h, ps[0]) {
      MadeAt(h, ps[1..], spare + ps[0].values, k);
      assert ps[..j][1..] == ps[1..][..j - 1];
    } else if k > 0 {
      MadeAt(h, ps[1..], [], k - 1);
      assert ps[..j][1..] == ps[1..][..j - 1];
    }
  }

  /** Nothing is left exactly when nothing was pushed since the last kept provider. */
  lemma {:induction false} LeftNothingIff(h: Hooks, ps: seq<Provider>, spare: seq<Value>)
    ensures Left(h, ps, spare) == [] <==>
            && (forall i :: 0 <= i < |ps| && (forall m :: i <= m < |ps| ==> Dropped(h, ps[m])) ==> ps[i].values == [])
            && ((forall m :: 0 <= m < |ps| ==> Dropped(h, ps[m])) ==> spare == [])
    decreases |ps|
  {
    hide Dropped;
    if ps != [] {
      var rest, next := ps[1..], if Dropped(h, ps[0]) then spare + ps[0].values else [];
      LeftNothingIff(h, rest, next);
      assert forall m {:trigger ps[m]} :: 0 < m < |ps| ==> ps[m] == rest[m - 1];
      assert forall m {:trigger rest[m]} :: 0 <= m < |rest| ==> rest[m] == ps[m + 1];
    }
  }

  lemma {:induction false} MadeInTurn(h: Hooks, a: seq<Provider>, b: seq<Provider>, spare: seq<Value>)
    ensures Made(h, a + b, spare) == Made(h, a, spare) + Made(h, b, Left(h, a, spare))
    ensures Left(h, a + b, spare) == Left(h, b, Left(h, a, spare))
    decreases |a|
  {
    hide Dropped, Renamed;
    if a == [] {
      assert a + b == b;
    } else {
      assert (a + b)[1..] == a[1..] + b;
      MadeInTurn(h, a[1..], b, if Dropped(h, a[0]) then spare + a[0].values else []);
    }
  }

  lemma RunMakes(h: Hooks, t: State, rest: seq<Provider>)
    requires t.providers != []
    ensures var ps := [t.providers[0]] + rest;
            && Run(h, t).queue + Made(h, rest, Run(h, t).spare) == t.queue + Made(h, ps, t.spare)
            && Left(h, rest, Run(h, t).spare) == Left(h, ps, t.spare)
  {
    hide Renamed;
    var ps := [t.providers[0]] + rest;
    assert ps[1..] == rest;
  }

  /** A fill queues what the providers it runs make. */
  lemma {:induction false} FillMakes(h: Hooks, s: State)
    ensures Fill(h, s).queue == s.queue + Made(h, Taken(h, s), s.spare)
    ensures Fill(h, s).spare == Left(h, Taken(h, s), s.spare)
    decreases |s.providers| + |Coming(s.world)|
  {
    hide Run, Made, Left, Coming;
    var t := Absorb(s);
    if Fills(t) {
      FillMakes(h, Run(h, t));
      RunMakes(h, t, Taken(h, Run(h, t)));
    } else {
      NothingMade(h, s.queue, s.spare);
    }
  }

  lemma NothingMade(h: Hooks, queue: seq<Event>, spare: seq<Value>)
    ensures queue + Made(h, [], spare) == queue && Left(h, [], spare) == spare
  {
  }

  /** So does a whole await, over all its fills and waits. */
  lemma {:induction false} AwaitMakes(h: Hooks, s: State)
    ensures Await(h, s).queue == s.queue + Made(h, AwaitTaken(h, s), s.spare)
    decreases |s.world|
  {
    hide Fill, Taken, Made, Left, Wait;
    FillMakes(h, s);
    var f := Fill(h, s);
    if f.queue == [] {
      var w := Wait(f);
      if w.running {
        AwaitMakes(h, w);
        MadeInTurn(h, Taken(h, s), AwaitTaken(h, w), s.spare);
      } else {
        assert Taken(h, s) + [] == Taken(h, s);
      }
    }
  }

  // ---------------------------------------------------------------- a whole call

  /** The providers a call runs, one list for each await: each starts with an empty list. */
  function Passes(h: Hooks, filter: string, s: State): seq<seq<Provider>>
    decreases Room(s)
  {
    var c := s.(spare := []);
    var a := Await(h, c);
    [AwaitTaken(h, c)] +
    if a.queue == [] || Wanted(filter, a.queue[0]) then [] else Passes(h, filter, a.(queue := a.queue[1..]))
  }

  function MadeIn(h: Hooks, passes: seq<seq<Provider>>): seq<Event>
  {
    if passes == [] then [] else Made(h, passes[0], []) + MadeIn(h, passes[1..])
  }

  /** All events a call sees: those queued before, and those its passes make. */
  function SeenBy(h: Hooks, filter: string, s: State): seq<Event>
  {
    s.queue + MadeIn(h, Passes(h, filter, s))
  }

  lemma SeenStep(h: Hooks, filter: string, s: State)
    ensures var a := Await(h, s.(spare := []));
            SeenBy(h, filter, s) ==
            if a.queue == [] || Wanted(filter, a.queue[0]) then a.queue
            else [a.queue[0]] + SeenBy(h, filter, a.(queue := a.queue[1..]))
  {
    hide Await, AwaitTaken, Made, Wanted;
    var c := s.(spare := []);
    var a := Await(h, c);
    AwaitMakes(h, c);
    var pass := AwaitTaken(h, c);
    if a.queue == [] || Wanted(filter, a.queue[0]) {
      OnePass(h, pass);
    } else {
      var rest := Passes(h, filter, a.(queue := a.queue[1..]));
      assert ([pass] + rest)[1..] == rest;
      assert a.queue == [a.queue[0]] + a.queue[1..];
      Regroup(s.queue, Made(h, pass, []), MadeIn(h, rest));
      Regroup([a.queue[0]], a.queue[1..], MadeIn(h, rest));
    }
  }

  lemma OnePass(h: Hooks, pass: seq<Provider>)
    ensures MadeIn(h, [pass]) == Made(h, pass, [])
  {
    hide Made;
    assert [pass][1..] == [];
  }

  /** A call hands over the first wanted event it sees, with the parameters it was made with, and
      leaves the events behind it: whatever the hooks drop, and whatever arrives or stops. */
  lemma {:induction false} CallDelivers(h: Hooks, filter: string, s: State)
    ensures var all, k := SeenBy(h, filter, s), FirstWanted(filter, SeenBy(h, filter, s));
            match Next(h, filter, s)
            case Delivered(e, rest) => k < |all| && e == all[k] && rest.queue == all[k + 1..]
            case NoEvent(rest) => k == |all| && rest.queue == []
    decreases Room(s)
  {
    hide Await, Wanted, SeenBy, FirstWanted;
    SeenStep(h, filter, s);
    var a := Await(h, s.(spare := []));
    if a.queue == [] {
      NoneWanted(filter);
    } else {
      FirstWantedStep(filter, SeenBy(h, filter, s));
      if !Wanted(filter, a.queue[0]) {
        CallDelivers(h, filter, a.(queue := a.queue[1..]));
      }
    }
  }

  lemma NoneWanted(filter: string)
    ensures FirstWanted(filter, []) == 0
  {
  }

  /** No call passes over a "terminate", nor over an event of the name it waits for. */
  lemma NotPassedOver(h: Hooks, filter: string, s: State, t: nat)
    requires t < |SeenBy(h, filter, s)|
    requires var name := SeenBy(h, filter, s)[t].name; name == "terminate" || name == filter || filter == ""
    ensures Next(h, filter, s).Delivered? && FirstWanted(filter, SeenBy(h, filter, s)) <= t
  {
    hide Next, SeenBy;
    CallDelivers(h, filter, s);
  }

  // ---------------------------------------------------------------- the passes are what is pending

  lemma {:induction false} WaitPending(s: State)
    ensures Pending(Wait(s)) == Pending(s)
    decreases |s.world|
  {
    if s.running && s.providers == [] && s.world != [] {
      WaitPending(Absorb(s));
      assert Pending(Absorb(s)) == Pending(s);
    }
  }

  lemma {:induction false} AwaitTakenIsFirst(h: Hooks, s: State)
    ensures Pending(s) == AwaitTaken(h, s) + Pending(Await(h, s))
    decreases |s.world|
  {
    hide Fill, Taken, Wait, Pending;
    TakenIsFirst(h, s);
    var f := Fill(h, s);
    if f.queue == [] {
      var w := Wait(f);
      WaitPending(f);
      if w.running {
        AwaitTakenIsFirst(h, w);
        RegroupProviders(Taken(h, s), AwaitTaken(h, w), Pending(Await(h, w)));
      } else {
        assert Taken(h, s) + [] == Taken(h, s);
      }
    }
  }

  function Flat(passes: seq<seq<Provider>>): seq<Provider>
  {
    if passes == [] then [] else passes[0] + Flat(passes[1..])
  }

  /** Over its passes a call runs the first of the pending providers, each once and in order. */
  lemma {:induction false} PassesAreFirst(h: Hooks, filter: string, s: State)
    ensures Pending(s) == Flat(Passes(h, filter, s)) + Pending(Next(h, filter, s).rest)
    decreases Room(s)
  {
    hide Await, AwaitTaken, Wanted, Coming;
    var c := s.(spare := []);
    var a, pass := Await(h, c), AwaitTaken(h, c);
    AwaitTakenIsFirst(h, c);
    assert Pending(c) == Pending(s);
    if a.queue == [] || Wanted(filter, a.queue[0]) {
      assert [pass][1..] == [] && pass + [] == pass;
    } else {
      var b := a.(queue := a.queue[1..]);
      var rest := Passes(h, filter, b);
      assert Pending(a) == Pending(b);
      PassesAreFirst(h, filter, b);
      assert ([pass] + rest)[1..] == rest;
      RegroupProviders(pass, Flat(rest), Pending(Next(h, filter, b).rest));
    }
  }

  // ---------------------------------------------------------------- the event delivered

  /** Where an event of the passes was made. */
  datatype Place = Place(pass: nat, at: nat)

  function PlaceOf(h: Hooks, passes: seq<seq<Provider>>, k: nat): Place
    requires k < |MadeIn(h, passes)|
  {
    var here := |Made(h, passes[0], [])|;
    if k < here then Place(0, Origin(h, passes[0], k))
    else var p := PlaceOf(h, passes[1..], k - here); Place(p.pass + 1, p.at)
  }

  lemma {:induction false} PlaceIs(h: Hooks, passes: seq<seq<Provider>>, k: nat)
    requires k < |MadeIn(h, passes)|
    ensures var p := PlaceOf(h, passes, k);
            && p.pass < |passes| && p.at < |passes[p.pass]|
            && var ps := passes[p.pass];
               && !Dropped(h, ps[p.at])
               && MadeIn(h, passes)[k] == Event(Renamed(h, ps[p.at].name), Left(h, ps[..p.at], []) + ps[p.at].values)
    decreases |passes|
  {
    hide Dropped, Renamed, Left, Made, Origin;
    var here := |Made(h, passes[0], [])|;
    if k < here {
      MadeAt(h, passes[0], [], k);
    } else {
      PlaceIs(h, passes[1..], k - here);
    }
  }

  /** The event a call delivers, unless it was queued before the call, comes from one provider
      that the call ran. It has that provider's parameters if and only if, since the last kept
      event of the same await, no dropped event left any. */
  lemma DeliveredPairs(h: Hooks, filter: string, s: State)
    requires Next(h, filter, s).Delivered? && |s.queue| <= FirstWanted(filter, SeenBy(h, filter, s))
    ensures FirstWanted(filter, SeenBy(h, filter, s)) - |s.queue| < |MadeIn(h, Passes(h, filter, s))|
    ensures var e, passes := Next(h, filter, s).e, Passes(h, filter, s);
            var p := PlaceOf(h, passes, FirstWanted(filter, SeenBy(h, filter, s)) - |s.queue|);
            && p.pass < |passes| && p.at < |passes[p.pass]|
            && var ps := passes[p.pass];
               && e.name == Renamed(h, ps[p.at].name) != ""
               && (e.params == ps[p.at].values <==>
                   forall i :: 0 <= i < p.at && (forall m :: i <= m < p.at ==> Dropped(h, ps[m])) ==>
                     ps[i].values == [])
  {
    hide Next, Passes, Left, FirstWanted, MadeIn, PlaceOf, Renamed;
    CallDelivers(h, filter, s);
    var e, passes := Next(h, filter, s).e, Passes(h, filter, s);
    var k := FirstWanted(filter, SeenBy(h, filter, s)) - |s.queue|;
    PlaceIs(h, passes, k);
    var p := PlaceOf(h, passes, k);
    var ps := passes[p.pass];
    LeftNothingIff(h, ps[..p.at], []);
    var left := Left(h, ps[..p.at], []);
    assert |left + ps[p.at].values| == |left| + |ps[p.at].values|;
  }
}
