/** Any number of pod events before the next passes: when the four maps still come to represent the simple map. */
module Batches {
  import opened Options
  import opened Participation
  import opened LocalView
  import opened PassTheorems
  import opened Quiescence
  import opened Settling
  import R = Refinement
  import Runs

  /** The events as they are booked, and as they are wanted. */
  function BookAll(s: Info, events: seq<R.PodEvent>): Info {
    if events == [] then s
    else R.Concrete(BookAll(s, events[..|events| - 1]), R.Booked(events[|events| - 1]))
  }

  function WantAll(live: R.Live, events: seq<R.PodEvent>): R.Live {
    if events == [] then live
    else R.Abstract(WantAll(live, events[..|events| - 1]), R.Wanted(events[|events| - 1]))
  }

  // ---- The entries of a node after a batch ----

  /** The pods that start under a key and were not live there before. */
  function Started(live: R.Live, events: seq<R.PodEvent>, n: string): set<string> {
    if events == [] then {}
    else
      var init, e := Started(live, events[..|events| - 1], n), R.Booked(events[|events| - 1]);
      if e.Start? && e.node == n && e.pod !in Lookup(live, n) then init + {e.pod} else init
  }

  /** The pods that stop under a key. */
  function Marked(events: seq<R.PodEvent>, n: string): set<string> {
    if events == [] then {}
    else
      var init, e := Marked(events[..|events| - 1], n), R.Booked(events[|events| - 1]);
      if e.Stop? && e.node == n then init + {e.pod} else init
  }

  function StateOf(live: R.Live, events: seq<R.PodEvent>, n: string): Option<NodeState> {
    if events == [] then if n in live then Some(Active) else None
    else
      var init, e := events[..|events| - 1], R.Booked(events[|events| - 1]);
      var state := StateOf(live, init, n);
      if e.node != n then state
      else if e.Start? then
        if e.pod in Lookup(live, n) || state == Some(Active) then state else Some(Pending)
      else if Marked(events, n) == Lookup(live, n) && e.pod !in Started(live, init, n) then Some(Terminating)
      else state
  }

  function Nonempty(s: set<string>): Option<set<string>> {
    if s == {} then None else Some(s)
  }

  lemma {:induction false} EntriesAfter(live: R.Live, events: seq<R.PodEvent>, n: string)
    ensures Of(BookAll(R.Represent(live), events), n) ==
              Local(StateOf(live, events, n), At(live, n), Nonempty(Started(live, events, n)),
                    Nonempty(Marked(events, n)))
  {
    if events == [] {
      R.RepresentAt(live, n);
    } else {
      var s := BookAll(R.Represent(live), events[..|events| - 1]);
      EntriesAfter(live, events[..|events| - 1], n);
      LocalLookups(s, n);
    }
  }

  lemma {:induction false} StateShape(live: R.Live, events: seq<R.PodEvent>, n: string)
    ensures Started(live, events, n) !! Lookup(live, n)
    ensures n in live ==> StateOf(live, events, n).Some?
    ensures n !in live ==> StateOf(live, events, n) == if Started(live, events, n) == {} then None else Some(Pending)
    ensures n in live && Started(live, events, n) == Marked(events, n) == {} ==>
              StateOf(live, events, n) == Some(Active)
  {
    if events != [] {
      StateShape(live, events[..|events| - 1], n);
    }
  }

  // ---- What two passes make of them ----

  /** The batch and two passes do what is wanted for a node with running pods `pods`: nothing was asked, or all pods
      were marked and the node is terminating, or the pods left are the wanted ones and the node is active or becomes
      it. */
  predicate Fits(pods: set<string>, started: set<string>, marked: set<string>, state: Option<NodeState>, late: bool,
                 wanted: set<string>) {
    if started == {} && marked == {} then wanted == pods
    else if wanted == {} then pods != {} && marked == pods + started && state == Some(Terminating)
    else
      && (pods + started) - marked == wanted && marked != pods + started
      && (state == Some(Active) || (pods == {} && !late))
  }

  function Entry(wanted: set<string>): Local {
    if wanted == {} then Local(None, None, None, None) else Local(Some(Active), Some(wanted), None, None)
  }

  /** A visit to a node without creating pods. */
  function Visited(state: NodeState, all: set<string>, marked: set<string>): Local {
    if marked == {} then Local(Some(state), Some(all), None, None)
    else if marked == all then
      if state == Terminating then Local(None, None, None, None) else Local(Some(state), Some(all), None, Some(marked))
    else Local(Some(state), Some(all - marked), None, None)
  }

  lemma OwnVisited(state: NodeState, all: set<string>, marked: set<string>)
    requires all != {}
    ensures Own(Local(Some(state), Some(all), None, Nonempty(marked)), true) == Visited(state, all, marked)
    ensures Own(Visited(state, all, marked), true) == Visited(state, all, marked)
  {
  }

  lemma VisitedIsEntry(state: NodeState, all: set<string>, marked: set<string>, wanted: set<string>)
    requires all != {}
    ensures Visited(state, all, marked) == Entry(wanted) <==>
              if wanted == {} then marked == all && state == Terminating
              else marked != all && all - marked == wanted && state == Active
  {
    assert marked == {} ==> all - marked == all;
  }

  /** A node without running pods is activated, unless it is drained before its visit. */
  lemma FreshNode(started: set<string>, marked: set<string>, hot: bool, late: bool)
    requires started != {} && (late ==> hot)
    ensures AfterTwo(Local(Some(Pending), None, Some(started), Nonempty(marked)), hot, late)
            == Visited(if late then Pending else Active, started, marked)
  {
    var l := Local(Some(NodeState.Pending), None, Some(started), Nonempty(marked));
    assert {} + started == started;
    OwnVisited(Pending, started, marked);
    OwnVisited(Active, started, marked);
    assert Drain(l) == Local(Some(NodeState.Pending), Some(started), None, Nonempty(marked));
    assert Own(l, true) == Local(Some(Active), Some(started), None, Nonempty(marked));
  }

  lemma RunningNode(pods: set<string>, started: set<string>, marked: set<string>, state: NodeState, hot: bool,
                    late: bool)
    requires pods != {} && (started != {} || late ==> hot)
    ensures AfterTwo(Local(Some(state), Some(pods), Nonempty(started), Nonempty(marked)), hot, late)
            == Visited(state, pods + started, marked)
  {
    var l := Local(Some(state), Some(pods), Nonempty(started), Nonempty(marked));
    OwnVisited(state, pods + started, marked);
    assert started == {} ==> pods + started == pods;
    assert Drain(l) == Local(Some(state), Some(pods + started), None, Nonempty(marked));
    assert started != {} ==> Own(l, true) == Drain(l);
    assert Drain(Visited(state, pods + started, marked)) == Visited(state, pods + started, marked);
  }

  lemma FitsAt(pods: set<string>, started: set<string>, marked: set<string>, state: NodeState, hot: bool, late: bool,
               wanted: set<string>)
    requires (pods != {} && started != {}) || late ==> hot
    requires pods == {} ==> state == Pending && started != {}
    requires started == marked == {} ==> state == Active
    ensures var l := Local(Some(state), Nonempty(pods), Nonempty(started), Nonempty(marked));
            AfterTwo(l, hot, late) == Entry(wanted) <==> Fits(pods, started, marked, Some(state), late, wanted)
  {
    if pods == {} {
      FreshNode(started, marked, hot, late);
      VisitedIsEntry(if late then Pending else Active, started, marked, wanted);
      assert pods + started == started;
    } else {
      RunningNode(pods, started, marked, state, hot, late);
      VisitedIsEntry(state, pods + started, marked, wanted);
      assert pods + {} == pods && pods - {} == pods;
    }
  }

  /** Passes leave a node alone that does not participate and has no creating pods. */
  lemma {:induction false} AbsentStays(w: Network, calls: seq<Call>, n: string)
    requires ValidCalls(w, calls) && n !in w.info.nodes && Of(w.info, n).creating.None?
    ensures Of(RunPasses(w, calls).info, n) == Of(w.info, n)
    decreases calls
  {
    if calls != [] {
      var w' := RunPass(w, calls[0].order, calls[0].ok);
      PassAt(w, calls[0], n);
      assert Of(w'.info, n).state.None?;
      AbsentStays(w', calls[1..], n);
    }
  }

  /** Fits for a node, as a condition on the batch and on whether the first pass drains before it visits the node. */
  predicate FitsNode(live: R.Live, events: seq<R.PodEvent>, order: seq<string>, n: string) {
    Fits(Lookup(live, n), Started(live, events, n), Marked(events, n), StateOf(live, events, n),
         Late(BookAll(R.Represent(live), events), order, n), Lookup(WantAll(live, events), n))
  }

  lemma BatchAtNode(live: R.Live, w: Network, events: seq<R.PodEvent>, calls: seq<Call>, n: string)
    requires w.info == BookAll(R.Represent(live), events) && ValidCalls(w, calls) && |calls| >= 2
    requires n in w.info.nodes ==> Provided(calls, n)
    ensures Of(RunPasses(w, calls).info, n) == Entry(Lookup(WantAll(live, events), n)) <==>
              FitsNode(live, events, calls[0].order, n)
  {
    EntriesAfter(live, events, n);
    StateShape(live, events, n);
    var state := StateOf(live, events, n);
    assert n in w.info.nodes <==> state.Some?;
    assert At(live, n) == Nonempty(Lookup(live, n));
    if state.Some? {
      TwoPassesSettle(w, calls, n);
      HotWhen(w, calls[0], n);
      FitsAt(Lookup(live, n), Started(live, events, n), Marked(events, n), state.value, Hot(w.info, calls[0].order),
             Late(w.info, calls[0].order, n), Lookup(WantAll(live, events), n));
    } else {
      AbsentStays(w, calls, n);
    }
  }

  /** Any batch of pod events on a represented state, followed by at least two passes that find the streams of all
      participating nodes, gives the representation of what was wanted if and only if every node fits. */
  lemma BatchRefines(live: R.Live, w: Network, events: seq<R.PodEvent>, calls: seq<Call>)
    requires w.info == BookAll(R.Represent(live), events) && ValidCalls(w, calls) && |calls| >= 2
    requires forall n :: n in w.info.nodes ==> Provided(calls, n)
    ensures RunPasses(w, calls).info == R.Represent(WantAll(live, events)) <==>
              forall n :: FitsNode(live, events, calls[0].order, n)
  {
    var s', t' := RunPasses(w, calls).info, R.Represent(WantAll(live, events));
    forall n ensures Of(s', n) == Of(t', n) <==> FitsNode(live, events, calls[0].order, n) {
      BatchAtNode(live, w, events, calls, n);
      R.RepresentAt(WantAll(live, events), n);
    }
    if forall n :: FitsNode(live, events, calls[0].order, n) {
      forall n ensures Of(s', n) == Of(t', n) {
        assert FitsNode(live, events, calls[0].order, n);
      }
      SameEverywhere(s', t');
    }
  }

  // ---- As a run of the protocol ----

  function EventSteps(events: seq<R.PodEvent>): seq<Runs.Step> {
    if events == [] then [] else EventSteps(events[..|events| - 1]) + [R.StepOf(events[|events| - 1])]
  }

  function PassSteps(calls: seq<Call>): seq<Runs.Step> {
    if calls == [] then [] else [Runs.Reconcile(calls[0].order, calls[0].ok)] + PassSteps(calls[1..])
  }

  lemma {:induction false} EventsAreSteps(w: Network, events: seq<R.PodEvent>)
    ensures Runs.After(w, EventSteps(events)) == w.(info := BookAll(w.info, events))
  {
    if events != [] {
      var init, e := events[..|events| - 1], events[|events| - 1];
      EventsAreSteps(w, init);
      Runs.RunConcat(w, EventSteps(init), [R.StepOf(e)]);
      R.StepIsBooked(Runs.After(w, EventSteps(init)), e);
    }
  }

  lemma {:induction false} PassesAreSteps(w: Network, calls: seq<Call>)
    ensures Runs.After(w, PassSteps(calls)) == RunPasses(w, calls)
    ensures Runs.ValidRun(w, PassSteps(calls)) <==> ValidCalls(w, calls)
    decreases calls
  {
    if calls != [] {
      PassesAreSteps(RunPass(w, calls[0].order, calls[0].ok), calls[1..]);
      assert PassSteps(calls)[1..] == PassSteps(calls[1..]);
    }
  }

  /** The same as a run of the protocol: the events as they arrive, and then the passes. */
  lemma BatchRunRefines(live: R.Live, w: Network, events: seq<R.PodEvent>, calls: seq<Call>)
    requires w.info == R.Represent(live) && |calls| >= 2
    requires Runs.ValidRun(w, EventSteps(events) + PassSteps(calls))
    requires forall n :: n in Runs.After(w, EventSteps(events)).info.nodes ==> Provided(calls, n)
    ensures Runs.After(w, EventSteps(events) + PassSteps(calls)).info == R.Represent(WantAll(live, events)) <==>
              forall n :: FitsNode(live, events, calls[0].order, n)
  {
    var w' := Runs.After(w, EventSteps(events));
    Runs.RunConcat(w, EventSteps(events), PassSteps(calls));
    EventsAreSteps(w, events);
    PassesAreSteps(w', calls);
    BatchRefines(live, w', events, calls);
  }

  // ---- Edge nodes ----

  ghost predicate EdgeOnly(events: seq<R.PodEvent>) {
    forall i :: 0 <= i < |events| ==> events[i].edge
  }

  /** On edge nodes, what is wanted differs from what is left after the marks only by the pods that start again. */
  lemma {:induction false} WantedOnEdge(live: R.Live, events: seq<R.PodEvent>, n: string)
    requires EdgeOnly(events)
    ensures var all, wanted := Lookup(live, n) + Started(live, events, n), Lookup(WantAll(live, events), n);
            wanted <= all && all - Marked(events, n) <= wanted
  {
    if events != [] {
      WantedOnEdge(live, events[..|events| - 1], n);
      assert events[|events| - 1].edge;
    }
  }

  /** So on edge nodes a batch fits a node exactly if no pod that stops is wanted in the end, and either a pod is wanted
      and the node is active or becomes it, or none is and the node had pods and is terminating. */
  lemma FitsOnEdge(live: R.Live, events: seq<R.PodEvent>, order: seq<string>, n: string)
    requires EdgeOnly(events) && Started(live, events, n) + Marked(events, n) != {}
    ensures var marked, state, wanted := Marked(events, n), StateOf(live, events, n), Lookup(WantAll(live, events), n);
            FitsNode(live, events, order, n) <==>
              if wanted == {}
              then n in live && marked <= Lookup(live, n) + Started(live, events, n) && state == Some(Terminating)
              else wanted !! marked &&
                   (state == Some(Active) || (n !in live && !Late(BookAll(R.Represent(live), events), order, n)))
  {
    WantedOnEdge(live, events, n);
    var all, wanted := Lookup(live, n) + Started(live, events, n), Lookup(WantAll(live, events), n);
    assert wanted !! Marked(events, n) <==> all - Marked(events, n) == wanted;
    assert wanted == {} ==> all <= Marked(events, n);
  }
}
