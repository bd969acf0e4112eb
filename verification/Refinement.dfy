/** When every pod event is followed by a pass, the four maps implement one simple map: node -> live pods. */
module Refinement {
  import opened Options
  import opened Participation
  import opened LocalView
  import opened PassTheorems
  import Runs

  type Live = live: PodMap | forall n :: n in live ==> live[n] != {}

  datatype Event = Start(node: string, pod: string) | Stop(node: string, pod: string)

  /** The simple model. */
  function Abstract(live: Live, e: Event): Live {
    match e
    case Start(n, p) => live[n := Lookup(live, n) + {p}]
    case Stop(n, p) => if Lookup(live, n) - {p} == {} then live - {n} else live[n := Lookup(live, n) - {p}]
  }

  /** The maps that represent it: every node with live pods is active, nothing is pending. */
  function Represent(live: Live): Info {
    Info(map n | n in live :: Active, live, map[], map[])
  }

  /** The event on an edge node. */
  function Concrete(s: Info, e: Event): Info {
    match e
    case Start(n, p) => CreatePod(s, n, p)
    case Stop(n, p) => DeletePod(s, n, p)
  }

  /** An event and the pass that follows it. */
  datatype Round = Round(event: Event, order: seq<string>, ok: set<string>)

  function Settle(w: Network, r: Round): Network {
    RunPass(w.(info := Concrete(w.info, r.event)), r.order, r.ok)
  }

  ghost predicate Passable(w: Network, r: Round) {
    IsOrder(r.order, Concrete(w.info, r.event).nodes)
  }

  /** A pod starts on a node that participates already or gets its streams; a pod stops on a
      participating node. */
  predicate Accepted(live: Live, r: Round) {
    r.event.node in live || (r.event.Start? && r.event.node in r.ok)
  }

  lemma RepresentAt(live: Live, n: string)
    ensures Of(Represent(live), n) == if n in live then Local(Some(Active), Some(live[n]), None, None)
                                                   else Local(None, None, None, None)
  {
  }

  /** Before the pass only the event's node can be mixed. */
  lemma OnlyEventNodeMixed(live: Live, e: Event, n: string)
    requires n != e.node || e.Stop?
    ensures !Mixed(Of(Concrete(Represent(live), e), n))
    ensures n != e.node ==> Of(Concrete(Represent(live), e), n) == Of(Represent(live), n)
  {
  }

  lemma SettleAt(live: Live, w: Network, r: Round, n: string)
    requires w.info == Represent(live) && Passable(w, r)
    ensures var s := Concrete(w.info, r.event);
            Of(Settle(w, r).info, n) == if n == r.event.node && n in s.nodes then Own(Of(s, n), n in r.ok) else Of(s, n)
  {
    var s := Concrete(w.info, r.event);
    OrderIsVisitable(s, r.order);
    WalkClosedForm(Pass(s, {}, {}), r.order, r.ok, n);
    forall k | k != r.event.node ensures !Mixed(Of(s, k)) && Of(s, k) == Of(w.info, k) {
      OnlyEventNodeMixed(live, r.event, k);
    }
    RepresentAt(live, n);
    assert n in r.order <==> Of(s, n).state.Some?;
    if n == r.event.node {
      if Late(s, r.order, n) {
        LateMeansMixed(s, r.order, n);
      }
      HotIffMixed(s, r.order);
    }
  }

  lemma RoundElsewhere(live: Live, w: Network, r: Round, n: string)
    requires w.info == Represent(live) && Passable(w, r) && n != r.event.node
    ensures Of(Settle(w, r).info, n) == Of(Represent(Abstract(live, r.event)), n)
  {
    SettleAt(live, w, r, n);
    RepresentAt(live, n);
    RepresentAt(Abstract(live, r.event), n);
    assert Of(Concrete(w.info, r.event), n) == Of(w.info, n);
  }

  /** The entries of the event's node before the pass. */
  lemma EventAt(live: Live, e: Event)
    ensures var l, pods := Of(Concrete(Represent(live), e), e.node), Lookup(live, e.node);
            match e
            case Start(n, p) =>
              if p in pods then l == Of(Represent(live), n)
              else if n in live then l == Local(Some(Active), Some(pods), Some({p}), None)
              else l == Local(Some(Pending), None, Some({p}), None)
            case Stop(n, p) =>
              if n !in live then l == Local(None, None, None, Some({p}))
              else if pods == {p} then l == Local(Some(Terminating), Some(pods), None, Some({p}))
              else l == Local(Some(Active), Some(pods), None, Some({p}))
  {
    assert {} + {e.pod} == {e.pod};
  }

  lemma StartAtNode(live: Live, w: Network, r: Round)
    requires w.info == Represent(live) && Passable(w, r) && r.event.Start?
    ensures var n := r.event.node;
            Of(Settle(w, r).info, n) == Of(Represent(Abstract(live, r.event)), n) <==> Accepted(live, r)
  {
    var e := r.event;
    EventAt(live, e);
    SettleAt(live, w, r, e.node);
    RepresentAt(live, e.node);
    RepresentAt(Abstract(live, e), e.node);
    assert {} + {e.pod} == {e.pod};
    assert e.pod in Lookup(live, e.node) ==> Lookup(live, e.node) + {e.pod} == Lookup(live, e.node);
  }

  /** Visiting a node with running pods of which one is marked. */
  lemma MarkedVisit(pods: set<string>, pod: string, ok: bool)
    requires pods != {}
    ensures pods == {pod} ==>
              Own(Local(Some(Terminating), Some(pods), None, Some({pod})), ok) == Local(None, None, None, None)
    ensures pods != {pod} ==>
              Own(Local(Some(Active), Some(pods), None, Some({pod})), ok)
              == Local(Some(Active), Some(pods - {pod}), None, None)
  {
  }

  lemma StopAtNode(live: Live, w: Network, r: Round)
    requires w.info == Represent(live) && Passable(w, r) && r.event.Stop?
    ensures var n := r.event.node;
            Of(Settle(w, r).info, n) == Of(Represent(Abstract(live, r.event)), n) <==> Accepted(live, r)
  {
    var e := r.event;
    var s := Concrete(w.info, e);
    EventAt(live, e);
    SettleAt(live, w, r, e.node);
    RepresentAt(Abstract(live, e), e.node);
    assert e.node in s.nodes <==> Of(s, e.node).state.Some?;
    if e.node in live {
      var pods := live[e.node];
      MarkedVisit(pods, e.pod, e.node in r.ok);
      assert pods - {e.pod} == {} <==> pods == {e.pod};
    }
  }

  /** One round agrees with the simple model exactly when it is accepted. */
  lemma RoundRefines(live: Live, w: Network, r: Round)
    requires w.info == Represent(live) && Passable(w, r)
    ensures Settle(w, r).info == Represent(Abstract(live, r.event)) <==> Accepted(live, r)
  {
    var s', t' := Settle(w, r).info, Represent(Abstract(live, r.event));
    if r.event.Start? {
      StartAtNode(live, w, r);
    } else {
      StopAtNode(live, w, r);
    }
    if Accepted(live, r) {
      forall n ensures Of(s', n) == Of(t', n) {
        if n != r.event.node {
          RoundElsewhere(live, w, r, n);
        }
      }
      SameEverywhere(s', t');
    }
  }

  // ---- Nodes with and without the edge role ----

  /** The events as they arrive: a pod is booked under the key of its node when it starts, and marked under the
      node's own name when it stops. */
  datatype PodEvent = Started(node: string, edge: bool, pod: string) | Stopped(node: string, edge: bool, pod: string)

  /** What should happen in the simple model, where a pod stops under the key it started under. */
  function Wanted(e: PodEvent): Event {
    var key := KeyOf(e.node, e.edge);
    if e.Started? then Start(key, e.pod) else Stop(key, e.pod)
  }

  /** What happens. */
  function Booked(e: PodEvent): Event {
    if e.Started? then Start(KeyOf(e.node, e.edge), e.pod) else Stop(e.node, e.pod)
  }

  /** A start needs a participating key or its streams; a stop needs a participating node, and if the node's pods
      are booked under another key, the pod must be live under neither of the two. */
  predicate Honoured(live: Live, e: PodEvent, ok: set<string>) {
    var key := KeyOf(e.node, e.edge);
    if e.Started? then key in live || key in ok
    else e.node in live && (key == e.node || (e.pod !in live[e.node] && e.pod !in Lookup(live, key)))
  }

  lemma RepresentInjective(a: Live, b: Live)
    ensures Represent(a) == Represent(b) <==> a == b
  {
    assert Represent(a).pods == a && Represent(b).pods == b;
  }

  lemma NothingStops(live: Live, node: string, pod: string)
    requires pod !in Lookup(live, node)
    ensures Abstract(live, Stop(node, pod)) == live
  {
    assert Lookup(live, node) - {pod} == Lookup(live, node);
  }

  /** Stopping a pod under two different keys is the same only if it lives under neither. */
  lemma StopUnderTwoKeys(live: Live, node: string, key: string, pod: string)
    requires node != key
    ensures Abstract(live, Stop(node, pod)) == Abstract(live, Stop(key, pod)) <==>
              pod !in Lookup(live, node) && pod !in Lookup(live, key)
  {
    var a, b := Abstract(live, Stop(node, pod)), Abstract(live, Stop(key, pod));
    assert Lookup(a, node) == Lookup(live, node) - {pod} && Lookup(b, node) == Lookup(live, node);
    assert Lookup(a, key) == Lookup(live, key) && Lookup(b, key) == Lookup(live, key) - {pod};
    if pod !in Lookup(live, node) && pod !in Lookup(live, key) {
      NothingStops(live, node, pod);
      NothingStops(live, key, pod);
    }
  }

  lemma MarkStays(live: Live, w: Network, r: Round)
    requires w.info == Represent(live) && Passable(w, r) && r.event.Stop? && r.event.node !in live
    ensures Settle(w, r).info.terminating != map[]
  {
    SettleAt(live, w, r, r.event.node);
    EventAt(live, r.event);
  }

  /** A pod event and the pass after it do what is wanted exactly when the event is honoured. */
  lemma EventRefines(live: Live, w: Network, e: PodEvent, order: seq<string>, ok: set<string>)
    requires w.info == Represent(live) && Passable(w, Round(Booked(e), order, ok))
    ensures Settle(w, Round(Booked(e), order, ok)).info == Represent(Abstract(live, Wanted(e))) <==>
              Honoured(live, e, ok)
  {
    var r := Round(Booked(e), order, ok);
    var key := KeyOf(e.node, e.edge);
    RoundRefines(live, w, r);
    if Wanted(e) != Booked(e) {
      if e.node in live {
        RepresentInjective(Abstract(live, Booked(e)), Abstract(live, Wanted(e)));
        StopUnderTwoKeys(live, e.node, key, e.pod);
      } else {
        MarkStays(live, w, r);
      }
    }
  }

  /** So the stop of a live pod is honoured exactly on edge nodes, and on a node that is called "main". */
  lemma StopIsHonoured(live: Live, w: Network, node: string, edge: bool, pod: string, order: seq<string>,
                       ok: set<string>)
    requires w.info == Represent(live) && pod in Lookup(live, KeyOf(node, edge))
    requires IsOrder(order, DeletePod(w.info, node, pod).nodes)
    ensures var after := Settle(w, Round(Stop(node, pod), order, ok));
            after.info == Represent(Abstract(live, Stop(KeyOf(node, edge), pod))) <==> edge || node == "main"
  {
    EventRefines(live, w, Stopped(node, edge, pod), order, ok);
  }

  // ---- Runs ----

  /** A pod event and the pass that follows it. */
  datatype Turn = Turn(event: PodEvent, order: seq<string>, ok: set<string>)

  /** The steps of the protocol that the controllers take. */
  function StepOf(e: PodEvent): Runs.Step {
    if e.Started? then Runs.Create(e.node, e.edge, e.pod) else Runs.Delete(e.node, e.pod)
  }

  function StepsOf(turns: seq<Turn>): seq<Runs.Step> {
    if turns == [] then []
    else [StepOf(turns[0].event), Runs.Reconcile(turns[0].order, turns[0].ok)] + StepsOf(turns[1..])
  }

  function TakeTurn(w: Network, t: Turn): Network {
    Settle(w, Round(Booked(t.event), t.order, t.ok))
  }

  /** The step of a pod event is the event as it is booked. */
  lemma StepIsBooked(w: Network, e: PodEvent)
    ensures Runs.Apply(StepOf(e), w) == w.(info := Concrete(w.info, Booked(e)))
  {
  }

  lemma TurnIsSteps(w: Network, turns: seq<Turn>)
    requires turns != [] && Runs.ValidRun(w, StepsOf(turns))
    ensures Runs.After(w, StepsOf(turns)) == Runs.After(TakeTurn(w, turns[0]), StepsOf(turns[1..]))
    ensures Runs.ValidRun(TakeTurn(w, turns[0]), StepsOf(turns[1..]))
    ensures Passable(w, Round(Booked(turns[0].event), turns[0].order, turns[0].ok))
  {
    var steps := StepsOf(turns);
    StepIsBooked(w, turns[0].event);
    assert steps[1..][1..] == StepsOf(turns[1..]) && steps[1..][0] == steps[1];
  }

  function Ideal(live: Live, turns: seq<Turn>): Live
    decreases turns
  {
    if turns == [] then live else Ideal(Abstract(live, Wanted(turns[0].event)), turns[1..])
  }

  predicate AllHonoured(live: Live, turns: seq<Turn>)
    decreases turns
  {
    turns == [] || (Honoured(live, turns[0].event, turns[0].ok) &&
                    AllHonoured(Abstract(live, Wanted(turns[0].event)), turns[1..]))
  }

  /** The four maps represent the simple map after the first `i` turns. */
  predicate AgreesAfter(live: Live, w: Network, turns: seq<Turn>, i: nat)
    requires i <= |turns|
  {
    Runs.After(w, StepsOf(turns[..i])).info == Represent(Ideal(live, turns[..i]))
  }

  predicate AgreesThroughout(live: Live, w: Network, turns: seq<Turn>) {
    forall i :: 0 <= i <= |turns| ==> AgreesAfter(live, w, turns, i)
  }

  lemma {:induction false} PrefixSteps(w: Network, turns: seq<Turn>, i: nat)
    requires Runs.ValidRun(w, StepsOf(turns)) && i <= |turns|
    ensures Runs.ValidRun(w, StepsOf(turns[..i]))
    decreases turns
  {
    if i > 0 {
      var w' := TakeTurn(w, turns[0]);
      TurnIsSteps(w, turns);
      PrefixSteps(w', turns[1..], i - 1);
      assert turns[..i][1..] == turns[1..][..i - 1] && turns[..i][0] == turns[0];
      var steps := StepsOf(turns[..i]);
      StepIsBooked(w, turns[0].event);
      assert steps[1..][1..] == StepsOf(turns[1..][..i - 1]) && steps[1..][0] == steps[1];
      assert Runs.ValidRun(Runs.Apply(steps[0], w), steps[1..]);
    }
  }

  lemma AgreesShift(live: Live, w: Network, turns: seq<Turn>, i: nat)
    requires Runs.ValidRun(w, StepsOf(turns)) && i < |turns|
    ensures AgreesAfter(live, w, turns, i + 1) ==
              AgreesAfter(Abstract(live, Wanted(turns[0].event)), TakeTurn(w, turns[0]), turns[1..], i)
  {
    assert turns[..i + 1][1..] == turns[1..][..i] && turns[..i + 1][0] == turns[0];
    PrefixSteps(w, turns, i + 1);
    TurnIsSteps(w, turns[..i + 1]);
  }

  lemma AgreesAtStart(live: Live, w: Network, turns: seq<Turn>)
    ensures AgreesAfter(live, w, turns, 0) == (w.info == Represent(live))
  {
    assert turns[..0] == [];
  }

  lemma AgreesStep(live: Live, w: Network, turns: seq<Turn>)
    requires turns != [] && w.info == Represent(live) && Runs.ValidRun(w, StepsOf(turns))
    ensures AgreesThroughout(live, w, turns) <==>
              AgreesThroughout(Abstract(live, Wanted(turns[0].event)), TakeTurn(w, turns[0]), turns[1..])
  {
    var live', w', rest := Abstract(live, Wanted(turns[0].event)), TakeTurn(w, turns[0]), turns[1..];
    AgreesAtStart(live, w, turns);
    forall i | 0 <= i < |turns| ensures AgreesAfter(live, w, turns, i + 1) == AgreesAfter(live', w', rest, i) {
      AgreesShift(live, w, turns, i);
    }
    if AgreesThroughout(live', w', rest) {
      forall i | 0 <= i <= |turns| ensures AgreesAfter(live, w, turns, i) {
        assert i > 0 ==> AgreesAfter(live', w', rest, i - 1);
        assert i > 0 ==> AgreesAfter(live, w, turns, i - 1 + 1);
      }
    }
  }

  /** Refinement over runs of any length: the maps represent the simple map after every event and pass if and only if
      every event is honoured. */
  lemma {:induction false} RunRefines(live: Live, w: Network, turns: seq<Turn>)
    requires w.info == Represent(live) && Runs.ValidRun(w, StepsOf(turns))
    ensures AgreesThroughout(live, w, turns) <==> AllHonoured(live, turns)
    decreases turns
  {
    AgreesAtStart(live, w, turns);
    if turns != [] {
      AgreesStep(live, w, turns);
      TurnIsSteps(w, turns);
      AgreesAtStart(Abstract(live, Wanted(turns[0].event)), TakeTurn(w, turns[0]), turns[1..]);
      EventRefines(live, w, turns[0].event, turns[0].order, turns[0].ok);
      if Honoured(live, turns[0].event, turns[0].ok) {
        RunRefines(Abstract(live, Wanted(turns[0].event)), TakeTurn(w, turns[0]), turns[1..]);
      }
    }
  }
}
