/** Runs of pod creations, pod deletions and passes, in any number and any order. */
module Runs {
  import opened Options
  import opened Participation
  import opened LocalView
  import opened PassTheorems

  datatype Step =
    | Create(node: string, edge: bool, pod: string)
    | Delete(node: string, pod: string)
    | Reconcile(order: seq<string>, ok: set<string>)
    | Register

  predicate IsPodEvent(step: Step) {
    step.Create? || step.Delete?
  }

  function Apply(step: Step, w: Network): Network {
    match step
    case Create(node, edge, pod) => w.(info := CreatePod(w.info, KeyOf(node, edge), pod))
    case Delete(node, pod) => w.(info := DeletePod(w.info, node, pod))
    case Reconcile(order, ok) => RunPass(w, order, ok)
    case Register => w.(finalizers := w.finalizers + {NETWORK_FINALIZER})
  }

  ghost predicate Enabled(step: Step, w: Network) {
    step.Reconcile? ==> IsOrder(step.order, w.info.nodes)
  }

  ghost predicate ValidRun(w: Network, run: seq<Step>)
    decreases run
  {
    run == [] || (Enabled(run[0], w) && ValidRun(Apply(run[0], w), run[1..]))
  }

  function After(w: Network, run: seq<Step>): Network
    decreases run
  {
    if run == [] then w else After(Apply(run[0], w), run[1..])
  }

  lemma {:induction false} RunConcat(w: Network, a: seq<Step>, b: seq<Step>)
    ensures After(w, a + b) == After(After(w, a), b)
    ensures ValidRun(w, a + b) <==> ValidRun(w, a) && ValidRun(After(w, a), b)
    decreases a
  {
    if a == [] {
      assert a + b == b;
    } else {
      RunConcat(Apply(a[0], w), a[1..], b);
      assert (a + b)[1..] == a[1..] + b;
    }
  }

  // ---- What the events do to the entries ----

  /** A deletion marks the pod under the plain node name and touches no pod; the node becomes terminating exactly if
      its marks are then its running pods and the pod is not creating. */
  lemma DeleteMarks(w: Network, node: string, pod: string)
    ensures var s, s' := w.info, Apply(Delete(node, pod), w).info;
            var marks := Lookup(s.terminating, node) + {pod};
            && s'.terminating == s.terminating[node := marks] && s'.pods == s.pods && s'.creating == s.creating
            && (if marks == Lookup(s.pods, node) && pod !in Lookup(s.creating, node)
                then s'.nodes == s.nodes[node := Terminating] else s'.nodes == s.nodes)
            && Apply(Delete(node, pod), w).finalizers == w.finalizers
  {
  }

  /** A creation books a pod that does not run yet, under "main" unless the node has the edge role; a node that is not
      active becomes pending. */
  lemma CreateBooks(w: Network, node: string, edge: bool, pod: string)
    ensures var s, s' := w.info, Apply(Create(node, edge, pod), w).info;
            var key := if edge then node else "main";
            && s'.pods == s.pods && s'.terminating == s.terminating
            && (if pod in Lookup(s.pods, key) then s' == s
                else
                  && s'.creating == s.creating[key := Lookup(s.creating, key) + {pod}]
                  && s'.nodes == s.nodes[key := if Of(s, key).state == Some(Active) then Active else Pending])
            && Apply(Create(node, edge, pod), w).finalizers == w.finalizers
  {
  }

  ghost predicate FinalizerIsNoNode(w: Network, run: seq<Step>)
    decreases run
  {
    NETWORK_FINALIZER !in w.info.nodes && (run == [] || FinalizerIsNoNode(Apply(run[0], w), run[1..]))
  }

  lemma {:induction false} FinalizerStays(w: Network, run: seq<Step>)
    requires ValidRun(w, run) && FinalizerIsNoNode(w, run) && NETWORK_FINALIZER in w.finalizers
    ensures NETWORK_FINALIZER in After(w, run).finalizers
    decreases run
  {
    if run != [] {
      if run[0].Reconcile? {
        OrderIsVisitable(w.info, run[0].order);
        WalkClosedForm(Pass(w.info, {}, {}), run[0].order, run[0].ok, NETWORK_FINALIZER);
      }
      FinalizerStays(Apply(run[0], w), run[1..]);
    }
  }

  /** Registering adds the network's own finalizer and nothing else; it is never lost again, as long as no node has
      its name. */
  lemma RegisterStays(w: Network, run: seq<Step>)
    requires ValidRun(Apply(Register, w), run) && FinalizerIsNoNode(Apply(Register, w), run)
    ensures Apply(Register, w).info == w.info
    ensures Apply(Register, w).finalizers == w.finalizers + {"network.edgefarm.io/finalizer"}
    ensures "network.edgefarm.io/finalizer" in After(Apply(Register, w), run).finalizers
  {
    FinalizerStays(Apply(Register, w), run);
  }

  /** Every step is possible in every network: events always, and passes in some order. */
  lemma StepsArePossible(w: Network, step: Step, ok: set<string>) returns (order: seq<string>)
    ensures !step.Reconcile? ==> Enabled(step, w)
    ensures IsOrder(order, w.info.nodes) && Enabled(Reconcile(order, ok), w)
  {
    order := Listing(w.info.nodes.Keys);
  }

  // ---- Bookkeeping ----

  predicate Tidy(l: Local) {
    && Items(l.pods) !! Items(l.creating)
    && (Items(l.pods) + Items(l.creating) != {} ==> l.state.Some?)
    && (l.creating.Some? ==> l.creating.value != {})
    && (l.terminating.Some? ==> l.terminating.value != {})
  }

  ghost predicate Bookkeeping(w: Network) {
    forall n :: Tidy(Of(w.info, n))
  }

  /** Apart from the network's own finalizer, every finalizer is a participating node. */
  ghost predicate FinalizersKnown(w: Network) {
    forall f :: f in w.finalizers && f != NETWORK_FINALIZER ==> f in w.info.nodes
  }

  ghost predicate Inv(w: Network) {
    Bookkeeping(w) && FinalizersKnown(w)
  }

  /** The only ways a node's state may change, by step kind. */
  predicate Edge(step: Step, node: string, from: Option<NodeState>, to: Option<NodeState>) {
    || from == to
    || (step.Create? && node == KeyOf(step.node, step.edge) && from != Some(Active) && to == Some(Pending))
    || (step.Delete? && node == step.node && from.Some? && to == Some(Terminating))
    || (step.Reconcile? && from == Some(Pending) && to == Some(Active) && node in step.ok)
    || (step.Reconcile? && from == Some(Terminating) && to == None)
  }

  lemma OwnTidy(l: Local, ok: bool)
    requires Tidy(l)
    ensures Tidy(Own(l, ok)) && Tidy(Drain(l))
    ensures Own(l, ok).state == l.state
         || (l.state == Some(Pending) && Own(l, ok).state == Some(Active) && ok)
         || (l.state == Some(Terminating) && Own(l, ok).state == None)
  {
  }

  lemma PassStep(w: Network, order: seq<string>, ok: set<string>, node: string)
    requires Tidy(Of(w.info, node)) && IsOrder(order, w.info.nodes)
    ensures Tidy(Of(RunPass(w, order, ok).info, node))
    ensures Edge(Reconcile(order, ok), node, Of(w.info, node).state, Of(RunPass(w, order, ok).info, node).state)
  {
    OrderIsVisitable(w.info, order);
    WalkClosedForm(Pass(w.info, {}, {}), order, ok, node);
    var met := Met(w.info, order, node);
    OwnTidy(Of(w.info, node), node in ok);
    OwnTidy(met, node in ok);
    OwnTidy(Own(met, node in ok), node in ok);
  }

  lemma PassFinalizers(w: Network, order: seq<string>, ok: set<string>)
    requires FinalizersKnown(w) && IsOrder(order, w.info.nodes)
    ensures FinalizersKnown(RunPass(w, order, ok))
    ensures NETWORK_FINALIZER in w.finalizers && NETWORK_FINALIZER !in w.info.nodes ==>
              NETWORK_FINALIZER in RunPass(w, order, ok).finalizers
  {
    var w' := RunPass(w, order, ok);
    OrderIsVisitable(w.info, order);
    forall f ensures f in w'.finalizers && f != NETWORK_FINALIZER ==> f in w'.info.nodes {
      WalkClosedForm(Pass(w.info, {}, {}), order, ok, f);
      assert f in w'.info.nodes <==> Of(w'.info, f).state.Some?;
      assert f in w.info.nodes <==> Of(w.info, f).state.Some?;
    }
    WalkClosedForm(Pass(w.info, {}, {}), order, ok, NETWORK_FINALIZER);
  }

  /** Every step keeps the invariant and moves every node along an allowed edge. */
  lemma StepKeepsInv(step: Step, w: Network)
    requires Inv(w) && Enabled(step, w)
    ensures Inv(Apply(step, w))
    ensures forall n :: Edge(step, n, Of(w.info, n).state, Of(Apply(step, w).info, n).state)
  {
    var w' := Apply(step, w);
    if step.Reconcile? {
      PassFinalizers(w, step.order, step.ok);
    }
    forall n ensures Tidy(Of(w'.info, n)) && Edge(step, n, Of(w.info, n).state, Of(w'.info, n).state) {
      assert Tidy(Of(w.info, n));
      if step.Reconcile? {
        PassStep(w, step.order, step.ok, n);
      } else {
        LocalLookups(w.info, n);
      }
    }
  }

  /** The lifecycle in the negative: what never happens to a node in one step. */
  lemma Lifecycle(step: Step, w: Network, node: string)
    requires Inv(w) && Enabled(step, w)
    ensures var from, to := Of(w.info, node).state, Of(Apply(step, w).info, node).state;
            && (from == Some(Active) ==> to in {Some(Active), Some(Terminating)})
            && (from == Some(Pending) ==> to in {Some(Pending), Some(Active), Some(Terminating)})
            && (from == Some(Terminating) ==> to in {Some(Terminating), Some(Pending), None})
            && (from == None ==> to in {None, Some(Pending)})
  {
    StepKeepsInv(step, w);
    assert Edge(step, node, Of(w.info, node).state, Of(Apply(step, w).info, node).state);
  }

  lemma {:induction false} RunKeepsInv(w: Network, run: seq<Step>)
    requires Inv(w) && ValidRun(w, run)
    ensures Inv(After(w, run))
    decreases run
  {
    if run != [] {
      StepKeepsInv(run[0], w);
      RunKeepsInv(Apply(run[0], w), run[1..]);
    }
  }

  /** From a fresh network, all reachable states satisfy the invariant. */
  lemma Reachable(run: seq<Step>)
    requires ValidRun(FRESH, run)
    ensures Inv(After(FRESH, run))
    ensures var w := After(FRESH, run);
            && (forall n :: Lookup(w.info.pods, n) * Lookup(w.info.creating, n) == {})
            && (forall n :: Lookup(w.info.pods, n) + Lookup(w.info.creating, n) != {} ==> n in w.info.nodes)
            && (forall n :: n in w.info.creating ==> w.info.creating[n] != {})
            && (forall n :: n in w.info.terminating ==> w.info.terminating[n] != {})
            && (forall f :: f in w.finalizers && f != "network.edgefarm.io/finalizer" ==> f in w.info.nodes)
  {
    RunKeepsInv(FRESH, run);
    var w := After(FRESH, run);
    forall n
      ensures Lookup(w.info.pods, n) * Lookup(w.info.creating, n) == {}
      ensures Lookup(w.info.pods, n) + Lookup(w.info.creating, n) != {} ==> n in w.info.nodes
      ensures n in w.info.creating ==> w.info.creating[n] != {}
      ensures n in w.info.terminating ==> w.info.terminating[n] != {}
    {
      assert Tidy(Of(w.info, n));
      LocalLookups(w.info, n);
    }
  }

  /** Bookkeeping implies what order independence needs. */
  lemma BookkeepingHasNoEmptyKeys(w: Network)
    requires Bookkeeping(w)
    ensures NoEmptyKeys(w.info)
  {
    assert forall n :: n in w.info.creating ==> Of(w.info, n).creating == Some(w.info.creating[n]);
    assert forall n :: n in w.info.terminating ==> Of(w.info, n).terminating == Some(w.info.terminating[n]);
  }

  /** In every reachable state the visiting order of the next pass is irrelevant if and only if OrderFree holds. */
  lemma ReachableOrder(run: seq<Step>, ok: set<string>)
    requires ValidRun(FRESH, run)
    ensures SameForAllOrders(After(FRESH, run), ok) <==> OrderFree(After(FRESH, run).info, ok)
  {
    Reachable(run);
    BookkeepingHasNoEmptyKeys(After(FRESH, run));
    OrderIndependence(After(FRESH, run), ok);
  }

  lemma LocalIdempotence(step: Step, w: Network)
    requires !step.Reconcile?
    ensures Apply(step, Apply(step, w)).info == Apply(step, w).info
  {
    var s1, s2 := Apply(step, w).info, Apply(step, Apply(step, w)).info;
    forall n ensures Of(s2, n) == Of(s1, n) {
      LocalLookups(w.info, n);
      LocalLookups(s1, n);
    }
    SameEverywhere(s2, s1);
  }

  /** An event that arrives twice is the same as once. */
  lemma EventsAreIdempotent(step: Step, w: Network)
    requires !step.Reconcile?
    ensures Apply(step, Apply(step, w)) == Apply(step, w)
  {
    LocalIdempotence(step, w);
  }

  // ---- Conservation over runs ----

  /** The pods booked under a key, running or creating. */
  function PodsAt(w: Network, key: string): set<string> {
    Lookup(w.info.pods, key) + Lookup(w.info.creating, key)
  }

  /** The pods that start under a key, and those deleted under it. */
  function Created(step: Step, key: string): set<string> {
    if step.Create? && KeyOf(step.node, step.edge) == key then {step.pod} else {}
  }

  function DeletedBy(step: Step, key: string): set<string> {
    if step.Delete? && step.node == key then {step.pod} else {}
  }

  function CreatedAt(run: seq<Step>, key: string): set<string> {
    if run == [] then {} else Created(run[0], key) + CreatedAt(run[1..], key)
  }

  function DeletedAt(run: seq<Step>, key: string): set<string> {
    if run == [] then {} else DeletedBy(run[0], key) + DeletedAt(run[1..], key)
  }

  lemma StepConserves(w: Network, step: Step, key: string)
    requires Enabled(step, w)
    ensures var w' := Apply(step, w);
            var marked, marked' := Lookup(w.info.terminating, key), Lookup(w'.info.terminating, key);
            && PodsAt(w, key) + Created(step, key) - marked - DeletedBy(step, key) <= PodsAt(w', key) - marked'
            && PodsAt(w', key) <= PodsAt(w, key) + Created(step, key)
            && marked' <= marked + DeletedBy(step, key)
  {
    if step.Reconcile? {
      OrderIsVisitable(w.info, step.order);
      Conservation(w, step.order, step.ok, key);
    }
  }

  lemma ConservedInTurn<T>(pods: set<T>, marks: set<T>, created: set<T>, deleted: set<T>,
                           pods': set<T>, marks': set<T>, created': set<T>, deleted': set<T>, end: set<T>)
    requires pods + created - marks - deleted <= pods' - marks' && marks' <= marks + deleted
    requires pods' <= pods + created
    requires pods' + created' - marks' - deleted' <= end <= pods' + created'
    ensures pods + (created + created') - marks - (deleted + deleted') <= end <= pods + (created + created')
  {
    forall p | p in pods + (created + created') - marks - (deleted + deleted') ensures p in end {
      assert p in pods + created ==> p in pods + created - marks - deleted;
      assert p in pods' + created' - marks' - deleted';
    }
  }

  /** Conservation over runs of any length: a pod leaves a key only after a deletion under that very key (or a mark
      that was there at the start), and none is there that was not created under it. */
  lemma {:induction false} RunConserves(w: Network, run: seq<Step>, key: string)
    requires ValidRun(w, run)
    ensures PodsAt(w, key) + CreatedAt(run, key) - Lookup(w.info.terminating, key) - DeletedAt(run, key)
            <= PodsAt(After(w, run), key)
    ensures PodsAt(After(w, run), key) <= PodsAt(w, key) + CreatedAt(run, key)
    decreases run
  {
    if run != [] {
      var w', rest := Apply(run[0], w), run[1..];
      StepConserves(w, run[0], key);
      RunConserves(w', rest, key);
      ConservedInTurn(PodsAt(w, key), Lookup(w.info.terminating, key), Created(run[0], key), DeletedBy(run[0], key),
                      PodsAt(w', key), Lookup(w'.info.terminating, key), CreatedAt(rest, key), DeletedAt(rest, key),
                      PodsAt(After(w, run), key));
    }
  }

  lemma {:induction false} NothingDeleted(run: seq<Step>, key: string)
    requires forall i :: 0 <= i < |run| && run[i].Delete? ==> run[i].node != key
    ensures DeletedAt(run, key) == {}
  {
    if run != [] {
      NothingDeleted(run[1..], key);
    }
  }

  lemma {:induction false} CreatedIn(run: seq<Step>, i: nat)
    requires i < |run| && run[i].Create?
    ensures run[i].pod in CreatedAt(run, KeyOf(run[i].node, run[i].edge))
  {
    if i > 0 {
      CreatedIn(run[1..], i - 1);
    }
  }

  /** Pods of nodes without the edge role are created under "main" and deleted under their node's name: as long as
      no node is called "main", none of them ever stops for the maps, whatever is deleted. */
  lemma CloudPodNeverStops(run: seq<Step>)
    requires ValidRun(FRESH, run)
    requires forall i :: 0 <= i < |run| && run[i].Delete? ==> run[i].node != KeyOf(run[i].node, false)
    ensures forall i :: 0 <= i < |run| && run[i].Create? && !run[i].edge ==>
              run[i].pod in PodsAt(After(FRESH, run), KeyOf(run[i].node, false))
  {
    forall i | 0 <= i < |run| && run[i].Create? && !run[i].edge
      ensures run[i].pod in PodsAt(After(FRESH, run), KeyOf(run[i].node, false))
    {
      var key := KeyOf(run[i].node, false);
      NothingDeleted(run, key);
      CreatedIn(run, i);
      RunConserves(FRESH, run, key);
    }
  }

  // ---- The finalizer of an active node ----

  /** A pass drops some of the node's pods but keeps the node. */
  predicate DropsAt(step: Step, w: Network, node: string) {
    step.Reconcile? && node in step.order && Drops(Met(w.info, step.order, node))
  }

  /** The code removes the finalizer also when it drops some of a node's pods. So in one step an active node that
      stays active keeps its finalizer unless that happens, and never gets it back. (A node name has no slash.) */
  lemma ActiveFinalizer(step: Step, w: Network, node: string)
    requires Enabled(step, w) && Of(w.info, node).state == Some(Active) && node != NETWORK_FINALIZER
    ensures node in Apply(step, w).finalizers <==> node in w.finalizers && !DropsAt(step, w, node)
  {
    if step.Reconcile? {
      OrderIsVisitable(w.info, step.order);
      WalkClosedForm(Pass(w.info, {}, {}), step.order, step.ok, node);
    }
  }

  ghost predicate StaysActive(w: Network, run: seq<Step>, node: string)
    decreases run
  {
    Of(w.info, node).state == Some(Active) && (run == [] || StaysActive(Apply(run[0], w), run[1..], node))
  }

  ghost predicate DropsDuring(w: Network, run: seq<Step>, node: string)
    decreases run
  {
    run != [] && (DropsAt(run[0], w, node) || DropsDuring(Apply(run[0], w), run[1..], node))
  }

  /** A participating active node keeps its finalizer over a run if and only if no pass drops a pod of it. */
  lemma {:induction false} ActiveKeepsFinalizer(w: Network, run: seq<Step>, node: string)
    requires ValidRun(w, run) && StaysActive(w, run, node) && node != NETWORK_FINALIZER
    ensures node in After(w, run).finalizers <==> node in w.finalizers && !DropsDuring(w, run, node)
    decreases run
  {
    if run != [] {
      ActiveFinalizer(run[0], w, node);
      ActiveKeepsFinalizer(Apply(run[0], w), run[1..], node);
    }
  }
}
