/** Where passes without further pod events leave a node, in a network with any other nodes. */
module Settling {
  import opened Options
  import opened Participation
  import opened LocalView
  import opened PassTheorems
  import opened Quiescence

  lemma PassAt(w: Network, call: Call, node: string)
    requires IsOrder(call.order, w.info.nodes)
    ensures Of(RunPass(w, call.order, call.ok).info, node) ==
              DrainIf(Hot(w.info, call.order),
                      if node in w.info.nodes then Own(Met(w.info, call.order, node), node in call.ok)
                      else Of(w.info, node))
  {
    OrderIsVisitable(w.info, call.order);
    WalkClosedForm(Pass(w.info, {}, {}), call.order, call.ok, node);
  }

  // ---- Which marks stay ----

  /** A node without creating pods whose marks no pass touches: they cover its pods, and it is not terminating
      (or not a participating node at all). */
  predicate Stuck(l: Local) {
    l.state.None? || (Items(l.terminating) == Items(l.pods) && l.state != Some(Terminating))
  }

  /** The same entries, up to absent and empty lists. */
  predicate Alike(l: Local, l': Local) {
    l.state == l'.state && Items(l.pods) == Items(l'.pods) && Items(l.creating) == Items(l'.creating) &&
    Items(l.terminating) == Items(l'.terminating)
  }

  lemma MarkedPass(w: Network, call: Call, node: string)
    requires IsOrder(call.order, w.info.nodes)
    requires Items(Of(w.info, node).creating) == {} && Items(Of(w.info, node).terminating) != {}
    ensures var l, l' := Of(w.info, node), Of(RunPass(w, call.order, call.ok).info, node);
            && Items(l'.creating) == {}
            && (if Stuck(l) then Alike(l, l') else Items(l'.terminating) == {})
  {
    PassAt(w, call, node);
    assert node in w.info.nodes <==> Of(w.info, node).state.Some?;
    assert Items(Of(w.info, node).pods) + {} == Items(Of(w.info, node).pods);
  }

  lemma {:induction false} NoNewMarks(w: Network, calls: seq<Call>, node: string)
    requires ValidCalls(w, calls) && Lookup(w.info.terminating, node) == {}
    ensures Lookup(RunPasses(w, calls).info.terminating, node) == {}
    decreases calls
  {
    if calls != [] {
      OrderIsVisitable(w.info, calls[0].order);
      Conservation(w, calls[0].order, calls[0].ok, node);
      NoNewMarks(RunPass(w, calls[0].order, calls[0].ok), calls[1..], node);
    }
  }

  lemma {:induction false} StuckForever(w: Network, calls: seq<Call>, node: string)
    requires ValidCalls(w, calls) && Stuck(Of(w.info, node))
    requires Items(Of(w.info, node).creating) == {} && Items(Of(w.info, node).terminating) != {}
    ensures Alike(Of(w.info, node), Of(RunPasses(w, calls).info, node))
    decreases calls
  {
    if calls != [] {
      MarkedPass(w, calls[0], node);
      StuckForever(RunPass(w, calls[0].order, calls[0].ok), calls[1..], node);
    }
  }

  /** The marks of a node without creating pods survive passes, and then all of them for good, if and only if they
      cover its pods and the node is not terminating. */
  lemma MarksRemain(w: Network, calls: seq<Call>, node: string)
    requires ValidCalls(w, calls) && calls != []
    requires Lookup(w.info.creating, node) == {} && Lookup(w.info.terminating, node) != {}
    ensures Lookup(RunPasses(w, calls).info.terminating, node) != {} <==> Stuck(Of(w.info, node))
    ensures Stuck(Of(w.info, node)) ==> Alike(Of(w.info, node), Of(RunPasses(w, calls).info, node))
  {
    LocalLookups(w.info, node);
    LocalLookups(RunPasses(w, calls).info, node);
    if Stuck(Of(w.info, node)) {
      StuckForever(w, calls, node);
    } else {
      var w' := RunPass(w, calls[0].order, calls[0].ok);
      MarkedPass(w, calls[0], node);
      LocalLookups(w'.info, node);
      NoNewMarks(w', calls[1..], node);
    }
  }

  // ---- Where passes with all streams leave a node ----

  ghost predicate Unmixed(s: Info) {
    forall n :: n in s.nodes ==> !Mixed(Of(s, n))
  }

  lemma OwnUnmixes(l: Local, ok: bool)
    ensures !Mixed(Own(l, ok))
  {
  }

  /** After a pass no node has both creating and running pods. */
  lemma UnmixedAfterPass(w: Network, call: Call)
    requires IsOrder(call.order, w.info.nodes)
    ensures Unmixed(RunPass(w, call.order, call.ok).info)
  {
    var w' := RunPass(w, call.order, call.ok);
    forall n | n in w'.info.nodes ensures !Mixed(Of(w'.info, n)) {
      PassAt(w, call, n);
      OwnUnmixes(Met(w.info, call.order, n), n in call.ok);
      assert Of(w'.info, n).state.Some?;
      assert n in w.info.nodes <==> Of(w.info, n).state.Some?;
    }
  }

  lemma UnmixedPass(w: Network, call: Call, node: string)
    requires IsOrder(call.order, w.info.nodes) && Unmixed(w.info)
    ensures Of(RunPass(w, call.order, call.ok).info, node) ==
              if node in w.info.nodes then Own(Of(w.info, node), node in call.ok) else Of(w.info, node)
  {
    PassAt(w, call, node);
    HotIffMixed(w.info, call.order);
    if Late(w.info, call.order, node) {
      LateMeansMixed(w.info, call.order, node);
    }
  }

  /** A node's entries after the first pass and after the second, if its streams are provided. `hot` says whether
      the first pass drains, `late` whether it does so before it visits the node. */
  function AfterOne(l: Local, hot: bool, late: bool): Local {
    DrainIf(hot, Own(DrainIf(late, l), true))
  }

  function AfterTwo(l: Local, hot: bool, late: bool): Local {
    Own(AfterOne(l, hot, late), true)
  }

  lemma StillbornEvents(s: Info, node: string, pod: string)
    requires Of(s, node) == Local(None, None, None, None)
    ensures Of(DeletePod(CreatePod(s, node, pod), node, pod), node)
            == Local(Some(Pending), None, Some({pod}), Some({pod}))
  {
    LocalLookups(s, node);
    assert {} + {pod} == {pod};
  }

  lemma StillbornPass(pod: string, hot: bool, late: bool)
    ensures var l := AfterOne(Local(Some(Pending), None, Some({pod}), Some({pod})), hot, late);
            && Stuck(l) && l.state.Some? && Items(l.creating) == {}
            && Items(l.pods) == Items(l.terminating) == {pod}
  {
  }

  /** Liveness fails: once a pod is created and deleted before the first pass that finds the node's streams, no
      later pass takes the pod or its mark away, whatever the other nodes do. */
  lemma StillbornPodSticks(w: Network, node: string, pod: string, calls: seq<Call>)
    requires Of(w.info, node) == Local(None, None, None, None)
    requires calls != [] && node in calls[0].ok
    requires ValidCalls(w.(info := DeletePod(CreatePod(w.info, node, pod), node, pod)), calls)
    ensures var w' := RunPasses(w.(info := DeletePod(CreatePod(w.info, node, pod), node, pod)), calls);
            && Lookup(w'.info.pods, node) == Lookup(w'.info.terminating, node) == {pod}
            && Lookup(w'.info.creating, node) == {}
            && node in w'.info.nodes && w'.info.nodes[node] != Terminating
  {
    var w1 := w.(info := DeletePod(CreatePod(w.info, node, pod), node, pod));
    var w2, order := RunPass(w1, calls[0].order, calls[0].ok), calls[0].order;
    StillbornEvents(w.info, node, pod);
    assert node in w1.info.nodes <==> Of(w1.info, node).state.Some?;
    PassAt(w1, calls[0], node);
    StillbornPass(pod, Hot(w1.info, order), Late(w1.info, order, node));
    StuckForever(w2, calls[1..], node);
    LocalLookups(RunPasses(w2, calls[1..]).info, node);
  }

  lemma SecondVisitSettles(l: Local, hot: bool, late: bool)
    requires Mixed(l) || late ==> hot
    ensures Own(AfterTwo(l, hot, late), true) == AfterTwo(l, hot, late)
    ensures AfterOne(l, hot, late).state.None? ==> l.state.None? || AfterTwo(l, hot, late) == AfterOne(l, hot, late)
  {
  }

  ghost predicate Provided(calls: seq<Call>, node: string) {
    forall i :: 0 <= i < |calls| ==> node in calls[i].ok
  }

  lemma {:induction false} SettledStays(w: Network, calls: seq<Call>, node: string)
    requires ValidCalls(w, calls) && Unmixed(w.info)
    requires Provided(calls, node)
    requires node in w.info.nodes ==> Own(Of(w.info, node), true) == Of(w.info, node)
    ensures Of(RunPasses(w, calls).info, node) == Of(w.info, node)
    decreases calls
  {
    if calls != [] {
      var w' := RunPass(w, calls[0].order, calls[0].ok);
      UnmixedPass(w, calls[0], node);
      UnmixedAfterPass(w, calls[0]);
      assert node in w'.info.nodes <==> Of(w'.info, node).state.Some?;
      assert node in w.info.nodes <==> Of(w.info, node).state.Some?;
      SettledStays(w', calls[1..], node);
    }
  }

  lemma HotWhen(w: Network, call: Call, node: string)
    requires IsOrder(call.order, w.info.nodes) && node in w.info.nodes
    ensures Mixed(Of(w.info, node)) || Late(w.info, call.order, node) ==> Hot(w.info, call.order)
  {
    HotIffMixed(w.info, call.order);
    if Late(w.info, call.order, node) {
      LateMeansMixed(w.info, call.order, node);
    }
  }

  /** Two passes that find a node's streams settle it, and every further one leaves it as it is. */
  lemma TwoPassesSettle(w: Network, calls: seq<Call>, node: string)
    requires ValidCalls(w, calls) && |calls| >= 2 && Provided(calls, node) && node in w.info.nodes
    ensures var s, order := w.info, calls[0].order;
            Of(RunPasses(w, calls).info, node) == AfterTwo(Of(s, node), Hot(s, order), Late(s, order, node))
  {
    var w1 := RunPass(w, calls[0].order, calls[0].ok);
    var w2 := RunPass(w1, calls[1].order, calls[1].ok);
    PassAt(w, calls[0], node);
    UnmixedAfterPass(w, calls[0]);
    UnmixedPass(w1, calls[1], node);
    UnmixedAfterPass(w1, calls[1]);
    HotWhen(w, calls[0], node);
    SecondVisitSettles(Of(w.info, node), Hot(w.info, calls[0].order), Late(w.info, calls[0].order, node));
    assert calls[1..][1..] == calls[2..] && calls[1..][0] == calls[1];
    assert Of(w1.info, node).state.Some? <==> node in w1.info.nodes;
    SettledStays(w2, calls[2..], node);
  }

  /** The node's creating pods wait for good: it has no running pod, is not pending, and no mixed node is there to
      drain it. */
  predicate WaitsForever(l: Local, hot: bool) {
    Items(l.creating) != {} && Items(l.pods) == {} && l.state != Some(Pending) && !hot
  }

  /** Only a pending node without running pods becomes active, and only if it is visited before any drain. */
  function StateAtRest(l: Local, late: bool): Option<NodeState> {
    if Activates(DrainIf(late, l), true) then Some(Active) else l.state
  }

  predicate ForgottenAtRest(l: Local, hot: bool, late: bool) {
    !WaitsForever(l, hot) && Items(l.terminating) == Live(l) != {} && StateAtRest(l, late) == Some(Terminating)
  }

  lemma OutcomeAt(l: Local, hot: bool, late: bool)
    requires l.state.Some? && (Mixed(l) || late ==> hot)
    ensures var l', all, marks := AfterTwo(l, hot, late), Live(l), Items(l.terminating);
            if WaitsForever(l, hot) then l' == l
            else if ForgottenAtRest(l, hot, late) then l'.state == None && Live(l') == Items(l'.terminating) == {}
            else
              && l'.state == StateAtRest(l, late) && Items(l'.creating) == {}
              && Items(l'.pods) == (if marks == all then all else all - marks)
              && Items(l'.terminating) == (if marks == all then marks else {})
  {
    assert Items(l.pods) + {} == Items(l.pods) && {} + Items(l.creating) == Items(l.creating);
  }

  /** The outcome for a node in closed form: its creating pods join the running ones, and the marked pods go with
      their marks, unless they are all its pods: then the node is forgotten if terminating and stuck otherwise. */
  lemma Outcome(w: Network, calls: seq<Call>, node: string)
    requires ValidCalls(w, calls) && |calls| >= 2 && Provided(calls, node) && node in w.info.nodes
    ensures var s, s', order := w.info, RunPasses(w, calls).info, calls[0].order;
            var l, hot, late := Of(s, node), Hot(s, order), Late(s, order, node);
            var all, marks := Lookup(s.pods, node) + Lookup(s.creating, node), Lookup(s.terminating, node);
            if WaitsForever(l, hot) then Of(s', node) == l
            else if ForgottenAtRest(l, hot, late) then
              && node !in s'.nodes
              && Lookup(s'.pods, node) == Lookup(s'.creating, node) == Lookup(s'.terminating, node) == {}
            else
              && Of(s', node).state == StateAtRest(l, late) && Lookup(s'.creating, node) == {}
              && Lookup(s'.pods, node) == (if marks == all then all else all - marks)
              && Lookup(s'.terminating, node) == (if marks == all then marks else {})
  {
    var s, s', order := w.info, RunPasses(w, calls).info, calls[0].order;
    TwoPassesSettle(w, calls, node);
    LocalLookups(s, node);
    LocalLookups(s', node);
    HotWhen(w, calls[0], node);
    assert Of(s, node).state.Some?;
    OutcomeAt(Of(s, node), Hot(s, order), Late(s, order, node));
    assert Of(s', node).state.None? ==> node !in s'.nodes;
  }

  /** A node that is left with running pods is active if and only if it was, or was pending with creating pods only
      and is visited before any drain. All other nodes with running pods never reach the aggregates. */
  lemma ActiveAtRest(w: Network, calls: seq<Call>, node: string)
    requires ValidCalls(w, calls) && |calls| >= 2 && Provided(calls, node) && node in w.info.nodes
    requires Lookup(RunPasses(w, calls).info.pods, node) != {}
    ensures var s, order := w.info, calls[0].order;
            Of(RunPasses(w, calls).info, node).state == Some(Active) <==>
              s.nodes[node] == Active ||
              (s.nodes[node] == Pending && Lookup(s.pods, node) == {} && Lookup(s.creating, node) != {} &&
               !Late(s, order, node))
  {
    Outcome(w, calls, node);
    LocalLookups(w.info, node);
    LocalLookups(RunPasses(w, calls).info, node);
  }

  function Replace(s: Info, node: string, oldPod: string, newPod: string, deletedFirst: bool): Info {
    if deletedFirst then CreatePod(DeletePod(s, node, oldPod), node, newPod)
    else DeletePod(CreatePod(s, node, newPod), node, oldPod)
  }

  /** For instance the only pod of a node is replaced between two passes: the new pod runs, but the node is no longer
      active. It ends pending if the old pod's deletion comes first, terminating if the new pod's creation does. */
  lemma ReplacedPod(w: Network, node: string, oldPod: string, newPod: string, deletedFirst: bool, calls: seq<Call>)
    requires Of(w.info, node) == Local(Some(Active), Some({oldPod}), None, None) && oldPod != newPod
    requires |calls| >= 2 && Provided(calls, node)
    requires ValidCalls(w.(info := Replace(w.info, node, oldPod, newPod, deletedFirst)), calls)
    ensures var s := RunPasses(w.(info := Replace(w.info, node, oldPod, newPod, deletedFirst)), calls).info;
            && Lookup(s.pods, node) == {newPod} && Lookup(s.creating, node) == Lookup(s.terminating, node) == {}
            && Of(s, node).state == Some(if deletedFirst then Pending else Terminating)
  {
    var w1 := w.(info := Replace(w.info, node, oldPod, newPod, deletedFirst));
    LocalLookups(w.info, node);
    assert {} + {oldPod} == {oldPod} && {} + {newPod} == {newPod};
    var state := if deletedFirst then NodeState.Pending else Terminating;
    assert Of(w1.info, node) == Local(Some(state), Some({oldPod}), Some({newPod}), Some({oldPod}));
    LocalLookups(w1.info, node);
    Outcome(w1, calls, node);
    assert {oldPod} + {newPod} - {oldPod} == {newPod};
  }
}
