/** What a whole pass of reconcileJetstreams guarantees, whatever the visiting order and whatever
    stream creations fail. */
module PassTheorems {
  import opened Options
  import opened Participation
  import opened LocalView

  function Live(l: Local): set<string> {
    Items(l.pods) + Items(l.creating)
  }

  lemma DrainConserves(l: Local)
    ensures Live(Drain(l)) == Live(l) && Items(Drain(l).creating) == {} && Drain(l).terminating == l.terminating
  {
  }

  lemma OwnConserves(l: Local, ok: bool)
    ensures Live(Own(l, ok)) == if Forgets(l) || Drops(l) then Live(l) - Items(l.terminating) else Live(l)
    ensures Items(Own(l, ok).creating) in {{}, Items(l.creating)}
    ensures Items(Own(l, ok).terminating) in {{}, Items(l.terminating)}
  {
  }

  lemma LocalLookups(s: Info, node: string)
    ensures Lookup(s.pods, node) == Items(Of(s, node).pods)
    ensures Lookup(s.creating, node) == Items(Of(s, node).creating)
    ensures Lookup(s.terminating, node) == Items(Of(s, node).terminating)
  {
  }

  /** Conservation, exactly: a node keeps all its pods, or loses precisely those marked terminating. */
  lemma Conservation(w: Network, order: seq<string>, ok: set<string>, node: string)
    requires Visitable(w.info, order)
    ensures var s, s' := w.info, RunPass(w, order, ok).info;
            var l := Met(s, order, node);
            var before := Lookup(s.pods, node) + Lookup(s.creating, node);
            var after := Lookup(s'.pods, node) + Lookup(s'.creating, node);
            && after == (if node in order && (Forgets(l) || Drops(l))
                         then before - Lookup(s.terminating, node) else before)
            && Lookup(s'.creating, node) <= Lookup(s.creating, node)
            && Lookup(s'.terminating, node) in {{}, Lookup(s.terminating, node)}
  {
    var s, s' := w.info, RunPass(w, order, ok).info;
    LocalLookups(s, node);
    LocalLookups(s', node);
    WalkClosedForm(Pass(s, {}, {}), order, ok, node);
    var l, met := Of(s, node), Met(s, order, node);
    DrainConserves(l);
    DrainConserves(Own(met, node in ok));
    OwnConserves(met, node in ok);
  }

  lemma OrderIsVisitable(s: Info, order: seq<string>)
    requires IsOrder(order, s.nodes)
    ensures Visitable(s, order)
  {
  }

  /** Safe forgetting, with the exact condition: a node leaves Nodes iff it was terminating, all its pods
      (the creating ones too) were marked, and no creating pod was left when the pass came to it. */
  lemma SafeForgetting(w: Network, order: seq<string>, ok: set<string>, node: string)
    requires IsOrder(order, w.info.nodes) && node in w.info.nodes
    ensures var s := w.info;
            node !in RunPass(w, order, ok).info.nodes <==>
              && s.nodes[node] == Terminating
              && Lookup(s.terminating, node) == Lookup(s.pods, node) + Lookup(s.creating, node) != {}
              && (Lookup(s.creating, node) == {} || Late(s, order, node))
  {
    OrderIsVisitable(w.info, order);
    LocalLookups(w.info, node);
    WalkClosedForm(Pass(w.info, {}, {}), order, ok, node);
    assert node in RunPass(w, order, ok).info.nodes <==> Of(RunPass(w, order, ok).info, node).state.Some?;
    assert Items(Of(w.info, node).pods) + {} == Items(Of(w.info, node).pods);
  }

  // ---- Order independence ----

  /** No creating or terminating key without a pod behind it; part of the bookkeeping invariant. */
  ghost predicate NoEmptyKeys(s: Info) {
    && (forall n :: n in s.creating ==> s.creating[n] != {})
    && (forall n :: n in s.terminating ==> s.terminating[n] != {})
  }

  /** Draining this node's creating pods leaves its next visit nothing to do. */
  predicate Steady(l: Local) {
    || Items(l.terminating) == {}
    || (Items(l.terminating) == Items(l.pods) + Items(l.creating) && l.state != Some(Terminating))
  }

  /** A node with creating pods may share a pass with another, mixed node only if it does not matter
      whether the drain comes before or after its own visit. */
  ghost predicate OrderFree(s: Info, ok: set<string>) {
    forall m, k ::
      m in s.nodes && k in s.nodes && k != m && Items(Of(s, m).creating) != {} && Mixed(Of(s, k)) ==>
        Steady(Of(s, m)) && !Activates(Of(s, m), m in ok)
  }

  ghost predicate SameForAllOrders(w: Network, ok: set<string>) {
    forall o1, o2 :: IsOrder(o1, w.info.nodes) && IsOrder(o2, w.info.nodes) ==>
      RunPass(w, o1, ok) == RunPass(w, o2, ok)
  }

  lemma DrainCommutes(l: Local, ok: bool)
    requires l.creating.Some? ==> l.creating.value != {} && Steady(l) && !Activates(l, ok)
    ensures Drain(Own(l, ok)) == Drain(Own(Drain(l), ok))
    ensures Forgets(l) || Drops(l) <==> Forgets(Drain(l)) || Drops(Drain(l))
    ensures Activates(l, ok) == Activates(Drain(l), ok)
  {
  }

  lemma SameHeat(s: Info, o1: seq<string>, o2: seq<string>)
    requires IsOrder(o1, s.nodes) && IsOrder(o2, s.nodes)
    ensures Hot(s, o1) == Hot(s, o2)
  {
    HotIffMixed(s, o1);
    HotIffMixed(s, o2);
  }

  /** Where OrderFree holds, it makes no difference for a node whether it is drained before its visit or after. */
  lemma LateOrNot(s: Info, ok: set<string>, order: seq<string>, n: string)
    requires NoEmptyKeys(s) && OrderFree(s, ok) && IsOrder(order, s.nodes) && n in s.nodes
    requires Late(s, order, n)
    ensures var l := Of(s, n);
            && Hot(s, order) && Drain(Own(l, n in ok)) == Drain(Own(Drain(l), n in ok))
            && (Forgets(l) || Drops(l) <==> Forgets(Drain(l)) || Drops(Drain(l)))
            && Activates(l, n in ok) == Activates(Drain(l), n in ok)
  {
    LateMeansMixed(s, order, n);
    HotIffMixed(s, order);
    DrainCommutes(Of(s, n), n in ok);
  }

  lemma OrderFreeAgreesAt(s: Info, ok: set<string>, o1: seq<string>, o2: seq<string>, n: string)
    requires NoEmptyKeys(s) && OrderFree(s, ok) && IsOrder(o1, s.nodes) && IsOrder(o2, s.nodes)
    ensures var w1, w2 := Walk(Pass(s, {}, {}), o1, ok), Walk(Pass(s, {}, {}), o2, ok);
            && Of(w1.info, n) == Of(w2.info, n)
            && (n in w1.removed <==> n in w2.removed) && (n in w1.added <==> n in w2.added)
  {
    OrderIsVisitable(s, o1);
    OrderIsVisitable(s, o2);
    WalkClosedForm(Pass(s, {}, {}), o1, ok, n);
    WalkClosedForm(Pass(s, {}, {}), o2, ok, n);
    SameHeat(s, o1, o2);
    if n in s.nodes {
      if Late(s, o1, n) {
        LateOrNot(s, ok, o1, n);
      }
      if Late(s, o2, n) {
        LateOrNot(s, ok, o2, n);
      }
    }
  }

  lemma OrderFreeAgrees(w: Network, ok: set<string>, o1: seq<string>, o2: seq<string>)
    requires NoEmptyKeys(w.info) && OrderFree(w.info, ok)
    requires IsOrder(o1, w.info.nodes) && IsOrder(o2, w.info.nodes)
    ensures RunPass(w, o1, ok) == RunPass(w, o2, ok)
  {
    var w1, w2 := Walk(Pass(w.info, {}, {}), o1, ok), Walk(Pass(w.info, {}, {}), o2, ok);
    forall n ensures Of(w1.info, n) == Of(w2.info, n) && (n in w1.removed <==> n in w2.removed)
                     && (n in w1.added <==> n in w2.added)
    {
      OrderFreeAgreesAt(w.info, ok, o1, o2, n);
    }
    SameEverywhere(w1.info, w2.info);
    assert w1.removed == w2.removed && w1.added == w2.added;
  }

  ghost function Listing(s: set<string>): (r: seq<string>)
    ensures forall n :: n in r <==> n in s
    ensures forall i, j :: 0 <= i < j < |r| ==> r[i] != r[j]
  {
    if s == {} then [] else var n :| n in s; [n] + Listing(s - {n})
  }

  lemma DrainDiffers(l: Local, ok: bool)
    requires Items(l.creating) != {} && !(Steady(l) && !Activates(l, ok))
    requires l.terminating.Some? ==> l.terminating.value != {}
    ensures Drain(Own(l, ok)) != Drain(Own(Drain(l), ok))
  {
  }

  /** The order that visits `a` first, then `b`, then the other nodes. */
  ghost function FirstTwo(a: string, b: string, nodes: map<string, NodeState>): seq<string> {
    [a, b] + Listing(nodes.Keys - {a, b})
  }

  lemma FirstTwoDistinct(a: string, b: string, nodes: map<string, NodeState>)
    requires a != b
    ensures var o := FirstTwo(a, b, nodes); forall i, j :: 0 <= i < j < |o| ==> o[i] != o[j]
  {
    var rest := Listing(nodes.Keys - {a, b});
    var o := FirstTwo(a, b, nodes);
    forall i, j | 0 <= i < j < |o| ensures o[i] != o[j] {
      if 2 <= j {
        assert o[j] == rest[j - 2] && rest[j - 2] in rest;
        if 2 <= i {
          assert o[i] == rest[i - 2];
        }
      }
    }
  }

  lemma FirstTwoMembers(a: string, b: string, nodes: map<string, NodeState>)
    requires a in nodes && b in nodes
    ensures forall n :: n in FirstTwo(a, b, nodes) <==> n in nodes
  {
    var rest := Listing(nodes.Keys - {a, b});
    forall n ensures n in FirstTwo(a, b, nodes) <==> n in nodes {
      assert n in [a, b] + rest <==> n == a || n == b || n in rest;
    }
  }

  lemma FirstTwoIsOrder(a: string, b: string, nodes: map<string, NodeState>)
    requires a in nodes && b in nodes && a != b
    ensures IsOrder(FirstTwo(a, b, nodes), nodes)
  {
    FirstTwoDistinct(a, b, nodes);
    FirstTwoMembers(a, b, nodes);
  }

  lemma {:induction false} LateSecond(s: Info, a: string, b: string, rest: seq<string>)
    requires a != b
    ensures Late(s, [a, b] + rest, b) == Mixed(Of(s, a)) && !Late(s, [a, b] + rest, a)
    ensures Mixed(Of(s, a)) || Mixed(Of(s, b)) ==> Hot(s, [a, b] + rest)
  {
    var o := [a, b] + rest;
    assert o[1..] == [b] + rest;
    assert !Late(s, o[1..], b);
  }

  lemma EarlyAndLateDiffer(w: Network, ok: set<string>, m: string, o1: seq<string>, o2: seq<string>)
    requires Visitable(w.info, o1) && Visitable(w.info, o2) && m in o1 && m in o2
    requires Hot(w.info, o1) && Hot(w.info, o2) && !Late(w.info, o1, m) && Late(w.info, o2, m)
    requires Drain(Own(Of(w.info, m), m in ok)) != Drain(Own(Drain(Of(w.info, m)), m in ok))
    ensures RunPass(w, o1, ok) != RunPass(w, o2, ok)
  {
    var b := Pass(w.info, {}, {});
    WalkClosedForm(b, o1, ok, m);
    WalkClosedForm(b, o2, ok, m);
    assert Of(RunPass(w, o1, ok).info, m) != Of(RunPass(w, o2, ok).info, m);
  }

  lemma OrderMattersFor(w: Network, ok: set<string>, m: string, k: string)
    requires m in w.info.nodes && k in w.info.nodes && k != m && Mixed(Of(w.info, k))
    requires Drain(Own(Of(w.info, m), m in ok)) != Drain(Own(Drain(Of(w.info, m)), m in ok))
    ensures !SameForAllOrders(w, ok)
  {
    var s := w.info;
    var o1, o2 := FirstTwo(m, k, s.nodes), FirstTwo(k, m, s.nodes);
    FirstTwoIsOrder(m, k, s.nodes);
    FirstTwoIsOrder(k, m, s.nodes);
    LateSecond(s, m, k, Listing(s.nodes.Keys - {m, k}));
    LateSecond(s, k, m, Listing(s.nodes.Keys - {k, m}));
    OrderIsVisitable(s, o1);
    OrderIsVisitable(s, o2);
    EarlyAndLateDiffer(w, ok, m, o1, o2);
  }

  /** Visiting `m` before or after the mixed node `k` gives two different results. */
  lemma OrderMatters(w: Network, ok: set<string>, m: string, k: string)
    requires NoEmptyKeys(w.info)
    requires m in w.info.nodes && k in w.info.nodes && k != m
    requires Items(Of(w.info, m).creating) != {} && Mixed(Of(w.info, k))
    requires !(Steady(Of(w.info, m)) && !Activates(Of(w.info, m), m in ok))
    ensures !SameForAllOrders(w, ok)
  {
    DrainDiffers(Of(w.info, m), m in ok);
    OrderMattersFor(w, ok, m, k);
  }

  /** The result of a pass is independent of the visiting order exactly when OrderFree holds. */
  lemma OrderIndependence(w: Network, ok: set<string>)
    requires NoEmptyKeys(w.info)
    ensures SameForAllOrders(w, ok) <==> OrderFree(w.info, ok)
  {
    if OrderFree(w.info, ok) {
      forall o1, o2 | IsOrder(o1, w.info.nodes) && IsOrder(o2, w.info.nodes)
        ensures RunPass(w, o1, ok) == RunPass(w, o2, ok)
      {
        OrderFreeAgrees(w, ok, o1, o2);
      }
    } else {
      var m, k :| m in w.info.nodes && k in w.info.nodes && k != m && Items(Of(w.info, m).creating) != {} &&
        Mixed(Of(w.info, k)) && !(Steady(Of(w.info, m)) && !Activates(Of(w.info, m), m in ok));
      OrderMatters(w, ok, m, k);
    }
  }

  /** In particular when no node has both creating and running pods. */
  lemma UnmixedIsOrderFree(w: Network, ok: set<string>)
    requires NoEmptyKeys(w.info)
    requires forall n :: n in w.info.nodes ==> Lookup(w.info.creating, n) == {} || Lookup(w.info.pods, n) == {}
    ensures SameForAllOrders(w, ok)
  {
    forall n | n in w.info.nodes ensures !Mixed(Of(w.info, n)) {
      LocalLookups(w.info, n);
    }
    OrderIndependence(w, ok);
  }
}
