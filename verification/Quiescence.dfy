/** Every pass that changes anything uses up pending work, so passes alone come to rest. */
module Quiescence {
  import opened Options
  import opened Participation
  import opened LocalView

  ghost function Weight(m: PodMap): nat
    decreases |m|
  {
    if m == map[] then 0 else var k :| k in m; |m[k]| + Weight(m - {k})
  }

  lemma {:induction false} WeightRemove(m: PodMap, k: string)
    requires k in m
    ensures Weight(m) == |m[k]| + Weight(m - {k})
    decreases |m|
  {
    var j :| j in m && Weight(m) == |m[j]| + Weight(m - {j});
    if j != k {
      WeightRemove(m - {j}, k);
      WeightRemove(m - {k}, j);
      assert m - {j} - {k} == m - {k} - {j};
    }
  }

  /** The pods that still wait to be moved or dropped, over all nodes. */
  ghost function Backlog(s: Info): nat {
    Weight(s.creating) + Weight(s.terminating)
  }

  lemma VisitUsesUp(b: Pass, node: string, ok: set<string>)
    ensures Visit(b, node, ok) == b || Backlog(Visit(b, node, ok).info) < Backlog(b.info)
  {
    var s := b.info;
    if Lookup(s.creating, node) != {} {
      WeightRemove(s.creating, node);
    }
    if Lookup(s.terminating, node) != {} {
      WeightRemove(s.terminating, node);
    }
  }

  lemma {:induction false} WalkUsesUp(b: Pass, order: seq<string>, ok: set<string>)
    ensures Walk(b, order, ok) == b || Backlog(Walk(b, order, ok).info) < Backlog(b.info)
    decreases order
  {
    if order != [] {
      VisitUsesUp(b, order[0], ok);
      WalkUsesUp(Visit(b, order[0], ok), order[1..], ok);
    }
  }

  /** A pass either leaves maps and finalizers as they are or strictly lowers Backlog. */
  lemma PassUsesUp(w: Network, order: seq<string>, ok: set<string>)
    ensures RunPass(w, order, ok) == w || Backlog(RunPass(w, order, ok).info) < Backlog(w.info)
  {
    WalkUsesUp(Pass(w.info, {}, {}), order, ok);
    assert (w.finalizers - {}) + {} == w.finalizers;
  }

  /** "Only update if Info changed" never loses a finalizer edit. */
  lemma FinalizerChangeShowsInInfo(w: Network, order: seq<string>, ok: set<string>)
    requires RunPass(w, order, ok).finalizers != w.finalizers
    ensures RunPass(w, order, ok).info != w.info
  {
    PassUsesUp(w, order, ok);
  }

  /** One call of the pass: the visiting order and the nodes whose streams are provided. */
  datatype Call = Call(order: seq<string>, ok: set<string>)

  function RunPasses(w: Network, calls: seq<Call>): Network
    decreases calls
  {
    if calls == [] then w else RunPasses(RunPass(w, calls[0].order, calls[0].ok), calls[1..])
  }

  function Changing(w: Network, calls: seq<Call>): nat
    decreases calls
  {
    if calls == [] then 0
    else
      var w' := RunPass(w, calls[0].order, calls[0].ok);
      (if w' == w then 0 else 1) + Changing(w', calls[1..])
  }

  /** Changing counts the passes that change the network, one by one. */
  lemma {:induction false} ChangingSnoc(w: Network, calls: seq<Call>, call: Call)
    ensures Changing(w, []) == 0
    ensures var before := RunPasses(w, calls);
            Changing(w, calls + [call]) ==
              Changing(w, calls) + if RunPass(before, call.order, call.ok) == before then 0 else 1
    decreases calls
  {
    if calls == [] {
      assert [call][1..] == [];
    } else {
      ChangingSnoc(RunPass(w, calls[0].order, calls[0].ok), calls[1..], call);
      assert (calls + [call])[1..] == calls[1..] + [call];
    }
  }

  /** Without pod events, at most Backlog many passes change anything, whatever fails and in any order. */
  lemma {:induction false} Quiescent(w: Network, calls: seq<Call>)
    ensures Changing(w, calls) + Backlog(RunPasses(w, calls).info) <= Backlog(w.info)
    decreases calls
  {
    if calls != [] {
      PassUsesUp(w, calls[0].order, calls[0].ok);
      Quiescent(RunPass(w, calls[0].order, calls[0].ok), calls[1..]);
    }
  }

  // ---- What rest looks like ----

  /** Nothing left to do for a node: its creating pods wait for streams that are not provided, and its
      marked pods are all its pods while the node itself is not marked terminating. */
  predicate Resting(l: Local, ok: bool) {
    && (Items(l.creating) != {} ==> Items(l.pods) == {} && !(l.state == Some(Pending) && ok))
    && (Items(l.creating) == {} && Items(l.terminating) != {} ==>
          Items(l.terminating) == Items(l.pods) && l.state != Some(Terminating))
  }

  lemma OwnWhenResting(b: Pass, node: string, ok: set<string>)
    requires node in b.info.nodes
    ensures Visit(b, node, ok) == b <==> Resting(Of(b.info, node), node in ok)
  {
    VisitUsesUp(b, node, ok);
  }

  lemma {:induction false} RestingWalk(b: Pass, order: seq<string>, ok: set<string>)
    requires forall i :: 0 <= i < |order| ==> order[i] in b.info.nodes && Resting(Of(b.info, order[i]), order[i] in ok)
    ensures Walk(b, order, ok) == b
    decreases order
  {
    if order != [] {
      OwnWhenResting(b, order[0], ok);
      RestingWalk(b, order[1..], ok);
    }
  }

  lemma {:induction false} BusyWalk(b: Pass, order: seq<string>, ok: set<string>, i: nat)
    requires i < |order| && order[i] in b.info.nodes && !Resting(Of(b.info, order[i]), order[i] in ok)
    ensures Walk(b, order, ok) != b
    decreases order
  {
    var b' := Visit(b, order[0], ok);
    WalkUsesUp(b', order[1..], ok);
    VisitUsesUp(b, order[0], ok);
    if b' == b {
      if i == 0 {
        OwnWhenResting(b, order[0], ok);
      } else {
        BusyWalk(b, order[1..], ok, i - 1);
      }
    }
  }

  /** A pass changes nothing exactly when every node rests. */
  lemma RestingIffUnchanged(w: Network, order: seq<string>, ok: set<string>)
    requires IsOrder(order, w.info.nodes)
    ensures RunPass(w, order, ok) == w <==> forall n :: n in w.info.nodes ==> Resting(Of(w.info, n), n in ok)
  {
    var b := Pass(w.info, {}, {});
    if forall n :: n in w.info.nodes ==> Resting(Of(w.info, n), n in ok) {
      RestingWalk(b, order, ok);
      assert (w.finalizers - {}) + {} == w.finalizers;
    } else {
      var n :| n in w.info.nodes && !Resting(Of(w.info, n), n in ok);
      var i :| 0 <= i < |order| && order[i] == n;
      BusyWalk(b, order, ok, i);
      WalkUsesUp(b, order, ok);
    }
  }

  ghost predicate ValidCalls(w: Network, calls: seq<Call>)
    decreases calls
  {
    calls == [] ||
    (IsOrder(calls[0].order, w.info.nodes) && ValidCalls(RunPass(w, calls[0].order, calls[0].ok), calls[1..]))
  }

  ghost predicate AtRest(w: Network, call: Call) {
    forall n :: n in w.info.nodes ==> Resting(Of(w.info, n), n in call.ok)
  }

  /** Among any Backlog + 1 passes in a row there is one that finds every node at rest. */
  lemma {:induction false} ComesToRest(w: Network, calls: seq<Call>) returns (i: nat)
    requires ValidCalls(w, calls) && |calls| > Backlog(w.info)
    ensures i < |calls| && AtRest(RunPasses(w, calls[..i]), calls[i])
    decreases calls
  {
    var w' := RunPass(w, calls[0].order, calls[0].ok);
    PassUsesUp(w, calls[0].order, calls[0].ok);
    if w' == w {
      RestingIffUnchanged(w, calls[0].order, calls[0].ok);
      return 0;
    }
    var j := ComesToRest(w', calls[1..]);
    assert calls[..j + 1][1..] == calls[1..][..j] && calls[..j + 1][0] == calls[0];
    return j + 1;
  }
}
