/** A pass seen from one node. The closed form below reduces every statement about a whole pass, in any
    visiting order, to at most three cases about the entries of a single node. */
module LocalView {
  import opened Options
  import opened Participation

  /** The entries of one node in the four maps. */
  datatype Local = Local(state: Option<NodeState>, pods: Option<set<string>>,
                         creating: Option<set<string>>, terminating: Option<set<string>>)

  function At<V>(m: map<string, V>, node: string): Option<V> {
    if node in m then Some(m[node]) else None
  }

  function Of(s: Info, node: string): Local {
    Local(At(s.nodes, node), At(s.pods, node), At(s.creating, node), At(s.terminating, node))
  }

  function Items(o: Option<set<string>>): set<string> {
    if o.Some? then o.value else {}
  }

  /** A node with both lists non-empty: visiting it drains the creating pods of all nodes. */
  predicate Mixed(l: Local) {
    Items(l.pods) != {} && Items(l.creating) != {}
  }

  predicate Activates(l: Local, ok: bool) {
    Items(l.creating) != {} && Items(l.pods) == {} && l.state == Some(Pending) && ok
  }

  predicate Forgets(l: Local) {
    && Items(l.creating) == {} && Items(l.pods) != {}
    && Items(l.terminating) == Items(l.pods) && l.state == Some(Terminating)
  }

  predicate Drops(l: Local) {
    Items(l.creating) == {} && Items(l.terminating) != {} && Items(l.terminating) != Items(l.pods)
  }

  function Drain(l: Local): Local {
    if l.creating.None? then l
    else l.(pods := Some(Items(l.pods) + l.creating.value), creating := None)
  }

  function DrainIf(b: bool, l: Local): Local {
    if b then Drain(l) else l
  }

  /** What visiting a node does to its own entries. */
  function Own(l: Local, ok: bool): Local {
    if Activates(l, ok) then
      l.(state := Some(Active), pods := Some(Items(l.pods) + Items(l.creating)), creating := None)
    else if Mixed(l) then Drain(l)
    else if Forgets(l) then l.(state := None, pods := None, terminating := None)
    else if Drops(l) then
      l.(pods := if l.pods.Some? then Some(l.pods.value - Items(l.terminating)) else None, terminating := None)
    else l
  }

  // ---- One visit ----

  lemma VisitOwn(b: Pass, node: string, ok: set<string>)
    requires node in b.info.nodes
    ensures Of(Visit(b, node, ok).info, node) == Own(Of(b.info, node), node in ok)
  {
  }

  lemma VisitOther(b: Pass, node: string, ok: set<string>, other: string)
    requires other != node
    ensures Of(Visit(b, node, ok).info, other) == DrainIf(Mixed(Of(b.info, node)), Of(b.info, other))
  {
    var s := b.info;
    if Mixed(Of(s, node)) {
      assert Visit(b, node, ok).info == DrainAll(s);
      if other in s.creating {
        assert other in DrainAll(s).pods;
        assert DrainAll(s).pods[other] == Lookup(s.pods, other) + s.creating[other];
      } else if other in s.pods {
        assert s.pods[other] + {} == s.pods[other];
        assert other in DrainAll(s).pods && DrainAll(s).pods[other] == s.pods[other];
      }
    }
  }

  lemma VisitBooks(b: Pass, node: string, ok: set<string>)
    requires node in b.info.nodes
    ensures var l := Of(b.info, node);
            && Visit(b, node, ok).removed == b.removed + (if Forgets(l) || Drops(l) then {node} else {})
            && Visit(b, node, ok).added == b.added + (if Activates(l, node in ok) then {node} else {})
  {
  }

  lemma SameMap<V>(m: map<string, V>, m': map<string, V>)
    requires forall n :: At(m, n) == At(m', n)
    ensures m == m'
  {
    forall n ensures n in m <==> n in m' {
      assert At(m, n) == At(m', n);
    }
    assert m.Keys == m'.Keys;
    forall n | n in m ensures m[n] == m'[n] {
      assert At(m, n) == At(m', n);
    }
  }

  lemma SameEverywhere(s: Info, t: Info)
    requires forall n :: Of(s, n) == Of(t, n)
    ensures s == t
  {
    forall n
      ensures At(s.nodes, n) == At(t.nodes, n) && At(s.pods, n) == At(t.pods, n)
      ensures At(s.creating, n) == At(t.creating, n) && At(s.terminating, n) == At(t.terminating, n)
    {
      assert Of(s, n) == Of(t, n);
    }
    SameMap(s.nodes, t.nodes);
    SameMap(s.pods, t.pods);
    SameMap(s.creating, t.creating);
    SameMap(s.terminating, t.terminating);
  }

  // ---- The whole pass ----

  /** Does the pass drain at all? */
  predicate Hot(s: Info, order: seq<string>) {
    order != [] && (Mixed(Of(s, order[0])) || Hot(s, order[1..]))
  }

  /** Is a mixed node visited before `node`? */
  predicate Late(s: Info, order: seq<string>, node: string) {
    order != [] && order[0] != node && (Mixed(Of(s, order[0])) || Late(s, order[1..], node))
  }

  /** The entries of `node` at the time the pass visits it. */
  function Met(s: Info, order: seq<string>, node: string): Local {
    DrainIf(Late(s, order, node), Of(s, node))
  }

  ghost predicate Visitable(s: Info, order: seq<string>) {
    && (forall i, j :: 0 <= i < j < |order| ==> order[i] != order[j])
    && (forall i :: 0 <= i < |order| ==> order[i] in s.nodes)
  }

  lemma VisitableRest(b: Pass, order: seq<string>, ok: set<string>)
    requires order != [] && Visitable(b.info, order)
    ensures Visitable(Visit(b, order[0], ok).info, order[1..])
  {
    var s' := Visit(b, order[0], ok).info;
    forall i | 0 <= i < |order[1..]| ensures order[1..][i] in s'.nodes {
      VisitOther(b, order[0], ok, order[1..][i]);
      assert Of(s', order[1..][i]).state == Of(b.info, order[1..][i]).state;
    }
  }

  /** Hot and Late look only at the local entries, so entries that agree on the order agree on them. */
  lemma {:induction false} HotLateFrame(s: Info, t: Info, order: seq<string>, node: string)
    requires forall n :: n in order ==> Mixed(Of(s, n)) == Mixed(Of(t, n))
    ensures Hot(s, order) == Hot(t, order) && Late(s, order, node) == Late(t, order, node)
  {
    if order != [] {
      assert order[0] in order;
      HotLateFrame(s, t, order[1..], node);
    }
  }

  lemma {:induction false} ColdWhenDrained(s: Info, order: seq<string>, node: string)
    requires s.creating == map[]
    ensures !Hot(s, order) && !Late(s, order, node)
  {
    if order != [] {
      ColdWhenDrained(s, order[1..], node);
    }
  }

  /** How the first visit moves on what the rest of the pass sees. */
  lemma FirstVisit(b: Pass, order: seq<string>, ok: set<string>, node: string)
    requires order != [] && Visitable(b.info, order)
    ensures var s, s', rest := b.info, Visit(b, order[0], ok).info, order[1..];
            if Mixed(Of(s, order[0])) then !Hot(s', rest) && !Late(s', rest, node)
            else Hot(s', rest) == Hot(s, rest) && Late(s', rest, node) == Late(s, rest, node)
  {
    var n, rest := order[0], order[1..];
    var s' := Visit(b, n, ok).info;
    if Mixed(Of(b.info, n)) {
      assert s' == DrainAll(b.info);
      ColdWhenDrained(s', rest, node);
    } else {
      forall m | m in rest ensures Mixed(Of(b.info, m)) == Mixed(Of(s', m)) {
        VisitOther(b, n, ok, m);
      }
      HotLateFrame(b.info, s', rest, node);
    }
  }

  /** Closed form of a pass: from the start entries of `node`, its own visit, and whether some mixed node
      is visited before it or at all. */
  lemma {:induction false} WalkClosedForm(b: Pass, order: seq<string>, ok: set<string>, node: string)
    requires Visitable(b.info, order)
    ensures var w, l := Walk(b, order, ok), Met(b.info, order, node);
            && Of(w.info, node) ==
                 DrainIf(Hot(b.info, order), if node in order then Own(l, node in ok) else Of(b.info, node))
            && (node in w.removed <==> node in b.removed || (node in order && (Forgets(l) || Drops(l))))
            && (node in w.added <==> node in b.added || (node in order && Activates(l, node in ok)))
    decreases order
  {
    if order != [] {
      var n, rest := order[0], order[1..];
      var b' := Visit(b, n, ok);
      VisitBooks(b, n, ok);
      VisitableRest(b, order, ok);
      FirstVisit(b, order, ok, node);
      WalkClosedForm(b', rest, ok, node);
      assert n !in rest && (node in order <==> node == n || node in rest);
      if node == n {
        VisitOwn(b, n, ok);
      } else {
        VisitOther(b, n, ok, node);
      }
    }
  }

  lemma {:induction false} HotIffMixed(s: Info, order: seq<string>)
    ensures Hot(s, order) <==> exists n :: n in order && Mixed(Of(s, n))
  {
    if order != [] {
      HotIffMixed(s, order[1..]);
      assert order[0] in order;
      assert forall n :: n in order <==> n == order[0] || n in order[1..];
    }
  }

  lemma {:induction false} LateMeansMixed(s: Info, order: seq<string>, node: string)
    requires Late(s, order, node)
    ensures exists n :: n in order && n != node && Mixed(Of(s, n))
  {
    if Mixed(Of(s, order[0])) {
      assert order[0] in order;
    } else {
      LateMeansMixed(s, order[1..], node);
      var n :| n in order[1..] && n != node && Mixed(Of(s, n));
      assert n in order;
    }
  }
}
