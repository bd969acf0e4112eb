/** The Network object as the controllers edit it: maps of pod lists changed in place.
    Every method is proved against the step it implements. */
module NetworkObject {
  import opened Slices
  import opened NetworkSpec
  import opened Options
  import opened Participation
  import opened Provisioning
  import Quiescence
  import Runs

  type Lists = map<string, seq<string>>

  function List(m: Lists, node: string): seq<string> {
    if node in m then m[node] else []
  }

  ghost function Sets(m: Lists): PodMap {
    map n | n in m :: Elems(m[n])
  }

  ghost predicate AllNoDup(m: Lists) {
    forall n :: n in m ==> NoDup(m[n])
  }

  lemma LookupSets(m: Lists, node: string)
    ensures Lookup(Sets(m), node) == Elems(List(m, node))
    ensures Lookup(Sets(m), node) == {} <==> |List(m, node)| == 0
  {
    assert |List(m, node)| > 0 ==> List(m, node)[0] in Elems(List(m, node));
  }

  lemma SetsUpdate(m: Lists, node: string, l: seq<string>)
    ensures Sets(m[node := l]) == Sets(m)[node := Elems(l)]
    ensures Sets(m - {node}) == Sets(m) - {node}
    ensures AllNoDup(m) && NoDup(l) ==> AllNoDup(m[node := l]) && AllNoDup(m - {node})
  {
  }

  /** On duplicate-free lists the length check of SliceEqual is implied by the elements. */
  lemma SameElems(a: seq<string>, b: seq<string>)
    requires NoDup(a) && NoDup(b)
    ensures Elems(a) == Elems(b) ==> |a| == |b|
  {
    NoDupCount(a);
    NoDupCount(b);
  }

  function DrainNode(s: Info, node: string): Info
    requires node in s.creating
  {
    s.(pods := s.pods[node := Lookup(s.pods, node) + s.creating[node]], creating := s.creating - {node})
  }

  function WithoutPods(m: PodMap, node: string, gone: set<string>): PodMap {
    if node in m then m[node := m[node] - gone] else m
  }

  lemma NothingWithout(m: Lists, node: string, gone: set<string>)
    requires gone !! Elems(List(m, node))
    ensures WithoutPods(Sets(m), node, gone) == Sets(m)
  {
    if node in m {
      assert Elems(m[node]) - gone == Elems(m[node]);
    }
  }

  lemma WithoutTwice(m: PodMap, node: string, a: set<string>, b: set<string>)
    ensures WithoutPods(WithoutPods(m, node, a), node, b) == WithoutPods(m, node, a + b)
  {
    if node in m {
      assert m[node] - a - b == m[node] - (a + b);
    }
  }

  /** The order in which the nodes are drained does not matter. */
  lemma DrainOneThenAll(s: Info, node: string)
    requires node in s.creating
    ensures DrainAll(DrainNode(s, node)) == DrainAll(s)
  {
    var s' := DrainNode(s, node);
    assert s'.pods.Keys + s'.creating.Keys == s.pods.Keys + s.creating.Keys;
    forall n ensures Lookup(s'.pods, n) + Lookup(s'.creating, n) == Lookup(s.pods, n) + Lookup(s.creating, n) {
      assert n != node ==> Lookup(s'.creating, n) == Lookup(s.creating, n);
    }
    assert DrainAll(s').pods == DrainAll(s).pods;
  }

  lemma NothingToDrain(s: Info)
    requires s.creating == map[]
    ensures DrainAll(s) == s
  {
    assert forall n :: n in s.pods ==> s.pods[n] + {} == s.pods[n];
    assert DrainAll(s).pods == s.pods;
  }

  lemma ElemsConcat(a: seq<string>, b: seq<string>)
    ensures Elems(a + b) == Elems(a) + Elems(b)
  {
    forall x | x in Elems(a) + Elems(b) ensures x in a + b {
      if x in a {
        var i :| 0 <= i < |a| && a[i] == x;
        assert (a + b)[i] == x;
      } else {
        var i :| 0 <= i < |b| && b[i] == x;
        assert (a + b)[|a| + i] == x;
      }
    }
  }

  lemma Regroup<T>(a: set<T>, b: set<T>, c: set<T>)
    ensures (a + b) + c == a + (b + c)
  {
  }

  /** The branches that edit the maps. */
  predicate Acts(s: Info, node: string, ok: set<string>) {
    match Classify(s, node)
    case New => Provisions(s, node) && node in ok
    case StillCreate => true
    case StillDelete => node in s.nodes && s.nodes[node] == Terminating
    case Deleted => true
    case Invalid => false
  }

  /** Every branch that edits the maps is visible in them. */
  lemma VisitActs(b: Pass, node: string, ok: set<string>)
    ensures Visit(b, node, ok).info == b.info ==> Visit(b, node, ok) == b
    ensures Acts(b.info, node, ok) ==> Visit(b, node, ok).info != b.info
    ensures Classify(b.info, node) == New ==> node in b.info.creating
  {
    assert node in b.info.creating && Lookup(b.info.creating, node) != {} ==>
      node !in DrainAll(b.info).creating && node !in Activate(b.info, node).creating;
    assert node !in Forget(b.info, node).terminating && node !in DropTerminated(b.info, node).terminating;
  }

  /** The walk, the finalizer edits and the retried streams make up the pass. */
  lemma PassAssembled(name: string, streams: seq<StreamSpec>, before: World, order: seq<string>, answers: Server,
                      b: Pass, network: Network, domains: Domains)
    requires var ok := OkNodes(name, streams, before, answers);
             var start := Pass(before.network.info, {}, {});
             && b == Walk(start, order, ok)
             && Provisioned(name, streams, Tried(start, order, ok), before.domains, domains, answers)
    requires network == Network(b.info, (before.network.finalizers - b.removed) + b.added)
    ensures var after := PassWorld(name, streams, before, order, answers);
            && network == after.network
            && (forall d :: Present(domains, d) == Present(after.domains, d))
    ensures network.info == before.network.info ==> network == before.network
  {
    var ok := OkNodes(name, streams, before, answers);
    RetryAllProvisions(name, streams, Tried(Pass(before.network.info, {}, {}), order, ok), before.domains, answers);
    Quiescence.PassUsesUp(before.network, order, ok);
  }

  /** The streams of all domains, as the stream server holds them. */
  class StreamServer {
    var domains: Domains

    constructor (domains: Domains)
      ensures this.domains == domains
    {
      this.domains := domains;
    }

    method Exists(domain: string, stream: string, answer: Answer) returns (r: Option<bool>)
      ensures r == if answer.existsFails then None else Some(stream in Present(domains, domain))
    {
      if answer.existsFails {
        return None;
      }
      return Some(domain in domains && stream in domains[domain]);
    }

    method Create(domain: string, network: string, stream: string, answer: Answer) returns (failed: bool)
      modifies this
      ensures failed == answer.createFails
      ensures domains == if failed && !answer.stored then old(domains)
                         else old(domains)[domain := Present(old(domains), domain) + {CreatedName(network, stream)}]
    {
      if !answer.createFails || answer.stored {
        var present := if domain in domains then domains[domain] else {};
        domains := domains[domain := present + {CreatedName(network, stream)}];
      }
      return answer.createFails;
    }
  }

  class Participating {
    const name: string
    const streams: seq<StreamSpec>
    var nodes: map<string, NodeState>
    var pods: Lists
    var podsCreating: Lists
    var podsTerminating: Lists
    var finalizers: seq<string>

    ghost predicate Valid()
      reads this
    {
      AllNoDup(pods) && AllNoDup(podsCreating) && AllNoDup(podsTerminating)
    }

    ghost function InfoView(): Info
      reads this
    {
      Info(nodes, Sets(pods), Sets(podsCreating), Sets(podsTerminating))
    }

    ghost function View(): Network
      reads this
    {
      Network(InfoView(), Elems(finalizers))
    }

    constructor (name: string, streams: seq<StreamSpec>)
      ensures Valid() && View() == FRESH
      ensures this.name == name && this.streams == streams
    {
      this.name, this.streams := name, streams;
      nodes, pods, podsCreating, podsTerminating := map[], map[], map[], map[];
      finalizers := [NETWORK_FINALIZER];
    }

    ghost predicate Unchanged(n: map<string, NodeState>, p: Lists, c: Lists, t: Lists)
      reads this
    {
      nodes == n && pods == p && podsCreating == c && podsTerminating == t
    }

    method ReconcileCreatePod(node: string, edge: bool, pod: string)
      requires Valid()
      modifies this
      ensures Valid() && View() == Runs.Apply(Runs.Create(node, edge, pod), old(View()))
    {
      var key := node;
      if !edge {
        key := "main";
      }
      LookupSets(pods, key);
      LookupSets(podsCreating, key);
      if pod !in List(pods, key) {
        ElemsSnoc(List(podsCreating, key), pod);
        var creating := Unique(List(podsCreating, key) + [pod]);
        SetsUpdate(podsCreating, key, creating);
        podsCreating := podsCreating[key := creating];
        assert pod in Elems(creating);
        if key !in nodes || nodes[key] != Active {
          if |podsCreating[key]| > 0 {
            nodes := nodes[key := Pending];
          }
        }
      }
    }

    method ReconcileDeletePod(node: string, pod: string)
      requires Valid()
      modifies this
      ensures Valid() && View() == Runs.Apply(Runs.Delete(node, pod), old(View()))
    {
      LookupSets(pods, node);
      LookupSets(podsCreating, node);
      LookupSets(podsTerminating, node);
      ElemsSnoc(List(podsTerminating, node), pod);
      var terminating := Unique(List(podsTerminating, node) + [pod]);
      SetsUpdate(podsTerminating, node, terminating);
      podsTerminating := podsTerminating[node := terminating];
      var same := SliceEqual(podsTerminating[node], List(pods, node));
      SameElems(terminating, List(pods, node));
      if same {
        if pod !in List(podsCreating, node) {
          nodes := nodes[node := Terminating];
        }
      }
    }

    method NetworkNodeState(node: string) returns (c: Class)
      requires Valid()
      ensures c == Classify(InfoView(), node)
    {
      LookupSets(pods, node);
      LookupSets(podsCreating, node);
      LookupSets(podsTerminating, node);
      if |List(podsCreating, node)| >= 1 && |List(pods, node)| == 0 {
        return New;
      }
      if |List(podsCreating, node)| >= 1 && |List(pods, node)| >= 1 {
        return StillCreate;
      }
      var same := SliceEqual(List(podsTerminating, node), List(pods, node));
      SameElems(List(podsTerminating, node), List(pods, node));
      if same && |List(pods, node)| >= 1 {
        return StillDelete;
      }
      if |List(podsTerminating, node)| >= 1 {
        return Deleted;
      }
      return Invalid;
    }

    method AttemptStreams(server: StreamServer, node: string, attempt: nat, answers: Server) returns (ok: bool)
      modifies server
      ensures (ok, Present(server.domains, node))
              == Attempt(name, streams, node, attempt, 0, Present(old(server.domains), node), answers)
      ensures forall d :: d != node ==> Present(server.domains, d) == Present(old(server.domains), d)
    {
      ghost var result := Attempt(name, streams, node, attempt, 0, Present(server.domains, node), answers);
      for i := 0 to |streams|
        invariant Attempt(name, streams, node, attempt, i, Present(server.domains, node), answers) == result
        invariant forall d :: d != node ==> Present(server.domains, d) == Present(old(server.domains), d)
      {
        if streams[i].location == "node" {
          var found := server.Exists(node, streams[i].name, answers(node, attempt, i));
          if found.None? {
            return false;
          }
          if !found.value {
            var failed := server.Create(node, name, streams[i].name, answers(node, attempt, i));
            if failed {
              return false;
            }
          }
        }
      }
      return true;
    }

    /** Up to five attempts to provide the node's streams; `failed` is set by any of them and never cleared. */
    method ProvideStreams(server: StreamServer, node: string, answers: Server) returns (failed: bool)
      modifies server
      ensures failed <==> !FirstTry(name, streams, node, old(server.domains), answers)
      ensures Provisioned(name, streams, {node}, old(server.domains), server.domains, answers)
    {
      failed := false;
      var attempt, done := 0, false;
      ghost var start := Present(server.domains, node);
      while attempt < ATTEMPTS && !done
        invariant attempt <= ATTEMPTS
        invariant failed <==> attempt > 0 && !Attempt(name, streams, node, 0, 0, start, answers).0
        invariant attempt == 0 ==> !done && Present(server.domains, node) == start
        invariant done && attempt == 1 ==> Attempt(name, streams, node, 0, 0, start, answers).0
        invariant !done ==> Retried(name, streams, node, attempt, Present(server.domains, node), answers)
                            == Retried(name, streams, node, 0, start, answers)
        invariant done ==> Present(server.domains, node) == Retried(name, streams, node, 0, start, answers)
        invariant attempt > 0 && !failed ==> done
        invariant forall d :: d != node ==> Present(server.domains, d) == Present(old(server.domains), d)
        decreases ATTEMPTS - attempt, !done
      {
        var ok := AttemptStreams(server, node, attempt, answers);
        if ok {
          done := true;
        } else {
          failed := true;
        }
        attempt := attempt + 1;
      }
    }

    method DrainOne(node: string)
      requires Valid() && node in podsCreating
      modifies `pods, `podsCreating
      ensures Valid() && podsCreating == old(podsCreating) - {node}
      ensures InfoView() == DrainNode(old(InfoView()), node)
    {
      LookupSets(pods, node);
      ElemsConcat(List(pods, node), podsCreating[node]);
      var moved := Unique(List(pods, node) + podsCreating[node]);
      SetsUpdate(pods, node, moved);
      SetsUpdate(podsCreating, node, []);
      pods := pods[node := moved];
      podsCreating := podsCreating - {node};
    }

    /** Moves the creating pods of every node to its pods, in any order of the keys. */
    method DrainCreating()
      requires Valid()
      modifies `pods, `podsCreating
      ensures Valid() && InfoView() == DrainAll(old(InfoView()))
    {
      while podsCreating != map[]
        invariant Valid()
        invariant DrainAll(InfoView()) == DrainAll(old(InfoView()))
        decreases |podsCreating|
      {
        var node :| node in podsCreating;
        DrainOneThenAll(InfoView(), node);
        DrainOne(node);
      }
      NothingToDrain(InfoView());
    }

    static lemma RemoveOne(s: seq<string>, k: nat)
      requires NoDup(s) && k < |s|
      ensures var r := s[..k] + s[k + 1..]; NoDup(r) && Elems(r) == Elems(s) - {s[k]}
    {
      var r := s[..k] + s[k + 1..];
      assert forall i :: 0 <= i < |r| ==> r[i] == s[if i < k then i else i + 1];
      forall x | x in Elems(s) - {s[k]} ensures x in r {
        var i :| 0 <= i < |s| && s[i] == x;
        assert r[if i < k then i else i - 1] == x;
      }
    }

    /** Removes the first occurrence of a pod, shifting the rest left. */
    method RemovePod(node: string, pod: string)
      requires Valid()
      modifies `pods
      ensures Valid() && Sets(pods) == WithoutPods(old(Sets(pods)), node, {pod})
    {
      var current := List(pods, node);
      for k := 0 to |current|
        invariant pods == old(pods)
        invariant pod !in current[..k]
      {
        if current[k] == pod {
          RemoveOne(current, k);
          SetsUpdate(pods, node, current[..k] + current[k + 1..]);
          pods := pods[node := current[..k] + current[k + 1..]];
          return;
        }
      }
      assert current[..|current|] == current;
      NothingWithout(pods, node, {pod});
    }

    /** Removes the terminating pods of a node from its pods, one at a time. */
    method DropTerminating(node: string)
      requires Valid() && |List(podsTerminating, node)| > 0
      modifies `pods, `podsTerminating
      ensures Valid() && InfoView() == DropTerminated(old(InfoView()), node)
    {
      var doomed := podsTerminating[node];
      ghost var s := InfoView();
      NothingWithout(pods, node, {});
      assert Elems(doomed[..0]) == {};
      for i := 0 to |doomed|
        invariant Valid()
        invariant Sets(pods) == WithoutPods(s.pods, node, Elems(doomed[..i]))
        invariant Sets(podsTerminating) == if i == 0 then s.terminating else s.terminating - {node}
      {
        ElemsTake(doomed, i);
        WithoutTwice(s.pods, node, Elems(doomed[..i]), {doomed[i]});
        RemovePod(node, doomed[i]);
        SetsUpdate(podsTerminating, node, []);
        podsTerminating := podsTerminating - {node};
      }
      assert doomed[..|doomed|] == doomed;
    }

    method ActivateNode(node: string)
      requires Valid() && node in podsCreating
      modifies `nodes, `pods, `podsCreating
      ensures Valid() && InfoView() == Activate(old(InfoView()), node)
    {
      LookupSets(pods, node);
      ElemsConcat(List(pods, node), podsCreating[node]);
      nodes := nodes[node := Active];
      var moved := Unique(List(pods, node) + podsCreating[node]);
      SetsUpdate(pods, node, moved);
      SetsUpdate(podsCreating, node, []);
      pods := pods[node := moved];
      podsCreating := podsCreating - {node};
    }

    method ForgetNode(node: string)
      requires Valid()
      modifies `nodes, `pods, `podsTerminating
      ensures Valid() && InfoView() == Forget(old(InfoView()), node)
    {
      SetsUpdate(pods, node, []);
      SetsUpdate(podsTerminating, node, []);
      pods := pods - {node};
      nodes := nodes - {node};
      podsTerminating := podsTerminating - {node};
    }

    /** The pass so far: the maps and the two finalizer lists being collected. */
    ghost function Progress(removed: seq<string>, added: seq<string>): Pass
      reads this
    {
      Pass(InfoView(), Elems(removed), Elems(added))
    }

    /** A node with creating pods only: provides its streams and activates it if it is pending. */
    method VisitNew(server: StreamServer, node: string, answers: Server, ghost ok: set<string>,
                    ghost removed: seq<string>, added: seq<string>)
        returns (added': seq<string>)
      requires Valid() && Classify(InfoView(), node) == New
      requires node in ok <==> FirstTry(name, streams, node, server.domains, answers)
      modifies this, server
      ensures Valid() && finalizers == old(finalizers)
      ensures Progress(removed, added') == Visit(old(Progress(removed, added)), node, ok)
      ensures Provisioned(name, streams, if Provisions(old(InfoView()), node) then {node} else {},
                          old(server.domains), server.domains, answers)
      ensures InfoView() == old(InfoView()) ==>
        Unchanged(old(nodes), old(pods), old(podsCreating), old(podsTerminating))
    {
      added' := added;
      VisitActs(Progress(removed, added), node, ok);
      if node in nodes && nodes[node] == Pending {
        var failed := ProvideStreams(server, node, answers);
        if !failed {
          ElemsSnoc(added, node);
          ActivateNode(node);
          added' := added + [node];
        }
      }
    }

    /** Any other node. */
    method VisitKnown(node: string, c: Class, ghost ok: set<string>, removed: seq<string>, ghost added: seq<string>)
        returns (removed': seq<string>)
      requires Valid() && c == Classify(InfoView(), node) != New
      modifies this
      ensures Valid() && finalizers == old(finalizers)
      ensures Progress(removed', added) == Visit(old(Progress(removed, added)), node, ok)
      ensures InfoView() == old(InfoView()) ==>
        Unchanged(old(nodes), old(pods), old(podsCreating), old(podsTerminating))
    {
      removed' := removed;
      VisitActs(Progress(removed, added), node, ok);
      ElemsSnoc(removed, node);
      match c
      case StillCreate =>
        DrainCreating();
      case StillDelete =>
        if node in nodes && nodes[node] == Terminating {
          ForgetNode(node);
          removed' := removed + [node];
        }
      case Deleted =>
        LookupSets(podsTerminating, node);
        DropTerminating(node);
        removed' := removed + [node];
      case Invalid =>
    }

    /** One round of the pass. */
    method VisitNode(server: StreamServer, node: string, answers: Server, ghost ok: set<string>,
                     removed: seq<string>, added: seq<string>)
        returns (removed': seq<string>, added': seq<string>)
      requires Valid()
      requires node in ok <==> FirstTry(name, streams, node, server.domains, answers)
      modifies this, server
      ensures Valid() && finalizers == old(finalizers)
      ensures Progress(removed', added') == Visit(old(Progress(removed, added)), node, ok)
      ensures Provisioned(name, streams, if Provisions(old(InfoView()), node) then {node} else {},
                          old(server.domains), server.domains, answers)
      ensures InfoView() == old(InfoView()) ==>
        Unchanged(old(nodes), old(pods), old(podsCreating), old(podsTerminating))
    {
      removed', added' := removed, added;
      var c := NetworkNodeState(node);
      if c == New {
        added' := VisitNew(server, node, answers, ok, removed, added);
      } else {
        removed' := VisitKnown(node, c, ok, removed, added);
      }
    }

    /** The loop of the pass. */
    method WalkNodes(server: StreamServer, order: seq<string>, answers: Server, ghost ok: set<string>)
        returns (removed: seq<string>, added: seq<string>)
      requires Valid() && NoDup(order)
      requires forall n :: n in order ==> (n in ok <==> FirstTry(name, streams, n, server.domains, answers))
      modifies this, server
      ensures Valid() && finalizers == old(finalizers)
      ensures Progress(removed, added) == Walk(Pass(old(InfoView()), {}, {}), order, ok)
      ensures Provisioned(name, streams, Tried(Pass(old(InfoView()), {}, {}), order, ok),
                          old(server.domains), server.domains, answers)
      ensures InfoView() == old(InfoView()) ==>
        Unchanged(old(nodes), old(pods), old(podsCreating), old(podsTerminating))
    {
      removed, added := [], [];
      ghost var start := Pass(InfoView(), {}, {});
      ghost var tried: set<string> := {};
      assert order[0..] == order && Elems(removed) == {} && Elems(added) == {};
      for i := 0 to |order|
        invariant Valid() && finalizers == old(finalizers)
        invariant Walk(Progress(removed, added), order[i..], ok) == Walk(start, order, ok)
        invariant tried + Tried(Progress(removed, added), order[i..], ok) == Tried(start, order, ok)
        invariant forall d :: d in tried ==> d in order[..i]
        invariant Provisioned(name, streams, tried, old(server.domains), server.domains, answers)
        invariant Unchanged(old(nodes), old(pods), old(podsCreating), old(podsTerminating)) ||
          Quiescence.Backlog(InfoView()) < Quiescence.Backlog(start.info)
      {
        var node := order[i];
        ghost var b := Progress(removed, added);
        assert node !in order[..i] && node in order;
        Quiescence.VisitUsesUp(b, node, ok);
        assert order[i..][0] == node && order[i..][1..] == order[i + 1..];
        ghost var here := if Provisions(b.info, node) then {node} else {};
        label before:
        removed, added := VisitNode(server, node, answers, ok, removed, added);
        ProvisionedTwice(name, streams, tried, here, old(server.domains), old@before(server.domains), server.domains,
                         answers);
        Regroup(tried, here, Tried(Progress(removed, added), order[i + 1..], ok));
        tried := tried + here;
      }
    }

    method RemoveNetworkFinalizers(remove: seq<string>)
      modifies `finalizers
      ensures finalizers == Missing(old(finalizers), remove)
      ensures Elems(finalizers) == Elems(old(finalizers)) - Elems(remove)
    {
      var current, kept := finalizers, [];
      for i := 0 to |current|
        invariant kept == Missing(current[..i], remove)
      {
        MissingSnoc(current, i, remove);
        if current[i] !in remove {
          kept := kept + [current[i]];
        }
      }
      assert current[..|current|] == current;
      MissingElems(current, remove);
      finalizers := kept;
    }

    method AddNetworkFinalizer(add: seq<string>)
      modifies `finalizers
      ensures NoDup(finalizers) && Elems(finalizers) == Elems(old(finalizers)) + Elems(add)
    {
      ElemsConcat(finalizers, add);
      finalizers := finalizers + add;
      finalizers := Unique(finalizers);
    }

    /** One pass over all nodes. `order` is the order in which Go happens to range over the map, `answers` what
        the stream server says. `changed` is the guard of the final update. */
    method ReconcileJetstreams(server: StreamServer, order: seq<string>, answers: Server) returns (changed: bool)
      requires Valid() && IsOrder(order, nodes)
      modifies this, server
      ensures Valid()
      ensures var before := World(old(View()), old(server.domains));
              var after := PassWorld(name, streams, before, order, answers);
              && View() == after.network
              && (forall d :: Present(server.domains, d) == Present(after.domains, d))
      ensures changed <==> View().info != old(View()).info
      ensures !changed ==> View() == old(View())
    {
      var nodes0, pods0, creating0, terminating0 := nodes, pods, podsCreating, podsTerminating;
      ghost var ok := OkNodes(name, streams, World(View(), server.domains), answers);
      var removed, added := WalkNodes(server, order, answers, ok);
      ghost var b := Progress(removed, added);
      RemoveNetworkFinalizers(removed);
      AddNetworkFinalizer(added);
      changed := nodes != nodes0 || pods != pods0 || podsCreating != creating0 || podsTerminating != terminating0;
      PassAssembled(name, streams, World(old(View()), old(server.domains)), order, answers, b, View(), server.domains);
    }
  }
}
