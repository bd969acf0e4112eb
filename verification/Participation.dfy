/** What the three step kinds do to a Network object, on values.
    The pod lists are read as sets: every list is duplicate-free (NetworkObject.Valid), and every branch
    of the code asks only for emptiness, membership or same-elements. Absent keys and empty lists stay
    different values. */
module Participation {
  datatype NodeState = Pending | Active | Terminating

  type PodMap = map<string, set<string>>

  /** Info.Participating without Components. */
  datatype Info = Info(nodes: map<string, NodeState>, pods: PodMap, creating: PodMap, terminating: PodMap)

  datatype Network = Network(info: Info, finalizers: set<string>)

  const NETWORK_FINALIZER := "network.edgefarm.io/finalizer"

  const EMPTY := Info(map[], map[], map[], map[])

  const FRESH := Network(EMPTY, {NETWORK_FINALIZER})

  /** Before the network controller registers its finalizer. */
  const UNREGISTERED := Network(EMPTY, {})

  function Lookup(m: PodMap, node: string): set<string> {
    if node in m then m[node] else {}
  }

  // ---- Pod events ----

  /** Pods on nodes without the edge role are booked under one key when they are created.
      (When they are deleted, the code uses the plain node name.) */
  function KeyOf(node: string, edge: bool): string {
    if edge then node else "main"
  }

  /** reconcileCreatePod, with the key of the node. */
  function CreatePod(s: Info, node: string, pod: string): Info {
    if pod in Lookup(s.pods, node) then s
    else
      s.(creating := s.creating[node := Lookup(s.creating, node) + {pod}],
         nodes := if node in s.nodes && s.nodes[node] == Active then s.nodes else s.nodes[node := Pending])
  }

  /** reconcileDeletePod. */
  function DeletePod(s: Info, node: string, pod: string): Info {
    var terminating := Lookup(s.terminating, node) + {pod};
    s.(terminating := s.terminating[node := terminating],
       nodes := if terminating == Lookup(s.pods, node) && pod !in Lookup(s.creating, node)
                then s.nodes[node := Terminating] else s.nodes)
  }

  // ---- One pass over all nodes ----

  datatype Class = New | StillCreate | StillDelete | Deleted | Invalid

  /** networkNodeState. */
  function Classify(s: Info, node: string): Class {
    var c, p, t := Lookup(s.creating, node), Lookup(s.pods, node), Lookup(s.terminating, node);
    if c != {} && p == {} then New
    else if c != {} && p != {} then StillCreate
    else if t == p && p != {} then StillDelete
    else if t != {} then Deleted
    else Invalid
  }

  /** A pass in progress: the maps, and the finalizers to remove and to add at its end. */
  datatype Pass = Pass(info: Info, removed: set<string>, added: set<string>)

  /** A node that waits for its streams: the only case in which the pass touches the streams of its domain. */
  predicate Provisions(s: Info, node: string) {
    Classify(s, node) == New && node in s.nodes && s.nodes[node] == Pending
  }

  function Activate(s: Info, node: string): Info {
    s.(nodes := s.nodes[node := Active],
       pods := s.pods[node := Lookup(s.pods, node) + Lookup(s.creating, node)],
       creating := s.creating - {node})
  }

  /** Moves the creating pods of EVERY node, not only of the visited one. */
  function DrainAll(s: Info): Info {
    s.(pods := map n | n in s.pods.Keys + s.creating.Keys :: Lookup(s.pods, n) + Lookup(s.creating, n),
       creating := map[])
  }

  function Forget(s: Info, node: string): Info {
    s.(nodes := s.nodes - {node}, pods := s.pods - {node}, terminating := s.terminating - {node})
  }

  function DropTerminated(s: Info, node: string): Info {
    s.(pods := if node in s.pods then s.pods[node := s.pods[node] - Lookup(s.terminating, node)] else s.pods,
       terminating := s.terminating - {node})
  }

  /** The body of the pass for one node; `ok` holds the nodes whose streams are provided without an error. */
  function Visit(b: Pass, node: string, ok: set<string>): Pass {
    var s := b.info;
    match Classify(s, node)
    case New =>
      if Provisions(s, node) && node in ok
      then b.(info := Activate(s, node), added := b.added + {node}) else b
    case StillCreate => b.(info := DrainAll(s))
    case StillDelete =>
      if node in s.nodes && s.nodes[node] == Terminating
      then b.(info := Forget(s, node), removed := b.removed + {node}) else b
    case Deleted => b.(info := DropTerminated(s, node), removed := b.removed + {node})
    case Invalid => b
  }

  function Walk(b: Pass, order: seq<string>, ok: set<string>): Pass
    decreases order
  {
    if order == [] then b else Walk(Visit(b, order[0], ok), order[1..], ok)
  }

  /** reconcileJetstreams: visits the nodes in some order, then edits the finalizers. */
  function RunPass(w: Network, order: seq<string>, ok: set<string>): Network {
    var b := Walk(Pass(w.info, {}, {}), order, ok);
    Network(b.info, (w.finalizers - b.removed) + b.added)
  }

  /** Go visits the keys of Nodes in an unspecified order, each once. */
  ghost predicate IsOrder(order: seq<string>, nodes: map<string, NodeState>) {
    && (forall i, j :: 0 <= i < j < |order| ==> order[i] != order[j])
    && (forall n :: n in order <==> n in nodes)
  }
}
