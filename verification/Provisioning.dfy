/** Creating the node-located streams of a domain, with retries, and what "active" then means. */
module Provisioning {
  import opened NetworkSpec
  import opened Options
  import opened Participation
  import opened LocalView
  import opened Runs
  import PassTheorems

  type Domains = map<string, set<string>>

  /** What the stream server answers to one Exists/Create pair. A failing creation may have been stored. */
  datatype Answer = Answer(existsFails: bool, createFails: bool, stored: bool)

  /** The answers, by domain, attempt and index of the stream. */
  type Server = (string, nat, nat) -> Answer

  const ATTEMPTS := 5

  function Present(d: Domains, domain: string): set<string> {
    if domain in d then d[domain] else {}
  }

  /** The name Create uses; Exists is asked about the bare stream name. */
  function CreatedName(network: string, stream: string): string {
    network + "_" + stream
  }

  /** One attempt on streams[i..]: success, and the streams present afterwards. */
  function Attempt(network: string, streams: seq<StreamSpec>, domain: string, attempt: nat, i: nat,
                   present: set<string>, server: Server): (bool, set<string>)
    decreases |streams| - i
  {
    if i >= |streams| then (true, present)
    else
      var answer, created := server(domain, attempt, i), present + {CreatedName(network, streams[i].name)};
      if streams[i].location != "node" then Attempt(network, streams, domain, attempt, i + 1, present, server)
      else if answer.existsFails then (false, present)
      else if streams[i].name in present then Attempt(network, streams, domain, attempt, i + 1, present, server)
      else if answer.createFails then (false, if answer.stored then created else present)
      else Attempt(network, streams, domain, attempt, i + 1, created, server)
  }

  /** The streams present after the attempts from `attempt` on. */
  function Retried(network: string, streams: seq<StreamSpec>, domain: string, attempt: nat,
                   present: set<string>, server: Server): set<string>
    decreases ATTEMPTS - attempt
  {
    if attempt >= ATTEMPTS then present
    else
      var (done, present') := Attempt(network, streams, domain, attempt, 0, present, server);
      if done then present' else Retried(network, streams, domain, attempt + 1, present', server)
  }

  /** The error flag is set by any failing attempt and never cleared: a node passes iff its FIRST attempt does. */
  predicate FirstTry(network: string, streams: seq<StreamSpec>, domain: string, d: Domains, server: Server) {
    Attempt(network, streams, domain, 0, 0, Present(d, domain), server).0
  }

  /** Every node-located stream is there, under its own name or under the name Create gives it. */
  ghost predicate Provided(network: string, streams: seq<StreamSpec>, present: set<string>) {
    forall i :: 0 <= i < |streams| && streams[i].location == "node" ==>
      streams[i].name in present || CreatedName(network, streams[i].name) in present
  }

  lemma {:induction false} AttemptProvides(network: string, streams: seq<StreamSpec>, domain: string, attempt: nat,
                                           i: nat, present: set<string>, server: Server)
    ensures var r := Attempt(network, streams, domain, attempt, i, present, server);
            && present <= r.1
            && (r.0 ==> forall j :: i <= j < |streams| && streams[j].location == "node" ==>
                  streams[j].name in r.1 || CreatedName(network, streams[j].name) in r.1)
    decreases |streams| - i
  {
    if i < |streams| {
      AttemptProvides(network, streams, domain, attempt, i + 1, present, server);
      var created := CreatedName(network, streams[i].name);
      AttemptProvides(network, streams, domain, attempt, i + 1, present + {created}, server);
    }
  }

  /** Retrying only ever adds streams, and a node whose first attempt passes is fully provided. */
  lemma {:induction false} RetriedGrows(network: string, streams: seq<StreamSpec>, domain: string, attempt: nat,
                                        present: set<string>, server: Server)
    ensures present <= Retried(network, streams, domain, attempt, present, server)
    ensures attempt < ATTEMPTS && Attempt(network, streams, domain, attempt, 0, present, server).0 ==>
              Provided(network, streams, Retried(network, streams, domain, attempt, present, server))
    decreases ATTEMPTS - attempt
  {
    if attempt < ATTEMPTS {
      AttemptProvides(network, streams, domain, attempt, 0, present, server);
      var (done, present') := Attempt(network, streams, domain, attempt, 0, present, server);
      RetriedGrows(network, streams, domain, attempt + 1, present', server);
    }
  }

  // ---- What exactly is created ----

  /** An attempt creates nothing but node-located streams whose bare name was missing, under the network's prefix. */
  lemma {:induction false} AttemptCreates(network: string, streams: seq<StreamSpec>, domain: string, attempt: nat,
                                          i: nat, present: set<string>, server: Server)
    ensures forall x :: x in Attempt(network, streams, domain, attempt, i, present, server).1 && x !in present ==>
              exists j :: i <= j < |streams| && streams[j].location == "node" && streams[j].name !in present &&
                          x == network + "_" + streams[j].name
    decreases |streams| - i
  {
    if i < |streams| {
      var created := CreatedName(network, streams[i].name);
      AttemptCreates(network, streams, domain, attempt, i + 1, present, server);
      AttemptCreates(network, streams, domain, attempt, i + 1, present + {created}, server);
    }
  }

  /** So do all attempts together. */
  lemma {:induction false} RetriedCreates(network: string, streams: seq<StreamSpec>, domain: string, attempt: nat,
                                          present: set<string>, server: Server)
    ensures forall x :: x in Retried(network, streams, domain, attempt, present, server) && x !in present ==>
              exists j :: 0 <= j < |streams| && streams[j].location == "node" && streams[j].name !in present &&
                          x == network + "_" + streams[j].name
    decreases ATTEMPTS - attempt
  {
    if attempt < ATTEMPTS {
      var (done, present') := Attempt(network, streams, domain, attempt, 0, present, server);
      AttemptCreates(network, streams, domain, attempt, 0, present, server);
      AttemptProvides(network, streams, domain, attempt, 0, present, server);
      RetriedCreates(network, streams, domain, attempt + 1, present', server);
    }
  }

  /** Different streams of a network get different names. */
  lemma CreatedNamesDiffer(network: string, a: string, b: string)
    ensures CreatedName(network, a) == CreatedName(network, b) <==> a == b
    ensures network < CreatedName(network, a) && CreatedName(network, a)[|network|] == '_'
  {
    assert CreatedName(network, a)[|network| + 1..] == a && CreatedName(network, b)[|network| + 1..] == b;
    assert CreatedName(network, a)[..|network|] == network;
  }

  /** Streams located elsewhere make no difference, neither their specs nor what the server would say about them. */
  lemma {:induction false} ElsewhereIsIrrelevant(network: string, streams: seq<StreamSpec>, streams': seq<StreamSpec>,
                                                 domain: string, attempt: nat, i: nat, present: set<string>,
                                                 server: Server, server': Server)
    requires |streams| == |streams'|
    requires forall j :: 0 <= j < |streams| ==>
               if streams[j].location == "node"
               then streams'[j] == streams[j] && server(domain, attempt, j) == server'(domain, attempt, j)
               else streams'[j].location != "node"
    ensures Attempt(network, streams, domain, attempt, i, present, server)
            == Attempt(network, streams', domain, attempt, i, present, server')
    decreases |streams| - i
  {
    if i < |streams| {
      var created := present + {CreatedName(network, streams[i].name)};
      ElsewhereIsIrrelevant(network, streams, streams', domain, attempt, i + 1, present, server, server');
      ElsewhereIsIrrelevant(network, streams, streams', domain, attempt, i + 1, created, server, server');
    }
  }

  // ---- When an attempt succeeds ----

  /** No stream has the name that another one gets when it is created. */
  ghost predicate NoClash(network: string, streams: seq<StreamSpec>) {
    forall j, k :: 0 <= j < |streams| && 0 <= k < |streams| ==> streams[j].name != network + "_" + streams[k].name
  }

  /** The server's answers let an attempt get past a stream. */
  predicate GetsPast(s: StreamSpec, present: set<string>, answer: Answer) {
    s.location == "node" ==> !answer.existsFails && (s.name in present || !answer.createFails)
  }

  function NewNames(network: string, streams: seq<StreamSpec>, i: nat, k: nat, present: set<string>): set<string>
    requires k <= |streams|
  {
    set j | i <= j < k && streams[j].location == "node" && streams[j].name !in present ::
      network + "_" + streams[j].name
  }

  function NewName(network: string, s: StreamSpec, present: set<string>): set<string> {
    if s.location == "node" && s.name !in present then {network + "_" + s.name} else {}
  }

  lemma NewNamesStep(network: string, streams: seq<StreamSpec>, i: nat, k: nat, present: set<string>)
    requires NoClash(network, streams) && i < k <= |streams|
    ensures var one := NewName(network, streams[i], present);
            && NewNames(network, streams, i, k, present) == one + NewNames(network, streams, i + 1, k, present + one)
            && (forall j :: 0 <= j < |streams| ==> (streams[j].name in present + one <==> streams[j].name in present))
  {
  }

  /** Getting past one stream. */
  lemma AttemptStep(network: string, streams: seq<StreamSpec>, domain: string, attempt: nat, i: nat,
                    present: set<string>, server: Server)
    requires i < |streams|
    ensures GetsPast(streams[i], present, server(domain, attempt, i)) ==>
              Attempt(network, streams, domain, attempt, i, present, server) ==
              Attempt(network, streams, domain, attempt, i + 1, present + NewName(network, streams[i], present), server)
    ensures !GetsPast(streams[i], present, server(domain, attempt, i)) ==>
              Attempt(network, streams, domain, attempt, i, present, server) ==
              (false, present + if !server(domain, attempt, i).existsFails && server(domain, attempt, i).stored
                                then {network + "_" + streams[i].name} else {})
  {
    assert present + {} == present;
  }

  /** An attempt succeeds exactly if the answers let it get past all its streams, and has then created the missing
      ones. */
  lemma {:induction false} AttemptSucceedsIff(network: string, streams: seq<StreamSpec>, domain: string, attempt: nat,
                                              i: nat, present: set<string>, server: Server)
    requires NoClash(network, streams) && i <= |streams|
    ensures var r := Attempt(network, streams, domain, attempt, i, present, server);
            && (r.0 <==> forall j :: i <= j < |streams| ==> GetsPast(streams[j], present, server(domain, attempt, j)))
            && (r.0 ==> r.1 == present + NewNames(network, streams, i, |streams|, present))
    decreases |streams| - i
  {
    if i < |streams| {
      AttemptStep(network, streams, domain, attempt, i, present, server);
      if GetsPast(streams[i], present, server(domain, attempt, i)) {
        NewNamesStep(network, streams, i, |streams|, present);
        AttemptSucceedsIff(network, streams, domain, attempt, i + 1, present + NewName(network, streams[i], present),
                           server);
      }
    }
  }

  /** A failing attempt stops at the first stream it does not get past. What it created before stays, and the stream
      itself is there if the failing creation was stored. */
  lemma {:induction false} AttemptStopsAt(network: string, streams: seq<StreamSpec>, domain: string, attempt: nat,
                                          i: nat, present: set<string>, server: Server, j: nat)
    requires NoClash(network, streams) && i <= j < |streams|
    requires forall k :: i <= k < j ==> GetsPast(streams[k], present, server(domain, attempt, k))
    requires !GetsPast(streams[j], present, server(domain, attempt, j))
    ensures var r, answer := Attempt(network, streams, domain, attempt, i, present, server), server(domain, attempt, j);
            && !r.0
            && r.1 == present + NewNames(network, streams, i, j, present) +
                      (if !answer.existsFails && answer.stored then {network + "_" + streams[j].name} else {})
    decreases |streams| - i
  {
    AttemptStep(network, streams, domain, attempt, i, present, server);
    if i < j {
      NewNamesStep(network, streams, i, j, present);
      AttemptStopsAt(network, streams, domain, attempt, i + 1, present + NewName(network, streams[i], present), server,
                     j);
    } else {
      assert present + NewNames(network, streams, i, i, present) == present;
    }
  }

  // ---- Five attempts ----

  /** The streams present before an attempt, if none before it succeeds. */
  function BeforeAttempt(network: string, streams: seq<StreamSpec>, domain: string, attempt: nat, present: set<string>,
                         server: Server): set<string> {
    if attempt == 0 then present
    else
      var before := BeforeAttempt(network, streams, domain, attempt - 1, present, server);
      Attempt(network, streams, domain, attempt - 1, 0, before, server).1
  }

  ghost predicate FailsAt(network: string, streams: seq<StreamSpec>, domain: string, attempt: nat, present: set<string>,
                          server: Server) {
    var before := BeforeAttempt(network, streams, domain, attempt, present, server);
    !Attempt(network, streams, domain, attempt, 0, before, server).0
  }

  lemma {:induction false} AfterFailures(network: string, streams: seq<StreamSpec>, domain: string, attempt: nat,
                                         present: set<string>, server: Server)
    requires attempt <= 5 && forall a :: 0 <= a < attempt ==> FailsAt(network, streams, domain, a, present, server)
    ensures Retried(network, streams, domain, 0, present, server) ==
              Retried(network, streams, domain, attempt,
                      BeforeAttempt(network, streams, domain, attempt, present, server), server)
  {
    if attempt > 0 {
      AfterFailures(network, streams, domain, attempt - 1, present, server);
      assert FailsAt(network, streams, domain, attempt - 1, present, server);
    }
  }

  /** The first successful one of five attempts ends the retries and provides all streams; if all five fail, what they
      created stays. */
  lemma OneOfFive(network: string, streams: seq<StreamSpec>, domain: string, attempt: nat, present: set<string>,
                  server: Server)
    requires attempt <= 5 && forall a :: 0 <= a < attempt ==> FailsAt(network, streams, domain, a, present, server)
    ensures var r := Retried(network, streams, domain, 0, present, server);
            && (attempt == 5 ==> r == BeforeAttempt(network, streams, domain, 5, present, server))
            && (attempt < 5 && !FailsAt(network, streams, domain, attempt, present, server) ==>
                  && r == BeforeAttempt(network, streams, domain, attempt + 1, present, server)
                  && Provided(network, streams, r))
  {
    var before := BeforeAttempt(network, streams, domain, attempt, present, server);
    AfterFailures(network, streams, domain, attempt, present, server);
    AttemptProvides(network, streams, domain, attempt, 0, before, server);
  }

  // ---- Networks together with the streams of their domains ----

  datatype World = World(network: Network, domains: Domains)

  function OkNodes(network: string, streams: seq<StreamSpec>, w: World, server: Server): set<string> {
    set n | n in w.network.info.nodes && FirstTry(network, streams, n, w.domains, server)
  }

  /** The domains whose streams the pass touches. */
  function Tried(b: Pass, order: seq<string>, ok: set<string>): set<string>
    decreases order
  {
    if order == [] then {}
    else (if Provisions(b.info, order[0]) then {order[0]} else {}) + Tried(Visit(b, order[0], ok), order[1..], ok)
  }

  function RetryAll(network: string, streams: seq<StreamSpec>, tried: set<string>, d: Domains, server: Server): Domains
  {
    map n | n in d.Keys + tried ::
      if n in tried then Retried(network, streams, n, 0, Present(d, n), server) else d[n]
  }

  /** Stream for stream, `after` is `before` with the tried domains retried. */
  ghost predicate Provisioned(network: string, streams: seq<StreamSpec>, tried: set<string>, before: Domains,
                              after: Domains, server: Server) {
    forall d :: Present(after, d) ==
                  if d in tried then Retried(network, streams, d, 0, Present(before, d), server) else Present(before, d)
  }

  lemma ProvisionedTwice(network: string, streams: seq<StreamSpec>, t1: set<string>, t2: set<string>,
                         d0: Domains, d1: Domains, d2: Domains, server: Server)
    requires Provisioned(network, streams, t1, d0, d1, server) && Provisioned(network, streams, t2, d1, d2, server)
    requires t1 !! t2
    ensures Provisioned(network, streams, t1 + t2, d0, d2, server)
  {
  }

  lemma RetryAllProvisions(network: string, streams: seq<StreamSpec>, tried: set<string>, d: Domains, server: Server)
    ensures Provisioned(network, streams, tried, d, RetryAll(network, streams, tried, d, server), server)
  {
  }

  /** A pass on the network and on the streams. */
  function PassWorld(network: string, streams: seq<StreamSpec>, w: World, order: seq<string>, server: Server): World {
    var ok := OkNodes(network, streams, w, server);
    World(RunPass(w.network, order, ok),
          RetryAll(network, streams, Tried(Pass(w.network.info, {}, {}), order, ok), w.domains, server))
  }

  lemma {:induction false} AddedWereTried(b: Pass, order: seq<string>, ok: set<string>)
    ensures Walk(b, order, ok).added <= b.added + (Tried(b, order, ok) * ok)
    decreases order
  {
    if order != [] {
      AddedWereTried(Visit(b, order[0], ok), order[1..], ok);
    }
  }

  /** A pass tries the streams of pending nodes only. */
  lemma {:induction false} TriedWerePending(b: Pass, order: seq<string>, ok: set<string>, n: string)
    requires Visitable(b.info, order) && n in Tried(b, order, ok)
    ensures n in order && Of(b.info, n).state == Some(Pending)
    decreases order
  {
    VisitableRest(b, order, ok);
    if !(n == order[0] && Provisions(b.info, order[0])) {
      TriedWerePending(Visit(b, order[0], ok), order[1..], ok, n);
      assert n != order[0];
      VisitOther(b, order[0], ok, n);
    }
  }

  /** A pass creates streams in the domains of pending nodes only, and nothing but their missing node-located
      streams. */
  lemma PassCreates(network: string, streams: seq<StreamSpec>, w: World, order: seq<string>, server: Server, n: string,
                    x: string)
    requires IsOrder(order, w.network.info.nodes)
    requires x !in Present(w.domains, n) && x in Present(PassWorld(network, streams, w, order, server).domains, n)
    ensures n in w.network.info.nodes && w.network.info.nodes[n] == Pending
    ensures exists j :: 0 <= j < |streams| && streams[j].location == "node" &&
              streams[j].name !in Present(w.domains, n) && x == network + "_" + streams[j].name
  {
    PassTheorems.OrderIsVisitable(w.network.info, order);
    TriedWerePending(Pass(w.network.info, {}, {}), order, OkNodes(network, streams, w, server), n);
    assert Of(w.network.info, n).state == Some(Pending);
    RetriedCreates(network, streams, n, 0, Present(w.domains, n), server);
  }

  datatype WorldStep =
    | Event(step: Step)
    | PassStep(order: seq<string>, server: Server)

  ghost predicate EnabledWorld(step: WorldStep, w: World) {
    match step
    case Event(e) => !e.Reconcile?
    case PassStep(order, _) => IsOrder(order, w.network.info.nodes)
  }

  function ApplyWorld(network: string, streams: seq<StreamSpec>, step: WorldStep, w: World): World {
    match step
    case Event(e) => w.(network := Apply(e, w.network))
    case PassStep(order, server) => PassWorld(network, streams, w, order, server)
  }

  ghost predicate ActiveMeansProvided(network: string, streams: seq<StreamSpec>, w: World) {
    forall n :: n in w.network.info.nodes && w.network.info.nodes[n] == Active ==>
      Provided(network, streams, Present(w.domains, n))
  }

  lemma PassGrowsDomains(network: string, streams: seq<StreamSpec>, w: World, order: seq<string>, server: Server,
                         n: string)
    ensures Present(w.domains, n) <= Present(PassWorld(network, streams, w, order, server).domains, n)
  {
    RetriedGrows(network, streams, n, 0, Present(w.domains, n), server);
  }

  lemma ActivatedWasTried(w: Network, order: seq<string>, ok: set<string>, n: string)
    requires IsOrder(order, w.info.nodes) && Of(w.info, n).state != Some(Active)
    requires Of(RunPass(w, order, ok).info, n).state == Some(Active)
    ensures Of(w.info, n).state == Some(Pending) && n in ok && n in Tried(Pass(w.info, {}, {}), order, ok)
  {
    PassTheorems.OrderIsVisitable(w.info, order);
    WalkClosedForm(Pass(w.info, {}, {}), order, ok, n);
    AddedWereTried(Pass(w.info, {}, {}), order, ok);
  }

  /** A pass activates a pending node only if its first attempt succeeded on all streams, and then they are there. */
  lemma ActivatedIsProvided(network: string, streams: seq<StreamSpec>, w: World, order: seq<string>, server: Server,
                            n: string)
    requires IsOrder(order, w.network.info.nodes)
    requires Of(w.network.info, n).state != Some(Active)
    requires Of(PassWorld(network, streams, w, order, server).network.info, n).state == Some(Active)
    ensures Of(w.network.info, n).state == Some(Pending) && FirstTry(network, streams, n, w.domains, server)
    ensures Provided(network, streams, Present(PassWorld(network, streams, w, order, server).domains, n))
  {
    ActivatedWasTried(w.network, order, OkNodes(network, streams, w, server), n);
    RetriedGrows(network, streams, n, 0, Present(w.domains, n), server);
  }

  /** Exactly: a pending node becomes active if and only if its creating pods are its only ones when the pass comes to
      it, and the first attempt succeeds. */
  lemma ActivatedIff(network: string, streams: seq<StreamSpec>, w: World, order: seq<string>, server: Server, n: string)
    requires IsOrder(order, w.network.info.nodes) && Of(w.network.info, n).state == Some(Pending)
    ensures Of(PassWorld(network, streams, w, order, server).network.info, n).state == Some(Active) <==>
              && Lookup(w.network.info.creating, n) != {} && Lookup(w.network.info.pods, n) == {}
              && !Late(w.network.info, order, n)
              && Attempt(network, streams, n, 0, 0, Present(w.domains, n), server).0
  {
    PassTheorems.OrderIsVisitable(w.network.info, order);
    PassTheorems.LocalLookups(w.network.info, n);
    WalkClosedForm(Pass(w.network.info, {}, {}), order, OkNodes(network, streams, w, server), n);
  }

  lemma WorldStepKeeps(network: string, streams: seq<StreamSpec>, step: WorldStep, w: World)
    requires ActiveMeansProvided(network, streams, w) && EnabledWorld(step, w) && Inv(w.network)
    ensures ActiveMeansProvided(network, streams, ApplyWorld(network, streams, step, w))
    ensures Inv(ApplyWorld(network, streams, step, w).network)
  {
    var w' := ApplyWorld(network, streams, step, w);
    match step
    case Event(e) => StepKeepsInv(e, w.network);
    case PassStep(order, server) =>
      var ok := OkNodes(network, streams, w, server);
      StepKeepsInv(Reconcile(order, ok), w.network);
      forall n | n in w'.network.info.nodes && w'.network.info.nodes[n] == Active
        ensures Provided(network, streams, Present(w'.domains, n))
      {
        assert Of(w'.network.info, n).state == Some(Active);
        if Of(w.network.info, n).state == Some(Active) {
          PassGrowsDomains(network, streams, w, order, server, n);
        } else {
          ActivatedIsProvided(network, streams, w, order, server, n);
        }
      }
  }

  ghost predicate ValidWorldRun(network: string, streams: seq<StreamSpec>, w: World, run: seq<WorldStep>)
    decreases run
  {
    run == [] || (EnabledWorld(run[0], w) &&
                  ValidWorldRun(network, streams, ApplyWorld(network, streams, run[0], w), run[1..]))
  }

  function AfterWorld(network: string, streams: seq<StreamSpec>, w: World, run: seq<WorldStep>): World
    decreases run
  {
    if run == [] then w else AfterWorld(network, streams, ApplyWorld(network, streams, run[0], w), run[1..])
  }

  /** Over all runs from a fresh network, whatever streams exist at the start and whatever the server answers. */
  lemma {:induction false} WorldRunKeeps(network: string, streams: seq<StreamSpec>, w: World, run: seq<WorldStep>)
    requires ActiveMeansProvided(network, streams, w) && Inv(w.network) && ValidWorldRun(network, streams, w, run)
    ensures ActiveMeansProvided(network, streams, AfterWorld(network, streams, w, run))
    decreases run
  {
    if run != [] {
      WorldStepKeeps(network, streams, run[0], w);
      WorldRunKeeps(network, streams, ApplyWorld(network, streams, run[0], w), run[1..]);
    }
  }
}
