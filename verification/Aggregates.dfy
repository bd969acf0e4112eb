/** Aggregate streams of the main domain: one source per active node, kept up to date. */
module Aggregates {
  import opened JetstreamConfig
  import opened NetworkSpec
  import opened Options
  import opened Participation
  import opened Slices
  import Durations

  /** A source of a stored stream; the two pointer fields may be nil in streams written by others. */
  datatype Source = Source(name: string, startSeq: nat, startTime: Option<int>, filter: string,
                           external: Option<External>)
  datatype External = External(apiPrefix: string, deliverPrefix: string)

  /** The same without pointers, for comparing. */
  datatype RawSource = RawSource(name: string, startSeq: nat, startTime: int, filter: string, external: External)

  /** What a stream server call answers; NotFound is the NATS error 10059. */
  datatype Reply = Fine | Failed | NotFound

  /** The answers met by one CreateAggregate call. A failing update or creation may have been stored. */
  datatype Answers = Answers(existsFails: bool, load: Reply, update: Reply, createFails: bool, stored: bool)

  function Target(network: string, name: string): string {
    network + "_" + name
  }

  function SourceOf(network: string, stream: string, node: string): Source {
    Source(network + "_" + stream, 0, Some(0), "", Some(External("$JS." + node + ".API", "")))
  }

  function SourcesOf(network: string, stream: string, nodes: seq<string>): (r: seq<Source>)
    ensures |r| == |nodes|
  {
    seq(|nodes|, i requires 0 <= i < |nodes| => SourceOf(network, stream, nodes[i]))
  }

  predicate NoNil(sources: seq<Source>) {
    forall i :: 0 <= i < |sources| ==> sources[i].startTime.Some? && sources[i].external.Some?
  }

  function Raw(s: Source): RawSource
    requires s.startTime.Some? && s.external.Some?
  {
    RawSource(s.name, s.startSeq, s.startTime.value, s.filter, s.external.value)
  }

  function RawAll(sources: seq<Source>): (r: seq<RawSource>)
    requires NoNil(sources)
    ensures |r| == |sources|
  {
    seq(|sources|, i requires 0 <= i < |sources| => Raw(sources[i]))
  }

  /** Dereferences the pointers; the code panics on a nil one. */
  method ConvertSliceOfPointers(sources: seq<Source>) returns (r: seq<RawSource>)
    requires NoNil(sources)
    ensures r == RawAll(sources)
  {
    r := [];
    for i := 0 to |sources|
      invariant r == RawAll(sources)[..i]
    {
      var s := sources[i];
      r := r + [RawSource(s.name, s.startSeq, s.startTime.value, s.filter, s.external.value)];
    }
  }

  // ---- Sources and node sets ----

  /** The node of a source written here. */
  function NodeOf(s: Source): string {
    var prefix := if s.external.Some? then s.external.value.apiPrefix else "";
    if |prefix| >= 8 then prefix[4..|prefix| - 4] else ""
  }

  lemma NodeOfSource(network: string, stream: string, node: string)
    ensures NodeOf(SourceOf(network, stream, node)) == node
  {
    var prefix := "$JS." + node + ".API";
    assert prefix[4..|prefix| - 4] == node;
  }

  lemma SourceInjective(network: string, stream: string, a: string, b: string)
    requires Raw(SourceOf(network, stream, a)) == Raw(SourceOf(network, stream, b))
    ensures a == b
  {
    NodeOfSource(network, stream, a);
    NodeOfSource(network, stream, b);
  }

  /** Distinct nodes give distinct sources. */
  lemma SourcesNoDup(network: string, stream: string, nodes: seq<string>)
    requires NoDup(nodes)
    ensures NoNil(SourcesOf(network, stream, nodes)) && NoDup(RawAll(SourcesOf(network, stream, nodes)))
  {
    forall i, j | 0 <= i < j < |nodes|
      ensures Raw(SourceOf(network, stream, nodes[i])) != Raw(SourceOf(network, stream, nodes[j]))
    {
      if Raw(SourceOf(network, stream, nodes[i])) == Raw(SourceOf(network, stream, nodes[j])) {
        SourceInjective(network, stream, nodes[i], nodes[j]);
      }
    }
  }

  lemma ElemsOfSources(network: string, stream: string, nodes: seq<string>)
    ensures var x := RawAll(SourcesOf(network, stream, nodes));
            && (forall n :: n in Elems(nodes) <==> Raw(SourceOf(network, stream, n)) in Elems(x))
            && (forall r :: r in Elems(x) ==> exists n :: n in Elems(nodes) && r == Raw(SourceOf(network, stream, n)))
  {
    var x := RawAll(SourcesOf(network, stream, nodes));
    forall n | Raw(SourceOf(network, stream, n)) in Elems(x) ensures n in nodes {
      var i :| 0 <= i < |nodes| && x[i] == Raw(SourceOf(network, stream, n));
      SourceInjective(network, stream, n, nodes[i]);
    }
    forall n | n in nodes ensures Raw(SourceOf(network, stream, n)) in x {
      var i :| 0 <= i < |nodes| && nodes[i] == n;
      assert x[i] == Raw(SourceOf(network, stream, n));
    }
    forall r | r in Elems(x) ensures exists n :: n in Elems(nodes) && r == Raw(SourceOf(network, stream, n)) {
      var i :| 0 <= i < |x| && x[i] == r;
      assert nodes[i] in Elems(nodes);
    }
  }

  /** The comparison of UpdateSources on sources built here is a comparison of node sets. */
  lemma SameSourcesSameNodes(network: string, stream: string, a: seq<string>, b: seq<string>)
    requires NoDup(a) && NoDup(b)
    ensures var x, y := RawAll(SourcesOf(network, stream, a)), RawAll(SourcesOf(network, stream, b));
            |x| == |y| && Elems(x) == Elems(y) <==> Elems(a) == Elems(b)
  {
    var x, y := RawAll(SourcesOf(network, stream, a)), RawAll(SourcesOf(network, stream, b));
    ElemsOfSources(network, stream, a);
    ElemsOfSources(network, stream, b);
    NoDupCount(a);
    NoDupCount(b);
    if Elems(x) == Elems(y) {
      forall n ensures n in Elems(a) <==> n in Elems(b) {
        assert n in Elems(a) <==> Raw(SourceOf(network, stream, n)) in Elems(x);
        assert n in Elems(b) <==> Raw(SourceOf(network, stream, n)) in Elems(y);
      }
    }
    if Elems(a) == Elems(b) {
      forall r ensures r in Elems(x) <==> r in Elems(y) {
      }
    }
  }

  /** The stored sources are, up to order, exactly one per node. */
  ghost predicate OnePerNode(stored: seq<Source>, network: string, stream: string, nodes: set<string>) {
    exists order: seq<string> :: NoDup(order) && Elems(order) == nodes && stored == SourcesOf(network, stream, order)
  }

  /** The sources determine the nodes. */
  lemma OnePerNodeUnique(stored: seq<Source>, network: string, stream: string, a: set<string>, b: set<string>)
    requires OnePerNode(stored, network, stream, a)
    ensures OnePerNode(stored, network, stream, b) <==> a == b
  {
    if OnePerNode(stored, network, stream, b) {
      var o1 :| NoDup(o1) && Elems(o1) == a && stored == SourcesOf(network, stream, o1);
      var o2 :| NoDup(o2) && Elems(o2) == b && stored == SourcesOf(network, stream, o2);
      SameSourcesSameNodes(network, stream, o1, o2);
    }
  }

  /** Stored up to date, or nothing stored and nothing to store. */
  ghost predicate Converged(stored: map<string, seq<Source>>, target: string, network: string, stream: string,
                            nodes: set<string>) {
    if target in stored then OnePerNode(stored[target], network, stream, nodes) else nodes == {}
  }

  /** Absent, or without nil pointers, on which the code panics. */
  ghost predicate Readable(stored: map<string, seq<Source>>, target: string) {
    target in stored ==> NoNil(stored[target])
  }

  lemma SourceWrittenHere(source: Source, network: string, stream: string, nodes: seq<string>)
    requires source.startTime.Some? && source.external.Some?
    requires Raw(source) in Elems(RawAll(SourcesOf(network, stream, nodes)))
    ensures NodeOf(source) in nodes && source == SourceOf(network, stream, NodeOf(source))
  {
    var y := RawAll(SourcesOf(network, stream, nodes));
    var j :| 0 <= j < |y| && y[j] == Raw(source);
    assert source == SourceOf(network, stream, nodes[j]);
    NodeOfSource(network, stream, nodes[j]);
  }

  lemma SameSize<T>(a: set<T>, b: set<T>)
    requires a <= b && |a| == |b|
    ensures a == b
  {
    assert |b - a| == |b| - |a|;
  }

  /** Different sources that all are among those of `nodes`, and as many, are one per node. */
  lemma OrderOfSources(sources: seq<Source>, network: string, stream: string, nodes: seq<string>)
    requires NoNil(sources) && NoDup(RawAll(sources)) && NoDup(nodes) && |sources| == |nodes|
    requires Elems(RawAll(sources)) == Elems(RawAll(SourcesOf(network, stream, nodes)))
    ensures OnePerNode(sources, network, stream, Elems(nodes))
  {
    var order := seq(|sources|, i requires 0 <= i < |sources| => NodeOf(sources[i]));
    forall i | 0 <= i < |sources| ensures order[i] in nodes && sources[i] == SourceOf(network, stream, order[i]) {
      assert RawAll(sources)[i] in Elems(RawAll(sources));
      SourceWrittenHere(sources[i], network, stream, nodes);
    }
    forall i, j | 0 <= i < j < |order| ensures order[i] != order[j] {
      assert RawAll(sources)[i] != RawAll(sources)[j];
    }
    NoDupCount(order);
    NoDupCount(nodes);
    SameSize(Elems(order), Elems(nodes));
    assert sources == SourcesOf(network, stream, order);
  }

  /** Whoever wrote the sources: without nil pointers they compare equal to the new ones exactly when they are, up to
      order, one per node. */
  lemma ComparesEqual(sources: seq<Source>, network: string, stream: string, nodes: seq<string>)
    requires NoNil(sources) && NoDup(nodes)
    ensures var x, y := RawAll(sources), RawAll(SourcesOf(network, stream, nodes));
            |x| == |y| && Elems(x) == Elems(y) <==> OnePerNode(sources, network, stream, Elems(nodes))
  {
    var x, y := RawAll(sources), RawAll(SourcesOf(network, stream, nodes));
    SourcesNoDup(network, stream, nodes);
    if |x| == |y| && Elems(x) == Elems(y) {
      SliceEqualIsPermutation(y, x);
      OrderOfSources(sources, network, stream, nodes);
    }
    if OnePerNode(sources, network, stream, Elems(nodes)) {
      var order :| NoDup(order) && Elems(order) == Elems(nodes) && sources == SourcesOf(network, stream, order);
      SameSourcesSameNodes(network, stream, order, nodes);
    }
  }

  // ---- The calls ----

  ghost predicate Current(stored: map<string, seq<Source>>, target: string, network: string, stream: string,
                          nodes: set<string>) {
    target in stored && OnePerNode(stored[target], network, stream, nodes)
  }

  /** The part of CreateAggregate before any stream is touched succeeds. */
  predicate Attempted(stream: StreamSpec, answers: Answers, p: Durations.Platform) {
    FirstError(stream, None, p).None? && stream.link.Some? && !answers.existsFails
  }

  /** What a call does: whether it reports success, whether it swallowed an error for that, whether it wrote the
      sources, and the stored sources afterwards. */
  datatype Effect = Effect(ok: bool, swallowed: bool, written: bool, stored: map<string, seq<Source>>)

  ghost function Aggregated(stored: map<string, seq<Source>>, network: string, stream: StreamSpec, nodes: seq<string>,
                            answers: Answers, p: Durations.Platform): Effect {
    if !Attempted(stream, answers, p) then Effect(false, false, false, stored)
    else
      var target, link := Target(network, stream.name), stream.link.value;
      var after := stored[target := SourcesOf(network, link, nodes)];
      if target !in stored then
        var written := nodes != [] && (!answers.createFails || answers.stored);
        Effect(nodes == [] || !answers.createFails, false, written, if written then after else stored)
      else if answers.load == Fine && !Current(stored, target, network, link, Elems(nodes)) then
        var written := answers.update == Fine || answers.stored;
        Effect(answers.update != Failed, answers.update == NotFound, written, if written then after else stored)
      else
        Effect(answers.load != Failed, answers.load == NotFound, false, stored)
  }

  /** A call reports success exactly when every answer it depends on is favourable, or is the swallowed error. */
  lemma SucceedsIff(stored: map<string, seq<Source>>, network: string, stream: StreamSpec, nodes: seq<string>,
                    answers: Answers, p: Durations.Platform)
    ensures var target := Target(network, stream.name);
            Aggregated(stored, network, stream, nodes, answers, p).ok <==>
              && Attempted(stream, answers, p)
              && (if target !in stored then nodes == [] || !answers.createFails
                  else if answers.load != Fine then answers.load == NotFound
                  else Current(stored, target, network, stream.link.value, Elems(nodes)) || answers.update != Failed)
  {
  }

  /** Without a valid configuration, without a link, or when the Exists call fails, a call fails and does nothing. */
  lemma FailsEarly(stored: map<string, seq<Source>>, network: string, stream: StreamSpec, nodes: seq<string>,
                   answers: Answers, p: Durations.Platform)
    ensures answers.existsFails || stream.link.None? || FirstError(stream, None, p).Some? ==>
              Aggregated(stored, network, stream, nodes, answers, p) == Effect(false, false, false, stored)
    ensures !answers.existsFails && stream.link.Some? && FirstError(stream, None, p).None? && answers.load == Fine &&
            answers.update == Fine && !answers.createFails ==>
              Aggregated(stored, network, stream, nodes, answers, p).ok
  {
  }

  /** After a call that reports success the stored sources are, up to order, one per node (or there are none and no
      node is active), exactly unless the existing sources were out of date and an error kept them from being
      rewritten. Such an error can only be the swallowed one. */
  lemma ConvergesIff(stored: map<string, seq<Source>>, network: string, stream: StreamSpec, nodes: seq<string>,
                     answers: Answers, p: Durations.Platform)
    requires NoDup(nodes) && Aggregated(stored, network, stream, nodes, answers, p).ok
    ensures var target, link, r := Target(network, stream.name), stream.link.value,
                                   Aggregated(stored, network, stream, nodes, answers, p);
            && (Converged(r.stored, target, network, link, Elems(nodes)) <==>
                  || target !in stored || Current(stored, target, network, link, Elems(nodes))
                  || (answers.load == Fine && (answers.update == Fine || answers.stored)))
            && (!r.swallowed ==> Converged(r.stored, target, network, link, Elems(nodes)))
            && (!r.swallowed && target in stored ==>
                  (r.written <==> !Current(stored, target, network, link, Elems(nodes))))
  {
    assert OnePerNode(SourcesOf(network, stream.link.value, nodes), network, stream.link.value, Elems(nodes));
    EmptyElems(nodes);
  }

  lemma NothingPerNode(network: string, stream: string, node: string)
    ensures !OnePerNode([], network, stream, {node})
  {
    forall order: seq<string> | SourcesOf(network, stream, order) == [] ensures Elems(order) != {node} {
      assert |SourcesOf(network, stream, order)| == |order|;
      EmptyElems(order);
    }
  }

  /** For instance an aggregate without sources whose stream cannot be loaded with error 10059: the call reports
      success, and the active node is missing. */
  lemma SwallowedErrorDiverges(network: string, stream: StreamSpec, node: string, p: Durations.Platform)
    requires FirstError(stream, None, p).None? && stream.link.Some?
    ensures var target := Target(network, stream.name);
            var answers := Answers(false, NotFound, Fine, false, false);
            var r := Aggregated(map[target := []], network, stream, [node], answers, p);
            r.ok && r.stored == map[target := []] && !Converged(r.stored, target, network, stream.link.value, {node})
  {
    var target := Target(network, stream.name);
    var stored: map<string, seq<Source>> := map[target := []];
    assert Elems([node]) == {node};
    NothingPerNode(network, stream.link.value, node);
    ConvergesIff(stored, network, stream, [node], Answers(false, NotFound, Fine, false, false), p);
  }

  /** Other streams are left alone, and what is written can be read again. */
  lemma OthersUntouched(stored: map<string, seq<Source>>, network: string, stream: StreamSpec, nodes: seq<string>,
                        answers: Answers, p: Durations.Platform)
    requires NoDup(nodes)
    ensures var target, r := Target(network, stream.name), Aggregated(stored, network, stream, nodes, answers, p);
            && (forall t :: t != target ==> (t in r.stored <==> t in stored))
            && (forall t :: t != target && t in r.stored ==> r.stored[t] == stored[t])
            && (Readable(stored, target) ==> Readable(r.stored, target))
            && (if r.written
                then stream.link.Some? && r.stored == stored[target := SourcesOf(network, stream.link.value, nodes)]
                else r.stored == stored)
  {
    if stream.link.Some? {
      SourcesNoDup(network, stream.link.value, nodes);
    }
  }

  class MainStreams {
    var stored: map<string, seq<Source>>

    constructor (stored: map<string, seq<Source>>)
      ensures this.stored == stored
    {
      this.stored := stored;
    }

    /** Rewrites the sources only if they differ as sets. */
    method UpdateSources(target: string, sources: seq<Source>, answers: Answers) returns (reply: Reply, written: bool)
      requires target in stored && NoNil(stored[target]) && NoNil(sources)
      modifies this
      ensures var same := |old(stored)[target]| == |sources| &&
                          Elems(RawAll(old(stored)[target])) == Elems(RawAll(sources));
              && reply == (if answers.load != Fine then answers.load else if same then Fine else answers.update)
              && (written <==> answers.load == Fine && !same && (answers.update == Fine || answers.stored))
              && stored == if written then old(stored)[target := sources] else old(stored)
    {
      written := false;
      if answers.load != Fine {
        return answers.load, false;
      }
      var upstream := ConvertSliceOfPointers(stored[target]);
      var raw := ConvertSliceOfPointers(sources);
      var same := SliceEqual(upstream, raw);
      if !same {
        if answers.update == Fine || answers.stored {
          stored := stored[target := sources];
          written := true;
        }
        if answers.update != Fine {
          return answers.update, written;
        }
      }
      return Fine, written;
    }

    /** `swallowed` marks the one error that is not reported. */
    method CreateAggregate(network: string, stream: StreamSpec, sourceDomains: seq<string>, answers: Answers,
                           p: Durations.Platform) returns (ok: bool, swallowed: bool, written: bool)
      requires NoDup(sourceDomains)
      requires Readable(stored, Target(network, stream.name))
      modifies this
      ensures Effect(ok, swallowed, written, stored)
              == Aggregated(old(stored), network, stream, sourceDomains, answers, p)
      ensures ok && !swallowed ==>
                stream.link.Some? &&
                Converged(stored, Target(network, stream.name), network, stream.link.value, Elems(sourceDomains))
      ensures Readable(stored, Target(network, stream.name))
    {
      ok, swallowed, written := false, false, false;
      OthersUntouched(stored, network, stream, sourceDomains, answers, p);
      if Aggregated(stored, network, stream, sourceDomains, answers, p).ok {
        ConvergesIff(stored, network, stream, sourceDomains, answers, p);
      }
      var config := CreateJetstreamConfig("", stream, None, p);
      if config.Err? || stream.link.None? {
        return;
      }
      var link := stream.link.value;
      var sources: seq<Source> := [];
      for i := 0 to |sourceDomains|
        invariant sources == SourcesOf(network, link, sourceDomains)[..i]
      {
        sources := sources + [SourceOf(network, link, sourceDomains[i])];
      }
      assert sources == SourcesOf(network, link, sourceDomains);
      var target := Target(network, stream.name);
      if answers.existsFails {
        return;
      }
      if target in stored {
        SourcesNoDup(network, link, sourceDomains);
        ComparesEqual(stored[target], network, link, sourceDomains);
        var reply, w := UpdateSources(target, sources, answers);
        written := w;
        if reply == Failed {
          return;
        }
        ok, swallowed := true, reply == NotFound;
      } else {
        if |sources| > 0 {
          if !answers.createFails || answers.stored {
            stored := stored[target := sources];
            written := true;
          }
          if answers.createFails {
            return;
          }
        }
        ok := true;
      }
    }
  }

  ghost function ActiveSet(nodes: map<string, NodeState>): set<string> {
    set n | n in nodes && nodes[n] == Active
  }

  /** The active nodes, in the order of the keys. */
  function ActiveIn(nodes: map<string, NodeState>, order: seq<string>): seq<string> {
    if order == [] then []
    else
      var init, last := ActiveIn(nodes, order[..|order| - 1]), order[|order| - 1];
      if last in nodes && nodes[last] == Active then init + [last] else init
  }

  lemma {:induction false} ActiveInOrder(nodes: map<string, NodeState>, order: seq<string>)
    requires NoDup(order)
    ensures NoDup(ActiveIn(nodes, order))
    ensures forall n :: n in ActiveIn(nodes, order) <==> n in order && n in nodes && nodes[n] == Active
  {
    if order != [] {
      var init, last := order[..|order| - 1], order[|order| - 1];
      ActiveInOrder(nodes, init);
      assert order == init + [last] && last !in init;
    }
  }

  lemma ActiveInIsActiveSet(nodes: map<string, NodeState>, order: seq<string>)
    requires IsOrder(order, nodes)
    ensures NoDup(ActiveIn(nodes, order)) && Elems(ActiveIn(nodes, order)) == ActiveSet(nodes)
    ensures forall n :: n in ActiveSet(nodes) <==> n in nodes && nodes[n] == Active
  {
    ActiveInOrder(nodes, order);
  }

  /** The nodes createMainJetstreams hands over: the active ones, in the order Go ranges over the map. */
  method ActiveNodes(nodes: map<string, NodeState>, order: seq<string>) returns (active: seq<string>)
    requires IsOrder(order, nodes)
    ensures active == ActiveIn(nodes, order)
    ensures NoDup(active) && forall n :: n in active <==> n in nodes && nodes[n] == Active
  {
    active := [];
    for i := 0 to |order|
      invariant active == ActiveIn(nodes, order[..i])
    {
      assert order[..i + 1][..i] == order[..i] && order[i] in order;
      if nodes[order[i]] == Active {
        active := active + [order[i]];
      }
    }
    assert order[..|order|] == order;
    ActiveInOrder(nodes, order);
  }

  // ---- All aggregates of a network ----

  /** The streams of the main domain, with a link or without. */
  function MainOf(streams: seq<StreamSpec>, linked: bool): seq<StreamSpec> {
    if streams == [] then []
    else
      var init, last := MainOf(streams[..|streams| - 1], linked), streams[|streams| - 1];
      if last.location == "main" && last.link.Some? == linked then init + [last] else init
  }

  lemma {:induction false} MainOfIff(streams: seq<StreamSpec>, linked: bool, s: StreamSpec)
    ensures s in MainOf(streams, linked) <==> s in streams && s.location == "main" && s.link.Some? == linked
  {
    if streams != [] {
      MainOfIff(streams[..|streams| - 1], linked, s);
      assert streams == streams[..|streams| - 1] + [streams[|streams| - 1]];
    }
  }

  lemma {:induction false} MainOfConcat(a: seq<StreamSpec>, b: seq<StreamSpec>, linked: bool)
    ensures MainOf(a + b, linked) == MainOf(a, linked) + MainOf(b, linked)
  {
    if b == [] {
      assert a + b == a;
    } else {
      MainOfConcat(a, b[..|b| - 1], linked);
      assert (a + b)[..|a + b| - 1] == a + b[..|b| - 1];
    }
  }

  /** Two streams of the main domain keep their order. */
  lemma MainInOrder(a: seq<StreamSpec>, s: StreamSpec, b: seq<StreamSpec>, linked: bool)
    requires s.location == "main" && s.link.Some? == linked
    ensures MainOf(a + [s] + b, linked) == MainOf(a, linked) + [s] + MainOf(b, linked)
  {
    MainOfConcat(a + [s], b, linked);
    MainOfConcat(a, [s], linked);
    assert [s][..0] == [];
  }

  method SelectStreams(streams: seq<StreamSpec>) returns (standard: seq<StreamSpec>, aggregates: seq<StreamSpec>)
    ensures standard == MainOf(streams, false) && aggregates == MainOf(streams, true)
  {
    standard, aggregates := [], [];
    for i := 0 to |streams|
      invariant standard == MainOf(streams[..i], false) && aggregates == MainOf(streams[..i], true)
    {
      assert streams[..i + 1][..i] == streams[..i];
      if streams[i].location == "main" {
        if streams[i].link.Some? {
          aggregates := aggregates + [streams[i]];
          continue;
        }
        standard := standard + [streams[i]];
      }
    }
    assert streams[..|streams|] == streams;
  }

  datatype AggregateInfo = AggregateInfo(sourceDomains: seq<string>, sourceName: string, state: string)

  /** One round of the aggregate loop: the linked stream, the order in which Go ranges over the nodes, and the
      answers of the stream server. */
  datatype Call = Call(stream: StreamSpec, order: seq<string>, answers: Answers)

  ghost predicate ValidCalls(calls: seq<Call>, nodes: map<string, NodeState>) {
    forall i :: 0 <= i < |calls| ==> calls[i].stream.link.Some? && IsOrder(calls[i].order, nodes)
  }

  ghost predicate AllReadable(stored: map<string, seq<Source>>, network: string, calls: seq<Call>) {
    forall i :: 0 <= i < |calls| ==> Readable(stored, Target(network, calls[i].stream.name))
  }

  /** The books, the stored sources, and which targets were written, with the linked stream. */
  datatype Books = Books(info: map<string, AggregateInfo>, stored: map<string, seq<Source>>, links: map<string, string>)

  ghost function EffectOf(b: Books, call: Call, network: string, nodes: map<string, NodeState>,
                          p: Durations.Platform): Effect {
    Aggregated(b.stored, network, call.stream, ActiveIn(nodes, call.order), call.answers, p)
  }

  /** One round. */
  ghost function BookOne(b: Books, call: Call, network: string, nodes: map<string, NodeState>,
                         p: Durations.Platform): Books {
    var r, name := EffectOf(b, call, network, nodes, p), call.stream.name;
    Books(b.info[name := AggregateInfo(ActiveIn(nodes, call.order), name, if r.ok then "created" else "error")],
          r.stored,
          if r.written && call.stream.link.Some? then b.links[Target(network, name) := call.stream.link.value]
          else b.links)
  }

  ghost function BookAll(b: Books, calls: seq<Call>, network: string, nodes: map<string, NodeState>,
                         p: Durations.Platform): Books {
    if calls == [] then b
    else BookOne(BookAll(b, calls[..|calls| - 1], network, nodes, p), calls[|calls| - 1], network, nodes, p)
  }

  lemma TargetsDiffer(network: string, a: string, b: string)
    requires Target(network, a) == Target(network, b)
    ensures a == b
  {
    assert Target(network, a)[|network| + 1..] == a;
    assert Target(network, b)[|network| + 1..] == b;
  }

  /** No later round is about the stream of round `i`. */
  ghost predicate LastOfName(calls: seq<Call>, i: nat)
    requires i < |calls|
  {
    forall j :: i < j < |calls| ==> calls[j].stream.name != calls[i].stream.name
  }

  ghost predicate Unnamed(calls: seq<Call>, name: string) {
    forall i :: 0 <= i < |calls| ==> calls[i].stream.name != name
  }

  lemma OtherRound(b: Books, call: Call, network: string, nodes: map<string, NodeState>, p: Durations.Platform,
                   name: string)
    requires IsOrder(call.order, nodes) && call.stream.name != name
    ensures var b', t := BookOne(b, call, network, nodes, p), Target(network, name);
            && (t in b'.stored <==> t in b.stored) && (t in b.stored ==> b'.stored[t] == b.stored[t])
            && (name in b'.info <==> name in b.info) && (name in b.info ==> b'.info[name] == b.info[name])
  {
    ActiveInIsActiveSet(nodes, call.order);
    OthersUntouched(b.stored, network, call.stream, ActiveIn(nodes, call.order), call.answers, p);
    if Target(network, name) == Target(network, call.stream.name) {
      TargetsDiffer(network, name, call.stream.name);
    }
  }

  /** The rounds about other streams change neither the books nor the sources of a stream. */
  lemma {:induction false} OtherRounds(b: Books, calls: seq<Call>, network: string, nodes: map<string, NodeState>,
                                       p: Durations.Platform, name: string)
    requires ValidCalls(calls, nodes) && Unnamed(calls, name)
    ensures var b', t := BookAll(b, calls, network, nodes, p), Target(network, name);
            && (t in b'.stored <==> t in b.stored) && (t in b.stored ==> b'.stored[t] == b.stored[t])
            && (name in b'.info <==> name in b.info) && (name in b.info ==> b'.info[name] == b.info[name])
  {
    if calls != [] {
      var init := calls[..|calls| - 1];
      OtherRounds(b, init, network, nodes, p, name);
      OtherRound(BookAll(b, init, network, nodes, p), calls[|calls| - 1], network, nodes, p, name);
    }
  }

  /** The last round about a stream decides: the books name the active nodes and say "created" exactly when its call
      reported success, and what it left stored stays. */
  lemma {:induction false} LastRoundCounts(b: Books, calls: seq<Call>, network: string, nodes: map<string, NodeState>,
                                           p: Durations.Platform, i: nat)
    requires ValidCalls(calls, nodes) && i < |calls| && LastOfName(calls, i)
    ensures var s, b' := calls[i].stream, BookAll(b, calls, network, nodes, p);
            var r, t := EffectOf(BookAll(b, calls[..i], network, nodes, p), calls[i], network, nodes, p),
                        Target(network, s.name);
            && s.name in b'.info
            && b'.info[s.name] == AggregateInfo(ActiveIn(nodes, calls[i].order), s.name,
                                                if r.ok then "created" else "error")
            && (t in b'.stored <==> t in r.stored) && (t in r.stored ==> b'.stored[t] == r.stored[t])
    decreases |calls|
  {
    var init, last := calls[..|calls| - 1], calls[|calls| - 1];
    assert init[..i] == calls[..i];
    if i < |calls| - 1 {
      LastRoundCounts(b, init, network, nodes, p, i);
      OtherRound(BookAll(b, init, network, nodes, p), last, network, nodes, p, calls[i].stream.name);
    } else {
      assert init == calls[..i];
    }
  }

  /** The books against what is stored, exactly: "created" means success of the call, and then the stored sources are
      one per active node unless the swallowed error kept existing ones from being rewritten. The sources before the
      round are those before the loop if no other round has the same name (OtherRounds). */
  lemma CreatedIsConverged(b: Books, calls: seq<Call>, network: string, nodes: map<string, NodeState>,
                           p: Durations.Platform, i: nat)
    requires ValidCalls(calls, nodes) && i < |calls| && LastOfName(calls, i)
    ensures var s, b', before := calls[i].stream, BookAll(b, calls, network, nodes, p),
                                 BookAll(b, calls[..i], network, nodes, p).stored;
            var t, link, answers, active := Target(network, s.name), s.link.value, calls[i].answers, ActiveSet(nodes);
            && s.name in b'.info
            && (b'.info[s.name].state == "created" <==>
                  && Attempted(s, answers, p)
                  && (if t !in before then active == {} || !answers.createFails
                      else if answers.load != Fine then answers.load == NotFound
                      else Current(before, t, network, link, active) || answers.update != Failed))
            && (b'.info[s.name].state == "created" ==>
                  (Converged(b'.stored, t, network, link, active) <==>
                     || t !in before || Current(before, t, network, link, active)
                     || (answers.load == Fine && (answers.update == Fine || answers.stored))))
  {
    var before := BookAll(b, calls[..i], network, nodes, p).stored;
    var active := ActiveIn(nodes, calls[i].order);
    LastRoundCounts(b, calls, network, nodes, p, i);
    ActiveInIsActiveSet(nodes, calls[i].order);
    EmptyElems(active);
    SucceedsIff(before, network, calls[i].stream, active, calls[i].answers, p);
    if Aggregated(before, network, calls[i].stream, active, calls[i].answers, p).ok {
      ConvergesIff(before, network, calls[i].stream, active, calls[i].answers, p);
    }
  }

  /** What was written is one source per active node, the rest is as it was. */
  ghost predicate WrittenFrom(b: Books, stored: map<string, seq<Source>>, network: string, active: set<string>) {
    && (forall t :: t in b.links ==> t in b.stored && OnePerNode(b.stored[t], network, b.links[t], active))
    && (forall t :: t !in b.links ==> (t in b.stored <==> t in stored))
    && (forall t :: t !in b.links && t in stored ==> b.stored[t] == stored[t])
  }

  lemma WriteOne(b: Books, stored: map<string, seq<Source>>, network: string, active: set<string>, target: string,
                 link: string, sources: seq<Source>, info: map<string, AggregateInfo>)
    requires WrittenFrom(b, stored, network, active) && OnePerNode(sources, network, link, active)
    ensures WrittenFrom(Books(info, b.stored[target := sources], b.links[target := link]), stored, network, active)
  {
  }

  lemma WrittenStep(b: Books, stored: map<string, seq<Source>>, call: Call, network: string,
                    nodes: map<string, NodeState>, p: Durations.Platform)
    requires WrittenFrom(b, stored, network, ActiveSet(nodes)) && IsOrder(call.order, nodes)
    ensures WrittenFrom(BookOne(b, call, network, nodes, p), stored, network, ActiveSet(nodes))
  {
    var active, b' := ActiveIn(nodes, call.order), BookOne(b, call, network, nodes, p);
    ActiveInIsActiveSet(nodes, call.order);
    OthersUntouched(b.stored, network, call.stream, active, call.answers, p);
    if EffectOf(b, call, network, nodes, p).written {
      var sources := SourcesOf(network, call.stream.link.value, active);
      assert OnePerNode(sources, network, call.stream.link.value, ActiveSet(nodes));
      WriteOne(b, stored, network, ActiveSet(nodes), Target(network, call.stream.name), call.stream.link.value, sources,
               b'.info);
    }
  }

  lemma {:induction false} WrittenIsActive(b: Books, calls: seq<Call>, network: string, nodes: map<string, NodeState>,
                                           p: Durations.Platform)
    requires ValidCalls(calls, nodes) && b.links == map[]
    ensures WrittenFrom(BookAll(b, calls, network, nodes, p), b.stored, network, ActiveSet(nodes))
  {
    if calls != [] {
      var init, last := calls[..|calls| - 1], calls[|calls| - 1];
      WrittenIsActive(b, init, network, nodes, p);
      WrittenStep(BookAll(b, init, network, nodes, p), b.stored, last, network, nodes, p);
    }
  }

  ghost predicate NamesActive(info: map<string, AggregateInfo>, active: set<string>) {
    forall s :: s in info ==> Elems(info[s].sourceDomains) == active
  }

  /** The books name the active nodes. */
  lemma {:induction false} BookedIsActive(b: Books, calls: seq<Call>, network: string, nodes: map<string, NodeState>,
                                          p: Durations.Platform)
    requires ValidCalls(calls, nodes) && NamesActive(b.info, ActiveSet(nodes))
    ensures NamesActive(BookAll(b, calls, network, nodes, p).info, ActiveSet(nodes))
  {
    if calls != [] {
      var init, last := calls[..|calls| - 1], calls[|calls| - 1];
      BookedIsActive(b, init, network, nodes, p);
      ActiveInIsActiveSet(nodes, last.order);
      var info := BookAll(b, init, network, nodes, p).info;
      assert forall s :: s in info ==> Elems(info[s].sourceDomains) == ActiveSet(nodes);
    }
  }

  /** The aggregate loop of createMainJetstreams: a failing aggregate is booked as such and the loop goes on. */
  method CreateAggregates(main: MainStreams, network: string, calls: seq<Call>, nodes: map<string, NodeState>,
                          p: Durations.Platform, info0: map<string, AggregateInfo>)
      returns (info: map<string, AggregateInfo>)
    requires ValidCalls(calls, nodes) && AllReadable(main.stored, network, calls)
    modifies main
    ensures var b := BookAll(Books(info0, old(main.stored), map[]), calls, network, nodes, p);
            info == b.info && main.stored == b.stored
    ensures AllReadable(main.stored, network, calls)
  {
    info := info0;
    ghost var b := Books(info0, main.stored, map[]);
    for i := 0 to |calls|
      invariant info == BookAll(b, calls[..i], network, nodes, p).info
      invariant main.stored == BookAll(b, calls[..i], network, nodes, p).stored
      invariant AllReadable(main.stored, network, calls)
    {
      assert calls[..i + 1][..i] == calls[..i];
      var s := calls[i].stream;
      var current := ActiveNodes(nodes, calls[i].order);
      OthersUntouched(main.stored, network, s, current, calls[i].answers, p);
      var ok, swallowed, written := main.CreateAggregate(network, s, current, calls[i].answers, p);
      info := info[s.name := AggregateInfo(current, s.name, if ok then "created" else "error")];
    }
    assert calls[..|calls|] == calls;
  }
}
