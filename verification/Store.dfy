/** Any number of controllers that read the Network object, edit their copy and write it back to a store
    that rejects stale versions. */
module Store {
  import opened NetworkSpec
  import opened Options
  import opened Participation
  import opened Runs
  import opened Provisioning
  import A = Aggregates
  import Durations
  import P = Participants
  import Quiescence
  import Slices

  /** Info.MainDomain: the states of the standard streams, and the aggregates. */
  datatype MainDomain = MainDomain(standard: map<string, string>, aggregates: map<string, A.AggregateInfo>)

  /** The whole object that the controllers share. */
  datatype Document = Document(network: Network, components: P.Components, main: MainDomain, account: string)

  const NEW_DOCUMENT := Document(UNREGISTERED, map[], MainDomain(map[], map[]), "")

  /** What the controllers do to it. */
  datatype Edit =
    | Protocol(step: Step)
    | Participant(op: P.Op)
    | Book(standard: map<string, string>, aggregates: map<string, A.AggregateInfo>)
    | SetAccount(name: string)

  function ApplyEdit(e: Edit, d: Document): Document {
    match e
    case Protocol(step) => d.(network := Apply(step, d.network))
    case Participant(op) => d.(components := P.Apply(d.components, op))
    case Book(standard, aggregates) =>
      d.(main := MainDomain(d.main.standard + standard, d.main.aggregates + aggregates))
    case SetAccount(name) => d.(account := name)
  }

  ghost function ActiveNodes(d: Document): set<string> {
    A.ActiveSet(d.network.info.nodes)
  }

  /** Passes visit the nodes of the object they edit, and books name its active nodes. */
  ghost predicate EnabledEdit(e: Edit, d: Document) {
    match e
    case Protocol(step) => Enabled(step, d.network)
    case Book(_, aggregates) => A.NamesActive(aggregates, ActiveNodes(d))
    case _ => true
  }

  function AfterEdits(d: Document, edits: seq<Edit>): Document {
    if edits == [] then d else ApplyEdit(edits[|edits| - 1], AfterEdits(d, edits[..|edits| - 1]))
  }

  ghost predicate ValidEdits(d: Document, edits: seq<Edit>) {
    edits == [] || (ValidEdits(d, edits[..|edits| - 1]) &&
                    EnabledEdit(edits[|edits| - 1], AfterEdits(d, edits[..|edits| - 1])))
  }

  lemma {:induction false} EditsConcat(d: Document, a: seq<Edit>, b: seq<Edit>)
    ensures AfterEdits(d, a + b) == AfterEdits(AfterEdits(d, a), b)
    ensures ValidEdits(d, a + b) <==> ValidEdits(d, a) && ValidEdits(AfterEdits(d, a), b)
  {
    if b == [] {
      assert a + b == a;
    } else {
      EditsConcat(d, a, b[..|b| - 1]);
      assert (a + b)[..|a + b| - 1] == a + b[..|b| - 1];
    }
  }

  // ---- The parts of a run ----

  function Steps(edits: seq<Edit>): seq<Step> {
    if edits == [] then []
    else
      var init, last := Steps(edits[..|edits| - 1]), edits[|edits| - 1];
      if last.Protocol? then init + [last.step] else init
  }

  function Ops(edits: seq<Edit>): seq<P.Op> {
    if edits == [] then []
    else
      var init, last := Ops(edits[..|edits| - 1]), edits[|edits| - 1];
      if last.Participant? then init + [last.op] else init
  }

  /** The edits of different controllers touch different parts: each part is the run of its own edits. */
  lemma {:induction false} PartsOfRun(edits: seq<Edit>)
    requires ValidEdits(NEW_DOCUMENT, edits)
    ensures ValidRun(UNREGISTERED, Steps(edits))
    ensures AfterEdits(NEW_DOCUMENT, edits).network == After(UNREGISTERED, Steps(edits))
    ensures AfterEdits(NEW_DOCUMENT, edits).components == P.ApplyAll(map[], Ops(edits))
  {
    if edits != [] {
      var init, last := edits[..|edits| - 1], edits[|edits| - 1];
      PartsOfRun(init);
      if last.Protocol? {
        RunConcat(UNREGISTERED, Steps(init), [last.step]);
      }
      if last.Participant? {
        assert Ops(edits)[..|Ops(edits)| - 1] == Ops(init);
      }
    }
  }

  /** Some edit books a standard stream or an aggregate under this name. */
  predicate Names(e: Edit, name: string, aggregate: bool) {
    e.Book? && if aggregate then name in e.aggregates else name in e.standard
  }

  /** What is booked under a name is what the last booking under it says. */
  lemma {:induction false} LastBookingCounts(edits: seq<Edit>, k: nat, name: string)
    requires k < |edits|
    ensures var main := AfterEdits(NEW_DOCUMENT, edits).main;
            && (Names(edits[k], name, false) && (forall j :: k < j < |edits| ==> !Names(edits[j], name, false)) ==>
                  name in main.standard && main.standard[name] == edits[k].standard[name])
            && (Names(edits[k], name, true) && (forall j :: k < j < |edits| ==> !Names(edits[j], name, true)) ==>
                  name in main.aggregates && main.aggregates[name] == edits[k].aggregates[name])
  {
    if k < |edits| - 1 {
      LastBookingCounts(edits[..|edits| - 1], k, name);
    }
  }

  /** What nobody booked is not booked, and an account that nobody set is empty. */
  lemma {:induction false} NothingFromNothing(edits: seq<Edit>, name: string)
    ensures var d := AfterEdits(NEW_DOCUMENT, edits);
            && ((forall j :: 0 <= j < |edits| ==> !Names(edits[j], name, false)) ==> name !in d.main.standard)
            && ((forall j :: 0 <= j < |edits| ==> !Names(edits[j], name, true)) ==> name !in d.main.aggregates)
            && ((forall j :: 0 <= j < |edits| ==> !edits[j].SetAccount?) ==> d.account == "")
  {
    if edits != [] {
      var init := edits[..|edits| - 1];
      NothingFromNothing(init, name);
      assert forall j :: 0 <= j < |init| ==> init[j] == edits[j];
    }
  }

  /** The account is the one that was set last. */
  lemma {:induction false} LastAccountCounts(edits: seq<Edit>, k: nat)
    requires k < |edits| && edits[k].SetAccount? && forall j :: k < j < |edits| ==> !edits[j].SetAccount?
    ensures AfterEdits(NEW_DOCUMENT, edits).account == edits[k].name
  {
    if k < |edits| - 1 {
      LastAccountCounts(edits[..|edits| - 1], k);
    }
  }

  lemma RunInv(edits: seq<Edit>)
    requires ValidEdits(NEW_DOCUMENT, edits)
    ensures Inv(AfterEdits(NEW_DOCUMENT, edits).network)
  {
    PartsOfRun(edits);
    RunKeepsInv(UNREGISTERED, Steps(edits));
  }

  // ---- The store ----

  /** The accepted updates, each with the edits it carries. */
  type Log = seq<seq<Edit>>

  function Flat(log: Log): seq<Edit> {
    if log == [] then [] else Flat(log[..|log| - 1]) + log[|log| - 1]
  }

  /** The object after some accepted updates. */
  function Version(log: Log): Document {
    AfterEdits(NEW_DOCUMENT, Flat(log))
  }

  /** A controller's copy: the object as read, and the edits made since. */
  datatype Copy = Copy(version: nat, seen: Document, edits: seq<Edit>)

  function Working(copy: Copy): Document {
    AfterEdits(copy.seen, copy.edits)
  }

  /** Who wrote the sources of an aggregate last: the linked stream, and the version and the edits of the copy. */
  datatype Writer = Writer(link: string, version: nat, edits: seq<Edit>)

  datatype Cluster = Cluster(stored: Document, version: nat, copies: map<int, Copy>, log: Log, domains: Domains,
                             main: map<string, seq<A.Source>>, writers: map<string, Writer>)

  datatype Action =
    | Get(controller: int)
    | EditLocally(controller: int, edit: Edit)
    | EditPass(controller: int, order: seq<string>, server: Server)
    | EditMain(controller: int, standard: map<string, string>, calls: seq<A.Call>, p: Durations.Platform)
    | Update(controller: int, fails: bool, refreshed: bool)

  ghost predicate Allowed(network: string, a: Action, c: Cluster) {
    match a
    case Get(_) => true
    case EditLocally(i, e) =>
      i in c.copies && !e.Book? && (e.Protocol? ==> !e.step.Reconcile?)
    case EditPass(i, order, _) =>
      i in c.copies && IsOrder(order, Working(c.copies[i]).network.info.nodes)
    case EditMain(i, _, calls, _) =>
      i in c.copies && A.ValidCalls(calls, Working(c.copies[i]).network.info.nodes) &&
      A.AllReadable(c.main, network, calls)
    case Update(i, _, _) => i in c.copies && c.copies[i].edits != []
  }

  /** Passes and the main domain's controller write only if they changed Info, and enrolling alone does not count as
      a change; everything else is always written. */
  predicate Writes(copy: Copy)
    requires copy.edits != []
  {
    var last, before := copy.edits[|copy.edits| - 1], AfterEdits(copy.seen, copy.edits[..|copy.edits| - 1]);
    match last
    case Protocol(step) => step.Reconcile? ==> Working(copy).network.info != before.network.info
    case Participant(op) => !op.Enroll?
    case Book(_, _) => Working(copy).main != before.main
    case SetAccount(_) => true
  }

  /** An update may also fail without a conflict. */
  predicate Accepted(copy: Copy, fails: bool, c: Cluster)
    requires copy.edits != []
  {
    Writes(copy) && copy.version == c.version && !fails
  }

  function Append(copy: Copy, e: Edit): Copy {
    copy.(edits := copy.edits + [e])
  }

  /** What createMainJetstreams does to the streams of the main domain. */
  ghost function Booked(network: string, copy: Copy, calls: seq<A.Call>, p: Durations.Platform,
                        main: map<string, seq<A.Source>>): A.Books {
    A.BookAll(A.Books(map[], main, map[]), calls, network, Working(copy).network.info.nodes, p)
  }

  /** Passes and the main domain's controller edit the streams at once, whatever becomes of their updates. After an
      update a controller may go on with its copy, which is refreshed or not; after a failing one, with its edits. */
  ghost function Act(network: string, streams: seq<StreamSpec>, a: Action, c: Cluster): Cluster
    requires Allowed(network, a, c)
  {
    match a
    case Get(i) => c.(copies := c.copies[i := Copy(c.version, c.stored, [])])
    case EditLocally(i, e) => c.(copies := c.copies[i := Append(c.copies[i], e)])
    case EditPass(i, order, server) =>
      var w := World(Working(c.copies[i]).network, c.domains);
      var step := Reconcile(order, OkNodes(network, streams, w, server));
      c.(copies := c.copies[i := Append(c.copies[i], Protocol(step))],
         domains := PassWorld(network, streams, w, order, server).domains)
    case EditMain(i, standard, calls, p) =>
      var copy := c.copies[i];
      var b := Booked(network, copy, calls, p, c.main);
      c.(copies := c.copies[i := Append(copy, Book(standard, b.info))], main := b.stored,
         writers := c.writers + map t | t in b.links :: Writer(b.links[t], copy.version, copy.edits))
    case Update(i, fails, refreshed) =>
      var copy := c.copies[i];
      if Accepted(copy, fails, c)
      then c.(stored := Working(copy), version := c.version + 1, log := c.log + [copy.edits],
              copies := if refreshed then c.copies[i := Copy(c.version + 1, Working(copy), [])] else c.copies)
      else c
  }

  /** A copy is a version of the object with valid edits on top. */
  ghost predicate CopyOfRun(copy: Copy, log: Log) {
    copy.version <= |log| && copy.seen == Version(log[..copy.version]) && ValidEdits(copy.seen, copy.edits)
  }

  /** The stored object is the sequential run of the accepted edits, and every copy starts from a state of that run. */
  ghost predicate Sequential(c: Cluster) {
    && ValidEdits(NEW_DOCUMENT, Flat(c.log)) && c.stored == Version(c.log) && c.version == |c.log|
    && (forall i :: i in c.copies ==> CopyOfRun(c.copies[i], c.log))
  }

  lemma VersionSnoc(log: Log, edits: seq<Edit>)
    ensures Version(log + [edits]) == AfterEdits(Version(log), edits)
    ensures ValidEdits(NEW_DOCUMENT, Flat(log + [edits])) <==>
              ValidEdits(NEW_DOCUMENT, Flat(log)) && ValidEdits(Version(log), edits)
  {
    assert (log + [edits])[..|log|] == log;
    EditsConcat(NEW_DOCUMENT, Flat(log), edits);
  }

  lemma {:induction false} PrefixValid(log: Log, v: nat)
    requires ValidEdits(NEW_DOCUMENT, Flat(log)) && v <= |log|
    ensures ValidEdits(NEW_DOCUMENT, Flat(log[..v]))
  {
    if v < |log| {
      var init := log[..|log| - 1];
      assert log == init + [log[|log| - 1]];
      VersionSnoc(init, log[|log| - 1]);
      PrefixValid(init, v);
      assert init[..v] == log[..v];
    } else {
      assert log[..v] == log;
    }
  }

  lemma CopyOfLonger(copy: Copy, log: Log, edits: seq<Edit>)
    requires CopyOfRun(copy, log)
    ensures CopyOfRun(copy, log + [edits])
  {
    assert (log + [edits])[..copy.version] == log[..copy.version];
  }

  lemma AppendKeeps(copy: Copy, log: Log, e: Edit)
    requires CopyOfRun(copy, log) && EnabledEdit(e, Working(copy))
    ensures CopyOfRun(Append(copy, e), log) && Working(Append(copy, e)) == ApplyEdit(e, Working(copy))
  {
    assert (copy.edits + [e])[..|copy.edits|] == copy.edits;
  }

  lemma BookingIsEnabled(network: string, copy: Copy, calls: seq<A.Call>, p: Durations.Platform,
                         main: map<string, seq<A.Source>>, standard: map<string, string>)
    requires A.ValidCalls(calls, Working(copy).network.info.nodes)
    ensures EnabledEdit(Book(standard, Booked(network, copy, calls, p, main).info), Working(copy))
  {
    A.BookedIsActive(A.Books(map[], main, map[]), calls, network, Working(copy).network.info.nodes, p);
  }

  lemma AcceptedVersion(copy: Copy, log: Log)
    requires CopyOfRun(copy, log) && copy.version == |log| && ValidEdits(NEW_DOCUMENT, Flat(log))
    ensures ValidEdits(NEW_DOCUMENT, Flat(log + [copy.edits])) && Version(log + [copy.edits]) == Working(copy)
  {
    assert log[..|log|] == log;
    VersionSnoc(log, copy.edits);
  }

  lemma RefreshedCopy(log: Log)
    ensures CopyOfRun(Copy(|log|, Version(log), []), log)
  {
    assert log[..|log|] == log;
  }

  lemma UpdateKeepsSequential(network: string, streams: seq<StreamSpec>, a: Action, c: Cluster)
    requires Sequential(c) && Allowed(network, a, c) && a.Update?
    ensures Sequential(Act(network, streams, a, c))
  {
    var copy := c.copies[a.controller];
    if Accepted(copy, a.fails, c) {
      AcceptedVersion(copy, c.log);
      RefreshedCopy(c.log + [copy.edits]);
      forall i | i in c.copies ensures CopyOfRun(c.copies[i], c.log + [copy.edits]) {
        CopyOfLonger(c.copies[i], c.log, copy.edits);
      }
    }
  }

  lemma ActKeepsSequential(network: string, streams: seq<StreamSpec>, a: Action, c: Cluster)
    requires Sequential(c) && Allowed(network, a, c)
    ensures Sequential(Act(network, streams, a, c))
  {
    assert c.log[..|c.log|] == c.log;
    match a
    case Get(_) =>
    case EditLocally(i, e) =>
      AppendKeeps(c.copies[i], c.log, e);
    case EditPass(i, order, server) =>
      var w := World(Working(c.copies[i]).network, c.domains);
      AppendKeeps(c.copies[i], c.log, Protocol(Reconcile(order, OkNodes(network, streams, w, server))));
    case EditMain(i, standard, calls, p) =>
      BookingIsEnabled(network, c.copies[i], calls, p, c.main, standard);
      AppendKeeps(c.copies[i], c.log, Book(standard, Booked(network, c.copies[i], calls, p, c.main).info));
    case Update(_, _, _) =>
      UpdateKeepsSequential(network, streams, a, c);
  }

  /** Edits that are written in any case. */
  predicate AlwaysWritten(e: Edit) {
    match e
    case Protocol(step) => step.Create? || step.Delete? || step.Register?
    case Participant(op) => op.Add? || op.Remove?
    case Book(_, _) => false
    case SetAccount(_) => true
  }

  /** The last edit is one that is written in any case, or it changed the working copy (enrolling aside). */
  predicate Counts(copy: Copy)
    requires copy.edits != []
  {
    var last, before := copy.edits[|copy.edits| - 1], AfterEdits(copy.seen, copy.edits[..|copy.edits| - 1]);
    || AlwaysWritten(last)
    || (!(last.Participant? && last.op.Enroll?) && AfterEdits(copy.seen, copy.edits) != before)
  }

  lemma WritesIffCounts(copy: Copy)
    requires copy.edits != []
    ensures Writes(copy) <==> Counts(copy)
  {
    var last, before := copy.edits[|copy.edits| - 1], AfterEdits(copy.seen, copy.edits[..|copy.edits| - 1]);
    if last.Protocol? && last.step.Reconcile? {
      Quiescence.PassUsesUp(before.network, last.step.order, last.step.ok);
    }
  }

  /** An update is stored and recorded once exactly if the copy is current, the store does not fail and the last edit
      counts; it then acts on the stored object, not on a stale one. Any other update leaves the object alone. */
  lemma NoLostUpdate(network: string, streams: seq<StreamSpec>, i: int, fails: bool, refreshed: bool, c: Cluster)
    requires Sequential(c) && Allowed(network, Update(i, fails, refreshed), c)
    ensures var copy, c' := c.copies[i], Act(network, streams, Update(i, fails, refreshed), c);
            if copy.version == c.version && !fails && Counts(copy)
            then c'.stored == AfterEdits(c.stored, copy.edits) && c'.log == c.log + [copy.edits]
            else c'.stored == c.stored && c'.log == c.log
  {
    assert CopyOfRun(c.copies[i], c.log);
    assert c.log[..|c.log|] == c.log;
    WritesIffCounts(c.copies[i]);
  }

  /** The edit that an action appends to its copy. */
  ghost function LastEdit(network: string, streams: seq<StreamSpec>, a: Action, c: Cluster): Edit
    requires Allowed(network, a, c) && (a.EditLocally? || a.EditPass? || a.EditMain?)
  {
    match a
    case EditLocally(_, e) => e
    case EditPass(i, order, server) =>
      Protocol(Reconcile(order, OkNodes(network, streams, World(Working(c.copies[i]).network, c.domains), server)))
    case EditMain(i, standard, calls, p) => Book(standard, Booked(network, c.copies[i], calls, p, c.main).info)
  }

  lemma AppendTakesEffect(copy: Copy, e: Edit)
    ensures Working(Append(copy, e)) == ApplyEdit(e, Working(copy))
  {
    assert (copy.edits + [e])[..|copy.edits|] == copy.edits;
  }

  /** What the other actions do to the copy, the streams and the aggregates; none of them touches the stored object. */
  lemma EditsTakeEffect(network: string, streams: seq<StreamSpec>, a: Action, c: Cluster)
    requires Allowed(network, a, c) && !a.Update?
    ensures var c', i := Act(network, streams, a, c), a.controller;
            && c'.stored == c.stored && c'.log == c.log && c'.version == c.version
            && c'.copies.Keys == c.copies.Keys + {i}
            && (forall j :: j in c.copies && j != i ==> c'.copies[j] == c.copies[j])
            && c'.copies[i].version == (if a.Get? then c.version else c.copies[i].version)
            && (if a.Get? then Working(c'.copies[i]) == c.stored && c'.copies[i].edits == []
                else c'.copies[i].edits == c.copies[i].edits + [LastEdit(network, streams, a, c)] &&
                     Working(c'.copies[i]) == ApplyEdit(LastEdit(network, streams, a, c), Working(c.copies[i])))
            && (!a.EditPass? ==> c'.domains == c.domains) && (!a.EditMain? ==> c'.main == c.main)
  {
    if !a.Get? {
      AppendTakesEffect(c.copies[a.controller], LastEdit(network, streams, a, c));
    }
  }

  /** A pass works on the copy's network and on the streams as they are now. */
  lemma PassTakesEffect(network: string, streams: seq<StreamSpec>, a: Action, c: Cluster)
    requires Allowed(network, a, c) && a.EditPass?
    ensures var c', d := Act(network, streams, a, c), Working(c.copies[a.controller]);
            var w := PassWorld(network, streams, World(d.network, c.domains), a.order, a.server);
            Working(c'.copies[a.controller]) == d.(network := w.network) && c'.domains == w.domains
  {
    EditsTakeEffect(network, streams, a, c);
  }

  /** The main domain's controller books what the aggregate loop makes of the copy's nodes and the stored sources. */
  lemma MainTakesEffect(network: string, streams: seq<StreamSpec>, a: Action, c: Cluster)
    requires Allowed(network, a, c) && a.EditMain?
    ensures var c', d := Act(network, streams, a, c), Working(c.copies[a.controller]);
            var b := A.BookAll(A.Books(map[], c.main, map[]), a.calls, network, d.network.info.nodes, a.p);
            && Working(c'.copies[a.controller]).main
               == MainDomain(d.main.standard + a.standard, d.main.aggregates + b.info)
            && c'.main == b.stored
  {
    EditsTakeEffect(network, streams, a, c);
  }

  /** The copy after reading the object and editing it once. */
  lemma ReadAndEdited(network: string, streams: seq<StreamSpec>, i: int, e: Edit, c: Cluster)
    requires !e.Book? && (e.Protocol? ==> !e.step.Reconcile?)
    ensures var c2 := Act(network, streams, EditLocally(i, e), Act(network, streams, Get(i), c));
            && i in c2.copies && c2.copies[i] == Copy(c.version, c.stored, [e])
            && c2.version == c.version && c2.stored == c.stored
  {
  }

  lemma FreshUpdate(network: string, streams: seq<StreamSpec>, i: int, e: Edit, refreshed: bool, c: Cluster)
    requires Sequential(c) && i in c.copies && c.copies[i] == Copy(c.version, c.stored, [e]) && AlwaysWritten(e)
    ensures Act(network, streams, Update(i, false, refreshed), c).stored == ApplyEdit(e, c.stored)
  {
    NoLostUpdate(network, streams, i, false, refreshed, c);
    assert [e][..0] == [];
  }

  /** A controller that is left alone gets its edit stored. */
  lemma Undisturbed(network: string, streams: seq<StreamSpec>, i: int, e: Edit, refreshed: bool, c: Cluster)
    requires Sequential(c)
    requires (e.Protocol? && e.step.Create?) || (e.Protocol? && e.step.Delete?) || (e.Protocol? && e.step.Register?) ||
             (e.Participant? && e.op.Add?) || (e.Participant? && e.op.Remove?) || e.SetAccount?
    ensures var c2 := Act(network, streams, EditLocally(i, e), Act(network, streams, Get(i), c));
            && Allowed(network, Update(i, false, refreshed), c2)
            && Act(network, streams, Update(i, false, refreshed), c2).stored == ApplyEdit(e, c.stored)
  {
    var c1 := Act(network, streams, Get(i), c);
    var c2 := Act(network, streams, EditLocally(i, e), c1);
    ReadAndEdited(network, streams, i, e, c);
    ActKeepsSequential(network, streams, Get(i), c);
    ActKeepsSequential(network, streams, EditLocally(i, e), c1);
    FreshUpdate(network, streams, i, e, refreshed, c2);
  }

  /** Of two controllers that edited the same version, the one that comes second does not overwrite the first. */
  lemma SecondIsRejected(network: string, streams: seq<StreamSpec>, i: int, j: int, c: Cluster)
    requires Sequential(c) && i != j && i in c.copies && j in c.copies && c.copies[i].version == c.copies[j].version
    requires c.copies[i].edits != [] && c.copies[j].edits != []
    requires c.copies[i].version == c.version && Counts(c.copies[i])
    ensures var c1 := Act(network, streams, Update(i, false, true), c);
            var c2 := Act(network, streams, Update(j, false, true), c1);
            && c1.stored == AfterEdits(c.stored, c.copies[i].edits)
            && c2.stored == c1.stored && c2.log == c1.log
  {
    var c1 := Act(network, streams, Update(i, false, true), c);
    NoLostUpdate(network, streams, i, false, true, c);
    ActKeepsSequential(network, streams, Update(i, false, true), c);
    NoLostUpdate(network, streams, j, false, true, c1);
  }

  /** Nothing but its own copy keeps a controller from acting: it may read at any time, edit a copy in any of the
      ways of the source, and try to write an edited one. */
  lemma ActionsAllowed(network: string, i: int, c: Cluster, e: Edit, order: seq<string>, server: Server,
                       standard: map<string, string>, calls: seq<A.Call>, p: Durations.Platform, fails: bool,
                       refreshed: bool)
    ensures Allowed(network, Get(i), c)
    ensures i in c.copies && !e.Book? && !(e.Protocol? && e.step.Reconcile?) ==> Allowed(network, EditLocally(i, e), c)
    ensures i in c.copies && IsOrder(order, Working(c.copies[i]).network.info.nodes) ==>
              Allowed(network, EditPass(i, order, server), c)
    ensures i in c.copies && A.ValidCalls(calls, Working(c.copies[i]).network.info.nodes) ==>
              A.AllReadable(c.main, network, calls) ==> Allowed(network, EditMain(i, standard, calls, p), c)
    ensures i in c.copies && c.copies[i].edits != [] ==> Allowed(network, Update(i, fails, refreshed), c)
  {
  }

  // ---- Whole histories ----

  ghost predicate ValidHistory(network: string, streams: seq<StreamSpec>, c: Cluster, history: seq<Action>)
    decreases history
  {
    history == [] ||
    (Allowed(network, history[0], c) &&
     ValidHistory(network, streams, Act(network, streams, history[0], c), history[1..]))
  }

  ghost function Reached(network: string, streams: seq<StreamSpec>, c: Cluster, history: seq<Action>): Cluster
    requires ValidHistory(network, streams, c, history)
    decreases history
  {
    if history == [] then c else Reached(network, streams, Act(network, streams, history[0], c), history[1..])
  }

  function Start(domains: Domains, main: map<string, seq<A.Source>>): Cluster {
    Cluster(NEW_DOCUMENT, 0, map[], [], domains, main, map[])
  }

  /** Any interleaving of any number of controllers stores the sequential run of the accepted edits. */
  lemma {:induction false} InterleavingsAreSequential(network: string, streams: seq<StreamSpec>, c: Cluster,
                                                      history: seq<Action>)
    requires Sequential(c) && ValidHistory(network, streams, c, history)
    ensures Sequential(Reached(network, streams, c, history))
    decreases history
  {
    if history != [] {
      ActKeepsSequential(network, streams, history[0], c);
      InterleavingsAreSequential(network, streams, Act(network, streams, history[0], c), history[1..]);
    }
  }

  // ---- Active means provisioned, with passes working on stale copies ----

  ghost predicate CopyProvided(network: string, streams: seq<StreamSpec>, copy: Copy, d: Domains) {
    && ActiveMeansProvided(network, streams, World(copy.seen.network, d))
    && ActiveMeansProvided(network, streams, World(Working(copy).network, d))
  }

  ghost predicate ProvidedEverywhere(network: string, streams: seq<StreamSpec>, c: Cluster) {
    && ActiveMeansProvided(network, streams, World(c.stored.network, c.domains))
    && (forall i :: i in c.copies ==> CopyProvided(network, streams, c.copies[i], c.domains))
  }

  lemma MoreStreams(network: string, streams: seq<StreamSpec>, w: Network, d: Domains, d': Domains)
    requires ActiveMeansProvided(network, streams, World(w, d))
    requires forall n :: Present(d, n) <= Present(d', n)
    ensures ActiveMeansProvided(network, streams, World(w, d'))
  {
  }

  lemma WorkingInv(copy: Copy, log: Log)
    requires ValidEdits(NEW_DOCUMENT, Flat(log)) && CopyOfRun(copy, log)
    ensures Inv(Working(copy).network)
  {
    PrefixValid(log, copy.version);
    EditsConcat(NEW_DOCUMENT, Flat(log[..copy.version]), copy.edits);
    RunInv(Flat(log[..copy.version]) + copy.edits);
  }

  lemma EditKeepsProvided(network: string, streams: seq<StreamSpec>, a: Action, c: Cluster)
    requires Sequential(c) && Allowed(network, a, c) && (a.EditLocally? || a.EditPass? || a.EditMain?)
    requires CopyProvided(network, streams, c.copies[a.controller], c.domains)
    ensures var c' := Act(network, streams, a, c);
            ActiveMeansProvided(network, streams, World(Working(c'.copies[a.controller]).network, c'.domains))
  {
    var copy := c.copies[a.controller];
    var w := World(Working(copy).network, c.domains);
    assert CopyOfRun(copy, c.log);
    WorkingInv(copy, c.log);
    match a
    case EditLocally(_, e) =>
      AppendKeeps(copy, c.log, e);
      if e.Protocol? {
        WorldStepKeeps(network, streams, Event(e.step), w);
      }
    case EditPass(_, order, server) =>
      AppendKeeps(copy, c.log, Protocol(Reconcile(order, OkNodes(network, streams, w, server))));
      WorldStepKeeps(network, streams, WorldStep.PassStep(order, server), w);
    case EditMain(_, standard, calls, p) =>
      BookingIsEnabled(network, copy, calls, p, c.main, standard);
      AppendKeeps(copy, c.log, Book(standard, Booked(network, copy, calls, p, c.main).info));
  }

  lemma ActGrowsDomains(network: string, streams: seq<StreamSpec>, a: Action, c: Cluster, n: string)
    requires Allowed(network, a, c)
    ensures Present(c.domains, n) <= Present(Act(network, streams, a, c).domains, n)
  {
    if a.EditPass? {
      var w := World(Working(c.copies[a.controller]).network, c.domains);
      PassGrowsDomains(network, streams, w, a.order, a.server, n);
    }
  }

  lemma CopyStaysProvided(network: string, streams: seq<StreamSpec>, copy: Copy, d: Domains, d': Domains)
    requires CopyProvided(network, streams, copy, d)
    requires forall n :: Present(d, n) <= Present(d', n)
    ensures CopyProvided(network, streams, copy, d')
  {
    MoreStreams(network, streams, copy.seen.network, d, d');
    MoreStreams(network, streams, Working(copy).network, d, d');
  }

  /** An edit changes one copy, and not what that was read from. */
  lemma OneCopyEdited(network: string, streams: seq<StreamSpec>, a: Action, c: Cluster)
    requires Allowed(network, a, c) && (a.EditLocally? || a.EditPass? || a.EditMain?)
    ensures var c' := Act(network, streams, a, c);
            && c'.stored == c.stored && c'.copies.Keys == c.copies.Keys
            && c'.copies[a.controller].seen == c.copies[a.controller].seen
            && (forall i :: i in c.copies && i != a.controller ==> c'.copies[i] == c.copies[i])
  {
  }

  lemma UpdateKeepsProvided(network: string, streams: seq<StreamSpec>, a: Action, c: Cluster)
    requires ProvidedEverywhere(network, streams, c) && Allowed(network, a, c) && (a.Get? || a.Update?)
    ensures ProvidedEverywhere(network, streams, Act(network, streams, a, c))
  {
    if a.Update? {
      assert CopyProvided(network, streams, c.copies[a.controller], c.domains);
    }
  }

  lemma ActKeepsProvided(network: string, streams: seq<StreamSpec>, a: Action, c: Cluster)
    requires Sequential(c) && ProvidedEverywhere(network, streams, c) && Allowed(network, a, c)
    ensures ProvidedEverywhere(network, streams, Act(network, streams, a, c))
  {
    if a.Get? || a.Update? {
      UpdateKeepsProvided(network, streams, a, c);
    } else {
      var c' := Act(network, streams, a, c);
      forall n ensures Present(c.domains, n) <= Present(c'.domains, n) {
        ActGrowsDomains(network, streams, a, c, n);
      }
      MoreStreams(network, streams, c.stored.network, c.domains, c'.domains);
      EditKeepsProvided(network, streams, a, c);
      forall i | i in c.copies ensures CopyProvided(network, streams, c.copies[i], c'.domains) {
        CopyStaysProvided(network, streams, c.copies[i], c.domains, c'.domains);
      }
      OneCopyEdited(network, streams, a, c);
    }
  }

  /** In every interleaving, each node marked active in the stored object has all its node-located streams. */
  lemma {:induction false} InterleavingsKeepProvided(network: string, streams: seq<StreamSpec>, c: Cluster,
                                                     history: seq<Action>)
    requires Sequential(c) && ProvidedEverywhere(network, streams, c) && ValidHistory(network, streams, c, history)
    ensures ProvidedEverywhere(network, streams, Reached(network, streams, c, history))
    decreases history
  {
    if history != [] {
      ActKeepsSequential(network, streams, history[0], c);
      ActKeepsProvided(network, streams, history[0], c);
      InterleavingsKeepProvided(network, streams, Act(network, streams, history[0], c), history[1..]);
    }
  }

  /** From the start, whatever streams exist already, with any number of controllers and any interleaving: the
      participating state is a run of the protocol and so keeps its invariant, Components is a run of additions and
      removals, and every active node has its streams. */
  lemma EveryInterleaving(network: string, streams: seq<StreamSpec>, domains: Domains, main: map<string, seq<A.Source>>,
                          history: seq<Action>)
    requires ValidHistory(network, streams, Start(domains, main), history)
    ensures var c := Reached(network, streams, Start(domains, main), history);
            var edits := Flat(c.log);
            && ValidRun(UNREGISTERED, Steps(edits)) && c.stored.network == After(UNREGISTERED, Steps(edits))
            && Inv(c.stored.network)
            && c.stored.components == P.ApplyAll(map[], Ops(edits))
            && ActiveMeansProvided(network, streams, World(c.stored.network, c.domains))
  {
    InterleavingsAreSequential(network, streams, Start(domains, main), history);
    InterleavingsKeepProvided(network, streams, Start(domains, main), history);
    var c := Reached(network, streams, Start(domains, main), history);
    PartsOfRun(Flat(c.log));
    RunInv(Flat(c.log));
  }

  // ---- The aggregates ----

  /** The object that the last writer of an aggregate was working on. */
  function SourceOfTruth(w: Writer, log: Log): Document
    requires w.version <= |log|
  {
    AfterEdits(Version(log[..w.version]), w.edits)
  }

  ghost predicate WrittenBy(network: string, c: Cluster, t: string, w: Writer) {
    && t in c.main && w.version <= |c.log|
    && A.OnePerNode(c.main[t], network, w.link, ActiveNodes(SourceOfTruth(w, c.log)))
  }

  /** Every aggregate that was written names the nodes that were active for its last writer. */
  ghost predicate Traced(network: string, c: Cluster) {
    forall t :: t in c.writers ==> WrittenBy(network, c, t, c.writers[t])
  }

  lemma MainKeepsTraced(network: string, streams: seq<StreamSpec>, a: Action, c: Cluster)
    requires Sequential(c) && Traced(network, c) && Allowed(network, a, c) && a.EditMain?
    ensures Traced(network, Act(network, streams, a, c))
  {
    var c', copy := Act(network, streams, a, c), c.copies[a.controller];
    var b := Booked(network, copy, a.calls, a.p, c.main);
    assert CopyOfRun(copy, c.log);
    A.WrittenIsActive(A.Books(map[], c.main, map[]), a.calls, network, Working(copy).network.info.nodes, a.p);
    forall t | t in c'.writers ensures WrittenBy(network, c', t, c'.writers[t]) {
      if t in b.links {
        assert SourceOfTruth(c'.writers[t], c.log) == Working(copy);
      } else {
        assert WrittenBy(network, c, t, c.writers[t]);
      }
    }
  }

  lemma ActKeepsTraced(network: string, streams: seq<StreamSpec>, a: Action, c: Cluster)
    requires Sequential(c) && Traced(network, c) && Allowed(network, a, c)
    ensures Traced(network, Act(network, streams, a, c))
  {
    var c' := Act(network, streams, a, c);
    assert c.log[..|c.log|] == c.log;
    if a.Update? {
      forall t | t in c.writers ensures WrittenBy(network, c', t, c.writers[t]) {
        assert WrittenBy(network, c, t, c.writers[t]);
        var v := c.writers[t].version;
        assert c'.log[..v] == c.log[..v];
      }
    } else if a.EditMain? {
      MainKeepsTraced(network, streams, a, c);
    } else {
      forall t | t in c.writers ensures WrittenBy(network, c', t, c.writers[t]) {
        assert WrittenBy(network, c, t, c.writers[t]);
      }
    }
  }

  lemma {:induction false} InterleavingsAreTraced(network: string, streams: seq<StreamSpec>, c: Cluster,
                                                  history: seq<Action>)
    requires Sequential(c) && Traced(network, c) && ValidHistory(network, streams, c, history)
    ensures Traced(network, Reached(network, streams, c, history))
    decreases history
  {
    if history != [] {
      ActKeepsSequential(network, streams, history[0], c);
      ActKeepsTraced(network, streams, history[0], c);
      InterleavingsAreTraced(network, streams, Act(network, streams, history[0], c), history[1..]);
    }
  }

  /** In every interleaving, the sources of an aggregate that was ever written are those of the nodes active in the
      copy of its last writer, and so they are those of the stored object exactly when these are the same nodes. */
  lemma AggregatesFollow(network: string, streams: seq<StreamSpec>, domains: Domains, main: map<string, seq<A.Source>>,
                         history: seq<Action>, t: string)
    requires ValidHistory(network, streams, Start(domains, main), history)
    requires t in Reached(network, streams, Start(domains, main), history).writers
    ensures var c := Reached(network, streams, Start(domains, main), history);
            var w := c.writers[t];
            && t in c.main && w.version <= |c.log|
            && A.OnePerNode(c.main[t], network, w.link, ActiveNodes(SourceOfTruth(w, c.log)))
            && (A.OnePerNode(c.main[t], network, w.link, ActiveNodes(c.stored)) <==>
                  ActiveNodes(SourceOfTruth(w, c.log)) == ActiveNodes(c.stored))
  {
    InterleavingsAreTraced(network, streams, Start(domains, main), history);
    var c := Reached(network, streams, Start(domains, main), history);
    assert WrittenBy(network, c, t, c.writers[t]);
    A.OnePerNodeUnique(c.main[t], network, c.writers[t].link, ActiveNodes(SourceOfTruth(c.writers[t], c.log)),
                       ActiveNodes(c.stored));
  }

  // ---- The sources and the streams they name ----

  /** A source names the stream that a pass creates on the node, through the node's own API. */
  lemma SourceNamesStream(network: string, link: string, nodes: seq<string>, k: nat)
    requires k < |nodes|
    ensures var source := A.SourcesOf(network, link, nodes)[k];
            && source.name == CreatedName(network, link) && source.startSeq == 0 && source.filter == ""
            && source.external == Some(A.External("$JS." + nodes[k] + ".API", ""))
  {
  }

  /** The target of an aggregate is named like the streams of the network. */
  lemma TargetName(network: string, name: string)
    ensures A.Target(network, name) == CreatedName(network, name)
  {
  }

  /** The nodes that were active for the last writers have their streams. */
  ghost predicate WritersProvided(network: string, streams: seq<StreamSpec>, c: Cluster) {
    forall t :: t in c.writers ==>
      c.writers[t].version <= |c.log| &&
      ActiveMeansProvided(network, streams, World(SourceOfTruth(c.writers[t], c.log).network, c.domains))
  }

  lemma WriterStaysProvided(network: string, streams: seq<StreamSpec>, w: Writer, log: Log, log': Log, d: Domains,
                            d': Domains)
    requires w.version <= |log| && (log' == log || exists edits :: log' == log + [edits])
    requires ActiveMeansProvided(network, streams, World(SourceOfTruth(w, log).network, d))
    requires forall n :: Present(d, n) <= Present(d', n)
    ensures w.version <= |log'| && ActiveMeansProvided(network, streams, World(SourceOfTruth(w, log').network, d'))
  {
    assert log'[..w.version] == log[..w.version];
    MoreStreams(network, streams, SourceOfTruth(w, log).network, d, d');
  }

  lemma ActKeepsWritersProvided(network: string, streams: seq<StreamSpec>, a: Action, c: Cluster)
    requires Sequential(c) && ProvidedEverywhere(network, streams, c) && WritersProvided(network, streams, c)
    requires Allowed(network, a, c)
    ensures WritersProvided(network, streams, Act(network, streams, a, c))
  {
    var c' := Act(network, streams, a, c);
    forall n ensures Present(c.domains, n) <= Present(c'.domains, n) {
      ActGrowsDomains(network, streams, a, c, n);
    }
    forall t | t in c'.writers
      ensures c'.writers[t].version <= |c'.log| &&
              ActiveMeansProvided(network, streams, World(SourceOfTruth(c'.writers[t], c'.log).network, c'.domains))
    {
      if t in c.writers && c'.writers[t] == c.writers[t] {
        WriterStaysProvided(network, streams, c.writers[t], c.log, c'.log, c.domains, c'.domains);
      } else {
        var copy := c.copies[a.controller];
        assert CopyOfRun(copy, c.log) && CopyProvided(network, streams, copy, c.domains);
        assert SourceOfTruth(c'.writers[t], c.log) == Working(copy);
      }
    }
  }

  lemma {:induction false} InterleavingsKeepWritersProvided(network: string, streams: seq<StreamSpec>, c: Cluster,
                                                            history: seq<Action>)
    requires Sequential(c) && ProvidedEverywhere(network, streams, c) && WritersProvided(network, streams, c)
    requires ValidHistory(network, streams, c, history)
    ensures WritersProvided(network, streams, Reached(network, streams, c, history))
    decreases history
  {
    if history != [] {
      ActKeepsSequential(network, streams, history[0], c);
      ActKeepsProvided(network, streams, history[0], c);
      ActKeepsWritersProvided(network, streams, history[0], c);
      InterleavingsKeepWritersProvided(network, streams, Act(network, streams, history[0], c), history[1..]);
    }
  }

  /** End to end: in every interleaving, each source of a written aggregate whose linked stream is node-located reads,
      through the API of some node, a stream of which that node's domain holds the created or the bare name. */
  lemma SourcesHaveStreams(network: string, streams: seq<StreamSpec>, domains: Domains,
                           main: map<string, seq<A.Source>>, history: seq<Action>, t: string, k: nat, s: StreamSpec)
      returns (node: string)
    requires ValidHistory(network, streams, Start(domains, main), history)
    requires var c := Reached(network, streams, Start(domains, main), history);
             && t in c.writers && t in c.main && k < |c.main[t]|
             && s in streams && s.location == "node" && s.name == c.writers[t].link
    ensures var c := Reached(network, streams, Start(domains, main), history);
            var source := c.main[t][k];
            && source.name == network + "_" + s.name
            && source.external == Some(A.External("$JS." + node + ".API", ""))
            && (network + "_" + s.name in Present(c.domains, node) || s.name in Present(c.domains, node))
  {
    var start := Start(domains, main);
    var c := Reached(network, streams, start, history);
    InterleavingsAreTraced(network, streams, start, history);
    InterleavingsKeepWritersProvided(network, streams, start, history);
    var w := c.writers[t];
    var d := SourceOfTruth(w, c.log);
    assert WrittenBy(network, c, t, w);
    var order :| Slices.NoDup(order) && Slices.Elems(order) == ActiveNodes(d) &&
      c.main[t] == A.SourcesOf(network, w.link, order);
    SourceNamesStream(network, w.link, order, k);
    node := order[k];
    assert node in Slices.Elems(order);
    assert ActiveMeansProvided(network, streams, World(d.network, c.domains));
    var j :| 0 <= j < |streams| && streams[j] == s;
  }

  /** Whatever changes an aggregate is recorded as its last writer. */
  lemma WritesAreRecorded(network: string, streams: seq<StreamSpec>, a: Action, c: Cluster, t: string)
    requires Allowed(network, a, c)
    requires var c' := Act(network, streams, a, c); t in c'.main && (t !in c.main || c'.main[t] != c.main[t])
    ensures a.EditMain? && t in Act(network, streams, a, c).writers
    ensures var w := Act(network, streams, a, c).writers[t];
            w.version == c.copies[a.controller].version && w.edits == c.copies[a.controller].edits
  {
    if a.EditMain? {
      A.WrittenIsActive(A.Books(map[], c.main, map[]), a.calls, network,
                        Working(c.copies[a.controller]).network.info.nodes, a.p);
    }
  }

  /** And in the run of accepted edits, every booking names the nodes that are active in the stored object at that
      point: a booking made on a stale copy is never stored. */
  lemma {:induction false} BookingsAreCurrent(edits: seq<Edit>, k: nat)
    requires ValidEdits(NEW_DOCUMENT, edits) && k < |edits| && edits[k].Book?
    ensures A.NamesActive(edits[k].aggregates, ActiveNodes(AfterEdits(NEW_DOCUMENT, edits[..k])))
  {
    if k < |edits| - 1 {
      BookingsAreCurrent(edits[..|edits| - 1], k);
      assert edits[..|edits| - 1][..k] == edits[..k];
    }
  }
}
