/** createJetstreamConfig: selecting and prefixing the subjects of a stream, and its policies. */
module JetstreamConfig {
  import opened Options
  import opened NetworkSpec
  import opened Text
  import D = Durations

  const LOCAL_ONLY := "local.>"

  datatype Retention = Limits | Interest | WorkQueue
  datatype Storage = File | Memory
  datatype Discard = Old | New

  datatype StreamConfig = StreamConfig(name: string, subjects: seq<string>, retention: Retention, maxMsgsPer: int,
                                       maxMsgs: int, maxBytes: int, maxAge: int, maxMsgSize: int, storage: Storage,
                                       discard: Discard, replicas: nat, noAck: bool, maxConsumers: int)

  datatype ConfigError = NoSubjects | BadMaxAge | BadRetention | BadStorage | BadDiscard

  datatype Result<+T> = Ok(value: T) | Err(error: ConfigError)

  function RetentionOf(s: string): Option<Retention> {
    if s == "limits" then Some(Limits) else if s == "interest" then Some(Interest)
    else if s == "workqueue" then Some(WorkQueue) else None
  }

  function StorageOf(s: string): Option<Storage> {
    if s == "file" then Some(File) else if s == "memory" then Some(Memory) else None
  }

  function DiscardOf(s: string): Option<Discard> {
    if s == "old" then Some(Old) else if s == "new" then Some(New) else None
  }

  /** The subjects of all specs written for the stream, in order. */
  function Selected(specs: seq<SubjectSpec>, stream: string): seq<string> {
    if specs == [] then []
    else
      var last := specs[|specs| - 1];
      Selected(specs[..|specs| - 1], stream) + (if last.stream == stream then last.subjects else [])
  }

  /** Subjects get the domain in front, except the one that never leaves the node. */
  function Prefixed(domain: string, subject: string): string {
    if subject == LOCAL_ONLY then subject else domain + "." + subject
  }

  function DomainSubjects(domain: string, subjects: seq<string>): (r: seq<string>)
    ensures |r| == |subjects|
  {
    if domain == "" then subjects else seq(|subjects|, i requires 0 <= i < |subjects| => Prefixed(domain, subjects[i]))
  }

  /** The first error in the order of the checks, or none. */
  function FirstError(stream: StreamSpec, specs: Option<seq<SubjectSpec>>, p: D.Platform): Option<ConfigError> {
    if specs.Some? && Selected(specs.value, stream.name) == [] then Some(NoSubjects)
    else if D.ParseDuration(stream.config.maxAge, p).None? then Some(BadMaxAge)
    else if RetentionOf(stream.config.retention).None? then Some(BadRetention)
    else if StorageOf(stream.config.storage).None? then Some(BadStorage)
    else if DiscardOf(stream.config.discard).None? then Some(BadDiscard)
    else None
  }

  lemma {:induction false} SelectedConcat(a: seq<SubjectSpec>, b: seq<SubjectSpec>, stream: string)
    ensures Selected(a + b, stream) == Selected(a, stream) + Selected(b, stream)
  {
    if b == [] {
      assert a + b == a;
    } else {
      SelectedConcat(a, b[..|b| - 1], stream);
      assert (a + b)[..|a + b| - 1] == a + b[..|b| - 1];
    }
  }

  /** The subjects of a spec stand among the selected ones, in the order of the specs, exactly if it is written for the
      stream. */
  lemma SelectedInOrder(a: seq<SubjectSpec>, s: SubjectSpec, b: seq<SubjectSpec>, stream: string)
    ensures Selected(a + [s] + b, stream) ==
              Selected(a, stream) + (if s.stream == stream then s.subjects else []) + Selected(b, stream)
  {
    SelectedConcat(a + [s], b, stream);
    SelectedConcat(a, [s], stream);
    assert [s][..0] == [];
  }

  /** A subject is selected exactly if some spec lists it for the stream. */
  lemma {:induction false} SelectedIff(specs: seq<SubjectSpec>, stream: string, x: string)
    ensures x in Selected(specs, stream) <==> exists s :: s in specs && s.stream == stream && x in s.subjects
  {
    if specs != [] {
      var init, last := specs[..|specs| - 1], specs[|specs| - 1];
      SelectedIff(init, stream, x);
      assert specs == init + [last];
    }
  }

  // ---- The checks ----

  lemma Policies(s: string)
    ensures RetentionOf(s) == Some(Limits) <==> s == "limits"
    ensures RetentionOf(s) == Some(Interest) <==> s == "interest"
    ensures RetentionOf(s) == Some(WorkQueue) <==> s == "workqueue"
    ensures StorageOf(s) == Some(File) <==> s == "file"
    ensures StorageOf(s) == Some(Memory) <==> s == "memory"
    ensures DiscardOf(s) == Some(Old) <==> s == "old"
    ensures DiscardOf(s) == Some(New) <==> s == "new"
  {
  }

  predicate Wrong(e: ConfigError, stream: StreamSpec, specs: Option<seq<SubjectSpec>>, p: D.Platform) {
    match e
    case NoSubjects => specs.Some? && forall s :: s in specs.value && s.stream == stream.name ==> s.subjects == []
    case BadMaxAge => D.ParseDuration(stream.config.maxAge, p) == None
    case BadRetention => stream.config.retention !in {"limits", "interest", "workqueue"}
    case BadStorage => stream.config.storage !in {"file", "memory"}
    case BadDiscard => stream.config.discard !in {"old", "new"}
  }

  lemma NothingSelected(specs: seq<SubjectSpec>, stream: string)
    ensures Selected(specs, stream) == [] <==> forall s :: s in specs && s.stream == stream ==> s.subjects == []
  {
    if Selected(specs, stream) != [] {
      SelectedIff(specs, stream, Selected(specs, stream)[0]);
    }
    forall s | s in specs && s.stream == stream && s.subjects != [] ensures Selected(specs, stream) != [] {
      SelectedIff(specs, stream, s.subjects[0]);
    }
  }

  /** The error reported is the first that applies: no subjects, then maximal age, retention, storage and discard. */
  lemma FirstErrorFirst(stream: StreamSpec, specs: Option<seq<SubjectSpec>>, p: D.Platform)
    ensures FirstError(stream, specs, p) ==
              if Wrong(NoSubjects, stream, specs, p) then Some(NoSubjects)
              else if Wrong(BadMaxAge, stream, specs, p) then Some(BadMaxAge)
              else if Wrong(BadRetention, stream, specs, p) then Some(BadRetention)
              else if Wrong(BadStorage, stream, specs, p) then Some(BadStorage)
              else if Wrong(BadDiscard, stream, specs, p) then Some(BadDiscard)
              else None
  {
    if specs.Some? {
      NothingSelected(specs.value, stream.name);
    }
  }

  method SelectSubjects(specs: seq<SubjectSpec>, stream: string) returns (subjects: seq<string>)
    ensures subjects == Selected(specs, stream)
  {
    subjects := [];
    for i := 0 to |specs|
      invariant subjects == Selected(specs[..i], stream)
    {
      assert specs[..i + 1][..i] == specs[..i];
      if specs[i].stream == stream {
        subjects := subjects + specs[i].subjects;
      }
    }
    assert specs[..|specs|] == specs;
  }

  method PrefixSubjects(domain: string, subjects: seq<string>) returns (r: seq<string>)
    ensures r == DomainSubjects(domain, subjects)
  {
    if domain == "" {
      return subjects;
    }
    r := [];
    for i := 0 to |subjects|
      invariant r == DomainSubjects(domain, subjects)[..i]
    {
      if subjects[i] == LOCAL_ONLY {
        r := r + [subjects[i]];
      } else {
        r := r + [domain + "." + subjects[i]];
      }
    }
  }

  method CreateJetstreamConfig(domain: string, stream: StreamSpec, specs: Option<seq<SubjectSpec>>, p: D.Platform)
      returns (r: Result<StreamConfig>)
    ensures r.Err? <==> FirstError(stream, specs, p).Some?
    ensures r.Err? ==> r.error == FirstError(stream, specs, p).value
    ensures r.Ok? ==>
              && r.value.name == stream.name
              && r.value.subjects
                 == DomainSubjects(domain, if specs.Some? then Selected(specs.value, stream.name) else [])
              && D.ParseDuration(stream.config.maxAge, p) == Some(r.value.maxAge)
              && RetentionOf(stream.config.retention) == Some(r.value.retention)
              && StorageOf(stream.config.storage) == Some(r.value.storage)
              && DiscardOf(stream.config.discard) == Some(r.value.discard)
              && r.value.maxMsgsPer == stream.config.maxMsgsPerSubject && r.value.maxMsgs == stream.config.maxMsgs
              && r.value.maxBytes == stream.config.maxBytes && r.value.maxMsgSize == stream.config.maxMsgSize
              && r.value.replicas == 1 && !r.value.noAck && r.value.maxConsumers == -1
  {
    var subjects: seq<string> := [];
    if specs.Some? {
      subjects := SelectSubjects(specs.value, stream.name);
      if |subjects| == 0 {
        return Err(NoSubjects);
      }
    }
    var domainSubjects := PrefixSubjects(domain, subjects);
    var maxAge := D.ParseDurationString(stream.config.maxAge, p);
    if maxAge.None? {
      return Err(BadMaxAge);
    }
    var retention := RetentionOf(stream.config.retention);
    if retention.None? {
      return Err(BadRetention);
    }
    var storage := StorageOf(stream.config.storage);
    if storage.None? {
      return Err(BadStorage);
    }
    var discard := DiscardOf(stream.config.discard);
    if discard.None? {
      return Err(BadDiscard);
    }
    return Ok(StreamConfig(stream.name, domainSubjects, retention.value, stream.config.maxMsgsPerSubject,
                           stream.config.maxMsgs, stream.config.maxBytes, maxAge.value, stream.config.maxMsgSize,
                           storage.value, discard.value, 1, false, -1));
  }

  // ---- Subjects and patterns of NATS ----

  function Tokens(subject: string): seq<string> {
    Split(subject, '.')
  }

  /** Token match: `*` stands for one token, a final `>` for one or more. */
  predicate Matches(pattern: seq<string>, subject: seq<string>) {
    if pattern == [] then subject == []
    else if pattern == [">"] then subject != []
    else subject != [] && (pattern[0] == "*" || pattern[0] == subject[0]) && Matches(pattern[1..], subject[1..])
  }

  /** Without a final tail wildcard the tokens match one by one; with it, at least one more token is left for it. */
  lemma {:induction false} MatchesIff(pattern: seq<string>, subject: seq<string>)
    requires forall i :: 0 <= i < |pattern| - 1 ==> pattern[i] != ">"
    ensures var tail := pattern != [] && pattern[|pattern| - 1] == ">";
            var n := if tail then |pattern| - 1 else |pattern|;
            Matches(pattern, subject) <==>
              (if tail then |subject| > n else |subject| == n) &&
              forall i :: 0 <= i < n ==> pattern[i] == "*" || pattern[i] == subject[i]
  {
    if pattern != [] && pattern != [">"] && subject != [] {
      MatchesIff(pattern[1..], subject[1..]);
      var rest, tokens := pattern[1..], subject[1..];
      assert forall i :: 0 <= i < |rest| ==> rest[i] == pattern[i + 1];
      assert forall i :: 0 <= i < |tokens| ==> tokens[i] == subject[i + 1];
      assert forall i :: 1 <= i < |pattern| ==> pattern[i] == rest[i - 1];
      assert forall i :: 1 <= i < |subject| ==> subject[i] == tokens[i - 1];
    }
  }

  /** A subject one can publish to. */
  predicate Concrete(subject: seq<string>) {
    subject != [] && forall i :: 0 <= i < |subject| ==> subject[i] !in {"", "*", ">"}
  }

  predicate Domain(d: string) {
    d != "" && '.' !in d
  }

  /** A published subject is received by a stream of domain `d` with the given subjects. */
  ghost predicate Receives(d: string, subjects: seq<string>, subject: seq<string>) {
    Concrete(subject) &&
    exists i :: 0 <= i < |subjects| && Matches(Tokens(DomainSubjects(d, subjects)[i]), subject)
  }

  /** First tokens of subjects that the domain may receive; `local` says whether its list holds the local-only one. */
  predicate Admits(d: string, local: bool, first: string) {
    d == "*" || d == first || (local && first == "local")
  }

  lemma PrefixedTokens(d: string, s: string)
    requires '.' !in d && s != LOCAL_ONLY
    ensures Tokens(Prefixed(d, s)) == [d] + Tokens(s)
  {
    SplitConcat(d, s, '.');
    assert d + ['.'] + s == d + "." + s;
  }

  lemma LocalTokens()
    ensures Tokens(LOCAL_ONLY) == ["local", ">"]
  {
    SplitConcat("local", ">", '.');
    SplitPlain(">", '.');
    assert "local" + ['.'] + ">" == LOCAL_ONLY;
  }

  lemma FirstTokenAdmitted(d: string, subjects: seq<string>, subject: seq<string>)
    requires Domain(d) && Receives(d, subjects, subject)
    ensures Admits(d, LOCAL_ONLY in subjects, subject[0])
    ensures subject[0] !in {"", "*", ">"}
  {
    var i :| 0 <= i < |subjects| && Matches(Tokens(DomainSubjects(d, subjects)[i]), subject);
    LocalTokens();
    if subjects[i] != LOCAL_ONLY {
      PrefixedTokens(d, subjects[i]);
    }
  }

  /** A list of one subject that receives `first.x`. */
  lemma AdmittedIsReceived(d: string, local: bool, first: string) returns (subjects: seq<string>)
    requires Domain(d) && Admits(d, local, first) && first !in {"", "*", ">"}
    ensures Receives(d, subjects, [first, "x"]) && (LOCAL_ONLY in subjects ==> local)
  {
    assert Concrete([first, "x"]) && [first, "x"][1..] == ["x"];
    if d == "*" || d == first {
      subjects := ["x"];
      PrefixedTokens(d, "x");
      SplitPlain("x", '.');
      assert [d, "x"][1..] == ["x"] && Matches(["x"], ["x"]);
      assert Matches(Tokens(DomainSubjects(d, subjects)[0]), [first, "x"]);
    } else {
      subjects := [LOCAL_ONLY];
      LocalTokens();
      assert ["local", ">"][1..] == [">"] && Matches([">"], ["x"]);
      assert Matches(Tokens(DomainSubjects(d, subjects)[0]), [first, "x"]);
    }
  }

  /** Some streams of the two domains receive a common subject; `local1` and `local2` say whether their lists may
      hold the local-only subject. */
  ghost predicate Crosstalk(d1: string, local1: bool, d2: string, local2: bool) {
    exists l1, l2, subject :: Receives(d1, l1, subject) && Receives(d2, l2, subject) &&
      (LOCAL_ONLY in l1 ==> local1) && (LOCAL_ONLY in l2 ==> local2)
  }

  /** The domains themselves overlap: equal, or one is the wildcard (but `>` in front of a subject matches nothing). */
  predicate Overlap(d1: string, d2: string) {
    (d1 == d2 || d1 == "*" || d2 == "*") && d1 != ">" && d2 != ">"
  }

  /** Or the local-only subject, which gets no domain in front, is involved: on both sides, or on one side when the
      other domain is called "local" (or is the wildcard). */
  predicate LocalOverlap(d1: string, local1: bool, d2: string, local2: bool) {
    (local1 && local2) || (local1 && d2 in {"local", "*"}) || (local2 && d1 in {"local", "*"})
  }

  ghost predicate CommonFirst(d1: string, local1: bool, d2: string, local2: bool) {
    exists first :: first !in {"", "*", ">"} && Admits(d1, local1, first) && Admits(d2, local2, first)
  }

  lemma CommonFirstToken(d1: string, local1: bool, d2: string, local2: bool)
    requires Domain(d1) && Domain(d2)
    ensures CommonFirst(d1, local1, d2, local2) <==> Overlap(d1, d2) || LocalOverlap(d1, local1, d2, local2)
  {
    var first := if Overlap(d1, d2) then (if d1 != "*" then d1 else if d2 != "*" then d2 else "x") else "local";
    if Overlap(d1, d2) || LocalOverlap(d1, local1, d2, local2) {
      assert first !in {"", "*", ">"} && Admits(d1, local1, first) && Admits(d2, local2, first);
    }
  }

  lemma CrosstalkHasCommonFirst(d1: string, local1: bool, d2: string, local2: bool)
    requires Domain(d1) && Domain(d2) && Crosstalk(d1, local1, d2, local2)
    ensures CommonFirst(d1, local1, d2, local2)
  {
    var l1, l2, subject :| Receives(d1, l1, subject) && Receives(d2, l2, subject) &&
      (LOCAL_ONLY in l1 ==> local1) && (LOCAL_ONLY in l2 ==> local2);
    FirstTokenAdmitted(d1, l1, subject);
    FirstTokenAdmitted(d2, l2, subject);
    assert Admits(d1, local1, subject[0]) && Admits(d2, local2, subject[0]);
  }

  lemma CommonFirstMakesCrosstalk(d1: string, local1: bool, d2: string, local2: bool)
    requires Domain(d1) && Domain(d2) && CommonFirst(d1, local1, d2, local2)
    ensures Crosstalk(d1, local1, d2, local2)
  {
    var first :| first !in {"", "*", ">"} && Admits(d1, local1, first) && Admits(d2, local2, first);
    var l1 := AdmittedIsReceived(d1, local1, first);
    var l2 := AdmittedIsReceived(d2, local2, first);
  }

  /** Streams of two domains receive a common subject only if the domains overlap or the local-only subject is
      involved. */
  lemma NoCrosstalk(d1: string, local1: bool, d2: string, local2: bool)
    requires Domain(d1) && Domain(d2)
    ensures Crosstalk(d1, local1, d2, local2) <==> Overlap(d1, d2) || LocalOverlap(d1, local1, d2, local2)
  {
    CommonFirstToken(d1, local1, d2, local2);
    if Crosstalk(d1, local1, d2, local2) {
      CrosstalkHasCommonFirst(d1, local1, d2, local2);
    }
    if CommonFirst(d1, local1, d2, local2) {
      CommonFirstMakesCrosstalk(d1, local1, d2, local2);
    }
  }

  /** Without a domain the subjects stay as they are; with a dot-free one every subject but the local-only one gets it
      as its first token. */
  lemma SubjectTokens(d: string, subjects: seq<string>, i: nat)
    requires i < |subjects|
    ensures d == "" ==> DomainSubjects(d, subjects) == subjects
    ensures Domain(d) ==>
              Tokens(DomainSubjects(d, subjects)[i]) ==
              if subjects[i] == "local.>" then ["local", ">"] else [d] + Tokens(subjects[i])
  {
    LocalTokens();
    if Domain(d) && subjects[i] != LOCAL_ONLY {
      PrefixedTokens(d, subjects[i]);
    }
  }

  /** Only one subject and domain make the local-only subject. */
  lemma MakesLocalOnly(d: string, s: string)
    ensures d + "." + s == LOCAL_ONLY <==> d == "local" && s == ">"
  {
    var t := d + "." + s;
    assert t[|d|] == '.' && t[..|d|] == d && t[|d| + 1..] == s;
    if t == LOCAL_ONLY {
      assert |d| < 7 && LOCAL_ONLY[|d|] == '.';
      assert |d| == 5;
      assert LOCAL_ONLY[..5] == "local" && LOCAL_ONLY[6..] == ">";
    }
  }

  /** Two subjects look the same in a domain only if they are, or if the domain is called "local" and one is the
      local-only subject and the other ">". */
  lemma SamePrefixed(d: string, s: string, t: string)
    ensures Prefixed(d, s) == Prefixed(d, t) <==>
              s == t || (d == "local" && ((s == ">" && t == LOCAL_ONLY) || (s == LOCAL_ONLY && t == ">")))
  {
    MakesLocalOnly(d, s);
    MakesLocalOnly(d, t);
    assert (d + "." + s)[|d| + 1..] == s && (d + "." + t)[|d| + 1..] == t;
  }

  /** Order, count and subjects survive the prefixing if and only if the domain is not called "local". */
  lemma PrefixingIsInjective(d: string)
    ensures (forall a, b :: DomainSubjects(d, a) == DomainSubjects(d, b) ==> a == b) <==> d != "local"
  {
    if d == "local" {
      var a, b := [">"], [LOCAL_ONLY];
      SamePrefixed(d, a[0], b[0]);
      assert DomainSubjects(d, a) == DomainSubjects(d, b) && a[0] != b[0];
    } else if d != "" {
      forall a, b | DomainSubjects(d, a) == DomainSubjects(d, b) ensures a == b {
        assert |a| == |DomainSubjects(d, a)| == |DomainSubjects(d, b)| == |b|;
        forall i | 0 <= i < |a| ensures a[i] == b[i] {
          assert DomainSubjects(d, a)[i] == DomainSubjects(d, b)[i];
          SamePrefixed(d, a[i], b[i]);
        }
      }
    }
  }

  /** The subject lists of two different domains share at most the local-only subject. */
  lemma SharedSubjects(d1: string, d2: string, l1: seq<string>, l2: seq<string>, x: string)
    requires Domain(d1) && Domain(d2) && d1 != d2
    requires x in DomainSubjects(d1, l1) && x in DomainSubjects(d2, l2)
    ensures x == LOCAL_ONLY
  {
    var i :| 0 <= i < |l1| && DomainSubjects(d1, l1)[i] == x;
    var j :| 0 <= j < |l2| && DomainSubjects(d2, l2)[j] == x;
    if l1[i] != LOCAL_ONLY && l2[j] != LOCAL_ONLY {
      PrefixedTokens(d1, l1[i]);
      assert Tokens(x)[0] == d1;
      PrefixedTokens(d2, l2[j]);
    }
  }
}
