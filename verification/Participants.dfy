/** The components of a network, booked under app.component names. */
module Participants {
  import opened Text

  function NameOf(app: string, component: string): string {
    app + "." + component
  }

  datatype Split3 = Parts(network: string, app: string, component: string) | Invalid

  function SplitNetworkParticipant(name: string): Split3 {
    var parts := Split(name, '.');
    if |parts| != 3 then Invalid else Parts(parts[0], parts[1], parts[2])
  }

  /** A name built from three parts is split back into them exactly when no part contains a dot. */
  lemma SplitOfName(network: string, app: string, component: string)
    ensures SplitNetworkParticipant(network + "." + app + "." + component).Parts? <==>
              '.' !in network && '.' !in app && '.' !in component
    ensures SplitNetworkParticipant(network + "." + app + "." + component).Parts? ==>
              SplitNetworkParticipant(network + "." + app + "." + component) == Parts(network, app, component)
  {
    var name := network + "." + app + "." + component;
    var rest := app + "." + component;
    assert name == network + ['.'] + rest && rest == app + ['.'] + component;
    SplitCount(network, rest, '.');
    SplitCount(app, component, '.');
    JoinOfSplit(network, '.');
    JoinOfSplit(app, '.');
    JoinOfSplit(component, '.');
    if '.' !in network && '.' !in app && '.' !in component {
      SplitConcat(network, rest, '.');
      SplitConcat(app, component, '.');
      SplitPlain(component, '.');
    }
  }

  /** Whatever is accepted is rebuilt by joining its parts. */
  lemma AcceptedIsRebuilt(name: string)
    requires SplitNetworkParticipant(name).Parts?
    ensures var p := SplitNetworkParticipant(name); name == p.network + "." + p.app + "." + p.component
  {
    var parts := Split(name, '.');
    JoinOfSplit(name, '.');
    assert parts == [parts[0], parts[1], parts[2]];
    assert Join(parts, '.') == parts[0] + ['.'] + Join(parts[1..], '.');
    assert Join(parts[1..], '.') == parts[1] + ['.'] + Join(parts[1..][1..], '.');
  }

  /** The app comes before the component, as the splitter expects it: with the network in front, names of dot-free parts
      are taken apart again. */
  lemma NameIsSplit(network: string, app: string, component: string)
    requires '.' !in network && '.' !in app && '.' !in component
    ensures SplitNetworkParticipant(network + "." + NameOf(app, component)) == Parts(network, app, component)
  {
    SplitOfName(network, app, component);
    assert network + "." + NameOf(app, component) == network + "." + app + "." + component;
  }

  // ---- Adding and removing ----

  type Components = map<string, string>

  /** The network controller enrolls its own participant without asking whether the name is there. */
  datatype Op =
    | Add(app: string, component: string, kind: string)
    | Remove(app: string, component: string)
    | Enroll(app: string, component: string, kind: string)

  function Apply(m: Components, op: Op): Components {
    match op
    case Add(a, c, kind) => if NameOf(a, c) in m then m else m[NameOf(a, c) := kind]
    case Remove(a, c) => m - {NameOf(a, c)}
    case Enroll(a, c, kind) => m[NameOf(a, c) := kind]
  }

  /** The first addition decides the type until the name is removed; enrolling overrides it. */
  lemma TypeRules(m: Components, app: string, component: string, kind: string, later: string)
    ensures var name := app + "." + component;
            && (name !in m ==> Apply(m, Add(app, component, kind)) == m[name := kind])
            && Apply(Apply(m, Add(app, component, kind)), Add(app, component, later))
               == Apply(m, Add(app, component, kind))
            && Apply(m, Enroll(app, component, kind)) == m[name := kind]
            && name !in Apply(m, Remove(app, component))
            && (forall k :: k != name ==> (k in Apply(m, Remove(app, component)) <==> k in m))
  {
  }

  /** The object whose Components map the participants controller edits. */
  class Registry {
    var components: Components

    constructor ()
      ensures components == map[]
    {
      components := map[];
    }

    method AddParticipant(app: string, component: string, kind: string)
      modifies this
      ensures components == Apply(old(components), Add(app, component, kind))
    {
      var name := NameOf(app, component);
      if name !in components {
        components := components[name := kind];
      }
    }

    method RemoveParticipant(app: string, component: string)
      modifies this
      ensures components == Apply(old(components), Remove(app, component))
    {
      var name := NameOf(app, component);
      if name in components {
        components := components - {name};
      }
      assert name !in old(components) ==> old(components) - {name} == old(components);
    }

    method EnrollParticipant(app: string, component: string, kind: string)
      modifies this
      ensures components == Apply(old(components), Enroll(app, component, kind))
    {
      components := components[NameOf(app, component) := kind];
    }
  }

  type Pairs = map<(string, string), string>

  /** The simple model: pairs of names with the type they were first added or last enrolled with. */
  function Ideal(m: Pairs, op: Op): Pairs {
    match op
    case Add(a, c, kind) => if (a, c) in m then m else m[(a, c) := kind]
    case Remove(a, c) => m - {(a, c)}
    case Enroll(a, c, kind) => m[(a, c) := kind]
  }

  ghost predicate Represents(m: Components, pairs: Pairs) {
    && (forall a, c :: (a, c) in pairs ==> NameOf(a, c) in m && m[NameOf(a, c)] == pairs[(a, c)])
    && (forall k :: k in m ==> exists a, c :: (a, c) in pairs && NameOf(a, c) == k)
  }

  function ApplyAll(m: Components, ops: seq<Op>): Components {
    if ops == [] then m else Apply(ApplyAll(m, ops[..|ops| - 1]), ops[|ops| - 1])
  }

  function IdealAll(m: Pairs, ops: seq<Op>): Pairs {
    if ops == [] then m else Ideal(IdealAll(m, ops[..|ops| - 1]), ops[|ops| - 1])
  }

  /** The operations name only pairs of the given set. */
  ghost predicate Over(ops: seq<Op>, pairs: iset<(string, string)>) {
    forall i :: 0 <= i < |ops| ==> (ops[i].app, ops[i].component) in pairs
  }

  ghost predicate NamesInjective(pairs: iset<(string, string)>) {
    forall a, c, a', c' :: (a, c) in pairs && (a', c') in pairs && NameOf(a, c) == NameOf(a', c') ==> a == a' && c == c'
  }

  lemma StepRepresents(m: Components, pairs: Pairs, op: Op, known: iset<(string, string)>)
    requires Represents(m, pairs) && NamesInjective(known)
    requires (op.app, op.component) in known && (forall p :: p in pairs ==> p in known)
    ensures Represents(Apply(m, op), Ideal(pairs, op))
  {
    var m', pairs' := Apply(m, op), Ideal(pairs, op);
    var name := NameOf(op.app, op.component);
    assert name in m ==> (op.app, op.component) in pairs by {
      if name in m {
        var a, c :| (a, c) in pairs && NameOf(a, c) == name;
      }
    }
    forall k | k in m' ensures exists a, c :: (a, c) in pairs' && NameOf(a, c) == k {
      if k == name {
        assert (op.app, op.component) in pairs';
      } else {
        var a, c :| (a, c) in pairs && NameOf(a, c) == k;
        assert (a, c) in pairs';
      }
    }
  }

  lemma {:induction false} InjectiveRuns(ops: seq<Op>, pairs: iset<(string, string)>)
    requires NamesInjective(pairs) && Over(ops, pairs)
    ensures Represents(ApplyAll(map[], ops), IdealAll(map[], ops))
    ensures forall p :: p in IdealAll(map[], ops) ==> p in pairs
  {
    if ops != [] {
      var init := ops[..|ops| - 1];
      InjectiveRuns(init, pairs);
      StepRepresents(ApplyAll(map[], init), IdealAll(map[], init), ops[|ops| - 1], pairs);
    }
  }

  /** Two pairs with one name: removing the second also removes the first. */
  lemma CollisionLosesPair(a: string, c: string, a': string, c': string, kind: string)
    requires NameOf(a, c) == NameOf(a', c') && (a, c) != (a', c')
    ensures var ops := [Add(a, c, kind), Remove(a', c')];
            ApplyAll(map[], ops) == map[] && IdealAll(map[], ops) == map[(a, c) := kind]
  {
    var ops := [Add(a, c, kind), Remove(a', c')];
    assert ops[..1] == [ops[0]] && ops[..1][..0] == [];
    assert ApplyAll(map[], ops[..1]) == map[NameOf(a, c) := kind];
    assert IdealAll(map[], ops[..1]) == map[(a, c) := kind];
  }

  /** Every run of additions and removals over a set of pairs keeps the map equal to the set of added pairs
      if and only if no two of the pairs share their name. */
  lemma RunRepresents(pairs: iset<(string, string)>)
    ensures (forall ops :: Over(ops, pairs) ==> Represents(ApplyAll(map[], ops), IdealAll(map[], ops))) <==>
              NamesInjective(pairs)
  {
    if NamesInjective(pairs) {
      forall ops | Over(ops, pairs) ensures Represents(ApplyAll(map[], ops), IdealAll(map[], ops)) {
        InjectiveRuns(ops, pairs);
      }
    } else {
      var a, c, a', c' :|
        (a, c) in pairs && (a', c') in pairs && NameOf(a, c) == NameOf(a', c') && !(a == a' && c == c');
      var ops := [Add(a, c, ""), Remove(a', c')];
      CollisionLosesPair(a, c, a', c', "");
      assert Over(ops, pairs);
      assert (a, c) in IdealAll(map[], ops);
    }
  }

  // ---- Which names collide ----

  /** The longer app continues the shorter one behind a dot, and its component ends the other's. */
  ghost predicate Continues(a: string, c: string, a': string, c': string) {
    exists x :: a' == NameOf(a, x) && c == NameOf(x, c')
  }

  lemma LongerContinues(a: string, c: string, a': string, c': string)
    requires NameOf(a, c) == NameOf(a', c') && |a| < |a'|
    ensures Continues(a, c, a', c')
  {
    var name, x := NameOf(a, c), a'[|a| + 1..];
    assert name[..|a'|] == a' && name[..|a|] == a && name[|a|] == '.';
    assert a' == a'[..|a|] + [a'[|a|]] + x;
    assert a'[..|a|] == name[..|a'|][..|a|] == a;
    assert a' == NameOf(a, x);
    assert name[|a| + 1..] == c && name[|a'| + 1..] == c' && name[|a'|] == '.';
    assert c == name[|a| + 1..|a'|] + [name[|a'|]] + name[|a'| + 1..];
    assert name[|a| + 1..|a'|] == name[..|a'|][|a| + 1..] == x;
    assert c == NameOf(x, c');
  }

  /** Two pairs share their name only if they are equal or a dot has moved from one part to the other. */
  lemma NamesCollide(a: string, c: string, a': string, c': string)
    ensures NameOf(a, c) == NameOf(a', c') <==>
              (a, c) == (a', c') || Continues(a, c, a', c') || Continues(a', c', a, c)
  {
    if NameOf(a, c) == NameOf(a', c') {
      if |a| < |a'| {
        LongerContinues(a, c, a', c');
      } else if |a'| < |a| {
        LongerContinues(a', c', a, c);
      } else {
        assert NameOf(a, c)[..|a|] == a && NameOf(a, c)[|a| + 1..] == c;
        assert NameOf(a', c')[..|a'|] == a' && NameOf(a', c')[|a'| + 1..] == c';
      }
    }
    if x :| a' == NameOf(a, x) && c == NameOf(x, c') {
      assert a + "." + (x + "." + c') == (a + "." + x) + "." + c';
    }
    if x :| a == NameOf(a', x) && c' == NameOf(x, c) {
      assert a' + "." + (x + "." + c) == (a' + "." + x) + "." + c;
    }
  }

  lemma DotInside(a: string, a': string)
    ensures (exists x :: a' == NameOf(a, x)) ==> '.' in a'
    ensures (exists x :: a == NameOf(a', x)) ==> '.' in a
  {
    if x :| a' == NameOf(a, x) {
      assert a'[|a|] == '.';
    }
    if x :| a == NameOf(a', x) {
      assert a[|a'|] == '.';
    }
  }

  /** So apps without dots are safe, whatever the components. */
  lemma DotFreeAppsRepresent(ops: seq<Op>)
    requires forall i :: 0 <= i < |ops| ==> '.' !in ops[i].app
    ensures Represents(ApplyAll(map[], ops), IdealAll(map[], ops))
  {
    var pairs := iset a: string, c: string | '.' !in a :: (a, c);
    forall a, c, a', c' | (a, c) in pairs && (a', c') in pairs && NameOf(a, c) == NameOf(a', c')
      ensures a == a' && c == c'
    {
      NamesCollide(a, c, a', c');
      DotInside(a, a');
    }
    RunRepresents(pairs);
    assert Over(ops, pairs);
  }

  /** And an app with a dot always loses against the app before its dot. */
  lemma DottedAppsCollide(a: string, x: string, c: string, kind: string)
    ensures var ops := [Add(NameOf(a, x), c, kind), Remove(a, NameOf(x, c))];
            IdealAll(map[], ops) == map[(NameOf(a, x), c) := kind] && ApplyAll(map[], ops) == map[]
  {
    assert Continues(a, NameOf(x, c), NameOf(a, x), c);
    NamesCollide(a, NameOf(x, c), NameOf(a, x), c);
    assert |NameOf(a, x)| > |a|;
    CollisionLosesPair(NameOf(a, x), c, a, NameOf(x, c), kind);
  }
}
