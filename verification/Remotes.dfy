/** The leafnode remotes of a NATS configuration. */
module Remotes {
  import opened Options
  import opened Text

  datatype Remote = Remote(url: string, credentials: string, account: string, denyImports: seq<string>,
                           denyExports: seq<string>)

  /** The index of the first remote that satisfies `p`, or the length. */
  function First(remotes: seq<Remote>, p: Remote -> bool): (i: nat)
    ensures i <= |remotes|
    ensures forall j :: 0 <= j < i ==> !p(remotes[j])
    ensures i < |remotes| ==> p(remotes[i])
  {
    if remotes == [] || p(remotes[0]) then 0 else 1 + First(remotes[1..], p)
  }

  function Without(remotes: seq<Remote>, i: nat): seq<Remote>
    requires i < |remotes|
  {
    remotes[..i] + remotes[i + 1..]
  }

  /** A removal: success, and the list afterwards. Without any list it reports success and does nothing. */
  function RemoveFirst(remotes: Option<seq<Remote>>, p: Remote -> bool): (bool, Option<seq<Remote>>) {
    if remotes.None? then (true, None)
    else if First(remotes.value, p) == |remotes.value| then (false, remotes)
    else (true, Some(Without(remotes.value, First(remotes.value, p))))
  }

  lemma FirstIs(remotes: seq<Remote>, p: Remote -> bool, i: nat)
    requires i <= |remotes| && (forall j :: 0 <= j < i ==> !p(remotes[j])) && (i < |remotes| ==> p(remotes[i]))
    ensures First(remotes, p) == i
  {
  }

  class Config {
    var remotes: Option<seq<Remote>>

    constructor ()
      ensures remotes == None
    {
      remotes := None;
    }

    method AddRemote(r: Remote)
      modifies this
      ensures remotes == Some((if old(remotes).Some? then old(remotes).value else []) + [r])
    {
      if remotes.None? {
        remotes := Some([]);
      }
      remotes := Some(remotes.value + [r]);
    }

    method RemoveRemoteByAccountPubKey(account: string) returns (ok: bool)
      modifies this
      ensures (ok, remotes) == RemoveFirst(old(remotes), (r: Remote) => r.account == account)
    {
      if remotes.None? {
        return true;
      }
      var list, found := remotes.value, false;
      for i := 0 to |list|
        invariant !found && remotes == Some(list)
        invariant forall j :: 0 <= j < i ==> list[j].account != account
      {
        if list[i].account == account {
          FirstIs(list, (r: Remote) => r.account == account, i);
          remotes := Some(list[..i] + list[i + 1..]);
          found := true;
          break;
        }
      }
      if !found {
        return false;
      }
      return true;
    }

    method RemoveRemoteByCredsfile(path: string) returns (ok: bool)
      modifies this
      ensures (ok, remotes) == RemoveFirst(old(remotes), (r: Remote) => Contains(r.credentials, path))
    {
      if remotes.None? {
        return true;
      }
      var list, found := remotes.value, false;
      for i := 0 to |list|
        invariant !found && remotes == Some(list)
        invariant forall j :: 0 <= j < i ==> !Contains(list[j].credentials, path)
      {
        if Contains(list[i].credentials, path) {
          FirstIs(list, (r: Remote) => Contains(r.credentials, path), i);
          remotes := Some(list[..i] + list[i + 1..]);
          found := true;
          break;
        }
      }
      if !found {
        return false;
      }
      return true;
    }
  }

  // ---- Runs ----

  datatype Op = Add(r: Remote) | RemoveAccount(account: string) | RemoveCreds(path: string)

  function Matches(op: Op): Remote -> bool {
    match op
    case Add(_) => (r: Remote) => false
    case RemoveAccount(account) => (r: Remote) => r.account == account
    case RemoveCreds(path) => (r: Remote) => Contains(r.credentials, path)
  }

  function Apply(remotes: Option<seq<Remote>>, op: Op): (bool, Option<seq<Remote>>) {
    if op.Add? then (true, Some((if remotes.Some? then remotes.value else []) + [op.r]))
    else RemoveFirst(remotes, Matches(op))
  }

  function List(remotes: Option<seq<Remote>>): seq<Remote> {
    if remotes.Some? then remotes.value else []
  }

  function Run(remotes: Option<seq<Remote>>, ops: seq<Op>): Option<seq<Remote>> {
    if ops == [] then remotes else Apply(Run(remotes, ops[..|ops| - 1]), ops[|ops| - 1]).1
  }

  function Count(remotes: seq<Remote>, account: string): nat {
    if remotes == [] then 0
    else Count(remotes[..|remotes| - 1], account) + (if remotes[|remotes| - 1].account == account then 1 else 0)
  }

  lemma {:induction false} CountConcat(a: seq<Remote>, b: seq<Remote>, account: string)
    ensures Count(a + b, account) == Count(a, account) + Count(b, account)
  {
    if b == [] {
      assert a + b == a;
    } else {
      CountConcat(a, b[..|b| - 1], account);
      assert (a + b)[..|a + b| - 1] == a + b[..|b| - 1];
    }
  }

  lemma CountWithout(remotes: seq<Remote>, i: nat, account: string)
    requires i < |remotes|
    ensures Count(remotes, account)
            == Count(Without(remotes, i), account) + (if remotes[i].account == account then 1 else 0)
  {
    assert remotes == remotes[..i] + ([remotes[i]] + remotes[i + 1..]);
    CountConcat(remotes[..i], [remotes[i]] + remotes[i + 1..], account);
    CountConcat([remotes[i]], remotes[i + 1..], account);
    CountConcat(remotes[..i], remotes[i + 1..], account);
    assert [remotes[i]][..0] == [];
  }

  /** Does this operation succeed in taking a remote of the account? (Without any list a removal reports success
      and takes nothing.) */
  function Takes(before: Option<seq<Remote>>, op: Op, account: string): nat {
    if op.Add? || before.None? || !Apply(before, op).0 then 0
    else if before.value[First(before.value, Matches(op))].account == account then 1 else 0
  }

  /** For removals by account: exactly the successful ones for that account. */
  lemma TakesByAccount(before: Option<seq<Remote>>, removed: string, account: string)
    ensures Takes(before, RemoveAccount(removed), account) ==
              if before.Some? && Apply(before, RemoveAccount(removed)).0 && removed == account then 1 else 0
  {
  }

  function Taken(remotes: Option<seq<Remote>>, ops: seq<Op>, account: string): nat {
    if ops == [] then 0
    else Taken(remotes, ops[..|ops| - 1], account) + Takes(Run(remotes, ops[..|ops| - 1]), ops[|ops| - 1], account)
  }

  /** All remotes ever added, in order. */
  function Added(ops: seq<Op>): seq<Remote> {
    if ops == [] then []
    else Added(ops[..|ops| - 1]) + (if ops[|ops| - 1].Add? then [ops[|ops| - 1].r] else [])
  }

  /** `a` is `b` with some elements left out. */
  predicate Subsequence(a: seq<Remote>, b: seq<Remote>) {
    if a == [] then true
    else if b == [] then false
    else
      Subsequence(a, b[..|b| - 1]) ||
      (a[|a| - 1] == b[|b| - 1] && Subsequence(a[..|a| - 1], b[..|b| - 1]))
  }

  lemma {:induction false} SubsequenceSelf(a: seq<Remote>)
    ensures Subsequence(a, a)
  {
    if a != [] {
      SubsequenceSelf(a[..|a| - 1]);
    }
  }

  lemma {:induction false} SubsequenceWithout(a: seq<Remote>, b: seq<Remote>, i: nat)
    requires Subsequence(a, b) && i < |a|
    ensures Subsequence(Without(a, i), b)
    decreases |b|
  {
    var b', r := b[..|b| - 1], Without(a, i);
    if Subsequence(a, b') {
      SubsequenceWithout(a, b', i);
    } else if i == |a| - 1 {
      assert r == a[..|a| - 1];
    } else {
      SubsequenceWithout(a[..|a| - 1], b', i);
      assert r[..|r| - 1] == Without(a[..|a| - 1], i) && r[|r| - 1] == a[|a| - 1];
    }
  }

  lemma SubsequenceSnoc(a: seq<Remote>, b: seq<Remote>, r: Remote)
    requires Subsequence(a, b)
    ensures Subsequence(a + [r], b + [r])
  {
    assert (a + [r])[..|a|] == a && (b + [r])[..|b|] == b;
  }

  lemma StepCounts(before: Option<seq<Remote>>, op: Op, account: string)
    ensures Count(List(Apply(before, op).1), account) + Takes(before, op, account) ==
            Count(List(before), account) + Count(if op.Add? then [op.r] else [], account)
  {
    if op.Add? {
      CountConcat(List(before), [op.r], account);
    } else if before.Some? {
      var i := First(before.value, Matches(op));
      if i < |before.value| {
        CountWithout(before.value, i, account);
      }
    }
  }

  lemma StepKeepsOrder(before: Option<seq<Remote>>, op: Op, all: seq<Remote>)
    requires Subsequence(List(before), all)
    ensures Subsequence(List(Apply(before, op).1), all + if op.Add? then [op.r] else [])
  {
    if op.Add? {
      SubsequenceSnoc(List(before), all, op.r);
    } else {
      assert all + [] == all;
      if before.Some? && First(before.value, Matches(op)) < |before.value| {
        SubsequenceWithout(before.value, all, First(before.value, Matches(op)));
      }
    }
  }

  /** Conservation over any run: per account the list holds what was there or added and not taken. */
  lemma {:induction false} RunConserves(remotes: Option<seq<Remote>>, ops: seq<Op>, account: string)
    ensures Count(List(Run(remotes, ops)), account) + Taken(remotes, ops, account) ==
            Count(List(remotes), account) + Count(Added(ops), account)
  {
    if ops != [] {
      var init, op := ops[..|ops| - 1], ops[|ops| - 1];
      RunConserves(remotes, init, account);
      StepCounts(Run(remotes, init), op, account);
      CountConcat(Added(init), if op.Add? then [op.r] else [], account);
    }
  }

  /** Over any run the survivors stand in the order in which they came. */
  lemma {:induction false} RunKeepsOrder(remotes: Option<seq<Remote>>, ops: seq<Op>)
    ensures Subsequence(List(Run(remotes, ops)), List(remotes) + Added(ops))
  {
    if ops == [] {
      assert List(remotes) + [] == List(remotes);
      SubsequenceSelf(List(remotes));
    } else {
      var init, op := ops[..|ops| - 1], ops[|ops| - 1];
      var appended := if op.Add? then [op.r] else [];
      RunKeepsOrder(remotes, init);
      StepKeepsOrder(Run(remotes, init), op, List(remotes) + Added(init));
      assert List(remotes) + (Added(init) + appended) == List(remotes) + Added(init) + appended;
    }
  }

  /** A removal by account fails exactly when there is a list without that account, and then changes nothing. */
  lemma FailedRemovalChangesNothing(remotes: Option<seq<Remote>>, account: string)
    ensures var (ok, after) := Apply(remotes, RemoveAccount(account));
            && (!ok <==> remotes.Some? && forall r :: r in remotes.value ==> r.account != account)
            && (!ok ==> after == remotes)
            && (ok && remotes.Some? ==> Count(after.value, account) == Count(remotes.value, account) - 1)
  {
    if remotes.Some? {
      var i := First(remotes.value, Matches(RemoveAccount(account)));
      if i < |remotes.value| {
        CountWithout(remotes.value, i, account);
        assert remotes.value[i] in remotes.value;
      }
    }
  }

  /** A removal takes out the first remote that matches, and only that: by account, or by a path within the
      credentials. Without a list it succeeds idly. */
  lemma RemovesTheFirst(before: seq<Remote>, r: Remote, after: seq<Remote>, key: string)
    ensures (forall x :: x in before ==> x.account != key) && r.account == key ==>
              Apply(Some(before + [r] + after), RemoveAccount(key)) == (true, Some(before + after))
    ensures (forall x :: x in before ==> !Contains(x.credentials, key)) && Contains(r.credentials, key) ==>
              Apply(Some(before + [r] + after), RemoveCreds(key)) == (true, Some(before + after))
    ensures (forall x :: x in before ==> !Contains(x.credentials, key)) ==>
              Apply(Some(before), RemoveCreds(key)) == (false, Some(before))
    ensures Apply(None, RemoveAccount(key)) == Apply(None, RemoveCreds(key)) == (true, None)
  {
    var list, i := before + [r] + after, |before|;
    assert Without(list, i) == before + after;
    assert forall j :: 0 <= j < i ==> list[j] == before[j] && before[j] in before;
    if (forall x :: x in before ==> x.account != key) && r.account == key {
      FirstIs(list, Matches(RemoveAccount(key)), i);
    }
    if forall x :: x in before ==> !Contains(x.credentials, key) {
      FirstIs(before, Matches(RemoveCreds(key)), |before|);
      if Contains(r.credentials, key) {
        FirstIs(list, Matches(RemoveCreds(key)), i);
      }
    }
  }

  /** Adding appends, to an empty list if there is none. */
  lemma AddAppends(list: seq<Remote>, r: Remote)
    ensures Apply(Some(list), Add(r)) == (true, Some(list + [r])) && Apply(None, Add(r)) == (true, Some([r]))
  {
    assert [] + [r] == [r];
  }

  /** Removing a freshly added account that was not there restores the list. */
  lemma AddThenRemove(remotes: Option<seq<Remote>>, r: Remote)
    requires forall x :: x in List(remotes) ==> x.account != r.account
    ensures Apply(Apply(remotes, Add(r)).1, RemoveAccount(r.account)) == (true, Some(List(remotes)))
  {
    var list := List(remotes) + [r];
    assert list[..|list| - 1] == List(remotes);
    FirstIs(list, Matches(RemoveAccount(r.account)), |list| - 1);
    assert Without(list, |list| - 1) == List(remotes);
  }
}
