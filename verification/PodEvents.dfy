/** One pod event for all networks named in the pod's labels. */
module PodEvents {
  import opened Slices
  import opened Participation
  import opened NetworkObject
  import opened Runs

  ghost predicate Separate(networks: map<string, Participating>) {
    forall m, n :: m in networks && n in networks && m != n ==> networks[m] != networks[n]
  }

  ghost predicate AllValid(networks: map<string, Participating>)
    reads networks.Values
  {
    forall n :: n in networks ==> networks[n] in networks.Values && networks[n].Valid()
  }

  ghost function Views(networks: map<string, Participating>): map<string, Network>
    reads networks.Values
  {
    map n | n in networks :: assert networks[n] in networks.Values; networks[n].View()
  }

  function ApplyTo(step: Step, views: map<string, Network>, names: set<string>): map<string, Network> {
    map n | n in views :: if n in names then Apply(step, views[n]) else views[n]
  }

  method Handle(network: Participating, step: Step)
    requires network.Valid() && IsPodEvent(step)
    modifies network
    ensures network.Valid() && network.View() == Apply(step, old(network.View()))
  {
    match step
    case Create(node, edge, pod) => network.ReconcileCreatePod(node, edge, pod);
    case Delete(node, pod) => network.ReconcileDeletePod(node, pod);
  }

  lemma OneApplied(step: Step, before: map<string, Network>, after: map<string, Network>, name: string)
    requires before.Keys == after.Keys && name in before && after[name] == Apply(step, before[name])
    requires forall n :: n in before && n != name ==> after[n] == before[n]
    ensures after == ApplyTo(step, before, {name})
  {
  }

  method Deliver(networks: map<string, Participating>, name: string, step: Step)
    requires Separate(networks) && AllValid(networks) && IsPodEvent(step) && name in networks
    modifies networks[name]
    ensures AllValid(networks) && Views(networks) == ApplyTo(step, old(Views(networks)), {name})
  {
    ghost var before := Views(networks);
    assert before[name] == networks[name].View();
    Handle(networks[name], step);
    forall n | n in networks && n != name ensures networks[n].Valid() && networks[n].View() == before[n] {
      assert networks[n] != networks[name];
    }
    OneApplied(step, before, Views(networks), name);
  }

  lemma ApplyOneMore(step: Step, views: map<string, Network>, names: set<string>, name: string)
    requires IsPodEvent(step) && name in views
    ensures ApplyTo(step, ApplyTo(step, views, names), {name}) == ApplyTo(step, views, names + {name})
  {
    EventsAreIdempotent(step, views[name]);
  }

  /** One network more gets the event. */
  method Serve(networks: map<string, Participating>, name: string, step: Step,
               ghost views: map<string, Network>, ghost served: set<string>)
    requires Separate(networks) && AllValid(networks) && IsPodEvent(step) && name in networks
    requires Views(networks) == ApplyTo(step, views, served)
    modifies networks.Values
    ensures AllValid(networks) && Views(networks) == ApplyTo(step, views, served + {name})
  {
    assert name in ApplyTo(step, views, served);
    ApplyOneMore(step, views, served, name);
    Deliver(networks, name, step);
  }

  /** The loop over the labels. */
  method ServeAll(networks: map<string, Participating>, podNetworks: seq<string>, accepted: seq<bool>,
                  step: Step)
      returns (done: nat)
    requires |accepted| == |podNetworks|
    requires Separate(networks) && AllValid(networks) && IsPodEvent(step)
    modifies networks.Values
    ensures AllValid(networks)
    ensures done <= |podNetworks| && Elems(podNetworks[..done]) <= networks.Keys
    ensures false !in accepted[..done]
    ensures done < |podNetworks| ==> podNetworks[done] !in networks || !accepted[done]
    ensures Views(networks) == ApplyTo(step, old(Views(networks)), Elems(podNetworks[..done]))
  {
    done := 0;
    ghost var views, served: set<string> := Views(networks), {};
    assert Views(networks) == ApplyTo(step, views, {});
    while done < |podNetworks| && podNetworks[done] in networks && accepted[done]
      invariant AllValid(networks)
      invariant done <= |podNetworks| && served == Elems(podNetworks[..done]) && served <= networks.Keys
      invariant false !in accepted[..done]
      invariant Views(networks) == ApplyTo(step, views, served)
      decreases |podNetworks| - done
    {
      ElemsTake(podNetworks, done);
      Serve(networks, podNetworks[done], step, views, served);
      served, done := served + {podNetworks[done]}, done + 1;
    }
  }

  /** The labels are processed until a network cannot be read or its update is not accepted. Networks named several
      times, in whatever order Go ranges over the labels, get the event once; all others keep their state. */
  method ReconcilePodEvent(networks: map<string, Participating>, podNetworks: seq<string>, accepted: seq<bool>,
                           step: Step)
      returns (done: nat)
    requires |accepted| == |podNetworks|
    requires Separate(networks) && AllValid(networks) && IsPodEvent(step)
    modifies networks.Values
    ensures AllValid(networks)
    ensures done <= |podNetworks| && Elems(podNetworks[..done]) <= networks.Keys
    ensures false !in accepted[..done]
    ensures done < |podNetworks| ==> podNetworks[done] !in networks || !accepted[done]
    ensures forall n :: n in networks ==>
              networks[n].View() == if n in podNetworks[..done] then Apply(step, old(networks[n].View()))
                                    else old(networks[n].View())
  {
    ghost var views := Views(networks);
    done := ServeAll(networks, podNetworks, accepted, step);
    forall n | n in networks
      ensures networks[n].View() == if n in podNetworks[..done] then Apply(step, old(networks[n].View()))
                                    else old(networks[n].View())
    {
      assert Views(networks)[n] == networks[n].View() && views[n] == old(networks[n].View());
    }
  }
}
