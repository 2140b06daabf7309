/** Runs of the notifier, and what a registration followed by a deregistration restores. */
module NotifierRuns {
  import opened Prelude
  import opened Errno
  import opened NotifierModel
  import opened NotifierTheorems

  datatype Event =
    | Reg(name: Option<string>, domain: int, nb: Option<Nb>, regEnv: RegEnv)
    | Dereg(name: Option<string>, deregEnv: DeregEnv)
    | Callback(op: Opcode, service: int, slotDomain: int, stops: set<Nb>)

  /** A registering client brings a block of its own, and callbacks belong to a slot. */
  ghost predicate Legal(s: State, ev: Event) {
    match ev
    case Reg(_, _, nb, _) => nb.Some? ==> Fresh(s, nb.value)
    case Dereg(_, _) => true
    case Callback(_, service, domain, _) => IsSlot(service, domain)
  }

  /** No block on the called chain stops it. */
  predicate Uncut(s: State, ev: Event)
    requires |s.slots| == 4 && (ev.Callback? ==> IsSlot(ev.service, ev.slotDomain))
  {
    ev.Callback? ==> forall nb :: nb in s.slots[Ix(ev.service, ev.slotDomain)].chain ==> nb !in ev.stops
  }

  ghost function Step(s: State, ev: Event): (r: State)
    requires |s.slots| == 4 && Legal(s, ev)
    ensures |r.slots| == 4
  {
    match ev
    case Reg(name, domain, nb, env) => Register(s, name, domain, nb, env).0
    case Dereg(name, env) => Deregister(s, name, env).0
    case Callback(op, service, domain, stops) => ServiceCb(s, op, service, domain, stops)
  }

  ghost predicate LegalRun(s: State, evs: seq<Event>)
    requires |s.slots| == 4
    decreases |evs|
  {
    evs == [] || (Legal(s, evs[0]) && LegalRun(Step(s, evs[0]), evs[1..]))
  }

  ghost predicate UncutRun(s: State, evs: seq<Event>)
    requires |s.slots| == 4 && LegalRun(s, evs)
    decreases |evs|
  {
    evs == [] || (Uncut(s, evs[0]) && UncutRun(Step(s, evs[0]), evs[1..]))
  }

  ghost function Run(s: State, evs: seq<Event>): State
    requires |s.slots| == 4 && LegalRun(s, evs)
    decreases |evs|
  {
    if evs == [] then s else Run(Step(s, evs[0]), evs[1..])
  }

  /** After probe: nobody registered, SSR available, PDR available or disabled. */
  ghost predicate Initial(s: State) {
    && s.clients == [] && |s.slots| == 4
    && (forall i :: 0 <= i < 4 ==>
          s.slots[i].numOfClients == 0 && s.slots[i].chain == [] && s.slots[i].handle == 0)
    && s.slots[Ix(SSR, ADSP)].state == SERVICE_DOWN && s.slots[Ix(SSR, MODEM)].state == SERVICE_DOWN
    && s.slots[Ix(PDR, ADSP)].state in {SERVICE_DOWN, NO_SERVICE} && s.slots[Ix(PDR, MODEM)].state == NO_SERVICE
  }

  lemma StepKeepsInv(s: State, ev: Event)
    requires Inv(s) && Legal(s, ev)
    ensures Inv(Step(s, ev))
    ensures ViewsAgree(s) && Uncut(s, ev) ==> ViewsAgree(Step(s, ev))
  {
    match ev
    case Reg(name, domain, nb, env) =>
      RegisterKeepsInv(s, name, domain, nb, env);
      if ViewsAgree(s) {
        RegisterKeepsViews(s, name, domain, nb, env);
      }
    case Dereg(name, env) =>
      if name.Some? {
        DeregFromKeeps(s, name.value, 0, 0, env);
      }
    case Callback(op, service, domain, stops) =>
      CallbackKeepsInv(s, op, service, domain, stops);
      if ViewsAgree(s) && Uncut(s, ev) {
        CallbackKeepsViews(s, op, service, domain, stops);
      }
  }

  lemma {:induction false} RunKeepsInv(s: State, evs: seq<Event>)
    requires Inv(s) && LegalRun(s, evs)
    ensures Inv(Run(s, evs))
    ensures ViewsAgree(s) && UncutRun(s, evs) ==> ViewsAgree(Run(s, evs))
    decreases |evs|
  {
    if evs != [] {
      StepKeepsInv(s, evs[0]);
      RunKeepsInv(Step(s, evs[0]), evs[1..]);
    }
  }

  /**
   After every run from probe, counts, chains, handles and the client list agree; and PDR
   clients know their slot's state when no callback was cut short.
   */
  lemma EveryRunAgrees(s: State, evs: seq<Event>)
    requires Initial(s) && LegalRun(s, evs)
    ensures Inv(Run(s, evs))
    ensures UncutRun(s, evs) ==> ViewsAgree(Run(s, evs))
  {
    assert Inv(s);
    RunKeepsInv(s, evs);
  }

  // ---- Register, then deregister ----

  function WithoutName(cs: seq<Client>, name: string): seq<Client> {
    if cs == [] then []
    else (if cs[0].name == name then [] else [cs[0]]) + WithoutName(cs[1..], name)
  }

  lemma DeregOne(s: State, name: string, i: nat, ret: Rc, env: DeregEnv)
    requires Inv(s) && i < |s.clients| && s.clients[i].name == name && env == DeregEnv(0, 0)
    ensures var s2 := Left(s, s.clients[i]).(clients := RemoveAt(s.clients, i));
      && Inv(s2) && DeregFrom(s, name, i, ret, env) == DeregFrom(s2, name, i, ret, env)
      && s2.clients[..i] == s.clients[..i] && s2.clients[i..] == s.clients[i + 1..]
  {
    DeregClientOutcome(s, s.clients[i], env);
    LeftKeepsInv(s, i);
  }

  lemma WithoutNameFrom(cs: seq<Client>, i: nat, name: string)
    requires i < |cs|
    ensures cs[..i] + WithoutName(cs[i..], name) ==
      (if cs[i].name == name then cs[..i] else cs[..i + 1]) + WithoutName(cs[i + 1..], name)
  {
    assert cs[i..][1..] == cs[i + 1..];
  }

  /** With the frameworks willing, deregistration drops exactly the clients of that name. */
  lemma {:induction false} DeregDropsName(s: State, name: string, i: nat, ret: Rc, env: DeregEnv)
    requires Inv(s) && i <= |s.clients| && env == DeregEnv(0, 0)
    ensures DeregFrom(s, name, i, ret, env).1 == ret
    ensures DeregFrom(s, name, i, ret, env).0.clients == s.clients[..i] + WithoutName(s.clients[i..], name)
    decreases |s.clients| - i
  {
    if i < |s.clients| {
      WithoutNameFrom(s.clients, i, name);
      if s.clients[i].name != name {
        DeregDropsName(s, name, i + 1, ret, env);
      } else {
        DeregOne(s, name, i, ret, env);
        DeregDropsName(Left(s, s.clients[i]).(clients := RemoveAt(s.clients, i)), name, i, ret, env);
      }
    }
  }

  lemma {:induction false} WithoutNameLength(cs: seq<Client>, name: string)
    ensures |WithoutName(cs, name)| <= |cs|
    ensures WithoutName(cs, name) == cs <==> forall c :: c in cs ==> c.name != name
  {
    if cs != [] {
      WithoutNameLength(cs[1..], name);
      assert cs == [cs[0]] + cs[1..];
    }
  }

  lemma WithoutNameCons(c: Client, cs: seq<Client>, name: string)
    ensures WithoutName([c] + cs, name) == (if c.name == name then [] else [c]) + WithoutName(cs, name)
  {
    assert ([c] + cs)[1..] == cs;
  }

  lemma {:induction false} WithoutNameAppend(cs: seq<Client>, c: Client, name: string)
    ensures WithoutName(cs + [c], name) == WithoutName(cs, name) + (if c.name == name then [] else [c])
  {
    if cs == [] {
      WithoutNameCons(c, [], name);
      assert [] + [c] == [c] + [];
    } else {
      var rest := cs[1..] + [c];
      assert cs + [c] == [cs[0]] + rest;
      WithoutNameAppend(cs[1..], c, name);
      WithoutNameCons(cs[0], rest, name);
      WithoutNameCons(cs[0], cs[1..], name);
      assert cs == [cs[0]] + cs[1..];
    }
  }

  /** The same client list, and on every slot the same count, chain and use of a handle. */
  ghost predicate SameRegistrations(s: State, t: State)
    requires |s.slots| == |t.slots| == 4
  {
    && s.clients == t.clients
    && forall v, d :: IsSlot(v, d) ==>
         var x, y := s.slots[Ix(v, d)], t.slots[Ix(v, d)];
         x.numOfClients == y.numOfClients && x.chain == y.chain && (x.handle != 0 <==> y.handle != 0)
  }

  lemma SameClientsSameRegistrations(s: State, t: State)
    requires Inv(s) && Inv(t) && s.clients == t.clients
    ensures SameRegistrations(s, t)
  {
    forall v, d | IsSlot(v, d)
      ensures var x, y := s.slots[Ix(v, d)], t.slots[Ix(v, d)];
        x.numOfClients == y.numOfClients && x.chain == y.chain && (x.handle != 0 <==> y.handle != 0)
    {
      assert SlotAgrees(s, v, d) && SlotAgrees(t, v, d);
    }
  }

  /** What stays listed after a register and a deregister of one name. */
  lemma WithoutNewIff(cs: seq<Client>, c: Client, name: string)
    requires c.name == StoredName(name) && forall x :: x in cs ==> |x.name| <= NAME_MAX
    ensures WithoutName(cs + [c], name) == cs <==> |name| <= NAME_MAX && forall x :: x in cs ==> x.name != name
  {
    WithoutNameAppend(cs, c, name);
    WithoutNameLength(cs, name);
    if |name| > NAME_MAX {
      assert WithoutName(cs + [c], name) == cs + [c];
    }
  }

  lemma RegisterThenDeregister(s: State, name: string, domain: int, nb: Nb, env: RegEnv)
    requires Inv(s) && Fresh(s, nb) && 0 <= domain <= 1 && env.allocOk
    requires BestService(s, domain, env) != NO_SERVICE
    ensures var s1 := Register(s, Some(name), domain, Some(nb), env).0;
      var (s2, rc) := Deregister(s1, Some(name), DeregEnv(0, 0));
      rc == 0 && Inv(s2) &&
      s2.clients == WithoutName(s.clients + [Client(StoredName(name), nb, BestService(s, domain, env), domain)], name)
  {
    var s1 := Register(s, Some(name), domain, Some(nb), env).0;
    RegisterOutcome(s, name, domain, nb, env);
    RegisterKeepsInv(s, Some(name), domain, Some(nb), env);
    DeregDropsName(s1, name, 0, 0, DeregEnv(0, 0));
    DeregFromKeeps(s1, name, 0, 0, DeregEnv(0, 0));
    assert s1.clients[..0] == [] && s1.clients[0..] == s1.clients;
  }

  /**
   Registering a name and deregistering it restores all registrations if and only if the
   name fits the 19 stored characters and nobody was registered under it. A longer name is
   stored cut short and can never be deregistered.
   */
  lemma RegisterThenDeregisterIff(s: State, name: string, domain: int, nb: Nb, env: RegEnv)
    requires Inv(s) && Fresh(s, nb) && 0 <= domain <= 1 && env.allocOk
    requires BestService(s, domain, env) != NO_SERVICE
    ensures var s1 := Register(s, Some(name), domain, Some(nb), env).0;
      var (s2, rc) := Deregister(s1, Some(name), DeregEnv(0, 0));
      rc == 0 &&
      (SameRegistrations(s, s2) <==> |name| <= 19 && forall c :: c in s.clients ==> c.name != name)
  {
    var s2 := Deregister(Register(s, Some(name), domain, Some(nb), env).0, Some(name), DeregEnv(0, 0)).0;
    RegisterThenDeregister(s, name, domain, nb, env);
    WithoutNewIff(s.clients, Client(StoredName(name), nb, BestService(s, domain, env), domain), name);
    if s2.clients == s.clients {
      SameClientsSameRegistrations(s, s2);
    }
  }

  /** A client that already has a service is left alone by another walk over the services. */
  lemma ServedClientsStay(s: State, c: Client, env: RegEnv)
    requires Inv(s) && c in s.clients
    ensures RegClient(s, c, env).0 == s && RegClient(s, c, env).1 == c
  {
    UsedSlot(s, c);
    RegLoopServed(s, c, DefaultService(c.domain), 0, env);
  }

  /** Deregistration reports success exactly when nobody is left under the name, and touches no other name. */
  lemma DeregSucceedsIff(s: State, name: string, env: DeregEnv)
    requires Inv(s)
    ensures var (s', rc) := Deregister(s, Some(name), env);
      && (rc == 0 <==> forall j :: 0 <= j < |s'.clients| ==> s'.clients[j].name != name)
      && WithoutName(s'.clients, name) == WithoutName(s.clients, name)
  {
    DeregLeaves(s, name, 0, 0, env);
  }

  lemma WithoutNameRemove(cs: seq<Client>, i: nat, name: string)
    requires i < |cs| && cs[i].name == name
    ensures WithoutName(RemoveAt(cs, i), name) == WithoutName(cs, name)
  {
    if i > 0 {
      assert RemoveAt(cs, i)[1..] == RemoveAt(cs[1..], i - 1);
      WithoutNameRemove(cs[1..], i - 1, name);
    } else {
      assert RemoveAt(cs, 0) == cs[1..];
    }
  }

  lemma {:induction false} DeregLeaves(s: State, name: string, i: nat, ret: Rc, env: DeregEnv)
    requires Inv(s) && i <= |s.clients|
    ensures var (s', rc) := DeregFrom(s, name, i, ret, env);
      && i <= |s'.clients| && s'.clients[..i] == s.clients[..i]
      && (rc == 0 <==> ret == 0 && forall j :: i <= j < |s'.clients| ==> s'.clients[j].name != name)
      && WithoutName(s'.clients, name) == WithoutName(s.clients, name)
    decreases |s.clients| - i
  {
    if i < |s.clients| {
      var c := s.clients[i];
      if c.name != name {
        DeregLeaves(s, name, i + 1, ret, env);
        FirstKept(DeregFrom(s, name, i + 1, ret, env).0.clients, s.clients, i);
      } else {
        DeregClientOutcome(s, c, env);
        var rc := ClosingRc(s, c, env);
        if rc < 0 {
          DeregLeaves(s, name, i + 1, rc, env);
          FirstKept(DeregFrom(s, name, i + 1, rc, env).0.clients, s.clients, i);
        } else {
          LeftKeepsInv(s, i);
          WithoutNameRemove(s.clients, i, name);
          DeregLeaves(Left(s, c).(clients := RemoveAt(s.clients, i)), name, i, ret, env);
        }
      }
    }
  }

  lemma FirstKept(after: seq<Client>, before: seq<Client>, i: nat)
    requires i < |before| && i + 1 <= |after| && after[..i + 1] == before[..i + 1]
    ensures after[..i] == before[..i] && after[i] == before[i]
  {
    assert after[..i + 1][i] == before[..i + 1][i];
    assert after[..i] == after[..i + 1][..i];
  }

  /** The codes of a registration that never reaches a service. */
  lemma RegisterRefusals(s: State, name: Option<string>, domain: int, nb: Option<Nb>, env: RegEnv)
    requires |s.slots| == 4
    ensures name.None? || nb.None? ==> Register(s, name, domain, nb, env) == (s, -22)
    ensures name.Some? && nb.Some? && !env.allocOk ==> Register(s, name, domain, nb, env) == (s, -12)
    ensures name.Some? && nb.Some? && env.allocOk && !(0 <= domain <= 1) ==> Register(s, name, domain, nb, env) == (s, -22)
    ensures Deregister(s, None, DeregEnv(0, 0)) == (s, -22)
  {
  }
}
