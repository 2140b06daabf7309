/**
 Agreement of the notifier's slots, chains and client list over every run, what clients
 are told, and what registration and deregistration amount to.
 */
module NotifierTheorems {
  import opened Prelude
  import opened Errno
  import opened NotifierModel

  // ---- The slots as the client list determines them ----

  /** Blocks of the listed clients of one slot, in registration order. */
  function NbsOn(clients: seq<Client>, service: int, domain: int): seq<Nb> {
    if clients == [] then []
    else OwnNb(clients[0], service, domain) + NbsOn(clients[1..], service, domain)
  }

  function OwnNb(c: Client, service: int, domain: int): seq<Nb> {
    if c.service == service && c.domain == domain then [c.nb] else []
  }

  /** The chain built by registering blocks in the given order: by priority, then by age. */
  function ChainOf(nbs: seq<Nb>): seq<Nb> {
    if nbs == [] then [] else Insert(ChainOf(nbs[..|nbs| - 1]), nbs[|nbs| - 1])
  }

  /**
   A slot matches its registrations: it counts them, its chain is exactly their blocks, and
   it holds a framework handle if and only if it has a client.
   */
  ghost predicate SlotMatches(slot: Slot, nbs: seq<Nb>) {
    slot.numOfClients == |nbs| && slot.chain == ChainOf(nbs) && (slot.handle != 0 <==> slot.numOfClients > 0)
  }

  ghost predicate SlotAgrees(s: State, service: int, domain: int)
    requires |s.slots| == 4 && IsSlot(service, domain)
  {
    SlotMatches(s.slots[Ix(service, domain)], NbsOn(s.clients, service, domain))
  }

  ghost predicate ClientOk(c: Client) {
    0 <= c.domain <= 1 && 0 <= c.service <= DefaultService(c.domain) && |c.name| <= NAME_MAX
  }

  ghost predicate ClientsOk(clients: seq<Client>) {
    && (forall i :: 0 <= i < |clients| ==> ClientOk(clients[i]))
    && forall i, j :: 0 <= i < j < |clients| ==> clients[i].nb != clients[j].nb
  }

  /** The invariant: every listed client has a service, and all four slots agree with the list. */
  ghost predicate Inv(s: State) {
    && |s.slots| == 4
    && ClientsOk(s.clients)
    && SlotsAgree(s)
    && s.slots[Ix(SSR, ADSP)].state >= 0 && s.slots[Ix(SSR, MODEM)].state >= 0
  }

  ghost predicate SlotsAgree(s: State)
    requires |s.slots| == 4
  {
    forall v, d :: IsSlot(v, d) ==> SlotAgrees(s, v, d)
  }

  /** Every PDR client was last told the state its slot is in. */
  ghost predicate ViewsAgree(s: State)
    requires |s.slots| == 4
  {
    forall c :: c in s.clients ==> ViewAgrees(s, c)
  }

  ghost predicate Fresh(s: State, nb: Nb) { forall c :: c in s.clients ==> c.nb != nb }

  // ---- Chains ----

  ghost predicate Sorted(chain: seq<Nb>) {
    forall i, j :: 0 <= i < j < |chain| ==> chain[i].priority >= chain[j].priority
  }

  lemma {:induction false} InsertProperties(chain: seq<Nb>, nb: Nb)
    requires Sorted(chain)
    ensures Sorted(Insert(chain, nb)) && |Insert(chain, nb)| == |chain| + 1
    ensures forall x :: x in Insert(chain, nb) <==> x in chain || x == nb
  {
    if chain != [] && nb.priority <= chain[0].priority {
      InsertProperties(chain[1..], nb);
      var t := Insert(chain[1..], nb);
      assert forall x :: x in t ==> x.priority <= chain[0].priority;
    }
  }

  lemma {:induction false} ChainProperties(nbs: seq<Nb>)
    ensures Sorted(ChainOf(nbs)) && |ChainOf(nbs)| == |nbs|
    ensures forall x :: x in ChainOf(nbs) <==> x in nbs
  {
    if nbs != [] {
      var init := nbs[..|nbs| - 1];
      ChainProperties(init);
      InsertProperties(ChainOf(init), nbs[|nbs| - 1]);
      assert nbs == init + [nbs[|nbs| - 1]];
    }
  }

  lemma {:induction false} RemoveInsertSame(chain: seq<Nb>, nb: Nb)
    requires nb !in chain
    ensures Remove(Insert(chain, nb), nb) == chain
  {
    if chain != [] && nb.priority <= chain[0].priority {
      RemoveInsertSame(chain[1..], nb);
    }
  }

  lemma {:induction false} RemoveInsertOther(chain: seq<Nb>, nb: Nb, x: Nb)
    requires Sorted(chain) && x != nb
    ensures Remove(Insert(chain, nb), x) == Insert(Remove(chain, x), nb)
  {
    if chain != [] {
      if nb.priority > chain[0].priority {
        assert chain[0] == x && chain[1..] != [] ==> nb.priority > chain[1].priority;
        assert Insert(chain, nb)[1..] == chain;
      } else if chain[0] != x {
        RemoveInsertOther(chain[1..], nb, x);
        assert Insert(chain, nb)[1..] == Insert(chain[1..], nb);
        assert Remove(chain, x)[1..] == Remove(chain[1..], x);
      } else {
        assert Insert(chain, nb)[1..] == Insert(chain[1..], nb);
      }
    }
  }

  ghost predicate Distinct(nbs: seq<Nb>) {
    forall i, j :: 0 <= i < j < |nbs| ==> nbs[i] != nbs[j]
  }

  /** Unregistering a block leaves the chain of the remaining registrations. */
  lemma {:induction false} RemoveFromChain(nbs: seq<Nb>, i: nat)
    requires i < |nbs| && Distinct(nbs)
    ensures Remove(ChainOf(nbs), nbs[i]) == ChainOf(RemoveAt(nbs, i))
  {
    var n := |nbs| - 1;
    var init := nbs[..n];
    ChainProperties(init);
    if i == n {
      assert RemoveAt(nbs, i) == init;
      RemoveInsertSame(ChainOf(init), nbs[n]);
    } else {
      RemoveFromChain(init, i);
      RemoveInsertOther(ChainOf(init), nbs[n], nbs[i]);
      RemoveAtInit(nbs, i);
    }
  }

  lemma RemoveAtInit(nbs: seq<Nb>, i: nat)
    requires i < |nbs| - 1
    ensures var n, r := |nbs| - 1, RemoveAt(nbs, i);
      |r| == n && r[n - 1] == nbs[n] && r[..n - 1] == RemoveAt(nbs[..n], i)
  {
  }

  // ---- The client list ----

  lemma {:induction false} NbsOnConcat(a: seq<Client>, b: seq<Client>, service: int, domain: int)
    ensures NbsOn(a + b, service, domain) == NbsOn(a, service, domain) + NbsOn(b, service, domain)
  {
    if a == [] {
      assert a + b == b;
    } else {
      assert (a + b)[1..] == a[1..] + b;
      NbsOnConcat(a[1..], b, service, domain);
    }
  }

  lemma NbsOnAppend(a: seq<Client>, c: Client, service: int, domain: int)
    ensures NbsOn(a + [c], service, domain) == NbsOn(a, service, domain) + OwnNb(c, service, domain)
  {
    NbsOnConcat(a, [c], service, domain);
    assert [c][1..] == [];
  }

  lemma NbsOnSplit(cs: seq<Client>, i: nat, service: int, domain: int)
    requires i < |cs|
    ensures NbsOn(cs, service, domain) ==
      NbsOn(cs[..i], service, domain) + OwnNb(cs[i], service, domain) + NbsOn(cs[i + 1..], service, domain)
    ensures NbsOn(RemoveAt(cs, i), service, domain) ==
      NbsOn(cs[..i], service, domain) + NbsOn(cs[i + 1..], service, domain)
  {
    var a, b := cs[..i], cs[i + 1..];
    assert cs == a + ([cs[i]] + b);
    assert ([cs[i]] + b)[1..] == b;
    NbsOnConcat(a, [cs[i]] + b, service, domain);
    NbsOnConcat(a, b, service, domain);
  }

  lemma {:induction false} NbsOnAvoids(cs: seq<Client>, nb: Nb, service: int, domain: int)
    requires forall i :: 0 <= i < |cs| ==> cs[i].nb != nb
    ensures nb !in NbsOn(cs, service, domain)
  {
    if cs != [] {
      assert cs[0].nb != nb;
      NbsOnAvoids(cs[1..], nb, service, domain);
    }
  }

  lemma DistinctCons(own: seq<Nb>, rest: seq<Nb>)
    requires |own| <= 1 && Distinct(rest) && forall x :: x in own ==> x !in rest
    ensures Distinct(own + rest)
  {
    if |own| == 1 {
      assert own[0] in own;
    }
  }

  lemma {:induction false} NbsOnDistinct(cs: seq<Client>, service: int, domain: int)
    requires forall i, j :: 0 <= i < j < |cs| ==> cs[i].nb != cs[j].nb
    ensures Distinct(NbsOn(cs, service, domain))
  {
    if cs != [] {
      var rest := NbsOn(cs[1..], service, domain);
      NbsOnDistinct(cs[1..], service, domain);
      NbsOnAvoids(cs[1..], cs[0].nb, service, domain);
      DistinctCons(OwnNb(cs[0], service, domain), rest);
    }
  }

  // ---- Registration ----

  /** The service that accepts a client: an enabled slot that is in use or whose framework answers. */
  predicate Accepts(s: State, service: int, domain: int, env: RegEnv)
    requires |s.slots| == 4 && IsSlot(service, domain)
  {
    var slot := s.slots[Ix(service, domain)];
    slot.state >= 0 && (slot.numOfClients > 0 || Handle(service, env) != 0)
  }

  /** The highest-priority accepting service, or NO_SERVICE. */
  function BestService(s: State, domain: int, env: RegEnv): int
    requires |s.slots| == 4 && 0 <= domain <= 1
  {
    if domain == ADSP && s.slots[Ix(PDR, ADSP)].state == UNINIT_SERVICE then NO_SERVICE
    else if domain == ADSP && Accepts(s, PDR, ADSP, env) then PDR
    else if Accepts(s, SSR, domain, env) then SSR
    else NO_SERVICE
  }

  /** The slot of a service that takes its first client, or a further one. */
  function Opened(slot: Slot, handle: nat): Slot {
    if slot.numOfClients == 0 then slot.(state := SERVICE_DOWN, handle := handle) else slot
  }

  lemma RegLoopServed(s: State, c: Client, service: int, ret: Rc, env: RegEnv)
    requires |s.slots| == 4 && -1 <= service <= 1 && 0 <= c.domain <= 1 && c.service != NO_SERVICE
    ensures RegLoop(s, c, service, ret, env).0 == s && RegLoop(s, c, service, ret, env).1 == c
    ensures (forall v :: 0 <= v <= service ==> s.slots[Ix(v, c.domain)].state != UNINIT_SERVICE) ==>
      RegLoop(s, c, service, ret, env).2 == ret
    decreases service + 1
  {
    if service >= 0 && s.slots[Ix(service, c.domain)].state != UNINIT_SERVICE {
      RegLoopServed(s, c, service - 1, ret, env);
    }
  }

  /** A slot after block `nb` registered on it. */
  function JoinedSlot(slot: Slot, nb: Nb, handle: nat): Slot {
    Opened(slot, handle).(chain := Insert(slot.chain, nb), numOfClients := slot.numOfClients + 1)
  }

  function Handle(service: int, env: RegEnv): nat { if service == SSR then env.ssr else env.pdr }

  /** The state in which a client has been put on its slot, opening it if it was unused. */
  function Joined(s: State, c: Client, v: int, env: RegEnv): State
    requires |s.slots| == 4 && IsSlot(v, c.domain)
  {
    var i := Ix(v, c.domain);
    s.(slots := s.slots[i := JoinedSlot(s.slots[i], c.nb, Handle(v, env))],
       views := if v == PDR then s.views[c.nb := Opened(s.slots[i], env.pdr).state] else s.views)
  }

  lemma RegClientServiceOutcome(s: State, c: Client, v: int, env: RegEnv)
    requires |s.slots| == 4 && IsSlot(v, c.domain) && s.slots[Ix(v, c.domain)].state >= 0
    ensures RegClientService(s, c, v, env) ==
      if Accepts(s, v, c.domain, env) then (Joined(s, c, v, env), c.(service := v), 0) else (s, c, EINVAL)
  {
    var i := Ix(v, c.domain);
    UpdateTwice(s.slots, i, s.slots[i].(state := SERVICE_DOWN, handle := Handle(v, env)),
                JoinedSlot(s.slots[i], c.nb, Handle(v, env)));
  }

  lemma UpdateTwice(slots: seq<Slot>, i: nat, x: Slot, y: Slot)
    requires i < |slots|
    ensures slots[i := x][i := y] == slots[i := y]
  {
  }

  lemma RegLoopSsr(s: State, c: Client, ret: Rc, env: RegEnv)
    requires |s.slots| == 4 && 0 <= c.domain <= 1 && c.service == NO_SERVICE
    requires s.slots[Ix(SSR, c.domain)].state >= 0
    ensures RegLoop(s, c, SSR, ret, env) ==
      if Accepts(s, SSR, c.domain, env) then (Joined(s, c, SSR, env), c.(service := SSR), 0) else (s, c, EINVAL)
  {
    RegClientServiceOutcome(s, c, SSR, env);
    var (s1, c1, rc) := RegClientService(s, c, SSR, env);
    assert RegLoop(s1, c1, SSR - 1, rc, env) == (s1, c1, rc);
  }

  lemma RegLoopPdr(s: State, c: Client, env: RegEnv)
    requires |s.slots| == 4 && c.domain == ADSP && c.service == NO_SERVICE
    requires s.slots[Ix(SSR, ADSP)].state >= 0 && s.slots[Ix(PDR, ADSP)].state != UNINIT_SERVICE
    ensures RegLoop(s, c, PDR, 0, env) ==
      if Accepts(s, PDR, ADSP, env) then (Joined(s, c, PDR, env), c.(service := PDR), 0)
      else RegLoop(s, c, SSR, 0, env)
  {
    RegLoopSsr(s, c, 0, env);
    if s.slots[Ix(PDR, ADSP)].state >= 0 {
      RegClientServiceOutcome(s, c, PDR, env);
      var (s1, c1, rc) := RegClientService(s, c, PDR, env);
      if rc == 0 {
        RegLoopServed(s1, c1, SSR, rc, env);
      } else {
        RegLoopSsr(s, c, rc, env);
      }
    }
  }

  lemma RegClientOutcome(s: State, c: Client, env: RegEnv)
    requires |s.slots| == 4 && 0 <= c.domain <= 1 && c.service == NO_SERVICE
    requires s.slots[Ix(SSR, ADSP)].state >= 0 && s.slots[Ix(SSR, MODEM)].state >= 0
    ensures var v := BestService(s, c.domain, env);
      RegClient(s, c, env) == if v == NO_SERVICE then (s, c, EINVAL) else (Joined(s, c, v, env), c.(service := v), 0)
  {
    if c.domain == MODEM {
      RegLoopSsr(s, c, 0, env);
    } else if s.slots[Ix(PDR, ADSP)].state != UNINIT_SERVICE {
      RegLoopPdr(s, c, env);
      RegLoopSsr(s, c, 0, env);
    }
  }

  /**
   A client ends on the highest-priority service that accepts it; when none does, the error
   leaves the slots, the chains, the client list and every view as they were.
   */
  lemma RegisterOutcome(s: State, name: string, domain: int, nb: Nb, env: RegEnv)
    requires Inv(s) && 0 <= domain <= 1 && env.allocOk
    ensures var v := BestService(s, domain, env);
      var c := Client(if |name| <= 19 then name else name[..19], nb, v, domain);
      Register(s, Some(name), domain, Some(nb), env) ==
        if v == NO_SERVICE then (s, -22) else (Joined(s, c, v, env).(clients := s.clients + [c]), 0)
  {
    RegClientOutcome(s, NewClient(name, domain, nb), env);
  }

  /** Whatever the arguments, an error changes nothing. */
  lemma FailedRegisterChangesNothing(s: State, name: Option<string>, domain: int, nb: Option<Nb>, env: RegEnv)
    requires Inv(s) && Register(s, name, domain, nb, env).1 < 0
    ensures Register(s, name, domain, nb, env).0 == s
  {
    if name.Some? && nb.Some? && env.allocOk && 0 <= domain <= 1 {
      RegisterOutcome(s, name.value, domain, nb.value, env);
    }
  }

  lemma JoinedSlotMatches(slot: Slot, nbs: seq<Nb>, nb: Nb, handle: nat)
    requires SlotMatches(slot, nbs) && (slot.numOfClients > 0 || handle != 0)
    ensures SlotMatches(JoinedSlot(slot, nb, handle), nbs + [nb])
  {
    assert (nbs + [nb])[..|nbs|] == nbs;
  }

  /** The slots after client `c` joined the list at its tail. */
  lemma JoinedKeepsSlot(s: State, c: Client, v: int, env: RegEnv, service: int, domain: int)
    requires |s.slots| == 4 && IsSlot(v, c.domain) && IsSlot(service, domain)
    requires SlotAgrees(s, service, domain) && Accepts(s, v, c.domain, env) && c.service == v
    ensures SlotAgrees(Joined(s, c, v, env).(clients := s.clients + [c]), service, domain)
  {
    NbsOnAppend(s.clients, c, service, domain);
    var nbs := NbsOn(s.clients, service, domain);
    if service == v && domain == c.domain {
      JoinedSlotMatches(s.slots[Ix(v, domain)], nbs, c.nb, Handle(v, env));
    } else {
      assert nbs + [] == nbs;
    }
  }

  lemma JoinedKeepsInv(s: State, c: Client, v: int, env: RegEnv)
    requires Inv(s) && ClientOk(c) && c.service == v && Fresh(s, c.nb) && Accepts(s, v, c.domain, env)
    ensures Inv(Joined(s, c, v, env).(clients := s.clients + [c]))
  {
    forall service, domain | IsSlot(service, domain)
      ensures SlotAgrees(Joined(s, c, v, env).(clients := s.clients + [c]), service, domain)
    {
      JoinedKeepsSlot(s, c, v, env, service, domain);
    }
    ClientsOkAppend(s.clients, c);
  }

  lemma ClientsOkAppend(clients: seq<Client>, c: Client)
    requires ClientsOk(clients) && ClientOk(c) && forall x :: x in clients ==> x.nb != c.nb
    ensures ClientsOk(clients + [c])
  {
  }

  lemma ClientsOkRemove(clients: seq<Client>, i: nat)
    requires ClientsOk(clients) && i < |clients|
    ensures ClientsOk(RemoveAt(clients, i))
  {
  }

  lemma RegisterKeepsInv(s: State, name: Option<string>, domain: int, nb: Option<Nb>, env: RegEnv)
    requires Inv(s) && (nb.Some? ==> Fresh(s, nb.value))
    ensures Inv(Register(s, name, domain, nb, env).0)
  {
    var (s', rc) := Register(s, name, domain, nb, env);
    if rc < 0 {
      FailedRegisterChangesNothing(s, name, domain, nb, env);
    } else {
      RegisterOutcome(s, name.value, domain, nb.value, env);
      var v := BestService(s, domain, env);
      JoinedKeepsInv(s, Client(StoredName(name.value), nb.value, v, domain), v, env);
    }
  }

  ghost predicate ViewAgrees(s: State, c: Client)
    requires |s.slots| == 4
  {
    c.service == PDR && 0 <= c.domain <= 1 ==>
      c.nb in s.views && s.views[c.nb] == s.slots[Ix(PDR, c.domain)].state
  }

  lemma RegisterKeepsViews(s: State, name: Option<string>, domain: int, nb: Option<Nb>, env: RegEnv)
    requires Inv(s) && ViewsAgree(s) && (nb.Some? ==> Fresh(s, nb.value))
    ensures ViewsAgree(Register(s, name, domain, nb, env).0)
  {
    var (s', rc) := Register(s, name, domain, nb, env);
    if rc < 0 {
      FailedRegisterChangesNothing(s, name, domain, nb, env);
    } else {
      RegisterOutcome(s, name.value, domain, nb.value, env);
      var v := BestService(s, domain, env);
      var c := Client(StoredName(name.value), nb.value, v, domain);
      forall x | x in s.clients + [c]
        ensures ViewAgrees(Joined(s, c, v, env), x)
      {
        if x in s.clients {
          UsedSlot(s, x);
        }
      }
    }
  }

  /** A slot with a listed client is in use, and its chain holds the client's block. */
  lemma UsedSlot(s: State, c: Client)
    requires Inv(s) && c in s.clients
    ensures ClientOk(c) && SlotAgrees(s, c.service, c.domain)
    ensures s.slots[Ix(c.service, c.domain)].numOfClients > 0
    ensures c.nb in s.slots[Ix(c.service, c.domain)].chain
  {
    ListedIsOnSlot(s.clients, c);
    ChainProperties(NbsOn(s.clients, c.service, c.domain));
  }

  lemma ListedIsOnSlot(clients: seq<Client>, c: Client)
    requires c in clients
    ensures c.nb in NbsOn(clients, c.service, c.domain)
  {
    var i :| 0 <= i < |clients| && clients[i] == c;
    NbsOnSplit(clients, i, c.service, c.domain);
  }

  // ---- Deregistration ----

  /** A slot after block `nb` left it. */
  function LeftSlot(slot: Slot, nb: Nb): Slot {
    var rest := if slot.numOfClients == 1 then slot.(state := SERVICE_DOWN, handle := 0) else slot;
    rest.(chain := Remove(slot.chain, nb),
          numOfClients := if slot.numOfClients > 0 then slot.numOfClients - 1 else 0)
  }

  /** The state in which a listed client has left its slot, closing it if it was the last. */
  function Left(s: State, c: Client): State
    requires |s.slots| == 4 && IsSlot(c.service, c.domain)
  {
    var i := Ix(c.service, c.domain);
    s.(slots := s.slots[i := LeftSlot(s.slots[i], c.nb)])
  }

  /** What the SSR framework answers when the last client of a slot leaves. */
  function ClosingRc(s: State, c: Client, env: DeregEnv): Rc
    requires |s.slots| == 4 && IsSlot(c.service, c.domain)
  {
    if s.slots[Ix(c.service, c.domain)].numOfClients != 1 || c.service == PDR then 0
    else if c.domain == ADSP then env.adspRc
    else env.modemRc
  }

  /** Unregistering from the chain never fails: only the SSR framework can refuse. */
  lemma DeregClientOutcome(s: State, c: Client, env: DeregEnv)
    requires Inv(s) && c in s.clients
    ensures ClientOk(c)
    ensures DeregClient(s, c, env) ==
      var rc := ClosingRc(s, c, env);
      if rc < 0 then (s, c, rc) else (Left(s, c), c.(service := NO_SERVICE), 0)
  {
    UsedSlot(s, c);
    var i := Ix(c.service, c.domain);
    UpdateTwice(s.slots, i, s.slots[i].(state := SERVICE_DOWN, handle := 0), LeftSlot(s.slots[i], c.nb));
  }

  lemma LeftSlotMatches(slot: Slot, nbs: seq<Nb>, j: nat)
    requires SlotMatches(slot, nbs) && Distinct(nbs) && j < |nbs|
    ensures SlotMatches(LeftSlot(slot, nbs[j]), RemoveAt(nbs, j))
  {
    RemoveFromChain(nbs, j);
  }

  lemma RemoveKeepsOtherSlots(clients: seq<Client>, i: nat, service: int, domain: int)
    requires i < |clients| && !(clients[i].service == service && clients[i].domain == domain)
    ensures NbsOn(RemoveAt(clients, i), service, domain) == NbsOn(clients, service, domain)
  {
    NbsOnSplit(clients, i, service, domain);
  }

  lemma RemoveFromOwnSlot(clients: seq<Client>, i: nat) returns (j: nat)
    requires i < |clients|
    ensures var nbs := NbsOn(clients, clients[i].service, clients[i].domain);
      j < |nbs| && nbs[j] == clients[i].nb
      && NbsOn(RemoveAt(clients, i), clients[i].service, clients[i].domain) == RemoveAt(nbs, j)
  {
    NbsOnSplit(clients, i, clients[i].service, clients[i].domain);
    j := |NbsOn(clients[..i], clients[i].service, clients[i].domain)|;
  }

  lemma LeftKeepsSlot(s: State, i: nat, service: int, domain: int)
    requires |s.slots| == 4 && i < |s.clients| && IsSlot(service, domain)
    requires IsSlot(s.clients[i].service, s.clients[i].domain)
    requires Distinct(NbsOn(s.clients, service, domain)) && SlotAgrees(s, service, domain)
    ensures SlotAgrees(Left(s, s.clients[i]).(clients := RemoveAt(s.clients, i)), service, domain)
  {
    if service == s.clients[i].service && domain == s.clients[i].domain {
      var j := RemoveFromOwnSlot(s.clients, i);
      LeftSlotMatches(s.slots[Ix(service, domain)], NbsOn(s.clients, service, domain), j);
    } else {
      RemoveKeepsOtherSlots(s.clients, i, service, domain);
    }
  }

  lemma LeftKeepsInv(s: State, i: nat)
    requires Inv(s) && i < |s.clients|
    ensures Inv(Left(s, s.clients[i]).(clients := RemoveAt(s.clients, i)))
  {
    forall service, domain | IsSlot(service, domain)
      ensures SlotAgrees(Left(s, s.clients[i]).(clients := RemoveAt(s.clients, i)), service, domain)
    {
      NbsOnDistinct(s.clients, service, domain);
      LeftKeepsSlot(s, i, service, domain);
    }
    ClientsOkRemove(s.clients, i);
  }

  lemma LeftKeepsViews(s: State, i: nat)
    requires Inv(s) && ViewsAgree(s) && i < |s.clients|
    ensures ViewsAgree(Left(s, s.clients[i]).(clients := RemoveAt(s.clients, i)))
  {
    var c := s.clients[i];
    var s' := Left(s, c).(clients := RemoveAt(s.clients, i));
    LeftKeepsInv(s, i);
    forall x | x in s'.clients
      ensures ViewAgrees(s', x)
    {
      assert x in s.clients && ViewAgrees(s, x);
      UsedSlot(s', x);
    }
  }

  lemma {:induction false} DeregFromKeeps(s: State, name: string, i: nat, ret: Rc, env: DeregEnv)
    requires Inv(s) && i <= |s.clients|
    ensures Inv(DeregFrom(s, name, i, ret, env).0)
    ensures ViewsAgree(s) ==> ViewsAgree(DeregFrom(s, name, i, ret, env).0)
    decreases |s.clients| - i
  {
    if i < |s.clients| {
      var c := s.clients[i];
      if c.name != name {
        DeregFromKeeps(s, name, i + 1, ret, env);
      } else {
        DeregClientOutcome(s, c, env);
        var rc := ClosingRc(s, c, env);
        if rc < 0 {
          DeregFromKeeps(s, name, i + 1, rc, env);
        } else {
          LeftKeepsInv(s, i);
          if ViewsAgree(s) {
            LeftKeepsViews(s, i);
          }
          DeregFromKeeps(Left(s, c).(clients := RemoveAt(s.clients, i)), name, i, ret, env);
        }
      }
    }
  }

  // ---- Callbacks ----

  /** The part of a chain that is called: up to the first block that stops it. */
  function Reached(chain: seq<Nb>, stops: set<Nb>): seq<Nb> {
    if chain == [] then []
    else if chain[0] in stops then [chain[0]]
    else [chain[0]] + Reached(chain[1..], stops)
  }

  lemma {:induction false} DeliverReaches(views: map<Nb, int>, chain: seq<Nb>, state: int, stops: set<Nb>)
    ensures forall nb :: nb in Reached(chain, stops) ==>
      nb in Deliver(views, chain, state, stops) && Deliver(views, chain, state, stops)[nb] == state
    ensures forall nb :: nb !in Reached(chain, stops) && nb in views ==>
      nb in Deliver(views, chain, state, stops) && Deliver(views, chain, state, stops)[nb] == views[nb]
    decreases |chain|
  {
    if chain != [] && chain[0] !in stops {
      var views', rest := views[chain[0] := state], chain[1..];
      DeliverReaches(views', rest, state, stops);
      assert chain[0] in views';
      assert Reached(chain, stops)[1..] == Reached(rest, stops);
      forall nb | nb in Reached(chain, stops)
        ensures nb in Deliver(views, chain, state, stops) && Deliver(views, chain, state, stops)[nb] == state
      {
        assert nb == chain[0] || nb in Reached(rest, stops);
      }
    }
  }

  lemma {:induction false} ReachedIsPrefix(chain: seq<Nb>, stops: set<Nb>)
    ensures Reached(chain, stops) <= chain
  {
    if chain != [] && chain[0] !in stops {
      ReachedIsPrefix(chain[1..], stops);
    }
  }

  lemma CallbackKeepsInv(s: State, op: Opcode, service: int, domain: int, stops: set<Nb>)
    requires Inv(s) && IsSlot(service, domain)
    ensures Inv(ServiceCb(s, op, service, domain, stops))
  {
    var s' := ServiceCb(s, op, service, domain, stops);
    forall v, d | IsSlot(v, d)
      ensures SlotAgrees(s', v, d)
    {
      assert SlotAgrees(s, v, d);
    }
  }

  /** The callback's effect on what one listed client knows. */
  lemma CallbackView(s: State, op: Opcode, service: int, domain: int, stops: set<Nb>, c: Client)
    requires Inv(s) && ViewsAgree(s) && IsSlot(service, domain) && StateOf(op).Some? && c in s.clients
    ensures ViewAgrees(ServiceCb(s, op, service, domain, stops), c) <==>
      (c.service != PDR || c.service != service || c.domain != domain
       || c.nb in Reached(s.slots[Ix(service, domain)].chain, stops)
       || StateOf(op).value == s.slots[Ix(service, domain)].state)
  {
    var chain := s.slots[Ix(service, domain)].chain;
    DeliverReaches(s.views, chain, StateOf(op).value, stops);
    ReachedIsPrefix(chain, stops);
    assert ViewAgrees(s, c);
    UsedSlot(s, c);
    OneChainEach(s, c, service, domain);
  }

  /**
   After a PDR callback every PDR client knows the slot's state if and only if no notifier
   cut the chain short, or the state did not change.
   */
  lemma CallbackViewsIff(s: State, op: Opcode, domain: int, stops: set<Nb>)
    requires Inv(s) && ViewsAgree(s) && 0 <= domain <= 1 && StateOf(op).Some?
    ensures var slot := s.slots[Ix(PDR, domain)];
      ViewsAgree(ServiceCb(s, op, PDR, domain, stops)) <==>
      (Reached(slot.chain, stops) == slot.chain || StateOf(op).value == slot.state)
  {
    var slot := s.slots[Ix(PDR, domain)];
    var s' := ServiceCb(s, op, PDR, domain, stops);
    var reached := Reached(slot.chain, stops);
    assert SlotAgrees(s, PDR, domain);
    if reached == slot.chain || StateOf(op).value == slot.state {
      forall c | c in s.clients
        ensures ViewAgrees(s', c)
      {
        CallbackView(s, op, PDR, domain, stops, c);
        UsedSlot(s, c);
      }
    } else {
      NbsOnDistinct(s.clients, PDR, domain);
      var nb := UnreachedBlock(slot.chain, stops, NbsOn(s.clients, PDR, domain));
      var c := ClientOfBlock(s.clients, PDR, domain, nb);
      CallbackView(s, op, PDR, domain, stops, c);
    }
  }

  /** A cut chain leaves out one of its registered blocks. */
  lemma UnreachedBlock(chain: seq<Nb>, stops: set<Nb>, nbs: seq<Nb>) returns (nb: Nb)
    requires chain == ChainOf(nbs) && Reached(chain, stops) != chain && Distinct(nbs)
    ensures nb in nbs && nb !in Reached(chain, stops)
  {
    ReachedIsPrefix(chain, stops);
    ChainProperties(nbs);
    ChainDistinct(nbs);
    nb := chain[|chain| - 1];
    assert nb in chain;
  }

  lemma {:induction false} ChainDistinct(nbs: seq<Nb>)
    requires Distinct(nbs)
    ensures Distinct(ChainOf(nbs))
  {
    if nbs != [] {
      var init := nbs[..|nbs| - 1];
      ChainDistinct(init);
      ChainProperties(init);
      InsertDistinct(ChainOf(init), nbs[|nbs| - 1]);
    }
  }

  lemma {:induction false} InsertDistinct(chain: seq<Nb>, nb: Nb)
    requires Distinct(chain) && nb !in chain && Sorted(chain)
    ensures Distinct(Insert(chain, nb))
  {
    if chain != [] && nb.priority <= chain[0].priority {
      InsertDistinct(chain[1..], nb);
      InsertProperties(chain[1..], nb);
      DistinctCons([chain[0]], Insert(chain[1..], nb));
    } else {
      DistinctCons([nb], chain);
    }
  }

  lemma {:induction false} ClientOfBlock(cs: seq<Client>, service: int, domain: int, nb: Nb) returns (c: Client)
    requires nb in NbsOn(cs, service, domain)
    ensures c in cs && c.nb == nb && c.service == service && c.domain == domain
  {
    if nb in OwnNb(cs[0], service, domain) {
      c := cs[0];
    } else {
      c := ClientOfBlock(cs[1..], service, domain, nb);
    }
  }

  lemma {:induction false} UncutChainIsReached(chain: seq<Nb>, stops: set<Nb>)
    requires forall nb :: nb in chain ==> nb !in stops
    ensures Reached(chain, stops) == chain
  {
    if chain != [] {
      assert chain[0] in chain;
      UncutChainIsReached(chain[1..], stops);
    }
  }

  lemma CallbackKeepsViews(s: State, op: Opcode, service: int, domain: int, stops: set<Nb>)
    requires Inv(s) && ViewsAgree(s) && IsSlot(service, domain)
    requires forall nb :: nb in s.slots[Ix(service, domain)].chain ==> nb !in stops
    ensures ViewsAgree(ServiceCb(s, op, service, domain, stops))
  {
    if StateOf(op).Some? {
      UncutChainIsReached(s.slots[Ix(service, domain)].chain, stops);
      forall c | c in s.clients
        ensures ViewAgrees(ServiceCb(s, op, service, domain, stops), c)
      {
        CallbackView(s, op, service, domain, stops, c);
        UsedSlot(s, c);
      }
    }
  }

  lemma OwnNbOnly(cs: seq<Client>, i: nat, service: int, domain: int)
    requires i < |cs| && forall j, k :: 0 <= j < k < |cs| ==> cs[j].nb != cs[k].nb
    ensures cs[i].nb in NbsOn(cs, service, domain) <==> cs[i].service == service && cs[i].domain == domain
  {
    var a, b := cs[..i], cs[i + 1..];
    assert forall j :: 0 <= j < |a| ==> a[j] == cs[j];
    assert forall j :: 0 <= j < |b| ==> b[j] == cs[i + 1 + j];
    NbsOnSplit(cs, i, service, domain);
    NbsOnAvoids(a, cs[i].nb, service, domain);
    NbsOnAvoids(b, cs[i].nb, service, domain);
  }

  /** A listed client's block is on its own slot's chain only. */
  lemma OneChainEach(s: State, c: Client, service: int, domain: int)
    requires Inv(s) && c in s.clients && IsSlot(service, domain)
    ensures c.nb in s.slots[Ix(service, domain)].chain <==> c.service == service && c.domain == domain
  {
    var i :| 0 <= i < |s.clients| && s.clients[i] == c;
    ChainProperties(NbsOn(s.clients, service, domain));
    OwnNbOnly(s.clients, i, service, domain);
    assert SlotAgrees(s, service, domain);
  }

  // ---- What a callback delivers ----

  /** Blocks up to the first that stops the chain are told `state`; what others know stays. */
  ghost predicate ToldUpToStop(views: map<Nb, int>, views': map<Nb, int>, chain: seq<Nb>, stops: set<Nb>, state: int) {
    && (forall k :: 0 <= k < |chain| && (forall j :: 0 <= j < k ==> chain[j] !in stops) ==>
          chain[k] in views' && views'[chain[k]] == state)
    && (forall k :: 0 <= k < |chain| && (exists j :: 0 <= j < k && chain[j] in stops) && chain[k] in views ==>
          chain[k] in views' && views'[chain[k]] == views[chain[k]])
    && forall nb :: nb in views && nb !in chain ==> nb in views' && views'[nb] == views[nb]
  }

  /** The slot caches `state`, its blocks are told, and nothing else changes. */
  ghost predicate Delivered(s: State, s': State, service: int, domain: int, stops: set<Nb>, state: int)
    requires |s.slots| == |s'.slots| == 4 && IsSlot(service, domain)
  {
    var i := 2 * service + domain;
    && s'.clients == s.clients
    && s'.slots == s.slots[i := s.slots[i].(state := state)]
    && ToldUpToStop(s.views, s'.views, s.slots[i].chain, stops, state)
  }

  lemma {:induction false} ReachedAt(chain: seq<Nb>, stops: set<Nb>, k: nat)
    requires k < |chain| && Distinct(chain)
    ensures chain[k] in Reached(chain, stops) <==> forall j :: 0 <= j < k ==> chain[j] !in stops
  {
    if k > 0 {
      assert chain[k] != chain[0];
      if chain[0] !in stops {
        ReachedAt(chain[1..], stops, k - 1);
        assert forall j :: 0 <= j < k - 1 ==> chain[1..][j] == chain[j + 1];
        assert forall j :: 0 < j < k ==> chain[j] == chain[1..][j - 1];
      }
    }
  }

  lemma DeliverTells(views: map<Nb, int>, chain: seq<Nb>, state: int, stops: set<Nb>)
    requires Distinct(chain)
    ensures ToldUpToStop(views, Deliver(views, chain, state, stops), chain, stops, state)
  {
    DeliverReaches(views, chain, state, stops);
    ReachedIsPrefix(chain, stops);
    forall k | 0 <= k < |chain|
      ensures chain[k] in Reached(chain, stops) <==> forall j :: 0 <= j < k ==> chain[j] !in stops
    {
      ReachedAt(chain, stops, k);
    }
  }

  lemma ChangedStateIsDelivered(s: State, service: int, domain: int, stops: set<Nb>, state: int)
    requires Inv(s) && IsSlot(service, domain)
    ensures var i := 2 * service + domain;
      Delivered(s, s.(slots := s.slots[i := s.slots[i].(state := state)],
                      views := Deliver(s.views, s.slots[i].chain, state, stops)), service, domain, stops, state)
  {
    assert SlotAgrees(s, service, domain);
    NbsOnDistinct(s.clients, service, domain);
    ChainDistinct(NbsOn(s.clients, service, domain));
    DeliverTells(s.views, s.slots[2 * service + domain].chain, state, stops);
  }

  /** A service that goes down is cached and delivered as 0, one that comes up as 1; other opcodes do nothing. */
  lemma CallbackDelivers(s: State, op: Opcode, service: int, domain: int, stops: set<Nb>)
    requires Inv(s) && IsSlot(service, domain)
    ensures op == SsrBeforeShutdown || op == ServregDown ==>
      Delivered(s, ServiceCb(s, op, service, domain, stops), service, domain, stops, 0)
    ensures op == SsrAfterPowerup || op == ServregUp ==>
      Delivered(s, ServiceCb(s, op, service, domain, stops), service, domain, stops, 1)
    ensures op == OtherOpcode ==> ServiceCb(s, op, service, domain, stops) == s
  {
    ChangedStateIsDelivered(s, service, domain, stops, 0);
    ChangedStateIsDelivered(s, service, domain, stops, 1);
  }

  /** A block goes behind those of at least its priority and before those of less. */
  lemma {:induction false} InsertPlace(chain: seq<Nb>, nb: Nb) returns (i: nat)
    requires Sorted(chain)
    ensures i <= |chain| && Insert(chain, nb) == chain[..i] + [nb] + chain[i..]
    ensures forall j :: 0 <= j < i ==> chain[j].priority >= nb.priority
    ensures forall j :: i <= j < |chain| ==> chain[j].priority < nb.priority
  {
    if chain == [] || nb.priority > chain[0].priority {
      i := 0;
    } else {
      i := InsertPlace(chain[1..], nb);
      i := i + 1;
    }
  }
}
