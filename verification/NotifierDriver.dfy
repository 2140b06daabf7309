/**
 The audio notifier in the driver's own form: the service table and the client list are
 updated in place. Each method is proved to take the step that `NotifierModel` describes.
 */
module NotifierDriver {
  import opened Prelude
  import opened Errno
  import opened NotifierModel

  class AudioNotifier {
    const serviceData: array2<Slot>
    var clientList: seq<Client>
    /** What each notifier block was last called with. */
    var views: map<Nb, int>

    ghost predicate Valid()
      reads this
    {
      serviceData.Length0 == 2 && serviceData.Length1 == 2
    }

    ghost function Abs(): (s: State)
      requires Valid()
      reads this, serviceData
      ensures |s.slots| == 4
    {
      State([serviceData[0, 0], serviceData[0, 1], serviceData[1, 0], serviceData[1, 1]], clientList, views)
    }

    /** audio_notifier_late_init has run; `pdrEnabled` says whether the kernel has PDR. */
    constructor (pdrEnabled: bool)
      ensures Valid() && fresh(serviceData)
      ensures Abs() == State([Slot(SERVICE_DOWN, 0, 0, []), Slot(SERVICE_DOWN, 0, 0, []),
                              Slot(if pdrEnabled then SERVICE_DOWN else NO_SERVICE, 0, 0, []),
                              Slot(NO_SERVICE, 0, 0, [])], [], map[])
    {
      serviceData := new Slot[2, 2](
        (service, domain) =>
          Slot(if service == SSR || (domain == ADSP && pdrEnabled) then SERVICE_DOWN else NO_SERVICE, 0, 0, []));
      clientList := [];
      views := map[];
    }

    /** One table entry, as `Ix` numbers it. */
    lemma EntryIx(service: int, domain: int)
      requires Valid() && IsSlot(service, domain)
      ensures Abs().slots[Ix(service, domain)] == serviceData[service, domain]
    {
    }

    method SetSlot(service: int, domain: int, slot: Slot)
      requires Valid() && IsSlot(service, domain)
      modifies serviceData
      ensures Abs() == old(Abs()).(slots := old(Abs()).slots[Ix(service, domain) := slot])
    {
      serviceData[service, domain] := slot;
      assert Abs().slots == old(Abs()).slots[Ix(service, domain) := slot] by {
        if service == SSR {
          assert Ix(service, domain) == domain;
        } else {
          assert Ix(service, domain) == 2 + domain;
        }
      }
    }

    method AudioNotifierRegService(service: int, domain: int, env: RegEnv) returns (ret: Rc)
      requires Valid() && IsSlot(service, domain)
      modifies serviceData
      ensures (Abs(), ret) == RegService(old(Abs()), service, domain, env)
    {
      EntryIx(service, domain);
      var handle := if service == SSR then env.ssr else env.pdr;
      if handle == 0 {
        return EINVAL;
      }
      SetSlot(service, domain, serviceData[service, domain].(state := SERVICE_DOWN, handle := handle));
      ret := 0;
    }

    method AudioNotifierDeregService(service: int, domain: int, env: DeregEnv) returns (ret: Rc)
      requires Valid() && IsSlot(service, domain)
      modifies serviceData
      ensures (Abs(), ret) == DeregService(old(Abs()), service, domain, env)
    {
      EntryIx(service, domain);
      ret := 0;
      if service == SSR {
        ret := if domain == ADSP then env.adspRc else env.modemRc;
      }
      if ret < 0 {
        return;
      }
      SetSlot(service, domain, serviceData[service, domain].(state := SERVICE_DOWN, handle := 0));
    }

    method AudioNotifierRegClientService(client: Client, service: int, env: RegEnv) returns (client': Client, ret: Rc)
      requires Valid() && IsSlot(service, client.domain)
      modifies this`views, serviceData
      ensures (Abs(), client', ret) == RegClientService(old(Abs()), client, service, env)
    {
      var domain := client.domain;
      client', ret := client, 0;
      EntryIx(service, domain);
      if serviceData[service, domain].numOfClients == 0 {
        ret := AudioNotifierRegService(service, domain, env);
      }
      if ret < 0 {
        return;
      }
      EntryIx(service, domain);
      client' := client.(service := service);
      var slot := serviceData[service, domain];
      SetSlot(service, domain, slot.(chain := Insert(slot.chain, client.nb), numOfClients := slot.numOfClients + 1));
      if client'.service == PDR {
        views := views[client.nb := slot.state];
      }
    }

    method AudioNotifierRegClient(client: Client, env: RegEnv) returns (client': Client, ret: Rc)
      requires Valid()
      modifies this`views, serviceData
      ensures (Abs(), client', ret) == RegClient(old(Abs()), client, env)
    {
      client', ret := client, 0;
      var service := DefaultService(client.domain);
      if service < 0 {
        ret := EINVAL;
        return;
      }
      while service >= 0
        invariant Valid() && -1 <= service <= 1 && client'.domain == client.domain
        invariant clientList == old(clientList)
        invariant RegClient(old(Abs()), client, env) == RegLoop(Abs(), client', service, ret, env)
        decreases service
      {
        EntryIx(service, client.domain);
        var state := serviceData[service, client.domain].state;
        if state == UNINIT_SERVICE {
          ret := EINVAL;
          return;
        }
        if state < 0 || client'.service != NO_SERVICE {
          service := service - 1;
          continue;
        }
        client', ret := AudioNotifierRegClientService(client', service, env);
        service := service - 1;
      }
    }

    method AudioNotifierDeregClient(client: Client, env: DeregEnv) returns (client': Client, ret: Rc)
      requires Valid()
      modifies serviceData
      ensures (Abs(), client', ret) == DeregClient(old(Abs()), client, env)
    {
      var service, domain := client.service, client.domain;
      client', ret := client, 0;
      if service == NO_SERVICE {
        return;
      }
      if !IsSlot(service, domain) {
        ret := EINVAL;
        return;
      }
      EntryIx(service, domain);
      if serviceData[service, domain].numOfClients == 1 {
        ret := AudioNotifierDeregService(service, domain, env);
      }
      if ret < 0 {
        return;
      }
      EntryIx(service, domain);
      var slot := serviceData[service, domain];
      if client.nb !in slot.chain {
        ret := ENOENT;
        return;
      }
      client' := client.(service := NO_SERVICE);
      SetSlot(service, domain, slot.(chain := Remove(slot.chain, client.nb),
                                     numOfClients := if slot.numOfClients > 0 then slot.numOfClients - 1 else 0));
    }

    method AudioNotifierRegister(name: Option<string>, domain: int, nb: Option<Nb>, env: RegEnv) returns (ret: Rc)
      requires Valid()
      modifies this, serviceData
      ensures Valid() && (Abs(), ret) == Register(old(Abs()), name, domain, nb, env)
    {
      if name.None? || nb.None? {
        return EINVAL;
      }
      if !env.allocOk {
        return ENOMEM;
      }
      var client := NewClient(name.value, domain, nb.value);
      client, ret := AudioNotifierRegClient(client, env);
      if ret < 0 {
        return;
      }
      clientList := clientList + [client];
    }

    method AudioNotifierDeregister(name: Option<string>, env: DeregEnv) returns (ret: Rc)
      requires Valid()
      modifies this, serviceData
      ensures Valid() && (Abs(), ret) == Deregister(old(Abs()), name, env)
    {
      if name.None? {
        return EINVAL;
      }
      ret := 0;
      var i := 0;
      while i < |clientList|
        invariant Valid() && i <= |clientList|
        invariant Deregister(old(Abs()), name, env) == DeregFrom(Abs(), name.value, i, ret, env)
        decreases |clientList| - i
      {
        if clientList[i].name != name.value {
          i := i + 1;
          continue;
        }
        var _, ret2 := AudioNotifierDeregClient(clientList[i], env);
        if ret2 < 0 {
          ret := ret2;
          i := i + 1;
          continue;
        }
        clientList := RemoveAt(clientList, i);
      }
    }

    method AudioNotifierServiceCb(op: Opcode, service: int, domain: int, stops: set<Nb>)
      requires Valid() && IsSlot(service, domain)
      modifies this`views, serviceData
      ensures Abs() == ServiceCb(old(Abs()), op, service, domain, stops)
      ensures op == SsrBeforeShutdown || op == ServregDown ==> serviceData[service, domain].state == 0
      ensures op == SsrAfterPowerup || op == ServregUp ==> serviceData[service, domain].state == 1
      ensures op == OtherOpcode ==> Abs() == old(Abs())
    {
      var state := StateOf(op);
      if state.None? {
        return;
      }
      EntryIx(service, domain);
      var slot := serviceData[service, domain];
      SetSlot(service, domain, slot.(state := state.value));
      EntryIx(service, domain);
      var i := 0;
      while i < |slot.chain|
        invariant i <= |slot.chain| && clientList == old(clientList)
        invariant Abs().slots == old(Abs()).slots[Ix(service, domain) := slot.(state := state.value)]
        invariant serviceData[service, domain].state == state.value
        invariant Deliver(old(views), slot.chain, state.value, stops) ==
                  Deliver(views, slot.chain[i..], state.value, stops)
      {
        var nb := slot.chain[i];
        assert slot.chain[i..][1..] == slot.chain[i + 1..];
        views := views[nb := state.value];
        if nb in stops {
          return;
        }
        i := i + 1;
      }
    }
  }
}
