/**
 The audio notifier on values: one slot per (service, domain), the client list, and the
 state each notifier block was last told. Outcomes of the SSR and PDR frameworks are
 arguments. The notifier has been probed, as every registration path requires.
 */
module NotifierModel {
  import opened Prelude
  import opened Errno

  const SSR := 0
  const PDR := 1
  const ADSP := 0
  const MODEM := 1
  const NO_SERVICE := -2
  const UNINIT_SERVICE := -1
  const SERVICE_DOWN := 0
  const SERVICE_UP := 1
  const NAME_MAX := 19
  const ENOENT: Rc := -2

  /** A client's notifier block; the kernel keeps chains sorted by descending priority. */
  datatype Nb = Nb(id: nat, priority: int)

  datatype Client = Client(name: string, nb: Nb, service: int, domain: int)

  /** `handle` is 0 for NULL. */
  datatype Slot = Slot(state: int, handle: nat, numOfClients: nat, chain: seq<Nb>)

  datatype State = State(slots: seq<Slot>, clients: seq<Client>, views: map<Nb, int>)

  /** Handles returned by the two frameworks; 0 stands for NULL and for error pointers. */
  datatype RegEnv = RegEnv(allocOk: bool, pdr: nat, ssr: nat)

  /** What audio_ssr_deregister returns for the ADSP and for the modem. */
  datatype DeregEnv = DeregEnv(adspRc: Rc, modemRc: Rc)

  datatype Opcode = SsrBeforeShutdown | SsrAfterPowerup | ServregDown | ServregUp | OtherOpcode

  /** Position of a slot in `slots`. */
  function Ix(service: int, domain: int): int { 2 * service + domain }

  predicate IsSlot(service: int, domain: int) { 0 <= service <= 1 && 0 <= domain <= 1 }

  // ---- Notifier chains ----

  /** notifier_chain_register: behind every block of at least its priority. */
  function Insert(chain: seq<Nb>, nb: Nb): seq<Nb> {
    if chain == [] || nb.priority > chain[0].priority then [nb] + chain
    else [chain[0]] + Insert(chain[1..], nb)
  }

  /** notifier_chain_unregister: the first occurrence of the block. */
  function Remove(chain: seq<Nb>, nb: Nb): seq<Nb> {
    if chain == [] then []
    else if chain[0] == nb then chain[1..]
    else [chain[0]] + Remove(chain[1..], nb)
  }

  /** srcu_notifier_call_chain: every block up to the first that returns a stop code. */
  function Deliver(views: map<Nb, int>, chain: seq<Nb>, state: int, stops: set<Nb>): map<Nb, int>
    decreases |chain|
  {
    if chain == [] then views
    else
      var views' := views[chain[0] := state];
      if chain[0] in stops then views' else Deliver(views', chain[1..], state, stops)
  }

  // ---- Service and client registration ----

  function DefaultService(domain: int): int {
    if domain == ADSP then PDR else if domain == MODEM then SSR else NO_SERVICE
  }

  function RegService(s: State, service: int, domain: int, env: RegEnv): (State, Rc)
    requires |s.slots| == 4 && IsSlot(service, domain)
  {
    var handle := if service == SSR then env.ssr else env.pdr;
    if handle == 0 then (s, EINVAL)
    else
      var i := Ix(service, domain);
      (s.(slots := s.slots[i := s.slots[i].(state := SERVICE_DOWN, handle := handle)]), 0)
  }

  function DeregService(s: State, service: int, domain: int, env: DeregEnv): (r: (State, Rc))
    requires |s.slots| == 4 && IsSlot(service, domain)
    ensures |r.0.slots| == 4
  {
    var rc := if service == PDR then 0 else if domain == ADSP then env.adspRc else env.modemRc;
    if rc < 0 then (s, rc)
    else
      var i := Ix(service, domain);
      (s.(slots := s.slots[i := s.slots[i].(state := SERVICE_DOWN, handle := 0)]), rc)
  }

  /** Puts an accepted client on the slot; a PDR client is told the slot's state at once. */
  function Attach(s: State, c: Client, service: int): (State, Client)
    requires |s.slots| == 4 && IsSlot(service, c.domain)
  {
    var i := Ix(service, c.domain);
    var slot := s.slots[i];
    (s.(slots := s.slots[i := slot.(chain := Insert(slot.chain, c.nb), numOfClients := slot.numOfClients + 1)],
        views := if service == PDR then s.views[c.nb := slot.state] else s.views),
     c.(service := service))
  }

  function RegClientService(s: State, c: Client, service: int, env: RegEnv): (r: (State, Client, Rc))
    requires |s.slots| == 4 && IsSlot(service, c.domain)
    ensures |r.0.slots| == 4 && r.1.domain == c.domain
  {
    var (s1, rc) := if s.slots[Ix(service, c.domain)].numOfClients == 0
                    then RegService(s, service, c.domain, env) else (s, 0);
    if rc < 0 then (s, c, rc)
    else
      var (s2, c2) := Attach(s1, c, service);
      (s2, c2, rc)
  }

  /** The downward service loop of audio_notifier_reg_client, entered with `ret`. */
  function RegLoop(s: State, c: Client, service: int, ret: Rc, env: RegEnv): (r: (State, Client, Rc))
    requires |s.slots| == 4 && -1 <= service <= 1 && 0 <= c.domain <= 1
    ensures |r.0.slots| == 4
    decreases service + 1
  {
    if service < 0 then (s, c, ret)
    else
      var state := s.slots[Ix(service, c.domain)].state;
      if state == UNINIT_SERVICE then (s, c, EINVAL)
      else if state < 0 || c.service != NO_SERVICE then RegLoop(s, c, service - 1, ret, env)
      else
        var (s1, c1, rc) := RegClientService(s, c, service, env);
        RegLoop(s1, c1, service - 1, rc, env)
  }

  function RegClient(s: State, c: Client, env: RegEnv): (r: (State, Client, Rc))
    requires |s.slots| == 4
    ensures |r.0.slots| == 4
  {
    var service := DefaultService(c.domain);
    if service < 0 then (s, c, EINVAL) else RegLoop(s, c, service, 0, env)
  }

  /** strlcpy into the 20-byte name field. */
  function StoredName(name: string): string {
    if |name| <= NAME_MAX then name else name[..NAME_MAX]
  }

  function NewClient(name: string, domain: int, nb: Nb): Client {
    Client(StoredName(name), nb, NO_SERVICE, domain)
  }

  function Register(s: State, name: Option<string>, domain: int, nb: Option<Nb>, env: RegEnv): (r: (State, Rc))
    requires |s.slots| == 4
    ensures |r.0.slots| == 4
  {
    if name.None? || nb.None? then (s, EINVAL)
    else if !env.allocOk then (s, ENOMEM)
    else
      var (s1, c1, rc) := RegClient(s, NewClient(name.value, domain, nb.value), env);
      if rc < 0 then (s1, rc) else (s1.(clients := s1.clients + [c1]), rc)
  }

  function DeregClient(s: State, c: Client, env: DeregEnv): (r: (State, Client, Rc))
    requires |s.slots| == 4
    ensures |r.0.slots| == 4 && r.0.clients == s.clients
  {
    if c.service == NO_SERVICE then (s, c, 0)
    else if !IsSlot(c.service, c.domain) then (s, c, EINVAL)
    else
      var i := Ix(c.service, c.domain);
      var (s1, rc) := if s.slots[i].numOfClients == 1 then DeregService(s, c.service, c.domain, env) else (s, 0);
      if rc < 0 then (s1, c, rc)
      else if c.nb !in s1.slots[i].chain then (s1, c, ENOENT)
      else
        var slot := s1.slots[i];
        (s1.(slots := s1.slots[i := slot.(
               chain := Remove(slot.chain, c.nb),
               numOfClients := if slot.numOfClients > 0 then slot.numOfClients - 1 else 0)]),
         c.(service := NO_SERVICE), 0)
  }

  /** The list walk of audio_notifier_deregister from node `i`, with `ret` so far. */
  function DeregFrom(s: State, name: string, i: nat, ret: Rc, env: DeregEnv): (r: (State, Rc))
    requires |s.slots| == 4 && i <= |s.clients|
    ensures |r.0.slots| == 4
    decreases |s.clients| - i
  {
    if i == |s.clients| then (s, ret)
    else if s.clients[i].name != name then DeregFrom(s, name, i + 1, ret, env)
    else
      var (s1, _, rc) := DeregClient(s, s.clients[i], env);
      if rc < 0 then DeregFrom(s1, name, i + 1, rc, env)
      else DeregFrom(s1.(clients := RemoveAt(s1.clients, i)), name, i, ret, env)
  }

  function Deregister(s: State, name: Option<string>, env: DeregEnv): (r: (State, Rc))
    requires |s.slots| == 4
    ensures |r.0.slots| == 4
  {
    if name.None? then (s, EINVAL) else DeregFrom(s, name.value, 0, 0, env)
  }

  function StateOf(op: Opcode): Option<int> {
    match op
    case SsrBeforeShutdown | ServregDown => Some(SERVICE_DOWN)
    case SsrAfterPowerup | ServregUp => Some(SERVICE_UP)
    case OtherOpcode => None
  }

  /** audio_notifier_service_cb; `stops` are the blocks whose callback ends the chain. */
  function ServiceCb(s: State, op: Opcode, service: int, domain: int, stops: set<Nb>): (r: State)
    requires |s.slots| == 4 && IsSlot(service, domain)
    ensures |r.slots| == 4
  {
    if StateOf(op).None? then s
    else
      var i := Ix(service, domain);
      var state := StateOf(op).value;
      s.(slots := s.slots[i := s.slots[i].(state := state)],
         views := Deliver(s.views, s.slots[i].chain, state, stops))
  }
}
