/**
 The request/reply handshake of the audio PRM driver, one shared-memory access per step:
 the sender, the DSP's callback and the timeout interleave freely.
 */
module PrmModel {
  import opened Prelude
  import opened Errno

  const MAX_RETRY_COUNT := 3

  /**
   A reply: GPR_IBASIC_RSP_RESULT when `basic`, else a PRM command response;
   `known` says its parameter id is one the driver lists.
   */
  datatype Reply = Reply(basic: bool, known: bool, code: Uint32)

  /** Which of its two writes the callback makes first; the driver writes the status first. */
  datatype Order = StatusFirst | RespFirst

  datatype Pc = Idle | Locked | Cleared | HasAdev | Polling(retry: nat) | Ready | Armed | Waiting | Woken

  datatype Cb = CbIdle | Got(msg: Reply) | Half(msg: Reply) | Tail(msg: Reply)

  /** A finished command: the reply that its sender waited for, if it was sent at all, and its result. */
  datatype Finished = NoDevice(ret: int) | NotSent(rc: int, ret: int) | Sent(reply: Option<Reply>, ret: int)

  datatype Shared = Shared(status: int, resp: bool, state: int, adev: bool, adspUp: bool, checkDone: bool)

  datatype System = System(m: Shared, pc: Pc, cb: Cb, reply: Option<Reply>, done: seq<Finished>)

  datatype Event =
    | Lock
    | ClearStatus
    | CheckAdev
    | CheckReady(loaded: bool)
    | Poll(ready: bool)
    | ClearResp
    | Transmit(rc: int)
    | Wake
    | TimeOut
    | ReadStatus
    /** The DSP's reply to command number `cmd` arrives. */
    | Arrive(cmd: nat, msg: Reply)
    | CbFirst
    | CbSecond
    | CbTail
    | Service(up: bool)
    | Device(present: bool)

  /** When the code can take a step: its program counter, the mutex and the wait condition. */
  predicate Enabled(y: System, ev: Event) {
    match ev
    case Lock => y.pc == Idle
    case ClearStatus => y.pc == Locked
    case CheckAdev => y.pc == Cleared
    case CheckReady(_) => y.pc == HasAdev
    case Poll(_) => y.pc.Polling?
    case ClearResp => y.pc == Ready
    case Transmit(_) => y.pc == Armed
    case Wake => y.pc == Waiting && y.m.resp
    case TimeOut => y.pc == Waiting && !y.m.resp
    case ReadStatus => y.pc == Woken
    case Arrive(_, _) => y.cb == CbIdle
    case CbFirst => y.cb.Got?
    case CbSecond => y.cb.Half?
    case CbTail => y.cb.Tail?
    case Service(_) => y.pc == Idle
    case Device(_) => true
  }

  /** The callback's status write: a command response leaves the status alone when it reports no error. */
  function WriteStatus(m: Shared, msg: Reply): Shared {
    if msg.basic || msg.code != 0 then m.(status := ToInt32(msg.code)) else m
  }

  function Finish(y: System, f: Finished): System {
    y.(pc := Idle, reply := None, done := y.done + [f])
  }

  function Next(order: Order, y: System, ev: Event): System
    requires Enabled(y, ev)
  {
    var m := y.m;
    match ev
    case Lock => y.(m := m.(state := 1), pc := Locked)
    case ClearStatus => y.(m := m.(status := 0), pc := Cleared)
    case CheckAdev => if m.adev then y.(pc := HasAdev) else Finish(y, NoDevice(ENODEV))
    case CheckReady(loaded) =>
      y.(pc := if !m.checkDone && m.adspUp && loaded then Polling(0) else Ready)
    case Poll(ready) =>
      if !ready && y.pc.retry < MAX_RETRY_COUNT then y.(pc := Polling(y.pc.retry + 1))
      else y.(m := m.(checkDone := true), pc := Ready)
    case ClearResp => y.(m := m.(resp := false), pc := Armed)
    case Transmit(rc) => if rc < 0 then Finish(y, NotSent(rc, rc)) else y.(pc := Waiting)
    case Wake => y.(pc := Woken)
    case TimeOut => Finish(y, Sent(y.reply, ETIMEDOUT))
    case ReadStatus => Finish(y, Sent(y.reply, if m.status > 0 then EINVAL else 0))
    case Arrive(cmd, msg) =>
      y.(cb := Got(msg), reply := if cmd == |y.done| && y.pc == Waiting then Some(msg) else y.reply)
    case CbFirst =>
      y.(m := if order == StatusFirst then WriteStatus(m, y.cb.msg) else m.(resp := true), cb := Half(y.cb.msg))
    case CbSecond =>
      y.(m := if order == StatusFirst then m.(resp := true) else WriteStatus(m, y.cb.msg),
         cb := if y.cb.msg.basic then CbIdle else Tail(y.cb.msg))
    case CbTail => y.(m := if y.cb.msg.known then m.(state := ToInt32(y.cb.msg.code)) else m, cb := CbIdle)
    case Service(up) => y.(m := if up then m.(adspUp := true) else m.(adspUp := false, checkDone := false))
    case Device(present) => y.(m := m.(adev := present))
  }

  /** What a sender must return for what happened to its command. */
  function Outcome(f: Finished): int {
    match f
    case NoDevice(_) => ENODEV
    case NotSent(rc, _) => rc
    case Sent(None, _) => ETIMEDOUT
    case Sent(Some(msg), _) => if ToInt32(msg.code) > 0 then EINVAL else 0
  }

  /**
   What the DSP must respect: it answers only the command that is being waited for, at most
   once, and a caller times out only while no answer is on its way through the callback.
   */
  predicate Timely(y: System, ev: Event) {
    match ev
    case Arrive(cmd, _) => y.pc == Waiting && cmd == |y.done| && y.reply == None
    case TimeOut => !y.cb.Got? && !y.cb.Half?
    case _ => true
  }

  predicate LegalRun(order: Order, y: System, evs: seq<Event>)
    decreases |evs|
  {
    evs == [] || (Enabled(y, evs[0]) && Timely(y, evs[0]) && LegalRun(order, Next(order, y, evs[0]), evs[1..]))
  }

  /** A run of enabled steps, timely or not. */
  predicate PossibleRun(order: Order, y: System, evs: seq<Event>)
    decreases |evs|
  {
    evs == [] || (Enabled(y, evs[0]) && PossibleRun(order, Next(order, y, evs[0]), evs[1..]))
  }

  function Run(order: Order, y: System, evs: seq<Event>): System
    requires PossibleRun(order, y, evs)
    decreases |evs|
  {
    if evs == [] then y else Run(order, Next(order, y, evs[0]), evs[1..])
  }

  /** Between commands, with no callback under way and whatever the last one left in memory. */
  predicate AtRest(y: System) {
    y.pc == Idle && y.cb == CbIdle && y.reply == None && y.done == []
  }
}
