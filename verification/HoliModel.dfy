/**
 MI2S, TDM and AUX stream startup and shutdown of the holi machine driver on values. The
 return codes of the kernel calls are arguments; a pin, clock or vote call takes effect
 exactly when it reports success.
 */
module HoliModel {
  import opened Errno

  const MI2S_MAX := 4
  const U32_MAX := 0xFFFF_FFFF
  const TDM_PORT_RANGE_START := 0x9000

  datatype Kind = Mi2s | Tdm | Aux
  datatype Dir = Playback | Capture | OtherDir

  /** An open stream; `iface` is the MI2S/TDM/AUX interface it uses. */
  datatype Stream = Stream(kind: Kind, iface: int, dir: Dir)

  /** Driver counters, configuration, and the state of pins, clocks and the vote clock. */
  datatype State = State(
    refCnt: seq<nat>, gpioRef: seq<int>, vote: int,
    hasGpio: seq<bool>, hasVote: bool, rxRate: seq<int>, txRate: seq<int>,
    pins: seq<bool>, clks: seq<bool>, enables: int)

  /** Return codes of the calls one MI2S startup can make, in call order. */
  datatype StartEnv = StartEnv(voteRc: int, clkRc: int, fmtRc: int, pinRc: int, offRc: int)

  /** Return codes of the calls a shutdown can make. */
  datatype StopEnv = StopEnv(sleepRc: int, offRc: int)

  ghost predicate Wf(s: State) {
    && |s.refCnt| == |s.gpioRef| == |s.hasGpio| == |s.rxRate| == |s.txRate| == |s.pins| == |s.clks| == MI2S_MAX
    && forall i :: 0 <= i < MI2S_MAX ==> s.refCnt[i] <= U32_MAX
  }

  predicate IsIface(i: int) { 0 <= i < MI2S_MAX }

  predicate Fractional(rate: int) {
    rate == 11025 || rate == 22050 || rate == 44100 || rate == 88200 || rate == 176400 || rate == 352800
  }

  /** Primary, secondary and tertiary MI2S vote for fractional rates. */
  predicate VotingIface(i: int) { 0 <= i <= 2 }

  function Rate(s: State, i: int, dir: Dir): int
    requires Wf(s) && IsIface(i)
  {
    if dir == Playback then s.rxRate[i] else s.txRate[i]
  }

  predicate NeedsVote(s: State, i: int, dir: Dir)
    requires Wf(s) && IsIface(i)
  {
    VotingIface(i) && Fractional(Rate(s, i, dir))
  }

  // The driver's u32 counters wrap.

  function Inc32(x: nat): nat { if x == U32_MAX then 0 else x + 1 }

  function Dec32(x: nat): nat { if x == 0 then U32_MAX else x - 1 }

  function TdmMode(portId: int): int {
    if portId in {TDM_PORT_RANGE_START, TDM_PORT_RANGE_START + 1} then 0
    else if portId in {TDM_PORT_RANGE_START + 0x10, TDM_PORT_RANGE_START + 0x11} then 1
    else if portId in {TDM_PORT_RANGE_START + 0x20, TDM_PORT_RANGE_START + 0x21} then 2
    else if portId in {TDM_PORT_RANGE_START + 0x30, TDM_PORT_RANGE_START + 0x31} then 3
    else EINVAL
  }

  /** `cpu_dai->id - 1` as a u32. */
  function AuxMode(daiId: int): int { (daiId - 1) % 0x1_0000_0000 }

  // ---- Votes ----

  /** mi2s_disable_audio_vote. */
  function DisableVote(s: State, i: int, dir: Dir): (r: State)
    requires Wf(s) && IsIface(i)
    ensures Wf(r) && r == s.(vote := r.vote, enables := r.enables)
  {
    if dir == OtherDir || !NeedsVote(s, i, dir) || !s.hasVote then s
    else if s.vote - 1 == 0 then s.(vote := 0, enables := s.enables - 1)
    else if s.vote - 1 < 0 then s.(vote := 0)
    else s.(vote := s.vote - 1)
  }

  /** The vote a startup takes once the vote clock is enabled. */
  function TakeVote(s: State, i: int, dir: Dir): (r: State)
    requires Wf(s) && IsIface(i)
    ensures Wf(r) && r == s.(vote := r.vote, enables := r.enables)
  {
    if NeedsVote(s, i, dir) then
      s.(vote := s.vote + 1, enables := if s.vote == 0 then s.enables + 1 else s.enables)
    else s
  }

  function SetClk(s: State, i: int, on: bool, rc: int): (r: State)
    requires Wf(s) && IsIface(i)
    ensures Wf(r) && r == s.(clks := r.clks)
  {
    if rc >= 0 then s.(clks := s.clks[i := on]) else s
  }

  // ---- The pins shared by the three protocols ----

  /** Select the active pins on the first use and count the use: the TDM and AUX startups. */
  function TakePins(s: State, i: int, pinRc: int): (r: (State, int))
    requires Wf(s) && IsIface(i)
    ensures Wf(r.0)
  {
    if !s.hasGpio[i] then (s, 0)
    else if s.gpioRef[i] == 0 && pinRc != 0 then (s, pinRc)
    else (s.(pins := if s.gpioRef[i] == 0 then s.pins[i := true] else s.pins,
             gpioRef := s.gpioRef[i := s.gpioRef[i] + 1]), 0)
  }

  /** Drop a use and put the pins to sleep after the last. */
  function DropPins(s: State, i: int, sleepRc: int): (r: State)
    requires Wf(s) && IsIface(i)
    ensures Wf(r) && r == s.(gpioRef := r.gpioRef, pins := r.pins)
  {
    if !s.hasGpio[i] then s
    else
      var n := s.gpioRef[i] - 1;
      s.(gpioRef := s.gpioRef[i := n],
         pins := if n == 0 && sleepRc == 0 then s.pins[i := false] else s.pins)
  }

  // ---- Entry points ----

  /** The clean_up label: give back the use of the interface and the vote. */
  function CleanUp(s: State, i: int, dir: Dir): (r: State)
    requires Wf(s) && IsIface(i)
    ensures Wf(r)
  {
    DisableVote(s.(refCnt := s.refCnt[i := Dec32(s.refCnt[i])]), i, dir)
  }

  /** The first stream of an interface: clock, format, pins, with rollback of a negative code. */
  function FirstUse(s: State, i: int, dir: Dir, env: StartEnv): (r: (State, int))
    requires Wf(s) && IsIface(i)
    ensures Wf(r.0)
  {
    var s1 := SetClk(s, i, true, env.clkRc);
    if env.clkRc < 0 then (CleanUp(s1, i, dir), env.clkRc)
    else if env.fmtRc < 0 then (CleanUp(SetClk(s1, i, false, env.offRc), i, dir), env.fmtRc)
    else
      var (s2, pinRc) := TakePins(s1, i, env.pinRc);
      if pinRc < 0 then (CleanUp(SetClk(s2, i, false, env.offRc), i, dir), pinRc)
      else if pinRc > 0 then (s2, pinRc)
      else (s2, if s.hasGpio[i] && s.gpioRef[i] == 0 then 0 else env.fmtRc)
  }

  /** msm_mi2s_snd_startup. */
  function Mi2sStartup(s: State, i: int, dir: Dir, env: StartEnv): (r: (State, int))
    requires Wf(s)
    ensures Wf(r.0)
  {
    if !IsIface(i) || dir == OtherDir then (s, EINVAL)
    else if NeedsVote(s, i, dir) && !s.hasVote then (s, EINVAL)
    else if NeedsVote(s, i, dir) && s.vote == 0 && env.voteRc < 0 then (s, env.voteRc)
    else
      var s1 := TakeVote(s, i, dir);
      var s2 := s1.(refCnt := s1.refCnt[i := Inc32(s1.refCnt[i])]);
      if s2.refCnt[i] == 1 then FirstUse(s2, i, dir, env)
      else (s2, if NeedsVote(s, i, dir) && s.vote == 0 then env.voteRc else 0)
  }

  /** msm_mi2s_snd_shutdown. */
  function Mi2sShutdown(s: State, i: int, dir: Dir, env: StopEnv): (r: State)
    requires Wf(s)
    ensures Wf(r)
  {
    if !IsIface(i) then s
    else
      var s1 := s.(refCnt := s.refCnt[i := Dec32(s.refCnt[i])]);
      var s2 := if s1.refCnt[i] == 0 then SetClk(DropPins(s1, i, env.sleepRc), i, false, env.offRc) else s1;
      DisableVote(s2, i, dir)
  }

  /** holi_tdm_snd_startup and holi_aux_snd_startup differ in how they find the interface. */
  function PinStartup(s: State, i: int, pinRc: int): (r: (State, int))
    requires Wf(s)
    ensures Wf(r.0)
  {
    if !IsIface(i) then (s, EINVAL) else TakePins(s, i, pinRc)
  }

  function PinShutdown(s: State, i: int, sleepRc: int): (r: State)
    requires Wf(s)
    ensures Wf(r)
  {
    if !IsIface(i) then s else DropPins(s, i, sleepRc)
  }
}
