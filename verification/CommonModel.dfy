/**
 The stream callbacks of the common machine driver on values: pins on startup, interface
 clocks and fractional-rate votes on hw_params, and the release of both on shutdown.
 */
module CommonModel {
  import opened Errno

  const INTF_MAX := 6

  /** What the stream name says the stream is. */
  datatype Kind = TdmStream | Mi2sStream | AuxPcmStream

  datatype State = State(
    gpioRef: seq<int>, clkRef: seq<int>, voteRef: int,
    hasGpio: seq<bool>, voteReq: seq<bool>, hasVote: bool, initDone: bool,
    pins: seq<bool>, tdmClk: seq<bool>, mi2sClk: seq<bool>, enables: nat)

  ghost predicate Wf(s: State) {
    |s.gpioRef| == |s.clkRef| == |s.hasGpio| == |s.voteReq| == |s.pins| == |s.tdmClk| == |s.mi2sClk| == INTF_MAX
  }

  predicate IsIntf(i: int) { 0 <= i < INTF_MAX }

  /** is_fractional_sample_rate: fewer rates than the holi driver's macro. */
  predicate FractionalRate(rate: int) {
    rate == 44100 || rate == 88200 || rate == 176400 || rate == 352800
  }

  predicate NeedsVote(s: State, i: int, rate: int)
    requires Wf(s) && IsIntf(i)
  {
    s.voteReq[i] && FractionalRate(rate)
  }

  /** mi2s_tdm_hw_vote_req(pdata, 1); `rc` is what enabling the clock returns. */
  function VoteOn(s: State, rc: Rc): (r: (State, Rc))
    requires Wf(s)
    ensures Wf(r.0) && r.0 == s.(voteRef := r.0.voteRef, enables := r.0.enables)
  {
    if !s.hasVote then (s, EINVAL)
    else if s.voteRef != 0 then (s.(voteRef := s.voteRef + 1), 0)
    else if !s.initDone then (s, EINVAL)
    else if rc < 0 then (s, rc)
    else (s.(voteRef := s.voteRef + 1, enables := s.enables + 1), 0)
  }

  /** mi2s_tdm_hw_vote_req(pdata, 0). */
  function VoteOff(s: State): (r: State)
    requires Wf(s)
    ensures Wf(r) && r == s.(voteRef := r.voteRef, enables := r.enables)
  {
    if !s.hasVote then s
    else
      var n := s.voteRef - 1;
      if n == 0 then s.(voteRef := 0, enables := if s.initDone && s.enables > 0 then s.enables - 1 else s.enables)
      else s.(voteRef := if n < 0 then 0 else n)
  }

  function SetClk(s: State, i: int, kind: Kind, on: bool): (r: State)
    requires Wf(s) && IsIntf(i)
    ensures Wf(r) && r == s.(tdmClk := r.tdmClk, mi2sClk := r.mi2sClk)
  {
    match kind
    case TdmStream => s.(tdmClk := s.tdmClk[i := on])
    case Mi2sStream => s.(mi2sClk := s.mi2sClk[i := on])
    case AuxPcmStream => s
  }

  /** msm_common_snd_startup for interface index `i` (negative when the name matches none). */
  function Startup(s: State, i: int, pinRc: int): (r: (State, int))
    requires Wf(s) && i < INTF_MAX
    ensures Wf(r.0) && r.0 == s.(gpioRef := r.0.gpioRef, pins := r.0.pins)
  {
    if i < 0 || !s.hasGpio[i] then (s, 0)
    else if s.gpioRef[i] == 0 && pinRc != 0 then (s, pinRc)
    else (s.(pins := if s.gpioRef[i] == 0 then s.pins[i := true] else s.pins,
             gpioRef := s.gpioRef[i := s.gpioRef[i] + 1]), 0)
  }

  /** The vote and the clock configuration of the first prepared stream of an interface. */
  function StartClk(s: State, i: int, kind: Kind, rate: int, voteRc: Rc, clkRc: Rc): (r: (State, Rc))
    requires Wf(s) && IsIntf(i) && kind != AuxPcmStream
    ensures Wf(r.0)
  {
    var (s1, rc) := if NeedsVote(s, i, rate) then VoteOn(s, voteRc) else (s, 0);
    if rc < 0 then (s1, rc)
    else if clkRc < 0 then (s1, clkRc)
    else (SetClk(s1, i, kind, true), clkRc)
  }

  /** msm_common_snd_hw_params. */
  function HwParams(s: State, i: int, kind: Kind, rate: int, voteRc: Rc, clkRc: Rc): (r: (State, Rc))
    requires Wf(s) && i < INTF_MAX
    ensures Wf(r.0)
  {
    if i < 0 then (s, 0)
    else if s.clkRef[i] != 0 then (s.(clkRef := s.clkRef[i := s.clkRef[i] + 1]), 0)
    else if kind == AuxPcmStream then (s, 0)
    else
      var (s1, rc) := StartClk(s, i, kind, rate, voteRc, clkRc);
      if rc < 0 then (s1, rc) else (s1.(clkRef := s1.clkRef[i := s1.clkRef[i] + 1]), rc)
  }

  /** The clock part of msm_common_snd_shutdown; the clock stops if the release succeeds. */
  function DropClk(s: State, i: int, kind: Kind, rate: int, relRc: Rc): (r: State)
    requires Wf(s) && IsIntf(i)
    ensures Wf(r) && r == s.(clkRef := r.clkRef, tdmClk := r.tdmClk, mi2sClk := r.mi2sClk,
                             voteRef := r.voteRef, enables := r.enables)
  {
    var n := s.clkRef[i] - 1;
    if n == 0 then
      var s1 := s.(clkRef := s.clkRef[i := 0]);
      var s2 := if relRc == 0 then SetClk(s1, i, kind, false) else s1;
      if NeedsVote(s2, i, rate) then VoteOff(s2) else s2
    else s.(clkRef := s.clkRef[i := if n < 0 then 0 else n])
  }

  /** The pin part of msm_common_snd_shutdown. */
  function DropPins(s: State, i: int, sleepRc: int): (r: State)
    requires Wf(s) && IsIntf(i)
    ensures Wf(r) && r == s.(gpioRef := r.gpioRef, pins := r.pins)
  {
    if !s.hasGpio[i] then s
    else
      var n := s.gpioRef[i] - 1;
      if n == 0 then
        s.(gpioRef := s.gpioRef[i := 0], pins := if sleepRc == 0 then s.pins[i := false] else s.pins)
      else s.(gpioRef := s.gpioRef[i := if n < 0 then 0 else n])
  }

  /** msm_common_snd_shutdown. */
  function Shutdown(s: State, i: int, kind: Kind, rate: int, relRc: Rc, sleepRc: int): (r: State)
    requires Wf(s) && i < INTF_MAX
    ensures Wf(r)
  {
    if i < 0 then s else DropPins(DropClk(s, i, kind, rate, relRc), i, sleepRc)
  }
}
