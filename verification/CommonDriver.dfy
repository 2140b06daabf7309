/** The common machine driver's platform data, with its stream callbacks as methods. */
module CommonDriver {
  import opened Errno
  import opened CommonModel
  import RscMgr

  class CommonPdata {
    const gpioRefCnt: array<int>
    const intfClkRefCnt: array<int>
    var voteRefCnt: int
    const hasGpio: seq<bool>
    const voteRequired: seq<bool>
    const hwVote: RscMgr.VoteClock?
    /** Pins in their active state and interface clocks running, as last commanded. */
    const pins: array<bool>
    const tdmClk: array<bool>
    const mi2sClk: array<bool>

    ghost predicate Valid()
      reads this
    {
      && |hasGpio| == |voteRequired| == INTF_MAX
      && gpioRefCnt.Length == intfClkRefCnt.Length == INTF_MAX
      && pins.Length == tdmClk.Length == mi2sClk.Length == INTF_MAX
      && gpioRefCnt != intfClkRefCnt && pins != tdmClk && pins != mi2sClk && tdmClk != mi2sClk
    }

    ghost function Repr(): set<object>
      reads this
    {
      {this, gpioRefCnt, intfClkRefCnt, pins, tdmClk, mi2sClk} + (if hwVote == null then {} else {hwVote})
    }

    ghost function Abs(): (s: State)
      requires Valid()
      reads this, Repr()
      ensures Wf(s)
    {
      State(gpioRefCnt[..], intfClkRefCnt[..], voteRefCnt, hasGpio, voteRequired,
            hwVote != null, hwVote != null && hwVote.initDone, pins[..], tdmClk[..], mi2sClk[..],
            if hwVote == null then 0 else hwVote.enables)
    }

    /** mi2s_tdm_hw_vote_req. */
    method Mi2sTdmHwVoteReq(enable: bool, rc: Rc) returns (ret: Rc)
      requires Valid()
      modifies this, hwVote
      ensures enable ==> (Abs(), ret) == VoteOn(old(Abs()), rc)
      ensures !enable ==> Abs() == VoteOff(old(Abs())) && ret == (if hwVote == null then EINVAL else 0)
    {
      if hwVote == null {
        return EINVAL;
      }
      ret := 0;
      if enable {
        if voteRefCnt == 0 {
          ret := hwVote.HwVoteEnable(rc);
          if ret < 0 {
            return;
          }
        }
        voteRefCnt := voteRefCnt + 1;
      } else {
        voteRefCnt := voteRefCnt - 1;
        if voteRefCnt == 0 {
          hwVote.HwVoteDisable();
        } else if voteRefCnt < 0 {
          voteRefCnt := 0;
        }
      }
    }

    /** msm_common_snd_startup. */
    method MsmCommonSndStartup(index: int, pinRc: int) returns (ret: int)
      requires Valid() && index < INTF_MAX
      modifies gpioRefCnt, pins
      ensures (Abs(), ret) == Startup(old(Abs()), index, pinRc)
    {
      ret := 0;
      if index >= 0 && hasGpio[index] {
        if gpioRefCnt[index] == 0 {
          ret := pinRc;
          if ret != 0 {
            return;
          }
          pins[index] := true;
        }
        gpioRefCnt[index] := gpioRefCnt[index] + 1;
      }
    }

    /** audio_prm_set_lpass_clk_cfg; `rc` is what the DSP answers. */
    method SetLpassClkCfg(index: int, kind: Kind, on: bool, rc: Rc) returns (ret: Rc)
      requires Valid() && IsIntf(index)
      modifies tdmClk, mi2sClk
      ensures ret == rc
      ensures Abs() == if rc == 0 then SetClk(old(Abs()), index, kind, on) else old(Abs())
    {
      if rc == 0 {
        match kind
        case TdmStream => tdmClk[index] := on;
        case Mi2sStream => mi2sClk[index] := on;
        case AuxPcmStream =>
      }
      ret := rc;
    }

    /** msm_common_snd_hw_params. */
    method MsmCommonSndHwParams(index: int, kind: Kind, rate: int, voteRc: Rc, clkRc: Rc) returns (ret: Rc)
      requires Valid() && index < INTF_MAX
      modifies this, hwVote, intfClkRefCnt, tdmClk, mi2sClk
      ensures (Abs(), ret) == HwParams(old(Abs()), index, kind, rate, voteRc, clkRc)
    {
      ret := 0;
      if index < 0 {
        return;
      }
      if intfClkRefCnt[index] == 0 {
        if kind.AuxPcmStream? {
          return;
        }
        if voteRequired[index] && FractionalRate(rate) {
          ret := Mi2sTdmHwVoteReq(true, voteRc);
          if ret < 0 {
            return;
          }
        }
        ret := SetLpassClkCfg(index, kind, true, clkRc);
        if ret < 0 {
          return;
        }
      }
      intfClkRefCnt[index] := intfClkRefCnt[index] + 1;
    }

    /** msm_common_snd_shutdown. */
    method MsmCommonSndShutdown(index: int, kind: Kind, rate: int, relRc: Rc, sleepRc: int)
      requires Valid() && index < INTF_MAX
      modifies this, hwVote, gpioRefCnt, intfClkRefCnt, pins, tdmClk, mi2sClk
      ensures Abs() == Shutdown(old(Abs()), index, kind, rate, relRc, sleepRc)
    {
      if index < 0 {
        return;
      }
      DropIntfClk(index, kind, rate, relRc);
      if hasGpio[index] {
        gpioRefCnt[index] := gpioRefCnt[index] - 1;
        if gpioRefCnt[index] == 0 {
          if sleepRc == 0 {
            pins[index] := false;
          }
        } else if gpioRefCnt[index] < 0 {
          gpioRefCnt[index] := 0;
        }
      }
    }

    /** The clock half of msm_common_snd_shutdown. */
    method DropIntfClk(index: int, kind: Kind, rate: int, relRc: Rc)
      requires Valid() && IsIntf(index)
      modifies this, hwVote, intfClkRefCnt, tdmClk, mi2sClk
      ensures Abs() == DropClk(old(Abs()), index, kind, rate, relRc)
    {
      intfClkRefCnt[index] := intfClkRefCnt[index] - 1;
      if intfClkRefCnt[index] == 0 {
        if !kind.AuxPcmStream? {
          var _ := SetLpassClkCfg(index, kind, false, relRc);
        }
        if voteRequired[index] && FractionalRate(rate) {
          var _ := Mi2sTdmHwVoteReq(false, 0);
        }
      } else if intfClkRefCnt[index] < 0 {
        intfClkRefCnt[index] := 0;
      }
    }
  }
}
