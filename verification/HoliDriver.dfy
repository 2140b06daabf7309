/**
 The stream startup and shutdown callbacks of the holi machine driver in their own form:
 counters updated in place, early exits and the rollback labels. Each method is proved to
 take the step that `HoliModel` describes.
 */
module HoliDriver {
  import opened Errno
  import opened HoliModel
  import HoliTheorems

  class MachineData {
    const hasGpio: seq<bool>
    const hasVote: bool
    const refCnt: array<nat>
    const gpioRef: array<int>
    var coreAudioVoteCount: int
    var rxRate: seq<int>
    var txRate: seq<int>
    /** Effects of the kernel calls: active pins, running clocks, enables of the vote clock. */
    var pins: seq<bool>
    var clks: seq<bool>
    var enables: int

    ghost function Abs(): State
      reads this, refCnt, gpioRef
    {
      State(refCnt[..], gpioRef[..], coreAudioVoteCount, hasGpio, hasVote, rxRate, txRate, pins, clks, enables)
    }

    ghost predicate Valid()
      reads this, refCnt, gpioRef
    {
      Wf(Abs())
    }

    constructor (hasGpio: seq<bool>, hasVote: bool, rxRate: seq<int>, txRate: seq<int>)
      requires |hasGpio| == |rxRate| == |txRate| == MI2S_MAX
      ensures Valid() && fresh(refCnt) && fresh(gpioRef)
      ensures Abs() == State(seq(MI2S_MAX, _ => 0), seq(MI2S_MAX, _ => 0), 0, hasGpio, hasVote, rxRate, txRate,
                             seq(MI2S_MAX, _ => false), seq(MI2S_MAX, _ => false), 0)
    {
      this.hasGpio := hasGpio;
      this.hasVote := hasVote;
      this.rxRate := rxRate;
      this.txRate := txRate;
      refCnt := new nat[MI2S_MAX](_ => 0);
      gpioRef := new int[MI2S_MAX](_ => 0);
      coreAudioVoteCount := 0;
      pins := seq(MI2S_MAX, _ => false);
      clks := seq(MI2S_MAX, _ => false);
      enables := 0;
    }

    method Mi2sDisableAudioVote(index: int, stream: Dir)
      requires Valid() && IsIface(index)
      modifies this`coreAudioVoteCount, this`enables
      ensures Abs() == DisableVote(old(Abs()), index, stream)
    {
      var sampleRate := 0;
      if stream == Playback {
        sampleRate := rxRate[index];
      } else if stream == Capture {
        sampleRate := txRate[index];
      } else {
        return;
      }
      if VotingIface(index) && Fractional(sampleRate) {
        if hasVote {
          coreAudioVoteCount := coreAudioVoteCount - 1;
          if coreAudioVoteCount == 0 {
            enables := enables - 1;
          } else if coreAudioVoteCount < 0 {
            coreAudioVoteCount := 0;
          }
        }
      }
    }

    method MsmMi2sSetSclk(index: int, enable: bool, rc: int) returns (ret: int)
      requires Valid() && IsIface(index)
      modifies this`clks
      ensures ret == rc && Abs() == SetClk(old(Abs()), index, enable, rc)
    {
      ret := rc;
      if ret >= 0 {
        clks := clks[index := enable];
      }
    }

    /** The pin part shared by the three startups. */
    method SelectActive(index: int, pinRc: int) returns (ret: int)
      requires Valid() && IsIface(index)
      modifies this`pins, gpioRef
      ensures (Abs(), ret) == TakePins(old(Abs()), index, pinRc)
    {
      ret := 0;
      if hasGpio[index] {
        if gpioRef[index] == 0 {
          ret := pinRc;
          if ret != 0 {
            return;
          }
          pins := pins[index := true];
        }
        gpioRef[index] := gpioRef[index] + 1;
        assert gpioRef[..] == old(gpioRef[..])[index := old(gpioRef[index]) + 1];
      }
    }

    /** The pin part shared by the three shutdowns. */
    method SelectSleep(index: int, sleepRc: int)
      requires Valid() && IsIface(index)
      modifies this`pins, gpioRef
      ensures Abs() == DropPins(old(Abs()), index, sleepRc)
    {
      if hasGpio[index] {
        gpioRef[index] := gpioRef[index] - 1;
        assert gpioRef[..] == old(gpioRef[..])[index := old(gpioRef[index]) - 1];
        if gpioRef[index] == 0 && sleepRc == 0 {
          pins := pins[index := false];
        }
      }
    }

    method SetRefCnt(index: int, n: nat)
      requires Valid() && IsIface(index) && n <= U32_MAX
      modifies refCnt
      ensures Abs() == old(Abs()).(refCnt := old(Abs()).refCnt[index := n]) && Valid()
    {
      refCnt[index] := n;
      assert refCnt[..] == old(refCnt[..])[index := n];
    }

    method MsmMi2sSndStartup(index: int, stream: Dir, env: StartEnv) returns (ret: int)
      requires Valid()
      modifies this, refCnt, gpioRef
      ensures Valid() && (Abs(), ret) == Mi2sStartup(old(Abs()), index, stream, env)
    {
      ret := 0;
      if index < 0 || index >= MI2S_MAX {
        return EINVAL;
      }
      var sampleRate := 0;
      if stream == Playback {
        sampleRate := rxRate[index];
      } else if stream == Capture {
        sampleRate := txRate[index];
      } else {
        return EINVAL;
      }
      if VotingIface(index) && Fractional(sampleRate) {
        if !hasVote {
          return EINVAL;
        }
        if coreAudioVoteCount == 0 {
          ret := env.voteRc;
          if ret < 0 {
            return;
          }
          enables := enables + 1;
        }
        coreAudioVoteCount := coreAudioVoteCount + 1;
      }
      assert Abs() == TakeVote(old(Abs()), index, stream);
      SetRefCnt(index, Inc32(refCnt[index]));
      if refCnt[index] == 1 {
        ret := FirstUseOrRollback(index, stream, env);
      }
    }

    /** The block under `++ref_cnt == 1` with the labels clk_off and clean_up. */
    method FirstUseOrRollback(index: int, stream: Dir, env: StartEnv) returns (ret: int)
      requires Valid() && IsIface(index)
      modifies this, refCnt, gpioRef
      ensures Valid() && (Abs(), ret) == FirstUse(old(Abs()), index, stream, env)
    {
      var clkOff := false;
      ret := MsmMi2sSetSclk(index, true, env.clkRc);
      if ret >= 0 {
        clkOff := true;
        ret := env.fmtRc;
        if ret >= 0 && hasGpio[index] {
          var asked := gpioRef[index] == 0;
          var pinRc := SelectActive(index, env.pinRc);
          if asked {
            ret := pinRc;
          }
        }
      }
      if clkOff && ret < 0 {
        var _ := MsmMi2sSetSclk(index, false, env.offRc);
      }
      if ret < 0 {
        SetRefCnt(index, Dec32(refCnt[index]));
        Mi2sDisableAudioVote(index, stream);
      }
    }

    method MsmMi2sSndShutdown(index: int, stream: Dir, env: StopEnv)
      requires Valid()
      modifies this, refCnt, gpioRef
      ensures Valid() && Abs() == Mi2sShutdown(old(Abs()), index, stream, env)
    {
      if index < 0 || index >= MI2S_MAX {
        return;
      }
      SetRefCnt(index, Dec32(refCnt[index]));
      if refCnt[index] == 0 {
        SelectSleep(index, env.sleepRc);
        var _ := MsmMi2sSetSclk(index, false, env.offRc);
      }
      Mi2sDisableAudioVote(index, stream);
    }

    method HoliTdmSndStartup(daiId: int, pinRc: int) returns (ret: int)
      requires Valid()
      modifies this, gpioRef
      ensures Valid() && (Abs(), ret) == PinStartup(old(Abs()), TdmMode(daiId), pinRc)
      ensures if 0x9000 <= daiId < 0x9040 && daiId % 16 <= 1
              then HoliTheorems.PinsTaken(old(Abs()), Abs(), (daiId - 0x9000) / 16, pinRc, ret)
              else ret == -22 && Abs() == old(Abs())
    {
      HoliTheorems.TdmIds(Abs(), daiId, pinRc, 0);
      var mode := TdmMode(daiId);
      if mode >= MI2S_MAX || mode < 0 {
        return EINVAL;
      }
      ret := SelectActive(mode, pinRc);
    }

    method HoliTdmSndShutdown(daiId: int, sleepRc: int)
      requires Valid()
      modifies this, gpioRef
      ensures Valid() && Abs() == PinShutdown(old(Abs()), TdmMode(daiId), sleepRc)
      ensures if 0x9000 <= daiId < 0x9040 && daiId % 16 <= 1
              then HoliTheorems.PinsDropped(old(Abs()), Abs(), (daiId - 0x9000) / 16, sleepRc)
              else Abs() == old(Abs())
    {
      HoliTheorems.TdmIds(Abs(), daiId, 0, sleepRc);
      var mode := TdmMode(daiId);
      if mode >= MI2S_MAX || mode < 0 {
        return;
      }
      SelectSleep(mode, sleepRc);
    }

    method HoliAuxSndStartup(daiId: int, pinRc: int) returns (ret: int)
      requires Valid()
      modifies this, gpioRef
      ensures Valid() && (Abs(), ret) == PinStartup(old(Abs()), AuxMode(daiId), pinRc)
      ensures -0x8000_0000 <= daiId < 0x8000_0000 ==>
        if 1 <= daiId <= 4 then HoliTheorems.PinsTaken(old(Abs()), Abs(), daiId - 1, pinRc, ret)
        else ret == -22 && Abs() == old(Abs())
    {
      if -0x8000_0000 <= daiId < 0x8000_0000 {
        HoliTheorems.AuxIds(Abs(), daiId, pinRc, 0);
      }
      var mode := AuxMode(daiId);
      if mode >= MI2S_MAX {
        return EINVAL;
      }
      ret := SelectActive(mode, pinRc);
    }

    method HoliAuxSndShutdown(daiId: int, sleepRc: int)
      requires Valid()
      modifies this, gpioRef
      ensures Valid() && Abs() == PinShutdown(old(Abs()), AuxMode(daiId), sleepRc)
      ensures -0x8000_0000 <= daiId < 0x8000_0000 ==>
        if 1 <= daiId <= 4 then HoliTheorems.PinsDropped(old(Abs()), Abs(), daiId - 1, sleepRc)
        else Abs() == old(Abs())
    {
      if -0x8000_0000 <= daiId < 0x8000_0000 {
        HoliTheorems.AuxIds(Abs(), daiId, 0, sleepRc);
      }
      var mode := AuxMode(daiId);
      if mode >= MI2S_MAX {
        return;
      }
      SelectSleep(mode, sleepRc);
    }
  }
}
