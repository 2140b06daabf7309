/**
 The DMA-buffer manager in the driver's own form: lists walked in loops and updated in
 place. Each method is proved to take the step that `IonModel` describes.
 */
module IonDriver {
  import opened Prelude
  import opened Errno
  import opened IonModel

  class AudioIon {
    const smmu: seq<bool>
    const probed: seq<bool>
    var fdList: seq<FdEntry>
    var allocList: seq<seq<Alloc>>
    var k: Kernel

    ghost function Abs(): State
      reads this
    {
      State(fdList, allocList, smmu, probed, k)
    }

    constructor (smmu: seq<bool>, probed: seq<bool>)
      requires |smmu| == |probed|
      ensures Wf(Abs()) && this.smmu == smmu && this.probed == probed
      ensures fdList == [] && allocList == seq(|smmu|, _ => [])
      ensures k == Kernel(multiset{}, multiset{}, multiset{}, multiset{}, multiset{}, {}, false)
    {
      this.smmu := smmu;
      this.probed := probed;
      fdList := [];
      allocList := seq(|smmu|, _ => []);
      k := Kernel(multiset{}, multiset{}, multiset{}, multiset{}, multiset{}, {}, false);
    }

    method MsmAudioIonMapKernel(dev: nat, buf: nat, beginRc: Rc, vaddr: nat) returns (addr: nat)
      requires dev < |allocList|
      modifies this
      ensures (Abs(), addr) == MapKernel(old(Abs()), dev, buf, beginRc, vaddr)
    {
      addr := 0;
      if beginRc != 0 {
        return;
      }
      k := BeginCpu(k, buf);
      addr := vaddr;
      if addr == 0 {
        return;
      }
      k := Vmap(k, buf);
      var i := 0;
      while i < |allocList[dev]|
        invariant i <= |allocList[dev]|
        invariant forall j :: 0 <= j < i ==> allocList[dev][j].buf != buf
      {
        if allocList[dev][i].buf == buf {
          allocList := allocList[dev := allocList[dev][i := allocList[dev][i].(vaddr := addr)]];
          return;
        }
        i := i + 1;
      }
      assert allocList[dev := allocList[dev]] == allocList;
    }

    method MsmAudioDmaBufMap(dev: nat, env: MapEnv) returns (rc: Rc)
      requires dev < |allocList|
      modifies this
      ensures (Abs(), rc) == DmaBufMap(old(Abs()), dev, env)
    {
      if !env.allocOk {
        return ENOMEM;
      }
      if env.attachRc != 0 {
        return env.attachRc;
      }
      k := Attach(k, dev, env.buf);
      if env.mapRc != 0 {
        k := Detach(k, dev, env.buf);
        return env.mapRc;
      }
      k := MapAttachment(k, dev, env.buf);
      allocList := allocList[dev := allocList[dev] + [Alloc(env.buf, 0)]];
      return 0;
    }

    /** msm_audio_dma_buf_unmap: releases the first allocation of the buffer on the device's list. */
    method MsmAudioDmaBufUnmap(dev: nat, buf: nat) returns (rc: Rc)
      requires dev < |allocList|
      modifies this
      ensures (Abs(), rc) == DmaBufUnmap(old(Abs()), dev, buf)
    {
      var xs, i := allocList[dev], 0;
      while i < |xs| && xs[i].buf != buf
        invariant i <= |xs|
        invariant forall j :: 0 <= j < i ==> xs[j].buf != buf
      {
        i := i + 1;
      }
      assert i == BufIndex(xs, buf);
      if i == |xs| {
        return EINVAL;
      }
      k := Put(Detach(UnmapAttachment(k, dev, buf), dev, buf), buf);
      allocList := allocList[dev := RemoveAt(xs, i)];
      return 0;
    }

    method MsmAudioIonBufMap(dev: nat, env: MapEnv) returns (rc: Rc)
      requires dev < |allocList|
      modifies this
      ensures (Abs(), rc) == BufMap(old(Abs()), dev, env)
    {
      rc := MsmAudioDmaBufMap(dev, env);
      if rc != 0 {
        k := Put(k, env.buf);
        return;
      }
      var vaddr := MsmAudioIonMapKernel(dev, env.buf, env.beginRc, env.vaddr);
      if vaddr == 0 {
        rc := ENOMEM;
        var _ := MsmAudioDmaBufUnmap(dev, env.buf);
      }
    }

    method MsmAudioIonImport(dev: nat, env: MapEnv) returns (rc: Rc)
      requires dev < |allocList| == |smmu| == |probed|
      modifies this
      ensures (Abs(), rc) == Import(old(Abs()), dev, env)
    {
      if !probed[dev] {
        return EPROBE_DEFER;
      }
      if !env.getOk {
        return EINVAL;
      }
      k := Get(k, env.buf);
      if smmu[dev] {
        rc := MsmAudioIonBufMap(dev, env);
      } else {
        var _ := MsmAudioDmaBufMap(dev, env);
        rc := 0;
      }
    }

    method MsmAudioIonUnmapKernel(dev: nat, buf: nat, endRc: Rc) returns (rc: Rc)
      requires dev < |allocList|
      modifies this
      ensures (Abs(), rc) == UnmapKernel(old(Abs()), dev, buf, endRc)
    {
      var vaddr, i := 0, 0;
      while i < |allocList[dev]|
        invariant i <= |allocList[dev]|
        invariant vaddr == 0
        invariant forall j :: 0 <= j < i ==> allocList[dev][j].buf != buf
      {
        if allocList[dev][i].buf == buf {
          vaddr := allocList[dev][i].vaddr;
          break;
        }
        i := i + 1;
      }
      if vaddr == 0 {
        return EINVAL;
      }
      k := Vunmap(k, buf);
      if endRc != 0 {
        return endRc;
      }
      k := EndCpu(k, buf);
      return 0;
    }

    method MsmAudioIonFree(dev: nat, buf: nat, endRc: Rc) returns (rc: Rc)
      requires dev < |allocList| == |smmu|
      modifies this
      ensures (Abs(), rc) == Free(old(Abs()), dev, buf, endRc)
    {
      if smmu[dev] {
        rc := MsmAudioIonUnmapKernel(dev, buf, endRc);
        if rc != 0 {
          return;
        }
      }
      var _ := MsmAudioDmaBufUnmap(dev, buf);
      rc := 0;
    }

    method MsmAudioUpdateFdList(e: FdEntry)
      modifies this`fdList
      ensures fdList == if FdIndex(old(fdList), e.fd) < |old(fdList)| then old(fdList) else old(fdList) + [e]
    {
      var i := 0;
      while i < |fdList|
        invariant i <= |fdList|
        invariant forall j :: 0 <= j < i ==> fdList[j].fd != e.fd
      {
        if fdList[i].fd == e.fd {
          return;
        }
        i := i + 1;
      }
      fdList := fdList + [e];
    }

    method MsmAudioDeleteFdEntry(handle: nat)
      modifies this`fdList
      ensures fdList == RemoveAt(old(fdList), HandleIndex(old(fdList), handle))
    {
      var i := 0;
      while i < |fdList|
        invariant i <= |fdList|
        invariant forall j :: 0 <= j < i ==> fdList[j].handle != handle
      {
        if fdList[i].handle == handle {
          fdList := fdList[..i] + fdList[i + 1..];
          return;
        }
        i := i + 1;
      }
    }

    /** The list walk of the handle and address look-ups: `i` is the length of the list when the fd is absent. */
    method FindFd(fd: int) returns (i: nat)
      ensures i == FdIndex(fdList, fd)
    {
      i := 0;
      while i < |fdList|
        invariant i <= |fdList|
        invariant forall j :: 0 <= j < i ==> fdList[j].fd != fd
      {
        if fdList[i].fd == fd {
          return;
        }
        i := i + 1;
      }
    }

    method MsmAudioSetHypAssign(fd: int, assign: bool) returns (status: Rc)
      modifies this`fdList
      ensures var i := FdIndex(old(fdList), fd);
        if i < |old(fdList)| then status == 0 && fdList == old(fdList)[i := old(fdList)[i].(hyp := assign)]
        else status == EINVAL && fdList == old(fdList)
    {
      var i := FindFd(fd);
      if i == |fdList| {
        return EINVAL;
      }
      fdList := fdList[i := fdList[i].(hyp := assign)];
      return 0;
    }

    method MapPhysAddr(dev: nat, fd: int, env: MapEnv) returns (ret: Rc)
      requires Wf(Abs()) && dev < |allocList|
      modifies this
      ensures (Abs(), ret) == MapStep(old(Abs()), dev, fd, env)
    {
      if !env.fdAllocOk {
        return ENOMEM;
      }
      ret := MsmAudioIonImport(dev, env);
      if ret < 0 {
        return;
      }
      var plen := if env.allocOk then env.len else 0;
      MsmAudioUpdateFdList(FdEntry(fd, env.buf, env.paddr, plen, dev, false));
    }

    method UnmapPhysAddr(dev: nat, fd: int, endRc: Rc) returns (ret: Rc)
      requires Wf(Abs()) && dev < |allocList|
      modifies this
      ensures (Abs(), ret) == UnmapStep(old(Abs()), dev, fd, endRc)
    {
      var i := FindFd(fd);
      if i == |fdList| {
        return EINVAL;
      }
      var handle := fdList[i].handle;
      ret := MsmAudioIonFree(dev, handle, endRc);
      if ret < 0 {
        return;
      }
      MsmAudioDeleteFdEntry(handle);
    }

    method HypAssign(fd: int, assign: bool, hypRc: Rc) returns (ret: Rc)
      requires Wf(Abs())
      modifies this
      ensures (Abs(), ret) == HypStep(old(Abs()), fd, assign, hypRc)
    {
      var i := FindFd(fd);
      if i == |fdList| {
        return EINVAL;
      }
      if hypRc < 0 {
        return hypRc;
      }
      var region := Region(fdList[i]);
      k := k.(dsp := if assign then k.dsp + region else k.dsp - region);
      var _ := MsmAudioSetHypAssign(fd, assign);
      return 0;
    }

    method CrashHandler(endFails: set<nat>, hypFails: set<int>)
      requires Wf(Abs())
      modifies this
      ensures Abs() == CrashStep(old(Abs()), endFails, hypFails)
    {
      ghost var before, rest := Abs(), Abs();
      var i := 0;
      while i < |fdList|
        invariant i <= |fdList| && rest == Abs().(fds := fdList[i..]) && Wf(rest)
        invariant CrashStep(before, endFails, hypFails) == CrashStep(rest, endFails, hypFails)
      {
        assert rest.fds[0] == fdList[i];
        ReleaseEntry(i, endFails, hypFails);
        rest := CrashOne(rest, endFails, hypFails);
        i := i + 1;
      }
      DeleteAll();
    }

    /** The crash handler's second loop. */
    method DeleteAll()
      modifies this`fdList
      ensures fdList == []
    {
      while fdList != []
        decreases |fdList|
      {
        fdList := fdList[1..];
      }
    }

    /** One round of the crash handler's first loop. */
    method ReleaseEntry(i: nat, endFails: set<nat>, hypFails: set<int>)
      requires i < |fdList| && fdList[i].dev < |allocList| && Wf(Abs().(fds := fdList[i..]))
      modifies this
      ensures |fdList| == |old(fdList)| && fdList[i + 1..] == old(fdList[i + 1..])
      ensures Abs().(fds := fdList[i + 1..]) == CrashOne(old(Abs().(fds := fdList[i..])), endFails, hypFails)
    {
      var e := fdList[i];
      ghost var rest := Abs().(fds := fdList[i..]);
      assert rest.fds[0] == e && rest.fds[1..] == fdList[i + 1..];
      HypUnassign(i, hypFails);
      assert Abs().(fds := []) == HypReturn(rest, e, hypFails).(fds := []);
      ghost var mid := Abs();
      var _ := MsmAudioIonFree(e.dev, e.handle, EndRc(endFails, e.handle));
      FreeIgnoresFds(mid, HypReturn(rest, e, hypFails), e.dev, e.handle, EndRc(endFails, e.handle));
    }

    method HypUnassign(i: nat, hypFails: set<int>)
      requires i < |fdList|
      modifies this`fdList, this`k
      ensures k == HypReturn(old(Abs()), old(fdList[i]), hypFails).k
      ensures fdList == old(fdList)[i := old(fdList[i]).(hyp := false)]
    {
      if fdList[i].hyp {
        if fdList[i].fd !in hypFails {
          k := k.(dsp := k.dsp - Region(fdList[i]));
        }
        fdList := fdList[i := fdList[i].(hyp := false)];
      }
    }

    method Ioctl(ev: Event) returns (ret: Rc)
      requires Wf(Abs()) && ValidEvent(Abs(), ev) && !ev.Crash?
      modifies this
      ensures (Abs(), ret) == Step(old(Abs()), ev)
    {
      match ev
      case Map(dev, fd, env) => ret := MapPhysAddr(dev, fd, env);
      case Unmap(dev, fd, endRc) => ret := UnmapPhysAddr(dev, fd, endRc);
      case HypMap(fd, rc) => ret := HypAssign(fd, true, rc);
      case HypUnmap(fd, rc) => ret := HypAssign(fd, false, rc);
      case OtherIoctl => ret := EINVAL;
    }
  }

  lemma FreeIgnoresFds(s: State, t: State, dev: nat, buf: nat, endRc: Rc)
    requires dev < |s.allocs| == |s.smmu| && s.(fds := []) == t.(fds := [])
    ensures Free(s, dev, buf, endRc).0.(fds := []) == Free(t, dev, buf, endRc).0.(fds := [])
  {
  }
}
