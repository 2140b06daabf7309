/**
 The audio DMA-buffer manager on values: the global fd list, one allocation list per
 device, and what the driver holds from the kernel. Every kernel call is an argument
 (its outcome) and an effect on `Kernel`. `IonDriver` carries out the same steps in place.
 */
module IonModel {
  import opened Prelude
  import opened Errno

  /** One allocation list node; `vaddr` is 0 while the buffer has no kernel mapping. */
  datatype Alloc = Alloc(buf: nat, vaddr: nat)

  /** One node of the global fd list. */
  datatype FdEntry = FdEntry(fd: int, handle: nat, paddr: int, plen: nat, dev: nat, hyp: bool)

  /**
   What the driver currently holds. A release of something not held raises `fault`, so
   `!fault` says that nothing was ever released twice. `dsp` is the memory that the
   hypervisor has assigned to the LPASS/ADSP virtual machines.
   */
  datatype Kernel = Kernel(
    refs: multiset<nat>, attached: multiset<(nat, nat)>, mapped: multiset<(nat, nat)>,
    cpu: multiset<nat>, vmaps: multiset<nat>, dsp: set<int>, fault: bool)

  datatype State = State(
    fds: seq<FdEntry>, allocs: seq<seq<Alloc>>, smmu: seq<bool>, probed: seq<bool>, k: Kernel)

  /** Outcomes of the kernel calls one IOCTL_MAP_PHYS_ADDR can make, in call order. */
  datatype MapEnv = MapEnv(
    fdAllocOk: bool, getOk: bool, buf: nat, allocOk: bool, attachRc: Rc, mapRc: Rc,
    beginRc: Rc, vaddr: nat, paddr: int, len: nat)

  datatype Event =
    | Map(dev: nat, fd: int, env: MapEnv)
    | Unmap(dev: nat, fd: int, endRc: Rc)
    | HypMap(fd: int, hypRc: Rc)
    | HypUnmap(fd: int, hypRc: Rc)
    | Crash(endFails: set<nat>, hypFails: set<int>)
    | OtherIoctl

  ghost predicate Wf(s: State) {
    && |s.allocs| == |s.smmu| == |s.probed|
    && forall i :: 0 <= i < |s.fds| ==> s.fds[i].dev < |s.allocs|
  }

  /** Device arguments name a probed-or-not device of the driver. */
  predicate ValidEvent(s: State, ev: Event) {
    (ev.Map? || ev.Unmap?) ==> ev.dev < |s.allocs|
  }

  // ---- Kernel effects ----

  function Get(k: Kernel, b: nat): Kernel { k.(refs := k.refs + multiset{b}) }

  function Put(k: Kernel, b: nat): Kernel {
    k.(refs := k.refs - multiset{b}, fault := k.fault || b !in k.refs)
  }

  function Attach(k: Kernel, d: nat, b: nat): Kernel { k.(attached := k.attached + multiset{(d, b)}) }

  function Detach(k: Kernel, d: nat, b: nat): Kernel {
    k.(attached := k.attached - multiset{(d, b)}, fault := k.fault || (d, b) !in k.attached)
  }

  function MapAttachment(k: Kernel, d: nat, b: nat): Kernel { k.(mapped := k.mapped + multiset{(d, b)}) }

  function UnmapAttachment(k: Kernel, d: nat, b: nat): Kernel {
    k.(mapped := k.mapped - multiset{(d, b)}, fault := k.fault || (d, b) !in k.mapped)
  }

  function BeginCpu(k: Kernel, b: nat): Kernel { k.(cpu := k.cpu + multiset{b}) }

  function EndCpu(k: Kernel, b: nat): Kernel {
    k.(cpu := k.cpu - multiset{b}, fault := k.fault || b !in k.cpu)
  }

  function Vmap(k: Kernel, b: nat): Kernel { k.(vmaps := k.vmaps + multiset{b}) }

  function Vunmap(k: Kernel, b: nat): Kernel {
    k.(vmaps := k.vmaps - multiset{b}, fault := k.fault || b !in k.vmaps)
  }

  /** The addresses of one listed buffer. */
  function Region(e: FdEntry): set<int> { set a | e.paddr <= a < e.paddr + e.plen && Covers(e, a) }

  predicate Covers(e: FdEntry, a: int) { e.paddr <= a < e.paddr + e.plen }

  // ---- List searches: the first match, or the length of the list ----

  function FdIndex(fds: seq<FdEntry>, fd: int): (i: nat)
    ensures i <= |fds| && (i < |fds| ==> fds[i].fd == fd)
    ensures forall j :: 0 <= j < i ==> fds[j].fd != fd
  {
    if fds == [] || fds[0].fd == fd then 0 else 1 + FdIndex(fds[1..], fd)
  }

  function HandleIndex(fds: seq<FdEntry>, h: nat): (i: nat)
    ensures i <= |fds| && (i < |fds| ==> fds[i].handle == h)
    ensures forall j :: 0 <= j < i ==> fds[j].handle != h
  {
    if fds == [] || fds[0].handle == h then 0 else 1 + HandleIndex(fds[1..], h)
  }

  function BufIndex(xs: seq<Alloc>, b: nat): (i: nat)
    ensures i <= |xs| && (i < |xs| ==> xs[i].buf == b)
    ensures forall j :: 0 <= j < i ==> xs[j].buf != b
  {
    if xs == [] || xs[0].buf == b then 0 else 1 + BufIndex(xs[1..], b)
  }

  // ---- Internal operations, one function per C function ----

  /** The internal operations leave the fd list, the configuration and memory ownership alone. */
  predicate SameTable(s: State, s': State) {
    && s'.fds == s.fds && s'.smmu == s.smmu && s'.probed == s.probed
    && |s'.allocs| == |s.allocs| && s'.k.dsp == s.k.dsp
  }

  /** msm_audio_ion_map_kernel: returns the kernel address, 0 on failure. */
  function MapKernel(s: State, dev: nat, buf: nat, beginRc: Rc, vaddr: nat): (r: (State, nat))
    requires dev < |s.allocs|
    ensures SameTable(s, r.0)
  {
    if beginRc != 0 then (s, 0)
    else
      var s1 := s.(k := BeginCpu(s.k, buf));
      if vaddr == 0 then (s1, 0)
      else
        var xs := s.allocs[dev];
        var i := BufIndex(xs, buf);
        var xs' := if i < |xs| then xs[i := xs[i].(vaddr := vaddr)] else xs;
        (s1.(k := Vmap(s1.k, buf), allocs := s.allocs[dev := xs']), vaddr)
  }

  /** msm_audio_dma_buf_map for an IOVA mapping. */
  function DmaBufMap(s: State, dev: nat, env: MapEnv): (r: (State, Rc))
    requires dev < |s.allocs|
    ensures SameTable(s, r.0)
  {
    if !env.allocOk then (s, ENOMEM)
    else if env.attachRc != 0 then (s, env.attachRc)
    else
      var k1 := Attach(s.k, dev, env.buf);
      if env.mapRc != 0 then (s.(k := Detach(k1, dev, env.buf)), env.mapRc)
      else
        (s.(k := MapAttachment(k1, dev, env.buf),
            allocs := s.allocs[dev := s.allocs[dev] + [Alloc(env.buf, 0)]]), 0)
  }

  /** msm_audio_dma_buf_unmap. */
  function DmaBufUnmap(s: State, dev: nat, buf: nat): (r: (State, Rc))
    requires dev < |s.allocs|
    ensures SameTable(s, r.0)
  {
    var i := BufIndex(s.allocs[dev], buf);
    if i == |s.allocs[dev]| then (s, EINVAL)
    else
      (s.(k := Put(Detach(UnmapAttachment(s.k, dev, buf), dev, buf), buf),
          allocs := s.allocs[dev := RemoveAt(s.allocs[dev], i)]), 0)
  }

  /** msm_audio_ion_buf_map. */
  function BufMap(s: State, dev: nat, env: MapEnv): (r: (State, Rc))
    requires dev < |s.allocs|
    ensures SameTable(s, r.0)
  {
    var (s1, rc) := DmaBufMap(s, dev, env);
    if rc != 0 then (s1.(k := Put(s1.k, env.buf)), rc)
    else
      var (s2, vaddr) := MapKernel(s1, dev, env.buf, env.beginRc, env.vaddr);
      if vaddr == 0 then (DmaBufUnmap(s2, dev, env.buf).0, ENOMEM) else (s2, 0)
  }

  /** msm_audio_ion_import: a failed map of a device without SMMU is not reported. */
  function Import(s: State, dev: nat, env: MapEnv): (r: (State, Rc))
    requires dev < |s.allocs| == |s.smmu| == |s.probed|
    ensures SameTable(s, r.0)
  {
    if !s.probed[dev] then (s, EPROBE_DEFER)
    else if !env.getOk then (s, EINVAL)
    else
      var s1 := s.(k := Get(s.k, env.buf));
      if s.smmu[dev] then BufMap(s1, dev, env) else (DmaBufMap(s1, dev, env).0, 0)
  }

  /** msm_audio_ion_unmap_kernel. */
  function UnmapKernel(s: State, dev: nat, buf: nat, endRc: Rc): (r: (State, Rc))
    requires dev < |s.allocs|
    ensures SameTable(s, r.0)
  {
    var xs := s.allocs[dev];
    var i := BufIndex(xs, buf);
    if i == |xs| || xs[i].vaddr == 0 then (s, EINVAL)
    else
      var k1 := Vunmap(s.k, buf);
      if endRc != 0 then (s.(k := k1), endRc) else (s.(k := EndCpu(k1, buf)), 0)
  }

  /** msm_audio_ion_free: without SMMU a buffer that is not on the list is not reported. */
  function Free(s: State, dev: nat, buf: nat, endRc: Rc): (r: (State, Rc))
    requires dev < |s.allocs| == |s.smmu|
    ensures SameTable(s, r.0)
  {
    if s.smmu[dev] then
      var (s1, rc) := UnmapKernel(s, dev, buf, endRc);
      if rc != 0 then (s1, rc) else (DmaBufUnmap(s1, dev, buf).0, 0)
    else (DmaBufUnmap(s, dev, buf).0, 0)
  }

  /** hyp_assign_phys back to HLOS for a flagged entry, unless the hypervisor refuses. */
  function HypReturn(s: State, e: FdEntry, hypFails: set<int>): State {
    if e.hyp && e.fd !in hypFails then s.(k := s.k.(dsp := s.k.dsp - Region(e))) else s
  }

  /** What the crash handler's call of dma_buf_end_cpu_access returns for a buffer. */
  function EndRc(endFails: set<nat>, b: nat): Rc { if b in endFails then EINVAL else 0 }

  /** One round of the crash handler: unassign, then free on the device that mapped the buffer. */
  function CrashOne(s: State, endFails: set<nat>, hypFails: set<int>): (r: State)
    requires Wf(s) && s.fds != []
    ensures Wf(r) && r.fds == s.fds[1..] && r.smmu == s.smmu && r.probed == s.probed
    ensures r.k.dsp == HypReturn(s, s.fds[0], hypFails).k.dsp
  {
    var e := s.fds[0];
    Free(HypReturn(s, e, hypFails), e.dev, e.handle, EndRc(endFails, e.handle)).0.(fds := s.fds[1..])
  }

  /** msm_audio_ion_crash_handler once the list is initialised: a round for every listed fd. */
  function CrashStep(s: State, endFails: set<nat>, hypFails: set<int>): (r: State)
    requires Wf(s)
    ensures Wf(r) && r.fds == [] && r.smmu == s.smmu && r.probed == s.probed
    decreases |s.fds|
  {
    if s.fds == [] then s else CrashStep(CrashOne(s, endFails, hypFails), endFails, hypFails)
  }

  // ---- Entry points ----

  /** IOCTL_MAP_PHYS_ADDR: a listed fd is not listed again. */
  function MapStep(s: State, dev: nat, fd: int, env: MapEnv): (r: (State, Rc))
    requires Wf(s) && dev < |s.allocs|
    ensures Wf(r.0) && r.0.smmu == s.smmu && r.0.probed == s.probed
  {
    if !env.fdAllocOk then (s, ENOMEM)
    else
      var (s1, rc) := Import(s, dev, env);
      if rc < 0 then (s1, rc)
      else if FdIndex(s1.fds, fd) < |s1.fds| then (s1, 0)
      else (s1.(fds := s1.fds + [NewEntry(dev, fd, env)]), 0)
  }

  function NewEntry(dev: nat, fd: int, env: MapEnv): FdEntry {
    FdEntry(fd, env.buf, env.paddr, if env.allocOk then env.len else 0, dev, false)
  }

  /** IOCTL_UNMAP_PHYS_ADDR through device `dev`: looks up by fd, deletes by handle. */
  function UnmapStep(s: State, dev: nat, fd: int, endRc: Rc): (r: (State, Rc))
    requires Wf(s) && dev < |s.allocs|
    ensures Wf(r.0) && r.0.smmu == s.smmu && r.0.probed == s.probed
  {
    var i := FdIndex(s.fds, fd);
    if i == |s.fds| then (s, EINVAL)
    else
      var h := s.fds[i].handle;
      var (s1, rc) := Free(s, dev, h, endRc);
      if rc < 0 then (s1, rc)
      else (s1.(fds := RemoveAt(s1.fds, HandleIndex(s1.fds, h))), 0)
  }

  /** IOCTL_MAP_HYP_ASSIGN (`assign`) and IOCTL_UNMAP_HYP_ASSIGN (`!assign`). */
  function HypStep(s: State, fd: int, assign: bool, hypRc: Rc): (r: (State, Rc))
    requires Wf(s)
    ensures Wf(r.0) && r.0.smmu == s.smmu && r.0.probed == s.probed
  {
    var i := FdIndex(s.fds, fd);
    if i == |s.fds| then (s, EINVAL)
    else if hypRc < 0 then (s, hypRc)
    else
      var r := Region(s.fds[i]);
      (s.(k := s.k.(dsp := if assign then s.k.dsp + r else s.k.dsp - r),
          fds := s.fds[i := s.fds[i].(hyp := assign)]), 0)
  }

  function Step(s: State, ev: Event): (State, Rc)
    requires Wf(s) && ValidEvent(s, ev)
  {
    match ev
    case Map(dev, fd, env) => MapStep(s, dev, fd, env)
    case Unmap(dev, fd, endRc) => UnmapStep(s, dev, fd, endRc)
    case HypMap(fd, rc) => HypStep(s, fd, true, rc)
    case HypUnmap(fd, rc) => HypStep(s, fd, false, rc)
    case Crash(endFails, hypFails) => (CrashStep(s, endFails, hypFails), 0)
    case OtherIoctl => (s, EINVAL)
  }
}
