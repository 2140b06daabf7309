/**
 The shared vote clock of the digital codec resource manager, and the flush and replay of
 its votes after a DSP restart.
 */
module RscMgr {
  import opened Errno

  /** Re-enables that succeed among the first `n`; `rcs(j)` is what the j-th one returns. */
  function Restored(n: nat, rcs: nat -> Rc): nat {
    if n == 0 then 0 else Restored(n - 1, rcs) + (if rcs(n - 1) == 0 then 1 else 0)
  }

  /** Enable counts seen on the way down from `n`. */
  function Down(n: nat): seq<nat> {
    if n == 0 then [] else [n - 1] + Down(n - 1)
  }

  /** Enable counts seen while `n` enables succeed from zero. */
  function Up(n: nat): (r: seq<nat>)
    ensures |r| == n
  {
    seq(n, j => j + 1)
  }

  /** The flush visits every count below the start once, in descending order, down to zero. */
  lemma {:induction false} DownPassesZero(n: nat)
    ensures |Down(n)| == n && forall j :: 0 <= j < n ==> Down(n)[j] == n - 1 - j
  {
    if n > 0 {
      DownPassesZero(n - 1);
    }
  }

  /** The replay ends with the initial count if and only if every re-enable succeeds. */
  lemma {:induction false} RestoredIff(n: nat, rcs: nat -> Rc)
    ensures Restored(n, rcs) <= n
    ensures Restored(n, rcs) == n <==> forall j: nat :: j < n ==> rcs(j) == 0
  {
    if n > 0 {
      RestoredIff(n - 1, rcs);
    }
  }

  /** What the replay restores is the number of re-enables that succeed. */
  lemma {:induction false} RestoredIsCount(n: nat, rcs: nat -> Rc)
    ensures Restored(n, rcs) == |set j: nat | j < n && rcs(j) == 0|
  {
    if n > 0 {
      RestoredIsCount(n - 1, rcs);
      assert (set j: nat | j < n && rcs(j) == 0) ==
        (set j: nat | j < n - 1 && rcs(j) == 0) + if rcs(n - 1) == 0 then {n - 1} else {};
    }
  }

  class VoteClock {
    const initDone: bool
    /** clk_prepare_enable calls not yet undone. */
    var enables: nat
    /** Every value the enable count took since construction. */
    ghost var trace: seq<nat>

    constructor (initDone: bool)
      ensures this.initDone == initDone && enables == 0 && trace == []
    {
      this.initDone := initDone;
      enables := 0;
      trace := [];
    }

    /** digital_cdc_rsc_mgr_hw_vote_enable: `rc` is what clk_prepare_enable returns. */
    method HwVoteEnable(rc: Rc) returns (ret: Rc)
      modifies this
      ensures if !initDone then ret == EINVAL && enables == old(enables) && trace == old(trace)
              else if rc < 0 then ret == rc && enables == old(enables) && trace == old(trace)
              else ret == 0 && enables == old(enables) + 1 && trace == old(trace) + [enables]
    {
      if !initDone {
        return EINVAL;
      }
      if rc == 0 {
        enables := enables + 1;
        trace := trace + [enables];
      }
      ret := rc;
    }

    /** digital_cdc_rsc_mgr_hw_vote_disable; the clock framework ignores an unmatched disable. */
    method HwVoteDisable()
      modifies this
      ensures if !initDone || old(enables) == 0 then enables == old(enables) && trace == old(trace)
              else enables == old(enables) - 1 && trace == old(trace) + [enables]
    {
      if !initDone {
        return;
      }
      if enables > 0 {
        enables := enables - 1;
        trace := trace + [enables];
      }
    }

    /**
     digital_cdc_rsc_mgr_hw_vote_reset: disables until the clock reads disabled, then
     enables as often as it disabled.
     */
    method HwVoteReset(rcs: nat -> Rc) returns (count: int)
      modifies this
      ensures !initDone ==> enables == old(enables) && trace == old(trace)
      ensures initDone ==> enables == Restored(old(enables), rcs)
      ensures initDone ==> trace == old(trace) + Down(old(enables)) + Up(enables)
    {
      count := 0;
      if !initDone {
        return;
      }
      assert trace == old(trace) + Down(0);
      while enables > 0
        invariant count == old(enables) - enables >= 0
        invariant old(trace) + Down(old(enables)) == trace + Down(enables)
        decreases enables
      {
        ghost var before, n := trace, enables;
        enables := enables - 1;
        trace := trace + [enables];
        assert before + Down(n) == before + [n - 1] + Down(n - 1);
        count := count + 1;
      }
      var total := count;
      ghost var n: nat := count;
      assert trace == old(trace) + Down(n) + Up(0);
      while count != 0
        invariant 0 <= count <= n == old(enables)
        invariant enables == Restored(n - count, rcs)
        invariant trace == old(trace) + Down(n) + Up(enables)
        decreases count
      {
        var rc := rcs(total - count);
        count := count - 1;
        if rc == 0 {
          assert Up(enables + 1) == Up(enables) + [enables + 1];
          enables := enables + 1;
          trace := trace + [enables];
        }
      }
      count := count - 1;
    }
  }
}
