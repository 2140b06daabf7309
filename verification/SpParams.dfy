/**
 Speaker-protection logging: peaks held between reads, and the fixed-point excursion shown
 as hundredths.
 */
module SpParams {
  import opened Prelude

  const Q13 := 0x2000
  const Q7 := 0x80
  const Q22 := 0x40_0000
  const Q27 := 0x800_0000
  const SPKRS := 2

  /** C division: towards zero. */
  function Quot(a: int, b: int): int
    requires b > 0
  {
    if a >= 0 then a / b else -(-a / b)
  }

  /** The digits after "0." for an excursion in Q27. */
  function Shown(exQ27: int): int {
    Quot(Quot(ToInt32(Quot(exQ27, Q13) * 10000), Q7 * Q7), 100)
  }

  /** The largest quotient whose scaling by 10000 fits an int. */
  const LIMIT := 214748

  /** No step of the conversion wraps exactly up to this excursion. */
  lemma FitsIff(x: int)
    requires 0 <= x < 0x8000_0000
    ensures ToInt32(Quot(x, Q13) * 10000) == Quot(x, Q13) * 10000 <==> x < (LIMIT + 1) * Q13
  {
  }

  /** The divisions by 128 * 128 and then by 100 undo a factor of 100 without loss. */
  lemma ShownIs(x: nat)
    requires x < (LIMIT + 1) * Q13
    ensures Shown(x) == 100 * (x / Q13) / 0x4000
  {
    FitsIff(x);
    var y := 100 * (x / Q13);
    var h, s := y / 0x4000, y % 0x4000;
    assert Shown(x) == 100 * y / 0x4000 / 100;
    assert 100 * y == 0x4000 * (100 * h) + 100 * s;
    assert 100 * y / 0x4000 == 100 * h + 100 * s / 0x4000;
    assert 0 <= 100 * s / 0x4000 < 100;
  }

  /**
   The hundredths shown never exceed the true ones and fall short by one at most, exactly
   when the dropped low bits carry over.
   */
  lemma ShownNearly(x: nat)
    requires x < (LIMIT + 1) * Q13
    ensures Shown(x) == 100 * x / Q27 - (if 0x2000 * (100 * (x / Q13) % 0x4000) + 100 * (x % Q13) < Q27 then 0 else 1)
  {
    ShownIs(x);
    var q, r := x / Q13, x % Q13;
    var h, s := 100 * q / 0x4000, 100 * q % 0x4000;
    assert 100 * x == h * Q27 + (0x2000 * s + 100 * r);
    assert 0 <= 0x2000 * s + 100 * r < 2 * Q27;
  }

  /** Two digits are enough exactly for an excursion below one. */
  lemma TwoDigitsIff(x: nat)
    requires x < (LIMIT + 1) * Q13
    ensures Shown(x) < 100 <==> x < 0x800_0000
  {
    ShownIs(x);
  }

  /** Exactly above that limit the product wraps and the number shown is negative. */
  lemma ShownNegativeIff(x: int)
    requires 0 <= x < 0x8000_0000
    ensures Shown(x) < 0 <==> x >= (LIMIT + 1) * Q13
  {
    FitsIff(x);
    if x >= (LIMIT + 1) * Q13 {
      var v := ToInt32(x / Q13 * 10000);
      assert -0x8000_0000 <= v < -1_600_000_000;
    }
  }

  // ---- Held values ----

  /** What is held per speaker between reads: two peaks and two counts of exceeded limits. */
  datatype Quantity = Temperature | Excursion | TemperatureCount | ExcursionCount

  predicate IsCount(q: Quantity) { q.TemperatureCount? || q.ExcursionCount? }

  /** One reading of the DSP's log, for both speakers. */
  datatype Sample = Sample(
    temperature: seq<int>, excursion: seq<int>, temperatureCount: seq<Uint32>, excursionCount: seq<Uint32>)

  predicate Wf(s: Sample) {
    |s.temperature| == |s.excursion| == |s.temperatureCount| == |s.excursionCount| == SPKRS
  }

  predicate AllWf(log: seq<Sample>) { forall i :: 0 <= i < |log| ==> Wf(log[i]) }

  function Of(s: Sample, q: Quantity, k: nat): int
    requires Wf(s) && k < SPKRS
  {
    match q
    case Temperature => s.temperature[k]
    case Excursion => s.excursion[k]
    case TemperatureCount => s.temperatureCount[k]
    case ExcursionCount => s.excursionCount[k]
  }

  /** A larger sample replaces a peak, and is added to a count. */
  function Update(q: Quantity, held: int, v: int): int {
    if held >= v then held else if IsCount(q) then ToUint32(held + v) else v
  }

  /** The value held after a log, starting from zero. */
  function Held(log: seq<Sample>, q: Quantity, k: nat): int
    requires k < SPKRS && AllWf(log)
  {
    if log == [] then 0 else Update(q, Held(log[..|log| - 1], q, k), Of(log[|log| - 1], q, k))
  }

  /** A peak is the largest of zero and the samples. */
  lemma {:induction false} PeakIsMax(log: seq<Sample>, q: Quantity, k: nat)
    requires k < SPKRS && AllWf(log) && !IsCount(q)
    ensures Held(log, q, k) >= 0 && forall i :: 0 <= i < |log| ==> Of(log[i], q, k) <= Held(log, q, k)
    ensures Held(log, q, k) == 0 || exists i :: 0 <= i < |log| && Of(log[i], q, k) == Held(log, q, k)
  {
    if log != [] {
      var front := log[..|log| - 1];
      PeakIsMax(front, q, k);
      if Held(log, q, k) == Held(front, q, k) != 0 {
        var i :| 0 <= i < |front| && Of(front[i], q, k) == Held(front, q, k);
        assert Of(log[i], q, k) == Held(log, q, k);
      }
    }
  }

  function Sum(log: seq<Sample>, q: Quantity, k: nat): int
    requires k < SPKRS && AllWf(log)
  {
    if log == [] then 0 else Sum(log[..|log| - 1], q, k) + Of(log[|log| - 1], q, k)
  }

  /** No sample is large enough for a count to wrap. */
  predicate NoWrap(log: seq<Sample>, q: Quantity, k: nat)
    requires k < SPKRS && AllWf(log)
  {
    forall i :: 0 <= i < |log| ==> Of(log[i], q, k) < 0x8000_0000
  }

  lemma CountUpdate(q: Quantity, held: nat, v: nat)
    requires IsCount(q) && v < 0x8000_0000
    ensures Update(q, held, v) == if held >= v then held else held + v
  {
  }

  lemma CountNext(log: seq<Sample>, q: Quantity, k: nat)
    requires k < SPKRS && AllWf(log) && log != [] && IsCount(q) && NoWrap(log, q, k)
    ensures var (front, v) := (log[..|log| - 1], Of(log[|log| - 1], q, k));
      && NoWrap(front, q, k) && Held(front, q, k) >= 0 && v >= 0
      && Held(log, q, k) == if Held(front, q, k) >= v then Held(front, q, k) else Held(front, q, k) + v
  {
    CountUpdate(q, Held(log[..|log| - 1], q, k), Of(log[|log| - 1], q, k));
  }

  /** A count is not above the sum of the samples, and not below any of them. */
  lemma {:induction false} CountBounds(log: seq<Sample>, q: Quantity, k: nat)
    requires k < SPKRS && AllWf(log) && IsCount(q) && NoWrap(log, q, k)
    ensures 0 <= Held(log, q, k) <= Sum(log, q, k)
    ensures forall i :: 0 <= i < |log| ==> Of(log[i], q, k) <= Held(log, q, k)
  {
    if log != [] {
      CountNext(log, q, k);
      CountBounds(log[..|log| - 1], q, k);
    }
  }

  /** A count is below twice its largest sample, however many there were. */
  lemma {:induction false} CountStaysLow(log: seq<Sample>, q: Quantity, k: nat)
    requires k < SPKRS && AllWf(log) && IsCount(q) && NoWrap(log, q, k)
    ensures Held(log, q, k) == 0 || exists i :: 0 <= i < |log| && Held(log, q, k) < 2 * Of(log[i], q, k)
  {
    if log != [] {
      var front, n := log[..|log| - 1], |log| - 1;
      CountNext(log, q, k);
      CountStaysLow(front, q, k);
      if Held(front, q, k) < Of(log[n], q, k) {
        assert Held(log, q, k) < 2 * Of(log[n], q, k);
      } else if Held(front, q, k) != 0 {
        var i :| 0 <= i < |front| && Held(front, q, k) < 2 * Of(front[i], q, k);
        assert Held(log, q, k) < 2 * Of(log[i], q, k);
      }
    }
  }

  /** The sample `i` adds all it has to the count. */
  predicate Adds(log: seq<Sample>, q: Quantity, k: nat, i: nat)
    requires k < SPKRS && AllWf(log) && i < |log|
  {
    Of(log[i], q, k) == 0 || Held(log[..i], q, k) < Of(log[i], q, k)
  }

  /** A count is the sum exactly when each sample is zero or above the count so far. */
  lemma {:induction false} CountIsSumIff(log: seq<Sample>, q: Quantity, k: nat)
    requires k < SPKRS && AllWf(log) && IsCount(q) && NoWrap(log, q, k)
    ensures Held(log, q, k) == Sum(log, q, k) <==> forall i :: 0 <= i < |log| ==> Adds(log, q, k, i)
  {
    if log != [] {
      var front, n := log[..|log| - 1], |log| - 1;
      CountNext(log, q, k);
      CountIsSumIff(front, q, k);
      CountBounds(front, q, k);
      forall i | 0 <= i < n
        ensures Adds(front, q, k, i) <==> Adds(log, q, k, i)
      {
        assert front[..i] == log[..i];
      }
      assert Adds(log, q, k, n) <==> Of(log[n], q, k) == 0 || Held(front, q, k) < Of(log[n], q, k);
    }
  }

  lemma HeldNext(log: seq<Sample>, s: Sample, n: nat, q: Quantity, k: nat)
    requires Wf(s) && k < SPKRS && n <= |log| && AllWf(log)
    ensures Held((log + [s])[n..], q, k) == Update(q, Held(log[n..], q, k), Of(s, q, k))
  {
    var all := (log + [s])[n..];
    assert all[..|all| - 1] == log[n..];
  }

  /** Where a quantity is kept. */
  function Row(q: Quantity): nat {
    match q
    case Temperature => 0
    case Excursion => 1
    case TemperatureCount => 2
    case ExcursionCount => 3
  }

  lemma RowsAre()
    ensures Row(Temperature) == 0 && Row(Excursion) == 1 && Row(TemperatureCount) == 2 && Row(ExcursionCount) == 3
  {
  }

  function Max(a: int, b: int): int { if a < b then b else a }

  /** A count after a sample: unsigned 32-bit, and left alone by a sample not above it. */
  function Added(count: int, v: int): int { if count < v then (count + v) % 0x1_0000_0000 else count }

  /** For every quantity and speaker, no sample shown yet. */
  const NothingShown: map<(Quantity, nat), nat> :=
    map[(Temperature, 0) := 0, (Temperature, 1) := 0, (Excursion, 0) := 0, (Excursion, 1) := 0,
        (TemperatureCount, 0) := 0, (TemperatureCount, 1) := 0, (ExcursionCount, 0) := 0, (ExcursionCount, 1) := 0]

  lemma NothingShownIsZero()
    ensures forall q, k :: 0 <= k < SPKRS ==> (q, k) in NothingShown && NothingShown[(q, k)] == 0
  {
    forall q: Quantity, k | 0 <= k < SPKRS
      ensures (q, k) in NothingShown && NothingShown[(q, k)] == 0
    {
      assert k == 0 || k == 1;
      match q
      case Temperature =>
      case Excursion =>
      case TemperatureCount =>
      case ExcursionCount =>
    }
  }

  class AfeSpk {
    /** One row per quantity, one column per speaker. */
    const xtLogging: array2<int>
    const maxTemperatureRd: array<int>
    /** Every sample logged, and how many of them each attribute had seen when last shown. */
    ghost var log: seq<Sample>
    ghost var shown: map<(Quantity, nat), nat>

    ghost predicate Shape()
      reads this
    {
      && xtLogging.Length0 == 4 && xtLogging.Length1 == SPKRS && maxTemperatureRd.Length == SPKRS
      && AllWf(log)
      && forall q, k :: 0 <= k < SPKRS ==> (q, k) in shown && shown[(q, k)] <= |log|
    }

    /** A held value comes from the samples since it was last shown. */
    ghost predicate Holds(q: Quantity, k: nat)
      requires Shape() && k < SPKRS
      reads this, xtLogging
    {
      xtLogging[Row(q), k] == Held(log[shown[(q, k)]..], q, k)
    }

    ghost predicate Valid()
      reads this, xtLogging, maxTemperatureRd
    {
      && Shape()
      && (forall q, k :: 0 <= k < SPKRS ==> Holds(q, k))
      && forall k :: 0 <= k < SPKRS ==> maxTemperatureRd[k] == Held(log, Temperature, k)
    }

    constructor ()
      ensures Valid() && log == [] && fresh(xtLogging) && fresh(maxTemperatureRd)
    {
      xtLogging := new int[4, SPKRS]((_, _) => 0);
      maxTemperatureRd := new int[SPKRS](_ => 0);
      log := [];
      shown := NothingShown;
      NothingShownIsZero();
    }

    /** The conditional updates of one quantity, for both speakers. */
    method Note(q: Quantity, left: int, right: int)
      requires xtLogging.Length0 == 4 && xtLogging.Length1 == SPKRS
      modifies xtLogging
      ensures forall r, k :: 0 <= r < 4 && 0 <= k < SPKRS ==>
        xtLogging[r, k] ==
          if r == Row(q) then Update(q, old(xtLogging[r, k]), if k == 0 then left else right) else old(xtLogging[r, k])
    {
      if xtLogging[Row(q), 0] < left {
        xtLogging[Row(q), 0] := if IsCount(q) then ToUint32(xtLogging[Row(q), 0] + left) else left;
      }
      if xtLogging[Row(q), 1] < right {
        xtLogging[Row(q), 1] := if IsCount(q) then ToUint32(xtLogging[Row(q), 1] + right) else right;
      }
    }

    /** The peak that no read resets. */
    method NoteRd(left: int, right: int)
      requires maxTemperatureRd.Length == SPKRS
      modifies maxTemperatureRd
      ensures forall k :: 0 <= k < SPKRS ==>
        maxTemperatureRd[k] == Update(Temperature, old(maxTemperatureRd[k]), if k == 0 then left else right)
    {
      if maxTemperatureRd[0] < left {
        maxTemperatureRd[0] := left;
      }
      if maxTemperatureRd[1] < right {
        maxTemperatureRd[1] := right;
      }
    }

    /** What one sample does to the held values. */
    twostate predicate Stored(sample: Sample)
      requires Wf(sample) && xtLogging.Length0 == 4 && xtLogging.Length1 == SPKRS && maxTemperatureRd.Length == SPKRS
      reads xtLogging, maxTemperatureRd
    {
      forall k :: 0 <= k < SPKRS ==>
        && xtLogging[0, k] == Max(old(xtLogging[0, k]), sample.temperature[k])
        && xtLogging[1, k] == Max(old(xtLogging[1, k]), sample.excursion[k])
        && xtLogging[2, k] == Added(old(xtLogging[2, k]), sample.temperatureCount[k])
        && xtLogging[3, k] == Added(old(xtLogging[3, k]), sample.excursionCount[k])
        && maxTemperatureRd[k] == Max(old(maxTemperatureRd[k]), sample.temperature[k])
    }

    method StorePeaks(sample: Sample)
      requires Wf(sample) && xtLogging.Length0 == 4 && xtLogging.Length1 == SPKRS && maxTemperatureRd.Length == SPKRS
      modifies xtLogging, maxTemperatureRd
      ensures forall k :: 0 <= k < SPKRS ==>
        && xtLogging[0, k] == Max(old(xtLogging[0, k]), sample.temperature[k])
        && xtLogging[1, k] == Max(old(xtLogging[1, k]), sample.excursion[k])
        && xtLogging[2, k] == old(xtLogging[2, k]) && xtLogging[3, k] == old(xtLogging[3, k])
        && maxTemperatureRd[k] == Max(old(maxTemperatureRd[k]), sample.temperature[k])
    {
      RowsAre();
      Note(Temperature, sample.temperature[0], sample.temperature[1]);
      NoteRd(sample.temperature[0], sample.temperature[1]);
      Note(Excursion, sample.excursion[0], sample.excursion[1]);
    }

    method StoreCounts(sample: Sample)
      requires Wf(sample) && xtLogging.Length0 == 4 && xtLogging.Length1 == SPKRS
      modifies xtLogging
      ensures forall k :: 0 <= k < SPKRS ==>
        && xtLogging[0, k] == old(xtLogging[0, k]) && xtLogging[1, k] == old(xtLogging[1, k])
        && xtLogging[2, k] == Added(old(xtLogging[2, k]), sample.temperatureCount[k])
        && xtLogging[3, k] == Added(old(xtLogging[3, k]), sample.excursionCount[k])
    {
      RowsAre();
      Note(TemperatureCount, sample.temperatureCount[0], sample.temperatureCount[1]);
      Note(ExcursionCount, sample.excursionCount[0], sample.excursionCount[1]);
    }

    method Store(sample: Sample)
      requires Wf(sample) && xtLogging.Length0 == 4 && xtLogging.Length1 == SPKRS && maxTemperatureRd.Length == SPKRS
      modifies xtLogging, maxTemperatureRd
      ensures Stored(sample)
    {
      StorePeaks(sample);
      StoreCounts(sample);
    }

    twostate lemma StoredByQuantity(sample: Sample)
      requires Wf(sample) && xtLogging.Length0 == 4 && xtLogging.Length1 == SPKRS && maxTemperatureRd.Length == SPKRS
      requires Stored(sample)
      ensures forall q, k :: 0 <= k < SPKRS ==> xtLogging[Row(q), k] == Update(q, old(xtLogging[Row(q), k]), Of(sample, q, k))
    {
    }

    /** afe_get_sp_xt_logging_data; `rc` is what reading the DSP's log returns. */
    method AfeGetSpXtLoggingData(rc: int, sample: Sample) returns (ret: int)
      requires Valid() && Wf(sample)
      modifies this`log, xtLogging, maxTemperatureRd
      ensures Valid() && ret == rc
      ensures log == if rc == 0 then old(log) + [sample] else old(log)
      ensures rc == 0 ==> Stored(sample)
    {
      if rc != 0 {
        return rc;
      }
      Store(sample);
      StoredByQuantity(sample);
      log := log + [sample];
      forall q: Quantity, k | 0 <= k < SPKRS
        ensures Holds(q, k)
      {
        assert old(Holds(q, k));
        HeldNext(old(log), sample, shown[(q, k)], q, k);
        assert xtLogging[Row(q), k] == Update(q, old(xtLogging[Row(q), k]), Of(sample, q, k));
      }
      forall k | 0 <= k < SPKRS
        ensures maxTemperatureRd[k] == Held(log, Temperature, k)
      {
        HeldNext(old(log), sample, 0, Temperature, k);
        assert log[0..] == log && old(log)[0..] == old(log);
      }
      ret := rc;
    }

    /** What every resetting attribute does: reads its value and starts over. */
    method ShowAndReset(q: Quantity, k: nat) returns (v: int)
      requires Valid() && k < SPKRS
      modifies this`shown, xtLogging
      ensures Valid() && shown == old(shown)[(q, k) := |log|]
      ensures v == Held(log[old(shown)[(q, k)]..], q, k)
    {
      assert Holds(q, k);
      v := xtLogging[Row(q), k];
      xtLogging[Row(q), k] := 0;
      shown := shown[(q, k) := |log|];
      forall p: Quantity, j | 0 <= j < SPKRS
        ensures Holds(p, j)
      {
        assert old(Holds(p, j));
      }
    }

    /** sp_max_excursion_l_show and its twin for the right speaker. */
    method SpMaxExcursionShow(k: nat) returns (hundredths: int)
      requires Valid() && k < SPKRS
      modifies this`shown, xtLogging
      ensures Valid() && shown == old(shown)[(Excursion, k) := |log|]
      ensures hundredths == Shown(Held(log[old(shown)[(Excursion, k)]..], Excursion, k))
    {
      var exQ27 := ShowAndReset(Excursion, k);
      hundredths := Shown(exQ27);
    }

    /** sp_max_temperature_l_show and its twin: whole degrees. */
    method SpMaxTemperatureShow(k: nat) returns (degrees: int)
      requires Valid() && k < SPKRS
      modifies this`shown, xtLogging
      ensures Valid() && shown == old(shown)[(Temperature, k) := |log|]
      ensures degrees == Held(log[old(shown)[(Temperature, k)]..], Temperature, k) / 0x40_0000 >= 0
    {
      PeakIsMax(log[shown[(Temperature, k)]..], Temperature, k);
      var v := ShowAndReset(Temperature, k);
      degrees := Quot(v, Q22);
    }

    /** The four attributes that show a count of exceeded limits, as a C `int`. */
    method SpCountExceededShow(q: Quantity, k: nat) returns (count: int)
      requires Valid() && k < SPKRS && IsCount(q)
      modifies this`shown, xtLogging
      ensures Valid() && shown == old(shown)[(q, k) := |log|]
      ensures count == ToInt32(Held(log[old(shown)[(q, k)]..], q, k))
    {
      var v := ShowAndReset(q, k);
      count := ToInt32(v);
    }

    /** sp_max_temperature_rd_l_show and its twin: the peak since start, which no read resets. */
    method SpMaxTemperatureRdShow(k: nat) returns (degrees: int)
      requires Valid() && k < SPKRS
      ensures degrees == Held(log, Temperature, k) / 0x40_0000 >= 0
    {
      PeakIsMax(log, Temperature, k);
      degrees := Quot(maxTemperatureRd[k], Q22);
    }
  }
}
