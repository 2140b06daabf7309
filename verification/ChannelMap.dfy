/** The channel map of a codec-DMA backend, gathered over the DAIs of its link. */
module ChannelMap {
  import opened Prelude
  import opened Errno

  const U32 := 0x1_0000_0000

  // ---- Bits of unsigned words ----

  function Pow2(n: nat): nat { if n == 0 then 1 else 2 * Pow2(n - 1) }

  lemma HalfBelow(a: nat, n: nat)
    requires n > 0 && a < Pow2(n)
    ensures a / 2 < Pow2(n - 1)
  {
  }

  /** The bitwise `|` of C, on words of `n` bits. */
  function OrBits(a: nat, b: nat, n: nat): (r: nat)
    requires a < Pow2(n) && b < Pow2(n)
    ensures r < Pow2(n)
  {
    if n == 0 then 0
    else
      HalfBelow(a, n); HalfBelow(b, n);
      (if a % 2 == 1 || b % 2 == 1 then 1 else 0) + 2 * OrBits(a / 2, b / 2, n - 1)
  }

  lemma Pow2Of32()
    ensures Pow2(32) == U32
  {
    assert Pow2(8) == 0x100;
    assert Pow2(16) == 0x1_0000;
    assert Pow2(24) == 0x100_0000;
  }

  function BitOr(a: Uint32, b: Uint32): Uint32 {
    Pow2Of32();
    OrBits(a, b, 32)
  }

  /** The bitwise `&` of C. */
  function BitAnd(a: nat, b: nat): nat
    decreases a + b
  {
    if a == 0 || b == 0 then 0 else (if a % 2 == 1 && b % 2 == 1 then 1 else 0) + 2 * BitAnd(a / 2, b / 2)
  }

  function PopCount(x: nat): (r: nat)
    ensures r <= x && (r == 0 ==> x == 0)
  {
    if x == 0 then 0 else x % 2 + PopCount(x / 2)
  }

  /** One direction of a DAI's channel map: how many channels, and which. */
  datatype Channels = Channels(count: Uint32, mask: Uint32)

  /** A DAI slot of the link; `ret` is what get_channel_map returns. */
  datatype Dai = Absent | Present(ret: int, tx: Channels, rx: Channels)

  datatype Report = Failed(ret: int) | Nothing | Reported(channels: Channels)

  datatype Direction = Rx | Tx

  predicate Fails(d: Dai) { d.Present? && d.ret != 0 && d.ret != ENOTSUPP }

  function Of(d: Dai, dir: Direction): Channels {
    match d
    case Absent => Channels(0, 0)
    case Present(_, tx, rx) => if dir == Rx then rx else tx
  }

  /** The channels of a direction over all DAIs, as a number and as a set of bits. */
  function Sum(ds: seq<Dai>, dir: Direction): nat {
    if ds == [] then 0 else Sum(ds[..|ds| - 1], dir) + Of(ds[|ds| - 1], dir).count
  }

  function Or(ds: seq<Dai>, dir: Direction): Uint32 {
    if ds == [] then 0 else BitOr(Or(ds[..|ds| - 1], dir), Of(ds[|ds| - 1], dir).mask)
  }

  lemma {:induction false} OrZero(a: nat, n: nat)
    requires a < Pow2(n)
    ensures 0 < Pow2(n) && OrBits(a, 0, n) == a
  {
    if n > 0 {
      HalfBelow(a, n);
      OrZero(a / 2, n - 1);
    }
  }

  lemma AddWrapped(a: nat, b: nat)
    ensures (a % U32 + b) % U32 == (a + b) % U32
  {
    assert a == a / U32 * U32 + a % U32;
    var c := a % U32 + b;
    assert a + b == c + a / U32 * U32;
    assert c == c / U32 * U32 + c % U32;
  }

  /** A direction's total as the driver adds it up, in unsigned words. */
  function Total(ds: seq<Dai>, dir: Direction): Channels {
    Channels(Sum(ds, dir) % U32, Or(ds, dir))
  }

  function Chosen(rx: Channels, tx: Channels): Report {
    if rx.count != 0 then Reported(rx) else if tx.count != 0 then Reported(tx) else Nothing
  }

  lemma TotalNext(ds: seq<Dai>, i: nat, dir: Direction)
    requires i < |ds|
    ensures Total(ds[..i + 1], dir) ==
      if ds[i] == Absent then Total(ds[..i], dir)
      else Channels((Total(ds[..i], dir).count + Of(ds[i], dir).count) % U32, BitOr(Or(ds[..i], dir), Of(ds[i], dir).mask))
  {
    assert ds[..i + 1][..i] == ds[..i];
    AddWrapped(Sum(ds[..i], dir), Of(ds[i], dir).count);
    Pow2Of32();
    OrZero(Or(ds[..i], dir), 32);
  }

  /** What the control reports: the first failure, else receive channels over transmit channels. */
  function Gathered(ds: seq<Dai>): Report {
    if exists i :: 0 <= i < |ds| && Fails(ds[i]) then Failed(ds[FirstFailure(ds)].ret)
    else Chosen(Total(ds, Rx), Total(ds, Tx))
  }

  function FirstFailure(ds: seq<Dai>): (i: nat)
    requires exists i :: 0 <= i < |ds| && Fails(ds[i])
    ensures i < |ds| && Fails(ds[i]) && forall j :: 0 <= j < i ==> !Fails(ds[j])
  {
    if Fails(ds[0]) then 0 else 1 + FirstFailure(ds[1..])
  }

  /** The DAI loop of msm_channel_map_get. */
  method AddUpChannels(dais: seq<Dai>) returns (ret: int, rx: Channels, tx: Channels)
    ensures if exists i :: 0 <= i < |dais| && Fails(dais[i]) then ret == dais[FirstFailure(dais)].ret != 0
            else ret == 0 && rx == Total(dais, Rx) && tx == Total(dais, Tx)
  {
    rx, tx := Channels(0, 0), Channels(0, 0);
    for i := 0 to |dais|
      invariant forall j :: 0 <= j < i ==> !Fails(dais[j])
      invariant rx == Total(dais[..i], Rx) && tx == Total(dais[..i], Tx)
    {
      TotalNext(dais, i, Rx);
      TotalNext(dais, i, Tx);
      if dais[i] == Absent {
        continue;
      }
      if dais[i].ret != 0 && dais[i].ret != ENOTSUPP {
        assert FirstFailure(dais) == i;
        return dais[i].ret, rx, tx;
      }
      rx := Channels((rx.count + dais[i].rx.count) % U32, BitOr(rx.mask, dais[i].rx.mask));
      tx := Channels((tx.count + dais[i].tx.count) % U32, BitOr(tx.mask, dais[i].tx.mask));
    }
    assert dais[..|dais|] == dais;
    ret := 0;
  }

  /** The CODEC_DMA branch of msm_channel_map_get; `alloc` says whether the reply buffer is found. */
  method MsmChannelMapGet(dais: seq<Dai>, alloc: bool) returns (r: Report)
    ensures r == if Gathered(dais).Reported? && !alloc then Failed(ENOMEM) else Gathered(dais)
    ensures AllAnswer(dais) && alloc ==> RxOverTx(RxOf(dais), TxOf(dais), r)
    ensures AllAnswer(dais) && !alloc && r != Nothing ==> r == Failed(-12)
    ensures !AllAnswer(dais) ==> exists i :: FirstRefusal(dais, i) && r == Failed(dais[i].ret)
  {
    GatheredIs(dais);
    var ret, rx, tx := AddUpChannels(dais);
    if ret != 0 {
      return Failed(ret);
    }
    if rx.count == 0 && tx.count == 0 {
      return Nothing;
    }
    if !alloc {
      return Failed(ENOMEM);
    }
    r := if rx.count != 0 then Reported(rx) else Reported(tx);
  }

  // ---- What is reported, bit by bit ----

  /** Bit `n` of a word. */
  predicate Bit(x: nat, n: nat) { if n == 0 then x % 2 == 1 else Bit(x / 2, n - 1) }

  lemma {:induction false} OrBit(a: nat, b: nat, w: nat, n: nat)
    requires a < Pow2(w) && b < Pow2(w) && n < w
    ensures Bit(OrBits(a, b, w), n) <==> Bit(a, n) || Bit(b, n)
  {
    HalfBelow(a, w);
    HalfBelow(b, w);
    if n > 0 {
      OrBit(a / 2, b / 2, w - 1, n - 1);
    }
  }

  /** Disjoint words are those with no bit in common. */
  lemma {:induction false} AndBit(a: nat, b: nat, n: nat)
    requires BitAnd(a, b) == 0
    ensures !(Bit(a, n) && Bit(b, n))
    decreases n
  {
    if n > 0 {
      if a == 0 || b == 0 {
        ZeroBit(n);
      } else {
        AndBit(a / 2, b / 2, n - 1);
      }
    }
  }

  lemma {:induction false} ZeroBit(n: nat)
    ensures !Bit(0, n)
  {
    if n > 0 {
      ZeroBit(n - 1);
    }
  }

  lemma {:induction false} CommonBit(a: nat, b: nat) returns (n: nat)
    requires BitAnd(a, b) != 0
    ensures Bit(a, n) && Bit(b, n)
    decreases a + b
  {
    if a % 2 == 1 && b % 2 == 1 {
      n := 0;
    } else {
      n := CommonBit(a / 2, b / 2);
      n := n + 1;
    }
  }

  function BitsOf(x: nat, w: nat): set<nat> { set n: nat | n < w && Bit(x, n) }

  function CountBits(x: nat, w: nat): nat {
    if w == 0 then 0 else CountBits(x, w - 1) + BoolToNat(Bit(x, w - 1))
  }

  lemma {:induction false} CountIsCard(x: nat, w: nat)
    ensures |BitsOf(x, w)| == CountBits(x, w)
  {
    if w > 0 {
      CountIsCard(x, w - 1);
      assert BitsOf(x, w) == BitsOf(x, w - 1) + if Bit(x, w - 1) then {w - 1} else {};
    }
  }

  lemma {:induction false} CountHalf(x: nat, w: nat)
    requires w > 0
    ensures CountBits(x, w) == x % 2 + CountBits(x / 2, w - 1)
  {
    if w > 1 {
      CountHalf(x, w - 1);
    }
  }

  /** The population count is the number of bits set. */
  lemma {:induction false} PopCountIsCard(x: nat, w: nat)
    requires x < Pow2(w)
    ensures PopCount(x) == CountBits(x, w) == |BitsOf(x, w)|
  {
    CountIsCard(x, w);
    if w > 0 {
      HalfBelow(x, w);
      PopCountIsCard(x / 2, w - 1);
      PopCountHalf(x);
      CountHalf(x, w);
    }
  }

  function SumOf(xs: seq<nat>): nat {
    if xs == [] then 0 else SumOf(xs[..|xs| - 1]) + xs[|xs| - 1]
  }

  /** The receive channels of each DAI, none for an absent one; and the transmit channels. */
  function RxOf(ds: seq<Dai>): (r: seq<Channels>)
    ensures |r| == |ds|
  {
    seq(|ds|, i requires 0 <= i < |ds| => if ds[i].Present? then ds[i].rx else Channels(0, 0))
  }

  function TxOf(ds: seq<Dai>): (r: seq<Channels>)
    ensures |r| == |ds|
  {
    seq(|ds|, i requires 0 <= i < |ds| => if ds[i].Present? then ds[i].tx else Channels(0, 0))
  }

  function Counts(cs: seq<Channels>): (r: seq<nat>)
    ensures |r| == |cs|
  {
    seq(|cs|, i requires 0 <= i < |cs| => cs[i].count)
  }

  /** `c` counts the channels of `cs` modulo 2^32, and has exactly the bits that one of them has. */
  ghost predicate Totals(c: Channels, cs: seq<Channels>) {
    && c.count == SumOf(Counts(cs)) % 0x1_0000_0000
    && forall n: nat :: n < 32 ==> (Bit(c.mask, n) <==> exists i :: 0 <= i < |cs| && Bit(cs[i].mask, n))
  }

  lemma {:induction false} TotalIs(ds: seq<Dai>, dir: Direction, cs: seq<Channels>)
    requires cs == if dir == Rx then RxOf(ds) else TxOf(ds)
    ensures Sum(ds, dir) == SumOf(Counts(cs))
    ensures forall n: nat :: n < 32 ==> (Bit(Or(ds, dir), n) <==> exists i :: 0 <= i < |cs| && Bit(cs[i].mask, n))
  {
    if ds == [] {
      forall n: nat
        ensures !Bit(0, n)
      {
        ZeroBit(n);
      }
    } else {
      var m := |ds| - 1;
      TotalIs(ds[..m], dir, cs[..m]);
      assert Counts(cs)[..m] == Counts(cs[..m]);
      assert Of(ds[m], dir) == cs[m];
      forall n: nat | n < 32
        ensures Bit(Or(ds, dir), n) <==> exists i :: 0 <= i < |cs| && Bit(cs[i].mask, n)
      {
        Pow2Of32();
        OrBit(Or(ds[..m], dir), cs[m].mask, 32, n);
        assert forall i :: 0 <= i < m ==> cs[i] == cs[..m][i];
      }
    }
  }

  ghost predicate RxOverTx(rx: seq<Channels>, tx: seq<Channels>, r: Report) {
    if SumOf(Counts(rx)) % 0x1_0000_0000 != 0 then r.Reported? && Totals(r.channels, rx)
    else if SumOf(Counts(tx)) % 0x1_0000_0000 != 0 then r.Reported? && Totals(r.channels, tx)
    else r == Nothing
  }

  /** No present DAI answers anything but 0 and -ENOTSUPP. */
  predicate AllAnswer(ds: seq<Dai>) {
    forall i :: 0 <= i < |ds| && ds[i].Present? ==> ds[i].ret == 0 || ds[i].ret == -524
  }

  predicate FirstRefusal(ds: seq<Dai>, i: int) {
    0 <= i < |ds| && ds[i].Present? && ds[i].ret != 0 && ds[i].ret != -524 && AllAnswer(ds[..i])
  }

  /**
   With every DAI answering, receive channels are reported if their sum does not vanish modulo
   2^32, else transmit channels under the same condition, else nothing. Otherwise the first
   other answer is the result.
   */
  lemma GatheredIs(ds: seq<Dai>)
    ensures AllAnswer(ds) ==> RxOverTx(RxOf(ds), TxOf(ds), Gathered(ds))
    ensures !AllAnswer(ds) ==> exists i :: FirstRefusal(ds, i) && Gathered(ds) == Failed(ds[i].ret)
  {
    TotalIs(ds, Rx, RxOf(ds));
    TotalIs(ds, Tx, TxOf(ds));
    if !AllAnswer(ds) {
      var j :| 0 <= j < |ds| && ds[j].Present? && ds[j].ret != 0 && ds[j].ret != -524;
      assert Fails(ds[j]);
      var i := FirstFailure(ds);
      assert forall k :: 0 <= k < i ==> ds[..i][k] == ds[k];
      assert FirstRefusal(ds, i);
    }
  }

  // ---- Counts and masks ----

  lemma HalvesOfOr(a: nat, b: nat, n: nat)
    requires n > 0 && a < Pow2(n) && b < Pow2(n) && BitAnd(a, b) == 0
    ensures a / 2 < Pow2(n - 1) && b / 2 < Pow2(n - 1) && BitAnd(a / 2, b / 2) == 0
    ensures OrBits(a, b, n) / 2 == OrBits(a / 2, b / 2, n - 1)
    ensures OrBits(a, b, n) % 2 == a % 2 + b % 2
  {
    HalfBelow(a, n);
    HalfBelow(b, n);
  }

  lemma PopCountHalf(x: nat)
    ensures PopCount(x) == x % 2 + PopCount(x / 2)
  {
  }

  /** Disjoint words: their union has the bits of both. */
  lemma {:induction false} PopCountOr(a: nat, b: nat, n: nat)
    requires a < Pow2(n) && b < Pow2(n) && BitAnd(a, b) == 0
    ensures PopCount(OrBits(a, b, n)) == PopCount(a) + PopCount(b)
  {
    if n > 0 {
      HalvesOfOr(a, b, n);
      PopCountOr(a / 2, b / 2, n - 1);
      PopCountHalf(a);
      PopCountHalf(b);
      PopCountHalf(OrBits(a, b, n));
    }
  }

  lemma {:induction false} AndOr(a: nat, b: nat, x: nat, n: nat)
    requires a < Pow2(n) && b < Pow2(n) && BitAnd(a, x) == 0 && BitAnd(b, x) == 0
    ensures BitAnd(OrBits(a, b, n), x) == 0
  {
    if n > 0 {
      HalfBelow(a, n);
      HalfBelow(b, n);
      AndOr(a / 2, b / 2, x / 2, n - 1);
    }
  }

  /** No channel belongs to two DAIs, and every count is the number of its mask's bits. */
  ghost predicate Consistent(ds: seq<Dai>, dir: Direction) {
    && (forall i :: 0 <= i < |ds| ==> Of(ds[i], dir).count == PopCount(Of(ds[i], dir).mask))
    && forall i, j :: 0 <= i < j < |ds| ==> BitAnd(Of(ds[i], dir).mask, Of(ds[j], dir).mask) == 0
  }

  /** A mask disjoint from each DAI's is disjoint from their union. */
  lemma {:induction false} OrAvoids(ds: seq<Dai>, dir: Direction, x: Uint32)
    requires forall i :: 0 <= i < |ds| ==> BitAnd(Of(ds[i], dir).mask, x) == 0
    ensures BitAnd(Or(ds, dir), x) == 0
  {
    if ds != [] {
      OrAvoids(ds[..|ds| - 1], dir, x);
      Pow2Of32();
      AndOr(Or(ds[..|ds| - 1], dir), Of(ds[|ds| - 1], dir).mask, x, 32);
    }
  }

  /** The number of a direction's channels is the number of its bits, and does not wrap. */
  lemma {:induction false} SumIsPopCount(ds: seq<Dai>, dir: Direction)
    requires Consistent(ds, dir)
    ensures Sum(ds, dir) == PopCount(Or(ds, dir)) < U32
  {
    if ds != [] {
      var front, last := ds[..|ds| - 1], Of(ds[|ds| - 1], dir).mask;
      SumIsPopCount(front, dir);
      OrAvoids(front, dir, last);
      Pow2Of32();
      PopCountOr(Or(front, dir), last, 32);
    }
  }

  lemma TotalIsPopCount(ds: seq<Dai>, dir: Direction)
    requires Consistent(ds, dir)
    ensures Total(ds, dir).count == PopCount(Total(ds, dir).mask)
  {
    SumIsPopCount(ds, dir);
    assert Total(ds, dir).count == Sum(ds, dir);
  }

  /**
   When masks are disjoint and counts match them, the reported count is the number of bits of
   the reported mask, and nothing is reported exactly when no DAI has a channel.
   */
  lemma ReportedCountIsPopCount(ds: seq<Dai>)
    requires Consistent(ds, Rx) && Consistent(ds, Tx) && forall i :: 0 <= i < |ds| ==> !Fails(ds[i])
    ensures Gathered(ds).Reported? ==> Gathered(ds).channels.count == PopCount(Gathered(ds).channels.mask) > 0
    ensures Gathered(ds) == Nothing <==> Or(ds, Rx) == 0 && Or(ds, Tx) == 0
  {
    TotalIsPopCount(ds, Rx);
    TotalIsPopCount(ds, Tx);
  }
}
