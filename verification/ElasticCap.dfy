/**
 The elastic capacity of a pool slot: how demand raises it, and how quickly quiet brings
 it back to the base.
 */
module ElasticCap {
  import opened Addresses
  import opened ChannelPool

  lemma CeilBounds(x: real)
    ensures (Ceil(x) - 1) as real < x <= Ceil(x) as real
  {
  }

  lemma CeilIsMonotone(x: real, y: real)
    requires x <= y
    ensures Ceil(x) <= Ceil(y)
  {
    CeilBounds(x);
    CeilBounds(y);
  }

  lemma CapIsMonotone(x: real, y: real)
    requires x <= y
    ensures IDLE_CAP_BASE <= CapOfPeak(x) <= CapOfPeak(y) <= IDLE_CAP_MAX
  {
    CeilIsMonotone(x, y);
  }

  /**
   A miss adds exactly one half to the node's peak - the update is not an average, whatever
   its comment says - so it never lowers a cap and touches no other node.
   */
  lemma MissRaises(peaks: Peaks, node: SocketAddr, other: SocketAddr)
    ensures PeakOf(AfterMiss(peaks, node), node) == PeakOf(peaks, node) + 0.5
    ensures IDLE_CAP_BASE <= CapFor(peaks, node) <= CapFor(AfterMiss(peaks, node), node) <= IDLE_CAP_MAX
    ensures other != node ==> CapFor(AfterMiss(peaks, node), other) == CapFor(peaks, other)
  {
    CapIsMonotone(PeakOf(peaks, node), PeakOf(AfterMiss(peaks, node), node));
  }

  /** A hit never raises a cap and touches no other node. */
  lemma HitLowers(peaks: Peaks, node: SocketAddr, other: SocketAddr)
    ensures IDLE_CAP_BASE <= CapFor(AfterHit(peaks, node), node) <= CapFor(peaks, node) <= IDLE_CAP_MAX
    ensures other != node ==> CapFor(AfterHit(peaks, node), other) == CapFor(peaks, other)
  {
    var before, after := PeakOf(peaks, node), PeakOf(AfterHit(peaks, node), node);
    if after <= before {
      CapIsMonotone(after, before);
    } else {
      CeilBounds(after);
    }
  }

  // ---------------------------------------------------------------- a burst

  function Misses(peaks: Peaks, node: SocketAddr, k: nat): Peaks {
    if k == 0 then peaks else AfterMiss(Misses(peaks, node, k - 1), node)
  }

  /** A burst of k misses from rest makes the peak k/2: fifteen of them reach the maximum. */
  lemma {:induction false} BurstRaises(node: SocketAddr, k: nat)
    ensures PeakOf(Misses(map[], node, k), node) == k as real / 2.0
    ensures CapFor(Misses(map[], node, k), node) == IDLE_CAP_MAX <==> k >= 15
  {
    if k != 0 {
      BurstRaises(node, k - 1);
    }
    CeilBounds(k as real / 2.0);
  }

  // ---------------------------------------------------------------- the decay

  function Hits(peaks: Peaks, node: SocketAddr, k: nat): Peaks {
    if k == 0 then peaks else AfterHit(Hits(peaks, node, k - 1), node)
  }

  /** An excess over the base after k decays. */
  function Excess(x: real, k: nat): real {
    if k == 0 then x else Excess(x, k - 1) * 0.95
  }

  function Doubled(x: real, m: nat): real {
    if m == 0 then x else 2.0 * Doubled(x, m - 1)
  }

  lemma {:induction false} ExcessStaysPositive(x: real, k: nat)
    requires x > 0.0
    ensures 0.0 < Excess(x, k) <= x
  {
    if k != 0 {
      ExcessStaysPositive(x, k - 1);
    }
  }

  lemma SevenDecays(x: real, k: nat)
    requires x > 0.0
    ensures Excess(x, k + 7) <= 0.7 * Excess(x, k)
  {
    ExcessStaysPositive(x, k);
    assert Excess(x, k + 2) == Excess(x, k + 1) * 0.95 == Excess(x, k) * 0.95 * 0.95;
    assert Excess(x, k + 4) == Excess(x, k + 3) * 0.95 == Excess(x, k + 2) * 0.95 * 0.95;
    assert Excess(x, k + 6) == Excess(x, k + 5) * 0.95 == Excess(x, k + 4) * 0.95 * 0.95;
    assert Excess(x, k + 7) == Excess(x, k + 6) * 0.95;
  }

  /** Fourteen decays halve an excess. */
  lemma {:induction false} FourteenHalve(x: real, y: real, m: nat)
    requires 0.0 < x <= Doubled(y, m)
    ensures Excess(x, 14 * m) <= y
    decreases m
  {
    if m != 0 {
      FourteenHalve(x, 2.0 * y, m - 1) by {
        DoubledInside(y, m - 1);
      }
      SevenDecays(x, 14 * m - 14);
      SevenDecays(x, 14 * m - 7);
      ExcessStaysPositive(x, 14 * m - 7);
      ExcessStaysPositive(x, 14 * m - 14);
    }
  }

  lemma {:induction false} DoubledInside(y: real, m: nat)
    ensures Doubled(2.0 * y, m) == 2.0 * Doubled(y, m)
  {
    if m != 0 {
      DoubledInside(y, m - 1);
    }
  }

  /** While the entry lives, its excess is the decayed one, above the cut-off. */
  lemma {:induction false} HitsDecay(peaks: Peaks, node: SocketAddr, x: real, k: nat)
    requires node in peaks && peaks[node] == 2.0 + x && x > 0.0
    ensures var after := Hits(peaks, node, k);
            node in after ==> after[node] == 2.0 + Excess(x, k) && (k > 0 ==> Excess(x, k) > 0.1)
  {
    if k != 0 {
      HitsDecay(peaks, node, x, k - 1);
      ExcessStaysPositive(x, k - 1);
    }
  }

  lemma {:induction false} ForgottenStays(peaks: Peaks, node: SocketAddr, k: nat, n: nat)
    requires node !in Hits(peaks, node, k) && k <= n
    ensures node !in Hits(peaks, node, n)
  {
    if k < n {
      ForgottenStays(peaks, node, k, n - 1);
    }
  }

  /**
   Quiet brings the cap back to the base in time logarithmic in the peak: a peak of at most
   2 + 0.1 * 2^m is forgotten after 14 * m hits in a row (one hit when m is 0), for good.
   */
  lemma QuietForgets(peaks: Peaks, node: SocketAddr, m: nat, k: nat)
    requires node in peaks && peaks[node] <= 2.0 + Doubled(0.1, m)
    requires k >= 14 * m && k >= 1
    ensures node !in Hits(peaks, node, k) && CapFor(Hits(peaks, node, k), node) == IDLE_CAP_BASE
  {
    var x := peaks[node] - 2.0;
    var first := if m == 0 then 1 else 14 * m;
    if x <= 0.0 {
      assert Hits(peaks, node, 1) == AfterHit(Hits(peaks, node, 0), node);
      ForgottenStays(peaks, node, 1, k);
    } else {
      HitsDecay(peaks, node, x, first);
      if m == 0 {
        ExcessStaysPositive(x, 1);
      } else {
        FourteenHalve(x, 0.1, m);
      }
      ForgottenStays(peaks, node, first, k);
    }
  }

  /** Without the cut-off at 0.1 a raised cap would never come back to the base. */
  lemma CutOffIsNeeded(x: real, k: nat)
    requires x > 0.0
    ensures CapOfPeak(2.0 + Excess(x, k)) > IDLE_CAP_BASE
  {
    ExcessStaysPositive(x, k);
    CeilBounds(2.0 + Excess(x, k));
  }

  lemma {:induction false} DecayIsSlow(x: real, k: nat)
    requires x > 0.0
    ensures Excess(x, k) >= x - 0.05 * x * k as real
  {
    if k != 0 {
      DecayIsSlow(x, k - 1);
      var before := x - 0.05 * x * (k - 1) as real;
      assert 0.95 * before == x - 0.05 * x * k as real + 0.0025 * x * (k - 1) as real;
      assert x * (k - 1) as real >= 0.0;
    }
  }

  /** Demand is not forgotten at once: each hit takes at most a twentieth of the excess there was at first. */
  lemma {:induction false} QuietTakesTime(peaks: Peaks, node: SocketAddr, x: real, k: nat)
    requires node in peaks && peaks[node] == 2.0 + x && x > 0.0
    requires x - 0.05 * x * k as real > 0.1
    ensures var after := Hits(peaks, node, k);
            node in after && after[node] >= 2.0 + x - 0.05 * x * k as real
  {
    DecayIsSlow(x, k);
    if k != 0 {
      assert x - 0.05 * x * (k - 1) as real == x - 0.05 * x * k as real + 0.05 * x;
      QuietTakesTime(peaks, node, x, k - 1);
      HitsDecay(peaks, node, x, k - 1);
    }
  }
}
