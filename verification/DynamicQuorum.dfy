/** Dynamic quorum: a floor of a floor of a floor, and how far that is from the exact quorum. */
module DynamicQuorum {

  /** `BigInt.div` truncates; all operands here are non-negative. */
  function AgainstVotesBPS(againstVotes: nat, totalSupply: nat): nat
    requires totalSupply > 0
  {
    againstVotes * 10000 / totalSupply
  }

  function AdjustedQuorumBPS(againstVotes: nat, totalSupply: nat, minQuorumVotesBPS: nat, quorumCoefficient: nat): nat
    requires totalSupply > 0
  {
    quorumCoefficient * AgainstVotesBPS(againstVotes, totalSupply) / 1000000 + minQuorumVotesBPS
  }

  function DynamicQuorumVotes(againstVotes: nat, totalSupply: nat, minQuorumVotesBPS: nat, maxQuorumVotesBPS: nat,
                              quorumCoefficient: nat): nat
    requires totalSupply > 0
  {
    var adjusted := AdjustedQuorumBPS(againstVotes, totalSupply, minQuorumVotesBPS, quorumCoefficient);
    totalSupply * (if maxQuorumVotesBPS <= adjusted then maxQuorumVotesBPS else adjusted) / 10000
  }

  // ----- arithmetic -----

  lemma DivBounds(n: nat, d: nat)
    requires d > 0
    ensures d * (n / d) <= n < d * (n / d) + d
  {
  }

  lemma MulMonotone(a: nat, b: nat, c: nat)
    requires a <= b
    ensures c * a <= c * b && a * c <= b * c
  {
  }

  lemma DivMonotone(a: nat, b: nat, d: nat)
    requires a <= b && d > 0
    ensures a / d <= b / d
  {
    DivBounds(a, d);
    DivBounds(b, d);
    if a / d > b / d {
      MulMonotone(b / d + 1, a / d, d);
    }
  }

  // ----- properties -----

  /** More votes against never lower the quorum. */
  lemma Monotone(less: nat, more: nat, supply: nat, min: nat, max: nat, coefficient: nat)
    requires less <= more && supply > 0
    ensures DynamicQuorumVotes(less, supply, min, max, coefficient)
         <= DynamicQuorumVotes(more, supply, min, max, coefficient)
  {
    MulMonotone(less, more, 10000);
    DivMonotone(less * 10000, more * 10000, supply);
    var a, b := AgainstVotesBPS(less, supply), AgainstVotesBPS(more, supply);
    MulMonotone(a, b, coefficient);
    DivMonotone(coefficient * a, coefficient * b, 1000000);
    var p, q := AdjustedQuorumBPS(less, supply, min, coefficient), AdjustedQuorumBPS(more, supply, min, coefficient);
    var x, y := if max <= p then max else p, if max <= q then max else q;
    MulMonotone(x, y, supply);
    DivMonotone(supply * x, supply * y, 10000);
  }

  /** The quorum stays between the minimum and the maximum share of the supply. */
  lemma Bounded(against: nat, supply: nat, min: nat, max: nat, coefficient: nat)
    requires supply > 0 && min <= max
    ensures supply * min / 10000 <= DynamicQuorumVotes(against, supply, min, max, coefficient) <= supply * max / 10000
  {
    var adjusted := AdjustedQuorumBPS(against, supply, min, coefficient);
    var x := if max <= adjusted then max else adjusted;
    MulMonotone(min, x, supply);
    MulMonotone(x, max, supply);
    DivMonotone(supply * min, supply * x, 10000);
    DivMonotone(supply * x, supply * max, 10000);
  }

  /** The value cast to `i32` fits. */
  lemma CastIsSafe(against: nat, supply: nat, min: nat, coefficient: nat)
    requires 0 < supply && against <= supply && min <= 10000 && coefficient < 0x1_0000_0000
    ensures AdjustedQuorumBPS(against, supply, min, coefficient) < 0x8000_0000
  {
    DivMonotone(against * 10000, supply * 10000, supply);
    assert supply * 10000 / supply == 10000 by {
      DivBounds(supply * 10000, supply);
      var q := supply * 10000 / supply;
      if q < 10000 { MulMonotone(q + 1, 10000, supply); }
      if q > 10000 { MulMonotone(10001, q, supply); }
    }
    var a := AgainstVotesBPS(against, supply);
    MulMonotone(a, 10000, coefficient);
    DivMonotone(coefficient * a, coefficient * 10000, 1000000);
  }

  /** `q` is the whole part of n / d. */
  ghost predicate IsFloor(q: int, n: int, d: nat) {
    d * q <= n < d * q + d
  }

  /**
   * The quorum, and no other number, is reached by three whole parts: of the votes against in basis points of the
   * supply, of the coefficient's millionths of these, and of the capped share of the supply.
   */
  lemma QuorumIsThreeFloors(against: nat, supply: nat, min: nat, max: nat, coefficient: nat, quorum: nat)
    requires supply > 0
    ensures quorum == DynamicQuorumVotes(against, supply, min, max, coefficient)
       <==> exists bps: nat, extra: nat ::
              && IsFloor(bps, 10000 * against, supply) && IsFloor(extra, coefficient * bps, 1000000)
              && IsFloor(quorum, supply * (if extra + min < max then extra + min else max), 10000)
  {
    var bps0 := AgainstVotesBPS(against, supply);
    var extra0 := coefficient * bps0 / 1000000;
    var share0 := if extra0 + min < max then extra0 + min else max;
    FloorIff(bps0, 10000 * against, supply);
    FloorIff(extra0, coefficient * bps0, 1000000);
    FloorIff(DynamicQuorumVotes(against, supply, min, max, coefficient), supply * share0, 10000);
    hide IsFloor;
    if bps: nat, extra: nat :|
         && IsFloor(bps, 10000 * against, supply) && IsFloor(extra, coefficient * bps, 1000000)
         && IsFloor(quorum, supply * (if extra + min < max then extra + min else max), 10000)
    {
      FloorIff(bps, 10000 * against, supply);
      FloorIff(extra, coefficient * bps, 1000000);
      FloorIff(quorum, supply * share0, 10000);
    }
  }

  lemma FloorIff(q: nat, n: nat, d: nat)
    requires d > 0
    ensures IsFloor(q, n, d) <==> q == n / d
  {
    DivBounds(n, d);
    var r := n / d;
    if IsFloor(q, n, d) {
      if q < r { MulMonotone(q + 1, r, d); }
      if q > r { MulMonotone(r + 1, q, d); }
    }
  }

  // ----- the exact quorum -----

  function MinReal(a: real, b: real): real {
    if a <= b then a else b
  }

  /** The share of the supply that is needed, and the quorum, without any rounding. */
  function ExactBPS(against: nat, supply: nat, min: nat, coefficient: nat): real
    requires supply > 0
  {
    coefficient as real * (against as real * 10000.0 / supply as real) / 1000000.0 + min as real
  }

  function ExactQuorum(against: nat, supply: nat, min: nat, max: nat, coefficient: nat): real
    requires supply > 0
  {
    supply as real * MinReal(max as real, ExactBPS(against, supply, min, coefficient)) / 10000.0
  }

  lemma FloorBelow(n: nat, d: nat)
    requires d > 0
    ensures n as real / d as real - 1.0 < (n / d) as real <= n as real / d as real
  {
    DivBounds(n, d);
    var q := n / d;
    assert q as real * d as real == (q * d) as real;
    RealQuotient(n as real, d as real, q as real);
  }

  lemma RealQuotient(n: real, d: real, q: real)
    requires d > 0.0 && q * d <= n < q * d + d
    ensures n / d - 1.0 < q <= n / d
  {
    var t := n / d;
    assert t * d == n;
    RealCancel(q, t, d);
    assert (q + 1.0) * d == q * d + d;
    RealCancelStrict(t, q + 1.0, d);
  }

  lemma RealCancel(a: real, b: real, c: real)
    requires c > 0.0 && a * c <= b * c
    ensures a <= b
  {
    if b < a {
      RealMul(b, a, c);
    }
  }

  lemma RealCancelStrict(a: real, b: real, c: real)
    requires c > 0.0 && a * c < b * c
    ensures a < b
  {
    if b <= a {
      RealMulWeak(b, a, c);
    }
  }

  lemma RealMul(a: real, b: real, c: real)
    requires a < b && c > 0.0
    ensures a * c < b * c
  {
  }

  lemma RealMulWeak(a: real, b: real, c: real)
    requires a <= b && c >= 0.0
    ensures a * c <= b * c
  {
  }

  lemma FloorWithin(p: real, q: real, c: real, floor: real)
    requires q - c <= p <= q
    requires p / 1000000.0 - 1.0 < floor <= p / 1000000.0
    ensures q / 1000000.0 - (1.0 + c / 1000000.0) < floor <= q / 1000000.0
  {
  }

  /** Scaling by c keeps order, and keeps a distance of at most e within e * c. */
  lemma Scale(a: real, b: real, c: real, p: real, q: real, d: real)
    requires c >= 0.0 && a <= b && p == c * a && q == c * b && d == c * (b - a)
    ensures p <= q && q - p == d
  {
    RealMulWeak(0.0, b - a, c);
    assert 0.0 * c == 0.0;
    assert d == q - p;
    assert (b - a) * c == d;
  }

  lemma ScaleDistance(x: real, e: real, c: real, d: real, r: real)
    requires d == c * x && r == c * e
    ensures c >= 0.0 && x <= e ==> d <= r
    ensures c > 0.0 && x < e ==> d < r
  {
    if c > 0.0 && x < e {
      RealMul(x, e, c);
      assert x * c == d && e * c == r;
    } else if c >= 0.0 && x <= e {
      RealMulWeak(x, e, c);
      assert x * c == d && e * c == r;
    }
  }

  lemma ScaledFloor(c: real, a: real, exact: real, floor: real)
    requires c >= 0.0 && exact - 1.0 < a <= exact
    requires c * a / 1000000.0 - 1.0 < floor <= c * a / 1000000.0
    ensures c * exact / 1000000.0 - (1.0 + c / 1000000.0) < floor <= c * exact / 1000000.0
  {
    var p, q, d := c * a, c * exact, c * (exact - a);
    Scale(a, exact, c, p, q, d);
    ScaleDistance(exact - a, 1.0, c, d, c);
    FloorWithin(p, q, c, floor);
  }

  lemma AdjustedError(against: nat, supply: nat, min: nat, coefficient: nat)
    requires supply > 0
    ensures var c, exact := coefficient as real / 1000000.0, ExactBPS(against, supply, min, coefficient);
      var adjusted := AdjustedQuorumBPS(against, supply, min, coefficient) as real;
      exact - (1.0 + c) < adjusted <= exact
  {
    var a := AgainstVotesBPS(against, supply);
    assert (against * 10000) as real == against as real * 10000.0;
    FloorBelow(against * 10000, supply);
    FloorBelow(coefficient * a, 1000000);
    var c := coefficient as real;
    assert (coefficient * a) as real == c * a as real;
    ScaledFloor(c, a as real, against as real * 10000.0 / supply as real, (coefficient * a / 1000000) as real);
  }

  lemma ScaledError(supply: real, x: real, y: real, e: real, floor: real)
    requires supply > 0.0 && y - e < x <= y
    requires supply * x / 10000.0 - 1.0 < floor <= supply * x / 10000.0
    ensures supply * y / 10000.0 - (supply * e / 10000.0 + 1.0) < floor <= supply * y / 10000.0
  {
    var p, q, r, d := supply * x, supply * y, supply * e, supply * (y - x);
    Scale(x, y, supply, p, q, d);
    ScaleDistance(y - x, e, supply, d, r);
    ErrorWithin(p, q, r, floor);
  }

  lemma ErrorWithin(p: real, q: real, r: real, floor: real)
    requires q - r < p <= q
    requires p / 10000.0 - 1.0 < floor <= p / 10000.0
    ensures q / 10000.0 - (r / 10000.0 + 1.0) < floor <= q / 10000.0
  {
  }

  /** The quorum is the floor of the supply times the adjusted share. */
  lemma QuorumFloor(supply: nat, share: nat)
    ensures supply as real * share as real / 10000.0 - 1.0 < (supply * share / 10000) as real
         <= supply as real * share as real / 10000.0
  {
    FloorBelow(supply * share, 10000);
    assert (supply * share) as real == supply as real * share as real;
  }

  /** Rounding loses less than supply * (1 + coefficient / 10^6) / 10000 + 1 votes, and never gains any. */
  lemma RoundingError(against: nat, supply: nat, min: nat, max: nat, coefficient: nat)
    requires supply > 0
    ensures var exact := ExactQuorum(against, supply, min, max, coefficient);
      var rounded := DynamicQuorumVotes(against, supply, min, max, coefficient) as real;
      exact - (supply as real * (1.0 + coefficient as real / 1000000.0) / 10000.0 + 1.0) < rounded <= exact
  {
    hide AdjustedQuorumBPS, ExactBPS, MinReal;
    AdjustedError(against, supply, min, coefficient);
    CappedError(supply, max, AdjustedQuorumBPS(against, supply, min, coefficient),
                ExactBPS(against, supply, min, coefficient), 1.0 + coefficient as real / 1000000.0);
  }

  lemma CappedError(supply: nat, max: nat, adjusted: nat, bps: real, e: real)
    requires supply > 0 && e >= 1.0 && bps - e < adjusted as real <= bps
    ensures var exact := supply as real * MinReal(max as real, bps) / 10000.0;
      var rounded := (supply * (if max <= adjusted then max else adjusted) / 10000) as real;
      exact - (supply as real * e / 10000.0 + 1.0) < rounded <= exact
  {
    var share := if max <= adjusted then max else adjusted;
    ShareError(max, adjusted, bps, e);
    hide MinReal;
    QuorumFloor(supply, share);
    ScaledError(supply as real, share as real, MinReal(max as real, bps), e, (supply * share / 10000) as real);
  }

  lemma ShareError(max: nat, adjusted: nat, bps: real, e: real)
    requires e >= 1.0 && bps - e < adjusted as real <= bps
    ensures var share := if max <= adjusted then max else adjusted;
      MinReal(max as real, bps) - e < share as real <= MinReal(max as real, bps)
  {
  }
}
