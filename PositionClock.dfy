/** `PositionClock`: a modular counter that places each new related bubble at
    the next of `divisions` evenly spaced points on a circle. */
module Clock {
  import opened Core
  import Arith

  /// `length·(cos θ, sin θ)` with `θ = step·2π/divisions`. The trigonometry is
  /// not interpreted: a vector is identified by its length and angle step.
  datatype PolarVector = PolarVector(length: int, step: int, divisions: int)

  /// `center + vector`.
  datatype ClockPoint = ClockPoint(center: Point, vector: PolarVector)

  class PositionClock {
    var index: int
    const divisions: int
    const radius: int
    /// How many times `advance` has been called.
    ghost var calls: nat

    /// The counter is the number of calls so far, reduced modulo the divisions.
    ghost predicate Valid()
      reads this
    {
      if divisions == 0 then index == 0 && calls == 0
      else 0 <= index < Arith.Abs(divisions) && index == calls % Arith.Abs(divisions)
    }

    constructor (divisions: int, radius: int)
      ensures Valid() && calls == 0
      ensures this.divisions == divisions && this.radius == radius && index == 0
    {
      this.divisions := divisions;
      this.radius := radius;
      index := 0;
      calls := 0;
    }

    /// `generateVector`: uses the stored radius, whatever magnitude is passed.
    function GenerateVector(step: int, magnitude: int): (v: PolarVector)
      ensures v.length == radius && v.step == step && v.divisions == divisions
    {
      PolarVector(radius, step, divisions)
    }

    /// The point returned by the call numbered `k` (from 0).
    function PointOfCall(center: Point, k: nat): ClockPoint
      requires divisions != 0
    {
      ClockPoint(center, GenerateVector(k % Arith.Abs(divisions), radius))
    }

    /// `advance(withCenter:)`: the point is computed from the counter before it
    /// is incremented and reduced with Swift's `%` (a zero `divisions` traps there).
    method Advance(center: Point) returns (p: ClockPoint)
      requires Valid() && divisions != 0
      modifies this
      ensures Valid() && calls == old(calls) + 1
      ensures p == PointOfCall(center, old(calls))
      ensures p.vector.step == old(index)
      ensures index == Arith.TruncRem(old(index) + 1, divisions)
    {
      var vector := GenerateVector(index, radius);
      p := ClockPoint(center, vector);
      index := index + 1;
      index := Arith.TruncRem(index, divisions);
      calls := calls + 1;
      Arith.ModSucc(old(calls), Arith.Abs(divisions));
    }

    /// The sequence of points repeats with period `|divisions|`.
    lemma Periodic(center: Point, k: nat)
      requires divisions != 0
      ensures PointOfCall(center, k + Arith.Abs(divisions)) == PointOfCall(center, k)
    {
      Arith.ModShift(k, Arith.Abs(divisions));
    }

    /// The first `|divisions|` calls use pairwise different angle steps.
    lemma {:induction false} FirstRoundDistinct(center: Point, a: nat, b: nat)
      requires divisions != 0 && a < b < Arith.Abs(divisions)
      ensures PointOfCall(center, a) != PointOfCall(center, b)
      ensures PointOfCall(center, a).vector.step == a
    {
      Arith.DivModUnique(a, Arith.Abs(divisions), 0, a);
      Arith.DivModUnique(b, Arith.Abs(divisions), 0, b);
    }
  }
}
