/** The colour-neighbourhood example data source: bubbles are hue degrees,
    and a hue is related to the hues 3, 6, 9 and 12 degrees around it on the
    colour wheel, wrapping around at 360. */
module ColorNeighborhood {
  import Arith

  /// The first focus.
  const InitialFocus: int := 50

  /// The neighbour `i` steps of 3 degrees away, as the source computes it:
  /// the truncating remainder, with 360 added when it is negative.
  function Wrapped(index: int, i: int): int
  {
    var neighbor := Arith.TruncRem(index + i * 3, 360);
    if neighbor < 0 then 360 + neighbor else neighbor
  }

  /// The neighbourhood on the colour wheel, with the (never negative)
  /// Euclidean remainder: the steps `-4 ... 3` but 0.
  function Neighbours(index: int): set<int>
  {
    set i | -4 <= i <= 3 && i != 0 :: (index + 3 * i) % 360
  }

  /// The wrap-around in the source is the Euclidean remainder.
  lemma WrappedIsMod(index: int, i: int)
    ensures Wrapped(index, i) == (index + 3 * i) % 360
  {
    var a := index + i * 3;
    if a < 0 {
      var q, r := (-a) / 360, (-a) % 360;
      assert -a == q * 360 + r;
      if r == 0 {
        Arith.DivModUnique(a, 360, -q, 0);
      } else {
        Arith.DivModUnique(a, 360, -q - 1, 360 - r);
      }
    } else {
      assert a == (a / 360) * 360 + a % 360;
    }
  }

  /// `relatedForBubble`: inserts the wrapped neighbour for every step of
  /// `-4 ... 3` but 0 into a set.
  method RelatedForBubble(index: int) returns (results: set<int>)
    ensures results == Neighbours(index)
  {
    results := {};
    for i := -4 to 4
      invariant forall x :: x in results <==> exists j :: -4 <= j < i && j != 0 && x == Wrapped(index, j)
    {
      if i != 0 {
        results := results + {Wrapped(index, i)};
      }
    }
    Collected(index, results);
  }

  /// The wrapped neighbours of every step are the neighbourhood.
  lemma Collected(index: int, results: set<int>)
    requires forall x :: x in results <==> exists j :: -4 <= j < 4 && j != 0 && x == Wrapped(index, j)
    ensures results == Neighbours(index)
  {
    forall x | x in results ensures x in Neighbours(index) {
      var j :| -4 <= j < 4 && j != 0 && x == Wrapped(index, j);
      WrappedIsMod(index, j);
    }
    forall i | -4 <= i <= 3 && i != 0 ensures (index + 3 * i) % 360 in results {
      WrappedIsMod(index, i);
    }
  }

  /// Two hues less than a full turn apart differ on the wheel.
  lemma ApartOnWheel(index: int, d1: int, d2: int)
    requires 0 < d2 - d1 < 360
    ensures (index + d1) % 360 != (index + d2) % 360
  {
    var x := index + d1;
    var q, m := x / 360, x % 360;
    assert x == q * 360 + m;
    var v := m + (d2 - d1);
    if v >= 360 {
      Arith.DivModUnique(index + d2, 360, q + 1, v - 360);
    } else {
      Arith.DivModUnique(index + d2, 360, q, v);
    }
  }

  /// A hue on the wheel moved by less than a full turn is another hue.
  lemma NotBackOnWheel(index: int, d: int)
    requires 0 <= index < 360 && d != 0 && -360 < d < 360
    ensures (index + d) % 360 != index
  {
    var q := (index + d) / 360;
    assert index + d == q * 360 + (index + d) % 360;
  }

  /// The `k`-th offset of the neighbourhood, `k` in `0 ..< 7`: -12, -9,
  /// -6, -3, 3, 6, 9 degrees.
  function Offset(k: int): int
  {
    if k < 4 then 3 * (k - 4) else 3 * (k - 3)
  }

  /// The neighbourhood as a list, offset by offset.
  function Hues(index: int): seq<int>
  {
    seq(7, k => (index + Offset(k)) % 360)
  }

  lemma HuesListNeighbours(index: int)
    ensures Neighbours(index) == set x | x in Hues(index)
  {
    var hues := Hues(index);
    forall x | x in Neighbours(index) ensures x in hues {
      var i :| -4 <= i <= 3 && i != 0 && x == (index + 3 * i) % 360;
      var k := if i < 0 then i + 4 else i + 3;
      assert hues[k] == x;
    }
    forall k | 0 <= k < 7 ensures hues[k] in Neighbours(index) {
      var i := if k < 4 then k - 4 else k - 3;
      assert hues[k] == (index + 3 * i) % 360;
    }
  }

  /// The neighbourhood holds exactly 7 hues, all in `[0, 360)`, and never
  /// the queried index itself.
  lemma NeighboursFacts(index: int)
    ensures |Neighbours(index)| == 7
    ensures forall x :: x in Neighbours(index) ==> 0 <= x < 360
    ensures index !in Neighbours(index)
  {
    var hues := Hues(index);
    forall k1, k2 | 0 <= k1 < k2 < 7 ensures hues[k1] != hues[k2] {
      ApartOnWheel(index, Offset(k1), Offset(k2));
    }
    Arith.DistinctCard(hues);
    HuesListNeighbours(index);
    NeighboursExcludeSelf(index);
  }

  lemma NeighboursExcludeSelf(index: int)
    ensures index !in Neighbours(index)
  {
    if 0 <= index < 360 {
      NotBackOnWheel(index, -12);
      NotBackOnWheel(index, -9);
      NotBackOnWheel(index, -6);
      NotBackOnWheel(index, -3);
      NotBackOnWheel(index, 3);
      NotBackOnWheel(index, 6);
      NotBackOnWheel(index, 9);
    }
  }

  /// `shouldAllowFocus`: every hue can be focused.
  predicate ShouldAllowFocus(index: int)
  {
    true
  }
}
