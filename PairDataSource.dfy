/** The data source of the older example: six coloured bubbles, each related
    to the four bubbles left once it and its predecessor (or, for the first
    bubble, its successor) are struck off the list `0 ... 5`. */
module PairDataSource {
  import opened KaryTree
  import Arith

  /// The six colours `configureBubble` paints, in index order.
  datatype Color = Blue | Green | Red | Magenta | Cyan | Orange

  const Colors: seq<Color> := [Blue, Green, Red, Magenta, Cyan, Orange]

  /// The list `relatedForBubble` starts from.
  const Bubbles: seq<int> := [0, 1, 2, 3, 4, 5]

  lemma BubblesFacts()
    ensures |Bubbles| == 6 && Distinct(Bubbles)
    ensures forall p :: 0 <= p < 6 ==> Bubbles[p] == p
    ensures forall x :: x in Bubbles <==> 0 <= x <= 5
  {
    assert forall x :: x in Bubbles ==> 0 <= x <= 5;
    forall x | 0 <= x <= 5 ensures x in Bubbles {
      assert Bubbles[x] == x;
    }
  }

  /// `relatedForBubble(bubble)`: removes position `bubble`, then position
  /// `max(bubble - 1, 0)`, from `[0, 1, 2, 3, 4, 5]`. Swift's
  /// `removeAtIndex` traps outside the list, so `bubble` must be in `0 ... 5`.
  method RelatedForBubble(bubble: int) returns (result: set<int>)
    requires 0 <= bubble <= 5
    ensures bubble > 0 ==> result == {0, 1, 2, 3, 4, 5} - {bubble - 1, bubble}
    ensures bubble == 0 ==> result == {2, 3, 4, 5}
    ensures |result| == 4 && bubble !in result
    ensures forall x :: x in result ==> 0 <= x < |Colors|
  {
    var related := Bubbles;
    related := related[..bubble] + related[bubble + 1..];
    var second := if bubble - 1 > 0 then bubble - 1 else 0;
    ghost var first := related;
    related := related[..second] + related[second + 1..];
    StruckTwice(bubble, first, related);
    result := set x | x in related;
    Arith.DistinctCard(related);
    Struck(bubble, if bubble == 0 then 1 else bubble - 1, related, result);
  }

  /// The two removals, on positions: the bubble itself goes, then its
  /// predecessor (bubble 1 when `bubble` is 0).
  lemma StruckTwice(bubble: int, first: seq<int>, related: seq<int>)
    requires 0 <= bubble <= 5 && first == Bubbles[..bubble] + Bubbles[bubble + 1..]
    requires var second := if bubble - 1 > 0 then bubble - 1 else 0;
             related == first[..second] + first[second + 1..]
    ensures |related| == 4 && Distinct(related)
    ensures forall x :: x in related <==> 0 <= x <= 5 && x != bubble && x != if bubble == 0 then 1 else bubble - 1
  {
    BubblesFacts();
    RemoveAtMembers(Bubbles, bubble);
    var second := if bubble - 1 > 0 then bubble - 1 else 0;
    assert first[second] == if bubble == 0 then 1 else bubble - 1;
    RemoveAtMembers(first, second);
  }

  /// The list struck twice, as a set.
  lemma Struck(bubble: int, gone: int, related: seq<int>, result: set<int>)
    requires 0 <= bubble <= 5 && gone == if bubble == 0 then 1 else bubble - 1
    requires forall x :: x in related <==> 0 <= x <= 5 && x != bubble && x != gone
    requires result == set x | x in related
    ensures bubble > 0 ==> result == {0, 1, 2, 3, 4, 5} - {bubble - 1, bubble}
    ensures bubble == 0 ==> result == {2, 3, 4, 5}
  {
    assert forall x :: x in result <==> x in related;
    var expected := if bubble > 0 then {0, 1, 2, 3, 4, 5} - {bubble - 1, bubble} else {2, 3, 4, 5};
    forall x ensures x in result <==> x in expected {
      if 0 <= x <= 5 {
        assert x in {0, 1, 2, 3, 4, 5};
      }
    }
  }

  /// Striking position `i` off a list without repetitions strikes off
  /// exactly the element there.
  lemma RemoveAtMembers(s: seq<int>, i: int)
    requires 0 <= i < |s| && Distinct(s)
    ensures var r := s[..i] + s[i + 1..];
            && |r| == |s| - 1 && Distinct(r)
            && (forall x :: x in r <==> x in s && x != s[i])
            && (forall p :: 0 <= p < |r| ==> r[p] == if p < i then s[p] else s[p + 1])
  {
    var r := s[..i] + s[i + 1..];
    forall x | x in s && x != s[i] ensures x in r {
      var p :| 0 <= p < |s| && s[p] == x;
      assert r[if p < i then p else p - 1] == x;
    }
  }

  /// `configureBubble`'s colour: `colors[index]`, which traps outside the
  /// six colours.
  function ColorOf(index: int): Color
    requires 0 <= index < |Colors|
  {
    Colors[index]
  }
}
