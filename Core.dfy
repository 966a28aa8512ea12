/** Shared vocabulary of the bubble graph: optional values, geometry, the
    index and handle types, and the data-source contract. */
module Core {

  datatype Option<T> = None | Some(value: T)

  /// The range of a Swift `Int` (64 bits).
  const IntMin: int := -0x8000_0000_0000_0000
  const IntMax: int := 0x7FFF_FFFF_FFFF_FFFF

  /// An index chosen by the data source; any Swift `Int`.
  type Index = i: int | IntMin <= i <= IntMax

  /// A handle into the registry's arena of bubble views (arena-and-index design:
  /// a `BubbleView` object is identified by the position at which it was created).
  type BubbleId = nat

  /// `CGPoint` and `CGVector`, with `CGFloat` taken as an exact real.
  datatype Point = Point(x: real, y: real)
  datatype Vector = Vector(dx: real, dy: real)

  /// The `BubblesViewDataSource` protocol as a value: the index currently
  /// focused and the related-set query. `configureBubble` hands out a fresh
  /// view every time; the registry allocates that view in its arena.
  datatype DataSource = DataSource(focusedBubble: Index, relatedForBubble: Index -> set<Index>)

  /// A dictionary is injective when no two keys share a value (every view is
  /// registered under at most one index).
  ghost predicate Injective<K, V>(m: map<K, V>)
  {
    forall a, b :: a in m && b in m && m[a] == m[b] ==> a == b
  }

  /// An injective dictionary has as many distinct values as keys; this is
  /// what turns "one view per index" into the recogniser-count assertions.
  lemma {:induction false} InjectiveValuesCount<K, V>(m: map<K, V>)
    requires Injective(m)
    ensures |m.Values| == |m.Keys|
    decreases |m.Keys|
  {
    if m.Keys != {} {
      var k :| k in m.Keys;
      var rest := m - {k};
      assert Injective(rest);
      InjectiveValuesCount(rest);
      assert rest.Keys == m.Keys - {k};
      assert m.Values == rest.Values + {m[k]} by {
        forall v | v in m.Values ensures v in rest.Values + {m[k]} {
          var a :| a in m && m[a] == v;
          if a != k { assert a in rest; }
        }
        forall v | v in rest.Values ensures v in m.Values {
          var a :| a in rest && rest[a] == v;
          assert a in m && m[a] == v;
        }
      }
      forall a | a in rest ensures rest[a] != m[k] {
        assert a != k;
      }
    } else {
      assert m == map[];
    }
  }

  /// Moving one element from the part of `all` still to visit to the part
  /// already visited.
  lemma VisitOne<T>(all: set<T>, rest: set<T>, x: T)
    requires x in rest && rest <= all
    ensures x !in all - rest
    ensures (all - rest) + {x} == all - (rest - {x})
  {
  }

  /// Nothing left to visit: everything was visited.
  lemma VisitedAll<T>(all: set<T>)
    ensures all - {} == all
  {
  }

  /// No index occurs twice.
  predicate NoDup(s: seq<Index>)
  {
    forall a, b :: 0 <= a < b < |s| ==> s[a] != s[b]
  }

  /// The elements of a set in some order: the order in which Swift happens
  /// to iterate over a `Set`.
  method Enumerate(s: set<Index>) returns (q: seq<Index>)
    ensures NoDup(q) && |q| == |s| && (forall i :: i in q <==> i in s)
  {
    q := [];
    var rest := s;
    while rest != {}
      invariant rest <= s
      invariant |q| == |s - rest| && NoDup(q) && (forall i :: i in q <==> i in s - rest)
      decreases |rest|
    {
      var i :| i in rest;
      VisitOne(s, rest, i);
      q := q + [i];
      rest := rest - {i};
    }
    VisitedAll(s);
  }
}
