/** The example hue-space data sources. Their bubbles are the nodes of a
    complete k-ary tree, a node is related to its children, and colours are
    laid out along the tree's in-order traversal. `HueSpaceDataSource` (the
    current example) and `BubblesViewHueSpaceDataSource` (the older one)
    share `init`, `relatedForBubble` and `shouldAllowFocus`. The older one
    also paints the middle position of the traversal gray. */
module HueSpace {
  import opened KaryTree

  /// The `init` loop: `temp[inOrder[i]] = i` for every position `i`, on a
  /// buffer of `size` entries that starts out as -1. Every written entry
  /// points back at a position holding its index; an entry stays -1 exactly
  /// when its index does not occur in `inOrder`.
  method InverseMapping(inOrder: seq<int>, size: nat) returns (mapping: seq<int>)
    requires forall i :: 0 <= i < |inOrder| ==> 0 <= inOrder[i] < size
    ensures |mapping| == size
    ensures forall x :: 0 <= x < size ==> (mapping[x] == -1 <==> x !in inOrder)
    ensures forall x :: 0 <= x < size && mapping[x] != -1 ==> 0 <= mapping[x] < |inOrder| && inOrder[mapping[x]] == x
    ensures Distinct(inOrder) ==> forall i :: 0 <= i < |inOrder| ==> mapping[inOrder[i]] == i
  {
    var temp := new int[size](_ => -1);
    for i := 0 to |inOrder|
      invariant forall x :: 0 <= x < size ==> (temp[x] == -1 <==> x !in inOrder[..i])
      invariant forall x :: 0 <= x < size && temp[x] != -1 ==> 0 <= temp[x] < i && inOrder[temp[x]] == x
      invariant Distinct(inOrder) ==> forall j :: 0 <= j < i ==> temp[inOrder[j]] == j
    {
      assert inOrder[..i + 1] == inOrder[..i] + [inOrder[i]];
      temp[inOrder[i]] := i;
    }
    assert inOrder[..|inOrder|] == inOrder;
    mapping := temp[..];
  }

  /// What `colorForPosition` picks in the older example: a fixed gray, or
  /// the hue `position / size` of the colour wheel (a fraction, kept exact).
  datatype Color = Gray | Hue(position: int, size: int)

  class HueSpaceDataSource {
    var focused: int
    const tree: CompleteKaryTree
    const inOrderMapping: seq<int>
    /// The traversal `init` inverted; not a field of the source.
    ghost const inOrder: seq<int>

    /// What `init` establishes: the tree is well formed, `inOrder` is its
    /// in-order traversal and `inOrderMapping` gives each node its position
    /// in it.
    ghost predicate Valid()
    {
      && tree.Valid()
      && inOrder == tree.Traversal(tree.root)
      && |inOrder| == tree.size && |inOrderMapping| == tree.size
      && (forall i :: 0 <= i < |inOrder| ==> 0 <= inOrder[i] < tree.size && inOrderMapping[inOrder[i]] == i)
      && (forall x :: 0 <= x < tree.size ==> 0 <= inOrderMapping[x] < tree.size && inOrder[inOrderMapping[x]] == x)
    }

    /// `init(levels:divisions:)`: the tree of `divisions` children per node
    /// and height `levels`, the inverse of its in-order traversal, and the
    /// root as the first focus.
    constructor (levels: int, divisions: int)
      requires divisions >= 2 && levels >= 0
      ensures Valid()
      ensures tree.numChildren == divisions && tree.height == levels
      ensures focused == tree.root == 0
    {
      var t := new CompleteKaryTree(divisions, levels);
      var order := t.GenerateInOrderTraversal();
      forall i | 0 <= i < |order| ensures 0 <= order[i] < t.size {
        assert order[i] in order;
      }
      var mapping := InverseMapping(order, t.size);
      tree := t;
      inOrderMapping := mapping;
      inOrder := order;
      focused := t.root;
    }

    /// The children of `index`, or nothing for a leaf.
    function Related(index: int): set<int>
      requires Valid()
    {
      if tree.IsLeaf(index) then {} else set m | 0 <= m < tree.numChildren :: tree.Child(index, m)
    }

    /// `relatedForBubble`: no relations for a leaf, otherwise the set of
    /// what `children` returns.
    method RelatedForBubble(index: int) returns (related: set<int>)
      requires Valid()
      ensures related == Related(index)
    {
      if tree.IsLeaf(index) {
        return {};
      }
      var children := tree.Children(index);
      related := set x | x in children;
      forall x | x in Related(index) ensures x in related {
        var m :| 0 <= m < tree.numChildren && x == tree.Child(index, m);
        assert children[m] == x;
      }
    }

    /// `shouldAllowFocus`: only inner nodes can be focused.
    predicate ShouldAllowFocus(index: int)
      requires Valid()
    {
      !tree.IsLeaf(index)
    }

    /// A node of the tree is related to exactly the nodes whose parent it
    /// is; in particular never to itself, since its children lie after it.
    lemma RelatedAreChildren(index: int)
      requires Valid() && 0 <= index < tree.size
      ensures index !in Related(index)
      ensures forall x :: x in Related(index) ==> index < x < tree.size && tree.Parent(x) == index
      ensures forall x :: 0 <= x < tree.size && x != index && tree.Parent(x) == index ==> x in Related(index)
    {
      forall x | x in Related(index) ensures index < x < tree.size && tree.Parent(x) == index {
        var m :| 0 <= m < tree.numChildren && x == tree.Child(index, m);
        tree.ChildInTree(index, m);
        tree.ParentOfChild(index, m);
      }
      forall x | 0 <= x < tree.size && x != index && tree.Parent(x) == index ensures x in Related(index) {
        tree.ParentBelow(x);
        tree.ChildPosition(index, x);
        var m := x - tree.Child(index, 0);
        assert x == tree.Child(index, m);
        assert !tree.IsLeaf(index) by {
          assert tree.Child(index, 0) <= x;
        }
      }
    }

    /// A node may be focused exactly when it has something to relate to.
    lemma AllowFocusIffRelated(index: int)
      requires Valid()
      ensures ShouldAllowFocus(index) <==> Related(index) != {}
    {
      if ShouldAllowFocus(index) {
        assert tree.Child(index, 0) in Related(index);
      }
    }

    /// `colorForPosition` in the older example: gray at `size / 2`, a hue
    /// elsewhere.
    function ColorForPosition(position: int): Color
      requires Valid()
    {
      if position == tree.size / 2 then Gray else Hue(position, tree.size)
    }

    /// `configureBubble`'s colour in the older example: the colour of the
    /// node's in-order position.
    function ConfigureColor(index: int): Color
      requires Valid() && 0 <= index < tree.size
    {
      ColorForPosition(inOrderMapping[index])
    }

    /// Exactly one node is painted gray, the one in the middle of the
    /// in-order traversal, and no two nodes share a colour.
    lemma OneGrayNode(index: int, other: int)
      requires Valid() && 0 <= index < tree.size && 0 <= other < tree.size
      ensures ConfigureColor(index) == Gray <==> index == inOrder[tree.size / 2]
      ensures index != other ==> ConfigureColor(index) != ConfigureColor(other)
    {
      assert inOrderMapping[inOrder[tree.size / 2]] == tree.size / 2;
    }
  }
}
