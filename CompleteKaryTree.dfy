/** `CompleteKaryTree`: a complete k-ary tree of a given height stored in
    level order (children of `i` are `k*i+1 .. k*i+k`), and its in-order
    traversal, which the hue-space data sources use to lay colours out. */
module KaryTree {
  import Arith

  function Pow(k: int, e: nat): int
  {
    if e == 0 then 1 else k * Pow(k, e - 1)
  }

  /// `1 + k + ... + k^h`.
  function GeometricSum(k: int, h: nat): int
  {
    if h == 0 then 1 else GeometricSum(k, h - 1) + Pow(k, h)
  }

  /// The size computed by `init`: `(k^(h+1) - 1) / (k - 1)`, here on exact
  /// integers.
  function Size(k: int, h: nat): int
    requires k >= 2
  {
    (Pow(k, h + 1) - 1) / (k - 1)
  }

  /// A complete tree is a root with `k` complete subtrees one level lower.
  lemma {:induction false} SumUnfolds(k: int, h: nat)
    requires h >= 1
    ensures GeometricSum(k, h) == 1 + k * GeometricSum(k, h - 1)
    decreases h
  {
    if h == 1 {
      assert Pow(k, 1) == k * Pow(k, 0) == k;
    } else {
      SumUnfolds(k, h - 1);
      calc {
        1 + k * GeometricSum(k, h - 1);
        1 + k * (GeometricSum(k, h - 2) + Pow(k, h - 1));
        1 + k * GeometricSum(k, h - 2) + k * Pow(k, h - 1);
        GeometricSum(k, h - 1) + Pow(k, h);
      }
    }
  }

  lemma {:induction false} SumTimesPred(k: int, h: nat)
    ensures (k - 1) * GeometricSum(k, h) == Pow(k, h + 1) - 1
    decreases h
  {
    if h > 0 {
      SumTimesPred(k, h - 1);
      calc {
        (k - 1) * GeometricSum(k, h);
        (k - 1) * GeometricSum(k, h - 1) + (k - 1) * Pow(k, h);
        Pow(k, h) - 1 + (k - 1) * Pow(k, h);
        k * Pow(k, h) - 1;
      }
    }
  }

  /// The division in `init` is exact: the size is `1 + k + ... + k^h`.
  lemma SizeIsGeometricSum(k: int, h: nat)
    requires k >= 2
    ensures Size(k, h) == GeometricSum(k, h)
  {
    SumTimesPred(k, h);
    Arith.DivModUnique(Pow(k, h + 1) - 1, k - 1, GeometricSum(k, h), 0);
  }

  lemma {:induction false} SumPositive(k: int, h: nat)
    requires k >= 2
    ensures GeometricSum(k, h) >= 1
    decreases h
  {
    if h > 0 {
      SumPositive(k, h - 1);
      SumUnfolds(k, h);
      Arith.MulLeft(k, 0, GeometricSum(k, h - 1));
    }
  }

  /// No two positions of `s` hold the same value.
  ghost predicate Distinct(s: seq<int>)
  {
    forall a, b :: 0 <= a < b < |s| ==> s[a] != s[b]
  }

  lemma DistinctConcat(s: seq<int>, t: seq<int>)
    requires Distinct(s) && Distinct(t)
    requires forall x :: x in s ==> x !in t
    ensures Distinct(s + t)
  {
    forall a, b | 0 <= a < b < |s + t| ensures (s + t)[a] != (s + t)[b] {
      if a < |s| && b >= |s| {
        assert (s + t)[a] in s && (s + t)[b] in t;
      }
    }
  }

  /// The indices `0 .. n - 1`.
  function Range(n: int): (r: set<int>)
    ensures forall x :: x in r <==> 0 <= x < n
    decreases n
  {
    if n <= 0 then {} else Range(n - 1) + {n - 1}
  }

  lemma {:induction false} RangeCard(n: nat)
    ensures |Range(n)| == n
    decreases n
  {
    if n > 0 {
      RangeCard(n - 1);
      var r := Range(n - 1);
      assert n - 1 !in r by { assert !(0 <= n - 1 < n - 1); }
      assert |r + {n - 1}| == |r| + 1;
    }
  }

  class CompleteKaryTree {
    const height: int
    const size: int
    const numChildren: int
    const root: int
    var storage: seq<nat>

    /// The shape fixed by `init`: at least two children per node (the size
    /// formula divides by `k - 1`), a non-negative height, the root at 0.
    ghost predicate Valid()
    {
      numChildren >= 2 && height >= 0 && size == Size(numChildren, height) && size >= 1 && root == 0
    }

    constructor (children: int, height: int)
      requires children >= 2 && height >= 0
      ensures Valid()
      ensures numChildren == children && this.height == height && root == 0
      ensures size == GeometricSum(children, height)
      ensures storage == seq(size, _ => 0)
    {
      this.height := height;
      numChildren := children;
      size := Size(children, height);
      root := 0;
      new;
      SizeIsGeometricSum(children, height);
      SumPositive(children, height);
      storage := seq(size, _ => 0);
    }

    /// The number of inner nodes: all levels but the last.
    ghost function Inner(): int
      requires Valid()
    {
      if height == 0 then 0 else GeometricSum(numChildren, height - 1)
    }

    lemma SizeFacts()
      requires Valid()
      ensures size == GeometricSum(numChildren, height)
      ensures size == 1 + numChildren * Inner()
    {
      SizeIsGeometricSum(numChildren, height);
      SumPositive(numChildren, height);
      if height >= 1 {
        SumUnfolds(numChildren, height);
      }
    }

    /// `parent`: `(index - 1) / numChildren`, truncating as Swift does.
    function Parent(index: int): int
      requires Valid()
    {
      Arith.TruncDiv(index - 1, numChildren)
    }

    /// The `m`-th child (from 0) of `index`.
    function Child(index: int, m: int): int
    {
      numChildren * index + m + 1
    }

    /// What `children` returns: `numChildren * index + j` for `j` in `1...numChildren`.
    function ChildrenOf(index: int): seq<int>
      requires Valid()
    {
      seq(numChildren, m => Child(index, m))
    }

    /// `isLeaf`: the first child falls outside the tree.
    predicate IsLeaf(index: int)
      requires Valid()
    {
      ChildrenOf(index)[0] >= size
    }

    /// `children`, which appends in a loop.
    method Children(index: int) returns (result: seq<int>)
      requires Valid()
      ensures result == ChildrenOf(index)
      ensures |result| == numChildren
      ensures forall a, b :: 0 <= a < b < |result| ==> result[a] < result[b]
      ensures forall m :: 0 <= m < |result| ==> result[m] == numChildren * index + m + 1
    {
      result := [];
      for j := 1 to numChildren + 1
        invariant |result| == j - 1
        invariant forall m :: 0 <= m < |result| ==> result[m] == numChildren * index + m + 1
      {
        result := result + [numChildren * index + j];
      }
    }

    /// Every child of `index` is one below it: `parent(k*i + j) == i`.
    lemma ParentOfChild(index: int, m: int)
      requires Valid() && index >= 0 && 0 <= m < numChildren
      ensures Parent(Child(index, m)) == index
    {
      Arith.DivModUnique(numChildren * index + m, numChildren, index, m);
    }

    /// `isLeaf(i)` exactly when `k*i + 1 >= size`.
    lemma LeafIffFirstChildOutside(index: int)
      requires Valid()
      ensures IsLeaf(index) <==> numChildren * index + 1 >= size
    {
    }

    /// Level-order numbering of a complete tree: an inner node has all of its
    /// children inside the tree.
    lemma ChildInTree(index: int, m: int)
      requires Valid() && 0 <= index && !IsLeaf(index) && 0 <= m < numChildren
      ensures index < Child(index, m) < size
    {
      SizeFacts();
      var k, inner := numChildren, Inner();
      assert k * index < k * inner;
      if inner <= index {
        Arith.MulLeft(k, inner, index);
      }
      Arith.MulLeft(k, index + 1, inner);
      assert k * (index + 1) == k * index + k;
      Arith.MulLeft(index, 1, k);
    }

    /// A node's parent is a smaller, non-negative index.
    lemma ParentBelow(x: int)
      requires Valid() && x >= 1
      ensures 0 <= Parent(x) < x
    {
      var q := (x - 1) / numChildren;
      assert x - 1 == q * numChildren + (x - 1) % numChildren;
      if q < 0 {
        Arith.MulAtLeast(-q, numChildren);
      }
      if q > 0 {
        Arith.MulAtLeast(numChildren, q);
      }
    }

    /// `a` is `x` or one of its ancestors.
    ghost predicate Desc(a: int, x: int)
      requires Valid() && a >= 0
      decreases x
    {
      if x < a then false
      else if x == a then true
      else ParentBelow(x); Desc(a, Parent(x))
    }

    /// The child of `a` on the way from `a` down to `x`.
    ghost function Toward(a: int, x: int): int
      requires Valid() && a >= 0 && x > a && Desc(a, x)
      decreases x
    {
      ParentBelow(x);
      if Parent(x) == a then x else Toward(a, Parent(x))
    }

    lemma {:induction false} TowardFacts(a: int, x: int)
      requires Valid() && a >= 0 && x > a && Desc(a, x)
      ensures var c := Toward(a, x); a < c <= x && Parent(c) == a && Desc(c, x)
      decreases x
    {
      ParentBelow(x);
      if Parent(x) != a {
        TowardFacts(a, Parent(x));
      }
    }

    /// Everything below a child `c` of `a` is below `a`, on the way through `c`.
    lemma {:induction false} TowardChild(a: int, c: int, x: int)
      requires Valid() && a >= 0 && c > a && Parent(c) == a && Desc(c, x)
      ensures x > a && Desc(a, x) && Toward(a, x) == c
      decreases x
    {
      if x != c {
        ParentBelow(x);
        TowardChild(a, c, Parent(x));
      } else {
        ParentBelow(c);
      }
    }

    /// Every node of the tree is below the root.
    lemma {:induction false} RootAbove(x: int)
      requires Valid() && x >= 0
      ensures Desc(0, x)
      decreases x
    {
      if x > 0 {
        ParentBelow(x);
        RootAbove(Parent(x));
      }
    }

    /// The child of `index` that `Toward` yields is one of the `numChildren`
    /// children, at position `m`.
    lemma ChildPosition(index: int, c: int)
      requires Valid() && index >= 0 && c > index && Parent(c) == index
      ensures 0 <= c - Child(index, 0) < numChildren
      ensures c == Child(index, c - Child(index, 0))
    {
      assert c - 1 == numChildren * ((c - 1) / numChildren) + (c - 1) % numChildren;
    }

    /// `inOrder` as a value: a leaf alone; an inner node between the subtrees
    /// of its first `numChildren / 2` children and those of the rest.
    function Traversal(index: int): seq<int>
      requires Valid() && 0 <= index < size
      decreases size - index, 1
    {
      if IsLeaf(index) then [index]
      else Subtrees(index, 0, numChildren / 2) + [index] + Subtrees(index, numChildren / 2, numChildren)
    }

    /// The traversals of the children `lo .. hi - 1` of `index`, in order.
    function Subtrees(index: int, lo: int, hi: int): seq<int>
      requires Valid() && 0 <= index < size && !IsLeaf(index) && 0 <= lo <= hi <= numChildren
      decreases size - index, 0, hi - lo
    {
      if lo == hi then []
      else
        ChildInTree(index, hi - 1);
        Subtrees(index, lo, hi - 1) + Traversal(Child(index, hi - 1))
    }

    /// The traversal below `index` lists each node of the subtree at `index`
    /// exactly once, and nothing else.
    lemma {:induction false} TraversalFacts(index: int)
      requires Valid() && 0 <= index < size
      ensures forall x :: x in Traversal(index) ==> index <= x < size && Desc(index, x)
      ensures forall x :: 0 <= x < size && Desc(index, x) ==> x in Traversal(index)
      ensures Distinct(Traversal(index))
      decreases size - index, 1
    {
      if !IsLeaf(index) {
        var half := numChildren / 2;
        var left, right := Subtrees(index, 0, half), Subtrees(index, half, numChildren);
        SubtreesFacts(index, 0, half);
        SubtreesFacts(index, half, numChildren);
        DistinctConcat(left, [index]);
        DistinctConcat(left + [index], right);
        forall x | 0 <= x < size && Desc(index, x) ensures x in Traversal(index) {
          if x != index {
            TowardFacts(index, x);
            ChildPosition(index, Toward(index, x));
          }
        }
      } else {
        forall x | 0 <= x < size && Desc(index, x) ensures x == index {
          if x != index {
            TowardFacts(index, x);
            ChildPosition(index, Toward(index, x));
          }
        }
      }
    }

    lemma {:induction false} SubtreesFacts(index: int, lo: int, hi: int)
      requires Valid() && 0 <= index < size && !IsLeaf(index) && 0 <= lo <= hi <= numChildren
      ensures forall x :: x in Subtrees(index, lo, hi) ==>
        x < size && x > index && Desc(index, x) && Child(index, lo) <= Toward(index, x) < Child(index, hi)
      ensures forall x :: 0 <= x < size && x > index && Desc(index, x) && Child(index, lo) <= Toward(index, x) < Child(index, hi) ==>
        x in Subtrees(index, lo, hi)
      ensures Distinct(Subtrees(index, lo, hi))
      decreases size - index, 0, hi - lo
    {
      if lo < hi {
        var c := Child(index, hi - 1);
        ChildInTree(index, hi - 1);
        var left, below := Subtrees(index, lo, hi - 1), Traversal(c);
        assert Subtrees(index, lo, hi) == left + below;
        ParentOfChild(index, hi - 1);
        SubtreesFacts(index, lo, hi - 1);
        TraversalFacts(c);
        forall x | x in below
          ensures x < size && x > index && Desc(index, x) && Toward(index, x) == c
        {
          TowardChild(index, c, x);
        }
        forall x | x in left ensures x !in below {
          assert Toward(index, x) < c;
        }
        forall x | 0 <= x < size && x > index && Desc(index, x) && Child(index, lo) <= Toward(index, x) < Child(index, hi)
          ensures x in left + below
        {
          if Toward(index, x) == c {
            TowardFacts(index, x);
          }
        }
        DistinctConcat(left, below);
      }
    }

    /// `inOrder(index, list:)`: appends the traversal of the subtree at
    /// `index` to `list`, recursing into the children in two loops.
    method InOrder(index: int, list: seq<int>) returns (result: seq<int>)
      requires Valid() && 0 <= index < size
      ensures result == list + Traversal(index)
      decreases size - index
    {
      if IsLeaf(index) {
        result := list + [index];
        return;
      }
      var curChildren := Children(index);
      result := list;
      var half := numChildren / 2;
      for i := 0 to half
        invariant result == list + Subtrees(index, 0, i)
      {
        ChildInTree(index, i);
        assert curChildren[i] == Child(index, i);
        result := InOrder(curChildren[i], result);
        assert Subtrees(index, 0, i + 1) == Subtrees(index, 0, i) + Traversal(Child(index, i));
      }
      result := result + [index];
      for i := half to numChildren
        invariant result == list + Subtrees(index, 0, half) + [index] + Subtrees(index, half, i)
      {
        ChildInTree(index, i);
        assert curChildren[i] == Child(index, i);
        result := InOrder(curChildren[i], result);
        assert Subtrees(index, half, i + 1) == Subtrees(index, half, i) + Traversal(Child(index, i));
      }
    }

    /// `generateInOrderTraversal`: the traversal from the root lists every
    /// node exactly once, so it has `size` entries, as the source asserts.
    method GenerateInOrderTraversal() returns (result: seq<int>)
      requires Valid()
      ensures result == Traversal(root)
      ensures |result| == size
      ensures Distinct(result)
      ensures forall x :: x in result <==> 0 <= x < size
    {
      SizeFacts();
      result := InOrder(root, []);
      TraversalFacts(root);
      forall x | 0 <= x < size ensures x in result {
        RootAbove(x);
      }
      assert (set x | x in result) == Range(size);
      Arith.DistinctCard(result);
      RangeCard(size);
    }
  }
}
