/** The example view controller's back navigation: tapping a bubble focuses
    it and remembers where the user came from on a stack of earlier foci;
    tapping the focus again goes back one step. */
module Navigation {
  import opened Core
  import opened HueSpace

  /// The navigation state: the data source's `focused` and the `path` of
  /// earlier foci, the most recent last.
  datatype Nav = Nav(focused: int, path: seq<int>)

  /// `didSelectBubble(bubble)` on the state, where `allowed` is the data
  /// source's `shouldAllowFocus(bubble)`.
  function Select(n: Nav, bubble: int, allowed: bool): Nav
  {
    if !allowed then n
    else if bubble == n.focused && |n.path| > 0 then Nav(n.path[|n.path| - 1], n.path[..|n.path| - 1])
    else if bubble != n.focused then Nav(bubble, n.path + [n.focused])
    else n
  }

  /// The index `didSelectBubble` passes to `bubblesView.focus`, if any.
  function FocusRequest(n: Nav, bubble: int, allowed: bool): Option<int>
  {
    if !allowed then None
    else if bubble == n.focused && |n.path| > 0 then Some(n.path[|n.path| - 1])
    else if bubble != n.focused then Some(bubble)
    else None
  }

  /// The view is asked to focus exactly what the data source now calls
  /// focused, and only when that changed.
  lemma RequestMatchesFocus(n: Nav, bubble: int, allowed: bool)
    ensures FocusRequest(n, bubble, allowed).Some? <==> Select(n, bubble, allowed) != n
    ensures FocusRequest(n, bubble, allowed).Some? ==>
              FocusRequest(n, bubble, allowed).value == Select(n, bubble, allowed).focused
  {
    if allowed && bubble == n.focused && |n.path| > 0 {
      assert |Select(n, bubble, allowed).path| < |n.path|;
    }
  }

  /// Going forward to `bubble` and tapping it again comes back to where the
  /// user was.
  lemma ForwardThenBack(n: Nav, bubble: int)
    requires bubble != n.focused
    ensures Select(Select(n, bubble, true), bubble, true) == n
  {
    var m := Select(n, bubble, true);
    assert m.path[..|m.path| - 1] == n.path;
  }

  /// Tapping moves one step along the path, at most.
  lemma PathStep(n: Nav, bubble: int, allowed: bool)
    ensures var m := Select(n, bubble, allowed);
            || m == n
            || m.path + [m.focused] == n.path
            || (m.path == n.path + [n.focused] && m.focused == bubble)
  {
    if allowed && bubble == n.focused && |n.path| > 0 {
      assert n.path == n.path[..|n.path| - 1] + [n.path[|n.path| - 1]];
    }
  }

  /// Along the path, and from its end to the focus, every step moves to
  /// another bubble.
  ghost predicate Steps(n: Nav)
  {
    && (forall i :: 0 <= i < |n.path| - 1 ==> n.path[i] != n.path[i + 1])
    && (|n.path| > 0 ==> n.path[|n.path| - 1] != n.focused)
  }

  /// Taps keep every step a move, so going back always changes the focus.
  lemma SelectKeepsSteps(n: Nav, bubble: int, allowed: bool)
    requires Steps(n)
    ensures Steps(Select(n, bubble, allowed))
    ensures Select(n, bubble, allowed) != n ==> Select(n, bubble, allowed).focused != n.focused
  {
  }

  /// The example's `ViewController`: the hue-space data source it
  /// navigates, and the stack of earlier foci.
  class ViewController {
    const colorDataSource: HueSpaceDataSource
    var path: seq<int>

    ghost function State(): Nav
      reads this, colorDataSource
    {
      Nav(colorDataSource.focused, path)
    }

    /// The source builds its data source with 3 levels of 7 divisions and
    /// starts at the root with an empty path.
    constructor ()
      ensures colorDataSource.Valid() && fresh(colorDataSource)
      ensures State() == Nav(0, [])
    {
      colorDataSource := new HueSpaceDataSource(3, 7);
      path := [];
    }

    /// `didSelectBubble(bubble)`: a bubble that may not be focused is
    /// ignored; the focus goes back one step; any other bubble is pushed
    /// forward to. The returned request is the call to `bubblesView.focus`.
    method DidSelectBubble(bubble: int) returns (request: Option<int>)
      requires colorDataSource.Valid()
      modifies this, colorDataSource
      ensures colorDataSource.Valid()
      ensures State() == Select(old(State()), bubble, colorDataSource.ShouldAllowFocus(bubble))
      ensures request == FocusRequest(old(State()), bubble, colorDataSource.ShouldAllowFocus(bubble))
    {
      request := None;
      if !colorDataSource.ShouldAllowFocus(bubble) {
        return;
      }
      if bubble == colorDataSource.focused && |path| > 0 {
        var prev := path[|path| - 1];
        path := path[..|path| - 1];
        colorDataSource.focused := prev;
        request := Some(prev);
      } else if bubble != colorDataSource.focused {
        path := path + [colorDataSource.focused];
        colorDataSource.focused := bubble;
        request := Some(bubble);
      }
    }
  }
}
