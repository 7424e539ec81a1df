/**
  The scroll-hide directive: whether its host is shown, driven by the
  window's vertical scroll position at each scroll event.
 */
module ScrollHide {

  datatype ScrollState = ScrollState(visible: bool, lastScrollY: int)

  const Initial: ScrollState := ScrollState(true, 0)

  /** The distance from the top below which scrolling down never hides the host. */
  const HideThreshold: int := 50

  /** `onWindowScroll` with `window.scrollY == current`. */
  function OnWindowScroll(s: ScrollState, current: int): (r: ScrollState)
    ensures r.lastScrollY == current
    ensures current == 0 ==> r.visible
    ensures current != 0 && current > s.lastScrollY && current > HideThreshold ==> !r.visible
    ensures current != 0 && !(current > s.lastScrollY && current > HideThreshold) && current < s.lastScrollY ==> r.visible
    ensures current != 0 && !(current > s.lastScrollY && current > HideThreshold) && current >= s.lastScrollY ==>
      r.visible == s.visible
  {
    var visible :=
      if current == 0 then true
      else if current > s.lastScrollY && current > HideThreshold then false
      else if current < s.lastScrollY then true
      else s.visible;
    ScrollState(visible, current)
  }

  /** The host is hidden by an event only when it scrolled further down, past the threshold;
      it is revealed only by scrolling up or reaching the top. */
  lemma VisibilityChanges(s: ScrollState, current: int)
    ensures s.visible && !OnWindowScroll(s, current).visible ==> current > s.lastScrollY && current > HideThreshold
    ensures !s.visible && OnWindowScroll(s, current).visible ==> current < s.lastScrollY || current == 0
  {
  }

  /** A second event at the same position changes nothing. */
  lemma RepeatedEventIsIdle(s: ScrollState, current: int)
    ensures OnWindowScroll(OnWindowScroll(s, current), current) == OnWindowScroll(s, current)
  {
  }

  /** Within the first 50 pixels the host never hides, whatever the sequence of events. */
  lemma {:induction false} ShownNearTheTop(positions: seq<int>)
    requires forall k :: 0 <= k < |positions| ==> positions[k] <= HideThreshold
    ensures Replay(Initial, positions).visible
  {
    if |positions| > 0 {
      ShownNearTheTop(positions[..|positions| - 1]);
    }
  }

  /** A sequence of scroll events from a state. */
  function Replay(s: ScrollState, positions: seq<int>): (r: ScrollState)
    ensures |positions| > 0 ==> r.lastScrollY == positions[|positions| - 1]
  {
    if |positions| == 0 then s else OnWindowScroll(Replay(s, positions[..|positions| - 1]), positions[|positions| - 1])
  }
}
