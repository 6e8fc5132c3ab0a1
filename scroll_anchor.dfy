/** Scroll compensation for the message list: when content changes size,
    keep the reader's place. Content above the middle of the view shifts
    the scroll offset by the change; a list read at its bottom is pinned to
    the bottom once the change has settled. Rectangles and scroll metrics
    are measured numbers passed in; the animation frame is an explicit
    event. */
module ScrollAnchor {

  /** Slack, in pixels, within which the list counts as read to the bottom. */
  const BottomSlack: real := 50.0

  /** `scrollTop + clientHeight >= scrollHeight - 50`. */
  predicate AtBottom(scrollTop: real, clientHeight: real, scrollHeight: real) {
    scrollTop + clientHeight >= scrollHeight - BottomSlack
  }

  /** What `compensateScroll` does to the list. */
  datatype Compensation = Unchanged | Shift(delta: real) | PinNextFrame

  /** The decision of `compensateScroll` for a size change `delta` of an
      element whose bottom edge is at `elementBottom`, in a list whose box
      starts at `top` and is `height` tall. */
  function Decide(delta: real, elementBottom: real, top: real, height: real,
                  scrollTop: real, clientHeight: real, scrollHeight: real): (c: Compensation)
    ensures delta == 0.0 ==> c == Unchanged
    ensures delta != 0.0 && elementBottom < top + height / 2.0 ==> c == Shift(delta)
    ensures delta != 0.0 && elementBottom >= top + height / 2.0 ==>
      (c == PinNextFrame <==> AtBottom(scrollTop, clientHeight, scrollHeight))
    ensures c == Unchanged <==>
      delta == 0.0 || (elementBottom >= top + height / 2.0 && !AtBottom(scrollTop, clientHeight, scrollHeight))
  {
    if delta == 0.0 then Unchanged
    else
      var viewCenter := top + height / 2.0;
      if elementBottom < viewCenter then Shift(delta)
      else if AtBottom(scrollTop, clientHeight, scrollHeight) then PinNextFrame
      else Unchanged
  }

  /** The above-centre rule wins even when the list is also at its bottom. */
  lemma AboveCentreWins(delta: real, elementBottom: real, top: real, height: real,
                        scrollTop: real, clientHeight: real, scrollHeight: real)
    requires delta != 0.0 && elementBottom < top + height / 2.0
    requires AtBottom(scrollTop, clientHeight, scrollHeight)
    ensures Decide(delta, elementBottom, top, height, scrollTop, clientHeight, scrollHeight) != PinNextFrame
  {
  }

  /** The `.messages` container as the two functions see it. */
  class Container {
    var scrollTop: real
    var clientHeight: real
    var scrollHeight: real
    /** Animation-frame callbacks still waiting to pin the list. */
    var pendingPins: nat

    constructor (scrollTop: real, clientHeight: real, scrollHeight: real)
      ensures this.scrollTop == scrollTop && this.clientHeight == clientHeight && this.scrollHeight == scrollHeight
      ensures pendingPins == 0
    {
      this.scrollTop := scrollTop;
      this.clientHeight := clientHeight;
      this.scrollHeight := scrollHeight;
      pendingPins := 0;
    }

    predicate IsAtBottom()
      reads this
    {
      AtBottom(scrollTop, clientHeight, scrollHeight)
    }

    /** `compensateScroll(delta, elementRect)` with the container's box at
        `top` and `height`. The scroll offset moves only by `delta`, and only
        for an element above the middle; otherwise a list at its bottom gets
        one pin scheduled. */
    method CompensateScroll(delta: real, elementBottom: real, top: real, height: real)
      modifies this
      ensures clientHeight == old(clientHeight) && scrollHeight == old(scrollHeight)
      ensures delta == 0.0 ==> scrollTop == old(scrollTop) && pendingPins == old(pendingPins)
      ensures delta != 0.0 && elementBottom < top + height / 2.0 ==>
        scrollTop == old(scrollTop) + delta && pendingPins == old(pendingPins)
      ensures delta != 0.0 && elementBottom >= top + height / 2.0 ==>
        scrollTop == old(scrollTop) &&
        pendingPins == old(pendingPins) + (if old(IsAtBottom()) then 1 else 0)
    {
      if delta == 0.0 {
        return;
      }
      var viewCenter := top + height / 2.0;
      var isAboveCenter := elementBottom < viewCenter;
      var isAtBottom := scrollTop + clientHeight >= scrollHeight - BottomSlack;
      if isAboveCenter {
        scrollTop := scrollTop + delta;
      } else if isAtBottom {
        pendingPins := pendingPins + 1;
      }
    }

    /** The content has been laid out again with a new scroll height. */
    method Resized(newScrollHeight: real)
      modifies this
      ensures scrollHeight == newScrollHeight
      ensures scrollTop == old(scrollTop) && clientHeight == old(clientHeight) && pendingPins == old(pendingPins)
    {
      scrollHeight := newScrollHeight;
    }

    /** The next animation frame runs every scheduled pin, each setting the
        offset to the scroll height of that moment. */
    method AnimationFrame()
      modifies this
      ensures pendingPins == 0
      ensures scrollTop == if old(pendingPins) > 0 then scrollHeight else old(scrollTop)
      ensures clientHeight == old(clientHeight) && scrollHeight == old(scrollHeight)
      ensures old(pendingPins) > 0 && clientHeight >= 0.0 ==> IsAtBottom()
    {
      if pendingPins > 0 {
        scrollTop := scrollHeight;
      }
      pendingPins := 0;
    }

    /** `stayAtBottomIfNeeded`: a list read to its bottom is pinned there,
        any other list is left alone. */
    method StayAtBottomIfNeeded()
      modifies this
      ensures scrollTop == if old(IsAtBottom()) then scrollHeight else old(scrollTop)
      ensures clientHeight == old(clientHeight) && scrollHeight == old(scrollHeight) && pendingPins == old(pendingPins)
      ensures clientHeight >= 0.0 ==> (IsAtBottom() <==> old(IsAtBottom()))
    {
      var isAtBottom := scrollTop + clientHeight >= scrollHeight - BottomSlack;
      if isAtBottom {
        scrollTop := scrollHeight;
      }
    }
  }

  /** The method agrees with the decision function: it shifts exactly when
      the decision is a shift and schedules a pin exactly when it is a pin. */
  method CompensateAsDecided(c: Container, delta: real, elementBottom: real, top: real, height: real)
    returns (d: Compensation)
    modifies c
    ensures d == Decide(delta, elementBottom, top, height, old(c.scrollTop), old(c.clientHeight), old(c.scrollHeight))
    ensures d.Shift? ==> c.scrollTop == old(c.scrollTop) + d.delta && c.pendingPins == old(c.pendingPins)
    ensures d == PinNextFrame ==> c.scrollTop == old(c.scrollTop) && c.pendingPins == old(c.pendingPins) + 1
    ensures d == Unchanged ==> c.scrollTop == old(c.scrollTop) && c.pendingPins == old(c.pendingPins)
  {
    d := Decide(delta, elementBottom, top, height, c.scrollTop, c.clientHeight, c.scrollHeight);
    c.CompensateScroll(delta, elementBottom, top, height);
  }

  /** A list read at its bottom stays there across a size change below the
      middle: the pin scheduled before the change runs on the next frame,
      after the content has been laid out again, and scrolls to the new
      height. */
  method ResizeBelowCentreAtBottom(c: Container, delta: real, elementBottom: real, top: real, height: real)
    requires delta != 0.0 && elementBottom >= top + height / 2.0
    requires c.IsAtBottom() && c.clientHeight >= 0.0
    modifies c
    ensures c.scrollTop == old(c.scrollHeight) + delta && c.scrollHeight == old(c.scrollHeight) + delta
    ensures c.IsAtBottom() && c.pendingPins == 0
  {
    c.CompensateScroll(delta, elementBottom, top, height);
    c.Resized(c.scrollHeight + delta);
    c.AnimationFrame();
  }
}
