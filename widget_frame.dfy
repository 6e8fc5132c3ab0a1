/** The inline widget frame of a chat message: a placeholder until the
    container comes near the viewport, then a sandboxed iframe whose height
    follows its document, clamped to [60, 5000] pixels. Measured document
    heights and intersection entries arrive as parameters; the observers
    that deliver them are left out. */
module WidgetFrame {
  import opened Common

  const MinHeight: int := 60
  const MaxHeight: int := 5000
  const DefaultHeight: int := 100

  /** `Math.ceil`: the least integer not below `x`. */
  function Ceil(x: real): (c: int)
    ensures x <= c as real < x + 1.0
  {
    if x.Floor as real == x then x.Floor else x.Floor + 1
  }

  /** `Math.min(Math.max(h, 60), 5000)`. */
  function Clamp(h: int): (r: int)
    ensures MinHeight <= r <= MaxHeight
    ensures MinHeight <= h <= MaxHeight ==> r == h
    ensures h < MinHeight ==> r == MinHeight
    ensures h > MaxHeight ==> r == MaxHeight
  {
    if h < MinHeight then MinHeight else if h > MaxHeight then MaxHeight else h
  }

  /** The clamp picks the height in range nearest to the one asked for. */
  lemma ClampNearest(h: int, v: int)
    requires MinHeight <= v <= MaxHeight
    ensures (if Clamp(h) >= h then Clamp(h) - h else h - Clamp(h)) <= (if v >= h then v - h else h - v)
  {
  }

  /** The height applied for a measured document height. */
  function AppliedHeight(measured: real): (h: int)
    ensures MinHeight <= h <= MaxHeight
  {
    Clamp(Ceil(measured))
  }

  /** A measured height already in range is applied rounded up and nothing
      more. */
  lemma AppliedInRange(measured: real)
    requires MinHeight as real <= measured <= MaxHeight as real
    ensures AppliedHeight(measured) == Ceil(measured)
  {
  }

  predicate IsDataUrl(src: string) {
    StartsWith(src, "data:")
  }

  /** The sandbox attribute: a `data:` document gets scripts only, any other
      source also keeps its origin. */
  function Sandbox(src: string): (r: string)
    ensures IsDataUrl(src) <==> r == "allow-scripts"
    ensures !IsDataUrl(src) ==> r == "allow-scripts allow-same-origin"
  {
    if IsDataUrl(src) then "allow-scripts" else "allow-scripts allow-same-origin"
  }

  /** What the container shows: the placeholder, or the iframe, each at the
      current height. */
  datatype View = Placeholder(height: int) | Iframe(src: string, sandbox: string, height: int)

  class Widget {
    const src: string
    var visible: bool
    /** The `height` signal, which both elements' style bind to. */
    var height: int
    var previousHeight: int
    /** The inline style height `updateHeight` writes on the iframe. */
    var styleHeight: int
    /** Whether the iframe element has been created (its ref is kept). */
    var hasIframe: bool
    /** Whether a resize observer watches the frame's document body. */
    var observing: bool
    /** Number of loads that injected the auto-height style. */
    var styledLoads: nat
    /** Number of times a new height was written to the style and signal. */
    var heightWrites: nat

    /** The three copies of the height agree and stay in range; documents
        with an opaque origin are never observed. */
    ghost predicate Valid()
      reads this
    {
      previousHeight == height && styleHeight == height &&
      MinHeight <= height <= MaxHeight &&
      (observing ==> hasIframe && !IsDataUrl(src)) &&
      (visible ==> hasIframe)
    }

    /** The iframe is rendered iff the container is visible. */
    function Render(): (v: View)
      reads this
      ensures v.Iframe? <==> visible
      ensures v.height == height
      ensures v.Iframe? ==> v.src == src && v.sandbox == Sandbox(src)
    {
      if visible then Iframe(src, Sandbox(src), height) else Placeholder(height)
    }

    constructor (src: string)
      ensures Valid() && this.src == src
      ensures !visible && !hasIframe && !observing && styledLoads == 0 && heightWrites == 0
      ensures height == DefaultHeight && previousHeight == DefaultHeight && styleHeight == DefaultHeight
    {
      this.src := src;
      visible := false;
      height := DefaultHeight;
      previousHeight := DefaultHeight;
      styleHeight := DefaultHeight;
      hasIframe := false;
      observing := false;
      styledLoads := 0;
      heightWrites := 0;
    }

    /** The intersection observer's callback: visibility follows the entry,
        and a first showing creates the iframe. */
    method OnIntersection(isIntersecting: bool)
      requires Valid()
      modifies this
      ensures Valid()
      ensures visible == isIntersecting && hasIframe == (old(hasIframe) || isIntersecting)
      ensures height == old(height) && previousHeight == old(previousHeight) && styleHeight == old(styleHeight)
      ensures observing == old(observing) && styledLoads == old(styledLoads) && heightWrites == old(heightWrites)
    {
      visible := isIntersecting;
      if isIntersecting {
        hasIframe := true;
      }
    }

    /** `updateHeight` with the document's measured height; `hasBody` is
        false when the document or its body is not there. An unchanged
        clamped height changes nothing. */
    method UpdateHeight(hasBody: bool, measured: real)
      requires Valid()
      modifies this
      ensures Valid()
      ensures visible == old(visible) && hasIframe == old(hasIframe) && observing == old(observing)
      ensures styledLoads == old(styledLoads)
      ensures !hasIframe || !hasBody ==> height == old(height) && heightWrites == old(heightWrites)
      ensures hasIframe && hasBody ==> height == AppliedHeight(measured)
      ensures hasIframe && hasBody ==>
        heightWrites == old(heightWrites) + (if AppliedHeight(measured) == old(height) then 0 else 1)
    {
      if !hasIframe {
        return;
      }
      if !hasBody {
        return;
      }
      var h := Clamp(Ceil(measured));
      if h == previousHeight {
        return;
      }
      previousHeight := h;
      styleHeight := h;
      height := h;
      heightWrites := heightWrites + 1;
    }

    /** `handleLoad`: drop the old observer; for a document whose origin is
        readable and that has a body, inject the auto-height style, observe
        it and measure it once. */
    method HandleLoad(hasBody: bool, measured: real)
      requires Valid() && hasIframe
      modifies this
      ensures Valid()
      ensures visible == old(visible) && hasIframe
      ensures IsDataUrl(src) || !hasBody ==>
        !observing && height == old(height) && styledLoads == old(styledLoads) && heightWrites == old(heightWrites)
      ensures !IsDataUrl(src) && hasBody ==>
        observing && styledLoads == old(styledLoads) + 1 && height == AppliedHeight(measured) &&
        heightWrites == old(heightWrites) + (if AppliedHeight(measured) == old(height) then 0 else 1)
    {
      observing := false;
      if IsDataUrl(src) {
        return;
      }
      if !hasBody {
        return;
      }
      styledLoads := styledLoads + 1;
      observing := true;
      UpdateHeight(hasBody, measured);
    }
  }
}
