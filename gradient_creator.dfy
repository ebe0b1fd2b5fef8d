/**
  The widget (js/GradientCreator.js:11-161): the stops shown in the preview,
  which one is being dragged and which one is selected, and the handlers that
  the mouse, touch and colour-picker events run.
*/
module GradientCreator {

  import opened Wrappers
  import opened Gradient
  import opened Pointer

  /**
    A stop's element in the preview: its position (`style.top` as a fraction),
    its colour, and whether it carries the selection border.
  */
  datatype StopElement<C> = StopElement(pos: real, color: C, outlined: bool)

  /** `INITIAL_STOPS`: black at the top, white at the bottom. */
  function InitialStops<C>(black: C, white: C): (r: seq<Stop<C>>)
    ensures |r| == 2 && SortedByPos(r)
    ensures r[0].pos == 0.0 && r[0].color == black
    ensures r[1].pos == 1.0 && r[1].color == white
  {
    [Stop(0.0, black), Stop(1.0, white)]
  }

  /** The `{pos, color}` record `getStops` reads off each element, in element order. */
  function StopsOf<C>(elements: seq<StopElement<C>>): (r: seq<Stop<C>>)
    ensures |r| == |elements|
    ensures forall i :: 0 <= i < |elements| ==> r[i].pos == elements[i].pos && r[i].color == elements[i].color
  {
    seq(|elements|, i requires 0 <= i < |elements| => Stop(elements[i].pos, elements[i].color))
  }

  /** Elements whose positions and colours agree give the same stops, whatever their borders. */
  lemma StopsOfIgnoresBorders<C>(a: seq<StopElement<C>>, b: seq<StopElement<C>>)
    requires |a| == |b|
    requires forall i :: 0 <= i < |a| ==> a[i].pos == b[i].pos && a[i].color == b[i].color
    ensures StopsOf(a) == StopsOf(b)
  {
  }

  class Creator<C> {

    /** How colours and numbers are written into the CSS string. */
    const fmt: Format<C>
    /** The stop elements, in the order they were appended to the preview. */
    var elements: seq<StopElement<C>>
    /** `_draggingStop`, as an index into `elements`. */
    var dragging: Option<nat>
    /** `_selectedStop`, as an index into `elements`. */
    var selected: Option<nat>
    /** The preview's `style.background`. */
    var background: string

    /**
      Both handles name existing stops, exactly the selected stop carries the
      border, every position lies in [0, 1], and the preview shows the gradient
      of the current stops.
    */
    ghost predicate Valid()
      reads this
    {
      && (dragging.Some? ==> dragging.value < |elements|)
      && (selected.Some? ==> selected.value < |elements|)
      && (forall i :: 0 <= i < |elements| ==> (elements[i].outlined <==> selected.Some? && selected.value == i))
      && (forall i :: 0 <= i < |elements| ==> 0.0 <= elements[i].pos <= 1.0)
      && background == RenderGradient(fmt, StopsOf(elements))
    }

    /** `new GradientCreator(container)`: the two initial stops, nothing dragged or selected, rendered. */
    constructor (black: C, white: C, fmt: Format<C>)
      ensures Valid()
      ensures this.fmt == fmt
      ensures StopsOf(elements) == InitialStops(black, white)
      ensures dragging == None && selected == None
    {
      this.fmt := fmt;
      elements := [];
      dragging := None;
      selected := None;
      background := "";
      new;
      var initial := InitialStops(black, white);
      for k := 0 to |initial|
        invariant StopsOf(elements) == initial[..k]
        invariant forall i :: 0 <= i < |elements| ==> !elements[i].outlined && 0.0 <= elements[i].pos <= 1.0
        invariant dragging == None && selected == None
      {
        CreateStop(initial[k]);
        assert StopsOf(elements) == initial[..k + 1];
      }
      Rerender();
    }

    /** `createStop`: appends an element for `stop`, without a border. */
    method CreateStop(stop: Stop<C>)
      modifies this`elements
      ensures elements == old(elements) + [StopElement(stop.pos, stop.color, false)]
    {
      elements := elements + [StopElement(stop.pos, stop.color, false)];
    }

    /**
      `getStops`: one `{pos, color}` per element, sorted by non-decreasing position,
      stops at equal positions in element order.
    */
    method GetStops() returns (stops: seq<Stop<C>>)
      ensures SortedByPos(stops)
      ensures multiset(stops) == multiset(StopsOf(elements))
      ensures forall p :: AtPos(stops, p) == AtPos(StopsOf(elements), p)
      ensures stops == SortByPos(StopsOf(elements))
      ensures Valid() ==> forall i :: 0 <= i < |stops| ==> 0.0 <= stops[i].pos <= 1.0
    {
      stops := [];
      var key := 0;
      while key < |elements|
        invariant 0 <= key <= |elements|
        invariant stops == StopsOf(elements)[..key]
      {
        stops := stops + [Stop(elements[key].pos, elements[key].color)];
        key := key + 1;
      }
      assert stops == StopsOf(elements);
      forall p {
        SortByPosStable(stops, p);
      }
      stops := SortByPos(stops);
      if Valid() {
        forall i | 0 <= i < |stops| ensures 0.0 <= stops[i].pos <= 1.0 {
          assert stops[i] in multiset(StopsOf(elements));
        }
      }
    }

    /** `rerender`: writes the gradient of the sorted stops into the preview's background. */
    method Rerender()
      modifies this`background
      ensures background == RenderGradient(fmt, StopsOf(elements))
    {
      var stops := GetStops();
      var parsedStops := Entries(fmt, stops);
      background := GRADIENT_PREFIX + Join(parsedStops, ",") + ")";
    }

    /** `deselectStops`: clears every element's border, then forgets the selection. */
    method DeselectStops()
      requires Valid()
      modifies this`elements, this`selected
      ensures Valid()
      ensures selected == None
      ensures |elements| == |old(elements)|
      ensures forall i :: 0 <= i < |elements| ==> elements[i] == old(elements[i]).(outlined := false)
      ensures StopsOf(elements) == old(StopsOf(elements))
    {
      var key := 0;
      while key < |elements|
        invariant 0 <= key <= |elements| == |old(elements)|
        invariant forall j :: 0 <= j < key ==> elements[j] == old(elements[j]).(outlined := false)
        invariant forall j :: key <= j < |elements| ==> elements[j] == old(elements[j])
      {
        elements := elements[key := elements[key].(outlined := false)];
        key := key + 1;
      }
      selected := None;
      StopsOfIgnoresBorders(elements, old(elements));
    }

    /** `selectStop`: deselects everything, then selects and outlines stop `h` alone. */
    method SelectStop(h: nat)
      requires Valid() && h < |elements|
      modifies this`elements, this`selected
      ensures Valid()
      ensures selected == Some(h)
      ensures forall i :: 0 <= i < |elements| ==> (elements[i].outlined <==> i == h)
      ensures StopsOf(elements) == old(StopsOf(elements))
    {
      DeselectStops();
      selected := Some(h);
      elements := elements[h := elements[h].(outlined := true)];
      StopsOfIgnoresBorders(elements, old(elements));
    }

    /** `mousedown` / `touchstart` on stop `h`: it becomes both the dragged and the selected stop. */
    method Press(h: nat)
      requires Valid() && h < |elements|
      modifies this`elements, this`selected, this`dragging
      ensures Valid()
      ensures dragging == Some(h) && selected == Some(h)
      ensures StopsOf(elements) == old(StopsOf(elements))
    {
      dragging := Some(h);
      SelectStop(h);
    }

    /** `click` on stop `h`: deselects, then selects `h`; the drag is left alone. */
    method Click(h: nat)
      requires Valid() && h < |elements|
      modifies this`elements, this`selected
      ensures Valid()
      ensures selected == Some(h)
      ensures StopsOf(elements) == old(StopsOf(elements))
    {
      DeselectStops();
      SelectStop(h);
    }

    /** `mouseup` / `touchend` anywhere: the drag ends, the selection stays. */
    method Release()
      requires Valid()
      modifies this`dragging
      ensures Valid()
      ensures dragging == None
    {
      dragging := None;
    }

    /**
      `mousemove` / `touchmove` anywhere: while a stop is dragged, it moves to the
      clamped relative height of the event and the preview is redrawn; otherwise
      nothing happens. `project` is the division by the preview's bounding rectangle.
    */
    method Move(e: PointerEvent, project: real -> real)
      requires Valid()
      modifies this`elements, this`background
      ensures Valid()
      ensures old(dragging).None? ==> elements == old(elements) && background == old(background)
      ensures old(dragging).Some? ==>
        var d := old(dragging).value;
        elements == old(elements)[d := old(elements)[d].(pos := Clamp(RelativeHeight(e, project)))]
    {
      if dragging.None? {
        return;
      }
      var relativeHeight := RelativeHeight(e, project);
      relativeHeight := Clamp(relativeHeight);
      var d := dragging.value;
      ghost var before := elements;
      elements := elements[d := elements[d].(pos := relativeHeight)];
      assert forall i :: 0 <= i < |elements| ==>
        elements[i].outlined == before[i].outlined && 0.0 <= elements[i].pos <= 1.0;
      Rerender();
    }

    /** The colour picker's `move`: recolours the selected stop and redraws; nothing when no stop is selected. */
    method ColorMove(color: C)
      requires Valid()
      modifies this`elements, this`background
      ensures Valid()
      ensures old(selected).None? ==> elements == old(elements) && background == old(background)
      ensures old(selected).Some? ==>
        var s := old(selected).value;
        elements == old(elements)[s := old(elements)[s].(color := color)]
    {
      if selected.None? {
        return;
      }
      var s := selected.value;
      ghost var before := elements;
      elements := elements[s := elements[s].(color := color)];
      assert forall i :: 0 <= i < |elements| ==>
        elements[i].outlined == before[i].outlined && elements[i].pos == before[i].pos;
      Rerender();
    }
  }

  /**
    Press the top stop, drag it, release, then pick a colour: the colour lands on
    the stop that was dragged, because the selection outlives the drag.
  */
  method DragThenRecolor<C>(black: C, white: C, fmt: Format<C>, e: PointerEvent, project: real -> real, color: C)
    returns (stops: seq<Stop<C>>)
    ensures stops == SortByPos([Stop(Clamp(RelativeHeight(e, project)), color), Stop(1.0, white)])
  {
    var creator := new Creator(black, white, fmt);
    ghost var initial := creator.elements;
    assert |initial| == 2 && initial[1].pos == 1.0 && initial[1].color == white;
    creator.Press(0);
    ghost var pressed := creator.elements;
    assert |pressed| == 2 && pressed[1].pos == 1.0 && pressed[1].color == white;
    creator.Move(e, project);
    ghost var moved := creator.elements;
    assert moved == pressed[0 := pressed[0].(pos := Clamp(RelativeHeight(e, project)))];
    creator.Release();
    assert creator.selected == Some(0);
    creator.ColorMove(color);
    ghost var recolored := creator.elements;
    assert recolored == moved[0 := moved[0].(color := color)];
    assert StopsOf(recolored) == [Stop(Clamp(RelativeHeight(e, project)), color), Stop(1.0, white)];
    stops := creator.GetStops();
  }
}
