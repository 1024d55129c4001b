/** The drop-down menu component: a closed box showing the bound parameter's
    value that expands into one row per option, driven by pointer and key
    input and kept in step with the parameter through its change callback. */
module DropMenu {
  import opened MenuGeometry
  import opened Parameters

  /** The keys the menu reacts to; every other key is `Other`. */
  datatype Key = Enter | Space | Escape | ArrowDown | ArrowUp | Other

  class UIDropMenu {
    var parameter: DiscreteParameter
    var expanded: bool
    var direction: Direction
    const closedY: int
    const closedHeight: int
    var highlight: int
    var options: Option<seq<string>>

    // Bounding box inherited from the host component.
    var x: int
    var y: int
    var width: int
    var height: int

    /** The object invariant: a positive row height, a well-formed bound
        parameter with this menu among its listeners, and, while closed,
        exactly the geometry captured at construction. */
    ghost predicate Valid()
      reads this, parameter
    {
      closedHeight > 0 && parameter.Valid() && this in parameter.listeners &&
      (!expanded ==> y == closedY && height == closedHeight)
    }

    /** While expanded, the box is the expanded box for the current direction
        and range, and the highlight names a valid value. Rebinding the
        parameter or changing the direction mid-expansion can break this. */
    ghost predicate Coherent()
      reads this, parameter
      requires Valid()
    {
      expanded ==>
        Bounds(y, height) == ExpandedBounds(direction, closedY, closedHeight, parameter.range) &&
        0 <= highlight < parameter.range
    }

    constructor (x0: int, y0: int, w: int, h: int, p: DiscreteParameter)
      requires h > 0 && p.Valid()
      modifies p`listeners
      ensures Valid() && Coherent()
      ensures parameter == p && options == p.options
      ensures !expanded && direction == Down && highlight == -1
      ensures x == x0 && y == y0 && width == w && height == h
      ensures closedY == y0 && closedHeight == h
      ensures p.listeners == old(p.listeners) + {this}
    {
      x, y, width, height := x0, y0, w, h;
      closedY, closedHeight := y0, h;
      expanded, direction, highlight := false, Down, -1;
      parameter := p;
      options := p.options;
      new;
      p.AddListener(this);
    }

    /** Rebinds the menu: unsubscribes from the old parameter, takes the new
        one's labels and subscribes to it. Expansion and highlight are kept. */
    method SetParameter(p: DiscreteParameter)
      requires Valid() && p.Valid()
      modifies this`parameter, this`options, parameter`listeners, p`listeners
      ensures Valid()
      ensures parameter == p && options == p.options
      ensures p.listeners == old(p.listeners) + {this}
      ensures old(parameter) != p ==> old(parameter).listeners == old(parameter.listeners) - {this}
      ensures old(Coherent()) && p.range == old(parameter.range) ==> Coherent()
    {
      parameter.RemoveListener(this);
      parameter := p;
      SetOptions(p.options);
      parameter.AddListener(this);
    }

    /** The change callback: mirrors the parameter's value into the highlight. */
    method OnParameterChanged()
      requires Valid()
      modifies this`highlight
      ensures Valid()
      ensures highlight == parameter.value
      ensures old(Coherent()) ==> Coherent()
    {
      highlight := parameter.value;
    }

    method SetDirection(d: Direction)
      requires Valid()
      modifies this`direction
      ensures Valid() && direction == d
      ensures !expanded || d == old(direction) ==> (old(Coherent()) ==> Coherent())
    {
      direction := d;
    }

    method SetOptions(o: Option<seq<string>>)
      modifies this`options
      ensures options == o
    {
      options := o;
    }

    /** Moves between closed and expanded, recomputing the box; asking for
        the state the menu is already in changes nothing. */
    method SetExpanded(b: bool)
      requires Valid()
      modifies this`expanded, this`highlight, this`y, this`height
      ensures Valid() && expanded == b
      ensures old(expanded) == b ==>
                y == old(y) && height == old(height) && highlight == old(highlight)
      ensures !old(expanded) && b ==>
                highlight == parameter.value &&
                height == closedHeight * (parameter.range + 1) &&
                (direction == Up ==> y == closedY - closedHeight * parameter.range) &&
                (direction == Down ==> y == old(y))
      ensures old(expanded) && !b ==>
                y == closedY && height == closedHeight && highlight == old(highlight)
      ensures old(expanded) != b || old(Coherent()) ==> Coherent()
    {
      if expanded != b {
        expanded := b;
        if b {
          highlight := parameter.value;
          if direction == Up {
            y := closedY - closedHeight * parameter.range;
          }
          height := closedHeight * (parameter.range + 1);
        } else {
          y := closedY;
          height := closedHeight;
        }
      }
    }

    method ToggleExpanded()
      requires Valid()
      modifies this`expanded, this`highlight, this`y, this`height
      ensures Valid() && Coherent()
      ensures expanded == !old(expanded)
      ensures expanded ==> highlight == parameter.value
      ensures !expanded ==> highlight == old(highlight)
    {
      SetExpanded(!expanded);
    }

    /** A press expands a closed menu. On an expanded menu it commits the
        highlight when the pointer is over an option row, then collapses. The
        change callback runs when the commit changes the value. */
    method OnMousePressed(my: int)
      requires Valid()
      modifies this`expanded, this`highlight, this`y, this`height, parameter`value
      ensures Valid() && Coherent()
      ensures expanded == !old(expanded)
      ensures !old(expanded) ==>
                parameter.value == old(parameter.value) && highlight == parameter.value
      ensures old(expanded) ==> y == closedY && height == closedHeight
      ensures old(expanded) && SelectedIndex(direction, closedHeight, old(height), my) >= 0 ==>
                highlight == (if parameter.value != old(parameter.value) then parameter.value
                              else old(highlight)) &&
                (0 <= old(highlight) < parameter.range ==>
                   parameter.value == old(highlight) && highlight == parameter.value)
      ensures old(expanded) && SelectedIndex(direction, closedHeight, old(height), my) < 0 ==>
                parameter.value == old(parameter.value) && highlight == old(highlight)
    {
      if !expanded {
        ToggleExpanded();
      } else {
        var selected := SelectedIndex(direction, closedHeight, height, my);
        if selected >= 0 {
          var changed := parameter.SetValue(highlight);
          if changed {
            OnParameterChanged();
          }
        }
        ToggleExpanded();
      }
    }

    /** Hovering an option row highlights it; hovering the header keeps the
        previous highlight. */
    method OnMouseMoved(my: int)
      requires Valid()
      modifies this`highlight
      ensures Valid()
      ensures var sel := SelectedIndex(direction, closedHeight, height, my);
              highlight == if sel >= 0 then sel else old(highlight)
      ensures !expanded && 0 <= my < height ==> highlight == old(highlight)
      ensures old(Coherent()) && 0 <= my < height ==> Coherent()
    {
      var selected := SelectedIndex(direction, closedHeight, height, my);
      if !expanded && 0 <= my < height {
        ClosedHitIsNone(direction, closedHeight, my);
      }
      if expanded && 0 <= my < height && Coherent() {
        ExpandedHitInRange(direction, closedHeight, parameter.range, my);
      }
      if selected >= 0 && highlight != selected {
        highlight := selected;
      }
    }

    /** Enter and Space toggle, Escape closes, the arrow keys step the
        parameter (the change callback runs when the step changes the value);
        exactly these five keys are consumed. */
    method OnKeyPressed(k: Key) returns (consumed: bool)
      requires Valid()
      modifies this`expanded, this`highlight, this`y, this`height, parameter`value
      ensures Valid()
      ensures consumed <==> k != Other
      ensures (k == Enter || k == Space) ==>
                expanded == !old(expanded) && Coherent() &&
                parameter.value == old(parameter.value) &&
                highlight == (if expanded then parameter.value else old(highlight))
      ensures k == Escape ==>
                !expanded && Coherent() &&
                parameter.value == old(parameter.value) && highlight == old(highlight)
      ensures k == Escape && !old(expanded) ==> y == old(y) && height == old(height)
      ensures (k == ArrowDown || k == ArrowUp) ==>
                expanded == old(expanded) && y == old(y) && height == old(height) &&
                highlight == (if parameter.value != old(parameter.value) then parameter.value
                              else old(highlight)) &&
                (old(Coherent()) ==> Coherent())
      ensures k == ArrowDown && old(parameter.value) + 1 < parameter.range ==>
                parameter.value == old(parameter.value) + 1
      ensures k == ArrowUp && 0 < old(parameter.value) ==>
                parameter.value == old(parameter.value) - 1
      ensures k == Other ==>
                expanded == old(expanded) && highlight == old(highlight) &&
                y == old(y) && height == old(height) && parameter.value == old(parameter.value)
    {
      match k
      case Enter =>
        consumed := true;
        ToggleExpanded();
      case Space =>
        consumed := true;
        ToggleExpanded();
      case Escape =>
        consumed := true;
        SetExpanded(false);
      case ArrowDown =>
        consumed := true;
        var changed := parameter.Increment();
        if changed {
          OnParameterChanged();
        }
      case ArrowUp =>
        consumed := true;
        var changed := parameter.Decrement();
        if changed {
          OnParameterChanged();
        }
      case Other =>
        consumed := false;
    }
  }

  /** Two toggles from closed bring the menu back to its closed box, with the
      highlight re-synchronised to the parameter by the expansion. */
  method ToggleTwice(m: UIDropMenu)
    requires m.Valid() && !m.expanded
    modifies m`expanded, m`highlight, m`y, m`height
    ensures m.Valid() && !m.expanded
    ensures m.y == old(m.y) && m.height == old(m.height)
    ensures m.highlight == m.parameter.value
  {
    m.ToggleExpanded();
    m.ToggleExpanded();
  }

  /** Pointing at an option row and then pressing there commits that row:
      the hover puts the row into the highlight that the press commits. */
  method HoverThenPress(m: UIDropMenu, my: int)
    requires m.Valid() && m.expanded && m.Coherent()
    requires 0 <= my < m.height
    requires SelectedIndex(m.direction, m.closedHeight, m.height, my) >= 0
    modifies m`expanded, m`highlight, m`y, m`height, m.parameter`value
    ensures m.Valid() && !m.expanded
    ensures m.parameter.value == SelectedIndex(old(m.direction), m.closedHeight, old(m.height), my)
    ensures m.highlight == m.parameter.value
  {
    m.OnMouseMoved(my);
    m.OnMousePressed(my);
  }
}
