/** The Layout container's attribute and child operations. */
module WrapperLayout {
  import opened Errors
  import opened Nodes

  /** The attribute value that selects direction `d`. */
  function DirectionName(d: Direction): string {
    match d
    case Horizontal => "horizontal"
    case Vertical => "vertical"
  }

  /** The state of a freshly constructed Layout. */
  function Default(): LayoutState {
    LayoutState(DefaultDirection, [])
  }

  /** Sets an attribute. Only `direction` exists and it takes exactly the two
      lower-case axis names; failure returns no state, so the caller keeps
      the old one. */
  function LoadValue(l: LayoutState, k: string, v: string, line: nat): (r: Outcome<LayoutState>)
    ensures r.Done? <==> k == "direction" && (v == DirectionName(Horizontal) || v == DirectionName(Vertical))
    ensures r.Done? ==> DirectionName(r.value.direction) == v && r.value.children == l.children
    ensures k != "direction" ==> r == Failed(InvalidWidgetAttributeName(line, "Layout", k))
    ensures k == "direction" && !r.Done? ==> r == Failed(InvalidWidgetAttributeValue(line, "Layout", k, v))
  {
    match k
    case "direction" =>
      (match v
       case "horizontal" => Done(l.(direction := Horizontal))
       case "vertical" => Done(l.(direction := Vertical))
       case _ => Failed(InvalidWidgetAttributeValue(line, "Layout", k, v)))
    case _ => Failed(InvalidWidgetAttributeName(line, "Layout", k))
  }

  /** Appends a child; a container accepts every child. */
  function AddChild(l: LayoutState, child: Widget, line: nat): (r: Outcome<LayoutState>)
    ensures r.Done?
    ensures |r.value.children| == |l.children| + 1
    ensures r.value.children[..|l.children|] == l.children
    ensures r.value.children[|l.children|] == child
    ensures r.value.direction == l.direction
  {
    Done(l.(children := l.children + [child]))
  }

  /** Every direction can be written as an attribute value, and loading that
      value selects exactly that direction, touching nothing else. */
  lemma DirectionRoundTrip(l: LayoutState, d: Direction, line: nat)
    ensures LoadValue(l, "direction", DirectionName(d), line) == Done(l.(direction := d))
  {
  }

  /** Setting the direction twice is the same as setting it once to the
      second value: the last write wins and repeating a write is idempotent. */
  lemma LastDirectionWins(l: LayoutState, v1: string, v2: string, line1: nat, line2: nat)
    requires LoadValue(l, "direction", v1, line1).Done?
    ensures LoadValue(LoadValue(l, "direction", v1, line1).value, "direction", v2, line2)
         == LoadValue(l, "direction", v2, line2)
  {
  }
}
