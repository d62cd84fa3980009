/** The widget tree. The two wrapper structs and the enum over them refer to
    each other, so their types are declared together here; the operations of
    each live in the module named after its source file. */
module Nodes {

  /** The layout axis; `Vertical` is the default of the rendering library. */
  datatype Direction = Horizontal | Vertical

  const DefaultDirection: Direction := Vertical

  /** The registered widget kinds, each owning its wrapper state. */
  datatype Widget = Layout(layout: LayoutState) | Paragraph(paragraph: ParagraphState)

  /** A container: its axis and its children in render order. */
  datatype LayoutState = LayoutState(direction: Direction, children: seq<Widget>)

  /** A leaf: the raw text value, quotes included, as the template gave it. */
  datatype ParagraphState = ParagraphState(text: string)

  /** The registry name of a widget's kind. */
  function KindName(w: Widget): string {
    match w
    case Layout(_) => "Layout"
    case Paragraph(_) => "Paragraph"
  }

  predicate SameKind(a: Widget, b: Widget) {
    a.Layout? == b.Layout?
  }

  /** The freshly constructed widget of the same kind as `w`. */
  function Blank(w: Widget): Widget {
    match w
    case Layout(_) => Layout(LayoutState(DefaultDirection, []))
    case Paragraph(_) => Paragraph(ParagraphState(""))
  }

  /** Number of nodes in the tree, a termination measure for tree walks. */
  function Size(w: Widget): nat {
    match w
    case Layout(l) => 1 + SizeAll(l.children)
    case Paragraph(_) => 1
  }

  function SizeAll(cs: seq<Widget>): nat {
    if cs == [] then 0 else Size(cs[0]) + SizeAll(cs[1..]) + 1
  }
}
