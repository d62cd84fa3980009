/** The widget registry (name to freshly constructed widget) and the
    dispatch of each operation to the payload of the matching variant. */
module WrapperWidgets {
  import opened Errors
  import opened Nodes
  import WrapperLayout
  import WrapperParagraph

  /** Constructs the widget registered under `name`. The lookup is exact,
      case included; an unregistered name aborts. */
  function FromName(name: string): (r: Outcome<Widget>)
    ensures r.Done? <==> name == "Layout" || name == "Paragraph"
    ensures r.Done? ==> KindName(r.value) == name && r.value == Blank(r.value)
    ensures !r.Done? ==> r == Panicked(UnknownWidget(name))
  {
    match name
    case "Layout" => Done(Layout(WrapperLayout.Default()))
    case "Paragraph" => Done(Paragraph(WrapperParagraph.Default()))
    case _ => Panicked(UnknownWidget(name))
  }

  /** Sets an attribute on the payload. The variant never changes and the
      outcome is the payload's own. */
  function LoadValue(w: Widget, k: string, v: string, line: nat): (r: Outcome<Widget>)
    ensures !r.Panicked?
    ensures r.Done? ==> SameKind(r.value, w)
    ensures r.Failed? ==> r.error.line == line
    ensures w.Layout? ==>
      var o := WrapperLayout.LoadValue(w.layout, k, v, line);
      (r.Done? <==> o.Done?) && (r.Done? ==> r.value == Layout(o.value)) && (r.Failed? ==> r.error == o.error)
    ensures w.Paragraph? ==>
      var o := WrapperParagraph.LoadValue(w.paragraph, k, v, line);
      (r.Done? <==> o.Done?) && (r.Done? ==> r.value == Paragraph(o.value)) && (r.Failed? ==> r.error == o.error)
  {
    match w
    case Layout(l) =>
      var l' :- WrapperLayout.LoadValue(l, k, v, line);
      Done(Layout(l'))
    case Paragraph(p) =>
      var p' :- WrapperParagraph.LoadValue(p, k, v, line);
      Done(Paragraph(p'))
  }

  /** Adds a child through the payload: a Layout appends it, a Paragraph
      refuses it. */
  function AddChild(w: Widget, child: Widget, line: nat): (r: Outcome<Widget>)
    ensures w.Layout? ==> r.Done? && r.value == Layout(w.layout.(children := w.layout.children + [child]))
    ensures w.Paragraph? ==> r == Failed(AddWidgetToNonContainer(line))
  {
    match w
    case Layout(l) => Done(Layout(WrapperLayout.AddChild(l, child, line).value))
    case Paragraph(p) => Failed(WrapperParagraph.AddChild(p, child, line).error)
  }

  /** The registry and the kind names agree: resolving a widget's kind name
      yields a fresh widget of that kind. */
  lemma RegistryRoundTrip(w: Widget)
    ensures FromName(KindName(w)) == Done(Blank(w))
  {
  }

  /** The lookup is case sensitive. */
  lemma LowerCaseNameAborts()
    ensures FromName("layout") == Panicked(UnknownWidget("layout"))
    ensures FromName("paragraph") == Panicked(UnknownWidget("paragraph"))
  {
  }
}
