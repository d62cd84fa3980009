/** The Paragraph leaf's attribute and child operations, and the text it
    hands to drawing. */
module WrapperParagraph {
  import opened Errors
  import opened Nodes
  import Replacements

  /** The state of a freshly constructed Paragraph: no text. */
  function Default(): ParagraphState {
    ParagraphState("")
  }

  /** Sets an attribute. Only `text` exists; its value is stored as given,
      replacing any earlier text. Failure returns no state, so the caller
      keeps the old one. */
  function LoadValue(p: ParagraphState, k: string, v: string, line: nat): (r: Outcome<ParagraphState>)
    ensures r.Done? <==> k == "text"
    ensures r.Done? ==> r.value.text == v
    ensures !r.Done? ==> r == Failed(InvalidWidgetAttributeName(line, "Paragraph", k))
  {
    match k
    case "text" => Done(p.(text := v))
    case _ => Failed(InvalidWidgetAttributeName(line, "Paragraph", k))
  }

  /** A leaf refuses every child, whatever it is. */
  function AddChild(p: ParagraphState, child: Widget, line: nat): (r: Outcome<ParagraphState>)
    ensures r == Failed(AddWidgetToNonContainer(line))
  {
    Failed(AddWidgetToNonContainer(line))
  }

  /** The text drawn for the paragraph: the stored text with the
      replacements applied and its quotes removed. */
  function DrawnText(p: ParagraphState, replacements: seq<(string, string)>): (r: Outcome<string>)
    ensures r.Done? <==> (var a := Replacements.ApplyAll(p.text, replacements); |a| >= 2 && a[0] == '"' && a[|a| - 1] == '"')
    ensures r.Done? ==> Replacements.Quote(r.value) == Replacements.ApplyAll(p.text, replacements)
    ensures !r.Done? ==> r.Panicked?
  {
    Replacements.SetReplacements(p.text, replacements)
  }

  /** Only the last `text` attribute of a block counts. */
  lemma LastTextWins(p: ParagraphState, v1: string, v2: string, line1: nat, line2: nat)
    ensures LoadValue(LoadValue(p, "text", v1, line1).value, "text", v2, line2) == LoadValue(p, "text", v2, line2)
  {
  }

  /** A paragraph that never received a `text` attribute aborts when drawn,
      whatever the replacements are. */
  lemma DefaultParagraphAborts(replacements: seq<(string, string)>)
    ensures DrawnText(Default(), replacements) == Panicked(MissingQuote(""))
  {
    Replacements.EmptyTextAborts(replacements);
  }
}
