/** Outcomes of the template loader: a value, one of the parser errors the
    widget wrappers construct, or a panic that aborts the whole program. */
module Errors {

  /** The parser errors raised by the widget wrappers. Every variant carries
      the loader's running line counter in `line`; the text fields hold the
      offending line (raw or trimmed, as the raising site passes it). */
  datatype TemplateParserError =
    | TooManyRoots(line: nat, text: string)
    | InvalidIndentation(line: nat, indent: nat, text: string)
    | LateAttribute(line: nat, text: string)
    | InvalidContext(line: nat, text: string)
    | InvalidWidgetAttributeValue(line: nat, widget: string, key: string, value: string)
    | InvalidWidgetAttributeName(line: nat, widget: string, key: string)
    | AddWidgetToNonContainer(line: nat)

  /** Conditions under which the source panics instead of returning an error. */
  datatype Panic =
    | UnknownWidget(name: string)   // the name registry has no entry for `name`
    | MissingQuote(text: string)    // quote stripping found no leading or trailing '"'

  /** A value, a recoverable parser error, or an abort. Usable with `:-`. */
  datatype Outcome<+T> = Done(value: T) | Failed(error: TemplateParserError) | Panicked(panic: Panic) {

    predicate IsFailure() {
      !Done?
    }

    function PropagateFailure<U>(): (r: Outcome<U>)
      requires !Done?
      ensures r.Failed? == Failed? && r.Panicked? == Panicked?
    {
      if Failed? then Failed(error) else Panicked(panic)
    }

    function Extract(): T
      requires Done?
    {
      value
    }
  }
}
