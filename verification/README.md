# ratatui-declare template loader, in Dafny

ratatui-declare describes a terminal user interface as an indented text
template. Each line is one of three things:

- a widget declaration, `Layout:` or `Paragraph:`, which opens a block;
- an attribute, `direction: horizontal` or `text: "..."`, which sets a value on the widget of the enclosing block;
- an empty line or a `//` comment.

The template is turned into a tree of widget wrappers. A Layout is a
container with a direction and a list of children. A Paragraph is a leaf
with a text. When a paragraph is drawn, `{{key}}` placeholders in its text
are replaced from a caller-supplied map and the text's surrounding double
quotes are removed.

This project models the core of that library as pure functions and proves
what they promise:

- `errors.dfy`: the parser's error values and the two panics of the core:
  - an unregistered widget name;
  - a drawn text without its quotes.

  `Outcome` keeps "returned an error" (`Failed`) apart from "aborted the
  program" (`Panicked`).
- `strings.dfy`: the parts of Rust's `str` API the loader uses: `trim`,
  `split_once`, `starts_with`. Each comes with lemmas that characterise it.
- `nodes.dfy`: the widget tree (the `WrapperWidgets` enum and the two wrapper
  structs).
- `wrapper_layout.dfy`, `wrapper_paragraph.dfy`, `wrapper_widgets.dfy`: each
  widget's `load_value` and `add_child`, the registry that builds a widget
  from its name, and the text a paragraph hands to drawing.
- `replacements.dfy`: `set_replacements`, with `str::replace` modelled
  exactly. Its reference meaning is proved: splitting on the placeholder and
  joining with the value. A template made of literal pieces and `{{key}}`
  holes is drawn with every hole of a listed key filled by that key's
  value, whatever the map's iteration order, as long as keys, values and
  literal pieces hold no braces.
- `loader.dfy`: `load_config`, `load_line` and `get_indentation_level`. The
  soundness lemmas state what every successful or failed block load
  guarantees.
- `loader_facts.dfy`: how the loader treats particular kinds of lines:
  - skipped lines;
  - outdented, misindented, comment-like or late lines;
  - declarations inside a paragraph;
  - sibling declarations.
- `serializer.dfy`: a writer that turns a widget tree back into template
  lines. The main round trip (`Serializer.LoadBody`) proves that the loader
  reads every written block back as the same tree.

The line counter is the `usize` threaded through the loader (`line_no`). It
is modelled as an unbounded `nat`. The hash map of replacements is a
sequence of key/value pairs in iteration order.

Behaviours of the code worth knowing:

- Only a line that is empty, or whose first two characters are `//`, is
  skipped. An indented comment or a line of spaces is judged like any other
  line. A `// note` line indented by a multiple of 4, at most one step deeper
  than the block, is an `InvalidContext` error
  (`LoaderFacts.CommentOnlyAtColumnZero`). Indented
  by a non-multiple of 4, or deeper than one step below the block, it is an
  `InvalidIndentation` error like any other line there
  (`LoaderFacts.MisindentedLine`).
- An indented comment that holds ':' is read as an attribute instead.
  Before any child, the widget rejects its key: `    // see: docs` in a
  Layout block is an `InvalidWidgetAttributeName` error for the key
  `// see`. After a child, it is a `LateAttribute` error
  (`LoaderFacts.ColonCommentIsAttribute`).
- An unknown widget name panics in the registry. It does not return an
  error value (`WrapperWidgets.FromName`).
- A child block is loaded at `indent + 4`, even for the root block at
  indentation 0. So at the top level, a second declaration at column 4
  becomes a child of the first, not its sibling. One level deeper, the same
  lines are siblings (`LoaderFacts.SiblingsDependOnBlock`).
- The error for adding a child to a Paragraph carries the line counter
  after the child's own block, not the line of the declaration
  (`LoaderFacts.ParagraphRejectsChild`).
- A child's block starts on the declaration's own line counter, because the
  counter only moves after the declaration line has been fully loaded. So
  an error in the first line under a declaration carries the declaration's
  number, and the lines of a child block are numbered behind their position
  until the enclosing block counts the declaration after that child block
  (`LoaderFacts.ChildSharesDeclarationLine`).
- The replacement pairs are applied in the hash map's iteration order, and
  that order can change the drawn text. Filling one key with the empty text
  can join the braces around it into another key's placeholder:
  `"{{{{a}}b}}"` with `a` mapped to the empty text and `b` to `X` draws `X`
  when `a` is filled first and `{{b}}` otherwise
  (`Replacements.MapOrderMatters`).

## Model

| member | source | states |
|---|---|---|
| `Strings.TrimStart` | src/widget_wrappers/wrapper_widget.rs:30 | the front half of `trim`; no ensures of its own, its meaning is stated by `Strings.TrimStartSpec` |
| `Strings.TrimEnd` | src/widget_wrappers/wrapper_widget.rs:30 | the back half of `trim`; no ensures of its own, its meaning is stated by `Strings.TrimEndSpec` |
| `Strings.TrimStartSpec` | src/widget_wrappers/wrapper_widget.rs:30 | trimming the front keeps a suffix of the line, removes only whitespace, and stops at the first character that is not whitespace |
| `Strings.TrimEndSpec` | src/widget_wrappers/wrapper_widget.rs:30 | trimming the end keeps a prefix, removes only whitespace, and stops at the last character that is not whitespace |
| `Strings.Trim` | src/widget_wrappers/wrapper_widget.rs:30 | a trimmed line has no whitespace at either end, is no longer than the line, and trimming it again changes nothing |
| `Strings.TrimIndented` | src/widget_wrappers/wrapper_widget.rs:30 | spaces of indentation in front of an already trimmed text are removed exactly, leaving that text |
| `Strings.IndexOfSpec` | src/widget_wrappers/wrapper_widget.rs:71 | the index found holds the separator and no earlier position does |
| `Strings.SplitOnce` | src/widget_wrappers/wrapper_widget.rs:71 | `split_once(':')`; no ensures of its own, its meaning is stated by `Strings.SplitOnceSpec` and `Strings.SplitAtFirst` |
| `Strings.SplitOnceSpec` | src/widget_wrappers/wrapper_widget.rs:71 | the key part, the separator and the value part put back together give the line, and the key part holds no separator |
| `Strings.SplitAtFirst` | src/widget_wrappers/wrapper_widget.rs:71 | for any key without ':' and any value, `key:value` splits back into exactly that key and value, even when the value holds more ':' |
| `Loader.IndentationLevel` | src/widget_wrappers/wrapper_widget.rs:80-90 | `get_indentation_level`; no ensures of its own, its meaning is stated by `Loader.IndentationSpec` |
| `Loader.IndentationSpec` | src/widget_wrappers/wrapper_widget.rs:80-90 | the indentation level is the length of the run of ' ' at the start of the line: every position before it is a space and the one at it is not (a tab ends the run) |
| `Loader.Skipped` | src/widget_wrappers/wrapper_widget.rs:31 | the lines the loop drops; no ensures of its own, what dropping them does is stated by `LoaderFacts.SkippedPrefix` and `LoaderFacts.CommentOnlyAtColumnZero` |
| `Loader.IsDeclaration` | src/widget_wrappers/wrapper_widget.rs:61 | a trimmed line declares a widget exactly when ':' is its suffix; such a line also contains ':', so it never reaches the attribute branch |
| `Loader.LoadConfig` | src/widget_wrappers/wrapper_widget.rs:20-51 | a loaded block never leaves more lines than it was given (its full meaning is `Loader.ConfigSound`) |
| `Loader.LoadBlock` | src/widget_wrappers/wrapper_widget.rs:27-49 | the loop over lines: never leaves more lines than it was given |
| `Loader.Advance` | src/widget_wrappers/wrapper_widget.rs:46-48 | loading a validly indented line and continuing never leaves more lines than it was given |
| `Loader.LoadLine` | src/widget_wrappers/wrapper_widget.rs:53-77 | loading one line never leaves more of the remaining lines than it was given |
| `Loader.LoadChild` | src/widget_wrappers/wrapper_widget.rs:61-66 | loading a declared child's block never leaves more of the remaining lines than it was given |
| `Loader.ConfigSound` | src/widget_wrappers/wrapper_widget.rs:20-51 | a successful load stops at the end of input or in front of the first significant line indented less than the block. Every line it consumed is skipped or indented by a non-zero multiple of 4 no less than the block. The counter has advanced by exactly the significant lines consumed. The widget kept its kind and its earlier children. A parse error names a line among the significant lines it was given. The only abort is an unregistered widget name |
| `Loader.BlockSound` | src/widget_wrappers/wrapper_widget.rs:26-50 | the same guarantees, the abort included, hold for the loop whether or not the block has already seen a child |
| `Loader.LineSound` | src/widget_wrappers/wrapper_widget.rs:53-77 | one loaded line: the lines it took along are nested one step deeper and counted. The widget only grows. The child flag is raised exactly when the line declares a widget. A parse error names a line between this one and the last line it could have consumed. The only abort is an unregistered widget name |
| `Loader.ChildSound` | src/widget_wrappers/wrapper_widget.rs:61-66 | a declaration succeeds exactly on a Layout, for a registered name whose block loads one step deeper. An unregistered name aborts with that name, and no other abort can happen. On success it appends exactly that loaded child to the children, keeps the direction, resumes after the child's block with that block's counter, and raises the child flag. Any error lies within that block's lines |
| `LoaderFacts.UnfoldFailure` | src/widget_wrappers/wrapper_widget.rs:46 | an admitted line whose loading fails makes the whole block fail with that same error |
| `LoaderFacts.SkippedPrefix` | src/widget_wrappers/wrapper_widget.rs:31-32 | empty and `//` lines in front of a block change neither its result nor the line count |
| `LoaderFacts.OutdentedLine` | src/widget_wrappers/wrapper_widget.rs:37-41 | after skipped lines, a significant line indented less than the block ends it untouched, with the line still unread. Otherwise a line at column 0 is a `TooManyRoots` error carrying the untrimmed line |
| `LoaderFacts.MisindentedLine` | src/widget_wrappers/wrapper_widget.rs:42-43 | a line indented more than one step deeper than the block, or by a non-multiple of 4, is an `InvalidIndentation` error carrying the block's indentation and the untrimmed line |
| `LoaderFacts.RootConsumesAll` | src/widget_wrappers/wrapper_widget.rs:37-41 | a block at indentation 0 that loads has consumed every line |
| `LoaderFacts.ContextlessLine` | src/widget_wrappers/wrapper_widget.rs:73-75 | any significant line the block admits whose trimmed text has no ':' is an `InvalidContext` error carrying the trimmed text, whether or not a child was seen |
| `LoaderFacts.ContextlessIndented` | src/widget_wrappers/wrapper_widget.rs:73-75 | the same for a line written as spaces before a trimmed text: a line of spaces only, an indented `//` comment and a bare word alike |
| `LoaderFacts.ChildSharesDeclarationLine` | src/widget_wrappers/wrapper_widget.rs:46-48 | the first line under a declaration is read with the declaration's own counter, so its error carries the declaration's number |
| `LoaderFacts.CommentOnlyAtColumnZero` | src/widget_wrappers/wrapper_widget.rs:31-32 | a colon-free `//` comment at column 0 is dropped, but the same comment indented into a block at indentation 4 that has seen no child is an `InvalidContext` error |
| `LoaderFacts.RejectedAttribute` | src/widget_wrappers/wrapper_widget.rs:67-72 | before any child, any significant admitted line holding ':' without ending in it, at the block's column or one step deeper and with any spacing around the ':', is split at its first ':'. When the widget rejects the trimmed halves, the whole block fails with the widget's own error |
| `LoaderFacts.RejectedAttributeText` | src/widget_wrappers/wrapper_widget.rs:67-72 | the same for an attribute line written `key: value` at the block's own column |
| `LoaderFacts.ColonCommentIsAttribute` | src/widget_wrappers/wrapper_widget.rs:31-32 | an indented comment holding ':' is read as an attribute: a Layout rejects its key `// see` before any child, and after a child it is a `LateAttribute` error |
| `LoaderFacts.AttributeSplitsAtFirstColon` | src/widget_wrappers/wrapper_widget.rs:67-72 | before any child, an attribute line succeeds exactly when the widget accepts the trimmed key and value, split at the first ':'. It fails with the widget's own error otherwise |
| `LoaderFacts.LateAttributeLine` | src/widget_wrappers/wrapper_widget.rs:67-70 | once the block has seen a child, any significant admitted line that holds ':' without ending in it is a `LateAttribute` error carrying the trimmed line, before the widget sees it |
| `LoaderFacts.LateAttributeText` | src/widget_wrappers/wrapper_widget.rs:67-70 | the same for an attribute line written as `key: value`: the error carries exactly that text |
| `LoaderFacts.LateAttributeRejected` | src/widget_wrappers/wrapper_widget.rs:61-70 | an attribute written after a child's block is a `LateAttribute` error at the line counter after that block |
| `LoaderFacts.ParagraphDeclaration` | src/widget_wrappers/wrapper_widget.rs:61-66 | a declaration inside a Paragraph loads the child's whole block, then fails to add it |
| `LoaderFacts.ParagraphRejectsChild` | src/widget_wrappers/wrapper_paragraph.rs:39-41 | a Paragraph block containing a declaration fails with `AddWidgetToNonContainer`, numbered after the child's block |
| `LoaderFacts.SiblingsDependOnBlock` | src/widget_wrappers/wrapper_widget.rs:64 | two paragraph declarations at column 4 are two children of a Layout block at indentation 4. At indentation 0 the second nests in the first, so the load fails |
| `Serializer.IndentedLine` | src/widget_wrappers/wrapper_widget.rs:80-90 | a line written as `indent` spaces before a non-space has indentation level `indent` and is never skipped |
| `Serializer.DirectionValue` | src/widget_wrappers/wrapper_layout.rs:43-47 | each direction's written name is a valid attribute value and loads back to that direction |
| `Serializer.LoadBody` | src/widget_wrappers/wrapper_widget.rs:20-77 | round trip: the written block of any well-formed widget, followed by lines indented less, loads back into that widget, stopping in front of those lines and counting every written line |
| `Serializer.LoadChildren` | src/widget_wrappers/wrapper_widget.rs:61-66 | round trip for children: the written declarations and blocks of a list of widgets append exactly those widgets, in order, to a Layout |
| `WrapperWidgets.FromName` | src/widget_wrappers/wrapper_widgets.rs:19-26 | the registry accepts exactly "Layout" and "Paragraph", case included, and builds a fresh widget of that kind. Any other name panics with that name |
| `WrapperWidgets.LoadValue` | src/widget_wrappers/wrapper_widgets.rs:12-17 | an attribute goes to the payload: the outcome is the payload's own, the variant never changes, errors carry the caller's line, and nothing panics |
| `WrapperWidgets.AddChild` | src/widget_wrappers/wrapper_widgets.rs:12-17 | a child goes to the payload: a Layout appends it and a Paragraph refuses it with the given line |
| `WrapperWidgets.RegistryRoundTrip` | src/widget_wrappers/wrapper_widgets.rs:19-26 | looking up a widget's kind name gives a fresh widget of the same kind |
| `WrapperWidgets.LowerCaseNameAborts` | src/widget_wrappers/wrapper_widgets.rs:24 | the lower-case names `layout` and `paragraph` are not registered and abort |
| `WrapperLayout.LoadValue` | src/widget_wrappers/wrapper_layout.rs:41-56 | a Layout accepts exactly `direction` with `horizontal` or `vertical`, and the new direction's name is the value given. An unknown key is an `InvalidWidgetAttributeName` error. An unknown value is an `InvalidWidgetAttributeValue` error. The children never change |
| `WrapperLayout.AddChild` | src/widget_wrappers/wrapper_layout.rs:57-60 | a Layout accepts every child: the earlier children stay as a prefix, the new child is last, and the direction is kept |
| `WrapperLayout.DirectionRoundTrip` | src/widget_wrappers/wrapper_layout.rs:43-47 | writing any direction's name as the `direction` value and loading it selects exactly that direction and changes nothing else |
| `WrapperLayout.LastDirectionWins` | src/widget_wrappers/wrapper_layout.rs:43-47 | after one accepted direction, setting the direction again gives the same outcome as setting only the second value |
| `WrapperParagraph.LoadValue` | src/widget_wrappers/wrapper_paragraph.rs:31-38 | a Paragraph accepts exactly the key `text` and stores the value unchanged. Any other key is an `InvalidWidgetAttributeName` error |
| `WrapperParagraph.AddChild` | src/widget_wrappers/wrapper_paragraph.rs:39-41 | a Paragraph refuses every child, whatever it is, with an error at the line counter it was given |
| `WrapperParagraph.DrawnText` | src/widget_wrappers/wrapper_paragraph.rs:22 | drawing succeeds exactly when the stored text with all replacements applied is at least two characters long and starts and ends with '"'. The drawn text, put back in quotes, is that replaced text. The only other outcome is a panic |
| `WrapperParagraph.LastTextWins` | src/widget_wrappers/wrapper_paragraph.rs:34 | only the last `text` attribute of a block counts |
| `WrapperParagraph.DefaultParagraphAborts` | src/widget_wrappers/wrapper_paragraph.rs:11-14 | drawing a paragraph that never received a `text` attribute aborts, whatever the replacements |
| `Replacements.StripQuotes` | src/widget_wrappers/wrapper_widget.rs:99 | stripping succeeds exactly when the text starts and ends with '"' and is at least two characters long. The result, quoted again, is the text. Otherwise it panics with that text |
| `Replacements.StripQuotesInvertsQuote` | src/widget_wrappers/wrapper_widget.rs:99 | stripping the quotes from a quoted text gives back exactly that text |
| `Replacements.SetReplacements` | src/widget_wrappers/wrapper_widget.rs:93-100 | the call succeeds exactly when the replaced text is at least two characters long and starts and ends with '"'. A successful result, quoted again, is the text with every pair's placeholder replaced. The only other outcome is a panic |
| `Replacements.Placeholder` | src/widget_wrappers/wrapper_widget.rs:96 | the escaped format string yields `{{`, the key, then `}}`; for a key without '{', the first two characters are its only '{' |
| `Replacements.PlaceholderBorderless` | src/widget_wrappers/wrapper_widget.rs:96 | a placeholder `{{key}}` whose key has no '{' cannot overlap another occurrence of itself |
| `Replacements.ReplaceAll` | src/widget_wrappers/wrapper_widget.rs:97 | `str::replace`: a text in which the pattern does not occur comes back unchanged (its full meaning is `Replacements.ReplaceAllJoin`) |
| `Replacements.ReplaceAllJoin` | src/widget_wrappers/wrapper_widget.rs:97 | reference meaning of replacement: a text made of pattern-free pieces joined by a non-overlapping pattern becomes the same pieces joined by the value |
| `Replacements.ApplyAll` | src/widget_wrappers/wrapper_widget.rs:95-98 | the loop over the map: a text holding no placeholder of any listed key is left unchanged (what it does to a template is `Replacements.FillTemplate`) |
| `Replacements.EmptyTextAborts` | src/widget_wrappers/wrapper_widget.rs:99 | the empty text has nothing to replace and no quotes to strip, so it aborts whatever the replacements |
| `Replacements.OccursWitness` | src/widget_wrappers/wrapper_widget.rs:97 | a pattern that occurs in a text occurs at some index of it |
| `Replacements.NoPlaceholderWithoutBrace` | src/widget_wrappers/wrapper_widget.rs:96 | a text without '{' holds no placeholder |
| `Replacements.OtherPlaceholderAbsent` | src/widget_wrappers/wrapper_widget.rs:95-97 | the placeholder of one brace-free key never occurs within the placeholder of a different key, whatever brace-free text surrounds it |
| `Replacements.PresentKeyFilled` | src/widget_wrappers/wrapper_widget.rs:95-98 | brace-free parts joined by the placeholder of a listed key come out joined by the value of that key's first pair, for any map of brace-free keys and values, in any order |
| `Replacements.FreeFront` | src/widget_wrappers/wrapper_widget.rs:97 | a front without '{' is kept verbatim by the replacement of any pattern starting with '{', and the rest is replaced after it |
| `Replacements.FillStep` | src/widget_wrappers/wrapper_widget.rs:97 | one pair applied to a template of brace-free pieces turns exactly the holes of its key into its value and keeps every other piece |
| `Replacements.FillTemplate` | src/widget_wrappers/wrapper_widget.rs:95-98 | the loop over a map of brace-free keys and values turns a template of brace-free pieces into the template with every pair filled in |
| `Replacements.FillAllMeaning` | src/widget_wrappers/wrapper_widget.rs:95-98 | after filling, a literal piece and a hole of an unlisted key are kept, and a hole of a listed key holds the value of that key's first pair |
| `Replacements.DrawTemplate` | src/widget_wrappers/wrapper_widget.rs:93-100 | a quoted template of brace-free pieces, with brace-free keys and values, always draws successfully, as the template with every listed hole filled |
| `Replacements.OrderFree` | src/widget_wrappers/wrapper_widget.rs:95-98 | on such a template, any two orders of the same pairs with distinct keys, as a hash map yields them, give the same text |
| `Replacements.MapOrderMatters` | src/widget_wrappers/wrapper_widget.rs:95-98 | for any two distinct brace-free keys, the same text draws differently under the two orders of a two-pair map |
| `Replacements.TwoPlaceholders` | src/widget_wrappers/wrapper_widget.rs:95-98 | two adjacent placeholders of different keys are both filled, whichever order the map yields its pairs in |
| `Replacements.ReplaceAroundPlaceholder` | src/widget_wrappers/wrapper_widget.rs:97 | replacing one brace-free key's placeholder keeps another brace-free key's placeholder verbatim and replaces the texts on either side of it independently |
| `Replacements.AbsentKeyKept` | src/widget_wrappers/wrapper_widget.rs:95-98 | for any text around it, a placeholder whose brace-free key is not in a map of brace-free keys stays verbatim, and the texts on either side are replaced as if apart |
| `Replacements.AbsentKeyOccurs` | src/widget_wrappers/wrapper_widget.rs:95-98 | a placeholder of a brace-free key missing from a map of brace-free keys that occurs in a text still occurs after all replacements |
| `Replacements.HelloWorld` | src/ratatui-declare-test/src/main.rs:7-10 | with the example's map, `"{{hello}}{{world}}"` draws as `Hello, World!` |

## Left out

- Drawing: the `render` bodies and the screen geometry they compute belong
  to the ratatui library. Only the text a paragraph hands to drawing is
  modelled (`WrapperParagraph.DrawnText`).
- File input and the program entry point: reading template files, the
  demo binary, and the code that creates the root widget and makes the
  first call to `load_config`. That code is not part of this model. The
  root block is assumed to be loaded at indentation 0, the only indentation
  at which a `TooManyRoots` error can arise
  (src/widget_wrappers/wrapper_widget.rs:40-41). It is modelled as
  `Loader.LoadConfig` at indentation 0 (`LoaderFacts.RootConsumesAll`).
- Mutation in place: `&mut self`, the shared `Vec` of lines and the
  counter passed by reference are modelled by returning the new widget,
  the remaining lines and the new counter. On error the Rust code drops
  the half-built widget, and the model returns no widget.
- The `Box<&mut dyn WrapperWidget>` dispatch of `to_box` is modelled as a
  `match` on the widget's variant.
- The text of the panic messages: a panic carries only the offending name
  or text.
- `usize` overflow of the line counter: it is an unbounded `nat`.
- Hash map iteration order: the replacements are a sequence of pairs in an
  arbitrary but fixed order. The order does not matter for a template whose
  only braces are its placeholders, with brace-free keys and values
  (`Replacements.OrderFree`). When the keys, the values or the literal text
  hold braces it can matter (`Replacements.MapOrderMatters`).
- Loader.LoadConfig: its own ensures only bounds the lines left over; what a success, a parse error and an abort guarantee is stated by `Loader.ConfigSound`, and which lines fail with which error by the `LoaderFacts` lemmas.
- Loader.LoadBlock: its own ensures only bounds the lines left over (it is a termination measure); what a success, a parse error and an abort guarantee is stated by `Loader.BlockSound`.
- Loader.Advance: its own ensures only bounds the lines left over; what it does is stated through `Loader.BlockSound`.
- Loader.LoadLine: its own ensures only bounds the lines left over; what a success, a parse error and an abort guarantee is stated by `Loader.LineSound`.
- Loader.LoadChild: its own ensures only bounds the lines left over; when it succeeds, what it appends, its error lines and its one abort are stated by `Loader.ChildSound`.
- Loader.IndentationLevel: no ensures of its own, so that the loader's proofs stay small; its meaning is the lemma `Loader.IndentationSpec`.
- Loader.Skipped: no ensures of its own; it is the two-case test of the loop, and its effect is stated by `LoaderFacts.SkippedPrefix`.
- Strings.TrimStart: no ensures of its own, so that the loader's proofs stay small; its meaning is the lemma `Strings.TrimStartSpec`.
- Strings.TrimEnd: no ensures of its own, for the same reason; its meaning is the lemma `Strings.TrimEndSpec`.
- Strings.SplitOnce: no ensures of its own, for the same reason; its meaning is the lemmas `Strings.SplitOnceSpec` and `Strings.SplitAtFirst`.
- Replacements.ApplyAll: its own ensures covers only text with no listed placeholder. What it does to a template whose keys, values and literal pieces hold no braces is `Replacements.FillTemplate` with `Replacements.FillAllMeaning`. Text with braces outside its placeholders, or braces in keys or values, is not characterised, since there the result can depend on the order (`Replacements.MapOrderMatters`).
- Replacements.ReplaceAll: its own ensures covers only the text without the pattern; its full meaning, for a pattern that cannot overlap itself, is the lemma `Replacements.ReplaceAllJoin`. Every placeholder of a key without '{' is such a pattern (`Replacements.PlaceholderBorderless`), and those are the only patterns the loop uses.
- Serializer.LoadBody: the round trip covers blocks at indentation 4 or more and paragraph texts that fit on one `text:` line. Those are texts that are trimmed and do not end in ':'. At indentation 0 the loader nests sibling declarations, so a tree does not read back there.
