/** Writing a widget tree back out as template lines, and the proof that the
    loader reads every such text back as the same tree. */
module Serializer {
  import opened Errors
  import opened Strings
  import opened Nodes
  import WrapperLayout
  import WrapperWidgets
  import opened Loader

  /** A paragraph text the template syntax can carry on one `text:` line:
      none at all, or a trimmed value that does not end in ':' (a line ending
      in ':' declares a widget). */
  predicate WritableText(t: string) {
    t == [] || (IsTrimmed(t) && t[|t| - 1] != ':')
  }

  /** Every paragraph in the tree has a writable text. */
  predicate WellFormed(w: Widget)
    decreases Size(w), 1
  {
    match w
    case Layout(l) => AllWellFormed(l.children)
    case Paragraph(p) => WritableText(p.text)
  }

  predicate AllWellFormed(cs: seq<Widget>)
    decreases SizeAll(cs), 0
  {
    cs == [] || (WellFormed(cs[0]) && AllWellFormed(cs[1..]))
  }

  /** The attribute line `key: value` at `indent`. */
  function AttributeLine(indent: nat, key: string, value: string): string {
    Spaces(indent) + key + ": " + value
  }

  /** The lines of `w`'s own block at `indent`: its attributes, then its
      children. A Layout always writes its direction; an empty paragraph
      text is not written. */
  function Body(w: Widget, indent: nat): seq<string>
    decreases Size(w), 1
  {
    match w
    case Layout(l) =>
      [AttributeLine(indent, DirectionKey, WrapperLayout.DirectionName(l.direction))]
      + ChildrenLines(l.children, indent)
    case Paragraph(p) =>
      if p.text == [] then [] else [AttributeLine(indent, TextKey, p.text)]
  }

  /** The declarations of `cs` at `indent`, each followed by its own block
      one step deeper. */
  function ChildrenLines(cs: seq<Widget>, indent: nat): seq<string>
    decreases SizeAll(cs), 0
  {
    if cs == [] then []
    else [Spaces(indent) + KindName(cs[0]) + ":"] + Body(cs[0], indent + 4) + ChildrenLines(cs[1..], indent)
  }

  /** A run of spaces in front of a non-space (or of nothing) is exactly the
      line's indentation, and such a line is never skipped. */
  lemma IndentedLine(indent: nat, t: string)
    requires indent > 0 && (t == [] || t[0] != ' ')
    ensures IndentationLevel(Spaces(indent) + t) == indent
    ensures !Skipped(Spaces(indent) + t)
  {
    var line := Spaces(indent) + t;
    IndentationSpec(line);
    if t != [] {
      assert line[indent] == t[0];
    }
    assert line[0] == ' ';
  }

  /** A block that ends at once leaves its widget as it was. */
  lemma BlockEndStops(w: Widget, tail: seq<string>, n: nat, indent: nat, added: bool)
    requires BlockEnd(tail, indent)
    ensures LoadBlock(w, tail, n, indent, added) == Done(Loaded(w, tail, n))
  {
  }

  /** The head and tail of a sequence built from them. */
  lemma ConsParts(line: string, rest: seq<string>)
    ensures ([line] + rest)[0] == line && ([line] + rest)[1..] == rest
  {
  }

  /** One turn of the block loop over a line at the block's own indentation
      that loads successfully. */
  lemma UnfoldStep(w: Widget, lines: seq<string>, n: nat, indent: nat, added: bool, step: Step)
    requires indent >= 4 && indent % 4 == 0
    requires lines != [] && !Skipped(lines[0]) && IndentationLevel(lines[0]) == indent
    requires LoadLine(w, Trim(lines[0]), lines[1..], n, indent, added) == Done(step)
    ensures LoadBlock(w, lines, n, indent, added)
         == LoadBlock(step.widget, step.rest, step.lineNo + 1, indent, step.widgetAdded)
  {
    assert LoadBlock(w, lines, n, indent, added) == Advance(w, lines, n, indent, added);
    AdvanceUnfold(w, lines, n, indent, added, step);
  }

  /** The text `key: value` is already trimmed, is no declaration, and splits
      back into the key and the value. */
  lemma AttributeText(key: string, value: string)
    requires key != [] && IsTrimmed(key) && ':' !in key
    requires value != [] && IsTrimmed(value) && value[|value| - 1] != ':'
    ensures var t := key + ": " + value;
      && IsTrimmed(t) && !IsDeclaration(t) && ':' in t
      && SplitOnce(t, ':') == (key, " " + value)
      && Trim(key) == key && Trim(" " + value) == value
  {
    var t := key + ": " + value;
    assert t[0] == key[0] && t[|t| - 1] == value[|value| - 1];
    assert t[|key|] == ':';
    assert t == key + [':'] + (" " + value);
    SplitAtFirst(key, ':', " " + value);
    assert Spaces(1) == " ";
    TrimIndented(1, value);
  }

  /** An attribute line before any child is handed to the widget's own
      `LoadValue` with its trimmed key and value. */
  lemma AttributeStep(w: Widget, key: string, value: string, rest: seq<string>, n: nat, indent: nat, updated: Widget)
    requires key != [] && IsTrimmed(key) && ':' !in key
    requires value != [] && IsTrimmed(value) && value[|value| - 1] != ':'
    requires WrapperWidgets.LoadValue(w, key, value, n) == Done(updated)
    ensures LoadLine(w, key + ": " + value, rest, n, indent, false) == Done(Step(updated, rest, n, false))
  {
    AttributeText(key, value);
  }

  /** A serialized attribute line is significant, sits at its indentation
      and trims to `key: value`. */
  lemma AttributeLineShape(key: string, value: string, indent: nat)
    requires indent > 0
    requires key != [] && IsTrimmed(key) && ':' !in key
    requires value != [] && IsTrimmed(value) && value[|value| - 1] != ':'
    ensures var line := AttributeLine(indent, key, value);
      && !Skipped(line) && IndentationLevel(line) == indent
      && Trim(line) == key + ": " + value
  {
    var t := key + ": " + value;
    assert AttributeLine(indent, key, value) == Spaces(indent) + t;
    AttributeText(key, value);
    TrimIndented(indent, t);
    IndentedLine(indent, t);
  }

  /** A serialized attribute line, as one turn of the block loop. */
  lemma AttributeLineBlock(w: Widget, key: string, value: string, rest: seq<string>, n: nat, indent: nat, updated: Widget)
    requires indent >= 4 && indent % 4 == 0
    requires key != [] && IsTrimmed(key) && ':' !in key
    requires value != [] && IsTrimmed(value) && value[|value| - 1] != ':'
    requires WrapperWidgets.LoadValue(w, key, value, n) == Done(updated)
    ensures LoadBlock(w, [AttributeLine(indent, key, value)] + rest, n, indent, false)
         == LoadBlock(updated, rest, n + 1, indent, false)
  {
    var line := AttributeLine(indent, key, value);
    ConsParts(line, rest);
    AttributeLineShape(key, value, indent);
    AttributeStep(w, key, value, rest, n, indent, updated);
    UnfoldStep(w, [line] + rest, n, indent, false, Step(updated, rest, n, false));
  }

  const TextKey: string := "text"
  const DirectionKey: string := "direction"

  /** The two attribute keys, as the serializer writes them. */
  lemma KeyFacts()
    ensures TextKey != [] && IsTrimmed(TextKey) && ':' !in TextKey
    ensures DirectionKey != [] && IsTrimmed(DirectionKey) && ':' !in DirectionKey
  {
  }

  /** A written direction name reads back through the widget's `LoadValue`. */
  lemma DirectionValue(d: Direction, n: nat)
    ensures var name := WrapperLayout.DirectionName(d);
      && name != [] && IsTrimmed(name) && name[|name| - 1] != ':'
      && WrapperWidgets.LoadValue(Layout(WrapperLayout.Default()), DirectionKey, name, n)
         == Done(Layout(LayoutState(d, [])))
  {
    WrapperLayout.DirectionRoundTrip(WrapperLayout.Default(), d, n);
  }

  /** A written paragraph text reads back through the widget's `LoadValue`. */
  lemma TextValue(t: string, n: nat)
    ensures WrapperWidgets.LoadValue(Paragraph(ParagraphState("")), TextKey, t, n) == Done(Paragraph(ParagraphState(t)))
  {
  }

  /** Round trip for one block: the serialized body of a well-formed widget,
      followed by lines indented less than the block, loads back into that
      widget, stopping in front of those lines and counting every body line. */
  lemma {:induction false} LoadBody(w: Widget, indent: nat, tail: seq<string>, n: nat)
    requires WellFormed(w) && indent >= 4 && indent % 4 == 0 && BlockEnd(tail, indent)
    ensures LoadConfig(Blank(w), Body(w, indent) + tail, n, indent) == Done(Loaded(w, tail, n + |Body(w, indent)|))
    decreases Size(w), 1
  {
    KeyFacts();
    match w
    case Paragraph(p) =>
      if p.text == [] {
        assert Body(w, indent) + tail == tail;
        BlockEndStops(Blank(w), tail, n, indent, false);
      } else {
        assert Body(w, indent) + tail == [AttributeLine(indent, TextKey, p.text)] + tail;
        TextValue(p.text, n);
        AttributeLineBlock(Blank(w), TextKey, p.text, tail, n, indent, w);
        BlockEndStops(w, tail, n + 1, indent, false);
      }
    case Layout(l) =>
      var name := WrapperLayout.DirectionName(l.direction);
      var rest := ChildrenLines(l.children, indent) + tail;
      assert Body(w, indent) + tail == [AttributeLine(indent, DirectionKey, name)] + rest;
      DirectionValue(l.direction, n);
      AttributeLineBlock(Blank(w), DirectionKey, name, rest, n, indent, Layout(LayoutState(l.direction, [])));
      LoadChildren(l.direction, [], l.children, indent, tail, n + 1, false);
      assert [] + l.children == l.children;
  }

  /** A serialized declaration line: its trimmed text names `c`'s kind and
      ends in ':'. */
  lemma DeclarationLine(c: Widget, indent: nat)
    requires indent > 0
    ensures var line := Spaces(indent) + KindName(c) + ":";
      && !Skipped(line) && IndentationLevel(line) == indent
      && Trim(line) == KindName(c) + ":"
    ensures (KindName(c) + ":")[..|KindName(c)|] == KindName(c)
    ensures Trim(KindName(c)) == KindName(c)
  {
    assert Spaces(indent) + KindName(c) + ":" == Spaces(indent) + (KindName(c) + ":");
    TrimIndented(indent, KindName(c) + ":");
    IndentedLine(indent, KindName(c) + ":");
  }

  /** A declaration whose block loads adds the loaded child to a Layout. */
  lemma DeclarationStep(d: Direction, pre: seq<Widget>, c: Widget, body: seq<string>, after: seq<string>,
                        n: nat, indent: nat, added: bool)
    requires LoadConfig(Blank(c), body + after, n, indent + 4) == Done(Loaded(c, after, n + |body|))
    ensures LoadLine(Layout(LayoutState(d, pre)), KindName(c) + ":", body + after, n, indent, added)
         == Done(Step(Layout(LayoutState(d, pre + [c])), after, n + |body|, true))
  {
    DeclarationLine(c, 1);
    WrapperWidgets.RegistryRoundTrip(c);
  }

  /** A serialized declaration whose block loads, as one turn of the block
      loop of the enclosing Layout. */
  lemma DeclarationBlock(d: Direction, pre: seq<Widget>, c: Widget, body: seq<string>, after: seq<string>,
                         n: nat, indent: nat, added: bool)
    requires indent >= 4 && indent % 4 == 0
    requires LoadConfig(Blank(c), body + after, n, indent + 4) == Done(Loaded(c, after, n + |body|))
    ensures LoadBlock(Layout(LayoutState(d, pre)), [Spaces(indent) + KindName(c) + ":"] + (body + after), n, indent, added)
         == LoadBlock(Layout(LayoutState(d, pre + [c])), after, n + |body| + 1, indent, true)
  {
    var decl := Spaces(indent) + KindName(c) + ":";
    ConsParts(decl, body + after);
    DeclarationLine(c, indent);
    DeclarationStep(d, pre, c, body, after, n, indent, added);
    UnfoldStep(Layout(LayoutState(d, pre)), [decl] + (body + after), n, indent, added,
               Step(Layout(LayoutState(d, pre + [c])), after, n + |body|, true));
  }

  /** The lines after a child's block end that block. */
  lemma NextEndsChild(cs: seq<Widget>, indent: nat, tail: seq<string>)
    requires indent > 0 && BlockEnd(tail, indent + 4)
    ensures BlockEnd(ChildrenLines(cs, indent) + tail, indent + 4)
  {
    if cs != [] {
      var lines := ChildrenLines(cs, indent) + tail;
      assert lines[0] == Spaces(indent) + KindName(cs[0]) + ":";
      DeclarationLine(cs[0], indent);
    } else {
      assert ChildrenLines(cs, indent) + tail == tail;
    }
  }

  /** The serialized children, split at the first one. */
  lemma ChildrenSplit(cs: seq<Widget>, indent: nat, tail: seq<string>)
    requires cs != []
    ensures ChildrenLines(cs, indent) + tail
         == [Spaces(indent) + KindName(cs[0]) + ":"] + (Body(cs[0], indent + 4) + (ChildrenLines(cs[1..], indent) + tail))
    ensures |ChildrenLines(cs, indent)| == 1 + |Body(cs[0], indent + 4)| + |ChildrenLines(cs[1..], indent)|
  {
    var decl, body, others := [Spaces(indent) + KindName(cs[0]) + ":"], Body(cs[0], indent + 4), ChildrenLines(cs[1..], indent);
    assert ChildrenLines(cs, indent) == decl + body + others;
    AppendAssoc(decl, body, others, tail);
  }

  lemma AppendAssoc<T>(a: seq<T>, b: seq<T>, c: seq<T>, d: seq<T>)
    ensures a + b + c + d == a + (b + (c + d))
  {
  }

  /** A declaration line followed by its child's serialized body, then a line that ends the child's block. */
  lemma {:induction false} LoadDeclared(d: Direction, pre: seq<Widget>, c: Widget, lines: seq<string>,
                                        after: seq<string>, n: nat, indent: nat, added: bool)
    requires WellFormed(c) && indent >= 4 && indent % 4 == 0 && BlockEnd(after, indent + 4)
    requires lines == [Spaces(indent) + KindName(c) + ":"] + (Body(c, indent + 4) + after)
    ensures LoadBlock(Layout(LayoutState(d, pre)), lines, n, indent, added)
         == LoadBlock(Layout(LayoutState(d, pre + [c])), after, n + |Body(c, indent + 4)| + 1, indent, true)
    decreases Size(c), 2
  {
    LoadBody(c, indent + 4, after, n);
    DeclarationBlock(d, pre, c, Body(c, indent + 4), after, n, indent, added);
  }

  /** Loading one child declaration and its body moves the parent past them, with the child appended. */
  lemma {:induction false} LoadFirstChild(d: Direction, pre: seq<Widget>, cs: seq<Widget>, indent: nat,
                                          tail: seq<string>, n: nat, added: bool)
    requires cs != [] && AllWellFormed(cs) && indent >= 4 && indent % 4 == 0 && BlockEnd(tail, indent + 4)
    ensures LoadBlock(Layout(LayoutState(d, pre)), ChildrenLines(cs, indent) + tail, n, indent, added)
         == LoadBlock(Layout(LayoutState(d, pre + [cs[0]])), ChildrenLines(cs[1..], indent) + tail,
                      n + |Body(cs[0], indent + 4)| + 1, indent, true)
    decreases SizeAll(cs), 0
  {
    ChildrenSplit(cs, indent, tail);
    NextEndsChild(cs[1..], indent, tail);
    LoadDeclared(d, pre, cs[0], ChildrenLines(cs, indent) + tail, ChildrenLines(cs[1..], indent) + tail, n, indent, added);
  }

  /** The lines of a sequence of children, loaded into a layout block, append exactly those children. */
  lemma {:induction false} LoadChildren(d: Direction, pre: seq<Widget>, cs: seq<Widget>, indent: nat,
                                        tail: seq<string>, n: nat, added: bool)
    requires AllWellFormed(cs) && indent >= 4 && indent % 4 == 0 && BlockEnd(tail, indent)
    ensures LoadBlock(Layout(LayoutState(d, pre)), ChildrenLines(cs, indent) + tail, n, indent, added)
         == Done(Loaded(Layout(LayoutState(d, pre + cs)), tail, n + |ChildrenLines(cs, indent)|))
    decreases SizeAll(cs), 1
  {
    if cs == [] {
      assert ChildrenLines(cs, indent) + tail == tail;
      assert pre + cs == pre;
      BlockEndStops(Layout(LayoutState(d, pre)), tail, n, indent, added);
    } else {
      var m := n + |Body(cs[0], indent + 4)| + 1;
      LoadFirstChild(d, pre, cs, indent, tail, n, added);
      assert |ChildrenLines(cs, indent)| == |Body(cs[0], indent + 4)| + 1 + |ChildrenLines(cs[1..], indent)| by {
        ChildrenSplit(cs, indent, tail);
      }
      LoadChildren(d, pre + [cs[0]], cs[1..], indent, tail, m, true);
      assert pre + [cs[0]] + cs[1..] == pre + cs;
    }
  }
}
