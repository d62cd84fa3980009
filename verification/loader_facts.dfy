/** Properties of the block loader on particular kinds of lines: what is
    skipped, which lines end a block, and which are rejected with which error. */
module LoaderFacts {
  import opened Errors
  import opened Strings
  import opened Nodes
  import WrapperWidgets
  import opened Loader
  import opened Serializer

  /** A line the block at `indent` accepts as its own or a child's. */
  predicate Admitted(line: string, indent: nat) {
    var level := IndentationLevel(line);
    indent <= level <= indent + 4 && level != 0 && level % 4 == 0
  }

  /** One turn of the block loop over an admitted first line whose loading
      fails: the block fails with the same error. */
  lemma UnfoldFailure(w: Widget, lines: seq<string>, n: nat, indent: nat, added: bool)
    requires lines != [] && !Skipped(lines[0]) && Admitted(lines[0], indent)
    requires LoadLine(w, Trim(lines[0]), lines[1..], n, indent, added).Failed?
    ensures LoadBlock(w, lines, n, indent, added)
         == Failed(LoadLine(w, Trim(lines[0]), lines[1..], n, indent, added).error)
  {
    assert LoadBlock(w, lines, n, indent, added) == Advance(w, lines, n, indent, added);
  }

  /** Empty lines and lines starting with "//" in front of a block are
      dropped, and the line counter does not move over them. */
  lemma {:induction false} SkippedPrefix(w: Widget, skipped: seq<string>, lines: seq<string>,
                                         n: nat, indent: nat, added: bool)
    requires forall i :: 0 <= i < |skipped| ==> Skipped(skipped[i])
    ensures LoadBlock(w, skipped + lines, n, indent, added) == LoadBlock(w, lines, n, indent, added)
    ensures CountSignificant(skipped + lines) == CountSignificant(lines)
    decreases |skipped|
  {
    if skipped != [] {
      assert (skipped + lines)[0] == skipped[0];
      assert (skipped + lines)[1..] == skipped[1..] + lines;
      SkippedPrefix(w, skipped[1..], lines, n, indent, added);
    } else {
      assert skipped + lines == lines;
    }
  }

  /** The first significant line of a block decides: a line indented less
      than the block is put back and the block ends without change; at block
      indentation 0 a line at column 0 is a second root. */
  lemma {:induction false} OutdentedLine(w: Widget, skipped: seq<string>, line: string, rest: seq<string>,
                                         n: nat, indent: nat, added: bool)
    requires forall i :: 0 <= i < |skipped| ==> Skipped(skipped[i])
    requires !Skipped(line) && (IndentationLevel(line) < indent || IndentationLevel(line) == 0)
    ensures LoadBlock(w, skipped + ([line] + rest), n, indent, added)
         == if IndentationLevel(line) < indent then Done(Loaded(w, [line] + rest, n))
            else Failed(TooManyRoots(n, line))
  {
    SkippedPrefix(w, skipped, [line] + rest, n, indent, added);
    ConsParts(line, rest);
  }

  /** A significant line indented deeper than one step below the block, or
      by a non-multiple of 4, is rejected with the block's indentation. */
  lemma {:induction false} MisindentedLine(w: Widget, skipped: seq<string>, line: string, rest: seq<string>,
                                           n: nat, indent: nat, added: bool)
    requires forall i :: 0 <= i < |skipped| ==> Skipped(skipped[i])
    requires !Skipped(line)
    requires var level := IndentationLevel(line);
      indent <= level && level != 0 && (level > indent + 4 || level % 4 != 0)
    ensures LoadBlock(w, skipped + ([line] + rest), n, indent, added)
         == Failed(InvalidIndentation(n, indent, line))
  {
    SkippedPrefix(w, skipped, [line] + rest, n, indent, added);
    ConsParts(line, rest);
  }

  /** A root block (indentation 0) never stops early: when it loads, it has
      consumed every line. */
  lemma RootConsumesAll(w: Widget, lines: seq<string>, n: nat)
    ensures LoadConfig(w, lines, n, 0).Done? ==> LoadConfig(w, lines, n, 0).value.rest == []
  {
    ConfigSound(w, lines, n, 0);
  }

  /** Any significant line the block admits whose trimmed text has no ':'
      is rejected with that trimmed text, whether or not the block has
      already seen a child. */
  lemma ContextlessLine(w: Widget, line: string, rest: seq<string>, n: nat, indent: nat, added: bool)
    requires !Skipped(line) && Admitted(line, indent) && ':' !in Trim(line)
    ensures LoadBlock(w, [line] + rest, n, indent, added) == Failed(InvalidContext(n, Trim(line)))
  {
    ConsParts(line, rest);
    UnfoldFailure(w, [line] + rest, n, indent, added);
  }

  /** The same for a line of `k` spaces followed by trimmed text without
      ':': a line of spaces only, an indented "//" comment and a bare word
      alike. */
  lemma ContextlessIndented(w: Widget, k: nat, t: string, rest: seq<string>, n: nat, indent: nat, added: bool)
    requires 0 < k && indent <= k <= indent + 4 && k % 4 == 0
    requires IsTrimmed(t) && ':' !in t
    ensures LoadBlock(w, [Spaces(k) + t] + rest, n, indent, added) == Failed(InvalidContext(n, t))
  {
    assert t == [] || t[0] != ' ';
    IndentedLine(k, t);
    TrimIndented(k, t);
    ContextlessLine(w, Spaces(k) + t, rest, n, indent, added);
  }

  /** A child's block starts on the declaration's own line counter: when
      the first line under a declaration is rejected, the error carries the
      declaration's number, not the one after it. */
  lemma ChildSharesDeclarationLine(w: Widget, c: Widget, t: string, rest: seq<string>,
                                   n: nat, indent: nat, added: bool)
    requires indent >= 4 && indent % 4 == 0
    requires IsTrimmed(t) && ':' !in t
    ensures LoadBlock(w, [Spaces(indent) + KindName(c) + ":"] + ([Spaces(indent + 4) + t] + rest), n, indent, added)
         == Failed(InvalidContext(n, t))
  {
    var decl := Spaces(indent) + KindName(c) + ":";
    var child := WrapperWidgets.FromName(KindName(c));
    DeclarationLine(c, indent);
    var name := KindName(c);
    assert IsDeclaration(name + ":");
    assert Trim((name + ":")[..|name + ":"| - 1]) == name;
    var body := [Spaces(indent + 4) + t] + rest;
    ContextlessIndented(child.value, indent + 4, t, rest, n, indent + 4, false);
    assert LoadConfig(child.value, body, n, indent + 4) == Failed(InvalidContext(n, t));
    assert LoadChild(w, name, body, n, indent) == Failed(InvalidContext(n, t));
    assert LoadLine(w, Trim(decl), body, n, indent, added) == Failed(InvalidContext(n, t));
    ConsParts(decl, [Spaces(indent + 4) + t] + rest);
    UnfoldFailure(w, [decl] + ([Spaces(indent + 4) + t] + rest), n, indent, added);
  }

  /** A comment is only dropped at column 0: indented, the same comment is an
      error inside the block. */
  lemma CommentOnlyAtColumnZero(w: Widget, c: string, rest: seq<string>, n: nat)
    requires IsTrimmed("//" + c) && ':' !in c
    ensures LoadBlock(w, ["//" + c] + rest, n, 4, false) == LoadBlock(w, rest, n, 4, false)
    ensures LoadBlock(w, [Spaces(4) + ("//" + c)] + rest, n, 4, false) == Failed(InvalidContext(n, "//" + c))
  {
    assert IsPrefix("//", "//" + c);
    SkippedPrefix(w, ["//" + c], rest, n, 4, false);
    ContextlessIndented(w, 4, "//" + c, rest, n, 4, false);
  }

  /** Before any child, any significant line the block admits that holds
      ':' without ending in it, at whatever admitted column and with
      whatever spacing around the ':', is handed to the widget split at its
      first ':'; when the widget rejects the trimmed halves, the block fails
      with the widget's own error. */
  lemma RejectedAttribute(w: Widget, line: string, rest: seq<string>, n: nat, indent: nat)
    requires !Skipped(line) && Admitted(line, indent)
    requires ':' in Trim(line) && !IsDeclaration(Trim(line))
    requires var (k, v) := SplitOnce(Trim(line), ':');
      WrapperWidgets.LoadValue(w, Trim(k), Trim(v), n).Failed?
    ensures var (k, v) := SplitOnce(Trim(line), ':');
      LoadBlock(w, [line] + rest, n, indent, false) == Failed(WrapperWidgets.LoadValue(w, Trim(k), Trim(v), n).error)
  {
    ConsParts(line, rest);
    UnfoldFailure(w, [line] + rest, n, indent, false);
  }

  /** The same for an attribute line as the serializer writes it, at the
      block's own column. */
  lemma RejectedAttributeText(w: Widget, key: string, value: string, rest: seq<string>, n: nat, indent: nat)
    requires indent >= 4 && indent % 4 == 0
    requires key != [] && IsTrimmed(key) && ':' !in key
    requires value != [] && IsTrimmed(value) && value[|value| - 1] != ':'
    requires WrapperWidgets.LoadValue(w, key, value, n).Failed?
    ensures LoadBlock(w, [AttributeLine(indent, key, value)] + rest, n, indent, false)
         == Failed(WrapperWidgets.LoadValue(w, key, value, n).error)
  {
    AttributeLineShape(key, value, indent);
    AttributeText(key, value);
    RejectedAttribute(w, AttributeLine(indent, key, value), rest, n, indent);
  }

  /** An indented comment that holds ':' is not an error of its own kind:
      it is read as an attribute. Before any child, the widget sees the key
      `// see` and rejects it; after a child it is a late attribute. */
  lemma ColonCommentIsAttribute(d: Direction, w: Widget, rest: seq<string>, n: nat)
    ensures LoadBlock(Layout(LayoutState(d, [])), ["    // see: docs"] + rest, n, 4, false)
         == Failed(InvalidWidgetAttributeName(n, "Layout", "// see"))
    ensures LoadBlock(w, ["    // see: docs"] + rest, n, 4, true) == Failed(LateAttribute(n, "// see: docs"))
  {
    var key, value := "// see", "docs";
    assert AttributeLine(4, key, value) == "    // see: docs";
    assert IsTrimmed(key) && ':' !in key && IsTrimmed(value) && value[|value| - 1] != ':';
    RejectedAttributeText(Layout(LayoutState(d, [])), key, value, rest, n, 4);
    LateAttributeText(w, key, value, rest, n, 4);
    assert key + ": " + value == "// see: docs";
  }

  /** An attribute line is split at its first ':' only, so a value may
      itself hold ':' characters; both halves are trimmed before the widget
      sees them. */
  lemma AttributeSplitsAtFirstColon(w: Widget, k: string, v: string, rest: seq<string>, n: nat, indent: nat)
    requires ':' !in k && !IsDeclaration(k + ":" + v)
    ensures var o := WrapperWidgets.LoadValue(w, Trim(k), Trim(v), n);
      var r := LoadLine(w, k + ":" + v, rest, n, indent, false);
      && (r.Done? <==> o.Done?)
      && (r.Done? ==> r.value == Step(o.value, rest, n, false))
      && (!r.Done? ==> r == Failed(o.error))
  {
    var line := k + ":" + v;
    assert line == k + [':'] + v;
    assert line[|k|] == ':';
    SplitAtFirst(k, ':', v);
  }

  /** Any significant line the block admits that holds ':' without ending
      in it is rejected as a late attribute once the block has seen a child,
      whatever its key, before the widget sees it. */
  lemma LateAttributeLine(w: Widget, line: string, rest: seq<string>, n: nat, indent: nat)
    requires !Skipped(line) && Admitted(line, indent)
    requires ':' in Trim(line) && !IsDeclaration(Trim(line))
    ensures LoadBlock(w, [line] + rest, n, indent, true) == Failed(LateAttribute(n, Trim(line)))
  {
    ConsParts(line, rest);
    UnfoldFailure(w, [line] + rest, n, indent, true);
  }

  /** The same for an attribute line as the serializer writes it. */
  lemma LateAttributeText(w: Widget, key: string, value: string, rest: seq<string>, n: nat, indent: nat)
    requires indent >= 4 && indent % 4 == 0
    requires key != [] && IsTrimmed(key) && ':' !in key
    requires value != [] && IsTrimmed(value) && value[|value| - 1] != ':'
    ensures LoadBlock(w, [AttributeLine(indent, key, value)] + rest, n, indent, true)
         == Failed(LateAttribute(n, key + ": " + value))
  {
    AttributeLineShape(key, value, indent);
    AttributeText(key, value);
    LateAttributeLine(w, AttributeLine(indent, key, value), rest, n, indent);
  }

  /** Once a block has seen a child, an attribute line after the child's
      block is rejected, on the line counter after that block. */
  lemma LateAttributeRejected(d: Direction, c: Widget, key: string, value: string, tail: seq<string>,
                              n: nat, indent: nat)
    requires WellFormed(c) && indent >= 4 && indent % 4 == 0
    requires key != [] && IsTrimmed(key) && ':' !in key
    requires value != [] && IsTrimmed(value) && value[|value| - 1] != ':'
    ensures LoadBlock(Layout(LayoutState(d, [])), ChildrenLines([c], indent) + ([AttributeLine(indent, key, value)] + tail),
                      n, indent, false)
         == Failed(LateAttribute(n + |Body(c, indent + 4)| + 1, key + ": " + value))
  {
    var after := [AttributeLine(indent, key, value)] + tail;
    assert BlockEnd(after, indent + 4) by {
      AttributeLineShape(key, value, indent);
      ConsParts(AttributeLine(indent, key, value), tail);
    }
    assert LoadBlock(Layout(LayoutState(d, [])), ChildrenLines([c], indent) + after, n, indent, false)
        == LoadBlock(Layout(LayoutState(d, [c])), after, n + |Body(c, indent + 4)| + 1, indent, true) by {
      assert AllWellFormed([c]) && [c][1..] == [] && [] + [c] == [c];
      assert ChildrenLines([], indent) + after == after;
      LoadFirstChild(d, [], [c], indent, after, n, false);
    }
    LateAttributeText(Layout(LayoutState(d, [c])), key, value, tail, n + |Body(c, indent + 4)| + 1, indent);
  }

  /** A declaration inside a Paragraph: the child's block loads, then adding
      it fails with the line counter after that block. */
  lemma ParagraphDeclaration(p: ParagraphState, c: Widget, tail: seq<string>, n: nat, indent: nat, added: bool)
    requires WellFormed(c) && indent >= 4 && indent % 4 == 0 && BlockEnd(tail, indent + 4)
    ensures LoadLine(Paragraph(p), KindName(c) + ":", Body(c, indent + 4) + tail, n, indent, added)
         == Failed(AddWidgetToNonContainer(n + |Body(c, indent + 4)|))
  {
    DeclarationLine(c, 1);
    WrapperWidgets.RegistryRoundTrip(c);
    LoadBody(c, indent + 4, tail, n);
  }

  /** A Paragraph block refuses a declaration, but only after the child's own
      block has loaded; the error names the line counter after that block. */
  lemma ParagraphRejectsChild(p: ParagraphState, c: Widget, tail: seq<string>, n: nat, indent: nat, added: bool)
    requires WellFormed(c) && indent >= 4 && indent % 4 == 0 && BlockEnd(tail, indent + 4)
    ensures LoadBlock(Paragraph(p), [Spaces(indent) + KindName(c) + ":"] + (Body(c, indent + 4) + tail), n, indent, added)
         == Failed(AddWidgetToNonContainer(n + |Body(c, indent + 4)|))
  {
    var decl := Spaces(indent) + KindName(c) + ":";
    ConsParts(decl, Body(c, indent + 4) + tail);
    DeclarationLine(c, indent);
    ParagraphDeclaration(p, c, tail, n, indent, added);
    UnfoldFailure(Paragraph(p), [decl] + (Body(c, indent + 4) + tail), n, indent, added);
  }

  /** The declaration of an empty paragraph at column 4. */
  const ParagraphAtFour: string := Spaces(4) + "Paragraph" + ":"

  const EmptyParagraph: Widget := Paragraph(ParagraphState(""))

  /** Two empty paragraphs written at column 4, as children of a layout. */
  lemma TwoParagraphLines()
    ensures ChildrenLines([EmptyParagraph, EmptyParagraph], 4) == [ParagraphAtFour, ParagraphAtFour]
    ensures AllWellFormed([EmptyParagraph, EmptyParagraph])
    ensures ParagraphAtFour == Spaces(4) + KindName(EmptyParagraph) + ":"
  {
    var p := EmptyParagraph;
    assert [p, p][1..] == [p] && [p][1..] == [];
    assert Body(p, 8) == [] && ChildrenLines([], 4) == [] && KindName(p) == "Paragraph";
    assert ChildrenLines([p], 4) == [Spaces(4) + KindName(p) + ":"] + Body(p, 8) + ChildrenLines([], 4);
    assert [ParagraphAtFour] + [] + [] == [ParagraphAtFour];
  }

  /** Whether two declarations at the same column are siblings depends on the
      block they are read in. In a block at indentation 4 they are; in a block
      at indentation 0 the first child's block (at 0 + 4) takes in the second
      declaration, so a paragraph written second at column 4 is refused as the
      first one's child. */
  lemma SiblingsDependOnBlock(d: Direction, n: nat)
    ensures LoadConfig(Layout(LayoutState(d, [])), [ParagraphAtFour, ParagraphAtFour], n, 4)
         == Done(Loaded(Layout(LayoutState(d, [EmptyParagraph, EmptyParagraph])), [], n + 2))
    ensures LoadConfig(Layout(LayoutState(d, [])), [ParagraphAtFour, ParagraphAtFour], n, 0)
         == Failed(AddWidgetToNonContainer(n))
  {
    var p := EmptyParagraph;
    var lines := [ParagraphAtFour, ParagraphAtFour];
    TwoParagraphLines();
    assert LoadConfig(Layout(LayoutState(d, [])), lines, n, 4)
        == Done(Loaded(Layout(LayoutState(d, [p, p])), [], n + 2)) by {
      assert lines + [] == lines && [] + [p, p] == [p, p];
      LoadChildren(d, [], [p, p], 4, [], n, false);
    }
    assert LoadConfig(p, [ParagraphAtFour], n, 4) == Failed(AddWidgetToNonContainer(n)) by {
      assert Body(p, 8) + [] == [] && [ParagraphAtFour] + [] == [ParagraphAtFour];
      ParagraphRejectsChild(ParagraphState(""), p, [], n, 4, false);
    }
    DeclarationLine(p, 4);
    ConsParts(ParagraphAtFour, [ParagraphAtFour]);
    UnfoldFailure(Layout(LayoutState(d, [])), lines, n, 0, false);
  }
}
