/** The recursive-descent block loader: it consumes template lines from the
    front, checks their indentation against the enclosing block, and builds
    the widget tree through the registry and the widgets' own operations. */
module Loader {
  import opened Errors
  import opened Strings
  import opened Nodes
  import WrapperWidgets

  /** The number of leading ' ' characters (see `IndentationSpec`). */
  function IndentationLevel(line: string): nat {
    if |line| == 0 || line[0] != ' ' then 0 else 1 + IndentationLevel(line[1..])
  }

  /** The indentation is the run of spaces at the front: any other
      character, a tab included, ends it. */
  lemma {:induction false} IndentationSpec(line: string)
    ensures IndentationLevel(line) <= |line|
    ensures forall i :: 0 <= i < IndentationLevel(line) ==> line[i] == ' '
    ensures IndentationLevel(line) < |line| ==> line[IndentationLevel(line)] != ' '
  {
    if |line| > 0 && line[0] == ' ' {
      IndentationSpec(line[1..]);
    }
  }

  /** Lines dropped without being counted: the empty line and lines whose
      first two characters are "//". */
  predicate Skipped(line: string) {
    line == [] || IsPrefix("//", line)
  }

  /** How many lines of `lines` the line counter advances over. */
  function CountSignificant(lines: seq<string>): nat {
    if lines == [] then 0
    else (if Skipped(lines[0]) then 0 else 1) + CountSignificant(lines[1..])
  }

  /** A line a block at `indent` or a block nested in it may consume: skipped,
      or indented by a non-zero multiple of 4 no less than `indent`. */
  predicate NestedLine(line: string, indent: nat) {
    Skipped(line) ||
    var level := IndentationLevel(line);
    indent <= level && level != 0 && level % 4 == 0
  }

  predicate InBlock(lines: seq<string>, indent: nat) {
    forall i :: 0 <= i < |lines| ==> NestedLine(lines[i], indent)
  }

  /** Where a block stops: at the end of input or at a significant line
      indented less than the block. */
  predicate BlockEnd(rest: seq<string>, indent: nat) {
    rest == [] || (!Skipped(rest[0]) && IndentationLevel(rest[0]) < indent)
  }

  /** The lines in front of the suffix `rest`. */
  function Consumed(lines: seq<string>, rest: seq<string>): seq<string>
    requires IsSuffix(rest, lines)
  {
    lines[..|lines| - |rest|]
  }

  /** Loading only ever adds: the kind stays, and a Layout keeps its earlier
      children as a prefix. */
  predicate Grows(before: Widget, after: Widget) {
    && SameKind(before, after)
    && (before.Layout? ==> IsPrefix(before.layout.children, after.layout.children))
  }

  /** A loaded block: the widget, the lines left for the enclosing blocks,
      and the line counter after it. */
  datatype Loaded = Loaded(widget: Widget, rest: seq<string>, lineNo: nat)

  /** One loaded line, with whether the block has now seen a child. */
  datatype Step = Step(widget: Widget, rest: seq<string>, lineNo: nat, widgetAdded: bool)

  /** What a successful block load promises about its result. */
  predicate Ended(w: Widget, lines: seq<string>, lineNo: nat, indent: nat, r: Loaded) {
    && IsSuffix(r.rest, lines)
    && BlockEnd(r.rest, indent)
    && InBlock(Consumed(lines, r.rest), indent)
    && r.lineNo == lineNo + CountSignificant(Consumed(lines, r.rest))
    && Grows(w, r.widget)
  }

  /** Loads the attributes and children of `w` from the front of `lines`, a
      block whose lines are indented by `indent`. What a result means is
      stated by `ConfigSound`. */
  function LoadConfig(w: Widget, lines: seq<string>, lineNo: nat, indent: nat): (r: Outcome<Loaded>)
    ensures r.Done? ==> |r.value.rest| <= |lines|
    decreases |lines|, 2
  {
    LoadBlock(w, lines, lineNo, indent, false)
  }

  /** The loop of `LoadConfig`, with the flag that records whether a child
      has been added in this block. */
  function LoadBlock(w: Widget, lines: seq<string>, lineNo: nat, indent: nat, widgetAdded: bool): (r: Outcome<Loaded>)
    ensures r.Done? ==> |r.value.rest| <= |lines|
    decreases |lines|, 1
  {
    if lines == [] then Done(Loaded(w, lines, lineNo))
    else
      var line := lines[0];
      if Skipped(line) then LoadBlock(w, lines[1..], lineNo, indent, widgetAdded)
      else
        var level := IndentationLevel(line);
        if level < indent then Done(Loaded(w, lines, lineNo))
        else if level == 0 then Failed(TooManyRoots(lineNo, line))
        else if level > indent + 4 || level % 4 != 0 then Failed(InvalidIndentation(lineNo, indent, line))
        else Advance(w, lines, lineNo, indent, widgetAdded)
  }

  /** The loop body for a validly indented first line: load the line, then
      carry on with the rest of the block. */
  function Advance(w: Widget, lines: seq<string>, lineNo: nat, indent: nat, widgetAdded: bool): (r: Outcome<Loaded>)
    requires lines != []
    ensures r.Done? ==> |r.value.rest| <= |lines|
    decreases |lines|, 0
  {
    match LoadLine(w, Trim(lines[0]), lines[1..], lineNo, indent, widgetAdded)
    case Done(step) => LoadBlock(step.widget, step.rest, step.lineNo + 1, indent, step.widgetAdded)
    case Failed(e) => Failed(e)
    case Panicked(p) => Panicked(p)
  }

  /** Whether a trimmed line declares a widget: it ends with ':'. Such a line
      also contains ':', so this test must come before the attribute test. */
  predicate IsDeclaration(line: string)
    ensures IsDeclaration(line) <==> IsSuffix(":", line)
    ensures IsDeclaration(line) ==> ':' in line
  {
    |line| > 0 && line[|line| - 1] == ':'
  }

  /** Loads one trimmed line: `Name:` declares a child whose own block is
      loaded at `indent + 4` before it is added; `k: v` sets an attribute,
      but only before the block's first child. */
  function LoadLine(w: Widget, line: string, remaining: seq<string>, lineNo: nat, indent: nat, widgetAdded: bool)
    : (r: Outcome<Step>)
    ensures r.Done? ==> |r.value.rest| <= |remaining|
    decreases |remaining|, 4
  {
    if IsDeclaration(line) then LoadChild(w, Trim(line[..|line| - 1]), remaining, lineNo, indent)
    else if ':' in line then
      if widgetAdded then Failed(LateAttribute(lineNo, line))
      else
        var (k, v) := SplitOnce(line, ':');
        var updated :- WrapperWidgets.LoadValue(w, Trim(k), Trim(v), lineNo);
        Done(Step(updated, remaining, lineNo, false))
    else
      Failed(InvalidContext(lineNo, line))
  }

  /** A declaration of a widget named `name` inside `w`: the widget is
      created through the registry, its own block is loaded one step deeper,
      and only then is it added to `w`, with the line counter after its block. */
  function LoadChild(w: Widget, name: string, remaining: seq<string>, lineNo: nat, indent: nat): (r: Outcome<Step>)
    ensures r.Done? ==> |r.value.rest| <= |remaining|
    decreases |remaining|, 3
  {
    var child :- WrapperWidgets.FromName(name);
    var loaded :- LoadConfig(child, remaining, lineNo, indent + 4);
    var parent :- WrapperWidgets.AddChild(w, loaded.widget, loaded.lineNo);
    Done(Step(parent, loaded.rest, loaded.lineNo, true))
  }

  /** What a block load promises: on success, `Ended`; on a parse error, an
      error line inside the block's own significant lines; and the only
      abort is an unregistered widget name. */
  predicate BlockOk(w: Widget, lines: seq<string>, lineNo: nat, indent: nat, r: Outcome<Loaded>) {
    && (r.Done? ==> Ended(w, lines, lineNo, indent, r.value))
    && (r.Failed? ==> lineNo <= r.error.line < lineNo + CountSignificant(lines))
    && (r.Panicked? ==> r.panic.UnknownWidget?)
  }

  /** What loading one line promises: on success, `Stepped`, with the child
      flag raised exactly by a declaration; on a parse error, an error line
      between this line and the last line the step could have consumed; the
      only abort is an unregistered widget name. */
  predicate LineOk(w: Widget, line: string, remaining: seq<string>, lineNo: nat, indent: nat,
                   widgetAdded: bool, r: Outcome<Step>) {
    && (r.Done? ==> Stepped(w, remaining, lineNo, indent, r.value)
                    && r.value.widgetAdded == (widgetAdded || IsDeclaration(line)))
    && (r.Failed? ==> lineNo <= r.error.line <= lineNo + CountSignificant(remaining))
    && (r.Panicked? ==> r.panic.UnknownWidget?)
  }

  /** A successful block load stops in front of the first line indented less
      than the block (or at the end), consumed only lines it may nest, counted
      every significant line it consumed, and only ever added to the widget;
      a failed one reports a line of its own. */
  lemma {:induction false} ConfigSound(w: Widget, lines: seq<string>, lineNo: nat, indent: nat)
    ensures BlockOk(w, lines, lineNo, indent, LoadConfig(w, lines, lineNo, indent))
    decreases |lines|, 2
  {
    BlockSound(w, lines, lineNo, indent, false);
  }

  lemma {:induction false} BlockSound(w: Widget, lines: seq<string>, lineNo: nat, indent: nat, widgetAdded: bool)
    ensures BlockOk(w, lines, lineNo, indent, LoadBlock(w, lines, lineNo, indent, widgetAdded))
    decreases |lines|, 1
  {
    if lines == [] {
      assert Consumed(lines, lines) == [];
    } else if Skipped(lines[0]) {
      BlockSound(w, lines[1..], lineNo, indent, widgetAdded);
      SkipSound(w, lines, lineNo, indent, widgetAdded);
    } else {
      var level := IndentationLevel(lines[0]);
      if level < indent || level == 0 || level > indent + 4 || level % 4 != 0 {
        StopSound(w, lines, lineNo, indent, widgetAdded);
      } else {
        AdvanceSound(w, lines, lineNo, indent, widgetAdded);
      }
    }
  }

  lemma {:induction false} AdvanceSound(w: Widget, lines: seq<string>, lineNo: nat, indent: nat, widgetAdded: bool)
    requires lines != [] && NestedLine(lines[0], indent) && !Skipped(lines[0])
    ensures BlockOk(w, lines, lineNo, indent, Advance(w, lines, lineNo, indent, widgetAdded))
    decreases |lines|, 0
  {
    var o := LoadLine(w, Trim(lines[0]), lines[1..], lineNo, indent, widgetAdded);
    LineSound(w, Trim(lines[0]), lines[1..], lineNo, indent, widgetAdded);
    if o.Done? {
      var step := o.value;
      var r := LoadBlock(step.widget, step.rest, step.lineNo + 1, indent, step.widgetAdded);
      BlockSound(step.widget, step.rest, step.lineNo + 1, indent, step.widgetAdded);
      AdvanceUnfold(w, lines, lineNo, indent, widgetAdded, step);
      ContinueOk(w, lines, lineNo, indent, step, r);
    } else {
      AdvanceStopped(w, lines, lineNo, indent, widgetAdded);
    }
  }

  /** A line that loaded: the block carries on after the step. */
  lemma AdvanceUnfold(w: Widget, lines: seq<string>, lineNo: nat, indent: nat, widgetAdded: bool, step: Step)
    requires lines != []
    requires LoadLine(w, Trim(lines[0]), lines[1..], lineNo, indent, widgetAdded) == Done(step)
    ensures Advance(w, lines, lineNo, indent, widgetAdded)
         == LoadBlock(step.widget, step.rest, step.lineNo + 1, indent, step.widgetAdded)
  {
  }

  /** A line that failed or aborted ends the block with its own outcome. */
  lemma AdvanceStopped(w: Widget, lines: seq<string>, lineNo: nat, indent: nat, widgetAdded: bool)
    requires lines != []
    requires var o := LoadLine(w, Trim(lines[0]), lines[1..], lineNo, indent, widgetAdded);
      && !o.Done?
      && (o.Failed? ==> lineNo <= o.error.line <= lineNo + CountSignificant(lines[1..]))
      && (o.Panicked? ==> o.panic.UnknownWidget?)
    requires !Skipped(lines[0])
    ensures BlockOk(w, lines, lineNo, indent, Advance(w, lines, lineNo, indent, widgetAdded))
  {
    assert lines == [lines[0]] + lines[1..];
    CountConcat([lines[0]], lines[1..]);
  }

  /** A skipped line leaves a block load's promise intact. */
  lemma SkipSound(w: Widget, lines: seq<string>, lineNo: nat, indent: nat, widgetAdded: bool)
    requires lines != [] && Skipped(lines[0])
    requires BlockOk(w, lines[1..], lineNo, indent, LoadBlock(w, lines[1..], lineNo, indent, widgetAdded))
    ensures BlockOk(w, lines, lineNo, indent, LoadBlock(w, lines, lineNo, indent, widgetAdded))
  {
    var r := LoadBlock(w, lines[1..], lineNo, indent, widgetAdded);
    assert LoadBlock(w, lines, lineNo, indent, widgetAdded) == r;
    assert lines == [lines[0]] + lines[1..];
    CountConcat([lines[0]], lines[1..]);
    if r.Done? {
      SkipEnded(w, lines, lineNo, indent, r.value);
    }
  }

  /** A first line indented less than the block ends it; one at column 0 or
      at an invalid indentation fails on that line. */
  lemma StopSound(w: Widget, lines: seq<string>, lineNo: nat, indent: nat, widgetAdded: bool)
    requires lines != [] && !Skipped(lines[0])
    requires var level := IndentationLevel(lines[0]);
      level < indent || level == 0 || level > indent + 4 || level % 4 != 0
    ensures BlockOk(w, lines, lineNo, indent, LoadBlock(w, lines, lineNo, indent, widgetAdded))
  {
    assert lines == [lines[0]] + lines[1..];
    CountConcat([lines[0]], lines[1..]);
    assert Consumed(lines, lines) == [];
  }

  /** Bookkeeping for a line that loaded: whatever the rest of
      the block produced is a valid outcome for the whole block. */
  lemma ContinueOk(w: Widget, lines: seq<string>, lineNo: nat, indent: nat, step: Step, r: Outcome<Loaded>)
    requires lines != [] && !Skipped(lines[0]) && NestedLine(lines[0], indent)
    requires Stepped(w, lines[1..], lineNo, indent, step)
    requires BlockOk(step.widget, step.rest, step.lineNo + 1, indent, r)
    ensures BlockOk(w, lines, lineNo, indent, r)
  {
    StepCount(lines, lineNo, step);
    if r.Done? {
      StepEnded(w, lines, lineNo, indent, step, r.value);
    }
  }

  lemma {:induction false} LineSound(w: Widget, line: string, remaining: seq<string>, lineNo: nat, indent: nat,
                                     widgetAdded: bool)
    ensures LineOk(w, line, remaining, lineNo, indent, widgetAdded,
                   LoadLine(w, line, remaining, lineNo, indent, widgetAdded))
    decreases |remaining|, 4
  {
    if IsDeclaration(line) {
      ChildSound(w, Trim(line[..|line| - 1]), remaining, lineNo, indent);
    } else if ':' in line && !widgetAdded {
      var (k, v) := SplitOnce(line, ':');
      var updated := WrapperWidgets.LoadValue(w, Trim(k), Trim(v), lineNo);
      if updated.Done? {
        assert Consumed(remaining, remaining) == [];
        if w.Layout? {
          assert IsPrefix(w.layout.children, updated.value.layout.children);
        }
      }
    }
  }

  /** A declaration succeeds exactly on a layout and a registered widget
      name whose block loads; an unregistered name aborts with that name, and
      no other abort can happen. On success it appends exactly that loaded child to the layout's
      children, keeps its direction, and resumes after the child's block. A
      failure inside the child's block or in adding it reports a line between
      the declaration and the end of that block. */
  lemma {:induction false} ChildSound(w: Widget, name: string, remaining: seq<string>, lineNo: nat, indent: nat)
    ensures var r := LoadChild(w, name, remaining, lineNo, indent);
      && (r.Done? ==> Stepped(w, remaining, lineNo, indent, r.value) && r.value.widgetAdded)
      && (r.Done? ==> var loaded := LoadConfig(WrapperWidgets.FromName(name).value, remaining, lineNo, indent + 4);
            && WrapperWidgets.FromName(name).Done? && loaded.Done? && w.Layout?
            && r.value.widget.layout.children == w.layout.children + [loaded.value.widget]
            && r.value.widget.layout.direction == w.layout.direction
            && r.value.rest == loaded.value.rest && r.value.lineNo == loaded.value.lineNo)
      && ((&& w.Layout? && WrapperWidgets.FromName(name).Done?
           && LoadConfig(WrapperWidgets.FromName(name).value, remaining, lineNo, indent + 4).Done?)
          ==> r.Done?)
      && (!WrapperWidgets.FromName(name).Done? ==> r == Panicked(UnknownWidget(name)))
      && (r.Failed? ==> lineNo <= r.error.line <= lineNo + CountSignificant(remaining))
      && (r.Panicked? ==> r.panic.UnknownWidget?)
    decreases |remaining|, 3
  {
    var child := WrapperWidgets.FromName(name);
    if child.Done? {
      var loaded := LoadConfig(child.value, remaining, lineNo, indent + 4);
      ConfigSound(child.value, remaining, lineNo, indent + 4);
      if loaded.Done? {
        CountSplit(remaining, loaded.value.rest);
        if w.Layout? {
          var parent := WrapperWidgets.AddChild(w, loaded.value.widget, loaded.value.lineNo).value;
          assert parent.layout.children == w.layout.children + [loaded.value.widget];
          assert IsPrefix(w.layout.children, parent.layout.children);
        }
      }
    }
  }

  lemma {:induction false} CountConcat(a: seq<string>, b: seq<string>)
    ensures CountSignificant(a + b) == CountSignificant(a) + CountSignificant(b)
    decreases |a|
  {
    if a == [] {
      assert a + b == b;
    } else {
      assert (a + b)[1..] == a[1..] + b;
      CountConcat(a[1..], b);
    }
  }

  /** The counter over a whole input splits at any suffix. */
  lemma CountSplit(lines: seq<string>, rest: seq<string>)
    requires IsSuffix(rest, lines)
    ensures CountSignificant(lines) == CountSignificant(Consumed(lines, rest)) + CountSignificant(rest)
  {
    assert lines == Consumed(lines, rest) + rest;
    CountConcat(Consumed(lines, rest), rest);
  }

  lemma InBlockConcat(a: seq<string>, b: seq<string>, indent: nat)
    requires InBlock(a, indent) && InBlock(b, indent)
    ensures InBlock(a + b, indent)
  {
    forall i | 0 <= i < |a + b|
      ensures NestedLine((a + b)[i], indent)
    {
      if i < |a| {
        assert (a + b)[i] == a[i];
      } else {
        assert (a + b)[i] == b[i - |a|];
      }
    }
  }

  /** Bookkeeping for one iteration of the block loop: the first line, the
      lines the step consumed after it (up to `mid`), and the lines the rest
      of the loop consumed (up to `rest`). */
  lemma StepChain(lines: seq<string>, mid: seq<string>, rest: seq<string>, indent: nat)
    requires |lines| > 0 && IsSuffix(mid, lines[1..]) && IsSuffix(rest, mid)
    ensures IsSuffix(rest, lines)
    ensures Consumed(lines, rest) == [lines[0]] + Consumed(lines[1..], mid) + Consumed(mid, rest)
    ensures CountSignificant(Consumed(lines, rest))
         == CountSignificant([lines[0]]) + CountSignificant(Consumed(lines[1..], mid)) + CountSignificant(Consumed(mid, rest))
    ensures CountSignificant(lines)
         == CountSignificant([lines[0]]) + CountSignificant(Consumed(lines[1..], mid)) + CountSignificant(mid)
    ensures (NestedLine(lines[0], indent) && InBlock(Consumed(lines[1..], mid), indent + 4)
             && InBlock(Consumed(mid, rest), indent)) ==> InBlock(Consumed(lines, rest), indent)
  {
    var c1, c2 := Consumed(lines[1..], mid), Consumed(mid, rest);
    assert lines == [lines[0]] + lines[1..];
    assert lines[1..] == c1 + mid;
    assert mid == c2 + rest;
    assert lines == [lines[0]] + c1 + c2 + rest;
    assert Consumed(lines, rest) == [lines[0]] + c1 + c2;
    CountConcat([lines[0]] + c1, c2);
    CountConcat([lines[0]], c1);
    CountSplit(lines[1..], mid);
    CountConcat([lines[0]], lines[1..]);
    if NestedLine(lines[0], indent) && InBlock(c1, indent + 4) && InBlock(c2, indent) {
      assert InBlock([lines[0]], indent);
      assert InBlock(c1, indent) by {
        forall i | 0 <= i < |c1| ensures NestedLine(c1[i], indent) {
          assert NestedLine(c1[i], indent + 4);
        }
      }
      InBlockConcat([lines[0]], c1, indent);
      InBlockConcat([lines[0]] + c1, c2, indent);
    }
  }

  /** What one loaded line promises, as `LoadLine` states it. */
  predicate Stepped(w: Widget, remaining: seq<string>, lineNo: nat, indent: nat, step: Step) {
    && IsSuffix(step.rest, remaining)
    && InBlock(Consumed(remaining, step.rest), indent + 4)
    && step.lineNo == lineNo + CountSignificant(Consumed(remaining, step.rest))
    && Grows(w, step.widget)
  }

  lemma GrowsTransitive(a: Widget, b: Widget, c: Widget)
    requires Grows(a, b) && Grows(b, c)
    ensures Grows(a, c)
  {
  }

  /** A skipped first line changes nothing about a successful block. */
  lemma SkipEnded(w: Widget, lines: seq<string>, lineNo: nat, indent: nat, r: Loaded)
    requires |lines| > 0 && Skipped(lines[0])
    requires Ended(w, lines[1..], lineNo, indent, r)
    ensures Ended(w, lines, lineNo, indent, r)
  {
    StepChain(lines, lines[1..], r.rest, indent);
    assert Consumed(lines[1..], lines[1..]) == [];
  }

  /** The counter after a loaded line and its successors spans the input. */
  lemma StepCount(lines: seq<string>, lineNo: nat, step: Step)
    requires |lines| > 0 && !Skipped(lines[0])
    requires IsSuffix(step.rest, lines[1..])
    requires step.lineNo == lineNo + CountSignificant(Consumed(lines[1..], step.rest))
    ensures lineNo + CountSignificant(lines) == step.lineNo + 1 + CountSignificant(step.rest)
  {
    StepChain(lines, step.rest, step.rest, 0);
  }

  /** A validly indented first line followed by a successful rest of the
      block makes a successful block. */
  lemma StepEnded(w: Widget, lines: seq<string>, lineNo: nat, indent: nat, step: Step, r: Loaded)
    requires |lines| > 0 && !Skipped(lines[0]) && NestedLine(lines[0], indent)
    requires Stepped(w, lines[1..], lineNo, indent, step)
    requires Ended(step.widget, step.rest, step.lineNo + 1, indent, r)
    ensures Ended(w, lines, lineNo, indent, r)
  {
    StepChain(lines, step.rest, r.rest, indent);
    GrowsTransitive(w, step.widget, r.widget);
  }
}
