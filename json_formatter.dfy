/**
 * The JSON formatter tool: the two-stage parse (`json.loads`, then `ast.literal_eval`) with
 * its position reports and composite error message, the projection of a parsed value onto
 * the (key, value) rows of the tree widget, the click / expand-all / collapse-all behaviour
 * of that tree, and the three actions (format, compress, validate) with their empty-input guard.
 *
 * The two parsers and `json.dumps` are library code; they enter as function-typed parameters.
 */
module JsonFormatter {
  import opened Wrappers
  import opened PyText

  /**
   * A value produced by either parser (the JSON-compatible part of Python's literals). `Obj`
   * keeps a mapping's entries in order; its keys are distinct when it comes from a Python dict
   * (`UniqueKeys`), and a non-string key of `literal_eval` is carried as its `str()`.
   */
  datatype Value =
    | Null
    | Bool(b: bool)
    | Int(i: int)
    | Float(repr: string)    // a float, carried as the text `str()` gives for it
    | Str(s: string)
    | Arr(items: seq<Value>)
    | Obj(entries: seq<(string, Value)>)

  /** Line and column numbers the parsers report are 1-based. */
  type Pos = n: int | n >= 1 witness 1

  /** What `json.loads` does with a text: a value, or a `JSONDecodeError` (msg, lineno, colno). */
  datatype StrictResult =
    | StrictOk(value: Value)
    | StrictError(msg: string, lineno: Pos, colno: Pos)

  /** Where a `SyntaxError` says it happened; `offset` may be `None` (one without a line number is not modelled). */
  datatype Position = Position(lineno: Pos, offset: Option<int>)

  /**
   * What `ast.literal_eval` does with a text: a value, or an error given by its `str()`;
   * a `SyntaxError` carries a position, a `ValueError` carries none.
   */
  datatype LooseResult =
    | LooseOk(value: Value)
    | LooseError(text: string, position: Option<Position>)

  datatype Grammar = Strict | Loose

  /** The result of `parse_input`: a value, or the `ValueError` it raises with its message. */
  datatype Outcome = Parsed(value: Value) | Failed(message: string)

  /** The text split into lines as `text.split('\n')` does. */
  function Lines(text: string): seq<string> {
    Split(text, '\n')
  }

  /** `' ' * n`, which is empty for `n <= 0`. */
  function Spaces(n: int): (r: string)
    ensures |r| == if n <= 0 then 0 else n
    ensures forall k :: 0 <= k < |r| ==> r[k] == ' '
  {
    if n <= 0 then [] else seq(n, _ => ' ')
  }

  /** The caret line: `col - 1` spaces, then `^`, so the caret stands under column `col`. */
  function Caret(col: int): (r: string)
    ensures '\n' !in r
    ensures col >= 1 ==> |r| == col && r[col - 1] == '^' && forall k :: 0 <= k < col - 1 ==> r[k] == ' '
    ensures col < 1 ==> r == "^"
  {
    Spaces(col - 1) + "^"
  }

  /** "第N行，第M列" */
  function PositionHeader(line: int, col: int): (r: string)
    ensures '\n' !in r
  {
    "第" + IntToString(line) + "行，第" + IntToString(col) + "列"
  }

  /**
   * The position report: the header, the offending line and the caret when the line exists,
   * the header alone otherwise.
   */
  function ErrorContext(text: string, line: Pos, col: int): string {
    var lines := Lines(text);
    if line <= |lines| then
      PositionHeader(line, col) + ":" + "\n" + lines[line - 1] + "\n" + Caret(col)
    else
      PositionHeader(line, col)
  }

  /** The report's lines, as a reader of the dialog sees them. */
  function ContextLines(text: string, line: Pos, col: int): seq<string> {
    var lines := Lines(text);
    if line <= |lines| then [PositionHeader(line, col) + ":", lines[line - 1], Caret(col)]
    else [PositionHeader(line, col)]
  }

  /** Split distributes over a joining separator. */
  lemma {:induction false} SplitAround(x: string, y: string, sep: char)
    ensures Split(x + [sep] + y, sep) == Split(x, sep) + Split(y, sep)
  {
    if x == [] {
      assert x + [sep] + y == [sep] + y;
      assert ([sep] + y)[1..] == y;
    } else {
      var s := x + [sep] + y;
      assert s[0] == x[0] && s[1..] == x[1..] + [sep] + y;
      SplitAround(x[1..], y, sep);
    }
  }

  /** A separator-free prefix is glued to the first piece of what follows it. */
  lemma {:induction false} SplitPrefix(p: string, c: string, sep: char)
    requires sep !in p
    ensures Split(p + c, sep) == [p + Split(c, sep)[0]] + Split(c, sep)[1..]
  {
    if p != [] {
      var s := p + c;
      assert p[0] in p && sep !in p[1..];
      assert s[0] == p[0] && s[1..] == p[1..] + c;
      SplitPrefix(p[1..], c, sep);
      var r := Split(s[1..], sep);
      assert r == [p[1..] + Split(c, sep)[0]] + Split(c, sep)[1..];
      assert Split(s, sep) == [[p[0]] + r[0]] + r[1..];
      assert r[1..] == Split(c, sep)[1..];
      assert [p[0]] + (p[1..] + Split(c, sep)[0]) == p + Split(c, sep)[0];
    } else {
      var S := Split(c, sep);
      assert p + c == c && p + S[0] == S[0];
      assert S == [S[0]] + S[1..];
    }
  }

  /** The position report has exactly the three lines (or the one line) it is built from. */
  lemma ErrorContextLines(text: string, line: Pos, col: int)
    ensures Lines(ErrorContext(text, line, col)) == ContextLines(text, line, col)
  {
    var lines := Lines(text);
    var h := PositionHeader(line, col);
    if line <= |lines| {
      assert '\n' !in h + ":";
      ThreeLines(h + ":", lines[line - 1], Caret(col));
    } else {
      SplitNoSep(h, '\n');
    }
  }

  /** Three newline-free texts joined by newlines read as those three lines. */
  lemma ThreeLines(p: string, l: string, c: string)
    requires '\n' !in p && '\n' !in l && '\n' !in c
    ensures Lines(p + "\n" + l + "\n" + c) == [p, l, c]
  {
    SplitNoSep(c, '\n');
    SplitAfter(l, c, '\n');
    SplitAfter(p, l + "\n" + c, '\n');
    assert p + "\n" + l + "\n" + c == p + ['\n'] + (l + ['\n'] + c);
  }

  /** The paragraph for a `json.loads` failure. */
  function StrictParagraph(text: string, msg: string, line: Pos, col: Pos): string {
    "JSON格式错误: " + msg + "\n位置: " + ErrorContext(text, line, col)
  }

  /** `e.offset or 1`: a missing or zero offset becomes column 1. */
  function LooseColumn(offset: Option<int>): (col: int)
    ensures col != 0
    ensures offset == None ==> col == 1
    ensures offset == Some(0) ==> col == 1
    ensures offset.Some? && offset.value != 0 ==> col == offset.value
  {
    match offset
    case None => 1
    case Some(o) => if o == 0 then 1 else o
  }

  /** The paragraph for an `ast.literal_eval` failure, with a position report only when the error has one. */
  function LooseParagraph(text: string, e: LooseResult): string
    requires e.LooseError?
  {
    match e.position
    case None => "Python字典格式错误: " + e.text
    case Some(p) =>
      "Python字典格式错误: " + e.text + "\n位置: " + ErrorContext(text, p.lineno, LooseColumn(p.offset))
  }

  const SummaryLine := "无法解析输入内容，发现以下问题:"
  const SummaryHeader := SummaryLine + "\n\n"
  const HintTitle := "建议检查:"
  const Hint1 := "• 括号、引号是否配对"
  const Hint2 := "• 逗号是否正确使用"
  const Hint3 := "• 键名是否用引号包围"
  const Hint4 := "• 是否有多余的逗号"
  const Hints := "\n\n" + HintTitle + "\n" + Hint1 + "\n" + Hint2 + "\n" + Hint3 + "\n" + Hint4

  /** `"\n\n".join(errors)`. */
  function JoinParagraphs(errors: seq<string>): string {
    if errors == [] then []
    else if |errors| == 1 then errors[0]
    else errors[0] + "\n\n" + JoinParagraphs(errors[1..])
  }

  /** The message raised when both parsers fail. */
  function Composite(errors: seq<string>): string {
    SummaryHeader + JoinParagraphs(errors) + Hints
  }

  /** What `parse_input` returns or raises for a text. */
  function Parse(text: string, strict: string -> StrictResult, loose: string -> LooseResult): Outcome {
    match strict(text)
    case StrictOk(v) => Parsed(v)
    case StrictError(msg, line, col) =>
      match loose(text)
      case LooseOk(v) => Parsed(v)
      case LooseError(_, _) =>
        Failed(Composite([StrictParagraph(text, msg, line, col), LooseParagraph(text, loose(text))]))
  }

  /**
   * `parse_input`: the strict parser first; the loose parser only after a strict failure; the
   * error paragraphs collected in order and raised together when both fail. `tried` lists
   * the parsers consulted, in order.
   */
  method ParseInput(text: string, strict: string -> StrictResult, loose: string -> LooseResult)
    returns (outcome: Outcome, tried: seq<Grammar>)
    ensures outcome == Parse(text, strict, loose)
    ensures strict(text).StrictOk? ==> outcome == Parsed(strict(text).value) && tried == [Strict]
    ensures strict(text).StrictError? ==> tried == [Strict, Loose]
    ensures strict(text).StrictError? && loose(text).LooseOk? ==> outcome == Parsed(loose(text).value)
    ensures outcome.Failed? <==> strict(text).StrictError? && loose(text).LooseError?
  {
    var errors: seq<string> := [];
    tried := [Strict];
    var s := strict(text);
    if s.StrictOk? {
      return Parsed(s.value), tried;
    }
    errors := errors + [StrictParagraph(text, s.msg, s.lineno, s.colno)];
    tried := tried + [Loose];
    var l := loose(text);
    if l.LooseOk? {
      return Parsed(l.value), tried;
    }
    errors := errors + [LooseParagraph(text, l)];
    outcome := Failed(Composite(errors));
  }

  /** The lines of the strict paragraph: the message, then the report with "位置: " before its first line. */
  function StrictParagraphLines(text: string, msg: string, line: Pos, col: Pos): seq<string> {
    var ctx := ContextLines(text, line, col);
    ["JSON格式错误: " + msg, "位置: " + ctx[0]] + ctx[1..]
  }

  /** The lines of the loose paragraph. */
  function LooseParagraphLines(text: string, e: LooseResult): seq<string>
    requires e.LooseError?
  {
    match e.position
    case None => ["Python字典格式错误: " + e.text]
    case Some(p) =>
      var ctx := ContextLines(text, p.lineno, LooseColumn(p.offset));
      ["Python字典格式错误: " + e.text, "位置: " + ctx[0]] + ctx[1..]
  }

  const HintLines := [HintTitle, Hint1, Hint2, Hint3, Hint4]

  /** A blank line between two texts: `x + "\n\n" + y` reads as x's lines, "", then y's lines. */
  lemma SplitBlank(x: string, y: string)
    ensures Lines(x + "\n\n" + y) == Lines(x) + [""] + Lines(y)
  {
    assert x + "\n\n" + y == x + ['\n'] + ([] + ['\n'] + y);
    SplitAround(x, [] + ['\n'] + y, '\n');
    SplitAround([], y, '\n');
  }

  /** A labelled paragraph "<tag><msg>\n位置: <report>" reads as the tag line, then the report. */
  lemma LabelledLines(tag: string, msg: string, text: string, line: Pos, col: int)
    requires '\n' !in tag + msg
    ensures var ctx := ContextLines(text, line, col);
      Lines(tag + msg + "\n位置: " + ErrorContext(text, line, col)) == [tag + msg, "位置: " + ctx[0]] + ctx[1..]
  {
    var e := ErrorContext(text, line, col);
    ErrorContextLines(text, line, col);
    assert tag + msg + "\n位置: " + e == (tag + msg) + ['\n'] + "位置: " + e;
    PrefixedLines(tag + msg, "位置: ", e);
  }

  /** A newline-free first line, then a newline-free prefix glued to the first line of the rest. */
  lemma PrefixedLines(a: string, loc: string, e: string)
    requires '\n' !in a && '\n' !in loc
    ensures Lines(a + ['\n'] + loc + e) == [a, loc + Lines(e)[0]] + Lines(e)[1..]
  {
    var S := Lines(e);
    assert a + ['\n'] + loc + e == a + ['\n'] + (loc + e);
    SplitAround(a, loc + e, '\n');
    SplitNoSep(a, '\n');
    SplitPrefix(loc, e, '\n');
    assert [a] + ([loc + S[0]] + S[1..]) == [a, loc + S[0]] + S[1..];
  }

  /** A newline-free first line, then the lines of the rest. */
  lemma LinesCons(a: string, b: string)
    requires '\n' !in a
    ensures Lines(a + "\n" + b) == [a] + Lines(b)
  {
    assert a + "\n" + b == a + ['\n'] + b;
    SplitAround(a, b, '\n');
    SplitNoSep(a, '\n');
  }

  /** The hint list sits after a blank line. */
  lemma HintsText()
    ensures Hints == "\n\n" + HintText()
  {
  }

  /** Five newline-free texts joined by newlines read as those five lines. */
  lemma LinesOfFive(a: string, b: string, c: string, d: string, e: string)
    requires '\n' !in a && '\n' !in b && '\n' !in c && '\n' !in d && '\n' !in e
    ensures Lines(a + "\n" + (b + "\n" + (c + "\n" + (d + "\n" + e)))) == [a, b, c, d, e]
  {
    SplitNoSep(e, '\n');
    LinesCons(d, e);
    LinesCons(c, d + "\n" + e);
    LinesCons(b, c + "\n" + (d + "\n" + e));
    LinesCons(a, b + "\n" + (c + "\n" + (d + "\n" + e)));
  }

  /** The hint list reads as its five lines. */
  lemma HintsLines()
    ensures Lines(HintText()) == HintLines
  {
    assert '\n' !in HintTitle;
    assert '\n' !in Hint1;
    assert '\n' !in Hint2;
    assert '\n' !in Hint3;
    assert '\n' !in Hint4;
    LinesOfFive(HintTitle, Hint1, Hint2, Hint3, Hint4);
  }

  function HintText(): string {
    HintTitle + "\n" + (Hint1 + "\n" + (Hint2 + "\n" + (Hint3 + "\n" + Hint4)))
  }

  /** Four texts separated by blank lines read as their lines with a "" between each two. */
  lemma BlankSeparated(h: string, p1: string, p2: string, t: string)
    ensures Lines(h + "\n\n" + (p1 + "\n\n" + (p2 + "\n\n" + t))) ==
      Lines(h) + [""] + Lines(p1) + [""] + Lines(p2) + [""] + Lines(t)
  {
    SplitBlank(p2, t);
    SplitBlank(p1, p2 + "\n\n" + t);
    SplitBlank(h, p1 + "\n\n" + (p2 + "\n\n" + t));
    Flatten(Lines(h), Lines(p1), Lines(p2), Lines(t), "");
  }

  /** Regrouping four blocks with a separator element between each two. */
  lemma Flatten<T>(a: seq<T>, b: seq<T>, c: seq<T>, d: seq<T>, sep: T)
    ensures a + [sep] + (b + [sep] + (c + [sep] + d)) == a + [sep] + b + [sep] + c + [sep] + d
  {
  }

  /** Regrouping a header, two paragraphs and a trailer around the same separator. */
  lemma Regroup<T>(s: seq<T>, n: seq<T>, p1: seq<T>, p2: seq<T>, h: seq<T>)
    ensures (s + n) + (p1 + n + p2) + (n + h) == s + n + (p1 + n + (p2 + n + h))
  {
  }

  /** The composite message for two paragraphs, as blank-separated blocks. */
  lemma CompositeOfTwo(p1: string, p2: string)
    ensures Composite([p1, p2]) == SummaryLine + "\n\n" + (p1 + "\n\n" + (p2 + "\n\n" + HintText()))
  {
    HintsText();
    assert JoinParagraphs([p1, p2]) == p1 + "\n\n" + p2;
    Regroup(SummaryLine, "\n\n", p1, p2, HintText());
  }

  /** The lines of the strict paragraph, for a single-line parser message. */
  lemma StrictLines(text: string, msg: string, line: Pos, col: Pos)
    requires '\n' !in msg
    ensures Lines(StrictParagraph(text, msg, line, col)) == StrictParagraphLines(text, msg, line, col)
  {
    LabelledLines("JSON格式错误: ", msg, text, line, col);
  }

  lemma SummaryLines()
    ensures Lines(SummaryLine) == [SummaryLine]
  {
    SplitNoSep(SummaryLine, '\n');
  }

  /** The lines of the loose paragraph, for single-line parser messages. */
  lemma LooseLines(text: string, e: LooseResult)
    requires e.LooseError? && '\n' !in e.text
    ensures Lines(LooseParagraph(text, e)) == LooseParagraphLines(text, e)
  {
    match e.position {
      case None =>
        assert '\n' !in "Python字典格式错误: " + e.text;
        SplitNoSep(LooseParagraph(text, e), '\n');
      case Some(p) =>
        LabelledLines("Python字典格式错误: ", e.text, text, p.lineno, LooseColumn(p.offset));
    }
  }

  /**
   * When both parsers fail, the message reads line by line as: the summary line, a blank line,
   * the strict paragraph, a blank line, the loose paragraph, a blank line, then the hint list.
   * (The parsers' own messages are single lines.)
   */
  lemma CompositeLines(text: string, msg: string, line: Pos, col: Pos, e: LooseResult)
    requires e.LooseError? && '\n' !in msg && '\n' !in e.text
    ensures Lines(Composite([StrictParagraph(text, msg, line, col), LooseParagraph(text, e)])) ==
      [SummaryLine, ""] + StrictParagraphLines(text, msg, line, col) + [""]
      + LooseParagraphLines(text, e) + [""] + HintLines
  {
    var p1 := StrictParagraph(text, msg, line, col);
    var p2 := LooseParagraph(text, e);
    StrictLines(text, msg, line, col);
    LooseLines(text, e);
    HintsLines();
    SummaryLines();
    CompositeOfTwo(p1, p2);
    BlankSeparated(SummaryLine, p1, p2, HintText());
    var l1 := StrictParagraphLines(text, msg, line, col);
    var l2 := LooseParagraphLines(text, e);
    assert Lines(Composite([p1, p2])) == [SummaryLine] + [""] + l1 + [""] + l2 + [""] + HintLines;
    assert [SummaryLine] + [""] == [SummaryLine, ""];
  }

  // ---------------------------------------------------------------------------------------
  // The tree view

  /** A row of the tree widget: key column, value column, expanded flag and child rows. */
  datatype TreeItem = TreeItem(key: string, text: string, expanded: bool, children: seq<TreeItem>)

  /** `str(v)` of a scalar, with `None` shown as "null". */
  function ScalarText(v: Value): string
    requires !v.Arr? && !v.Obj?
  {
    match v
    case Null => "null"
    case Bool(b) => if b then "True" else "False"
    case Int(i) => IntToString(i)
    case Float(r) => r
    case Str(s) => s
  }

  /** The value column: "..." for a mapping, "[n items]" for a list, the scalar's text otherwise. */
  function DisplayText(v: Value): string {
    match v
    case Obj(_) => "..."
    case Arr(xs) => "[" + NatToString(|xs|) + " items]"
    case _ => ScalarText(v)
  }

  /** How many rows a value contributes directly below itself. */
  function Width(v: Value): nat {
    match v
    case Arr(xs) => |xs|
    case Obj(es) => |es|
    case _ => 0
  }

  /** The row for one entry, with the rows of its own entries below it, all collapsed. */
  function Item(key: string, v: Value): TreeItem
    decreases v, 1
  {
    TreeItem(key, DisplayText(v), false, Items(v))
  }

  /** `add_tree_items`: one row per key of a mapping, one row per index of a list, none for a scalar. */
  function Items(v: Value): (r: seq<TreeItem>)
    decreases v, 0
    ensures |r| == Width(v)
  {
    match v
    case Arr(xs) => seq(|xs|, i requires 0 <= i < |xs| => Item(NatToString(i), xs[i]))
    case Obj(es) => seq(|es|, i requires 0 <= i < |es| => Item(es[i].0, es[i].1))
    case _ => []
  }

  /** `update_tree_view`: nothing for `None`, otherwise the rows of the value, all expanded. */
  function TreeFor(v: Value): seq<TreeItem> {
    if v == Null then [] else SetExpanded(Items(v), true)
  }

  /** `expandAll` (`b`) and `collapseAll` (`!b`): every row that has children gets the flag `b`. */
  function SetExpanded(ts: seq<TreeItem>, b: bool): (r: seq<TreeItem>)
    ensures |r| == |ts|
    decreases ts, 1
  {
    seq(|ts|, i requires 0 <= i < |ts| => SetNode(ts[i], b))
  }

  function SetNode(t: TreeItem, b: bool): TreeItem
    decreases t, 0
  {
    TreeItem(t.key, t.text, if t.children != [] then b else t.expanded, SetExpanded(t.children, b))
  }

  /** The row reached by following `path` (child indices from the top level), if there is one. */
  function NodeAt(ts: seq<TreeItem>, path: seq<nat>): Option<TreeItem>
    decreases |path|
  {
    if path == [] || path[0] >= |ts| then None
    else if |path| == 1 then Some(ts[path[0]])
    else NodeAt(ts[path[0]].children, path[1..])
  }

  /** `on_tree_item_clicked` on the row at `path`: a row with children flips its flag, a leaf stays. */
  function ClickAt(ts: seq<TreeItem>, path: seq<nat>): (r: seq<TreeItem>)
    ensures |r| == |ts|
    decreases |path|
  {
    if path == [] || path[0] >= |ts| then ts
    else
      var t := ts[path[0]];
      if |path| == 1 then
        (if t.children != [] then ts[path[0] := t.(expanded := !t.expanded)] else ts)
      else ts[path[0] := t.(children := ClickAt(t.children, path[1..]))]
  }

  /** Every row of the forest (at any depth) satisfies `ok`. */
  predicate AllRows(ts: seq<TreeItem>, ok: TreeItem -> bool)
    decreases ts, 1
  {
    forall i :: 0 <= i < |ts| ==> RowAndBelow(ts[i], ok)
  }

  predicate RowAndBelow(t: TreeItem, ok: TreeItem -> bool)
    decreases t, 0
  {
    ok(t) && AllRows(t.children, ok)
  }

  /** A row with children carries the flag `b`. */
  function ParentRule(b: bool): TreeItem -> bool {
    (t: TreeItem) => t.children != [] ==> t.expanded == b
  }

  /**
   * A leaf row is not marked expanded. The tool itself never reads a leaf's flag (a click
   * tests `childCount()` first); this rule records that no action ever sets one.
   */
  const LeafRule: TreeItem -> bool := (t: TreeItem) => t.children == [] ==> !t.expanded

  /** Every row with children has the flag `b`. */
  predicate Uniform(ts: seq<TreeItem>, b: bool) {
    AllRows(ts, ParentRule(b))
  }

  /** No leaf row is marked expanded. */
  predicate LeavesClosed(ts: seq<TreeItem>) {
    AllRows(ts, LeafRule)
  }

  /** After `expandAll`/`collapseAll` with `b`, every row with children carries `b`. */
  lemma {:induction false} SetExpandedUniform(ts: seq<TreeItem>, b: bool)
    ensures Uniform(SetExpanded(ts, b), b)
    decreases ts, 1
  {
    var r := SetExpanded(ts, b);
    forall i | 0 <= i < |r|
      ensures RowAndBelow(r[i], ParentRule(b))
    {
      SetNodeUniform(ts[i], b);
    }
  }

  lemma {:induction false} SetNodeUniform(t: TreeItem, b: bool)
    ensures RowAndBelow(SetNode(t, b), ParentRule(b))
    decreases t, 0
  {
    SetExpandedUniform(t.children, b);
  }

  /** `expandAll`/`collapseAll` never marks a leaf expanded. */
  lemma {:induction false} SetExpandedKeepsLeaves(ts: seq<TreeItem>, b: bool)
    requires LeavesClosed(ts)
    ensures LeavesClosed(SetExpanded(ts, b))
    decreases ts, 1
  {
    var r := SetExpanded(ts, b);
    forall i | 0 <= i < |r|
      ensures RowAndBelow(r[i], LeafRule)
    {
      assert RowAndBelow(ts[i], LeafRule);
      SetNodeKeepsLeaves(ts[i], b);
    }
  }

  lemma {:induction false} SetNodeKeepsLeaves(t: TreeItem, b: bool)
    requires RowAndBelow(t, LeafRule)
    ensures RowAndBelow(SetNode(t, b), LeafRule)
    decreases t, 0
  {
    SetExpandedKeepsLeaves(t.children, b);
  }

  /** Only the last of several expand-all/collapse-all actions matters. */
  lemma {:induction false} SetExpandedLastWins(ts: seq<TreeItem>, a: bool, b: bool)
    ensures SetExpanded(SetExpanded(ts, a), b) == SetExpanded(ts, b)
    decreases ts, 1
  {
    forall i | 0 <= i < |ts|
      ensures SetNode(SetNode(ts[i], a), b) == SetNode(ts[i], b)
    {
      SetNodeLastWins(ts[i], a, b);
    }
  }

  lemma {:induction false} SetNodeLastWins(t: TreeItem, a: bool, b: bool)
    ensures SetNode(SetNode(t, a), b) == SetNode(t, b)
    decreases t, 0
  {
    SetExpandedLastWins(t.children, a, b);
  }

  /** The projection builds every row collapsed, so in particular no leaf is expanded. */
  lemma {:induction false} ItemsLeavesClosed(v: Value)
    ensures LeavesClosed(Items(v))
    decreases v, 1
  {
    var r := Items(v);
    forall i | 0 <= i < |r|
      ensures RowAndBelow(r[i], LeafRule)
    {
      match v {
        case Arr(xs) => ItemsLeavesClosed(xs[i]);
        case Obj(es) => ItemsLeavesClosed(es[i].1);
      }
    }
  }

  /** The freshly shown tree: every row with children is expanded, every leaf is not. */
  lemma TreeForState(v: Value)
    ensures Uniform(TreeFor(v), true) && LeavesClosed(TreeFor(v))
  {
    if v != Null {
      SetExpandedUniform(Items(v), true);
      ItemsLeavesClosed(v);
      SetExpandedKeepsLeaves(Items(v), true);
    }
  }

  /** The tree is empty exactly for `None`, a scalar, an empty list or an empty mapping. */
  lemma TreeForEmpty(v: Value)
    ensures TreeFor(v) == [] <==> Width(v) == 0
  {
  }

  /** A list row's value column counts exactly the rows below it. */
  lemma ListTextCounts(key: string, xs: seq<Value>)
    ensures var t := Item(key, Arr(xs)); t.text == "[" + NatToString(|t.children|) + " items]"
  {
  }

  /** The rows of a list are keyed by their index: the key reads back as the index, so keys differ. */
  lemma ListKeys(xs: seq<Value>)
    ensures var r := Items(Arr(xs));
      forall i :: 0 <= i < |r| ==> PyInt(r[i].key) == Some(i)
    ensures var r := Items(Arr(xs));
      forall i, j :: 0 <= i < j < |r| ==> r[i].key != r[j].key
  {
    var r := Items(Arr(xs));
    forall i | 0 <= i < |r| ensures PyInt(r[i].key) == Some(i) {
      assert r[i] == Item(NatToString(i), xs[i]);
      assert IntToString(i) == NatToString(i);
      IntRoundTrip(i);
    }
  }

  /** The keys of a mapping's entries are pairwise distinct, as in a Python dict. */
  predicate UniqueKeys(es: seq<(string, Value)>) {
    forall i, j :: 0 <= i < j < |es| ==> es[i].0 != es[j].0
  }

  /** The dict a sequence of entries stands for: a later entry for a key overrides an earlier one. */
  function AsMap(es: seq<(string, Value)>): (m: map<string, Value>)
    ensures forall k :: k in m <==> exists i :: 0 <= i < |es| && es[i].0 == k
  {
    if es == [] then map[]
    else
      var init := es[..|es| - 1];
      var m := AsMap(init);
      assert forall i :: 0 <= i < |es| - 1 ==> init[i] == es[i];
      m[es[|es| - 1].0 := es[|es| - 1].1]
  }

  /** With distinct keys, each entry's value is what the dict holds for its key. */
  lemma {:induction false} AsMapAt(es: seq<(string, Value)>, i: nat)
    requires UniqueKeys(es) && i < |es|
    ensures es[i].0 in AsMap(es) && AsMap(es)[es[i].0] == es[i].1
  {
    if i < |es| - 1 {
      var init := es[..|es| - 1];
      assert UniqueKeys(init) by {
        forall a, b | 0 <= a < b < |init| ensures init[a].0 != init[b].0 {
          assert init[a] == es[a] && init[b] == es[b];
        }
      }
      AsMapAt(init, i);
      assert init[i] == es[i];
      assert es[i].0 != es[|es| - 1].0;
    }
  }

  /** The row `t` shows the value the dict `m` holds for the row's key, with that value's rows below it. */
  predicate RowShows(t: TreeItem, m: map<string, Value>) {
    t.key in m && t.text == DisplayText(m[t.key]) && t.children == Items(m[t.key])
  }

  /**
   * The rows of a mapping show the dict: one row per key, in the entries' order, no key twice,
   * and each row shows the value the dict holds for its key.
   */
  lemma ObjKeys(es: seq<(string, Value)>)
    requires UniqueKeys(es)
    ensures var r := Items(Obj(es));
      forall i :: 0 <= i < |r| ==> r[i].key == es[i].0 && RowShows(r[i], AsMap(es))
    ensures var r := Items(Obj(es));
      forall k :: k in AsMap(es) ==> exists i :: 0 <= i < |r| && r[i].key == k
    ensures var r := Items(Obj(es));
      forall i, j :: 0 <= i < j < |r| ==> r[i].key != r[j].key
  {
    var r := Items(Obj(es));
    var m := AsMap(es);
    forall i | 0 <= i < |r|
      ensures r[i].key == es[i].0 && RowShows(r[i], m)
    {
      assert r[i] == Item(es[i].0, es[i].1);
      AsMapAt(es, i);
    }
    forall k | k in m
      ensures exists i :: 0 <= i < |r| && r[i].key == k
    {
      var i :| 0 <= i < |es| && es[i].0 == k;
      assert r[i] == Item(es[i].0, es[i].1);
    }
  }

  /** Clicking a row that has children flips its flag and keeps everything else of that row. */
  lemma {:induction false} ClickFlips(ts: seq<TreeItem>, path: seq<nat>)
    requires NodeAt(ts, path).Some? && NodeAt(ts, path).value.children != []
    ensures var n := NodeAt(ts, path).value;
      NodeAt(ClickAt(ts, path), path) == Some(n.(expanded := !n.expanded))
    decreases |path|
  {
    if |path| > 1 {
      ClickFlips(ts[path[0]].children, path[1..]);
    }
  }

  /** Clicking a leaf, or a path that leads nowhere, changes nothing. */
  lemma {:induction false} ClickLeafNoop(ts: seq<TreeItem>, path: seq<nat>)
    requires NodeAt(ts, path).None? || NodeAt(ts, path).value.children == []
    ensures ClickAt(ts, path) == ts
    decreases |path|
  {
    if path != [] && path[0] < |ts| && |path| > 1 {
      var t := ts[path[0]];
      ClickLeafNoop(t.children, path[1..]);
      assert t.(children := t.children) == t;
    }
  }

  /** Two clicks on the same row restore the tree. */
  lemma {:induction false} ClickTwice(ts: seq<TreeItem>, path: seq<nat>)
    ensures ClickAt(ClickAt(ts, path), path) == ts
    decreases |path|
  {
    if path != [] && path[0] < |ts| && |path| > 1 {
      var t := ts[path[0]];
      ClickTwice(t.children, path[1..]);
      var c := ClickAt(t.children, path[1..]);
      var once := ts[path[0] := t.(children := c)];
      assert ClickAt(ts, path) == once;
      assert once[path[0]].children == c;
    }
  }

  /** Two paths that agree on their first step, compared through their tails. */
  lemma ConsPaths(p: seq<nat>, q: seq<nat>)
    requires p != [] && q != [] && p[0] == q[0]
    ensures q[1..] == p[1..] ==> q == p
    ensures |q[1..]| < |p[1..]| && p[1..][..|q[1..]|] == q[1..] ==> |q| < |p| && p[..|q|] == q
    ensures |q| == 1 && |p| > 1 ==> |q| < |p| && p[..|q|] == q
  {
    assert q == [q[0]] + q[1..];
    assert p == [p[0]] + p[1..];
    if |q| <= |p| {
      assert p[..|q|] == [p[0]] + p[1..][..|q| - 1];
    }
  }

  /** Every row other than the clicked one and its ancestors is left exactly as it was. */
  lemma {:induction false} ClickElsewhere(ts: seq<TreeItem>, path: seq<nat>, other: seq<nat>)
    requires other != path
    requires !(|other| < |path| && path[..|other|] == other)
    ensures NodeAt(ClickAt(ts, path), other) == NodeAt(ts, other)
    decreases |path|
  {
    if path != [] && path[0] < |ts| && other != [] && other[0] == path[0] && |path| > 1 {
      ConsPaths(path, other);
      ClickElsewhere(ts[path[0]].children, path[1..], other[1..]);
    }
  }

  /** A click only ever changes expanded flags of rows with children: keys, texts and shape stay. */
  lemma {:induction false} ClickOnlyFlags(ts: seq<TreeItem>, path: seq<nat>, b: bool)
    ensures SetExpanded(ClickAt(ts, path), b) == SetExpanded(ts, b)
    decreases |path|
  {
    if path != [] && path[0] < |ts| {
      var t := ts[path[0]];
      var r := ClickAt(ts, path);
      if |path| > 1 {
        ClickOnlyFlags(t.children, path[1..], b);
      }
      assert SetNode(r[path[0]], b) == SetNode(t, b);
      forall i | 0 <= i < |ts| ensures SetNode(r[i], b) == SetNode(ts[i], b) {
        if i != path[0] { assert r[i] == ts[i]; }
      }
    }
  }

  /** A click never marks a leaf expanded. */
  lemma {:induction false} ClickKeepsLeaves(ts: seq<TreeItem>, path: seq<nat>)
    requires LeavesClosed(ts)
    ensures LeavesClosed(ClickAt(ts, path))
    decreases |path|
  {
    if path != [] && path[0] < |ts| {
      var t := ts[path[0]];
      var r := ClickAt(ts, path);
      assert RowAndBelow(t, LeafRule);
      if |path| > 1 {
        ClickKeepsLeaves(t.children, path[1..]);
      }
      forall i | 0 <= i < |r| ensures RowAndBelow(r[i], LeafRule) {
        if i != path[0] { assert RowAndBelow(ts[i], LeafRule); }
      }
    }
  }

  // Counting rows against counting values

  /** How many rows a forest has, at all depths. */
  function CountRows(ts: seq<TreeItem>): nat
    decreases ts
  {
    if ts == [] then 0
    else CountRows(ts[..|ts| - 1]) + 1 + CountRows(ts[|ts| - 1].children)
  }

  /** How many values a value is made of, itself included. */
  function Size(v: Value): nat
    decreases v, 1
  {
    match v
    case Arr(xs) => 1 + SizeOfValues(v, |xs|)
    case Obj(es) => 1 + SizeOfEntries(v, |es|)
    case _ => 1
  }

  /** The sizes of the first `n` elements of the list `v`, added up. */
  function SizeOfValues(v: Value, n: nat): nat
    requires v.Arr? && n <= |v.items|
    decreases v, 0, n
  {
    if n == 0 then 0 else SizeOfValues(v, n - 1) + Size(v.items[n - 1])
  }

  /** The sizes of the values of the first `n` entries of the mapping `v`, added up. */
  function SizeOfEntries(v: Value, n: nat): nat
    requires v.Obj? && n <= |v.entries|
    decreases v, 0, n
  {
    if n == 0 then 0 else SizeOfEntries(v, n - 1) + Size(v.entries[n - 1].1)
  }

  /** Every value below the root gets exactly one row. */
  lemma {:induction false} ItemsCount(v: Value)
    ensures CountRows(Items(v)) == Size(v) - 1
    decreases v, 2
  {
    match v {
      case Arr(xs) => ItemsCountValues(v, |xs|); assert Items(v)[..|xs|] == Items(v);
      case Obj(es) => ItemsCountEntries(v, |es|); assert Items(v)[..|es|] == Items(v);
      case _ =>
    }
  }

  lemma {:induction false} ItemsCountValues(v: Value, n: nat)
    requires v.Arr? && n <= |v.items|
    ensures CountRows(Items(v)[..n]) == SizeOfValues(v, n)
    decreases v, 1, n
  {
    if n > 0 {
      ItemsCountValues(v, n - 1);
      ItemsCount(v.items[n - 1]);
      assert Items(v)[..n][..n - 1] == Items(v)[..n - 1];
    }
  }

  lemma {:induction false} ItemsCountEntries(v: Value, n: nat)
    requires v.Obj? && n <= |v.entries|
    ensures CountRows(Items(v)[..n]) == SizeOfEntries(v, n)
    decreases v, 1, n
  {
    if n > 0 {
      ItemsCountEntries(v, n - 1);
      ItemsCount(v.entries[n - 1].1);
      assert Items(v)[..n][..n - 1] == Items(v)[..n - 1];
    }
  }

  // ---------------------------------------------------------------------------------------
  // The tool's actions

  /** The keyword arguments given to `json.dumps`. */
  datatype DumpOptions = DumpOptions(
    ensureAscii: bool,
    indent: Option<nat>,
    sortKeys: bool,
    separators: Option<(string, string)>)

  /** The formatted output: four-space indent, keys sorted. */
  const PrettyOptions := DumpOptions(false, Some(4), true, None)

  /** The compressed output: no indent, tight separators, keys left in their order. */
  const CompactOptions := DumpOptions(false, None, false, Some((",", ":")))

  /** A message box or the detailed-error dialog, with its title and text. */
  datatype Dialog =
    | Warning(title: string, text: string)
    | Info(title: string, text: string)
    | DetailedError(title: string, text: string)

  const ReadyStatus := "就绪 - 支持JSON和Python字典格式 | 拖动中间分割线调整窗口大小"
  const EmptyInputWarning := Warning("警告", "请输入JSON内容")
  const ValidMessage := "✅ 格式正确！\n\n已成功解析为JSON对象"

  /** The two actions that parse and then rewrite the output pane. */
  datatype Action = Format | Compress {

    /** The `json.dumps` arguments of the action. */
    function Options(): DumpOptions {
      if this == Format then PrettyOptions else CompactOptions
    }

    /** The status line after a successful parse. */
    function DoneStatus(): string {
      if this == Format then "JSON格式化完成" else "JSON压缩完成"
    }

    /** The title of the detailed-error dialog. */
    function FailTitle(): string {
      if this == Format then "格式化失败" else "压缩失败"
    }

    /** The status line after a failed parse. */
    function FailStatus(): string {
      if this == Format then "格式化失败 - 请检查语法错误" else "压缩失败 - 请检查语法错误"
    }
  }

  /**
   * The formatter's state: the output pane, the tree view, the status line and the dialogs
   * shown so far, oldest first. The input pane is the `input` argument of each action.
   */
  class JsonFormatterTool {
    var output: string
    var tree: seq<TreeItem>
    var status: string
    var dialogs: seq<Dialog>

    /** No leaf of the tree view is ever marked expanded (a bookkeeping fact; see `LeafRule`). */
    ghost predicate Valid()
      reads this`tree
    {
      LeavesClosed(tree)
    }

    constructor()
      ensures output == [] && tree == [] && status == ReadyStatus && dialogs == []
      ensures Valid()
    {
      output := [];
      tree := [];
      status := ReadyStatus;
      dialogs := [];
    }

    /** `update_tree_view`: the rows of the value, all expanded; nothing for `None`. */
    method UpdateTreeView(v: Value)
      requires Valid()
      modifies this
      ensures tree == TreeFor(v) && Uniform(tree, true)
      ensures output == old(output) && status == old(status) && dialogs == old(dialogs)
      ensures Valid()
    {
      TreeForState(v);
      tree := TreeFor(v);
    }

    /**
     * What a parse of `text` leaves behind in `format_json` and `compress_json`: a parsed
     * value is dumped with the action's options and shown in the tree, and the status says
     * it is done; a parse failure opens the detailed-error dialog with the composite
     * message, sets the failure status and leaves output and tree alone.
     */
    twostate predicate Rendered(text: string, strict: string -> StrictResult, loose: string -> LooseResult,
                                dumps: (Value, DumpOptions) -> string, action: Action)
      reads this
    {
      match Parse(text, strict, loose)
      case Parsed(v) =>
        output == dumps(v, action.Options()) && tree == TreeFor(v) &&
        status == action.DoneStatus() && dialogs == old(dialogs)
      case Failed(message) =>
        dialogs == old(dialogs) + [DetailedError(action.FailTitle(), message)] &&
        status == action.FailStatus() && output == old(output) && tree == old(tree)
    }

    /**
     * What a parse of `text` leaves behind in `validate_json`: an information dialog on
     * success, the detailed-error dialog on failure, and a status saying which.
     */
    twostate predicate Checked(text: string, strict: string -> StrictResult, loose: string -> LooseResult)
      reads this
    {
      match Parse(text, strict, loose)
      case Parsed(_) =>
        dialogs == old(dialogs) + [Info("验证结果", ValidMessage)] && status == "格式验证通过"
      case Failed(message) =>
        dialogs == old(dialogs) + [DetailedError("验证失败", message)] &&
        status == "格式验证失败 - 请检查语法错误"
    }

    /** Text empty after `strip()`: the warning, and nothing else changes. */
    twostate predicate Refused()
      reads this
    {
      dialogs == old(dialogs) + [EmptyInputWarning] &&
      output == old(output) && tree == old(tree) && status == old(status)
    }

    /** The empty-input branch shared by the three actions: the warning only. */
    method Refuse()
      modifies this
      ensures Refused()
    {
      dialogs := dialogs + [EmptyInputWarning];
    }

    /**
     * `format_json`: text empty after `strip()` gives a warning and no parse (`tried == []`);
     * otherwise the stripped text is parsed (strict grammar first) and rendered pretty-printed.
     */
    method FormatJson(input: string, strict: string -> StrictResult, loose: string -> LooseResult,
                      dumps: (Value, DumpOptions) -> string)
      returns (tried: seq<Grammar>)
      requires Valid()
      modifies this
      ensures Valid()
      ensures Strip(input) == [] ==> tried == [] && Refused()
      ensures Strip(input) != [] ==> tried != [] && tried[0] == Strict
      ensures Strip(input) != [] ==>
        Rendered(Strip(input), strict, loose, dumps, Format)
    {
      var text := Strip(input);
      if text == [] {
        Refuse();
        return [];
      }
      tried := RenderText(text, strict, loose, dumps, Format);
    }

    /** `compress_json`: as `format_json`, with the compact dump and its own messages. */
    method CompressJson(input: string, strict: string -> StrictResult, loose: string -> LooseResult,
                        dumps: (Value, DumpOptions) -> string)
      returns (tried: seq<Grammar>)
      requires Valid()
      modifies this
      ensures Valid()
      ensures Strip(input) == [] ==> tried == [] && Refused()
      ensures Strip(input) != [] ==> tried != [] && tried[0] == Strict
      ensures Strip(input) != [] ==>
        Rendered(Strip(input), strict, loose, dumps, Compress)
    {
      var text := Strip(input);
      if text == [] {
        Refuse();
        return [];
      }
      tried := RenderText(text, strict, loose, dumps, Compress);
    }

    /** The part of `format_json` and `compress_json` after the guard. */
    method RenderText(text: string, strict: string -> StrictResult, loose: string -> LooseResult,
                      dumps: (Value, DumpOptions) -> string, action: Action)
      returns (tried: seq<Grammar>)
      requires Valid()
      modifies this
      ensures Valid()
      ensures tried != [] && tried[0] == Strict
      ensures Rendered(text, strict, loose, dumps, action)
    {
      var outcome;
      outcome, tried := ParseInput(text, strict, loose);
      match outcome {
        case Parsed(v) =>
          output := dumps(v, action.Options());
          UpdateTreeView(v);
          status := action.DoneStatus();
        case Failed(m) =>
          dialogs := dialogs + [DetailedError(action.FailTitle(), m)];
          status := action.FailStatus();
      }
    }

    /** `validate_json`: the same guard and parse; output and tree are never touched. */
    method ValidateJson(input: string, strict: string -> StrictResult, loose: string -> LooseResult)
      returns (tried: seq<Grammar>)
      modifies this
      ensures output == old(output) && tree == old(tree)
      ensures Strip(input) == [] ==> tried == [] && Refused()
      ensures Strip(input) != [] ==> tried != [] && tried[0] == Strict
      ensures Strip(input) != [] ==> Checked(Strip(input), strict, loose)
    {
      var text := Strip(input);
      if text == [] {
        Refuse();
        return [];
      }
      tried := ValidateText(text, strict, loose);
    }

    /** The part of `validate_json` after the guard. */
    method ValidateText(text: string, strict: string -> StrictResult, loose: string -> LooseResult)
      returns (tried: seq<Grammar>)
      modifies this
      ensures output == old(output) && tree == old(tree)
      ensures tried != [] && tried[0] == Strict
      ensures Checked(text, strict, loose)
    {
      var outcome;
      outcome, tried := ParseInput(text, strict, loose);
      match outcome {
        case Parsed(_) =>
          dialogs := dialogs + [Info("验证结果", ValidMessage)];
          status := "格式验证通过";
        case Failed(m) =>
          dialogs := dialogs + [DetailedError("验证失败", m)];
          status := "格式验证失败 - 请检查语法错误";
      }
    }

    /** `on_tree_item_clicked` on the row at `path`. */
    method ClickItem(path: seq<nat>)
      requires Valid()
      modifies this
      ensures tree == ClickAt(old(tree), path)
      ensures output == old(output) && status == old(status) && dialogs == old(dialogs)
      ensures Valid()
    {
      ClickKeepsLeaves(tree, path);
      tree := ClickAt(tree, path);
    }

    /** `expand_all_tree`. */
    method ExpandAllTree()
      requires Valid()
      modifies this
      ensures tree == SetExpanded(old(tree), true) && Uniform(tree, true)
      ensures output == old(output) && status == old(status) && dialogs == old(dialogs)
      ensures Valid()
    {
      SetExpandedUniform(tree, true);
      SetExpandedKeepsLeaves(tree, true);
      tree := SetExpanded(tree, true);
    }

    /** `collapse_all_tree`. */
    method CollapseAllTree()
      requires Valid()
      modifies this
      ensures tree == SetExpanded(old(tree), false) && Uniform(tree, false)
      ensures output == old(output) && status == old(status) && dialogs == old(dialogs)
      ensures Valid()
    {
      SetExpandedUniform(tree, false);
      SetExpandedKeepsLeaves(tree, false);
      tree := SetExpanded(tree, false);
    }
  }
}
