/** Reading a generated strategy file back. The reader knows the Python forms that a file may
    hold by their literal texts and nothing of the compiler. */
module StrategyText {
  import opened Options
  import opened Decimal
  import opened StrategyCompiler

  predicate Begins(s: string, part: string) {
    |part| <= |s| && s[..|part|] == part
  }

  predicate Ends(s: string, c: char) {
    s != [] && s[|s| - 1] == c
  }

  predicate Free(s: string, c: char) {
    forall i :: 0 <= i < |s| ==> s[i] != c
  }

  /** Everything before the first `c`. */
  function Until(s: string, c: char): (f: string)
    ensures |f| <= |s| && Free(f, c) && s[..|f|] == f && (|f| < |s| ==> s[|f|] == c)
  {
    if s == [] || s[0] == c then [] else [s[0]] + Until(s[1..], c)
  }

  /** The lines of a text, without their ends. */
  function Cut(text: string): seq<string>
    decreases |text|
  {
    if text == [] then []
    else
      var line := Until(text, '\n');
      [line] + (if |line| < |text| then Cut(text[|line| + 1..]) else [])
  }

  // ---------------------------------------------------------------- the reader

  /** A call behind `bt.indicators.`. */
  function ReadCall(s: string): Option<Indicator> {
    if !Ends(s, ')') then None
    else if Begins(s, "RSI(period=") && |s| > 11 then Some(Rsi(s[11..|s| - 1]))
    else if Begins(s, "SMA(period=") && |s| > 11 then Some(Sma(s[11..|s| - 1]))
    else if Begins(s, "MACD(period_me1=") && |s| > 16 then ReadMacd(s[16..|s| - 1])
    else None
  }

  function ReadMacd(s: string): Option<Indicator> {
    var fast := Until(s, ',');
    if !Begins(s[|fast|..], ", period_me2=") then None
    else
      var s2 := s[|fast|..][13..];
      var slow := Until(s2, ',');
      if !Begins(s2[|slow|..], ", period_signal=") then None else Some(Macd(fast, slow, s2[|slow|..][16..]))
  }

  /** `name = bt.indicators.call`, indented by eight. */
  function ReadLine(s: string): Option<Line> {
    if !Begins(s, "        ") then None
    else
      var s2 := s[8..];
      var name := Until(s2, ' ');
      if !Begins(s2[|name|..], " = bt.indicators.") then None
      else
        var call := ReadCall(s2[|name|..][17..]);
        if call.None? then None else Some(Line(name, call.value))
  }

  function ReadLines(lines: seq<string>): Option<seq<Line>> {
    if lines == [] then Some([])
    else
      var first, rest := ReadLine(lines[0]), ReadLines(lines[1..]);
      if first.None? || rest.None? then None else Some([first.value] + rest.value)
  }

  function ReadCondition(s: string): Option<Condition> {
    if s == "True" then Some(Always)
    else
      var name := Until(s, '[');
      if Begins(s[|name|..], "[0] < ") then Some(Below(name, s[|name|..][6..]))
      else if Begins(s[|name|..], "[0] > ") then Some(Above(name, s[|name|..][6..]))
      else None
  }

  function ReadAction(s: string): Option<Action> {
    if s == "self.buy()" then Some(Buy)
    else if s == "self.sell()" then Some(Sell)
    else if s == "pass" then Some(Pass)
    else None
  }

  /** `if condition:` indented by eight and the action below it indented by twelve. */
  function ReadBlock(first: string, second: string): Option<Block> {
    if !Begins(first, "        if ") || !Ends(first, ':') || |first| < 12 || !Begins(second, "            ") then None
    else
      var condition, action := ReadCondition(first[11..|first| - 1]), ReadAction(second[12..]);
      if condition.None? || action.None? then None else Some(Block(condition.value, action.value))
  }

  function ReadBlocks(lines: seq<string>): Option<seq<Block>> {
    if lines == [] then Some([])
    else if |lines| == 1 then None
    else
      var first, rest := ReadBlock(lines[0], lines[1]), ReadBlocks(lines[2..]);
      if first.None? || rest.None? then None else Some([first.value] + rest.value)
  }

  /** The length of the lines before the first empty one. */
  function Section(text: string): (n: nat)
    ensures n <= |text|
    decreases |text|
  {
    if text == [] || text[0] == '\n' then 0
    else
      var line := Until(text, '\n');
      if |line| == |text| then |text| else |line| + 1 + Section(text[|line| + 1..])
  }

  const NOTHING := "        pass\n"

  /** A whole file: the fixed parts, the indicator lines up to an empty line, and the blocks. */
  function ReadFile(t: Template, className: string, text: string): Option<Program> {
    var start := t.start + className + t.header;
    if !Begins(text, start) then None
    else
      var body := text[|start|..];
      var n := Section(body);
      if !Begins(body[n..], t.logicHeader) then None
      else
        var logic := body[n..][|t.logicHeader|..];
        var lines := if body[..n] == NOTHING then Some([]) else ReadLines(Cut(body[..n]));
        var blocks := if logic == NOTHING then Some([]) else ReadBlocks(Cut(logic));
        if lines.None? || blocks.None? then None else Some(Program(lines.value, blocks.value))
  }

  // ---------------------------------------------------------------- pieces

  lemma {:induction false} UntilIs(f: string, c: char, tail: string)
    requires Free(f, c) && (tail != [] ==> tail[0] == c)
    ensures Until(f + tail, c) == f
  {
    if f == [] {
      assert f + tail == tail;
    } else {
      assert (f + tail)[1..] == f[1..] + tail;
      UntilIs(f[1..], c, tail);
    }
  }

  lemma {:induction false} CutFirst(line: string, rest: string)
    requires Free(line, '\n')
    ensures Cut(line + "\n" + rest) == [line] + Cut(rest)
  {
    var text := line + "\n" + rest;
    UntilIs(line, '\n', "\n" + rest);
    assert text == line + ("\n" + rest) && text[|line| + 1..] == rest;
    hide Until;
    assert Cut(text) == [Until(text, '\n')] + Cut(text[|line| + 1..]);
  }

  lemma {:induction false} SectionFirst(line: string, rest: string)
    requires Free(line, '\n') && line != []
    ensures Section(line + "\n" + rest) == |line| + 1 + Section(rest)
  {
    var text := line + "\n" + rest;
    UntilIs(line, '\n', "\n" + rest);
    assert text == line + ("\n" + rest) && text[|line| + 1..] == rest;
  }

  lemma {:induction false} BeginsWith(part: string, rest: string)
    ensures Begins(part + rest, part) && (part + rest)[|part|..] == rest
  {
  }

  // ---------------------------------------------------------------- one indicator line

  /** The parameter can be told from what follows it. */
  predicate PlainText(s: string) {
    Free(s, ',') && Free(s, '\n')
  }

  predicate PlainIndicator(i: Indicator) {
    match i
    case Rsi(period) => PlainText(period)
    case Macd(fast, slow, signal) => PlainText(fast) && PlainText(slow) && PlainText(signal)
    case Sma(period) => PlainText(period)
  }

  predicate PlainName(s: string) {
    Begins(s, "self.") && Free(s, ' ') && Free(s, '[') && Free(s, '\n')
  }

  lemma {:induction false} MacdReadBack(fast: string, slow: string, signal: string)
    requires PlainText(fast) && PlainText(slow)
    ensures ReadMacd(fast + ", period_me2=" + slow + ", period_signal=" + signal) == Some(Macd(fast, slow, signal))
  {
    hide Until;
    var s := fast + ", period_me2=" + slow + ", period_signal=" + signal;
    var tail2 := ", period_signal=" + signal;
    var tail1 := ", period_me2=" + (slow + tail2);
    assert s == fast + tail1;
    UntilIs(fast, ',', tail1);
    assert s[|fast|..] == tail1;
    BeginsWith(", period_me2=", slow + tail2);
    UntilIs(slow, ',', tail2);
    assert (slow + tail2)[|slow|..] == tail2;
    BeginsWith(", period_signal=", signal);
  }

  /** The text of the call behind `bt.indicators.`. */
  function CallText(i: Indicator): string {
    match i
    case Rsi(period) => "RSI(period=" + period + ")"
    case Macd(fast, slow, signal) =>
      "MACD(period_me1=" + (fast + ", period_me2=" + slow + ", period_signal=" + signal) + ")"
    case Sma(period) => "SMA(period=" + period + ")"
  }

  lemma {:induction false} CallReadBack(i: Indicator)
    requires PlainIndicator(i)
    ensures ReadCall(CallText(i)) == Some(i)
  {
    hide ReadMacd;
    var s := CallText(i);
    match i {
      case Rsi(period) =>
        assert s[..11] == "RSI(period=" && s[11..|s| - 1] == period;
      case Sma(period) =>
        assert s[..11] == "SMA(period=" && s[0] == 'S' && s[11..|s| - 1] == period;
      case Macd(fast, slow, signal) =>
        var args := fast + ", period_me2=" + slow + ", period_signal=" + signal;
        assert s[0] == 'M' && s[..16] == "MACD(period_me1=" && s[16..|s| - 1] == args;
        MacdReadBack(fast, slow, signal);
    }
  }

  lemma {:induction false} LineTextIs(l: Line)
    ensures LineText(l) == l.name + (" = bt.indicators." + CallText(l.indicator))
  {
    match l.indicator {
      case Rsi(period) =>
      case Sma(period) =>
      case Macd(fast, slow, signal) =>
        assert LineText(l) == l.name + (" = bt.indicators." + CallText(l.indicator));
    }
  }

  lemma {:induction false} LineReadBack(l: Line)
    requires PlainName(l.name) && PlainIndicator(l.indicator)
    ensures ReadLine("        " + LineText(l)) == Some(l)
  {
    hide ReadCall, CallText, LineText, Until;
    LineTextIs(l);
    var tail := " = bt.indicators." + CallText(l.indicator);
    BeginsWith("        ", l.name + tail);
    UntilIs(l.name, ' ', tail);
    assert (l.name + tail)[|l.name|..] == tail;
    BeginsWith(" = bt.indicators.", CallText(l.indicator));
    CallReadBack(l.indicator);
  }

  lemma {:induction false} LineHasNoBreak(l: Line)
    requires PlainName(l.name) && PlainIndicator(l.indicator)
    ensures Free("        " + LineText(l), '\n')
  {
    hide LineText, CallText;
    LineTextIs(l);
    CallHasNoBreak(l.indicator);
  }

  lemma {:induction false} CallHasNoBreak(i: Indicator)
    requires PlainIndicator(i)
    ensures Free(CallText(i), '\n')
  {
    if i.Macd? {
      MacdHasNoBreak(i.fast, i.slow, i.signal);
    }
  }

  lemma {:induction false} MacdHasNoBreak(fast: string, slow: string, signal: string)
    requires PlainText(fast) && PlainText(slow) && PlainText(signal)
    ensures Free("MACD(period_me1=" + (fast + ", period_me2=" + slow + ", period_signal=" + signal) + ")", '\n')
  {
    var part2, part3 := ", period_me2=", ", period_signal=";
    assert Free("MACD(period_me1=", '\n') && Free(part2, '\n') && Free(part3, '\n') && Free(")", '\n');
    hide Free;
    FreeJoin(fast, part2);
    FreeJoin(fast + part2, slow);
    FreeJoin(fast + part2 + slow, part3);
    FreeJoin(fast + part2 + slow + part3, signal);
    FreeJoin("MACD(period_me1=", fast + part2 + slow + part3 + signal);
    FreeJoin("MACD(period_me1=" + (fast + part2 + slow + part3 + signal), ")");
  }

  lemma {:induction false} FreeJoin(a: string, b: string)
    requires Free(a, '\n') && Free(b, '\n')
    ensures Free(a + b, '\n')
  {
  }

  // ---------------------------------------------------------------- all indicator lines

  predicate PlainLine(l: Line) {
    PlainName(l.name) && PlainIndicator(l.indicator)
  }

  predicate PlainLines(lines: seq<Line>) {
    forall i :: 0 <= i < |lines| ==> PlainLine(lines[i])
  }

  lemma {:induction false} LinesTextFirst(lines: seq<Line>)
    requires lines != []
    ensures LinesText(lines) == "        " + LineText(lines[0]) + "\n" + LinesText(lines[1..])
  {
    var n := |lines| - 1;
    if n > 0 {
      LinesTextFirst(lines[..n]);
      assert lines[1..][..n - 1] == lines[..n][1..];
      hide LineText;
      var last := "        " + LineText(lines[n]) + "\n";
      assert LinesText(lines[1..]) == LinesText(lines[..n][1..]) + last;
      hide LinesText;
      JoinedLater("        " + LineText(lines[0]), LinesText(lines[..n][1..]), last);
    } else {
      assert lines[..0] == [] && lines[1..] == [];
    }
  }

  /** Reading the emitted indicator lines gives back the indicators and their names. */
  lemma {:induction false} LinesReadBack(lines: seq<Line>)
    requires PlainLines(lines)
    ensures ReadLines(Cut(LinesText(lines))) == Some(lines)
  {
    if lines != [] {
      hide LineText, LinesText, ReadLine, Cut, PlainLine;
      assert PlainLine(lines[0]) && PlainLines(lines[1..]);
      LinesTextFirst(lines);
      FirstLineReadBack(lines[0], LinesText(lines[1..]));
      LinesReadBack(lines[1..]);
      ReadFirst("        " + LineText(lines[0]), Cut(LinesText(lines[1..])), lines);
    } else {
      assert Cut("") == [];
    }
  }

  lemma {:induction false} ReadFirst(line: string, rest: seq<string>, lines: seq<Line>)
    requires lines != [] && ReadLine(line) == Some(lines[0]) && ReadLines(rest) == Some(lines[1..])
    ensures ReadLines([line] + rest) == Some(lines)
  {
    hide ReadLine;
    assert ([line] + rest)[1..] == rest && [lines[0]] + lines[1..] == lines;
  }

  lemma {:induction false} FirstLineReadBack(l: Line, rest: string)
    requires PlainLine(l)
    ensures var line := "        " + LineText(l);
            Cut(line + "\n" + rest) == [line] + Cut(rest) && ReadLine(line) == Some(l)
            && Section(line + "\n" + rest) == |line| + 1 + Section(rest)
  {
    hide LineText, ReadLine, Cut, Section;
    LineHasNoBreak(l);
    LineReadBack(l);
    CutFirst("        " + LineText(l), rest);
    SectionFirst("        " + LineText(l), rest);
  }

  /** The indicator lines end where an empty line begins. */
  lemma {:induction false} LinesEnd(lines: seq<Line>, tail: string)
    requires PlainLines(lines) && Begins(tail, "\n")
    ensures Section(LinesText(lines) + tail) == |LinesText(lines)|
  {
    if lines != [] {
      hide LineText, LinesText, Section, PlainLine;
      assert PlainLine(lines[0]) && PlainLines(lines[1..]);
      LinesTextFirst(lines);
      LinesEnd(lines[1..], tail);
      var line, rest := "        " + LineText(lines[0]), LinesText(lines[1..]);
      FirstLineReadBack(lines[0], rest + tail);
      JoinedLater(line, rest, tail);
    } else {
      assert LinesText(lines) + tail == tail;
    }
  }

  lemma {:induction false} JoinedLater(line: string, rest: string, tail: string)
    ensures line + "\n" + rest + tail == line + "\n" + (rest + tail)
    ensures |line + "\n" + rest| == |line| + 1 + |rest|
  {
  }

  // ---------------------------------------------------------------- the blocks

  predicate PlainBlock(b: Block) {
    !b.condition.Always? ==> PlainName(b.condition.name) && Digits(b.condition.threshold)
  }

  predicate PlainBlocks(blocks: seq<Block>) {
    forall i :: 0 <= i < |blocks| ==> PlainBlock(blocks[i])
  }

  lemma {:induction false} ConditionReadBack(c: Condition)
    requires !c.Always? ==> PlainName(c.name)
    ensures ReadCondition(ConditionText(c)) == Some(c)
  {
    hide Until;
    if !c.Always? {
      var sign := if c.Below? then "[0] < " else "[0] > ";
      var tail := sign + c.threshold;
      assert ConditionText(c) == c.name + tail;
      UntilIs(c.name, '[', tail);
      assert (c.name + tail)[|c.name|..] == tail;
      BeginsWith(sign, c.threshold);
      assert sign[4] != (if c.Below? then '>' else '<') && tail[..6][4] == sign[4];
      assert "[0] > "[4] == '>' && "[0] < "[4] == '<';
      assert (c.name + tail)[0] == 's';
    }
  }

  lemma {:induction false} BlockReadBack(b: Block)
    requires PlainBlock(b)
    ensures ReadBlock("        if " + ConditionText(b.condition) + ":", "            " + ActionText(b.action))
         == Some(b)
  {
    hide ReadCondition, ConditionText;
    var first, second := "        if " + ConditionText(b.condition) + ":", "            " + ActionText(b.action);
    ConditionReadBack(b.condition);
    BeginsWith("            ", ActionText(b.action));
    assert first == "        if " + (ConditionText(b.condition) + ":");
    assert first[11..|first| - 1] == ConditionText(b.condition);
    assert ConditionText(b.condition) != "" by {
      NotEmpty(b.condition);
    }
    assert |"self.buy()"| == 10 && |"self.sell()"| == 11 && |"pass"| == 4;
  }

  lemma {:induction false} NotEmpty(c: Condition)
    ensures ConditionText(c) != ""
  {
  }

  lemma {:induction false} BlockHasNoBreak(b: Block)
    requires PlainBlock(b)
    ensures Free("        if " + ConditionText(b.condition) + ":", '\n')
    ensures Free("            " + ActionText(b.action), '\n')
  {
  }

  lemma {:induction false} BlocksTextFirst(blocks: seq<Block>)
    requires blocks != []
    ensures BlocksText(blocks) == "        " + BlockText(blocks[0]) + "\n" + BlocksText(blocks[1..])
  {
    var n := |blocks| - 1;
    if n > 0 {
      BlocksTextFirst(blocks[..n]);
      assert blocks[1..][..n - 1] == blocks[..n][1..];
      hide BlockText;
      var last := "        " + BlockText(blocks[n]) + "\n";
      assert BlocksText(blocks[1..]) == BlocksText(blocks[..n][1..]) + last;
      hide BlocksText;
      JoinedLater("        " + BlockText(blocks[0]), BlocksText(blocks[..n][1..]), last);
    } else {
      assert blocks[..0] == [] && blocks[1..] == [];
    }
  }

  /** Reading the emitted blocks gives back their conditions and actions. */
  lemma {:induction false} BlocksReadBack(blocks: seq<Block>)
    requires PlainBlocks(blocks)
    ensures ReadBlocks(Cut(BlocksText(blocks))) == Some(blocks)
  {
    if blocks != [] {
      hide BlockText, BlocksText, ReadBlock, Cut, PlainBlock;
      assert PlainBlock(blocks[0]) && PlainBlocks(blocks[1..]);
      BlocksTextFirst(blocks);
      FirstBlockReadBack(blocks[0], BlocksText(blocks[1..]));
      BlocksReadBack(blocks[1..]);
      assert [blocks[0]] + blocks[1..] == blocks;
    } else {
      assert Cut("") == [];
    }
  }

  lemma {:induction false} FirstBlockReadBack(b: Block, rest: string)
    requires PlainBlock(b)
    ensures var lines := Cut("        " + BlockText(b) + "\n" + rest);
            |lines| >= 2 && ReadBlock(lines[0], lines[1]) == Some(b) && lines[2..] == Cut(rest)
  {
    hide ConditionText, ActionText, ReadBlock, Cut;
    var first, second := "        if " + ConditionText(b.condition) + ":", "            " + ActionText(b.action);
    BlockHasNoBreak(b);
    BlockReadBack(b);
    CutFirst(second, rest);
    CutFirst(first, second + "\n" + rest);
    assert "        " + BlockText(b) + "\n" + rest == first + "\n" + (second + "\n" + rest);
  }

  // ---------------------------------------------------------------- the whole file

  lemma {:induction false} LinesAreNotNothing(lines: seq<Line>)
    requires PlainLines(lines) && lines != []
    ensures LinesText(lines) != NOTHING
  {
    hide LinesText;
    LinesTextFirst(lines);
    assert PlainLine(lines[0]);
    LineTextIs(lines[0]);
    assert LineText(lines[0])[0] == lines[0].name[..5][0] == 's';
    assert LinesText(lines)[8] == LineText(lines[0])[0];
  }

  lemma {:induction false} BlocksAreNotNothing(blocks: seq<Block>)
    requires blocks != []
    ensures BlocksText(blocks) != NOTHING
  {
    hide BlocksText, ConditionText, ActionText;
    BlocksTextFirst(blocks);
    assert BlockText(blocks[0])[0] == 'i' && BlocksText(blocks)[8] == BlockText(blocks[0])[0];
  }

  function LinesPart(lines: seq<Line>): string {
    if lines == [] then NOTHING else LinesText(lines)
  }

  function BlocksPart(blocks: seq<Block>): string {
    if blocks == [] then NOTHING else BlocksText(blocks)
  }

  lemma {:induction false} PartEnds(lines: seq<Line>, tail: string)
    requires PlainLines(lines) && Begins(tail, "\n")
    ensures Section(LinesPart(lines) + tail) == |LinesPart(lines)|
  {
    hide Section, LinesText;
    if lines == [] {
      SectionFirst("        pass", tail);
      EmptySection(tail);
      assert NOTHING + tail == "        pass" + "\n" + tail;
    } else {
      LinesEnd(lines, tail);
    }
  }

  lemma {:induction false} PartsReadBack(p: Program)
    requires PlainLines(p.lines) && PlainBlocks(p.blocks)
    ensures (if LinesPart(p.lines) == NOTHING then Some([]) else ReadLines(Cut(LinesPart(p.lines)))) == Some(p.lines)
    ensures (if BlocksPart(p.blocks) == NOTHING then Some([]) else ReadBlocks(Cut(BlocksPart(p.blocks))))
         == Some(p.blocks)
  {
    hide Cut, LinesText, BlocksText, ReadLines, ReadBlocks;
    if p.lines != [] {
      LinesAreNotNothing(p.lines);
      LinesReadBack(p.lines);
    }
    if p.blocks != [] {
      BlocksAreNotNothing(p.blocks);
      BlocksReadBack(p.blocks);
    }
  }

  lemma {:induction false} RenderParts(t: Template, className: string, p: Program)
    ensures Render(t, className, p)
         == (t.start + className + t.header) + (LinesPart(p.lines) + (t.logicHeader + BlocksPart(p.blocks)))
  {
    hide LinesText, BlocksText;
  }

  /** Whatever the fixed parts, as long as an empty line ends the indicator lines, a generated
      file is read back as the program it was generated from. */
  lemma {:induction false} FileReadBack(t: Template, className: string, p: Program)
    requires Begins(t.logicHeader, "\n") && PlainLines(p.lines) && PlainBlocks(p.blocks)
    ensures ReadFile(t, className, Render(t, className, p)) == Some(p)
  {
    RenderParts(t, className, p);
    LineBreakFirst(t.logicHeader, BlocksPart(p.blocks));
    PartEnds(p.lines, t.logicHeader + BlocksPart(p.blocks));
    PartsReadBack(p);
    hide Cut, Section, ReadLines, ReadBlocks, PlainLines, PlainBlocks, LinesPart, BlocksPart, Render, Begins;
    var lines, logic := LinesPart(p.lines), BlocksPart(p.blocks);
    BeginsWith(t.start + className + t.header, lines + (t.logicHeader + logic));
    BeginsWith(t.logicHeader, logic);
    SplitParts(lines, t.logicHeader + logic);
  }

  lemma {:induction false} SplitParts(a: string, b: string)
    ensures (a + b)[..|a|] == a && (a + b)[|a|..] == b
  {
  }

  lemma {:induction false} LineBreakFirst(s: string, tail: string)
    requires Begins(s, "\n")
    ensures Begins(s + tail, "\n")
  {
    assert (s + tail)[..1] == s[..1];
  }

  lemma {:induction false} EmptySection(text: string)
    requires Begins(text, "\n")
    ensures Section(text) == 0
  {
    assert text[..1][0] == text[0];
  }

  // ---------------------------------------------------------------- what the compiler emits

  /** No indicator parameter holds a comma or a line break. */
  predicate PlainParams(c: Config) {
    forall i, name :: 0 <= i < |c.nodes| && name in c.nodes[i].params ==> PlainText(c.nodes[i].params[name])
  }

  lemma {:induction false} DictNodes(nodes: seq<Node>)
    ensures forall n :: n in NodeDict(nodes) ==> n in nodes
  {
    if nodes != [] {
      DictNodes(nodes[..|nodes| - 1]);
      PutNodes(NodeDict(nodes[..|nodes| - 1]), nodes[|nodes| - 1]);
    }
  }

  lemma {:induction false} PutNodes(dict: seq<Node>, n: Node)
    ensures forall m :: m in PutNode(dict, n) ==> m in dict || m == n
  {
    if dict != [] && dict[0].id != n.id {
      PutNodes(dict[1..], n);
    }
  }

  lemma {:induction false} NameIsPlain(count: nat)
    ensures PlainName(VarName(count))
  {
    var digits := Write(count);
    assert forall i :: 0 <= i < |digits| ==> IsDigit(digits[i]);
    assert VarName(count)[..5] == "self.";
  }

  predicate PlainNode(n: Node) {
    forall name :: name in n.params ==> PlainText(n.params[name])
  }

  lemma {:induction false} IndicatorIsPlain(n: Node)
    requires PlainNode(n) && IndicatorOf(n).Some?
    ensures PlainIndicator(IndicatorOf(n).value)
  {
    hide Contains;
    assert PlainText("14") && PlainText("20") && PlainText("12") && PlainText("26") && PlainText("9");
  }

  lemma {:induction false} ScannedPlain(dict: seq<Node>)
    requires forall n :: n in dict ==> PlainNode(n)
    ensures PlainLines(ScanNodes(dict).lines)
  {
    hide Contains, IndicatorOf, PlainName, PlainIndicator, IsIndicator, PlainNode;
    if dict != [] {
      var n := dict[|dict| - 1];
      ScannedPlain(dict[..|dict| - 1]);
      NameIsPlain(ScanNodes(dict[..|dict| - 1]).count);
      if IndicatorOf(n).Some? {
        IndicatorIsPlain(n);
      }
    }
  }

  lemma {:induction false} CompiledPlain(c: Config)
    requires PlainParams(c)
    ensures PlainLines(Compile(c).lines) && PlainBlocks(Compile(c).blocks)
  {
    hide ScanNodes, BuildBlocks, PlainName, NodeDict;
    var dict := NodeDict(c.nodes);
    DictNodes(c.nodes);
    forall n | n in dict
      ensures PlainNode(n)
    {
      var i :| 0 <= i < |c.nodes| && c.nodes[i] == n;
    }
    ScannedPlain(dict);
    var blocks := Compile(c).blocks;
    BlocksWellFormed(dict, ScanNodes(dict).vars, c.edges);
    NameIsPlain(0);
    forall i | 0 <= i < |blocks|
      ensures PlainBlock(blocks[i])
    {
      if !blocks[i].condition.Always? {
        BlocksWatch(dict, c.edges, i);
      }
    }
  }

  /** MAIN: the generated text of a graph says what the graph was compiled to: reading the file
      by its literal forms gives back every indicator with its parameters and every condition
      with its action, in order. */
  lemma {:induction false} CompiledReadBack(t: Template, className: string, c: Config)
    requires Begins(t.logicHeader, "\n") && PlainParams(c)
    ensures ReadFile(t, className, Render(t, className, Compile(c))) == Some(Compile(c))
  {
    CompiledPlain(c);
    FileReadBack(t, className, Compile(c));
  }

  method CompileVisual(t: Template, config: Config, className: string) returns (code: string)
    ensures code == Render(t, className, Compile(config))
    ensures Begins(t.logicHeader, "\n") && PlainParams(config) ==> ReadFile(t, className, code) == Some(Compile(config))
  {
    hide Render, ReadFile, Begins, PlainParams;
    var compiler := new VisualStrategyCompiler(config);
    code := compiler.Generate(t, className);
    if Begins(t.logicHeader, "\n") && PlainParams(config) {
      CompiledReadBack(t, className, config);
    }
  }
}
