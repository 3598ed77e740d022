/** The visual strategy compiler of backend/app/strategy_parser.py: a graph of nodes and edges
    is turned into the indicator lines and if-blocks of a generated class. */
module StrategyCompiler {
  import opened Options
  import opened Decimal

  /** The parameters are texts: the compiler pastes their values as they are written. */
  datatype Node = Node(id: string, kind: string, caption: Option<string>, params: map<string, string>)
  datatype Edge = Edge(source: string, target: string)
  datatype Config = Config(nodes: seq<Node>, edges: seq<Edge>)

  // ---------------------------------------------------------------- strings

  /** `part in text` */
  predicate Contains(text: string, part: string) {
    |part| <= |text| && (text[..|part|] == part || (text != [] && Contains(text[1..], part)))
  }

  function LowerChar(c: char): char {
    if 'A' <= c <= 'Z' then c - 'A' + 'a' else c
  }

  function Lower(text: string): string {
    if text == [] then [] else [LowerChar(text[0])] + Lower(text[1..])
  }

  function UpTo(text: string, mark: char): string {
    if text == [] || text[0] == mark then [] else [text[0]] + UpTo(text[1..], mark)
  }

  /** `text.split(mark)[1]`, empty when the mark is missing. */
  function Second(text: string, mark: char): string {
    if text == [] then [] else if text[0] == mark then UpTo(text[1..], mark) else Second(text[1..], mark)
  }

  function LeadingDigits(text: string): (d: string)
    ensures |d| <= |text| && forall i :: 0 <= i < |d| ==> IsDigit(d[i])
    ensures text != [] && IsDigit(text[0]) ==> d != []
  {
    if text == [] || !IsDigit(text[0]) then [] else [text[0]] + LeadingDigits(text[1..])
  }

  /** The first match of one or more digits, or the default. */
  function FirstNumber(text: string, default: string): (d: string)
    requires Digits(default)
    ensures Digits(d)
  {
    if text == [] then default
    else if IsDigit(text[0]) then LeadingDigits(text)
    else FirstNumber(text[1..], default)
  }

  function LabelOr(n: Node, default: string): string {
    if n.caption.Some? then n.caption.value else default
  }

  function Label(n: Node): string {
    LabelOr(n, "")
  }

  // ---------------------------------------------------------------- the generated program

  datatype Indicator = Rsi(period: string) | Macd(fast: string, slow: string, signal: string) | Sma(period: string)

  /** `name = bt.indicators...` in __init__. */
  datatype Line = Line(name: string, indicator: Indicator)

  datatype Condition = Below(name: string, threshold: string) | Above(name: string, threshold: string) | Always
  datatype Action = Buy | Sell | Pass

  /** `if condition: action` in next. */
  datatype Block = Block(condition: Condition, action: Action)

  datatype Program = Program(lines: seq<Line>, blocks: seq<Block>)

  // ---------------------------------------------------------------- the compiler

  predicate IsIndicator(n: Node) {
    n.kind == "INDICATOR" || Contains(Label(n), "RSI") || Contains(Label(n), "MACD")
  }

  predicate IsCondition(n: Node) {
    n.kind == "CONDITION" || Contains(Label(n), "Condition")
  }

  predicate IsAction(n: Node) {
    n.kind == "ACTION" || Contains(Label(n), "Action")
  }

  function Param(n: Node, name: string, default: string): string {
    if name in n.params then n.params[name] else default
  }

  /** The indicator an indicator node stands for; some labels stand for none. */
  function IndicatorOf(n: Node): Option<Indicator> {
    var caption := LabelOr(n, "SMA");
    if Contains(caption, "RSI") then Some(Rsi(Param(n, "period", "14")))
    else if Contains(caption, "MACD") then
      Some(Macd(Param(n, "fast", "12"), Param(n, "slow", "26"), Param(n, "signal", "9")))
    else if Contains(caption, "SMA") || Contains(caption, "Mov") then Some(Sma(Param(n, "period", "20")))
    else None
  }

  /** `{node.id: node for node in nodes}`: first position, last value. */
  function PutNode(dict: seq<Node>, n: Node): seq<Node> {
    if dict == [] then [n] else if dict[0].id == n.id then [n] + dict[1..] else [dict[0]] + PutNode(dict[1..], n)
  }

  function NodeDict(nodes: seq<Node>): seq<Node> {
    if nodes == [] then [] else PutNode(NodeDict(nodes[..|nodes| - 1]), nodes[|nodes| - 1])
  }

  function Find(dict: seq<Node>, id: string): Option<Node> {
    if dict == [] then None else if dict[0].id == id then Some(dict[0]) else Find(dict[1..], id)
  }

  function VarName(count: nat): string {
    "self.ind_" + Write(count)
  }

  /** `node_vars` (in insertion order), the indicator lines and the counter after a scan. */
  datatype Scan = Scan(vars: seq<(string, string)>, lines: seq<Line>, count: nat)

  function ScanNodes(dict: seq<Node>): Scan {
    if dict == [] then Scan([], [], 0)
    else
      var s, n := ScanNodes(dict[..|dict| - 1]), dict[|dict| - 1];
      if !IsIndicator(n) then s
      else
        var name := VarName(s.count);
        Scan(s.vars + [(n.id, name)],
             if IndicatorOf(n).Some? then s.lines + [Line(name, IndicatorOf(n).value)] else s.lines,
             s.count + 1)
  }

  /** The first variable whose name has "ind" in it, or self.rsi. */
  function RsiVar(vars: seq<(string, string)>): string {
    if vars == [] then "self.rsi" else if Contains(vars[0].1, "ind") then vars[0].1 else RsiVar(vars[1..])
  }

  function ParseCondition(n: Node, vars: seq<(string, string)>): Condition {
    var text := Label(n);
    if Contains(text, "RSI") && Contains(text, "<") then Below(RsiVar(vars), FirstNumber(Second(text, '<'), "30"))
    else if Contains(text, "RSI") && Contains(text, ">") then Above(RsiVar(vars), FirstNumber(Second(text, '>'), "70"))
    else Always
  }

  function ParseAction(n: Node): Action {
    var text := Lower(Label(n));
    if Contains(text, "buy") then Buy else if Contains(text, "sell") then Sell else Pass
  }

  /** The block an edge turns into, if it leads from a condition to an action. */
  function EdgeBlock(dict: seq<Node>, vars: seq<(string, string)>, e: Edge): seq<Block> {
    var source, target := Find(dict, e.source), Find(dict, e.target);
    if source.Some? && target.Some? && IsCondition(source.value) && IsAction(target.value) then
      [Block(ParseCondition(source.value, vars), ParseAction(target.value))]
    else []
  }

  function BuildBlocks(dict: seq<Node>, vars: seq<(string, string)>, edges: seq<Edge>): seq<Block> {
    if edges == [] then [] else EdgeBlock(dict, vars, edges[0]) + BuildBlocks(dict, vars, edges[1..])
  }

  lemma {:induction false} BlocksFrom(dict: seq<Node>, vars: seq<(string, string)>, edges: seq<Edge>, i: nat,
                                      done: seq<Block>)
    requires i < |edges|
    ensures done + BuildBlocks(dict, vars, edges[i..])
         == (done + EdgeBlock(dict, vars, edges[i])) + BuildBlocks(dict, vars, edges[i + 1..])
    ensures done + [] == done
  {
    assert edges[i..][1..] == edges[i + 1..];
  }

  function Compile(c: Config): Program {
    var dict := NodeDict(c.nodes);
    var s := ScanNodes(dict);
    Program(s.lines, BuildBlocks(dict, s.vars, c.edges))
  }

  // ---------------------------------------------------------------- the generated text

  function LineText(l: Line): string {
    l.name + " = bt.indicators." +
    match l.indicator
    case Rsi(period) => "RSI(period=" + period + ")"
    case Macd(fast, slow, signal) =>
      "MACD(period_me1=" + fast + ", period_me2=" + slow + ", period_signal=" + signal + ")"
    case Sma(period) => "SMA(period=" + period + ")"
  }

  function ConditionText(c: Condition): string {
    match c
    case Below(name, threshold) => name + "[0] < " + threshold
    case Above(name, threshold) => name + "[0] > " + threshold
    case Always => "True"
  }

  function ActionText(a: Action): string {
    match a
    case Buy => "self.buy()"
    case Sell => "self.sell()"
    case Pass => "pass"
  }

  function BlockText(b: Block): string {
    "if " + ConditionText(b.condition) + ":\n            " + ActionText(b.action)
  }

  function LinesText(lines: seq<Line>): string {
    if lines == [] then "" else LinesText(lines[..|lines| - 1]) + ("        " + LineText(lines[|lines| - 1]) + "\n")
  }

  function BlocksText(blocks: seq<Block>): string {
    if blocks == [] then ""
    else BlocksText(blocks[..|blocks| - 1]) + ("        " + BlockText(blocks[|blocks| - 1]) + "\n")
  }

  /** The fixed text of a generated file: up to the class name, from there to the indicator
      lines, and from there to the logic lines. */
  datatype Template = Template(start: string, header: string, logicHeader: string)

  /** The generated file. */
  function Render(t: Template, className: string, p: Program): string {
    t.start + className + t.header + (if p.lines == [] then "        pass\n" else LinesText(p.lines)) +
    t.logicHeader + (if p.blocks == [] then "        pass\n" else BlocksText(p.blocks))
  }

  // ---------------------------------------------------------------- the passes

  class VisualStrategyCompiler {
    var nodes: seq<Node>
    var edges: seq<Edge>
    var indicators: seq<Line>
    var logicLines: seq<Block>
    var nodeVars: seq<(string, string)>

    constructor (config: Config)
      ensures nodes == NodeDict(config.nodes) && edges == config.edges
      ensures indicators == [] && logicLines == [] && nodeVars == []
    {
      var dict: seq<Node> := [];
      for i := 0 to |config.nodes|
        invariant dict == NodeDict(config.nodes[..i])
      {
        assert config.nodes[..i + 1][..i] == config.nodes[..i];
        dict := PutNode(dict, config.nodes[i]);
      }
      assert config.nodes[..|config.nodes|] == config.nodes;
      nodes, edges, indicators, logicLines, nodeVars := dict, config.edges, [], [], [];
    }

    method ScanIndicators()
      requires indicators == [] && nodeVars == []
      modifies `indicators, `nodeVars
      ensures nodeVars == ScanNodes(nodes).vars && indicators == ScanNodes(nodes).lines
    {
      var count := 0;
      for i := 0 to |nodes|
        invariant Scan(nodeVars, indicators, count) == ScanNodes(nodes[..i])
      {
        assert nodes[..i + 1][..i] == nodes[..i];
        var node := nodes[i];
        if IsIndicator(node) {
          var name := VarName(count);
          nodeVars := nodeVars + [(node.id, name)];
          count := count + 1;
          var caption := LabelOr(node, "SMA");
          if Contains(caption, "RSI") {
            indicators := indicators + [Line(name, Rsi(Param(node, "period", "14")))];
          } else if Contains(caption, "MACD") {
            indicators := indicators +
              [Line(name, Macd(Param(node, "fast", "12"), Param(node, "slow", "26"), Param(node, "signal", "9")))];
          } else if Contains(caption, "SMA") || Contains(caption, "Mov") {
            indicators := indicators + [Line(name, Sma(Param(node, "period", "20")))];
          }
        }
      }
      assert nodes[..|nodes|] == nodes;
    }

    method BuildLogic()
      requires logicLines == []
      modifies `logicLines
      ensures logicLines == BuildBlocks(nodes, nodeVars, edges)
    {
      for i := 0 to |edges|
        invariant logicLines + BuildBlocks(nodes, nodeVars, edges[i..]) == BuildBlocks(nodes, nodeVars, edges)
      {
        BlocksFrom(nodes, nodeVars, edges, i, logicLines);
        var source, target := Find(nodes, edges[i].source), Find(nodes, edges[i].target);
        if source.None? || target.None? {
          continue;
        }
        if IsCondition(source.value) {
          var condition := ParseCondition(source.value, nodeVars);
          if IsAction(target.value) {
            logicLines := logicLines + [Block(condition, ParseAction(target.value))];
          }
        }
      }
    }

    /** compile and _generate_code. */
    method Generate(t: Template, className: string) returns (code: string)
      requires indicators == [] && logicLines == [] && nodeVars == []
      modifies this
      ensures nodes == old(nodes) && edges == old(edges)
      ensures indicators == ScanNodes(nodes).lines && logicLines == BuildBlocks(nodes, ScanNodes(nodes).vars, edges)
      ensures code == Render(t, className, Program(indicators, logicLines))
    {
      ScanIndicators();
      BuildLogic();
      var indCode := "";
      if indicators != [] {
        indCode := IndicatorCode();
      } else {
        indCode := "        pass\n";
      }
      var logicCode := "";
      if logicLines != [] {
        logicCode := LogicCode();
      } else {
        logicCode := "        pass\n";
      }
      code := t.start + className + t.header + indCode + t.logicHeader + logicCode;
    }

    method IndicatorCode() returns (code: string)
      ensures code == LinesText(indicators)
    {
      code := "";
      for i := 0 to |indicators|
        invariant code == LinesText(indicators[..i])
      {
        assert indicators[..i + 1][..i] == indicators[..i];
        code := code + ("        " + LineText(indicators[i]) + "\n");
      }
      assert indicators[..|indicators|] == indicators;
    }

    method LogicCode() returns (code: string)
      ensures code == BlocksText(logicLines)
    {
      code := "";
      for i := 0 to |logicLines|
        invariant code == BlocksText(logicLines[..i])
      {
        assert logicLines[..i + 1][..i] == logicLines[..i];
        code := code + ("        " + BlockText(logicLines[i]) + "\n");
      }
      assert logicLines[..|logicLines|] == logicLines;
    }
  }

  // ---------------------------------------------------------------- what the program does

  /** The bar's value of each indicator. */
  type Valuation = Indicator -> real

  /** The actions of one call of next; `ok` is false when an undefined attribute ends it. */
  datatype Trace = Trace(actions: seq<Action>, ok: bool)

  /** __init__: later lines overwrite earlier ones of the same name. */
  function Attributes(lines: seq<Line>): map<string, Indicator> {
    if lines == [] then map[]
    else Attributes(lines[..|lines| - 1])[lines[|lines| - 1].name := lines[|lines| - 1].indicator]
  }

  /** None is an undefined attribute. */
  function Test(c: Condition, env: map<string, Indicator>, v: Valuation): Option<bool>
    requires !c.Always? ==> Digits(c.threshold)
  {
    match c
    case Always => Some(true)
    case Below(name, threshold) => if name in env then Some(v(env[name]) < Read(threshold) as real) else None
    case Above(name, threshold) => if name in env then Some(v(env[name]) > Read(threshold) as real) else None
  }

  predicate WellFormed(blocks: seq<Block>) {
    forall i :: 0 <= i < |blocks| ==> !blocks[i].condition.Always? ==> Digits(blocks[i].condition.threshold)
  }

  function Perform(a: Action): seq<Action> {
    if a.Pass? then [] else [a]
  }

  function Execute(blocks: seq<Block>, env: map<string, Indicator>, v: Valuation): Trace
    requires WellFormed(blocks)
  {
    if blocks == [] then Trace([], true)
    else
      var test := Test(blocks[0].condition, env, v);
      if test.None? then Trace([], false)
      else
        var rest := Execute(blocks[1..], env, v);
        Trace((if test.value then Perform(blocks[0].action) else []) + rest.actions, rest.ok)
  }

  /** Python reads a decimal literal only without superfluous leading zeros. */
  predicate Literal(d: string) {
    Digits(d) && (d[0] != '0' || forall i :: 0 <= i < |d| ==> d[i] == '0')
  }

  predicate AllLiteral(blocks: seq<Block>) {
    forall i :: 0 <= i < |blocks| ==> !blocks[i].condition.Always? ==> Literal(blocks[i].condition.threshold)
  }

  /** One call of next on a fresh instance; a pending order makes it return at once. A file with
      a threshold that is no literal is refused, so nothing of it ever runs. */
  function Next(p: Program, pending: bool, v: Valuation): Trace
    requires WellFormed(p.blocks)
  {
    if !AllLiteral(p.blocks) then Trace([], false)
    else if pending then Trace([], true)
    else Execute(p.blocks, Attributes(p.lines), v)
  }

  // ---------------------------------------------------------------- what a label says

  predicate IsComparison(n: Node) {
    Contains(Label(n), "RSI") && (Contains(Label(n), "<") || Contains(Label(n), ">"))
  }

  predicate LessThan(n: Node) {
    Contains(Label(n), "<")
  }

  function Sign(n: Node): char {
    if LessThan(n) then '<' else '>'
  }

  function Tail(text: string, mark: char): string {
    if text == [] then [] else if text[0] == mark then text[1..] else Tail(text[1..], mark)
  }

  /** Everything behind the first comparison sign. */
  function Behind(n: Node): string {
    Tail(Label(n), Sign(n))
  }

  /** The sign is `<=` or `>=`. */
  predicate OrEqual(n: Node) {
    Behind(n) != [] && Behind(n)[0] == '='
  }

  function FirstDigit(s: string): (i: nat)
    ensures i <= |s| && (i < |s| ==> IsDigit(s[i])) && forall j :: 0 <= j < i ==> !IsDigit(s[j])
  {
    if s == [] || IsDigit(s[0]) then 0 else 1 + FirstDigit(s[1..])
  }

  function SignAt(s: string, mark: char): (i: nat)
    ensures i <= |s| && (i < |s| ==> s[i] == mark) && forall j :: 0 <= j < i ==> s[j] != mark
  {
    if s == [] || s[0] == mark then 0 else 1 + SignAt(s[1..], mark)
  }

  /** A decimal number in a text: its sign, whole part and decimal places. */
  datatype Numeral = Numeral(negative: bool, whole: string, places: string)

  /** A minus stands before position `i`, spaces aside. */
  predicate MinusBefore(s: string, i: nat)
    requires i <= |s|
  {
    i > 0 && (s[i - 1] == '-' || (s[i - 1] == ' ' && MinusBefore(s, i - 1)))
  }

  /** The longest numeral around the digit at `i`, the first one of the text. */
  function NumeralAt(s: string, i: nat): Numeral
    requires i < |s|
  {
    var digits := LeadingDigits(s[i..]);
    var rest := s[i..][|digits|..];
    if i >= 1 && s[i - 1] == '.' then Numeral(MinusBefore(s, i - 1), "", digits)
    else if |rest| >= 2 && rest[0] == '.' && IsDigit(rest[1]) then
      Numeral(MinusBefore(s, i), digits, LeadingDigits(rest[1..]))
    else Numeral(MinusBefore(s, i), digits, "")
  }

  function Natural(d: string): nat {
    if Digits(d) then Read(d) else 0
  }

  function Pow10(n: nat): (p: nat)
    ensures p >= 1
  {
    if n == 0 then 1 else 10 * Pow10(n - 1)
  }

  function Value(x: Numeral): real {
    var size := Natural(x.whole) as real + Natural(x.places) as real / Pow10(|x.places|) as real;
    if x.negative then -size else size
  }

  function DefaultLimit(n: Node): nat {
    if LessThan(n) then 30 else 70
  }

  /** The first numeral of a text, or the default when there is none. */
  function NumberIn(s: string, default: nat): real {
    if FirstDigit(s) == |s| then default as real else Value(NumeralAt(s, FirstDigit(s)))
  }

  /** The RSI stands behind the sign, as in `30 < RSI`. */
  predicate Turned(n: Node) {
    !Contains(UpTo(Label(n), Sign(n)), "RSI")
  }

  /** The number a comparison label compares with: the one on the other side of the sign. */
  function Limit(n: Node): real {
    NumberIn(if Turned(n) then UpTo(Label(n), Sign(n)) else Behind(n), DefaultLimit(n))
  }

  /** The label lets the values below its limit pass. */
  predicate Under(n: Node) {
    LessThan(n) != Turned(n)
  }

  /** The period between the parentheses of `RSI(14)`. */
  function LabelPeriod(text: string): Option<string> {
    if |text| < 4 then None
    else if text[..4] == "RSI(" then
      var digits := LeadingDigits(text[4..]);
      if digits != [] && 4 + |digits| < |text| && text[4 + |digits|] == ')' then Some(digits) else None
    else LabelPeriod(text[1..])
  }

  /** The indicator a comparison speaks of: the RSI with the period its label shows, or else
      with its node's own period. */
  function OwnIndicator(n: Node): Indicator {
    var shown := LabelPeriod(Label(n));
    Rsi(if shown.Some? then shown.value else Param(n, "period", "14"))
  }

  predicate Meets(n: Node, value: real) {
    if Under(n) then value < Limit(n) || (OrEqual(n) && value == Limit(n))
    else value > Limit(n) || (OrEqual(n) && value == Limit(n))
  }

  // ---------------------------------------------------------------- the graph's own meaning

  /** A comparison holds as its label says; every other condition holds. */
  predicate Holds(n: Node, v: Valuation) {
    IsComparison(n) ==> Meets(n, v(OwnIndicator(n)))
  }

  /** The edge leads from a condition to an action. */
  predicate Decides(dict: seq<Node>, e: Edge) {
    var source, target := Find(dict, e.source), Find(dict, e.target);
    source.Some? && target.Some? && IsCondition(source.value) && IsAction(target.value)
  }

  function Source(dict: seq<Node>, e: Edge): Node
    requires Decides(dict, e)
  {
    Find(dict, e.source).value
  }

  function ActionOf(dict: seq<Node>, e: Edge): Action
    requires Decides(dict, e)
  {
    ParseAction(Find(dict, e.target).value)
  }

  /** Walking the edges and performing the action of every Condition-to-Action edge that holds. */
  function Walk(dict: seq<Node>, edges: seq<Edge>, v: Valuation): seq<Action> {
    if edges == [] then []
    else
      (if Decides(dict, edges[0]) && Holds(Source(dict, edges[0]), v) then Perform(ActionOf(dict, edges[0])) else [])
      + Walk(dict, edges[1..], v)
  }

  // ---------------------------------------------------------------- what the generated code reads

  /** The first indicator node in the order of the node dict. */
  function Watched(dict: seq<Node>): Option<Node> {
    if dict == [] then None else if IsIndicator(dict[0]) then Some(dict[0]) else Watched(dict[1..])
  }

  function WatchedIndicator(dict: seq<Node>): Option<Indicator> {
    if Watched(dict).None? then None else IndicatorOf(Watched(dict).value)
  }

  /** The threshold the compiler emits. */
  function Threshold(n: Node): (d: string)
    ensures Digits(d)
  {
    var text := Label(n);
    if Contains(text, "<") then FirstNumber(Second(text, '<'), "30") else FirstNumber(Second(text, '>'), "70")
  }

  function Emitted(n: Node): nat {
    Read(Threshold(n))
  }

  predicate EmittedHolds(n: Node, value: real) {
    if LessThan(n) then value < Emitted(n) as real else value > Emitted(n) as real
  }

  /** Every comparison reads the first indicator node; None when that stands for no indicator. */
  function WatchedHolds(dict: seq<Node>, n: Node, v: Valuation): Option<bool> {
    if !IsComparison(n) then Some(true)
    else if WatchedIndicator(dict).None? then None
    else Some(EmittedHolds(n, v(WatchedIndicator(dict).value)))
  }

  function WatchedWalk(dict: seq<Node>, edges: seq<Edge>, v: Valuation): Trace {
    if edges == [] then Trace([], true)
    else if !Decides(dict, edges[0]) then WatchedWalk(dict, edges[1..], v)
    else
      var holds := WatchedHolds(dict, Source(dict, edges[0]), v);
      if holds.None? then Trace([], false)
      else
        var rest := WatchedWalk(dict, edges[1..], v);
        Trace((if holds.value then Perform(ActionOf(dict, edges[0])) else []) + rest.actions, rest.ok)
  }

  // ---------------------------------------------------------------- names

  lemma {:induction false} NameHasInd(count: nat)
    ensures Contains(VarName(count), "ind")
  {
    var name := VarName(count);
    assert name[5..8] == "ind";
    ContainsAt(name, "ind", 5);
  }

  lemma {:induction false} ContainsAt(text: string, part: string, at: nat)
    requires at + |part| <= |text| && text[at..at + |part|] == part
    ensures Contains(text, part)
    decreases at
  {
    if at > 0 {
      assert text[1..][at - 1..at - 1 + |part|] == text[at..at + |part|];
      ContainsAt(text[1..], part, at - 1);
    } else {
      assert text[0..|part|] == text[..|part|];
    }
  }

  lemma {:induction false} NamesDiffer(m: nat, n: nat)
    requires VarName(m) == VarName(n)
    ensures m == n
  {
    assert VarName(m)[9..] == Write(m) && VarName(n)[9..] == Write(n);
    Injective(m, n);
  }

  /** What a scan assigns: distinct names, numbered from 0; its lines define, for each name,
      the indicator of the node it was given to, and nothing for a node without one. */
  lemma {:induction false} ScanFacts(dict: seq<Node>)
    ensures var s := ScanNodes(dict);
            && |s.vars| == s.count
            && (forall i :: 0 <= i < |s.vars| ==> s.vars[i].1 == VarName(i))
            && (forall name :: name in Attributes(s.lines) ==> exists i :: 0 <= i < s.count && name == VarName(i))
  {
    if dict != [] {
      ScanFacts(dict[..|dict| - 1]);
      var before, s := ScanNodes(dict[..|dict| - 1]), ScanNodes(dict);
      if s.lines != before.lines {
        assert s.lines[..|s.lines| - 1] == before.lines;
        forall name | name in Attributes(s.lines)
          ensures exists i :: 0 <= i < s.count && name == VarName(i)
        {
          if name in Attributes(before.lines) {
            var i :| 0 <= i < before.count && name == VarName(i);
            assert i < s.count;
          } else {
            assert name == VarName(before.count);
          }
        }
      }
    }
  }

  /** MAIN: indicator names are distinct. */
  lemma {:induction false} DistinctNames(dict: seq<Node>, i: nat, j: nat)
    requires i < j < |ScanNodes(dict).vars|
    ensures ScanNodes(dict).vars[i].1 != ScanNodes(dict).vars[j].1
  {
    ScanFacts(dict);
    if VarName(i) == VarName(j) {
      NamesDiffer(i, j);
    }
  }

  lemma {:induction false} WatchedSnoc(dict: seq<Node>, n: Node)
    ensures Watched(dict + [n]) ==
            (if Watched(dict).Some? then Watched(dict) else if IsIndicator(n) then Some(n) else None)
  {
    if dict != [] {
      WatchedSnoc(dict[1..], n);
      assert (dict + [n])[1..] == dict[1..] + [n];
    }
  }

  /** The first name belongs to the watched node, whatever comes later. */
  lemma {:induction false} FirstIsWatched(dict: seq<Node>)
    ensures var s, env := ScanNodes(dict), Attributes(ScanNodes(dict).lines);
            && (Watched(dict).None? <==> s.vars == [])
            && (Watched(dict).Some? ==>
                  if IndicatorOf(Watched(dict).value).Some?
                  then VarName(0) in env && env[VarName(0)] == IndicatorOf(Watched(dict).value).value
                  else VarName(0) !in env)
  {
    if dict != [] {
      var init, n := dict[..|dict| - 1], dict[|dict| - 1];
      FirstIsWatched(init);
      WatchedSnoc(init, n);
      assert dict == init + [n];
      ScanFacts(init);
      var before, s := ScanNodes(init), ScanNodes(dict);
      if s.lines != before.lines {
        assert s.lines[..|s.lines| - 1] == before.lines;
        if VarName(before.count) == VarName(0) {
          NamesDiffer(before.count, 0);
        }
      }
      if before.vars == [] {
        assert forall name :: name !in Attributes(before.lines);
      }
    }
  }

  lemma {:induction false} RsiVarIsFirst(dict: seq<Node>)
    requires Watched(dict).Some?
    ensures RsiVar(ScanNodes(dict).vars) == VarName(0)
  {
    FirstIsWatched(dict);
    ScanFacts(dict);
    NameHasInd(0);
  }

  lemma {:induction false} FoundIsScanned(dict: seq<Node>, id: string)
    requires Find(dict, id).Some? && Contains(Label(Find(dict, id).value), "RSI")
    ensures Watched(dict).Some?
  {
    if dict[0].id != id {
      FoundIsScanned(dict[1..], id);
    }
  }

  /** MAIN: the self.rsi fallback is unreachable: a condition labelled RSI is itself scanned. */
  lemma {:induction false} NoFallback(c: Config, i: nat)
    requires i < |Compile(c).blocks| && !Compile(c).blocks[i].condition.Always?
    ensures Compile(c).blocks[i].condition.name == "self.ind_0"
  {
    var dict := NodeDict(c.nodes);
    BlocksWatch(dict, c.edges, i);
    assert Write(0) == "0";
  }

  lemma {:induction false} BlocksWatch(dict: seq<Node>, edges: seq<Edge>, i: nat)
    requires i < |BuildBlocks(dict, ScanNodes(dict).vars, edges)|
    requires !BuildBlocks(dict, ScanNodes(dict).vars, edges)[i].condition.Always?
    ensures BuildBlocks(dict, ScanNodes(dict).vars, edges)[i].condition.name == VarName(0)
    decreases |edges|
  {
    var vars := ScanNodes(dict).vars;
    var first := EdgeBlock(dict, vars, edges[0]);
    if i < |first| {
      FoundIsScanned(dict, edges[0].source);
      RsiVarIsFirst(dict);
    } else {
      BlocksWatch(dict, edges[1..], i - |first|);
    }
  }

  // ---------------------------------------------------------------- preservation

  lemma {:induction false} BlocksWellFormed(dict: seq<Node>, vars: seq<(string, string)>, edges: seq<Edge>)
    ensures WellFormed(BuildBlocks(dict, vars, edges))
  {
    if edges != [] {
      BlocksWellFormed(dict, vars, edges[1..]);
    }
  }

  lemma {:induction false} ConditionAgrees(dict: seq<Node>, id: string, v: Valuation)
    requires Find(dict, id).Some?
    ensures var n, s := Find(dict, id).value, ScanNodes(dict);
            var c := ParseCondition(n, s.vars);
            (!c.Always? ==> Digits(c.threshold)) && Test(c, Attributes(s.lines), v) == WatchedHolds(dict, n, v)
  {
    var n := Find(dict, id).value;
    if Contains(Label(n), "RSI") {
      FoundIsScanned(dict, id);
      RsiVarIsFirst(dict);
      FirstIsWatched(dict);
    }
  }

  lemma {:induction false} BlocksAgree(dict: seq<Node>, edges: seq<Edge>, v: Valuation)
    ensures var s := ScanNodes(dict);
            var blocks := BuildBlocks(dict, s.vars, edges);
            WellFormed(blocks) && Execute(blocks, Attributes(s.lines), v) == WatchedWalk(dict, edges, v)
    decreases |edges|
  {
    hide Contains, IsCondition, IsAction, ParseCondition, ParseAction, Attributes, ScanNodes, WatchedHolds, Find, Test;
    var s := ScanNodes(dict);
    BlocksWellFormed(dict, s.vars, edges);
    if edges != [] {
      BlocksAgree(dict, edges[1..], v);
      var first, rest := EdgeBlock(dict, s.vars, edges[0]), BuildBlocks(dict, s.vars, edges[1..]);
      if first != [] {
        ConditionAgrees(dict, edges[0].source, v);
        assert (first + rest)[1..] == rest;
      } else {
        assert first + rest == rest;
      }
    }
  }

  // ---------------------------------------------------------------- thresholds

  lemma {:induction false} SplitBehind(text: string, mark: char)
    ensures Second(text, mark) == UpTo(Tail(text, mark), mark)
  {
    if text != [] && text[0] != mark {
      SplitBehind(text[1..], mark);
    }
  }

  lemma {:induction false} DigitsUpTo(s: string, mark: char)
    requires !IsDigit(mark)
    ensures LeadingDigits(UpTo(s, mark)) == LeadingDigits(s)
  {
    if s != [] && IsDigit(s[0]) {
      DigitsUpTo(s[1..], mark);
      assert UpTo(s, mark)[1..] == UpTo(s[1..], mark);
    }
  }

  /** The compiler takes the first run of digits before a second comparison sign. */
  lemma {:induction false} FirstNumberIs(s: string, mark: char, default: string)
    requires !IsDigit(mark) && Digits(default)
    ensures FirstNumber(UpTo(s, mark), default)
         == if FirstDigit(s) < SignAt(s, mark) then LeadingDigits(s[FirstDigit(s)..]) else default
  {
    if s != [] && s[0] != mark {
      var rest := UpTo(s[1..], mark);
      assert UpTo(s, mark)[1..] == rest;
      if IsDigit(s[0]) {
        DigitsUpTo(s, mark);
        assert s[0..] == s;
      } else {
        FirstNumberIs(s[1..], mark, default);
        assert FirstDigit(s[1..]) < |s[1..]| ==> s[1..][FirstDigit(s[1..])..] == s[FirstDigit(s)..];
      }
    }
  }

  function Default(n: Node): string {
    if LessThan(n) then "30" else "70"
  }

  lemma {:induction false} Defaults()
    ensures Digits("30") && Read("30") == 30 && Literal("30")
    ensures Digits("70") && Read("70") == 70 && Literal("70")
  {
    assert "30"[..1] == "3" && Read("3") == 3;
    assert "70"[..1] == "7" && Read("7") == 7;
  }

  lemma {:induction false} ThresholdIs(n: Node)
    ensures var s := Behind(n);
            Threshold(n) == if FirstDigit(s) < SignAt(s, Sign(n)) then LeadingDigits(s[FirstDigit(s)..]) else Default(n)
  {
    SplitBehind(Label(n), Sign(n));
    FirstNumberIs(Behind(n), Sign(n), Default(n));
  }

  /** The first run of digits behind the sign, if it comes before a second sign, is a decimal
      literal. */
  predicate LiteralLabel(n: Node) {
    var s := Behind(n);
    FirstDigit(s) < SignAt(s, Sign(n)) ==> Literal(LeadingDigits(s[FirstDigit(s)..]))
  }

  lemma {:induction false} LiteralLabelIff(n: Node)
    ensures Literal(Threshold(n)) <==> LiteralLabel(n)
  {
    ThresholdIs(n);
    Defaults();
  }

  /** The number behind the sign has no decimal places but zeros and no minus, unless it is 0;
      and if a second sign comes before it, it is the usual limit. */
  predicate AsWritten(n: Node) {
    var s := Behind(n);
    var i := FirstDigit(s);
    i < |s| ==>
      if i < SignAt(s, Sign(n)) then
        var x := NumeralAt(s, i);
        Natural(x.places) == 0 && (!x.negative || Natural(x.whole) == 0)
      else Value(NumeralAt(s, i)) == DefaultLimit(n) as real
  }

  lemma {:induction false} ReadBound(d: string)
    requires Digits(d)
    ensures Read(d) < Pow10(|d|)
  {
    if |d| > 1 {
      ReadBound(d[..|d| - 1]);
    } else {
      assert Pow10(1) == 10 * Pow10(0);
    }
  }

  lemma {:induction false} Fraction(a: nat, p: nat)
    requires a < p
    ensures 0.0 <= a as real / p as real < 1.0 && (a as real / p as real == 0.0 <==> a == 0)
  {
    var f := a as real / p as real;
    assert f * p as real == a as real;
  }

  /** A numeral's value is its whole part exactly when the places are zeros and there is no
      minus; the places make up less than one. */
  lemma {:induction false} ValueFacts(x: Numeral)
    requires x.places == "" || Digits(x.places)
    ensures Value(x) == Natural(x.whole) as real
            <==> Natural(x.places) == 0 && (!x.negative || Natural(x.whole) == 0)
    ensures Value(x) >= 0.0 && Value(x) == Value(x).Floor as real ==> Value(x) == Natural(x.whole) as real
  {
    if x.places != "" {
      ReadBound(x.places);
    } else {
      assert !Digits(x.places) && Pow10(0) == 1;
    }
    Fraction(Natural(x.places), Pow10(|x.places|));
    hide Natural, Pow10;
    var f := Natural(x.places) as real / Pow10(|x.places|) as real;
    if Value(x) >= 0.0 && Value(x) == Value(x).Floor as real {
      if !x.negative {
        WholeAndFraction(Natural(x.whole), f);
      }
    }
  }

  lemma {:induction false} WholeAndFraction(a: nat, f: real)
    requires 0.0 <= f < 1.0
    ensures (a as real + f).Floor == a
  {
  }

  lemma {:induction false} NumeralDigits(s: string)
    requires FirstDigit(s) < |s|
    ensures var x, digits := NumeralAt(s, FirstDigit(s)), LeadingDigits(s[FirstDigit(s)..]);
            && Digits(digits) && (x.places == "" || Digits(x.places))
            && (x.whole == digits || (x.whole == "" && x.places == digits))
  {
    var i := FirstDigit(s);
    var digits := LeadingDigits(s[i..]);
    assert s[i..][0] == s[i];
    var rest := s[i..][|digits|..];
    assert |rest| >= 2 && rest[0] == '.' && IsDigit(rest[1]) ==> rest[1..][0] == rest[1];
  }

  /** MAIN: the threshold the compiler emits is the number behind its label's sign if and only if that
      is as written: sign and decimal places are dropped, and so is a number behind a second
      comparison sign. */
  lemma {:induction false} ThresholdAsWrittenIff(n: Node)
    ensures var number := NumberIn(Behind(n), DefaultLimit(n));
            && (Emitted(n) as real == number <==> AsWritten(n))
            && (number >= 0.0 && number == number.Floor as real ==>
                  Emitted(n) as real == number || Emitted(n) == DefaultLimit(n))
  {
    ThresholdIs(n);
    Defaults();
    var s := Behind(n);
    var i := FirstDigit(s);
    if i < |s| && i < SignAt(s, Sign(n)) {
      NumeralDigits(s);
      var x := NumeralAt(s, i);
      ValueFacts(x);
      if x.whole == "" {
        PlacesOnly(x);
      }
    }
  }

  /** Without a whole part the places are taken for one. */
  lemma {:induction false} PlacesOnly(x: Numeral)
    requires x.whole == "" && Digits(x.places)
    ensures Value(x) == Read(x.places) as real <==> Natural(x.places) == 0
    ensures Value(x) >= 0.0 && Value(x) == Value(x).Floor as real ==> Value(x) == Read(x.places) as real
  {
    assert Natural("") == 0;
    ReadBound(x.places);
    Fraction(Read(x.places), Pow10(|x.places|));
    ValueFacts(x);
  }

  // ---------------------------------------------------------------- the emitted thresholds

  /** The edge becomes a comparison block. */
  predicate Compares(dict: seq<Node>, e: Edge) {
    Decides(dict, e) && IsComparison(Source(dict, e))
  }

  /** An edge that becomes a comparison carries a proper decimal literal. */
  predicate LiteralEdge(dict: seq<Node>, e: Edge) {
    Compares(dict, e) ==> LiteralLabel(Source(dict, e))
  }

  lemma {:induction false} EdgeLiteralIff(dict: seq<Node>, vars: seq<(string, string)>, e: Edge)
    ensures AllLiteral(EdgeBlock(dict, vars, e)) <==> LiteralEdge(dict, e)
  {
    if Decides(dict, e) {
      LiteralLabelIff(Source(dict, e));
    }
    hide Contains, FirstNumber, Second, Label, IsCondition, IsAction, Find, RsiVar, LiteralLabel;
    var blocks := EdgeBlock(dict, vars, e);
    assert blocks != [] ==> (AllLiteral(blocks) <==>
             (!blocks[0].condition.Always? ==> Literal(blocks[0].condition.threshold)));
  }

  lemma {:induction false} BothLiteral(a: seq<Block>, b: seq<Block>)
    ensures AllLiteral(a + b) <==> AllLiteral(a) && AllLiteral(b)
  {
    if AllLiteral(a + b) {
      assert forall i :: 0 <= i < |a| ==> a[i] == (a + b)[i];
      assert forall i :: 0 <= i < |b| ==> b[i] == (a + b)[|a| + i];
    }
  }

  lemma {:induction false} BlocksLiteralIff(dict: seq<Node>, vars: seq<(string, string)>, edges: seq<Edge>)
    ensures AllLiteral(BuildBlocks(dict, vars, edges)) <==> forall e :: e in edges ==> LiteralEdge(dict, e)
  {
    hide AllLiteral, LiteralEdge, EdgeBlock;
    if edges == [] {
      assert AllLiteral([]) by {
        EmptyLiteral();
      }
    } else {
      BlocksLiteralIff(dict, vars, edges[1..]);
      EdgeLiteralIff(dict, vars, edges[0]);
      BothLiteral(EdgeBlock(dict, vars, edges[0]), BuildBlocks(dict, vars, edges[1..]));
      assert edges == [edges[0]] + edges[1..];
    }
  }

  lemma {:induction false} EmptyLiteral()
    ensures AllLiteral([])
  {
  }

  /** Every threshold the compiler emits is a decimal literal if and only if, in every
      comparison label, the first digits behind the sign are one. */
  lemma {:induction false} ThresholdsLiteralIff(c: Config)
    ensures AllLiteral(Compile(c).blocks) <==> forall e :: e in c.edges ==> LiteralEdge(NodeDict(c.nodes), e)
  {
    var dict := NodeDict(c.nodes);
    BlocksLiteralIff(dict, ScanNodes(dict).vars, c.edges);
  }

  // ---------------------------------------------------------------- when the program runs

  /** With literal thresholds the generated next performs the actions of the edges in order,
      with every comparison reading the first indicator node, and fails where that stands for
      no indicator; without them it does not run at all. */
  lemma {:induction false} ReadsFirstIndicator(c: Config, pending: bool, v: Valuation)
    ensures WellFormed(Compile(c).blocks)
    ensures Next(Compile(c), pending, v) ==
              if exists e :: e in c.edges && !LiteralEdge(NodeDict(c.nodes), e) then Trace([], false)
              else if pending then Trace([], true)
              else WatchedWalk(NodeDict(c.nodes), c.edges, v)
  {
    BlocksAgree(NodeDict(c.nodes), c.edges, v);
    ThresholdsLiteralIff(c);
  }

  /** MAIN: the generated next runs if and only if every comparison edge carries a literal
      threshold and, if there is a comparison edge at all, the first indicator node stands for
      a known indicator. */
  lemma {:induction false} RunsIff(c: Config, v: Valuation)
    ensures WellFormed(Compile(c).blocks)
    ensures Next(Compile(c), false, v).ok <==>
              forall e :: e in c.edges && Compares(NodeDict(c.nodes), e) ==>
                LiteralLabel(Source(NodeDict(c.nodes), e)) && WatchedIndicator(NodeDict(c.nodes)).Some?
  {
    var dict := NodeDict(c.nodes);
    hide Compile, NodeDict, Next, WellFormed, LiteralLabel, WatchedWalk, WatchedIndicator, Decides, IsComparison;
    ReadsFirstIndicator(c, false, v);
    WalkRunsIff(dict, c.edges, v);
    assert forall e :: LiteralEdge(dict, e) <==> (Compares(dict, e) ==> LiteralLabel(Source(dict, e)));
  }

  lemma {:induction false} WalkRunsIff(dict: seq<Node>, edges: seq<Edge>, v: Valuation)
    ensures WatchedWalk(dict, edges, v).ok <==>
              (forall e :: e in edges ==> !Compares(dict, e)) || WatchedIndicator(dict).Some?
    decreases |edges|
  {
    hide IsComparison, Decides, WatchedIndicator;
    if edges != [] {
      WalkRunsIff(dict, edges[1..], v);
      assert edges == [edges[0]] + edges[1..];
      assert (forall e :: e in edges ==> !Compares(dict, e))
             <==> !Compares(dict, edges[0]) && forall e :: e in edges[1..] ==> !Compares(dict, e);
    }
  }

  // ---------------------------------------------------------------- when it means what it says

  /** The compiler emits the comparison that the label shows. */
  predicate SaysIt(n: Node) {
    !Turned(n) && !OrEqual(n) && AsWritten(n)
  }

  lemma {:induction false} SaysItMeans(n: Node, value: real)
    requires SaysIt(n)
    ensures EmittedHolds(n, value) == Meets(n, value)
  {
    hide Behind, LessThan, NumberIn, Emitted, AsWritten, OrEqual, Turned;
    ThresholdAsWrittenIff(n);
  }

  /** A value on which the emitted comparison and the label differ. */
  lemma {:induction false} SaysOtherwise(n: Node) returns (value: real)
    requires !SaysIt(n)
    ensures EmittedHolds(n, value) != Meets(n, value)
  {
    hide Behind, LessThan, NumberIn, Emitted, AsWritten, OrEqual, Turned;
    ThresholdAsWrittenIff(n);
    var emitted, written := Emitted(n) as real, Limit(n);
    value := if !Turned(n) then (emitted + written) / 2.0
             else if LessThan(n) then (if emitted < written then emitted else written) - 1.0
             else (if emitted > written then emitted else written) + 1.0;
  }

  /** MAIN: one generated comparison agrees with its label on every bar exactly when the first
      indicator node is the label's RSI and the threshold and sign are as written. */
  lemma {:induction false} ComparisonMeansIff(dict: seq<Node>, n: Node)
    requires IsComparison(n)
    ensures (forall v: Valuation :: WatchedHolds(dict, n, v) == Some(Holds(n, v)))
            <==> WatchedIndicator(dict) == Some(OwnIndicator(n)) && SaysIt(n)
  {
    hide IsComparison, WatchedIndicator, OwnIndicator, SaysIt, Meets, EmittedHolds;
    var own := OwnIndicator(n);
    if WatchedIndicator(dict) == Some(own) && SaysIt(n) {
      forall v: Valuation
        ensures WatchedHolds(dict, n, v) == Some(Holds(n, v))
      {
        SaysItMeans(n, v(own));
      }
    } else if WatchedIndicator(dict) == Some(own) {
      var x := SaysOtherwise(n);
      var v: Valuation := i => x;
      assert v(own) == x;
      assert WatchedHolds(dict, n, v) != Some(Holds(n, v));
    } else {
      var a, b := OneOfEach(n);
      var v: Valuation := i => if i == own then a else b;
      assert v(own) == a && WatchedHolds(dict, n, v) != Some(Holds(n, v));
    }
  }

  lemma {:induction false} OneOfEach(n: Node) returns (a: real, b: real)
    ensures Meets(n, a) && !EmittedHolds(n, b)
  {
    hide LessThan, Limit, Emitted, OrEqual, Turned;
    a := if Under(n) then Limit(n) - 1.0 else Limit(n) + 1.0;
    b := Emitted(n) as real;
  }

  /** What the generated next does on a comparison edge is not what its label says: it does not
      run, or the action shows a comparison that differs from the label. */
  predicate Misreads(dict: seq<Node>, e: Edge) {
    Compares(dict, e) && (WatchedIndicator(dict).None? || !LiteralLabel(Source(dict, e)) || Differs(dict, e))
  }

  /** A visible comparison with the wrong indicator, threshold or sign. */
  predicate Differs(dict: seq<Node>, e: Edge) {
    && Compares(dict, e) && ActionOf(dict, e) != Pass && WatchedIndicator(dict).Some?
    && !(WatchedIndicator(dict).value == OwnIndicator(Source(dict, e)) && SaysIt(Source(dict, e)))
  }

  lemma {:induction false} SameUnlessMisread(dict: seq<Node>, edges: seq<Edge>, v: Valuation)
    requires forall e :: e in edges ==> !Misreads(dict, e)
    ensures WatchedWalk(dict, edges, v) == Trace(Walk(dict, edges, v), true)
    decreases |edges|
  {
    hide IsComparison, Decides, WatchedIndicator, OwnIndicator, Meets, EmittedHolds, SaysIt, LiteralLabel;
    if edges != [] {
      assert edges[0] in edges && forall e :: e in edges[1..] ==> e in edges;
      SameUnlessMisread(dict, edges[1..], v);
      if Compares(dict, edges[0]) && SaysIt(Source(dict, edges[0])) {
        SaysItMeans(Source(dict, edges[0]), v(OwnIndicator(Source(dict, edges[0]))));
      }
    }
  }

  /** The limits of the comparisons, as written and as emitted. */
  function Limits(dict: seq<Node>, edges: seq<Edge>): seq<real> {
    if edges == [] then []
    else
      (if !Compares(dict, edges[0]) then []
       else [Limit(Source(dict, edges[0])), Emitted(Source(dict, edges[0])) as real]) + Limits(dict, edges[1..])
  }

  /** `x` is next to `t`, on the side where a comparison with the limit `t` holds, and none of
      the limits lies between them. */
  predicate NextTo(limits: seq<real>, t: real, x: real, below: bool) {
    && (if below then x < t else x > t)
    && forall u :: u in limits ==> if below then u < t ==> u < x else u > t ==> u > x
  }

  function Near(limits: seq<real>, t: real, below: bool): (x: real)
    ensures NextTo(limits, t, x, below)
  {
    if limits == [] then if below then t - 1.0 else t + 1.0
    else
      var x, u := Near(limits[1..], t, below), limits[0];
      assert limits == [u] + limits[1..];
      if below && x <= u < t then (u + t) / 2.0
      else if !below && t < u <= x then (u + t) / 2.0
      else x
  }

  /** The bar on which one indicator has this value and the others are 0. */
  function Only(own: Indicator, value: real): Valuation {
    i => if i == own then value else 0.0
  }

  /** No comparison has its RSI behind the sign. */
  predicate NoneTurned(dict: seq<Node>, edges: seq<Edge>) {
    forall e :: e in edges && Compares(dict, e) ==> !Turned(Source(dict, e))
  }

  /** No visible comparison on this side has the limit `t` written and another emitted. */
  predicate NoneLeaves(dict: seq<Node>, edges: seq<Edge>, own: Indicator, t: real, below: bool) {
    forall e :: e in edges && Compares(dict, e) && ActionOf(dict, e) != Pass ==>
      var n := Source(dict, e);
      OwnIndicator(n) == own && LessThan(n) == below && Limit(n) == t ==> Emitted(n) as real == t
  }

  /** Between `t` and the point next to it an emitted comparison gains at least what the label
      gains, and more where it is emitted with the limit `t` and differs from the label. */
  lemma {:induction false} EdgeGains(n: Node, own: Indicator, limits: seq<real>, t: real, x: real, below: bool)
    requires IsComparison(n) && Limit(n) in limits && Emitted(n) as real in limits && NextTo(limits, t, x, below)
    requires !Turned(n)
    requires OwnIndicator(n) == own && LessThan(n) == below && Limit(n) == t ==> Emitted(n) as real == t
    ensures Holds(n, Only(own, x)) && !Holds(n, Only(own, t)) ==> EmittedHolds(n, x) && !EmittedHolds(n, t)
    ensures EmittedHolds(n, t) ==> EmittedHolds(n, x)
    ensures LessThan(n) == below && Emitted(n) as real == t && !(OwnIndicator(n) == own && SaysIt(n)) ==>
              EmittedHolds(n, x) && !EmittedHolds(n, t) && (Holds(n, Only(own, x)) ==> Holds(n, Only(own, t)))
  {
    ThresholdAsWrittenIff(n);
    hide IsComparison, Behind, LessThan, OrEqual, NumberIn, Emitted, AsWritten, OwnIndicator, Turned;
  }

  /** Together the emitted comparisons gain at least as many actions as the labels, and more
      when one that is emitted with the limit `t` differs from its label. */
  lemma {:induction false} WalkGains(dict: seq<Node>, edges: seq<Edge>, limits: seq<real>, t: real, x: real,
                                     below: bool)
    requires WatchedIndicator(dict).Some? && NextTo(limits, t, x, below) && NoneTurned(dict, edges)
    requires forall u :: u in Limits(dict, edges) ==> u in limits
    requires NoneLeaves(dict, edges, WatchedIndicator(dict).value, t, below)
    ensures var v, w := Only(WatchedIndicator(dict).value, t), Only(WatchedIndicator(dict).value, x);
            var written, emitted := |Walk(dict, edges, w)| - |Walk(dict, edges, v)|,
                                    |WatchedWalk(dict, edges, w).actions| - |WatchedWalk(dict, edges, v).actions|;
            && emitted >= written
            && ((exists e :: e in edges && Differs(dict, e) && LessThan(Source(dict, e)) == below
                             && Emitted(Source(dict, e)) as real == t) ==> emitted > written)
    decreases |edges|
  {
    if edges != [] {
      assert edges == [edges[0]] + edges[1..];
      WalkGains(dict, edges[1..], limits, t, x, below);
      if Compares(dict, edges[0]) {
        var n := Source(dict, edges[0]);
        assert Limit(n) in Limits(dict, edges) && Emitted(n) as real in Limits(dict, edges);
        if ActionOf(dict, edges[0]) != Pass {
          EdgeGains(n, WatchedIndicator(dict).value, limits, t, x, below);
        }
      }
    }
  }

  /** A visible comparison that differs from its label shows on some bar. */
  lemma {:induction false} DifferenceShows(dict: seq<Node>, edges: seq<Edge>, e: Edge)
    requires e in edges && Differs(dict, e) && NoneTurned(dict, edges)
    ensures exists v: Valuation :: WatchedWalk(dict, edges, v) != Trace(Walk(dict, edges, v), true)
  {
    hide Walk, WatchedWalk, Limits, Limit, Emitted, LessThan, SaysIt, WatchedIndicator, OwnIndicator;
    var own := WatchedIndicator(dict).value;
    var below := LessThan(Source(dict, e));
    var usual := if below then 30.0 else 70.0;
    var t := if exists m :: m in edges && Differs(dict, m) && LessThan(Source(dict, m)) == below
                            && Emitted(Source(dict, m)) as real == usual
             then usual else Emitted(Source(dict, e)) as real;
    var limits := Limits(dict, edges);
    var x := Near(limits, t, below);
    assert NoneLeaves(dict, edges, own, t, below) by {
      NothingLeaves(dict, edges, e, t, below, usual);
    }
    WalkGains(dict, edges, limits, t, x, below);
    var v, w := Only(own, t), Only(own, x);
    var shown := if WatchedWalk(dict, edges, v) == Trace(Walk(dict, edges, v), true) then w else v;
    assert WatchedWalk(dict, edges, shown) != Trace(Walk(dict, edges, shown), true);
  }

  /** A label with the limit `t` emitted otherwise is emitted with the usual limit, where the
      difference would have been looked for. */
  lemma {:induction false} NothingLeaves(dict: seq<Node>, edges: seq<Edge>, e: Edge, t: real, below: bool, usual: real)
    requires WatchedIndicator(dict).Some? && usual == (if below then 30.0 else 70.0) && NoneTurned(dict, edges)
    requires t >= 0.0 && t == t.Floor as real
    requires t != usual ==> forall m :: m in edges && Differs(dict, m) && LessThan(Source(dict, m)) == below ==>
                              Emitted(Source(dict, m)) as real != usual
    ensures NoneLeaves(dict, edges, WatchedIndicator(dict).value, t, below)
  {
    forall m | m in edges && Compares(dict, m) && ActionOf(dict, m) != Pass
      ensures var n := Source(dict, m);
              OwnIndicator(n) == WatchedIndicator(dict).value && LessThan(n) == below && Limit(n) == t ==>
                Emitted(n) as real == t
    {
      hide NumberIn, Behind, Emitted, LessThan, WatchedIndicator, OwnIndicator, AsWritten, Turned;
      var n := Source(dict, m);
      ThresholdAsWrittenIff(n);
      assert !AsWritten(n) ==> !SaysIt(n);
      assert LessThan(n) == below ==> DefaultLimit(n) as real == usual;
    }
  }

  /** MAIN: the generated next does on every bar what walking the graph's edges and evaluating
      each comparison as its label says does, the same actions in the same order, if no
      comparison edge is misread: every threshold is a literal, the first indicator node stands
      for a known indicator, and for every comparison that leads to a visible action that is the
      label's RSI and the sides, the threshold and the sign are as written. Where no label has
      its RSI behind the sign, it does so only if none is. */
  lemma {:induction false} CompilationPreservesIff(c: Config)
    ensures WellFormed(Compile(c).blocks)
    ensures var dict := NodeDict(c.nodes);
            var same := forall v: Valuation :: Next(Compile(c), false, v) == Trace(Walk(dict, c.edges, v), true);
            && ((forall e :: e in c.edges ==> !Misreads(dict, e)) ==> same)
            && (NoneTurned(dict, c.edges) && same ==> forall e :: e in c.edges ==> !Misreads(dict, e))
  {
    hide Next, Walk, WatchedWalk, NodeDict, Compile, WellFormed, Decides, IsComparison, LiteralLabel, WatchedIndicator,
         OwnIndicator, SaysIt;
    var dict := NodeDict(c.nodes);
    ReadsFirstIndicator(c, false, _ => 0.0);
    if forall e :: e in c.edges ==> !Misreads(dict, e) {
      forall v: Valuation
        ensures Next(Compile(c), false, v) == Trace(Walk(dict, c.edges, v), true)
      {
        ReadsFirstIndicator(c, false, v);
        SameUnlessMisread(dict, c.edges, v);
      }
    } else if NoneTurned(dict, c.edges) {
      var e :| e in c.edges && Misreads(dict, e);
      MisreadShows(c, e);
    }
  }

  lemma {:induction false} MisreadShows(c: Config, e: Edge)
    requires e in c.edges && Misreads(NodeDict(c.nodes), e) && NoneTurned(NodeDict(c.nodes), c.edges)
    ensures WellFormed(Compile(c).blocks)
    ensures exists v: Valuation :: Next(Compile(c), false, v) != Trace(Walk(NodeDict(c.nodes), c.edges, v), true)
  {
    hide Next, Walk, WatchedWalk, NodeDict, Compile, WellFormed, Decides, IsComparison, LiteralLabel, WatchedIndicator,
         OwnIndicator, SaysIt, NoneTurned;
    var dict := NodeDict(c.nodes);
    var v: Valuation := _ => 0.0;
    RunsIff(c, v);
    if Next(Compile(c), false, v).ok {
      DifferenceShows(dict, c.edges, e);
      var w: Valuation :| WatchedWalk(dict, c.edges, w) != Trace(Walk(dict, c.edges, w), true);
      ReadsFirstIndicator(c, false, w);
      assert Next(Compile(c), false, w) != Trace(Walk(dict, c.edges, w), true);
    } else {
      assert Next(Compile(c), false, v) != Trace(Walk(dict, c.edges, v), true);
    }
  }

  // ---------------------------------------------------------------- labels it gets wrong

  lemma {:induction false} ContainsPart(pre: string, part: string, rest: string)
    ensures Contains(pre + part + rest, part)
  {
    var text := pre + part + rest;
    assert text[|pre|..|pre| + |part|] == part;
    ContainsAt(text, part, |pre|);
  }

  lemma {:induction false} PartBegins(text: string, part: string)
    requires part != [] && Contains(text, part)
    ensures part[0] in text
  {
    if text[..|part|] == part {
      assert text[..|part|][0] == text[0];
    } else {
      PartBegins(text[1..], part);
    }
  }

  lemma {:induction false} LeadingDigitsAre(digits: string, rest: string)
    requires Digits(digits) && (rest != [] ==> !IsDigit(rest[0]))
    ensures LeadingDigits(digits + rest) == digits
  {
    assert (digits + rest)[1..] == digits[1..] + rest;
    if |digits| > 1 {
      LeadingDigitsAre(digits[1..], rest);
    } else {
      assert digits[1..] + rest == rest;
    }
  }

  lemma {:induction false} NoPeriod(text: string)
    requires '(' !in text
    ensures LabelPeriod(text) == None
  {
    if |text| >= 4 {
      assert text[..4][3] == text[3] && "RSI("[3] == '(';
      NoPeriod(text[1..]);
    }
  }

  lemma {:induction false} SplitAt(front: string, mark: char, back: string)
    requires mark !in front
    ensures Tail(front + [mark] + back, mark) == back && UpTo(front + [mark] + back, mark) == front
  {
    var text := front + [mark] + back;
    if front == [] {
      assert text[1..] == back;
    } else {
      assert text[1..] == front[1..] + [mark] + back;
      SplitAt(front[1..], mark, back);
    }
  }

  /** A text without comparison signs. */
  predicate NoSign(text: string) {
    '<' !in text && '>' !in text
  }

  /** The parts of a label with one comparison sign. */
  lemma {:induction false} OneSign(n: Node, front: string, mark: char, back: string)
    requires n.caption == Some(front + [mark] + back) && NoSign(front) && NoSign(back) && (mark == '<' || mark == '>')
    ensures LessThan(n) == (mark == '<') && (Contains(Label(n), "RSI") ==> IsComparison(n))
    ensures Behind(n) == back && Turned(n) == !Contains(front, "RSI")
    ensures SignAt(back, Sign(n)) == |back|
  {
    hide UpTo, Tail;
    var text := Label(n);
    ContainsPart(front, [mark], back);
    assert [mark] == "<" || [mark] == ">";
    if Contains(text, "<") {
      PartBegins(text, "<");
    }
    SplitAt(front, mark, back);
  }

  lemma {:induction false} FirstDigitBehind(gap: string, tail: string)
    requires (forall c :: c in gap ==> !IsDigit(c)) && tail != [] && IsDigit(tail[0])
    ensures FirstDigit(gap + tail) == |gap|
  {
    hide FirstDigit;
    var s := gap + tail;
    assert s[|gap|] == tail[0] && forall j :: 0 <= j < |gap| ==> s[j] == gap[j] && s[j] in gap;
  }

  lemma {:induction false} NoMinusBefore(s: string, i: nat)
    requires i <= |s| && '-' !in s[..i]
    ensures !MinusBefore(s, i)
  {
    if i > 0 {
      assert s[..i][i - 1] == s[i - 1] && s[..i - 1] == s[..i][..i - 1];
      NoMinusBefore(s, i - 1);
    }
  }

  /** The first numeral of a text: its digits behind a gap, and decimal places if there are any. */
  lemma {:induction false} NumberBehind(gap: string, digits: string, rest: string)
    requires (forall c :: c in gap ==> !IsDigit(c) && c != '.' && c != '-')
    requires Digits(digits) && (rest != [] ==> !IsDigit(rest[0]))
    ensures var s := gap + digits + rest;
            && FirstDigit(s) == |gap| && LeadingDigits(s[|gap|..]) == digits
            && NumeralAt(s, |gap|)
            == Numeral(false, digits,
                       if |rest| >= 2 && rest[0] == '.' && IsDigit(rest[1]) then LeadingDigits(rest[1..]) else "")
  {
    hide FirstDigit, LeadingDigits;
    var s, tail := gap + digits + rest, digits + rest;
    assert s == gap + tail && tail[0] == digits[0];
    FirstDigitBehind(gap, tail);
    assert s[|gap|..] == tail && tail[|digits|..] == rest;
    LeadingDigitsAre(digits, rest);
    assert s[..|gap|] == gap;
    NoMinusBefore(s, |gap|);
    assert |gap| >= 1 ==> s[|gap| - 1] == gap[|gap| - 1];
  }

  /** What the compiler makes of a label with one sign. */
  lemma {:induction false} OneThreshold(n: Node, front: string, mark: char, gap: string, digits: string, rest: string)
    requires n.caption == Some(front + [mark] + (gap + digits + rest)) && NoSign(front) && NoSign(gap + digits + rest)
    requires (mark == '<' || mark == '>') && '(' !in Label(n) && Contains(Label(n), "RSI")
    requires (forall c :: c in gap ==> !IsDigit(c) && c != '.' && c != '-')
    requires Digits(digits) && (rest != [] ==> !IsDigit(rest[0]))
    ensures IsComparison(n) && LessThan(n) == (mark == '<') && OwnIndicator(n) == Rsi(Param(n, "period", "14"))
    ensures Turned(n) == !Contains(front, "RSI") && OrEqual(n) == ((gap + digits)[0] == '=')
    ensures Threshold(n) == digits && (LiteralLabel(n) <==> Literal(digits))
  {
    hide FirstDigit, SignAt, Contains, LeadingDigits, NumeralAt, Tail, UpTo, Threshold, Literal;
    OneSign(n, front, mark, gap + digits + rest);
    NumberBehind(gap, digits, rest);
    NoPeriod(Label(n));
    LiteralLabelIff(n);
    ThresholdIs(n);
  }

  /** The limit of a label with its RSI before the sign. */
  lemma {:induction false} OneLimit(n: Node, front: string, mark: char, gap: string, digits: string, rest: string)
    requires n.caption == Some(front + [mark] + (gap + digits + rest)) && NoSign(front) && NoSign(gap + digits + rest)
    requires (mark == '<' || mark == '>') && Contains(front, "RSI")
    requires (forall c :: c in gap ==> !IsDigit(c) && c != '.' && c != '-')
    requires Digits(digits) && (rest != [] ==> !IsDigit(rest[0]))
    ensures Limit(n) == Value(Numeral(false, digits,
              if |rest| >= 2 && rest[0] == '.' && IsDigit(rest[1]) then LeadingDigits(rest[1..]) else ""))
  {
    hide FirstDigit, SignAt, Contains, LeadingDigits, NumeralAt, Tail, UpTo, Value;
    OneSign(n, front, mark, gap + digits + rest);
    NumberBehind(gap, digits, rest);
  }

  /** A label `RSI < ` followed by digits and something else. */
  lemma {:induction false} UsualLabel(n: Node, digits: string, rest: string)
    requires n.caption == Some("RSI < " + digits + rest) && Digits(digits)
    requires (rest != [] ==> !IsDigit(rest[0])) && NoSign(rest) && '(' !in rest
    ensures IsComparison(n) && LessThan(n) && !OrEqual(n) && !Turned(n)
    ensures OwnIndicator(n) == Rsi(Param(n, "period", "14"))
    ensures Threshold(n) == digits && (LiteralLabel(n) <==> Literal(digits))
    ensures Limit(n) == Value(Numeral(false, digits,
              if |rest| >= 2 && rest[0] == '.' && IsDigit(rest[1]) then LeadingDigits(rest[1..]) else ""))
  {
    hide Contains, LeadingDigits, Value, OwnIndicator, Turned, OrEqual, Threshold, LiteralLabel, Literal, Limit;
    assert "RSI < " + digits + rest == "RSI " + ['<'] + (" " + digits + rest);
    ContainsPart("", "RSI", " ");
    assert "RSI " == "" + "RSI" + " ";
    ContainsPart("", "RSI", " < " + digits + rest);
    assert Label(n) == "" + "RSI" + (" < " + digits + rest);
    OneThreshold(n, "RSI ", '<', " ", digits, rest);
    OneLimit(n, "RSI ", '<', " ", digits, rest);
  }

  /** `RSI < 30`, as written. */
  lemma {:induction false} PlainLabel(n: Node)
    requires n.caption == Some("RSI < 30")
    ensures IsComparison(n) && LessThan(n) && !OrEqual(n) && !Turned(n)
    ensures OwnIndicator(n) == Rsi(Param(n, "period", "14"))
    ensures Limit(n) == 30.0 && Emitted(n) == 30 && LiteralLabel(n)
  {
    hide IsComparison, LessThan, OrEqual, OwnIndicator, Turned, Threshold, LiteralLabel, Limit;
    assert "RSI < " + "30" + "" == "RSI < 30";
    Defaults();
    UsualLabel(n, "30", "");
    assert Pow10(0) == 1 && !Digits("");
  }

  /** `RSI < 30.5` is compiled to the limit 30. */
  lemma {:induction false} DecimalLabel(n: Node)
    requires n.caption == Some("RSI < 30.5")
    ensures IsComparison(n) && LessThan(n) && !OrEqual(n) && !Turned(n)
    ensures OwnIndicator(n) == Rsi(Param(n, "period", "14"))
    ensures Limit(n) == 30.5 && Emitted(n) == 30 && LiteralLabel(n)
  {
    hide IsComparison, LessThan, OrEqual, OwnIndicator, Turned, Threshold, LiteralLabel, Limit;
    assert "RSI < " + "30" + ".5" == "RSI < 30.5";
    Defaults();
    UsualLabel(n, "30", ".5");
    assert ".5"[1..] == "5" + "";
    LeadingDigitsAre("5", "");
    assert Read("5") == 5 && Pow10(1) == 10 * Pow10(0);
  }

  lemma {:induction false} OneEdge(cond: Node, act: Node, first: Node)
    requires first.id != cond.id && cond.id != act.id && first.id != act.id
    ensures NodeDict([first, cond, act]) == [first, cond, act]
    ensures Find([first, cond, act], cond.id) == Some(cond) && Find([first, cond, act], act.id) == Some(act)
  {
    var nodes := [first, cond, act];
    assert nodes[..2] == [first, cond] && nodes[..2][..1] == [first] && [first][..0] == [];
    assert NodeDict([first]) == [first];
    assert PutNode([first], cond) == [first, cond];
    assert [first, cond][1..] == [cond] && PutNode([cond], act) == [cond, act];
    assert PutNode([first, cond], act) == [first, cond, act];
    assert nodes[1..] == [cond, act] && [cond, act][1..] == [act];
    assert Find([cond, act], act.id) == Find([act], act.id) == Some(act);
  }

  lemma {:induction false} SmaNode(n: Node)
    requires n.kind == "INDICATOR" && n.caption == Some("SMA") && n.params == map[]
    ensures IsIndicator(n) && IndicatorOf(n) == Some(Sma("20"))
  {
    assert !Contains("MA", "RSI") && !Contains("MA", "MACD");
    assert !Contains("SMA", "RSI") && !Contains("SMA", "MACD") && Contains("SMA", "SMA");
  }

  lemma {:induction false} RsiNode(n: Node)
    requires n.kind == "INDICATOR" && n.caption == Some("RSI") && n.params == map[]
    ensures IsIndicator(n) && IndicatorOf(n) == Some(Rsi("14"))
  {
    assert "RSI"[..3] == "RSI" && Contains("RSI", "RSI");
  }

  lemma {:induction false} BuyNode(n: Node)
    requires n.kind == "ACTION" && n.caption == Some("Buy")
    ensures IsAction(n) && ParseAction(n) == Buy
  {
    assert "Buy"[1..] == "uy" && "uy"[1..] == "y" && "y"[1..] == "";
    assert Lower("y") == "y" && Lower("uy") == "uy" && Lower("Buy") == "buy";
    assert Contains("buy", "buy");
  }

  /** An indicator node, a condition and a buying action, and one edge from the second to the third. */
  function Small(indicator: string, caption: string): Config {
    Config([Node("1", "INDICATOR", Some(indicator), map[]), Node("2", "CONDITION", Some(caption), map[]),
            Node("3", "ACTION", Some("Buy"), map[])],
           [Edge("2", "3")])
  }

  /** What the small graphs with a comparison do. */
  lemma {:induction false} SmallRuns(indicator: string, caption: string, i: Indicator, v: Valuation)
    requires IsIndicator(Small(indicator, caption).nodes[0])
    requires IndicatorOf(Small(indicator, caption).nodes[0]) == Some(i)
    requires IsComparison(Small(indicator, caption).nodes[1])
    ensures var c, n := Small(indicator, caption), Small(indicator, caption).nodes[1];
            && WellFormed(Compile(c).blocks)
            && Next(Compile(c), false, v) == (if !LiteralLabel(n) then Trace([], false)
                                              else Trace(if EmittedHolds(n, v(i)) then [Buy] else [], true))
            && Walk(NodeDict(c.nodes), c.edges, v) == (if Holds(n, v) then [Buy] else [])
  {
    hide Contains, IsIndicator, IsAction, IndicatorOf, ParseAction, IsComparison, LiteralLabel, EmittedHolds, Holds,
         Next, Compile;
    var c := Small(indicator, caption);
    var first, n, buy := c.nodes[0], c.nodes[1], c.nodes[2];
    assert first.id[0] == '1' && n.id[0] == '2' && buy.id[0] == '3';
    OneEdge(n, buy, first);
    BuyNode(buy);
    var dict, e := NodeDict(c.nodes), c.edges[0];
    assert dict == [first, n, buy];
    assert Watched(dict) == Some(first) && Decides(dict, e) && Source(dict, e) == n && ActionOf(dict, e) == Buy;
    assert LiteralEdge(dict, e) == LiteralLabel(n);
    ReadsFirstIndicator(c, false, v);
    assert c.edges[1..] == [] && WatchedWalk(dict, [], v) == Trace([], true) && Walk(dict, [], v) == [];
  }

  /** MAIN: a graph that acts against its own label: an SMA node comes first, so `RSI < 30`
      compares the SMA, and with an SMA of 10 and an RSI of 50 the generated code buys. */
  lemma {:induction false} BuysOnTheWrongIndicator()
    ensures var c := Small("SMA", "RSI < 30");
            var v: Valuation := i => if i == Sma("20") then 10.0 else 50.0;
            && WellFormed(Compile(c).blocks) && Next(Compile(c), false, v) == Trace([Buy], true)
            && Walk(NodeDict(c.nodes), c.edges, v) == []
  {
    hide IsIndicator, IndicatorOf, IsComparison, LiteralLabel, LessThan, OrEqual, Turned, Limit, Emitted, Next, Compile,
         Walk, NodeDict, OwnIndicator;
    var c := Small("SMA", "RSI < 30");
    var v: Valuation := i => if i == Sma("20") then 10.0 else 50.0;
    SmaNode(c.nodes[0]);
    PlainLabel(c.nodes[1]);
    SmallRuns("SMA", "RSI < 30", Sma("20"), v);
  }

  /** MAIN: with `RSI < 30.5` behind the RSI itself and an RSI of 30.2 the generated code does
      not buy. */
  lemma {:induction false} MissesTheDecimals()
    ensures var c := Small("RSI", "RSI < 30.5");
            && WellFormed(Compile(c).blocks) && Next(Compile(c), false, _ => 30.2) == Trace([], true)
            && Walk(NodeDict(c.nodes), c.edges, _ => 30.2) == [Buy]
  {
    hide IsIndicator, IndicatorOf, IsComparison, LiteralLabel, LessThan, OrEqual, Turned, Limit, Emitted, Next, Compile,
         Walk, NodeDict, OwnIndicator;
    var c := Small("RSI", "RSI < 30.5");
    RsiNode(c.nodes[0]);
    DecimalLabel(c.nodes[1]);
    SmallRuns("RSI", "RSI < 30.5", Rsi("14"), _ => 30.2);
  }

  /** MAIN: with `RSI < 030` the generated file is refused, and nothing runs on any bar. */
  lemma {:induction false} LeadingZeroRefused(v: Valuation)
    ensures var c := Small("RSI", "RSI < 030");
            WellFormed(Compile(c).blocks) && Next(Compile(c), false, v) == Trace([], false)
  {
    hide IsIndicator, IndicatorOf, Next, Compile, NodeDict, OwnIndicator;
    var c := Small("RSI", "RSI < 030");
    RsiNode(c.nodes[0]);
    assert "RSI < " + "030" + "" == "RSI < 030";
    UsualLabel(c.nodes[1], "030", "");
    assert "030"[1] == '3';
    LiteralLabelIff(c.nodes[1]);
    SmallRuns("RSI", "RSI < 030", Rsi("14"), v);
  }

  /** A label with the number before the sign and another one behind the RSI. */
  lemma {:induction false} TurnedLabel(n: Node, whole: string, mark: char, digits: string)
    requires n.caption == Some(whole + " " + [mark] + (" RSI " + digits + "")) && (mark == '<' || mark == '>')
    requires Digits(whole) && Digits(digits)
    ensures IsComparison(n) && LessThan(n) == (mark == '<') && Turned(n) && !OrEqual(n)
    ensures OwnIndicator(n) == Rsi(Param(n, "period", "14"))
    ensures Limit(n) == Read(whole) as real && Emitted(n) == Read(digits) && (LiteralLabel(n) <==> Literal(digits))
  {
    hide Contains, LeadingDigits, FirstDigit, OwnIndicator, OrEqual, Literal, Threshold, NumeralAt, UpTo, Read;
    var front, back := whole + " ", " RSI " + digits + "";
    assert "RSI"[0] == 'R' && forall c :: c in front ==> IsDigit(c) || c == ' ';
    if Contains(front, "RSI") {
      PartBegins(front, "RSI");
    }
    ContainsPart(whole + " " + [mark] + " ", "RSI", " " + digits);
    assert Label(n) == (whole + " " + [mark] + " ") + "RSI" + (" " + digits);
    OneThreshold(n, front, mark, " RSI ", digits, "");
    SplitAt(front, mark, back);
    NumberBehind("", whole, " ");
    assert "" + whole + " " == front;
    assert Pow10(0) == 1 && !Digits("");
  }

  /** Two comparisons of one indicator, both of them read on the wrong side. */
  function Swapped(): Config {
    Config([Node("1", "CONDITION", Some("30 > RSI 70"), map[]), Node("2", "CONDITION", Some("70 < RSI 30"), map[]),
            Node("3", "ACTION", Some("Buy"), map[])],
           [Edge("1", "3"), Edge("2", "3")])
  }

  /** Labels with the RSI behind the sign can cancel each other: both comparisons are misread,
      each does what the other one says, and every bar buys as it should. */
  lemma {:induction false} TurnedCancel(v: Valuation)
    ensures var c := Swapped();
            && (forall e :: e in c.edges ==> Misreads(NodeDict(c.nodes), e))
            && WellFormed(Compile(c).blocks)
            && Next(Compile(c), false, v) == Trace(Walk(NodeDict(c.nodes), c.edges, v), true)
  {
    var c := Swapped();
    hide IsComparison, LessThan, Turned, OrEqual, OwnIndicator, Limit, Emitted, LiteralLabel, IsAction, ParseAction,
         Misreads, NodeDict, Compile, Next, Walk, WellFormed;
    FirstSwapped(c.nodes[0]);
    SecondSwapped(c.nodes[1]);
    BuyNode(c.nodes[2]);
    SwappedRuns(c, c.nodes[0], c.nodes[1], c.nodes[2], v);
  }

  lemma {:induction false} FirstSwapped(n: Node)
    requires n.caption == Some("30 > RSI 70")
    ensures IsComparison(n) && !LessThan(n) && Turned(n) && !OrEqual(n)
    ensures OwnIndicator(n) == Rsi(Param(n, "period", "14"))
    ensures Limit(n) == 30.0 && Emitted(n) == 70 && LiteralLabel(n)
  {
    hide IsComparison, LessThan, Turned, OrEqual, OwnIndicator, Limit, Emitted, LiteralLabel;
    Defaults();
    assert "30" + " " + ['>'] + (" RSI " + "70" + "") == "30 > RSI 70";
    TurnedLabel(n, "30", '>', "70");
  }

  lemma {:induction false} SecondSwapped(n: Node)
    requires n.caption == Some("70 < RSI 30")
    ensures IsComparison(n) && LessThan(n) && Turned(n) && !OrEqual(n)
    ensures OwnIndicator(n) == Rsi(Param(n, "period", "14"))
    ensures Limit(n) == 70.0 && Emitted(n) == 30 && LiteralLabel(n)
  {
    hide IsComparison, LessThan, Turned, OrEqual, OwnIndicator, Limit, Emitted, LiteralLabel;
    Defaults();
    assert "70" + " " + ['<'] + (" RSI " + "30" + "") == "70 < RSI 30";
    TurnedLabel(n, "70", '<', "30");
  }

  lemma {:induction false} SwappedRuns(c: Config, a: Node, b: Node, buy: Node, v: Valuation)
    requires c == Swapped() && a == c.nodes[0] && b == c.nodes[1] && buy == c.nodes[2]
    requires IsComparison(a) && IsComparison(b) && !LessThan(a) && LessThan(b) && Turned(a) && Turned(b)
    requires !OrEqual(a) && !OrEqual(b) && OwnIndicator(a) == OwnIndicator(b) == Rsi("14")
    requires Limit(a) == 30.0 && Emitted(a) == 70 && Limit(b) == 70.0 && Emitted(b) == 30
    requires LiteralLabel(a) && LiteralLabel(b) && IsAction(buy) && ParseAction(buy) == Buy
    ensures (forall e :: e in c.edges ==> Misreads(NodeDict(c.nodes), e))
    ensures WellFormed(Compile(c).blocks)
    ensures Next(Compile(c), false, v) == Trace(Walk(NodeDict(c.nodes), c.edges, v), true)
  {
    hide Contains, IsAction, ParseAction, LiteralLabel, Next, Compile, OwnIndicator, Turned, OrEqual, Limit, Emitted;
    assert a.id[0] == '1' && b.id[0] == '2' && buy.id[0] == '3';
    OneEdge(b, buy, a);
    var dict := NodeDict(c.nodes);
    assert dict == [a, b, buy] && Watched(dict) == Some(a) && IndicatorOf(a) == Some(Rsi("14"));
    assert Decides(dict, c.edges[0]) && Source(dict, c.edges[0]) == a;
    assert Decides(dict, c.edges[1]) && Source(dict, c.edges[1]) == b;
    assert forall e :: e in c.edges ==> Misreads(dict, e);
    ReadsFirstIndicator(c, false, v);
    assert c.edges[1..] == [c.edges[1]] && c.edges[1..][1..] == [];
  }
}
