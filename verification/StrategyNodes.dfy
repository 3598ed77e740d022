/** What the strategy compiler takes a node for, by the characters of its label, and which node
    an edge means. */
module StrategyNodes {
  import opened Options
  import opened Decimal
  import opened StrategyCompiler

  predicate StandsAt(text: string, part: string, i: int) {
    0 <= i <= |text| - |part| && text[i..i + |part|] == part
  }

  /** `part` stands somewhere in `text`. */
  ghost predicate Has(text: string, part: string) {
    exists i :: StandsAt(text, part, i)
  }

  /** `c` is the small letter `l` or its capital. */
  predicate Letter(c: char, l: char) {
    c == l || ('a' <= l <= 'z' && c as int == l as int - 32)
  }

  /** `word` stands at position `i`, in small letters or capitals. */
  predicate WordAt(text: string, word: string, i: int) {
    0 <= i <= |text| - |word| && forall k :: 0 <= k < |word| ==> Letter(text[i + k], word[k])
  }

  ghost predicate HasWord(text: string, word: string) {
    exists i :: WordAt(text, word, i)
  }

  lemma {:induction false} ContainsIff(text: string, part: string)
    ensures Contains(text, part) <==> Has(text, part)
  {
    if Contains(text, part) {
      ContainsSomewhere(text, part);
    } else if Has(text, part) {
      var i :| StandsAt(text, part, i);
      ContainsAt(text, part, i);
    }
  }

  lemma {:induction false} ContainsSomewhere(text: string, part: string)
    requires Contains(text, part)
    ensures Has(text, part)
  {
    if text[..|part|] == part {
      assert StandsAt(text, part, 0);
    } else {
      ContainsSomewhere(text[1..], part);
      var i :| StandsAt(text[1..], part, i);
      assert text[i + 1..i + 1 + |part|] == text[1..][i..i + |part|];
      assert StandsAt(text, part, i + 1);
    }
  }

  lemma {:induction false} LowerAt(text: string)
    ensures |Lower(text)| == |text|
    ensures forall k :: 0 <= k < |text| ==> Lower(text)[k] == LowerChar(text[k])
  {
    if text != [] {
      LowerAt(text[1..]);
    }
  }

  /** A word of small letters stands in the lowered text exactly where it stands in small
      letters or capitals. */
  lemma {:induction false} LowerHasIff(text: string, word: string)
    requires forall k :: 0 <= k < |word| ==> 'a' <= word[k] <= 'z'
    ensures Contains(Lower(text), word) <==> HasWord(text, word)
  {
    var low := Lower(text);
    LowerAt(text);
    ContainsIff(low, word);
    hide Contains, Lower;
    forall i
      ensures StandsAt(low, word, i) <==> WordAt(text, word, i)
    {
      if 0 <= i <= |text| - |word| {
        LowerStands(text, word, i);
      }
    }
  }

  lemma {:induction false} LowerStands(text: string, word: string, i: nat)
    requires i + |word| <= |text| && |Lower(text)| == |text|
    requires forall k :: 0 <= k < |word| ==> 'a' <= word[k] <= 'z'
    requires forall k :: 0 <= k < |text| ==> Lower(text)[k] == LowerChar(text[k])
    ensures StandsAt(Lower(text), word, i) <==> WordAt(text, word, i)
  {
    hide Lower;
    var part := Lower(text)[i..i + |word|];
    assert forall k :: 0 <= k < |word| ==> part[k] == LowerChar(text[i + k]);
    assert forall k :: 0 <= k < |word| ==> (LowerChar(text[i + k]) == word[k] <==> Letter(text[i + k], word[k]));
  }

  /** MAIN: an action node buys exactly when its label has the word buy in it, sells exactly
      when it has the word sell but not buy, and does nothing otherwise; capitals do not count. */
  lemma {:induction false} ActionIff(n: Node)
    ensures ParseAction(n) == Buy <==> HasWord(Label(n), "buy")
    ensures ParseAction(n) == Sell <==> !HasWord(Label(n), "buy") && HasWord(Label(n), "sell")
  {
    hide Contains, Lower, HasWord;
    LowerHasIff(Label(n), "buy");
    LowerHasIff(Label(n), "sell");
  }

  /** The kind of a node or a word in its label makes it an indicator, a condition, an action. */
  lemma {:induction false} RolesIff(n: Node)
    ensures IsIndicator(n) <==> n.kind == "INDICATOR" || Has(Label(n), "RSI") || Has(Label(n), "MACD")
    ensures IsCondition(n) <==> n.kind == "CONDITION" || Has(Label(n), "Condition")
    ensures IsAction(n) <==> n.kind == "ACTION" || Has(Label(n), "Action")
    ensures IsComparison(n) <==> Has(Label(n), "RSI") && (Has(Label(n), "<") || Has(Label(n), ">"))
  {
    hide Contains, Has;
    ContainsIff(Label(n), "RSI");
    ContainsIff(Label(n), "MACD");
    ContainsIff(Label(n), "Condition");
    ContainsIff(Label(n), "Action");
    ContainsIff(Label(n), "<");
    ContainsIff(Label(n), ">");
  }

  function ParamOr(n: Node, name: string, default: string): string {
    if name in n.params then n.params[name] else default
  }

  /** MAIN: the indicator of a node: RSI before MACD before a moving average, each with its own
      parameters or the usual ones; a node without a label is a moving average. */
  lemma {:induction false} IndicatorForms(n: Node)
    ensures n.caption == None ==> IndicatorOf(n) == Some(Sma(ParamOr(n, "period", "20")))
    ensures n.caption.Some? && Has(n.caption.value, "RSI") ==> IndicatorOf(n) == Some(Rsi(ParamOr(n, "period", "14")))
    ensures n.caption.Some? && !Has(n.caption.value, "RSI") && Has(n.caption.value, "MACD") ==>
              IndicatorOf(n)
              == Some(Macd(ParamOr(n, "fast", "12"), ParamOr(n, "slow", "26"), ParamOr(n, "signal", "9")))
    ensures n.caption.Some? && !Has(n.caption.value, "RSI") && !Has(n.caption.value, "MACD") ==>
              IndicatorOf(n) == if Has(n.caption.value, "SMA") || Has(n.caption.value, "Mov")
                                then Some(Sma(ParamOr(n, "period", "20"))) else None
  {
    hide Contains, Has;
    var caption := LabelOr(n, "SMA");
    ContainsIff(caption, "RSI");
    ContainsIff(caption, "MACD");
    ContainsIff(caption, "SMA");
    ContainsIff(caption, "Mov");
    PlainSma();
  }

  lemma {:induction false} PlainSma()
    ensures Has("SMA", "SMA") && !Has("SMA", "RSI") && !Has("SMA", "MACD")
  {
    ContainsIff("SMA", "SMA");
    ContainsIff("SMA", "RSI");
    ContainsIff("SMA", "MACD");
    assert !Contains("MA", "RSI");
  }

  // ---------------------------------------------------------------- which node an edge means

  /** Node `i` is the last one with its id. */
  predicate LastWith(nodes: seq<Node>, i: int, id: string) {
    0 <= i < |nodes| && nodes[i].id == id && forall j :: i < j < |nodes| ==> nodes[j].id != id
  }

  lemma {:induction false} FindPut(dict: seq<Node>, n: Node, id: string)
    ensures Find(PutNode(dict, n), id) == if n.id == id then Some(n) else Find(dict, id)
  {
    if dict != [] && dict[0].id != n.id {
      FindPut(dict[1..], n, id);
    }
  }

  /** MAIN: an edge end means the last node of the graph with that id. */
  lemma {:induction false} FindIff(nodes: seq<Node>, id: string, n: Node)
    ensures Find(NodeDict(nodes), id) == Some(n) <==> exists i :: LastWith(nodes, i, id) && nodes[i] == n
    ensures Find(NodeDict(nodes), id) == None <==> forall i :: 0 <= i < |nodes| ==> nodes[i].id != id
  {
    if nodes != [] {
      var m := |nodes| - 1;
      FindIff(nodes[..m], id, n);
      FindPut(NodeDict(nodes[..m]), nodes[m], id);
      assert NodeDict(nodes) == PutNode(NodeDict(nodes[..m]), nodes[m]);
      hide Find, PutNode, NodeDict;
      LastSnoc(nodes, id);
    }
  }

  lemma {:induction false} LastSnoc(nodes: seq<Node>, id: string)
    requires nodes != []
    ensures var m := |nodes| - 1;
            if nodes[m].id == id then forall i :: LastWith(nodes, i, id) <==> i == m
            else forall i :: LastWith(nodes, i, id) <==> LastWith(nodes[..m], i, id)
  {
    var m := |nodes| - 1;
    assert forall i :: 0 <= i < m ==> nodes[..m][i] == nodes[i];
    forall i
      ensures nodes[m].id != id ==> (LastWith(nodes, i, id) <==> LastWith(nodes[..m], i, id))
    {
    }
  }

  /** The position of the first node with this id. */
  function FirstWith(nodes: seq<Node>, id: string): (i: nat)
    ensures i <= |nodes| && (i < |nodes| ==> nodes[i].id == id) && forall j :: 0 <= j < i ==> nodes[j].id != id
  {
    if nodes == [] || nodes[0].id == id then 0 else 1 + FirstWith(nodes[1..], id)
  }

  lemma {:induction false} PutOrder(dict: seq<Node>, n: Node)
    ensures var more := PutNode(dict, n);
            && (if exists i :: 0 <= i < |dict| && dict[i].id == n.id then |more| == |dict|
                else more == dict + [n])
            && |more| >= |dict|
            && forall i :: 0 <= i < |dict| ==> more[i].id == dict[i].id
  {
    if dict != [] && dict[0].id != n.id {
      PutOrder(dict[1..], n);
      if exists i :: 0 <= i < |dict| && dict[i].id == n.id {
        var i :| 0 <= i < |dict| && dict[i].id == n.id;
        assert dict[1..][i - 1].id == n.id;
      } else {
        assert forall i :: 0 <= i < |dict[1..]| ==> dict[1..][i] == dict[i + 1];
      }
    }
  }

  lemma {:induction false} FirstSnoc(nodes: seq<Node>, n: Node, id: string)
    ensures FirstWith(nodes + [n], id)
         == if FirstWith(nodes, id) < |nodes| then FirstWith(nodes, id)
            else if n.id == id then |nodes| else |nodes| + 1
  {
    hide FirstWith;
    var more := nodes + [n];
    assert forall j :: 0 <= j < |nodes| ==> more[j] == nodes[j];
    assert more[|nodes|] == n;
  }

  /** Every entry's id is in the graph, and earlier entries appear earlier. */
  predicate InOrder(nodes: seq<Node>, dict: seq<Node>) {
    && (forall i :: 0 <= i < |dict| ==> FirstWith(nodes, dict[i].id) < |nodes|)
    && (forall i, j :: 0 <= i < j < |dict| ==> FirstWith(nodes, dict[i].id) < FirstWith(nodes, dict[j].id))
  }

  lemma {:induction false} OrderStep(init: seq<Node>, before: seq<Node>, n: Node)
    requires InOrder(init, before)
    requires (forall i :: 0 <= i < |before| ==> before[i].id != n.id) ==> FirstWith(init, n.id) == |init|
    ensures InOrder(init + [n], PutNode(before, n))
  {
    PutOrder(before, n);
    hide PutNode, FirstWith;
    var nodes, dict := init + [n], PutNode(before, n);
    forall i | 0 <= i < |dict|
      ensures i < |before| ==> FirstWith(nodes, dict[i].id) == FirstWith(init, before[i].id) < |init|
      ensures i >= |before| ==> FirstWith(nodes, dict[i].id) == |init|
    {
      FirstSnoc(init, n, if i < |before| then before[i].id else n.id);
    }
  }

  /** MAIN: the node dict keeps the order in which the ids first appear, each id once. */
  lemma {:induction false} DictOrder(nodes: seq<Node>)
    ensures InOrder(nodes, NodeDict(nodes))
  {
    if nodes != [] {
      var m := |nodes| - 1;
      DictOrder(nodes[..m]);
      if forall i :: 0 <= i < |NodeDict(nodes[..m])| ==> NodeDict(nodes[..m])[i].id != nodes[m].id {
        NotYet(nodes[..m], nodes[m].id);
      }
      OrderStep(nodes[..m], NodeDict(nodes[..m]), nodes[m]);
      assert nodes == nodes[..m] + [nodes[m]];
    }
  }

  lemma {:induction false} NotYet(nodes: seq<Node>, id: string)
    requires forall i :: 0 <= i < |NodeDict(nodes)| ==> NodeDict(nodes)[i].id != id
    ensures FirstWith(nodes, id) == |nodes|
  {
    if nodes != [] {
      var m := |nodes| - 1;
      var init, n := nodes[..m], nodes[m];
      var before, dict := NodeDict(init), NodeDict(nodes);
      assert dict == PutNode(before, n) && nodes == init + [n];
      PutOrder(before, n);
      PutHas(before, n);
      hide PutNode, FirstWith;
      forall i | 0 <= i < |before|
        ensures before[i].id != id
      {
        assert dict[i].id == before[i].id;
      }
      NotYet(init, id);
      FirstSnoc(init, n, id);
    }
  }

  lemma {:induction false} PutHas(dict: seq<Node>, n: Node)
    ensures exists i :: 0 <= i < |PutNode(dict, n)| && PutNode(dict, n)[i].id == n.id
  {
    if dict != [] && dict[0].id != n.id {
      PutHas(dict[1..], n);
      var i :| 0 <= i < |PutNode(dict[1..], n)| && PutNode(dict[1..], n)[i].id == n.id;
      assert PutNode(dict, n)[i + 1].id == n.id;
    } else {
      assert PutNode(dict, n)[0].id == n.id;
    }
  }

  // ---------------------------------------------------------------- which lines and blocks there are

  /** The number of indicator nodes before position `i`. */
  function Rank(dict: seq<Node>, i: nat): (n: nat)
    requires i <= |dict|
    ensures n <= i
  {
    if i == 0 then 0 else Rank(dict, i - 1) + (if IsIndicator(dict[i - 1]) then 1 else 0)
  }

  lemma {:induction false} RankPrefix(dict: seq<Node>, m: nat, i: nat)
    requires i <= m <= |dict|
    ensures Rank(dict[..m], i) == Rank(dict, i)
  {
    hide IsIndicator;
    if i > 0 {
      RankPrefix(dict, m, i - 1);
    }
  }

  /** Position `i` holds an indicator node that stands for `x`, the `n`-th from 0. */
  predicate NumberedAt(dict: seq<Node>, i: int, n: nat, x: Indicator) {
    0 <= i < |dict| && IsIndicator(dict[i]) && IndicatorOf(dict[i]) == Some(x) && Rank(dict, i) == n
  }

  lemma {:induction false} NumberedSnoc(dict: seq<Node>, i: int, n: nat, x: Indicator)
    requires dict != []
    ensures var m := |dict| - 1;
            && (i < m ==> (NumberedAt(dict, i, n, x) <==> NumberedAt(dict[..m], i, n, x)))
            && Rank(dict, m) == Rank(dict[..m], m)
  {
    hide IsIndicator, IndicatorOf;
    RankPrefix(dict, |dict| - 1, |dict| - 1);
    if 0 <= i < |dict| - 1 {
      RankPrefix(dict, |dict| - 1, i);
    }
  }

  lemma {:induction false} CountIsRank(dict: seq<Node>)
    ensures ScanNodes(dict).count == Rank(dict, |dict|)
  {
    hide IsIndicator, IndicatorOf;
    if dict != [] {
      CountIsRank(dict[..|dict| - 1]);
      RankPrefix(dict, |dict| - 1, |dict| - 1);
    }
  }

  /** MAIN: there is a line for every indicator node that stands for an indicator, and no other;
      the nodes are numbered in their order, those without an indicator included. */
  lemma {:induction false} LinesIff(dict: seq<Node>, n: nat, x: Indicator)
    ensures Line(VarName(n), x) in ScanNodes(dict).lines <==> exists i :: NumberedAt(dict, i, n, x)
  {
    if dict != [] {
      var m := |dict| - 1;
      LinesIff(dict[..m], n, x);
      CountIsRank(dict[..m]);
      var before, last := ScanNodes(dict[..m]), dict[m];
      assert ScanNodes(dict).lines == if IsIndicator(last) && IndicatorOf(last).Some?
                                      then before.lines + [Line(VarName(before.count), IndicatorOf(last).value)]
                                      else before.lines;
      hide IsIndicator, IndicatorOf, ScanNodes, VarName, Rank, NumberedAt;
      forall i
        ensures i < m ==> (NumberedAt(dict, i, n, x) <==> NumberedAt(dict[..m], i, n, x))
        ensures Rank(dict, m) == Rank(dict[..m], m)
      {
        NumberedSnoc(dict, i, n, x);
      }
      LastNumbered(dict, n, x);
      if VarName(before.count) == VarName(n) {
        NamesDiffer(before.count, n);
      }
    }
  }

  lemma {:induction false} LastNumbered(dict: seq<Node>, n: nat, x: Indicator)
    requires dict != []
    ensures var m := |dict| - 1;
            && (NumberedAt(dict, m, n, x) <==>
                  IsIndicator(dict[m]) && IndicatorOf(dict[m]) == Some(x) && Rank(dict, m) == n)
            && (forall i :: NumberedAt(dict, i, n, x) ==> i <= m)
            && (forall i :: NumberedAt(dict[..m], i, n, x) ==> i < m)
  {
    hide IsIndicator, IndicatorOf, Rank;
  }

  /** The lines come in the order of their numbers. */
  lemma {:induction false} LinesInOrder(dict: seq<Node>) returns (numbers: seq<nat>)
    ensures |numbers| == |ScanNodes(dict).lines|
    ensures forall k :: 0 <= k < |numbers| ==>
              ScanNodes(dict).lines[k].name == VarName(numbers[k]) && numbers[k] < ScanNodes(dict).count
    ensures forall j, k :: 0 <= j < k < |numbers| ==> numbers[j] < numbers[k]
  {
    hide IsIndicator, IndicatorOf, VarName;
    if dict == [] {
      numbers := [];
    } else {
      var before := ScanNodes(dict[..|dict| - 1]);
      var rest := LinesInOrder(dict[..|dict| - 1]);
      numbers := if ScanNodes(dict).lines == before.lines then rest else rest + [before.count];
    }
  }

  /** The edges that lead from a condition to an action, in order. */
  function Deciding(dict: seq<Node>, edges: seq<Edge>): (d: seq<Edge>)
    ensures forall k :: 0 <= k < |d| ==> Decides(dict, d[k])
  {
    if edges == [] then [] else (if Decides(dict, edges[0]) then [edges[0]] else []) + Deciding(dict, edges[1..])
  }

  /** The block says what its edge's nodes are. */
  ghost predicate BlockOf(dict: seq<Node>, e: Edge, b: Block)
    requires Decides(dict, e)
  {
    var text := Label(Source(dict, e));
    var rsi, less, more := Has(text, "RSI"), Has(text, "<"), Has(text, ">");
    && b.action == ActionOf(dict, e)
    && (b.condition.Below? <==> rsi && less) && (b.condition.Above? <==> rsi && !less && more)
    && (!b.condition.Always? ==> b.condition.threshold == Threshold(Source(dict, e)))
  }

  lemma {:induction false} EdgeBlockIs(dict: seq<Node>, vars: seq<(string, string)>, e: Edge)
    ensures |EdgeBlock(dict, vars, e)| == if Decides(dict, e) then 1 else 0
    ensures Decides(dict, e) ==> BlockOf(dict, e, EdgeBlock(dict, vars, e)[0])
  {
    if Decides(dict, e) {
      var text := Label(Source(dict, e));
      ContainsIff(text, "RSI");
      ContainsIff(text, "<");
      ContainsIff(text, ">");
      hide Contains, Has, FirstNumber, Second, RsiVar, ParseAction, IsCondition, IsAction;
    }
  }

  /** MAIN: there is one block for every edge from a condition to an action, in the order of the
      edges, with the condition, threshold and action of its nodes. */
  lemma {:induction false} BlocksIff(dict: seq<Node>, vars: seq<(string, string)>, edges: seq<Edge>)
    ensures var blocks, deciding := BuildBlocks(dict, vars, edges), Deciding(dict, edges);
            && |blocks| == |deciding|
            && forall k :: 0 <= k < |blocks| ==> BlockOf(dict, deciding[k], blocks[k])
    decreases |edges|
  {
    if edges != [] {
      BlocksIff(dict, vars, edges[1..]);
      EdgeBlockIs(dict, vars, edges[0]);
      hide BlockOf, Decides, EdgeBlock;
    }
  }
}
