/** Reading a strategy's `params` from its syntax tree, as backend/app/strategy_parser.py does:
    a tuple of pairs, a dict(...) call or a dict display. */
module StrategyParams {
  import opened Options

  /** Python literals; Opaque stands for bytes, complex numbers and the ellipsis. */
  datatype Value = Int(n: int) | Float(x: real) | Str(s: string) | Bool(b: bool) | NoneValue | Opaque(id: nat)

  /** `unpacked` entries of a display (`**x`) have no key, and so have those of a call. */
  datatype Node =
    | Constant(value: Value)
    | Negated(operand: Node)
    | Tuple(elements: seq<Node>)
    | DictCall(keywords: seq<Keyword>)
    | DictDisplay(items: seq<Item>)
    | Other

  datatype Keyword = Keyword(arg: Option<string>, value: Node)
  datatype Item = Item(key: Option<Node>, value: Node)

  type Params = map<Value, Value>

  /** _get_literal_value; NoneValue is both the literal None and "no literal". */
  function LiteralValue(node: Node): Value {
    match node
    case Constant(v) => v
    case Negated(operand) =>
      (match LiteralValue(operand)
       case Int(n) => Int(-n)
       case Float(x) => Float(-x)
       case Bool(b) => Int(if b then -1 else 0)
       case _ => NoneValue)
    case _ => NoneValue
  }

  /** Equal numbers are one dict key, whatever their type. */
  function KeyOf(v: Value): Value {
    match v
    case Bool(b) => Int(if b then 1 else 0)
    case Float(x) => if x == x.Floor as real then Int(x.Floor) else v
    case _ => v
  }

  function Store(params: Params, key: Value, value: Value): Params {
    if key == NoneValue then params else params[KeyOf(key) := value]
  }

  function FromElements(elements: seq<Node>): Params {
    if elements == [] then map[]
    else
      var before, e := FromElements(elements[..|elements| - 1]), elements[|elements| - 1];
      if e.Tuple? && |e.elements| == 2 then Store(before, LiteralValue(e.elements[0]), LiteralValue(e.elements[1]))
      else before
  }

  function FromKeywords(keywords: seq<Keyword>): Params {
    if keywords == [] then map[]
    else
      var before, k := FromKeywords(keywords[..|keywords| - 1]), keywords[|keywords| - 1];
      if k.arg.Some? then Store(before, Str(k.arg.value), LiteralValue(k.value)) else before
  }

  function FromItems(items: seq<Item>): Params {
    if items == [] then map[]
    else
      var before, i := FromItems(items[..|items| - 1]), items[|items| - 1];
      if i.key.Some? then Store(before, LiteralValue(i.key.value), LiteralValue(i.value)) else before
  }

  function Extracted(node: Node): Params {
    match node
    case Tuple(elements) => FromElements(elements)
    case DictCall(keywords) => FromKeywords(keywords)
    case DictDisplay(items) => FromItems(items)
    case _ => map[]
  }

  /** _extract_params_from_node: one loop per form. */
  method ExtractParams(node: Node) returns (params: Params)
    ensures params == Extracted(node)
  {
    params := map[];
    match node {
      case Tuple(elements) =>
        for i := 0 to |elements|
          invariant params == FromElements(elements[..i])
        {
          assert elements[..i + 1][..i] == elements[..i];
          var e := elements[i];
          if e.Tuple? && |e.elements| == 2 {
            var key, value := LiteralValue(e.elements[0]), LiteralValue(e.elements[1]);
            if key != NoneValue {
              params := params[KeyOf(key) := value];
            }
          }
        }
        assert elements[..|elements|] == elements;
      case DictCall(keywords) =>
        for i := 0 to |keywords|
          invariant params == FromKeywords(keywords[..i])
        {
          assert keywords[..i + 1][..i] == keywords[..i];
          if keywords[i].arg.Some? {
            params := params[Str(keywords[i].arg.value) := LiteralValue(keywords[i].value)];
          }
        }
        assert keywords[..|keywords|] == keywords;
      case DictDisplay(items) =>
        for i := 0 to |items|
          invariant params == FromItems(items[..i])
        {
          assert items[..i + 1][..i] == items[..i];
          var key := if items[i].key.Some? then LiteralValue(items[i].key.value) else NoneValue;
          if key != NoneValue {
            params := params[KeyOf(key) := LiteralValue(items[i].value)];
          }
        }
        assert items[..|items|] == items;
      case _ =>
    }
  }

  // ---------------------------------------------------------------- the forms agree

  /** How Python's parser represents a literal: a negative number is a negated constant. */
  function Literal(v: Value): Node {
    match v
    case Int(n) => if n < 0 then Negated(Constant(Int(-n))) else Constant(v)
    case Float(x) => if x < 0.0 then Negated(Constant(Float(-x))) else Constant(v)
    case _ => Constant(v)
  }

  type Setting = (string, Value)

  function AsTuple(settings: seq<Setting>): Node {
    Tuple(seq(|settings|, i requires 0 <= i < |settings| =>
      Tuple([Constant(Str(settings[i].0)), Literal(settings[i].1)])))
  }

  function AsCall(settings: seq<Setting>): Node {
    DictCall(seq(|settings|, i requires 0 <= i < |settings| =>
      Keyword(Some(settings[i].0), Literal(settings[i].1))))
  }

  function AsDisplay(settings: seq<Setting>): Node {
    DictDisplay(seq(|settings|, i requires 0 <= i < |settings| =>
      Item(Some(Constant(Str(settings[i].0))), Literal(settings[i].1))))
  }

  /** The value the last setting of a name gives it. */
  function LastSetting(settings: seq<Setting>, name: string): Option<Value> {
    if settings == [] then None
    else if settings[|settings| - 1].0 == name then Some(settings[|settings| - 1].1)
    else LastSetting(settings[..|settings| - 1], name)
  }

  /** Exactly the named settings are there, each with its last value. */
  ghost predicate Holds(params: Params, settings: seq<Setting>) {
    && (forall k :: k in params ==> k.Str?)
    && (forall name :: Str(name) in params <==> LastSetting(settings, name).Some?)
    && (forall name :: Str(name) in params ==> params[Str(name)] == LastSetting(settings, name).value)
  }

  /** MAIN: settings written in any of the three forms are read back as they were meant, the
      last value of a repeated name included; so the three forms agree. */
  lemma {:induction false} FormsAgree(settings: seq<Setting>)
    ensures Holds(Extracted(AsTuple(settings)), settings)
    ensures Extracted(AsTuple(settings)) == Extracted(AsCall(settings)) == Extracted(AsDisplay(settings))
  {
    if settings != [] {
      var n := |settings| - 1;
      FormsAgree(settings[..n]);
      assert AsTuple(settings).elements[..n] == AsTuple(settings[..n]).elements;
      assert AsCall(settings).keywords[..n] == AsCall(settings[..n]).keywords;
      assert AsDisplay(settings).items[..n] == AsDisplay(settings[..n]).items;
      var v := settings[n].1;
      assert LiteralValue(Literal(v)) == v;
      var before := Extracted(AsTuple(settings[..n]));
      assert Extracted(AsTuple(settings)) == before[Str(settings[n].0) := v];
    }
  }

  // ---------------------------------------------------------------- any tree

  /** The number that Python compares a value by. */
  function NumberOf(v: Value): Option<real> {
    match v
    case Int(n) => Some(n as real)
    case Float(x) => Some(x)
    case Bool(b) => Some(if b then 1.0 else 0.0)
    case _ => None
  }

  /** `a == b` in Python. */
  predicate PythonEqual(a: Value, b: Value) {
    if NumberOf(a).Some? && NumberOf(b).Some? then NumberOf(a) == NumberOf(b) else a == b
  }

  /** Two values are one key exactly when Python calls them equal. */
  lemma {:induction false} KeyIff(a: Value, b: Value)
    ensures KeyOf(a) == KeyOf(b) <==> PythonEqual(a, b)
  {
    assert NumberOf(KeyOf(a)) == NumberOf(a) && NumberOf(KeyOf(b)) == NumberOf(b);
    if NumberOf(a).Some? && NumberOf(a) == NumberOf(b) {
      OneKey(a, b);
    }
  }

  lemma {:induction false} OneKey(a: Value, b: Value)
    requires NumberOf(a).Some? && NumberOf(a) == NumberOf(b)
    ensures KeyOf(a) == KeyOf(b)
  {
    var x := NumberOf(a).value;
    var key := if x == x.Floor as real then Int(x.Floor) else Float(x);
    assert KeyOf(a) == key && KeyOf(b) == key;
  }

  /** A minus before a literal number is its negative, and before anything else no literal. */
  lemma {:induction false} MinusIs(operand: Node)
    ensures var v, m := LiteralValue(operand), LiteralValue(Negated(operand));
            if NumberOf(v).None? then m == NoneValue
            else NumberOf(m).Some? && NumberOf(m).value == -NumberOf(v).value && (m.Float? <==> v.Float?)
  {
  }

  /** Element `i` of a tuple is a pair with a literal key. */
  predicate PairAt(elements: seq<Node>, i: int, k: Value, v: Value) {
    && 0 <= i < |elements| && elements[i].Tuple? && |elements[i].elements| == 2
    && LiteralValue(elements[i].elements[0]) != NoneValue
    && KeyOf(LiteralValue(elements[i].elements[0])) == k && LiteralValue(elements[i].elements[1]) == v
  }

  predicate KeywordAt(keywords: seq<Keyword>, i: int, k: Value, v: Value) {
    && 0 <= i < |keywords| && keywords[i].arg.Some?
    && Str(keywords[i].arg.value) == k && LiteralValue(keywords[i].value) == v
  }

  predicate ItemAt(items: seq<Item>, i: int, k: Value, v: Value) {
    && 0 <= i < |items| && items[i].key.Some? && LiteralValue(items[i].key.value) != NoneValue
    && KeyOf(LiteralValue(items[i].key.value)) == k && LiteralValue(items[i].value) == v
  }

  predicate LastPair(elements: seq<Node>, i: int, k: Value, v: Value) {
    PairAt(elements, i, k, v) && forall j :: i < j < |elements| ==> !PairAt(elements, j, k, ValueAtTuple(elements, j))
  }

  function ValueAtTuple(elements: seq<Node>, i: int): Value
    requires 0 <= i < |elements|
  {
    if elements[i].Tuple? && |elements[i].elements| == 2 then LiteralValue(elements[i].elements[1])
    else NoneValue
  }

  lemma {:induction false} LastPairSnoc(elements: seq<Node>, k: Value, v: Value)
    requires elements != []
    ensures var n := |elements| - 1;
            if PairAt(elements, n, k, ValueAtTuple(elements, n)) then
              forall i :: LastPair(elements, i, k, v) <==> i == n && v == ValueAtTuple(elements, n)
            else forall i :: LastPair(elements, i, k, v) <==> LastPair(elements[..n], i, k, v)
  {
    hide LiteralValue, KeyOf;
    var n := |elements| - 1;
    assert forall i :: 0 <= i < n ==> elements[..n][i] == elements[i];
    forall i
      ensures !PairAt(elements, n, k, ValueAtTuple(elements, n)) ==>
                (LastPair(elements, i, k, v) <==> LastPair(elements[..n], i, k, v))
    {
      assert forall j, w :: 0 <= j < n ==> (PairAt(elements, j, k, w) <==> PairAt(elements[..n], j, k, w));
      assert forall j :: 0 <= j < n ==> ValueAtTuple(elements, j) == ValueAtTuple(elements[..n], j);
    }
  }

  /** MAIN: of any tuple exactly its pairs with a literal key are read, the last one of a key;
      other elements are skipped. */
  lemma {:induction false} TupleIff(elements: seq<Node>, k: Value, v: Value)
    ensures var params := Extracted(Tuple(elements));
            (k in params && params[k] == v) <==> exists i :: LastPair(elements, i, k, v)
  {
    if elements != [] {
      hide LiteralValue, KeyOf, LastPair;
      TupleIff(elements[..|elements| - 1], k, v);
      LastPairSnoc(elements, k, v);
      assert LastPair(elements, |elements| - 1, k, v) || !LastPair(elements, |elements| - 1, k, v);
    }
  }

  predicate LastKeyword(keywords: seq<Keyword>, i: int, k: Value, v: Value) {
    KeywordAt(keywords, i, k, v) &&
    forall j :: i < j < |keywords| ==> !KeywordAt(keywords, j, k, ValueAtCall(keywords, j))
  }

  function ValueAtCall(keywords: seq<Keyword>, i: int): Value
    requires 0 <= i < |keywords|
  {
    LiteralValue(keywords[i].value)
  }

  lemma {:induction false} LastKeywordSnoc(keywords: seq<Keyword>, k: Value, v: Value)
    requires keywords != []
    ensures var n := |keywords| - 1;
            if KeywordAt(keywords, n, k, ValueAtCall(keywords, n)) then
              forall i :: LastKeyword(keywords, i, k, v) <==> i == n && v == ValueAtCall(keywords, n)
            else forall i :: LastKeyword(keywords, i, k, v) <==> LastKeyword(keywords[..n], i, k, v)
  {
    hide LiteralValue, KeyOf;
    var n := |keywords| - 1;
    assert forall i :: 0 <= i < n ==> keywords[..n][i] == keywords[i];
    forall i
      ensures !KeywordAt(keywords, n, k, ValueAtCall(keywords, n)) ==>
                (LastKeyword(keywords, i, k, v) <==> LastKeyword(keywords[..n], i, k, v))
    {
      assert forall j, w :: 0 <= j < n ==> (KeywordAt(keywords, j, k, w) <==> KeywordAt(keywords[..n], j, k, w));
      assert forall j :: 0 <= j < n ==> ValueAtCall(keywords, j) == ValueAtCall(keywords[..n], j);
    }
  }

  /** The same of a call's named arguments. */
  lemma {:induction false} CallIff(keywords: seq<Keyword>, k: Value, v: Value)
    ensures var params := Extracted(DictCall(keywords));
            (k in params && params[k] == v) <==> exists i :: LastKeyword(keywords, i, k, v)
  {
    if keywords != [] {
      hide LiteralValue, LastKeyword;
      CallIff(keywords[..|keywords| - 1], k, v);
      LastKeywordSnoc(keywords, k, v);
      assert LastKeyword(keywords, |keywords| - 1, k, v) || !LastKeyword(keywords, |keywords| - 1, k, v);
    }
  }

  predicate LastItem(items: seq<Item>, i: int, k: Value, v: Value) {
    ItemAt(items, i, k, v) && forall j :: i < j < |items| ==> !ItemAt(items, j, k, ValueAtDisplay(items, j))
  }

  function ValueAtDisplay(items: seq<Item>, i: int): Value
    requires 0 <= i < |items|
  {
    LiteralValue(items[i].value)
  }

  lemma {:induction false} LastItemSnoc(items: seq<Item>, k: Value, v: Value)
    requires items != []
    ensures var n := |items| - 1;
            if ItemAt(items, n, k, ValueAtDisplay(items, n)) then
              forall i :: LastItem(items, i, k, v) <==> i == n && v == ValueAtDisplay(items, n)
            else forall i :: LastItem(items, i, k, v) <==> LastItem(items[..n], i, k, v)
  {
    hide LiteralValue, KeyOf;
    var n := |items| - 1;
    assert forall i :: 0 <= i < n ==> items[..n][i] == items[i];
    forall i
      ensures !ItemAt(items, n, k, ValueAtDisplay(items, n)) ==>
                (LastItem(items, i, k, v) <==> LastItem(items[..n], i, k, v))
    {
      assert forall j, w :: 0 <= j < n ==> (ItemAt(items, j, k, w) <==> ItemAt(items[..n], j, k, w));
      assert forall j :: 0 <= j < n ==> ValueAtDisplay(items, j) == ValueAtDisplay(items[..n], j);
    }
  }

  /** The same of a dict display's entries. */
  lemma {:induction false} DisplayIff(items: seq<Item>, k: Value, v: Value)
    ensures var params := Extracted(DictDisplay(items));
            (k in params && params[k] == v) <==> exists i :: LastItem(items, i, k, v)
  {
    if items != [] {
      hide LiteralValue, KeyOf, LastItem;
      DisplayIff(items[..|items| - 1], k, v);
      LastItemSnoc(items, k, v);
      assert LastItem(items, |items| - 1, k, v) || !LastItem(items, |items| - 1, k, v);
    }
  }
}
