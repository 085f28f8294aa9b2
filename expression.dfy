/**
 * The restricted boolean expression language used in configuration section
 * headers (`src/nest/twigs/_expression.py`).
 *
 * Python's own parser is not part of the model: `Compile` receives the
 * parser as a function from source text to a syntax tree, `None` standing for
 * a `SyntaxError`.  The interpreter follows the code exactly: `and` and `or`
 * are left folds that evaluate every operand and return an operand value (as
 * Python's `and`/`or` do), and a chain of comparisons is a left fold that
 * feeds each boolean result into the next comparison.
 */
module Expression {
  import opened Wrappers
  import opened Order

  /** The values an environment can bind and a constant can denote. */
  datatype Scalar = Bool(b: bool) | Int(i: int) | Str(s: string) | NoneValue

  /** Python truthiness. */
  predicate Truthy(v: Scalar) {
    match v
    case Bool(b) => b
    case Int(i) => i != 0
    case Str(s) => s != []
    case NoneValue => false
  }

  /** Every comparison operator of Python's grammar. */
  datatype CmpOp = Eq | NotEq | Lt | LtE | Gt | GtE | Is | IsNot | In | NotIn

  datatype BoolOperator = And | Or

  /** The syntax tree of an expression, as `ast.parse(..., mode='eval')` gives it. */
  datatype Node =
    | BoolOp(op: BoolOperator, values: seq<Node>)
    | Compare(left: Node, ops: seq<CmpOp>, comparators: seq<Node>)
    | Constant(value: Scalar)
    | Name(id: string)
      /** Any other kind of node (`not`, arithmetic, calls, ...), with its unparsed text. */
    | Other(text: string)

  datatype Error =
    | SyntaxError(expression: string)
    | UnknownValue(expression: string, name: string)
    | UnknownExpression(expression: string, text: string)
    | UnsupportedOperator(left: Scalar, op: CmpOp, right: Scalar)
      /** Python's `TypeError` for an ordering between incomparable values. */
    | Unorderable(left: Scalar, op: CmpOp, right: Scalar)
  {
    /** Whether Python raises this as a `ValueError`. */
    predicate IsValueError() { !Unorderable? }
  }

  /** A successfully parsed expression, ready to be evaluated in any environment. */
  datatype Compiled = Compiled(expression: string, body: Node)

  type Environment = map<string, Scalar>

  /** `compile_expression`: parsing happens here, so a syntax error surfaces now. */
  function Compile(expression: string, parse: string -> Option<Node>): (r: Result<Compiled, Error>)
    ensures r.Err? <==> parse(expression).None?
    ensures r.Err? ==> r.error == SyntaxError(expression)
    ensures r.Ok? ==> r.value.expression == expression && Some(r.value.body) == parse(expression)
  {
    match parse(expression)
    case None => Err(SyntaxError(expression))
    case Some(body) => Ok(Compiled(expression, body))
  }

  /** The function `compile_expression` returns, applied to an environment. */
  function Evaluate(c: Compiled, env: Environment): (r: Result<Scalar, Error>)
    ensures r.Err? ==> !r.error.SyntaxError?
    ensures r.Err? && (r.error.UnknownValue? || r.error.UnknownExpression?) ==> r.error.expression == c.expression
    ensures c.body.Name? ==> (r.Ok? <==> c.body.id in env)
  {
    Val(c.expression, env, c.body)
  }

  /** The integer a number (or a boolean, which Python treats as 0 or 1) stands for. */
  function Numeric(v: Scalar): Option<int> {
    match v
    case Bool(b) => Some(if b then 1 else 0)
    case Int(i) => Some(i)
    case _ => None
  }

  /** Python's `==` on scalars. */
  predicate PyEq(a: Scalar, b: Scalar) {
    if Numeric(a).Some? && Numeric(b).Some? then Numeric(a) == Numeric(b)
    else if a.Str? && b.Str? then a.s == b.s
    else a.NoneValue? && b.NoneValue?
  }

  /** Whether `<` and friends are defined between the two values. */
  predicate Orderable(a: Scalar, b: Scalar) {
    (Numeric(a).Some? && Numeric(b).Some?) || (a.Str? && b.Str?)
  }

  /** `a < b` for orderable values. */
  predicate Less(a: Scalar, b: Scalar)
    requires Orderable(a, b)
  {
    if a.Str? && b.Str? then StrLess(a.s, b.s) else Numeric(a).value < Numeric(b).value
  }

  /** The inner `cmp` of `compile_expression`: one comparison. */
  function Cmp(a: Scalar, op: CmpOp, b: Scalar): (r: Result<Scalar, Error>)
    ensures r.Ok? <==> op == Eq || (op in {Lt, LtE, Gt, GtE} && Orderable(a, b))
    ensures r.Ok? ==> r.value.Bool?
    ensures op !in {Eq, Lt, LtE, Gt, GtE} ==> r == Err(UnsupportedOperator(a, op, b))
  {
    match op
    case Eq => Ok(Bool(PyEq(a, b)))
    case Lt => if Orderable(a, b) then Ok(Bool(Less(a, b))) else Err(Unorderable(a, op, b))
    case LtE => if Orderable(a, b) then Ok(Bool(Less(a, b) || PyEq(a, b))) else Err(Unorderable(a, op, b))
    case Gt => if Orderable(a, b) then Ok(Bool(Less(b, a))) else Err(Unorderable(a, op, b))
    case GtE => if Orderable(a, b) then Ok(Bool(Less(b, a) || PyEq(a, b))) else Err(Unorderable(a, op, b))
    case _ => Err(UnsupportedOperator(a, op, b))
  }

  /** The inner `val` of `compile_expression`. */
  function Val(expression: string, env: Environment, node: Node): (r: Result<Scalar, Error>)
    ensures r.Err? ==> !r.error.SyntaxError?
    ensures r.Err? && (r.error.UnknownValue? || r.error.UnknownExpression?) ==> r.error.expression == expression
    ensures node.Constant? ==> r == Ok(node.value)
    ensures node.Name? ==> (r.Ok? <==> node.id in env)
    ensures node.Name? && r.Ok? ==> r.value == env[node.id]
    ensures node.Name? && r.Err? ==> r.error == UnknownValue(expression, node.id)
    ensures node.Other? ==> r == Err(UnknownExpression(expression, node.text))
    decreases node, 1
  {
    match node
    case BoolOp(And, values) => AndFold(expression, env, values, Bool(true))
    case BoolOp(Or, values) => OrFold(expression, env, values, Bool(false))
    case Compare(left, ops, comparators) =>
      var l :- Val(expression, env, left);
      CompareFold(expression, env, ops, comparators, l)
    case Constant(v) => Ok(v)
    case Name(n) => if n in env then Ok(env[n]) else Err(UnknownValue(expression, n))
    case Other(text) => Err(UnknownExpression(expression, text))
  }

  /** `reduce(lambda acc, v: acc and v, (val(v) for v in values), acc)` */
  function AndFold(expression: string, env: Environment, values: seq<Node>, acc: Scalar): (r: Result<Scalar, Error>)
    ensures r.Err? ==> !r.error.SyntaxError?
    ensures r.Err? && (r.error.UnknownValue? || r.error.UnknownExpression?) ==> r.error.expression == expression
    decreases values, 0
  {
    if values == [] then Ok(acc)
    else
      var v :- Val(expression, env, values[0]);
      AndFold(expression, env, values[1..], if Truthy(acc) then v else acc)
  }

  /** `reduce(lambda acc, v: acc or v, (val(v) for v in values), acc)` */
  function OrFold(expression: string, env: Environment, values: seq<Node>, acc: Scalar): (r: Result<Scalar, Error>)
    ensures r.Err? ==> !r.error.SyntaxError?
    ensures r.Err? && (r.error.UnknownValue? || r.error.UnknownExpression?) ==> r.error.expression == expression
    decreases values, 0
  {
    if values == [] then Ok(acc)
    else
      var v :- Val(expression, env, values[0]);
      OrFold(expression, env, values[1..], if Truthy(acc) then acc else v)
  }

  /** `reduce(lambda acc, i: cmp(acc, *i), zip(ops, (val(c) for c in comparators)), acc)` */
  function CompareFold(expression: string, env: Environment, ops: seq<CmpOp>, comparators: seq<Node>, acc: Scalar)
    : (r: Result<Scalar, Error>)
    ensures r.Err? ==> !r.error.SyntaxError?
    ensures r.Err? && (r.error.UnknownValue? || r.error.UnknownExpression?) ==> r.error.expression == expression
    decreases comparators, 0
  {
    if ops == [] || comparators == [] then Ok(acc)
    else
      var v :- Val(expression, env, comparators[0]);
      var next :- Cmp(acc, ops[0], v);
      CompareFold(expression, env, ops[1..], comparators[1..], next)
  }

  /**
   * An `and` evaluates every operand (reduce consumes the whole generator):
   * it raises exactly when one of its operands raises.
   */
  lemma {:induction false} AndFoldDefined(expression: string, env: Environment, values: seq<Node>, acc: Scalar)
    ensures AndFold(expression, env, values, acc).Ok?
        <==> forall k :: 0 <= k < |values| ==> Val(expression, env, values[k]).Ok?
    decreases values
  {
    if values != [] {
      var first := Val(expression, env, values[0]);
      if first.Ok? {
        var next := if Truthy(acc) then first.value else acc;
        AndFoldDefined(expression, env, values[1..], next);
        assert forall k :: 1 <= k < |values| ==> values[k] == values[1..][k - 1];
      }
    }
  }

  /**
   * An `and` evaluates every operand (reduce consumes the whole generator):
   * it raises exactly when one of its operands raises, and otherwise its
   * value is truthy exactly when the start value and every operand are.
   */
  lemma {:induction false} AndFoldSemantics(expression: string, env: Environment, values: seq<Node>, acc: Scalar)
    ensures AndFold(expression, env, values, acc).Ok?
        <==> forall k :: 0 <= k < |values| ==> Val(expression, env, values[k]).Ok?
    ensures AndFold(expression, env, values, acc).Ok? ==>
        var r := AndFold(expression, env, values, acc).value;
        Truthy(r) <==> Truthy(acc) && forall k :: 0 <= k < |values| ==> Truthy(Val(expression, env, values[k]).value)
    ensures AndFold(expression, env, values, acc).Ok? ==>
        var r := AndFold(expression, env, values, acc).value;
        r == acc || exists k :: 0 <= k < |values| && Val(expression, env, values[k]) == Ok(r)
    decreases values
  {
    if values != [] {
      var first := Val(expression, env, values[0]);
      if first.Ok? {
        var next := if Truthy(acc) then first.value else acc;
        AndFoldSemantics(expression, env, values[1..], next);
        var rest := values[1..];
        var r := AndFold(expression, env, values, acc);
        assert r == AndFold(expression, env, rest, next);
        if r.Ok? && !Truthy(r.value) && Truthy(acc) && Truthy(first.value) {
          var k :| 0 <= k < |rest| && !Truthy(Val(expression, env, rest[k]).value);
          assert rest[k] == values[k + 1];
        }
        if r.Ok? && r.value != next {
          var k :| 0 <= k < |rest| && Val(expression, env, rest[k]) == Ok(r.value);
          assert rest[k] == values[k + 1];
        }
      }
    }
    AndFoldDefined(expression, env, values, acc);
  }

  /** An `or` raises exactly when one of its operands raises. */
  lemma {:induction false} OrFoldDefined(expression: string, env: Environment, values: seq<Node>, acc: Scalar)
    ensures OrFold(expression, env, values, acc).Ok?
        <==> forall k :: 0 <= k < |values| ==> Val(expression, env, values[k]).Ok?
    decreases values
  {
    if values != [] {
      var first := Val(expression, env, values[0]);
      if first.Ok? {
        var next := if Truthy(acc) then acc else first.value;
        OrFoldDefined(expression, env, values[1..], next);
        assert forall k :: 1 <= k < |values| ==> values[k] == values[1..][k - 1];
      }
    }
  }

  /**
   * An `or` also evaluates every operand; its value is truthy exactly when
   * the start value or some operand is.
   */
  lemma {:induction false} OrFoldSemantics(expression: string, env: Environment, values: seq<Node>, acc: Scalar)
    ensures OrFold(expression, env, values, acc).Ok?
        <==> forall k :: 0 <= k < |values| ==> Val(expression, env, values[k]).Ok?
    ensures OrFold(expression, env, values, acc).Ok? ==>
        var r := OrFold(expression, env, values, acc).value;
        Truthy(r) <==> Truthy(acc) || exists k :: 0 <= k < |values| && Truthy(Val(expression, env, values[k]).value)
    ensures OrFold(expression, env, values, acc).Ok? ==>
        var r := OrFold(expression, env, values, acc).value;
        r == acc || exists k :: 0 <= k < |values| && Val(expression, env, values[k]) == Ok(r)
    decreases values
  {
    if values != [] {
      var first := Val(expression, env, values[0]);
      if first.Ok? {
        var next := if Truthy(acc) then acc else first.value;
        OrFoldSemantics(expression, env, values[1..], next);
        var rest := values[1..];
        var r := OrFold(expression, env, values, acc);
        assert r == OrFold(expression, env, rest, next);
        if r.Ok? && Truthy(r.value) && !Truthy(acc) && !Truthy(first.value) {
          var k :| 0 <= k < |rest| && Truthy(Val(expression, env, rest[k]).value);
          assert rest[k] == values[k + 1];
        }
        if r.Ok? && r.value != next {
          var k :| 0 <= k < |rest| && Val(expression, env, rest[k]) == Ok(r.value);
          assert rest[k] == values[k + 1];
        }
      }
    }
    OrFoldDefined(expression, env, values, acc);
  }

  /** An `and` node is the fold `True and v1 and ... and vn` over its operands. */
  lemma AndTruthTable(expression: string, env: Environment, values: seq<Node>)
    ensures Val(expression, env, BoolOp(And, values)).Ok?
        <==> forall k :: 0 <= k < |values| ==> Val(expression, env, values[k]).Ok?
    ensures Val(expression, env, BoolOp(And, values)).Ok? ==>
        var r := Val(expression, env, BoolOp(And, values)).value;
        Truthy(r) <==> forall k :: 0 <= k < |values| ==> Truthy(Val(expression, env, values[k]).value)
  {
    AndFoldSemantics(expression, env, values, Bool(true));
  }

  /** An `or` node is the fold `False or v1 or ... or vn` over its operands. */
  lemma OrTruthTable(expression: string, env: Environment, values: seq<Node>)
    ensures Val(expression, env, BoolOp(Or, values)).Ok?
        <==> forall k :: 0 <= k < |values| ==> Val(expression, env, values[k]).Ok?
    ensures Val(expression, env, BoolOp(Or, values)).Ok? ==>
        var r := Val(expression, env, BoolOp(Or, values)).value;
        Truthy(r) <==> exists k :: 0 <= k < |values| && Truthy(Val(expression, env, values[k]).value)
  {
    OrFoldSemantics(expression, env, values, Bool(false));
  }

  /**
   * A name missing from the environment makes any `and`/`or` that has it as
   * an operand raise, whatever the other operands are.
   */
  lemma UnknownOperandRaises(expression: string, env: Environment, op: BoolOperator, values: seq<Node>, k: nat)
    requires k < |values| && values[k].Name? && values[k].id !in env
    ensures Val(expression, env, BoolOp(op, values)).Err?
  {
    if op == And {
      AndFoldSemantics(expression, env, values, Bool(true));
    } else {
      OrFoldSemantics(expression, env, values, Bool(false));
    }
  }

  /**
   * `a op1 b op2 c` is `cmp(cmp(a, op1, b), op2, c)`: the boolean result of
   * the first comparison is the left operand of the second.
   */
  lemma CompareIsLeftFold(expression: string, env: Environment, a: Scalar, op1: CmpOp, b: Scalar, op2: CmpOp, c: Scalar)
    ensures Val(expression, env, Compare(Constant(a), [op1, op2], [Constant(b), Constant(c)]))
        == (var x :- Cmp(a, op1, b); Cmp(x, op2, c))
  {
    var ops, comparators := [op1, op2], [Constant(b), Constant(c)];
    assert ops[1..] == [op2] && comparators[1..] == [Constant(c)];
    assert [op2][1..] == [] && [Constant(c)][1..] == [];
    match Cmp(a, op1, b)
    case Err(_) =>
      calc {
        Val(expression, env, Compare(Constant(a), ops, comparators));
        CompareFold(expression, env, ops, comparators, a);
        Cmp(a, op1, b);
      }
    case Ok(x) =>
      calc {
        Val(expression, env, Compare(Constant(a), ops, comparators));
        CompareFold(expression, env, ops, comparators, a);
        CompareFold(expression, env, [op2], [Constant(c)], x);
        Cmp(x, op2, c);
      }
  }

  /**
   * `cmp(... cmp(cmp(acc, ops[0], vs[0]), ops[1], vs[1]) ..., ops[n-1], vs[n-1])`,
   * built from its last comparison: the reference for a comparison chain.
   */
  function CmpChain(acc: Scalar, ops: seq<CmpOp>, vs: seq<Scalar>): Result<Scalar, Error>
    requires |ops| == |vs|
    decreases |ops|
  {
    if ops == [] then Ok(acc)
    else
      var x :- CmpChain(acc, ops[..|ops| - 1], vs[..|vs| - 1]);
      Cmp(x, ops[|ops| - 1], vs[|vs| - 1])
  }

  /** The chain starts with the comparison of `acc` and the first value. */
  lemma {:induction false} CmpChainFirst(acc: Scalar, ops: seq<CmpOp>, vs: seq<Scalar>)
    requires |ops| == |vs| && ops != []
    ensures CmpChain(acc, ops, vs) == (var x :- Cmp(acc, ops[0], vs[0]); CmpChain(x, ops[1..], vs[1..]))
    decreases |ops|
  {
    var n := |ops|;
    if n == 1 {
      assert ops[..0] == [] && vs[..0] == [];
      assert ops[1..] == [] && vs[1..] == [];
    } else {
      CmpChainFirst(acc, ops[..n - 1], vs[..n - 1]);
      assert ops[..n - 1][1..] == ops[1..][..n - 2];
      assert vs[..n - 1][1..] == vs[1..][..n - 2];
      assert ops[..n - 1][0] == ops[0] && vs[..n - 1][0] == vs[0];
    }
  }

  /**
   * A comparison node whose comparators evaluate to `vs` (as far as `zip`
   * pairs them with operators) is the chain of `cmp` over those values.
   */
  lemma {:induction false} CompareFoldIsChain(expression: string, env: Environment, ops: seq<CmpOp>,
                                              comparators: seq<Node>, acc: Scalar, vs: seq<Scalar>)
    requires |vs| == if |ops| < |comparators| then |ops| else |comparators|
    requires forall k :: 0 <= k < |vs| ==> Val(expression, env, comparators[k]) == Ok(vs[k])
    ensures CompareFold(expression, env, ops, comparators, acc) == CmpChain(acc, ops[..|vs|], vs)
    decreases |vs|
  {
    if vs == [] {
      assert ops[..0] == [];
    } else {
      assert Val(expression, env, comparators[0]) == Ok(vs[0]);
      CmpChainFirst(acc, ops[..|vs|], vs);
      match Cmp(acc, ops[0], vs[0])
      case Err(_) =>
      case Ok(x) =>
        assert forall k :: 0 <= k < |vs| - 1 ==> comparators[1..][k] == comparators[k + 1];
        CompareFoldIsChain(expression, env, ops[1..], comparators[1..], x, vs[1..]);
        assert ops[1..][..|vs| - 1] == ops[..|vs|][1..];
    }
  }

  /** A comparison node evaluates its left operand first and then the chain. */
  lemma CompareNodeIsChain(expression: string, env: Environment, left: Node, ops: seq<CmpOp>,
                           comparators: seq<Node>, a: Scalar, vs: seq<Scalar>)
    requires Val(expression, env, left) == Ok(a)
    requires |vs| == if |ops| < |comparators| then |ops| else |comparators|
    requires forall k :: 0 <= k < |vs| ==> Val(expression, env, comparators[k]) == Ok(vs[k])
    ensures Val(expression, env, Compare(left, ops, comparators)) == CmpChain(a, ops[..|vs|], vs)
  {
    CompareFoldIsChain(expression, env, ops, comparators, a, vs);
  }

  /**
   * The fold differs from Python's chained comparison: `1 < 3 < 2` is
   * `(1 < 3) < 2`, that is `True < 2`, which holds, although `3 < 2` does not.
   */
  lemma ChainIsNotPythonChaining(expression: string, env: Environment)
    ensures Val(expression, env, Compare(Constant(Int(1)), [Lt, Lt], [Constant(Int(3)), Constant(Int(2))]))
        == Ok(Bool(true))
    ensures Cmp(Int(3), Lt, Int(2)) == Ok(Bool(false))
  {
    CompareIsLeftFold(expression, env, Int(1), Lt, Int(3), Lt, Int(2));
  }

  /** `x == 1 and y > 2`, as Python parses it. */
  function ExampleNode(): Node {
    BoolOp(And, [
      Compare(Name("x"), [Eq], [Constant(Int(1))]),
      Compare(Name("y"), [Gt], [Constant(Int(2))])])
  }

  /** The evaluator on `x == 1 and y > 2` and on an unknown name `z`. */
  lemma ExampleEvaluations()
    ensures Val("x == 1 and y > 2", map["x" := Int(1), "y" := Int(3)], ExampleNode()) == Ok(Bool(true))
    ensures Val("x == 1 and y > 2", map["x" := Int(1), "y" := Int(1)], ExampleNode()) == Ok(Bool(false))
    ensures Val("z", map["x" := Int(1)], Name("z")) == Err(UnknownValue("z", "z"))
  {
    var e := "x == 1 and y > 2";
    var c1 := Compare(Name("x"), [Eq], [Constant(Int(1))]);
    var c2 := Compare(Name("y"), [Gt], [Constant(Int(2))]);
    var env1 := map["x" := Int(1), "y" := Int(3)];
    var env2 := map["x" := Int(1), "y" := Int(1)];
    assert Val(e, env1, c1) == Ok(Bool(true));
    assert Val(e, env1, c2) == Ok(Bool(true));
    assert Val(e, env2, c2) == Ok(Bool(false));
    assert [c1, c2][1..] == [c2];
  }
}
