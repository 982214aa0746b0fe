/**
 * The meaning of the lambdas in the reserved-word table of core/types.py,
 * stated on values rather than as the Python that computes them.
 */
module Primitives {
  import opened Basics
  import opened Types

  /** Python truthiness. */
  predicate Truthy(v: Value)
  {
    match v
    case Data(Num(n)) => n != 0
    case Data(Sym(s)) => s != ""
    case Data(List(xs)) => xs != []
    case Bool(b) => b
    case Infinity => true
    case Nothing => false
    case Ellipsis => true
    case Closure(_, _, _) => true
    case Builtin(_) => true
  }

  /** An int or a bool: Python treats `True` and `False` as 1 and 0. */
  predicate IsNumeric(v: Value)
  {
    v.Bool? || (v.Data? && v.e.Num?)
  }

  function AsInt(v: Value): int
    requires IsNumeric(v)
  {
    if v.Bool? then (if v.b then 1 else 0) else v.e.n
  }

  predicate AllNumeric(vs: seq<Value>)
  {
    forall i :: 0 <= i < |vs| ==> IsNumeric(vs[i])
  }

  /** `eval('+'.join(...))` on integers: the sum, left to right. */
  function Sum(vs: seq<Value>): int
    requires AllNumeric(vs)
  {
    if vs == [] then 0 else AsInt(vs[0]) + Sum(vs[1..])
  }

  /** `eval('*'.join(...))` on integers: the product. */
  function Product(vs: seq<Value>): int
    requires AllNumeric(vs)
  {
    if vs == [] then 1 else AsInt(vs[0]) * Product(vs[1..])
  }

  /** `eval('=='.join(...))` on integers: a chained comparison, each operand
      equal to the next. */
  predicate ChainEqual(vs: seq<Value>)
    requires AllNumeric(vs)
  {
    |vs| < 2 || (AsInt(vs[0]) == AsInt(vs[1]) && ChainEqual(vs[1..]))
  }

  /** `all(x)` */
  predicate AllTruthy(vs: seq<Value>)
  {
    vs == [] || (Truthy(vs[0]) && AllTruthy(vs[1..]))
  }

  /** `any(x)` */
  predicate AnyTruthy(vs: seq<Value>)
  {
    vs != [] && (Truthy(vs[0]) || AnyTruthy(vs[1..]))
  }

  /** `int(x / y)`: the quotient rounded toward zero. */
  function TruncDiv(x: int, y: int): int
    requires y != 0
  {
    if x >= 0 then x / y else -((-x) / y)
  }

  /** `x % y` on Python ints: the remainder takes the sign of the divisor. */
  function FloorMod(x: int, y: int): int
    requires y != 0
  {
    var m := x % y;
    if y > 0 || m == 0 then m else m + y
  }

  function Abs(x: int): nat
  {
    if x < 0 then -x else x
  }

  /** Truncating division leaves a remainder smaller than the divisor that is
      zero or has the sign of the dividend. */
  lemma TruncDivRemainder(x: int, y: int)
    requires y != 0
    ensures var r := x - TruncDiv(x, y) * y;
            Abs(r) < Abs(y) && (r == 0 || (r < 0) == (x < 0))
  {
    if x >= 0 {
      assert x == (x / y) * y + x % y;
    } else {
      assert -x == ((-x) / y) * y + (-x) % y;
      assert x - TruncDiv(x, y) * y == -((-x) % y);
    }
  }

  /** Floored modulo lies between zero and the divisor and differs from the
      dividend by a multiple of the divisor. */
  lemma FloorModRange(x: int, y: int)
    requires y != 0
    ensures var m := FloorMod(x, y);
            (y > 0 ==> 0 <= m < y) && (y < 0 ==> y < m <= 0)
            && x - m == (if y > 0 || x % y == 0 then x / y else x / y - 1) * y
  {
    assert x == (x / y) * y + x % y;
  }

  /** `str(v)`, what `print` writes. Object addresses are left out of the
      renderings of procedures and lambdas. */
  function Show(v: Value): string
  {
    match v
    case Data(Sym(s)) => s
    case Data(e) => Repr(e)
    case Bool(b) => if b then "True" else "False"
    case Infinity => "inf"
    case Nothing => "None"
    case Ellipsis => "Ellipsis"
    case Closure(_, _, _) => "<core.evaluator.Procedure object>"
    case Builtin(_) => "<function Token.reserved_words.<locals>.<lambda>>"
  }

  /** `repr(e)` of an expression object. */
  function Repr(e: Expr): string
  {
    match e
    case Num(n) => ShowInt(n)
    case Sym(s) => "'" + s + "'"
    case List(xs) => "[" + JoinComma(seq(|xs|, i requires 0 <= i < |xs| => Repr(xs[i]))) + "]"
  }

  function JoinComma(ss: seq<string>): string
  {
    if ss == [] then "" else if |ss| == 1 then ss[0] else ss[0] + ", " + JoinComma(ss[1..])
  }

  /** The result of calling a lambda, and the output lines after the call. */
  datatype Applied = Applied(res: Result<Value, Error>, out: seq<string>)

  /** `eval(sep.join(map(str, x)))` for `+`, `*` and `==`: no operand is a
      syntax error, one operand comes back as it is, and several integer
      operands are folded. */
  function JoinedEval(op: Op, args: seq<Value>): (r: Result<Value, Error>)
    requires op == Plus || op == Times || op == Equal
  {
    if args == [] then Fail(BadOperand)
    else if |args| == 1 then
      (if IsNumeric(args[0]) || args[0].Nothing? || args[0].Ellipsis? || (args[0].Data? && args[0].e.List?)
       then Ok(args[0]) else Fail(BadOperand))
    else if !AllNumeric(args) then Fail(BadOperand)
    else if op == Plus then Ok(Int(Sum(args)))
    else if op == Times then Ok(Int(Product(args)))
    else Ok(Bool(ChainEqual(args)))
  }

  predicate IsZero(v: Value)
  {
    IsNumeric(v) && AsInt(v) == 0
  }

  /** Calling the lambda bound to `op` with the positional arguments `args`;
      `out` is the output printed so far. */
  function ApplyPrim(op: Op, args: seq<Value>, out: seq<string>): (r: Applied)
    ensures r.out == out || (|args| == 1 && (op == PrintNum || op == PrintBool) && r.out == out + [PrintedLine(op, args[0])])
    ensures r.res.Ok? ==> r.res.value in args || !r.res.value.Closure?
  {
    match op
    case FunOp => Applied(if |args| == 2 then Ok(Ellipsis) else Fail(WrongArgCount), out)
    case DefineOp => Applied(if |args| == 2 then Ok(Ellipsis) else Fail(WrongArgCount), out)
    case IfOp =>
      Applied(if |args| == 3 then Ok(if Truthy(args[0]) then args[1] else args[2]) else Fail(WrongArgCount), out)
    case Plus => Applied(JoinedEval(op, args), out)
    case Times => Applied(JoinedEval(op, args), out)
    case Equal => Applied(JoinedEval(op, args), out)
    case And => Applied(Ok(Bool(AllTruthy(args))), out)
    case Or => Applied(Ok(Bool(AnyTruthy(args))), out)
    case Not => Applied(if |args| == 1 then Ok(Bool(!Truthy(args[0]))) else Fail(WrongArgCount), out)
    case PrintNum =>
      if |args| == 1 then Applied(Ok(Nothing), out + [PrintedLine(op, args[0])]) else Applied(Fail(WrongArgCount), out)
    case PrintBool =>
      if |args| == 1 then Applied(Ok(Nothing), out + [PrintedLine(op, args[0])]) else Applied(Fail(WrongArgCount), out)
    case _ => Applied(Binary(op, args), out)
  }

  /** The line `print-num` or `print-bool` writes for `v`. */
  function PrintedLine(op: Op, v: Value): string
  {
    if op == PrintBool then (if Truthy(v) then "#t" else "#f") else Show(v)
  }

  /** The two-parameter lambdas `-`, `/`, `mod`, `>` and `<`. */
  function Binary(op: Op, args: seq<Value>): (r: Result<Value, Error>)
    requires op == Minus || op == Divide || op == Mod || op == Greater || op == Less
    ensures r.Ok? ==> !r.value.Closure?
  {
    if |args| != 2 then Fail(WrongArgCount)
    else
      var x, y := args[0], args[1];
      if op == Divide && IsZero(y) then Ok(Infinity)
      else if op == Divide && IsNumeric(x) && y.Infinity? then Ok(Int(0))
      else if !IsNumeric(x) || !IsNumeric(y) then Fail(BadOperand)
      else
        var a, b := AsInt(x), AsInt(y);
        match op
        case Minus => Ok(Int(a - b))
        case Divide => Ok(Int(TruncDiv(a, b)))
        case Mod => if b == 0 then Fail(ZeroDivision) else Ok(Int(FloorMod(a, b)))
        case Greater => Ok(Bool(a > b))
        case Less => Ok(Bool(a < b))
  }

  // ---------------------------------------------------------------------
  // What each primitive means

  /** `=` is true exactly when all operands are equal. */
  lemma {:induction false} ChainEqualAll(vs: seq<Value>)
    requires AllNumeric(vs)
    ensures ChainEqual(vs) <==> forall i :: 0 <= i < |vs| ==> AsInt(vs[i]) == AsInt(vs[0])
  {
    if |vs| >= 2 {
      ChainEqualAll(vs[1..]);
      if ChainEqual(vs) {
        forall i | 0 <= i < |vs| ensures AsInt(vs[i]) == AsInt(vs[0]) {
          if i > 0 { assert vs[i] == vs[1..][i - 1]; }
        }
      }
      if forall i :: 0 <= i < |vs| ==> AsInt(vs[i]) == AsInt(vs[0]) {
        forall i | 0 <= i < |vs[1..]| ensures AsInt(vs[1..][i]) == AsInt(vs[1..][0]) {
          assert vs[1..][i] == vs[i + 1];
        }
      }
    }
  }

  /** `and` is `all`: true exactly when every operand is truthy. */
  lemma {:induction false} AllTruthyForall(vs: seq<Value>)
    ensures AllTruthy(vs) <==> forall i :: 0 <= i < |vs| ==> Truthy(vs[i])
  {
    if vs != [] {
      AllTruthyForall(vs[1..]);
      assert forall i :: 1 <= i < |vs| ==> vs[i] == vs[1..][i - 1];
    }
  }

  /** `or` is `any`: true exactly when some operand is truthy. */
  lemma {:induction false} AnyTruthyExists(vs: seq<Value>)
    ensures AnyTruthy(vs) <==> exists i :: 0 <= i < |vs| && Truthy(vs[i])
  {
    if vs != [] {
      AnyTruthyExists(vs[1..]);
      if AnyTruthy(vs[1..]) {
        var i :| 0 <= i < |vs[1..]| && Truthy(vs[1..][i]);
        assert Truthy(vs[i + 1]);
      }
      if exists i :: 0 <= i < |vs| && Truthy(vs[i]) {
        var i :| 0 <= i < |vs| && Truthy(vs[i]);
        if i > 0 { assert vs[1..][i - 1] == vs[i]; }
      }
    }
  }

  lemma {:induction false} SumAppend(a: seq<Value>, b: seq<Value>)
    requires AllNumeric(a) && AllNumeric(b)
    ensures AllNumeric(a + b) && Sum(a + b) == Sum(a) + Sum(b)
  {
    if a == [] {
      assert a + b == b;
    } else {
      assert (a + b)[1..] == a[1..] + b;
      SumAppend(a[1..], b);
    }
  }

  /** `+` over two or more numeric operands is their sum, and prints
      nothing; splitting the operand list anywhere splits the sum. */
  lemma PlusFolds(a: seq<Value>, b: seq<Value>, out: seq<string>)
    requires AllNumeric(a) && AllNumeric(b) && |a + b| >= 2
    ensures ApplyPrim(Plus, a + b, out) == Applied(Ok(Int(Sum(a) + Sum(b))), out)
  {
    SumAppend(a, b);
  }

  lemma {:induction false} ProductAppend(a: seq<Value>, b: seq<Value>)
    requires AllNumeric(a) && AllNumeric(b)
    ensures AllNumeric(a + b) && Product(a + b) == Product(a) * Product(b)
  {
    if a == [] {
      assert a + b == b;
    } else {
      assert (a + b)[1..] == a[1..] + b;
      ProductAppend(a[1..], b);
      assert AsInt(a[0]) * (Product(a[1..]) * Product(b)) == (AsInt(a[0]) * Product(a[1..])) * Product(b);
    }
  }

  /** `*` over two or more numeric operands is their product, and prints
      nothing; splitting the operand list anywhere splits the product. */
  lemma TimesFolds(a: seq<Value>, b: seq<Value>, out: seq<string>)
    requires AllNumeric(a) && AllNumeric(b) && |a + b| >= 2
    ensures ApplyPrim(Times, a + b, out) == Applied(Ok(Int(Product(a) * Product(b))), out)
  {
    ProductAppend(a, b);
  }

  /** `/` truncates toward zero and gives the infinity value, not an error,
      for a zero divisor, whatever the dividend is; a number divided by that
      infinity truncates to 0. */
  lemma DivideMeaning(x: Value, y: Value)
    ensures IsZero(y) ==> ApplyPrim(Divide, [x, y], []).res == Ok(Infinity)
    ensures IsNumeric(x) && y.Infinity? ==> ApplyPrim(Divide, [x, y], []).res == Ok(Int(0))
    ensures IsNumeric(x) && IsNumeric(y) && !IsZero(y) ==>
      var q := TruncDiv(AsInt(x), AsInt(y));
      ApplyPrim(Divide, [x, y], []).res == Ok(Int(q))
      && Abs(AsInt(x) - q * AsInt(y)) < Abs(AsInt(y))
      && (AsInt(x) - q * AsInt(y) == 0 || (AsInt(x) - q * AsInt(y) < 0) == (AsInt(x) < 0))
  {
    if IsNumeric(x) && IsNumeric(y) && !IsZero(y) {
      TruncDivRemainder(AsInt(x), AsInt(y));
    }
  }

  /** `mod` is floored: its result has the sign of the divisor; a zero
      divisor raises ZeroDivisionError. */
  lemma ModMeaning(x: int, y: int)
    ensures y == 0 ==> ApplyPrim(Mod, [Int(x), Int(y)], []).res == Fail(ZeroDivision)
    ensures y != 0 ==>
      var m := FloorMod(x, y);
      ApplyPrim(Mod, [Int(x), Int(y)], []).res == Ok(Int(m))
      && (y > 0 ==> 0 <= m < y) && (y < 0 ==> y < m <= 0)
  {
    if y != 0 {
      FloorModRange(x, y);
    }
  }

  /** The parametrised cases of the standard-environment test. */
  lemma StandardPrimitiveCases()
    ensures ApplyPrim(Plus, [Int(1), Int(2)], []).res == Ok(Int(3))
    ensures ApplyPrim(Minus, [Int(1), Int(2)], []).res == Ok(Int(-1))
    ensures ApplyPrim(Times, [Int(1), Int(3)], []).res == Ok(Int(3))
    ensures ApplyPrim(Divide, [Int(6), Int(2)], []).res == Ok(Int(3))
    ensures ApplyPrim(Divide, [Int(8), Int(3)], []).res == Ok(Int(2))
    ensures ApplyPrim(Divide, [Int(-7), Int(2)], []).res == Ok(Int(-3))
    ensures ApplyPrim(Divide, [Int(5), Infinity], []).res == Ok(Int(0))
    ensures ApplyPrim(Mod, [Int(7), Int(3)], []).res == Ok(Int(1))
    ensures ApplyPrim(Mod, [Int(10), Int(2)], []).res == Ok(Int(0))
    ensures ApplyPrim(Mod, [Int(-5), Int(2)], []).res == Ok(Int(1))
    ensures ApplyPrim(Greater, [Int(100), Int(99)], []).res == Ok(Bool(true))
    ensures ApplyPrim(Greater, [Int(100), Int(100)], []).res == Ok(Bool(false))
    ensures ApplyPrim(Greater, [Int(100), Int(101)], []).res == Ok(Bool(false))
    ensures ApplyPrim(Less, [Int(100), Int(101)], []).res == Ok(Bool(true))
    ensures ApplyPrim(Less, [Int(100), Int(100)], []).res == Ok(Bool(false))
    ensures ApplyPrim(Less, [Int(100), Int(99)], []).res == Ok(Bool(false))
    ensures ApplyPrim(Equal, [Int(100), Int(100)], []).res == Ok(Bool(true))
    ensures ApplyPrim(Equal, [Int(100), Int(99)], []).res == Ok(Bool(false))
    ensures ApplyPrim(And, [Bool(true), Bool(true)], []).res == Ok(Bool(true))
    ensures ApplyPrim(Or, [Bool(false), Bool(false)], []).res == Ok(Bool(false))
    ensures ApplyPrim(Or, [Bool(true), Bool(false)], []).res == Ok(Bool(true))
    ensures ApplyPrim(Not, [Bool(true)], []).res == Ok(Bool(false))
    ensures ApplyPrim(Not, [Bool(false)], []).res == Ok(Bool(true))
  {
    FoldCases();
    DivideCases();
    ModCases();
    ComparisonCases();
    LogicCases();
  }

  /** The `+ - *` cases of the standard-environment test. */
  lemma FoldCases()
    ensures ApplyPrim(Plus, [Int(1), Int(2)], []).res == Ok(Int(3))
    ensures ApplyPrim(Minus, [Int(1), Int(2)], []).res == Ok(Int(-1))
    ensures ApplyPrim(Times, [Int(1), Int(3)], []).res == Ok(Int(3))
  {
    assert [Int(1), Int(2)][1..] == [Int(2)] && [Int(2)][1..] == [];
    assert [Int(1), Int(3)][1..] == [Int(3)] && [Int(3)][1..] == [];
  }

  /** `/` on the integers of the standard-environment test, a negative
      quotient truncated toward zero, and `(/ 5 (/ 1 0))`. */
  lemma DivideCases()
    ensures ApplyPrim(Divide, [Int(6), Int(2)], []).res == Ok(Int(3))
    ensures ApplyPrim(Divide, [Int(8), Int(3)], []).res == Ok(Int(2))
    ensures ApplyPrim(Divide, [Int(-7), Int(2)], []).res == Ok(Int(-3))
    ensures ApplyPrim(Divide, [Int(5), Infinity], []).res == Ok(Int(0))
  {
    assert TruncDiv(6, 2) == 3 && TruncDiv(8, 3) == 2 && TruncDiv(-7, 2) == -3;
  }

  /** `mod` on the integers of the standard-environment test. */
  lemma ModCases()
    ensures ApplyPrim(Mod, [Int(7), Int(3)], []).res == Ok(Int(1))
    ensures ApplyPrim(Mod, [Int(10), Int(2)], []).res == Ok(Int(0))
    ensures ApplyPrim(Mod, [Int(-5), Int(2)], []).res == Ok(Int(1))
  {
    assert FloorMod(7, 3) == 1 && FloorMod(10, 2) == 0 && FloorMod(-5, 2) == 1;
  }

  /** The `> < =` cases of the standard-environment test. */
  lemma ComparisonCases()
    ensures ApplyPrim(Greater, [Int(100), Int(99)], []).res == Ok(Bool(true))
    ensures ApplyPrim(Greater, [Int(100), Int(100)], []).res == Ok(Bool(false))
    ensures ApplyPrim(Greater, [Int(100), Int(101)], []).res == Ok(Bool(false))
    ensures ApplyPrim(Less, [Int(100), Int(101)], []).res == Ok(Bool(true))
    ensures ApplyPrim(Less, [Int(100), Int(100)], []).res == Ok(Bool(false))
    ensures ApplyPrim(Less, [Int(100), Int(99)], []).res == Ok(Bool(false))
    ensures ApplyPrim(Equal, [Int(100), Int(100)], []).res == Ok(Bool(true))
    ensures ApplyPrim(Equal, [Int(100), Int(99)], []).res == Ok(Bool(false))
  {
  }

  /** The `and or not` cases of the standard-environment test. */
  lemma LogicCases()
    ensures ApplyPrim(And, [Bool(true), Bool(true)], []).res == Ok(Bool(true))
    ensures ApplyPrim(Or, [Bool(false), Bool(false)], []).res == Ok(Bool(false))
    ensures ApplyPrim(Or, [Bool(true), Bool(false)], []).res == Ok(Bool(true))
    ensures ApplyPrim(Not, [Bool(true)], []).res == Ok(Bool(false))
    ensures ApplyPrim(Not, [Bool(false)], []).res == Ok(Bool(true))
  {
    assert [Bool(true), Bool(true)][1..] == [Bool(true)];
    assert [Bool(false), Bool(false)][1..] == [Bool(false)];
  }

  /** `print-num` writes the decimal form of an integer, which reads back as
      that integer; `print-bool` writes `#t` or `#f` by truthiness. */
  lemma PrintMeaning(i: int, v: Value, out: seq<string>)
    ensures ApplyPrim(PrintNum, [Int(i)], out) == Applied(Ok(Nothing), out + [ShowInt(i)])
    ensures ParseInt(ShowInt(i)) == Some(i)
    ensures ApplyPrim(PrintBool, [v], out) == Applied(Ok(Nothing), out + [if Truthy(v) then "#t" else "#f"])
  {
    ParseShowInt(i);
  }
}
