/**
 * `eval` of core/evaluator.py as functions over the interpreter state: the
 * frames of every `Env` and the lines printed so far. Each function returns
 * its result together with the state after it, so the order in which the
 * code evaluates things is part of the model. A `fuel` bound, spent on each
 * procedure call, makes every evaluation end; running out is reported as
 * OutOfFuel, which stands for a computation that does not end.
 */
module Evaluator {
  import opened Basics
  import opened Types
  import opened Primitives
  import opened Environment

  /** Everything evaluation may change: the frames and the printed lines. */
  datatype State = State(frames: seq<Frame>, out: seq<string>)

  /** A result together with the state in which it was produced. */
  datatype Outcome<T> = Outcome(res: Result<T, Error>, st: State)

  ghost predicate Good(st: State)
  {
    WellFormed(st.frames)
  }

  /** What evaluation never undoes: frames are only added, no outer link
      changes, and printed lines stay printed. */
  ghost predicate Grows(st: State, st': State)
  {
    && |st.frames| <= |st'.frames|
    && (forall i :: 0 <= i < |st.frames| ==> st'.frames[i].outer == st.frames[i].outer)
    && |st.out| <= |st'.out| && st'.out[..|st.out|] == st.out
  }

  lemma GrowsTrans(a: State, b: State, c: State)
    requires Grows(a, b) && Grows(b, c)
    ensures Grows(a, c)
  {
    assert c.out[..|a.out|] == c.out[..|b.out|][..|a.out|];
  }

  /** The number of nodes of an expression, which evaluation descends. */
  function Size(e: Expr): (n: nat)
    ensures n >= 1
  {
    match e
    case List(items) => 1 + SizeSeq(items)
    case _ => 1
  }

  function SizeSeq(es: seq<Expr>): (n: nat)
    ensures n >= |es|
    ensures forall k :: 0 <= k < |es| ==> Size(es[k]) <= n
    ensures es != [] ==> SizeSeq(es[1..]) < n
  {
    if es == [] then 0
    else
      assert forall k :: 0 < k < |es| ==> es[k] == es[1..][k - 1];
      Size(es[0]) + SizeSeq(es[1..])
  }

  /** The reserved words that head a one-operand primitive form. */
  predicate IsUnary(w: string)
  {
    w == "not" || w == "print-num" || w == "print-bool"
  }

  /** The reserved words that head a two-operand primitive form. */
  predicate IsBinary(w: string)
  {
    w == "-" || w == "/" || w == "mod" || w == ">" || w == "<"
  }

  /** The reserved words that head a primitive form of any number of operands. */
  predicate IsVariadic(w: string)
  {
    w == "+" || w == "*" || w == "=" || w == "and" || w == "or"
  }

  /** `eval(exp, env)`. */
  function Eval(fuel: nat, e: Expr, env: nat, st: State): (r: Outcome<Value>)
    requires Good(st) && env < |st.frames|
    ensures Good(r.st) && Grows(st, r.st)
    ensures r.res.Ok? ==> ValueIn(r.res.value, |r.st.frames|)
    decreases fuel, Size(e), 1
  {
    match e
    case Num(_) => Outcome(Ok(Data(e)), st)
    case Sym(_) => Outcome(Lookup(st.frames, env, e), st)
    case List(items) =>
      if items == [] then Outcome(Fail(EmptyForm), st)
      else if items[0].List? then EvalInline(fuel, items, env, st)
      else if !items[0].Sym? || items[0].name !in ReservedWords then Outcome(Ok(Nothing), st)
      else
        var w := items[0].name;
        if w == "if" then EvalIf(fuel, items, env, st)
        else if w == "define" then EvalDefine(fuel, items, env, st)
        else if w == "fun" then EvalFun(items, env, st)
        else if IsUnary(w) then EvalUnary(fuel, items, env, st)
        else if IsBinary(w) then EvalBinary(fuel, items, env, st)
        else if IsVariadic(w) then EvalVariadic(fuel, items, env, st)
        else Outcome(Ok(Nothing), st)
  }

  /** `((fun ...) args...)`: the head is evaluated and called with the list
      of the remaining expressions, unevaluated. */
  function EvalInline(fuel: nat, items: seq<Expr>, env: nat, st: State): (r: Outcome<Value>)
    requires Good(st) && env < |st.frames| && items != []
    ensures Good(r.st) && Grows(st, r.st)
    ensures r.res.Ok? ==> ValueIn(r.res.value, |r.st.frames|)
    decreases fuel, SizeSeq(items), 2
  {
    var f := Eval(fuel, items[0], env, st);
    if f.res.Fail? then Outcome(Fail(f.res.error), f.st)
    else
      var r := Invoke(fuel, f.res.value, [Data(List(items[1..]))], f.st);
      GrowsTrans(st, f.st, r.st);
      r
  }

  /** `(if condition then_exp else_exp)`: only the chosen branch is evaluated. */
  function EvalIf(fuel: nat, items: seq<Expr>, env: nat, st: State): (r: Outcome<Value>)
    requires Good(st) && env < |st.frames| && items != []
    ensures Good(r.st) && Grows(st, r.st)
    ensures r.res.Ok? ==> ValueIn(r.res.value, |r.st.frames|)
    decreases fuel, SizeSeq(items), 2
  {
    if |items| != 4 then Outcome(Fail(Malformed), st)
    else
      var c := Eval(fuel, items[1], env, st);
      if c.res.Fail? then Outcome(Fail(c.res.error), c.st)
      else
        var r := Eval(fuel, if Truthy(c.res.value) then items[2] else items[3], env, c.st);
        GrowsTrans(st, c.st, r.st);
        r
  }

  /** `(define var exp)`: the value is evaluated first, then bound in the
      current frame; the form itself yields None. */
  function EvalDefine(fuel: nat, items: seq<Expr>, env: nat, st: State): (r: Outcome<Value>)
    requires Good(st) && env < |st.frames| && items != []
    ensures Good(r.st) && Grows(st, r.st)
    ensures r.res.Ok? ==> ValueIn(r.res.value, |r.st.frames|)
    decreases fuel, SizeSeq(items), 2
  {
    if |items| != 3 then Outcome(Fail(Malformed), st)
    else
      var v := Eval(fuel, items[2], env, st);
      if v.res.Fail? then Outcome(Fail(v.res.error), v.st)
      else if items[1].List? then Outcome(Fail(Unhashable), v.st)
      else
        AssignWellFormed(v.st.frames, env, items[1], v.res.value);
        Outcome(Ok(Nothing), State(Assign(v.st.frames, env, items[1], v.res.value), v.st.out))
  }

  /** `(fun params body)`: a Procedure over a new empty frame whose outer
      link is the defining frame. */
  function EvalFun(items: seq<Expr>, env: nat, st: State): (r: Outcome<Value>)
    requires Good(st) && env < |st.frames|
    ensures Good(r.st) && Grows(st, r.st)
    ensures r.res.Ok? ==> ValueIn(r.res.value, |r.st.frames|)
  {
    if |items| != 3 then Outcome(Fail(Malformed), st)
    else
      AppendFrame(st.frames, Frame(map[], Some(env)));
      Outcome(Ok(Closure(items[1], items[2], |st.frames|)), State(st.frames + [Frame(map[], Some(env))], st.out))
  }

  /** `(not e)`, `(print-num e)`, `(print-bool e)`: the operator is looked up
      before its operand is evaluated; the print forms yield None. */
  function EvalUnary(fuel: nat, items: seq<Expr>, env: nat, st: State): (r: Outcome<Value>)
    requires Good(st) && env < |st.frames| && items != []
    ensures Good(r.st) && Grows(st, r.st)
    ensures r.res.Ok? ==> ValueIn(r.res.value, |r.st.frames|)
    decreases fuel, SizeSeq(items), 2
  {
    if |items| != 2 then Outcome(Fail(Malformed), st)
    else match Lookup(st.frames, env, items[0])
      case Fail(err) => Outcome(Fail(err), st)
      case Ok(f) =>
        var a := Eval(fuel, items[1], env, st);
        if a.res.Fail? then Outcome(Fail(a.res.error), a.st)
        else
          var r := Invoke(fuel, f, [a.res.value], a.st);
          GrowsTrans(st, a.st, r.st);
          if items[0] == Sym("not") || r.res.Fail? then r else Outcome(Ok(Nothing), r.st)
  }

  /** `(op e1 e2)` for `- / mod > <`: the operator is looked up, then the
      operands are evaluated left to right. */
  function EvalBinary(fuel: nat, items: seq<Expr>, env: nat, st: State): (r: Outcome<Value>)
    requires Good(st) && env < |st.frames| && items != []
    ensures Good(r.st) && Grows(st, r.st)
    ensures r.res.Ok? ==> ValueIn(r.res.value, |r.st.frames|)
    decreases fuel, SizeSeq(items), 2
  {
    if |items| != 3 then Outcome(Fail(Malformed), st)
    else match Lookup(st.frames, env, items[0])
      case Fail(err) => Outcome(Fail(err), st)
      case Ok(f) =>
        var a := Eval(fuel, items[1], env, st);
        if a.res.Fail? then Outcome(Fail(a.res.error), a.st)
        else
          var b := Eval(fuel, items[2], env, a.st);
          GrowsTrans(st, a.st, b.st);
          if b.res.Fail? then Outcome(Fail(b.res.error), b.st)
          else
            var r := Invoke(fuel, f, [a.res.value, b.res.value], b.st);
            GrowsTrans(st, b.st, r.st);
            r
  }

  /** `(op e...)` for `+ * = and or`: every operand is evaluated, left to
      right, and only then is the operator looked up and applied. */
  function EvalVariadic(fuel: nat, items: seq<Expr>, env: nat, st: State): (r: Outcome<Value>)
    requires Good(st) && env < |st.frames| && items != []
    ensures Good(r.st) && Grows(st, r.st)
    ensures r.res.Ok? ==> ValueIn(r.res.value, |r.st.frames|)
    decreases fuel, SizeSeq(items), 2
  {
    var vs := EvalSeq(fuel, items[1..], env, st);
    if vs.res.Fail? then Outcome(Fail(vs.res.error), vs.st)
    else match Lookup(vs.st.frames, env, items[0])
      case Fail(err) => Outcome(Fail(err), vs.st)
      case Ok(f) =>
        var r := Invoke(fuel, f, vs.res.value, vs.st);
        GrowsTrans(st, vs.st, r.st);
        r
  }

  /** `eval_all(exps, env)`: the values of `es`, left to right. */
  function EvalSeq(fuel: nat, es: seq<Expr>, env: nat, st: State): (r: Outcome<seq<Value>>)
    requires Good(st) && env < |st.frames|
    ensures Good(r.st) && Grows(st, r.st)
    ensures r.res.Ok? ==> |r.res.value| == |es| && forall v :: v in r.res.value ==> ValueIn(v, |r.st.frames|)
    decreases fuel, SizeSeq(es), 2
  {
    if es == [] then Outcome(Ok([]), st)
    else
      var h := Eval(fuel, es[0], env, st);
      if h.res.Fail? then Outcome(Fail(h.res.error), h.st)
      else
        var t := EvalSeq(fuel, es[1..], env, h.st);
        GrowsTrans(st, h.st, t.st);
        if t.res.Fail? then Outcome(Fail(t.res.error), t.st)
        else Outcome(Ok([h.res.value] + t.res.value), t.st)
  }

  /** Calling a value with positional arguments: a Procedure runs its body,
      a reserved-word lambda computes its primitive, anything else is not
      callable. */
  function Invoke(fuel: nat, f: Value, args: seq<Value>, st: State): (r: Outcome<Value>)
    requires Good(st) && ValueIn(f, |st.frames|)
    requires forall v :: v in args ==> ValueIn(v, |st.frames|)
    ensures Good(r.st) && Grows(st, r.st)
    ensures r.res.Ok? ==> ValueIn(r.res.value, |r.st.frames|)
    decreases fuel, 0, 1
  {
    match f
    case Closure(_, _, _) => Call(fuel, f, args, st)
    case Builtin(op) =>
      var a := ApplyPrim(op, args, st.out);
      Outcome(a.res, State(st.frames, a.out))
    case _ => Outcome(Fail(NotCallable), st)
  }

  /** `iter(token)`: the items of a list, the one-character strings of a
      str; an int is not iterable. */
  function Items(e: Expr): (r: Option<seq<Expr>>)
    ensures r.None? <==> e.Num?
    ensures e.List? ==> r == Some(e.items)
    ensures e.Sym? ==> |r.value| == |e.name| && forall k :: 0 <= k < |e.name| ==> r.value[k] == Sym([e.name[k]])
  {
    match e
    case List(xs) => Some(xs)
    case Sym(s) => Some(seq(|s|, k requires 0 <= k < |s| => Sym([s[k]])))
    case Num(_) => None
  }

  /** `iter(value)` for a value passed as the argument list of a call. */
  function ValueItems(v: Value): (r: Option<seq<Value>>)
    ensures r.Some? <==> v.Data? && !v.e.Num?
    ensures r.Some? ==> |r.value| == |Items(v.e).value| &&
                        forall k :: 0 <= k < |r.value| ==> r.value[k] == Data(Items(v.e).value[k])
  {
    if !v.Data? then None
    else match Items(v.e)
      case None => None
      case Some(xs) => Some(seq(|xs|, k requires 0 <= k < |xs| => Data(xs[k])))
  }

  /** `Procedure.__call__(args)`: the parameters are zipped with the
      arguments into the frame the procedure captured when it was made, and
      the body is evaluated there. */
  function Call(fuel: nat, proc: Value, args: seq<Value>, st: State): (r: Outcome<Value>)
    requires Good(st) && proc.Closure? && proc.frame < |st.frames|
    ensures Good(r.st) && Grows(st, r.st)
    ensures r.res.Ok? ==> ValueIn(r.res.value, |r.st.frames|)
    decreases fuel, 0, 0
  {
    if fuel == 0 then Outcome(Fail(OutOfFuel), st)
    else if |args| != 1 then Outcome(Fail(WrongArgCount), st)
    else
      var ks, vs := Items(proc.params), ValueItems(args[0]);
      if ks.None? || vs.None? then Outcome(Fail(NotIterable), st)
      else
        var m := st.frames[proc.frame].bindings;
        ZipUpdateValues(m, ks.value, vs.value);
        match ZipUpdate(m, ks.value, vs.value)
        case Fail(err) => Outcome(Fail(err), st)
        case Ok(b) =>
          SetBindingsWellFormed(st.frames, proc.frame, b);
          var st' := State(SetBindings(st.frames, proc.frame, b), st.out);
          var r := Eval(fuel - 1, proc.body, proc.frame, st');
          GrowsTrans(st, st', r.st);
          r
  }
}
