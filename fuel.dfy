/**
 * The fuel bound of the evaluator only cuts computations short: once an
 * evaluation finishes without running out of fuel, giving it more fuel
 * changes neither its result nor the state it leaves. So `OutOfFuel` is
 * exactly "did not finish within this many calls".
 */
module Fuel {
  import opened Basics
  import opened Types
  import opened Primitives
  import opened Environment
  import opened Evaluator

  /** More fuel never changes a finished evaluation: its result and the
      state it leaves are the same for every larger fuel. Each lemma below
      states the same for one of the mutually recursive evaluator
      functions. */
  lemma {:induction false} EvalMono(f: nat, g: nat, e: Expr, env: nat, st: State)
    requires Good(st) && env < |st.frames| && f <= g
    requires Eval(f, e, env, st).res != Fail(OutOfFuel)
    ensures Eval(g, e, env, st) == Eval(f, e, env, st)
    decreases f, Size(e), 1
  {
    match e
    case List(items) =>
      if items != [] {
        if items[0].List? {
          InlineMono(f, g, items, env, st);
        } else if items[0].Sym? && items[0].name in ReservedWords {
          var w := items[0].name;
          if w == "if" {
            IfMono(f, g, items, env, st);
          } else if w == "define" {
            DefineMono(f, g, items, env, st);
          } else if w == "fun" {
          } else if IsUnary(w) {
            UnaryMono(f, g, items, env, st);
          } else if IsBinary(w) {
            BinaryMono(f, g, items, env, st);
          } else if IsVariadic(w) {
            VariadicMono(f, g, items, env, st);
          }
        }
      }
    case _ =>
  }

  lemma {:induction false} InlineMono(f: nat, g: nat, items: seq<Expr>, env: nat, st: State)
    requires Good(st) && env < |st.frames| && items != [] && f <= g
    requires EvalInline(f, items, env, st).res != Fail(OutOfFuel)
    ensures EvalInline(g, items, env, st) == EvalInline(f, items, env, st)
    decreases f, SizeSeq(items), 2
  {
    var h := Eval(f, items[0], env, st);
    EvalMono(f, g, items[0], env, st);
    if h.res.Ok? {
      InvokeMono(f, g, h.res.value, [Data(List(items[1..]))], h.st);
    }
  }

  lemma {:induction false} IfMono(f: nat, g: nat, items: seq<Expr>, env: nat, st: State)
    requires Good(st) && env < |st.frames| && items != [] && f <= g
    requires EvalIf(f, items, env, st).res != Fail(OutOfFuel)
    ensures EvalIf(g, items, env, st) == EvalIf(f, items, env, st)
    decreases f, SizeSeq(items), 2
  {
    if |items| == 4 {
      var c := Eval(f, items[1], env, st);
      EvalMono(f, g, items[1], env, st);
      if c.res.Ok? {
        EvalMono(f, g, if Truthy(c.res.value) then items[2] else items[3], env, c.st);
      }
    }
  }

  lemma {:induction false} DefineMono(f: nat, g: nat, items: seq<Expr>, env: nat, st: State)
    requires Good(st) && env < |st.frames| && items != [] && f <= g
    requires EvalDefine(f, items, env, st).res != Fail(OutOfFuel)
    ensures EvalDefine(g, items, env, st) == EvalDefine(f, items, env, st)
    decreases f, SizeSeq(items), 2
  {
    if |items| == 3 {
      EvalMono(f, g, items[2], env, st);
    }
  }

  lemma {:induction false} UnaryMono(f: nat, g: nat, items: seq<Expr>, env: nat, st: State)
    requires Good(st) && env < |st.frames| && items != [] && f <= g
    requires EvalUnary(f, items, env, st).res != Fail(OutOfFuel)
    ensures EvalUnary(g, items, env, st) == EvalUnary(f, items, env, st)
    decreases f, SizeSeq(items), 2
  {
    if |items| == 2 && Lookup(st.frames, env, items[0]).Ok? {
      var op := Lookup(st.frames, env, items[0]).value;
      var a := Eval(f, items[1], env, st);
      EvalMono(f, g, items[1], env, st);
      if a.res.Ok? {
        InvokeMono(f, g, op, [a.res.value], a.st);
      }
    }
  }

  lemma {:induction false} BinaryMono(f: nat, g: nat, items: seq<Expr>, env: nat, st: State)
    requires Good(st) && env < |st.frames| && items != [] && f <= g
    requires EvalBinary(f, items, env, st).res != Fail(OutOfFuel)
    ensures EvalBinary(g, items, env, st) == EvalBinary(f, items, env, st)
    decreases f, SizeSeq(items), 2
  {
    if |items| == 3 && Lookup(st.frames, env, items[0]).Ok? {
      var op := Lookup(st.frames, env, items[0]).value;
      var a := Eval(f, items[1], env, st);
      EvalMono(f, g, items[1], env, st);
      if a.res.Ok? {
        var b := Eval(f, items[2], env, a.st);
        EvalMono(f, g, items[2], env, a.st);
        if b.res.Ok? {
          GrowsTrans(st, a.st, b.st);
          InvokeMono(f, g, op, [a.res.value, b.res.value], b.st);
        }
      }
    }
  }

  lemma {:induction false} VariadicMono(f: nat, g: nat, items: seq<Expr>, env: nat, st: State)
    requires Good(st) && env < |st.frames| && items != [] && f <= g
    requires EvalVariadic(f, items, env, st).res != Fail(OutOfFuel)
    ensures EvalVariadic(g, items, env, st) == EvalVariadic(f, items, env, st)
    decreases f, SizeSeq(items), 2
  {
    var vs := EvalSeq(f, items[1..], env, st);
    SeqMono(f, g, items[1..], env, st);
    if vs.res.Ok? && Lookup(vs.st.frames, env, items[0]).Ok? {
      InvokeMono(f, g, Lookup(vs.st.frames, env, items[0]).value, vs.res.value, vs.st);
    }
  }

  lemma {:induction false} SeqMono(f: nat, g: nat, es: seq<Expr>, env: nat, st: State)
    requires Good(st) && env < |st.frames| && f <= g
    requires EvalSeq(f, es, env, st).res != Fail(OutOfFuel)
    ensures EvalSeq(g, es, env, st) == EvalSeq(f, es, env, st)
    decreases f, SizeSeq(es), 2
  {
    if es != [] {
      var h := Eval(f, es[0], env, st);
      EvalMono(f, g, es[0], env, st);
      if h.res.Ok? {
        SeqMono(f, g, es[1..], env, h.st);
      }
    }
  }

  lemma {:induction false} InvokeMono(f: nat, g: nat, p: Value, args: seq<Value>, st: State)
    requires Good(st) && ValueIn(p, |st.frames|) && f <= g
    requires forall v :: v in args ==> ValueIn(v, |st.frames|)
    requires Invoke(f, p, args, st).res != Fail(OutOfFuel)
    ensures Invoke(g, p, args, st) == Invoke(f, p, args, st)
    decreases f, 0, 1
  {
    if p.Closure? {
      CallMono(f, g, p, args, st);
    }
  }

  lemma {:induction false} CallMono(f: nat, g: nat, proc: Value, args: seq<Value>, st: State)
    requires Good(st) && proc.Closure? && proc.frame < |st.frames| && f <= g
    requires Call(f, proc, args, st).res != Fail(OutOfFuel)
    ensures Call(g, proc, args, st) == Call(f, proc, args, st)
    decreases f, 0, 0
  {
    assert f > 0;
    if |args| == 1 && Items(proc.params).Some? && ValueItems(args[0]).Some? {
      var m := st.frames[proc.frame].bindings;
      var u := ZipUpdate(m, Items(proc.params).value, ValueItems(args[0]).value);
      if u.Ok? {
        ZipUpdateValues(m, Items(proc.params).value, ValueItems(args[0]).value);
        SetBindingsWellFormed(st.frames, proc.frame, u.value);
        EvalMono(f - 1, g - 1, proc.body, proc.frame, State(SetBindings(st.frames, proc.frame, u.value), st.out));
      }
    }
  }
}
