/**
 * The parts of core/evaluator.py that change things in place: `define`
 * writing into the current `Env`, a Procedure creating its frame and
 * writing its arguments into it on every call, and `eval_all` overwriting
 * a list element by element. Each method works on the frames of an
 * `Arena` and is proved to end in the state that the evaluator functions
 * describe.
 */
module Runtime {
  import opened Basics
  import opened Types
  import opened Environment
  import opened Evaluator

  /** `Procedure(params, body, env)`: allocates the frame the procedure will
      use for every call. */
  method NewProcedure(heap: Arena, params: Expr, body: Expr, env: nat) returns (p: Value)
    requires heap.Valid() && env < |heap.frames|
    modifies heap
    ensures heap.Valid()
    ensures p == Closure(params, body, |old(heap.frames)|)
    ensures heap.frames == old(heap.frames) + [Frame(map[], Some(env))]
    ensures forall out :: EvalFun([Sym("fun"), params, body], env, State(old(heap.frames), out)) == Outcome(Ok(p), State(heap.frames, out))
  {
    assert ZipUpdate(map[], [], []) == Ok(map[]);
    var r := heap.NewEnv([], [], Some(env));
    p := Closure(params, body, r.value);
  }

  /** `env[var_name] = eval(var_value, env)` followed by the None that the
      `define` form yields. */
  method Define(heap: Arena, fuel: nat, env: nat, name: Expr, value: Expr, out: seq<string>)
    returns (r: Result<Value, Error>, out': seq<string>)
    requires heap.Valid() && env < |heap.frames|
    modifies heap
    ensures heap.Valid()
    ensures EvalDefine(fuel, [Sym("define"), name, value], env, State(old(heap.frames), out)) == Outcome(r, State(heap.frames, out'))
  {
    var o := Eval(fuel, value, env, State(heap.frames, out));
    heap.frames, out' := o.st.frames, o.st.out;
    if o.res.Fail? {
      r := Fail(o.res.error);
    } else if name.List? {
      r := Fail(Unhashable);
    } else {
      heap.Bind(env, name, o.res.value);
      r := Ok(Nothing);
    }
  }

  /** `proc(args)`: `self.env.update(zip(self.params, args))` on the
      captured frame, then `eval(self.body, self.env)`. */
  method CallProcedure(heap: Arena, fuel: nat, proc: Value, args: seq<Value>, out: seq<string>)
    returns (r: Result<Value, Error>, out': seq<string>)
    requires heap.Valid() && proc.Closure? && proc.frame < |heap.frames|
    modifies heap
    ensures heap.Valid()
    ensures Call(fuel, proc, args, State(old(heap.frames), out)) == Outcome(r, State(heap.frames, out'))
  {
    out' := out;
    if fuel == 0 {
      return Fail(OutOfFuel), out';
    }
    if |args| != 1 {
      return Fail(WrongArgCount), out';
    }
    var ks, vs := Items(proc.params), ValueItems(args[0]);
    if ks.None? || vs.None? {
      return Fail(NotIterable), out';
    }
    var u := heap.Update(proc.frame, ks.value, vs.value);
    if u.Fail? {
      return Fail(u.error), out';
    }
    var o := Eval(fuel - 1, proc.body, proc.frame, State(heap.frames, out));
    heap.frames, out' := o.st.frames, o.st.out;
    r := o.res;
  }

  /** The expressions held by a list of tokens. */
  function Exprs(vs: seq<Value>): (es: seq<Expr>)
    requires forall k :: 0 <= k < |vs| ==> vs[k].Data?
    ensures |es| == |vs| && forall k :: 0 <= k < |vs| ==> Data(es[k]) == vs[k]
  {
    seq(|vs|, k requires 0 <= k < |vs| => vs[k].e)
  }

  /** Evaluating `a + b` is evaluating `a` and then `b` from the state `a`
      left behind. */
  lemma {:induction false} EvalSeqAppend(fuel: nat, a: seq<Expr>, b: seq<Expr>, env: nat, st: State)
    requires Good(st) && env < |st.frames|
    ensures var p := EvalSeq(fuel, a, env, st);
            EvalSeq(fuel, a + b, env, st) ==
              if p.res.Fail? then p
              else
                var q := EvalSeq(fuel, b, env, p.st);
                if q.res.Fail? then q else Outcome(Ok(p.res.value + q.res.value), q.st)
    decreases |a|
  {
    if a != [] {
      var h := Eval(fuel, a[0], env, st);
      if h.res.Ok? {
        EvalSeqAppend(fuel, a[1..], b, env, h.st);
      }
      EvalSeqAppendStep(fuel, a, b, env, st);
    } else {
      assert a + b == b;
      var q := EvalSeq(fuel, b, env, st);
      assert q.res.Ok? ==> [] + q.res.value == q.res.value;
    }
  }

  /** The step of `EvalSeqAppend`: the statement for `a` from the one for
      the rest of `a`, started where the first element left off. */
  lemma EvalSeqAppendStep(fuel: nat, a: seq<Expr>, b: seq<Expr>, env: nat, st: State)
    requires Good(st) && env < |st.frames| && a != []
    requires var h := Eval(fuel, a[0], env, st);
             h.res.Ok? ==>
               var p := EvalSeq(fuel, a[1..], env, h.st);
               EvalSeq(fuel, a[1..] + b, env, h.st) ==
                 if p.res.Fail? then p
                 else
                   var q := EvalSeq(fuel, b, env, p.st);
                   if q.res.Fail? then q else Outcome(Ok(p.res.value + q.res.value), q.st)
    ensures var p := EvalSeq(fuel, a, env, st);
            EvalSeq(fuel, a + b, env, st) ==
              if p.res.Fail? then p
              else
                var q := EvalSeq(fuel, b, env, p.st);
                if q.res.Fail? then q else Outcome(Ok(p.res.value + q.res.value), q.st)
  {
    assert (a + b)[0] == a[0] && (a + b)[1..] == a[1..] + b;
    var h := Eval(fuel, a[0], env, st);
    if h.res.Ok? {
      var t := EvalSeq(fuel, a[1..], env, h.st);
      if t.res.Ok? {
        var q := EvalSeq(fuel, b, env, t.st);
        if q.res.Ok? {
          assert [h.res.value] + (t.res.value + q.res.value) == ([h.res.value] + t.res.value) + q.res.value;
        }
      }
    }
  }

  /** One more expression: the values so far, then the value of `es[i]`. */
  lemma EvalSeqSnoc(fuel: nat, es: seq<Expr>, i: nat, env: nat, st: State)
    requires Good(st) && env < |st.frames| && i < |es|
    requires EvalSeq(fuel, es[..i], env, st).res.Ok?
    ensures var p := EvalSeq(fuel, es[..i], env, st);
            var o := Eval(fuel, es[i], env, p.st);
            EvalSeq(fuel, es[..i + 1], env, st) ==
              if o.res.Fail? then Outcome(Fail(o.res.error), o.st)
              else Outcome(Ok(p.res.value + [o.res.value]), o.st)
  {
    EvalSeqAppend(fuel, es[..i], [es[i]], env, st);
    assert es[..i + 1] == es[..i] + [es[i]];
    var p := EvalSeq(fuel, es[..i], env, st);
    var o := Eval(fuel, es[i], env, p.st);
    assert [es[i]][0] == es[i] && [es[i]][1..] == [];
    if o.res.Ok? {
      assert EvalSeq(fuel, [es[i]], env, p.st) == Outcome(Ok([o.res.value] + []), o.st);
      assert [o.res.value] + [] == [o.res.value];
    }
  }

  /** Once a prefix fails, the whole sequence fails in the same way. */
  lemma EvalSeqStops(fuel: nat, es: seq<Expr>, i: nat, env: nat, st: State)
    requires Good(st) && env < |st.frames| && i <= |es|
    requires EvalSeq(fuel, es[..i], env, st).res.Fail?
    ensures EvalSeq(fuel, es, env, st) == EvalSeq(fuel, es[..i], env, st)
  {
    EvalSeqAppend(fuel, es[..i], es[i..], env, st);
    assert es == es[..i] + es[i..];
  }

  /** `eval_all(exps, env)`: every element, left to right, is replaced by
      its value; an error stops the loop. */
  method EvalAll(heap: Arena, fuel: nat, exps: array<Value>, env: nat, out: seq<string>)
    returns (r: Result<(), Error>, out': seq<string>)
    requires heap.Valid() && env < |heap.frames|
    requires forall k :: 0 <= k < exps.Length ==> exps[k].Data?
    modifies heap, exps
    ensures heap.Valid()
    ensures var o := EvalSeq(fuel, Exprs(old(exps[..])), env, State(old(heap.frames), out));
            && heap.frames == o.st.frames && out' == o.st.out
            && (o.res.Ok? ==> r == Ok(()) && exps[..] == o.res.value)
            && (o.res.Fail? ==> r == Fail(o.res.error))
  {
    ghost var es := Exprs(exps[..]);
    ghost var st0 := State(heap.frames, out);
    out' := out;
    var i := 0;
    while i < exps.Length
      invariant 0 <= i <= exps.Length
      invariant heap.Valid() && env < |heap.frames|
      invariant forall k :: i <= k < exps.Length ==> exps[k] == Data(es[k])
      invariant EvalSeq(fuel, es[..i], env, st0) == Outcome(Ok(exps[..i]), State(heap.frames, out'))
    {
      ghost var done := exps[..i];
      var o := Eval(fuel, exps[i].e, env, State(heap.frames, out'));
      EvalSeqSnoc(fuel, es, i, env, st0);
      heap.frames, out' := o.st.frames, o.st.out;
      if o.res.Fail? {
        EvalSeqStops(fuel, es, i + 1, env, st0);
        return Fail(o.res.error), out';
      }
      exps[i] := o.res.value;
      assert exps[..i + 1] == done + [o.res.value];
      i := i + 1;
    }
    assert es[..i] == es;
    assert exps[..i] == exps[..];
    r := Ok(());
  }
}
