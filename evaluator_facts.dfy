/**
 * What `eval` of core/evaluator.py does, stated as lemmas over the
 * evaluator functions.
 */
module EvaluatorFacts {
  import opened Basics
  import opened Types
  import opened Primitives
  import opened Environment
  import opened Evaluator

  /** The state right after `standard_env()`: one frame, nothing printed. */
  function StandardState(): (st: State)
    ensures |st.frames| == 1 && st.frames[0] == Frame(StandardBindings, None) && st.out == []
  {
    State([Frame(StandardBindings, None)], [])
  }

  lemma StandardStateGood()
    ensures Good(StandardState())
  {
    StandardEnvExact();
    AppendFrame([], Frame(StandardBindings, None));
    assert [] + [Frame(StandardBindings, None)] == StandardState().frames;
  }

  /** The standard frame binds a reserved word to its table entry. */
  lemma StandardEntry(w: string)
    requires w in ReservedWords
    ensures Sym(w) in StandardBindings && StandardBindings[Sym(w)] == ReservedWords[w]
  {
    StandardEnvExact();
  }

  /** A reserved word looked up from the root frame gives its table entry. */
  lemma StandardLookup(fs: seq<Frame>, w: string)
    requires WellFormed(fs) && |fs| >= 1 && fs[0] == Frame(StandardBindings, None) && w in ReservedWords
    ensures Lookup(fs, 0, Sym(w)) == Ok(ReservedWords[w])
  {
    StandardEnvExact();
  }

  /** A number evaluates to itself and a symbol to its binding in the
      innermost frame of the chain that binds it; an unbound symbol raises
      UndefinedSymbol. Neither changes the state. */
  lemma EvalAtom(fuel: nat, e: Expr, env: nat, st: State)
    requires Good(st) && env < |st.frames| && !e.List?
    ensures var r := Eval(fuel, e, env, st);
            && r.st == st
            && (e.Num? ==> r.res == Ok(Int(e.n)))
            && (e.Sym? ==> (r.res == Fail(UndefinedSymbol) <==> UnboundOn(st.frames, Chain(st.frames, env), e)))
            && (e.Sym? && r.res.Ok? ==>
                  exists k :: 0 <= k < |Chain(st.frames, env)| &&
                    var j := Chain(st.frames, env)[k];
                    && e in st.frames[j].bindings && r.res.value == st.frames[j].bindings[e]
                    && UnboundOn(st.frames, Chain(st.frames, env)[..k], e))
  {
    if e.Sym? {
      FindNone(st.frames, env, e);
      if Find(st.frames, env, e).Some? {
        var k := FindInnermost(st.frames, env, e);
        var c := Chain(st.frames, env);
        assert c[k] == Find(st.frames, env, e).value;
      }
    }
  }

  /** `if` evaluates its condition and then exactly one branch, in the state
      the condition left behind; the branch not taken plays no part. */
  lemma IfLazy(fuel: nat, c: Expr, t: Expr, f: Expr, other: Expr, env: nat, st: State)
    requires Good(st) && env < |st.frames|
    ensures var co := Eval(fuel, c, env, st);
            var r := Eval(fuel, List([Sym("if"), c, t, f]), env, st);
            && (co.res.Fail? ==> r == Outcome(Fail(co.res.error), co.st))
            && (co.res.Ok? && Truthy(co.res.value) ==>
                  r == Eval(fuel, t, env, co.st) && r == Eval(fuel, List([Sym("if"), c, t, other]), env, st))
            && (co.res.Ok? && !Truthy(co.res.value) ==>
                  r == Eval(fuel, f, env, co.st) && r == Eval(fuel, List([Sym("if"), c, other, f]), env, st))
  {
    assert "if" in ReservedWords;
  }

  /** `define` evaluates the value, then binds the name in the current frame
      only, and yields None; a list as the name is unhashable. */
  lemma DefineBindsHere(fuel: nat, name: Expr, x: Expr, env: nat, st: State)
    requires Good(st) && env < |st.frames|
    ensures var v := Eval(fuel, x, env, st);
            var r := Eval(fuel, List([Sym("define"), name, x]), env, st);
            && (r.res.Ok? <==> v.res.Ok? && !name.List?)
            && (v.res.Ok? && name.List? ==> r.res == Fail(Unhashable))
            && (r.res.Ok? ==>
                  && r.res.value == Nothing && r.st.out == v.st.out
                  && |r.st.frames| == |v.st.frames|
                  && r.st.frames[env].bindings == v.st.frames[env].bindings[name := v.res.value]
                  && (forall i :: 0 <= i < |v.st.frames| && i != env ==> r.st.frames[i] == v.st.frames[i])
                  && Lookup(r.st.frames, env, name) == Ok(v.res.value))
  {
    assert "define" in ReservedWords;
    var v := Eval(fuel, x, env, st);
    if v.res.Ok? && !name.List? {
      var fs := Assign(v.st.frames, env, name, v.res.value);
      AssignWellFormed(v.st.frames, env, name, v.res.value);
      FindLocal(fs, env, name);
    }
  }

  /** `fun` adds one frame, empty and enclosed by the defining frame, and
      yields a procedure over it; looking anything up from the new frame
      gives what the defining frame gives. */
  lemma FunFresh(fuel: nat, params: Expr, body: Expr, env: nat, st: State)
    requires Good(st) && env < |st.frames|
    ensures var n := |st.frames|;
            var r := Eval(fuel, List([Sym("fun"), params, body]), env, st);
            && r == Outcome(Ok(Closure(params, body, n)), State(st.frames + [Frame(map[], Some(env))], st.out))
            && forall key :: Lookup(r.st.frames, n, key) == Lookup(st.frames, env, key)
  {
    assert "fun" in ReservedWords;
    var f := Frame(map[], Some(env));
    var fs := st.frames + [f];
    AppendFrame(st.frames, f);
    forall key ensures Lookup(fs, |st.frames|, key) == Lookup(st.frames, env, key) {
      assert fs[|st.frames|] == f;
      FindExtend(st.frames, f, env, key);
    }
  }

  /** A list whose head is neither a list nor a reserved word, and a list
      headed by `#t` or `#f`, yield None and change nothing: a call by name
      such as `(f 3)` does not call `f`. */
  lemma FallThrough(fuel: nat, items: seq<Expr>, env: nat, st: State)
    requires Good(st) && env < |st.frames| && items != []
    requires (!items[0].List? && !(items[0].Sym? && items[0].name in ReservedWords))
             || items[0] == Sym("#t") || items[0] == Sym("#f")
    ensures Eval(fuel, List(items), env, st) == Outcome(Ok(Nothing), st)
  {
  }

  /** Inline application passes the argument expressions unevaluated:
      `((fun (p) p) a)` yields the expression `a` itself, whatever it is,
      even an unbound symbol. */
  lemma InlineUnevaluated(fuel: nat, a: Expr, env: nat, st: State)
    requires Good(st) && env < |st.frames| && fuel >= 1
    ensures Eval(fuel, List([List([Sym("fun"), List([Sym("p")]), Sym("p")]), a]), env, st).res == Ok(Data(a))
  {
    var head := List([Sym("fun"), List([Sym("p")]), Sym("p")]);
    var items := [head, a];
    FunFresh(fuel, List([Sym("p")]), Sym("p"), env, st);
    var f := Eval(fuel, head, env, st);
    var n := |st.frames|;
    assert f.res.value == Closure(List([Sym("p")]), Sym("p"), n);
    assert items[1..] == [a];
    var arg := Data(List([a]));
    var vi := ValueItems(arg);
    assert |vi.value| == 1 && vi.value[0] == Data(a);
    assert vi.value == [Data(a)];
    var ki := Items(List([Sym("p")]));
    assert ki.value == [Sym("p")];
    var m := f.st.frames[n].bindings;
    assert m == map[];
    assert [Sym("p")][1..] == [] && [Data(a)][1..] == [];
    assert ZipUpdate(m, [Sym("p")], [Data(a)]) == Ok(map[Sym("p") := Data(a)]);
    SetBindingsWellFormed(f.st.frames, n, map[Sym("p") := Data(a)]);
    var st' := State(SetBindings(f.st.frames, n, map[Sym("p") := Data(a)]), f.st.out);
    assert Find(st'.frames, n, Sym("p")) == Some(n);
    assert Eval(fuel - 1, Sym("p"), n, st').res == Ok(Data(a));
    assert Call(fuel, f.res.value, [arg], f.st).res == Ok(Data(a));
    assert Invoke(fuel, f.res.value, [arg], f.st).res == Ok(Data(a));
    assert EvalInline(fuel, items, env, st).res == Ok(Data(a));
  }

  /** The integers of a sequence of number literals. */
  function Numerals(ns: seq<int>): (es: seq<Expr>)
    ensures |es| == |ns| && forall k :: 0 <= k < |ns| ==> es[k] == Num(ns[k])
  {
    seq(|ns|, k requires 0 <= k < |ns| => Num(ns[k]))
  }

  function Ints(ns: seq<int>): (vs: seq<Value>)
    ensures |vs| == |ns| && forall k :: 0 <= k < |ns| ==> vs[k] == Int(ns[k])
  {
    seq(|ns|, k requires 0 <= k < |ns| => Int(ns[k]))
  }

  /** The sum of a sequence of integers. */
  function SumOf(ns: seq<int>): int
  {
    if ns == [] then 0 else ns[0] + SumOf(ns[1..])
  }

  /** Evaluating `[e] + es`: `e` first, then the rest from the state it left. */
  lemma EvalSeqCons(fuel: nat, e: Expr, es: seq<Expr>, env: nat, st: State)
    requires Good(st) && env < |st.frames|
    ensures var h := Eval(fuel, e, env, st);
            h.res.Ok? ==>
              EvalSeq(fuel, [e] + es, env, st) ==
                var t := EvalSeq(fuel, es, env, h.st);
                if t.res.Fail? then Outcome(Fail(t.res.error), t.st) else Outcome(Ok([h.res.value] + t.res.value), t.st)
  {
    assert ([e] + es)[0] == e && ([e] + es)[1..] == es;
  }

  /** Number literals evaluate to their integers without changing the state. */
  lemma {:induction false} EvalNumerals(fuel: nat, ns: seq<int>, env: nat, st: State)
    requires Good(st) && env < |st.frames|
    ensures EvalSeq(fuel, Numerals(ns), env, st) == Outcome(Ok(Ints(ns)), st)
    decreases |ns|
  {
    var es := Numerals(ns);
    if ns != [] {
      assert es[0] == Num(ns[0]);
      assert es[1..] == Numerals(ns[1..]);
      EvalNumerals(fuel, ns[1..], env, st);
      assert Ints(ns) == [Int(ns[0])] + Ints(ns[1..]);
    }
  }

  lemma {:induction false} SumOfInts(ns: seq<int>)
    ensures AllNumeric(Ints(ns)) && Sum(Ints(ns)) == SumOf(ns)
    decreases |ns|
  {
    if ns != [] {
      SumOfInts(ns[1..]);
      assert Ints(ns)[1..] == Ints(ns[1..]);
    }
  }

  /** `(+ n1 n2 ...)` over two or more number literals is their sum, when
      `+` resolves to the primitive; nothing else changes. */
  lemma PlusOfNumerals(fuel: nat, ns: seq<int>, env: nat, st: State)
    requires Good(st) && env < |st.frames| && |ns| >= 2
    requires Lookup(st.frames, env, Sym("+")) == Ok(Builtin(Plus))
    ensures Eval(fuel, List([Sym("+")] + Numerals(ns)), env, st) == Outcome(Ok(Int(SumOf(ns))), st)
  {
    var items := [Sym("+")] + Numerals(ns);
    assert items[0] == Sym("+") && items[1..] == Numerals(ns);
    VariadicDispatch(fuel, items, env, st);
    EvalNumerals(fuel, ns, env, st);
    SumOfInts(ns);
    PlusFolds(Ints(ns), [], st.out);
    assert Ints(ns) + [] == Ints(ns);
    assert Invoke(fuel, Builtin(Plus), Ints(ns), st) == Outcome(Ok(Int(SumOf(ns))), st);
    assert EvalVariadic(fuel, items, env, st) == Outcome(Ok(Int(SumOf(ns))), st);
  }

  /** The cases of the evaluator test, in the state after `standard_env()`.
      The code yields None for `[1]` and `["#t"]`, where the test expects
      1 and True. */
  lemma EvalTestCases(fuel: nat)
    ensures Good(StandardState())
    ensures Eval(fuel, Num(1), 0, StandardState()).res == Ok(Int(1))
    ensures Eval(fuel, Sym("#t"), 0, StandardState()).res == Ok(Bool(true))
    ensures Eval(fuel, List([Sym("+"), Num(1), Num(2)]), 0, StandardState()).res == Ok(Int(3))
    ensures Eval(fuel, List([Num(1)]), 0, StandardState()).res == Ok(Nothing)
    ensures Eval(fuel, List([Sym("#t")]), 0, StandardState()).res == Ok(Nothing)
  {
    var st := StandardState();
    StandardStateGood();
    StandardLookup(st.frames, "#t");
    StandardLookup(st.frames, "+");
    assert [1, 2][1..] == [2] && [2][1..] == [];
    assert SumOf([1, 2]) == 3;
    assert [Sym("+")] + Numerals([1, 2]) == [Sym("+"), Num(1), Num(2)];
    PlusOfNumerals(fuel, [1, 2], 0, st);
    FallThrough(fuel, [Num(1)], 0, st);
    FallThrough(fuel, [Sym("#t")], 0, st);
  }

  // ---------------------------------------------------------------------
  // Procedure calls

  /** A call stops before its body, leaving the state as it was, when the
      fuel is spent, when it is not given exactly one argument list, when
      the parameters or the argument cannot be iterated, and when a zipped
      parameter is a list. */
  lemma CallStops(fuel: nat, proc: Value, args: seq<Value>, st: State)
    requires Good(st) && proc.Closure? && proc.frame < |st.frames|
    ensures fuel == 0 ==> Call(fuel, proc, args, st) == Outcome(Fail(OutOfFuel), st)
    ensures fuel > 0 && |args| != 1 ==> Call(fuel, proc, args, st) == Outcome(Fail(WrongArgCount), st)
    ensures fuel > 0 && |args| == 1 && (Items(proc.params).None? || ValueItems(args[0]).None?) ==>
              Call(fuel, proc, args, st) == Outcome(Fail(NotIterable), st)
    ensures fuel > 0 && |args| == 1 && Items(proc.params).Some? && ValueItems(args[0]).Some? &&
            ZipUpdate(st.frames[proc.frame].bindings, Items(proc.params).value, ValueItems(args[0]).value).Fail? ==>
              Call(fuel, proc, args, st) == Outcome(Fail(Unhashable), st)
  {
    if fuel > 0 && |args| == 1 && Items(proc.params).Some? && ValueItems(args[0]).Some? {
      ZipUpdateOk(st.frames[proc.frame].bindings, Items(proc.params).value, ValueItems(args[0]).value);
    }
  }

  /** Otherwise the parameters are zipped with the items of the argument
      into the frame made when the procedure was created, no frame is
      added, and the body is evaluated in that frame with one unit less
      fuel. */
  lemma CallRunsBody(fuel: nat, proc: Value, a: Value, b: map<Expr, Value>, st: State)
    requires Good(st) && proc.Closure? && proc.frame < |st.frames| && fuel > 0
    requires Items(proc.params).Some? && ValueItems(a).Some?
    requires ZipUpdate(st.frames[proc.frame].bindings, Items(proc.params).value, ValueItems(a).value) == Ok(b)
    ensures Good(State(SetBindings(st.frames, proc.frame, b), st.out))
    ensures Call(fuel, proc, [a], st) == Eval(fuel - 1, proc.body, proc.frame, State(SetBindings(st.frames, proc.frame, b), st.out))
  {
    ZipUpdateValues(st.frames[proc.frame].bindings, Items(proc.params).value, ValueItems(a).value);
    SetBindingsWellFormed(st.frames, proc.frame, b);
  }

  /** The frames the body then runs in. Each zipped parameter holds the
      item of its last pair; every other binding of the procedure's frame,
      among them those that earlier calls stored, is kept; the other frames
      and every outer link are unchanged. */
  lemma CallFrames(proc: Value, a: Value, b: map<Expr, Value>, st: State)
    requires Good(st) && proc.Closure? && proc.frame < |st.frames|
    requires Items(proc.params).Some? && ValueItems(a).Some?
    requires ZipUpdate(st.frames[proc.frame].bindings, Items(proc.params).value, ValueItems(a).value) == Ok(b)
    ensures var ks, vs := Items(proc.params).value, ValueItems(a).value;
            var n := Min(|ks|, |vs|);
            var m := st.frames[proc.frame].bindings;
            var fs := SetBindings(st.frames, proc.frame, b);
            && |fs| == |st.frames|
            && (forall j :: 0 <= j < |fs| && j != proc.frame ==> fs[j] == st.frames[j])
            && fs[proc.frame].outer == st.frames[proc.frame].outer
            && fs[proc.frame].bindings.Keys == m.Keys + (set j | 0 <= j < n :: ks[j])
            && (forall j :: 0 <= j < n && ks[j] !in ks[j + 1..n] ==> fs[proc.frame].bindings[ks[j]] == vs[j])
            && (forall k :: k in m && k !in ks[..n] ==> fs[proc.frame].bindings[k] == m[k])
  {
    ZipUpdateBinds(st.frames[proc.frame].bindings, Items(proc.params).value, ValueItems(a).value);
  }

  /** The state of the procedure test: `standard_env()` and then the frame
      of `Procedure(param, body, env)`. */
  function ProcedureState(): (st: State)
    ensures |st.frames| == 2
  {
    State([Frame(StandardBindings, None), Frame(map[], Some(0))], [])
  }

  lemma ProcedureStateGood()
    ensures Good(ProcedureState())
  {
    StandardEnvExact();
    var fs := ProcedureState().frames;
    assert fs[0].bindings == StandardBindings && fs[1].bindings == map[];
  }

  /** The frames after a call has bound `x` to `n` in the procedure's frame. */
  function BoundState(root: Frame, n: int): (st: State)
    ensures |st.frames| == 2
  {
    State([root, Frame(map[Sym("x") := Int(n)], Some(0))], [])
  }

  /** Calling `(x) -> body` with `[n]` writes `x` into the procedure's own
      frame and evaluates the body there. */
  lemma CallOneParam(root: Frame, body: Expr, n: int)
    requires Good(State([root, Frame(map[], Some(0))], []))
    ensures Good(BoundState(root, n))
    ensures Call(1, Closure(List([Sym("x")]), body, 1), [Data(List([Num(n)]))], State([root, Frame(map[], Some(0))], [])) ==
              Eval(0, body, 1, BoundState(root, n))
  {
    var st := State([root, Frame(map[], Some(0))], []);
    var arg := Data(List([Num(n)]));
    var vi := ValueItems(arg);
    assert |vi.value| == 1 && vi.value[0] == Int(n);
    assert vi.value == [Int(n)];
    assert Items(List([Sym("x")])).value == [Sym("x")];
    assert [Sym("x")][1..] == [] && [Int(n)][1..] == [];
    assert ZipUpdate(map[], [Sym("x")], [Int(n)]) == Ok(map[Sym("x") := Int(n)]);
    SetBindingsWellFormed(st.frames, 1, map[Sym("x") := Int(n)]);
    assert SetBindings(st.frames, 1, map[Sym("x") := Int(n)]) == BoundState(root, n).frames;
  }

  /** In the bound state, `x` is the argument and any other symbol is
      looked up in the root frame. */
  lemma BoundLookup(root: Frame, n: int, w: string, v: Value)
    requires Good(BoundState(root, n)) && w != "x" && Sym(w) in root.bindings && root.bindings[Sym(w)] == v
    ensures Lookup(BoundState(root, n).frames, 1, Sym("x")) == Ok(Int(n))
    ensures Lookup(BoundState(root, n).frames, 1, Sym(w)) == Ok(v)
  {
    var fs := BoundState(root, n).frames;
    assert Sym(w) !in fs[1].bindings;
    assert Find(fs, 1, Sym(w)) == Find(fs, 0, Sym(w));
  }

  /** The operands `x 1` of the `+` body, evaluated where `x` is 5. */
  lemma PlusOperands(root: Frame)
    requires Good(BoundState(root, 5))
    ensures EvalSeq(0, [Sym("x"), Num(1)], 1, BoundState(root, 5)) == Outcome(Ok([Int(5), Int(1)]), BoundState(root, 5))
  {
    var st5 := BoundState(root, 5);
    assert Find(st5.frames, 1, Sym("x")) == Some(1);
    assert Eval(0, Sym("x"), 1, st5) == Outcome(Ok(Int(5)), st5);
    assert Eval(0, Num(1), 1, st5) == Outcome(Ok(Int(1)), st5);
    assert EvalSeq(0, [], 1, st5) == Outcome(Ok([]), st5);
    EvalSeqCons(0, Num(1), [], 1, st5);
    assert [Num(1)] + [] == [Num(1)] && [Int(1)] + [] == [Int(1)];
    EvalSeqCons(0, Sym("x"), [Num(1)], 1, st5);
    assert [Sym("x")] + [Num(1)] == [Sym("x"), Num(1)] && [Int(5)] + [Int(1)] == [Int(5), Int(1)];
  }

  lemma PlusCase(root: Frame)
    requires Good(State([root, Frame(map[], Some(0))], []))
    requires Sym("+") in root.bindings && root.bindings[Sym("+")] == Builtin(Plus)
    ensures Call(1, Closure(List([Sym("x")]), List([Sym("+"), Sym("x"), Num(1)]), 1),
                 [Data(List([Num(5)]))], State([root, Frame(map[], Some(0))], [])).res == Ok(Int(6))
  {
    CallOneParam(root, List([Sym("+"), Sym("x"), Num(1)]), 5);
    BoundLookup(root, 5, "+", Builtin(Plus));
    PlusBody(root);
  }

  /** The body `(+ x 1)`, evaluated where `x` is 5. */
  lemma PlusBody(root: Frame)
    requires Good(BoundState(root, 5))
    requires Lookup(BoundState(root, 5).frames, 1, Sym("+")) == Ok(Builtin(Plus))
    ensures Eval(0, List([Sym("+"), Sym("x"), Num(1)]), 1, BoundState(root, 5)).res == Ok(Int(6))
  {
    var plus := [Sym("+"), Sym("x"), Num(1)];
    var st5 := BoundState(root, 5);
    VariadicDispatch(0, plus, 1, st5);
    assert plus[1..] == [Sym("x"), Num(1)];
    PlusOperands(root);
    PlusFiveOne(st5.out);
    assert Invoke(0, Builtin(Plus), [Int(5), Int(1)], st5).res == Ok(Int(6));
  }

  lemma PlusFiveOne(out: seq<string>)
    ensures ApplyPrim(Plus, [Int(5), Int(1)], out) == Applied(Ok(Int(6)), out)
  {
    assert [Int(5)][1..] == [] && [Int(1)][1..] == [];
    PlusFolds([Int(5)], [Int(1)], out);
    assert [Int(5)] + [Int(1)] == [Int(5), Int(1)];
  }

  lemma ModCase(root: Frame)
    requires Good(State([root, Frame(map[], Some(0))], []))
    requires Sym("mod") in root.bindings && root.bindings[Sym("mod")] == Builtin(Mod)
    ensures Call(1, Closure(List([Sym("x")]), List([Sym("mod"), Sym("x"), Num(2)]), 1),
                 [Data(List([Num(8)]))], State([root, Frame(map[], Some(0))], [])).res == Ok(Int(0))
  {
    CallOneParam(root, List([Sym("mod"), Sym("x"), Num(2)]), 8);
    BoundLookup(root, 8, "mod", Builtin(Mod));
    ModBody(root);
  }

  /** The body `(mod x 2)`, evaluated where `x` is 8. */
  lemma ModBody(root: Frame)
    requires Good(BoundState(root, 8))
    requires Lookup(BoundState(root, 8).frames, 1, Sym("mod")) == Ok(Builtin(Mod))
    requires Lookup(BoundState(root, 8).frames, 1, Sym("x")) == Ok(Int(8))
    ensures Eval(0, List([Sym("mod"), Sym("x"), Num(2)]), 1, BoundState(root, 8)).res == Ok(Int(0))
  {
    var st8 := BoundState(root, 8);
    assert Eval(0, Sym("x"), 1, st8) == Outcome(Ok(Int(8)), st8);
    assert Eval(0, Num(2), 1, st8) == Outcome(Ok(Int(2)), st8);
    BinaryForm(0, "mod", Sym("x"), Num(2), Int(8), Int(2), Mod, 1, st8);
    assert ApplyPrim(Mod, [Int(8), Int(2)], []).res == Ok(Int(0));
  }

  /** The cases of the procedure test: `(x) -> (+ x 1)` on `[5]` gives 6 and
      `(x) -> (mod x 2)` on `[8]` gives 0. */
  lemma ProcedureTestCases()
    ensures Good(ProcedureState())
    ensures Call(1, Closure(List([Sym("x")]), List([Sym("+"), Sym("x"), Num(1)]), 1),
                 [Data(List([Num(5)]))], ProcedureState()).res == Ok(Int(6))
    ensures Call(1, Closure(List([Sym("x")]), List([Sym("mod"), Sym("x"), Num(2)]), 1),
                 [Data(List([Num(8)]))], ProcedureState()).res == Ok(Int(0))
  {
    ProcedureStateGood();
    var root := Frame(StandardBindings, None);
    StandardEntry("+");
    StandardEntry("mod");
    PlusCase(root);
    ModCase(root);
  }

  // ---------------------------------------------------------------------
  // One frame per procedure, shared by all its calls

  /** A procedure `(x y) -> y` over frame 1 of an otherwise empty arena. */
  function PairProc(): Value
  {
    Closure(List([Sym("x"), Sym("y")]), Sym("y"), 1)
  }

  function EmptyPair(): (st: State)
    ensures |st.frames| == 2
  {
    State([Frame(map[], None), Frame(map[], Some(0))], [])
  }

  lemma EmptyPairGood()
    ensures Good(EmptyPair())
  {
  }

  /** The argument list `[n1, ...]` given to a call. */
  function ArgList(ns: seq<int>): Value
  {
    Data(List(Numerals(ns)))
  }

  lemma ArgItems(ns: seq<int>)
    ensures ValueItems(ArgList(ns)) == Some(Ints(ns))
  {
    var vi := ValueItems(ArgList(ns));
    assert |vi.value| == |ns|;
    assert forall k :: 0 <= k < |ns| ==> vi.value[k] == Int(ns[k]);
    assert vi.value == Ints(ns);
  }

  /** The first call binds both parameters and yields `y`. */
  lemma FirstCall()
    ensures Good(EmptyPair())
    ensures var r := Call(1, PairProc(), [ArgList([1, 2])], EmptyPair());
            && r.res == Ok(Int(2))
            && r.st.frames == [Frame(map[], None), Frame(map[Sym("x") := Int(1), Sym("y") := Int(2)], Some(0))]
  {
    ArgItems([1, 2]);
    var ks := [Sym("x"), Sym("y")];
    var vs := [Int(1), Int(2)];
    assert Ints([1, 2]) == vs;
    assert ks[1..] == [Sym("y")] && vs[1..] == [Int(2)] && ks[1..][1..] == [] && vs[1..][1..] == [];
    var b := map[Sym("x") := Int(1), Sym("y") := Int(2)];
    assert ZipUpdate(map[], ks, vs) == Ok(b);
    SetBindingsWellFormed(EmptyPair().frames, 1, b);
    var st' := State(SetBindings(EmptyPair().frames, 1, b), []);
    assert Find(st'.frames, 1, Sym("y")) == Some(1);
  }

  /** The frame after the first call, in which `x` is 1 and `y` is 2. */
  function AfterFirst(): (st: State)
    ensures |st.frames| == 2
  {
    State([Frame(map[], None), Frame(map[Sym("x") := Int(1), Sym("y") := Int(2)], Some(0))], [])
  }

  /** A second call with the shorter list `[3]` rebinds only `x`: `y` still
      holds 2 from the first call, since both calls write into the frame
      the procedure made when it was created. */
  lemma SecondCallSeesFirst()
    ensures Good(AfterFirst())
    ensures Call(1, PairProc(), [ArgList([3])], AfterFirst()).res == Ok(Int(2))
  {
    ArgItems([3]);
    var ks := [Sym("x"), Sym("y")];
    var vs := [Int(3)];
    assert Ints([3]) == vs;
    assert ks[1..] == [Sym("y")] && vs[1..] == [];
    var m := AfterFirst().frames[1].bindings;
    var b := m[Sym("x") := Int(3)];
    assert ZipUpdate(m, ks, vs) == Ok(b);
    assert Good(AfterFirst());
    SetBindingsWellFormed(AfterFirst().frames, 1, b);
    var st' := State(SetBindings(AfterFirst().frames, 1, b), []);
    assert Sym("y") in b && b[Sym("y")] == Int(2);
    assert Find(st'.frames, 1, Sym("y")) == Some(1);
  }

  /** The same call on a procedure that was never called before finds no `y`. */
  lemma FreshCallLacksY()
    ensures Good(EmptyPair())
    ensures Call(1, PairProc(), [ArgList([3])], EmptyPair()).res == Fail(UndefinedSymbol)
  {
    ArgItems([3]);
    var ks := [Sym("x"), Sym("y")];
    var vs := [Int(3)];
    assert Ints([3]) == vs;
    assert ks[1..] == [Sym("y")] && vs[1..] == [];
    var b := map[Sym("x") := Int(3)];
    assert ZipUpdate(map[], ks, vs) == Ok(b);
    SetBindingsWellFormed(EmptyPair().frames, 1, b);
    var st' := State(SetBindings(EmptyPair().frames, 1, b), []);
    assert Sym("y") !in st'.frames[1].bindings && Sym("y") !in st'.frames[0].bindings;
    assert Find(st'.frames, 1, Sym("y")) == None;
  }

  // ---------------------------------------------------------------------
  // Operators come from the environment, operands are all evaluated

  /** A root frame binding some reserved words to their lambdas. */
  ghost predicate Binds(root: Frame, w: string, v: Value)
  {
    Sym(w) in root.bindings && root.bindings[Sym(w)] == v
  }

  /** The operator of a primitive form is its innermost binding: with `-`
      rebound to the `+` lambda in the inner frame, `(- 1 2)` gives 3
      there, while the root frame still gives -1. */
  lemma OperatorShadowing(root: Frame)
    requires root.outer == None && Binds(root, "-", Builtin(Minus))
    requires forall k :: k in root.bindings ==> !root.bindings[k].Closure?
    ensures var st := State([root, Frame(map[Sym("-") := Builtin(Plus)], Some(0))], []);
            && Good(st)
            && Eval(0, List([Sym("-"), Num(1), Num(2)]), 1, st).res == Ok(Int(3))
            && Eval(0, List([Sym("-"), Num(1), Num(2)]), 0, st).res == Ok(Int(-1))
  {
    ShadowStateGood(root);
    ShadowInner(root);
    ShadowRoot(root);
  }

  /** The root frame and an inner frame that rebinds `-` to the `+` lambda. */
  function ShadowState(root: Frame): (st: State)
    ensures |st.frames| == 2 && st.frames[0] == root && st.out == []
  {
    State([root, Frame(map[Sym("-") := Builtin(Plus)], Some(0))], [])
  }

  lemma ShadowStateGood(root: Frame)
    requires root.outer == None
    requires forall k :: k in root.bindings ==> !root.bindings[k].Closure?
    ensures Good(ShadowState(root))
  {
    assert ShadowState(root).frames[1].bindings == map[Sym("-") := Builtin(Plus)];
  }

  /** In the inner frame `(- 1 2)` applies the `+` lambda. */
  lemma ShadowInner(root: Frame)
    requires Good(ShadowState(root))
    ensures Eval(0, List([Sym("-"), Num(1), Num(2)]), 1, ShadowState(root)).res == Ok(Int(3))
  {
    var st := ShadowState(root);
    FindLocal(st.frames, 1, Sym("-"));
    BinaryOfNumerals(0, "-", 1, 2, Plus, 1, st);
    assert [Int(1), Int(2)][1..] == [Int(2)] && [Int(2)][1..] == [];
  }

  /** In the root frame `(- 1 2)` still subtracts. */
  lemma ShadowRoot(root: Frame)
    requires Good(ShadowState(root)) && Binds(root, "-", Builtin(Minus))
    ensures Eval(0, List([Sym("-"), Num(1), Num(2)]), 0, ShadowState(root)).res == Ok(Int(-1))
  {
    var st := ShadowState(root);
    FindLocal(st.frames, 0, Sym("-"));
    BinaryOfNumerals(0, "-", 1, 2, Minus, 0, st);
  }

  /** `and` does not short-circuit: `(and #f y)` with `y` unbound raises
      UndefinedSymbol although the first operand is false. */
  lemma AndEvaluatesAll(root: Frame)
    requires root.outer == None && Binds(root, "#f", Bool(false)) && Binds(root, "and", Builtin(And))
    requires Sym("y") !in root.bindings
    requires forall k :: k in root.bindings ==> !root.bindings[k].Closure?
    ensures var st := State([root], []);
            Good(st) && Eval(0, List([Sym("and"), Sym("#f"), Sym("y")]), 0, st).res == Fail(UndefinedSymbol)
  {
    var st := State([root], []);
    assert Good(st);
    var items := [Sym("and"), Sym("#f"), Sym("y")];
    VariadicDispatch(0, items, 0, st);
    assert items[1..] == [Sym("#f")] + [Sym("y")];
    assert Eval(0, Sym("#f"), 0, st) == Outcome(Ok(Bool(false)), st);
    assert Eval(0, Sym("y"), 0, st) == Outcome(Fail(UndefinedSymbol), st);
    EvalSeqCons(0, Sym("#f"), [Sym("y")], 0, st);
    assert [Sym("y")][0] == Sym("y");
    assert EvalSeq(0, [Sym("y")], 0, st).res == Fail(UndefinedSymbol);
    assert EvalVariadic(0, items, 0, st).res == Fail(UndefinedSymbol);
  }

  /** A form headed by `+ * = and or` is evaluated as a variadic primitive. */
  lemma VariadicDispatch(fuel: nat, items: seq<Expr>, env: nat, st: State)
    requires Good(st) && env < |st.frames| && items != [] && items[0].Sym? && IsVariadic(items[0].name)
    ensures Eval(fuel, List(items), env, st) == EvalVariadic(fuel, items, env, st)
  {
    var w := items[0].name;
    assert w in ReservedWords && !items[0].List?;
    assert w != "if" && w != "define" && w != "fun" && !IsUnary(w) && !IsBinary(w);
  }

  /** A form headed by `not`, `print-num` or `print-bool` is evaluated as a
      one-operand primitive. */
  lemma UnaryDispatch(fuel: nat, items: seq<Expr>, env: nat, st: State)
    requires Good(st) && env < |st.frames| && items != [] && items[0].Sym? && IsUnary(items[0].name)
    ensures Eval(fuel, List(items), env, st) == EvalUnary(fuel, items, env, st)
  {
    var w := items[0].name;
    assert w in ReservedWords && !items[0].List?;
    assert w != "if" && w != "define" && w != "fun";
  }

  /** A form headed by `- / mod > <` is evaluated as a two-operand primitive. */
  lemma BinaryDispatch(fuel: nat, items: seq<Expr>, env: nat, st: State)
    requires Good(st) && env < |st.frames| && items != [] && items[0].Sym? && IsBinary(items[0].name)
    ensures Eval(fuel, List(items), env, st) == EvalBinary(fuel, items, env, st)
  {
    var w := items[0].name;
    assert w in ReservedWords && !items[0].List?;
    assert w != "if" && w != "define" && w != "fun" && !IsUnary(w);
  }

  /** `(w x y)`, where `x` and `y` evaluate without changing anything,
      applies whatever `w` is bound to in the innermost frame that binds it
      to the two values, and changes nothing. */
  lemma BinaryForm(fuel: nat, w: string, x: Expr, y: Expr, vx: Value, vy: Value, p: Op, env: nat, st: State)
    requires Good(st) && env < |st.frames| && IsBinary(w)
    requires Lookup(st.frames, env, Sym(w)) == Ok(Builtin(p))
    requires Eval(fuel, x, env, st) == Outcome(Ok(vx), st) && Eval(fuel, y, env, st) == Outcome(Ok(vy), st)
    ensures Eval(fuel, List([Sym(w), x, y]), env, st) == Outcome(ApplyPrim(p, [vx, vy], st.out).res, st)
  {
    BinaryDispatch(fuel, [Sym(w), x, y], env, st);
  }

  /** `(w a b)` over two numerals. */
  lemma BinaryOfNumerals(fuel: nat, w: string, a: int, b: int, p: Op, env: nat, st: State)
    requires Good(st) && env < |st.frames| && IsBinary(w)
    requires Lookup(st.frames, env, Sym(w)) == Ok(Builtin(p))
    ensures Eval(fuel, List([Sym(w), Num(a), Num(b)]), env, st) == Outcome(ApplyPrim(p, [Int(a), Int(b)], st.out).res, st)
  {
    assert Eval(fuel, Num(a), env, st) == Outcome(Ok(Int(a)), st);
    assert Eval(fuel, Num(b), env, st) == Outcome(Ok(Int(b)), st);
    BinaryForm(fuel, w, Num(a), Num(b), Int(a), Int(b), p, env, st);
  }

  /** The two print forms, evaluated in order, print 1 and then 2. */
  lemma PrintsInOrder(root: Frame)
    requires root.outer == None && Binds(root, "print-num", Builtin(PrintNum))
    requires forall k :: k in root.bindings ==> !root.bindings[k].Closure?
    ensures var p1, p2 := List([Sym("print-num"), Num(1)]), List([Sym("print-num"), Num(2)]);
            Good(State([root], [])) &&
            EvalSeq(0, [p1, p2], 0, State([root], [])) == Outcome(Ok([Nothing, Nothing]), State([root], [ShowInt(1), ShowInt(2)]))
  {
    var st := State([root], []);
    var p1, p2 := List([Sym("print-num"), Num(1)]), List([Sym("print-num"), Num(2)]);
    PrintNumCase(root, 1, []);
    var st1 := State([root], [ShowInt(1)]);
    PrintNumCase(root, 2, [ShowInt(1)]);
    var st2 := State([root], [ShowInt(1), ShowInt(2)]);
    assert [ShowInt(1)] + [ShowInt(2)] == [ShowInt(1), ShowInt(2)];
    assert EvalSeq(0, [], 0, st2) == Outcome(Ok([]), st2);
    EvalSeqCons(0, p2, [], 0, st1);
    assert [p2] + [] == [p2] && [Nothing] + [] == [Nothing];
    EvalSeqCons(0, p1, [p2], 0, st);
    assert [p1] + [p2] == [p1, p2] && [Nothing] + [Nothing] == [Nothing, Nothing];
  }

  /** Operands are evaluated left to right before the operator is applied:
      `(+ (print-num 1) (print-num 2))` prints 1 and then 2, and only then
      fails, because `+` cannot add the two None results. */
  lemma OperandsInOrder(root: Frame)
    requires root.outer == None && Binds(root, "print-num", Builtin(PrintNum)) && Binds(root, "+", Builtin(Plus))
    requires forall k :: k in root.bindings ==> !root.bindings[k].Closure?
    ensures var st := State([root], []);
            var r := Eval(0, List([Sym("+"), List([Sym("print-num"), Num(1)]), List([Sym("print-num"), Num(2)])]), 0, st);
            Good(st) && r.res == Fail(BadOperand) && r.st.out == [ShowInt(1), ShowInt(2)]
  {
    var st := State([root], []);
    var p1, p2 := List([Sym("print-num"), Num(1)]), List([Sym("print-num"), Num(2)]);
    PrintsInOrder(root);
    var st2 := State([root], [ShowInt(1), ShowInt(2)]);
    var items := [Sym("+"), p1, p2];
    assert items[1..] == [p1, p2];
    VariadicDispatch(0, items, 0, st);
    assert Lookup(st2.frames, 0, Sym("+")) == Ok(Builtin(Plus));
    NoneSumFails(st2);
    assert EvalVariadic(0, items, 0, st) == Outcome(Fail(BadOperand), st2);
  }

  /** `None+None` is a TypeError: the `+` lambda fails on two None values
      and prints nothing. */
  lemma NoneSumFails(st: State)
    requires Good(st)
    ensures Invoke(0, Builtin(Plus), [Nothing, Nothing], st) == Outcome(Fail(BadOperand), st)
  {
    assert !IsNumeric([Nothing, Nothing][0]);
  }

  /** `(print-num n)` prints the decimal form of `n` and yields None. */
  lemma PrintNumCase(root: Frame, n: int, out: seq<string>)
    requires root.outer == None && Binds(root, "print-num", Builtin(PrintNum))
    requires forall k :: k in root.bindings ==> !root.bindings[k].Closure?
    ensures Good(State([root], out))
    ensures Eval(0, List([Sym("print-num"), Num(n)]), 0, State([root], out)) == Outcome(Ok(Nothing), State([root], out + [ShowInt(n)]))
  {
    var st := State([root], out);
    assert Good(st);
    UnaryDispatch(0, [Sym("print-num"), Num(n)], 0, st);
    FindLocal(st.frames, 0, Sym("print-num"));
    PrintNumForm(n, st);
  }

  /** The one-operand form `(print-num n)` where `print-num` is the
      primitive: one line appended, and None. */
  lemma PrintNumForm(n: int, st: State)
    requires Good(st) && 0 < |st.frames| && Lookup(st.frames, 0, Sym("print-num")) == Ok(Builtin(PrintNum))
    ensures EvalUnary(0, [Sym("print-num"), Num(n)], 0, st) == Outcome(Ok(Nothing), State(st.frames, st.out + [ShowInt(n)]))
  {
    PrintMeaning(n, Nothing, st.out);
    assert Eval(0, Num(n), 0, st) == Outcome(Ok(Int(n)), st);
    assert Invoke(0, Builtin(PrintNum), [Int(n)], st) == Outcome(Ok(Nothing), State(st.frames, st.out + [ShowInt(n)]));
  }

  // ---------------------------------------------------------------------
  // Recursion through `if` does not end

  /** `(if #t f f)` */
  function PickF(): Expr
  {
    List([Sym("if"), Sym("#t"), Sym("f"), Sym("f")])
  }

  /** `f` as `(fun (x) ((if #t f f) x))`, over frame 1. */
  function LoopProc(): Value
  {
    Closure(List([Sym("x")]), List([PickF(), Sym("x")]), 1)
  }

  /** The root frame binds `#t` and `f`, and frame 1, the frame of `f`,
      binds neither. */
  ghost predicate Looping(st: State)
  {
    && Good(st) && |st.frames| >= 2 && st.frames[1].outer == Some(0)
    && Binds(st.frames[0], "#t", Bool(true)) && Binds(st.frames[0], "f", LoopProc())
    && Sym("#t") !in st.frames[1].bindings && Sym("f") !in st.frames[1].bindings
  }

  /** `(if #t f f)` evaluates to `f` and changes nothing. */
  lemma PickFValue(fuel: nat, env: nat, st: State)
    requires Looping(st) && (env == 0 || env == 1)
    ensures Eval(fuel, PickF(), env, st) == Outcome(Ok(LoopProc()), st)
  {
    assert "if" in ReservedWords;
    assert Find(st.frames, env, Sym("#t")) == Some(0);
    assert Find(st.frames, env, Sym("f")) == Some(0);
    assert Eval(fuel, Sym("#t"), env, st) == Outcome(Ok(Bool(true)), st);
    assert Eval(fuel, Sym("f"), env, st) == Outcome(Ok(LoopProc()), st);
    var items := [Sym("if"), Sym("#t"), Sym("f"), Sym("f")];
    assert EvalIf(fuel, items, env, st) == Outcome(Ok(LoopProc()), st);
  }

  /** `((if #t f f) a)` calls `f` again from its own body, so it runs out of
      fuel however much it is given: the computation does not end. */
  lemma {:induction false} Diverges(fuel: nat, a: Expr, env: nat, st: State)
    requires Looping(st) && (env == 0 || env == 1)
    ensures Eval(fuel, List([PickF(), a]), env, st).res == Fail(OutOfFuel)
    decreases fuel
  {
    LoopInline(fuel, a, env, st);
    if fuel > 0 {
      var st' := LoopStep(fuel, a, st);
      Diverges(fuel - 1, Sym("x"), 1, st');
    }
  }

  /** `((if #t f f) a)` calls `f` with the unevaluated list `[a]`. */
  lemma LoopInline(fuel: nat, a: Expr, env: nat, st: State)
    requires Looping(st) && (env == 0 || env == 1)
    ensures Eval(fuel, List([PickF(), a]), env, st) == Call(fuel, LoopProc(), [Data(List([a]))], st)
  {
    var items := [PickF(), a];
    PickFValue(fuel, env, st);
    assert items[1..] == [a];
    assert EvalInline(fuel, items, env, st) == Invoke(fuel, LoopProc(), [Data(List([a]))], st);
  }

  /** One call of `f`: its frame gets `x` bound to the argument, and the
      body `((if #t f f) x)` is evaluated there with one unit less fuel. */
  lemma LoopStep(fuel: nat, a: Expr, st: State) returns (st': State)
    requires Looping(st) && fuel > 0
    ensures st' == State(SetBindings(st.frames, 1, st.frames[1].bindings[Sym("x") := Data(a)]), st.out)
    ensures Looping(st')
    ensures Call(fuel, LoopProc(), [Data(List([a]))], st) == Eval(fuel - 1, List([PickF(), Sym("x")]), 1, st')
  {
    var arg := Data(List([a]));
    var vi := ValueItems(arg);
    assert |vi.value| == 1 && vi.value[0] == Data(a);
    assert vi.value == [Data(a)];
    assert Items(List([Sym("x")])).value == [Sym("x")];
    var m := st.frames[1].bindings;
    assert [Sym("x")][1..] == [] && [Data(a)][1..] == [];
    assert ZipUpdate(m, [Sym("x")], [Data(a)]) == Ok(m[Sym("x") := Data(a)]);
    ZipUpdateValues(m, [Sym("x")], [Data(a)]);
    SetBindingsWellFormed(st.frames, 1, m[Sym("x") := Data(a)]);
    st' := State(SetBindings(st.frames, 1, m[Sym("x") := Data(a)]), st.out);
  }

  /** `(define f (fun (x) ((if #t f f) x)))` in the standard environment,
      followed by `((if #t f f) 3)`: the definition succeeds and the call
      does not end. */
  lemma DivergenceExample(fuel: nat)
    ensures Good(StandardState())
    ensures var def := List([Sym("define"), Sym("f"), List([Sym("fun"), List([Sym("x")]), List([PickF(), Sym("x")])])]);
            var d := Eval(fuel, def, 0, StandardState());
            && d.res == Ok(Nothing) && Looping(d.st)
            && Eval(fuel, List([PickF(), Num(3)]), 0, d.st).res == Fail(OutOfFuel)
  {
    var st := StandardState();
    StandardStateGood();
    var body := List([PickF(), Sym("x")]);
    var fn := List([Sym("fun"), List([Sym("x")]), body]);
    FunFresh(fuel, List([Sym("x")]), body, 0, st);
    DefineBindsHere(fuel, Sym("f"), fn, 0, st);
    var def := List([Sym("define"), Sym("f"), fn]);
    var d := Eval(fuel, def, 0, st);
    var v := Eval(fuel, fn, 0, st);
    assert v.res.value == LoopProc();
    assert v.st.frames == [Frame(StandardBindings, None), Frame(map[], Some(0))];
    StandardEntry("#t");
    assert d.st.frames[0].bindings == StandardBindings[Sym("f") := LoopProc()];
    assert d.st.frames[1] == Frame(map[], Some(0));
    assert Binds(d.st.frames[0], "#t", Bool(true));
    assert Looping(d.st);
    Diverges(fuel, Num(3), 0, d.st);
  }
}
