/**
 * The scopes of core/environment.py. Every `Env` lives in an arena, a
 * sequence of frames, and is known by its index; `outer` is the index of
 * the enclosing frame. An outer frame always comes earlier in the arena
 * than the frames it encloses, so every chain of outer links ends.
 */
module Environment {
  import opened Basics
  import opened Types

  /** One `Env`: its own dictionary and its `outer` link. */
  datatype Frame = Frame(bindings: map<Expr, Value>, outer: Option<nat>)

  /** A closure value refers to a frame of an arena with `n` frames. */
  predicate ValueIn(v: Value, n: nat)
  {
    v.Closure? ==> v.frame < n
  }

  /** The arena invariant: outer links point to earlier frames, and every
      bound closure refers to a frame that exists. */
  ghost predicate WellFormed(fs: seq<Frame>)
  {
    && (forall i :: 0 <= i < |fs| && fs[i].outer.Some? ==> fs[i].outer.value < i)
    && (forall i, k :: 0 <= i < |fs| && k in fs[i].bindings ==> ValueIn(fs[i].bindings[k], |fs|))
  }

  /** `Env.find(var)`: the innermost frame on the outer chain of `i` that
      binds `key`, or None where the code raises UndefinedSymbol. */
  function Find(fs: seq<Frame>, i: nat, key: Expr): (r: Option<nat>)
    requires WellFormed(fs) && i < |fs|
    ensures r.Some? ==> r.value <= i && key in fs[r.value].bindings
    decreases i
  {
    if key in fs[i].bindings then Some(i)
    else
      match fs[i].outer
      case None => None
      case Some(j) => Find(fs, j, key)
  }

  /** `env.find(var)[var]` */
  function Lookup(fs: seq<Frame>, i: nat, key: Expr): (r: Result<Value, Error>)
    requires WellFormed(fs) && i < |fs|
    ensures r.Ok? ==> ValueIn(r.value, |fs|)
    ensures r.Fail? ==> r.error == UndefinedSymbol
  {
    match Find(fs, i, key)
    case Some(j) => Ok(fs[j].bindings[key])
    case None => Fail(UndefinedSymbol)
  }

  /** The frames on the outer chain of `i`, innermost first. */
  ghost function Chain(fs: seq<Frame>, i: nat): (c: seq<nat>)
    requires WellFormed(fs) && i < |fs|
    ensures |c| >= 1 && c[0] == i
    ensures forall k :: 0 <= k < |c| ==> c[k] < |fs|
    ensures forall k :: 0 <= k < |c| - 1 ==> fs[c[k]].outer == Some(c[k + 1])
    ensures fs[c[|c| - 1]].outer == None
    decreases i
  {
    match fs[i].outer
    case None => [i]
    case Some(j) => [i] + Chain(fs, j)
  }

  /** No frame among `c` binds `key`. */
  ghost predicate UnboundOn(fs: seq<Frame>, c: seq<nat>, key: Expr)
    requires forall k :: 0 <= k < |c| ==> c[k] < |fs|
  {
    forall k :: 0 <= k < |c| ==> key !in fs[c[k]].bindings
  }

  /** A chain with one more frame in front is unbound when that frame and
      the rest are. */
  lemma UnboundOnCons(fs: seq<Frame>, i: nat, c: seq<nat>, key: Expr)
    requires i < |fs| && forall k :: 0 <= k < |c| ==> c[k] < |fs|
    ensures UnboundOn(fs, [i] + c, key) <==> key !in fs[i].bindings && UnboundOn(fs, c, key)
  {
    var c2 := [i] + c;
    assert c2[0] == i;
    if key !in fs[i].bindings && UnboundOn(fs, c, key) {
      forall k | 0 <= k < |c2| ensures key !in fs[c2[k]].bindings {
        if k > 0 { assert c2[k] == c[k - 1]; }
      }
    }
    if UnboundOn(fs, c2, key) {
      forall k | 0 <= k < |c| ensures key !in fs[c[k]].bindings {
        assert c2[k + 1] == c[k];
      }
    }
  }

  /** `find` fails exactly when no frame of the outer chain binds the key. */
  lemma {:induction false} FindNone(fs: seq<Frame>, i: nat, key: Expr)
    requires WellFormed(fs) && i < |fs|
    ensures Find(fs, i, key).None? <==> UnboundOn(fs, Chain(fs, i), key)
    decreases i
  {
    var c := Chain(fs, i);
    if key in fs[i].bindings {
      assert key in fs[c[0]].bindings;
    } else if fs[i].outer.Some? {
      var j := fs[i].outer.value;
      FindNone(fs, j, key);
      var c' := Chain(fs, j);
      assert c == [i] + c';
      assert Find(fs, i, key) == Find(fs, j, key);
      UnboundOnCons(fs, i, c', key);
    } else {
      assert c == [i];
    }
  }

  /** When `find` succeeds it returns the first frame of the outer chain
      that binds the key: every frame before it on the chain lacks the key. */
  lemma {:induction false} FindInnermost(fs: seq<Frame>, i: nat, key: Expr) returns (k: nat)
    requires WellFormed(fs) && i < |fs| && Find(fs, i, key).Some?
    ensures k < |Chain(fs, i)| && Chain(fs, i)[k] == Find(fs, i, key).value
    ensures UnboundOn(fs, Chain(fs, i)[..k], key)
    decreases i
  {
    var c := Chain(fs, i);
    if key in fs[i].bindings {
      k := 0;
    } else {
      var j := fs[i].outer.value;
      var k0 := FindInnermost(fs, j, key);
      var c' := Chain(fs, j);
      assert c == [i] + c';
      k := k0 + 1;
      assert c[..k] == [i] + c'[..k0];
      assert forall k' :: 0 < k' < k ==> c[..k][k'] == c'[..k0][k' - 1];
    }
  }

  /** A local binding shadows every outer one: `find` returns `self`. */
  lemma FindLocal(fs: seq<Frame>, i: nat, key: Expr)
    requires WellFormed(fs) && i < |fs| && key in fs[i].bindings
    ensures Find(fs, i, key) == Some(i)
    ensures Lookup(fs, i, key) == Ok(fs[i].bindings[key])
  {
  }

  /** `dict.update(zip(ks, vs))`: the pairs are stored left to right and
      `zip` stops at the shorter input; a list key is unhashable. */
  function ZipUpdate(m: map<Expr, Value>, ks: seq<Expr>, vs: seq<Value>): Result<map<Expr, Value>, Error>
    decreases |ks|
  {
    if ks == [] || vs == [] then Ok(m)
    else if ks[0].List? then Fail(Unhashable)
    else ZipUpdate(m[ks[0] := vs[0]], ks[1..], vs[1..])
  }

  /** The update fails exactly when a key among the zipped pairs is a
      list, and then as unhashable. */
  lemma {:induction false} ZipUpdateOk(m: map<Expr, Value>, ks: seq<Expr>, vs: seq<Value>)
    ensures var n := Min(|ks|, |vs|);
            var r := ZipUpdate(m, ks, vs);
            && (r.Ok? <==> forall j :: 0 <= j < n ==> !ks[j].List?)
            && (r.Fail? ==> r.error == Unhashable)
    decreases |ks|
  {
    if ks != [] && vs != [] && !ks[0].List? {
      ZipUpdateOk(m[ks[0] := vs[0]], ks[1..], vs[1..]);
      var n := Min(|ks|, |vs|);
      assert forall j :: 1 <= j < n ==> ks[j] == ks[1..][j - 1];
      if ZipUpdate(m, ks, vs).Fail? {
        var j :| 0 <= j < n - 1 && ks[1..][j].List?;
        assert ks[j + 1].List?;
      }
    }
  }

  /** A successful update adds exactly the zipped keys. */
  lemma {:induction false} ZipUpdateKeys(m: map<Expr, Value>, ks: seq<Expr>, vs: seq<Value>)
    ensures var n := Min(|ks|, |vs|);
            var r := ZipUpdate(m, ks, vs);
            r.Ok? ==> r.value.Keys == m.Keys + (set j | 0 <= j < n :: ks[j])
    decreases |ks|
  {
    if ks != [] && vs != [] && !ks[0].List? {
      var ks' := ks[1..];
      ZipUpdateKeys(m[ks[0] := vs[0]], ks', vs[1..]);
      var n := Min(|ks|, |vs|);
      var n' := n - 1;
      assert (set j | 0 <= j < n :: ks[j]) == {ks[0]} + (set j | 0 <= j < n' :: ks'[j]) by {
        forall j | 0 <= j < n ensures ks[j] in {ks[0]} + (set j | 0 <= j < n' :: ks'[j]) {
          if j > 0 { assert ks[j] == ks'[j - 1]; }
        }
        forall j | 0 <= j < n' ensures ks'[j] in (set j | 0 <= j < n :: ks[j]) {
          assert ks'[j] == ks[j + 1];
        }
      }
    }
  }

  /** After a successful update, a zipped key holds the value of its last
      pair. */
  lemma ZipUpdateLatest(m: map<Expr, Value>, ks: seq<Expr>, vs: seq<Value>)
    ensures var n := Min(|ks|, |vs|);
            var r := ZipUpdate(m, ks, vs);
            r.Ok? ==> forall j :: 0 <= j < n && ks[j] !in ks[j + 1..n] ==> ks[j] in r.value && r.value[ks[j]] == vs[j]
  {
    var n := Min(|ks|, |vs|);
    if ZipUpdate(m, ks, vs).Ok? {
      forall j | 0 <= j < n && ks[j] !in ks[j + 1..n]
        ensures ks[j] in ZipUpdate(m, ks, vs).value && ZipUpdate(m, ks, vs).value[ks[j]] == vs[j]
      {
        ZipUpdateLatestAt(m, ks, vs, j);
      }
    }
  }

  /** The pair at position `j` decides the key's value when no later pair
      has the same key. */
  lemma {:induction false} ZipUpdateLatestAt(m: map<Expr, Value>, ks: seq<Expr>, vs: seq<Value>, j: nat)
    requires j < Min(|ks|, |vs|) && ks[j] !in ks[j + 1..Min(|ks|, |vs|)]
    requires ZipUpdate(m, ks, vs).Ok?
    ensures ks[j] in ZipUpdate(m, ks, vs).value && ZipUpdate(m, ks, vs).value[ks[j]] == vs[j]
    decreases j
  {
    var n := Min(|ks|, |vs|);
    assert !ks[0].List?;
    var m', ks', vs' := m[ks[0] := vs[0]], ks[1..], vs[1..];
    assert ZipUpdate(m, ks, vs) == ZipUpdate(m', ks', vs');
    if j == 0 {
      ZipUpdateKeeps(m', ks', vs');
      assert ks[1..n] == ks'[..n - 1];
      assert ks[0] in m' && m'[ks[0]] == vs[0];
    } else {
      assert ks[j + 1..n] == ks'[j..n - 1];
      ZipUpdateLatestAt(m', ks', vs', j - 1);
    }
  }

  /** A successful update leaves every key that is not zipped alone. */
  lemma {:induction false} ZipUpdateKeeps(m: map<Expr, Value>, ks: seq<Expr>, vs: seq<Value>)
    ensures var n := Min(|ks|, |vs|);
            var r := ZipUpdate(m, ks, vs);
            r.Ok? ==> forall k :: k in m && k !in ks[..n] ==> k in r.value && r.value[k] == m[k]
    decreases |ks|
  {
    if ks != [] && vs != [] && !ks[0].List? {
      var m', ks', vs' := m[ks[0] := vs[0]], ks[1..], vs[1..];
      ZipUpdateKeeps(m', ks', vs');
      var n := Min(|ks|, |vs|);
      assert ks[..n] == [ks[0]] + ks'[..n - 1];
    }
  }

  /** The update binds exactly the zipped pairs, a later pair winning over
      an earlier one with the same key, and leaves the other keys alone. */
  lemma ZipUpdateBinds(m: map<Expr, Value>, ks: seq<Expr>, vs: seq<Value>)
    ensures var n := Min(|ks|, |vs|);
            var r := ZipUpdate(m, ks, vs);
            && (r.Ok? <==> forall j :: 0 <= j < n ==> !ks[j].List?)
            && (r.Fail? ==> r.error == Unhashable)
            && (r.Ok? ==> r.value.Keys == m.Keys + (set j | 0 <= j < n :: ks[j]))
            && (r.Ok? ==> forall j :: 0 <= j < n && ks[j] !in ks[j + 1..n] ==> r.value[ks[j]] == vs[j])
            && (r.Ok? ==> forall k :: k in m && k !in ks[..n] ==> r.value[k] == m[k])
  {
    ZipUpdateOk(m, ks, vs);
    ZipUpdateKeys(m, ks, vs);
    ZipUpdateLatest(m, ks, vs);
    ZipUpdateKeeps(m, ks, vs);
  }

  /** Every value the update stores is one of the arguments or was there before. */
  lemma {:induction false} ZipUpdateValues(m: map<Expr, Value>, ks: seq<Expr>, vs: seq<Value>)
    ensures var r := ZipUpdate(m, ks, vs);
            r.Ok? ==> forall k :: k in r.value ==> r.value[k] in vs || (k in m && r.value[k] == m[k])
    decreases |ks|
  {
    if ks != [] && vs != [] && !ks[0].List? {
      ZipUpdateValues(m[ks[0] := vs[0]], ks[1..], vs[1..]);
    }
  }

  /** `Env(params, args, outer)` */
  function NewFrame(params: seq<Expr>, args: seq<Value>, outer: Option<nat>): Result<Frame, Error>
  {
    match ZipUpdate(map[], params, args)
    case Ok(b) => Ok(Frame(b, outer))
    case Fail(e) => Fail(e)
  }

  /** The dictionary of `standard_env()`: every reserved word, as a symbol. */
  const StandardBindings: map<Expr, Value> :=
    map k | k in (set w | w in ReservedWords :: Sym(w)) :: ReservedWords[k.name]

  /** `standard_env()` binds exactly the reserved words, each to its entry
      of the table, and no procedure. */
  lemma StandardEnvExact()
    ensures forall k :: k in StandardBindings <==> k.Sym? && k.name in ReservedWords
    ensures forall w :: w in ReservedWords ==> StandardBindings[Sym(w)] == ReservedWords[w]
    ensures forall k :: k in StandardBindings ==> !StandardBindings[k].Closure?
  {
    StandardKeys();
    StandardValues();
    ReservedNoClosure();
  }

  lemma StandardKeys()
    ensures forall k :: k in StandardBindings <==> k.Sym? && k.name in ReservedWords
  {
    forall w | w in ReservedWords ensures Sym(w) in StandardBindings {
      assert Sym(w) in (set w | w in ReservedWords :: Sym(w));
    }
  }

  lemma StandardValues()
    ensures forall w :: w in ReservedWords ==> Sym(w) in StandardBindings && StandardBindings[Sym(w)] == ReservedWords[w]
  {
    forall w | w in ReservedWords ensures Sym(w) in StandardBindings && StandardBindings[Sym(w)] == ReservedWords[w] {
      assert Sym(w) in (set w | w in ReservedWords :: Sym(w));
    }
  }

  /** No entry of the reserved-word table is a procedure. */
  lemma ReservedNoClosure()
    ensures forall w :: w in ReservedWords ==> !ReservedWords[w].Closure?
  {
  }

  /** Appending a frame whose outer link and values refer to existing
      frames keeps the arena well formed. */
  lemma AppendFrame(fs: seq<Frame>, f: Frame)
    requires WellFormed(fs)
    requires f.outer.Some? ==> f.outer.value < |fs|
    requires forall k :: k in f.bindings ==> ValueIn(f.bindings[k], |fs|)
    ensures WellFormed(fs + [f])
  {
    var fs' := fs + [f];
    forall i, k | 0 <= i < |fs'| && k in fs'[i].bindings ensures ValueIn(fs'[i].bindings[k], |fs'|) {
      if i < |fs| {
        assert fs'[i] == fs[i];
      }
    }
  }

  /** Replacing the dictionary of frame `i`, keeping its outer link. */
  function SetBindings(fs: seq<Frame>, i: nat, b: map<Expr, Value>): (r: seq<Frame>)
    requires i < |fs|
    ensures |r| == |fs| && r[i].bindings == b
    ensures forall j :: 0 <= j < |fs| ==> r[j].outer == fs[j].outer
    ensures forall j :: 0 <= j < |fs| && j != i ==> r[j] == fs[j]
  {
    fs[i := Frame(b, fs[i].outer)]
  }

  /** Replacing a dictionary by one whose values refer to existing frames
      keeps the arena well formed. */
  lemma SetBindingsWellFormed(fs: seq<Frame>, i: nat, b: map<Expr, Value>)
    requires WellFormed(fs) && i < |fs|
    requires forall k :: k in b ==> ValueIn(b[k], |fs|)
    ensures WellFormed(SetBindings(fs, i, b))
  {
    var fs' := SetBindings(fs, i, b);
    forall j, k | 0 <= j < |fs'| && k in fs'[j].bindings ensures ValueIn(fs'[j].bindings[k], |fs'|) {
      if j != i {
        assert fs'[j] == fs[j];
      }
    }
  }

  /** `env[key] = v`: frame `i` binds `key` to `v` and every other binding
      of every frame stays. */
  function Assign(fs: seq<Frame>, i: nat, key: Expr, v: Value): (r: seq<Frame>)
    requires i < |fs|
    ensures |r| == |fs| && key in r[i].bindings && r[i].bindings[key] == v
    ensures forall k :: k in fs[i].bindings && k != key ==> k in r[i].bindings && r[i].bindings[k] == fs[i].bindings[k]
    ensures r[i].bindings.Keys == fs[i].bindings.Keys + {key}
    ensures forall j :: 0 <= j < |fs| && j != i ==> r[j] == fs[j]
    ensures forall j :: 0 <= j < |fs| ==> r[j].outer == fs[j].outer
  {
    SetBindings(fs, i, fs[i].bindings[key := v])
  }

  lemma AssignWellFormed(fs: seq<Frame>, i: nat, key: Expr, v: Value)
    requires WellFormed(fs) && i < |fs| && ValueIn(v, |fs|)
    ensures WellFormed(Assign(fs, i, key, v))
  {
    SetBindingsWellFormed(fs, i, fs[i].bindings[key := v]);
  }

  /** Appending frames does not change what `find` returns from an old frame. */
  lemma {:induction false} FindExtend(fs: seq<Frame>, f: Frame, i: nat, key: Expr)
    requires WellFormed(fs) && WellFormed(fs + [f]) && i < |fs|
    ensures Find(fs + [f], i, key) == Find(fs, i, key)
    decreases i
  {
    assert (fs + [f])[i] == fs[i];
    if key !in fs[i].bindings && fs[i].outer.Some? {
      FindExtend(fs, f, fs[i].outer.value, key);
    }
  }

  /** The cases of the environment test: a fresh frame binds nothing, a frame
      binds its zipped pairs, and `find` reaches the outer frame. */
  lemma EnvTestCases()
    ensures NewFrame([], [], None) == Ok(Frame(map[], None))
    ensures var ps := [Sym("a"), Sym("b"), Sym("c"), Sym("d")];
            var vs := [Int(1), Int(2), Int(3), Int(4)];
            var ab := map[Sym("a") := Int(1), Sym("b") := Int(2), Sym("c") := Int(3), Sym("d") := Int(4)];
            && NewFrame(ps, vs, Some(0)) == Ok(Frame(ab, Some(0)))
            && NewFrame([], [], Some(0)) == Ok(Frame(map[], Some(0)))
            && Find([Frame(ab, None), Frame(map[], Some(0))], 1, Sym("a")) == Some(0)
  {
    var ps := [Sym("a"), Sym("b"), Sym("c"), Sym("d")];
    var vs := [Int(1), Int(2), Int(3), Int(4)];
    assert ps[1..] == [Sym("b"), Sym("c"), Sym("d")] && vs[1..] == [Int(2), Int(3), Int(4)];
    assert ps[2..] == [Sym("c"), Sym("d")] && vs[2..] == [Int(3), Int(4)];
    assert ps[3..] == [Sym("d")] && vs[3..] == [Int(4)];
    var ab := map[Sym("a") := Int(1), Sym("b") := Int(2), Sym("c") := Int(3), Sym("d") := Int(4)];
    var fs := [Frame(ab, None), Frame(map[], Some(0))];
    assert WellFormed(fs);
  }

  /** The frames of the interpreter: Python's heap of `Env` objects. */
  class Arena {
    var frames: seq<Frame>

    ghost predicate Valid()
      reads this
    {
      WellFormed(frames)
    }

    constructor ()
      ensures Valid() && frames == []
    {
      frames := [];
    }

    /** `Env(params, args, outer)`: a new frame holding the zipped pairs. */
    method NewEnv(params: seq<Expr>, args: seq<Value>, outer: Option<nat>) returns (r: Result<nat, Error>)
      requires Valid()
      requires outer.Some? ==> outer.value < |frames|
      requires forall v :: v in args ==> ValueIn(v, |frames|)
      modifies this
      ensures Valid()
      ensures match NewFrame(params, args, outer)
              case Ok(f) => r == Ok(|old(frames)|) && frames == old(frames) + [f]
              case Fail(e) => r == Fail(e) && frames == old(frames)
    {
      var u := ZipUpdate(map[], params, args);
      ZipUpdateValues(map[], params, args);
      match u
      case Fail(e) =>
        r := Fail(e);
      case Ok(b) =>
        r := Ok(|frames|);
        AppendFrame(frames, Frame(b, outer));
        frames := frames + [Frame(b, outer)];
    }

    /** `standard_env()`: a fresh frame without outer link, then filled from
        the reserved-word table. */
    method StandardEnv() returns (root: nat)
      requires Valid()
      modifies this
      ensures Valid()
      ensures root == |old(frames)| && frames == old(frames) + [Frame(StandardBindings, None)]
    {
      var env := Frame(map[], None);
      env := Frame(env.bindings + StandardBindings, env.outer);
      assert env == Frame(StandardBindings, None);
      root := |frames|;
      StandardEnvExact();
      AppendFrame(frames, env);
      frames := frames + [env];
    }

    /** `env[key] = v` on frame `i`; the other frames and the outer links stay. */
    method Bind(i: nat, key: Expr, v: Value)
      requires Valid() && i < |frames| && ValueIn(v, |frames|)
      modifies this
      ensures Valid()
      ensures frames == Assign(old(frames), i, key, v)
    {
      AssignWellFormed(frames, i, key, v);
      frames := frames[i := Frame(frames[i].bindings[key := v], frames[i].outer)];
    }

    /** `env.update(zip(keys, vals))` on frame `i`. */
    method Update(i: nat, keys: seq<Expr>, vals: seq<Value>) returns (r: Result<(), Error>)
      requires Valid() && i < |frames|
      requires forall v :: v in vals ==> ValueIn(v, |frames|)
      modifies this
      ensures Valid()
      ensures match ZipUpdate(old(frames)[i].bindings, keys, vals)
              case Ok(b) => r == Ok(()) && frames == SetBindings(old(frames), i, b)
              case Fail(e) => r == Fail(e) && frames == old(frames)
    {
      var u := ZipUpdate(frames[i].bindings, keys, vals);
      ZipUpdateValues(frames[i].bindings, keys, vals);
      match u
      case Fail(e) =>
        r := Fail(e);
      case Ok(b) =>
        r := Ok(());
        SetBindingsWellFormed(frames, i, b);
        frames := frames[i := Frame(b, frames[i].outer)];
    }
  }
}
