/** What the reference semantics of `Reduction` gives for applications of the natives:
    applying a native to entities that are already values, the addition of two bound
    names, and `lmap` over a linked list, both as the library writes it and as it is
    evidently meant. */
module ReductionLaws {
  import opened Entities
  import opened Reduction
  import Functools

  /** A strict native Function without a captured frame, as `add_function` makes them. */
  predicate PlainNative(g: Function)
  {
    !g.fn.Closure? && g.closure == null && !g.lazy
  }

  /** Entities that `evaluate` hands back unchanged when names resolve in `scope`. */
  predicate AtRest(scope: Scope, args: seq<Entity>)
  {
    forall i :: 0 <= i < |args| ==> !args[i].Vector? && Normal(scope, args[i])
  }

  /** Not a successful result. */
  predicate NoValue<T>(a: Answer<T>)
  {
    !(a.Known? && a.result.Success?)
  }

  /** A strict Function passes entities at rest on as they are. */
  lemma {:induction false} PrepareAtRest(fuel: nat, scope: Scope, args: seq<Entity>)
    requires AtRest(scope, args)
    ensures PrepareF(fuel, scope, false, args) == Known(Success(args))
    decreases |args|
  {
    if args != [] {
      assert AtRest(scope, args[1..]) by {
        forall i | 0 <= i < |args| - 1
          ensures !args[1..][i].Vector? && Normal(scope, args[1..][i])
        {
          assert args[1..][i] == args[i + 1];
        }
      }
      PrepareAtRest(fuel, scope, args[1..]);
      assert EvalF(fuel, scope, args[0]) == Known(Success(args[0]));
      assert [args[0]] + args[1..] == args;
    }
  }

  /** A strict Function evaluates its first argument and then the others. */
  lemma PrepareCons(fuel: nat, scope: Scope, a: Entity, v: Entity, rest: seq<Entity>, vs: seq<Entity>)
    requires EvalF(fuel, scope, a) == Known(Success(v))
    requires PrepareF(fuel, scope, false, rest) == Known(Success(vs))
    ensures PrepareF(fuel, scope, false, [a] + rest) == Known(Success([v] + vs))
  {
    assert ([a] + rest)[0] == a && ([a] + rest)[1..] == rest;
  }

  /** Strict arguments are evaluated first to last, and the first failure ends the
      preparation: when every argument before `i` evaluates to a value and argument `i`
      fails, the call fails with argument `i`'s error, whatever the arguments after it would
      give. */
  lemma {:induction false} PrepareFirstFailure(fuel: nat, scope: Scope, args: seq<Entity>, i: nat, err: Error)
    requires i < |args|
    requires forall j :: 0 <= j < i ==> EvalF(fuel, scope, args[j]).Known? && EvalF(fuel, scope, args[j]).result.Success?
    requires EvalF(fuel, scope, args[i]) == Known(Failure(err))
    ensures PrepareF(fuel, scope, false, args) == Known(Failure(err))
    decreases i
  {
    PrepareFirst(fuel, scope, args);
    if i > 0 {
      forall j | 0 <= j < i - 1
        ensures EvalF(fuel, scope, args[1..][j]).Known? && EvalF(fuel, scope, args[1..][j]).result.Success?
      {
        assert args[1..][j] == args[j + 1];
      }
      assert args[1..][i - 1] == args[i];
      PrepareFirstFailure(fuel, scope, args[1..], i - 1, err);
    }
  }

  /** An application whose head evaluates to a Function and whose call comes to a value at
      rest evaluates to that value. */
  lemma ApplicationStep(fuel: nat, scope: Scope, e: Entity, f: Function, v: Entity)
    requires e.SExpr? && |e.es| >= 1 && fuel >= 1
    requires EvalF(fuel - 1, scope, e.es[0]) == Known(Success(Fn(f)))
    requires CallF(fuel - 1, scope, f, e.es[1..]) == Known(Success(v)) && AtRest(scope, [v])
    ensures EvalF(fuel, scope, e) == Known(Success(v))
  {
    assert [v][0] == v;
    assert StepF(fuel, scope, e) == Known(Success(Step(true, v)));
    assert LoopF(fuel, fuel - 1, scope, v) == Known(Success(v));
  }

  /** Calling a plain native evaluates what it returns for the evaluated arguments. */
  lemma NativeCall(fuel: nat, scope: Scope, f: Function, args: seq<Entity>, ps: seq<Entity>, w: Entity)
    requires fuel >= 1 && PlainNative(f)
    requires PrepareF(fuel - 1, scope, false, args) == Known(Success(ps)) && NativeResult(f, ps) == Success(w)
    ensures CallF(fuel, scope, f, args) == EvalF(fuel - 1, scope, w)
  {
    assert InvokeF(fuel - 1, scope, f, ps) == RunF(fuel - 1, scope, f, ps);
  }

  /** Applying a plain native to entities at rest: two levels of fuel are needed (one for
      the application, one for the call), and then the result is the native's own, as long
      as that is a failure or again at rest. */
  lemma NativeApplication(fuel: nat, scope: Scope, g: Function, args: seq<Entity>)
    requires PlainNative(g) && AtRest(scope, args)
    ensures fuel < 2 ==> EvalF(fuel, scope, SExpr([Fn(g)] + args)) == Known(Failure(OutOfFuel))
    ensures fuel >= 2 && NativeResult(g, args).Failure? ==>
      EvalF(fuel, scope, SExpr([Fn(g)] + args)) == Known(NativeResult(g, args))
    ensures fuel >= 2 && NativeResult(g, args).Success? && AtRest(scope, [NativeResult(g, args).value]) ==>
      EvalF(fuel, scope, SExpr([Fn(g)] + args)) == Known(NativeResult(g, args))
  {
    var e := SExpr([Fn(g)] + args);
    assert e.es[0] == Fn(g) && e.es[1..] == args;
    assert EvalF(fuel, scope, e) == LoopF(fuel, fuel, scope, e);
    if fuel == 0 {
      assert StepF(0, scope, e) == Known(Failure(OutOfFuel));
    } else if fuel == 1 {
      assert EvalF(0, scope, Fn(g)) == Known(Success(Fn(g)));
      assert StepF(1, scope, e) == Known(Failure(OutOfFuel));
    } else {
      NativeApplicationStep(fuel, scope, g, args);
    }
  }

  /** The step of `NativeApplication` with fuel for the application and the call. */
  lemma NativeApplicationStep(fuel: nat, scope: Scope, g: Function, args: seq<Entity>)
    requires PlainNative(g) && AtRest(scope, args) && fuel >= 2
    ensures NativeResult(g, args).Failure? ==>
      EvalF(fuel, scope, SExpr([Fn(g)] + args)) == Known(NativeResult(g, args))
    ensures NativeResult(g, args).Success? && AtRest(scope, [NativeResult(g, args).value]) ==>
      EvalF(fuel, scope, SExpr([Fn(g)] + args)) == Known(NativeResult(g, args))
  {
    var e := SExpr([Fn(g)] + args);
    assert e.es[0] == Fn(g) && e.es[1..] == args;
    assert EvalF(fuel, scope, e) == LoopF(fuel, fuel, scope, e);
    PrepareAtRest(fuel - 2, scope, args);
    assert EvalF(fuel - 1, scope, Fn(g)) == Known(Success(Fn(g)));
    var v := NativeResult(g, args);
    if v.Success? && AtRest(scope, [v.value]) {
      assert [v.value][0] == v.value;
      assert EvalF(fuel - 2, scope, v.value) == Known(Success(v.value));
      NativeCall(fuel - 1, scope, g, args, args, v.value);
      assert CallF(fuel - 1, scope, g, args) == Known(v);
      assert StepF(fuel, scope, e) == Known(Success(Step(true, v.value)));
      assert LoopF(fuel, fuel - 1, scope, v.value) == Known(v);
    } else if v.Failure? {
      assert CallF(fuel - 1, scope, g, args) == Known(v);
      assert StepF(fuel, scope, e) == Known(Failure(v.error));
    }
  }

  /** `(+ one two)` with `+` the built-in and `one`, `two` bound to Integers evaluates to
      their sum once there is fuel for the application, the call and the lookups. */
  lemma AddBoundNames(fuel: nat, scope: Scope, plus: Function, a: int, b: int)
    requires PlainNative(plus) && plus.fn == Plus
    requires Resolve(scope, "+") == Success(Fn(plus))
    requires Resolve(scope, "one") == Success(Integer(a)) && Resolve(scope, "two") == Success(Integer(b))
    requires fuel >= 3
    ensures EvalF(fuel, scope, SExpr([Name("+"), Name("one"), Name("two")])) == Known(Success(Integer(a + b)))
  {
    var e := SExpr([Name("+"), Name("one"), Name("two")]);
    var args := [Name("one"), Name("two")];
    assert e.es[0] == Name("+") && e.es[1..] == args;
    BoundName(fuel - 1, scope, "+", Fn(plus));
    PrepareBoundNames(fuel - 2, scope, a, b);
    NativeCall(fuel - 1, scope, plus, args, [Integer(a), Integer(b)], Integer(a + b));
    assert [Integer(a + b)][0] == Integer(a + b);
    ApplicationStep(fuel, scope, e, plus, Integer(a + b));
  }

  /** The arguments `one two`, each bound to an Integer, evaluate to those Integers. */
  lemma PrepareBoundNames(fuel: nat, scope: Scope, a: int, b: int)
    requires Resolve(scope, "one") == Success(Integer(a)) && Resolve(scope, "two") == Success(Integer(b))
    requires fuel >= 1
    ensures PrepareF(fuel, scope, false, [Name("one"), Name("two")]) == Known(Success([Integer(a), Integer(b)]))
  {
    BoundName(fuel, scope, "one", Integer(a));
    BoundName(fuel, scope, "two", Integer(b));
    PrepareCons(fuel, scope, Name("two"), Integer(b), [], []);
    assert [Name("two")] + [] == [Name("two")] && [Integer(b)] + [] == [Integer(b)];
    PrepareCons(fuel, scope, Name("one"), Integer(a), [Name("two")], [Integer(b)]);
    assert [Name("one")] + [Name("two")] == [Name("one"), Name("two")];
    assert [Integer(a)] + [Integer(b)] == [Integer(a), Integer(b)];
  }

  /** A Name bound to a different entity at rest evaluates to it in one round. */
  lemma BoundName(fuel: nat, scope: Scope, id: string, v: Entity)
    requires fuel >= 1 && Resolve(scope, id) == Success(v) && v != Name(id) && AtRest(scope, [v])
    ensures EvalF(fuel, scope, Name(id)) == Known(Success(v))
  {
    assert [v][0] == v;
    assert StepF(fuel, scope, Name(id)) == Known(Success(Step(true, v)));
    assert LoopF(fuel, fuel - 1, scope, v) == Known(Success(v));
  }

  // ---------------------------------------------------------------------------------------
  // User-defined functions.

  /** An entity whose evaluation does not depend on the names in scope. */
  predicate Constant(v: Entity)
  {
    !v.Name? && !v.Vector? && Settled(v)
  }

  /** `(fn [p] p)` called on a value gives that value back: the parameter is bound in the
      frame the call pushes. */
  lemma ParameterBound(fuel: nat, inner: Scope, f: Function, p: string, v: Entity)
    requires f.fn.Closure? && f.fn.argNames == [p] && f.fn.body == Name(p)
    requires Constant(v) && fuel >= 1
    ensures RunF(fuel, inner, f, [v]) == Known(Success(v))
  {
    var local := [ZipNames([p], [v])] + inner;
    ZipNamesBinds([p], [v], 0);
    assert Resolve(local, p) == Success(v);
    BoundName(fuel, local, p, v);
    assert EvalF(fuel, inner, v) == Known(Success(v));
  }

  /** A body that names something other than a parameter sees the binding in the scope the
      callable runs in, which for a Function with a captured frame is that frame's chain
      (`Reduction.Inner`): names are resolved where the function was made, not where it is
      called. */
  lemma FreeNameFromDefinition(fuel: nat, inner: Scope, f: Function, ps: seq<Entity>, q: string, w: Entity)
    requires f.fn.Closure? && |ps| == |f.fn.argNames| && f.fn.body == Name(q) && q !in f.fn.argNames
    requires Resolve(inner, q) == Success(w) && Constant(w) && fuel >= 1
    ensures RunF(fuel, inner, f, ps) == Known(Success(w))
  {
    var m := ZipNames(f.fn.argNames, ps);
    var local := [m] + inner;
    assert q !in m;
    assert local[0] == m && local[1..] == inner;
    assert Resolve(local, q) == Success(w);
    BoundName(fuel, local, q, w);
    assert EvalF(fuel, inner, w) == Known(Success(w));
  }

  // ---------------------------------------------------------------------------------------
  // Vectors.

  /** A round over elements that are all at a fixpoint hands each of them back unchanged. */
  lemma {:induction false} EachNormal(fuel: nat, scope: Scope, es: seq<Entity>)
    requires forall i :: 0 <= i < |es| ==> Normal(scope, es[i])
    ensures EachF(fuel, scope, es) == Known(Success(seq(|es|, i requires 0 <= i < |es| => Step(false, es[i]))))
    decreases |es|
  {
    var all := seq(|es|, i requires 0 <= i < |es| => Step(false, es[i]));
    if es == [] {
      assert all == [];
    } else {
      assert StepF(fuel, scope, es[0]) == Known(Success(Step(false, es[0])));
      EachFirst(fuel, scope, es);
      assert forall i :: 0 <= i < |es[1..]| ==> es[1..][i] == es[i + 1];
      EachNormal(fuel, scope, es[1..]);
      var rest := seq(|es[1..]|, i requires 0 <= i < |es[1..]| => Step(false, es[1..][i]));
      assert all == [Step(false, es[0])] + rest;
    }
  }

  /** A round over one element is that element's step. */
  lemma EachOne(fuel: nat, scope: Scope, x: Entity, s: Step)
    requires StepF(fuel, scope, x) == Known(Success(s))
    ensures EachF(fuel, scope, [x]) == Known(Success([s]))
  {
    assert [x][0] == x && [x][1..] == [];
    EachFirst(fuel, scope, [x]);
    assert EachF(fuel, scope, []) == Known(Success([]));
    assert [s] + [] == [s];
  }

  /** One round of a one-element vector not yet done. */
  lemma OneElementRound(fuel: nat, scope: Scope, x: Entity, s: Step)
    requires fuel >= 1 && StepF(fuel - 1, scope, x) == Known(Success(s))
    ensures StepF(fuel, scope, Vector([x], 0)) ==
      Known(Success(Step(true, Vector([s.value], if s.changed then 0 else 1))))
  {
    EachOne(fuel - 1, scope, x, s);
    VectorStep(fuel, scope, [x], 0, [s]);
    assert Values([s]) == [s.value];
    assert Unchanged([s]) == if s.changed then 0 else 1 by {
      assert [s][..0] == [];
    }
  }

  /** The step of a vector not yet done is the vector its round makes. */
  lemma VectorStep(fuel: nat, scope: Scope, es: seq<Entity>, c: int, ss: seq<Step>)
    requires fuel >= 1 && c != |es| && EachF(fuel - 1, scope, es) == Known(Success(ss))
    ensures StepF(fuel, scope, Vector(es, c)) == Known(Success(Step(true, Vector(Values(ss), Unchanged(ss)))))
  {
  }

  /** Where the shortcut of `Vector.evaluate` does keep its promise: a vector whose elements
      are all at a fixpoint evaluates to a vector with the same elements, which is also what
      the loop of `Entity.evaluate` gives. */
  lemma ShortcutKeepsFinalElements(fuel: nat, scope: Scope, es: seq<Entity>, c: int)
    requires forall i :: 0 <= i < |es| ==> Normal(scope, es[i])
    ensures EvalF(fuel, scope, Vector(es, c)) == Known(Success(Vector(es, |es|)))
    ensures fuel >= 1 ==> VectorEvalF(fuel, scope, es, c) == Known(Success(Vector(es, |es|)))
  {
    EachNormal(fuel, scope, es);
    var ss := seq(|es|, i requires 0 <= i < |es| => Step(false, es[i]));
    assert Values(ss) == es;
    if fuel >= 1 && c != |es| {
      EachNormal(fuel - 1, scope, es);
      UnchangedAll(ss);
      assert StepF(fuel, scope, Vector(es, c)) == Known(Success(Step(true, Vector(es, |es|))));
    }
  }

  /** The names of the counterexample below: `a` is bound to the Name `b`, `b` to 1. */
  const ChainedNames: Scope := [map["a" := Name("b"), "b" := Integer(1)]]

  /** The shortcut as written computes each element once and declares the vector done: with
      `a` bound to the Name `b` and `b` to 1, `[a]` evaluates to `[b]`, whose element is not
      at a fixpoint, while the loop reaches `[1]`. */
  lemma VectorShortcutStopsEarly()
    ensures EvalF(1, ChainedNames, Vector([Name("a")], 0)) == Known(Success(Vector([Name("b")], 1)))
    ensures !Normal(ChainedNames, Name("b"))
    ensures VectorEvalF(3, ChainedNames, [Name("a")], 0) == Known(Success(Vector([Integer(1)], 1)))
  {
    ShortcutOnChainedNames();
    LoopOnChainedNames();
  }

  lemma ShortcutOnChainedNames()
    ensures EvalF(1, ChainedNames, Vector([Name("a")], 0)) == Known(Success(Vector([Name("b")], 1)))
    ensures !Normal(ChainedNames, Name("b"))
  {
    var scope := ChainedNames;
    assert Resolve(scope, "a") == Success(Name("b"));
    assert Resolve(scope, "b") == Success(Integer(1));
    EachOne(1, scope, Name("a"), Step(true, Name("b")));
    assert Values([Step(true, Name("b"))]) == [Name("b")];
  }

  lemma LoopOnChainedNames()
    ensures LoopF(3, 3, ChainedNames, Vector([Name("a")], 0)) == Known(Success(Vector([Integer(1)], 1)))
  {
    var scope := ChainedNames;
    assert Resolve(scope, "a") == Success(Name("b"));
    assert Resolve(scope, "b") == Success(Integer(1));
    OneElementRound(3, scope, Name("a"), Step(true, Name("b")));
    OneElementRound(3, scope, Name("b"), Step(true, Integer(1)));
    OneElementRound(3, scope, Integer(1), Step(false, Integer(1)));
    assert LoopF(3, 0, scope, Vector([Integer(1)], 1)) == Known(Success(Vector([Integer(1)], 1)));
    assert LoopF(3, 1, scope, Vector([Integer(1)], 0)) == Known(Success(Vector([Integer(1)], 1)));
    assert LoopF(3, 2, scope, Vector([Name("b")], 0)) == Known(Success(Vector([Integer(1)], 1)));
  }

  // lmap.

  /** The recursive call `(lforeach g rest)` in the rewrite of the library's `lmap` evaluates
      to `:Nil` or fails. */
  lemma ForeachTail(fuel: nat, scope: Scope, tail: Function, g: Entity, rest: LinkedList)
    requires PlainNative(tail) && tail.fn == ListForeach && AtRest(scope, [g])
    ensures
      var r := EvalF(fuel, scope, SExpr([Fn(tail), g, List(rest)]));
      r.Known? && (r.result.Success? ==> r.result.value == Atom("Nil"))
  {
    var args := [g, List(rest)];
    assert [Fn(tail), g, List(rest)] == [Fn(tail)] + args;
    NativeApplication(fuel, scope, tail, args);
  }

  /** As the library writes it, `lmap` of any entity at rest over a non-empty list never
      comes to a value: the tail it builds is `(lforeach g rest)`, which gives `:Nil`, and
      `+>` refuses to put anything in front of `:Nil`. */
  lemma {:induction false} LMapAsWrittenHasNoValue(fuel: nat, scope: Scope, lmap: Function,
                                                  cons: Function, tail: Function, g: Entity,
                                                  x: Entity, rest: LinkedList)
    requires PlainNative(lmap) && lmap.fn == ListMapAsWritten(cons, tail)
    requires PlainNative(cons) && cons.fn == ConsCell
    requires PlainNative(tail) && tail.fn == ListForeach
    requires AtRest(scope, [g])
    ensures NoValue(EvalF(fuel, scope, SExpr([Fn(lmap), g, List(Cell(x, rest))])))
  {
    var e := SExpr([Fn(lmap), g, List(Cell(x, rest))]);
    var args := [g, List(Cell(x, rest))];
    assert e.es[0] == Fn(lmap) && e.es[1..] == args;
    assert EvalF(fuel, scope, e) == LoopF(fuel, fuel, scope, e);
    if fuel >= 1 {
      assert EvalF(fuel - 1, scope, Fn(lmap)) == Known(Success(Fn(lmap)));
      LMapAsWrittenCallHasNoValue(fuel - 1, scope, lmap, cons, tail, g, x, rest);
    }
    assert NoValue(StepF(fuel, scope, e));
  }

  /** The call inside the library's `lmap` over a non-empty list never comes to a value. */
  lemma LMapAsWrittenCallHasNoValue(fuel: nat, scope: Scope, lmap: Function, cons: Function,
                                    tail: Function, g: Entity, x: Entity, rest: LinkedList)
    requires PlainNative(lmap) && lmap.fn == ListMapAsWritten(cons, tail)
    requires PlainNative(cons) && cons.fn == ConsCell
    requires PlainNative(tail) && tail.fn == ListForeach
    requires AtRest(scope, [g])
    ensures NoValue(CallF(fuel, scope, lmap, [g, List(Cell(x, rest))]))
  {
    var args := [g, List(Cell(x, rest))];
    if fuel >= 1 {
      PrepareAtRest(fuel - 1, scope, args);
      var v := SExpr([Fn(cons), SExpr([g, x]), SExpr([Fn(tail), g, List(rest)])]);
      assert NativeResult(lmap, args) == Success(v);
      RewriteHasNoValue(fuel - 1, scope, cons, tail, g, x, rest);
      assert InvokeF(fuel - 1, scope, lmap, args) == EvalF(fuel - 1, scope, v);
    }
  }

  /** The rewrite `(+> (g x) (lforeach g rest))` never comes to a value. */
  lemma RewriteHasNoValue(fuel: nat, scope: Scope, cons: Function, tail: Function, g: Entity,
                          x: Entity, rest: LinkedList)
    requires PlainNative(cons) && cons.fn == ConsCell
    requires PlainNative(tail) && tail.fn == ListForeach
    requires AtRest(scope, [g])
    ensures NoValue(EvalF(fuel, scope, SExpr([Fn(cons), SExpr([g, x]), SExpr([Fn(tail), g, List(rest)])])))
  {
    var tailCall := SExpr([Fn(tail), g, List(rest)]);
    var v := SExpr([Fn(cons), SExpr([g, x]), tailCall]);
    var parts := [SExpr([g, x]), tailCall];
    assert v.es[0] == Fn(cons) && v.es[1..] == parts;
    assert EvalF(fuel, scope, v) == LoopF(fuel, fuel, scope, v);
    if fuel >= 1 {
      assert EvalF(fuel - 1, scope, Fn(cons)) == Known(Success(Fn(cons)));
      ConsOntoForeachHasNoValue(fuel - 1, scope, cons, tail, g, x, rest);
    }
    assert NoValue(StepF(fuel, scope, v));
  }

  /** `+>` called with `(lforeach g rest)` as the tail never comes to a value. */
  lemma ConsOntoForeachHasNoValue(fuel: nat, scope: Scope, cons: Function, tail: Function, g: Entity,
                                  x: Entity, rest: LinkedList)
    requires PlainNative(cons) && cons.fn == ConsCell
    requires PlainNative(tail) && tail.fn == ListForeach
    requires AtRest(scope, [g])
    ensures NoValue(CallF(fuel, scope, cons, [SExpr([g, x]), SExpr([Fn(tail), g, List(rest)])]))
  {
    var parts := [SExpr([g, x]), SExpr([Fn(tail), g, List(rest)])];
    if fuel >= 1 {
      var prepared := PrepareF(fuel - 1, scope, false, parts);
      if prepared.Known? && prepared.result.Success? {
        var ps := prepared.result.value;
        ForeachTail(fuel - 1, scope, tail, g, rest);
        assert EvalF(fuel - 1, scope, parts[1]) == Known(Success(ps[1]));
        assert ps[1] == Atom("Nil");
        assert NativeResult(cons, ps) == Failure(NotAList);
      }
    }
  }

  /** Every element of `l` is at rest, and `g` maps it to a value that is again at rest. */
  predicate MapsToValues(scope: Scope, g: Function, l: LinkedList)
    requires !g.fn.Closure?
  {
    match l
    case EmptyList => true
    case Cell(x, rest) =>
      AtRest(scope, [x]) && NativeResult(g, [x]).Success? && AtRest(scope, [NativeResult(g, [x]).value]) &&
      MapsToValues(scope, g, rest)
  }

  /** The list of `g`'s results on the elements of `l`. */
  function Mapped(g: Function, l: LinkedList): (m: LinkedList)
    requires !g.fn.Closure?
    ensures |Functools.Items(m)| == |Functools.Items(l)|
    ensures forall i :: 0 <= i < |Functools.Items(l)| && NativeResult(g, [Functools.Items(l)[i]]).Success? ==>
      Functools.Items(m)[i] == NativeResult(g, [Functools.Items(l)[i]]).value
  {
    match l
    case EmptyList => EmptyList
    case Cell(x, rest) =>
      var y := if NativeResult(g, [x]).Success? then NativeResult(g, [x]).value else x;
      Cell(y, Mapped(g, rest))
  }

  /** With the recursive application naming `lmap` itself, `(lmap g l)` evaluates to the
      list of `g`'s results, given four levels of fuel per element and two for the end. */
  lemma {:induction false} LMapEvaluates(fuel: nat, scope: Scope, lmap: Function, cons: Function,
                                         g: Function, l: LinkedList)
    requires PlainNative(lmap) && lmap.fn == ListMap(cons)
    requires PlainNative(cons) && cons.fn == ConsCell
    requires PlainNative(g) && MapsToValues(scope, g, l)
    requires fuel >= 4 * |Functools.Items(l)| + 2
    ensures EvalF(fuel, scope, SExpr([Fn(lmap), Fn(g), List(l)])) == Known(Success(List(Mapped(g, l))))
    decreases l
  {
    match l
    case EmptyList =>
      var args := [Fn(g), List(l)];
      assert [Fn(lmap), Fn(g), List(l)] == [Fn(lmap)] + args;
      NativeApplication(fuel, scope, lmap, args);
    case Cell(x, rest) =>
      LMapEvaluates(fuel - 4, scope, lmap, cons, g, rest);
      LMapCell(fuel, scope, lmap, cons, g, x, rest, Mapped(g, rest));
  }

  /** One element of `lmap`: `(lmap g x:rest)` rewrites to `(+> (g x) (lmap g rest))`. */
  lemma LMapCell(fuel: nat, scope: Scope, lmap: Function, cons: Function, g: Function,
                 x: Entity, rest: LinkedList, m: LinkedList)
    requires PlainNative(lmap) && lmap.fn == ListMap(cons)
    requires PlainNative(cons) && cons.fn == ConsCell
    requires PlainNative(g) && AtRest(scope, [x]) && NativeResult(g, [x]).Success?
    requires AtRest(scope, [NativeResult(g, [x]).value])
    requires fuel >= 6
    requires EvalF(fuel - 4, scope, SExpr([Fn(lmap), Fn(g), List(rest)])) == Known(Success(List(m)))
    ensures EvalF(fuel, scope, SExpr([Fn(lmap), Fn(g), List(Cell(x, rest))])) ==
      Known(Success(List(Cell(NativeResult(g, [x]).value, m))))
  {
    var e := SExpr([Fn(lmap), Fn(g), List(Cell(x, rest))]);
    var result := List(Cell(NativeResult(g, [x]).value, m));
    LMapCellCall(fuel - 1, scope, lmap, cons, g, x, rest, m);
    assert e.es[0] == Fn(lmap) && e.es[1..] == [Fn(g), List(Cell(x, rest))];
    assert AtRest(scope, [result]);
    ApplicationStep(fuel, scope, e, lmap, result);
  }

  /** The call inside one element of `lmap`: the native rewrites, and the rewrite evaluates. */
  lemma LMapCellCall(fuel: nat, scope: Scope, lmap: Function, cons: Function, g: Function,
                     x: Entity, rest: LinkedList, m: LinkedList)
    requires PlainNative(lmap) && lmap.fn == ListMap(cons)
    requires PlainNative(cons) && cons.fn == ConsCell
    requires PlainNative(g) && AtRest(scope, [x]) && NativeResult(g, [x]).Success?
    requires AtRest(scope, [NativeResult(g, [x]).value])
    requires fuel >= 5
    requires EvalF(fuel - 3, scope, SExpr([Fn(lmap), Fn(g), List(rest)])) == Known(Success(List(m)))
    ensures CallF(fuel, scope, lmap, [Fn(g), List(Cell(x, rest))]) ==
      Known(Success(List(Cell(NativeResult(g, [x]).value, m))))
  {
    var args := [Fn(g), List(Cell(x, rest))];
    var restCall := SExpr([Fn(lmap), Fn(g), List(rest)]);
    var v := SExpr([Fn(cons), SExpr([Fn(g), x]), restCall]);
    ConsOfMapped(fuel - 1, scope, cons, g, x, restCall, m);
    PrepareAtRest(fuel - 1, scope, args);
    assert NativeResult(lmap, args) == Success(v);
    NativeCall(fuel, scope, lmap, args, args, v);
  }

  /** `(+> (g x) t)` with `t` evaluating to a list puts what `g` makes of `x` in front of it. */
  lemma ConsOfMapped(fuel: nat, scope: Scope, cons: Function, g: Function, x: Entity,
                     restCall: Entity, m: LinkedList)
    requires PlainNative(cons) && cons.fn == ConsCell && fuel >= 4
    requires PlainNative(g) && AtRest(scope, [x]) && NativeResult(g, [x]).Success?
    requires AtRest(scope, [NativeResult(g, [x]).value])
    requires EvalF(fuel - 2, scope, restCall) == Known(Success(List(m)))
    ensures EvalF(fuel, scope, SExpr([Fn(cons), SExpr([Fn(g), x]), restCall])) ==
      Known(Success(List(Cell(NativeResult(g, [x]).value, m))))
  {
    assert [Fn(g), x] == [Fn(g)] + [x];
    NativeApplication(fuel - 2, scope, g, [x]);
    ConsOfEvaluated(fuel, scope, cons, SExpr([Fn(g), x]), restCall, NativeResult(g, [x]).value, m);
  }

  /** `(+> h t)` with `t` evaluating to a list puts the value of `h` in front of it. */
  lemma ConsOfEvaluated(fuel: nat, scope: Scope, cons: Function, headCall: Entity, restCall: Entity,
                        y: Entity, m: LinkedList)
    requires PlainNative(cons) && cons.fn == ConsCell && fuel >= 2
    requires EvalF(fuel - 2, scope, headCall) == Known(Success(y))
    requires EvalF(fuel - 2, scope, restCall) == Known(Success(List(m)))
    ensures EvalF(fuel, scope, SExpr([Fn(cons), headCall, restCall])) == Known(Success(List(Cell(y, m))))
  {
    var v := SExpr([Fn(cons), headCall, restCall]);
    var result := List(Cell(y, m));
    ConsCall(fuel - 1, scope, cons, headCall, restCall, y, m);
    assert v.es[0] == Fn(cons) && v.es[1..] == [headCall, restCall];
    assert AtRest(scope, [result]);
    ApplicationStep(fuel, scope, v, cons, result);
  }

  /** The call of `+>` on a head and a tail that evaluates to a list. */
  lemma ConsCall(fuel: nat, scope: Scope, cons: Function, headCall: Entity, restCall: Entity,
                 y: Entity, m: LinkedList)
    requires PlainNative(cons) && cons.fn == ConsCell && fuel >= 1
    requires EvalF(fuel - 1, scope, headCall) == Known(Success(y))
    requires EvalF(fuel - 1, scope, restCall) == Known(Success(List(m)))
    ensures CallF(fuel, scope, cons, [headCall, restCall]) == Known(Success(List(Cell(y, m))))
  {
    PrepareTwo(fuel - 1, scope, headCall, restCall, y, List(m));
    NativeCall(fuel, scope, cons, [headCall, restCall], [y, List(m)], List(Cell(y, m)));
  }

  /** A strict Function evaluates its two arguments in order. */
  lemma PrepareTwo(fuel: nat, scope: Scope, a: Entity, b: Entity, v: Entity, w: Entity)
    requires EvalF(fuel, scope, a) == Known(Success(v)) && EvalF(fuel, scope, b) == Known(Success(w))
    ensures PrepareF(fuel, scope, false, [a, b]) == Known(Success([v, w]))
  {
    PrepareCons(fuel, scope, b, w, [], []);
    assert [b] + [] == [b] && [w] + [] == [w];
    PrepareCons(fuel, scope, a, v, [b], [w]);
    assert [a] + [b] == [a, b] && [v] + [w] == [v, w];
  }
}
