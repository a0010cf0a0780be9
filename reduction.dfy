/** Reduction of entities (`compute`, `evaluate`), the call protocol (`Function.call`) and
    user-defined functions (`create_function`), as imperative methods over a Runtime.

    The host tests for a fixpoint by object identity; `compute` here returns a `Step` that
    says whether the entity itself came back. Evaluation may diverge, so every method takes
    a `fuel` bound and fails with `OutOfFuel` when it runs out; within the bound the methods
    return what a reference semantics of functions (`EvalF`, `StepF`, `CallF`), indexed by
    the same fuel, gives wherever that is known. */
module Reduction {
  import opened Entities
  import Builtins
  import Functools

  /** The result of one `compute`: the next state, and whether it differs from the entity
      that was computed. */
  datatype Step = Step(changed: bool, value: Entity)

  /** Whether `compute` hands back `e` itself when names resolve in `scope`: a Name bound to
      that very Name, a Vector whose elements were all at a fixpoint in the last round,
      and every entity without a `compute` of its own. */
  predicate Normal(scope: Scope, e: Entity)
  {
    match e
    case Name(id) => Resolve(scope, id) == Success(e)
    case Vector(es, c) => c == |es|
    case SExpr(_) => false
    case SigilString(_, _) => false
    case _ => true
  }

  /** The scope-independent part of `Normal`. */
  predicate Settled(e: Entity)
  {
    !e.SExpr? && !e.SigilString? && (e.Vector? ==> e.computed == |e.es|)
  }

  function Quote(args: seq<Entity>): (qs: seq<Entity>)
    ensures |qs| == |args| && forall i :: 0 <= i < |args| ==> qs[i] == Quoted(args[i])
  {
    seq(|args|, i requires 0 <= i < |args| => Quoted(args[i]))
  }

  /** What a native returns for the prepared arguments, before that result is evaluated. */
  function NativeResult(f: Function, ps: seq<Entity>): Result<Entity>
    requires !f.fn.Closure?
  {
    match f.fn
    case Plus => Builtins.Add(ps)
    case Times => Builtins.Mul(ps)
    case Minus => Builtins.Sub(ps)
    case Neg => Builtins.Negate(ps)
    case Power => Builtins.Pow(ps)
    case JoinStrings => Builtins.Join(ps)
    case ToBool => Builtins.Bool(ps)
    case PrintValue => Builtins.Print(ps)
    case MapEach => Functools.Map(ps)
    case ConsCell => Functools.Cons(ps)
    case EmptyTest => Functools.IsEmpty(ps)
    case ListHead => Functools.LHead(ps)
    case ListRest => Functools.LRest(ps)
    case ListForeach => Functools.LForeach(ps)
    case ListMap(cons) => Functools.LMap(f, cons, ps)
    case ListMapAsWritten(cons, tail) => Functools.LMapAsWritten(cons, tail, ps)
  }

  // ---------------------------------------------------------------------------------------
  // The reference semantics: the same reduction written as functions over the frames'
  // names. Frames are mutable, so these functions cannot read a Function's captured frame:
  // a call that runs inside one (`RunF` over the frame's tables, which `Invoke` states) is
  // `Unknown` here unless it fails before the callable runs.
  // `fuel` bounds the nesting of evaluations exactly as it does in the methods below.

  datatype Answer<T> = Known(result: Result<T>) | Unknown

  /** The entities a round of steps produced. */
  function Values(ss: seq<Step>): (vs: seq<Entity>)
    ensures |vs| == |ss| && forall i :: 0 <= i < |ss| ==> vs[i] == ss[i].value
  {
    seq(|ss|, i requires 0 <= i < |ss| => ss[i].value)
  }

  /** How many steps of a round came back unchanged. */
  function Unchanged(ss: seq<Step>): (n: nat)
    ensures n <= |ss|
  {
    if ss == [] then 0 else Unchanged(ss[..|ss| - 1]) + (if ss[|ss| - 1].changed then 0 else 1)
  }

  /** `evaluate`. */
  function EvalF(fuel: nat, scope: Scope, e: Entity): (r: Answer<Entity>)
    ensures r.Known? && r.result.Success? ==> Normal(scope, r.result.value)
    ensures !e.Vector? && Normal(scope, e) ==> r == Known(Success(e))
    ensures e.Vector? && r.Known? && r.result.Success? ==>
      r.result.value.Vector? && |r.result.value.es| == |e.es| && r.result.value.computed == |e.es|
    decreases fuel, 4, 0
  {
    if e.Vector? then
      match EachF(fuel, scope, e.es)
      case Unknown => Unknown
      case Known(Failure(err)) => Known(Failure(err))
      case Known(Success(ss)) => Known(Success(Vector(Values(ss), |e.es|)))
    else LoopF(fuel, fuel, scope, e)
  }

  /** The `while True` loop of `evaluate` with `n` more rounds allowed after this one: the
      first state whose step hands it back. */
  function LoopF(fuel: nat, n: nat, scope: Scope, state: Entity): (r: Answer<Entity>)
    ensures r.Known? && r.result.Success? ==> Normal(scope, r.result.value)
    ensures Normal(scope, state) ==> r == Known(Success(state))
    decreases fuel, 3, n
  {
    match StepF(fuel, scope, state)
    case Unknown => Unknown
    case Known(Failure(err)) => Known(Failure(err))
    case Known(Success(s)) =>
      if !s.changed then Known(Success(state))
      else if n == 0 then Known(Failure(OutOfFuel))
      else LoopF(fuel, n - 1, scope, s.value)
  }

  /** One `compute` of each element, in order. */
  function EachF(fuel: nat, scope: Scope, es: seq<Entity>): (r: Answer<seq<Step>>)
    ensures r.Known? && r.result.Success? ==>
      |r.result.value| == |es| &&
      forall i :: 0 <= i < |es| ==> StepF(fuel, scope, es[i]) == Known(Success(r.result.value[i]))
    decreases fuel, 2, |es|
  {
    if es == [] then Known(Success([]))
    else
      match StepF(fuel, scope, es[0])
      case Unknown => Unknown
      case Known(Failure(err)) => Known(Failure(err))
      case Known(Success(s)) =>
        match EachF(fuel, scope, es[1..])
        case Unknown => Unknown
        case Known(Failure(err)) => Known(Failure(err))
        case Known(Success(ss)) =>
          assert forall i :: 0 < i < |es| ==> es[i] == es[1..][i - 1];
          Known(Success([s] + ss))
  }

  /** `compute`. */
  function StepF(fuel: nat, scope: Scope, e: Entity): (r: Answer<Step>)
    ensures r.Known? && r.result.Success? ==>
      r.result.value.changed == !Normal(scope, e) &&
      (!r.result.value.changed ==> r.result.value.value == e)
    ensures Normal(scope, e) ==> r == Known(Success(Step(false, e)))
    ensures e.Name? ==>
      r.Known? && (r.result.Failure? <==> Resolve(scope, e.identifier).Failure?) &&
      (r.result.Failure? ==> r.result.error == UnboundName(e.identifier)) &&
      (r.result.Success? ==> Success(r.result.value.value) == Resolve(scope, e.identifier))
    ensures e.SExpr? && e.es == [] ==> r == Known(Failure(EmptyApplication))
    ensures e.Vector? && r.Known? && r.result.Success? && r.result.value.changed ==>
      var v := r.result.value.value;
      v.Vector? && |v.es| == |e.es| && v.computed <= |v.es|
    decreases fuel, 1, 0
  {
    match e
    case Name(id) =>
      (match Resolve(scope, id)
       case Failure(err) => Known(Failure(err))
       case Success(v) => Known(Success(Step(v != e, v))))
    case SigilString(g, t) => Known(Success(Step(true, SExpr([Name(SigilFunctionName(g)), String(t)]))))
    case Vector(es, c) =>
      if c == |es| then Known(Success(Step(false, e)))
      else if fuel == 0 then Known(Failure(OutOfFuel))
      else
        (match EachF(fuel - 1, scope, es)
         case Unknown => Unknown
         case Known(Failure(err)) => Known(Failure(err))
         case Known(Success(ss)) => Known(Success(Step(true, Vector(Values(ss), Unchanged(ss))))))
    case SExpr(es) =>
      if |es| == 0 then Known(Failure(EmptyApplication))
      else if fuel == 0 then Known(Failure(OutOfFuel))
      else
        (match EvalF(fuel - 1, scope, es[0])
         case Unknown => Unknown
         case Known(Failure(err)) => Known(Failure(err))
         case Known(Success(h)) =>
           if !h.Fn? then Known(Failure(NotCallable))
           else
             match CallF(fuel - 1, scope, h.f, es[1..])
             case Unknown => Unknown
             case Known(Failure(err)) => Known(Failure(err))
             case Known(Success(v)) => Known(Success(Step(true, v))))
    case _ => Known(Success(Step(false, e)))
  }

  /** `Function.call`. */
  function CallF(fuel: nat, scope: Scope, f: Function, args: seq<Entity>): (r: Answer<Entity>)
    ensures fuel == 0 ==> r == Known(Failure(OutOfFuel))
    ensures r.Known? && r.result.Success? ==> Settled(r.result.value)
    decreases fuel, 0, 0
  {
    if fuel == 0 then Known(Failure(OutOfFuel))
    else
      match PrepareF(fuel - 1, scope, f.lazy, args)
      case Unknown => Unknown
      case Known(Failure(err)) => Known(Failure(err))
      case Known(Success(ps)) => InvokeF(fuel - 1, scope, f, ps)
  }

  /** `Function.call` on the prepared arguments. Without a captured frame the callable runs
      in the caller's scope; with one, only the failures that do not depend on that frame's
      names are known here (`Invoke` states the rest). */
  function InvokeF(fuel: nat, scope: Scope, f: Function, ps: seq<Entity>): (r: Answer<Entity>)
    ensures f.fn.Closure? && |ps| != |f.fn.argNames| ==> r == Known(Failure(ArityMismatch(|ps|, |f.fn.argNames|)))
    ensures !f.fn.Closure? && NativeResult(f, ps).Failure? ==> r == Known(NativeResult(f, ps))
    ensures f.closure != null && r.Known? ==> r.result.Failure?
    ensures r.Known? && r.result.Success? ==> Settled(r.result.value)
    decreases fuel, 6, 0
  {
    if f.closure == null then RunF(fuel, scope, f, ps)
    else if f.fn.Closure? && |ps| != |f.fn.argNames| then Known(Failure(ArityMismatch(|ps|, |f.fn.argNames|)))
    else if !f.fn.Closure? && NativeResult(f, ps).Failure? then Known(NativeResult(f, ps))
    else Unknown
  }

  /** `self.fn(runtime, *computed_args).evaluate(runtime)` while the names visible are
      `inner`: a user-defined function checks its arity and evaluates its body under a table
      of its parameters over `inner`; a native computes its result directly; what the
      callable returns is then evaluated in `inner`. */
  function RunF(fuel: nat, inner: Scope, f: Function, ps: seq<Entity>): (r: Answer<Entity>)
    ensures f.fn.Closure? && |ps| != |f.fn.argNames| ==> r == Known(Failure(ArityMismatch(|ps|, |f.fn.argNames|)))
    ensures !f.fn.Closure? && NativeResult(f, ps).Failure? ==> r == Known(NativeResult(f, ps))
    ensures r.Known? && r.result.Success? ==> Settled(r.result.value)
    decreases fuel, 5, 0
  {
    var made :=
      if !f.fn.Closure? then Known(NativeResult(f, ps))
      else if |ps| != |f.fn.argNames| then Known(Failure(ArityMismatch(|ps|, |f.fn.argNames|)))
      else EvalF(fuel, [ZipNames(f.fn.argNames, ps)] + inner, f.fn.body);
    match made
    case Unknown => Unknown
    case Known(Failure(err)) => Known(Failure(err))
    case Known(Success(v)) => EvalF(fuel, inner, v)
  }

  /** The arguments `Function.call` passes on. */
  function PrepareF(fuel: nat, scope: Scope, lazy: bool, args: seq<Entity>): (r: Answer<seq<Entity>>)
    ensures lazy ==> r == Known(Success(Quote(args)))
    ensures !lazy && r.Known? && r.result.Success? ==>
      |r.result.value| == |args| &&
      forall i :: 0 <= i < |args| ==> EvalF(fuel, scope, args[i]) == Known(Success(r.result.value[i]))
    decreases fuel, 5, |args|
  {
    if lazy then Known(Success(Quote(args)))
    else if args == [] then Known(Success([]))
    else
      match EvalF(fuel, scope, args[0])
      case Unknown => Unknown
      case Known(Failure(err)) => Known(Failure(err))
      case Known(Success(v)) =>
        match PrepareF(fuel, scope, false, args[1..])
        case Unknown => Unknown
        case Known(Failure(err)) => Known(Failure(err))
        case Known(Success(vs)) =>
          assert forall i :: 0 < i < |args| ==> args[i] == args[1..][i - 1];
          Known(Success([v] + vs))
  }

  /** What one round of the loop tells about the answer `goal` of the rounds from `state`
      on, given the result `step` of computing `state`. */
  lemma LoopAdvance(fuel: nat, n: nat, scope: Scope, state: Entity, step: Result<Step>, goal: Answer<Entity>)
    requires goal.Known? ==> goal == LoopF(fuel, n, scope, state)
    requires StepF(fuel, scope, state).Known? ==> step == StepF(fuel, scope, state).result
    ensures goal.Known? && step.Failure? ==> goal.result == Failure(step.error)
    ensures goal.Known? && step.Success? && !step.value.changed ==> goal.result == Success(state)
    ensures goal.Known? && step.Success? && step.value.changed && n == 0 ==> goal.result == Failure(OutOfFuel)
    ensures goal.Known? && step.Success? && step.value.changed && n > 0 ==>
      goal == LoopF(fuel, n - 1, scope, step.value.value)
  {
  }

  /** `pre` in front of a successful answer; any other answer as it is. */
  function Prefixed<T>(pre: seq<T>, a: Answer<seq<T>>): Answer<seq<T>>
  {
    match a
    case Known(Success(t)) => Known(Success(pre + t))
    case _ => a
  }

  lemma PrefixedNil<T>(a: Answer<seq<T>>)
    ensures Prefixed([], a) == a
  {
    match a
    case Known(Success(t)) => assert [] + t == t;
    case _ =>
  }

  lemma PrefixedAppend<T>(pre: seq<T>, x: T, a: Answer<seq<T>>)
    ensures Prefixed(pre, Prefixed([x], a)) == Prefixed(pre + [x], a)
  {
    match a
    case Known(Success(t)) => assert pre + ([x] + t) == (pre + [x]) + t;
    case _ =>
  }

  lemma StepsAppend(steps: seq<Step>, s: Step)
    ensures Values(steps + [s]) == Values(steps) + [s.value]
    ensures Unchanged(steps + [s]) == Unchanged(steps) + if s.changed then 0 else 1
  {
    assert (steps + [s])[..|steps|] == steps;
  }

  /** The element at `i` of a round whose first `i` steps were `steps`. */
  lemma EachAt(fuel: nat, scope: Scope, es: seq<Entity>, i: nat, steps: seq<Step>)
    requires i < |es|
    requires EachF(fuel, scope, es).Known? ==> EachF(fuel, scope, es) == Prefixed(steps, EachF(fuel, scope, es[i..]))
    ensures EachF(fuel, scope, es).Known? ==> StepF(fuel, scope, es[i]).Known?
    ensures EachF(fuel, scope, es).Known? && StepF(fuel, scope, es[i]).result.Failure? ==>
      EachF(fuel, scope, es) == Known(Failure(StepF(fuel, scope, es[i]).result.error))
    ensures EachF(fuel, scope, es).Known? && StepF(fuel, scope, es[i]).result.Success? ==>
      EachF(fuel, scope, es) == Prefixed(steps + [StepF(fuel, scope, es[i]).result.value], EachF(fuel, scope, es[i + 1..]))
  {
    assert es[i..][0] == es[i] && es[i..][1..] == es[i + 1..];
    EachFirst(fuel, scope, es[i..]);
    if StepF(fuel, scope, es[i]).Known? && StepF(fuel, scope, es[i]).result.Success? {
      PrefixedAppend(steps, StepF(fuel, scope, es[i]).result.value, EachF(fuel, scope, es[i + 1..]));
    }
  }

  /** One element of a round, and the rest. */
  lemma EachFirst(fuel: nat, scope: Scope, es: seq<Entity>)
    requires es != []
    ensures StepF(fuel, scope, es[0]).Known? && StepF(fuel, scope, es[0]).result.Success? ==>
      EachF(fuel, scope, es) == Prefixed([StepF(fuel, scope, es[0]).result.value], EachF(fuel, scope, es[1..]))
    ensures !StepF(fuel, scope, es[0]).Known? ==> EachF(fuel, scope, es) == Unknown
    ensures StepF(fuel, scope, es[0]).Known? && StepF(fuel, scope, es[0]).result.Failure? ==>
      EachF(fuel, scope, es) == Known(Failure(StepF(fuel, scope, es[0]).result.error))
  {
  }

  /** One argument, and the rest. */
  lemma PrepareFirst(fuel: nat, scope: Scope, args: seq<Entity>)
    requires args != []
    ensures EvalF(fuel, scope, args[0]).Known? && EvalF(fuel, scope, args[0]).result.Success? ==>
      PrepareF(fuel, scope, false, args) ==
      Prefixed([EvalF(fuel, scope, args[0]).result.value], PrepareF(fuel, scope, false, args[1..]))
    ensures !EvalF(fuel, scope, args[0]).Known? ==> PrepareF(fuel, scope, false, args) == Unknown
    ensures EvalF(fuel, scope, args[0]).Known? && EvalF(fuel, scope, args[0]).result.Failure? ==>
      PrepareF(fuel, scope, false, args) == Known(Failure(EvalF(fuel, scope, args[0]).result.error))
  {
  }

  /** A round leaves every element unchanged exactly when its count of unchanged steps is
      its length. */
  lemma {:induction false} UnchangedAll(ss: seq<Step>)
    ensures Unchanged(ss) == |ss| <==> forall i :: 0 <= i < |ss| ==> !ss[i].changed
    decreases |ss|
  {
    if ss != [] {
      var init := ss[..|ss| - 1];
      UnchangedAll(init);
      assert forall i :: 0 <= i < |init| ==> init[i] == ss[i];
    }
  }

  /** `Vector.evaluate` as its comment means it: the result the `while True` loop of
      `Entity.evaluate` reaches from the vector, in which no element is left unreduced. The
      shortcut as written (`EvalF`) computes each element only once. */
  function VectorEvalF(fuel: nat, scope: Scope, es: seq<Entity>, c: int): (r: Answer<Entity>)
    ensures r.Known? && r.result.Success? ==>
      var v := r.result.value;
      v.Vector? && |v.es| == |es| && v.computed == |es| &&
      (c != |es| ==> forall i :: 0 <= i < |es| ==> Normal(scope, v.es[i]))
  {
    var loop := LoopF(fuel, fuel, scope, Vector(es, c));
    if loop.Known? && loop.result.Success? && c != |es| then
      LoopSettlesVector(fuel, fuel, scope, es, c, loop.result.value);
      loop
    else loop
  }

  /** The loop from a vector that is not yet done ends, if it succeeds, at a vector of the
      same length whose elements are all at a fixpoint. */
  lemma {:induction false} LoopSettlesVector(fuel: nat, n: nat, scope: Scope, es: seq<Entity>, c: int, v: Entity)
    requires c != |es|
    requires LoopF(fuel, n, scope, Vector(es, c)) == Known(Success(v))
    ensures v.Vector? && |v.es| == |es| && v.computed == |es|
    ensures forall i :: 0 <= i < |es| ==> Normal(scope, v.es[i])
    decreases n
  {
    var vs, k := VectorRound(fuel, n, scope, es, c, v);
    if k != |vs| {
      LoopSettlesVector(fuel, n - 1, scope, vs, k, v);
    }
  }

  /** A successful loop from a vector not yet done took a round and went on from the
      vector `Vector(vs, k)` that round made; when the round left every element unchanged,
      those elements were all at a fixpoint. */
  lemma VectorRound(fuel: nat, n: nat, scope: Scope, es: seq<Entity>, c: int, v: Entity)
    returns (vs: seq<Entity>, k: int)
    requires c != |es|
    requires LoopF(fuel, n, scope, Vector(es, c)) == Known(Success(v))
    ensures |vs| == |es| && n > 0
    ensures LoopF(fuel, n - 1, scope, Vector(vs, k)) == Known(Success(v))
    ensures k == |vs| ==> forall i :: 0 <= i < |vs| ==> Normal(scope, vs[i])
  {
    assert !Normal(scope, Vector(es, c));
    var ss := EachF(fuel - 1, scope, es).result.value;
    vs, k := Values(ss), Unchanged(ss);
    if k == |ss| {
      UnchangedAll(ss);
      forall i | 0 <= i < |vs|
        ensures Normal(scope, vs[i])
      {
        assert StepF(fuel - 1, scope, es[i]) == Known(Success(ss[i]));
      }
    }
  }

  // ---------------------------------------------------------------------------------------
  // The interpreter. Each method returns what the reference semantics gives, whenever that
  // is known.

  /** `evaluate`: repeat `compute` until it hands back the entity itself. A vector's own
      `evaluate` computes each element once instead. */
  method Evaluate(rt: Runtime, ghost scope: Scope, e: Entity, fuel: nat) returns (r: Result<Entity>)
    requires rt.Valid() && rt.CurrentScope() == scope
    modifies rt
    ensures rt.Valid() && rt.stack == old(rt.stack) && rt.CurrentScope() == scope
    ensures EvalF(fuel, scope, e).Known? ==> r == EvalF(fuel, scope, e).result
    ensures r.Success? ==> Normal(scope, r.value)
    decreases fuel, 5
  {
    if e.Vector? {
      var each, _ := ComputeEach(rt, scope, e.es, fuel);
      if each.Failure? {
        return Failure(each.error);
      }
      return Success(Vector(each.value, |e.es|));
    }
    r := Reduce(rt, scope, e, fuel);
  }

  /** The `while True` loop of `evaluate`: the first state whose `compute` hands it back. */
  method Reduce(rt: Runtime, ghost scope: Scope, e: Entity, fuel: nat) returns (r: Result<Entity>)
    requires rt.Valid() && rt.CurrentScope() == scope
    modifies rt
    ensures rt.Valid() && rt.stack == old(rt.stack) && rt.CurrentScope() == scope
    ensures LoopF(fuel, fuel, scope, e).Known? ==> r == LoopF(fuel, fuel, scope, e).result
    ensures r.Success? ==> Normal(scope, r.value)
    decreases fuel, 4
  {
    ghost var goal := LoopF(fuel, fuel, scope, e);
    var state := e;
    var n := fuel;
    while true
      invariant rt.Valid() && rt.stack == old(rt.stack) && rt.CurrentScope() == scope
      invariant goal == LoopF(fuel, fuel, scope, e)
      invariant goal.Known? ==> goal == LoopF(fuel, n, scope, state)
      decreases n
    {
      var step := Compute(rt, scope, state, fuel);
      LoopAdvance(fuel, n, scope, state, step, goal);
      if step.Failure? {
        return Failure(step.error);
      }
      if !step.value.changed {
        return Success(state);
      }
      if n == 0 {
        return Failure(OutOfFuel);
      }
      n := n - 1;
      state := step.value.value;
    }
  }

  /** One `compute` of each element, in order, counting the elements that came back
      unchanged: the loop of `Vector.compute`, also used by `Vector.evaluate`. */
  method ComputeEach(rt: Runtime, ghost scope: Scope, es: seq<Entity>, fuel: nat) returns (r: Result<seq<Entity>>, count: nat)
    requires rt.Valid() && rt.CurrentScope() == scope
    modifies rt
    ensures rt.Valid() && rt.stack == old(rt.stack) && rt.CurrentScope() == scope
    ensures r.Success? ==> |r.value| == |es| && count <= |es|
    ensures
      var a := EachF(fuel, scope, es);
      a.Known? ==>
        if a.result.Failure? then r == Failure(a.result.error)
        else r == Success(Values(a.result.value)) && count == Unchanged(a.result.value)
    decreases fuel, 3
  {
    ghost var steps: seq<Step> := [];
    var out: seq<Entity> := [];
    count := 0;
    assert es[0..] == es;
    PrefixedNil(EachF(fuel, scope, es));
    for i := 0 to |es|
      invariant rt.Valid() && rt.stack == old(rt.stack) && rt.CurrentScope() == scope
      invariant |steps| == i && out == Values(steps) && count == Unchanged(steps)
      invariant EachF(fuel, scope, es).Known? ==> EachF(fuel, scope, es) == Prefixed(steps, EachF(fuel, scope, es[i..]))
    {
      var step := Compute(rt, scope, es[i], fuel);
      EachAt(fuel, scope, es, i, steps);
      if step.Failure? {
        return Failure(step.error), count;
      }
      StepsAppend(steps, step.value);
      if !step.value.changed {
        count := count + 1;
      }
      steps := steps + [step.value];
      out := out + [step.value.value];
    }
    assert es[|es|..] == [] && steps + [] == steps;
    r := Success(out);
  }

  /** `compute`: one reduction step, dispatched on the kind of entity. */
  method Compute(rt: Runtime, ghost scope: Scope, e: Entity, fuel: nat) returns (r: Result<Step>)
    requires rt.Valid() && rt.CurrentScope() == scope
    modifies rt
    ensures rt.Valid() && rt.stack == old(rt.stack) && rt.CurrentScope() == scope
    ensures StepF(fuel, scope, e).Known? ==> r == StepF(fuel, scope, e).result
    ensures r.Success? ==>
      r.value.changed == !Normal(scope, e) && (!r.value.changed ==> r.value.value == e)
    decreases fuel, 2
  {
    match e
    case Name(id) =>
      var v := rt.Get(id);
      if v.Failure? {
        r := Failure(v.error);
      } else {
        r := Success(Step(v.value != e, v.value));
      }
    case SigilString(g, t) =>
      r := Success(Step(true, SExpr([Name(SigilFunctionName(g)), String(t)])));
    case Vector(es, c) =>
      r := ComputeVector(rt, scope, es, c, fuel);
    case SExpr(es) =>
      r := ComputeApplication(rt, scope, es, fuel);
    case _ =>
      r := Success(Step(false, e));
  }

  /** `Vector.compute`: one step on every element not yet at rest. */
  method ComputeVector(rt: Runtime, ghost scope: Scope, es: seq<Entity>, c: int, fuel: nat) returns (r: Result<Step>)
    requires rt.Valid() && rt.CurrentScope() == scope
    modifies rt
    ensures rt.Valid() && rt.stack == old(rt.stack) && rt.CurrentScope() == scope
    ensures StepF(fuel, scope, Vector(es, c)).Known? ==>
      r == StepF(fuel, scope, Vector(es, c)).result
    ensures r.Success? ==> r.value == if c == |es| then Step(false, Vector(es, c)) else Step(true, r.value.value)
    decreases fuel, 1
  {
    if c == |es| {
      r := Success(Step(false, Vector(es, c)));
    } else if fuel == 0 {
      r := Failure(OutOfFuel);
    } else {
      var each, count := ComputeEach(rt, scope, es, fuel - 1);
      if each.Failure? {
        r := Failure(each.error);
      } else {
        r := Success(Step(true, Vector(each.value, count)));
      }
    }
  }

  /** `SExpr.compute`: evaluate the head and call it on the unevaluated rest. */
  method ComputeApplication(rt: Runtime, ghost scope: Scope, es: seq<Entity>, fuel: nat) returns (r: Result<Step>)
    requires rt.Valid() && rt.CurrentScope() == scope
    modifies rt
    ensures rt.Valid() && rt.stack == old(rt.stack) && rt.CurrentScope() == scope
    ensures StepF(fuel, scope, SExpr(es)).Known? ==>
      r == StepF(fuel, scope, SExpr(es)).result
    ensures r.Success? ==> r.value.changed
    decreases fuel, 1
  {
    if |es| == 0 {
      r := Failure(EmptyApplication);
    } else if fuel == 0 {
      r := Failure(OutOfFuel);
    } else {
      var head := Evaluate(rt, scope, es[0], fuel - 1);
      if head.Failure? {
        r := Failure(head.error);
      } else if !head.value.Fn? {
        r := Failure(NotCallable);
      } else {
        var result := Call(rt, scope, head.value.f, es[1..], fuel - 1);
        if result.Failure? {
          r := Failure(result.error);
        } else {
          r := Success(Step(true, result.value));
        }
      }
    }
  }

  /** `Function.call`: prepare the arguments, then `Invoke`. */
  method Call(rt: Runtime, ghost scope: Scope, f: Function, args: seq<Entity>, fuel: nat) returns (r: Result<Entity>)
    requires rt.Valid() && rt.CurrentScope() == scope
    modifies rt
    ensures rt.Valid() && rt.stack == old(rt.stack) && rt.CurrentScope() == scope
    ensures CallF(fuel, scope, f, args).Known? ==> r == CallF(fuel, scope, f, args).result
    ensures fuel > 0 && PrepareF(fuel - 1, scope, f.lazy, args).Known? ==>
      var prepared := PrepareF(fuel - 1, scope, f.lazy, args).result;
      (prepared.Failure? ==> r == Failure(prepared.error)) &&
      (prepared.Success? ==>
         var run := RunF(fuel - 1, Inner(scope, f), f, prepared.value);
         run.Known? ==> r == run.result)
    decreases fuel, 0
  {
    if fuel == 0 {
      return Failure(OutOfFuel);
    }
    var prepared := PrepareArguments(rt, scope, f.lazy, args, fuel - 1);
    if prepared.Failure? {
      r := Failure(prepared.error);
    } else {
      r := Invoke(rt, scope, f, prepared.value, fuel - 1);
    }
    CallAdvance(fuel, scope, f, args, prepared, r);
  }

  /** What the prepared arguments and the result of `Invoke` on them tell about a call. */
  lemma CallAdvance(fuel: nat, scope: Scope, f: Function, args: seq<Entity>,
                    prepared: Result<seq<Entity>>, r: Result<Entity>)
    requires fuel > 0
    requires PrepareF(fuel - 1, scope, f.lazy, args).Known? ==>
      prepared == PrepareF(fuel - 1, scope, f.lazy, args).result
    requires prepared.Failure? ==> r == Failure(prepared.error)
    requires prepared.Success? && InvokeF(fuel - 1, scope, f, prepared.value).Known? ==>
      r == InvokeF(fuel - 1, scope, f, prepared.value).result
    ensures CallF(fuel, scope, f, args).Known? ==> r == CallF(fuel, scope, f, args).result
  {
  }

  /** The rest of `Function.call`, on the prepared arguments: push the captured frame if
      there is one, run the callable, and pop the captured frame again whether or not that
      succeeded. */
  method Invoke(rt: Runtime, ghost scope: Scope, f: Function, ps: seq<Entity>, fuel: nat) returns (r: Result<Entity>)
    requires rt.Valid() && rt.CurrentScope() == scope
    modifies rt
    ensures rt.Valid() && rt.stack == old(rt.stack) && rt.CurrentScope() == scope
    ensures InvokeF(fuel, scope, f, ps).Known? ==> r == InvokeF(fuel, scope, f, ps).result
    ensures RunF(fuel, Inner(scope, f), f, ps).Known? ==> r == RunF(fuel, Inner(scope, f), f, ps).result
    decreases fuel, 8
  {
    ghost var inner := Inner(scope, f);
    if f.closure == null {
      r := RunCallable(rt, scope, f, ps, fuel);
    } else {
      rt.Push(f.closure);
      assert rt.CurrentFrame() == f.closure;
      r := RunCallable(rt, inner, f, ps, fuel);
      var popped := rt.Pop();
      ScopeKept(rt);
    }
    assert Inner(scope, f) == inner;
  }

  /** The names visible while `f`'s callable runs: those of its captured frame when it has
      one, the caller's otherwise. */
  function Inner(scope: Scope, f: Function): (inner: Scope)
    reads if f.closure == null then [] else f.closure.Chain()
    ensures f.closure != null ==> inner == [f.closure.names] + Tables(f.closure.ancestors)
    ensures f.closure == null ==> inner == scope
  {
    if f.closure == null then scope else f.closure.Visible()
  }

  /** `self.fn(runtime, *computed_args).evaluate(runtime)` in whatever frame is current. */
  method RunCallable(rt: Runtime, ghost scope: Scope, f: Function, ps: seq<Entity>, fuel: nat) returns (r: Result<Entity>)
    requires rt.Valid() && rt.CurrentScope() == scope
    modifies rt
    ensures rt.Valid() && rt.stack == old(rt.stack) && rt.CurrentScope() == scope
    ensures f.fn.Closure? && |ps| != |f.fn.argNames| ==> r == Failure(ArityMismatch(|ps|, |f.fn.argNames|))
    ensures !f.fn.Closure? && NativeResult(f, ps).Failure? ==> r == NativeResult(f, ps)
    ensures !f.fn.Closure? && NativeResult(f, ps).Success? ==>
      (EvalF(fuel, scope, NativeResult(f, ps).value).Known? ==>
       r == EvalF(fuel, scope, NativeResult(f, ps).value).result)
    ensures RunF(fuel, scope, f, ps).Known? ==> r == RunF(fuel, scope, f, ps).result
    decreases fuel, 7
  {
    var result: Result<Entity>;
    if f.fn.Closure? {
      ghost var local;
      result, local := ApplyClosure(rt, scope, f, ps, fuel);
    } else {
      result := NativeResult(f, ps);
    }
    if result.Success? {
      r := Evaluate(rt, scope, result.value, fuel);
    } else {
      r := Failure(result.error);
    }
  }

  /** The arguments as `Function.call` passes them on: each quoted, in order, for a lazy
      Function; each evaluated, left to right, for a strict one. */
  method PrepareArguments(rt: Runtime, ghost scope: Scope, lazy: bool, args: seq<Entity>, fuel: nat) returns (r: Result<seq<Entity>>)
    requires rt.Valid() && rt.CurrentScope() == scope
    modifies rt
    ensures rt.Valid() && rt.stack == old(rt.stack) && rt.CurrentScope() == scope
    ensures PrepareF(fuel, scope, lazy, args).Known? ==>
      r == PrepareF(fuel, scope, lazy, args).result
    ensures r.Success? ==> |r.value| == |args|
    decreases fuel, 6
  {
    if lazy {
      return Success(Quote(args));
    }
    var ps: seq<Entity> := [];
    assert args[0..] == args;
    PrefixedNil(PrepareF(fuel, scope, false, args));
    for i := 0 to |args|
      invariant rt.Valid() && rt.stack == old(rt.stack) && rt.CurrentScope() == scope
      invariant |ps| == i
      invariant PrepareF(fuel, scope, false, args).Known? ==>
        PrepareF(fuel, scope, false, args) == Prefixed(ps, PrepareF(fuel, scope, false, args[i..]))
    {
      var v := Evaluate(rt, scope, args[i], fuel);
      assert args[i..][0] == args[i] && args[i..][1..] == args[i + 1..];
      PrepareFirst(fuel, scope, args[i..]);
      if v.Success? {
        PrefixedAppend(ps, v.value, PrepareF(fuel, scope, false, args[i + 1..]));
      }
      if v.Failure? {
        return Failure(v.error);
      }
      ps := ps + [v.value];
    }
    assert args[|args|..] == [] && ps + [] == ps;
    r := Success(ps);
  }

  /** The binding of `dict(zip(names, values))` for as many values as names: every name
      bound, a later occurrence of a name overriding an earlier one (`ZipNamesBinds`). */
  function ZipNames(names: seq<string>, values: seq<Entity>): (m: map<string, Entity>)
    requires |names| == |values|
    ensures m.Keys == set k | k in names
    decreases |names|
  {
    if names == [] then map[]
    else
      var k := |names| - 1;
      assert names == names[..k] + [names[k]];
      ZipNames(names[..k], values[..k])[names[k] := values[k]]
  }

  /** A name is bound to the value at its last occurrence. */
  lemma {:induction false} ZipNamesBinds(names: seq<string>, values: seq<Entity>, i: nat)
    requires |names| == |values| && i < |names| && names[i] !in names[i + 1..]
    ensures ZipNames(names, values)[names[i]] == values[i]
    decreases |names|
  {
    var k := |names| - 1;
    if i < k {
      assert names[..k][i + 1..] == names[i + 1..k];
      assert names[k] in names[i + 1..];
      ZipNamesBinds(names[..k], values[..k], i);
    }
  }

  /** The body of a user-defined function: check the arity before touching the stack, then
      push a frame that binds the parameters under the current frame, evaluate the body
      there, and pop that frame, also when the body fails. */
  method ApplyClosure(rt: Runtime, ghost scope: Scope, caller: Function, args: seq<Entity>, fuel: nat)
    returns (r: Result<Entity>, ghost local: StackFrame?)
    requires rt.Valid() && rt.CurrentScope() == scope && caller.fn.Closure?
    modifies rt
    ensures rt.Valid() && rt.stack == old(rt.stack) && rt.CurrentScope() == scope
    ensures |args| != |caller.fn.argNames| ==>
      r == Failure(ArityMismatch(|args|, |caller.fn.argNames|)) && local == null
    ensures |args| == |caller.fn.argNames| ==>
      local != null && fresh(local) &&
      local.ancestors == old(rt.CurrentFrame()).Chain() &&
      local.depth == old(rt.CurrentFrame()).depth + 1 &&
      local.caller == caller.fn.owner &&
      local.names == ZipNames(caller.fn.argNames, args)
    ensures r.Success? ==>
      |args| == |caller.fn.argNames| &&
      Normal([ZipNames(caller.fn.argNames, args)] + scope, r.value)
    ensures |args| == |caller.fn.argNames| ==>
      EvalF(fuel, [ZipNames(caller.fn.argNames, args)] + scope, caller.fn.body).Known? ==>
      r == EvalF(fuel, [ZipNames(caller.fn.argNames, args)] + scope, caller.fn.body).result
    decreases fuel, 6
  {
    var argNames := caller.fn.argNames;
    if |args| != |argNames| {
      return Failure(ArityMismatch(|args|, |argNames|)), null;
    }
    var current := rt.CurrentFrame();
    ghost var inner := [ZipNames(argNames, args)] + scope;
    var frame := new StackFrame(current, current.depth + 1, caller.fn.owner, ZipNames(argNames, args));
    local := frame;
    rt.Push(frame);
    assert rt.CurrentScope() == inner;
    r := Evaluate(rt, inner, caller.fn.body, fuel);
    var popped := rt.Pop();
    ScopeKept(rt);
  }

  /** The visible names are those of the frames on the stack, so a stack put back as it was
      over frames whose tables did not change shows the same scope. */
  twostate lemma ScopeKept(rt: Runtime)
    requires old(rt.Valid()) && rt.Valid() && rt.stack == old(rt.stack)
    requires unchanged(old(rt.CurrentFrame()).Chain())
    ensures rt.CurrentScope() == old(rt.CurrentScope())
  {
  }

  /** `create_function`: a Function whose callable is the closure body and whose captured
      frame is the runtime's current frame, or none without a runtime. */
  method CreateFunction(rt: Runtime?, name: string, argNames: seq<string>, body: Entity, lazy: bool)
    returns (f: Function)
    requires rt != null ==> rt.Valid()
    ensures fresh(f) && f.name == name && f.fn == Closure(argNames, body, name) && f.lazy == lazy
    ensures f.closure == if rt == null then null else rt.CurrentFrame()
  {
    var closure: StackFrame? := if rt == null then null else rt.CurrentFrame();
    f := new Function(name, Closure(argNames, body, name), closure, lazy);
  }
}
