/** The built-in functions of bif.py: pure functions from the (already evaluated) argument
    list to the result entity or the failure the host raises, and the index that registers
    them under their names. A native whose parameters cannot be bound to the arguments
    fails with `WrongArgumentCount`; one that reads a field the argument does not have
    fails with `MissingAttribute`. */
module Builtins {
  import opened Entities

  predicate IntegerPair(args: seq<Entity>)
  {
    |args| == 2 && args[0].Integer? && args[1].Integer?
  }

  /** The failure of a two-integer native whose arguments are not two Integers. */
  function PairFailure(args: seq<Entity>): Error
  {
    if |args| != 2 then WrongArgumentCount else MissingAttribute
  }

  /** `+`. */
  function Add(args: seq<Entity>): (r: Result<Entity>)
    ensures r.Success? <==> IntegerPair(args)
    ensures r.Success? ==> r.value.Integer? && r.value.n - args[1].n == args[0].n
    ensures r.Failure? ==> r.error == PairFailure(args)
  {
    if IntegerPair(args) then Success(Integer(args[0].n + args[1].n)) else Failure(PairFailure(args))
  }

  /** `-`. */
  function Sub(args: seq<Entity>): (r: Result<Entity>)
    ensures r.Success? <==> IntegerPair(args)
    ensures r.Success? ==> r.value.Integer? && r.value.n + args[1].n == args[0].n
    ensures r.Failure? ==> r.error == PairFailure(args)
  {
    if IntegerPair(args) then Success(Integer(args[0].n - args[1].n)) else Failure(PairFailure(args))
  }

  /** `*`. */
  function Mul(args: seq<Entity>): (r: Result<Entity>)
    ensures r.Success? <==> IntegerPair(args)
    ensures r.Success? ==> r.value.Integer?
    ensures r.Success? && args[1].n != 0 ==> r.value.n % args[1].n == 0 && r.value.n / args[1].n == args[0].n
    ensures r.Success? && args[1].n == 0 ==> r.value.n == 0
    ensures r.Failure? ==> r.error == PairFailure(args)
  {
    if IntegerPair(args) then
      var a, b := args[0].n, args[1].n;
      ExactQuotient(a, b);
      Success(Integer(a * b))
    else Failure(PairFailure(args))
  }

  /** A product divided by a non-zero factor leaves no remainder and gives the other
      factor. */
  lemma ExactQuotient(a: int, b: int)
    ensures b != 0 ==> (a * b) % b == 0 && (a * b) / b == a
  {
    if b != 0 {
      var q, m := (a * b) / b, (a * b) % b;
      assert a * b == q * b + m && 0 <= m < if b < 0 then -b else b;
      assert (a - q) * b == m;
      if a != q {
        MultipleBounds(a - q, b);
      }
    }
  }

  /** A non-zero multiple of `b` is at least `|b|` away from 0. */
  lemma MultipleBounds(k: int, b: int)
    requires k != 0 && b != 0
    ensures k * b >= (if b < 0 then -b else b) || k * b <= -(if b < 0 then -b else b)
  {
  }

  /** `*` by `b + 1` adds the first operand once more to `*` by `b`. */
  lemma MulStep(a: int, b: int)
    ensures Mul([Integer(a), Integer(b + 1)]) == Add([Mul([Integer(a), Integer(b)]).value, Integer(a)])
    ensures Mul([Integer(a), Integer(0)]) == Success(Integer(0))
  {
    assert a * (b + 1) == a * b + a;
  }

  /** `neg`. */
  function Negate(args: seq<Entity>): (r: Result<Entity>)
    ensures r.Success? <==> |args| == 1 && args[0].Integer?
    ensures r.Success? ==> r.value.Integer? && r.value.n + args[0].n == 0
    ensures r.Failure? ==> r.error == if |args| != 1 then WrongArgumentCount else MissingAttribute
  {
    if |args| != 1 then Failure(WrongArgumentCount)
    else if !args[0].Integer? then Failure(MissingAttribute)
    else Success(Integer(-args[0].n))
  }

  /** `a ** b` for a natural exponent. */
  function IntPower(a: int, b: nat): int
    decreases b
  {
    if b == 0 then 1 else a * IntPower(a, b - 1)
  }

  lemma {:induction false} PowerOfSum(a: int, m: nat, n: nat)
    ensures IntPower(a, m + n) == IntPower(a, m) * IntPower(a, n)
    decreases m
  {
    if m > 0 {
      PowerOfSum(a, m - 1, n);
      assert IntPower(a, m + n) == a * IntPower(a, m - 1 + n);
    }
  }

  /** `**`. The host's integer power of a negative exponent is not an integer; the model
      reports it as `NonIntegerPower`. */
  function Pow(args: seq<Entity>): (r: Result<Entity>)
    ensures r.Success? <==> IntegerPair(args) && args[1].n >= 0
    ensures r.Success? ==> r.value == Integer(IntPower(args[0].n, args[1].n))
    ensures r.Failure? ==> r.error == if IntegerPair(args) then NonIntegerPower else PairFailure(args)
  {
    if !IntegerPair(args) then Failure(PairFailure(args))
    else if args[1].n < 0 then Failure(NonIntegerPower)
    else Success(Integer(IntPower(args[0].n, args[1].n)))
  }

  /** Raising to the power `m + n` multiplies the powers `m` and `n`. */
  lemma PowAdditive(a: int, m: nat, n: nat)
    ensures Pow([Integer(a), Integer(m + n)]) ==
      Mul([Pow([Integer(a), Integer(m)]).value, Pow([Integer(a), Integer(n)]).value])
  {
    PowerOfSum(a, m, n);
  }

  /** Multiplication distributes over addition. */
  lemma MulDistributesOverAdd(a: int, b: int, c: int)
    ensures Mul([Integer(a), Add([Integer(b), Integer(c)]).value]) ==
      Add([Mul([Integer(a), Integer(b)]).value, Mul([Integer(a), Integer(c)]).value])
  {
    assert a * (b + c) == a * b + a * c;
  }

  /** Subtracting what was added gives back the first operand. */
  lemma SubUndoesAdd(a: int, b: int)
    ensures Sub([Add([Integer(a), Integer(b)]).value, Integer(b)]) == Success(Integer(a))
  {
  }

  /** `neg` is subtraction from zero. */
  lemma NegateIsSubFromZero(x: Entity)
    ensures Negate([x]) == Sub([Integer(0), x])
  {
  }

  predicate HasText(e: Entity)
  {
    e.String? || e.Atom?
  }

  /** The concatenation of the `s` fields. */
  function Concat(args: seq<Entity>): string
    requires forall i :: 0 <= i < |args| ==> HasText(args[i])
  {
    if args == [] then "" else assert HasText(args[0]); args[0].s + Concat(args[1..])
  }

  /** `join`: any number of arguments, each of which has a text field `s`. */
  function Join(args: seq<Entity>): (r: Result<Entity>)
    ensures r.Success? <==> forall i :: 0 <= i < |args| ==> HasText(args[i])
    ensures r.Success? ==> r.value.String?
    ensures r.Failure? ==> r.error == MissingAttribute
  {
    if forall i :: 0 <= i < |args| ==> HasText(args[i]) then Success(String(Concat(args)))
    else Failure(MissingAttribute)
  }

  /** `join` of one argument gives that argument's text. */
  lemma JoinOne(x: Entity)
    requires HasText(x)
    ensures Join([x]) == Success(String(x.s))
  {
    assert forall i :: 0 <= i < |[x]| ==> HasText([x][i]);
    assert [x][1..] == [];
    assert Concat([x]) == x.s + Concat([]);
    assert Concat([]) == "" && x.s + "" == x.s;
    assert Join([x]) == Success(String(Concat([x])));
  }

  lemma {:induction false} ConcatAppend(xs: seq<Entity>, ys: seq<Entity>)
    requires forall i :: 0 <= i < |xs| ==> HasText(xs[i])
    requires forall i :: 0 <= i < |ys| ==> HasText(ys[i])
    ensures forall i :: 0 <= i < |xs + ys| ==> HasText((xs + ys)[i])
    ensures Concat(xs + ys) == Concat(xs) + Concat(ys)
    decreases xs
  {
    if xs != [] {
      var zs := xs + ys;
      assert zs[0] == xs[0] && zs[1..] == xs[1..] + ys;
      ConcatAppend(xs[1..], ys);
      assert Concat(zs) == zs[0].s + Concat(zs[1..]);
    } else {
      assert xs + ys == ys;
    }
  }

  /** Joining two argument lists one after the other is joining their results. */
  lemma JoinAppend(xs: seq<Entity>, ys: seq<Entity>)
    requires Join(xs).Success? && Join(ys).Success?
    ensures Join(xs + ys) == Success(String(Join(xs).value.s + Join(ys).value.s))
  {
    ConcatAppend(xs, ys);
  }

  /** The text of `join` is exactly as long as its arguments' texts together. */
  lemma {:induction false} JoinLength(args: seq<Entity>)
    requires Join(args).Success?
    ensures |Join(args).value.s| == Lengths(args)
    decreases args
  {
    if args != [] {
      JoinLength(args[1..]);
    }
  }

  function Lengths(args: seq<Entity>): nat
  {
    if args == [] then 0 else (if HasText(args[0]) then |args[0].s| else 0) + Lengths(args[1..])
  }

  /** The entities `bool` maps to `:False`: the empty string, zero and an empty vector. */
  predicate Falsy(x: Entity)
  {
    x == String("") || x == Integer(0) || (x.Vector? && x.es == [])
  }

  /** `bool`, which compares its argument with the three falsy entities by `==`. */
  function Bool(args: seq<Entity>): (r: Result<Entity>)
    ensures |args| != 1 <==> r == Failure(WrongArgumentCount)
    ensures |args| == 1 ==> r == Success(Atom(if Falsy(args[0]) then "False" else "True"))
  {
    if |args| != 1 then Failure(WrongArgumentCount)
    else
      var x := args[0];
      if Equal(x, String("")) then Success(Atom("False"))
      else if Equal(x, Integer(0)) then Success(Atom("False"))
      else if Equal(x, Vector([], 0)) then Success(Atom("False"))
      else Success(Atom("True"))
  }

  /** `bool` gives the same answer for equal arguments. */
  lemma BoolRespectsEqual(x: Entity, y: Entity)
    requires Equal(x, y)
    ensures Bool([x]) == Bool([y])
  {
  }

  /** `print!`: writes its argument (left to the host) and yields `:Nil`. */
  function Print(args: seq<Entity>): (r: Result<Entity>)
    ensures |args| == 1 <==> r == Success(Atom("Nil"))
    ensures |args| != 1 ==> r == Failure(WrongArgumentCount)
  {
    if |args| == 1 then Success(Atom("Nil")) else Failure(WrongArgumentCount)
  }

  /** The names bif.py registers. */
  const BuiltinNames: set<string> := {"+", "*", "-", "neg", "**", "join", "bool", "print!"}

  /** The native registered under `name`, if any. */
  function BuiltinFor(name: string): (r: Option<Native>)
    ensures r.Some? <==> name in BuiltinNames
    ensures r.Some? ==>
      (r.value.Plus? || r.value.Times? || r.value.Minus? || r.value.Neg? ||
       r.value.Power? || r.value.JoinStrings? || r.value.ToBool? || r.value.PrintValue?)
  {
    if name == "+" then Some(Plus)
    else if name == "*" then Some(Times)
    else if name == "-" then Some(Minus)
    else if name == "neg" then Some(Neg)
    else if name == "**" then Some(Power)
    else if name == "join" then Some(JoinStrings)
    else if name == "bool" then Some(ToBool)
    else if name == "print!" then Some(PrintValue)
    else None
  }

  /** A strict native Function without a captured frame, registered under its own name. */
  predicate Registered(f: Function, name: string)
  {
    f.name == name && BuiltinFor(name) == Some(f.fn) && f.closure == null && !f.lazy
  }

  /** The `index` of bif.py: one fresh Function per built-in name. */
  method BuiltinIndex() returns (index: map<string, Entity>)
    ensures index.Keys == BuiltinNames
    ensures forall k :: k in index ==> index[k].Fn? && fresh(index[k].f) && Registered(index[k].f, k)
  {
    var plus := Make("+", Plus, false);
    var times := Make("*", Times, false);
    var minus := Make("-", Minus, false);
    var neg := Make("neg", Neg, false);
    var power := Make("**", Power, false);
    var join := Make("join", JoinStrings, false);
    var toBool := Make("bool", ToBool, false);
    var printValue := Make("print!", PrintValue, false);
    index := map["+" := Fn(plus), "*" := Fn(times), "-" := Fn(minus), "neg" := Fn(neg),
                 "**" := Fn(power), "join" := Fn(join), "bool" := Fn(toBool),
                 "print!" := Fn(printValue)];
  }
}
