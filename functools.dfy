/** The functools library: the linked list entity, its iteration and text, and the natives
    `map`, `+>`, `emp?`, `lhead`, `lrest`, `lmap` and `lforeach` together with the value
    `emp`, registered by `interop`. */
module Functools {
  import opened Entities
  import opened InteropUtils

  /** The elements of a list, front first. */
  function Items(l: LinkedList): seq<Entity>
    decreases l
  {
    match l
    case EmptyList => []
    case Cell(v, rest) => [v] + Items(rest)
  }

  /** The list holding `xs`, front first. */
  function FromItems(xs: seq<Entity>): LinkedList
    decreases xs
  {
    if xs == [] then EmptyList else Cell(xs[0], FromItems(xs[1..]))
  }

  lemma {:induction false} ItemsOfFromItems(xs: seq<Entity>)
    ensures Items(FromItems(xs)) == xs
    decreases xs
  {
    if xs != [] {
      ItemsOfFromItems(xs[1..]);
    }
  }

  lemma {:induction false} FromItemsOfItems(l: LinkedList)
    ensures FromItems(Items(l)) == l
    decreases l
  {
    if l.Cell? {
      assert Items(l)[1..] == Items(l.rest);
      FromItemsOfItems(l.rest);
    }
  }

  /** `__iter__`: walks the cells until the sentinel, yielding each value. */
  method Iterate(l: LinkedList) returns (xs: seq<Entity>)
    ensures xs == Items(l)
  {
    xs := [];
    var acc := l;
    while acc != EmptyList
      invariant Items(l) == xs + Items(acc)
      decreases acc
    {
      xs := xs + [acc.value];
      acc := acc.rest;
    }
  }

  /** `__str__`: starts from `(+> v {})` for the first cell, fills the one placeholder with
      `(+> x {})` for every further element, and finally with `emp`. The text so far is
      kept as the parts before and after the placeholder. An element whose text holds a
      brace would be read as a format field by the host; that case yields `None`. */
  method ListText(l: LinkedList) returns (r: Option<string>)
    ensures r == RenderList(l)
  {
    var before, after := "", "";
    var acc := l;
    if RenderList(l).Some? {
      assert "" + RenderList(l).value + "" == RenderList(l).value;
    }
    while acc.Cell?
      invariant RenderList(l) == Wrap(before, RenderList(acc), after)
      decreases acc
    {
      var t := Render(acc.value);
      if t.None? || '{' in t.value || '}' in t.value {
        return None;
      }
      var opening := "(+> " + t.value + " ";
      assert RenderList(acc) == Wrap(opening, RenderList(acc.rest), ")");
      WrapNested(before, opening, RenderList(acc.rest), ")", after);
      before, after := before + opening, ")" + after;
      acc := acc.rest;
    }
    r := Some(before + "emp" + after);
  }

  /** Text placed between `before` and `after`, if there is any. */
  function Wrap(before: string, inner: Option<string>, after: string): Option<string>
  {
    match inner
    case Some(u) => Some(before + u + after)
    case None => None
  }

  lemma WrapNested(b1: string, b2: string, inner: Option<string>, a2: string, a1: string)
    ensures Wrap(b1, Wrap(b2, inner, a2), a1) == Wrap(b1 + b2, inner, a2 + a1)
  {
    if inner.Some? {
      assert b1 + (b2 + inner.value + a2) + a1 == (b1 + b2) + inner.value + (a2 + a1);
    }
  }

  // ---------------------------------------------------------------------------------------
  // The natives. Each takes the arguments after evaluation (all of them strict).

  /** `map`: the vector of applications `(f x)` for every element `x` of a vector or an
      S-expression, left unevaluated. */
  function Map(args: seq<Entity>): (r: Result<Entity>)
    ensures |args| != 2 ==> r == Failure(WrongArgumentCount)
    ensures |args| == 2 && !(args[1].SExpr? || args[1].Vector?) ==> r == Failure(MissingAttribute)
    ensures r.Success? <==> |args| == 2 && (args[1].SExpr? || args[1].Vector?)
    ensures r.Success? ==>
      r.value.Vector? && r.value.computed == 0 && |r.value.es| == |args[1].es| &&
      forall i :: 0 <= i < |args[1].es| ==> r.value.es[i] == SExpr([args[0], args[1].es[i]])
  {
    if |args| != 2 then Failure(WrongArgumentCount)
    else if !(args[1].SExpr? || args[1].Vector?) then Failure(MissingAttribute)
    else
      var f, v := args[0], args[1];
      Success(Vector(seq(|v.es|, i requires 0 <= i < |v.es| => SExpr([f, v.es[i]])), 0))
  }

  /** `+>`: a new cell in front of a list; anything but a list is refused. */
  function Cons(args: seq<Entity>): (r: Result<Entity>)
    ensures |args| != 2 ==> r == Failure(WrongArgumentCount)
    ensures |args| == 2 && !args[1].List? ==> r == Failure(NotAList)
    ensures r.Success? <==> |args| == 2 && args[1].List?
    ensures r.Success? ==> r.value.List? && Items(r.value.l) == [args[0]] + Items(args[1].l)
  {
    if |args| != 2 then Failure(WrongArgumentCount)
    else if !args[1].List? then Failure(NotAList)
    else Success(List(Cell(args[0], args[1].l)))
  }

  /** `emp?`: `:True` exactly for the empty list. */
  function IsEmpty(args: seq<Entity>): (r: Result<Entity>)
    ensures |args| != 1 <==> r == Failure(WrongArgumentCount)
    ensures |args| == 1 ==>
      r == Success(Atom(if args[0].List? && Items(args[0].l) == [] then "True" else "False"))
  {
    if |args| != 1 then Failure(WrongArgumentCount)
    else if args[0] == List(EmptyList) then Success(Atom("True"))
    else Success(Atom("False"))
  }

  /** `lhead`: the first element, `:Nil` for the empty list. */
  function LHead(args: seq<Entity>): (r: Result<Entity>)
    ensures |args| != 1 ==> r == Failure(WrongArgumentCount)
    ensures r.Success? <==> |args| == 1 && args[0].List?
    ensures r.Failure? ==> r.error == if |args| != 1 then WrongArgumentCount else MissingAttribute
    ensures r.Success? ==>
      (if Items(args[0].l) == [] then r.value == Atom("Nil") else r.value == Items(args[0].l)[0])
  {
    if |args| != 1 then Failure(WrongArgumentCount)
    else if !args[0].List? then Failure(MissingAttribute)
    else if args[0].l == EmptyList then Success(Atom("Nil"))
    else Success(args[0].l.value)
  }

  /** `lrest`: the list after the first cell, `:Nil` for the empty list. */
  function LRest(args: seq<Entity>): (r: Result<Entity>)
    ensures |args| != 1 ==> r == Failure(WrongArgumentCount)
    ensures r.Success? <==> |args| == 1 && args[0].List?
    ensures r.Failure? ==> r.error == if |args| != 1 then WrongArgumentCount else MissingAttribute
    ensures r.Success? ==>
      (if Items(args[0].l) == [] then r.value == Atom("Nil")
       else r.value.List? && Items(r.value.l) == Items(args[0].l)[1..])
  {
    if |args| != 1 then Failure(WrongArgumentCount)
    else if !args[0].List? then Failure(MissingAttribute)
    else if args[0].l == EmptyList then Success(Atom("Nil"))
    else Success(List(args[0].l.rest))
  }

  /** `lhead` and `lrest` take apart what `+>` builds. */
  lemma HeadAndRestOfCons(x: Entity, l: LinkedList)
    ensures Cons([x, List(l)]).Success?
    ensures LHead([Cons([x, List(l)]).value]) == Success(x)
    ensures LRest([Cons([x, List(l)]).value]) == Success(List(l))
    ensures IsEmpty([Cons([x, List(l)]).value]) == Success(Atom("False"))
  {
  }

  /** `+>` applied to the head and rest of a non-empty list rebuilds it. */
  lemma ConsOfHeadAndRest(l: LinkedList)
    requires l.Cell?
    ensures Cons([LHead([List(l)]).value, LRest([List(l)]).value]) == Success(List(l))
  {
  }

  /** The rewrite `lmap` performs: the empty list maps to itself, and a cell `x` in front of
      `rest` becomes `(+> (fn x) (self fn rest))`, where `self` is the `lmap` Function itself
      and `cons` is the `+>` Function. */
  function LMap(self: Function, cons: Function, args: seq<Entity>): (r: Result<Entity>)
    ensures |args| != 2 ==> r == Failure(WrongArgumentCount)
    ensures |args| == 2 && !args[1].List? ==> r == Failure(NotAList)
    ensures r.Success? <==> |args| == 2 && args[1].List?
    ensures r.Success? && args[1] == List(EmptyList) ==> r.value == args[1]
    ensures r.Success? && args[1].l.Cell? ==>
      r.value.SExpr? && |r.value.es| == 3 && r.value.es[0] == Fn(cons) &&
      r.value.es[1] == SExpr([args[0], Items(args[1].l)[0]]) &&
      r.value.es[2] == SExpr([Fn(self), args[0], List(args[1].l.rest)])
  {
    if |args| != 2 then Failure(WrongArgumentCount)
    else if !args[1].List? then Failure(NotAList)
    else match args[1].l
      case EmptyList => Success(args[1])
      case Cell(x, rest) => Success(SExpr([Fn(cons), SExpr([args[0], x]), SExpr([Fn(self), args[0], List(rest)])]))
  }

  /** The rewrite of `lmap` as the library writes it: the recursive application names
      `_lmap`, which by the time it is called has been rebound to the `lforeach`
      Function (`tail`). */
  function LMapAsWritten(cons: Function, tail: Function, args: seq<Entity>): (r: Result<Entity>)
    ensures |args| != 2 ==> r == Failure(WrongArgumentCount)
    ensures |args| == 2 && !args[1].List? ==> r == Failure(NotAList)
    ensures r.Success? <==> |args| == 2 && args[1].List?
    ensures r.Success? && args[1] == List(EmptyList) ==> r.value == args[1]
    ensures r.Success? && args[1].l.Cell? ==>
      r.value.SExpr? && |r.value.es| == 3 && r.value.es[0] == Fn(cons) &&
      r.value.es[1] == SExpr([args[0], Items(args[1].l)[0]]) &&
      r.value.es[2] == SExpr([Fn(tail), args[0], List(args[1].l.rest)])
  {
    if |args| != 2 then Failure(WrongArgumentCount)
    else if !args[1].List? then Failure(NotAList)
    else match args[1].l
      case EmptyList => Success(args[1])
      case Cell(x, rest) => Success(SExpr([Fn(cons), SExpr([args[0], x]), SExpr([Fn(tail), args[0], List(rest)])]))
  }

  /** Whether `fn.call(x)` can succeed when `x`, an element, is passed in the runtime's
      place with no arguments: only for a strict or lazy `join` without a captured frame,
      whose result is the empty string. Any other Function needs an argument, or pushes
      onto `x`, or reads `x`'s current frame. */
  predicate CallableWithoutRuntime(fn: Entity)
  {
    fn.Fn? && fn.f.closure == null && fn.f.fn.JoinStrings?
  }

  /** `lforeach`: calls `fn` once per element for its effect and yields `:Nil`. */
  function LForeach(args: seq<Entity>): (r: Result<Entity>)
    ensures |args| != 2 ==> r == Failure(WrongArgumentCount)
    ensures |args| == 2 && !args[1].List? ==> r == Failure(NotAList)
    ensures r.Success? <==>
      |args| == 2 && args[1].List? && (Items(args[1].l) == [] || CallableWithoutRuntime(args[0]))
    ensures r.Success? ==> r.value == Atom("Nil")
  {
    if |args| != 2 then Failure(WrongArgumentCount)
    else if !args[1].List? then Failure(NotAList)
    else if args[1].l == EmptyList then Success(Atom("Nil"))
    else if !args[0].Fn? then Failure(NotCallable)
    else if !CallableWithoutRuntime(args[0]) then Failure(CallWithoutRuntime)
    else Success(Atom("Nil"))
  }

  /** The names `interop` registers. */
  const LibraryNames: set<string> := {"map", "emp", "+>", "emp?", "lhead", "lrest", "lmap", "lforeach"}

  /** `name` holds a strict Function of that name over `fn`, without a captured frame. */
  predicate HoldsNative(entries: map<string, Entity>, name: string, fn: Native)
  {
    name in entries && entries[name].Fn? && entries[name].f.name == name &&
    entries[name].f.fn == fn && entries[name].f.closure == null && !entries[name].f.lazy
  }

  /** `interop`: the library's index. `cons` is the `+>` Function it registers, which
      `lmap` rewrites to. */
  method Interop() returns (index: Index, cons: Function)
    ensures fresh(index) && fresh(cons)
    ensures index.entries.Keys == LibraryNames
    ensures index.entries["emp"] == List(EmptyList)
    ensures HoldsNative(index.entries, "map", MapEach)
    ensures HoldsNative(index.entries, "+>", ConsCell) && index.entries["+>"] == Fn(cons)
    ensures HoldsNative(index.entries, "emp?", EmptyTest)
    ensures HoldsNative(index.entries, "lhead", ListHead)
    ensures HoldsNative(index.entries, "lrest", ListRest)
    ensures HoldsNative(index.entries, "lmap", ListMap(cons))
    ensures HoldsNative(index.entries, "lforeach", ListForeach)
  {
    index := new Index();
    cons := RegisterBasics(index);
    RegisterTraversals(index, cons);
  }

  /** The first half of `interop`: `map`, `emp`, `+>` and `emp?`. */
  method RegisterBasics(index: Index) returns (cons: Function)
    requires index.entries == map[]
    modifies index
    ensures fresh(cons)
    ensures index.entries.Keys == {"map", "emp", "+>", "emp?"}
    ensures index.entries["emp"] == List(EmptyList)
    ensures HoldsNative(index.entries, "map", MapEach)
    ensures HoldsNative(index.entries, "+>", ConsCell) && index.entries["+>"] == Fn(cons)
    ensures HoldsNative(index.entries, "emp?", EmptyTest)
  {
    var mapFn := index.AddFunction("map", MapEach, false);
    var emp := index.AddValue("emp", List(EmptyList), false);
    var consFn := index.AddFunction("+>", ConsCell, false);
    cons := consFn.value;
    var isEmptyFn := index.AddFunction("emp?", EmptyTest, false);
  }

  /** The second half of `interop`: `lhead`, `lrest`, `lmap` and `lforeach`. */
  method RegisterTraversals(index: Index, cons: Function)
    requires "lhead" !in index.entries && "lrest" !in index.entries
    requires "lmap" !in index.entries && "lforeach" !in index.entries
    modifies index
    ensures index.entries.Keys == old(index.entries).Keys + {"lhead", "lrest", "lmap", "lforeach"}
    ensures forall k :: k in old(index.entries) ==> index.entries[k] == old(index.entries)[k]
    ensures HoldsNative(index.entries, "lhead", ListHead)
    ensures HoldsNative(index.entries, "lrest", ListRest)
    ensures HoldsNative(index.entries, "lmap", ListMap(cons))
    ensures HoldsNative(index.entries, "lforeach", ListForeach)
  {
    var headFn := index.AddFunction("lhead", ListHead, false);
    var restFn := index.AddFunction("lrest", ListRest, false);
    var lmapFn := index.AddFunction("lmap", ListMap(cons), false);
    var foreachFn := index.AddFunction("lforeach", ListForeach, false);
  }
}
