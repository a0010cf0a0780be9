/** The entities of the language (one tagged union that is both program and data), the
    chained scope frames, the runtime that owns the call stack, and Function values.
    Reduction of entities lives in module Reduction. */
module Entities {

  /** The failures the interpreter raises; each comment names the host exception. */
  datatype Error =
    | UnboundName(name: string)              // KeyError from StackFrame.lookup
    | NegativeDepth(depth: int)              // LookupError from StackFrame.insert
    | BeyondGlobalScope                      // LookupError from StackFrame.insert
    | PopGlobalFrame                         // LookupError from Runtime.pop
    | NotCallable                            // TypeError from Entity.call
    | EmptyApplication                       // IndexError: an S-expression with no elements
    | ArityMismatch(got: nat, expected: nat) // ValueError from a user-defined function
    | WrongArgumentCount                     // TypeError: a native's parameters cannot be bound
    | MissingAttribute                       // AttributeError: an argument of the wrong variant
    | NotAList                               // TypeError raised by `+>`, `lmap` and `lforeach`
    | AlreadyPresent(key: string)            // LookupError from Index.add_value
    | NonIntegerPower                        // `**` with a negative exponent
    | CallWithoutRuntime                     // `lforeach` calling `fn.call(x)` with x as the runtime
    | OutOfFuel                              // evaluation did not finish within the fuel bound

  datatype Result<T> = Success(value: T) | Failure(error: Error)
  datatype Outcome = Pass | Fail(error: Error)
  datatype Option<T> = None | Some(value: T)

  /** An entity. `String` and `Atom` share the field `s`, `SExpr` and `Vector` share `es`,
      as the host classes do. A `Vector`'s `computed` counts the elements found at a fixpoint
      in the last reduction round; it is bookkeeping and equality ignores it. */
  datatype Entity =
    | Integer(n: int)
    | String(s: string)
    | Atom(s: string)
    | Quoted(e: Entity)
    | SExpr(es: seq<Entity>)
    | Vector(es: seq<Entity>, computed: int)
    | Name(identifier: string)
    | SigilString(sigil: string, text: string)
    | Fn(f: Function)
    | List(l: LinkedList)

  /** The linked list of the functools library; `EmptyList` is its shared sentinel. */
  datatype LinkedList = EmptyList | Cell(value: Entity, rest: LinkedList)

  /** The closed set of callables a Function can carry: the natives of bif.py and of the
      functools library, and the body of a user-defined closure together with the name of
      the Function it was created as (the `caller` its frames record). `ListMap` re-applies the
      Function it belongs to; `ListMapAsWritten` re-applies `tail`, which in the library as
      written is the `lforeach` Function (see module Functools). */
  datatype Native =
    | Plus | Times | Minus | Neg | Power | JoinStrings | ToBool | PrintValue
    | MapEach | ConsCell | EmptyTest | ListHead | ListRest | ListForeach
    | ListMap(cons: Function)
    | ListMapAsWritten(cons: Function, tail: Function)
    | Closure(argNames: seq<string>, body: Entity, owner: string)

  /** A Function value. It has no structural equality: two Functions are equal only when
      they are the same object, which is Dafny's equality on references. */
  class Function {
    const name: string
    const fn: Native
    const closure: StackFrame?
    const lazy: bool

    constructor (name: string, fn: Native, closure: StackFrame?, lazy: bool)
      ensures this.name == name && this.fn == fn && this.closure == closure && this.lazy == lazy
    {
      this.name := name;
      this.fn := fn;
      this.closure := closure;
      this.lazy := lazy;
    }
  }

  /** `Function.make(name, lazy=...)(fn)`: a native Function without a captured frame. */
  method Make(name: string, fn: Native, lazy: bool) returns (f: Function)
    ensures fresh(f) && f.name == name && f.fn == fn && f.closure == null && f.lazy == lazy
  {
    f := new Function(name, fn, null, lazy);
  }

  /** `with_name`: the same callable and frame under another name. The laziness flag is
      not passed on, so the copy is always strict. */
  method WithName(f: Function, name: string) returns (g: Function)
    ensures fresh(g) && g.name == name && g.fn == f.fn && g.closure == f.closure && !g.lazy
  {
    g := new Function(name, f.fn, f.closure, false);
  }

  /** A scope frame. The parent link never changes after construction, so the frame keeps
      the whole chain of its ancestors (parent first, the parentless frame last). */
  class StackFrame {
    const ancestors: seq<StackFrame>
    const depth: int
    const caller: string
    var names: map<string, Entity>

    constructor (parent: StackFrame?, depth: int, caller: string, names: map<string, Entity>)
      ensures ancestors == (if parent == null then [] else parent.Chain())
      ensures Parent() == parent
      ensures this.depth == depth && this.caller == caller && this.names == names
    {
      ancestors := if parent == null then [] else parent.Chain();
      this.depth := depth;
      this.caller := caller;
      this.names := names;
    }

    function Parent(): (p: StackFrame?)
      ensures p == null <==> ancestors == []
    {
      if ancestors == [] then null else ancestors[0]
    }

    /** This frame followed by its ancestors: the frames `lookup` visits, in order. */
    function Chain(): (c: seq<StackFrame>)
      ensures |c| == |ancestors| + 1 && c[0] == this && c[1..] == ancestors
    {
      [this] + ancestors
    }

    /** The name tables of the chain, this frame's first. */
    function Visible(): (s: Scope)
      reads Chain()
      ensures s == [names] + Tables(ancestors)
    {
      assert Chain()[0] == this && Chain()[1..] == ancestors;
      Tables(Chain())
    }

    /** `lookup`: the binding of `name` in the nearest frame of the chain that has it. */
    function Lookup(name: string): (r: Result<Entity>)
      reads Chain()
      ensures name in names ==> r == Success(names[name])
      ensures name !in names && ancestors == [] ==> r == Failure(UnboundName(name))
      ensures name !in names ==> r == Resolve(Tables(ancestors), name)
    {
      Resolve(Visible(), name)
    }

    /** `insert(name, value, depth=depth)`: bind `name` in the `depth`-th frame of the chain
        (0 is this frame). A negative depth, or one past the parentless frame, fails and
        changes nothing. */
    method Insert(name: string, value: Entity, depth: int) returns (r: Outcome)
      modifies Chain()
      ensures depth < 0 ==> r == Fail(NegativeDepth(depth))
      ensures 0 <= depth < |Chain()| ==> r == Pass
      ensures depth >= |Chain()| ==> r == Fail(BeyondGlobalScope)
      ensures forall g :: g in Chain() ==>
        g.names == if 0 <= depth < |Chain()| && g == Chain()[depth]
                   then old(g.names)[name := value] else old(g.names)
    {
      if depth < 0 {
        r := Fail(NegativeDepth(depth));
      } else if depth >= |Chain()| {
        r := Fail(BeyondGlobalScope);
      } else {
        var target := Chain()[depth];
        target.names := target.names[name := value];
        r := Pass;
      }
    }
  }

  /** The name tables a lookup consults, nearest first. */
  type Scope = seq<map<string, Entity>>

  /** The name tables of `frames`, in order. */
  function Tables(frames: seq<StackFrame>): (t: Scope)
    reads frames
    ensures |t| == |frames| && forall i :: 0 <= i < |frames| ==> t[i] == frames[i].names
    decreases |frames|
  {
    if frames == [] then []
    else
      var t := [frames[0].names] + Tables(frames[1..]);
      assert forall i :: 0 < i < |frames| ==> frames[i] == frames[1..][i - 1];
      t
  }

  /** Name resolution along a scope: the binding in the first table that has the name
      (`ResolveNearest`), or `UnboundName` when none of them has it. */
  function Resolve(scope: Scope, name: string): (r: Result<Entity>)
    ensures r.Failure? ==> r.error == UnboundName(name)
  {
    if scope == [] then Failure(UnboundName(name))
    else if name in scope[0] then Success(scope[0][name])
    else Resolve(scope[1..], name)
  }

  /** Resolution succeeds exactly when some table binds the name, and then gives the
      binding of the first table that does. */
  lemma {:induction false} ResolveNearest(scope: Scope, name: string)
    ensures Resolve(scope, name).Success? <==> exists i :: 0 <= i < |scope| && name in scope[i]
    ensures Resolve(scope, name).Success? ==>
      exists i :: 0 <= i < |scope| && name in scope[i] && Resolve(scope, name).value == scope[i][name] &&
        forall j :: 0 <= j < i ==> name !in scope[j]
    decreases |scope|
  {
    if scope != [] && name !in scope[0] {
      ResolveNearest(scope[1..], name);
      assert forall i :: 0 < i < |scope| ==> scope[i] == scope[1..][i - 1];
      if Resolve(scope, name).Success? {
        var k :| 0 <= k < |scope[1..]| && name in scope[1..][k] &&
          Resolve(scope[1..], name).value == scope[1..][k][name] &&
          forall j :: 0 <= j < k ==> name !in scope[1..][j];
        assert forall j :: 0 <= j < k + 1 ==> name !in scope[j] by {
          forall j | 0 <= j < k + 1 ensures name !in scope[j] {
            if j > 0 { assert scope[j] == scope[1..][j - 1]; }
          }
        }
      }
    }
  }

  /** The runtime: the global frame and the stack of active frames, global frame first. */
  class Runtime {
    const globalFrame: StackFrame
    var stack: seq<StackFrame>

    ghost predicate Valid()
      reads this
    {
      |stack| >= 1 && stack[0] == globalFrame
    }

    /** A new runtime whose global names are a copy of `builtIns`. */
    constructor (builtIns: map<string, Entity>)
      ensures Valid() && fresh(globalFrame) && stack == [globalFrame]
      ensures globalFrame.names == builtIns && globalFrame.ancestors == []
      ensures globalFrame.depth == 0 && globalFrame.caller == "<global>"
    {
      var g := new StackFrame(null, 0, "<global>", builtIns);
      globalFrame := g;
      stack := [g];
    }

    /** `global_names`: the global frame's own table, not a separate copy. */
    function GlobalNames(): (r: map<string, Entity>)
      reads this, globalFrame
      ensures Valid() ==> r == stack[0].names
    {
      globalFrame.names
    }

    /** `current_frame`: the top of the stack. */
    function CurrentFrame(): (r: StackFrame)
      requires Valid()
      reads this
      ensures r == stack[|stack| - 1] && r in stack
      ensures |stack| == 1 ==> r == globalFrame
    {
      stack[|stack| - 1]
    }

    /** The name tables visible from the current frame. */
    function CurrentScope(): Scope
      requires Valid()
      reads this, CurrentFrame().Chain()
    {
      CurrentFrame().Visible()
    }

    /** `runtime[name]`: resolution always starts at the current frame. */
    function Get(name: string): (r: Result<Entity>)
      requires Valid()
      reads this, CurrentFrame().Chain()
      ensures r == Resolve(Tables(stack[|stack| - 1].Chain()), name)
    {
      CurrentFrame().Lookup(name)
    }

    method Push(frame: StackFrame)
      requires Valid()
      modifies this
      ensures Valid() && stack == old(stack) + [frame]
    {
      stack := stack + [frame];
    }

    /** `pop`: removes and returns the top frame, but refuses to remove the global one. */
    method Pop() returns (r: Result<StackFrame>)
      requires Valid()
      modifies this
      ensures Valid()
      ensures |old(stack)| == 1 ==> r == Failure(PopGlobalFrame) && stack == old(stack)
      ensures |old(stack)| > 1 ==>
        r == Success(old(stack)[|old(stack)| - 1]) && stack == old(stack)[..|old(stack)| - 1]
    {
      if |stack| == 1 {
        r := Failure(PopGlobalFrame);
      } else {
        r := Success(stack[|stack| - 1]);
        stack := stack[..|stack| - 1];
      }
    }
  }

  /** A push followed by a pop hands back the pushed frame and leaves the stack as it was. */
  method PushThenPop(rt: Runtime, frame: StackFrame) returns (popped: Result<StackFrame>)
    requires rt.Valid()
    modifies rt
    ensures rt.Valid() && rt.stack == old(rt.stack) && popped == Success(frame)
  {
    rt.Push(frame);
    popped := rt.Pop();
  }

  // ---------------------------------------------------------------------------------------
  // Structural equality (`__eq__`)

  /** `a == b` on entities: same variant and equal fields, element-wise for S-expressions
      and vectors (a vector's `computed` is ignored); Functions compare by identity. */
  function Equal(a: Entity, b: Entity): bool
    decreases a
  {
    match a
    case Integer(n) => b.Integer? && b.n == n
    case String(s) => b.String? && b.s == s
    case Atom(s) => b.Atom? && b.s == s
    case Quoted(x) => b.Quoted? && Equal(x, b.e)
    case SExpr(es) => b.SExpr? && |es| == |b.es| && forall i :: 0 <= i < |es| ==> Equal(es[i], b.es[i])
    case Vector(es, _) => b.Vector? && |es| == |b.es| && forall i :: 0 <= i < |es| ==> Equal(es[i], b.es[i])
    case Name(id) => b.Name? && b.identifier == id
    case SigilString(g, t) => b.SigilString? && b.sigil == g && b.text == t
    case Fn(f) => b.Fn? && b.f == f
    case List(l) => b.List? && b.l == l
  }

  lemma {:induction false} EqualReflexive(a: Entity)
    ensures Equal(a, a)
    decreases a
  {
    match a
    case Quoted(x) => EqualReflexive(x);
    case SExpr(es) =>
      forall i | 0 <= i < |es| ensures Equal(es[i], es[i]) { EqualReflexive(es[i]); }
    case Vector(es, _) =>
      forall i | 0 <= i < |es| ensures Equal(es[i], es[i]) { EqualReflexive(es[i]); }
    case _ =>
  }

  lemma {:induction false} EqualSymmetric(a: Entity, b: Entity)
    requires Equal(a, b)
    ensures Equal(b, a)
    decreases a
  {
    match a
    case Quoted(x) => EqualSymmetric(x, b.e);
    case SExpr(es) =>
      forall i | 0 <= i < |es| ensures Equal(b.es[i], es[i]) { EqualSymmetric(es[i], b.es[i]); }
    case Vector(es, _) =>
      forall i | 0 <= i < |es| ensures Equal(b.es[i], es[i]) { EqualSymmetric(es[i], b.es[i]); }
    case _ =>
  }

  lemma {:induction false} EqualTransitive(a: Entity, b: Entity, c: Entity)
    requires Equal(a, b) && Equal(b, c)
    ensures Equal(a, c)
    decreases a
  {
    match a
    case Quoted(x) => EqualTransitive(x, b.e, c.e);
    case SExpr(es) =>
      forall i | 0 <= i < |es| ensures Equal(es[i], c.es[i]) { EqualTransitive(es[i], b.es[i], c.es[i]); }
    case Vector(es, _) =>
      forall i | 0 <= i < |es| ensures Equal(es[i], c.es[i]) { EqualTransitive(es[i], b.es[i], c.es[i]); }
    case _ =>
  }

  /** Vectors with the same elements are equal whatever their `computed` counts. */
  lemma VectorEqualityIgnoresComputed(es: seq<Entity>, c1: int, c2: int)
    ensures Equal(Vector(es, c1), Vector(es, c2))
  {
    forall i | 0 <= i < |es| ensures Equal(es[i], es[i]) { EqualReflexive(es[i]); }
  }

  // ---------------------------------------------------------------------------------------
  // Canonical text (`__str__`). `None` marks renderings left to the host: a Function, a
  // string that Python's repr would escape, and a list whose elements render with braces.

  function Render(e: Entity): (r: Option<string>)
    decreases e
  {
    match e
    case Integer(n) => Some(IntToString(n))
    case String(s) => PlainRepr(s)
    case Atom(s) => Some(":" + s)
    case Quoted(x) =>
      (match Render(x) case Some(t) => Some("&" + t) case None => None)
    case SExpr(es) =>
      (match RenderEach(es) case Some(ts) => Some("(" + Spaced(ts) + ")") case None => None)
    case Vector(es, _) =>
      (match RenderEach(es) case Some(ts) => Some("[" + Spaced(ts) + "]") case None => None)
    case Name(id) => Some(id)
    case SigilString(g, t) =>
      (match PlainRepr(t) case Some(q) => Some("~" + g + q) case None => None)
    case Fn(_) => None
    case List(l) => RenderList(l)
  }

  function RenderEach(es: seq<Entity>): (r: Option<seq<string>>)
    ensures r.Some? ==> |r.value| == |es|
    decreases es
  {
    if es == [] then Some([])
    else match (Render(es[0]), RenderEach(es[1..]))
      case (Some(t), Some(ts)) => Some([t] + ts)
      case _ => None
  }

  /** `str` of a linked list: `emp`, or `(+> v rest)` nested once per cell. */
  function RenderList(l: LinkedList): (r: Option<string>)
    decreases l
  {
    match l
    case EmptyList => Some("emp")
    case Cell(v, rest) =>
      match (Render(v), RenderList(rest))
      case (Some(t), Some(u)) =>
        if '{' in t || '}' in t then None else Some("(+> " + t + " " + u + ")")
      case _ => None
  }

  /** `" ".join(ts)`. */
  function Spaced(ts: seq<string>): string
  {
    if |ts| == 0 then "" else if |ts| == 1 then ts[0] else ts[0] + " " + Spaced(ts[1..])
  }

  predicate PlainChar(c: char)
  {
    ' ' <= c <= '~' && c != '\'' && c != '\\'
  }

  /** Python's repr of a string made of printable ASCII without quotes or backslashes. */
  function PlainRepr(s: string): Option<string>
  {
    if forall i :: 0 <= i < |s| ==> PlainChar(s[i]) then Some("'" + s + "'") else None
  }

  /** Equal entities have the same canonical text. */
  lemma {:induction false} RenderRespectsEqual(a: Entity, b: Entity)
    requires Equal(a, b)
    ensures Render(a) == Render(b)
    decreases a
  {
    match a
    case Quoted(x) => RenderRespectsEqual(x, b.e);
    case SExpr(es) => RenderEachRespectsEqual(es, b.es);
    case Vector(es, _) => RenderEachRespectsEqual(es, b.es);
    case _ =>
  }

  lemma {:induction false} RenderEachRespectsEqual(xs: seq<Entity>, ys: seq<Entity>)
    requires |xs| == |ys| && forall i :: 0 <= i < |xs| ==> Equal(xs[i], ys[i])
    ensures RenderEach(xs) == RenderEach(ys)
    decreases xs
  {
    if xs != [] {
      RenderRespectsEqual(xs[0], ys[0]);
      assert forall i :: 0 <= i < |xs| - 1 ==> xs[1..][i] == xs[i + 1] && ys[1..][i] == ys[i + 1];
      RenderEachRespectsEqual(xs[1..], ys[1..]);
    }
  }

  // Decimal text of an integer, as Python's `str(int)`, with its parser as the partner.

  function DigitChar(d: int): char
    requires 0 <= d < 10
  {
    (d + '0' as int) as char
  }

  function NatToString(n: nat): (r: string)
    ensures |r| >= 1 && forall i :: 0 <= i < |r| ==> '0' <= r[i] <= '9'
    decreases n
  {
    if n < 10 then [DigitChar(n)] else NatToString(n / 10) + [DigitChar(n % 10)]
  }

  function IntToString(n: int): string
  {
    if n < 0 then "-" + NatToString(-n) else NatToString(n)
  }

  function ParseNat(s: string): int
  {
    if s == [] then 0 else 10 * ParseNat(s[..|s| - 1]) + (s[|s| - 1] as int - '0' as int)
  }

  function ParseInt(s: string): int
  {
    if |s| > 0 && s[0] == '-' then -ParseNat(s[1..]) else ParseNat(s)
  }

  lemma {:induction false} ParseNatToString(n: nat)
    ensures ParseNat(NatToString(n)) == n
    decreases n
  {
    if n >= 10 {
      var s := NatToString(n / 10) + [DigitChar(n % 10)];
      assert s[..|s| - 1] == NatToString(n / 10);
      ParseNatToString(n / 10);
    }
  }

  /** The decimal text of an integer reads back as that integer. */
  lemma IntToStringRoundTrip(n: int)
    ensures ParseInt(IntToString(n)) == n
  {
    if n < 0 {
      var s := "-" + NatToString(-n);
      assert s[1..] == NatToString(-n);
      ParseNatToString(-n);
    } else {
      ParseNatToString(n);
    }
  }

  // ---------------------------------------------------------------------------------------
  // `fmap`: apply `f` to every leaf, rebuilding quotes, S-expressions and vectors around the
  // results (a rebuilt vector starts with `computed` 0).

  predicate IsLeaf(e: Entity)
  {
    !e.Quoted? && !e.SExpr? && !e.Vector?
  }

  function FMap(e: Entity, f: Entity -> Entity): (r: Entity)
    decreases e
  {
    match e
    case Quoted(x) => Quoted(FMap(x, f))
    case SExpr(es) => SExpr(seq(|es|, i requires 0 <= i < |es| => FMap(es[i], f)))
    case Vector(es, _) => Vector(seq(|es|, i requires 0 <= i < |es| => FMap(es[i], f)), 0)
    case _ => f(e)
  }

  /** Mapping the identity gives back an equal entity (only `computed` counts are reset). */
  lemma {:induction false} FMapIdentity(e: Entity)
    ensures Equal(FMap(e, x => x), e)
    decreases e
  {
    match e
    case Quoted(x) => FMapIdentity(x);
    case SExpr(es) =>
      forall i | 0 <= i < |es| ensures Equal(FMap(e, x => x).es[i], es[i]) { FMapIdentity(es[i]); }
    case Vector(es, _) =>
      forall i | 0 <= i < |es| ensures Equal(FMap(e, x => x).es[i], es[i]) { FMapIdentity(es[i]); }
    case _ => EqualReflexive(e);
  }

  /** Mapping `g` then `f` is mapping their composition, when `g` sends leaves to leaves. */
  lemma {:induction false} FMapCompose(e: Entity, f: Entity -> Entity, g: Entity -> Entity)
    requires forall x :: IsLeaf(x) ==> IsLeaf(g(x))
    ensures FMap(FMap(e, g), f) == FMap(e, x => f(g(x)))
    decreases e
  {
    match e
    case Quoted(x) => FMapCompose(x, f, g);
    case SExpr(es) =>
      forall i | 0 <= i < |es| ensures FMap(FMap(es[i], g), f) == FMap(es[i], x => f(g(x))) {
        FMapCompose(es[i], f, g);
      }
    case Vector(es, _) =>
      forall i | 0 <= i < |es| ensures FMap(FMap(es[i], g), f) == FMap(es[i], x => f(g(x))) {
        FMapCompose(es[i], f, g);
      }
    case _ =>
  }

  /** The name of the handler a sigil string desugars to. */
  function SigilFunctionName(sigil: string): string
  {
    "sigil<" + sigil + ">"
  }
}
