# pylarklispy core in Dafny

A model of the core of pylarklispy, a small Lisp written in Python. It covers:

- **Entities** (`entities.dfy`, module `Entities`). The entity sum type: Integer, String, Atom, Quoted, SExpr, Vector, Name, SigilString, Function and the functools linked list. Also covered:
  - structural equality, the canonical text and the leaf map `fmap`;
  - `StackFrame`, a class whose `names` map `insert` updates in place, with a fixed chain of ancestors;
  - `Runtime`, a class holding the global frame and the stack of active frames;
  - `Function`, a class whose identity is its equality.
- **Reduction** (`reduction.dfy`, module `Reduction`). One reduction step (`compute`), the fixpoint driver (`evaluate`), the loop of `Vector.compute`, the call protocol `Function.call` and `create_function`, all as methods over a `Runtime`. Alongside them is a reference semantics written as functions (`EvalF`, `StepF`, `EachF`, `CallF`, `InvokeF`, `RunF`, `PrepareF`). Each method returns what its function gives, whenever the function's answer is `Known`.
- **Laws** (`laws.dfy`, module `ReductionLaws`). What evaluation gives for applications of the natives: `(+ one two)`, a native applied to values, and `lmap` over a list, both as the library writes it and as it is evidently meant.
- **Builtins** (`builtins.dfy`, module `Builtins`). `+ * - neg ** join bool print!`, and the `index` that registers them.
- **The functools library** (`functools.dfy`, module `Functools`). The linked list, its iteration and its text. The natives `map`, `+>`, `emp?`, `lhead`, `lrest`, `lmap` and `lforeach`. The `interop` index that registers them together with `emp`.
- **The registry** (`interop_utils.dfy`, module `InteropUtils`). The insert-if-absent `Index`, with `add_value` and `add_function`.
- **`ellipsify`** (`command_line.dfy`, module `CommandLine`). How the usage line shortens the executable's path.
- **`run_ast`** (`driver.dfy`, module `Driver`). A fresh runtime, with every statement evaluated in it in turn.

## How some of the source's features are modelled

- **Fixpoints.** The host detects a fixpoint by object identity (`next_state is state`). Here `compute` returns a `Step(changed, value)`, and `changed` is false exactly when the host would hand back the same object:
  - a Name bound to that very Name;
  - a Vector whose `_computed` equals its length;
  - Integer, String, Atom, Quoted, Function and list entities.
- **Divergence.** Evaluation may diverge, so every reduction method and function takes a `fuel` bound. Running out fails with `OutOfFuel`.
- **Natives.** The callables a `Function` can carry form a closed datatype `Native`. It holds the builtins, the functools natives, and the parameters, body and name of a user-defined closure.
- **Errors.** Host exceptions become the `Error` datatype. Each operation returns a `Result` or `Outcome` rather than raising:
  - KeyError: `UnboundName`.
  - LookupError: `NegativeDepth`, `BeyondGlobalScope`, `PopGlobalFrame` or `AlreadyPresent`.
  - TypeError: `NotCallable`, `NotAList` or `WrongArgumentCount`.
  - ValueError: `ArityMismatch`.
  - AttributeError: `MissingAttribute`.
  - IndexError on an empty S-expression: `EmptyApplication`.
- **Scopes.** The reference semantics reads the name tables visible from the current frame as a value, a `Scope`: the frame's own names, then its ancestors' in order. Each interpreter method takes the scope it runs in as a ghost parameter, requires that it is the runtime's current one, and ensures that it is again the current one afterwards.
- **The reference semantics is partial.** Its functions read only name tables passed to them as values, never a frame, because a frame's names change in place. A callable can run inside a Function's captured frame, and `RunF` describes that run over the captured frame's tables. `Invoke` and `Call` state that their result is `RunF`'s over those tables. But `InvokeF` cannot read them, so a call that runs inside a captured frame is `Unknown` to `InvokeF`, unless it fails before the callable runs. Everything the functions compute around such a call is `Unknown` too.

## Model

| member | source | states |
|---|---|---|
| Entities.Function.constructor | pylarklispy/entities.py:264-274 | a Function holds exactly the name, callable, captured frame and laziness it was given |
| Entities.Make | pylarklispy/entities.py:276-280 | `Function.make` builds a fresh Function without a captured frame, with the laziness asked for |
| Entities.WithName | pylarklispy/entities.py:282-283 | the renamed copy keeps the callable and the captured frame, and is always strict: the laziness flag is dropped |
| Entities.StackFrame.constructor | pylarklispy/entities.py:14-18 | a frame's parent is the one given, its ancestors are the parent's chain, and its depth, caller and names are those given |
| Entities.StackFrame.Parent | pylarklispy/entities.py:23-25 | a frame has no parent exactly when its chain of ancestors is empty |
| Entities.StackFrame.Chain | pylarklispy/entities.py:20-25 | the frames lookup visits: this frame first, then its ancestors in order |
| Entities.StackFrame.Visible | pylarklispy/entities.py:20-25 | the tables lookup consults are this frame's names, then its ancestors' names in order |
| Entities.StackFrame.Lookup | pylarklispy/entities.py:20-25 | a name in the frame's own table gives that binding; otherwise a frame without a parent fails with `UnboundName`, and one with a parent resolves the name along its ancestors' tables |
| Entities.Tables | pylarklispy/entities.py:20-25 | table `i` of a chain is the names of frame `i` |
| Entities.Resolve | pylarklispy/entities.py:20-25 | a failed lookup fails with `UnboundName(name)` and nothing else |
| Entities.ResolveNearest | pylarklispy/entities.py:20-25 | lookup succeeds iff some table of the chain binds the name; it then returns the binding of the first table that has it, and no earlier table binds it |
| Entities.StackFrame.Insert | pylarklispy/entities.py:27-36 | a negative depth fails with `NegativeDepth`; a depth past the parentless frame fails with `BeyondGlobalScope`; otherwise exactly the `depth`-th frame of the chain gets the binding, and every other frame's names are unchanged (all of them on failure) |
| Entities.Runtime.constructor | pylarklispy/entities.py:40-48 | a new runtime's stack is exactly `[global frame]`; the global frame is fresh, parentless, at depth 0, with caller `<global>` and names equal to the built-ins |
| Entities.Runtime.GlobalNames | pylarklispy/entities.py:41-47 | `global_names` is the bottom frame's own table, not a copy of it |
| Entities.Runtime.CurrentFrame | pylarklispy/entities.py:50-52 | `current_frame` is the top of the stack, `stack[-1]`, and so the global frame when nothing else is pushed |
| Entities.Runtime.Get | pylarklispy/entities.py:54-55 | `runtime[name]` resolves the name in the tables of the top frame's chain, never from the global frame directly |
| Entities.Runtime.Push | pylarklispy/entities.py:57-58 | push appends the frame, and the global frame stays at the bottom |
| Entities.Runtime.Pop | pylarklispy/entities.py:60-63 | with only the global frame left, pop fails with `PopGlobalFrame` and leaves the stack as it is; otherwise it returns the top frame and removes exactly that frame |
| Entities.PushThenPop | pylarklispy/entities.py:57-63 | a push followed by a pop returns the pushed frame and restores the stack |
| Entities.Equal | pylarklispy/entities.py:92-244 | the structural `==` of the entities' `__eq__` methods: it is an equivalence (EqualReflexive, EqualSymmetric, EqualTransitive), ignores a vector's `_computed` (VectorEqualityIgnoresComputed) and compares Functions by identity |
| Entities.EqualReflexive | pylarklispy/entities.py:161-164 | every entity equals itself under the structural `==` |
| Entities.EqualSymmetric | pylarklispy/entities.py:161-164 | structural equality is symmetric |
| Entities.EqualTransitive | pylarklispy/entities.py:161-164 | structural equality is transitive |
| Entities.VectorEqualityIgnoresComputed | pylarklispy/entities.py:184-187 | two vectors with the same elements are equal whatever their `_computed` counts |
| Entities.Render | pylarklispy/entities.py:97-257 | the `__str__` text: an Integer's text is its decimal digits, which read back as the integer (NatToString, IntToStringRoundTrip), and equal entities get equal text (RenderRespectsEqual) |
| Entities.RenderList | pylarklispy/functools/__init__.py:17-25 | a list's text is `emp` or `(+> v rest)` nested once per cell, as the loop of `LinkedList.__str__` builds it (Functools.ListText) |
| Entities.RenderRespectsEqual | pylarklispy/entities.py:169-170 | equal entities have the same canonical text (`__str__` agrees with `__eq__`) |
| Entities.NatToString | pylarklispy/entities.py:97-98 | the decimal text of a natural number is non-empty and made of digits only |
| Entities.IntToStringRoundTrip | pylarklispy/entities.py:97-98 | the text of an Integer reads back as that integer |
| Entities.FMap | pylarklispy/entities.py:67-182 | `fmap` maps the leaves and rebuilds the structure: the identity gives back an equal entity and two maps compose (FMapIdentity, FMapCompose) |
| Entities.FMapIdentity | pylarklispy/entities.py:158-159 | `fmap` of the identity gives back an equal entity |
| Entities.FMapCompose | pylarklispy/entities.py:181-182 | `fmap` of `g` and then of `f` is `fmap` of their composition, when `g` sends leaves to leaves |
| Builtins.Add | pylarklispy/bif.py:9-12 | `+` succeeds iff it gets exactly two Integers, and then gives an Integer whose difference with the second operand is the first; otherwise it fails with the count or attribute error |
| Builtins.Sub | pylarklispy/bif.py:19-22 | `-` succeeds iff it gets two Integers, and then gives the Integer that, added to the second, is the first |
| Builtins.Mul | pylarklispy/bif.py:14-17 | `*` succeeds iff it gets two Integers, and then gives their product: a non-zero second operand divides it exactly, with the first operand as quotient, and a zero second operand makes it 0; otherwise it fails with the count or attribute error |
| Builtins.MulStep | pylarklispy/bif.py:14-17 | `a * (b + 1)` is `a * b + a` and `a * 0` is 0 |
| Builtins.Negate | pylarklispy/bif.py:24-27 | `neg` succeeds iff it gets one Integer, and then gives the Integer whose sum with it is 0 |
| Builtins.Pow | pylarklispy/bif.py:29-32 | `**` succeeds iff it gets two Integers with a non-negative exponent, and then gives the integer power; a negative exponent fails with `NonIntegerPower` |
| Builtins.PowerOfSum | pylarklispy/bif.py:29-32 | `a ** (m + n) == a ** m * a ** n` |
| Builtins.PowAdditive | pylarklispy/bif.py:29-32 | `**` with an exponent `m + n` gives what `*` gives on the powers `m` and `n` |
| Builtins.MulDistributesOverAdd | pylarklispy/bif.py:14-17 | `*` distributes over `+` |
| Builtins.SubUndoesAdd | pylarklispy/bif.py:19-22 | subtracting `b` from `a + b` gives `a` |
| Builtins.NegateIsSubFromZero | pylarklispy/bif.py:24-27 | `neg x` is `- 0 x`, failures included |
| Builtins.Join | pylarklispy/bif.py:34-37 | `join` succeeds iff every argument has a text field, and then gives a String; otherwise it fails with an attribute error |
| Builtins.JoinOne | pylarklispy/bif.py:34-37 | `join` of a single argument with a text field gives a String of exactly that text; with JoinAppend this fixes the text of every `join` |
| Builtins.JoinAppend | pylarklispy/bif.py:34-37 | joining two argument lists one after the other concatenates their joins, so the arguments are concatenated in order |
| Builtins.JoinLength | pylarklispy/bif.py:34-37 | the text of `join` is as long as its arguments' texts together; with no arguments it is empty |
| Builtins.Bool | pylarklispy/bif.py:39-49 | `bool` of one argument gives `:False` exactly for `""`, `0` or an empty vector (whatever its count), `:True` for anything else; any other argument count fails |
| Builtins.BoolRespectsEqual | pylarklispy/bif.py:39-49 | `bool` gives the same answer for equal arguments |
| Builtins.Print | pylarklispy/bif.py:51-55 | `print!` of one argument gives `:Nil`; any other argument count fails |
| Builtins.BuiltinFor | pylarklispy/bif.py:5-55 | a builtin native is registered exactly for the eight names of bif.py |
| Builtins.BuiltinIndex | pylarklispy/bif.py:5-55 | `index` has exactly the builtin names as keys, each bound to a fresh strict Function of that name over its native, without a captured frame |
| InteropUtils.Register | pylarklispy/interop_utils.py:11-14 | registration fails with `AlreadyPresent` iff the name is present and `rewrite` is not set; on success the name is bound to the value, and every other key keeps its value |
| InteropUtils.RegisterTwice | pylarklispy/interop_utils.py:11-14 | without `rewrite` a second registration fails and the first value stays; with `rewrite` the second value wins |
| InteropUtils.Index.constructor | pylarklispy/interop_utils.py:3 | a new index is empty |
| InteropUtils.Index.AddValue | pylarklispy/interop_utils.py:11-14 | `add_value` fails iff the registration fails, and then leaves the table unchanged; otherwise the table becomes the registered one |
| InteropUtils.Index.AddFunction | pylarklispy/interop_utils.py:4-9 | `add_function` fails iff the name is present without `rewrite`, leaving the table unchanged; otherwise it returns a fresh strict Function of that name over the native, with no captured frame, and the table binds the name to that same Function |
| Functools.ItemsOfFromItems | pylarklispy/functools/__init__.py:6-9 | building a list from a sequence and iterating it gives the sequence back |
| Functools.FromItemsOfItems | pylarklispy/functools/__init__.py:6-9 | rebuilding a list from its elements gives the same list |
| Functools.Items | pylarklispy/functools/__init__.py:11-15 | the values of a list, front first: it is the inverse of building a list from a sequence (ItemsOfFromItems, FromItemsOfItems), and the iteration loop yields it (Iterate) |
| Functools.Iterate | pylarklispy/functools/__init__.py:11-15 | iteration yields the values front first until the sentinel: `[]` for the empty list, and `[x]` followed by the rest for a cell |
| Functools.ListText | pylarklispy/functools/__init__.py:17-25 | the placeholder-filling loop gives the canonical text of the list: `emp` for the empty list, and `(+> v rest)` nested once per cell |
| Functools.Map | pylarklispy/functools/__init__.py:37-41 | `map` of two arguments whose second is a vector or S-expression gives a vector of the same length whose element `i` is `(f x_i)`; the other cases fail with the count or attribute error |
| Functools.Cons | pylarklispy/functools/__init__.py:46-50 | `+>` succeeds iff its second argument is a list, then gives the list with the element in front; otherwise it fails with `NotAList` or the count error |
| Functools.IsEmpty | pylarklispy/functools/__init__.py:52-57 | `emp?` gives `:True` exactly for the empty list and `:False` for anything else |
| Functools.LHead | pylarklispy/functools/__init__.py:59-64 | `lhead` gives `:Nil` for the empty list and the first element otherwise; a non-list fails |
| Functools.LRest | pylarklispy/functools/__init__.py:66-71 | `lrest` gives `:Nil` for the empty list and the list after the first cell otherwise; a non-list fails |
| Functools.HeadAndRestOfCons | pylarklispy/functools/__init__.py:46-71 | `lhead` and `lrest` take apart what `+>` builds, and `emp?` of it is `:False` |
| Functools.ConsOfHeadAndRest | pylarklispy/functools/__init__.py:46-71 | `+>` of the head and rest of a non-empty list rebuilds it |
| Functools.LMap | pylarklispy/functools/__init__.py:73-84 | `lmap` gives the empty list back unchanged, rewrites a cell to `(+> (fn x) (lmap fn rest))`, and fails with `NotAList` on anything else |
| Functools.LMapAsWritten | pylarklispy/functools/__init__.py:73-87 | the library's `lmap` rewrites a cell to `(+> (fn x) (lforeach fn rest))`, because `_lmap` names the `lforeach` Function once that is defined |
| Functools.LForeach | pylarklispy/functools/__init__.py:86-92 | `lforeach` gives `:Nil` for the empty list; on a non-empty list it succeeds only when `fn` can be called with the element in the runtime's place, and then gives `:Nil`; a non-list fails with `NotAList` |
| Functools.Interop | pylarklispy/functools/__init__.py:33-96 | the library index has exactly its eight names: `emp` is the empty list, and every other name holds a fresh strict Function of that name over its native; `lmap` rewrites to the registered `+>` |
| Functools.RegisterBasics | pylarklispy/functools/__init__.py:37-57 | the first four registrations bind `map`, `emp`, `+>` and `emp?`, and nothing else |
| Functools.RegisterTraversals | pylarklispy/functools/__init__.py:59-92 | the last four registrations bind `lhead`, `lrest`, `lmap` and `lforeach`, and keep every earlier entry |
| Reduction.Quote | pylarklispy/entities.py:286-287 | a lazy Function receives each argument quoted, in order |
| Reduction.StepF | pylarklispy/entities.py:166-254 | `compute` reports a change exactly when the entity is not at a fixpoint, and hands back the entity itself when it is. Also: a Name fails iff its lookup fails, with `UnboundName`, and otherwise steps to the binding; an empty S-expression fails with `EmptyApplication`; a changed vector keeps its length, with `_computed` at most that length |
| Reduction.EvalF | pylarklispy/entities.py:76-85 | a successful `evaluate` ends at a fixpoint; an entity already at a fixpoint evaluates to itself; a vector evaluates to a vector of the same length whose count is its length |
| Reduction.LoopF | pylarklispy/entities.py:79-85 | the `while True` loop returns only a state that `compute` hands back, and returns at once when it starts at a fixpoint |
| Reduction.VectorEvalF | pylarklispy/entities.py:202-208 | `Vector.evaluate` as its comment means it: the loop's result, a vector of the same length with its count at that length, and, from a vector not yet done, every element at a fixpoint |
| Reduction.LoopSettlesVector | pylarklispy/entities.py:79-85 | the loop from a vector not yet done ends, when it succeeds, at a vector of the same length all of whose elements are at a fixpoint |
| Reduction.UnchangedAll | pylarklispy/entities.py:193-200 | a round counts as many unchanged elements as it has exactly when none of them changed |
| Reduction.EachF | pylarklispy/entities.py:195-199 | a round computes each element once, in order: step `i` of a successful round is the `compute` of element `i` |
| Reduction.CallF | pylarklispy/entities.py:285-297 | a call without fuel fails with `OutOfFuel`; a successful call ends at a value that is not an S-expression, a sigil string or an unsettled vector |
| Reduction.InvokeF | pylarklispy/entities.py:291-297 | without a captured frame, the call is `RunF` in the caller's scope; with one, a closure called with the wrong number of arguments fails with `ArityMismatch`, a failing native's failure is the call's result, and nothing else is known; a successful result is settled |
| Reduction.RunF | pylarklispy/entities.py:294 | running the callable: a closure with the wrong number of arguments fails with `ArityMismatch`, and a native's failure is the result. A successful result is settled; it is what the callable returns (for a closure, its body evaluated under the table of its parameters over the given tables), evaluated in the given tables |
| Reduction.Inner | pylarklispy/entities.py:291-294 | the tables visible while the callable runs: the captured frame's own names and then its ancestors' when there is a captured frame, the caller's scope otherwise |
| Reduction.NativeResult | pylarklispy/entities.py:294 | `self.fn(runtime, *computed_args)` for a native: each native's result is that of its builtin or functools operation, whose contracts state it |
| Reduction.PrepareF | pylarklispy/entities.py:286-289 | a lazy Function receives the quoted arguments; a strict one succeeds with one value per argument, value `i` being what argument `i` evaluates to |
| Reduction.Evaluate | pylarklispy/entities.py:202-208 | `evaluate` gives what `EvalF` gives, whenever that is known, and only a fixpoint: a vector's elements are computed once each, anything else goes through the loop; the stack and the visible names after it are those before it |
| Reduction.Reduce | pylarklispy/entities.py:76-85 | the `while True` loop returns what `LoopF` gives from the entity, whenever that is known, and only a fixpoint; the stack and the visible names are restored |
| Reduction.ComputeEach | pylarklispy/entities.py:193-200 | the loop of `Vector.compute` gives `EachF`'s entities, and counts exactly the elements that came back unchanged; the stack is restored |
| Reduction.Compute | pylarklispy/entities.py:166-254 | `compute` gives what `StepF` gives, whenever that is known; a step reports a change exactly when the entity is not at a fixpoint; the stack is restored |
| Reduction.ComputeVector | pylarklispy/entities.py:189-200 | a vector whose count is its length is handed back unchanged; otherwise a round gives `StepF`'s vector whenever that is known, and reports a change |
| Reduction.ComputeApplication | pylarklispy/entities.py:166-167 | an application gives `StepF`'s answer whenever that is known, and a successful one always reports a change |
| Reduction.Call | pylarklispy/entities.py:285-297 | `Function.call` gives what `CallF` gives, whenever that is known. Once the arguments are prepared, a failure there is the result; otherwise the result is `RunF`'s over `Inner`, the captured frame's tables, whenever that is known. The stack after the call equals the stack before it, also when the callable fails |
| Reduction.Invoke | pylarklispy/entities.py:291-297 | a captured frame is pushed before the callable runs and popped afterwards, failure or not, so the stack is restored. The callable runs with the captured frame current: the result is `RunF`'s over the captured frame's tables (the caller's without one) whenever that is known, and `InvokeF`'s whenever that is known |
| Reduction.RunCallable | pylarklispy/entities.py:293-294 | the callable runs in the current frame: the result is `RunF`'s over the current scope whenever that is known. A closure with the wrong number of arguments fails with `ArityMismatch`; a failing native's failure is the result; a native's successful result is evaluated, giving what `EvalF` gives whenever that is known; the stack and the visible names are restored |
| Reduction.PrepareArguments | pylarklispy/entities.py:286-289 | the arguments passed on are `PrepareF`'s whenever that is known, one per argument |
| Reduction.ZipNames | pylarklispy/entities.py:318 | `dict(zip(names, values))` binds exactly the parameter names |
| Reduction.ZipNamesBinds | pylarklispy/entities.py:318 | a parameter name is bound to the value at its last occurrence |
| Reduction.ApplyClosure | pylarklispy/entities.py:310-324 | the wrong number of arguments fails with `ArityMismatch` before any frame is pushed. Otherwise a fresh frame is pushed, with the current frame as parent, depth one more, the function's name as caller and the zipped parameters as names; the body is evaluated there, giving what `EvalF` gives in the scope of the new frame whenever that is known, and the frame is popped, so the stack and the visible names are restored |
| Reduction.CreateFunction | pylarklispy/entities.py:306-330 | `create_function` builds a fresh Function over the closure body, with the given laziness, capturing the runtime's current frame, or no frame without a runtime |
| ReductionLaws.PrepareAtRest | pylarklispy/entities.py:289 | a strict Function receives entities that are already at a fixpoint exactly as they are |
| ReductionLaws.PrepareFirstFailure | pylarklispy/entities.py:289 | strict arguments are evaluated first to last, and the first one that fails ends the preparation with its error, whatever the later arguments would give |
| ReductionLaws.PrepareTwo | pylarklispy/entities.py:289 | a strict Function evaluates its two arguments in order and passes on both values |
| ReductionLaws.ApplicationStep | pylarklispy/entities.py:166-167 | an application whose head evaluates to a Function, and whose call comes to a value at rest, evaluates to that value |
| ReductionLaws.NativeApplication | pylarklispy/entities.py:285-297 | a native applied to values at rest needs two levels of fuel; given them, its result is the native's own, when that is a failure or again at rest |
| ReductionLaws.AddBoundNames | pylarklispy/bif.py:9-12 | `(+ one two)`, with `one` and `two` bound to Integers and `+` bound to the builtin, evaluates to their sum given three levels of fuel |
| ReductionLaws.PrepareBoundNames | pylarklispy/entities.py:289 | the arguments `one two`, bound to Integers, are passed on as those Integers |
| ReductionLaws.BoundName | pylarklispy/entities.py:226-227 | a Name bound to another entity at rest evaluates to that entity |
| ReductionLaws.ShortcutKeepsFinalElements | pylarklispy/entities.py:202-208 | a vector whose elements are all at a fixpoint evaluates to a vector with the same elements, as the loop of `Entity.evaluate` does |
| ReductionLaws.VectorShortcutStopsEarly | pylarklispy/entities.py:202-208 | with `a` bound to `b` and `b` to `1`, `[a]` evaluates to `[b]`, whose element is not at a fixpoint, while the loop reaches `[1]` |
| ReductionLaws.EachNormal | pylarklispy/entities.py:193-200 | a round over elements that are all at a fixpoint hands each of them back unchanged |
| ReductionLaws.ParameterBound | pylarklispy/entities.py:310-324 | a one-parameter closure whose body is its parameter, called with a constant (an entity at rest that is neither a Name nor a Vector), returns that constant: the parameter is bound in the closure's local table |
| ReductionLaws.FreeNameFromDefinition | pylarklispy/entities.py:310-324 | a closure whose body names something that is not a parameter takes its value from the tables the callable runs over, whatever the arguments. With `Invoke`, these are the captured frame's tables, not the caller's (lexical scope) |
| ReductionLaws.ForeachTail | pylarklispy/functools/__init__.py:86-92 | applying `lforeach` to values always has a known answer, and its only value is `:Nil` |
| ReductionLaws.LMapAsWrittenHasNoValue | pylarklispy/functools/__init__.py:73-92 | the library's `lmap` over a non-empty list never comes to a value, whatever the fuel |
| ReductionLaws.LMapAsWrittenCallHasNoValue | pylarklispy/functools/__init__.py:73-92 | the call of the library's `lmap` on a non-empty list never comes to a value, whatever the fuel |
| ReductionLaws.RewriteHasNoValue | pylarklispy/functools/__init__.py:80-92 | `(+> (g x) (lforeach g rest))` never comes to a value, since `+>` refuses `:Nil` |
| ReductionLaws.ConsOntoForeachHasNoValue | pylarklispy/functools/__init__.py:46-50 | calling `+>` with `(lforeach g rest)` as the tail never comes to a value |
| ReductionLaws.Mapped | pylarklispy/functools/__init__.py:73-84 | the mapped list has as many elements as the list, and element `i` is `g`'s result on element `i` |
| ReductionLaws.LMapEvaluates | pylarklispy/functools/__init__.py:73-84 | with the recursion naming `lmap` itself, `(lmap g l)` evaluates to the list of `g`'s results, given four levels of fuel per element and two more |
| ReductionLaws.LMapCell | pylarklispy/functools/__init__.py:80-84 | one cell: `(lmap g x:rest)` evaluates to `g x` in front of what `(lmap g rest)` evaluates to |
| ReductionLaws.LMapCellCall | pylarklispy/functools/__init__.py:80-84 | the call of `lmap` on `x:rest` comes to `g x` in front of what `(lmap g rest)` evaluates to |
| ReductionLaws.ConsOfMapped | pylarklispy/functools/__init__.py:46-50 | `(+> (g x) t)`, with `t` evaluating to a list, puts `g`'s result on `x` in front of it |
| ReductionLaws.ConsOfEvaluated | pylarklispy/functools/__init__.py:46-50 | `(+> h t)`, with `t` evaluating to a list, puts the value of `h` in front of it |
| ReductionLaws.ConsCall | pylarklispy/functools/__init__.py:46-50 | calling `+>` on a head and a tail that evaluates to a list gives the list with the head's value in front |
| Driver.RunAst | pylarklispy/__init__.py:8-12 | `run_ast` returns a fresh runtime whose stack is just the global frame over the built-ins; the run fails exactly when evaluating the statements in order fails, with that failure, whenever that is known |
| CommandLine.Split | pylarklispy/__main__.py:5 | `split("/")` gives at least one piece, no piece holds a slash, and joining the pieces gives the string back |
| CommandLine.Join | pylarklispy/__main__.py:10 | `"/".join` is the inverse of `split("/")` on slash-free pieces (Split, SplitJoin) |
| CommandLine.SplitJoin | pylarklispy/__main__.py:5 | splitting what was joined gives the slash-free pieces back |
| CommandLine.JoinEnds | pylarklispy/__main__.py:9-10 | the joined path is the first piece, the joined middle and the last piece, separated by slashes |
| CommandLine.Ellipsify | pylarklispy/__main__.py:4-13 | the result is never longer than the path; fewer than three pieces leave the path unchanged; a changed path had a middle of at least 16 characters and is strictly shorter, its length being the first and last pieces plus 17 |
| CommandLine.EllipsifyKeepsEnds | pylarklispy/__main__.py:9-13 | a shortened path keeps the first and last pieces, and its middle is the first six characters of the joined middle, `...`, and the last six: exactly 15 characters |
| CommandLine.EllipsifyIdempotent | pylarklispy/__main__.py:4-13 | shortening a path twice is shortening it once |

## Left out

- The parser and `compile_code` (pylarklispy/parser.py, pylarklispy/__init__.py:4-6): they load a grammar file and delegate to the lark library.
- The web server, the sigils library and the ref library: asynchronous HTTP, regular expressions, and builtins that are not part of this model.
- The console output of `print!` and the command-line dispatch of `__main__.py`: console and file I/O. `print!` is modelled as a native that gives `:Nil`.
- `run_ast` takes the table of built-ins as a parameter, where the source always passes bif.py's `index`.
- `**` with a negative exponent gives a host float, or raises ZeroDivisionError when the base is 0. The model fails both with `NonIntegerPower`.
- Host renderings: `Function.__str__`, Python's `repr` escaping of strings, and list elements whose text holds a brace, which the host's `.format` would treat as a field. `Render` gives `None` for these.
- The trace of frames that the host's KeyError carries: a failed lookup yields `UnboundName(name)` only.
- The text of the host's error messages.
- Reduction.Evaluate: its result is tied to the reference semantics only when that is `Known`, which it is not once a Function with a captured frame is called inside it (`InvokeF` cannot read that frame). The stack discipline is stated for every call.
- Reduction.EvalF: a vector evaluates by the shortcut as written, each element computed once (see Findings). `VectorEvalF` states the loop's result beside it, and `Evaluate` follows the code as written.
- Reduction.Reduce: its result is tied to the reference semantics only when that is `Known`, which it is not once a Function with a captured frame is called inside it (`InvokeF` cannot read that frame). The stack discipline is stated for every call.
- Reduction.Compute: its result is tied to the reference semantics only when that is `Known`, which it is not once a Function with a captured frame is called inside it (`InvokeF` cannot read that frame). The stack discipline is stated for every call.
- Reduction.ComputeVector: its result is tied to the reference semantics only when that is `Known`, which it is not once a Function with a captured frame is called inside it (`InvokeF` cannot read that frame). The stack discipline is stated for every call.
- Reduction.ComputeApplication: its result is tied to the reference semantics only when that is `Known`, which it is not once a Function with a captured frame is called inside it (`InvokeF` cannot read that frame). The stack discipline is stated for every call.
- Reduction.ApplyClosure: the value of the body is tied to `EvalF` in the new frame's scope only when that is `Known`, for the same reason.
- Reduction.StepF: the host's identity test is modelled as value equality. A Name bound to an equal Name is a fixpoint here, as it is in the host when the stored object is that Name.
- Entities.Equal: linked lists compare by value, where the host compares them by identity. The sentinel `EmptyList` is the one empty list in both.
- `lforeach`: it calls `fn.call(x)`, which passes the element `x` in the runtime's place and no arguments. A `join` Function never touches the runtime, so its call succeeds and the model gives `:Nil`, as for the empty list. Any other Function fails in the host: with a TypeError for a native missing its arguments, a ValueError for a closure that takes parameters, or an AttributeError when the call pushes a captured frame onto `x` or a closure reads `x`'s current frame. The model reports all of these as `CallWithoutRuntime`, and a non-Function as `NotCallable`. The effects of these calls are not modelled.
- Caller labels: a closure's frame records the function's name, where the host records the Function's `repr`, which is a host rendering.
- Evaluation that diverges is cut off by the fuel bound, with `OutOfFuel`. Whether a longer bound would have finished is not modelled.
- Test expectations that disagree with the code, such as a variadic `+` and `bool` of `:False`: the model follows bif.py. `+` takes exactly two Integers, and `bool :False` is `:True`.

- Functools.Interop: the index binds `lmap` to the corrected rewrite (`ListMap`), not to the as-written one, whose recursion reaches `lforeach` (see Findings).
- Functools.RegisterTraversals: the `lmap` it registers is the corrected rewrite (`ListMap`), not the as-written one (see Findings).

## Findings

| source | as written | input that shows it | evidently intended | confidence | as-written member | corrected member |
|---|---|---|---|---|---|---|
| pylarklispy/functools/__init__.py:80-87 | the `lmap` rewrite names `_lmap`, which the following `def _lmap` for `lforeach` rebinds, so a cell rewrites to `(+> (fn x) (lforeach fn rest))` | `(lmap neg (+> 1 emp))`: the tail evaluates to `:Nil` and `+>` fails with a TypeError | the rewrite recurses on `lmap`, giving the list of `fn`'s results | not executed | ReductionLaws.LMapAsWrittenHasNoValue | ReductionLaws.LMapEvaluates |
| pylarklispy/entities.py:202-208 | `Vector.evaluate` computes each element once and sets `_computed` to the length, so an element that needs more than one `compute` stays unreduced | `[a]` with `a` bound to the Name `b` and `b` to `1`: it evaluates to `[b]`, while repeating `compute` until it hands back the same object gives `[1]` | the shortcut gives the result of the loop of `Entity.evaluate`, as its comment says, with every element at a fixpoint | not executed | ReductionLaws.VectorShortcutStopsEarly | Reduction.VectorEvalF |

The library index registers `lmap` with the corrected rewrite (`ListMap`). The as-written rewrite is `Functools.LMapAsWritten`.

For vectors the interpreter keeps the shortcut as written, since `Vector.evaluate` is what the program runs; `VectorEvalF` is the intended result, proved to leave no element unreduced (`LoopSettlesVector`), and it agrees with the shortcut on vectors whose elements are already at a fixpoint (`ReductionLaws.ShortcutKeepsFinalElements`).
