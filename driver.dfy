/** `run_ast` of the package's __init__.py: a fresh runtime over a table of built-ins, and
    each statement evaluated in turn in its global frame. A failure propagates to the
    caller and the remaining statements are not run. */
module Driver {
  import opened Entities
  import opened Reduction

  /** Evaluating the statements in order and stopping at the first failure is what a strict
      call does with its arguments, so `PrepareF` is the reference for the run. */
  method RunAst(builtIns: map<string, Entity>, statements: seq<Entity>, fuel: nat)
    returns (rt: Runtime, r: Outcome)
    ensures fresh(rt) && fresh(rt.globalFrame) && rt.Valid() && rt.stack == [rt.globalFrame]
    ensures rt.globalFrame.names == builtIns && rt.globalFrame.ancestors == []
    ensures
      var a := PrepareF(fuel, [builtIns], false, statements);
      a.Known? ==> (r.Fail? <==> a.result.Failure?) && (r.Fail? ==> r.error == a.result.error)
  {
    rt := new Runtime(builtIns);
    ghost var scope := [builtIns];
    ghost var done: seq<Entity> := [];
    assert statements[0..] == statements;
    assert rt.CurrentScope() == scope;
    PrefixedNil(PrepareF(fuel, scope, false, statements));
    for i := 0 to |statements|
      invariant rt.Valid() && rt.stack == [rt.globalFrame] && rt.CurrentScope() == scope
      invariant rt.globalFrame.names == builtIns && rt.globalFrame.ancestors == []
      invariant PrepareF(fuel, scope, false, statements).Known? ==>
        PrepareF(fuel, scope, false, statements) == Prefixed(done, PrepareF(fuel, scope, false, statements[i..]))
    {
      var v := Evaluate(rt, scope, statements[i], fuel);
      assert statements[i..][0] == statements[i] && statements[i..][1..] == statements[i + 1..];
      PrepareFirst(fuel, scope, statements[i..]);
      if v.Failure? {
        return rt, Fail(v.error);
      }
      PrefixedAppend(done, v.value, PrepareF(fuel, scope, false, statements[i + 1..]));
      done := done + [v.value];
    }
    assert statements[|statements|..] == [];
    r := Pass;
  }
}
