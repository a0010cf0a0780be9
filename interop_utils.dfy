/** The `Index` of interop_utils.py: a table of names to entities that a library fills
    once and hands to the runtime. A name is registered at most once unless the caller
    asks to overwrite it. */
module InteropUtils {
  import opened Entities

  /** The table after registering `value` under `name`, or `AlreadyPresent` when the name
      is taken and `rewrite` is not set. */
  function Register(entries: map<string, Entity>, name: string, value: Entity, rewrite: bool)
    : (r: Result<map<string, Entity>>)
    ensures r.Failure? <==> name in entries && !rewrite
    ensures r.Failure? ==> r.error == AlreadyPresent(name)
    ensures r.Success? ==>
      r.value.Keys == entries.Keys + {name} && r.value[name] == value &&
      forall k :: k in entries && k != name ==> r.value[k] == entries[k]
  {
    if name in entries && !rewrite then Failure(AlreadyPresent(name))
    else Success(entries[name := value])
  }

  /** Registering a name twice without `rewrite` fails the second time and keeps the first
      value; with `rewrite` the second value wins. */
  lemma RegisterTwice(entries: map<string, Entity>, name: string, v1: Entity, v2: Entity, rewrite: bool)
    requires Register(entries, name, v1, rewrite).Success?
    ensures
      var first := Register(entries, name, v1, rewrite).value;
      var second := Register(first, name, v2, rewrite);
      (rewrite ==> second.Success? && second.value[name] == v2) &&
      (!rewrite ==> second == Failure(AlreadyPresent(name)) && first[name] == v1)
  {
  }

  class Index {
    var entries: map<string, Entity>

    constructor ()
      ensures entries == map[]
    {
      entries := map[];
    }

    /** `add_value`. */
    method AddValue(name: string, value: Entity, rewrite: bool) returns (r: Outcome)
      modifies this
      ensures r.Fail? <==> Register(old(entries), name, value, rewrite).Failure?
      ensures r.Fail? ==> r.error == AlreadyPresent(name) && entries == old(entries)
      ensures r.Pass? ==> entries == Register(old(entries), name, value, rewrite).value
    {
      match Register(entries, name, value, rewrite)
      case Failure(e) => r := Fail(e);
      case Success(m) => entries := m; r := Pass;
    }

    /** `add_function(name, rewrite)(fn)`: wraps the native in a strict Function without a
        captured frame, registers it, and returns it. */
    method AddFunction(name: string, fn: Native, rewrite: bool) returns (r: Result<Function>)
      modifies this
      ensures r.Failure? <==> name in old(entries) && !rewrite
      ensures r.Failure? ==> r.error == AlreadyPresent(name) && entries == old(entries)
      ensures r.Success? ==>
        fresh(r.value) && r.value.name == name && r.value.fn == fn &&
        r.value.closure == null && !r.value.lazy &&
        entries == old(entries)[name := Fn(r.value)]
    {
      var f := Make(name, fn, false);
      var added := AddValue(name, Fn(f), rewrite);
      if added.Fail? {
        r := Failure(added.error);
      } else {
        r := Success(f);
      }
    }
  }
}
