/**
 * The WHMCS app handler: a few constants describing the application to the
 * control panel, the `__call` wrapper that routes `liwhmcs_*` API calls, and
 * `handle`.
 */
module WhmcsHandler {
  import opened Php

  const Name := "WHMCS"
  const AdminPath := "/admin"
  const Link := "https://whmcs.com"
  const DefaultFortification := "max"
  const FeatAllowSsl := true
  const FeatRecovery := false

  /** The application is listed in the panel. */
  function Display(): bool {
    true
  }

  /** The handler offers no install of its own. */
  function HasInstall(): bool {
    false
  }

  function GetVersions(): seq<string> {
    ["1.0"]
  }

  /** The API module whose calls flow through this handler. */
  function GetClassMapping(): string {
    "liwhmcs"
  }

  lemma HandlerConstants()
    ensures Display() && !HasInstall()
    ensures GetVersions() == ["1.0"]
    ensures GetClassMapping() == "liwhmcs"
    ensures DefaultFortification == "max" && FeatAllowSsl && !FeatRecovery
  {
  }

  /** How `__call` classifies the name of a called method. */
  datatype Route =
    | Unqualified                                  // no '_' in the name
    | OtherModule(prefix: string, fn: string)      // prefix before the first '_' is not ours
    | Mapped(fn: string)                           // prefix is GetClassMapping()

  function RouteOf(name: string): Route {
    if '_' !in name then Unqualified
    else
      var (prefix, fn) := SplitFirst(name, '_');
      if prefix != GetClassMapping() then OtherModule(prefix, fn) else Mapped(fn)
  }

  /**
   * What one `__call` does: the parent `__call` it makes and the line it may
   * echo in debug mode.
   */
  datatype Dispatch<A> = Dispatch(parentMethod: string, parentArgs: A, debugLine: Option<string>)

  function Call<A>(name: string, args: A, debug: bool): (d: Dispatch<A>)
    ensures d.parentMethod == name && d.parentArgs == args
    ensures d.debugLine.Some? <==> debug && RouteOf(name).Mapped?
  {
    match RouteOf(name)
    case Unqualified => Dispatch(name, args, None)
    case OtherModule(_, _) => Dispatch(name, args, None)
    case Mapped(fn) => Dispatch(name, args, if debug then Some(GetClassMapping() + ": " + fn + "\n") else None)
  }

  /** The split: a module part without '_' that, glued back with '_', gives the name. */
  lemma RouteSplits(name: string)
    ensures RouteOf(name).Unqualified? <==> '_' !in name
    ensures RouteOf(name).OtherModule? ==>
              var r := RouteOf(name);
              r.prefix + "_" + r.fn == name && '_' !in r.prefix && r.prefix != GetClassMapping()
    ensures RouteOf(name).Mapped? ==> GetClassMapping() + "_" + RouteOf(name).fn == name
  {
  }

  /** The debug line is printed only for names that start with `liwhmcs_`. */
  lemma {:induction false} EchoOnlyForMapping<A>(name: string, args: A, debug: bool)
    ensures Call(name, args, debug).debugLine.Some? ==> debug && IsPrefix("liwhmcs_", name)
  {
    if RouteOf(name).Mapped? {
      var fn := RouteOf(name).fn;
      assert name == "liwhmcs_" + fn;
    }
  }

  /** A name of the form `liwhmcs_fn` with fn free to contain '_' is routed as mapped. */
  lemma {:induction false} MappedNames(fn: string)
    ensures RouteOf(GetClassMapping() + "_" + fn) == Mapped(fn)
  {
    var name := GetClassMapping() + "_" + fn;
    assert '_' !in GetClassMapping();
    SplitFirstUnique(name, '_', GetClassMapping(), fn);
  }

  /** What `handle` did: its result, the `liwhmcs_hello` call it made, or the parameters it passed up. */
  datatype HandleOutcome = HandleOutcome(
    result: bool,
    helloCall: Option<Dispatch<seq<string>>>,
    delegatedParams: Option<map<string, string>>)

  /**
   * `handle($params)`: with a non-empty `say`, call `liwhmcs_hello` (which
   * goes through `__call`) and report success; otherwise hand the same
   * parameters to the parent, whose answer is `parentResult`.
   */
  function Handle(params: map<string, string>, parentResult: bool, debug: bool): (h: HandleOutcome)
    ensures !Empty(params, "say") ==>
              h.result && h.delegatedParams.None? && h.helloCall.Some?
              && RouteOf(h.helloCall.value.parentMethod) == Mapped("hello")
    ensures Empty(params, "say") ==>
              h.result == parentResult && h.delegatedParams == Some(params) && h.helloCall.None?
  {
    if !Empty(params, "say") then
      MappedNames("hello");
      HandleOutcome(true, Some(Call(GetClassMapping() + "_" + "hello", [], debug)), None)
    else
      HandleOutcome(parentResult, None, Some(params))
  }
}
