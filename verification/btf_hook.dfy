/** Locating a hook's argument type (`findBTFFuncParamFromHookWithSpec`), as
    far as its callers rely on it: the hook is looked up as a function type by
    name, and the argument is picked by index from the function's parameters. */
module BtfHook {
  import opened Wrappers
  import opened BtfTypes

  predicate IsFuncNamed(t: Type, hook: string) {
    t.Func? && t.name == hook
  }

  /** The smallest id from `from` on that holds a function called `hook`. */
  function FirstFuncNamed(g: Graph, hook: string, from: nat): (r: Option<TypeId>)
    ensures r.Some? ==> from <= r.value < |g| && IsFuncNamed(g[r.value], hook)
    ensures r.Some? ==> forall id :: from <= id < r.value ==> !IsFuncNamed(g[id], hook)
    ensures r.None? <==> forall id :: from <= id < |g| ==> !IsFuncNamed(g[id], hook)
    decreases |g| - from
  {
    if from >= |g| then None
    else if IsFuncNamed(g[from], hook) then Some(from)
    else FirstFuncNamed(g, hook, from + 1)
  }

  /** The parameter `argIndex` of the function type called `hook`. A name that is
      absent, or that only names types of other kinds (a struct, say), is "not
      found"; an index at or beyond the parameter count is out of range. */
  function FindBTFFuncParamFromHook(g: Graph, hook: string, argIndex: nat): (r: Result<Param, BtfError>)
    ensures r == Failure(HookNotFound(hook)) <==> forall id :: 0 <= id < |g| ==> !IsFuncNamed(g[id], hook)
    ensures forall id ::
              (0 <= id < |g| && IsFuncNamed(g[id], hook) &&
               forall other :: 0 <= other < id ==> !IsFuncNamed(g[other], hook))
              ==> (if argIndex < |g[id].params| then r == Success(g[id].params[argIndex])
                   else r == Failure(ArgIndexOutOfRange(argIndex)))
  {
    match FirstFuncNamed(g, hook, 0)
    case None => Failure(HookNotFound(hook))
    case Some(id) =>
      if argIndex >= |g[id].params| then Failure(ArgIndexOutOfRange(argIndex))
      else Success(g[id].params[argIndex])
  }
}
