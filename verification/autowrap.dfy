/** The router patch: every route-registration method (`use`, `all` and one per
    HTTP verb) maps its arguments before registering them. An argument that is a
    function declaring at most three parameters, and is not an Express
    application (a value whose `handle` and `set` are truthy), is replaced by a wrapper
    `(req, res, next) => (async () => f(req, res, next))().catch(next)`; every
    other argument is passed on unchanged. */
module AutoWrap {
  import opened Js
  import opened Wrappers
  import Mount

  /** The per-argument rule of the patch. */
  predicate Wrappable(v: Value) {
    v.Fn? && v.f.length <= 3 && !(v.f.hasHandle && v.f.hasSet)
  }

  /** An argument as registered: the original value, or a wrapper around a function. */
  datatype RouteArg = Kept(v: Value) | Wrapped(inner: Func)

  /** The value the registered argument stands for: itself, or the function it wraps. */
  function Original(a: RouteArg): Value {
    match a
    case Kept(v) => v
    case Wrapped(f) => Fn(f)
  }

  /** `args.map(...)` in the patched registration method. */
  function WrapArgs(args: seq<Value>): (r: seq<RouteArg>)
    ensures |r| == |args|
    ensures forall i :: 0 <= i < |args| ==> (r[i].Wrapped? <==> Wrappable(args[i]))
    ensures forall i :: 0 <= i < |args| ==> Original(r[i]) == args[i]
  {
    if |args| == 0 then []
    else
      var a := if Wrappable(args[0]) then Wrapped(args[0].f) else Kept(args[0]);
      [a] + WrapArgs(args[1..])
  }

  /** The mapping is element-wise, so registering `a` then `b` in one call is
      the same as mapping each part separately. */
  lemma {:induction false} WrapArgsAppend(a: seq<Value>, b: seq<Value>)
    ensures WrapArgs(a + b) == WrapArgs(a) + WrapArgs(b)
    decreases |a|
  {
    if |a| > 0 {
      assert (a + b)[0] == a[0];
      assert (a + b)[1..] == a[1..] + b;
      WrapArgsAppend(a[1..], b);
    } else {
      assert a + b == b;
    }
  }

  /** Paths, objects, error handlers (four parameters) and mounted applications
      are registered as they are. */
  lemma NotWrapped(v: Value)
    requires !v.Fn? || v.f.length >= 4 || (v.f.hasHandle && v.f.hasSet)
    ensures WrapArgs([v]) == [Kept(v)]
  {
  }

  /** Whether the wrapper calls `next`, and with which error. */
  datatype Effect = NoNext | NextWith(err: Error)

  /** The wrapper's effect, given how the wrapped handler's call ended: the
      handler runs inside an async function, so a synchronous throw becomes a
      rejection like an asynchronous one, and `.catch(next)` passes it on. */
  function WrapperEffect(o: Outcome): (r: Effect)
    ensures r.NextWith? <==> o.Throws? || o.Rejects?
    ensures r.NextWith? ==> r.err == o.e
  {
    match o
    case Throws(e) => NextWith(e)
    case Rejects(e) => NextWith(e)
    case Completes => NoNext
    case Pends => NoNext
  }

  /** How the call of the wrapper itself ends: it returns the caught promise,
      which never rejects, and which settles exactly when the handler's does. */
  function WrapperOutcome(o: Outcome): (r: Outcome)
    ensures !r.Throws? && !r.Rejects?
    ensures r.Pends? <==> o.Pends?
  {
    if o.Pends? then Pends else Completes
  }

  /** A synchronous throw and a rejection with the same error are forwarded alike,
      and success never calls `next`. */
  lemma FailuresForwardedAlike(e: Error)
    ensures WrapperEffect(Throws(e)) == WrapperEffect(Rejects(e)) == NextWith(e)
    ensures WrapperEffect(Completes) == NoNext
  {
  }

  /** The wrapper `(req, res, next) => ...` as a JavaScript value: an arrow
      function declaring three parameters, with no `handle` or `set` property.
      It is identified here by the function it wraps. */
  function WrapperValue(inner: Func): (v: Value)
    ensures v.Fn? && v.f.length == 3
    ensures Wrappable(v)
  {
    Fn(Func(inner.id, 3, false, false))
  }

  /** Passing a wrapper to a patched method again wraps it again, but the outer
      wrapper never calls `next`, so `next` is still called at most once per
      failure. */
  lemma DoubleWrapAddsNothing(inner: Func, o: Outcome)
    ensures WrapArgs([WrapperValue(inner)]) == [Wrapped(WrapperValue(inner).f)]
    ensures WrapperEffect(WrapperOutcome(o)) == NoNext
  {
  }

  /** The built-in authorization gate is an async three-parameter function, so the
      patch wraps it; with no global `authorize` predicate its TypeError reaches
      the error handler through `next`, and with one the wrapper adds no `next`
      call of its own. */
  lemma AuthorizationGateErrorsForwarded(gate: Func, req: Mount.Request, policy: Value, hook: Mount.AuthorizeHook)
    requires gate.length == 3 && !gate.hasHandle && !gate.hasSet
    ensures WrapArgs([Fn(gate)]) == [Wrapped(gate)]
    ensures hook.NoHook? ==>
      WrapperEffect(Mount.AuthorizationGateOutcome(Mount.AuthorizationGate(req, policy, hook)))
        == NextWith(NotAFunction("opt.authorize"))
    ensures hook.Hook? ==>
      WrapperEffect(Mount.AuthorizationGateOutcome(Mount.AuthorizationGate(req, policy, hook))) == NoNext
  {
  }
}
