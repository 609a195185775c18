/** JavaScript values, reduced to the distinctions the bootstrap code branches on:
    truthiness, `typeof` ("function" or "object"), a function's declared parameter
    count, and whether `[].concat` spreads a value. Values are identified by
    abstract numbers; their contents are never inspected. */
module Js {

  /** A function value: its identity, its `length` (the number of declared formal
      parameters) and whether its `handle` and `set` properties are truthy. */
  datatype Func = Func(id: nat, length: nat, hasHandle: bool, hasSet: bool)

  datatype Value =
    | Falsy                    // undefined, null, false, 0, NaN or ""
    | Prim(id: nat)            // a truthy primitive: true, a non-zero number, a non-empty string
    | Fn(f: Func)              // typeof v == "function"
    | Obj(id: nat)             // typeof v == "object", not null and not an array
    | Arr(items: seq<Value>)   // an array: also typeof "object", and spread by `[].concat`

  predicate Truthy(v: Value) {
    !v.Falsy?
  }

  /** `typeof v == 'object'` for a truthy `v` (null is falsy, so it never reaches this test). */
  predicate IsObject(v: Value) {
    v.Obj? || v.Arr?
  }

  /** Errors that reach the program: a call of something that is not a function
      (a TypeError), or any value a foreign function throws or rejects with. */
  datatype Error = NotAFunction(callee: string) | Raised(thrown: Value)

  /** How a call of a JavaScript function ends: it returns (a value, or a promise
      that resolves), it returns a promise that never settles, it throws
      synchronously, or it returns a promise that rejects. */
  datatype Outcome = Completes | Pends | Throws(e: Error) | Rejects(e: Error)

  /** `[].concat(v)` for one argument: an array contributes its elements, any other value itself. */
  function Spread(v: Value): seq<Value> {
    if v.Arr? then v.items else [v]
  }

  /** The options object handed to a middleware factory: the configured value when it
      is an object, otherwise the empty object `{}`. */
  datatype Config = Defaults | Given(options: Value)

  function ConfigOf(v: Value): (c: Config)
    ensures c.Given? <==> IsObject(v)
    ensures c.Given? ==> c.options == v
  {
    if IsObject(v) then Given(v) else Defaults
  }
}
