/** Mounting the collected controllers: each controller module is mounted with one
    `app.use(...)` call whose arguments are, in this order, the URL prefix derived
    from its key (none for the root `index` controller), a CORS middleware, the
    upload middleware(s), an authentication step, an authorization step, and the
    controller itself. Each optional step is left out entirely when the
    controller does not ask for it. */
module Mount {
  import opened Wrappers
  import opened Js
  import opened Text
  import opened Entries

  /** A loaded controller module: the exported handler (identified by `id`) and the
      optional fields the mount code reads from it. */
  datatype Controller = Controller(id: nat, cors: Value, multer: Value, authenticate: Value, authorize: Value)

  /** The global upload factory, `opt.multer && multer(options)`. */
  datatype UploadFactory = NoFactory | Factory(config: Config)

  function FactoryOf(optMulter: Value): (u: UploadFactory)
    ensures u.NoFactory? <==> !Truthy(optMulter)
    ensures u.Factory? ==> (u.config.Given? <==> IsObject(optMulter))
    ensures u.Factory? ==> u.config == ConfigOf(optMulter)
  {
    if Truthy(optMulter) then Factory(ConfigOf(optMulter)) else NoFactory
  }

  /** The middleware tokens a controller's mount chain is built from. */
  datatype Middleware =
    | Cors(config: Config)          // the cors package's middleware for these options
    | Upload(item: Value)           // one value returned by `controller.multer(factory)`
    | AuthnGate                     // the built-in 401 gate
    | CustomAuthn(authn: Func)      // the controller's own authentication middleware
    | AuthzGate(policy: Value)      // the built-in 403 gate, checking this policy
    | CustomAuthz(authz: Func)      // the controller's own authorization middleware
    | Handlers(controller: Controller)

  /** One argument of the `app.use` call: a path or a middleware. */
  datatype MountArg = At(path: string) | Use(middleware: Middleware)

  /** `key != 'index' ? '/' + key.replace(/\/index$/i, '') : []`. */
  function MountPrefix(key: string): (p: Option<string>)
    ensures p.None? <==> key == "index"
    ensures p.Some? ==> |p.value| > 0 && p.value[0] == '/'
  {
    if key == "index" then None else Some("/" + StripSuffixIgnoringCase(key, "/index"))
  }

  /** A trailing `index` segment, in any letter case, is dropped from the prefix. */
  lemma PrefixDropsIndexSegment(dir: string, segment: string)
    requires SameIgnoringCase(segment, "index")
    ensures MountPrefix(dir + "/" + segment) == Some("/" + dir)
  {
    assert dir + "/" + segment == dir + ("/" + segment);
    assert SameIgnoringCase("/" + segment, "/index") by {
      var t := "/" + segment;
      forall i | 0 <= i < |t| ensures Lower(t[i]) == "/index"[i] {
        if i > 0 { assert t[i] == segment[i - 1]; }
      }
    }
    StripSuffixRoundTrip(dir, "/" + segment, "/index");
    assert dir + "/" + segment != "index";
  }

  /** Any other key is mounted under `/` followed by the key itself. */
  lemma PrefixOfPlainKey(key: string)
    requires key != "index" && !EndsWithIgnoringCase(key, "/index")
    ensures MountPrefix(key) == Some("/" + key)
  {
  }

  /** `users/index` and `users` share the prefix `/users`, in any letter case of
      the `index` segment. */
  lemma PrefixExamplesUsers()
    ensures MountPrefix("users/index") == Some("/users")
    ensures MountPrefix("users/INDEX") == Some("/users")
    ensures MountPrefix("users") == Some("/users")
  {
    assert "users" + "/" + "index" == "users/index";
    PrefixDropsIndexSegment("users", "index");
    assert "users" + "/" + "INDEX" == "users/INDEX";
    PrefixDropsIndexSegment("users", "INDEX");
    PrefixOfPlainKey("users");
    assert "/" + "users" == "/users";
  }

  /** Only the last `index` segment goes (`a/index/index` is mounted at
      `/a/index`), the comparison with `index` alone is case-sensitive (`Index`
      is mounted at `/Index`), and the root `index` controller has no prefix. */
  lemma PrefixExamplesEdges()
    ensures MountPrefix("a/index/index") == Some("/a/index")
    ensures MountPrefix("Index") == Some("/Index")
    ensures MountPrefix("index") == None
  {
    assert "a/index" + "/" + "index" == "a/index/index";
    PrefixDropsIndexSegment("a/index", "index");
    assert "/" + "a/index" == "/a/index";
    PrefixOfPlainKey("Index");
    assert "/" + "Index" == "/Index";
  }

  function PrefixStep(key: string): seq<MountArg> {
    match MountPrefix(key)
    case None => []
    case Some(p) => [At(p)]
  }

  /** `controller.cors ? cors(typeof controller.cors == 'object' ? controller.cors : {}) : []`. */
  function CorsStep(c: Controller): seq<MountArg> {
    if Truthy(c.cors) then [Use(Cors(ConfigOf(c.cors)))] else []
  }

  /** `(controller.multer && controller.multer(factory)) || []`, where `call` stands
      for running the controller's own `multer` function. Calling a truthy
      `multer` that is not a function throws a TypeError. */
  function UploadStep(c: Controller, factory: UploadFactory, call: (Func, UploadFactory) -> Value)
    : Result<seq<MountArg>, Error>
  {
    if !Truthy(c.multer) then Success([])
    else if !c.multer.Fn? then Failure(NotAFunction("controller.multer"))
    else
      var out := call(c.multer.f, factory);
      if Truthy(out) then Success(UploadArgs(Spread(out))) else Success([])
  }

  function UploadArgs(items: seq<Value>): (r: seq<MountArg>)
    ensures |r| == |items|
    ensures forall i :: 0 <= i < |items| ==> r[i] == Use(Upload(items[i]))
  {
    if |items| == 0 then [] else [Use(Upload(items[0]))] + UploadArgs(items[1..])
  }

  /** A truthy non-function `authenticate` becomes the built-in gate, a function is
      used as it is, and a falsy one adds nothing. */
  function AuthnStep(c: Controller): seq<MountArg> {
    if !Truthy(c.authenticate) then []
    else if c.authenticate.Fn? then [Use(CustomAuthn(c.authenticate.f))]
    else [Use(AuthnGate)]
  }

  /** The same rule for `authorize`; the built-in gate checks the field's value. */
  function AuthzStep(c: Controller): seq<MountArg> {
    if !Truthy(c.authorize) then []
    else if c.authorize.Fn? then [Use(CustomAuthz(c.authorize.f))]
    else [Use(AuthzGate(c.authorize))]
  }

  /** The position class of each argument in the fixed chain order. */
  function Stage(a: MountArg): nat {
    match a
    case At(_) => 0
    case Use(m) =>
      match m
      case Cors(_) => 1
      case Upload(_) => 2
      case AuthnGate => 3
      case CustomAuthn(_) => 3
      case AuthzGate(_) => 4
      case CustomAuthz(_) => 4
      case Handlers(_) => 5
  }

  predicate InStageOrder(args: seq<MountArg>) {
    forall i, j :: 0 <= i < j < |args| ==> Stage(args[i]) <= Stage(args[j])
  }

  predicate AllInStage(args: seq<MountArg>, s: nat) {
    forall i :: 0 <= i < |args| ==> Stage(args[i]) == s
  }

  lemma StageOrderAppend(a: seq<MountArg>, b: seq<MountArg>, s: nat)
    requires InStageOrder(a) && (forall i :: 0 <= i < |a| ==> Stage(a[i]) <= s)
    requires AllInStage(b, s)
    ensures InStageOrder(a + b)
    ensures forall i :: 0 <= i < |a + b| ==> Stage((a + b)[i]) <= s
  {
  }

  /** The arguments of the `app.use` call that mounts controller `c` stored under `key`. */
  function MountArgs(key: string, c: Controller, factory: UploadFactory, call: (Func, UploadFactory) -> Value)
    : Result<seq<MountArg>, Error>
  {
    match UploadStep(c, factory, call)
    case Failure(e) => Failure(e)
    case Success(upload) =>
      Success(PrefixStep(key) + CorsStep(c) + upload + AuthnStep(c) + AuthzStep(c) + [Use(Handlers(c))])
  }

  /** Mounting fails only when `multer` is truthy but not callable. */
  lemma MountFailsOnlyOnBadMulter(key: string, c: Controller, factory: UploadFactory, call: (Func, UploadFactory) -> Value)
    ensures MountArgs(key, c, factory, call).Failure? <==> Truthy(c.multer) && !c.multer.Fn?
    ensures MountArgs(key, c, factory, call).Failure? ==>
      MountArgs(key, c, factory, call).error == NotAFunction("controller.multer")
  {
  }

  /** The chain is in the fixed order, starts with the prefix exactly when the key
      is not `index`, and ends with the controller, which occurs nowhere else. */
  lemma MountOrder(key: string, c: Controller, factory: UploadFactory, call: (Func, UploadFactory) -> Value)
    requires MountArgs(key, c, factory, call).Success?
    ensures var args := MountArgs(key, c, factory, call).value;
      && |args| > 0
      && InStageOrder(args)
      && args[|args| - 1] == Use(Handlers(c))
      && (forall i :: 0 <= i < |args| - 1 ==> Stage(args[i]) < 5)
      && (args[0].At? <==> key != "index")
      && (args[0].At? ==> MountPrefix(key) == Some(args[0].path))
      && (forall i :: 0 < i < |args| ==> !args[i].At?)
  {
    var p0, p1, p2 := PrefixStep(key), CorsStep(c), UploadStep(c, factory, call).value;
    var p3, p4, p5 := AuthnStep(c), AuthzStep(c), [Use(Handlers(c))];
    var args := MountArgs(key, c, factory, call).value;
    assert args == p0 + p1 + p2 + p3 + p4 + p5;
    assert AllInStage(p0, 0) && AllInStage(p1, 1) && AllInStage(p2, 2);
    assert AllInStage(p3, 3) && AllInStage(p4, 4);
    ChainOrder(p0, p1, p2, p3, p4, Use(Handlers(c)));
    if key == "index" {
      assert p0 == [];
    } else {
      assert p0 == [At(MountPrefix(key).value)];
    }
  }

  /** A chain made of one part per stage, ending in the controller, is in stage
      order, and only its last argument is at the controller's stage. */
  lemma ChainOrder(p0: seq<MountArg>, p1: seq<MountArg>, p2: seq<MountArg>,
                   p3: seq<MountArg>, p4: seq<MountArg>, last: MountArg)
    requires AllInStage(p0, 0) && AllInStage(p1, 1) && AllInStage(p2, 2)
    requires AllInStage(p3, 3) && AllInStage(p4, 4) && Stage(last) == 5
    ensures InStageOrder(p0 + p1 + p2 + p3 + p4 + [last])
    ensures forall i :: 0 <= i < |p0 + p1 + p2 + p3 + p4| ==> Stage((p0 + p1 + p2 + p3 + p4)[i]) < 5
  {
    var q1 := p0 + p1;
    var q2 := q1 + p2;
    var q3 := q2 + p3;
    var q4 := q3 + p4;
    StageOrderAppend(p0, p1, 1);
    StageOrderAppend(q1, p2, 2);
    StageOrderAppend(q2, p3, 3);
    StageOrderAppend(q3, p4, 4);
    StageOrderAppend(q4, [last], 5);
  }

  /** The arguments of the chain that belong to stage `s`, in order. */
  function Section(args: seq<MountArg>, s: nat): seq<MountArg> {
    if |args| == 0 then []
    else (if Stage(args[0]) == s then [args[0]] else []) + Section(args[1..], s)
  }

  lemma {:induction false} SectionAppend(a: seq<MountArg>, b: seq<MountArg>, s: nat)
    ensures Section(a + b, s) == Section(a, s) + Section(b, s)
    decreases |a|
  {
    if |a| > 0 {
      assert (a + b)[0] == a[0];
      assert (a + b)[1..] == a[1..] + b;
      SectionAppend(a[1..], b, s);
    } else {
      assert a + b == b;
    }
  }

  /** Appending a part that lies wholly in stage `t` extends stage `t`'s section only. */
  lemma {:induction false} SectionAppendStage(a: seq<MountArg>, b: seq<MountArg>, t: nat, s: nat)
    requires AllInStage(b, t)
    ensures s == t ==> Section(a + b, s) == Section(a, s) + b
    ensures s != t ==> Section(a + b, s) == Section(a, s)
    decreases |b|
  {
    SectionAppend(a, b, s);
    SectionOfStage(b, t, s);
  }

  lemma {:induction false} SectionOfStage(a: seq<MountArg>, t: nat, s: nat)
    requires AllInStage(a, t)
    ensures Section(a, s) == if s == t then a else []
    decreases |a|
  {
    if |a| > 0 {
      SectionOfStage(a[1..], t, s);
      assert a == [a[0]] + a[1..];
    }
  }

  /** Stage by stage: a falsy field contributes nothing, a truthy `cors`,
      `authenticate` or `authorize` exactly one argument, the prefix at most one,
      the `multer` function's truthy result its spread values in order (and a
      falsy result nothing), and the controller exactly once. */
  lemma MountSections(key: string, c: Controller, factory: UploadFactory, call: (Func, UploadFactory) -> Value)
    requires MountArgs(key, c, factory, call).Success?
    ensures var args := MountArgs(key, c, factory, call).value;
      && |Section(args, 0)| == (if key == "index" then 0 else 1)
      && |Section(args, 1)| == (if Truthy(c.cors) then 1 else 0)
      && Section(args, 2) == (if c.multer.Fn? && Truthy(call(c.multer.f, factory))
                              then UploadArgs(Spread(call(c.multer.f, factory))) else [])
      && |Section(args, 3)| == (if Truthy(c.authenticate) then 1 else 0)
      && |Section(args, 4)| == (if Truthy(c.authorize) then 1 else 0)
      && Section(args, 5) == [Use(Handlers(c))]
  {
    var p0, p1, p2 := PrefixStep(key), CorsStep(c), UploadStep(c, factory, call).value;
    var p3, p4, p5 := AuthnStep(c), AuthzStep(c), [Use(Handlers(c))];
    assert MountArgs(key, c, factory, call).value == p0 + p1 + p2 + p3 + p4 + p5;
    assert AllInStage(p0, 0) && AllInStage(p1, 1) && AllInStage(p2, 2);
    assert AllInStage(p3, 3) && AllInStage(p4, 4) && AllInStage(p5, 5);
    ChainSection(p0, p1, p2, p3, p4, p5, 0);
    ChainSection(p0, p1, p2, p3, p4, p5, 1);
    ChainSection(p0, p1, p2, p3, p4, p5, 2);
    ChainSection(p0, p1, p2, p3, p4, p5, 3);
    ChainSection(p0, p1, p2, p3, p4, p5, 4);
    ChainSection(p0, p1, p2, p3, p4, p5, 5);
  }

  /** In a chain made of one part per stage, stage `s`'s section is part `s`. */
  lemma ChainSection(p0: seq<MountArg>, p1: seq<MountArg>, p2: seq<MountArg>,
                     p3: seq<MountArg>, p4: seq<MountArg>, p5: seq<MountArg>, s: nat)
    requires AllInStage(p0, 0) && AllInStage(p1, 1) && AllInStage(p2, 2)
    requires AllInStage(p3, 3) && AllInStage(p4, 4) && AllInStage(p5, 5)
    requires s <= 5
    ensures Section(p0 + p1 + p2 + p3 + p4 + p5, s) == [p0, p1, p2, p3, p4, p5][s]
  {
    var q1 := p0 + p1;
    var q2 := q1 + p2;
    var q3 := q2 + p3;
    var q4 := q3 + p4;
    var q5 := q4 + p5;
    SectionOfStage(p0, 0, s);
    SectionAppendStage(p0, p1, 1, s);
    SectionAppendStage(q1, p2, 2, s);
    SectionAppendStage(q2, p3, 3, s);
    SectionAppendStage(q3, p4, 4, s);
    SectionAppendStage(q4, p5, 5, s);
    if s == 0 {
      assert Section(q5, s) == p0;
    } else if s == 1 {
      assert Section(q5, s) == p1;
    } else if s == 2 {
      assert Section(q5, s) == p2;
    } else if s == 3 {
      assert Section(q5, s) == p3;
    } else if s == 4 {
      assert Section(q5, s) == p4;
    } else {
      assert Section(q5, s) == p5;
    }
  }

  /** Every step the controller asks for is present, with the configuration and
      policy taken from the controller's own fields. */
  lemma MountIncludesRequestedSteps(key: string, c: Controller, factory: UploadFactory, call: (Func, UploadFactory) -> Value)
    requires MountArgs(key, c, factory, call).Success?
    ensures var args := MountArgs(key, c, factory, call).value;
      && (Truthy(c.cors) ==> Use(Cors(ConfigOf(c.cors))) in args)
      && (c.multer.Fn? && Truthy(call(c.multer.f, factory)) ==>
            forall x :: x in Spread(call(c.multer.f, factory)) ==> Use(Upload(x)) in args)
      && (c.authenticate.Fn? ==> Use(CustomAuthn(c.authenticate.f)) in args)
      && (Truthy(c.authenticate) && !c.authenticate.Fn? ==> Use(AuthnGate) in args)
      && (c.authorize.Fn? ==> Use(CustomAuthz(c.authorize.f)) in args)
      && (Truthy(c.authorize) && !c.authorize.Fn? ==> Use(AuthzGate(c.authorize)) in args)
  {
    var upload := UploadStep(c, factory, call).value;
    var front := PrefixStep(key) + CorsStep(c);
    var args := MountArgs(key, c, factory, call).value;
    assert args == front + upload + AuthnStep(c) + AuthzStep(c) + [Use(Handlers(c))];
    if c.multer.Fn? && Truthy(call(c.multer.f, factory)) {
      forall x | x in Spread(call(c.multer.f, factory)) ensures Use(Upload(x)) in args {
        var items := Spread(call(c.multer.f, factory));
        var i :| 0 <= i < |items| && items[i] == x;
        assert args[|front| + i] == upload[i];
      }
    }
  }

  /** A controller without any of the optional fields is mounted as just its
      prefix (if any) and itself. */
  lemma BareControllerMount(key: string, c: Controller, factory: UploadFactory, call: (Func, UploadFactory) -> Value)
    requires !Truthy(c.cors) && !Truthy(c.multer) && !Truthy(c.authenticate) && !Truthy(c.authorize)
    ensures MountArgs(key, c, factory, call) ==
      Success(if key == "index" then [Use(Handlers(c))] else [At(MountPrefix(key).value), Use(Handlers(c))])
  {
    assert CorsStep(c) == [] && AuthnStep(c) == [] && AuthzStep(c) == [];
    assert UploadStep(c, factory, call) == Success([]);
    if key == "index" {
      assert PrefixStep(key) == [];
      assert [] + [] + [] + [] + [] + [Use(Handlers(c))] == [Use(Handlers(c))];
    } else {
      var prefix := [At(MountPrefix(key).value)];
      assert PrefixStep(key) == prefix;
      assert prefix + [] + [] + [] + [] + [Use(Handlers(c))] == [At(MountPrefix(key).value), Use(Handlers(c))];
    }
  }

  /** The controller's upload middleware is mounted even when no global upload
      factory is configured: the `multer` function is called with the falsy factory. */
  lemma UploadWithoutFactory(key: string, c: Controller, call: (Func, UploadFactory) -> Value)
    requires c.multer.Fn? && Truthy(call(c.multer.f, NoFactory)) && !call(c.multer.f, NoFactory).Arr?
    ensures MountArgs(key, c, NoFactory, call).Success?
    ensures Use(Upload(call(c.multer.f, NoFactory))) in MountArgs(key, c, NoFactory, call).value
  {
    MountIncludesRequestedSteps(key, c, NoFactory, call);
  }

  /** One `app.use` call per collected controller, in the collector's order; the
      first controller whose `multer` field is truthy but not a function stops the
      loop with a TypeError, after the controllers before it were mounted. */
  method MountControllers(entries: seq<Entry<Controller>>, factory: UploadFactory, call: (Func, UploadFactory) -> Value)
    returns (mounted: seq<seq<MountArg>>, failure: Option<Error>)
    ensures |mounted| <= |entries|
    ensures forall i :: 0 <= i < |mounted| ==>
      MountArgs(entries[i].key, entries[i].value, factory, call) == Success(mounted[i])
    ensures failure.None? ==> |mounted| == |entries|
    ensures failure.Some? ==> |mounted| < |entries|
    ensures failure.Some? ==>
      MountArgs(entries[|mounted|].key, entries[|mounted|].value, factory, call) == Failure(failure.value)
  {
    mounted := [];
    failure := None;
    var i := 0;
    while i < |entries|
      invariant i == |mounted| <= |entries|
      invariant forall k :: 0 <= k < i ==>
        MountArgs(entries[k].key, entries[k].value, factory, call) == Success(mounted[k])
    {
      var r := MountArgs(entries[i].key, entries[i].value, factory, call);
      if r.Failure? {
        failure := Some(r.error);
        return;
      }
      mounted := mounted + [r.value];
      i := i + 1;
    }
  }

  /** A request as the gates see it: its session and the user the global
      authentication middleware attached (falsy when none). */
  datatype Request = Request(session: nat, user: Value)

  /** What a gate does with a request: respond with a status and stop, or call `next()`. */
  datatype Verdict = Deny(status: nat) | Pass

  /** The global authentication middleware: the resolved user is attached to the
      request only when it is truthy. */
  function AttachUser(req: Request, resolved: Value): (r: Request)
    ensures r.session == req.session
    ensures Truthy(resolved) ==> r.user == resolved
    ensures !Truthy(resolved) ==> r.user == req.user
  {
    if Truthy(resolved) then req.(user := resolved) else req
  }

  /** The built-in authentication gate. */
  function AuthenticationGate(req: Request): (v: Verdict)
    ensures v.Pass? <==> Truthy(req.user)
    ensures v.Deny? ==> v.status == 401
  {
    if !Truthy(req.user) then Deny(401) else Pass
  }

  /** Behind global authentication, the gate lets a request through exactly when
      the resolver returned a user, and answers 401 otherwise. */
  lemma GateAfterAuthentication(req: Request, resolved: Value)
    requires !Truthy(req.user)
    ensures AuthenticationGate(AttachUser(req, resolved)) == if Truthy(resolved) then Pass else Deny(401)
  {
  }

  /** The global `opt.authorize(req, policy)` predicate, when one is configured. */
  datatype AuthorizeHook = NoHook | Hook(allows: (Request, Value) -> bool)

  /** The built-in authorization gate for a controller whose `authorize` field is
      `policy`. Without a configured predicate the call is a TypeError. */
  function AuthorizationGate(req: Request, policy: Value, hook: AuthorizeHook): (r: Result<Verdict, Error>)
    ensures r.Failure? <==> hook.NoHook?
    ensures r.Failure? ==> r.error == NotAFunction("opt.authorize")
    ensures hook.Hook? ==> (r == Success(Pass) <==> hook.allows(req, policy))
    ensures hook.Hook? ==> (r == Success(Deny(403)) <==> !hook.allows(req, policy))
  {
    match hook
    case NoHook => Failure(NotAFunction("opt.authorize"))
    case Hook(allows) => if !allows(req, policy) then Success(Deny(403)) else Success(Pass)
  }

  /** The authorization gate is an async function: its errors become a rejection. */
  function AuthorizationGateOutcome(r: Result<Verdict, Error>): (o: Outcome)
    ensures o.Rejects? <==> r.Failure?
    ensures o.Rejects? ==> o.e == r.error
    ensures !o.Rejects? ==> o == Completes
  {
    match r
    case Failure(e) => Rejects(e)
    case Success(_) => Completes
  }

  /** A controller declaring a non-function `authorize` policy is mounted with a
      gate that asks the global predicate about exactly that policy, and a request
      the predicate refuses gets 403. */
  lemma ProtectedControllerDenies(key: string, c: Controller, factory: UploadFactory, call: (Func, UploadFactory) -> Value,
                                  req: Request, allows: (Request, Value) -> bool)
    requires MountArgs(key, c, factory, call).Success?
    requires Truthy(c.authorize) && !c.authorize.Fn?
    ensures Use(AuthzGate(c.authorize)) in MountArgs(key, c, factory, call).value
    ensures AuthorizationGate(req, c.authorize, Hook(allows)) ==
      (if allows(req, c.authorize) then Success(Pass) else Success(Deny(403)))
  {
    MountIncludesRequestedSteps(key, c, factory, call);
  }
}
