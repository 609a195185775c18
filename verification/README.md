# sprine bootstrap: module collector, controller mount plan, async auto-wrap

This Dafny project models the three deterministic parts of the `sprine`
bootstrap helper (`index.js`). The helper wires an Express application together
from conventions. Everything else in it is configuration of Express, Sequelize and
third-party middleware.

1. **The recursive module collector `require_all`** (`collector.dfy`, with `text.dfy`,
   `sorting.dfy` and `entries.dfy`). It starts from the files a directory walk
   found under a root. It drops every file whose base name starts with `_` and sorts
   the rest as strings. It then folds them into a plain object: the key is the
   root-relative path with one trailing `.js` removed in any letter case, and the
   value is the loaded module. The object is modelled as an insertion-ordered list
   of entries (`Entries`). Assigning a new key appends it. Assigning an existing key
   replaces the value in place, as JavaScript property assignment does.
2. **The controller mount plan** (`mount.dfy`). Each collected controller is
   mounted with one `app.use` call. The call's arguments are, in this fixed order:
   - the URL prefix derived from the controller's key;
   - a CORS middleware;
   - the value(s) returned by the controller's `multer` function;
   - an authentication step: the built-in 401 gate or the controller's own function;
   - an authorization step: the built-in 403 gate or the controller's own function;
   - the controller.

   Each optional step is left out entirely when its field is falsy. Middleware
   appear as tokens (`Middleware`). The fields a controller declares are abstract
   JavaScript values (`Js.Value`), which keep only the distinctions the code tests:
   falsy, function, object or array, and other truthy values.
3. **The async auto-wrap patch** (`autowrap.dfy`). Every route-registration method
   maps its arguments one by one. A function with at most three declared parameters
   that is not an Express application (a value whose `handle` and `set` are truthy)
   is replaced by a wrapper that forwards both
   a synchronous throw and a rejection to `next(err)`. The wrapper's behaviour is a
   function from how the handler's call ended (`Js.Outcome`) to what the wrapper does
   (`Effect`).

Foreign code becomes a parameter:
- the directory walk is the input sequence of paths;
- `require` is a `load` function from path to module value;
- the controller's `multer` function is `call`, applied to the function and the global factory;
- the global `opt.authorize` predicate is an `AuthorizeHook`;
- the resolved user of the global authentication middleware is an argument.

Behaviour of the code that is easy to miss:
- The upload step is mounted whenever the controller's `multer` field is a
  function that returns a truthy value. This holds whether or not a global upload
  factory is configured (index.js:77); the function then receives the falsy factory
  (`Mount.UploadWithoutFactory`).
- A truthy `multer` field that is not a function makes the call throw a TypeError
  at startup. The controllers collected before it are already mounted at that point
  (`Mount.MountControllers`).
- The key test `prefix != 'index'` is case-sensitive, but the trailing `/index`
  removal is not. So `Index` is mounted at `/Index`, while `users/INDEX` is mounted
  at `/users`.

## Model

| member | source | states |
|---|---|---|
| Collector.Basename | index.js:12 | the base name contains no `/`, is a suffix of the path, and is preceded by `/` unless it is the whole path |
| Collector.PrivateByOwnName | index.js:12 | whether `dir/name` is skipped depends only on `name` starting with `_`; a file under an `_`-directory is still loaded |
| Collector.Visible | index.js:12 | a path survives the filter exactly when the walk reported it and its base name does not start with `_` |
| Collector.LoadOrderIgnoresPrivate | index.js:12-13 | adding a private file to the walk leaves the load order unchanged |
| Collector.PrivateFileIgnored | index.js:12 | adding a private file to the walk leaves the collected object unchanged |
| Sorting.Sort | index.js:13 | the sorted array is in ascending string order and is a permutation of its input |
| Sorting.SortedHeads | index.js:13 | two sorted arrangements of the same multiset of strings start with the same string |
| Sorting.SortedUnique | index.js:13 | two sorted arrangements of the same multiset of strings are equal |
| Sorting.SortDeterministic | index.js:13 | the sort's result depends only on the multiset of its input |
| Collector.LoadOrder | index.js:11-13 | modules are loaded in ascending path order, and every non-private walked file is loaded exactly as often as it was walked |
| Collector.CollectOrderIndependent | index.js:11-13 | the collected object is the same for any order in which the walk reports the same files |
| Collector.IsPrivate | index.js:12 | no contract of its own; `Collector.PrivateByOwnName` states that it depends only on the base name starting with `_` |
| Collector.ModuleKey | index.js:16 | the key is a prefix of the root-relative path: three characters shorter when the path ends in `.js` in some letter case, and the whole path otherwise |
| Collector.Relative | index.js:16 | for a path inside the root, the relative path is non-empty and the path is the root, `/`, and the relative path |
| Text.StripSuffixIgnoringCase | index.js:16 | the result is a prefix of the input, and it is shorter by the pattern's length exactly when the input ends with the pattern in some letter case |
| Text.StripSuffixRoundTrip | index.js:16 | removing a suffix that matches the pattern in any letter case gives back what preceded it; only one suffix is removed |
| Text.StripSuffixKeepsOtherEndings | index.js:16 | a string whose last character does not fold to the pattern's last character is unchanged |
| Collector.ModuleKeyStripsJs | index.js:16 | the key of `root/rel` followed by `.js`, `.JS`, `.Js` or `.jS` is `rel` |
| Collector.ModuleKeyKeepsOtherExtensions | index.js:16 | a file not ending in `s`/`S`, such as `x.json`, keeps its whole relative path as its key |
| Collector.Loaded | index.js:16 | one entry per loaded path, in order, keyed by the module key with the loaded module as its value |
| Entries.Lookup | index.js:16 | no contract of its own; `Entries.LookupPresent` states that it finds a value exactly for the keys present |
| Entries.Assign | index.js:16 | assigning a present key keeps the key order, a new key is appended, the key then holds the new value, and every other key is unchanged |
| Entries.LookupPresent | index.js:16 | an object has a value under `k` exactly when `k` is among its keys |
| Entries.FirstOccurrences | index.js:14-18 | the keys in order of first occurrence are duplicate-free and hold exactly the input keys |
| Entries.FoldKeys | index.js:14-18 | the folded object enumerates its keys in the order they first occur in the input |
| Entries.FoldKeysDistinct | index.js:14-18 | the folded object has exactly one property per distinct input key |
| Entries.FoldHasKey | index.js:14-18 | the folded object has key `k` exactly when some input entry has key `k` |
| Entries.FoldLastWins | index.js:14-18 | the value under `k` is the value of the last input entry with key `k` |
| Entries.Fold | index.js:14-18 | no contract of its own; `Entries.FoldKeys`, `Entries.FoldKeysDistinct`, `Entries.FoldHasKey` and `Entries.FoldLastWins` state its key order, key set and values |
| Collector.Collect | index.js:6-18 | no contract of its own; `Collector.CollectKeys`, `Collector.CollectDistinct`, `Collector.CollectLastWins` and `Collector.CollectOrderIndependent` state which keys it holds, in which order, with which values |
| Collector.CollectKeys | index.js:6-18 | a key is present exactly when some non-private walked file derives it |
| Collector.CollectDistinct | index.js:13-17 | each key is stored once, in the order its first file comes in the sorted walk |
| Collector.CollectLastWins | index.js:13-17 | on a key collision the stored value is the module of the file with that key that sorts last |
| Collector.LastIsGreatest | index.js:13-17 | the file behind the last entry with a key follows in string order every other file with that key |
| Js.ConfigOf | index.js:76 | the options object is the field's value when that value is an object or array, and `{}` otherwise |
| Mount.FactoryOf | index.js:71 | there is an upload factory exactly when `opt.multer` is truthy; its options are `opt.multer` when that is an object or array and `{}` otherwise |
| Mount.MountPrefix | index.js:75 | the key `index` has no prefix; every other key has a prefix starting with `/` |
| Mount.PrefixDropsIndexSegment | index.js:75 | `dir/index`, with `index` in any letter case, is mounted at `/dir`, for every `dir` |
| Mount.PrefixOfPlainKey | index.js:75 | a key other than `index` that does not end in `/index` is mounted at `/` followed by the key |
| Mount.PrefixExamplesUsers | index.js:75 | `users/index`, `users/INDEX` and `users` all give `/users` |
| Mount.PrefixExamplesEdges | index.js:75 | `a/index/index` gives `/a/index`; `Index` gives `/Index`; `index` gives no prefix |
| Js.Spread | index.js:74-77 | no contract of its own: `[].concat(v)` gives an array's elements, and any other value alone; `Mount.MountIncludesRequestedSteps` states that each such element is mounted |
| Mount.PrefixStep | index.js:75 | no contract of its own; `Mount.MountSections` and `Mount.MountOrder` state that it is the first argument, present exactly when the key is not `index` |
| Mount.CorsStep | index.js:76 | no contract of its own; `Mount.MountSections` and `Mount.MountIncludesRequestedSteps` state that it is one CORS middleware exactly when `cors` is truthy |
| Mount.UploadStep | index.js:77 | no contract of its own; `Mount.MountFailsOnlyOnBadMulter` states its error case and `Mount.MountSections` its arguments |
| Mount.AuthnStep | index.js:78-83 | no contract of its own; `Mount.MountSections` and `Mount.MountIncludesRequestedSteps` state when it is the built-in 401 gate or the controller's function |
| Mount.AuthzStep | index.js:84-89 | no contract of its own; `Mount.MountSections` and `Mount.MountIncludesRequestedSteps` state when it is the built-in 403 gate or the controller's function |
| Mount.MountArgs | index.js:73-91 | no contract of its own; `Mount.MountOrder`, `Mount.MountSections` and `Mount.MountFailsOnlyOnBadMulter` state its order, contents and failure |
| Mount.UploadArgs | index.js:77 | an array returned by `controller.multer` is spread into one upload argument per element, in order |
| Mount.MountFailsOnlyOnBadMulter | index.js:77 | computing a controller's mount arguments fails exactly when its `multer` field is truthy but not a function, with a TypeError |
| Mount.MountOrder | index.js:73-91 | the arguments follow the fixed order prefix, cors, upload, authentication, authorization, controller; the prefix is first exactly when the key is not `index`; the controller is last and nothing else is at its stage |
| Mount.MountSections | index.js:74-91 | the prefix contributes one argument unless the key is `index`; cors, authentication and authorization each contribute one argument when truthy and none when falsy; the upload stage holds the spread result of the controller's `multer` function when that result is truthy and nothing otherwise; the controller appears exactly once |
| Mount.ChainSection | index.js:74-91 | in a chain made of one part per stage, each stage's arguments are exactly that part |
| Mount.MountIncludesRequestedSteps | index.js:76-89 | a truthy `cors` mounts CORS with its options; every value the `multer` call returns is mounted; a function `authenticate`/`authorize` is mounted as it is; a truthy non-function one mounts the built-in gate, and the 403 gate carries the controller's own `authorize` value |
| Mount.BareControllerMount | index.js:74-91 | a controller with no optional fields is mounted as its prefix (if any) followed by itself |
| Mount.UploadWithoutFactory | index.js:71-77 | the controller's upload middleware is mounted even when no global factory is configured |
| Mount.MountControllers | index.js:72-93 | the i-th mount call uses the i-th collected controller's arguments; it stops at the first controller whose mount arguments cannot be computed, reporting that error after mounting all earlier ones |
| Mount.AttachUser | index.js:60-65 | the global authentication middleware attaches the resolved user exactly when it is truthy, and keeps the session |
| Mount.AuthenticationGate | index.js:78-83 | the built-in gate calls `next` exactly when the request has a truthy user, and otherwise answers 401 |
| Mount.GateAfterAuthentication | index.js:78-83 | behind global authentication, a request passes the gate exactly when the resolver returned a user, and otherwise gets 401 |
| Mount.AuthorizationGate | index.js:84-89 | the built-in gate answers 403 exactly when the global predicate refuses the request for the controller's policy, and calls `next` exactly when it accepts; without a predicate it raises a TypeError |
| Mount.AuthorizationGateOutcome | index.js:85-88 | the async gate rejects exactly when its body raises, with the same error, and otherwise completes |
| Mount.ProtectedControllerDenies | index.js:84-89 | a controller with a truthy non-function `authorize` value is mounted with the built-in gate for exactly that value, and the gate passes a request when the global predicate accepts it and answers 403 when it refuses |
| AutoWrap.Wrappable | index.js:106 | no contract of its own; `AutoWrap.WrapArgs` states that exactly the wrappable arguments are wrapped, and `AutoWrap.NotWrapped` which values are not |
| AutoWrap.WrapArgs | index.js:105-108 | the mapping keeps the argument count and order, replaces exactly the wrappable arguments, and every result stands for its original argument |
| AutoWrap.WrapArgsAppend | index.js:105-108 | the mapping is element-wise: mapping `a + b` is mapping `a` followed by mapping `b` |
| AutoWrap.NotWrapped | index.js:106 | non-functions, functions with four or more parameters, and values with both `handle` and `set` are registered unchanged |
| AutoWrap.WrapperEffect | index.js:107 | the wrapper calls `next(err)` exactly when the handler throws or rejects, with that same error; otherwise it does not call `next` |
| AutoWrap.WrapperOutcome | index.js:107 | the wrapper's own call never throws or rejects, and it settles exactly when the handler's call settles |
| AutoWrap.FailuresForwardedAlike | index.js:107 | a synchronous throw and a rejection with the same error are forwarded identically; success calls no `next` |
| AutoWrap.WrapperValue | index.js:107 | the wrapper is a three-parameter function without `handle` and `set`, so the patch's own rule would wrap it |
| AutoWrap.DoubleWrapAddsNothing | index.js:106-107 | passing a wrapper to a patched method wraps it again, and the outer wrapper never calls `next` |
| AutoWrap.AuthorizationGateErrorsForwarded | index.js:84-107 | the three-parameter authorization gate is wrapped; without a global predicate its TypeError reaches `next`, and with one the wrapper adds no `next` call |

## Left out

- The directory walk (`klaw-sync`, index.js:7-11) and `require`: the walk's result is an input sequence of paths, and loading is a function parameter. Paths use `/` separators. Every walked path is the root, `/`, and a non-empty relative part, so `path.relative` is suffix extraction. Node's normalisation of `.`, `..`, repeated and trailing separators, and Windows separators are not modelled.
- Sort order: `Array.prototype.sort` compares UTF-16 code units, and the model compares Dafny characters (code points). The two orders differ only between characters above U+FFFF and characters in U+E000–U+FFFF.
- Enumeration order of integer-like keys: JavaScript enumerates keys such as `"1"` before all other keys, in numeric order. The model keeps every key in insertion order.
- Case folding follows a regular expression with the `i` flag and no `u` flag. Only ASCII letters fold into the letters of `.js` and `/index`: the ECMAScript canonicalisation refuses to map a non-ASCII character onto an ASCII one. The model's `Lower` folds ASCII only.
- Options defaulting and framework configuration (index.js:20-59): view engine, proxy trust, Sequelize initialisation and model association, global CORS, static files, morgan, cookie sessions and body parsing. These are direct calls into Express, Sequelize and middleware packages, with no behaviour beyond "call X if option Y". The `init(app)` hook (index.js:68) is left out for the same reason.
- The `opt.controllers` guard (index.js:70): without a controllers directory nothing is mounted. The model starts from the collected entries.
- Third-party middleware (cors, multer, morgan, cookie-session) and the controllers' own functions: they appear as opaque tokens or as call results given as parameters. An exception thrown by the controller's `multer` function or by the `opt.authorize` predicate is not modelled; a missing `opt.authorize` is.
- The global authentication middleware's asynchronous resolver (index.js:60-65): only its effect on `req.user` is modelled (`AttachUser`). `res.locals.user` is not modelled.
- The router monkey-patch itself (index.js:100-102): the loop over the `methods` list and the mutation of the shared router object are not modelled. Only the per-call argument mapping is. Which middleware Express passes through the patched `use` is not modelled either.
- Event-loop semantics: interleaving between requests, and the difference between "completes" and "resolves later", are not modelled. A handler's call is summarised by `Js.Outcome`.
- Mount.MountControllers: Express's own validation of `app.use` arguments is not modelled. A truthy non-function, non-array value returned by a controller's `multer` function, for example, makes `app.use` throw; the model mounts it as an upload argument.
- AutoWrap.WrapperEffect: the model forwards every thrown or rejected error as `NextWith(e)`. It does not model that Express treats `next(undefined)`, and other falsy errors, as "continue" rather than as an error.
- Js.Value: functions carry only their `length` and the truthiness of `handle` and `set`. Getters, proxies and throwing property reads are not modelled.
