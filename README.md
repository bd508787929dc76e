# unplugin-rsc directive transforms, modelled in Dafny

unplugin-rsc rewrites JavaScript modules for React Server Components. A module
that starts with the `"use server"` or `"use client"` directive is turned into
the shape each bundle needs, and an inline function whose body starts with
`"use server"` becomes an exported, registered server action. This project
models the rules of the four files that do this:

- `src/server-transform.ts` is the server-bundle Babel pass (class
  `Server.ServerTransform`). It reads the module directives and records the
  exports. It hoists inline server actions to the top of the module, with
  closure conversion of the variables they capture. At the end it appends one
  registration call per exported top-level function of a `"use server"`
  module, or replaces a `"use client"` module's body by client references.
  Every import and helper goes through the `once` memo cache.
- `src/client-transform.ts` is the client-bundle Babel pass (class
  `Client.ClientTransform`). It replaces a `"use server"` module by one server
  reference per exported local.
- `src/parse.ts` is the export scanner (module `Parse`, properties in
  `ParseProps`). It works over the parser's AST shapes from `src/ast.ts`
  (module `Ast`).
- `src/transform.ts` holds the string emitters `replaceExports` and
  `wrapExports` (module `Emit`), using `JSON.stringify` on strings (module `Json`).

The Babel traversal is not modelled. Each transform object is driven by calls
of its visitor methods in traversal order. The AST parts the passes change are
fields of the object: the program's directives, its statements and the
rewrites of hoisted functions' nodes.

Shared parts:

- `Common`: `Option`/`Result`, an insertion-ordered `Set` (`Dedup`) and a
  JavaScript `Map` (`OrderedMap`).
- `Scopes`: the scope tree and free-variable analysis.
- `Hoist`: finding the top-level binding, building the extracted action and its
  call site, `findLast`, and insertion after the last import.
- `Tracking`: directives, export tracking and the emission lists both passes use.
- `OnceCache`: what the `once`-guarded callbacks leave in the module body.
- `Lazy`: the lazy `value` carrier the generated `wrapBoundArgs` helper defines.

## Model

| member | source | states |
|---|---|---|
| Server.ServerTransform.Once | src/server-transform.ts:57-65 | a cached key returns its cached value and changes nothing; a missing key runs its callback exactly once, caches the value, and never overwrites an earlier entry |
| Server.ServerTransform.Perform | src/server-transform.ts:94-133 | each callback's effect: the id option's answer, a fresh uid imported in front of the body, the fresh `wrapBoundArgs` helper in front, or an emitted statement at the end after its callee's import |
| Server.ServerTransform.PushImport | src/server-transform.ts:209-212 | `addNamedImport`: the next uid for the name, imported in front of the body, with the cache invariant kept |
| Server.ServerTransform.PushHelper | src/server-transform.ts:94-103 | `defineBoundArgsWrapperHelper`'s callback: the next `wrapBoundArgs` uid, defined in front of the body |
| Server.ServerTransform.FreshUid | src/server-transform.ts:520-533 | `generateUidIdentifier`: the next name for the base, with the per-base counter bumped |
| Server.ServerTransform.OnceImport | src/server-transform.ts:209-212 | `once` on an import key adds at most that import in front of the body and returns its cached local |
| Server.ServerTransform.OnceId | src/server-transform.ts:105-106 | `id(directive)` is the option's answer, cached under its key, with nothing else changed |
| Server.ServerTransform.OnceHelper | src/server-transform.ts:94-103 | the helper is defined at most once per module; the cache gains only its key |
| Server.ServerTransform.AddCryptImport | src/server-transform.ts:108-133 | no encryption gives `null` and no change; otherwise the decrypt and encrypt imports are cached, imported in that order, and their locals returned |
| Server.ServerTransform.VisitProgram | src/server-transform.ts:136-165 | the flags are set from the directives; both directives give the error with the directives untouched; otherwise exactly the detected directives are removed |
| Tracking.ProgramVisit | src/server-transform.ts:150-164 | both directives is an error; otherwise the remaining directives are exactly the others |
| Tracking.ScanDirectives | src/server-transform.ts:139-149 | the flags are true exactly when the directive occurs |
| Tracking.StripKeepsOrder | src/server-transform.ts:155-164 | the kept directives stay in their order |
| Server.ServerTransform.VisitExportDefault | src/server-transform.ts:166-173 | `default -> default` is recorded only in a "use client" module |
| Tracking.TrackDefaultExportSpec | src/server-transform.ts:166-173 | in a "use client" module `default` maps to `default` and goes last unless already present |
| Server.ServerTransform.VisitExportNamed | src/server-transform.ts:174-198 | the specifiers are written first, then the identifier declarators or the named function |
| Tracking.TrackNamedExport | src/server-transform.ts:174-198 | the loops write exactly the specifier writes followed by the declaration writes |
| Tracking.TrackNamedExportSpec | src/server-transform.ts:174-198 | after the visit, each key's value is its last write, and new keys go last in first-write order |
| Tracking.SpecifierWritesSpec | src/server-transform.ts:175-183 | an export specifier writes `exported -> local`, whether the exported name is an identifier or a string |
| Tracking.DeclaratorWritesSpec | src/server-transform.ts:184-189 | only identifier declarators write, as `name -> name`, in order |
| Common.OrderedMap.PutSpec | src/server-transform.ts:182 | `map.set`: the new value is stored, other keys keep value and position, and a new key goes last |
| Common.PutAllSpec | src/server-transform.ts:174-198 | after a series of `set` calls, a key's value is its last write and the key order is the first-write order |
| Server.ServerTransform.VisitFunction | src/server-transform.ts:199-316 | nothing happens in a "use client" module; a top-level binding is recorded as a top-level function; a function without one and with a "use server" body directive is hoisted, with the missing-id error for a declaration; a hoist, failed or not, leaves `id("use server")` memoised |
| Server.ServerTransform.HoistFunction | src/server-transform.ts:233-286 | the error happens exactly for a declaration without an id, after the extraction; otherwise the action is inserted after the last import and the node is rewritten; either way `id("use server")` is memoised |
| Server.ServerTransform.ExtractFunction | src/server-transform.ts:233-252 | the captured variables are `getNonLocalVariables`'s result; the body holds the new imports in front and the action after the last import; `id("use server")` is memoised |
| Server.ServerTransform.ReplaceHoisted | src/server-transform.ts:254-285 | the node becomes the replacement, or for a declaration a `var name = replacement`; the helper goes in front when something is captured |
| Server.ServerTransform.ExtractInlineAction | src/server-transform.ts:503-607 | a fresh `$$INLINE_ACTION` name, the crypto imports and a fresh closure parameter when something is captured, the server import, and the registered action inserted right after the last import |
| Server.ServerTransform.ExtractionImports | src/server-transform.ts:527-572 | the `once` imports of an extraction are the crypto pair when something is captured, then `registerServerReference`; their imports go in front of the body in that order |
| Server.ServerTransform.CaptureImports | src/server-transform.ts:527-533 | `addCryptImport` then a fresh `$$CLOSURE` uid |
| Server.ServerTransform.OnceCryptImports | src/server-transform.ts:113-132 | the two crypto imports are cached in order and at most two imports are added |
| Server.ServerTransform.InsertAfterLastImportInBody | src/server-transform.ts:589-600 | the action goes right after the last import; the missing-import error cannot occur, because the server import was just cached |
| Server.ServerTransform.GetInlineActionReplacement | src/server-transform.ts:609-650 | nothing captured gives the bare action name with no state change; otherwise the crypto imports and the helper come through `once` and the call site is `name.bind(null, wrap(() => captured))` |
| Server.ServerTransform.ExtractedStateFrom | src/server-transform.ts:589-600 | the extraction's body is the hoisted body: new imports in front, action after the last import |
| Server.ServerTransform.ReplacedStateFrom | src/server-transform.ts:609-650 | the replacement completes the extracted state, with only the helper added in front |
| Server.ServerTransform.HoistedBodyStable | src/server-transform.ts:609-650 | later `once` calls do not change the extracted body |
| Server.ServerTransform.Finish | src/server-transform.ts:319-393 | both directives give the error with nothing changed; a "use server" module gets its registrations; a "use client" module loses the directive and its body becomes the client references; any other module is unchanged |
| Server.ServerTransform.EmitServerRegistrations | src/server-transform.ts:325-352 | the registrations fail exactly as `ServerRegistrations` says, and otherwise leave the import and one registration call per registered local |
| Server.ServerTransform.EmitRegistrationsFor | src/server-transform.ts:326-351 | the loop's result and body match `ServerRegistrations` over the map entries |
| Server.ServerTransform.RegisterIfFunction | src/server-transform.ts:327-351 | one turn of the loop: a non-function is skipped, a function exported as `default` fails, otherwise a local not seen before is registered |
| Server.ServerTransform.RegisterExport | src/server-transform.ts:336-350 | a new local appends `registerServerReference(local, id, public)` after the earlier calls, with the import added once |
| Server.ServerTransform.OnceRegistration | src/server-transform.ts:336-350 | the `export:` key is cached and the call is appended after the server import |
| Tracking.ServerRegistrationsSpec | src/server-transform.ts:325-352 | the emission fails exactly when a top-level function is exported as `default`; otherwise it registers the first entry per local among the top-level functions |
| Tracking.ServerRegistrationsErr | src/server-transform.ts:331-333 | once the emission has failed, later entries do not change the outcome |
| Server.ServerTransform.EmitClientReferences | src/server-transform.ts:353-393 | the body becomes the client import plus one reference export per first entry of each local |
| Server.ServerTransform.EmitReferencesFor | src/server-transform.ts:358-392 | the loop's body is the references for `FirstPerLocal` of the entries |
| Server.ServerTransform.ReferenceIfNew | src/server-transform.ts:359-391 | a local seen before is skipped; a new one gets its reference |
| Server.ServerTransform.ReferenceExportOnce | src/server-transform.ts:359-391 | a new local appends its reference after the earlier ones, with the client import added once |
| Server.ServerTransform.OnceReference | src/server-transform.ts:359-391 | the `export:` key is cached and `export default` or `export const` is appended after the client import |
| OnceCache.ReferenceFor | src/server-transform.ts:365-388 | `default` gives `export default callee({}, id, "default")`; any other name gives a named `export const` |
| OnceCache.References | src/server-transform.ts:358-392 | one reference per pair, in order |
| OnceCache.Registrations | src/server-transform.ts:326-351 | one registration call per pair, in order, passing the local, the id and the public name |
| OnceCache.ServerReferences | src/client-transform.ts:74-102 | one `export const P = callee({}, id, P)` per pair, in order |
| OnceCache.AddedImportsAreImports | src/server-transform.ts:209-212 | the added statements are all imports, at most one per key, and none when every key was cached |
| OnceCache.AddedImportsChain | src/server-transform.ts:527-572 | the imports of two rounds of `once` calls: the later round goes in front |
| OnceCache.RegistrationStep | src/server-transform.ts:336-350 | one more registration keeps a single server import and appends the call after the earlier ones |
| OnceCache.ReferenceStep | src/server-transform.ts:359-391 | one more client reference keeps a single client import and appends after the earlier ones |
| OnceCache.ServerReferenceStep | src/client-transform.ts:75-101 | one more server reference keeps a single import and appends after the earlier ones |
| Tracking.FirstPerLocalSpec | src/server-transform.ts:359 | the first entry per local: its locals are the entries' locals, without repeats |
| Tracking.FirstPerLocalFirst | src/server-transform.ts:359 | each kept entry is the first one with its local, in entry order |
| Tracking.FirstPerLocalDistinct | src/server-transform.ts:359 | no local appears twice in the emitted list |
| Tracking.DefaultAliasOfEmittedLocal | src/client-transform.ts:74-101 | an example, not a general property (the general rules are `ServerRegistrationsSpec` and `ClientServerReferencesSpec`): `export { a, a as default }` in a "use server" module where `a` is a top-level function: the server pass rejects it and the client pass emits `a` alone |
| Scopes.IsChildScope | src/server-transform.ts:438-455 | true exactly when `parent` strictly encloses `child`; false for the program scope |
| Scopes.ChildScopeIrreflexive | src/server-transform.ts:438-455 | no scope is its own child, and the program scope is nobody's child |
| Scopes.AncestorsTransitive | src/server-transform.ts:438-455 | enclosure is transitive |
| Scopes.AncestorsReachProgram | src/server-transform.ts:438-455 | the walk up from any scope reaches the program scope |
| Scopes.GetNonLocalVariables | src/server-transform.ts:396-436 | the result is the captured names of the occurrences, each kept once, in order of first capture |
| Scopes.CapturedSpec | src/server-transform.ts:396-436 | the result has no repeats, holds exactly the captured names, and keeps their first-reference order |
| Scopes.CapturedNamesMembers | src/server-transform.ts:403-432 | a name is captured exactly when a referenced occurrence binds it outside the program scope, the function's scope and the scopes inside it |
| Scopes.LocalNotCaptured | src/server-transform.ts:413-430 | a module-level binding, or one made in the function or inside it, is never captured |
| Scopes.EnclosingCaptured | src/server-transform.ts:396-436 | a referenced name bound in a scope strictly around the function (but not the program) is captured |
| Common.Dedup | src/server-transform.ts:397 | the insertion-ordered `Set` has no repeats and holds exactly the inserted values |
| Common.DedupNoDup | src/server-transform.ts:397 | values inserted without repeats come out unchanged, in insertion order |
| Common.DedupOrder | src/server-transform.ts:397 | the `Set` keeps first-insertion order |
| Hoist.FindLastIndex | src/server-transform.ts:652-663 | the scan from the end returns the greatest satisfying index, or `undefined` |
| Hoist.FindLast | src/server-transform.ts:665-671 | `undefined` exactly when no element satisfies the predicate; otherwise the element at the last such index |
| Hoist.LastIndexSpec | src/server-transform.ts:652-663 | the last index satisfies the predicate and no later element does |
| Hoist.LastIndexUnique | src/server-transform.ts:652-663 | a satisfying index with no satisfying later one is the last index |
| Hoist.FindImmediatelyEnclosingDeclaration | src/server-transform.ts:457-481 | the walk up stops at the first declarator or declaration, and gives `null` at an expression above the function or at the program |
| Hoist.EnclosingFromSpec | src/server-transform.ts:457-481 | the walk's answer is the first declaration-like node reached without passing an expression or the program |
| Hoist.GetTopLevelBinding | src/server-transform.ts:483-501 | the result is the enclosing declaration's name when that binding is in the program scope, else `null` |
| Hoist.TopLevelBindingSpec | src/server-transform.ts:483-501 | a top-level binding exists exactly when the walk reaches a named declaration bound in the program scope |
| Hoist.ExpressionPathNoTopLevelBinding | src/server-transform.ts:468-472 | a function nested in an expression, such as a call argument, has no top-level binding |
| Server.ExpressionFunctionHoists | src/server-transform.ts:199-233 | such a function, outside a "use client" module, is hoisted exactly when its body has a "use server" directive |
| Hoist.UidName | src/server-transform.ts:520-522 | every uid of a base is `_` followed by the base and then the count suffix |
| Hoist.UidNameInjective | src/server-transform.ts:520-522 | different counts give different names |
| Hoist.NextUidFresh | src/server-transform.ts:520-533 | a fresh uid differs from every earlier uid of its base |
| Hoist.FirstActionNames | src/server-transform.ts:520-522 | the first two actions are `_$$INLINE_ACTION` and `_$$INLINE_ACTION2` |
| Hoist.ExtractedParams | src/server-transform.ts:524-560 | nothing captured keeps the params and adds no prefix; otherwise the closure param comes before the original params and a destructuring prefix is added; the body directives are kept |
| Hoist.CallSiteMatchesExtracted | src/server-transform.ts:524-649 | the call site passes exactly the names the extracted body destructures, in the same order |
| Hoist.ClosureConversion | src/server-transform.ts:524-649 | unencrypted, the destructuring binds each captured name to the value it had at the call site |
| Hoist.DestructureLookup | src/server-transform.ts:534-556 | `var [n0, n1, ...] = values` binds each name to its value |
| Hoist.InsertAfterLastImportSpec | src/server-transform.ts:589-600 | no import is the error; otherwise the action is right after the last import and every other statement keeps its relative order |
| Hoist.InsertKeepsLastImport | src/server-transform.ts:589-600 | inserting a non-import leaves the last import where it was |
| Hoist.TwoActionsReverse | src/server-transform.ts:589-600 | two actions hoisted in order A then B end up as B before A |
| Client.ClientTransform.Once | src/client-transform.ts:22-30 | a cached key returns its value and changes nothing; a missing key runs its callback, whose value is cached unless it throws |
| Client.ClientTransform.Perform | src/client-transform.ts:32-101 | each callback's effect: the id (lines 32-33), a fresh import in front (lines 76-79), or the server reference emission (lines 75-101) |
| Client.ClientTransform.OnceId | src/client-transform.ts:32-33 | `id("use server")` is the option's answer, memoised under its key |
| Client.ClientTransform.OnceImport | src/client-transform.ts:76-79 | the `importServer` import is added at most once and its local returned |
| Client.ClientTransform.ServerReferenceCallback | src/client-transform.ts:75-101 | the import comes first; `default` then throws; otherwise `export const P = callee({}, id, P)` is appended |
| Client.ClientTransform.Pre | src/client-transform.ts:50-59 | the module is skipped exactly when its text contains neither "use client" nor "use server" |
| Client.ClientTransform.VisitProgram | src/client-transform.ts:106-133 | the flags are set from the directives; both directives give the error; otherwise the detected directives are removed |
| Client.ClientTransform.VisitExportDefault | src/client-transform.ts:134-141 | `default -> default` is recorded only in a "use client" module |
| Client.ClientTransform.VisitExportNamed | src/client-transform.ts:142-166 | the specifiers are written first, then the identifier declarators or the named function |
| Client.ClientTransform.Post | src/client-transform.ts:60-104 | a skipped module is unchanged; both directives give the error; a "use server" module loses its directive and its body becomes the server references, failing exactly as `ClientServerReferences` says; otherwise nothing changes |
| Client.ClientTransform.EmitServerReferencesFor | src/client-transform.ts:74-102 | the loop's result and body match `ClientServerReferences` over the map entries |
| Client.ClientTransform.ServerReferenceIfNew | src/client-transform.ts:75 | a local seen before is skipped; a new one runs the callback |
| Client.ClientTransform.ServerReferenceOnce | src/client-transform.ts:75-101 | a new local fails exactly for `default`; otherwise its reference is appended after the earlier ones |
| Client.ClientTransform.OnceServerReference | src/client-transform.ts:75-101 | the `export:` key is cached unless the callback throws |
| Client.ClientTransform.EmittedModule | src/client-transform.ts:69-103 | after success the body is one `importServer` import plus one server reference per first entry of each local, in map order, none of them `default` |
| Client.ClientTransform.EmittedBody | src/client-transform.ts:73-101 | from an empty cache, the body is the single import followed by the references |
| Tracking.ClientServerReferencesSpec | src/client-transform.ts:74-102 | the client emission fails exactly when the first entry of some local is public `default`; otherwise it emits the first entry per local |
| Tracking.ClientServerReferencesErr | src/client-transform.ts:81-85 | once the emission has failed, later entries do not change the outcome |
| Lazy.LazyCarrier.Value | src/server-transform.ts:30-40 | a truthy cached value is returned without running the thunk; otherwise the thunk runs once more and its result is cached |
| Lazy.LazyCarrier.ValueTwice | src/server-transform.ts:30-40 | two reads after a truthy first value agree, with the thunk run at most once; a falsy first value makes the thunk run again |
| Parse.Parse | src/parse.ts:13-142 | the method computes `ParseProgram`; a source without the quoted-directive pattern is `{directive: false}` |
| Parse.HasDirective | src/parse.ts:28-37 | the set gains exactly the recognised directives |
| Parse.Recognised | src/parse.ts:28-37 | a directive is recognised exactly when some directive spells "use client" or "use server"; all others are ignored |
| Parse.Annotated | src/parse.ts:57-78 | no directive in scope means no effect; a directive plus a name records `name -> name` and adds the directives; a directive without a name is the missing-local error |
| Parse.Decide | src/parse.ts:128-141 | no directive gives `{directive: false}`; more than one is the error; exactly one gives that directive with the map |
| Parse.Then | src/parse.ts:53-126 | a failing rest ends the walk; otherwise directives and writes accumulate in order |
| Parse.ScanProgramBody | src/parse.ts:53-126 | the loop fails with the first failing node's error, and otherwise collects exactly the directives and writes `ScanBody` gives |
| Parse.ScanNode | src/parse.ts:54-125 | one statement's scan applies its effect to the directive set and the map |
| Parse.ScanExportNamed | src/parse.ts:54-116 | an `export` statement: the declaration's effect, then the specifiers' |
| Parse.ScanDeclaration | src/parse.ts:55-105 | a declaration with an `id` (a function, a class, a TypeScript type, interface or enum) is handled as a whole, with a function body's directives in scope; otherwise each declarator in turn |
| Parse.ScanDeclarators | src/parse.ts:79-103 | the `forEach` over declarators applies `DeclaratorsEffect` |
| Parse.RecordAnnotated | src/parse.ts:57-78 | one declaration's step applies `Annotated` |
| Parse.ScanSpecifiers | src/parse.ts:106-116 | every specifier writes `exported -> local`; the first without a local name is the error |
| ParseProps.BothAtProgramScope | src/parse.ts:39-44 | two recognised directives at program scope is the error |
| ParseProps.ExportedFunctionRecorded | src/parse.ts:55-78 | an exported named function with a directive in scope makes the result directed, by one of those directives, with its name among the exports; its value is the walk's last write of the name, which is the name itself when neither a later statement nor the statement's own specifiers export that name |
| ParseProps.ExportedDeclaratorRecorded | src/parse.ts:79-103 | an exported declarator with a directive in scope makes the result directed, by one of those directives, with its name among the exports; its value is the walk's last write of the name, which is the name itself when neither a later statement nor the statement's own specifiers export that name |
| ParseProps.ExportedOtherRecorded | src/parse.ts:55-78 | `export class C {}` (or a TypeScript type) under a program directive makes the result directed, by a program directive, with `C` among the exports; its value is the walk's last write of it, which is `C` when neither a later statement nor the statement's own specifiers export `C` |
| ParseProps.ExportedOtherNode | src/parse.ts:56-78 | such a statement adds exactly the program's directives and writes `C -> C`, its last write of `C` unless a specifier exports `C` |
| ParseProps.UnannotatedOtherIgnored | src/parse.ts:57-64 | without a program directive, an exported class or type declaration is not recorded |
| ParseProps.UnannotatedFunctionIgnored | src/parse.ts:64-70 | without any directive in scope, an exported function is not recorded |
| ParseProps.UnannotatedDeclaratorIgnored | src/parse.ts:88-96 | without any directive in scope, an exported declarator is not recorded |
| ParseProps.SpecifierRecorded | src/parse.ts:106-116 | in a directed result, every export specifier's exported name is among the exports, whatever the directives in scope; its value is the walk's last write of it, which is the specifier's local name when no later specifier or statement exports the same name |
| ParseProps.SpecifierWritesSpec | src/parse.ts:106-116 | the specifier walk succeeds exactly when every specifier has a local name, and then writes `exported -> local` in order; otherwise it fails at the first one without |
| ParseProps.DefaultIdentifierRecorded | src/parse.ts:117-125 | in a directed result, the exported name of `export default ident` is among the exports; its value is the walk's last write of it, which is `ident` when no later statement exports the same name |
| ParseProps.DefaultDeclarationRejected | src/parse.ts:117-125 | `export default function f() {}` has no `name`, so it is the missing-local error |
| ParseProps.FirstErrorWins | src/parse.ts:53-126 | the result is the error of the first failing statement |
| ParseProps.ParsedNode | src/parse.ts:53-126 | a successful parse has each statement's directives and writes |
| ParseProps.ScanBodyNode | src/parse.ts:53-126 | a successful walk succeeded on every node and holds what each added |
| ParseProps.ScanBodyDirsFromNodes | src/parse.ts:53-126 | every collected directive comes from some statement |
| ParseProps.ScanBodyUnwritten | src/parse.ts:53-126 | a name no statement writes is never written by the walk |
| ParseProps.ScanBodyLastWrite | src/parse.ts:53-126 | the walk's last write of a name is that of the last statement that writes it |
| ParseProps.DirectedExports | src/parse.ts:51-126 | the exports of a directed result are exactly the names the walk writes, in first-write order, each with its last written value |
| ParseProps.RecordedValue | src/parse.ts:53-126 | a name a statement writes and no later statement writes is exported with that statement's last value for it |
| ParseProps.NamedNodeWrites | src/parse.ts:54-116 | an `export` statement writes its declaration's pairs and then its specifiers' pairs |
| ParseProps.SpecifierNodeLastWrite | src/parse.ts:106-116 | within one statement, the last specifier exporting a name gives the name its local name |
| ParseProps.SpecifiersUnwritten | src/parse.ts:106-116 | a name no specifier exports is not written by the specifier list |
| ParseProps.DeclaratorsWriteSelf | src/parse.ts:80-103 | every write of the declarator walk maps a name to itself |
| ParseProps.DeclarationsNodeLastWrite | src/parse.ts:79-116 | in `export const ...` whose specifiers do not export a declarator's name, the statement's last write of that name is the name |
| Common.LastWriteMember | src/parse.ts:51-126 | a key has a last write exactly when some `set` wrote it, and that value was written together with it |
| Common.LastWriteAppend | src/parse.ts:53-126 | a later `set` of a key overrides every earlier one |
| Common.LastWriteAt | src/parse.ts:53-126 | the value of the last pair that writes a key is the key's value |
| Common.LastWriteBeforeUnwritten | src/parse.ts:106-116 | writes that never touch a key leave its last value as it was |
| Common.LastWriteSelf | src/parse.ts:69-72 | when every write maps a name to itself, each written name's value is itself |
| Emit.ReplaceExports | src/transform.ts:8-27 | the loop builds `ReplaceModule`: the header, then one block per public name, in map order |
| Emit.ReplaceModuleLines | src/transform.ts:13-24 | the lines are the import line, six lines per public name in map order, then an empty last line; the count is `2 + 6 * size` |
| Emit.ReplaceBlocksCount | src/transform.ts:17-24 | six lines per public name |
| Emit.WrapExports | src/transform.ts:29-48 | the loop builds `WrapModule`: the header, the code, a line feed, one line per entry |
| Emit.WrapModuleLines | src/transform.ts:35-46 | the lines are the import line, the original code's lines unchanged, one registration line per entry, then an empty last line |
| Emit.RegistrationLinesSpec | src/transform.ts:42-46 | one line per entry, in map order, wrapping the local and labelled with the public name under the same quoted id |
| Emit.LinesAppend | src/transform.ts:35-40 | joining two texts with a line feed concatenates their lines |
| Emit.LinesUnlines | src/transform.ts:13-24 | terminated lines without line feeds split back into themselves |
| Emit.FoldLinesUnlines | src/transform.ts:17-24 | a `code +=` loop appends the lines of every element in order |
| Emit.FoldLinesSnoc | src/transform.ts:17-24 | one more turn of a `code +=` loop appends that element's lines |
| Json.UnquoteQuote | src/transform.ts:13-22 | `JSON.parse(JSON.stringify(s)) === s` for every string |
| Json.QuoteInjective | src/transform.ts:13-22 | different names quote differently |
| Json.QuoteNoNewline | src/transform.ts:13-22 | a quoted string holds no line feed |
| Json.UnescapeEscapeAll | src/transform.ts:13-22 | the escapes read back as the original string |

## Left out

- The Babel machinery is not modelled: `traverse`, `NodePath`, `template` and code generation. The transforms are objects whose visitor methods the caller invokes in traversal order. Statements are the kinds the rules tell apart, and a hoisted function's node rewrite is recorded by node number.
- `@oxidation-compiler/napi`, `JSON.parse` of its output and Babel's `transform` call are foreign. The scanner takes the parsed `Program`. The client pass takes the module text (for `pre`) and the program's directives and statements.
- `addNamedImport` is modelled as a fresh uid plus one import statement in front of the body. Its merging into an existing import declaration is left out.
- `generateUidIdentifier` is a counter per base name (`_base`, `_base2`, ...). Its avoidance of names the program already uses is left out.
- Hoist.UidName: Babel first normalises the base (turns it into an identifier, strips leading underscores and trailing digits), so `"_register"` gives `_register` and `"server2"` gives `_server`. The model uses the base as given. That agrees for the fixed bases (`$$INLINE_ACTION`, `$$CLOSURE`, `wrapBoundArgs`) but not for every configured import name.
- `JSON.stringify` is modelled for strings only. The `/["']use (server|client)["']/` regex is modelled as a scan for a quote, `use server` or `use client`, and a quote.
- The plugin wrappers (`src/index.ts`), the vite configuration, source maps and the runtime behaviour of the registration, reference and encryption functions are left out.
- Server.ServerTransform.HoistFunction: on the missing-id error, the contract states only that no rewrite was recorded. The extraction's imports and action stay in the body, as in the source, but are not stated.
- Server.ServerTransform.ExtractInlineAction: that the closure parameter is a `$$CLOSURE` uid is stated by `ExtractionImports`, but it is not carried into `ReplacedState`.
- Client.ClientTransform.Post: after the `default` error, the state (the import already added) is not stated. The error aborts the whole transform.
- Client.ClientTransform.Pre: the visitors do not check the skip flag. In the source, Babel's `path.skip()` keeps them from running, and the caller of the model does the same.
- Strings are sequences of Unicode scalar values, so the lone-surrogate escapes of `JSON.stringify` (section 25.5.2.3 of ECMA-262) are not modelled.
- Lazy.LazyCarrier: the thunk is a parameter giving the result of its `n`-th call. What the thunk computes (the captured values, possibly encrypted) is not modelled.

## Behaviour of the code worth knowing

- Registration calls are emitted only when the module itself starts with "use server". An inline action in a module without the directive is hoisted and registered where it is extracted, but its exports are not registered (`Server.ServerTransform.Finish`).
- `hasUseServer` is only set together with `moduleUseServer`, so the both-directives check after the traversal can only repeat the `Program` visitor's check. Both checks are modelled as written.
- `export { a, a as default }` in a "use server" module, when `a` is a top-level function, is rejected by the server pass and accepted by the client pass, which emits `a` alone (`Tracking.DefaultAliasOfEmittedLocal`). The server pass tests `default` before its `once`; the client pass tests it inside the `once` for the local.
- The scanner in `src/parse.ts` rejects `export default function f() {}` (`ParseProps.DefaultDeclarationRejected`). It has no alias or CommonJS resolution.
