/**
 * `serverTransform(ast, filename, options)` of `src/server-transform.ts`: the
 * Babel visit that hoists inline "use server" functions to exported
 * registered actions and records exports and top-level functions, followed by
 * the emission for a "use server" module (a registration call per exported
 * top-level function) or a "use client" module (the body replaced by client
 * references). The traversal itself is a sequence of visitor calls on a
 * `ServerTransform` object; its fields are the closure variables of the
 * JavaScript function and the parts of the AST the visit changes.
 */
module Server {
  import opened Common
  import opened Scopes
  import opened Hoist
  import opened Tracking
  import opened OnceCache

  const NoIdMessage: string := "Expected a function with an id"

  /** `options.encryption`. */
  datatype Encryption = Encryption(importSource: string, decryptFn: string, encryptFn: string)

  datatype FunctionKind = ArrowKind | DeclarationKind | ExpressionKind

  /**
   * A function the traversal visits: its kind, a number that identifies the
   * node, the name of its `id` (for a declaration), the path from it up to the
   * program, the directives of its body (`None` for an arrow function with an
   * expression body), its parameter names, its own scope and the identifier
   * occurrences inside it.
   */
  datatype FunctionNode = FunctionNode(kind: FunctionKind, node: nat, id: Option<string>, path: seq<PathNode>,
                                       block: Option<seq<string>>, params: seq<string>, scope: nat,
                                       occurrences: seq<Occurrence>)

  /**
   * What happens to a hoisted function's own node: `path.replaceWith(...)`,
   * or, for a declaration, `path.remove()` followed by `var name = ...` pushed
   * into the enclosing scope.
   */
  datatype Rewrite = ReplacedBy(replacement: Replacement) | MovedToVar(name: string, init: Replacement)

  /** The callbacks the transform passes to `once`. */
  datatype Todo =
    | ComputeId(directive: Dir)
    | AddImport(name: string, source: string)
    | DefineWrapper
    | EmitRegistration(localName: string, publicName: string)
    | EmitClientReference(publicName: string)

  /** The emission callbacks call `once` themselves, the others do not. */
  function Rank(t: Todo): nat {
    if t.EmitRegistration? || t.EmitClientReference? then 1 else 0
  }

  /** Whether the function is hoisted: not in a "use client" module, no top-level binding, a "use server" body directive. */
  predicate Hoists(f: FunctionNode, moduleUseClient: bool) {
    !moduleUseClient && TopLevelBinding(f.path).None? && f.block.Some? && "use server" in f.block.value
  }

  /**
   * A function nested in an expression (a call argument, say) outside a
   * "use client" module is hoisted exactly when its body has a "use server"
   * directive: the missing top-level binding leaves only that test.
   */
  lemma ExpressionFunctionHoists(f: FunctionNode, e: nat, moduleUseClient: bool)
    requires 0 < e < |f.path| && f.path[e].ExpressionNode?
    requires forall j :: 0 <= j < e ==> !IsDeclarationLike(f.path[j])
    ensures Hoists(f, moduleUseClient) <==> !moduleUseClient && f.block.Some? && "use server" in f.block.value
  {
    ExpressionPathNoTopLevelBinding(f.path, e);
  }

  function OptionSet(o: Option<string>): set<string> {
    if o.Some? then {o.value} else {}
  }

  /** The state `once` callbacks act on. */
  datatype Store = Store(cache: map<Key, string>, uids: map<string, nat>, body: seq<Statement>)

  class ServerTransform {
    const ids: Dir -> string
    const importClient: string
    const importFrom: string
    const importServer: string
    const encryption: Option<Encryption>
    const scopes: ScopeTree

    var cache: map<Key, string>
    var uids: map<string, nat>
    var moduleUseClient: bool
    var moduleUseServer: bool
    var hasUseServer: bool
    var namedExports: OrderedMap
    var topLevelFunctions: set<string>
    var directives: seq<string>
    var body: seq<Statement>
    var rewrites: seq<(nat, Rewrite)>

    function ServerKey(): Key { ImportKey(importServer, importFrom) }
    function ClientKey(): Key { ImportKey(importClient, importFrom) }

    /** The keys `addCryptImport` passes to `once`, in order. */
    function CryptKeys(): (ks: seq<Key>)
      ensures forall k :: k in ks ==> k.ImportKey?
    {
      if encryption.None? then []
      else [ImportKey(encryption.value.decryptFn, encryption.value.importSource),
            ImportKey(encryption.value.encryptFn, encryption.value.importSource)]
    }

    /** The identifiers `addCryptImport` returns, once its imports are cached. */
    function CryptOf(c: map<Key, string>): Option<Crypt>
      requires forall k :: k in CryptKeys() ==> k in c
    {
      if encryption.None? then None else Some(Crypt(c[CryptKeys()[0]], c[CryptKeys()[1]]))
    }

    /** Later caches give the same crypto identifiers. */
    lemma CryptOfStable(c: map<Key, string>, c': map<Key, string>)
      requires Grows(c, c') && forall k :: k in CryptKeys() ==> k in c
      ensures CryptOf(c') == CryptOf(c)
    {
    }

    /** The keys a callback passes to `once` itself. */
    function Touched(todo: Todo): set<Key> {
      match todo
      case EmitRegistration(_, _) => {ServerKey(), IdKey(UseServer)}
      case EmitClientReference(_) => {ClientKey(), IdKey(UseClient)}
      case _ => {}
    }

    /** Every call site pairs an id key with the id computation and an import key with that import. */
    predicate KeyFits(key: Key, todo: Todo) {
      (key.IdKey? ==> todo == ComputeId(key.directive)) &&
      (key.ImportKey? ==> todo == AddImport(key.name, key.source)) &&
      (key.HelperKey? ==> todo == DefineWrapper) &&
      key !in Touched(todo)
    }

    /**
     * What the callback `todo` does and returns: the id callback's answer, a
     * fresh import in front of the body, the fresh wrapper helper in front of
     * the body, or a registration call or client reference at the end of the
     * body after the import of its callee.
     */
    predicate Effect(todo: Todo, v: string, s0: Store, s1: Store) {
      match todo
      case ComputeId(d) => v == ids(d) && s1.uids == s0.uids && s1.body == s0.body
      case AddImport(name, source) =>
        v == NextUid(s0.uids, name) && s1.uids == Bump(s0.uids, name) &&
        s1.body == [ImportStatement(name, v, source)] + s0.body
      case DefineWrapper =>
        v == NextUid(s0.uids, "wrapBoundArgs") && s1.uids == Bump(s0.uids, "wrapBoundArgs") &&
        s1.body == [HelperStatement(v)] + s0.body
      case EmitRegistration(local, public) =>
        ServerKey() in s1.cache &&
        s1.body == AddedImports(s0.cache, s1.cache, [ServerKey()]) + s0.body +
                   [RegistrationStatement(s1.cache[ServerKey()], local, ids(UseServer), public)]
      case EmitClientReference(public) =>
        ClientKey() in s1.cache &&
        s1.body == AddedImports(s0.cache, s1.cache, [ClientKey()]) + s0.body +
                   [ReferenceFor(public, s1.cache[ClientKey()], ids(UseClient))]
    }

    /** The cache is consistent: an id entry holds the callback's answer, and a cached import is in the body. */
    ghost predicate CacheInvariant()
      reads this
    {
      (forall d :: IdKey(d) in cache ==> cache[IdKey(d)] == ids(d)) &&
      (forall k :: k in cache && k.ImportKey? ==> HasImport(body))
    }

    ghost predicate Valid()
      reads this
    {
      namedExports.Valid() && scopes.Valid() && CacheInvariant() && NoExportKeys(cache) &&
      (moduleUseClient ==> forall k :: k in cache ==> !k.ImportKey?)
    }

    /** The start of the traversal: the program's directives and statements, nothing recorded yet. */
    constructor (ids: Dir -> string, importClient: string, importFrom: string, importServer: string,
                 encryption: Option<Encryption>, scopes: ScopeTree, directives: seq<string>, body: seq<Statement>)
      requires scopes.Valid()
      ensures Valid()
      ensures this.ids == ids && this.importClient == importClient && this.importFrom == importFrom
      ensures this.importServer == importServer && this.encryption == encryption && this.scopes == scopes
      ensures this.directives == directives && this.body == body
      ensures cache == map[] && uids == map[] && rewrites == [] && topLevelFunctions == {}
      ensures !moduleUseClient && !moduleUseServer && !hasUseServer && namedExports == EmptyMap
    {
      this.ids := ids;
      this.importClient := importClient;
      this.importFrom := importFrom;
      this.importServer := importServer;
      this.encryption := encryption;
      this.scopes := scopes;
      this.directives := directives;
      this.body := body;
      cache := map[];
      uids := map[];
      rewrites := [];
      topLevelFunctions := {};
      moduleUseClient := false;
      moduleUseServer := false;
      hasUseServer := false;
      namedExports := EmptyMap;
    }

    /** `programPath.scope.generateUidIdentifier(base)`, counting names per base. */
    method FreshUid(base: string) returns (name: string)
      modifies this`uids
      ensures name == NextUid(old(uids), base) && uids == Bump(old(uids), base)
    {
      var n := if base in uids then uids[base] else 0;
      uids := uids[base := n + 1];
      name := UidName(base, n + 1);
    }

    /**
     * `once(key, todo)`: a cached key answers its cached value and changes
     * nothing; otherwise the callback runs and its value is cached.
     */
    method Once(key: Key, todo: Todo) returns (v: string)
      requires CacheInvariant() && KeyFits(key, todo)
      modifies this`cache, this`uids, this`body
      decreases Rank(todo), 1
      ensures CacheInvariant() && Grows(old(cache), cache)
      ensures key in cache && cache[key] == v
      ensures forall k :: k in cache ==> k in old(cache) || k == key || k in Touched(todo)
      ensures key in old(cache) ==> v == old(cache)[key] && cache == old(cache) && uids == old(uids) && body == old(body)
      ensures key !in old(cache) ==> Effect(todo, v, Store(old(cache), old(uids), old(body)), Store(cache, uids, body))
    {
      if key in cache {
        return cache[key];
      }
      ghost var performed := cache;
      v := Perform(todo);
      performed := cache;
      cache := cache[key := v];
      if key.ImportKey? {
        assert IsImport(body[0]);
      }
      if todo.EmitRegistration? {
        AddedImportsStable(old(cache), performed, cache, [ServerKey()]);
      } else if todo.EmitClientReference? {
        AddedImportsStable(old(cache), performed, cache, [ClientKey()]);
      }
    }

    /** Running a `once` callback. */
    method Perform(todo: Todo) returns (v: string)
      requires CacheInvariant()
      modifies this`cache, this`uids, this`body
      decreases Rank(todo), 0
      ensures CacheInvariant() && Grows(old(cache), cache)
      ensures forall k :: k in cache ==> k in old(cache) || k in Touched(todo)
      ensures Effect(todo, v, Store(old(cache), old(uids), old(body)), Store(cache, uids, body))
    {
      match todo
      case ComputeId(d) =>
        v := ids(d);
      case AddImport(name, source) =>
        v := PushImport(name, source);
      case DefineWrapper =>
        v := PushHelper();
      case EmitRegistration(local, public) =>
        AppendAfterImport(ServerKey(), UseServer,
                          (callee, id) => RegistrationStatement(callee, local, id, public));
        v := "";
      case EmitClientReference(public) =>
        AppendAfterImport(ClientKey(), UseClient, (callee, id) => ReferenceFor(public, callee, id));
        v := "";
    }

    /** The import callback: a fresh local for `name`, imported in front of the body. */
    method PushImport(name: string, source: string) returns (v: string)
      requires CacheInvariant()
      modifies this`uids, this`body
      ensures CacheInvariant()
      ensures v == NextUid(old(uids), name) && uids == Bump(old(uids), name)
      ensures body == [ImportStatement(name, v, source)] + old(body)
    {
      v := FreshUid(name);
      body := [ImportStatement(name, v, source)] + body;
      assert IsImport(body[0]);
    }

    /** The helper callback: a fresh name for the wrapper helper, defined in front of the body. */
    method PushHelper() returns (v: string)
      requires CacheInvariant()
      modifies this`uids, this`body
      ensures CacheInvariant()
      ensures v == NextUid(old(uids), "wrapBoundArgs") && uids == Bump(old(uids), "wrapBoundArgs")
      ensures body == [HelperStatement(v)] + old(body)
    {
      v := FreshUid("wrapBoundArgs");
      body := [HelperStatement(v)] + body;
      assert forall j :: 0 <= j < |old(body)| ==> body[j + 1] == old(body)[j];
    }

    /**
     * The body of an emission callback: the callee's import through `once`,
     * then the id through `once`, then the statement built from both pushed
     * at the end of the body.
     */
    method AppendAfterImport(k: Key, d: Dir, make: (string, string) -> Statement)
      requires CacheInvariant() && k.ImportKey?
      modifies this`cache, this`uids, this`body
      decreases 0, 3
      ensures CacheInvariant() && Grows(old(cache), cache)
      ensures forall k' :: k' in cache ==> k' in old(cache) || k' == k || k' == IdKey(d)
      ensures k in cache
      ensures body == AddedImports(old(cache), cache, [k]) + old(body) + [make(cache[k], ids(d))]
    {
      var toCall := OnceImport(k);
      ghost var afterImport := cache;
      ghost var b := body;
      var id := Once(IdKey(d), ComputeId(d));
      assert body == b;
      AddedImportsStable(old(cache), afterImport, cache, [k]);
      body := body + [make(toCall, id)];
      assert HasImport(body) by {
        HasImportConcat([], b, [make(toCall, id)]);
        assert [] + b == b;
      }
    }

    /** `once` with an import: what it adds in front of the body is at most that import. */
    method OnceImport(k: Key) returns (local: string)
      requires CacheInvariant() && k.ImportKey?
      modifies this`cache, this`uids, this`body
      decreases 0, 2
      ensures CacheInvariant() && Grows(old(cache), cache)
      ensures forall k' :: k' in cache ==> k' in old(cache) || k' == k
      ensures k in cache && cache[k] == local
      ensures body == AddedImports(old(cache), cache, [k]) + old(body)
    {
      local := Once(k, AddImport(k.name, k.source));
      assert [k][..0] == [];
    }

    /** `once` with an id: the callback's answer, cached, and nothing else changed. */
    method OnceId(d: Dir) returns (id: string)
      requires CacheInvariant()
      modifies this`cache, this`uids, this`body
      decreases 0, 2
      ensures CacheInvariant()
      ensures id == ids(d) && cache == old(cache)[IdKey(d) := id]
      ensures uids == old(uids) && body == old(body)
    {
      id := Once(IdKey(d), ComputeId(d));
      assert cache == old(cache)[IdKey(d) := id];
    }

    /** `once` with the wrapper helper: what it adds in front of the body is at most the helper. */
    method OnceHelper() returns (wrapper: string)
      requires CacheInvariant()
      modifies this`cache, this`uids, this`body
      ensures CacheInvariant() && Grows(old(cache), cache)
      ensures forall k' :: k' in cache ==> k' in old(cache) || k' == HelperKey
      ensures HelperKey in cache && cache[HelperKey] == wrapper
      ensures body == AddedHelper(old(cache), cache) + old(body)
    {
      wrapper := Once(HelperKey, DefineWrapper);
    }

    /** `once("export:" + local, ...)` of the "use server" emission, on a miss: the registration call appended. */
    method OnceRegistration(localName: string, publicName: string)
      requires CacheInvariant() && ExportKey(localName) !in cache
      modifies this`cache, this`uids, this`body
      ensures CacheInvariant() && Grows(old(cache), cache)
      ensures ExportKey(localName) in cache && ServerKey() in cache
      ensures forall k :: k in cache ==> k in old(cache) || k == ExportKey(localName) || k == ServerKey() || k == IdKey(UseServer)
      ensures body == AddedImports(old(cache), cache, [ServerKey()]) + old(body) +
                      [RegistrationStatement(cache[ServerKey()], localName, ids(UseServer), publicName)]
    {
      var _ := Once(ExportKey(localName), EmitRegistration(localName, publicName));
    }

    /** `once("export:" + local, ...)` of the "use client" emission, on a miss: the client reference appended. */
    method OnceReference(localName: string, publicName: string)
      requires CacheInvariant() && ExportKey(localName) !in cache
      modifies this`cache, this`uids, this`body
      ensures CacheInvariant() && Grows(old(cache), cache)
      ensures ExportKey(localName) in cache && ClientKey() in cache
      ensures forall k :: k in cache ==> k in old(cache) || k == ExportKey(localName) || k == ClientKey() || k == IdKey(UseClient)
      ensures body == AddedImports(old(cache), cache, [ClientKey()]) + old(body) +
                      [ReferenceFor(publicName, cache[ClientKey()], ids(UseClient))]
    {
      var _ := Once(ExportKey(localName), EmitClientReference(publicName));
    }

    // -------------------------------------------------------------------------
    // The visitors

    /**
     * The `Program` visitor: flags set from the directives, an error when the
     * module has both, otherwise the detected directives removed.
     */
    method VisitProgram() returns (r: Result<()>)
      requires Valid() && cache == map[]
      modifies this`moduleUseClient, this`moduleUseServer, this`hasUseServer, this`directives
      ensures moduleUseClient == (old(moduleUseClient) || "use client" in old(directives))
      ensures moduleUseServer == (old(moduleUseServer) || "use server" in old(directives))
      ensures hasUseServer == (old(hasUseServer) || "use server" in old(directives))
      ensures Valid()
      ensures r.Err? <==> moduleUseClient && moduleUseServer
      ensures r.Err? ==> r.message == BothMessage && directives == old(directives)
      ensures r.Ok? ==> directives == StripDirectives(old(directives), Classification(moduleUseClient, moduleUseServer))
    {
      var c := ScanDirectives(directives);
      if c.useClient {
        moduleUseClient := true;
      }
      if c.useServer {
        moduleUseServer := true;
        hasUseServer := true;
      }
      if moduleUseClient && moduleUseServer {
        return Err(BothMessage);
      }
      if moduleUseServer {
        directives := RemoveAll(directives, "use server");
      }
      if moduleUseClient {
        directives := RemoveAll(directives, "use client");
      }
      return Ok(());
    }

    /** `ExportDefaultDeclaration` and `ExportDefaultSpecifier`. */
    method VisitExportDefault()
      requires Valid()
      modifies this`namedExports
      ensures Valid()
      ensures namedExports == TrackDefaultExport(old(namedExports), moduleUseClient)
    {
      if moduleUseClient {
        namedExports := namedExports.Put("default", "default");
      }
    }

    /** `ExportNamedDeclaration`. */
    method VisitExportNamed(specs: seq<Specifier>, decl: Option<Declaration>)
      requires Valid()
      modifies this`namedExports
      ensures Valid()
      ensures namedExports == PutAll(PutAll(old(namedExports), SpecifierWrites(specs)), DeclarationWrites(decl))
    {
      namedExports := TrackNamedExport(namedExports, specs, decl);
    }

    /** `addCryptImport()`: nothing without encryption, else the two crypto imports through `once`. */
    method AddCryptImport() returns (c: Option<Crypt>)
      requires CacheInvariant()
      modifies this`cache, this`uids, this`body
      ensures CacheInvariant() && Grows(old(cache), cache)
      ensures forall k :: k in cache ==> k in old(cache) || k in CryptKeys()
      ensures forall k :: k in CryptKeys() ==> k in cache
      ensures c == CryptOf(cache)
      ensures body == AddedImports(old(cache), cache, CryptKeys()) + old(body)
    {
      if encryption.None? {
        return None;
      }
      var ks := CryptKeys();
      var decryptFn, encryptFn := OnceCryptImports(ks[0], ks[1]);
      assert ks == [ks[0], ks[1]];
      c := Some(Crypt(decryptFn, encryptFn));
    }

    /** The two `once` calls of `addCryptImport`, in order. */
    method OnceCryptImports(k0: Key, k1: Key) returns (l0: string, l1: string)
      requires CacheInvariant() && k0.ImportKey? && k1.ImportKey?
      modifies this`cache, this`uids, this`body
      ensures CacheInvariant() && Grows(old(cache), cache)
      ensures forall k :: k in cache ==> k in old(cache) || k == k0 || k == k1
      ensures k0 in cache && k1 in cache && cache[k0] == l0 && cache[k1] == l1
      ensures body == AddedImports(old(cache), cache, [k0, k1]) + old(body)
    {
      l0 := OnceImport(k0);
      ghost var afterFirst := cache;
      l1 := OnceImport(k1);
      assert body == AddedImports(old(cache), cache, [k0, k1]) + old(body) by {
        assert [k0, k1] == [k0] + [k1];
        AddedImportsChain(old(cache), afterFirst, cache, [k0], k1);
      }
    }

    /** The keys passed to `once` while a function closing over `vars` is extracted. */
    function ExtractionKeys(vars: seq<string>): (ks: seq<Key>)
      ensures forall k :: k in ks ==> k.ImportKey?
    {
      (if |vars| > 0 then CryptKeys() else []) + [ServerKey()]
    }

    /**
     * `extractInlineActionToTopLevel(path, ctx)`: a fresh action name; when
     * the function closes over something, the crypto imports and a fresh
     * closure parameter; the server import; then the registered action
     * inserted after the last import. The "Could not find last import
     * declaration" error cannot happen: the server import has just been cached,
     * so the body has an import.
     */
    method ExtractInlineAction(params: seq<string>, dirs: seq<string>, vars: seq<string>, id: string)
      returns (name: string, closure: string, crypt: Option<Crypt>)
      requires Valid() && !moduleUseClient
      modifies this`cache, this`uids, this`body
      ensures Valid() && Grows(old(cache), cache)
      ensures HelperKey in cache <==> HelperKey in old(cache)
      ensures forall k :: k in cache ==> k in old(cache) || k in ExtractionKeys(vars)
      ensures forall k :: k in ExtractionKeys(vars) ==> k in cache
      ensures name == NextUid(old(uids), "$$INLINE_ACTION")
      ensures |vars| > 0 ==> exists n :: n >= 1 && closure == UidName("$$CLOSURE", n)
      ensures crypt == if |vars| > 0 then CryptOf(cache) else None
      ensures var action := ActionStatement(name, cache[ServerKey()], BuildExtracted(params, dirs, vars, closure, crypt, id, name), id);
        var front := AddedImports(old(cache), cache, ExtractionKeys(vars)) + old(body);
        InsertAfterLastImport(front, action).Ok? && body == InsertAfterLastImport(front, action).value
    {
      name := FreshUid("$$INLINE_ACTION");
      var register;
      crypt, closure, register := ExtractionImports(vars);
      assert HasImport(body);
      var fn := BuildExtracted(params, dirs, vars, closure, crypt, id, name);
      InsertAfterLastImportInBody(ActionStatement(name, register, fn, id));
    }

    /**
     * The `once` calls of the extraction, in order: the crypto imports and a
     * fresh closure parameter when the function closes over something, then
     * the import of `registerServerReference`.
     */
    method ExtractionImports(vars: seq<string>) returns (crypt: Option<Crypt>, closure: string, register: string)
      requires Valid() && !moduleUseClient
      modifies this`cache, this`uids, this`body
      ensures Valid() && Grows(old(cache), cache)
      ensures HelperKey in cache <==> HelperKey in old(cache)
      ensures forall k :: k in cache ==> k in old(cache) || k in ExtractionKeys(vars)
      ensures forall k :: k in ExtractionKeys(vars) ==> k in cache
      ensures |vars| > 0 ==> exists n :: n >= 1 && closure == UidName("$$CLOSURE", n)
      ensures crypt == if |vars| > 0 then CryptOf(cache) else None
      ensures register == cache[ServerKey()]
      ensures body == AddedImports(old(cache), cache, ExtractionKeys(vars)) + old(body)
    {
      crypt := None;
      closure := "";
      ghost var n := 1;
      if |vars| > 0 {
        crypt, closure := CaptureImports();
        n := Issued(uids, "$$CLOSURE");
      }
      ghost var beforeServer := cache;
      ghost var ks: seq<Key> := if |vars| > 0 then CryptKeys() else [];
      assert body == AddedImports(old(cache), beforeServer, ks) + old(body);
      register := OnceImport(ServerKey());
      assert body == AddedImports(old(cache), cache, ExtractionKeys(vars)) + old(body) by {
        AddedImportsChain(old(cache), beforeServer, cache, ks, ServerKey());
        assert ExtractionKeys(vars) == ks + [ServerKey()];
      }
      if |vars| > 0 {
        CryptOfStable(beforeServer, cache);
        assert n >= 1 && closure == UidName("$$CLOSURE", n);
      }
    }

    /** For a function that closes over something: the crypto imports, then a fresh closure parameter. */
    method CaptureImports() returns (crypt: Option<Crypt>, closure: string)
      requires CacheInvariant()
      modifies this`cache, this`uids, this`body
      ensures CacheInvariant() && Grows(old(cache), cache)
      ensures forall k :: k in cache ==> k in old(cache) || k in CryptKeys()
      ensures forall k :: k in CryptKeys() ==> k in cache
      ensures crypt == CryptOf(cache)
      ensures Issued(uids, "$$CLOSURE") >= 1 && closure == UidName("$$CLOSURE", Issued(uids, "$$CLOSURE"))
      ensures body == AddedImports(old(cache), cache, CryptKeys()) + old(body)
    {
      crypt := AddCryptImport();
      closure := FreshUid("$$CLOSURE");
    }

    /**
     * `findLast(programBody, isImportDeclaration)` followed by `insertAfter`:
     * the body has an import, so the error branch is dead.
     */
    method InsertAfterLastImportInBody(action: Statement)
      requires HasImport(body)
      modifies this`body
      ensures InsertAfterLastImport(old(body), action).Ok? && body == InsertAfterLastImport(old(body), action).value
      ensures HasImport(body)
    {
      var last := FindLastIndex(body, IsImport);
      LastIndexSpec(body, IsImport);
      if last.None? {
        assert false;
      }
      body := body[..last.value + 1] + [action] + body[last.value + 1..];
      assert IsImport(body[last.value]);
    }

    /**
     * `getInlineActionReplacement(actionId, vars, ctx)`: the bare action name
     * when nothing is captured; otherwise the crypto imports through `once`,
     * then the wrapper helper through `once`, and the bound action.
     */
    method GetInlineActionReplacement(name: string, vars: seq<string>, id: string) returns (rep: Replacement)
      requires Valid() && !moduleUseClient
      modifies this`cache, this`uids, this`body
      ensures Valid() && Grows(old(cache), cache)
      ensures forall k :: k in cache ==> k in old(cache) || k in CryptKeys() || k == HelperKey
      ensures |vars| == 0 ==> rep == ActionReference(name) && cache == old(cache) && uids == old(uids) && body == old(body)
      ensures |vars| > 0 ==>
        HelperKey in cache && (forall k :: k in CryptKeys() ==> k in cache) &&
        rep == InlineActionReplacement(name, vars, cache[HelperKey], CryptOf(cache), id) &&
        body == AddedHelper(old(cache), cache) + AddedImports(old(cache), cache, CryptKeys()) + old(body)
    {
      if |vars| == 0 {
        return ActionReference(name);
      }
      var crypt := AddCryptImport();
      ghost var afterCrypt := cache;
      var wrapper := OnceHelper();
      assert AddedImports(old(cache), cache, CryptKeys()) == AddedImports(old(cache), afterCrypt, CryptKeys()) by {
        AddedImportsStable(old(cache), afterCrypt, cache, CryptKeys());
      }
      assert AddedHelper(afterCrypt, cache) == AddedHelper(old(cache), cache);
      assert CryptOf(cache) == crypt;
      var captured := if crypt.Some? then EncryptedArray(crypt.value.encryptFn, vars, id, name) else PlainArray(vars);
      rep := BoundAction(name, wrapper, captured);
    }

    /** The names `getNonLocalVariables` returns for `f`. */
    function CapturedVars(f: FunctionNode): seq<string>
      requires scopes.Valid()
    {
      Dedup(CapturedNames(scopes, f.scope, f.occurrences))
    }

    /** The exported registered action `extractInlineActionToTopLevel` builds for `f`. */
    function HoistedAction(f: FunctionNode, name: string, closure: string, c: map<Key, string>): Statement
      requires scopes.Valid() && f.block.Some? && ServerKey() in c
      requires |CapturedVars(f)| > 0 ==> forall k :: k in CryptKeys() ==> k in c
    {
      var vars := CapturedVars(f);
      var crypt := if |vars| > 0 then CryptOf(c) else None;
      ActionStatement(name, c[ServerKey()],
                      BuildExtracted(f.params, RemoveAll(f.block.value, "use server"), vars, closure, crypt, ids(UseServer), name),
                      ids(UseServer))
    }

    /** What the hoisted function's own node becomes. */
    function HoistedRewrite(f: FunctionNode, name: string, c: map<Key, string>): Rewrite
      requires scopes.Valid() && (f.kind.DeclarationKind? ==> f.id.Some?)
      requires |CapturedVars(f)| > 0 ==> HelperKey in c && forall k :: k in CryptKeys() ==> k in c
    {
      var vars := CapturedVars(f);
      var rep := if |vars| > 0 then InlineActionReplacement(name, vars, c[HelperKey], CryptOf(c), ids(UseServer))
                 else ActionReference(name);
      if f.kind.DeclarationKind? then MovedToVar(f.id.value, rep) else ReplacedBy(rep)
    }

    /** The body after the extraction of `f`: the new imports in front, the action after the last import. */
    ghost function HoistedBody(f: FunctionNode, name: string, closure: string, c0: map<Key, string>,
                               b0: seq<Statement>, c: map<Key, string>): Result<seq<Statement>>
      requires scopes.Valid() && f.block.Some?
      requires forall k :: k in ExtractionKeys(CapturedVars(f)) ==> k in c
    {
      InsertAfterLastImport(AddedImports(c0, c, ExtractionKeys(CapturedVars(f))) + b0,
                            HoistedAction(f, name, closure, c))
    }

    /** Later `once` calls do not change what the extraction did. */
    lemma HoistedBodyStable(f: FunctionNode, name: string, closure: string, c0: map<Key, string>,
                            b0: seq<Statement>, c: map<Key, string>, c': map<Key, string>)
      requires scopes.Valid() && f.block.Some?
      requires forall k :: k in ExtractionKeys(CapturedVars(f)) ==> k in c
      requires Grows(c, c')
      ensures forall k :: k in ExtractionKeys(CapturedVars(f)) ==> k in c'
      ensures HoistedBody(f, name, closure, c0, b0, c') == HoistedBody(f, name, closure, c0, b0, c)
    {
      AddedImportsStable(c0, c, c', ExtractionKeys(CapturedVars(f)));
    }

    /**
     * The state after the extraction of `f` from cache `c0` and body `b0`: the
     * imports of the extraction are cached, a captured variable gave a fresh
     * closure parameter, and the body is the new imports in front with the
     * action after the last import.
     */
    ghost predicate ExtractedState(f: FunctionNode, name: string, closure: string, c0: map<Key, string>,
                                   b0: seq<Statement>, c: map<Key, string>, b: seq<Statement>)
    {
      scopes.Valid() && f.block.Some? &&
      (forall k :: k in ExtractionKeys(CapturedVars(f)) ==> k in c) &&
      HoistedBody(f, name, closure, c0, b0, c).Ok? && b == HoistedBody(f, name, closure, c0, b0, c).value
    }

    /**
     * The state after the whole hoisting of `f`: as after the extraction, with
     * the wrapper helper in front when something is captured and its node's
     * rewrite appended to `rw0`.
     */
    ghost predicate ReplacedState(f: FunctionNode, name: string, closure: string, c0: map<Key, string>,
                                  b0: seq<Statement>, rw0: seq<(nat, Rewrite)>,
                                  c: map<Key, string>, b: seq<Statement>, rw: seq<(nat, Rewrite)>)
    {
      scopes.Valid() && f.block.Some? && (f.kind.DeclarationKind? ==> f.id.Some?) &&
      (forall k :: k in ExtractionKeys(CapturedVars(f)) ==> k in c) &&
      (|CapturedVars(f)| > 0 ==> HelperKey in c) &&
      HoistedBody(f, name, closure, c0, b0, c).Ok? &&
      b == (if |CapturedVars(f)| > 0 then AddedHelper(c0, c) else []) + HoistedBody(f, name, closure, c0, b0, c).value &&
      rw == rw0 + [(f.node, HoistedRewrite(f, name, c))]
    }

    /** What `extractInlineActionToTopLevel` leaves is the extracted state. */
    lemma ExtractedStateFrom(f: FunctionNode, name: string, closure: string, crypt: Option<Crypt>,
                             c0: map<Key, string>, c1: map<Key, string>, c: map<Key, string>,
                             b0: seq<Statement>, b: seq<Statement>)
      requires scopes.Valid() && f.block.Some?
      requires forall k :: k in ExtractionKeys(CapturedVars(f)) ==> k in c && (k in c1 <==> k in c0)
      requires crypt == if |CapturedVars(f)| > 0 then CryptOf(c) else None
      requires var action := ActionStatement(name, c[ServerKey()],
                                             BuildExtracted(f.params, RemoveAll(f.block.value, "use server"), CapturedVars(f),
                                                            closure, crypt, ids(UseServer), name),
                                             ids(UseServer));
        var front := AddedImports(c1, c, ExtractionKeys(CapturedVars(f))) + b0;
        InsertAfterLastImport(front, action).Ok? && b == InsertAfterLastImport(front, action).value
      ensures forall k :: k in ExtractionKeys(CapturedVars(f)) ==> k in c
      ensures HoistedBody(f, name, closure, c0, b0, c).Ok? && b == HoistedBody(f, name, closure, c0, b0, c).value
    {
      AddedImportsSameBefore(c1, c0, c, ExtractionKeys(CapturedVars(f)));
    }

    /** The replacement and the rewrite of the node complete the extracted state to the replaced one. */
    lemma ReplacedStateFrom(f: FunctionNode, name: string, closure: string, c0: map<Key, string>, b0: seq<Statement>,
                            rw0: seq<(nat, Rewrite)>, c: map<Key, string>, b: seq<Statement>,
                            c': map<Key, string>, b': seq<Statement>, rep: Replacement)
      requires ExtractedState(f, name, closure, c0, b0, c, b)
      requires (f.kind.DeclarationKind? ==> f.id.Some?) && (HelperKey in c <==> HelperKey in c0) && Grows(c, c')
      requires |CapturedVars(f)| == 0 ==> rep == ActionReference(name) && c' == c && b' == b
      requires |CapturedVars(f)| > 0 ==>
        HelperKey in c' && (forall k :: k in CryptKeys() ==> k in c') &&
        rep == InlineActionReplacement(name, CapturedVars(f), c'[HelperKey], CryptOf(c'), ids(UseServer)) &&
        b' == AddedHelper(c, c') + AddedImports(c, c', CryptKeys()) + b
      ensures ReplacedState(f, name, closure, c0, b0, rw0, c', b',
                            rw0 + [(f.node, if f.kind.DeclarationKind? then MovedToVar(f.id.value, rep) else ReplacedBy(rep))])
    {
      if |CapturedVars(f)| > 0 {
        ReplacedCaptured(f, name, closure, c0, b0, rw0, c, b, c', b', rep);
      } else {
        ReplacedPlain(f, name, closure, c0, b0, rw0, c, b, rep);
      }
    }

    /** Nothing captured: the bare action name replaces the node, and the body stays as extracted. */
    lemma ReplacedPlain(f: FunctionNode, name: string, closure: string, c0: map<Key, string>, b0: seq<Statement>,
                        rw0: seq<(nat, Rewrite)>, c: map<Key, string>, b: seq<Statement>, rep: Replacement)
      requires ExtractedState(f, name, closure, c0, b0, c, b)
      requires (f.kind.DeclarationKind? ==> f.id.Some?) && |CapturedVars(f)| == 0 && rep == ActionReference(name)
      ensures ReplacedState(f, name, closure, c0, b0, rw0, c, b,
                            rw0 + [(f.node, if f.kind.DeclarationKind? then MovedToVar(f.id.value, rep) else ReplacedBy(rep))])
    {
      assert b == [] + b;
    }

    /**
     * Something captured: the bound action replaces the node, the helper is
     * defined in front unless it was before, and the crypto imports are cached already.
     */
    lemma ReplacedCaptured(f: FunctionNode, name: string, closure: string, c0: map<Key, string>, b0: seq<Statement>,
                           rw0: seq<(nat, Rewrite)>, c: map<Key, string>, b: seq<Statement>,
                           c': map<Key, string>, b': seq<Statement>, rep: Replacement)
      requires ExtractedState(f, name, closure, c0, b0, c, b)
      requires (f.kind.DeclarationKind? ==> f.id.Some?) && (HelperKey in c <==> HelperKey in c0) && Grows(c, c')
      requires |CapturedVars(f)| > 0 && HelperKey in c' && (forall k :: k in CryptKeys() ==> k in c')
      requires rep == InlineActionReplacement(name, CapturedVars(f), c'[HelperKey], CryptOf(c'), ids(UseServer))
      requires b' == AddedHelper(c, c') + AddedImports(c, c', CryptKeys()) + b
      ensures ReplacedState(f, name, closure, c0, b0, rw0, c', b',
                            rw0 + [(f.node, if f.kind.DeclarationKind? then MovedToVar(f.id.value, rep) else ReplacedBy(rep))])
    {
      HoistedBodyStable(f, name, closure, c0, b0, c, c');
      assert ExtractionKeys(CapturedVars(f)) == CryptKeys() + [ServerKey()];
      CapturedFront(c0, c, c', b, b');
      assert (if f.kind.DeclarationKind? then MovedToVar(f.id.value, rep) else ReplacedBy(rep)) == HoistedRewrite(f, name, c');
    }

    /** The crypto imports were added before: only the helper goes in front. */
    lemma CapturedFront(c0: map<Key, string>, c: map<Key, string>, c': map<Key, string>, b: seq<Statement>, b': seq<Statement>)
      requires (forall k :: k in CryptKeys() ==> k in c) && (HelperKey in c <==> HelperKey in c0)
      requires Grows(c, c') && HelperKey in c'
      requires b' == AddedHelper(c, c') + AddedImports(c, c', CryptKeys()) + b
      ensures b' == AddedHelper(c0, c') + b
    {
      AddedImportsAreImports(c, c', CryptKeys());
      assert AddedHelper(c, c') == AddedHelper(c0, c');
    }

    /**
     * The `ArrowFunctionExpression`, `FunctionDeclaration` and
     * `FunctionExpression` visitors: nothing in a "use client" module; a
     * function with a top-level binding is recorded as a top-level function;
     * a function without one whose body has a "use server" directive is
     * hoisted: the directive is removed, the action inserted after the last
     * import, and its node rewritten to refer to it. A declaration without an
     * id is an error after the extraction.
     */
    method VisitFunction(f: FunctionNode) returns (r: Result<()>, ghost closure: string)
      requires Valid() && f.scope < |scopes.parent| && WellScoped(scopes, f.occurrences)
      modifies this`topLevelFunctions, this`cache, this`uids, this`body, this`rewrites
      ensures Valid()
      ensures moduleUseClient ==> topLevelFunctions == old(topLevelFunctions)
      ensures !moduleUseClient ==> topLevelFunctions == old(topLevelFunctions) + OptionSet(TopLevelBinding(f.path))
      ensures !Hoists(f, moduleUseClient) ==>
        r == Ok(()) && cache == old(cache) && uids == old(uids) && body == old(body) && rewrites == old(rewrites)
      ensures Hoists(f, moduleUseClient) ==>
        (r.Err? <==> f.kind.DeclarationKind? && f.id.None?) && (r.Err? ==> r.message == NoIdMessage)
      ensures Hoists(f, moduleUseClient) && r.Err? ==> rewrites == old(rewrites)
      ensures Hoists(f, moduleUseClient) ==> IdKey(UseServer) in cache
      ensures Hoists(f, moduleUseClient) && r.Ok? ==>
        ReplacedState(f, NextUid(old(uids), "$$INLINE_ACTION"), closure, old(cache), old(body), old(rewrites),
                      cache, body, rewrites)
    {
      closure := "";
      if moduleUseClient {
        return Ok(()), closure;
      }
      var tlb := GetTopLevelBinding(f.path);
      if tlb.Some? {
        topLevelFunctions := topLevelFunctions + {tlb.value};
        return Ok(()), closure;
      }
      if f.block.None? || "use server" !in f.block.value {
        return Ok(()), closure;
      }
      r, closure := HoistFunction(f);
    }

    /** The hoisting of a function the visitors decide to hoist. */
    method HoistFunction(f: FunctionNode) returns (r: Result<()>, ghost closure: string)
      requires Valid() && !moduleUseClient && f.block.Some? && f.scope < |scopes.parent| && WellScoped(scopes, f.occurrences)
      modifies this`cache, this`uids, this`body, this`rewrites
      ensures Valid()
      ensures (r.Err? <==> f.kind.DeclarationKind? && f.id.None?) && (r.Err? ==> r.message == NoIdMessage)
      ensures r.Err? ==> rewrites == old(rewrites)
      ensures IdKey(UseServer) in cache
      ensures r.Ok? ==>
        ReplacedState(f, NextUid(old(uids), "$$INLINE_ACTION"), closure, old(cache), old(body), old(rewrites),
                      cache, body, rewrites)
    {
      var name, vars;
      name, closure, vars := ExtractFunction(f);
      if f.kind.DeclarationKind? && f.id.None? {
        return Err(NoIdMessage), closure;
      }
      r := Ok(());
      ReplaceHoisted(f, name, vars, closure, old(cache), old(body), old(uids));
    }

    /**
     * After the extraction and the id check: the node rewritten to the
     * replacement, which may define the wrapper helper in front of the body.
     */
    method ReplaceHoisted(f: FunctionNode, name: string, vars: seq<string>,
                          ghost closure: string, ghost c0: map<Key, string>, ghost b0: seq<Statement>,
                          ghost u0: map<string, nat>)
      requires Valid() && !moduleUseClient && vars == CapturedVars(f) && name == NextUid(u0, "$$INLINE_ACTION")
      requires (f.kind.DeclarationKind? ==> f.id.Some?) && (HelperKey in cache <==> HelperKey in c0)
      requires ExtractedState(f, name, closure, c0, b0, cache, body)
      modifies this`cache, this`uids, this`body, this`rewrites
      ensures Valid()
      ensures ReplacedState(f, NextUid(u0, "$$INLINE_ACTION"), closure, c0, b0, old(rewrites), cache, body, rewrites)
      ensures forall k :: k in old(cache) ==> k in cache
    {
      var replacement := GetInlineActionReplacement(name, vars, ids(UseServer));
      ReplacedStateFrom(f, name, closure, c0, b0, old(rewrites), old(cache), old(body), cache, body, replacement);
      rewrites := rewrites + [(f.node, if f.kind.DeclarationKind? then MovedToVar(f.id.value, replacement)
                                       else ReplacedBy(replacement))];
    }

    /**
     * The part of a visitor that runs before the id check: the directive
     * removed, the captured names, the id, and the extraction.
     */
    method ExtractFunction(f: FunctionNode) returns (name: string, closure: string, vars: seq<string>)
      requires Valid() && !moduleUseClient && f.block.Some?
      requires f.scope < |scopes.parent| && WellScoped(scopes, f.occurrences)
      modifies this`cache, this`uids, this`body
      ensures Valid()
      ensures HelperKey in cache <==> HelperKey in old(cache)
      ensures vars == CapturedVars(f)
      ensures name == NextUid(old(uids), "$$INLINE_ACTION")
      ensures forall k :: k in ExtractionKeys(vars) ==> k in cache
      ensures IdKey(UseServer) in cache
      ensures HoistedBody(f, name, closure, old(cache), old(body), cache).Ok?
      ensures body == HoistedBody(f, name, closure, old(cache), old(body), cache).value
    {
      var dirs := RemoveAll(f.block.value, "use server");
      vars := GetNonLocalVariables(scopes, f.scope, f.occurrences);
      var id := OnceId(UseServer);
      ghost var c1 := cache;
      var crypt;
      name, closure, crypt := ExtractInlineAction(f.params, dirs, vars, id);
      ExtractedStateFrom(f, name, closure, crypt, old(cache), c1, cache, old(body), body);
    }

    // -------------------------------------------------------------------------
    // After the traversal

    /**
     * Where the "use server" emission stands after registering `done`,
     * starting from cache `c0` and body `b0`: the `export:` keys are the
     * registered locals, and the body is the server import (if anything was
     * registered and it was not imported before), `b0`, then the registration calls.
     */
    ghost predicate RegistrationState(c0: map<Key, string>, b0: seq<Statement>, done: seq<(string, string)>)
      reads this
    {
      CacheInvariant() && Grows(c0, cache) &&
      (forall l :: ExportKey(l) in cache <==> l in Locals(done)) &&
      (forall k :: k in cache ==> k in c0 || k.ExportKey? || k == ServerKey() || k == IdKey(UseServer)) &&
      (|done| == 0 ==> cache == c0 && body == b0) &&
      (|done| > 0 ==> ServerKey() in cache) &&
      body == ImportIfUsed(c0, cache, ServerKey(), |done| > 0) + b0 +
              Registrations(done, Callee(cache, ServerKey()), ids(UseServer))
    }

    /** One `once("export:" + local, ...)` that misses: the registration call appended. */
    method RegisterExport(ghost c0: map<Key, string>, ghost b0: seq<Statement>, ghost done: seq<(string, string)>,
                          localName: string, publicName: string)
      requires RegistrationState(c0, b0, done) && localName !in Locals(done)
      modifies this`cache, this`uids, this`body
      ensures RegistrationState(c0, b0, done + [(publicName, localName)])
    {
      ghost var c := cache;
      ghost var b := body;
      OnceRegistration(localName, publicName);
      assert Grows(c0, cache) by {
        forall k | k in c0 ensures k in cache && cache[k] == c0[k] {
          assert k in c;
        }
      }
      LocalsSnoc(done, (publicName, localName));
      assert forall l :: ExportKey(l) in cache <==> l in Locals(done + [(publicName, localName)]);
      RegistrationStep(c0, c, cache, b0, b, done, (publicName, localName), ServerKey(), ids(UseServer));
    }

    /**
     * One turn of the "use server" emission loop: nothing for a local that is
     * not a top-level function, an error for the public name `default`,
     * otherwise the registration unless the local was registered before.
     */
    method RegisterIfFunction(ghost c0: map<Key, string>, ghost b0: seq<Statement>, ghost done: seq<(string, string)>,
                              publicName: string, localName: string) returns (failed: bool, ghost done': seq<(string, string)>)
      requires RegistrationState(c0, b0, done)
      modifies this`cache, this`uids, this`body
      ensures failed <==> ServerRegistrationStep(Ok(done), (publicName, localName), topLevelFunctions).Err?
      ensures !failed ==> ServerRegistrationStep(Ok(done), (publicName, localName), topLevelFunctions) == Ok(done')
      ensures !failed ==> RegistrationState(c0, b0, done')
    {
      assert ExportKey(localName) in cache <==> localName in Locals(done);
      failed := localName in topLevelFunctions && publicName == "default";
      done' := done;
      if localName in topLevelFunctions && publicName != "default" && ExportKey(localName) !in cache {
        RegisterExport(c0, b0, done, localName, publicName);
        done' := done + [(publicName, localName)];
      }
    }

    /**
     * The "use server" emission: for each export whose local is a top-level
     * function, an error for the public name `default`, otherwise, once per
     * local, a registration call appended after the import of `importServer`.
     */
    method EmitServerRegistrations() returns (r: Result<()>)
      requires namedExports.Valid() && CacheInvariant() && NoExportKeys(cache)
      modifies this`cache, this`uids, this`body
      ensures var regs := ServerRegistrations(namedExports.Entries(), topLevelFunctions);
        (r.Err? <==> regs.Err?) && (r.Err? ==> r.message == DefaultServerMessage) &&
        (r.Ok? ==> RegistrationState(old(cache), old(body), regs.value))
    {
      r := EmitRegistrationsFor(namedExports.Entries());
    }

    /** Where the "use server" emission loop stands before entry `i` of `es`. */
    ghost predicate RegistrationWalk(c0: map<Key, string>, b0: seq<Statement>, es: seq<(string, string)>, i: nat,
                                     done: seq<(string, string)>)
      reads this
    {
      i <= |es| && ServerRegistrations(es[..i], topLevelFunctions) == Ok(done) && RegistrationState(c0, b0, done)
    }

    /** The loop of the "use server" emission over the map entries `es`. */
    method EmitRegistrationsFor(es: seq<(string, string)>) returns (r: Result<()>)
      requires CacheInvariant() && NoExportKeys(cache)
      modifies this`cache, this`uids, this`body
      ensures var regs := ServerRegistrations(es, topLevelFunctions);
        (r.Err? <==> regs.Err?) && (r.Err? ==> r.message == DefaultServerMessage) &&
        (r.Ok? ==> RegistrationState(old(cache), old(body), regs.value))
    {
      ghost var done: seq<(string, string)> := [];
      var i := 0;
      assert body == [] + old(body) + [];
      assert RegistrationWalk(old(cache), old(body), es, 0, done);
      while i < |es|
        invariant RegistrationWalk(old(cache), old(body), es, i, done)
      {
        ServerRegistrationsSnoc(es, topLevelFunctions, i);
        var failed;
        failed, done := RegisterIfFunction(old(cache), old(body), done, es[i].0, es[i].1);
        if failed {
          ServerRegistrationsErr(es, topLevelFunctions, i + 1);
          return Err(DefaultServerMessage);
        }
        i := i + 1;
      }
      assert es[..i] == es;
      return Ok(());
    }

    /** Where the "use client" emission of the server transform stands after `done`. */
    ghost predicate ReferenceState(c0: map<Key, string>, b0: seq<Statement>, done: seq<(string, string)>)
      reads this
    {
      CacheInvariant() && Grows(c0, cache) &&
      (forall l :: ExportKey(l) in cache <==> l in Locals(done)) &&
      (forall k :: k in cache ==> k in c0 || k.ExportKey? || k == ClientKey() || k == IdKey(UseClient)) &&
      (|done| == 0 ==> cache == c0 && body == b0) &&
      (|done| > 0 ==> ClientKey() in cache) &&
      body == ImportIfUsed(c0, cache, ClientKey(), |done| > 0) + b0 +
              References(done, Callee(cache, ClientKey()), ids(UseClient))
    }

    /** One `once("export:" + local, ...)` that misses: the client reference appended. */
    method ReferenceExportOnce(ghost c0: map<Key, string>, ghost b0: seq<Statement>, ghost done: seq<(string, string)>,
                               localName: string, publicName: string)
      requires ReferenceState(c0, b0, done) && localName !in Locals(done)
      modifies this`cache, this`uids, this`body
      ensures ReferenceState(c0, b0, done + [(publicName, localName)])
    {
      ghost var c := cache;
      ghost var b := body;
      OnceReference(localName, publicName);
      assert Grows(c0, cache) by {
        forall k | k in c0 ensures k in cache && cache[k] == c0[k] {
          assert k in c;
        }
      }
      LocalsSnoc(done, (publicName, localName));
      assert forall l :: ExportKey(l) in cache <==> l in Locals(done + [(publicName, localName)]);
      ReferenceStep(c0, c, cache, b0, b, done, (publicName, localName), ClientKey(), ids(UseClient));
    }

    /** One turn of the "use client" emission loop: the reference, unless the local was handled before. */
    method ReferenceIfNew(ghost c0: map<Key, string>, ghost b0: seq<Statement>, ghost done: seq<(string, string)>,
                          publicName: string, localName: string) returns (ghost done': seq<(string, string)>)
      requires ReferenceState(c0, b0, done)
      modifies this`cache, this`uids, this`body
      ensures done' == if localName in Locals(done) then done else done + [(publicName, localName)]
      ensures ReferenceState(c0, b0, done')
    {
      done' := done;
      if ExportKey(localName) !in cache {
        ReferenceExportOnce(c0, b0, done, localName, publicName);
        done' := done + [(publicName, localName)];
      }
    }

    /**
     * The "use client" emission of the server transform: once per local, a
     * client reference export appended after the import of `importClient`.
     */
    method EmitClientReferences()
      requires namedExports.Valid() && CacheInvariant() && NoExportKeys(cache)
      modifies this`cache, this`uids, this`body
      ensures ReferenceState(old(cache), old(body), FirstPerLocal(namedExports.Entries()))
    {
      EmitReferencesFor(namedExports.Entries());
    }

    /** Where the "use client" emission loop stands before entry `i` of `es`. */
    ghost predicate ReferenceWalk(c0: map<Key, string>, b0: seq<Statement>, es: seq<(string, string)>, i: nat,
                                  done: seq<(string, string)>)
      reads this
    {
      i <= |es| && FirstPerLocal(es[..i]) == done && ReferenceState(c0, b0, done)
    }

    /** The loop of the "use client" emission over the map entries `es`. */
    method EmitReferencesFor(es: seq<(string, string)>)
      requires CacheInvariant() && NoExportKeys(cache)
      modifies this`cache, this`uids, this`body
      ensures ReferenceState(old(cache), old(body), FirstPerLocal(es))
    {
      ghost var done: seq<(string, string)> := [];
      var i := 0;
      assert body == [] + old(body) + [];
      assert ReferenceWalk(old(cache), old(body), es, 0, done);
      while i < |es|
        invariant ReferenceWalk(old(cache), old(body), es, i, done)
      {
        FirstPerLocalAdvance(es, i);
        done := ReferenceIfNew(old(cache), old(body), done, es[i].0, es[i].1);
        i := i + 1;
      }
      assert es[..i] == es;
    }

    /**
     * The code after `traverse`: the both-directives check, then the
     * emission for a "use server" module, or, for a "use client" module, the
     * directive removed and the body replaced by the client references.
     */
    method Finish() returns (r: Result<()>)
      requires Valid()
      modifies this`cache, this`uids, this`body, this`directives
      ensures moduleUseClient && hasUseServer ==>
        r == Err(BothMessage) && body == old(body) && directives == old(directives)
      ensures !(moduleUseClient && hasUseServer) && moduleUseServer ==>
        var regs := ServerRegistrations(namedExports.Entries(), topLevelFunctions);
        directives == old(directives) &&
        (r.Err? <==> regs.Err?) && (r.Err? ==> r.message == DefaultServerMessage) &&
        (r.Ok? ==> RegistrationState(old(cache), old(body), regs.value))
      ensures !(moduleUseClient && hasUseServer) && !moduleUseServer && moduleUseClient ==>
        r == Ok(()) && directives == RemoveAll(old(directives), "use client") &&
        ReferenceState(old(cache), [], FirstPerLocal(namedExports.Entries()))
      ensures !moduleUseClient && !moduleUseServer ==>
        r == Ok(()) && body == old(body) && directives == old(directives)
    {
      if moduleUseClient && hasUseServer {
        return Err(BothMessage);
      }
      if moduleUseServer {
        r := EmitServerRegistrations();
      } else if moduleUseClient {
        directives := RemoveAll(directives, "use client");
        body := [];
        EmitClientReferences();
        r := Ok(());
      } else {
        r := Ok(());
      }
    }
  }
}
