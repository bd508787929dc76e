/**
 * `clientTransform(code, filename, options)` of `src/client-transform.ts`: the
 * Babel plugin that turns a module for the client bundle. A module whose text
 * mentions neither directive is skipped; otherwise the visit reads the module
 * directives and records the exports, and afterwards a "use server" module
 * loses its body, which becomes one server reference per exported local
 * (`export const name = createServerReference({}, id, "name")`). A "use
 * client" module keeps its body and loses only its directive. The traversal
 * is a sequence of calls on a `ClientTransform` object whose fields are the
 * closure variables of the JavaScript function and the parts of the AST the
 * plugin changes.
 */
module Client {
  import opened Common
  import opened Hoist
  import opened Tracking
  import opened OnceCache

  /** The callbacks the client transform passes to `once`. */
  datatype Todo =
    | ComputeId
    | AddImport(name: string, source: string)
    | EmitServerReference(publicName: string)

  /** The emission callback calls `once` itself, the others do not. */
  function Rank(t: Todo): nat {
    if t.EmitServerReference? then 1 else 0
  }

  /** The state `once` callbacks act on. */
  datatype Store = Store(cache: map<Key, string>, uids: map<string, nat>, body: seq<Statement>)

  class ClientTransform {
    /** The module text, as `file.code` shows it to `pre`. */
    const code: string
    /** What `options.id(filename, "use server")` answers. */
    const serverId: string
    const importFrom: string
    const importServer: string

    var cache: map<Key, string>
    var uids: map<string, nat>
    var didSkip: bool
    var moduleUseClient: bool
    var moduleUseServer: bool
    var hasUseServer: bool
    var namedExports: OrderedMap
    var directives: seq<string>
    var body: seq<Statement>

    function ServerKey(): Key { ImportKey(importServer, importFrom) }

    /** The keys a callback passes to `once` itself. */
    function Touched(todo: Todo): set<Key> {
      if todo.EmitServerReference? then {ServerKey(), IdKey(UseServer)} else {}
    }

    /** Every call site pairs the id key with the id computation and an import key with that import. */
    predicate KeyFits(key: Key, todo: Todo) {
      (key.IdKey? ==> todo == ComputeId) &&
      (key.ImportKey? ==> todo == AddImport(key.name, key.source)) &&
      key !in Touched(todo)
    }

    /**
     * What the callback `todo` does and returns: the id, a fresh import in
     * front of the body, or, for an export, the import of `importServer`
     * followed by an error for the public name `default` and otherwise by a
     * server reference export at the end of the body.
     */
    predicate Effect(todo: Todo, v: Result<string>, s0: Store, s1: Store) {
      match todo
      case ComputeId => v == Ok(serverId) && s1.uids == s0.uids && s1.body == s0.body
      case AddImport(name, source) =>
        v == Ok(NextUid(s0.uids, name)) && s1.uids == Bump(s0.uids, name) &&
        s1.body == [ImportStatement(name, v.value, source)] + s0.body
      case EmitServerReference(public) =>
        ServerKey() in s1.cache &&
        (v.Err? <==> public == "default") &&
        (v.Err? ==> v.message == DefaultServerMessage &&
                    s1.body == AddedImports(s0.cache, s1.cache, [ServerKey()]) + s0.body) &&
        (v.Ok? ==> s1.body == AddedImports(s0.cache, s1.cache, [ServerKey()]) + s0.body +
                              [ServerReferenceExport(public, s1.cache[ServerKey()], serverId)])
    }

    /** A cached id holds the callback's answer. */
    ghost predicate CacheInvariant()
      reads this
    {
      forall d :: IdKey(d) in cache ==> cache[IdKey(d)] == serverId
    }

    /** Between visitor calls: the map of exports is well formed and nothing has gone through `once` yet. */
    ghost predicate Valid()
      reads this
    {
      namedExports.Valid() && cache == map[]
    }

    /** The start of the transform: the module text and AST, nothing recorded yet. */
    constructor (code: string, serverId: string, importFrom: string, importServer: string,
                 directives: seq<string>, body: seq<Statement>)
      ensures Valid()
      ensures this.code == code && this.serverId == serverId
      ensures this.importFrom == importFrom && this.importServer == importServer
      ensures this.directives == directives && this.body == body
      ensures uids == map[] && namedExports == EmptyMap
      ensures !didSkip && !moduleUseClient && !moduleUseServer && !hasUseServer
    {
      this.code := code;
      this.serverId := serverId;
      this.importFrom := importFrom;
      this.importServer := importServer;
      this.directives := directives;
      this.body := body;
      cache := map[];
      uids := map[];
      didSkip := false;
      moduleUseClient := false;
      moduleUseServer := false;
      hasUseServer := false;
      namedExports := EmptyMap;
    }

    /** `generateUidIdentifier(base)` inside `addNamedImport`, counting names per base. */
    method FreshUid(base: string) returns (name: string)
      modifies this`uids
      ensures name == NextUid(old(uids), base) && uids == Bump(old(uids), base)
    {
      var n := if base in uids then uids[base] else 0;
      uids := uids[base := n + 1];
      name := UidName(base, n + 1);
    }

    /**
     * `once(key, todo)`: a cached key answers its cached value and changes
     * nothing; otherwise the callback runs, and its value is cached unless it
     * throws.
     */
    method Once(key: Key, todo: Todo) returns (v: Result<string>)
      requires CacheInvariant() && KeyFits(key, todo)
      modifies this`cache, this`uids, this`body
      decreases Rank(todo), 1
      ensures CacheInvariant() && Grows(old(cache), cache)
      ensures v.Ok? ==> key in cache && cache[key] == v.value
      ensures v.Err? ==> key !in cache
      ensures forall k :: k in cache ==> k in old(cache) || k == key || k in Touched(todo)
      ensures key in old(cache) ==> v == Ok(old(cache)[key]) && cache == old(cache) && uids == old(uids) && body == old(body)
      ensures key !in old(cache) ==> Effect(todo, v, Store(old(cache), old(uids), old(body)), Store(cache, uids, body))
    {
      if key in cache {
        return Ok(cache[key]);
      }
      v := Perform(todo);
      if v.Ok? {
        ghost var performed := cache;
        cache := cache[key := v.value];
        if todo.EmitServerReference? {
          AddedImportsStable(old(cache), performed, cache, [ServerKey()]);
        }
      }
    }

    /** Running a `once` callback. */
    method Perform(todo: Todo) returns (v: Result<string>)
      requires CacheInvariant()
      modifies this`cache, this`uids, this`body
      decreases Rank(todo), 0
      ensures CacheInvariant() && Grows(old(cache), cache)
      ensures forall k :: k in cache ==> k in old(cache) || k in Touched(todo)
      ensures Effect(todo, v, Store(old(cache), old(uids), old(body)), Store(cache, uids, body))
    {
      match todo
      case ComputeId =>
        v := Ok(serverId);
      case AddImport(name, source) =>
        var local := FreshUid(name);
        body := [ImportStatement(name, local, source)] + body;
        v := Ok(local);
      case EmitServerReference(public) =>
        v := ServerReferenceCallback(public);
    }

    /**
     * The callback of `once("export:" + local, ...)`: the import of
     * `importServer` through `once`, the check of the public name, then the
     * id through `once` and the reference export pushed at the end of the body.
     */
    method ServerReferenceCallback(publicName: string) returns (v: Result<string>)
      requires CacheInvariant()
      modifies this`cache, this`uids, this`body
      decreases 0, 3
      ensures CacheInvariant() && Grows(old(cache), cache)
      ensures forall k :: k in cache ==> k in old(cache) || k == ServerKey() || k == IdKey(UseServer)
      ensures ServerKey() in cache
      ensures v.Err? <==> publicName == "default"
      ensures v.Err? ==> v.message == DefaultServerMessage &&
                         body == AddedImports(old(cache), cache, [ServerKey()]) + old(body)
      ensures v.Ok? ==> body == AddedImports(old(cache), cache, [ServerKey()]) + old(body) +
                               [ServerReferenceExport(publicName, cache[ServerKey()], serverId)]
    {
      var toCall := OnceImport(ServerKey());
      if publicName == "default" {
        return Err(DefaultServerMessage);
      }
      ghost var afterImport := cache;
      var id := OnceId();
      AddedImportsStable(old(cache), afterImport, cache, [ServerKey()]);
      body := body + [ServerReferenceExport(publicName, toCall, id)];
      v := Ok("");
    }

    /** `once` with an import: what it adds in front of the body is at most that import. */
    method OnceImport(k: Key) returns (local: string)
      requires CacheInvariant() && k.ImportKey?
      modifies this`cache, this`uids, this`body
      decreases 0, 2
      ensures CacheInvariant() && Grows(old(cache), cache)
      ensures forall k' :: k' in cache ==> k' in old(cache) || k' == k
      ensures k in cache && cache[k] == local
      ensures body == AddedImports(old(cache), cache, [k]) + old(body)
    {
      var r := Once(k, AddImport(k.name, k.source));
      local := r.value;
      assert [k][..0] == [];
    }

    /** `id("use server")`: the option's answer, cached, and nothing else changed. */
    method OnceId() returns (id: string)
      requires CacheInvariant()
      modifies this`cache, this`uids, this`body
      decreases 0, 2
      ensures CacheInvariant()
      ensures id == serverId && cache == old(cache)[IdKey(UseServer) := id]
      ensures uids == old(uids) && body == old(body)
    {
      var r := Once(IdKey(UseServer), ComputeId);
      id := r.value;
      assert cache == old(cache)[IdKey(UseServer) := id];
    }

    // -------------------------------------------------------------------------
    // The plugin hooks and visitors

    /** `pre`: the module is skipped when its text contains neither "use client" nor "use server". */
    method Pre()
      modifies this`didSkip
      ensures didSkip <==> old(didSkip) || (!Contains(code, "use client") && !Contains(code, "use server"))
    {
      if !Contains(code, "use client") && !Contains(code, "use server") {
        didSkip := true;
      }
    }

    /**
     * The `Program` visitor: flags set from the directives, an error when the
     * module has both, otherwise the detected directives removed.
     */
    method VisitProgram() returns (r: Result<()>)
      requires Valid()
      modifies this`moduleUseClient, this`moduleUseServer, this`hasUseServer, this`directives
      ensures Valid()
      ensures moduleUseClient == (old(moduleUseClient) || "use client" in old(directives))
      ensures moduleUseServer == (old(moduleUseServer) || "use server" in old(directives))
      ensures hasUseServer == (old(hasUseServer) || "use server" in old(directives))
      ensures r.Err? <==> moduleUseClient && moduleUseServer
      ensures r.Err? ==> r.message == BothMessage && directives == old(directives)
      ensures r.Ok? ==> directives == StripDirectives(old(directives), Classification(moduleUseClient, moduleUseServer))
    {
      var c := ScanDirectives(directives);
      if c.useClient {
        moduleUseClient := true;
      }
      if c.useServer {
        hasUseServer := true;
        moduleUseServer := true;
      }
      if moduleUseClient && moduleUseServer {
        return Err(BothMessage);
      }
      if moduleUseServer {
        directives := RemoveAll(directives, "use server");
      }
      if moduleUseClient {
        directives := RemoveAll(directives, "use client");
      }
      return Ok(());
    }

    /** `ExportDefaultDeclaration` and `ExportDefaultSpecifier`: `default` recorded only in a "use client" module. */
    method VisitExportDefault()
      requires Valid()
      modifies this`namedExports
      ensures Valid()
      ensures namedExports == TrackDefaultExport(old(namedExports), moduleUseClient)
    {
      if moduleUseClient {
        namedExports := namedExports.Put("default", "default");
      }
    }

    /** `ExportNamedDeclaration`: the specifiers, then the declared identifiers or the function name. */
    method VisitExportNamed(specs: seq<Specifier>, decl: Option<Declaration>)
      requires Valid()
      modifies this`namedExports
      ensures Valid()
      ensures namedExports == PutAll(PutAll(old(namedExports), SpecifierWrites(specs)), DeclarationWrites(decl))
    {
      namedExports := TrackNamedExport(namedExports, specs, decl);
    }

    // -------------------------------------------------------------------------
    // The "use server" emission of `post`

    /**
     * Where the emission stands after the entries `done` were emitted, starting
     * from cache `c0` and an emptied body: the `export:` keys are the emitted
     * locals, and the body is the import of `importServer` (if anything was
     * emitted and it was not imported before) followed by the reference exports.
     */
    ghost predicate EmitState(c0: map<Key, string>, done: seq<(string, string)>)
      reads this
    {
      CacheInvariant() && Grows(c0, cache) &&
      (forall l :: ExportKey(l) in cache <==> l in Locals(done)) &&
      (forall k :: k in cache ==> k in c0 || k.ExportKey? || k == ServerKey() || k == IdKey(UseServer)) &&
      (|done| == 0 ==> cache == c0 && body == []) &&
      (|done| > 0 ==> ServerKey() in cache) &&
      body == ImportIfUsed(c0, cache, ServerKey(), |done| > 0) + ServerReferences(done, Callee(cache, ServerKey()), serverId)
    }

    /** `once("export:" + local, ...)` on a miss: the callback's effect, and its value cached unless it throws. */
    method OnceServerReference(localName: string, publicName: string) returns (failed: bool)
      requires CacheInvariant() && ExportKey(localName) !in cache
      modifies this`cache, this`uids, this`body
      ensures CacheInvariant() && Grows(old(cache), cache)
      ensures failed <==> publicName == "default"
      ensures ServerKey() in cache && (ExportKey(localName) in cache <==> !failed)
      ensures forall k :: k in cache ==> k in old(cache) || k == ExportKey(localName) || k == ServerKey() || k == IdKey(UseServer)
      ensures !failed ==> body == AddedImports(old(cache), cache, [ServerKey()]) + old(body) +
                                 [ServerReferenceExport(publicName, cache[ServerKey()], serverId)]
    {
      var v := Once(ExportKey(localName), EmitServerReference(publicName));
      failed := v.Err?;
    }

    /** One `once("export:" + local, ...)` that misses: an error for `default`, else the reference appended. */
    method ServerReferenceOnce(ghost c0: map<Key, string>, ghost done: seq<(string, string)>,
                               localName: string, publicName: string) returns (failed: bool)
      requires EmitState(c0, done) && localName !in Locals(done)
      modifies this`cache, this`uids, this`body
      ensures failed <==> publicName == "default"
      ensures !failed ==> EmitState(c0, done + [(publicName, localName)])
    {
      ghost var c := cache;
      ghost var b := body;
      failed := OnceServerReference(localName, publicName);
      if !failed {
        assert Grows(c0, cache) by {
          forall k | k in c0 ensures k in cache && cache[k] == c0[k] {
            assert k in c;
          }
        }
        LocalsSnoc(done, (publicName, localName));
        assert forall l :: ExportKey(l) in cache <==> l in Locals(done + [(publicName, localName)]);
        ServerReferenceStep(c0, c, cache, b, done, (publicName, localName), ServerKey(), serverId);
      }
    }

    /** One turn of the emission loop: nothing for a local handled before, otherwise the `once` callback. */
    method ServerReferenceIfNew(ghost c0: map<Key, string>, ghost done: seq<(string, string)>,
                                publicName: string, localName: string) returns (failed: bool, ghost done': seq<(string, string)>)
      requires EmitState(c0, done)
      modifies this`cache, this`uids, this`body
      ensures failed <==> ClientServerReferenceStep(Ok(done), (publicName, localName)).Err?
      ensures !failed ==> ClientServerReferenceStep(Ok(done), (publicName, localName)) == Ok(done')
      ensures !failed ==> EmitState(c0, done')
    {
      assert ExportKey(localName) in cache <==> localName in Locals(done);
      failed := false;
      done' := done;
      if ExportKey(localName) !in cache {
        failed := ServerReferenceOnce(c0, done, localName, publicName);
        done' := done + [(publicName, localName)];
      }
    }

    /** Where the emission loop stands before entry `i` of `es`. */
    ghost predicate EmitWalk(c0: map<Key, string>, es: seq<(string, string)>, i: nat, done: seq<(string, string)>)
      reads this
    {
      i <= |es| && ClientServerReferences(es[..i]) == Ok(done) && EmitState(c0, done)
    }

    /** The loop `for (const [publicName, localName] of namedExports)` of `post`, over the entries `es`. */
    method EmitServerReferencesFor(es: seq<(string, string)>) returns (r: Result<()>)
      requires CacheInvariant() && NoExportKeys(cache) && body == []
      modifies this`cache, this`uids, this`body
      ensures var refs := ClientServerReferences(es);
        (r.Err? <==> refs.Err?) && (r.Err? ==> r.message == DefaultServerMessage) &&
        (r.Ok? ==> EmitState(old(cache), refs.value))
    {
      ghost var done: seq<(string, string)> := [];
      var i := 0;
      assert body == [] + [];
      assert EmitWalk(old(cache), es, 0, done);
      while i < |es|
        invariant EmitWalk(old(cache), es, i, done)
      {
        ClientServerReferencesSnoc(es, i);
        var failed;
        failed, done := ServerReferenceIfNew(old(cache), done, es[i].0, es[i].1);
        if failed {
          ClientServerReferencesErr(es, i + 1);
          return Err(DefaultServerMessage);
        }
        i := i + 1;
      }
      assert es[..i] == es;
      return Ok(());
    }

    /**
     * `post`: nothing for a skipped module; the both-directives check; for a
     * "use server" module the directive removed, the body emptied and one
     * server reference per first entry of each local, with an error when such
     * an entry is public `default`; a "use client" module is left as the visit
     * left it.
     */
    method Post() returns (r: Result<()>)
      requires Valid()
      modifies this`cache, this`uids, this`body, this`directives
      ensures didSkip ==> r == Ok(()) && body == old(body) && directives == old(directives)
      ensures !didSkip && moduleUseClient && hasUseServer ==>
        r == Err(BothMessage) && body == old(body) && directives == old(directives)
      ensures !didSkip && !(moduleUseClient && hasUseServer) && moduleUseServer ==>
        var refs := ClientServerReferences(namedExports.Entries());
        directives == RemoveAll(old(directives), "use server") &&
        (r.Err? <==> refs.Err?) && (r.Err? ==> r.message == DefaultServerMessage) &&
        (r.Ok? ==> EmitState(map[], refs.value))
      ensures !didSkip && !(moduleUseClient && hasUseServer) && !moduleUseServer ==>
        r == Ok(()) && body == old(body) && directives == old(directives)
    {
      if didSkip {
        return Ok(());
      }
      if moduleUseClient && hasUseServer {
        return Err(BothMessage);
      }
      if moduleUseServer {
        directives := RemoveAll(directives, "use server");
        body := [];
        r := EmitServerReferencesFor(namedExports.Entries());
      } else {
        r := Ok(());
      }
    }

    /**
     * After a successful "use server" emission from an empty cache, the body is
     * one import of `importServer` (when anything was emitted) followed by
     * `export const <public> = <import>({}, <id>, "<public>")` for the first
     * entry of each local, in the order of the map; none of them is `default`.
     */
    lemma EmittedModule(entries: seq<(string, string)>)
      requires ClientServerReferences(entries).Ok? && EmitState(map[], ClientServerReferences(entries).value)
      ensures var refs := FirstPerLocal(entries);
        (refs == [] ==> body == []) &&
        (refs != [] ==>
           ServerKey() in cache &&
           body == [ImportStatement(importServer, cache[ServerKey()], importFrom)] +
                   ServerReferences(refs, cache[ServerKey()], serverId))
      ensures forall p :: p in FirstPerLocal(entries) ==> p.0 != "default"
    {
      ClientServerReferencesSpec(entries);
      EmittedBody(FirstPerLocal(entries));
    }

    /** The body an emission from an empty cache leaves. */
    lemma EmittedBody(refs: seq<(string, string)>)
      requires EmitState(map[], refs)
      ensures refs == [] ==> body == []
      ensures refs != [] ==>
        ServerKey() in cache &&
        body == [ImportStatement(importServer, cache[ServerKey()], importFrom)] +
                ServerReferences(refs, cache[ServerKey()], serverId)
    {
      if refs != [] {
        AddedImportsSnoc(map[], cache, [], ServerKey());
        assert [] + [ServerKey()] == [ServerKey()];
      }
    }
  }
}
