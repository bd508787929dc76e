/**
 * What the two Babel plugins, `src/server-transform.ts` and
 * `src/client-transform.ts`, have in common: reading the module directives,
 * tracking the exports in an insertion-ordered map, the keys of their `once`
 * caches, and the lists the final emission loops work through.
 */
module Tracking {
  import opened Common

  const BothMessage: string := "Cannot have both \"use client\" and \"use server\" in the same module"
  const DefaultServerMessage: string := "Cannot use default export with 'use server' at module scope."

  // ---------------------------------------------------------------------------
  // Module directives

  datatype Classification = Classification(useClient: bool, useServer: bool)

  /** The `for (const directive of path.node.directives)` loop of the `Program` visitor. */
  method ScanDirectives(directives: seq<string>) returns (c: Classification)
    ensures c.useClient <==> "use client" in directives
    ensures c.useServer <==> "use server" in directives
  {
    c := Classification(false, false);
    var i := 0;
    while i < |directives|
      invariant 0 <= i <= |directives|
      invariant c.useClient <==> "use client" in directives[..i]
      invariant c.useServer <==> "use server" in directives[..i]
    {
      var value := directives[i];
      assert directives[..i + 1] == directives[..i] + [value];
      if value == "use client" {
        c := c.(useClient := true);
      } else if value == "use server" {
        c := c.(useServer := true);
      }
      i := i + 1;
    }
    assert directives[..i] == directives;
  }

  /** The directives the `Program` visitor leaves: the detected directive removed, the others kept in order. */
  function StripDirectives(directives: seq<string>, c: Classification): seq<string> {
    var afterServer := if c.useServer then RemoveAll(directives, "use server") else directives;
    if c.useClient then RemoveAll(afterServer, "use client") else afterServer
  }

  /**
   * The `Program` visitor: a module with both directives is an error; otherwise
   * its classification and the directives that remain.
   */
  function ProgramVisit(directives: seq<string>, c: Classification): (r: Result<seq<string>>)
    requires c.useClient <==> "use client" in directives
    requires c.useServer <==> "use server" in directives
    ensures r.Err? <==> "use client" in directives && "use server" in directives
    ensures r.Err? ==> r.message == BothMessage
    ensures r.Ok? ==> forall x :: x in r.value <==> x in directives && x != "use client" && x != "use server"
  {
    if c.useClient && c.useServer then Err(BothMessage) else Ok(StripDirectives(directives, c))
  }

  /** Keeping the other directives also keeps their order. */
  lemma StripKeepsOrder(directives: seq<string>, c: Classification)
    requires c.useClient <==> "use client" in directives
    requires c.useServer <==> "use server" in directives
    requires !(c.useClient && c.useServer)
    ensures StripDirectives(directives, c) ==
      RemoveAll(directives, if c.useClient then "use client" else "use server")
  {
  }

  // ---------------------------------------------------------------------------
  // Export tracking

  /** A module export name: an identifier, or a string such as `export { a as "b c" }`. */
  datatype ModuleExportName = ExportedIdentifier(name: string) | ExportedString(value: string)

  /** A specifier of `export { ... }`; `OtherSpecifier` stands for `export * as ns` and `export v from`. */
  datatype Specifier = ExportSpecifier(local: string, exported: ModuleExportName) | OtherSpecifier

  /** A declarator; `id` is its name when its target is a plain identifier rather than a pattern. */
  datatype Declarator = Declarator(id: Option<string>)

  datatype Declaration =
    | VariableDeclaration(declarators: seq<Declarator>)
    | FunctionDeclaration(id: Option<string>)
    | OtherDeclaration

  function ExportedText(n: ModuleExportName): string {
    match n
    case ExportedIdentifier(name) => name
    case ExportedString(value) => value
  }

  /** The `(public, local)` pairs the specifiers set, in order. */
  function SpecifierWrites(specs: seq<Specifier>): seq<(string, string)> {
    if specs == [] then []
    else
      var n := |specs| - 1;
      SpecifierWrites(specs[..n]) +
      if specs[n].ExportSpecifier? then [(ExportedText(specs[n].exported), specs[n].local)] else []
  }

  /** The `(name, name)` pairs the declarators with identifier targets set, in order. */
  function DeclaratorWrites(ds: seq<Declarator>): seq<(string, string)> {
    if ds == [] then []
    else
      var n := |ds| - 1;
      DeclaratorWrites(ds[..n]) + if ds[n].id.Some? then [(ds[n].id.value, ds[n].id.value)] else []
  }

  function DeclarationWrites(decl: Option<Declaration>): seq<(string, string)> {
    if decl.None? then []
    else
      match decl.value
      case VariableDeclaration(ds) => DeclaratorWrites(ds)
      case FunctionDeclaration(id) => if id.Some? then [(id.value, id.value)] else []
      case OtherDeclaration => []
  }

  /** A specifier writes its public name with its local name, and nothing else writes. */
  lemma {:induction false} SpecifierWritesSpec(specs: seq<Specifier>)
    ensures forall w :: w in SpecifierWrites(specs) <==>
      exists i :: 0 <= i < |specs| && specs[i].ExportSpecifier? && w == (ExportedText(specs[i].exported), specs[i].local)
  {
    if specs != [] {
      var n := |specs| - 1;
      SpecifierWritesSpec(specs[..n]);
      assert forall i :: 0 <= i < n ==> specs[..n][i] == specs[i];
    }
  }

  /** An identifier declarator writes its name to itself, a pattern writes nothing. */
  lemma {:induction false} DeclaratorWritesSpec(ds: seq<Declarator>)
    ensures forall w :: w in DeclaratorWrites(ds) <==>
      exists i :: 0 <= i < |ds| && ds[i].id.Some? && w == (ds[i].id.value, ds[i].id.value)
  {
    if ds != [] {
      var n := |ds| - 1;
      DeclaratorWritesSpec(ds[..n]);
      assert forall i :: 0 <= i < n ==> ds[..n][i] == ds[i];
    }
  }

  /** Declarations only ever map a name to itself. */
  lemma DeclarationWritesSelf(decl: Option<Declaration>)
    ensures forall w :: w in DeclarationWrites(decl) ==> w.0 == w.1
  {
    if decl.Some? && decl.value.VariableDeclaration? {
      DeclaratorWritesSpec(decl.value.declarators);
    }
  }

  lemma PutAllSnoc(m: OrderedMap, ws: seq<(string, string)>, w: (string, string))
    requires m.Valid()
    ensures PutAll(m, ws + [w]) == PutAll(m, ws).Put(w.0, w.1)
  {
    assert (ws + [w])[..|ws|] == ws;
  }

  lemma SpecifierWritesStep(specs: seq<Specifier>, i: nat)
    requires i < |specs|
    ensures SpecifierWrites(specs[..i + 1]) == SpecifierWrites(specs[..i]) +
      if specs[i].ExportSpecifier? then [(ExportedText(specs[i].exported), specs[i].local)] else []
  {
    assert specs[..i + 1][..i] == specs[..i];
  }

  lemma DeclaratorWritesStep(ds: seq<Declarator>, j: nat)
    requires j < |ds|
    ensures DeclaratorWrites(ds[..j + 1]) == DeclaratorWrites(ds[..j]) +
      if ds[j].id.Some? then [(ds[j].id.value, ds[j].id.value)] else []
  {
    assert ds[..j + 1][..j] == ds[..j];
  }

  /**
   * The `ExportNamedDeclaration` visitor: every specifier sets its public name
   * to its local name, then every identifier declarator, or the named function
   * declaration, sets its name to itself.
   */
  method TrackNamedExport(m: OrderedMap, specs: seq<Specifier>, decl: Option<Declaration>) returns (r: OrderedMap)
    requires m.Valid()
    ensures r == PutAll(PutAll(m, SpecifierWrites(specs)), DeclarationWrites(decl))
  {
    r := TrackSpecifiers(m, specs);
    r := TrackDeclaration(r, decl);
  }

  /** The loop over `node.specifiers`. */
  method TrackSpecifiers(m: OrderedMap, specs: seq<Specifier>) returns (r: OrderedMap)
    requires m.Valid()
    ensures r == PutAll(m, SpecifierWrites(specs))
  {
    r := m;
    var i := 0;
    while i < |specs|
      invariant 0 <= i <= |specs|
      invariant r == PutAll(m, SpecifierWrites(specs[..i]))
    {
      var specifier := specs[i];
      ghost var before := SpecifierWrites(specs[..i]);
      SpecifierWritesStep(specs, i);
      if specifier.ExportSpecifier? {
        var exp := ExportedText(specifier.exported);
        PutAllSnoc(m, before, (exp, specifier.local));
        r := r.Put(exp, specifier.local);
      } else {
        assert before + [] == before;
      }
      i := i + 1;
    }
    assert specs[..i] == specs;
  }

  /** The loop over the declarators of `node.declaration`, or its function name. */
  method TrackDeclaration(m: OrderedMap, decl: Option<Declaration>) returns (r: OrderedMap)
    requires m.Valid()
    ensures r == PutAll(m, DeclarationWrites(decl))
  {
    r := m;
    if decl.Some? && decl.value.VariableDeclaration? {
      var ds := decl.value.declarators;
      var j := 0;
      while j < |ds|
        invariant 0 <= j <= |ds|
        invariant r == PutAll(m, DeclaratorWrites(ds[..j]))
      {
        var declaration := ds[j];
        ghost var before := DeclaratorWrites(ds[..j]);
        DeclaratorWritesStep(ds, j);
        if declaration.id.Some? {
          PutAllSnoc(m, before, (declaration.id.value, declaration.id.value));
          r := r.Put(declaration.id.value, declaration.id.value);
        } else {
          assert before + [] == before;
        }
        j := j + 1;
      }
      assert ds[..j] == ds;
    } else if decl.Some? && decl.value.FunctionDeclaration? {
      if decl.value.id.Some? {
        var name := decl.value.id.value;
        PutAllSnoc(m, [], (name, name));
        r := r.Put(name, name);
      }
    }
  }

  /**
   * The map after an `ExportNamedDeclaration`: a name already exported keeps
   * its position, a new one goes last; each name holds the last local written for it.
   */
  lemma TrackNamedExportSpec(m: OrderedMap, specs: seq<Specifier>, decl: Option<Declaration>)
    requires m.Valid()
    ensures var ws := SpecifierWrites(specs) + DeclarationWrites(decl);
      var r := PutAll(PutAll(m, SpecifierWrites(specs)), DeclarationWrites(decl));
      r.keys == Dedup(Dedup(m.keys + Firsts(SpecifierWrites(specs))) + Firsts(DeclarationWrites(decl))) &&
      (forall k :: k in Firsts(DeclarationWrites(decl)) ==> r.values[k] == k) &&
      (forall k :: k in Firsts(SpecifierWrites(specs)) && k !in Firsts(DeclarationWrites(decl)) ==>
        LastWrite(SpecifierWrites(specs), k) == Some(r.values[k])) &&
      (forall k :: k !in Firsts(ws) ==> (k in r.values <==> k in m.values) && (k in m.values ==> r.values[k] == m.values[k]))
  {
    var a := SpecifierWrites(specs);
    var b := DeclarationWrites(decl);
    var m1 := PutAll(m, a);
    PutAllSpec(m, a);
    PutAllSpec(m1, b);
    DeclarationWritesSelf(decl);
    forall k | k in Firsts(b) ensures PutAll(m1, b).values[k] == k {
      LastWriteSelf(b, k);
    }
    forall k | k !in Firsts(a + b) ensures k !in Firsts(a) && k !in Firsts(b) {
      FirstsAppend(a, b);
    }
  }

  /** `ExportDefaultDeclaration` / `ExportDefaultSpecifier`: recorded as `default` only in a "use client" module. */
  function TrackDefaultExport(m: OrderedMap, moduleUseClient: bool): (r: OrderedMap)
    requires m.Valid()
    ensures r.Valid()
    ensures !moduleUseClient ==> r == m
  {
    if moduleUseClient then m.Put("default", "default") else m
  }

  lemma TrackDefaultExportSpec(m: OrderedMap)
    requires m.Valid()
    ensures "default" in TrackDefaultExport(m, true).values
    ensures TrackDefaultExport(m, true).values["default"] == "default"
    ensures TrackDefaultExport(m, true).keys == if "default" in m.values then m.keys else m.keys + ["default"]
  {
    m.PutSpec("default", "default");
  }

  // ---------------------------------------------------------------------------
  // The `once` cache keys

  /**
   * The keys the transforms pass to `once`: `id:<file>:<directive>`,
   * `import { <name> } from "<source>"`, `defineBoundArgsWrapperHelper` and
   * `export:<local>`.
   */
  datatype Key = IdKey(directive: Dir) | ImportKey(name: string, source: string) | HelperKey | ExportKey(local: string)

  // ---------------------------------------------------------------------------
  // The final emission loops

  /** The local names already handled by a `once("export:<local>")` in `pairs`. */
  function Locals(pairs: seq<(string, string)>): set<string> {
    set i | 0 <= i < |pairs| :: pairs[i].1
  }

  lemma LocalsMember(ps: seq<(string, string)>, i: nat)
    requires i < |ps|
    ensures ps[i].1 in Locals(ps)
  {
  }

  lemma LocalsSnoc(ps: seq<(string, string)>, p: (string, string))
    ensures Locals(ps + [p]) == Locals(ps) + {p.1}
  {
    var r := ps + [p];
    forall x | x in Locals(r) ensures x in Locals(ps) + {p.1} {
      var i :| 0 <= i < |r| && r[i].1 == x;
      if i < |ps| {
        assert ps[i].1 == x;
      }
    }
    forall x | x in Locals(ps) + {p.1} ensures x in Locals(r) {
      if x == p.1 {
        assert r[|ps|].1 == x;
      } else {
        var i :| 0 <= i < |ps| && ps[i].1 == x;
        assert r[i].1 == x;
      }
    }
  }

  /**
   * The `(public, local)` entries a loop `once("export:" + local, ...)` acts on:
   * for each local name, the first entry that names it, in map order.
   */
  function FirstPerLocal(entries: seq<(string, string)>): seq<(string, string)> {
    if entries == [] then []
    else
      var n := |entries| - 1;
      var done := FirstPerLocal(entries[..n]);
      if entries[n].1 in Locals(done) then done else done + [entries[n]]
  }

  lemma FirstPerLocalSnoc(xs: seq<(string, string)>, e: (string, string))
    ensures FirstPerLocal(xs + [e]) ==
      if e.1 in Locals(FirstPerLocal(xs)) then FirstPerLocal(xs) else FirstPerLocal(xs) + [e]
  {
    assert (xs + [e])[..|xs|] == xs;
  }

  lemma FirstPerLocalAdvance(es: seq<(string, string)>, i: nat)
    requires i < |es|
    ensures FirstPerLocal(es[..i + 1]) ==
      if es[i].1 in Locals(FirstPerLocal(es[..i])) then FirstPerLocal(es[..i]) else FirstPerLocal(es[..i]) + [es[i]]
  {
    assert es[..i + 1][..i] == es[..i];
  }

  /**
   * The entries acted on have distinct locals, are exactly the locals of the
   * map, and each is the first entry naming its local.
   */
  lemma FirstPerLocalSpec(entries: seq<(string, string)>)
    ensures var r := FirstPerLocal(entries);
      Locals(r) == Locals(entries) &&
      (forall i, j :: 0 <= i < j < |r| ==> r[i].1 != r[j].1) &&
      (forall i :: 0 <= i < |r| ==>
         exists k :: 0 <= k < |entries| && entries[k] == r[i] && (forall k' :: 0 <= k' < k ==> entries[k'].1 != r[i].1))
  {
    FirstPerLocalLocals(entries);
    FirstPerLocalDistinct(entries);
    FirstPerLocalFirst(entries);
  }

  lemma {:induction false} FirstPerLocalLocals(entries: seq<(string, string)>)
    ensures Locals(FirstPerLocal(entries)) == Locals(entries)
  {
    if entries != [] {
      var n := |entries| - 1;
      var pre := entries[..n];
      FirstPerLocalLocals(pre);
      assert entries == pre + [entries[n]];
      LocalsSnoc(pre, entries[n]);
      if entries[n].1 !in Locals(FirstPerLocal(pre)) {
        LocalsSnoc(FirstPerLocal(pre), entries[n]);
      }
    }
  }

  lemma {:induction false} FirstPerLocalDistinct(entries: seq<(string, string)>)
    ensures DistinctLocals(FirstPerLocal(entries))
  {
    if entries != [] {
      var n := |entries| - 1;
      var done := FirstPerLocal(entries[..n]);
      FirstPerLocalDistinct(entries[..n]);
      forall i | 0 <= i < |done| ensures done[i].1 in Locals(done) {
        LocalsMember(done, i);
      }

    }
  }

  /** No local name twice among `r`. */
  predicate DistinctLocals(r: seq<(string, string)>) {
    forall i, j :: 0 <= i < j < |r| ==> r[i].1 != r[j].1
  }

  /** Each of `r` is an entry with no earlier entry for the same local. */
  predicate FirstEntries(entries: seq<(string, string)>, r: seq<(string, string)>) {
    forall i :: 0 <= i < |r| ==>
      exists k :: 0 <= k < |entries| && entries[k] == r[i] && (forall k' :: 0 <= k' < k ==> entries[k'].1 != r[i].1)
  }

  lemma {:induction false} FirstPerLocalFirst(entries: seq<(string, string)>)
    ensures FirstEntries(entries, FirstPerLocal(entries))
  {
    if entries != [] {
      var n := |entries| - 1;
      var pre := entries[..n];
      var done := FirstPerLocal(pre);
      var r := FirstPerLocal(entries);
      FirstPerLocalFirst(pre);
      assert r == if entries[n].1 in Locals(done) then done else done + [entries[n]];
      forall i | 0 <= i < |r|
        ensures exists k :: 0 <= k < |entries| && entries[k] == r[i] && (forall k' :: 0 <= k' < k ==> entries[k'].1 != r[i].1)
      {
        if i < |done| {
          assert r[i] == done[i];
          var k :| 0 <= k < |pre| && pre[k] == done[i] && (forall k' :: 0 <= k' < k ==> pre[k'].1 != done[i].1);
          assert entries[k] == r[i];
          assert forall k' :: 0 <= k' < k ==> entries[k'] == pre[k'];
        } else {
          FirstPerLocalLocals(pre);
          forall k' | 0 <= k' < n ensures entries[k'].1 != r[i].1 {
            LocalsMember(pre, k');
          }
        }
      }
    }
  }

  /**
   * The `(local, public)` pairs registered by the "use server" emission of the
   * server transform: entries whose local is not a top-level function are
   * skipped; a `default` public name among the others is an error, even for a
   * local already registered; otherwise the first public name per local.
   */
  function ServerRegistrations(entries: seq<(string, string)>, functions: set<string>): Result<seq<(string, string)>> {
    if entries == [] then Ok([])
    else
      var n := |entries| - 1;
      ServerRegistrationStep(ServerRegistrations(entries[..n], functions), entries[n], functions)
  }

  /** One turn of the "use server" emission loop of the server transform, on the entry `e`. */
  function ServerRegistrationStep(done: Result<seq<(string, string)>>, e: (string, string), functions: set<string>)
    : Result<seq<(string, string)>>
  {
    if done.Err? then done
    else if e.1 !in functions then done
    else if e.0 == "default" then Err(DefaultServerMessage)
    else if e.1 in Locals(done.value) then done
    else Ok(done.value + [e])
  }

  lemma ServerRegistrationsSnoc(entries: seq<(string, string)>, functions: set<string>, i: nat)
    requires i < |entries|
    ensures ServerRegistrations(entries[..i + 1], functions) ==
            ServerRegistrationStep(ServerRegistrations(entries[..i], functions), entries[i], functions)
  {
    assert entries[..i + 1][..i] == entries[..i];
  }

  /** Once the loop has failed it stays failed. */
  lemma {:induction false} ServerRegistrationsErr(entries: seq<(string, string)>, functions: set<string>, i: nat)
    requires i <= |entries| && ServerRegistrations(entries[..i], functions).Err?
    ensures ServerRegistrations(entries, functions) == ServerRegistrations(entries[..i], functions)
    decreases |entries| - i
  {
    if i < |entries| {
      assert entries[..i + 1][..i] == entries[..i];
      ServerRegistrationsErr(entries, functions, i + 1);
    } else {
      assert entries[..i] == entries;
    }
  }

  /** The entries whose local name is a top-level function, in order. */
  function OnlyFunctions(entries: seq<(string, string)>, functions: set<string>): seq<(string, string)> {
    if entries == [] then []
    else
      var n := |entries| - 1;
      OnlyFunctions(entries[..n], functions) + if entries[n].1 in functions then [entries[n]] else []
  }

  /**
   * The registrations fail exactly when a top-level function is exported as
   * `default`; otherwise they are the first entry per local among the entries
   * whose local is a top-level function.
   */
  lemma {:induction false} ServerRegistrationsSpec(entries: seq<(string, string)>, functions: set<string>)
    ensures ServerRegistrations(entries, functions).Err? <==>
      exists i :: 0 <= i < |entries| && entries[i].1 in functions && entries[i].0 == "default"
    ensures ServerRegistrations(entries, functions).Ok? ==>
      ServerRegistrations(entries, functions).value == FirstPerLocal(OnlyFunctions(entries, functions))
  {
    if entries != [] {
      var n := |entries| - 1;
      var pre := entries[..n];
      var e := entries[n];
      ServerRegistrationsSpec(pre, functions);
      assert forall i :: 0 <= i < n ==> pre[i] == entries[i];
      var only := OnlyFunctions(pre, functions);
      if e.1 in functions {
        assert OnlyFunctions(entries, functions) == only + [e];
        FirstPerLocalSnoc(only, e);
      } else {
        assert OnlyFunctions(entries, functions) == only + [];
        assert only + [] == only;
      }
    }
  }

  /**
   * The "use server" emission of the client transform: the first entry per
   * local name, where an entry reached with the public name `default` is an
   * error. Unlike the server transform's check, the check sits inside the
   * `once`, so an entry whose local was handled before is skipped unchecked.
   */
  function ClientServerReferences(entries: seq<(string, string)>): Result<seq<(string, string)>> {
    if entries == [] then Ok([])
    else
      var n := |entries| - 1;
      ClientServerReferenceStep(ClientServerReferences(entries[..n]), entries[n])
  }

  /** One turn of the "use server" emission loop of the client transform, on the entry `e`. */
  function ClientServerReferenceStep(done: Result<seq<(string, string)>>, e: (string, string)): Result<seq<(string, string)>> {
    if done.Err? then done
    else if e.1 in Locals(done.value) then done
    else if e.0 == "default" then Err(DefaultServerMessage)
    else Ok(done.value + [e])
  }

  lemma ClientServerReferencesSnoc(entries: seq<(string, string)>, i: nat)
    requires i < |entries|
    ensures ClientServerReferences(entries[..i + 1]) ==
            ClientServerReferenceStep(ClientServerReferences(entries[..i]), entries[i])
  {
    assert entries[..i + 1][..i] == entries[..i];
  }

  lemma {:induction false} ClientServerReferencesErr(entries: seq<(string, string)>, i: nat)
    requires i <= |entries| && ClientServerReferences(entries[..i]).Err?
    ensures ClientServerReferences(entries) == ClientServerReferences(entries[..i])
    decreases |entries| - i
  {
    if i < |entries| {
      assert entries[..i + 1][..i] == entries[..i];
      ClientServerReferencesErr(entries, i + 1);
    } else {
      assert entries[..i] == entries;
    }
  }

  /**
   * The client transform's "use server" emission fails exactly when the first
   * entry for some local is public `default`; otherwise it acts on the first
   * entry per local.
   */
  lemma {:induction false} ClientServerReferencesSpec(entries: seq<(string, string)>)
    ensures ClientServerReferences(entries).Err? <==>
      exists p :: p in FirstPerLocal(entries) && p.0 == "default"
    ensures ClientServerReferences(entries).Ok? ==> ClientServerReferences(entries).value == FirstPerLocal(entries)
  {
    if entries != [] {
      var n := |entries| - 1;
      var pre := entries[..n];
      var e := entries[n];
      ClientServerReferencesSpec(pre);
      assert entries == pre + [e];
      FirstPerLocalSnoc(pre, e);
    }
  }

  /**
   * `export { a, a as default }` in a "use server" module where `a` is a
   * top-level function: the server transform rejects it, the client transform
   * emits `a` alone.
   */
  lemma DefaultAliasOfEmittedLocal()
    ensures ServerRegistrations([("a", "a"), ("default", "a")], {"a"}) == Err(DefaultServerMessage)
    ensures ClientServerReferences([("a", "a"), ("default", "a")]) == Ok([("a", "a")])
  {
    var es := [("a", "a"), ("default", "a")];
    assert es[..1] == [("a", "a")];
    assert es[..1][..0] == [];
    LocalsSnoc([], ("a", "a"));
    assert [] + [("a", "a")] == [("a", "a")];
  }
}
