/**
 * What the export scanner promises, stated over `ParseProgram`.
 */
module ParseProps {
  import opened Common
  import opened Ast
  import opened Parse

  // ---------------------------------------------------------------------------
  // The walk over `program.body`

  /** A walk that succeeds succeeded on every node, and holds what each node added. */
  lemma {:induction false} ScanBodyNode(pd: set<Dir>, body: seq<Body>, k: nat)
    requires ScanBody(pd, body).Ok? && k < |body|
    ensures NodeEffect(pd, body[k]).Ok?
    ensures NodeEffect(pd, body[k]).value.dirs <= ScanBody(pd, body).value.dirs
    ensures forall w :: w in NodeEffect(pd, body[k]).value.writes ==> w in ScanBody(pd, body).value.writes
    decreases k
  {
    if k > 0 {
      ScanBodyNode(pd, body[1..], k - 1);
      assert body[1..][k - 1] == body[k];
    }
  }

  /** The walk fails with the error of the first node that fails. */
  lemma {:induction false} ScanBodyFirstError(pd: set<Dir>, body: seq<Body>, k: nat)
    requires k < |body|
    requires forall i :: 0 <= i < k ==> NodeEffect(pd, body[i]).Ok?
    requires NodeEffect(pd, body[k]).Err?
    ensures ScanBody(pd, body) == Err(NodeEffect(pd, body[k]).message)
    decreases k
  {
    if k > 0 {
      assert forall i :: 0 <= i < k - 1 ==> body[1..][i] == body[i + 1];
      ScanBodyFirstError(pd, body[1..], k - 1);
    }
  }

  /** The directives the walk collects all come from some node. */
  lemma {:induction false} ScanBodyDirsFromNodes(pd: set<Dir>, body: seq<Body>, d: Dir)
    requires ScanBody(pd, body).Ok? && d in ScanBody(pd, body).value.dirs
    ensures exists k :: 0 <= k < |body| && NodeEffect(pd, body[k]).Ok? && d in NodeEffect(pd, body[k]).value.dirs
  {
    var e := NodeEffect(pd, body[0]).value;
    if d !in e.dirs {
      ScanBodyDirsFromNodes(pd, body[1..], d);
      var k :| 0 <= k < |body[1..]| && NodeEffect(pd, body[1..][k]).Ok? && d in NodeEffect(pd, body[1..][k]).value.dirs;
      assert body[1..][k] == body[k + 1];
    }
  }

  // ---------------------------------------------------------------------------
  // Declarators and specifiers

  /** A succeeding declarator list succeeded on each declarator, and holds what each added. */
  lemma {:induction false} DeclaratorsItem(pd: set<Dir>, decls: seq<VariableDeclarator>, j: nat)
    requires DeclaratorsEffect(pd, decls).Ok? && j < |decls|
    ensures DeclaratorEffect(pd, decls[j]).Ok?
    ensures DeclaratorEffect(pd, decls[j]).value.dirs <= DeclaratorsEffect(pd, decls).value.dirs
    ensures forall w :: w in DeclaratorEffect(pd, decls[j]).value.writes ==> w in DeclaratorsEffect(pd, decls).value.writes
    decreases j
  {
    if j > 0 {
      DeclaratorsItem(pd, decls[1..], j - 1);
      assert decls[1..][j - 1] == decls[j];
    }
  }

  /** Every write of a succeeding declarator list records a name as itself. */
  lemma {:induction false} DeclaratorsWriteSelf(pd: set<Dir>, decls: seq<VariableDeclarator>)
    requires DeclaratorsEffect(pd, decls).Ok?
    ensures forall w :: w in DeclaratorsEffect(pd, decls).value.writes ==> w.0 == w.1
  {
    if decls != [] {
      DeclaratorsWriteSelf(pd, decls[1..]);
    }
  }

  /**
   * The specifiers of `export { l as e, ... }` write `e -> l` for each, in order,
   * whatever the directives; the first one with an empty local name is an error.
   */
  lemma {:induction false} SpecifierWritesSpec(specs: seq<ExportSpecifier>)
    ensures SpecifierWrites(specs).Ok? <==> forall j :: 0 <= j < |specs| ==> specs[j].local.name != ""
    ensures SpecifierWrites(specs).Ok? ==>
      var e := SpecifierWrites(specs).value;
      e.dirs == {} && |e.writes| == |specs| &&
      forall j :: 0 <= j < |specs| ==> e.writes[j] == (specs[j].exported.name, specs[j].local.name)
    ensures forall j :: 0 <= j < |specs| && specs[j].local.name == "" && (forall i :: 0 <= i < j ==> specs[i].local.name != "") ==>
      SpecifierWrites(specs) == Err(NoLocalMessage(specs[j].exported.name))
  {
    if specs != [] {
      var tail := specs[1..];
      SpecifierWritesSpec(tail);
      assert forall j :: 0 < j < |specs| ==> specs[j] == tail[j - 1];
      if specs[0].local.name != "" {
        forall j | 0 <= j < |specs| && specs[j].local.name == "" && (forall i :: 0 <= i < j ==> specs[i].local.name != "")
          ensures SpecifierWrites(specs) == Err(NoLocalMessage(specs[j].exported.name))
        {
          assert j > 0;
          assert forall i :: 0 <= i < j - 1 ==> tail[i].local.name != "" by {
            forall i | 0 <= i < j - 1 ensures tail[i].local.name != "" {
              assert tail[i] == specs[i + 1];
            }
          }
        }
      }
    }
  }

  /** A succeeding `export function name` adds exactly its scope's directives and writes `name -> name`. */
  lemma ExportedFunctionNode(pd: set<Dir>, name: string, body: Option<FunctionBody>, specs: Option<seq<ExportSpecifier>>)
    requires pd + Recognised(BodyDirectives(body)) != {}
    requires NodeEffect(pd, ExportNamedDeclaration(Some(FunctionDeclaration(Some(BindingIdentifier(name)), body)), specs)).Ok?
    ensures var e := NodeEffect(pd, ExportNamedDeclaration(Some(FunctionDeclaration(Some(BindingIdentifier(name)), body)), specs)).value;
      e.dirs == pd + Recognised(BodyDirectives(body)) && (name, name) in e.writes
  {
    var a := Annotated(pd, BodyDirectives(body), name);
    assert a.Ok?;
    if specs.Some? {
      SpecifierWritesSpec(specs.value);
    }
  }

  /** A succeeding `export const ...` holds what each of its declarators added. */
  lemma ExportedDeclaratorsNode(pd: set<Dir>, decls: seq<VariableDeclarator>, specs: Option<seq<ExportSpecifier>>)
    requires NodeEffect(pd, ExportNamedDeclaration(Some(VariableDeclaration(decls)), specs)).Ok?
    ensures DeclaratorsEffect(pd, decls).Ok?
    ensures var e := NodeEffect(pd, ExportNamedDeclaration(Some(VariableDeclaration(decls)), specs)).value;
      DeclaratorsEffect(pd, decls).value.dirs == e.dirs &&
      forall w :: w in DeclaratorsEffect(pd, decls).value.writes ==> w in e.writes
  {
    if specs.Some? {
      SpecifierWritesSpec(specs.value);
    }
  }

  // ---------------------------------------------------------------------------
  // From a node to the parse result

  /**
   * When the parse succeeds past the pre-check, every node was scanned without
   * error; a node that adds a directive makes that the module's directive, and
   * every name a node writes is a key of the resulting map.
   */
  lemma ParsedNode(source: string, program: Program, k: nat)
    requires HasQuotedDirective(source) && k < |program.body|
    requires ParseProgram(source, program).Ok?
    ensures NodeEffect(Recognised(program.directives), program.body[k]).Ok?
    ensures var e := NodeEffect(Recognised(program.directives), program.body[k]).value;
      var r := ParseProgram(source, program).value;
      (e.dirs != {} ==> r.Directed? && e.dirs == {r.directive}) &&
      (r.Directed? ==> forall w :: w in e.writes ==> w.0 in r.exports.values)
  {
    var pd := Recognised(program.directives);
    var all := ScanBody(pd, program.body).value;
    ScanBodyNode(pd, program.body, k);
    var e := NodeEffect(pd, program.body[k]).value;
    var r := ParseProgram(source, program).value;
    if e.dirs != {} {
      var x :| x in e.dirs;
      assert x in pd + all.dirs;
      assert e.dirs <= pd + all.dirs;
    }
    if r.Directed? {
      FromWritesSpec(all.writes);
      forall w | w in e.writes ensures w.0 in r.exports.values {
        assert w in all.writes;
        var i :| 0 <= i < |all.writes| && all.writes[i] == w;
        assert Firsts(all.writes)[i] == w.0;
      }
    }
  }

  // ---------------------------------------------------------------------------
  // The values the map ends up with

  /** What a statement writes into the map, when its scan succeeds. */
  function NodeWrites(pd: set<Dir>, node: Body): seq<(string, string)> {
    if NodeEffect(pd, node).Ok? then NodeEffect(pd, node).value.writes else []
  }

  /** The writes of the whole walk over the program's statements, when it succeeds. */
  function ScannedWrites(program: Program): seq<(string, string)> {
    var r := ScanBody(Recognised(program.directives), program.body);
    if r.Ok? then r.value.writes else []
  }

  /** No statement after the `k`-th writes the public name `a`. */
  predicate NotWrittenAfter(program: Program, k: nat, a: string) {
    forall i :: k < i < |program.body| ==> a !in Firsts(NodeWrites(Recognised(program.directives), program.body[i]))
  }

  /** A name no statement writes is not written by the walk. */
  lemma {:induction false} ScanBodyUnwritten(pd: set<Dir>, body: seq<Body>, a: string)
    requires ScanBody(pd, body).Ok?
    requires forall i :: 0 <= i < |body| ==> a !in Firsts(NodeWrites(pd, body[i]))
    ensures a !in Firsts(ScanBody(pd, body).value.writes)
  {
    if body != [] {
      assert forall i :: 0 <= i < |body| - 1 ==> body[1..][i] == body[i + 1];
      ScanBodyUnwritten(pd, body[1..], a);
      FirstsAppend(NodeWrites(pd, body[0]), ScanBody(pd, body[1..]).value.writes);
    }
  }

  /** The walk's last write of a name is the last write of the last statement that writes it. */
  lemma {:induction false} ScanBodyLastWrite(pd: set<Dir>, body: seq<Body>, k: nat, a: string)
    requires ScanBody(pd, body).Ok? && k < |body|
    requires a in Firsts(NodeWrites(pd, body[k]))
    requires forall i :: k < i < |body| ==> a !in Firsts(NodeWrites(pd, body[i]))
    ensures LastWrite(ScanBody(pd, body).value.writes, a) == LastWrite(NodeWrites(pd, body[k]), a)
    decreases k
  {
    var rest := ScanBody(pd, body[1..]).value.writes;
    assert forall i :: 0 <= i < |body| - 1 ==> body[1..][i] == body[i + 1];
    LastWriteAppend(NodeWrites(pd, body[0]), rest, a);
    if k == 0 {
      ScanBodyUnwritten(pd, body[1..], a);
      LastWriteMember(rest, a);
    } else {
      ScanBodyLastWrite(pd, body[1..], k - 1, a);
      LastWriteMember(NodeWrites(pd, body[k]), a);
    }
  }

  /**
   * A directed parse result holds the map the walk's writes build: keys in
   * first-write order, each with the value of its last write.
   */
  lemma DirectedExports(source: string, program: Program)
    requires HasQuotedDirective(source)
    requires ParseProgram(source, program).Ok? && ParseProgram(source, program).value.Directed?
    ensures var m := ParseProgram(source, program).value.exports;
      m.keys == Dedup(Firsts(ScannedWrites(program))) &&
      (forall a :: a in m.values <==> a in Firsts(ScannedWrites(program))) &&
      (forall a :: a in m.values ==> LastWrite(ScannedWrites(program), a) == Some(m.values[a]))
  {
    FromWritesSpec(ScannedWrites(program));
  }

  /**
   * A name that the `k`-th statement writes and no later statement writes ends
   * with the value of that statement's last write of it.
   */
  lemma RecordedValue(source: string, program: Program, k: nat, a: string)
    requires HasQuotedDirective(source) && k < |program.body|
    requires ParseProgram(source, program).Ok? && ParseProgram(source, program).value.Directed?
    requires a in Firsts(NodeWrites(Recognised(program.directives), program.body[k]))
    requires NotWrittenAfter(program, k, a)
    ensures a in ParseProgram(source, program).value.exports.values
    ensures LastWrite(NodeWrites(Recognised(program.directives), program.body[k]), a) ==
      Some(ParseProgram(source, program).value.exports.values[a])
  {
    var pd := Recognised(program.directives);
    DirectedExports(source, program);
    ScanBodyLastWrite(pd, program.body, k, a);
    LastWriteMember(NodeWrites(pd, program.body[k]), a);
    LastWriteMember(ScannedWrites(program), a);
  }

  /** Two recognised directives at program scope are an error. */
  lemma BothAtProgramScope(source: string, program: Program)
    requires HasQuotedDirective(source)
    requires Mentions(program.directives, "use client") && Mentions(program.directives, "use server")
    ensures ParseProgram(source, program) == Err(BothDirectivesMessage)
  {
    var pd := Recognised(program.directives);
    assert pd == {UseClient, UseServer};
  }

  /**
   * `export function name() { ... }`: when the program or the function body
   * carries a directive, the parse (if it succeeds) has a directive, taken from
   * those, and records `name`.
   */
  lemma ExportedFunctionRecorded(source: string, program: Program, k: nat,
                                 name: string, body: Option<FunctionBody>, specs: Option<seq<ExportSpecifier>>)
    requires HasQuotedDirective(source) && k < |program.body|
    requires program.body[k] == ExportNamedDeclaration(Some(FunctionDeclaration(Some(BindingIdentifier(name)), body)), specs)
    requires Recognised(program.directives) + Recognised(BodyDirectives(body)) != {}
    requires ParseProgram(source, program).Ok?
    ensures ParseProgram(source, program).value.Directed?
    ensures ParseProgram(source, program).value.directive in Recognised(program.directives) + Recognised(BodyDirectives(body))
    ensures name in ParseProgram(source, program).value.exports.values
    ensures LastWrite(ScannedWrites(program), name) == Some(ParseProgram(source, program).value.exports.values[name])
    ensures NotWrittenAfter(program, k, name) && (specs.Some? ==> forall s :: s in specs.value ==> s.exported.name != name) ==>
      ParseProgram(source, program).value.exports.values[name] == name
  {
    var pd := Recognised(program.directives);
    ParsedNode(source, program, k);
    ExportedFunctionNode(pd, name, body, specs);
    DirectedExports(source, program);
    if NotWrittenAfter(program, k, name) && (specs.Some? ==> forall s :: s in specs.value ==> s.exported.name != name) {
      var decl := Some(FunctionDeclaration(Some(BindingIdentifier(name)), body));
      NamedNodeWrites(pd, decl, specs);
      assert DeclarationEffect(pd, decl).value.writes == [(name, name)];
      assert LastWrite([(name, name)], name) == Some(name) by {
        LastWriteAt([(name, name)], name, 0);
      }
      SpecifiersUnwritten(specs, name);
      LastWriteBeforeUnwritten([(name, name)], SpecifierPart(specs), name, name);
      RecordedValue(source, program, k, name);
    }
  }

  /**
   * `export class name {}` (or a TypeScript type, interface or enum): when the
   * program carries a directive, the parse (if it succeeds) has a directive,
   * taken from the program's, and records `name` as the function case does.
   */
  lemma ExportedOtherRecorded(source: string, program: Program, k: nat,
                              name: string, specs: Option<seq<ExportSpecifier>>)
    requires HasQuotedDirective(source) && k < |program.body|
    requires program.body[k] == ExportNamedDeclaration(Some(UnknownDeclaration(Some(BindingIdentifier(name)))), specs)
    requires Recognised(program.directives) != {}
    requires ParseProgram(source, program).Ok?
    ensures ParseProgram(source, program).value.Directed?
    ensures ParseProgram(source, program).value.directive in Recognised(program.directives)
    ensures name in ParseProgram(source, program).value.exports.values
    ensures LastWrite(ScannedWrites(program), name) == Some(ParseProgram(source, program).value.exports.values[name])
    ensures (NotWrittenAfter(program, k, name) && (specs.Some? ==> forall s :: s in specs.value ==> s.exported.name != name)) ==>
      ParseProgram(source, program).value.exports.values[name] == name
  {
    var pd := Recognised(program.directives);
    ParsedNode(source, program, k);
    ExportedOtherNode(pd, name, specs);
    DirectedExports(source, program);
    if NotWrittenAfter(program, k, name) && (specs.Some? ==> forall s :: s in specs.value ==> s.exported.name != name) {
      RecordedValue(source, program, k, name);
    }
  }

  /**
   * A succeeding `export class name {}` adds exactly the program's directives
   * and writes `name -> name`, which stays its last write of `name` unless a
   * specifier exports `name` too.
   */
  lemma ExportedOtherNode(pd: set<Dir>, name: string, specs: Option<seq<ExportSpecifier>>)
    requires pd != {}
    requires NodeEffect(pd, ExportNamedDeclaration(Some(UnknownDeclaration(Some(BindingIdentifier(name)))), specs)).Ok?
    ensures var node := ExportNamedDeclaration(Some(UnknownDeclaration(Some(BindingIdentifier(name)))), specs);
      NodeEffect(pd, node).value.dirs == pd && (name, name) in NodeWrites(pd, node) &&
      name in Firsts(NodeWrites(pd, node)) &&
      ((specs.Some? ==> forall s :: s in specs.value ==> s.exported.name != name) ==>
         LastWrite(NodeWrites(pd, node), name) == Some(name))
  {
    var decl := Some(UnknownDeclaration(Some(BindingIdentifier(name))));
    assert Recognised([]) == {};
    assert DeclarationEffect(pd, decl).value == Effect(pd, [(name, name)]);
    NamedNodeWrites(pd, decl, specs);
    if specs.Some? {
      SpecifierWritesSpec(specs.value);
    }
    assert LastWrite([(name, name)], name) == Some(name) by {
      LastWriteAt([(name, name)], name, 0);
    }
    if specs.Some? ==> forall s :: s in specs.value ==> s.exported.name != name {
      SpecifiersUnwritten(specs, name);
      LastWriteBeforeUnwritten([(name, name)], SpecifierPart(specs), name, name);
    }
    LastWriteMember(NodeWrites(pd, ExportNamedDeclaration(decl, specs)), name);
  }

  /** The writes of an `export { ... }` list, if there is one and it succeeds. */
  function SpecifierPart(specs: Option<seq<ExportSpecifier>>): seq<(string, string)> {
    if specs.Some? && SpecifierWrites(specs.value).Ok? then SpecifierWrites(specs.value).value.writes else []
  }

  /** A succeeding `export <declaration> { ... }` writes the declaration's pairs, then the specifiers'. */
  lemma NamedNodeWrites(pd: set<Dir>, decl: Option<Declaration>, specs: Option<seq<ExportSpecifier>>)
    requires NodeEffect(pd, ExportNamedDeclaration(decl, specs)).Ok?
    ensures DeclarationEffect(pd, decl).Ok?
    ensures NodeWrites(pd, ExportNamedDeclaration(decl, specs)) == DeclarationEffect(pd, decl).value.writes + SpecifierPart(specs)
  {
    if specs.None? {
      assert DeclarationEffect(pd, decl).value.writes + [] == DeclarationEffect(pd, decl).value.writes;
    }
  }

  /** A name no specifier exports is not among the specifiers' writes. */
  lemma SpecifiersUnwritten(specs: Option<seq<ExportSpecifier>>, name: string)
    requires specs.Some? ==> forall s :: s in specs.value ==> s.exported.name != name
    ensures name !in Firsts(SpecifierPart(specs))
  {
    if specs.Some? && SpecifierWrites(specs.value).Ok? {
      SpecifierWritesSpec(specs.value);
    }
  }

  /**
   * In a succeeding `export const ...` whose specifiers do not export `name`, a
   * declarator's write of `name` is the statement's last write of it.
   */
  lemma DeclarationsNodeLastWrite(pd: set<Dir>, decls: seq<VariableDeclarator>, specs: Option<seq<ExportSpecifier>>,
                                  name: string)
    requires NodeEffect(pd, ExportNamedDeclaration(Some(VariableDeclaration(decls)), specs)).Ok?
    requires DeclaratorsEffect(pd, decls).Ok? && (name, name) in DeclaratorsEffect(pd, decls).value.writes
    requires specs.Some? ==> forall s :: s in specs.value ==> s.exported.name != name
    ensures name in Firsts(NodeWrites(pd, ExportNamedDeclaration(Some(VariableDeclaration(decls)), specs)))
    ensures LastWrite(NodeWrites(pd, ExportNamedDeclaration(Some(VariableDeclaration(decls)), specs)), name) == Some(name)
  {
    var declWrites := DeclaratorsEffect(pd, decls).value.writes;
    NamedNodeWrites(pd, Some(VariableDeclaration(decls)), specs);
    LastWriteMember(declWrites, name);
    DeclaratorsWriteSelf(pd, decls);
    LastWriteSelf(declWrites, name);
    SpecifiersUnwritten(specs, name);
    LastWriteBeforeUnwritten(declWrites, SpecifierPart(specs), name, name);
  }

  /**
   * `export const ..., name = <init>, ...`: when the program or the body of the
   * initialising function carries a directive, the parse (if it succeeds) has a
   * directive, taken from those, and records `name`.
   */
  lemma ExportedDeclaratorRecorded(source: string, program: Program, k: nat,
                                   decls: seq<VariableDeclarator>, specs: Option<seq<ExportSpecifier>>, j: nat)
    requires HasQuotedDirective(source) && k < |program.body| && j < |decls|
    requires program.body[k] == ExportNamedDeclaration(Some(VariableDeclaration(decls)), specs)
    requires Recognised(program.directives) + Recognised(InitDirectives(decls[j].init)) != {}
    requires ParseProgram(source, program).Ok?
    ensures ParseProgram(source, program).value.Directed?
    ensures ParseProgram(source, program).value.directive in Recognised(program.directives) + Recognised(InitDirectives(decls[j].init))
    ensures decls[j].id.kind.name in ParseProgram(source, program).value.exports.values
    ensures LastWrite(ScannedWrites(program), decls[j].id.kind.name) ==
      Some(ParseProgram(source, program).value.exports.values[decls[j].id.kind.name])
    ensures (NotWrittenAfter(program, k, decls[j].id.kind.name) &&
             (specs.Some? ==> forall s :: s in specs.value ==> s.exported.name != decls[j].id.kind.name)) ==>
      ParseProgram(source, program).value.exports.values[decls[j].id.kind.name] == decls[j].id.kind.name
  {
    var pd := Recognised(program.directives);
    ParsedNode(source, program, k);
    ExportedDeclaratorsNode(pd, decls, specs);
    DeclaratorsItem(pd, decls, j);
    var name := decls[j].id.kind.name;
    assert (name, name) in DeclaratorEffect(pd, decls[j]).value.writes;
    var fs := pd + Recognised(InitDirectives(decls[j].init));
    assert fs == DeclaratorEffect(pd, decls[j]).value.dirs;
    var x :| x in fs;
    DirectedExports(source, program);
    if NotWrittenAfter(program, k, name) && (specs.Some? ==> forall s :: s in specs.value ==> s.exported.name != name) {
      assert (name, name) in DeclaratorsEffect(pd, decls).value.writes;
      DeclarationsNodeLastWrite(pd, decls, specs, name);
      RecordedValue(source, program, k, name);
    }
  }

  /**
   * Without a directive at program scope or in its body, an exported function
   * contributes only what its specifiers do: it is not recorded.
   */
  lemma UnannotatedFunctionIgnored(pd: set<Dir>, id: BindingIdentifier, body: Option<FunctionBody>,
                                   specs: Option<seq<ExportSpecifier>>)
    requires pd + Recognised(BodyDirectives(body)) == {}
    ensures NodeEffect(pd, ExportNamedDeclaration(Some(FunctionDeclaration(Some(id), body)), specs)) ==
      if specs.None? then Ok(NoEffect) else SpecifierWrites(specs.value)
  {
    if specs.Some? {
      ThenNoEffect(SpecifierWrites(specs.value));
    }
  }

  /** Without a directive at program scope, an exported class or type declaration is not recorded either. */
  lemma UnannotatedOtherIgnored(pd: set<Dir>, id: BindingIdentifier, specs: Option<seq<ExportSpecifier>>)
    requires pd == {}
    ensures NodeEffect(pd, ExportNamedDeclaration(Some(UnknownDeclaration(Some(id))), specs)) ==
      if specs.None? then Ok(NoEffect) else SpecifierWrites(specs.value)
  {
    assert Recognised([]) == {};
    if specs.Some? {
      ThenNoEffect(SpecifierWrites(specs.value));
    }
  }

  /** The same for an exported declarator whose initialiser carries no directive. */
  lemma UnannotatedDeclaratorIgnored(pd: set<Dir>, d: VariableDeclarator)
    requires pd + Recognised(InitDirectives(d.init)) == {}
    ensures DeclaratorEffect(pd, d) == Ok(NoEffect)
  {
  }

  /** In a succeeding statement, the last specifier exporting a name gives that statement's last write of it. */
  lemma SpecifierNodeLastWrite(pd: set<Dir>, decl: Option<Declaration>, specs: seq<ExportSpecifier>, j: nat)
    requires NodeEffect(pd, ExportNamedDeclaration(decl, Some(specs))).Ok? && j < |specs|
    requires forall i :: j < i < |specs| ==> specs[i].exported.name != specs[j].exported.name
    ensures specs[j].exported.name in Firsts(NodeWrites(pd, ExportNamedDeclaration(decl, Some(specs))))
    ensures LastWrite(NodeWrites(pd, ExportNamedDeclaration(decl, Some(specs))), specs[j].exported.name) ==
      Some(specs[j].local.name)
  {
    var a := specs[j].exported.name;
    var specWrites := SpecifierPart(Some(specs));
    NamedNodeWrites(pd, decl, Some(specs));
    SpecifierWritesSpec(specs);
    LastWriteAt(specWrites, a, j);
    LastWriteAppend(DeclarationEffect(pd, decl).value.writes, specWrites, a);
    LastWriteMember(NodeWrites(pd, ExportNamedDeclaration(decl, Some(specs))), a);
  }

  /** `export { l as e }` records `e`, whatever the directives. */
  lemma SpecifierRecorded(source: string, program: Program, k: nat,
                          decl: Option<Declaration>, specs: seq<ExportSpecifier>, j: nat)
    requires HasQuotedDirective(source) && k < |program.body| && j < |specs|
    requires program.body[k] == ExportNamedDeclaration(decl, Some(specs))
    requires ParseProgram(source, program).Ok? && ParseProgram(source, program).value.Directed?
    ensures specs[j].exported.name in ParseProgram(source, program).value.exports.values
    ensures LastWrite(ScannedWrites(program), specs[j].exported.name) ==
      Some(ParseProgram(source, program).value.exports.values[specs[j].exported.name])
    ensures (NotWrittenAfter(program, k, specs[j].exported.name) &&
             (forall i :: j < i < |specs| ==> specs[i].exported.name != specs[j].exported.name)) ==>
      ParseProgram(source, program).value.exports.values[specs[j].exported.name] == specs[j].local.name
  {
    ParsedNode(source, program, k);
    var pd := Recognised(program.directives);
    SpecifierWritesSpec(specs);
    assert SpecifierWrites(specs).Ok?;
    var w := SpecifierWrites(specs).value.writes[j];
    assert w in SpecifierWrites(specs).value.writes;
    var e := NodeEffect(pd, program.body[k]).value;
    assert w in e.writes;
    DirectedExports(source, program);
    var a := specs[j].exported.name;
    if NotWrittenAfter(program, k, a) && (forall i :: j < i < |specs| ==> specs[i].exported.name != a) {
      SpecifierNodeLastWrite(pd, decl, specs, j);
      RecordedValue(source, program, k, a);
    }
  }

  /** `export default ident` records `default -> ident`. */
  lemma DefaultIdentifierRecorded(source: string, program: Program, k: nat,
                                  ref: IdentifierReference, exported: IdentifierName)
    requires HasQuotedDirective(source) && k < |program.body|
    requires program.body[k] == ExportDefaultDeclaration(DefaultIdentifier(ref), exported)
    requires ParseProgram(source, program).Ok? && ParseProgram(source, program).value.Directed?
    ensures exported.name in ParseProgram(source, program).value.exports.values
    ensures LastWrite(ScannedWrites(program), exported.name) ==
      Some(ParseProgram(source, program).value.exports.values[exported.name])
    ensures NotWrittenAfter(program, k, exported.name) ==>
      ParseProgram(source, program).value.exports.values[exported.name] == ref.name
  {
    ParsedNode(source, program, k);
    var e := NodeEffect(Recognised(program.directives), program.body[k]).value;
    assert (exported.name, ref.name) in e.writes;
    DirectedExports(source, program);
    if NotWrittenAfter(program, k, exported.name) {
      assert e.writes == [(exported.name, ref.name)];
      assert Firsts(e.writes)[0] == exported.name;
      RecordedValue(source, program, k, exported.name);
    }
  }

  /**
   * Past the pre-check and the program-scope check, the parse fails with the
   * error of the first statement that fails: a missing local name, or an
   * `export default` of something other than an identifier.
   */
  lemma FirstErrorWins(source: string, program: Program, k: nat)
    requires HasQuotedDirective(source) && |Recognised(program.directives)| <= 1 && k < |program.body|
    requires forall i :: 0 <= i < k ==> NodeEffect(Recognised(program.directives), program.body[i]).Ok?
    requires NodeEffect(Recognised(program.directives), program.body[k]).Err?
    ensures ParseProgram(source, program) == Err(NodeEffect(Recognised(program.directives), program.body[k]).message)
  {
    ScanBodyFirstError(Recognised(program.directives), program.body, k);
  }

  /** `export default function f() {}` has no `name` to record: an error. */
  lemma DefaultDeclarationRejected(pd: set<Dir>, decl: Declaration, exported: IdentifierName)
    ensures NodeEffect(pd, ExportDefaultDeclaration(DefaultDeclaration(decl), exported)) ==
      Err(NoLocalDefaultMessage(exported.name))
  {
  }
}
