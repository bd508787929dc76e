/**
 * The export scanner of `src/parse.ts`: given a module's source text and the
 * program the parser produced for it, find the module's directive and the map
 * from public export name to local name.
 *
 * The scanner is written twice: as functions that say what each part of the
 * walk contributes (`ParseProgram` and the per-node effects below it), and as
 * the methods with loops that the source is (`Parse`, `HasDirective`,
 * `ScanNode`, ...), each proved to compute what the functions say.
 */
module Parse {
  import opened Common
  import opened Ast

  const BothDirectivesMessage: string :=
    "Cannot have both \"use client\" and \"use server\" directives in the same module"

  function NoLocalMessage(name: string): string {
    "Local name does not exist for export " + name
  }

  function NoLocalDefaultMessage(name: string): string {
    "Local name does not exist for default export " + name
  }

  datatype ParseResult = NoDirective | Directed(directive: Dir, exports: OrderedMap)

  // ---------------------------------------------------------------------------
  // The regular-expression pre-check

  predicate IsQuote(c: char) {
    c == '"' || c == '\''
  }

  /** `/["']use (server|client)["']/` matches at index `i` of `s`. */
  predicate QuotedDirectiveAt(s: string, i: int) {
    0 <= i && i + 12 <= |s| && IsQuote(s[i]) && IsQuote(s[i + 11]) &&
    (s[i + 1..i + 11] == "use server" || s[i + 1..i + 11] == "use client")
  }

  predicate HasQuotedDirective(s: string) {
    exists i | 0 <= i < |s| :: QuotedDirectiveAt(s, i)
  }

  // ---------------------------------------------------------------------------
  // What the walk computes

  /** Some directive of `ds` is the string `text`. */
  predicate Mentions(ds: seq<Directive>, text: string) {
    exists i :: 0 <= i < |ds| && ds[i].directive == text
  }

  /** The recognised directives among `ds`; every other directive is ignored. */
  function Recognised(ds: seq<Directive>): (r: set<Dir>)
    ensures forall d :: d in r <==> Mentions(ds, DirText(d))
  {
    (if Mentions(ds, "use client") then {UseClient} else {}) +
    (if Mentions(ds, "use server") then {UseServer} else {})
  }

  lemma MentionsSnoc(ds: seq<Directive>, n: nat, text: string)
    requires n < |ds|
    ensures Mentions(ds[..n + 1], text) <==> Mentions(ds[..n], text) || ds[n].directive == text
  {
    assert forall i :: 0 <= i < n ==> ds[..n + 1][i] == ds[..n][i];
    assert ds[..n + 1][n] == ds[n];
  }

  /** The directives a part of the walk adds and the `map.set` calls it makes, in order. */
  datatype Effect = Effect(dirs: set<Dir>, writes: seq<(string, string)>)

  const NoEffect := Effect({}, [])

  /** `a` followed by the outcome `r` of the rest of the walk; an error ends the walk. */
  function Then(a: Effect, r: Result<Effect>): (t: Result<Effect>)
    ensures r.Err? ==> t == r
    ensures r.Ok? ==> t == Ok(Effect(a.dirs + r.value.dirs, a.writes + r.value.writes))
  {
    match r
    case Err(m) => Err(m)
    case Ok(b) => Ok(Effect(a.dirs + b.dirs, a.writes + b.writes))
  }

  /**
   * One exported declaration or declarator called `name`, whose function body (if
   * any) carries `ds`: it is recorded as `name -> name` exactly when the program or
   * the body carries a recognised directive, and then those directives join the
   * module's; an empty name is then an error.
   */
  function Annotated(pd: set<Dir>, ds: seq<Directive>, name: string): (r: Result<Effect>)
    ensures pd + Recognised(ds) == {} ==> r == Ok(NoEffect)
    ensures pd + Recognised(ds) != {} && name != "" ==> r == Ok(Effect(pd + Recognised(ds), [(name, name)]))
    ensures pd + Recognised(ds) != {} && name == "" ==> r == Err(NoLocalMessage(name))
  {
    var scope := pd + Recognised(ds);
    if scope == {} then Ok(NoEffect)
    else if name != "" then Ok(Effect(scope, [(name, name)]))
    else Err(NoLocalMessage(name))
  }

  function DeclaratorEffect(pd: set<Dir>, d: VariableDeclarator): Result<Effect> {
    Annotated(pd, InitDirectives(d.init), d.id.kind.name)
  }

  function DeclaratorsEffect(pd: set<Dir>, decls: seq<VariableDeclarator>): Result<Effect> {
    if decls == [] then Ok(NoEffect)
    else
      match DeclaratorEffect(pd, decls[0])
      case Err(m) => Err(m)
      case Ok(e) => Then(e, DeclaratorsEffect(pd, decls[1..]))
  }

  function DeclarationEffect(pd: set<Dir>, decl: Option<Declaration>): Result<Effect> {
    match decl
    case None => Ok(NoEffect)
    case Some(FunctionDeclaration(Some(id), body)) => Annotated(pd, BodyDirectives(body), id.name)
    case Some(FunctionDeclaration(None, _)) => Ok(NoEffect)
    case Some(VariableDeclaration(decls)) => DeclaratorsEffect(pd, decls)
    case Some(UnknownDeclaration(Some(id))) => Annotated(pd, [], id.name)
    case Some(UnknownDeclaration(None)) => Ok(NoEffect)
  }

  function SpecifierWrites(specs: seq<ExportSpecifier>): Result<Effect> {
    if specs == [] then Ok(NoEffect)
    else if specs[0].local.name == "" then Err(NoLocalMessage(specs[0].exported.name))
    else Then(Effect({}, [(specs[0].exported.name, specs[0].local.name)]), SpecifierWrites(specs[1..]))
  }

  function NodeEffect(pd: set<Dir>, node: Body): Result<Effect> {
    match node
    case ExportNamedDeclaration(decl, specs) =>
      (match DeclarationEffect(pd, decl)
       case Err(m) => Err(m)
       case Ok(e) => if specs.None? then Ok(e) else Then(e, SpecifierWrites(specs.value)))
    case ExportDefaultDeclaration(DefaultIdentifier(ref), exported) =>
      if ref.name != "" then Ok(Effect({}, [(exported.name, ref.name)]))
      else Err(NoLocalDefaultMessage(exported.name))
    case ExportDefaultDeclaration(DefaultDeclaration(_), exported) =>
      Err(NoLocalDefaultMessage(exported.name))
    case _ => Ok(NoEffect)
  }

  function ScanBody(pd: set<Dir>, body: seq<Body>): Result<Effect> {
    if body == [] then Ok(NoEffect)
    else
      match NodeEffect(pd, body[0])
      case Err(m) => Err(m)
      case Ok(e) => Then(e, ScanBody(pd, body[1..]))
  }

  /** The final decision on the collected directive set. */
  function Decide(dirs: set<Dir>, exports: OrderedMap): (r: Result<ParseResult>)
    ensures r == Ok(NoDirective) <==> dirs == {}
    ensures r.Err? <==> |dirs| > 1
    ensures r.Err? ==> r.message == BothDirectivesMessage
    ensures r.Ok? && r.value.Directed? ==> dirs == {r.value.directive} && r.value.exports == exports
  {
    if dirs == {} then Ok(NoDirective)
    else if |dirs| > 1 then Err(BothDirectivesMessage)
    else
      var d := if UseClient in dirs then UseClient else UseServer;
      assert dirs == {d} by {
        assert d in dirs by {
          var x :| x in dirs;
          assert x == UseClient || x == UseServer;
        }
        assert |dirs - {d}| == |dirs| - 1;
        assert dirs - {d} == {};
      }
      Ok(Directed(d, exports))
  }

  /** `parse(source, filePath)`, where `program` is what the parser made of `source`. */
  function ParseProgram(source: string, program: Program): Result<ParseResult> {
    if !HasQuotedDirective(source) then Ok(NoDirective)
    else
      var pd := Recognised(program.directives);
      if |pd| > 1 then Err(BothDirectivesMessage)
      else
        match ScanBody(pd, program.body)
        case Err(m) => Err(m)
        case Ok(e) => Decide(pd + e.dirs, FromWrites(e.writes))
  }

  // ---------------------------------------------------------------------------
  // The walk as the source performs it

  lemma FromWritesSnoc(ws: seq<(string, string)>, k: string, v: string)
    ensures FromWrites(ws + [(k, v)]) == FromWrites(ws).Put(k, v)
  {
    assert (ws + [(k, v)])[..|ws|] == ws;
  }

  lemma ThenDone(a: Effect)
    ensures Then(a, Ok(NoEffect)) == Ok(a)
  {
    assert a.writes + [] == a.writes;
    assert a.dirs + {} == a.dirs;
  }

  lemma ThenNoEffect(r: Result<Effect>)
    ensures Then(NoEffect, r) == r
  {
    if r.Ok? {
      assert [] + r.value.writes == r.value.writes;
      assert {} + r.value.dirs == r.value.dirs;
    }
  }

  lemma ThenAssoc(a: Effect, b: Effect, r: Result<Effect>)
    ensures Then(a, Then(b, r)) == Then(Effect(a.dirs + b.dirs, a.writes + b.writes), r)
  {
    if r.Ok? {
      assert a.writes + (b.writes + r.value.writes) == (a.writes + b.writes) + r.value.writes;
      assert a.dirs + (b.dirs + r.value.dirs) == (a.dirs + b.dirs) + r.value.dirs;
    }
  }

  /** `hasDirective(directives, storeIn)`: adds the recognised directives to the set. */
  method HasDirective(directives: seq<Directive>, storeIn: set<Dir>) returns (stored: set<Dir>)
    ensures stored == storeIn + Recognised(directives)
  {
    stored := storeIn;
    var i := 0;
    while i < |directives|
      invariant 0 <= i <= |directives|
      invariant stored == storeIn + Recognised(directives[..i])
    {
      var text := directives[i].directive;
      if text == "use client" || text == "use server" {
        stored := stored + {if text == "use client" then UseClient else UseServer};
      }
      MentionsSnoc(directives, i, "use client");
      MentionsSnoc(directives, i, "use server");
      i := i + 1;
    }
    assert directives[..i] == directives;
  }

  /** How an effect computed by the functions shows in the walk's state. */
  predicate Applied(spec: Result<Effect>, directives: set<Dir>, written: seq<(string, string)>,
                    res: Result<(set<Dir>, OrderedMap)>) {
    match spec
    case Err(m) => res == Err(m)
    case Ok(e) => res == Ok((directives + e.dirs, FromWrites(written + e.writes)))
  }

  /** One declaration or declarator: the `directivesAtFunctionScope` step. */
  method RecordAnnotated(pd: set<Dir>, ds: seq<Directive>, name: string,
                         directives: set<Dir>, exports: OrderedMap, ghost written: seq<(string, string)>)
    returns (res: Result<(set<Dir>, OrderedMap)>)
    requires exports == FromWrites(written)
    ensures Applied(Annotated(pd, ds, name), directives, written, res)
  {
    var scope := HasDirective(ds, pd);
    if |scope| > 0 {
      if name != "" {
        FromWritesSnoc(written, name, name);
        return Ok((directives + scope, exports.Put(name, name)));
      } else {
        return Err(NoLocalMessage(name));
      }
    }
    assert written + [] == written;
    assert directives + {} == directives;
    return Ok((directives, exports));
  }

  /** Where the declarator walk stands before declarator `i`, having recorded `done`. */
  predicate DeclaratorsWalk(pd: set<Dir>, decls: seq<VariableDeclarator>, i: nat, done: Effect,
                            directives: set<Dir>, written: seq<(string, string)>, dirs: set<Dir>, m: OrderedMap) {
    i <= |decls| && Then(done, DeclaratorsEffect(pd, decls[i..])) == DeclaratorsEffect(pd, decls) &&
    dirs == directives + done.dirs && m == FromWrites(written + done.writes)
  }

  method ScanDeclarators(pd: set<Dir>, decls: seq<VariableDeclarator>,
                         directives: set<Dir>, exports: OrderedMap, ghost written: seq<(string, string)>)
    returns (res: Result<(set<Dir>, OrderedMap)>)
    requires exports == FromWrites(written)
    ensures Applied(DeclaratorsEffect(pd, decls), directives, written, res)
  {
    var dirs, m := directives, exports;
    ghost var done := NoEffect;
    var i := 0;
    DeclaratorsStart(pd, decls, directives, written);
    while i < |decls|
      invariant DeclaratorsWalk(pd, decls, i, done, directives, written, dirs, m)
    {
      var step := RecordDeclarator(pd, decls, i, done, directives, written, dirs, m);
      if step.Err? {
        return Err(step.message);
      }
      done := Then(done, DeclaratorEffect(pd, decls[i])).value;
      dirs, m := step.value.0, step.value.1;
      i := i + 1;
    }
    DeclaratorsEnd(pd, decls, done, directives, written, dirs, m);
    return Ok((dirs, m));
  }

  /** The loop body of the declarator walk. */
  method RecordDeclarator(pd: set<Dir>, decls: seq<VariableDeclarator>, i: nat, ghost done: Effect,
                          ghost directives: set<Dir>, ghost written: seq<(string, string)>,
                          dirs: set<Dir>, m: OrderedMap) returns (step: Result<(set<Dir>, OrderedMap)>)
    requires i < |decls| && DeclaratorsWalk(pd, decls, i, done, directives, written, dirs, m)
    ensures step.Err? ==> DeclaratorsEffect(pd, decls) == Err(step.message)
    ensures step.Ok? ==> Then(done, DeclaratorEffect(pd, decls[i])).Ok?
    ensures step.Ok? ==>
      DeclaratorsWalk(pd, decls, i + 1, Then(done, DeclaratorEffect(pd, decls[i])).value, directives, written,
                      step.value.0, step.value.1)
  {
    var d := decls[i];
    step := RecordAnnotated(pd, InitDirectives(d.init), d.id.kind.name, dirs, m, written + done.writes);
    DeclaratorsAdvance(pd, decls, i, done, directives, written, dirs, m, step);
  }

  lemma DeclaratorsStart(pd: set<Dir>, decls: seq<VariableDeclarator>, directives: set<Dir>, written: seq<(string, string)>)
    ensures DeclaratorsWalk(pd, decls, 0, NoEffect, directives, written, directives, FromWrites(written))
  {
    assert directives + NoEffect.dirs == directives && written + NoEffect.writes == written;
    assert decls[0..] == decls;
    ThenNoEffect(DeclaratorsEffect(pd, decls));
  }

  lemma DeclaratorsEnd(pd: set<Dir>, decls: seq<VariableDeclarator>, done: Effect, directives: set<Dir>,
                       written: seq<(string, string)>, dirs: set<Dir>, m: OrderedMap)
    requires DeclaratorsWalk(pd, decls, |decls|, done, directives, written, dirs, m)
    ensures Applied(DeclaratorsEffect(pd, decls), directives, written, Ok((dirs, m)))
  {
    assert decls[|decls|..] == [];
    ThenDone(done);
  }

  /**
   * One declarator recorded on top of `done`: its failure is the walk's
   * failure, otherwise its effect joins what is done.
   */
  lemma DeclaratorsAdvance(pd: set<Dir>, decls: seq<VariableDeclarator>, i: nat, done: Effect,
                           directives: set<Dir>, written: seq<(string, string)>, dirs: set<Dir>, m: OrderedMap,
                           step: Result<(set<Dir>, OrderedMap)>)
    requires i < |decls| && DeclaratorsWalk(pd, decls, i, done, directives, written, dirs, m)
    requires Applied(DeclaratorEffect(pd, decls[i]), dirs, written + done.writes, step)
    ensures step.Err? ==> DeclaratorsEffect(pd, decls) == Err(step.message)
    ensures step.Ok? ==> Then(done, DeclaratorEffect(pd, decls[i])).Ok?
    ensures step.Ok? ==>
      DeclaratorsWalk(pd, decls, i + 1, Then(done, DeclaratorEffect(pd, decls[i])).value, directives, written,
                      step.value.0, step.value.1)
  {
    if step.Err? {
      DeclaratorsStop(pd, decls, i, done);
    } else {
      var e := DeclaratorEffect(pd, decls[i]).value;
      DeclaratorsStep(pd, decls, i, done, e);
      SeqAssoc(written, done.writes, e.writes);
      SetAssoc(directives, done.dirs, e.dirs);
    }
  }

  lemma SeqAssoc<T>(a: seq<T>, b: seq<T>, c: seq<T>)
    ensures (a + b) + c == a + (b + c)
  {
  }

  lemma SetAssoc<T>(a: set<T>, b: set<T>, c: set<T>)
    ensures (a + b) + c == a + (b + c)
  {
  }

  /** A declarator whose recording fails ends the walk with its error. */
  lemma DeclaratorsStop(pd: set<Dir>, decls: seq<VariableDeclarator>, i: nat, done: Effect)
    requires i < |decls| && Then(done, DeclaratorsEffect(pd, decls[i..])) == DeclaratorsEffect(pd, decls)
    requires DeclaratorEffect(pd, decls[i]).Err?
    ensures DeclaratorsEffect(pd, decls) == Err(DeclaratorEffect(pd, decls[i]).message)
  {
    assert decls[i..][0] == decls[i];
  }

  /** A declarator that records `e` moves `e` from the rest of the walk to what is done. */
  lemma DeclaratorsStep(pd: set<Dir>, decls: seq<VariableDeclarator>, i: nat, done: Effect, e: Effect)
    requires i < |decls| && Then(done, DeclaratorsEffect(pd, decls[i..])) == DeclaratorsEffect(pd, decls)
    requires DeclaratorEffect(pd, decls[i]) == Ok(e)
    ensures Then(Effect(done.dirs + e.dirs, done.writes + e.writes), DeclaratorsEffect(pd, decls[i + 1..])) ==
      DeclaratorsEffect(pd, decls)
  {
    assert decls[i..][0] == decls[i] && decls[i..][1..] == decls[i + 1..];
    ThenAssoc(done, e, DeclaratorsEffect(pd, decls[i + 1..]));
  }

  /** A specifier without a local name ends the walk with its error. */
  lemma SpecifiersStop(specs: seq<ExportSpecifier>, i: nat, done: Effect)
    requires i < |specs| && Then(done, SpecifierWrites(specs[i..])) == SpecifierWrites(specs)
    requires specs[i].local.name == ""
    ensures SpecifierWrites(specs) == Err(NoLocalMessage(specs[i].exported.name))
  {
    assert specs[i..][0] == specs[i];
  }

  /** A specifier with a local name moves its write from the rest of the walk to what is done. */
  lemma SpecifiersStep(specs: seq<ExportSpecifier>, i: nat, done: Effect)
    requires i < |specs| && Then(done, SpecifierWrites(specs[i..])) == SpecifierWrites(specs)
    requires specs[i].local.name != ""
    ensures Then(Effect(done.dirs + {}, done.writes + [(specs[i].exported.name, specs[i].local.name)]),
                 SpecifierWrites(specs[i + 1..])) == SpecifierWrites(specs)
  {
    assert specs[i..][0] == specs[i] && specs[i..][1..] == specs[i + 1..];
    ThenAssoc(done, Effect({}, [(specs[i].exported.name, specs[i].local.name)]), SpecifierWrites(specs[i + 1..]));
  }

  /** Where the specifier walk stands before specifier `i`, having recorded `done`. */
  predicate SpecifiersWalk(specs: seq<ExportSpecifier>, i: nat, done: Effect, written: seq<(string, string)>,
                           m: OrderedMap) {
    i <= |specs| && Then(done, SpecifierWrites(specs[i..])) == SpecifierWrites(specs) &&
    done.dirs == {} && m == FromWrites(written + done.writes)
  }

  method ScanSpecifiers(specs: seq<ExportSpecifier>,
                        directives: set<Dir>, exports: OrderedMap, ghost written: seq<(string, string)>)
    returns (res: Result<(set<Dir>, OrderedMap)>)
    requires exports == FromWrites(written)
    ensures Applied(SpecifierWrites(specs), directives, written, res)
  {
    var m := exports;
    ghost var done := NoEffect;
    var i := 0;
    SpecifiersStart(specs, written);
    while i < |specs|
      invariant SpecifiersWalk(specs, i, done, written, m)
    {
      var s := specs[i];
      if s.local.name == "" {
        SpecifiersStop(specs, i, done);
        return Err(NoLocalMessage(s.exported.name));
      }
      SpecifiersAdvance(specs, i, done, written, m);
      m := m.Put(s.exported.name, s.local.name);
      done := Effect({}, done.writes + [(s.exported.name, s.local.name)]);
      i := i + 1;
    }
    SpecifiersEnd(specs, done, directives, written, m);
    return Ok((directives, m));
  }

  lemma SpecifiersStart(specs: seq<ExportSpecifier>, written: seq<(string, string)>)
    ensures SpecifiersWalk(specs, 0, NoEffect, written, FromWrites(written))
  {
    assert written + NoEffect.writes == written;
    assert specs[0..] == specs;
    ThenNoEffect(SpecifierWrites(specs));
  }

  /** A specifier with a local name: its write joins what is done. */
  lemma SpecifiersAdvance(specs: seq<ExportSpecifier>, i: nat, done: Effect, written: seq<(string, string)>,
                          m: OrderedMap)
    requires i < |specs| && SpecifiersWalk(specs, i, done, written, m) && specs[i].local.name != ""
    ensures SpecifiersWalk(specs, i + 1, Effect({}, done.writes + [(specs[i].exported.name, specs[i].local.name)]),
                           written, m.Put(specs[i].exported.name, specs[i].local.name))
  {
    var w := (specs[i].exported.name, specs[i].local.name);
    SpecifiersStep(specs, i, done);
    assert done.dirs + {} == {};
    FromWritesSnoc(written + done.writes, w.0, w.1);
    SeqAssoc(written, done.writes, [w]);
  }

  lemma SpecifiersEnd(specs: seq<ExportSpecifier>, done: Effect, directives: set<Dir>,
                      written: seq<(string, string)>, m: OrderedMap)
    requires SpecifiersWalk(specs, |specs|, done, written, m)
    ensures Applied(SpecifierWrites(specs), directives, written, Ok((directives, m)))
  {
    assert specs[|specs|..] == [];
    ThenDone(done);
    assert directives + {} == directives;
  }

  /** The `node.declaration` part of an `export` statement. */
  method ScanDeclaration(pd: set<Dir>, decl: Option<Declaration>,
                         directives: set<Dir>, exports: OrderedMap, ghost written: seq<(string, string)>)
    returns (res: Result<(set<Dir>, OrderedMap)>)
    requires exports == FromWrites(written)
    ensures Applied(DeclarationEffect(pd, decl), directives, written, res)
  {
    assert written + [] == written;
    assert directives + {} == directives;
    match decl {
      case None =>
        res := Ok((directives, exports));
      case Some(FunctionDeclaration(Some(id), body)) =>
        res := RecordAnnotated(pd, BodyDirectives(body), id.name, directives, exports, written);
      case Some(FunctionDeclaration(None, _)) =>
        res := Ok((directives, exports));
      case Some(VariableDeclaration(decls)) =>
        res := ScanDeclarators(pd, decls, directives, exports, written);
      case Some(UnknownDeclaration(Some(id))) =>
        res := RecordAnnotated(pd, [], id.name, directives, exports, written);
      case Some(UnknownDeclaration(None)) =>
        res := Ok((directives, exports));
    }
  }

  /** An `export { ... }` or `export <declaration>` statement. */
  method ScanExportNamed(pd: set<Dir>, decl: Option<Declaration>, specs: Option<seq<ExportSpecifier>>,
                         directives: set<Dir>, exports: OrderedMap, ghost written: seq<(string, string)>)
    returns (res: Result<(set<Dir>, OrderedMap)>)
    requires exports == FromWrites(written)
    ensures Applied(NodeEffect(pd, ExportNamedDeclaration(decl, specs)), directives, written, res)
  {
    var afterDecl := ScanDeclaration(pd, decl, directives, exports, written);
    if afterDecl.Err? {
      return Err(afterDecl.message);
    }
    ghost var e := DeclarationEffect(pd, decl).value;
    if specs.None? {
      return afterDecl;
    }
    res := ScanSpecifiers(specs.value, afterDecl.value.0, afterDecl.value.1, written + e.writes);
    AppliedThen(e, SpecifierWrites(specs.value), directives, written, res);
  }

  /** Scanning the rest after the effect `e` is scanning `e` followed by the rest. */
  lemma AppliedThen(e: Effect, r: Result<Effect>, directives: set<Dir>, written: seq<(string, string)>,
                    res: Result<(set<Dir>, OrderedMap)>)
    requires Applied(r, directives + e.dirs, written + e.writes, res)
    ensures Applied(Then(e, r), directives, written, res)
  {
    if r.Ok? {
      assert (written + e.writes) + r.value.writes == written + (e.writes + r.value.writes);
      assert (directives + e.dirs) + r.value.dirs == directives + (e.dirs + r.value.dirs);
    }
  }

  /** One statement of `program.body`. */
  method ScanNode(pd: set<Dir>, node: Body,
                  directives: set<Dir>, exports: OrderedMap, ghost written: seq<(string, string)>)
    returns (res: Result<(set<Dir>, OrderedMap)>)
    requires exports == FromWrites(written)
    ensures Applied(NodeEffect(pd, node), directives, written, res)
  {
    match node {
      case ExportNamedDeclaration(decl, specs) =>
        res := ScanExportNamed(pd, decl, specs, directives, exports, written);
      case ExportDefaultDeclaration(DefaultIdentifier(ref), exported) =>
        if ref.name != "" {
          FromWritesSnoc(written, exported.name, ref.name);
          return Ok((directives + {}, exports.Put(exported.name, ref.name)));
        }
        return Err(NoLocalDefaultMessage(exported.name));
      case ExportDefaultDeclaration(DefaultDeclaration(_), exported) =>
        return Err(NoLocalDefaultMessage(exported.name));
      case _ =>
        assert written + [] == written;
        return Ok((directives + {}, exports));
    }
  }

  /** A statement whose scan fails ends the walk with its error. */
  lemma BodyStop(pd: set<Dir>, body: seq<Body>, i: nat, done: Effect)
    requires i < |body| && Then(done, ScanBody(pd, body[i..])) == ScanBody(pd, body)
    requires NodeEffect(pd, body[i]).Err?
    ensures ScanBody(pd, body) == Err(NodeEffect(pd, body[i]).message)
  {
    assert body[i..][0] == body[i];
  }

  /** A statement that scans to `e` moves `e` from the rest of the walk to what is done. */
  lemma BodyStep(pd: set<Dir>, body: seq<Body>, i: nat, done: Effect, e: Effect)
    requires i < |body| && Then(done, ScanBody(pd, body[i..])) == ScanBody(pd, body)
    requires NodeEffect(pd, body[i]) == Ok(e)
    ensures Then(Effect(done.dirs + e.dirs, done.writes + e.writes), ScanBody(pd, body[i + 1..])) == ScanBody(pd, body)
  {
    assert body[i..][0] == body[i] && body[i..][1..] == body[i + 1..];
    ThenAssoc(done, e, ScanBody(pd, body[i + 1..]));
  }

  /** The traversal of `program.body`, statement by statement, until one fails. */
  method ScanProgramBody(atProgram: set<Dir>, body: seq<Body>) returns (res: Result<(set<Dir>, OrderedMap)>)
    ensures ScanBody(atProgram, body).Err? ==> res == Err(ScanBody(atProgram, body).message)
    ensures ScanBody(atProgram, body).Ok? ==>
      var e := ScanBody(atProgram, body).value;
      res == Ok((atProgram + e.dirs, FromWrites(e.writes)))
  {
    var directives, exports := atProgram, EmptyMap;
    ghost var done := NoEffect;
    var i := 0;
    assert body[0..] == body;
    ThenNoEffect(ScanBody(atProgram, body));
    while i < |body|
      invariant 0 <= i <= |body|
      invariant Then(done, ScanBody(atProgram, body[i..])) == ScanBody(atProgram, body)
      invariant directives == atProgram + done.dirs
      invariant exports == FromWrites(done.writes)
    {
      var step := ScanNode(atProgram, body[i], directives, exports, done.writes);
      if step.Err? {
        BodyStop(atProgram, body, i, done);
        return Err(step.message);
      }
      ghost var e := NodeEffect(atProgram, body[i]).value;
      BodyStep(atProgram, body, i, done, e);
      done := Effect(done.dirs + e.dirs, done.writes + e.writes);
      directives, exports := step.value.0, step.value.1;
      i := i + 1;
    }
    assert body[i..] == [];
    ThenDone(done);
    res := Ok((directives, exports));
  }

  /** `parse(source, filePath)`. */
  method Parse(source: string, program: Program) returns (r: Result<ParseResult>)
    ensures r == ParseProgram(source, program)
    ensures !HasQuotedDirective(source) ==> r == Ok(NoDirective)
  {
    var quoted := exists i | 0 <= i < |source| :: QuotedDirectiveAt(source, i);
    if !quoted {
      return Ok(NoDirective);
    }
    var atProgram := HasDirective(program.directives, {});
    if |atProgram| > 1 {
      return Err(BothDirectivesMessage);
    }
    var scanned := ScanProgramBody(atProgram, program.body);
    if scanned.Err? {
      return Err(scanned.message);
    }
    var (directives, exports) := scanned.value;
    if |directives| == 0 {
      return Ok(NoDirective);
    }
    if |directives| > 1 {
      return Err(BothDirectivesMessage);
    }
    var d := if UseClient in directives then UseClient else UseServer;
    r := Ok(Directed(d, exports));
  }
}
