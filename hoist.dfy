/**
 * The hoisting of inline server actions in `src/server-transform.ts`: finding
 * whether a function is a top-level binding, building the extracted function
 * and what its call site becomes, and inserting the extracted declaration
 * after the last import of the module.
 */
module Hoist {
  import opened Common

  // ---------------------------------------------------------------------------
  // findLastIndex / findLast

  /** The greatest index below `n` whose element satisfies `pred`. */
  function LastIndexBelow<T>(arr: seq<T>, pred: T -> bool, n: nat): Option<nat>
    requires n <= |arr|
  {
    if n == 0 then None
    else if pred(arr[n - 1]) then Some(n - 1)
    else LastIndexBelow(arr, pred, n - 1)
  }

  function LastIndex<T>(arr: seq<T>, pred: T -> bool): Option<nat> {
    LastIndexBelow(arr, pred, |arr|)
  }

  /** The last index is one whose element satisfies `pred`, and no later element does; there is none exactly when no element does. */
  lemma {:induction false} LastIndexBelowSpec<T>(arr: seq<T>, pred: T -> bool, n: nat)
    requires n <= |arr|
    ensures var r := LastIndexBelow(arr, pred, n);
      (r.Some? ==> r.value < n && pred(arr[r.value]) && forall j :: r.value < j < n ==> !pred(arr[j])) &&
      (r.None? <==> forall j :: 0 <= j < n ==> !pred(arr[j]))
  {
    if n > 0 && !pred(arr[n - 1]) {
      LastIndexBelowSpec(arr, pred, n - 1);
    }
  }

  lemma LastIndexSpec<T>(arr: seq<T>, pred: T -> bool)
    ensures var r := LastIndex(arr, pred);
      (r.Some? ==> r.value < |arr| && pred(arr[r.value]) && forall j :: r.value < j < |arr| ==> !pred(arr[j])) &&
      (r.None? <==> forall j :: 0 <= j < |arr| ==> !pred(arr[j]))
  {
    LastIndexBelowSpec(arr, pred, |arr|);
  }

  /** An index whose element satisfies `pred` with no later one that does is the last index. */
  lemma LastIndexUnique<T>(arr: seq<T>, pred: T -> bool, i: nat)
    requires i < |arr| && pred(arr[i]) && forall j :: i < j < |arr| ==> !pred(arr[j])
    ensures LastIndex(arr, pred) == Some(i)
  {
    LastIndexSpec(arr, pred);
  }

  /** `findLastIndex(arr, pred)`: scan from the end, `None` for `undefined`. */
  method FindLastIndex<T>(arr: seq<T>, pred: T -> bool) returns (r: Option<nat>)
    ensures r == LastIndex(arr, pred)
  {
    var i := |arr|;
    while i > 0
      invariant 0 <= i <= |arr|
      invariant LastIndex(arr, pred) == LastIndexBelow(arr, pred, i)
    {
      if pred(arr[i - 1]) {
        return Some(i - 1);
      }
      i := i - 1;
    }
    return None;
  }

  /** `findLast(arr, pred)`: the element at the last index whose element satisfies `pred`. */
  method FindLast<T>(arr: seq<T>, pred: T -> bool) returns (r: Option<T>)
    ensures r.None? <==> forall j :: 0 <= j < |arr| ==> !pred(arr[j])
    ensures r.Some? ==> exists i :: LastIndex(arr, pred) == Some(i) && i < |arr| && r.value == arr[i]
    ensures r.Some? ==> pred(r.value)
  {
    var index := FindLastIndex(arr, pred);
    LastIndexSpec(arr, pred);
    if index.None? {
      return None;
    }
    return Some(arr[index.value]);
  }

  // ---------------------------------------------------------------------------
  // findImmediatelyEnclosingDeclaration / getTopLevelBinding

  /**
   * A node on the path from a function up to the program, as the walk sees it.
   * `id` is the name of the node's `id` when it is an identifier; `binding` is
   * the scope that name's binding lives in, `None` when the name is unbound.
   */
  datatype PathNode =
    | ProgramNode
    | DeclaratorNode(id: Option<string>, binding: Option<nat>)
    | DeclarationNode(id: Option<string>, binding: Option<nat>)
    | ExpressionNode
    | OtherNode

  /** The walk stops at a declarator or a declaration. */
  predicate IsDeclarationLike(n: PathNode) {
    n.DeclaratorNode? || n.DeclarationNode?
  }

  /** The walk goes past the node at position `k`: it is neither the program, nor declaration-like, nor an expression above the function. */
  predicate Passable(path: seq<PathNode>, k: nat)
    requires k < |path|
  {
    !path[k].ProgramNode? && !IsDeclarationLike(path[k]) && !(k > 0 && path[k].ExpressionNode?)
  }

  /** Where the walk from position `k` of `path` stops at a declaration, or `None`. */
  function EnclosingFrom(path: seq<PathNode>, k: nat): Option<nat>
    decreases |path| - k
  {
    if k >= |path| then None
    else if IsDeclarationLike(path[k]) then Some(k)
    else if !Passable(path, k) then None
    else EnclosingFrom(path, k + 1)
  }

  /**
   * The declaration the walk returns: the first declaration-like node, provided
   * no node before it is the program or an expression other than the function.
   */
  lemma {:induction false} EnclosingFromSpec(path: seq<PathNode>, k: nat, i: nat)
    decreases |path| - k
    ensures EnclosingFrom(path, k) == Some(i) <==>
      k <= i < |path| && IsDeclarationLike(path[i]) && forall j :: k <= j < i ==> Passable(path, j)
  {
    if k < |path| && !IsDeclarationLike(path[k]) && Passable(path, k) {
      EnclosingFromSpec(path, k + 1, i);
      if k <= i < |path| && IsDeclarationLike(path[i]) && forall j :: k + 1 <= j < i ==> Passable(path, j) {
        assert forall j :: k <= j < i ==> Passable(path, j);
      }
    } else if k < |path| {
      assert IsDeclarationLike(path[k]) ==> !Passable(path, k);
    }
  }

  /**
   * `findImmediatelyEnclosingDeclaration(path)`: `path[0]` is the function
   * itself, each next node its parent. A path that ends before the program
   * models a node without a parent.
   */
  method FindImmediatelyEnclosingDeclaration(path: seq<PathNode>) returns (r: Option<nat>)
    ensures r == EnclosingFrom(path, 0)
  {
    var k := 0;
    while k < |path| && !path[k].ProgramNode?
      invariant 0 <= k <= |path|
      invariant EnclosingFrom(path, k) == EnclosingFrom(path, 0)
      decreases |path| - k
    {
      if IsDeclarationLike(path[k]) {
        return Some(k);
      }
      if k > 0 && path[k].ExpressionNode? {
        return None;
      }
      k := k + 1;
    }
    return None;
  }

  /** The name of the function's top-level binding, if it has one. */
  function TopLevelBinding(path: seq<PathNode>): Option<string> {
    var decl := EnclosingFrom(path, 0);
    if decl.None? || decl.value >= |path| then None
    else
      var node := path[decl.value];
      if IsDeclarationLike(node) && node.id.Some? && node.binding == Some(0) then Some(node.id.value) else None
  }

  /**
   * A function has a top-level binding named `x` exactly when the walk finds a
   * declaration whose identifier is `x` and whose binding lives in the program scope.
   */
  lemma TopLevelBindingSpec(path: seq<PathNode>, x: string)
    ensures TopLevelBinding(path) == Some(x) <==>
      exists i :: 0 <= i < |path| && IsDeclarationLike(path[i]) && (forall j :: 0 <= j < i ==> Passable(path, j)) &&
        path[i].id == Some(x) && path[i].binding == Some(0)
  {
    var d := EnclosingFrom(path, 0);
    if d.Some? {
      forall i | 0 <= i < |path| ensures EnclosingFrom(path, 0) == Some(i) <==>
        IsDeclarationLike(path[i]) && forall j :: 0 <= j < i ==> Passable(path, j)
      {
        EnclosingFromSpec(path, 0, i);
      }
    } else {
      forall i | 0 <= i < |path| && IsDeclarationLike(path[i])
        ensures !forall j :: 0 <= j < i ==> Passable(path, j)
      {
        EnclosingFromSpec(path, 0, i);
      }
    }
  }

  /** A function nested in an expression (a call argument, say) has no top-level binding. */
  lemma ExpressionPathNoTopLevelBinding(path: seq<PathNode>, e: nat)
    requires 0 < e < |path| && path[e].ExpressionNode?
    requires forall j :: 0 <= j < e ==> !IsDeclarationLike(path[j])
    ensures TopLevelBinding(path) == None
  {
    forall i | 0 <= i < |path| ensures EnclosingFrom(path, 0) != Some(i) {
      EnclosingFromSpec(path, 0, i);
      if i > e {
        assert !Passable(path, e);
      }
    }
  }

  /** `getTopLevelBinding(path)`. */
  method GetTopLevelBinding(path: seq<PathNode>) returns (r: Option<string>)
    ensures r == TopLevelBinding(path)
  {
    var decl := FindImmediatelyEnclosingDeclaration(path);
    if decl.None? {
      return None;
    }
    EnclosingFromSpec(path, 0, decl.value);
    var node := path[decl.value];
    if node.id.None? {
      return None;
    }
    if node.binding.None? {
      return None;
    }
    return if node.binding.value == 0 then Some(node.id.value) else None;
  }

  // ---------------------------------------------------------------------------
  // Fresh names

  /**
   * The `n`-th name `generateUidIdentifier(base)` hands out for `base`
   * (counting from 1): `_base`, then `_base2`, `_base3`, ...
   */
  function UidName(base: string, n: nat): (r: string)
    requires n >= 1
    ensures |r| > |base| && r[0] == '_' && r[1..|base| + 1] == base
  {
    "_" + base + if n == 1 then "" else NatToString(n)
  }

  /** Different counts give different names: no two hoisted actions share a name. */
  lemma UidNameInjective(base: string, n: nat, m: nat)
    requires n >= 1 && m >= 1 && UidName(base, n) == UidName(base, m)
    ensures n == m
  {
    var k := |base| + 1;
    var sn := if n == 1 then "" else NatToString(n);
    var sm := if m == 1 then "" else NatToString(m);
    assert UidName(base, n)[k..] == sn;
    assert UidName(base, m)[k..] == sm;
    if n != 1 && m != 1 {
      NatToStringInjective(n, m);
    }
  }

  /** How many names `generateUidIdentifier(base)` has handed out. */
  function Issued(uids: map<string, nat>, base: string): nat {
    if base in uids then uids[base] else 0
  }

  function NextUid(uids: map<string, nat>, base: string): string {
    UidName(base, Issued(uids, base) + 1)
  }

  function Bump(uids: map<string, nat>, base: string): map<string, nat> {
    uids[base := Issued(uids, base) + 1]
  }

  /** The first two hoisted actions of a module are named `_$$INLINE_ACTION` and `_$$INLINE_ACTION2`. */
  lemma FirstActionNames()
    ensures NextUid(map[], "$$INLINE_ACTION") == "_$$INLINE_ACTION"
    ensures NextUid(Bump(map[], "$$INLINE_ACTION"), "$$INLINE_ACTION") == "_$$INLINE_ACTION2"
  {
    assert NatToString(2) == "2";
  }

  /** The next name for a base differs from every name handed out for it before. */
  lemma NextUidFresh(uids: map<string, nat>, base: string, n: nat)
    requires 1 <= n <= Issued(uids, base)
    ensures NextUid(uids, base) != UidName(base, n)
  {
    if NextUid(uids, base) == UidName(base, n) {
      UidNameInjective(base, Issued(uids, base) + 1, n);
    }
  }

  // ---------------------------------------------------------------------------
  // The extracted function and its call site

  /** `$$CLOSURE.value`, or `await decrypt(await $$CLOSURE.value, id, actionName)`. */
  datatype ClosureRead =
    | ClosureValue(closure: string)
    | DecryptedClosure(decryptFn: string, closure: string, id: string, actionName: string)

  /**
   * The async arrow function the action becomes: its parameters, the
   * destructuring `var [vars...] = read` that starts its body if it closes over
   * anything, and the directives left in the original body.
   */
  datatype ExtractedFunction = ExtractedFunction(params: seq<string>, prefix: Option<(seq<string>, ClosureRead)>,
                                                 bodyDirectives: seq<string>)

  /** The crypto functions, when encryption is configured. */
  datatype Crypt = Crypt(decryptFn: string, encryptFn: string)

  /**
   * The function `extractInlineActionToTopLevel` builds for an action with
   * parameters `params` that closes over `vars`; `closure` is the fresh closure
   * parameter and `actionName` the fresh name of the hoisted declaration.
   */
  function BuildExtracted(params: seq<string>, bodyDirectives: seq<string>, vars: seq<string>, closure: string,
                          crypt: Option<Crypt>, id: string, actionName: string): ExtractedFunction
  {
    if |vars| == 0 then ExtractedFunction(params, None, bodyDirectives)
    else
      var read := if crypt.Some? then DecryptedClosure(crypt.value.decryptFn, closure, id, actionName)
                  else ClosureValue(closure);
      ExtractedFunction([closure] + params, Some((vars, read)), bodyDirectives)
  }

  /** The array of captured values, or `encrypt(array, id, actionName)`. */
  datatype CapturedArray =
    | PlainArray(vars: seq<string>)
    | EncryptedArray(encryptFn: string, vars: seq<string>, id: string, actionName: string)

  /** What the action's original site becomes: the bare hoisted name, or `name.bind(null, wrapper(() => captured))`. */
  datatype Replacement =
    | ActionReference(name: string)
    | BoundAction(name: string, wrapper: string, captured: CapturedArray)

  /** `getInlineActionReplacement(actionId, vars, ctx)`. */
  function InlineActionReplacement(actionName: string, vars: seq<string>, wrapper: string, crypt: Option<Crypt>,
                                   id: string): Replacement
  {
    if |vars| == 0 then ActionReference(actionName)
    else
      var captured := if crypt.Some? then EncryptedArray(crypt.value.encryptFn, vars, id, actionName)
                      else PlainArray(vars);
      BoundAction(actionName, wrapper, captured)
  }

  /** The captured names the call site passes along. */
  function PassedNames(r: Replacement): seq<string> {
    match r
    case ActionReference(_) => []
    case BoundAction(_, _, PlainArray(vs)) => vs
    case BoundAction(_, _, EncryptedArray(_, vs, _, _)) => vs
  }

  /** The names the extracted function's body destructures. */
  function ReceivedNames(f: ExtractedFunction): seq<string> {
    if f.prefix.None? then [] else f.prefix.value.0
  }

  /**
   * The parameter list of the extracted function: the original parameters when
   * nothing is captured, and otherwise the closure parameter followed by them.
   */
  lemma ExtractedParams(params: seq<string>, dirs: seq<string>, vars: seq<string>, closure: string,
                        crypt: Option<Crypt>, id: string, name: string)
    ensures var f := BuildExtracted(params, dirs, vars, closure, crypt, id, name);
      (|vars| == 0 ==> f.params == params && f.prefix.None?) &&
      (|vars| > 0 ==> f.params[0] == closure && f.params[1..] == params && f.prefix.Some?) &&
      f.bodyDirectives == dirs
  {
    var f := BuildExtracted(params, dirs, vars, closure, crypt, id, name);
    if |vars| > 0 {
      assert f.params == [closure] + params;
    }
  }

  /**
   * The call site passes exactly the names the extracted body destructures, in
   * the same order; with encryption, the decrypting read and the encrypting
   * call use the same id and the same action name.
   */
  lemma CallSiteMatchesExtracted(params: seq<string>, dirs: seq<string>, vars: seq<string>, closure: string,
                                 wrapper: string, crypt: Option<Crypt>, id: string, name: string)
    ensures var f := BuildExtracted(params, dirs, vars, closure, crypt, id, name);
      var r := InlineActionReplacement(name, vars, wrapper, crypt, id);
      PassedNames(r) == ReceivedNames(f) == vars &&
      (r.ActionReference? <==> f.prefix.None?) &&
      (r.ActionReference? ==> r.name == name) &&
      (r.BoundAction? ==> r.name == name && r.wrapper == wrapper) &&
      (crypt.Some? && |vars| > 0 ==>
        r.captured.EncryptedArray? && f.prefix.value.1.DecryptedClosure? &&
        r.captured.id == f.prefix.value.1.id == id &&
        r.captured.actionName == f.prefix.value.1.actionName == name)
  {
  }

  /**
   * Closure conversion preserves the captured values: if the call site's
   * environment is `env`, the array it binds holds `env`'s values of the
   * captured names, and the destructuring at the start of the extracted body
   * binds each captured name back to that same value.
   */
  function BoundValues<V>(names: seq<string>, env: map<string, V>): (r: seq<V>)
    requires forall x :: x in names ==> x in env
    ensures |r| == |names| && forall i :: 0 <= i < |names| ==> r[i] == env[names[i]]
  {
    seq(|names|, i requires 0 <= i < |names| => env[names[i]])
  }

  /** The bindings `var [n0, n1, ...] = values` makes. */
  function Destructure<V>(names: seq<string>, values: seq<V>): map<string, V>
    requires |names| == |values|
  {
    if names == [] then map[]
    else Destructure(names[..|names| - 1], values[..|values| - 1])[names[|names| - 1] := values[|values| - 1]]
  }

  lemma {:induction false} DestructureLookup<V>(names: seq<string>, values: seq<V>, i: nat)
    requires |names| == |values| && NoDup(names) && i < |names|
    ensures names[i] in Destructure(names, values) && Destructure(names, values)[names[i]] == values[i]
  {
    var n := |names| - 1;
    if i < n {
      assert NoDup(names[..n]);
      assert names[..n][i] == names[i];
      DestructureLookup(names[..n], values[..n], i);
      assert names[i] != names[n];
    }
  }

  lemma ClosureConversion<V>(params: seq<string>, dirs: seq<string>, vars: seq<string>, closure: string,
                             wrapper: string, id: string, name: string, env: map<string, V>)
    requires NoDup(vars) && forall x :: x in vars ==> x in env
    ensures var f := BuildExtracted(params, dirs, vars, closure, None, id, name);
      var r := InlineActionReplacement(name, vars, wrapper, None, id);
      var bound := Destructure(ReceivedNames(f), BoundValues(PassedNames(r), env));
      forall x :: x in vars ==> x in bound && bound[x] == env[x]
  {
    var bound := Destructure(vars, BoundValues(vars, env));
    forall x | x in vars ensures x in bound && bound[x] == env[x] {
      var i :| 0 <= i < |vars| && vars[i] == x;
      DestructureLookup(vars, BoundValues(vars, env), i);
    }
  }

  // ---------------------------------------------------------------------------
  // The module body and insertion after the last import

  /**
   * A top-level statement of the module. Statements of the input are opaque
   * except for whether they are imports; the others are the ones the transform
   * adds: an `import { imported as local } from source`, the lazy wrapper helper
   * `var name = (thunk) => ...`, a hoisted action
   * `export const name = register(async fn, id, name)`, a registration call
   * `callee(localName, id, publicName)`, and the client reference exports
   * `export const publicName = callee({}, id, publicName)` and
   * `export default callee({}, id, "default")` of the server transform, and the
   * server reference export `export const publicName = callee({}, id, publicName)`
   * of the client transform.
   */
  datatype Statement =
    | SourceStatement(index: nat, isImport: bool)
    | ImportStatement(imported: string, local: string, source: string)
    | HelperStatement(name: string)
    | ActionStatement(name: string, register: string, fn: ExtractedFunction, id: string)
    | RegistrationStatement(callee: string, localName: string, id: string, publicName: string)
    | ReferenceExport(publicName: string, callee: string, id: string)
    | ReferenceDefaultExport(callee: string, id: string)
    | ServerReferenceExport(publicName: string, callee: string, id: string)

  predicate IsImport(s: Statement) {
    s.ImportStatement? || (s.SourceStatement? && s.isImport)
  }

  /** `body` with `s` inserted right after the last import, or the error when there is no import. */
  function InsertAfterLastImport(body: seq<Statement>, s: Statement): Result<seq<Statement>> {
    var last := LastIndex(body, IsImport);
    if last.None? then Err("Could not find last import declaration")
    else if last.value >= |body| then Err("Could not find last import declaration")
    else Ok(body[..last.value + 1] + [s] + body[last.value + 1..])
  }

  /**
   * Insertion puts `s` right after the last import, and every other statement
   * keeps its place relative to the others; it fails exactly when there is no import.
   */
  lemma InsertAfterLastImportSpec(body: seq<Statement>, s: Statement)
    ensures InsertAfterLastImport(body, s).Err? <==> forall j :: 0 <= j < |body| ==> !IsImport(body[j])
    ensures InsertAfterLastImport(body, s).Ok? ==>
      var r := InsertAfterLastImport(body, s).value;
      var i := LastIndex(body, IsImport).value;
      |r| == |body| + 1 && r[i + 1] == s && IsImport(r[i]) &&
      (forall j :: i + 1 < j < |r| ==> !IsImport(r[j]) || r[j] == s) &&
      r[..i + 1] + r[i + 2..] == body
  {
    LastIndexSpec(body, IsImport);
    var last := LastIndex(body, IsImport);
    if last.Some? {
      var i := last.value;
      var r := body[..i + 1] + [s] + body[i + 1..];
      assert r[..i + 1] == body[..i + 1];
      assert r[i + 2..] == body[i + 1..];
      assert body[..i + 1] + body[i + 1..] == body;
      forall j | i + 1 < j < |r| ensures !IsImport(r[j]) || r[j] == s {
        assert r[j] == body[j - 1];
      }
    }
  }

  /** Inserting a statement that is not an import leaves the last import where it was. */
  lemma InsertKeepsLastImport(body: seq<Statement>, s: Statement)
    requires !IsImport(s) && InsertAfterLastImport(body, s).Ok?
    ensures LastIndex(InsertAfterLastImport(body, s).value, IsImport) == LastIndex(body, IsImport)
  {
    var r := InsertAfterLastImport(body, s).value;
    InsertAfterLastImportSpec(body, s);
    var i := LastIndex(body, IsImport).value;
    LastIndexUnique(r, IsImport, i);
  }

  /**
   * Two actions hoisted one after the other: the later one ends up first, right
   * after the last import, and the earlier one right after it.
   */
  lemma TwoActionsReverse(body: seq<Statement>, a: Statement, b: Statement)
    requires !IsImport(a) && !IsImport(b) && InsertAfterLastImport(body, a).Ok?
    ensures var once := InsertAfterLastImport(body, a).value;
      InsertAfterLastImport(once, b).Ok? &&
      var twice := InsertAfterLastImport(once, b).value;
      var i := LastIndex(body, IsImport).value;
      twice == body[..i + 1] + [b, a] + body[i + 1..]
  {
    var once := InsertAfterLastImport(body, a).value;
    InsertKeepsLastImport(body, a);
    InsertAfterLastImportSpec(body, a);
    var i := LastIndex(body, IsImport).value;
    assert once[..i + 1] == body[..i + 1];
    assert once[i + 1..] == [a] + body[i + 1..];
  }
}
