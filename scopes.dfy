/**
 * The free-variable analysis of `src/server-transform.ts`: which names an inline
 * server action closes over. Babel's scopes become a tree of numbered scopes in
 * which scope 0 is the program scope and every other scope's parent has a
 * smaller number (a scope is created after the scope that encloses it). Babel's
 * identifier visit becomes the sequence of identifier occurrences inside the
 * function, in traversal order, each with the scope its binding resolves to.
 */
module Scopes {
  import opened Common

  const ProgramScope: nat := 0

  datatype ScopeTree = ScopeTree(parent: seq<nat>) {
    ghost predicate Valid() {
      |parent| >= 1 && forall s :: 1 <= s < |parent| ==> parent[s] < s
    }
  }

  /** The scopes strictly enclosing `s`, nearest first, ending with the program scope. */
  function Ancestors(t: ScopeTree, s: nat): (r: seq<nat>)
    requires t.Valid() && s < |t.parent|
    ensures forall a :: a in r ==> a < s
    decreases s
  {
    if s == ProgramScope then [] else [t.parent[s]] + Ancestors(t, t.parent[s])
  }

  /** Every scope but the program scope lies inside the program scope. */
  lemma {:induction false} AncestorsReachProgram(t: ScopeTree, s: nat)
    requires t.Valid() && s < |t.parent| && s != ProgramScope
    ensures ProgramScope in Ancestors(t, s)
    decreases s
  {
    if t.parent[s] != ProgramScope {
      AncestorsReachProgram(t, t.parent[s]);
    }
  }

  /** Enclosure is transitive. */
  lemma {:induction false} AncestorsTransitive(t: ScopeTree, c: nat, p: nat, q: nat)
    requires t.Valid() && c < |t.parent|
    requires p in Ancestors(t, c) && q in Ancestors(t, p)
    ensures q in Ancestors(t, c)
    decreases c
  {
    if t.parent[c] != p {
      AncestorsTransitive(t, t.parent[c], p, q);
    }
  }

  /**
   * `isChildScope({root, parent, child})` with `root` the program scope: walk
   * from `child` up to the program scope and answer whether some scope on the
   * way has `parent` as its parent, that is, whether `child` lies strictly
   * inside `parent`.
   */
  method IsChildScope(t: ScopeTree, parent: nat, child: nat) returns (r: bool)
    requires t.Valid() && child < |t.parent|
    ensures r <==> parent in Ancestors(t, child)
  {
    var cur: nat := child;
    while cur != ProgramScope
      invariant cur < |t.parent|
      invariant parent in Ancestors(t, child) <==> parent in Ancestors(t, cur)
      decreases cur
    {
      if t.parent[cur] == parent {
        return true;
      }
      cur := t.parent[cur];
    }
    return false;
  }

  /** No scope is a child of itself, and the program scope is a child of none. */
  lemma ChildScopeIrreflexive(t: ScopeTree, s: nat)
    requires t.Valid() && s < |t.parent|
    ensures s !in Ancestors(t, s)
    ensures forall p :: p !in Ancestors(t, ProgramScope)
  {
  }

  /**
   * An identifier met while traversing the function: its name, whether it is a
   * reference (rather than a binding position or a property key), and the scope
   * its binding lives in, `None` for a global or unbound name.
   */
  datatype Occurrence = Occurrence(name: string, referenced: bool, binding: Option<nat>)

  predicate WellScoped(t: ScopeTree, occs: seq<Occurrence>) {
    forall i :: 0 <= i < |occs| ==> occs[i].binding.Some? ==> occs[i].binding.value < |t.parent|
  }

  /**
   * The function whose scope is `fn` closes over the occurrence `o`: a reference
   * bound neither at module level, nor in the function's own scope (its
   * parameters and top-level variables), nor in a scope inside it.
   */
  predicate Captures(t: ScopeTree, fn: nat, o: Occurrence)
    requires t.Valid()
  {
    o.referenced && o.binding.Some? && o.binding.value < |t.parent| &&
    o.binding.value != ProgramScope && o.binding.value != fn && fn !in Ancestors(t, o.binding.value)
  }

  /** The names of the captured occurrences, repetitions included, in traversal order. */
  function CapturedNames(t: ScopeTree, fn: nat, occs: seq<Occurrence>): seq<string>
    requires t.Valid()
  {
    if occs == [] then []
    else
      var n := |occs| - 1;
      CapturedNames(t, fn, occs[..n]) + if Captures(t, fn, occs[n]) then [occs[n].name] else []
  }

  /** A name is among the captured names exactly when some captured occurrence has it. */
  lemma {:induction false} CapturedNamesMembers(t: ScopeTree, fn: nat, occs: seq<Occurrence>)
    requires t.Valid()
    ensures forall x :: x in CapturedNames(t, fn, occs) <==>
      exists i :: 0 <= i < |occs| && Captures(t, fn, occs[i]) && occs[i].name == x
  {
    if occs != [] {
      var n := |occs| - 1;
      CapturedNamesMembers(t, fn, occs[..n]);
      assert forall i :: 0 <= i < n ==> occs[..n][i] == occs[i];
    }
  }

  /**
   * `getNonLocalVariables(path)`: the set of captured names, which iterates in
   * the order the names were first met.
   */
  method GetNonLocalVariables(t: ScopeTree, fn: nat, occs: seq<Occurrence>) returns (vars: seq<string>)
    requires t.Valid() && WellScoped(t, occs)
    ensures vars == Dedup(CapturedNames(t, fn, occs))
  {
    vars := [];
    var i := 0;
    while i < |occs|
      invariant 0 <= i <= |occs|
      invariant vars == Dedup(CapturedNames(t, fn, occs[..i]))
    {
      var o := occs[i];
      CapturedAdvance(t, fn, occs, i);
      var add := false;
      if o.name !in vars && o.referenced && o.binding.Some? && o.binding.value != ProgramScope {
        var inner := IsChildScope(t, fn, o.binding.value);
        add := o.binding.value != fn && !inner;
      }
      assert add <==> Captures(t, fn, o) && o.name !in vars;
      if add {
        vars := vars + [o.name];
      }
      i := i + 1;
    }
    assert occs[..i] == occs;
  }

  /** One more occurrence: its name joins the list when it is captured and new. */
  lemma CapturedAdvance(t: ScopeTree, fn: nat, occs: seq<Occurrence>, i: nat)
    requires t.Valid() && i < |occs|
    ensures var before := Dedup(CapturedNames(t, fn, occs[..i]));
      Dedup(CapturedNames(t, fn, occs[..i + 1])) ==
      if Captures(t, fn, occs[i]) && occs[i].name !in before then before + [occs[i].name] else before
  {
    var names := CapturedNames(t, fn, occs[..i]);
    assert occs[..i + 1][..i] == occs[..i];
    if Captures(t, fn, occs[i]) {
      DedupSnoc(names, occs[i].name);
    } else {
      assert names + [] == names;
    }
  }

  /**
   * What the captured list holds: no name twice, exactly the names of captured
   * occurrences, each after the ones first met before it.
   */
  lemma CapturedSpec(t: ScopeTree, fn: nat, occs: seq<Occurrence>)
    requires t.Valid()
    ensures NoDup(Dedup(CapturedNames(t, fn, occs)))
    ensures forall x :: x in Dedup(CapturedNames(t, fn, occs)) <==>
      exists i :: 0 <= i < |occs| && Captures(t, fn, occs[i]) && occs[i].name == x
    ensures forall j, k :: 0 <= j < k < |Dedup(CapturedNames(t, fn, occs))| ==>
      FirstIndex(CapturedNames(t, fn, occs), Dedup(CapturedNames(t, fn, occs))[j]) <
      FirstIndex(CapturedNames(t, fn, occs), Dedup(CapturedNames(t, fn, occs))[k])
  {
    var names := CapturedNames(t, fn, occs);
    CapturedNamesMembers(t, fn, occs);
    forall j, k | 0 <= j < k < |Dedup(names)|
      ensures FirstIndex(names, Dedup(names)[j]) < FirstIndex(names, Dedup(names)[k])
    {
      DedupOrder(names, j, k);
    }
  }

  /** A name bound at module level, or inside the function, is never captured. */
  lemma LocalNotCaptured(t: ScopeTree, fn: nat, o: Occurrence)
    requires t.Valid() && fn < |t.parent| && o.binding.Some? && o.binding.value < |t.parent|
    requires o.binding.value == ProgramScope || o.binding.value == fn || fn in Ancestors(t, o.binding.value)
    ensures !Captures(t, fn, o)
  {
  }

  /**
   * A reference bound in a scope that encloses the function, other than the
   * program scope, is captured.
   */
  lemma {:induction false} EnclosingCaptured(t: ScopeTree, fn: nat, o: Occurrence)
    requires t.Valid() && fn < |t.parent| && o.referenced && o.binding.Some? && o.binding.value < |t.parent|
    requires o.binding.value != ProgramScope && o.binding.value in Ancestors(t, fn)
    ensures Captures(t, fn, o)
  {
    var b := o.binding.value;
    if fn in Ancestors(t, b) {
      AncestorsTransitive(t, fn, b, fn);
    }
  }
}
