/**
 * What the `once` caches of both Babel plugins leave in the module body: the
 * imports `addNamedImport` puts in front of it, the registration calls and the
 * client or server reference exports the final emission loops append.
 */
module OnceCache {
  import opened Common
  import opened Hoist
  import opened Tracking

  /** A later cache keeps every entry of an earlier one: `once` never overwrites. */
  predicate Grows(before: map<Key, string>, after: map<Key, string>) {
    forall k :: k in before ==> k in after && after[k] == before[k]
  }

  predicate NoExportKeys(cache: map<Key, string>) {
    forall k :: k in cache ==> !k.ExportKey?
  }

  /**
   * The imports added in front of the body by the `once`-d imports `ks`, called
   * in that order between a cache `before` and a cache `after`: a key not cached
   * before and not called earlier adds `import { name as local }`, where `local`
   * is what the cache holds for it; each later one lands in front of the earlier ones.
   */
  function AddedImports(before: map<Key, string>, after: map<Key, string>, ks: seq<Key>): seq<Statement>
    requires forall k :: k in ks ==> k in after
  {
    if ks == [] then []
    else
      var n := |ks| - 1;
      var k := ks[n];
      var earlier := AddedImports(before, after, ks[..n]);
      if k in before || k in ks[..n] || !k.ImportKey? then earlier
      else [ImportStatement(k.name, after[k], k.source)] + earlier
  }

  /** The added statements are all imports, one per key that was not cached before. */
  lemma {:induction false} AddedImportsAreImports(before: map<Key, string>, after: map<Key, string>, ks: seq<Key>)
    requires forall k :: k in ks ==> k in after
    ensures forall s :: s in AddedImports(before, after, ks) ==> s.ImportStatement?
    ensures |AddedImports(before, after, ks)| <= |ks|
    ensures (forall k :: k in ks ==> k in before) ==> AddedImports(before, after, ks) == []
  {
    if ks != [] {
      var n := |ks| - 1;
      AddedImportsAreImports(before, after, ks[..n]);
    }
  }

  /** Only the cache entries of the keys themselves matter. */
  lemma {:induction false} AddedImportsStable(before: map<Key, string>, after: map<Key, string>, after': map<Key, string>,
                                              ks: seq<Key>)
    requires forall k :: k in ks ==> k in after && k in after' && after'[k] == after[k]
    ensures AddedImports(before, after', ks) == AddedImports(before, after, ks)
  {
    if ks != [] {
      AddedImportsStable(before, after, after', ks[..|ks| - 1]);
    }
  }

  /** Only whether the keys themselves were cached before matters. */
  lemma {:induction false} AddedImportsSameBefore(before: map<Key, string>, before': map<Key, string>,
                                                  after: map<Key, string>, ks: seq<Key>)
    requires forall k :: k in ks ==> k in after && (k in before <==> k in before')
    ensures AddedImports(before', after, ks) == AddedImports(before, after, ks)
  {
    if ks != [] {
      AddedImportsSameBefore(before, before', after, ks[..|ks| - 1]);
    }
  }

  /** The wrapper helper `var _wrapBoundArgs = ...` in front of the body, unless it was defined before. */
  function AddedHelper(before: map<Key, string>, after: map<Key, string>): seq<Statement>
    requires HelperKey in after
  {
    if HelperKey in before then [] else [HelperStatement(after[HelperKey])]
  }

  /** The import an emission loop adds in front of the body: none when the loop emitted nothing. */
  function ImportIfUsed(before: map<Key, string>, after: map<Key, string>, k: Key, used: bool): seq<Statement>
    requires used ==> k in after
  {
    if used then AddedImports(before, after, [k]) else []
  }

  /** The local name the cache holds for an import, `""` when it holds none. */
  function Callee(c: map<Key, string>, k: Key): string {
    if k in c then c[k] else ""
  }

  /** One more `once`-d import goes in front of those before it, unless it is cached already. */
  lemma AddedImportsSnoc(before: map<Key, string>, after: map<Key, string>, ks: seq<Key>, k: Key)
    requires forall k' :: k' in ks ==> k' in after
    requires k in after
    ensures AddedImports(before, after, ks + [k]) ==
      (if k in before || k in ks || !k.ImportKey? then [] else [ImportStatement(k.name, after[k], k.source)]) +
      AddedImports(before, after, ks)
  {
    assert (ks + [k])[..|ks|] == ks;
  }

  /** The imports of two rounds of `once` calls, the later round in front. */
  lemma AddedImportsChain(c0: map<Key, string>, c1: map<Key, string>, c2: map<Key, string>, ks: seq<Key>, k: Key)
    requires Grows(c0, c1) && Grows(c1, c2) && k in c2
    requires forall x :: x in ks ==> x in c1
    requires forall x :: x in c1 ==> x in c0 || x in ks
    ensures AddedImports(c0, c2, ks + [k]) == AddedImports(c1, c2, [k]) + AddedImports(c0, c1, ks)
  {
    AddedImportsSnoc(c0, c2, ks, k);
    AddedImportsStable(c0, c1, c2, ks);
    assert [k][..0] == [];
  }

  /** The body contains an import. */
  predicate HasImport(body: seq<Statement>) {
    exists j :: 0 <= j < |body| && IsImport(body[j])
  }

  /** Adding statements before or after the body keeps its imports. */
  lemma HasImportConcat(pre: seq<Statement>, body: seq<Statement>, post: seq<Statement>)
    requires HasImport(body)
    ensures HasImport(pre + body + post)
  {
    var j :| 0 <= j < |body| && IsImport(body[j]);
    assert (pre + body + post)[|pre| + j] == body[j];
  }

  /** The registration calls `callee(local, id, public)` for the `(public, local)` pairs, in order. */
  function Registrations(pairs: seq<(string, string)>, callee: string, id: string): (r: seq<Statement>)
    ensures |r| == |pairs|
    ensures forall i :: 0 <= i < |pairs| ==> r[i] == RegistrationStatement(callee, pairs[i].1, id, pairs[i].0)
  {
    if pairs == [] then []
    else
      var n := |pairs| - 1;
      Registrations(pairs[..n], callee, id) + [RegistrationStatement(callee, pairs[n].1, id, pairs[n].0)]
  }

  /** The reference export of one public name: `export default` for `default`, a named `export const` otherwise. */
  function ReferenceFor(publicName: string, callee: string, id: string): (r: Statement)
    ensures r.ReferenceDefaultExport? <==> publicName == "default"
    ensures r.ReferenceDefaultExport? ==> r.callee == callee && r.id == id
    ensures r.ReferenceExport? ==> r.publicName == publicName && r.callee == callee && r.id == id
  {
    if publicName == "default" then ReferenceDefaultExport(callee, id) else ReferenceExport(publicName, callee, id)
  }

  /** The reference exports for the `(public, local)` pairs, in order. */
  function References(pairs: seq<(string, string)>, callee: string, id: string): (r: seq<Statement>)
    ensures |r| == |pairs|
    ensures forall i :: 0 <= i < |pairs| ==> r[i] == ReferenceFor(pairs[i].0, callee, id)
  {
    if pairs == [] then []
    else
      var n := |pairs| - 1;
      References(pairs[..n], callee, id) + [ReferenceFor(pairs[n].0, callee, id)]
  }

  /** The client transform's `export const <public> = callee({}, id, "<public>")` for the `(public, local)` pairs, in order. */
  function ServerReferences(pairs: seq<(string, string)>, callee: string, id: string): (r: seq<Statement>)
    ensures |r| == |pairs|
    ensures forall i :: 0 <= i < |pairs| ==> r[i] == ServerReferenceExport(pairs[i].0, callee, id)
  {
    if pairs == [] then []
    else
      var n := |pairs| - 1;
      ServerReferences(pairs[..n], callee, id) + [ServerReferenceExport(pairs[n].0, callee, id)]
  }

  lemma RegistrationsSnoc(pairs: seq<(string, string)>, p: (string, string), callee: string, id: string)
    ensures Registrations(pairs + [p], callee, id) ==
      Registrations(pairs, callee, id) + [RegistrationStatement(callee, p.1, id, p.0)]
  {
    assert (pairs + [p])[..|pairs|] == pairs;
  }

  lemma ReferencesSnoc(pairs: seq<(string, string)>, p: (string, string), callee: string, id: string)
    ensures References(pairs + [p], callee, id) == References(pairs, callee, id) + [ReferenceFor(p.0, callee, id)]
  {
    assert (pairs + [p])[..|pairs|] == pairs;
  }
  lemma ServerReferencesSnoc(pairs: seq<(string, string)>, p: (string, string), callee: string, id: string)
    ensures ServerReferences(pairs + [p], callee, id) ==
      ServerReferences(pairs, callee, id) + [ServerReferenceExport(p.0, callee, id)]
  {
    assert (pairs + [p])[..|pairs|] == pairs;
  }

  /**
   * One more emitted statement after the first: the import is in place already,
   * and the new statement goes after the earlier ones.
   */
  lemma {:induction false} LaterEmission(c0: map<Key, string>, c: map<Key, string>, c': map<Key, string>,
                                         b0: seq<Statement>, earlier: seq<Statement>, x: Statement, k: Key)
    requires Grows(c0, c) && Grows(c, c') && k in c
    ensures AddedImports(c, c', [k]) + (AddedImports(c0, c, [k]) + b0 + earlier) + [x] ==
            AddedImports(c0, c', [k]) + b0 + (earlier + [x])
  {
    AddedImportsAreImports(c, c', [k]);
    AddedImportsStable(c0, c, c', [k]);
  }

  /**
   * One more emitted registration: the import of the registration function is
   * still added at most once, and the new call goes after the earlier ones.
   */
  lemma RegistrationStep(c0: map<Key, string>, c: map<Key, string>, c': map<Key, string>,
                         b0: seq<Statement>, b: seq<Statement>, done: seq<(string, string)>,
                         p: (string, string), sk: Key, id: string)
    requires Grows(c0, c) && Grows(c, c') && sk in c'
    requires |done| == 0 ==> c == c0 && b == b0
    requires |done| > 0 ==> sk in c
    requires b == ImportIfUsed(c0, c, sk, |done| > 0) + b0 + Registrations(done, Callee(c, sk), id)
    ensures AddedImports(c, c', [sk]) + b + [RegistrationStatement(c'[sk], p.1, id, p.0)] ==
            ImportIfUsed(c0, c', sk, true) + b0 + Registrations(done + [p], Callee(c', sk), id)
  {
    RegistrationsSnoc(done, p, c'[sk], id);
    if |done| > 0 {
      assert Callee(c, sk) == Callee(c', sk);
      LaterEmission(c0, c, c', b0, Registrations(done, Callee(c', sk), id),
                    RegistrationStatement(c'[sk], p.1, id, p.0), sk);
    } else {
      assert b + [] == b;
    }
  }

  /** One more emitted reference export, after the earlier ones. */
  lemma ReferenceStep(c0: map<Key, string>, c: map<Key, string>, c': map<Key, string>,
                      b0: seq<Statement>, b: seq<Statement>, done: seq<(string, string)>,
                      p: (string, string), ck: Key, id: string)
    requires Grows(c0, c) && Grows(c, c') && ck in c'
    requires |done| == 0 ==> c == c0 && b == b0
    requires |done| > 0 ==> ck in c
    requires b == ImportIfUsed(c0, c, ck, |done| > 0) + b0 + References(done, Callee(c, ck), id)
    ensures AddedImports(c, c', [ck]) + b + [ReferenceFor(p.0, c'[ck], id)] ==
            ImportIfUsed(c0, c', ck, true) + b0 + References(done + [p], Callee(c', ck), id)
  {
    ReferencesSnoc(done, p, c'[ck], id);
    if |done| > 0 {
      assert Callee(c, ck) == Callee(c', ck);
      LaterEmission(c0, c, c', b0, References(done, Callee(c', ck), id), ReferenceFor(p.0, c'[ck], id), ck);
    } else {
      assert b + [] == b;
    }
  }

  /** One more emitted server reference export, after the earlier ones. */
  lemma ServerReferenceStep(c0: map<Key, string>, c: map<Key, string>, c': map<Key, string>,
                            b: seq<Statement>, done: seq<(string, string)>,
                            p: (string, string), sk: Key, id: string)
    requires Grows(c0, c) && Grows(c, c') && sk in c'
    requires |done| == 0 ==> c == c0 && b == []
    requires |done| > 0 ==> sk in c
    requires b == ImportIfUsed(c0, c, sk, |done| > 0) + ServerReferences(done, Callee(c, sk), id)
    ensures AddedImports(c, c', [sk]) + b + [ServerReferenceExport(p.0, c'[sk], id)] ==
            ImportIfUsed(c0, c', sk, true) + ServerReferences(done + [p], Callee(c', sk), id)
  {
    ServerReferencesSnoc(done, p, c'[sk], id);
    if |done| > 0 {
      assert Callee(c, sk) == Callee(c', sk);
      LaterEmission(c0, c, c', [], ServerReferences(done, Callee(c', sk), id),
                    ServerReferenceExport(p.0, c'[sk], id), sk);
      assert AddedImports(c0, c', [sk]) + [] == AddedImports(c0, c', [sk]);
      assert AddedImports(c0, c, [sk]) + [] == AddedImports(c0, c, [sk]);
    } else {
      assert b + [] == b;
      assert AddedImports(c, c', [sk]) + [] == AddedImports(c, c', [sk]);
    }
  }
}
