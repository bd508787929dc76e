/**
 * The module-text emitters of `src/transform.ts`: `replaceExports` writes a new
 * module in which every export is a reference built by a runtime function, and
 * `wrapExports` appends a registration call per export to the original code.
 * Both walk the export map in insertion order and append to a string.
 */
module Emit {
  import opened Common
  import opened Json

  /** The runtime function to import and the module it comes from. */
  datatype Runtime = Runtime(moduleName: string, functionName: string)

  // ---------------------------------------------------------------------------
  // Lines: JavaScript's `s.split("\n")`

  function Lines(s: string): (r: seq<string>)
    ensures |r| >= 1
    decreases |s|
  {
    if s == [] then [""] else PushChar(s[0], Lines(s[1..]))
  }

  /** The lines of `[c] + t`, given the lines `tail` of `t`. */
  function PushChar(c: char, tail: seq<string>): (r: seq<string>)
    requires |tail| >= 1
    ensures |r| >= 1
  {
    if c == '\n' then [""] + tail else [[c] + tail[0]] + tail[1..]
  }

  /** Lines that follow the first line are left alone. */
  lemma PushCharAppend(c: char, x: seq<string>, y: seq<string>)
    requires |x| >= 1
    ensures PushChar(c, x + y) == PushChar(c, x) + y
  {
    assert (x + y)[0] == x[0] && (x + y)[1..] == x[1..] + y;
  }

  /** Every line followed by a line feed. */
  function Unlines(ls: seq<string>): string {
    if ls == [] then "" else ls[0] + "\n" + Unlines(ls[1..])
  }

  lemma {:induction false} UnlinesAppend(a: seq<string>, b: seq<string>)
    ensures Unlines(a + b) == Unlines(a) + Unlines(b)
  {
    if a == [] {
      assert a + b == b;
    } else {
      assert (a + b)[1..] == a[1..] + b;
      UnlinesAppend(a[1..], b);
    }
  }

  /** A text without line feeds is one line. */
  lemma {:induction false} LinesNoNewline(a: string)
    requires '\n' !in a
    ensures Lines(a) == [a]
    decreases |a|
  {
    if a != [] {
      assert '\n' !in a[1..] by {
        assert forall k :: 0 <= k < |a[1..]| ==> a[1..][k] == a[k + 1];
      }
      LinesNoNewline(a[1..]);
      assert [a[0]] + a[1..] == a;
    }
  }

  /** Joining two texts with a line feed concatenates their lines. */
  lemma {:induction false} LinesAppend(a: string, b: string)
    ensures Lines(a + "\n" + b) == Lines(a) + Lines(b)
    decreases |a|
  {
    var s := a + "\n" + b;
    if a == [] {
      assert s[0] == '\n' && s[1..] == b;
    } else {
      assert s[0] == a[0] && s[1..] == a[1..] + "\n" + b;
      LinesAppend(a[1..], b);
      PushCharAppend(a[0], Lines(a[1..]), Lines(b));
    }
  }

  /** Lines without line feeds, each terminated, split back into themselves and a final empty line. */
  lemma {:induction false} LinesUnlines(ls: seq<string>)
    requires forall i :: 0 <= i < |ls| ==> '\n' !in ls[i]
    ensures Lines(Unlines(ls)) == ls + [""]
  {
    if ls != [] {
      var rest := Unlines(ls[1..]);
      assert Unlines(ls) == ls[0] + "\n" + rest;
      assert Lines(rest) == ls[1..] + [""] by {
        LinesUnlines(ls[1..]);
      }
      assert Lines(ls[0] + "\n" + rest) == Lines(ls[0]) + Lines(rest) by {
        LinesAppend(ls[0], rest);
      }
      LinesNoNewline(ls[0]);
      assert ls == [ls[0]] + ls[1..];
    }
  }

  /** The lines `f` gives for each element of `xs`, one element after the other. */
  function ConcatLines<T>(f: T -> seq<string>, xs: seq<T>): seq<string> {
    if xs == [] then [] else ConcatLines(f, xs[..|xs| - 1]) + f(xs[|xs| - 1])
  }

  /** `code` with the lines `f` gives for each element of `xs` appended: a `code +=` loop. */
  function FoldLines<T>(code: string, f: T -> seq<string>, xs: seq<T>): string {
    if xs == [] then code else FoldLines(code, f, xs[..|xs| - 1]) + Unlines(f(xs[|xs| - 1]))
  }

  /** One more turn of a `code +=` loop. */
  lemma FoldLinesSnoc<T>(code: string, f: T -> seq<string>, xs: seq<T>, i: nat)
    requires i < |xs|
    ensures FoldLines(code, f, xs[..i + 1]) == FoldLines(code, f, xs[..i]) + Unlines(f(xs[i]))
  {
    assert xs[..i + 1][..i] == xs[..i];
  }

  lemma {:induction false} FoldLinesUnlines<T>(code: string, f: T -> seq<string>, xs: seq<T>)
    ensures FoldLines(code, f, xs) == code + Unlines(ConcatLines(f, xs))
  {
    if xs == [] {
      assert code + "" == code;
    } else {
      var n := |xs| - 1;
      var a, b := ConcatLines(f, xs[..n]), f(xs[n]);
      assert ConcatLines(f, xs) == a + b;
      assert FoldLines(code, f, xs) == FoldLines(code, f, xs[..n]) + Unlines(b);
      FoldLinesUnlines(code, f, xs[..n]);
      UnlinesAppend(a, b);
      assert code + Unlines(a) + Unlines(b) == code + (Unlines(a) + Unlines(b));
    }
  }

  /** When `f` gives one line for every element, the lines are those, in order. */
  lemma {:induction false} ConcatSingleLines<T>(f: T -> seq<string>, xs: seq<T>)
    requires forall x :: |f(x)| == 1
    ensures |ConcatLines(f, xs)| == |xs|
    ensures forall j :: 0 <= j < |xs| ==> ConcatLines(f, xs)[j] == f(xs[j])[0]
  {
    if xs != [] {
      var n := |xs| - 1;
      ConcatSingleLines(f, xs[..n]);
      assert forall j :: 0 <= j < n ==> xs[..n][j] == xs[j];
    }
  }

  /** No line given by `f` for an element of `xs` holds a line feed: then neither does any line of the whole. */
  lemma {:induction false} ConcatLinesNoNewline<T>(f: T -> seq<string>, xs: seq<T>)
    requires forall j, i :: 0 <= j < |xs| && 0 <= i < |f(xs[j])| ==> '\n' !in f(xs[j])[i]
    ensures forall i :: 0 <= i < |ConcatLines(f, xs)| ==> '\n' !in ConcatLines(f, xs)[i]
  {
    if xs != [] {
      var n := |xs| - 1;
      assert forall j :: 0 <= j < n ==> xs[..n][j] == xs[j];
      ConcatLinesNoNewline(f, xs[..n]);
      var a, b := ConcatLines(f, xs[..n]), f(xs[n]);
      assert forall i :: 0 <= i < |a + b| ==> (a + b)[i] == if i < |a| then a[i] else b[i - |a|];
    }
  }

  // ---------------------------------------------------------------------------
  // The fixed fragments of the emitted lines

  const ImportOpen := "import { "
  const ReplaceImportClose := " as ___REPLACE_RUNTIME___ } from "
  const ReplaceCallOpen := " = ___REPLACE_RUNTIME___("
  const WrapImportClose := " as ___WRAP_RUNTIME___ } from "
  const WrapTypeofOpen := "if (typeof "
  const WrapCallOpen := " === \"function\") ___WRAP_RUNTIME___("

  lemma FragmentsNoNewline()
    ensures '\n' !in ImportOpen && '\n' !in ReplaceImportClose && '\n' !in ReplaceCallOpen
    ensures '\n' !in WrapImportClose && '\n' !in WrapTypeofOpen && '\n' !in WrapCallOpen
  {
    ImportFragmentsNoNewline();
    ReplaceFragmentNoNewline();
    WrapFragmentsNoNewline();
  }

  lemma ImportFragmentsNoNewline()
    ensures '\n' !in ImportOpen && '\n' !in WrapTypeofOpen
  {
  }

  lemma ReplaceFragmentNoNewline()
    ensures '\n' !in ReplaceImportClose && '\n' !in ReplaceCallOpen
  {
    assert '\n' !in ReplaceImportClose;
  }

  lemma WrapFragmentsNoNewline()
    ensures '\n' !in WrapImportClose && '\n' !in WrapCallOpen
  {
    assert '\n' !in WrapImportClose;
  }

  // ---------------------------------------------------------------------------
  // replaceExports

  /** The first line of `replaceExports`' code: the import of the runtime function. */
  function ReplaceHeaderLine(runtime: Runtime): string {
    ImportOpen + runtime.functionName + ReplaceImportClose + Quote(runtime.moduleName) + ";"
  }

  /**
   * The lines of the block appended for the public name `name`, given the quoted
   * id `strId`: a blank line, then `export const <name> = ___REPLACE_RUNTIME___(`
   * with the arguments `{}`, the id and the quoted name on lines of their own.
   */
  function ReplaceBlockLines(strId: string, name: string): seq<string> {
    ["", "export const " + name + ReplaceCallOpen, "  {},", "  " + strId + ",", "  " + Quote(name), ");"]
  }

  /** The code `replaceExports(parsed, runtime, id)` returns, for the export map `exports`. */
  function ReplaceModule(exports: OrderedMap, runtime: Runtime, id: string): string {
    var strId := Quote(id);
    FoldLines(Unlines([ReplaceHeaderLine(runtime)]), name => ReplaceBlockLines(strId, name), exports.keys)
  }

  /** `replaceExports(parsed, runtime, id)`: a fold over the entries of the map. */
  method ReplaceExports(exports: OrderedMap, runtime: Runtime, id: string) returns (code: string)
    requires exports.Valid()
    ensures code == ReplaceModule(exports, runtime, id)
  {
    code := Unlines([ReplaceHeaderLine(runtime)]);
    var strId := Quote(id);
    ghost var block := name => ReplaceBlockLines(strId, name);
    var entries := exports.Entries();
    var i := 0;
    while i < |entries|
      invariant 0 <= i <= |entries|
      invariant code == FoldLines(Unlines([ReplaceHeaderLine(runtime)]), block, exports.keys[..i])
    {
      var exportedName := entries[i].0;
      FoldLinesSnoc(Unlines([ReplaceHeaderLine(runtime)]), block, exports.keys, i);
      code := code + Unlines(ReplaceBlockLines(strId, exportedName));
      i := i + 1;
    }
    assert exports.keys[..i] == exports.keys;
  }

  /** Six lines per public name. */
  lemma {:induction false} ReplaceBlocksCount(strId: string, names: seq<string>)
    ensures |ConcatLines(name => ReplaceBlockLines(strId, name), names)| == 6 * |names|
  {
    if names != [] {
      ReplaceBlocksCount(strId, names[..|names| - 1]);
    }
  }

  lemma ReplaceHeaderNoNewline(runtime: Runtime)
    requires '\n' !in runtime.functionName
    ensures '\n' !in ReplaceHeaderLine(runtime)
  {
    FragmentsNoNewline();
    QuoteNoNewline(runtime.moduleName);
  }

  lemma ReplaceBlockNoNewline(strId: string, name: string)
    requires '\n' !in name && '\n' !in strId
    ensures forall i :: 0 <= i < |ReplaceBlockLines(strId, name)| ==> '\n' !in ReplaceBlockLines(strId, name)[i]
  {
    FragmentsNoNewline();
    QuoteNoNewline(name);
  }

  /**
   * Split into lines, the code of `replaceExports` is one import line, then for
   * each public name in map order a blank line and the five lines of
   * `export const <name> = ___REPLACE_RUNTIME___({}, <JSON id>, <JSON name>)`,
   * then an empty last line.
   */
  lemma ReplaceModuleLines(exports: OrderedMap, runtime: Runtime, id: string)
    requires forall k :: k in exports.keys ==> '\n' !in k
    requires '\n' !in runtime.functionName
    ensures Lines(ReplaceModule(exports, runtime, id)) ==
      [ReplaceHeaderLine(runtime)] + ConcatLines(name => ReplaceBlockLines(Quote(id), name), exports.keys) + [""]
    ensures |Lines(ReplaceModule(exports, runtime, id))| == 2 + 6 * |exports.keys|
  {
    var strId := Quote(id);
    var block := name => ReplaceBlockLines(strId, name);
    var header := ReplaceHeaderLine(runtime);
    var blocks := ConcatLines(block, exports.keys);
    FoldLinesUnlines(Unlines([header]), block, exports.keys);
    ReplaceBlocksCount(strId, exports.keys);
    ReplaceHeaderNoNewline(runtime);
    QuoteNoNewline(id);
    forall j | 0 <= j < |exports.keys|
      ensures forall i :: 0 <= i < |block(exports.keys[j])| ==> '\n' !in block(exports.keys[j])[i]
    {
      ReplaceBlockNoNewline(strId, exports.keys[j]);
    }
    ConcatLinesNoNewline(block, exports.keys);
    UnlinesAppend([header], blocks);
    LinesUnlines([header] + blocks);
  }

  // ---------------------------------------------------------------------------
  // wrapExports

  /** The first line of `wrapExports`' code: the import of the runtime function. */
  function WrapHeaderLine(runtime: Runtime): string {
    ImportOpen + runtime.functionName + WrapImportClose + Quote(runtime.moduleName) + ";"
  }

  /** The registration line for the export `exported` of the local `internal`. */
  function WrapLine(strId: string, exported: string, internal: string): string {
    WrapTypeofOpen + internal + WrapCallOpen + internal + ", " + strId + ", " +
    Quote(exported) + ");"
  }

  /** The code `wrapExports(code, parsed, runtime, id)` returns, for the export map `exports`. */
  function WrapModule(code: string, exports: OrderedMap, runtime: Runtime, id: string): string
    requires exports.Valid()
  {
    var strId := Quote(id);
    FoldLines(Unlines([WrapHeaderLine(runtime)]) + code + "\n", (e: (string, string)) => [WrapLine(strId, e.0, e.1)],
              exports.Entries())
  }

  /** `wrapExports(code, parsed, runtime, id)`: a fold over the entries of the map. */
  method WrapExports(code: string, exports: OrderedMap, runtime: Runtime, id: string) returns (out: string)
    requires exports.Valid()
    ensures out == WrapModule(code, exports, runtime, id)
  {
    out := Unlines([WrapHeaderLine(runtime)]) + code + "\n";
    var strId := Quote(id);
    ghost var start := out;
    ghost var line := (e: (string, string)) => [WrapLine(strId, e.0, e.1)];
    var entries := exports.Entries();
    var i := 0;
    while i < |entries|
      invariant 0 <= i <= |entries|
      invariant out == FoldLines(start, line, entries[..i])
    {
      var (exportedName, internalName) := entries[i];
      FoldLinesSnoc(start, line, entries, i);
      out := out + Unlines([WrapLine(strId, exportedName, internalName)]);
      i := i + 1;
    }
    assert entries[..i] == entries;
  }

  lemma WrapHeaderNoNewline(runtime: Runtime)
    requires '\n' !in runtime.functionName
    ensures '\n' !in WrapHeaderLine(runtime)
  {
    FragmentsNoNewline();
    QuoteNoNewline(runtime.moduleName);
  }

  lemma WrapLineNoNewline(strId: string, exported: string, internal: string)
    requires '\n' !in strId && '\n' !in internal
    ensures '\n' !in WrapLine(strId, exported, internal)
  {
    FragmentsNoNewline();
    QuoteNoNewline(exported);
  }

  /** The registration lines `wrapExports` appends, one per entry of the map. */
  function RegistrationLines(exports: OrderedMap, id: string): seq<string>
    requires exports.Valid()
  {
    var strId := Quote(id);
    ConcatLines((e: (string, string)) => [WrapLine(strId, e.0, e.1)], exports.Entries())
  }

  /** One registration line per public name, in map order, naming the local the map stores for it. */
  lemma RegistrationLinesSpec(exports: OrderedMap, id: string)
    requires exports.Valid()
    ensures |RegistrationLines(exports, id)| == |exports.keys|
    ensures forall j :: 0 <= j < |exports.keys| ==>
      RegistrationLines(exports, id)[j] == WrapLine(Quote(id), exports.keys[j], exports.values[exports.keys[j]])
  {
    var strId := Quote(id);
    ConcatSingleLines((e: (string, string)) => [WrapLine(strId, e.0, e.1)], exports.Entries());
  }

  /**
   * Split into lines, the code of `wrapExports` is one import line, the lines of
   * the original code unchanged, the registration lines, then an empty last line.
   */
  lemma WrapModuleLines(code: string, exports: OrderedMap, runtime: Runtime, id: string)
    requires exports.Valid()
    requires forall k :: k in exports.values ==> '\n' !in exports.values[k]
    requires '\n' !in runtime.functionName
    ensures Lines(WrapModule(code, exports, runtime, id)) ==
      [WrapHeaderLine(runtime)] + Lines(code) + RegistrationLines(exports, id) + [""]
  {
    var strId := Quote(id);
    var header := WrapHeaderLine(runtime);
    var line := (e: (string, string)) => [WrapLine(strId, e.0, e.1)];
    var es := exports.Entries();
    var ws := ConcatLines(line, es);
    var start := Unlines([header]) + code + "\n";
    assert WrapModule(code, exports, runtime, id) == start + Unlines(ws) by {
      FoldLinesUnlines(start, line, es);
    }
    assert forall i :: 0 <= i < |ws| ==> '\n' !in ws[i] by {
      QuoteNoNewline(id);
      forall j | 0 <= j < |es| ensures forall i :: 0 <= i < |line(es[j])| ==> '\n' !in line(es[j])[i] {
        assert exports.keys[j] in exports.values;
        WrapLineNoNewline(strId, exports.keys[j], exports.values[exports.keys[j]]);
      }
      ConcatLinesNoNewline(line, es);
    }
    assert Lines(Unlines(ws)) == ws + [""] by {
      LinesUnlines(ws);
    }
    assert Lines(start + Unlines(ws)) == [header] + Lines(code) + Lines(Unlines(ws)) by {
      WrapHeaderNoNewline(runtime);
      WrapLinesSplit(header, code, Unlines(ws));
    }
    assert RegistrationLines(exports, id) == ws;
  }

  lemma UnlinesSingle(h: string)
    ensures Unlines([h]) == h + "\n"
  {
    assert [h][1..] == [];
  }

  lemma WrapLinesSplit(header: string, code: string, rest: string)
    requires '\n' !in header
    ensures Lines(Unlines([header]) + code + "\n" + rest) == [header] + Lines(code) + Lines(rest)
  {
    var tail := code + "\n" + rest;
    LinesAppend(code, rest);
    UnlinesSingle(header);
    ConcatAssoc(header, code, rest);
    LinesAppend(header, tail);
    LinesNoNewline(header);
  }

  lemma ConcatAssoc(h: string, code: string, rest: string)
    ensures (h + "\n") + code + "\n" + rest == h + "\n" + (code + "\n" + rest)
  {
    var u := h + "\n";
    assert u + code + "\n" + rest == u + (code + "\n" + rest);
  }
}
