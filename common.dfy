/**
 * Shared vocabulary of the model: optional values, the error path of the
 * transforms (every `throw new Error(msg)` becomes `Err(msg)`), the two
 * directives, duplicate-free sequences, and the insertion-ordered string map
 * that the JavaScript `Map<string, string>` of exports is.
 */
module Common {

  datatype Option<T> = None | Some(value: T)

  /** Success, or the message of the error the source throws. */
  datatype Result<T> = Ok(value: T) | Err(message: string)

  /** The two directives the transforms recognise. */
  datatype Dir = UseClient | UseServer

  function DirText(d: Dir): string {
    match d
    case UseClient => "use client"
    case UseServer => "use server"
  }

  /** The directive spelled by `s`, if any. */
  function DirOfText(s: string): (r: Option<Dir>)
    ensures r.Some? ==> DirText(r.value) == s
    ensures r.None? ==> s != "use client" && s != "use server"
  {
    if s == "use client" then Some(UseClient)
    else if s == "use server" then Some(UseServer)
    else None
  }

  predicate NoDup<T(==,!new)>(s: seq<T>) {
    forall i, j :: 0 <= i < j < |s| ==> s[i] != s[j]
  }

  /** `s.filter(y => y !== x)`. */
  function RemoveAll<T(==,!new)>(s: seq<T>, x: T): (r: seq<T>)
    ensures forall y :: y in r <==> y in s && y != x
    ensures x !in s ==> r == s
  {
    if s == [] then []
    else if s[0] == x then RemoveAll(s[1..], x)
    else [s[0]] + RemoveAll(s[1..], x)
  }

  /** The index of the first occurrence of `x` in `s`. */
  function FirstIndex<T(==,!new)>(s: seq<T>, x: T): (i: nat)
    requires x in s
    ensures i < |s| && s[i] == x && x !in s[..i]
  {
    if s[0] == x then 0
    else
      var k := FirstIndex(s[1..], x);
      assert s[..k + 1] == [s[0]] + s[1..][..k];
      k + 1
  }

  lemma FirstIndexUnique<T(!new)>(s: seq<T>, x: T, i: nat)
    requires i < |s| && s[i] == x && x !in s[..i]
    ensures FirstIndex(s, x) == i
  {
    var k := FirstIndex(s, x);
    assert forall j :: 0 <= j < i ==> s[..i][j] == s[j];
    assert forall j :: 0 <= j < k ==> s[..k][j] == s[j];
  }

  /** A first occurrence inside a prefix is the first occurrence in the whole. */
  lemma FirstIndexPrefix<T(!new)>(s: seq<T>, n: nat, x: T)
    requires n <= |s| && x in s[..n]
    ensures FirstIndex(s[..n], x) == FirstIndex(s, x)
  {
    var k := FirstIndex(s[..n], x);
    assert s[..n][..k] == s[..k];
    FirstIndexUnique(s, x, k);
  }

  /**
   * The elements of `s`, each at its first occurrence: what an insertion-ordered
   * JavaScript `Set` holds once they have been added one after the other.
   */
  function Dedup<T(==,!new)>(s: seq<T>): (r: seq<T>)
    ensures NoDup(r)
    ensures forall x :: x in r <==> x in s
  {
    if s == [] then []
    else
      var p := Dedup(s[..|s| - 1]);
      assert forall x :: x in s <==> x in s[..|s| - 1] || x == s[|s| - 1] by {
        assert s == s[..|s| - 1] + [s[|s| - 1]];
      }
      if s[|s| - 1] in p then p else p + [s[|s| - 1]]
  }

  /** `Dedup` keeps first-occurrence order. */
  lemma {:induction false} DedupOrder<T(!new)>(s: seq<T>, j: nat, k: nat)
    requires j < k < |Dedup(s)|
    ensures FirstIndex(s, Dedup(s)[j]) < FirstIndex(s, Dedup(s)[k])
    decreases |s|
  {
    var n := |s| - 1;
    var pre := s[..n];
    var p := Dedup(pre);
    var r := Dedup(s);
    assert s[..n] == pre;
    if k < |p| {
      DedupOrder(pre, j, k);
      assert r[j] == p[j] && r[k] == p[k];
      FirstIndexPrefix(s, n, p[j]);
      FirstIndexPrefix(s, n, p[k]);
    } else {
      assert r == p + [s[n]] && k == |p|;
      assert r[j] == p[j] && p[j] in pre;
      FirstIndexPrefix(s, n, p[j]);
      assert s[n] !in pre;
      FirstIndexUnique(s, s[n], n);
    }
  }

  /** An element's position in `Dedup(s)` follows its first occurrence in `s`. */
  lemma DedupOfPrefix<T(!new)>(s: seq<T>, x: T)
    requires |s| > 0 && x == s[|s| - 1] && x !in s[..|s| - 1]
    ensures Dedup(s) == Dedup(s[..|s| - 1]) + [x]
  {
  }

  /** Adding one more element to a `Set`. */
  lemma DedupSnoc<T(!new)>(s: seq<T>, x: T)
    ensures Dedup(s + [x]) == if x in s then Dedup(s) else Dedup(s) + [x]
  {
    assert (s + [x])[..|s|] == s;
  }

  /** A duplicate-free sequence is its own `Dedup`. */
  lemma {:induction false} DedupNoDup<T(!new)>(s: seq<T>)
    requires NoDup(s)
    ensures Dedup(s) == s
    decreases |s|
  {
    if s != [] {
      var n := |s| - 1;
      assert NoDup(s[..n]);
      DedupNoDup(s[..n]);
      assert s[n] !in s[..n];
      assert s == s[..n] + [s[n]];
    }
  }

  /** The first components of a sequence of pairs. */
  function Firsts<A, B>(ws: seq<(A, B)>): (r: seq<A>)
    ensures |r| == |ws| && forall i :: 0 <= i < |ws| ==> r[i] == ws[i].0
  {
    seq(|ws|, i requires 0 <= i < |ws| => ws[i].0)
  }

  /** The value of the last pair in `ws` whose key is `k`. */
  function LastWrite(ws: seq<(string, string)>, k: string): Option<string> {
    if ws == [] then None
    else if ws[|ws| - 1].0 == k then Some(ws[|ws| - 1].1)
    else LastWrite(ws[..|ws| - 1], k)
  }

  /** When every pair writes a key to itself, a key's last write is the key. */
  lemma {:induction false} LastWriteSelf(ws: seq<(string, string)>, k: string)
    requires forall w :: w in ws ==> w.0 == w.1
    requires LastWrite(ws, k).Some?
    ensures LastWrite(ws, k).value == k
  {
    if ws[|ws| - 1].0 != k {
      assert forall w :: w in ws[..|ws| - 1] ==> w in ws;
      LastWriteSelf(ws[..|ws| - 1], k);
    }
  }

  /** The keys of two batches of writes, one after the other. */
  lemma FirstsAppend<A, B>(a: seq<(A, B)>, b: seq<(A, B)>)
    ensures Firsts(a + b) == Firsts(a) + Firsts(b)
  {
  }

  /** A key has a last write exactly when it is written, and that write is one of the pairs. */
  lemma {:induction false} LastWriteMember(ws: seq<(string, string)>, k: string)
    ensures LastWrite(ws, k).Some? <==> k in Firsts(ws)
    ensures LastWrite(ws, k).Some? ==> (k, LastWrite(ws, k).value) in ws
    decreases |ws|
  {
    if ws != [] {
      var n := |ws| - 1;
      LastWriteMember(ws[..n], k);
      assert ws == ws[..n] + [ws[n]];
      FirstsAppend(ws[..n], [ws[n]]);
    }
  }

  /** Writes made after `xs`: a key that `ys` writes ends with the last value `ys` gives it. */
  lemma {:induction false} LastWriteAppend(xs: seq<(string, string)>, ys: seq<(string, string)>, k: string)
    ensures LastWrite(xs + ys, k) == if LastWrite(ys, k).Some? then LastWrite(ys, k) else LastWrite(xs, k)
    decreases |ys|
  {
    if ys == [] {
      assert xs + ys == xs;
    } else {
      var n := |ys| - 1;
      assert (xs + ys)[..|xs + ys| - 1] == xs + ys[..n];
      LastWriteAppend(xs, ys[..n], k);
    }
  }

  /** A last write stays the last when the writes that follow never touch its key. */
  lemma LastWriteBeforeUnwritten(xs: seq<(string, string)>, ys: seq<(string, string)>, k: string, v: string)
    requires LastWrite(xs, k) == Some(v) && k !in Firsts(ys)
    ensures k in Firsts(xs + ys) && LastWrite(xs + ys, k) == Some(v)
  {
    LastWriteMember(ys, k);
    LastWriteAppend(xs, ys, k);
    LastWriteMember(xs + ys, k);
  }

  /** The pair at `j` is the last write of its key when no later pair has that key. */
  lemma {:induction false} LastWriteAt(ws: seq<(string, string)>, k: string, j: nat)
    requires j < |ws| && ws[j].0 == k && forall i :: j < i < |ws| ==> ws[i].0 != k
    ensures LastWrite(ws, k) == Some(ws[j].1)
    decreases |ws|
  {
    var n := |ws| - 1;
    if j < n {
      assert forall i :: j < i < n ==> ws[..n][i] == ws[i];
      LastWriteAt(ws[..n], k, j);
    }
  }

  /**
   * A JavaScript `Map<string, string>`: the keys in insertion order and the
   * current value of each key.
   */
  datatype OrderedMap = OrderedMap(keys: seq<string>, values: map<string, string>)
  {
    ghost predicate Valid() {
      NoDup(keys) && forall k :: k in values <==> k in keys
    }

    /**
     * `map.set(k, v)`: the value of `k` becomes `v`; a new key goes last and a key
     * already present keeps its position.
     */
    function Put(k: string, v: string): (r: OrderedMap)
      requires Valid()
      ensures r.Valid()
    {
      OrderedMap(if k in values then keys else keys + [k], values[k := v])
    }

    /**
     * After `Put(k, v)` the value of `k` is `v`, every other key keeps its value
     * and its position, and a new key goes last.
     */
    lemma PutSpec(k: string, v: string)
      requires Valid()
      ensures k in Put(k, v).values && Put(k, v).values[k] == v
      ensures forall k' :: k' in values && k' != k ==> k' in Put(k, v).values && Put(k, v).values[k'] == values[k']
      ensures forall k' :: k' !in values && k' != k ==> k' !in Put(k, v).values
      ensures Put(k, v).keys == if k in values then keys else keys + [k]
    {
    }

    /** Iteration order of `for (const [key, value] of map)`. */
    function Entries(): (es: seq<(string, string)>)
      requires Valid()
      ensures |es| == |keys|
      ensures forall i :: 0 <= i < |keys| ==> es[i] == (keys[i], values[keys[i]])
    {
      seq(|keys|, i requires 0 <= i < |keys| => (keys[i], values[keys[i]]))
    }
  }

  const EmptyMap: OrderedMap := OrderedMap([], map[])

  /** `ws` written one after the other into `m` with `Put`. */
  function PutAll(m: OrderedMap, ws: seq<(string, string)>): (r: OrderedMap)
    requires m.Valid()
    ensures r.Valid()
  {
    if ws == [] then m
    else PutAll(m, ws[..|ws| - 1]).Put(ws[|ws| - 1].0, ws[|ws| - 1].1)
  }

  /** The keys of a map after a batch of writes: first-write order, after the keys already there. */
  lemma {:induction false} PutAllKeys(m: OrderedMap, ws: seq<(string, string)>)
    requires m.Valid()
    ensures PutAll(m, ws).keys == Dedup(m.keys + Firsts(ws))
    decreases |ws|
  {
    if ws == [] {
      assert m.keys + Firsts(ws) == m.keys;
      DedupNoDup(m.keys);
    } else {
      var n := |ws| - 1;
      var pre := ws[..n];
      var all := m.keys + Firsts(ws);
      assert all == (m.keys + Firsts(pre)) + [ws[n].0] by {
        assert Firsts(ws) == Firsts(pre) + [ws[n].0];
      }
      PutAllKeys(m, pre);
      DedupSnoc(m.keys + Firsts(pre), ws[n].0);
    }
  }

  /** The values of a map after a batch of writes: the last write wins, unwritten keys keep theirs. */
  lemma {:induction false} PutAllValues(m: OrderedMap, ws: seq<(string, string)>)
    requires m.Valid()
    ensures forall k :: k in Firsts(ws) ==>
      LastWrite(ws, k).Some? && k in PutAll(m, ws).values && PutAll(m, ws).values[k] == LastWrite(ws, k).value
    ensures forall k :: k !in Firsts(ws) ==>
      (k in PutAll(m, ws).values <==> k in m.values) &&
      (k in m.values ==> PutAll(m, ws).values[k] == m.values[k])
    decreases |ws|
  {
    if ws != [] {
      var n := |ws| - 1;
      var pre := ws[..n];
      assert forall k :: k in Firsts(ws) <==> k in Firsts(pre) || k == ws[n].0 by {
        assert Firsts(ws) == Firsts(pre) + [ws[n].0];
      }
      PutAllValues(m, pre);
    }
  }

  /**
   * Writing a sequence of pairs into a map: the keys end up in first-write order
   * (after the keys already there) and each key holds its last written value.
   */
  lemma PutAllSpec(m: OrderedMap, ws: seq<(string, string)>)
    requires m.Valid()
    ensures PutAll(m, ws).keys == Dedup(m.keys + Firsts(ws))
    ensures forall k :: k in Firsts(ws) ==>
      LastWrite(ws, k).Some? && PutAll(m, ws).values[k] == LastWrite(ws, k).value
    ensures forall k :: k !in Firsts(ws) ==>
      (k in PutAll(m, ws).values <==> k in m.values) &&
      (k in m.values ==> PutAll(m, ws).values[k] == m.values[k])
  {
    PutAllKeys(m, ws);
    PutAllValues(m, ws);
  }

  /** The map built from empty by writing `ws`; what the scanners build. */
  function FromWrites(ws: seq<(string, string)>): (r: OrderedMap)
    ensures r.Valid()
  {
    PutAll(EmptyMap, ws)
  }

  /** Writes into an empty map: keys in first-write order, last write wins. */
  lemma FromWritesSpec(ws: seq<(string, string)>)
    ensures FromWrites(ws).keys == Dedup(Firsts(ws))
    ensures forall k :: k in FromWrites(ws).values <==> k in Firsts(ws)
    ensures forall k :: k in Firsts(ws) ==>
      LastWrite(ws, k).Some? && FromWrites(ws).values[k] == LastWrite(ws, k).value
  {
    PutAllSpec(EmptyMap, ws);
    assert EmptyMap.keys + Firsts(ws) == Firsts(ws);
  }

  /** A key once present stays present through further writes. */
  lemma {:induction false} PutAllKeepsKeys(m: OrderedMap, ws: seq<(string, string)>, k: string)
    requires m.Valid() && k in m.values
    ensures k in PutAll(m, ws).values
    decreases |ws|
  {
    if ws != [] {
      PutAllKeepsKeys(m, ws[..|ws| - 1], k);
    }
  }

  /** Decimal digits of `n`, without leading zeros. */
  function NatToString(n: nat): (s: string)
    ensures |s| >= 1
    ensures |s| == 1 <==> n < 10
    decreases n
  {
    if n < 10 then [DigitChar(n)] else NatToString(n / 10) + [DigitChar(n % 10)]
  }

  function DigitChar(d: nat): char
    requires d < 10
  {
    ('0' as int + d) as char
  }

  /** Different numbers have different decimal spellings. */
  lemma {:induction false} NatToStringInjective(n: nat, m: nat)
    requires NatToString(n) == NatToString(m)
    ensures n == m
    decreases n
  {
    var s := NatToString(n);
    if n >= 10 {
      assert s[|s| - 1] == DigitChar(n % 10) && s[|s| - 1] == DigitChar(m % 10);
      assert s[..|s| - 1] == NatToString(n / 10) && s[..|s| - 1] == NatToString(m / 10);
      NatToStringInjective(n / 10, m / 10);
    }
  }

  predicate StartsWith(s: string, prefix: string) {
    |prefix| <= |s| && s[..|prefix|] == prefix
  }

  /** `s.includes(sub)`. */
  predicate Contains(s: string, sub: string) {
    exists i :: 0 <= i <= |s| - |sub| && OccursAt(s, sub, i)
  }

  predicate OccursAt(s: string, sub: string, i: int) {
    0 <= i <= |s| - |sub| && s[i..i + |sub|] == sub
  }
}
