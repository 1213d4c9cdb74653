/** JavaScript values and plain objects, as the data layer stores and compares them. */
module Values {

  datatype Option<T> = None | Some(value: T)

  datatype Result<T, E> = Ok(value: T) | Err(error: E)

  /** A primitive JavaScript value held in a record field or bound to a statement.
      Numbers are exact reals: NaN, infinities and float rounding are not modelled. */
  datatype Value = Undefined | Null | Bool(b: bool) | Num(n: real) | Str(s: string)

  /** JavaScript truthiness, as used by `if (v)` and `v || d`. */
  predicate Truthy(v: Value) {
    match v
    case Undefined => false
    case Null => false
    case Bool(b) => b
    case Num(n) => n != 0.0
    case Str(s) => s != ""
  }

  /** `v || d` */
  function Or(v: Value, d: Value): Value {
    if Truthy(v) then v else d
  }

  /** A plain object: its own properties in enumeration order (`Object.entries`). */
  type Entry = (string, Value)
  type Record = seq<Entry>

  /** `Object.keys(r)` */
  function Keys(r: Record): (ks: seq<string>)
    ensures |ks| == |r| && forall i :: 0 <= i < |r| ==> ks[i] == r[i].0
  {
    if r == [] then [] else [r[0].0] + Keys(r[1..])
  }

  /** `Object.values(r)` */
  function ValuesOf(r: Record): (vs: seq<Value>)
    ensures |vs| == |r| && forall i :: 0 <= i < |r| ==> vs[i] == r[i].1
  {
    if r == [] then [] else [r[0].1] + ValuesOf(r[1..])
  }

  predicate HasKey(r: Record, k: string) {
    r != [] && (r[0].0 == k || HasKey(r[1..], k))
  }

  /** No key occurs twice, as in every JavaScript object. */
  predicate UniqueKeys(r: Record) {
    r == [] || (!HasKey(r[1..], r[0].0) && UniqueKeys(r[1..]))
  }

  /** `r[k]`: the value of the first property named k, `undefined` when there is none. */
  function Get(r: Record, k: string): Value {
    if r == [] then Undefined else if r[0].0 == k then r[0].1 else Get(r[1..], k)
  }

  /** The properties of `a`, each taking its value from `b` when `b` has that key. */
  function Patch(a: Record, b: Record): Record {
    if a == [] then [] else [(a[0].0, if HasKey(b, a[0].0) then Get(b, a[0].0) else a[0].1)] + Patch(a[1..], b)
  }

  /** The properties of `b` whose key `a` lacks, in `b`'s order. */
  function Fresh(b: Record, a: Record): Record {
    if b == [] then [] else (if HasKey(a, b[0].0) then [] else [b[0]]) + Fresh(b[1..], a)
  }

  /** The object spread `{ ...a, ...b }`: keys of `a` keep their places, values of `b` win,
      keys only `b` has follow in `b`'s order. */
  function Overlay(a: Record, b: Record): Record {
    Patch(a, b) + Fresh(b, a)
  }

  /** What `insert` is given: one record or an array of them. */
  datatype Records = One(record: Record) | Many(records: seq<Record>)

  /** `Array.isArray(records) ? records : [records]` */
  function AsArray(records: Records): (rs: seq<Record>)
    ensures records.One? ==> rs == [records.record]
    ensures records.Many? ==> rs == records.records
  {
    match records
    case One(r) => [r]
    case Many(rs) => rs
  }

  lemma HasKeyIff(r: Record, k: string)
    ensures HasKey(r, k) <==> exists i :: 0 <= i < |r| && r[i].0 == k
  {
    if r != [] {
      HasKeyIff(r[1..], k);
      if HasKey(r[1..], k) {
        var i :| 0 <= i < |r[1..]| && r[1..][i].0 == k;
        assert r[i + 1].0 == k;
      }
      if exists i :: 0 <= i < |r| && r[i].0 == k {
        var i :| 0 <= i < |r| && r[i].0 == k;
        if i > 0 { assert r[1..][i - 1].0 == k; }
      }
    }
  }

  lemma {:induction false} GetAbsent(r: Record, k: string)
    requires !HasKey(r, k)
    ensures Get(r, k) == Undefined
  {
    if r != [] { GetAbsent(r[1..], k); }
  }

  /** The first property named k decides `r[k]`. */
  lemma {:induction false} GetFirstAt(r: Record, k: string, i: nat)
    requires i < |r| && r[i].0 == k && forall j :: 0 <= j < i ==> r[j].0 != k
    ensures Get(r, k) == r[i].1
  {
    if i > 0 { GetFirstAt(r[1..], k, i - 1); }
  }

  lemma {:induction false} GetAppend(x: Record, y: Record, k: string)
    ensures HasKey(x + y, k) == (HasKey(x, k) || HasKey(y, k))
    ensures Get(x + y, k) == if HasKey(x, k) then Get(x, k) else Get(y, k)
  {
    if x == [] {
      assert x + y == y;
    } else {
      assert (x + y)[1..] == x[1..] + y;
      GetAppend(x[1..], y, k);
    }
  }

  lemma {:induction false} GetPatch(a: Record, b: Record, k: string)
    ensures HasKey(Patch(a, b), k) == HasKey(a, k)
    ensures HasKey(a, k) ==> Get(Patch(a, b), k) == if HasKey(b, k) then Get(b, k) else Get(a, k)
  {
    if a != [] { GetPatch(a[1..], b, k); }
  }

  lemma {:induction false} GetFresh(b: Record, a: Record, k: string)
    ensures HasKey(Fresh(b, a), k) == (HasKey(b, k) && !HasKey(a, k))
    ensures !HasKey(a, k) ==> Get(Fresh(b, a), k) == Get(b, k)
  {
    if b != [] {
      GetFresh(b[1..], a, k);
      var head: Record := if HasKey(a, b[0].0) then [] else [b[0]];
      GetAppend(head, Fresh(b[1..], a), k);
    }
  }

  /** Reading a spread object: the value comes from `b` when `b` has the key, else from `a`. */
  lemma GetOverlay(a: Record, b: Record, k: string)
    ensures HasKey(Overlay(a, b), k) == (HasKey(a, k) || HasKey(b, k))
    ensures Get(Overlay(a, b), k) == if HasKey(b, k) then Get(b, k) else Get(a, k)
  {
    GetAppend(Patch(a, b), Fresh(b, a), k);
    GetPatch(a, b, k);
    GetFresh(b, a, k);
    if !HasKey(a, k) && !HasKey(b, k) {
      GetAbsent(a, k);
      GetAbsent(Overlay(a, b), k);
    }
  }

  /** Spreading keeps the keys of `a` in place and in order. */
  lemma {:induction false} OverlayKeys(a: Record, b: Record)
    ensures |Overlay(a, b)| >= |a|
    ensures Keys(Overlay(a, b))[..|a|] == Keys(a)
  {
    assert |Patch(a, b)| == |a| by { PatchLength(a, b); }
    var o := Overlay(a, b);
    forall i | 0 <= i < |a| ensures o[i].0 == a[i].0 {
      PatchKeyAt(a, b, i);
    }
  }

  lemma {:induction false} PatchLength(a: Record, b: Record)
    ensures |Patch(a, b)| == |a|
  {
    if a != [] { PatchLength(a[1..], b); }
  }

  lemma {:induction false} PatchKeyAt(a: Record, b: Record, i: nat)
    requires i < |a|
    ensures |Patch(a, b)| == |a| && Patch(a, b)[i].0 == a[i].0
  {
    PatchLength(a, b);
    if i > 0 { PatchKeyAt(a[1..], b, i - 1); }
  }

  // ---------------------------------------------------------------------------
  // String length as JavaScript measures it

  /** How many UTF-16 code units a character takes: two for one outside the Basic
      Multilingual Plane (a surrogate pair), one otherwise. */
  function CodeUnits(c: char): nat {
    if c as int > 0xFFFF then 2 else 1
  }

  /** `s.length`: the number of UTF-16 code units, which equals the number of characters
      exactly when every character lies in the Basic Multilingual Plane. */
  function Utf16Length(s: string): (n: nat)
    ensures |s| <= n <= 2 * |s|
    ensures n == |s| <==> forall i :: 0 <= i < |s| ==> s[i] as int <= 0xFFFF
  {
    if s == [] then 0
    else
      var n := CodeUnits(s[0]) + Utf16Length(s[1..]);
      assert forall i :: 1 <= i < |s| ==> s[i] == s[1..][i - 1];
      n
  }

  // ---------------------------------------------------------------------------
  // Ordering of values, used by `ORDER BY` and by the `a < b ? -1 : a > b ? 1 : 0`
  // comparators. Numbers and booleans compare as JavaScript compares them, strings by
  // Unicode code point (the order of SQLite's BINARY collation); values of different kinds
  // are ordered by kind, as SQLite orders NULL before numbers before text.

  function Rank(v: Value): nat {
    match v
    case Undefined => 0
    case Null => 1
    case Bool(_) => 2
    case Num(_) => 3
    case Str(_) => 4
  }

  /** Lexicographic order on Unicode code points: SQLite's BINARY collation. JavaScript `<`
      compares UTF-16 code units instead, which agrees except where a character outside the
      Basic Multilingual Plane meets one from U+E000 to U+FFFF. */
  predicate StrLess(x: string, y: string) {
    if x == [] then y != []
    else if y == [] then false
    else if x[0] != y[0] then x[0] < y[0]
    else StrLess(x[1..], y[1..])
  }

  predicate Less(a: Value, b: Value) {
    if Rank(a) != Rank(b) then Rank(a) < Rank(b)
    else match (a, b)
      case (Bool(x), Bool(y)) => !x && y
      case (Num(x), Num(y)) => x < y
      case (Str(x), Str(y)) => StrLess(x, y)
      case _ => false
  }

  lemma {:induction false} StrLessIrreflexive(x: string)
    ensures !StrLess(x, x)
  {
    if x != [] { StrLessIrreflexive(x[1..]); }
  }

  lemma {:induction false} StrLessTransitive(x: string, y: string, z: string)
    requires StrLess(x, y) && StrLess(y, z)
    ensures StrLess(x, z)
  {
    if x != [] && y != [] && z != [] && x[0] == y[0] && y[0] == z[0] {
      StrLessTransitive(x[1..], y[1..], z[1..]);
    }
  }

  lemma {:induction false} StrLessTotal(x: string, y: string)
    ensures x == y || StrLess(x, y) || StrLess(y, x)
  {
    if x != [] && y != [] && x[0] == y[0] {
      StrLessTotal(x[1..], y[1..]);
      if x[1..] == y[1..] {
        assert x == [x[0]] + x[1..] && y == [y[0]] + y[1..];
      }
    }
  }

  /** `Less` is a strict total order on values. */
  lemma LessIrreflexive(a: Value)
    ensures !Less(a, a)
  {
    if a.Str? { StrLessIrreflexive(a.s); }
  }

  lemma LessTransitive(a: Value, b: Value, c: Value)
    requires Less(a, b) && Less(b, c)
    ensures Less(a, c)
  {
    if a.Str? && b.Str? && c.Str? { StrLessTransitive(a.s, b.s, c.s); }
  }

  lemma LessTotal(a: Value, b: Value)
    ensures a == b || Less(a, b) || Less(b, a)
  {
    if a.Str? && b.Str? { StrLessTotal(a.s, b.s); }
  }
}
