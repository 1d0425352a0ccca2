/** The values a JsonValue can hold, and the ordered dictionary behind its objects. */
module JsonValues {

  datatype Option<+T> = None | Some(value: T)

  // The C++ `int` that a JSON integer is stored in.
  type Int32 = n: int | -0x8000_0000 <= n <= 0x7fff_ffff

  datatype Json =
    | Null
    | Bool(b: bool)
    | Int(n: Int32)
    | Double(d: real)
    | String(s: string)
    | Array(elems: seq<Json>)
    | Object(members: JsonObject)

  datatype Entry<+V> = Entry(key: string, value: V)

  // std::map<std::string, V>: entries in strictly increasing key order.
  type Dict<+V> = ms: seq<Entry<V>> | Ordered(ms) witness []

  type Member = Entry<Json>
  type JsonObject = Dict<Json>

  ghost predicate Ordered<V>(ms: seq<Entry<V>>) {
    forall i, j | 0 <= i < j < |ms| :: Less(ms[i].key, ms[j].key)
  }

  /** The lexicographic order of std::string. */
  predicate Less(a: string, b: string) {
    if b == "" then false
    else if a == "" then true
    else a[0] < b[0] || (a[0] == b[0] && Less(a[1..], b[1..]))
  }

  /** `k` is where the strings first differ: `a` ends there, or goes on with a smaller character than `b`. */
  ghost predicate DiffersAt(a: string, b: string, k: nat) {
    k <= |a| && k < |b| && a[..k] == b[..k] && (k < |a| ==> a[k] < b[k])
  }

  /** The first difference decides, and a string comes before its extensions. */
  lemma {:induction false} LessIff(a: string, b: string)
    ensures Less(a, b) <==> exists k: nat :: DiffersAt(a, b, k)
  {
    if Less(a, b) {
      var k := FirstDifference(a, b);
    }
    forall k: nat | DiffersAt(a, b, k) ensures Less(a, b) {
      DifferenceDecides(a, b, k);
    }
  }

  lemma {:induction false} FirstDifference(a: string, b: string) returns (k: nat)
    requires Less(a, b)
    ensures DiffersAt(a, b, k)
  {
    k := 0;
    if a != "" && a[0] == b[0] {
      k := FirstDifference(a[1..], b[1..]);
      k := k + 1;
      assert a[..k] == [a[0]] + a[1..][..k - 1] && b[..k] == [b[0]] + b[1..][..k - 1];
    }
  }

  lemma {:induction false} DifferenceDecides(a: string, b: string, k: nat)
    requires DiffersAt(a, b, k)
    ensures Less(a, b)
  {
    if k > 0 {
      assert a[0] == a[..k][0] == b[..k][0] == b[0];
      assert a[1..][..k - 1] == a[..k][1..] == b[..k][1..] == b[1..][..k - 1];
      DifferenceDecides(a[1..], b[1..], k - 1);
    }
  }

  lemma {:induction false} LessIrreflexive(a: string)
    ensures !Less(a, a)
  {
    if a != "" {
      LessIrreflexive(a[1..]);
    }
  }

  lemma {:induction false} LessTransitive(a: string, b: string, c: string)
    requires Less(a, b) && Less(b, c)
    ensures Less(a, c)
  {
    if a != "" && a[0] == b[0] == c[0] {
      LessTransitive(a[1..], b[1..], c[1..]);
    }
  }

  lemma {:induction false} LessAsymmetric(a: string, b: string)
    requires Less(a, b)
    ensures !Less(b, a) && a != b
  {
    if a != "" && a[0] == b[0] {
      LessAsymmetric(a[1..], b[1..]);
    }
  }

  lemma {:induction false} LessTotal(a: string, b: string)
    ensures Less(a, b) || a == b || Less(b, a)
  {
    if a != "" && b != "" && a[0] == b[0] {
      LessTotal(a[1..], b[1..]);
      assert a == [a[0]] + a[1..] && b == [b[0]] + b[1..];
    }
  }

  /** `find` on an object: the value stored under a key, if any. */
  function Find(ms: seq<Member>, key: string): Option<Json> {
    if ms == [] then None
    else if ms[0].key == key then Some(ms[0].value)
    else Find(ms[1..], key)
  }

  /** `obj[key] = value`: overwrites the member of that key or inserts one at its place in the order. */
  function Put(ms: JsonObject, key: string, value: Json): (r: JsonObject)
    ensures forall m | m in r :: m.key == key || m in ms
    ensures r != [] && (ms != [] ==> r[0].key == key || r[0] == ms[0])
  {
    if ms == [] || Less(key, ms[0].key) then
      var r := [Entry(key, value)] + ms;
      OrderedCons(Entry(key, value), ms);
      r
    else if key == ms[0].key then
      var r := [Entry(key, value)] + ms[1..];
      assert forall i | 0 < i < |r| :: r[i] == ms[i];
      r
    else
      var rest: JsonObject := ms[1..];
      var tail := Put(rest, key, value);
      OrderedTail(ms, tail, key);
      [ms[0]] + tail
  }

  lemma OrderedCons(m: Member, ms: JsonObject)
    requires ms != [] ==> Less(m.key, ms[0].key)
    ensures Ordered([m] + ms)
  {
    var r := [m] + ms;
    forall i, j | 0 <= i < j < |r| ensures Less(r[i].key, r[j].key) {
      if i == 0 && j > 1 {
        LessTransitive(m.key, ms[0].key, ms[j - 1].key);
      }
    }
  }

  lemma {:induction false} OrderedTail(ms: JsonObject, tail: JsonObject, key: string)
    requires ms != [] && !Less(key, ms[0].key) && key != ms[0].key
    requires forall m | m in tail :: m.key == key || m in ms[1..]
    ensures Ordered([ms[0]] + tail)
  {
    LessTotal(key, ms[0].key);
    if tail != [] {
      assert tail[0] in tail;
    }
    OrderedCons(ms[0], tail);
  }

  lemma {:induction false} FindPut(ms: JsonObject, key: string, value: Json, other: string)
    ensures Find(Put(ms, key, value), other) == if other == key then Some(value) else Find(ms, other)
  {
    var r := Put(ms, key, value);
    if ms == [] || Less(key, ms[0].key) {
      assert r[1..] == ms;
    } else if key == ms[0].key {
      assert r[1..] == ms[1..];
    } else {
      var rest: JsonObject := ms[1..];
      assert r[1..] == Put(rest, key, value);
      FindPut(rest, key, value, other);
    }
  }

  lemma {:induction false} FindIn(ms: JsonObject, i: nat)
    requires i < |ms|
    ensures Find(ms, ms[i].key) == Some(ms[i].value)
  {
    if i > 0 {
      LessIrreflexive(ms[i].key);
      var rest: JsonObject := ms[1..];
      FindIn(rest, i - 1);
    }
  }

  lemma {:induction false} FindSome(ms: seq<Member>, key: string) returns (i: nat)
    requires Find(ms, key).Some?
    ensures i < |ms| && ms[i] == Entry(key, Find(ms, key).value)
  {
    i := 0;
    if ms[0].key != key {
      i := FindSome(ms[1..], key);
      i := i + 1;
    }
  }

  /** An object is determined by what its keys find: the order of insertion leaves no trace. */
  lemma {:induction false} ObjectExtensional(a: JsonObject, b: JsonObject)
    requires forall key :: Find(a, key) == Find(b, key)
    ensures a == b
  {
    assert a != [] ==> Find(a, a[0].key) == Find(b, a[0].key);
    assert b != [] ==> Find(a, b[0].key) == Find(b, b[0].key);
    if a != [] && b != [] {
      SameFirst(a, b);
      var ra: JsonObject, rb: JsonObject := a[1..], b[1..];
      forall key ensures Find(ra, key) == Find(rb, key) {
        assert Find(a, key) == Find(b, key);
        if key == a[0].key {
          NotInRest(a);
          NotInRest(b);
        }
      }
      ObjectExtensional(ra, rb);
      assert a == [a[0]] + ra && b == [b[0]] + rb;
    }
  }

  lemma {:induction false} FindNone(ms: seq<Member>, key: string)
    requires forall m | m in ms :: m.key != key
    ensures Find(ms, key) == None
  {
    if ms != [] {
      FindNone(ms[1..], key);
    }
  }

  lemma NotInRest(a: JsonObject)
    requires a != []
    ensures Find(a[1..], a[0].key) == None
  {
    LessIrreflexive(a[0].key);
    FindNone(a[1..], a[0].key);
  }

  lemma {:induction false} SameFirst(a: JsonObject, b: JsonObject)
    requires a != [] && b != []
    requires forall key :: Find(a, key) == Find(b, key)
    ensures a[0] == b[0]
  {
    assert Find(b, a[0].key) == Some(a[0].value) by { assert Find(a, a[0].key) == Find(b, a[0].key); }
    assert Find(a, b[0].key) == Some(b[0].value) by { assert Find(a, b[0].key) == Find(b, b[0].key); }
    var i := FindSome(b, a[0].key);
    var j := FindSome(a, b[0].key);
    if i > 0 && j > 0 {
      LessTransitive(a[0].key, a[j].key, b[i].key);
      LessIrreflexive(a[0].key);
    }
  }

  /** Two insertions under different keys commute; under one key the later one stays. */
  lemma {:induction false} PutOrder(ms: JsonObject, k1: string, v1: Json, k2: string, v2: Json)
    ensures k1 != k2 ==> Put(Put(ms, k1, v1), k2, v2) == Put(Put(ms, k2, v2), k1, v1)
    ensures Put(Put(ms, k1, v1), k1, v2) == Put(ms, k1, v2)
  {
    var once, twice := Put(ms, k1, v2), Put(Put(ms, k1, v1), k1, v2);
    var ab, ba := Put(Put(ms, k1, v1), k2, v2), Put(Put(ms, k2, v2), k1, v1);
    forall key ensures Find(once, key) == Find(twice, key) && (k1 != k2 ==> Find(ab, key) == Find(ba, key)) {
      FindPut(ms, k1, v2, key);
      FindPut(ms, k1, v1, key);
      FindPut(ms, k2, v2, key);
      FindPut(Put(ms, k1, v1), k1, v2, key);
      FindPut(Put(ms, k1, v1), k2, v2, key);
      FindPut(Put(ms, k2, v2), k1, v1, key);
    }
    ObjectExtensional(once, twice);
    if k1 != k2 {
      ObjectExtensional(ab, ba);
    }
  }

  lemma AppendTail<T>(s: seq<T>, x: T)
    requires s != []
    ensures s + [x] == [s[0]] + (s[1..] + [x])
  {
  }

  /** Inserting a key above all others appends it: the step by which a printed object is rebuilt. */
  lemma {:induction false} PutAppends(ms: JsonObject, key: string, value: Json)
    requires forall m | m in ms :: Less(m.key, key)
    ensures Put(ms, key, value) == ms + [Entry(key, value)]
  {
    if ms != [] {
      assert ms[0] in ms;
      LessAsymmetric(ms[0].key, key);
      var rest: JsonObject := ms[1..];
      PutAppends(rest, key, value);
      AppendTail(ms, Entry(key, value));
    }
  }
}
