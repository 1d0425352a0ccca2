/** JsonValue as the object it is: a tagged union that owns its elements, copied deeply and written through paths. */
module JsonHeap {
  import opened JsonValues

  datatype Kind = NullKind | BoolKind | IntKind | DoubleKind | StringKind | ArrayKind | ObjectKind

  // One `[index]` or `[key]`.
  datatype Selector = At(index: nat) | Key(key: string)

  predicate OrderedKeys(keys: seq<string>) {
    forall i, j | 0 <= i < j < |keys| :: Less(keys[i], keys[j])
  }

  /** Keys and values side by side, as members. */
  function Zip(keys: seq<string>, values: seq<Json>): (ms: seq<Member>)
    requires |keys| == |values|
    ensures |ms| == |keys| && forall i | 0 <= i < |ms| :: ms[i] == Entry(keys[i], values[i])
    ensures OrderedKeys(keys) ==> Ordered(ms)
  {
    seq(|keys|, i requires 0 <= i < |keys| => Entry(keys[i], values[i]))
  }

  /** What `v[..][..] = w` leaves, and whether it ended without an exception. A missing key is filled with null first. */
  function Stored(v: Json, path: seq<Selector>, w: Json): (r: (Json, bool))
    decreases |path|
  {
    if path == [] then (w, true)
    else
      match path[0]
      case At(i) =>
        if !v.Array? || i >= |v.elems| then (v, false)
        else
          var (e, ok) := Stored(v.elems[i], path[1..], w);
          (Array(v.elems[i := e]), ok)
      case Key(key) =>
        if !v.Null? && !v.Object? then (v, false)
        else
          var ms: JsonObject := if v.Null? then [] else v.members;
          var (e, ok) := Stored(Held(ms, key), path[1..], w);
          (Object(Put(ms, key, e)), ok)
  }

  function MembersOf(v: Json): JsonObject {
    if v.Object? then v.members else []
  }

  /** The value under a key, null when it is missing. */
  function Held(ms: seq<Member>, key: string): Json {
    var found := Find(ms, key);
    if found.None? then Null else found.value
  }

  /** The value that the fields of one object describe, given those of its elements. */
  function Assemble(kind: Kind, b: bool, n: Int32, d: real, s: string, keys: seq<string>, vals: seq<Json>): Json
    requires kind == ObjectKind ==> |keys| == |vals| && OrderedKeys(keys)
  {
    match kind
    case NullKind => Null
    case BoolKind => Bool(b)
    case IntKind => Int(n)
    case DoubleKind => Double(d)
    case StringKind => String(s)
    case ArrayKind => Array(vals)
    case ObjectKind => Object(Zip(keys, vals))
  }

  lemma UpdateTail<T>(s: seq<T>, i: nat, x: T)
    requires 0 < i < |s|
    ensures s[i := x] == [s[0]] + s[1..][i - 1 := x]
  {
  }

  lemma {:induction false} PutFound(ms: JsonObject, i: nat, key: string, w: Json)
    requires i < |ms| && ms[i].key == key
    ensures Find(ms, key) == Some(ms[i].value) && Put(ms, key, w) == ms[i := Entry(key, w)]
  {
    FindIn(ms, i);
    if i == 0 {
      LessIrreflexive(key);
      assert ms[0 := Entry(key, w)] == [Entry(key, w)] + ms[1..];
    } else {
      LessAsymmetric(ms[0].key, key);
      var rest: JsonObject := ms[1..];
      PutFound(rest, i - 1, key, w);
      UpdateTail(ms, i, Entry(key, w));
    }
  }

  lemma {:induction false} ZipPut(keys: seq<string>, vals: seq<Json>, i: nat, e: Json)
    requires |keys| == |vals| && OrderedKeys(keys) && i < |keys|
    ensures Zip(keys, vals[i := e]) == Put(Zip(keys, vals), keys[i], e)
  {
    PutFound(Zip(keys, vals), i, keys[i], e);
    assert Zip(keys, vals[i := e]) == Zip(keys, vals)[i := Entry(keys[i], e)];
  }

  function InsertAt<T>(s: seq<T>, i: nat, x: T): (r: seq<T>)
    requires i <= |s|
    ensures |r| == |s| + 1 && r[i] == x
    ensures (forall j | 0 <= j < i :: r[j] == s[j]) && (forall j | i < j < |r| :: r[j] == s[j - 1])
  {
    var r := s[..i] + [x] + s[i..];
    assert r[i] == x;
    r
  }

  /** Position `i` is where `key` belongs among the keys. */
  predicate Fits(keys: seq<string>, i: nat, key: string) {
    i <= |keys| && (forall j | 0 <= j < i :: Less(keys[j], key)) && (forall j | i <= j < |keys| :: Less(key, keys[j]))
  }

  lemma InsertOrdered(keys: seq<string>, i: nat, key: string)
    requires OrderedKeys(keys) && Fits(keys, i, key)
    ensures OrderedKeys(InsertAt(keys, i, key))
  {
  }

  lemma InsertTail<T>(s: seq<T>, i: nat, x: T)
    requires 0 < i <= |s|
    ensures InsertAt(s, i, x) == [s[0]] + InsertAt(s[1..], i - 1, x)
  {
    assert s == [s[0]] + s[1..];
  }

  lemma {:induction false} PutBetween(ms: JsonObject, i: nat, key: string, w: Json)
    requires i <= |ms| && (forall j | 0 <= j < i :: Less(ms[j].key, key)) && (i < |ms| ==> Less(key, ms[i].key))
    ensures Put(ms, key, w) == InsertAt(ms, i, Entry(key, w))
  {
    if i > 0 {
      LessAsymmetric(ms[0].key, key);
      InsertTail(ms, i, Entry(key, w));
      var rest: JsonObject := ms[1..];
      PutBetween(rest, i - 1, key, w);
    }
  }

  lemma {:induction false} PutMissing(keys: seq<string>, vals: seq<Json>, i: nat, key: string, w: Json)
    requires |keys| == |vals| && OrderedKeys(keys) && Fits(keys, i, key)
    ensures Find(Zip(keys, vals), key) == None
    ensures Put(Zip(keys, vals), key, w) == Zip(InsertAt(keys, i, key), InsertAt(vals, i, w))
  {
    var ms: JsonObject := Zip(keys, vals);
    LessIrreflexive(key);
    FindNone(ms, key);
    PutBetween(ms, i, key, w);
    assert InsertAt(ms, i, Entry(key, w)) == Zip(InsertAt(keys, i, key), InsertAt(vals, i, w));
  }

  /** Inserting null before a write makes no difference to the write. */
  lemma {:induction false} NewSlot(keys: seq<string>, vals: seq<Json>, i: nat, key: string)
    requires |keys| == |vals| && OrderedKeys(keys) && Fits(keys, i, key)
    ensures OrderedKeys(InsertAt(keys, i, key)) && Held(Zip(keys, vals), key) == Null
    ensures forall w :: Put(Zip(InsertAt(keys, i, key), InsertAt(vals, i, Null)), key, w) == Put(Zip(keys, vals), key, w)
  {
    InsertOrdered(keys, i, key);
    PutMissing(keys, vals, i, key, Null);
    forall w ensures Put(Put(Zip(keys, vals), key, Null), key, w) == Put(Zip(keys, vals), key, w) {
      PutOrder(Zip(keys, vals), key, Null, key, w);
    }
  }

  /** What the const operators read along a path; None stands for their exceptions. */
  function Fetched(v: Json, path: seq<Selector>): Option<Json>
    decreases |path|
  {
    if path == [] then Some(v)
    else
      match path[0]
      case At(i) => if v.Array? && i < |v.elems| then Fetched(v.elems[i], path[1..]) else None
      case Key(key) =>
        if !v.Object? || Find(v.members, key).None? then None else Fetched(Find(v.members, key).value, path[1..])
  }

  /** The paths part at some selector. */
  predicate Diverge(p: seq<Selector>, q: seq<Selector>)
    decreases |p|
  {
    p != [] && q != [] && (p[0] != q[0] || Diverge(p[1..], q[1..]))
  }

  /** A missing key reads like a null under it, except at the end of a path. */
  lemma {:induction false} FetchedKey(v: Json, q: seq<Selector>)
    requires q != [] && q[0].Key?
    ensures (Find(MembersOf(v), q[0].key).Some? || |q| > 1) ==>
              Fetched(v, q) == Fetched(Held(MembersOf(v), q[0].key), q[1..])
    ensures Find(MembersOf(v), q[0].key).None? ==> Fetched(v, q) == None
  {
  }

  /** A write that ends well is read back, and none, not even a failing one, shows on a path that parts from its own. */
  lemma {:induction false} StoredFetched(v: Json, path: seq<Selector>, w: Json, q: seq<Selector>)
    ensures Stored(v, path, w).1 ==> Fetched(Stored(v, path, w).0, path) == Some(w)
    ensures Diverge(path, q) ==> Fetched(Stored(v, path, w).0, q) == Fetched(v, q)
    decreases |path|
  {
    if path != [] {
      match path[0]
      case At(i) =>
        if v.Array? && i < |v.elems| {
          StoredFetched(v.elems[i], path[1..], w, if q == [] then [] else q[1..]);
        }
      case Key(key) =>
        if v.Null? || v.Object? {
          var ms := MembersOf(v);
          var e := Stored(Held(ms, key), path[1..], w).0;
          StoredFetched(Held(ms, key), path[1..], w, if q == [] then [] else q[1..]);
          FindPut(ms, key, e, key);
          if q != [] && q[0].Key? {
            FindPut(ms, key, e, q[0].key);
            FetchedKey(v, q);
            FetchedKey(Stored(v, path, w).0, q);
            assert Diverge(path, q) && q[0] == path[0] ==> Diverge(path[1..], q[1..]) && |q| > 1;
          }
        }
    }
  }

  // ----- when a write succeeds -----

  /** A selector can be applied to what a walk has met, None being a missing key: an index within an array, a key to an object, null or nothing. */
  predicate Allows(met: Option<Json>, sel: Selector) {
    match sel
    case At(i) => met.Some? && met.value.Array? && i < |met.value.elems|
    case Key(_) => met.None? || met.value.Null? || met.value.Object?
  }

  /** Every selector can be applied to what the ones before it read. */
  ghost predicate Writable(v: Json, path: seq<Selector>) {
    forall k | 0 <= k < |path| :: Allows(Fetched(v, path[..k]), path[k])
  }

  /** What the first selector of a path leads to, null for a missing key. */
  function Child(v: Json, sel: Selector): Json
    requires Allows(Some(v), sel)
  {
    match sel
    case At(i) => v.elems[i]
    case Key(key) => Held(MembersOf(v), key)
  }

  lemma {:induction false} FetchedNull(path: seq<Selector>)
    requires path != []
    ensures Fetched(Null, path) == None
  {
  }

  /** Beyond the first selector a walk sees the same as one that begins there, except that a missing key reads as null. */
  lemma {:induction false} FetchedBelow(v: Json, path: seq<Selector>, k: nat)
    requires path != [] && Allows(Some(v), path[0]) && 0 < k <= |path|
    ensures var met, below := Fetched(v, path[..k]), Fetched(Child(v, path[0]), path[1..][..k - 1]);
      met == below || (met == None && below == Some(Null))
  {
    assert path[..k][0] == path[0] && path[..k][1..] == path[1..][..k - 1];
    if path[0].Key? && (!v.Object? || Find(v.members, path[0].key).None?) {
      assert Fetched(v, path[..k]) == None;
      if k > 1 {
        FetchedNull(path[1..][..k - 1]);
      }
    }
  }

  lemma {:induction false} WritableBelow(v: Json, path: seq<Selector>)
    requires path != []
    ensures Writable(v, path) <==> Allows(Some(v), path[0]) && Writable(Child(v, path[0]), path[1..])
  {
    var rest := path[1..];
    assert path[..0] == [] && Fetched(v, path[..0]) == Some(v);
    if Allows(Some(v), path[0]) {
      forall k | 0 <= k < |rest|
        ensures Allows(Fetched(v, path[..k + 1]), path[k + 1]) <==> Allows(Fetched(Child(v, path[0]), rest[..k]), rest[k])
      {
        FetchedBelow(v, path, k + 1);
      }
      if Writable(v, path) {
        forall k | 0 <= k < |rest| ensures Allows(Fetched(Child(v, path[0]), rest[..k]), rest[k]) {
          assert Allows(Fetched(v, path[..k + 1]), path[k + 1]);
        }
      }
      if Writable(Child(v, path[0]), rest) {
        forall k | 0 <= k < |path| ensures Allows(Fetched(v, path[..k]), path[k]) {
          if k > 0 {
            assert Allows(Fetched(Child(v, path[0]), rest[..k - 1]), rest[k - 1]);
          }
        }
      }
    } else {
      assert !Allows(Fetched(v, path[..0]), path[0]);
    }
  }

  /** A write succeeds exactly when the walk along its path meets nothing but fitting arrays, objects, nulls and missing keys. */
  lemma {:induction false} StoredIff(v: Json, path: seq<Selector>, w: Json)
    ensures Stored(v, path, w).1 <==> Writable(v, path)
    decreases |path|
  {
    if path != [] {
      WritableBelow(v, path);
      if Allows(Some(v), path[0]) {
        StoredIff(Child(v, path[0]), path[1..], w);
      }
    }
  }

  /** So a value that can be read can be written over. */
  lemma {:induction false} ReadableIsWritable(v: Json, path: seq<Selector>)
    requires Fetched(v, path).Some?
    ensures Writable(v, path)
    decreases |path|
  {
    if path != [] {
      WritableBelow(v, path);
      ReadableIsWritable(Child(v, path[0]), path[1..]);
    }
  }

  /**
   * A write that fails at selector `k` leaves what it had reached there as it was, a missing key with null under it.
   * What lies off the path is the subject of `StoredFetched`.
   */
  lemma {:induction false} FailedWrite(v: Json, path: seq<Selector>, w: Json, k: nat)
    requires k < |path| && Writable(v, path[..k]) && !Allows(Fetched(v, path[..k]), path[k])
    ensures !Stored(v, path, w).1
    ensures Fetched(Stored(v, path, w).0, path[..k]) == Some(if Fetched(v, path[..k]).Some? then Fetched(v, path[..k]).value else Null)
    decreases |path|
  {
    if k > 0 {
      var prefix, rest := path[..k], path[1..];
      assert prefix[0] == path[0] && prefix[1..] == rest[..k - 1];
      WritableBelow(v, prefix);
      FetchedBelow(v, path, k);
      var child := Child(v, path[0]);
      FailedWrite(child, rest, w, k - 1);
      if path[0].Key? {
        FindPut(MembersOf(v), path[0].key, Stored(child, rest, w).0, path[0].key);
      }
    }
  }

  class JsonValue {
    var kind: Kind
    var boolVal: bool
    var intVal: Int32
    var doubleVal: real
    var strVal: string
    // The elements of an array, or the mapped values of an object in key order.
    var kids: seq<JsonValue>
    var keys: seq<string>
    // The value and the objects it is made of.
    ghost var value: Json
    ghost var vals: seq<Json>
    ghost var Repr: set<JsonValue>

    /** The elements are trees that share nothing, and their values are the recorded ones. */
    ghost predicate Kids()
      reads this`kids, this`vals, this`Repr, Repr - {this}
      decreases Repr, 0
    {
      && this in Repr && |vals| == |kids|
      && (forall i | 0 <= i < |kids| ::
            kids[i] in Repr - {this} && kids[i].Repr <= Repr - {this} && kids[i].Valid() && kids[i].value == vals[i])
      && (forall i, j | 0 <= i < j < |kids| :: kids[i].Repr !! kids[j].Repr)
    }

    /** The fields fit the kind, and the recorded value is the one they describe. */
    ghost predicate Shaped()
      reads this
    {
      && |vals| == |kids|
      && (kind != ArrayKind && kind != ObjectKind ==> kids == [])
      && (kind == ObjectKind ==> |keys| == |kids| && OrderedKeys(keys))
      && value == Assemble(kind, boolVal, intVal, doubleVal, strVal, keys, vals)
    }

    /** A tree: every value owns its elements. */
    ghost predicate Valid()
      reads this, Repr
      decreases Repr, 1
    {
      this in Repr && Shaped() && Kids()
    }

    constructor ()
      ensures Valid() && fresh(Repr) && value == Null && Repr == {this} && kind == NullKind
    {
      kind := NullKind;
      strVal, kids, keys := "", [], [];
      value, vals, Repr := Null, [], {this};
    }

    constructor FromBool(b: bool)
      ensures Valid() && fresh(Repr) && value == Bool(b)
    {
      kind, boolVal := BoolKind, b;
      strVal, kids, keys := "", [], [];
      value, vals, Repr := Bool(b), [], {this};
    }

    constructor FromInt(n: Int32)
      ensures Valid() && fresh(Repr) && value == Int(n)
    {
      kind, intVal := IntKind, n;
      strVal, kids, keys := "", [], [];
      value, vals, Repr := Int(n), [], {this};
    }

    constructor FromDouble(d: real)
      ensures Valid() && fresh(Repr) && value == Double(d)
    {
      kind, doubleVal := DoubleKind, d;
      strVal, kids, keys := "", [], [];
      value, vals, Repr := Double(d), [], {this};
    }

    constructor FromString(s: string)
      ensures Valid() && fresh(Repr) && value == String(s)
    {
      kind, strVal := StringKind, s;
      kids, keys := [], [];
      value, vals, Repr := String(s), [], {this};
    }

    /** An array of copies. */
    constructor FromArray(elems: seq<JsonValue>)
      requires forall i | 0 <= i < |elems| :: elems[i].Valid()
      ensures Valid() && fresh(Repr)
      ensures value.Array? && |value.elems| == |elems| && forall i | 0 <= i < |elems| :: value.elems[i] == elems[i].value
    {
      kind := ArrayKind;
      strVal, kids, keys := "", [], [];
      value, vals, Repr := Array([]), [], {this};
      new;
      var i := 0;
      while i < |elems|
        invariant i <= |elems| && Valid() && fresh(Repr) && kind == ArrayKind && |vals| == i
        invariant forall j | 0 <= j < |elems| :: elems[j].Valid() && elems[j].value == old(elems[j].value) && elems[j].Repr !! Repr
        invariant forall j | 0 <= j < i :: vals[j] == elems[j].value
      {
        var _ := PushBack(elems[i]);
        i := i + 1;
      }
    }

    method AsBool() returns (r: Option<bool>)
      requires Valid()
      ensures r == if value.Bool? then Some(value.b) else None
    {
      r := if kind == BoolKind then Some(boolVal) else None;
    }

    method AsInt() returns (r: Option<Int32>)
      requires Valid()
      ensures r == if value.Int? then Some(value.n) else None
    {
      r := if kind == IntKind then Some(intVal) else None;
    }

    method AsDouble() returns (r: Option<real>)
      requires Valid()
      ensures r == if value.Double? then Some(value.d) else None
    {
      r := if kind == DoubleKind then Some(doubleVal) else None;
    }

    method AsString() returns (r: Option<string>)
      requires Valid()
      ensures r == if value.String? then Some(value.s) else None
    {
      r := if kind == StringKind then Some(strVal) else None;
    }

    method Size() returns (n: Option<nat>)
      requires Valid()
      ensures n == if value.Array? then Some(|value.elems|) else if value.Object? then Some(|value.members|) else None
    {
      n := if kind == ArrayKind || kind == ObjectKind then Some(|kids|) else None;
    }

    method IsMember(key: string) returns (found: bool)
      requires Valid()
      ensures found <==> value.Object? && Find(value.members, key).Some?
    {
      found := false;
      if kind == ObjectKind {
        var i;
        i, found := Position(key);
      }
    }

    /** Where the map has a key. */
    method Position(key: string) returns (i: nat, found: bool)
      requires Valid() && kind == ObjectKind
      ensures found ==> i < |kids| && Find(value.members, key) == Some(vals[i])
      ensures !found ==> Find(value.members, key) == None
    {
      i, found := Locate(key);
      if found {
        PutFound(value.members, i, key, Null);
      } else {
        PutMissing(keys, vals, i, key, Null);
      }
    }

    /** The const operators along a path; null stands for an exception. */
    method Fetch(path: seq<Selector>) returns (found: JsonValue?)
      requires Valid()
      ensures found == null <==> Fetched(value, path) == None
      ensures found != null ==> found in Repr && found.Valid() && Some(found.value) == Fetched(value, path)
      decreases |path|
    {
      if path == [] {
        return this;
      }
      assert Kids();
      match path[0] {
        case At(i) =>
          if kind != ArrayKind || i >= |kids| {
            return null;
          }
          found := kids[i].Fetch(path[1..]);
        case Key(key) =>
          if kind != ObjectKind {
            return null;
          }
          var i, there := Position(key);
          if !there {
            return null;
          }
          found := kids[i].Fetch(path[1..]);
      }
    }

    /** copyData: takes over the kind of `other` and fresh copies of everything below it. */
    method CopyData(other: JsonValue)
      requires other.Valid() && this !in other.Repr
      modifies this
      ensures Valid() && fresh(Repr - {this}) && value == other.value
      decreases other.Repr
    {
      var copies: seq<JsonValue> := [];
      ghost var home: set<JsonValue> := {};
      while |copies| < |other.kids|
        invariant |copies| <= |other.kids| && fresh(home)
        invariant forall i | 0 <= i < |copies| ::
                    copies[i] in home && copies[i].Repr <= home && copies[i].Valid() && copies[i].value == other.vals[i]
        invariant forall i, j | 0 <= i < j < |copies| :: copies[i].Repr !! copies[j].Repr
      {
        var copy := new JsonValue();
        copy.CopyData(other.kids[|copies|]);
        copies, home := copies + [copy], home + copy.Repr;
      }
      TakeKids(copies, other.vals, home);
      TakeFields(other);
    }

    /** Elements that are trees of their own within `home`. */
    method TakeKids(copies: seq<JsonValue>, ghost copied: seq<Json>, ghost home: set<JsonValue>)
      requires this !in home && |copies| == |copied|
      requires forall i | 0 <= i < |copies| ::
                 copies[i] in home && copies[i].Repr <= home && copies[i].Valid() && copies[i].value == copied[i]
      requires forall i, j | 0 <= i < j < |copies| :: copies[i].Repr !! copies[j].Repr
      modifies this`kids, this`vals, this`Repr
      ensures Kids() && |kids| == |vals| && kids == copies && vals == copied && Repr == {this} + home
    {
      kids, vals, Repr := copies, copied, {this} + home;
    }

    /** The other fields of `other`, once the elements have the values of its own. */
    method TakeFields(other: JsonValue)
      requires other.Shaped() && Kids() && |kids| == |vals| && vals == other.vals && this != other
      modifies this`kind, this`boolVal, this`intVal, this`doubleVal, this`strVal, this`keys, this`value
      ensures Shaped() && Kids() && value == other.value
    {
      assert |other.kids| == 0 ==> |kids| == 0;
      kind, boolVal, intVal, doubleVal, strVal, keys :=
        other.kind, other.boolVal, other.intVal, other.doubleVal, other.strVal, other.keys;
      value := other.value;
    }

    /** The copy constructor: an equal tree of new objects only. */
    method Copy() returns (copy: JsonValue)
      requires Valid()
      ensures copy.Valid() && fresh(copy.Repr) && copy.value == value
    {
      copy := new JsonValue();
      copy.CopyData(this);
    }

    /** operator=: the old elements are destroyed first, so `other` may not be one of them nor contain this value. */
    method Assign(other: JsonValue)
      requires Valid() && other.Valid() && (other == this || other.Repr !! Repr)
      modifies this
      ensures Valid() && fresh(Repr - old(Repr)) && value == old(other.value)
    {
      if this != other {
        CopyData(other);
      }
    }

    /** push_back; false stands for the domain_error. The argument may be any tree, even this one. */
    method PushBack(other: JsonValue) returns (ok: bool)
      requires Valid() && other.Valid()
      modifies this
      ensures Valid() && fresh(Repr - old(Repr))
      ensures ok <==> old(value).Array?
      ensures value == if ok then Array(old(value).elems + [old(other.value)]) else old(value)
    {
      if kind != ArrayKind {
        return false;
      }
      var copy := other.Copy();
      Append(copy);
      value := Array(vals);
      ok := true;
    }

    /** One more element, a tree of its own. */
    method Append(copy: JsonValue)
      requires Kids() && |vals| == |kids| && copy.Valid() && copy.Repr !! Repr
      modifies this`kids, this`vals, this`Repr
      ensures Kids() && |vals| == |kids| && vals == old(vals) + [old(copy.value)] && Repr == old(Repr) + old(copy.Repr)
    {
      kids, vals, Repr := kids + [copy], vals + [copy.value], Repr + copy.Repr;
    }

    /** The position of a key in key order, and whether it is there. */
    method Locate(key: string) returns (i: nat, found: bool)
      requires kind == ObjectKind && Valid()
      ensures if found then i < |keys| && keys[i] == key else Fits(keys, i, key)
    {
      i := 0;
      while i < |keys| && Less(keys[i], key)
        invariant i <= |keys| && (forall j | 0 <= j < i :: Less(keys[j], key))
      {
        i := i + 1;
      }
      found := i < |keys| && keys[i] == key;
      if i < |keys| && !found {
        LessTotal(keys[i], key);
        forall j | i < j < |keys| ensures Less(key, keys[j]) {
          LessTransitive(key, keys[i], keys[j]);
        }
      }
    }

    /** A new null among the elements. */
    method Adopt(i: nat)
      requires Kids() && i <= |kids|
      modifies this`kids, this`vals, this`Repr
      ensures Kids() && vals == InsertAt(old(vals), i, Null) && fresh(Repr - old(Repr))
      ensures |kids| == |vals| && fresh(kids[i]) && kids[i].kind == NullKind && kids[i].Repr == {kids[i]}
    {
      var child := new JsonValue();
      ghost var was := kids;
      kids, vals := InsertAt(kids, i, child), InsertAt(vals, i, Null);
      Repr := Repr + {child};
      forall j, k | 0 <= j < k < |kids| ensures kids[j].Repr !! kids[k].Repr {
        assert j != i ==> kids[j] == was[if j < i then j else j - 1];
        assert k != i ==> kids[k] == was[if k < i then k else k - 1];
      }
    }

    /** Inserts null under a missing key. */
    method Insert(i: nat, key: string)
      requires kind == ObjectKind && Valid() && i <= |keys| && OrderedKeys(InsertAt(keys, i, key))
      modifies this`kids, this`keys, this`vals, this`value, this`Repr
      ensures Valid() && fresh(Repr - old(Repr))
      ensures keys == InsertAt(old(keys), i, key) && vals == InsertAt(old(vals), i, Null)
      ensures |kids| == |keys| && fresh(kids[i]) && kids[i].kind == NullKind && kids[i].Repr == {kids[i]}
    {
      Adopt(i);
      keys := InsertAt(keys, i, key);
      value := Object(Zip(keys, vals));
    }

    /** The insertion makes no difference to a write under the same key. */
    method InsertNew(i: nat, key: string)
      requires kind == ObjectKind && Valid() && Fits(keys, i, key)
      modifies this`kids, this`keys, this`vals, this`value, this`Repr
      ensures Valid() && fresh(Repr - old(Repr)) && |kids| == |keys| && i < |keys| && keys[i] == key && vals[i] == Null
      ensures fresh(kids[i]) && kids[i].kind == NullKind && kids[i].Repr == {kids[i]}
      ensures old(value).Object? && value.Object? && Held(old(value).members, key) == Null
      ensures forall w :: Put(value.members, key, w) == Put(old(value).members, key, w)
    {
      NewSlot(keys, vals, i, key);
      Insert(i, key);
    }

    method BecomeObject()
      requires Valid()
      modifies this`kind, this`keys, this`vals, this`value
      ensures Valid() && kids == old(kids)
      ensures if old(kind) == NullKind then kind == ObjectKind && keys == [] && value == Object([])
              else kind == old(kind) && keys == old(keys) && vals == old(vals) && value == old(value)
    {
      if kind == NullKind {
        kind, keys := ObjectKind, [];
        vals, value := [], Object([]);
      }
    }

    /** operator[] on a key: null becomes an empty object, and a missing key gets a null; -1 stands for the domain_error. */
    method Slot(key: string) returns (i: int)
      requires Valid()
      modifies this
      ensures Valid() && fresh(Repr - old(Repr))
      ensures i < 0 <==> !(old(value).Null? || old(value).Object?)
      ensures i < 0 ==> value == old(value)
      ensures i >= 0 ==>
                && kind == ObjectKind && i < |keys| && keys[i] == key && vals[i] == Held(MembersOf(old(value)), key)
                && value.Object? && forall w :: Put(value.members, key, w) == Put(MembersOf(old(value)), key, w)
      ensures i >= 0 ==>
                || (fresh(kids[i]) && kids[i].kind == NullKind && kids[i].Repr == {kids[i]})
                || (old(kind) == ObjectKind && i < |old(keys)| && old(keys)[i] == key && kids[i] == old(kids)[i])
    {
      BecomeObject();
      if kind != ObjectKind {
        return -1;
      }
      ghost var ms := value.members;
      var at, found := Locate(key);
      if found {
        PutFound(ms, at, key, Null);
      } else {
        InsertNew(at, key);
      }
      i := at;
    }

    /** Takes note that element `i` has changed: only the record of what this value is made of. */
    ghost method Refresh(i: nat)
      requires i < |kids| && ValidBut(i)
      modifies this`vals, this`value, this`Repr
      ensures Valid() && Repr == old(Repr) + kids[i].Repr && vals == old(vals)[i := kids[i].value]
    {
      vals := vals[i := kids[i].value];
      Repr := Repr + kids[i].Repr;
      value := Assemble(kind, boolVal, intVal, doubleVal, strVal, keys, vals);
      assert Kids();
    }

    /** Valid, except that element `i` may have another value and more objects than recorded. */
    ghost predicate ValidBut(i: nat)
      requires i < |kids|
      reads this, Repr, kids[i], kids[i].Repr
    {
      && this in Repr && |vals| == |kids|
      && kids[i].Valid() && this !in kids[i].Repr
      && (forall j | 0 <= j < |kids| && j != i ::
            kids[j] in Repr && this !in kids[j].Repr && kids[j].Repr <= Repr && kids[j].Valid() && kids[j].value == vals[j])
      && (forall j, k | 0 <= j < k < |kids| :: kids[j] in Repr + kids[i].Repr && kids[k] in Repr + kids[i].Repr && kids[j].Repr !! kids[k].Repr)
      && (kind == ArrayKind || kind == ObjectKind)
      && (kind == ObjectKind ==> |keys| == |kids| && OrderedKeys(keys))
    }

    /**
     * What a write along `path` demands of its argument: it contains no value on the path, and neither contains nor is
     * inside the value written to, unless it is that value. It may well be another part of the same tree.
     */
    ghost predicate Apart(path: seq<Selector>, other: JsonValue)
      requires Valid()
      reads this, Repr, other
      decreases |path|
    {
      assert path != [] ==> Kids();
      if path == [] then other == this || other.Repr !! Repr
      else
        && this !in other.Repr
        && match path[0]
           case At(i) => kind == ArrayKind && i < |kids| ==> kids[i].Apart(path[1..], other)
           case Key(key) =>
             kind == ObjectKind ==> forall i | 0 <= i < |keys| && keys[i] == key :: kids[i].Apart(path[1..], other)
    }

    /** The rest of a write, below element `i`. */
    method StoreBelow(i: nat, path: seq<Selector>, other: JsonValue) returns (ok: bool)
      requires Valid() && other.Valid() && this !in other.Repr && i < |kids| && kids[i].Valid() && kids[i].Apart(path, other)
      modifies Repr
      ensures Valid() && fresh(Repr - old(Repr)) && kind == old(kind) && keys == old(keys)
      ensures |vals| == |kids| == old(|kids|)
      ensures (vals[i], ok) == Stored(old(vals[i]), path, old(other.value)) && vals == old(vals)[i := vals[i]]
      decreases |path|, 1
    {
      assert Kids();
      ok := kids[i].Store(path, other);
      Refresh(i);
    }

    /** A write whose path begins with a key. */
    method StoreKey(key: string, path: seq<Selector>, other: JsonValue) returns (ok: bool)
      requires Valid() && other.Valid() && Apart([Key(key)] + path, other)
      modifies Repr
      ensures Valid() && fresh(Repr - old(Repr))
      ensures (value, ok) == Stored(old(value), [Key(key)] + path, old(other.value))
      decreases |path|, 2
    {
      assert ([Key(key)] + path)[1..] == path;
      var i := Slot(key);
      if i < 0 {
        return false;
      }
      ghost var before := vals;
      assert Kids();
      ok := StoreBelow(i, path, other);
      ZipPut(keys, before, i, vals[i]);
    }

    /** `(*this)[..][..] = other`; false stands for an exception on the way. */
    method Store(path: seq<Selector>, other: JsonValue) returns (ok: bool)
      requires Valid() && other.Valid() && Apart(path, other)
      modifies Repr
      ensures Valid() && fresh(Repr - old(Repr))
      ensures (value, ok) == Stored(old(value), path, old(other.value)) && (ok <==> old(Writable(value, path)))
      decreases |path|, 0
    {
      StoredIff(value, path, other.value);
      if path == [] {
        Assign(other);
        return true;
      }
      match path[0] {
        case At(index) =>
          if kind != ArrayKind || index >= |kids| {
            return false;
          }
          assert Kids();
          ok := StoreBelow(index, path[1..], other);
        case Key(key) =>
          assert path == [Key(key)] + path[1..];
          ok := StoreKey(key, path[1..], other);
      }
    }
  }

  /** A value that shares nothing with a tree is apart from all of its paths. */
  lemma {:induction false} DisjointApart(v: JsonValue, path: seq<Selector>, other: JsonValue)
    requires v.Valid() && other.Valid() && other.Repr !! v.Repr
    ensures v.Apart(path, other)
    decreases |path|
  {
    assert v.Kids();
    if path != [] {
      forall i | 0 <= i < |v.kids| ensures v.kids[i].Valid() && v.kids[i].Apart(path[1..], other) {
        DisjointApart(v.kids[i], path[1..], other);
      }
    }
  }

  /** Whatever is written through a copy, the original keeps its value, and so its text; what is written is as specified. */
  method WriteToCopy(original: JsonValue, path: seq<Selector>, other: JsonValue) returns (copy: JsonValue, ok: bool)
    requires original.Valid() && other.Valid()
    ensures original.Valid() && original.value == old(original.value)
    ensures copy.Valid() && copy.Repr !! original.Repr
    ensures (copy.value, ok) == Stored(old(original.value), path, old(other.value))
  {
    copy := original.Copy();
    DisjointApart(copy, path, other);
    ok := copy.Store(path, other);
  }

  /** And whatever is written to the original, pushed on it or assigned over it, a copy made before keeps the old value. */
  method WriteToOriginal(original: JsonValue, path: seq<Selector>, other: JsonValue, last: JsonValue) returns (copy: JsonValue)
    requires original.Valid() && other.Valid() && last.Valid() && other.Repr !! original.Repr && last.Repr !! original.Repr
    modifies original.Repr
    ensures original.Valid() && original.value == old(last.value)
    ensures copy.Valid() && copy.Repr !! original.Repr && copy.value == old(original.value)
  {
    copy := original.Copy();
    DisjointApart(original, path, other);
    var ok := original.Store(path, other);
    ok := original.PushBack(other);
    original.Assign(last);
  }
}
