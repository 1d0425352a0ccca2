/** The text of a topic table: it holds no NUL, only grows, stays within bounds, and reads back. */
module TopicText {
  import opened JsonValues
  import opened JsonText
  import opened JsonPrinter
  import opened JsonParser
  import opened JsonPrinted
  import opened JsonTheorems
  import JsonHeap
  import opened TopicTable
  import opened TopicShm

  predicate NulFree(s: string) {
    '\0' !in s
  }

  /** Every name a table holds is a C string. */
  ghost predicate Clean(t: Table) {
    forall i | 0 <= i < |t.slots| :: NulFree(t.slots[i].name)
  }

  // ----- the objects in explicit form -----

  lemma EntryMembers(e: TopicInfo)
    ensures EntryJson(e).members == [Entry("name", String(e.name)), Entry("topic_id", Int(e.id))]
  {
    DifferenceDecides("name", "topic_id", 0);
  }

  /** An entry is what the two writes `json[..]["topic_id"] = id` and `json[..]["name"] = name` make of a null. */
  lemma EntryIsStored(e: TopicInfo)
    ensures var (v, first) := JsonHeap.Stored(Null, [JsonHeap.Key("topic_id")], Int(e.id));
      first && JsonHeap.Stored(v, [JsonHeap.Key("name")], String(e.name)) == (EntryJson(e), true)
  {
    var v := JsonHeap.Stored(Null, [JsonHeap.Key("topic_id")], Int(e.id)).0;
    assert v == Object(Put([], "topic_id", Int(e.id)));
    assert JsonHeap.Stored(v, [JsonHeap.Key("name")], String(e.name)).0 == Object(Put(v.members, "name", String(e.name)));
  }

  // ----- the table as it is built -----

  function Topics(count: Int32, elems: seq<Json>): Json {
    Object(Put(Put([], "topic_count", Int(count)), "topics", Array(elems)))
  }

  /** A write below `json["topics"][i]`. */
  lemma {:induction false} StoredInTopics(count: Int32, elems: seq<Json>, i: nat, field: string, w: Json)
    requires i < |elems|
    ensures var (e, ok) := JsonHeap.Stored(elems[i], [JsonHeap.Key(field)], w);
      JsonHeap.Stored(Topics(count, elems), [JsonHeap.Key("topics"), JsonHeap.At(i), JsonHeap.Key(field)], w)
      == (Topics(count, elems[i := e]), ok)
  {
    var path := [JsonHeap.Key("topics"), JsonHeap.At(i), JsonHeap.Key(field)];
    var ms := Put([], "topic_count", Int(count));
    var (e, ok) := JsonHeap.Stored(elems[i], [JsonHeap.Key(field)], w);
    assert path[1..] == [JsonHeap.At(i), JsonHeap.Key(field)] && path[1..][1..] == [JsonHeap.Key(field)];
    assert JsonHeap.Stored(Array(elems), path[1..], w) == (Array(elems[i := e]), ok);
    FindPut(ms, "topics", Array(elems), "topics");
    PutOrder(ms, "topics", Array(elems), "topics", Array(elems[i := e]));
  }

  /** `json["topics"][i]["topic_id"] = ..` and `json["topics"][i]["name"] = ..` for all entries from `i` on. */
  function Filled(json: Json, slots: seq<TopicInfo>, i: nat, n: nat): Json
    requires i <= n <= |slots|
    decreases n - i
  {
    if i == n then json
    else
      var path := [JsonHeap.Key("topics"), JsonHeap.At(i)];
      var first := JsonHeap.Stored(json, path + [JsonHeap.Key("topic_id")], Int(slots[i].id)).0;
      Filled(JsonHeap.Stored(first, path + [JsonHeap.Key("name")], String(slots[i].name)).0, slots, i + 1, n)
  }

  function Nulls(n: nat): (elems: seq<Json>)
    ensures |elems| == n && forall i | 0 <= i < n :: elems[i] == Null
  {
    if n == 0 then [] else Nulls(n - 1) + [Null]
  }

  /** The first `i` entries of a table, and null for each of the others. */
  function Partly(t: Table, i: nat): (elems: seq<Json>)
    requires ValidTable(t) && i <= t.count
    ensures |elems| == t.count
    ensures forall k | 0 <= k < t.count :: elems[k] == if k < i then EntryJson(t.slots[k]) else Null
  {
    Entries(t.slots, i) + Nulls(t.count - i)
  }

  lemma {:induction false} FilledIs(t: Table, json: Json, i: nat)
    requires ValidTable(t) && i <= t.count && json == Topics(t.count, Partly(t, i))
    ensures Filled(json, t.slots, i, t.count) == TableJson(t)
    decreases t.count - i
  {
    if i == t.count {
      assert Partly(t, i) == Entries(t.slots, t.count);
    } else {
      var more := FilledStep(t, json, i);
      FilledIs(t, more, i + 1);
    }
  }

  lemma {:induction false} FilledStep(t: Table, json: Json, i: nat) returns (more: Json)
    requires ValidTable(t) && i < t.count && json == Topics(t.count, Partly(t, i))
    ensures more == Topics(t.count, Partly(t, i + 1))
    ensures Filled(json, t.slots, i, t.count) == Filled(more, t.slots, i + 1, t.count)
  {
    var elems := Partly(t, i);
    EntryFilled(t.count, elems, i, t.slots[i]);
    more := Topics(t.count, elems[i := EntryJson(t.slots[i])]);
    PartlyNext(t, i);
  }

  lemma PartlyNext(t: Table, i: nat)
    requires ValidTable(t) && i < t.count
    ensures Partly(t, i)[i := EntryJson(t.slots[i])] == Partly(t, i + 1)
  {
  }

  /** The two writes for one entry. */
  lemma {:induction false} EntryFilled(count: Int32, elems: seq<Json>, i: nat, e: TopicInfo)
    requires i < |elems| && elems[i] == Null
    ensures var path := [JsonHeap.Key("topics"), JsonHeap.At(i)];
      var first := JsonHeap.Stored(Topics(count, elems), path + [JsonHeap.Key("topic_id")], Int(e.id)).0;
      JsonHeap.Stored(first, path + [JsonHeap.Key("name")], String(e.name)) == (Topics(count, elems[i := EntryJson(e)]), true)
  {
    var half := JsonHeap.Stored(Null, [JsonHeap.Key("topic_id")], Int(e.id)).0;
    var path := [JsonHeap.Key("topics"), JsonHeap.At(i)];
    assert path + [JsonHeap.Key("topic_id")] == [JsonHeap.Key("topics"), JsonHeap.At(i), JsonHeap.Key("topic_id")];
    assert path + [JsonHeap.Key("name")] == [JsonHeap.Key("topics"), JsonHeap.At(i), JsonHeap.Key("name")];
    EntryIsStored(e);
    StoredInTopics(count, elems, i, "topic_id", Int(e.id));
    StoredInTopics(count, elems[i := half], i, "name", String(e.name));
    assert elems[i := half][i := EntryJson(e)] == elems[i := EntryJson(e)];
  }

  /** The table's JSON is what the writes of the source build from null: the count, an array of nulls, and all entries. */
  lemma {:induction false} TableIsStored(t: Table)
    requires ValidTable(t)
    ensures var counted := JsonHeap.Stored(Null, [JsonHeap.Key("topic_count")], Int(t.count)).0;
      var empty := JsonHeap.Stored(counted, [JsonHeap.Key("topics")], Array(Nulls(t.count))).0;
      Filled(empty, t.slots, 0, t.count) == TableJson(t)
  {
    var counted := JsonHeap.Stored(Null, [JsonHeap.Key("topic_count")], Int(t.count)).0;
    assert counted == Object(Put([], "topic_count", Int(t.count)));
    assert JsonHeap.Stored(counted, [JsonHeap.Key("topics")], Array(Nulls(t.count))).0 == Topics(t.count, Nulls(t.count));
    assert Partly(t, 0) == Nulls(t.count);
    FilledIs(t, Topics(t.count, Nulls(t.count)), 0);
  }

  lemma KeysOrdered()
    ensures Less("topic_count", "topics")
  {
    assert "topic_count"[..5] == "topics"[..5] == "topic";
    DifferenceDecides("topic_count", "topics", 5);
  }

  lemma {:induction false} PutTwo(k1: string, v1: Json, k2: string, v2: Json)
    requires Less(k1, k2)
    ensures Put(Put([], k1, v1), k2, v2) == [Entry(k1, v1), Entry(k2, v2)]
  {
    var one := Put([], k1, v1);
    assert one == [Entry(k1, v1)];
    PutAppends(one, k2, v2);
  }

  lemma TableMembers(t: Table)
    requires ValidTable(t)
    ensures TableJson(t).members
            == [Entry("topic_count", Int(t.count)), Entry("topics", Array(Entries(t.slots, t.count)))]
  {
    KeysOrdered();
    PutTwo("topic_count", Int(t.count), "topics", Array(Entries(t.slots, t.count)));
  }

  lemma EntryDoubleFree(e: TopicInfo)
    ensures DoubleFree(EntryJson(e))
  {
    EntryMembers(e);
  }

  lemma PairDoubleFree(ms: JsonObject)
    requires |ms| == 2 && DoubleFree(ms[0].value) && DoubleFree(ms[1].value)
    ensures DoubleFree(Object(ms))
  {
  }

  lemma TableDoubleFree(t: Table)
    requires ValidTable(t)
    ensures DoubleFree(TableJson(t))
  {
    TableMembers(t);
    var elems := Entries(t.slots, t.count);
    forall i | 0 <= i < t.count ensures DoubleFree(elems[i]) {
      EntryDoubleFree(t.slots[i]);
    }
    assert DoubleFree(Array(elems));
    PairDoubleFree(TableJson(t).members);
  }

  // ----- its text -----

  predicate PlainKey(key: string) {
    forall i | 0 <= i < |key| :: 'a' <= key[i] <= 'z' || key[i] == '_'
  }

  /** The text of an object of two members: its length, and that it is free of NULs if its values are. */
  lemma TwoMembers(ms: JsonObject, format: Format)
    requires |ms| == 2 && PlainKey(ms[0].key) && PlainKey(ms[1].key)
    ensures |Print(Object(ms), format)|
            == 9 + |ms[0].key| + |Print(ms[0].value, format)| + |ms[1].key| + |Print(ms[1].value, format)|
    ensures (NulFree(Print(ms[0].value, format)) && NulFree(Print(ms[1].value, format)))
            ==> NulFree(Print(Object(ms), format))
  {
    QuotePlain(ms[0].key);
    QuotePlain(ms[1].key);
    assert PrintMembers(ms, 2, format) == "";
    Joined("", Quote(ms[1].key), Print(ms[1].value, format), "", PrintMembers(ms, 1, format));
    Joined("", Quote(ms[0].key), Print(ms[0].value, format), PrintMembers(ms, 1, format), PrintMembers(ms, 0, format));
  }

  lemma Joined(comma: string, key: string, value: string, rest: string, all: string)
    requires all == comma + (key + (":" + (value + rest))) || all == "," + (key + (":" + (value + rest)))
    ensures all == comma + (key + (":" + (value + rest))) ==> |all| == |comma| + |key| + 1 + |value| + |rest|
    ensures all == "," + (key + (":" + (value + rest))) ==> |all| == 2 + |key| + |value| + |rest|
    ensures NulFree(comma) && NulFree(key) && NulFree(value) && NulFree(rest) ==> NulFree(all)
  {
  }

  lemma QuotePlain(s: string)
    requires PlainKey(s)
    ensures Quote(s) == "\"" + s + "\""
    ensures NulFree(Quote(s))
  {
    EscapePlain(s);
  }

  lemma {:induction false} EscapePlain(s: string)
    requires forall i | 0 <= i < |s| :: EscapeChar(s[i]) == [s[i]]
    ensures Escape(s) == s
  {
    if s != "" {
      EscapePlain(s[1..]);
    }
  }

  lemma {:induction false} EscapeNulFree(s: string)
    requires NulFree(s)
    ensures NulFree(Escape(s))
  {
    if s != "" {
      EscapeNulFree(s[1..]);
    }
  }

  lemma {:induction false} DecimalLength(n: nat, m: nat)
    requires n <= m
    ensures |Decimal(n)| <= |Decimal(m)|
  {
    if n >= 10 {
      DecimalLength(n / 10, m / 10);
    }
  }

  lemma {:induction false} IntText(n: Int32, format: Format)
    ensures NulFree(Print(Int(n), format))
    ensures n >= 0 ==> Print(Int(n), format) == Decimal(n)
  {
    var d := Decimal(if n < 0 then 0 - n else n as int);
    assert Print(Int(n), format) == SignText(n < 0) + (d + ("" + ""));
    assert forall c | c in d :: IsDigit(c);
  }

  lemma EntryText(e: TopicInfo, format: Format)
    requires e.id >= 0
    ensures |Print(EntryJson(e), format)| == 23 + |Escape(e.name)| + |Decimal(e.id)|
    ensures NulFree(e.name) ==> NulFree(Print(EntryJson(e), format))
  {
    EntryMembers(e);
    TwoMembers(EntryJson(e).members, format);
    IntText(e.id, format);
    if NulFree(e.name) {
      EscapeNulFree(e.name);
    }
  }

  lemma {:induction false} ElementsNulFree(elems: seq<Json>, i: nat, format: Format)
    requires i <= |elems| && forall k | 0 <= k < |elems| :: NulFree(Print(elems[k], format))
    ensures NulFree(PrintElements(elems, i, format))
    decreases |elems| - i
  {
    if i < |elems| {
      ElementsNulFree(elems, i + 1, format);
    }
  }

  /** A longer array has a longer text. */
  lemma {:induction false} ElementsGrow(a: seq<Json>, b: seq<Json>, i: nat, format: Format)
    requires i <= |a| <= |b| && a == b[..|a|]
    ensures |PrintElements(a, i, format)| <= |PrintElements(b, i, format)|
    decreases |a| - i
  {
    if i < |a| {
      assert a[i] == b[..|a|][i] == b[i];
      ElementsGrow(a, b, i + 1, format);
    }
  }

  ghost predicate Natural(t: Table) {
    forall i | 0 <= i < |t.slots| :: t.slots[i].id >= 0
  }

  lemma {:induction false} ArrayText(elems: seq<Json>, format: Format)
    ensures |Print(Array(elems), format)| == 2 + |PrintElements(elems, 0, format)|
    ensures NulFree(PrintElements(elems, 0, format)) ==> NulFree(Print(Array(elems), format))
  {
  }

  lemma TableParts(t: Table) returns (ms: JsonObject)
    requires ValidTable(t)
    ensures TableJson(t) == Object(ms) && |ms| == 2
    ensures PlainKey(ms[0].key) && |ms[0].key| == 11 && ms[0].value == Int(t.count)
    ensures PlainKey(ms[1].key) && |ms[1].key| == 6 && ms[1].value == Array(Entries(t.slots, t.count))
  {
    KeysPlain();
    TableMembers(t);
    ms := TableJson(t).members;
  }

  lemma KeysPlain()
    ensures PlainKey("topic_count") && PlainKey("topics")
  {
  }

  lemma {:induction false} PartsText(ms: JsonObject, n: Int32, elems: seq<Json>, format: Format)
    requires |ms| == 2 && n >= 0
    requires PlainKey(ms[0].key) && |ms[0].key| == 11 && ms[0].value == Int(n)
    requires PlainKey(ms[1].key) && |ms[1].key| == 6 && ms[1].value == Array(elems)
    ensures |Print(Object(ms), format)| == 28 + |Decimal(n)| + |PrintElements(elems, 0, format)|
    ensures NulFree(PrintElements(elems, 0, format)) ==> NulFree(Print(Object(ms), format))
  {
    TwoMembers(ms, format);
    IntText(n, format);
    ArrayText(elems, format);
  }

  lemma TextLength(t: Table, format: Format)
    requires ValidTable(t)
    ensures |Text(t, format)| == 28 + |Decimal(t.count)| + |PrintElements(Entries(t.slots, t.count), 0, format)|
    ensures NulFree(PrintElements(Entries(t.slots, t.count), 0, format)) ==> NulFree(Text(t, format))
  {
    var ms := TableParts(t);
    PartsText(ms, t.count, Entries(t.slots, t.count), format);
  }

  lemma TextNulFree(t: Table, format: Format)
    requires ValidTable(t) && Clean(t) && Natural(t)
    ensures NulFree(Text(t, format))
  {
    var elems := Entries(t.slots, t.count);
    forall k | 0 <= k < t.count ensures NulFree(Print(elems[k], format)) {
      EntryText(t.slots[k], format);
    }
    ElementsNulFree(elems, 0, format);
    TextLength(t, format);
  }

  ghost predicate Extends(u: Table, t: Table)
    requires ValidTable(t) && ValidTable(u)
  {
    t.count <= u.count && u.slots[..t.count] == t.slots[..t.count]
  }

  lemma EntriesKept(t: Table, u: Table)
    requires ValidTable(t) && ValidTable(u) && Extends(u, t)
    ensures Entries(t.slots, t.count) == Entries(u.slots, u.count)[..t.count]
  {
    var a, b := Entries(t.slots, t.count), Entries(u.slots, u.count);
    forall i | 0 <= i < t.count ensures a[i] == b[i] {
      SlotKept(t, u, i);
    }
  }

  lemma SlotKept(t: Table, u: Table, i: nat)
    requires ValidTable(t) && ValidTable(u) && Extends(u, t) && i < t.count
    ensures t.slots[i] == u.slots[i]
  {
    assert t.slots[i] == t.slots[..t.count][i] && u.slots[i] == u.slots[..t.count][i];
  }

  /** The text of a table that keeps all entries of another is at least as long. */
  lemma TextGrows(t: Table, u: Table, format: Format)
    requires ValidTable(t) && ValidTable(u) && Extends(u, t)
    ensures |Text(t, format)| <= |Text(u, format)|
  {
    TextLength(t, format);
    TextLength(u, format);
    DecimalLength(t.count, u.count);
    EntriesKept(t, u);
    ElementsGrow(Entries(t.slots, t.count), Entries(u.slots, u.count), 0, format);
  }

  // ----- reading a text back -----

  lemma {:induction false} CStringUpTo(buffer: string, n: nat)
    requires n < |buffer| && NulFree(buffer[..n]) && buffer[n] == '\0'
    ensures CString(buffer) == buffer[..n]
  {
    if n > 0 {
      assert buffer[0] == buffer[..n][0] && buffer[1..][..n - 1] == buffer[..n][1..];
      CStringUpTo(buffer[1..], n - 1);
    }
  }

  lemma {:induction false} CStringWhole(s: string)
    requires NulFree(s)
    ensures CString(s) == s
  {
    if s != "" {
      CStringWhole(s[1..]);
    }
  }

  /** A field is what the operators read along its path. */
  lemma {:induction false} FieldIsFetched(json: Json, i: nat, field: string)
    ensures TopicField(json, i, field)
            == JsonHeap.Fetched(json, [JsonHeap.Key("topics"), JsonHeap.At(i), JsonHeap.Key(field)])
    ensures MemberOf(json, field) == JsonHeap.Fetched(json, [JsonHeap.Key(field)])
  {
    var path := [JsonHeap.Key("topics"), JsonHeap.At(i), JsonHeap.Key(field)];
    assert path[1..] == [JsonHeap.At(i), JsonHeap.Key(field)] && path[1..][1..] == [JsonHeap.Key(field)];
    KeyIsFetched(json, field);
    var topics := MemberOf(json, "topics");
    if topics.Some? && ElementOf(topics.value, i).Some? {
      assert JsonHeap.Fetched(topics.value, path[1..]) == JsonHeap.Fetched(ElementOf(topics.value, i).value, [JsonHeap.Key(field)]);
      KeyIsFetched(ElementOf(topics.value, i).value, field);
    }
  }

  lemma {:induction false} KeyIsFetched(json: Json, key: string)
    ensures MemberOf(json, key) == JsonHeap.Fetched(json, [JsonHeap.Key(key)])
  {
    assert [JsonHeap.Key(key)][1..] == [];
  }

  /** Entry `i` of a text has both fields, with their types. */
  ghost predicate HasEntry(json: Json, i: nat) {
    var id, name := TopicField(json, i, "topic_id"), TopicField(json, i, "name");
    id.Some? && id.value.Int? && name.Some? && name.value.String?
  }

  ghost function EntryOf(json: Json, i: nat): TopicInfo
    requires HasEntry(json, i)
  {
    TopicInfo(CString(TopicField(json, i, "name").value.s), TopicField(json, i, "topic_id").value.n)
  }

  lemma {:induction false} ReadEntriesIff(json: Json, i: nat, n: nat, slots: seq<TopicInfo>)
    requires i <= n <= |slots|
    ensures var (r, ok) := ReadEntries(json, i, n, slots);
      && (ok <==> forall k | i <= k < n :: HasEntry(json, k))
      && (ok ==> forall k | i <= k < n :: r[k] == EntryOf(json, k))
      && (forall k | 0 <= k < i || n <= k < |slots| :: r[k] == slots[k])
    decreases n - i
  {
    if i < n {
      var (e, ok) := ReadEntry(json, i, slots[i]);
      if ok {
        ReadEntriesIff(json, i + 1, n, slots[i := e]);
        assert ReadEntries(json, i + 1, n, slots[i := e]).0[i] == e;
      } else {
        assert !HasEntry(json, i);
      }
    }
  }

  /**
   * Any text at all: the count becomes the one it announces exactly when each of so many entries has its two fields, and
   * these are then the entries; else it becomes 0. No later entry is touched.
   */
  lemma {:induction false} RecoveredIff(s: string, cache: Table, stod: Stod)
    requires ValidTable(cache) && Announces(s, stod)
    ensures var r, n := Recover(s, cache, stod), Announced(s, stod);
      if n.Some? && forall i | 0 <= i < n.value :: HasEntry(Document(s, stod).value, i) then
        && r.count == n.value
        && (forall i | 0 <= i < r.count :: r.slots[i] == EntryOf(Document(s, stod).value, i))
        && (forall i | r.count <= i < MAX_TOPICS :: r.slots[i] == cache.slots[i])
      else r.count == 0
  {
    var n := Announced(s, stod);
    if n.Some? {
      ReadEntriesIff(Document(s, stod).value, 0, n.value, cache.slots);
    }
  }

  /** The bytes up to the first NUL, or all if there is none. */
  lemma {:induction false} CStringIs(buffer: string)
    ensures NulFree(CString(buffer)) && |CString(buffer)| <= |buffer| && CString(buffer) == buffer[..|CString(buffer)|]
    ensures |CString(buffer)| < |buffer| ==> buffer[|CString(buffer)|] == '\0'
  {
    if buffer != "" && buffer[0] != '\0' {
      CStringIs(buffer[1..]);
    }
  }

  lemma FieldsOf(t: Table, i: nat)
    requires ValidTable(t) && i < t.count
    ensures TopicField(TableJson(t), i, "topic_id") == Some(Int(t.slots[i].id))
    ensures TopicField(TableJson(t), i, "name") == Some(String(t.slots[i].name))
  {
    var json := TableJson(t);
    TableMembers(t);
    FindIn(json.members, 1);
    var e := EntryJson(t.slots[i]);
    EntryMembers(t.slots[i]);
    FindIn(e.members, 0);
    FindIn(e.members, 1);
  }

  /** The cached slots with the first `n` taken from `t`. */
  function Spliced(t: Table, n: nat, slots: seq<TopicInfo>): (r: seq<TopicInfo>)
    requires n <= |t.slots| && n <= |slots|
    ensures |r| == |slots|
  {
    t.slots[..n] + slots[n..]
  }

  /** `json` holds the entries of `t`. */
  ghost predicate Holds(json: Json, t: Table)
    requires ValidTable(t)
  {
    && MemberOf(json, "topic_count") == Some(Int(t.count))
    && forall i | 0 <= i < t.count ::
         && TopicField(json, i, "topic_id") == Some(Int(t.slots[i].id))
         && TopicField(json, i, "name") == Some(String(t.slots[i].name))
  }

  lemma TableHolds(t: Table)
    requires ValidTable(t)
    ensures Holds(TableJson(t), t)
  {
    TableMembers(t);
    FindIn(TableJson(t).members, 0);
    forall i | 0 <= i < t.count
      ensures TopicField(TableJson(t), i, "topic_id") == Some(Int(t.slots[i].id))
      ensures TopicField(TableJson(t), i, "name") == Some(String(t.slots[i].name))
    {
      FieldsOf(t, i);
    }
  }

  lemma {:induction false} EntriesRead(json: Json, t: Table, i: nat, slots: seq<TopicInfo>)
    requires ValidTable(t) && Clean(t) && Holds(json, t) && i <= t.count && |slots| == MAX_TOPICS
    ensures ReadEntries(json, i, t.count, Spliced(t, i, slots)) == (Spliced(t, t.count, slots), true)
    decreases t.count - i
  {
    if i < t.count {
      CStringWhole(t.slots[i].name);
      var now := Spliced(t, i, slots);
      assert ReadEntry(json, i, now[i]) == (t.slots[i], true);
      assert now[i := t.slots[i]] == Spliced(t, i + 1, slots);
      EntriesRead(json, t, i + 1, slots);
    }
  }

  /** A text whose value holds the entries of `t` puts them over whatever the cache held. */
  lemma Recovers(s: string, json: Json, t: Table, cache: Table, stod: Stod)
    requires ValidTable(t) && Clean(t) && ValidTable(cache) && Holds(json, t)
    requires Document(s, stod) == Ok(json, |s|)
    ensures Announces(s, stod) && Recover(s, cache, stod) == Table(Spliced(t, t.count, cache.slots), t.count)
  {
    EntriesRead(json, t, 0, cache.slots);
    assert Spliced(t, 0, cache.slots) == cache.slots;
  }

  lemma TextRecovers(t: Table, cache: Table, format: Format, stod: Stod)
    requires WritesNumbers(format) && ValidTable(t) && Clean(t) && ValidTable(cache)
    ensures Announces(Text(t, format), stod)
    ensures Recover(Text(t, format), cache, stod) == Table(Spliced(t, t.count, cache.slots), t.count)
  {
    TableDoubleFree(t);
    DoubleFreeRoundTrip(TableJson(t), format, stod);
    TableHolds(t);
    Recovers(Text(t, format), TableJson(t), t, cache, stod);
  }
}
