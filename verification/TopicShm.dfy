/** The topic table as JSON text in shared memory: what a writer leaves there and what a reader recovers. */
module TopicShm {
  import opened JsonValues
  import opened JsonPrinter
  import opened JsonParser
  import JsonCodec
  import opened TopicTable
  import opened TopicRuns

  // sizeof(TopicsInfo): a count and 1024 entries of a 64-byte name and an id.
  const TOPIC_INFO_SIZE: nat := 4 + MAX_TOPICS * (64 + 4)

  // ----- the byte region -----

  /** A copy into the region; what lies behind the region is not part of the model. */
  function Overlay(region: string, bytes: string, offset: nat): (r: string)
    ensures |r| == |region|
    ensures forall k | 0 <= k < |r| :: r[k] == if offset <= k < offset + |bytes| then bytes[k - offset] else region[k]
  {
    if offset >= |region| then region
    else
      var n := if offset + |bytes| <= |region| then |bytes| else |region| - offset;
      region[..offset] + bytes[..n] + region[offset + n..]
  }

  /** std::string of a char buffer: the bytes before the first NUL. */
  function CString(buffer: string): string {
    if buffer == "" || buffer[0] == '\0' then "" else [buffer[0]] + CString(buffer[1..])
  }

  /** The data area of a segment, behind a header of `head` bytes; an object whose Create has thrown has no mapping. */
  class ShmBase {
    const data: array<char>
    const head: nat
    const mapped: bool
    var time: int

    constructor (size: nat, head: nat, mapped: bool)
      ensures fresh(data) && data.Length == size && this.head == head && this.mapped == mapped
      ensures forall i | 0 <= i < size :: data[i] == '\0'
    {
      data := new char[size](_ => '\0');
      this.head, this.mapped := head, mapped;
      time := 0;
    }

    /**
     * False stands for an exception: that of the range, whose check includes the header, or that of a missing mapping. A
     * write that passes the check and the data area leaves its first bytes there.
     */
    method Write(bytes: string, offset: nat, now: int) returns (written: bool)
      modifies data, this`time
      ensures written <==> mapped && offset + |bytes| <= data.Length + head
      ensures data[..] == if written then Overlay(old(data[..]), bytes, offset) else old(data[..])
      ensures time == if written then now else old(time)
    {
      if offset + |bytes| > data.Length + head {
        return false;
      }
      if !mapped {
        return false;
      }
      var i := 0;
      while i < |bytes|
        invariant 0 <= i <= |bytes|
        invariant forall k | 0 <= k < data.Length ::
                    data[k] == if offset <= k < offset + i then bytes[k - offset] else old(data[..])[k]
      {
        if offset + i < data.Length {
          data[offset + i] := bytes[i];
        }
        i := i + 1;
      }
      time := now;
      written := true;
    }

    /** None stands for an exception; of bytes behind the data area nothing is said. */
    method Read(size: nat, offset: nat) returns (bytes: Option<string>)
      ensures bytes.Some? <==> mapped && offset + size <= data.Length + head
      ensures bytes.Some? ==>
                |bytes.value| == size && forall k | 0 <= k < size && offset + k < data.Length :: bytes.value[k] == data[offset + k]
    {
      if offset + size > data.Length + head {
        return None;
      }
      if !mapped {
        return None;
      }
      var buffer := seq(size, _ => '\0');
      var i := 0;
      while i < size
        invariant 0 <= i <= size == |buffer|
        invariant forall k | 0 <= k < i && offset + k < data.Length :: buffer[k] == data[offset + k]
      {
        if offset + i < data.Length {
          buffer := buffer[i := data[offset + i]];
        }
        i := i + 1;
      }
      bytes := Some(buffer);
    }
  }

  // ----- the text of a table -----

  function EntryJson(e: TopicInfo): Json {
    Object(Put(Put([], "topic_id", Int(e.id)), "name", String(e.name)))
  }

  function Entries(slots: seq<TopicInfo>, n: nat): (elems: seq<Json>)
    requires n <= |slots|
    ensures |elems| == n && forall i | 0 <= i < n :: elems[i] == EntryJson(slots[i])
  {
    if n == 0 then [] else Entries(slots, n - 1) + [EntryJson(slots[n - 1])]
  }

  function TableJson(t: Table): Json
    requires ValidTable(t)
  {
    Object(Put(Put([], "topic_count", Int(t.count)), "topics", Array(Entries(t.slots, t.count))))
  }

  function Text(t: Table, format: Format): string
    requires ValidTable(t)
  {
    Print(TableJson(t), format)
  }

  // ----- reading it back -----

  // What `v[key]` and `v[i]` give; None stands for the exceptions, and for the Null inserted under a missing key.
  function MemberOf(v: Json, key: string): Option<Json> {
    if v.Object? then Find(v.members, key) else None
  }

  function ElementOf(v: Json, i: nat): Option<Json> {
    if v.Array? && i < |v.elems| then Some(v.elems[i]) else None
  }

  function TopicField(json: Json, i: nat, field: string): Option<Json> {
    var topics := MemberOf(json, "topics");
    var entry := if topics.Some? then ElementOf(topics.value, i) else None;
    if entry.Some? then MemberOf(entry.value, field) else None
  }

  /** Entry `i` over an old one, and whether both fields had their types: the id is stored before the name is read. */
  function ReadEntry(json: Json, i: nat, old_: TopicInfo): (TopicInfo, bool) {
    var id, name := TopicField(json, i, "topic_id"), TopicField(json, i, "name");
    if id.None? || !id.value.Int? then (old_, false)
    else if name.None? || !name.value.String? then (TopicInfo(old_.name, id.value.n), false)
    else (TopicInfo(CString(name.value.s), id.value.n), true)
  }

  function ReadEntries(json: Json, i: nat, n: nat, slots: seq<TopicInfo>): (r: (seq<TopicInfo>, bool))
    requires i <= n <= |slots|
    ensures |r.0| == |slots|
    decreases n - i
  {
    if i == n then (slots, true)
    else
      var (e, ok) := ReadEntry(json, i, slots[i]);
      if ok then ReadEntries(json, i + 1, n, slots[i := e]) else (slots[i := e], false)
  }

  /** The count that a text announces; None when reading it throws. */
  function Announced(s: string, stod: Stod): Option<int> {
    var doc := Document(s, stod);
    var count := if doc.Ok? then MemberOf(doc.value, "topic_count") else None;
    if count.Some? && count.value.Int? then Some(count.value.n) else None
  }

  /** A text must not announce more entries than the table holds: the source does not check. */
  ghost predicate Announces(s: string, stod: Stod) {
    var n := Announced(s, stod);
    n.Some? ==> 0 <= n.value <= MAX_TOPICS
  }

  /** readTopicsInfo_: the cached table after reading `s`; every exception leaves a count of 0. */
  function Recover(s: string, cache: Table, stod: Stod): (r: Table)
    requires ValidTable(cache) && Announces(s, stod)
    ensures ValidTable(r)
  {
    var n := Announced(s, stod);
    if n.None? then Table(cache.slots, 0)
    else
      var (slots, ok) := ReadEntries(Document(s, stod).value, 0, n.value, cache.slots);
      Table(slots, if ok then n.value else 0)
  }

  function Seen(region: string): string
    requires TOPIC_INFO_SIZE <= |region|
  {
    CString(region[..TOPIC_INFO_SIZE])
  }

  // ----- the segment after a call -----

  /** addSubTopic leaves the topic text alone; the other registrations rewrite it. */
  ghost predicate Writes(t: Table, op: Op)
    requires ValidTable(t) && InBounds(t, op)
  {
    op.Publish? || (op.Register? && Apply(t, op).1 >= 0)
  }

  /**
   * The segment after one call: the topic text, if it is written, and behind its region the text of the node table, by
   * this process or another; `nodes` is empty when none is written.
   */
  ghost function Image(region: string, t: Table, op: Op, nodes: string, format: Format): (r: string)
    requires ValidTable(t) && InBounds(t, op)
    ensures |r| == |region|
  {
    Overlay(if Writes(t, op) then Overlay(region, Text(Apply(t, op).0, format), 0) else region, nodes, TOPIC_INFO_SIZE)
  }

  /** Byte by byte: the node text from the end of the topic region on, the topic text from the beginning on, and the old bytes. */
  lemma ImageByBytes(region: string, t: Table, op: Op, nodes: string, format: Format, k: nat)
    requires ValidTable(t) && InBounds(t, op) && k < |region|
    ensures var text := Text(Apply(t, op).0, format);
      Image(region, t, op, nodes, format)[k]
      == if 4 + 1024 * 68 <= k < 4 + 1024 * 68 + |nodes| then nodes[k - (4 + 1024 * 68)]
         else if Writes(t, op) && k < |text| then text[k]
         else region[k]
  {
  }

  lemma OverlayNothing(region: string, offset: nat)
    ensures Overlay(region, "", offset) == region
  {
  }

  // ----- one process -----

  /** One process: its cached table and the segment it shares with the others. */
  class ShmManager {
    const registry: Registry
    const shm: ShmBase

    ghost predicate Valid()
      reads registry, registry.topics
    {
      registry.Valid() && TOPIC_INFO_SIZE <= shm.data.Length && shm.mapped
    }

    constructor (shm: ShmBase)
      requires TOPIC_INFO_SIZE <= shm.data.Length && shm.mapped
      ensures Valid() && this.shm == shm && fresh(registry) && fresh(registry.topics) && registry.Contents() == EMPTY
    {
      this.shm := shm;
      registry := new Registry();
    }

    /** The array of entries, filled into one of nulls. */
    method TopicsArray() returns (topics: seq<Json>)
      requires Valid()
      ensures topics == Entries(registry.topics[..], registry.count)
    {
      topics := seq(registry.count, _ => Null);
      var i := 0;
      while i < registry.count
        invariant 0 <= i <= registry.count == |topics|
        invariant forall k | 0 <= k < i :: topics[k] == EntryJson(registry.topics[k])
      {
        topics := topics[i := EntryJson(registry.topics[i])];
        i := i + 1;
      }
    }

    /** False stands for the exception of a text that exceeds the segment. */
    method WriteTopicsInfo(format: Format, now: int) returns (written: bool)
      requires Valid()
      modifies shm.data, shm`time
      ensures Valid() && registry.Contents() == old(registry.Contents())
      ensures written <==> |Text(registry.Contents(), format)| <= shm.data.Length + shm.head
      ensures shm.data[..] ==
              if written then Overlay(old(shm.data[..]), Text(registry.Contents(), format), 0) else old(shm.data[..])
    {
      var topics := TopicsArray();
      var text := JsonCodec.Serialize(Object(Put(Put([], "topic_count", Int(registry.count)), "topics", Array(topics))), format);
      assert text == Text(registry.Contents(), format);
      written := shm.Write(text, 0, now);
    }

    /** What becomes of a node text: one that does not fit behind the topic region is not written, and throws. */
    function Placed(nodes: string): string {
      if TOPIC_INFO_SIZE + |nodes| <= shm.data.Length + shm.head then nodes else ""
    }

    /** writeRegistryToShm_: the topics and, behind their region, the text of the node table. */
    method WriteRegistry(nodes: string, format: Format, now: int) returns (written: bool)
      requires Valid()
      modifies shm.data, shm`time
      ensures Valid() && registry.Contents() == old(registry.Contents())
      ensures written <==>
                && |Text(registry.Contents(), format)| <= shm.data.Length + shm.head
                && TOPIC_INFO_SIZE + |nodes| <= shm.data.Length + shm.head
      ensures |Text(registry.Contents(), format)| > shm.data.Length + shm.head ==> shm.data[..] == old(shm.data[..])
      ensures |Text(registry.Contents(), format)| <= shm.data.Length + shm.head ==>
                shm.data[..] == Overlay(Overlay(old(shm.data[..]), Text(registry.Contents(), format), 0), Placed(nodes), TOPIC_INFO_SIZE)
    {
      written := WriteTopicsInfo(format, now);
      if written {
        OverlayNothing(shm.data[..], TOPIC_INFO_SIZE);
        written := shm.Write(nodes, TOPIC_INFO_SIZE, now);
      }
    }

    method AddPubTopic(topic: string, event: string, nodes: string, format: Format, now: int) returns (id: int, written: bool)
      requires Valid() && FitsPub(registry.Contents(), FullName(topic, event))
      modifies registry`count, registry.topics, shm.data, shm`time
      ensures Valid() && (registry.Contents(), id) == AddPub(old(registry.Contents()), FullName(topic, event))
      ensures written <==>
                && |Text(registry.Contents(), format)| <= shm.data.Length + shm.head
                && TOPIC_INFO_SIZE + |nodes| <= shm.data.Length + shm.head
      ensures |Text(registry.Contents(), format)| > shm.data.Length + shm.head ==> shm.data[..] == old(shm.data[..])
      ensures |Text(registry.Contents(), format)| <= shm.data.Length + shm.head ==>
                shm.data[..]
                == Image(old(shm.data[..]), old(registry.Contents()), Op.Publish(FullName(topic, event)), Placed(nodes), format)
    {
      id := registry.AddPubTopic(topic, event);
      written := WriteRegistry(nodes, format, now);
    }

    /** addSubTopic writes the node table only. */
    method AddSubTopic(topic: string, event: string, nodes: string, format: Format, now: int) returns (id: int, written: bool)
      requires Valid() && Fits(registry.Contents(), FullName(topic, event))
      modifies registry`count, registry.topics, shm.data, shm`time
      ensures Valid() && (registry.Contents(), id) == FindOrCreate(old(registry.Contents()), FullName(topic, event))
      ensures written <==> TOPIC_INFO_SIZE + |nodes| <= shm.data.Length + shm.head
      ensures shm.data[..]
              == Image(old(shm.data[..]), old(registry.Contents()), Op.AddSub(FullName(topic, event)), Placed(nodes), format)
    {
      id := registry.AddSubTopic(topic, event);
      OverlayNothing(shm.data[..], TOPIC_INFO_SIZE);
      written := shm.Write(nodes, TOPIC_INFO_SIZE, now);
    }

    /** Whether it ends without an exception. */
    ghost predicate Registers(name: string, nodes: string, format: Format)
      requires Valid() && FitsPublish(registry.Contents(), name)
      reads registry, registry.topics
    {
      || Listed(registry.Contents(), name)
      || (&& |Text(PublishOnce(registry.Contents(), name), format)| <= shm.data.Length + shm.head
          && TOPIC_INFO_SIZE + |nodes| <= shm.data.Length + shm.head)
    }

    /** The guard of publish: isTopicExist, and addPubTopic only when it is false. */
    method EnsurePublished(topic: string, event: string, nodes: string, format: Format, now: int) returns (written: bool)
      requires Valid() && FitsPublish(registry.Contents(), FullName(topic, event))
      modifies registry`count, registry.topics, shm.data, shm`time
      ensures Valid() && registry.Contents() == PublishOnce(old(registry.Contents()), FullName(topic, event))
      ensures written <==> old(Registers(FullName(topic, event), nodes, format))
      ensures shm.data[..] ==
              if old(Listed(registry.Contents(), FullName(topic, event)))
                || |Text(registry.Contents(), format)| > shm.data.Length + shm.head then old(shm.data[..])
              else Image(old(shm.data[..]), old(registry.Contents()), Op.Publish(FullName(topic, event)), Placed(nodes), format)
    {
      written := registry.IsTopicExist(topic, event);
      if !written {
        var _, ok := AddPubTopic(topic, event, nodes, format, now);
        written := ok;
      }
    }

    method RegisterTopicEvent(topic: string, event: string, format: Format, now: int) returns (id: int, written: bool)
      requires Valid() && Fits(registry.Contents(), FullName(topic, event))
      modifies registry`count, registry.topics, shm.data, shm`time
      ensures Valid() && (registry.Contents(), id) == FindOrCreate(old(registry.Contents()), FullName(topic, event))
      ensures written <==> id < 0 || |Text(registry.Contents(), format)| <= shm.data.Length + shm.head
      ensures !written ==> shm.data[..] == old(shm.data[..])
      ensures written ==>
                shm.data[..] == Image(old(shm.data[..]), old(registry.Contents()), Op.Register(FullName(topic, event)), "", format)
    {
      id := registry.RegisterTopicEvent(topic, event);
      written := true;
      if id >= 0 {
        written := WriteTopicsInfo(format, now);
      }
      OverlayNothing(shm.data[..], TOPIC_INFO_SIZE);
    }

    method ReadTopicsInfo(stod: Stod)
      requires Valid()
      requires Announces(Seen(shm.data[..]), stod)
      modifies registry`count, registry.topics
      ensures Valid() && registry.Contents() == Recover(Seen(shm.data[..]), old(registry.Contents()), stod)
    {
      var buffer := shm.Read(TOPIC_INFO_SIZE, 0);
      assert buffer.value == shm.data[..][..TOPIC_INFO_SIZE];
      var text := CString(buffer.value);
      var doc := JsonCodec.Deserialize(text, stod);
      registry.count := 0;
      var n := Announced(text, stod);
      if n.None? {
        return;
      }
      var i := 0;
      ghost var was := registry.topics[..];
      while i < n.value
        invariant 0 <= i <= n.value && registry.count == 0
        invariant ReadEntries(doc.value, i, n.value, registry.topics[..]) == ReadEntries(doc.value, 0, n.value, was)
      {
        var (e, ok) := ReadEntry(doc.value, i, registry.topics[i]);
        ghost var before := registry.topics[..];
        registry.topics[i] := e;
        assert registry.topics[..] == before[i := e];
        if !ok {
          return;
        }
        i := i + 1;
      }
      registry.count := n.value;
    }
  }
}
