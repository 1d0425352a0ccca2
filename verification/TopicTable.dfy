/** The topic registry of one ShmManager: a fixed table scanned by name, with the source's slot arithmetic. */
module TopicTable {
  import opened JsonValues
  import EventBits

  // MAX_TOPICS_PER_NODE.
  const MAX_TOPICS: nat := EventBits.EVENTS

  // The name_ buffer as the text before its first NUL, and event_id_; unused slots are zeroed.
  datatype TopicInfo = TopicInfo(name: string, id: Int32)

  const ZERO: TopicInfo := TopicInfo("", 0)

  // topics_ and topics_count.
  datatype Table = Table(slots: seq<TopicInfo>, count: nat)

  function ZeroSlots(n: nat): (slots: seq<TopicInfo>)
    ensures |slots| == n && forall i | 0 <= i < n :: slots[i] == ZERO
  {
    if n == 0 then [] else ZeroSlots(n - 1) + [ZERO]
  }

  const EMPTY: Table := Table(ZeroSlots(MAX_TOPICS), 0)

  ghost predicate ValidTable(t: Table) {
    |t.slots| == MAX_TOPICS && t.count <= MAX_TOPICS
  }

  function FullName(topic: string, event: string): (r: string)
    ensures r != ""
  {
    topic + "_" + event
  }

  /** Different events of one topic have different names. */
  lemma EventsDiffer(topic: string, event: string, other: string)
    requires FullName(topic, event) == FullName(topic, other)
    ensures event == other
  {
    assert FullName(topic, event)[|topic| + 1..] == event && FullName(topic, other)[|topic| + 1..] == other;
  }

  /** The name has an underscore at which the longer topic goes on and the shorter one's event begins. */
  predicate Overlap(topic: string, event: string, longer: string, rest: string) {
    |topic| < |longer| && longer[..|topic|] == topic && longer[|topic|] == '_' && event == longer[|topic| + 1..] + "_" + rest
  }

  /** Two topics share a name exactly when one goes on, after an underscore, with what the other's event begins with. */
  lemma NamesCollideIff(topic: string, event: string, other: string, rest: string)
    ensures FullName(topic, event) == FullName(other, rest)
            <==> (topic == other && event == rest) || Overlap(topic, event, other, rest) || Overlap(other, rest, topic, event)
  {
    if FullName(topic, event) == FullName(other, rest) {
      if |topic| == |other| {
        assert FullName(topic, event)[..|topic|] == topic && FullName(other, rest)[..|topic|] == other;
        EventsDiffer(topic, event, rest);
      } else if |topic| < |other| {
        Overlaps(topic, event, other, rest);
      } else {
        Overlaps(other, rest, topic, event);
      }
    }
    if Overlap(topic, event, other, rest) {
      Joins(topic, event, other, rest);
    }
    if Overlap(other, rest, topic, event) {
      Joins(other, rest, topic, event);
    }
  }

  lemma Overlaps(topic: string, event: string, longer: string, rest: string)
    requires FullName(topic, event) == FullName(longer, rest) && |topic| < |longer|
    ensures Overlap(topic, event, longer, rest)
  {
    var name := FullName(topic, event);
    assert longer == name[..|longer|] && topic == name[..|topic|] && event == name[|topic| + 1..];
    assert name[|topic|] == '_';
    assert name[|topic| + 1..] == longer[|topic| + 1..] + "_" + rest;
  }

  lemma Joins(topic: string, event: string, longer: string, rest: string)
    requires Overlap(topic, event, longer, rest)
    ensures FullName(topic, event) == FullName(longer, rest)
  {
    assert longer == topic + "_" + longer[|topic| + 1..];
  }

  /** The first of the first `n` slots that carries a name; `n` when there is none. */
  function Scan(slots: seq<TopicInfo>, n: nat, name: string): (r: nat)
    requires n <= |slots|
    ensures r <= n
    ensures r < n ==> slots[r].name == name
    ensures forall i | 0 <= i < r :: slots[i].name != name
  {
    if n == 0 then 0
    else
      var r := Scan(slots, n - 1, name);
      if r < n - 1 || slots[n - 1].name == name then r else n
  }

  predicate Listed(t: Table, name: string)
    requires ValidTable(t)
  {
    Scan(t.slots, t.count, name) < t.count
  }

  /** getTopicEventId_: -1 when the scan finds nothing. */
  function Lookup(t: Table, name: string): int
    requires ValidTable(t)
  {
    var r := Scan(t.slots, t.count, name);
    if r < t.count then t.slots[r].id else -1
  }

  /** The slots that an operation on `name` may write lie inside the table. */
  ghost predicate Fits(t: Table, name: string)
    requires ValidTable(t)
  {
    Listed(t, name) || t.count + 1 != MAX_TOPICS
  }

  ghost predicate FitsPub(t: Table, name: string)
    requires ValidTable(t)
  {
    if Listed(t, name) then t.count < MAX_TOPICS else t.count + 1 < MAX_TOPICS
  }

  /** findOrCreateTopicEvent_: a new entry goes to slot count + 1, while the count grows by one. */
  function FindOrCreate(t: Table, name: string): (r: (Table, int))
    requires ValidTable(t) && Fits(t, name)
    ensures ValidTable(r.0)
  {
    if Listed(t, name) then (t, Lookup(t, name))
    else if t.count >= MAX_TOPICS then (t, -1)
    else
      var id := t.count + 1;
      (Table(t.slots[id := TopicInfo(name, id)], id), id)
  }

  /** addPubTopic: after finding or creating, writes slot `count` as well and counts again. */
  function AddPub(t: Table, name: string): (r: (Table, int))
    requires ValidTable(t) && FitsPub(t, name)
    ensures ValidTable(r.0)
  {
    var (u, id) := FindOrCreate(t, name);
    (Table(u.slots[u.count := TopicInfo(name, id)], u.count + 1), id)
  }

  ghost predicate FitsPublish(t: Table, name: string)
    requires ValidTable(t)
  {
    Listed(t, name) || t.count + 1 < MAX_TOPICS
  }

  /** The registration step of publish: addPubTopic under the isTopicExist guard. */
  function PublishOnce(t: Table, name: string): (r: Table)
    requires ValidTable(t) && FitsPublish(t, name)
    ensures ValidTable(r)
  {
    if Listed(t, name) then t else AddPub(t, name).0
  }

  /** The table as it is updated in place. */
  class Registry {
    const topics: array<TopicInfo>
    var count: nat

    ghost predicate Valid()
      reads this, topics
    {
      topics.Length == MAX_TOPICS && count <= MAX_TOPICS
    }

    ghost function Contents(): (t: Table)
      requires Valid()
      reads this, topics
      ensures ValidTable(t)
    {
      Table(topics[..], count)
    }

    constructor ()
      ensures Valid() && fresh(topics) && Contents() == EMPTY
    {
      topics := new TopicInfo[MAX_TOPICS](_ => ZERO);
      count := 0;
    }

    /** The scan that every operation begins with. */
    method Find(name: string) returns (i: nat)
      requires Valid()
      ensures i == Scan(topics[..], count, name)
    {
      i := 0;
      while i < count && topics[i].name != name
        invariant 0 <= i <= count
        invariant forall k | 0 <= k < i :: topics[k].name != name
      {
        i := i + 1;
      }
      ScanIs(topics[..], count, name, i);
    }

    method FindOrCreateTopicEvent(topic: string, event: string) returns (id: int)
      requires Valid() && Fits(Contents(), FullName(topic, event))
      modifies this`count, topics
      ensures Valid() && (Contents(), id) == FindOrCreate(old(Contents()), FullName(topic, event))
    {
      var name := FullName(topic, event);
      var i := Find(name);
      if i < count {
        return topics[i].id;
      }
      if count >= MAX_TOPICS {
        return -1;
      }
      id := count + 1;
      topics[id] := TopicInfo(name, id);
      count := count + 1;
    }

    method AddSubTopic(topic: string, event: string) returns (id: int)
      requires Valid() && Fits(Contents(), FullName(topic, event))
      modifies this`count, topics
      ensures Valid() && (Contents(), id) == FindOrCreate(old(Contents()), FullName(topic, event))
    {
      id := FindOrCreateTopicEvent(topic, event);
    }

    method RegisterTopicEvent(topic: string, event: string) returns (id: int)
      requires Valid() && Fits(Contents(), FullName(topic, event))
      modifies this`count, topics
      ensures Valid() && (Contents(), id) == FindOrCreate(old(Contents()), FullName(topic, event))
    {
      id := FindOrCreateTopicEvent(topic, event);
    }

    method AddPubTopic(topic: string, event: string) returns (id: int)
      requires Valid() && FitsPub(Contents(), FullName(topic, event))
      modifies this`count, topics
      ensures Valid() && (Contents(), id) == AddPub(old(Contents()), FullName(topic, event))
    {
      id := FindOrCreateTopicEvent(topic, event);
      topics[count] := TopicInfo(FullName(topic, event), id);
      count := count + 1;
    }

    method GetTopicEventId(topic: string, event: string) returns (id: int)
      requires Valid()
      ensures id == Lookup(Contents(), FullName(topic, event))
    {
      var i := Find(FullName(topic, event));
      id := if i < count then topics[i].id else -1;
    }

    method IsTopicExist(topic: string, event: string) returns (found: bool)
      requires Valid()
      ensures found <==> Listed(Contents(), FullName(topic, event))
    {
      var i := Find(FullName(topic, event));
      found := i < count;
    }
  }

  lemma {:induction false} ScanIs(slots: seq<TopicInfo>, n: nat, name: string, i: nat)
    requires i <= n <= |slots|
    requires forall k | 0 <= k < i :: slots[k].name != name
    requires i < n ==> slots[i].name == name
    ensures Scan(slots, n, name) == i
  {
    if n > 0 {
      ScanIs(slots, n - 1, name, if i < n then i else n - 1);
    }
  }
}
