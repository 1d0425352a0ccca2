/** A JSON message on its way through a segment: the segments, publish, and the copy a subscriber makes. */
module Messages {
  import opened JsonValues
  import opened JsonPrinter
  import opened JsonParser
  import JsonCodec
  import opened TopicTable
  import TopicRuns
  import opened TopicShm
  import opened EventBits
  import PublisherLink

  /** What the subscriber's message becomes; every exception, also of the size check against the old one, keeps the old. */
  function Received(region: string, msg: Json, format: Format, stod: Stod): Json {
    if |region| < |Print(msg, format)| then msg
    else match Document(region, stod)
      case Ok(v, _) => v
      case Fail(_) => msg
  }

  class Subscriber {
    const shm: ShmBase
    var msg: Json

    constructor (shm: ShmBase)
      requires shm.mapped
      ensures this.shm == shm && msg == Null
    {
      this.shm := shm;
      msg := Null;
    }

    method GetMessage(format: Format, stod: Stod)
      requires shm.mapped
      modifies this
      ensures msg == Received(shm.data[..], old(msg), format, stod)
    {
      var size := shm.data.Length;
      var buffer := shm.Read(size, 0);
      assert buffer.value == shm.data[..];
      var was := JsonCodec.Serialize(msg, format);
      if size < |was| {
        return;
      }
      var parsed := JsonCodec.Deserialize(buffer.value, stod);
      if parsed.Ok? {
        msg := parsed.value;
      }
    }

    /** createTaskFromSubEvent: what is enqueued works on a copy of the message as it is then. */
    method CreateTaskFromSubEvent(format: Format, stod: Stod) returns (task: Json)
      requires shm.mapped
      modifies this
      ensures msg == Received(shm.data[..], old(msg), format, stod) && task == msg
    {
      GetMessage(format, stod);
      task := msg;
    }
  }

  // The largest segment, header included.
  const MAX_SEGMENT: nat := 10 * 1024 * 1024

  // sizeof(ShmHead) is a parameter, so that nothing depends on the platform.
  predicate Creatable(name: string, size: nat, head: nat) {
    name != "" && name[0] == '/' && head + size <= MAX_SEGMENT
  }

  /** The named segments of the system. */
  class SegmentDirectory {
    var named: map<string, ShmBase>

    constructor ()
      ensures named == map[]
    {
      named := map[];
    }

    /** Exclusive creation: when the name is taken it throws, and leaves an object without a mapping behind. */
    method Create(name: string, size: nat, head: nat) returns (segment: ShmBase)
      modifies this
      ensures fresh(segment) && fresh(segment.data) && segment.data.Length == size && segment.head == head
      ensures segment.mapped <==> name !in old(named)
      ensures named == if segment.mapped then old(named)[name := segment] else old(named)
    {
      segment := new ShmBase(size, head, name !in named);
      if segment.mapped {
        named := named[name := segment];
      }
    }

    /** What a subscriber opens: only a segment that is there. */
    method Open(name: string) returns (segment: ShmBase?)
      ensures if name in named then segment == named[name] else segment == null
    {
      segment := if name in named then named[name] else null;
    }
  }

  lemma OverlayWhole(region: string, text: string)
    ensures |text| >= |region| ==> Overlay(region, text, 0) == text[..|region|]
  {
  }

  // Where a publish ends: in an exception of one of its three parts, or with the event triggered.
  datatype Outcome = CreateThrows | RegisterThrows | WriteThrows | Published

  class Publisher {
    const topic: string
    const manager: ShmManager
    const events: EventNotification
    var shm: ShmBase?

    constructor (topic: string, manager: ShmManager, events: EventNotification)
      ensures this.topic == topic && this.manager == manager && this.events == events && shm == null
    {
      this.topic, this.manager, this.events, shm := topic, manager, events, null;
    }

    /** The object that all publishes go through, whatever their event; false when its creation throws. */
    method Open(name: string, size: nat, directory: SegmentDirectory, head: nat) returns (ok: bool)
      modifies this`shm, directory
      ensures ok <==> old(shm) != null || (Creatable(name, size, head) && name !in old(directory.named))
      ensures old(shm) != null || !Creatable(name, size, head) ==> shm == old(shm) && directory.named == old(directory.named)
      ensures old(shm) == null && Creatable(name, size, head) ==>
                && shm != null && fresh(shm) && fresh(shm.data) && shm.data.Length == size
                && (shm.mapped <==> name !in old(directory.named))
                && directory.named == if shm.mapped then old(directory.named)[name := shm] else old(directory.named)
    {
      ok := true;
      if shm == null {
        ok := Creatable(name, size, head);
        if ok {
          shm := directory.Create(name, size, head);
          ok := shm.mapped;
        }
      }
    }

    /** The rest of a publish: registers the name if needed, writes, triggers, in this order. */
    method Send(segment: ShmBase, event: string, text: string, nodes: string, format: Format, now: int) returns (r: Outcome)
      requires manager.Valid() && FitsPublish(manager.registry.Contents(), FullName(topic, event))
      requires segment.data != manager.shm.data
      modifies manager.registry`count, manager.registry.topics, manager.shm.data, manager.shm`time
      modifies segment.data, segment`time, events
      ensures manager.Valid()
      ensures manager.registry.Contents() == PublishOnce(old(manager.registry.Contents()), FullName(topic, event))
      ensures r == if !old(manager.Registers(FullName(topic, event), nodes, format)) then RegisterThrows
                   else if !(segment.mapped && |text| <= segment.data.Length + segment.head) then WriteThrows
                   else Published
      ensures segment.data[..] == if r.Published? then Overlay(old(segment.data[..]), text, 0) else old(segment.data[..])
      ensures var id := Lookup(manager.registry.Contents(), FullName(topic, event));
        events.flags == if r.Published? && IsEvent(id) then old(events.flags) + {id} else old(events.flags)
    {
      var registered := manager.EnsurePublished(topic, event, nodes, format, now);
      if !registered {
        return RegisterThrows;
      }
      var delivered := Deliver(segment, event, text, now);
      r := if delivered then Published else WriteThrows;
    }

    /** Writes and triggers the id found; false stands for the exception of the write, which triggers nothing. */
    method Deliver(segment: ShmBase, event: string, text: string, now: int) returns (written: bool)
      requires manager.registry.Valid()
      modifies segment.data, segment`time, events
      ensures written <==> segment.mapped && |text| <= segment.data.Length + segment.head
      ensures segment.data[..] == if written then Overlay(old(segment.data[..]), text, 0) else old(segment.data[..])
      ensures var id := Lookup(manager.registry.Contents(), FullName(topic, event));
        events.flags == if written && IsEvent(id) then old(events.flags) + {id} else old(events.flags)
    {
      written := segment.Write(text, 0, now);
      if written {
        var id := manager.registry.GetTopicEventId(topic, event);
        events.TriggerEvent(id);
      }
    }

    /**
     * One publish of a message, by its serialized text; `nodes` is the text of the node table as it then is. Only the
     * first one of an object creates a segment, and only if no other has the name; without it no later one is published.
     */
    method Publish(event: string, text: string, directory: SegmentDirectory, head: nat, nodes: string, format: Format, now: int)
      returns (r: Outcome)
      requires manager.Valid() && FitsPublish(manager.registry.Contents(), FullName(topic, event))
      requires shm != null ==> shm != manager.shm && shm.data != manager.shm.data
      modifies this`shm, directory
      modifies manager.registry`count, manager.registry.topics, manager.shm.data, manager.shm`time, events
      modifies if shm != null then {shm} else {}, if shm != null then {shm.data} else {}
      ensures manager.Valid()
      ensures r.CreateThrows? <==>
                && old(shm) == null
                && (FullName(topic, event)[0] != '/' || head + |text| > 10 * 1024 * 1024
                    || FullName(topic, event) in old(directory.named))
      ensures r.CreateThrows? ==> directory.named == old(directory.named)
      ensures r.CreateThrows? ==>
                && manager.registry.Contents() == old(manager.registry.Contents()) && events.flags == old(events.flags)
                && (shm == null <==> !Creatable(FullName(topic, event), |text|, head)) && (shm != null ==> !shm.mapped)
      ensures !r.CreateThrows? ==>
                && manager.registry.Contents() == PublishOnce(old(manager.registry.Contents()), FullName(topic, event))
                && shm != null && (old(shm) != null ==> shm == old(shm))
                && r == if !old(manager.Registers(FullName(topic, event), nodes, format)) then RegisterThrows
                        else if !(shm.mapped && |text| <= shm.data.Length + shm.head) then WriteThrows
                        else Published
      ensures old(shm) == null && shm != null ==> fresh(shm) && fresh(shm.data)
      ensures old(shm) == null && !r.CreateThrows? ==>
                && fresh(shm) && shm.mapped && shm.data.Length == |text| && (r.Published? ==> shm.data[..] == text)
                && directory.named == old(directory.named)[FullName(topic, event) := shm]
      ensures old(shm) != null ==>
                && directory.named == old(directory.named)
                && shm.data[..] == if r.Published? then Overlay(old(shm.data[..]), text, 0) else old(shm.data[..])
      ensures old(shm) != null && !old(shm).mapped ==>
                !r.Published? && events.flags == old(events.flags) && shm.data[..] == old(shm.data[..])
      ensures !r.CreateThrows? ==>
                var id := Lookup(manager.registry.Contents(), FullName(topic, event));
                events.flags == if r.Published? && IsEvent(id) then old(events.flags) + {id} else old(events.flags)
    {
      var ok := Open(FullName(topic, event), |text|, directory, head);
      if !ok {
        return CreateThrows;
      }
      assert manager.registry.Contents() == old(manager.registry.Contents());
      OverlayWhole(shm.data[..], text);
      r := Send(shm, event, text, nodes, format, now);
    }
  }

  // ----- all publishes of one object -----

  // One publish, before which another process may have created a segment of the name `rival`.
  datatype Message = Message(rival: string, event: string, text: string, nodes: string)

  type Link = PublisherLink.Link<string>

  /** `shm` is what the link says: unused, without a mapping, or the segment of that name. */
  ghost predicate Linked(shm: ShmBase?, named: map<string, ShmBase>, link: Link) {
    match link
    case Unused => shm == null
    case Broken => shm != null && !shm.mapped
    case Mapped(name) => shm != null && shm.mapped && name in named && named[name] == shm
  }

  /** What one publish does to the link of its object, where `names` are those of the segments. */
  ghost function After(link: Link, names: set<string>, name: string, size: nat, head: nat): Link {
    if Creatable(name, size, head) then PublisherLink.Attach(link, name in names, name) else link
  }

  ghost function NamesAfter(link: Link, names: set<string>, name: string, size: nat, head: nat): set<string> {
    if link.Unused? && Creatable(name, size, head) then names + {name} else names
  }

  /** The attempts to attach that these publishes make. */
  ghost function Attempts(link: Link, names: set<string>, topic: string, ms: seq<Message>, head: nat): seq<PublisherLink.Attempt<string>>
    decreases |ms|
  {
    if ms == [] then []
    else
      var name, size, there := FullName(topic, ms[0].event), |ms[0].text|, names + {ms[0].rival};
      (if Creatable(name, size, head) then [PublisherLink.Attempt(name, name in there)] else [])
      + Attempts(After(link, there, name, size, head), NamesAfter(link, there, name, size, head), topic, ms[1..], head)
  }

  lemma {:induction false} AttemptsStep(link: Link, names: set<string>, topic: string, ms: seq<Message>, head: nat)
    requires ms != []
    ensures var name, size, there := FullName(topic, ms[0].event), |ms[0].text|, names + {ms[0].rival};
      var next := After(link, there, name, size, head);
      PublisherLink.AttachAll(link, Attempts(link, names, topic, ms, head))
      == PublisherLink.AttachAll(next, Attempts(next, NamesAfter(link, there, name, size, head), topic, ms[1..], head))
  {
    var name, size, there := FullName(topic, ms[0].event), |ms[0].text|, names + {ms[0].rival};
    var next := After(link, there, name, size, head);
    var rest := Attempts(next, NamesAfter(link, there, name, size, head), topic, ms[1..], head);
    if Creatable(name, size, head) {
      var all := [PublisherLink.Attempt(name, name in there)] + rest;
      assert all[1..] == rest;
    } else {
      assert [] + rest == rest;
    }
  }

  /** One publish of an object, and its link. */
  method PublishLinked(publisher: Publisher, m: Message, directory: SegmentDirectory, head: nat, format: Format, now: int,
                       ghost link: Link)
    returns (r: Outcome)
    requires publisher.manager.Valid() && publisher.manager.registry.count + 2 <= MAX_TOPICS
    requires publisher.shm != null ==> publisher.shm != publisher.manager.shm && publisher.shm.data != publisher.manager.shm.data
    requires Linked(publisher.shm, directory.named, link)
    modifies publisher`shm, directory, publisher.events
    modifies publisher.manager.registry`count, publisher.manager.registry.topics, publisher.manager.shm.data, publisher.manager.shm`time
    modifies if publisher.shm != null then {publisher.shm} else {}, if publisher.shm != null then {publisher.shm.data} else {}
    ensures publisher.manager.Valid() && publisher.manager.registry.count <= old(publisher.manager.registry.count) + 2
    ensures if old(publisher.shm) != null then publisher.shm == old(publisher.shm)
            else publisher.shm != null ==> fresh(publisher.shm) && fresh(publisher.shm.data)
    ensures var name, names := FullName(publisher.topic, m.event), old(directory.named).Keys + {m.rival};
      && directory.named.Keys == NamesAfter(link, names, name, |m.text|, head)
      && Linked(publisher.shm, directory.named, After(link, names, name, |m.text|, head))
      && (r.Published? ==> After(link, names, name, |m.text|, head).Mapped?)
  {
    Rival(m.rival, directory, head, publisher.shm, link);
    ghost var there, was := directory.named, publisher.shm;
    r := publisher.Publish(m.event, m.text, directory, head, m.nodes, format, now);
    LinkedAfter(was, publisher.shm, there, directory.named, link, FullName(publisher.topic, m.event), |m.text|, head);
  }

  /** Another process creates a segment: no object's link changes. */
  method Rival(name: string, directory: SegmentDirectory, head: nat, shm: ShmBase?, ghost link: Link)
    requires Linked(shm, directory.named, link)
    modifies directory
    ensures directory.named.Keys == old(directory.named).Keys + {name} && Linked(shm, directory.named, link)
  {
    var _ := directory.Create(name, 0, head);
  }

  lemma LinkedAfter(was: ShmBase?, shm: ShmBase?, names: map<string, ShmBase>, named: map<string, ShmBase>, link: Link,
                    name: string, size: nat, head: nat)
    requires Linked(was, names, link)
    requires was != null || !Creatable(name, size, head) ==> shm == was && named == names
    requires was == null && Creatable(name, size, head) && name in names ==> shm != null && !shm.mapped && named == names
    requires was == null && Creatable(name, size, head) && name !in names ==> shm != null && shm.mapped && named == names[name := shm]
    ensures Linked(shm, named, After(link, names.Keys, name, size, head))
    ensures named.Keys == NamesAfter(link, names.Keys, name, size, head)
  {
  }

  /**
   * Any publishes of one object, with other segments created in between: it ends with the segment that `AttachAll` tells,
   * and unless that is one of its own none of them has been published.
   */
  method PublishAll(publisher: Publisher, ms: seq<Message>, directory: SegmentDirectory, head: nat, format: Format, now: int,
                    ghost link: Link)
    returns (rs: seq<Outcome>)
    requires publisher.manager.Valid() && publisher.manager.registry.count + 2 * |ms| <= MAX_TOPICS
    requires publisher.shm != null ==> publisher.shm != publisher.manager.shm && publisher.shm.data != publisher.manager.shm.data
    requires Linked(publisher.shm, directory.named, link)
    modifies publisher`shm, directory, publisher.events
    modifies publisher.manager.registry`count, publisher.manager.registry.topics, publisher.manager.shm.data, publisher.manager.shm`time
    modifies if publisher.shm != null then {publisher.shm} else {}, if publisher.shm != null then {publisher.shm.data} else {}
    ensures publisher.manager.Valid() && |rs| == |ms|
    ensures var last := PublisherLink.AttachAll(link, Attempts(link, old(directory.named).Keys, publisher.topic, ms, head));
      && Linked(publisher.shm, directory.named, last)
      && ((exists i | 0 <= i < |rs| :: rs[i].Published?) ==> last.Mapped?)
    decreases |ms|
  {
    rs := [];
    if ms != [] {
      ghost var names := directory.named.Keys + {ms[0].rival};
      ghost var name, size := FullName(publisher.topic, ms[0].event), |ms[0].text|;
      ghost var next := After(link, names, name, size, head);
      AttemptsStep(link, directory.named.Keys, publisher.topic, ms, head);
      ghost var attempts := Attempts(next, NamesAfter(link, names, name, size, head), publisher.topic, ms[1..], head);
      var r := PublishLinked(publisher, ms[0], directory, head, format, now, link);
      var rest := PublishAll(publisher, ms[1..], directory, head, format, now, next);
      if r.Published? {
        PublisherLink.AttachedStays(next, attempts);
      }
      rs := [r] + rest;
    }
  }

  /** What a node keeps of its subscriptions. */
  class Subscriptions {
    const manager: ShmManager
    var subscribers: seq<Subscriber>
    var eventIds: seq<int>

    constructor (manager: ShmManager)
      ensures this.manager == manager && subscribers == [] && eventIds == []
    {
      this.manager, subscribers, eventIds := manager, [], [];
    }

    /** The table after the two registrations, and the id that the second one returns. */
    ghost function Registered(name: string): (Table, int)
      requires manager.Valid() && TopicRuns.FitsSubscribe(manager.registry.Contents(), name)
      reads manager.registry, manager.registry.topics
    {
      TopicRuns.CreateSubscriber(manager.registry.Contents(), name)
    }

    /** The segment after them: the node text written by the first, and the topic text by the second. */
    ghost function RegisteredImage(name: string, nodes: string, format: Format): string
      requires manager.Valid() && TopicRuns.FitsSubscribe(manager.registry.Contents(), name)
      reads manager.registry, manager.registry.topics, manager.shm.data
    {
      var t := manager.registry.Contents();
      var added := Image(manager.shm.data[..], t, TopicRuns.AddSub(name), nodes, format);
      Image(added, TopicRuns.Apply(t, TopicRuns.AddSub(name)).0, TopicRuns.Register(name), "", format)
    }

    /** Whether the registrations write without an exception: the node table, then the topic table if there is an id. */
    ghost predicate Writes(name: string, nodes: string, format: Format)
      requires manager.Valid() && TopicRuns.FitsSubscribe(manager.registry.Contents(), name)
      reads manager.registry, manager.registry.topics
    {
      && TOPIC_INFO_SIZE + |nodes| <= manager.shm.data.Length + manager.shm.head
      && (Registered(name).1 >= 0 ==> |Text(Registered(name).0, format)| <= manager.shm.data.Length + manager.shm.head)
    }

    /** The two registrations; the second result is false for an exception. */
    method RegisterTwice(topic: string, event: string, nodes: string, format: Format, now: int) returns (id: int, ok: bool)
      requires manager.Valid() && TopicRuns.FitsSubscribe(manager.registry.Contents(), FullName(topic, event))
      modifies manager.registry`count, manager.registry.topics, manager.shm.data, manager.shm`time
      ensures manager.Valid() && (ok <==> old(Writes(FullName(topic, event), nodes, format)))
      ensures ok ==> (manager.registry.Contents(), id) == old(Registered(FullName(topic, event)))
      ensures ok ==> manager.shm.data[..] == old(RegisteredImage(FullName(topic, event), nodes, format))
    {
      var _, added := manager.AddSubTopic(topic, event, nodes, format, now);
      if !added {
        return -1, false;
      }
      id, ok := manager.RegisterTopicEvent(topic, event, format, now);
    }

    /**
     * createSubscriber: opens the segment first, and throws when there is none; then registers twice and keeps the
     * second id. False stands for an exception.
     */
    method CreateSubscriber(topic: string, event: string, directory: SegmentDirectory, nodes: string, format: Format, now: int)
      returns (subscriber: Subscriber?, ok: bool)
      requires manager.Valid() && TopicRuns.FitsSubscribe(manager.registry.Contents(), FullName(topic, event))
      requires FullName(topic, event) in directory.named ==> directory.named[FullName(topic, event)].mapped
      modifies this, manager.registry`count, manager.registry.topics, manager.shm.data, manager.shm`time
      ensures manager.Valid()
      ensures ok <==> FullName(topic, event) in directory.named && old(Writes(FullName(topic, event), nodes, format))
      ensures FullName(topic, event) !in directory.named ==>
                && manager.registry.Contents() == old(manager.registry.Contents())
                && manager.shm.data[..] == old(manager.shm.data[..]) && subscribers == old(subscribers)
      ensures ok ==>
                && subscriber != null && subscriber.shm == directory.named[FullName(topic, event)]
                && subscribers == old(subscribers) + [subscriber]
                && manager.registry.Contents() == old(Registered(FullName(topic, event))).0
                && manager.shm.data[..] == old(RegisteredImage(FullName(topic, event), nodes, format))
      ensures eventIds ==
              if ok then old(eventIds) + [if old(Registered(FullName(topic, event))).1 >= 0 then old(Registered(FullName(topic, event))).1 else -1]
              else old(eventIds)
    {
      subscriber := OpenSegment(FullName(topic, event), directory);
      ok := subscriber != null;
      if ok {
        subscribers := subscribers + [subscriber];
        var id;
        id, ok := RegisterTwice(topic, event, nodes, format, now);
        if ok {
          eventIds := eventIds + [if id >= 0 then id else -1];
        }
      }
    }

    /** The subscriber object, if its segment is there. */
    method OpenSegment(name: string, directory: SegmentDirectory) returns (subscriber: Subscriber?)
      requires name in directory.named ==> directory.named[name].mapped
      ensures if name in directory.named then subscriber != null && subscriber.shm == directory.named[name] else subscriber == null
    {
      var shm := directory.Open(name);
      subscriber := null;
      if shm != null {
        subscriber := new Subscriber(shm);
      }
    }
  }
}
