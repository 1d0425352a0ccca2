/** Writer and reader of the topic table agree, although no write ends with a NUL. */
module TopicAgreement {
  import opened JsonValues
  import opened JsonText
  import opened JsonPrinter
  import opened JsonParser
  import opened JsonPrinted
  import opened TopicTable
  import opened TopicRuns
  import opened TopicShm
  import opened TopicText

  /** Every text written leaves at least one byte of the topic region. */
  ghost predicate AllFit(t: Table, ops: seq<Op>, format: Format)
    requires ValidTable(t) && AllInBounds(t, ops)
    decreases |ops|
  {
    ops == [] ||
    var u := Apply(t, ops[0]).0;
    (Writes(t, ops[0]) ==> |Text(u, format)| < TOPIC_INFO_SIZE) && AllFit(u, ops[1..], format)
  }

  /** The segment once a process with table `t` has made the calls, with a node text written at every one. */
  ghost function Segment(region: string, t: Table, ops: seq<Op>, nodes: seq<string>, format: Format): (r: string)
    requires ValidTable(t) && AllInBounds(t, ops) && AllFit(t, ops, format) && |nodes| == |ops| && TOPIC_INFO_SIZE <= |region|
    ensures |r| == |region|
    decreases |ops|
  {
    if ops == [] then region
    else Segment(Image(region, t, ops[0], nodes[0], format), Apply(t, ops[0]).0, ops[1..], nodes[1..], format)
  }

  /** The table as of the last write, if there was one. */
  ghost function LastWritten(w: Option<Table>, t: Table, ops: seq<Op>): (r: Option<Table>)
    requires ValidTable(t) && AllInBounds(t, ops) && (w.Some? ==> ValidTable(w.value))
    ensures r.Some? ==> ValidTable(r.value)
    decreases |ops|
  {
    if ops == [] then w
    else
      var u := Apply(t, ops[0]).0;
      LastWritten(if Writes(t, ops[0]) then Some(u) else w, u, ops[1..])
  }

  /** The topic region begins with `s` and is zero after it. */
  ghost predicate Shows(region: string, s: string) {
    && |s| < TOPIC_INFO_SIZE <= |region|
    && region[..|s|] == s
    && forall k | |s| <= k < TOPIC_INFO_SIZE :: region[k] == '\0'
  }

  lemma OverlayShows(region: string, before: string, s: string)
    requires Shows(region, before) && |before| <= |s| < TOPIC_INFO_SIZE
    ensures Shows(Overlay(region, s, 0), s)
  {
  }

  /** The node text lies behind the topic region. */
  lemma NodesLieBehind(region: string, nodes: string, s: string)
    requires Shows(region, s)
    ensures Shows(Overlay(region, nodes, TOPIC_INFO_SIZE), s)
  {
  }

  lemma SeenShows(region: string, s: string)
    requires Shows(region, s) && NulFree(s)
    ensures Seen(region) == s
  {
    var buffer := region[..TOPIC_INFO_SIZE];
    assert buffer[..|s|] == s && buffer[|s|] == '\0';
    CStringUpTo(buffer, |s|);
  }

  ghost function WrittenText(w: Option<Table>, format: Format): string
    requires w.Some? ==> ValidTable(w.value)
  {
    if w.None? then "" else Text(w.value, format)
  }

  /** What is in the region is the text of a table that the current one extends. */
  ghost predicate Tracks(region: string, w: Option<Table>, t: Table, format: Format)
    requires ValidTable(t)
  {
    && Clean(t) && Natural(t)
    && (w.Some? ==> ValidTable(w.value) && Extends(t, w.value) && Clean(w.value) && Natural(w.value))
    && Shows(region, WrittenText(w, format))
  }

  ghost predicate ProperNames(ops: seq<Op>) {
    forall op | op in ops :: op.name != "" && NulFree(op.name)
  }

  lemma StepClean(t: Table, op: Op)
    requires ValidTable(t) && InBounds(t, op) && Clean(t) && Natural(t) && NulFree(op.name)
    ensures Clean(Apply(t, op).0) && Natural(Apply(t, op).0)
  {
  }

  lemma StepExtends(w: Table, t: Table, op: Op)
    requires ValidTable(w) && ValidTable(t) && InBounds(t, op) && Extends(t, w)
    ensures Extends(Apply(t, op).0, w)
  {
    var u, n := Apply(t, op).0, w.count;
    StepKeepsPrefix(t, op);
    assert u.slots[..n] == u.slots[..t.count][..n] == t.slots[..t.count][..n] == t.slots[..n];
  }

  /** A write covers what the last one left: the text of an extending table is never shorter. */
  lemma WriteShows(region: string, w: Option<Table>, u: Table, format: Format)
    requires ValidTable(u) && (w.Some? ==> ValidTable(w.value) && Extends(u, w.value))
    requires Shows(region, WrittenText(w, format)) && |Text(u, format)| < TOPIC_INFO_SIZE
    ensures Shows(Overlay(region, Text(u, format), 0), Text(u, format))
  {
    if w.Some? {
      TextGrows(w.value, u, format);
    }
    OverlayShows(region, WrittenText(w, format), Text(u, format));
  }

  lemma StepTracks(region: string, w: Option<Table>, t: Table, op: Op, nodes: string, format: Format)
    requires ValidTable(t) && InBounds(t, op) && NulFree(op.name) && Tracks(region, w, t, format)
    requires Writes(t, op) ==> |Text(Apply(t, op).0, format)| < TOPIC_INFO_SIZE
    ensures var u := Apply(t, op).0;
      Tracks(Image(region, t, op, nodes, format), if Writes(t, op) then Some(u) else w, u, format)
  {
    StepClean(t, op);
    if w.Some? {
      StepExtends(w.value, t, op);
    }
    if Writes(t, op) {
      WriteShows(region, w, Apply(t, op).0, format);
      NodesLieBehind(Overlay(region, Text(Apply(t, op).0, format), 0), nodes, Text(Apply(t, op).0, format));
    } else {
      NodesLieBehind(region, nodes, WrittenText(w, format));
    }
  }

  lemma {:induction false} RunTracks(region: string, w: Option<Table>, t: Table, ops: seq<Op>, nodes: seq<string>, format: Format)
    requires ValidTable(t) && AllInBounds(t, ops) && AllFit(t, ops, format) && ProperNames(ops) && |nodes| == |ops|
    requires Tracks(region, w, t, format)
    ensures Tracks(Segment(region, t, ops, nodes, format), LastWritten(w, t, ops), Run(t, ops), format)
    decreases |ops|
  {
    if ops != [] {
      StepTracks(region, w, t, ops[0], nodes[0], format);
      var u := Apply(t, ops[0]).0;
      RunTracks(Image(region, t, ops[0], nodes[0], format), if Writes(t, ops[0]) then Some(u) else w, u, ops[1..], nodes[1..], format);
    }
  }

  ghost function Recovered(w: Option<Table>, cache: Table): (r: Table)
    requires ValidTable(cache) && (w.Some? ==> ValidTable(w.value))
    ensures ValidTable(r)
  {
    if w.None? then Table(cache.slots, 0)
    else Table(Spliced(w.value, w.value.count, cache.slots), w.value.count)
  }

  lemma TracksRecovers(region: string, w: Option<Table>, t: Table, cache: Table, format: Format, stod: Stod)
    requires WritesNumbers(format) && ValidTable(t) && ValidTable(cache) && Tracks(region, w, t, format)
    ensures Announces(Seen(region), stod)
    ensures Recover(Seen(region), cache, stod) == Recovered(w, cache)
  {
    if w.Some? {
      TextNulFree(w.value, format);
      TextRecovers(w.value, cache, format, stod);
    }
    SeenShows(region, WrittenText(w, format));
  }

  lemma RecoveredLookup(w: Table, t: Table, cache: Table, name: string)
    requires ValidTable(w) && ValidTable(t) && ValidTable(cache) && Extends(t, w)
    ensures var r := Recovered(Some(w), cache);
      && (Listed(r, name) <==> Listed(w, name))
      && (Listed(w, name) ==> Listed(t, name) && Lookup(r, name) == Lookup(t, name))
  {
    var r := Recovered(Some(w), cache);
    var i := Scan(w.slots, w.count, name);
    assert forall k | 0 <= k < w.count :: r.slots[k] == w.slots[k];
    ScanIs(r.slots, w.count, name, i);
    if i < w.count {
      assert t.slots[..w.count][i] == w.slots[..w.count][i] == w.slots[i];
      ScanPrefix(w.slots, w.count, t.slots, t.count, name);
    }
  }

  /**
   * A process that reads the segment at any point of one writer's run, with node texts written behind the topic text
   * at every step, recovers the table as of its last write.
   * Every name it then finds has the id that the writer triggers, which is what it subscribes to.
   */
  lemma {:induction false} ReaderAgrees(region: string, ops: seq<Op>, nodes: seq<string>, cache: Table, name: string, format: Format, stod: Stod)
    requires WritesNumbers(format) && ValidTable(cache) && ProperNames(ops)
    requires AllInBounds(EMPTY, ops) && AllFit(EMPTY, ops, format)
    requires Shows(region, "") && |nodes| == |ops|
    ensures var seen := Seen(Segment(region, EMPTY, ops, nodes, format));
            var w := LastWritten(None, EMPTY, ops);
      && Announces(seen, stod)
      && var r := Recover(seen, cache, stod);
      && r == Recovered(w, cache)
      && (Listed(r, name) <==> w.Some? && Listed(w.value, name))
      && (Listed(r, name) ==> FindOrCreate(r, name) == (r, Lookup(Run(EMPTY, ops), name)))
  {
    RunTracks(region, None, EMPTY, ops, nodes, format);
    var w, t := LastWritten(None, EMPTY, ops), Run(EMPTY, ops);
    TracksRecovers(Segment(region, EMPTY, ops, nodes, format), w, t, cache, format, stod);
    if w.Some? {
      RecoveredLookup(w.value, t, cache, name);
    }
  }

  /** A subscription made with the table so recovered keeps the id that the writer triggers. */
  lemma {:induction false} SyncedSubscriberHears(region: string, ops: seq<Op>, nodes: seq<string>, cache: Table, name: string, format: Format, stod: Stod)
    requires WritesNumbers(format) && ValidTable(cache) && ProperNames(ops)
    requires AllInBounds(EMPTY, ops) && AllFit(EMPTY, ops, format)
    requires Shows(region, "") && |nodes| == |ops|
    ensures var seen := Seen(Segment(region, EMPTY, ops, nodes, format));
      && Announces(seen, stod)
      && var r := Recover(seen, cache, stod);
      Listed(r, name) ==> CreateSubscriber(r, name) == (r, Lookup(Run(EMPTY, ops), name))
  {
    ReaderAgrees(region, ops, nodes, cache, name, format, stod);
  }

  // ----- guarded publishing always fits -----

  /** The calls behind one publish of each name: isTopicExist, and addPubTopic when it is false. */
  ghost function PublishOps(t: Table, names: seq<string>): (ops: seq<Op>)
    requires ValidTable(t) && PublishAllFits(t, names)
    ensures AllInBounds(t, ops) && Run(t, ops) == PublishAll(t, names)
    ensures |ops| == |names| && forall op | op in ops :: op.name in names
    decreases |names|
  {
    if names == [] then []
    else
      [if Listed(t, names[0]) then Ask(names[0]) else Publish(names[0])] + PublishOps(PublishOnce(t, names[0]), names[1..])
  }

  lemma {:induction false} DecimalDigits(n: nat)
    requires n < 10000
    ensures |Decimal(n)| <= 4 && (n < 10 ==> |Decimal(n)| == 1)
  {
    DecimalLength(n, 9999);
    assert |Decimal(9)| == 1 && |Decimal(99)| == 2 && |Decimal(999)| == 3;
  }

  // The longest name that the 64-byte buffer holds.
  const MAX_NAME: nat := 63

  ghost predicate ShortNames(ds: seq<string>) {
    forall i | 0 <= i < |ds| :: |Escape(ds[i])| <= MAX_NAME
  }

  lemma OddEntryText(ds: seq<string>, i: nat, format: Format)
    requires |ds| <= MAX_NAMES && ShortNames(ds) && i < 2 * |ds|
    ensures |Print(EntryJson(Odd(ds).slots[i]), format)| <= if i % 2 == 0 then 24 else 90
  {
    var e := Odd(ds).slots[i];
    EntryText(e, format);
    DecimalDigits(e.id);
  }

  lemma {:induction false} ElementsStep(elems: seq<Json>, i: nat, format: Format)
    requires i < |elems|
    ensures |PrintElements(elems, i, format)|
            <= 1 + |Print(elems[i], format)| + |PrintElements(elems, i + 1, format)|
  {
  }

  /** Two entries take at most 24 and 90 characters with a comma each. */
  lemma AlternatingStep(i: nat, left: nat)
    requires left > 0
    ensures 1 + (if i % 2 == 0 then 24 else 90) + 58 * (left - 1) + (if (i + 1) % 2 == 0 then 0 else 33)
            <= 58 * left + (if i % 2 == 0 then 0 else 33)
  {
  }

  lemma {:induction false} AlternatingText(elems: seq<Json>, i: nat, format: Format)
    requires i <= |elems| && |elems| % 2 == 0
    requires forall k | 0 <= k < |elems| :: |Print(elems[k], format)| <= if k % 2 == 0 then 24 else 90
    ensures |PrintElements(elems, i, format)| <= 58 * (|elems| - i) + (if i % 2 == 0 then 0 else 33)
    decreases |elems| - i
  {
    if i < |elems| {
      ElementsStep(elems, i, format);
      AlternatingText(elems, i + 1, format);
      AlternatingStep(i, |elems| - i);
    }
  }

  lemma AlternatingTableText(t: Table, format: Format)
    requires ValidTable(t) && t.count % 2 == 0
    requires forall k | 0 <= k < t.count :: |Print(EntryJson(t.slots[k]), format)| <= if k % 2 == 0 then 24 else 90
    ensures |Text(t, format)| <= 32 + 58 * t.count
  {
    AlternatingText(Entries(t.slots, t.count), 0, format);
    TextLength(t, format);
    DecimalDigits(t.count);
  }

  /** The size bound: even with 512 names of 63 bytes the text ends before the topic region does. */
  lemma {:induction false} OddTextFits(ds: seq<string>, format: Format)
    requires |ds| <= MAX_NAMES && ShortNames(ds)
    ensures |Text(Odd(ds), format)| <= 32 + 116 * |ds| < TOPIC_INFO_SIZE
  {
    forall i | 0 <= i < 2 * |ds| ensures |Print(EntryJson(Odd(ds).slots[i]), format)| <= if i % 2 == 0 then 24 else 90 {
      OddEntryText(ds, i, format);
    }
    AlternatingTableText(Odd(ds), format);
  }

  /** One publish on a table in closed form. */
  lemma {:induction false} PublishOnceIsOdd(ds: seq<string>, names: seq<string>)
    requires names != [] && |ds| <= MAX_NAMES && Distinct(ds) && "" !in ds && "" !in names
    requires PublishAllFits(Odd(ds), names)
    ensures |AddName(ds, names[0])| <= MAX_NAMES && FitsPublish(Odd(ds), names[0])
    ensures PublishOnce(Odd(ds), names[0]) == Odd(AddName(ds, names[0]))
  {
    OddLists(ds, names[0]);
    if names[0] !in ds {
      PublishAllIsOdd(ds, names);
      UsesAreDistinct(AddName(ds, names[0]), names[1..]);
      OddStep(ds, names[0]);
    }
  }

  lemma {:induction false} PublishOpsStep(t: Table, names: seq<string>, format: Format)
    requires ValidTable(t) && names != [] && PublishAllFits(t, names)
    requires |Text(PublishOnce(t, names[0]), format)| < TOPIC_INFO_SIZE
    requires AllFit(PublishOnce(t, names[0]), PublishOps(PublishOnce(t, names[0]), names[1..]), format)
    ensures AllFit(t, PublishOps(t, names), format)
  {
    var ops := PublishOps(t, names);
    assert ops[1..] == PublishOps(PublishOnce(t, names[0]), names[1..]);
  }

  lemma AddNameKeeps(ds: seq<string>, names: seq<string>)
    requires names != [] && Distinct(ds) && ShortNames(ds) && ShortNames(names) && "" !in ds && "" !in names
    ensures Distinct(AddName(ds, names[0])) && ShortNames(AddName(ds, names[0])) && "" !in AddName(ds, names[0])
    ensures ShortNames(names[1..]) && "" !in names[1..]
  {
  }

  lemma {:induction false} PublishOpsFit(ds: seq<string>, names: seq<string>, format: Format)
    requires |ds| <= MAX_NAMES && Distinct(ds) && "" !in ds && "" !in names
    requires ShortNames(ds) && ShortNames(names) && PublishAllFits(Odd(ds), names)
    ensures AllFit(Odd(ds), PublishOps(Odd(ds), names), format)
    decreases |names|
  {
    if names != [] {
      PublishOnceIsOdd(ds, names);
      AddNameKeeps(ds, names);
      OddTextFits(AddName(ds, names[0]), format);
      PublishOpsFit(AddName(ds, names[0]), names[1..], format);
      PublishOpsStep(Odd(ds), names, format);
    }
  }

  /**
   * From a fresh segment, publish up to 512 different names of at most 63 bytes, in any order and number: every
   * process that then reads the table gets, for each of these names, the id its publisher triggers.
   */
  lemma {:induction false} PublishedNamesReachReaders(region: string, names: seq<string>, nodes: seq<string>, cache: Table, name: string, format: Format, stod: Stod)
    requires WritesNumbers(format) && ValidTable(cache) && Shows(region, "")
    requires ShortNames(names) && (forall n | n in names :: n != "" && NulFree(n))
    requires PublishAllFits(EMPTY, names) && name in names && |nodes| == |names|
    ensures var ops, t := PublishOps(EMPTY, names), PublishAll(EMPTY, names);
      && AllFit(EMPTY, ops, format)
      && var seen := Seen(Segment(region, EMPTY, ops, nodes, format));
      && Announces(seen, stod)
      && var r := Recover(seen, cache, stod);
      && Listed(r, name) && FindOrCreate(r, name) == (r, Lookup(t, name)) && Lookup(t, name) > 0
  {
    var ops := PublishOps(EMPTY, names);
    OddEmpty();
    PublishOpsFit([], names, format);
    PublishAllIsOdd([], names);
    UsesAreDistinct([], names);
    OddLists(Uses([], names), name);
    LastIsCurrent(None, EMPTY, names);
    ReaderAgrees(region, ops, nodes, cache, name, format, stod);
    var k :| 0 <= k < |Uses([], names)| && Uses([], names)[k] == name;
    OddLookup(Uses([], names), k);
  }

  /** A publish that does not write leaves the table alone, so what was last written is current. */
  lemma {:induction false} LastIsCurrent(w: Option<Table>, t: Table, names: seq<string>)
    requires ValidTable(t) && PublishAllFits(t, names)
    requires w == Some(t) || (w == None && t == EMPTY)
    ensures var last := LastWritten(w, t, PublishOps(t, names));
      last == Some(PublishAll(t, names)) || (last == None && PublishAll(t, names) == EMPTY)
    decreases |names|
  {
    if names != [] {
      var u := PublishOnce(t, names[0]);
      var ops := PublishOps(t, names);
      assert ops[1..] == PublishOps(u, names[1..]);
      LastIsCurrent(if Listed(t, names[0]) then w else Some(u), u, names[1..]);
    }
  }

  // ----- two managers on one segment -----

  // The calls of a process, as it makes them; `nodes` is the text of its node table at that time.
  datatype Request =
    | Subscribes(topic: string, event: string, nodes: string)
    | Registers(topic: string, event: string)
    | Publishes(topic: string, event: string, nodes: string)
    | Asks(topic: string, event: string)

  function OpOf(r: Request): Op {
    var name := FullName(r.topic, r.event);
    match r
    case Subscribes(_, _, _) => AddSub(name)
    case Registers(_, _) => Register(name)
    case Publishes(_, _, _) => Publish(name)
    case Asks(_, _) => Ask(name)
  }

  function OpsOf(rs: seq<Request>): (ops: seq<Op>)
    ensures |ops| == |rs| && forall i | 0 <= i < |rs| :: ops[i] == OpOf(rs[i])
  {
    seq(|rs|, i requires 0 <= i < |rs| => OpOf(rs[i]))
  }

  /** The node text that a call leaves in the segment, if any. */
  function NodesOf(manager: ShmManager, r: Request): string {
    if r.Subscribes? || r.Publishes? then manager.Placed(r.nodes) else ""
  }

  function AllNodes(manager: ShmManager, rs: seq<Request>): (nodes: seq<string>)
    ensures |nodes| == |rs| && forall i | 0 <= i < |rs| :: nodes[i] == NodesOf(manager, rs[i])
  {
    seq(|rs|, i requires 0 <= i < |rs| => NodesOf(manager, rs[i]))
  }

  /** One call, whether or not it ends in the exception of a node text that does not fit. */
  method Call(manager: ShmManager, r: Request, format: Format, now: int) returns (id: int)
    requires manager.Valid() && InBounds(manager.registry.Contents(), OpOf(r))
    requires Writes(manager.registry.Contents(), OpOf(r)) ==>
               |Text(Apply(manager.registry.Contents(), OpOf(r)).0, format)| <= manager.shm.data.Length
    modifies manager.registry`count, manager.registry.topics, manager.shm.data, manager.shm`time
    ensures manager.Valid() && (manager.registry.Contents(), id) == Apply(old(manager.registry.Contents()), OpOf(r))
    ensures manager.shm.data[..]
            == Image(old(manager.shm.data[..]), old(manager.registry.Contents()), OpOf(r), NodesOf(manager, r), format)
  {
    OverlayNothing(manager.shm.data[..], TOPIC_INFO_SIZE);
    var ok;
    match r
    case Subscribes(topic, event, nodes) => id, ok := manager.AddSubTopic(topic, event, nodes, format, now);
    case Registers(topic, event) => id, ok := manager.RegisterTopicEvent(topic, event, format, now);
    case Publishes(topic, event, nodes) => id, ok := manager.AddPubTopic(topic, event, nodes, format, now);
    case Asks(topic, event) => id := manager.registry.GetTopicEventId(topic, event);
  }

  /** Any calls of one manager leave the table and the segment that the theorems above speak of. */
  method CallAll(manager: ShmManager, rs: seq<Request>, format: Format, now: int)
    requires manager.Valid() && AllInBounds(manager.registry.Contents(), OpsOf(rs))
    requires AllFit(manager.registry.Contents(), OpsOf(rs), format)
    modifies manager.registry`count, manager.registry.topics, manager.shm.data, manager.shm`time
    ensures manager.Valid() && manager.registry.Contents() == Run(old(manager.registry.Contents()), OpsOf(rs))
    ensures manager.shm.data[..]
            == Segment(old(manager.shm.data[..]), old(manager.registry.Contents()), OpsOf(rs), AllNodes(manager, rs), format)
    decreases |rs|
  {
    if rs != [] {
      assert OpsOf(rs)[1..] == OpsOf(rs[1..]) && AllNodes(manager, rs)[1..] == AllNodes(manager, rs[1..]);
      var _ := Call(manager, rs[0], format, now);
      CallAll(manager, rs[1..], format, now);
    }
  }

  /**
   * A writer makes any calls on a fresh segment; another manager on the same segment then reads the table and, if it
   * finds a name there, registers it. It gets the id that the writer's getTopicEventId returns, and it finds every name
   * that the writer listed at its last write.
   */
  method WriteThenRead(writer: ShmManager, reader: ShmManager, rs: seq<Request>, topic: string, event: string,
                       format: Format, stod: Stod, now: int)
    returns (found: bool, id: int, own: int)
    requires writer.Valid() && reader.Valid() && writer.shm == reader.shm
    requires writer.registry != reader.registry && writer.registry.topics != reader.registry.topics
    requires WritesNumbers(format) && writer.registry.Contents() == EMPTY && Shows(writer.shm.data[..], "")
    requires AllInBounds(EMPTY, OpsOf(rs)) && AllFit(EMPTY, OpsOf(rs), format) && ProperNames(OpsOf(rs))
    modifies writer.registry`count, writer.registry.topics, reader.registry`count, reader.registry.topics
    modifies writer.shm.data, writer.shm`time
    ensures found <==> LastWritten(None, EMPTY, OpsOf(rs)).Some? && Listed(LastWritten(None, EMPTY, OpsOf(rs)).value, FullName(topic, event))
    ensures found ==> id == own
  {
    ghost var region, cache := writer.shm.data[..], reader.registry.Contents();
    CallAll(writer, rs, format, now);
    ReaderAgrees(region, OpsOf(rs), AllNodes(writer, rs), cache, FullName(topic, event), format, stod);
    own := writer.registry.GetTopicEventId(topic, event);
    found, id := ReadThenRegister(reader, topic, event, format, stod, now);
  }

  /** Reads the table and registers a name if it is there. */
  method ReadThenRegister(reader: ShmManager, topic: string, event: string, format: Format, stod: Stod, now: int)
    returns (found: bool, id: int)
    requires reader.Valid() && Announces(Seen(reader.shm.data[..]), stod)
    modifies reader.registry`count, reader.registry.topics, reader.shm.data, reader.shm`time
    ensures var r := Recover(Seen(old(reader.shm.data[..])), old(reader.registry.Contents()), stod);
      && (found <==> Listed(r, FullName(topic, event)))
      && (found ==> id == FindOrCreate(r, FullName(topic, event)).1)
  {
    reader.ReadTopicsInfo(stod);
    found := reader.registry.IsTopicExist(topic, event);
    id := -1;
    if found {
      var registered, _ := reader.RegisterTopicEvent(topic, event, format, now);
      id := registered;
    }
  }

  // An event that is published, and the text of the node table at that time.
  datatype Announcement = Announcement(topic: string, event: string, nodes: string)

  function NamesOf(ps: seq<Announcement>): (names: seq<string>)
    ensures |names| == |ps| && forall i | 0 <= i < |ps| :: names[i] == FullName(ps[i].topic, ps[i].event)
  {
    seq(|ps|, i requires 0 <= i < |ps| => FullName(ps[i].topic, ps[i].event))
  }

  /** The registrations of any publishes. */
  method PublishEach(manager: ShmManager, ps: seq<Announcement>, format: Format, now: int) returns (ghost nodes: seq<string>)
    requires manager.Valid() && PublishAllFits(manager.registry.Contents(), NamesOf(ps))
    requires AllFit(manager.registry.Contents(), PublishOps(manager.registry.Contents(), NamesOf(ps)), format)
    modifies manager.registry`count, manager.registry.topics, manager.shm.data, manager.shm`time
    ensures manager.Valid() && manager.registry.Contents() == PublishAll(old(manager.registry.Contents()), NamesOf(ps))
    ensures |nodes| == |ps|
    ensures manager.shm.data[..]
            == Segment(old(manager.shm.data[..]), old(manager.registry.Contents()),
                       PublishOps(old(manager.registry.Contents()), NamesOf(ps)), nodes, format)
    decreases |ps|
  {
    nodes := [];
    if ps != [] {
      ghost var t, names, region := manager.registry.Contents(), NamesOf(ps), manager.shm.data[..];
      assert names[1..] == NamesOf(ps[1..]);
      assert PublishOps(t, names)[1..] == PublishOps(PublishOnce(t, names[0]), names[1..]);
      OverlayNothing(region, TOPIC_INFO_SIZE);
      var _ := manager.EnsurePublished(ps[0].topic, ps[0].event, ps[0].nodes, format, now);
      ghost var first := if Listed(t, names[0]) then "" else manager.Placed(ps[0].nodes);
      assert manager.shm.data[..] == Image(region, t, PublishOps(t, names)[0], first, format);
      ghost var rest := PublishEach(manager, ps[1..], format, now);
      nodes := [first] + rest;
      assert nodes[1..] == rest;
    }
  }

  /**
   * A writer publishes up to 512 different events with names of at most 63 characters, in any order and number; another
   * manager then finds every one of them, and registering it gives the id that the writer triggers.
   */
  method PublishThenRead(writer: ShmManager, reader: ShmManager, ps: seq<Announcement>, i: nat, format: Format, stod: Stod, now: int)
    returns (found: bool, id: int, own: int)
    requires writer.Valid() && reader.Valid() && writer.shm == reader.shm && i < |ps|
    requires writer.registry != reader.registry && writer.registry.topics != reader.registry.topics
    requires WritesNumbers(format) && writer.registry.Contents() == EMPTY && Shows(writer.shm.data[..], "")
    requires ShortNames(NamesOf(ps)) && (forall n | n in NamesOf(ps) :: NulFree(n)) && PublishAllFits(EMPTY, NamesOf(ps))
    modifies writer.registry`count, writer.registry.topics, reader.registry`count, reader.registry.topics
    modifies writer.shm.data, writer.shm`time
    ensures found && id == own > 0
  {
    ghost var region, cache, names := writer.shm.data[..], reader.registry.Contents(), NamesOf(ps);
    ghost var name := names[i];
    PublishesFit(names, format);
    ghost var nodes := PublishEach(writer, ps, format, now);
    PublishedNamesReachReaders(region, names, nodes, cache, name, format, stod);
    own := writer.registry.GetTopicEventId(ps[i].topic, ps[i].event);
    found, id := ReadThenRegister(reader, ps[i].topic, ps[i].event, format, stod, now);
  }

  lemma {:induction false} PublishesFit(names: seq<string>, format: Format)
    requires ShortNames(names) && "" !in names && PublishAllFits(EMPTY, names)
    ensures AllFit(EMPTY, PublishOps(EMPTY, names), format)
  {
    OddEmpty();
    PublishOpsFit([], names, format);
  }
}
