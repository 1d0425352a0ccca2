/** Subscribing when there are several tables: createSubscriber from its first step on, and whose id is triggered. */
module TopicWorld {
  import opened JsonValues
  import opened TopicTable
  import opened TopicRuns

  // The cached table of each manager, and the names of the message segments that exist.
  datatype World = World(tables: seq<Table>, segments: set<string>)

  // `Create` and `EnsureListed` are the first two parts of a first publish, between which other calls can come.
  datatype Call =
    | Create(name: string)
    | EnsureListed(m: nat, name: string)
    | Subscribe(m: nat, name: string)

  ghost predicate ValidWorld(w: World) {
    forall m | 0 <= m < |w.tables| :: ValidTable(w.tables[m])
  }

  ghost predicate Possible(w: World, call: Call)
    requires ValidWorld(w)
  {
    match call
    case Create(_) => true
    case EnsureListed(m, name) => m < |w.tables| && FitsPublish(w.tables[m], name)
    case Subscribe(m, name) => m < |w.tables| && FitsSubscribe(w.tables[m], name)
  }

  /**
   * The world after a call, and the id it obtains; None also stands for the exception of a subscription whose segment
   * does not exist, which is thrown before the table is reached.
   */
  function Do(w: World, call: Call): (r: (World, Option<int>))
    requires ValidWorld(w) && Possible(w, call)
    ensures ValidWorld(r.0) && |r.0.tables| == |w.tables|
  {
    match call
    case Create(name) => (w.(segments := w.segments + {name}), None)
    case EnsureListed(m, name) => (w.(tables := w.tables[m := PublishOnce(w.tables[m], name)]), None)
    case Subscribe(m, name) =>
      if name !in w.segments then (w, None)
      else
        var (t, id) := CreateSubscriber(w.tables[m], name);
        (w.(tables := w.tables[m := t]), Some(id))
  }

  ghost predicate AllPossible(w: World, calls: seq<Call>)
    requires ValidWorld(w)
    decreases |calls|
  {
    calls == [] || (Possible(w, calls[0]) && AllPossible(Do(w, calls[0]).0, calls[1..]))
  }

  function DoAll(w: World, calls: seq<Call>): (r: World)
    requires ValidWorld(w) && AllPossible(w, calls)
    ensures ValidWorld(r) && |r.tables| == |w.tables|
    decreases |calls|
  {
    if calls == [] then w else DoAll(Do(w, calls[0]).0, calls[1..])
  }

  /** The id that a subscription keeps: that of the entry it finds, or two past the count; none, -1, on a full table. */
  function KeptId(t: Table, name: string): int
    requires ValidTable(t)
  {
    if Listed(t, name) then Lookup(t, name)
    else if t.count >= MAX_TOPICS then -1
    else if t.slots[t.count].name == name then t.slots[t.count].id
    else t.count + 2
  }

  lemma KeepsKeptId(t: Table, name: string)
    requires ValidTable(t) && FitsSubscribe(t, name)
    ensures CreateSubscriber(t, name).1 == KeptId(t, name)
  {
    if Listed(t, name) || t.count >= MAX_TOPICS {
    } else if Stale(t, name) {
      KnownSubscriber(t, name);
      var u := FindOrCreate(t, name).0;
      assert forall i | 0 <= i < t.count :: u.slots[i] == t.slots[i];
      ScanIs(u.slots, u.count, name, t.count);
    } else {
      FreshSubscriber(t, name);
    }
  }

  lemma {:induction false} TableAfter(w: World, calls: seq<Call>, m: nat, name: string)
    requires ValidWorld(w) && AllPossible(w, calls) && m < |w.tables| && Listed(w.tables[m], name)
    ensures Listed(DoAll(w, calls).tables[m], name) && Lookup(DoAll(w, calls).tables[m], name) == Lookup(w.tables[m], name)
    decreases |calls|
  {
    if calls != [] {
      CallKeepsLookup(w, calls[0], m, name);
      TableAfter(Do(w, calls[0]).0, calls[1..], m, name);
    }
  }

  lemma CallKeepsLookup(w: World, call: Call, m: nat, name: string)
    requires ValidWorld(w) && Possible(w, call) && m < |w.tables| && Listed(w.tables[m], name)
    ensures var t := Do(w, call).0.tables[m]; Listed(t, name) && Lookup(t, name) == Lookup(w.tables[m], name)
  {
    var t := w.tables[m];
    match call
    case Create(_) =>
    case EnsureListed(k, other) =>
      if k == m && !Listed(t, other) {
        OneCallStable(t, Publish(other), name);
      }
    case Subscribe(k, other) =>
      if k == m && other in w.segments {
        OneCallStable(t, AddSub(other), name);
        OneCallStable(Apply(t, AddSub(other)).0, Register(other), name);
      }
  }

  lemma OneCallStable(t: Table, op: Op, name: string)
    requires ValidTable(t) && InBounds(t, op) && Listed(t, name)
    ensures Listed(Apply(t, op).0, name) && Lookup(Apply(t, op).0, name) == Lookup(t, name)
  {
    var ops := [op];
    assert ops[1..] == [] && AllInBounds(Apply(t, op).0, []);
    assert AllInBounds(t, ops) && Run(t, ops) == Apply(t, op).0;
    LookupStable(t, ops, name);
  }

  /** Without the segment createSubscriber throws and changes nothing; with it, it keeps an id. */
  lemma SubscribesIff(w: World, m: nat, name: string)
    requires ValidWorld(w) && Possible(w, Subscribe(m, name))
    ensures var (u, id) := Do(w, Subscribe(m, name));
      && (id == None <==> name !in w.segments) && (id == None ==> u == w)
      && (id.Some? ==> id.value == KeptId(w.tables[m], name))
  {
    KeepsKeptId(w.tables[m], name);
  }

  /**
   * Whatever is called afterwards: publishers with the subscriber's own table trigger the kept id exactly when that
   * table listed the name, or had it left over, before; on a full table it keeps -1. Publishers whose own table already lists the name trigger it
   * exactly when their id for it is the one that the subscriber's table led to.
   */
  lemma {:induction false} SubscriberHearsIff(w: World, m: nat, name: string, calls: seq<Call>, p: nat)
    requires ValidWorld(w) && Possible(w, Subscribe(m, name)) && name in w.segments && p < |w.tables|
    requires AllPossible(Do(w, Subscribe(m, name)).0, calls)
    ensures var (u, id) := Do(w, Subscribe(m, name));
      var triggered := Lookup(DoAll(u, calls).tables[p], name);
      && (p == m && (Listed(w.tables[m], name) || w.tables[m].count < MAX_TOPICS) ==>
            (id == Some(triggered) <==> Listed(w.tables[m], name) || Stale(w.tables[m], name)))
      && (!Listed(w.tables[m], name) && w.tables[m].count >= MAX_TOPICS ==> u == w && id == Some(-1))
      && (p != m && Listed(w.tables[p], name) ==>
            (id == Some(triggered) <==> Lookup(w.tables[p], name) == KeptId(w.tables[m], name)))
  {
    var u := Do(w, Subscribe(m, name)).0;
    KeepsKeptId(w.tables[m], name);
    if Listed(w.tables[m], name) || Stale(w.tables[m], name) {
      KnownSubscriber(w.tables[m], name);
      TableAfter(u, calls, m, name);
    } else if w.tables[m].count < MAX_TOPICS {
      FreshSubscriber(w.tables[m], name);
      TableAfter(u, calls, m, name);
    }
    if p != m && Listed(w.tables[p], name) {
      TableAfter(u, calls, p, name);
    }
  }

  /** The id that a table goes on to find for a name, once it lists it: the listed one, a leftover, or one past the count. */
  function GivenId(t: Table, name: string): int
    requires ValidTable(t)
  {
    if Listed(t, name) then Lookup(t, name)
    else if t.count < MAX_TOPICS && t.slots[t.count].name == name then t.slots[t.count].id
    else t.count + 1
  }

  lemma PublishGives(t: Table, name: string)
    requires ValidTable(t) && FitsPublish(t, name)
    ensures Listed(PublishOnce(t, name), name) && Lookup(PublishOnce(t, name), name) == GivenId(t, name)
  {
    var u := PublishOnce(t, name);
    if !Listed(t, name) {
      assert forall i | 0 <= i < t.count :: u.slots[i] == t.slots[i];
      ScanIs(u.slots, u.count, name, if Stale(t, name) then t.count else t.count + 1);
    }
  }

  lemma SubscribeGives(t: Table, name: string)
    requires ValidTable(t) && FitsSubscribe(t, name) && (Listed(t, name) || t.count < MAX_TOPICS)
    ensures Listed(CreateSubscriber(t, name).0, name) && Lookup(CreateSubscriber(t, name).0, name) == GivenId(t, name)
  {
    if Listed(t, name) {
    } else if Stale(t, name) {
      KnownSubscriber(t, name);
      KeepsKeptId(t, name);
    } else {
      FreshSubscriber(t, name);
    }
  }

  /** A call for another name brings a name into the scanned range only if it was left over just past it. */
  lemma PublishOther(t: Table, other: string, name: string)
    requires ValidTable(t) && FitsPublish(t, other) && other != name
    requires !Listed(t, name) && Listed(PublishOnce(t, other), name)
    ensures Lookup(PublishOnce(t, other), name) == GivenId(t, name)
  {
    var u := PublishOnce(t, other);
    assert forall i | 0 <= i <= t.count :: u.slots[i] == t.slots[i];
    ScanIs(u.slots, u.count, name, if Stale(t, name) then t.count else u.count);
  }

  lemma SubscribeOther(t: Table, other: string, name: string)
    requires ValidTable(t) && FitsSubscribe(t, other) && other != name
    requires !Listed(t, name) && Listed(CreateSubscriber(t, other).0, name)
    ensures Lookup(CreateSubscriber(t, other).0, name) == GivenId(t, name)
  {
    var u := CreateSubscriber(t, other).0;
    if t.count < MAX_TOPICS {
      CreatedIsFoundIff(t, other);
    }
    assert forall i | 0 <= i <= t.count :: u.slots[i] == t.slots[i];
    ScanIs(u.slots, u.count, name, if Stale(t, name) && t.count < u.count then t.count else u.count);
  }

  lemma ListingCall(w: World, call: Call, p: nat, name: string)
    requires ValidWorld(w) && Possible(w, call) && p < |w.tables|
    requires !Listed(w.tables[p], name) && Listed(Do(w, call).0.tables[p], name)
    ensures Lookup(Do(w, call).0.tables[p], name) == GivenId(w.tables[p], name)
  {
    match call
    case Create(_) =>
    case EnsureListed(k, other) =>
      if other == name {
        PublishGives(w.tables[p], name);
      } else if k == p {
        PublishOther(w.tables[p], other, name);
      }
    case Subscribe(k, other) =>
      if other == name {
        SubscribeGives(w.tables[p], name);
      } else if k == p {
        SubscribeOther(w.tables[p], other, name);
      }
  }

  /** A table that comes to list a name does so at one of the calls, and then finds the id it gives at that point. */
  lemma {:induction false} ListedBy(w: World, calls: seq<Call>, p: nat, name: string) returns (k: nat)
    requires ValidWorld(w) && AllPossible(w, calls) && p < |w.tables|
    requires !Listed(w.tables[p], name) && Listed(DoAll(w, calls).tables[p], name)
    ensures k < |calls| && AllPossible(w, calls[..k]) && !Listed(DoAll(w, calls[..k]).tables[p], name)
    ensures Lookup(DoAll(w, calls).tables[p], name) == GivenId(DoAll(w, calls[..k]).tables[p], name)
    decreases |calls|
  {
    var u := Do(w, calls[0]).0;
    if Listed(u.tables[p], name) {
      ListingCall(w, calls[0], p, name);
      TableAfter(u, calls[1..], p, name);
      k := 0;
    } else {
      k := ListedBy(u, calls[1..], p, name);
      k := k + 1;
      assert calls[..k][1..] == calls[1..][..k - 1];
    }
  }

  /**
   * Publishers of another manager whose table comes to list the name only after the subscription, at call `k`, trigger
   * the kept id exactly when that table then gives it.
   */
  lemma {:induction false} SubscriberHearsLater(w: World, m: nat, name: string, calls: seq<Call>, p: nat) returns (k: nat)
    requires ValidWorld(w) && Possible(w, Subscribe(m, name)) && name in w.segments && p < |w.tables| && p != m
    requires AllPossible(Do(w, Subscribe(m, name)).0, calls)
    requires !Listed(w.tables[p], name) && Listed(DoAll(Do(w, Subscribe(m, name)).0, calls).tables[p], name)
    ensures k < |calls|
    ensures var (u, id) := Do(w, Subscribe(m, name));
      && AllPossible(u, calls[..k]) && !Listed(DoAll(u, calls[..k]).tables[p], name)
      && (id == Some(Lookup(DoAll(u, calls).tables[p], name))
          <==> GivenId(DoAll(u, calls[..k]).tables[p], name) == KeptId(w.tables[m], name))
  {
    KeepsKeptId(w.tables[m], name);
    k := ListedBy(Do(w, Subscribe(m, name)).0, calls, p, name);
  }

  // ----- from the start -----

  function Fresh(managers: nat): (w: World)
    ensures ValidWorld(w) && |w.tables| == managers && w.segments == {}
    ensures forall m | 0 <= m < managers :: w.tables[m] == EMPTY
  {
    World(seq(managers, _ => EMPTY), {})
  }

  lemma EmptyPublish(name: string)
    requires name != ""
    ensures FitsPublish(EMPTY, name) && Listed(PublishOnce(EMPTY, name), name) && Lookup(PublishOnce(EMPTY, name), name) == 1
  {
    ScanIs(PublishOnce(EMPTY, name).slots, 2, name, 1);
  }

  /** In one process: a subscription between the creation of the segment and the registration keeps 2; the publisher triggers 1. */
  lemma InterleavedSubscriberIsDeaf(name: string)
    requires name != ""
    ensures var created := Do(Fresh(1), Create(name)).0;
      && Possible(created, Subscribe(0, name))
      && var (w, id) := Do(created, Subscribe(0, name));
      && Possible(w, EnsureListed(0, name))
      && id == Some(2) && Lookup(Do(w, EnsureListed(0, name)).0.tables[0], name) == 1
  {
    FirstSubscriberIsDeaf(name);
    FreshSubscriber(EMPTY, name);
  }

  /** In another process, whose table was read before the name was published: it keeps 2; the publisher triggers 1. */
  lemma StaleSubscriberIsDeaf(name: string)
    requires name != ""
    ensures var created := Do(Fresh(2), Create(name)).0;
      && Possible(created, EnsureListed(0, name))
      && var published := Do(created, EnsureListed(0, name)).0;
      && Possible(published, Subscribe(1, name))
      && var (w, id) := Do(published, Subscribe(1, name));
      && id == Some(2) && Lookup(w.tables[0], name) == 1
  {
    EmptyPublish(name);
    FreshSubscriber(EMPTY, name);
  }
}
