/** What the slot arithmetic of the topic registry keeps, and what it loses, over whole runs. */
module TopicRuns {
  import opened EventBits
  import opened TopicTable

  /** The calls on one manager that read or write its table; names are already joined. */
  datatype Op =
    | AddSub(name: string)
    | Register(name: string)
    | Publish(name: string)
    | Ask(name: string)

  ghost predicate InBounds(t: Table, op: Op)
    requires ValidTable(t)
  {
    match op
    case AddSub(name) => Fits(t, name)
    case Register(name) => Fits(t, name)
    case Publish(name) => FitsPub(t, name)
    case Ask(_) => true
  }

  /** The table afterwards, and the id that the call obtains. */
  function Apply(t: Table, op: Op): (r: (Table, int))
    requires ValidTable(t) && InBounds(t, op)
    ensures ValidTable(r.0)
  {
    match op
    case AddSub(name) => FindOrCreate(t, name)
    case Register(name) => FindOrCreate(t, name)
    case Publish(name) => AddPub(t, name)
    case Ask(name) => (t, Lookup(t, name))
  }

  ghost predicate AllInBounds(t: Table, ops: seq<Op>)
    requires ValidTable(t)
    decreases |ops|
  {
    ops == [] || (InBounds(t, ops[0]) && AllInBounds(Apply(t, ops[0]).0, ops[1..]))
  }

  function Run(t: Table, ops: seq<Op>): (r: Table)
    requires ValidTable(t) && AllInBounds(t, ops)
    ensures ValidTable(r)
    decreases |ops|
  {
    if ops == [] then t else Run(Apply(t, ops[0]).0, ops[1..])
  }

  function Ids(t: Table, ops: seq<Op>): (r: seq<int>)
    requires ValidTable(t) && AllInBounds(t, ops)
    ensures |r| == |ops|
    decreases |ops|
  {
    if ops == [] then [] else [Apply(t, ops[0]).1] + Ids(Apply(t, ops[0]).0, ops[1..])
  }

  // ---- Ids are never shared ----

  /** Every id handed out so far belongs to one name; every used slot carries its owner's id. */
  ghost predicate Owned(t: Table, owner: map<int, string>)
    requires ValidTable(t)
  {
    && (forall id | id in owner :: 1 <= id <= t.count)
    && (forall i | 0 <= i < MAX_TOPICS && t.slots[i] != ZERO ::
          t.slots[i].id in owner && owner[t.slots[i].id] == t.slots[i].name)
  }

  function Claim(owner: map<int, string>, id: int, name: string): map<int, string> {
    if id < 0 then owner else owner[id := name]
  }

  function Owners(t: Table, ops: seq<Op>, owner: map<int, string>): map<int, string>
    requires ValidTable(t) && AllInBounds(t, ops)
    decreases |ops|
  {
    if ops == [] then owner
    else
      var (u, id) := Apply(t, ops[0]);
      Owners(u, ops[1..], Claim(owner, id, ops[0].name))
  }

  lemma FindOrCreateOwned(t: Table, name: string, owner: map<int, string>)
    requires ValidTable(t) && Fits(t, name) && Owned(t, owner) && name != ""
    ensures var (u, id) := FindOrCreate(t, name);
      Owned(u, Claim(owner, id, name)) && (id in owner ==> owner[id] == name)
  {
  }

  lemma StepOwned(t: Table, op: Op, owner: map<int, string>)
    requires ValidTable(t) && InBounds(t, op) && Owned(t, owner) && op.name != ""
    ensures var (u, id) := Apply(t, op);
      Owned(u, Claim(owner, id, op.name)) && (id in owner ==> owner[id] == op.name)
  {
    if !op.Ask? {
      FindOrCreateOwned(t, op.name, owner);
    }
  }

  lemma {:induction false} RunOwned(t: Table, ops: seq<Op>, owner: map<int, string>)
    requires ValidTable(t) && AllInBounds(t, ops) && Owned(t, owner)
    requires forall op | op in ops :: op.name != ""
    ensures var last := Owners(t, ops, owner);
      && Owned(Run(t, ops), last)
      && (forall id | id in owner :: id in last && last[id] == owner[id])
      && (forall i | 0 <= i < |ops| && Ids(t, ops)[i] >= 0 ::
            Ids(t, ops)[i] in last && last[Ids(t, ops)[i]] == ops[i].name)
    decreases |ops|
  {
    if ops != [] {
      var (u, id) := Apply(t, ops[0]);
      StepOwned(t, ops[0], owner);
      RunOwned(u, ops[1..], Claim(owner, id, ops[0].name));
    }
  }

  /** Over any mix of calls, two that obtain the same id were made with the same name. */
  lemma {:induction false} IdsNeverShared(ops: seq<Op>, i: nat, j: nat)
    requires AllInBounds(EMPTY, ops) && (forall op | op in ops :: op.name != "")
    requires i < |ops| && j < |ops|
    requires Ids(EMPTY, ops)[i] == Ids(EMPTY, ops)[j] >= 0
    ensures ops[i].name == ops[j].name
  {
    RunOwned(EMPTY, ops, map[]);
  }

  // ---- Lookups are stable ----

  lemma {:induction false} ScanPrefix(a: seq<TopicInfo>, n: nat, b: seq<TopicInfo>, m: nat, name: string)
    requires n <= |a| && n <= m <= |b| && a[..n] == b[..n]
    requires Scan(a, n, name) < n
    ensures Scan(b, m, name) == Scan(a, n, name)
  {
    var i := Scan(a, n, name);
    forall k | 0 <= k < n ensures b[k] == a[k] {
      assert b[k] == b[..n][k] && a[k] == a[..n][k];
    }
    ScanIs(b, m, name, i);
  }

  /** No call writes inside the scanned range. */
  lemma StepKeepsPrefix(t: Table, op: Op)
    requires ValidTable(t) && InBounds(t, op)
    ensures var u := Apply(t, op).0; u.count >= t.count && u.slots[..t.count] == t.slots[..t.count]
  {
  }

  lemma {:induction false} RunKeepsPrefix(t: Table, ops: seq<Op>)
    requires ValidTable(t) && AllInBounds(t, ops)
    ensures var u := Run(t, ops); u.count >= t.count && u.slots[..t.count] == t.slots[..t.count]
    decreases |ops|
  {
    if ops != [] {
      var u := Apply(t, ops[0]).0;
      var last := Run(u, ops[1..]);
      StepKeepsPrefix(t, ops[0]);
      RunKeepsPrefix(u, ops[1..]);
      assert last.slots[..t.count] == last.slots[..u.count][..t.count];
      assert u.slots[..t.count] == u.slots[..u.count][..t.count];
    }
  }

  /** Once a name is found, every later lookup finds it with the same id, whatever is called. */
  lemma {:induction false} LookupStable(t: Table, ops: seq<Op>, name: string)
    requires ValidTable(t) && AllInBounds(t, ops) && Listed(t, name)
    ensures Listed(Run(t, ops), name)
    ensures Lookup(Run(t, ops), name) == Lookup(t, name)
  {
    RunKeepsPrefix(t, ops);
    var u := Run(t, ops);
    ScanPrefix(t.slots, t.count, u.slots, u.count, name);
    var i := Scan(t.slots, t.count, name);
    assert u.slots[i] == u.slots[..t.count][i] == t.slots[..t.count][i] == t.slots[i];
  }

  /** isTopicExist agrees with getTopicEventId_ in every reachable table. */
  lemma {:induction false} ExistsAgreesWithLookup(ops: seq<Op>, name: string)
    requires AllInBounds(EMPTY, ops) && (forall op | op in ops :: op.name != "") && name != ""
    ensures Listed(Run(EMPTY, ops), name) <==> Lookup(Run(EMPTY, ops), name) >= 0
  {
    RunOwned(EMPTY, ops, map[]);
  }

  // ---- When a registered name is found again ----

  /** The slot just past the scanned range, where an earlier creation may have left its entry. */
  ghost predicate Stale(t: Table, name: string)
    requires ValidTable(t)
  {
    t.count < MAX_TOPICS && t.slots[t.count].name == name
  }

  /** A created entry sits just past the range, so the name is found only if it, or a leftover, was there before. */
  lemma CreatedIsFoundIff(t: Table, name: string)
    requires ValidTable(t) && t.count + 1 < MAX_TOPICS
    ensures Listed(FindOrCreate(t, name).0, name) <==> Listed(t, name) || Stale(t, name)
  {
    var u := FindOrCreate(t, name).0;
    if !Listed(t, name) {
      assert forall i | 0 <= i < t.count :: u.slots[i] == t.slots[i];
      ScanIs(u.slots, u.count, name, if Stale(t, name) then t.count else u.count);
    }
  }

  /** addPubTopic always makes the name visible; with the id it obtained exactly when no leftover entry comes first. */
  lemma PublishedIsFound(t: Table, name: string, owner: map<int, string>)
    requires ValidTable(t) && FitsPub(t, name) && Owned(t, owner) && name != ""
    ensures var (u, id) := AddPub(t, name);
      && Listed(u, name)
      && (Lookup(u, name) == id <==> Listed(t, name) || !Stale(t, name))
  {
    var (u, id) := AddPub(t, name);
    assert forall i | 0 <= i < t.count :: u.slots[i] == t.slots[i];
    ScanIs(u.slots, u.count, name,
           if Listed(t, name) then Scan(t.slots, t.count, name) else if Stale(t, name) then t.count else t.count + 1);
  }

  /** Both registrations of a subscription write inside the table. */
  ghost predicate FitsSubscribe(t: Table, name: string)
    requires ValidTable(t)
  {
    Fits(t, name) && Fits(FindOrCreate(t, name).0, name)
  }

  /** The two registrations of createSubscriber: addSubTopic, then registerTopicEvent, whose id the node keeps. */
  function CreateSubscriber(t: Table, name: string): (r: (Table, int))
    requires ValidTable(t) && FitsSubscribe(t, name)
    ensures ValidTable(r.0)
  {
    FindOrCreate(FindOrCreate(t, name).0, name)
  }

  lemma FreshSubscriber(t: Table, name: string)
    requires ValidTable(t) && FitsSubscribe(t, name) && t.count < MAX_TOPICS && !Listed(t, name) && !Stale(t, name)
    ensures var (u, id) := CreateSubscriber(t, name);
      id == t.count + 2 && Listed(u, name) && Lookup(u, name) == t.count + 1
  {
    CreatedIsFoundIff(t, name);
    var u := CreateSubscriber(t, name).0;
    assert forall i | 0 <= i <= t.count :: u.slots[i] == t.slots[i];
    ScanIs(u.slots, u.count, name, t.count + 1);
  }

  lemma KnownSubscriber(t: Table, name: string)
    requires ValidTable(t) && FitsSubscribe(t, name) && (Listed(t, name) || Stale(t, name))
    ensures var (u, id) := CreateSubscriber(t, name); Listed(u, name) && Lookup(u, name) == id
  {
    var u := FindOrCreate(t, name).0;
    if !Listed(t, name) {
      CreatedIsFoundIff(t, name);
      assert forall i | 0 <= i < t.count :: u.slots[i] == t.slots[i];
    }
  }

  /**
   * The id a subscription keeps is the one that publishers with the same table go on to trigger, in every later state,
   * exactly when the name was in the table, or just past its end, before the subscription. On a full table that does not
   * list the name it keeps -1.
   */
  lemma {:induction false} SubscriberHearsPublisherIff(t: Table, name: string, ops: seq<Op>)
    requires ValidTable(t) && FitsSubscribe(t, name)
    requires AllInBounds(CreateSubscriber(t, name).0, ops)
    ensures if Listed(t, name) || t.count < MAX_TOPICS then
              Lookup(Run(CreateSubscriber(t, name).0, ops), name) == CreateSubscriber(t, name).1
              <==> Listed(t, name) || Stale(t, name)
            else CreateSubscriber(t, name) == (t, -1)
  {
    if Listed(t, name) || Stale(t, name) {
      KnownSubscriber(t, name);
      LookupStable(CreateSubscriber(t, name).0, ops, name);
    } else if t.count < MAX_TOPICS {
      FreshSubscriber(t, name);
      LookupStable(CreateSubscriber(t, name).0, ops, name);
    }
  }

  /** On a fresh table the two registrations of any name keep id 2, while lookups find 1. */
  lemma FirstSubscriberIsDeaf(name: string)
    requires name != ""
    ensures var (u, id) := CreateSubscriber(EMPTY, name); id == 2 && Lookup(u, name) == 1
  {
    FreshSubscriber(EMPTY, name);
  }

  // ---- Runs of publish, which adds a name only when it is not listed ----

  const MAX_NAMES: nat := 512

  function AddName(ds: seq<string>, name: string): seq<string> {
    if name in ds then ds else ds + [name]
  }

  /** `ds` followed by the new names, in the order in which each was first published. */
  function Uses(ds: seq<string>, names: seq<string>): seq<string>
    decreases |names|
  {
    if names == [] then ds else Uses(AddName(ds, names[0]), names[1..])
  }

  predicate Distinct(ds: seq<string>) {
    forall i, j | 0 <= i < j < |ds| :: ds[i] != ds[j]
  }

  lemma {:induction false} UsesAreDistinct(ds: seq<string>, names: seq<string>)
    requires Distinct(ds)
    ensures Distinct(Uses(ds, names)) && |Uses(ds, names)| >= |ds|
    ensures forall name :: name in Uses(ds, names) <==> name in ds || name in names
    decreases |names|
  {
    if names != [] {
      UsesAreDistinct(AddName(ds, names[0]), names[1..]);
      assert names == [names[0]] + names[1..];
    }
  }

  function OddSlot(ds: seq<string>, i: nat): TopicInfo
    requires i < MAX_TOPICS
  {
    if i % 2 == 1 && i / 2 < |ds| then TopicInfo(ds[i / 2], i) else ZERO
  }

  function OddSlots(ds: seq<string>, n: nat): (slots: seq<TopicInfo>)
    requires n <= MAX_TOPICS
    ensures |slots| == n && forall i | 0 <= i < n :: slots[i] == OddSlot(ds, i)
  {
    if n == 0 then [] else OddSlots(ds, n - 1) + [OddSlot(ds, n - 1)]
  }

  /** The table in closed form: name number k at slot 2k + 1, whose number is its id. */
  function Odd(ds: seq<string>): (t: Table)
    requires |ds| <= MAX_NAMES
    ensures ValidTable(t)
  {
    Table(OddSlots(ds, MAX_TOPICS), 2 * |ds|)
  }

  lemma OddLookup(ds: seq<string>, k: nat)
    requires k < |ds| <= MAX_NAMES && Distinct(ds) && "" !in ds
    ensures Listed(Odd(ds), ds[k]) && Lookup(Odd(ds), ds[k]) == 2 * k + 1
  {
    ScanIs(Odd(ds).slots, 2 * |ds|, ds[k], 2 * k + 1);
  }

  lemma OddLists(ds: seq<string>, name: string)
    requires |ds| <= MAX_NAMES && Distinct(ds) && "" !in ds && name != ""
    ensures Listed(Odd(ds), name) <==> name in ds
  {
    if name in ds {
      var k :| 0 <= k < |ds| && ds[k] == name;
      OddLookup(ds, k);
    } else {
      ScanIs(Odd(ds).slots, 2 * |ds|, name, 2 * |ds|);
    }
  }

  lemma OddStep(ds: seq<string>, name: string)
    requires |ds| < MAX_NAMES && Distinct(ds) && "" !in ds && name != "" && name !in ds
    ensures FitsPub(Odd(ds), name) && AddPub(Odd(ds), name) == (Odd(ds + [name]), 2 * |ds| + 1)
  {
    OddLists(ds, name);
    var u := AddPub(Odd(ds), name).0;
    assert u.slots == Odd(ds + [name]).slots;
  }

  /** One publish of each name in turn, with repetitions; each must find room in the table. */
  ghost predicate PublishAllFits(t: Table, names: seq<string>)
    requires ValidTable(t)
    decreases |names|
  {
    names == [] || (FitsPublish(t, names[0]) && PublishAllFits(PublishOnce(t, names[0]), names[1..]))
  }

  function PublishAll(t: Table, names: seq<string>): (r: Table)
    requires ValidTable(t) && PublishAllFits(t, names)
    ensures ValidTable(r)
    decreases |names|
  {
    if names == [] then t else PublishAll(PublishOnce(t, names[0]), names[1..])
  }

  lemma {:induction false} PublishAllIsOdd(ds: seq<string>, names: seq<string>)
    requires Distinct(ds) && "" !in ds && "" !in names && |ds| <= MAX_NAMES
    ensures PublishAllFits(Odd(ds), names) <==> |Uses(ds, names)| <= MAX_NAMES
    ensures PublishAllFits(Odd(ds), names) ==> PublishAll(Odd(ds), names) == Odd(Uses(ds, names))
    decreases |names|
  {
    UsesAreDistinct(ds, names);
    if names != [] {
      var ds' := AddName(ds, names[0]);
      UsesAreDistinct(ds', names[1..]);
      OddLists(ds, names[0]);
      if names[0] in ds {
        PublishAllIsOdd(ds', names[1..]);
      } else if |ds| < MAX_NAMES {
        OddStep(ds, names[0]);
        PublishAllIsOdd(ds', names[1..]);
      }
    }
  }

  lemma OddEmpty()
    ensures Odd([]) == EMPTY
  {
    assert Odd([]).slots == EMPTY.slots;
  }

  /** Names published in any order and any number of times fit exactly when at most 512 of them differ. */
  lemma {:induction false} PublishFitsIff(names: seq<string>)
    requires "" !in names
    ensures PublishAllFits(EMPTY, names) <==> |Uses([], names)| <= MAX_NAMES
  {
    OddEmpty();
    PublishAllIsOdd([], names);
  }

  /** The k-th distinct name then keeps id 2k + 1, and only the 512th takes the reserved bit. */
  lemma {:induction false} PublishedIds(names: seq<string>, k: nat)
    requires "" !in names && PublishAllFits(EMPTY, names) && k < |Uses([], names)|
    ensures Lookup(PublishAll(EMPTY, names), Uses([], names)[k]) == 2 * k + 1
    ensures 2 * k + 1 == SYNC <==> k == MAX_NAMES - 1
  {
    OddEmpty();
    PublishAllIsOdd([], names);
    UsesAreDistinct([], names);
    OddLookup(Uses([], names), k);
  }
}
