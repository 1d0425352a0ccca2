/** The mutexes that each call takes, within which others it takes them, and the threads that wait for each other. */
module LockOrder {

  datatype Mutex =
    | Registry(node: nat)
    | NodeMutex(node: nat)
    | Subscriber(id: nat)
    | Pool(node: nat)
    | Shm(segment: nat)
    | Timer(id: nat)
    | Event

  datatype Action = Acquire(m: Mutex) | Release(m: Mutex)

  // What a thread holds and what it has still to do.
  datatype Thread = Thread(held: set<Mutex>, program: seq<Action>)

  type State = seq<Thread>

  // ----- the programs -----

  function Section(m: Mutex): seq<Action> {
    [Acquire(m), Release(m)]
  }

  function Within(m: Mutex, body: seq<Action>): seq<Action> {
    [Acquire(m)] + body + [Release(m)]
  }

  // The segment that holds the registry.
  const REGISTRY_SHM: nat := 0

  datatype TimerCheck = TimerCheck(id: nat, ready: bool)

  /**
   * The calls of the library. A spin round that finds no bit set is an empty one. The callback of RunTask uses no mutex
   * of the library; that of PublishingTask, run by the pool of one node, publishes through `node`, under the mutex of
   * its subscriber. SetUp is createSubscriber, with a new subscriber.
   */
  datatype Call =
    | SpinRound(node: nat, served: seq<nat>, sync: bool, timers: seq<TimerCheck>)
    | EmptyRound(node: nat, timers: seq<TimerCheck>)
    | Publish(node: nat, segment: nat, isNew: bool)
    | RemoveNode(node: nat)
    | RunTask(node: nat, subscriber: nat)
    | RunTimer(node: nat)
    | StopNode(node: nat)
    | SetUp(node: nat, subscriber: nat)
    | PublishingTask(pool: nat, subscriber: nat, node: nat, segment: nat, isNew: bool)

  /** The copies and enqueues of the subscription loop. */
  function Serve(node: nat, served: seq<nat>): seq<Action> {
    if served == [] then []
    else Section(Subscriber(served[0])) + Section(Pool(node)) + Serve(node, served[1..])
  }

  /** isReady of each timer, and the enqueue of those that are. */
  function Check(node: nat, timers: seq<TimerCheck>): seq<Action> {
    if timers == [] then []
    else Section(Timer(timers[0].id)) + (if timers[0].ready then Section(Pool(node)) else []) + Check(node, timers[1..])
  }

  function Repeat(n: nat, body: seq<Action>): seq<Action> {
    if n == 0 then [] else body + Repeat(n - 1, body)
  }

  /** A registration: two texts written, or one and a trigger, under the registry's mutex. */
  function Update(node: nat, first: Mutex, second: Mutex): seq<Action> {
    Within(Registry(node), Section(first) + Section(second))
  }

  /** The subscription loop under both mutexes, and the clearing of what it served. */
  function Round(node: nat, served: seq<nat>): seq<Action> {
    Within(Registry(node), Within(NodeMutex(node), Serve(node, served)) + Repeat(|served|, Section(Event)))
  }

  function Publishing(node: nat, segment: nat, isNew: bool): seq<Action> {
    Section(Registry(node))
    + (if isNew then Update(node, Shm(REGISTRY_SHM), Shm(REGISTRY_SHM)) else [])
    + Section(Shm(segment))
    + Within(Registry(node), Section(Event))
  }

  function Actions(call: Call): seq<Action> {
    match call
    case SpinRound(n, served, sync, timers) =>
      Section(Event) + Round(n, served)
      + (if sync then Update(n, Shm(REGISTRY_SHM), Shm(REGISTRY_SHM)) + Section(Event) else [])
      + Check(n, timers)
    case EmptyRound(n, timers) => Section(Event) + Section(Registry(n)) + Check(n, timers)
    case Publish(n, segment, isNew) => Publishing(n, segment, isNew)
    case RemoveNode(n) => Update(n, Shm(REGISTRY_SHM), Event)
    case RunTask(n, subscriber) => Section(Pool(n)) + Section(Subscriber(subscriber))
    case RunTimer(n) => Section(Pool(n))
    case StopNode(n) => Section(Pool(n)) + Section(Event)
    case SetUp(n, subscriber) =>
      Section(Subscriber(subscriber))
      + Within(NodeMutex(n), Within(Registry(n), Section(Shm(REGISTRY_SHM))) + Within(Registry(n), Section(Shm(REGISTRY_SHM))))
    case PublishingTask(pool, subscriber, n, segment, isNew) =>
      Section(Pool(pool)) + Within(Subscriber(subscriber), Publishing(n, segment, isNew))
  }

  function Program(calls: seq<Call>): seq<Action> {
    if calls == [] then [] else Actions(calls[0]) + Program(calls[1..])
  }

  // ----- the machine -----

  predicate Free(s: State, m: Mutex) {
    forall t | 0 <= t < |s| :: m !in s[t].held
  }

  predicate CanStep(s: State, t: nat)
    requires t < |s|
  {
    s[t].program != [] && (s[t].program[0].Acquire? ==> Free(s, s[t].program[0].m))
  }

  function Next(s: State, t: nat): State
    requires t < |s| && CanStep(s, t)
  {
    var a := s[t].program[0];
    s[t := Thread(if a.Acquire? then s[t].held + {a.m} else s[t].held - {a.m}, s[t].program[1..])]
  }

  predicate CanRun(s: State, schedule: seq<nat>)
    decreases |schedule|
  {
    schedule == [] ||
    (schedule[0] < |s| && CanStep(s, schedule[0]) && CanRun(Next(s, schedule[0]), schedule[1..]))
  }

  function Run(s: State, schedule: seq<nat>): (r: State)
    requires CanRun(s, schedule)
    ensures |r| == |s|
    decreases |schedule|
  {
    if schedule == [] then s else Run(Next(s, schedule[0]), schedule[1..])
  }

  function Start(threads: seq<seq<Call>>): (s: State)
    ensures |s| == |threads| && forall t | 0 <= t < |s| :: s[t] == Thread({}, Program(threads[t]))
  {
    seq(|threads|, t requires 0 <= t < |threads| => Thread({}, Program(threads[t])))
  }

  // ----- which mutex is taken within which -----

  /** Nothing is taken within these. */
  predicate Leaf(m: Mutex) {
    m.Pool? || m.Shm? || m.Timer? || m.Event?
  }

  /** A call may take `m` within `h`, leaves aside. */
  predicate CallEdge(call: Call, h: Mutex, m: Mutex) {
    match call
    case SpinRound(n, served, _, _) =>
      (h == Registry(n) && m == NodeMutex(n)) || ((h == Registry(n) || h == NodeMutex(n)) && m.Subscriber? && m.id in served)
    case SetUp(n, _) => h == NodeMutex(n) && m == Registry(n)
    case PublishingTask(_, subscriber, n, _, _) => h == Subscriber(subscriber) && m == Registry(n)
    case _ => false
  }

  ghost predicate Edge(calls: set<Call>, h: Mutex, m: Mutex) {
    !Leaf(h) && (Leaf(m) || exists call | call in calls :: CallEdge(call, h, m))
  }

  ghost predicate Over(calls: set<Call>, held: set<Mutex>, m: Mutex) {
    forall h | h in held :: Edge(calls, h, m)
  }

  /** Every mutex is taken along the edges from all that are held, and only a held one is released. */
  ghost predicate InOrder(calls: set<Call>, held: set<Mutex>, p: seq<Action>)
    decreases |p|
  {
    p == [] ||
    var m := p[0].m;
    if p[0].Acquire? then Over(calls, held, m) && InOrder(calls, held + {m}, p[1..])
    else m in held && InOrder(calls, held - {m}, p[1..])
  }

  function HeldAfter(held: set<Mutex>, p: seq<Action>): set<Mutex>
    decreases |p|
  {
    if p == [] then held else HeldAfter(if p[0].Acquire? then held + {p[0].m} else held - {p[0].m}, p[1..])
  }

  /** A piece of program along the edges that gives back what it takes. */
  ghost predicate Neat(calls: set<Call>, held: set<Mutex>, p: seq<Action>) {
    InOrder(calls, held, p) && HeldAfter(held, p) == held
  }

  lemma {:induction false} ConcatParts(calls: set<Call>, held: set<Mutex>, a: seq<Action>, b: seq<Action>)
    ensures InOrder(calls, held, a + b) <==> InOrder(calls, held, a) && InOrder(calls, HeldAfter(held, a), b)
    ensures HeldAfter(held, a + b) == HeldAfter(HeldAfter(held, a), b)
    decreases |a|
  {
    if a == [] {
      assert a + b == b;
    } else {
      assert (a + b)[1..] == a[1..] + b;
      ConcatParts(calls, if a[0].Acquire? then held + {a[0].m} else held - {a[0].m}, a[1..], b);
    }
  }

  lemma {:induction false} NeatConcat(calls: set<Call>, held: set<Mutex>, a: seq<Action>, b: seq<Action>)
    requires Neat(calls, held, a) && Neat(calls, held, b)
    ensures Neat(calls, held, a + b)
  {
    ConcatParts(calls, held, a, b);
  }

  lemma NoLoop(calls: set<Call>, h: Mutex)
    ensures !Edge(calls, h, h)
  {
  }

  lemma {:induction false} NeatWithin(calls: set<Call>, held: set<Mutex>, m: Mutex, body: seq<Action>)
    requires Over(calls, held, m) && Neat(calls, held + {m}, body)
    ensures Neat(calls, held, Within(m, body))
  {
    ConcatParts(calls, held, [Acquire(m)], body);
    ConcatParts(calls, held, [Acquire(m)] + body, [Release(m)]);
    NoLoop(calls, m);
    assert m !in held;
    assert HeldAfter(held, [Acquire(m)]) == held + {m};
    assert HeldAfter(held + {m}, [Release(m)]) == held;
  }

  lemma NeatSection(calls: set<Call>, held: set<Mutex>, m: Mutex)
    requires Over(calls, held, m)
    ensures Neat(calls, held, Section(m))
  {
    NeatWithin(calls, held, m, []);
    assert Within(m, []) == Section(m);
  }

  lemma {:induction false} NeatRepeat(calls: set<Call>, held: set<Mutex>, n: nat, body: seq<Action>)
    requires Neat(calls, held, body)
    ensures Neat(calls, held, Repeat(n, body))
  {
    if n > 0 {
      NeatRepeat(calls, held, n - 1, body);
      NeatConcat(calls, held, body, Repeat(n - 1, body));
    }
  }

  lemma {:induction false} NeatServe(calls: set<Call>, node: nat, served: seq<nat>)
    requires forall x | x in served :: Over(calls, {Registry(node), NodeMutex(node)}, Subscriber(x))
    ensures Neat(calls, {Registry(node), NodeMutex(node)}, Serve(node, served))
  {
    if served != [] {
      var held := {Registry(node), NodeMutex(node)};
      NeatSection(calls, held, Subscriber(served[0]));
      NeatSection(calls, held, Pool(node));
      NeatConcat(calls, held, Section(Subscriber(served[0])), Section(Pool(node)));
      NeatServe(calls, node, served[1..]);
      NeatConcat(calls, held, Section(Subscriber(served[0])) + Section(Pool(node)), Serve(node, served[1..]));
    }
  }

  lemma {:induction false} NeatCheck(calls: set<Call>, node: nat, timers: seq<TimerCheck>)
    ensures Neat(calls, {}, Check(node, timers))
  {
    if timers != [] {
      var enqueue := if timers[0].ready then Section(Pool(node)) else [];
      NeatSection(calls, {}, Timer(timers[0].id));
      NeatSection(calls, {}, Pool(node));
      NeatConcat(calls, {}, Section(Timer(timers[0].id)), enqueue);
      NeatCheck(calls, node, timers[1..]);
      NeatConcat(calls, {}, Section(Timer(timers[0].id)) + enqueue, Check(node, timers[1..]));
    }
  }

  lemma NeatRound(calls: set<Call>, call: Call)
    requires call in calls && call.SpinRound?
    ensures Neat(calls, {}, Round(call.node, call.served))
  {
    var n, served := call.node, call.served;
    var held := {Registry(n)};
    assert CallEdge(call, Registry(n), NodeMutex(n));
    assert forall x | x in served :: CallEdge(call, Registry(n), Subscriber(x)) && CallEdge(call, NodeMutex(n), Subscriber(x));
    NeatServe(calls, n, served);
    assert held + {NodeMutex(n)} == {Registry(n), NodeMutex(n)};
    NeatWithin(calls, held, NodeMutex(n), Serve(n, served));
    NeatSection(calls, held, Event);
    NeatRepeat(calls, held, |served|, Section(Event));
    NeatConcat(calls, held, Within(NodeMutex(n), Serve(n, served)), Repeat(|served|, Section(Event)));
    assert {} + {Registry(n)} == held;
    NeatWithin(calls, {}, Registry(n), Within(NodeMutex(n), Serve(n, served)) + Repeat(|served|, Section(Event)));
  }

  lemma NeatUpdate(calls: set<Call>, held: set<Mutex>, node: nat, first: Mutex, second: Mutex)
    requires Leaf(first) && Leaf(second) && Over(calls, held, Registry(node))
    ensures Neat(calls, held, Update(node, first, second))
  {
    var inside := held + {Registry(node)};
    NeatSection(calls, inside, first);
    NeatSection(calls, inside, second);
    NeatConcat(calls, inside, Section(first), Section(second));
    NeatWithin(calls, held, Registry(node), Section(first) + Section(second));
  }

  lemma NeatPublishing(calls: set<Call>, held: set<Mutex>, node: nat, segment: nat, isNew: bool)
    requires Over(calls, held, Registry(node))
    ensures Neat(calls, held, Publishing(node, segment, isNew))
  {
    var update := if isNew then Update(node, Shm(REGISTRY_SHM), Shm(REGISTRY_SHM)) else [];
    var trigger := Within(Registry(node), Section(Event));
    NeatSection(calls, held, Registry(node));
    NeatUpdate(calls, held, node, Shm(REGISTRY_SHM), Shm(REGISTRY_SHM));
    NeatSection(calls, held, Shm(segment));
    NeatSection(calls, held + {Registry(node)}, Event);
    NeatWithin(calls, held, Registry(node), Section(Event));
    NeatConcat(calls, held, Section(Registry(node)), update);
    NeatConcat(calls, held, Section(Registry(node)) + update, Section(Shm(segment)));
    NeatConcat(calls, held, Section(Registry(node)) + update + Section(Shm(segment)), trigger);
  }

  lemma NeatSpin(calls: set<Call>, call: Call)
    requires call in calls && call.SpinRound?
    ensures Neat(calls, {}, Actions(call))
  {
    var n, scan := call.node, Round(call.node, call.served);
    var update := Update(n, Shm(REGISTRY_SHM), Shm(REGISTRY_SHM));
    var synced := if call.sync then update + Section(Event) else [];
    NeatSection(calls, {}, Event);
    NeatRound(calls, call);
    NeatUpdate(calls, {}, n, Shm(REGISTRY_SHM), Shm(REGISTRY_SHM));
    NeatConcat(calls, {}, update, Section(Event));
    NeatCheck(calls, n, call.timers);
    NeatConcat(calls, {}, Section(Event), scan);
    NeatConcat(calls, {}, Section(Event) + scan, synced);
    NeatConcat(calls, {}, Section(Event) + scan + synced, Check(n, call.timers));
  }

  lemma NeatSetUp(calls: set<Call>, call: Call)
    requires call in calls && call.SetUp?
    ensures Neat(calls, {}, Actions(call))
  {
    var n := call.node;
    var held, write := {NodeMutex(n)}, Within(Registry(n), Section(Shm(REGISTRY_SHM)));
    assert CallEdge(call, NodeMutex(n), Registry(n));
    NeatSection(calls, {}, Subscriber(call.subscriber));
    NeatSection(calls, held + {Registry(n)}, Shm(REGISTRY_SHM));
    NeatWithin(calls, held, Registry(n), Section(Shm(REGISTRY_SHM)));
    NeatConcat(calls, held, write, write);
    assert {} + {NodeMutex(n)} == held;
    NeatWithin(calls, {}, NodeMutex(n), write + write);
    NeatConcat(calls, {}, Section(Subscriber(call.subscriber)), Within(NodeMutex(n), write + write));
  }

  /** Every call takes its mutexes along the edges, and gives all of them back. */
  lemma NeatCall(calls: set<Call>, call: Call)
    requires call in calls
    ensures Neat(calls, {}, Actions(call))
  {
    match call
    case SpinRound(_, _, _, _) => NeatSpin(calls, call);
    case EmptyRound(n, timers) =>
      NeatSection(calls, {}, Event);
      NeatSection(calls, {}, Registry(n));
      NeatConcat(calls, {}, Section(Event), Section(Registry(n)));
      NeatCheck(calls, n, timers);
      NeatConcat(calls, {}, Section(Event) + Section(Registry(n)), Check(n, timers));
    case Publish(n, segment, isNew) => NeatPublishing(calls, {}, n, segment, isNew);
    case RemoveNode(n) => NeatUpdate(calls, {}, n, Shm(REGISTRY_SHM), Event);
    case RunTask(n, subscriber) =>
      NeatSection(calls, {}, Pool(n));
      NeatSection(calls, {}, Subscriber(subscriber));
      NeatConcat(calls, {}, Section(Pool(n)), Section(Subscriber(subscriber)));
    case RunTimer(n) => NeatSection(calls, {}, Pool(n));
    case StopNode(n) =>
      NeatSection(calls, {}, Pool(n));
      NeatSection(calls, {}, Event);
      NeatConcat(calls, {}, Section(Pool(n)), Section(Event));
    case SetUp(_, _) => NeatSetUp(calls, call);
    case PublishingTask(pool, subscriber, n, segment, isNew) =>
      assert CallEdge(call, Subscriber(subscriber), Registry(n));
      NeatSection(calls, {}, Pool(pool));
      NeatPublishing(calls, {} + {Subscriber(subscriber)}, n, segment, isNew);
      NeatWithin(calls, {}, Subscriber(subscriber), Publishing(n, segment, isNew));
      NeatConcat(calls, {}, Section(Pool(pool)), Within(Subscriber(subscriber), Publishing(n, segment, isNew)));
  }

  lemma {:induction false} ProgramsNeat(calls: set<Call>, program: seq<Call>)
    requires forall call | call in program :: call in calls
    ensures Neat(calls, {}, Program(program))
  {
    if program != [] {
      NeatCall(calls, program[0]);
      ProgramsNeat(calls, program[1..]);
      NeatConcat(calls, {}, Actions(program[0]), Program(program[1..]));
    }
  }

  /** Without set-up and publishing callbacks all edges rise in one order: registry, node, subscriber, and then the rest. */
  function Rank(m: Mutex): nat {
    match m
    case Registry(_) => 0
    case NodeMutex(_) => 1
    case Subscriber(_) => 2
    case _ => 3
  }

  lemma EdgesRise(calls: set<Call>, h: Mutex, m: Mutex)
    requires Edge(calls, h, m) && forall call | call in calls :: !call.SetUp? && !call.PublishingTask?
    ensures Rank(h) < Rank(m)
  {
  }
}
