/** Exactly which mixes of calls can deadlock, for any number of threads making them in any order. */
module Deadlocks {
  import opened LockOrder

  // ----- what every reachable state keeps -----

  ghost predicate Invariant(calls: set<Call>, s: State) {
    && (forall t | 0 <= t < |s| :: InOrder(calls, s[t].held, s[t].program) && HeldAfter(s[t].held, s[t].program) == {})
    && (forall t, u, m | 0 <= t < u < |s| && m in s[t].held :: m !in s[u].held)
  }

  lemma StepInvariant(calls: set<Call>, s: State, t: nat)
    requires Invariant(calls, s) && t < |s| && CanStep(s, t)
    ensures Invariant(calls, Next(s, t))
  {
  }

  lemma {:induction false} RunInvariant(calls: set<Call>, s: State, schedule: seq<nat>)
    requires Invariant(calls, s) && CanRun(s, schedule)
    ensures Invariant(calls, Run(s, schedule))
    decreases |schedule|
  {
    if schedule != [] {
      StepInvariant(calls, s, schedule[0]);
      RunInvariant(calls, Next(s, schedule[0]), schedule[1..]);
    }
  }

  /** The threads make calls of the mix only. */
  ghost predicate Drawn(calls: set<Call>, threads: seq<seq<Call>>) {
    forall t | 0 <= t < |threads| :: forall call | call in threads[t] :: call in calls
  }

  lemma {:induction false} StartInvariant(calls: set<Call>, threads: seq<seq<Call>>)
    requires Drawn(calls, threads)
    ensures Invariant(calls, Start(threads))
  {
    forall t | 0 <= t < |threads| ensures Neat(calls, {}, Program(threads[t])) {
      ProgramsNeat(calls, threads[t]);
    }
  }

  // ----- waiting -----

  /** Thread `t` waits for a mutex that thread `u` holds. */
  predicate WaitsFor(s: State, t: nat, u: nat)
    requires t < |s| && u < |s|
  {
    s[t].program != [] && s[t].program[0].Acquire? && s[t].program[0].m in s[u].held
  }

  function Following<T>(ts: seq<T>, i: nat): T
    requires i < |ts|
  {
    if i + 1 < |ts| then ts[i + 1] else ts[0]
  }

  ghost predicate WaitingCycle(s: State, ts: seq<nat>) {
    && ts != [] && (forall i | 0 <= i < |ts| :: ts[i] < |s|)
    && forall i {:trigger Following(ts, i)} | 0 <= i < |ts| :: WaitsFor(s, ts[i], Following(ts, i))
  }

  /** Some threads making calls of the mix come to wait for each other in a cycle. */
  ghost predicate CanDeadlock(calls: set<Call>) {
    exists threads, schedule, ts ::
      Drawn(calls, threads) && CanRun(Start(threads), schedule) && WaitingCycle(Run(Start(threads), schedule), ts)
  }

  // ----- the mixes -----

  ghost predicate Spins(calls: set<Call>, n: nat) {
    exists call | call in calls :: call.SpinRound? && call.node == n
  }

  ghost predicate SetsUp(calls: set<Call>, n: nat) {
    exists call | call in calls :: call.SetUp? && call.node == n
  }

  ghost predicate Serves(calls: set<Call>, n: nat, x: nat) {
    exists call | call in calls :: call.SpinRound? && call.node == n && x in call.served
  }

  ghost predicate PublishesIn(calls: set<Call>, x: nat, n: nat) {
    exists call | call in calls :: call.PublishingTask? && call.subscriber == x && call.node == n
  }

  // Node `n` serves subscriber `x`.
  datatype Leg = Leg(n: nat, x: nat)

  /** Every node serves a subscriber whose callback publishes through the next node. */
  ghost predicate CallbackCycle(calls: set<Call>, legs: seq<Leg>) {
    && legs != []
    && (forall i | 0 <= i < |legs| :: Serves(calls, legs[i].n, legs[i].x))
    && forall i {:trigger Following(legs, i)} | 0 <= i < |legs| :: PublishesIn(calls, legs[i].x, Following(legs, i).n)
  }

  /** A node is set up while it spins, or callbacks publish around a cycle of nodes, which may be a single one. */
  ghost predicate Mixed(calls: set<Call>) {
    (exists n :: SetsUp(calls, n) && Spins(calls, n)) || (exists legs :: CallbackCycle(calls, legs))
  }

  // ----- a waiting cycle shows a mix -----

  /** Each mutex is taken within the one before. */
  ghost predicate Walk(calls: set<Call>, ws: seq<Mutex>) {
    forall i | 0 <= i < |ws| - 1 :: Edge(calls, ws[i], ws[i + 1])
  }

  function Wanted(s: State, t: nat): Mutex
    requires t < |s| && s[t].program != []
  {
    s[t].program[0].m
  }

  lemma WaitingEdge(calls: set<Call>, s: State, t: nat, u: nat)
    requires Invariant(calls, s) && t < |s| && u < |s| && WaitsFor(s, t, u)
    requires s[u].program != [] && s[u].program[0].Acquire?
    ensures Edge(calls, Wanted(s, t), Wanted(s, u))
  {
    assert InOrder(calls, s[u].held, s[u].program);
  }

  /** The mutexes wanted by the threads of a cycle, in its order. */
  lemma {:induction false} WantedWalk(calls: set<Call>, s: State, ts: seq<nat>) returns (ws: seq<Mutex>)
    requires Invariant(calls, s) && WaitingCycle(s, ts)
    ensures ws != [] && forall i {:trigger Following(ws, i)} | 0 <= i < |ws| :: Edge(calls, ws[i], Following(ws, i))
  {
    forall i | 0 <= i < |ts| ensures s[ts[i]].program != [] {
      assert WaitsFor(s, ts[i], Following(ts, i));
    }
    ws := seq(|ts|, i requires 0 <= i < |ts| => Wanted(s, ts[i]));
    forall i | 0 <= i < |ws| ensures Edge(calls, ws[i], Following(ws, i)) {
      var j := if i + 1 < |ts| then i + 1 else 0;
      assert WaitsFor(s, ts[i], Following(ts, i)) && WaitsFor(s, ts[j], Following(ts, j));
      WaitingEdge(calls, s, ts[i], ts[j]);
    }
  }

  /** What an edge that does not end in a leaf can be. */
  lemma EdgeShape(calls: set<Call>, h: Mutex, m: Mutex)
    requires Edge(calls, h, m) && !Leaf(m)
    ensures match h
      case Registry(n) => (m == NodeMutex(n) && Spins(calls, n)) || (m.Subscriber? && Serves(calls, n, m.id))
      case NodeMutex(n) => (m == Registry(n) && SetsUp(calls, n)) || (m.Subscriber? && Serves(calls, n, m.id))
      case Subscriber(x) => m.Registry? && PublishesIn(calls, x, m.node)
      case _ => false
  {
    var call :| call in calls && CallEdge(call, h, m);
  }

  /** From one registry to another, or the same, a walk passes subscribers whose callbacks lead from node to node. */
  lemma {:induction false} Legs(calls: set<Call>, ws: seq<Mutex>) returns (legs: seq<Leg>)
    requires |ws| > 1 && Walk(calls, ws) && (forall i | 0 <= i < |ws| :: !Leaf(ws[i]))
    requires forall n :: !(SetsUp(calls, n) && Spins(calls, n))
    requires ws[0].Registry? || (ws[0].NodeMutex? && Spins(calls, ws[0].node))
    requires ws[|ws| - 1].Registry?
    ensures legs != [] && legs[0].n == ws[0].node
    ensures forall i | 0 <= i < |legs| :: Serves(calls, legs[i].n, legs[i].x)
    ensures forall i | 0 <= i < |legs| - 1 :: PublishesIn(calls, legs[i].x, legs[i + 1].n)
    ensures PublishesIn(calls, legs[|legs| - 1].x, ws[|ws| - 1].node)
    decreases |ws|
  {
    EdgeShape(calls, ws[0], ws[1]);
    if ws[1].NodeMutex? {
      legs := Legs(calls, ws[1..]);
    } else {
      assert Edge(calls, ws[1], ws[2]);
      EdgeShape(calls, ws[1], ws[2]);
      legs := [Leg(ws[0].node, ws[1].id)];
      if |ws| > 3 {
        var rest := Legs(calls, ws[2..]);
        legs := legs + rest;
      }
    }
  }

  /** A closed walk goes through a registry; opened there, it begins and ends with it. */
  lemma {:induction false} Opened(calls: set<Call>, ws: seq<Mutex>) returns (open: seq<Mutex>)
    requires ws != [] && forall i {:trigger Following(ws, i)} | 0 <= i < |ws| :: Edge(calls, ws[i], Following(ws, i))
    ensures |open| > 1 && Walk(calls, open) && (forall i | 0 <= i < |open| :: !Leaf(open[i]))
    ensures open[0].Registry? && open[|open| - 1] == open[0]
  {
    forall i | 0 <= i < |ws| ensures !Leaf(ws[i]) {
      assert Edge(calls, ws[i], Following(ws, i));
    }
    var k := SomeRegistry(calls, ws);
    open := ws[k..] + ws[..k] + [ws[k]];
    forall i | 0 <= i < |open| - 1 ensures Edge(calls, open[i], open[i + 1]) {
      var j := if k + i < |ws| then k + i else k + i - |ws|;
      assert open[i] == ws[j] && open[i + 1] == Following(ws, j);
    }
  }

  lemma {:induction false} SomeRegistry(calls: set<Call>, ws: seq<Mutex>) returns (k: nat)
    requires ws != [] && (forall i | 0 <= i < |ws| :: !Leaf(ws[i]))
    requires forall i {:trigger Following(ws, i)} | 0 <= i < |ws| :: Edge(calls, ws[i], Following(ws, i))
    ensures k < |ws| && ws[k].Registry?
  {
    var next := if |ws| > 1 then 1 else 0;
    assert Following(ws, 0) == ws[next];
    EdgeShape(calls, ws[0], ws[next]);
    if ws[0].Registry? {
      k := 0;
    } else if ws[next].Registry? {
      k := next;
    } else {
      var last := if |ws| > 2 then 2 else 0;
      assert Following(ws, next) == ws[last];
      EdgeShape(calls, ws[next], ws[last]);
      k := last;
    }
  }

  lemma {:induction false} CycleShowsMix(calls: set<Call>, s: State, ts: seq<nat>)
    requires Invariant(calls, s) && WaitingCycle(s, ts)
    ensures Mixed(calls)
  {
    if forall n :: !(SetsUp(calls, n) && Spins(calls, n)) {
      var ws := WantedWalk(calls, s, ts);
      var open := Opened(calls, ws);
      var legs := Legs(calls, open);
      assert CallbackCycle(calls, legs);
    }
  }

  // ----- a mix can come to a waiting cycle -----

  /** All nodes of the legs are different, and all subscribers. */
  predicate Simple(legs: seq<Leg>) {
    forall i, j | 0 <= i < j < |legs| :: legs[i].n != legs[j].n && legs[i].x != legs[j].x
  }

  /** A cycle that comes back to a node is cut there. */
  lemma CutNode(calls: set<Call>, legs: seq<Leg>, i: nat, j: nat)
    requires CallbackCycle(calls, legs) && i < j < |legs| && legs[i].n == legs[j].n
    ensures CallbackCycle(calls, legs[i..j])
  {
    var cut := legs[i..j];
    forall k | 0 <= k < |cut| ensures PublishesIn(calls, cut[k].x, Following(cut, k).n) {
      assert PublishesIn(calls, legs[i + k].x, Following(legs, i + k).n);
    }
  }

  /** A cycle that comes back to a subscriber leaves out what lies between. */
  lemma CutSubscriber(calls: set<Call>, legs: seq<Leg>, i: nat, j: nat)
    requires CallbackCycle(calls, legs) && i < j < |legs| && legs[i].x == legs[j].x
    ensures CallbackCycle(calls, legs[..i + 1] + legs[j + 1..])
  {
    var cut := legs[..i + 1] + legs[j + 1..];
    forall k | 0 <= k < |cut| ensures PublishesIn(calls, cut[k].x, Following(cut, k).n) {
      var at := if k < i then k else j + (k - i);
      assert PublishesIn(calls, legs[at].x, Following(legs, at).n);
    }
  }

  lemma {:induction false} Simplified(calls: set<Call>, legs: seq<Leg>) returns (r: seq<Leg>)
    requires CallbackCycle(calls, legs)
    ensures CallbackCycle(calls, r) && Simple(r)
    decreases |legs|
  {
    r := legs;
    if !Simple(legs) {
      var i, j :| 0 <= i < j < |legs| && (legs[i].n == legs[j].n || legs[i].x == legs[j].x);
      if legs[i].n == legs[j].n {
        CutNode(calls, legs, i, j);
        r := Simplified(calls, legs[i..j]);
      } else {
        CutSubscriber(calls, legs, i, j);
        r := Simplified(calls, legs[..i + 1] + legs[j + 1..]);
      }
    }
  }

  // A thread that makes one call and is stopped within it, holding some mutexes, where it wants another.
  datatype Post = Post(call: Call, done: seq<Action>, rest: seq<Action>, held: set<Mutex>, wanted: Mutex)

  ghost predicate Stops(calls: set<Call>, post: Post) {
    && post.call in calls && Actions(post.call) == post.done + post.rest
    && InOrder(calls, {}, post.done) && HeldAfter({}, post.done) == post.held
    && post.rest != [] && post.rest[0] == Acquire(post.wanted)
  }

  function Turns(t: nat, n: nat): seq<nat> {
    if n == 0 then [] else [t] + Turns(t, n - 1)
  }

  lemma {:induction false} RunAppend(s: State, a: seq<nat>, b: seq<nat>)
    requires CanRun(s, a) && CanRun(Run(s, a), b)
    ensures CanRun(s, a + b) && Run(s, a + b) == Run(Run(s, a), b)
    decreases |a|
  {
    if a == [] {
      assert a + b == b;
    } else {
      assert (a + b)[1..] == a[1..] + b;
      RunAppend(Next(s, a[0]), a[1..], b);
    }
  }

  /** A thread that meets no mutex of the others does the next actions of its program. */
  lemma {:induction false} Advance(calls: set<Call>, s: State, t: nat, a: seq<Action>, rest: seq<Action>)
    requires t < |s| && s[t].program == a + rest && InOrder(calls, s[t].held, a)
    requires forall u, i | 0 <= u < |s| && u != t && 0 <= i < |a| :: a[i].m !in s[u].held
    ensures CanRun(s, Turns(t, |a|))
    ensures Run(s, Turns(t, |a|)) == s[t := Thread(HeldAfter(s[t].held, a), rest)]
    decreases |a|
  {
    if a == [] {
      assert a + rest == rest;
    } else {
      assert (a + rest)[1..] == a[1..] + rest;
      NoLoop(calls, a[0].m);
      assert a[0].m !in s[t].held || !a[0].Acquire?;
      Advance(calls, Next(s, t), t, a[1..], rest);
      assert Turns(t, |a|)[1..] == Turns(t, |a| - 1);
    }
  }

  /** The second thread comes to its post without a mutex that the first holds at its own. */
  predicate Apart(p: Post, q: Post) {
    forall a | a in q.done :: a.m !in p.held
  }

  ghost predicate Posts(calls: set<Call>, posts: seq<Post>) {
    && (forall t {:trigger Stops(calls, posts[t])} | 0 <= t < |posts| :: Stops(calls, posts[t]))
    && (forall t, u {:trigger Apart(posts[t], posts[u])} | 0 <= t < u < |posts| :: Apart(posts[t], posts[u]))
  }

  /** The first `j` threads at their posts, the others at the beginning. */
  predicate Reached(s: State, posts: seq<Post>, j: nat) {
    && |s| == |posts| && j <= |posts|
    && (forall t | 0 <= t < j :: s[t] == Thread(posts[t].held, posts[t].rest))
    && (forall t | j <= t < |s| :: s[t] == Thread({}, posts[t].done + posts[t].rest))
  }

  lemma {:induction false} AdvanceAll(calls: set<Call>, s: State, posts: seq<Post>, j: nat) returns (schedule: seq<nat>)
    requires Reached(s, posts, 0) && Posts(calls, posts) && j <= |posts|
    ensures CanRun(s, schedule) && Reached(Run(s, schedule), posts, j)
  {
    schedule := [];
    if j > 0 {
      var before := AdvanceAll(calls, s, posts, j - 1);
      var turns := Turns(j - 1, |posts[j - 1].done|);
      AdvanceNext(calls, Run(s, before), posts, j - 1);
      assert CanRun(s, before + turns) && Run(s, before + turns) == Run(Run(s, before), turns) by {
        RunAppend(s, before, turns);
      }
      schedule := before + turns;
    }
  }

  lemma {:induction false} AdvanceNext(calls: set<Call>, s: State, posts: seq<Post>, j: nat)
    requires j < |posts| && Reached(s, posts, j) && Posts(calls, posts)
    ensures var turns := Turns(j, |posts[j].done|); CanRun(s, turns) && Reached(Run(s, turns), posts, j + 1)
  {
    assert Stops(calls, posts[j]);
    forall u, i | 0 <= u < |s| && u != j && 0 <= i < |posts[j].done| ensures posts[j].done[i].m !in s[u].held {
      assert u < j ==> Apart(posts[u], posts[j]);
    }
    Advance(calls, s, j, posts[j].done, posts[j].rest);
  }

  /** The subscription loop up to where `x` comes first, and from there. */
  lemma {:induction false} ServeSplit(node: nat, served: seq<nat>, x: nat) returns (done: seq<Action>, rest: seq<Action>)
    requires x in served
    ensures Serve(node, served) == done + rest && rest != [] && rest[0] == Acquire(Subscriber(x))
    ensures forall a | a in done :: a.m.Subscriber? || a.m == Pool(node)
    ensures HeldAfter({Registry(node), NodeMutex(node)}, done) == {Registry(node), NodeMutex(node)}
  {
    if served[0] == x {
      done, rest := [], Serve(node, served);
      assert done + rest == rest;
    } else {
      var d, r := ServeSplit(node, served[1..], x);
      var held := {Registry(node), NodeMutex(node)};
      done, rest := Section(Subscriber(served[0])) + (Section(Pool(node)) + d), r;
      assert done + rest == Section(Subscriber(served[0])) + Section(Pool(node)) + (d + r);
      PassSection(held, Subscriber(served[0]), Section(Pool(node)) + d);
      PassSection(held, Pool(node), d);
    }
  }

  lemma {:induction false} PassSection(held: set<Mutex>, m: Mutex, p: seq<Action>)
    requires m !in held
    ensures HeldAfter(held, Section(m) + p) == HeldAfter(held, p)
  {
    var q := Section(m) + p;
    assert q[1..][1..] == p;
    assert held + {m} - {m} == held;
  }

  /** The beginning of a call is in order, as all of it is. */
  lemma StopsIn(calls: set<Call>, post: Post)
    requires post.call in calls && Actions(post.call) == post.done + post.rest && HeldAfter({}, post.done) == post.held
    requires post.rest != [] && post.rest[0] == Acquire(post.wanted)
    ensures Stops(calls, post)
  {
    NeatCall(calls, post.call);
    ConcatParts(calls, {}, post.done, post.rest);
  }

  /** After one section, a thread takes one mutex. */
  lemma SectionThenTake(passed: Mutex, m: Mutex)
    ensures HeldAfter({}, Section(passed) + [Acquire(m)]) == {m}
  {
    PassSection({}, passed, [Acquire(m)]);
    assert [Acquire(m)][1..] == [];
  }

  lemma FlattenRound(node: nat, first: seq<Action>, served: seq<Action>, clears: seq<Action>, sync: seq<Action>,
                     check: seq<Action>)
    ensures Section(Event) + Within(Registry(node), Within(NodeMutex(node), first + served) + clears) + sync + check
            == (Section(Event) + [Acquire(Registry(node))] + [Acquire(NodeMutex(node))] + first)
               + (served + ([Release(NodeMutex(node))] + clears + [Release(Registry(node))] + sync + check))
  {
  }

  lemma FlattenEarly(node: nat, served: seq<Action>, clears: seq<Action>, sync: seq<Action>, check: seq<Action>)
    ensures Section(Event) + Within(Registry(node), Within(NodeMutex(node), served) + clears) + sync + check
            == (Section(Event) + [Acquire(Registry(node))])
               + ([Acquire(NodeMutex(node))] + served
                  + ([Release(NodeMutex(node))] + clears + [Release(Registry(node))] + sync + check))
  {
  }

  lemma FlattenTask(pool: Mutex, subscriber: Mutex, body: seq<Action>)
    ensures Section(pool) + Within(subscriber, body) == (Section(pool) + [Acquire(subscriber)]) + (body + [Release(subscriber)])
  {
  }

  /** The part of a spin round behind the subscription loop. */
  function RoundEnd(call: Call): seq<Action>
    requires call.SpinRound?
  {
    [Release(NodeMutex(call.node))] + Repeat(|call.served|, Section(Event)) + [Release(Registry(call.node))]
    + (if call.sync then Update(call.node, Shm(REGISTRY_SHM), Shm(REGISTRY_SHM)) + Section(Event) else [])
    + Check(call.node, call.timers)
  }

  /** A spin round up to its subscription loop. */
  function ToLoop(node: nat): seq<Action> {
    Section(Event) + [Acquire(Registry(node))] + [Acquire(NodeMutex(node))]
  }

  lemma RoundHead(node: nat)
    ensures HeldAfter({}, Section(Event) + [Acquire(Registry(node))]) == {Registry(node)}
    ensures HeldAfter({}, ToLoop(node)) == {Registry(node), NodeMutex(node)}
  {
    SectionThenTake(Event, Registry(node));
    ConcatParts({}, {}, Section(Event) + [Acquire(Registry(node))], [Acquire(NodeMutex(node))]);
    assert [Acquire(NodeMutex(node))][1..] == [];
  }

  /** A spin round that has come to one of its subscribers holds both mutexes of its node. */
  ghost predicate Spinning(calls: set<Call>, leg: Leg, post: Post) {
    && Stops(calls, post) && post.held == {Registry(leg.n), NodeMutex(leg.n)} && post.wanted == Subscriber(leg.x)
    && forall a | a in post.done ::
         a.m == Event || a.m == Registry(leg.n) || a.m == NodeMutex(leg.n) || a.m.Subscriber? || a.m.Pool?
  }

  lemma SpinPost(calls: set<Call>, leg: Leg) returns (post: Post)
    requires Serves(calls, leg.n, leg.x)
    ensures Spinning(calls, leg, post)
  {
    var call :| call in calls && call.SpinRound? && call.node == leg.n && leg.x in call.served;
    var done, rest := ServeSplit(leg.n, call.served, leg.x);
    post := Post(call, ToLoop(leg.n) + done, rest + RoundEnd(call), {Registry(leg.n), NodeMutex(leg.n)}, Subscriber(leg.x));
    RoundParts(call, done, rest);
    assert HeldAfter({}, post.done) == post.held by {
      RoundHead(leg.n);
      ConcatParts(calls, {}, ToLoop(leg.n), done);
    }
    StopsIn(calls, post);
    assert forall a | a in ToLoop(leg.n) :: a.m == Event || a.m == Registry(leg.n) || a.m == NodeMutex(leg.n);
  }

  lemma RoundParts(call: Call, done: seq<Action>, rest: seq<Action>)
    requires call.SpinRound? && Serve(call.node, call.served) == done + rest
    ensures Actions(call) == (ToLoop(call.node) + done) + (rest + RoundEnd(call))
  {
    var sync := if call.sync then Update(call.node, Shm(REGISTRY_SHM), Shm(REGISTRY_SHM)) + Section(Event) else [];
    FlattenRound(call.node, done, rest, Repeat(|call.served|, Section(Event)), sync, Check(call.node, call.timers));
  }

  /** A spin round that comes to its node's mutex holds the registry's. */
  lemma EarlySpinPost(calls: set<Call>, n: nat) returns (post: Post)
    requires Spins(calls, n)
    ensures Stops(calls, post) && post.held == {Registry(n)} && post.wanted == NodeMutex(n)
    ensures forall a | a in post.done :: a.m == Event || a.m == Registry(n)
  {
    var call :| call in calls && call.SpinRound? && call.node == n;
    var sync := if call.sync then Update(n, Shm(REGISTRY_SHM), Shm(REGISTRY_SHM)) + Section(Event) else [];
    post := Post(call, Section(Event) + [Acquire(Registry(n))], [Acquire(NodeMutex(n))] + Serve(n, call.served) + RoundEnd(call),
                 {Registry(n)}, NodeMutex(n));
    FlattenEarly(n, Serve(n, call.served), Repeat(|call.served|, Section(Event)), sync, Check(n, call.timers));
    RoundHead(n);
    StopsIn(calls, post);
  }

  /** A publishing callback that has come to the registry's mutex holds its subscriber's. */
  ghost predicate Publishes(calls: set<Call>, x: nat, n: nat, post: Post) {
    && Stops(calls, post) && post.held == {Subscriber(x)} && post.wanted == Registry(n)
    && forall a | a in post.done :: a.m.Pool? || a.m == Subscriber(x)
  }

  lemma TaskPost(calls: set<Call>, x: nat, n: nat) returns (post: Post)
    requires PublishesIn(calls, x, n)
    ensures Publishes(calls, x, n, post)
  {
    var call :| call in calls && call.PublishingTask? && call.subscriber == x && call.node == n;
    var body := Publishing(n, call.segment, call.isNew);
    post := Post(call, Section(Pool(call.pool)) + [Acquire(Subscriber(x))], body + [Release(Subscriber(x))],
                 {Subscriber(x)}, Registry(n));
    FlattenTask(Pool(call.pool), Subscriber(x), body);
    SectionThenTake(Pool(call.pool), Subscriber(x));
    StopsIn(calls, post);
  }

  /** A set-up that comes to the registry's mutex holds its node's. */
  lemma SetUpPost(calls: set<Call>, n: nat) returns (post: Post)
    requires SetsUp(calls, n)
    ensures Stops(calls, post) && post.held == {NodeMutex(n)} && post.wanted == Registry(n)
    ensures forall a | a in post.done :: a.m.Subscriber? || a.m == NodeMutex(n)
  {
    var call :| call in calls && call.SetUp? && call.node == n;
    var write := Within(Registry(n), Section(Shm(REGISTRY_SHM)));
    post := Post(call, Section(Subscriber(call.subscriber)) + [Acquire(NodeMutex(n))], write + write + [Release(NodeMutex(n))],
                 {NodeMutex(n)}, Registry(n));
    FlattenTask(Subscriber(call.subscriber), NodeMutex(n), write + write);
    SectionThenTake(Subscriber(call.subscriber), NodeMutex(n));
    StopsIn(calls, post);
  }

  // ----- putting the threads together -----

  predicate Blocked(posts: seq<Post>, t: nat, u: nat) {
    t < |posts| && u < |posts| && posts[t].wanted in posts[u].held
  }

  function Alone(posts: seq<Post>): seq<seq<Call>> {
    seq(|posts|, t requires 0 <= t < |posts| => [posts[t].call])
  }

  lemma {:induction false} OneCall(call: Call)
    ensures Program([call]) == Actions(call)
  {
    assert [call][1..] == [];
    assert Actions(call) + [] == Actions(call);
  }

  /** Threads that each want what another one holds, around a cycle, come to wait for each other. */
  lemma {:induction false} PostsDeadlock(calls: set<Call>, posts: seq<Post>, ts: seq<nat>)
    requires Posts(calls, posts) && ts != []
    requires forall i {:trigger Following(ts, i)} | 0 <= i < |ts| :: Blocked(posts, ts[i], Following(ts, i))
    ensures CanDeadlock(calls)
  {
    var s := Start(Alone(posts));
    forall t | 0 <= t < |posts| ensures s[t] == Thread({}, posts[t].done + posts[t].rest) {
      assert Stops(calls, posts[t]);
      OneCall(posts[t].call);
    }
    var schedule := AdvanceAll(calls, s, posts, |posts|);
    var r := Run(s, schedule);
    forall i | 0 <= i < |ts| ensures ts[i] < |r| && WaitsFor(r, ts[i], Following(ts, i)) {
      assert Blocked(posts, ts[i], Following(ts, i)) && Stops(calls, posts[ts[i]]);
    }
    AllDrawn(calls, posts);
    assert WaitingCycle(r, ts);
  }

  lemma AllDrawn(calls: set<Call>, posts: seq<Post>)
    requires Posts(calls, posts)
    ensures Drawn(calls, Alone(posts))
  {
    forall t | 0 <= t < |posts| ensures posts[t].call in calls {
      assert Stops(calls, posts[t]);
    }
  }

  /** A set-up and a spin round of the same node. */
  lemma SetUpDeadlocks(calls: set<Call>, n: nat)
    requires SetsUp(calls, n) && Spins(calls, n)
    ensures CanDeadlock(calls)
  {
    var p := EarlySpinPost(calls, n);
    var q := SetUpPost(calls, n);
    TwoDeadlock(calls, p, q);
  }

  lemma TwoDeadlock(calls: set<Call>, p: Post, q: Post)
    requires Stops(calls, p) && Stops(calls, q) && Apart(p, q) && p.wanted in q.held && q.wanted in p.held
    ensures CanDeadlock(calls)
  {
    var ts: seq<nat> := [0, 1];
    assert Following(ts, 0) == 1 && Following(ts, 1) == 0;
    PostsDeadlock(calls, [p, q], ts);
  }

  lemma {:induction false} SpinPosts(calls: set<Call>, legs: seq<Leg>, k: nat) returns (posts: seq<Post>)
    requires CallbackCycle(calls, legs) && k <= |legs|
    ensures |posts| == k && forall i {:trigger posts[i]} | 0 <= i < k :: Spinning(calls, legs[i], posts[i])
  {
    posts := [];
    if k > 0 {
      posts := SpinPosts(calls, legs, k - 1);
      var post := SpinPost(calls, legs[k - 1]);
      posts := posts + [post];
    }
  }

  lemma {:induction false} TaskPosts(calls: set<Call>, legs: seq<Leg>, k: nat) returns (posts: seq<Post>)
    requires CallbackCycle(calls, legs) && k <= |legs|
    ensures |posts| == k && forall i {:trigger posts[i]} | 0 <= i < k :: Publishes(calls, legs[i].x, Following(legs, i).n, posts[i])
  {
    posts := [];
    if k > 0 {
      posts := TaskPosts(calls, legs, k - 1);
      var post := TaskPost(calls, legs[k - 1].x, Following(legs, k - 1).n);
      posts := posts + [post];
    }
  }

  /** The rounds of all legs. */
  ghost predicate AllSpinning(calls: set<Call>, legs: seq<Leg>, spins: seq<Post>) {
    |spins| == |legs| && forall i {:trigger spins[i]} | 0 <= i < |legs| :: Spinning(calls, legs[i], spins[i])
  }

  /** The callbacks of all legs. */
  ghost predicate AllPublishing(calls: set<Call>, legs: seq<Leg>, tasks: seq<Post>) {
    && |tasks| == |legs|
    && forall i {:trigger tasks[i]} | 0 <= i < |legs| :: Publishes(calls, legs[i].x, Following(legs, i).n, tasks[i])
  }

  /** Different nodes, so no round needs what another holds. */
  lemma SpinsStop(calls: set<Call>, legs: seq<Leg>, spins: seq<Post>)
    requires Simple(legs) && AllSpinning(calls, legs, spins)
    ensures Posts(calls, spins)
  {
    forall t, u | 0 <= t < u < |spins| ensures Apart(spins[t], spins[u]) {
      assert Spinning(calls, legs[t], spins[t]) && Spinning(calls, legs[u], spins[u]);
    }
  }

  /** Different subscribers, so no callback does. */
  lemma TasksStop(calls: set<Call>, legs: seq<Leg>, tasks: seq<Post>)
    requires Simple(legs) && AllPublishing(calls, legs, tasks)
    ensures Posts(calls, tasks)
  {
    forall t, u | 0 <= t < u < |tasks| ensures Apart(tasks[t], tasks[u]) {
      assert Publishes(calls, legs[t].x, Following(legs, t).n, tasks[t]);
      assert Publishes(calls, legs[u].x, Following(legs, u).n, tasks[u]);
    }
  }

  lemma SpinTaskApart(calls: set<Call>, leg: Leg, x: nat, n: nat, spin: Post, task: Post)
    requires Spinning(calls, leg, spin) && Publishes(calls, x, n, task)
    ensures Apart(spin, task)
  {
  }

  /** The rounds first, and the callbacks after them. */
  lemma {:induction false} CyclePosts(calls: set<Call>, legs: seq<Leg>, spins: seq<Post>, tasks: seq<Post>)
    requires Simple(legs) && AllSpinning(calls, legs, spins) && AllPublishing(calls, legs, tasks)
    ensures Posts(calls, spins + tasks)
  {
    SpinsStop(calls, legs, spins);
    TasksStop(calls, legs, tasks);
    forall t, u | 0 <= t < |spins| && 0 <= u < |tasks| ensures Apart(spins[t], tasks[u]) {
      SpinTaskApart(calls, legs[t], legs[u].x, Following(legs, u).n, spins[t], tasks[u]);
    }
    JoinPosts(calls, spins, tasks);
  }

  lemma {:induction false} JoinPosts(calls: set<Call>, a: seq<Post>, b: seq<Post>)
    requires Posts(calls, a) && Posts(calls, b)
    requires forall t, u | 0 <= t < |a| && 0 <= u < |b| :: Apart(a[t], b[u])
    ensures Posts(calls, a + b)
  {
  }

  /** The threads of a callback cycle in the order in which they wait: each round, then the callback it serves. */
  function Around(k: nat, j: nat): (ts: seq<nat>)
    ensures |ts| == 2 * j
  {
    if j == 0 then [] else Around(k, j - 1) + [j - 1, k + (j - 1)]
  }

  lemma {:induction false} AroundAt(k: nat, j: nat, i: nat)
    requires i < j
    ensures Around(k, j)[2 * i] == i && Around(k, j)[2 * i + 1] == k + i
  {
    if i < j - 1 {
      AroundAt(k, j - 1, i);
    }
  }

  /** A round waits for the callback it serves, and that one for the next round. */
  lemma {:induction false} AroundNext(k: nat, i: nat)
    requires i < k
    ensures var ts := Around(k, k);
      && ts[2 * i] == i && Following(ts, 2 * i) == k + i
      && ts[2 * i + 1] == k + i && Following(ts, 2 * i + 1) == if i + 1 < k then i + 1 else 0
  {
    AroundAt(k, k, i);
    AroundAt(k, k, if i + 1 < k then i + 1 else 0);
  }

  /** Each round waits for the callback of its leg, and each callback for the next round. */
  predicate InTurn(spins: seq<Post>, tasks: seq<Post>) {
    && |spins| == |tasks|
    && forall j {:trigger tasks[j]} | 0 <= j < |spins| ::
         spins[j].wanted in tasks[j].held && tasks[j].wanted in Following(spins, j).held
  }

  lemma LegWaits(calls: set<Call>, leg: Leg, next: Leg, spin: Post, task: Post, after: Post)
    requires Spinning(calls, leg, spin) && Publishes(calls, leg.x, next.n, task) && Spinning(calls, next, after)
    ensures spin.wanted in task.held && task.wanted in after.held
  {
  }

  lemma LegsWait(calls: set<Call>, legs: seq<Leg>, spins: seq<Post>, tasks: seq<Post>)
    requires AllSpinning(calls, legs, spins) && AllPublishing(calls, legs, tasks)
    ensures InTurn(spins, tasks)
  {
    forall j | 0 <= j < |spins| ensures spins[j].wanted in tasks[j].held && tasks[j].wanted in Following(spins, j).held {
      LegWaits(calls, legs[j], Following(legs, j), spins[j], tasks[j], Following(spins, j));
    }
  }

  lemma {:induction false} CycleWaits(spins: seq<Post>, tasks: seq<Post>, ts: seq<nat>, i: nat)
    requires InTurn(spins, tasks) && ts == Around(|spins|, |spins|) && i < |ts|
    ensures Blocked(spins + tasks, ts[i], Following(ts, i))
  {
    var j := i / 2;
    AroundNext(|spins|, j);
    assert spins[j].wanted in tasks[j].held && tasks[j].wanted in Following(spins, j).held;
    assert i == 2 * j || i == 2 * j + 1;
  }

  /** The rounds of all nodes of a cycle of callbacks, and the callbacks. */
  lemma {:induction false} CallbacksDeadlock(calls: set<Call>, legs: seq<Leg>)
    requires CallbackCycle(calls, legs) && Simple(legs)
    ensures CanDeadlock(calls)
  {
    var spins := SpinPosts(calls, legs, |legs|);
    var tasks := TaskPosts(calls, legs, |legs|);
    var ts := Around(|legs|, |legs|);
    CyclePosts(calls, legs, spins, tasks);
    LegsWait(calls, legs, spins, tasks);
    forall i | 0 <= i < |ts| ensures Blocked(spins + tasks, ts[i], Following(ts, i)) {
      CycleWaits(spins, tasks, ts, i);
    }
    PostsDeadlock(calls, spins + tasks, ts);
  }

  /**
   * Any number of threads making calls of a mix in any order can come to wait for each other in a cycle exactly when a
   * node is set up while it spins, or publishing callbacks lead around a cycle of nodes that serve them.
   */
  lemma {:induction false} DeadlocksIff(calls: set<Call>)
    ensures CanDeadlock(calls) <==> Mixed(calls)
  {
    if CanDeadlock(calls) {
      var threads, schedule, ts :|
        Drawn(calls, threads) && CanRun(Start(threads), schedule) && WaitingCycle(Run(Start(threads), schedule), ts);
      StartInvariant(calls, threads);
      RunInvariant(calls, Start(threads), schedule);
      CycleShowsMix(calls, Run(Start(threads), schedule), ts);
    }
    if n :| SetsUp(calls, n) && Spins(calls, n) {
      SetUpDeadlocks(calls, n);
    } else if legs :| CallbackCycle(calls, legs) {
      var simple := Simplified(calls, legs);
      CallbacksDeadlock(calls, simple);
    }
  }

  // ----- going on -----

  /** As many different thread numbers as there can be. */
  lemma {:induction false} Pigeons(walk: seq<nat>, n: nat)
    requires (forall i | 0 <= i < |walk| :: walk[i] < n) && (forall i, j | 0 <= i < j < |walk| :: walk[i] != walk[j])
    ensures |walk| <= n
    decreases n
  {
    if walk != [] {
      var rest := walk[1..];
      var lowered := seq(|rest|, i requires 0 <= i < |rest| => if rest[i] > walk[0] then rest[i] - 1 else rest[i]);
      Pigeons(lowered, n - 1);
    }
  }

  /** Follow the holders: without a cycle the walk meets no thread twice, so it ends at one that can go on. */
  lemma {:induction false} WalkOn(calls: set<Call>, s: State, walk: seq<nat>) returns (u: nat)
    requires Invariant(calls, s) && (forall ts :: !WaitingCycle(s, ts))
    requires walk != [] && (forall i | 0 <= i < |walk| :: walk[i] < |s|)
    requires forall i, j | 0 <= i < j < |walk| :: walk[i] != walk[j]
    requires forall i | 0 <= i < |walk| - 1 :: WaitsFor(s, walk[i], walk[i + 1])
    requires s[walk[|walk| - 1]].program != []
    ensures u < |s| && CanStep(s, u)
    decreases |s| - |walk|
  {
    Pigeons(walk, |s|);
    u := walk[|walk| - 1];
    if !CanStep(s, u) {
      var m := s[u].program[0].m;
      var holder :| 0 <= holder < |s| && m in s[holder].held;
      assert WaitsFor(s, u, holder);
      if i :| 0 <= i < |walk| && walk[i] == holder {
        ClosedWalk(s, walk, i);
      }
      assert HeldAfter(s[holder].held, s[holder].program) == {};
      Pigeons(walk + [holder], |s|);
      u := WalkOn(calls, s, walk + [holder]);
    }
  }

  lemma {:induction false} ClosedWalk(s: State, walk: seq<nat>, i: nat)
    requires i < |walk| && (forall k | 0 <= k < |walk| :: walk[k] < |s|)
    requires forall k | 0 <= k < |walk| - 1 :: WaitsFor(s, walk[k], walk[k + 1])
    requires WaitsFor(s, walk[|walk| - 1], walk[i])
    ensures WaitingCycle(s, walk[i..])
  {
    var ts := walk[i..];
    forall k | 0 <= k < |ts| ensures WaitsFor(s, ts[k], Following(ts, k)) {
      assert ts[k] == walk[i + k];
    }
  }

  /** In a mix that cannot deadlock, some thread can go on in every reachable state, as long as one has something left to do. */
  lemma {:induction false} SomeoneCanStep(calls: set<Call>, threads: seq<seq<Call>>, schedule: seq<nat>)
    requires !Mixed(calls) && Drawn(calls, threads) && CanRun(Start(threads), schedule)
    ensures var s := Run(Start(threads), schedule);
      && (forall ts :: !WaitingCycle(s, ts))
      && ((exists t | 0 <= t < |s| :: s[t].program != []) ==> exists u | 0 <= u < |s| :: CanStep(s, u))
  {
    StartInvariant(calls, threads);
    RunInvariant(calls, Start(threads), schedule);
    var s := Run(Start(threads), schedule);
    forall ts ensures !WaitingCycle(s, ts) {
      if WaitingCycle(s, ts) {
        CycleShowsMix(calls, s, ts);
      }
    }
    if t :| 0 <= t < |s| && s[t].program != [] {
      var u := WalkOn(calls, s, [t]);
    }
  }

  /** Where the node is set up before it spins and no callback publishes, nothing ever deadlocks. */
  lemma {:induction false} DeadlockFree(calls: set<Call>, threads: seq<seq<Call>>, schedule: seq<nat>)
    requires forall call | call in calls :: !call.SetUp? && !call.PublishingTask?
    requires Drawn(calls, threads) && CanRun(Start(threads), schedule)
    ensures var s := Run(Start(threads), schedule);
      && (forall ts :: !WaitingCycle(s, ts))
      && ((exists t | 0 <= t < |s| :: s[t].program != []) ==> exists u | 0 <= u < |s| :: CanStep(s, u))
  {
    assert forall n :: !SetsUp(calls, n);
    forall legs: seq<Leg> ensures !CallbackCycle(calls, legs) {
      assert legs != [] ==> !PublishesIn(calls, legs[0].x, Following(legs, 0).n);
    }
    SomeoneCanStep(calls, threads, schedule);
  }

  /** The threads of a cycle never move again, whatever the others do. */
  lemma {:induction false} CycleIsForEver(s: State, ts: seq<nat>, schedule: seq<nat>)
    requires WaitingCycle(s, ts) && CanRun(s, schedule)
    ensures WaitingCycle(Run(s, schedule), ts)
    ensures forall t | t in ts :: Run(s, schedule)[t] == s[t]
    decreases |schedule|
  {
    if schedule != [] {
      var next := Next(s, schedule[0]);
      forall i | 0 <= i < |ts| ensures next[ts[i]] == s[ts[i]] {
        assert WaitsFor(s, ts[i], Following(ts, i));
      }
      forall i | 0 <= i < |ts| ensures WaitsFor(next, ts[i], Following(ts, i)) {
        assert WaitsFor(s, ts[i], Following(ts, i));
        assert Following(ts, i) == ts[if i + 1 < |ts| then i + 1 else 0];
      }
      CycleIsForEver(next, ts, schedule[1..]);
    }
  }

  // ----- what the registry's mutex keeps apart -----

  /** A thread is within a call: this much of it is done, the rest and other calls are to come. */
  ghost predicate WithinCall(s: State, t: nat, call: Call, done: seq<Action>, rest: seq<Action>, later: seq<Action>) {
    t < |s| && Actions(call) == done + rest && s[t] == Thread(HeldAfter({}, done), rest + later)
  }

  /** The subscription loop of a spin round has begun, and its last bit is not cleared yet. */
  ghost predicate InRound(call: Call, done: seq<Action>, rest: seq<Action>) {
    call.SpinRound? && |done| > |Section(Event)| && |done| < |Section(Event)| + |Round(call.node, call.served)|
  }

  /** The trigger of a publish is next. */
  ghost predicate AtTrigger(call: Call, rest: seq<Action>) {
    call.Publish? && rest == [Acquire(Event), Release(Event), Release(Registry(call.node))]
  }

  lemma {:induction false} StillHeld(held: set<Mutex>, p: seq<Action>, m: Mutex)
    requires m in held && Release(m) !in p
    ensures m in HeldAfter(held, p)
    decreases |p|
  {
    if p != [] {
      StillHeld(if p[0].Acquire? then held + {p[0].m} else held - {p[0].m}, p[1..], m);
    }
  }

  lemma {:induction false} ServeKeeps(node: nat, served: seq<nat>, m: Mutex)
    requires !m.Subscriber? && !m.Pool?
    ensures Release(m) !in Serve(node, served)
  {
    if served != [] {
      ServeKeeps(node, served[1..], m);
    }
  }

  lemma {:induction false} RepeatKeeps(n: nat, body: seq<Action>, m: Mutex)
    requires Release(m) !in body
    ensures Release(m) !in Repeat(n, body)
  {
    if n > 0 {
      RepeatKeeps(n - 1, body, m);
    }
  }

  /** All through its subscription loop and its clears, a spin round holds the registry's mutex. */
  lemma {:induction false} RoundHolds(call: Call, done: seq<Action>, rest: seq<Action>)
    requires Actions(call) == done + rest && InRound(call, done, rest)
    ensures Registry(call.node) in HeldAfter({}, done)
  {
    var n, round := call.node, Round(call.node, call.served);
    var inside := Within(NodeMutex(n), Serve(n, call.served)) + Repeat(|call.served|, Section(Event));
    ServeKeeps(n, call.served, Registry(n));
    RepeatKeeps(|call.served|, Section(Event), Registry(n));
    assert Release(Registry(n)) !in inside;
    var head := Section(Event) + [Acquire(Registry(n))];
    var some := inside[..|done| - |head|];
    assert done == head + some by {
      assert round == [Acquire(Registry(n))] + inside + [Release(Registry(n))];
      assert Actions(call)[..|head| + |inside|] == head + inside;
      assert done == Actions(call)[..|done|];
    }
    RoundHead(n);
    ConcatParts({}, {}, head, some);
    StillHeld({Registry(n)}, some, Registry(n));
  }

  lemma {:induction false} TriggerHolds(call: Call, done: seq<Action>, rest: seq<Action>)
    requires Actions(call) == done + rest && AtTrigger(call, rest)
    ensures Registry(call.node) in HeldAfter({}, done)
  {
    var before := done[..|done| - 1];
    assert done[|done| - 1] == Actions(call)[|done| - 1] == Acquire(Registry(call.node));
    assert done == before + [Acquire(Registry(call.node))];
    ConcatParts({}, {}, before, [Acquire(Registry(call.node))]);
    assert [Acquire(Registry(call.node))][1..] == [];
  }

  /**
   * In no reachable state is one thread about to trigger an event through a node while another is between the first
   * copy and the last clear of that node's spin round: the guard under which the protocol lets a trigger happen.
   */
  lemma {:induction false} NoTriggerInRound(calls: set<Call>, threads: seq<seq<Call>>, schedule: seq<nat>,
                                            t: nat, spin: Call, done: seq<Action>, rest: seq<Action>, later: seq<Action>,
                                            u: nat, publish: Call, before: seq<Action>, next: seq<Action>, after: seq<Action>)
    requires Drawn(calls, threads) && CanRun(Start(threads), schedule)
    requires var s := Run(Start(threads), schedule);
      && WithinCall(s, t, spin, done, rest, later) && InRound(spin, done, rest)
      && WithinCall(s, u, publish, before, next, after) && t != u && publish.Publish? && publish.node == spin.node
    ensures !AtTrigger(publish, next)
  {
    StartInvariant(calls, threads);
    RunInvariant(calls, Start(threads), schedule);
    RoundHolds(spin, done, rest);
    if AtTrigger(publish, next) {
      TriggerHolds(publish, before, next);
    }
  }
}
