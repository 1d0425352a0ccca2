/** Exactly which set-ups lose no update: every other one has a run from the start that does. */
module SpinExact {
  import opened EventBits
  import opened PublisherLink
  import opened SpinProtocol
  import opened SpinDelivery

  /** Some object is used for `e`. */
  ghost predicate Published(c: Config, e: int) {
    exists o :: 0 <= o < |c.objects| && e in c.objects[o].events
  }

  /**
   * One node subscribes to `e`, once; the objects used for `e` publish through its manager, and no other event.
   * All of it is in the calls that set the nodes up.
   */
  ghost predicate Safe(c: Config, n: nat, e: int)
    requires n < |c.subs|
  {
    Published(c, e) ==> OnlySubscriber(c, n, e) && Once(c, n, e) && Local(c, n, e) && Dedicated(c, e)
  }

  // ----- safe set-ups -----

  lemma {:induction false} NeverPublished(c: Config, s: State, steps: seq<Step>, e: nat)
    requires Valid(c, s) && AllEnabled(c, s, steps) && e < EVENTS && !Published(c, e) && s.version[e] == 0
    ensures Run(c, s, steps).version[e] == 0
    decreases |steps|
  {
    if steps != [] {
      NeverPublished(c, Next(c, s, steps[0]), steps[1..], e);
    }
  }

  lemma {:induction false} SafeRuns(c: Config, threads: nat, present: set<int>, steps: seq<Step>, n: nat, e: nat)
    requires ValidConfig(c) && n < |c.subs| && e < EVENTS && e != SYNC && Safe(c, n, e)
    requires AllEnabled(c, Initial(c, threads, present), steps)
    ensures NotLost(c, Run(c, Initial(c, threads, present), steps), n, e)
  {
    if Published(c, e) {
      OnceUninterrupted(c, Initial(c, threads, present), steps, n, e);
      NoLostUpdate(c, threads, present, steps, n, e);
    } else {
      NeverPublished(c, Initial(c, threads, present), steps, e);
    }
  }

  // ----- pieces of runs -----

  /** `r` is reached from `start`. */
  ghost predicate Reaches(c: Config, start: State, r: State)
    requires Valid(c, start)
  {
    exists steps :: AllEnabled(c, start, steps) && Run(c, start, steps) == r
  }

  /** Runs put together: `all` is `a` and then `b`. */
  lemma {:induction false} RunAppend(c: Config, s: State, a: seq<Step>, b: seq<Step>, all: seq<Step>)
    requires Valid(c, s) && AllEnabled(c, s, a) && AllEnabled(c, Run(c, s, a), b)
    requires |all| == |a| + |b| && all[..|a|] == a && all[|a|..] == b
    ensures AllEnabled(c, s, all) && Run(c, s, all) == Run(c, Run(c, s, a), b)
    decreases |a|
  {
    if a == [] {
      assert all == b;
    } else {
      Split(a, b, all);
      RunAppend(c, Next(c, s, a[0]), a[1..], b, all[1..]);
    }
  }

  lemma Split(a: seq<Step>, b: seq<Step>, all: seq<Step>)
    requires a != [] && |all| == |a| + |b| && all[..|a|] == a && all[|a|..] == b
    ensures all[0] == a[0] && all[1..][..|a| - 1] == a[1..] && all[1..][|a| - 1..] == b
  {
    assert all[1..][..|a| - 1] == all[..|a|][1..];
  }

  lemma {:induction false} ReachesRun(c: Config, start: State, s: State, steps: seq<Step>)
    requires Valid(c, start) && Reaches(c, start, s) && Valid(c, s) && AllEnabled(c, s, steps)
    ensures Reaches(c, start, Run(c, s, steps))
  {
    var a :| AllEnabled(c, start, a) && Run(c, start, a) == s;
    RunAppend(c, start, a, steps, a + steps);
  }

  lemma ReachesStart(c: Config, start: State)
    requires Valid(c, start)
    ensures Reaches(c, start, start)
  {
    assert AllEnabled(c, start, []) && Run(c, start, []) == start;
  }

  lemma {:induction false} OneStep(c: Config, s: State, step: Step)
    requires Valid(c, s) && Enabled(c, s, step)
    ensures Valid(c, Next(c, s, step)) && AllEnabled(c, s, [step]) && Run(c, s, [step]) == Next(c, s, step)
  {
    NextValid(c, s, step);
    assert [step][1..] == [];
  }

  lemma ReachesNext(c: Config, start: State, s: State, step: Step) returns (r: State)
    requires Valid(c, start) && Reaches(c, start, s) && Valid(c, s) && Enabled(c, s, step)
    ensures r == Next(c, s, step) && Valid(c, r) && Reaches(c, start, r)
  {
    r := Next(c, s, step);
    OneStep(c, s, step);
    ReachesRun(c, start, s, [step]);
  }

  /** A publishing thread at rest, and an object that can publish: attached, or unused while there is no segment of `e`. */
  ghost predicate CanPublish(c: Config, s: State, p: nat, o: nat, e: nat)
    requires Valid(c, s)
  {
    && e < EVENTS && p < |s.publishers| && s.publishers[p].Idle? && o < |c.objects| && e in c.objects[o].events
    && (s.links[o].Mapped? || (s.links[o].Unused? && s.segments[e].Absent?))
  }

  /** The segment that a publish of `e` through object `o` writes to. */
  function Target(s: State, o: nat, e: nat): int
    requires o < |s.links|
  {
    if s.links[o].Mapped? then s.links[o].segment else e
  }

  function Attached(s: State, p: nat, o: nat, e: nat): State
    requires o < |s.links| && p < |s.publishers| && e < |s.segments|
  {
    s.(links := s.links[o := Mapped(Target(s, o, e))], publishers := s.publishers[p := Opened(o, e)],
       segments := if s.links[o].Mapped? then s.segments else s.segments[e := Blank])
  }

  lemma OpenAttaches(c: Config, s: State, p: nat, o: nat, e: nat)
    requires Valid(c, s) && CanPublish(c, s, p, o, e)
    ensures Enabled(c, s, Open(p, o, e)) && Next(c, s, Open(p, o, e)) == Attached(s, p, o, e) && IsEvent(Target(s, o, e))
  {
  }

  /** The message of one publish is in the object's segment. */
  ghost predicate HasWritten(s: State, r: State, p: nat, o: nat, e: nat)
    requires o < |s.links| && p < |s.publishers| && |s.segments| == |s.version| == EVENTS && e < EVENTS
    requires IsEvent(Target(s, o, e))
  {
    && r.links == s.links[o := Mapped(Target(s, o, e))]
    && r.segments == Attached(s, p, o, e).segments[Target(s, o, e) := Message(e, s.version[e] + 1)]
    && r.bits == s.bits && r.spinners == s.spinners && r.triggered == s.triggered
    && r.publishers == s.publishers[p := Written(o, e, s.version[e] + 1)]
    && r.version == s.version[e := s.version[e] + 1]
  }

  lemma WriteWrites(c: Config, s: State, p: nat, o: nat, e: nat)
    requires Valid(c, s) && CanPublish(c, s, p, o, e)
    requires Valid(c, Attached(s, p, o, e)) && IsEvent(Target(s, o, e))
    ensures Enabled(c, Attached(s, p, o, e), Write(p))
    ensures HasWritten(s, Next(c, Attached(s, p, o, e), Write(p)), p, o, e)
  {
    var r := Next(c, Attached(s, p, o, e), Write(p));
    assert r.publishers == s.publishers[p := Written(o, e, s.version[e] + 1)];
  }

  lemma PublishWrites(c: Config, start: State, s: State, p: nat, o: nat, e: nat) returns (r: State)
    requires Valid(c, start) && Reaches(c, start, s) && Valid(c, s) && CanPublish(c, s, p, o, e)
    ensures Valid(c, r) && Reaches(c, start, r) && IsEvent(Target(s, o, e)) && HasWritten(s, r, p, o, e)
  {
    OpenAttaches(c, s, p, o, e);
    var attached := ReachesNext(c, start, s, Open(p, o, e));
    WriteWrites(c, s, p, o, e);
    r := ReachesNext(c, start, attached, Write(p));
  }

  /** One publish, up to and with its trigger. */
  ghost predicate HasPublished(s: State, r: State, p: nat, o: nat, e: nat)
    requires o < |s.links| && p < |s.publishers| && |s.segments| == |s.version| == EVENTS && e < EVENTS
    requires IsEvent(Target(s, o, e))
  {
    && r.links == s.links[o := Mapped(Target(s, o, e))]
    && r.segments == Attached(s, p, o, e).segments[Target(s, o, e) := Message(e, s.version[e] + 1)]
    && r.publishers == s.publishers && r.bits == s.bits + {e} && r.spinners == s.spinners
    && r.version == s.version[e := s.version[e] + 1]
    && |r.triggered| == EVENTS && r.triggered[e] == s.version[e] + 1
  }

  lemma TriggerPublishes(c: Config, s: State, w: State, p: nat, o: nat, e: nat)
    requires Valid(c, s) && CanPublish(c, s, p, o, e) && !Held(s, c.objects[o].node) && IsEvent(Target(s, o, e))
    requires Valid(c, w) && HasWritten(s, w, p, o, e)
    ensures Enabled(c, w, Trigger(p)) && HasPublished(s, Next(c, w, Trigger(p)), p, o, e)
  {
    assert Next(c, w, Trigger(p)).publishers == s.publishers;
  }

  lemma Publishes(c: Config, start: State, s: State, p: nat, o: nat, e: nat) returns (r: State)
    requires Valid(c, start) && Reaches(c, start, s) && Valid(c, s)
    requires CanPublish(c, s, p, o, e) && !Held(s, c.objects[o].node)
    ensures Valid(c, r) && Reaches(c, start, r) && IsEvent(Target(s, o, e)) && HasPublished(s, r, p, o, e)
  {
    var w := PublishWrites(c, start, s, p, o, e);
    TriggerPublishes(c, s, w, p, o, e);
    r := ReachesNext(c, start, w, Trigger(p));
  }

  /** A stopped node is started and waits. */
  lemma Begins(c: Config, start: State, s: State, n: nat) returns (r: State)
    requires Valid(c, start) && Reaches(c, start, s) && Valid(c, s)
    requires At(s, n, Stopped) && Subscribed(c.subs[n], s.segments)
    ensures Valid(c, r) && Reaches(c, start, r)
    ensures r == s.(spinners := s.spinners[n := s.spinners[n].(pc := Waiting, spinning := true)])
  {
    var started := ReachesNext(c, start, s, Start(n));
    r := ReachesNext(c, start, started, Loop(n));
  }

  lemma Wakes(c: Config, start: State, s: State, n: nat) returns (r: State)
    requires Valid(c, start) && Reaches(c, start, s) && Valid(c, s)
    requires At(s, n, Waiting) && s.spinners[n].spinning && s.bits != {}
    ensures Valid(c, r) && Reaches(c, start, r)
    ensures r == s.(spinners := s.spinners[n := s.spinners[n].(pc := Locking, snapshot := s.bits)])
  {
    var woken := ReachesNext(c, start, s, Wait(n));
    r := ReachesNext(c, start, woken, Check(n));
  }

  /** Subscription `k` of node `n` has just been served in a round that goes on. */
  ghost predicate JustServed(c: Config, s: State, r: State, n: nat, k: nat, e: nat)
    requires Valid(c, s) && Valid(c, r) && n < |c.subs| && k < |c.subs[n]| && e < EVENTS
  {
    var t := r.spinners[n];
    && r == s.(spinners := s.spinners[n := t])
    && t.pc == Scanning(k + 1) && t.spinning && e in t.processed && t.delivered[k] == Shown(s.segments[e], e)
    && forall j | k < j < |c.subs[n]| :: t.delivered[j] == s.spinners[n].delivered[j]
  }

  /** A visit of an earlier subscription changes nothing that the later ones see. */
  lemma VisitPasses(c: Config, s: State, n: nat, k: nat, e: nat)
    requires Valid(c, s) && n < |c.subs| && k < |c.subs[n]| && e < EVENTS
    requires s.spinners[n].pc.Scanning? && s.spinners[n].pc.i < k
    ensures var t := VisitSubscription(c.subs[n], s.segments, s.spinners[n]);
      && Next(c, s, Visit(n)) == s.(spinners := s.spinners[n := t])
      && t.pc == Scanning(s.spinners[n].pc.i + 1) && t.spinning == s.spinners[n].spinning && t.snapshot == s.spinners[n].snapshot
      && |t.delivered| == |c.subs[n]| && forall j | k < j < |c.subs[n]| :: t.delivered[j] == s.spinners[n].delivered[j]
  {
  }

  lemma VisitServes(c: Config, s: State, n: nat, k: nat, e: nat)
    requires Valid(c, s) && n < |c.subs| && k < |c.subs[n]| && c.subs[n][k] == e < EVENTS
    requires s.spinners[n].pc == Scanning(k) && s.spinners[n].spinning && e in s.spinners[n].snapshot
    ensures Valid(c, Next(c, s, Visit(n))) && JustServed(c, s, Next(c, s, Visit(n)), n, k, e)
  {
    NextValid(c, s, Visit(n));
  }

  lemma ServedAfter(c: Config, s: State, w: State, r: State, n: nat, k: nat, e: nat)
    requires Valid(c, s) && Valid(c, w) && Valid(c, r) && n < |c.subs| && k < |c.subs[n]| && e < EVENTS
    requires w == s.(spinners := s.spinners[n := w.spinners[n]]) && JustServed(c, w, r, n, k, e)
    requires forall j | k < j < |c.subs[n]| :: w.spinners[n].delivered[j] == s.spinners[n].delivered[j]
    ensures JustServed(c, s, r, n, k, e)
  {
    assert r.spinners == s.spinners[n := r.spinners[n]];
  }

  lemma {:induction false} VisitsUpTo(c: Config, start: State, s: State, n: nat, k: nat, e: nat) returns (r: State)
    requires Valid(c, start) && Reaches(c, start, s) && Valid(c, s)
    requires n < |c.subs| && k < |c.subs[n]| && c.subs[n][k] == e < EVENTS
    requires s.spinners[n].pc.Scanning? && s.spinners[n].pc.i <= k && s.spinners[n].spinning && e in s.spinners[n].snapshot
    ensures Valid(c, r) && Reaches(c, start, r) && JustServed(c, s, r, n, k, e)
    decreases k - s.spinners[n].pc.i
  {
    if s.spinners[n].pc.i == k {
      VisitServes(c, s, n, k, e);
      r := ReachesNext(c, start, s, Visit(n));
    } else {
      VisitPasses(c, s, n, k, e);
      var w := ReachesNext(c, start, s, Visit(n));
      r := VisitsUpTo(c, start, w, n, k, e);
      ServedAfter(c, s, w, r, n, k, e);
    }
  }

  lemma LocksIn(c: Config, start: State, s: State, n: nat) returns (r: State)
    requires Valid(c, start) && Reaches(c, start, s) && Valid(c, s) && At(s, n, Locking) && s.spinners[n].snapshot != {}
    ensures Valid(c, r) && Reaches(c, start, r)
    ensures r == s.(spinners := s.spinners[n := s.spinners[n].(pc := Scanning(0), processed := [])])
  {
    r := ReachesNext(c, start, s, Lock(n));
  }

  lemma WakesUp(c: Config, start: State, s: State, n: nat) returns (r: State)
    requires Valid(c, start) && Reaches(c, start, s) && Valid(c, s)
    requires At(s, n, Waiting) && s.spinners[n].spinning && s.bits != {}
    ensures Valid(c, r) && Reaches(c, start, r)
    ensures r == s.(spinners := s.spinners[n := s.spinners[n].(pc := Scanning(0), snapshot := s.bits, processed := [])])
  {
    var woken := Wakes(c, start, s, n);
    r := LocksIn(c, start, woken, n);
  }

  /** A waiting node begins a round and comes to subscription `k`. */
  lemma RoundUpTo(c: Config, start: State, s: State, n: nat, k: nat, e: nat) returns (r: State)
    requires Valid(c, start) && Reaches(c, start, s) && Valid(c, s)
    requires n < |c.subs| && k < |c.subs[n]| && c.subs[n][k] == e < EVENTS
    requires s.spinners[n].pc.Waiting? && s.spinners[n].spinning && e in s.bits
    ensures Valid(c, r) && Reaches(c, start, r) && JustServed(c, s, r, n, k, e)
  {
    var w := WakesUp(c, start, s, n);
    r := VisitsUpTo(c, start, w, n, k, e);
    ServedAfter(c, s, w, r, n, k, e);
  }

  /** From a doomed state on, the rest of the round ends in a loss. */
  lemma Dooms(c: Config, start: State, r: State, n: nat, k: nat, m: nat, e: nat) returns (lost: State)
    requires Valid(c, start) && Valid(c, r) && Reaches(c, start, r)
    requires n < |c.subs| && k < |c.subs[n]| && m < |c.subs| && e < EVENTS && Doomed(c, r, n, k, m, e)
    ensures Valid(c, lost) && Reaches(c, start, lost) && !NotLost(c, lost, n, e)
    ensures m != n ==> lost.spinners[n] == r.spinners[n]
  {
    var steps := FinishRound(c, r, n, k, m, e);
    lost := Run(c, r, steps);
    ReachesRun(c, start, r, steps);
  }

  // ----- losing set-ups -----

  function Below(n: nat): (r: set<int>)
    ensures forall g :: g in r <==> 0 <= g < n
  {
    if n == 0 then {} else Below(n - 1) + {n - 1}
  }

  function AllBut(e: int): set<int> {
    Below(EVENTS) - {e}
  }

  /** All segments but that of `e` are there, and the first publish of `e` is done. */
  ghost predicate FirstPublished(c: Config, s: State, o: nat, e: nat)
    requires Valid(c, s)
  {
    && o < |c.objects| && e < EVENTS && e in s.bits
    && (forall n | 0 <= n < |c.subs| :: s.spinners[n] == InitialSpinner(|c.subs[n]|) && Subscribed(c.subs[n], s.segments))
    && |s.publishers| > 0 && s.publishers[0].Idle? && s.links[o] == Mapped(e)
    && s.segments[e] == Message(e, 1) && s.version[e] == s.triggered[e] == 1
  }

  lemma FirstCanPublish(c: Config, threads: nat, o: nat, e: nat)
    requires ValidConfig(c) && threads > 0 && e < EVENTS && o < |c.objects| && e in c.objects[o].events
    ensures var s := Initial(c, threads, AllBut(e));
      && CanPublish(c, s, 0, o, e) && !Held(s, c.objects[o].node) && s.links[o].Unused?
      && (forall n | 0 <= n < |c.subs| :: s.spinners[n] == InitialSpinner(|c.subs[n]|))
      && (forall g | 0 <= g < EVENTS && g != e :: !s.segments[g].Absent?)
      && s.version[e] == 0
  {
  }

  lemma FirstPublish(c: Config, threads: nat, o: nat, e: nat) returns (r: State)
    requires ValidConfig(c) && threads > 0 && e < EVENTS && o < |c.objects| && e in c.objects[o].events
    ensures Valid(c, r) && Reaches(c, Initial(c, threads, AllBut(e)), r) && FirstPublished(c, r, o, e)
  {
    var s := Initial(c, threads, AllBut(e));
    FirstCanPublish(c, threads, o, e);
    ReachesStart(c, s);
    r := Publishes(c, s, s, 0, o, e);
    assert Target(s, o, e) == e;
  }

  lemma BothWait(c: Config, start: State, s: State, n: nat, m: nat) returns (r: State)
    requires Valid(c, start) && Reaches(c, start, s) && Valid(c, s)
    requires At(s, n, Stopped) && At(s, m, Stopped) && n != m
    requires Subscribed(c.subs[n], s.segments) && Subscribed(c.subs[m], s.segments)
    ensures Valid(c, r) && Reaches(c, start, r)
    ensures r == s.(spinners := r.spinners) && At(r, n, Waiting) && At(r, m, Waiting)
    ensures r.spinners[n] == s.spinners[n].(pc := Waiting, spinning := true) && r.spinners[m].spinning
  {
    var waiting := Begins(c, start, s, n);
    r := Begins(c, start, waiting, m);
  }

  /** A subscription that has nothing yet is doomed by the round of another node. */
  lemma OtherDoomed(c: Config, s: State, r: State, n: nat, k: nat, m: nat, j: nat, e: nat)
    requires Valid(c, s) && Valid(c, r) && n < |c.subs| && m < |c.subs| && m != n && e < EVENTS
    requires k < |c.subs[n]| && c.subs[n][k] == e && j < |c.subs[m]| && JustServed(c, s, r, m, j, e)
    requires s.spinners[n].delivered[k] < s.triggered[e]
    ensures Doomed(c, r, n, k, m, e) && r.spinners[n] == s.spinners[n]
  {
  }

  /** Two nodes subscribe to `e`: the first to wake takes the message from the other, which is waiting. */
  lemma {:induction false} SecondNodeLoses(c: Config, threads: nat, o: nat, n: nat, m: nat, e: nat) returns (lost: State)
    requires ValidConfig(c) && threads > 0 && e < EVENTS && o < |c.objects| && e in c.objects[o].events
    requires n < |c.subs| && m < |c.subs| && m != n && e in c.subs[n] && e in c.subs[m]
    ensures Valid(c, lost) && Reaches(c, Initial(c, threads, AllBut(e)), lost) && !NotLost(c, lost, n, e)
    ensures lost.spinners[n].pc.Waiting? && lost.spinners[n].spinning
  {
    var k :| 0 <= k < |c.subs[n]| && c.subs[n][k] == e;
    var j :| 0 <= j < |c.subs[m]| && c.subs[m][j] == e;
    var start := Initial(c, threads, AllBut(e));
    var s := FirstPublish(c, threads, o, e);
    var both := BothWait(c, start, s, n, m);
    var r := RoundUpTo(c, start, both, m, j, e);
    OtherDoomed(c, both, r, n, k, m, j, e);
    lost := Dooms(c, start, r, n, k, m, e);
  }

  /** Two subscriptions of one node: stop() between their copies leaves the second without the message. */
  lemma {:induction false} StoppedNodeLoses(c: Config, threads: nat, o: nat, n: nat, e: nat) returns (lost: State)
    requires ValidConfig(c) && threads > 0 && e < EVENTS && o < |c.objects| && e in c.objects[o].events
    requires n < |c.subs| && !Once(c, n, e)
    ensures Valid(c, lost) && Reaches(c, Initial(c, threads, AllBut(e)), lost) && !NotLost(c, lost, n, e)
  {
    var j, k :| 0 <= j < k < |c.subs[n]| && c.subs[n][j] == e && c.subs[n][k] == e;
    var start := Initial(c, threads, AllBut(e));
    var s := FirstPublish(c, threads, o, e);
    var waiting := Begins(c, start, s, n);
    var r := RoundUpTo(c, start, waiting, n, j, e);
    var stopped := ReachesNext(c, start, r, Stop(n));
    lost := Dooms(c, start, stopped, n, k, n, e);
  }

  /** An object of another node: its trigger can fall between copy and clear. */
  lemma {:induction false} RemotePublisherLoses(c: Config, threads: nat, o: nat, n: nat, e: nat) returns (lost: State)
    requires ValidConfig(c) && threads > 0 && e < EVENTS && o < |c.objects| && e in c.objects[o].events
    requires n < |c.subs| && e in c.subs[n] && c.objects[o].node != n
    ensures Valid(c, lost) && Reaches(c, Initial(c, threads, AllBut(e)), lost) && !NotLost(c, lost, n, e)
  {
    var k :| 0 <= k < |c.subs[n]| && c.subs[n][k] == e;
    var start := Initial(c, threads, AllBut(e));
    var s := FirstPublish(c, threads, o, e);
    var waiting := Begins(c, start, s, n);
    var r := RoundUpTo(c, start, waiting, n, k, e);
    var late := Publishes(c, start, r, 0, o, e);
    lost := Dooms(c, start, late, n, k, n, e);
  }

  /** An object used for a second event: its message takes the place of the one the bit stands for. */
  lemma {:induction false} SecondEventLoses(c: Config, threads: nat, o: nat, n: nat, e: nat, f: nat) returns (lost: State)
    requires ValidConfig(c) && threads > 0 && e < EVENTS && o < |c.objects| && e in c.objects[o].events
    requires n < |c.subs| && e in c.subs[n] && f in c.objects[o].events && f != e
    ensures Valid(c, lost) && Reaches(c, Initial(c, threads, AllBut(e)), lost) && !NotLost(c, lost, n, e)
  {
    var k :| 0 <= k < |c.subs[n]| && c.subs[n][k] == e;
    var start := Initial(c, threads, AllBut(e));
    var s := FirstPublish(c, threads, o, e);
    var waiting := Begins(c, start, s, n);
    var astray := PublishWrites(c, start, waiting, 0, o, f);
    var r := RoundUpTo(c, start, astray, n, k, e);
    lost := Dooms(c, start, r, n, k, n, e);
  }

  lemma AnotherEvent(events: set<int>, e: int) returns (f: int)
    requires e in events && events != {e}
    ensures f in events && f != e
  {
    assert (forall x | x in events :: x == e) ==> events == {e};
    f :| f in events && f != e;
  }

  lemma UnsafeLoses(c: Config, threads: nat, n: nat, e: nat) returns (lost: State)
    requires ValidConfig(c) && threads > 0 && n < |c.subs| && e < EVENTS && e in c.subs[n] && !Safe(c, n, e)
    ensures Valid(c, lost) && Reaches(c, Initial(c, threads, AllBut(e)), lost) && !NotLost(c, lost, n, e)
  {
    var o :| 0 <= o < |c.objects| && e in c.objects[o].events;
    if !OnlySubscriber(c, n, e) {
      var m :| 0 <= m < |c.subs| && m != n && e in c.subs[m];
      lost := SecondNodeLoses(c, threads, o, n, m, e);
    } else if !Once(c, n, e) {
      lost := StoppedNodeLoses(c, threads, o, n, e);
    } else if !Local(c, n, e) {
      var other :| 0 <= other < |c.objects| && e in c.objects[other].events && c.objects[other].node != n;
      lost := RemotePublisherLoses(c, threads, other, n, e);
    } else {
      var other :| 0 <= other < |c.objects| && e in c.objects[other].events && c.objects[other].events != {e};
      var f := AnotherEvent(c.objects[other].events, e);
      lost := SecondEventLoses(c, threads, other, n, e, f);
    }
  }

  /** In no reachable state, whatever segments other processes have left, is an update of `e` lost for node `n`. */
  ghost predicate NeverLost(c: Config, threads: nat, n: nat, e: nat)
    requires ValidConfig(c) && n < |c.subs| && e < EVENTS
  {
    forall present, steps | AllEnabled(c, Initial(c, threads, present), steps) ::
      NotLost(c, Run(c, Initial(c, threads, present), steps), n, e)
  }

  lemma LostRefutes(c: Config, threads: nat, present: set<int>, n: nat, e: nat, lost: State)
    requires ValidConfig(c) && n < |c.subs| && e < EVENTS
    requires Valid(c, lost) && Reaches(c, Initial(c, threads, present), lost) && !NotLost(c, lost, n, e)
    ensures !NeverLost(c, threads, n, e)
  {
    var steps :| AllEnabled(c, Initial(c, threads, present), steps) && Run(c, Initial(c, threads, present), steps) == lost;
  }

  /** For a subscribed event, over all interleavings: no update is ever lost exactly when the set-up is safe. */
  lemma {:induction false} NothingLostIff(c: Config, threads: nat, n: nat, e: nat)
    requires ValidConfig(c) && threads > 0 && n < |c.subs| && e < EVENTS && e != SYNC && e in c.subs[n]
    ensures NeverLost(c, threads, n, e) <==> Safe(c, n, e)
  {
    if Safe(c, n, e) {
      forall present, steps | AllEnabled(c, Initial(c, threads, present), steps)
        ensures NotLost(c, Run(c, Initial(c, threads, present), steps), n, e)
      {
        SafeRuns(c, threads, present, steps, n, e);
      }
    } else {
      var lost := UnsafeLoses(c, threads, n, e);
      LostRefutes(c, threads, AllBut(e), n, e, lost);
    }
  }
}
