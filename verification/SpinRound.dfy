/** One round of the spin loop as code, and the run of the protocol that it amounts to when nothing interferes. */
module SpinRound {
  import opened EventBits
  import opened SpinProtocol
  import opened SpinDelivery

  // A task made from a message of one subscription.
  datatype Task = Task(subscription: nat, message: Segment)

  predicate Hit(subs: seq<int>, snapshot: set<int>, k: nat)
    requires k < |subs|
  {
    IsEvent(subs[k]) && subs[k] in snapshot
  }

  /** The tasks for the subscriptions from `i` on whose bit was set: one each, with the message now in its segment. */
  function Tasks(subs: seq<int>, snapshot: set<int>, segments: seq<Segment>, i: nat): seq<Task>
    requires i <= |subs| && |segments| == EVENTS
    decreases |subs| - i
  {
    if i == |subs| then []
    else (if Hit(subs, snapshot, i) then [Task(i, segments[subs[i]])] else []) + Tasks(subs, snapshot, segments, i + 1)
  }

  /** The event ids that the same loop goes on to clear. */
  function Processed(subs: seq<int>, snapshot: set<int>, i: nat): seq<int>
    requires i <= |subs|
    decreases |subs| - i
  {
    if i == |subs| then []
    else (if Hit(subs, snapshot, i) then [subs[i]] else []) + Processed(subs, snapshot, i + 1)
  }

  function Elements(s: seq<int>): set<int> {
    set e | e in s
  }

  /** What a round leaves of the bits: all but the subscribed ones and the reserved one. */
  function LeftAfterRound(subs: seq<int>, bits: set<int>): set<int> {
    set e | e in bits && !(e in subs && IsEvent(e)) && e != SYNC
  }

  lemma {:induction false} ProcessedElements(subs: seq<int>, snapshot: set<int>, i: nat)
    requires i <= |subs|
    ensures forall e :: e in Processed(subs, snapshot, i) <==> e in subs[i..] && IsEvent(e) && e in snapshot
    decreases |subs| - i
  {
    if i < |subs| {
      ProcessedElements(subs, snapshot, i + 1);
      assert subs[i..] == [subs[i]] + subs[i + 1..];
    }
  }

  /** The task of a subscription whose bit was set, with what its segment shows. */
  predicate IsTask(subs: seq<int>, snapshot: set<int>, segments: seq<Segment>, t: Task) {
    && t.subscription < |subs| && 0 <= subs[t.subscription] < 1024 <= |segments|
    && subs[t.subscription] in snapshot && t.message == segments[subs[t.subscription]]
  }

  /** Only such tasks. */
  lemma {:induction false} TasksAre(subs: seq<int>, snapshot: set<int>, segments: seq<Segment>, i: nat, t: Task)
    requires i <= |subs| && |segments| == EVENTS && t in Tasks(subs, snapshot, segments, i)
    ensures i <= t.subscription && IsTask(subs, snapshot, segments, t)
    decreases |subs| - i
  {
    if i < |subs| && t in Tasks(subs, snapshot, segments, i + 1) {
      TasksAre(subs, snapshot, segments, i + 1, t);
    }
  }

  /** In the order of the subscriptions, so not two for one. */
  lemma {:induction false} TasksInOrder(subs: seq<int>, snapshot: set<int>, segments: seq<Segment>, i: nat, a: nat, b: nat)
    requires i <= |subs| && |segments| == EVENTS && a < b < |Tasks(subs, snapshot, segments, i)|
    ensures var tasks := Tasks(subs, snapshot, segments, i); tasks[a].subscription < tasks[b].subscription
    decreases |subs| - i
  {
    if i < |subs| {
      var rest := Tasks(subs, snapshot, segments, i + 1);
      if !Hit(subs, snapshot, i) {
        TasksInOrder(subs, snapshot, segments, i + 1, a, b);
      } else if a > 0 {
        TasksInOrder(subs, snapshot, segments, i + 1, a - 1, b - 1);
      } else {
        TasksAre(subs, snapshot, segments, i + 1, rest[b - 1]);
      }
    }
  }

  /** And one for each of these. */
  lemma {:induction false} TaskFor(subs: seq<int>, snapshot: set<int>, segments: seq<Segment>, i: nat, k: nat) returns (a: nat)
    requires i <= k < |subs| && |segments| == EVENTS && 0 <= subs[k] < 1024 && subs[k] in snapshot
    ensures a < |Tasks(subs, snapshot, segments, i)| && Tasks(subs, snapshot, segments, i)[a].subscription == k
    decreases |subs| - i
  {
    a := 0;
    if i < k {
      a := TaskFor(subs, snapshot, segments, i + 1, k);
      a := if Hit(subs, snapshot, i) then a + 1 else a;
    }
  }

  lemma {:induction false} TasksStep(made: seq<Task>, subs: seq<int>, snapshot: set<int>, segments: seq<Segment>, i: nat, all: seq<Task>)
    requires i < |subs| && |segments| == EVENTS && made + Tasks(subs, snapshot, segments, i) == all
    ensures Hit(subs, snapshot, i) ==> made + [Task(i, segments[subs[i]])] + Tasks(subs, snapshot, segments, i + 1) == all
    ensures !Hit(subs, snapshot, i) ==> made + Tasks(subs, snapshot, segments, i + 1) == all
  {
    var rest := Tasks(subs, snapshot, segments, i + 1);
    if Hit(subs, snapshot, i) {
      var task := Task(i, segments[subs[i]]);
      assert made + [task] + rest == made + ([task] + rest);
    } else {
      assert [] + rest == rest;
    }
  }

  lemma {:induction false} ProcessedStep(done: seq<int>, subs: seq<int>, snapshot: set<int>, i: nat, all: seq<int>)
    requires i < |subs| && done + Processed(subs, snapshot, i) == all
    ensures Hit(subs, snapshot, i) ==> done + [subs[i]] + Processed(subs, snapshot, i + 1) == all
    ensures !Hit(subs, snapshot, i) ==> done + Processed(subs, snapshot, i + 1) == all
  {
    var rest := Processed(subs, snapshot, i + 1);
    if Hit(subs, snapshot, i) {
      assert done + [subs[i]] + rest == done + ([subs[i]] + rest);
    } else {
      assert [] + rest == rest;
    }
  }

  class Node {
    const subscriptionEventIds: seq<int>
    const events: EventNotification
    var spinning: bool
    var queue: seq<Task>

    constructor (subscriptionEventIds: seq<int>, events: EventNotification)
      ensures this.subscriptionEventIds == subscriptionEventIds && this.events == events && !spinning && queue == []
    {
      this.subscriptionEventIds := subscriptionEventIds;
      this.events := events;
      spinning := false;
      queue := [];
    }

    /** The loop over the subscriptions, under the node's mutex. */
    method ScanSubscriptions(snapshot: set<int>, segments: seq<Segment>) returns (processed: seq<int>)
      requires |segments| == EVENTS
      modifies this`queue
      ensures processed == if spinning then Processed(subscriptionEventIds, snapshot, 0) else []
      ensures queue == old(queue) + if spinning then Tasks(subscriptionEventIds, snapshot, segments, 0) else []
    {
      processed := [];
      ghost var made: seq<Task> := [];
      ghost var tasks := Tasks(subscriptionEventIds, snapshot, segments, 0);
      ghost var all := Processed(subscriptionEventIds, snapshot, 0);
      var id := 0;
      while id < |subscriptionEventIds|
        invariant 0 <= id <= |subscriptionEventIds| && queue == old(queue) + made
        invariant spinning ==> made + Tasks(subscriptionEventIds, snapshot, segments, id) == tasks
        invariant spinning ==> processed + Processed(subscriptionEventIds, snapshot, id) == all
        invariant !spinning ==> processed == [] && made == []
      {
        if spinning {
          TasksStep(made, subscriptionEventIds, snapshot, segments, id, tasks);
          ProcessedStep(processed, subscriptionEventIds, snapshot, id, all);
        }
        var eventId := subscriptionEventIds[id];
        if IsEvent(eventId) && eventId in snapshot {
          if spinning {
            queue := queue + [Task(id, segments[eventId])];
            made := made + [Task(id, segments[eventId])];
            processed := processed + [eventId];
          }
        }
        id := id + 1;
      }
    }

    method ClearProcessed(processed: seq<int>)
      requires forall e | e in processed :: IsEvent(e)
      modifies events
      ensures events.flags == old(events.flags) - Elements(processed)
    {
      var j := 0;
      while j < |processed|
        invariant 0 <= j <= |processed|
        invariant events.flags == old(events.flags) - Elements(processed[..j])
      {
        assert IsEvent(processed[j]);
        events.ClearEvents(processed[j]);
        assert processed[..j + 1] == processed[..j] + [processed[j]];
        j := j + 1;
      }
      assert processed[..j] == processed;
    }

    /** The body of the spin loop after the wait, timers aside. */
    method SpinOnce(segments: seq<Segment>)
      requires |segments| == EVENTS
      modifies this`queue, events
      ensures spinning ==>
                && events.flags == LeftAfterRound(subscriptionEventIds, old(events.flags))
                && queue == old(queue) + Tasks(subscriptionEventIds, old(events.flags), segments, 0)
      ensures !spinning ==> events.flags == old(events.flags) && queue == old(queue)
    {
      var snapshot := events.WaitForEvent();
      if !spinning {
        return;
      }
      ProcessedElements(subscriptionEventIds, snapshot, 0);
      if snapshot != {} {
        var processed := ScanSubscriptions(snapshot, segments);
        ClearProcessed(processed);
      } else {
        NoTasks(subscriptionEventIds, segments, 0);
      }
      if SYNC in snapshot {
        events.ClearEvents(SYNC);
      }
    }
  }

  lemma {:induction false} NoTasks(subs: seq<int>, segments: seq<Segment>, i: nat)
    requires i <= |subs| && |segments| == EVENTS
    ensures Tasks(subs, {}, segments, i) == []
    decreases |subs| - i
  {
    if i < |subs| {
      NoTasks(subs, segments, i + 1);
    }
  }

  // ----- the same round in the protocol -----

  /** The bits this round is to see: those at the wait that begins it. */
  function Seen(t: Spinner, bits: set<int>): set<int> {
    if t.pc.Waiting? then bits else t.snapshot
  }

  /** The event ids this round still has to clear. */
  function ToClear(subs: seq<int>, t: Spinner, bits: set<int>): seq<int>
    requires ValidSpinner(subs, t)
  {
    match t.pc
    case Waiting => Processed(subs, bits, 0)
    case Woken => Processed(subs, t.snapshot, 0)
    case Locking => Processed(subs, t.snapshot, 0)
    case Scanning(i) => t.processed + Processed(subs, t.snapshot, i)
    case Clearing(j) => t.processed[j..]
    case _ => []
  }

  /** Whether this round still has to serve subscription `k`. */
  predicate ToServe(subs: seq<int>, t: Spinner, bits: set<int>, k: nat)
    requires k < |subs|
  {
    && Hit(subs, Seen(t, bits), k)
    && (t.pc.Waiting? || t.pc.Woken? || t.pc.Locking? || (t.pc.Scanning? && t.pc.i <= k))
  }

  /** What remains of the bits if this round runs to its end alone. */
  function FinalBits(subs: seq<int>, t: Spinner, bits: set<int>): set<int>
    requires ValidSpinner(subs, t)
  {
    bits - Elements(ToClear(subs, t, bits)) - (if t.pc != Looping && SYNC in Seen(t, bits) then {SYNC} else {})
  }

  function FinalDelivered(subs: seq<int>, segments: seq<Segment>, t: Spinner, bits: set<int>, k: nat): nat
    requires ValidSpinner(subs, t) && k < |subs| && |segments| == EVENTS
  {
    if ToServe(subs, t, bits, k) then Shown(segments[subs[k]], subs[k]) else t.delivered[k]
  }

  function FinalEnqueued(subs: seq<int>, t: Spinner, bits: set<int>, k: nat): nat
    requires ValidSpinner(subs, t) && k < |subs|
  {
    if ToServe(subs, t, bits, k) then t.enqueued[k] + 1 else t.enqueued[k]
  }

  function RoundStep(n: nat, pc: Pc): Step {
    match pc
    case Waiting => Wait(n)
    case Woken => Check(n)
    case Locking => Lock(n)
    case Scanning(_) => Visit(n)
    case Clearing(_) => Clear(n)
    case Unlocked => Sync(n)
    case SyncRead => ClearSync(n)
    case Looping => Loop(n)
    case Stopped => Start(n)
  }

  ghost predicate MidRound(s: State, n: nat) {
    n < |s.spinners| && s.spinners[n].spinning && !s.spinners[n].pc.Stopped? && !s.spinners[n].pc.Looping?
    && (s.spinners[n].pc.SyncRead? ==> SYNC in s.spinners[n].snapshot)
  }

  /** The final result of the round does not change along the node's own steps. */
  ghost predicate SameFinal(c: Config, s: State, r: State, n: nat)
    requires Valid(c, s) && Valid(c, r) && n < |c.subs|
  {
    && FinalBits(c.subs[n], r.spinners[n], r.bits) == FinalBits(c.subs[n], s.spinners[n], s.bits)
    && r.segments == s.segments && r.version == s.version && r.triggered == s.triggered
    && forall k | 0 <= k < |c.subs[n]| ::
         && FinalDelivered(c.subs[n], r.segments, r.spinners[n], r.bits, k) == FinalDelivered(c.subs[n], s.segments, s.spinners[n], s.bits, k)
         && FinalEnqueued(c.subs[n], r.spinners[n], r.bits, k) == FinalEnqueued(c.subs[n], s.spinners[n], s.bits, k)
  }

  lemma {:induction false} ProcessedNothing(subs: seq<int>, i: nat)
    requires i <= |subs|
    ensures Processed(subs, {}, i) == []
    decreases |subs| - i
  {
    if i < |subs| {
      ProcessedNothing(subs, i + 1);
    }
  }

  /** The spinner-level part of a step that leaves the messages alone. */
  ghost predicate SameOutcome(subs: seq<int>, segments: seq<Segment>, t: Spinner, bits: set<int>, r: Spinner, left: set<int>)
    requires ValidSpinner(subs, t) && ValidSpinner(subs, r) && |segments| == EVENTS
  {
    && FinalBits(subs, r, left) == FinalBits(subs, t, bits)
    && forall k | 0 <= k < |subs| ::
         && FinalDelivered(subs, segments, r, left, k) == FinalDelivered(subs, segments, t, bits, k)
         && FinalEnqueued(subs, r, left, k) == FinalEnqueued(subs, t, bits, k)
  }

  lemma VisitOutcome(subs: seq<int>, segments: seq<Segment>, t: Spinner, bits: set<int>)
    requires ValidSpinner(subs, t) && |segments| == EVENTS && t.pc.Scanning? && t.spinning
    ensures ValidSpinner(subs, VisitSubscription(subs, segments, t))
    ensures SameOutcome(subs, segments, t, bits, VisitSubscription(subs, segments, t), bits)
  {
    var r := VisitSubscription(subs, segments, t);
    assert ToClear(subs, r, bits) == ToClear(subs, t, bits);
  }

  lemma ClearOutcome(subs: seq<int>, segments: seq<Segment>, t: Spinner, bits: set<int>)
    requires ValidSpinner(subs, t) && |segments| == EVENTS && t.pc.Clearing? && t.pc.j < |t.processed|
    ensures SameOutcome(subs, segments, t, bits, t.(pc := Clearing(t.pc.j + 1)), bits - {t.processed[t.pc.j]})
  {
    assert t.processed[t.pc.j..] == [t.processed[t.pc.j]] + t.processed[t.pc.j + 1..];
  }

  lemma StaysMidRound(c: Config, s: State, n: nat)
    requires Valid(c, s) && n < |c.subs| && MidRound(s, n)
    ensures var step := RoundStep(n, s.spinners[n].pc);
      Enabled(c, s, step) && (MidRound(Next(c, s, step), n) || At(Next(c, s, step), n, Looping))
  {
  }

  lemma LockOutcome(subs: seq<int>, segments: seq<Segment>, t: Spinner, bits: set<int>)
    requires ValidSpinner(subs, t) && |segments| == EVENTS && t.pc.Locking?
    ensures var r := t.(pc := if t.snapshot == {} then Clearing(0) else Scanning(0), processed := []);
      ValidSpinner(subs, r) && SameOutcome(subs, segments, t, bits, r, bits)
  {
    ProcessedNothing(subs, 0);
  }

  lemma WaitOutcome(subs: seq<int>, segments: seq<Segment>, t: Spinner, bits: set<int>)
    requires ValidSpinner(subs, t) && |segments| == EVENTS && (t.pc.Waiting? || (t.pc.Woken? && t.spinning))
    ensures var r := if t.pc.Waiting? then t.(pc := Woken, snapshot := bits) else t.(pc := Locking);
      ValidSpinner(subs, r) && SameOutcome(subs, segments, t, bits, r, bits)
  {
  }

  lemma EndOutcome(subs: seq<int>, segments: seq<Segment>, t: Spinner, bits: set<int>)
    requires ValidSpinner(subs, t) && |segments| == EVENTS
    requires t.pc.Unlocked? || (t.pc.SyncRead? && SYNC in t.snapshot) || (t.pc.Clearing? && t.pc.j == |t.processed|)
    ensures var r := t.(pc := if t.pc.Clearing? then Unlocked else if t.pc.Unlocked? && SYNC in t.snapshot then SyncRead else Looping);
      var left := if t.pc.SyncRead? then bits - {SYNC} else bits;
      ValidSpinner(subs, r) && SameOutcome(subs, segments, t, bits, r, left)
  {
  }

  lemma RoundStepFinal(c: Config, s: State, n: nat)
    requires Valid(c, s) && n < |c.subs| && MidRound(s, n)
    ensures var step := RoundStep(n, s.spinners[n].pc);
      && Enabled(c, s, step) && Valid(c, Next(c, s, step)) && SameFinal(c, s, Next(c, s, step), n)
      && (MidRound(Next(c, s, step), n) || At(Next(c, s, step), n, Looping))
  {
    var t := s.spinners[n];
    var r := Next(c, s, RoundStep(n, t.pc));
    NextValid(c, s, RoundStep(n, t.pc));
    StaysMidRound(c, s, n);
    assert SameOutcome(c.subs[n], s.segments, t, s.bits, r.spinners[n], r.bits) by {
      if t.pc.Scanning? {
        VisitOutcome(c.subs[n], s.segments, t, s.bits);
      } else if t.pc.Clearing? && t.pc.j < |t.processed| {
        ClearOutcome(c.subs[n], s.segments, t, s.bits);
      } else if t.pc.Locking? {
        LockOutcome(c.subs[n], s.segments, t, s.bits);
      } else if t.pc.Waiting? || t.pc.Woken? {
        WaitOutcome(c.subs[n], s.segments, t, s.bits);
      } else {
        EndOutcome(c.subs[n], s.segments, t, s.bits);
      }
    }
  }

  /** The steps are those of the loop of node `n`, and nobody else's. */
  ghost predicate Own(n: nat, steps: seq<Step>) {
    forall step | step in steps :: exists pc :: step == RoundStep(n, pc) && !pc.Stopped?
  }

  function PcRank(pc: Pc): nat {
    match pc
    case Waiting => 6 case Woken => 5 case Locking => 4 case Scanning(_) => 3 case Clearing(_) => 2 case Unlocked => 1
    case _ => 0
  }

  lemma {:induction false} FinishAlone(c: Config, s: State, n: nat) returns (steps: seq<Step>)
    requires Valid(c, s) && n < |c.subs| && (MidRound(s, n) || At(s, n, Looping))
    ensures AllEnabled(c, s, steps) && Own(n, steps)
    ensures At(Run(c, s, steps), n, Looping) && SameFinal(c, s, Run(c, s, steps), n)
    decreases PcRank(s.spinners[n].pc),
              match s.spinners[n].pc case Scanning(i) => |c.subs[n]| - i case Clearing(j) => |s.spinners[n].processed| - j
              case SyncRead => 1 case _ => 0
  {
    steps := [];
    if MidRound(s, n) {
      var step := RoundStep(n, s.spinners[n].pc);
      RoundStepFinal(c, s, n);
      var rest := FinishAlone(c, Next(c, s, step), n);
      steps := [step] + rest;
      assert steps[1..] == rest;
    }
  }

  /**
   * Left alone, a waiting node's round does in the protocol what SpinOnce does: every subscription whose bit was set
   * has one task more, made from the newest message, and exactly the subscribed bits and the reserved one are gone.
   */
  lemma {:induction false} UndisturbedRound(c: Config, s: State, n: nat) returns (steps: seq<Step>)
    requires Valid(c, s) && At(s, n, Waiting) && s.spinners[n].spinning
    ensures AllEnabled(c, s, steps) && Own(n, steps)
    ensures var r := Run(c, s, steps);
      && At(r, n, Looping) && r.bits == LeftAfterRound(c.subs[n], s.bits) && r.triggered == s.triggered
      && forall k | 0 <= k < |c.subs[n]| ::
           var hit := Hit(c.subs[n], s.bits, k);
           && r.spinners[n].delivered[k] == (if hit then Shown(s.segments[c.subs[n][k]], c.subs[n][k]) else s.spinners[n].delivered[k])
           && r.spinners[n].enqueued[k] == (if hit then s.spinners[n].enqueued[k] + 1 else s.spinners[n].enqueued[k])
  {
    ProcessedElements(c.subs[n], s.bits, 0);
    steps := FinishAlone(c, s, n);
    var r := Run(c, s, steps);
    assert c.subs[n][0..] == c.subs[n];
    assert r.bits == FinalBits(c.subs[n], r.spinners[n], r.bits);
    assert FinalBits(c.subs[n], s.spinners[n], s.bits) == LeftAfterRound(c.subs[n], s.bits);
    assert forall k | 0 <= k < |c.subs[n]| ::
             && FinalDelivered(c.subs[n], r.segments, r.spinners[n], r.bits, k) == r.spinners[n].delivered[k]
             && FinalEnqueued(c.subs[n], r.spinners[n], r.bits, k) == r.spinners[n].enqueued[k];
  }

  /**
   * So from every state in which nothing is lost, and the segment holds the newest message, the node's own round, with
   * no other step in between, hands every subscription to `e` the newest triggered message.
   */
  lemma {:induction false} RoundDelivers(c: Config, s: State, n: nat, e: nat) returns (steps: seq<Step>)
    requires Valid(c, s) && At(s, n, Waiting) && s.spinners[n].spinning && e < EVENTS
    requires NotLost(c, s, n, e) && Current(s, e)
    ensures AllEnabled(c, s, steps) && Own(n, steps)
    ensures var r := Run(c, s, steps);
      && At(r, n, Looping) && r.triggered == s.triggered
      && forall k | 0 <= k < |c.subs[n]| && c.subs[n][k] == e :: r.triggered[e] <= r.spinners[n].delivered[k]
  {
    steps := UndisturbedRound(c, s, n);
  }
}
