/** What every run of the spin protocol delivers: nothing lost outside one window, nothing twice. */
module SpinDelivery {
  import opened EventBits
  import opened PublisherLink
  import opened SpinProtocol

  ghost predicate AllEnabled(c: Config, s: State, steps: seq<Step>)
    requires Valid(c, s)
    decreases |steps|
  {
    steps == [] ||
    (Enabled(c, s, steps[0]) && Valid(c, Next(c, s, steps[0])) && AllEnabled(c, Next(c, s, steps[0]), steps[1..]))
  }

  ghost function Run(c: Config, s: State, steps: seq<Step>): (r: State)
    requires Valid(c, s) && AllEnabled(c, s, steps)
    ensures Valid(c, r)
    decreases |steps|
  {
    if steps == [] then s else Run(c, Next(c, s, steps[0]), steps[1..])
  }

  // ----- lost updates -----

  /** Every subscription of node `n` to `e` has been handed the newest triggered version, or the bit still tells. */
  ghost predicate NotLost(c: Config, s: State, n: nat, e: nat)
    requires Valid(c, s) && n < |c.subs| && e < EVENTS
  {
    e in s.bits || forall k | 0 <= k < |c.subs[n]| && c.subs[n][k] == e :: s.triggered[e] <= s.spinners[n].delivered[k]
  }

  /** This round of node `n` will clear the bit of `e` without copying its message for subscription `k` again. */
  ghost predicate Exposed(subs: seq<int>, t: Spinner, e: int, k: nat)
    requires ValidSpinner(subs, t) && k < |subs|
  {
    subs[k] == e &&
    match t.pc
    case Scanning(i) => e in t.processed && (k < i || !t.spinning)
    case Clearing(j) => e in t.processed[j..]
    case _ => false
  }

  /** A trigger that announces a message newer than what a subscription is left with in this round. */
  ghost predicate Late(c: Config, s: State, step: Step, n: nat, e: nat)
    requires Valid(c, s) && n < |c.subs| && Enabled(c, s, step)
  {
    && step.Trigger? && s.publishers[step.p].event == e
    && exists k | 0 <= k < |c.subs[n]| ::
         Exposed(c.subs[n], s.spinners[n], e, k) && s.spinners[n].delivered[k] < s.publishers[step.p].version
  }

  /** stop() in the middle of a round that has copied `e` for one subscription, and owes another a newer message. */
  ghost predicate Interrupts(c: Config, s: State, step: Step, n: nat, e: nat)
    requires Valid(c, s) && n < |c.subs| && e < EVENTS
  {
    var t := s.spinners[n];
    && step == Stop(n) && t.pc.Scanning? && e in t.processed
    && exists k | t.pc.i <= k < |c.subs[n]| :: c.subs[n][k] == e && t.delivered[k] < s.triggered[e]
  }

  /** A message of `e` that goes to another segment, or one of another event that goes to the segment of `e`. */
  ghost predicate Astray(c: Config, s: State, step: Step, e: int)
    requires Valid(c, s) && Enabled(c, s, step)
  {
    && step.Write?
    && var t := s.publishers[step.p];
    (t.event == e) != (s.links[t.o].segment == e)
  }

  /** Whoever the round leaves with what it has got has what was triggered; nobody is passed over before the first copy. */
  ghost predicate Served(subs: seq<int>, t: Spinner, e: int, triggered: nat)
    requires ValidSpinner(subs, t)
  {
    && (forall k | 0 <= k < |subs| && Exposed(subs, t, e, k) :: triggered <= t.delivered[k])
    && (t.pc.Scanning? && e in t.snapshot && e !in t.processed && e in subs[..t.pc.i] ==> !t.spinning)
  }

  /** The segment of `e` holds its newest message. */
  ghost predicate Current(s: State, e: nat)
    requires e < |s.segments| && e < |s.version|
  {
    Shown(s.segments[e], e) == s.version[e]
  }

  ghost predicate Keeps(c: Config, s: State, n: nat, e: nat)
    requires Valid(c, s) && n < |c.subs| && e < EVENTS
  {
    NotLost(c, s, n, e) && Current(s, e) && Served(c.subs[n], s.spinners[n], e, s.triggered[e])
  }

  /** No other node subscribes to `e`. */
  ghost predicate OnlySubscriber(c: Config, n: nat, e: int)
    requires n < |c.subs|
  {
    forall m | 0 <= m < |c.subs| && m != n :: e !in c.subs[m]
  }

  lemma VisitServed(subs: seq<int>, segments: seq<Segment>, t: Spinner, e: nat, triggered: nat)
    requires ValidSpinner(subs, t) && t.pc.Scanning? && |segments| == EVENTS && e < EVENTS
    requires triggered <= Shown(segments[e], e) && Served(subs, t, e, triggered)
    ensures ValidSpinner(subs, VisitSubscription(subs, segments, t))
    ensures Served(subs, VisitSubscription(subs, segments, t), e, triggered)
    ensures forall k | 0 <= k < |subs| && subs[k] == e ::
              triggered <= t.delivered[k] ==> triggered <= VisitSubscription(subs, segments, t).delivered[k]
  {
    var i, r := t.pc.i, VisitSubscription(subs, segments, t);
    VisitValid(subs, segments, t);
    if i < |subs| {
      assert subs[..i + 1] == subs[..i] + [subs[i]];
    } else {
      assert subs[..i] == subs;
    }
    forall k | 0 <= k < |subs| && Exposed(subs, r, e, k) ensures triggered <= r.delivered[k] {
      assert k < i ==> subs[..i][k] == subs[k];
      assert e in t.processed ==> k == i || Exposed(subs, t, e, k);
    }
  }

  /** Clearing the bit of `e` loses nothing: every subscription to it has been served in this round. */
  lemma ClearKeeps(c: Config, s: State, n: nat, e: nat)
    requires Valid(c, s) && n < |c.subs| && e < EVENTS && Enabled(c, s, Clear(n)) && Keeps(c, s, n, e)
    ensures Valid(c, Next(c, s, Clear(n))) && Keeps(c, Next(c, s, Clear(n)), n, e)
  {
    NextValid(c, s, Clear(n));
    var t := s.spinners[n];
    var j := t.pc.j;
    if j < |t.processed| {
      assert t.processed[j..] == [t.processed[j]] + t.processed[j + 1..];
      if t.processed[j] == e {
        forall k | 0 <= k < |c.subs[n]| && c.subs[n][k] == e ensures s.triggered[e] <= t.delivered[k] {
          assert Exposed(c.subs[n], t, e, k);
        }
      }
    }
  }

  lemma OwnStepKeeps(c: Config, s: State, step: Step, n: nat, e: nat)
    requires Valid(c, s) && Enabled(c, s, step) && n < |c.subs| && e < EVENTS && e != SYNC
    requires Keeps(c, s, n, e) && !Interrupts(c, s, step, n, e)
    requires !IsPublisherStep(step) && step.n == n
    ensures Valid(c, Next(c, s, step)) && Keeps(c, Next(c, s, step), n, e)
  {
    NextValid(c, s, step);
    if step.Clear? {
      ClearKeeps(c, s, n, e);
    } else if step.Visit? {
      VisitServed(c.subs[n], s.segments, s.spinners[n], e, s.triggered[e]);
    }
  }

  lemma OtherNodeKeeps(c: Config, s: State, step: Step, n: nat, e: nat)
    requires Valid(c, s) && Enabled(c, s, step) && n < |c.subs| && e < EVENTS && e != SYNC
    requires Keeps(c, s, n, e) && OnlySubscriber(c, n, e)
    requires !IsPublisherStep(step) && step.n != n
    ensures Valid(c, Next(c, s, step)) && Keeps(c, Next(c, s, step), n, e)
  {
    NextValid(c, s, step);
  }

  lemma WriteKeeps(c: Config, s: State, p: nat, n: nat, e: nat)
    requires Valid(c, s) && Enabled(c, s, Write(p)) && n < |c.subs| && e < EVENTS
    requires Keeps(c, s, n, e) && !Astray(c, s, Write(p), e)
    ensures Valid(c, Next(c, s, Write(p))) && Keeps(c, Next(c, s, Write(p)), n, e)
  {
    NextValid(c, s, Write(p));
  }

  lemma PublisherKeeps(c: Config, s: State, step: Step, n: nat, e: nat)
    requires Valid(c, s) && Enabled(c, s, step) && n < |c.subs| && e < EVENTS
    requires Keeps(c, s, n, e) && !Late(c, s, step, n, e) && !Astray(c, s, step, e) && IsPublisherStep(step)
    ensures Valid(c, Next(c, s, step)) && Keeps(c, Next(c, s, step), n, e)
  {
    NextValid(c, s, step);
    if step.Write? {
      WriteKeeps(c, s, step.p, n, e);
    }
  }

  /** A step that loses a message of `e` for node `n`: a late trigger, a stop between two copies, a message gone astray. */
  ghost predicate Harms(c: Config, s: State, step: Step, n: nat, e: nat)
    requires Valid(c, s) && Enabled(c, s, step) && n < |c.subs| && e < EVENTS
  {
    Late(c, s, step, n, e) || Interrupts(c, s, step, n, e) || Astray(c, s, step, e)
  }

  /** No other step loses anything. */
  lemma StepKeeps(c: Config, s: State, step: Step, n: nat, e: nat)
    requires Valid(c, s) && Enabled(c, s, step) && n < |c.subs| && e < EVENTS && e != SYNC
    requires Keeps(c, s, n, e) && OnlySubscriber(c, n, e) && !Harms(c, s, step, n, e)
    ensures Valid(c, Next(c, s, step)) && Keeps(c, Next(c, s, step), n, e)
  {
    if IsPublisherStep(step) {
      PublisherKeeps(c, s, step, n, e);
    } else if step.n == n {
      OwnStepKeeps(c, s, step, n, e);
    } else {
      OtherNodeKeeps(c, s, step, n, e);
    }
  }

  /** In no state of the run does a step lose a message of `e` for node `n`. */
  ghost predicate Quiet(c: Config, s: State, steps: seq<Step>, n: nat, e: nat)
    requires Valid(c, s) && AllEnabled(c, s, steps) && n < |c.subs| && e < EVENTS
    decreases |steps|
  {
    steps == [] || (!Harms(c, s, steps[0], n, e) && Quiet(c, Next(c, s, steps[0]), steps[1..], n, e))
  }

  lemma {:induction false} RunKeeps(c: Config, s: State, steps: seq<Step>, n: nat, e: nat)
    requires Valid(c, s) && AllEnabled(c, s, steps) && n < |c.subs| && e < EVENTS && e != SYNC
    requires Keeps(c, s, n, e) && OnlySubscriber(c, n, e) && Quiet(c, s, steps, n, e)
    ensures Keeps(c, Run(c, s, steps), n, e)
    decreases |steps|
  {
    if steps != [] {
      StepKeeps(c, s, steps[0], n, e);
      RunKeeps(c, Next(c, s, steps[0]), steps[1..], n, e);
    }
  }

  lemma InitialKeeps(c: Config, threads: nat, present: set<int>, n: nat, e: nat)
    requires ValidConfig(c) && n < |c.subs| && e < EVENTS
    ensures Keeps(c, Initial(c, threads, present), n, e)
  {
  }

  /**
   * With one subscribing node, whatever processes the publishers run in, a message can be lost only by a trigger
   * in the window between the round's copies and its clear, by stop() between two copies, or on its way to a segment.
   */
  lemma {:induction false} LossIsConfined(c: Config, threads: nat, present: set<int>, steps: seq<Step>, n: nat, e: nat)
    requires ValidConfig(c) && n < |c.subs| && e < EVENTS && e != SYNC && OnlySubscriber(c, n, e)
    requires AllEnabled(c, Initial(c, threads, present), steps)
    requires Quiet(c, Initial(c, threads, present), steps, n, e)
    ensures NotLost(c, Run(c, Initial(c, threads, present), steps), n, e)
  {
    InitialKeeps(c, threads, present, n, e);
    RunKeeps(c, Initial(c, threads, present), steps, n, e);
  }

  // ----- in process, with one event per object -----

  /** Every object used for `e` belongs to node `n`. */
  ghost predicate Local(c: Config, n: nat, e: int) {
    forall o | 0 <= o < |c.objects| && e in c.objects[o].events :: c.objects[o].node == n
  }

  /** Every object used for `e` is used for nothing else. */
  ghost predicate Dedicated(c: Config, e: int) {
    forall o | 0 <= o < |c.objects| && e in c.objects[o].events :: c.objects[o].events == {e}
  }

  /** The node subscribes to `e` at most once. */
  ghost predicate Once(c: Config, n: nat, e: int)
    requires n < |c.subs|
  {
    forall j, k | 0 <= j < k < |c.subs[n]| :: c.subs[n][j] != e || c.subs[n][k] != e
  }

  /** A trigger through the node's own manager waits for the registry mutex, so it is never late. */
  lemma LocalNeverLate(c: Config, s: State, step: Step, n: nat, e: nat)
    requires Valid(c, s) && n < |c.subs| && Enabled(c, s, step) && Local(c, n, e)
    ensures !Late(c, s, step, n, e)
  {
  }

  /** An object used for one event has the segment of that event, if any. */
  lemma DedicatedNeverAstray(c: Config, s: State, step: Step, e: int)
    requires Valid(c, s) && Enabled(c, s, step) && Dedicated(c, e)
    ensures !Astray(c, s, step, e)
  {
  }

  lemma OnceNeverInterrupts(c: Config, s: State, step: Step, n: nat, e: nat)
    requires Valid(c, s) && n < |c.subs| && e < EVENTS && Once(c, n, e)
    ensures !Interrupts(c, s, step, n, e)
  {
  }

  /** The node is not stopped between two copies of one message. */
  ghost predicate Uninterrupted(c: Config, s: State, steps: seq<Step>, n: nat, e: nat)
    requires Valid(c, s) && AllEnabled(c, s, steps) && n < |c.subs| && e < EVENTS
    decreases |steps|
  {
    steps == [] ||
    (!Interrupts(c, s, steps[0], n, e) && Uninterrupted(c, Next(c, s, steps[0]), steps[1..], n, e))
  }

  lemma {:induction false} OnceUninterrupted(c: Config, s: State, steps: seq<Step>, n: nat, e: nat)
    requires Valid(c, s) && AllEnabled(c, s, steps) && n < |c.subs| && e < EVENTS && Once(c, n, e)
    ensures Uninterrupted(c, s, steps, n, e)
    decreases |steps|
  {
    if steps != [] {
      OnceNeverInterrupts(c, s, steps[0], n, e);
      OnceUninterrupted(c, Next(c, s, steps[0]), steps[1..], n, e);
    }
  }

  lemma {:induction false} LocalQuiet(c: Config, s: State, steps: seq<Step>, n: nat, e: nat)
    requires Valid(c, s) && AllEnabled(c, s, steps) && n < |c.subs| && e < EVENTS
    requires Local(c, n, e) && Dedicated(c, e) && Uninterrupted(c, s, steps, n, e)
    ensures Quiet(c, s, steps, n, e)
    decreases |steps|
  {
    if steps != [] {
      LocalNeverLate(c, s, steps[0], n, e);
      DedicatedNeverAstray(c, s, steps[0], e);
      LocalQuiet(c, Next(c, s, steps[0]), steps[1..], n, e);
    }
  }

  /**
   * In process, where the publisher objects of `e` share the manager of its subscriber and are used for no other event,
   * no update is ever lost unless stop() comes between two copies: the subscriptions have the newest triggered message,
   * or the bit is still set.
   */
  lemma {:induction false} NoLostUpdate(c: Config, threads: nat, present: set<int>, steps: seq<Step>, n: nat, e: nat)
    requires ValidConfig(c) && n < |c.subs| && e < EVENTS && e != SYNC && OnlySubscriber(c, n, e)
    requires Local(c, n, e) && Dedicated(c, e)
    requires AllEnabled(c, Initial(c, threads, present), steps)
    requires Uninterrupted(c, Initial(c, threads, present), steps, n, e)
    ensures NotLost(c, Run(c, Initial(c, threads, present), steps), n, e)
  {
    LocalQuiet(c, Initial(c, threads, present), steps, n, e);
    LossIsConfined(c, threads, present, steps, n, e);
  }

  // ----- selective clearing -----

  /** A step takes a bit away only from the reserved event or from one its round has processed. */
  lemma ClearsOnlyProcessed(c: Config, s: State, step: Step, e: int)
    requires Valid(c, s) && Enabled(c, s, step)
    requires e in s.bits && e !in Next(c, s, step).bits && e != SYNC
    ensures step.Clear? && e in s.spinners[step.n].processed && e in s.spinners[step.n].snapshot && e in c.subs[step.n]
  {
  }

  // ----- spurious deliveries -----

  /** The bit tells node `n` of a trigger that subscription `k` has not yet had a task for. */
  ghost predicate Owed(subs: seq<int>, t: Spinner, bits: set<int>, k: nat)
    requires ValidSpinner(subs, t) && k < |subs|
  {
    || (subs[k] in bits && !(t.pc.Scanning? && subs[k] in t.processed) && !(t.pc.Clearing? && subs[k] in t.processed[t.pc.j..]))
    || (t.pc.Scanning? && t.pc.i <= k && subs[k] in t.snapshot)
    || ((t.pc.Woken? || t.pc.Locking?) && subs[k] in t.snapshot)
  }

  ghost predicate Earned(c: Config, s: State, n: nat, k: nat)
    requires Valid(c, s) && n < |c.subs| && k < |c.subs[n]| && IsEvent(c.subs[n][k])
  {
    && s.spinners[n].enqueued[k] <= s.triggers[c.subs[n][k]]
    && (Owed(c.subs[n], s.spinners[n], s.bits, k) ==> s.spinners[n].enqueued[k] < s.triggers[c.subs[n][k]])
  }

  /** Serving a subscription, or clearing the bit, settles what was owed. */
  lemma OwnStepEarned(c: Config, s: State, step: Step, n: nat, k: nat)
    requires Valid(c, s) && Enabled(c, s, step) && n < |c.subs| && k < |c.subs[n]| && IsEvent(c.subs[n][k]) && Earned(c, s, n, k)
    requires !IsPublisherStep(step) && step.n == n
    ensures Valid(c, Next(c, s, step)) && Earned(c, Next(c, s, step), n, k)
  {
    NextValid(c, s, step);
    var t := s.spinners[n];
    if step.Clear? && t.pc.j < |t.processed| {
      assert t.processed[t.pc.j..] == [t.processed[t.pc.j]] + t.processed[t.pc.j + 1..];
    }
  }

  lemma OtherStepEarned(c: Config, s: State, step: Step, n: nat, k: nat)
    requires Valid(c, s) && Enabled(c, s, step) && n < |c.subs| && k < |c.subs[n]| && IsEvent(c.subs[n][k]) && Earned(c, s, n, k)
    requires IsPublisherStep(step) || step.n != n
    ensures Valid(c, Next(c, s, step)) && Earned(c, Next(c, s, step), n, k)
  {
    NextValid(c, s, step);
  }

  lemma StepEarned(c: Config, s: State, step: Step, n: nat, k: nat)
    requires Valid(c, s) && Enabled(c, s, step) && n < |c.subs| && k < |c.subs[n]| && IsEvent(c.subs[n][k]) && Earned(c, s, n, k)
    ensures Valid(c, Next(c, s, step)) && Earned(c, Next(c, s, step), n, k)
  {
    if IsPublisherStep(step) || step.n != n {
      OtherStepEarned(c, s, step, n, k);
    } else {
      OwnStepEarned(c, s, step, n, k);
    }
  }

  lemma {:induction false} RunEarned(c: Config, s: State, steps: seq<Step>, n: nat, k: nat)
    requires Valid(c, s) && AllEnabled(c, s, steps) && n < |c.subs| && k < |c.subs[n]| && IsEvent(c.subs[n][k]) && Earned(c, s, n, k)
    ensures Earned(c, Run(c, s, steps), n, k)
    decreases |steps|
  {
    if steps != [] {
      StepEarned(c, s, steps[0], n, k);
      RunEarned(c, Next(c, s, steps[0]), steps[1..], n, k);
    }
  }

  /** However many nodes spin and publish, a subscription never has more tasks than its event has had triggers. */
  lemma {:induction false} NoSpuriousDelivery(c: Config, threads: nat, present: set<int>, steps: seq<Step>, n: nat, k: nat)
    requires ValidConfig(c) && n < |c.subs| && k < |c.subs[n]| && IsEvent(c.subs[n][k])
    requires AllEnabled(c, Initial(c, threads, present), steps)
    ensures var r := Run(c, Initial(c, threads, present), steps); r.spinners[n].enqueued[k] <= r.triggers[c.subs[n][k]]
  {
    RunEarned(c, Initial(c, threads, present), steps, n, k);
  }

  // ----- the window is really one -----

  /** Node `m` is in a round that will leave the bit of `e` cleared. */
  ghost predicate WillClear(subs: seq<int>, t: Spinner, bits: set<int>, e: int)
    requires ValidSpinner(subs, t)
  {
    match t.pc
    case Scanning(i) => e in t.processed
    case Clearing(j) => e in t.processed[j..] || e !in bits
    case Unlocked => e !in bits
    case _ => false
  }

  /** Subscription `k` of node `n` has an old message, and the round of node `m` clears the bit without serving it. */
  ghost predicate Doomed(c: Config, s: State, n: nat, k: nat, m: nat, e: nat)
    requires Valid(c, s) && n < |c.subs| && k < |c.subs[n]| && m < |c.subs| && e < EVENTS
  {
    && c.subs[n][k] == e && s.spinners[n].delivered[k] < s.triggered[e]
    && WillClear(c.subs[m], s.spinners[m], s.bits, e)
    && (m == n && s.spinners[n].pc.Scanning? ==> k < s.spinners[n].pc.i || !s.spinners[n].spinning)
  }

  lemma RoundStepDoomed(c: Config, s: State, step: Step, n: nat, k: nat, m: nat, e: nat)
    requires Valid(c, s) && n < |c.subs| && k < |c.subs[n]| && m < |c.subs| && e < EVENTS && Doomed(c, s, n, k, m, e)
    requires Enabled(c, s, step) && (step == Visit(m) || step == Clear(m))
    ensures Valid(c, Next(c, s, step)) && Doomed(c, Next(c, s, step), n, k, m, e)
    ensures m != n ==> Next(c, s, step).spinners[n] == s.spinners[n]
  {
    NextValid(c, s, step);
    var t := s.spinners[m];
    if step.Clear? && t.pc.j < |t.processed| {
      assert t.processed[t.pc.j..] == [t.processed[t.pc.j]] + t.processed[t.pc.j + 1..];
    }
  }

  /** The rest of the round of node `m`, with nothing in between. */
  lemma {:induction false} FinishRound(c: Config, s: State, n: nat, k: nat, m: nat, e: nat) returns (steps: seq<Step>)
    requires Valid(c, s) && n < |c.subs| && k < |c.subs[n]| && m < |c.subs| && e < EVENTS && Doomed(c, s, n, k, m, e)
    ensures AllEnabled(c, s, steps) && forall step | step in steps :: step == Visit(m) || step == Clear(m)
    ensures !NotLost(c, Run(c, s, steps), n, e)
    ensures m != n ==> Run(c, s, steps).spinners[n] == s.spinners[n]
    decreases if Held(s, m) then 1 else 0, if s.spinners[m].pc.Scanning? then 1 else 0,
              match s.spinners[m].pc case Scanning(i) => |c.subs[m]| - i case Clearing(j) => |s.spinners[m].processed| - j case _ => 0
  {
    steps := [];
    if Held(s, m) {
      var step := if s.spinners[m].pc.Scanning? then Visit(m) else Clear(m);
      RoundStepDoomed(c, s, step, n, k, m, e);
      var rest := FinishRound(c, Next(c, s, step), n, k, m, e);
      steps := [step] + rest;
      assert steps[1..] == rest;
    }
  }

  /** A late trigger loses its message: once the node has finished the round, the bit is gone and the copy is old. */
  lemma {:induction false} LateTriggerLoses(c: Config, s: State, p: nat, n: nat, e: nat) returns (steps: seq<Step>)
    requires Valid(c, s) && n < |c.subs| && e < EVENTS && Enabled(c, s, Trigger(p)) && Late(c, s, Trigger(p), n, e)
    ensures Valid(c, Next(c, s, Trigger(p))) && AllEnabled(c, Next(c, s, Trigger(p)), steps)
    ensures forall step | step in steps :: step == Visit(n) || step == Clear(n)
    ensures !NotLost(c, Run(c, Next(c, s, Trigger(p)), steps), n, e)
  {
    NextValid(c, s, Trigger(p));
    var k :| 0 <= k < |c.subs[n]| && Exposed(c.subs[n], s.spinners[n], e, k)
             && s.spinners[n].delivered[k] < s.publishers[p].version;
    steps := FinishRound(c, Next(c, s, Trigger(p)), n, k, n, e);
  }

  /** So does a stop between two copies: the bit goes, and the rest of the subscriptions keep what they have. */
  lemma {:induction false} InterruptLoses(c: Config, s: State, n: nat, e: nat) returns (steps: seq<Step>)
    requires Valid(c, s) && n < |c.subs| && e < EVENTS && Interrupts(c, s, Stop(n), n, e)
    ensures Valid(c, Next(c, s, Stop(n))) && AllEnabled(c, Next(c, s, Stop(n)), steps)
    ensures forall step | step in steps :: step == Visit(n) || step == Clear(n)
    ensures !NotLost(c, Run(c, Next(c, s, Stop(n)), steps), n, e)
  {
    NextValid(c, s, Stop(n));
    var k :| s.spinners[n].pc.i <= k < |c.subs[n]| && c.subs[n][k] == e && s.spinners[n].delivered[k] < s.triggered[e];
    steps := FinishRound(c, Next(c, s, Stop(n)), n, k, n, e);
  }

  /**
   * A publish of `e` puts its message into the segment of `e` exactly when its object was first used for `e`, or is
   * unused while there is no such segment.
   */
  lemma GoesToItsSegmentIff(c: Config, s: State, p: nat, o: nat, e: nat)
    requires Valid(c, s) && e < EVENTS && Enabled(c, s, Open(p, o, e))
    ensures var t := Next(c, s, Open(p, o, e));
      && Valid(c, t)
      && ((Enabled(c, t, Write(p)) && Next(c, t, Write(p)).segments[e] == Message(e, s.version[e] + 1))
          <==> s.links[o] == Mapped(e) || (s.links[o].Unused? && s.segments[e].Absent?))
  {
    NextValid(c, s, Open(p, o, e));
  }

  /** A message of `e` through an object attached elsewhere leaves the segment of `e` as it was, and still sets its bit. */
  lemma SecondEventUnheard(c: Config, s: State, p: nat)
    requires Valid(c, s) && Enabled(c, s, Write(p)) && s.links[s.publishers[p].o].segment != s.publishers[p].event
    requires !Held(s, c.objects[s.publishers[p].o].node)
    ensures var e, w := s.publishers[p].event, Next(c, s, Write(p));
      && Valid(c, w) && Enabled(c, w, Trigger(p)) && Valid(c, Next(c, w, Trigger(p)))
      && var r := Next(c, w, Trigger(p));
      && e in r.bits && r.segments[e] == s.segments[e] && Shown(r.segments[e], e) < r.triggered[e]
  {
    NextValid(c, s, Write(p));
    NextValid(c, Next(c, s, Write(p)), Trigger(p));
  }
}
