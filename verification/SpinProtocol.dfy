/**
 * Publishers, the shared event bits and the spin loops as a machine with one step per lock-protected section.
 * Every node owns one ShmManager, so node numbers also name registry mutexes.
 */
module SpinProtocol {
  import opened EventBits
  import opened PublisherLink

  /** Where a spin loop is; it holds its registry mutex while scanning and clearing. */
  datatype Pc =
    | Stopped
    | Looping
    | Waiting
    | Woken
    | Locking
    | Scanning(i: nat)
    | Clearing(j: nat)
    | Unlocked
    | SyncRead

  // `delivered` and `enqueued` record, per subscription, the version last copied and the number of tasks enqueued.
  datatype Spinner = Spinner(pc: Pc, spinning: bool, snapshot: set<int>, processed: seq<int>,
                             delivered: seq<nat>, enqueued: seq<nat>)

  // A thread inside publish of object `o`: attached to a segment, or with its message written and still to be triggered.
  datatype Publisher = Idle | Opened(o: nat, event: int) | Written(o: nat, event: int, version: nat)

  // The segment of one event: not there, created, or with the last message written to it, of whatever event.
  datatype Segment = Absent | Blank | Message(event: int, version: nat)

  // `version` counts the messages written per event, `triggered` is the newest one announced by a trigger,
  // and `triggers` counts the triggers.
  datatype State = State(bits: set<int>, spinners: seq<Spinner>, publishers: seq<Publisher>,
                         links: seq<Link<int>>, segments: seq<Segment>,
                         version: seq<nat>, triggered: seq<nat>, triggers: seq<nat>)

  // A publisher object: the node whose manager it triggers through, and the events it is used for.
  datatype Object = Object(node: nat, events: set<int>)

  // subscription_event_ids_ of each node, and the publisher objects.
  datatype Config = Config(subs: seq<seq<int>>, objects: seq<Object>)

  ghost predicate ValidConfig(c: Config) {
    forall o | 0 <= o < |c.objects| ::
      c.objects[o].node < |c.subs| && forall e | e in c.objects[o].events :: IsEvent(e)
  }

  datatype Step =
    | Open(p: nat, o: nat, event: int)
    | Write(p: nat)
    | Reject(p: nat)
    | Trigger(p: nat)
    | RemoveNode(n: nat)
    | Start(n: nat)
    | Stop(n: nat)
    | Loop(n: nat)
    | Wait(n: nat)
    | Check(n: nat)
    | Lock(n: nat)
    | Visit(n: nat)
    | Clear(n: nat)
    | Sync(n: nat)
    | ClearSync(n: nat)

  // The steps that publishing threads and removeNode take; all others belong to a spin loop.
  predicate IsPublisherStep(step: Step) {
    step.Open? || step.Write? || step.Reject? || step.Trigger? || step.RemoveNode?
  }

  ghost predicate Held(s: State, n: nat)
    requires n < |s.spinners|
  {
    s.spinners[n].pc.Scanning? || s.spinners[n].pc.Clearing?
  }

  /** A node spins with its subscriptions in place, and none can be made before its segment exists. */
  ghost predicate Subscribed(subs: seq<int>, segments: seq<Segment>)
    requires |segments| == EVENTS
  {
    forall e | e in subs && IsEvent(e) :: !segments[e].Absent?
  }

  ghost predicate Enabled(c: Config, s: State, step: Step)
    requires Valid(c, s)
  {
    match step
    case Open(p, o, event) =>
      p < |s.publishers| && s.publishers[p].Idle? && o < |c.objects| && event in c.objects[o].events
    case Write(p) => p < |s.publishers| && s.publishers[p].Opened?
    case Reject(p) => p < |s.publishers| && s.publishers[p].Opened?
    case Trigger(p) =>
      p < |s.publishers| && s.publishers[p].Written? && !Held(s, c.objects[s.publishers[p].o].node)
    case RemoveNode(n) => n < |s.spinners| && !Held(s, n)
    case Start(n) => At(s, n, Stopped) && Subscribed(c.subs[n], s.segments)
    case Stop(n) => n < |s.spinners|
    case Loop(n) => At(s, n, Looping)
    case Wait(n) => At(s, n, Waiting)
    case Check(n) => At(s, n, Woken)
    case Lock(n) => At(s, n, Locking)
    case Visit(n) => n < |s.spinners| && s.spinners[n].pc.Scanning?
    case Clear(n) => n < |s.spinners| && s.spinners[n].pc.Clearing?
    case Sync(n) => At(s, n, Unlocked)
    case ClearSync(n) => At(s, n, SyncRead)
  }

  ghost predicate At(s: State, n: nat, pc: Pc) {
    n < |s.spinners| && s.spinners[n].pc == pc
  }

  /** The bookkeeping is well-formed, and a round processes only subscribed events of its snapshot. */
  ghost predicate Valid(c: Config, s: State) {
    && ValidConfig(c)
    && |s.spinners| == |c.subs| && |s.links| == |c.objects|
    && |s.segments| == |s.version| == |s.triggered| == |s.triggers| == EVENTS
    && (forall n | 0 <= n < |c.subs| :: ValidSpinner(c.subs[n], s.spinners[n]))
    && (forall o | 0 <= o < |s.links| && s.links[o].Mapped? :: s.links[o].segment in c.objects[o].events)
    && (forall p | 0 <= p < |s.publishers| :: ValidPublisher(c, s.links, s.version, s.publishers[p]))
    && (forall e | 0 <= e < EVENTS :: s.triggered[e] <= s.version[e])
    && (forall g | 0 <= g < EVENTS && s.segments[g].Message? ::
          IsEvent(s.segments[g].event) && s.segments[g].version <= s.version[s.segments[g].event])
  }

  ghost predicate ValidPublisher(c: Config, links: seq<Link<int>>, version: seq<nat>, t: Publisher)
    requires ValidConfig(c) && |links| == |c.objects| && |version| == EVENTS
  {
    t.Idle? ||
    (&& t.o < |c.objects| && t.event in c.objects[t.o].events && links[t.o].Mapped?
     && (t.Written? ==> t.version <= version[t.event]))
  }

  ghost predicate ValidSpinner(subs: seq<int>, t: Spinner) {
    && |t.delivered| == |t.enqueued| == |subs|
    && (t.pc.Scanning? ==> t.pc.i <= |subs|)
    && (t.pc.Clearing? ==> t.pc.j <= |t.processed|)
    && (t.pc.Scanning? || t.pc.Clearing? ==> forall e | e in t.processed :: IsEvent(e) && e in subs && e in t.snapshot)
    && (t.pc.Scanning? ==> forall e | e in t.processed :: e in subs[..t.pc.i])
  }

  /** Nothing has happened, save that `present` are the segments of publishers outside this machine. */
  ghost function Initial(c: Config, threads: nat, present: set<int>): (s: State)
    requires ValidConfig(c)
    ensures Valid(c, s)
  {
    State({}, seq(|c.subs|, n requires 0 <= n < |c.subs| => InitialSpinner(|c.subs[n]|)), seq(threads, _ => Idle),
          seq(|c.objects|, _ => Unused), seq(EVENTS, e => if e in present then Blank else Absent),
          Zeros(EVENTS), Zeros(EVENTS), Zeros(EVENTS))
  }

  function Zeros(n: nat): seq<nat> {
    seq(n, _ => 0)
  }

  function InitialSpinner(subs: nat): Spinner {
    Spinner(Stopped, false, {}, [], Zeros(subs), Zeros(subs))
  }

  /** The version of `e` that a copy of its segment yields: none if the message there is of another event. */
  function Shown(segment: Segment, e: int): nat {
    if segment.Message? && segment.event == e then segment.version else 0
  }

  /** The subscription loop at index `i`: copy the message and enqueue its task if the bit was set, then go on. */
  function VisitSubscription(subs: seq<int>, segments: seq<Segment>, t: Spinner): Spinner
    requires ValidSpinner(subs, t) && t.pc.Scanning? && |segments| == EVENTS
  {
    var i := t.pc.i;
    if i == |subs| then t.(pc := Clearing(0))
    else if IsEvent(subs[i]) && subs[i] in t.snapshot && t.spinning then
      t.(pc := Scanning(i + 1), processed := t.processed + [subs[i]],
         delivered := t.delivered[i := Shown(segments[subs[i]], subs[i])], enqueued := t.enqueued[i := t.enqueued[i] + 1])
    else t.(pc := Scanning(i + 1))
  }

  /** What a step does to the spin loop of the node that takes it. */
  function StepSpinner(subs: seq<int>, s: State, t: Spinner, step: Step): Spinner
    requires ValidSpinner(subs, t) && |s.segments| == EVENTS
    requires step.Visit? ==> t.pc.Scanning?
    requires step.Clear? ==> t.pc.Clearing?
  {
    match step
    case Start(_) => t.(pc := Looping, spinning := true)
    case Stop(_) => t.(spinning := false)
    case Loop(_) => t.(pc := if t.spinning then Waiting else Stopped)
    case Wait(_) => t.(pc := Woken, snapshot := s.bits)
    case Check(_) => t.(pc := if t.spinning then Locking else Stopped)
    case Lock(_) => t.(pc := if t.snapshot == {} then Clearing(0) else Scanning(0), processed := [])
    case Visit(_) => VisitSubscription(subs, s.segments, t)
    case Clear(_) => t.(pc := if t.pc.j == |t.processed| then Unlocked else Clearing(t.pc.j + 1))
    case Sync(_) => t.(pc := if SYNC in t.snapshot then SyncRead else Looping)
    case ClearSync(_) => t.(pc := Looping)
    case _ => t
  }

  /** What a step does to the shared bits. */
  function StepBits(s: State, step: Step): set<int>
    requires step.Trigger? ==> step.p < |s.publishers| && s.publishers[step.p].Written?
    requires step.Clear? ==> step.n < |s.spinners| && s.spinners[step.n].pc.Clearing?
  {
    match step
    case Trigger(p) => s.bits + {s.publishers[p].event}
    case RemoveNode(_) => s.bits + {SYNC}
    case Clear(n) =>
      var t := s.spinners[n];
      if t.pc.j < |t.processed| then s.bits - {t.processed[t.pc.j]} else s.bits
    case ClearSync(_) => s.bits - {SYNC}
    case _ => s.bits
  }

  function Max(a: nat, b: nat): nat {
    if a < b then b else a
  }

  ghost function Next(c: Config, s: State, step: Step): (r: State)
    requires Valid(c, s) && Enabled(c, s, step)
  {
    var s := s.(bits := StepBits(s, step));
    match step
    case Open(p, o, e) =>
      var link := Attach(s.links[o], !s.segments[e].Absent?, e);
      s.(links := s.links[o := link], segments := if s.segments[e].Absent? && s.links[o].Unused? then s.segments[e := Blank] else s.segments,
         publishers := s.publishers[p := if link.Mapped? then Opened(o, e) else Idle])
    case Write(p) =>
      var o, e := s.publishers[p].o, s.publishers[p].event;
      var v := s.version[e] + 1;
      s.(version := s.version[e := v], segments := s.segments[s.links[o].segment := Message(e, v)],
         publishers := s.publishers[p := Written(o, e, v)])
    case Reject(p) => s.(publishers := s.publishers[p := Idle])
    case Trigger(p) =>
      var e, v := s.publishers[p].event, s.publishers[p].version;
      s.(publishers := s.publishers[p := Idle], triggered := s.triggered[e := Max(s.triggered[e], v)],
         triggers := s.triggers[e := s.triggers[e] + 1])
    case RemoveNode(n) => s.(triggers := s.triggers[SYNC := s.triggers[SYNC] + 1])
    case _ => s.(spinners := s.spinners[step.n := StepSpinner(c.subs[step.n], s, s.spinners[step.n], step)])
  }

  lemma VisitValid(subs: seq<int>, segments: seq<Segment>, t: Spinner)
    requires ValidSpinner(subs, t) && t.pc.Scanning? && |segments| == EVENTS
    ensures ValidSpinner(subs, VisitSubscription(subs, segments, t))
  {
    var i := t.pc.i;
    assert i < |subs| ==> subs[..i + 1] == subs[..i] + [subs[i]];
  }

  lemma PublisherStepValid(c: Config, s: State, step: Step)
    requires Valid(c, s) && Enabled(c, s, step) && IsPublisherStep(step)
    ensures Valid(c, Next(c, s, step))
  {
  }

  lemma LoopStepValid(c: Config, s: State, step: Step)
    requires Valid(c, s) && Enabled(c, s, step) && !IsPublisherStep(step)
    ensures ValidSpinner(c.subs[step.n], StepSpinner(c.subs[step.n], s, s.spinners[step.n], step))
  {
    if step.Visit? {
      VisitValid(c.subs[step.n], s.segments, s.spinners[step.n]);
    }
  }

  /** Every step keeps the bookkeeping. */
  lemma NextValid(c: Config, s: State, step: Step)
    requires Valid(c, s) && Enabled(c, s, step)
    ensures Valid(c, Next(c, s, step))
  {
    if IsPublisherStep(step) {
      PublisherStepValid(c, s, step);
    } else {
      LoopStepValid(c, s, step);
    }
  }
}
