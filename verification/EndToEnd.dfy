/** From publish to callback: what a subscriber holds after a run, in the JSON of the messages themselves. */
module EndToEnd {
  import opened JsonValues
  import opened JsonPrinter
  import opened JsonParser
  import opened JsonPrinted
  import opened JsonTheorems
  import opened EventBits
  import opened SpinProtocol
  import opened SpinDelivery
  import opened SpinExact
  import opened Messages
  import opened MessageDelivery

  /** The step by which node `n` copies the message of its subscription `k`. */
  ghost predicate Copies(c: Config, s: State, step: Step, n: nat, k: nat)
    requires Valid(c, s) && n < |c.subs| && k < |c.subs[n]|
  {
    var t := s.spinners[n];
    step == Visit(n) && t.pc == Scanning(k) && t.spinning && IsEvent(c.subs[n][k]) && c.subs[n][k] in t.snapshot
  }

  /** What a copy makes of the message held, when the segment has version `d` of the messages `vs`. */
  ghost function Copied(vs: seq<Json>, d: nat, msg: Json, format: Format, stod: Stod): Json {
    if 0 < d <= |vs| && FitFirst(vs[..d], format) then Received(Region(vs[..d], format), msg, format, stod) else msg
  }

  /** The message that the subscriber holds after a run: every copy reads its segment as it then is. */
  ghost function Heard(c: Config, s: State, steps: seq<Step>, n: nat, k: nat, vs: seq<Json>, msg: Json, format: Format, stod: Stod): Json
    requires Valid(c, s) && AllEnabled(c, s, steps) && n < |c.subs| && k < |c.subs[n]|
    decreases |steps|
  {
    if steps == [] then msg
    else
      var e := c.subs[n][k];
      var now := if Copies(c, s, steps[0], n, k) then Copied(vs, Shown(s.segments[e], e), msg, format, stod) else msg;
      Heard(c, Next(c, s, steps[0]), steps[1..], n, k, vs, now, format, stod)
  }

  /** Messages that fit the segment of the first, none of them a number. */
  ghost predicate Texts(vs: seq<Json>, format: Format, stod: Stod) {
    && WritesNumbers(format) && FitFirst(vs, format)
    && forall i | 0 <= i < |vs| :: Stable(vs[i], format, stod) && !vs[i].Int? && !vs[i].Double?
  }

  /** What a subscriber of these messages can hold: null at first, or one as long as the segment. */
  ghost predicate Fitting(vs: seq<Json>, msg: Json, format: Format)
    requires vs != []
  {
    msg == Null || |Print(msg, format)| == |Print(vs[0], format)| >= 4
  }

  /** Message number `d` is as long as the first and has at least four characters: one that a subscriber receives. */
  ghost predicate Receivable(vs: seq<Json>, d: nat, format: Format)
    requires 0 < d <= |vs|
  {
    |Print(vs[d - 1], format)| == |Print(vs[0], format)| >= 4
  }

  lemma CopiedIs(vs: seq<Json>, d: nat, msg: Json, format: Format, stod: Stod)
    requires Texts(vs, format, stod) && 0 < d <= |vs| && Fitting(vs, msg, format)
    ensures Copied(vs, d, msg, format, stod) == if Receivable(vs, d, format) then vs[d - 1] else msg
  {
    var us := vs[..d];
    assert FitFirst(us, format);
    assert us[|us| - 1] == vs[d - 1] && us[0] == vs[0];
    assert |Print(Null, format)| == 4;
    DeliveredIff(us, msg, format, stod);
  }

  /** The held message agrees with `d`, the version last copied, of `written` versions. */
  ghost predicate Agrees(d: nat, written: nat, vs: seq<Json>, msg: Json, format: Format) {
    && vs != [] && d <= written <= |vs| && Fitting(vs, msg, format)
    && (d == 0 ==> msg == Null)
    && (d > 0 && Receivable(vs, d, format) ==> msg == vs[d - 1])
  }

  lemma CopyAgrees(d: nat, written: nat, vs: seq<Json>, msg: Json, format: Format, stod: Stod)
    requires Texts(vs, format, stod) && Agrees(d, written, vs, msg, format)
    ensures Agrees(written, written, vs, Copied(vs, written, msg, format, stod), format)
  {
    if written > 0 {
      CopiedIs(vs, written, msg, format, stod);
    }
  }

  ghost predicate Told(c: Config, s: State, n: nat, k: nat, e: nat, vs: seq<Json>, msg: Json, format: Format)
    requires Valid(c, s) && n < |c.subs| && k < |c.subs[n]| && e < EVENTS
  {
    Agrees(s.spinners[n].delivered[k], s.version[e], vs, msg, format)
  }

  /** Only its own copy changes what was delivered to a subscription. */
  lemma StepDelivers(c: Config, s: State, step: Step, n: nat, k: nat)
    requires Valid(c, s) && Enabled(c, s, step) && n < |c.subs| && k < |c.subs[n]|
    requires Valid(c, Next(c, s, step))
    ensures Next(c, s, step).spinners[n].delivered[k]
            == if Copies(c, s, step, n, k) then Shown(s.segments[c.subs[n][k]], c.subs[n][k]) else s.spinners[n].delivered[k]
  {
  }

  lemma StepWrites(c: Config, s: State, step: Step, e: nat)
    requires Valid(c, s) && Enabled(c, s, step) && e < EVENTS && Valid(c, Next(c, s, step))
    ensures s.version[e] <= Next(c, s, step).version[e]
    ensures !step.Write? ==> Next(c, s, step).version == s.version
  {
  }

  lemma {:induction false} VersionsGrow(c: Config, s: State, steps: seq<Step>, e: nat)
    requires Valid(c, s) && AllEnabled(c, s, steps) && e < EVENTS
    ensures s.version[e] <= Run(c, s, steps).version[e]
    decreases |steps|
  {
    if steps != [] {
      StepWrites(c, s, steps[0], e);
      VersionsGrow(c, Next(c, s, steps[0]), steps[1..], e);
    }
  }

  lemma StepTold(c: Config, s: State, step: Step, n: nat, k: nat, e: nat, vs: seq<Json>, msg: Json, format: Format, stod: Stod)
    requires Valid(c, s) && Enabled(c, s, step) && n < |c.subs| && k < |c.subs[n]| && c.subs[n][k] == e < EVENTS
    requires Texts(vs, format, stod) && Told(c, s, n, k, e, vs, msg, format) && Current(s, e)
    requires Valid(c, Next(c, s, step)) && Next(c, s, step).version[e] <= |vs|
    ensures Told(c, Next(c, s, step), n, k, e, vs,
                 if Copies(c, s, step, n, k) then Copied(vs, Shown(s.segments[e], e), msg, format, stod) else msg, format)
  {
    StepDelivers(c, s, step, n, k);
    StepWrites(c, s, step, e);
    CopyAgrees(s.spinners[n].delivered[k], s.version[e], vs, msg, format, stod);
  }

  lemma {:induction false} RunTold(c: Config, s: State, steps: seq<Step>, n: nat, k: nat, e: nat, vs: seq<Json>, msg: Json, format: Format, stod: Stod)
    requires Valid(c, s) && AllEnabled(c, s, steps) && n < |c.subs| && k < |c.subs[n]| && c.subs[n][k] == e < EVENTS && e != SYNC
    requires OnlySubscriber(c, n, e) && Once(c, n, e) && Local(c, n, e) && Dedicated(c, e)
    requires Texts(vs, format, stod) && Told(c, s, n, k, e, vs, msg, format) && Keeps(c, s, n, e)
    requires Run(c, s, steps).version[e] <= |vs|
    ensures Keeps(c, Run(c, s, steps), n, e)
    ensures Told(c, Run(c, s, steps), n, k, e, vs, Heard(c, s, steps, n, k, vs, msg, format, stod), format)
    decreases |steps|
  {
    if steps != [] {
      var step := steps[0];
      LocalNeverLate(c, s, step, n, e);
      DedicatedNeverAstray(c, s, step, e);
      OnceNeverInterrupts(c, s, step, n, e);
      StepKeeps(c, s, step, n, e);
      VersionsGrow(c, Next(c, s, step), steps[1..], e);
      StepTold(c, s, step, n, k, e, vs, msg, format, stod);
      var now := if Copies(c, s, step, n, k) then Copied(vs, Shown(s.segments[e], e), msg, format, stod) else msg;
      RunTold(c, Next(c, s, step), steps[1..], n, k, e, vs, now, format, stod);
    }
  }

  lemma InitialTold(c: Config, threads: nat, present: set<int>, n: nat, k: nat, e: nat, vs: seq<Json>, format: Format)
    requires ValidConfig(c) && n < |c.subs| && k < |c.subs[n]| && e < EVENTS && vs != []
    ensures Told(c, Initial(c, threads, present), n, k, e, vs, Null, format)
  {
  }

  lemma NewestAgrees(vs: seq<Json>, msg: Json, format: Format)
    requires vs != [] && Agrees(|vs|, |vs|, vs, msg, format) && vs[|vs| - 1] != Null
    ensures msg == vs[|vs| - 1] <==> Receivable(vs, |vs|, format)
  {
  }

  /** Where nothing is lost and the bit is clear, every subscription has the newest triggered version. */
  lemma Settled(c: Config, s: State, n: nat, k: nat, e: nat, vs: seq<Json>, msg: Json, format: Format)
    requires Valid(c, s) && n < |c.subs| && k < |c.subs[n]| && c.subs[n][k] == e < EVENTS
    requires NotLost(c, s, n, e) && e !in s.bits && s.version[e] == s.triggered[e] == |vs|
    requires Told(c, s, n, k, e, vs, msg, format) && vs[|vs| - 1] != Null
    ensures msg == vs[|vs| - 1] <==> Receivable(vs, |vs|, format)
  {
    NewestAgrees(vs, msg, format);
  }

  lemma {:induction false} HoldsFrom(c: Config, start: State, steps: seq<Step>, n: nat, k: nat, e: nat, vs: seq<Json>, format: Format, stod: Stod)
    requires Valid(c, start) && n < |c.subs| && k < |c.subs[n]| && c.subs[n][k] == e < EVENTS && e != SYNC
    requires OnlySubscriber(c, n, e) && Once(c, n, e) && Local(c, n, e) && Dedicated(c, e)
    requires Texts(vs, format, stod) && Told(c, start, n, k, e, vs, Null, format) && Keeps(c, start, n, e)
    requires AllEnabled(c, start, steps) && Run(c, start, steps).version[e] == Run(c, start, steps).triggered[e] == |vs|
    requires e !in Run(c, start, steps).bits && vs[|vs| - 1] != Null
    ensures Heard(c, start, steps, n, k, vs, Null, format, stod) == vs[|vs| - 1] <==> Receivable(vs, |vs|, format)
  {
    RunTold(c, start, steps, n, k, e, vs, Null, format, stod);
    Settled(c, Run(c, start, steps), n, k, e, vs, Heard(c, start, steps, n, k, vs, Null, format, stod), format);
  }

  lemma {:induction false} PublishedIfWritten(c: Config, threads: nat, present: set<int>, steps: seq<Step>, e: nat)
    requires ValidConfig(c) && e < EVENTS && AllEnabled(c, Initial(c, threads, present), steps)
    requires Run(c, Initial(c, threads, present), steps).version[e] > 0
    ensures SpinExact.Published(c, e)
  {
    if !SpinExact.Published(c, e) {
      NeverPublished(c, Initial(c, threads, present), steps, e);
    }
  }

  /**
   * In a set-up that loses no update, whatever the interleaving: once the messages `vs` of an event have been written
   * and triggered, none of them a number, and its bit is clear again, the subscriber holds the last one exactly when
   * that is as long as the first and has at least four characters.
   */
  lemma {:induction false} HoldsNewestIff(c: Config, threads: nat, present: set<int>, steps: seq<Step>, n: nat, k: nat, e: nat,
                                          vs: seq<Json>, format: Format, stod: Stod)
    requires ValidConfig(c) && n < |c.subs| && k < |c.subs[n]| && c.subs[n][k] == e < EVENTS && e != SYNC && Safe(c, n, e)
    requires AllEnabled(c, Initial(c, threads, present), steps)
    requires var s := Run(c, Initial(c, threads, present), steps);
      s.version[e] == s.triggered[e] == |vs| && e !in s.bits
    requires Texts(vs, format, stod) && vs[|vs| - 1] != Null
    ensures Heard(c, Initial(c, threads, present), steps, n, k, vs, Null, format, stod) == vs[|vs| - 1]
            <==> Receivable(vs, |vs|, format)
  {
    var start := Initial(c, threads, present);
    PublishedIfWritten(c, threads, present, steps, e);
    InitialKeeps(c, threads, present, n, e);
    InitialTold(c, threads, present, n, k, e, vs, format);
    HoldsFrom(c, start, steps, n, k, e, vs, format, stod);
  }
}
