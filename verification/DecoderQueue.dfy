/**
 Producers, the decoder thread and `Stop`, interleaved step by step under
 sequential consistency. Pushing to the queue and notifying the condition
 variable are separate steps, and the thread may also wake up for no reason.
 */
module DecoderQueue {
  import opened Collections
  import opened AccessUnits
  import opened VideoDecoder

  // The decoder thread: reading the stop flag, inside getFrame with the lock, asleep on the
  // condition variable, holding a frame, or gone.
  datatype Place = Checking | Getting | Asleep | Holding(frame: Frame) | Gone

  // Stop: not called yet, flag set, sentinel pushed, thread notified.
  datatype Stopping = NotStopping | FlagSet | Pushed | Notified

  datatype System = System(
    queue: seq<Frame>,
    consumer: Consumer,
    place: Place,
    stopping: Stopping,
    notifications: nat,    // pushes whose notify_all is still to come
    // history
    posted: seq<Frame>,
    taken: seq<Frame>,
    outcomes: seq<Outcome>,
    log: seq<Decode>,
    takenSinceStop: nat)

  const Initial := System([], Fresh, Checking, NotStopping, 0, [], [], [], [], 0)

  datatype Step =
    | Post(f: Frame) | Notify
    | SetFlag | PushSentinel | NotifyStop
    | Check | Get | WakeUp | Finish(o: Outcome)

  predicate Enabled(s: System, step: Step) {
    match step
    case Post(f) => !f.StopFrame?
    case Notify => s.notifications > 0
    case SetFlag => s.stopping.NotStopping?
    case PushSentinel => s.stopping.FlagSet?
    case NotifyStop => s.stopping.Pushed?
    case Check => s.place.Checking?
    case Get => s.place.Getting?
    case WakeUp => s.place.Asleep?
    case Finish(_) => s.place.Holding?
  }

  function Woken(p: Place): Place { if p.Asleep? then Getting else p }

  function Push(s: System, f: Frame): System {
    s.(queue := s.queue + [f], posted := s.posted + [f])
  }

  function Next(s: System, step: Step): System
    requires Enabled(s, step)
  {
    match step
    case Post(f) => Push(s, f).(notifications := s.notifications + 1)
    case Notify => s.(notifications := s.notifications - 1, place := Woken(s.place))
    case SetFlag => s.(stopping := FlagSet)
    case PushSentinel => Push(s, StopFrame).(stopping := Pushed)
    case NotifyStop => s.(stopping := Notified, place := Woken(s.place))
    case Check => s.(place := if s.stopping.NotStopping? then Getting else Gone)
    case Get =>
      if s.queue == [] then s.(place := Asleep) else
        s.(queue := s.queue[1..], taken := s.taken + [s.queue[0]], place := Holding(s.queue[0]),
           takenSinceStop := s.takenSinceStop + if s.stopping.NotStopping? then 0 else 1)
    case WakeUp => s.(place := Getting)
    case Finish(o) =>
      s.(consumer := Handle(s.consumer, s.place.frame, o), place := Checking, outcomes := s.outcomes + [o],
         log := s.log + if Decodes(s.consumer, s.place.frame)
                        then [Decode(|s.outcomes|, s.consumer.decoder.value, o.ok)] else [])
  }

  predicate IsRun(ss: seq<System>, steps: seq<Step>) {
    && |ss| == |steps| + 1
    && ss[0] == Initial
    && forall i :: 0 <= i < |steps| ==> Enabled(ss[i], steps[i]) && ss[i + 1] == Next(ss[i], steps[i])
  }

  // ---------------------------------------------------------------- first in, first out

  // The frames the thread is done with.
  function Handled(s: System): seq<Frame> {
    if s.place.Holding? && s.taken != [] then s.taken[..|s.taken| - 1] else s.taken
  }

  // What was taken and what waits are, in this order, what was posted; the decoder state and the log
  // are what the frames handled so far make of them.
  ghost predicate FirstInFirstOut(s: System) {
    && s.posted == s.taken + s.queue
    && (s.place.Holding? ==> s.taken != [] && s.place.frame == s.taken[|s.taken| - 1])
    && |Handled(s)| == |s.outcomes|
    && s.consumer == After(Handled(s), s.outcomes)
    && s.log == Log(Handled(s), s.outcomes)
  }

  lemma FinishKeepsOrder(s: System, o: Outcome)
    requires FirstInFirstOut(s) && s.place.Holding?
    ensures FirstInFirstOut(Next(s, Finish(o)))
  {
    var s' := Next(s, Finish(o));
    var n := |s.taken| - 1;
    assert s'.outcomes[..n] == s.outcomes;
    assert Handled(s') == s.taken && s.taken[..n] == Handled(s);
  }

  lemma GetKeepsOrder(s: System)
    requires FirstInFirstOut(s) && s.place.Getting?
    ensures FirstInFirstOut(Next(s, Get))
  {
    if s.queue != [] {
      var s' := Next(s, Get);
      var f, rest := s.queue[0], s.queue[1..];
      assert s.queue == [f] + rest;
      Reassociate(s.taken, [f], rest);
      HandledWhileHolding(s', s.taken, f);
    }
  }

  lemma HandledWhileHolding(s: System, before: seq<Frame>, f: Frame)
    requires s.place == Holding(f) && s.taken == before + [f]
    ensures Handled(s) == before && s.taken[|s.taken| - 1] == f
  {}

  lemma NextKeepsOrder(s: System, step: Step)
    requires FirstInFirstOut(s) && Enabled(s, step)
    ensures FirstInFirstOut(Next(s, step))
  {
    match step
    case Finish(o) => FinishKeepsOrder(s, o);
    case Get => GetKeepsOrder(s);
    case _ => assert Handled(Next(s, step)) == Handled(s);
  }

  lemma {:induction false} OrderThroughout(ss: seq<System>, steps: seq<Step>, i: nat)
    requires IsRun(ss, steps) && i < |ss|
    ensures FirstInFirstOut(ss[i])
  {
    if i > 0 {
      OrderThroughout(ss, steps, i - 1);
      NextKeepsOrder(ss[i - 1], steps[i - 1]);
    }
  }

  // However the threads interleave: decoded frames are posted frames, in posting order, each decoded
  // by a decoder created for the last format posted before it, and none between a failure and the
  // next format message.
  lemma DecodedAsPosted(ss: seq<System>, steps: seq<Step>, i: nat)
    requires IsRun(ss, steps) && i < |ss|
    ensures var s := ss[i];
            && (forall k :: 0 <= k < |s.log| ==> Faithful(s.posted, s.log[k]))
            && (forall k, l :: 0 <= k < l < |s.log| ==> s.log[k].frame < s.log[l].frame)
            && (forall k, l :: 0 <= k < l < |s.log| && !s.log[k].ok ==> FormatBetween(s.posted, s.log[k].frame, s.log[l].frame))
  {
    OrderThroughout(ss, steps, i);
    var s := ss[i];
    var fs := Handled(s);
    assert s.posted[..|fs|] == fs;
    DecodedInOrder(fs, s.outcomes);
    forall k | 0 <= k < |s.log| ensures Faithful(s.posted, s.log[k]) {
      assert Faithful(fs, s.log[k]);
      assert s.posted[..s.log[k].frame] == fs[..s.log[k].frame];
    }
    forall k, l | 0 <= k < l < |s.log| && !s.log[k].ok ensures FormatBetween(s.posted, s.log[k].frame, s.log[l].frame) {
      FailureWaitsForFormat(fs, s.outcomes, k, l);
      var m :| s.log[k].frame < m < s.log[l].frame && m < |fs| && IsFormat(fs[m]);
      assert IsFormat(s.posted[m]);
    }
  }

  // However the threads interleave: a posted frame the thread is done with has been decoded if and only
  // if it is not empty and a format message posted before it brought a decoder that was still there.
  lemma DecodedExactlyWhenPosted(ss: seq<System>, steps: seq<Step>, i: nat, n: nat)
    requires IsRun(ss, steps) && i < |ss| && n < |ss[i].outcomes|
    ensures var s := ss[i];
            && n < |s.posted|
            && (IsDecoded(s.log, n) <==>
                s.posted[n].DataFrame? && s.posted[n].content != [] &&
                exists k :: Brings(s.posted[..n], s.outcomes[..n], k))
  {
    OrderThroughout(ss, steps, i);
    var s := ss[i];
    var fs := Handled(s);
    assert s.posted[..|fs|] == fs;
    DecodedExactlyWhen(fs, s.outcomes, n);
    assert s.posted[..n] == fs[..n] && s.posted[n] == fs[n];
  }

  // ---------------------------------------------------------------- shutdown

  predicate SentinelPushed(s: System) { s.stopping.Pushed? || s.stopping.Notified? }

  predicate CanShutDown(s: System) {
    && s.takenSinceStop <= 1
    // in getFrame, or asleep in it, the thread has not yet taken anything since the flag was set
    && (s.stopping.NotStopping? || s.place.Getting? || s.place.Asleep? ==> s.takenSinceStop == 0)
    // an untaken sentinel is still in the queue
    && (SentinelPushed(s) && s.takenSinceStop == 0 ==> s.queue != [])
    // a sleeper with something to take is about to be notified
    && (s.place.Asleep? && s.queue != [] ==> s.notifications > 0 || s.stopping.Pushed?)
    && (s.stopping.Notified? ==> !s.place.Asleep?)
  }

  lemma {:induction false} CanShutDownThroughout(ss: seq<System>, steps: seq<Step>, i: nat)
    requires IsRun(ss, steps) && i < |ss|
    ensures CanShutDown(ss[i])
  {
    if i > 0 {
      CanShutDownThroughout(ss, steps, i - 1);
    }
  }

  // After the flag is set the thread takes at most one more frame; with the sentinel pushed it never
  // waits on an empty queue, and once notified it is not asleep.
  lemma ShutdownIsNotMissed(ss: seq<System>, steps: seq<Step>, i: nat)
    requires IsRun(ss, steps) && i < |ss|
    ensures ss[i].takenSinceStop <= 1
    ensures SentinelPushed(ss[i]) && (ss[i].place.Getting? || ss[i].place.Asleep?) ==> ss[i].queue != []
    ensures ss[i].stopping.Notified? ==> !ss[i].place.Asleep?
  {
    CanShutDownThroughout(ss, steps, i);
  }

  // Steps of the thread left until it is gone.
  function Distance(p: Place): nat {
    match p
    case Gone => 0
    case Checking => 1
    case Holding(_) => 2
    case Getting => 3
    case Asleep => 4
  }

  predicate OfThread(step: Step) { step.Check? || step.Get? || step.WakeUp? || step.Finish? }

  // Once Stop has notified, the thread can always move until it is gone, every move of it brings it
  // closer, and nobody else sends it back: join returns after at most three moves.
  lemma ThreadLeaves(ss: seq<System>, steps: seq<Step>, i: nat)
    requires IsRun(ss, steps) && i < |ss| && ss[i].stopping.Notified?
    ensures Distance(ss[i].place) <= 3
    ensures !ss[i].place.Gone? ==> exists step :: OfThread(step) && Enabled(ss[i], step)
    ensures i < |steps| && OfThread(steps[i]) ==> Distance(ss[i + 1].place) < Distance(ss[i].place)
    ensures i < |steps| && !OfThread(steps[i]) ==> ss[i + 1].place == ss[i].place
    ensures i < |steps| ==> ss[i + 1].stopping.Notified?
  {
    CanShutDownThroughout(ss, steps, i);
    var s := ss[i];
    if s.place.Checking? { assert OfThread(Check) && Enabled(s, Check); }
    if s.place.Getting? { assert OfThread(Get) && Enabled(s, Get); }
    if s.place.Holding? { assert OfThread(Finish(Outcome(true, true))) && Enabled(s, Finish(Outcome(true, true))); }
  }
}
