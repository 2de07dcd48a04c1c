/**
 The promise behind an offer, an answer or a remote description: which library
 callbacks may fulfil it, and how often.

 A `CreateSessionDescriptionObserver` that succeeds hands the same promise to a
 `SetSessionDescriptionObserver` of its own, which nobody can cancel. Testing
 the cancel flag and acting on it are separate steps.
 */
module SessionPromise {
  import opened Common

  datatype Result = Success | Failure

  // An observer waits for its one callback, has passed the test of the flag, or is through.
  datatype Phase = Waiting | Deciding(result: Result) | Through

  // The observer the request created, and the one a successful creation spawned.
  datatype State = State(creates: bool, root: Phase, cancelled: bool, spawned: Option<Phase>, fulfilled: nat)

  // `creates`: the root is a create observer (offer, answer) or a set observer (remote description).
  function Initial(creates: bool): State { State(creates, Waiting, false, None, 0) }

  datatype Step =
    | RootCallback(result: Result)            // the library calls back, the flag is tested
    | RootActs(described: bool)               // then the observer acts
    | SpawnedCallback(result: Result)
    | SpawnedActs(described: bool)
    | Cancel                                  // the requesting thread gives up waiting

  predicate Enabled(s: State, step: Step) {
    match step
    case RootCallback(_) => s.root.Waiting?
    case RootActs(_) => s.root.Deciding?
    case SpawnedCallback(_) => s.spawned == Some(Waiting)
    case SpawnedActs(_) => s.spawned.Some? && s.spawned.value.Deciding?
    case Cancel => true
  }

  // Does a set observer fulfil the promise? On success only if there is a local or remote description.
  predicate Fulfils(result: Result, described: bool) { result.Failure? || described }

  function Next(s: State, step: Step): State
    requires Enabled(s, step)
  {
    match step
    case RootCallback(result) => s.(root := if s.cancelled then Through else Deciding(result))
    case RootActs(described) =>
      var t := s.(root := Through);
      if s.creates && s.root.result.Success? then t.(spawned := Some(Waiting))
      else if s.creates || Fulfils(s.root.result, described) then t.(fulfilled := s.fulfilled + 1)
      else t
    case SpawnedCallback(result) => s.(spawned := Some(Deciding(result)))
    case SpawnedActs(described) =>
      s.(spawned := Some(Through),
         fulfilled := s.fulfilled + if Fulfils(s.spawned.value.result, described) then 1 else 0)
    case Cancel => s.(cancelled := true)
  }

  // Which steps fulfil the promise: an observer that was told of a failure, or a set observer that was
  // told of success and finds a description. A successful creation spawns the set observer instead.
  lemma FulfilsExactlyWhen(s: State, step: Step)
    requires Enabled(s, step)
    ensures Next(s, step).fulfilled == s.fulfilled +
            if || (step.RootActs? && s.root.result == Failure)
               || (step.RootActs? && !s.creates && step.described)
               || (step.SpawnedActs? && (s.spawned.value.result == Failure || step.described))
            then 1 else 0
    ensures Next(s, step).spawned == Some(Waiting) && s.spawned != Some(Waiting) <==>
            step.RootActs? && s.creates && s.root.result == Success && s.spawned != Some(Waiting)
    ensures step.RootCallback? ==> Next(s, step).root == if s.cancelled then Through else Deciding(step.result)
    ensures Next(s, step).cancelled == (s.cancelled || step == Cancel)
  {}

  predicate IsRun(creates: bool, ss: seq<State>, steps: seq<Step>) {
    && |ss| == |steps| + 1
    && ss[0] == Initial(creates)
    && forall i :: 0 <= i < |steps| ==> Enabled(ss[i], steps[i]) && ss[i + 1] == Next(ss[i], steps[i])
  }

  // The right to fulfil exists once and moves from the root to the spawned observer.
  predicate OneRight(s: State) {
    && (!s.root.Through? ==> s.spawned == None && s.fulfilled == 0)
    && (s.spawned.Some? && !s.spawned.value.Through? ==> s.fulfilled == 0)
    && s.fulfilled <= 1
  }

  // In every order of callbacks and cancels the promise is fulfilled at most once.
  lemma {:induction false} FulfilledAtMostOnce(creates: bool, ss: seq<State>, steps: seq<Step>, i: nat)
    requires IsRun(creates, ss, steps) && i < |ss|
    ensures OneRight(ss[i]) && ss[i].fulfilled <= 1
  {
    if i > 0 { FulfilledAtMostOnce(creates, ss, steps, i - 1); }
  }

  // Can the promise still be fulfilled?
  predicate Pending(s: State) {
    s.root.Deciding? || (s.spawned.Some? && !s.spawned.value.Through?)
  }

  // Once cancelled with nothing pending, a request never sees its promise fulfilled any more.
  lemma {:induction false} CancelIsFinal(creates: bool, ss: seq<State>, steps: seq<Step>, i: nat, j: nat)
    requires IsRun(creates, ss, steps) && i <= j < |ss| && ss[i].cancelled && !Pending(ss[i])
    ensures ss[j].fulfilled == ss[i].fulfilled && ss[j].cancelled && !Pending(ss[j])
    decreases j
  {
    if i < j { CancelIsFinal(creates, ss, steps, i, j - 1); }
  }

  // ---------------------------------------------------------------- late fulfilment

  // A run that goes on from the i-th state of another.
  predicate GoesOn(creates: bool, ss: seq<State>, steps: seq<Step>, i: nat, ss': seq<State>, steps': seq<Step>) {
    && i < |ss| == |steps| + 1
    && IsRun(creates, ss', steps')
    && ss[..i + 1] <= ss' && steps[..i] <= steps'
  }

  function Last(ss: seq<State>): State
    requires ss != []
  {
    ss[|ss| - 1]
  }

  lemma OneMore(creates: bool, ss: seq<State>, steps: seq<Step>, step: Step)
    requires IsRun(creates, ss, steps) && Enabled(Last(ss), step)
    ensures IsRun(creates, ss + [Next(Last(ss), step)], steps + [step])
  {
    var ss', steps' := ss + [Next(Last(ss), step)], steps + [step];
    forall i | 0 <= i < |steps'| ensures Enabled(ss'[i], steps'[i]) && ss'[i + 1] == Next(ss'[i], steps'[i]) {
      if i < |steps| { assert ss'[i] == ss[i] && ss'[i + 1] == ss[i + 1] && steps'[i] == steps[i]; }
    }
  }

  // How far the promise is from being fulfilled by an observer that can still do it.
  function Distance(s: State): nat
    requires Pending(s)
  {
    if s.root.Deciding? then (if s.creates && s.root.result.Success? then 3 else 1)
    else if s.spawned.value.Waiting? then 2 else 1
  }

  // The step that brings it closer.
  function Closer(s: State): Step
    requires Pending(s)
  {
    if s.root.Deciding? then RootActs(true)
    else if s.spawned.value.Waiting? then SpawnedCallback(Failure) else SpawnedActs(true)
  }

  lemma CloserLeads(s: State)
    requires OneRight(s) && Pending(s)
    ensures Enabled(s, Closer(s))
    ensures var t := Next(s, Closer(s));
            if Distance(s) == 1 then t.fulfilled == 1 else Pending(t) && Distance(t) < Distance(s)
  {}

  lemma {:induction false} Completes(creates: bool, ss: seq<State>, steps: seq<Step>)
    returns (ss': seq<State>, steps': seq<Step>)
    requires IsRun(creates, ss, steps) && Pending(Last(ss))
    ensures IsRun(creates, ss', steps') && ss <= ss' && steps <= steps' && Last(ss').fulfilled == 1
    decreases Distance(Last(ss))
  {
    var s := Last(ss);
    FulfilledAtMostOnce(creates, ss, steps, |ss| - 1);
    CloserLeads(s);
    OneMore(creates, ss, steps, Closer(s));
    ss', steps' := ss + [Next(s, Closer(s))], steps + [Closer(s)];
    if Distance(s) > 1 {
      ss', steps' := Completes(creates, ss', steps');
    }
  }

  // From every state of every run in which an observer has passed its test of the flag or has been
  // spawned, the promise can still be fulfilled, cancelled or not.
  lemma LateFulfilment(creates: bool, ss: seq<State>, steps: seq<Step>, i: nat)
    returns (ss': seq<State>, steps': seq<Step>)
    requires IsRun(creates, ss, steps) && i < |ss| && Pending(ss[i])
    ensures GoesOn(creates, ss, steps, i, ss', steps') && Last(ss').fulfilled == 1
  {
    assert IsRun(creates, ss[..i + 1], steps[..i]);
    ss', steps' := Completes(creates, ss[..i + 1], steps[..i]);
  }

  // After a cancel an unfulfilled promise can still be fulfilled if and only if something is pending.
  lemma CancelledIsFulfillableIff(creates: bool, ss: seq<State>, steps: seq<Step>, i: nat)
    requires IsRun(creates, ss, steps) && i < |ss| && ss[i].cancelled && ss[i].fulfilled == 0
    ensures (exists ss', steps' :: GoesOn(creates, ss, steps, i, ss', steps') && Last(ss').fulfilled == 1)
            <==> Pending(ss[i])
  {
    if Pending(ss[i]) {
      var ss', steps' := LateFulfilment(creates, ss, steps, i);
    } else {
      forall ss', steps' | GoesOn(creates, ss, steps, i, ss', steps') ensures Last(ss').fulfilled == 0 {
        assert ss'[i] == ss[..i + 1][i];
        CancelIsFinal(creates, ss', steps', i, |ss'| - 1);
      }
    }
  }

  // The creation succeeds, the requesting thread gives up, and the spawned observer fulfils the
  // promise all the same.
  lemma FulfilledAfterCancel() returns (ss: seq<State>, steps: seq<Step>)
    ensures IsRun(true, ss, steps) && |steps| == 5
    ensures steps[2] == Cancel && ss[3].cancelled && ss[3].fulfilled == 0 && Last(ss).fulfilled == 1
  {
    steps := [RootCallback(Success), RootActs(true), Cancel, SpawnedCallback(Success), SpawnedActs(true)];
    var s0 := Initial(true);
    var s1 := Next(s0, steps[0]);
    var s2 := Next(s1, steps[1]);
    var s3 := Next(s2, steps[2]);
    var s4 := Next(s3, steps[3]);
    ss := [s0, s1, s2, s3, s4, Next(s4, steps[4])];
  }
}
