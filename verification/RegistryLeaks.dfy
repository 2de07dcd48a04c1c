/**
 Which observers are never deleted: those that a step leaves alive without
 anybody responsible for them, and which steps those are.
 */
module RegistryLeaks {
  import opened Common
  import opened Registry
  import opened RegistryThreads

  ghost predicate HasKeeper(s: State, o: ObserverId) { exists k :: Kept(s, k) == Some(o) }

  // Alive, and nobody's: neither registered nor in a thread's care.
  ghost predicate Lost(s: State, o: ObserverId) { Live(s, o) && !HasKeeper(s, o) }

  // The observer a section abandons: one whose id is taken when it is to be registered, or that of an
  // offer whose streams could not be added.
  function Abandoned(s: State, pos: Position, a: Answers): Option<ObserverId> {
    match pos
    case Enroll(call, o) => if call.peerid in s.peers then Some(o) else None
    case AttachTracks(call, o) =>
      if call.kind.OfferCall? && !(call.name in s.streams && Succeeded(s.streams[call.name], a)) then Some(o) else None
    case _ => None
  }

  // ---------------------------------------------------------------- how responsibility changes

  lemma KeepersStay(s: State, s': State)
    requires s'.deletions == s.deletions && s'.next == s.next && forall k :: Kept(s', k) == Kept(s, k)
    ensures forall o: ObserverId :: Lost(s', o) <==> Lost(s, o)
  {
    forall o: ObserverId ensures HasKeeper(s', o) <==> HasKeeper(s, o) {
      if k :| Kept(s', k) == Some(o) { assert Kept(s, k) == Some(o); }
      if k :| Kept(s, k) == Some(o) { assert Kept(s', k) == Some(o); }
    }
  }

  lemma HandedOver(s: State, s': State, giver: Keeper, taker: Keeper)
    requires s'.deletions == s.deletions && s'.next == s.next && giver != taker
    requires Kept(s', taker) == Kept(s, giver) && Kept(s', giver) == None && Kept(s, taker) == None
    requires forall k :: k != giver && k != taker ==> Kept(s', k) == Kept(s, k)
    ensures forall o: ObserverId :: Lost(s', o) <==> Lost(s, o)
  {
    forall o: ObserverId ensures HasKeeper(s', o) <==> HasKeeper(s, o) {
      if k :| Kept(s', k) == Some(o) { assert Kept(s, if k == taker then giver else k) == Some(o); }
      if k :| Kept(s, k) == Some(o) { assert Kept(s', if k == giver then taker else k) == Some(o); }
    }
  }

  lemma TookNew(s: State, s': State, taker: Keeper)
    requires Ownership(s) && s'.deletions == s.deletions && s'.next == s.next + 1
    requires Kept(s, taker) == None && Kept(s', taker) == Some(s.next)
    requires forall k :: k != taker ==> Kept(s', k) == Kept(s, k)
    ensures forall o: ObserverId :: Lost(s', o) <==> Lost(s, o)
  {
    forall o: ObserverId | o != s.next ensures HasKeeper(s', o) <==> HasKeeper(s, o) {
      if k :| Kept(s', k) == Some(o) { assert Kept(s, k) == Some(o); }
      if k :| Kept(s, k) == Some(o) { assert Kept(s', k) == Some(o); }
    }
    assert HasKeeper(s', s.next);
  }

  // The keeper is no longer responsible, and the observer is deleted or abandoned.
  lemma GaveUp(s: State, s': State, giver: Keeper, o: ObserverId)
    requires Ownership(s) && s'.next == s.next && Kept(s, giver) == Some(o) && Kept(s', giver) == None
    requires s'.deletions == s.deletions || s'.deletions == s.deletions + multiset{o}
    requires forall k :: k != giver ==> Kept(s', k) == Kept(s, k)
    ensures forall x: ObserverId :: Lost(s', x) <==> Lost(s, x) || (x == o && s'.deletions == s.deletions)
  {
    forall x: ObserverId ensures HasKeeper(s', x) <==> HasKeeper(s, x) && x != o {
      if k :| Kept(s', k) == Some(x) { assert Kept(s, k) == Some(x) && Kept(s, k) != Kept(s, giver); }
      if k :| x != o && Kept(s, k) == Some(x) { assert Kept(s', k) == Some(x); }
    }
    assert HasKeeper(s, o) && Live(s, o);
  }

  lemma NeverKept(s: State, s': State)
    requires Ownership(s) && s'.next == s.next + 1 && s'.deletions == s.deletions + multiset{s.next}
    requires forall k :: Kept(s', k) == Kept(s, k)
    ensures forall o: ObserverId :: Lost(s', o) <==> Lost(s, o)
  {
    forall o: ObserverId ensures HasKeeper(s', o) <==> HasKeeper(s, o) {
      if k :| Kept(s', k) == Some(o) { assert Kept(s, k) == Some(o); }
      if k :| Kept(s, k) == Some(o) { assert Kept(s', k) == Some(o); }
    }
  }

  // ---------------------------------------------------------------- the sections

  ghost predicate LosesOnly(s: State, s': State, lost: Option<ObserverId>) {
    forall o: ObserverId :: Lost(s', o) <==> Lost(s, o) || lost == Some(o)
  }

  lemma FindLoses(s: State, t: ThreadId, a: Answers)
    requires Ownership(s) && t in s.threads && s.threads[t].Find?
    ensures LosesOnly(s, MoveOn(s, t, a), None)
  {
    var s' := MoveOn(s, t, a);
    var Find(p, after) := s.threads[t];
    if p in s.peers {
      ThreadsAt(s, s', t, ListSenders(s.peers[p], after));
      HandedOver(s, s', Entry(p), Thread(t));
    } else {
      ThreadsAt(s, s', t, Resume(after));
      assert s'.peers == s.peers;
      KeepersStay(s, s');
    }
  }

  lemma ScanLoses(s: State, t: ThreadId, a: Answers)
    requires Ownership(s) && t in s.threads && s.threads[t].Scan?
    ensures LosesOnly(s, MoveOn(s, t, a), None)
  {
    var s' := MoveOn(s, t, a);
    ThreadsAt(s, s', t, s'.threads[t]);
    if s.threads[t].todo == [] {
      GaveUp(s, s', Thread(t), s.threads[t].o);
    } else {
      KeepersStay(s, s');
    }
  }

  lemma MakeLoses(s: State, t: ThreadId, a: Answers)
    requires Ownership(s) && t in s.threads && s.threads[t].MakeObserver?
    ensures LosesOnly(s, MoveOn(s, t, a), None)
  {
    var s' := MoveOn(s, t, a);
    ThreadsAt(s, s', t, s'.threads[t]);
    match a.connection
    case NoFactory => KeepersStay(s, s');
    case NoConnection => NeverKept(s, s');
    case Connected => TookNew(s, s', Thread(t));
  }

  lemma EnrollLoses(s: State, t: ThreadId, a: Answers)
    requires Ownership(s) && t in s.threads && s.threads[t].Enroll?
    ensures LosesOnly(s, MoveOn(s, t, a), Abandoned(s, s.threads[t], a))
  {
    var s' := MoveOn(s, t, a);
    var id, o := s.threads[t].call.peerid, s.threads[t].o;
    ThreadsAt(s, s', t, s'.threads[t]);
    if id in s.peers {
      GaveUp(s, s', Thread(t), o);
    } else {
      HandedOver(s, s', Thread(t), Entry(id));
    }
  }

  // What the other sections leave a thread responsible for.
  lemma OwnedThen(s: State, pos: Position, a: Answers)
    requires !pos.Find? && !pos.Scan? && !pos.MakeObserver? && !pos.Enroll? && !pos.Finished?
    ensures Owned(Onward(s, pos, a)) == if Abandoned(s, pos, a).Some? then None else Owned(pos)
    ensures Abandoned(s, pos, a).Some? ==> Owned(pos) == Abandoned(s, pos, a)
  {}

  lemma OtherLoses(s: State, t: ThreadId, a: Answers)
    requires Ownership(s) && t in s.threads
    requires var pos := s.threads[t]; !pos.Find? && !pos.Scan? && !pos.MakeObserver? && !pos.Enroll? && !pos.Finished?
    ensures LosesOnly(s, MoveOn(s, t, a), Abandoned(s, s.threads[t], a))
  {
    var s', pos := MoveOn(s, t, a), s.threads[t];
    OtherMove(s, t, a);
    ThreadsAt(s, s', t, s'.threads[t]);
    OwnedThen(s, pos, a);
    assert s'.threads[t] == Onward(s, pos, a);
    if Abandoned(s, pos, a).Some? {
      GaveUp(s, s', Thread(t), Abandoned(s, pos, a).value);
    } else {
      KeepersStay(s, s');
    }
  }

  function AbandonedBy(s: State, step: Step): Option<ObserverId>
    requires step.Move? ==> step.t in s.threads
  {
    if step.Move? then Abandoned(s, s.threads[step.t], step.a) else None
  }

  // The lost observers are those lost before and the one the step abandons, if it abandons one.
  lemma LostExactlyWhen(maxpc: int, s: State, step: Step)
    requires Ownership(s) && Enabled(maxpc, s, step)
    ensures LosesOnly(s, Next(s, step), AbandonedBy(s, step))
  {
    var t, s' := step.t, Next(s, step);
    if !step.Move? {
      ThreadsAt(s, s', t, s'.threads[t]);
      KeepersStay(s, s');
    } else if s.threads[t].Find? {
      FindLoses(s, t, step.a);
    } else if s.threads[t].Scan? {
      ScanLoses(s, t, step.a);
    } else if s.threads[t].MakeObserver? {
      MakeLoses(s, t, step.a);
    } else if s.threads[t].Enroll? {
      EnrollLoses(s, t, step.a);
    } else {
      OtherLoses(s, t, step.a);
    }
  }

  ghost predicate WasAbandoned(ss: seq<State>, steps: seq<Step>, i: nat, o: ObserverId)
    requires i <= |steps| < |ss|
  {
    exists k :: 0 <= k < i && AbandonedAt(ss[k], steps[k], o)
  }

  predicate AbandonedAt(s: State, step: Step, o: ObserverId) {
    (step.Move? ==> step.t in s.threads) && AbandonedBy(s, step) == Some(o)
  }

  // In every interleaving, the live observers nobody is responsible for are exactly those abandoned by
  // an earlier step; every other observer made is kept by one keeper or was deleted.
  lemma {:induction false} LostAreTheAbandoned(maxpc: int, ss: seq<State>, steps: seq<Step>, i: nat, o: ObserverId)
    requires IsRun(maxpc, ss, steps) && i < |ss|
    ensures Lost(ss[i], o) <==> WasAbandoned(ss, steps, i, o)
  {
    if i == 0 {
      assert !Live(Initial, o);
    } else {
      var s, step := ss[i - 1], steps[i - 1];
      LostAreTheAbandoned(maxpc, ss, steps, i - 1, o);
      OwnershipThroughout(maxpc, ss, steps, i - 1);
      assert Took(maxpc, ss, steps, i - 1);
      LostExactlyWhen(maxpc, s, step);
      assert WasAbandoned(ss, steps, i, o) <==> WasAbandoned(ss, steps, i - 1, o) || AbandonedAt(s, step, o);
    }
  }
}
