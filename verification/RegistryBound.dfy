/**
 The capacity bound under interleaving: which step breaks it, and when it holds
 in every run all the same.
 */
module RegistryBound {
  import opened Common
  import opened Collections
  import opened Registry
  import opened RegistryThreads

  // ---------------------------------------------------------------- the step that breaks the bound

  // A full registry and a thread about to register a new peer.
  predicate Overfills(maxpc: int, s: State, pos: Position) {
    pos.Enroll? && pos.call.peerid !in s.peers && |s.peers| == maxpc
  }

  // The peers after a section: one more, one less, or the same.
  function PeersThen(s: State, pos: Position): map<string, ObserverId> {
    if pos.Find? then s.peers - {pos.peerid}
    else if pos.Enroll? && pos.call.peerid !in s.peers then s.peers[pos.call.peerid := pos.o]
    else s.peers
  }

  lemma PeersAfter(s: State, pos: Position, a: Answers)
    ensures Effect(s, pos, a).peers == PeersThen(s, pos)
  {
    if pos.AttachTracks? || pos.EraseStream? || pos.InsertSources? {
      OnlyStreams(s, pos, a);
    } else if pos.MakeObserver? {
      OnlyObservers(s, pos, a);
    }
  }

  lemma OnlyObservers(s: State, pos: Position, a: Answers)
    requires pos.MakeObserver?
    ensures Effect(s, pos, a).peers == s.peers && Effect(s, pos, a).created == CreatedThen(s, pos, a)
  {}

  // The sections under the stream lock.
  lemma OnlyStreams(s: State, pos: Position, a: Answers)
    requires pos.AttachTracks? || pos.EraseStream? || pos.InsertSources?
    ensures Effect(s, pos, a).peers == s.peers && Effect(s, pos, a).created == s.created
  {}

  lemma SizeThen(s: State, pos: Position)
    ensures pos.Find? && pos.peerid in s.peers ==> |PeersThen(s, pos)| == |s.peers| - 1
    ensures pos.Enroll? && pos.call.peerid !in s.peers ==> |PeersThen(s, pos)| == |s.peers| + 1
    ensures !(pos.Find? && pos.peerid in s.peers) && !(pos.Enroll? && pos.call.peerid !in s.peers) ==> PeersThen(s, pos) == s.peers
  {
    if pos.Enroll? { SizeWith(s.peers, pos.call.peerid, pos.o); }
    if pos.Find? { SizeWithout(s.peers, pos.peerid); }
  }

  // From a registry within the bound a step leaves it if and only if it registers a new peer in a
  // full registry.
  lemma BoundLostExactlyWhen(maxpc: int, s: State, step: Step)
    requires |s.peers| <= maxpc && Enabled(maxpc, s, step)
    ensures |Next(s, step).peers| <= maxpc <==> !(step.Move? && Overfills(maxpc, s, s.threads[step.t]))
  {
    if step.Move? {
      PeersAfter(s, s.threads[step.t], step.a);
      SizeThen(s, s.threads[step.t]);
    }
  }

  // ---------------------------------------------------------------- an oldest peer

  ghost predicate Timed(s: State) {
    && (forall p :: p in s.peers ==> s.peers[p] in s.created)
    && (forall o :: o in s.created ==> s.created[o] < NEVER)
  }

  lemma {:induction false} OldestAmong(s: State, ps: set<string>) returns (p: string)
    requires Timed(s) && ps != {} && ps <= s.peers.Keys
    ensures p in ps && forall q :: q in ps ==> s.created[s.peers[p]] <= s.created[s.peers[q]]
    decreases ps
  {
    p :| p in ps;
    if ps != {p} {
      var q := OldestAmong(s, ps - {p});
      if s.created[s.peers[q]] < s.created[s.peers[p]] { p := q; }
    }
  }

  lemma SomebodyIsOldest(s: State)
    requires Timed(s) && s.peers != map[]
    ensures exists p :: Oldest(s, p)
  {
    assert s.peers.Keys != {};
    var p := OldestAmong(s, s.peers.Keys);
    assert Oldest(s, p);
  }

  // ---------------------------------------------------------------- one search at a time

  // The call that a thread has searched a victim for and not yet registered.
  function Searching(pos: Position): Option<Call> {
    match pos
    case Find(_, after) => after
    case ListSenders(_, after) => after
    case Scan(_, _, after) => after
    case EraseStream(_, _, _, after) => after
    case MakeObserver(call) => Some(call)
    case Enroll(call, _) => Some(call)
    case LookUp(call, _) => if call.kind.OfferCall? then Some(call) else None
    case InsertSources(call, _, _) => if call.kind.OfferCall? then Some(call) else None
    case AttachTracks(call, _) => if call.kind.OfferCall? then Some(call) else None
    case _ => None
  }

  predicate IsSearching(s: State, t: ThreadId) { t in s.threads && Searching(s.threads[t]).Some? }

  // At most one thread stands between its search for a victim and its registration.
  ghost predicate OneSearch(s: State) {
    forall t, u :: IsSearching(s, t) && IsSearching(s, u) ==> t == u
  }

  // A searched call has room, or is about to make it.
  predicate HasRoom(maxpc: int, s: State, pos: Position) {
    |s.peers| < maxpc || (pos.Find? && pos.peerid in s.peers)
  }

  ghost predicate WithinBound(maxpc: int, s: State) {
    |s.peers| <= maxpc && forall t :: IsSearching(s, t) ==> HasRoom(maxpc, s, s.threads[t])
  }

  // Non-empty ids: in the map, and in the calls that may still register.
  predicate NamedPosition(pos: Position) {
    && (pos.PickVictim? ==> pos.call.peerid != "")
    && (Searching(pos).Some? ==> Searching(pos).value.peerid != "")
  }

  // The observer a thread may still register has a creation time.
  predicate TimedPosition(s: State, pos: Position) { Owned(pos).Some? ==> Owned(pos).value in s.created }

  ghost predicate Ordinary(s: State) {
    && Timed(s)
    && "" !in s.peers
    && forall t :: t in s.threads ==> NamedPosition(s.threads[t]) && TimedPosition(s, s.threads[t])
  }

  // A step that brings in nothing but non-empty ids and creation times below the maximum.
  predicate OrdinaryStep(step: Step) {
    && (step.SpawnCall? ==> step.call.peerid != "")
    && (step.Move? ==> step.a.now < NEVER)
  }

  lemma NamedOnward(s: State, pos: Position, a: Answers)
    requires NamedPosition(pos)
    ensures NamedPosition(Onward(s, pos, a))
  {}

  predicate Makes(pos: Position, a: Answers) { pos.MakeObserver? && a.connection.Connected? }

  function CreatedThen(s: State, pos: Position, a: Answers): map<ObserverId, nat> {
    if Makes(pos, a) then s.created[s.next := a.now] else s.created
  }

  lemma CreatedAfter(s: State, pos: Position, a: Answers)
    ensures Effect(s, pos, a).created == CreatedThen(s, pos, a)
  {
    if pos.MakeObserver? {
      OnlyObservers(s, pos, a);
    } else if pos.AttachTracks? || pos.EraseStream? || pos.InsertSources? {
      OnlyStreams(s, pos, a);
    }
  }

  // Where the observer in a thread's care comes from.
  lemma OwnedOnward(s: State, pos: Position, a: Answers)
    ensures var o := Owned(Onward(s, pos, a));
            || o == None || o == Owned(pos)
            || (pos.Find? && pos.peerid in s.peers && o == Some(s.peers[pos.peerid]))
            || (Makes(pos, a) && o == Some(s.next))
  {}

  lemma MoveStaysOrdinary(s: State, pos: Position, a: Answers, s': State)
    requires Timed(s) && "" !in s.peers && NamedPosition(pos) && TimedPosition(s, pos) && a.now < NEVER
    requires s'.peers == PeersThen(s, pos) && s'.created == CreatedThen(s, pos, a)
    ensures Timed(s') && "" !in s'.peers && TimedPosition(s', Onward(s, pos, a))
  {
    OwnedOnward(s, pos, a);
    if pos.Enroll? { assert Owned(pos) == Some(pos.o) && Searching(pos) == Some(pos.call); }
  }

  lemma StaysOrdinary(maxpc: int, s: State, step: Step)
    requires Ordinary(s) && Enabled(maxpc, s, step) && OrdinaryStep(step)
    ensures Ordinary(Next(s, step))
  {
    var t, s' := step.t, Next(s, step);
    if step.Move? {
      var pos := s.threads[t];
      PeersAfter(s, pos, step.a);
      CreatedAfter(s, pos, step.a);
      NamedOnward(s, pos, step.a);
      MoveStaysOrdinary(s, pos, step.a, s');
      assert s'.threads == s.threads[t := Onward(s, pos, step.a)] by { MovedThreads(s, t, step.a); }
    }
    OthersOrdinary(s, s', t);
  }

  lemma OthersOrdinary(s: State, s': State, t: ThreadId)
    requires Ordinary(s) && Timed(s') && "" !in s'.peers && t in s'.threads && s'.threads == s.threads[t := s'.threads[t]]
    requires NamedPosition(s'.threads[t]) && TimedPosition(s', s'.threads[t])
    requires forall o :: o in s.created ==> o in s'.created
    ensures Ordinary(s')
  {
    forall u | u in s'.threads ensures NamedPosition(s'.threads[u]) && TimedPosition(s', s'.threads[u]) {
      if u != t { assert NamedPosition(s.threads[u]) && TimedPosition(s, s.threads[u]); }
    }
  }

  // ---------------------------------------------------------------- the bound holds

  // The search finds a peer to remove, or there is room.
  lemma SearchFindsRoom(maxpc: int, s: State, victim: string)
    requires maxpc > 0 && Ordinary(s) && MayEvict(s, maxpc, victim)
    ensures victim == "" ==> |s.peers| < maxpc
    ensures victim != "" ==> victim in s.peers
  {
    if |s.peers| >= maxpc {
      assert s.peers != map[];
      SomebodyIsOldest(s);
    }
  }

  // Only a search starts a hangup on behalf of a call, and registering ends it.
  lemma SearchingOnward(s: State, pos: Position, a: Answers)
    requires Searching(Onward(s, pos, a)).Some?
    ensures pos.PickVictim? || (Searching(pos).Some? && !pos.Enroll? && !Onward(s, pos, a).Find?)
    ensures pos.PickVictim? && a.victim != "" ==> Onward(s, pos, a).Find? && Onward(s, pos, a).peerid == a.victim
  {}

  // The moving thread has room where it goes on.
  lemma MoverKeepsRoom(maxpc: int, s: State, pos: Position, a: Answers, s': State)
    requires maxpc > 0 && Ordinary(s) && |s.peers| <= maxpc && s'.peers == PeersThen(s, pos)
    requires Searching(pos).Some? ==> HasRoom(maxpc, s, pos)
    requires pos.PickVictim? ==> MayEvict(s, maxpc, a.victim)
    ensures |s'.peers| <= maxpc
    ensures Searching(Onward(s, pos, a)).Some? ==> HasRoom(maxpc, s', Onward(s, pos, a))
  {
    SizeThen(s, pos);
    if pos.Enroll? { assert Searching(pos).Some?; }
    if Searching(Onward(s, pos, a)).Some? {
      SearchingOnward(s, pos, a);
      if pos.PickVictim? { SearchFindsRoom(maxpc, s, a.victim); }
    }
  }

  // Everybody else who has searched still has room: only the one thread that has searched registers.
  lemma OthersKeepRoom(maxpc: int, s: State, pos: Position, s': State, other: Position)
    requires |s.peers| <= maxpc && s'.peers == PeersThen(s, pos) && Searching(pos).None? && HasRoom(maxpc, s, other)
    ensures HasRoom(maxpc, s', other)
  {
    SizeThen(s, pos);
  }

  lemma MoveStaysWithinBound(maxpc: int, s: State, t: ThreadId, a: Answers, s': State)
    requires maxpc > 0 && Ordinary(s) && WithinBound(maxpc, s) && OneSearch(s) && t in s.threads
    requires s.threads[t].PickVictim? ==> MayEvict(s, maxpc, a.victim)
    requires s'.peers == PeersThen(s, s.threads[t]) && s'.threads == s.threads[t := Onward(s, s.threads[t], a)]
    ensures WithinBound(maxpc, s')
  {
    var pos := s.threads[t];
    if Searching(pos).Some? { assert IsSearching(s, t); }
    MoverKeepsRoom(maxpc, s, pos, a, s');
    forall u | IsSearching(s', u) ensures HasRoom(maxpc, s', s'.threads[u]) {
      if u != t {
        assert IsSearching(s, u) && !IsSearching(s, t);
        OthersKeepRoom(maxpc, s, pos, s', s.threads[u]);
      }
    }
  }

  lemma StaysWithinBound(maxpc: int, s: State, step: Step)
    requires maxpc > 0 && Ordinary(s) && WithinBound(maxpc, s) && OneSearch(s) && Enabled(maxpc, s, step)
    ensures WithinBound(maxpc, Next(s, step))
  {
    var s' := Next(s, step);
    if step.Move? {
      PeersAfter(s, s.threads[step.t], step.a);
      MovedThreads(s, step.t, step.a);
      MoveStaysWithinBound(maxpc, s, step.t, step.a, s');
    } else {
      forall u | IsSearching(s', u) ensures HasRoom(maxpc, s', s'.threads[u]) {
        assert IsSearching(s, u);
      }
    }
  }

  // As long as at most one thread at a time stands between its search and its registration, ids are
  // not empty and creation times below the maximum, the bound holds in every interleaving with any
  // number of hangups, failures and other sections of the calls.
  lemma {:induction false} BoundHoldsIfSearchesAreSerial(maxpc: int, ss: seq<State>, steps: seq<Step>, i: nat)
    requires maxpc > 0 && IsRun(maxpc, ss, steps) && i < |ss|
    requires forall k :: 0 <= k < i ==> OrdinaryStep(steps[k]) && OneSearch(ss[k])
    ensures |ss[i].peers| <= maxpc && WithinBound(maxpc, ss[i]) && Ordinary(ss[i])
  {
    if i > 0 {
      BoundHoldsIfSearchesAreSerial(maxpc, ss, steps, i - 1);
      assert Took(maxpc, ss, steps, i - 1);
      StaysOrdinary(maxpc, ss[i - 1], steps[i - 1]);
      StaysWithinBound(maxpc, ss[i - 1], steps[i - 1]);
    }
  }
}
