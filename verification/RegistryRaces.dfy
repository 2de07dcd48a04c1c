/**
 Claims that fail, each with a run of the step system that shows it: the
 capacity bound and the agreement of the two maps, in both directions, fail
 under interleaving; observers are lost even without it.
 */
module RegistryRaces {
  import opened Common
  import opened Registry
  import opened RegistryThreads
  import opened RegistryLeaks
  import opened RegistryOrphans

  // A run, kept together with its last state.
  ghost predicate Leads(maxpc: int, ss: seq<State>, steps: seq<Step>, s: State) {
    IsRun(maxpc, ss, steps) && ss[|ss| - 1] == s
  }

  ghost predicate Reachable(maxpc: int, s: State) {
    exists ss, steps :: Leads(maxpc, ss, steps, s)
  }

  lemma Extend(maxpc: int, s: State, step: Step)
    requires Reachable(maxpc, s) && Enabled(maxpc, s, step)
    ensures Reachable(maxpc, Next(s, step))
  {
    var ss, steps :| Leads(maxpc, ss, steps, s);
    var ss', steps' := ss + [Next(s, step)], steps + [step];
    forall i | 0 <= i < |steps'| ensures Took(maxpc, ss', steps', i) {
      if i < |steps| {
        assert Took(maxpc, ss, steps, i);
        assert ss'[i] == ss[i] && ss'[i + 1] == ss[i + 1] && steps'[i] == steps[i];
      }
    }
    assert Leads(maxpc, ss', steps', Next(s, step));
  }

  lemma Start(maxpc: int)
    ensures Reachable(maxpc, Initial)
  {
    assert Leads(maxpc, [Initial], [], Initial);
  }

  // One thread's answers in these runs: everything works, and a video source exists.
  function Fine(victim: string, now: nat): Answers {
    Answers(victim, Connected, now, Camera, Attached, NoTrack)
  }

  const Camera := Sources(Some(0), None)

  function Answering(peerid: string): Call { Call(AnswerCall, peerid, "L") }

  // ---------------------------------------------------------------- single steps

  lemma Spawned(maxpc: int, s: State, t: ThreadId, peerid: string)
    requires Reachable(maxpc, s) && t !in s.threads
    ensures Reachable(maxpc, At(s, t, PickVictim(Answering(peerid))))
    ensures Reachable(maxpc, At(s, t, Find(peerid, None)))
  {
    Extend(maxpc, s, SpawnCall(t, Answering(peerid)));
    Extend(maxpc, s, SpawnHangUp(t, peerid));
  }

  lemma Picked(maxpc: int, s: State, t: ThreadId, call: Call, victim: string)
    requires Reachable(maxpc, s) && t in s.threads && s.threads[t] == PickVictim(call) && MayEvict(s, maxpc, victim)
    ensures Reachable(maxpc, At(s, t, if victim == "" then MakeObserver(call) else Find(victim, Some(call))))
  {
    Extend(maxpc, s, Move(t, Fine(victim, 0)));
  }

  lemma Found(maxpc: int, s: State, t: ThreadId, p: string, after: Option<Call>)
    requires Reachable(maxpc, s) && t in s.threads && s.threads[t] == Find(p, after)
    ensures p in s.peers ==> Reachable(maxpc, At(Unregistered(s, p), t, ListSenders(s.peers[p], after)))
    ensures p !in s.peers ==> Reachable(maxpc, At(s, t, Resume(after)))
  {
    Extend(maxpc, s, Move(t, Fine("", 0)));
    if p !in s.peers { assert Unregistered(s, p) == s; }
  }

  lemma Listed(maxpc: int, s: State, t: ThreadId, o: ObserverId, after: Option<Call>)
    requires Reachable(maxpc, s) && t in s.threads && s.threads[t] == ListSenders(o, after)
    ensures Reachable(maxpc, At(s, t, Scan(o, SendersOf(s, o), after)))
  {
    Extend(maxpc, s, Move(t, Fine("", 0)));
  }

  lemma Scanned(maxpc: int, s: State, t: ThreadId, o: ObserverId, todo: seq<string>, after: Option<Call>)
    requires Reachable(maxpc, s) && t in s.threads && s.threads[t] == Scan(o, todo, after)
    ensures todo == [] ==> Reachable(maxpc, At(Deleted(s, o), t, Resume(after)))
    ensures todo != [] && !InUse(s, todo[0]) ==> Reachable(maxpc, At(s, t, EraseStream(o, todo[0], todo[1..], after)))
  {
    Extend(maxpc, s, Move(t, Fine("", 0)));
  }

  lemma ErasedNow(maxpc: int, s: State, t: ThreadId, o: ObserverId, name: string, todo: seq<string>, after: Option<Call>)
    requires Reachable(maxpc, s) && t in s.threads && s.threads[t] == EraseStream(o, name, todo, after)
    ensures Reachable(maxpc, At(StreamErased(s, name), t, Scan(o, todo, after)))
  {
    Extend(maxpc, s, Move(t, Fine("", 0)));
  }

  lemma MadeNow(maxpc: int, s: State, t: ThreadId, call: Call, now: nat)
    requires Reachable(maxpc, s) && t in s.threads && s.threads[t] == MakeObserver(call) && call.kind.AnswerCall?
    ensures Reachable(maxpc, At(Made(s, now), t, Enroll(call, s.next)))
  {
    Extend(maxpc, s, Move(t, Fine("", now)));
  }

  lemma EnrolledNow(maxpc: int, s: State, t: ThreadId, call: Call, o: ObserverId)
    requires Reachable(maxpc, s) && t in s.threads && s.threads[t] == Enroll(call, o) && call.kind.AnswerCall?
    ensures Reachable(maxpc, At(Enrolled(s, call.peerid, o), t, LookUp(call, o)))
  {
    Extend(maxpc, s, Move(t, Fine("", 0)));
  }

  lemma LookedUp(maxpc: int, s: State, t: ThreadId, call: Call, o: ObserverId)
    requires Reachable(maxpc, s) && t in s.threads && s.threads[t] == LookUp(call, o)
    ensures call.name in s.streams ==> Reachable(maxpc, At(s, t, AttachTracks(call, o)))
    ensures call.name !in s.streams ==> Reachable(maxpc, At(s, t, InsertSources(call, o, Camera)))
  {
    Extend(maxpc, s, Move(t, Fine("", 0)));
  }

  lemma InsertedNow(maxpc: int, s: State, t: ThreadId, call: Call, o: ObserverId)
    requires Reachable(maxpc, s) && t in s.threads && s.threads[t] == InsertSources(call, o, Camera)
    ensures Reachable(maxpc, At(SourcesInserted(s, call.name, Camera), t, AttachTracks(call, o)))
  {
    Extend(maxpc, s, Move(t, Fine("", 0)));
  }

  lemma AttachedNow(maxpc: int, s: State, t: ThreadId, call: Call, o: ObserverId)
    requires Reachable(maxpc, s) && t in s.threads && s.threads[t] == AttachTracks(call, o) && call.kind.AnswerCall?
    ensures Reachable(maxpc, At(TracksAttached(s, o, call.name, Fine("", 0)), t, Finished))
  {
    Extend(maxpc, s, Move(t, Fine("", 0)));
  }

  // ---------------------------------------------------------------- stretches of a run

  // What the later stretches depend on.
  ghost predicate Looks(s: State, peers: map<string, ObserverId>, next: ObserverId, senders: map<ObserverId, seq<string>>) {
    s.peers == peers && s.next == next && s.senders == senders && s.created.Keys == senders.Keys
    && forall o :: o in s.created ==> s.created[o] < 10
  }

  // A call that has decided to make its observer, up to its registration.
  lemma Registers(maxpc: int, s: State, t: ThreadId, peerid: string, now: nat) returns (s': State)
    requires Reachable(maxpc, s) && t in s.threads && s.threads[t] == MakeObserver(Answering(peerid))
    requires peerid !in s.peers && now < 10 && forall o :: o in s.created ==> s.created[o] < 10
    requires s.created.Keys == s.senders.Keys
    ensures Reachable(maxpc, s')
    ensures Looks(s', s.peers[peerid := s.next], s.next + 1, s.senders[s.next := []])
    ensures s'.threads == s.threads[t := LookUp(Answering(peerid), s.next)]
    ensures s'.streams == s.streams
  {
    MadeNow(maxpc, s, t, Answering(peerid), now);
    var s1 := At(Made(s, now), t, Enroll(Answering(peerid), s.next));
    EnrolledNow(maxpc, s1, t, Answering(peerid), s.next);
    s' := At(Enrolled(s1, peerid, s.next), t, LookUp(Answering(peerid), s.next));
  }

  lemma Arrives(maxpc: int, s: State, t: ThreadId, peerid: string, now: nat) returns (s': State)
    requires Reachable(maxpc, s) && t !in s.threads
    requires maxpc == 0 || s.peers == map[]
    requires peerid !in s.peers && now < 10 && forall o :: o in s.created ==> s.created[o] < 10
    requires s.created.Keys == s.senders.Keys
    ensures Reachable(maxpc, s')
    ensures Looks(s', s.peers[peerid := s.next], s.next + 1, s.senders[s.next := []])
    ensures s'.threads == s.threads[t := LookUp(Answering(peerid), s.next)]
    ensures s'.streams == s.streams
  {
    Spawned(maxpc, s, t, peerid);
    var s1 := At(s, t, PickVictim(Answering(peerid)));
    Picked(maxpc, s1, t, Answering(peerid), "");
    s' := Registers(maxpc, At(s1, t, MakeObserver(Answering(peerid))), t, peerid, now);
  }

  // A call whose search finds the only peer, up to the hangup it starts.
  lemma Targets(s: State, t: ThreadId, peerid: string, victim: string) returns (s': State)
    requires Reachable(1, s) && t !in s.threads && victim != "" && Looks(s, map[victim := 0], 1, map[0 := []])
    ensures Reachable(1, s') && Looks(s', s.peers, 1, s.senders)
    ensures s'.threads == s.threads[t := Find(victim, Some(Answering(peerid)))]
  {
    Spawned(1, s, t, peerid);
    var s1 := At(s, t, PickVictim(Answering(peerid)));
    assert s1.peers.Keys == {victim};
    assert |s1.peers| == 1;
    assert Oldest(s1, victim);
    Picked(1, s1, t, Answering(peerid), victim);
    s' := At(s1, t, Find(victim, Some(Answering(peerid))));
  }

  // ---------------------------------------------------------------- the bound

  // Two calls that pick the same oldest peer before either removes it both register:
  // with a bound of one, two peers are registered.
  lemma BoundFailsUnderInterleaving() returns (s: State)
    ensures Reachable(1, s) && |s.peers| == 2
  {
    Start(1);
    var s1 := Arrives(1, Initial, 0, "a", 1);
    var s2 := Targets(s1, 1, "b", "a");
    var s3 := Targets(s2, 2, "c", "a");
    var s4 := Evicts(s3);
    var s5 := Registers(1, s4, 1, "b", 2);
    s := SecondCallRegisters(s5);
  }

  // The second call finds its victim gone and registers all the same.
  lemma SecondCallRegisters(s: State) returns (s': State)
    requires Reachable(1, s) && Looks(s, map["b" := 1], 2, map[0 := [], 1 := []])
    requires 2 in s.threads && s.threads[2] == Find("a", Some(Answering("c")))
    ensures Reachable(1, s') && |s'.peers| == 2
  {
    Found(1, s, 2, "a", Some(Answering("c")));
    s' := Registers(1, At(s, 2, MakeObserver(Answering("c"))), 2, "c", 3);
    assert s'.peers.Keys == {"b", "c"};
    assert |s'.peers.Keys| == 2;
  }

  lemma Evicts(s: State) returns (s': State)
    requires Reachable(1, s) && Looks(s, map["a" := 0], 1, map[0 := []])
    requires 1 in s.threads && s.threads[1] == Find("a", Some(Answering("b")))
    ensures Reachable(1, s') && Looks(s', map[], 1, map[0 := []])
    ensures s'.threads == s.threads[1 := MakeObserver(Answering("b"))]
  {
    var after := Some(Answering("b"));
    Found(1, s, 1, "a", after);
    var s1 := At(Unregistered(s, "a"), 1, ListSenders(0, after));
    Listed(1, s1, 1, 0, after);
    var s2 := At(s1, 1, Scan(0, [], after));
    Scanned(1, s2, 1, 0, [], after);
    s' := At(Deleted(s2, 0), 1, Resume(after));
  }

  // ---------------------------------------------------------------- the agreement of the maps

  // A hangup that found a label unused erases it after another peer attached a track under it:
  // a registered peer then uses a label that is not in the stream map.
  lemma AgreementFailsUnderInterleaving() returns (s: State)
    ensures Reachable(0, s) && exists p, name :: p in s.peers && name in SendersOf(s, s.peers[p]) && name !in s.streams
  {
    Start(0);
    var s1 := Arrives(0, Initial, 0, "a", 1);
    var s2 := StartsStream(s1);
    var s3 := Arrives(0, s2, 1, "b", 2);
    LookedUp(0, s3, 1, Answering("b"), 1);
    var s4 := At(s3, 1, AttachTracks(Answering("b"), 1));
    var s5 := FindsUnused(s4);
    s := ErasesTooLate(s5);
    assert "b" in s.peers && "L" in SendersOf(s, s.peers["b"]) && "L" !in s.streams;
  }

  // The second user attaches, and only then does the first user's hangup erase the label.
  lemma ErasesTooLate(s: State) returns (s': State)
    requires Reachable(0, s) && Looks(s, map["b" := 1], 2, map[0 := ["L"], 1 := []])
    requires s.streams == map["L" := Camera]
    requires 1 in s.threads && s.threads[1] == AttachTracks(Answering("b"), 1)
    requires 2 in s.threads && s.threads[2] == EraseStream(0, "L", [], None)
    ensures Reachable(0, s') && s'.peers == map["b" := 1] && SendersOf(s', 1) == ["L"] && "L" !in s'.streams
  {
    AttachedNow(0, s, 1, Answering("b"), 1);
    var s1 := At(TracksAttached(s, 1, "L", Fine("", 0)), 1, Finished);
    assert [] + Attaching(Camera, "L", Fine("", 0)) == ["L"];
    ErasedNow(0, s1, 2, 0, "L", [], None);
    s' := At(StreamErased(s1, "L"), 2, Scan(0, [], None));
  }

  // The first user of the label creates the sources and attaches.
  lemma StartsStream(s: State) returns (s': State)
    requires Reachable(0, s) && Looks(s, map["a" := 0], 1, map[0 := []]) && s.streams == map[]
    requires s.threads == map[0 := LookUp(Answering("a"), 0)]
    ensures Reachable(0, s') && Looks(s', map["a" := 0], 1, map[0 := ["L"]])
    ensures s'.streams == map["L" := Camera] && s'.threads.Keys == {0}
  {
    LookedUp(0, s, 0, Answering("a"), 0);
    var s1 := At(s, 0, InsertSources(Answering("a"), 0, Camera));
    InsertedNow(0, s1, 0, Answering("a"), 0);
    var s2 := At(SourcesInserted(s1, "L", Camera), 0, AttachTracks(Answering("a"), 0));
    AttachedNow(0, s2, 0, Answering("a"), 0);
    s' := At(TracksAttached(s2, 0, "L", Fine("", 0)), 0, Finished);
    assert [] + Attaching(Camera, "L", Fine("", 0)) == ["L"];
  }

  // The first user hangs up and finds that nobody else uses the label, yet.
  lemma FindsUnused(s: State) returns (s': State)
    requires Reachable(0, s) && Looks(s, map["a" := 0, "b" := 1], 2, map[0 := ["L"], 1 := []])
    requires 2 !in s.threads && 1 in s.threads
    ensures Reachable(0, s') && Looks(s', map["b" := 1], 2, s.senders) && s'.streams == s.streams
    ensures s'.threads == s.threads[2 := EraseStream(0, "L", [], None)]
  {
    Spawned(0, s, 2, "a");
    var s1 := At(s, 2, Find("a", None));
    Found(0, s1, 2, "a", None);
    var s2 := At(Unregistered(s1, "a"), 2, ListSenders(0, None));
    Listed(0, s2, 2, 0, None);
    var s3 := At(s2, 2, Scan(0, ["L"], None));
    assert s3.peers == map["b" := 1];
    assert !InUse(s3, "L");
    assert ["L"][1..] == [];
    Scanned(0, s3, 2, 0, ["L"], None);
    s' := At(s3, 2, EraseStream(0, "L", [], None));
  }

  // A peer is hung up before its call has added the streams: the hangup finds no senders, the call
  // inserts the sources and attaches a track, and when all is done the key is there and no peer.
  lemma KeyOrphanedUnderInterleaving() returns (s: State)
    ensures Reachable(0, s) && s.peers == map[] && "L" in s.streams && !NoOrphans(s)
    ensures forall t :: t in s.threads ==> s.threads[t] == Finished
  {
    Start(0);
    var s1 := Arrives(0, Initial, 0, "a", 1);
    var s2 := HangsUpEarly(s1);
    LookedUp(0, s2, 0, Answering("a"), 0);
    var s3 := At(s2, 0, InsertSources(Answering("a"), 0, Camera));
    InsertedNow(0, s3, 0, Answering("a"), 0);
    var s4 := At(SourcesInserted(s3, "L", Camera), 0, AttachTracks(Answering("a"), 0));
    AttachedNow(0, s4, 0, Answering("a"), 0);
    s := At(TracksAttached(s4, 0, "L", Fine("", 0)), 0, Finished);
    FinishedOrphans(s);
    assert !InUse(s, "L");
  }

  lemma HangsUpEarly(s: State) returns (s': State)
    requires Reachable(0, s) && Looks(s, map["a" := 0], 1, map[0 := []]) && s.streams == map[]
    requires s.threads == map[0 := LookUp(Answering("a"), 0)]
    ensures Reachable(0, s') && s'.peers == map[] && s'.streams == map[]
    ensures s'.threads == map[0 := LookUp(Answering("a"), 0), 1 := Finished]
  {
    Spawned(0, s, 1, "a");
    var s1 := At(s, 1, Find("a", None));
    Found(0, s1, 1, "a", None);
    var s2 := At(Unregistered(s1, "a"), 1, ListSenders(0, None));
    Listed(0, s2, 1, 0, None);
    var s3 := At(s2, 1, Scan(0, [], None));
    Scanned(0, s3, 1, 0, [], None);
    s' := At(Deleted(s3, 0), 1, Finished);
  }

  // ---------------------------------------------------------------- lost observers

  const NoSources := Sources(None, None)

  // A call that found room, up to the observer it makes.
  lemma MakesFirst(call: Call) returns (s: State)
    ensures Reachable(0, s) && s.peers == map[] && s.streams == map[] && s.next == 1 && s.deletions == multiset{}
    ensures s.threads == map[0 := if call.kind.AnswerCall? then Enroll(call, 0) else LookUp(call, 0)]
  {
    Start(0);
    Extend(0, Initial, SpawnCall(0, call));
    var s1 := At(Initial, 0, PickVictim(call));
    Picked(0, s1, 0, call, "");
    var s2 := At(s1, 0, MakeObserver(call));
    Extend(0, s2, Move(0, Fine("", 1)));
    s := Next(s2, Move(0, Fine("", 1)));
  }

  const NothingWorks := Answers("", Connected, 1, NoSources, NoTrack, NoTrack)

  // An offer for which no source can be made, up to the attachment.
  lemma OfferWithoutSources(call: Call) returns (s: State)
    requires call == Call(OfferCall, "a", "L")
    ensures Reachable(0, s) && s.peers == map[] && s.streams == map["L" := NoSources] && s.next == 1 && s.deletions == multiset{}
    ensures s.threads == map[0 := AttachTracks(call, 0)]
  {
    var s1 := MakesFirst(call);
    Extend(0, s1, Move(0, NothingWorks));
    var s2 := At(s1, 0, InsertSources(call, 0, NoSources));
    Extend(0, s2, Move(0, NothingWorks));
    s := At(SourcesInserted(s2, "L", NoSources), 0, AttachTracks(call, 0));
  }

  // Its observer ends up alive, and nobody's.
  lemma OfferLosesItsObserver() returns (s: State)
    ensures Reachable(0, s) && Lost(s, 0) && s.threads == map[0 := Finished]
  {
    var call := Call(OfferCall, "a", "L");
    var s1 := OfferWithoutSources(call);
    Extend(0, s1, Move(0, NothingWorks));
    s := At(TracksAttached(s1, 0, "L", NothingWorks), 0, Finished);
    assert s == Next(s1, Move(0, NothingWorks));
    forall k ensures Kept(s, k) != Some(0) {}
  }

  // A call under an id that is taken: its observer is never registered.
  lemma TakenIdLosesItsObserver() returns (s: State)
    ensures Reachable(0, s) && "a" in s.peers && s.peers["a"] != 1 && Lost(s, 1)
  {
    Start(0);
    var s1 := Arrives(0, Initial, 0, "a", 1);
    Spawned(0, s1, 1, "a");
    var s2 := At(s1, 1, PickVictim(Answering("a")));
    Picked(0, s2, 1, Answering("a"), "");
    var s3 := At(s2, 1, MakeObserver(Answering("a")));
    MadeNow(0, s3, 1, Answering("a"), 2);
    var s4 := At(Made(s3, 2), 1, Enroll(Answering("a"), 1));
    EnrolledNow(0, s4, 1, Answering("a"), 1);
    s := At(Enrolled(s4, "a", 1), 1, LookUp(Answering("a"), 1));
    OwnershipOf(0, s4);
    LostExactlyWhen(0, s4, Move(1, Fine("", 0)));
    assert s == Next(s4, Move(1, Fine("", 0)));
  }

  lemma OwnershipOf(maxpc: int, s: State)
    requires Reachable(maxpc, s)
    ensures Ownership(s)
  {
    var ss, steps :| Leads(maxpc, ss, steps, s);
    OwnershipThroughout(maxpc, ss, steps, |ss| - 1);
  }
}
