/**
 The two models of the registry belong together: every serial run of requests
 is, request by request, a run of the step system in which one thread at a time
 moves.
 */
module RegistrySerial {
  import opened Common
  import opened Registry
  import opened RegistryThreads
  import opened RegistryRaces
  import Runs = RegistryRuns

  // ---------------------------------------------------------------- the relation

  ghost predicate SameLabels(senders: seq<seq<string>>, labels: seq<string>) {
    forall name :: name in LabelsOf(senders) <==> name in labels
  }

  ghost predicate SameObserver(o: Observer, s: State, id: ObserverId) {
    id in s.senders && id in s.created && s.created[id] == o.created && SameLabels(o.senders, s.senders[id])
  }

  // The same maps, and the same live observers with the same labels and creation times.
  ghost predicate Same(r: Registry, s: State) {
    && s.peers == r.peers && s.streams == r.streams && s.next == r.next
    && (forall o: nat :: o in r.observers <==> Live(s, o))
    && (forall o: nat :: s.next <= o ==> s.deletions[o] == 0)
    && (forall o :: o in r.observers ==> SameObserver(r.observers[o], s, o))
  }

  lemma SameUse(r: Registry, s: State, name: string)
    requires Valid(r) && Same(r, s)
    ensures InUse(s, name) <==> StillUsed(r, name)
  {
    forall p | p in r.peers ensures Uses(r, p, name) <==> name in SendersOf(s, s.peers[p]) {
      assert SameObserver(r.observers[r.peers[p]], s, r.peers[p]);
    }
    if InUse(s, name) {
      var p :| p in s.peers && name in SendersOf(s, s.peers[p]);
      assert Uses(r, p, name);
    }
  }

  lemma SameOldest(r: Registry, s: State, p: string)
    requires Valid(r) && Same(r, s)
    ensures Oldest(s, p) <==> IsOldest(r, p)
  {
    forall q | q in r.peers ensures s.peers[q] in s.created && s.created[s.peers[q]] == r.observers[r.peers[q]].created {
      assert SameObserver(r.observers[r.peers[q]], s, r.peers[q]);
    }
  }

  lemma SameVictim(r: Registry, s: State, maxpc: int, victim: string)
    requires Valid(r) && Same(r, s) && IsVictim(r, maxpc, victim)
    ensures MayEvict(s, maxpc, victim)
  {
    forall p ensures Oldest(s, p) <==> IsOldest(r, p) { SameOldest(r, s, p); }
  }

  // ---------------------------------------------------------------- hanging up

  // Nothing but the thread, the stream map and its history may differ.
  ghost predicate SameElsewhere(s: State, s': State) {
    s'.peers == s.peers && s'.senders == s.senders && s'.created == s.created && s'.next == s.next
  }

  lemma InUseElsewhere(s: State, s': State)
    requires SameElsewhere(s, s')
    ensures forall name :: InUse(s', name) == InUse(s, name)
  {
    assert forall o :: SendersOf(s', o) == SendersOf(s, o);
  }

  // The thread looks at one label and erases it if nobody uses it.
  lemma ScansOne(maxpc: int, s: State, t: ThreadId, o: ObserverId, todo: seq<string>, after: Option<Call>)
    returns (s': State)
    requires Reachable(maxpc, s) && t in s.threads && s.threads[t] == Scan(o, todo, after) && todo != []
    ensures Reachable(maxpc, s') && s'.threads == s.threads[t := Scan(o, todo[1..], after)]
    ensures s'.streams == if InUse(s, todo[0]) then s.streams else s.streams - {todo[0]}
    ensures SameElsewhere(s, s') && s'.deletions == s.deletions
  {
    if InUse(s, todo[0]) {
      Extend(maxpc, s, Move(t, Fine("", 0)));
      s' := At(s, t, Scan(o, todo[1..], after));
    } else {
      Scanned(maxpc, s, t, o, todo, after);
      var s1 := At(s, t, EraseStream(o, todo[0], todo[1..], after));
      ErasedNow(maxpc, s1, t, o, todo[0], todo[1..], after);
      s' := At(StreamErased(s1, todo[0]), t, Scan(o, todo[1..], after));
      if todo[0] !in s.streams { assert s.streams - {todo[0]} == s.streams; }
    }
  }

  ghost function UnusedOf(s: State, names: seq<string>): set<string> {
    set name | name in names && !InUse(s, name)
  }

  lemma UnusedNext(s: State, s': State, todo: seq<string>)
    requires SameElsewhere(s, s') && todo != []
    ensures UnusedOf(s, todo) == UnusedOf(s', todo[1..]) + if InUse(s, todo[0]) then {} else {todo[0]}
  {
    InUseElsewhere(s, s');
    assert todo == [todo[0]] + todo[1..];
  }

  // One thread works through the labels of its observer and deletes it.
  lemma {:induction false} Scans(maxpc: int, s: State, t: ThreadId, o: ObserverId, todo: seq<string>, after: Option<Call>)
    returns (s': State)
    requires Reachable(maxpc, s) && t in s.threads && s.threads[t] == Scan(o, todo, after)
    ensures Reachable(maxpc, s') && s'.threads == s.threads[t := Resume(after)]
    ensures s'.streams == s.streams - UnusedOf(s, todo)
    ensures SameElsewhere(s, s') && s'.deletions == s.deletions + multiset{o}
    decreases |todo|
  {
    if todo == [] {
      Scanned(maxpc, s, t, o, todo, after);
      s' := At(Deleted(s, o), t, Resume(after));
      assert UnusedOf(s, todo) == {};
    } else {
      var s1 := ScansOne(maxpc, s, t, o, todo, after);
      UnusedNext(s, s1, todo);
      s' := Scans(maxpc, s1, t, o, todo[1..], after);
    }
  }

  lemma HangsUp(maxpc: int, r: Registry, s: State, t: ThreadId, p: string, after: Option<Call>) returns (s': State)
    requires Reachable(maxpc, s) && t in s.threads && s.threads[t] == Find(p, after) && Valid(r) && Same(r, s)
    ensures Reachable(maxpc, s') && s'.threads == s.threads[t := Resume(after)]
    ensures Same(AfterHangUp(r, p), s')
  {
    Found(maxpc, s, t, p, after);
    if p !in s.peers {
      s' := At(s, t, Resume(after));
    } else {
      var o := s.peers[p];
      var s1 := At(Unregistered(s, p), t, ListSenders(o, after));
      Listed(maxpc, s1, t, o, after);
      var s2 := At(s1, t, Scan(o, SendersOf(s1, o), after));
      s' := Scans(maxpc, s2, t, o, SendersOf(s1, o), after);
      SameAfterHangUp(r, s, p, s2, s');
    }
  }

  lemma SameAfterHangUp(r: Registry, s: State, p: string, s2: State, s': State)
    requires Valid(r) && Same(r, s) && p in r.peers
    requires s2.peers == s.peers - {p} && s2.senders == s.senders
    requires s'.streams == s.streams - UnusedOf(s2, SendersOf(s, s.peers[p]))
    requires s2.created == s.created && s2.next == s.next && SameElsewhere(s2, s')
    requires s'.deletions == s.deletions + multiset{s.peers[p]}
    ensures Same(AfterHangUp(r, p), s')
  {
    var o, rest := r.peers[p], Unregister(r, p);
    assert SameObserver(r.observers[o], s, o);
    forall name ensures InUse(s2, name) <==> StillUsed(rest, name) {
      SameUse(rest, s.(peers := s2.peers), name);
      assert forall id :: SendersOf(s.(peers := s2.peers), id) == SendersOf(s2, id);
    }
    assert Unused(rest, r.observers[o].senders) == UnusedOf(s2, SendersOf(s, o));
    forall id | id in AfterHangUp(r, p).observers ensures SameObserver(r.observers[id], s', id) {
      assert SameObserver(r.observers[id], s, id);
    }
  }

  // ---------------------------------------------------------------- the sections of a call

  function AnswersOf(q: Request, victim: string): Answers {
    Answers(victim, q.connection, q.now, q.made, q.video, q.audio)
  }

  // From the search for a victim to the moment before the observer is made.
  lemma EvictsOldest(maxpc: int, r: Registry, s: State, t: ThreadId, call: Call, victim: string) returns (s': State)
    requires Reachable(maxpc, s) && t in s.threads && s.threads[t] == PickVictim(call)
    requires Valid(r) && Same(r, s) && IsVictim(r, maxpc, victim)
    ensures Reachable(maxpc, s') && s'.threads == s.threads[t := MakeObserver(call)]
    ensures Same(Evict(r, victim), s')
  {
    SameVictim(r, s, maxpc, victim);
    Picked(maxpc, s, t, call, victim);
    if victim == "" {
      s' := At(s, t, MakeObserver(call));
    } else {
      s' := HangsUp(maxpc, r, At(s, t, Find(victim, Some(call))), t, victim, Some(call));
    }
  }

  lemma SameMade(r: Registry, s: State, q: Request)
    requires Valid(r) && Same(r, s)
    ensures Same(Create(r, q), Made(s, q.now))
  {
    var s' := Made(s, q.now);
    forall o | o in r.observers ensures SameObserver(r.observers[o], s', o) {
      assert SameObserver(r.observers[o], s, o);
    }
    assert LabelsOf([]) == {};
  }

  // Made and deleted at once.
  lemma SameDiscarded(r: Registry, s: State)
    requires Valid(r) && Same(r, s)
    ensures Same(r.(next := r.next + 1), Deleted(s.(next := s.next + 1), s.next))
  {
    var s' := Deleted(s.(next := s.next + 1), s.next);
    forall k | k in r.observers ensures SameObserver(r.observers[k], s', k) {
      assert SameObserver(r.observers[k], s, k);
    }
  }

  lemma SameEnrolled(r: Registry, s: State, id: string, o: ObserverId)
    requires Same(r, s)
    ensures Same(Register(r, id, o), Enrolled(s, id, o))
  {
    forall k | k in r.observers ensures SameObserver(r.observers[k], Enrolled(s, id, o), k) {
      assert SameObserver(r.observers[k], s, k);
    }
  }

  lemma SameStreams(r: Registry, s: State, q: Request)
    requires Same(r, s)
    ensures Same(WithStream(r, q), SourcesInserted(s, q.name, q.made))
  {
    forall k | k in r.observers ensures SameObserver(r.observers[k], SourcesInserted(s, q.name, q.made), k) {
      assert SameObserver(r.observers[k], s, k);
    }
  }

  lemma SameAttached(r: Registry, s: State, o: ObserverId, senders: seq<seq<string>>, labels: seq<string>)
    requires Same(r, s) && o in r.observers && SameLabels(senders, labels)
    ensures Same(Attach(r, o, senders), s.(senders := s.senders[o := SendersOf(s, o) + labels]))
  {
    var s' := s.(senders := s.senders[o := SendersOf(s, o) + labels]);
    assert SameObserver(r.observers[o], s, o);
    LabelsOfConcat(r.observers[o].senders, senders);
    forall k | k in r.observers ensures SameObserver(Attach(r, o, senders).observers[k], s', k) {
      assert SameObserver(r.observers[k], s, k);
    }
  }

  lemma SameTracks(r: Registry, s: State, o: ObserverId, q: Request, victim: string)
    requires Same(r, s) && o in r.observers
    ensures Same(AfterAddStreams(r, o, q),
                 TracksAttached(SourcesInserted(s, q.name, q.made), o, q.name, AnswersOf(q, victim)))
  {
    SameStreams(r, s, q);
    var s1, a := SourcesInserted(s, q.name, q.made), AnswersOf(q, victim);
    var senders, labels := NewSenders(r, q), Attaching(s1.streams[q.name], q.name, a);
    Runs.NewSendersLabels(r, q);
    assert labels == [] <==> senders == [];
    assert forall name :: name in labels ==> name == q.name;
    SameAttached(WithStream(r, q), s1, o, senders, labels);
    var s2 := s1.(senders := s1.senders[o := SendersOf(s1, o) + labels]);
    SameBut(AfterAddStreams(r, o, q), s2, TracksAttached(s1, o, q.name, a));
  }

  // Threads and history are not part of the relation.
  lemma SameBut(r: Registry, s: State, s': State)
    requires Same(r, s) && s'.(threads := s.threads, history := s.history) == s
    ensures Same(r, s')
  {
    forall k | k in r.observers ensures SameObserver(r.observers[k], s', k) {
      assert SameObserver(r.observers[k], s, k);
    }
  }

  // Lookup, and insertion if the label is missing.
  lemma LooksUp(maxpc: int, s: State, t: ThreadId, call: Call, o: ObserverId, a: Answers)
    requires Reachable(maxpc, s) && t in s.threads && s.threads[t] == LookUp(call, o)
    ensures Reachable(maxpc, At(SourcesInserted(s, call.name, a.made), t, AttachTracks(call, o)))
  {
    Extend(maxpc, s, Move(t, a));
    if call.name !in s.streams {
      var s1 := At(s, t, InsertSources(call, o, a.made));
      Extend(maxpc, s1, Move(t, a));
      assert Next(s1, Move(t, a)) == At(SourcesInserted(s, call.name, a.made), t, AttachTracks(call, o));
    }
  }

  // Attachment, with the label in the map.
  lemma Attaches(maxpc: int, s: State, t: ThreadId, call: Call, o: ObserverId, a: Answers)
    requires Reachable(maxpc, s) && t in s.threads && s.threads[t] == AttachTracks(call, o) && call.name in s.streams
    ensures Reachable(maxpc, At(TracksAttached(s, o, call.name, a), t,
                                if call.kind.OfferCall? && Succeeded(s.streams[call.name], a) then Enroll(call, o) else Finished))
  {
    Extend(maxpc, s, Move(t, a));
  }

  lemma Streams(maxpc: int, r: Registry, s: State, t: ThreadId, call: Call, o: ObserverId, q: Request, victim: string)
    returns (s': State)
    requires Reachable(maxpc, s) && t in s.threads && s.threads[t] == LookUp(call, o) && call.name == q.name
    requires Same(r, s) && o in r.observers
    ensures Reachable(maxpc, s') && Same(AfterAddStreams(r, o, q), s')
    ensures s'.threads == s.threads[t := if call.kind.OfferCall? && Streamed(r, q) then Enroll(call, o) else Finished]
  {
    var a := AnswersOf(q, victim);
    LooksUp(maxpc, s, t, call, o, a);
    var s1 := At(SourcesInserted(s, q.name, q.made), t, AttachTracks(call, o));
    Attaches(maxpc, s1, t, call, o, a);
    assert s1.streams[q.name] == SharedSources(r, q);
    var onward := if call.kind.OfferCall? && Streamed(r, q) then Enroll(call, o) else Finished;
    s' := At(TracksAttached(s1, o, q.name, a), t, onward);
    SameTracks(r, s, o, q, victim);
    SameBut(AfterAddStreams(r, o, q), TracksAttached(SourcesInserted(s, q.name, q.made), o, q.name, a), s');
  }

  // Registering the observer; the thread goes on or is done.
  lemma Enrolls(maxpc: int, r: Registry, s: State, t: ThreadId, call: Call, o: ObserverId) returns (s': State)
    requires Reachable(maxpc, s) && t in s.threads && s.threads[t] == Enroll(call, o) && Same(r, s)
    ensures Reachable(maxpc, s') && Same(Register(r, call.peerid, o), s')
    ensures s'.threads == s.threads[t := if call.kind.AnswerCall? then LookUp(call, o) else Finished]
  {
    Extend(maxpc, s, Move(t, Fine("", 0)));
    s' := Next(s, Move(t, Fine("", 0)));
    SameEnrolled(r, s, call.peerid, o);
    SameBut(Register(r, call.peerid, o), Enrolled(s, call.peerid, o), s');
  }

  // Making the observer, or failing to.
  function Making(r: Registry, q: Request): Registry {
    match q.connection
    case NoFactory => r
    case NoConnection => r.(next := r.next + 1)
    case Connected => Create(r, q)
  }

  lemma Makes(maxpc: int, r: Registry, s: State, t: ThreadId, call: Call, q: Request, victim: string) returns (s': State)
    requires Reachable(maxpc, s) && t in s.threads && s.threads[t] == MakeObserver(call)
    requires Valid(r) && Same(r, s) && !(call.kind.OfferCall? && q.connection.NoConnection?)
    ensures Reachable(maxpc, s')
    ensures Same(Making(r, q), s')
    ensures s'.threads == s.threads[t := if !q.connection.Connected? then Finished
                                         else if call.kind.AnswerCall? then Enroll(call, s.next)
                                         else LookUp(call, s.next)]
  {
    var a := AnswersOf(q, victim);
    Extend(maxpc, s, Move(t, a));
    s' := Next(s, Move(t, a));
    match q.connection
    case NoFactory => SameBut(r, s, s');
    case NoConnection =>
      SameDiscarded(r, s);
      SameBut(r.(next := r.next + 1), Deleted(s.(next := s.next + 1), s.next), s');
    case Connected =>
      SameMade(r, s, q);
      SameBut(Create(r, q), Made(s, q.now), s');
  }

  // ---------------------------------------------------------------- whole requests

  // A call up to the point where its observer is made.
  lemma Begins(maxpc: int, r: Registry, s: State, t: ThreadId, call: Call, victim: string) returns (s': State)
    requires Reachable(maxpc, s) && t !in s.threads && Valid(r) && Same(r, s) && IsVictim(r, maxpc, victim)
    ensures Reachable(maxpc, s') && Same(Evict(r, victim), s')
    ensures s'.threads == s.threads[t := MakeObserver(call)]
  {
    Extend(maxpc, s, SpawnCall(t, call));
    var s1 := At(s, t, PickVictim(call));
    SameBut(r, s, s1);
    s' := EvictsOldest(maxpc, r, s1, t, call, victim);
  }

  // The rest of getAnswer, from the registration on.
  lemma Admits(maxpc: int, r: Registry, s: State, t: ThreadId, call: Call, q: Request, victim: string) returns (s': State)
    requires Reachable(maxpc, s) && t in s.threads && s.threads[t] == Enroll(call, r.next)
    requires call == Call(AnswerCall, q.peerid, q.name) && Same(Create(r, q), s)
    ensures Reachable(maxpc, s') && s'.threads == s.threads[t := Finished] && Same(Admit(r, q), s')
  {
    var r1 := Register(Create(r, q), q.peerid, r.next);
    var s1 := Enrolls(maxpc, Create(r, q), s, t, call, r.next);
    s' := Streams(maxpc, r1, s1, t, call, r.next, q, victim);
    SameRemote(AfterAddStreams(r1, r.next, q), s', r.next, q.remoteSenders);
  }

  lemma AnsweredIs(r: Registry, q: Request, victim: string)
    requires Valid(r)
    ensures Valid(Evict(r, victim)) && AfterAnswer(r, q, victim) == Answered(Evict(r, victim), q)
  {
    Runs.EvictKeepsValid(r, victim);
  }

  lemma AnswersOn(maxpc: int, r: Registry, s: State, t: ThreadId, call: Call, q: Request, victim: string) returns (s': State)
    requires Reachable(maxpc, s) && t in s.threads && s.threads[t] == MakeObserver(call)
    requires call == Call(AnswerCall, q.peerid, q.name) && Valid(r) && Same(r, s)
    ensures Reachable(maxpc, s') && s'.threads == s.threads[t := Finished] && Same(Answered(r, q), s')
  {
    s' := Makes(maxpc, r, s, t, call, q, victim);
    if q.connection.Connected? {
      s' := Admits(maxpc, r, s', t, call, q, victim);
    }
  }

  lemma PerformsAnswer(maxpc: int, r: Registry, s: State, t: ThreadId, q: Request, victim: string) returns (s': State)
    requires Reachable(maxpc, s) && t !in s.threads && Valid(r) && Same(r, s) && IsVictim(r, maxpc, victim)
    ensures Reachable(maxpc, s') && s'.threads == s.threads[t := Finished]
    ensures Same(AfterAnswer(r, q, victim), s')
  {
    var call := Call(AnswerCall, q.peerid, q.name);
    var s1 := Begins(maxpc, r, s, t, call, victim);
    AnsweredIs(r, q, victim);
    s' := AnswersOn(maxpc, Evict(r, victim), s1, t, call, q, victim);
  }

  // Senders without stream ids do not show.
  lemma SameRemote(r: Registry, s: State, o: ObserverId, n: nat)
    requires Same(r, s) && o in r.observers
    ensures Same(Attach(r, o, RemoteSenders(n)), s)
  {
    assert SameObserver(r.observers[o], s, o);
    assert LabelsOf(RemoteSenders(n)) == {};
    SameAttached(r, s, o, RemoteSenders(n), []);
    assert SendersOf(s, o) + [] == s.senders[o];
    assert s.senders[o := s.senders[o]] == s.senders;
  }

  // The rest of createOffer: the streams, then the registration if they could be added.
  lemma StreamsThenEnrolls(maxpc: int, r: Registry, s: State, t: ThreadId, call: Call, q: Request, victim: string)
    returns (s': State)
    requires Reachable(maxpc, s) && t in s.threads && s.threads[t] == LookUp(call, r.next)
    requires call == Call(OfferCall, q.peerid, q.name) && Same(Create(r, q), s)
    ensures Reachable(maxpc, s') && s'.threads == s.threads[t := Finished] && Same(Offered(r, q), s')
  {
    var r1 := AfterAddStreams(Create(r, q), r.next, q);
    s' := Streams(maxpc, Create(r, q), s, t, call, r.next, q, victim);
    if Streamed(r, q) {
      s' := Enrolls(maxpc, r1, s', t, call, r.next);
    }
  }

  lemma OffersOn(maxpc: int, r: Registry, s: State, t: ThreadId, call: Call, q: Request, victim: string) returns (s': State)
    requires Reachable(maxpc, s) && t in s.threads && s.threads[t] == MakeObserver(call)
    requires call == Call(OfferCall, q.peerid, q.name) && Valid(r) && Same(r, s) && !q.connection.NoConnection?
    ensures Reachable(maxpc, s') && s'.threads == s.threads[t := Finished]
    ensures Same(if q.connection.Connected? then Offered(r, q) else r, s')
  {
    s' := Makes(maxpc, r, s, t, call, q, victim);
    if q.connection.Connected? {
      s' := StreamsThenEnrolls(maxpc, r, s', t, call, q, victim);
    }
  }

  lemma PerformsOffer(maxpc: int, r: Registry, s: State, t: ThreadId, q: Request, victim: string) returns (s': State)
    requires Reachable(maxpc, s) && t !in s.threads && Valid(r) && Same(r, s) && IsVictim(r, maxpc, victim)
    requires !q.connection.NoConnection?
    ensures Reachable(maxpc, s') && s'.threads == s.threads[t := Finished]
    ensures Same(AfterOffer(r, q, victim), s')
  {
    var call := Call(OfferCall, q.peerid, q.name);
    var s1 := Begins(maxpc, r, s, t, call, victim);
    Runs.EvictKeepsValid(r, victim);
    var r0 := Evict(r, victim);
    s' := OffersOn(maxpc, r0, s1, t, call, q, victim);
    assert AfterOffer(r, q, victim) == if q.connection.Connected? then Offered(r0, q) else r0;
  }

  lemma Performs(maxpc: int, r: Registry, s: State, t: ThreadId, e: Runs.Event) returns (s': State)
    requires Reachable(maxpc, s) && t !in s.threads && Valid(r) && Same(r, s) && Runs.Enabled(maxpc, r, e)
    ensures Reachable(maxpc, s') && s'.threads == s.threads[t := Finished]
    ensures Same(Runs.Apply(r, e), s')
  {
    match e
    case HangUpEvent(id) =>
      Extend(maxpc, s, SpawnHangUp(t, id));
      var s1 := At(s, t, Find(id, None));
      SameBut(r, s, s1);
      s' := HangsUp(maxpc, r, s1, t, id, None);
    case AnswerEvent(q, victim) => s' := PerformsAnswer(maxpc, r, s, t, q, victim);
    case OfferEvent(q, victim) => s' := PerformsOffer(maxpc, r, s, t, q, victim);
  }

  // Every state of every serial run is, with the same maps and the same live observers, a state of the
  // step system, reached with one thread for each request.
  lemma {:induction false} SerialRunsAreInterleavings(maxpc: int, rs: seq<Registry>, es: seq<Runs.Event>, i: nat)
    returns (s: State)
    requires Runs.IsRun(maxpc, rs, es) && i < |rs|
    ensures Reachable(maxpc, s) && Same(rs[i], s)
    ensures forall t: nat :: t in s.threads <==> t < i
    ensures forall t :: t in s.threads ==> s.threads[t] == Finished
  {
    if i == 0 {
      s := Initial;
      Start(maxpc);
    } else {
      var before := SerialRunsAreInterleavings(maxpc, rs, es, i - 1);
      assert Runs.Step(maxpc, rs[i - 1], es[i - 1], rs[i]);
      s := Performs(maxpc, rs[i - 1], before, i - 1, es[i - 1]);
    }
  }
}
