/**
 The other direction of the agreement of the two maps under interleaving: which
 step leaves a key in the stream map that no registered peer uses and that no
 thread is going to deal with.
 */
module RegistryOrphans {
  import opened Common
  import opened Registry
  import opened RegistryThreads

  // Is a thread here still going to use, erase or register the label?
  predicate Attends(s: State, pos: Position, name: string) {
    match pos
    // a hangup that has yet to list, look at or erase it
    case ListSenders(o, _) => name in SendersOf(s, o)
    case Scan(_, todo, _) => name in todo
    case EraseStream(_, n, todo, _) => name == n || name in todo
    // a call inside AddStreams, or about to register what it attached
    case LookUp(call, _) => name == call.name
    case InsertSources(call, _, _) => name == call.name
    case AttachTracks(call, _) => name == call.name
    case Enroll(_, o) => name in SendersOf(s, o)
    case _ => false
  }

  predicate AttendsAt(s: State, t: ThreadId, name: string) { t in s.threads && Attends(s, s.threads[t], name) }

  ghost predicate Tended(s: State, name: string) { InUse(s, name) || exists t :: AttendsAt(s, t, name) }

  ghost predicate NoOrphans(s: State) { forall name :: name in s.streams ==> Tended(s, name) }

  // Somebody besides thread t uses or attends to the label.
  ghost predicate TendedElsewhere(s: State, t: ThreadId, name: string) {
    InUse(s, name) || exists u :: u != t && AttendsAt(s, u, name)
  }

  ghost predicate Registered(s: State, o: ObserverId) { exists p :: p in s.peers && s.peers[p] == o }

  // Is thread t about to list the senders of this observer, or to register it?
  predicate Awaits(s: State, t: ThreadId, o: ObserverId) {
    t in s.threads && (s.threads[t].ListSenders? || s.threads[t].Enroll?) && s.threads[t].o == o
  }

  // The label that thread t stops attending to with this section, leaving it to nobody: a call whose
  // observer ends up without a sender under it, or with one that no longer counts because the observer
  // was hung up in the meantime or finds its id taken.
  ghost predicate LetsGo(s: State, t: ThreadId, a: Answers, name: string)
    requires t in s.threads
  {
    match s.threads[t]
    case AttachTracks(call, o) =>
      && name == call.name
      && !(name in NewLabels(s, call, o, a) && (Registered(s, o) || (exists u :: Awaits(s, u, o)) || GoesOn(s, call, a)))
    case Enroll(call, o) =>
      name in SendersOf(s, o) && call.peerid in s.peers && !(call.kind.AnswerCall? && name == call.name)
    case _ => false
  }

  // The labels of the observer after the section, and whether an offer goes on to register it.
  function NewLabels(s: State, call: Call, o: ObserverId, a: Answers): seq<string> {
    SendersOf(s, o) + if call.name in s.streams then Attaching(s.streams[call.name], call.name, a) else []
  }

  predicate GoesOn(s: State, call: Call, a: Answers) {
    call.kind.OfferCall? && call.name in s.streams && Succeeded(s.streams[call.name], a)
  }

  ghost predicate Orphans(s: State, t: ThreadId, a: Answers)
    requires t in s.threads
  {
    exists name :: name in s.streams && LetsGo(s, t, a, name) && !TendedElsewhere(s, t, name)
  }

  // ---------------------------------------------------------------- what a section does to a label

  // Peers and senders are as before: users and the attention of others are too.
  lemma OthersStay(s: State, s': State, t: ThreadId, name: string)
    requires s'.peers == s.peers && t in s'.threads && s'.threads == s.threads[t := s'.threads[t]]
    requires forall o :: SendersOf(s', o) == SendersOf(s, o)
    ensures InUse(s', name) == InUse(s, name)
    ensures forall u :: u != t ==> AttendsAt(s', u, name) == AttendsAt(s, u, name)
  {
    forall u | u != t ensures AttendsAt(s', u, name) == AttendsAt(s, u, name) {
      if u in s.threads { assert s'.threads[u] == s.threads[u]; }
    }
  }

  lemma TendedWhen(s: State, t: ThreadId, name: string)
    ensures Tended(s, name) <==> TendedElsewhere(s, t, name) || AttendsAt(s, t, name)
  {
    if Tended(s, name) && !InUse(s, name) {
      var u :| AttendsAt(s, u, name);
      if u != t { assert TendedElsewhere(s, t, name); }
    }
  }

  // With the others as before, the label is tended to after the section if and only if it is elsewhere
  // or the thread attends to it where it goes on.
  lemma StaysTended(s: State, s': State, t: ThreadId, name: string)
    requires InUse(s', name) == InUse(s, name) && forall u :: u != t ==> AttendsAt(s', u, name) == AttendsAt(s, u, name)
    ensures Tended(s', name) <==> TendedElsewhere(s, t, name) || AttendsAt(s', t, name)
  {
    TendedWhen(s', t, name);
    assert TendedElsewhere(s', t, name) <==> TendedElsewhere(s, t, name);
  }

  // ---------------------------------------------------------------- the sections

  ghost predicate Orphaned(s: State, t: ThreadId, a: Answers, name: string)
    requires t in s.threads
  {
    LetsGo(s, t, a, name) && !TendedElsewhere(s, t, name)
  }

  // Sections that only look.
  lemma QuietSection(s: State, t: ThreadId, a: Answers, name: string)
    requires t in s.threads && Tended(s, name)
    requires var pos := s.threads[t]; pos.ListSenders? || pos.PickVictim? || pos.LookUp? || pos.Finished?
    ensures var s' := MoveOn(s, t, a); s'.streams == s.streams && Tended(s', name)
  {
    var s' := MoveOn(s, t, a);
    OthersStay(s, s', t, name);
    StaysTended(s, s', t, name);
    TendedWhen(s, t, name);
  }

  // A hangup is through with a label that it finds in use.
  lemma ScanSection(s: State, t: ThreadId, a: Answers, name: string)
    requires t in s.threads && s.threads[t].Scan? && Tended(s, name)
    ensures var s' := MoveOn(s, t, a); s'.streams == s.streams && Tended(s', name)
  {
    var s', todo := MoveOn(s, t, a), s.threads[t].todo;
    if todo != [] { assert todo == [todo[0]] + todo[1..]; }
    OthersStay(s, s', t, name);
    StaysTended(s, s', t, name);
    TendedWhen(s, t, name);
  }

  lemma EraseSection(s: State, t: ThreadId, a: Answers, name: string)
    requires t in s.threads && s.threads[t].EraseStream? && Tended(s, name)
    ensures var s' := MoveOn(s, t, a);
            s'.streams == s.streams - {s.threads[t].name} && (name != s.threads[t].name ==> Tended(s', name))
  {
    var s' := MoveOn(s, t, a);
    OthersStay(s, s', t, name);
    StaysTended(s, s', t, name);
    TendedWhen(s, t, name);
  }

  lemma InsertSection(s: State, t: ThreadId, a: Answers, name: string)
    requires t in s.threads && s.threads[t].InsertSources? && (name in s.streams ==> Tended(s, name))
    ensures var s' := MoveOn(s, t, a);
            s'.streams.Keys == s.streams.Keys + {s.threads[t].call.name} && (name in s'.streams ==> Tended(s', name))
  {
    var s' := MoveOn(s, t, a);
    OthersStay(s, s', t, name);
    StaysTended(s, s', t, name);
    TendedWhen(s, t, name);
  }

  // A hangup takes a peer out of the map and attends to all its labels.
  lemma FindSection(s: State, t: ThreadId, a: Answers, name: string)
    requires t in s.threads && s.threads[t].Find? && Tended(s, name)
    ensures var s' := MoveOn(s, t, a); s'.streams == s.streams && Tended(s', name)
  {
    var s', p := MoveOn(s, t, a), s.threads[t].peerid;
    MovedThreads(s, t, a);
    if InUse(s, name) {
      var q :| q in s.peers && name in SendersOf(s, s.peers[q]);
      if q == p {
        assert AttendsAt(s', t, name);
      } else {
        assert q in s'.peers && name in SendersOf(s', s'.peers[q]);
      }
    } else {
      var u :| AttendsAt(s, u, name);
      assert u != t && AttendsAt(s', u, name);
    }
  }

  // A new observer has no labels, and is not one anybody else has.
  lemma MakeSection(s: State, t: ThreadId, a: Answers, name: string)
    requires Ownership(s) && t in s.threads && s.threads[t].MakeObserver? && Tended(s, name)
    ensures var s' := MoveOn(s, t, a); s'.streams == s.streams && Tended(s', name)
  {
    MovedThreads(s, t, a);
    NewObserverOnly(s, s.threads[t], a);
    NewKeepsTended(s, MoveOn(s, t, a), t, name);
  }

  lemma NewObserverOnly(s: State, pos: Position, a: Answers)
    requires pos.MakeObserver?
    ensures var s' := Effect(s, pos, a);
            s'.peers == s.peers && s'.streams == s.streams && forall o :: o != s.next ==> SendersOf(s', o) == SendersOf(s, o)
  {}

  lemma NewKeepsTended(s: State, s': State, t: ThreadId, name: string)
    requires Ownership(s) && t in s.threads && s.threads[t].MakeObserver? && Tended(s, name)
    requires t in s'.threads && s'.threads == s.threads[t := s'.threads[t]] && s'.peers == s.peers
    requires forall o :: o != s.next ==> SendersOf(s', o) == SendersOf(s, o)
    ensures Tended(s', name)
  {
    if InUse(s, name) {
      var q :| q in s.peers && name in SendersOf(s, s.peers[q]);
      assert Kept(s, Entry(q)) == Some(s.peers[q]);
      assert name in SendersOf(s', s'.peers[q]);
    } else {
      var u :| AttendsAt(s, u, name);
      assert u != t && Kept(s, Thread(u)) == Owned(s.threads[u]);
      assert AttendsAt(s', u, name);
    }
  }

  // Registration: the labels of the observer come into use, or are let go if the id is taken.
  lemma EnrollSection(s: State, t: ThreadId, a: Answers, name: string)
    requires t in s.threads && s.threads[t].Enroll? && Tended(s, name)
    ensures var s' := MoveOn(s, t, a);
            s'.streams == s.streams && (Tended(s', name) <==> !Orphaned(s, t, a, name))
  {
    var s' := MoveOn(s, t, a);
    var call, o := s.threads[t].call, s.threads[t].o;
    MovedThreads(s, t, a);
    if call.peerid in s.peers {
      OthersStay(s, s', t, name);
      StaysTended(s, s', t, name);
      TendedWhen(s, t, name);
    } else if InUse(s, name) {
      var q :| q in s.peers && name in SendersOf(s, s.peers[q]);
      assert q in s'.peers && name in SendersOf(s', s'.peers[q]);
    } else {
      var u :| AttendsAt(s, u, name);
      if u == t {
        assert call.peerid in s'.peers && name in SendersOf(s', s'.peers[call.peerid]);
      } else {
        assert AttendsAt(s', u, name);
      }
    }
  }

  // Attachment: the label comes into use with a registered observer, stays attended to with one that
  // is to be listed or registered, or is let go.
  lemma AttachSection(s: State, t: ThreadId, a: Answers, name: string)
    requires t in s.threads && s.threads[t].AttachTracks? && Tended(s, name) && name in s.streams
    ensures var s' := MoveOn(s, t, a);
            s'.streams == s.streams && (Tended(s', name) <==> !Orphaned(s, t, a, name))
  {
    var s' := MoveOn(s, t, a);
    var call, o := s.threads[t].call, s.threads[t].o;
    MovedThreads(s, t, a);
    SendersThen(s, call, o, a);
    TendedWhen(s, t, name);
    if TendedElsewhere(s, t, name) {
      GrowthKeepsOthers(s, s', t, name);
    } else {
      assert name == call.name;
      NewAttention(s, s', t, call, o, name);
      TendedWhen(s', t, name);
    }
  }

  // Senders are only added, so that what is tended to elsewhere stays so.
  lemma GrowthKeepsOthers(s: State, s': State, t: ThreadId, name: string)
    requires s'.peers == s.peers && t in s'.threads && s'.threads == s.threads[t := s'.threads[t]]
    requires forall o :: name in SendersOf(s, o) ==> name in SendersOf(s', o)
    requires TendedElsewhere(s, t, name)
    ensures Tended(s', name)
  {
    if InUse(s, name) {
      var q :| q in s.peers && name in SendersOf(s, s.peers[q]);
      assert name in SendersOf(s', s'.peers[q]);
    } else {
      var u :| u != t && AttendsAt(s, u, name);
      assert AttendsAt(s', u, name);
    }
  }

  // A label tended to nowhere else comes to be so only with the observer that got it.
  lemma NewAttention(s: State, s': State, t: ThreadId, call: Call, o: ObserverId, name: string)
    requires s'.peers == s.peers && t in s.threads && s.threads[t] == AttachTracks(call, o)
    requires t in s'.threads && s'.threads == s.threads[t := s'.threads[t]]
    requires forall x :: x != o ==> SendersOf(s', x) == SendersOf(s, x)
    requires !TendedElsewhere(s, t, name)
    ensures TendedElsewhere(s', t, name) <==>
            name in SendersOf(s', o) && (Registered(s, o) || exists u :: Awaits(s, u, o))
  {
    if InUse(s', name) {
      var q :| q in s.peers && name in SendersOf(s', s.peers[q]);
      assert s.peers[q] == o;
    }
    if u :| u != t && AttendsAt(s', u, name) {
      assert s'.threads[u] == s.threads[u] && !AttendsAt(s, u, name);
      assert Awaits(s, u, o) && name in SendersOf(s', o);
    }
    if name in SendersOf(s', o) {
      if p :| p in s.peers && s.peers[p] == o { assert InUse(s', name); }
      if u :| Awaits(s, u, o) { assert u != t && AttendsAt(s', u, name); }
    }
  }

  lemma SendersThen(s: State, call: Call, o: ObserverId, a: Answers)
    ensures var s' := TracksAttached(s, o, call.name, a);
            && SendersOf(s', o) == NewLabels(s, call, o, a)
            && (forall x :: x != o ==> SendersOf(s', x) == SendersOf(s, x))
            && s'.peers == s.peers && s'.streams == s.streams
  {}

  // ---------------------------------------------------------------- the step

  lemma MoveOrphans(s: State, t: ThreadId, a: Answers, name: string)
    requires Ownership(s) && NoOrphans(s) && t in s.threads
    ensures var s' := MoveOn(s, t, a);
            name in s'.streams ==> (Tended(s', name) <==> !(name in s.streams && Orphaned(s, t, a, name)))
    ensures name in s.streams && Orphaned(s, t, a, name) ==> name in MoveOn(s, t, a).streams
  {
    var pos := s.threads[t];
    assert name in s.streams ==> Tended(s, name);
    if pos.InsertSources? {
      InsertSection(s, t, a, name);
    } else if name in s.streams {
      if pos.Enroll? {
        EnrollSection(s, t, a, name);
      } else if pos.AttachTracks? {
        AttachSection(s, t, a, name);
      } else if pos.Find? {
        FindSection(s, t, a, name);
      } else if pos.MakeObserver? {
        MakeSection(s, t, a, name);
      } else if pos.EraseStream? {
        EraseSection(s, t, a, name);
      } else if pos.Scan? {
        ScanSection(s, t, a, name);
      } else {
        QuietSection(s, t, a, name);
      }
    } else {
      KeysThen(s, pos, a);
    }
  }

  // Only the insertion adds a key.
  lemma KeysThen(s: State, pos: Position, a: Answers)
    requires !pos.InsertSources?
    ensures Effect(s, pos, a).streams.Keys <= s.streams.Keys
  {}

  lemma SpawnKeepsTended(s: State, s': State, t: ThreadId, name: string)
    requires t !in s.threads && t in s'.threads && s'.threads == s.threads[t := s'.threads[t]]
    requires s'.peers == s.peers && s'.senders == s.senders && Tended(s, name)
    ensures Tended(s', name)
  {
    if InUse(s, name) {
      assert forall o :: SendersOf(s', o) == SendersOf(s, o);
      assert InUse(s', name);
    } else {
      var u :| AttendsAt(s, u, name);
      assert AttendsAt(s', u, name);
    }
  }

  // From a state without orphans a step makes one if and only if it lets go of a label that nobody else
  // uses or attends to.
  lemma OrphanedExactlyWhen(maxpc: int, s: State, step: Step)
    requires Ownership(s) && NoOrphans(s) && Enabled(maxpc, s, step)
    ensures NoOrphans(Next(s, step)) <==> !(step.Move? && Orphans(s, step.t, step.a))
  {
    var s', t := Next(s, step), step.t;
    if !step.Move? {
      forall name | name in s'.streams ensures Tended(s', name) { SpawnKeepsTended(s, s', t, name); }
    } else {
      forall name ensures name in s'.streams ==> (Tended(s', name) <==> !(name in s.streams && Orphaned(s, t, step.a, name)))
        ensures name in s.streams && Orphaned(s, t, step.a, name) ==> name in s'.streams
      {
        MoveOrphans(s, t, step.a, name);
      }
      OrphansNames(s, s', t, step.a);
    }
  }

  lemma OrphansNames(s: State, s': State, t: ThreadId, a: Answers)
    requires t in s.threads
    requires forall name :: name in s'.streams ==> (Tended(s', name) <==> !(name in s.streams && Orphaned(s, t, a, name)))
    requires forall name :: name in s.streams && Orphaned(s, t, a, name) ==> name in s'.streams
    ensures NoOrphans(s') <==> !Orphans(s, t, a)
  {
    if Orphans(s, t, a) {
      var name :| name in s.streams && LetsGo(s, t, a, name) && !TendedElsewhere(s, t, name);
      assert Orphaned(s, t, a, name) && name in s'.streams && !Tended(s', name);
    } else {
      forall name | name in s'.streams ensures Tended(s', name) {
        assert !(name in s.streams && Orphaned(s, t, a, name));
      }
    }
  }

  // When every thread is through, a key nobody tends to is one that no registered peer uses.
  lemma FinishedOrphans(s: State)
    requires forall t :: t in s.threads ==> s.threads[t].Finished?
    ensures NoOrphans(s) <==> forall name :: name in s.streams ==> InUse(s, name)
  {
    assert forall t, name :: !AttendsAt(s, t, name);
    assert forall name :: Tended(s, name) <==> InUse(s, name);
  }
}
