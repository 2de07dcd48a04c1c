/**
 The registry under every interleaving: any number of threads, one step per
 section guarded by the peer lock or by the stream lock, and separate steps for
 what happens between the sections.

 Observers are numbered; `deletions` counts the `delete` statements executed on
 each, and `history` records what happened to the stream map.
 */
module RegistryThreads {
  import opened Common
  import opened Registry

  type ThreadId = nat

  datatype Kind = AnswerCall | OfferCall

  datatype Call = Call(kind: Kind, peerid: string, name: string)

  // Where a thread stands. `after` is the call whose eviction a hangup belongs to.
  datatype Position =
    | Find(peerid: string, after: Option<Call>)
    | ListSenders(o: ObserverId, after: Option<Call>)
    | Scan(o: ObserverId, todo: seq<string>, after: Option<Call>)
    | EraseStream(o: ObserverId, name: string, todo: seq<string>, after: Option<Call>)
    | PickVictim(call: Call)
    | MakeObserver(call: Call)
    | Enroll(call: Call, o: ObserverId)
    | LookUp(call: Call, o: ObserverId)
    | InsertSources(call: Call, o: ObserverId, made: Sources)
    | AttachTracks(call: Call, o: ObserverId)
    | Finished

  datatype Fact =
    | Inserted(name: string, sources: Sources)
    | Erased(name: string)
    | Shared(o: ObserverId, name: string, sources: Sources)

  datatype State = State(
    peers: map<string, ObserverId>,
    streams: map<string, Sources>,
    senders: map<ObserverId, seq<string>>,
    created: map<ObserverId, nat>,
    deletions: multiset<ObserverId>,
    next: ObserverId,
    threads: map<ThreadId, Position>,
    history: seq<Fact>)

  const Initial := State(map[], map[], map[], map[], multiset{}, 0, map[], [])

  // What the outside world contributes to a step.
  datatype Answers = Answers(
    victim: string, connection: Connection, now: nat, made: Sources, video: Track, audio: Track)

  // New requests, including the threads detached by an ICE failure, or one thread moving on.
  datatype Step =
    | SpawnHangUp(t: ThreadId, peerid: string)
    | SpawnCall(t: ThreadId, call: Call)
    | Move(t: ThreadId, a: Answers)

  function SendersOf(s: State, o: ObserverId): seq<string> {
    if o in s.senders then s.senders[o] else []
  }

  predicate InUse(s: State, name: string) {
    exists p | p in s.peers :: name in SendersOf(s, s.peers[p])
  }

  ghost predicate MayEvict(s: State, maxpc: int, victim: string) {
    if maxpc > 0 && |s.peers| >= maxpc && exists p :: Oldest(s, p)
    then Oldest(s, victim) else victim == ""
  }

  ghost predicate Oldest(s: State, p: string) {
    p in s.peers && s.peers[p] in s.created && s.created[s.peers[p]] < NEVER
    && forall q :: q in s.peers && s.peers[q] in s.created ==> s.created[s.peers[p]] <= s.created[s.peers[q]]
  }

  ghost predicate Enabled(maxpc: int, s: State, step: Step) {
    match step
    case SpawnHangUp(t, _) => t !in s.threads
    case SpawnCall(t, _) => t !in s.threads
    case Move(t, a) =>
      t in s.threads &&
      match s.threads[t]
      case PickVictim(_) => MayEvict(s, maxpc, a.victim)
      case MakeObserver(call) => !(call.kind.OfferCall? && a.connection.NoConnection?)
      case Finished => false
      case _ => true
  }

  function At(s: State, t: ThreadId, pos: Position): State {
    s.(threads := s.threads[t := pos])
  }

  function Resume(after: Option<Call>): Position {
    match after
    case None => Finished
    case Some(call) => MakeObserver(call)
  }

  function Attaching(pair: Sources, name: string, a: Answers): seq<string> {
    (if pair.video.Some? && a.video.Attached? then [name] else [])
    + (if pair.audio.Some? && a.audio.Attached? then [name] else [])
  }

  predicate Succeeded(pair: Sources, a: Answers) {
    (pair.video.Some? && !a.video.Refused?) || (pair.audio.Some? && !a.audio.Refused?)
  }

  // The sections that change shared state.

  function Unregistered(s: State, peerid: string): State {
    s.(peers := s.peers - {peerid})
  }

  function Deleted(s: State, o: ObserverId): State {
    s.(deletions := s.deletions + multiset{o})
  }

  function StreamErased(s: State, name: string): State {
    if name in s.streams
    then s.(streams := s.streams - {name}, history := s.history + [Erased(name)])
    else s
  }

  function Made(s: State, now: nat): State {
    s.(next := s.next + 1, senders := s.senders[s.next := []], created := s.created[s.next := now])
  }

  function Enrolled(s: State, peerid: string, o: ObserverId): State {
    if peerid in s.peers then s else s.(peers := s.peers[peerid := o])
  }

  function SourcesInserted(s: State, name: string, made: Sources): State {
    if name in s.streams then s
    else s.(streams := s.streams[name := made], history := s.history + [Inserted(name, made)])
  }

  function TracksAttached(s: State, o: ObserverId, name: string, a: Answers): State {
    if name !in s.streams then s else
      s.(senders := s.senders[o := SendersOf(s, o) + Attaching(s.streams[name], name, a)],
         history := s.history + [Shared(o, name, s.streams[name])])
  }

  // The shared state after the section at which thread `t` stands.
  function Effect(s: State, pos: Position, a: Answers): State {
    match pos
    case Find(peerid, _) => Unregistered(s, peerid)                               // peer lock
    case Scan(o, todo, _) => if todo == [] then Deleted(s, o) else s              // peer lock to look
    case EraseStream(_, name, _, _) => StreamErased(s, name)                      // stream lock
    case MakeObserver(_) =>
      (match a.connection
       case NoFactory => s
       case NoConnection => Deleted(s.(next := s.next + 1), s.next)
       case Connected => Made(s, a.now))
    case Enroll(call, o) => Enrolled(s, call.peerid, o)                           // peer lock
    case InsertSources(call, _, made) => SourcesInserted(s, call.name, made)      // stream lock
    case AttachTracks(call, o) => TracksAttached(s, o, call.name, a)              // stream lock
    case _ => s                                                                   // only looks
  }

  // Where the thread stands after it; `s` is the state the section found.
  function Onward(s: State, pos: Position, a: Answers): Position {
    match pos
    case Find(peerid, after) =>
      if peerid in s.peers then ListSenders(s.peers[peerid], after) else Resume(after)
    case ListSenders(o, after) => Scan(o, SendersOf(s, o), after)
    case Scan(o, todo, after) =>
      if todo == [] then Resume(after)
      else if InUse(s, todo[0]) then Scan(o, todo[1..], after)
      else EraseStream(o, todo[0], todo[1..], after)
    case EraseStream(o, _, todo, after) => Scan(o, todo, after)
    case PickVictim(call) => if a.victim == "" then MakeObserver(call) else Find(a.victim, Some(call))
    case MakeObserver(call) =>
      if !a.connection.Connected? then Finished
      else if call.kind.AnswerCall? then Enroll(call, s.next)
      else LookUp(call, s.next)
    case Enroll(call, o) => if call.kind.AnswerCall? then LookUp(call, o) else Finished
    case LookUp(call, o) =>
      // a missing label makes the thread create the sources, outside any lock
      if call.name in s.streams then AttachTracks(call, o) else InsertSources(call, o, a.made)
    case InsertSources(call, o, _) => AttachTracks(call, o)
    case AttachTracks(call, o) =>
      if call.kind.OfferCall? && call.name in s.streams && Succeeded(s.streams[call.name], a)
      then Enroll(call, o) else Finished
    case Finished => Finished
  }

  function MoveOn(s: State, t: ThreadId, a: Answers): State
    requires t in s.threads
  {
    At(Effect(s, s.threads[t], a), t, Onward(s, s.threads[t], a))
  }

  function Next(s: State, step: Step): State
    requires step.Move? ==> step.t in s.threads
  {
    match step
    case SpawnHangUp(t, peerid) => At(s, t, Find(peerid, None))
    case SpawnCall(t, call) => At(s, t, PickVictim(call))
    case Move(t, a) => MoveOn(s, t, a)
  }

  ghost predicate IsRun(maxpc: int, ss: seq<State>, steps: seq<Step>) {
    && |ss| == |steps| + 1
    && ss[0] == Initial
    && forall i :: 0 <= i < |steps| ==> Took(maxpc, ss, steps, i)
  }

  ghost predicate Took(maxpc: int, ss: seq<State>, steps: seq<Step>, i: nat)
    requires i < |steps| < |ss|
  {
    Enabled(maxpc, ss[i], steps[i]) && ss[i + 1] == Next(ss[i], steps[i])
  }

  // ---------------------------------------------------------------- ownership

  // The observer a thread alone is responsible for: taken out of the map by a hangup,
  // or made by a call that has not registered it yet.
  function Owned(pos: Position): Option<ObserverId> {
    match pos
    case ListSenders(o, _) => Some(o)
    case Scan(o, _, _) => Some(o)
    case EraseStream(o, _, _, _) => Some(o)
    case Enroll(_, o) => Some(o)
    case LookUp(call, o) => if call.kind.OfferCall? then Some(o) else None
    case InsertSources(call, o, _) => if call.kind.OfferCall? then Some(o) else None
    case AttachTracks(call, o) => if call.kind.OfferCall? then Some(o) else None
    case _ => None
  }

  // Who is responsible for an observer: an entry of the peer map or a thread.
  datatype Keeper = Entry(peerid: string) | Thread(t: ThreadId)

  function Kept(s: State, k: Keeper): Option<ObserverId> {
    match k
    case Entry(p) => if p in s.peers then Some(s.peers[p]) else None
    case Thread(t) => if t in s.threads then Owned(s.threads[t]) else None
  }

  ghost predicate Live(s: State, o: ObserverId) { o < s.next && s.deletions[o] == 0 }

  // Kept observers are live and have one keeper; nothing is deleted twice.
  ghost predicate Ownership(s: State) {
    && (forall k :: Kept(s, k).Some? ==> Live(s, Kept(s, k).value))
    && (forall k, l :: k != l && Kept(s, k).Some? ==> Kept(s, k) != Kept(s, l))
    && (forall o :: s.deletions[o] <= 1)
    && (forall o :: s.next <= o ==> s.deletions[o] == 0)
  }

  // The four ways in which responsibility changes.
  lemma LetGo(s: State, s': State)
    requires Ownership(s) && s'.deletions == s.deletions && s'.next == s.next
    requires forall k :: Kept(s', k) == Kept(s, k) || Kept(s', k) == None
    ensures Ownership(s')
  {}

  lemma HandOver(s: State, s': State, giver: Keeper, taker: Keeper)
    requires Ownership(s) && s'.deletions == s.deletions && s'.next == s.next && giver != taker
    requires Kept(s', taker) == Kept(s, giver) && Kept(s', giver) == None
    requires forall k :: k != giver && k != taker ==> Kept(s', k) == Kept(s, k)
    ensures Ownership(s')
  {}

  lemma TakeNew(s: State, s': State, taker: Keeper)
    requires Ownership(s) && s'.deletions == s.deletions && s'.next == s.next + 1
    requires Kept(s', taker) == Some(s.next)
    requires forall k :: k != taker ==> Kept(s', k) == Kept(s, k)
    ensures Ownership(s')
  {}

  lemma Dispose(s: State, s': State, o: ObserverId)
    requires Ownership(s) && s'.next >= s.next && o < s'.next
    requires s'.deletions == s.deletions + multiset{o} && s.deletions[o] == 0
    requires forall k :: Kept(s', k) == Kept(s, k) || Kept(s', k) == None
    requires forall k :: Kept(s', k) != Some(o)
    ensures Ownership(s')
  {}

  lemma EffectKeepsThreads(s: State, pos: Position, a: Answers)
    ensures Effect(s, pos, a).threads == s.threads
  {
    match pos
    case Find(_, _) =>
    case Scan(_, _, _) =>
    case EraseStream(_, _, _, _) =>
    case MakeObserver(_) =>
    case Enroll(_, _) =>
    case InsertSources(_, _, _) =>
    case AttachTracks(_, _) =>
    case _ =>
  }

  lemma MovedThreads(s: State, t: ThreadId, a: Answers)
    requires t in s.threads
    ensures MoveOn(s, t, a).threads == s.threads[t := Onward(s, s.threads[t], a)]
  {
    EffectKeepsThreads(s, s.threads[t], a);
  }

  lemma ThreadsAt(s: State, s': State, t: ThreadId, pos: Position)
    requires s'.threads == s.threads[t := pos]
    ensures Kept(s', Thread(t)) == Owned(pos)
    ensures forall u :: u != t ==> Kept(s', Thread(u)) == Kept(s, Thread(u))
    ensures s'.peers == s.peers ==> forall k :: k != Thread(t) ==> Kept(s', k) == Kept(s, k)
  {}

  lemma FindKeepsOwnership(s: State, t: ThreadId, a: Answers)
    requires Ownership(s) && t in s.threads && s.threads[t].Find?
    ensures Ownership(MoveOn(s, t, a))
  {
    var s' := MoveOn(s, t, a);
    var Find(p, after) := s.threads[t];
    if p in s.peers {
      ThreadsAt(s, s', t, ListSenders(s.peers[p], after));
      HandOver(s, s', Entry(p), Thread(t));
    } else {
      ThreadsAt(s, s', t, Resume(after));
      LetGo(s, s');
    }
  }

  lemma ScanKeepsOwnership(s: State, t: ThreadId, a: Answers)
    requires Ownership(s) && t in s.threads && s.threads[t].Scan?
    ensures Ownership(MoveOn(s, t, a))
  {
    var s' := MoveOn(s, t, a);
    var o := s.threads[t].o;
    ThreadsAt(s, s', t, s'.threads[t]);
    assert Kept(s, Thread(t)) == Some(o);
    if s.threads[t].todo == [] {
      Dispose(s, s', o);
    } else {
      LetGo(s, s');
    }
  }

  lemma MakeKeepsOwnership(s: State, t: ThreadId, a: Answers)
    requires Ownership(s) && t in s.threads && s.threads[t].MakeObserver?
    ensures Ownership(MoveOn(s, t, a))
  {
    var s' := MoveOn(s, t, a);
    ThreadsAt(s, s', t, s'.threads[t]);
    match a.connection
    case NoFactory => LetGo(s, s');
    case NoConnection => Dispose(s, s', s.next);
    case Connected => TakeNew(s, s', Thread(t));
  }

  lemma EnrollKeepsOwnership(s: State, t: ThreadId, a: Answers)
    requires Ownership(s) && t in s.threads && s.threads[t].Enroll?
    ensures Ownership(MoveOn(s, t, a))
  {
    var s' := MoveOn(s, t, a);
    ThreadsAt(s, s', t, s'.threads[t]);
    if s.threads[t].call.peerid in s.peers {
      LetGo(s, s');
    } else {
      HandOver(s, s', Thread(t), Entry(s.threads[t].call.peerid));
    }
  }

  // Every other step leaves the thread with what it had, or with nothing.
  lemma OtherMove(s: State, t: ThreadId, a: Answers)
    requires t in s.threads
    requires var pos := s.threads[t]; !pos.Find? && !pos.Scan? && !pos.MakeObserver? && !pos.Enroll? && !pos.Finished?
    ensures var s' := MoveOn(s, t, a);
            && s'.peers == s.peers && s'.deletions == s.deletions && s'.next == s.next
            && t in s'.threads && s'.threads == s.threads[t := s'.threads[t]]
            && (Owned(s'.threads[t]) == None || Owned(s'.threads[t]) == Owned(s.threads[t]))
  {}

  lemma NextKeepsOwnership(maxpc: int, s: State, step: Step)
    requires Ownership(s) && Enabled(maxpc, s, step)
    ensures Ownership(Next(s, step))
  {
    var t, s' := step.t, Next(s, step);
    if !step.Move? {
      ThreadsAt(s, s', t, s'.threads[t]);
      LetGo(s, s');
    } else if s.threads[t].Find? {
      FindKeepsOwnership(s, t, step.a);
    } else if s.threads[t].Scan? {
      ScanKeepsOwnership(s, t, step.a);
    } else if s.threads[t].MakeObserver? {
      MakeKeepsOwnership(s, t, step.a);
    } else if s.threads[t].Enroll? {
      EnrollKeepsOwnership(s, t, step.a);
    } else {
      OtherMove(s, t, step.a);
      ThreadsAt(s, s', t, s'.threads[t]);
      LetGo(s, s');
    }
  }

  lemma {:induction false} OwnershipThroughout(maxpc: int, ss: seq<State>, steps: seq<Step>, i: nat)
    requires IsRun(maxpc, ss, steps) && i < |ss|
    ensures Ownership(ss[i])
  {
    if i > 0 {
      OwnershipThroughout(maxpc, ss, steps, i - 1);
      assert Took(maxpc, ss, steps, i - 1);
      NextKeepsOwnership(maxpc, ss[i - 1], steps[i - 1]);
    }
  }

  // In every interleaving each observer is deleted at most once, and what the peer map holds
  // has not been deleted: a reader under the peer lock only touches live observers.
  lemma DeletedAtMostOnce(maxpc: int, ss: seq<State>, steps: seq<Step>, i: nat, o: ObserverId)
    requires IsRun(maxpc, ss, steps) && i < |ss|
    ensures ss[i].deletions[o] <= 1
    ensures forall p :: p in ss[i].peers && ss[i].peers[p] == o ==> ss[i].deletions[o] == 0
  {
    OwnershipThroughout(maxpc, ss, steps, i);
    forall p | p in ss[i].peers && ss[i].peers[p] == o ensures ss[i].deletions[o] == 0 {
      assert Kept(ss[i], Entry(p)) == Some(o);
    }
  }

  // ---------------------------------------------------------------- sharing

  // The stream map a history leaves behind.
  function Replay(h: seq<Fact>): map<string, Sources> {
    if h == [] then map[] else AfterFact(Replay(h[..|h| - 1]), h[|h| - 1])
  }

  function AfterFact(m: map<string, Sources>, f: Fact): map<string, Sources> {
    match f
    case Inserted(name, sources) => m[name := sources]
    case Erased(name) => m - {name}
    case Shared(_, _, _) => m
  }

  // Nothing is inserted over a present entry, and tracks get the entry that is present.
  ghost predicate Lawful(h: seq<Fact>) {
    forall i :: 0 <= i < |h| ==> LawfulFact(Replay(h[..i]), h[i])
  }

  ghost predicate LawfulFact(m: map<string, Sources>, f: Fact) {
    match f
    case Inserted(name, _) => name !in m
    case Erased(name) => name in m
    case Shared(_, name, sources) => name in m && m[name] == sources
  }

  ghost predicate Recorded(s: State) {
    s.streams == Replay(s.history) && Lawful(s.history)
  }

  lemma RecordOne(h: seq<Fact>, f: Fact)
    requires Lawful(h) && LawfulFact(Replay(h), f)
    ensures Lawful(h + [f])
    ensures Replay(h + [f]) == AfterFact(Replay(h), f)
  {
    var h' := h + [f];
    assert h'[..|h|] == h;
    forall i | 0 <= i < |h + [f]| ensures LawfulFact(Replay((h + [f])[..i]), (h + [f])[i]) {
      if i < |h| { assert (h + [f])[..i] == h[..i]; }
    }
  }

  lemma EraseIsRecorded(s: State, name: string)
    requires Recorded(s)
    ensures Recorded(StreamErased(s, name))
  {
    if name in s.streams { RecordOne(s.history, Erased(name)); }
  }

  lemma InsertIsRecorded(s: State, name: string, made: Sources)
    requires Recorded(s)
    ensures Recorded(SourcesInserted(s, name, made))
  {
    if name !in s.streams { RecordOne(s.history, Inserted(name, made)); }
  }

  lemma AttachIsRecorded(s: State, o: ObserverId, name: string, a: Answers)
    requires Recorded(s)
    ensures Recorded(TracksAttached(s, o, name, a))
  {
    if name in s.streams { RecordOne(s.history, Shared(o, name, s.streams[name])); }
  }

  lemma EffectIsRecorded(s: State, pos: Position, a: Answers)
    requires Recorded(s)
    ensures Recorded(Effect(s, pos, a))
  {
    if pos.EraseStream? {
      EraseIsRecorded(s, pos.name);
    } else if pos.InsertSources? {
      InsertIsRecorded(s, pos.call.name, pos.made);
    } else if pos.AttachTracks? {
      AttachIsRecorded(s, pos.o, pos.call.name, a);
    } else {
      assert Effect(s, pos, a).streams == s.streams && Effect(s, pos, a).history == s.history;
    }
  }

  lemma NextKeepsRecord(maxpc: int, s: State, step: Step)
    requires Recorded(s) && Enabled(maxpc, s, step)
    ensures Recorded(Next(s, step))
  {
    if step.Move? { EffectIsRecorded(s, s.threads[step.t], step.a); }
  }

  lemma {:induction false} RecordedThroughout(maxpc: int, ss: seq<State>, steps: seq<Step>, i: nat)
    requires IsRun(maxpc, ss, steps) && i < |ss|
    ensures Recorded(ss[i])
  {
    if i > 0 {
      RecordedThroughout(maxpc, ss, steps, i - 1);
      assert Took(maxpc, ss, steps, i - 1);
      NextKeepsRecord(maxpc, ss[i - 1], steps[i - 1]);
    }
  }

  lemma {:induction false} EntryPersists(h: seq<Fact>, name: string, i: nat, j: nat)
    requires Lawful(h) && i < j <= |h| && h[i].Inserted? && h[i].name == name
    requires forall k :: i < k < j ==> h[k] != Erased(name)
    ensures name in Replay(h[..j]) && Replay(h[..j])[name] == h[i].sources
  {
    assert h[..j][..j - 1] == h[..j - 1];
    assert Replay(h[..j]) == AfterFact(Replay(h[..j - 1]), h[j - 1]);
    if i + 1 < j {
      EntryPersists(h, name, i, j - 1);
      assert LawfulFact(Replay(h[..j - 1]), h[j - 1]);
    }
  }

  // Between an insertion and the next erasure of its label nothing is inserted under it, and every
  // track attached under it has the inserted sources, whichever thread attaches it: also one
  // whose own insertion came too late.
  lemma OneSourcePairPerLifetime(maxpc: int, ss: seq<State>, steps: seq<Step>, n: nat, i: nat, j: nat)
    requires IsRun(maxpc, ss, steps) && n < |ss|
    requires var h := ss[n].history;
             && i < j < |h| && h[i].Inserted? && h[j].name == h[i].name
             && forall k :: i < k < j ==> h[k] != Erased(h[i].name)
    ensures !ss[n].history[j].Inserted?
    ensures ss[n].history[j].Shared? ==> ss[n].history[j].sources == ss[n].history[i].sources
  {
    RecordedThroughout(maxpc, ss, steps, n);
    var h := ss[n].history;
    EntryPersists(h, h[i].name, i, j);
    assert LawfulFact(Replay(h[..j]), h[j]);
  }

  // Attaching puts the label to use with a registered observer if and only if it is in the map and a
  // video or an audio track is attached, and nothing else.
  lemma InUseAfterAttaching(s: State, o: ObserverId, name: string, a: Answers, n: string)
    requires exists p :: p in s.peers && s.peers[p] == o
    ensures InUse(TracksAttached(s, o, name, a), n) <==>
            || InUse(s, n)
            || (n == name && name in s.streams &&
                ((s.streams[name].video.Some? && a.video == Attached) || (s.streams[name].audio.Some? && a.audio == Attached)))
  {
    var s' := TracksAttached(s, o, name, a);
    var owner :| owner in s.peers && s.peers[owner] == o;
    forall p | p in s.peers
      ensures n in SendersOf(s', s'.peers[p]) <==>
              n in SendersOf(s, s.peers[p]) || (s.peers[p] == o && name in s.streams && n in Attaching(s.streams[name], name, a))
    {}
    if name in s.streams && n in Attaching(s.streams[name], name, a) {
      assert n in SendersOf(s', s'.peers[owner]);
    }
    if InUse(s, n) {
      var p :| p in s.peers && n in SendersOf(s, s.peers[p]);
      assert n in SendersOf(s', s'.peers[p]);
    }
  }

  // An attached track gives one sender each; an offer goes on to its registration if and only if the
  // label is in the map and some source there exists whose track was not refused.
  lemma AfterAttaching(s: State, call: Call, o: ObserverId, a: Answers)
    requires call.name in s.streams
    ensures var pair := s.streams[call.name];
            && |SendersOf(TracksAttached(s, o, call.name, a), o)| == |SendersOf(s, o)|
               + (if pair.video.Some? && a.video == Attached then 1 else 0)
               + (if pair.audio.Some? && a.audio == Attached then 1 else 0)
            && (Onward(s, AttachTracks(call, o), a) == Enroll(call, o) <==>
                call.kind == OfferCall &&
                ((pair.video.Some? && a.video != Refused) || (pair.audio.Some? && a.audio != Refused)))
  {}

  // ---------------------------------------------------------------- the two maps

  // Every label a registered peer uses is in the stream map.
  ghost predicate Agreement(s: State) {
    forall p, name :: p in s.peers && name in SendersOf(s, s.peers[p]) ==> name in s.streams
  }

  // The two lock sections that can separate the maps: erasing a label that came into use after the
  // check, and registering an offer whose label was erased after its tracks were attached.
  ghost predicate Separates(s: State, pos: Position) {
    match pos
    case EraseStream(_, name, _, _) => InUse(s, name) && name in s.streams
    case Enroll(call, o) => call.peerid !in s.peers && exists name :: name in SendersOf(s, o) && name !in s.streams
    case _ => false
  }

  lemma SeparationShows(s: State, pos: Position, a: Answers)
    requires Separates(s, pos)
    ensures !Agreement(Effect(s, pos, a))
  {
    var s' := Effect(s, pos, a);
    if pos.EraseStream? {
      var p :| p in s.peers && pos.name in SendersOf(s, s.peers[p]);
      assert p in s'.peers && pos.name in SendersOf(s', s'.peers[p]) && pos.name !in s'.streams;
    } else {
      var name :| name in SendersOf(s, pos.o) && name !in s.streams;
      assert pos.call.peerid in s'.peers && name in SendersOf(s', s'.peers[pos.call.peerid]);
    }
  }

  lemma MadeAgrees(s: State, now: nat)
    requires Ownership(s) && Agreement(s)
    ensures Agreement(Made(s, now))
  {
    forall p | p in s.peers ensures SendersOf(Made(s, now), s.peers[p]) == SendersOf(s, s.peers[p]) {
      assert Kept(s, Entry(p)) == Some(s.peers[p]);
    }
  }

  lemma AttachedAgrees(s: State, o: ObserverId, name: string, a: Answers)
    requires Agreement(s)
    ensures Agreement(TracksAttached(s, o, name, a))
  {
    var s' := TracksAttached(s, o, name, a);
    forall p, n | p in s'.peers && n in SendersOf(s', s'.peers[p]) ensures n in s'.streams {
      if n !in SendersOf(s, s.peers[p]) { assert n == name; }
    }
  }

  lemma EffectKeepsAgreement(s: State, pos: Position, a: Answers)
    requires Ownership(s) && Agreement(s) && !Separates(s, pos)
    ensures Agreement(Effect(s, pos, a))
  {
    if pos.MakeObserver? {
      MadeAgrees(s, a.now);
    } else if pos.AttachTracks? {
      AttachedAgrees(s, pos.o, pos.call.name, a);
    } else {
      assert forall o :: SendersOf(Effect(s, pos, a), o) == SendersOf(s, o);
    }
  }

  // Under interleaving the agreement of the maps is lost by those two sections and by nothing else.
  lemma AgreementLostExactlyWhen(maxpc: int, s: State, step: Step)
    requires Ownership(s) && Agreement(s) && Enabled(maxpc, s, step)
    ensures Agreement(Next(s, step)) <==> !(step.Move? && Separates(s, s.threads[step.t]))
  {
    var s' := Next(s, step);
    if step.Move? {
      var e := Effect(s, s.threads[step.t], step.a);
      assert s'.peers == e.peers && s'.streams == e.streams && s'.senders == e.senders;
      assert forall o :: SendersOf(s', o) == SendersOf(e, o);
      assert Agreement(s') <==> Agreement(e);
      if Separates(s, s.threads[step.t]) {
        SeparationShows(s, s.threads[step.t], step.a);
      } else {
        EffectKeepsAgreement(s, s.threads[step.t], step.a);
      }
    } else {
      assert forall o :: SendersOf(s', o) == SendersOf(s, o);
    }
  }
}
