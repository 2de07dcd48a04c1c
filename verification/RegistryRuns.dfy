/**
 What every serial run of the registry keeps: map agreement, and exact map
 agreement for tidy runs, with the input that breaks the latter and the exact
 condition under which one request keeps it.
 */
module RegistryRuns {
  import opened Common
  import opened Registry

  // One API request. The victim is whatever getOldestPeerCannection answered.
  datatype Event =
    | HangUpEvent(id: string)
    | AnswerEvent(q: Request, victim: string)
    | OfferEvent(q: Request, victim: string)

  // createOffer is undefined when the library makes no connection.
  predicate Defined(e: Event) {
    e.OfferEvent? ==> !e.q.connection.NoConnection?
  }

  ghost predicate Enabled(maxpc: int, r: Registry, e: Event)
    requires Valid(r)
  {
    Defined(e) && (IsCall(e) ==> IsVictim(r, maxpc, e.victim))
  }

  ghost function Apply(r: Registry, e: Event): Registry
    requires Valid(r) && Defined(e)
  {
    match e
    case HangUpEvent(id) => AfterHangUp(r, id)
    case AnswerEvent(q, victim) => AfterAnswer(r, q, victim)
    case OfferEvent(q, victim) => AfterOffer(r, q, victim)
  }

  // The state in which a call finds the registry once the victim is gone.
  ghost function Evicted(r: Registry, e: Event): Registry
    requires Valid(r) && !e.HangUpEvent?
  {
    Evict(r, e.victim)
  }

  predicate IsCall(e: Event) { !e.HangUpEvent? }

  // ---------------------------------------------------------------- one request

  lemma EvictKeepsValid(r: Registry, victim: string)
    requires Valid(r)
    ensures Valid(Evict(r, victim))
  {
    HangUpKeepsValid(r, victim);
  }

  lemma AddStreamsKeepsValid(r: Registry, o: ObserverId, q: Request)
    requires Valid(r) && o in r.observers
    ensures Valid(AfterAddStreams(r, o, q))
  {}

  lemma CreateKeepsValid(r: Registry, q: Request)
    requires Valid(r)
    ensures Valid(Create(r, q))
    ensures Valid(Register(Create(r, q), q.peerid, r.next))
  {}

  lemma AdmitKeepsValid(r: Registry, q: Request)
    requires Valid(r)
    ensures Valid(Admit(r, q))
  {
    CreateKeepsValid(r, q);
    AddStreamsKeepsValid(Register(Create(r, q), q.peerid, r.next), r.next, q);
  }

  lemma OfferKeepsValid(r: Registry, q: Request, victim: string)
    requires Valid(r) && !q.connection.NoConnection?
    ensures Valid(AfterOffer(r, q, victim))
  {
    EvictKeepsValid(r, victim);
    var r0 := Evict(r, victim);
    CreateKeepsValid(r0, q);
    AddStreamsKeepsValid(Create(r0, q), r0.next, q);
  }

  lemma ApplyKeepsValid(r: Registry, e: Event)
    requires Valid(r) && Defined(e)
    ensures Valid(Apply(r, e))
  {
    match e
    case HangUpEvent(id) => HangUpKeepsValid(r, id);
    case AnswerEvent(q, victim) =>
      EvictKeepsValid(r, victim);
      AdmitKeepsValid(Evict(r, victim), q);
    case OfferEvent(q, victim) => OfferKeepsValid(r, q, victim);
  }

  // Hanging up leaves every other peer alone, so a label is still used exactly by the others.
  lemma UsersAfterHangUp(r: Registry, id: string, p: string, name: string)
    requires Valid(r)
    ensures Uses(AfterHangUp(r, id), p, name) <==> p != id && Uses(r, p, name)
  {
    if p in r.peers && p != id {
      assert r.observers[r.peers[p]].peerid != id;
    }
  }

  lemma StillUsedAfterHangUp(r: Registry, id: string, name: string)
    requires Valid(r)
    ensures StillUsed(AfterHangUp(r, id), name) <==> exists p :: p != id && Uses(r, p, name)
    ensures id in r.peers ==> (StillUsed(AfterHangUp(r, id), name) <==> StillUsed(Unregister(r, id), name))
  {
    forall p ensures Uses(AfterHangUp(r, id), p, name) <==> p != id && Uses(r, p, name) {
      UsersAfterHangUp(r, id, p, name);
    }
    forall p ensures Uses(Unregister(r, id), p, name) <==> p != id && Uses(r, p, name) {}
  }

  lemma HangUpKeepsCovered(r: Registry, id: string)
    requires Valid(r) && Covered(r)
    ensures Covered(AfterHangUp(r, id))
  {
    forall name | StillUsed(AfterHangUp(r, id), name) ensures name in AfterHangUp(r, id).streams {
      StillUsedAfterHangUp(r, id, name);
      var p :| p != id && Uses(r, p, name);
      assert StillUsed(r, name);
    }
  }

  lemma HangUpKeepsExact(r: Registry, id: string)
    requires Valid(r) && Exact(r)
    ensures Exact(AfterHangUp(r, id))
  {
    HangUpKeepsCovered(r, id);
    if id in r.peers {
      forall name | name in AfterHangUp(r, id).streams ensures StillUsed(AfterHangUp(r, id), name) {
        StillUsedAfterHangUp(r, id, name);
        assert StillUsed(r, name);
        var p :| Uses(r, p, name);
        if p != id { assert StillUsed(AfterHangUp(r, id), name); }
      }
    }
  }

  // The labels the new observer ends up with, whether or not it is registered.
  lemma AdmittedLabels(r: Registry, q: Request)
    requires Valid(r)
    ensures r.next in Admit(r, q).observers
    ensures LabelsOf(Admit(r, q).observers[r.next].senders) == LabelsOf(NewSenders(r, q))
    ensures LabelsOf(NewSenders(r, q)) == if NewSenders(r, q) == [] then {} else {q.name}
  {
    var s, x := NewSenders(r, q), RemoteSenders(q.remoteSenders);
    LabelsOfConcat([], s);
    LabelsOfConcat([] + s, x);
    assert LabelsOf(x) == {};
    assert LabelsOf([]) == {};
    NewSendersLabels(r, q);
  }

  predicate Fresh(r: Registry, q: Request) { q.peerid !in r.peers }

  lemma UsersAfterAdmit(r: Registry, q: Request, p: string, name: string)
    requires Valid(r)
    ensures Uses(Admit(r, q), p, name) <==>
            Uses(r, p, name) || (Fresh(r, q) && p == q.peerid && NewSenders(r, q) != [] && name == q.name)
  {
    AdmittedLabels(r, q);
  }

  lemma StillUsedAfterAdmit(r: Registry, q: Request, name: string)
    requires Valid(r)
    ensures StillUsed(Admit(r, q), name) <==>
            StillUsed(r, name) || (Fresh(r, q) && NewSenders(r, q) != [] && name == q.name)
  {
    forall p ensures Uses(Admit(r, q), p, name) <==>
      Uses(r, p, name) || (Fresh(r, q) && p == q.peerid && NewSenders(r, q) != [] && name == q.name)
    {
      UsersAfterAdmit(r, q, p, name);
    }
    if Fresh(r, q) && NewSenders(r, q) != [] && name == q.name {
      assert Uses(Admit(r, q), q.peerid, name);
    }
  }

  lemma UsersAfterOffer(r: Registry, q: Request, p: string, name: string)
    requires Valid(r)
    ensures Offered(r, q).streams == WithStream(r, q).streams
    ensures Uses(Offered(r, q), p, name) <==>
            Uses(r, p, name) || (Fresh(r, q) && p == q.peerid && NewSenders(r, q) != [] && name == q.name)
  {
    OfferedObserver(r, q);
    var s := Offered(r, q);
    if p in r.peers {
      assert s.peers[p] == r.peers[p] && s.observers[s.peers[p]] == r.observers[r.peers[p]];
    } else if p in s.peers {
      assert p == q.peerid && s.peers[p] == r.next;
    }
  }

  // The observer a call has made, with its senders attached.
  lemma AddedObserver(r: Registry, q: Request)
    requires Valid(r)
    ensures var t := AfterAddStreams(Create(r, q), r.next, q);
            && t.observers == r.observers[r.next := Observer(q.peerid, q.now, NewSenders(r, q))]
            && t.peers == r.peers
  {
    var c, s := Create(r, q), NewSenders(r, q);
    assert NewSenders(c, q) == s && [] + s == s;
    var o := c.observers[r.next];
    assert o.(senders := o.senders + s) == Observer(q.peerid, q.now, s);
    assert AfterAddStreams(c, r.next, q).observers == c.observers[r.next := Observer(q.peerid, q.now, s)];
  }

  lemma OfferedObserver(r: Registry, q: Request)
    requires Valid(r)
    ensures Offered(r, q).observers == r.observers[r.next := Observer(q.peerid, q.now, NewSenders(r, q))]
    ensures LabelsOf(NewSenders(r, q)) == if NewSenders(r, q) == [] then {} else {q.name}
    ensures Offered(r, q).peers == if Streamed(r, q) && Fresh(r, q) then r.peers[q.peerid := r.next] else r.peers
    ensures NewSenders(r, q) != [] ==> Streamed(r, q)
  {
    AddedObserver(r, q);
    NewSendersLabels(r, q);
  }

  lemma NewSendersLabels(r: Registry, q: Request)
    ensures LabelsOf(NewSenders(r, q)) == if NewSenders(r, q) == [] then {} else {q.name}
  {
    var s := NewSenders(r, q);
    if s != [] { assert s[0][0] in LabelsOf(s); }
  }

  lemma StillUsedAfterOffer(r: Registry, q: Request, name: string)
    requires Valid(r)
    ensures Offered(r, q).streams == WithStream(r, q).streams
    ensures StillUsed(Offered(r, q), name) <==>
            StillUsed(r, name) || (Fresh(r, q) && NewSenders(r, q) != [] && name == q.name)
  {
    forall p ensures Uses(Offered(r, q), p, name) <==>
      Uses(r, p, name) || (Fresh(r, q) && p == q.peerid && NewSenders(r, q) != [] && name == q.name)
    {
      UsersAfterOffer(r, q, p, name);
    }
    UsersAfterOffer(r, q, q.peerid, name);
    if Fresh(r, q) && NewSenders(r, q) != [] && name == q.name {
      assert Uses(Offered(r, q), q.peerid, name);
    }
  }

  // Calls in which the library makes no connection only evict.
  lemma UnconnectedCall(r: Registry, e: Event)
    requires Valid(r) && Defined(e) && IsCall(e) && !e.q.connection.Connected?
    ensures Apply(r, e).peers == Evicted(r, e).peers && Apply(r, e).streams == Evicted(r, e).streams
    ensures forall name :: StillUsed(Apply(r, e), name) <==> StillUsed(Evicted(r, e), name)
  {
    forall p, name ensures Uses(Apply(r, e), p, name) <==> Uses(Evicted(r, e), p, name) {}
  }

  // For both kinds of call: what the streams and the users of a label are afterwards.
  lemma ConnectedCall(r: Registry, e: Event, name: string)
    requires Valid(r) && Defined(e) && IsCall(e) && e.q.connection.Connected?
    ensures Valid(Evicted(r, e))
    ensures Apply(r, e).streams == WithStream(Evicted(r, e), e.q).streams
    ensures StillUsed(Apply(r, e), name) <==>
            || StillUsed(Evicted(r, e), name)
            || (Fresh(Evicted(r, e), e.q) && NewSenders(Evicted(r, e), e.q) != [] && name == e.q.name)
  {
    EvictKeepsValid(r, e.victim);
    var r0 := Evicted(r, e);
    if e.OfferEvent? {
      StillUsedAfterOffer(r0, e.q, name);
    } else {
      AdmittedStreams(r0, e.q);
      StillUsedAfterAdmit(r0, e.q, name);
    }
  }

  lemma AdmittedStreams(r: Registry, q: Request)
    ensures Admit(r, q).streams == WithStream(r, q).streams
  {}

  lemma ApplyKeepsCovered(r: Registry, e: Event)
    requires Valid(r) && Defined(e) && Covered(r)
    ensures Covered(Apply(r, e))
  {
    if !IsCall(e) {
      HangUpKeepsCovered(r, e.id);
    } else {
      HangUpKeepsCovered(r, e.victim);
      if e.q.connection.Connected? {
        forall name | StillUsed(Apply(r, e), name) ensures name in Apply(r, e).streams {
          ConnectedCall(r, e, name);
        }
      } else {
        UnconnectedCall(r, e);
      }
    }
  }

  // The call gives the registry nothing it has to remember and nobody uses.
  ghost predicate Tidy(r: Registry, e: Event)
    requires Valid(r)
  {
    IsCall(e) && e.q.connection.Connected? ==>
      var r0 := Evicted(r, e);
      Fresh(r0, e.q) && NewSenders(r0, e.q) != []
  }

  // What a call does to the agreement of the maps about one label.
  lemma ExactAbout(r: Registry, e: Event, name: string)
    requires Valid(r) && Defined(e) && Exact(r) && IsCall(e) && e.q.connection.Connected?
    ensures name != e.q.name ==> (name in Apply(r, e).streams <==> StillUsed(Apply(r, e), name))
    ensures e.q.name in Apply(r, e).streams
    ensures StillUsed(Apply(r, e), e.q.name) <==> StillUsed(Evicted(r, e), e.q.name) || Tidy(r, e)
  {
    HangUpKeepsExact(r, e.victim);
    ConnectedCall(r, e, name);
    ConnectedCall(r, e, e.q.name);
    assert Exact(Evicted(r, e));
    assert name in Evicted(r, e).streams <==> StillUsed(Evicted(r, e), name);
  }

  // From an exact registry, one call keeps exactness if and only if its label is
  // already in use or its own peer is new and gets at least one track.
  lemma ExactAfterCall(r: Registry, e: Event)
    requires Valid(r) && Defined(e) && Exact(r) && IsCall(e) && e.q.connection.Connected?
    ensures Exact(Apply(r, e)) <==> StillUsed(Evicted(r, e), e.q.name) || Tidy(r, e)
  {
    var s, named := Apply(r, e), e.q.name;
    ExactAbout(r, e, named);
    if Exact(s) {
      assert named in s.streams <==> StillUsed(s, named);
    }
    if StillUsed(s, named) {
      forall name ensures name in s.streams <==> StillUsed(s, name) { ExactAbout(r, e, name); }
    }
  }

  lemma ApplyKeepsExact(r: Registry, e: Event)
    requires Valid(r) && Defined(e) && Exact(r) && Tidy(r, e)
    ensures Exact(Apply(r, e))
  {
    if !IsCall(e) {
      HangUpKeepsExact(r, e.id);
    } else if e.q.connection.Connected? {
      ExactAfterCall(r, e);
    } else {
      HangUpKeepsExact(r, e.victim);
      UnconnectedCall(r, e);
    }
  }

  // ---------------------------------------------------------------- runs

  ghost predicate Step(maxpc: int, r: Registry, e: Event, r': Registry) {
    Valid(r) && Enabled(maxpc, r, e) && r' == Apply(r, e)
  }

  // The events `es` take the empty registry through the states `rs`, one request after the other.
  ghost predicate IsRun(maxpc: int, rs: seq<Registry>, es: seq<Event>) {
    && |rs| == |es| + 1
    && rs[0] == Empty
    && forall i :: 0 <= i < |es| ==> Step(maxpc, rs[i], es[i], rs[i + 1])
  }

  lemma {:induction false} RunStaysValid(maxpc: int, rs: seq<Registry>, es: seq<Event>, i: nat)
    requires IsRun(maxpc, rs, es) && i < |rs|
    ensures Valid(rs[i])
  {
    if i > 0 {
      assert Step(maxpc, rs[i - 1], es[i - 1], rs[i]);
      ApplyKeepsValid(rs[i - 1], es[i - 1]);
    }
  }

  // Every label a registered peer uses is a key of the stream map, in every serial run.
  lemma {:induction false} LabelsAreKeys(maxpc: int, rs: seq<Registry>, es: seq<Event>, i: nat)
    requires IsRun(maxpc, rs, es) && i < |rs|
    ensures Covered(rs[i])
  {
    if i > 0 {
      LabelsAreKeys(maxpc, rs, es, i - 1);
      assert Step(maxpc, rs[i - 1], es[i - 1], rs[i]);
      ApplyKeepsCovered(rs[i - 1], es[i - 1]);
    }
  }

  ghost predicate IsTidyRun(maxpc: int, rs: seq<Registry>, es: seq<Event>) {
    IsRun(maxpc, rs, es) && forall i :: 0 <= i < |es| ==> Valid(rs[i]) && Tidy(rs[i], es[i])
  }

  // In a tidy run the stream map holds the labels in use and nothing else.
  lemma {:induction false} KeysAreLabels(maxpc: int, rs: seq<Registry>, es: seq<Event>, i: nat)
    requires IsTidyRun(maxpc, rs, es) && i < |rs|
    ensures Exact(rs[i])
  {
    if i > 0 {
      KeysAreLabels(maxpc, rs, es, i - 1);
      assert Step(maxpc, rs[i - 1], es[i - 1], rs[i]);
      ApplyKeepsExact(rs[i - 1], es[i - 1]);
    }
  }

  // Hanging up a list of peers, in order.
  ghost function AfterHangUps(r: Registry, ids: seq<string>): (s: Registry)
    requires Valid(r)
    ensures Valid(s)
    decreases |ids|
  {
    if ids == [] then r else
      HangUpKeepsValid(r, ids[0]);
      AfterHangUps(AfterHangUp(r, ids[0]), ids[1..])
  }

  lemma {:induction false} HangUpsUnregister(r: Registry, ids: seq<string>)
    requires Valid(r) && Exact(r)
    ensures AfterHangUps(r, ids).peers.Keys == r.peers.Keys - set id | id in ids
    ensures Exact(AfterHangUps(r, ids))
    decreases |ids|
  {
    if ids != [] {
      HangUpKeepsValid(r, ids[0]);
      HangUpKeepsExact(r, ids[0]);
      HangUpsUnregister(AfterHangUp(r, ids[0]), ids[1..]);
      assert ids == [ids[0]] + ids[1..];
    }
  }

  // After a tidy run, hanging up everyone, in any order, empties both maps.
  lemma HangingUpEveryoneEmptiesBothMaps(maxpc: int, rs: seq<Registry>, es: seq<Event>, i: nat, ids: seq<string>)
    requires IsTidyRun(maxpc, rs, es) && i < |rs|
    requires forall p :: p in rs[i].peers ==> p in ids
    ensures Valid(rs[i])
    ensures AfterHangUps(rs[i], ids).peers == map[] && AfterHangUps(rs[i], ids).streams == map[]
  {
    RunStaysValid(maxpc, rs, es, i);
    KeysAreLabels(maxpc, rs, es, i);
    HangUpsUnregister(rs[i], ids);
    var s := AfterHangUps(rs[i], ids);
    assert s.peers.Keys == {};
    assert forall p, name :: !Uses(s, p, name);
    assert s.streams.Keys == {};
  }

  // ---------------------------------------------------------------- tracks, on the request itself

  // The pair of sources under the label: the one in the map, or else the one just made.
  function PairFor(r: Registry, q: Request): Sources {
    if q.name in r.streams then r.streams[q.name] else q.made
  }

  // A video or an audio track is attached.
  predicate SomeTrack(pair: Sources, video: Track, audio: Track) {
    (pair.video.Some? && video == Attached) || (pair.audio.Some? && audio == Attached)
  }

  // A call puts its label to use if and only if its id is new and a track of either kind is attached.
  lemma UsedAfterAnswer(r: Registry, q: Request, name: string)
    requires Valid(r)
    ensures StillUsed(Admit(r, q), name) <==>
            StillUsed(r, name) || (q.peerid !in r.peers && name == q.name && SomeTrack(PairFor(r, q), q.video, q.audio))
  {
    StillUsedAfterAdmit(r, q, name);
  }

  lemma UsedAfterOffer(r: Registry, q: Request, name: string)
    requires Valid(r)
    ensures StillUsed(Offered(r, q), name) <==>
            StillUsed(r, name) || (q.peerid !in r.peers && name == q.name && SomeTrack(PairFor(r, q), q.video, q.audio))
  {
    StillUsedAfterOffer(r, q, name);
  }

  // One sender for each track attached, all of them under the label.
  lemma OneSenderPerTrack(r: Registry, q: Request)
    ensures var senders := NewSenders(r, q); var pair := PairFor(r, q);
            && |senders| == (if pair.video.Some? && q.video == Attached then 1 else 0)
                          + (if pair.audio.Some? && q.audio == Attached then 1 else 0)
            && (forall i :: 0 <= i < |senders| ==> senders[i] == [q.name])
  {}

  lemma AdmittedSenders(r: Registry, q: Request)
    requires Valid(r)
    ensures r.next in Admit(r, q).observers
    ensures Admit(r, q).observers[r.next].senders ==
            NewSenders(r, q) + if Streamed(r, q) then RemoteSenders(q.remoteSenders) else []
  {
    assert [] + NewSenders(r, q) == NewSenders(r, q);
  }

  // An offer registers its observer if and only if the id is new and some source of the pair exists
  // whose track was not refused: a missing track object counts as success.
  lemma OfferRegistersExactlyWhen(r: Registry, q: Request)
    requires Valid(r)
    ensures var pair := PairFor(r, q);
            q.peerid in Offered(r, q).peers && Offered(r, q).peers[q.peerid] == r.next <==>
            q.peerid !in r.peers && ((pair.video.Some? && q.video != Refused) || (pair.audio.Some? && q.audio != Refused))
  {
    OfferedObserver(r, q);
    if q.peerid in r.peers { assert r.peers[q.peerid] in r.observers; }
  }

  // ---------------------------------------------------------------- untidy runs

  // A pair of null sources is cached: no track, and the label outlives every peer.
  lemma NullSourcesLeaveTheirLabel(p: string, name: string)
    ensures var q := Request(p, 0, Connected, name, Sources(None, None), NoTrack, NoTrack, 0);
            var s := AfterHangUp(AfterAnswer(Empty, q, ""), p);
            Valid(AfterAnswer(Empty, q, "")) && s.peers == map[] && name in s.streams
  {
    var q := Request(p, 0, Connected, name, Sources(None, None), NoTrack, NoTrack, 0);
    ApplyKeepsValid(Empty, AnswerEvent(q, ""));
    var r := AfterAnswer(Empty, q, "");
    AdmittedLabels(Empty, q);
    assert Unused(Unregister(r, p), r.observers[0].senders) == {};
  }
}
