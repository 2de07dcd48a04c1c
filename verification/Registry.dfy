/**
 The peer and stream registry of `PeerConnectionManager`, one request at a time.

 `Registry` is a value: the peer map, the live observers (the C++ heap, so that
 an observer that lost its registration is still distinguishable from one that
 was deleted), and the stream map. The functions below say what a request does
 to it; the class `PeerConnectionManager` does it in place, with the loops of
 the source, and is proved equal to the functions.
 */
module Registry {
  import opened Common

  // std::numeric_limits<uint64_t>::max(), the starting point of the search for the oldest peer
  const NEVER: nat := 0xFFFF_FFFF_FFFF_FFFF

  type ObserverId = nat

  // Each sender carries the vector returned by stream_ids(); only its head is ever read.
  datatype Observer = Observer(peerid: string, created: nat, senders: seq<seq<string>>)

  // Video and audio source; either may be null.
  datatype Sources = Sources(video: Option<nat>, audio: Option<nat>)

  // What the factory and AddTrack answer: no track object, AddTrack refused, track attached.
  datatype Track = NoTrack | Refused | Attached

  datatype Registry = Registry(
    peers: map<string, ObserverId>,
    observers: map<ObserverId, Observer>,
    streams: map<string, Sources>,
    next: ObserverId)

  // What the library answers when a peer connection is asked for.
  datatype Connection = NoFactory | NoConnection | Connected

  // A call or an offer together with everything the library answers to it.
  datatype Request = Request(
    peerid: string, now: nat, connection: Connection, name: string,
    made: Sources, video: Track, audio: Track, remoteSenders: nat)

  const Empty := Registry(map[], map[], map[], 0)

  ghost predicate Valid(r: Registry) {
    && (forall p :: p in r.peers ==> r.peers[p] in r.observers && r.observers[r.peers[p]].peerid == p)
    && (forall o :: o in r.observers ==> o < r.next)
  }

  // ---------------------------------------------------------------- labels

  function LabelsOf(senders: seq<seq<string>>): set<string> {
    set i | 0 <= i < |senders| && senders[i] != [] :: senders[i][0]
  }

  ghost predicate Uses(r: Registry, p: string, name: string) {
    p in r.peers && r.peers[p] in r.observers && name in LabelsOf(r.observers[r.peers[p]].senders)
  }

  ghost predicate StillUsed(r: Registry, name: string) {
    exists p :: Uses(r, p, name)
  }

  // Every label a registered peer uses is a key of the stream map.
  ghost predicate Covered(r: Registry) {
    forall name :: StillUsed(r, name) ==> name in r.streams
  }

  // The keys of the stream map are exactly the labels of the registered peers.
  ghost predicate Exact(r: Registry) {
    forall name :: name in r.streams <==> StillUsed(r, name)
  }

  lemma LabelsOfPrefix(senders: seq<seq<string>>, i: nat)
    requires i < |senders|
    ensures LabelsOf(senders[..i + 1]) ==
            LabelsOf(senders[..i]) + (if senders[i] == [] then {} else {senders[i][0]})
  {
    var a, b := LabelsOf(senders[..i + 1]), LabelsOf(senders[..i]);
    forall x | x in a ensures x in b + (if senders[i] == [] then {} else {senders[i][0]}) {
      var k :| 0 <= k < i + 1 && senders[..i + 1][k] != [] && senders[..i + 1][k][0] == x;
      if k < i { assert senders[..i][k][0] == x; }
    }
    forall x | x in b ensures x in a {
      var k :| 0 <= k < i && senders[..i][k] != [] && senders[..i][k][0] == x;
      assert senders[..i + 1][k][0] == x;
    }
    if senders[i] != [] { assert senders[..i + 1][i][0] in a; }
  }

  lemma LabelsOfConcat(a: seq<seq<string>>, b: seq<seq<string>>)
    ensures LabelsOf(a + b) == LabelsOf(a) + LabelsOf(b)
  {
    forall x | x in LabelsOf(a) ensures x in LabelsOf(a + b) {
      var k :| 0 <= k < |a| && a[k] != [] && a[k][0] == x;
      assert (a + b)[k][0] == x;
    }
    forall x | x in LabelsOf(b) ensures x in LabelsOf(a + b) {
      var k :| 0 <= k < |b| && b[k] != [] && b[k][0] == x;
      assert (a + b)[|a| + k][0] == x;
    }
    forall x | x in LabelsOf(a + b) ensures x in LabelsOf(a) + LabelsOf(b) {
      var k :| 0 <= k < |a + b| && (a + b)[k] != [] && (a + b)[k][0] == x;
      if k < |a| { assert a[k][0] == x; } else { assert b[k - |a|][0] == x; }
    }
  }

  // ---------------------------------------------------------------- hanging up

  function Unregister(r: Registry, id: string): Registry {
    r.(peers := r.peers - {id})
  }

  // Of the labels of `senders`, those nobody registered in `r` uses any more.
  ghost function Unused(r: Registry, senders: seq<seq<string>>): set<string> {
    set name | name in LabelsOf(senders) && !StillUsed(r, name)
  }

  ghost function AfterHangUp(r: Registry, id: string): Registry
    requires Valid(r)
  {
    if id !in r.peers then r else
      var o := r.peers[id];
      var rest := Unregister(r, id);
      rest.(streams := r.streams - Unused(rest, r.observers[o].senders),
            observers := r.observers - {o})
  }

  // ---------------------------------------------------------------- eviction

  ghost predicate IsOldest(r: Registry, p: string)
    requires Valid(r)
  {
    && p in r.peers
    && r.observers[r.peers[p]].created < NEVER
    && forall q :: q in r.peers ==> r.observers[r.peers[p]].created <= r.observers[r.peers[q]].created
  }

  // The order in which a std::map visits its keys.
  predicate Precedes(a: string, b: string) {
    a == "" || (b != "" && (a[0] < b[0] || (a[0] == b[0] && Precedes(a[1..], b[1..]))))
  }

  lemma {:induction false} PrecedesIsTotal(a: string, b: string)
    ensures Precedes(a, b) || Precedes(b, a)
  {
    if a != "" && b != "" && a[0] == b[0] { PrecedesIsTotal(a[1..], b[1..]); }
  }

  lemma {:induction false} PrecedesIsTransitive(a: string, b: string, c: string)
    requires Precedes(a, b) && Precedes(b, c)
    ensures Precedes(a, c)
  {
    if a != "" && a[0] == b[0] == c[0] { PrecedesIsTransitive(a[1..], b[1..], c[1..]); }
  }

  // Some key comes first.
  lemma {:induction false} SomeKeyIsFirst(keys: set<string>) returns (k: string)
    requires keys != {}
    ensures k in keys && forall q :: q in keys ==> Precedes(k, q)
    decreases keys
  {
    k :| k in keys;
    PrecedesIsTotal(k, k);
    if keys != {k} {
      var m := SomeKeyIsFirst(keys - {k});
      PrecedesIsTotal(k, m);
      var first := if Precedes(k, m) then k else m;
      forall q | q in keys ensures Precedes(first, q) {
        if q != k && first == k { PrecedesIsTransitive(k, m, q); }
      }
      k := first;
    }
  }

  // The state of the search when the keys in `todo` have not been visited yet.
  ghost predicate Searched(r: Registry, todo: set<string>, oldest: string, least: nat, found: bool)
    requires Valid(r)
  {
    && todo <= r.peers.Keys
    && (!found ==> oldest == "" && least == NEVER)
    && (found ==> oldest in r.peers && oldest !in todo && least < NEVER && TimeOf(r, oldest) == least)
    && (forall q :: q in r.peers && q !in todo ==>
          least <= TimeOf(r, q) && (least == TimeOf(r, q) ==> Precedes(oldest, q)))
    && (forall q, k :: q in r.peers && q !in todo && k in todo ==> Precedes(q, k))
  }

  ghost function TimeOf(r: Registry, p: string): nat
    requires Valid(r) && p in r.peers
  {
    r.observers[r.peers[p]].created
  }

  lemma SearchOne(r: Registry, todo: set<string>, p: string, oldest: string, least: nat, found: bool)
    requires Valid(r) && Searched(r, todo, oldest, least, found) && p in todo
    requires forall q :: q in todo ==> Precedes(p, q)
    ensures if TimeOf(r, p) < least then Searched(r, todo - {p}, p, TimeOf(r, p), true)
            else Searched(r, todo - {p}, oldest, least, found)
  {
    assert Precedes(p, p);
    assert Precedes("", p);
  }

  lemma SearchAll(r: Registry, oldest: string, least: nat, found: bool)
    requires Valid(r) && Searched(r, {}, oldest, least, found)
    ensures found ==> IsOldest(r, oldest)
    ensures !found ==> oldest == "" && forall p :: !IsOldest(r, p)
    ensures forall p :: IsOldest(r, p) ==> Precedes(oldest, p)
  {
    assert forall q :: q in r.peers ==> TimeOf(r, q) == r.observers[r.peers[q]].created;
  }

  // The answer of getOldestPeerCannection; the empty id means "nobody".
  ghost predicate IsVictim(r: Registry, maxpc: int, victim: string)
    requires Valid(r)
  {
    if maxpc > 0 && |r.peers| >= maxpc && exists p :: IsOldest(r, p)
    then IsOldest(r, victim)
    else victim == ""
  }

  ghost function Evict(r: Registry, victim: string): Registry
    requires Valid(r)
  {
    if victim == "" then r else AfterHangUp(r, victim)
  }

  // ---------------------------------------------------------------- streams

  function WithStream(r: Registry, q: Request): Registry {
    if q.name in r.streams then r else r.(streams := r.streams[q.name := q.made])
  }

  // The source pair AddStreams finds once the label is known to be in the map.
  function SharedSources(r: Registry, q: Request): Sources {
    if q.name in r.streams then r.streams[q.name] else q.made
  }

  function NewSenders(r: Registry, q: Request): seq<seq<string>> {
    var s := SharedSources(r, q);
    (if s.video.Some? && q.video.Attached? then [[q.name]] else [])
    + (if s.audio.Some? && q.audio.Attached? then [[q.name]] else [])
  }

  // The result of AddStreams: a missing track object counts as success.
  predicate Streamed(r: Registry, q: Request) {
    var s := SharedSources(r, q);
    (s.video.Some? && !q.video.Refused?) || (s.audio.Some? && !q.audio.Refused?)
  }

  function Attach(r: Registry, o: ObserverId, senders: seq<seq<string>>): Registry
    requires o in r.observers
  {
    r.(observers := r.observers[o := r.observers[o].(senders := r.observers[o].senders + senders)])
  }

  function AfterAddStreams(r: Registry, o: ObserverId, q: Request): Registry
    requires o in r.observers
  {
    Attach(WithStream(r, q), o, NewSenders(r, q))
  }

  // ---------------------------------------------------------------- calls

  function Create(r: Registry, q: Request): Registry {
    r.(observers := r.observers[r.next := Observer(q.peerid, q.now, [])], next := r.next + 1)
  }

  // std::map::insert leaves an existing entry alone.
  function Register(r: Registry, id: string, o: ObserverId): Registry {
    if id in r.peers then r else r.(peers := r.peers[id := o])
  }

  function RemoteSenders(n: nat): seq<seq<string>> {
    seq(n, i => [])
  }

  // getAnswer once the victim is gone and the connection exists: register, then add the streams.
  function Admit(r: Registry, q: Request): Registry {
    var r1 := Register(Create(r, q), q.peerid, r.next);
    var r2 := AfterAddStreams(r1, r.next, q);
    if Streamed(r, q) then Attach(r2, r.next, RemoteSenders(q.remoteSenders)) else r2
  }

  // getAnswer once the victim is gone.
  function Answered(r: Registry, q: Request): Registry {
    match q.connection
    case NoFactory => r
    case NoConnection => r.(next := r.next + 1)  // created, then deleted again
    case Connected => Admit(r, q)
  }

  ghost function AfterAnswer(r: Registry, q: Request, victim: string): Registry
    requires Valid(r)
  {
    Answered(Evict(r, victim), q)
  }

  // createOffer once the victim is gone: add the streams, and register only when that worked.
  function Offered(r: Registry, q: Request): Registry {
    var r1 := AfterAddStreams(Create(r, q), r.next, q);
    if Streamed(r, q) then Register(r1, q.peerid, r.next) else r1
  }

  // The source dereferences the peer connection without looking, so one must have been made.
  ghost function AfterOffer(r: Registry, q: Request, victim: string): Registry
    requires Valid(r) && !q.connection.NoConnection?
  {
    var r0 := Evict(r, victim);
    if q.connection.NoFactory? then r0 else Offered(r0, q)
  }

  // ---------------------------------------------------------------- the class

  class PeerConnectionManager {
    const maxpc: int
    var peers: map<string, ObserverId>
    var observers: map<ObserverId, Observer>
    var streams: map<string, Sources>
    var next: ObserverId

    constructor (maxpc: int)
      ensures this.maxpc == maxpc && State() == Empty && Valid(State())
    {
      this.maxpc := maxpc;
      peers, observers, streams, next := map[], map[], map[], 0;
    }

    function State(): Registry
      reads this
    {
      Registry(peers, observers, streams, next)
    }

    // Scan every registered peer and every sender of it.
    method StreamStillUsed(name: string) returns (stillUsed: bool)
      requires Valid(State())
      ensures stillUsed <==> StillUsed(State(), name)
    {
      stillUsed := false;
      var todo := peers.Keys;
      while todo != {}
        invariant todo <= peers.Keys
        invariant stillUsed <==> exists p :: p !in todo && Uses(State(), p, name)
        decreases todo
      {
        var p :| p in todo;
        todo := todo - {p};
        var senders := observers[peers[p]].senders;
        var found := false;
        for i := 0 to |senders|
          invariant !found
          invariant name !in LabelsOf(senders[..i])
        {
          LabelsOfPrefix(senders, i);
          if |senders[i]| > 0 && senders[i][0] == name {
            found := true;
            break;
          }
        }
        assert senders[..|senders|] == senders;
        assert found <==> Uses(State(), p, name);
        stillUsed := stillUsed || found;
      }
    }

    method HangUp(id: string) returns (result: bool)
      requires Valid(State())
      modifies this
      ensures State() == AfterHangUp(old(State()), id)
      ensures result <==> id in old(peers)
    {
      result := id in peers;
      if result {
        var o := peers[id];
        peers := peers - {id};
        var senders := observers[o].senders;
        ghost var rest := Unregister(old(State()), id);
        for i := 0 to |senders|
          invariant peers == rest.peers && observers == rest.observers && next == rest.next
          invariant streams == rest.streams - Unused(rest, senders[..i])
        {
          LabelsOfPrefix(senders, i);
          if |senders[i]| > 0 {
            var name := senders[i][0];
            var stillUsed := StreamStillUsed(name);
            assert stillUsed <==> StillUsed(rest, name) by {
              assert forall p :: Uses(State(), p, name) == Uses(rest, p, name);
            }
            if !stillUsed {
              streams := streams - {name};
              assert Unused(rest, senders[..i + 1]) == Unused(rest, senders[..i]) + {name};
            } else {
              assert Unused(rest, senders[..i + 1]) == Unused(rest, senders[..i]);
            }
          }
        }
        assert senders[..|senders|] == senders;
        observers := observers - {o};
      }
    }

    method GetOldestPeerConnection() returns (oldest: string)
      requires Valid(State())
      ensures IsVictim(State(), maxpc, oldest)
      // of equally old peers the first in key order
      ensures maxpc > 0 && |peers| >= maxpc ==> forall p :: IsOldest(State(), p) ==> Precedes(oldest, p)
    {
      oldest := "";
      if maxpc > 0 && |peers| >= maxpc {
        var least := NEVER;
        ghost var found := false;
        var todo := peers.Keys;
        while todo != {}
          invariant Searched(State(), todo, oldest, least, found)
          decreases todo
        {
          ghost var first := SomeKeyIsFirst(todo);
          var p :| p in todo && forall q :: q in todo ==> Precedes(p, q);
          SearchOne(State(), todo, p, oldest, least, found);
          todo := todo - {p};
          var created := observers[peers[p]].created;
          if created < least {
            least, oldest := created, observers[peers[p]].peerid;
            found := true;
          }
        }
        SearchAll(State(), oldest, least, found);
      }
    }

    method AddStreams(o: ObserverId, q: Request) returns (ret: bool)
      requires Valid(State()) && o in observers
      modifies this
      ensures State() == AfterAddStreams(old(State()), o, q)
      ensures ret <==> Streamed(old(State()), q)
    {
      ret := false;
      var needToCreate := q.name !in streams;
      if needToCreate {
        if q.name !in streams {
          streams := streams[q.name := q.made];
        }
      }
      var pair := streams[q.name];
      var senders := observers[o].senders;
      if pair.video.Some? {
        if !q.video.Refused? { ret := true; }
        if q.video.Attached? { senders := senders + [[q.name]]; }
      }
      if pair.audio.Some? {
        if !q.audio.Refused? { ret := true; }
        if q.audio.Attached? { senders := senders + [[q.name]]; }
      }
      assert senders == observers[o].senders + NewSenders(old(State()), q);
      observers := observers[o := observers[o].(senders := senders)];
    }

    // The observer is null when there is no factory.
    method CreatePeerConnection(q: Request) returns (o: Option<ObserverId>, ghost victim: string)
      requires Valid(State())
      modifies this
      ensures IsVictim(old(State()), maxpc, victim)
      ensures var r0 := Evict(old(State()), victim);
              if q.connection.NoFactory? then o == None && State() == r0
              else o == Some(r0.next) && State() == Create(r0, q)
    {
      var oldest := GetOldestPeerConnection();
      victim := oldest;
      if oldest != "" {
        var _ := HangUp(oldest);
      }
      if q.connection.NoFactory? {
        o := None;
      } else {
        o := Some(next);
        observers := observers[next := Observer(q.peerid, q.now, [])];
        next := next + 1;
      }
    }

    method GetAnswer(q: Request) returns (ghost victim: string)
      requires Valid(State())
      modifies this
      ensures IsVictim(old(State()), maxpc, victim)
      ensures State() == AfterAnswer(old(State()), q, victim)
    {
      var o;
      o, victim := CreatePeerConnection(q);
      HangUpKeepsValid(old(State()), victim);
      UseConnection(Evict(old(State()), victim), o, q);
    }

    // What getAnswer does with the observer it was given, if any.
    method UseConnection(ghost r0: Registry, o: Option<ObserverId>, q: Request)
      requires Valid(r0)
      requires if q.connection.NoFactory? then o == None && State() == r0 else o == Some(r0.next) && State() == Create(r0, q)
      modifies this
      ensures State() == Answered(r0, q)
    {
      match o
      case None =>
      case Some(o) =>
        if q.connection.NoConnection? {
          DeletedAgain(r0, q);
          observers := observers - {o};
        } else {
          RegisterAndStream(r0, o, q);
        }
    }

    // The tail of getAnswer, from the registration on.
    method RegisterAndStream(ghost r0: Registry, o: ObserverId, q: Request)
      requires Valid(r0) && o == r0.next && State() == Create(r0, q)
      modifies this
      ensures State() == Admit(r0, q)
    {
      if q.peerid !in peers {
        peers := peers[q.peerid := o];
      }
      assert State() == Register(Create(r0, q), q.peerid, o);
      var ret := AddStreams(o, q);
      if ret {
        observers := observers[o := observers[o].(senders := observers[o].senders + RemoteSenders(q.remoteSenders))];
      }
    }

    method CreateOffer(q: Request) returns (ghost victim: string)
      requires Valid(State()) && !q.connection.NoConnection?
      modifies this
      ensures IsVictim(old(State()), maxpc, victim)
      ensures State() == AfterOffer(old(State()), q, victim)
    {
      var o;
      o, victim := CreatePeerConnection(q);
      HangUpKeepsValid(old(State()), victim);
      match o
      case None =>
      case Some(o) =>
        var ret := AddStreams(o, q);
        if ret && q.peerid !in peers {
          peers := peers[q.peerid := o];
        }
    }
  }

  lemma DeletedAgain(r: Registry, q: Request)
    requires Valid(r)
    ensures Create(r, q).observers - {r.next} == r.observers
  {}

  lemma HangUpKeepsValid(r: Registry, id: string)
    requires Valid(r)
    ensures Valid(AfterHangUp(r, id))
  {
    if id in r.peers {
      forall p | p in AfterHangUp(r, id).peers
        ensures r.peers[p] in AfterHangUp(r, id).observers
      {
        assert r.observers[r.peers[p]].peerid == p != id;
      }
    }
  }
}
