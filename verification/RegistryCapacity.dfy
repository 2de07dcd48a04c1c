/**
 The capacity bound `maxpc`: every serial run of calls and hangups refines a
 bounded queue of peer ids in order of creation. An empty peer id breaks the
 bound, because the empty id is also how the search says "nobody".
 */
module RegistryCapacity {
  import opened Collections
  import opened Registry
  import opened RegistryRuns

  // Does the call get as far as registering its peer?
  predicate Accepted(r0: Registry, e: Event)
    requires IsCall(e)
  {
    e.q.connection.Connected? && (e.OfferEvent? ==> Streamed(r0, e.q))
  }

  // `r1` is `r0` with the observer `r0.next` added and perhaps registered under `id`.
  ghost predicate Grown(r0: Registry, r1: Registry, id: string, now: nat, accepted: bool) {
    && r1.peers == (if accepted && id !in r0.peers then r0.peers[id := r0.next] else r0.peers)
    && (forall o :: o in r0.observers ==> o in r1.observers && r1.observers[o] == r0.observers[o])
    && (accepted ==> r0.next in r1.observers && r1.observers[r0.next].created == now)
  }

  lemma CallGrows(r: Registry, e: Event)
    requires Valid(r) && Defined(e) && IsCall(e)
    ensures Valid(Evicted(r, e))
    ensures Grown(Evicted(r, e), Apply(r, e), e.q.peerid, e.q.now, Accepted(Evicted(r, e), e))
  {
    EvictKeepsValid(r, e.victim);
    var r0 := Evicted(r, e);
    if e.q.connection.Connected? {
      if e.OfferEvent? {
        OfferedObserver(r0, e.q);
        assert Apply(r, e) == Offered(r0, e.q);
      } else {
        assert Apply(r, e) == Admit(r0, e.q);
        AdmitGrows(r0, e.q);
      }
    }
  }

  lemma AdmitGrows(r: Registry, q: Request)
    requires Valid(r)
    ensures Grown(r, Admit(r, q), q.peerid, q.now, true)
  {
    forall o | o in r.observers ensures o in Admit(r, q).observers && Admit(r, q).observers[o] == r.observers[o] {
      assert o != r.next;
    }
  }

  lemma GrownTimes(r0: Registry, r1: Registry, id: string, now: nat, accepted: bool)
    requires Valid(r0) && Grown(r0, r1, id, now, accepted)
    ensures forall p :: p in r0.peers ==> Created(r1, p) == Created(r0, p)
    ensures id !in r0.peers && id in r1.peers ==> Created(r1, id) == now
  {}

  ghost function Created(r: Registry, p: string): int {
    if p in r.peers && r.peers[p] in r.observers then r.observers[r.peers[p]].created else -1
  }

  lemma PeersAfterEvict(r: Registry, victim: string)
    requires Valid(r)
    ensures Evict(r, victim).peers == (if victim == "" then r.peers else r.peers - {victim})
    ensures victim != "" && victim in r.peers ==> |Evict(r, victim).peers| == |r.peers| - 1
  {
    SizeWithout(r.peers, victim);
  }

  // ---------------------------------------------------------------- the bound, one call

  // A call breaks a bound that held before it if and only if the registry was full,
  // the search for the oldest peer answered "nobody", and a new peer was registered.
  lemma BoundAfterCall(maxpc: int, r: Registry, e: Event)
    requires Valid(r) && IsCall(e) && Enabled(maxpc, r, e)
    requires maxpc > 0 && |r.peers| <= maxpc
    ensures |Apply(r, e).peers| <= maxpc <==>
            !(|r.peers| == maxpc && e.victim == "" && Accepted(r, e) && Fresh(r, e.q))
  {
    CallGrows(r, e);
    PeersAfterEvict(r, e.victim);
    var r0 := Evicted(r, e);
    if Accepted(r0, e) && Fresh(r0, e.q) {
      SizeWith(r0.peers, e.q.peerid, r0.next);
    }
  }

  // ---------------------------------------------------------------- the bounded queue

  datatype QueueOp = Enter(id: string, accepted: bool) | Leave(id: string)

  // Drop the head when full, append, or remove by id.
  function QueueStep(maxpc: nat, queue: seq<string>, op: QueueOp): seq<string> {
    match op
    case Enter(id, accepted) =>
      var room := if |queue| >= maxpc && queue != [] then queue[1..] else queue;
      if accepted && id !in room then room + [id] else room
    case Leave(id) => Without(queue, id)
  }

  ghost function OpOf(r: Registry, e: Event): QueueOp
    requires Valid(r)
  {
    if e.HangUpEvent? then Leave(e.id) else Enter(e.q.peerid, Accepted(Evicted(r, e), e))
  }

  ghost function QueueAfter(maxpc: nat, rs: seq<Registry>, es: seq<Event>, i: nat): seq<string>
    requires IsRun(maxpc, rs, es) && i < |rs|
  {
    if i == 0 then [] else
      var r := rs[i - 1];
      assert Step(maxpc, r, es[i - 1], rs[i]);
      QueueStep(maxpc, QueueAfter(maxpc, rs, es, i - 1), OpOf(r, es[i - 1]))
  }

  // The queue lists the registered peers, oldest first.
  ghost predicate Ordered(r: Registry, queue: seq<string>) {
    forall i, j :: 0 <= i < j < |queue| ==> Created(r, queue[i]) < Created(r, queue[j])
  }

  ghost predicate Lists(r: Registry, queue: seq<string>) {
    forall p :: p in queue <==> p in r.peers
  }

  ghost predicate Refines(maxpc: nat, r: Registry, queue: seq<string>) {
    Valid(r) && Lists(r, queue) && Ordered(r, queue) && |queue| <= maxpc
    && forall p :: p in r.peers ==> p != "" && Created(r, p) < NEVER
  }

  lemma {:induction false} WithoutKeepsOrder(r: Registry, queue: seq<string>, id: string)
    requires Ordered(r, queue)
    ensures Ordered(r, Without(queue, id))
  {
    if queue != [] {
      var n := |queue| - 1;
      var last, rest := queue[n], Without(queue[..n], id);
      assert Ordered(r, queue[..n]);
      WithoutKeepsOrder(r, queue[..n], id);
      if last == id {
        assert Without(queue, id) == rest;
      } else {
        forall x | x in rest ensures Created(r, x) < Created(r, last) {
          WithoutHolds(queue[..n], id, x);
          var k :| 0 <= k < n && queue[..n][k] == x;
          assert queue[k] == x;
        }
        OrderedAppend(r, rest, last);
      }
    }
  }

  lemma OrderedAppend(r: Registry, queue: seq<string>, id: string)
    requires Ordered(r, queue)
    requires forall x :: x in queue ==> Created(r, x) < Created(r, id)
    ensures Ordered(r, queue + [id])
  {
    var q' := queue + [id];
    forall i, j | 0 <= i < j < |q'| ensures Created(r, q'[i]) < Created(r, q'[j]) {
      assert q'[i] == queue[i] && queue[i] in queue;
      if j < |queue| { assert q'[j] == queue[j]; }
    }
  }

  lemma OrderedDistinct(r: Registry, queue: seq<string>, i: nat, j: nat)
    requires Ordered(r, queue) && i < j < |queue|
    ensures queue[i] != queue[j]
  {
    assert Created(r, queue[i]) < Created(r, queue[j]);
  }

  lemma WithoutHead(r: Registry, queue: seq<string>)
    requires Ordered(r, queue) && queue != []
    ensures Without(queue, queue[0]) == queue[1..]
  {
    var head, tail := queue[0], queue[1..];
    assert queue == [head] + tail;
    WithoutOfConcat([head], tail, head);
    assert Without([head], head) == [] by { assert [head][..0] == []; }
    assert head !in tail by {
      forall k | 0 <= k < |tail| ensures tail[k] != head { OrderedDistinct(r, queue, 0, k + 1); }
    }
    WithoutNothing(tail, head);
  }

  lemma QueueSize(r: Registry, queue: seq<string>)
    requires Lists(r, queue) && Ordered(r, queue)
    ensures |r.peers| == |queue|
  {
    forall i, j | 0 <= i < j < |queue| ensures queue[i] != queue[j] {
      assert Created(r, queue[i]) < Created(r, queue[j]);
    }
    DistinctSize(queue);
    assert r.peers.Keys == set x | x in queue;
  }

  lemma {:induction false} DistinctSize(queue: seq<string>)
    requires forall i, j :: 0 <= i < j < |queue| ==> queue[i] != queue[j]
    ensures |set x | x in queue| == |queue|
  {
    if queue == [] {
      assert (set x | x in queue) == {};
    } else {
      var tail := queue[1..];
      DistinctSize(tail);
      assert queue == [queue[0]] + tail;
      assert queue[0] !in tail;
      assert (set x | x in queue) == {queue[0]} + set x | x in tail;
    }
  }

  lemma OrderTransfers(r: Registry, r': Registry, queue: seq<string>)
    requires Ordered(r, queue)
    requires forall p :: p in queue ==> Created(r', p) == Created(r, p)
    ensures Ordered(r', queue)
  {}

  // The peer the search finds in a full registry is the head of the queue.
  lemma VictimIsHead(maxpc: nat, r: Registry, queue: seq<string>, victim: string)
    requires Refines(maxpc, r, queue) && maxpc > 0 && IsVictim(r, maxpc, victim)
    ensures if |queue| >= maxpc then victim == queue[0] else victim == ""
  {
    QueueSize(r, queue);
    if |queue| >= maxpc {
      assert queue[0] in r.peers;
      forall q | q in r.peers ensures Created(r, queue[0]) <= Created(r, q) {
        var k :| 0 <= k < |queue| && queue[k] == q;
      }
      assert IsOldest(r, queue[0]);
      var k :| 0 <= k < |queue| && queue[k] == victim;
      assert Created(r, victim) <= Created(r, queue[0]);
    }
  }

  lemma HangUpRefines(maxpc: nat, r: Registry, queue: seq<string>, id: string)
    requires Refines(maxpc, r, queue)
    ensures Refines(maxpc, AfterHangUp(r, id), Without(queue, id))
    ensures forall p :: p in AfterHangUp(r, id).peers ==> Created(AfterHangUp(r, id), p) == Created(r, p)
  {
    forall p ensures p in Without(queue, id) <==> p in queue && p != id { WithoutHolds(queue, id, p); }
    WithoutHolds(queue, id, id);
    HangUpKeepsValid(r, id);
    WithoutKeepsOrder(r, queue, id);
    OrderTransfers(r, AfterHangUp(r, id), Without(queue, id));
  }

  lemma CallRefines(maxpc: nat, r: Registry, queue: seq<string>, e: Event)
    requires Refines(maxpc, r, queue) && maxpc > 0 && IsCall(e) && Enabled(maxpc, r, e)
    requires e.q.peerid != "" && e.q.now < NEVER
    requires forall p :: p in r.peers ==> Created(r, p) < e.q.now
    ensures Refines(maxpc, Apply(r, e), QueueStep(maxpc, queue, OpOf(r, e)))
    ensures forall p :: p in Apply(r, e).peers ==> Created(Apply(r, e), p) <= e.q.now
  {
    VictimIsHead(maxpc, r, queue, e.victim);
    var room := if |queue| >= maxpc && queue != [] then queue[1..] else queue;
    EvictRefines(maxpc, r, queue, e.victim, room);
    var r0 := Evicted(r, e);
    CallGrows(r, e);
    ApplyKeepsValid(r, e);
    GrowthRefines(maxpc, r0, Apply(r, e), room, e.q.peerid, e.q.now, Accepted(r0, e));
  }

  lemma EvictRefines(maxpc: nat, r: Registry, queue: seq<string>, victim: string, room: seq<string>)
    requires Refines(maxpc, r, queue) && maxpc > 0
    requires if |queue| >= maxpc then victim == queue[0] && room == queue[1..] else victim == "" && room == queue
    ensures Refines(maxpc, Evict(r, victim), room) && |room| < maxpc
    ensures forall p :: p in Evict(r, victim).peers ==> p in r.peers && Created(Evict(r, victim), p) == Created(r, p)
  {
    if |queue| >= maxpc {
      assert victim in r.peers;
      HangUpRefines(maxpc, r, queue, victim);
      WithoutHead(r, queue);
    }
  }

  lemma GrowthRefines(maxpc: nat, r0: Registry, r1: Registry, room: seq<string>, id: string, now: nat, accepted: bool)
    requires Refines(maxpc, r0, room) && |room| < maxpc && Valid(r1)
    requires Grown(r0, r1, id, now, accepted) && id != "" && now < NEVER
    requires forall p :: p in r0.peers ==> Created(r0, p) < now
    ensures Refines(maxpc, r1, if accepted && id !in room then room + [id] else room)
    ensures forall p :: p in r1.peers ==> Created(r1, p) <= now
  {
    GrownTimes(r0, r1, id, now, accepted);
    if accepted && id !in room {
      NewcomerRefines(maxpc, r0, r1, room, id, now);
    } else {
      assert r1.peers == r0.peers;
      OrderTransfers(r0, r1, room);
    }
  }

  lemma NewcomerRefines(maxpc: nat, r0: Registry, r1: Registry, room: seq<string>, id: string, now: nat)
    requires Lists(r0, room) && Ordered(r0, room) && id !in room
    requires r1.peers == r0.peers[id := r0.next]
    requires Created(r1, id) == now
    requires forall p :: p in room ==> Created(r1, p) == Created(r0, p) < now
    ensures Lists(r1, room + [id]) && Ordered(r1, room + [id])
  {
    OrderTransfers(r0, r1, room);
    OrderedAppend(r1, room, id);
  }

  // ---------------------------------------------------------------- runs

  // Calls carry non-empty ids and strictly increasing creation times.
  ghost predicate Ordinary(es: seq<Event>) {
    && (forall i :: 0 <= i < |es| && IsCall(es[i]) ==> es[i].q.peerid != "" && es[i].q.now < NEVER)
    && (forall i, j :: 0 <= i < j < |es| && IsCall(es[i]) && IsCall(es[j]) ==> es[i].q.now < es[j].q.now)
  }

  ghost predicate CreatedBefore(r: Registry, t: int) {
    forall p :: p in r.peers ==> Created(r, p) < t
  }

  lemma StepRefines(maxpc: nat, r: Registry, queue: seq<string>, e: Event)
    requires Refines(maxpc, r, queue) && maxpc > 0 && Enabled(maxpc, r, e)
    requires IsCall(e) ==> e.q.peerid != "" && e.q.now < NEVER && CreatedBefore(r, e.q.now)
    ensures Refines(maxpc, Apply(r, e), QueueStep(maxpc, queue, OpOf(r, e)))
    ensures forall t :: CreatedBefore(r, t) && (IsCall(e) ==> e.q.now < t) ==> CreatedBefore(Apply(r, e), t)
  {
    if IsCall(e) {
      CallRefines(maxpc, r, queue, e);
    } else {
      HangUpRefines(maxpc, r, queue, e.id);
    }
  }

  // Every serial run refines the bounded queue.
  lemma {:induction false} RunRefinesQueue(maxpc: nat, rs: seq<Registry>, es: seq<Event>, i: nat)
    requires maxpc > 0 && IsRun(maxpc, rs, es) && Ordinary(es) && i < |rs|
    ensures Refines(maxpc, rs[i], QueueAfter(maxpc, rs, es, i))
    ensures forall j :: i <= j < |es| && IsCall(es[j]) ==> CreatedBefore(rs[i], es[j].q.now)
  {
    if i > 0 {
      RunRefinesQueue(maxpc, rs, es, i - 1);
      assert Step(maxpc, rs[i - 1], es[i - 1], rs[i]);
      StepRefines(maxpc, rs[i - 1], QueueAfter(maxpc, rs, es, i - 1), es[i - 1]);
    }
  }

  // The bound holds throughout, and a full registry always evicts its oldest peer.
  lemma NeverMoreThanMaxpc(maxpc: nat, rs: seq<Registry>, es: seq<Event>, i: nat)
    requires maxpc > 0 && IsRun(maxpc, rs, es) && Ordinary(es) && i < |rs|
    ensures |rs[i].peers| <= maxpc
    ensures i < |es| && IsCall(es[i]) && |rs[i].peers| == maxpc ==>
            Valid(rs[i]) && IsOldest(rs[i], es[i].victim) && es[i].victim !in rs[i + 1].peers - {es[i].q.peerid}
  {
    RunRefinesQueue(maxpc, rs, es, i);
    var queue := QueueAfter(maxpc, rs, es, i);
    QueueSize(rs[i], queue);
    if i < |es| && IsCall(es[i]) && |rs[i].peers| == maxpc {
      assert Step(maxpc, rs[i], es[i], rs[i + 1]);
      VictimIsHead(maxpc, rs[i], queue, es[i].victim);
      CallGrows(rs[i], es[i]);
      PeersAfterEvict(rs[i], es[i].victim);
    }
  }

  // With a bound of one and an empty id, two peers end up registered.
  lemma EmptyIdDefeatsTheBound(name: string, made: Sources)
    requires made.video.Some?
    ensures var q := Request("", 1, Connected, name, made, Attached, NoTrack, 0);
            var e, e' := AnswerEvent(q, ""), AnswerEvent(q.(peerid := "b", now := 2), "");
            var r := Apply(Empty, e);
            && Enabled(1, Empty, e) && Valid(r) && Enabled(1, r, e')
            && |Apply(r, e').peers| == 2
  {
    var q := Request("", 1, Connected, name, made, Attached, NoTrack, 0);
    var e, e' := AnswerEvent(q, ""), AnswerEvent(q.(peerid := "b", now := 2), "");
    ApplyKeepsValid(Empty, e);
    var r := Apply(Empty, e);
    CallGrows(Empty, e);
    assert forall p :: p in r.peers ==> p == "";
    CallGrows(r, e');
    SizeWith(r.peers, "b", r.next);
    SizeWith(Empty.peers, "", 0);
  }
}
