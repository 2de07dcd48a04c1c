/**
 How far the number of peers can run away from its bound. A call that meets an
 over-full registry evicts one peer and adds one, so calls never make up for an
 overshoot; and two calls that pick the same victim add one more each time.
 */
module RegistryDrift {
  import opened Common
  import opened Collections
  import opened Registry
  import opened RegistryThreads
  import opened RegistryBound

  // Nobody besides threads t and u stands between its search and its registration.
  ghost predicate OnlyThese(s: State, t: ThreadId, u: ThreadId) {
    forall w :: IsSearching(s, w) ==> w == t || w == u
  }

  ghost predicate TwoSearches(s: State) { exists t, u :: OnlyThese(s, t, u) }

  // A run in which at most two threads at a time stand there.
  ghost predicate IsNarrow(maxpc: int, ss: seq<State>, steps: seq<Step>, s: State) {
    && IsRun(maxpc, ss, steps) && ss[|ss| - 1] == s
    && forall i :: 0 <= i < |ss| ==> TwoSearches(ss[i])
  }

  ghost predicate Reached(maxpc: int, s: State) { exists ss, steps :: IsNarrow(maxpc, ss, steps, s) }

  lemma Goes(maxpc: int, s: State, step: Step)
    requires Reached(maxpc, s) && Enabled(maxpc, s, step) && TwoSearches(Next(s, step))
    ensures Reached(maxpc, Next(s, step))
  {
    var ss, steps :| IsNarrow(maxpc, ss, steps, s);
    var ss', steps' := ss + [Next(s, step)], steps + [step];
    forall i | 0 <= i < |steps'| ensures Took(maxpc, ss', steps', i) {
      if i < |steps| {
        assert Took(maxpc, ss, steps, i);
        assert ss'[i] == ss[i] && ss'[i + 1] == ss[i + 1] && steps'[i] == steps[i];
      }
    }
    forall i | 0 <= i < |ss'| ensures TwoSearches(ss'[i]) {
      if i < |ss| { assert ss'[i] == ss[i]; }
    }
    assert IsNarrow(maxpc, ss', steps', Next(s, step));
  }

  // Steps of the two threads keep the others as they are.
  lemma GoesOn(maxpc: int, s: State, step: Step, t: ThreadId, u: ThreadId)
    requires Reached(maxpc, s) && Enabled(maxpc, s, step) && OnlyThese(s, t, u) && (step.t == t || step.t == u)
    ensures Reached(maxpc, Next(s, step)) && OnlyThese(Next(s, step), t, u)
  {
    var s' := Next(s, step);
    if step.Move? { MovedThreads(s, step.t, step.a); }
    forall w | IsSearching(s', w) ensures w == t || w == u {
      if w != step.t { assert IsSearching(s, w); }
    }
    assert OnlyThese(s', t, u);
    Goes(maxpc, s, step);
  }

  function Asking(peerid: string): Call { Call(AnswerCall, peerid, "L") }

  function Reply(victim: string, now: nat): Answers {
    Answers(victim, Connected, now, Sources(None, None), NoTrack, NoTrack)
  }

  // ---------------------------------------------------------------- stretches of a run

  // What the stretches start from and keep: observers without senders, and creation times for all.
  ghost predicate Bare(s: State) { Timed(s) && forall o :: SendersOf(s, o) == [] }

  ghost predicate Ready(maxpc: int, s: State, t: ThreadId, u: ThreadId) {
    Reached(maxpc, s) && OnlyThese(s, t, u) && Bare(s)
  }

  lemma SameChoice(maxpc: int, s: State, s': State, victim: string)
    requires MayEvict(s, maxpc, victim) && s'.peers == s.peers && s'.created == s.created
    ensures MayEvict(s', maxpc, victim)
  {
    assert forall p :: Oldest(s', p) == Oldest(s, p);
  }

  // A new call, up to the hangup of its victim, or to its observer if it needs none.
  lemma Picks(maxpc: int, s: State, t: ThreadId, u: ThreadId, w: ThreadId, peerid: string, victim: string) returns (s': State)
    requires Ready(maxpc, s, t, u) && (w == t || w == u) && w !in s.threads && MayEvict(s, maxpc, victim)
    ensures Ready(maxpc, s', t, u) && s'.peers == s.peers && s'.created == s.created && s'.next == s.next
    ensures s'.threads == s.threads[w := if victim == "" then MakeObserver(Asking(peerid)) else Find(victim, Some(Asking(peerid)))]
  {
    GoesOn(maxpc, s, SpawnCall(w, Asking(peerid)), t, u);
    var s1 := At(s, w, PickVictim(Asking(peerid)));
    SameChoice(maxpc, s, s1, victim);
    GoesOn(maxpc, s1, Move(w, Reply(victim, 0)), t, u);
    s' := Next(s1, Move(w, Reply(victim, 0)));
    assert forall o :: SendersOf(s', o) == SendersOf(s, o);
  }

  // The hangup of a victim without senders.
  lemma Removes(maxpc: int, s: State, t: ThreadId, u: ThreadId, w: ThreadId, victim: string, call: Call) returns (s': State)
    requires Ready(maxpc, s, t, u) && (w == t || w == u) && victim in s.peers
    requires w in s.threads && s.threads[w] == Find(victim, Some(call))
    ensures Ready(maxpc, s', t, u) && s'.peers == s.peers - {victim} && s'.next == s.next
    ensures s'.threads == s.threads[w := MakeObserver(call)]
  {
    var o, a := s.peers[victim], Reply("", 0);
    GoesOn(maxpc, s, Move(w, a), t, u);
    var s1 := At(Unregistered(s, victim), w, ListSenders(o, Some(call)));
    assert forall x :: SendersOf(s1, x) == SendersOf(s, x);
    s' := Deletes(maxpc, s1, t, u, w, o, call);
  }

  lemma Deletes(maxpc: int, s: State, t: ThreadId, u: ThreadId, w: ThreadId, o: ObserverId, call: Call) returns (s': State)
    requires Ready(maxpc, s, t, u) && (w == t || w == u) && w in s.threads && s.threads[w] == ListSenders(o, Some(call))
    ensures Ready(maxpc, s', t, u) && s'.peers == s.peers && s'.next == s.next
    ensures s'.threads == s.threads[w := MakeObserver(call)]
  {
    var a := Reply("", 0);
    GoesOn(maxpc, s, Move(w, a), t, u);
    assert SendersOf(s, o) == [];
    var s1 := At(s, w, Scan(o, [], Some(call)));
    GoesOn(maxpc, s1, Move(w, a), t, u);
    s' := At(Deleted(s1, o), w, MakeObserver(call));
    assert forall x :: SendersOf(s', x) == SendersOf(s, x);
  }

  // A victim that is gone already.
  lemma FindsNobody(maxpc: int, s: State, t: ThreadId, u: ThreadId, w: ThreadId, victim: string, call: Call) returns (s': State)
    requires Ready(maxpc, s, t, u) && (w == t || w == u) && victim !in s.peers
    requires w in s.threads && s.threads[w] == Find(victim, Some(call))
    ensures Ready(maxpc, s', t, u) && s'.peers == s.peers && s'.next == s.next
    ensures s'.threads == s.threads[w := MakeObserver(call)]
  {
    GoesOn(maxpc, s, Move(w, Reply("", 0)), t, u);
    s' := Next(s, Move(w, Reply("", 0)));
    assert s.peers - {victim} == s.peers;
    assert forall x :: SendersOf(s', x) == SendersOf(s, x);
  }

  // The observer is made and registered.
  lemma Registers(maxpc: int, s: State, t: ThreadId, u: ThreadId, w: ThreadId, call: Call, now: nat) returns (s': State)
    requires Ready(maxpc, s, t, u) && (w == t || w == u) && call.kind.AnswerCall? && call.peerid !in s.peers && now < NEVER
    requires w in s.threads && s.threads[w] == MakeObserver(call)
    ensures Ready(maxpc, s', t, u) && s'.peers == s.peers[call.peerid := s.next]
    ensures s'.threads == s.threads[w := LookUp(call, s.next)]
  {
    var a := Reply("", now);
    GoesOn(maxpc, s, Move(w, a), t, u);
    var s1 := At(Made(s, now), w, Enroll(call, s.next));
    GoesOn(maxpc, s1, Move(w, a), t, u);
    s' := At(Enrolled(s1, call.peerid, s.next), w, LookUp(call, s.next));
    forall x ensures SendersOf(s', x) == [] { assert SendersOf(s, x) == []; }
  }

  // ---------------------------------------------------------------- one more peer

  // Nobody is searching; ids and threads up to `size` may be taken.
  ghost predicate Rested(maxpc: int, s: State, size: nat) {
    && Reached(maxpc, s) && Bare(s)
    && (forall t :: !IsSearching(s, t))
    && (forall t :: t in s.threads ==> t < size)
    && (forall p :: p in s.peers ==> 0 < |p| <= size)
  }

  function Name(n: nat): (s: string)
    ensures |s| == n
  {
    seq(n, i => 'p')
  }

  // In a registry that is not full a call adds a peer.
  lemma AddsBelow(maxpc: int, s: State, size: nat, now: nat) returns (s': State)
    requires Rested(maxpc, s, size) && |s.peers| < maxpc && now < NEVER
    ensures Rested(maxpc, s', size + 2) && |s'.peers| == |s.peers| + 1
  {
    var t, name := size, Name(size + 1);
    var s1 := Picks(maxpc, s, t, t, t, name, "");
    s' := Registers(maxpc, s1, t, t, t, Asking(name), now);
    SizeWith(s.peers, name, s.next);
    Rests(maxpc, s, s', size, t, t);
  }

  // In a full or over-full registry two calls that pick the same victim add one.
  lemma AddsAbove(maxpc: int, s: State, size: nat, now: nat) returns (s': State)
    requires maxpc > 0 && Rested(maxpc, s, size) && |s.peers| >= maxpc && now < NEVER
    ensures Rested(maxpc, s', size + 2) && |s'.peers| == |s.peers| + 1
  {
    var t, u, x, y := size, size + 1, Name(size + 1), Name(size + 2);
    var victim := PickOldest(maxpc, s);
    assert OnlyThese(s, t, u) && x !in s.peers && y !in s.peers;
    s' := DoublePick(maxpc, s, t, u, x, y, victim, now);
    Rests(maxpc, s, s', size, t, u);
  }

  // Two calls x and y pick the same victim, and both register.
  lemma DoublePick(maxpc: int, s: State, t: ThreadId, u: ThreadId, x: string, y: string, victim: string, now: nat)
    returns (s': State)
    requires Ready(maxpc, s, t, u) && t != u && t !in s.threads && u !in s.threads && now < NEVER
    requires x !in s.peers && y !in s.peers && x != y && victim in s.peers && victim != "" && MayEvict(s, maxpc, victim)
    ensures Ready(maxpc, s', t, u) && |s'.peers| == |s.peers| + 1 && s'.peers.Keys == s.peers.Keys - {victim} + {x, y}
    ensures s'.threads.Keys == s.threads.Keys + {t, u}
    ensures s'.threads[t].LookUp? && s'.threads[t].call == Asking(x) && s'.threads[u].LookUp? && s'.threads[u].call == Asking(y)
  {
    var s1 := BothPick(maxpc, s, t, u, x, y, victim);
    var s2 := Replaces(maxpc, s1, t, u, victim, Asking(x), now);
    s' := AddsAfter(maxpc, s2, t, u, victim, Asking(y), now);
    TwoForOne(s.peers, victim, x, s1.next, y, s2.next);
    TwoMoved(s.threads, t, u, s1.threads[t], s1.threads[u], s2.threads[t], s'.threads[u]);
  }

  lemma TwoMoved(m: map<ThreadId, Position>, t: ThreadId, u: ThreadId, a: Position, b: Position, c: Position, d: Position)
    requires t != u
    ensures var m' := m[t := a][u := b][t := c][u := d]; m'.Keys == m.Keys + {t, u} && m'[t] == c && m'[u] == d
  {}

  // The first of the two removes the victim and registers.
  lemma Replaces(maxpc: int, s: State, t: ThreadId, u: ThreadId, victim: string, call: Call, now: nat) returns (s': State)
    requires Ready(maxpc, s, t, u) && victim in s.peers && call.kind.AnswerCall? && call.peerid !in s.peers && now < NEVER
    requires t in s.threads && s.threads[t] == Find(victim, Some(call))
    ensures Ready(maxpc, s', t, u) && s'.peers == (s.peers - {victim})[call.peerid := s.next]
    ensures s'.threads == s.threads[t := LookUp(call, s.next)]
  {
    var s1 := Removes(maxpc, s, t, u, t, victim, call);
    s' := Registers(maxpc, s1, t, u, t, call, now);
  }

  // The second finds it gone and registers all the same.
  lemma AddsAfter(maxpc: int, s: State, t: ThreadId, u: ThreadId, victim: string, call: Call, now: nat) returns (s': State)
    requires Ready(maxpc, s, t, u) && victim !in s.peers && call.kind.AnswerCall? && call.peerid !in s.peers && now < NEVER
    requires u in s.threads && s.threads[u] == Find(victim, Some(call))
    ensures Ready(maxpc, s', t, u) && s'.peers == s.peers[call.peerid := s.next]
    ensures s'.threads == s.threads[u := LookUp(call, s.next)]
  {
    var s1 := FindsNobody(maxpc, s, t, u, u, victim, call);
    s' := Registers(maxpc, s1, t, u, u, call, now);
  }

  lemma PickOldest(maxpc: int, s: State) returns (victim: string)
    requires maxpc > 0 && Bare(s) && |s.peers| >= maxpc
    ensures victim in s.peers && MayEvict(s, maxpc, victim)
  {
    assert s.peers != map[];
    SomebodyIsOldest(s);
    victim :| Oldest(s, victim);
  }

  lemma BothPick(maxpc: int, s: State, t: ThreadId, u: ThreadId, x: string, y: string, victim: string) returns (s': State)
    requires Ready(maxpc, s, t, u) && t != u && t !in s.threads && u !in s.threads && victim != ""
    requires MayEvict(s, maxpc, victim)
    ensures Ready(maxpc, s', t, u) && s'.peers == s.peers
    ensures s'.threads == s.threads[t := Find(victim, Some(Asking(x)))][u := Find(victim, Some(Asking(y)))]
  {
    var s1 := Picks(maxpc, s, t, u, t, x, victim);
    SameChoice(maxpc, s, s1, victim);
    s' := Picks(maxpc, s1, t, u, u, y, victim);
  }

  lemma TwoForOne(m: map<string, ObserverId>, victim: string, x: string, o: ObserverId, y: string, o': ObserverId)
    requires victim in m && x !in m && y !in m && x != y
    ensures |(m - {victim})[x := o][y := o']| == |m| + 1
    ensures (m - {victim})[x := o][y := o'].Keys == m.Keys - {victim} + {x, y}
  {
    SizeWithout(m, victim);
    SizeWith(m - {victim}, x, o);
    SizeWith((m - {victim})[x := o], y, o');
  }

  // The threads that registered are through with their search.
  lemma Rests(maxpc: int, s: State, s': State, size: nat, t: ThreadId, u: ThreadId)
    requires Rested(maxpc, s, size) && Ready(maxpc, s', t, u) && size <= t < size + 2 && size <= u < size + 2
    requires t in s'.threads && s'.threads[t].LookUp? && s'.threads[t].call.kind.AnswerCall?
    requires u in s'.threads && s'.threads[u].LookUp? && s'.threads[u].call.kind.AnswerCall?
    requires forall w :: w in s'.threads ==> w in s.threads || w == t || w == u
    requires forall p :: p in s'.peers ==> p in s.peers || p == Name(size + 1) || p == Name(size + 2)
    ensures Rested(maxpc, s', size + 2)
  {}

  // Under any bound, with never more than two threads between search and registration and whatever the
  // clock shows, every number of peers is reached: there is no bound on the overshoot.
  lemma {:induction false} NoLimitWithTwoSearches(maxpc: int, n: nat, clock: nat -> nat) returns (s: State)
    requires maxpc > 0 && forall k: nat :: clock(k) < NEVER
    ensures Reached(maxpc, s) && |s.peers| == n
    ensures Rested(maxpc, s, 2 * n)
  {
    if n == 0 {
      s := Initial;
      assert OnlyThese(Initial, 0, 0);
      assert IsNarrow(maxpc, [Initial], [], Initial);
    } else {
      var before := NoLimitWithTwoSearches(maxpc, n - 1, clock);
      if n - 1 < maxpc {
        s := AddsBelow(maxpc, before, 2 * (n - 1), clock(n));
      } else {
        s := AddsAbove(maxpc, before, 2 * (n - 1), clock(n));
      }
    }
  }
}
