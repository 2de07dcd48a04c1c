/**
 `LiveAudioSource`: decoded samples of any chunk size go in, segments of 10 ms
 come out and are handed to every registered sink.
 */
module LiveAudioSource {
  import opened Collections

  type Sample = x: int | -0x8000 <= x < 0x8000   // int16_t
  type Word = x: int | 0 <= x < 0x1_0000         // uint16_t, as queued

  function ToWord(x: Sample): Word { x % 0x1_0000 }

  function ToSample(w: Word): Sample { if w < 0x8000 then w else w - 0x1_0000 }

  function ToWords(xs: seq<Sample>): seq<Word> { seq(|xs|, i requires 0 <= i < |xs| => ToWord(xs[i])) }

  function ToSamples(ws: seq<Word>): seq<Sample> { seq(|ws|, i requires 0 <= i < |ws| => ToSample(ws[i])) }

  type Segment = seq<Sample>
  type Sink = nat

  // One call of OnData on a sink.
  datatype Call = Call(sink: Sink, segment: Segment)

  // ---------------------------------------------------------------- cutting

  // The segments the loop cuts from a queue: it goes on while MORE than one segment is queued.
  function Cut(q: seq<Word>, size: nat): seq<Segment>
    requires size > 0
    decreases |q|
  {
    if |q| > size then [ToSamples(q[..size])] + Cut(q[size..], size) else []
  }

  function Leftover(q: seq<Word>, size: nat): seq<Word>
    requires size > 0
    decreases |q|
  {
    if |q| > size then Leftover(q[size..], size) else q
  }

  // The sinks in the order of the list, for one segment and for several.
  function CallsFor(sinks: seq<Sink>, segment: Segment): seq<Call> {
    seq(|sinks|, i requires 0 <= i < |sinks| => Call(sinks[i], segment))
  }

  function AllCallsFor(sinks: seq<Sink>, segments: seq<Segment>): seq<Call> {
    if segments == [] then [] else
      AllCallsFor(sinks, segments[..|segments| - 1]) + CallsFor(sinks, segments[|segments| - 1])
  }

  lemma AllCallsAppend(sinks: seq<Sink>, segments: seq<Segment>, x: Segment)
    ensures AllCallsFor(sinks, segments + [x]) == AllCallsFor(sinks, segments) + CallsFor(sinks, x)
  {
    assert (segments + [x])[..|segments|] == segments;
  }

  // The loop has handed out `out` and still holds `rest` of the queue `q`.
  predicate Cutting(q: seq<Word>, rest: seq<Word>, out: seq<Segment>, size: nat) {
    if size == 0 then rest == [] && out == []
    else Leftover(rest, size) == Leftover(q, size) && out + Cut(rest, size) == Cut(q, size)
  }

  lemma CutOne(q: seq<Word>, rest: seq<Word>, out: seq<Segment>, size: nat)
    requires Cutting(q, rest, out, size) && |rest| > size
    ensures Cutting(q, rest[size..], out + [ToSamples(rest[..size])], size)
  {
    var x, tail := ToSamples(rest[..size]), Cut(rest[size..], size);
    assert out + ([x] + tail) == (out + [x]) + tail;
  }

  lemma CutDone(q: seq<Word>, rest: seq<Word>, out: seq<Segment>, size: nat)
    requires Cutting(q, rest, out, size) && 0 < size && |rest| <= size
    ensures rest == Leftover(q, size) && out == Cut(q, size)
  {
    assert out + [] == out;
  }

  class LiveAudioSource {
    var freq: nat
    var channels: nat
    var buffer: seq<Word>
    var sinks: seq<Sink>
    var calls: seq<Call>     // every call of OnData on a sink, in order

    constructor ()
      ensures freq == 8000 && channels == 1 && buffer == [] && sinks == [] && calls == []
    {
      freq, channels, buffer, sinks, calls := 8000, 1, [], [], [];
    }

    // Samples per segment: 10 ms of every channel.
    function SegmentSize(): nat
      reads this`freq, this`channels
    {
      freq / 100 * channels
    }

    method AddSink(sink: Sink)
      modifies this`sinks
      ensures sinks == old(sinks) + [sink]
    {
      sinks := sinks + [sink];
    }

    // std::list::remove drops every occurrence.
    method RemoveSink(sink: Sink)
      modifies this`sinks
      ensures sinks == Without(old(sinks), sink)
    {
      var rest: seq<Sink> := [];
      for i := 0 to |sinks|
        invariant sinks == old(sinks)
        invariant rest == Without(sinks[..i], sink)
      {
        WithoutNext(sinks, i, sink);
        if sinks[i] != sink { rest := rest + [sinks[i]]; }
      }
      assert sinks[..|sinks|] == sinks;
      sinks := rest;
    }

    method Enqueue(decoded: seq<Sample>)
      modifies this`buffer
      ensures buffer == old(buffer) + ToWords(decoded)
    {
      for i := 0 to |decoded|
        invariant buffer == old(buffer) + ToWords(decoded[..i])
      {
        buffer := buffer + [ToWord(decoded[i])];
        assert ToWords(decoded[..i + 1]) == ToWords(decoded[..i]) + [ToWord(decoded[i])];
      }
      assert decoded[..|decoded|] == decoded;
    }

    method TakeSegment(size: nat) returns (out: seq<Sample>)
      requires size <= |buffer|
      modifies this`buffer
      ensures buffer == old(buffer)[size..] && out == ToSamples(old(buffer)[..size])
    {
      out := [];
      for i := 0 to size
        invariant buffer == old(buffer)[i..] && out == ToSamples(old(buffer)[..i])
      {
        assert old(buffer)[..i + 1] == old(buffer)[..i] + [buffer[0]];
        out := out + [ToSample(buffer[0])];
        buffer := buffer[1..];
      }
    }

    method Deliver(segment: Segment)
      modifies this`calls
      ensures calls == old(calls) + CallsFor(sinks, segment)
    {
      for i := 0 to |sinks|
        invariant calls == old(calls) + CallsFor(sinks[..i], segment)
      {
        calls := calls + [Call(sinks[i], segment)];
        assert CallsFor(sinks[..i + 1], segment) == CallsFor(sinks[..i], segment) + [Call(sinks[i], segment)];
      }
      assert sinks[..|sinks|] == sinks;
    }

    // `decoded` is what Decode produced, empty when it failed. The loop ends under the condition of
    // `LoopEnds` only.
    method OnData(decoded: seq<Sample>)
      requires (freq >= 100 && channels >= 1) || (buffer == [] && decoded == [])
      modifies this`buffer, this`calls
      // each sink is handed 10 ms of every channel, and at most that much stays queued
      ensures old(calls) <= calls
      ensures forall i :: |old(calls)| <= i < |calls| ==> |calls[i].segment| == freq / 100 * channels
      ensures |buffer| <= freq / 100 * channels
      ensures SegmentSize() == 0 ==> buffer == old(buffer) && calls == old(calls)
      ensures SegmentSize() > 0 ==>
                var q := old(buffer) + ToWords(decoded);
                && buffer == Leftover(q, SegmentSize())
                && calls == old(calls) + AllCallsFor(sinks, Cut(q, SegmentSize()))
    {
      Enqueue(decoded);
      ghost var q := buffer;
      SizeIsPositive(freq, channels);
      ghost var out: seq<Segment> := [];
      var segmentLength := freq / 100;
      while |buffer| > segmentLength * channels
        invariant calls == old(calls) + AllCallsFor(sinks, out)
        invariant Cutting(q, buffer, out, SegmentSize())
        decreases |buffer|
      {
        CutOne(q, buffer, out, SegmentSize());
        var segment := TakeSegment(segmentLength * channels);
        Deliver(segment);
        AllCallsAppend(sinks, out, segment);
        out := out + [segment];
      }
      if SegmentSize() > 0 {
        CutDone(q, buffer, out, SegmentSize());
        CutKeepsEverything(q, SegmentSize());
        CallsAreSegments(sinks, out, SegmentSize());
      }
    }
  }

  lemma SizeIsPositive(freq: nat, channels: nat)
    ensures freq / 100 * channels > 0 <==> freq >= 100 && channels >= 1
  {
    if freq >= 100 && channels >= 1 { Times(freq / 100, 1, channels); }
  }

  lemma {:induction false} CallsAreSegments(sinks: seq<Sink>, segments: seq<Segment>, size: nat)
    requires forall i :: 0 <= i < |segments| ==> |segments[i]| == size
    ensures forall i :: 0 <= i < |AllCallsFor(sinks, segments)| ==> |AllCallsFor(sinks, segments)[i].segment| == size
  {
    if segments != [] { CallsAreSegments(sinks, segments[..|segments| - 1], size); }
  }

  // With a frequency that is a multiple of 100, a hundred segments hold one second of every channel.
  lemma HundredSegmentsAreASecond(freq: nat, channels: nat, segments: seq<Segment>)
    requires freq % 100 == 0 && |segments| == 100
    requires forall i :: 0 <= i < |segments| ==> |segments[i]| == freq / 100 * channels
    ensures |Joined(segments)| == freq * channels
  {
    JoinedSize(segments, freq / 100 * channels);
    assert freq == 100 * (freq / 100);
    assert 100 * (freq / 100 * channels) == 100 * (freq / 100) * channels;
  }

  lemma {:induction false} JoinedSize(segments: seq<Segment>, size: nat)
    requires forall i :: 0 <= i < |segments| ==> |segments[i]| == size
    ensures |Joined(segments)| == |segments| * size
  {
    if segments != [] {
      JoinedSize(segments[1..], size);
      assert |segments| * size == size + |segments[1..]| * size;
    }
  }

  // ---------------------------------------------------------------- termination

  // The queue after at most n turns of the loop.
  function Turns(q: seq<Word>, size: nat, n: nat): seq<Word> {
    if n == 0 || |q| <= size then q else Turns(q[size..], size, n - 1)
  }

  lemma {:induction false} TurnsOfNothing(q: seq<Word>, n: nat)
    ensures Turns(q, 0, n) == q
  {
    if n > 0 && |q| > 0 {
      assert q[0..] == q;
      TurnsOfNothing(q, n - 1);
    }
  }

  lemma {:induction false} TurnsEnd(q: seq<Word>, size: nat)
    requires size > 0
    ensures |Turns(q, size, |Cut(q, size)|)| <= size
    decreases |q|
  {
    if |q| > size { TurnsEnd(q[size..], size); }
  }

  // The loop ends if and only if the frequency is at least 100 and there is a channel, or nothing is queued.
  lemma LoopEnds(q: seq<Word>, freq: nat, channels: nat)
    ensures (exists n: nat :: |Turns(q, freq / 100 * channels, n)| <= freq / 100 * channels) <==>
            (freq >= 100 && channels >= 1) || q == []
  {
    var size := freq / 100 * channels;
    if freq >= 100 && channels >= 1 {
      Times(freq / 100, 1, channels);
      TurnsEnd(q, size);
    } else {
      assert size == 0;
      forall n: nat ensures Turns(q, size, n) == q { TurnsOfNothing(q, n); }
      if q == [] { assert |Turns(q, size, 0)| <= size; }
    }
  }

  // ---------------------------------------------------------------- nothing lost, nothing changed

  function Joined(segments: seq<Segment>): seq<Sample> {
    if segments == [] then [] else segments[0] + Joined(segments[1..])
  }

  lemma RoundTrip(xs: seq<Sample>)
    ensures ToSamples(ToWords(xs)) == xs
  {}

  lemma ToSamplesSplit(ws: seq<Word>, n: nat)
    requires n <= |ws|
    ensures ToSamples(ws) == ToSamples(ws[..n]) + ToSamples(ws[n..])
  {}

  // The segments followed by the leftover are the queue, every segment has the size, and their number
  // is floor((n - 1) / size).
  lemma {:induction false} CutKeepsEverything(q: seq<Word>, size: nat)
    requires size > 0
    ensures Joined(Cut(q, size)) + ToSamples(Leftover(q, size)) == ToSamples(q)
    ensures forall i :: 0 <= i < |Cut(q, size)| ==> |Cut(q, size)[i]| == size
    ensures |q| == |Cut(q, size)| * size + |Leftover(q, size)|
    ensures |Leftover(q, size)| <= size && (q != [] ==> Leftover(q, size) != [])
    decreases |q|
  {
    if |q| > size {
      CutKeepsEverything(q[size..], size);
      ToSamplesSplit(q, size);
      var rest := Cut(q[size..], size);
      assert Cut(q, size)[1..] == rest;
      assert |Cut(q, size)| * size == size + |rest| * size;
    }
  }

  lemma HowMany(n: nat, size: nat, segments: nat, left: nat)
    requires size > 0 && n == segments * size + left && 0 < left <= size
    ensures segments == (n - 1) / size
  {
    var y, r := (n - 1) / size, (n - 1) % size;
    assert n - 1 == y * size + r;
    if y > segments {
      Times(y, segments + 1, size);
    } else if y < segments {
      Times(segments, y + 1, size);
    }
  }

  lemma Times(a: nat, b: nat, c: nat)
    requires a >= b
    ensures a * c >= b * c
  {
    assert (a - b) * c >= 0;
  }

  // ---------------------------------------------------------------- any chunking

  function Fed(chunks: seq<seq<Sample>>): seq<Word> {
    if chunks == [] then [] else Fed(chunks[..|chunks| - 1]) + ToWords(chunks[|chunks| - 1])
  }

  // The queue and the segments handed out after a series of calls of onData.
  function QueueAfter(chunks: seq<seq<Sample>>, size: nat): seq<Word>
    requires size > 0
  {
    if chunks == [] then [] else
      Leftover(QueueAfter(chunks[..|chunks| - 1], size) + ToWords(chunks[|chunks| - 1]), size)
  }

  function SentAfter(chunks: seq<seq<Sample>>, size: nat): seq<Segment>
    requires size > 0
  {
    if chunks == [] then [] else
      SentAfter(chunks[..|chunks| - 1], size) +
      Cut(QueueAfter(chunks[..|chunks| - 1], size) + ToWords(chunks[|chunks| - 1]), size)
  }

  // Cutting can stop and go on when more has arrived.
  lemma {:induction false} CutResumes(q: seq<Word>, more: seq<Word>, size: nat)
    requires size > 0
    ensures Cut(q + more, size) == Cut(q, size) + Cut(Leftover(q, size) + more, size)
    ensures Leftover(q + more, size) == Leftover(Leftover(q, size) + more, size)
    decreases |q|
  {
    if |q| > size {
      CutResumes(q[size..], more, size);
      CutHead(q, more, size);
      Reassociate([ToSamples(q[..size])], Cut(q[size..], size), Cut(Leftover(q, size) + more, size));
    }
  }

  // The head segment is the same however much follows.
  lemma CutHead(q: seq<Word>, more: seq<Word>, size: nat)
    requires 0 < size < |q|
    ensures Cut(q + more, size) == [ToSamples(q[..size])] + Cut(q[size..] + more, size)
    ensures Leftover(q + more, size) == Leftover(q[size..] + more, size)
  {
    assert (q + more)[..size] == q[..size] && (q + more)[size..] == q[size..] + more;
  }

  lemma {:induction false} ChunkingIsInvisible(chunks: seq<seq<Sample>>, size: nat)
    requires size > 0
    ensures SentAfter(chunks, size) == Cut(Fed(chunks), size)
    ensures QueueAfter(chunks, size) == Leftover(Fed(chunks), size)
  {
    if chunks != [] {
      var n := |chunks| - 1;
      ChunkingIsInvisible(chunks[..n], size);
      CutResumes(Fed(chunks[..n]), ToWords(chunks[n]), size);
    }
  }

  // Everything decoded, in order.
  function Samples(chunks: seq<seq<Sample>>): seq<Sample> {
    if chunks == [] then [] else Samples(chunks[..|chunks| - 1]) + chunks[|chunks| - 1]
  }

  // The detour through uint16_t changes no value.
  lemma {:induction false} FedKeepsValues(chunks: seq<seq<Sample>>)
    ensures ToSamples(Fed(chunks)) == Samples(chunks)
  {
    if chunks != [] {
      var n := |chunks| - 1;
      FedKeepsValues(chunks[..n]);
      RoundTrip(chunks[n]);
      ToSamplesSplit(Fed(chunks), |Fed(chunks[..n])|);
      assert Fed(chunks)[..|Fed(chunks[..n])|] == Fed(chunks[..n]);
      assert Fed(chunks)[|Fed(chunks[..n])|..] == ToWords(chunks[n]);
    }
  }

  // Over any run: segments sent followed by the queue are all decoded samples in order, every segment
  // is full, and with T > 0 samples fed exactly floor((T - 1) / size) segments have gone out, whatever
  // the chunks.
  lemma NothingLost(chunks: seq<seq<Sample>>, size: nat)
    requires size > 0
    ensures Joined(SentAfter(chunks, size)) + ToSamples(QueueAfter(chunks, size)) == Samples(chunks)
    ensures forall i :: 0 <= i < |SentAfter(chunks, size)| ==> |SentAfter(chunks, size)[i]| == size
    ensures |SentAfter(chunks, size)| == if Samples(chunks) == [] then 0 else (|Samples(chunks)| - 1) / size
  {
    ChunkingIsInvisible(chunks, size);
    FedKeepsValues(chunks);
    var q := Fed(chunks);
    CutKeepsEverything(q, size);
    if |q| > 0 { HowMany(|q|, size, |Cut(q, size)|, |Leftover(q, size)|); }
  }

  // ---------------------------------------------------------------- sinks

  lemma WithoutNext(ks: seq<Sink>, i: nat, k: Sink)
    requires i < |ks|
    ensures Without(ks[..i + 1], k) == Without(ks[..i], k) + if ks[i] == k then [] else [ks[i]]
  {
    assert ks[..i + 1][..i] == ks[..i];
  }

  // The sink lock is taken per segment, so sinks may come and go between two segments of one buffer.
  datatype Event = Add(k: Sink) | Remove(k: Sink) | Send(segment: Segment)

  function SinksAfter(es: seq<Event>): seq<Sink> {
    if es == [] then [] else
      var before := SinksAfter(es[..|es| - 1]);
      match es[|es| - 1]
      case Add(k) => before + [k]
      case Remove(k) => Without(before, k)
      case Send(_) => before
  }

  function CallsAfter(es: seq<Event>): seq<Call> {
    if es == [] then [] else
      var n := |es| - 1;
      CallsAfter(es[..n]) + if es[n].Send? then CallsFor(SinksAfter(es[..n]), es[n].segment) else []
  }

  function SentIn(es: seq<Event>): seq<Segment> {
    if es == [] then [] else
      var n := |es| - 1;
      SentIn(es[..n]) + if es[n].Send? then [es[n].segment] else []
  }

  // What one sink was given.
  function Heard(calls: seq<Call>, k: Sink): seq<Segment> {
    if calls == [] then [] else
      var n := |calls| - 1;
      Heard(calls[..n], k) + if calls[n].sink == k then [calls[n].segment] else []
  }

  function Count(ks: seq<Sink>, k: Sink): nat {
    if ks == [] then 0 else
      var n := |ks| - 1;
      Count(ks[..n], k) + if ks[n] == k then 1 else 0
  }

  lemma CountAppend(ks: seq<Sink>, j: Sink, k: Sink)
    ensures Count(ks + [j], k) == Count(ks, k) + if j == k then 1 else 0
  {
    assert (ks + [j])[..|ks|] == ks;
  }

  lemma {:induction false} CountWithout(ks: seq<Sink>, j: Sink, k: Sink)
    ensures Count(Without(ks, j), k) == if j == k then 0 else Count(ks, k)
  {
    if ks != [] {
      var n := |ks| - 1;
      CountWithout(ks[..n], j, k);
      var rest := Without(ks[..n], j);
      if ks[n] == j {
        assert Without(ks, j) == rest;
      } else {
        assert Without(ks, j) == rest + [ks[n]];
        CountAppend(rest, ks[n], k);
      }
    }
  }

  lemma {:induction false} HeardConcat(a: seq<Call>, b: seq<Call>, k: Sink)
    ensures Heard(a + b, k) == Heard(a, k) + Heard(b, k)
  {
    if b == [] {
      assert a + b == a;
    } else {
      assert (a + b)[..|a + b| - 1] == a + b[..|b| - 1];
      HeardConcat(a, b[..|b| - 1], k);
    }
  }

  function Repeated(x: Segment, n: nat): seq<Segment> {
    if n == 0 then [] else Repeated(x, n - 1) + [x]
  }

  // Each segment n times in a row.
  function Each(segments: seq<Segment>, n: nat): seq<Segment> {
    if segments == [] then [] else
      Each(segments[..|segments| - 1], n) + Repeated(segments[|segments| - 1], n)
  }

  // A sink hears a segment once for each of its registrations.
  lemma {:induction false} HeardPerRegistration(ks: seq<Sink>, segment: Segment, k: Sink)
    ensures Heard(CallsFor(ks, segment), k) == Repeated(segment, Count(ks, k))
  {
    if ks != [] {
      var n := |ks| - 1;
      HeardPerRegistration(ks[..n], segment, k);
      assert CallsFor(ks, segment)[..n] == CallsFor(ks[..n], segment);
    }
  }

  // How often k is registered: each Add counts, a Remove takes back all of them.
  function Registrations(es: seq<Event>, k: Sink): nat {
    if es == [] then 0 else
      var n := |es| - 1;
      if es[n] == Add(k) then Registrations(es[..n], k) + 1
      else if es[n] == Remove(k) then 0
      else Registrations(es[..n], k)
  }

  // What k is promised: every segment sent, as often as k is registered at the time.
  function Promised(es: seq<Event>, k: Sink): seq<Segment> {
    if es == [] then [] else
      var n := |es| - 1;
      Promised(es[..n], k) + if es[n].Send? then Repeated(es[n].segment, Registrations(es[..n], k)) else []
  }

  // The list of sinks holds k as often as it is registered.
  lemma {:induction false} ListCounts(es: seq<Event>, k: Sink)
    ensures Count(SinksAfter(es), k) == Registrations(es, k)
  {
    if es != [] {
      var n := |es| - 1;
      ListCounts(es[..n], k);
      match es[n]
      case Add(j) => CountAppend(SinksAfter(es[..n]), j, k);
      case Remove(j) => CountWithout(SinksAfter(es[..n]), j, k);
      case Send(_) =>
    }
  }

  // For every series of events each sink hears exactly what it is promised.
  lemma {:induction false} EverySinkHearsItsShare(es: seq<Event>, k: Sink)
    ensures Heard(CallsAfter(es), k) == Promised(es, k)
  {
    if es != [] {
      var n := |es| - 1;
      EverySinkHearsItsShare(es[..n], k);
      if es[n].Send? {
        var ks, x := SinksAfter(es[..n]), es[n].segment;
        HeardConcat(CallsAfter(es[..n]), CallsFor(ks, x), k);
        HeardPerRegistration(ks, x, k);
        ListCounts(es[..n], k);
      } else {
        assert CallsAfter(es[..n]) + [] == CallsAfter(es[..n]);
      }
    }
  }

  // Events that leave the registration of k alone.
  predicate Unconcerned(es: seq<Event>, k: Sink) {
    forall i :: 0 <= i < |es| ==> es[i] != Add(k) && es[i] != Remove(k)
  }

  // `heard` continues `heard0` with what was sent between `sent0` and `sent`, each segment n times.
  predicate Continues(heard0: seq<Segment>, heard: seq<Segment>, sent0: seq<Segment>, sent: seq<Segment>, n: nat) {
    sent0 <= sent && heard == heard0 + Each(sent[|sent0|..], n)
  }

  lemma ContinuesOn(heard0: seq<Segment>, heard: seq<Segment>, sent0: seq<Segment>, sent: seq<Segment>, n: nat, x: Segment)
    requires Continues(heard0, heard, sent0, sent, n)
    ensures Continues(heard0, heard + Repeated(x, n), sent0, sent + [x], n)
  {
    var since := sent[|sent0|..];
    assert (sent + [x])[|sent0|..] == since + [x];
    assert (since + [x])[..|since|] == since;
    Reassociate(heard0, Each(since, n), Repeated(x, n));
  }

  // What one more event adds.
  lemma OneMore(es: seq<Event>, e: Event, k: Sink)
    ensures SentIn(es + [e]) == SentIn(es) + if e.Send? then [e.segment] else []
    ensures Registrations(es + [e], k) ==
            if e == Add(k) then Registrations(es, k) + 1 else if e == Remove(k) then 0 else Registrations(es, k)
    ensures Promised(es + [e], k) == Promised(es, k) + if e.Send? then Repeated(e.segment, Registrations(es, k)) else []
  {
    assert (es + [e])[..|es|] == es;
  }

  // As long as the registrations of k are left alone, it is promised every segment sent since, as
  // often as it is registered, and nothing else.
  lemma {:induction false} PromisedMeanwhile(pre: seq<Event>, mid: seq<Event>, k: Sink)
    requires Unconcerned(mid, k)
    ensures Registrations(pre + mid, k) == Registrations(pre, k)
    ensures Continues(Promised(pre, k), Promised(pre + mid, k), SentIn(pre), SentIn(pre + mid), Registrations(pre, k))
  {
    if mid == [] {
      assert pre + mid == pre;
      assert SentIn(pre)[|SentIn(pre)|..] == [];
    } else {
      var n := |mid| - 1;
      var es, e := pre + mid[..n], mid[n];
      assert pre + mid == es + [e];
      assert e != Add(k) && e != Remove(k);
      PromisedMeanwhile(pre, mid[..n], k);
      OneMore(es, e, k);
      if e.Send? {
        ContinuesOn(Promised(pre, k), Promised(es, k), SentIn(pre), SentIn(es), Registrations(pre, k), e.segment);
      } else {
        assert SentIn(es + [e]) == SentIn(es);
      }
    }
  }

  // From any moment on, while its registrations are left alone, a sink hears every segment sent since,
  // as often as it is registered.
  lemma HearsWhileRegistered(pre: seq<Event>, mid: seq<Event>, k: Sink)
    requires Unconcerned(mid, k)
    ensures Count(SinksAfter(pre + mid), k) == Count(SinksAfter(pre), k)
    ensures Continues(Heard(CallsAfter(pre), k), Heard(CallsAfter(pre + mid), k), SentIn(pre), SentIn(pre + mid),
                      Count(SinksAfter(pre), k))
  {
    PromisedMeanwhile(pre, mid, k);
    ListCounts(pre, k);
    ListCounts(pre + mid, k);
    EverySinkHearsItsShare(pre, k);
    EverySinkHearsItsShare(pre + mid, k);
  }

  // Once removed, a sink that is not added again has heard, since any earlier moment from which its
  // registrations were left alone, exactly the contiguous stretch of segments sent up to the removal,
  // each as often as it was registered.
  lemma EachSinkHearsItsStretch(pre: seq<Event>, mid: seq<Event>, post: seq<Event>, k: Sink)
    requires Unconcerned(mid, k) && Unconcerned(post, k)
    ensures Continues(Heard(CallsAfter(pre), k), Heard(CallsAfter(pre + mid + [Remove(k)] + post), k),
                      SentIn(pre), SentIn(pre + mid), Count(SinksAfter(pre), k))
  {
    HearsWhileRegistered(pre, mid, k);
    var sofar := pre + mid;
    OneMore(sofar, Remove(k), k);
    PromisedMeanwhile(sofar + [Remove(k)], post, k);
    NothingEach(SentIn(sofar + [Remove(k)] + post)[|SentIn(sofar + [Remove(k)])|..]);
    EverySinkHearsItsShare(sofar, k);
    EverySinkHearsItsShare(sofar + [Remove(k)] + post, k);
  }

  lemma {:induction false} NothingEach(segments: seq<Segment>)
    ensures Each(segments, 0) == []
  {
    if segments != [] { NothingEach(segments[..|segments| - 1]); }
  }

  // A sink registered once hears each segment once.
  lemma {:induction false} OnceEach(segments: seq<Segment>)
    ensures Each(segments, 1) == segments
  {
    if segments != [] {
      var n := |segments| - 1;
      OnceEach(segments[..n]);
      assert Repeated(segments[n], 1) == Repeated(segments[n], 0) + [segments[n]];
    }
  }

  // So a sink that is added once and later removed has heard exactly what was sent in between.
  lemma AddedOnce(pre: seq<Event>, mid: seq<Event>, post: seq<Event>, k: Sink)
    requires Unconcerned(pre, k) && Unconcerned(mid, k) && Unconcerned(post, k)
    ensures var sofar := pre + [Add(k)] + mid;
            && SentIn(pre) <= SentIn(sofar)
            && Heard(CallsAfter(sofar + [Remove(k)] + post), k) == SentIn(sofar)[|SentIn(pre)|..]
  {
    var added := pre + [Add(k)];
    HeardNothing(pre, k);
    OneMore(pre, Add(k), k);
    ListCounts(added, k);
    EverySinkHearsItsShare(added, k);
    EachSinkHearsItsStretch(added, mid, post, k);
    OnceEach(SentIn(added + mid)[|SentIn(added)|..]);
  }

  lemma HeardNothing(pre: seq<Event>, k: Sink)
    requires Unconcerned(pre, k)
    ensures Registrations(pre, k) == 0 && Promised(pre, k) == []
  {
    assert [] + pre == pre;
    PromisedMeanwhile([], pre, k);
    NothingEach(SentIn(pre)[|SentIn([])|..]);
  }

  function Sends(segments: seq<Segment>): seq<Event> {
    if segments == [] then [] else Sends(segments[..|segments| - 1]) + [Send(segments[|segments| - 1])]
  }

  // The segments onData delivers without interruption are as many Send events.
  lemma {:induction false} DeliveriesAreSends(es: seq<Event>, segments: seq<Segment>)
    ensures SinksAfter(es + Sends(segments)) == SinksAfter(es)
    ensures CallsAfter(es + Sends(segments)) == CallsAfter(es) + AllCallsFor(SinksAfter(es), segments)
    decreases |segments|
  {
    if segments == [] {
      assert es + Sends(segments) == es;
    } else {
      var n := |segments| - 1;
      var before, x, ks := segments[..n], segments[n], SinksAfter(es);
      Reassociate(es, Sends(before), [Send(x)]);
      DeliveriesAreSends(es, before);
      SendOne(es + Sends(before), x);
      Reassociate(CallsAfter(es), AllCallsFor(ks, before), CallsFor(ks, x));
    }
  }

  lemma SendOne(es: seq<Event>, x: Segment)
    ensures SinksAfter(es + [Send(x)]) == SinksAfter(es)
    ensures CallsAfter(es + [Send(x)]) == CallsAfter(es) + CallsFor(SinksAfter(es), x)
  {
    assert (es + [Send(x)])[..|es|] == es;
  }
}
