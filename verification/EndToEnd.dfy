/**
 From the NAL units of a session to the decoder: which parameter sets a key
 frame starts with, and which decoder it meets. The cache starts with the unit
 that last reset it (H.264 SPS, H.265 VPS); the decoder is made for the format
 announced last (by an SPS in both). For H.264 the two are the same unit.
 */
module EndToEnd {
  import opened Common
  import opened Collections
  import opened AccessUnits
  import opened VideoDecoder
  import DecoderQueue

  // One buffer given to onH264Data or onH265Data; `drops` are the slices the FFmpeg rule throws away.
  datatype Chunk = Chunk(units: seq<Unit>, ts: nat, drops: seq<bool>)

  // Units as the classifications make them: none empty, and only parameter sets announce a format.
  predicate WellFormedUnit(u: Unit) {
    u.bytes != [] && (u.announces.Some? ==> u.role.Reset? || u.role.Extend?)
  }

  predicate WellFormed(c: Chunk) {
    |c.units| == |c.drops| && forall u :: u in c.units ==> WellFormedUnit(u)
  }

  predicate Session(chunks: seq<Chunk>) { forall i :: 0 <= i < |chunks| ==> WellFormed(chunks[i]) }

  // In H.264 the units that reset the cache are those that announce a format.
  predicate SpsResets(us: seq<Unit>) { forall u :: u in us ==> (u.role.Reset? <==> u.announces.Some?) }

  // In H.265 they never are.
  predicate VpsResets(us: seq<Unit>) { forall u :: u in us ==> !(u.role.Reset? && u.announces.Some?) }

  lemma UnitsAreWellFormed(buffer: seq<Byte>, ix: seq<Index>, parse: SpsParser, ts: nat, drops: seq<bool>)
    requires AnnexB(buffer, ix) && |drops| == |ix|
    ensures WellFormed(Chunk(H264Units(buffer, ix, parse), ts, drops)) && SpsResets(H264Units(buffer, ix, parse))
    ensures (forall x :: x in ix ==> Readable(buffer, x)) ==>
              WellFormed(Chunk(H265Units(buffer, ix, parse), ts, drops)) && VpsResets(H265Units(buffer, ix, parse))
  {
    UnitsAreCuts(buffer, ix, parse);
    CutsAreNonEmpty(buffer, ix, H264Units(buffer, ix, parse));
    if forall x :: x in ix ==> Readable(buffer, x) {
      CutsAreNonEmpty(buffer, ix, H265Units(buffer, ix, parse));
    }
  }

  function AllUnits(chunks: seq<Chunk>): seq<Unit> {
    if chunks == [] then [] else AllUnits(chunks[..|chunks| - 1]) + chunks[|chunks| - 1].units
  }

  // What the whole session posts. The cache starts empty and is carried from buffer to buffer.
  function SessionPosts(codec: string, chunks: seq<Chunk>): seq<Frame>
    requires Session(chunks)
  {
    if chunks == [] then [] else
      var n := |chunks| - 1;
      SessionPosts(codec, chunks[..n]) +
      Posts(Cache([], AllUnits(chunks[..n])), chunks[n].units, codec, chunks[n].ts, chunks[n].drops)
  }

  // ---------------------------------------------------------------- the latest parameter sets

  // The unit that last reset the cache.
  function LatestReset(us: seq<Unit>): Option<Unit> {
    if us == [] then None
    else if us[|us| - 1].role.Reset? then Some(us[|us| - 1])
    else LatestReset(us[..|us| - 1])
  }

  // The dimensions announced last.
  function LatestAnnounced(us: seq<Unit>): Option<Dimensions> {
    if us == [] then None
    else if us[|us| - 1].announces.Some? then us[|us| - 1].announces
    else LatestAnnounced(us[..|us| - 1])
  }

  function FormatFor(codec: string, d: Option<Dimensions>): Option<Format> {
    match d
    case None => None
    case Some(d) => Some(Format(codec, d.width, d.height))
  }

  // In H.264 both come from the latest SPS.
  lemma {:induction false} LatestSpsDoesBoth(us: seq<Unit>)
    requires SpsResets(us)
    ensures LatestAnnounced(us) == if LatestReset(us).Some? then LatestReset(us).value.announces else None
  {
    if us != [] {
      var n := |us| - 1;
      assert us[n] in us && forall u :: u in us[..n] ==> u in us;
      LatestSpsDoesBoth(us[..n]);
    }
  }

  lemma {:induction false} LatestOfConcat(us: seq<Unit>, vs: seq<Unit>)
    ensures LatestReset(us + vs) == if LatestReset(vs).Some? then LatestReset(vs) else LatestReset(us)
    ensures LatestAnnounced(us + vs) == if LatestAnnounced(vs).Some? then LatestAnnounced(vs) else LatestAnnounced(us)
  {
    if vs == [] {
      assert us + vs == us;
    } else {
      var n := |vs| - 1;
      assert (us + vs)[..|us + vs| - 1] == us + vs[..n];
      LatestOfConcat(us, vs[..n]);
    }
  }

  lemma {:induction false} NoneLatest(us: seq<Unit>)
    requires forall i :: 0 <= i < |us| ==> !us[i].role.Reset? && us[i].announces.None?
    ensures LatestReset(us) == None && LatestAnnounced(us) == None
  {
    if us != [] { NoneLatest(us[..|us| - 1]); }
  }

  // The cache starts with the unit that last reset it.
  lemma {:induction false} CacheStartsWithLatest(cfg: seq<Byte>, us: seq<Unit>)
    requires LatestReset(us).Some?
    ensures LatestReset(us).value.bytes <= Cache(cfg, us)
  {
    if !us[|us| - 1].role.Reset? {
      CacheStartsWithLatest(cfg, us[..|us| - 1]);
    }
  }

  // ---------------------------------------------------------------- formats in the queue

  lemma {:induction false} LastFormatOfConcat(fs: seq<Frame>, gs: seq<Frame>)
    ensures LastFormat(fs + gs) == if LastFormat(gs).Some? then LastFormat(gs) else LastFormat(fs)
  {
    if gs == [] {
      assert fs + gs == fs;
    } else {
      var n := |gs| - 1;
      assert (fs + gs)[..|fs + gs| - 1] == fs + gs[..n];
      LastFormatOfConcat(fs, gs[..n]);
    }
  }

  lemma FormatOfMessage(codec: string, u: Unit, ts: nat, drop: bool)
    requires codec != "" && WellFormedUnit(u)
    ensures LastFormat(Message(u, codec, ts, drop)) == FormatFor(codec, u.announces)
  {
    var m := Message(u, codec, ts, drop);
    if |m| == 1 { assert m[..0] == []; }
  }

  lemma {:induction false} FormatOfMessages(codec: string, us: seq<Unit>, ts: nat, drops: seq<bool>)
    requires codec != "" && |us| == |drops| && forall u :: u in us ==> WellFormedUnit(u)
    ensures LastFormat(Messages(us, codec, ts, drops)) == FormatFor(codec, LatestAnnounced(us))
  {
    if us != [] {
      var n := |us| - 1;
      var ms, m := Messages(us[..n], codec, ts, drops[..n]), Message(us[n], codec, ts, drops[n]);
      assert us[n] in us;
      assert forall u :: u in us[..n] ==> u in us;
      FormatOfMessages(codec, us[..n], ts, drops[..n]);
      FormatOfMessage(codec, us[n], ts, drops[n]);
      NextFormat(codec, ms, m, us[..n], us[n], us);
    }
  }

  lemma NextFormat(codec: string, ms: seq<Frame>, m: seq<Frame>, us: seq<Unit>, u: Unit, all: seq<Unit>)
    requires LastFormat(ms) == FormatFor(codec, LatestAnnounced(us)) && LastFormat(m) == FormatFor(codec, u.announces)
    requires all != [] && all[..|all| - 1] == us && all[|all| - 1] == u
    ensures LastFormat(ms + m) == FormatFor(codec, LatestAnnounced(all))
  {
    LastFormatOfConcat(ms, m);
  }

  // If `posts` carry the format announced last in `us`, then posts and messages of the next buffer
  // together carry the format announced last including that buffer.
  lemma FormatWithChunk(codec: string, posts: seq<Frame>, us: seq<Unit>, c: Chunk)
    requires codec != "" && WellFormed(c) && LastFormat(posts) == FormatFor(codec, LatestAnnounced(us))
    ensures LastFormat(posts + Messages(c.units, codec, c.ts, c.drops)) == FormatFor(codec, LatestAnnounced(us + c.units))
  {
    LastFormatOfConcat(posts, Messages(c.units, codec, c.ts, c.drops));
    FormatOfMessages(codec, c.units, c.ts, c.drops);
    LatestOfConcat(us, c.units);
  }

  // The key frame of a buffer whose first IDR slice is at `k`.
  function KeyAt(cfg: seq<Byte>, c: Chunk, k: nat): Frame
    requires k <= |c.units|
  {
    DataFrame(Cache(cfg, c.units[..k]) + Gather(c.units, Idr), c.ts, Key)
  }

  // What a buffer posts behind its messages: nothing, or its key frame, which announces nothing.
  lemma Tail(codec: string, cfg: seq<Byte>, c: Chunk) returns (k: nat, tail: seq<Frame>)
    requires WellFormed(c)
    ensures Posts(cfg, c.units, codec, c.ts, c.drops) == Messages(c.units, codec, c.ts, c.drops) + tail
    ensures Has(c.units, Idr) ==> IsFirst(c.units, Idr, k) && tail == [KeyAt(cfg, c, k)]
    ensures !Has(c.units, Idr) ==> tail == []
    ensures LastFormat(tail) == None
  {
    assert forall u :: u in c.units ==> WellFormedUnit(u) && u.bytes != [];
    PostsOfABuffer(cfg, c.units, codec, c.ts, c.drops);
    if Has(c.units, Idr) {
      k := First(c.units, Idr);
      tail := [KeyAt(cfg, c, k)];
      assert tail[..0] == [];
    } else {
      k, tail := 0, [];
    }
  }

  lemma FormatAfterChunk(codec: string, posts: seq<Frame>, us: seq<Unit>, cfg: seq<Byte>, c: Chunk)
    requires codec != "" && WellFormed(c) && LastFormat(posts) == FormatFor(codec, LatestAnnounced(us))
    ensures LastFormat(posts + Posts(cfg, c.units, codec, c.ts, c.drops)) == FormatFor(codec, LatestAnnounced(us + c.units))
  {
    var ms := Messages(c.units, codec, c.ts, c.drops);
    var k, tail := Tail(codec, cfg, c);
    Reassociate(posts, ms, tail);
    LastFormatOfConcat(posts + ms, tail);
    FormatWithChunk(codec, posts, us, c);
  }

  // The last format the session has posted is the one announced last.
  lemma {:induction false} FormatOfSession(codec: string, chunks: seq<Chunk>)
    requires codec != "" && Session(chunks)
    ensures LastFormat(SessionPosts(codec, chunks)) == FormatFor(codec, LatestAnnounced(AllUnits(chunks)))
  {
    if chunks != [] {
      var n := |chunks| - 1;
      FormatOfSession(codec, chunks[..n]);
      FormatAfterChunk(codec, SessionPosts(codec, chunks[..n]), AllUnits(chunks[..n]), Cache([], AllUnits(chunks[..n])), chunks[n]);
    }
  }

  // ---------------------------------------------------------------- one key frame

  // The key frame of a buffer starts with the unit that had reset the cache last at the buffer's first
  // IDR slice. The format posted before it is the one announced last at that slice if and only if the
  // units behind the slice in the same buffer announce none, or end with the same one.
  lemma KeyFrameMeetsItsFormat(codec: string, before: seq<Chunk>, c: Chunk, k: nat)
    requires codec != "" && Session(before) && WellFormed(c) && IsFirst(c.units, Idr, k)
    ensures var us, ms := AllUnits(before) + c.units[..k], Messages(c.units, codec, c.ts, c.drops);
            var behind := LatestAnnounced(c.units[k..]);
            && Posts(Cache([], AllUnits(before)), c.units, codec, c.ts, c.drops) ==
               ms + [DataFrame(Cache([], us) + Gather(c.units, Idr), c.ts, Key)]
            && (LatestReset(us).Some? ==> LatestReset(us).value.bytes <= Cache([], us))
            && (LastFormat(SessionPosts(codec, before) + ms) == FormatFor(codec, LatestAnnounced(us)) <==>
                behind.None? || behind == LatestAnnounced(us))
  {
    var us := AllUnits(before);
    CacheOfConcat([], us, c.units[..k]);
    PostsWithKey(codec, Cache([], us), c, k);
    if LatestReset(us + c.units[..k]).Some? { CacheStartsWithLatest([], us + c.units[..k]); }
    FormatOfSession(codec, before);
    FormatWithChunk(codec, SessionPosts(codec, before), us, c);
    LatestSplit(us, c.units, k);
  }

  lemma PostsWithKey(codec: string, cfg: seq<Byte>, c: Chunk, k: nat)
    requires WellFormed(c) && IsFirst(c.units, Idr, k)
    ensures Posts(cfg, c.units, codec, c.ts, c.drops) == Messages(c.units, codec, c.ts, c.drops) + [KeyAt(cfg, c, k)]
  {
    assert forall u :: u in c.units ==> WellFormedUnit(u) && u.bytes != [];
    PostsOfABuffer(cfg, c.units, codec, c.ts, c.drops);
  }

  lemma LatestSplit(us: seq<Unit>, vs: seq<Unit>, k: nat)
    requires k <= |vs|
    ensures LatestReset(us + vs) == if LatestReset(vs[k..]).Some? then LatestReset(vs[k..]) else LatestReset(us + vs[..k])
    ensures LatestAnnounced(us + vs) ==
            if LatestAnnounced(vs[k..]).Some? then LatestAnnounced(vs[k..]) else LatestAnnounced(us + vs[..k])
  {
    assert us + vs == (us + vs[..k]) + vs[k..];
    LatestOfConcat(us + vs[..k], vs[k..]);
  }

  // No resetting and no announcing unit follows an IDR slice inside the buffer.
  predicate ConfigBeforeIdr(us: seq<Unit>) {
    forall i, j :: 0 <= i < j < |us| && us[i].role.Idr? ==> !us[j].role.Reset? && us[j].announces.None?
  }

  predicate ConfigsFirst(chunks: seq<Chunk>) { forall i :: 0 <= i < |chunks| ==> ConfigBeforeIdr(chunks[i].units) }

  lemma NoConfigAfterIdr(us: seq<Unit>, k: nat)
    requires ConfigBeforeIdr(us) && k < |us| && us[k].role.Idr? && us[k].announces.None?
    ensures LatestReset(us[k..]) == None && LatestAnnounced(us[k..]) == None
  {
    forall i | 0 <= i < |us[k..]| ensures !us[k..][i].role.Reset? && us[k..][i].announces.None? {
      assert us[k..][i] == us[k + i];
    }
    NoneLatest(us[k..]);
  }

  // Posted behind `posts` when the session has seen `us`: the frame starts with the unit that reset the
  // cache last, if any did, and the last format posted is the one announced last.
  predicate Headed(codec: string, posts: seq<Frame>, f: Frame, us: seq<Unit>) {
    && f.DataFrame?
    && (LatestReset(us).Some? ==> LatestReset(us).value.bytes <= f.content)
    && LastFormat(posts) == FormatFor(codec, LatestAnnounced(us))
  }

  lemma PrefixOfConcat(a: seq<Byte>, b: seq<Byte>, c: seq<Byte>)
    requires a <= b
    ensures a <= b + c
  {}

  lemma ChunkKeyIsHeaded(codec: string, posts: seq<Frame>, us: seq<Unit>, c: Chunk, k: nat)
    requires codec != "" && WellFormed(c) && ConfigBeforeIdr(c.units) && IsFirst(c.units, Idr, k)
    requires LastFormat(posts) == FormatFor(codec, LatestAnnounced(us))
    ensures Headed(codec, posts + Messages(c.units, codec, c.ts, c.drops), KeyAt(Cache([], us), c, k), us + c.units)
  {
    FormatWithChunk(codec, posts, us, c);
    var head := LatestReset(us + c.units);
    if head.Some? {
      assert head == LatestReset(us + c.units[..k]) by {
        assert c.units[k] in c.units && WellFormedUnit(c.units[k]);
        NoConfigAfterIdr(c.units, k);
        LatestSplit(us, c.units, k);
      }
      CacheOfConcat([], us, c.units[..k]);
      CacheStartsWithLatest([], us + c.units[..k]);
      PrefixOfConcat(head.value.bytes, Cache(Cache([], us), c.units[..k]), Gather(c.units, Idr));
    }
  }

  // The key frames of a session that is extended by one buffer: those there were, and at most its own.
  lemma NewKeyIsHeaded(codec: string, posts: seq<Frame>, us: seq<Unit>, c: Chunk, out: seq<Frame>, n: nat)
    requires codec != "" && WellFormed(c) && ConfigBeforeIdr(c.units)
    requires LastFormat(posts) == FormatFor(codec, LatestAnnounced(us))
    requires out == Posts(Cache([], us), c.units, codec, c.ts, c.drops)
    requires n < |out| && IsKey(out[n])
    ensures n + 1 == |out| && Has(c.units, Idr) && Headed(codec, posts + out[..n], out[n], us + c.units)
  {
    var ms := Messages(c.units, codec, c.ts, c.drops);
    var k, tail := Tail(codec, Cache([], us), c);
    assert n >= |ms| by { MessagesHoldNoKey(c.units, codec, c.ts, c.drops); }
    assert out[..n] == ms && out[n] == tail[0];
    ChunkKeyIsHeaded(codec, posts, us, c, k);
  }

  // The n-th post is the key frame that closes buffer k, headed by what the session has seen up to
  // and including that buffer.
  ghost predicate Closes(codec: string, chunks: seq<Chunk>, posts: seq<Frame>, n: nat, k: nat) {
    && k < |chunks| && Has(chunks[k].units, Idr)
    && Session(chunks[..k + 1]) && n + 1 == |SessionPosts(codec, chunks[..k + 1])|
    && n < |posts| && Headed(codec, posts[..n], posts[n], AllUnits(chunks[..k + 1]))
  }

  lemma ClosesStill(codec: string, before: seq<Chunk>, chunks: seq<Chunk>, earlier: seq<Frame>, posts: seq<Frame>, n: nat, k: nat)
    requires Closes(codec, before, earlier, n, k) && before <= chunks && earlier <= posts
    ensures Closes(codec, chunks, posts, n, k)
  {
    assert chunks[..k + 1] == before[..k + 1];
    assert posts[..n] == earlier[..n];
  }

  lemma LastCloses(codec: string, chunks: seq<Chunk>, n: nat)
    requires codec != "" && Session(chunks) && chunks != [] && ConfigBeforeIdr(chunks[|chunks| - 1].units)
    requires |SessionPosts(codec, chunks[..|chunks| - 1])| <= n < |SessionPosts(codec, chunks)|
    requires IsKey(SessionPosts(codec, chunks)[n])
    ensures Closes(codec, chunks, SessionPosts(codec, chunks), n, |chunks| - 1)
  {
    var before, c := chunks[..|chunks| - 1], chunks[|chunks| - 1];
    assert chunks[..|chunks|] == chunks;
    var out := Posts(Cache([], AllUnits(before)), c.units, codec, c.ts, c.drops);
    assert SessionPosts(codec, chunks) == SessionPosts(codec, before) + out;
    FormatOfSession(codec, before);
    SpliceIsHeaded(codec, SessionPosts(codec, before), AllUnits(before), c, out, SessionPosts(codec, chunks), n);
  }

  lemma SpliceIsHeaded(codec: string, earlier: seq<Frame>, us: seq<Unit>, c: Chunk, out: seq<Frame>, posts: seq<Frame>, n: nat)
    requires codec != "" && WellFormed(c) && ConfigBeforeIdr(c.units)
    requires LastFormat(earlier) == FormatFor(codec, LatestAnnounced(us))
    requires out == Posts(Cache([], us), c.units, codec, c.ts, c.drops) && posts == earlier + out
    requires |earlier| <= n < |posts| && IsKey(posts[n])
    ensures n + 1 == |posts| && Has(c.units, Idr) && Headed(codec, posts[..n], posts[n], us + c.units)
  {
    var m := n - |earlier|;
    NewKeyIsHeaded(codec, earlier, us, c, out, m);
    assert posts[..n] == earlier + out[..m];
  }

  lemma PostsGrow(codec: string, chunks: seq<Chunk>)
    requires Session(chunks) && chunks != []
    ensures Session(chunks[..|chunks| - 1]) && SessionPosts(codec, chunks[..|chunks| - 1]) <= SessionPosts(codec, chunks)
  {}

  lemma ConfigsOfPrefix(chunks: seq<Chunk>)
    requires ConfigsFirst(chunks) && chunks != []
    ensures ConfigsFirst(chunks[..|chunks| - 1]) && ConfigBeforeIdr(chunks[|chunks| - 1].units)
  {}

  // Every key frame a session posts closes one of its buffers.
  lemma {:induction false} KeyFramesAreHeaded(codec: string, chunks: seq<Chunk>, n: nat) returns (k: nat)
    requires codec != "" && Session(chunks) && ConfigsFirst(chunks)
    requires n < |SessionPosts(codec, chunks)| && IsKey(SessionPosts(codec, chunks)[n])
    ensures Closes(codec, chunks, SessionPosts(codec, chunks), n, k)
  {
    k := |chunks| - 1;
    var before := chunks[..k];
    ConfigsOfPrefix(chunks);
    if n < |SessionPosts(codec, before)| {
      PostsGrow(codec, chunks);
      assert SessionPosts(codec, before)[n] == SessionPosts(codec, chunks)[n];
      k := KeyFramesAreHeaded(codec, before, n);
      ClosesStill(codec, before, chunks, SessionPosts(codec, before), SessionPosts(codec, chunks), n, k);
    } else {
      LastCloses(codec, chunks, n);
    }
  }

  lemma {:induction false} MessagesHoldNoKey(us: seq<Unit>, codec: string, ts: nat, drops: seq<bool>)
    requires |us| == |drops|
    ensures var ms := Messages(us, codec, ts, drops); forall i :: 0 <= i < |ms| ==> !IsKey(ms[i])
  {
    if us != [] {
      var n := |us| - 1;
      MessagesHoldNoKey(us[..n], codec, ts, drops[..n]);
      var m := Message(us[n], codec, ts, drops[n]);
      assert Messages(us, codec, ts, drops) == Messages(us[..n], codec, ts, drops[..n]) + m;
      assert |m| <= 1 && forall i :: 0 <= i < |m| ==> !IsKey(m[i]);
    }
  }

  // ---------------------------------------------------------------- across the threads

  // The posts of the capture thread: all but the sentinel of Stop.
  function Captured(fs: seq<Frame>): seq<Frame> {
    if fs == [] then [] else
      var n := |fs| - 1;
      Captured(fs[..n]) + if fs[n].StopFrame? then [] else [fs[n]]
  }

  lemma {:induction false} CapturedFormat(fs: seq<Frame>)
    ensures LastFormat(Captured(fs)) == LastFormat(fs)
  {
    if fs != [] {
      var n := |fs| - 1;
      CapturedFormat(fs[..n]);
      if fs[n].StopFrame? {
        assert Captured(fs) == Captured(fs[..n]);
      } else {
        assert Captured(fs)[..|Captured(fs)| - 1] == Captured(fs[..n]);
      }
    }
  }

  // A frame that is not the sentinel is captured right behind what was captured before it.
  lemma {:induction false} CapturedAt(fs: seq<Frame>, n: nat)
    requires n < |fs| && !fs[n].StopFrame?
    ensures |Captured(fs[..n])| < |Captured(fs)|
    ensures Captured(fs)[|Captured(fs[..n])|] == fs[n]
    ensures Captured(fs)[..|Captured(fs[..n])|] == Captured(fs[..n])
  {
    var l := |fs| - 1;
    if n < l {
      CapturedAt(fs[..l], n);
      assert fs[..l][..n] == fs[..n];
    }
  }

  // However the capture thread, the decoder thread and Stop interleave: a key frame of the session
  // starts with the unit that reset the cache last up to its buffer, and is only ever decoded by a
  // decoder that was created for the dimensions announced last up to its buffer.
  lemma KeyFramesMeetTheirDecoder(codec: string, ss: seq<DecoderQueue.System>, steps: seq<DecoderQueue.Step>, i: nat,
                                  chunks: seq<Chunk>, d: nat) returns (k: nat)
    requires codec != "" && DecoderQueue.IsRun(ss, steps) && i < |ss| && d < |ss[i].log|
    requires Session(chunks) && ConfigsFirst(chunks)
    requires Captured(ss[i].posted) <= SessionPosts(codec, chunks)
    requires ss[i].log[d].frame < |ss[i].posted| && IsKey(ss[i].posted[ss[i].log[d].frame])
    ensures k < |chunks| && Has(chunks[k].units, Idr)
    // the frame is the one that closes buffer k
    ensures |Captured(ss[i].posted[..ss[i].log[d].frame])| + 1 == |SessionPosts(codec, chunks[..k + 1])|
    ensures var seen := AllUnits(chunks[..k + 1]);
            && FormatFor(codec, LatestAnnounced(seen)) == Some(ss[i].log[d].madeFor)
            && (LatestReset(seen).Some? ==> LatestReset(seen).value.bytes <= ss[i].posted[ss[i].log[d].frame].content)
  {
    var s, e := ss[i], ss[i].log[d].frame;
    DecoderQueue.DecodedAsPosted(ss, steps, i);
    assert Faithful(s.posted, s.log[d]);
    var posts := SessionPosts(codec, chunks);
    var m := PlaceInSession(s.posted, e, posts);
    k := KeyFramesAreHeaded(codec, chunks, m);
  }

  // Where a posted frame stands among the posts of the session, and the format before it there.
  lemma PlaceInSession(posted: seq<Frame>, e: nat, posts: seq<Frame>) returns (m: nat)
    requires e < |posted| && !posted[e].StopFrame? && Captured(posted) <= posts
    ensures m == |Captured(posted[..e])| < |posts| && posts[m] == posted[e]
    ensures LastFormat(posts[..m]) == LastFormat(posted[..e])
  {
    m := |Captured(posted[..e])|;
    CapturedAt(posted, e);
    CapturedFormat(posted[..e]);
    assert posts[..m] == Captured(posted)[..m];
  }

  lemma {:induction false} AllSpsReset(chunks: seq<Chunk>)
    requires forall j :: 0 <= j < |chunks| ==> SpsResets(chunks[j].units)
    ensures SpsResets(AllUnits(chunks))
  {
    if chunks != [] { AllSpsReset(chunks[..|chunks| - 1]); }
  }

  // For H.264, where the units that reset the cache announce the format: a key frame that is decoded
  // starts with the latest SPS, and its decoder was created for that SPS's dimensions.
  lemma H264KeyFramesMeetTheirSps(codec: string, ss: seq<DecoderQueue.System>, steps: seq<DecoderQueue.Step>, i: nat,
                                  chunks: seq<Chunk>, d: nat) returns (k: nat)
    requires codec != "" && DecoderQueue.IsRun(ss, steps) && i < |ss| && d < |ss[i].log|
    requires Session(chunks) && ConfigsFirst(chunks)
    requires forall j :: 0 <= j < |chunks| ==> SpsResets(chunks[j].units)
    requires Captured(ss[i].posted) <= SessionPosts(codec, chunks)
    requires ss[i].log[d].frame < |ss[i].posted| && IsKey(ss[i].posted[ss[i].log[d].frame])
    ensures k < |chunks| && Has(chunks[k].units, Idr)
    ensures |Captured(ss[i].posted[..ss[i].log[d].frame])| + 1 == |SessionPosts(codec, chunks[..k + 1])|
    ensures var sps := LatestReset(AllUnits(chunks[..k + 1]));
            && sps.Some? && sps.value.bytes <= ss[i].posted[ss[i].log[d].frame].content
            && FormatFor(codec, sps.value.announces) == Some(ss[i].log[d].madeFor)
  {
    k := KeyFramesMeetTheirDecoder(codec, ss, steps, i, chunks, d);
    AllSpsReset(chunks[..k + 1]);
    LatestSpsDoesBoth(AllUnits(chunks[..k + 1]));
  }

  // ---------------------------------------------------------------- whole access units

  // Parameter sets, of which exactly the one at `sps` announces a format, and an IDR slice.
  predicate AccessUnit(us: seq<Unit>, sps: nat) {
    && sps + 1 < |us|
    && us[0].role.Reset? && (forall i :: 0 < i < |us| - 1 ==> us[i].role.Extend?) && us[|us| - 1].role.Idr?
    && (forall i :: 0 <= i < |us| ==> us[i].bytes != [] && (us[i].announces.Some? <==> i == sps))
  }

  // It posts one format, and one key frame that holds all its units, whatever the cache held before.
  lemma KeyFrameOfAll(cfg: seq<Byte>, us: seq<Unit>, drops: seq<bool>, codec: string, ts: nat, sps: nat)
    requires AccessUnit(us, sps) && |us| == |drops|
    ensures var d := us[sps].announces.value;
            Posts(cfg, us, codec, ts, drops) == [FormatFrame(codec, d.width, d.height), DataFrame(Joined(us), ts, Key)]
  {
    assert IsFirst(us, Idr, |us| - 1) by { IdrComesLast(us, sps); }
    PostsOfABuffer(cfg, us, codec, ts, drops);
    AllGoesIn(cfg, us, sps);
    OneFormat(us, drops, codec, ts, sps, |us|);
    assert us[..|us|] == us && drops[..|us|] == drops;
  }

  lemma IdrComesLast(us: seq<Unit>, sps: nat)
    requires AccessUnit(us, sps)
    ensures IsFirst(us, Idr, |us| - 1)
  {
    assert forall i :: 0 <= i < |us| - 1 ==> us[..|us| - 1][i] == us[i];
  }

  lemma AllGoesIn(cfg: seq<Byte>, us: seq<Unit>, sps: nat)
    requires AccessUnit(us, sps)
    ensures Cache(cfg, us[..|us| - 1]) + Gather(us, Idr) == Joined(us)
  {
    assert forall i :: 0 <= i < |us| - 1 ==> us[..|us| - 1][i] == us[i];
    ParameterSetsFill(cfg, us[..|us| - 1]);
    GatherLast(us, Idr);
  }

  // The cache after a resetting unit and extending ones holds just them.
  lemma {:induction false} ParameterSetsFill(cfg: seq<Byte>, us: seq<Unit>)
    requires us != [] && us[0].role.Reset? && forall i :: 0 < i < |us| ==> us[i].role.Extend?
    ensures Cache(cfg, us) == Joined(us)
  {
    var n := |us| - 1;
    if n == 0 {
      assert us[..0] == [];
    } else {
      assert forall i :: 0 <= i < n ==> us[..n][i] == us[i];
      ParameterSetsFill(cfg, us[..n]);
    }
  }

  lemma GatherLast(us: seq<Unit>, role: Role)
    requires us != [] && us[|us| - 1].role == role && forall i :: 0 <= i < |us| - 1 ==> us[i].role != role
    ensures Gather(us, role) == us[|us| - 1].bytes
  {
    var n := |us| - 1;
    assert forall i :: 0 <= i < n ==> us[..n][i] == us[i];
    NothingGathered(us[..n], role);
  }

  lemma {:induction false} OneFormat(us: seq<Unit>, drops: seq<bool>, codec: string, ts: nat, sps: nat, n: nat)
    requires AccessUnit(us, sps) && |us| == |drops| && n <= |us|
    ensures Messages(us[..n], codec, ts, drops[..n]) == if n <= sps then [] else [SpsFrame(us[sps], codec)]
  {
    if n > 0 {
      OneFormat(us, drops, codec, ts, sps, n - 1);
      OneMessage(us, codec, ts, drops[n - 1], sps, n - 1);
      MessagesNext(us, codec, ts, drops, n - 1);
      var before, m := Messages(us[..n - 1], codec, ts, drops[..n - 1]), Message(us[n - 1], codec, ts, drops[n - 1]);
      if n - 1 == sps { assert before == [] && before + m == m; } else { assert m == [] && before + m == before; }
    }
  }

  function SpsFrame(u: Unit, codec: string): Frame
    requires u.announces.Some?
  {
    FormatFrame(codec, u.announces.value.width, u.announces.value.height)
  }

  lemma OneMessage(us: seq<Unit>, codec: string, ts: nat, drop: bool, sps: nat, i: nat)
    requires AccessUnit(us, sps) && i < |us|
    ensures Message(us[i], codec, ts, drop) ==
            if i == sps then [SpsFrame(us[sps], codec)] else []
  {
    MessageTable(us[i], codec, ts, drop);
  }

  lemma MessagesNext(us: seq<Unit>, codec: string, ts: nat, drops: seq<bool>, i: nat)
    requires |us| == |drops| && i < |us|
    ensures Messages(us[..i + 1], codec, ts, drops[..i + 1]) ==
            Messages(us[..i], codec, ts, drops[..i]) + Message(us[i], codec, ts, drops[i])
  {
    assert us[..i + 1][..i] == us[..i] && drops[..i + 1][..i] == drops[..i];
  }

  // The NAL unit type read at x.
  predicate TypeIs264(buffer: seq<Byte>, x: Index, t: int) {
    x.size > 0 && x.payload < |buffer| && buffer[x.payload] % 32 == t
  }

  predicate TypeIs265(buffer: seq<Byte>, x: Index, t: int) {
    Readable(buffer, x) && buffer[x.payload] / 2 % 64 == t
  }

  // The i-th unit of a buffer, by its NAL unit type.
  lemma H264UnitOfType(buffer: seq<Byte>, ix: seq<Index>, parse: SpsParser, i: nat, t: int)
    requires AnnexB(buffer, ix) && i < |ix| && TypeIs264(buffer, ix[i], t)
    ensures Within(buffer, ix[i])
    ensures var u := H264Units(buffer, ix, parse)[i];
            && u.bytes != [] && (u.role.Reset? <==> t == 7) && (u.role.Extend? <==> t == 8) && (u.role.Idr? <==> t == 5)
            && u.announces == if t == 7
                              then Some(SpsDimensions(parse, buffer[ix[i].payload + 1..ix[i].payload + ix[i].size])) else None
  {
    assert TileAt(buffer, ix, i);
    H264Table(buffer, ix[i], parse);
  }

  lemma H265UnitOfType(buffer: seq<Byte>, ix: seq<Index>, parse: SpsParser, i: nat, t: int)
    requires AnnexB(buffer, ix) && (forall x :: x in ix ==> Readable(buffer, x)) && i < |ix| && TypeIs265(buffer, ix[i], t)
    ensures Within(buffer, ix[i])
    ensures var u := H265Units(buffer, ix, parse)[i];
            && u.bytes != [] && (u.role.Reset? <==> t == 32) && (u.role.Extend? <==> t == 33 || t == 34)
            && (u.role.Idr? <==> t == 19 || t == 20)
            && u.announces == if t == 33
                              then Some(SpsDimensions(parse, buffer[ix[i].payload + 2..ix[i].payload + ix[i].size])) else None
  {
    assert TileAt(buffer, ix, i) && ix[i] in ix;
    H265Table(buffer, ix[i], parse);
  }

  // An H.264 buffer of an SPS, a PPS and an IDR slice: one format, and a key frame that is the whole
  // buffer, whatever the cache held.
  lemma H264BufferIsItsKeyFrame(buffer: seq<Byte>, ix: seq<Index>, parse: SpsParser, cfg: seq<Byte>, ts: nat, drops: seq<bool>)
    requires AnnexB(buffer, ix) && |ix| == 3 && |drops| == 3 && ix[0].start == 0
    requires TypeIs264(buffer, ix[0], 7) && TypeIs264(buffer, ix[1], 8) && TypeIs264(buffer, ix[2], 5)
    ensures Within(buffer, ix[0])
    ensures var d := SpsDimensions(parse, buffer[ix[0].payload + 1..ix[0].payload + ix[0].size]);
            Posts(cfg, H264Units(buffer, ix, parse), "H264", ts, drops) ==
            [FormatFrame("H264", d.width, d.height), DataFrame(buffer, ts, Key)]
  {
    var us := H264Units(buffer, ix, parse);
    H264AccessUnit(buffer, ix, parse);
    UnitsAreCuts(buffer, ix, parse);
    UnitsTileTheBuffer(buffer, ix, us);
    KeyFrameOfAll(cfg, us, drops, "H264", ts, 0);
  }

  lemma H264AccessUnit(buffer: seq<Byte>, ix: seq<Index>, parse: SpsParser)
    requires AnnexB(buffer, ix) && |ix| == 3
    requires TypeIs264(buffer, ix[0], 7) && TypeIs264(buffer, ix[1], 8) && TypeIs264(buffer, ix[2], 5)
    ensures Within(buffer, ix[0]) && AccessUnit(H264Units(buffer, ix, parse), 0)
    ensures H264Units(buffer, ix, parse)[0].announces ==
            Some(SpsDimensions(parse, buffer[ix[0].payload + 1..ix[0].payload + ix[0].size]))
  {
    H264UnitOfType(buffer, ix, parse, 0, 7);
    H264UnitOfType(buffer, ix, parse, 1, 8);
    H264UnitOfType(buffer, ix, parse, 2, 5);
    ThreeUnits(H264Units(buffer, ix, parse));
  }

  lemma ThreeUnits(us: seq<Unit>)
    requires |us| == 3 && us[0].role.Reset? && us[1].role.Extend? && us[2].role.Idr?
    requires us[0].bytes != [] && us[1].bytes != [] && us[2].bytes != []
    requires us[0].announces.Some? && us[1].announces.None? && us[2].announces.None?
    ensures AccessUnit(us, 0)
  {}

  // An H.265 buffer of a VPS, an SPS, a PPS and an IDR slice: likewise.
  lemma H265BufferIsItsKeyFrame(buffer: seq<Byte>, ix: seq<Index>, parse: SpsParser, cfg: seq<Byte>, ts: nat, drops: seq<bool>, idr: int)
    requires AnnexB(buffer, ix) && (forall x :: x in ix ==> Readable(buffer, x))
    requires |ix| == 4 && |drops| == 4 && ix[0].start == 0 && idr in {19, 20}
    requires TypeIs265(buffer, ix[0], 32) && TypeIs265(buffer, ix[1], 33) && TypeIs265(buffer, ix[2], 34) && TypeIs265(buffer, ix[3], idr)
    ensures Within(buffer, ix[1])
    ensures var d := SpsDimensions(parse, buffer[ix[1].payload + 2..ix[1].payload + ix[1].size]);
            Posts(cfg, H265Units(buffer, ix, parse), "H265", ts, drops) ==
            [FormatFrame("H265", d.width, d.height), DataFrame(buffer, ts, Key)]
  {
    var us := H265Units(buffer, ix, parse);
    H265AccessUnit(buffer, ix, parse, idr);
    UnitsAreCuts(buffer, ix, parse);
    UnitsTileTheBuffer(buffer, ix, us);
    KeyFrameOfAll(cfg, us, drops, "H265", ts, 1);
  }

  lemma H265AccessUnit(buffer: seq<Byte>, ix: seq<Index>, parse: SpsParser, idr: int)
    requires AnnexB(buffer, ix) && (forall x :: x in ix ==> Readable(buffer, x)) && |ix| == 4 && idr in {19, 20}
    requires TypeIs265(buffer, ix[0], 32) && TypeIs265(buffer, ix[1], 33) && TypeIs265(buffer, ix[2], 34) && TypeIs265(buffer, ix[3], idr)
    ensures Within(buffer, ix[1]) && AccessUnit(H265Units(buffer, ix, parse), 1)
    ensures H265Units(buffer, ix, parse)[1].announces ==
            Some(SpsDimensions(parse, buffer[ix[1].payload + 2..ix[1].payload + ix[1].size]))
  {
    H265UnitOfType(buffer, ix, parse, 0, 32);
    H265UnitOfType(buffer, ix, parse, 1, 33);
    H265UnitOfType(buffer, ix, parse, 2, 34);
    H265UnitOfType(buffer, ix, parse, 3, idr);
    FourUnits(H265Units(buffer, ix, parse));
  }

  lemma FourUnits(us: seq<Unit>)
    requires |us| == 4 && us[0].role.Reset? && us[1].role.Extend? && us[2].role.Extend? && us[3].role.Idr?
    requires us[0].bytes != [] && us[1].bytes != [] && us[2].bytes != [] && us[3].bytes != []
    requires us[0].announces.None? && us[1].announces.Some? && us[2].announces.None? && us[3].announces.None?
    ensures AccessUnit(us, 1)
  {}

  // SPS, IDR slice, SPS.
  lemma LateSpsUnits(sps1: seq<Byte>, sps2: seq<Byte>, idr: seq<Byte>, d1: Dimensions, d2: Dimensions, codec: string, ts: nat)
    requires codec != "" && sps1 != [] && sps2 != [] && idr != [] && d1 != d2
    ensures var us := [Unit(Reset, sps1, Some(d1)), Unit(Idr, idr, None), Unit(Reset, sps2, Some(d2))];
            var fs := [FormatFrame(codec, d1.width, d1.height), FormatFrame(codec, d2.width, d2.height)];
            && Posts([], us, codec, ts, [false, false, false]) == fs + [DataFrame(sps1 + idr, ts, Key)]
            && LastFormat(fs) == Some(Format(codec, d2.width, d2.height))
  {
    var u1, u2, u3 := Unit(Reset, sps1, Some(d1)), Unit(Idr, idr, None), Unit(Reset, sps2, Some(d2));
    var a0 := Assembly([], [], []);
    assert [u1, u2, u3][..2] == [u1, u2] && [u1, u2][..1] == [u1] && [u1][..0] == [];
    assert [false, false, false][..2] == [false, false] && [false, false][..1] == [false] && [false][..0] == [];
    var f1 := FormatFrame(codec, d1.width, d1.height);
    assert AbsorbAll(a0, [], codec, ts, []) == a0;
    assert Absorb(a0, u1, codec, ts, false) == Assembly(sps1, [], [f1]);
    assert AbsorbAll(a0, [u1], codec, ts, [false]) == Assembly(sps1, [], [f1]);
    assert AbsorbAll(a0, [u1, u2], codec, ts, [false, false]) == Assembly(sps1, sps1 + idr, [f1]);
  }

  // Three NAL units with one byte of payload each.
  function LateSpsBuffer(a: Byte, b: Byte, c: Byte): seq<Byte> {
    [0, 0, 1, 0x67, a, 0, 0, 1, 0x65, b, 0, 0, 1, 0x67, c]
  }

  const LateSpsIndices := [Index(0, 3, 2), Index(5, 8, 2), Index(10, 13, 2)]

  lemma LateSpsTiles(a: Byte, b: Byte, c: Byte)
    ensures AnnexB(LateSpsBuffer(a, b, c), LateSpsIndices)
  {
    var buffer := LateSpsBuffer(a, b, c);
    assert buffer[0..3] == [0, 0, 1] && buffer[5..8] == [0, 0, 1] && buffer[10..13] == [0, 0, 1];
  }

  lemma LateSpsClassified(a: Byte, b: Byte, c: Byte, parse: SpsParser)
    requires AnnexB(LateSpsBuffer(a, b, c), LateSpsIndices)
    ensures H264Units(LateSpsBuffer(a, b, c), LateSpsIndices, parse) ==
            [Unit(Reset, [0, 0, 1, 0x67, a], Announced(parse([a]))), Unit(Idr, [0, 0, 1, 0x65, b], None),
             Unit(Reset, [0, 0, 1, 0x67, c], Announced(parse([c])))]
  {
    var buffer, ix := LateSpsBuffer(a, b, c), LateSpsIndices;
    assert buffer[0..5] == [0, 0, 1, 0x67, a] && buffer[5..10] == [0, 0, 1, 0x65, b] && buffer[10..15] == [0, 0, 1, 0x67, c];
    assert buffer[4..5] == [a] && buffer[14..15] == [c];
    assert H264Unit(buffer, ix[0], parse) == Unit(Reset, [0, 0, 1, 0x67, a], Announced(parse([a])));
    assert H264Unit(buffer, ix[1], parse) == Unit(Idr, [0, 0, 1, 0x65, b], None);
    assert H264Unit(buffer, ix[2], parse) == Unit(Reset, [0, 0, 1, 0x67, c], Announced(parse([c])));
  }

  // A buffer with an SPS behind its IDR slice: the key frame starts with the first SPS and follows the
  // format of the second, so that it meets a decoder for the second.
  lemma LateSpsMismatch(a: Byte, b: Byte, c: Byte, parse: SpsParser, ts: nat)
    requires a != 0 && b != 0 && Announced(parse([a])) != Announced(parse([c]))
    ensures AnnexB(LateSpsBuffer(a, b, c), LateSpsIndices)
    ensures var d1, d2 := Announced(parse([a])).value, Announced(parse([c])).value;
            var fs := [FormatFrame("H264", d1.width, d1.height), FormatFrame("H264", d2.width, d2.height)];
            && Posts([], H264Units(LateSpsBuffer(a, b, c), LateSpsIndices, parse), "H264", ts, [false, false, false]) ==
               fs + [DataFrame([0, 0, 1, 0x67, a, 0, 0, 1, 0x65, b], ts, Key)]
            && LastFormat(fs) == Some(Format("H264", d2.width, d2.height)) != Some(Format("H264", d1.width, d1.height))
  {
    LateSpsTiles(a, b, c);
    LateSpsClassified(a, b, c, parse);
    LateSpsUnits([0, 0, 1, 0x67, a], [0, 0, 1, 0x67, c], [0, 0, 1, 0x65, b],
                 Announced(parse([a])).value, Announced(parse([c])).value, "H264", ts);
    assert [0, 0, 1, 0x67, a] + [0, 0, 1, 0x65, b] == [0, 0, 1, 0x67, a, 0, 0, 1, 0x65, b];
  }
}
