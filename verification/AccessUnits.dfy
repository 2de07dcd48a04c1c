/**
 Access-unit assembly of `LiveVideoSource`: NAL units in, queue messages out.

 H.264 and H.265 differ only in how a NAL unit is classified, so the assembly
 is stated once over classified units. A unit `Reset`s the parameter-set cache
 (H.264 SPS, H.265 VPS), `Extend`s it (PPS; for H.265 also SPS), is `Ignored`
 (H.264 SEI and empty units), is an `Idr` slice, or is any other `Slice`.
 */
module AccessUnits {
  import opened Common
  import opened Collections

  type Byte = b: int | 0 <= b < 256

  datatype FrameType = Key | Delta

  // What travels through the decoder queue; StopFrame is the default-constructed frame.
  datatype Frame =
    | FormatFrame(format: string, width: int, height: int)
    | DataFrame(content: seq<Byte>, ts: nat, kind: FrameType)
    | StopFrame

  // ---------------------------------------------------------------- NAL units of a buffer

  datatype Index = Index(start: nat, payload: nat, size: nat) {
    function End(): nat { payload + size }
  }

  // What FindNaluIndices promises, after Annex B of ITU-T H.264: adjacent slices that tile the
  // buffer from the first start code on, each opened by a start code of at least three bytes.
  predicate AnnexB(buffer: seq<Byte>, ix: seq<Index>) {
    forall i :: 0 <= i < |ix| ==> TileAt(buffer, ix, i)
  }

  predicate TileAt(buffer: seq<Byte>, ix: seq<Index>, i: nat)
    requires i < |ix|
  {
    && ix[i].start + 3 <= ix[i].payload
    && ix[i].End() <= |buffer|
    && buffer[ix[i].payload - 3..ix[i].payload] == [0, 0, 1]
    && ix[i].End() == (if i + 1 < |ix| then ix[i + 1].start else |buffer|)
  }

  datatype Role = Reset | Extend | Ignored | Idr | Slice

  datatype Dimensions = Dimensions(width: int, height: int)

  // `announces` is the format message the unit gives rise to, if any.
  datatype Unit = Unit(role: Role, bytes: seq<Byte>, announces: Option<Dimensions>)

  // The SPS parser of the library; null when it cannot parse.
  type SpsParser = seq<Byte> -> Option<Dimensions>

  function Announced(d: Option<Dimensions>): Option<Dimensions> {
    match d
    case None => Some(Dimensions(0, 0))
    case Some(_) => d
  }

  function NalBytes(buffer: seq<Byte>, x: Index): seq<Byte>
    requires x.start <= x.End() <= |buffer|
  {
    buffer[x.start..x.End()]
  }

  const H264_IDR := 5
  const H264_SEI := 6
  const H264_SPS := 7
  const H264_PPS := 8

  // The slice lies in the buffer.
  predicate Within(buffer: seq<Byte>, x: Index) { x.start <= x.payload && x.payload + x.size <= |buffer| }

  function H264Unit(buffer: seq<Byte>, x: Index, parse: SpsParser): Unit
    requires Within(buffer, x)
  {
    var bytes := NalBytes(buffer, x);
    if x.size == 0 then Unit(Ignored, bytes, None) else
      var nalType := buffer[x.payload] % 32;
      if nalType == H264_SPS then Unit(Reset, bytes, Announced(parse(buffer[x.payload + 1..x.End()])))
      else if nalType == H264_PPS then Unit(Extend, bytes, None)
      else if nalType == H264_SEI then Unit(Ignored, bytes, None)
      else if nalType == H264_IDR then Unit(Idr, bytes, None)
      else Unit(Slice, bytes, None)
  }

  const H265_IDR_W_RADL := 19
  const H265_IDR_N_LP := 20
  const H265_VPS := 32
  const H265_SPS := 33
  const H265_PPS := 34

  function H265Type(buffer: seq<Byte>, x: Index): int
    requires x.payload < |buffer|
  {
    buffer[x.payload] / 2 % 64
  }

  // The H.265 path has no test for empty units: it reads the byte after the start code and, for an
  // SPS, skips a two-byte header.
  predicate Readable(buffer: seq<Byte>, x: Index) {
    x.payload < |buffer| && (H265Type(buffer, x) == H265_SPS ==> x.size >= 2)
  }

  function H265Unit(buffer: seq<Byte>, x: Index, parse: SpsParser): Unit
    requires Within(buffer, x) && Readable(buffer, x)
  {
    var bytes := NalBytes(buffer, x);
    var nalType := H265Type(buffer, x);
    if nalType == H265_VPS then Unit(Reset, bytes, None)
    else if nalType == H265_SPS then Unit(Extend, bytes, Announced(parse(buffer[x.payload + 2..x.End()])))
    else if nalType == H265_PPS then Unit(Extend, bytes, None)
    else if nalType == H265_IDR_W_RADL || nalType == H265_IDR_N_LP then Unit(Idr, bytes, None)
    else Unit(Slice, bytes, None)
  }

  // What an SPS announces: its dimensions, or 0 x 0 if it cannot be parsed.
  function SpsDimensions(parse: SpsParser, payload: seq<Byte>): Dimensions {
    match parse(payload)
    case None => Dimensions(0, 0)
    case Some(d) => d
  }

  // The numbers of Table 7-1 of ITU-T H.264: 7 is an SPS, 8 a PPS, 6 an SEI, 5 an IDR slice. The SPS is
  // parsed from behind its one-byte header.
  lemma H264Table(buffer: seq<Byte>, x: Index, parse: SpsParser)
    requires Within(buffer, x)
    ensures var u := H264Unit(buffer, x, parse); var t := if x.size > 0 then buffer[x.payload] % 32 else 6;
            && u.bytes == buffer[x.start..x.payload + x.size]
            && (u.role.Reset? <==> t == 7) && (u.role.Extend? <==> t == 8) && (u.role.Ignored? <==> t == 6)
            && (u.role.Idr? <==> t == 5) && (u.role.Slice? <==> t !in {5, 6, 7, 8})
            && u.announces == if t == 7
                              then Some(SpsDimensions(parse, buffer[x.payload + 1..x.payload + x.size])) else None
  {}

  // The numbers of Table 7-1 of ITU-T H.265: 32 is a VPS, 33 an SPS, 34 a PPS, 19 and 20 are IDR slices.
  // The SPS is parsed from behind its two-byte header.
  lemma H265Table(buffer: seq<Byte>, x: Index, parse: SpsParser)
    requires Within(buffer, x) && Readable(buffer, x)
    ensures var u := H265Unit(buffer, x, parse); var t := buffer[x.payload] / 2 % 64;
            && u.bytes == buffer[x.start..x.payload + x.size]
            && (u.role.Reset? <==> t == 32) && (u.role.Extend? <==> t == 33 || t == 34) && !u.role.Ignored?
            && (u.role.Idr? <==> t == 19 || t == 20) && (u.role.Slice? <==> t !in {19, 20, 32, 33, 34})
            && u.announces == if t == 33
                              then Some(SpsDimensions(parse, buffer[x.payload + 2..x.payload + x.size])) else None
  {}

  function H264Units(buffer: seq<Byte>, ix: seq<Index>, parse: SpsParser): seq<Unit>
    requires AnnexB(buffer, ix)
  {
    seq(|ix|, i requires 0 <= i < |ix| => assert TileAt(buffer, ix, i); H264Unit(buffer, ix[i], parse))
  }

  function H265Units(buffer: seq<Byte>, ix: seq<Index>, parse: SpsParser): seq<Unit>
    requires AnnexB(buffer, ix) && forall x :: x in ix ==> Readable(buffer, x)
  {
    seq(|ix|, i requires 0 <= i < |ix| => assert TileAt(buffer, ix, i); H265Unit(buffer, ix[i], parse))
  }

  // All bytes of the units, in order.
  function Joined(us: seq<Unit>): seq<Byte> {
    if us == [] then [] else Joined(us[..|us| - 1]) + us[|us| - 1].bytes
  }

  // `us` are units of `buffer`, whichever way they were classified.
  predicate Cuts(buffer: seq<Byte>, ix: seq<Index>, us: seq<Unit>) {
    |us| == |ix| && forall i :: 0 <= i < |ix| ==> CutAt(buffer, ix, us, i)
  }

  predicate CutAt(buffer: seq<Byte>, ix: seq<Index>, us: seq<Unit>, i: nat)
    requires i < |ix| == |us|
  {
    TileAt(buffer, ix, i) && us[i].bytes == NalBytes(buffer, ix[i])
  }

  // The first n units hold the buffer from the first start code to the end of the n-th, once and in order.
  lemma {:induction false} UnitsTile(buffer: seq<Byte>, ix: seq<Index>, us: seq<Unit>, n: nat)
    requires Cuts(buffer, ix, us) && 0 < n <= |ix|
    ensures ix[0].start <= ix[n - 1].End() <= |buffer|
    ensures Joined(us[..n]) == buffer[ix[0].start..ix[n - 1].End()]
    ensures n == |ix| ==> ix[n - 1].End() == |buffer|
  {
    assert CutAt(buffer, ix, us, n - 1);
    assert us[..n][..n - 1] == us[..n - 1];
    if n == 1 {
      assert us[..n - 1] == [];
    } else {
      UnitsTile(buffer, ix, us, n - 1);
      assert CutAt(buffer, ix, us, n - 2);
      Adjoin(buffer, ix[0].start, ix[n - 1].start, ix[n - 1].End());
    }
  }

  lemma Adjoin(buffer: seq<Byte>, a: nat, b: nat, c: nat)
    requires a <= b <= c <= |buffer|
    ensures buffer[a..b] + buffer[b..c] == buffer[a..c]
  {}

  lemma UnitsAreCuts(buffer: seq<Byte>, ix: seq<Index>, parse: SpsParser)
    requires AnnexB(buffer, ix)
    ensures Cuts(buffer, ix, H264Units(buffer, ix, parse))
    ensures (forall x :: x in ix ==> Readable(buffer, x)) ==> Cuts(buffer, ix, H265Units(buffer, ix, parse))
  {}

  // A unit holds at least its start code.
  lemma CutsAreNonEmpty(buffer: seq<Byte>, ix: seq<Index>, us: seq<Unit>)
    requires Cuts(buffer, ix, us)
    ensures forall u :: u in us ==> u.bytes != []
  {
    forall i | 0 <= i < |us| ensures us[i].bytes != [] {
      assert CutAt(buffer, ix, us, i);
    }
  }

  // The units of a buffer hold all of it from the first start code on.
  lemma UnitsTileTheBuffer(buffer: seq<Byte>, ix: seq<Index>, us: seq<Unit>)
    requires Cuts(buffer, ix, us) && ix != []
    ensures ix[0].start <= |buffer| && Joined(us) == buffer[ix[0].start..]
  {
    UnitsTile(buffer, ix, us, |ix|);
    assert us[..|ix|] == us;
  }

  // ---------------------------------------------------------------- assembly

  datatype Assembly = Assembly(cfg: seq<Byte>, idr: seq<Byte>, posted: seq<Frame>)

  function Announcement(u: Unit, codec: string): seq<Frame> {
    match u.announces
    case None => []
    case Some(d) => [FormatFrame(codec, d.width, d.height)]
  }

  // What a unit posts at once: its announcement, or itself when it is a slice that is not dropped.
  function Message(u: Unit, codec: string, ts: nat, drop: bool): seq<Frame> {
    if u.role.Slice? then (if drop then [] else [DataFrame(u.bytes, ts, Delta)])
    else if u.role.Reset? || u.role.Extend? then Announcement(u, codec)
    else []
  }

  function Absorb(a: Assembly, u: Unit, codec: string, ts: nat, drop: bool): Assembly {
    var posted := a.posted + Message(u, codec, ts, drop);
    match u.role
    case Reset => Assembly(u.bytes, a.idr, posted)
    case Extend => Assembly(a.cfg + u.bytes, a.idr, posted)
    case Idr => Assembly(a.cfg, (if a.idr == [] then a.cfg else a.idr) + u.bytes, posted)
    case Ignored => a
    case Slice => Assembly(a.cfg, a.idr, posted)
  }

  function AbsorbAll(a: Assembly, us: seq<Unit>, codec: string, ts: nat, drops: seq<bool>): Assembly
    requires |us| == |drops|
  {
    if us == [] then a else
      var n := |us| - 1;
      Absorb(AbsorbAll(a, us[..n], codec, ts, drops[..n]), us[n], codec, ts, drops[n])
  }

  // All IDR slices of a buffer leave as one key frame, after everything else.
  function KeyFrame(idr: seq<Byte>, ts: nat): seq<Frame> {
    if idr == [] then [] else [DataFrame(idr, ts, Key)]
  }

  // What one buffer posts when the cache holds `cfg`.
  function Posts(cfg: seq<Byte>, us: seq<Unit>, codec: string, ts: nat, drops: seq<bool>): seq<Frame>
    requires |us| == |drops|
  {
    var a := AbsorbAll(Assembly(cfg, [], []), us, codec, ts, drops);
    a.posted + KeyFrame(a.idr, ts)
  }

  // ---------------------------------------------------------------- what assembly computes

  function Messages(us: seq<Unit>, codec: string, ts: nat, drops: seq<bool>): seq<Frame>
    requires |us| == |drops|
  {
    if us == [] then [] else
      var n := |us| - 1;
      Messages(us[..n], codec, ts, drops[..n]) + Message(us[n], codec, ts, drops[n])
  }

  // The bytes of the units with a given role, in order.
  function Gather(us: seq<Unit>, role: Role): seq<Byte> {
    if us == [] then [] else
      var n := |us| - 1;
      Gather(us[..n], role) + if us[n].role == role then us[n].bytes else []
  }

  predicate Has(us: seq<Unit>, role: Role) {
    exists i :: 0 <= i < |us| && us[i].role == role
  }

  // The parameter-set cache on its own.
  function Cache(cfg: seq<Byte>, us: seq<Unit>): seq<Byte> {
    if us == [] then cfg else
      var n := |us| - 1;
      var before := Cache(cfg, us[..n]);
      if us[n].role.Reset? then us[n].bytes
      else if us[n].role.Extend? then before + us[n].bytes
      else before
  }

  lemma {:induction false} CacheOfConcat(cfg: seq<Byte>, us: seq<Unit>, vs: seq<Unit>)
    ensures Cache(cfg, us + vs) == Cache(Cache(cfg, us), vs)
  {
    if vs == [] {
      assert us + vs == us;
    } else {
      var n := |vs| - 1;
      assert (us + vs)[..|us + vs| - 1] == us + vs[..n];
      CacheOfConcat(cfg, us, vs[..n]);
    }
  }

  lemma {:induction false} CacheWithoutReset(cfg: seq<Byte>, us: seq<Unit>)
    requires !Has(us, Reset)
    ensures Cache(cfg, us) == cfg + Gather(us, Extend)
  {
    if us != [] {
      var n := |us| - 1;
      assert us[n].role != Reset;
      assert !Has(us[..n], Reset) by { assert forall i :: 0 <= i < n ==> us[..n][i] == us[i]; }
      CacheWithoutReset(cfg, us[..n]);
    }
  }

  // The cache is the unit that last reset it followed by everything that extended it since.
  lemma CacheFromLastReset(cfg: seq<Byte>, us: seq<Unit>, k: nat)
    requires k < |us| && us[k].role.Reset? && !Has(us[k + 1..], Reset)
    ensures Cache(cfg, us) == us[k].bytes + Gather(us[k + 1..], Extend)
  {
    assert us == us[..k + 1] + us[k + 1..];
    CacheOfConcat(cfg, us[..k + 1], us[k + 1..]);
    assert us[..k + 1][..k] == us[..k] && us[..k + 1][k] == us[k];
    CacheWithoutReset(us[k].bytes, us[k + 1..]);
  }

  function Flatten(chunks: seq<seq<Unit>>): seq<Unit> {
    if chunks == [] then [] else Flatten(chunks[..|chunks| - 1]) + chunks[|chunks| - 1]
  }

  // The cache after a series of buffers.
  function CacheOver(cfg: seq<Byte>, chunks: seq<seq<Unit>>): seq<Byte> {
    if chunks == [] then cfg else Cache(CacheOver(cfg, chunks[..|chunks| - 1]), chunks[|chunks| - 1])
  }

  // Where the stream is cut into buffers makes no difference to the cache.
  lemma {:induction false} CacheIgnoresChunking(cfg: seq<Byte>, chunks: seq<seq<Unit>>)
    ensures CacheOver(cfg, chunks) == Cache(cfg, Flatten(chunks))
  {
    if chunks != [] {
      var n := |chunks| - 1;
      CacheIgnoresChunking(cfg, chunks[..n]);
      CacheOfConcat(cfg, Flatten(chunks[..n]), chunks[n]);
    }
  }

  // The IDR accumulator: the cache as it stood at the first IDR slice, then every IDR slice.
  predicate IsFirst(us: seq<Unit>, role: Role, k: nat) {
    k < |us| && us[k].role == role && !Has(us[..k], role)
  }

  lemma {:induction false} AbsorbAllIs(a: Assembly, us: seq<Unit>, codec: string, ts: nat, drops: seq<bool>)
    requires |us| == |drops|
    ensures var b := AbsorbAll(a, us, codec, ts, drops);
            b.cfg == Cache(a.cfg, us) && b.posted == a.posted + Messages(us, codec, ts, drops)
  {
    if us != [] {
      var n := |us| - 1;
      AbsorbAllIs(a, us[..n], codec, ts, drops[..n]);
    }
  }

  function IdrOf(cfg: seq<Byte>, us: seq<Unit>): seq<Byte> {
    if us == [] then [] else
      var n := |us| - 1;
      var before := IdrOf(cfg, us[..n]);
      if us[n].role.Idr? then (if before == [] then Cache(cfg, us[..n]) else before) + us[n].bytes
      else before
  }

  lemma {:induction false} AbsorbedIdr(cfg: seq<Byte>, us: seq<Unit>, codec: string, ts: nat, drops: seq<bool>)
    requires |us| == |drops|
    ensures AbsorbAll(Assembly(cfg, [], []), us, codec, ts, drops).idr == IdrOf(cfg, us)
  {
    if us != [] {
      var n := |us| - 1;
      AbsorbedIdr(cfg, us[..n], codec, ts, drops[..n]);
      AbsorbAllIs(Assembly(cfg, [], []), us[..n], codec, ts, drops[..n]);
    }
  }

  lemma {:induction false} NoIdr(cfg: seq<Byte>, us: seq<Unit>)
    requires !Has(us, Idr)
    ensures IdrOf(cfg, us) == []
  {
    if us != [] {
      var n := |us| - 1;
      assert us[n].role != Idr;
      assert !Has(us[..n], Idr) by { assert forall i :: 0 <= i < n ==> us[..n][i] == us[i]; }
      NoIdr(cfg, us[..n]);
    }
  }

  lemma {:induction false} IdrFromFirst(cfg: seq<Byte>, us: seq<Unit>, k: nat)
    requires IsFirst(us, Idr, k) && forall i :: 0 <= i < |us| ==> us[i].bytes != []
    ensures IdrOf(cfg, us) == Cache(cfg, us[..k]) + Gather(us, Idr) && IdrOf(cfg, us) != []
  {
    var n := |us| - 1;
    if k < n {
      assert us[..n][..k] == us[..k];
      IdrFromFirst(cfg, us[..n], k);
    } else {
      assert us[..n] == us[..k];
      NothingGathered(us[..n], Idr);
      NoIdr(cfg, us[..n]);
    }
  }

  lemma {:induction false} NothingGathered(us: seq<Unit>, role: Role)
    requires !Has(us, role)
    ensures Gather(us, role) == []
  {
    if us != [] {
      var n := |us| - 1;
      assert us[n].role != role;
      assert !Has(us[..n], role) by { assert forall i :: 0 <= i < n ==> us[..n][i] == us[i]; }
      NothingGathered(us[..n], role);
    }
  }

  lemma {:induction false} First(us: seq<Unit>, role: Role) returns (k: nat)
    requires Has(us, role)
    ensures IsFirst(us, role, k)
  {
    var n := |us| - 1;
    assert forall i :: 0 <= i < n ==> us[..n][i] == us[i];
    if Has(us[..n], role) {
      k := First(us[..n], role);
      assert us[..n][..k] == us[..k];
    } else {
      k := n;
    }
  }

  // One buffer posts the messages of its units in order and then, if it holds an IDR slice, one key
  // frame: the cache as it stood at the first IDR slice followed by all IDR slices.
  lemma PostsOfABuffer(cfg: seq<Byte>, us: seq<Unit>, codec: string, ts: nat, drops: seq<bool>)
    requires |us| == |drops| && forall u :: u in us ==> u.bytes != []
    ensures !Has(us, Idr) ==> Posts(cfg, us, codec, ts, drops) == Messages(us, codec, ts, drops)
    ensures forall k: nat :: IsFirst(us, Idr, k) ==>
              Posts(cfg, us, codec, ts, drops) ==
              Messages(us, codec, ts, drops) + [DataFrame(Cache(cfg, us[..k]) + Gather(us, Idr), ts, Key)]
  {
    AbsorbedIdr(cfg, us, codec, ts, drops);
    AbsorbAllIs(Assembly(cfg, [], []), us, codec, ts, drops);
    if !Has(us, Idr) { NoIdr(cfg, us); }
    forall k: nat | IsFirst(us, Idr, k) ensures IdrOf(cfg, us) == Cache(cfg, us[..k]) + Gather(us, Idr) && IdrOf(cfg, us) != [] {
      IdrFromFirst(cfg, us, k);
    }
  }

  // ---------------------------------------------------------------- nothing lost, nothing twice

  function Deltas(fs: seq<Frame>): seq<seq<Byte>> {
    if fs == [] then [] else
      var n := |fs| - 1;
      Deltas(fs[..n]) + if fs[n].DataFrame? && fs[n].kind.Delta? then [fs[n].content] else []
  }

  function SlicesOf(us: seq<Unit>): seq<seq<Byte>> {
    if us == [] then [] else
      var n := |us| - 1;
      SlicesOf(us[..n]) + if us[n].role.Slice? then [us[n].bytes] else []
  }

  lemma {:induction false} DeltasOfConcat(fs: seq<Frame>, gs: seq<Frame>)
    ensures Deltas(fs + gs) == Deltas(fs) + Deltas(gs)
  {
    if gs == [] {
      assert fs + gs == fs;
    } else {
      var n := |gs| - 1;
      assert (fs + gs)[..|fs + gs| - 1] == fs + gs[..n];
      DeltasOfConcat(fs, gs[..n]);
    }
  }

  predicate IsKey(f: Frame) { f.DataFrame? && f.kind.Key? }

  lemma DeltasOfMessage(u: Unit, codec: string, ts: nat)
    ensures Deltas(Message(u, codec, ts, false)) == if u.role.Slice? then [u.bytes] else []
    ensures forall f :: f in Message(u, codec, ts, false) ==> !IsKey(f)
  {
    var m := Message(u, codec, ts, false);
    if |m| == 1 {
      assert m[..0] == [] && Deltas([]) == [];
    }
  }

  lemma {:induction false} DeltasOfMessages(us: seq<Unit>, codec: string, ts: nat, drops: seq<bool>)
    requires |us| == |drops| && forall d :: d in drops ==> !d
    ensures Deltas(Messages(us, codec, ts, drops)) == SlicesOf(us)
    ensures forall f :: f in Messages(us, codec, ts, drops) ==> !IsKey(f)
  {
    if us != [] {
      var n := |us| - 1;
      assert forall d :: d in drops[..n] ==> d in drops;
      DeltasOfMessages(us[..n], codec, ts, drops[..n]);
      assert drops[n] in drops;
      DeltasOfMessage(us[n], codec, ts);
      DeltasOfConcat(Messages(us[..n], codec, ts, drops[..n]), Message(us[n], codec, ts, drops[n]));
    }
  }

  // What each kind of unit posts at once, with the time of the buffer.
  lemma MessageTable(u: Unit, codec: string, ts: nat, drop: bool)
    requires u.announces.Some? ==> u.role.Reset? || u.role.Extend?
    ensures Message(u, codec, ts, drop) ==
            if u.announces.Some? then [FormatFrame(codec, u.announces.value.width, u.announces.value.height)]
            else if u.role == Slice && !drop then [DataFrame(u.bytes, ts, Delta)]
            else []
  {}

  // Units post in their own order: formats and delta frames alike.
  lemma {:induction false} MessagesOfConcat(us: seq<Unit>, vs: seq<Unit>, codec: string, ts: nat, ds: seq<bool>, es: seq<bool>)
    requires |us| == |ds| && |vs| == |es|
    ensures Messages(us + vs, codec, ts, ds + es) == Messages(us, codec, ts, ds) + Messages(vs, codec, ts, es)
  {
    if vs == [] {
      assert us + vs == us && ds + es == ds;
    } else {
      var n := |vs| - 1;
      assert (us + vs)[..|us + vs| - 1] == us + vs[..n] && (ds + es)[..|us + vs| - 1] == ds + es[..n];
      MessagesOfConcat(us, vs[..n], codec, ts, ds, es[..n]);
      Reassociate(Messages(us, codec, ts, ds), Messages(vs[..n], codec, ts, es[..n]), Message(vs[n], codec, ts, es[n]));
    }
  }

  // Without drops, the delta frames are the plain slices in order, and there is a key frame, the
  // last of the frames and the only one, exactly when there is an IDR slice.
  lemma NothingLostNothingTwice(cfg: seq<Byte>, us: seq<Unit>, codec: string, ts: nat, drops: seq<bool>)
    requires |us| == |drops| && (forall u :: u in us ==> u.bytes != []) && forall d :: d in drops ==> !d
    ensures var out := Posts(cfg, us, codec, ts, drops);
            && Deltas(out) == SlicesOf(us)
            && (Has(us, Idr) <==> out != [] && IsKey(out[|out| - 1]))
            && (forall i :: 0 <= i < |out| - 1 ==> !IsKey(out[i]))
  {
    var ms := Messages(us, codec, ts, drops);
    PostsOfABuffer(cfg, us, codec, ts, drops);
    DeltasOfMessages(us, codec, ts, drops);
    if Has(us, Idr) {
      var k := First(us, Idr);
      KeyComesLast(ms, DataFrame(Cache(cfg, us[..k]) + Gather(us, Idr), ts, Key));
    } else {
      assert ms != [] ==> ms[|ms| - 1] in ms;
    }
  }

  lemma KeyComesLast(ms: seq<Frame>, key: Frame)
    requires (forall f :: f in ms ==> !IsKey(f)) && IsKey(key)
    ensures var out := ms + [key];
            Deltas(out) == Deltas(ms) && IsKey(out[|out| - 1]) && forall i :: 0 <= i < |out| - 1 ==> !IsKey(out[i])
  {
    assert (ms + [key])[..|ms|] == ms;
    assert forall i :: 0 <= i < |ms| ==> (ms + [key])[i] in ms;
  }
}
