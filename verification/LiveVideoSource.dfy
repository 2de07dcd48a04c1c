/**
 `LiveVideoSource`: the capture thread's side. The loops over the NAL indices
 are those of the source; what they leave in the cache and in the queue is
 proved equal to the assembly of `AccessUnits`.
 */
module LiveVideoSource {
  import opened Collections
  import opened AccessUnits

  const TWO_64: nat := 0x1_0000_0000_0000_0000

  // int64_t to uint64_t
  function Unsigned64(ts: int): nat { ts % TWO_64 }

  // The test for a frame in the past: the comparison is unsigned, and zero means "no frame yet".
  predicate Dropped(prevTimestamp: nat, ts: int, ffmpeg: bool) {
    prevTimestamp != 0 && Unsigned64(ts) < prevTimestamp && ffmpeg
  }

  function Drops(prevTimestamp: nat, ts: int, ffmpeg: seq<bool>): seq<bool> {
    seq(|ffmpeg|, i requires 0 <= i < |ffmpeg| => Dropped(prevTimestamp, ts, ffmpeg[i]))
  }

  // The exact condition, for a 64-bit timestamp: only with FFmpeg, only after a buffer whose timestamp
  // was not zero, and only if the timestamp, negative ones wrapped around, is before that one.
  lemma DroppedExactlyWhen(prevTimestamp: nat, ts: int, ffmpeg: bool)
    requires -0x8000_0000_0000_0000 <= ts < 0x8000_0000_0000_0000
    ensures Dropped(prevTimestamp, ts, ffmpeg) <==>
            ffmpeg && prevTimestamp > 0 && (if ts >= 0 then ts else ts + 0x1_0000_0000_0000_0000) < prevTimestamp
  {}

  // A buffer that is not before the previous one loses nothing; one that is loses its slices with FFmpeg.
  lemma DropsFollowTheClock(before: int, ts: int, ffmpeg: seq<bool>, i: nat)
    requires 0 <= before < 0x8000_0000_0000_0000 && 0 <= ts < 0x8000_0000_0000_0000 && i < |ffmpeg|
    ensures Drops(Unsigned64(before), ts, ffmpeg)[i] <==> ffmpeg[i] && ts < before
  {}

  // What the first i units of a buffer have come to.
  ghost predicate SoFar(cfg: seq<Byte>, us: seq<Unit>, codec: string, ts: nat, drops: seq<bool>, i: nat, a: Assembly) {
    |us| == |drops| && i <= |us| && a == AbsorbAll(Assembly(cfg, [], []), us[..i], codec, ts, drops[..i])
  }

  lemma SoFarNext(cfg: seq<Byte>, us: seq<Unit>, codec: string, ts: nat, drops: seq<bool>, i: nat, a: Assembly, posted: seq<Frame>)
    requires SoFar(cfg, us, codec, ts, drops, i, a.(posted := posted)) && i < |us| && a.posted == []
    ensures var b := Absorb(a, us[i], codec, ts, drops[i]);
            SoFar(cfg, us, codec, ts, drops, i + 1, b.(posted := posted + b.posted))
  {
    assert us[..i + 1][..i] == us[..i] && drops[..i + 1][..i] == drops[..i];
    AbsorbFrom(a.(posted := posted), us[i], codec, ts, drops[i]);
  }

  lemma SoFarAll(cfg: seq<Byte>, us: seq<Unit>, codec: string, ts: nat, drops: seq<bool>, a: Assembly)
    requires SoFar(cfg, us, codec, ts, drops, |us|, a)
    ensures a.cfg == Cache(cfg, us) && Posts(cfg, us, codec, ts, drops) == a.posted + KeyFrame(a.idr, ts)
  {
    assert us[..|us|] == us && drops[..|us|] == drops;
    AbsorbAllIs(Assembly(cfg, [], []), us, codec, ts, drops);
  }

  lemma AbsorbFrom(a: Assembly, u: Unit, codec: string, ts: nat, drop: bool)
    ensures var b, c := Absorb(a, u, codec, ts, drop), Absorb(a.(posted := []), u, codec, ts, drop);
            b.cfg == c.cfg && b.idr == c.idr && b.posted == a.posted + c.posted
  {}

  class LiveVideoSource {
    var cfg: seq<Byte>
    var prevTimestamp: nat
    var codecs: map<string, string>
    var queue: seq<Frame>

    // The original leaves the previous timestamp uninitialised.
    constructor (prevTimestamp: nat)
      ensures cfg == [] && queue == [] && codecs == map[] && this.prevTimestamp == prevTimestamp
    {
      cfg, queue, codecs := [], [], map[];
      this.prevTimestamp := prevTimestamp;
    }

    method PostFormat(format: string, width: int, height: int)
      modifies this`queue
      ensures queue == old(queue) + [FormatFrame(format, width, height)]
    {
      queue := queue + [FormatFrame(format, width, height)];
    }

    method PostFrame(content: seq<Byte>, ts: nat, kind: FrameType)
      modifies this`queue
      ensures queue == old(queue) + [DataFrame(content, ts, kind)]
    {
      queue := queue + [DataFrame(content, ts, kind)];
    }

    // One turn of the loop: takes the unit at `x`, returns the IDR slices gathered so far.
    method TakeH264Unit(buffer: seq<Byte>, x: Index, ts: int, codec: string, parse: SpsParser, ffmpeg: bool, gathered: seq<Byte>)
      returns (idrContent: seq<Byte>)
      requires Within(buffer, x)
      modifies this`cfg, this`queue
      ensures var a := Absorb(Assembly(old(cfg), gathered, []), H264Unit(buffer, x, parse), codec, Unsigned64(ts),
                              Dropped(prevTimestamp, ts, ffmpeg));
              cfg == a.cfg && idrContent == a.idr && queue == old(queue) + a.posted
    {
      idrContent := gathered;
      if x.size == 0 {
        return;
      }
      var nalType := buffer[x.payload] % 32;
      var bytes := buffer[x.start..x.End()];
      if nalType == H264_SPS {
        cfg := bytes;
        match parse(buffer[x.payload + 1..x.End()])
        case None => PostFormat(codec, 0, 0);
        case Some(sps) => PostFormat(codec, sps.width, sps.height);
      } else if nalType == H264_PPS {
        cfg := cfg + bytes;
      } else if nalType == H264_SEI {
      } else if nalType == H264_IDR {
        if idrContent == [] {
          idrContent := cfg;
        }
        idrContent := idrContent + bytes;
      } else if !(prevTimestamp != 0 && Unsigned64(ts) < prevTimestamp && ffmpeg) {
        PostFrame(bytes, Unsigned64(ts), Delta);
      }
    }

    // `ffmpeg[i]` tells whether, at the i-th unit, the decoder thread holds an FFmpeg decoder.
    method OnH264Data(buffer: seq<Byte>, ix: seq<Index>, ts: int, codec: string, parse: SpsParser, ffmpeg: seq<bool>)
      requires AnnexB(buffer, ix) && |ffmpeg| == |ix|
      modifies this`cfg, this`queue
      ensures cfg == Cache(old(cfg), H264Units(buffer, ix, parse))
      ensures queue == old(queue) +
        Posts(old(cfg), H264Units(buffer, ix, parse), codec, Unsigned64(ts), Drops(prevTimestamp, ts, ffmpeg))
    {
      ghost var us := H264Units(buffer, ix, parse);
      ghost var ds := Drops(prevTimestamp, ts, ffmpeg);
      ghost var cfg0, posted := cfg, [];
      var idrContent: seq<Byte> := [];
      for i := 0 to |ix|
        invariant SoFar(cfg0, us, codec, Unsigned64(ts), ds, i, Assembly(cfg, idrContent, posted))
        invariant queue == old(queue) + posted
      {
        assert TileAt(buffer, ix, i) && ix[i] in ix;
        ghost var a := Assembly(cfg, idrContent, []);
        SoFarNext(cfg0, us, codec, Unsigned64(ts), ds, i, a, posted);
        idrContent := TakeH264Unit(buffer, ix[i], ts, codec, parse, ffmpeg[i], idrContent);
        ghost var message := Absorb(a, us[i], codec, Unsigned64(ts), ds[i]).posted;
        Reassociate(old(queue), posted, message);
        posted := posted + message;
      }
      SoFarAll(cfg0, us, codec, Unsigned64(ts), ds, Assembly(cfg, idrContent, posted));
      if idrContent != [] {
        PostFrame(idrContent, Unsigned64(ts), Key);
      }
    }

    // One turn of the loop: takes the unit at `x`, returns the IDR slices gathered so far.
    method TakeH265Unit(buffer: seq<Byte>, x: Index, ts: int, codec: string, parse: SpsParser, ffmpeg: bool, gathered: seq<Byte>)
      returns (idrContent: seq<Byte>)
      requires Within(buffer, x) && Readable(buffer, x)
      modifies this`cfg, this`queue
      ensures var a := Absorb(Assembly(old(cfg), gathered, []), H265Unit(buffer, x, parse), codec, Unsigned64(ts),
                              Dropped(prevTimestamp, ts, ffmpeg));
              cfg == a.cfg && idrContent == a.idr && queue == old(queue) + a.posted
    {
      idrContent := gathered;
      var nalType := buffer[x.payload] / 2 % 64;
      var bytes := buffer[x.start..x.End()];
      if nalType == H265_VPS {
        cfg := bytes;
      } else if nalType == H265_SPS {
        cfg := cfg + bytes;
        match parse(buffer[x.payload + 2..x.End()])
        case None => PostFormat(codec, 0, 0);
        case Some(sps) => PostFormat(codec, sps.width, sps.height);
      } else if nalType == H265_PPS {
        cfg := cfg + bytes;
      } else if nalType == H265_IDR_W_RADL || nalType == H265_IDR_N_LP {
        if idrContent == [] {
          idrContent := cfg;
        }
        idrContent := idrContent + bytes;
      } else if !(prevTimestamp != 0 && Unsigned64(ts) < prevTimestamp && ffmpeg) {
        PostFrame(bytes, Unsigned64(ts), Delta);
      }
    }

    method OnH265Data(buffer: seq<Byte>, ix: seq<Index>, ts: int, codec: string, parse: SpsParser, ffmpeg: seq<bool>)
      requires AnnexB(buffer, ix) && |ffmpeg| == |ix|
      requires forall x :: x in ix ==> Readable(buffer, x)
      modifies this`cfg, this`queue
      ensures cfg == Cache(old(cfg), H265Units(buffer, ix, parse))
      ensures queue == old(queue) +
        Posts(old(cfg), H265Units(buffer, ix, parse), codec, Unsigned64(ts), Drops(prevTimestamp, ts, ffmpeg))
    {
      ghost var us := H265Units(buffer, ix, parse);
      ghost var ds := Drops(prevTimestamp, ts, ffmpeg);
      ghost var cfg0, posted := cfg, [];
      var idrContent: seq<Byte> := [];
      for i := 0 to |ix|
        invariant SoFar(cfg0, us, codec, Unsigned64(ts), ds, i, Assembly(cfg, idrContent, posted))
        invariant queue == old(queue) + posted
      {
        assert TileAt(buffer, ix, i) && ix[i] in ix;
        ghost var a := Assembly(cfg, idrContent, []);
        SoFarNext(cfg0, us, codec, Unsigned64(ts), ds, i, a, posted);
        idrContent := TakeH265Unit(buffer, ix[i], ts, codec, parse, ffmpeg[i], idrContent);
        ghost var message := Absorb(a, us[i], codec, Unsigned64(ts), ds[i]).posted;
        Reassociate(old(queue), posted, message);
        posted := posted + message;
      }
      SoFarAll(cfg0, us, codec, Unsigned64(ts), ds, Assembly(cfg, idrContent, posted));
      if idrContent != [] {
        PostFrame(idrContent, Unsigned64(ts), Key);
      }
    }

    // `ix` is what FindNaluIndices makes of the buffer, `jpeg` whether its conversion worked. Looking
    // up an unknown session enters it with an empty codec name.
    method OnData(id: string, buffer: seq<Byte>, ix: seq<Index>, ts: int, parse: SpsParser, ffmpeg: seq<bool>, jpeg: bool)
      returns (ok: bool)
      requires AnnexB(buffer, ix) && |ffmpeg| == |ix|
      requires id in codecs && codecs[id] == "H265" ==> forall x :: x in ix ==> Readable(buffer, x)
      modifies this
      ensures prevTimestamp == Unsigned64(ts)
      ensures codecs == if id in old(codecs) then old(codecs) else old(codecs)[id := ""]
      ensures ok <==> codecs[id] == "JPEG" ==> jpeg
      ensures codecs[id] == "H264" ==>
                && cfg == Cache(old(cfg), H264Units(buffer, ix, parse))
                && queue == old(queue) + Posts(old(cfg), H264Units(buffer, ix, parse), "H264", Unsigned64(ts),
                                               Drops(old(prevTimestamp), ts, ffmpeg))
      ensures codecs[id] == "H265" ==>
                && cfg == Cache(old(cfg), H265Units(buffer, ix, parse))
                && queue == old(queue) + Posts(old(cfg), H265Units(buffer, ix, parse), "H265", Unsigned64(ts),
                                               Drops(old(prevTimestamp), ts, ffmpeg))
      ensures codecs[id] == "VP9" ==>
                cfg == old(cfg) && queue == old(queue) + [FormatFrame("VP9", 0, 0), DataFrame(buffer, Unsigned64(ts), Key)]
      ensures codecs[id] !in {"H264", "H265", "VP9"} ==> cfg == old(cfg) && queue == old(queue)
    {
      ok := true;
      if id !in codecs {
        codecs := codecs[id := ""];
      }
      var codec := codecs[id];
      if codec == "H264" {
        OnH264Data(buffer, ix, ts, codec, parse, ffmpeg);
      } else if codec == "H265" {
        OnH265Data(buffer, ix, ts, codec, parse, ffmpeg);
      } else if codec == "JPEG" {
        ok := jpeg;
      } else if codec == "VP9" {
        PostFormat(codec, 0, 0);
        PostFrame(buffer, Unsigned64(ts), Key);
      }
      prevTimestamp := Unsigned64(ts);
    }
  }
}
