/**
 The null codec: a decoder that wraps encoded data into a frame without
 decoding it, and an encoder that unwraps it again. Between the two lie the
 decoder thread's callback and the scaler.
 */
module NullCodec {
  import opened Common
  import opened AccessUnits
  import opened VideoDecoder
  import opened VideoScaler
  import DecoderQueue

  const TWO_32: nat := 0x1_0000_0000

  datatype EncodedImage = EncodedImage(bytes: seq<Byte>, kind: FrameType, rtp: nat, ntp: int)

  // A picture, or the native wrapper around encoded data (EncodedVideoFrameBuffer).
  datatype Buffer =
    | Picture(width: int, height: int)
    | Wrapped(width: int, height: int, bytes: seq<Byte>, kind: FrameType, format: string)

  datatype VideoFrame = VideoFrame(buffer: Buffer, rtp: nat, timestampUs: int, ntp: int)

  datatype Status = Ok | Uninitialized | ErrParameter

  datatype PacketizationMode = SingleNalUnit | NonInterleaved

  // Codec-specific info forwarded with an image; other formats leave it unset.
  datatype CodecInfo = H264Info(mode: PacketizationMode) | H265Info | OtherInfo

  datatype Sent = Sent(image: EncodedImage, info: CodecInfo)

  // int64_t to int
  function Narrow(x: int): int {
    (x + 0x8000_0000) % TWO_32 - 0x8000_0000
  }

  // What DecoderThread hands to Decode; the RTP timestamp keeps 32 bits of the time in ms.
  function ImageOf(f: Frame): EncodedImage
    requires f.DataFrame?
  {
    EncodedImage(f.content, f.kind, f.ts % TWO_32, f.ts)
  }

  // NullDecoder::Decode
  function NullDecode(registered: bool, format: Format, image: EncodedImage, renderMs: int): (Status, Option<VideoFrame>) {
    if !registered then (Uninitialized, None) else
      (Ok, Some(VideoFrame(Wrapped(format.width, format.height, image.bytes, image.kind, format.name),
                           image.rtp, renderMs * 1000, image.ntp)))
  }

  // VideoDecoder::Decoded fills in a missing timestamp before the scaler sees the frame.
  function Stamped(v: VideoFrame): VideoFrame {
    if v.timestampUs == 0 then v.(timestampUs := v.rtp * 1000) else v
  }

  // EncodedVideoFrameBuffer::getEncodedImage
  function Unwrap(b: Buffer, rtp: nat, ntp: int): EncodedImage
    requires b.Wrapped?
  {
    EncodedImage(b.bytes, b.kind, rtp, ntp)
  }

  // NullEncoder::Encode
  function NullEncode(registered: bool, name: string, parameters: map<string, string>, v: VideoFrame): (Status, Option<Sent>) {
    if !registered then (Uninitialized, None)
    else if !v.buffer.Wrapped? then (ErrParameter, None)
    else if v.buffer.format != name then (ErrParameter, None)
    else
      var info :=
        if name == "H264" then
          H264Info(if "packetization-mode" in parameters && parameters["packetization-mode"] == "1"
                   then NonInterleaved else SingleNalUnit)
        else if name == "H265" then H265Info
        else OtherInfo;
      (Ok, Some(Sent(Unwrap(v.buffer, v.rtp, Narrow(v.ntp)), info)))
  }

  // What leaves the scaler: the frame itself, or a picture made from it.
  function Leaving(v: VideoFrame, route: Route): VideoFrame {
    match route
    case PassOn => v
    case CropAndScale(_, width, height) => v.(buffer := Picture(width, height))
    case Scale(width, height) => v.(buffer := Picture(width, height))
  }

  // The two ends: what is registered, and the format the encoder was made for.
  datatype Ends = Ends(decoderRegistered: bool, encoderRegistered: bool, name: string, parameters: map<string, string>)

  // One frame from a null decoder through the scaler to the null encoder.
  function ForwardStep(c: Settings, r: Roi, format: Format, f: Frame, ends: Ends): (Roi, Option<Sent>)
    requires Placed(r) && f.DataFrame?
  {
    var frame := NullDecode(ends.decoderRegistered, format, ImageOf(f), f.ts).1;
    if frame.None? then (r, None) else
      var v := Stamped(frame.value);
      var (now, route) := ScaleStep(c, r, v.buffer.width, v.buffer.height, v.buffer.Wrapped?);
      (now, NullEncode(ends.encoderRegistered, ends.name, ends.parameters, Leaving(v, route)).1)
  }

  // What one frame comes to: it is sent exactly when both ends are registered and the names agree, as
  // it was, and the region follows its size.
  lemma ForwardIsTransparent(c: Settings, r: Roi, format: Format, f: Frame, ends: Ends)
    requires Placed(r) && f.DataFrame?
    ensures var (now, sent) := ForwardStep(c, r, format, f, ends);
            && Placed(now)
            && now == (if ends.decoderRegistered then Clamp(r, format.width, format.height) else r)
            && (sent.Some? <==> ends.decoderRegistered && ends.encoderRegistered && format.name == ends.name)
            && (sent.Some? ==> sent.value.image == EncodedImage(f.content, f.kind, f.ts % 0x1_0000_0000, Narrow(f.ts)))
  {
    ClampedIsScalable(r, format.width, format.height);
  }

  // The same in place.
  method Forward(scaler: VideoScaler, format: Format, f: Frame, ends: Ends) returns (decoded: Status, sent: Option<Sent>)
    requires f.DataFrame? && Placed(scaler.roi)
    modifies scaler`roi
    ensures (scaler.roi, sent) == ForwardStep(scaler.Config(), old(scaler.roi), format, f, ends) && Placed(scaler.roi)
    ensures decoded == Ok <==> ends.decoderRegistered
    ensures sent.Some? <==> ends.decoderRegistered && ends.encoderRegistered && format.name == ends.name
    ensures sent.Some? ==> sent.value.image == EncodedImage(f.content, f.kind, f.ts % 0x1_0000_0000, Narrow(f.ts))
    // fragmentation is allowed only where packetization mode 1 was negotiated
    ensures sent.Some? && ends.name == "H264" ==>
              (sent.value.info == H264Info(NonInterleaved) <==> ("packetization-mode", "1") in ends.parameters.Items)
  {
    ForwardIsTransparent(scaler.Config(), scaler.roi, format, f, ends);
    sent := None;
    var (status, frame) := NullDecode(ends.decoderRegistered, format, ImageOf(f), f.ts);
    decoded := status;
    if frame.Some? {
      var v := Stamped(frame.value);
      var route := scaler.OnFrame(v.buffer.width, v.buffer.height, v.buffer.Wrapped?);
      var (_, s) := NullEncode(ends.encoderRegistered, ends.name, ends.parameters, Leaving(v, route));
      sent := s;
    }
  }

  // The time of an encoded image is the frame's, as far as an int can hold it.
  lemma NarrowIsCongruent(x: int)
    ensures -0x8000_0000 <= Narrow(x) < 0x8000_0000 && (Narrow(x) - x) % 0x1_0000_0000 == 0
    ensures -0x8000_0000 <= x < 0x8000_0000 ==> Narrow(x) == x
  {}

  // What the encoder answers, and what it says about the image.
  lemma EncodeAnswers(registered: bool, name: string, parameters: map<string, string>, v: VideoFrame)
    ensures var (status, sent) := NullEncode(registered, name, parameters, v);
            && (status == Uninitialized <==> !registered)
            && (status == ErrParameter <==> registered && (v.buffer.Picture? || v.buffer.format != name))
            && (status == Ok <==> sent.Some?)
            && (sent.Some? && name == "H265" ==> sent.value.info == H265Info)
            && (sent.Some? && name != "H264" && name != "H265" ==> sent.value.info == OtherInfo)
  {}

  // A missing timestamp is filled in from the RTP time, any other is kept; a null decoder's frame, which
  // carries its time in both, leaves as it came.
  lemma StampOnlyFillsIn(v: VideoFrame, registered: bool, format: Format, f: Frame)
    requires f.DataFrame?
    ensures v.timestampUs != 0 ==> Stamped(v) == v
    ensures Stamped(v).timestampUs == 0 <==> v.timestampUs == 0 && v.rtp == 0
    ensures var frame := NullDecode(registered, format, ImageOf(f), f.ts).1;
            frame.Some? ==> Stamped(frame.value) == frame.value && frame.value.timestampUs == f.ts * 1000
  {}

  // ---------------------------------------------------------------- a whole run

  // The calls of Decode in `log` are of frames in `fs`.
  predicate LogOf(fs: seq<Frame>, log: seq<Decode>) {
    forall i :: 0 <= i < |log| ==> log[i].frame < |fs| && fs[log[i].frame].DataFrame?
  }

  // The region of the scaler, and what the encoder has sent, after the calls of Decode in `log`.
  datatype Line = Line(roi: Roi, sent: seq<Sent>)

  function Along(c: Settings, r: Roi, fs: seq<Frame>, log: seq<Decode>, ends: Ends): (l: Line)
    requires Placed(r) && LogOf(fs, log)
    ensures Placed(l.roi)
  {
    if log == [] then Line(r, []) else
      var n := |log| - 1;
      var before := Along(c, r, fs, log[..n], ends);
      ForwardIsTransparent(c, before.roi, log[n].madeFor, fs[log[n].frame], ends);
      var (now, sent) := ForwardStep(c, before.roi, log[n].madeFor, fs[log[n].frame], ends);
      Line(now, before.sent + if sent.Some? then [sent.value] else [])
  }

  // `sent` are the decoded frames, one for one, with identical bytes and types.
  predicate SentAsDecoded(fs: seq<Frame>, log: seq<Decode>, sent: seq<Sent>)
    requires LogOf(fs, log)
  {
    |sent| == |log| && forall i :: 0 <= i < |log| ==> Carries(sent[i], fs[log[i].frame])
  }

  predicate Carries(x: Sent, f: Frame) { f.DataFrame? && x.image.bytes == f.content && x.image.kind == f.kind }

  lemma SentAppend(fs: seq<Frame>, log: seq<Decode>, sent: seq<Sent>, x: Sent)
    requires LogOf(fs, log) && log != []
    requires SentAsDecoded(fs, log[..|log| - 1], sent) && Carries(x, fs[log[|log| - 1].frame])
    ensures SentAsDecoded(fs, log, sent + [x])
  {
    var n := |log| - 1;
    forall i | 0 <= i < |log| ensures Carries((sent + [x])[i], fs[log[i].frame]) {
      if i < n { assert log[..n][i] == log[i] && Carries(sent[i], fs[log[..n][i].frame]); }
    }
  }

  // Whatever the scaler is configured to and whatever the decoders' dimensions do to its region, the
  // frames decoded for the encoder's format leave the encoder one for one.
  lemma {:induction false} SentInOrder(c: Settings, r: Roi, fs: seq<Frame>, log: seq<Decode>, ends: Ends)
    requires Placed(r) && LogOf(fs, log) && ends.decoderRegistered && ends.encoderRegistered
    requires forall i :: 0 <= i < |log| ==> log[i].madeFor.name == ends.name
    ensures SentAsDecoded(fs, log, Along(c, r, fs, log, ends).sent)
  {
    if log != [] {
      var n := |log| - 1;
      SentInOrder(c, r, fs, log[..n], ends);
      LastIsSent(c, r, fs, log, ends);
    }
  }

  lemma LastIsSent(c: Settings, r: Roi, fs: seq<Frame>, log: seq<Decode>, ends: Ends)
    requires Placed(r) && LogOf(fs, log) && ends.decoderRegistered && ends.encoderRegistered
    requires log != [] && log[|log| - 1].madeFor.name == ends.name
    requires SentAsDecoded(fs, log[..|log| - 1], Along(c, r, fs, log[..|log| - 1], ends).sent)
    ensures SentAsDecoded(fs, log, Along(c, r, fs, log, ends).sent)
  {
    var n := |log| - 1;
    var before, d := Along(c, r, fs, log[..n], ends), log[n];
    ForwardIsTransparent(c, before.roi, d.madeFor, fs[d.frame], ends);
    SentAppend(fs, log, before.sent, ForwardStep(c, before.roi, d.madeFor, fs[d.frame], ends).1.value);
  }

  // However the threads interleave: if every format posted so far names the encoder's codec, the frames
  // given to a live null decoder pass the scaler untouched and leave the encoder with identical bytes
  // and types, in posting order.
  lemma TransparentThroughout(ss: seq<DecoderQueue.System>, steps: seq<DecoderQueue.Step>, i: nat,
                              c: Settings, r: Roi, ends: Ends)
    requires DecoderQueue.IsRun(ss, steps) && i < |ss| && Placed(r)
    requires ends.decoderRegistered && ends.encoderRegistered
    requires forall f :: f in ss[i].posted && IsFormat(f) ==> f.format == ends.name
    ensures var s := ss[i];
            && LogOf(s.posted, s.log)
            && (forall k, l :: 0 <= k < l < |s.log| ==> s.log[k].frame < s.log[l].frame)
            && SentAsDecoded(s.posted, s.log, Along(c, r, s.posted, s.log, ends).sent)
  {
    var s := ss[i];
    DecoderQueue.DecodedAsPosted(ss, steps, i);
    forall k | 0 <= k < |s.log|
      ensures s.log[k].frame < |s.posted| && s.posted[s.log[k].frame].DataFrame? && s.log[k].madeFor.name == ends.name
    {
      assert Faithful(s.posted, s.log[k]);
      LastFormatIsPosted(s.posted[..s.log[k].frame]);
    }
    SentInOrder(c, r, s.posted, s.log, ends);
  }

  // A null decoder can always be made and never fails once its callback is registered. Then nothing is
  // lost: every non-empty frame behind the first format message, once the thread is done with it, has
  // left the encoder with identical bytes and type.
  lemma NothingIsLost(ss: seq<DecoderQueue.System>, steps: seq<DecoderQueue.Step>, i: nat,
                      c: Settings, r: Roi, ends: Ends, first: nat, n: nat) returns (k: nat)
    requires DecoderQueue.IsRun(ss, steps) && i < |ss| && Placed(r)
    requires ends.decoderRegistered && ends.encoderRegistered && ends.name in {"H264", "H265", "VP9"}
    requires forall f :: f in ss[i].posted && IsFormat(f) ==> f.format == ends.name
    requires forall o :: o in ss[i].outcomes ==> o.made && o.ok
    requires first < n < |ss[i].outcomes| && first < |ss[i].posted| && IsFormat(ss[i].posted[first])
    requires n < |ss[i].posted| && ss[i].posted[n].DataFrame? && ss[i].posted[n].content != []
    ensures var s := ss[i];
            && LogOf(s.posted, s.log) && k < |s.log| && s.log[k].frame == n
            && var sent := Along(c, r, s.posted, s.log, ends).sent;
            && k < |sent| && Carries(sent[k], s.posted[n])
  {
    var s := ss[i];
    TransparentThroughout(ss, steps, i, c, r, ends);
    DecoderQueue.OrderThroughout(ss, steps, i);
    var fs := DecoderQueue.Handled(s);
    HandledSupported(s, fs, ends.name);
    NothingIsSkipped(fs, s.outcomes, first, n);
    k :| k < |s.log| && s.log[k].frame == n;
    assert Carries(Along(c, r, s.posted, s.log, ends).sent[k], s.posted[s.log[k].frame]);
  }

  lemma HandledSupported(s: DecoderQueue.System, fs: seq<Frame>, name: string)
    requires DecoderQueue.FirstInFirstOut(s) && fs == DecoderQueue.Handled(s) && name in {"H264", "H265", "VP9"}
    requires forall f :: f in s.posted && IsFormat(f) ==> f.format == name
    ensures |fs| == |s.outcomes| && fs <= s.posted
    ensures forall f :: f in fs && f.FormatFrame? && f.format != "" ==> f.format == "H264" || f.format == "H265" || f.format == "VP9"
  {
    assert forall f :: f in fs ==> f in s.posted;
  }

  lemma {:induction false} LastFormatIsPosted(fs: seq<Frame>)
    ensures LastFormat(fs).Some? ==> exists f :: f in fs && IsFormat(f) && FormatOf(f) == LastFormat(fs).value
  {
    if fs != [] {
      var n := |fs| - 1;
      if IsFormat(fs[n]) {
        assert fs[n] in fs && FormatOf(fs[n]) == LastFormat(fs).value;
      } else {
        LastFormatIsPosted(fs[..n]);
        assert forall f :: f in fs[..n] ==> f in fs;
      }
    }
  }
}
