/**
 `VideoDecoder`: what the decoder thread does with each frame it takes from the
 queue, and what that amounts to over any series of frames.
 */
module VideoDecoder {
  import opened Common
  import opened AccessUnits

  // The format message a decoder was created for.
  datatype Format = Format(name: string, width: int, height: int)

  // The stored format (none before the first message) and the decoder, if there is one.
  datatype Consumer = Consumer(stored: Option<Format>, decoder: Option<Format>)

  const Fresh := Consumer(None, None)

  // What the library answers while one frame is handled: does the factory make a decoder,
  // does Decode return WEBRTC_VIDEO_CODEC_OK?
  datatype Outcome = Outcome(made: bool, ok: bool)

  // A call of Decode: which of the frames taken so far, by which decoder, with what result.
  datatype Decode = Decode(frame: nat, madeFor: Format, ok: bool)

  predicate Supported(name: string) { name == "H264" || name == "H265" || name == "VP9" }

  predicate IsFormat(f: Frame) { f.FormatFrame? && f.format != "" }

  function FormatOf(f: Frame): Format
    requires f.FormatFrame?
  {
    Format(f.format, f.width, f.height)
  }

  // Is Decode called on this frame?
  predicate Decodes(c: Consumer, f: Frame) {
    f.DataFrame? && f.content != [] && c.decoder.Some?
  }

  function Handle(c: Consumer, f: Frame, o: Outcome): Consumer {
    if IsFormat(f) then
      var fmt := FormatOf(f);
      if c.decoder.Some? && c.stored == Some(fmt) then c
      else Consumer(Some(fmt), if Supported(fmt.name) && o.made then Some(fmt) else None)
    else if Decodes(c, f) && !o.ok then c.(decoder := None)
    else c
  }

  // One consumer thread works on these fields; `log` lists its calls of Decode.
  class VideoDecoder {
    var queue: seq<Frame>
    var format: Option<Format>
    var decoder: Option<Format>
    var taken: nat
    var log: seq<Decode>

    constructor ()
      ensures queue == [] && State() == Fresh && taken == 0 && log == []
    {
      queue, format, decoder, taken, log := [], None, None, 0, [];
    }

    function State(): Consumer
      reads this
    {
      Consumer(format, decoder)
    }

    method Post(f: Frame)
      modifies this`queue
      ensures queue == old(queue) + [f]
    {
      queue := queue + [f];
    }

    // The thread waits for a frame, so there is one when this returns.
    method GetFrame() returns (f: Frame)
      requires queue != []
      modifies this`queue, this`taken
      ensures old(queue) == [f] + queue && taken == old(taken) + 1
    {
      f := queue[0];
      queue := queue[1..];
      taken := taken + 1;
    }

    method CreateDecoder(fmt: Format, made: bool)
      modifies this`decoder
      ensures decoder == if Supported(fmt.name) then (if made then Some(fmt) else None) else old(decoder)
    {
      if fmt.name == "H264" || fmt.name == "H265" || fmt.name == "VP9" {
        decoder := if made then Some(fmt) else None;
      }
    }

    // One turn of the loop of DecoderThread.
    method Turn(o: Outcome)
      requires queue != []
      modifies this
      ensures old(queue) == [old(queue)[0]] + queue && taken == old(taken) + 1
      ensures State() == Handle(old(State()), old(queue)[0], o)
      ensures log == if Decodes(old(State()), old(queue)[0])
                     then old(log) + [Decode(old(taken), old(decoder).value, o.ok)] else old(log)
    {
      var f := GetFrame();
      if f.FormatFrame? && f.format != "" {
        var fmt := Format(f.format, f.width, f.height);
        if decoder.Some? && format != Some(fmt) {
          decoder := None;
        }
        if decoder.None? {
          format := Some(fmt);
          CreateDecoder(fmt, o.made);
        }
      }
      if f.DataFrame? && |f.content| > 0 {
        if decoder.Some? {
          log := log + [Decode(taken - 1, decoder.value, o.ok)];
          if !o.ok {
            decoder := None;
          }
        }
      }
    }
  }

  // ---------------------------------------------------------------- any series of frames

  function After(fs: seq<Frame>, os: seq<Outcome>): Consumer
    requires |fs| == |os|
  {
    if fs == [] then Fresh else
      var n := |fs| - 1;
      Handle(After(fs[..n], os[..n]), fs[n], os[n])
  }

  function Log(fs: seq<Frame>, os: seq<Outcome>): seq<Decode>
    requires |fs| == |os|
  {
    if fs == [] then [] else
      var n := |fs| - 1;
      var c := After(fs[..n], os[..n]);
      Log(fs[..n], os[..n]) + if Decodes(c, fs[n]) then [Decode(n, c.decoder.value, os[n].ok)] else []
  }

  function LastFormat(fs: seq<Frame>): Option<Format> {
    if fs == [] then None
    else if IsFormat(fs[|fs| - 1]) then Some(FormatOf(fs[|fs| - 1]))
    else LastFormat(fs[..|fs| - 1])
  }

  // The stored format is the last one announced, and a live decoder was created for it.
  lemma {:induction false} StoredIsLast(fs: seq<Frame>, os: seq<Outcome>)
    requires |fs| == |os|
    ensures After(fs, os).stored == LastFormat(fs)
    ensures After(fs, os).decoder.Some? ==> After(fs, os).decoder == LastFormat(fs)
  {
    if fs != [] {
      StoredIsLast(fs[..|fs| - 1], os[..|fs| - 1]);
    }
  }

  // What a log entry says: a non-empty frame, taken in order, decoded for the last format before it.
  ghost predicate Faithful(fs: seq<Frame>, d: Decode) {
    d.frame < |fs| && fs[d.frame].DataFrame? && fs[d.frame].content != []
    && LastFormat(fs[..d.frame]) == Some(d.madeFor)
  }

  // Decoded frames are an in-order subsequence of the frames taken, each decoded by a decoder
  // created for the last format announced before it.
  lemma {:induction false} DecodedInOrder(fs: seq<Frame>, os: seq<Outcome>)
    requires |fs| == |os|
    ensures forall i :: 0 <= i < |Log(fs, os)| ==> Faithful(fs, Log(fs, os)[i])
    ensures forall i, j :: 0 <= i < j < |Log(fs, os)| ==> Log(fs, os)[i].frame < Log(fs, os)[j].frame
  {
    if fs != [] {
      var n := |fs| - 1;
      var before, after := Log(fs[..n], os[..n]), Log(fs, os);
      DecodedInOrder(fs[..n], os[..n]);
      StoredIsLast(fs[..n], os[..n]);
      forall i | 0 <= i < |after| ensures Faithful(fs, after[i]) && (i < |before| ==> after[i].frame < n) {
        if i < |before| {
          assert Faithful(fs[..n], before[i]);
          assert fs[..n][..before[i].frame] == fs[..before[i].frame];
        }
      }
    }
  }

  // Each call of Decode is recorded with its own result.
  lemma {:induction false} ResultsAreRecorded(fs: seq<Frame>, os: seq<Outcome>, i: nat)
    requires |fs| == |os| && i < |Log(fs, os)|
    ensures Log(fs, os)[i].frame < |os| && Log(fs, os)[i].ok == os[Log(fs, os)[i].frame].ok
  {
    var n := |fs| - 1;
    if i < |Log(fs[..n], os[..n])| { ResultsAreRecorded(fs[..n], os[..n], i); }
  }

  predicate FormatBetween(fs: seq<Frame>, i: nat, j: nat) {
    exists k :: i < k < j && k < |fs| && IsFormat(fs[k])
  }

  // While no format message follows a failed Decode there is no decoder.
  lemma {:induction false} NoDecoderAfterFailure(fs: seq<Frame>, os: seq<Outcome>, i: nat)
    requires |fs| == |os| && i < |Log(fs, os)| && !Log(fs, os)[i].ok
    requires !FormatBetween(fs, Log(fs, os)[i].frame, |fs|)
    ensures After(fs, os).decoder == None
    ensures i == |Log(fs, os)| - 1
  {
    var n := |fs| - 1;
    var before, after := Log(fs[..n], os[..n]), Log(fs, os);
    DecodedInOrder(fs, os);
    assert Faithful(fs, after[i]);
    if i < |before| {
      DecodedInOrder(fs[..n], os[..n]);
      assert Faithful(fs[..n], before[i]);
      assert before[i].frame < n;
      assert forall k :: before[i].frame < k < n ==> fs[..n][k] == fs[k];
      NoDecoderAfterFailure(fs[..n], os[..n], i);
    }
  }

  // Between a failed Decode and the next one, a format message was handled.
  lemma {:induction false} FailureWaitsForFormat(fs: seq<Frame>, os: seq<Outcome>, i: nat, j: nat)
    requires |fs| == |os| && i < j < |Log(fs, os)| && !Log(fs, os)[i].ok
    ensures FormatBetween(fs, Log(fs, os)[i].frame, Log(fs, os)[j].frame)
  {
    var n := |fs| - 1;
    var before, after := Log(fs[..n], os[..n]), Log(fs, os);
    if j < |before| {
      FailureWaitsForFormat(fs[..n], os[..n], i, j);
      var k :| before[i].frame < k < before[j].frame && k < n && IsFormat(fs[..n][k]);
      assert IsFormat(fs[k]);
    } else if !FormatBetween(fs, after[i].frame, n) {
      assert !FormatBetween(fs[..n], before[i].frame, n) by {
        assert forall k :: 0 <= k < n ==> fs[..n][k] == fs[k];
      }
      NoDecoderAfterFailure(fs[..n], os[..n], i);
      assert false;
    }
  }

  // ---------------------------------------------------------------- what is decoded

  // Frame j leaves a decoder made for `fmt` alive: no other format, and no decode that fails.
  predicate Harmless(fmt: Format, f: Frame, o: Outcome) {
    match f
    case FormatFrame(name, width, height) => name == "" || Format(name, width, height) == fmt
    case DataFrame(content, _, _) => content == [] || o.ok
    case StopFrame => true
  }

  // Message k brings a decoder, and nothing since has taken it away.
  predicate Brings(fs: seq<Frame>, os: seq<Outcome>, k: nat) {
    && k < |fs| == |os|
    && fs[k].FormatFrame? && (fs[k].format == "H264" || fs[k].format == "H265" || fs[k].format == "VP9") && os[k].made
    && forall j :: k < j < |fs| ==> Harmless(FormatOf(fs[k]), fs[j], os[j])
  }

  // A message that brings one and has not been undone has left one made for it.
  lemma {:induction false} BroughtIsAlive(fs: seq<Frame>, os: seq<Outcome>, k: nat)
    requires Brings(fs, os, k)
    ensures After(fs, os) == Consumer(Some(FormatOf(fs[k])), Some(FormatOf(fs[k])))
  {
    var n := |fs| - 1;
    if k < n {
      BringsOnPrefix(fs, os, k);
      BroughtIsAlive(fs[..n], os[..n], k);
      assert Harmless(FormatOf(fs[k]), fs[n], os[n]);
    } else {
      StoredIsLast(fs[..n], os[..n]);
    }
  }

  lemma BringsOnPrefix(fs: seq<Frame>, os: seq<Outcome>, k: nat)
    requires k + 1 < |fs| == |os|
    ensures Brings(fs, os, k) <==>
            Brings(fs[..|fs| - 1], os[..|fs| - 1], k) && Harmless(FormatOfMessage(fs, k), fs[|fs| - 1], os[|fs| - 1])
  {
    var n := |fs| - 1;
    assert forall j :: 0 <= j < n ==> fs[..n][j] == fs[j] && os[..n][j] == os[j];
  }

  function FormatOfMessage(fs: seq<Frame>, k: nat): Format
    requires k < |fs|
  {
    if fs[k].FormatFrame? then FormatOf(fs[k]) else Format("", 0, 0)
  }

  // Every live decoder was brought by some message.
  lemma {:induction false} AliveWasBrought(fs: seq<Frame>, os: seq<Outcome>) returns (k: nat)
    requires |fs| == |os| && After(fs, os).decoder.Some?
    ensures Brings(fs, os, k)
  {
    var n := |fs| - 1;
    var before, f := After(fs[..n], os[..n]), fs[n];
    if IsFormat(f) && !(before.decoder.Some? && before.stored == Some(FormatOf(f))) {
      k := n;
    } else {
      k := AliveWasBrought(fs[..n], os[..n]);
      BroughtIsAlive(fs[..n], os[..n], k);
      assert fs[..n][k] == fs[k];
      BringsOnPrefix(fs, os, k);
    }
  }

  // Was Decode called on frame n?
  predicate IsDecoded(log: seq<Decode>, n: nat) { exists i :: 0 <= i < |log| && log[i].frame == n }

  // A frame taken is decoded if and only if it is not empty and an earlier format message brought a
  // decoder that is still there: its name was supported, a decoder was made for it, no other format
  // has come and no decode has failed since.
  lemma {:induction false} DecodedExactlyWhen(fs: seq<Frame>, os: seq<Outcome>, n: nat)
    requires n < |fs| == |os|
    ensures IsDecoded(Log(fs, os), n) <==>
            fs[n].DataFrame? && fs[n].content != [] && exists k :: Brings(fs[..n], os[..n], k)
  {
    var m := |fs| - 1;
    var before, after := Log(fs[..m], os[..m]), Log(fs, os);
    if n < m {
      DecodedExactlyWhen(fs[..m], os[..m], n);
      assert fs[..m][..n] == fs[..n] && os[..m][..n] == os[..n];
      SameBelow(before, after, n, m);
    } else {
      LastDecoded(fs, os);
    }
  }

  lemma SameBelow(before: seq<Decode>, after: seq<Decode>, n: nat, m: nat)
    requires n < m && before <= after && forall i :: |before| <= i < |after| ==> after[i].frame == m
    ensures IsDecoded(after, n) <==> IsDecoded(before, n)
  {
    if IsDecoded(before, n) {
      var i :| 0 <= i < |before| && before[i].frame == n;
      assert after[i].frame == n;
    }
  }

  // The last frame.
  lemma LastDecoded(fs: seq<Frame>, os: seq<Outcome>)
    requires |fs| == |os| && fs != []
    ensures var n := |fs| - 1;
            IsDecoded(Log(fs, os), n) <==>
            fs[n].DataFrame? && fs[n].content != [] && exists k :: Brings(fs[..n], os[..n], k)
  {
    var n := |fs| - 1;
    var c, before, after := After(fs[..n], os[..n]), Log(fs[..n], os[..n]), Log(fs, os);
    DecodedInOrder(fs[..n], os[..n]);
    assert forall i :: 0 <= i < |before| ==> Faithful(fs[..n], before[i]);
    if c.decoder.Some? {
      var k := AliveWasBrought(fs[..n], os[..n]);
    } else {
      forall k ensures !Brings(fs[..n], os[..n], k) {
        if Brings(fs[..n], os[..n], k) { BroughtIsAlive(fs[..n], os[..n], k); }
      }
    }
    if Decodes(c, fs[n]) { assert after[|before|].frame == n; }
  }

  // When every decoder can be made and every decode works, all data behind the first supported format
  // message is decoded, as long as only supported formats come.
  lemma NothingIsSkipped(fs: seq<Frame>, os: seq<Outcome>, first: nat, n: nat)
    requires first < n < |fs| == |os| && (forall o :: o in os ==> o.made && o.ok)
    requires IsFormat(fs[first]) && fs[n].DataFrame? && fs[n].content != []
    requires forall f :: f in fs && f.FormatFrame? && f.format != "" ==> f.format == "H264" || f.format == "H265" || f.format == "VP9"
    ensures IsDecoded(Log(fs, os), n)
  {
    var k := LatestFormat(fs, first, n);
    assert fs[k] in fs && os[k] in os;
    forall j | k < j < n ensures Harmless(FormatOf(fs[k]), fs[..n][j], os[..n][j]) {
      assert os[j] in os;
    }
    assert Brings(fs[..n], os[..n], k);
    DecodedExactlyWhen(fs, os, n);
  }

  lemma {:induction false} LatestFormat(fs: seq<Frame>, first: nat, n: nat) returns (k: nat)
    requires first < n <= |fs| && IsFormat(fs[first])
    ensures k < n && IsFormat(fs[k]) && forall j :: k < j < n ==> !IsFormat(fs[j])
    decreases n
  {
    if IsFormat(fs[n - 1]) {
      k := n - 1;
    } else {
      k := LatestFormat(fs, first, n - 1);
    }
  }
}
