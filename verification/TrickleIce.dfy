/**
 The WHEP PATCH request: a trickle ICE fragment (section 9 of RFC 8840) read
 line by line, and the candidates offered to the peer connection.
 */
module TrickleIce {
  import opened Common
  import opened Collections

  const MID := "a=mid:"
  const CANDIDATE := "a=candidate"
  const END := "a=end-of-candidates"

  // ---------------------------------------------------------------- lines

  // The lines std::getline reads; nothing follows a final newline.
  function Lines(s: string): seq<string>
    decreases |s|
  {
    if s == "" then [] else
      var i := Find(s, '\n');
      [s[..i]] + if i < |s| then Lines(s[i + 1..]) else []
  }

  // std::remove and erase.
  function WithoutReturns(s: string): string { Without(s, '\r') }

  // No carriage return is left, nothing else is lost, and the order stays.
  lemma ReturnsVanish(s: string, a: string, b: string)
    ensures '\r' !in WithoutReturns(s)
    ensures '\r' !in s ==> WithoutReturns(s) == s
    ensures WithoutReturns(a + ['\r'] + b) == WithoutReturns(a) + WithoutReturns(b)
  {
    WithoutHolds(s, '\r', '\r');
    if '\r' !in s { WithoutNothing(s, '\r'); }
    WithoutOfConcat(a + ['\r'], b, '\r');
    WithoutOfConcat(a, ['\r'], '\r');
    assert ['\r'][..0] == [];
    assert WithoutReturns(a) + [] == WithoutReturns(a);
  }

  // strstr looks no further than the first null character.
  predicate Mentions(line: string, pattern: string) {
    Contains(line[..Find(line, '\0')], pattern)
  }

  // What a line is taken for, in the order of the tests, and what is cut out of it.
  datatype Line = Mid(mid: string) | Candidate(sdp: string) | EndOfCandidates | Other

  function Classify(line: string): Line {
    if Mentions(line, MID) then MentionedIsLong(line, MID); Mid(line[|MID|..])
    else if Mentions(line, CANDIDATE) then MentionedIsLong(line, CANDIDATE); Candidate(line[2..])
    else if Mentions(line, END) then EndOfCandidates
    else Other
  }

  lemma MentionedIsLong(line: string, pattern: string)
    requires Mentions(line, pattern)
    ensures |pattern| <= |line|
  {}

  function ReadLine(raw: string): Line { Classify(WithoutReturns(raw)) }

  function ReadEach(ls: seq<string>, read: string -> Line): seq<Line> {
    seq(|ls|, i requires 0 <= i < |ls| => read(ls[i]))
  }

  function ReadLines(body: string): seq<Line> { ReadEach(Lines(body), ReadLine) }

  // The i-th line as the tests see it.
  function Text(body: string, i: nat): string
    requires i < |Lines(body)|
  {
    WithoutReturns(Lines(body)[i])
  }

  lemma ReadAt(body: string, i: nat)
    requires i < |Lines(body)|
    ensures |ReadLines(body)| == |Lines(body)| && ReadLines(body)[i] == Classify(Text(body, i))
  {
    assert ReadLine(Lines(body)[i]) == Classify(Text(body, i));
  }

  // ---------------------------------------------------------------- the request

  // What becomes of a candidate: not parsed, no such peer, refused, applied.
  datatype Verdict = Unparsable | NoPeer | Refused | Applied

  datatype Offer = Offer(mid: string, sdp: string)

  predicate IsOffered(l: Line, v: Verdict) { l.Candidate? && (v.Refused? || v.Applied?) }

  predicate Counts(l: Line, v: Verdict) { l.EndOfCandidates? || (l.Candidate? && v.Applied?) }

  // The branches of the loop body; `v` is the fate of a candidate on this line.
  method TakeLine(line: Line, v: Verdict, mid: string, status: int, offers: seq<Offer>)
    returns (mid': string, status': int, offers': seq<Offer>)
    ensures mid' == if line.Mid? then line.mid else mid
    ensures status' == if Counts(line, v) then 200 else status
    ensures offers' == if IsOffered(line, v) then offers + [Offer(mid, line.sdp)] else offers
  {
    mid', status', offers' := mid, status, offers;
    match line
    case Mid(m) => mid' := m;
    case Candidate(sdp) =>
      if v.Refused? || v.Applied? {
        offers' := offers + [Offer(mid, sdp)];
        if v.Applied? { status' := 200; }
      }
    case EndOfCandidates => status' := 200;
    case Other =>
  }

  // `verdict(i)` is the fate of the candidate on line i. Candidates that parse and find their peer
  // are offered to it.
  method Patch(body: string, verdict: nat -> Verdict) returns (status: int, offers: seq<Offer>)
    ensures offers == Offers(ReadLines(body), verdict, |ReadLines(body)|)
    ensures status == if Accepted(ReadLines(body), verdict, |ReadLines(body)|) then 200 else 501
  {
    status, offers := PatchLines(Lines(body), ReadLine, verdict);
  }

  // The loop over the lines; `read` is what a line is taken for.
  method PatchLines(ls: seq<string>, read: string -> Line, verdict: nat -> Verdict)
    returns (status: int, offers: seq<Offer>)
    ensures offers == Offers(ReadEach(ls, read), verdict, |ls|)
    ensures status == if Accepted(ReadEach(ls, read), verdict, |ls|) then 200 else 501
  {
    status, offers := 501, [];
    var mid := "";
    ghost var all := ReadEach(ls, read);
    ProgressStart(all, verdict);
    for i := 0 to |ls|
      invariant Progress(all, verdict, i, mid, status, offers)
    {
      mid, status, offers := TakeNext(all, verdict, i, read(ls[i]), mid, status, offers);
    }
    ProgressEnd(all, verdict, mid, status, offers);
  }

  method TakeNext(ghost all: seq<Line>, verdict: nat -> Verdict, i: nat, line: Line, mid: string, status: int, offers: seq<Offer>)
    returns (mid': string, status': int, offers': seq<Offer>)
    requires i < |all| && line == all[i] && Progress(all, verdict, i, mid, status, offers)
    ensures Progress(all, verdict, i + 1, mid', status', offers')
  {
    ProgressNext(all, verdict, i, mid, status, offers);
    mid', status', offers' := TakeLine(line, verdict(i), mid, status, offers);
  }

  // The status of a body: some line ends the candidates, or its candidate was applied.
  lemma AcceptedExactlyWhen(ls: seq<Line>, verdict: nat -> Verdict)
    ensures Accepted(ls, verdict, |ls|) <==>
            exists k :: 0 <= k < |ls| && (ls[k] == EndOfCandidates || (ls[k].Candidate? && verdict(k) == Applied))
  {
    if Accepted(ls, verdict, |ls|) {
      var k :| 0 <= k < |ls| && Counts(ls[k], verdict(k));
    }
    if k :| 0 <= k < |ls| && (ls[k] == EndOfCandidates || (ls[k].Candidate? && verdict(k) == Applied)) {
      assert Counts(ls[k], verdict(k));
    }
  }

  // The value of the variable `mid` when line i is reached.
  function MidBefore(ls: seq<Line>, i: nat): string
    requires i <= |ls|
  {
    if i == 0 then "" else if ls[i - 1].Mid? then ls[i - 1].mid else MidBefore(ls, i - 1)
  }

  function Offers(ls: seq<Line>, verdict: nat -> Verdict, i: nat): seq<Offer>
    requires i <= |ls|
  {
    if i == 0 then [] else
      Offers(ls, verdict, i - 1) +
      if IsOffered(ls[i - 1], verdict(i - 1)) then [Offer(MidBefore(ls, i - 1), ls[i - 1].sdp)] else []
  }

  // One of the first n lines counts.
  predicate Accepted(ls: seq<Line>, verdict: nat -> Verdict, n: nat)
    requires n <= |ls|
  {
    exists k :: 0 <= k < n && Counts(ls[k], verdict(k))
  }

  // What the variables of the loop hold when line i is reached.
  ghost predicate Progress(ls: seq<Line>, verdict: nat -> Verdict, i: nat, mid: string, status: int, offers: seq<Offer>)
    requires i <= |ls|
  {
    && mid == MidBefore(ls, i)
    && offers == Offers(ls, verdict, i)
    && status == if Accepted(ls, verdict, i) then 200 else 501
  }

  lemma ProgressStart(ls: seq<Line>, verdict: nat -> Verdict)
    ensures Progress(ls, verdict, 0, "", 501, [])
  {}

  lemma ProgressEnd(ls: seq<Line>, verdict: nat -> Verdict, mid: string, status: int, offers: seq<Offer>)
    requires Progress(ls, verdict, |ls|, mid, status, offers)
    ensures offers == Offers(ls, verdict, |ls|)
    ensures status == if Accepted(ls, verdict, |ls|) then 200 else 501
  {}

  lemma ProgressNext(ls: seq<Line>, verdict: nat -> Verdict, i: nat, mid: string, status: int, offers: seq<Offer>)
    requires i < |ls| && Progress(ls, verdict, i, mid, status, offers)
    ensures Progress(ls, verdict, i + 1,
                     if ls[i].Mid? then ls[i].mid else mid,
                     if Counts(ls[i], verdict(i)) then 200 else status,
                     if IsOffered(ls[i], verdict(i)) then offers + [Offer(mid, ls[i].sdp)] else offers)
  {
    AcceptedNext(ls, verdict, i);
  }

  lemma AcceptedNext(ls: seq<Line>, verdict: nat -> Verdict, i: nat)
    requires i < |ls|
    ensures Accepted(ls, verdict, i + 1) == (Accepted(ls, verdict, i) || Counts(ls[i], verdict(i)))
  {}

  // ---------------------------------------------------------------- what is offered

  // Line j is the nearest a=mid line before line i.
  predicate Nearest(ls: seq<Line>, j: nat, i: nat)
  {
    j < i <= |ls| && ls[j].Mid? && forall k :: j < k < i ==> !ls[k].Mid?
  }

  // A candidate goes out under the nearest mid before it, or under none if there is none.
  lemma {:induction false} OfferedUnderNearestMid(ls: seq<Line>, i: nat)
    requires i <= |ls|
    ensures forall j: nat :: Nearest(ls, j, i) ==> MidBefore(ls, i) == ls[j].mid
    ensures (forall j :: 0 <= j < i ==> !ls[j].Mid?) ==> MidBefore(ls, i) == ""
  {
    if i > 0 {
      OfferedUnderNearestMid(ls, i - 1);
      forall j: nat | Nearest(ls, j, i) ensures MidBefore(ls, i) == ls[j].mid {
        if j < i - 1 { assert Nearest(ls, j, i - 1); }
      }
    }
  }

  // The offers are the parsed candidates of known peers, in order, each under its mid.
  lemma {:induction false} OffersInOrder(ls: seq<Line>, verdict: nat -> Verdict, n: nat, k: nat) returns (i: nat)
    requires n <= |ls| && k < |Offers(ls, verdict, n)|
    ensures i < n && ls[i].Candidate? && (verdict(i) == Refused || verdict(i) == Applied)
    ensures Offers(ls, verdict, n)[k] == Offer(MidBefore(ls, i), ls[i].sdp)
    ensures |Offers(ls, verdict, i)| == k
  {
    if k < |Offers(ls, verdict, n - 1)| {
      i := OffersInOrder(ls, verdict, n - 1, k);
    } else {
      i := n - 1;
    }
  }

  // ---------------------------------------------------------------- lines that start with their attribute

  lemma FindBeyond(line: string, prefix: string)
    requires prefix <= line && '\0' !in prefix
    ensures Find(line, '\0') >= |prefix|
  {
    assert forall k :: 0 <= k < |prefix| ==> line[k] == prefix[k] && prefix[k] in prefix;
  }

  // strstr finds an attribute that starts the line, whatever follows it.
  lemma StartIsMentioned(line: string, pattern: string)
    requires pattern <= line && '\0' !in pattern
    ensures Mentions(line, pattern)
  {
    FindBeyond(line, pattern);
    assert OccursAt(line[..Find(line, '\0')], 0, pattern);
  }

  lemma ReadsAttribute(m: string, line: string)
    requires line == MID + m
    ensures Classify(line) == Mid(m)
  {
    StartIsMentioned(line, MID);
    assert line[|MID|..] == m;
  }

  lemma ReadsCandidate(rest: string, line: string)
    requires line == CANDIDATE + rest && !Mentions(line, MID)
    ensures Classify(line) == Candidate("candidate" + rest)
  {
    StartIsMentioned(line, CANDIDATE);
    assert line[2..] == "candidate" + rest;
  }

  lemma OccursCharacter(s: string, i: nat, pattern: string, k: nat)
    requires OccursAt(s, i, pattern) && k < |pattern|
    ensures s[i + k] == pattern[k]
  {
    assert s[i..i + |pattern|][k] == s[i + k];
  }

  // A line with one '=', in second place and not before a 'c', mentions no candidate.
  lemma MentionsNoCandidate(line: string, pattern: string)
    requires |pattern| > 2 && pattern[1] == '=' && pattern[2] == 'c'
    requires forall i :: 0 <= i < |line| && line[i] == '=' ==> i == 1 && |line| > 2 && line[2] != 'c'
    ensures !Mentions(line, pattern)
  {
    var s := line[..Find(line, '\0')];
    forall i | 0 <= i <= |s| ensures !OccursAt(s, i, pattern) {
      if OccursAt(s, i, pattern) {
        OccursCharacter(s, i, pattern, 1);
        OccursCharacter(s, i, pattern, 2);
        assert false;
      }
    }
  }

  lemma MentionsNo(line: string, pattern: string, k: nat)
    requires k < |pattern| && pattern[k] !in line
    ensures !Mentions(line, pattern)
  {
    var s := line[..Find(line, '\0')];
    assert forall j :: 0 <= j < |s| ==> s[j] == line[j];
    forall i | 0 <= i <= |s| ensures !OccursAt(s, i, pattern) {
      if OccursAt(s, i, pattern) {
        OccursCharacter(s, i, pattern, k);
        assert false;
      }
    }
  }

  // The end-of-candidates line is not taken for one of the others.
  lemma ReadsEnd(line: string)
    requires END <= line && !Mentions(line, MID) && !Mentions(line, CANDIDATE)
    ensures Classify(line) == EndOfCandidates
  {
    StartIsMentioned(line, END);
  }

  // What sets the end-of-candidates line apart from the others.
  predicate EndLike(line: string) {
    'm' !in line && forall i :: 0 <= i < |line| && line[i] == '=' ==> i == 1 && |line| > 2 && line[2] != 'c'
  }

  lemma EndIsEndLike(line: string)
    requires line == END
    ensures EndLike(line)
  {}

  lemma EndMentionsNothingElse(line: string)
    requires EndLike(line)
    ensures !Mentions(line, MID) && !Mentions(line, CANDIDATE)
  {
    MentionsNo(line, MID, 2);
    MentionsNoCandidate(line, CANDIDATE);
  }

  lemma OccursInside(before: string, pattern: string, after: string, line: string, n: nat)
    requires line == before + pattern + after && |before + pattern| <= n <= |line|
    ensures OccursAt(line[..n], |before|, pattern)
  {
    assert line[..n][|before|..|before| + |pattern|] == pattern;
  }

  // What strstr finds: the attribute somewhere in the line, with no null character before its end.
  lemma MentionsExactlyWhen(line: string, pattern: string)
    requires '\0' !in pattern
    ensures Mentions(line, pattern) <==> exists a, b :: line == a + pattern + b && '\0' !in a
  {
    var n := Find(line, '\0');
    if Mentions(line, pattern) {
      var i :| 0 <= i <= n && OccursAt(line[..n], i, pattern);
      var a, b := line[..i], line[i + |pattern|..];
      assert line[i..i + |pattern|] == line[..n][i..i + |pattern|];
      assert line == a + pattern + b;
      assert forall k :: 0 <= k < i ==> a[k] in line[..n] by {
        assert forall k :: 0 <= k < i ==> a[k] == line[..n][k];
      }
    }
    if a, b :| line == a + pattern + b && '\0' !in a {
      assert '\0' !in a + pattern;
      FindBeyond(line, a + pattern);
      OccursInside(a, pattern, b, line, n);
    }
  }

  // How a line is taken, by its text: the first of the three attributes that it mentions decides, and
  // what is cut off are the first six and the first two characters.
  lemma ClassifiedExactlyWhen(line: string)
    ensures Classify(line).Mid? <==> exists a, b :: line == a + "a=mid:" + b && '\0' !in a
    ensures Classify(line).Candidate? <==>
            !Classify(line).Mid? && exists a, b :: line == a + "a=candidate" + b && '\0' !in a
    ensures Classify(line).EndOfCandidates? <==>
            !Classify(line).Mid? && !Classify(line).Candidate? && exists a, b :: line == a + "a=end-of-candidates" + b && '\0' !in a
    ensures Classify(line).Mid? ==> |line| >= 6 && Classify(line).mid == line[6..]
    ensures Classify(line).Candidate? ==> |line| >= 2 && Classify(line).sdp == line[2..]
  {
    MentionsExactlyWhen(line, MID);
    MentionsExactlyWhen(line, CANDIDATE);
    MentionsExactlyWhen(line, END);
  }

  // The value is cut at a fixed column: it is what follows the attribute exactly when the attribute
  // starts the line.
  lemma CutAtFixedColumn(before: string, m: string)
    requires '\0' !in before
    ensures Classify(before + MID + m).Mid?
    ensures Classify(before + MID + m) == Mid(m) <==> before == ""
  {
    var line := before + MID + m;
    FindBeyond(line, before + MID);
    OccursInside(before, MID, m, line, Find(line, '\0'));
    if before == "" { assert line[|MID|..] == m; }
    assert |line[|MID|..]| == |before| + |m|;
  }

  // ---------------------------------------------------------------- whole bodies

  // Raw lines separated by newlines, with or without one at the end. A raw line may end in a carriage
  // return, or hold any others.
  function Fragment(raws: seq<string>, closed: bool): string {
    if raws == [] then ""
    else if |raws| == 1 && !closed then raws[0]
    else raws[0] + ['\n'] + Fragment(raws[1..], closed)
  }

  predicate NoNewlines(raws: seq<string>) { forall r :: r in raws ==> '\n' !in r }

  lemma LinesOfFirst(raw: string, rest: string)
    requires '\n' !in raw
    ensures Lines(raw + ['\n'] + rest) == [raw] + Lines(rest)
    ensures Lines(raw) == if raw == "" then [] else [raw]
  {
    FindInConcat(raw, rest, '\n');
    FindNothing(raw, '\n');
    assert (raw + ['\n'] + rest)[..|raw|] == raw;
    assert (raw + ['\n'] + rest)[|raw| + 1..] == rest;
    assert raw[..|raw|] == raw;
  }

  // A body of any length is read line by line as written, if and only if it does not end in an empty
  // line without a newline.
  lemma {:induction false} ReadsFragment(raws: seq<string>, closed: bool)
    requires NoNewlines(raws)
    ensures Lines(Fragment(raws, closed)) == raws <==> raws == [] || closed || raws[|raws| - 1] != ""
  {
    if raws != [] {
      var raw, rest := raws[0], raws[1..];
      assert raw in raws && raws == [raw] + rest;
      LinesOfFirst(raw, Fragment(rest, closed));
      if rest == [] && !closed {
        assert Fragment(raws, closed) == raw;
      } else {
        assert Fragment(raws, closed) == raw + ['\n'] + Fragment(rest, closed);
        ReadsFragment(rest, closed);
        SameTail(raw, Lines(Fragment(rest, closed)), rest);
        assert rest != [] ==> rest[|rest| - 1] == raws[|raws| - 1];
      }
    }
  }

  // Every body is such a fragment of the lines read from it.
  lemma {:induction false} EveryBodyIsAFragment(body: string)
    ensures NoNewlines(Lines(body))
    ensures Fragment(Lines(body), Closed(body)) == body
    decreases |body|
  {
    if body != "" {
      var i := Find(body, '\n');
      if i < |body| {
        EveryBodyIsAFragment(body[i + 1..]);
        SplitBody(body, i);
        FragmentOfFirst(body[..i], Lines(body[i + 1..]), body[i + 1..], Closed(body));
      } else {
        LastLine(body);
      }
    }
  }

  predicate Closed(body: string) { body != "" && body[|body| - 1] == '\n' }

  lemma SplitBody(body: string, i: nat)
    requires i == Find(body, '\n') < |body|
    ensures body == body[..i] + ['\n'] + body[i + 1..] && Lines(body) == [body[..i]] + Lines(body[i + 1..])
    ensures body[i + 1..] == "" ==> Closed(body) && Lines(body[i + 1..]) == []
    ensures body[i + 1..] != "" ==> Closed(body) == Closed(body[i + 1..]) && Lines(body[i + 1..]) != []
  {
    var raw, rest := body[..i], body[i + 1..];
    Glue(body, i, raw, rest);
    LinesOfFirst(raw, rest);
    if rest != "" { LinesOfSome(rest); }
  }

  lemma Glue(body: string, i: nat, raw: string, rest: string)
    requires i < |body| && raw == body[..i] && rest == body[i + 1..] && body[i] == '\n'
    ensures body == raw + ['\n'] + rest
    ensures Closed(body) == (rest == "" || Closed(rest))
  {
    if rest != "" { assert body[|body| - 1] == rest[|rest| - 1]; }
  }

  lemma LinesOfSome(s: string)
    requires s != ""
    ensures Lines(s) != []
  {}

  lemma FragmentOfFirst(raw: string, raws: seq<string>, rest: string, closed: bool)
    requires if raws == [] then rest == "" && closed else Fragment(raws, closed) == rest
    ensures Fragment([raw] + raws, closed) == raw + ['\n'] + rest
  {
    assert ([raw] + raws)[1..] == raws;
  }

  lemma LastLine(body: string)
    requires body != "" && Find(body, '\n') == |body|
    ensures Lines(body) == [body] && !Closed(body) && '\n' !in body
  {
    assert body[..|body|] == body;
  }

  // In any body, a candidate at the start of its line that parses and finds its peer is offered with
  // the mid of the nearest a=mid line before it; if it is applied, the request succeeds.
  lemma CandidateGetsNearestMid(body: string, verdict: nat -> Verdict, j: nat, i: nat, mid: string, rest: string)
    requires j < i < |Lines(body)|
    requires Text(body, j) == MID + mid && forall k :: j < k <= i ==> !Mentions(Text(body, k), MID)
    requires Text(body, i) == CANDIDATE + rest && (verdict(i).Refused? || verdict(i).Applied?)
    ensures var ls := ReadLines(body);
            && Offers(ls, verdict, i + 1) == Offers(ls, verdict, i) + [Offer(mid, "candidate" + rest)]
            && Offers(ls, verdict, i + 1) <= Offers(ls, verdict, |ls|)
            && (verdict(i).Applied? ==> Accepted(ls, verdict, |ls|))
  {
    var ls := ReadLines(body);
    ReadsBoth(body, j, i, mid, rest);
    OfferAt(ls, verdict, j, i);
  }

  // The same on the raw lines of a body in which each line ends with a carriage return.
  lemma CandidateOfRawLines(body: string, verdict: nat -> Verdict, j: nat, i: nat, mid: string, rest: string)
    requires j < i < |Lines(body)| && '\r' !in mid && '\r' !in rest
    requires Lines(body)[j] == MID + mid + ['\r'] && Lines(body)[i] == CANDIDATE + rest + ['\r']
    requires forall k :: j < k <= i ==> !Mentions(Text(body, k), MID)
    requires verdict(i).Refused? || verdict(i).Applied?
    ensures var ls := ReadLines(body);
            && Offers(ls, verdict, i + 1) == Offers(ls, verdict, i) + [Offer(mid, "candidate" + rest)]
            && Offers(ls, verdict, i + 1) <= Offers(ls, verdict, |ls|)
  {
    ReturnAtTheEnd(MID + mid);
    ReturnAtTheEnd(CANDIDATE + rest);
    CandidateGetsNearestMid(body, verdict, j, i, mid, rest);
  }

  lemma ReturnAtTheEnd(s: string)
    requires '\r' !in s
    ensures WithoutReturns(s + ['\r']) == s
  {
    ReturnsVanish(s, s, "");
    assert s + ['\r'] + "" == s + ['\r'];
    assert s + "" == s;
  }

  lemma ReadsBoth(body: string, j: nat, i: nat, mid: string, rest: string)
    requires j < i < |Lines(body)|
    requires Text(body, j) == MID + mid && forall k :: j < k <= i ==> !Mentions(Text(body, k), MID)
    requires Text(body, i) == CANDIDATE + rest
    ensures var ls := ReadLines(body);
            ls[j] == Mid(mid) && ls[i] == Candidate("candidate" + rest) && Nearest(ls, j, i)
  {
    ReadsAttribute(mid, Text(body, j));
    ReadsCandidate(rest, Text(body, i));
    ReadAt(body, j);
    ReadAt(body, i);
    NearestMidOfTexts(body, ReadLines(body), j, i);
  }

  lemma OfferAt(ls: seq<Line>, verdict: nat -> Verdict, j: nat, i: nat)
    requires i < |ls| && Nearest(ls, j, i) && IsOffered(ls[i], verdict(i))
    ensures Offers(ls, verdict, i + 1) == Offers(ls, verdict, i) + [Offer(ls[j].mid, ls[i].sdp)]
    ensures Offers(ls, verdict, i + 1) <= Offers(ls, verdict, |ls|)
    ensures verdict(i).Applied? ==> Accepted(ls, verdict, |ls|)
  {
    OfferedUnderNearestMid(ls, i);
    OffersGrow(ls, verdict, i + 1, |ls|);
    if verdict(i).Applied? { assert Counts(ls[i], verdict(i)); }
  }

  lemma NearestMidOfTexts(body: string, ls: seq<Line>, j: nat, i: nat)
    requires ls == ReadLines(body) && j < i < |ls|
    requires ls[j].Mid? && forall k :: j < k <= i ==> !Mentions(Text(body, k), MID)
    ensures Nearest(ls, j, i)
  {
    forall k | j < k < i ensures !ls[k].Mid? {
      ReadAt(body, k);
      assert !Mentions(Text(body, k), MID);
    }
  }

  lemma {:induction false} OffersGrow(ls: seq<Line>, verdict: nat -> Verdict, i: nat, n: nat)
    requires i <= n <= |ls|
    ensures Offers(ls, verdict, i) <= Offers(ls, verdict, n)
    decreases n
  {
    if i < n { OffersGrow(ls, verdict, i, n - 1); }
  }

  // Any body with an a=end-of-candidates line succeeds, whatever became of its candidates.
  lemma EndOfCandidatesSucceeds(body: string, verdict: nat -> Verdict, i: nat)
    requires i < |Lines(body)| && Text(body, i) == END
    ensures Accepted(ReadLines(body), verdict, |ReadLines(body)|)
  {
    EndIsEndLike(Text(body, i));
    EndMentionsNothingElse(Text(body, i));
    ReadsEnd(Text(body, i));
    ReadAt(body, i);
    assert Counts(ReadLines(body)[i], verdict(i));
  }
}
