/**
 Extra host candidates: `OnIceCandidate` stores every local candidate and, for
 a host candidate, a copy with the address replaced (the candidate grammar is
 section 5.1 of RFC 8839).
 */
module ExtraHost {
  import opened Common

  predicate IsSpace(c: char) {
    c == ' ' || c == '\t' || c == '\n' || c == '\r' || c as int == 11 || c as int == 12
  }

  predicate Clean(s: string) { s != "" && forall i :: 0 <= i < |s| ==> !IsSpace(s[i]) }

  // Length of the leading run of characters that are not white space.
  function WordLength(s: string): (n: nat)
    ensures n <= |s| && (forall i :: 0 <= i < n ==> !IsSpace(s[i])) && (n < |s| ==> IsSpace(s[n]))
  {
    if s == "" || IsSpace(s[0]) then 0 else 1 + WordLength(s[1..])
  }

  // What operator>> reads, one token after the other.
  function Tokens(s: string): (ts: seq<string>)
    ensures forall t :: t in ts ==> Clean(t)
    decreases |s|
  {
    if s == "" then [] else if IsSpace(s[0]) then Tokens(s[1..]) else
      var n := WordLength(s);
      [s[..n]] + Tokens(s[n..])
  }

  function Join(ts: seq<string>): string {
    if ts == [] then "" else if |ts| == 1 then ts[0] else ts[0] + " " + Join(ts[1..])
  }

  lemma {:induction false} WordThenSpace(w: string, rest: string)
    requires Clean(w) && (rest == "" || IsSpace(rest[0]))
    ensures WordLength(w + rest) == |w|
  {
    assert (w + rest)[0] == w[0];
    if |w| > 1 {
      assert (w + rest)[1..] == w[1..] + rest;
      WordThenSpace(w[1..], rest);
    } else {
      assert (w + rest)[1..] == rest;
    }
  }

  // Tokenising what was joined gives the tokens back.
  lemma {:induction false} TokensOfJoin(ts: seq<string>)
    requires forall t :: t in ts ==> Clean(t)
    ensures Tokens(Join(ts)) == ts
  {
    if ts != [] {
      var w, tail := ts[0], ts[1..];
      assert w in ts && forall t :: t in tail ==> t in ts;
      var rest := if tail == [] then "" else " " + Join(tail);
      assert Join(ts) == w + rest;
      WordThenSpace(w, rest);
      assert (w + rest)[..|w|] == w && (w + rest)[|w|..] == rest;
      TokensOfJoin(tail);
      if tail != [] {
        assert rest[0] == ' ' && rest[1..] == Join(tail);
      }
      assert ts == [w] + tail;
    }
  }

  // All characters of the tokens, and all of a string but its white space: horizontal and vertical
  // tabulation, newline, form feed, carriage return and space.
  function Glued(ts: seq<string>): string {
    if ts == [] then "" else ts[0] + Glued(ts[1..])
  }

  function Blackened(s: string): string {
    if s == "" then "" else
      (if s[0] as int in {9, 10, 11, 12, 13, 32} then "" else [s[0]]) + Blackened(s[1..])
  }

  // Tokenising loses nothing but white space.
  lemma {:induction false} TokensKeepEverything(s: string)
    ensures Glued(Tokens(s)) == Blackened(s)
    decreases |s|
  {
    if s != "" {
      if IsSpace(s[0]) {
        TokensKeepEverything(s[1..]);
      } else {
        var n := WordLength(s);
        TokensKeepEverything(s[n..]);
        WordIsBlack(s, n);
        GluedFirst(s[..n], Tokens(s[n..]));
      }
    }
  }

  lemma GluedFirst(t: string, ts: seq<string>)
    ensures Glued([t] + ts) == t + Glued(ts)
  {
    assert ([t] + ts)[1..] == ts;
  }

  lemma {:induction false} WordIsBlack(s: string, n: nat)
    requires n <= |s| && forall i :: 0 <= i < n ==> !IsSpace(s[i])
    ensures Blackened(s) == s[..n] + Blackened(s[n..])
  {
    if n > 0 {
      WordIsBlack(s[1..], n - 1);
      assert s[1..][n - 1..] == s[n..];
      assert s[..n] == [s[0]] + s[1..][..n - 1];
    } else {
      assert s[0..] == s;
    }
  }

  // ---------------------------------------------------------------- the candidate list

  // `extra` marks the injected entries; the original stores no such mark.
  datatype Entry = Entry(mid: string, index: int, sdp: string, extra: bool)

  // The injected candidate, if there is one.
  function Injected(sdp: string, host: string): Option<string> {
    if host != "" && Contains(sdp, "typ host") && |Tokens(sdp)| >= 7
    then Some(Join(Tokens(sdp)[4 := host])) else None
  }

  // A copy is made if and only if an extra host is configured, the candidate says "typ host" somewhere,
  // and it has at least seven tokens.
  lemma InjectedExactlyWhen(sdp: string, host: string)
    ensures Injected(sdp, host).Some? <==>
            host != "" && (exists a, b :: sdp == a + "typ host" + b) && |Tokens(sdp)| >= 7
  {
    if Contains(sdp, "typ host") {
      var i :| 0 <= i <= |sdp| && OccursAt(sdp, i, "typ host");
      assert sdp == sdp[..i] + "typ host" + sdp[i + |"typ host"|..];
    }
    if a, b :| sdp == a + "typ host" + b {
      assert OccursAt(sdp, |a|, "typ host");
    }
  }

  // Re-tokenised, the injected candidate has the original tokens with the address replaced, if and
  // only if the host is free of white space.
  lemma OnlyTheAddressChanges(sdp: string, host: string)
    requires Injected(sdp, host).Some?
    ensures Tokens(Injected(sdp, host).value) == Tokens(sdp)[4 := host] <==> Clean(host)
  {
    var ts := Tokens(sdp)[4 := host];
    if Clean(host) {
      forall t | t in ts ensures Clean(t) {
        var k :| 0 <= k < |ts| && ts[k] == t;
        if k != 4 { assert t == Tokens(sdp)[k]; }
      }
      TokensOfJoin(ts);
    } else {
      assert host == ts[4];
      assert host in ts;
    }
  }

  datatype Event = OnIceCandidate(mid: string, index: int, sdp: string) | Cleared

  method JoinTokens(tokens: seq<string>) returns (joined: string)
    ensures joined == Join(tokens)
  {
    joined := "";
    for i := 0 to |tokens|
      invariant joined == Join(tokens[..i])
    {
      JoinNext(tokens, i);
      if i > 0 { joined := joined + " "; }
      joined := joined + tokens[i];
    }
    assert tokens[..|tokens|] == tokens;
  }

  class CandidateList {
    const host: string
    var list: seq<Entry>

    constructor (host: string)
      ensures this.host == host && list == []
    {
      this.host := host;
      list := [];
    }

    method OnIceCandidate(mid: string, index: int, sdp: string)
      modifies this
      ensures list == old(list) + Added(host, mid, index, sdp)
    {
      list := list + [Entry(mid, index, sdp, false)];
      if host != "" && Contains(sdp, "typ host") {
        var tokens := Tokens(sdp);
        if |tokens| >= 7 {
          tokens := tokens[4 := host];
          var extraSdp := JoinTokens(tokens);
          list := list + [Entry(mid, index, extraSdp, true)];
        }
      }
    }

    // The connection failed or was closed.
    method Clear()
      modifies this
      ensures list == []
    {
      list := [];
    }
  }

  lemma {:induction false} JoinNext(ts: seq<string>, i: nat)
    requires i < |ts|
    ensures Join(ts[..i + 1]) == (if i > 0 then Join(ts[..i]) + " " else "") + ts[i]
    decreases i
  {
    if i == 0 {
      assert ts[..1] == [ts[0]];
    } else {
      assert ts[..i + 1][1..] == ts[1..][..i] && ts[..i][1..] == ts[1..][..i - 1];
      JoinNext(ts[1..], i - 1);
    }
  }

  function Added(host: string, mid: string, index: int, sdp: string): seq<Entry> {
    [Entry(mid, index, sdp, false)] +
    match Injected(sdp, host)
    case None => []
    case Some(extra) => [Entry(mid, index, extra, true)]
  }

  function ListAfter(host: string, es: seq<Event>): seq<Entry> {
    if es == [] then [] else
      var n := |es| - 1;
      match es[n]
      case Cleared => []
      case OnIceCandidate(mid, index, sdp) => ListAfter(host, es[..n]) + Added(host, mid, index, sdp)
  }

  // The candidates since the last clear.
  function History(es: seq<Event>): seq<Entry> {
    if es == [] then [] else
      var n := |es| - 1;
      match es[n]
      case Cleared => []
      case OnIceCandidate(mid, index, sdp) => History(es[..n]) + [Entry(mid, index, sdp, false)]
  }

  function Own(list: seq<Entry>): seq<Entry> {
    if list == [] then [] else
      var n := |list| - 1;
      Own(list[..n]) + if list[n].extra then [] else [list[n]]
  }

  lemma {:induction false} OwnOfConcat(a: seq<Entry>, b: seq<Entry>)
    ensures Own(a + b) == Own(a) + Own(b)
  {
    if b == [] {
      assert a + b == a;
    } else {
      assert (a + b)[..|a + b| - 1] == a + b[..|b| - 1];
      OwnOfConcat(a, b[..|b| - 1]);
    }
  }

  // Entry i, if injected, stands right behind the entry it was made from, for the same media section.
  predicate FollowsItsOriginal(host: string, list: seq<Entry>, i: nat)
    requires i < |list|
  {
    list[i].extra ==>
      && i > 0 && !list[i - 1].extra
      && list[i].mid == list[i - 1].mid && list[i].index == list[i - 1].index
      && Injected(list[i - 1].sdp, host) == Some(list[i].sdp)
  }

  // Without the injected entries the list is the history since the last clear.
  lemma {:induction false} InjectionOnlyAdds(host: string, es: seq<Event>)
    ensures Own(ListAfter(host, es)) == History(es)
  {
    if es != [] && es[|es| - 1].OnIceCandidate? {
      var n := |es| - 1;
      InjectionOnlyAdds(host, es[..n]);
      var before, e := ListAfter(host, es[..n]), es[n];
      OwnOfConcat(before, Added(host, e.mid, e.index, e.sdp));
      OwnOfAdded(host, e.mid, e.index, e.sdp);
    }
  }

  // Every host candidate has its injected copy, and nothing else is injected.
  lemma {:induction false} InjectedBehindOriginal(host: string, es: seq<Event>, i: nat)
    requires i < |ListAfter(host, es)|
    ensures FollowsItsOriginal(host, ListAfter(host, es), i)
    ensures var list := ListAfter(host, es);
            !list[i].extra && Injected(list[i].sdp, host).Some? ==> i + 1 < |list| && list[i + 1].extra
  {
    var n := |es| - 1;
    var before, e := ListAfter(host, es[..n]), es[n];
    if i < |before| {
      InjectedBehindOriginal(host, es[..n], i);
    }
  }

  lemma OwnOfAdded(host: string, mid: string, index: int, sdp: string)
    ensures Own(Added(host, mid, index, sdp)) == [Entry(mid, index, sdp, false)]
  {
    var first := Entry(mid, index, sdp, false);
    assert [first][..0] == [];
    assert Own([first]) == [first];
    if Injected(sdp, host).Some? {
      assert Added(host, mid, index, sdp)[..1] == [first];
    }
  }
}
