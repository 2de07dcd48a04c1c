/**
 Option strings "key=value&key=value", as `AddStreams` and `getOptionValue`
 read them with two nested std::getline calls.
 */
module OptionStrings {
  import opened Common
  import opened Collections

  datatype Pair = Pair(key: string, value: string)

  // ---------------------------------------------------------------- how a string reads

  // What the front of an option string looks like. A key that is not closed by '=' is dropped, and so
  // is one with nothing at all behind its '='.
  datatype Shape =
    | NoEquals
    | OpenKey(key: string)
    | LastPair(key: string, value: string)
    | More(key: string, value: string, tail: string)

  function Single(key: string, value: string): string { key + ['='] + value }

  function Several(key: string, value: string, tail: string): string { key + ['='] + (value + ['&'] + tail) }

  predicate Fits(s: string, shape: Shape) {
    match shape
    case NoEquals => '=' !in s
    case OpenKey(key) => '=' !in key && s == Single(key, "")
    case LastPair(key, value) => '=' !in key && '&' !in value && value != "" && s == Single(key, value)
    case More(key, value, tail) => '=' !in key && '&' !in value && s == Several(key, value, tail)
  }

  // The shape, found by looking for the two separators.
  function Scan(s: string): Shape {
    var k := Find(s, '=');
    if k == |s| then NoEquals else
      var rest := s[k + 1..];
      if rest == "" then OpenKey(s[..k]) else
        var v := Find(rest, '&');
        if v == |rest| then LastPair(s[..k], rest) else More(s[..k], rest[..v], rest[v + 1..])
  }

  lemma FoundAt(s: string, c: char)
    ensures var i := Find(s, c); if i == |s| then c !in s else s == s[..i] + [c] + s[i + 1..]
  {
    SplitAt(s, Find(s, c), c);
  }

  lemma SplitAt(s: string, i: nat, c: char)
    requires i <= |s| && c !in s[..i] && (i < |s| ==> s[i] == c)
    ensures if i == |s| then c !in s else s == s[..i] + [c] + s[i + 1..]
  {
    if i == |s| { assert s[..i] == s; }
  }

  lemma ScanFits(s: string)
    ensures Fits(s, Scan(s))
  {
    var k := Find(s, '=');
    FoundAt(s, '=');
    if k < |s| { FoundAt(s[k + 1..], '&'); }
  }

  lemma FindAt(a: string, b: string, c: char, s: string)
    requires c !in a && s == a + [c] + b
    ensures Find(s, c) == |a| && s[..|a|] == a && s[|a| + 1..] == b
  {
    FindInConcat(a, b, c);
  }

  // A string fits one shape only.
  lemma OnlyScanFits(s: string, shape: Shape)
    requires Fits(s, shape)
    ensures Scan(s) == shape
  {
    match shape
    case NoEquals => FindNothing(s, '=');
    case OpenKey(key) => FindAt(key, "", '=', s);
    case LastPair(key, value) =>
      FindAt(key, value, '=', s);
      FindNothing(value, '&');
    case More(key, value, tail) =>
      FindAt(key, value + ['&'] + tail, '=', s);
      FindAt(value, tail, '&', value + ['&'] + tail);
  }

  ghost function ShapeOf(s: string): (shape: Shape)
    ensures Fits(s, shape)
  {
    ScanFits(s);
    var shape :| Fits(s, shape);
    shape
  }

  lemma OneShape(s: string, shape: Shape)
    requires Fits(s, shape)
    ensures ShapeOf(s) == shape
  {
    OnlyScanFits(s, shape);
    OnlyScanFits(s, ShapeOf(s));
  }

  // The pairs an option string stands for.
  ghost function Pairs(s: string): seq<Pair>
    decreases |s|
  {
    match ShapeOf(s)
    case NoEquals => []
    case OpenKey(_) => []
    case LastPair(key, value) => [Pair(key, value)]
    case More(key, value, tail) => [Pair(key, value)] + Pairs(tail)
  }

  // Later pairs override earlier ones.
  function ToMap(ps: seq<Pair>): map<string, string> {
    if ps == [] then map[] else ToMap(ps[..|ps| - 1])[ps[|ps| - 1].key := ps[|ps| - 1].value]
  }

  // getOptionValue returns the first match.
  function FirstValue(ps: seq<Pair>, name: string): string {
    if ps == [] then "" else if ps[0].key == name then ps[0].value else FirstValue(ps[1..], name)
  }

  // ---------------------------------------------------------------- the loops

  // An istringstream: what is left of it, and its eof and fail bits.
  datatype Stream = Stream(rest: string, eof: bool, fail: bool)

  // std::getline: meeting the end of the stream sets eof, and also fail if nothing was extracted;
  // a stream that is not good fails at once.
  function GetLine(st: Stream, delim: char): (string, Stream) {
    if st.eof || st.fail then ("", st.(fail := true)) else
      var i := Find(st.rest, delim);
      if i < |st.rest| then (st.rest[..i], st.(rest := st.rest[i + 1..]))
      else (st.rest, Stream("", true, st.rest == ""))
  }

  // What the two nested calls read off the front.
  lemma NestedGetLine(s: string)
    ensures var (key, st) := GetLine(Stream(s, false, false), '=');
            var (value, st') := GetLine(st, '&');
            match Scan(s)
            case NoEquals => st'.fail
            case OpenKey(_) => st'.fail
            case LastPair(k, v) => !st'.fail && key == k && value == v && st' == Stream("", true, false)
            case More(k, v, tail) => key == k && value == v && st' == Stream(tail, false, false)
  {}

  // What a stream in the loop still has to give.
  ghost function Remaining(st: Stream): seq<Pair> {
    if st.eof || st.fail then [] else Pairs(st.rest)
  }

  // One evaluation of the loop condition.
  lemma OneRead(st: Stream)
    ensures var (key, st1) := GetLine(st, '=');
            var (value, st2) := GetLine(st1, '&');
            && Remaining(st) == (if st2.fail then [] else [Pair(key, value)] + Remaining(st2))
            && (!st2.fail ==> |st2.rest| < |st.rest|)
  {
    if !st.eof && !st.fail {
      NestedGetLine(st.rest);
      ScanFits(st.rest);
      OneShape(st.rest, Scan(st.rest));
    }
  }

  lemma MapAppend(ps: seq<Pair>, p: Pair)
    ensures ToMap(ps + [p]) == ToMap(ps)[p.key := p.value]
  {
    assert (ps + [p])[..|ps|] == ps;
  }

  // The loop of AddStreams that turns the string into a map: what has been read, then what remains.
  ghost predicate Read(opts: map<string, string>, done: seq<Pair>, st: Stream, s: string) {
    opts == ToMap(done) && done + Remaining(st) == Pairs(s)
  }

  lemma ReadMore(opts: map<string, string>, done: seq<Pair>, st: Stream, s: string, p: Pair, st': Stream)
    requires Read(opts, done, st, s) && Remaining(st) == [p] + Remaining(st')
    ensures Read(opts[p.key := p.value], done + [p], st', s)
  {
    MapAppend(done, p);
    Reassociate(done, [p], Remaining(st'));
  }

  lemma ReadAll(opts: map<string, string>, done: seq<Pair>, st: Stream, s: string)
    requires Read(opts, done, st, s) && Remaining(st) == []
    ensures opts == ToMap(Pairs(s))
  {
    assert done + [] == done;
  }

  method ParseOptions(s: string) returns (opts: map<string, string>)
    ensures opts == ToMap(Pairs(s))
  {
    opts := map[];
    var st := Stream(s, false, false);
    ghost var done: seq<Pair> := [];
    while true
      invariant Read(opts, done, st, s)
      decreases |st.rest|
    {
      OneRead(st);
      var (key, st1) := GetLine(st, '=');
      var (value, st2) := GetLine(st1, '&');
      if st2.fail {
        ReadAll(opts, done, st, s);
        break;
      }
      ReadMore(opts, done, st, s, Pair(key, value), st2);
      opts := opts[key := value];
      done := done + [Pair(key, value)];
      st := st2;
    }
  }

  method GetOptionValue(s: string, name: string) returns (value: string)
    ensures value == FirstValue(Pairs(s), name)
  {
    var st := Stream(s, false, false);
    while true
      invariant FirstValue(Remaining(st), name) == FirstValue(Pairs(s), name)
      decreases |st.rest|
    {
      OneRead(st);
      var (key, st1) := GetLine(st, '=');
      var (v, st2) := GetLine(st1, '&');
      if st2.fail {
        return "";
      }
      if key == name {
        return v;
      }
      assert Remaining(st)[1..] == Remaining(st2);
      st := st2;
    }
  }

  // The option string of a request: the configured options apply when the request has none, or adds
  // to them by starting with '&'.
  function Effective(config: Option<string>, request: string): string {
    match config
    case None => request
    case Some(c) =>
      if request == [] then c
      else if request[0] == '&' then c + request
      else request
  }

  // ---------------------------------------------------------------- printing and parsing

  function Print(ps: seq<Pair>): string {
    if ps == [] then "" else
      if |ps| == 1 then Single(ps[0].key, ps[0].value)
      else Several(ps[0].key, ps[0].value, Print(ps[1..]))
  }

  predicate Printable(ps: seq<Pair>) {
    forall p :: p in ps ==> '=' !in p.key && '&' !in p.value
  }

  // Reading one pair off the front.
  lemma ReadPair(key: string, value: string, more: string)
    requires '=' !in key && '&' !in value
    ensures Pairs(Several(key, value, more)) == [Pair(key, value)] + Pairs(more)
    ensures Pairs(Single(key, value)) == if value == "" then [] else [Pair(key, value)]
  {
    OneShape(Several(key, value, more), More(key, value, more));
    OneShape(Single(key, value), if value == "" then OpenKey(key) else LastPair(key, value));
  }

  // Parsing undoes printing if and only if the last value is not empty.
  lemma {:induction false} ParseUndoesPrint(ps: seq<Pair>)
    requires Printable(ps)
    ensures Pairs(Print(ps)) == ps <==> ps == [] || ps[|ps| - 1].value != ""
  {
    if ps == [] {
      OneShape("", NoEquals);
    } else {
      var p, tail := ps[0], ps[1..];
      assert p in ps && forall q :: q in tail ==> q in ps;
      ReadPair(p.key, p.value, Print(tail));
      assert ps == [p] + tail;
      if tail != [] {
        ParseUndoesPrint(tail);
        assert ps[|ps| - 1] == tail[|tail| - 1];
        SameTail(p, Pairs(Print(tail)), tail);
      }
    }
  }

  // ---------------------------------------------------------------- configured and requested options

  // The string ends inside a non-empty value, so that an '&' closes it.
  ghost predicate Complete(s: string)
    decreases |s|
  {
    match ShapeOf(s)
    case NoEquals => false
    case OpenKey(_) => false
    case LastPair(_, _) => true
    case More(_, _, tail) => Complete(tail)
  }

  // `s` followed by '&' and `more`.
  function Followed(s: string, more: string): string { s + ['&'] + more }

  lemma FollowedShape(key: string, value: string, tail: string, more: string)
    ensures Followed(Single(key, value), more) == Several(key, value, more)
    ensures Followed(Several(key, value, tail), more) == Several(key, value, Followed(tail, more))
  {}

  lemma {:induction false} CompleteThenMore(s: string, more: string)
    requires Complete(s)
    ensures Pairs(Followed(s, more)) == Pairs(s) + Pairs(more)
    decreases |s|
  {
    match ShapeOf(s)
    case LastPair(key, value) =>
      FollowedShape(key, value, "", more);
      ReadPair(key, value, more);
    case More(key, value, tail) =>
      FollowedShape(key, value, tail, more);
      CompleteThenMore(tail, more);
      ReadPair(key, value, Followed(tail, more));
      var p := Pair(key, value);
      assert [p] + (Pairs(tail) + Pairs(more)) == ([p] + Pairs(tail)) + Pairs(more);
  }

  // An incomplete string already fails with the request "k=v".
  lemma {:induction false} IncompleteShows(s: string)
    requires !Complete(s)
    ensures Pairs(Followed(s, Single("k", "v"))) != Pairs(s) + Pairs(Single("k", "v"))
    decreases |s|
  {
    var kv := Single("k", "v");
    ReadPair("k", "v", "");
    match ShapeOf(s)
    case NoEquals =>
      var key := s + ['&'] + "k";
      assert Followed(s, kv) == Single(key, "v");
      ReadPair(key, "v", "");
      assert |key| > |"k"|;
      assert [Pair(key, "v")][0] != [Pair("k", "v")][0];
    case OpenKey(key) =>
      FollowedShape(key, "", "", kv);
      ReadPair(key, "", kv);
    case More(key, value, tail) =>
      FollowedShape(key, value, tail, kv);
      ReadPair(key, value, Followed(tail, kv));
      IncompleteShows(tail);
      var p := Pair(key, value);
      SameTail(p, Pairs(Followed(tail, kv)), Pairs(tail) + Pairs(kv));
      assert [p] + (Pairs(tail) + Pairs(kv)) == ([p] + Pairs(tail)) + Pairs(kv);
  }

  // Appending "&" and any request to the configured options reads as the one followed by the other
  // if and only if the configured options end inside a non-empty value.
  lemma AppendingWorksIffComplete(s: string)
    ensures (forall more :: Pairs(Followed(s, more)) == Pairs(s) + Pairs(more)) <==> Complete(s)
  {
    if Complete(s) {
      forall more ensures Pairs(Followed(s, more)) == Pairs(s) + Pairs(more) { CompleteThenMore(s, more); }
    } else {
      IncompleteShows(s);
    }
  }

  lemma {:induction false} MapOfConcat(ps: seq<Pair>, qs: seq<Pair>)
    ensures ToMap(ps + qs) == ToMap(ps) + ToMap(qs)
  {
    if qs == [] {
      assert ps + qs == ps;
    } else {
      var n := |qs| - 1;
      assert (ps + qs)[..|ps + qs| - 1] == ps + qs[..n];
      MapOfConcat(ps, qs[..n]);
    }
  }

  // The options of a request that does not begin with '&' are its own, if it has any, else the configured ones.
  lemma OptionsInEffect(config: string, request: string)
    ensures Effective(None, request) == request && Effective(Some(config), "") == config
    ensures Effective(Some(config), "&" + request) == config + "&" + request
    ensures request != "" && request[0] != '&' ==> Effective(Some(config), request) == request
  {
    assert ("&" + request)[0] == '&';
    assert config + ("&" + request) == config + "&" + request;
  }

  // The request overrides the configuration key by key.
  lemma RequestOverridesConfig(config: string, request: string)
    requires Complete(config)
    ensures ToMap(Pairs(Effective(Some(config), ['&'] + request))) == ToMap(Pairs(config)) + ToMap(Pairs(request))
  {
    assert config + (['&'] + request) == Followed(config, request);
    CompleteThenMore(config, request);
    MapOfConcat(Pairs(config), Pairs(request));
  }

  // ---------------------------------------------------------------- first against last

  predicate IsFirst(ps: seq<Pair>, i: nat) {
    i < |ps| && forall k :: 0 <= k < i ==> ps[k].key != ps[i].key
  }

  predicate IsLast(ps: seq<Pair>, j: nat) {
    j < |ps| && forall k :: j < k < |ps| ==> ps[k].key != ps[j].key
  }

  lemma {:induction false} FirstValueAt(ps: seq<Pair>, i: nat)
    requires IsFirst(ps, i)
    ensures FirstValue(ps, ps[i].key) == ps[i].value
    decreases i
  {
    if i > 0 {
      assert forall k :: 0 <= k < |ps| - 1 ==> ps[1..][k] == ps[k + 1];
      assert ps[0].key != ps[i].key;
      FirstValueAt(ps[1..], i - 1);
    }
  }

  lemma {:induction false} LastValueAt(ps: seq<Pair>, j: nat)
    requires IsLast(ps, j)
    ensures ps[j].key in ToMap(ps) && ToMap(ps)[ps[j].key] == ps[j].value
    decreases |ps|
  {
    var n := |ps| - 1;
    if j < n {
      assert ps[n].key != ps[j].key;
      assert IsLast(ps[..n], j);
      LastValueAt(ps[..n], j);
    }
  }

  lemma {:induction false} KeysOfMap(ps: seq<Pair>, name: string)
    ensures name in ToMap(ps) <==> exists i :: 0 <= i < |ps| && ps[i].key == name
  {
    if ps != [] {
      var n := |ps| - 1;
      KeysOfMap(ps[..n], name);
      assert forall i :: 0 <= i < n ==> ps[..n][i] == ps[i];
    }
  }

  // A key that occurs has a first and a last pair; one that does not is in neither reading.
  lemma {:induction false} Ends(ps: seq<Pair>, name: string) returns (i: nat, j: nat)
    ensures name in ToMap(ps) ==> IsFirst(ps, i) && IsLast(ps, j) && ps[i].key == name && ps[j].key == name
    ensures name !in ToMap(ps) ==> FirstValue(ps, name) == ""
  {
    KeysOfMap(ps, name);
    i := FirstWith(ps, name);
    j := 0;
    if name in ToMap(ps) {
      j := LastWith(ps, name);
    } else {
      AbsentValue(ps, name);
    }
  }

  lemma {:induction false} AbsentValue(ps: seq<Pair>, name: string)
    requires forall k :: 0 <= k < |ps| ==> ps[k].key != name
    ensures FirstValue(ps, name) == ""
  {
    if ps != [] {
      assert forall k :: 0 <= k < |ps| - 1 ==> ps[1..][k] == ps[k + 1];
      AbsentValue(ps[1..], name);
    }
  }

  lemma FirstWith(ps: seq<Pair>, name: string) returns (i: nat)
    ensures (exists k :: 0 <= k < |ps| && ps[k].key == name) ==> IsFirst(ps, i) && ps[i].key == name
  {
    i := 0;
    while i < |ps| && ps[i].key != name
      invariant i <= |ps| && forall k :: 0 <= k < i ==> ps[k].key != name
    {
      i := i + 1;
    }
  }

  lemma LastWith(ps: seq<Pair>, name: string) returns (j: nat)
    requires exists k :: 0 <= k < |ps| && ps[k].key == name
    ensures IsLast(ps, j) && ps[j].key == name
  {
    j := |ps| - 1;
    while ps[j].key != name
      invariant j < |ps| && (forall k :: j < k < |ps| ==> ps[k].key != name)
      invariant exists k :: 0 <= k <= j && ps[k].key == name
      decreases j
    {
      j := j - 1;
    }
  }

  // `getOptionValue` and the parsed map give the same value for this name; no entry reads as empty.
  predicate Agree(ps: seq<Pair>, name: string) {
    FirstValue(ps, name) == if name in ToMap(ps) then ToMap(ps)[name] else ""
  }

  // For each key, the first and the last pair with it carry the same value.
  ghost predicate EndsMatch(ps: seq<Pair>) {
    forall i: nat, j: nat :: IsFirst(ps, i) && IsLast(ps, j) && ps[i].key == ps[j].key ==> ps[i].value == ps[j].value
  }

  // The two readings agree on every name if and only if the ends match.
  lemma FirstIsLast(ps: seq<Pair>)
    ensures (forall name :: Agree(ps, name)) <==> EndsMatch(ps)
  {
    if EndsMatch(ps) {
      forall name ensures Agree(ps, name) {
        var i, j := Ends(ps, name);
        if name in ToMap(ps) {
          FirstValueAt(ps, i);
          LastValueAt(ps, j);
        }
      }
    }
    if forall name :: Agree(ps, name) {
      forall i: nat, j: nat | IsFirst(ps, i) && IsLast(ps, j) && ps[i].key == ps[j].key ensures ps[i].value == ps[j].value {
        FirstValueAt(ps, i);
        LastValueAt(ps, j);
        assert Agree(ps, ps[i].key);
      }
    }
  }

  predicate DistinctKeys(ps: seq<Pair>) {
    forall i, j :: 0 <= i < j < |ps| ==> ps[i].key != ps[j].key
  }

  lemma DistinctKeysAgree(ps: seq<Pair>, name: string)
    requires DistinctKeys(ps)
    ensures Agree(ps, name)
  {
    assert EndsMatch(ps) by {
      forall i: nat, j: nat | IsFirst(ps, i) && IsLast(ps, j) && ps[i].key == ps[j].key ensures ps[i].value == ps[j].value {
        assert i == j;
      }
    }
    FirstIsLast(ps);
  }

  // Given twice, an option reads differently in the two ways.
  lemma RepeatedKeyDisagrees(key: string, first: string, last: string)
    requires '=' !in key && '&' !in first && '&' !in last && last != "" && first != last
    ensures var ps := Pairs(Several(key, first, Single(key, last)));
            FirstValue(ps, key) == first && key in ToMap(ps) && ToMap(ps)[key] == last
  {
    ReadPair(key, first, Single(key, last));
    ReadPair(key, last, "");
    var p, q := Pair(key, first), Pair(key, last);
    assert [p] + [q] == [p, q] && [p, q][..1] == [p];
  }
}
