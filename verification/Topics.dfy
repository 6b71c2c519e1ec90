/** Topic names, their segments, and the wildcard match of src/core/topic_router.h. */
module Topics {

  // ---------------------------------------------------------------- segments

  /** The position of the first '/', or the length of s. */
  function FirstSlash(s: string): (k: nat)
    ensures k <= |s| && forall i :: 0 <= i < k ==> s[i] != '/'
    ensures k < |s| ==> s[k] == '/'
  {
    if s == "" || s[0] == '/' then 0
    else
      var k := FirstSlash(s[1..]);
      assert forall i :: 1 <= i < k + 1 ==> s[i] == s[1..][i - 1];
      k + 1
  }

  /** The segments of s; nothing follows a final '/'. */
  function Split(s: string): (r: seq<string>)
    decreases |s|
  {
    var k := FirstSlash(s);
    if k < |s| then [s[..k]] + Split(s[k + 1..])
    else if s == "" then []
    else [s]
  }

  /** The segments with '/' between them. */
  function Join(segments: seq<string>): (s: string) {
    if segments == [] then ""
    else if |segments| == 1 then segments[0]
    else segments[0] + "/" + Join(segments[1..])
  }

  predicate Plain(segment: string) {
    forall i :: 0 <= i < |segment| ==> segment[i] != '/'
  }

  predicate Segments(r: seq<string>) {
    forall i :: 0 <= i < |r| ==> Plain(r[i])
  }

  lemma SlashAt(a: string, b: string)
    requires Plain(a)
    ensures FirstSlash(a + "/" + b) == |a|
  {
    var s := a + "/" + b;
    assert s[|a|] == '/' && forall i :: 0 <= i < |a| ==> s[i] == a[i];
  }

  lemma NoSlash(a: string)
    requires Plain(a)
    ensures FirstSlash(a) == |a| && Split(a) == if a == "" then [] else [a]
  {
  }

  /** The first segment comes off at the first '/'. */
  lemma SplitFirst(a: string, b: string)
    requires Plain(a)
    ensures Split(a + "/" + b) == [a] + Split(b)
  {
    SlashAt(a, b);
    var s := a + "/" + b;
    assert s[..|a|] == a && s[|a| + 1..] == b;
  }

  lemma NextChar(r: seq<string>, token: string, c: char, rest: string)
    requires Plain(token)
    ensures r + Split(token + ([c] + rest)) ==
            if c == '/' then (r + [token]) + Split("" + rest) else r + Split((token + [c]) + rest)
  {
    if c == '/' {
      EndToken(token, rest);
      Regroup(r, [token], Split("" + rest));
    } else {
      assert token + ([c] + rest) == (token + [c]) + rest;
    }
  }

  lemma EndToken(token: string, rest: string)
    requires Plain(token)
    ensures Split(token + ("/" + rest)) == [token] + Split("" + rest)
  {
    assert "" + rest == rest;
    assert token + ("/" + rest) == token + "/" + rest;
    SplitFirst(token, rest);
  }

  lemma Regroup(a: seq<string>, b: seq<string>, c: seq<string>)
    ensures a + (b + c) == (a + b) + c
  {
  }

  /** What is split off so far, and what is left. */
  predicate Splitting(s: string, i: nat, r: seq<string>, token: string)
    requires i <= |s|
  {
    Plain(token) && r + Split(token + s[i..]) == Split(s)
  }

  lemma SplitStart(s: string)
    ensures Splitting(s, 0, [], "")
  {
    assert "" + s[0..] == s;
  }

  lemma SplitStep(s: string, i: nat, r: seq<string>, token: string)
    requires i < |s| && Splitting(s, i, r, token)
    ensures if s[i] == '/' then Splitting(s, i + 1, r + [token], "") else Splitting(s, i + 1, r, token + [s[i]])
  {
    assert s[i..] == [s[i]] + s[i + 1..];
    NextChar(r, token, s[i], s[i + 1..]);
  }

  lemma SplitEnd(s: string, r: seq<string>, token: string)
    requires Splitting(s, |s|, r, token)
    ensures Split(s) == if token == "" then r else r + [token]
  {
    assert token + s[|s|..] == token;
    NoSlash(token);
  }

  method SplitTopic(s: string) returns (r: seq<string>)
    ensures r == Split(s)
  {
    r := [];
    var token := "";
    SplitStart(s);
    for i := 0 to |s|
      invariant Splitting(s, i, r, token)
    {
      SplitStep(s, i, r, token);
      if s[i] == '/' {
        r := r + [token];
        token := "";
      } else {
        token := token + [s[i]];
      }
    }
    SplitEnd(s, r, token);
    if token != "" { r := r + [token]; }
  }

  lemma {:induction false} SplitPlain(s: string)
    ensures Segments(Split(s)) && (s != "" ==> Split(s) != [])
    decreases |s|
  {
    var k := FirstSlash(s);
    if k < |s| { SplitPlain(s[k + 1..]); }
  }

  /** Splitting undoes joining, for segments without '/' of which the last is not empty. */
  lemma {:induction false} SplitOfJoin(segments: seq<string>)
    requires Segments(segments) && (segments != [] ==> segments[|segments| - 1] != "")
    ensures Split(Join(segments)) == segments
  {
    if |segments| == 1 {
      NoSlash(segments[0]);
    } else if |segments| > 1 {
      SplitFirst(segments[0], Join(segments[1..]));
      SplitOfJoin(segments[1..]);
    }
  }

  /** s without the final '/' that splitting does not see: one that follows a nonempty segment. */
  function Trimmed(s: string): (t: string) {
    if |s| >= 2 && s[|s| - 1] == '/' && s[|s| - 2] != '/' then s[..|s| - 1] else s
  }

  lemma TrimmedRest(s: string, k: nat)
    requires k + 1 < |s| && s[k] == '/'
    ensures Trimmed(s) == s[..k] + "/" + Trimmed(s[k + 1..])
  {
    var rest := s[k + 1..];
    assert s == s[..k] + "/" + rest;
    if |rest| >= 2 {
      assert s[|s| - 1] == rest[|rest| - 1] && s[|s| - 2] == rest[|rest| - 2];
      assert s[..|s| - 1] == s[..k] + "/" + rest[..|rest| - 1];
    } else {
      assert s[|s| - 2] == '/';
    }
  }

  /** The name that segments come from, up to that final '/'. */
  function Rejoin(r: seq<string>): (s: string) {
    if r == [] then ""
    else if |r| == 1 then (if r[0] == "" then "/" else r[0])
    else r[0] + "/" + Rejoin(r[1..])
  }

  /** The segments determine the name, up to that final '/'. */
  lemma {:induction false} RejoinOfSplit(s: string)
    ensures Rejoin(Split(s)) == Trimmed(s)
    decreases |s|
  {
    var k := FirstSlash(s);
    if k < |s| {
      var rest := s[k + 1..];
      SplitPlain(rest);
      RejoinOfSplit(rest);
      if rest == "" {
        assert s == s[..k] + "/";
        assert Split(s) == [s[..k]];
        if k > 0 { assert s[|s| - 2] == s[..k][k - 1]; }
      } else {
        TrimmedRest(s, k);
        assert Split(s)[1..] == Split(rest);
      }
    }
  }

  lemma {:induction false} SplitTrimmed(s: string)
    ensures Split(Trimmed(s)) == Split(s)
    decreases |s|
  {
    var k := FirstSlash(s);
    if Trimmed(s) != s {
      var rest := s[k + 1..];
      if rest == "" {
        assert Trimmed(s) == s[..k];
        NoSlash(s[..k]);
      } else {
        TrimmedRest(s, k);
        SplitTrimmed(rest);
        SplitFirst(s[..k], Trimmed(rest));
      }
    }
  }

  /** Two names have the same segments exactly if they differ at most by that final '/'. */
  lemma SameSegments(s: string, t: string)
    ensures Split(s) == Split(t) <==> Trimmed(s) == Trimmed(t)
  {
    RejoinOfSplit(s);
    RejoinOfSplit(t);
    SplitTrimmed(s);
    SplitTrimmed(t);
  }

  // ---------------------------------------------------------------- matching

  predicate SegmentMatches(p: string, t: string) {
    p != "#" && (p == "*" || p == t)
  }

  /** `*` stands for one segment, `#` at the end for any number of them, also none; elsewhere `#` matches nothing. */
  predicate Matches(ps: seq<string>, ts: seq<string>) {
    if ps == ["#"] then true
    else if ps == [] || ts == [] then ps == ts
    else SegmentMatches(ps[0], ts[0]) && Matches(ps[1..], ts[1..])
  }

  predicate MatchWildcard(pattern: string, topic: string) {
    Matches(Split(pattern), Split(topic))
  }

  /** One position: `*` for any segment, else the same segment; a `#` that is not the last matches nothing. */
  predicate Agrees(p: string, t: string) {
    if p == "*" then true else if p == "#" then false else p == t
  }

  /** The same, position by position. */
  lemma {:induction false} MatchesMeans(ps: seq<string>, ts: seq<string>)
    ensures Matches(ps, ts) <==>
      if ps != [] && ps[|ps| - 1] == "#" then
        |ts| >= |ps| - 1 && forall i :: 0 <= i < |ps| - 1 ==> Agrees(ps[i], ts[i])
      else
        |ts| == |ps| && forall i :: 0 <= i < |ps| ==> Agrees(ps[i], ts[i])
  {
    if ps != ["#"] && ps != [] && ts != [] {
      MatchesMeans(ps[1..], ts[1..]);
      assert forall i :: 1 <= i < |ps| ==> ps[i] == ps[1..][i - 1];
      assert forall i :: 1 <= i < |ts| ==> ts[i] == ts[1..][i - 1];
      assert forall i :: 0 <= i < |ps| - 1 ==> ps[1..][i] == ps[i + 1];
      assert forall i :: 0 <= i < |ts| - 1 ==> ts[1..][i] == ts[i + 1];
    }
  }

  /** The two-index loop. */
  method MatchTopic(pattern: string, topic: string) returns (ok: bool)
    ensures ok == MatchWildcard(pattern, topic)
  {
    var ps := SplitTopic(pattern);
    var ts := SplitTopic(topic);
    var pi, ti := 0, 0;
    while pi < |ps| && ti < |ts|
      invariant 0 <= pi <= |ps| && 0 <= ti <= |ts|
      invariant Matches(ps, ts) == Matches(ps[pi..], ts[ti..])
      decreases |ps| - pi
    {
      if ps[pi] == "#" { return pi + 1 == |ps|; }
      if ps[pi] == "*" || ps[pi] == ts[ti] {
        assert ps[pi..][1..] == ps[pi + 1..] && ts[ti..][1..] == ts[ti + 1..];
        pi, ti := pi + 1, ti + 1;
      } else {
        return false;
      }
    }
    if pi + 1 == |ps| && ps[pi] == "#" { return true; }
    return pi == |ps| && ti == |ts|;
  }

  /** A pattern without wildcard characters matches a topic exactly if they have the same segments. */
  lemma {:induction false} ExactMatches(ps: seq<string>, ts: seq<string>)
    requires forall i :: 0 <= i < |ps| ==> ps[i] != "*" && ps[i] != "#"
    ensures Matches(ps, ts) <==> ps == ts
  {
    assert ps != [] ==> ps[0] != "#";
    if ps != [] && ts != [] {
      assert forall i :: 0 <= i < |ps| - 1 ==> ps[1..][i] == ps[i + 1];
      ExactMatches(ps[1..], ts[1..]);
      assert ps == [ps[0]] + ps[1..] && ts == [ts[0]] + ts[1..];
    }
  }

  predicate IsWild(pattern: string) {
    '*' in pattern || '#' in pattern
  }

  lemma {:induction false} SegmentsWithin(s: string, c: char)
    requires c !in s
    ensures forall i :: 0 <= i < |Split(s)| ==> c !in Split(s)[i]
    decreases |s|
  {
    var k := FirstSlash(s);
    if k < |s| {
      SegmentsWithin(s[k + 1..], c);
      assert c !in s[..k];
    }
  }

  /** An exact subscription's pattern, taken as a wildcard, matches its own topic and the one that differs by that '/'. */
  lemma ExactPattern(pattern: string, topic: string)
    requires !IsWild(pattern)
    ensures MatchWildcard(pattern, topic) <==> Trimmed(pattern) == Trimmed(topic)
  {
    SegmentsWithin(pattern, '*');
    SegmentsWithin(pattern, '#');
    var ps := Split(pattern);
    forall i | 0 <= i < |ps|
      ensures ps[i] != "*" && ps[i] != "#"
    {
      assert '*' in "*" && '#' in "#";
    }
    ExactMatches(ps, Split(topic));
    SameSegments(pattern, topic);
  }
}
