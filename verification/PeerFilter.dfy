/**
  What a publisher really knows of a peer's subscriptions: the names its ANNOUNCE carried, cut as the format cuts
  them. This composes TopicRouter's list of topics, the payload of Announce, and the publisher's filter.
*/
module PeerFilter {
  import opened Words
  import opened Topics
  import opened TopicRouter
  import opened Announce
  import opened AnnounceSafety

  const MAX_NAMES := 255
  const MAX_NAME := 0xFFFF

  // ---------------------------------------------------------------- names as bytes

  /** A C++ string: every character is one byte. */
  predicate ByteString(s: string) {
    forall k :: 0 <= k < |s| ==> s[k] as int < 0x100
  }

  function AsBytes(s: string): (b: Bytes)
    requires ByteString(s)
    ensures |b| == |s| && forall k :: 0 <= k < |s| ==> b[k] == s[k] as int
  {
    seq(|s|, k requires 0 <= k < |s| => s[k] as int)
  }

  function AsString(b: Bytes): (s: string)
    ensures |s| == |b| && forall k :: 0 <= k < |b| ==> s[k] == b[k] as char
  {
    seq(|b|, k requires 0 <= k < |b| => b[k] as char)
  }

  function CutName(s: string): (r: string) {
    s[..Min(|s|, MAX_NAME)]
  }

  lemma NameSurvives(s: string)
    requires ByteString(s)
    ensures AsString(Cut16(AsBytes(s))) == CutName(s)
  {
  }

  // ---------------------------------------------------------------- what is heard

  /** The node announces these names, in this order. */
  predicate Announcing(i: Info, names: seq<string>) {
    |i.topics| == |names| && forall k :: 0 <= k < |names| ==> ByteString(names[k]) && i.topics[k] == AsBytes(names[k])
  }

  function Strings(bs: seq<Bytes>): (r: seq<string>)
    ensures |r| == |bs| && forall k :: 0 <= k < |bs| ==> r[k] == AsString(bs[k])
  {
    seq(|bs|, k requires 0 <= k < |bs| => AsString(bs[k]))
  }

  /** The subscriptions a peer of the same domain reads out of the announcement. */
  function Heard(i: Info): (r: seq<string>) {
    match Parsed(Announced(i), i.domain)
    case None => []
    case Some(peer) => Strings(peer.subscribed)
  }

  /** They are the first 255 names, each cut to 65535 bytes. */
  lemma HeardNames(i: Info, names: seq<string>)
    requires Announcing(i, names)
    ensures |Heard(i)| == Min(|names|, MAX_NAMES)
    ensures forall k :: 0 <= k < |Heard(i)| ==> Heard(i)[k] == CutName(names[k])
  {
    AppendNothing(Announced(i));
    AnnounceRoundTrip(i, [], i.domain);
    var first := FirstTopics(i);
    forall k | 0 <= k < |first|
      ensures AsString(Cuts(first)[k]) == CutName(names[k])
    {
      NameSurvives(names[k]);
    }
  }

  /** The publisher selects the peer exactly if one of those names, as cut, is chosen by the topic. */
  lemma SelectsIff(i: Info, names: seq<string>, topic: string)
    requires Announcing(i, names)
    ensures Selects(Heard(i), topic) <==> exists k :: 0 <= k < Min(|names|, MAX_NAMES) && Chosen(CutName(names[k]), topic)
  {
    HeardNames(i, names);
    if Selects(Heard(i), topic) {
      var p :| p in Heard(i) && Chosen(p, topic);
      var k :| 0 <= k < |Heard(i)| && Heard(i)[k] == p;
    }
    forall k | 0 <= k < Min(|names|, MAX_NAMES) && Chosen(CutName(names[k]), topic)
      ensures Selects(Heard(i), topic)
    {
      assert Heard(i)[k] in Heard(i);
    }
  }

  // ---------------------------------------------------------------- whom the publisher misses

  /** Someone behind the peer's router wants the topic, and the publisher does not send it there. */
  predicate Missed(all: Subs, i: Info, topic: string) {
    Fired(all, topic) != [] && !Selects(Heard(i), topic)
  }

  /** All subscriptions are among the announced names, as localTopics lists them with the services behind. */
  ghost predicate Listed(all: Subs, names: seq<string>) {
    forall s :: s in all ==> s.pattern in names
  }

  predicate Short(names: seq<string>) {
    forall k :: 0 <= k < |names| ==> |names[k]| <= MAX_NAME
  }

  /** Nobody is missed as long as there are at most 255 names of at most 65535 bytes. */
  lemma NobodyMissed(all: Subs, i: Info, names: seq<string>, topic: string)
    requires Announcing(i, names) && Listed(all, names) && |names| <= MAX_NAMES && Short(names)
    ensures !Missed(all, i, topic)
  {
    if Fired(all, topic) != [] {
      var s := Fired(all, topic)[0];
      FiredIff(all, topic, s);
      FilterOfOne(s, topic);
      var k :| 0 <= k < |names| && names[k] == s.pattern;
      assert CutName(names[k]) == names[k];
      SelectsIff(i, names, topic);
    }
  }

  /** A name behind the first 255 is missed when none of those happens to choose its topic. */
  lemma MissedBehind(all: Subs, i: Info, names: seq<string>, s: Subscription)
    requires Announcing(i, names) && s in all && Wants(s, s.pattern)
    requires forall j :: 0 <= j < Min(|names|, MAX_NAMES) ==> !Chosen(CutName(names[j]), s.pattern)
    ensures Missed(all, i, s.pattern)
  {
    FiredIff(all, s.pattern, s);
    SelectsIff(i, names, s.pattern);
  }

  /** Exact names that differ by more than a final '/'. */
  predicate Different(names: seq<string>) {
    (forall k :: 0 <= k < |names| ==> !IsWild(names[k])) &&
    forall j, k :: 0 <= j < k < |names| ==> Trimmed(names[j]) != Trimmed(names[k])
  }

  /** With such subscriptions the limit is exact: nobody is missed on any topic if and only if there are at most 255. */
  lemma LimitIs255(all: Subs, i: Info, names: seq<string>)
    requires Announcing(i, names) && Short(names) && Different(names)
    requires forall p :: p in names <==> Announces(all, p)
    ensures (forall topic :: !Missed(all, i, topic)) <==> |names| <= MAX_NAMES
  {
    if |names| <= MAX_NAMES {
      forall topic
        ensures !Missed(all, i, topic)
      {
        assert Listed(all, names) by {
          forall s | s in all ensures s.pattern in names { assert Announces(all, s.pattern); }
        }
        NobodyMissed(all, i, names, topic);
      }
    } else {
      LastMissed(all, i, names);
    }
  }

  lemma LastMissed(all: Subs, i: Info, names: seq<string>)
    requires Announcing(i, names) && Short(names) && Different(names) && |names| > MAX_NAMES
    requires forall p :: p in names <==> Announces(all, p)
    ensures Missed(all, i, names[MAX_NAMES])
  {
    var p := names[MAX_NAMES];
    assert p in names && Announces(all, p);
    var s :| s in all && s.pattern == p;
    forall j | 0 <= j < MAX_NAMES
      ensures !Chosen(CutName(names[j]), p)
    {
      assert CutName(names[j]) == names[j];
      ExactPattern(names[j], p);
    }
    MissedBehind(all, i, names, s);
  }
}
