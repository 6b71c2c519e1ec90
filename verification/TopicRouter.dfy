/**
  TopicRouter of src/core/topic_router.h: exact subscriptions indexed by topic, wildcard ones in a list,
  against one flat list of all live subscriptions in the order they were made; and the publisher's filter of
  src/core/message_bus.cpp, which works on a peer's announced topics. A subscription's id stands for its callback.
*/
module TopicRouter {
  import opened Topics

  datatype Subscription = Subscription(id: nat, pattern: string)

  type Subs = seq<Subscription>

  // ---------------------------------------------------------------- the flat list

  predicate Wild(s: Subscription) {
    IsWild(s.pattern)
  }

  /** Whether s wants a message on this topic. */
  predicate Wants(s: Subscription, topic: string) {
    if Wild(s) then MatchWildcard(s.pattern, topic) else s.pattern == topic
  }

  function ExactOf(all: Subs, topic: string): (r: Subs) {
    if all == [] then []
    else
      var rest, s := ExactOf(all[..|all| - 1], topic), all[|all| - 1];
      if !Wild(s) && s.pattern == topic then rest + [s] else rest
  }

  function WildOf(all: Subs): (r: Subs) {
    if all == [] then []
    else
      var rest, s := WildOf(all[..|all| - 1]), all[|all| - 1];
      if Wild(s) then rest + [s] else rest
  }

  function Matching(subs: Subs, topic: string): (r: Subs) {
    if subs == [] then []
    else
      var rest, s := Matching(subs[..|subs| - 1], topic), subs[|subs| - 1];
      if MatchWildcard(s.pattern, topic) then rest + [s] else rest
  }

  function Without(subs: Subs, id: nat): (r: Subs) {
    if subs == [] then []
    else
      var rest, s := Without(subs[..|subs| - 1], id), subs[|subs| - 1];
      if s.id == id then rest else rest + [s]
  }

  /** Everyone who wants the topic, in the order of the flat list. */
  function Wanting(all: Subs, topic: string): (r: Subs) {
    if all == [] then []
    else
      var rest, s := Wanting(all[..|all| - 1], topic), all[|all| - 1];
      if Wants(s, topic) then rest + [s] else rest
  }

  /** Whose callbacks fire: the exact subscriptions, then the matching wildcards, each in order. */
  function Fired(all: Subs, topic: string): (r: Subs) {
    ExactOf(all, topic) + Matching(WildOf(all), topic)
  }

  // ---------------------------------------------------------------- what the split into two indexes keeps

  /** Routing fires each subscription that wants the topic exactly as often as it is in the list, and no other. */
  lemma {:induction false} FiredIsWanting(all: Subs, topic: string)
    ensures multiset(Fired(all, topic)) == multiset(Wanting(all, topic))
    decreases |all|
  {
    if all != [] {
      var front, s := all[..|all| - 1], all[|all| - 1];
      FiredIsWanting(front, topic);
      if Wild(s) { MatchingSnoc(WildOf(front), s, topic); }
      if Wants(s, topic) { OneMore(ExactOf(front, topic), Matching(WildOf(front), topic), s); }
    }
  }

  lemma MatchingSnoc(subs: Subs, s: Subscription, topic: string)
    ensures Matching(subs + [s], topic) == if MatchWildcard(s.pattern, topic) then Matching(subs, topic) + [s] else Matching(subs, topic)
  {
    assert (subs + [s])[..|subs|] == subs;
  }

  lemma OneMore(a: Subs, b: Subs, s: Subscription)
    ensures multiset(a + [s] + b) == multiset(a + b) + multiset{s}
    ensures multiset(a + (b + [s])) == multiset(a + b) + multiset{s}
  {
    assert a + (b + [s]) == (a + b) + [s];
  }

  lemma {:induction false} WantingIff(all: Subs, topic: string, s: Subscription)
    ensures s in Wanting(all, topic) <==> s in all && Wants(s, topic)
    decreases |all|
  {
    if all != [] {
      var front := all[..|all| - 1];
      WantingIff(front, topic, s);
      assert s in all <==> s in front || s == all[|all| - 1];
    }
  }

  /** Someone fires exactly if someone wants the topic. */
  lemma FiredIff(all: Subs, topic: string, s: Subscription)
    ensures s in Fired(all, topic) <==> s in all && Wants(s, topic)
  {
    FiredIsWanting(all, topic);
    WantingIff(all, topic, s);
    assert s in Fired(all, topic) <==> s in multiset(Fired(all, topic));
    assert s in Wanting(all, topic) <==> s in multiset(Wanting(all, topic));
  }

  lemma ExactSnoc(all: Subs, s: Subscription, topic: string)
    ensures ExactOf(all + [s], topic) == if !Wild(s) && s.pattern == topic then ExactOf(all, topic) + [s] else ExactOf(all, topic)
    ensures WildOf(all + [s]) == if Wild(s) then WildOf(all) + [s] else WildOf(all)
  {
    assert (all + [s])[..|all|] == all;
  }

  lemma WithoutSnoc(subs: Subs, s: Subscription, id: nat)
    ensures Without(subs + [s], id) == if s.id == id then Without(subs, id) else Without(subs, id) + [s]
  {
    assert (subs + [s])[..|subs|] == subs;
  }

  /** Removing commutes with both indexes. */
  lemma {:induction false} ExactWithout(all: Subs, id: nat, topic: string)
    ensures ExactOf(Without(all, id), topic) == Without(ExactOf(all, topic), id)
    decreases |all|
  {
    if all != [] {
      var front, s := all[..|all| - 1], all[|all| - 1];
      ExactWithout(front, id, topic);
      ExactSnoc(Without(front, id), s, topic);
      WithoutSnoc(ExactOf(front, topic), s, id);
    }
  }

  lemma {:induction false} WildWithout(all: Subs, id: nat)
    ensures WildOf(Without(all, id)) == Without(WildOf(all), id)
    decreases |all|
  {
    if all != [] {
      var front, s := all[..|all| - 1], all[|all| - 1];
      WildWithout(front, id);
      ExactSnoc(Without(front, id), s, "");
      WithoutSnoc(WildOf(front), s, id);
    }
  }

  lemma {:induction false} WithoutIff(subs: Subs, id: nat, s: Subscription)
    ensures s in Without(subs, id) <==> s in subs && s.id != id
    decreases |subs|
  {
    if subs != [] {
      var front := subs[..|subs| - 1];
      WithoutIff(front, id, s);
      assert s in subs <==> s in front || s == subs[|subs| - 1];
    }
  }

  // ---------------------------------------------------------------- the order of callbacks

  /** In the order in which they were made. */
  predicate OldestFirst(subs: Subs) {
    forall i, j :: 0 <= i < j < |subs| ==> subs[i].id < subs[j].id
  }

  /** A sublist of `all`, made as the functions above make theirs, keeps the order. */
  lemma SnocInOrder(all: Subs, front: Subs, s: Subscription)
    requires all != [] && OldestFirst(all) && s == all[|all| - 1] && OldestFirst(front)
    requires forall x :: x in front ==> x in all[..|all| - 1]
    ensures OldestFirst(front + [s])
  {
    forall i | 0 <= i < |front|
      ensures front[i].id < s.id
    {
      assert front[i] in front;
      var k :| 0 <= k < |all| - 1 && all[k] == front[i];
    }
  }

  lemma NewestLast(all: Subs, s: Subscription)
    requires OldestFirst(all) && forall x :: x in all ==> x.id < s.id
    ensures OldestFirst(all + [s])
  {
    assert forall i :: 0 <= i < |all| ==> all[i] in all;
  }

  lemma {:induction false} ExactInOrder(all: Subs, topic: string)
    requires OldestFirst(all)
    ensures OldestFirst(ExactOf(all, topic)) && forall s :: s in ExactOf(all, topic) ==> s in all && !Wild(s)
    decreases |all|
  {
    if all != [] {
      var front, s := all[..|all| - 1], all[|all| - 1];
      ExactInOrder(front, topic);
      SnocInOrder(all, ExactOf(front, topic), s);
    }
  }

  lemma {:induction false} WildInOrder(all: Subs)
    requires OldestFirst(all)
    ensures OldestFirst(WildOf(all)) && forall s :: s in WildOf(all) ==> s in all && Wild(s)
    decreases |all|
  {
    if all != [] {
      var front, s := all[..|all| - 1], all[|all| - 1];
      WildInOrder(front);
      SnocInOrder(all, WildOf(front), s);
    }
  }

  lemma {:induction false} MatchingInOrder(subs: Subs, topic: string)
    requires OldestFirst(subs)
    ensures OldestFirst(Matching(subs, topic)) && forall s :: s in Matching(subs, topic) ==> s in subs
    decreases |subs|
  {
    if subs != [] {
      var front, s := subs[..|subs| - 1], subs[|subs| - 1];
      MatchingInOrder(front, topic);
      SnocInOrder(subs, Matching(front, topic), s);
    }
  }

  lemma {:induction false} WithoutInOrder(subs: Subs, id: nat)
    requires OldestFirst(subs)
    ensures OldestFirst(Without(subs, id)) && forall s :: s in Without(subs, id) ==> s in subs
    decreases |subs|
  {
    if subs != [] {
      var front, s := subs[..|subs| - 1], subs[|subs| - 1];
      WithoutInOrder(front, id);
      SnocInOrder(subs, Without(front, id), s);
    }
  }

  /** All exact subscriptions fire before all wildcards, each of the two groups from the oldest to the youngest. */
  lemma FiredInOrder(all: Subs, topic: string, i: nat, j: nat)
    requires OldestFirst(all) && i < j < |Fired(all, topic)|
    ensures var a, b := Fired(all, topic)[i], Fired(all, topic)[j];
            if Wild(a) == Wild(b) then a.id < b.id else !Wild(a)
  {
    ExactInOrder(all, topic);
    WildInOrder(all);
    MatchingInOrder(WildOf(all), topic);
    var exact, wild := ExactOf(all, topic), Matching(WildOf(all), topic);
    assert i < |exact| ==> Fired(all, topic)[i] == exact[i] && exact[i] in exact;
    assert j < |exact| ==> exact[j] in exact;
    assert i >= |exact| ==> wild[i - |exact|] in wild;
    assert j >= |exact| ==> wild[j - |exact|] in wild;
  }

  // ---------------------------------------------------------------- in place

  class Router {
    var exactSubs: map<string, Subs>
    var wildcardSubs: Subs
    var nextId: nat
    /** All live subscriptions, oldest first. */
    ghost var all: Subs

    ghost predicate Valid()
      reads this
    {
      Indexed(exactSubs, all) && wildcardSubs == WildOf(all) && OldestFirst(all) && forall s :: s in all ==> s.id < nextId
    }

    constructor ()
      ensures Valid() && all == [] && nextId == 1
    {
      exactSubs, wildcardSubs, nextId, all := map[], [], 1, [];
    }

    method AddSubscription(pattern: string) returns (id: nat)
      requires Valid()
      modifies this
      ensures Valid() && id == old(nextId) && all == old(all) + [Subscription(id, pattern)]
      ensures forall s :: s in old(all) ==> s.id != id
    {
      id := nextId;
      nextId := nextId + 1;
      var s := Subscription(id, pattern);
      IndexedAdd(exactSubs, all, s);
      ExactSnoc(all, s, pattern);
      if IsWild(pattern) {
        wildcardSubs := wildcardSubs + [s];
      } else {
        exactSubs := exactSubs[pattern := (if pattern in exactSubs then exactSubs[pattern] else []) + [s]];
      }
      NewestLast(all, s);
      all := all + [s];
    }

    method RemoveSubscription(id: nat)
      requires Valid()
      modifies this`exactSubs, this`wildcardSubs, this`all
      ensures Valid() && all == Without(old(all), id)
    {
      exactSubs := EraseAll(exactSubs, all, id);
      wildcardSubs := Erase(wildcardSubs, id);
      WildWithout(all, id);
      WithoutInOrder(all, id);
      forall s | s in Without(all, id) ensures s in all { WithoutIff(all, id, s); }
      all := Without(all, id);
    }

    /** Collects the callbacks to fire. */
    method Route(topic: string) returns (fired: Subs)
      requires Valid()
      ensures fired == Fired(all, topic)
    {
      fired := [];
      if topic in exactSubs { fired := exactSubs[topic]; }
      assert fired == ExactOf(all, topic);
      fired := AppendMatching(fired, wildcardSubs, topic);
    }

    method HasSubscribers(topic: string) returns (yes: bool)
      requires Valid()
      ensures yes <==> Fired(all, topic) != []
    {
      if topic in exactSubs && exactSubs[topic] != [] { return true; }
      assert ExactOf(all, topic) == [];
      for i := 0 to |wildcardSubs|
        invariant Matching(wildcardSubs[..i], topic) == []
      {
        assert wildcardSubs[..i + 1] == wildcardSubs[..i] + [wildcardSubs[i]];
        MatchingSnoc(wildcardSubs[..i], wildcardSubs[i], topic);
        var ok := MatchTopic(wildcardSubs[i].pattern, topic);
        if ok {
          FiredIff(all, topic, wildcardSubs[i]);
          WildIff(all, wildcardSubs[i]);
          return true;
        }
      }
      assert wildcardSubs[..|wildcardSubs|] == wildcardSubs;
      return false;
    }

    /** The patterns to announce. */
    method AllTopics() returns (topics: seq<string>)
      requires Valid()
      ensures forall p :: p in topics <==> Announces(all, p)
    {
      topics := ExactTopics(exactSubs, all);
      for i := 0 to |wildcardSubs|
        invariant forall p :: p in topics <==> AnnouncesExact(all, p) || HasPattern(wildcardSubs[..i], p)
      {
        assert wildcardSubs[..i + 1] == wildcardSubs[..i] + [wildcardSubs[i]];
        topics := topics + [wildcardSubs[i].pattern];
      }
      assert wildcardSubs[..|wildcardSubs|] == WildOf(all);
      forall p ensures p in topics <==> Announces(all, p) {
        AnnouncesWild(all, p);
      }
    }
  }

  /** The index holds the exact subscriptions of every topic, in order. */
  ghost predicate Indexed(index: map<string, Subs>, all: Subs) {
    forall t :: (if t in index then index[t] else []) == ExactOf(all, t)
  }

  lemma IndexedAdd(index: map<string, Subs>, all: Subs, s: Subscription)
    requires Indexed(index, all)
    ensures Wild(s) ==> Indexed(index, all + [s])
    ensures !Wild(s) ==> Indexed(index[s.pattern := (if s.pattern in index then index[s.pattern] else []) + [s]], all + [s])
  {
    forall t ensures ExactOf(all + [s], t) == if !Wild(s) && s.pattern == t then ExactOf(all, t) + [s] else ExactOf(all, t) {
      ExactSnoc(all, s, t);
    }
  }

  method AppendMatching(before: Subs, subs: Subs, topic: string) returns (r: Subs)
    ensures r == before + Matching(subs, topic)
  {
    r := before;
    for i := 0 to |subs|
      invariant r == before + Matching(subs[..i], topic)
    {
      assert subs[..i + 1] == subs[..i] + [subs[i]];
      MatchingSnoc(subs[..i], subs[i], topic);
      var ok := MatchTopic(subs[i].pattern, topic);
      if ok { r := r + [subs[i]]; }
    }
    assert subs[..|subs|] == subs;
  }

  /** Drops the entries with this id from one vector. */
  method Erase(subs: Subs, id: nat) returns (r: Subs)
    ensures r == Without(subs, id)
  {
    r := [];
    for i := 0 to |subs|
      invariant r == Without(subs[..i], id)
    {
      assert subs[..i + 1] == subs[..i] + [subs[i]];
      WithoutSnoc(subs[..i], subs[i], id);
      if subs[i].id != id { r := r + [subs[i]]; }
    }
    assert subs[..|subs|] == subs;
  }

  method EraseAll(index: map<string, Subs>, ghost all: Subs, id: nat) returns (r: map<string, Subs>)
    requires Indexed(index, all)
    ensures Indexed(r, Without(all, id))
  {
    r := index;
    var todo := index.Keys;
    while todo != {}
      invariant todo <= index.Keys == r.Keys
      invariant forall t :: t in r ==> r[t] == if t in todo then index[t] else Without(index[t], id)
      decreases |todo|
    {
      var t :| t in todo;
      var left := Erase(r[t], id);
      r := r[t := left];
      todo := todo - {t};
    }
    forall t ensures (if t in r then r[t] else []) == ExactOf(Without(all, id), t) {
      ExactWithout(all, id, t);
    }
  }

  // ---------------------------------------------------------------- announcing

  predicate AnnouncesExact(all: Subs, p: string) {
    ExactOf(all, p) != []
  }

  ghost predicate HasPattern(subs: Subs, p: string) {
    exists s :: s in subs && s.pattern == p
  }

  /** Some live subscription has this pattern. */
  ghost predicate Announces(all: Subs, p: string) {
    HasPattern(all, p)
  }

  lemma {:induction false} WildIff(all: Subs, s: Subscription)
    ensures s in WildOf(all) <==> s in all && Wild(s)
    decreases |all|
  {
    if all != [] {
      var front := all[..|all| - 1];
      WildIff(front, s);
      assert s in all <==> s in front || s == all[|all| - 1];
    }
  }

  lemma {:induction false} ExactIff(all: Subs, topic: string, s: Subscription)
    ensures s in ExactOf(all, topic) <==> s in all && !Wild(s) && s.pattern == topic
    decreases |all|
  {
    if all != [] {
      var front := all[..|all| - 1];
      ExactIff(front, topic, s);
      assert s in all <==> s in front || s == all[|all| - 1];
    }
  }

  lemma AnnouncesWild(all: Subs, p: string)
    ensures Announces(all, p) <==> AnnouncesExact(all, p) || HasPattern(WildOf(all), p)
  {
    if Announces(all, p) {
      var s :| s in all && s.pattern == p;
      WildIff(all, s);
      ExactIff(all, p, s);
    }
    if AnnouncesExact(all, p) { ExactIff(all, p, ExactOf(all, p)[0]); }
    if HasPattern(WildOf(all), p) {
      var s :| s in WildOf(all) && s.pattern == p;
      WildIff(all, s);
    }
  }

  /** The topics with a nonempty vector, in whatever order the index lists them. */
  method ExactTopics(index: map<string, Subs>, ghost all: Subs) returns (topics: seq<string>)
    requires Indexed(index, all)
    ensures forall p :: p in topics <==> AnnouncesExact(all, p)
  {
    topics := [];
    var todo := index.Keys;
    while todo != {}
      invariant todo <= index.Keys
      invariant forall p :: p in topics <==> p in index && p !in todo && index[p] != []
      decreases |todo|
    {
      var t :| t in todo;
      if index[t] != [] { topics := topics + [t]; }
      todo := todo - {t};
    }
  }

  // ---------------------------------------------------------------- the publisher's filter

  /** The loop over a peer's announced topics. */
  method SelectsPeer(announced: seq<string>, topic: string) returns (yes: bool)
    ensures yes <==> Selects(announced, topic)
  {
    yes := false;
    for i := 0 to |announced|
      invariant !yes && !Selects(announced[..i], topic)
    {
      var ok := MatchTopic(announced[i], topic);
      if ok || announced[i] == topic {
        assert Chosen(announced[i], topic);
        return true;
      }
      assert !Chosen(announced[i], topic);
      assert forall p :: p in announced[..i + 1] ==> p in announced[..i] || p == announced[i];
    }
    assert announced[..|announced|] == announced;
  }

  predicate Selects(announced: seq<string>, topic: string) {
    exists p :: p in announced && Chosen(p, topic)
  }

  predicate Chosen(p: string, topic: string) {
    MatchWildcard(p, topic) || p == topic
  }

  /** An exact subscription to the same name up to a final '/': selected by the filter, not wanted by the router. */
  predicate OffBySlash(s: Subscription, topic: string) {
    !Wild(s) && s.pattern != topic && Trimmed(s.pattern) == Trimmed(topic)
  }

  lemma FilterOfOne(s: Subscription, topic: string)
    ensures Chosen(s.pattern, topic) <==>
              Wants(s, topic) || OffBySlash(s, topic) || (Wild(s) && s.pattern == topic)
  {
    if !Wild(s) { ExactPattern(s.pattern, topic); }
  }

  /** No subscriber is missed: whenever the peer's router would fire, the publisher selects the peer. */
  lemma FilterMissesNone(all: Subs, announced: seq<string>, topic: string)
    requires forall p :: p in announced <==> Announces(all, p)
    requires Fired(all, topic) != []
    ensures Selects(announced, topic)
  {
    var s := Fired(all, topic)[0];
    FiredIff(all, topic, s);
    assert s.pattern in announced;
  }

  /** And exactly when a peer is selected though nobody there wants the topic. */
  lemma FilterExact(all: Subs, announced: seq<string>, topic: string)
    requires forall p :: p in announced <==> Announces(all, p)
    ensures Selects(announced, topic) <==>
              Fired(all, topic) != [] || exists s :: s in all && (OffBySlash(s, topic) || (Wild(s) && s.pattern == topic))
  {
    if Selects(announced, topic) {
      var p :| p in announced && Chosen(p, topic);
      var s :| s in all && s.pattern == p;
      FilterOfOne(s, topic);
      FiredIff(all, topic, s);
    }
    if Fired(all, topic) != [] { FilterMissesNone(all, announced, topic); }
    forall s | s in all && (OffBySlash(s, topic) || (Wild(s) && s.pattern == topic))
      ensures Selects(announced, topic)
    {
      FilterOfOne(s, topic);
      assert s.pattern in announced;
    }
  }
}
