/**
  The list of actors the overview panel shows: source selection, de-duplication
  by id and filtering by the hidden list (the first half of `update()` in
  module/logic.js). JavaScript's `filter`, `map`, `flat` and `reduce` are written
  as recursion on the last element, so that the value after `k` elements is the
  function applied to the first `k` elements, as in a left fold.
 */
module Roster {

  import opened Subsequence
  import opened DisplayMode

  /** An actor as far as the panel is concerned: its id and its display name. */
  datatype Actor = Actor(id: string, name: string)

  /** An entry of the host's actor directory: the actor, whether a player owns it,
      and the actors behind its tokens that are active on the current scene. */
  datatype HostActor = HostActor(actor: Actor, hasPlayerOwner: bool, activeTokens: seq<Actor>)

  /** The ids of a list of actors, in order. */
  function Ids(s: seq<Actor>): (r: seq<string>)
    ensures |r| == |s| && forall i | 0 <= i < |s| :: r[i] == s[i].id
  {
    seq(|s|, i requires 0 <= i < |s| => s[i].id)
  }

  predicate DistinctIds(s: seq<Actor>) {
    forall i, j | 0 <= i < j < |s| :: s[i].id != s[j].id
  }

  /** The player-owned entries of the directory, in directory order. */
  function Owned(roster: seq<HostActor>): (r: seq<HostActor>)
    ensures IsSubsequence(r, roster)
    ensures forall h | h in r :: h in roster && h.hasPlayerOwner
    ensures forall h | h in roster :: h in r <==> h.hasPlayerOwner
    decreases |roster|
  {
    if roster == [] then []
    else
      var init := roster[..|roster| - 1];
      var h := roster[|roster| - 1];
      assert roster == init + [h];
      var r := Owned(init);
      if h.hasPlayerOwner then
        r + [h]
      else
        SubsequenceExtend(r, init, h);
        r
  }

  /** The actors of a list of directory entries, in order. */
  function ActorsOf(hs: seq<HostActor>): (r: seq<Actor>)
    ensures |r| == |hs| && forall i | 0 <= i < |hs| :: r[i] == hs[i].actor
    ensures forall a :: a in r <==> exists h :: h in hs && h.actor == a
  {
    var r := seq(|hs|, i requires 0 <= i < |hs| => hs[i].actor);
    assert forall h | h in hs :: h.actor in r by {
      forall h | h in hs ensures h.actor in r {
        var i :| 0 <= i < |hs| && hs[i] == h;
        assert r[i] == h.actor;
      }
    }
    r
  }

  /** The token actors of a list of directory entries, flattened one level, in order. */
  function TokenActors(hs: seq<HostActor>): (r: seq<Actor>)
    ensures forall a :: a in r <==> exists h :: h in hs && a in h.activeTokens
    ensures |hs| == 1 ==> r == hs[0].activeTokens
    decreases |hs|
  {
    if hs == [] then []
    else
      var init := hs[..|hs| - 1];
      assert hs == init + [hs[|hs| - 1]];
      assert |hs| == 1 ==> init == [];
      TokenActors(init) + hs[|hs| - 1].activeTokens
  }

  /** Flattening is in order: the token actors of two consecutive stretches of the
      directory are those of the first followed by those of the second. */
  lemma {:induction false} TokenActorsAppend(a: seq<HostActor>, b: seq<HostActor>)
    ensures TokenActors(a + b) == TokenActors(a) + TokenActors(b)
    decreases |b|
  {
    if b == [] {
      assert a + b == a;
    } else {
      var b0 := b[..|b| - 1];
      var last := b[|b| - 1];
      assert b == b0 + [last];
      assert (a + b)[..|a + b| - 1] == a + b0;
      TokenActorsAppend(a, b0);
    }
  }

  /** The list `update()` starts from: the player-owned actors in the "more" mode,
      and in every other mode the actors behind their active tokens. */
  function SourceActors(roster: seq<HostActor>, mode: int): (r: seq<Actor>)
    ensures mode == ShowMore ==>
      forall a :: a in r <==> exists h :: h in roster && h.hasPlayerOwner && h.actor == a
    ensures mode != ShowMore ==>
      forall a :: a in r <==> exists h :: h in roster && h.hasPlayerOwner && a in h.activeTokens
  {
    var owned := Owned(roster);
    assert forall h | h in roster && h.hasPlayerOwner :: h in owned;
    if mode != ShowMore then TokenActors(owned) else ActorsOf(owned)
  }

  /** De-duplication by id, as the `reduce` at module/logic.js:32 does it: an actor
      is appended to the accumulator unless an actor with its id is already there. */
  function Dedup(s: seq<Actor>): (r: seq<Actor>)
    ensures DistinctIds(r)
    ensures forall a | a in r :: a in s
    ensures forall a | a in s :: a.id in Ids(r)
    decreases |s|
  {
    if s == [] then []
    else
      var acc := Dedup(s[..|s| - 1]);
      var actor := s[|s| - 1];
      assert s == s[..|s| - 1] + [actor];
      if actor.id in Ids(acc) then acc
      else
        assert forall i | 0 <= i < |acc| :: acc[i].id == Ids(acc)[i];
        assert Ids(acc + [actor]) == Ids(acc) + [actor.id];
        acc + [actor]
  }

  /** Position `i` holds the first actor of the list with its id. */
  predicate FirstOfItsId(s: seq<Actor>, i: int)
    requires 0 <= i < |s|
  {
    forall j | 0 <= j < i :: s[j].id != s[i].id
  }

  /** Reference definition: the actors at first-occurrence positions, in list order. */
  function FirstOccurrences(s: seq<Actor>): seq<Actor>
    decreases |s|
  {
    if s == [] then []
    else FirstOccurrences(s[..|s| - 1]) + (if FirstOfItsId(s, |s| - 1) then [s[|s| - 1]] else [])
  }

  /** The result of the first-occurrence selection is a subsequence of its input. */
  lemma {:induction false} FirstOccurrencesSubsequence(s: seq<Actor>)
    ensures IsSubsequence(FirstOccurrences(s), s)
    decreases |s|
  {
    if s != [] {
      var init := s[..|s| - 1];
      var last := s[|s| - 1];
      assert s == init + [last];
      FirstOccurrencesSubsequence(init);
      if FirstOfItsId(s, |s| - 1) {
        var r := FirstOccurrences(init) + [last];
        assert r[..|r| - 1] == FirstOccurrences(init);
      } else {
        assert FirstOccurrences(s) == FirstOccurrences(init) + [];
        assert FirstOccurrences(init) + [] == FirstOccurrences(init);
        SubsequenceExtend(FirstOccurrences(init), init, last);
      }
    }
  }

  /** The `reduce` keeps exactly the first actor of each id, in first-seen order. */
  lemma {:induction false} DedupKeepsFirstOccurrences(s: seq<Actor>)
    ensures Dedup(s) == FirstOccurrences(s)
    decreases |s|
  {
    if s != [] {
      var init := s[..|s| - 1];
      var last := s[|s| - 1];
      DedupKeepsFirstOccurrences(init);
      var acc := Dedup(init);
      if last.id in Ids(acc) {
        var i :| 0 <= i < |acc| && Ids(acc)[i] == last.id;
        assert acc[i] in init;
        var j :| 0 <= j < |init| && init[j] == acc[i];
        assert s[j].id == last.id;
        assert !FirstOfItsId(s, |s| - 1);
      } else {
        forall j | 0 <= j < |s| - 1
          ensures s[j].id != last.id
        {
          assert init[j] in init;
        }
      }
    }
  }

  /** De-duplication keeps a subsequence of its input, and no id is lost. */
  lemma DedupIsSubsequence(s: seq<Actor>)
    ensures IsSubsequence(Dedup(s), s)
    ensures forall a | a in s :: exists b :: b in Dedup(s) && b.id == a.id
  {
    DedupKeepsFirstOccurrences(s);
    FirstOccurrencesSubsequence(s);
    forall a | a in s
      ensures exists b :: b in Dedup(s) && b.id == a.id
    {
      var r := Dedup(s);
      var i :| 0 <= i < |r| && Ids(r)[i] == a.id;
      assert r[i] in r;
    }
  }

  /** The actors whose membership of `hidden` is `wanted`, in order (the `filter`
      calls at module/logic.js:36 and :39). */
  function KeepByMembership(s: seq<Actor>, hidden: seq<string>, wanted: bool): (r: seq<Actor>)
    ensures IsSubsequence(r, s)
    ensures forall a | a in r :: (a.id in hidden) == wanted
    ensures forall a | a in s :: a in r <==> (a.id in hidden) == wanted
    decreases |s|
  {
    if s == [] then []
    else
      var init := s[..|s| - 1];
      var last := s[|s| - 1];
      assert s == init + [last];
      var r := KeepByMembership(init, hidden, wanted);
      if (last.id in hidden) == wanted then
        assert (r + [last])[..|r|] == r;
        r + [last]
      else
        SubsequenceExtend(r, init, last);
        r
  }

  /** The `switch` on the display mode: the hidden mode keeps the hidden actors, the
      visible mode keeps the others, and every other mode keeps the list as it is. */
  function FilterByMode(s: seq<Actor>, mode: int, hidden: seq<string>): (r: seq<Actor>)
    ensures IsSubsequence(r, s)
    ensures mode == ShowVisible ==> forall a | a in s :: a in r <==> a.id !in hidden
    ensures mode == ShowHidden ==> forall a | a in s :: a in r <==> a.id in hidden
    ensures mode == ShowVisible ==> forall a | a in r :: a.id !in hidden
    ensures mode == ShowHidden ==> forall a | a in r :: a.id in hidden
    ensures mode != ShowVisible && mode != ShowHidden ==> r == s
  {
    if mode == ShowHidden then KeepByMembership(s, hidden, true)
    else if mode == ShowVisible then KeepByMembership(s, hidden, false)
    else
      SubsequenceReflexive(s);
      s
  }

  /** A subsequence of a list with distinct ids has distinct ids. */
  lemma {:induction false} DistinctIdsSubsequence(a: seq<Actor>, b: seq<Actor>)
    requires IsSubsequence(a, b) && DistinctIds(b)
    ensures DistinctIds(a)
    decreases |b|
  {
    if a != [] {
      var a0, b0 := a[..|a| - 1], b[..|b| - 1];
      assert DistinctIds(b0);
      if a[|a| - 1] == b[|b| - 1] {
        DistinctIdsSubsequence(a0, b0);
        SubsequenceMembers(a0, b0);
        forall i | 0 <= i < |a0|
          ensures a0[i].id != a[|a| - 1].id
        {
          assert a0[i] in b0;
          var j :| 0 <= j < |b0| && b0[j] == a0[i];
          assert b[j].id != b[|b| - 1].id;
        }
      } else {
        DistinctIdsSubsequence(a, b0);
      }
    }
  }

  /** The actors the panel shows: selected, de-duplicated, then filtered by mode. */
  function ShownActors(roster: seq<HostActor>, mode: int, hidden: seq<string>): (r: seq<Actor>)
    ensures DistinctIds(r)
    ensures IsSubsequence(r, SourceActors(roster, mode))
  {
    var source := SourceActors(roster, mode);
    var unique := Dedup(source);
    var r := FilterByMode(unique, mode, hidden);
    DedupIsSubsequence(source);
    SubsequenceTransitive(r, unique, source);
    DistinctIdsSubsequence(r, unique);
    r
  }

  /** Whatever the mode, the shown actors have pairwise-distinct ids, keep the order
      of the source list, and obey the mode's hidden-list rule; in the all and "more"
      modes every id of the source list is shown exactly once. */
  lemma ShownActorsProperties(roster: seq<HostActor>, mode: int, hidden: seq<string>)
    ensures var shown := ShownActors(roster, mode, hidden);
      && DistinctIds(shown)
      && IsSubsequence(shown, SourceActors(roster, mode))
      && (mode == ShowVisible ==> forall a | a in shown :: a.id !in hidden)
      && (mode == ShowHidden ==> forall a | a in shown :: a.id in hidden)
      && (mode == ShowVisible ==>
            forall a | a in SourceActors(roster, mode) && a.id !in hidden :: exists b :: b in shown && b.id == a.id)
      && (mode == ShowHidden ==>
            forall a | a in SourceActors(roster, mode) && a.id in hidden :: exists b :: b in shown && b.id == a.id)
      && (mode != ShowVisible && mode != ShowHidden ==>
            forall a | a in SourceActors(roster, mode) :: exists b :: b in shown && b.id == a.id)
  {
    var source := SourceActors(roster, mode);
    var unique := Dedup(source);
    DedupIsSubsequence(source);
    var shown := FilterByMode(unique, mode, hidden);
    SubsequenceTransitive(shown, unique, source);
    DistinctIdsSubsequence(shown, unique);
    forall a | a in source && (mode == ShowVisible || mode == ShowHidden)
      ensures (a.id in hidden) == (mode == ShowHidden) ==> exists b :: b in shown && b.id == a.id
    {
      var i :| 0 <= i < |unique| && Ids(unique)[i] == a.id;
      assert unique[i] in unique;
    }
  }
}
