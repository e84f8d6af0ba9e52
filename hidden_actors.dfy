/**
  The gamemaster's list of hidden actor ids and its toggle (module/logic.js:116):
  an id that is present is removed (every occurrence, as `filter` does), an id
  that is absent is appended.
 */
module HiddenActors {

  predicate NoDuplicates(s: seq<string>) {
    forall i, j | 0 <= i < j < |s| :: s[i] != s[j]
  }

  /** `s.filter((id) => id !== x)`. */
  function Without(s: seq<string>, x: string): (r: seq<string>)
    ensures forall y :: y in r <==> y in s && y != x
    ensures NoDuplicates(s) ==> NoDuplicates(r)
    decreases |s|
  {
    if s == [] then []
    else
      var init := s[..|s| - 1];
      var last := s[|s| - 1];
      assert s == init + [last];
      var r := Without(init, x);
      if last != x then
        assert NoDuplicates(s) ==> NoDuplicates(init) && last !in init;
        r + [last]
      else r
  }

  /** Removing an id that is absent changes nothing. */
  lemma {:induction false} WithoutAbsent(s: seq<string>, x: string)
    requires x !in s
    ensures Without(s, x) == s
    decreases |s|
  {
    if s != [] {
      var init := s[..|s| - 1];
      assert s == init + [s[|s| - 1]];
      WithoutAbsent(init, x);
    }
  }

  /** The hidden list after toggling `x`: `x` changes membership, no other id does. */
  function Toggled(hidden: seq<string>, x: string): (r: seq<string>)
    ensures (x in r) == (x !in hidden)
    ensures forall y | y != x :: y in r <==> y in hidden
  {
    if x in hidden then Without(hidden, x) else hidden + [x]
  }

  /** A duplicate-free hidden list stays duplicate-free. */
  lemma ToggledKeepsNoDuplicates(hidden: seq<string>, x: string)
    requires NoDuplicates(hidden)
    ensures NoDuplicates(Toggled(hidden, x))
  {
  }

  /** Toggling the same id twice restores every id's membership, and restores the
      list itself when the id was not hidden to begin with. (When it was, it comes
      back at the end of the list.) */
  lemma ToggleTwice(hidden: seq<string>, x: string)
    ensures forall y :: y in Toggled(Toggled(hidden, x), x) <==> y in hidden
    ensures x !in hidden ==> Toggled(Toggled(hidden, x), x) == hidden
    ensures x in hidden && NoDuplicates(hidden) ==>
      Toggled(Toggled(hidden, x), x) == Without(hidden, x) + [x]
  {
    if x !in hidden {
      calc {
        Without(hidden + [x], x);
        { assert (hidden + [x])[..|hidden|] == hidden; }
        Without(hidden, x);
        { WithoutAbsent(hidden, x); }
        hidden;
      }
    }
  }
}
