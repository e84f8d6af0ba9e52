/**
  The per-actor projection of `update()` (module/logic.js:43-55): the adapter's
  details for the actor, when the call succeeds, overlaid with `shortestName` and
  `isHidden`. A record is a JavaScript object, so it is a map from property names
  to values, and the object spread `{...details, shortestName, isHidden}` is map
  update in that order: the two computed properties win over details of the
  same name.
 */
module Projection {

  import opened Wrappers
  import opened Roster

  /** A property value of a record (numbers are integers here). */
  datatype FieldValue = Num(n: int) | Text(s: string) | Flag(b: bool)

  type Record = map<string, FieldValue>

  const ShortestNameKey: string := "shortestName"
  const IsHiddenKey: string := "isHidden"

  /** The characters JavaScript's regular-expression class `\s` matches: the
      ECMAScript WhiteSpace and LineTerminator characters. */
  predicate IsWhitespace(c: char) {
    || c == '\t' || c == '\n' || c == '\U{000B}' || c == '\U{000C}' || c == '\r' || c == ' '
    || c == '\U{00A0}' || c == '\U{1680}' || ('\U{2000}' <= c <= '\U{200A}')
    || c == '\U{2028}' || c == '\U{2029}' || c == '\U{202F}' || c == '\U{205F}'
    || c == '\U{3000}' || c == '\U{FEFF}'
  }

  /** `name.split(/\s/).shift()`: the part of the name before its first whitespace
      character; the whole name when it has none, the empty string when it starts
      with one. */
  function ShortestName(name: string): (r: string)
    ensures r <= name
    ensures forall c | c in r :: !IsWhitespace(c)
    ensures r == name || IsWhitespace(name[|r|])
    ensures |name| > 0 && IsWhitespace(name[0]) ==> r == ""
    decreases |name|
  {
    if name == "" then ""
    else if IsWhitespace(name[0]) then ""
    else [name[0]] + ShortestName(name[1..])
  }

  /** When position `i` holds the name's first whitespace character, the short name
      is exactly the part before it. */
  lemma {:induction false} ShortestNameUpTo(name: string, i: nat)
    requires i < |name| && IsWhitespace(name[i])
    requires forall j | 0 <= j < i :: !IsWhitespace(name[j])
    ensures ShortestName(name) == name[..i]
    decreases i
  {
    if i > 0 {
      ShortestNameUpTo(name[1..], i - 1);
      assert name[..i] == [name[0]] + name[1..][..i - 1];
    }
  }

  /** The record for one actor. `details` is the outcome of the adapter's
      `getActorDetails`: `None` when the call threw, and then nothing is merged. */
  function ProjectActor(actor: Actor, hidden: seq<string>, details: Option<Record>): (r: Record)
    ensures details.None? ==> r.Keys == {ShortestNameKey, IsHiddenKey}
    ensures details.Some? ==> r.Keys == details.value.Keys + {ShortestNameKey, IsHiddenKey}
    ensures details.Some? ==>
      forall k | k in details.value && k != ShortestNameKey && k != IsHiddenKey :: r[k] == details.value[k]
    ensures r[ShortestNameKey] == Text(ShortestName(actor.name))
    ensures r[IsHiddenKey] == Flag(actor.id in hidden)
  {
    var merged := if details.Some? then details.value else map[];
    merged[ShortestNameKey := Text(ShortestName(actor.name))][IsHiddenKey := Flag(actor.id in hidden)]
  }

  /** The `map` over the shown actors: one record per actor, in order, whether or not
      the adapter call succeeded for it. */
  function Project(actors: seq<Actor>, hidden: seq<string>, getActorDetails: Actor -> Option<Record>): (r: seq<Record>)
    ensures |r| == |actors|
    ensures forall i | 0 <= i < |actors| ::
      && ShortestNameKey in r[i] && IsHiddenKey in r[i]
      && r[i][IsHiddenKey] == Flag(actors[i].id in hidden)
      && r[i][ShortestNameKey] == Text(ShortestName(actors[i].name))
      && (getActorDetails(actors[i]).None? ==> r[i].Keys == {ShortestNameKey, IsHiddenKey})
      && (getActorDetails(actors[i]).Some? ==>
            r[i].Keys == getActorDetails(actors[i]).value.Keys + {ShortestNameKey, IsHiddenKey})
  {
    seq(|actors|, i requires 0 <= i < |actors| => ProjectActor(actors[i], hidden, getActorDetails(actors[i])))
  }
}
