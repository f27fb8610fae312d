/**
 * Reordering seen from the result: which field stands before which, and which of several
 * headers of one name is kept.
 */
module FieldOrder {
  import opened Objects
  import opened Text
  import opened CliFingerprints

  // ------------------------------------------------------------------- order of fields

  /** The first place at which an order mentions a name; its length when it never does. */
  function Rank(order: seq<string>, name: string, fold: string -> string): (r: nat)
    ensures r <= |order|
    ensures r < |order| ==> fold(order[r]) == fold(name)
    ensures forall k | 0 <= k < r :: fold(order[k]) != fold(name)
  {
    if order == [] || fold(order[0]) == fold(name) then 0 else 1 + Rank(order[1..], name, fold)
  }

  /** One field goes before another: it is mentioned earlier, or neither is mentioned and it stood before the other. */
  predicate Before<V>(order: seq<string>, fields: Fields<V>, a: string, b: string, fold: string -> string) {
    var (r, q) := (Rank(order, a, fold), Rank(order, b, fold));
    r < q || (r == q == |order| && Position(fields, a, fold) < Position(fields, b, fold))
  }

  lemma PositionOf<V>(fields: Fields<V>, i: nat, fold: string -> string)
    requires Unique(fields, fold) && i < |fields|
    ensures Position(fields, fields[i].0, fold) == i
  {
  }

  lemma PositionWithout<V>(fields: Fields<V>, i: nat, name: string, fold: string -> string)
    requires Unique(fields, fold) && i < |fields| && fold(name) != fold(fields[i].0)
    ensures
      var p := Position(fields, name, fold);
      Position(Without(fields, i), name, fold) == if p < i then p else p - 1
  {
    var p := Position(fields, name, fold);
    UniqueWithout(fields, i, fold);
    if p >= 0 {
      var k := if p < i then p else p - 1;
      assert Without(fields, i)[k] == fields[p];
      PositionSame(Without(fields, i), k, name, fold);
    } else {
      StillMissing(fields, i, name, fold);
    }
  }

  lemma StillMissing<V>(fields: Fields<V>, i: nat, name: string, fold: string -> string)
    requires i < |fields| && Position(fields, name, fold) < 0
    ensures Position(Without(fields, i), name, fold) == -1
  {
    var rest := Without(fields, i);
    forall k | 0 <= k < |rest| ensures fold(rest[k].0) != fold(name) {
      assert rest[k] == fields[if k < i then k else k + 1];
    }
  }

  lemma PositionSame<V>(fields: Fields<V>, k: nat, name: string, fold: string -> string)
    requires Unique(fields, fold) && k < |fields| && fold(fields[k].0) == fold(name)
    ensures Position(fields, name, fold) == k
  {
  }

  lemma RankTail(order: seq<string>, name: string, fold: string -> string)
    requires order != [] && fold(order[0]) != fold(name)
    ensures Rank(order, name, fold) == 1 + Rank(order[1..], name, fold)
  {
  }

  /** A name that is kept among the rest keeps its place relative to the others. */
  lemma BeforeTail<V>(order: seq<string>, fields: Fields<V>, a: string, b: string, fold: string -> string)
    requires Unique(fields, fold) && order != []
    requires fold(a) != fold(order[0]) && fold(b) != fold(order[0])
    ensures
      var i := Position(fields, order[0], fold);
      Before(order[1..], if i < 0 then fields else Without(fields, i), a, b, fold) ==> Before(order, fields, a, b, fold)
  {
    RankTail(order, a, fold);
    RankTail(order, b, fold);
    var i := Position(fields, order[0], fold);
    if i >= 0 {
      PositionWithout(fields, i, a, fold);
      PositionWithout(fields, i, b, fold);
    }
  }

  lemma PlacedAreFields<V>(order: seq<string>, fields: Fields<V>, fold: string -> string, k: nat)
    requires k < |Place(order, fields, fold)|
    ensures Place(order, fields, fold)[k] in fields
  {
    PlacePermutes(order, fields, fold);
    assert Place(order, fields, fold)[k] in multiset(fields);
  }

  /** The fields left after the first mention. */
  function Left<V>(order: seq<string>, fields: Fields<V>, fold: string -> string): Fields<V>
    requires order != []
  {
    var i := Position(fields, order[0], fold);
    if i < 0 then fields else Without(fields, i)
  }

  /** The field the order mentions first, if there is one. */
  function First<V>(order: seq<string>, fields: Fields<V>, fold: string -> string): Fields<V>
    requires order != []
  {
    var i := Position(fields, order[0], fold);
    if i < 0 then [] else [fields[i]]
  }

  lemma PlaceFirst<V>(order: seq<string>, fields: Fields<V>, fold: string -> string)
    requires order != []
    ensures Place(order, fields, fold) ==
              First(order, fields, fold) + Place(order[1..], Left(order, fields, fold), fold)
  {
  }

  lemma MentionedFirst<V>(order: seq<string>, fields: Fields<V>, b: string, fold: string -> string)
    requires order != [] && Position(fields, order[0], fold) >= 0 && fold(b) != fold(order[0])
    ensures Before(order, fields, fields[Position(fields, order[0], fold)].0, b, fold)
  {
  }

  /** Every field is in this relation to the later ones. */
  ghost predicate Sorted<V>(placed: Fields<V>, before: (string, string) -> bool) {
    forall k, l | 0 <= k < l < |placed| :: before(placed[k].0, placed[l].0)
  }

  lemma SortedConcat<V>(first: Fields<V>, rest: Fields<V>, before: (string, string) -> bool)
    requires |first| <= 1 && Sorted(rest, before)
    requires forall l | 0 <= l < |rest| :: |first| == 1 ==> before(first[0].0, rest[l].0)
    ensures Sorted(first + rest, before)
  {
    assert first == [] ==> first + rest == rest;
  }

  /** Every field goes before the later ones. */
  ghost predicate Ranked<V>(order: seq<string>, fields: Fields<V>, placed: Fields<V>, fold: string -> string) {
    Sorted(placed, (a, b) => Before(order, fields, a, b, fold))
  }

  ghost predicate NoneNamed<V>(rest: Fields<V>, name: string, fold: string -> string) {
    forall k | 0 <= k < |rest| :: fold(rest[k].0) != fold(name)
  }

  lemma RankedCons<V>(order: seq<string>, fields: Fields<V>, rest: Fields<V>, fold: string -> string)
    requires Unique(fields, fold) && order != [] && NoneNamed(rest, order[0], fold)
    requires Ranked(order[1..], Left(order, fields, fold), rest, fold)
    ensures Ranked(order, fields, First(order, fields, fold) + rest, fold)
  {
    var first := First(order, fields, fold);
    var before := (a, b) => Before(order, fields, a, b, fold);
    forall l | 0 <= l < |rest| ensures |first| == 1 ==> before(first[0].0, rest[l].0) {
      if |first| == 1 {
        MentionedFirst(order, fields, rest[l].0, fold);
      }
    }
    forall k, l | 0 <= k < l < |rest| ensures before(rest[k].0, rest[l].0) {
      RankedLater(order, fields, rest, k, l, fold);
    }
    SortedConcat(first, rest, before);
  }

  lemma RankedLater<V>(order: seq<string>, fields: Fields<V>, rest: Fields<V>, k: nat, l: nat, fold: string -> string)
    requires Unique(fields, fold) && order != [] && NoneNamed(rest, order[0], fold) && k < l < |rest|
    requires Ranked(order[1..], Left(order, fields, fold), rest, fold)
    ensures Before(order, fields, rest[k].0, rest[l].0, fold)
  {
    assert Before(order[1..], Left(order, fields, fold), rest[k].0, rest[l].0, fold);
    BeforeTail(order, fields, rest[k].0, rest[l].0, fold);
  }

  lemma RankedAsIs<V>(fields: Fields<V>, fold: string -> string)
    requires Unique(fields, fold)
    ensures Ranked([], fields, fields, fold)
  {
    forall k | 0 <= k < |fields| ensures Position(fields, fields[k].0, fold) == k {
      PositionOf(fields, k, fold);
    }
  }

  /**
   * In the result every field goes before the later ones: mentioned fields in the order of
   * their first mention, then the rest in their original order.
   */
  lemma {:induction false} PlaceIsRanked<V>(order: seq<string>, fields: Fields<V>, fold: string -> string)
    requires Unique(fields, fold)
    ensures Ranked(order, fields, Place(order, fields, fold), fold)
    decreases |order|
  {
    if order == [] {
      RankedAsIs(fields, fold);
    } else {
      var left := Left(order, fields, fold);
      LeftUnique(order, fields, fold);
      PlaceIsRanked(order[1..], left, fold);
      RestIsOther(order, fields, fold);
      RankedCons(order, fields, Place(order[1..], left, fold), fold);
      PlaceFirst(order, fields, fold);
    }
  }

  lemma LeftUnique<V>(order: seq<string>, fields: Fields<V>, fold: string -> string)
    requires Unique(fields, fold) && order != []
    ensures Unique(Left(order, fields, fold), fold)
  {
    var i := Position(fields, order[0], fold);
    if i >= 0 {
      UniqueWithout(fields, i, fold);
    }
  }

  lemma RestIsOther<V>(order: seq<string>, fields: Fields<V>, fold: string -> string)
    requires Unique(fields, fold) && order != []
    ensures NoneNamed(Place(order[1..], Left(order, fields, fold), fold), order[0], fold)
  {
    var left := Left(order, fields, fold);
    var rest := Place(order[1..], left, fold);
    forall k | 0 <= k < |rest| ensures fold(rest[k].0) != fold(order[0]) {
      PlacedAreFields(order[1..], left, fold, k);
      OtherName(order, fields, left, rest[k], fold);
    }
  }

  lemma OtherName<V>(order: seq<string>, fields: Fields<V>, left: Fields<V>, f: (string, V), fold: string -> string)
    requires Unique(fields, fold) && order != [] && f in left
    requires var i := Position(fields, order[0], fold); left == if i < 0 then fields else Without(fields, i)
    ensures fold(f.0) != fold(order[0])
  {
    var i := Position(fields, order[0], fold);
    if i >= 0 {
      UniqueWithout(fields, i, fold);
    } else {
      var k :| 0 <= k < |fields| && fields[k] == f;
    }
  }

  // --------------------------------------------------------- headers of the same name

  /** No later header has the same name, up to case. */
  ghost predicate IsLast<V>(headers: Fields<V>, i: nat) {
    i < |headers| && forall j | i < j < |headers| :: Lower(headers[j].0) != Lower(headers[i].0)
  }

  /** The field is the last header of its name. */
  ghost predicate FromLast<V>(headers: Fields<V>, f: (string, V)) {
    exists i: nat :: IsLast(headers, i) && f == headers[i]
  }

  ghost predicate KeepsLast<V>(headers: Fields<V>, kept: Fields<V>) {
    forall k | 0 <= k < |kept| :: FromLast(headers, kept[k])
  }

  ghost predicate KeepsAll<V>(headers: Fields<V>, kept: Fields<V>) {
    forall i | 0 <= i < |headers| :: Position(kept, headers[i].0, Lower) >= 0
  }

  ghost predicate KeepsOrder<V>(headers: Fields<V>, kept: Fields<V>) {
    forall k, l | 0 <= k < l < |kept| ::
      0 <= Position(headers, kept[k].0, Lower) < Position(headers, kept[l].0, Lower)
  }

  /** Every name is there once, with its last header, in the order of first appearance. */
  ghost predicate Collapsed<V>(headers: Fields<V>, kept: Fields<V>) {
    Unique(kept, Lower) && KeepsLast(headers, kept) && KeepsAll(headers, kept) && KeepsOrder(headers, kept)
  }

  lemma {:induction false} CollapseSnoc<V>(found: Fields<V>, headers: Fields<V>, h: (string, V))
    ensures CollapseInto(found, headers + [h]) == Put(CollapseInto(found, headers), h, Lower)
    decreases |headers|
  {
    if headers == [] {
      assert headers + [h] == [h] && [h][1..] == [];
    } else {
      assert (headers + [h])[0] == headers[0] && (headers + [h])[1..] == headers[1..] + [h];
      CollapseSnoc(Put(found, headers[0], Lower), headers[1..], h);
    }
  }

  lemma {:induction false} PositionAppend<V>(headers: Fields<V>, h: (string, V), name: string)
    ensures Position(headers + [h], name, Lower) ==
              if Position(headers, name, Lower) >= 0 then Position(headers, name, Lower)
              else if Lower(h.0) == Lower(name) then |headers| else -1
  {
    if headers == [] {
      assert headers + [h] == [h] && [h][1..] == [];
    } else {
      assert (headers + [h])[0] == headers[0] && (headers + [h])[1..] == headers[1..] + [h];
      PositionAppend(headers[1..], h, name);
    }
  }

  lemma LastAppend<V>(headers: Fields<V>, h: (string, V), f: (string, V))
    requires FromLast(headers, f) && Lower(f.0) != Lower(h.0)
    ensures FromLast(headers + [h], f)
  {
    var i: nat :| IsLast(headers, i) && f == headers[i];
    var all := headers + [h];
    assert all[i] == f && forall j | i < j < |headers| :: all[j] == headers[j];
    assert IsLast(all, i);
  }

  lemma NewIsLast<V>(headers: Fields<V>, h: (string, V))
    ensures FromLast(headers + [h], h)
  {
    assert IsLast(headers + [h], |headers|);
  }

  lemma SameSpot<V>(fields: Fields<V>, a: string, b: string)
    requires Lower(a) == Lower(b)
    ensures Position(fields, a, Lower) == Position(fields, b, Lower)
  {
  }

  lemma KeptIsThere<V>(headers: Fields<V>, f: (string, V))
    requires FromLast(headers, f)
    ensures Position(headers, f.0, Lower) >= 0
  {
    var i: nat :| IsLast(headers, i) && f == headers[i];
  }

  lemma NewIsNew<V>(headers: Fields<V>, kept: Fields<V>, h: (string, V))
    requires KeepsAll(headers, kept) && Position(kept, h.0, Lower) < 0
    ensures Position(headers, h.0, Lower) < 0
  {
    var q := Position(headers, h.0, Lower);
    if q >= 0 {
      SameSpot(kept, headers[q].0, h.0);
    }
  }

  lemma PutNew<V>(headers: Fields<V>, kept: Fields<V>, h: (string, V))
    requires Collapsed(headers, kept) && Position(kept, h.0, Lower) < 0
    ensures Collapsed(headers + [h], kept + [h])
  {
    NewIsNew(headers, kept, h);
    NewKeepsLast(headers, kept, h);
    NewKeepsAll(headers, kept, h);
    NewGoesLast(headers, kept, h);
  }

  lemma NewKeepsLast<V>(headers: Fields<V>, kept: Fields<V>, h: (string, V))
    requires KeepsLast(headers, kept) && Position(kept, h.0, Lower) < 0
    ensures KeepsLast(headers + [h], kept + [h])
  {
    var next := kept + [h];
    forall k | 0 <= k < |next| ensures FromLast(headers + [h], next[k]) {
      if k < |kept| {
        assert next[k] == kept[k] && Lower(kept[k].0) != Lower(h.0);
        LastAppend(headers, h, kept[k]);
      } else {
        NewIsLast(headers, h);
      }
    }
  }

  lemma NewKeepsAll<V>(headers: Fields<V>, kept: Fields<V>, h: (string, V))
    requires KeepsAll(headers, kept)
    ensures KeepsAll(headers + [h], kept + [h])
  {
    var all := headers + [h];
    forall i | 0 <= i < |all| ensures Position(kept + [h], all[i].0, Lower) >= 0 {
      PositionAppend(kept, h, all[i].0);
      assert i < |headers| ==> all[i] == headers[i];
    }
  }

  lemma NewGoesLast<V>(headers: Fields<V>, kept: Fields<V>, h: (string, V))
    requires KeepsOrder(headers, kept) && KeepsLast(headers, kept) && Position(headers, h.0, Lower) < 0
    ensures KeepsOrder(headers + [h], kept + [h])
  {
    var all, next := headers + [h], kept + [h];
    PositionAppend(headers, h, h.0);
    forall k | 0 <= k < |kept|
      ensures Position(all, next[k].0, Lower) == Position(headers, kept[k].0, Lower) >= 0
    {
      KeptIsThere(headers, kept[k]);
      PositionAppend(headers, h, kept[k].0);
    }
  }

  lemma PutAgain<V>(headers: Fields<V>, kept: Fields<V>, h: (string, V), at: nat)
    requires Collapsed(headers, kept) && Position(kept, h.0, Lower) == at
    ensures Collapsed(headers + [h], kept[at := h])
  {
    AgainUnique(kept, h, at);
    AgainKeepsLast(headers, kept, h, at);
    AgainKeepsAll(headers, kept, h, at);
    SameOrder(headers, kept, h, at);
  }

  lemma AgainUnique<V>(kept: Fields<V>, h: (string, V), at: nat)
    requires Unique(kept, Lower) && at < |kept| && Lower(kept[at].0) == Lower(h.0)
    ensures Unique(kept[at := h], Lower)
  {
    var next := kept[at := h];
    assert forall k | 0 <= k < |kept| :: Lower(next[k].0) == Lower(kept[k].0);
  }

  lemma AgainKeepsLast<V>(headers: Fields<V>, kept: Fields<V>, h: (string, V), at: nat)
    requires KeepsLast(headers, kept) && Unique(kept, Lower) && at < |kept| && Lower(kept[at].0) == Lower(h.0)
    ensures KeepsLast(headers + [h], kept[at := h])
  {
    var next := kept[at := h];
    forall k | 0 <= k < |next| ensures FromLast(headers + [h], next[k]) {
      if k == at {
        NewIsLast(headers, h);
      } else {
        assert next[k] == kept[k] && Lower(kept[k].0) != Lower(kept[at].0);
        LastAppend(headers, h, kept[k]);
      }
    }
  }

  lemma AgainKeepsAll<V>(headers: Fields<V>, kept: Fields<V>, h: (string, V), at: nat)
    requires KeepsAll(headers, kept) && Position(kept, h.0, Lower) == at
    ensures KeepsAll(headers + [h], kept[at := h])
  {
    var all := headers + [h];
    forall i | 0 <= i < |all| ensures Position(kept[at := h], all[i].0, Lower) >= 0 {
      assert i < |headers| ==> all[i] == headers[i];
      PositionKept(kept, at, h, all[i].0);
    }
  }

  lemma PositionKept<V>(kept: Fields<V>, at: nat, h: (string, V), name: string)
    requires at < |kept| && Lower(kept[at].0) == Lower(h.0) && Position(kept, name, Lower) >= 0
    ensures Position(kept[at := h], name, Lower) >= 0
  {
    var p := Position(kept, name, Lower);
    assert Lower(kept[at := h][p].0) == Lower(kept[p].0);
  }

  lemma SameOrder<V>(headers: Fields<V>, kept: Fields<V>, h: (string, V), at: nat)
    requires KeepsOrder(headers, kept) && KeepsLast(headers, kept)
    requires at < |kept| && Lower(kept[at].0) == Lower(h.0)
    ensures KeepsOrder(headers + [h], kept[at := h])
  {
    var all, next := headers + [h], kept[at := h];
    forall k | 0 <= k < |kept|
      ensures Position(all, next[k].0, Lower) == Position(headers, kept[k].0, Lower) >= 0
    {
      KeptIsThere(headers, kept[k]);
      assert Lower(next[k].0) == Lower(kept[k].0);
      SameSpot(headers, next[k].0, kept[k].0);
      PositionAppend(headers, h, next[k].0);
    }
  }

  /** Of several headers of one name, up to case, the last is kept, where the first stood. */
  lemma {:induction false} CollapseKeepsLast<V>(headers: Fields<V>)
    ensures Collapsed(headers, Collapse(headers))
    decreases |headers|
  {
    if headers != [] {
      var front, h := headers[..|headers| - 1], headers[|headers| - 1];
      assert headers == front + [h];
      CollapseKeepsLast(front);
      CollapseSnoc([], front, h);
      var at := Position(Collapse(front), h.0, Lower);
      if at < 0 {
        PutNew(front, Collapse(front), h);
      } else {
        PutAgain(front, Collapse(front), h, at);
      }
    }
  }
}
