/**
 * Reordering request headers and body fields to match a native client. `Place` says where everything goes, for
 * any notion of two names being the same: case-insensitively for headers, exactly for body
 * fields. Both loops are proved against it, and its laws are proved once.
 */
module CliFingerprints {
  import opened Objects
  import opened Text

  /** The listed fields in listed order, then everything else where it was. */
  function Place<V>(order: seq<string>, fields: Fields<V>, fold: string -> string): Fields<V> {
    if order == [] then fields
    else
      var i := Position(fields, order[0], fold);
      if i < 0 then Place(order[1..], fields, fold)
      else [fields[i]] + Place(order[1..], Without(fields, i), fold)
  }

  // ------------------------------------------------------------------------- laws

  lemma WithoutBag<V>(fields: Fields<V>, i: nat)
    requires i < |fields|
    ensures multiset(fields) == multiset([fields[i]]) + multiset(Without(fields, i))
  {
    assert fields == fields[..i] + [fields[i]] + fields[i + 1..];
  }

  /** Placing loses and invents nothing. */
  lemma {:induction false} PlacePermutes<V>(order: seq<string>, fields: Fields<V>, fold: string -> string)
    ensures multiset(Place(order, fields, fold)) == multiset(fields)
    ensures |Place(order, fields, fold)| == |fields|
    decreases |order|
  {
    if order != [] {
      var i := Position(fields, order[0], fold);
      if i < 0 {
        PlacePermutes(order[1..], fields, fold);
      } else {
        PlacePermutes(order[1..], Without(fields, i), fold);
        WithoutBag(fields, i);
      }
    }
  }

  lemma SameMembers<V>(a: Fields<V>, b: Fields<V>, name: string, fold: string -> string)
    requires multiset(a) == multiset(b)
    ensures Position(a, name, fold) < 0 <==> Position(b, name, fold) < 0
  {
    forall f ensures f in a <==> f in b {
      assert f in a <==> f in multiset(a);
      assert f in b <==> f in multiset(b);
    }
    assert forall k | 0 <= k < |a| :: a[k] in a && a[k] in b;
    assert forall k | 0 <= k < |b| :: b[k] in b && b[k] in a;
  }

  /** Placing twice is placing once. */
  lemma {:induction false} PlaceIdempotent<V>(order: seq<string>, fields: Fields<V>, fold: string -> string)
    ensures Place(order, Place(order, fields, fold), fold) == Place(order, fields, fold)
    decreases |order|
  {
    if order != [] {
      var i := Position(fields, order[0], fold);
      if i < 0 {
        PlaceIdempotent(order[1..], fields, fold);
        PlacePermutes(order[1..], fields, fold);
        SameMembers(fields, Place(order[1..], fields, fold), order[0], fold);
      } else {
        var rest := Place(order[1..], Without(fields, i), fold);
        PlaceIdempotent(order[1..], Without(fields, i), fold);
        var placed := [fields[i]] + rest;
        assert Position(placed, order[0], fold) == 0;
        assert Without(placed, 0) == rest;
      }
    }
  }

  // Where everything ends up, said without the removals.

  function Folded(order: seq<string>, fold: string -> string): set<string> {
    set name | name in order :: fold(name)
  }

  /** The fields whose names are not in `names`, in their original order. */
  function Others<V>(fields: Fields<V>, names: set<string>, fold: string -> string): Fields<V> {
    if fields == [] then []
    else (if fold(fields[0].0) in names then [] else [fields[0]]) + Others(fields[1..], names, fold)
  }

  /** The field an order names first, unless it was named before. */
  function Head<V>(order: seq<string>, fields: Fields<V>, seen: set<string>, fold: string -> string): Fields<V>
    requires order != []
  {
    var i := Position(fields, order[0], fold);
    if i >= 0 && fold(order[0]) !in seen then [fields[i]] else []
  }

  /** The fields an order names, each at its first mention. */
  function Listed<V>(order: seq<string>, fields: Fields<V>, seen: set<string>, fold: string -> string): Fields<V>
    decreases |order|
  {
    if order == [] then []
    else Head(order, fields, seen, fold) + Listed(order[1..], fields, seen + {fold(order[0])}, fold)
  }

  lemma PositionCons<V>(f: (string, V), rest: Fields<V>, name: string, fold: string -> string)
    ensures Position([f] + rest, name, fold) ==
      if fold(f.0) == fold(name) then 0
      else if Position(rest, name, fold) < 0 then -1
      else Position(rest, name, fold) + 1
  {
    assert ([f] + rest)[1..] == rest;
  }

  lemma OthersCons<V>(f: (string, V), rest: Fields<V>, names: set<string>, fold: string -> string)
    ensures Others([f] + rest, names, fold) ==
      if fold(f.0) in names then Others(rest, names, fold) else [f] + Others(rest, names, fold)
  {
    assert ([f] + rest)[1..] == rest;
  }

  /** A field outside `names` is found among the others, and nothing else is. */
  lemma {:induction false} OthersPosition<V>(fields: Fields<V>, names: set<string>, name: string,
                                             fold: string -> string)
    ensures
      var (others, i) := (Others(fields, names, fold), Position(fields, name, fold));
      var j := Position(others, name, fold);
      if i >= 0 && fold(name) !in names then j >= 0 && others[j] == fields[i] else j < 0
  {
    if fields != [] {
      var f, tail := fields[0], fields[1..];
      assert fields == [f] + tail;
      OthersPosition(tail, names, name, fold);
      OthersCons(f, tail, names, fold);
      PositionCons(f, tail, name, fold);
      PositionCons(f, Others(tail, names, fold), name, fold);
    }
  }

  lemma UniqueTail<V>(f: (string, V), tail: Fields<V>, fold: string -> string)
    requires Unique([f] + tail, fold)
    ensures Unique(tail, fold) && Position(tail, f.0, fold) < 0
  {
    var fields := [f] + tail;
    assert forall i | 0 <= i < |tail| :: tail[i] == fields[i + 1] && fold(fields[0].0) != fold(fields[i + 1].0);
  }

  lemma {:induction false} NoMoreOthers<V>(fields: Fields<V>, names: set<string>, name: string, fold: string -> string)
    requires Position(fields, name, fold) < 0
    ensures Others(fields, names + {fold(name)}, fold) == Others(fields, names, fold)
  {
    if fields != [] {
      var f, tail := fields[0], fields[1..];
      assert fields == [f] + tail;
      PositionCons(f, tail, name, fold);
      NoMoreOthers(tail, names, name, fold);
    }
  }

  /** Excluding one more name removes the one field that has it. */
  lemma {:induction false} OthersWithout<V>(fields: Fields<V>, names: set<string>, name: string, fold: string -> string)
    requires Unique(fields, fold)
    ensures Others(fields, names + {fold(name)}, fold) == Remove(Others(fields, names, fold), name, fold)
  {
    if fields != [] {
      var f, tail := fields[0], fields[1..];
      assert fields == [f] + tail;
      UniqueTail(f, tail, fold);
      OthersCons(f, tail, names, fold);
      OthersCons(f, tail, names + {fold(name)}, fold);
      if fold(f.0) == fold(name) {
        NoMoreOthers(tail, names, name, fold);
        OthersPosition(tail, names, name, fold);
      } else {
        OthersWithout(tail, names, name, fold);
      }
      RemoveCons(f, Others(tail, names, fold), name, fold);
    }
  }

  /** The list without its field called `name`, if it has one. */
  function Remove<V>(fields: Fields<V>, name: string, fold: string -> string): Fields<V> {
    var i := Position(fields, name, fold);
    if i < 0 then fields else Without(fields, i)
  }

  lemma RemoveCons<V>(f: (string, V), rest: Fields<V>, name: string, fold: string -> string)
    ensures Remove([f] + rest, name, fold) == if fold(f.0) == fold(name) then rest else [f] + Remove(rest, name, fold)
  {
    PositionCons(f, rest, name, fold);
    var i := Position(rest, name, fold);
    WithoutCons(f, rest, if fold(f.0) == fold(name) then 0 else i + 1);
  }

  lemma WithoutCons<V>(f: (string, V), rest: Fields<V>, i: nat)
    requires i <= |rest|
    ensures Without([f] + rest, i) == if i == 0 then rest else [f] + Without(rest, i - 1)
  {
    var fields := [f] + rest;
    assert fields[i + 1..] == rest[i..];
    if i > 0 {
      assert fields[..i] == [f] + rest[..i - 1];
    }
  }

  lemma PlaceCons<V>(order: seq<string>, fields: Fields<V>, fold: string -> string)
    requires order != []
    ensures Place(order, fields, fold) ==
      var i := Position(fields, order[0], fold);
      (if i < 0 then [] else [fields[i]]) + Place(order[1..], Remove(fields, order[0], fold), fold)
  {
  }

  lemma PlaceHead<V>(order: seq<string>, fields: Fields<V>, seen: set<string>, fold: string -> string)
    requires Unique(fields, fold) && order != []
    ensures Place(order, Others(fields, seen, fold), fold)
         == Head(order, fields, seen, fold) + Place(order[1..], Others(fields, seen + {fold(order[0])}, fold), fold)
  {
    PlaceCons(order, Others(fields, seen, fold), fold);
    OthersPosition(fields, seen, order[0], fold);
    OthersWithout(fields, seen, order[0], fold);
  }

  lemma {:induction false} PlaceFrom<V>(order: seq<string>, fields: Fields<V>, seen: set<string>,
                                        fold: string -> string)
    requires Unique(fields, fold)
    ensures Place(order, Others(fields, seen, fold), fold)
         == Listed(order, fields, seen, fold) + Others(fields, seen + Folded(order, fold), fold)
    decreases |order|
  {
    if order == [] {
      assert seen + Folded(order, fold) == seen;
    } else {
      var key := fold(order[0]);
      PlaceHead(order, fields, seen, fold);
      PlaceFrom(order[1..], fields, seen + {key}, fold);
      FoldedCons(order, seen, fold);
      Regroup(Head(order, fields, seen, fold), Listed(order[1..], fields, seen + {key}, fold),
              Others(fields, seen + Folded(order, fold), fold));
    }
  }

  lemma Regroup<T>(a: seq<T>, b: seq<T>, c: seq<T>)
    ensures a + (b + c) == a + b + c
  {
  }

  lemma FoldedCons(order: seq<string>, seen: set<string>, fold: string -> string)
    requires order != []
    ensures seen + {fold(order[0])} + Folded(order[1..], fold) == seen + Folded(order, fold)
  {
    assert order == [order[0]] + order[1..];
  }

  lemma {:induction false} OthersOfNone<V>(fields: Fields<V>, fold: string -> string)
    ensures Others(fields, {}, fold) == fields
  {
    if fields != [] {
      OthersOfNone(fields[1..], fold);
    }
  }

  /** Listed names come first, each at its first mention; the rest keep their original order. */
  lemma PlaceSplits<V>(order: seq<string>, fields: Fields<V>, fold: string -> string)
    requires Unique(fields, fold)
    ensures Place(order, fields, fold) == Listed(order, fields, {}, fold) + Others(fields, Folded(order, fold), fold)
  {
    OthersOfNone(fields, fold);
    PlaceFrom(order, fields, {}, fold);
    assert {} + Folded(order, fold) == Folded(order, fold);
  }

  // ------------------------------------------------------------------ body fields

  /** What has been placed and what is left: names distinct, and no name on both sides. */
  ghost predicate Apart<V>(placed: Fields<V>, left: Fields<V>, fold: string -> string) {
    && Unique(placed, fold) && Unique(left, fold)
    && forall p, l | p in placed && l in left :: fold(p.0) != fold(l.0)
  }

  lemma MoveOne<V>(placed: Fields<V>, left: Fields<V>, i: nat, fold: string -> string)
    requires Apart(placed, left, fold) && i < |left|
    ensures Apart(placed + [left[i]], Without(left, i), fold)
    ensures Put(placed, left[i], Exact) == placed + [left[i]]
  {
    UniqueWithout(left, i, fold);
    assert left[i] in left;
    assert forall k | 0 <= k < |placed| :: placed[k] in placed;
    assert forall p | p in placed + [left[i]] :: p in placed || p == left[i];
  }

  method AppendAll<V>(placed: Fields<V>, left: Fields<V>, ghost fold: string -> string) returns (all: Fields<V>)
    requires Apart(placed, left, fold)
    ensures all == placed + left
  {
    all := placed;
    for i := 0 to |left|
      invariant all == placed + left[..i] && Apart(all, left[i..], fold)
    {
      assert left[i..][0] == left[i] && Without(left[i..], 0) == left[i + 1..];
      MoveOne(all, left[i..], 0, fold);
      all := Put(all, left[i], Exact);
    }
  }

  lemma PlaceStep<V>(placed: Fields<V>, order: seq<string>, i: nat, left: Fields<V>, fold: string -> string)
    requires i < |order|
    ensures
      var j := Position(left, order[i], fold);
      placed + Place(order[i..], left, fold) ==
        if j < 0 then placed + Place(order[i + 1..], left, fold)
        else placed + [left[j]] + Place(order[i + 1..], Without(left, j), fold)
  {
    assert order[i..][0] == order[i] && order[i..][1..] == order[i + 1..];
    var j := Position(left, order[i], fold);
    if j >= 0 {
      var rest := Place(order[i + 1..], Without(left, j), fold);
      assert placed + ([left[j]] + rest) == placed + [left[j]] + rest;
    }
  }

  /** What has been placed and what is left are together the fields of the original. */
  ghost predicate Covers<V>(obj: Fields<V>, placed: Fields<V>, left: Fields<V>) {
    multiset(obj) == multiset(placed) + multiset(left)
  }

  lemma CoversAfterMove<V>(obj: Fields<V>, placed: Fields<V>, left: Fields<V>, k: nat)
    requires Covers(obj, placed, left) && k < |left|
    ensures Covers(obj, placed + [left[k]], Without(left, k))
  {
    WithoutBag(left, k);
    assert multiset(placed + [left[k]]) == multiset(placed) + multiset([left[k]]);
  }

  lemma LeftIsThere<V>(obj: Fields<V>, placed: Fields<V>, left: Fields<V>, name: string)
    requires Covers(obj, placed, left)
    ensures Position(left, name, Exact) >= 0 ==> Position(obj, name, Exact) >= 0
  {
    var k := Position(left, name, Exact);
    if k >= 0 {
      assert left[k] in multiset(left) && left[k] in multiset(obj);
    }
  }

  lemma InPlace<V>(obj: Fields<V>, j: nat, placed: Fields<V>, left: Fields<V>)
    requires j < |obj| && Unique(obj, Exact) && Apart(placed, left, Exact)
    requires Covers(obj, placed, left)
    ensures
      var k := Position(left, obj[j].0, Exact);
      if k >= 0 then left[k] == obj[j] else Put(placed, obj[j], Exact) == placed
  {
    assert obj[j] in multiset(obj);
    var k := Position(left, obj[j].0, Exact);
    if k >= 0 {
      assert left[k] in multiset(left) && left[k] in multiset(obj);
    } else {
      assert obj[j] !in left && obj[j] in multiset(placed);
      var p := Position(placed, obj[j].0, Exact);
      assert p >= 0 && placed[p] in multiset(placed) && placed[p] in multiset(obj);
      assert placed[p := obj[j]] == placed;
    }
  }

  /** Body fields: an object never has a key twice, and the copy has exactly the fields of the original. */
  method OrderFields<V>(obj: Fields<V>, fieldOrder: seq<string>) returns (result: Fields<V>)
    requires Unique(obj, Exact)
    ensures result == Place(fieldOrder, obj, Exact)
  {
    result := [];
    var remaining := obj;
    for i := 0 to |fieldOrder|
      invariant Apart(result, remaining, Exact)
      invariant Covers(obj, result, remaining)
      invariant result + Place(fieldOrder[i..], remaining, Exact) == Place(fieldOrder, obj, Exact)
    {
      PlaceStep(result, fieldOrder, i, remaining, Exact);
      var j := Position(obj, fieldOrder[i], Exact);
      if j >= 0 {
        assert obj[j].0 == fieldOrder[i];
        InPlace(obj, j, result, remaining);
        var k := Position(remaining, fieldOrder[i], Exact);
        if k >= 0 {
          MoveOne(result, remaining, k, Exact);
          CoversAfterMove(obj, result, remaining, k);
          remaining := Without(remaining, k);
        }
        result := Put(result, obj[j], Exact);
      } else {
        LeftIsThere(obj, result, remaining, fieldOrder[i]);
      }
    }
    result := AppendAll(result, remaining, Exact);
  }

  // ---------------------------------------------------------------------- headers

  /** The lookup the header loop builds: one entry per lower-cased name, a later one replacing an earlier in place. */
  function CollapseInto<V>(found: Fields<V>, headers: Fields<V>): Fields<V>
    decreases |headers|
  {
    if headers == [] then found else CollapseInto(Put(found, headers[0], Lower), headers[1..])
  }

  function Collapse<V>(headers: Fields<V>): Fields<V> {
    CollapseInto([], headers)
  }

  function OrderedHeaders<V>(headers: Fields<V>, headerOrder: seq<string>): Fields<V> {
    if headerOrder == [] then headers else Place(headerOrder, Collapse(headers), Lower)
  }

  lemma PutUnique<V>(found: Fields<V>, header: (string, V))
    requires Unique(found, Lower)
    ensures Unique(Put(found, header, Lower), Lower)
  {
  }

  lemma {:induction false} CollapseUnique<V>(found: Fields<V>, headers: Fields<V>)
    requires Unique(found, Lower)
    ensures Unique(CollapseInto(found, headers), Lower)
    decreases |headers|
  {
    if headers != [] {
      PutUnique(found, headers[0]);
      CollapseUnique(Put(found, headers[0], Lower), headers[1..]);
    }
  }

  /** Collapsing keeps every header, in order, exactly when no two names agree up to case. */
  lemma {:induction false} CollapseKeepsAllIff<V>(found: Fields<V>, headers: Fields<V>)
    requires Unique(found, Lower)
    ensures |CollapseInto(found, headers)| <= |found| + |headers|
    ensures |CollapseInto(found, headers)| == |found| + |headers| <==> Unique(found + headers, Lower)
    ensures Unique(found + headers, Lower) ==> CollapseInto(found, headers) == found + headers
    decreases |headers|
  {
    if headers == [] {
      assert found + headers == found;
    } else {
      var h, tail := headers[0], headers[1..];
      assert found + headers == found + [h] + tail;
      PutUnique(found, h);
      CollapseKeepsAllIff(Put(found, h, Lower), tail);
      var i := Position(found, h.0, Lower);
      if i >= 0 {
        assert (found + headers)[i] == found[i] && (found + headers)[|found|] == h;
      }
    }
  }

  method CollapseHeaders<V>(headers: Fields<V>) returns (headerMap: Fields<V>)
    ensures headerMap == Collapse(headers)
  {
    headerMap := [];
    for i := 0 to |headers|
      invariant CollapseInto(headerMap, headers[i..]) == Collapse(headers)
    {
      assert headers[i..][1..] == headers[i + 1..];
      headerMap := Put(headerMap, headers[i], Lower);
    }
  }

  method OrderHeaders<V>(headers: Fields<V>, headerOrder: seq<string>) returns (result: Fields<V>)
    ensures result == OrderedHeaders(headers, headerOrder)
  {
    if headerOrder == [] {
      return headers;
    }
    var headerMap := CollapseHeaders(headers);
    CollapseUnique([], headers);
    result := [];
    for i := 0 to |headerOrder|
      invariant Apart(result, headerMap, Lower)
      invariant result + Place(headerOrder[i..], headerMap, Lower) == Place(headerOrder, Collapse(headers), Lower)
    {
      PlaceStep(result, headerOrder, i, headerMap, Lower);
      var j := Position(headerMap, headerOrder[i], Lower);
      if j >= 0 {
        MoveOne(result, headerMap, j, Lower);
        result := Put(result, headerMap[j], Exact);
        headerMap := Without(headerMap, j);
      }
    }
    result := AppendAll(result, headerMap, Lower);
  }

  lemma {:induction false} PlaceUnique<V>(order: seq<string>, fields: Fields<V>, fold: string -> string)
    requires Unique(fields, fold)
    ensures Unique(Place(order, fields, fold), fold)
    decreases |order|
  {
    if order != [] {
      var i := Position(fields, order[0], fold);
      if i < 0 {
        PlaceUnique(order[1..], fields, fold);
      } else {
        var left := Without(fields, i);
        var placed := Place(order[1..], left, fold);
        UniqueWithout(fields, i, fold);
        PlaceUnique(order[1..], left, fold);
        PlacePermutes(order[1..], left, fold);
        forall k | 0 <= k < |placed| ensures fold(placed[k].0) != fold(fields[i].0) {
          assert placed[k] in multiset(left);
        }
      }
    }
  }

  lemma CollapseIsWholeIff<V>(headers: Fields<V>)
    ensures Unique(headers, Lower) ==> Collapse(headers) == headers
    ensures |Collapse(headers)| == |headers| <==> Unique(headers, Lower)
  {
    CollapseKeepsAllIff([], headers);
    assert [] + headers == headers;
  }

  lemma SameBagSameSize<T>(a: seq<T>, b: seq<T>)
    requires multiset(a) == multiset(b)
    ensures |a| == |b|
  {
    assert |multiset(a)| == |a| && |multiset(b)| == |b|;
  }

  /** Nothing is lost or invented exactly when there is nothing to order by, or no two names agree up to case. */
  lemma HeadersKeptIff<V>(headers: Fields<V>, headerOrder: seq<string>)
    ensures multiset(OrderedHeaders(headers, headerOrder)) == multiset(headers)
       <==> headerOrder == [] || Unique(headers, Lower)
  {
    if headerOrder != [] {
      PlacePermutes(headerOrder, Collapse(headers), Lower);
      CollapseIsWholeIff(headers);
      if multiset(Collapse(headers)) == multiset(headers) {
        SameBagSameSize(Collapse(headers), headers);
      }
    }
  }

  /** Distinct headers: listed names first, in listed order; the rest as they were. */
  lemma HeadersSplit<V>(headers: Fields<V>, headerOrder: seq<string>)
    requires Unique(headers, Lower)
    ensures OrderedHeaders(headers, headerOrder)
         == Listed(headerOrder, headers, {}, Lower) + Others(headers, Folded(headerOrder, Lower), Lower)
  {
    CollapseKeepsAllIff([], headers);
    assert [] + headers == headers;
    PlaceSplits(headerOrder, headers, Lower);
  }

  /** Reordering headers twice is reordering once. */
  lemma HeadersIdempotent<V>(headers: Fields<V>, headerOrder: seq<string>)
    ensures OrderedHeaders(OrderedHeaders(headers, headerOrder), headerOrder) == OrderedHeaders(headers, headerOrder)
  {
    if headerOrder != [] {
      var placed := OrderedHeaders(headers, headerOrder);
      CollapseUnique([], headers);
      PlaceUnique(headerOrder, Collapse(headers), Lower);
      CollapseKeepsAllIff([], placed);
      assert [] + placed == placed;
      PlaceIdempotent(headerOrder, Collapse(headers), Lower);
    }
  }
}
