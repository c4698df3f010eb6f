/** `Order` of `src/collection/collection-extension.ts`: a stable bucket
    reorder. For each entry of the order list in turn, every leaf whose
    method and path match it is emitted in visiting order; unless unlisted
    leaves are discarded, the leaves no entry matched follow in visiting
    order. The result replaces the collection's top level with a flat list.

    Items are identified by their position in the leaf enumeration, which is
    what the source's id list amounts to when item ids are unique. The
    reorder is described by the positions it selects; `OrderItems` reads the
    items at those positions. */
module Ordering {
  import opened Wrappers
  import opened Strings
  import opened Collections
  import opened Endpoints

  /** One `{method, path}` entry of an `OrderList`. */
  datatype OrderEntry = OrderEntry(httpMethod: string, path: string)

  const NoOrderError := "Order list not provided or provided config contains no order entries"

  /** Case-insensitive match of an entry against an item; a URL without path
      compares as `undefined`. */
  predicate Matches(e: OrderEntry, item: Item) {
    Lower(e.httpMethod) == Lower(item.request.httpMethod) && Lower(e.path) == ItemPath(item.request)
  }

  /** Some entry of the list matches the item. */
  predicate Listed(order: seq<OrderEntry>, item: Item) {
    exists j :: 0 <= j < |order| && Matches(order[j], item)
  }

  /** Listed by the tail means listed; listed but not by the head means
      listed by the tail. */
  lemma ListedTail(order: seq<OrderEntry>, item: Item)
    requires order != []
    ensures Listed(order[1..], item) ==> Listed(order, item)
    ensures Listed(order, item) && !Matches(order[0], item) ==> Listed(order[1..], item)
  {
    if Listed(order[1..], item) {
      var j :| 0 <= j < |order[1..]| && Matches(order[1..][j], item);
      assert Matches(order[j + 1], item);
    }
    if Listed(order, item) && !Matches(order[0], item) {
      var j :| 0 <= j < |order| && Matches(order[j], item);
      assert j > 0 && Matches(order[1..][j - 1], item);
    }
  }

  /** How many entries of the list match the item. */
  function MatchCount(order: seq<OrderEntry>, item: Item): (n: nat)
    ensures n == 0 <==> !Listed(order, item)
    ensures n <= |order|
  {
    if order == [] then 0
    else
      ListedTail(order, item);
      (if Matches(order[0], item) then 1 else 0) + MatchCount(order[1..], item)
  }

  /** Strictly increasing positions, that is, visiting order without
      repeats. */
  predicate Increasing(s: seq<nat>) {
    forall j, k :: 0 <= j < k < |s| ==> s[j] < s[k]
  }

  /** The positions from `from` on whose item matches the entry, in visiting
      order: one scan of `forEachItem` for one entry. */
  function BucketFrom(items: seq<Item>, e: OrderEntry, from: nat): (r: seq<nat>)
    requires from <= |items|
    ensures Increasing(r)
    ensures forall j :: 0 <= j < |r| ==> from <= r[j] < |items| && Matches(e, items[r[j]])
    ensures forall i :: from <= i < |items| && Matches(e, items[i]) ==> i in r
    decreases |items| - from
  {
    if from == |items| then []
    else (if Matches(e, items[from]) then [from] else []) + BucketFrom(items, e, from + 1)
  }

  /** The positions of the leaves no entry matches, from `from` on, in
      visiting order. */
  function UnlistedFrom(items: seq<Item>, order: seq<OrderEntry>, from: nat): (r: seq<nat>)
    requires from <= |items|
    ensures Increasing(r)
    ensures forall j :: 0 <= j < |r| ==> from <= r[j] < |items| && !Listed(order, items[r[j]])
    ensures forall i :: from <= i < |items| && !Listed(order, items[i]) ==> i in r
    decreases |items| - from
  {
    if from == |items| then []
    else (if !Listed(order, items[from]) then [from] else []) + UnlistedFrom(items, order, from + 1)
  }

  /** The buckets of all entries, in list order. */
  function Buckets(items: seq<Item>, order: seq<OrderEntry>): (r: seq<nat>)
    ensures forall j :: 0 <= j < |r| ==> r[j] < |items| && Listed(order, items[r[j]])
  {
    if order == [] then []
    else
      var here := BucketFrom(items, order[0], 0);
      var rest := Buckets(items, order[1..]);
      assert forall j :: 0 <= j < |rest| ==> Listed(order, items[rest[j]]) by {
        forall j | 0 <= j < |rest|
          ensures Listed(order, items[rest[j]])
        {
          ListedTail(order, items[rest[j]]);
        }
      }
      assert forall j :: 0 <= j < |here| ==> Matches(order[0], items[here[j]]);
      here + rest
  }

  /** The positions `Order` emits. */
  function OrderPositions(items: seq<Item>, order: seq<OrderEntry>, discard: bool): (r: seq<nat>)
    ensures forall j :: 0 <= j < |r| ==> r[j] < |items|
    ensures discard ==> forall j :: 0 <= j < |r| ==> Listed(order, items[r[j]])
  {
    Buckets(items, order) + (if discard then [] else UnlistedFrom(items, order, 0))
  }

  /** The items at the emitted positions. */
  function OrderItems(items: seq<Item>, order: seq<OrderEntry>, discard: bool): (r: seq<Item>)
    ensures |r| == |OrderPositions(items, order, discard)|
    ensures forall j :: 0 <= j < |r| ==> r[j] == items[OrderPositions(items, order, discard)[j]]
  {
    var p := OrderPositions(items, order, discard);
    seq(|p|, j requires 0 <= j < |p| => items[p[j]])
  }

  /** A flat top level holding the given items. */
  function Flat(items: seq<Item>): (r: seq<Node>)
    ensures |r| == |items|
    ensures forall j :: 0 <= j < |r| ==> r[j] == Leaf(items[j])
  {
    seq(|items|, j requires 0 <= j < |items| => Leaf(items[j]))
  }

  /** `Order`: fails on an empty order list; otherwise the collection's top
      level becomes the flat list of the ordered leaves. */
  function Order(c: Collection, order: seq<OrderEntry>, discard: bool): (r: Result<Collection>)
    ensures r.Err? <==> order == []
    ensures r.Err? ==> r.error == NoOrderError
    ensures r.Ok? ==> r.value.name == c.name
    ensures r.Ok? ==> forall j :: 0 <= j < |r.value.items| ==> r.value.items[j].Leaf?
    ensures r.Ok? ==> Leaves(r.value.items) == OrderItems(Leaves(c.items), order, discard)
  {
    if order == [] then Err(NoOrderError)
    else
      var items := OrderItems(Leaves(c.items), order, discard);
      LeavesOfFlat(items);
      Ok(Collection(c.name, Flat(items)))
  }

  /** A position occurs at most once in an increasing sequence, exactly when
      it is a member. */
  lemma {:induction false} IncreasingCount(s: seq<nat>, i: nat)
    requires Increasing(s)
    ensures multiset(s)[i] == if i in s then 1 else 0
  {
    if s != [] {
      assert s == [s[0]] + s[1..];
      assert Increasing(s[1..]);
      IncreasingCount(s[1..], i);
      if s[0] == i {
        assert i !in s[1..];
      }
    }
  }

  /** The number of times one entry's bucket emits position `i`. */
  lemma BucketCount(items: seq<Item>, e: OrderEntry, i: nat)
    ensures multiset(BucketFrom(items, e, 0))[i] == if i < |items| && Matches(e, items[i]) then 1 else 0
  {
    IncreasingCount(BucketFrom(items, e, 0), i);
  }

  /** The buckets emit position `i` once per entry that matches its item. */
  lemma {:induction false} BucketsCount(items: seq<Item>, order: seq<OrderEntry>, i: nat)
    ensures multiset(Buckets(items, order))[i] == if i < |items| then MatchCount(order, items[i]) else 0
  {
    if order != [] {
      BucketCount(items, order[0], i);
      BucketsCount(items, order[1..], i);
    }
  }

  /** The unlisted tail emits position `i` once if no entry matches its item. */
  lemma UnlistedCount(items: seq<Item>, order: seq<OrderEntry>, i: nat)
    ensures multiset(UnlistedFrom(items, order, 0))[i] == if i < |items| && !Listed(order, items[i]) then 1 else 0
  {
    IncreasingCount(UnlistedFrom(items, order, 0), i);
  }

  /** How often `Order` emits each leaf: once per entry that matches it, and
      once more for an unmatched leaf when unlisted leaves are kept. */
  lemma OrderCount(items: seq<Item>, order: seq<OrderEntry>, discard: bool, i: nat)
    ensures multiset(OrderPositions(items, order, discard))[i]
            == if i < |items| then MatchCount(order, items[i]) + (if !discard && !Listed(order, items[i]) then 1 else 0)
               else 0
  {
    BucketsCount(items, order, i);
    if !discard {
      UnlistedCount(items, order, i);
    }
  }

  /** When no leaf is matched by two entries and unlisted leaves are kept,
      `Order` emits every leaf exactly once: the result is a permutation of
      the leaves, of the same length. */
  lemma OrderPermutation(items: seq<Item>, order: seq<OrderEntry>)
    requires forall i :: 0 <= i < |items| ==> MatchCount(order, items[i]) <= 1
    ensures forall i: nat :: multiset(OrderPositions(items, order, false))[i] == if i < |items| then 1 else 0
    ensures |OrderItems(items, order, false)| == |items|
  {
    var p: seq<nat> := OrderPositions(items, order, false);
    forall i: nat
      ensures multiset(p)[i] == if i < |items| then 1 else 0
    {
      OrderCount(items, order, false, i);
    }
    var all := AllPositions(|items|);
    assert multiset(all) == multiset(p);
    assert |all| == |multiset(all)| == |multiset(p)| == |p|;
  }

  /** The positions `0 .. n - 1`, each once. */
  function AllPositions(n: nat): (r: seq<nat>)
    ensures |r| == n
    ensures forall i: nat :: multiset(r)[i] == if i < n then 1 else 0
  {
    var all: seq<nat> := seq(n, i requires 0 <= i < n => i as nat);
    assert Increasing(all);
    forall i: nat
      ensures multiset(all)[i] == if i < n then 1 else 0
    {
      IncreasingCount(all, i);
      if i < n {
        assert all[i] == i;
      }
    }
    all
  }

  /** With unlisted leaves discarded, every emitted leaf matches an entry,
      and every leaf that matches one is emitted. */
  lemma OrderDiscard(items: seq<Item>, order: seq<OrderEntry>)
    ensures forall j :: 0 <= j < |OrderItems(items, order, true)| ==> Listed(order, OrderItems(items, order, true)[j])
    ensures forall i :: 0 <= i < |items| && Listed(order, items[i]) ==> i in OrderPositions(items, order, true)
  {
    forall i | 0 <= i < |items| && Listed(order, items[i])
      ensures i in OrderPositions(items, order, true)
    {
      OrderCount(items, order, true, i);
    }
  }

  /** Entries are served in list order: all leaves of the first entry's
      bucket come first, in visiting order, before any other. */
  lemma OrderFirstBucket(items: seq<Item>, order: seq<OrderEntry>, discard: bool)
    requires order != []
    ensures OrderPositions(items, order, discard)[..|BucketFrom(items, order[0], 0)|] == BucketFrom(items, order[0], 0)
  {
  }

  /** Kept unlisted leaves follow all matched ones, in visiting order. */
  lemma OrderUnlistedTail(items: seq<Item>, order: seq<OrderEntry>)
    ensures var p := OrderPositions(items, order, false);
            var tail := UnlistedFrom(items, order, 0);
            |tail| <= |p| && p[|p| - |tail|..] == tail && Increasing(tail)
  {
  }
}
