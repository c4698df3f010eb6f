/** The part of a Postman collection the tool edits: a tree of folders whose
    leaves are request items. `forEachItem` of the collection library visits
    the leaves depth first, left to right; `Leaves` is that enumeration and
    every whole-collection operation of the model is stated against it. */
module Collections {
  import opened Wrappers

  /** A path variable or a query parameter of a request URL. */
  datatype Param = Param(key: string, value: string)

  /** A request body; `raw` is absent for bodies of another mode. */
  datatype Body = Body(raw: Option<string>)

  /** A lifecycle event (`prerequest` or `test`) with its script text. */
  datatype Event = Event(listen: string, exec: string)

  /** One `{key, value, type: 'string'}` entry of an auth definition. */
  datatype AuthParam = AuthParam(key: string, value: string)

  /** An auth definition: its type and its entries. */
  datatype Auth = Auth(authType: string, params: seq<AuthParam>)

  /** A request; `path` is absent when the URL has no path at all. */
  datatype Request = Request(
    httpMethod: string,
    path: Option<seq<string>>,
    variables: seq<Param>,
    query: seq<Param>,
    body: Option<Body>,
    auth: Option<Auth>)

  datatype Item = Item(name: string, request: Request, events: seq<Event>)

  datatype Node = Leaf(item: Item) | Folder(name: string, children: seq<Node>)

  datatype Collection = Collection(name: string, items: seq<Node>)

  /** The items `forEachItem` visits, in visiting order. */
  function Leaves(nodes: seq<Node>): seq<Item>
    decreases nodes
  {
    if nodes == [] then []
    else
      (match nodes[0]
       case Leaf(item) => [item]
       case Folder(_, children) => Leaves(children))
      + Leaves(nodes[1..])
  }

  lemma LeavesCons(n: Node, rest: seq<Node>)
    ensures Leaves([n] + rest)
            == (match n case Leaf(item) => [item] case Folder(_, children) => Leaves(children)) + Leaves(rest)
  {
    assert ([n] + rest)[1..] == rest;
  }

  /** A flat list of leaves enumerates to its own items. */
  lemma {:induction false} LeavesOfFlat(items: seq<Item>)
    ensures Leaves(seq(|items|, i requires 0 <= i < |items| => Leaf(items[i]))) == items
  {
    var nodes := seq(|items|, i requires 0 <= i < |items| => Leaf(items[i]));
    if items != [] {
      var rest := seq(|items| - 1, i requires 0 <= i < |items| - 1 => Leaf(items[1..][i]));
      assert nodes == [Leaf(items[0])] + rest;
      LeavesCons(Leaf(items[0]), rest);
      LeavesOfFlat(items[1..]);
      assert items == [items[0]] + items[1..];
    }
  }

  /** Two forests with the same folders, names and leaf positions. */
  predicate SameShape(a: seq<Node>, b: seq<Node>)
    decreases a
  {
    && |a| == |b|
    && (a != [] ==>
          && a[0].Leaf? == b[0].Leaf?
          && (a[0].Folder? ==> a[0].name == b[0].name && SameShape(a[0].children, b[0].children))
          && SameShape(a[1..], b[1..]))
  }

  /** Having the same shape is transitive, so steps that each keep the
      folders keep them together. */
  lemma {:induction false} SameShapeTrans(a: seq<Node>, b: seq<Node>, c: seq<Node>)
    requires SameShape(a, b) && SameShape(b, c)
    ensures SameShape(a, c)
    decreases a
  {
    if a != [] {
      if a[0].Folder? {
        SameShapeTrans(a[0].children, b[0].children, c[0].children);
      }
      SameShapeTrans(a[1..], b[1..], c[1..]);
    }
  }

  /** Applies `f` to every leaf in place and keeps the folders. */
  function MapLeaves(nodes: seq<Node>, f: Item -> Item): (r: seq<Node>)
    ensures |r| == |nodes|
    decreases nodes
  {
    if nodes == [] then []
    else
      [match nodes[0]
       case Leaf(item) => Leaf(f(item))
       case Folder(name, children) => Folder(name, MapLeaves(children, f))]
      + MapLeaves(nodes[1..], f)
  }

  /** The items applied element by element. */
  function MapItems(items: seq<Item>, f: Item -> Item): (r: seq<Item>)
    ensures |r| == |items|
    ensures forall i :: 0 <= i < |items| ==> r[i] == f(items[i])
  {
    seq(|items|, i requires 0 <= i < |items| => f(items[i]))
  }

  lemma MapItemsConcat(a: seq<Item>, b: seq<Item>, f: Item -> Item)
    ensures MapItems(a + b, f) == MapItems(a, f) + MapItems(b, f)
  {
  }

  /** Mapping over the tree is mapping over its leaves, and keeps the tree's shape. */
  lemma {:induction false} MapLeavesLeaves(nodes: seq<Node>, f: Item -> Item)
    ensures Leaves(MapLeaves(nodes, f)) == MapItems(Leaves(nodes), f)
    ensures SameShape(nodes, MapLeaves(nodes, f))
    decreases nodes
  {
    if nodes != [] {
      var r := MapLeaves(nodes, f);
      var head := r[0];
      assert r == [head] + MapLeaves(nodes[1..], f);
      assert r[1..] == MapLeaves(nodes[1..], f);
      MapLeavesLeaves(nodes[1..], f);
      LeavesCons(head, MapLeaves(nodes[1..], f));
      match nodes[0] {
        case Leaf(item) =>
        case Folder(name, children) =>
          MapLeavesLeaves(children, f);
      }
      MapItemsConcat(
        (match nodes[0] case Leaf(item) => [item] case Folder(_, children) => Leaves(children)),
        Leaves(nodes[1..]), f);
    }
  }

  /** Mapping twice with an idempotent item step is mapping once. */
  lemma {:induction false} MapLeavesIdempotent(nodes: seq<Node>, f: Item -> Item)
    requires forall item :: f(f(item)) == f(item)
    ensures MapLeaves(MapLeaves(nodes, f), f) == MapLeaves(nodes, f)
    decreases nodes
  {
    if nodes != [] {
      var once := MapLeaves(nodes, f);
      assert once[1..] == MapLeaves(nodes[1..], f);
      MapLeavesIdempotent(nodes[1..], f);
      match nodes[0] {
        case Leaf(item) =>
        case Folder(name, children) =>
          MapLeavesIdempotent(children, f);
      }
    }
  }

  /** Visits the leaves in order, threading a state from one leaf to the next:
      the shape of an operation whose per-item step also updates a list
      shared by all items. */
  function MapLeavesWith<S>(nodes: seq<Node>, s: S, f: (Item, S) -> (Item, S)): (r: (seq<Node>, S))
    ensures |r.0| == |nodes|
    decreases nodes
  {
    if nodes == [] then ([], s)
    else
      var head := match nodes[0]
        case Leaf(item) => (Leaf(f(item, s).0), f(item, s).1)
        case Folder(name, children) =>
          (Folder(name, MapLeavesWith(children, s, f).0), MapLeavesWith(children, s, f).1);
      var tail := MapLeavesWith(nodes[1..], head.1, f);
      ([head.0] + tail.0, tail.1)
  }

  /** The flat counterpart of `MapLeavesWith`. */
  function FoldItems<S>(items: seq<Item>, s: S, f: (Item, S) -> (Item, S)): (r: (seq<Item>, S))
    ensures |r.0| == |items|
  {
    if items == [] then ([], s)
    else
      var tail := FoldItems(items[1..], f(items[0], s).1, f);
      ([f(items[0], s).0] + tail.0, tail.1)
  }

  lemma {:induction false} FoldItemsConcat<S>(a: seq<Item>, b: seq<Item>, s: S, f: (Item, S) -> (Item, S))
    ensures FoldItems(a + b, s, f).0 == FoldItems(a, s, f).0 + FoldItems(b, FoldItems(a, s, f).1, f).0
    ensures FoldItems(a + b, s, f).1 == FoldItems(b, FoldItems(a, s, f).1, f).1
  {
    if a == [] {
      assert a + b == b;
    } else {
      var s1 := f(a[0], s).1;
      assert (a + b)[1..] == a[1..] + b;
      assert (a + b)[0] == a[0];
      FoldItemsConcat(a[1..], b, s1, f);
    }
  }

  lemma FoldItemsSingle<S>(item: Item, s: S, f: (Item, S) -> (Item, S))
    ensures FoldItems([item], s, f) == ([f(item, s).0], f(item, s).1)
  {
    assert [item][1..] == [];
    assert [item][0] == item;
    assert FoldItems([item][1..], f(item, s).1, f) == ([], f(item, s).1);
    assert [f(item, s).0] + [] == [f(item, s).0];
  }

  /** A relation that every step keeps between an item and its image holds
      between each item and its image in the fold, whatever the state. */
  lemma {:induction false} FoldItemsPointwise<S>(items: seq<Item>, s: S, f: (Item, S) -> (Item, S), keep: (Item, Item) -> bool)
    requires forall item, t :: keep(item, f(item, t).0)
    ensures forall i :: 0 <= i < |items| ==> keep(items[i], FoldItems(items, s, f).0[i])
  {
    if items != [] {
      FoldItemsPointwise(items[1..], f(items[0], s).1, f, keep);
      assert forall i :: 1 <= i < |items| ==> items[i] == items[1..][i - 1];
    }
  }

  /** Threading a state through the tree is threading it through the leaf
      enumeration; the tree keeps its shape. */
  lemma {:induction false} MapLeavesWithLeaves<S>(nodes: seq<Node>, s: S, f: (Item, S) -> (Item, S))
    ensures Leaves(MapLeavesWith(nodes, s, f).0) == FoldItems(Leaves(nodes), s, f).0
    ensures MapLeavesWith(nodes, s, f).1 == FoldItems(Leaves(nodes), s, f).1
    ensures SameShape(nodes, MapLeavesWith(nodes, s, f).0)
    decreases nodes
  {
    if nodes != [] {
      var here := match nodes[0] case Leaf(item) => [item] case Folder(_, children) => Leaves(children);
      var r := MapLeavesWith(nodes, s, f);
      var head := r.0[0];
      var s1 := FoldItems(here, s, f).1;
      var headLeaves := match head case Leaf(item) => [item] case Folder(_, children) => Leaves(children);
      match nodes[0] {
        case Leaf(item) =>
          FoldItemsSingle(item, s, f);
        case Folder(name, children) =>
          MapLeavesWithLeaves(children, s, f);
      }
      assert FoldItems(here, s, f).0 == headLeaves;
      var tail := MapLeavesWith(nodes[1..], s1, f);
      MapLeavesWithLeaves(nodes[1..], s1, f);
      assert r.0 == [head] + tail.0;
      assert r.1 == tail.1;
      LeavesCons(head, tail.0);
      FoldItemsConcat(here, Leaves(nodes[1..]), s, f);
      assert r.0[1..] == tail.0;
    }
  }

  /** `Rename`: a non-empty name replaces the collection's name, an empty one
      changes nothing. */
  function Rename(c: Collection, name: string): (r: Collection)
    ensures r.items == c.items
    ensures r.name == (if name != "" then name else c.name)
  {
    if name != "" then c.(name := name) else c
  }

  /** The last non-empty name wins. */
  lemma RenameTwice(c: Collection, first: string, second: string)
    ensures Rename(Rename(c, first), second) == Rename(c, if second != "" then second else first)
  {
  }
}
