/**
 Keyed reconciliation of a DOM list in place (crates/nimon-widget/ui/app.js:100-116): nodes are
 reused by key, new ones created, order follows the items, the rest is dropped.
 */
module Reconcile {
  import opened Basics

  /** A list element; its `key` attribute is absent on elements the list did not make, and never rewritten. */
  class Node {
    const key: Option<string>
    var content: nat

    constructor (key: Option<string>, content: nat)
      ensures this.key == key && this.content == content
    {
      this.key, this.content := key, content;
    }
  }

  datatype Item = Item(key: string, content: nat)

  // ------------------------------------------------------------------ sequences of distinct nodes

  ghost predicate Distinct<T>(s: seq<T>) { forall i, j :: 0 <= i < j < |s| ==> s[i] != s[j] }

  /** `s` without the elements of `gone`, order kept. */
  function Without<T(==)>(s: seq<T>, gone: set<T>): (r: seq<T>)
    ensures forall x | x in r :: x in s && x !in gone
    ensures forall x | x in s :: x in gone || x in r
    ensures |r| <= |s|
  {
    if s == [] then []
    else Without(s[..|s| - 1], gone) + if s[|s| - 1] in gone then [] else [s[|s| - 1]]
  }

  lemma {:induction false} WithoutConcat<T>(a: seq<T>, b: seq<T>, gone: set<T>)
    ensures Without(a + b, gone) == Without(a, gone) + Without(b, gone)
  {
    if b == [] {
      assert a + b == a;
    } else {
      var init := b[..|b| - 1];
      var last := if b[|b| - 1] in gone then [] else [b[|b| - 1]];
      WithoutConcat(a, init, gone);
      assert (a + b)[..|a + b| - 1] == a + init && (a + b)[|a + b| - 1] == b[|b| - 1];
      assert Without(a + b, gone) == Without(a + init, gone) + last;
      assert (Without(a, gone) + Without(init, gone)) + last == Without(a, gone) + (Without(init, gone) + last);
    }
  }

  lemma {:induction false} WithoutTwice<T>(s: seq<T>, a: set<T>, b: set<T>)
    ensures Without(Without(s, a), b) == Without(s, a + b)
  {
    if s != [] {
      var init, last := s[..|s| - 1], [s[|s| - 1]];
      WithoutTwice(init, a, b);
      WithoutConcat(Without(init, a), if last[0] in a then [] else last, b);
      assert last[..0] == [];
    }
  }

  lemma {:induction false} WithoutNone<T>(s: seq<T>, gone: set<T>)
    requires forall x | x in s :: x !in gone
    ensures Without(s, gone) == s
  {
    if s != [] {
      var init, last := s[..|s| - 1], s[|s| - 1];
      assert forall x | x in init :: x in s;
      WithoutNone(init, gone);
      assert last in s && s == init + [last];
    }
  }

  lemma {:induction false} WithoutDistinct<T>(s: seq<T>, gone: set<T>)
    requires Distinct(s)
    ensures Distinct(Without(s, gone))
  {
    if s != [] {
      WithoutDistinct(s[..|s| - 1], gone);
    }
  }

  lemma DistinctConcat<T>(a: seq<T>, b: seq<T>)
    requires Distinct(a) && Distinct(b)
    requires forall x :: x in a ==> x !in b
    ensures Distinct(a + b)
  {
    forall i, j | 0 <= i < j < |a + b|
      ensures (a + b)[i] != (a + b)[j]
    {
      if i < |a| <= j {
        assert (a + b)[i] in a && (a + b)[j] in b;
      }
    }
  }

  /** Taking the head off is removing that one element. */
  lemma WithoutHead<T>(s: seq<T>)
    requires s != [] && Distinct(s)
    ensures Without(s, {s[0]}) == s[1..]
  {
    assert s == [s[0]] + s[1..];
    WithoutConcat([s[0]], s[1..], {s[0]});
    WithoutNone(s[1..], {s[0]});
    assert [s[0]][..0] == [];
  }

  function IndexOf<T(==)>(s: seq<T>, x: T): (i: nat)
    requires x in s
    ensures i < |s| && s[i] == x && x !in s[..i]
  {
    if s[0] == x then 0 else 1 + IndexOf(s[1..], x)
  }

  /** `node` in front of `want`; without `want`, last. */
  function Inserted(c: seq<Node>, node: Node, want: Node?): seq<Node>
    requires want != null ==> want in c
  {
    if want == null then c + [node] else c[..IndexOf(c, want)] + [node] + c[IndexOf(c, want)..]
  }

  // ------------------------------------------------------------------ the container

  class Container {
    var children: seq<Node>
    var insertions: nat
    var removals: nat

    constructor (nodes: seq<Node>)
      ensures children == nodes && insertions == removals == 0
    {
      children, insertions, removals := nodes, 0, 0;
    }

    /** A child is moved, not copied; without `want` the node goes last. */
    method InsertBefore(node: Node, want: Node?)
      requires want != null ==> want in children && want != node
      modifies this
      ensures want != null ==> want in Without(old(children), {node})
      ensures children == Inserted(Without(old(children), {node}), node, want)
      ensures insertions == old(insertions) + 1 && removals == old(removals)
    {
      var c := Without(children, {node});
      if want == null {
        children := c + [node];
      } else {
        var i := IndexOf(c, want);
        children := c[..i] + [node] + c[i..];
      }
      insertions := insertions + 1;
    }

    method Remove(node: Node)
      modifies this
      ensures children == Without(old(children), {node})
      ensures removals == old(removals) + 1 && insertions == old(insertions)
    {
      children := Without(children, {node});
      removals := removals + 1;
    }
  }

  ghost function Keys(nodes: seq<Node>): (r: seq<Option<string>>)
    ensures |r| == |nodes| && forall i :: 0 <= i < |nodes| ==> r[i] == nodes[i].key
  {
    seq(|nodes|, i requires 0 <= i < |nodes| => nodes[i].key)
  }

  /** Per key the last child of that key. */
  ghost function KeyMap(children: seq<Node>): map<Option<string>, Node> {
    if children == [] then map[]
    else
      var last := children[|children| - 1];
      KeyMap(children[..|children| - 1])[last.key := last]
  }

  lemma {:induction false} KeyMapEntries(children: seq<Node>)
    ensures forall k | k in KeyMap(children) :: KeyMap(children)[k] in children && KeyMap(children)[k].key == k
    ensures forall x | x in children :: x.key in KeyMap(children)
  {
    if children != [] {
      KeyMapEntries(children[..|children| - 1]);
    }
  }

  /** A child is in the key map exactly when no later child has its key. */
  lemma {:induction false} KeyMapHolds(children: seq<Node>, i: nat)
    requires Distinct(children) && i < |children|
    ensures children[i] in KeyMap(children).Values
       <==> forall j :: i < j < |children| ==> children[j].key != children[i].key
    ensures children[i].key in KeyMap(children)
    ensures KeyMap(children)[children[i].key] == children[i] <==> children[i] in KeyMap(children).Values
  {
    var n := |children| - 1;
    KeyMapEntries(children);
    if i < n {
      KeyMapHolds(children[..n], i);
      var m := KeyMap(children[..n]);
      if children[n].key != children[i].key {
        assert KeyMap(children)[children[i].key] == m[children[i].key];
      }
    }
  }

  method IndexByKey(children: seq<Node>) returns (existing: map<Option<string>, Node>)
    ensures existing == KeyMap(children)
  {
    existing := map[];
    for n := 0 to |children|
      invariant existing == KeyMap(children[..n])
    {
      assert children[..n + 1][..n] == children[..n];
      existing := existing[children[n].key := children[n]];
    }
    assert children[..|children|] == children;
  }

  /** `nextElementSibling`, or the first child when there is no previous node. */
  function NextAfter(children: seq<Node>, prev: Node?): Node?
    requires prev != null ==> prev in children
  {
    var i := if prev == null then 0 else IndexOf(children, prev) + 1;
    if i < |children| then children[i] else null
  }

  ghost function Elements<T>(s: seq<T>): set<T> { set x | x in s }

  lemma NextAfterPlaced(placed: seq<Node>, rest: seq<Node>)
    requires Distinct(placed + rest)
    ensures NextAfter(placed + rest, if placed == [] then null else placed[|placed| - 1])
            == if rest == [] then null else rest[0]
  {
    var all := placed + rest;
    if placed != [] {
      var i := IndexOf(all, placed[|placed| - 1]);
      assert all[|placed| - 1] == all[i];
    }
  }

  lemma KeepsHead<T>(rest: seq<T>, x: T)
    requires rest != [] && rest[0] != x
    ensures Without(rest, {x}) == [rest[0]] + Without(rest[1..], {x})
  {
    assert rest == [rest[0]] + rest[1..];
    WithoutConcat([rest[0]], rest[1..], {x});
    WithoutNone([rest[0]], {x});
  }

  lemma IndexOfBehind<T>(placed: seq<T>, h: T, tail: seq<T>)
    requires h !in placed
    ensures IndexOf(placed + [h] + tail, h) == |placed|
  {
    var all := placed + [h] + tail;
    assert all[|placed|] == h;
    assert forall i :: 0 <= i < |placed| ==> all[i] == placed[i];
  }

  /** Inserting right behind the placed nodes, in front of what is left. */
  lemma InsertedBehindPlaced(placed: seq<Node>, rest: seq<Node>, node: Node)
    requires node !in placed && (rest != [] ==> rest[0] != node && rest[0] !in placed)
    ensures var c := Without(placed + rest, {node});
            var want := if rest == [] then null else rest[0];
            && (want != null ==> want in c)
            && Inserted(c, node, want) == placed + [node] + Without(rest, {node})
  {
    RemovedFromRest(placed, rest, node);
    if rest != [] {
      KeepsHead(rest, node);
      InsertedAt(placed, rest[0], Without(rest[1..], {node}), node);
    }
  }

  lemma InsertedAt(placed: seq<Node>, h: Node, tail: seq<Node>, node: Node)
    requires h !in placed
    ensures h in placed + ([h] + tail)
    ensures Inserted(placed + ([h] + tail), node, h) == placed + [node] + ([h] + tail)
  {
    var c := placed + ([h] + tail);
    assert c == placed + [h] + tail;
    assert c[|placed|] == h;
    IndexOfBehind(placed, h, tail);
    assert c[..|placed|] == placed && c[|placed|..] == [h] + tail;
  }

  lemma RemovedFromRest(placed: seq<Node>, rest: seq<Node>, node: Node)
    requires node !in placed
    ensures Without(placed + rest, {node}) == placed + Without(rest, {node})
  {
    WithoutConcat(placed, rest, {node});
    WithoutNone(placed, {node});
  }

  /** The list with `node` behind the placed nodes is what an insertion there makes of it, if one is needed. */
  lemma Placing(placed: seq<Node>, rest: seq<Node>, prev: Node?, node: Node)
    requires Distinct(placed + rest) && node !in placed
    requires prev == if placed == [] then null else placed[|placed| - 1]
    ensures prev != null ==> prev in placed + rest
    ensures NextAfter(placed + rest, prev) == if rest == [] then null else rest[0]
    ensures Distinct(placed + [node] + Without(rest, {node}))
    ensures NextAfter(placed + rest, prev) == node ==> placed + [node] + Without(rest, {node}) == placed + rest
    ensures NextAfter(placed + rest, prev) != node ==>
              var c, want := Without(placed + rest, {node}), NextAfter(placed + rest, prev);
              && (want != null ==> want in c)
              && Inserted(c, node, want) == placed + [node] + Without(rest, {node})
  {
    NextAfterPlaced(placed, rest);
    StaysDistinct(placed, rest, node);
    if NextAfter(placed + rest, prev) == node {
      AlreadyThere(placed, rest);
    } else {
      HeadNotPlaced(placed, rest);
      InsertedBehindPlaced(placed, rest, node);
    }
  }

  lemma AlreadyThere(placed: seq<Node>, rest: seq<Node>)
    requires Distinct(placed + rest) && rest != []
    ensures placed + [rest[0]] + Without(rest, {rest[0]}) == placed + rest
  {
    DistinctTail(placed, rest);
    WithoutHead(rest);
    assert placed + [rest[0]] + rest[1..] == placed + rest;
  }

  lemma HeadNotPlaced(placed: seq<Node>, rest: seq<Node>)
    requires Distinct(placed + rest)
    ensures rest != [] ==> rest[0] !in placed
  {
    DistinctTail(placed, rest);
    assert rest != [] ==> rest[0] in rest;
  }

  /** Put `node` behind the placed nodes, touching the list only when it is not there already. */
  method PlaceNode(container: Container, prev: Node?, node: Node, ghost placed: seq<Node>, ghost rest: seq<Node>)
    requires container.children == placed + rest && Distinct(placed + rest)
    requires prev == if placed == [] then null else placed[|placed| - 1]
    requires node !in placed
    modifies container
    ensures container.children == placed + [node] + Without(rest, {node})
    ensures Distinct(container.children)
    ensures container.removals == old(container.removals)
    ensures container.insertions == old(container.insertions) + if rest != [] && rest[0] == node then 0 else 1
    ensures container.insertions == old(container.insertions) ==> container.children == old(container.children)
  {
    Placing(placed, rest, prev, node);
    var want := NextAfter(container.children, prev);
    if node != want {
      container.InsertBefore(node, want);
    }
  }

  lemma DistinctTail(placed: seq<Node>, rest: seq<Node>)
    requires Distinct(placed + rest)
    ensures Distinct(placed) && Distinct(rest) && forall x | x in placed :: x !in rest
  {
    var all := placed + rest;
    assert forall i :: 0 <= i < |placed| ==> all[i] == placed[i];
    assert forall i :: 0 <= i < |rest| ==> all[|placed| + i] == rest[i];
  }

  lemma StaysDistinct(placed: seq<Node>, rest: seq<Node>, node: Node)
    requires Distinct(placed + rest) && node !in placed
    ensures Distinct(placed + [node] + Without(rest, {node}))
  {
    DistinctTail(placed, rest);
    WithoutDistinct(rest, {node});
    DistinctConcat(placed, [node]);
    DistinctConcat(placed + [node], Without(rest, {node}));
  }

  // ------------------------------------------------------------------ reconcile

  /** Children shadowed in the key map by a later one of the same key. */
  ghost function Shadowed(nodes: seq<Node>): seq<Node> {
    Without(nodes, KeyMap(nodes).Values)
  }

  /** Nothing is shadowed exactly when the child keys are distinct. */
  lemma ShadowedEmptyIff(nodes: seq<Node>)
    requires Distinct(nodes)
    ensures Shadowed(nodes) == [] <==> Distinct(Keys(nodes))
  {
    if Distinct(Keys(nodes)) {
      forall x | x in nodes
        ensures x in KeyMap(nodes).Values
      {
        var i :| 0 <= i < |nodes| && nodes[i] == x;
        KeyMapHolds(nodes, i);
        assert forall j :: i < j < |nodes| ==> Keys(nodes)[i] != Keys(nodes)[j];
      }
      WithoutAll(nodes, KeyMap(nodes).Values);
    } else {
      var i, j :| 0 <= i < j < |nodes| && Keys(nodes)[i] == Keys(nodes)[j];
      KeyMapHolds(nodes, i);
      assert nodes[i] in nodes && nodes[i] in Shadowed(nodes);
    }
  }

  lemma {:induction false} WithoutCongruent<T>(s: seq<T>, a: set<T>, b: set<T>)
    requires forall x | x in s :: x in a <==> x in b
    ensures Without(s, a) == Without(s, b)
  {
    if s != [] {
      WithoutCongruent(s[..|s| - 1], a, b);
    }
  }

  lemma {:induction false} WithoutAll<T>(s: seq<T>, gone: set<T>)
    requires forall x | x in s :: x in gone
    ensures Without(s, gone) == []
  {
    if s != [] {
      WithoutAll(s[..|s| - 1], gone);
    }
  }

  /** No earlier item has the key of item `j`. */
  ghost predicate FirstOfItsKey(items: seq<Item>, j: nat)
    requires j < |items|
  {
    forall l :: 0 <= l < j ==> items[l].key != items[j].key
  }

  ghost predicate Consumed(items: seq<Item>, n: nat, k: Option<string>)
    requires n <= |items|
  {
    exists l :: 0 <= l < n && Some(items[l].key) == k
  }

  lemma OneMoreConsumed(items: seq<Item>, n: nat, k: Option<string>)
    requires n < |items|
    ensures Consumed(items, n + 1, k) <==> Consumed(items, n, k) || k == Some(items[n].key)
  {
    if Consumed(items, n, k) {
      var l :| 0 <= l < n && Some(items[l].key) == k;
      assert 0 <= l < n + 1;
    }
  }

  ghost predicate SameKeys(keys: seq<Option<string>>, items: seq<Item>) {
    && Distinct(keys) && |keys| == |items|
    && forall j :: 0 <= j < |items| ==> keys[j] == Some(items[j].key)
  }

  /** The nodes carry the keys of the items, one each, in order. */
  ghost predicate KeyedBy(placed: seq<Node>, items: seq<Item>) {
    && |placed| <= |items|
    && forall j :: 0 <= j < |placed| ==> placed[j].key == Some(items[j].key)
  }

  /** And they show the items. */
  ghost predicate Shows(placed: seq<Node>, items: seq<Item>)
    reads placed
  {
    && |placed| <= |items|
    && forall j :: 0 <= j < |placed| ==> placed[j].content == items[j].content
  }

  /** Item `j` gets an existing node: some child has its key, and no earlier item has taken it. */
  ghost predicate Reuses(before: seq<Node>, items: seq<Item>, j: nat)
    requires j < |items|
  {
    Some(items[j].key) in KeyMap(before) && FirstOfItsKey(items, j)
  }

  /** Which node each of the first |placed| items got: the last child of its key, or one that was no child. */
  ghost predicate Assigned(before: seq<Node>, items: seq<Item>, placed: seq<Node>)
  {
    && KeyedBy(placed, items)
    && forall j :: 0 <= j < |placed| ==>
         if Reuses(before, items, j) then placed[j] == KeyMap(before)[Some(items[j].key)] else placed[j] !in before
  }

  /** The key map after the first |placed| items: what they took has been placed, the rest is still there. */
  ghost predicate Unclaimed(before: seq<Node>, existing: map<Option<string>, Node>, items: seq<Item>, placed: seq<Node>)
  {
    && |placed| <= |items|
    && (forall k | k in existing ::
          k in KeyMap(before) && existing[k] == KeyMap(before)[k] && !Consumed(items, |placed|, k))
    && (forall k | k in KeyMap(before) ::
          k in existing || (Consumed(items, |placed|, k) && KeyMap(before)[k] in placed))
  }

  /** Take the node of that key out of the key map, or make one; then bring it up to date. */
  method NodeFor(item: Item, existing: map<Option<string>, Node>, ghost placed: seq<Node>, ghost items: seq<Item>)
    returns (node: Node, left: map<Option<string>, Node>)
    requires Some(item.key) in existing ==>
               var x := existing[Some(item.key)]; x.key == Some(item.key) && x !in placed
    requires Shows(placed, items) && |placed| < |items| && item == items[|placed|]
    modifies if Some(item.key) in existing then {existing[Some(item.key)]} else {}
    ensures node.key == Some(item.key) && node !in placed && Shows(placed + [node], items)
    ensures if Some(item.key) in existing then node == existing[Some(item.key)] else fresh(node)
    ensures left == existing - {Some(item.key)}
  {
    var key := Some(item.key);
    left := existing - {key};
    if key in existing {
      node := existing[key];
      node.content := item.content;
    } else {
      node := new Node(key, item.content);
    }
  }

  lemma UnclaimedNotPlaced(before: seq<Node>, existing: map<Option<string>, Node>, items: seq<Item>, placed: seq<Node>)
    requires Unclaimed(before, existing, items, placed) && KeyedBy(placed, items)
    ensures forall k | k in existing :: existing[k] in before && existing[k].key == k && existing[k] !in placed
  {
    KeyMapEntries(before);
    forall k | k in existing
      ensures existing[k] !in placed
    {
      assert !Consumed(items, |placed|, k);
    }
  }

  lemma OneMoreClaimed(before: seq<Node>, existing: map<Option<string>, Node>, items: seq<Item>,
                       placed: seq<Node>, node: Node)
    requires |placed| < |items|
    requires Unclaimed(before, existing, items, placed) && Assigned(before, items, placed)
    requires node.key == Some(items[|placed|].key)
    requires if node.key in existing then node == existing[node.key] else node !in before
    ensures Unclaimed(before, existing - {node.key}, items, placed + [node])
    ensures Assigned(before, items, placed + [node])
  {
    var n := |placed|;
    forall k: Option<string>
      ensures Consumed(items, n + 1, k) <==> Consumed(items, n, k) || k == node.key
    {
      OneMoreConsumed(items, n, k);
    }
    assert FirstOfItsKey(items, n) <==> !Consumed(items, n, node.key);
  }

  /** The loop invariant: the placed nodes lead the list, what is left of the old children follows. */
  ghost predicate InPlace(container: Container, before: seq<Node>, items: seq<Item>, placed: seq<Node>)
    reads container, placed
  {
    && container.children == placed + Without(before, Elements(placed))
    && Distinct(container.children)
    && Assigned(before, items, placed)
    && Shows(placed, items)
  }

  /** One turn of the loop. */
  method ShowItem(container: Container, item: Item, existing: map<Option<string>, Node>, prev: Node?,
                  ghost items: seq<Item>, ghost before: seq<Node>, ghost placed: seq<Node>)
    returns (node: Node, left: map<Option<string>, Node>)
    requires |placed| < |items| && item == items[|placed|]
    requires InPlace(container, before, items, placed) && Unclaimed(before, existing, items, placed)
    requires prev == if placed == [] then null else placed[|placed| - 1]
    modifies container, if Some(item.key) in existing then {existing[Some(item.key)]} else {}
    ensures InPlace(container, before, items, placed + [node]) && Unclaimed(before, left, items, placed + [node])
    ensures if Some(item.key) in existing then node == existing[Some(item.key)] else fresh(node)
    ensures container.removals == old(container.removals)
    ensures var rest := Without(before, Elements(placed));
            container.insertions == old(container.insertions) + if rest != [] && rest[0] == node then 0 else 1
    ensures container.insertions == old(container.insertions) ==> container.children == old(container.children)
  {
    ghost var rest := Without(before, Elements(placed));
    UnclaimedNotPlaced(before, existing, items, placed);
    node, left := NodeFor(item, existing, placed, items);
    OneMoreClaimed(before, existing, items, placed, node);
    RestAdvances(before, placed, rest, node);
    PlaceNode(container, prev, node, placed, rest);
  }

  lemma RestAdvances(before: seq<Node>, placed: seq<Node>, rest: seq<Node>, node: Node)
    requires rest == Without(before, Elements(placed))
    ensures Without(rest, {node}) == Without(before, Elements(placed + [node]))
  {
    WithoutTwice(before, Elements(placed), {node});
    assert Elements(placed + [node]) == Elements(placed) + {node};
  }

  /** The nodes still in the key map go. */
  method DropRest(container: Container, existing: map<Option<string>, Node>, ghost placed: seq<Node>,
                  ghost rest: seq<Node>)
    requires container.children == placed + rest
    requires forall k | k in existing :: existing[k] !in placed
    modifies container
    ensures container.children == placed + Without(rest, existing.Values)
    ensures container.insertions == old(container.insertions)
    ensures container.removals == old(container.removals) + |existing|
  {
    var left := existing;
    ghost var gone: set<Node> := {};
    WithoutNone(rest, gone);
    while left != map[]
      invariant left.Keys <= existing.Keys && forall k | k in left :: left[k] == existing[k]
      invariant gone == set k | k in existing && k !in left :: existing[k]
      invariant container.children == placed + Without(rest, gone)
      invariant container.insertions == old(container.insertions)
      invariant container.removals == old(container.removals) + |existing| - |left|
      decreases |left|
    {
      assert left.Keys != {};
      var k :| k in left;
      RemovedFromRest(placed, Without(rest, gone), left[k]);
      WithoutTwice(rest, gone, {left[k]});
      container.Remove(left[k]);
      gone := gone + {left[k]};
      var next := left - {k};
      assert next.Keys == left.Keys - {k};
      left := next;
    }
    assert gone == existing.Values;
  }

  /** In the end exactly the children shadowed from the start are left behind the placed nodes. */
  lemma OnlyShadowedRemain(before: seq<Node>, existing: map<Option<string>, Node>, items: seq<Item>, placed: seq<Node>)
    requires Unclaimed(before, existing, items, placed) && Assigned(before, items, placed)
    ensures Without(Without(before, Elements(placed)), existing.Values) == Shadowed(before)
  {
    WithoutTwice(before, Elements(placed), existing.Values);
    forall x | x in before
      ensures x in Elements(placed) + existing.Values <==> x in KeyMap(before).Values
    {
      if x in placed {
        var j :| 0 <= j < |placed| && placed[j] == x;
        assert Reuses(before, items, j);
        assert Some(items[j].key) in KeyMap(before);
      }
      if x in KeyMap(before).Values {
        var k :| k in KeyMap(before) && KeyMap(before)[k] == x;
        assert k in existing ==> existing[k] == x;
      }
    }
    WithoutCongruent(before, Elements(placed) + existing.Values, KeyMap(before).Values);
  }

  lemma NothingPlacedYet(container: Container, items: seq<Item>, placed: seq<Node>)
    requires Distinct(container.children) && placed == []
    ensures InPlace(container, container.children, items, placed)
    ensures Unclaimed(container.children, KeyMap(container.children), items, placed)
  {
    WithoutNone(container.children, Elements(placed));
  }

  /** With the same keys in the same order, the next child in line is the one the next item takes. */
  lemma NextInLine(before: seq<Node>, items: seq<Item>, left: map<Option<string>, Node>, placed: seq<Node>)
    requires Distinct(before) && SameKeys(Keys(before), items) && |placed| < |items|
    requires placed == before[..|placed|] && Unclaimed(before, left, items, placed)
    ensures var key := Some(items[|placed|].key); key in left && left[key] == before[|placed|]
    ensures var rest := Without(before, Elements(placed)); rest != [] && rest[0] == before[|placed|]
  {
    var n := |placed|;
    var key := Some(items[n].key);
    assert forall j :: 0 <= j < |before| && j != n ==> Keys(before)[j] != Keys(before)[n];
    KeyMapHolds(before, n);
    assert !Consumed(items, n, key);
    assert key == before[n].key;
    LeftInLine(before, n);
  }

  lemma LeftInLine(before: seq<Node>, n: nat)
    requires Distinct(before) && n <= |before|
    ensures Without(before, Elements(before[..n])) == before[n..]
  {
    assert before == before[..n] + before[n..];
    WithoutConcat(before[..n], before[n..], Elements(before[..n]));
    WithoutAll(before[..n], Elements(before[..n]));
    WithoutNone(before[n..], Elements(before[..n]));
  }

  lemma NothingLeft(before: seq<Node>, items: seq<Item>, left: map<Option<string>, Node>)
    requires SameKeys(Keys(before), items) && Unclaimed(before, left, items, before)
    ensures left == map[]
  {
    KeyMapEntries(before);
    forall k | k in KeyMap(before)
      ensures Consumed(items, |before|, k)
    {
      var i :| 0 <= i < |before| && before[i] == KeyMap(before)[k];
      assert Some(items[i].key) == Keys(before)[i];
    }
  }

  /** The list has been touched only if it had to be: not while every item finds its child in place. */
  ghost predicate Counted(before: seq<Node>, items: seq<Item>, placed: seq<Node>, insertions: nat,
                          now: nat, children: seq<Node>)
  {
    && now >= insertions
    && (now == insertions ==> children == before)
    && (SameKeys(Keys(before), items) ==> now == insertions && |placed| <= |before| && placed == before[..|placed|])
  }

  /** One node more: inserted, unless it was the next in line. */
  lemma CountedNext(before: seq<Node>, items: seq<Item>, left: map<Option<string>, Node>, placed: seq<Node>, node: Node,
                    insertions: nat, was: nat, children: seq<Node>, now: nat, after: seq<Node>)
    requires Distinct(before) && |placed| < |items| && Unclaimed(before, left, items, placed)
    requires Counted(before, items, placed, insertions, was, children)
    requires var key := Some(items[|placed|].key); key in left ==> node == left[key]
    requires var rest := Without(before, Elements(placed)); now == was + if rest != [] && rest[0] == node then 0 else 1
    requires now == was ==> after == children
    ensures Counted(before, items, placed + [node], insertions, now, after)
  {
    if SameKeys(Keys(before), items) {
      NextInLine(before, items, left, placed);
      assert placed + [node] == before[..|placed| + 1];
    }
  }

  /** All of it: the state of the loop over the items. */
  ghost predicate Progress(container: Container, before: seq<Node>, items: seq<Item>,
                           existing: map<Option<string>, Node>, prev: Node?, placed: seq<Node>,
                           insertions: nat, removals: nat)
    reads container, placed
  {
    && Distinct(before)
    && InPlace(container, before, items, placed)
    && Unclaimed(before, existing, items, placed)
    && prev == (if placed == [] then null else placed[|placed| - 1])
    && Counted(before, items, placed, insertions, container.insertions, container.children)
    && container.removals == removals
  }

  /** One turn of the loop, counting. */
  method ShowItemCounted(container: Container, item: Item, existing: map<Option<string>, Node>, prev: Node?,
                         ghost items: seq<Item>, ghost before: seq<Node>, ghost placed: seq<Node>,
                         ghost insertions: nat, ghost removals: nat)
    returns (node: Node, left: map<Option<string>, Node>)
    requires |placed| < |items| && item == items[|placed|]
    requires Progress(container, before, items, existing, prev, placed, insertions, removals)
    modifies container, before
    ensures Progress(container, before, items, left, node, placed + [node], insertions, removals)
  {
    UnclaimedNotPlaced(before, existing, items, placed);
    ghost var was, children := container.insertions, container.children;
    node, left := ShowItem(container, item, existing, prev, items, before, placed);
    CountedNext(before, items, existing, placed, node, insertions, was, children,
                container.insertions, container.children);
  }

  /** The loop over the items. */
  method PlaceAll(container: Container, items: seq<Item>, existing: map<Option<string>, Node>)
    returns (left: map<Option<string>, Node>, ghost placed: seq<Node>)
    requires Distinct(container.children) && existing == KeyMap(container.children)
    modifies container, container.children
    ensures |placed| == |items| && InPlace(container, old(container.children), items, placed)
    ensures Unclaimed(old(container.children), left, items, placed)
    ensures container.removals == old(container.removals)
    ensures Counted(old(container.children), items, placed, old(container.insertions),
                    container.insertions, container.children)
  {
    ghost var before := container.children;
    var prev: Node? := null;
    left, placed := existing, [];
    NothingPlacedYet(container, items, placed);
    for n := 0 to |items|
      invariant |placed| == n
      invariant Progress(container, before, items, left, prev, placed,
                         old(container.insertions), old(container.removals))
    {
      var node;
      node, left := ShowItemCounted(container, items[n], left, prev, items, before, placed,
                                    old(container.insertions), old(container.removals));
      placed := placed + [node];
      prev := node;
    }
  }

  /** The pass over what is left in the key map. */
  method DropUnclaimed(container: Container, existing: map<Option<string>, Node>,
                       ghost before: seq<Node>, ghost items: seq<Item>, ghost placed: seq<Node>)
    requires |placed| == |items| && InPlace(container, before, items, placed)
    requires Unclaimed(before, existing, items, placed)
    modifies container
    ensures container.children == placed + Shadowed(before)
    ensures container.insertions == old(container.insertions) && container.removals >= old(container.removals)
    ensures container.removals == old(container.removals) ==> container.children == old(container.children)
    ensures SameKeys(Keys(before), items) && placed == before ==> container.removals == old(container.removals)
  {
    ghost var rest := Without(before, Elements(placed));
    UnclaimedNotPlaced(before, existing, items, placed);
    if SameKeys(Keys(before), items) && placed == before {
      NothingLeft(before, items, existing);
    }
    WithoutNone(rest, {});
    DropRest(container, existing, placed, rest);
    OnlyShadowedRemain(before, existing, items, placed);
  }

  /**
   Afterwards the list is one node per item, in item order, followed only by children that were
   already shadowed by a later child of the same key: none, exactly when the child keys were distinct.
   When the keys and their order have not changed, the list is not touched at all.
   */
  method Reconcile(container: Container, items: seq<Item>) returns (ghost placed: seq<Node>)
    requires Distinct(container.children)
    modifies container, container.children
    ensures container.children == placed + Shadowed(old(container.children))
    ensures container.children == placed <==> Distinct(Keys(old(container.children)))
    ensures |placed| == |items| && Assigned(old(container.children), items, placed) && Shows(placed, items)
    ensures old(SameKeys(Keys(container.children), items)) ==>
              container.insertions == old(container.insertions) && container.removals == old(container.removals)
    ensures container.insertions == old(container.insertions) && container.removals == old(container.removals) ==>
              container.children == old(container.children)
  {
    ghost var before := container.children;
    var existing := IndexByKey(container.children);
    existing, placed := PlaceAll(container, items, existing);
    DropUnclaimed(container, existing, before, items, placed);
    ShadowedEmptyIff(before);
  }
}
