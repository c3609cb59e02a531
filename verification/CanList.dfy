/**
  The intrusive doubly linked list of c_tcp_to_can/src/can_msg_list.c and its iterators.

  `nodes` is the list as a sequence; Valid() ties the links, the two ends and the length to it.
  `freed` collects the nodes given back to the allocator, so that no freed node is read or freed again.
 */
module CanList {
  import opened Machine

  datatype Direction = HEAD | TAIL

  /** The `match` callback of a list, if one is set. */
  datatype Match<!V> = NoMatch | MatchWith(f: (V, V) -> bool)

  ghost function NodeSet<T>(s: seq<T>): set<T> { set x | x in s }

  class ListNode<V> {
    var prev: ListNode?<V>
    var next: ListNode?<V>
    var val: V

    constructor (val: V)
      ensures prev == null && next == null && this.val == val
    {
      prev, next := null, null;
      this.val := val;
    }
  }

  class List<V(==)> {
    var head: ListNode?<V>
    var tail: ListNode?<V>
    var len: u32
    const matches: Match<V>
    ghost var nodes: seq<ListNode<V>>
    ghost var freed: set<ListNode<V>>

    ghost predicate Valid()
      reads this, nodes
    {
      && len == |nodes|
      && head == (if nodes == [] then null else nodes[0])
      && tail == (if nodes == [] then null else nodes[|nodes| - 1])
      && (forall i {:trigger nodes[i].prev} :: 0 <= i < |nodes| ==> nodes[i].prev == if i == 0 then null else nodes[i - 1])
      && (forall i {:trigger nodes[i].next} :: 0 <= i < |nodes| ==> nodes[i].next == if i == |nodes| - 1 then null else nodes[i + 1])
      && (forall i, j :: 0 <= i < j < |nodes| ==> nodes[i] != nodes[j])
      && (forall i :: 0 <= i < |nodes| ==> nodes[i] !in freed)
    }

    lemma Ends()
      requires Valid()
      ensures head == if nodes == [] then null else nodes[0]
      ensures tail == if nodes == [] then null else nodes[|nodes| - 1]
    {
    }

    ghost function Vals(): seq<V>
      reads this, nodes
    {
      seq(|nodes|, i requires 0 <= i < |nodes| reads this, nodes => nodes[i].val)
    }

    constructor (matches: Match<V>)
      ensures Valid() && nodes == [] && freed == {} && this.matches == matches
    {
      head, tail, len := null, null, 0;
      this.matches := matches;
      nodes, freed := [], {};
    }

    method RPush(node: ListNode?<V>) returns (r: ListNode?<V>)
      requires Valid() && (node != null ==> node !in nodes && node !in freed && |nodes| < 0xFFFF_FFFF)
      modifies this, nodes, node
      ensures Valid() && r == node && freed == old(freed)
      ensures nodes == if node == null then old(nodes) else old(nodes) + [node]
      ensures Vals() == if node == null then old(Vals()) else old(Vals()) + [old(node.val)]
    {
      if node == null {
        return null;
      }
      if len != 0 {
        node.prev := tail;
        node.next := null;
        tail.next := node;
        tail := node;
      } else {
        head, tail := node, node;
        node.prev, node.next := null, null;
      }
      len := len + 1;
      nodes := nodes + [node];
      return node;
    }

    method LPush(node: ListNode?<V>) returns (r: ListNode?<V>)
      requires Valid() && (node != null ==> node !in nodes && node !in freed && |nodes| < 0xFFFF_FFFF)
      modifies this, nodes, node
      ensures Valid() && r == node && freed == old(freed)
      ensures nodes == if node == null then old(nodes) else [node] + old(nodes)
      ensures Vals() == if node == null then old(Vals()) else [old(node.val)] + old(Vals())
    {
      if node == null {
        return null;
      }
      if len != 0 {
        node.next := head;
        node.prev := null;
        head.prev := node;
        head := node;
      } else {
        head, tail := node, node;
        node.prev, node.next := null, null;
      }
      len := len + 1;
      nodes := [node] + nodes;
      return node;
    }

    method RPop() returns (node: ListNode?<V>)
      requires Valid()
      modifies this, nodes
      ensures Valid() && freed == old(freed)
      ensures node == null <==> old(nodes) == []
      ensures node == null ==> nodes == old(nodes) && Vals() == old(Vals())
      ensures node != null ==> old(nodes) == nodes + [node] && old(Vals()) == Vals() + [node.val]
      ensures node != null ==> node.prev == node.next == null
    {
      if len == 0 {
        return null;
      }
      node := tail;
      len := len - 1;
      if len != 0 {
        tail := node.prev;
        tail.next := null;
      } else {
        tail, head := null, null;
      }
      node.next, node.prev := null, null;
      nodes := nodes[..|nodes| - 1];
    }

    method LPop() returns (node: ListNode?<V>)
      requires Valid()
      modifies this, nodes
      ensures Valid() && freed == old(freed)
      ensures node == null <==> old(nodes) == []
      ensures node == null ==> nodes == old(nodes) && Vals() == old(Vals())
      ensures node != null ==> old(nodes) == [node] + nodes && old(Vals()) == [node.val] + Vals()
      ensures node != null ==> node.prev == node.next == null
    {
      if len == 0 {
        return null;
      }
      node := head;
      len := len - 1;
      if len != 0 {
        head := node.next;
        head.prev := null;
      } else {
        head, tail := null, null;
      }
      node.next, node.prev := null, null;
      nodes := nodes[1..];
    }

    /** Bypassing node k in both directions leaves a list of the other nodes. */
    twostate lemma Bypassed(k: nat)
      requires old(Valid()) && k < |old(nodes)|
      requires nodes == old(nodes)[..k] + old(nodes)[k + 1..] && len == old(len) - 1
      requires freed == old(freed) + {old(nodes)[k]}
      requires var b := old(nodes);
               && head == (if k == 0 then old(b[0].next) else old(head))
               && tail == (if k == |b| - 1 then old(b[k].prev) else old(tail))
               && (forall i {:trigger b[i].next} :: 0 <= i < |b| ==> b[i].next == if i + 1 == k then old(b[k].next) else old(b[i].next))
               && (forall i {:trigger b[i].prev} :: 0 <= i < |b| ==> b[i].prev == if i == k + 1 then old(b[k].prev) else old(b[i].prev))
      ensures Valid()
    {
      var b := old(nodes);
      assert forall i :: 0 <= i < |nodes| ==> nodes[i] == b[if i < k then i else i + 1];
    }

    /** Unlinks and frees a node of the list, wherever it is. */
    method Remove(node: ListNode<V>, ghost k: nat)
      requires Valid() && k < |nodes| && node == nodes[k]
      modifies this, nodes`prev, nodes`next
      ensures Valid() && freed == old(freed) + {node}
      ensures nodes == Without(old(nodes), k) && forall i :: 0 <= i < |nodes| ==> nodes[i] in old(nodes)
      ensures forall n :: n in old(nodes) ==> n.val == old(n.val)
    {
      if node.prev != null {
        node.prev.next := node.next;
      } else {
        head := node.next;
      }
      if node.next != null {
        node.next.prev := node.prev;
      } else {
        tail := node.prev;
      }
      freed := freed + {node};
      nodes := nodes[..k] + nodes[k + 1..];
      if len != 0 {
        len := len - 1;
      }
      Bypassed(k);
    }
  
    /** Frees every node once, front to back, reading each link before its node is freed. */
    method Destroy() returns (ghost released: seq<ListNode<V>>)
      requires Valid()
      modifies this`freed
      ensures released == nodes && freed == old(freed) + NodeSet(nodes)
    {
      var left := len;
      var curr := head;
      released := [];
      while left != 0
        invariant 0 <= left <= |nodes|
        invariant curr == if left == 0 then null else nodes[|nodes| - left]
        invariant released == nodes[..|nodes| - left] && freed == old(freed) + NodeSet(released)
      {
        left := left - 1;
        assert curr !in freed;
        var next := curr.next;
        released := released + [curr];
        freed := freed + {curr};
        curr := next;
      }
    }

    predicate Matches(wanted: V, val: V) {
      match matches
      case NoMatch => wanted == val
      case MatchWith(f) => f(wanted, val)
    }

    /** The first matching node; `alloc` says whether memory for the iterator could be had. */
    method Find(wanted: V, alloc: bool) returns (node: ListNode?<V>)
      requires Valid()
      ensures node == null <==> !alloc || forall i :: 0 <= i < |nodes| ==> !Matches(wanted, nodes[i].val)
      ensures node != null ==>
                exists k :: 0 <= k < |nodes| && nodes[k] == node && Matches(wanted, node.val)
                            && forall i :: 0 <= i < k ==> !Matches(wanted, nodes[i].val)
    {
      if !alloc {
        return null;
      }
      var it := new ListIterator<V>(head, HEAD);
      node := it.Next(this, 0);
      ghost var k := 0;
      while node != null
        invariant 0 <= k <= |nodes|
        invariant node == if k < |nodes| then nodes[k] else null
        invariant it.direction.HEAD? && it.At(this, if k < |nodes| then k + 1 else k)
        invariant forall i :: 0 <= i < k ==> !Matches(wanted, nodes[i].val)
        decreases |nodes| - k
      {
        if Matches(wanted, node.val) {
          return node;
        }
        node := it.Next(this, k + 1);
        k := k + 1;
      }
    }

    /** Element `index` counting from the front, or from the back when negative; null exactly when there is none. */
    method At(index: i32, alloc: bool) returns (node: ListNode?<V>)
      requires Valid()
      ensures var k := if index >= 0 then index else |nodes| + index;
              node == if alloc && 0 <= k < |nodes| then nodes[k] else null
    {
      var direction, steps := HEAD, index;
      if steps < 0 {
        direction, steps := TAIL, -steps - 1;
      }
      if steps < len {
        if !alloc {
          return null;
        }
        var it := new ListIterator<V>(if direction == HEAD then head else tail, direction);
        ghost var k := if direction == HEAD then 0 else |nodes| - 1;
        node := it.Next(this, k);
        ghost var target := if direction == HEAD then steps else |nodes| - 1 - steps;
        while steps != 0
          invariant 0 <= steps && 0 <= k < |nodes|
          invariant node == nodes[k] && it.direction == direction
          invariant target == if direction == HEAD then k + steps else k - steps
          invariant 0 <= target < |nodes|
          invariant it.At(this, if direction == HEAD then k + 1 else k - 1)
        {
          steps := steps - 1;
          k := if direction == HEAD then k + 1 else k - 1;
          node := it.Next(this, k);
        }
        return node;
      }
      return null;
    }
  }

  class ListIterator<V(==)> {
    var next: ListNode?<V>
    const direction: Direction

    constructor (node: ListNode?<V>, direction: Direction)
      ensures next == node && this.direction == direction
    {
      next := node;
      this.direction := direction;
    }

    /** The next node to be handed out is number k, or there is none because k is off the end. */
    ghost predicate At(list: List<V>, k: int)
      reads this, list
    {
      && -1 <= k <= |list.nodes| && (direction.HEAD? ==> 0 <= k)
      && next == if 0 <= k < |list.nodes| then list.nodes[k] else null
    }

    /** Moves on before handing out the node, so the caller may free it. */
    method Next(ghost list: List<V>, ghost k: int) returns (curr: ListNode?<V>)
      requires list.Valid() && At(list, k)
      modifies this`next
      ensures curr == if 0 <= k < |list.nodes| then list.nodes[k] else null
      ensures At(list, if curr == null then k else if direction.HEAD? then k + 1 else k - 1)
    {
      curr := next;
      if curr != null {
        assert curr !in list.freed;
        next := if direction == HEAD then curr.next else curr.prev;
      }
    }
  }

  // ----- iterating while removing

  function Reversed<T>(s: seq<T>): (r: seq<T>)
    ensures |r| == |s| && forall i :: 0 <= i < |s| ==> r[i] == s[|s| - 1 - i]
  {
    if s == [] then [] else Reversed(s[1..]) + [s[0]]
  }

  /** The elements that are not dropped, in order. */
  function Kept<T>(s: seq<T>, drop: T -> bool): seq<T> {
    if s == [] then []
    else Kept(s[..|s| - 1], drop) + (if drop(s[|s| - 1]) then [] else [s[|s| - 1]])
  }

  lemma {:induction false} KeptConcat<T>(s: seq<T>, t: seq<T>, drop: T -> bool)
    ensures Kept(s + t, drop) == Kept(s, drop) + Kept(t, drop)
    decreases |t|
  {
    if t == [] {
      assert s + t == s;
    } else {
      var front := t[..|t| - 1];
      assert (s + t)[..|s + t| - 1] == s + front;
      KeptConcat(s, front, drop);
    }
  }

  lemma KeptSnoc<T>(s: seq<T>, x: T, drop: T -> bool)
    ensures Kept(s + [x], drop) == Kept(s, drop) + if drop(x) then [] else [x]
  {
  }

  ghost function Dropped<T>(s: seq<T>, drop: T -> bool): set<T> { set x | x in s && drop(x) }

  lemma DroppedOne<T>(s: seq<T>, x: T, drop: T -> bool)
    ensures Dropped(s + [x], drop) == Dropped(s, drop) + (if drop(x) then {x} else {}) == Dropped([x] + s, drop)
  {
  }

  lemma Regroup<T>(a: set<T>, b: set<T>, c: set<T>)
    ensures a + b + c == a + (b + c)
  {
  }

  function Without<T>(s: seq<T>, k: nat): seq<T>
    requires k < |s|
  {
    s[..k] + s[k + 1..]
  }

  lemma WithoutMiddle<T>(s: seq<T>, x: T, t: seq<T>)
    ensures (s + ([x] + t))[|s|] == x && Without(s + ([x] + t), |s|) == s + t && (s + [x]) + t == s + ([x] + t)
  {
  }

  /** The list part-way through a forward sweep: the first a elements decided, the others untouched. */
  function Midway<T>(all: seq<T>, a: nat, drop: T -> bool): (now: seq<T>)
    requires a <= |all|
    ensures |now| == |Kept(all[..a], drop)| + |all| - a
  {
    Kept(all[..a], drop) + all[a..]
  }

  function Position<T>(all: seq<T>, a: nat, drop: T -> bool): nat
    requires a <= |all|
  {
    |Kept(all[..a], drop)|
  }

  /** Deciding on element a, with everything before it decided already. */
  lemma ForwardStep<T>(all: seq<T>, a: nat, drop: T -> bool)
    requires a < |all|
    ensures var p, p' := Position(all, a, drop), Position(all, a + 1, drop);
            var now, now' := Midway(all, a, drop), Midway(all, a + 1, drop);
            && |now| == p + |all| - a && |now'| == p' + |all| - a - 1 && now[p] == all[a]
            && p' == (if drop(all[a]) then p else p + 1)
            && now' == (if drop(all[a]) then Without(now, p) else now)
            && all[..a] + [all[a]] == all[..a + 1]
            && Dropped(all[..a + 1], drop) == Dropped(all[..a], drop) + if drop(all[a]) then {all[a]} else {}
  {
    DroppedOne(all[..a], all[a], drop);
    KeptSnoc(all[..a], all[a], drop);
    WithoutMiddle(Kept(all[..a], drop), all[a], all[a + 1..]);
    hide Kept, Without, Dropped;
    assert all[..a] + [all[a]] == all[..a + 1];
    assert all[a..] == [all[a]] + all[a + 1..];
  }

  lemma ForwardEnds<T>(all: seq<T>, drop: T -> bool)
    ensures Midway(all, 0, drop) == all && Position(all, 0, drop) == 0
    ensures Midway(all, |all|, drop) == Kept(all, drop) && Position(all, |all|, drop) == |Kept(all, drop)|
    ensures all[..|all|] == all && Dropped(all[..0], drop) == {}
  {
    assert all[..|all|] == all;
  }

  /** The list part-way through a backward sweep: the first b elements untouched, the others decided. */
  function MidwayBack<T>(all: seq<T>, b: nat, drop: T -> bool): (now: seq<T>)
    requires b <= |all|
    ensures |now| >= b
  {
    all[..b] + Kept(all[b..], drop)
  }

  /** Deciding on element b - 1, with everything after it decided already. */
  lemma BackwardStep<T>(all: seq<T>, b: nat, drop: T -> bool)
    requires 0 < b <= |all|
    ensures var now, now' := MidwayBack(all, b, drop), MidwayBack(all, b - 1, drop);
            && now[b - 1] == all[b - 1]
            && now' == (if drop(all[b - 1]) then Without(now, b - 1) else now)
            && Dropped(all[b - 1..], drop) == Dropped(all[b..], drop) + if drop(all[b - 1]) then {all[b - 1]} else {}
  {
    hide Kept, Dropped;
    var x := all[b - 1];
    DroppedOne(all[b..], x, drop);
    KeptOne(x, drop);
    KeptConcat([x], all[b..], drop);
    assert [x] + all[b..] == all[b - 1..];
    assert all[..b] == all[..b - 1] + [x];
  }

  lemma ReversedStep<T>(all: seq<T>, b: nat)
    requires 0 < b <= |all|
    ensures Reversed(all[b..]) + [all[b - 1]] == Reversed(all[b - 1..])
  {
  }

  lemma KeptOne<T>(x: T, drop: T -> bool)
    ensures Kept([x], drop) == if drop(x) then [] else [x]
  {
  }

  lemma BackwardEnds<T>(all: seq<T>, drop: T -> bool)
    ensures MidwayBack(all, |all|, drop) == all && MidwayBack(all, 0, drop) == Kept(all, drop)
    ensures Reversed(all[|all|..]) == [] && all[0..] == all && Dropped(all[|all|..], drop) == {}
  {
  }

  /**
    Having been handed node p, the caller may free it before asking for the next one: the iterator has
    already moved off it, so what comes next is the neighbour in the original list.
   */
  method Advance<V(==)>(list: List<V>, it: ListIterator<V>, node: ListNode<V>, ghost p: nat, free: bool)
    returns (next: ListNode?<V>)
    requires list.Valid() && p < |list.nodes| && node == list.nodes[p]
    requires it.At(list, if it.direction.HEAD? then p + 1 else p - 1)
    modifies list, list.nodes`prev, list.nodes`next, it
    ensures list.Valid() && list.nodes == if free then Without(old(list.nodes), p) else old(list.nodes)
    ensures forall i :: 0 <= i < |list.nodes| ==> list.nodes[i] in old(list.nodes)
    ensures list.freed == old(list.freed) + if free then {node} else {}
    ensures next == if it.direction.HEAD? then (if p + 1 < |old(list.nodes)| then old(list.nodes)[p + 1] else null)
                    else (if p > 0 then old(list.nodes)[p - 1] else null)
    ensures var k := if it.direction.TAIL? then p - 1 else if free then p else p + 1;
            && next == (if 0 <= k < |list.nodes| then list.nodes[k] else null)
            && it.At(list, if next == null then k else if it.direction.HEAD? then k + 1 else k - 1)
  {
    hide List<V>.Valid;
    if free {
      list.Remove(node, p);
    }
    next := it.Next(list, if it.direction.TAIL? then p - 1 else if free then p else p + 1);
  }

  /** One turn of the sweep from the front. */
  method AdvanceFront<V(==)>(list: List<V>, it: ListIterator<V>, node: ListNode<V>, drop: ListNode<V> -> bool,
                             ghost all: seq<ListNode<V>>, ghost a: nat, ghost before: set<ListNode<V>>)
    returns (next: ListNode?<V>)
    requires list.Valid() && a < |all| && list.nodes == Midway(all, a, drop)
    requires var p := Position(all, a, drop);
             p < |list.nodes| && node == list.nodes[p] && it.direction.HEAD? && it.At(list, p + 1)
    requires list.freed == before + Dropped(all[..a], drop)
    modifies list, list.nodes`prev, list.nodes`next, it
    ensures list.Valid() && list.nodes == Midway(all, a + 1, drop)
    ensures var p := Position(all, a + 1, drop);
            && next == (if p < |list.nodes| then list.nodes[p] else null)
            && it.At(list, if next == null then p else p + 1)
            && |list.nodes| == p + |all| - a - 1
    ensures forall i :: 0 <= i < |list.nodes| ==> list.nodes[i] in old(list.nodes)
    ensures list.freed == before + Dropped(all[..a + 1], drop)
  {
    hide Kept, Midway, Position, Dropped, List<V>.Valid, ListIterator<V>.At;
    ForwardStep<ListNode<V>>(all, a, drop);
    Regroup(before, Dropped(all[..a], drop), if drop(node) then {node} else {});
    next := Advance(list, it, node, Position(all, a, drop), drop(node));
  }

  /**
    Walking the list from the front and freeing any of the nodes just handed out visits every original
    node once, in order, and leaves exactly the others.
   */
  method SweepForward<V(==)>(list: List<V>, drop: ListNode<V> -> bool) returns (ghost visited: seq<ListNode<V>>)
    requires list.Valid()
    modifies list, list.nodes`prev, list.nodes`next
    ensures visited == old(list.nodes)
    ensures list.Valid() && list.nodes == Kept(old(list.nodes), drop)
    ensures list.freed == old(list.freed) + Dropped(old(list.nodes), drop)
    ensures forall n :: n in old(list.nodes) ==> n.val == old(n.val)
  {
    hide Kept, Midway, Position, Dropped, List<V>.Valid;
    ghost var all: seq<ListNode<V>>, a := list.nodes, 0;
    ForwardEnds<ListNode<V>>(all, drop);
    list.Ends();
    var it := new ListIterator<V>(list.head, HEAD);
    var node := it.Next(list, 0);
    visited := all[..a];
    hide ListIterator<V>.At;
    while node != null
      invariant 0 <= a <= |all| && visited == all[..a]
      invariant list.Valid() && list.nodes == Midway(all, a, drop)
      invariant it.direction.HEAD? && fresh(it)
      invariant var p := Position(all, a, drop);
                && node == (if p < |list.nodes| then list.nodes[p] else null)
                && it.At(list, if node == null then p else p + 1)
                && |list.nodes| == p + |all| - a
      invariant forall i :: 0 <= i < |list.nodes| ==> list.nodes[i] in all
      invariant list.freed == old(list.freed) + Dropped(all[..a], drop)
      decreases |all| - a
    {
      assert all[..a + 1] == all[..a] + [all[a]];
      visited := visited + [all[a]];
      node := AdvanceFront(list, it, node, drop, all, a, old(list.freed));
      a := a + 1;
    }
  }

  /** One turn of the sweep from the back. */
  method AdvanceBack<V(==)>(list: List<V>, it: ListIterator<V>, node: ListNode<V>, drop: ListNode<V> -> bool,
                            ghost all: seq<ListNode<V>>, ghost b: nat, ghost before: set<ListNode<V>>)
    returns (next: ListNode?<V>)
    requires list.Valid() && 0 < b <= |all| && list.nodes == MidwayBack(all, b, drop)
    requires node == list.nodes[b - 1] && it.direction.TAIL? && it.At(list, b - 2)
    requires list.freed == before + Dropped(all[b..], drop)
    modifies list, list.nodes`prev, list.nodes`next, it
    ensures list.Valid() && list.nodes == MidwayBack(all, b - 1, drop)
    ensures next == (if b > 1 then list.nodes[b - 2] else null) && it.At(list, if b > 1 then b - 3 else -1)
    ensures forall i :: 0 <= i < |list.nodes| ==> list.nodes[i] in old(list.nodes)
    ensures list.freed == before + Dropped(all[b - 1..], drop)
  {
    hide Kept, MidwayBack, Dropped, List<V>.Valid, ListIterator<V>.At;
    BackwardStep<ListNode<V>>(all, b, drop);
    Regroup(before, Dropped(all[b..], drop), if drop(node) then {node} else {});
    next := Advance(list, it, node, b - 1, drop(node));
  }

  /** The same from the back; the visit order is the reverse. */
  method SweepBackward<V(==)>(list: List<V>, drop: ListNode<V> -> bool) returns (ghost visited: seq<ListNode<V>>)
    requires list.Valid()
    modifies list, list.nodes`prev, list.nodes`next
    ensures visited == Reversed(old(list.nodes))
    ensures list.Valid() && list.nodes == Kept(old(list.nodes), drop)
    ensures list.freed == old(list.freed) + Dropped(old(list.nodes), drop)
    ensures forall n :: n in old(list.nodes) ==> n.val == old(n.val)
  {
    hide Kept, MidwayBack, Reversed, Dropped, List<V>.Valid;
    ghost var all: seq<ListNode<V>>, b := list.nodes, |list.nodes|;
    BackwardEnds<ListNode<V>>(all, drop);
    list.Ends();
    var it := new ListIterator<V>(list.tail, TAIL);
    var node := it.Next(list, b - 1);
    visited := Reversed(all[b..]);
    hide ListIterator<V>.At;
    while node != null
      invariant 0 <= b <= |all| && visited == Reversed(all[b..])
      invariant list.Valid() && list.nodes == MidwayBack(all, b, drop)
      invariant it.direction.TAIL? && fresh(it)
      invariant node == (if b > 0 then list.nodes[b - 1] else null) && it.At(list, if b > 0 then b - 2 else -1)
      invariant forall i :: 0 <= i < |list.nodes| ==> list.nodes[i] in all
      invariant list.freed == old(list.freed) + Dropped(all[b..], drop)
      decreases b
    {
      ReversedStep<ListNode<V>>(all, b);
      visited := visited + [all[b - 1]];
      node := AdvanceBack(list, it, node, drop, all, b, old(list.freed));
      b := b - 1;
    }
  }

  // ----- any sequence of list operations

  /** `alloc` says whether the node, or the iterator of list_at, can be allocated. */
  datatype ListOp<V> =
    | PushBack(val: V, alloc: bool)
    | PushFront(val: V, alloc: bool)
    | PopBack
    | PopFront
    | RemoveAt(index: i32, alloc: bool)

  datatype Reply<V> = Nothing | Got(val: V)

  datatype Played<V> = Played(vals: seq<V>, replies: seq<Reply<V>>)

  /** What an operation does to a deque: its elements afterwards, and the element handed out. */
  function PlayOne<V>(vals: seq<V>, op: ListOp<V>): (seq<V>, Reply<V>) {
    match op
    case PushBack(val, alloc) => (if alloc then vals + [val] else vals, Nothing)
    case PushFront(val, alloc) => (if alloc then [val] + vals else vals, Nothing)
    case PopBack => if vals == [] then (vals, Nothing) else (vals[..|vals| - 1], Got(vals[|vals| - 1]))
    case PopFront => if vals == [] then (vals, Nothing) else (vals[1..], Got(vals[0]))
    case RemoveAt(index, alloc) =>
      var k := if index >= 0 then index else |vals| + index;
      if alloc && 0 <= k < |vals| then (Without(vals, k), Got(vals[k])) else (vals, Nothing)
  }

  function Play<V>(vals: seq<V>, ops: seq<ListOp<V>>): Played<V> {
    if ops == [] then Played(vals, [])
    else
      var before := Play(vals, ops[..|ops| - 1]);
      var (now, reply) := PlayOne(before.vals, ops[|ops| - 1]);
      Played(now, before.replies + [reply])
  }

  /** list_remove of what list_at finds. */
  method DoRemove<V(==)>(list: List<V>, index: i32, alloc: bool) returns (reply: Reply<V>)
    requires list.Valid()
    modifies list, list.nodes
    ensures list.Valid() && |list.nodes| <= |old(list.nodes)|
    ensures forall j :: 0 <= j < |list.nodes| ==> list.nodes[j] in old(list.nodes)
    ensures (list.Vals(), reply) == PlayOne(old(list.Vals()), RemoveAt(index, alloc))
  {
    hide List<V>.Valid;
    var node := list.At(index, alloc);
    if node == null {
      return Nothing;
    }
    ghost var k := if index >= 0 then index else |list.nodes| + index;
    reply := Got(node.val);
    list.Remove(node, k);
    assert list.Vals() == Without(old(list.Vals()), k);
  }

  method DoOne<V(==)>(list: List<V>, op: ListOp<V>) returns (reply: Reply<V>)
    requires list.Valid() && |list.nodes| < 0xFFFF_FFFF
    modifies list, list.nodes
    ensures list.Valid() && |list.nodes| <= |old(list.nodes)| + 1
    ensures forall j :: 0 <= j < |list.nodes| ==> list.nodes[j] in old(list.nodes) || fresh(list.nodes[j])
    ensures (list.Vals(), reply) == PlayOne(old(list.Vals()), op)
  {
    hide List<V>.Valid;
    reply := Nothing;
    var node: ListNode?<V> := null;
    match op {
      case PushBack(val, alloc) =>
        if alloc {
          node := new ListNode<V>(val);
        }
        node := list.RPush(node);
      case PushFront(val, alloc) =>
        if alloc {
          node := new ListNode<V>(val);
        }
        node := list.LPush(node);
      case PopBack =>
        node := list.RPop();
        if node != null {
          reply := Got(node.val);
          assert old(list.Vals())[..|old(list.Vals())| - 1] == list.Vals();
        }
      case PopFront =>
        node := list.LPop();
        if node != null {
          reply := Got(node.val);
          assert old(list.Vals())[1..] == list.Vals();
        }
      case RemoveAt(index, alloc) =>
        reply := DoRemove(list, index, alloc);
    }
  }

  /** Every sequence of operations on a list gives the elements and answers of a deque. */
  method DoAll<V(==)>(list: List<V>, ops: seq<ListOp<V>>) returns (replies: seq<Reply<V>>)
    requires list.Valid() && |list.nodes| + |ops| <= 0xFFFF_FFFF
    modifies list, list.nodes
    ensures list.Valid()
    ensures Played(list.Vals(), replies) == Play(old(list.Vals()), ops)
  {
    hide List<V>.Valid, List<V>.Vals, PlayOne;
    replies := [];
    for i := 0 to |ops|
      invariant list.Valid() && |list.nodes| <= |old(list.nodes)| + i
      invariant forall j :: 0 <= j < |list.nodes| ==> list.nodes[j] in old(list.nodes) || fresh(list.nodes[j])
      invariant Played(list.Vals(), replies) == Play(old(list.Vals()), ops[..i])
    {
      assert ops[..i + 1][..i] == ops[..i];
      var reply := DoOne(list, ops[i]);
      replies := replies + [reply];
    }
    assert ops[..|ops|] == ops;
  }
}
