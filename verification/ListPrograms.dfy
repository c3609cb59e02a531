/**
  list_rpush and list_lpop of c_tcp_to_can/src/can_msg_list.c as programs of single loads and stores
  on one memory, so that other threads can be let in between any two of them.

  CanList is the same list as heap objects, one call at a time.
 */
module ListPrograms {
  import opened CanClient

  // ----- memory and programs

  /** Nodes live at non-zero addresses; 0 is NULL. */
  datatype Node = Node(prev: nat, next: nat, val: CanFrame)

  type Heap = map<nat, Node>

  datatype Memory = Memory(head: nat, tail: nat, len: nat, nodes: Heap)

  /** The local variable `node` of a list function, and a register. */
  datatype Cpu = Cpu(node: nat, reg: nat)

  datatype Config = Config(mem: Memory, cpu: Cpu)

  datatype Cell = HeadCell | TailCell | PrevOfNode | NextOfNode | PrevOfReg | NextOfReg

  datatype Value = NULL | NODE | REG

  /** Each is one access to memory.  Shrink wraps an unsigned length of 0. */
  datatype Op = LoadLen | LoadTail | LoadNext | NodeIsHead | Grow | Shrink | Store(cell: Cell, value: Value)

  /** If looks at the register. */
  datatype Code = Done | Do(op: Op, rest: Code) | If(nonzero: Code, zero: Code)

  const UNUSED := Node(0, 0, CanFrame(0, [0, 0, 0, 0, 0, 0, 0, 0]))

  function At(h: Heap, a: nat): Node { if a in h then h[a] else UNUSED }

  /** The node an operation reads or writes, or 0 when it touches the list header only. */
  function Touched(c: Cpu, op: Op): nat {
    match op
    case LoadNext => c.node
    case Store(PrevOfNode, _) => c.node
    case Store(NextOfNode, _) => c.node
    case Store(PrevOfReg, _) => c.reg
    case Store(NextOfReg, _) => c.reg
    case _ => 0
  }

  predicate TouchesNode(op: Op) { op.LoadNext? || (op.Store? && !op.cell.HeadCell? && !op.cell.TailCell?) }

  predicate Allowed(x: Config, op: Op) { TouchesNode(op) ==> Touched(x.cpu, op) in x.mem.nodes }

  function SetPrev(h: Heap, a: nat, v: nat): Heap { h[a := At(h, a).(prev := v)] }

  function SetNext(h: Heap, a: nat, v: nat): Heap { h[a := At(h, a).(next := v)] }

  function Exec(x: Config, op: Op): Config {
    var m, c := x.mem, x.cpu;
    match op
    case LoadLen => x.(cpu := c.(reg := m.len))
    case LoadTail => x.(cpu := c.(reg := m.tail))
    case LoadNext => x.(cpu := c.(reg := At(m.nodes, c.node).next))
    case NodeIsHead => x.(cpu := c.(node := m.head))
    case Grow => Config(m.(len := c.reg + 1), c.(reg := c.reg + 1))
    case Shrink => var n := if c.reg == 0 then 0xFFFF_FFFF else c.reg - 1; Config(m.(len := n), c.(reg := n))
    case Store(cell, value) =>
      var v := match value case NULL => 0 case NODE => c.node case REG => c.reg;
      x.(mem := match cell
        case HeadCell => m.(head := v)
        case TailCell => m.(tail := v)
        case PrevOfNode => m.(nodes := SetPrev(m.nodes, c.node, v))
        case NextOfNode => m.(nodes := SetNext(m.nodes, c.node, v))
        case PrevOfReg => m.(nodes := SetPrev(m.nodes, c.reg, v))
        case NextOfReg => m.(nodes := SetNext(m.nodes, c.reg, v)))
  }

  /** One access or one branch, and what is left to do after it. */
  function After(x: Config, code: Code): Config
    requires !code.Done?
  {
    if code.Do? then Exec(x, code.op) else x
  }

  function Rest(x: Config, code: Code): Code
    requires !code.Done?
  {
    if code.Do? then code.rest else if x.cpu.reg != 0 then code.nonzero else code.zero
  }

  /** After n steps. */
  function ConfigAfter(x: Config, code: Code, n: nat): Config
    decreases n
  {
    if n == 0 || code.Done? then x else ConfigAfter(After(x, code), Rest(x, code), n - 1)
  }

  function CodeAfter(x: Config, code: Code, n: nat): Code
    decreases n
  {
    if n == 0 || code.Done? then code else CodeAfter(After(x, code), Rest(x, code), n - 1)
  }

  /** Running a program to its end, alone. */
  function Finish(x: Config, code: Code): Config
    decreases code
  {
    match code
    case Done => x
    case Do(op, rest) => Finish(Exec(x, op), rest)
    case If(nonzero, zero) => if x.cpu.reg != 0 then Finish(x, nonzero) else Finish(x, zero)
  }

  /** Every access of that run is to a node that is allocated. */
  predicate Safe(x: Config, code: Code)
    decreases code
  {
    match code
    case Done => true
    case Do(op, rest) => Allowed(x, op) && Safe(Exec(x, op), rest)
    case If(nonzero, zero) => if x.cpu.reg != 0 then Safe(x, nonzero) else Safe(x, zero)
  }

  /** Steps a program takes at most. */
  function Length(code: Code): nat {
    match code
    case Done => 0
    case Do(_, rest) => 1 + Length(rest)
    case If(nonzero, zero) => 1 + if Length(nonzero) < Length(zero) then Length(zero) else Length(nonzero)
  }

  /** list_rpush of `node`. */
  function RPush(): Code {
    Do(LoadLen, If(
      Do(LoadTail, Do(Store(PrevOfNode, REG), Do(Store(NextOfNode, NULL),
      Do(LoadTail, Do(Store(NextOfReg, NODE), Do(Store(TailCell, NODE), AddOne())))))),
      Do(Store(TailCell, NODE), Do(Store(HeadCell, NODE),
      Do(Store(NextOfNode, NULL), Do(Store(PrevOfNode, NULL), AddOne()))))))
  }

  function AddOne(): Code { Do(LoadLen, Do(Grow, Done)) }

  /** list_lpop, leaving the node popped, or NULL, in `node`; started with node NULL. */
  function LPop(): Code {
    Do(LoadLen, If(
      Do(NodeIsHead, Do(LoadLen, Do(Shrink, If(
        Do(LoadNext, Do(Store(HeadCell, REG), Do(Store(PrevOfReg, NULL), Unlink()))),
        Do(Store(TailCell, NULL), Do(Store(HeadCell, NULL), Unlink())))))),
      Done))
  }

  function Unlink(): Code { Do(Store(PrevOfNode, NULL), Do(Store(NextOfNode, NULL), Done)) }

  // ----- the list in memory

  function Members(order: seq<nat>): set<nat> { set a | a in order }

  predicate Distinct(order: seq<nat>) { forall i, j :: 0 <= i < j < |order| ==> order[i] != order[j] }

  ghost predicate LinkedAt(h: Heap, order: seq<nat>, i: nat)
    requires i < |order|
  {
    && At(h, order[i]).prev == (if i == 0 then 0 else order[i - 1])
    && At(h, order[i]).next == (if i == |order| - 1 then 0 else order[i + 1])
  }

  ghost predicate Linked(h: Heap, order: seq<nat>) { forall i :: 0 <= i < |order| ==> LinkedAt(h, order, i) }

  /** The list holds the nodes `order`; those and `spare` are what is allocated. */
  ghost predicate Shape(m: Memory, order: seq<nat>, spare: set<nat>) {
    && m.len == |order|
    && m.head == (if order == [] then 0 else order[0])
    && m.tail == (if order == [] then 0 else order[|order| - 1])
    && m.nodes.Keys == Members(order) + spare && Members(order) !! spare && 0 !in m.nodes
    && Distinct(order) && Linked(m.nodes, order)
  }

  /** The first n addresses met from a on along `next`. */
  function Walk(m: Memory, a: nat, n: nat): seq<nat>
    decreases n
  {
    if n == 0 then [] else [a] + Walk(m, At(m.nodes, a).next, n - 1)
  }

  function Chain(m: Memory): seq<nat> { Walk(m, m.head, m.len) }

  function Vals(m: Memory, order: seq<nat>): seq<CanFrame> {
    seq(|order|, i requires 0 <= i < |order| => At(m.nodes, order[i]).val)
  }

  /** The frames met in walking the list from its head. */
  function Frames(m: Memory): seq<CanFrame> { Vals(m, Chain(m)) }

  ghost predicate SameVals(m: Memory, m': Memory) {
    m.nodes.Keys == m'.nodes.Keys && forall a :: a in m.nodes ==> At(m'.nodes, a).val == At(m.nodes, a).val
  }

  lemma {:induction false} WalkFrom(m: Memory, order: seq<nat>, spare: set<nat>, i: nat)
    requires Shape(m, order, spare) && i <= |order|
    ensures Walk(m, if i < |order| then order[i] else 0, |order| - i) == order[i..]
    decreases |order| - i
  {
    if i < |order| {
      assert LinkedAt(m.nodes, order, i);
      WalkFrom(m, order, spare, i + 1);
      assert order[i..] == [order[i]] + order[i + 1..];
    }
  }

  /** The links determine the list. */
  lemma ChainIs(m: Memory, order: seq<nat>, spare: set<nat>)
    requires Shape(m, order, spare)
    ensures Chain(m) == order && Frames(m) == Vals(m, order)
  {
    WalkFrom(m, order, spare, 0);
  }

  /** Memory after list_rpush of n, and after list_lpop, run alone. */
  function AfterPush(m: Memory, n: nat): Memory {
    if m.len != 0 then Memory(m.head, n, m.len + 1, SetNext(SetNext(SetPrev(m.nodes, n, m.tail), n, 0), m.tail, n))
    else Memory(n, n, 1, SetPrev(SetNext(m.nodes, n, 0), n, 0))
  }

  function AfterPop(m: Memory): Memory {
    var h, s := m.head, At(m.nodes, m.head).next;
    if m.len == 0 then m
    else if m.len == 1 then Memory(0, 0, 0, SetNext(SetPrev(m.nodes, h, 0), h, 0))
    else Memory(s, m.tail, m.len - 1, SetNext(SetPrev(SetPrev(m.nodes, s, 0), h, 0), h, 0))
  }

  lemma Sets(h: Heap, a: nat, v: nat)
    requires a in h
    ensures SetPrev(h, a, v).Keys == h.Keys == SetNext(h, a, v).Keys
    ensures forall b :: At(SetPrev(h, a, v), b) == if b == a then At(h, a).(prev := v) else At(h, b)
    ensures forall b :: At(SetNext(h, a, v), b) == if b == a then At(h, a).(next := v) else At(h, b)
  {
  }

  lemma Step(x: Config, code: Code) returns (y: Config, rest: Code)
    requires !code.Done?
    ensures y == After(x, code) && rest == Rest(x, code)
    ensures Finish(x, code) == Finish(y, rest)
    ensures Safe(x, code) <==> (code.Do? ==> Allowed(x, code.op)) && Safe(y, rest)
  {
    y, rest := After(x, code), Rest(x, code);
  }

  lemma AddOneRuns(x: Config)
    ensures Finish(x, AddOne()).mem == x.mem.(len := x.mem.len + 1) && Safe(x, AddOne())
  {
  }

  lemma UnlinkRuns(x: Config)
    ensures var h, n := x.mem.nodes, x.cpu.node;
            && Finish(x, Unlink()) == x.(mem := x.mem.(nodes := SetNext(SetPrev(h, n, 0), n, 0)))
            && (n in h ==> Safe(x, Unlink()))
  {
    hide At;
  }

  lemma Push1(x: Config) returns (y: Config)
    requires x.mem.len != 0
    ensures Finish(x, RPush()) == Finish(y, AddOne())
    ensures y.mem == AfterPush(x.mem, x.cpu.node).(len := x.mem.len)
    ensures x.cpu.node in x.mem.nodes && x.mem.tail in x.mem.nodes && Safe(y, AddOne()) ==> Safe(x, RPush())
  {
    hide At, AddOne, Finish, Safe;
    var code;
    y, code := Step(x, RPush());
    y, code := Step(y, code);
    y, code := Step(y, code);
    y, code := Step(y, code);
    y, code := Step(y, code);
    y, code := Step(y, code);
    y, code := Step(y, code);
    y, code := Step(y, code);
  }

  lemma Push0(x: Config) returns (y: Config)
    requires x.mem.len == 0
    ensures Finish(x, RPush()) == Finish(y, AddOne())
    ensures y.mem == AfterPush(x.mem, x.cpu.node).(len := x.mem.len)
    ensures x.cpu.node in x.mem.nodes && Safe(y, AddOne()) ==> Safe(x, RPush())
  {
    hide At, AddOne, Finish, Safe;
    var code;
    y, code := Step(x, RPush());
    y, code := Step(y, code);
    y, code := Step(y, code);
    y, code := Step(y, code);
    y, code := Step(y, code);
    y, code := Step(y, code);
  }

  lemma Pop1(x: Config) returns (y: Config)
    requires x.mem.len == 1
    ensures Finish(x, LPop()) == Finish(y, Unlink())
    ensures y.mem == Memory(0, 0, 0, x.mem.nodes) && y.cpu.node == x.mem.head
    ensures Safe(x, LPop()) <==> Safe(y, Unlink())
  {
    hide At, Unlink, Finish, Safe;
    var code;
    y, code := Step(x, LPop());
    y, code := Step(y, code);
    y, code := Step(y, code);
    y, code := Step(y, code);
    y, code := Step(y, code);
    y, code := Step(y, code);
    y, code := Step(y, code);
    y, code := Step(y, code);
  }

  lemma Pop2(x: Config) returns (y: Config)
    requires x.mem.len > 1
    ensures Finish(x, LPop()) == Finish(y, Unlink())
    ensures var m, s := x.mem, At(x.mem.nodes, x.mem.head).next;
            && y.mem == Memory(s, m.tail, m.len - 1, SetPrev(m.nodes, s, 0)) && y.cpu.node == m.head
            && (m.head in m.nodes && s in m.nodes && Safe(y, Unlink()) ==> Safe(x, LPop()))
  {
    hide At, Unlink, Finish, Safe;
    var code;
    y, code := Step(x, LPop());
    y, code := Step(y, code);
    y, code := Step(y, code);
    y, code := Step(y, code);
    y, code := Step(y, code);
    y, code := Step(y, code);
    y, code := Step(y, code);
    y, code := Step(y, code);
    y, code := Step(y, code);
  }

  lemma PushRuns(x: Config)
    requires x.cpu.node in x.mem.nodes && (x.mem.len != 0 ==> x.mem.tail in x.mem.nodes)
    ensures Finish(x, RPush()).mem == AfterPush(x.mem, x.cpu.node) && Safe(x, RPush())
  {
    hide RPush, AddOne, At, SetPrev, SetNext, Finish, Safe;
    var y;
    if x.mem.len != 0 {
      y := Push1(x);
    } else {
      y := Push0(x);
    }
    AddOneRuns(y);
  }

  lemma PopRuns(x: Config)
    requires x.mem.len != 0 ==> x.mem.head in x.mem.nodes
    requires x.mem.len > 1 ==> At(x.mem.nodes, x.mem.head).next in x.mem.nodes
    ensures Finish(x, LPop()).mem == AfterPop(x.mem) && Safe(x, LPop())
    ensures Finish(x, LPop()).cpu.node == if x.mem.len == 0 then x.cpu.node else x.mem.head
  {
    if x.mem.len == 0 {
      return;
    }
    hide LPop, Unlink, At, Finish, Safe;
    var y;
    if x.mem.len == 1 {
      y := Pop1(x);
    } else {
      y := Pop2(x);
    }
    UnlinkRuns(y);
  }

  lemma AfterPushNodes(m: Memory, n: nat)
    requires n in m.nodes && (m.len != 0 ==> m.tail in m.nodes && m.tail != n)
    ensures var h, h' := m.nodes, AfterPush(m, n).nodes;
            && h'.Keys == h.Keys
            && At(h', n) == At(h, n).(prev := if m.len != 0 then m.tail else 0, next := 0)
            && (m.len != 0 ==> At(h', m.tail) == At(h, m.tail).(next := n))
            && forall b :: b != n && (m.len != 0 ==> b != m.tail) ==> At(h', b) == At(h, b)
    ensures SameVals(m, AfterPush(m, n))
  {
    hide SetPrev, SetNext, At;
    var h := m.nodes;
    if m.len != 0 {
      var h1 := SetPrev(h, n, m.tail);
      Sets(h, n, m.tail);
      Sets(h1, n, 0);
      Sets(SetNext(h1, n, 0), m.tail, n);
    } else {
      Sets(h, n, 0);
      Sets(SetNext(h, n, 0), n, 0);
    }
  }

  lemma AfterPopNodes(m: Memory)
    requires m.len != 0 && m.head in m.nodes
    requires m.len > 1 ==> At(m.nodes, m.head).next in m.nodes && At(m.nodes, m.head).next != m.head
    ensures var h, h', s := m.nodes, AfterPop(m).nodes, At(m.nodes, m.head).next;
            && h'.Keys == h.Keys
            && At(h', m.head) == At(h, m.head).(prev := 0, next := 0)
            && (m.len > 1 ==> At(h', s) == At(h, s).(prev := 0))
            && forall b :: b != m.head && (m.len > 1 ==> b != s) ==> At(h', b) == At(h, b)
    ensures SameVals(m, AfterPop(m))
  {
    hide SetPrev, SetNext, At;
    var h := m.nodes;
    var s := At(h, m.head).next;
    var h1 := if m.len == 1 then h else SetPrev(h, s, 0);
    if m.len > 1 {
      Sets(h, s, 0);
    }
    Sets(h1, m.head, 0);
    Sets(SetPrev(h1, m.head, 0), m.head, 0);
  }

  lemma PushLinks(h: Heap, h': Heap, order: seq<nat>, n: nat)
    requires Distinct(order) && Linked(h, order) && n !in order
    requires At(h', n).prev == (if order == [] then 0 else order[|order| - 1]) && At(h', n).next == 0
    requires order != [] ==> At(h', order[|order| - 1]) == At(h, order[|order| - 1]).(next := n)
    requires forall i :: 0 <= i < |order| - 1 ==> At(h', order[i]) == At(h, order[i])
    ensures Distinct(order + [n]) && Linked(h', order + [n])
  {
    hide At;
    forall i | 0 <= i < |order| + 1
      ensures LinkedAt(h', order + [n], i)
    {
      assert i < |order| ==> LinkedAt(h, order, i);
    }
  }

  lemma PopLinks(h: Heap, h': Heap, order: seq<nat>)
    requires Distinct(order) && Linked(h, order) && order != []
    requires |order| > 1 ==> At(h', order[1]) == At(h, order[1]).(prev := 0)
    requires forall i :: 2 <= i < |order| ==> At(h', order[i]) == At(h, order[i])
    ensures Distinct(order[1..]) && Linked(h', order[1..])
  {
    hide At;
    forall i | 0 <= i < |order| - 1
      ensures LinkedAt(h', order[1..], i)
    {
      assert LinkedAt(h, order, i + 1);
    }
  }

  lemma AfterPushShape(m: Memory, order: seq<nat>, n: nat)
    requires Shape(m, order, {n})
    ensures Shape(AfterPush(m, n), order + [n], {}) && SameVals(m, AfterPush(m, n))
  {
    assert n !in order && Members(order + [n]) == Members(order) + {n} && forall a :: a in order ==> a in Members(order);
    AfterPushNodes(m, n);
    var m' := AfterPush(m, n);
    assert m' == Memory(if order == [] then n else order[0], n, m.len + 1, m'.nodes);
    hide AfterPush, At, Members, Linked, Distinct, SameVals;
    PushLinks(m.nodes, m'.nodes, order, n);
  }

  lemma AfterPopShape(m: Memory, order: seq<nat>)
    requires Shape(m, order, {}) && order != []
    ensures Shape(AfterPop(m), order[1..], {order[0]}) && SameVals(m, AfterPop(m))
  {
    assert order[0] !in order[1..];
    assert Members(order) == Members(order[1..]) + {order[0]} && forall a :: a in order ==> a in Members(order);
    assert LinkedAt(m.nodes, order, 0);
    assert order[0] !in Members(order[1..]);
    AfterPopNodes(m);
    var m' := AfterPop(m);
    assert m' == Memory(if |order| == 1 then 0 else order[1], if |order| == 1 then 0 else m.tail, m.len - 1, m'.nodes);
    hide AfterPop, At, Members, Linked, Distinct, SameVals;
    PopLinks(m.nodes, m'.nodes, order);
  }

  /** list_rpush run alone appends its node. */
  lemma PushEnds(x: Config, order: seq<nat>)
    requires Shape(x.mem, order, {x.cpu.node})
    ensures Safe(x, RPush())
    ensures var m' := Finish(x, RPush()).mem; Shape(m', order + [x.cpu.node], {}) && SameVals(x.mem, m')
  {
    if order != [] {
      assert order[|order| - 1] in Members(order);
    }
    AfterPushShape(x.mem, order, x.cpu.node);
    PushRuns(x);
  }

  /** list_lpop run alone takes the first node out, or nothing. */
  lemma PopEnds(x: Config, order: seq<nat>)
    requires Shape(x.mem, order, {}) && x.cpu.node == 0
    ensures Safe(x, LPop())
    ensures var y := Finish(x, LPop());
            if order == [] then y.mem == x.mem && y.cpu.node == 0
            else Shape(y.mem, order[1..], {order[0]}) && SameVals(x.mem, y.mem) && y.cpu.node == order[0]
  {
    if order != [] {
      AfterPopShape(x.mem, order);
      assert LinkedAt(x.mem.nodes, order, 0);
      assert forall i :: 0 <= i < |order| ==> order[i] in Members(order);
    }
    PopRuns(x);
  }

  // ----- what the programs mean

  /** Walking from the head meets `frames`; `spare` are the allocated nodes outside the list. */
  ghost predicate Listed(m: Memory, spare: set<nat>, frames: seq<CanFrame>) {
    Shape(m, Chain(m), spare) && Frames(m) == frames
  }

  lemma ListedLen(m: Memory, spare: set<nat>, frames: seq<CanFrame>)
    requires Listed(m, spare, frames)
    ensures m.len == |frames| && spare <= m.nodes.Keys && 0 !in m.nodes
  {
  }

  lemma ListedBy(m: Memory, order: seq<nat>, spare: set<nat>)
    requires Shape(m, order, spare)
    ensures Listed(m, spare, Vals(m, order))
  {
    ChainIs(m, order, spare);
  }

  /** A node is allocated: the list does not notice. */
  lemma ListedAlloc(m: Memory, frames: seq<CanFrame>, n: nat, val: CanFrame)
    requires Listed(m, {}, frames) && n != 0 && n !in m.nodes
    ensures Listed(m.(nodes := m.nodes[n := Node(0, 0, val)]), {n}, frames)
  {
    var order := Chain(m);
    var m' := m.(nodes := m.nodes[n := Node(0, 0, val)]);
    assert forall i :: 0 <= i < |order| ==> order[i] in Members(order) && At(m'.nodes, order[i]) == At(m.nodes, order[i]);
    SameLinks(m.nodes, m'.nodes, order);
    ListedBy(m', order, {n});
    assert Vals(m', order) == frames;
  }

  /** A node outside the list is freed: the list does not notice. */
  lemma ListedFree(m: Memory, frames: seq<CanFrame>, n: nat)
    requires Listed(m, {n}, frames)
    ensures Listed(m.(nodes := m.nodes - {n}), {}, frames)
  {
    var order := Chain(m);
    var m' := m.(nodes := m.nodes - {n});
    assert forall i :: 0 <= i < |order| ==> order[i] in Members(order) && At(m'.nodes, order[i]) == At(m.nodes, order[i]);
    SameLinks(m.nodes, m'.nodes, order);
    ListedBy(m', order, {});
    assert Vals(m', order) == frames;
  }

  lemma SameLinks(h: Heap, h': Heap, order: seq<nat>)
    requires Linked(h, order) && forall i :: 0 <= i < |order| ==> At(h', order[i]) == At(h, order[i])
    ensures Linked(h', order)
  {
    forall i | 0 <= i < |order|
      ensures LinkedAt(h', order, i)
    {
      assert LinkedAt(h, order, i);
    }
  }

  lemma ValsAppended(m: Memory, m': Memory, order: seq<nat>, n: nat)
    requires SameVals(m, m') && n in m.nodes && Members(order) <= m.nodes.Keys
    ensures Vals(m', order + [n]) == Vals(m, order) + [At(m.nodes, n).val]
    ensures order != [] ==> Vals(m', order[1..]) == Vals(m, order)[1..] && At(m'.nodes, order[0]).val == Vals(m, order)[0]
  {
    assert forall i :: 0 <= i < |order| ==> order[i] in Members(order);
    hide At;
  }

  /** list_rpush, run alone on a proper list, appends the frame of its node, touching allocated nodes only. */
  lemma RPushAppends(x: Config, frames: seq<CanFrame>)
    requires Listed(x.mem, {x.cpu.node}, frames)
    ensures Safe(x, RPush())
    ensures Listed(Finish(x, RPush()).mem, {}, frames + [At(x.mem.nodes, x.cpu.node).val])
  {
    var order, n := Chain(x.mem), x.cpu.node;
    PushEnds(x, order);
    hide Finish, Safe, RPush, Linked, Distinct, SameVals, Chain, At, Members, Vals;
    var m' := Finish(x, RPush()).mem;
    ListedBy(m', order + [n], {});
    ValsAppended(x.mem, m', order, n);
  }

  /** list_lpop, run alone on a proper list, takes its first node out, and on an empty one does nothing. */
  lemma LPopRemoves(x: Config, frames: seq<CanFrame>)
    requires Listed(x.mem, {}, frames) && x.cpu.node == 0
    ensures Safe(x, LPop())
    ensures var y := Finish(x, LPop());
            if frames == [] then y.mem == x.mem && y.cpu.node == 0
            else Listed(y.mem, {y.cpu.node}, frames[1..]) && At(y.mem.nodes, y.cpu.node).val == frames[0]
  {
    var order := Chain(x.mem);
    assert |frames| == |order|;
    PopEnds(x, order);
    if order != [] {
      assert order[0] in Members(order);
      hide Finish, Safe, LPop, Linked, Distinct, SameVals, Chain, At, Members, Vals;
      var m' := Finish(x, LPop()).mem;
      ListedBy(m', order[1..], {order[0]});
      ValsAppended(x.mem, m', order, order[0]);
    }
  }
}
