/**
  The keyword trie of MySQLParser/tireTree.cpp. Nodes live in an arena and point to each other by number;
  a slot is empty, holds a value (the tagged pointers of the source), or leads to another node. A key that
  is a prefix of another has its value in slot 0 of the node it leads to.
 */
module Trie {
  import Bytes
  import opened Options

  type byte = Bytes.byte

  type Value = nat
  type Key = seq<byte>

  datatype Slot = Null | Leaf(value: Value) | Ptr(node: nat)

  // ---------------------------------------------------------------- one node

  type Low = s: seq<Slot> | |s| == 8 witness [Null, Null, Null, Null, Null, Null, Null, Null]
  type Mid = s: seq<Option<Low>> | |s| == 8 witness [None, None, None, None, None, None, None, None]

  /** A node's 256 slots: two bits choose the first array, three bits the second, three bits the slot. */
  type Node = s: seq<Option<Mid>> | |s| == 4 witness [None, None, None, None]

  const EMPTY_LOW: Low := [Null, Null, Null, Null, Null, Null, Null, Null]
  const EMPTY_MID: Mid := [None, None, None, None, None, None, None, None]
  const EMPTY_NODE: Node := [None, None, None, None]

  function High(c: byte): (h: nat) ensures h < 4 { c / 64 }
  function Middle(c: byte): (m: nat) ensures m < 8 { c / 8 % 8 }
  function Bottom(c: byte): (l: nat) ensures l < 8 { c % 8 }

  /** node::get, lines 23-34. */
  function Get(n: Node, c: byte): Slot {
    match n[High(c)]
    case None => Null
    case Some(mid) =>
      match mid[Middle(c)]
      case None => Null
      case Some(low) => low[Bottom(c)]
  }

  /** The stores of node::put, lines 35-75, with the arrays they allocate on the way. */
  function Store(n: Node, c: byte, x: Slot): Node {
    var mid := if n[High(c)].Some? then n[High(c)].value else EMPTY_MID;
    var low := if mid[Middle(c)].Some? then mid[Middle(c)].value else EMPTY_LOW;
    n[High(c) := Some(mid[Middle(c) := Some(low[Bottom(c) := x])])]
  }

  lemma SameByte(c: byte, d: byte)
    requires High(c) == High(d) && Middle(c) == Middle(d) && Bottom(c) == Bottom(d)
    ensures c == d
  {
    assert c == 64 * High(c) + 8 * Middle(c) + Bottom(c);
    assert d == 64 * High(d) + 8 * Middle(d) + Bottom(d);
  }

  /** A store is seen in its own slot and in no other. */
  lemma GetAfterStore(n: Node, c: byte, x: Slot, d: byte)
    ensures Get(Store(n, c, x), d) == if c == d then x else Get(n, d)
  {
    if High(c) == High(d) && Middle(c) == Middle(d) && Bottom(c) == Bottom(d) {
      SameByte(c, d);
    }
  }

  lemma EmptyNodeIsEmpty(c: byte)
    ensures Get(EMPTY_NODE, c) == Null
  {
  }

  // ---------------------------------------------------------------- the arena

  type Nodes = s: seq<Node> | |s| > 0 witness [EMPTY_NODE]

  function SlotOf(nodes: Nodes, m: nat, c: byte): Slot
    requires m < |nodes|
  {
    Get(nodes[m], c)
  }

  function WithSlot(nodes: Nodes, m: nat, c: byte, x: Slot): (r: Nodes)
    requires m < |nodes|
    ensures |r| == |nodes|
  {
    nodes[m := Store(nodes[m], c, x)]
  }

  lemma SlotAfter(nodes: Nodes, m: nat, c: byte, x: Slot, n: nat, d: byte)
    requires m < |nodes| && n < |nodes|
    ensures SlotOf(WithSlot(nodes, m, c, x), n, d) == if n == m && d == c then x else SlotOf(nodes, n, d)
  {
    GetAfterStore(nodes[m], c, x, d);
  }

  /**
    Every node has one path from the root: what a slot leads to has the path of its node and the slot's
    byte; slot 0 never leads to a node.
   */
  ghost predicate TreeOk(nodes: Nodes, paths: seq<Key>) {
    && |paths| == |nodes| && paths[0] == []
    && (forall m: nat, c: byte {:trigger PointerOk(nodes, paths, m, c)} | m < |nodes| :: PointerOk(nodes, paths, m, c))
  }

  ghost predicate PointerOk(nodes: Nodes, paths: seq<Key>, m: nat, c: byte)
    requires m < |nodes| == |paths|
  {
    SlotOf(nodes, m, c).Ptr? ==>
      var k := SlotOf(nodes, m, c).node;
      c != 0 && k < |nodes| && paths[k] == paths[m] + [c]
  }

  // ---------------------------------------------------------------- following a key

  /** The node reached from the root by the bytes of a path. */
  function Walk(nodes: Nodes, path: Key): Option<nat> {
    if path == [] then Some(0)
    else
      var n := |path| - 1;
      match Walk(nodes, path[..n])
      case None => None
      case Some(m) =>
        if m >= |nodes| then None
        else match SlotOf(nodes, m, path[n])
          case Ptr(k) => Some(k)
          case _ => None
  }

  /** findNCase, lines 623-659, on a key whose case is already folded. */
  function Lookup(nodes: Nodes, key: Key): Option<Value>
    requires key != []
  {
    var n := |key| - 1;
    match Walk(nodes, key[..n])
    case None => None
    case Some(m) => if m >= |nodes| then None else ValueOf(nodes, SlotOf(nodes, m, key[n]))
  }

  function ValueOf(nodes: Nodes, x: Slot): Option<Value> {
    match x
    case Null => None
    case Leaf(v) => Some(v)
    case Ptr(k) =>
      if k >= |nodes| then None
      else match SlotOf(nodes, k, 0)
        case Leaf(v) => Some(v)
        case _ => None
  }

  /** A key is a non-empty string of non-zero bytes. */
  predicate KeyOk(key: Key) { key != [] && forall i | 0 <= i < |key| :: key[i] != 0 }

  lemma {:induction false} WalkGivesPath(nodes: Nodes, paths: seq<Key>, path: Key)
    requires TreeOk(nodes, paths)
    ensures var w := Walk(nodes, path); w.Some? ==> w.value < |nodes| && paths[w.value] == path
  {
    if path != [] {
      var n := |path| - 1;
      WalkGivesPath(nodes, paths, path[..n]);
      if Walk(nodes, path[..n]).Some? {
        var m := Walk(nodes, path[..n]).value;
        assert PointerOk(nodes, paths, m, path[n]);
        assert path == path[..n] + [path[n]];
      }
    }
  }

  // ---------------------------------------------------------------- one slot filled

  /** Filling an empty slot with a value, or storing behind a pointer, changes no walk. */
  lemma {:induction false} WalkAfterLeaf(nodes: Nodes, m: nat, c: byte, v: Value, path: Key)
    requires m < |nodes| && SlotOf(nodes, m, c) == Null
    ensures Walk(WithSlot(nodes, m, c, Leaf(v)), path) == Walk(nodes, path)
  {
    if path != [] {
      var n := |path| - 1;
      WalkAfterLeaf(nodes, m, c, v, path[..n]);
      if Walk(nodes, path[..n]).Some? && Walk(nodes, path[..n]).value < |nodes| {
        SlotAfter(nodes, m, c, Leaf(v), Walk(nodes, path[..n]).value, path[n]);
      }
    }
  }

  /** What an insertion should do to every lookup: the first value of a key stays. */
  ghost predicate Adds(nodes: Nodes, nodes': Nodes, key: Key, v: Value) {
    forall k {:trigger AddsAt(nodes, nodes', key, v, k)} :: AddsAt(nodes, nodes', key, v, k)
  }

  ghost predicate AddsAt(nodes: Nodes, nodes': Nodes, key: Key, v: Value, k: Key) {
    KeyOk(k) ==> Lookup(nodes', k) == if k == key && Lookup(nodes, k) == None then Some(v) else Lookup(nodes, k)
  }

  /** Lines 533-536: the key ends at an empty slot. */
  lemma {:induction false} LeafAdds(nodes: Nodes, paths: seq<Key>, key: Key, m: nat, v: Value)
    requires TreeOk(nodes, paths) && KeyOk(key) && Walk(nodes, key[..|key| - 1]) == Some(m) && m < |nodes|
    requires SlotOf(nodes, m, key[|key| - 1]) == Null
    ensures Adds(nodes, WithSlot(nodes, m, key[|key| - 1], Leaf(v)), key, v)
  {
    var c := key[|key| - 1];
    var nodes' := WithSlot(nodes, m, c, Leaf(v));
    forall k ensures AddsAt(nodes, nodes', key, v, k) {
      if KeyOk(k) {
        LookupAfterLeaf(nodes, paths, key, m, v, k);
      }
    }
  }

  lemma ValueKept(nodes: Nodes, m: nat, c: byte, y: Slot, x: Slot)
    requires m < |nodes| && c != 0
    ensures ValueOf(WithSlot(nodes, m, c, y), x) == ValueOf(nodes, x)
  {
    if x.Ptr? && x.node < |nodes| {
      SlotAfter(nodes, m, c, y, x.node, 0);
    }
  }

  lemma {:induction false} LookupAfterLeaf(nodes: Nodes, paths: seq<Key>, key: Key, m: nat, v: Value, k: Key)
    requires TreeOk(nodes, paths) && KeyOk(key) && Walk(nodes, key[..|key| - 1]) == Some(m) && m < |nodes| && KeyOk(k)
    requires SlotOf(nodes, m, key[|key| - 1]) == Null
    ensures Lookup(WithSlot(nodes, m, key[|key| - 1], Leaf(v)), k) == if k == key then Some(v) else Lookup(nodes, k)
    ensures Lookup(nodes, key) == None
  {
    var c := key[|key| - 1];
    var p, d := k[..|k| - 1], k[|k| - 1];
    WalkAfterLeaf(nodes, m, c, v, p);
    if Walk(nodes, p).Some? && Walk(nodes, p).value < |nodes| {
      var n := Walk(nodes, p).value;
      SlotAfter(nodes, m, c, Leaf(v), n, d);
      ValueKept(nodes, m, c, Leaf(v), SlotOf(nodes, n, d));
      SamePlace(nodes, paths, key, k, m);
    }
  }

  /** Two keys that end in the same slot are the same. */
  lemma {:induction false} SamePlace(nodes: Nodes, paths: seq<Key>, key: Key, k: Key, m: nat)
    requires TreeOk(nodes, paths) && KeyOk(key) && KeyOk(k) && Walk(nodes, key[..|key| - 1]) == Some(m)
    ensures Walk(nodes, k[..|k| - 1]) == Some(m) && k[|k| - 1] == key[|key| - 1] <==> k == key
  {
    WalkGivesPath(nodes, paths, k[..|k| - 1]);
    WalkGivesPath(nodes, paths, key[..|key| - 1]);
    assert key == key[..|key| - 1] + [key[|key| - 1]] && k == k[..|k| - 1] + [k[|k| - 1]];
  }

  /** Lines 537-541: the key ends at a pointer whose node has no value of its own yet. */
  lemma {:induction false} LookupAfterInner(nodes: Nodes, paths: seq<Key>, key: Key, m: nat, v: Value, k: Key)
    requires TreeOk(nodes, paths) && KeyOk(key) && KeyOk(k) && m < |nodes|
    requires paths[m] == key && SlotOf(nodes, m, 0) == Null
    requires Walk(nodes, key) == Some(m)
    ensures Lookup(WithSlot(nodes, m, 0, Leaf(v)), k) == if k == key then Some(v) else Lookup(nodes, k)
    ensures Lookup(nodes, key) == None
  {
    var p, d := k[..|k| - 1], k[|k| - 1];
    WalkAfterLeaf(nodes, m, 0, v, p);
    WalkGivesPath(nodes, paths, p);
    assert k == p + [d];
    if Walk(nodes, p).Some? {
      var n := Walk(nodes, p).value;
      SlotAfter(nodes, m, 0, Leaf(v), n, d);
      var x := SlotOf(nodes, n, d);
      if x.Ptr? {
        assert PointerOk(nodes, paths, n, d);
        SlotAfter(nodes, m, 0, Leaf(v), x.node, 0);
      }
    }
  }

  // ---------------------------------------------------------------- a chain of new nodes

  /**
    An insertion that runs out of nodes: behind slot `off` of node `parent` it hangs a chain of new nodes
    for the bytes `s`, and in the last of them slot `c` takes the value.
   */
  datatype Branch = Branch(parent: nat, off: byte, s: Key, c: byte, v: Value)

  /** The slots of chain node j before the value is stored. */
  function ChainSlot(first: nat, s: Key, j: nat, d: byte): Slot {
    if j < |s| && d == s[j] then Ptr(first + j + 1) else Null
  }

  /** The chain has been built behind the old nodes but nothing leads to it yet. */
  ghost predicate Building(t: Nodes, g: Nodes, s: Key) {
    && |g| == |t| + |s| + 1
    && (forall m: nat, d: byte {:trigger BuiltAt(t, g, s, m, d)} | m < |g| :: BuiltAt(t, g, s, m, d))
  }

  ghost predicate BuiltAt(t: Nodes, g: Nodes, s: Key, m: nat, d: byte)
    requires m < |g|
  {
    SlotOf(g, m, d) == if m < |t| then SlotOf(t, m, d) else ChainSlot(|t|, s, m - |t|, d)
  }

  /** All slots after the value is stored and the chain is linked; a value in the way has moved to slot 0. */
  function FinalSlot(t: Nodes, b: Branch, m: nat, d: byte): Slot
    requires b.parent < |t|
  {
    if m < |t| then if m == b.parent && d == b.off then Ptr(|t|) else SlotOf(t, m, d)
    else if m == |t| + |b.s| && d == b.c then Leaf(b.v)
    else if m == |t| && d == 0 then SlotOf(t, b.parent, b.off)
    else ChainSlot(|t|, b.s, m - |t|, d)
  }

  ghost predicate Linked(t: Nodes, f: Nodes, b: Branch) {
    && b.parent < |t| && |f| == |t| + |b.s| + 1
    && (forall m: nat, d: byte {:trigger LinkedAt(t, f, b, m, d)} | m < |f| :: LinkedAt(t, f, b, m, d))
  }

  ghost predicate LinkedAt(t: Nodes, f: Nodes, b: Branch, m: nat, d: byte)
    requires b.parent < |t| && m < |f|
  {
    SlotOf(f, m, d) == FinalSlot(t, b, m, d)
  }

  /** The branch starts at a slot that leads nowhere; its bytes are not zero. */
  ghost predicate BranchOk(t: Nodes, paths: seq<Key>, b: Branch) {
    && TreeOk(t, paths) && b.parent < |t| && Walk(t, paths[b.parent]) == Some(b.parent)
    && !SlotOf(t, b.parent, b.off).Ptr?
    && b.off != 0 && b.c != 0 && (forall i | 0 <= i < |b.s| :: b.s[i] != 0)
  }

  ghost function Fork(paths: seq<Key>, b: Branch): Key
    requires b.parent < |paths|
  {
    paths[b.parent] + [b.off]
  }

  predicate ZeroFree(k: Key) { forall i | 0 <= i < |k| :: k[i] != 0 }

  /** A path that does not go through the fork leads where it did. */
  lemma {:induction false} WalkOutside(t: Nodes, f: Nodes, paths: seq<Key>, b: Branch, path: Key)
    requires BranchOk(t, paths, b) && Linked(t, f, b) && !(Fork(paths, b) <= path)
    ensures Walk(f, path) == Walk(t, path)
  {
    if path != [] {
      var n := |path| - 1;
      var p, d := path[..n], path[n];
      assert path == p + [d];
      WalkOutside(t, f, paths, b, p);
      WalkGivesPath(t, paths, p);
      if Walk(t, p).Some? {
        var m := Walk(t, p).value;
        assert LinkedAt(t, f, b, m, d);
      }
    }
  }

  lemma {:induction false} WalkOldInside(t: Nodes, paths: seq<Key>, b: Branch, r: Key)
    requires BranchOk(t, paths, b)
    ensures Walk(t, Fork(paths, b) + r) == None
  {
    var q := Fork(paths, b);
    if r == [] {
      assert q + r == q && q[..|q| - 1] == paths[b.parent];
    } else {
      var n := |r| - 1;
      WalkOldInside(t, paths, b, r[..n]);
      assert (q + r)[..|q| + n] == q + r[..n];
    }
  }

  lemma PrefixSnoc(r: Key, d: byte, s: Key)
    ensures r + [d] <= s <==> r <= s && |r| < |s| && s[|r|] == d
  {
    if r <= s && |r| < |s| && s[|r|] == d {
      assert s[..|r| + 1] == r + [d];
    }
    if r + [d] <= s {
      assert s[..|r| + 1][..|r|] == r && s[..|r| + 1][|r|] == d;
    }
  }

  lemma {:induction false} WalkFork(t: Nodes, f: Nodes, paths: seq<Key>, b: Branch)
    requires BranchOk(t, paths, b) && Linked(t, f, b)
    ensures Walk(f, Fork(paths, b)) == Some(|t|)
  {
    var q := Fork(paths, b);
    assert q[..|q| - 1] == paths[b.parent];
    WalkOutside(t, f, paths, b, paths[b.parent]);
    assert LinkedAt(t, f, b, b.parent, b.off);
  }

  /** From the first new node on only the chain can be followed. */
  lemma {:induction false} WalkChain(t: Nodes, f: Nodes, b: Branch, q: Key, r: Key)
    requires Linked(t, f, b) && ZeroFree(r) && Walk(f, q) == Some(|t|)
    ensures Walk(f, q + r) == if r <= b.s then Some(|t| + |r|) else None
  {
    if r == [] {
      assert q + r == q;
    } else {
      var p, d := r[..|r| - 1], r[|r| - 1];
      SplitLast(q, r);
      WalkChain(t, f, b, q, p);
      StepInside(t, f, b, q + p, p, d);
    }
  }

  lemma SplitLast(q: Key, r: Key)
    requires r != []
    ensures r == r[..|r| - 1] + [r[|r| - 1]] && q + r == (q + r[..|r| - 1]) + [r[|r| - 1]]
    ensures ZeroFree(r) ==> ZeroFree(r[..|r| - 1]) && r[|r| - 1] != 0
  {
  }

  /** Behind the fork only the chain can be followed. */
  lemma {:induction false} WalkInside(t: Nodes, f: Nodes, paths: seq<Key>, b: Branch, r: Key)
    requires BranchOk(t, paths, b) && Linked(t, f, b) && ZeroFree(r)
    ensures Walk(f, Fork(paths, b) + r) == if r <= b.s then Some(|t| + |r|) else None
  {
    WalkFork(t, f, paths, b);
    WalkChain(t, f, b, Fork(paths, b), r);
  }

  lemma {:induction false} StepInside(t: Nodes, f: Nodes, b: Branch, path: Key, p: Key, d: byte)
    requires Linked(t, f, b) && d != 0 && Walk(f, path) == if p <= b.s then Some(|t| + |p|) else None
    ensures Walk(f, path + [d]) == if p + [d] <= b.s then Some(|t| + |p| + 1) else None
  {
    WalkSnoc(f, path, d);
    PrefixSnoc(p, d, b.s);
    if p <= b.s {
      assert LinkedAt(t, f, b, |t| + |p|, d);
    }
  }

  lemma {:induction false} WalkSnoc(nodes: Nodes, path: Key, d: byte)
    ensures Walk(nodes, path + [d]) ==
            match Walk(nodes, path)
            case None => None
            case Some(m) =>
              if m >= |nodes| then None else if SlotOf(nodes, m, d).Ptr? then Some(SlotOf(nodes, m, d).node) else None
  {
    assert (path + [d])[..|path|] == path;
  }

  /** A key outside the fork, or ending right at it, keeps its value. */
  lemma {:induction false} LookupOutside(t: Nodes, f: Nodes, paths: seq<Key>, b: Branch, k: Key)
    requires BranchOk(t, paths, b) && Linked(t, f, b) && KeyOk(k) && !(Fork(paths, b) <= k[..|k| - 1])
    ensures Lookup(f, k) == Lookup(t, k)
  {
    var p, d := k[..|k| - 1], k[|k| - 1];
    WalkOutside(t, f, paths, b, p);
    WalkGivesPath(t, paths, p);
    if Walk(t, p).Some? {
      var m := Walk(t, p).value;
      assert LinkedAt(t, f, b, m, d);
      if m == b.parent && d == b.off {
        assert LinkedAt(t, f, b, |t|, 0);
      } else if SlotOf(t, m, d).Ptr? {
        assert PointerOk(t, paths, m, d);
        var x := SlotOf(t, m, d).node;
        assert LinkedAt(t, f, b, x, 0);
      }
    }
  }

  lemma {:induction false} NothingInsideBefore(t: Nodes, paths: seq<Key>, b: Branch, r: Key, d: byte)
    requires BranchOk(t, paths, b)
    ensures Lookup(t, Fork(paths, b) + r + [d]) == None
  {
    var k := Fork(paths, b) + r + [d];
    assert k[..|k| - 1] == Fork(paths, b) + r;
    WalkOldInside(t, paths, b, r);
  }

  /** Behind the fork nothing had a value, and now exactly the new key has one. */
  lemma {:induction false} LookupInside(t: Nodes, f: Nodes, paths: seq<Key>, b: Branch, r: Key, d: byte)
    requires BranchOk(t, paths, b) && Linked(t, f, b) && ZeroFree(r) && d != 0
    ensures var k := Fork(paths, b) + r + [d];
            && Lookup(t, k) == None
            && Lookup(f, k) == if r == b.s && d == b.c then Some(b.v) else None
  {
    var q := Fork(paths, b);
    var k := q + r + [d];
    assert k[..|k| - 1] == q + r && k[|k| - 1] == d;
    NothingInsideBefore(t, paths, b, r, d);
    WalkInside(t, f, paths, b, r);
    if r <= b.s {
      ValueInChain(t, f, b, r, d);
    }
  }

  lemma ValueInChain(t: Nodes, f: Nodes, b: Branch, r: Key, d: byte)
    requires Linked(t, f, b) && r <= b.s && d != 0 && b.c != 0
    ensures ValueOf(f, SlotOf(f, |t| + |r|, d)) == if r == b.s && d == b.c then Some(b.v) else None
  {
    var m := |t| + |r|;
    assert LinkedAt(t, f, b, m, d);
    assert |r| == |b.s| ==> r == b.s;
    if SlotOf(f, m, d).Ptr? {
      assert LinkedAt(t, f, b, m + 1, 0);
    }
  }

  /** The insertion of a branch adds exactly its key. */
  lemma {:induction false} BranchAdds(t: Nodes, f: Nodes, paths: seq<Key>, b: Branch)
    requires BranchOk(t, paths, b) && Linked(t, f, b)
    ensures Adds(t, f, Fork(paths, b) + b.s + [b.c], b.v)
  {
    var q := Fork(paths, b);
    var key := q + b.s + [b.c];
    forall k ensures AddsAt(t, f, key, b.v, k) {
      if KeyOk(k) {
        BranchAddsAt(t, f, paths, b, k);
      }
    }
  }

  lemma {:induction false} BranchAddsAt(t: Nodes, f: Nodes, paths: seq<Key>, b: Branch, k: Key)
    requires BranchOk(t, paths, b) && Linked(t, f, b) && KeyOk(k)
    ensures AddsAt(t, f, Fork(paths, b) + b.s + [b.c], b.v, k)
  {
    var q := Fork(paths, b);
    var key := q + b.s + [b.c];
    var p, d := k[..|k| - 1], k[|k| - 1];
    if q <= p {
      var r := p[|q|..];
      assert k == q + r + [d];
      SameEnd(q, r, d, b.s, b.c);
      LookupInside(t, f, paths, b, r, d);
    } else {
      assert key[..|key| - 1] == q + b.s;
      LookupOutside(t, f, paths, b, k);
    }
  }

  lemma SameEnd(q: Key, r: Key, d: byte, s: Key, c: byte)
    ensures q + r + [d] == q + s + [c] <==> r == s && d == c
  {
    if q + r + [d] == q + s + [c] {
      var k := q + r + [d];
      assert k[|k| - 1] == d && k[|q|..|k| - 1] == r;
      assert (q + s + [c])[|k| - 1] == c && (q + s + [c])[|q|..|k| - 1] == s;
    }
  }

  ghost function BranchPaths(paths: seq<Key>, b: Branch): seq<Key>
    requires b.parent < |paths|
  {
    paths + seq(|b.s| + 1, j requires 0 <= j < |b.s| + 1 => Fork(paths, b) + b.s[..j])
  }

  lemma {:induction false} BranchPointer(t: Nodes, f: Nodes, paths: seq<Key>, b: Branch, m: nat, d: byte)
    requires BranchOk(t, paths, b) && Linked(t, f, b) && m < |f|
    ensures PointerOk(f, BranchPaths(paths, b), m, d)
  {
    var ps := BranchPaths(paths, b);
    assert LinkedAt(t, f, b, m, d);
    if m < |t| {
      assert PointerOk(t, paths, m, d);
      if m == b.parent && d == b.off {
        assert ps[|t|] == Fork(paths, b) + b.s[..0] == Fork(paths, b);
      }
    } else {
      var j := m - |t|;
      if j < |b.s| && d == b.s[j] {
        assert ps[m + 1] == Fork(paths, b) + b.s[..j + 1];
        assert b.s[..j + 1] == b.s[..j] + [d];
      }
    }
  }

  lemma {:induction false} BranchKeepsTree(t: Nodes, f: Nodes, paths: seq<Key>, b: Branch)
    requires BranchOk(t, paths, b) && Linked(t, f, b)
    ensures TreeOk(f, BranchPaths(paths, b))
  {
    var ps := BranchPaths(paths, b);
    forall m: nat, d: byte | m < |f| ensures PointerOk(f, ps, m, d) {
      BranchPointer(t, f, paths, b, m, d);
    }
  }

  // ---------------------------------------------------------------- building the chain

  /** new node(c): nothing leads to it and it leads nowhere. */
  lemma FirstNewNode(t: Nodes)
    ensures Building(t, t + [EMPTY_NODE], [])
  {
    var g := t + [EMPTY_NODE];
    forall m: nat, d: byte | m < |g| ensures BuiltAt(t, g, [], m, d) {
      EmptyNodeIsEmpty(d);
    }
  }

  /** Line 506: one more node, hung behind the last one of the chain. */
  lemma OneMoreNode(t: Nodes, g: Nodes, s: Key, c: byte)
    requires Building(t, g, s)
    ensures SlotOf(g + [EMPTY_NODE], |g| - 1, c) == Null
    ensures Building(t, WithSlot(g + [EMPTY_NODE], |g| - 1, c, Ptr(|g|)), s + [c])
  {
    var e: Nodes := g + [EMPTY_NODE];
    var g' := WithSlot(e, |g| - 1, c, Ptr(|g|));
    assert SlotOf(e, |g| - 1, c) == SlotOf(g, |g| - 1, c);
    assert BuiltAt(t, g, s, |g| - 1, c);
    var s' := s + [c];
    forall m: nat, d: byte | m < |g'| ensures BuiltAt(t, g', s', m, d) {
      SlotAfter(e, |g| - 1, c, Ptr(|g|), m, d);
      EmptyNodeIsEmpty(d);
      if m < |g| {
        assert SlotOf(e, m, d) == SlotOf(g, m, d);
        assert BuiltAt(t, g, s, m, d);
      }
    }
  }

  /**
    node::put, lines 35-99: a free slot takes the value; a value in the way of a node moves into that node's
    slot 0.
   */
  function Put(nodes: Nodes, m: nat, c: byte, x: Slot): Nodes
    requires m < |nodes| && (x.Ptr? ==> x.node < |nodes|)
  {
    match SlotOf(nodes, m, c)
    case Null => WithSlot(nodes, m, c, x)
    case Ptr(_) => nodes
    case Leaf(w) =>
      if x.Ptr? then
        var moved := if SlotOf(nodes, x.node, 0) == Null then WithSlot(nodes, x.node, 0, Leaf(w)) else nodes;
        WithSlot(moved, m, c, x)
      else nodes
  }

  /** Lines 535 and 543-547: the value goes into the last node of the chain, then the chain is linked. */
  lemma ChainIsLinked(t: Nodes, g: Nodes, b: Branch)
    requires Building(t, g, b.s) && b.parent < |t| && !SlotOf(t, b.parent, b.off).Ptr?
    requires b.off != 0 && b.c != 0 && ZeroFree(b.s)
    ensures SlotOf(g, |g| - 1, b.c) == Null
    ensures Linked(t, Put(Put(g, |g| - 1, b.c, Leaf(b.v)), b.parent, b.off, Ptr(|t|)), b)
  {
    assert BuiltAt(t, g, b.s, |g| - 1, b.c) && BuiltAt(t, g, b.s, b.parent, b.off);
    var g1 := WithSlot(g, |g| - 1, b.c, Leaf(b.v));
    SlotAfter(g, |g| - 1, b.c, Leaf(b.v), b.parent, b.off);
    SlotAfter(g, |g| - 1, b.c, Leaf(b.v), |t|, 0);
    var w := SlotOf(t, b.parent, b.off);
    var g2 := if w.Leaf? then WithSlot(g1, |t|, 0, w) else g1;
    var f := WithSlot(g2, b.parent, b.off, Ptr(|t|));
    FirstSlotIsFree(t, g, b);
    forall m: nat, d: byte | m < |f| ensures LinkedAt(t, f, b, m, d) {
      assert BuiltAt(t, g, b.s, m, d);
      SlotAfter(g2, b.parent, b.off, Ptr(|t|), m, d);
      SlotAfter(g1, |t|, 0, w, m, d);
      SlotAfter(g, |g| - 1, b.c, Leaf(b.v), m, d);
    }
  }

  lemma FirstSlotIsFree(t: Nodes, g: Nodes, b: Branch)
    requires Building(t, g, b.s) && ZeroFree(b.s)
    ensures SlotOf(g, |t|, 0) == Null
  {
    assert BuiltAt(t, g, b.s, |t|, 0);
  }

  // ---------------------------------------------------------------- the trie

  function FoldByte(c: byte): byte { if 65 <= c <= 90 then c + 32 else c }

  /** ASCII letters in lower case. */
  function Folded(str: Key, noCase: bool): (key: Key)
    ensures |key| == |str| && (KeyOk(str) ==> KeyOk(key))
  {
    if noCase then seq(|str|, i requires 0 <= i < |str| => FoldByte(str[i])) else str
  }

  /** The same byte, or the two cases of one ASCII letter. */
  predicate SameLetter(x: byte, y: byte) {
    x == y || (65 <= x <= 90 && y == x + 32) || (65 <= y <= 90 && x == y + 32)
  }

  /** Two keys are the same when the case is ignored if and only if they are equal up to the case of ASCII letters. */
  lemma FoldedEqual(a: Key, b: Key)
    ensures Folded(a, true) == Folded(b, true) <==>
              |a| == |b| && forall i | 0 <= i < |a| :: SameLetter(a[i], b[i])
  {
    var x, y := Folded(a, true), Folded(b, true);
    if |a| == |b| {
      forall i | 0 <= i < |a| ensures x[i] == y[i] <==> SameLetter(a[i], b[i]) {
      }
      if forall i | 0 <= i < |a| :: SameLetter(a[i], b[i]) {
        assert forall i | 0 <= i < |a| :: x[i] == y[i];
      } else {
        var i :| 0 <= i < |a| && !SameLetter(a[i], b[i]);
        assert x[i] != y[i];
      }
    }
  }

  /** A folded key has no capital letters and is the key itself up to case; without folding it is the key itself. */
  lemma FoldedKey(a: Key)
    ensures forall i | 0 <= i < |a| :: !(65 <= Folded(a, true)[i] <= 90) && SameLetter(a[i], Folded(a, true)[i])
    ensures Folded(a, false) == a
  {
  }

  /** How many levels a 16-bit number can count. */
  const LEVELS: nat := 0x1_0000

  /** A key whose levels do not start anew. */
  type ShortKey = k: Key | |k| <= LEVELS

  datatype Inserted = Inserted(key: ShortKey, value: Value)

  /** The map a trie stands for: the value a key was first inserted with. */
  function FirstValue(history: seq<Inserted>, key: Key): Option<Value> {
    if history == [] then None
    else
      var n := |history| - 1;
      var before := FirstValue(history[..n], key);
      if before.Some? then before else if history[n].key == key then Some(history[n].value) else None
  }

  ghost predicate Stands(nodes: Nodes, history: seq<Inserted>) {
    forall k {:trigger StandsAt(nodes, history, k)} :: StandsAt(nodes, history, k)
  }

  ghost predicate StandsAt(nodes: Nodes, history: seq<Inserted>, k: Key) {
    KeyOk(k) ==> Lookup(nodes, k) == FirstValue(history, k)
  }

  lemma ExtendedStands(t: Nodes, nodes: Nodes, paths: seq<Key>, history: seq<Inserted>, key: ShortKey, v: Value)
    requires Stands(t, history) && Extended(t, nodes, paths, key, v)
    ensures TreeOk(nodes, paths) && Stands(nodes, history + [Inserted(key, v)])
  {
    AddsToHistory(t, nodes, history, key, v);
  }

  lemma AddsToHistory(nodes: Nodes, nodes': Nodes, history: seq<Inserted>, key: ShortKey, v: Value)
    requires Stands(nodes, history) && Adds(nodes, nodes', key, v)
    ensures Stands(nodes', history + [Inserted(key, v)])
  {
    var h := history + [Inserted(key, v)];
    assert h[..|history|] == history;
    forall k ensures StandsAt(nodes', h, k) {
      assert StandsAt(nodes, history, k) && AddsAt(nodes, nodes', key, v, k);
    }
  }

  /** The slot in which the bytes of a key end. */
  function EndSlot(nodes: Nodes, key: Key): Slot
    requires key != []
  {
    match Walk(nodes, key[..|key| - 1])
    case None => Null
    case Some(m) => if m >= |nodes| then Null else SlotOf(nodes, m, key[|key| - 1])
  }

  lemma {:induction false} TreeAfterLeaf(nodes: Nodes, paths: seq<Key>, m: nat, c: byte, v: Value)
    requires TreeOk(nodes, paths) && m < |nodes|
    ensures SlotOf(nodes, m, c) == Null ==> TreeOk(WithSlot(nodes, m, c, Leaf(v)), paths)
  {
    var nodes' := WithSlot(nodes, m, c, Leaf(v));
    forall n: nat, d: byte | n < |nodes'| ensures PointerOk(nodes', paths, n, d) {
      SlotAfter(nodes, m, c, Leaf(v), n, d);
      assert PointerOk(nodes, paths, n, d);
    }
  }

  /** The nodes after an insertion: still a tree, with exactly the key added. */
  ghost predicate Extended(t: Nodes, nodes: Nodes, paths: seq<Key>, key: Key, v: Value) {
    TreeOk(nodes, paths) && Adds(t, nodes, key, v)
  }

  /** Lines 533-542: where the whole way to the last byte exists. */
  lemma {:induction false} EndOfExistingWay(nodes: Nodes, paths: seq<Key>, key: Key, m: nat, v: Value)
    requires TreeOk(nodes, paths) && KeyOk(key) && Walk(nodes, key[..|key| - 1]) == Some(m)
    ensures m < |nodes|
    ensures var x := SlotOf(nodes, m, key[|key| - 1]);
            && (x.Leaf? ==> Lookup(nodes, key).Some?)
            && (x.Null? ==> Extended(nodes, Put(nodes, m, key[|key| - 1], Leaf(v)), paths, key, v))
            && (x.Ptr? ==> x.node < |nodes| && Extended(nodes, Put(nodes, x.node, 0, Leaf(v)), paths, key, v))
  {
    var c := key[|key| - 1];
    WalkGivesPath(nodes, paths, key[..|key| - 1]);
    assert key == key[..|key| - 1] + [c];
    match SlotOf(nodes, m, c)
    case Leaf(_) =>
    case Null =>
      TreeAfterLeaf(nodes, paths, m, c, v);
      LeafAdds(nodes, paths, key, m, v);
    case Ptr(k) =>
      assert PointerOk(nodes, paths, m, c);
      TreeAfterLeaf(nodes, paths, k, 0, v);
      InnerAdds(nodes, paths, key, k, v);
  }

  lemma {:induction false} InnerAdds(nodes: Nodes, paths: seq<Key>, key: Key, m: nat, v: Value)
    requires TreeOk(nodes, paths) && KeyOk(key) && m < |nodes| && paths[m] == key && Walk(nodes, key) == Some(m)
    ensures Adds(nodes, Put(nodes, m, 0, Leaf(v)), key, v)
  {
    assert PointerOk(nodes, paths, m, 0);
    var nodes' := Put(nodes, m, 0, Leaf(v));
    forall k ensures AddsAt(nodes, nodes', key, v, k) {
      if KeyOk(k) && SlotOf(nodes, m, 0) == Null {
        LookupAfterInner(nodes, paths, key, m, v, k);
      }
    }
  }

  // ---------------------------------------------------------------- insertion and search

  /** The search of insertNCase while it has created no node, then while it builds a chain. */
  ghost predicate Descending(t: Nodes, nodes: Nodes, key: Key, level: nat, n: nat) {
    level < |key| && nodes == t && n < |t| && Walk(t, key[..level]) == Some(n)
  }

  ghost predicate Growing(t: Nodes, nodes: Nodes, key: Key, level: nat, n: nat, fork: nat, parent: nat, off: byte) {
    && fork < level < |key| && parent < |t| && Walk(t, key[..fork]) == Some(parent) && key[fork] == off
    && !SlotOf(t, parent, off).Ptr?
    && Building(t, nodes, key[fork + 1..level]) && n == |nodes| - 1
  }

  lemma {:induction false} DescendStep(t: Nodes, paths: seq<Key>, key: Key, level: nat, n: nat)
    requires TreeOk(t, paths) && Descending(t, t, key, level, n) && level + 1 < |key|
    ensures var x := SlotOf(t, n, key[level]);
            && (x.Ptr? ==> Descending(t, t, key, level + 1, x.node))
            && (!x.Ptr? ==> Growing(t, t + [EMPTY_NODE], key, level + 1, |t|, level, n, key[level]))
  {
    assert key[..level + 1] == key[..level] + [key[level]];
    WalkSnoc(t, key[..level], key[level]);
    if SlotOf(t, n, key[level]).Ptr? {
      assert PointerOk(t, paths, n, key[level]);
    } else {
      FirstNewNode(t);
      assert key[level + 1..level + 1] == [];
    }
  }

  lemma GrowStep(t: Nodes, g: Nodes, key: Key, level: nat, n: nat, fork: nat, parent: nat, off: byte)
    requires Growing(t, g, key, level, n, fork, parent, off) && level + 1 < |key|
    ensures SlotOf(g, n, key[level]) == Null
    ensures Growing(t, Put(g + [EMPTY_NODE], n, key[level], Ptr(|g|)), key, level + 1, |g|, fork, parent, off)
  {
    var s := key[fork + 1..level];
    OneMoreNode(t, g, s, key[level]);
    assert BuiltAt(t, g, s, n, key[level]);
    assert key[fork + 1..level + 1] == s + [key[level]];
  }

  ghost function BranchOf(key: Key, fork: nat, parent: nat, off: byte, v: Value): Branch
    requires fork + 1 < |key|
  {
    Branch(parent, off, key[fork + 1..|key| - 1], key[|key| - 1], v)
  }

  lemma {:induction false} BranchIsOk(t: Nodes, paths: seq<Key>, key: Key, fork: nat, parent: nat, off: byte, v: Value)
    requires TreeOk(t, paths) && KeyOk(key) && fork + 1 < |key| && parent < |t|
    requires Walk(t, key[..fork]) == Some(parent) && key[fork] == off && !SlotOf(t, parent, off).Ptr?
    ensures var b := BranchOf(key, fork, parent, off, v);
            && BranchOk(t, paths, b) && ZeroFree(b.s)
            && key[..|key| - 1] == Fork(paths, b) + b.s && key == Fork(paths, b) + b.s + [b.c]
  {
    var b := BranchOf(key, fork, parent, off, v);
    WalkGivesPath(t, paths, key[..fork]);
    assert Fork(paths, b) == key[..fork + 1];
  }

  /** An insertion makes nodes only on the way of its key. */
  ghost predicate NewPaths(paths: seq<Key>, ps: seq<Key>, key: Key) {
    forall m | 0 <= m < |ps| :: (m < |paths| && ps[m] == paths[m]) || ps[m] < key
  }

  lemma BranchPathsAreNew(paths: seq<Key>, b: Branch, key: Key)
    requires b.parent < |paths| && key == Fork(paths, b) + b.s + [b.c]
    ensures NewPaths(paths, BranchPaths(paths, b), key)
  {
    var ps := BranchPaths(paths, b);
    forall m | 0 <= m < |ps| ensures (m < |paths| && ps[m] == paths[m]) || ps[m] < key {
      if m >= |paths| {
        assert ps[m] == Fork(paths, b) + b.s[..m - |paths|];
      }
    }
  }

  /** The end of an insertion that has built a chain. */
  lemma {:induction false} GrowEnd(t: Nodes, paths: seq<Key>, g: Nodes, key: Key, n: nat, fork: nat, parent: nat,
                                   off: byte, v: Value)
    requires TreeOk(t, paths) && KeyOk(key) && Growing(t, g, key, |key| - 1, n, fork, parent, off)
    ensures SlotOf(g, n, key[|key| - 1]) == Null && EndSlot(t, key) == Null
    ensures var f := Put(Put(g, n, key[|key| - 1], Leaf(v)), parent, off, Ptr(|t|));
            |f| == |g| && Extended(t, f, BranchPaths(paths, BranchOf(key, fork, parent, off, v)), key, v)
    ensures NewPaths(paths, BranchPaths(paths, BranchOf(key, fork, parent, off, v)), key)
  {
    var b := BranchOf(key, fork, parent, off, v);
    BranchIsOk(t, paths, key, fork, parent, off, v);
    ChainIsLinked(t, g, b);
    var f := Put(Put(g, n, key[|key| - 1], Leaf(v)), parent, off, Ptr(|t|));
    BranchKeepsTree(t, f, paths, b);
    BranchAdds(t, f, paths, b);
    WalkOldInside(t, paths, b, b.s);
    BranchPathsAreNew(paths, b, key);
  }

  lemma NewNodeKeeps(g: Nodes, n: nat, c: byte)
    requires n < |g|
    ensures SlotOf(g + [EMPTY_NODE], n, c) == SlotOf(g, n, c)
  {
  }

  /** The nodes and the variables of the loop of insertNCase. */
  datatype Way = Way(g: Nodes, n: nat, topNew: int, fork: nat, parent: nat, off: byte)

  /** Where the loop is. */
  ghost predicate OnTheWay(t: Nodes, key: Key, level: nat, w: Way) {
    if w.topNew == -1 then Descending(t, w.g, key, level, w.n)
    else w.topNew == |t| && Growing(t, w.g, key, level, w.n, w.fork, w.parent, w.off)
  }

  /** One turn of the loop: along a pointer, to a first new node, or to one more new node. */
  ghost function NextWay(level: nat, c: byte, w: Way): Way
    requires w.n < |w.g| && (w.topNew != -1 ==> SlotOf(w.g, w.n, c).Null?)
  {
    if SlotOf(w.g, w.n, c).Ptr? then w.(n := SlotOf(w.g, w.n, c).node)
    else if w.topNew == -1 then Way(w.g + [EMPTY_NODE], |w.g|, |w.g|, level, w.n, c)
    else w.(g := Put(w.g + [EMPTY_NODE], w.n, c, Ptr(|w.g|)), n := |w.g|)
  }

  lemma {:induction false} WayStep(t: Nodes, paths: seq<Key>, key: Key, level: nat, w: Way) returns (next: Way)
    requires TreeOk(t, paths) && OnTheWay(t, key, level, w) && level + 1 < |key|
    ensures w.n < |w.g| && (w.topNew != -1 ==> SlotOf(w.g, w.n, key[level]).Null?)
    ensures next == NextWay(level, key[level], w) && OnTheWay(t, key, level + 1, next)
  {
    if w.topNew == -1 {
      DescendStep(t, paths, key, level, w.n);
    } else {
      GrowStep(t, w.g, key, level, w.n, w.fork, w.parent, w.off);
    }
    next := NextWay(level, key[level], w);
  }

  /** Where the loop of insertNCase has ended. */
  ghost predicate Descended(t: Nodes, g: Nodes, key: Key, n: nat, topNew: int, fork: nat, parent: nat, off: byte) {
    key != [] && OnTheWay(t, key, |key| - 1, Way(g, n, topNew, fork, parent, off))
  }

  /** Lines 533-542: what storing a value leaves. */
  function Stored(g: Nodes, n: nat, c: byte, v: Value): Nodes
    requires n < |g| && (SlotOf(g, n, c).Ptr? ==> SlotOf(g, n, c).node < |g|)
  {
    match SlotOf(g, n, c)
    case Null => Put(g, n, c, Leaf(v))
    case Leaf(_) => g
    case Ptr(k) => Put(g, k, 0, Leaf(v))
  }

  /** Lines 543-545: the chain of new nodes is linked last. */
  function Final(g: Nodes, n: nat, c: byte, v: Value, topNew: int, parent: nat, off: byte): Nodes
    requires n < |g| && (SlotOf(g, n, c).Ptr? ==> SlotOf(g, n, c).node < |g|)
    requires topNew != -1 ==> parent < |g| && 0 <= topNew < |g|
  {
    var stored := Stored(g, n, c, v);
    if topNew == -1 then stored else Put(stored, parent, off, Ptr(topNew))
  }

  /** The slot that the insertion ends in is the one the key had before, and empty in a new node. */
  lemma {:induction false} EndSlotIs(t: Nodes, paths: seq<Key>, g: Nodes, key: Key, n: nat, topNew: int, fork: nat,
                                     parent: nat, off: byte)
    requires TreeOk(t, paths) && KeyOk(key) && Descended(t, g, key, n, topNew, fork, parent, off)
    ensures n < |g| && EndSlot(t, key) == SlotOf(g, n, key[|key| - 1])
    ensures topNew != -1 ==> EndSlot(t, key) == Null
    ensures EndSlot(t, key).Ptr? ==> EndSlot(t, key).node < |g|
    ensures EndSlot(t, key).Leaf? ==> g == t && Lookup(t, key).Some?
  {
    if topNew == -1 {
      assert PointerOk(t, paths, n, key[|key| - 1]);
    } else {
      GrowEnd(t, paths, g, key, n, fork, parent, off, 0);
    }
  }

  lemma {:induction false} InsertDone(t: Nodes, paths: seq<Key>, g: Nodes, nodes: Nodes, key: Key, n: nat,
                                      topNew: int, fork: nat, parent: nat, off: byte, v: Value) returns (ps: seq<Key>)
    requires TreeOk(t, paths) && KeyOk(key) && Descended(t, g, key, n, topNew, fork, parent, off) && n < |g|
    requires var x := SlotOf(g, n, key[|key| - 1]);
             if topNew != -1 then nodes == Put(Put(g, n, key[|key| - 1], Leaf(v)), parent, off, Ptr(|t|))
             else !x.Leaf? && (x.Ptr? ==> x.node < |g|) &&
                  nodes == if x.Null? then Put(g, n, key[|key| - 1], Leaf(v)) else Put(g, x.node, 0, Leaf(v))
    ensures Extended(t, nodes, ps, key, v) && NewPaths(paths, ps, key)
  {
    if topNew == -1 {
      EndOfExistingWay(t, paths, key, n, v);
      ps := paths;
    } else {
      GrowEnd(t, paths, g, key, n, fork, parent, off, v);
      ps := BranchPaths(paths, BranchOf(key, fork, parent, off, v));
    }
  }

  lemma {:induction false} InsertStands(t: Nodes, paths: seq<Key>, history: seq<Inserted>, g: Nodes, key: ShortKey,
                                        n: nat,
                                        topNew: int, fork: nat, parent: nat, off: byte, v: Value) returns (ps: seq<Key>)
    requires TreeOk(t, paths) && Stands(t, history)
    requires KeyOk(key) && Descended(t, g, key, n, topNew, fork, parent, off) && !EndSlot(t, key).Leaf?
    ensures n < |g| && var x := SlotOf(g, n, key[|key| - 1]); x == EndSlot(t, key) && (x.Ptr? ==> x.node < |g|)
    ensures topNew != -1 ==> parent < |g| && 0 <= topNew < |g|
    ensures var f := Final(g, n, key[|key| - 1], v, topNew, parent, off);
            |f| == |g| && TreeOk(f, ps) && Stands(f, history + [Inserted(key, v)])
    ensures NewPaths(paths, ps, key)
  {
    EndSlotIs(t, paths, g, key, n, topNew, fork, parent, off);
    var f := Final(g, n, key[|key| - 1], v, topNew, parent, off);
    ps := InsertDone(t, paths, g, f, key, n, topNew, fork, parent, off, v);
    ExtendedStands(t, f, ps, history, key, v);
  }

  // ---------------------------------------------------------------- what insert answers

  ghost predicate KeysOk(history: seq<Inserted>) { forall i | 0 <= i < |history| :: KeyOk(history[i].key) }

  /** A longer key that begins with this path has been inserted. */
  ghost predicate IsBegun(history: seq<Inserted>, path: Key) {
    exists i :: 0 <= i < |history| && path < history[i].key
  }

  /** Every node but the root lies on the way of an inserted key. */
  ghost predicate NodesAreUsed(paths: seq<Key>, history: seq<Inserted>) {
    forall m | 0 < m < |paths| :: IsBegun(history, paths[m])
  }

  lemma StillUsed(paths: seq<Key>, ps: seq<Key>, history: seq<Inserted>, x: Inserted)
    requires NodesAreUsed(paths, history) && NewPaths(paths, ps, x.key)
    ensures NodesAreUsed(ps, history + [x])
  {
    var h := history + [x];
    forall m | 0 < m < |ps| ensures IsBegun(h, ps[m]) {
      if m < |paths| && ps[m] == paths[m] {
        assert IsBegun(history, paths[m]);
        var i :| 0 <= i < |history| && paths[m] < history[i].key;
        assert h[i] == history[i];
      } else {
        assert h[|history|] == x;
      }
    }
  }

  lemma {:induction false} InsertedHasValue(history: seq<Inserted>, i: nat)
    requires i < |history|
    ensures FirstValue(history, history[i].key).Some?
  {
    if i < |history| - 1 {
      InsertedHasValue(history[..|history| - 1], i);
    }
  }

  /** The way of every longer inserted key passes a node at the end of this one. */
  lemma {:induction false} BegunHasNode(nodes: Nodes, history: seq<Inserted>, key: Key)
    requires Stands(nodes, history) && KeysOk(history) && IsBegun(history, key)
    ensures Walk(nodes, key).Some?
  {
    var i: nat :| i < |history| && key < history[i].key;
    var longer := history[i].key;
    InsertedHasValue(history, i);
    assert StandsAt(nodes, history, longer);
    assert key == longer[..|key|];
    if Walk(nodes, key).None? {
      StaysLost(nodes, longer, |key|, |longer| - 1);
    }
  }

  /**
    The slot of a key holds a value itself exactly when the key has a value and no longer key that begins with
    it has been inserted; otherwise the value of the key is behind a pointer, where insert does not see it.
   */
  lemma {:induction false} OwnSlotHolds(nodes: Nodes, paths: seq<Key>, history: seq<Inserted>, key: Key)
    requires TreeOk(nodes, paths) && Stands(nodes, history) && KeysOk(history) && NodesAreUsed(paths, history)
    requires KeyOk(key)
    ensures EndSlot(nodes, key).Leaf? <==> FirstValue(history, key).Some? && !IsBegun(history, key)
  {
    assert StandsAt(nodes, history, key);
    WalkGivesPath(nodes, paths, key[..|key| - 1]);
    WalkGivesPath(nodes, paths, key);
    WalkSnoc(nodes, key[..|key| - 1], key[|key| - 1]);
    assert key == key[..|key| - 1] + [key[|key| - 1]];
    if IsBegun(history, key) {
      BegunHasNode(nodes, history, key);
    }
  }

  ghost predicate TrieOk(nodes: Nodes, paths: seq<Key>, history: seq<Inserted>) {
    TreeOk(nodes, paths) && Stands(nodes, history) && KeysOk(history) && NodesAreUsed(paths, history)
  }

  /** The trie after an insertion: nothing is stored when the key's own slot holds a value. */
  lemma AfterInsert(t: Nodes, paths: seq<Key>, history: seq<Inserted>, g: Nodes, key: ShortKey, n: nat, topNew: int,
                    fork: nat, parent: nat, off: byte, v: Value)
    returns (ps: seq<Key>)
    requires TrieOk(t, paths, history) && KeyOk(key) && Descended(t, g, key, n, topNew, fork, parent, off)
    ensures n < |g| && var x := SlotOf(g, n, key[|key| - 1]); x == EndSlot(t, key) && (x.Ptr? ==> x.node < |g|)
    ensures EndSlot(t, key).Leaf? <==> FirstValue(history, key).Some? && !IsBegun(history, key)
    ensures EndSlot(t, key).Leaf? ==> g == t && TrieOk(g, ps, history + [Inserted(key, v)])
    ensures !EndSlot(t, key).Leaf? && topNew != -1 ==> parent < |g| && 0 <= topNew < |g|
    ensures !EndSlot(t, key).Leaf? ==>
              TrieOk(Final(g, n, key[|key| - 1], v, topNew, parent, off), ps, history + [Inserted(key, v)])
  {
    OwnSlotHolds(t, paths, history, key);
    EndSlotIs(t, paths, g, key, n, topNew, fork, parent, off);
    ps := paths;
    if EndSlot(t, key).Leaf? {
      RepeatedKey(t, history, key, v);
    } else {
      ps := InsertStands(t, paths, history, g, key, n, topNew, fork, parent, off, v);
    }
    StillUsed(paths, ps, history, Inserted(key, v));
  }

  class Trie {
    var nodes: Nodes
    var nodeCount: nat
    var valueCount: nat
    ghost var paths: seq<Key>
    ghost var history: seq<Inserted>

    ghost predicate Valid()
      reads this
    {
      TrieOk(nodes, paths, history)
    }

    constructor ()
      ensures Valid() && history == []
    {
      nodes, nodeCount, valueCount, paths, history := [EMPTY_NODE], 0, 0, [[]], [];
      new;
      forall k ensures StandsAt(nodes, history, k) {
        if KeyOk(k) {
          EmptyWalk(nodes, k[..|k| - 1]);
          EmptyNodeIsEmpty(k[|k| - 1]);
        }
      }
      forall m: nat, c: byte | m < |nodes| ensures PointerOk(nodes, paths, m, c) {
        EmptyNodeIsEmpty(c);
      }
    }

    /** One turn of the loop of insertNCase: along a pointer, or to a new node. */
    method Turn(c: byte, n: nat, topNew: int, topParent: nat, topOff: byte)
      returns (made: bool, n': nat, topNew': int, topParent': nat, topOff': byte)
      requires n < |nodes| && (topNew != -1 ==> SlotOf(nodes, n, c).Null?)
      modifies this`nodes
      ensures made == !SlotOf(old(nodes), n, c).Ptr? && n' == if made then |old(nodes)|
                else SlotOf(old(nodes), n, c).node
      ensures nodes == if !made then old(nodes)
                       else if topNew == -1 then old(nodes) + [EMPTY_NODE]
                       else Put(old(nodes) + [EMPTY_NODE], n, c, Ptr(|old(nodes)|))
      ensures |nodes| == |old(nodes)| + if made then 1 else 0
      ensures (topNew', topParent', topOff') ==
              if made && topNew == -1 then (|old(nodes)|, n, c) else (topNew, topParent, topOff)
    {
      made, n', topNew', topParent', topOff' := false, n, topNew, topParent, topOff;
      var v := SlotOf(nodes, n, c);
      if v.Ptr? {
        n' := v.node;
      } else {
        var tmp := |nodes|;
        nodes := nodes + [EMPTY_NODE];
        made := true;
        if topNew == -1 {
          topNew', topParent', topOff' := tmp, n, c;
        } else {
          NewNodeKeeps(old(nodes), n, c);
          nodes := Put(nodes, n, c, Ptr(tmp));
        }
        n' := tmp;
      }
    }

    /** The loop of insertNCase, lines 489-530: down the existing nodes, then along new ones. */
    method Descend(str: Key, noCase: bool)
      returns (n: nat, topNew: int, topParent: nat, topOff: byte, newNodes: nat, ghost fork: nat)
      requires KeyOk(str) && TreeOk(nodes, paths)
      modifies this`nodes
      ensures Descended(old(nodes), nodes, Folded(str, noCase), n, topNew, fork, topParent, topOff)
      ensures newNodes == |nodes| - |old(nodes)|
    {
      n, topNew, topParent, topOff, newNodes, fork := 0, -1, 0, 0, 0, 0;
      var level := 0;
      ghost var t, key := nodes, Folded(str, noCase);
      while level + 1 < |str|
        invariant level < |str| && newNodes == |nodes| - |t|
        invariant OnTheWay(t, key, level, Way(nodes, n, topNew, fork, topParent, topOff))
      {
        var c := if noCase then FoldByte(str[level]) else str[level];
        ghost var way := Way(nodes, n, topNew, fork, topParent, topOff);
        ghost var next := WayStep(t, paths, key, level, way);
        var made;
        made, n, topNew, topParent, topOff := Turn(c, n, topNew, topParent, topOff);
        fork := next.fork;
        assert next == Way(nodes, n, topNew, fork, topParent, topOff);
        newNodes := newNodes + if made then 1 else 0;
        level := level + 1;
      }
    }

    /** Lines 533-542: the value goes into the slot, or behind the node it leads to; a value that is there stays. */
    method StoreValue(n: nat, c: byte, value: Value) returns (stored: bool)
      requires n < |nodes| && (SlotOf(nodes, n, c).Ptr? ==> SlotOf(nodes, n, c).node < |nodes|)
      modifies this`nodes
      ensures |nodes| == |old(nodes)| && stored == !SlotOf(old(nodes), n, c).Leaf?
      ensures nodes == Stored(old(nodes), n, c, value)
    {
      var v := SlotOf(nodes, n, c);
      if v.Null? {
        nodes := Put(nodes, n, c, Leaf(value));
      } else if v.Leaf? {
        return false;
      } else {
        nodes := Put(nodes, v.node, 0, Leaf(value));
      }
      return true;
    }

    /** Lines 533-545: the value, and last the chain. */
    method Store(n: nat, c: byte, value: Value, topNew: int, topParent: nat, topOff: byte) returns (stored: bool)
      requires n < |nodes| && (SlotOf(nodes, n, c).Ptr? ==> SlotOf(nodes, n, c).node < |nodes|)
      requires !SlotOf(nodes, n, c).Leaf? && topNew != -1 ==> topParent < |nodes| && 0 <= topNew < |nodes|
      modifies this`nodes
      ensures stored == !SlotOf(old(nodes), n, c).Leaf? && |nodes| == |old(nodes)|
      ensures nodes == if stored then Final(old(nodes), n, c, value, topNew, topParent, topOff) else old(nodes)
    {
      stored := StoreValue(n, c, value);
      if stored && topNew != -1 {
        nodes := Put(nodes, topParent, topOff, Ptr(topNew));
      }
    }

    /**
      insertNCase and insert, lines 480-621; the second differs only in not folding the case. With a longer
      key the 16-bit level would start anew and the loop would add nodes without end.
     */
    method Insert(str: Key, value: Value, noCase: bool) returns (r: int)
      requires Valid() && KeyOk(str) && |str| <= LEVELS
      modifies this
      ensures Valid() && history == old(history) + [Inserted(Folded(str, noCase), value)]
      ensures r == if FirstValue(old(history), Folded(str, noCase)).Some? && !IsBegun(old(history), Folded(str, noCase))
                   then -1 else 0
      ensures valueCount == old(valueCount) + if r == 0 then 1 else 0
      ensures nodeCount - old(nodeCount) == |nodes| - |old(nodes)|
    {
      ghost var t, key := nodes, Folded(str, noCase);
      var n, topNew, topParent, topOff, newNodes, fork := Descend(str, noCase);
      ghost var g := nodes;
      var last := str[|str| - 1];
      var c := if noCase then FoldByte(last) else last;
      assert c == key[|key| - 1];
      paths := AfterInsert(t, paths, history, g, key, n, topNew, fork, topParent, topOff, value);
      history := history + [Inserted(key, value)];
      var stored := Store(n, c, value, topNew, topParent, topOff);
      if !stored {
        return -1;
      }
      nodeCount := nodeCount + newNodes;
      valueCount := valueCount + 1;
      return 0;
    }

    /**
      The loop of findNCase, lines 629-641, for keys of any length: the 16-bit level of a key of more than
      2^16 bytes starts anew, until the way ends.
     */
    method Follow(str: Key, noCase: bool) returns (n: Option<nat>)
      requires TreeOk(nodes, paths) && KeyOk(str)
      ensures n == if |str| <= LEVELS then Walk(nodes, Folded(str, noCase)[..|str| - 1]) else None
    {
      ghost var key := Folded(str, noCase);
      var m: nat, level: nat := 0, 0;
      PathsAreBounded(paths, 0);
      while level + 1 < |str|
        invariant level < |str| && level < LEVELS && m < |nodes| && |paths[m]| <= Deepest(paths)
        invariant |str| <= LEVELS ==> Walk(nodes, key[..level]) == Some(m)
        decreases Deepest(paths) - |paths[m]|
      {
        var c := if noCase then FoldByte(str[level]) else str[level];
        if |str| <= LEVELS {
          WalkStep(nodes, key, level, m);
        }
        var v := SlotOf(nodes, m, c);
        if !v.Ptr? {
          return None;
        }
        OneDeeper(nodes, paths, m, c);
        m := v.node;
        level := if level + 1 < LEVELS then level + 1 else 0;
      }
      n := Some(m);
    }

    /** findNCase and find, lines 623-695. */
    method Find(str: Key, noCase: bool) returns (found: Option<Value>)
      requires Valid() && KeyOk(str)
      ensures found == FirstValue(history, Folded(str, noCase))
    {
      ghost var key := Folded(str, noCase);
      assert StandsAt(nodes, history, key);
      var end := Follow(str, noCase);
      if end.None? {
        if |str| > LEVELS {
          LongKeysAreAbsent(history, key);
        }
        return None;
      }
      WalkGivesPath(nodes, paths, key[..|key| - 1]);
      var n, last := end.value, str[|str| - 1];
      var c := if noCase then FoldByte(last) else last;
      assert PointerOk(nodes, paths, n, c);
      match SlotOf(nodes, n, c)
      case Null => return None;
      case Leaf(v) => return Some(v);
      case Ptr(k) =>
        assert PointerOk(nodes, paths, k, 0);
        match SlotOf(nodes, k, 0)
        case Null => return None;
        case Leaf(v) => return Some(v);
    }
  }

  /** No path of the tree is longer than the deepest one. */
  ghost function Deepest(paths: seq<Key>): nat {
    if paths == [] then 0
    else
      var rest, last := Deepest(paths[..|paths| - 1]), |paths[|paths| - 1]|;
      if rest < last then last else rest
  }

  lemma {:induction false} PathsAreBounded(paths: seq<Key>, i: nat)
    requires i < |paths|
    ensures |paths[i]| <= Deepest(paths)
  {
    if i < |paths| - 1 {
      PathsAreBounded(paths[..|paths| - 1], i);
    }
  }

  lemma {:induction false} OneDeeper(nodes: Nodes, paths: seq<Key>, m: nat, c: byte)
    requires TreeOk(nodes, paths) && m < |nodes| && SlotOf(nodes, m, c).Ptr?
    ensures var k := SlotOf(nodes, m, c).node; k < |nodes| && |paths[k]| == |paths[m]| + 1 <= Deepest(paths)
  {
    assert PointerOk(nodes, paths, m, c);
    PathsAreBounded(paths, SlotOf(nodes, m, c).node);
  }

  lemma {:induction false} WalkStep(nodes: Nodes, key: Key, level: nat, m: nat)
    requires level + 1 < |key| && m < |nodes| && Walk(nodes, key[..level]) == Some(m)
    ensures var v := SlotOf(nodes, m, key[level]);
            if v.Ptr? then Walk(nodes, key[..level + 1]) == Some(v.node) else Walk(nodes, key[..|key| - 1]) == None
  {
    WalkSnoc(nodes, key[..level], key[level]);
    assert key[..level + 1] == key[..level] + [key[level]];
    if !SlotOf(nodes, m, key[level]).Ptr? {
      StaysLost(nodes, key, level + 1, |key| - 1);
    }
  }

  lemma {:induction false} LongKeysAreAbsent(history: seq<Inserted>, key: Key)
    requires |key| > LEVELS
    ensures FirstValue(history, key) == None
  {
    if history != [] {
      LongKeysAreAbsent(history[..|history| - 1], key);
    }
  }

  /** A walk that has failed stays failed. */
  lemma {:induction false} StaysLost(nodes: Nodes, key: Key, level: nat, upTo: nat)
    requires level <= upTo < |key| && Walk(nodes, key[..level]) == None
    ensures Walk(nodes, key[..upTo]) == None
  {
    if level < upTo {
      StaysLost(nodes, key, level, upTo - 1);
      assert key[..upTo] == key[..upTo - 1] + [key[upTo - 1]];
      WalkSnoc(nodes, key[..upTo - 1], key[upTo - 1]);
    }
  }

  lemma RepeatedKey(nodes: Nodes, history: seq<Inserted>, key: ShortKey, v: Value)
    requires Stands(nodes, history) && KeyOk(key) && Lookup(nodes, key).Some?
    ensures Stands(nodes, history + [Inserted(key, v)])
  {
    forall k ensures AddsAt(nodes, nodes, key, v, k) {
    }
    AddsToHistory(nodes, nodes, history, key, v);
  }

  lemma {:induction false} EmptyWalk(nodes: Nodes, path: Key)
    requires nodes == [EMPTY_NODE]
    ensures Walk(nodes, path) == if path == [] then Some(0) else None
  {
    if path != [] {
      EmptyWalk(nodes, path[..|path| - 1]);
      EmptyNodeIsEmpty(path[|path| - 1]);
    }
  }
}
