/**
  The live index of a block (database/appendingIndex.h and .cpp): sorted keys, each with a growing array
  of record ids. The skip list is taken as the sorted sequence of its nodes.
 */
module AppendingIndex {
  import opened Bytes
  import opened Options
  import opened KeyOrder

  datatype Appended = Appended(key: Key, id: nat)

  /** The ids appended for a key, in order: the multimap the index stands for. */
  function IdsOf(history: seq<Appended>, key: Key): seq<nat> {
    if history == [] then []
    else
      var n := |history| - 1;
      IdsOf(history[..n], key) + if history[n].key == key then [history[n].id] else []
  }

  /** A key with its array of ids, of which the first `count` are in use (KeyTemplate and keyChildInfo). */
  datatype Node = Node(key: Key, slots: seq<nat>, count: nat)

  datatype Posting = Posting(key: Key, ids: seq<nat>)

  predicate Less(kt: KeyType, a: Key, b: Key) {
    KeyOk(kt, a) && KeyOk(kt, b) && Compare(kt, a, b) < 0
  }

  lemma LessIsTransitive(kt: KeyType, a: Key, b: Key, c: Key)
    requires Orderly(kt) && Less(kt, a, b) && Less(kt, b, c)
    ensures Less(kt, a, c)
  {
    KeyOrderIsTransitive(kt, a, b, c);
  }

  lemma LessIsTotal(kt: KeyType, a: Key, b: Key)
    requires Orderly(kt) && KeyOk(kt, a) && KeyOk(kt, b)
    ensures Less(kt, a, b) || a == b || Less(kt, b, a)
    ensures Less(kt, a, b) ==> !Less(kt, b, a) && a != b
  {
    KeysAreTotallyOrdered(kt, a, b);
  }

  // ---------------------------------------------------------------- what the nodes must be

  ghost predicate NodeOk(kt: KeyType, n: Node, history: seq<Appended>) {
    && KeyOk(kt, n.key)
    && 0 < n.count <= |n.slots|
    && n.slots[..n.count] == IdsOf(history, n.key)
  }

  ghost predicate Sorted(kt: KeyType, nodes: seq<Node>) {
    forall i, j | 0 <= i < j < |nodes| :: Less(kt, nodes[i].key, nodes[j].key)
  }

  ghost predicate HasKey(nodes: seq<Node>, key: Key) {
    exists i :: 0 <= i < |nodes| && nodes[i].key == key
  }

  ghost predicate NodesOk(kt: KeyType, nodes: seq<Node>, history: seq<Appended>) {
    && (forall i | 0 <= i < |nodes| :: NodeOk(kt, nodes[i], history))
    && Sorted(kt, nodes)
    && (forall i | 0 <= i < |history| :: HasKey(nodes, history[i].key))
  }

  lemma {:induction false} IdsOfAbsent(history: seq<Appended>, key: Key)
    ensures IdsOf(history, key) == [] <==> forall i | 0 <= i < |history| :: history[i].key != key
  {
    if history != [] {
      IdsOfAbsent(history[..|history| - 1], key);
    }
  }

  lemma IdsOfSnoc(history: seq<Appended>, a: Appended, key: Key)
    ensures IdsOf(history + [a], key) == IdsOf(history, key) + if a.key == key then [a.id] else []
  {
    assert (history + [a])[..|history|] == history;
  }

  function IdCount(n: Node): nat { n.count }

  // ---------------------------------------------------------------- appending to the nodes

  /** Where the skip list's Seek stops: at the first node whose key is not below the target. */
  ghost predicate IsSeek(kt: KeyType, nodes: seq<Node>, key: Key, at: nat) {
    && at <= |nodes|
    && (forall i | 0 <= i < at :: Less(kt, nodes[i].key, key))
    && (forall i | at <= i < |nodes| :: nodes[i].key == key || Less(kt, key, nodes[i].key))
  }

  method Seek(kt: KeyType, nodes: seq<Node>, key: Key) returns (at: nat)
    requires Orderly(kt) && KeyOk(kt, key) && Sorted(kt, nodes) && forall i | 0 <= i < |nodes| ::
               KeyOk(kt, nodes[i].key)
    ensures IsSeek(kt, nodes, key, at)
  {
    at := 0;
    while at < |nodes| && Compare(kt, nodes[at].key, key) < 0
      invariant at <= |nodes| && forall i | 0 <= i < at :: Less(kt, nodes[i].key, key)
    {
      at := at + 1;
    }
    forall i | at <= i < |nodes| ensures nodes[i].key == key || Less(kt, key, nodes[i].key) {
      LessIsTotal(kt, key, nodes[at].key);
      if at < i && Less(kt, key, nodes[at].key) {
        LessIsTransitive(kt, key, nodes[at].key, nodes[i].key);
      }
    }
  }

  /** Lines 117-122 of appendingIndex.h: a new node with room for one id. */
  function Inserted(nodes: seq<Node>, at: nat, n: Node): seq<Node>
    requires at <= |nodes|
  {
    nodes[..at] + [n] + nodes[at..]
  }

  /** Lines 130-140: the array doubles when it is full, then takes the id. */
  function Grown(n: Node, id: nat): Node
    requires n.count <= |n.slots|
    requires n.count == |n.slots| ==> n.slots != []
  {
    var slots := if n.count >= |n.slots| then n.slots + n.slots else n.slots;
    Node(n.key, slots[n.count := id], n.count + 1)
  }

  lemma GrownIds(n: Node, id: nat)
    requires 0 < |n.slots| && n.count <= |n.slots|
    ensures var g := Grown(n, id); g.count <= |g.slots| && g.slots[..g.count] == n.slots[..n.count] + [id]
  {
  }

  lemma AbsentKey(kt: KeyType, nodes: seq<Node>, key: Key, at: nat, i: nat)
    requires Orderly(kt) && Sorted(kt, nodes) && KeyOk(kt, key) && IsSeek(kt, nodes, key, at) && i < |nodes|
    requires at == |nodes| || nodes[at].key != key
    ensures nodes[i].key != key
  {
    if at < i {
      LessIsTotal(kt, nodes[at].key, nodes[i].key);
      LessIsTotal(kt, key, nodes[at].key);
    } else if i < at {
      LessIsTotal(kt, nodes[i].key, key);
    }
  }

  lemma InsertedNode(kt: KeyType, nodes: seq<Node>, history: seq<Appended>, at: nat, a: Appended, n: Node, i: nat)
    requires Orderly(kt) && NodesOk(kt, nodes, history) && KeyOk(kt, a.key) && IsSeek(kt, nodes, a.key, at)
    requires at == |nodes| || nodes[at].key != a.key
    requires n == Node(a.key, [a.id], 1) && i <= |nodes|
    ensures NodeOk(kt, Inserted(nodes, at, n)[i], history + [a])
  {
    IdsOfSnoc(history, a, Inserted(nodes, at, n)[i].key);
    if i == at {
      AbsentFromHistory(kt, nodes, history, a.key, at);
    } else {
      var j := if i < at then i else i - 1;
      AbsentKey(kt, nodes, a.key, at, j);
      assert NodeOk(kt, nodes[j], history);
    }
  }

  lemma InsertedKeys(nodes: seq<Node>, history: seq<Appended>, at: nat, a: Appended, n: Node)
    requires at <= |nodes| && n.key == a.key && forall i | 0 <= i < |history| :: HasKey(nodes, history[i].key)
    ensures var h := history + [a]; forall i | 0 <= i < |h| :: HasKey(Inserted(nodes, at, n), h[i].key)
  {
    var ns, h := Inserted(nodes, at, n), history + [a];
    forall i | 0 <= i < |h| ensures HasKey(ns, h[i].key) {
      if i < |history| {
        var j :| 0 <= j < |nodes| && nodes[j].key == history[i].key;
        assert ns[if j < at then j else j + 1].key == h[i].key;
      } else {
        assert ns[at].key == h[i].key;
      }
    }
  }

  lemma InsertKeeps(kt: KeyType, nodes: seq<Node>, history: seq<Appended>, at: nat, a: Appended, n: Node)
    requires Orderly(kt) && NodesOk(kt, nodes, history) && KeyOk(kt, a.key) && IsSeek(kt, nodes, a.key, at)
    requires at == |nodes| || nodes[at].key != a.key
    requires n == Node(a.key, [a.id], 1)
    ensures NodesOk(kt, Inserted(nodes, at, n), history + [a])
  {
    var ns, h := Inserted(nodes, at, n), history + [a];
    forall i | 0 <= i < |ns| ensures NodeOk(kt, ns[i], h) {
      InsertedNode(kt, nodes, history, at, a, n, i);
    }
    forall i | 0 <= i < |nodes| ensures nodes[i].key != a.key {
      AbsentKey(kt, nodes, a.key, at, i);
    }
    InsertedKeys(nodes, history, at, a, n);
  }

  lemma GrownNode(kt: KeyType, nodes: seq<Node>, history: seq<Appended>, at: nat, a: Appended, i: nat)
    requires Orderly(kt) && NodesOk(kt, nodes, history) && at < |nodes| && nodes[at].key == a.key && i < |nodes|
    ensures NodeOk(kt, nodes[at], history)
    ensures NodeOk(kt, nodes[at := Grown(nodes[at], a.id)][i], history + [a])
  {
    IdsOfSnoc(history, a, nodes[i].key);
    assert NodeOk(kt, nodes[at], history) && NodeOk(kt, nodes[i], history);
    if i == at {
      GrownIds(nodes[at], a.id);
    } else {
      LessIsTotal(kt, nodes[i].key, nodes[at].key);
      assert Less(kt, nodes[i].key, nodes[at].key) || Less(kt, nodes[at].key, nodes[i].key);
    }
  }

  lemma GrowKeeps(kt: KeyType, nodes: seq<Node>, history: seq<Appended>, at: nat, a: Appended)
    requires Orderly(kt) && NodesOk(kt, nodes, history) && at < |nodes| && nodes[at].key == a.key
    ensures NodeOk(kt, nodes[at], history)
    ensures NodesOk(kt, nodes[at := Grown(nodes[at], a.id)], history + [a])
  {
    GrownNode(kt, nodes, history, at, a, at);
    var ns, h := nodes[at := Grown(nodes[at], a.id)], history + [a];
    forall i | 0 <= i < |ns| ensures NodeOk(kt, ns[i], h) {
      GrownNode(kt, nodes, history, at, a, i);
    }
    forall i | 0 <= i < |h| ensures HasKey(ns, h[i].key) {
      var j := if i == |history| then at else var j :| 0 <= j < |nodes| && nodes[j].key == history[i].key; j;
      assert ns[j].key == h[i].key;
    }
  }

  // ---------------------------------------------------------------- the index

  /** What a new key adds to m_varSize (appendingIndex.cpp lines 15-16 and 32-35). */
  function VarPart(kt: KeyType, key: Key): nat {
    match kt
    case Single(_) => 0
    case Binary => |key|
    case Union(types, _) => if !AllFixed(types) && |key| >= BaseSize(types) then |key| - BaseSize(types) else 0
  }

  function VarPartOf(kt: KeyType): Node -> nat { (n: Node) => VarPart(kt, n.key) }

  ghost predicate CountsOk(kt: KeyType, nodes: seq<Node>, history: seq<Appended>, varSize: nat) {
    && Orderly(kt) && NodesOk(kt, nodes, history)
    && varSize == Sum(VarPartOf(kt), nodes)
    && |history| == Sum(IdCount, nodes)
  }

  /** The test of line 115 tells whether the key was appended before. */
  lemma SeekDecides(kt: KeyType, nodes: seq<Node>, history: seq<Appended>, key: Key, at: nat)
    requires Orderly(kt) && NodesOk(kt, nodes, history) && KeyOk(kt, key) && IsSeek(kt, nodes, key, at)
    ensures at < |nodes| ==> KeyOk(kt, nodes[at].key)
    ensures IdsOf(history, key) == [] <==> at == |nodes| || Compare(kt, nodes[at].key, key) > 0
    ensures IdsOf(history, key) == [] <==> at == |nodes| || nodes[at].key != key
  {
    if at < |nodes| {
      KeysAreTotallyOrdered(kt, nodes[at].key, key);
      assert NodeOk(kt, nodes[at], history);
    }
    if at == |nodes| || nodes[at].key != key {
      AbsentFromHistory(kt, nodes, history, key, at);
    }
  }

  lemma InsertCounts(kt: KeyType, nodes: seq<Node>, history: seq<Appended>, at: nat, a: Appended, varSize: nat)
    requires CountsOk(kt, nodes, history, varSize) && KeyOk(kt, a.key) && IsSeek(kt, nodes, a.key, at)
    requires at == |nodes| || nodes[at].key != a.key
    ensures CountsOk(kt, Inserted(nodes, at, Grown(Node(a.key, [0], 0), a.id)), history + [a],
              varSize + VarPart(kt, a.key))
  {
    var n := Grown(Node(a.key, [0], 0), a.id);
    InsertKeeps(kt, nodes, history, at, a, n);
    SumInsert(IdCount, nodes, at, n);
    SumInsert(VarPartOf(kt), nodes, at, n);
  }

  lemma GrowCounts(kt: KeyType, nodes: seq<Node>, history: seq<Appended>, at: nat, a: Appended, varSize: nat)
    requires CountsOk(kt, nodes, history, varSize) && at < |nodes| && nodes[at].key == a.key
    ensures 0 < nodes[at].count <= |nodes[at].slots|
    ensures CountsOk(kt, nodes[at := Grown(nodes[at], a.id)], history + [a], varSize)
  {
    assert NodeOk(kt, nodes[at], history);
    GrowKeeps(kt, nodes, history, at, a);
    SumUpdate(IdCount, nodes, at, Grown(nodes[at], a.id));
    SumUpdate(VarPartOf(kt), nodes, at, Grown(nodes[at], a.id));
  }

  class Index {
    const kt: KeyType
    var nodes: seq<Node>
    var keyCount: nat
    var allCount: nat
    var varSize: nat
    ghost var history: seq<Appended>

    ghost predicate NodesValid()
      reads this
    {
      CountsOk(kt, nodes, history, varSize) && keyCount == |nodes|
    }

    ghost predicate Valid()
      reads this
    {
      NodesValid() && allCount == |history|
    }

    constructor (kt: KeyType)
      requires Orderly(kt)
      ensures Valid() && this.kt == kt && history == []
    {
      this.kt := kt;
      nodes, keyCount, allCount, varSize, history := [], 0, 0, 0, [];
    }

    /** Lines 117-122: a new node, and the size its key adds for the callers. */
    method InsertKey(at: nat, key: Key, id: nat)
      requires NodesValid() && KeyOk(kt, key) && IsSeek(kt, nodes, key, at) && (at == |nodes| || nodes[at].key != key)
      modifies this`nodes, this`keyCount, this`varSize, this`history
      ensures NodesValid() && history == old(history) + [Appended(key, id)]
    {
      InsertCounts(kt, nodes, history, at, Appended(key, id), varSize);
      nodes := Inserted(nodes, at, Grown(Node(key, [0], 0), id));
      keyCount := keyCount + 1;
      varSize := varSize + VarPart(kt, key);
      history := history + [Appended(key, id)];
    }

    /** Lines 126-140: one more id in the array of node `at`. */
    method GrowKey(at: nat, id: nat)
      requires NodesValid() && at < |nodes|
      modifies this`nodes, this`history
      ensures NodesValid() && history == old(history) + [Appended(old(nodes)[at].key, id)]
    {
      GrowCounts(kt, nodes, history, at, Appended(nodes[at].key, id), varSize);
      history := history + [Appended(nodes[at].key, id)];
      nodes := nodes[at := Grown(nodes[at], id)];
    }

    /** appendIndex, lines 109-142 of appendingIndex.h. */
    method AppendKey(key: Key, id: nat) returns (newKey: bool)
      requires NodesValid() && KeyOk(kt, key)
      modifies this`nodes, this`keyCount, this`varSize, this`history
      ensures NodesValid() && history == old(history) + [Appended(key, id)]
      ensures newKey <==> IdsOf(old(history), key) == []
    {
      var at := Seek(kt, nodes, key);
      SeekDecides(kt, nodes, history, key, at);
      newKey := at == |nodes| || Compare(kt, nodes[at].key, key) > 0;
      if newKey {
        InsertKey(at, key, id);
      } else {
        GrowKey(at, id);
      }
    }

    /** append, appendingIndex.cpp lines 190-204: a record whose key was updated is listed under both keys. */
    method Append(key: Key, oldKey: Option<Key>, id: nat)
      requires Valid() && KeyOk(kt, key) && (oldKey.Some? ==> KeyOk(kt, oldKey.value))
      modifies this
      ensures Valid()
      ensures history == old(history) + [Appended(key, id)] +
                         match oldKey case None => [] case Some(k) => [Appended(k, id)]
    {
      var _ := AppendKey(key, id);
      if oldKey.Some? {
        var _ := AppendKey(oldKey.value, id);
        allCount := allCount + 2;
      } else {
        allCount := allCount + 1;
      }
    }

    /** find, lines 177-191: the latest id of the key, -1 when there is none. */
    method Find(key: Key) returns (id: int)
      requires Valid() && KeyOk(kt, key)
      ensures var ids := IdsOf(history, key); id == if ids == [] then -1 else ids[|ids| - 1]
    {
      var at := Seek(kt, nodes, key);
      SeekDecides(kt, nodes, history, key, at);
      if at == |nodes| || Compare(kt, nodes[at].key, key) > 0 {
        return -1;
      }
      assert NodeOk(kt, nodes[at], history);
      assert nodes[at].slots[..nodes[at].count][nodes[at].count - 1] == nodes[at].slots[nodes[at].count - 1];
      id := nodes[at].slots[nodes[at].count - 1];
    }
  }

  lemma AbsentFromHistory(kt: KeyType, nodes: seq<Node>, history: seq<Appended>, key: Key, at: nat)
    requires Orderly(kt) && NodesOk(kt, nodes, history) && KeyOk(kt, key) && IsSeek(kt, nodes, key, at)
    requires at == |nodes| || nodes[at].key != key
    ensures IdsOf(history, key) == []
  {
    forall j | 0 <= j < |history| ensures history[j].key != key {
      var k :| 0 <= k < |nodes| && nodes[k].key == history[j].key;
      AbsentKey(kt, nodes, key, at, k);
    }
    IdsOfAbsent(history, key);
  }
}
