/**
  The tree of versioned table ids in meta/tableIdTree.h: every node has 512 slots, the root grows a level
  when an id does not fit, and each id at the bottom has a chain of versions, newest first. Nodes are
  values here; ids are counted from the start of the node.
 */
module TableIdTree {
  import opened Options

  const SLOTS: nat := 512
  const SHORT: nat := 0x1_0000
  /** From this id on, line 115 overflows an int. */
  const ID_LIMIT: nat := 0x8000_0000

  type Meta = nat

  /** A table's meta data with its m_id: 16 bits of version number below the table's id. */
  datatype Version = Version(mid: nat, meta: Meta)

  function TableId(mid: nat): nat { mid / SHORT }

  /** m_id is the table's id above its 16-bit version. */
  lemma IdAndVersion(mid: nat)
    ensures mid == 0x1_0000 * TableId(mid) + mid % SHORT && mid % SHORT < 0x1_0000
  {
  }

  datatype Tree = Leaf(chains: map<nat, seq<Version>>) | Inner(children: map<nat, Tree>)

  /** id >> (level * 9) */
  function Shift(id: nat, level: nat): nat { if level == 0 then id else Shift(id / SLOTS, level - 1) }

  /** c << (level * 9) */
  function Up(c: nat, level: nat): nat { if level == 0 then c else SLOTS * Up(c, level - 1) }

  /** The bits that a shift drops. */
  function Low(id: nat, level: nat): nat {
    if level == 0 then 0 else SLOTS * Low(id / SLOTS, level - 1) + id % SLOTS
  }

  /** `cid` of put and get: the shifted id, cut to 16 bits. */
  function Slot(id: nat, level: nat): nat { Shift(id, level) % SHORT }

  /** The shifted id fits 16 bits. */
  predicate Fits(id: nat, level: nat) { Shift(id, level) < SHORT }

  /** The id counted from the start of the child that it belongs to (line 115). */
  function Below(id: nat, level: nat): nat {
    var r := id - Up(Slot(id, level), level);
    if r < 0 then 0 else r
  }

  /** The id lies in a node of this level that starts at 0: it takes at most 9 bits for each level. */
  predicate Inside(id: nat, level: nat) { Shift(id, level + 1) == 0 }

  ghost predicate Shaped(t: Tree, level: nat)
    decreases level
  {
    if level == 0 then t.Leaf?
    else t.Inner? && forall c | c in t.children :: Shaped(t.children[c], level - 1)
  }

  /** The walk of get and getPrevVersion down to the chain of an id. */
  function Chain(t: Tree, level: nat, id: nat): seq<Version>
    decreases level
  {
    var c := Slot(id, level);
    if c >= SLOTS then []
    else if level == 0 then if t.Leaf? && c in t.chains then t.chains[c] else []
    else if t.Inner? && c in t.children then Chain(t.children[c], level - 1, Below(id, level)) else []
  }

  function EmptyTree(level: nat): Tree { if level == 0 then Leaf(map[]) else Inner(map[]) }

  /** put below the root, lines 93-149: missing nodes are made, the new version goes in front. */
  function PutBelow(t: Tree, level: nat, id: nat, v: Version): Tree
    decreases level
  {
    var c := Slot(id, level);
    if level == 0 then
      if t.Leaf? then Leaf(t.chains[c := [v] + Chain(t, 0, id)]) else t
    else
      if t.Inner? then
        var child := if c in t.children then t.children[c] else EmptyTree(level - 1);
        Inner(t.children[c := PutBelow(child, level - 1, Below(id, level), v)])
      else t
  }

  // ---------------------------------------------------------------- arithmetic of slots

  /** A number is its upper part shifted back plus its lower part. */
  lemma {:induction false} Parts(id: nat, level: nat)
    ensures id == Up(Shift(id, level), level) + Low(id, level) && Shift(Low(id, level), level) == 0
  {
    if level > 0 {
      Parts(id / SLOTS, level - 1);
      assert Low(id, level) / SLOTS == Low(id / SLOTS, level - 1);
    }
  }

  lemma {:induction false} ShiftOnce(id: nat, level: nat)
    ensures Shift(id, level + 1) == Shift(id, level) / SLOTS
  {
    if level > 0 {
      ShiftOnce(id / SLOTS, level - 1);
    }
  }

  lemma {:induction false} ZeroUp(level: nat)
    ensures Up(0, level) == 0
  {
    if level > 0 {
      ZeroUp(level - 1);
    }
  }

  lemma {:induction false} ShiftRises(a: nat, b: nat, level: nat)
    requires a <= b + 1
    ensures Shift(a, level) <= Shift(b, level) + 1
  {
    if level > 0 {
      ShiftRises(a / SLOTS, b / SLOTS, level - 1);
    }
  }

  /** An id inside a node has a slot of its own and lies inside the child in that slot. */
  lemma InsideNode(id: nat, level: nat)
    requires Inside(id, level)
    ensures Slot(id, level) == Shift(id, level) < SLOTS && Fits(id, level)
    ensures Below(id, level) == Low(id, level) && (level > 0 ==> Inside(Below(id, level), level - 1))
  {
    ShiftOnce(id, level);
    Parts(id, level);
  }

  /** An id that fits but lies behind the node has no slot in it. */
  lemma BehindNode(id: nat, level: nat)
    requires Fits(id, level) && !Inside(id, level)
    ensures Slot(id, level) >= SLOTS
  {
    ShiftOnce(id, level);
  }

  lemma {:induction false} UpSum(a: nat, b: nat, level: nat)
    ensures Up(a + b, level) == Up(a, level) + Up(b, level)
  {
    if level > 0 {
      UpSum(a, b, level - 1);
    }
  }

  lemma {:induction false} UpOnce(a: nat, level: nat)
    ensures Up(a, level + 1) == Up(SLOTS * a, level)
  {
    if level > 0 {
      UpOnce(a, level - 1);
    }
  }

  /** Adding a multiple of the node size only adds to the slot number. */
  lemma {:induction false} AddUp(a: nat, x: nat, level: nat)
    ensures Shift(Up(a, level) + x, level) == a + Shift(x, level)
  {
    if level > 0 {
      assert (Up(a, level) + x) / SLOTS == Up(a, level - 1) + x / SLOTS;
      AddUp(a, x / SLOTS, level - 1);
    }
  }

  /** A slot number that is 2^16 * q more gives the same slot and the same distance below it. */
  lemma Wraps(x: nat, q: nat, level: nat)
    ensures var y := Up(SHORT * q, level) + x;
            Slot(y, level) == Slot(x, level) && Below(y, level) == Up(SHORT * q, level) + Below(x, level)
  {
    AddUp(SHORT * q, x, level);
    var c := Slot(x, level);
    Parts(x, level);
    UpSum(Shift(x, level) - c, c, level);
  }

  /** The id whose path the walk takes: the slot number cut to 16 bits, the lower bits as they are. */
  function Cut(id: nat, level: nat): nat { Up(Slot(id, level), level) + Low(id, level) }

  lemma CutParts(id: nat, level: nat)
    ensures Shift(Cut(id, level), level) == Slot(id, level) == Slot(Cut(id, level), level)
    ensures Fits(Cut(id, level), level)
    ensures id == Up(SHORT * (Shift(id, level) / SHORT), level) + Cut(id, level)
    ensures Fits(id, level) <==> Cut(id, level) == id
    ensures Slot(id, level) < SLOTS <==> Inside(Cut(id, level), level)
  {
    Parts(id, level);
    AddUp(Slot(id, level), Low(id, level), level);
    UpSum(SHORT * (Shift(id, level) / SHORT), Slot(id, level), level);
    ShiftOnce(Cut(id, level), level);
  }

  lemma SameId(a: nat, b: nat, level: nat)
    requires Inside(a, level) && Inside(b, level)
    requires Slot(a, level) == Slot(b, level) && Below(a, level) == Below(b, level)
    ensures a == b
  {
    InsideNode(a, level);
    InsideNode(b, level);
    Parts(a, level);
    Parts(b, level);
  }

  // ---------------------------------------------------------------- putting a version

  lemma {:induction false} EmptyHasNoChain(level: nat, id: nat)
    ensures Chain(EmptyTree(level), level, id) == []
  {
  }

  /** The new version stands in front of the chain of its id; every other chain is as before. */
  lemma {:induction false} ChainAfterPut(t: Tree, level: nat, id: nat, v: Version, x: nat)
    requires Shaped(t, level) && Inside(id, level) && Inside(x, level)
    ensures Chain(PutBelow(t, level, id, v), level, x) == if x == id then [v] + Chain(t, level, x)
              else Chain(t, level, x)
    decreases level
  {
    InsideNode(id, level);
    InsideNode(x, level);
    if level == 0 {
      if Slot(x, 0) == Slot(id, 0) {
        SameId(id, x, 0);
      }
    } else if Slot(x, level) == Slot(id, level) {
      var c := Slot(id, level);
      var child := if c in t.children then t.children[c] else EmptyTree(level - 1);
      EmptyHasNoChain(level - 1, Below(x, level));
      EmptyIsShaped(level - 1);
      ChainAfterPut(child, level - 1, Below(id, level), v, Below(x, level));
      if Below(x, level) == Below(id, level) {
        SameId(id, x, level);
      }
    }
  }

  /** A walk takes the path of the cut id. */
  lemma {:induction false} ChainWraps(t: Tree, level: nat, x: nat, q: nat)
    ensures Chain(t, level, Up(SHORT * q, level) + x) == Chain(t, level, x)
    decreases level
  {
    Wraps(x, q, level);
    var c := Slot(x, level);
    if level > 0 && t.Inner? && c in t.children {
      UpOnce(SHORT * q, level - 1);
      ChainWraps(t.children[c], level - 1, Below(x, level), SLOTS * q);
    }
  }

  /** A put goes to the place of the cut id. */
  lemma {:induction false} PutWraps(t: Tree, level: nat, x: nat, q: nat, v: Version)
    ensures PutBelow(t, level, Up(SHORT * q, level) + x, v) == PutBelow(t, level, x, v)
    decreases level
  {
    Wraps(x, q, level);
    ChainWraps(t, level, x, q);
    if level > 0 && t.Inner? {
      var c := Slot(x, level);
      var child := if c in t.children then t.children[c] else EmptyTree(level - 1);
      UpOnce(SHORT * q, level - 1);
      PutWraps(child, level - 1, Below(x, level), SLOTS * q, v);
    }
  }

  lemma CutPath(t: Tree, level: nat, id: nat, v: Version)
    ensures Chain(t, level, id) == Chain(t, level, Cut(id, level))
    ensures PutBelow(t, level, id, v) == PutBelow(t, level, Cut(id, level), v)
  {
    CutParts(id, level);
    ChainWraps(t, level, Cut(id, level), Shift(id, level) / SHORT);
    PutWraps(t, level, Cut(id, level), Shift(id, level) / SHORT, v);
  }

  lemma EmptyIsShaped(level: nat)
    ensures Shaped(EmptyTree(level), level)
  {
  }

  lemma {:induction false} PutIsShaped(t: Tree, level: nat, id: nat, v: Version)
    requires Shaped(t, level)
    ensures Shaped(PutBelow(t, level, id, v), level)
    decreases level
  {
    if level > 0 {
      var c := Slot(id, level);
      var child := if c in t.children then t.children[c] else EmptyTree(level - 1);
      EmptyIsShaped(level - 1);
      PutIsShaped(child, level - 1, Below(id, level), v);
    }
  }

  // ---------------------------------------------------------------- growing the root

  /** Lines 79-92: the old root becomes slot 0 of the new one. */
  function Grown(t: Tree): Tree { Inner(map[0 := t]) }

  lemma FitsAbove(id: nat, level: nat)
    requires Fits(id, level)
    ensures Fits(id, level + 1)
  {
    ShiftOnce(id, level);
  }

  lemma SlotAbove(id: nat, level: nat)
    requires Fits(id, level + 1)
    ensures Inside(id, level) ==> Slot(id, level + 1) == 0 && Below(id, level + 1) == id
    ensures !Inside(id, level) ==> Slot(id, level + 1) > 0
  {
    ZeroUp(level + 1);
  }

  /** Growing the root changes no lookup whose slot number fits 16 bits. */
  lemma {:induction false} GrowthKeepsChains(t: Tree, level: nat, id: nat)
    requires Fits(id, level)
    ensures Fits(id, level + 1) && Chain(Grown(t), level + 1, id) == Chain(t, level, id)
  {
    FitsAbove(id, level);
    SlotAbove(id, level);
    if !Inside(id, level) {
      BehindNode(id, level);
    }
  }

  // ---------------------------------------------------------------- the tree

  /** The versions put for an id, newest first. */
  function VersionsOf(history: seq<Version>, id: nat): seq<Version> {
    if history == [] then []
    else
      var n := |history| - 1;
      var before := VersionsOf(history[..n], id);
      if TableId(history[n].mid) == id then [history[n]] + before else before
  }

  ghost predicate Descending(chain: seq<Version>) {
    forall i, j | 0 <= i < j < |chain| :: chain[i].mid > chain[j].mid
  }

  /** Every chain that a lookup can reach is the list of versions put for its id. */
  ghost predicate Stands(root: Tree, level: nat, history: seq<Version>) {
    forall id {:trigger Agrees(root, level, history, id)} :: Agrees(root, level, history, id)
  }

  ghost predicate Agrees(root: Tree, level: nat, history: seq<Version>, id: nat) {
    Fits(id, level) ==> Chain(root, level, id) == VersionsOf(history, id)
  }

  ghost predicate ChainsDescend(history: seq<Version>) {
    forall id {:trigger VersionsOf(history, id)} :: Descending(VersionsOf(history, id))
  }

  /** All ids put so far lie in the root. */
  ghost predicate AllInside(history: seq<Version>, level: nat) {
    forall i | 0 <= i < |history| :: Inside(TableId(history[i].mid), level)
  }

  lemma VersionsSnoc(history: seq<Version>, v: Version, id: nat)
    ensures VersionsOf(history + [v], id) == if TableId(v.mid) == id then [v] + VersionsOf(history, id)
              else VersionsOf(history, id)
  {
    assert (history + [v])[..|history|] == history;
  }

  lemma {:induction false} AgreesAfterPut(root: Tree, level: nat, history: seq<Version>, v: Version, id: nat)
    requires Shaped(root, level) && Agrees(root, level, history, id) && Inside(TableId(v.mid), level)
    ensures Agrees(PutBelow(root, level, TableId(v.mid), v), level, history + [v], id)
  {
    VersionsSnoc(history, v, id);
    if Inside(id, level) {
      InsideNode(id, level);
      ChainAfterPut(root, level, TableId(v.mid), v, id);
    } else if Fits(id, level) {
      BehindNode(id, level);
    }
  }

  /** A put keeps every chain right if and only if the slot number of its id fits 16 bits. */
  lemma {:induction false} PutStands(root: Tree, level: nat, history: seq<Version>, v: Version)
    requires Shaped(root, level) && Stands(root, level, history) && Slot(TableId(v.mid), level) < SLOTS
    ensures Stands(PutBelow(root, level, TableId(v.mid), v), level, history + [v]) <==> Fits(TableId(v.mid), level)
  {
    var vid := TableId(v.mid);
    var root', h := PutBelow(root, level, vid, v), history + [v];
    if Fits(vid, level) {
      FoundLevel(vid, level);
      forall id ensures Agrees(root', level, h, id) {
        assert Agrees(root, level, history, id);
        AgreesAfterPut(root, level, history, v, id);
      }
    } else {
      WrongChain(root, level, history, v);
      assert !Agrees(root', level, h, Cut(vid, level));
    }
  }

  /** A version whose slot number does not fit goes in front of the chain of another id. */
  lemma WrongChain(root: Tree, level: nat, history: seq<Version>, v: Version)
    requires Shaped(root, level) && Stands(root, level, history)
    requires Slot(TableId(v.mid), level) < SLOTS && !Fits(TableId(v.mid), level)
    ensures var c := Cut(TableId(v.mid), level);
            && Fits(c, level) && VersionsOf(history + [v], c) == VersionsOf(history, c)
            && Chain(PutBelow(root, level, TableId(v.mid), v), level, c) == [v] + VersionsOf(history, c)
  {
    var c := Cut(TableId(v.mid), level);
    CutParts(TableId(v.mid), level);
    CutPath(root, level, TableId(v.mid), v);
    ChainAfterPut(root, level, c, v, c);
    assert Agrees(root, level, history, c);
    VersionsSnoc(history, v, c);
  }

  lemma {:induction false} GrowthStands(root: Tree, level: nat, history: seq<Version>)
    requires Stands(root, level, history) && AllInside(history, level)
    ensures Stands(Grown(root), level + 1, history)
  {
    var root', level' := Grown(root), level + 1;
    forall id ensures Agrees(root', level', history, id) {
      assert Agrees(root, level, history, id);
      if Fits(id, level) {
        GrowthKeepsChains(root, level, id);
      } else if Fits(id, level + 1) {
        NewlyReachable(root, level, history, id);
      }
    }
  }

  lemma StillInside(history: seq<Version>, level: nat)
    requires AllInside(history, level)
    ensures AllInside(history, level + 1)
  {
    forall i | 0 <= i < |history| ensures Inside(TableId(history[i].mid), level + 1) {
      ShiftOnce(TableId(history[i].mid), level + 1);
    }
  }

  /** An id that only the grown root can reach lies behind all ids put so far. */
  lemma NewlyReachable(root: Tree, level: nat, history: seq<Version>, id: nat)
    requires Fits(id, level + 1) && !Fits(id, level) && AllInside(history, level)
    ensures Chain(Grown(root), level + 1, id) == [] == VersionsOf(history, id)
  {
    ShiftOnce(id, level);
    SlotAbove(id, level);
    NeverPut(history, id);
  }

  lemma {:induction false} NeverPut(history: seq<Version>, id: nat)
    requires forall i | 0 <= i < |history| :: TableId(history[i].mid) != id
    ensures VersionsOf(history, id) == []
  {
    if history != [] {
      NeverPut(history[..|history| - 1], id);
    }
  }

  lemma {:induction false} VersionsHaveId(history: seq<Version>, id: nat)
    ensures forall v | v in VersionsOf(history, id) :: TableId(v.mid) == id
  {
    if history != [] {
      VersionsHaveId(history[..|history| - 1], id);
    }
  }

  /**
    What a lookup of any id meets in a tree whose chains are right: exactly the versions put for that id, if
    and only if its slot number fits 16 bits, or leads to no slot, or leads to an id without versions.
   */
  lemma {:induction false} ChainIsRight(root: Tree, level: nat, history: seq<Version>, id: nat)
    requires Stands(root, level, history) && AllInside(history, level)
    ensures Chain(root, level, id) == VersionsOf(history, id) <==> MeetsOwn(history, level, id)
    ensures !MeetsOwn(history, level, id) ==> Chain(root, level, id) == VersionsOf(history, Cut(id, level))
  {
    assert Agrees(root, level, history, id);
    if !Fits(id, level) {
      CutParts(id, level);
      CutPath(root, level, id, Version(0, 0));
      assert Agrees(root, level, history, Cut(id, level));
      ShiftOnce(id, level);
      NeverPut(history, id);
    }
  }

  /** The condition can be checked before the call. */
  ghost predicate MeetsOwn(history: seq<Version>, level: nat, id: nat) {
    Fits(id, level) || Slot(id, level) >= SLOTS || VersionsOf(history, Cut(id, level)) == []
  }

  /** The version number is larger than that of the newest version of its id. */
  ghost predicate Newer(chain: seq<Version>, v: Version) {
    chain != [] ==> chain[0].mid % SHORT < v.mid % SHORT
  }

  lemma DescendAfterPut(history: seq<Version>, v: Version)
    requires ChainsDescend(history)
    ensures ChainsDescend(history + [v]) <==> Newer(VersionsOf(history, TableId(v.mid)), v)
  {
    var chain := VersionsOf(history, TableId(v.mid));
    VersionsHaveId(history, TableId(v.mid));
    VersionsSnoc(history, v, TableId(v.mid));
    assert Descending(chain);
    if Newer(chain, v) {
      forall id ensures Descending(VersionsOf(history + [v], id)) {
        VersionsSnoc(history, v, id);
        assert Descending(VersionsOf(history, id));
      }
    } else {
      var chain' := VersionsOf(history + [v], TableId(v.mid));
      assert chain'[0] == v && chain'[1] == chain[0] && chain[0] in chain;
      assert chain'[0].mid <= chain'[1].mid;
    }
  }

  /** Consecutive ids always fit: the next id is at most one more than the largest, which the root covers. */
  lemma ConsecutiveIdsFit(level: nat, largest: nat, id: nat)
    requires Inside(largest, level) && id <= largest + 1
    ensures Fits(id, level)
  {
    ShiftOnce(largest, level);
    ShiftRises(id, largest, level);
  }

  /** The level that put grows the root to. */
  function Landing(id: nat, level: nat): nat
    decreases Shift(id, level)
  {
    if Slot(id, level) < SLOTS then level
    else
      SmallerSlot(id, level);
      Landing(id, level + 1)
  }

  /** Ids below 2^31 need at most four levels, for which the shifts of the code are defined. */
  lemma FourLevels(id: nat)
    requires id < ID_LIMIT
    ensures Slot(id, 3) < SLOTS
  {
    assert Shift(id, 3) == Shift(id / SLOTS / SLOTS / SLOTS, 0) by {
      assert Shift(id / SLOTS, 2) == Shift(id / SLOTS / SLOTS, 1);
    }
  }

  /** The assertions of put pass: the slot's chain is empty, or of the same id and older. */
  ghost predicate NotNoticed(history: seq<Version>, level: nat, v: Version) {
    if Fits(TableId(v.mid), level) then Newer(VersionsOf(history, TableId(v.mid)), v)
    else VersionsOf(history, Cut(TableId(v.mid), level)) == []
  }

  lemma Noticed(root: Tree, level: nat, history: seq<Version>, v: Version)
    requires Stands(root, level, history) && AllInside(history, level) && Slot(TableId(v.mid), level) < SLOTS
    ensures var chain := Chain(root, level, TableId(v.mid));
            (chain == [] || (TableId(chain[0].mid) == TableId(v.mid) && chain[0].mid % SHORT < v.mid % SHORT))
            <==> NotNoticed(history, level, v)
  {
    var id := TableId(v.mid);
    ChainIsRight(root, level, history, id);
    CutParts(id, level);
    VersionsHaveId(history, id);
    VersionsHaveId(history, Cut(id, level));
    if !Fits(id, level) {
      ShiftOnce(id, level);
      NeverPut(history, id);
    }
  }

  lemma PutOutcome(root: Tree, level: nat, history: seq<Version>, v: Version)
    requires Shaped(root, level) && Stands(root, level, history) && ChainsDescend(history) && AllInside(history, level)
    requires Slot(TableId(v.mid), level) < SLOTS
    ensures var id, root', h := TableId(v.mid), PutBelow(root, level, TableId(v.mid), v), history + [v];
            && (Fits(id, level) && Newer(VersionsOf(history, id), v) <==>
                Shaped(root', level) && Stands(root', level, h) && ChainsDescend(h) && AllInside(h, level))
            && (!Fits(id, level) ==> Chain(root', level, Cut(id, level)) == [v] + VersionsOf(history, Cut(id, level)))
  {
    PutStands(root, level, history, v);
    PutIsShaped(root, level, TableId(v.mid), v);
    DescendAfterPut(history, v);
    if Fits(TableId(v.mid), level) {
      FoundLevel(TableId(v.mid), level);
    } else {
      WrongChain(root, level, history, v);
    }
  }

  class TableIdTree {
    var root: Tree
    var level: nat
    ghost var history: seq<Version>

    /** Every chain is the list of versions put for its id, the versions of an id go up, and no shift is too wide. */
    ghost predicate Valid()
      reads this
    {
      && Shaped(root, level) && Stands(root, level, history) && ChainsDescend(history)
      && AllInside(history, level) && level <= 3
    }

    constructor ()
      ensures Valid() && level == 0 && history == []
    {
      root, level, history := Leaf(map[]), 0, [];
    }

    /**
      put, lines 69-156. `asserted` tells whether the assertions of lines 129 and 130 hold: a version that
      does not fit is only noticed when the slot it goes to is in use.
     */
    method Put(v: Version) returns (asserted: bool)
      requires Valid() && TableId(v.mid) < ID_LIMIT
      modifies this
      ensures history == old(history) + [v] && level == Landing(TableId(v.mid), old(level))
      ensures Valid() <==> Fits(TableId(v.mid), level) && Newer(VersionsOf(old(history), TableId(v.mid)), v)
      ensures asserted <==> NotNoticed(old(history), level, v)
      ensures var id := TableId(v.mid);
              !Fits(id, level) ==> Chain(root, level, Cut(id, level)) == [v] + VersionsOf(old(history), Cut(id, level))
    {
      Grow(TableId(v.mid));
      var chain := Chain(root, level, TableId(v.mid));
      asserted := chain == [] || (TableId(chain[0].mid) == TableId(v.mid) && chain[0].mid % SHORT < v.mid % SHORT);
      Noticed(root, level, history, v);
      PutOutcome(root, level, history, v);
      root := PutBelow(root, level, TableId(v.mid), v);
      history := history + [v];
    }

    /** Lines 76-92. */
    method Grow(id: nat)
      requires Valid() && id < ID_LIMIT
      modifies this
      ensures Valid() && history == old(history)
      ensures level == Landing(id, old(level)) && Slot(id, level) < SLOTS
    {
      while Slot(id, level) >= SLOTS
        invariant Valid() && history == old(history) && Landing(id, level) == Landing(id, old(level))
        decreases Shift(id, level)
      {
        GrowthStands(root, level, history);
        StillInside(history, level);
        SmallerSlot(id, level);
        FourLevels(id);
        root, level := Grown(root), level + 1;
      }
    }

    /**
      get, lines 194-231, for every id. `asserted` tells whether the assertion of line 210 holds: it fails
      exactly when the walk ends at the chain of another id, whose versions are then all refused.
     */
    method Get(mid: nat) returns (found: Option<Meta>, asserted: bool)
      requires Valid()
      ensures forall v | v in VersionsOf(history, TableId(mid)) && v.mid == mid :: found == Some(v.meta)
      ensures (forall v | v in VersionsOf(history, TableId(mid)) :: v.mid != mid) ==> found == None
      ensures asserted <==> MeetsOwn(history, level, TableId(mid))
    {
      var chain, k := Walk(mid);
      found := if k < 0 then None else Some(chain[k].meta);
      asserted := chain == [] || TableId(chain[0].mid) == TableId(mid);
    }

    /** getPrevVersion, lines 157-193: the version that was put just before the given one. */
    method GetPrevVersion(mid: nat) returns (found: Option<Meta>, asserted: bool)
      requires Valid()
      ensures var own := VersionsOf(history, TableId(mid));
              && (forall k | 0 <= k < |own| && own[k].mid == mid ::
                    found == if k + 1 < |own| then Some(own[k + 1].meta) else None)
              && ((forall v | v in own :: v.mid != mid) ==> found == None)
      ensures asserted <==> MeetsOwn(history, level, TableId(mid))
    {
      var chain, k := Walk(mid);
      found := if k < 0 || k + 1 >= |chain| then None else Some(chain[k + 1].meta);
      asserted := chain == [] || TableId(chain[0].mid) == TableId(mid);
    }

    /** The part that both lookups share: a version is found only in the chain of its own id. */
    method Walk(mid: nat) returns (chain: seq<Version>, k: int)
      requires Valid()
      ensures -1 <= k < |chain|
      ensures forall i | 0 <= i < |VersionsOf(history, TableId(mid))| &&
                VersionsOf(history, TableId(mid))[i].mid == mid :: i == k
      ensures k >= 0 ==> chain == VersionsOf(history, TableId(mid)) && chain[k].mid == mid
      ensures chain == [] || TableId(chain[0].mid) == TableId(mid) <==> MeetsOwn(history, level, TableId(mid))
    {
      chain := Chain(root, level, TableId(mid));
      ChainIsRight(root, level, history, TableId(mid));
      CutParts(TableId(mid), level);
      VersionsHaveId(history, TableId(mid));
      VersionsHaveId(history, Cut(TableId(mid), level));
      if !MeetsOwn(history, level, TableId(mid)) {
        ShiftOnce(TableId(mid), level);
        NeverPut(history, TableId(mid));
      }
      assert Descending(chain);
      k := Position(chain, mid);
    }
  }

  /** After put of id 0 a lookup of id 65536, for which nothing was put, meets the version of id 0. */
  method TooLargeIdsCollide(meta: Meta) returns (asserted: bool)
    ensures !asserted
  {
    var tree := new TableIdTree();
    var v := Version(0, meta);
    var fine := tree.Put(v);
    assert VersionsOf([], 0) == [];
    VersionsSnoc([], v, 0);
    var found;
    found, asserted := tree.Get(SHORT * SHORT);
  }

  /** put of id 65536 into an empty tree passes both assertions and leaves it under id 0. */
  method TooLargeIdIsMisplaced(meta: Meta) returns (asserted: bool, chain: seq<Version>)
    ensures asserted && chain == [Version(SHORT * SHORT, meta)] && TableId(chain[0].mid) != 0
  {
    var tree := new TableIdTree();
    var v := Version(SHORT * SHORT, meta);
    asserted := tree.Put(v);
    chain := Chain(tree.root, tree.level, 0);
  }

  /** The search along a chain: at once nowhere when the newest version is older, else one by one. */
  method Position(chain: seq<Version>, mid: nat) returns (k: int)
    requires Descending(chain)
    ensures -1 <= k < |chain| && (k >= 0 ==> chain[k].mid == mid)
    ensures forall i | 0 <= i < |chain| && chain[i].mid == mid :: i == k
  {
    if chain == [] || chain[0].mid < mid {
      return -1;
    }
    k := 0;
    while k < |chain|
      invariant 0 <= k <= |chain| && forall i | 0 <= i < k :: chain[i].mid != mid
    {
      if chain[k].mid == mid {
        return;
      }
      k := k + 1;
    }
    k := -1;
  }

  lemma SmallerSlot(id: nat, level: nat)
    requires Slot(id, level) >= SLOTS
    ensures Shift(id, level + 1) < Shift(id, level)
  {
    ShiftOnce(id, level);
  }

  lemma FoundLevel(id: nat, level: nat)
    requires Fits(id, level) && Slot(id, level) < SLOTS
    ensures Inside(id, level)
  {
    ShiftOnce(id, level);
  }
}
