/**
 Multi-level page tables as a radix tree, for any number of levels.

 A table is named by its depth and its number at that depth; entry `i` of table `n` leads to
 number `512 * n + i` one level down, so a leaf entry is named by its page number.  `TreeOk`
 ties this tree to the words in memory.  Whatever the entry format, the tables then mean one
 thing: a leaf word for every page number.
 */
module TableTree {
  import opened Memory

  datatype Node = Node(depth: nat, num: nat)

  /** The tables there are, the frame of every table, and the table on every table frame. */
  datatype Tree = Tree(nodes: set<Node>, frameAt: map<Node, nat>, nodeOf: map<nat, Node>)

  datatype Format = X86 | RiscV(levels: nat)

  const ROOT: Node := Node(0, 0)

  function Levels(fmt: Format): nat {
    match fmt
    case X86 => 4
    case RiscV(n) => n
  }

  /** Frames that fit the address field of an entry. */
  function MaxFrame(fmt: Format): nat {
    match fmt
    case X86 => 0x100_0000_0000
    case RiscV(_) => 0x1000_0000_0000
  }

  /** The word that points at a next-level table. */
  function TableEntry(fmt: Format, frame: nat): nat {
    match fmt
    case X86 => 4096 * frame + 7
    case RiscV(_) => 1024 * frame + 1
  }

  function Child(p: Node, i: nat): Node {
    Node(p.depth + 1, 512 * p.num + i)
  }

  function Up(p: Node): Node {
    if p.depth == 0 then p else Node(p.depth - 1, p.num / 512)
  }

  ghost predicate EntryOk(fmt: Format, mem: Mem, t: Tree, p: Node, i: nat)
    requires p in t.frameAt && t.frameAt[p] in mem && i < 512
  {
    mem[t.frameAt[p]][i] == if Child(p, i) in t.frameAt then TableEntry(fmt, t.frameAt[Child(p, i)]) else 0
  }

  ghost predicate TreeShape(fmt: Format, mem: Mem, root: nat, t: Tree) {
    && ROOT in t.frameAt && t.frameAt[ROOT] == root
    && (forall p {:trigger t.frameAt[p]} {:trigger p in t.frameAt} :: p in t.frameAt ==>
          p.depth < Levels(fmt) && t.frameAt[p] in mem && 0 < t.frameAt[p] < MaxFrame(fmt))
    && (forall p {:trigger p in t.nodes} :: p in t.nodes <==> p in t.frameAt)
    && (forall p {:trigger Up(p)} :: p in t.frameAt && p.depth > 0 ==> Up(p) in t.frameAt)
  }

  /** Each table frame serves one table: none is shared. */
  ghost predicate NoSharing(t: Tree) {
    && (forall p {:trigger t.frameAt[p]} :: p in t.frameAt ==>
          t.frameAt[p] in t.nodeOf && t.nodeOf[t.frameAt[p]] == p)
    && (forall f {:trigger Holds(t, f)} :: f in t.nodeOf ==> Holds(t, f))
  }

  /** Frame `f` really holds the table it is said to hold. */
  ghost predicate Holds(t: Tree, f: nat) {
    f in t.nodeOf && t.nodeOf[f] in t.frameAt && t.frameAt[t.nodeOf[f]] == f
  }

  /** No table is shared, and each non-leaf entry is null or points at its child table. */
  ghost predicate TreeOk(fmt: Format, mem: Mem, root: nat, t: Tree) {
    && TreeShape(fmt, mem, root, t)
    && NoSharing(t)
    && (forall p, i :: p in t.frameAt && p.depth + 1 < Levels(fmt) && 0 <= i < 512 ==>
          EntryOk(fmt, mem, t, p, i))
  }

  // ---- leaves ----

  /** The number of the table `k` levels above number `n`. */
  ghost function Above(n: nat, k: nat): nat {
    if k == 0 then n else Above(n, k - 1) / 512
  }

  /** The table at depth `d` on the way to leaf `n`. */
  ghost function TableOf(fmt: Format, n: nat, d: nat): Node
    requires d <= Levels(fmt)
  {
    Node(d, Above(n, Levels(fmt) - d))
  }

  /** The index leaf `n` goes through at depth `d`. */
  ghost function Digit(fmt: Format, n: nat, d: nat): (i: nat)
    requires d < Levels(fmt)
    ensures i < 512
  {
    Above(n, Levels(fmt) - d - 1) % 512
  }

  /** A page number the tree has room for. */
  ghost predicate IsLeaf(fmt: Format, n: nat) {
    Levels(fmt) > 0 && Above(n, Levels(fmt)) == 0
  }

  lemma WayDown(fmt: Format, n: nat, d: nat)
    requires d < Levels(fmt)
    ensures TableOf(fmt, n, d + 1) == Child(TableOf(fmt, n, d), Digit(fmt, n, d))
    ensures Up(TableOf(fmt, n, d + 1)) == TableOf(fmt, n, d)
  {
  }

  /** The table that holds the entry of leaf `n`. */
  function LastTable(fmt: Format, n: nat): Node
    requires Levels(fmt) > 0
  {
    Node(Levels(fmt) - 1, n / 512)
  }

  lemma LastTableIsOnTheWay(fmt: Format, n: nat)
    requires Levels(fmt) > 0
    ensures LastTable(fmt, n) == TableOf(fmt, n, Levels(fmt) - 1)
    ensures Digit(fmt, n, Levels(fmt) - 1) == n % 512
  {
    assert Above(n, 1) == Above(n, 0) / 512;
  }

  /** The word in the entry of leaf `n`, 0 when some table on the way is missing. */
  ghost function LeafWord(fmt: Format, mem: Mem, t: Tree, n: nat): nat
    requires Levels(fmt) > 0
  {
    var p := LastTable(fmt, n);
    if p in t.frameAt && t.frameAt[p] in mem then mem[t.frameAt[p]][n % 512] else 0
  }

  ghost predicate SameLeaves(fmt: Format, mem: Mem, t: Tree, mem': Mem, t': Tree)
    requires Levels(fmt) > 0
  {
    forall n :: LeafWord(fmt, mem', t', n) == LeafWord(fmt, mem, t, n)
  }

  /** Once a table on the way to `n` exists, every table above it does. */
  lemma {:induction false} UpwardClosed(fmt: Format, mem: Mem, root: nat, t: Tree, n: nat, d: nat, e: nat)
    requires TreeShape(fmt, mem, root, t) && d <= e <= Levels(fmt)
    requires TableOf(fmt, n, e) in t.frameAt
    ensures TableOf(fmt, n, d) in t.frameAt
    decreases e - d
  {
    if d < e {
      WayDown(fmt, n, e - 1);
      UpwardClosed(fmt, mem, root, t, n, d, e - 1);
    }
  }

  /** A zeroed root is a tree that maps nothing. */
  lemma FreshRoot(fmt: Format, mem: Mem, root: nat)
    requires Levels(fmt) > 0 && root in mem && 0 < root < MaxFrame(fmt) && mem[root] == ZeroPage()
    ensures TreeOk(fmt, mem, root, Tree({ROOT}, map[ROOT := root], map[root := ROOT]))
    ensures forall n :: LeafWord(fmt, mem, Tree({ROOT}, map[ROOT := root], map[root := ROOT]), n) == 0
  {
  }

  /** Trees only depend on the frames of their tables. */
  lemma TreeFrame(fmt: Format, mem: Mem, mem': Mem, root: nat, t: Tree)
    requires TreeOk(fmt, mem, root, t) && Levels(fmt) > 0
    requires forall p :: p in t.frameAt ==> t.frameAt[p] in mem' && mem'[t.frameAt[p]] == mem[t.frameAt[p]]
    ensures TreeOk(fmt, mem', root, t)
    ensures SameLeaves(fmt, mem, t, mem', t)
  {
    forall p, i | p in t.frameAt && p.depth + 1 < Levels(fmt) && 0 <= i < 512
      ensures EntryOk(fmt, mem', t, p, i)
    {
      assert EntryOk(fmt, mem, t, p, i);
    }
  }

  function AddAt(t: Tree, p: Node, frame: nat): Tree {
    Tree(t.nodes + {p}, t.frameAt[p := frame], t.nodeOf[frame := p])
  }

  /** What it takes to hang a zeroed table below entry `i` of table `p`. */
  ghost predicate CanAdd(fmt: Format, mem: Mem, root: nat, t: Tree, p: Node, i: nat, frame: nat) {
    && TreeOk(fmt, mem, root, t)
    && p in t.frameAt && p.depth + 1 < Levels(fmt) && i < 512 && Child(p, i) !in t.frameAt
    && frame in mem && 0 < frame < MaxFrame(fmt) && frame !in t.nodeOf
    && mem[frame] == ZeroPage()
  }

  /** Hanging a zeroed table below `p` keeps the tree and adds no mapping. */
  lemma AddTable(fmt: Format, mem: Mem, root: nat, t: Tree, p: Node, i: nat, frame: nat)
    requires CanAdd(fmt, mem, root, t, p, i, frame)
    ensures var mem' := SetWord(mem, t.frameAt[p], i, TableEntry(fmt, frame));
            var t' := AddAt(t, Child(p, i), frame);
            TreeOk(fmt, mem', root, t') && SameLeaves(fmt, mem, t, mem', t')
  {
    var mem' := SetWord(mem, t.frameAt[p], i, TableEntry(fmt, frame));
    var t' := AddAt(t, Child(p, i), frame);
    AddTableShape(fmt, mem, root, t, p, i, frame);
    forall q, j | q in t'.frameAt && q.depth + 1 < Levels(fmt) && 0 <= j < 512
      ensures EntryOk(fmt, mem', t', q, j)
    {
      AddTableEntry(fmt, mem, root, t, p, i, frame, q, j);
    }
    forall n: nat
      ensures LeafWord(fmt, mem', t', n) == LeafWord(fmt, mem, t, n)
    {
      AddTableLeaf(fmt, mem, root, t, p, i, frame, n);
    }
  }

  lemma AddTableShape(fmt: Format, mem: Mem, root: nat, t: Tree, p: Node, i: nat, frame: nat)
    requires CanAdd(fmt, mem, root, t, p, i, frame)
    ensures TreeShape(fmt, SetWord(mem, t.frameAt[p], i, TableEntry(fmt, frame)), root, AddAt(t, Child(p, i), frame))
    ensures NoSharing(AddAt(t, Child(p, i), frame))
  {
    assert Up(Child(p, i)) == p;
    forall f | f in AddAt(t, Child(p, i), frame).nodeOf
      ensures Holds(AddAt(t, Child(p, i), frame), f)
    {
      assert f != frame ==> Holds(t, f);
    }
  }

  lemma AddTableLeaf(fmt: Format, mem: Mem, root: nat, t: Tree, p: Node, i: nat, frame: nat, n: nat)
    requires CanAdd(fmt, mem, root, t, p, i, frame)
    ensures var mem' := SetWord(mem, t.frameAt[p], i, TableEntry(fmt, frame));
            var t' := AddAt(t, Child(p, i), frame);
            LeafWord(fmt, mem', t', n) == LeafWord(fmt, mem, t, n)
  {
    var q := LastTable(fmt, n);
    assert q in t.frameAt ==> t.frameAt[q] in t.nodeOf && t.nodeOf[t.frameAt[q]] == q;
    assert t.nodeOf[t.frameAt[p]] == p;
  }

  lemma AddTableEntry(fmt: Format, mem: Mem, root: nat, t: Tree, p: Node, i: nat, frame: nat, q: Node, j: nat)
    requires CanAdd(fmt, mem, root, t, p, i, frame)
    requires (q in t.frameAt || q == Child(p, i)) && q.depth + 1 < Levels(fmt) && j < 512
    ensures var mem' := SetWord(mem, t.frameAt[p], i, TableEntry(fmt, frame));
            var t' := AddAt(t, Child(p, i), frame);
            EntryOk(fmt, mem', t', q, j)
  {
    var child := Child(p, i);
    assert t.nodeOf[t.frameAt[p]] == p;
    if q == child {
      // nothing hangs below an entry that had no table
      assert Up(Child(child, j)) == child;
      assert Child(child, j) !in t.frameAt;
    } else {
      assert EntryOk(fmt, mem, t, q, j);
      assert Child(q, j) == child <==> q == p && j == i;
    }
  }

  /** Writing one leaf changes that leaf and nothing else. */
  lemma SetLeaf(fmt: Format, mem: Mem, root: nat, t: Tree, n: nat, w: nat)
    requires TreeOk(fmt, mem, root, t) && Levels(fmt) > 0
    requires LastTable(fmt, n) in t.frameAt
    ensures var mem' := SetWord(mem, t.frameAt[LastTable(fmt, n)], n % 512, w);
            && TreeOk(fmt, mem', root, t)
            && LeafWord(fmt, mem', t, n) == w
            && (forall m :: m != n ==> LeafWord(fmt, mem', t, m) == LeafWord(fmt, mem, t, m))
  {
    var last := LastTable(fmt, n);
    var mem' := SetWord(mem, t.frameAt[last], n % 512, w);
    forall q, j | q in t.frameAt && q.depth + 1 < Levels(fmt) && 0 <= j < 512
      ensures EntryOk(fmt, mem', t, q, j)
    {
      assert EntryOk(fmt, mem, t, q, j);
      assert q != last;
    }
    forall m: nat | m != n
      ensures LeafWord(fmt, mem', t, m) == LeafWord(fmt, mem, t, m)
    {
      SetOtherLeaf(fmt, mem, t, n, w, m);
    }
  }

  lemma SetOtherLeaf(fmt: Format, mem: Mem, t: Tree, n: nat, w: nat, m: nat)
    requires NoSharing(t) && Levels(fmt) > 0 && m != n
    requires LastTable(fmt, n) in t.frameAt && t.frameAt[LastTable(fmt, n)] in mem
    ensures var mem' := SetWord(mem, t.frameAt[LastTable(fmt, n)], n % 512, w);
            LeafWord(fmt, mem', t, m) == LeafWord(fmt, mem, t, m)
  {
    var p, q := LastTable(fmt, n), LastTable(fmt, m);
    if q in t.frameAt && p != q {
      assert t.nodeOf[t.frameAt[p]] == p && t.nodeOf[t.frameAt[q]] == q;
    }
  }

  // ---- growing the tree from the free list ----

  /** Memory, tables and the pool of free frames together. */
  datatype Stock = Stock(mem: Mem, tree: Tree, free: set<nat>)

  /** `q` is a table on the way to leaf `n`, at depth `d` or above. */
  ghost predicate OnTheWay(fmt: Format, q: Node, n: nat, d: nat)
    requires d <= Levels(fmt)
  {
    q.depth <= d && q == TableOf(fmt, n, q.depth)
  }

  /**
   From `a` to `b` tables on the way to `n` were added, down to depth `d` at most: the frames that
   left the pool are the new tables, and nothing else changed.
   */
  ghost predicate Grown(fmt: Format, a: Stock, b: Stock, n: nat, d: nat)
    requires d <= Levels(fmt)
  {
    && (forall q :: q in b.tree.nodes ==> q in a.tree.nodes || OnTheWay(fmt, q, n, d))
    && (forall q :: q in a.tree.frameAt ==> q in b.tree.frameAt && b.tree.frameAt[q] == a.tree.frameAt[q])
    && (forall f :: f in b.free ==> f in a.free)
    && (forall f :: f in b.tree.nodeOf <==> f in a.tree.nodeOf || (f in a.free && f !in b.free))
    && |b.tree.nodes| + |b.free| == |a.tree.nodes| + |a.free|
    && b.mem.Keys == a.mem.Keys
    && (forall f :: f in a.mem && f !in b.tree.nodeOf ==> b.mem[f] == a.mem[f])
  }

  /** One more table, on frame `f` of the pool. */
  lemma GrowOne(fmt: Format, a: Stock, b: Stock, n: nat, d: nat, f: nat, table: nat, w: nat)
    requires d < Levels(fmt) && Grown(fmt, a, b, n, d)
    requires table in b.tree.nodeOf && TableOf(fmt, n, d + 1) !in b.tree.frameAt
    requires TableOf(fmt, n, d + 1) !in b.tree.nodes
    requires f in b.free && table in b.mem && f in b.mem && table != f
    ensures var c := Stock(SetWord(b.mem[f := ZeroPage()], table, Digit(fmt, n, d), w),
                           AddAt(b.tree, TableOf(fmt, n, d + 1), f), b.free - {f});
            Grown(fmt, a, c, n, d + 1)
  {
  }

  /** Leaf `n` now holds `w`; every other leaf word is as before. */
  ghost predicate LeafSet(fmt: Format, a: Stock, b: Stock, n: nat, w: nat)
    requires Levels(fmt) > 0
  {
    && LeafWord(fmt, b.mem, b.tree, n) == w
    && (forall m :: m != n ==> LeafWord(fmt, b.mem, b.tree, m) == LeafWord(fmt, a.mem, a.tree, m))
  }

  /** Leaf `n` is cleared, frame `f` is back in the pool, and no other frame or leaf changed. */
  ghost predicate Freed(fmt: Format, a: Stock, b: Stock, n: nat, f: nat)
    requires Levels(fmt) > 0
  {
    && b.tree == a.tree && b.free == a.free + {f}
    && LeafSet(fmt, a, b, n, 0)
    && b.mem.Keys == a.mem.Keys
    && (forall g :: g in a.mem && g !in a.tree.nodeOf && g != f ==> b.mem[g] == a.mem[g])
  }

  // ---- how many tables a leaf still needs ----

  /** Tables missing on the way to leaf `n`, below depth `d`. */
  ghost function Missing(fmt: Format, nodes: set<Node>, n: nat, d: nat): nat
    decreases Levels(fmt) - d
  {
    if d + 1 >= Levels(fmt) then 0
    else (if TableOf(fmt, n, d + 1) in nodes then 0 else 1) + Missing(fmt, nodes, n, d + 1)
  }

  lemma {:induction false} MissingBelow(fmt: Format, nodes: set<Node>, n: nat, d: nat, q: Node)
    requires q.depth <= d
    ensures Missing(fmt, nodes + {q}, n, d) == Missing(fmt, nodes, n, d)
    decreases Levels(fmt) - d
  {
    if d + 1 < Levels(fmt) {
      MissingBelow(fmt, nodes, n, d + 1, q);
    }
  }

  /** In any set of tables that has room for the way to `n`, the missing ones fit beside the others. */
  lemma {:induction false} MissingFits(fmt: Format, nodes: set<Node>, n: nat, d: nat, all: set<Node>)
    requires nodes <= all && forall e :: d < e < Levels(fmt) ==> TableOf(fmt, n, e) in all
    ensures |nodes| + Missing(fmt, nodes, n, d) <= |all|
    decreases Levels(fmt) - d
  {
    if d + 1 >= Levels(fmt) {
      SubsetSize(nodes, all);
    } else {
      var q := TableOf(fmt, n, d + 1);
      MissingFits(fmt, nodes + {q}, n, d + 1, all);
      MissingBelow(fmt, nodes, n, d + 1, q);
      if q in nodes {
        assert nodes + {q} == nodes;
      }
    }
  }

  lemma {:induction false} SubsetSize(a: set<Node>, b: set<Node>)
    requires a <= b
    ensures |a| <= |b|
    decreases a
  {
    if a != {} {
      var x :| x in a;
      SubsetSize(a - {x}, b - {x});
    }
  }

  /**
   How far a walk for leaf `n` that began in `start` has come: the table at depth `d` is `table`,
   and the frames taken so far plus the tables still missing are what was missing at the start.
   */
  ghost predicate Reached(fmt: Format, start: Stock, now: Stock, n: nat, d: nat, table: nat)
    requires d < Levels(fmt)
  {
    && TableOf(fmt, n, d) in now.tree.frameAt && table == now.tree.frameAt[TableOf(fmt, n, d)]
    && Grown(fmt, start, now, n, d)
    && SameLeaves(fmt, start.mem, start.tree, now.mem, now.tree)
    && Missing(fmt, now.tree.nodes, n, d) + |start.free| == Missing(fmt, start.tree.nodes, n, 0) + |now.free|
  }

  lemma WalkStart(fmt: Format, start: Stock, n: nat)
    requires IsLeaf(fmt, n) && ROOT in start.tree.frameAt
    ensures Reached(fmt, start, start, n, 0, start.tree.frameAt[ROOT])
  {
  }

  lemma KeepExisting(fmt: Format, start: Stock, now: Stock, n: nat, d: nat, table: nat)
    requires d + 1 < Levels(fmt) && Reached(fmt, start, now, n, d, table)
    requires TableOf(fmt, n, d + 1) in now.tree.frameAt && TableOf(fmt, n, d + 1) in now.tree.nodes
    ensures Reached(fmt, start, now, n, d + 1, now.tree.frameAt[TableOf(fmt, n, d + 1)])
  {
  }

  lemma EnoughLeft(fmt: Format, start: Stock, now: Stock, n: nat, d: nat, table: nat)
    requires d + 1 < Levels(fmt) && Reached(fmt, start, now, n, d, table)
    requires TableOf(fmt, n, d + 1) !in now.tree.nodes
    requires Missing(fmt, start.tree.nodes, n, 0) <= |start.free|
    ensures now.free != {}
  {
  }

  lemma StepDown(fmt: Format, start: Stock, b: Stock, c: Stock, n: nat, d: nat, f: nat, table: nat)
    requires d + 1 < Levels(fmt) && Reached(fmt, start, b, n, d, table)
    requires NoSharing(b.tree) && TableOf(fmt, n, d + 1) !in b.tree.frameAt && TableOf(fmt, n, d + 1) !in b.tree.nodes
    requires f in b.free && table in b.mem && f in b.mem && table != f
    requires c.mem == SetWord(b.mem[f := ZeroPage()], table, Digit(fmt, n, d), TableEntry(fmt, f))
    requires c.tree == AddAt(b.tree, TableOf(fmt, n, d + 1), f) && c.free == b.free - {f}
    requires SameLeaves(fmt, b.mem, b.tree, c.mem, c.tree)
    ensures Reached(fmt, start, c, n, d + 1, f)
  {
    GrowOne(fmt, start, b, n, d, f, table, TableEntry(fmt, f));
    MissingBelow(fmt, b.tree.nodes, n, d + 1, TableOf(fmt, n, d + 1));
  }
}
