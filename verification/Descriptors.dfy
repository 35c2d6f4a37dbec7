/** The descriptor table of a split virtqueue and its free list (`freelistdescpool`). */
module Descriptors {
  import opened Memory

  /** A descriptor: the NEXT and WRITE flags, the index of the next one, and the buffer. */
  datatype Desc = Desc(more: bool, write: bool, next: nat, addr: nat, len: nat)

  predicate Idle(e: Desc) {
    !e.more && !e.write
  }

  /** Entry `i` of `s` is followed by entry `i + 1`. */
  ghost predicate LeadsOn(d: seq<Desc>, s: seq<nat>, i: nat)
    requires i + 1 < |s| && s[i] < |d|
  {
    d[s[i]].next == s[i + 1]
  }

  ghost predicate InTable(d: seq<Desc>, s: seq<nat>) {
    forall i :: 0 <= i < |s| ==> s[i] < |d|
  }

  /** The list from `head` visits `free`, all of them idle; behind the last one the link is meaningless. */
  ghost predicate FreeAt(d: seq<Desc>, head: nat, free: seq<nat>) {
    && InTable(d, free) && NoDup(free) && (free != [] ==> head == free[0])
    && (forall i {:trigger LeadsOn(d, free, i)} :: 0 <= i < |free| - 1 ==> LeadsOn(d, free, i))
    && (forall i {:trigger Idle(d[free[i]])} :: 0 <= i < |free| ==> Idle(d[free[i]]))
  }

  /** The descriptors of `c` form a chain: NEXT on all but the last. */
  ghost predicate ChainAt(d: seq<Desc>, c: seq<nat>) {
    && InTable(d, c) && NoDup(c) && c != []
    && (forall i {:trigger LeadsOn(d, c, i)} :: 0 <= i < |c| - 1 ==> LeadsOn(d, c, i))
    && (forall i {:trigger d[c[i]].more} :: 0 <= i < |c| ==> (d[c[i]].more <==> i < |c| - 1))
  }

  /** Each descriptor is in the free list or in exactly one live chain, named by its head. */
  ghost predicate Divided(size: nat, free: seq<nat>, live: map<nat, seq<nat>>, owner: map<nat, Option<nat>>) {
    && (forall x: nat :: x in owner <==> x < size)
    && (forall x: nat {:trigger x in free} :: x in free <==> x in owner && owner[x] == None)
    && (forall h: nat, x: nat {:trigger x in live[h]} :: h in live ==>
          (x in live[h] <==> x in owner && owner[x] == Some(h)))
    && (forall x: nat {:trigger owner[x]} :: x in owner && owner[x].Some? ==> owner[x].value in live)
    && (forall h: nat {:trigger h in live} :: h in live ==> live[h] != [] && live[h][0] == h)
  }

  ghost predicate PoolOk(d: seq<Desc>, head: nat, free: seq<nat>, live: map<nat, seq<nat>>,
                         owner: map<nat, Option<nat>>) {
    && Divided(|d|, free, live, owner) && FreeAt(d, head, free)
    && (forall h {:trigger h in live} :: h in live ==> ChainAt(d, live[h]))
  }

  // ---- what allocating and freeing a chain do to the table ----

  /** The first `n` of the free list become a chain. */
  ghost predicate ChainTaken(d: seq<Desc>, e: seq<Desc>, free: seq<nat>, n: nat)
    requires 0 < n <= |free| && InTable(d, free) && |e| == |d|
  {
    && (forall i {:trigger e[free[i]]} :: 0 <= i < n - 1 ==> e[free[i]] == d[free[i]].(more := true))
    && e[free[n - 1]] == d[free[n - 1]].(more := false, next := 0)
    && (forall x {:trigger e[x]} :: 0 <= x < |d| && x !in free[..n] ==> e[x] == d[x])
  }

  lemma TakenOk(d: seq<Desc>, e: seq<Desc>, head: nat, free: seq<nat>, n: nat)
    requires 0 < n <= |free| && FreeAt(d, head, free) && |e| == |d| && ChainTaken(d, e, free, n)
    ensures ChainAt(e, free[..n])
    ensures FreeAt(e, if n < |free| then free[n] else d[free[n - 1]].next, free[n..])
  {
    var c, rest := free[..n], free[n..];
    forall i | 0 <= i < |c|
      ensures i < |c| - 1 ==> LeadsOn(e, c, i)
      ensures e[c[i]].more <==> i < |c| - 1
    {
      assert c[i] == free[i] && Idle(d[free[i]]);
      assert i < |c| - 1 ==> LeadsOn(d, free, i);
    }
    forall i | 0 <= i < |rest|
      ensures i < |rest| - 1 ==> LeadsOn(e, rest, i)
      ensures Idle(e[rest[i]])
    {
      assert rest[i] == free[n + i] && Idle(d[free[n + i]]);
      assert rest[i] !in free[..n];
      assert i < |rest| - 1 ==> LeadsOn(d, free, n + i);
    }
  }

  /** The chain `c` is cleared and put in front of the list from `head`. */
  ghost predicate ChainGiven(d: seq<Desc>, e: seq<Desc>, c: seq<nat>, head: nat)
    requires c != [] && InTable(d, c) && |e| == |d|
  {
    && (forall i {:trigger e[c[i]]} :: 0 <= i < |c| - 1 ==> e[c[i]] == d[c[i]].(more := false, write := false))
    && e[c[|c| - 1]] == d[c[|c| - 1]].(more := false, write := false, next := head)
    && (forall x {:trigger e[x]} :: 0 <= x < |d| && x !in c ==> e[x] == d[x])
  }

  lemma GivenOk(d: seq<Desc>, e: seq<Desc>, head: nat, free: seq<nat>, c: seq<nat>)
    requires FreeAt(d, head, free) && ChainAt(d, c) && |e| == |d| && ChainGiven(d, e, c, head)
    requires forall i, j :: 0 <= i < |free| && 0 <= j < |c| ==> free[i] != c[j]
    ensures FreeAt(e, c[0], c + free)
  {
    var more := c + free;
    forall i | 0 <= i < |more|
      ensures i < |more| - 1 ==> LeadsOn(e, more, i)
      ensures Idle(e[more[i]])
    {
      if i < |c| {
        assert more[i] == c[i];
        assert i < |c| - 1 ==> LeadsOn(d, c, i);
      } else {
        assert more[i] == free[i - |c|] && Idle(d[free[i - |c|]]);
        assert i < |more| - 1 ==> LeadsOn(d, free, i - |c|);
        assert more[i] !in c;
      }
    }
  }

  /** A table where the descriptors of `c` did not change still has the chain. */
  lemma ChainKept(d: seq<Desc>, e: seq<Desc>, c: seq<nat>)
    requires ChainAt(d, c) && |e| == |d| && forall i :: 0 <= i < |c| ==> e[c[i]] == d[c[i]]
    ensures ChainAt(e, c)
  {
    forall i | 0 <= i < |c| - 1
      ensures LeadsOn(e, c, i)
    {
      assert LeadsOn(d, c, i);
    }
  }

  function Assign(owner: map<nat, Option<nat>>, c: seq<nat>, v: Option<nat>): map<nat, Option<nat>> {
    map x | x in owner :: if x in c then v else owner[x]
  }

  lemma DivideTaken(size: nat, free: seq<nat>, live: map<nat, seq<nat>>, owner: map<nat, Option<nat>>, n: nat)
    requires Divided(size, free, live, owner) && NoDup(free) && 0 < n <= |free|
    ensures free[0] !in live
    ensures Divided(size, free[n..], live[free[0] := free[..n]], Assign(owner, free[..n], Some(free[0])))
  {
    var c, h := free[..n], free[0];
    var owner', live' := Assign(owner, c, Some(h)), live[h := c];
    assert h in free;
    assert forall g :: g in live ==> live[g][0] in live[g];
    assert forall i, j :: 0 <= i < n && 0 <= j < |free| - n ==> c[i] != free[n..][j];
    forall x: nat
      ensures x in free[n..] <==> x in owner' && owner'[x] == None
    {
      assert x in free <==> x in c || x in free[n..];
    }
    forall g: nat, x: nat | g in live'
      ensures x in live'[g] <==> x in owner' && owner'[x] == Some(g)
    {
      assert x in c ==> x in free;
      if g != h {
        assert x in live[g] <==> x in owner && owner[x] == Some(g);
      }
    }
  }

  lemma DivideGiven(size: nat, free: seq<nat>, live: map<nat, seq<nat>>, owner: map<nat, Option<nat>>, h: nat)
    requires Divided(size, free, live, owner) && h in live
    ensures Divided(size, live[h] + free, live - {h}, Assign(owner, live[h], None))
    ensures forall i, j :: 0 <= i < |free| && 0 <= j < |live[h]| ==> free[i] != live[h][j]
  {
    var c := live[h];
    var owner', live' := Assign(owner, c, None), live - {h};
    forall x: nat
      ensures x in c + free <==> x in owner' && owner'[x] == None
    {
      assert x in c + free <==> x in c || x in free;
      assert x in c <==> x in owner && owner[x] == Some(h);
    }
    forall g: nat, x: nat | g in live'
      ensures x in live'[g] <==> x in owner' && owner'[x] == Some(g)
    {
      assert x in live[g] <==> x in owner && owner[x] == Some(g);
      assert x in c <==> x in owner && owner[x] == Some(h);
    }
    forall i, j | 0 <= i < |free| && 0 <= j < |c|
      ensures free[i] != c[j]
    {
      assert free[i] in free && c[j] in c;
    }
  }

  lemma PoolTaken(d: seq<Desc>, e: seq<Desc>, head: nat, free: seq<nat>, live: map<nat, seq<nat>>,
                  owner: map<nat, Option<nat>>, n: nat)
    requires PoolOk(d, head, free, live, owner) && 0 < n <= |free| && |e| == |d| && ChainTaken(d, e, free, n)
    ensures free[0] !in live
    ensures PoolOk(e, if n < |free| then free[n] else d[free[n - 1]].next, free[n..], live[free[0] := free[..n]],
                   Assign(owner, free[..n], Some(free[0])))
  {
    TakenOk(d, e, head, free, n);
    DivideTaken(|d|, free, live, owner, n);
    forall h | h in live
      ensures ChainAt(e, live[h])
    {
      forall i | 0 <= i < |live[h]|
        ensures e[live[h][i]] == d[live[h][i]]
      {
        assert live[h][i] in live[h];
        assert forall x :: x in free[..n] ==> x in free;
      }
      ChainKept(d, e, live[h]);
    }
  }

  lemma PoolGiven(d: seq<Desc>, e: seq<Desc>, head: nat, free: seq<nat>, live: map<nat, seq<nat>>,
                  owner: map<nat, Option<nat>>, h: nat)
    requires PoolOk(d, head, free, live, owner) && h in live && |e| == |d| && ChainGiven(d, e, live[h], head)
    ensures PoolOk(e, h, live[h] + free, live - {h}, Assign(owner, live[h], None))
  {
    DivideGiven(|d|, free, live, owner, h);
    GivenOk(d, e, head, free, live[h]);
    forall g | g in live - {h}
      ensures ChainAt(e, live[g])
    {
      forall i | 0 <= i < |live[g]|
        ensures e[live[g][i]] == d[live[g][i]]
      {
        assert live[g][i] in live[g];
        assert live[g][i] in live[h] <==> live[g][i] in owner && owner[live[g][i]] == Some(h);
      }
      ChainKept(d, e, live[g]);
    }
  }

  // ---- the pool ----

  class DescPool {
    const desc: array<Desc>
    var head: nat
    var numFree: nat
    ghost var free: seq<nat>
    ghost var live: map<nat, seq<nat>>
    ghost var owner: map<nat, Option<nat>>

    ghost predicate Valid()
      reads this, desc
    {
      PoolOk(desc[..], head, free, live, owner) && numFree == |free|
    }

    /** A page of zeroed descriptors, all linked. */
    constructor (size: nat)
      requires 0 < size <= 256
      ensures Valid() && fresh(desc) && desc.Length == size
      ensures free == Count(size) && live == map[]
      ensures desc[..] == FirstTable(size)
    {
      desc := new Desc[size](_ => Desc(false, false, 0, 0, 0));
      head, numFree := 0, size;
      free, live := Count(size), map[];
      owner := Unowned(size);
      new;
      var i := 0;
      while i < size
        invariant i <= size
        invariant forall j :: 0 <= j < size ==> desc[j] == Desc(false, false, if j < i then j + 1 else 0, 0, 0)
        modifies desc
      {
        desc[i] := desc[i].(next := i + 1);
        i := i + 1;
      }
      desc[size - 1] := desc[size - 1].(next := 0);
      FirstPool(desc[..]);
    }

    /** Takes a chain of `length` descriptors off the front of the free list. */
    method AllocateChain(length: nat) returns (res: Option<nat>)
      requires Valid()
      modifies this, desc
      ensures Valid()
      ensures res.None? <==> length == 0 || old(numFree) < length
      ensures res.None? ==> desc[..] == old(desc[..]) && head == old(head) && free == old(free) && live == old(live)
      ensures res.Some? ==>
                && res.value == old(free)[0] && free == old(free)[length..]
                && res.value !in old(live) && live == old(live)[res.value := old(free)[..length]]
                && ChainTaken(old(desc[..]), desc[..], old(free), length)
    {
      if length == 0 || numFree < length {
        return None;
      }
      ghost var d := desc[..];
      var cur := head;
      var k := 0;
      while k < length - 1
        invariant k <= length - 1 && cur == free[k]
        invariant forall i :: 0 <= i < k ==> desc[free[i]] == d[free[i]].(more := true)
        invariant forall x :: 0 <= x < |d| && x !in free[..k] ==> desc[x] == d[x]
        modifies desc
      {
        assert LeadsOn(d, free, k) && free[k] !in free[..k];
        assert free[..k + 1] == free[..k] + [free[k]];
        desc[cur] := desc[cur].(more := true);
        cur := desc[cur].next;
        k := k + 1;
      }
      assert free[..length] == free[..k] + [free[k]] && free[k] !in free[..k];
      numFree := numFree - length;
      desc[cur] := desc[cur].(more := false);
      var first := head;
      head := desc[cur].next;
      desc[cur] := desc[cur].(next := 0);
      assert ChainTaken(d, desc[..], free, length);
      PoolTaken(d, desc[..], first, free, live, owner, length);
      assert length < |free| ==> LeadsOn(d, free, length - 1);
      free, live, owner := free[length..], live[first := free[..length]], Assign(owner, free[..length], Some(first));
      res := Some(first);
    }

    /** Clears the chain from `h` and puts it in front of the free list. */
    method DeallocateChain(h: nat)
      requires Valid() && h in live
      modifies this, desc
      ensures Valid()
      ensures free == old(live[h]) + old(free) && live == old(live) - {h}
      ensures ChainGiven(old(desc[..]), desc[..], old(live[h]), old(head)) && head == h
    {
      ghost var d, c := desc[..], live[h];
      ghost var k := 0;
      var cur := h;
      while desc[cur].more
        invariant 0 <= k < |c| && cur == c[k] && numFree == old(numFree) + k
        invariant forall i :: 0 <= i < k ==> desc[c[i]] == d[c[i]].(more := false, write := false)
        invariant forall x :: 0 <= x < |d| && x !in c[..k] ==> desc[x] == d[x]
        decreases |c| - k
        modifies desc, this`numFree
      {
        assert c[k] !in c[..k];
        assert d[c[k]].more;
        assert LeadsOn(d, c, k);
        assert c[..k + 1] == c[..k] + [c[k]];
        desc[cur] := desc[cur].(more := false, write := false);
        numFree := numFree + 1;
        cur := desc[cur].next;
        k := k + 1;
      }
      assert c[k] !in c[..k] && !d[c[k]].more;
      assert c == c[..k] + [c[k]];
      desc[cur] := desc[cur].(next := head, more := false, write := false);
      numFree := numFree + 1;
      assert ChainGiven(d, desc[..], c, head);
      PoolGiven(d, desc[..], head, free, live, owner, h);
      head := h;
      free, live, owner := c + free, live - {h}, Assign(owner, c, None);
    }

    /** The descriptors of a simple command: the request, and `head + 1` for the response. */
    method PrepareCommand(req: nat, reqLen: nat, resp: nat, respLen: nat) returns (res: Option<nat>)
      requires Valid() && Pairs(desc.Length, free, live)
      modifies this, desc
      ensures Valid() && Pairs(desc.Length, free, live)
      ensures res.None? <==> old(numFree) < 2
      ensures res.None? ==> desc[..] == old(desc[..]) && free == old(free) && live == old(live)
      ensures res.Some? ==>
                && free == old(free)[2..] && res.value !in old(live)
                && live == old(live)[res.value := [res.value, res.value + 1]]
                && res.value + 1 < desc.Length
                && desc[res.value] == Desc(true, false, res.value + 1, req, reqLen)
                && desc[res.value + 1] == Desc(false, true, 0, resp, respLen)
                && forall x :: 0 <= x < desc.Length && x != res.value && x != res.value + 1 ==> desc[x] == old(desc[x])
    {
      ghost var free0, live0 := free, live;
      res := AllocateChain(2);
      if res.None? {
        return;
      }
      PairsTaken(desc.Length, free0, live0);
      FillPair(res.value, req, reqLen, resp, respLen);
    }

    /** The two descriptors of a chain that is an index and the next. */
    method FillPair(h: nat, req: nat, reqLen: nat, resp: nat, respLen: nat)
      requires Valid() && h in live && live[h] == [h, h + 1]
      modifies desc
      ensures Valid() && h + 1 < desc.Length
      ensures desc[h] == Desc(true, false, h + 1, req, reqLen)
      ensures desc[h + 1] == Desc(false, true, 0, resp, respLen)
      ensures forall x :: 0 <= x < desc.Length && x != h && x != h + 1 ==> desc[x] == old(desc[x])
    {
      ghost var d := desc[..];
      assert ChainAt(d, live[h]);
      assert live[h][1] == h + 1;
      desc[h] := desc[h].(addr := req, len := reqLen, more := true, write := false, next := h + 1);
      desc[h + 1] := desc[h + 1].(addr := resp, len := respLen, more := false, write := true, next := 0);
      Filled(d, desc[..], head, free, live, owner, h);
    }
  }

  /** Zeroed descriptors, each linked to the next, the last one to none. */
  function FirstTable(size: nat): seq<Desc> {
    seq(size, i requires 0 <= i < size => Desc(false, false, if i + 1 < size then i + 1 else 0, 0, 0))
  }

  /** 0 to `n - 1` */
  function Count(n: nat): (s: seq<nat>)
    ensures |s| == n && forall i :: 0 <= i < n ==> s[i] == i
  {
    seq(n, i requires 0 <= i < n => i)
  }

  ghost function Unowned(n: nat): map<nat, Option<nat>> {
    map x | x in Count(n) :: None
  }

  lemma FirstPool(d: seq<Desc>)
    requires forall j :: 0 <= j < |d| ==> Idle(d[j])
    requires forall j :: 0 <= j < |d| - 1 ==> d[j].next == j + 1
    ensures PoolOk(d, 0, Count(|d|), map[], Unowned(|d|))
  {
    var free := Count(|d|);
    forall x: nat
      ensures x in free <==> x < |d|
    {
      if x < |d| {
        assert free[x] == x;
      }
    }
    forall i | 0 <= i < |free| - 1
      ensures LeadsOn(d, free, i)
    {
      assert d[i].next == i + 1;
    }
  }

  /** Freeing a chain just allocated, its links kept, restores the table and the free list. */
  lemma TakeThenGive(d: seq<Desc>, e: seq<Desc>, f: seq<Desc>, head: nat, free: seq<nat>, n: nat)
    requires 0 < n <= |free| && FreeAt(d, head, free) && |e| == |d| && |f| == |d| && ChainTaken(d, e, free, n)
    requires ChainGiven(e, f, free[..n], d[free[n - 1]].next)
    ensures f == d && free[..n] + free[n..] == free
  {
    var c := free[..n];
    forall x | 0 <= x < |d|
      ensures f[x] == d[x]
    {
      if x in c {
        var i :| 0 <= i < n && c[i] == x;
        assert free[i] == x && Idle(d[free[i]]);
        assert e[free[i]].write == d[free[i]].write;
        assert i < n - 1 ==> f[c[i]] == e[c[i]].(more := false, write := false);
      }
    }
  }

  // ---- chains of two ----

  ghost predicate PairAt(free: seq<nat>, i: nat)
    requires 2 * i + 1 < |free|
  {
    free[2 * i] % 2 == 0 && free[2 * i + 1] == free[2 * i] + 1
  }

  /** The free list is made of neighbours, an even index and the next, with a lone last index if there is one. */
  ghost predicate Pairs(size: nat, free: seq<nat>, live: map<nat, seq<nat>>) {
    && (forall i: nat {:trigger PairAt(free, i)} :: 2 * i + 1 < |free| ==> PairAt(free, i))
    && (|free| % 2 == 1 ==> free[|free| - 1] == size - 1 && size % 2 == 1)
    && (forall h {:trigger h in live} :: h in live ==> live[h] == [h, h + 1] && h % 2 == 0)
  }

  lemma PairsFirst(size: nat)
    ensures Pairs(size, Count(size), map[])
  {
    assert forall i: nat {:trigger PairAt(Count(size), i)} :: 2 * i + 1 < size ==> PairAt(Count(size), i);
  }

  lemma PairsTaken(size: nat, free: seq<nat>, live: map<nat, seq<nat>>)
    requires Pairs(size, free, live) && |free| >= 2
    ensures free[..2] == [free[0], free[0] + 1]
    ensures Pairs(size, free[2..], live[free[0] := free[..2]])
  {
    assert PairAt(free, 0);
    forall i: nat | 2 * i + 1 < |free| - 2
      ensures PairAt(free[2..], i)
    {
      assert PairAt(free, i + 1);
    }
  }

  lemma PairsGiven(size: nat, free: seq<nat>, live: map<nat, seq<nat>>, h: nat)
    requires Pairs(size, free, live) && h in live
    ensures Pairs(size, live[h] + free, live - {h})
  {
    var more := live[h] + free;
    forall i: nat | 2 * i + 1 < |more|
      ensures PairAt(more, i)
    {
      if i > 0 {
        assert PairAt(free, i - 1);
        assert more[2 * i] == free[2 * (i - 1)] && more[2 * i + 1] == free[2 * (i - 1) + 1];
      }
    }
  }

  /** Filling in the two descriptors of a chain leaves the pool as it is. */
  lemma Filled(d: seq<Desc>, e: seq<Desc>, head: nat, free: seq<nat>, live: map<nat, seq<nat>>,
               owner: map<nat, Option<nat>>, h: nat)
    requires PoolOk(d, head, free, live, owner) && h in live && live[h] == [h, h + 1] && |e| == |d|
    requires h + 1 < |d| && e[h].more && e[h].next == h + 1 && !e[h + 1].more
    requires forall x :: 0 <= x < |d| && x != h && x != h + 1 ==> e[x] == d[x]
    ensures PoolOk(e, head, free, live, owner)
  {
    assert h in live[h] && h + 1 in live[h];
    assert LeadsOn(e, live[h], 0);
    forall g | g in live
      ensures ChainAt(e, live[g])
    {
      if g != h {
        forall i | 0 <= i < |live[g]|
          ensures e[live[g][i]] == d[live[g][i]]
        {
          assert live[g][i] in live[g];
        }
        ChainKept(d, e, live[g]);
      }
    }
    forall i | 0 <= i < |free|
      ensures e[free[i]] == d[free[i]]
    {
      assert free[i] in free;
    }
    assert forall i :: 0 <= i < |free| - 1 && LeadsOn(d, free, i) ==> LeadsOn(e, free, i);
  }
}
