/**
 The rings of a split virtqueue (VIRTIO 1.2, section 2.7) between the driver and a device that
 returns every chain it takes once, in any order and at any time.
 */
module Virtqueue {
  import opened Memory
  import opened Descriptors

  const U16: nat := 0x1_0000

  /** The shared rings, their 16-bit indices, and the driver's own index into the used ring. */
  datatype Rings = Rings(q: nat, avail: seq<nat>, availIdx: nat, used: seq<nat>, usedIdx: nat, consumer: nat)

  predicate RingsOk(r: Rings) {
    && 0 < r.q < U16 && |r.avail| == r.q && |r.used| == r.q
    && r.availIdx < U16 && r.usedIdx < U16 && r.consumer < U16
  }

  // ---- the driver's side ----

  function WrappingSub(a: nat, b: nat): nat
    requires a < U16 && b < U16
  {
    (a + U16 - b) % U16
  }

  predicate Full(r: Rings)
    requires RingsOk(r)
  {
    WrappingSub(r.availIdx, r.consumer) >= r.q
  }

  /** The two writes of `submit`: first the slot, then the index that tells the device. */
  function SlotWritten(r: Rings, h: nat): Rings
    requires RingsOk(r)
  {
    r.(avail := r.avail[r.availIdx % r.q := h])
  }

  function Published(r: Rings): Rings {
    r.(availIdx := (r.availIdx + 1) % U16)
  }

  predicate Waiting(r: Rings) {
    r.usedIdx != r.consumer
  }

  function NextUsed(r: Rings): nat
    requires RingsOk(r)
  {
    r.used[r.consumer % r.q]
  }

  function Consumed(r: Rings): Rings {
    r.(consumer := (r.consumer + 1) % U16)
  }

  /** The driver's part of a `virtq`, over rings in shared memory. */
  class Virtq {
    const q: nat
    const avail: array<nat>
    var availIdx: nat
    const used: array<nat>
    var usedIdx: nat
    var consumer: nat

    ghost function State(): Rings
      reads this, avail, used
    {
      Rings(q, avail[..], availIdx, used[..], usedIdx, consumer)
    }

    constructor (size: nat)
      requires 0 < size <= 256
      ensures State() == Rings(size, Zeros(size), 0, Zeros(size), 0, 0) && fresh(avail) && fresh(used) && avail != used
    {
      q, availIdx, usedIdx, consumer := size, 0, 0, 0;
      avail := new nat[size](_ => 0);
      used := new nat[size](_ => 0);
    }

    /** Fails without effect when the ring is full. */
    method SubmitToQueue(chain: nat) returns (ok: bool)
      requires RingsOk(State()) && avail != used
      modifies this`availIdx, avail
      ensures ok <==> !Full(old(State()))
      ensures State() == if ok then Published(SlotWritten(old(State()), chain)) else old(State())
    {
      var la := WrappingSub(availIdx, consumer);
      if la >= q {
        return false;
      }
      WriteSlot(chain);
      Publish();
      ok := true;
    }

    method WriteSlot(chain: nat)
      requires RingsOk(State()) && avail != used
      modifies avail
      ensures State() == SlotWritten(old(State()), chain)
    {
      avail[availIdx % q] := chain;
    }

    method Publish()
      requires RingsOk(State())
      modifies this`availIdx
      ensures State() == Published(old(State()))
    {
      availIdx := (availIdx + 1) % U16;
    }

    /** One round of `read_used_queue_blocking`: nothing while the device has returned nothing new. */
    method PollUsed() returns (res: Option<nat>)
      requires RingsOk(State())
      modifies this`consumer
      ensures res.Some? <==> Waiting(old(State()))
      ensures res.Some? ==> res.value == NextUsed(old(State())) && State() == Consumed(old(State()))
      ensures res.None? ==> State() == old(State())
    {
      if usedIdx == consumer {
        return None;
      }
      var h := consumer;
      res := Some(used[h % q]);
      consumer := (consumer + 1) % U16;
    }
  }

  function Zeros(n: nat): seq<nat> {
    seq(n, _ => 0)
  }

  // ---- the protocol ----

  /** Who has a live chain. */
  datatype Holder = Driver | InAvail | Device | InUsed

  datatype Pool = Pool(table: seq<Desc>, head: nat, free: seq<nat>, live: map<nat, seq<nat>>,
                       owner: map<nat, Option<nat>>)

  /** Where the driver is between two accesses to the rings. */
  datatype DriverPc =
    | Ready
    | Writing(chain: nat)        // the ring was not full, the slot is not written yet
    | Publishing(chain: nat)     // the slot is written, the index is not
    | Reading                    // the device's index has moved on, the entry is not read yet

  /** And the device. */
  datatype DevicePc =
    | Resting
    | Fetching                   // the driver's index has moved on, the entry is not read yet
    | Returning(chain: nat)      // the used entry is written, the index is not

  /** What happened so far, in unbounded counters: the heads submitted and returned, how many were taken and read. */
  datatype History = History(sent: seq<nat>, taken: nat, back: seq<nat>, seen: nat, holder: map<nat, Holder>)

  /**
   The whole system.  `mine` are the heads the driver got from `allocate_chain` or read from the used ring and has
   neither submitted nor freed; `last` is the device's own index and `held` the heads it took and has not returned.
   No step of either side looks at the history.
   */
  datatype System = System(rings: Rings, pool: Pool, mine: set<nat>, driver: DriverPc,
                           last: nat, held: set<nat>, device: DevicePc, past: History)

  datatype Event =
    | Allocate(length: nat)
    | Fill(chain: nat, table: seq<Desc>)
    | Submit(chain: nat)
    | WriteSlot
    | Publish
    | Poll
    | Read
    | Free(chain: nat)
    | Check
    | Take
    | Return(chain: nat)
    | PublishUsed

  ghost predicate Step(s: System, e: Event, t: System) {
    match e
    case Allocate(n) => Allocates(s, n, t)
    case Fill(h, table) => Fills(s, h, table, t)
    case Submit(h) => Submits(s, h, t)
    case WriteSlot => WritesSlot(s, t)
    case Publish => Publishes(s, t)
    case Poll => Polls(s, t)
    case Read => Reads(s, t)
    case Free(h) => Frees(s, h, t)
    case Check => Checks(s, t)
    case Take => Takes(s, t)
    case Return(h) => Returns(s, h, t)
    case PublishUsed => PublishesUsed(s, t)
  }

  /** `allocate_chain` with enough free descriptors. */
  ghost predicate Allocates(s: System, n: nat, t: System) {
    && s.driver.Ready? && 0 < n <= |s.pool.free| && |t.pool.table| == |s.pool.table|
    && InTable(s.pool.table, s.pool.free) && ChainTaken(s.pool.table, t.pool.table, s.pool.free, n)
    && t.pool == Pool(t.pool.table, if n < |s.pool.free| then s.pool.free[n] else s.pool.table[s.pool.free[n - 1]].next,
                      s.pool.free[n..], s.pool.live[s.pool.free[0] := s.pool.free[..n]],
                      Assign(s.pool.owner, s.pool.free[..n], Some(s.pool.free[0])))
    && t == s.(pool := t.pool, mine := s.mine + {s.pool.head},
               past := s.past.(holder := s.past.holder[s.pool.head := Driver]))
  }

  /** The driver fills in the descriptors of a chain it has. */
  ghost predicate Fills(s: System, h: nat, table: seq<Desc>, t: System) {
    && s.driver.Ready? && h in s.mine && h in s.pool.live && |table| == |s.pool.table|
    && ChainAt(table, s.pool.live[h])
    && (forall x :: 0 <= x < |table| && x !in s.pool.live[h] ==> table[x] == s.pool.table[x])
    && t == s.(pool := s.pool.(table := table))
  }

  /** `submit_to_queue` for a chain the driver has: the test for a full ring. */
  ghost predicate Submits(s: System, h: nat, t: System) {
    && s.driver.Ready? && h in s.mine && RingsOk(s.rings)
    && t == if Full(s.rings) then s else s.(driver := Writing(h))
  }

  ghost predicate WritesSlot(s: System, t: System) {
    && s.driver.Writing? && RingsOk(s.rings)
    && t == s.(rings := SlotWritten(s.rings, s.driver.chain), driver := Publishing(s.driver.chain))
  }

  ghost predicate Publishes(s: System, t: System) {
    && s.driver.Publishing?
    && var h := s.driver.chain;
       t == s.(rings := Published(s.rings), driver := Ready, mine := s.mine - {h},
               past := s.past.(sent := s.past.sent + [h], holder := s.past.holder[h := InAvail]))
  }

  /** One round of the loop in `read_used_queue_blocking`. */
  ghost predicate Polls(s: System, t: System) {
    s.driver.Ready? && t == if Waiting(s.rings) then s.(driver := Reading) else s
  }

  /** After the loop: the entry read is the driver's. */
  ghost predicate Reads(s: System, t: System) {
    && s.driver.Reading? && RingsOk(s.rings)
    && var h := NextUsed(s.rings);
       t == s.(rings := Consumed(s.rings), driver := Ready, mine := s.mine + {h},
               past := s.past.(seen := s.past.seen + 1, holder := s.past.holder[h := Driver]))
  }

  /** `deallocate_chain` for a chain the driver has. */
  ghost predicate Frees(s: System, h: nat, t: System) {
    && s.driver.Ready? && h in s.mine && h in s.pool.live && |t.pool.table| == |s.pool.table|
    && s.pool.live[h] != [] && InTable(s.pool.table, s.pool.live[h])
    && ChainGiven(s.pool.table, t.pool.table, s.pool.live[h], s.pool.head)
    && t.pool == Pool(t.pool.table, h, s.pool.live[h] + s.pool.free, s.pool.live - {h},
                      Assign(s.pool.owner, s.pool.live[h], None))
    && t == s.(pool := t.pool, mine := s.mine - {h}, past := s.past.(holder := s.past.holder - {h}))
  }

  /** The device compares the driver's index with its own. */
  ghost predicate Checks(s: System, t: System) {
    s.device.Resting? && t == if s.rings.availIdx != s.last then s.(device := Fetching) else s
  }

  /** The device reads the next entry of the available ring. */
  ghost predicate Takes(s: System, t: System) {
    && s.device.Fetching? && RingsOk(s.rings)
    && var h := s.rings.avail[s.last % s.rings.q];
       t == s.(last := (s.last + 1) % U16, held := s.held + {h}, device := Resting,
               past := s.past.(taken := s.past.taken + 1, holder := s.past.holder[h := Device]))
  }

  /** The device writes a used entry for any chain it has. */
  ghost predicate Returns(s: System, h: nat, t: System) {
    && s.device.Resting? && RingsOk(s.rings) && h in s.held
    && t == s.(rings := s.rings.(used := s.rings.used[s.rings.usedIdx % s.rings.q := h]), device := Returning(h))
  }

  ghost predicate PublishesUsed(s: System, t: System) {
    && s.device.Returning?
    && var h := s.device.chain;
       t == s.(rings := s.rings.(usedIdx := (s.rings.usedIdx + 1) % U16), held := s.held - {h}, device := Resting,
               past := s.past.(back := s.past.back + [h], holder := s.past.holder[h := InUsed]))
  }

  /** The heads in the slots of the available ring so far, published or not. */
  ghost function AvailWritten(s: System): seq<nat> {
    s.past.sent + if s.driver.Publishing? then [s.driver.chain] else []
  }

  ghost function UsedWritten(s: System): seq<nat> {
    s.past.back + if s.device.Returning? then [s.device.chain] else []
  }

  /** The 16-bit indices are the counters modulo 2^16, and no counter runs ahead of the others. */
  ghost predicate Counting(s: System) {
    && RingsOk(s.rings) && U16 % s.rings.q == 0
    && s.rings.availIdx == |s.past.sent| % U16 && s.last == s.past.taken % U16
    && s.rings.usedIdx == |s.past.back| % U16 && s.rings.consumer == s.past.seen % U16
    && s.past.seen <= |s.past.back| <= s.past.taken <= |s.past.sent| <= s.past.seen + s.rings.q
    && |s.held| == s.past.taken - |s.past.back|
  }

  /** What each side found before its last step still holds. */
  ghost predicate Remembers(s: System) {
    && (match s.driver
        case Ready => true
        case Writing(h) => h in s.mine && |s.past.sent| < s.past.seen + s.rings.q
        case Publishing(h) => h in s.mine && |s.past.sent| < s.past.seen + s.rings.q
        case Reading => s.past.seen < |s.past.back|)
    && (match s.device
        case Resting => true
        case Fetching => s.past.taken < |s.past.sent|
        case Returning(h) => h in s.held)
  }

  ghost predicate AvailEntry(s: System, i: nat)
    requires RingsOk(s.rings) && i < |AvailWritten(s)|
  {
    s.rings.avail[i % s.rings.q] == AvailWritten(s)[i]
  }

  ghost predicate UsedEntry(s: System, i: nat)
    requires RingsOk(s.rings) && i < |UsedWritten(s)|
  {
    s.rings.used[i % s.rings.q] == UsedWritten(s)[i]
  }

  /** The rings still hold every entry the other side has not read. */
  ghost predicate Entries(s: System)
    requires RingsOk(s.rings)
  {
    && (forall i {:trigger AvailEntry(s, i)} :: s.past.taken <= i < |AvailWritten(s)| ==> AvailEntry(s, i))
    && (forall i {:trigger UsedEntry(s, i)} :: s.past.seen <= i < |UsedWritten(s)| ==> UsedEntry(s, i))
  }

  /** Entry `i` is submitted and not taken, and its chain is in no other place. */
  ghost predicate SentAt(p: History, i: nat)
    requires i < |p.sent|
  {
    p.sent[i] in p.holder && p.holder[p.sent[i]] == InAvail
  }

  ghost predicate BackAt(p: History, i: nat)
    requires i < |p.back|
  {
    p.back[i] in p.holder && p.holder[p.back[i]] == InUsed
  }

  /** Every chain is in one place only: with the driver, in a ring, or with the device. */
  ghost predicate Held(p: History, mine: set<nat>, held: set<nat>)
    requires p.taken <= |p.sent| && p.seen <= |p.back|
  {
    && (forall h :: h in mine <==> h in p.holder && p.holder[h] == Driver)
    && (forall h :: h in held <==> h in p.holder && p.holder[h] == Device)
    && (forall i {:trigger SentAt(p, i)} :: p.taken <= i < |p.sent| ==> SentAt(p, i))
    && (forall i {:trigger BackAt(p, i)} :: p.seen <= i < |p.back| ==> BackAt(p, i))
    && (forall i, j :: p.taken <= i < j < |p.sent| ==> p.sent[i] != p.sent[j])
    && (forall i, j :: p.seen <= i < j < |p.back| ==> p.back[i] != p.back[j])
  }

  /** The rings, the two sides and the history agree. */
  ghost predicate InStep(s: System) {
    && Counting(s) && Remembers(s) && Entries(s) && Held(s.past, s.mine, s.held)
    && (forall h :: h in s.past.holder <==> h in s.pool.live)
  }

  /** The descriptors are divided between the free list and the live chains.  Folded. */
  ghost predicate Pooled(p: Pool) {
    forall k {:trigger Open(k)} :: Open(k) ==> PoolOk(p.table, p.head, p.free, p.live, p.owner)
  }

  ghost predicate Safe(s: System) {
    InStep(s) && Pooled(s.pool)
  }

  // ---- arithmetic of the rings ----

  /** The slot a 16-bit index names is the slot of the unbounded counter exactly when the size divides 2^16. */
  lemma SlotIff(q: nat)
    requires q > 0
    ensures (forall x: nat :: x % U16 % q == x % q) <==> U16 % q == 0
  {
    if U16 % q == 0 {
      forall x: nat
        ensures x % U16 % q == x % q
      {
        SlotOf(x, q);
      }
    } else {
      assert U16 % U16 % q == 0;
    }
  }

  lemma SlotOf(x: nat, q: nat)
    requires q > 0 && U16 % q == 0
    ensures x % U16 % q == x % q
  {
    var k, m, y := x / U16, U16 / q, x % U16;
    assert x == U16 * k + y && U16 == q * m;
    assert U16 * k == q * (m * k);
    SameRemainder(x, y, q, m * k);
  }

  lemma SameRemainder(x: nat, y: nat, q: nat, k: nat)
    requires q > 0 && x == q * k + y
    ensures x % q == y % q
  {
    var d, r := y / q, y % q;
    assert q * (k + d) == q * k + q * d;
    DivUnique(x, q, k + d, r);
  }

  /** Within a window of `q` counters no slot is used twice. */
  lemma SlotsDiffer(i: nat, j: nat, q: nat)
    requires q > 0 && i < j < i + q
    ensures i % q != j % q
  {
    if i % q == j % q {
      var d := j / q - i / q;
      assert q * d == j - i;
      NoMultiple(q, d);
      assert false;
    }
  }

  lemma NoMultiple(q: nat, d: int)
    ensures q * d <= 0 || q * d >= q
  {
    if d >= 1 {
      assert q * d == q + q * (d - 1);
      assert q * (d - 1) >= 0;
    } else {
      assert q * d == 0 - q * (0 - d);
      assert q * (0 - d) >= 0;
    }
  }

  predicate Collide(i: nat, j: nat, q: nat)
    requires q > 0
  {
    i % U16 % q == j % U16 % q
  }

  /**
   In every window of `q` submissions the 16-bit index names different slots exactly when the size divides
   2^16: with any other size an entry still in flight is overwritten when the index wraps.
   */
  lemma NoOverwriteIff(q: nat)
    requires 0 < q < U16
    ensures (forall i: nat, j: nat :: i < j < i + q ==> !Collide(i, j, q)) <==> U16 % q == 0
  {
    if U16 % q == 0 {
      forall i: nat, j: nat | i < j < i + q
        ensures !Collide(i, j, q)
      {
        SlotOf(i, q);
        SlotOf(j, q);
        SlotsDiffer(i, j, q);
      }
    } else {
      var r := U16 % q;
      MultipleOf(U16, q);
      assert Collide(U16 - r, U16, q);
    }
  }

  lemma MultipleOf(n: nat, q: nat)
    requires q > 0
    ensures (n - n % q) % q == 0
  {
    SameRemainder(n - n % q, 0, q, n / q);
  }

  /** A queue of 3: the 65536th and the 65537th submission both go to slot 0. */
  lemma SizeThreeOverwrites()
    ensures Collide(65535, 65536, 3)
  {
  }

  /** Differences of wrapped counters are exact as long as they stay below 2^16. */
  lemma WrappedDifference(a: nat, b: nat)
    requires b <= a < b + U16
    ensures WrappingSub(a % U16, b % U16) == a - b
    ensures a % U16 == b % U16 <==> a == b
  {
    var k, l := a / U16, b / U16;
    assert a == U16 * k + a % U16 && b == U16 * l + b % U16;
    assert k == l || k == l + 1;
  }

  lemma WrappedNext(a: nat)
    ensures (a % U16 + 1) % U16 == (a + 1) % U16
  {
  }

  /** The tests of both sides are exact: full means `q` chains in flight, and an index that moved means a new entry. */
  lemma TestsAreExact(s: System)
    requires Counting(s)
    ensures Full(s.rings) <==> |s.past.sent| - s.past.seen >= s.rings.q
    ensures Waiting(s.rings) <==> s.past.seen < |s.past.back|
    ensures s.rings.availIdx != s.last <==> s.past.taken < |s.past.sent|
  {
    WrappedDifference(|s.past.sent|, s.past.seen);
    WrappedDifference(|s.past.back|, s.past.seen);
    WrappedDifference(|s.past.sent|, s.past.taken);
  }

  // ---- every step is safe ----

  lemma AllocateStep(s: System, n: nat, t: System)
    requires Safe(s) && Allocates(s, n, t)
    ensures Safe(t)
  {
    var p := s.pool;
    assert Pooled(t.pool) && p.free[0] == p.head && p.head !in p.live by {
      assert Open(0);
      PoolTaken(p.table, t.pool.table, p.head, p.free, p.live, p.owner, n);
    }
    HistorySame(s, t);
  }

  /** Steps that leave the rings and the counters alone. */
  lemma HistorySame(s: System, t: System)
    requires InStep(s) && t.rings == s.rings && t.driver == s.driver && t.device == s.device && t.last == s.last
    requires t.past == s.past.(holder := t.past.holder) && t.held == s.held && s.driver.Ready?
    requires forall h :: h in t.mine <==> h in t.past.holder && t.past.holder[h] == Driver
    requires forall h :: h in s.past.holder && s.past.holder[h] != Driver ==>
                           h in t.past.holder && t.past.holder[h] == s.past.holder[h]
    requires forall h :: h in t.past.holder && t.past.holder[h] != Driver ==>
                           h in s.past.holder && t.past.holder[h] == s.past.holder[h]
    requires forall h :: h in t.past.holder <==> h in t.pool.live
    ensures InStep(t)
  {
    assert forall i :: s.past.taken <= i < |AvailWritten(s)| ==> (AvailEntry(t, i) <==> AvailEntry(s, i));
    assert forall i :: s.past.seen <= i < |UsedWritten(s)| ==> (UsedEntry(t, i) <==> UsedEntry(s, i));
    assert forall i :: s.past.taken <= i < |s.past.sent| && SentAt(s.past, i) ==> SentAt(t.past, i);
    assert forall i :: s.past.seen <= i < |s.past.back| && BackAt(s.past, i) ==> BackAt(t.past, i);
  }

  lemma FillStep(s: System, h: nat, table: seq<Desc>, t: System)
    requires Safe(s) && Fills(s, h, table, t)
    ensures Safe(t)
  {
    assert Pooled(t.pool) by {
      assert Open(0);
      FillKeeps(s.pool, h, table);
    }
    HistorySame(s, t);
  }

  lemma FillKeeps(p: Pool, h: nat, table: seq<Desc>)
    requires PoolOk(p.table, p.head, p.free, p.live, p.owner) && h in p.live && |table| == |p.table|
    requires ChainAt(table, p.live[h])
    requires forall x :: 0 <= x < |table| && x !in p.live[h] ==> table[x] == p.table[x]
    ensures PoolOk(table, p.head, p.free, p.live, p.owner)
  {
    forall g | g in p.live
      ensures ChainAt(table, p.live[g])
    {
      if g != h {
        forall i | 0 <= i < |p.live[g]|
          ensures table[p.live[g][i]] == p.table[p.live[g][i]]
        {
          assert p.live[g][i] in p.live[g];
          assert p.live[g][i] in p.live[h] <==> p.live[g][i] in p.owner && p.owner[p.live[g][i]] == Some(h);
        }
        ChainKept(p.table, table, p.live[g]);
      }
    }
    forall i | 0 <= i < |p.free|
      ensures table[p.free[i]] == p.table[p.free[i]]
    {
      assert p.free[i] in p.free;
      assert p.free[i] in p.live[h] <==> p.free[i] in p.owner && p.owner[p.free[i]] == Some(h);
    }
    assert forall i :: 0 <= i < |p.free| - 1 && LeadsOn(p.table, p.free, i) ==> LeadsOn(table, p.free, i);
  }

  lemma FreeStep(s: System, h: nat, t: System)
    requires Safe(s) && Frees(s, h, t)
    ensures Safe(t)
  {
    var p := s.pool;
    assert Pooled(t.pool) by {
      assert Open(0);
      PoolGiven(p.table, t.pool.table, p.head, p.free, p.live, p.owner, h);
    }
    HistorySame(s, t);
  }

  /** The tests of both sides leave the rings alone, and what they find is so. */
  lemma TestStep(s: System, e: Event, t: System)
    requires InStep(s) && Step(s, e, t) && (e.Submit? || e.Poll? || e.Check?)
    ensures InStep(t) && t.pool == s.pool
  {
    TestsAreExact(s);
    assert AvailWritten(t) == AvailWritten(s) && UsedWritten(t) == UsedWritten(s);
    EntriesSame(s, t);
  }

  lemma EntriesSame(s: System, t: System)
    requires RingsOk(s.rings) && Entries(s) && t.rings.q == s.rings.q && RingsOk(t.rings)
    requires t.rings.avail == s.rings.avail && t.rings.used == s.rings.used
    requires t.past.taken >= s.past.taken && t.past.seen >= s.past.seen
    requires AvailWritten(t) == AvailWritten(s) && UsedWritten(t) == UsedWritten(s)
    ensures Entries(t)
  {
    assert forall i :: t.past.taken <= i < |AvailWritten(s)| ==> (AvailEntry(t, i) <==> AvailEntry(s, i));
    assert forall i :: t.past.seen <= i < |UsedWritten(s)| ==> (UsedEntry(t, i) <==> UsedEntry(s, i));
  }

  /** The slot written holds no entry that the device has not taken. */
  lemma WriteSlotStep(s: System, t: System)
    requires InStep(s) && WritesSlot(s, t)
    ensures InStep(t) && t.pool == s.pool
  {
    var q, n := s.rings.q, |s.past.sent|;
    SlotOf(n, q);
    forall i | t.past.taken <= i < |AvailWritten(t)|
      ensures AvailEntry(t, i)
    {
      if i < n {
        assert AvailEntry(s, i);
        SlotsDiffer(i, n, q);
      }
    }
    assert forall i :: s.past.seen <= i < |UsedWritten(s)| ==> (UsedEntry(t, i) <==> UsedEntry(s, i));
  }

  lemma PublishStep(s: System, t: System)
    requires InStep(s) && Publishes(s, t)
    ensures InStep(t) && t.pool == s.pool
  {
    var n := |s.past.sent|;
    WrappedNext(n);
    assert AvailWritten(t) == AvailWritten(s);
    EntriesSame(s, t);
    SentGrows(s.past, s.mine, s.held, s.driver.chain);
  }

  lemma SentGrows(p: History, mine: set<nat>, held: set<nat>, h: nat)
    requires p.taken <= |p.sent| && p.seen <= |p.back| && Held(p, mine, held) && h in mine
    ensures Held(p.(sent := p.sent + [h], holder := p.holder[h := InAvail]), mine - {h}, held)
  {
    var r := p.(sent := p.sent + [h], holder := p.holder[h := InAvail]);
    forall i | p.taken <= i < |p.sent|
      ensures SentAt(r, i) && p.sent[i] != h
    {
      assert SentAt(p, i);
    }
    assert forall i :: p.seen <= i < |p.back| && BackAt(p, i) ==> BackAt(r, i);
  }

  /** The device reads only slots the driver has written, and finds there the head of a live chain. */
  lemma TakeStep(s: System, t: System)
    requires InStep(s) && Takes(s, t)
    ensures InStep(t) && t.pool == s.pool
    ensures s.past.taken < |AvailWritten(s)| && s.rings.avail[s.last % s.rings.q] == AvailWritten(s)[s.past.taken]
    ensures s.past.sent[s.past.taken] in s.pool.live && t.held == s.held + {s.past.sent[s.past.taken]}
  {
    var n := s.past.taken;
    var h := s.past.sent[n];
    assert AvailEntry(s, n) && SentAt(s.past, n);
    SlotOf(n, s.rings.q);
    WrappedNext(n);
    assert |s.held + {h}| == |s.held| + 1;
    assert AvailWritten(t) == AvailWritten(s);
    EntriesSame(s, t);
    TakenOne(s.past, s.mine, s.held);
  }

  lemma TakenOne(p: History, mine: set<nat>, held: set<nat>)
    requires p.taken < |p.sent| && p.seen <= |p.back| && Held(p, mine, held)
    ensures Held(p.(taken := p.taken + 1, holder := p.holder[p.sent[p.taken] := Device]), mine,
                 held + {p.sent[p.taken]})
  {
    var r := p.(taken := p.taken + 1, holder := p.holder[p.sent[p.taken] := Device]);
    assert SentAt(p, p.taken);
    assert forall i :: p.taken < i < |p.sent| && SentAt(p, i) ==> SentAt(r, i);
    assert forall i :: p.seen <= i < |p.back| && BackAt(p, i) ==> BackAt(r, i);
  }

  /** The used entry written overwrites none that the driver has not read. */
  lemma ReturnStep(s: System, h: nat, t: System)
    requires InStep(s) && Returns(s, h, t)
    ensures InStep(t) && t.pool == s.pool
  {
    var q, n := s.rings.q, |s.past.back|;
    assert |s.held - {h}| == |s.held| - 1;
    SlotOf(n, q);
    forall i | t.past.seen <= i < |UsedWritten(t)|
      ensures UsedEntry(t, i)
    {
      if i < n {
        assert UsedEntry(s, i);
        SlotsDiffer(i, n, q);
      }
    }
    assert forall i :: s.past.taken <= i < |AvailWritten(s)| ==> (AvailEntry(t, i) <==> AvailEntry(s, i));
  }

  lemma PublishUsedStep(s: System, t: System)
    requires InStep(s) && PublishesUsed(s, t)
    ensures InStep(t) && t.pool == s.pool
  {
    var h := s.device.chain;
    WrappedNext(|s.past.back|);
    assert |s.held - {h}| == |s.held| - 1;
    assert UsedWritten(t) == UsedWritten(s);
    EntriesSame(s, t);
    BackGrows(s.past, s.mine, s.held, h);
  }

  lemma BackGrows(p: History, mine: set<nat>, held: set<nat>, h: nat)
    requires p.taken <= |p.sent| && p.seen <= |p.back| && Held(p, mine, held) && h in held
    ensures Held(p.(back := p.back + [h], holder := p.holder[h := InUsed]), mine, held - {h})
  {
    var r := p.(back := p.back + [h], holder := p.holder[h := InUsed]);
    assert forall i :: p.taken <= i < |p.sent| && SentAt(p, i) ==> SentAt(r, i);
    forall i | p.seen <= i < |p.back|
      ensures BackAt(r, i) && p.back[i] != h
    {
      assert BackAt(p, i);
    }
  }

  /** The driver reads only entries the device has written: the head of a live chain that the device no longer has. */
  lemma ReadStep(s: System, t: System)
    requires InStep(s) && Reads(s, t)
    ensures InStep(t) && t.pool == s.pool
    ensures s.past.seen < |UsedWritten(s)| && NextUsed(s.rings) == UsedWritten(s)[s.past.seen]
    ensures NextUsed(s.rings) in s.pool.live && NextUsed(s.rings) !in s.held && NextUsed(s.rings) !in s.mine
  {
    var n := s.past.seen;
    assert UsedEntry(s, n) && BackAt(s.past, n);
    SlotOf(n, s.rings.q);
    WrappedNext(n);
    assert UsedWritten(t) == UsedWritten(s);
    EntriesSame(s, t);
    ReadOne(s.past, s.mine, s.held);
  }

  lemma ReadOne(p: History, mine: set<nat>, held: set<nat>)
    requires p.taken <= |p.sent| && p.seen < |p.back| && Held(p, mine, held)
    ensures Held(p.(seen := p.seen + 1, holder := p.holder[p.back[p.seen] := Driver]), mine + {p.back[p.seen]}, held)
  {
    var r := p.(seen := p.seen + 1, holder := p.holder[p.back[p.seen] := Driver]);
    assert BackAt(p, p.seen);
    assert forall i :: p.taken <= i < |p.sent| && SentAt(p, i) ==> SentAt(r, i);
    assert forall i :: p.seen < i < |p.back| && BackAt(p, i) ==> BackAt(r, i);
  }

  lemma StepSafe(s: System, e: Event, t: System)
    requires Safe(s) && Step(s, e, t)
    ensures Safe(t)
  {
    match e
    case Allocate(n) => AllocateStep(s, n, t);
    case Fill(h, table) => FillStep(s, h, table, t);
    case WriteSlot => WriteSlotStep(s, t);
    case Publish => PublishStep(s, t);
    case Read => ReadStep(s, t);
    case Free(h) => FreeStep(s, h, t);
    case Take => TakeStep(s, t);
    case Return(h) => ReturnStep(s, h, t);
    case PublishUsed => PublishUsedStep(s, t);
    case _ => TestStep(s, e, t);
  }

  // ---- every run is safe ----

  /** A run: its states, and the event between each two. */
  ghost predicate Run(states: seq<System>, events: seq<Event>) {
    && |states| == |events| + 1
    && forall i {:trigger events[i]} :: 0 <= i < |events| ==> Step(states[i], events[i], states[i + 1])
  }

  /** The state after `virtq::new`. */
  ghost function Fresh(size: nat): System {
    System(Rings(size, Zeros(size), 0, Zeros(size), 0, 0),
           Pool(FirstTable(size), 0, Count(size), map[], Unowned(size)),
           {}, Ready, 0, {}, Resting, History([], 0, [], 0, map[]))
  }

  lemma FreshIsSafe(size: nat)
    requires 0 < size < U16 && U16 % size == 0
    ensures Safe(Fresh(size))
  {
    FirstPool(Fresh(size).pool.table);
  }

  /** Whatever driver and device do, in whatever order and for however long, every state is safe. */
  lemma {:induction false} RunSafe(states: seq<System>, events: seq<Event>, size: nat, i: nat)
    requires 0 < size < U16 && U16 % size == 0
    requires Run(states, events) && states[0] == Fresh(size) && i < |states|
    ensures Safe(states[i])
  {
    if i == 0 {
      FreshIsSafe(size);
    } else {
      RunSafe(states, events, size, i - 1);
      assert Step(states[i - 1], events[i - 1], states[i]);
      StepSafe(states[i - 1], events[i - 1], states[i]);
    }
  }

  /** The device has the chain, or an entry of a ring still names it. */
  ghost predicate InFlight(s: System, h: nat) {
    || h in s.held
    || (exists i :: s.past.taken <= i < |s.past.sent| && s.past.sent[i] == h)
    || (exists i :: s.past.seen <= i < |s.past.back| && s.past.back[i] == h)
  }

  lemma InFlightIsLive(s: System, h: nat)
    requires Safe(s) && InFlight(s, h)
    ensures h in s.pool.live && h !in s.mine
  {
    if h !in s.held {
      if i :| s.past.taken <= i < |s.past.sent| && s.past.sent[i] == h {
        assert SentAt(s.past, i);
      } else {
        var i :| s.past.seen <= i < |s.past.back| && s.past.back[i] == h;
        assert BackAt(s.past, i);
      }
    }
  }

  /** What the driver has, by its own book-keeping, is live and not in flight. */
  lemma MineIsApart(s: System, h: nat)
    requires Safe(s) && h in s.mine
    ensures h in s.pool.live && !InFlight(s, h)
  {
    if InFlight(s, h) {
      InFlightIsLive(s, h);
    }
  }

  /** Over every run: no descriptor of a chain in flight is freed, and the chain stays as it is. */
  lemma NothingFreedInFlight(states: seq<System>, events: seq<Event>, size: nat, i: nat, h: nat)
    requires 0 < size < U16 && U16 % size == 0
    requires Run(states, events) && states[0] == Fresh(size) && i < |events| && InFlight(states[i], h)
    ensures h in states[i].pool.live && h in states[i + 1].pool.live
    ensures states[i + 1].pool.live[h] == states[i].pool.live[h]
    ensures forall x :: x in states[i].pool.live[h] ==> x !in states[i + 1].pool.free
  {
    var s, e, t := states[i], events[i], states[i + 1];
    assert Step(s, e, t);
    RunSafe(states, events, size, i);
    RunSafe(states, events, size, i + 1);
    InFlightIsLive(s, h);
    ChainStays(s, e, t, h);
    assert Open(0);
    forall x | x in s.pool.live[h]
      ensures x !in t.pool.free
    {
      assert x in t.pool.live[h] <==> x in t.pool.owner && t.pool.owner[x] == Some(h);
    }
  }

  lemma ChainStays(s: System, e: Event, t: System, h: nat)
    requires Safe(s) && Step(s, e, t) && h in s.pool.live && h !in s.mine
    ensures h in t.pool.live && t.pool.live[h] == s.pool.live[h]
  {
    match e
    case Allocate(n) =>
      assert s.pool.free[0] !in s.pool.live by {
        assert Open(0);
        PoolTaken(s.pool.table, t.pool.table, s.pool.head, s.pool.free, s.pool.live, s.pool.owner, n);
      }
    case _ =>
  }

  // ---- what each side gets done ----

  /** The outcome of a test: there is room in the ring, or there is an entry to read. */
  lemma TestOutcome(s: System, e: Event, t: System)
    requires Safe(s) && Step(s, e, t)
    ensures e.Submit? ==> t.driver == if |s.past.sent| - s.past.seen < s.rings.q then Writing(e.chain) else Ready
    ensures e.Poll? ==> t.driver == if s.past.seen < |s.past.back| then Reading else Ready
    ensures e.Check? ==> t.device == if s.past.taken < |s.past.sent| then Fetching else Resting
  {
    TestsAreExact(s);
  }

  /** The table after `allocate_chain`, and after `deallocate_chain`. */
  ghost function TableTaken(d: seq<Desc>, free: seq<nat>, n: nat): seq<Desc>
    requires 0 < n <= |free|
  {
    seq(|d|, x requires 0 <= x < |d| =>
      if x == free[n - 1] then d[x].(more := false, next := 0)
      else if x in free[..n] then d[x].(more := true) else d[x])
  }

  ghost function TableGiven(d: seq<Desc>, c: seq<nat>, head: nat): seq<Desc>
    requires c != []
  {
    seq(|d|, x requires 0 <= x < |d| =>
      if x == c[|c| - 1] then d[x].(more := false, write := false, next := head)
      else if x in c then d[x].(more := false, write := false) else d[x])
  }

  /** With enough free descriptors a chain can be allocated; the head handed out is one the driver did not have. */
  lemma CanAllocate(s: System, n: nat)
    requires Safe(s) && s.driver.Ready? && 0 < n <= |s.pool.free|
    ensures exists t :: Step(s, Allocate(n), t) && s.pool.head !in s.mine && t.mine == s.mine + {s.pool.head}
  {
    var p := s.pool;
    assert Open(0);
    var table := TableTaken(p.table, p.free, n);
    var t := s.(pool := Pool(table, if n < |p.free| then p.free[n] else p.table[p.free[n - 1]].next, p.free[n..],
                             p.live[p.free[0] := p.free[..n]], Assign(p.owner, p.free[..n], Some(p.free[0]))),
                mine := s.mine + {p.head}, past := s.past.(holder := s.past.holder[p.head := Driver]));
    assert ChainTaken(p.table, table, p.free, n);
    PoolTaken(p.table, table, p.head, p.free, p.live, p.owner, n);
    assert Step(s, Allocate(n), t);
  }

  /** A chain the driver has can be freed, and all its descriptors come back. */
  lemma CanFree(s: System, h: nat)
    requires Safe(s) && s.driver.Ready? && h in s.mine
    ensures h in s.pool.live
    ensures exists t :: Step(s, Free(h), t) && t.pool.free == s.pool.live[h] + s.pool.free && t.mine == s.mine - {h}
  {
    var p := s.pool;
    assert Open(0);
    var c := p.live[h];
    var table := TableGiven(p.table, c, p.head);
    var t := s.(pool := Pool(table, h, c + p.free, p.live - {h}, Assign(p.owner, c, None)),
                mine := s.mine - {h}, past := s.past.(holder := s.past.holder - {h}));
    assert ChainGiven(p.table, table, c, p.head);
    assert Step(s, Free(h), t);
  }

  /** Some run leads from `s` to `t`. */
  ghost predicate Leads(s: System, t: System) {
    exists states: seq<System>, events: seq<Event> ::
      Run(states, events) && states[0] == s && states[|events|] == t
  }

  lemma RunOn(s: System, t: System, e: Event, t': System)
    requires Leads(s, t) && Step(t, e, t')
    ensures Leads(s, t')
  {
    var states, events :| Run(states, events) && states[0] == s && states[|events|] == t;
    var ss, es := states + [t'], events + [e];
    forall i | 0 <= i < |es|
      ensures Step(ss[i], es[i], ss[i + 1])
    {
      if i < |events| {
        assert Step(states[i], events[i], states[i + 1]);
      }
    }
    assert Run(ss, es);
  }

  /** `Leads` to a safe state, folded. */
  ghost predicate Comes(s: System, t: System) {
    forall k {:trigger Spell(k)} :: Spell(k) ==> Leads(s, t) && Safe(t)
  }

  lemma StepOn(s: System, t: System, e: Event, t': System)
    requires Comes(s, t) && Step(t, e, t')
    ensures Comes(s, t')
  {
    assert Spell(0);
    RunOn(s, t, e, t');
    StepSafe(t, e, t');
  }

  /** Both sides are between two operations, and nothing is in flight. */
  ghost predicate AtRest(s: System) {
    s.driver.Ready? && s.device.Resting? && s.past.seen == |s.past.sent|
  }

  /** The driver's half: a chain it has goes out. */
  lemma GoesOut(s: System, h: nat) returns (t: System)
    requires Safe(s) && AtRest(s) && h in s.mine
    ensures Comes(s, t) && t.driver.Ready? && t.device.Resting? && t.pool == s.pool
    ensures t.mine == s.mine - {h} && t.held == s.held
    ensures t.past == s.past.(sent := s.past.sent + [h], holder := s.past.holder[h := InAvail])
  {
    assert Comes(s, s) by { assert Run([s], []); }
    TestsAreExact(s);
    var s1 := s.(driver := Writing(h));
    StepOn(s, s, Submit(h), s1);
    var s2 := s1.(rings := SlotWritten(s1.rings, h), driver := Publishing(h));
    StepOn(s, s1, WriteSlot, s2);
    t := s2.(rings := Published(s2.rings), driver := Ready, mine := s.mine - {h},
             past := s.past.(sent := s.past.sent + [h], holder := s.past.holder[h := InAvail]));
    StepOn(s, s2, Publish, t);
  }

  /** The device finds the chain. */
  lemma IsTaken(s: System, s0: System, h: nat) returns (t: System)
    requires Comes(s, s0) && s0.driver.Ready? && s0.device.Resting?
    requires s0.past.taken + 1 == |s0.past.sent| && s0.past.sent[s0.past.taken] == h
    ensures Comes(s, t) && t.driver.Ready? && t.device.Resting? && t.pool == s0.pool
    ensures t.mine == s0.mine && h !in s0.held && t.held == s0.held + {h}
    ensures t.past == s0.past.(taken := s0.past.taken + 1, holder := s0.past.holder[h := Device])
  {
    assert Safe(s0) by { assert Spell(0); }
    TestsAreExact(s0);
    var s1 := s0.(device := Fetching);
    StepOn(s, s0, Check, s1);
    assert s1.rings.avail[s1.last % s1.rings.q] == h && h !in s0.held by {
      assert Spell(0);
      SlotOf(s1.past.taken, s1.rings.q);
      assert AvailEntry(s1, s1.past.taken) && SentAt(s1.past, s1.past.taken);
    }
    t := s1.(last := (s1.last + 1) % U16, held := s1.held + {h}, device := Resting,
             past := s1.past.(taken := s1.past.taken + 1, holder := s1.past.holder[h := Device]));
    StepOn(s, s1, Take, t);
  }

  /** The device returns a chain it has. */
  lemma IsReturned(s: System, s0: System, h: nat) returns (t: System)
    requires Comes(s, s0) && s0.driver.Ready? && s0.device.Resting? && h in s0.held
    ensures Comes(s, t) && t.driver.Ready? && t.device.Resting? && t.pool == s0.pool
    ensures t.mine == s0.mine && t.held == s0.held - {h}
    ensures t.past == s0.past.(back := s0.past.back + [h], holder := s0.past.holder[h := InUsed])
  {
    assert Safe(s0) by { assert Spell(0); }
    var r := s0.rings;
    var s1 := s0.(rings := r.(used := r.used[r.usedIdx % r.q := h]), device := Returning(h));
    StepOn(s, s0, Return(h), s1);
    t := s1.(rings := s1.rings.(usedIdx := (s1.rings.usedIdx + 1) % U16), held := s1.held - {h}, device := Resting,
             past := s1.past.(back := s1.past.back + [h], holder := s1.past.holder[h := InUsed]));
    StepOn(s, s1, PublishUsed, t);
  }

  /** The driver's other half: it reads what came back. */
  lemma IsRead(s: System, s0: System) returns (t: System)
    requires Comes(s, s0) && s0.driver.Ready? && s0.past.seen < |s0.past.back|
    ensures Comes(s, t) && t.driver.Ready? && t.device == s0.device && t.pool == s0.pool
    ensures var h := s0.past.back[s0.past.seen];
            && t.mine == s0.mine + {h} && t.held == s0.held
            && t.past == s0.past.(seen := s0.past.seen + 1, holder := s0.past.holder[h := Driver])
  {
    assert Safe(s0) by { assert Spell(0); }
    TestsAreExact(s0);
    var h := s0.past.back[s0.past.seen];
    var s1 := s0.(driver := Reading);
    StepOn(s, s0, Poll, s1);
    assert NextUsed(s1.rings) == h by {
      assert Spell(0);
      SlotOf(s1.past.seen, s1.rings.q);
      assert UsedEntry(s1, s1.past.seen);
    }
    t := s1.(rings := Consumed(s1.rings), driver := Ready, mine := s1.mine + {h},
             past := s1.past.(seen := s1.past.seen + 1, holder := s1.past.holder[h := Driver]));
    StepOn(s, s1, Read, t);
  }

  /**
   A command gets done: from any safe state with nothing in flight, a chain the driver has can be submitted, taken,
   returned and read back, in nine ring accesses, and then all is at rest again with the same chains in the same hands.
   */
  lemma CommandCompletes(s: System, h: nat)
    requires Safe(s) && AtRest(s) && h in s.mine
    ensures exists t :: Leads(s, t) && Safe(t) && AtRest(t) && t.pool == s.pool && t.mine == s.mine && t.held == s.held
                        && t.past.sent == s.past.sent + [h] && t.past.back == s.past.back + [h]
  {
    var s1 := GoesOut(s, h);
    var s2 := IsTaken(s, s1, h);
    var s3 := IsReturned(s, s2, h);
    var t := IsRead(s, s3);
    assert s2.held - {h} == s.held;
    assert s.mine - {h} + {h} == s.mine;
    assert Leads(s, t) && Safe(t) by { assert Spell(0); }
  }

  // ---- commands of two descriptors ----

  /** Over every run that allocates chains of two, every chain is an index and the next, so `head + 1` is its second. */
  lemma {:induction false} RunPairs(states: seq<System>, events: seq<Event>, size: nat, i: nat)
    requires Run(states, events) && states[0] == Fresh(size) && i < |states|
    requires forall j {:trigger events[j]} :: 0 <= j < |events| && events[j].Allocate? ==> events[j].length == 2
    ensures Pairs(size, states[i].pool.free, states[i].pool.live)
  {
    if i == 0 {
      PairsFirst(size);
    } else {
      RunPairs(states, events, size, i - 1);
      var s, e, t := states[i - 1], events[i - 1], states[i];
      assert Step(s, e, t);
      match e
      case Allocate(n) => PairsTaken(size, s.pool.free, s.pool.live);
      case Free(h) => PairsGiven(size, s.pool.free, s.pool.live, h);
      case _ =>
    }
  }
}
