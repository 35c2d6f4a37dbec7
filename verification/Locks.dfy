/**
 `SpinLock` and `RWSpinLock` on any number of processors, one atomic step at a time, together with
 the interrupt flag each acquisition saves and each release restores.

 Memory is sequentially consistent.  A processor may drop its guards in any order: exclusion holds for all of them, and
 the last section says for which interrupts stay off.
 */
module Locks {
  import opened Memory

  const MAX: nat := 0xFFFF_FFFF      // the lock word while someone writes

  datatype Kind = Spin | Read | Write

  /** A lock held, with the interrupt flag from before. */
  datatype Hold = Hold(lock: nat, kind: Kind, prev: bool)

  /** Where a processor is in `lock`, `lock_read`, `lock_write`, `unlock` or a guard's drop. */
  datatype Pc =
    | Outside
    | Entering(lock: nat, kind: Kind, prev: bool)     // the flag is read
    | Trying(lock: nat, kind: Kind, prev: bool)       // interrupts are off, the next step is on the lock word
    | Loaded(lock: nat, prev: bool, seen: nat)        // a reader has loaded the word
    | Spinning(lock: nat, kind: Kind, prev: bool)     // the attempt failed, the flag is as before
    | Saving(lock: nat, prev: bool)                   // the spin lock is taken, the flag not stored in it yet
    | Unlocking(id: nat, flag: bool)                  // the flag is loaded from the spin lock
    | Restoring(prev: bool)                           // the lock is free again

  /**
   A processor: its interrupt flag, its holds, numbered as they are taken, and the next number; `ambient` is its flag
   outside all locks.
   */
  datatype Cpu = Cpu(on: bool, holds: map<nat, Hold>, next: nat, pc: Pc, ambient: bool)

  /** A hold by its processor and its number there. */
  datatype Token = Token(cpu: nat, id: nat)

  datatype SpinLock = SpinLock(locked: bool, saved: bool, at: Option<Token>)

  datatype RwLock = RwLock(word: nat, readers: set<Token>, writer: Option<Token>)

  datatype Machine = Machine(cpus: map<nat, Cpu>, spin: map<nat, SpinLock>, rw: map<nat, RwLock>)

  // ---- steps ----

  datatype Action =
    | Toggle                           // code outside all locks switches interrupts on or off
    | Begin(lock: nat, kind: Kind)     // is_interrupts_enabled
    | Cli                              // disable_interrupts
    | Load                             // a reader loads the word
    | CasRead(spurious: bool)
    | CasWrite(spurious: bool)
    | Swap
    | Save
    | Release(id: nat)                 // the first step of dropping a guard, any of those held
    | Unlock                           // the store that frees a spin lock
    | Sti                              // enable_interrupts, if they were on before

  function Fail(p: Cpu, lock: nat, kind: Kind, prev: bool): Cpu {
    p.(pc := Spinning(lock, kind, prev), on := if prev then true else p.on)
  }

  function Gain(p: Cpu, h: Hold): Cpu {
    p.(pc := Outside, holds := p.holds[p.next := h], next := p.next + 1)
  }

  function Lose(p: Cpu, id: nat, prev: bool): Cpu {
    p.(pc := Restoring(prev), holds := p.holds - {id})
  }

  function At(m: Machine, c: nat, p: Cpu): Machine {
    m.(cpus := m.cpus[c := p])
  }

  /** Steps that touch no lock word. */
  ghost predicate Local(m: Machine, c: nat, a: Action, m': Machine)
    requires c in m.cpus
  {
    var p := m.cpus[c];
    match a
    case Toggle => p.pc.Outside? && p.holds == map[] && m' == At(m, c, p.(on := !p.on, ambient := !p.on))
    case Begin(l, k) =>
      && p.pc.Outside? && (if k == Spin then l in m.spin else l in m.rw)
      && m' == At(m, c, p.(pc := Entering(l, k, p.on)))
    case Cli =>
      && (p.pc.Entering? || p.pc.Spinning?)
      && m' == At(m, c, p.(on := false, pc := Trying(p.pc.lock, p.pc.kind, p.pc.prev)))
    case Load =>
      && p.pc.Trying? && p.pc.kind == Read && p.pc.lock in m.rw
      && var seen := m.rw[p.pc.lock].word;
         m' == At(m, c, if seen >= MAX - 1 then Fail(p, p.pc.lock, Read, p.pc.prev)
                        else p.(pc := Loaded(p.pc.lock, p.pc.prev, seen)))
    case Sti =>
      && p.pc.Restoring?
      && m' == At(m, c, p.(on := if p.pc.prev then true else p.on, pc := Outside))
    case _ => false
  }

  /** Steps on a reader/writer lock word. */
  ghost predicate OnRw(m: Machine, c: nat, a: Action, m': Machine)
    requires c in m.cpus
  {
    var p := m.cpus[c];
    match a
    case CasRead(spurious) =>
      && p.pc.Loaded? && p.pc.lock in m.rw
      && var l, k := p.pc.lock, m.rw[p.pc.lock];
         m' == if k.word == p.pc.seen && !spurious
               then At(m, c, Gain(p, Hold(l, Read, p.pc.prev)))
                    .(rw := m.rw[l := k.(word := p.pc.seen + 1, readers := k.readers + {Token(c, p.next)})])
               else At(m, c, Fail(p, l, Read, p.pc.prev))
    case CasWrite(spurious) =>
      && p.pc.Trying? && p.pc.kind == Write && p.pc.lock in m.rw
      && var l, k := p.pc.lock, m.rw[p.pc.lock];
         m' == if k.word == 0 && !spurious
               then At(m, c, Gain(p, Hold(l, Write, p.pc.prev)))
                    .(rw := m.rw[l := k.(word := MAX, writer := Some(Token(c, p.next)))])
               else At(m, c, Fail(p, l, Write, p.pc.prev))
    case Release(id) =>
      && p.pc.Outside? && id in p.holds && p.holds[id].kind != Spin && p.holds[id].lock in m.rw
      && var h := p.holds[id];
         var k := m.rw[h.lock];
         var free := if h.kind == Read
                     then k.(word := (k.word + MAX) % (MAX + 1), readers := k.readers - {Token(c, id)})
                     else k.(word := 0, writer := None);
         m' == At(m, c, Lose(p, id, h.prev)).(rw := m.rw[h.lock := free])
    case _ => false
  }

  /** Steps on a spin lock. */
  ghost predicate OnSpin(m: Machine, c: nat, a: Action, m': Machine)
    requires c in m.cpus
  {
    var p := m.cpus[c];
    match a
    case Swap =>
      && p.pc.Trying? && p.pc.kind == Spin && p.pc.lock in m.spin
      && var l, k := p.pc.lock, m.spin[p.pc.lock];
         m' == if k.locked then At(m, c, Fail(p, l, Spin, p.pc.prev))
               else At(m, c, p.(pc := Saving(l, p.pc.prev)))
                    .(spin := m.spin[l := k.(locked := true, at := Some(Token(c, p.next)))])
    case Save =>
      && p.pc.Saving? && p.pc.lock in m.spin
      && var l, k := p.pc.lock, m.spin[p.pc.lock];
         m' == At(m, c, Gain(p, Hold(l, Spin, p.pc.prev))).(spin := m.spin[l := k.(saved := p.pc.prev)])
    case Release(id) =>
      && p.pc.Outside? && id in p.holds && p.holds[id].kind == Spin && p.holds[id].lock in m.spin
      && m' == At(m, c, p.(pc := Unlocking(id, m.spin[p.holds[id].lock].saved)))
    case Unlock =>
      && p.pc.Unlocking? && p.pc.id in p.holds && p.holds[p.pc.id].lock in m.spin
      && var l := p.holds[p.pc.id].lock;
         m' == At(m, c, Lose(p, p.pc.id, p.pc.flag)).(spin := m.spin[l := m.spin[l].(locked := false, at := None)])
    case _ => false
  }

  ghost predicate Step(m: Machine, c: nat, a: Action, m': Machine) {
    c in m.cpus && (Local(m, c, a, m') || OnRw(m, c, a, m') || OnSpin(m, c, a, m'))
  }

  // ---- who holds what ----

  ghost predicate HoldsAt(m: Machine, t: Token, l: nat, k: Kind) {
    && t.cpu in m.cpus && t.id in m.cpus[t.cpu].holds
    && m.cpus[t.cpu].holds[t.id].lock == l && m.cpus[t.cpu].holds[t.id].kind == k
  }

  /** The flag saved with hold `t`. */
  ghost function PrevAt(m: Machine, t: Token): bool {
    t.cpu in m.cpus && t.id in m.cpus[t.cpu].holds && m.cpus[t.cpu].holds[t.id].prev
  }

  ghost predicate SavingAt(m: Machine, t: Token, l: nat) {
    && t.cpu in m.cpus && t.id == m.cpus[t.cpu].next
    && m.cpus[t.cpu].pc.Saving? && m.cpus[t.cpu].pc.lock == l
  }

  /** Holds are numbered below `next`; what a processor remembers between two atomic steps is right. */
  predicate Numbered(p: Cpu) {
    && (forall id :: id in p.holds ==> id < p.next)
    && match p.pc
       case Loaded(_, _, seen) => seen < MAX - 1
       case Unlocking(id, flag) => id in p.holds && p.holds[id].kind == Spin && flag == p.holds[id].prev
       case _ => true
  }

  /** The word of a reader/writer lock counts its readers, or says that one writer holds it alone. */
  ghost predicate RwOk(m: Machine, l: nat)
    requires l in m.rw
  {
    var k := m.rw[l];
    && (forall t :: t in k.readers <==> HoldsAt(m, t, l, Read))
    && (forall t :: k.writer == Some(t) <==> HoldsAt(m, t, l, Write))
    && (k.writer.Some? ==> k.word == MAX && k.readers == {})
    && (k.writer.None? ==> k.word == |k.readers| < MAX)
  }

  /** A spin lock is taken exactly while one processor holds it; then it keeps that one's flag. */
  ghost predicate SpinOk(m: Machine, l: nat)
    requires l in m.spin
  {
    var k := m.spin[l];
    && (forall t :: k.at == Some(t) <==> HoldsAt(m, t, l, Spin) || SavingAt(m, t, l))
    && (k.locked <==> k.at.Some?)
    && (forall t :: HoldsAt(m, t, l, Spin) ==> PrevAt(m, t) == k.saved)
  }

  ghost predicate Good(m: Machine) {
    && (forall c {:trigger Numbered(m.cpus[c])} :: c in m.cpus ==> Numbered(m.cpus[c]))
    && (forall l {:trigger RwOk(m, l)} :: l in m.rw ==> RwOk(m, l))
    && (forall l {:trigger SpinOk(m, l)} :: l in m.spin ==> SpinOk(m, l))
  }

  // ---- steps that leave the holds alone ----

  lemma LocalGood(m: Machine, c: nat, a: Action, m': Machine)
    requires Good(m) && c in m.cpus && Local(m, c, a, m')
    ensures Good(m')
  {
    assert Numbered(m.cpus[c]);
    assert Numbered(m'.cpus[c]);
    HoldsSame(m, c, m'.cpus[c]);
  }

  /** Moving a processor on without touching its holds or a spin lock being taken. */
  lemma HoldsSame(m: Machine, c: nat, p: Cpu)
    requires c in m.cpus && p.holds == m.cpus[c].holds && p.next == m.cpus[c].next
    requires !p.pc.Saving? && !m.cpus[c].pc.Saving?
    requires (forall l {:trigger RwOk(m, l)} :: l in m.rw ==> RwOk(m, l))
    requires (forall l {:trigger SpinOk(m, l)} :: l in m.spin ==> SpinOk(m, l))
    ensures (forall l {:trigger RwOk(At(m, c, p), l)} :: l in m.rw ==> RwOk(At(m, c, p), l))
    ensures (forall l {:trigger SpinOk(At(m, c, p), l)} :: l in m.spin ==> SpinOk(At(m, c, p), l))
  {
    var m' := At(m, c, p);
    assert forall t, l, k :: HoldsAt(m', t, l, k) <==> HoldsAt(m, t, l, k);
    assert forall t, l :: SavingAt(m', t, l) <==> SavingAt(m, t, l);
    forall l | l in m.rw
      ensures RwOk(m', l)
    {
      assert RwOk(m, l);
    }
    forall l | l in m.spin
      ensures SpinOk(m', l)
    {
      assert SpinOk(m, l);
    }
  }

  // ---- a hold is gained or lost ----

  /** `m'` has one hold more: `t`, of kind `k` on lock `l`. */
  ghost predicate OneMore(m: Machine, m': Machine, t: Token, l: nat, k: Kind) {
    && !(t.cpu in m.cpus && t.id in m.cpus[t.cpu].holds)
    && (forall u, j, q {:trigger HoldsAt(m', u, j, q)} ::
          HoldsAt(m', u, j, q) <==> HoldsAt(m, u, j, q) || (u == t && j == l && q == k))
    && (forall u {:trigger PrevAt(m', u)} :: u != t ==> PrevAt(m', u) == PrevAt(m, u))
  }

  lemma Gaining(m: Machine, c: nat, h: Hold, m': Machine)
    requires c in m.cpus && Numbered(m.cpus[c]) && m'.cpus == m.cpus[c := Gain(m.cpus[c], h)]
    ensures OneMore(m, m', Token(c, m.cpus[c].next), h.lock, h.kind)
  {
  }

  /** `m'` has one hold less: `t`. */
  ghost predicate OneLess(m: Machine, m': Machine, t: Token) {
    && (forall u, j, q {:trigger HoldsAt(m', u, j, q)} :: HoldsAt(m', u, j, q) <==> HoldsAt(m, u, j, q) && u != t)
    && (forall u {:trigger PrevAt(m', u)} :: u != t ==> PrevAt(m', u) == PrevAt(m, u))
  }

  lemma Losing(m: Machine, c: nat, id: nat, prev: bool, m': Machine)
    requires c in m.cpus && m'.cpus == m.cpus[c := Lose(m.cpus[c], id, prev)]
    ensures OneLess(m, m', Token(c, id))
  {
  }

  // ---- reader/writer locks ----

  lemma CasReadGood(m: Machine, c: nat, m': Machine)
    requires Good(m) && c in m.cpus && OnRw(m, c, CasRead(false), m')
    requires m.rw[m.cpus[c].pc.lock].word == m.cpus[c].pc.seen
    ensures Good(m')
  {
    var p := m.cpus[c];
    var l, t := p.pc.lock, Token(c, p.next);
    Gaining(m, c, Hold(l, Read, p.pc.prev), m');
    assert Numbered(p) && Numbered(m'.cpus[c]);
    assert forall j :: SavingAt(m', t, j) <==> SavingAt(m, t, j);
    assert t !in m.rw[l].readers && |m'.rw[l].readers| == |m.rw[l].readers| + 1 by { assert RwOk(m, l); }
    OthersKept(m, m', c);
    forall j | j in m'.rw
      ensures RwOk(m', j)
    {
      assert RwOk(m, j);
    }
  }

  /** Nothing but lock `l`'s word and the holds of `c` changed, and `c` is not taking a spin lock. */
  lemma OthersKept(m: Machine, m': Machine, c: nat)
    requires c in m.cpus && m'.cpus.Keys == m.cpus.Keys && !m.cpus[c].pc.Saving? && !m'.cpus[c].pc.Saving?
    requires forall d :: d in m.cpus && d != c ==> m'.cpus[d] == m.cpus[d]
    requires m'.spin == m.spin && forall l {:trigger SpinOk(m, l)} :: l in m.spin ==> SpinOk(m, l)
    requires forall t, l :: HoldsAt(m', t, l, Spin) <==> HoldsAt(m, t, l, Spin)
    requires forall t, l :: HoldsAt(m, t, l, Spin) ==> PrevAt(m', t) == PrevAt(m, t)
    ensures forall l {:trigger SpinOk(m', l)} :: l in m'.spin ==> SpinOk(m', l)
  {
    assert forall t, l :: SavingAt(m', t, l) <==> SavingAt(m, t, l);
    forall l | l in m'.spin
      ensures SpinOk(m', l)
    {
      assert SpinOk(m, l);
    }
  }

  lemma CasWriteGood(m: Machine, c: nat, m': Machine)
    requires Good(m) && c in m.cpus && OnRw(m, c, CasWrite(false), m') && m.rw[m.cpus[c].pc.lock].word == 0
    ensures Good(m')
  {
    var p := m.cpus[c];
    var l, t := p.pc.lock, Token(c, p.next);
    Gaining(m, c, Hold(l, Write, p.pc.prev), m');
    assert Numbered(p) && Numbered(m'.cpus[c]);
    assert m.rw[l].writer.None? && m.rw[l].readers == {} by { assert RwOk(m, l); }
    OthersKept(m, m', c);
    forall j | j in m'.rw
      ensures RwOk(m', j)
    {
      assert RwOk(m, j);
    }
  }

  /** Any of the guards held can be dropped. */
  lemma ReleaseRwGood(m: Machine, c: nat, id: nat, m': Machine)
    requires Good(m) && c in m.cpus && OnRw(m, c, Release(id), m')
    ensures Good(m')
  {
    var p := m.cpus[c];
    var h, t := p.holds[id], Token(c, id);
    Losing(m, c, id, h.prev, m');
    assert Numbered(p) && Numbered(m'.cpus[c]);
    assert HoldsAt(m, t, h.lock, h.kind);
    OthersKept(m, m', c);
    forall j | j in m'.rw
      ensures RwOk(m', j)
    {
      assert RwOk(m, j);
      if j == h.lock {
        assert RwOk(m, h.lock);
        assert h.kind == Read ==> t in m.rw[j].readers && |m.rw[j].readers - {t}| == |m.rw[j].readers| - 1;
      }
    }
  }

  lemma RwGood(m: Machine, c: nat, a: Action, m': Machine)
    requires Good(m) && c in m.cpus && OnRw(m, c, a, m')
    ensures Good(m')
  {
    var p := m.cpus[c];
    match a
    case CasRead(spurious) =>
      if m.rw[p.pc.lock].word == p.pc.seen && !spurious {
        CasReadGood(m, c, m');
      } else {
        FailGood(m, c, m', p.pc.lock, Read);
      }
    case CasWrite(spurious) =>
      if m.rw[p.pc.lock].word == 0 && !spurious {
        CasWriteGood(m, c, m');
      } else {
        FailGood(m, c, m', p.pc.lock, Write);
      }
    case Release(id) => ReleaseRwGood(m, c, id, m');
  }

  lemma FailGood(m: Machine, c: nat, m': Machine, l: nat, k: Kind)
    requires Good(m) && c in m.cpus && (m.cpus[c].pc.Trying? || m.cpus[c].pc.Loaded?)
    requires m' == At(m, c, Fail(m.cpus[c], l, k, m.cpus[c].pc.prev))
    ensures Good(m')
  {
    assert Numbered(m.cpus[c]) && Numbered(m'.cpus[c]);
    HoldsSame(m, c, m'.cpus[c]);
  }

  // ---- spin locks ----

  lemma RwKept(m: Machine, m': Machine)
    requires m'.rw == m.rw && forall l {:trigger RwOk(m, l)} :: l in m.rw ==> RwOk(m, l)
    requires forall t, l, k {:trigger HoldsAt(m', t, l, k)} ::
               k != Spin ==> (HoldsAt(m', t, l, k) <==> HoldsAt(m, t, l, k))
    ensures forall l {:trigger RwOk(m', l)} :: l in m'.rw ==> RwOk(m', l)
  {
    forall l | l in m'.rw
      ensures RwOk(m', l)
    {
      assert RwOk(m, l);
    }
  }

  lemma SwapGood(m: Machine, c: nat, m': Machine)
    requires Good(m) && c in m.cpus && OnSpin(m, c, Swap, m') && !m.spin[m.cpus[c].pc.lock].locked
    ensures Good(m')
  {
    var p := m.cpus[c];
    var l, t := p.pc.lock, Token(c, p.next);
    assert Numbered(p) && Numbered(m'.cpus[c]);
    assert forall u, j, k :: HoldsAt(m', u, j, k) <==> HoldsAt(m, u, j, k);
    assert forall u :: PrevAt(m', u) == PrevAt(m, u);
    assert forall u, j :: SavingAt(m', u, j) <==> SavingAt(m, u, j) || (u == t && j == l);
    RwKept(m, m');
    assert SpinOk(m, l);
    forall j | j in m'.spin
      ensures SpinOk(m', j)
    {
      assert SpinOk(m, j);
    }
  }

  lemma SaveGood(m: Machine, c: nat, m': Machine)
    requires Good(m) && c in m.cpus && OnSpin(m, c, Save, m')
    ensures Good(m')
  {
    var p := m.cpus[c];
    var l, t := p.pc.lock, Token(c, p.next);
    Gaining(m, c, Hold(l, Spin, p.pc.prev), m');
    assert Numbered(p) && Numbered(m'.cpus[c]);
    assert SavingAt(m, t, l) && PrevAt(m', t) == p.pc.prev;
    assert forall u, j :: SavingAt(m', u, j) <==> SavingAt(m, u, j) && u != t;
    RwKept(m, m');
    forall j | j in m'.spin
      ensures SpinOk(m', j)
    {
      assert SpinOk(m, j);
    }
  }

  /** The flag `unlock` reads back is the one saved with that hold, whichever of its locks the processor unlocks. */
  lemma LoadsOwnFlag(m: Machine, c: nat, id: nat)
    requires Good(m) && c in m.cpus && id in m.cpus[c].holds
    requires m.cpus[c].holds[id].kind == Spin && m.cpus[c].holds[id].lock in m.spin
    ensures m.spin[m.cpus[c].holds[id].lock].saved == m.cpus[c].holds[id].prev
  {
    assert SpinOk(m, m.cpus[c].holds[id].lock);
    assert HoldsAt(m, Token(c, id), m.cpus[c].holds[id].lock, Spin);
  }

  lemma ReleaseSpinGood(m: Machine, c: nat, id: nat, m': Machine)
    requires Good(m) && c in m.cpus && OnSpin(m, c, Release(id), m')
    ensures Good(m')
  {
    LoadsOwnFlag(m, c, id);
    assert Numbered(m.cpus[c]) && Numbered(m'.cpus[c]);
    HoldsSame(m, c, m'.cpus[c]);
  }

  lemma UnlockGood(m: Machine, c: nat, m': Machine)
    requires Good(m) && c in m.cpus && OnSpin(m, c, Unlock, m')
    ensures Good(m')
  {
    var p := m.cpus[c];
    var l, t := p.holds[p.pc.id].lock, Token(c, p.pc.id);
    Losing(m, c, p.pc.id, p.pc.flag, m');
    assert Numbered(p) && Numbered(m'.cpus[c]);
    assert HoldsAt(m, t, l, Spin);
    assert forall u, j :: SavingAt(m', u, j) <==> SavingAt(m, u, j);
    RwKept(m, m');
    assert SpinOk(m, l);
    forall j | j in m'.spin
      ensures SpinOk(m', j)
    {
      assert SpinOk(m, j);
    }
  }

  lemma SpinGood(m: Machine, c: nat, a: Action, m': Machine)
    requires Good(m) && c in m.cpus && OnSpin(m, c, a, m')
    ensures Good(m')
  {
    match a
    case Swap =>
      if m.spin[m.cpus[c].pc.lock].locked {
        FailGood(m, c, m', m.cpus[c].pc.lock, Spin);
      } else {
        SwapGood(m, c, m');
      }
    case Save => SaveGood(m, c, m');
    case Unlock => UnlockGood(m, c, m');
    case Release(id) => ReleaseSpinGood(m, c, id, m');
  }

  // ---- every run ----

  lemma StepGood(m: Machine, c: nat, a: Action, m': Machine)
    requires Good(m) && Step(m, c, a, m')
    ensures Good(m')
  {
    if Local(m, c, a, m') {
      LocalGood(m, c, a, m');
    } else if OnRw(m, c, a, m') {
      RwGood(m, c, a, m');
    } else {
      SpinGood(m, c, a, m');
    }
  }

  datatype Turn = Turn(cpu: nat, action: Action)

  ghost predicate Run(states: seq<Machine>, turns: seq<Turn>) {
    && |states| == |turns| + 1
    && forall i {:trigger turns[i]} ::
         0 <= i < |turns| ==> Step(states[i], turns[i].cpu, turns[i].action, states[i + 1])
  }

  /** No lock is held and every processor is outside the lock code. */
  ghost predicate Initial(m: Machine) {
    && (forall c :: c in m.cpus ==> m.cpus[c] == Cpu(m.cpus[c].on, map[], m.cpus[c].next, Outside, m.cpus[c].on))
    && (forall l :: l in m.spin ==> m.spin[l] == SpinLock(false, m.spin[l].saved, None))
    && (forall l :: l in m.rw ==> m.rw[l] == RwLock(0, {}, None))
  }

  lemma InitialGood(m: Machine)
    requires Initial(m)
    ensures Good(m)
  {
    assert forall t, l, k :: !HoldsAt(m, t, l, k);
    assert forall t, l :: !SavingAt(m, t, l);
  }

  /** However the processors interleave, every reachable state is good. */
  lemma {:induction false} RunGood(states: seq<Machine>, turns: seq<Turn>, i: nat)
    requires Run(states, turns) && Initial(states[0]) && i < |states|
    ensures Good(states[i])
  {
    if i == 0 {
      InitialGood(states[0]);
    } else {
      RunGood(states, turns, i - 1);
      assert Step(states[i - 1], turns[i - 1].cpu, turns[i - 1].action, states[i]);
      StepGood(states[i - 1], turns[i - 1].cpu, turns[i - 1].action, states[i]);
    }
  }

  // ---- what it means ----

  /** A writer is alone: no other hold of the same lock exists, on any processor. */
  lemma WriterIsAlone(m: Machine, l: nat, t: Token, u: Token, k: Kind)
    requires Good(m) && l in m.rw && HoldsAt(m, t, l, Write) && HoldsAt(m, u, l, k) && k != Spin
    ensures t == u
  {
    assert RwOk(m, l);
  }

  /** The word says it all: 2^32 - 1 for a writer, otherwise the number of readers, which stays below. */
  lemma WordMeans(m: Machine, l: nat)
    requires Good(m) && l in m.rw
    ensures m.rw[l].word == MAX <==> exists t :: HoldsAt(m, t, l, Write)
    ensures m.rw[l].word != MAX ==> m.rw[l].word == |m.rw[l].readers| < MAX
    ensures forall t :: t in m.rw[l].readers <==> HoldsAt(m, t, l, Read)
  {
    assert RwOk(m, l);
    if m.rw[l].writer.Some? {
      assert HoldsAt(m, m.rw[l].writer.value, l, Write);
    }
  }

  lemma SpinExcludes(m: Machine, l: nat, t: Token, u: Token)
    requires Good(m) && l in m.spin && HoldsAt(m, t, l, Spin) && HoldsAt(m, u, l, Spin)
    ensures t == u
  {
    assert SpinOk(m, l);
  }

  // ---- who is let in ----

  /**
   The outcome of a reader's load: it goes on to the exchange exactly when no one writes and fewer than 2^32 - 2 read,
   and otherwise waits.
   */
  lemma ReaderGoesOnIff(m: Machine, c: nat, m': Machine, l: nat, readers: set<Token>)
    requires Good(m) && c in m.cpus && m.cpus[c].pc.Trying? && m.cpus[c].pc.lock == l && l in m.rw
    requires Local(m, c, Load, m') && forall t :: t in readers <==> HoldsAt(m, t, l, Read)
    ensures m'.cpus[c].pc.Loaded? <==> (forall t :: !HoldsAt(m, t, l, Write)) && |readers| < 0xFFFF_FFFE
    ensures m'.cpus[c].pc.Loaded? || m'.cpus[c].pc.Spinning?
  {
    WordMeans(m, l);
    assert readers == m.rw[l].readers;
  }

  /** The outcome of its exchange: on a word that did not change since the load it reads, beside all others. */
  lemma ReaderGains(m: Machine, c: nat, m': Machine, l: nat)
    requires Good(m) && c in m.cpus && m.cpus[c].pc.Loaded? && m.cpus[c].pc.lock == l && l in m.rw
    requires OnRw(m, c, CasRead(false), m')
    ensures HoldsAt(m', Token(c, m.cpus[c].next), l, Read) <==> m.rw[l].word == m.cpus[c].pc.seen
    ensures HoldsAt(m', Token(c, m.cpus[c].next), l, Read) ==>
              OneMore(m, m', Token(c, m.cpus[c].next), l, Read) && m'.cpus[c].pc.Outside?
  {
    assert Numbered(m.cpus[c]);
    if m.rw[l].word == m.cpus[c].pc.seen {
      Gaining(m, c, Hold(l, Read, m.cpus[c].pc.prev), m');
    }
  }

  /** The outcome of a writer's attempt: it writes exactly when no one holds the lock. */
  lemma WriterGainsIff(m: Machine, c: nat, m': Machine, l: nat)
    requires Good(m) && c in m.cpus && m.cpus[c].pc.Trying? && m.cpus[c].pc.lock == l && l in m.rw
    requires OnRw(m, c, CasWrite(false), m')
    ensures HoldsAt(m', Token(c, m.cpus[c].next), l, Write) <==>
            forall t :: !HoldsAt(m, t, l, Read) && !HoldsAt(m, t, l, Write)
    ensures m'.cpus[c].pc.Outside? || m'.cpus[c].pc.Spinning?
  {
    WordMeans(m, l);
    assert Numbered(m.cpus[c]);
    var k := m.rw[l];
    if k.word == 0 {
      assert k.readers == {};
    } else if k.word != MAX {
      var t :| t in k.readers;
      assert HoldsAt(m, t, l, Read);
    }
  }

  /** The outcome of a swap on a spin lock: it is taken exactly when no processor has it. */
  lemma SpinTakenIff(m: Machine, c: nat, m': Machine, l: nat)
    requires Good(m) && c in m.cpus && m.cpus[c].pc.Trying? && m.cpus[c].pc.lock == l && l in m.spin
    requires OnSpin(m, c, Swap, m')
    ensures SavingAt(m', Token(c, m.cpus[c].next), l) <==>
            forall t :: !HoldsAt(m, t, l, Spin) && !SavingAt(m, t, l)
    ensures m'.cpus[c].pc.Saving? || m'.cpus[c].pc.Spinning?
  {
    assert SpinOk(m, l);
    if m.spin[l].locked {
      var t := m.spin[l].at.value;
      assert HoldsAt(m, t, l, Spin) || SavingAt(m, t, l);
    }
  }

  // ---- taking and dropping a lock ----

  lemma Extended(states: seq<Machine>, turns: seq<Turn>, c: nat, a: Action, m': Machine)
    requires Run(states, turns) && Step(states[|turns|], c, a, m')
    ensures Run(states + [m'], turns + [Turn(c, a)])
  {
    var ss, ts := states + [m'], turns + [Turn(c, a)];
    forall i | 0 <= i < |ts|
      ensures Step(ss[i], ts[i].cpu, ts[i].action, ss[i + 1])
    {
      if i < |turns| {
        assert Step(states[i], turns[i].cpu, turns[i].action, states[i + 1]);
      }
    }
  }

  /** Some run leads from `m` to `n`. */
  ghost predicate Leads(m: Machine, n: Machine) {
    exists states: seq<Machine>, turns: seq<Turn> :: Run(states, turns) && states[0] == m && states[|turns|] == n
  }

  lemma StepOn(m: Machine, n: Machine, c: nat, a: Action, n': Machine)
    requires Leads(m, n) && Step(n, c, a, n')
    ensures Leads(m, n')
  {
    var states, turns :| Run(states, turns) && states[0] == m && states[|turns|] == n;
    Extended(states, turns, c, a, n');
  }

  /** Processor `c` with one hold more, taken with the flag it had, and interrupts off. */
  function Taken(m: Machine, c: nat, l: nat, k: Kind): Machine
    requires c in m.cpus
  {
    At(m, c, Gain(m.cpus[c].(on := false), Hold(l, k, m.cpus[c].on)))
  }

  /** `n` is `m` after a lock was taken and dropped again: processor `c` has only used up a number. */
  ghost predicate Restored(m: Machine, n: Machine, c: nat)
    requires c in m.cpus
  {
    n.cpus == m.cpus[c := m.cpus[c].(next := m.cpus[c].next + 1)] && n.rw == m.rw
  }

  /** The first two steps of any acquisition. */
  lemma Begins(s: Machine, m: Machine, c: nat, l: nat, k: Kind) returns (n: Machine)
    requires Leads(s, m) && c in m.cpus && m.cpus[c].pc.Outside? && (if k == Spin then l in m.spin else l in m.rw)
    ensures Leads(s, n) && n == At(m, c, m.cpus[c].(on := false, pc := Trying(l, k, m.cpus[c].on)))
  {
    var p := m.cpus[c];
    var m1 := At(m, c, p.(pc := Entering(l, k, p.on)));
    StepOn(s, m, c, Begin(l, k), m1);
    n := At(m, c, p.(on := false, pc := Trying(l, k, p.on)));
    assert n == At(m1, c, n.cpus[c]);
    StepOn(s, m1, c, Cli, n);
  }

  /** All steps of a reader that is let in at once. */
  lemma TakesRead(s: Machine, m: Machine, c: nat, l: nat) returns (n: Machine)
    requires Leads(s, m) && c in m.cpus && m.cpus[c].pc.Outside? && l in m.rw && m.rw[l].word < MAX - 1
    ensures Leads(s, n)
    ensures var k := m.rw[l].(word := m.rw[l].word + 1, readers := m.rw[l].readers + {Token(c, m.cpus[c].next)});
            n == Taken(m, c, l, Read).(rw := m.rw[l := k])
  {
    var p, k := m.cpus[c], m.rw[l];
    var m1 := Begins(s, m, c, l, Read);
    var m2 := At(m1, c, m1.cpus[c].(pc := Loaded(l, p.on, k.word)));
    StepOn(s, m1, c, Load, m2);
    n := Taken(m, c, l, Read).(rw := m.rw[l := k.(word := k.word + 1, readers := k.readers + {Token(c, p.next)})]);
    assert n.cpus == m2.cpus[c := n.cpus[c]];
    StepOn(s, m2, c, CasRead(false), n);
  }

  /** All steps of a writer that is. */
  lemma TakesWrite(s: Machine, m: Machine, c: nat, l: nat) returns (n: Machine)
    requires Leads(s, m) && c in m.cpus && m.cpus[c].pc.Outside? && l in m.rw && m.rw[l].word == 0
    ensures Leads(s, n)
    ensures var k := m.rw[l].(word := MAX, writer := Some(Token(c, m.cpus[c].next)));
            n == Taken(m, c, l, Write).(rw := m.rw[l := k])
  {
    var m1 := Begins(s, m, c, l, Write);
    n := Taken(m, c, l, Write).(rw := m.rw[l := m.rw[l].(word := MAX, writer := Some(Token(c, m.cpus[c].next)))]);
    assert n.cpus == m1.cpus[c := n.cpus[c]];
    StepOn(s, m1, c, CasWrite(false), n);
  }

  lemma Stays(m: Machine)
    ensures Leads(m, m)
  {
    assert Run([m], []);
  }

  /** The last step of any drop. */
  lemma BackOutside(m: Machine, n: Machine, n2: Machine, c: nat, l: nat, k: Kind)
    requires c in m.cpus && m.cpus[c].pc.Outside? && m.cpus[c].next !in m.cpus[c].holds && Leads(n, n2)
    requires n2.rw == m.rw
    requires n2.cpus == m.cpus[c := Lose(Taken(m, c, l, k).cpus[c], m.cpus[c].next, m.cpus[c].on)]
    ensures exists q :: Leads(n, q) && Restored(m, q, c) && q.spin == n2.spin
  {
    var p := m.cpus[c];
    var q := At(n2, c, p.(next := p.next + 1));
    assert p.holds[p.next := Hold(l, k, p.on)] - {p.next} == p.holds;
    StepOn(n, n2, c, Sti, q);
    assert Restored(m, q, c);
  }

  /** A spin lock no one has: it can be taken, and after unlocking all is as before, the interrupt flag included. */
  lemma SpinRoundTrip(m: Machine, c: nat, l: nat)
    requires Good(m) && c in m.cpus && m.cpus[c].pc.Outside? && l in m.spin
    requires forall t :: !HoldsAt(m, t, l, Spin) && !SavingAt(m, t, l)
    ensures exists n, q :: Leads(m, n) && HoldsAt(n, Token(c, m.cpus[c].next), l, Spin) && Leads(n, q)
                           && Restored(m, q, c) && q.spin == m.spin[l := SpinLock(false, m.cpus[c].on, None)]
  {
    assert SpinOk(m, l) && Numbered(m.cpus[c]);
    var p := m.cpus[c];
    Stays(m);
    var m1 := Begins(m, m, c, l, Spin);
    var m2 := At(m1, c, m1.cpus[c].(pc := Saving(l, p.on)))
              .(spin := m.spin[l := m.spin[l].(locked := true, at := Some(Token(c, p.next)))]);
    StepOn(m, m1, c, Swap, m2);
    var n := Taken(m, c, l, Spin).(spin := m.spin[l := SpinLock(true, p.on, Some(Token(c, p.next)))]);
    assert n.cpus == m2.cpus[c := n.cpus[c]] && n.spin == m2.spin[l := n.spin[l]];
    StepOn(m, m2, c, Save, n);
    SpinDrops(m, n, c, l);
  }

  lemma SpinDrops(m: Machine, n: Machine, c: nat, l: nat)
    requires c in m.cpus && m.cpus[c].pc.Outside? && m.cpus[c].next !in m.cpus[c].holds && l in m.spin
    requires var taken := SpinLock(true, m.cpus[c].on, Some(Token(c, m.cpus[c].next)));
             n == Taken(m, c, l, Spin).(spin := m.spin[l := taken])
    ensures exists q :: Leads(n, q) && Restored(m, q, c)
                        && q.spin == m.spin[l := SpinLock(false, m.cpus[c].on, None)]
  {
    var p, id := n.cpus[c], m.cpus[c].next;
    Stays(n);
    var n1 := At(n, c, p.(pc := Unlocking(id, m.cpus[c].on)));
    StepOn(n, n, c, Release(id), n1);
    var n2 := At(n1, c, Lose(p, id, m.cpus[c].on)).(spin := m.spin[l := SpinLock(false, m.cpus[c].on, None)]);
    assert n2.spin == n1.spin[l := n2.spin[l]];
    StepOn(n, n1, c, Unlock, n2);
    assert n2.cpus == m.cpus[c := n2.cpus[c]];
    BackOutside(m, n, n2, c, l, Spin);
  }

  /** A lock no one writes, with room for a reader: it can be read, and after the drop all is as before. */
  lemma ReadRoundTrip(m: Machine, c: nat, l: nat)
    requires Good(m) && c in m.cpus && m.cpus[c].pc.Outside? && l in m.rw && m.rw[l].word < MAX - 1
    ensures exists n, q :: Leads(m, n) && HoldsAt(n, Token(c, m.cpus[c].next), l, Read) && Leads(n, q)
                           && Restored(m, q, c) && q.spin == m.spin
  {
    var p, k := m.cpus[c], m.rw[l];
    assert Token(c, p.next) !in k.readers by { assert RwOk(m, l) && Numbered(p); }
    Stays(m);
    var n := TakesRead(m, m, c, l);
    assert n.rw[l].readers - {Token(c, p.next)} == k.readers;
    RwDrops(m, n, c, l, Read);
  }

  /** A lock no one holds: it can be written, and after the drop all is as before. */
  lemma WriteRoundTrip(m: Machine, c: nat, l: nat)
    requires Good(m) && c in m.cpus && m.cpus[c].pc.Outside? && l in m.rw
    requires forall t :: !HoldsAt(m, t, l, Read) && !HoldsAt(m, t, l, Write)
    ensures exists n, q :: Leads(m, n) && HoldsAt(n, Token(c, m.cpus[c].next), l, Write) && Leads(n, q)
                           && Restored(m, q, c) && q.spin == m.spin
  {
    var p, k := m.cpus[c], m.rw[l];
    assert RwOk(m, l) && Numbered(p);
    assert k.readers == {};
    Stays(m);
    var n := TakesWrite(m, m, c, l);
    RwDrops(m, n, c, l, Write);
  }

  lemma RwDrops(m: Machine, n: Machine, c: nat, l: nat, k: Kind)
    requires c in m.cpus && m.cpus[c].pc.Outside? && m.cpus[c].next !in m.cpus[c].holds && l in m.rw && k != Spin
    requires l in n.rw && n == Taken(m, c, l, k).(rw := m.rw[l := n.rw[l]])
    requires k == Read ==>
               && n.rw[l].word == m.rw[l].word + 1 <= MAX && n.rw[l].writer == m.rw[l].writer
               && n.rw[l].readers - {Token(c, m.cpus[c].next)} == m.rw[l].readers
    requires k == Write ==> n.rw[l].readers == m.rw[l].readers && m.rw[l].word == 0 && m.rw[l].writer == None
    ensures exists q :: Leads(n, q) && Restored(m, q, c) && q.spin == m.spin
  {
    var p, id := n.cpus[c], m.cpus[c].next;
    Stays(n);
    var n1 := At(n, c, Lose(p, id, m.cpus[c].on)).(rw := m.rw);
    assert m.rw == n.rw[l := m.rw[l]];
    StepOn(n, n, c, Release(id), n1);
    assert n1.cpus == m.cpus[c := n1.cpus[c]];
    BackOutside(m, n, n1, c, l, k);
  }

  /** Readers share: two processors hold one lock for reading at the same time. */
  lemma TwoReaders()
    ensures exists m, n :: Initial(m) && Leads(m, n)
                           && HoldsAt(n, Token(0, 0), 0, Read) && HoldsAt(n, Token(1, 0), 0, Read)
  {
    var p := Cpu(true, map[], 0, Outside, true);
    var m := Machine(map[0 := p, 1 := p], map[], map[0 := RwLock(0, {}, None)]);
    Stays(m);
    var n := TakesRead(m, m, 0, 0);
    n := TakesRead(m, n, 1, 0);
  }

  // ---- the interrupt flag ----

  /** Interrupts are off inside locks. */
  predicate Quiet(p: Cpu) {
    p.holds != map[] ==> !p.on
  }

  /** Dropping hold `id` switches interrupts on while a lock taken later is still held. */
  predicate DropsEarly(p: Cpu, id: nat) {
    id in p.holds && p.holds[id].prev && exists j :: j in p.holds && id < j
  }

  /** No guard taken with interrupts on is dropped before one taken inside it. */
  ghost predicate Nested(states: seq<Machine>, turns: seq<Turn>, c: nat)
    requires |states| == |turns| + 1
  {
    forall i {:trigger turns[i]} ::
      0 <= i < |turns| && turns[i].cpu == c && turns[i].action.Release? && c in states[i].cpus
      ==> !DropsEarly(states[i].cpus[c], turns[i].action.id)
  }

  /** The flag just outside the next lock: the ambient one, or off inside other locks. */
  function Outer(p: Cpu): bool {
    p.holds == map[] && p.ambient
  }

  /** Every flag a processor has saved or has to restore, as long as its guards are nested. */
  ghost predicate Discipline(p: Cpu) {
    && (forall id, j :: id in p.holds && j in p.holds && p.holds[id].prev ==> p.ambient && id <= j)
    && (p.holds != map[] && p.ambient ==> exists id :: id in p.holds && p.holds[id].prev)
    && Quiet(p)
    && match p.pc
       case Outside => p.holds == map[] ==> p.on == p.ambient
       case Entering(_, _, prev) => prev == p.on && (p.holds == map[] ==> p.on == p.ambient)
       case Spinning(_, _, prev) => p.on == prev && prev == Outer(p)
       case Unlocking(id, _) => !DropsEarly(p, id)
       case _ => !p.on && p.pc.prev == Outer(p)
  }

  lemma StepDiscipline(m: Machine, c: nat, a: Action, m': Machine)
    requires Good(m) && Step(m, c, a, m') && Discipline(m.cpus[c])
    requires a.Release? ==> !DropsEarly(m.cpus[c], a.id)
    ensures c in m'.cpus && Discipline(m'.cpus[c])
  {
    var p := m.cpus[c];
    assert Numbered(p);
    if OnRw(m, c, a, m') {
      RwDiscipline(m, c, a, m');
    } else if OnSpin(m, c, a, m') {
      SpinDiscipline(m, c, a, m');
    }
  }

  lemma RwDiscipline(m: Machine, c: nat, a: Action, m': Machine)
    requires c in m.cpus && Numbered(m.cpus[c]) && OnRw(m, c, a, m') && Discipline(m.cpus[c])
    requires a.Release? ==> !DropsEarly(m.cpus[c], a.id)
    ensures Discipline(m'.cpus[c])
  {
    var p := m.cpus[c];
    if a.Release? {
      LoseDiscipline(p, a.id);
    } else if m'.cpus[c].pc.Outside? {
      GainDiscipline(p, Hold(p.pc.lock, if a.CasRead? then Read else Write, p.pc.prev));
    }
  }

  lemma SpinDiscipline(m: Machine, c: nat, a: Action, m': Machine)
    requires c in m.cpus && Numbered(m.cpus[c]) && OnSpin(m, c, a, m') && Discipline(m.cpus[c])
    requires a.Release? ==> !DropsEarly(m.cpus[c], a.id)
    ensures Discipline(m'.cpus[c])
  {
    var p := m.cpus[c];
    if a == Unlock {
      LoseDiscipline(p, p.pc.id);
    } else if a == Save {
      GainDiscipline(p, Hold(p.pc.lock, Spin, p.pc.prev));
    }
  }

  lemma GainDiscipline(p: Cpu, h: Hold)
    requires Numbered(p) && Discipline(p) && (p.pc.Trying? || p.pc.Loaded? || p.pc.Saving?) && h.prev == p.pc.prev
    ensures Discipline(Gain(p, h))
  {
    assert p.next in Gain(p, h).holds;
    if p.holds != map[] && p.ambient {
      var k :| k in p.holds && p.holds[k].prev;
      assert k in Gain(p, h).holds && Gain(p, h).holds[k].prev;
    }
  }

  lemma LoseDiscipline(p: Cpu, id: nat)
    requires Discipline(p) && id in p.holds && !DropsEarly(p, id) && (p.pc.Outside? || p.pc.Unlocking?)
    ensures Discipline(Lose(p, id, p.holds[id].prev))
  {
    var rest := p.holds - {id};
    assert forall j :: j in p.holds && j != id ==> j in rest;
    assert p.holds != map[];
    if rest != map[] {
      var j :| j in rest;
      if p.ambient {
        var k :| k in p.holds && p.holds[k].prev;
        assert k != id;
        assert k in rest;
      }
    }
  }

  /** While guards are nested, the discipline holds in every state, whatever the other processors do. */
  lemma {:induction false} RunDiscipline(states: seq<Machine>, turns: seq<Turn>, c: nat, i: nat)
    requires Run(states, turns) && Initial(states[0]) && c in states[0].cpus && i < |states|
    requires Nested(states[..i + 1], turns[..i], c)
    ensures c in states[i].cpus && Discipline(states[i].cpus[c])
  {
    if i > 0 {
      var j := i - 1;
      assert turns[..i][..j] == turns[..j] && states[..i + 1][..i] == states[..i];
      NestedPrefix(states[..i + 1], turns[..i], c, j);
      RunDiscipline(states, turns, c, j);
      RunGood(states, turns, j);
      assert Step(states[j], turns[j].cpu, turns[j].action, states[i]);
      if turns[j].cpu == c {
        assert turns[..i][j] == turns[j];
        StepDiscipline(states[j], c, turns[j].action, states[i]);
      }
    }
  }

  lemma NestedPrefix(states: seq<Machine>, turns: seq<Turn>, c: nat, i: nat)
    requires |states| == |turns| + 1 && i <= |turns| && Nested(states, turns, c)
    ensures Nested(states[..i + 1], turns[..i], c)
  {
    assert forall k :: 0 <= k < i ==> turns[..i][k] == turns[k] && states[..i + 1][k] == states[k];
  }

  /** Interrupts are off inside locks, also while waiting for an inner one, and as before outside all locks. */
  lemma InterruptsOff(states: seq<Machine>, turns: seq<Turn>, c: nat, i: nat)
    requires Run(states, turns) && Initial(states[0]) && c in states[0].cpus && i < |states| && Nested(states, turns, c)
    ensures c in states[i].cpus && Quiet(states[i].cpus[c])
    ensures states[i].cpus[c].holds == map[] && states[i].cpus[c].pc.Outside?
            ==> states[i].cpus[c].on == states[i].cpus[c].ambient
  {
    NestedPrefix(states, turns, c, i);
    RunDiscipline(states, turns, c, i);
  }

  // ---- guards dropped out of order ----

  /** Processor `p` is on its way to switch interrupts on while it holds `j`. */
  predicate Doomed(p: Cpu, j: nat) {
    && j in p.holds
    && ((p.pc.Unlocking? && p.pc.id != j && p.pc.flag) || (p.pc.Restoring? && p.pc.prev))
  }

  /** Until it does, no step of any processor takes it off that way. */
  lemma DoomedStep(m: Machine, c: nat, a: Action, m': Machine, d: nat, j: nat)
    requires Step(m, c, a, m') && d in m.cpus && Doomed(m.cpus[d], j)
    ensures d in m'.cpus && j in m'.cpus[d].holds && (Doomed(m'.cpus[d], j) || m'.cpus[d].on)
  {
  }

  /** A guard taken with interrupts on, dropped before an inner one: interrupts come on inside the inner lock. */
  lemma {:induction false} DoomedRun(states: seq<Machine>, turns: seq<Turn>, c: nat, j: nat, i: nat)
      returns (k: nat)
    requires Run(states, turns) && i < |states| && c in states[i].cpus && Doomed(states[i].cpus[c], j)
    requires c in states[|turns|].cpus && states[|turns|].cpus[c].pc.Outside?
    ensures i < k < |states| && c in states[k].cpus && !Quiet(states[k].cpus[c])
    decreases |states| - i
  {
    assert i != |turns|;
    assert Step(states[i], turns[i].cpu, turns[i].action, states[i + 1]);
    DoomedStep(states[i], turns[i].cpu, turns[i].action, states[i + 1], c, j);
    k := i + 1;
    if !states[i + 1].cpus[c].on {
      k := DoomedRun(states, turns, c, j, i + 1);
    }
  }

  lemma EarlyDrop(states: seq<Machine>, turns: seq<Turn>, c: nat, i: nat) returns (k: nat)
    requires Run(states, turns) && Initial(states[0]) && i < |turns| && turns[i].cpu == c && turns[i].action.Release?
    requires c in states[i].cpus && DropsEarly(states[i].cpus[c], turns[i].action.id)
    requires c in states[|turns|].cpus && states[|turns|].cpus[c].pc.Outside?
    ensures i < k < |states| && c in states[k].cpus && !Quiet(states[k].cpus[c])
  {
    var p, id := states[i].cpus[c], turns[i].action.id;
    var j :| j in p.holds && id < j;
    assert Step(states[i], turns[i].cpu, turns[i].action, states[i + 1]);
    RunGood(states, turns, i);
    if p.holds[id].kind == Spin {
      LoadsOwnFlag(states[i], c, id);
    }
    k := DoomedRun(states, turns, c, j, i + 1);
  }

  /**
   Over every run in which processor `c` finishes the drops it begins, its interrupts stay off inside locks exactly when
   it never drops a guard taken with interrupts on before one taken inside it.
   */
  lemma OutOfOrderIff(states: seq<Machine>, turns: seq<Turn>, c: nat)
    requires Run(states, turns) && Initial(states[0]) && c in states[0].cpus
    requires c in states[|turns|].cpus && states[|turns|].cpus[c].pc.Outside?
    ensures (forall i :: 0 <= i < |states| && c in states[i].cpus ==> Quiet(states[i].cpus[c]))
            <==> Nested(states, turns, c)
  {
    if Nested(states, turns, c) {
      forall i | 0 <= i < |states|
        ensures c in states[i].cpus && Quiet(states[i].cpus[c])
      {
        InterruptsOff(states, turns, c, i);
      }
    } else {
      var i :| 0 <= i < |turns| && turns[i].cpu == c && turns[i].action.Release?
        && c in states[i].cpus && DropsEarly(states[i].cpus[c], turns[i].action.id);
      var k := EarlyDrop(states, turns, c, i);
    }
  }

  /** It happens: two write guards, the outer one dropped first. */
  lemma TwoGuardsOutOfOrder()
    ensures exists m, n :: Initial(m) && Leads(m, n) && 0 in n.cpus && n.cpus[0].pc.Outside? && !Quiet(n.cpus[0])
  {
    var free := RwLock(0, {}, None);
    var m := Machine(map[0 := Cpu(true, map[], 0, Outside, true)], map[], map[0 := free, 1 := free]);
    Stays(m);
    var n := TakesWrite(m, m, 0, 0);
    n := TakesWrite(m, n, 0, 1);
    n := DropsOuter(m, n);
  }

  /** Processor 0 drops write hold 0, taken with interrupts on, while it has hold 1. */
  lemma DropsOuter(s: Machine, m: Machine) returns (n: Machine)
    requires Leads(s, m) && 0 in m.cpus && m.cpus[0].pc.Outside? && 0 in m.rw
    requires 0 in m.cpus[0].holds && m.cpus[0].holds[0] == Hold(0, Write, true) && 1 in m.cpus[0].holds
    ensures Leads(s, n) && 0 in n.cpus && n.cpus[0].pc.Outside? && !Quiet(n.cpus[0])
  {
    var m1 := At(m, 0, Lose(m.cpus[0], 0, true)).(rw := m.rw[0 := m.rw[0].(word := 0, writer := None)]);
    StepOn(s, m, 0, Release(0), m1);
    n := At(m1, 0, m1.cpus[0].(on := true, pc := Outside));
    assert 1 in n.cpus[0].holds;
    StepOn(s, m1, 0, Sti, n);
  }

  /** Only code outside all locks changes the ambient flag. */
  lemma AmbientKept(m: Machine, c: nat, a: Action, m': Machine, d: nat)
    requires Step(m, c, a, m') && d in m.cpus && !(a == Toggle && c == d)
    ensures d in m'.cpus && m'.cpus[d].ambient == m.cpus[d].ambient
  {
  }
}
