/** `Once`: one-time initialisation raced for by any number of callers, one atomic step at a time. */
module Once {
  datatype State = Uninit | Running | Done

  /** The cell that `call_once` fills; a store of many words is not visible all at once. */
  datatype Cell<V> = Empty | Partial | Full(value: V)

  /** What `get` can return; a torn value must never be seen. */
  datatype Answer<V> = Nothing | Torn | Value(value: V)

  datatype Phase<V> =
    | Before
    | Computing              // won the race, `f` is running
    | Storing(value: V)      // `f` returned
    | Halfway(value: V)      // some of the value is in the cell
    | Stored                 // the value is in the cell, the state is not yet `Done`
    | Waiting                // lost the race, spins
    | After

  /** `runs` counts calls of the initialiser; `answers` is what `get` returned, in order. */
  datatype Machine<V> = Machine(state: State, cell: Cell<V>, callers: map<nat, Phase<V>>, runs: nat,
                                answers: seq<Answer<V>>)

  datatype Action<V> = Race | Compute(value: V) | StoreHalf | StoreRest | Publish | Wait | Get

  function Look<V>(cell: Cell<V>): Answer<V> {
    match cell
    case Empty => Nothing
    case Partial => Torn
    case Full(v) => Value(v)
  }

  function To<V>(m: Machine<V>, c: nat, p: Phase<V>): Machine<V> {
    m.(callers := m.callers[c := p])
  }

  ghost predicate Step<V>(m: Machine<V>, c: nat, a: Action<V>, m': Machine<V>) {
    c in m.callers &&
    match a
    case Race =>
      && m.callers[c] == Before
      && m' == if m.state == Uninit then To(m, c, Computing).(state := Running, runs := m.runs + 1)
               else To(m, c, Waiting)
    case Compute(v) => m.callers[c] == Computing && m' == To(m, c, Storing(v))
    case StoreHalf => m.callers[c].Storing? && m' == To(m, c, Halfway(m.callers[c].value)).(cell := Partial)
    case StoreRest => m.callers[c].Halfway? && m' == To(m, c, Stored).(cell := Full(m.callers[c].value))
    case Publish => m.callers[c] == Stored && m' == To(m, c, After).(state := Done)
    case Wait => m.callers[c] == Waiting && m' == if m.state == Done then To(m, c, After) else m
    case Get =>
      m' == m.(answers := m.answers + [if m.state == Done then Look(m.cell) else Nothing])
  }

  predicate Inside<V>(p: Phase<V>) {
    p.Computing? || p.Storing? || p.Halfway? || p.Stored?
  }

  /** The one caller between winning the race and publishing, and what it has left in the cell. */
  ghost predicate Winner<V(!new)>(m: Machine<V>, c: nat) {
    && c in m.callers && Inside(m.callers[c])
    && (forall d :: d in m.callers && d != c ==> !Inside(m.callers[d]))
    && (match m.callers[c]
        case Halfway(_) => m.cell == Partial
        case Stored => m.cell.Full?
        case _ => m.cell == Empty)
  }

  ghost predicate Good<V(!new)>(m: Machine<V>) {
    && (match m.state
        case Uninit => m.runs == 0 && m.cell == Empty && forall c :: c in m.callers ==> !Inside(m.callers[c])
        case Running => m.runs == 1 && exists c :: Winner(m, c)
        case Done => m.runs == 1 && m.cell.Full? && forall c :: c in m.callers ==> !Inside(m.callers[c]))
    && (forall c :: c in m.callers && m.callers[c] == After ==> m.state == Done)
    && (forall i :: 0 <= i < |m.answers| && m.answers[i] != Nothing ==>
          m.answers[i].Value? && m.state == Done && m.cell == Full(m.answers[i].value))
    && (forall i, j :: 0 <= i < j < |m.answers| && m.answers[i] != Nothing ==> m.answers[j] == m.answers[i])
  }

  lemma StepGood<V(!new)>(m: Machine<V>, c: nat, a: Action<V>, m': Machine<V>)
    requires Good(m) && Step(m, c, a, m')
    ensures Good(m')
    ensures m.state == Done ==> m'.state == Done && m'.cell == m.cell
  {
    if m.state == Running {
      var w :| Winner(m, w);
      if a.Race? || a.Wait? || a.Get? {
        assert Winner(m', w);
      } else {
        assert c == w;
        assert !a.Publish? ==> Winner(m', w);
      }
    } else if a.Race? && m.state == Uninit {
      assert Winner(m', c);
    }
  }

  // ---- every run ----

  datatype Turn<V> = Turn(caller: nat, action: Action<V>)

  ghost predicate Run<V>(states: seq<Machine<V>>, turns: seq<Turn<V>>) {
    && |states| == |turns| + 1
    && forall i {:trigger turns[i]} ::
         0 <= i < |turns| ==> Step(states[i], turns[i].caller, turns[i].action, states[i + 1])
  }

  ghost predicate Initial<V>(m: Machine<V>) {
    && m.state == Uninit && m.cell == Empty && m.runs == 0 && m.answers == []
    && forall c :: c in m.callers ==> m.callers[c] == Before
  }

  lemma {:induction false} RunGood<V(!new)>(states: seq<Machine<V>>, turns: seq<Turn<V>>, i: nat)
    requires Run(states, turns) && Initial(states[0]) && i < |states|
    ensures Good(states[i])
  {
    if i > 0 {
      RunGood(states, turns, i - 1);
      assert Step(states[i - 1], turns[i - 1].caller, turns[i - 1].action, states[i]);
      StepGood(states[i - 1], turns[i - 1].caller, turns[i - 1].action, states[i]);
    }
  }

  /**
   Over every run the initialiser runs at most once, `get` never returns a value that is not all there,
   and once it returned a value it returns the same one for ever.
   */
  lemma OnceAndForAll<V(!new)>(states: seq<Machine<V>>, turns: seq<Turn<V>>, i: nat)
    requires Run(states, turns) && Initial(states[0]) && i < |states|
    ensures states[i].runs <= 1
    ensures states[i].state == Done ==> states[i].cell.Full?
    ensures var answers := states[i].answers;
            && (forall k :: 0 <= k < |answers| ==> answers[k] != Torn)
            && (forall k :: 0 <= k < |answers| && answers[k].Value? ==> states[i].cell == Full(answers[k].value))
            && (forall k, l :: 0 <= k < l < |answers| && answers[k].Value? ==> answers[l] == answers[k])
  {
    RunGood(states, turns, i);
  }

  /** Whoever has returned from `call_once`, as winner or after waiting, finds the value there, and so does `get`. */
  lemma ReturnMeansDone<V(!new)>(states: seq<Machine<V>>, turns: seq<Turn<V>>, i: nat, c: nat)
    requires Run(states, turns) && Initial(states[0]) && i < |states|
    requires c in states[i].callers && states[i].callers[c] == After
    ensures states[i].state == Done && states[i].cell.Full?
    ensures i < |turns| && turns[i].action == Get ==>
              states[i + 1].answers == states[i].answers + [Value(states[i].cell.value)]
  {
    RunGood(states, turns, i);
    if i < |turns| {
      assert Step(states[i], turns[i].caller, turns[i].action, states[i + 1]);
    }
  }

  /** The value kept is one that an initialiser returned. */
  ghost predicate Returned<V(!new)>(turns: seq<Turn<V>>, i: nat, v: V)
    requires i <= |turns|
  {
    exists j :: 0 <= j < i && turns[j].action == Compute(v)
  }

  /** What the winner carries and what the cell holds were returned by an initialiser before. */
  lemma {:induction false} ValueWasReturned<V(!new)>(states: seq<Machine<V>>, turns: seq<Turn<V>>, i: nat)
    requires Run(states, turns) && Initial(states[0]) && i < |states|
    ensures states[i].cell.Full? ==> Returned(turns, i, states[i].cell.value)
    ensures forall c :: c in states[i].callers && (states[i].callers[c].Storing? || states[i].callers[c].Halfway?) ==>
              Returned(turns, i, states[i].callers[c].value)
  {
    if i > 0 {
      ValueWasReturned(states, turns, i - 1);
      var m, m', t := states[i - 1], states[i], turns[i - 1];
      assert Step(m, t.caller, t.action, m');
      if t.action.Compute? {
        assert Returned(turns, i, t.action.value);
      }
      forall v | Returned(turns, i - 1, v)
        ensures Returned(turns, i, v)
      {
        var j :| 0 <= j < i - 1 && turns[j].action == Compute(v);
      }
    }
  }

  /** Some run leads from `m` to `n`. */
  ghost predicate Leads<V(!new)>(m: Machine<V>, n: Machine<V>) {
    exists states: seq<Machine<V>>, turns: seq<Turn<V>> ::
      Run(states, turns) && states[0] == m && states[|turns|] == n
  }

  lemma LeadsOn<V(!new)>(m: Machine<V>, n: Machine<V>, c: nat, a: Action<V>, n': Machine<V>)
    requires Leads(m, n) && Step(n, c, a, n')
    ensures Leads(m, n')
  {
    var states, turns :| Run(states, turns) && states[0] == m && states[|turns|] == n;
    var ss, ts := states + [n'], turns + [Turn(c, a)];
    forall i | 0 <= i < |ts|
      ensures Step(ss[i], ts[i].caller, ts[i].action, ss[i + 1])
    {
      if i < |turns| {
        assert Step(states[i], turns[i].caller, turns[i].action, states[i + 1]);
      }
    }
    assert Run(ss, ts);
  }

  /** A caller alone gets through: its `call_once` runs the initialiser, and `get` returns what that returned. */
  lemma LoneCall<V(!new)>(m: Machine<V>, c: nat, v: V)
    requires Initial(m) && c in m.callers
    ensures exists n :: Leads(m, n) && c in n.callers && n.callers[c] == After && n.runs == 1 && n.answers == [Value(v)]
  {
    assert Leads(m, m) by { assert Run([m], []); }
    var m1 := To(m, c, Computing).(state := Running, runs := 1);
    LeadsOn(m, m, c, Race, m1);
    var m2 := To(m1, c, Storing(v));
    LeadsOn(m, m1, c, Compute(v), m2);
    var m3 := To(m2, c, Halfway(v)).(cell := Partial);
    LeadsOn(m, m2, c, StoreHalf, m3);
    var m4 := To(m3, c, Stored).(cell := Full(v));
    LeadsOn(m, m3, c, StoreRest, m4);
    var m5 := To(m4, c, After).(state := Done);
    LeadsOn(m, m4, c, Publish, m5);
    var m6 := m5.(answers := [Value(v)]);
    LeadsOn(m, m5, c, Get, m6);
  }

  /** One that lost the race can always look again, and returns exactly when the winner has published. */
  lemma WaiterReturns<V(!new)>(m: Machine<V>, c: nat, m': Machine<V>)
    requires Good(m) && c in m.callers && m.callers[c] == Waiting
    ensures Step(m, c, Wait, m') <==> m' == if m.state == Done then To(m, c, After) else m
  {
  }
}
