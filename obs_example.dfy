/**
 * The observer demo: an object with an ON/OFF state, a call counter and an
 * embedded subject. Every call of the handler counts; on the millionth
 * call the counter restarts, the state toggles and the subject notifies
 * its observers.
 */
module ObserverDemo {
  import opened FixedPoint
  import opened Observers

  /** ObsDemoState_t. */
  datatype DemoState = ON | OFF

  /** The counter value at which the handler toggles and notifies. */
  const CounterLimit: nat := 1000000

  /**
   * ObsExampleObj_t. The subject is stored inside the object in C; here it
   * is the Subject object the demo is built around, fixed for its lifetime.
   */
  class DemoObj {
    var State: DemoState
    var counter: Uint32
    const Subject: Subject

    /** Ties a demo object to the storage of its subject; OBS_CreateObserverDemo initialises it. */
    constructor (subject: Subject)
      ensures Subject == subject
    {
      Subject := subject;
    }
  }

  // ---------------------------------------------------------------------
  // The state machine, on values
  // ---------------------------------------------------------------------

  /** State and counter of a demo object. */
  datatype Demo = Demo(state: DemoState, counter: Uint32)

  /** The values OBS_CreateObserverDemo sets. */
  const Fresh: Demo := Demo(ON, 0)

  function Toggle(s: DemoState): (t: DemoState)
    ensures t != s
  {
    if s == ON then OFF else ON
  }

  /** The incremented counter, with the 32-bit wrap-around of uint32_t. */
  function Incremented(c: Uint32): Uint32
  {
    (c + 1) % 0x1_0000_0000
  }

  /** Whether a handler call from d restarts the counter, toggles and notifies. */
  predicate Notifies(d: Demo)
  {
    Incremented(d.counter) >= CounterLimit
  }

  /** One OBS_HandleOberverDemo call on state and counter. */
  function Tick(d: Demo): (r: Demo)
    ensures Notifies(d) ==> r == Demo(Toggle(d.state), 0)
    ensures !Notifies(d) ==> r.state == d.state && r.counter < CounterLimit
  {
    var c := Incremented(d.counter);
    if c >= CounterLimit then Demo(Toggle(d.state), 0) else Demo(d.state, c)
  }

  /** m handler calls in a row. */
  function Run(d: Demo, m: nat): Demo
  {
    if m == 0 then d else Tick(Run(d, m - 1))
  }

  /** How many of m handler calls in a row notify. */
  function NotifyCount(d: Demo, m: nat): nat
  {
    if m == 0 then 0 else NotifyCount(d, m - 1) + (if Notifies(Run(d, m - 1)) then 1 else 0)
  }

  /** The state after q restarts from ON. */
  function StateAfter(q: nat): DemoState
  {
    if q % 2 == 0 then ON else OFF
  }

  // ---------------------------------------------------------------------
  // Properties of the state machine
  // ---------------------------------------------------------------------

  /**
   * A counter below the limit stays below it, and the state toggles
   * exactly on the call that takes the counter from 999999 back to 0.
   */
  lemma TickInRange(d: Demo)
    requires d.counter < CounterLimit
    ensures Tick(d).counter < CounterLimit
    ensures Notifies(d) <==> d.counter == CounterLimit - 1
    ensures Tick(d).state != d.state <==> d.counter == CounterLimit - 1
    ensures d.counter < CounterLimit - 1 ==> Tick(d) == Demo(d.state, d.counter + 1)
  {
  }

  /** A call from the counter value r of a run from creation, as the quotient and remainder of m - 1 see it. */
  lemma NextCall(m: nat, q: nat, r: nat)
    requires 0 < m && m - 1 == q * CounterLimit + r && r < CounterLimit
    ensures r == CounterLimit - 1 ==>
      m / CounterLimit == q + 1 && m % CounterLimit == 0 && StateAfter(q + 1) == Toggle(StateAfter(q))
    ensures r < CounterLimit - 1 ==> m / CounterLimit == q && m % CounterLimit == r + 1
  {
    if r == CounterLimit - 1 {
      Arith.DivModUnique(m, CounterLimit, q + 1, 0);
    } else {
      Arith.DivModUnique(m, CounterLimit, q, r + 1);
    }
  }

  /**
   * From a fresh object, after m calls the counter is m mod 1000000 and
   * the state is ON exactly when m div 1000000 is even.
   */
  lemma {:induction false} RunFromFresh(m: nat)
    ensures Run(Fresh, m) == Demo(StateAfter(m / CounterLimit), m % CounterLimit)
  {
    if m > 0 {
      RunFromFresh(m - 1);
      var q, r := (m - 1) / CounterLimit, (m - 1) % CounterLimit;
      var d := Run(Fresh, m - 1);
      assert d == Demo(StateAfter(q), r);
      TickInRange(d);
      NextCall(m, q, r);
    }
  }

  /** From a fresh object, m calls notify the subject m div 1000000 times. */
  lemma {:induction false} NotifyCountFromFresh(m: nat)
    ensures NotifyCount(Fresh, m) == m / CounterLimit
  {
    if m > 0 {
      NotifyCountFromFresh(m - 1);
      RunFromFresh(m - 1);
      var q, r := (m - 1) / CounterLimit, (m - 1) % CounterLimit;
      TickInRange(Run(Fresh, m - 1));
      NextCall(m, q, r);
    }
  }

  /** The demo is periodic: two million calls bring a fresh object back to where it was. */
  lemma Periodic(m: nat)
    ensures Run(Fresh, m + 2 * CounterLimit) == Run(Fresh, m)
  {
    var n := m + 2 * CounterLimit;
    RunFromFresh(m);
    RunFromFresh(n);
    var q, r := m / CounterLimit, m % CounterLimit;
    assert n == (q + 2) * CounterLimit + r;
    Arith.DivModUnique(n, CounterLimit, q + 2, r);
    assert StateAfter(q + 2) == StateAfter(q);
  }

  // ---------------------------------------------------------------------
  // The demo's operations
  // ---------------------------------------------------------------------

  /** OBS_CreateObserverDemo: state ON, counter 0, and an empty subject. */
  method CreateObserverDemo(pObj: DemoObj)
    modifies pObj, pObj.Subject
    ensures Demo(pObj.State, pObj.counter) == Fresh
    ensures pObj.Subject.pHead == null && pObj.Subject.cnt == 0
    ensures Linked(pObj.Subject, [])
  {
    pObj.State := ON;
    pObj.counter := 0;
    CreateSubject(pObj.Subject);
  }

  /**
   * OBS_HandleOberverDemo: one call of the state machine. It returns 0, and
   * the callbacks it calls are those of a notification when the counter
   * restarts, and none otherwise.
   */
  method HandleObserverDemo(pObj: DemoObj, ghost chain: seq<Observer>) returns (r: int, calls: seq<nat>)
    requires Linked(pObj.Subject, chain)
    modifies pObj
    ensures r == 0
    ensures Demo(pObj.State, pObj.counter) == Tick(old(Demo(pObj.State, pObj.counter)))
    ensures calls == if Notifies(old(Demo(pObj.State, pObj.counter))) then Callbacks(chain) else []
  {
    pObj.counter := Incremented(pObj.counter);
    calls := [];
    if pObj.counter >= CounterLimit {
      pObj.counter := 0;
      if pObj.State == ON {
        pObj.State := OFF;
      } else {
        pObj.State := ON;
      }
      calls := Notify(pObj.Subject, chain);
    }
    r := 0;
  }

  /** OBS_GetDemoState: reads the state and changes nothing. */
  method GetDemoState(pObj: DemoObj) returns (s: DemoState)
    ensures s == pObj.State
  {
    s := pObj.State;
  }

  /** OBS_AttachObserver: OBS_Attach on the demo's subject. */
  method AttachObserver(pObj: DemoObj, pObserver: Observer, ghost chain: seq<Observer>)
    requires Linked(pObj.Subject, chain) && pObserver !in chain
    modifies pObj.Subject, pObserver, pObj.Subject.pHead
    ensures pObj.Subject.pHead == pObserver && pObj.Subject.cnt == old(pObj.Subject.cnt)
    ensures pObserver.p_next == old(pObj.Subject.pHead) && pObserver.p_prev == null
    ensures pObserver.p_cb == old(pObserver.p_cb)
    ensures old(pObj.Subject.pHead) != null ==>
      old(pObj.Subject.pHead).p_prev == pObserver &&
      old(pObj.Subject.pHead).p_next == old(pObj.Subject.pHead.p_next) &&
      old(pObj.Subject.pHead).p_cb == old(pObj.Subject.pHead.p_cb)
    ensures Linked(pObj.Subject, [pObserver] + chain)
    ensures old(PrevAccurate(chain)) ==> PrevAccurate([pObserver] + chain)
    ensures Callbacks([pObserver] + chain) ==
      (if pObserver.p_cb.Callback? then [pObserver.p_cb.id] else []) + old(Callbacks(chain))
    ensures pObj.State == old(pObj.State) && pObj.counter == old(pObj.counter)
  {
    Attach(pObj.Subject, pObserver, chain);
  }

  /**
   * OBS_DetachObserver: OBS_Detach, as written, on the demo's subject. The
   * pointer writes are those of OBS_Detach; the observer leaves a longer
   * chain only where the back links are accurate, and a sole observer stays.
   */
  method DetachObserver(pObj: DemoObj, pObserver: Observer, ghost chain: seq<Observer>)
    requires Linked(pObj.Subject, chain)
    modifies pObj.Subject, pObserver, pObserver.p_prev
    ensures pObj.Subject.cnt == old(pObj.Subject.cnt)
    ensures old(pObserver.p_prev) == null && old(pObserver.p_next) == null ==>
      pObj.Subject.pHead == old(pObj.Subject.pHead)
    ensures old(pObserver.p_prev) == null && old(pObserver.p_next) != null ==>
      pObj.Subject.pHead == old(pObserver.p_next)
    ensures old(pObserver.p_prev) != null ==> pObj.Subject.pHead == old(pObj.Subject.pHead)
    ensures old(pObserver.p_prev) != null && old(pObserver.p_prev) != pObserver ==>
      old(pObserver.p_prev).p_next == old(pObserver.p_next) &&
      old(pObserver.p_prev).p_prev == old(pObserver.p_prev.p_prev) &&
      old(pObserver.p_prev).p_cb == old(pObserver.p_prev.p_cb)
    ensures pObserver.p_next == null && pObserver.p_prev == null
    ensures pObserver.p_cb == old(pObserver.p_cb)
    ensures forall k :: 0 <= k < |chain| ==> chain[k].p_cb == old(chain[k].p_cb)
    ensures pObserver !in chain && old(pObserver.p_prev) == null && old(pObserver.p_next) == null ==>
      Linked(pObj.Subject, chain)
    ensures chain == [pObserver] ==> Linked(pObj.Subject, chain)
    ensures pObserver in chain && |chain| > 1 && old(PrevAccurate(chain)) ==>
      Linked(pObj.Subject, Without(chain, pObserver))
    ensures pObj.State == old(pObj.State) && pObj.counter == old(pObj.counter)
  {
    Detach(pObj.Subject, pObserver, chain);
  }

  /**
   * OBS_DetachObserver with the corrected detach: the observer leaves the
   * chain and the back links stay accurate.
   */
  method DetachObserverFixed(pObj: DemoObj, pObserver: Observer, ghost chain: seq<Observer>)
    requires Linked(pObj.Subject, chain) && PrevAccurate(chain)
    requires pObserver in chain || (pObserver.p_prev == null && pObserver.p_next == null)
    modifies pObj.Subject, pObserver, pObserver.p_prev, pObserver.p_next
    ensures pObj.Subject.cnt == old(pObj.Subject.cnt)
    ensures pObserver.p_next == null && pObserver.p_prev == null
    ensures forall k :: 0 <= k < |chain| ==> chain[k].p_cb == old(chain[k].p_cb)
    ensures pObserver !in chain ==> Linked(pObj.Subject, chain) && PrevAccurate(chain)
    ensures pObserver in chain ==>
      Linked(pObj.Subject, Without(chain, pObserver)) && PrevAccurate(Without(chain, pObserver))
    ensures pObj.State == old(pObj.State) && pObj.counter == old(pObj.counter)
  {
    DetachFixed(pObj.Subject, pObserver, chain);
  }
}
