/**
 * The subject/observer list of Observer.c: a subject holds the head of a
 * doubly linked list of observers, each with a callback. Observers are
 * pushed at the head, can be unlinked anywhere, and a notification walks
 * the list from the head calling every non-null callback.
 *
 * The list is specified by its forward chain: the sequence of observers
 * reached from pHead along p_next, passed to each operation as a ghost
 * argument. Callbacks are foreign code; a callback is an opaque id and a
 * notification returns the ids it calls, in order.
 */
module Observers {

  /** Observer_cb_t: a null function pointer or an opaque callback id. */
  datatype Callback = NullCallback | Callback(id: nat)

  /** Observer_t, in storage the caller owns. */
  class Observer {
    var p_next: Observer?
    var p_prev: Observer?
    var p_cb: Callback
  }

  /** Subject_t: the head of the observer list and a count field. */
  class Subject {
    var pHead: Observer?
    var cnt: int
  }

  // ---------------------------------------------------------------------
  // The forward chain
  // ---------------------------------------------------------------------

  /**
   * chain is the list of s: pHead is its first element (null when it is
   * empty), each element's p_next is the next one, the last one's p_next
   * is null, and no observer occurs twice.
   */
  ghost predicate Linked(s: Subject, chain: seq<Observer>)
    reads s, chain
  {
    && (if chain == [] then s.pHead == null else s.pHead == chain[0])
    && (forall i :: 0 <= i < |chain| - 1 ==> chain[i].p_next == chain[i + 1])
    && (chain != [] ==> chain[|chain| - 1].p_next == null)
    && (forall i, j :: 0 <= i < j < |chain| ==> chain[i] != chain[j])
  }

  /** The back links of chain are accurate: the head has none, every other element points to its predecessor. */
  ghost predicate PrevAccurate(chain: seq<Observer>)
    reads chain
  {
    && (chain != [] ==> chain[0].p_prev == null)
    && (forall i :: 0 < i < |chain| ==> chain[i].p_prev == chain[i - 1])
  }

  /** The ids a notification calls, in list order: null callbacks are skipped. */
  function Callbacks(chain: seq<Observer>): (ids: seq<nat>)
    reads chain
    ensures |ids| <= |chain|
  {
    if chain == [] then []
    else (if chain[0].p_cb.Callback? then [chain[0].p_cb.id] else []) + Callbacks(chain[1..])
  }

  /** Walking one element further appends that element's callback, if any. */
  lemma {:induction false} CallbacksSnoc(chain: seq<Observer>, o: Observer)
    ensures Callbacks(chain + [o]) == Callbacks(chain) + (if o.p_cb.Callback? then [o.p_cb.id] else [])
  {
    if chain != [] {
      assert (chain + [o])[1..] == chain[1..] + [o];
      CallbacksSnoc(chain[1..], o);
    } else {
      assert [o][1..] == [];
    }
  }

  /** Unlinking the element at index i keeps the order of the others. */
  lemma {:induction false} CallbacksRemove(chain: seq<Observer>, i: nat)
    requires i < |chain|
    ensures Callbacks(chain[..i] + chain[i + 1..]) ==
      Callbacks(chain[..i]) + Callbacks(chain[i + 1..])
    ensures Callbacks(chain) ==
      Callbacks(chain[..i]) + Callbacks([chain[i]]) + Callbacks(chain[i + 1..])
  {
    CallbacksAppend(chain[..i], chain[i + 1..]);
    CallbacksAppend(chain[..i], [chain[i]] + chain[i + 1..]);
    CallbacksAppend([chain[i]], chain[i + 1..]);
    assert chain == chain[..i] + ([chain[i]] + chain[i + 1..]);
  }

  /** Callbacks distributes over concatenation. */
  lemma {:induction false} CallbacksAppend(a: seq<Observer>, b: seq<Observer>)
    ensures Callbacks(a + b) == Callbacks(a) + Callbacks(b)
  {
    if a == [] {
      assert a + b == b;
    } else {
      assert (a + b)[1..] == a[1..] + b;
      CallbacksAppend(a[1..], b);
    }
  }

  // ---------------------------------------------------------------------
  // OBS_CreateSubject, OBS_CreateObserver
  // ---------------------------------------------------------------------

  /** OBS_CreateSubject: an empty list and a zero count. */
  method CreateSubject(pSubject: Subject)
    modifies pSubject
    ensures pSubject.pHead == null && pSubject.cnt == 0
    ensures Linked(pSubject, [])
  {
    pSubject.pHead := null;
    pSubject.cnt := 0;
  }

  /** OBS_CreateObserver: no links and the given callback. */
  method CreateObserver(pObserver: Observer, cb: Callback)
    modifies pObserver
    ensures pObserver.p_next == null && pObserver.p_prev == null && pObserver.p_cb == cb
  {
    pObserver.p_next := null;
    pObserver.p_prev := null;
    pObserver.p_cb := cb;
  }

  // ---------------------------------------------------------------------
  // OBS_Attach
  // ---------------------------------------------------------------------

  /**
   * OBS_Attach: push the observer at the head. The chain gains the
   * observer in front, accurate back links stay accurate, and no callback
   * is called.
   */
  method Attach(pSubject: Subject, pObserver: Observer, ghost chain: seq<Observer>)
    requires Linked(pSubject, chain) && pObserver !in chain
    modifies pSubject, pObserver, pSubject.pHead
    ensures pSubject.pHead == pObserver && pSubject.cnt == old(pSubject.cnt)
    ensures pObserver.p_next == old(pSubject.pHead) && pObserver.p_prev == null
    ensures pObserver.p_cb == old(pObserver.p_cb)
    ensures old(pSubject.pHead) != null ==>
      old(pSubject.pHead).p_prev == pObserver &&
      old(pSubject.pHead).p_next == old(pSubject.pHead.p_next) &&
      old(pSubject.pHead).p_cb == old(pSubject.pHead.p_cb)
    ensures Linked(pSubject, [pObserver] + chain)
    ensures old(PrevAccurate(chain)) ==> PrevAccurate([pObserver] + chain)
    ensures Callbacks([pObserver] + chain) ==
      (if pObserver.p_cb.Callback? then [pObserver.p_cb.id] else []) + old(Callbacks(chain))
  {
    pObserver.p_next := pSubject.pHead;
    pObserver.p_prev := null;
    if pSubject.pHead != null {
      pSubject.pHead.p_prev := pObserver;
    }
    pSubject.pHead := pObserver;
    assert ([pObserver] + chain)[1..] == chain;
  }

  // ---------------------------------------------------------------------
  // OBS_Detach, as written
  // ---------------------------------------------------------------------

  /**
   * OBS_Detach as written. An observer with no links is taken not to be in
   * the list and nothing changes; otherwise an observer without a back link
   * is taken to be the head and pHead moves to its successor, and any other
   * observer is bridged over through its back link. The observer's links
   * are then cleared; the successor's back link is left as it was.
   *
   * An observer outside the chain may still carry links, left over from an
   * earlier detach; the same writes happen through them.
   *
   * On the chain: an observer not in it and without links leaves it as it
   * is; the sole observer of a one-element chain stays in it; an observer
   * of a longer chain with accurate back links is removed from it.
   */
  method Detach(pSubject: Subject, pObserver: Observer, ghost chain: seq<Observer>)
    requires Linked(pSubject, chain)
    modifies pSubject, pObserver, pObserver.p_prev
    ensures pSubject.cnt == old(pSubject.cnt)
    ensures old(pObserver.p_prev) == null && old(pObserver.p_next) == null ==>
      pSubject.pHead == old(pSubject.pHead)
    ensures old(pObserver.p_prev) == null && old(pObserver.p_next) != null ==>
      pSubject.pHead == old(pObserver.p_next)
    ensures old(pObserver.p_prev) != null ==> pSubject.pHead == old(pSubject.pHead)
    ensures old(pObserver.p_prev) != null && old(pObserver.p_prev) != pObserver ==>
      old(pObserver.p_prev).p_next == old(pObserver.p_next) &&
      old(pObserver.p_prev).p_prev == old(pObserver.p_prev.p_prev) &&
      old(pObserver.p_prev).p_cb == old(pObserver.p_prev.p_cb)
    ensures pObserver.p_next == null && pObserver.p_prev == null
    ensures pObserver.p_cb == old(pObserver.p_cb)
    ensures forall k :: 0 <= k < |chain| ==> chain[k].p_cb == old(chain[k].p_cb)
    ensures pObserver !in chain && old(pObserver.p_prev) == null && old(pObserver.p_next) == null ==>
      Linked(pSubject, chain)
    ensures chain == [pObserver] ==> Linked(pSubject, chain)
    ensures pObserver in chain && |chain| > 1 && old(PrevAccurate(chain)) ==>
      Linked(pSubject, Without(chain, pObserver))
  {
    ghost var i: nat := if pObserver in chain then IndexOf(chain, pObserver) else 0;
    if pObserver in chain && PrevAccurate(chain) {
      assert i > 0 ==> pObserver.p_prev == chain[i - 1];
      assert pObserver.p_next == if i + 1 < |chain| then chain[i + 1] else null;
    }
    if pObserver.p_prev == null && pObserver.p_next == null {
      return;
    } else if pObserver.p_prev == null {
      pSubject.pHead := pObserver.p_next;
    } else {
      pObserver.p_prev.p_next := pObserver.p_next;
    }
    pObserver.p_next := null;
    pObserver.p_prev := null;
    if pObserver in chain && |chain| > 1 && old(PrevAccurate(chain)) {
      UnlinkedChain(pSubject, chain, i);
    }
  }

  /**
   * The links after unlinking the element at index i: pHead and the
   * predecessor's p_next skip it, and every other link is as before.
   */
  lemma UnlinkedChain(s: Subject, chain: seq<Observer>, i: nat)
    requires i < |chain| && |chain| > 1
    requires forall a, b :: 0 <= a < b < |chain| ==> chain[a] != chain[b]
    requires i == 0 ==> s.pHead == chain[1]
    requires i > 0 ==> (s.pHead == chain[0] &&
      chain[i - 1].p_next == (if i + 1 < |chain| then chain[i + 1] else null))
    requires forall k :: 0 <= k < |chain| - 1 && k != i && k + 1 != i ==> chain[k].p_next == chain[k + 1]
    requires i != |chain| - 1 ==> chain[|chain| - 1].p_next == null
    ensures Linked(s, chain[..i] + chain[i + 1..])
  {
    var w := chain[..i] + chain[i + 1..];
    assert forall k :: 0 <= k < i ==> w[k] == chain[k];
    assert forall k :: i <= k < |w| ==> w[k] == chain[k + 1];
  }

  /**
   * The back links after unlinking the element at index i: the successor
   * points back to the predecessor (or has no back link when it becomes the
   * head), and every other back link is as before.
   */
  lemma UnlinkedBackLinks(chain: seq<Observer>, i: nat)
    requires i < |chain|
    requires i == 0 && 1 < |chain| ==> chain[1].p_prev == null
    requires 0 < i && i + 1 < |chain| ==> chain[i + 1].p_prev == chain[i - 1]
    requires i != 0 ==> chain[0].p_prev == null
    requires forall k :: 0 < k < |chain| && k != i && k != i + 1 ==> chain[k].p_prev == chain[k - 1]
    ensures PrevAccurate(chain[..i] + chain[i + 1..])
  {
    var w := chain[..i] + chain[i + 1..];
    assert forall k :: 0 <= k < i ==> w[k] == chain[k];
    assert forall k :: i <= k < |w| ==> w[k] == chain[k + 1];
  }

  // ---------------------------------------------------------------------
  // OBS_Detach, corrected
  // ---------------------------------------------------------------------

  /**
   * OBS_Detach as evidently intended: an observer is in the list when it
   * has a back link or is the head, and unlinking it also points its
   * successor back to its predecessor. The observer leaves the chain, the
   * back links stay accurate, and the callbacks are untouched.
   */
  method DetachFixed(pSubject: Subject, pObserver: Observer, ghost chain: seq<Observer>)
    requires Linked(pSubject, chain) && PrevAccurate(chain)
    requires pObserver in chain || (pObserver.p_prev == null && pObserver.p_next == null)
    modifies pSubject, pObserver, pObserver.p_prev, pObserver.p_next
    ensures pSubject.cnt == old(pSubject.cnt)
    ensures pObserver.p_next == null && pObserver.p_prev == null
    ensures forall k :: 0 <= k < |chain| ==> chain[k].p_cb == old(chain[k].p_cb)
    ensures pObserver !in chain ==> Linked(pSubject, chain) && PrevAccurate(chain)
    ensures pObserver in chain ==>
      Linked(pSubject, Without(chain, pObserver)) && PrevAccurate(Without(chain, pObserver))
  {
    ghost var i: nat := if pObserver in chain then IndexOf(chain, pObserver) else 0;
    if pObserver in chain {
      assert i > 0 ==> pObserver.p_prev == chain[i - 1];
      assert i == 0 ==> pObserver.p_prev == null;
      assert pObserver.p_next == if i + 1 < |chain| then chain[i + 1] else null;
    }
    if pObserver.p_prev == null && pSubject.pHead != pObserver {
      return;
    }
    if pObserver.p_prev == null {
      pSubject.pHead := pObserver.p_next;
    } else {
      pObserver.p_prev.p_next := pObserver.p_next;
    }
    if pObserver.p_next != null {
      pObserver.p_next.p_prev := pObserver.p_prev;
    }
    pObserver.p_next := null;
    pObserver.p_prev := null;
    if |chain| > 1 {
      UnlinkedChain(pSubject, chain, i);
      UnlinkedBackLinks(chain, i);
    }
  }

  /** The position of an observer in a chain. */
  function IndexOf(chain: seq<Observer>, o: Observer): (i: nat)
    requires o in chain
    ensures i < |chain| && chain[i] == o
  {
    if chain[0] == o then 0 else 1 + IndexOf(chain[1..], o)
  }

  /** The chain with the observer o unlinked. */
  function Without(chain: seq<Observer>, o: Observer): (r: seq<Observer>)
    requires o in chain
    ensures |r| == |chain| - 1
  {
    var i := IndexOf(chain, o);
    chain[..i] + chain[i + 1..]
  }

  /** Without, element by element: the elements before o stay, the ones after move up by one. */
  lemma WithoutIndex(chain: seq<Observer>, o: Observer)
    requires o in chain
    ensures var i := IndexOf(chain, o);
      (forall k :: 0 <= k < i ==> Without(chain, o)[k] == chain[k]) &&
      (forall k :: i <= k < |chain| - 1 ==> Without(chain, o)[k] == chain[k + 1])
  {
  }

  // ---------------------------------------------------------------------
  // OBS_Notify
  // ---------------------------------------------------------------------

  /**
   * OBS_Notify: walk the chain from pHead and call every non-null
   * callback once, in list order; nothing is changed.
   */
  method Notify(pSubject: Subject, ghost chain: seq<Observer>) returns (calls: seq<nat>)
    requires Linked(pSubject, chain)
    ensures calls == Callbacks(chain)
  {
    var pTmp := pSubject.pHead;
    calls := [];
    ghost var i := 0;
    while pTmp != null
      invariant 0 <= i <= |chain|
      invariant pTmp == if i < |chain| then chain[i] else null
      invariant calls == Callbacks(chain[..i])
      decreases |chain| - i
    {
      CallbacksSnoc(chain[..i], pTmp);
      assert chain[..i + 1] == chain[..i] + [pTmp];
      if pTmp.p_cb.Callback? {
        calls := calls + [pTmp.p_cb.id];
      }
      pTmp := pTmp.p_next;
      i := i + 1;
    }
    assert chain[..i] == chain;
  }

  // ---------------------------------------------------------------------
  // The unit tests' call sequences
  //
  // Callbacks 1, 2 and 3 belong to observers 1, 2 and 3. Each scenario
  // returns the callback ids every notification calls, in order; a call
  // counter of the tests is the number of times an id occurs.
  // ---------------------------------------------------------------------

  /** One step of Callbacks: the head's callback, then the rest's. */
  lemma CallbacksCons(o: Observer, rest: seq<Observer>)
    ensures Callbacks([o] + rest) == (if o.p_cb.Callback? then [o.p_cb.id] else []) + Callbacks(rest)
  {
    assert ([o] + rest)[1..] == rest;
  }

  /** The notifications of a two-element and a one-element chain with non-null callbacks. */
  lemma CallbacksPair(a: Observer, b: Observer)
    requires a.p_cb.Callback? && b.p_cb.Callback?
    ensures Callbacks([a, b]) == [a.p_cb.id, b.p_cb.id]
    ensures Callbacks([b]) == [b.p_cb.id]
  {
    CallbacksCons(b, []);
    CallbacksCons(a, [b]);
    assert [a] + [b] == [a, b];
  }

  /**
   * A subject with observers 1 and 2 attached in that order: observer 2
   * is the head, and the back links are accurate.
   */
  method AttachTwo() returns (s: Subject, o1: Observer, o2: Observer)
    ensures fresh(s) && fresh(o1) && fresh(o2)
    ensures Linked(s, [o2, o1]) && o2.p_prev == null && o1.p_prev == o2
    ensures o1.p_cb == Callback(1) && o2.p_cb == Callback(2)
  {
    s := new Subject;
    CreateSubject(s);
    o1 := new Observer;
    o2 := new Observer;
    CreateObserver(o1, Callback(1));
    CreateObserver(o2, Callback(2));
    Attach(s, o1, []);
    assert [o1] + [] == [o1];
    Attach(s, o2, [o1]);
    assert [o2] + [o1] == [o2, o1];
  }

  /**
   * A subject with observers 1, 2 and 3 attached in that order: observer 3
   * is the head, and the back links are accurate.
   */
  method AttachThree() returns (s: Subject, o1: Observer, o2: Observer, o3: Observer)
    ensures fresh(s) && fresh(o1) && fresh(o2) && fresh(o3)
    ensures Linked(s, [o3, o2, o1]) && PrevAccurate([o3, o2, o1])
    ensures o3.p_prev == null && o2.p_prev == o3 && o1.p_prev == o2
    ensures o1.p_cb == Callback(1) && o2.p_cb == Callback(2) && o3.p_cb == Callback(3)
  {
    s, o1, o2 := AttachTwo();
    o3 := new Observer;
    CreateObserver(o3, Callback(3));
    Attach(s, o3, [o2, o1]);
    assert [o3] + [o2, o1] == [o3, o2, o1];
  }

  /** AttachSingleObserverAndNotify: every notification calls observer 1 once. */
  method AttachOneNotifyTwice() returns (first: seq<nat>, second: seq<nat>)
    ensures first == [1] && second == [1]
  {
    var s := new Subject;
    CreateSubject(s);
    var o1 := new Observer;
    CreateObserver(o1, Callback(1));
    Attach(s, o1, []);
    assert [o1] + [] == [o1];
    CallbacksCons(o1, []);
    first := Notify(s, [o1]);
    second := Notify(s, [o1]);
  }

  /** AttachMultipleObserversAndNotify: one notification calls 3, 2 and 1 once each, newest first. */
  method AttachThreeNotify() returns (calls: seq<nat>)
    ensures calls == [3, 2, 1]
  {
    var s, o1, o2, o3 := AttachThree();
    CallbacksPair(o2, o1);
    CallbacksCons(o3, [o2, o1]);
    assert [o3] + [o2, o1] == [o3, o2, o1];
    calls := Notify(s, [o3, o2, o1]);
  }

  /** DetachFirstObserverAndNotify: after observer 3, the head, is detached, only 2 and 1 are called. */
  method DetachHeadNotify() returns (calls: seq<nat>)
    ensures calls == [2, 1]
  {
    var s, o1, o2, o3 := AttachThree();
    Detach(s, o3, [o3, o2, o1]);
    assert Without([o3, o2, o1], o3) == [o2, o1];
    CallbacksPair(o2, o1);
    calls := Notify(s, [o2, o1]);
  }

  /** DetachMiddleObserverAndNotify: after observer 2 is detached, only 3 and 1 are called. */
  method DetachMiddleNotify() returns (calls: seq<nat>)
    ensures calls == [3, 1]
  {
    var s, o1, o2, o3 := AttachThree();
    Detach(s, o2, [o3, o2, o1]);
    assert Without([o3, o2, o1], o2) == [o3, o1];
    CallbacksPair(o3, o1);
    calls := Notify(s, [o3, o1]);
  }

  /** DetachLastObserverAndNotify: after observer 1, the tail, is detached, only 3 and 2 are called. */
  method DetachTailNotify() returns (calls: seq<nat>)
    ensures calls == [3, 2]
  {
    var s, o1, o2, o3 := AttachThree();
    Detach(s, o1, [o3, o2, o1]);
    assert Without([o3, o2, o1], o1) == [o3, o2];
    CallbacksPair(o3, o2);
    calls := Notify(s, [o3, o2]);
  }

  /** DetachMultipleObserversAndNotify: after detaching 1 and then 3, only 2 is called. */
  method DetachTwoNotify() returns (calls: seq<nat>)
    ensures calls == [2]
  {
    var s, o1, o2, o3 := AttachThree();
    Detach(s, o1, [o3, o2, o1]);
    assert Without([o3, o2, o1], o1) == [o3, o2];
    Detach(s, o3, [o3, o2]);
    assert Without([o3, o2], o3) == [o2];
    CallbacksPair(o3, o2);
    calls := Notify(s, [o2]);
  }

  /** DetachAlreadyDetachedObserverAndNotify: detaching observer 1 a second time changes nothing. */
  method DetachTwiceNotify() returns (calls: seq<nat>)
    ensures calls == [3, 2]
  {
    var s, o1, o2, o3 := AttachThree();
    Detach(s, o1, [o3, o2, o1]);
    assert Without([o3, o2, o1], o1) == [o3, o2];
    Detach(s, o1, [o3, o2]);
    CallbacksPair(o3, o2);
    calls := Notify(s, [o3, o2]);
  }

  // ---------------------------------------------------------------------
  // Detaching the sole observer, and detaching after a head was removed
  // ---------------------------------------------------------------------

  /**
   * As written, the sole attached observer has neither link, so Detach
   * takes it for a detached one: it is still called afterwards.
   */
  method DetachSoleAsWritten() returns (calls: seq<nat>)
    ensures calls == [1]
  {
    var s := new Subject;
    CreateSubject(s);
    var o1 := new Observer;
    CreateObserver(o1, Callback(1));
    Attach(s, o1, []);
    assert [o1] + [] == [o1];
    Detach(s, o1, [o1]);
    CallbacksCons(o1, []);
    calls := Notify(s, [o1]);
  }

  /** Corrected, detaching the sole observer empties the list. */
  method DetachSoleFixed() returns (calls: seq<nat>)
    ensures calls == []
  {
    var s := new Subject;
    CreateSubject(s);
    var o1 := new Observer;
    CreateObserver(o1, Callback(1));
    Attach(s, o1, []);
    assert [o1] + [] == [o1];
    DetachFixed(s, o1, [o1]);
    assert Without([o1], o1) == [];
    calls := Notify(s, []);
  }

  /**
   * As written, detaching the head leaves its successor's back link
   * pointing at it. With observers 2 (head) and 1: detach 2, then detach
   * 1, now the head without a valid back link; Detach bridges through the
   * stale link instead of moving the head, and observer 1 is still called.
   */
  method StaleBackLinkAsWritten() returns (calls: seq<nat>)
    ensures calls == [1]
  {
    var s, o1, o2 := AttachTwo();
    Detach(s, o2, [o2, o1]);
    assert Without([o2, o1], o2) == [o1];
    assert o1.p_prev == o2;
    Detach(s, o1, [o1]);
    CallbacksCons(o1, []);
    calls := Notify(s, [o1]);
  }

  /** Corrected, the same calls leave the list empty. */
  method StaleBackLinkFixed() returns (calls: seq<nat>)
    ensures calls == []
  {
    var s, o1, o2 := AttachTwo();
    DetachFixed(s, o2, [o2, o1]);
    assert Without([o2, o1], o2) == [o1];
    DetachFixed(s, o1, [o1]);
    assert Without([o1], o1) == [];
    calls := Notify(s, []);
  }

  /**
   * A subject whose head and its successor point at each other has no
   * forward chain: every walk from pHead alternates between them and never
   * reaches a null p_next.
   */
  lemma NoChainOnCycle(s: Subject, a: Observer, b: Observer)
    requires s.pHead == a && a.p_next == b && b.p_next == a
    ensures forall chain :: !Linked(s, chain)
  {
    forall chain | Linked(s, chain)
      ensures false
    {
      CycleMembers(s, a, b, chain, |chain| - 1);
    }
  }

  /** On such a subject, every element of a linked chain is one of the two. */
  lemma {:induction false} CycleMembers(s: Subject, a: Observer, b: Observer, chain: seq<Observer>, k: nat)
    requires s.pHead == a && a.p_next == b && b.p_next == a
    requires Linked(s, chain) && k < |chain|
    ensures chain[k] == a || chain[k] == b
  {
    if k > 0 {
      CycleMembers(s, a, b, chain, k - 1);
      assert chain[k - 1].p_next == chain[k];
    }
  }

  /** The links of a three-element chain, spelled out. */
  lemma LinkedThree(s: Subject, a: Observer, b: Observer, c: Observer)
    requires Linked(s, [a, b, c])
    ensures s.pHead == a && a.p_next == b && b.p_next == c && c.p_next == null
    ensures a != b && a != c && b != c
  {
    assert [a, b, c][0] == a && [a, b, c][1] == b && [a, b, c][2] == c;
  }

  /**
   * As written: with observers 3, 2, 1, detach 2 and attach it again. The
   * list is 2, 3, 1, but observer 1 keeps its back link to 2.
   */
  method CyclePrefixAsWritten() returns (s: Subject, o1: Observer, o2: Observer, o3: Observer)
    ensures fresh(s) && fresh(o1) && fresh(o2) && fresh(o3)
    ensures Linked(s, [o2, o3, o1])
    ensures o2.p_prev == null && o3.p_prev == o2 && o1.p_prev == o2
  {
    s, o1, o2, o3 := AttachThree();
    Detach(s, o2, [o3, o2, o1]);
    assert Without([o3, o2, o1], o2) == [o3, o1];
    Attach(s, o2, [o3, o1]);
    assert [o2] + [o3, o1] == [o2, o3, o1];
  }

  /**
   * As written, a detach through a leftover link can close the list into a
   * cycle, after which OBS_Notify walks forever. With observers 3, 2, 1:
   * detach 2 (observer 1 keeps its back link to 2), attach 2, detach 1
   * (bridges through that link, leaving 3 outside the list with its links),
   * attach 1, detach 3 (bridges 2 back to 1). No observer is attached
   * while listed and none is detached twice.
   */
  method CycleAsWritten() returns (s: Subject, o1: Observer, o2: Observer)
    ensures s.pHead == o1 && o1.p_next == o2 && o2.p_next == o1
    ensures forall chain :: !Linked(s, chain)
  {
    var o3;
    s, o1, o2, o3 := CyclePrefixAsWritten();
    LinkedThree(s, o2, o3, o1);
    Detach(s, o1, [o2, o3, o1]);
    assert s.pHead == o2 && o2.p_next == null;
    Attach(s, o1, [o2]);
    Detach(s, o3, [o1, o2]);
    NoChainOnCycle(s, o1, o2);
  }

  /** Corrected: with observers 3, 2, 1, detach 2 and attach it again; the list is 2, 3, 1. */
  method CyclePrefixFixed() returns (s: Subject, o1: Observer, o2: Observer, o3: Observer)
    ensures fresh(s) && fresh(o1) && fresh(o2) && fresh(o3)
    ensures Linked(s, [o2, o3, o1]) && PrevAccurate([o2, o3, o1])
    ensures o2.p_prev == null && o3.p_prev == o2 && o1.p_prev == o3
    ensures o1.p_cb == Callback(1) && o2.p_cb == Callback(2) && o3.p_cb == Callback(3)
  {
    s, o1, o2, o3 := AttachThree();
    LinkedThree(s, o3, o2, o1);
    DetachFixed(s, o2, [o3, o2, o1]);
    assert Without([o3, o2, o1], o2) == [o3, o1];
    Attach(s, o2, [o3, o1]);
    assert [o2] + [o3, o1] == [o2, o3, o1];
  }

  /** Corrected, the same calls leave observers 1 and 2 listed, in that order. */
  method CycleFixed() returns (calls: seq<nat>)
    ensures calls == [1, 2]
  {
    var s, o1, o2, o3 := CyclePrefixFixed();
    LinkedThree(s, o2, o3, o1);
    DetachFixed(s, o1, [o2, o3, o1]);
    assert Without([o2, o3, o1], o1) == [o2, o3];
    Attach(s, o1, [o2, o3]);
    assert [o1] + [o2, o3] == [o1, o2, o3];
    LinkedThree(s, o1, o2, o3);
    DetachFixed(s, o3, [o1, o2, o3]);
    assert Without([o1, o2, o3], o3) == [o1, o2];
    CallbacksPair(o1, o2);
    calls := Notify(s, [o1, o2]);
  }
}
