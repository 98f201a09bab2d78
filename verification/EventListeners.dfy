/**
 AampEventManager's listener registrations: one linked list per event type, newest first, and the
 synchronous dispatch that copies two lists under the lock and then calls the copies. The nodes live
 in an explicit store, so that a deleted node is one that is no longer there.
 */
module EventListeners {
  import opened Prelude

  type Listener = nat

  const ALL_EVENTS := 0
  const MAX_NUM_EVENTS := 48

  predicate InRange(eventType: int) { ALL_EVENTS <= eventType < MAX_NUM_EVENTS }

  /** A registration or deregistration for one event type. */
  datatype Op = Add(eventType: int, l: Listener) | Remove(eventType: int, l: Listener)

  function Applied(ls: seq<Listener>, op: Op): seq<Listener>
  {
    if op.Add? then ls + [op.l] else WithoutNewest(ls, op.l)
  }

  /** The registrations in force for a type, in the order they were made. */
  function Registered(history: seq<Op>, t: int): seq<Listener>
  {
    if history == [] then []
    else
      var before := Registered(history[..|history| - 1], t);
      if history[|history| - 1].eventType == t then Applied(before, history[|history| - 1]) else before
  }

  /** The changes that count: those for a known event type. */
  function Effective(changes: seq<Op>): seq<Op>
  {
    if changes == [] then []
    else
      var last := changes[|changes| - 1];
      Effective(changes[..|changes| - 1]) + (if ALL_EVENTS <= last.eventType < MAX_NUM_EVENTS then [last] else [])
  }

  /** The changes that count of the first n handlers called. */
  function EffectiveOf(changes: seq<seq<Op>>, n: nat): seq<Op>
  {
    if n == 0 then [] else EffectiveOf(changes, n - 1) + (if n <= |changes| then Effective(changes[n - 1]) else [])
  }

  lemma HandlerDone(history: seq<Op>, changes: seq<seq<Op>>, n: nat)
    ensures history + EffectiveOf(changes, n + 1) ==
            (history + EffectiveOf(changes, n)) + (if n < |changes| then Effective(changes[n]) else [])
    ensures history + EffectiveOf(changes, 0) == history
  {
  }

  /** Without the newest (last) registration of l, if there is one. */
  function WithoutNewest(ls: seq<Listener>, l: Listener): seq<Listener>
  {
    if ls == [] then []
    else if ls[|ls| - 1] == l then ls[..|ls| - 1]
    else WithoutNewest(ls[..|ls| - 1], l) + [ls[|ls| - 1]]
  }

  function Reversed(ls: seq<Listener>): (r: seq<Listener>)
    ensures |r| == |ls|
    ensures forall i :: 0 <= i < |ls| ==> r[i] == ls[|ls| - 1 - i]
  {
    if ls == [] then [] else [ls[|ls| - 1]] + Reversed(ls[..|ls| - 1])
  }

  /** The index of the first l, or the length. */
  function IndexOf(ls: seq<Listener>, l: Listener): (i: nat)
    ensures i <= |ls| && (i < |ls| ==> ls[i] == l) && forall j :: 0 <= j < i ==> ls[j] != l
  {
    if ls == [] || ls[0] == l then 0 else 1 + IndexOf(ls[1..], l)
  }

  function Without(ls: seq<Listener>, i: nat): seq<Listener> { if i < |ls| then ls[..i] + ls[i + 1..] else ls }

  /** Dropping the first match of the newest-first list drops the newest registration. */
  lemma {:induction false} FirstIsNewest(ls: seq<Listener>, l: Listener)
    ensures Without(Reversed(ls), IndexOf(Reversed(ls), l)) == Reversed(WithoutNewest(ls, l))
  {
    if ls != [] {
      var last, rest := ls[|ls| - 1], ls[..|ls| - 1];
      ReversedAppend(rest, last);
      assert rest + [last] == ls;
      if last == l {
        assert ([last] + Reversed(rest))[1..] == Reversed(rest);
      } else {
        FirstIsNewest(rest, l);
        ReversedAppend(WithoutNewest(rest, l), last);
        SkipHead(last, Reversed(rest), l);
      }
    }
  }

  lemma SkipHead(head: Listener, ls: seq<Listener>, l: Listener)
    requires head != l
    ensures Without([head] + ls, IndexOf([head] + ls, l)) == [head] + Without(ls, IndexOf(ls, l))
  {
    hide Without;
    assert ([head] + ls)[1..] == ls;
    SkipOne(head, ls, IndexOf(ls, l));
  }

  lemma SkipOne(head: Listener, ls: seq<Listener>, i: nat)
    ensures Without([head] + ls, i + 1) == [head] + Without(ls, i)
  {
    if i < |ls| {
      assert ([head] + ls)[..i + 1] == [head] + ls[..i];
      assert ([head] + ls)[i + 2..] == ls[i + 1..];
      calc {
        Without([head] + ls, i + 1);
        ([head] + ls[..i]) + ls[i + 1..];
        [head] + (ls[..i] + ls[i + 1..]);
      }
    }
  }

  lemma HistoryGrows(history: seq<Op>, op: Op, t: int)
    ensures Registered(history + [op], t) ==
            if op.eventType == t then Applied(Registered(history, t), op) else Registered(history, t)
  {
    assert (history + [op])[..|history|] == history;
  }

  lemma ReversedAppend(ls: seq<Listener>, l: Listener)
    ensures Reversed(ls + [l]) == [l] + Reversed(ls)
  {
    assert (ls + [l])[..|ls|] == ls;
  }

  lemma ReversedTwice(ls: seq<Listener>)
    ensures Reversed(Reversed(ls)) == ls
  {
  }

  lemma IndexIs(ls: seq<Listener>, l: Listener, i: nat)
    requires i <= |ls| && (i < |ls| ==> ls[i] == l) && forall j :: 0 <= j < i ==> ls[j] != l
    ensures IndexOf(ls, l) == i
  {
  }

  // ---------------------------------------------------------------- the linked lists

  type Ptr = nat

  datatype ListenerData = ListenerData(eventListener: Listener, pNext: Option<Ptr>)

  type Store = map<Ptr, ListenerData>

  function Nth(ptrs: seq<Ptr>, i: nat): Option<Ptr> { if i < |ptrs| then Some(ptrs[i]) else None }

  /** Following pNext from the head visits exactly these nodes, all of them alive, and then ends. */
  ghost predicate Chain(store: Store, head: Option<Ptr>, ptrs: seq<Ptr>)
  {
    head == Nth(ptrs, 0) && forall i :: 0 <= i < |ptrs| ==> ptrs[i] in store && store[ptrs[i]].pNext == Nth(ptrs, i + 1)
  }

  ghost predicate Distinct(ptrs: seq<Ptr>) { forall i, j :: 0 <= i < j < |ptrs| ==> ptrs[i] != ptrs[j] }

  /** The nodes hold these listeners, in this order. */
  ghost predicate Holds(store: Store, ptrs: seq<Ptr>, ls: seq<Listener>)
  {
    |ls| == |ptrs| && forall i :: 0 <= i < |ptrs| ==> ptrs[i] in store && store[ptrs[i]].eventListener == ls[i]
  }

  /** The list of type t: an intact chain of its own nodes that holds the registrations, newest first. */
  ghost predicate ListFine(store: Store, head: Option<Ptr>, ptrs: seq<Ptr>, owner: map<Ptr, int>, t: int, ls: seq<Listener>)
  {
    && Chain(store, head, ptrs) && Distinct(ptrs) && Holds(store, ptrs, Reversed(ls))
    && forall i :: 0 <= i < |ptrs| ==> ptrs[i] in owner && owner[ptrs[i]] == t
  }

  /** A list stays fine while its own nodes do. */
  lemma ListKept(store: Store, store': Store, head: Option<Ptr>, ptrs: seq<Ptr>,
                 owner: map<Ptr, int>, owner': map<Ptr, int>, t: int, ls: seq<Listener>)
    requires ListFine(store, head, ptrs, owner, t, ls)
    requires forall p :: p in owner && owner[p] == t && p in store ==>
               p in store' && store'[p] == store[p] && p in owner' && owner'[p] == t
    ensures ListFine(store', head, ptrs, owner', t, ls)
  {
    forall i | 0 <= i < |ptrs|
      ensures ptrs[i] in store' && store'[ptrs[i]] == store[ptrs[i]] && ptrs[i] in owner' && owner'[ptrs[i]] == t
    {
      assert ptrs[i] in owner;
    }
  }

  lemma ChainLonger(store: Store, head: Option<Ptr>, ptrs: seq<Ptr>, p: Ptr, l: Listener)
    requires Chain(store, head, ptrs) && p !in store
    ensures Chain(store[p := ListenerData(l, head)], Some(p), [p] + ptrs)
  {
    var longer, store' := [p] + ptrs, store[p := ListenerData(l, head)];
    forall i | 0 <= i < |longer| ensures longer[i] in store' && store'[longer[i]].pNext == Nth(longer, i + 1) {
      if i > 0 { assert longer[i] == ptrs[i - 1]; }
    }
  }

  lemma HoldsMore(store: Store, ptrs: seq<Ptr>, ls: seq<Listener>, p: Ptr, d: ListenerData)
    requires Holds(store, ptrs, ls) && p !in store
    ensures Holds(store[p := d], [p] + ptrs, [d.eventListener] + ls)
  {
    var longer := [p] + ptrs;
    forall i | 0 < i < |longer| ensures longer[i] in store { assert longer[i] == ptrs[i - 1]; }
  }

  lemma DistinctMore(store: Store, head: Option<Ptr>, ptrs: seq<Ptr>, p: Ptr)
    requires Chain(store, head, ptrs) && Distinct(ptrs) && p !in store
    ensures Distinct([p] + ptrs)
  {
    var longer := [p] + ptrs;
    forall i, j | 0 <= i < j < |longer| ensures longer[i] != longer[j] {
      assert longer[j] == ptrs[j - 1] && ptrs[j - 1] in store;
    }
  }

  lemma AddedFine(store: Store, head: Option<Ptr>, ptrs: seq<Ptr>, owner: map<Ptr, int>, history: seq<Op>, op: Op, p: Ptr)
    requires op.Add? && ListFine(store, head, ptrs, owner, op.eventType, Registered(history, op.eventType)) && p !in store
    ensures ListFine(store[p := ListenerData(op.l, head)], Some(p), [p] + ptrs, owner[p := op.eventType], op.eventType,
                     Registered(history + [op], op.eventType))
  {
    hide Chain, Holds, Distinct, Reversed, Registered;
    HistoryGrows(history, op, op.eventType);
    ReversedAppend(Registered(history, op.eventType), op.l);
    ChainLonger(store, head, ptrs, p, op.l);
    HoldsMore(store, ptrs, Reversed(Registered(history, op.eventType)), p, ListenerData(op.l, head));
    DistinctMore(store, head, ptrs, p);
    var longer, owner' := [p] + ptrs, owner[p := op.eventType];
    forall i | 0 <= i < |longer| ensures longer[i] in owner' && owner'[longer[i]] == op.eventType {
      if i > 0 { assert longer[i] == ptrs[i - 1]; }
    }
  }

  function Dropped(ptrs: seq<Ptr>, i: nat): seq<Ptr>
    requires i < |ptrs|
  {
    ptrs[..i] + ptrs[i + 1..]
  }

  /** *ppLast = pListener->pNext with ppLast in the previous node, if any; then pListener is deleted. */
  function Unlinked(store: Store, previous: Option<Ptr>, p: Ptr): Store
    requires p in store && (previous.Some? ==> previous.value in store)
  {
    (if previous.Some? then store[previous.value := store[previous.value].(pNext := store[p].pNext)] else store) - {p}
  }

  function Before(ptrs: seq<Ptr>, i: nat): Option<Ptr>
    requires i <= |ptrs|
  {
    if i == 0 then None else Some(ptrs[i - 1])
  }

  lemma DroppedAt(ptrs: seq<Ptr>, i: nat, j: nat)
    requires i < |ptrs| && j < |ptrs| - 1
    ensures |Dropped(ptrs, i)| == |ptrs| - 1 && Dropped(ptrs, i)[j] == ptrs[if j < i then j else j + 1]
  {
  }

  lemma DroppedIsDistinct(ptrs: seq<Ptr>, i: nat)
    requires i < |ptrs| && Distinct(ptrs)
    ensures Distinct(Dropped(ptrs, i)) && forall p :: p in Dropped(ptrs, i) ==> p in ptrs && p != ptrs[i]
  {
  }

  lemma ChainShorter(store: Store, head: Option<Ptr>, ptrs: seq<Ptr>, i: nat)
    requires Chain(store, head, ptrs) && Distinct(ptrs) && i < |ptrs|
    ensures Chain(Unlinked(store, Before(ptrs, i), ptrs[i]), if i == 0 then Nth(ptrs, 1) else head, Dropped(ptrs, i))
  {
    var rest, store' := Dropped(ptrs, i), Unlinked(store, Before(ptrs, i), ptrs[i]);
    forall j | 0 <= j < |rest| ensures rest[j] in store' && store'[rest[j]].pNext == Nth(rest, j + 1) {
      DroppedAt(ptrs, i, j);
      if j + 1 < |rest| { DroppedAt(ptrs, i, j + 1); }
      var k := if j < i then j else j + 1;
      assert ptrs[k] != ptrs[i] && (i > 0 && k != i - 1 ==> ptrs[k] != ptrs[i - 1]);
    }
  }

  lemma HoldsLess(store: Store, ptrs: seq<Ptr>, ls: seq<Listener>, i: nat)
    requires Holds(store, ptrs, ls) && Distinct(ptrs) && i < |ptrs|
    ensures Holds(Unlinked(store, Before(ptrs, i), ptrs[i]), Dropped(ptrs, i), Without(ls, i))
  {
    var rest, store' := Dropped(ptrs, i), Unlinked(store, Before(ptrs, i), ptrs[i]);
    forall j | 0 <= j < |rest| ensures rest[j] in store' && store'[rest[j]].eventListener == Without(ls, i)[j] {
      DroppedAt(ptrs, i, j);
      assert ptrs[if j < i then j else j + 1] != ptrs[i];
    }
  }

  /** What the walk along a list has found: the first node that holds l, or its end. */
  ghost predicate Found(store: Store, ptrs: seq<Ptr>, l: Listener, i: nat)
  {
    && i <= |ptrs| && (forall j :: 0 <= j < |ptrs| ==> ptrs[j] in store)
    && (i < |ptrs| ==> store[ptrs[i]].eventListener == l)
    && forall j :: 0 <= j < i ==> store[ptrs[j]].eventListener != l
  }

  /** The registrations after a removal, as the list has them. */
  lemma RemovedNames(store: Store, ptrs: seq<Ptr>, history: seq<Op>, op: Op, i: nat)
    requires op.Remove? && Holds(store, ptrs, Reversed(Registered(history, op.eventType))) && Found(store, ptrs, op.l, i)
    ensures Reversed(Registered(history + [op], op.eventType)) == Without(Reversed(Registered(history, op.eventType)), i)
  {
    hide Reversed, Registered;
    HistoryGrows(history, op, op.eventType);
    FirstIsNewest(Registered(history, op.eventType), op.l);
    IndexIs(Reversed(Registered(history, op.eventType)), op.l, i);
  }

  lemma RemovedFine(store: Store, head: Option<Ptr>, ptrs: seq<Ptr>, owner: map<Ptr, int>, history: seq<Op>, op: Op, i: nat)
    requires op.Remove? && ListFine(store, head, ptrs, owner, op.eventType, Registered(history, op.eventType))
    requires Found(store, ptrs, op.l, i) && i < |ptrs|
    ensures ListFine(Unlinked(store, Before(ptrs, i), ptrs[i]), if i == 0 then Nth(ptrs, 1) else head, Dropped(ptrs, i),
                     owner - {ptrs[i]}, op.eventType, Registered(history + [op], op.eventType))
  {
    hide Chain, Holds, Distinct, Reversed, Registered, Unlinked, Dropped;
    RemovedNames(store, ptrs, history, op, i);
    ChainShorter(store, head, ptrs, i);
    HoldsLess(store, ptrs, Reversed(Registered(history, op.eventType)), i);
    DroppedIsDistinct(ptrs, i);
    var rest, owner' := Dropped(ptrs, i), owner - {ptrs[i]};
    forall j | 0 <= j < |rest| ensures rest[j] in owner' && owner'[rest[j]] == op.eventType {
      assert rest[j] in rest;
    }
  }

  lemma NotFoundFine(store: Store, head: Option<Ptr>, ptrs: seq<Ptr>, owner: map<Ptr, int>, history: seq<Op>, op: Op)
    requires op.Remove? && ListFine(store, head, ptrs, owner, op.eventType, Registered(history, op.eventType))
    requires Found(store, ptrs, op.l, |ptrs|)
    ensures ListFine(store, head, ptrs, owner, op.eventType, Registered(history + [op], op.eventType))
  {
    hide Chain, Distinct, Reversed, Registered;
    RemovedNames(store, ptrs, history, op, |ptrs|);
  }

  // ---------------------------------------------------------------- a dispatch's list of copies

  /** The copies in hand see nothing of a change. */
  ghost predicate SameNodes(store: Store, store': Store, held: set<Ptr>)
  {
    forall p :: p in held && p in store ==> p in store' && store'[p] == store[p]
  }

  ghost function Elements(ptrs: seq<Ptr>): set<Ptr> { set i | 0 <= i < |ptrs| :: ptrs[i] }

  /** A list of copies that hold these listeners. */
  ghost predicate CopyOf(store: Store, head: Option<Ptr>, ptrs: seq<Ptr>, ls: seq<Listener>)
  {
    Chain(store, head, ptrs) && Distinct(ptrs) && Holds(store, ptrs, ls)
  }

  lemma NoCopies(store: Store)
    ensures CopyOf(store, None, [], []) && Elements([]) == {}
  {
  }

  lemma CopyEnds(store: Store, head: Option<Ptr>, ptrs: seq<Ptr>, ls: seq<Listener>)
    requires CopyOf(store, head, ptrs, ls)
    ensures head.None? ==> ptrs == [] && ls == []
  {
  }

  lemma CopyStarts(store: Store, head: Option<Ptr>, ptrs: seq<Ptr>, ls: seq<Listener>)
    requires CopyOf(store, head, ptrs, ls) && head.Some?
    ensures ptrs != [] && ls != [] && head.value == ptrs[0] && head.value in store
    ensures store[head.value].eventListener == ls[0]
  {
  }

  lemma CopyKept(store: Store, store': Store, head: Option<Ptr>, ptrs: seq<Ptr>, ls: seq<Listener>)
    requires CopyOf(store, head, ptrs, ls) && SameNodes(store, store', Elements(ptrs))
    ensures CopyOf(store', head, ptrs, ls)
  {
    forall i | 0 <= i < |ptrs| ensures ptrs[i] in store' && store'[ptrs[i]] == store[ptrs[i]] {
      assert ptrs[i] in Elements(ptrs);
    }
  }

  lemma ReversedNone()
    ensures Reversed([]) == []
  {
  }

  lemma DroppedKeepsRest(ptrs: seq<Ptr>, i: nat)
    requires i < |ptrs|
    ensures forall p :: p in ptrs && p != ptrs[i] ==> p in Dropped(ptrs, i)
  {
  }

  /** Where the nodes next to the one to unlink are. */
  lemma ListNodes(store: Store, head: Option<Ptr>, ptrs: seq<Ptr>, owner: map<Ptr, int>, t: int, ls: seq<Listener>, i: nat)
    requires ListFine(store, head, ptrs, owner, t, ls) && i < |ptrs|
    ensures ptrs[i] in store && store[ptrs[i]].pNext == Nth(ptrs, i + 1) && ptrs[i] in owner && owner[ptrs[i]] == t
    ensures i > 0 ==> ptrs[i - 1] in store && ptrs[i - 1] != ptrs[i] && ptrs[i - 1] in owner && owner[ptrs[i - 1]] == t
  {
  }

  // ---------------------------------------------------------------- all lists together

  /** Every list is fine. */
  ghost predicate AllFine(store: Store, heads: seq<Option<Ptr>>, lists: seq<seq<Ptr>>, owner: map<Ptr, int>, history: seq<Op>)
  {
    && |heads| == |lists| == MAX_NUM_EVENTS
    && forall t :: 0 <= t < MAX_NUM_EVENTS ==> ListFine(store, heads[t], lists[t], owner, t, Registered(history, t))
  }

  /** Every owned node is in the list of its owner. */
  ghost predicate Owned(lists: seq<seq<Ptr>>, owner: map<Ptr, int>)
  {
    |lists| == MAX_NUM_EVENTS && forall p :: p in owner ==> InRange(owner[p]) && p in lists[owner[p]]
  }

  /** A change to one list that leaves the nodes of the others alone. */
  lemma OneListChanges(store: Store, store': Store, heads: seq<Option<Ptr>>, head': Option<Ptr>, lists: seq<seq<Ptr>>,
                       ptrs': seq<Ptr>, owner: map<Ptr, int>, owner': map<Ptr, int>, history: seq<Op>, op: Op)
    requires AllFine(store, heads, lists, owner, history) && InRange(op.eventType)
    requires ListFine(store', head', ptrs', owner', op.eventType, Registered(history + [op], op.eventType))
    requires forall p :: p in owner && owner[p] != op.eventType && p in store ==>
               p in store' && store'[p] == store[p] && p in owner' && owner'[p] == owner[p]
    ensures AllFine(store', heads[op.eventType := head'], lists[op.eventType := ptrs'], owner', history + [op])
  {
    hide ListFine, Registered;
    forall t | 0 <= t < MAX_NUM_EVENTS && t != op.eventType
      ensures ListFine(store', heads[t], lists[t], owner', t, Registered(history + [op], t))
    {
      HistoryGrows(history, op, t);
      ListKept(store, store', heads[t], lists[t], owner, owner', t, Registered(history, t));
    }
  }

  /** A change to nodes that no list owns. */
  lemma NoListChanges(store: Store, store': Store, heads: seq<Option<Ptr>>, lists: seq<seq<Ptr>>, owner: map<Ptr, int>, history: seq<Op>)
    requires AllFine(store, heads, lists, owner, history)
    requires forall p :: p in owner && p in store ==> p in store' && store'[p] == store[p]
    ensures AllFine(store', heads, lists, owner, history)
  {
    hide ListFine, Registered;
    forall t | 0 <= t < MAX_NUM_EVENTS ensures ListFine(store', heads[t], lists[t], owner, t, Registered(history, t)) {
      ListKept(store, store', heads[t], lists[t], owner, owner, t, Registered(history, t));
    }
  }

  lemma ListOf(store: Store, heads: seq<Option<Ptr>>, lists: seq<seq<Ptr>>, owner: map<Ptr, int>, history: seq<Op>, t: int)
    requires AllFine(store, heads, lists, owner, history) && InRange(t)
    ensures |heads| == |lists| == MAX_NUM_EVENTS
    ensures ListFine(store, heads[t], lists[t], owner, t, Registered(history, t))
  {
  }

  lemma OwnedMore(lists: seq<seq<Ptr>>, owner: map<Ptr, int>, t: int, p: Ptr)
    requires Owned(lists, owner) && InRange(t)
    ensures Owned(lists[t := [p] + lists[t]], owner[p := t])
  {
  }

  lemma OwnedLess(lists: seq<seq<Ptr>>, owner: map<Ptr, int>, t: int, i: nat)
    requires Owned(lists, owner) && InRange(t) && i < |lists[t]|
    ensures Owned(lists[t := Dropped(lists[t], i)], owner - {lists[t][i]})
  {
    DroppedKeepsRest(lists[t], i);
  }

  lemma ElementsMore(p: Ptr, ptrs: seq<Ptr>)
    ensures Elements([p] + ptrs) == {p} + Elements(ptrs)
  {
    var longer := [p] + ptrs;
    forall x ensures x in Elements(longer) <==> x in {p} + Elements(ptrs) {
      if x in Elements(ptrs) {
        var i :| 0 <= i < |ptrs| && ptrs[i] == x;
        assert longer[i + 1] == x;
      }
      assert longer[0] == p;
    }
  }

  lemma ElementsLess(ptrs: seq<Ptr>)
    requires ptrs != [] && Distinct(ptrs)
    ensures Elements(ptrs[1..]) == Elements(ptrs) - {ptrs[0]} && ptrs[0] in Elements(ptrs)
  {
    assert [ptrs[0]] + ptrs[1..] == ptrs;
    ElementsMore(ptrs[0], ptrs[1..]);
  }

  lemma CopyTail(store: Store, head: Option<Ptr>, ptrs: seq<Ptr>, ls: seq<Listener>)
    requires CopyOf(store, head, ptrs, ls) && head.Some? && head.value in store
    ensures ptrs != [] && ls != [] && head.value == ptrs[0] && Elements(ptrs[1..]) == Elements(ptrs) - {head.value}
    ensures head.value in Elements(ptrs)
    ensures CopyOf(store - {head.value}, store[head.value].pNext, ptrs[1..], ls[1..])
  {
    ElementsLess(ptrs);
    var p, rest, store' := ptrs[0], ptrs[1..], store - {head.value};
    forall i | 0 <= i < |rest| ensures rest[i] in store' && store'[rest[i]].pNext == Nth(rest, i + 1) {
      assert rest[i] == ptrs[i + 1] && ptrs[0] != ptrs[i + 1];
    }
  }

  lemma SameUpdates(heads: seq<Option<Ptr>>, lists: seq<seq<Ptr>>, t: nat)
    requires t < |heads| && t < |lists|
    ensures heads[t := heads[t]] == heads && lists[t := lists[t]] == lists
  {
  }

  /** The i-th node of a chain. */
  lemma NodeAt(store: Store, head: Option<Ptr>, ptrs: seq<Ptr>, ls: seq<Listener>, i: nat)
    requires Chain(store, head, ptrs) && Holds(store, ptrs, ls) && i <= |ptrs|
    ensures head == Nth(ptrs, 0) && |ls| == |ptrs|
    ensures i < |ptrs| ==> ptrs[i] in store && store[ptrs[i]] == ListenerData(ls[i], Nth(ptrs, i + 1))
  {
  }

  lemma OneMoreReversed(ls: seq<Listener>, i: nat, rest: seq<Listener>)
    requires i < |ls|
    ensures Reversed(ls[..i + 1]) + rest == [ls[i]] + (Reversed(ls[..i]) + rest)
  {
    ReversedAppend(ls[..i], ls[i]);
    assert ls[..i + 1] == ls[..i] + [ls[i]];
  }

  /** The nodes alive are those owned by a list and those held, and `next` is above them all. */
  ghost predicate Room(store: Store, owner: map<Ptr, int>, held: set<Ptr>, next: Ptr)
  {
    && store.Keys == owner.Keys + held && owner.Keys !! held
    && forall p :: p in store ==> p < next
  }

  lemma RoomForNode(store: Store, owner: map<Ptr, int>, held: set<Ptr>, next: Ptr, d: ListenerData, t: int)
    requires Room(store, owner, held, next)
    ensures next !in store && next !in owner && SameNodes(store, store[next := d], held)
    ensures Room(store[next := d], owner[next := t], held, next + 1)
    ensures Room(store[next := d], owner, {next} + held, next + 1)
  {
  }

  lemma RoomAfterUnlink(store: Store, owner: map<Ptr, int>, held: set<Ptr>, next: Ptr, previous: Option<Ptr>, p: Ptr)
    requires Room(store, owner, held, next) && p in owner && (previous.Some? ==> previous.value in owner) && p in store
    requires previous.Some? ==> previous.value in store
    ensures Room(Unlinked(store, previous, p), owner - {p}, held, next) && SameNodes(store, Unlinked(store, previous, p), held)
  {
  }

  lemma RoomAfterDelete(store: Store, owner: map<Ptr, int>, held: set<Ptr>, next: Ptr, p: Ptr)
    requires Room(store, owner, held, next) && p in held
    ensures Room(store - {p}, owner, held - {p}, next) && p !in owner
  {
  }

  lemma HeldIsKept(store: Store, held: set<Ptr>)
    ensures SameNodes(store, store, held)
  {
  }

  /** A registration keeps every list fine. */
  lemma AddedAllFine(store: Store, heads: seq<Option<Ptr>>, lists: seq<seq<Ptr>>, owner: map<Ptr, int>, history: seq<Op>, op: Op, p: Ptr)
    requires AllFine(store, heads, lists, owner, history) && op.Add? && InRange(op.eventType) && p !in store && p !in owner
    ensures |heads| == |lists| == MAX_NUM_EVENTS
    ensures var t := op.eventType;
            AllFine(store[p := ListenerData(op.l, heads[t])], heads[t := Some(p)], lists[t := [p] + lists[t]], owner[p := t], history + [op])
  {
    hide ListFine, Registered;
    var t := op.eventType;
    ListOf(store, heads, lists, owner, history, t);
    AddedFine(store, heads[t], lists[t], owner, history, op, p);
    OneListChanges(store, store[p := ListenerData(op.l, heads[t])], heads, Some(p), lists, [p] + lists[t], owner, owner[p := t], history, op);
  }

  /** A removal keeps every list fine. */
  lemma RemovedAllFine(store: Store, heads: seq<Option<Ptr>>, lists: seq<seq<Ptr>>, owner: map<Ptr, int>, history: seq<Op>, op: Op, i: nat)
    requires AllFine(store, heads, lists, owner, history) && op.Remove? && InRange(op.eventType)
    requires |lists| == MAX_NUM_EVENTS && i < |lists[op.eventType]| && Found(store, lists[op.eventType], op.l, i)
    ensures var t := op.eventType;
            var ptrs := lists[t];
            && ptrs[i] in store && ptrs[i] in owner
            && (i > 0 ==> ptrs[i - 1] in store && ptrs[i - 1] in owner)
            && AllFine(Unlinked(store, Before(ptrs, i), ptrs[i]),
                       if i == 0 then heads[t := store[ptrs[0]].pNext] else heads,
                       lists[t := Dropped(ptrs, i)], owner - {ptrs[i]}, history + [op])
  {
    hide ListFine, Registered, Found, Dropped, AllFine;
    var t := op.eventType;
    var ptrs := lists[t];
    ListOf(store, heads, lists, owner, history, t);
    ListNodes(store, heads[t], ptrs, owner, t, Registered(history, t), i);
    RemovedFine(store, heads[t], ptrs, owner, history, op, i);
    SameUpdates(heads, lists, t);
    OneListChanges(store, Unlinked(store, Before(ptrs, i), ptrs[i]), heads, if i == 0 then Nth(ptrs, 1) else heads[t], lists,
                   Dropped(ptrs, i), owner, owner - {ptrs[i]}, history, op);
  }

  lemma NotFoundAllFine(store: Store, heads: seq<Option<Ptr>>, lists: seq<seq<Ptr>>, owner: map<Ptr, int>, history: seq<Op>, op: Op)
    requires AllFine(store, heads, lists, owner, history) && op.Remove? && InRange(op.eventType)
    requires |lists| == MAX_NUM_EVENTS && Found(store, lists[op.eventType], op.l, |lists[op.eventType]|)
    ensures AllFine(store, heads, lists, owner, history + [op])
  {
    hide ListFine, Registered, Found;
    var t := op.eventType;
    ListOf(store, heads, lists, owner, history, t);
    NotFoundFine(store, heads[t], lists[t], owner, history, op);
    SameUpdates(heads, lists, t);
    OneListChanges(store, store, heads, heads[t], lists, lists[t], owner, owner, history, op);
  }

  // ---------------------------------------------------------------- the object

  class AampEventManager {
    var mEventListeners: seq<Option<Ptr>>   // the heads
    var store: Store                        // every node that is alive
    var nextPtr: Ptr                         // the next address to allocate
    ghost var lists: seq<seq<Ptr>>          // the nodes of each list, from the head on
    ghost var owner: map<Ptr, int>          // the list that each listed node is in
    ghost var history: seq<Op>              // every change made to the lists

    /**
     Every list is fine, and the nodes alive are exactly those of the lists, each in one of them, and
     those in `held`, which a dispatch in progress has to itself: nothing has leaked.
     */
    ghost predicate Valid(held: set<Ptr>)
      reads this
    {
      && AllFine(store, mEventListeners, lists, owner, history) && Owned(lists, owner)
      && Room(store, owner, held, nextPtr)
    }

    constructor ()
      ensures Valid({}) && history == []
    {
      mEventListeners, store, nextPtr := seq(MAX_NUM_EVENTS, _ => None), map[], 0;
      lists, owner, history := seq(MAX_NUM_EVENTS, _ => []), map[], [];
    }

    /** AddEventListener: a new node in front of the list; a null listener or an unknown type changes nothing */
    method AddEventListener(eventType: int, eventListener: Option<Listener>, ghost held: set<Ptr> := {})
      requires Valid(held)
      modifies this
      ensures Valid(held) && SameNodes(old(store), store, held)
      ensures history == if eventListener.Some? && InRange(eventType)
                         then old(history) + [Add(eventType, eventListener.value)] else old(history)
    {
      hide AllFine, Owned, Room, SameNodes, Registered;
      if eventListener.Some? && InRange(eventType) {
        ghost var op := Add(eventType, eventListener.value);
        var pListener := nextPtr;
        ListOf(store, mEventListeners, lists, owner, history, eventType);
        RoomForNode(store, owner, held, nextPtr, ListenerData(eventListener.value, mEventListeners[eventType]), eventType);
        OwnedMore(lists, owner, eventType, pListener);
        AddedAllFine(store, mEventListeners, lists, owner, history, op, pListener);
        store := store[pListener := ListenerData(eventListener.value, mEventListeners[eventType])];
        mEventListeners := mEventListeners[eventType := Some(pListener)];
        lists, owner := lists[eventType := [pListener] + lists[eventType]], owner[pListener := eventType];
        history, nextPtr := history + [op], nextPtr + 1;
      } else {
        HeldIsKept(store, held);
      }
    }

    /** RemoveEventListener: the first match from the head is unlinked and deleted */
    method RemoveEventListener(eventType: int, eventListener: Option<Listener>, ghost held: set<Ptr> := {})
      requires Valid(held)
      modifies this
      ensures Valid(held) && SameNodes(old(store), store, held)
      ensures history == if eventListener.Some? && InRange(eventType)
                         then old(history) + [Remove(eventType, eventListener.value)] else old(history)
    {
      hide Registered, Reversed, Distinct, Holds, AllFine, Owned, Room, SameNodes;
      if eventListener.Some? && InRange(eventType) {
        HeldIsKept(store, held);
        ListOf(store, mEventListeners, lists, owner, history, eventType);
        var l := eventListener.value;
        ghost var op, ptrs := Remove(eventType, l), lists[eventType];
        // ppLast is &mEventListeners[eventType] while previous is null, and &previous->pNext from then on
        var previous: Option<Ptr>, pListener := None, mEventListeners[eventType];
        ghost var i := 0;
        while pListener.Some? && store[pListener.value].eventListener != l
          invariant 0 <= i <= |ptrs| && pListener == Nth(ptrs, i) && previous == Before(ptrs, i)
          invariant forall j :: 0 <= j < i ==> store[ptrs[j]].eventListener != l
          decreases |ptrs| - i
        {
          previous, pListener, i := pListener, store[pListener.value].pNext, i + 1;
        }
        if pListener.Some? {
          Unlink(eventType, op, i, previous, pListener.value, held);
        } else {
          NotFoundAllFine(store, mEventListeners, lists, owner, history, op);
          history := history + [op];
        }
      } else {
        HeldIsKept(store, held);
      }
    }

    /** The removal proper: *ppLast = pListener->pNext; delete pListener */
    method Unlink(eventType: int, ghost op: Op, ghost i: nat, previous: Option<Ptr>, pListener: Ptr, ghost held: set<Ptr>)
      requires Valid(held) && InRange(eventType) && op.Remove? && op.eventType == eventType
      requires i < |lists[eventType]| && Found(store, lists[eventType], op.l, i)
      requires pListener == lists[eventType][i] && previous == Before(lists[eventType], i)
      modifies this
      ensures Valid(held) && SameNodes(old(store), store, held) && pListener !in store && history == old(history) + [op]
    {
      hide Found, Dropped, AllFine, Room, SameNodes, Registered, Owned;
      ListOf(store, mEventListeners, lists, owner, history, eventType);
      ghost var ptrs, before := lists[eventType], store;
      RemovedAllFine(store, mEventListeners, lists, owner, history, op, i);
      OwnedLess(lists, owner, eventType, i);
      RoomAfterUnlink(store, owner, held, nextPtr, previous, pListener);
      if previous.None? {
        mEventListeners := mEventListeners[eventType := store[pListener].pNext];
      } else {
        store := store[previous.value := store[previous.value].(pNext := store[pListener].pNext)];
      }
      store := store - {pListener};
      assert store == Unlinked(before, previous, pListener);
      lists, owner, history := lists[eventType := Dropped(ptrs, i)], owner - {pListener}, history + [op];
    }

    /** What a handler does while it is called: any registrations and deregistrations. */
    method Perform(changes: seq<Op>, ghost held: set<Ptr>)
      requires Valid(held)
      modifies this
      ensures Valid(held) && SameNodes(old(store), store, held) && history == old(history) + Effective(changes)
    {
      hide Valid;
      for k := 0 to |changes|
        invariant Valid(held) && SameNodes(old(store), store, held)
        invariant history == old(history) + Effective(changes[..k])
      {
        assert changes[..k + 1][..k] == changes[..k];
        if changes[k].Add? {
          AddEventListener(changes[k].eventType, Some(changes[k].l), held);
        } else {
          RemoveEventListener(changes[k].eventType, Some(changes[k].l), held);
        }
      }
      assert changes[..|changes|] == changes;
    }

    /** One copying loop of SendEventSync: a copy of each node, from the head on, goes in front of the new list. */
    method CopyInFront(eventType: int, pList: Option<Ptr>, ghost copies: seq<Ptr>, ghost ls: seq<Listener>)
      returns (r: Option<Ptr>, ghost ptrs: seq<Ptr>)
      requires Valid(Elements(copies)) && InRange(eventType) && CopyOf(store, pList, copies, ls)
      modifies this`store, this`nextPtr
      ensures Valid(Elements(ptrs)) && CopyOf(store, r, ptrs, Registered(history, eventType) + ls)
    {
      hide Valid, CopyOf, Reversed, Registered, Chain, Holds;
      Registrations(eventType, Elements(copies));
      ghost var list, listeners := lists[eventType], Reversed(Registered(history, eventType));
      var pListener := mEventListeners[eventType];
      NodeAt(store, pListener, list, listeners, 0);
      r, ptrs := pList, copies;
      ghost var i := 0;
      ghost var done: seq<Listener> := ls;
      ReversedNone();
      assert listeners[..0] == [];
      while pListener.Some?
        invariant Valid(Elements(ptrs)) && CopyOf(store, r, ptrs, done)
        invariant 0 <= i <= |list| && pListener == Nth(list, i) && done == Reversed(listeners[..i]) + ls
        decreases |list| - i
      {
        Registrations(eventType, Elements(ptrs));
        NodeAt(store, mEventListeners[eventType], list, listeners, i);
        var pCurrent := store[pListener.value];
        OneMoreReversed(listeners, i, ls);
        r, ptrs := CopyNode(pCurrent.eventListener, r, ptrs, done);
        done := [pCurrent.eventListener] + done;
        pListener, i := pCurrent.pNext, i + 1;
      }
      assert listeners[..i] == listeners;
      ReversedTwice(Registered(history, eventType));
    }

    /** What Valid says of one list. */
    lemma Registrations(t: int, held: set<Ptr>)
      requires Valid(held) && InRange(t)
      ensures |mEventListeners| == |lists| == MAX_NUM_EVENTS
      ensures Chain(store, mEventListeners[t], lists[t]) && Holds(store, lists[t], Reversed(Registered(history, t)))
    {
      hide Registered, Reversed;
      ListOf(store, mEventListeners, lists, owner, history, t);
    }

    /** pNew = new ListenerData, in front of the copies made so far. */
    method CopyNode(l: Listener, pList: Option<Ptr>, ghost copies: seq<Ptr>, ghost ls: seq<Listener>)
      returns (r: Option<Ptr>, ghost ptrs: seq<Ptr>)
      requires Valid(Elements(copies)) && CopyOf(store, pList, copies, ls)
      modifies this`store, this`nextPtr
      ensures Valid(Elements(ptrs)) && CopyOf(store, r, ptrs, [l] + ls)
    {
      hide Registered, Chain, Holds, Distinct, AllFine, Owned, Room, Elements;
      var pNew := nextPtr;
      RoomForNode(store, owner, Elements(copies), nextPtr, ListenerData(l, pList), ALL_EVENTS);
      ChainLonger(store, pList, copies, pNew, l);
      HoldsMore(store, copies, ls, pNew, ListenerData(l, pList));
      DistinctMore(store, pList, copies, pNew);
      ptrs := [pNew] + copies;
      store := store[pNew := ListenerData(l, pList)];
      r, nextPtr := Some(pNew), nextPtr + 1;
      ElementsMore(pNew, copies);
      NoListChanges(old(store), store, mEventListeners, lists, owner, history);
    }

    /** The calls of SendEventSync, made with the lock released; every copy is deleted after its call. */
    method Dispatch(pFirst: Option<Ptr>, ghost ptrs: seq<Ptr>, ghost ls: seq<Listener>, changes: seq<seq<Op>>)
      returns (calls: seq<Listener>)
      requires Valid(Elements(ptrs)) && CopyOf(store, pFirst, ptrs, ls)
      modifies this
      ensures Valid({}) && history == old(history) + EffectiveOf(changes, |ls|) && calls == ls
    {
      hide Valid, CopyOf, EffectiveOf, Effective, Elements, SameNodes;
      calls := [];
      HandlerDone(history, changes, 0);
      var pList := pFirst;
      ghost var copies, left := ptrs, ls;
      CopyEnds(store, pList, copies, left);
      while pList.Some?
        invariant Valid(Elements(copies)) && CopyOf(store, pList, copies, left)
        invariant history == old(history) + EffectiveOf(changes, |calls|)
        invariant calls + left == ls && (pList.None? ==> copies == [] && left == [])
        decreases |copies|
      {
        CopyStarts(store, pList, copies, left);
        var pCurrent := pList.value;
        HandlerDone(old(history), changes, |calls|);
        calls := calls + [store[pCurrent].eventListener];
        ghost var before := store;
        HeldIsKept(store, Elements(copies));
        if |calls| <= |changes| {
          Perform(changes[|calls| - 1], Elements(copies));
        }
        CopyKept(before, store, pList, copies, left);
        CopyStarts(store, pList, copies, left);
        pList := store[pCurrent].pNext;
        DeleteCopy(pCurrent, copies, left);
        copies, left := copies[1..], left[1..];
        CopyEnds(store, pList, copies, left);
      }
      NoCopies(store);
    }

    /** SAFE_DELETE(pCurrent) */
    method DeleteCopy(pCurrent: Ptr, ghost copies: seq<Ptr>, ghost ls: seq<Listener>)
      requires Valid(Elements(copies)) && CopyOf(store, Some(pCurrent), copies, ls) && pCurrent in store
      modifies this`store
      ensures copies != [] && ls != [] && Valid(Elements(copies[1..])) && CopyOf(store, old(store)[pCurrent].pNext, copies[1..], ls[1..])
    {
      hide CopyOf, AllFine, Owned, Elements, Room;
      CopyTail(store, Some(pCurrent), copies, ls);
      RoomAfterDelete(store, owner, Elements(copies), nextPtr, pCurrent);
      store := store - {pCurrent};
      NoListChanges(old(store), store, mEventListeners, lists, owner, history);
    }

    /**
     SendEventSync. The listeners called are exactly those registered when the snapshot was taken: those
     for all events in registration order, then those for the type in registration order, whatever
     each handler changes while it runs (`changes[k]` by the k-th); all copies are deleted.
     */
    method SendEventSync(eventType: int, released: bool, changes: seq<seq<Op>>) returns (calls: seq<Listener>)
      requires Valid({}) && InRange(eventType)
      modifies this
      ensures Valid({}) && history == old(history) + EffectiveOf(changes, |calls|)
      ensures calls == if released then []
                       else Registered(old(history), ALL_EVENTS) + Registered(old(history), eventType)
    {
      hide Valid, CopyOf, Registered;
      calls := [];
      if released { return; }
      NoCopies(store);
      var pList, copies := CopyInFront(eventType, None, [], []);
      ghost var ls := Registered(history, eventType) + [];
      pList, copies := CopyInFront(ALL_EVENTS, pList, copies, ls);
      ls := Registered(history, ALL_EVENTS) + ls;
      calls := Dispatch(pList, copies, ls, changes);
    }
  }
}
