/**
 The shared-pointer store behind AampCache: cache entries (AampCachedData), their payload
 buffers, the two reference counts that std::shared_ptr keeps, and the running byte total
 that each buffer's deleter updates.
 */
module CacheStore {
  import opened Prelude

  type Url = string
  type Ptr = nat
  type Bytes = seq<bv8>

  /** AampMediaType. */
  datatype MediaType =
    | VIDEO | AUDIO | SUBTITLE | RESERVED | MANIFEST | LICENCE | IFRAME
    | INIT_VIDEO | INIT_AUDIO | INIT_SUBTITLE | INIT_RESERVED
    | PLAYLIST_VIDEO | PLAYLIST_AUDIO | PLAYLIST_SUBTITLE | PLAYLIST_RESERVED | PLAYLIST_IFRAME
    | INIT_IFRAME | DSM_CC | IMAGE | DEFAULT

  /** AampCachedData; `target` is eUrlCachedDataPtr. An empty effectiveUrl marks an alias. */
  datatype CachedData = CachedData(
    effectiveUrl: Url, buffer: Ptr, mediaType: MediaType, seqNo: nat, target: Option<Ptr>)

  /** The map, the objects it owns, their use counts, and the two counters of AampCache. */
  datatype State = State(
    cache: map<Url, Ptr>,
    objs: map<Ptr, CachedData>,
    uses: map<Ptr, nat>,
    bufs: map<Ptr, Bytes>,
    bufUses: map<Ptr, nat>,
    total: nat,
    seqNo: nat,
    next: Ptr)

  const EMPTY := State(map[], map[], map[], map[], map[], 0, 0, 0)

  // size_t arithmetic wraps modulo 2^64
  const SIZE_MOD: int := 0x1_0000_0000_0000_0000

  function SizeAdd(a: nat, b: nat): nat { (a + b) % SIZE_MOD }

  function SizeSub(a: nat, b: nat): nat { (a - b) % SIZE_MOD }

  // ---------------------------------------------------------------- destruction

  /** One shared_ptr to buffer b goes away; the last one runs the deleter. */
  function DropBuf(s: State, b: Ptr): State
  {
    if b !in s.bufs || b !in s.bufUses then s
    else if s.bufUses[b] > 1 then s.(bufUses := s.bufUses[b := s.bufUses[b] - 1])
    else s.(bufs := s.bufs - {b}, bufUses := s.bufUses - {b}, total := SizeSub(s.total, |s.bufs[b]|))
  }

  /** The entry leaves the heap; its members are about to be destroyed. */
  function Destroyed(s: State, o: Ptr): State
  {
    s.(objs := s.objs - {o}, uses := s.uses - {o})
  }

  /**
   One shared_ptr to an entry goes away (a null one does nothing). The last one destroys the
   entry's members, eUrlCachedDataPtr before the buffer.
   */
  function DropObj(s: State, po: Option<Ptr>): State
    decreases |s.objs|
  {
    if po.None? || po.value !in s.objs || po.value !in s.uses then s
    else
      var o := po.value;
      if s.uses[o] > 1 then s.(uses := s.uses[o := s.uses[o] - 1])
      else
        assert Destroyed(s, o).objs.Keys == s.objs.Keys - {o};
        assert |Destroyed(s, o).objs.Keys| < |s.objs.Keys|;
        DropBuf(DropObj(Destroyed(s, o), s.objs[o].target), s.objs[o].buffer)
  }

  /** cache.erase(url) */
  function Erase(s: State, url: Url): State
  {
    if url in s.cache then DropObj(s.(cache := s.cache - {url}), Some(s.cache[url])) else s
  }

  // ---------------------------------------------------------------- reachability

  /** A chain of pointers that starts in the map and follows eUrlCachedDataPtr. */
  ghost predicate Chain(s: State, path: seq<Ptr>)
  {
    && path != []
    && path[0] in s.cache.Values
    && (forall i :: 0 <= i < |path| ==> path[i] in s.objs)
    && (forall i :: 0 <= i < |path| - 1 ==> s.objs[path[i]].target == Some(path[i + 1]))
  }

  ghost predicate Reachable(s: State, o: Ptr)
  {
    exists path :: Chain(s, path) && path[|path| - 1] == o
  }

  /** The distinct buffers held by reachable entries. */
  ghost function ReachableBuffers(s: State): set<Ptr>
  {
    set o | o in s.objs && Reachable(s, o) :: s.objs[o].buffer
  }

  /** Sum of the sizes of the buffers in `which` whose identity is below n. */
  ghost function SizeBelow(bufs: map<Ptr, Bytes>, which: set<Ptr>, n: nat): nat
  {
    if n == 0 then 0
    else SizeBelow(bufs, which, n - 1) + (if n - 1 in which && n - 1 in bufs then |bufs[n - 1]| else 0)
  }

  ghost function BytesOf(s: State, which: set<Ptr>): nat { SizeBelow(s.bufs, which, s.next) }

  // ---------------------------------------------------------------- the counting invariant

  ghost function Pointing(objs: map<Ptr, CachedData>, t: Ptr): set<Ptr>
  {
    set p | p in objs && objs[p].target == Some(t)
  }

  ghost function Holding(objs: map<Ptr, CachedData>, b: Ptr): set<Ptr>
  {
    set p | p in objs && objs[p].buffer == b
  }

  ghost function One(b: bool): nat { if b then 1 else 0 }

  ghost predicate PointsTo(objs: map<Ptr, CachedData>, o: Ptr, t: Ptr)
  {
    o in objs && objs[o].target == Some(t)
  }

  /** Map keys own distinct living entries; targets are living and older than their owners. */
  ghost predicate Linked(cache: map<Url, Ptr>, objs: map<Ptr, CachedData>, next: Ptr)
  {
    && (forall u {:trigger cache[u]} :: u in cache ==> cache[u] in objs)
    && (forall u, v {:trigger cache[u], cache[v]} :: u in cache && v in cache && cache[u] == cache[v] ==> u == v)
    && (forall o :: o in objs ==> o < next)
    && (forall o, t :: PointsTo(objs, o, t) ==> t in objs && t < o)
  }

  /** The pointers to entry o: the map's, other entries', and one held by the code in progress. */
  ghost function UseCount(cache: map<Url, Ptr>, objs: map<Ptr, CachedData>, po: Option<Ptr>, o: Ptr): nat
  {
    One(o in cache.Values) + |Pointing(objs, o)| + One(po == Some(o))
  }

  ghost predicate UsesExact(cache: map<Url, Ptr>, objs: map<Ptr, CachedData>, uses: map<Ptr, nat>, po: Option<Ptr>)
  {
    && uses.Keys == objs.Keys
    && (po.Some? ==> po.value in objs)
    && (forall o {:trigger UseCount(cache, objs, po, o)} :: o in uses ==> uses[o] == UseCount(cache, objs, po, o) >= 1)
  }

  ghost function BufCount(objs: map<Ptr, CachedData>, pb: multiset<Ptr>, b: Ptr): nat { |Holding(objs, b)| + pb[b] }

  /** Likewise for buffers: the entries holding them, and the pointers held by the code in progress. */
  ghost predicate BufUsesExact(objs: map<Ptr, CachedData>, bufs: map<Ptr, Bytes>, bufUses: map<Ptr, nat>, next: Ptr, pb: multiset<Ptr>)
  {
    && bufUses.Keys == bufs.Keys
    && (forall o {:trigger objs[o]} :: o in objs ==> objs[o].buffer in bufs)
    && (forall b :: b in pb ==> b in bufs)
    && (forall b :: b in bufs ==> b < next)
    && (forall b {:trigger BufCount(objs, pb, b)} :: b in bufUses ==> bufUses[b] == BufCount(objs, pb, b) >= 1)
  }

  ghost predicate TotalExact(s: State)
  {
    s.total == BytesOf(s, s.bufs.Keys) < SIZE_MOD
  }

  /** Every count is exact, allowing for the pointers `po` and `pb` that the code in progress holds. */
  ghost predicate Counted(s: State, po: Option<Ptr>, pb: multiset<Ptr>)
  {
    && Linked(s.cache, s.objs, s.next)
    && UsesExact(s.cache, s.objs, s.uses, po)
    && BufUsesExact(s.objs, s.bufs, s.bufUses, s.next, pb)
    && TotalExact(s)
  }

  ghost predicate Exact(s: State) { Counted(s, None, multiset{}) }

  /** s' has lost objects but changed none. */
  ghost predicate Shrunk(s: State, s': State)
  {
    && s'.next == s.next && s'.seqNo == s.seqNo && s'.total <= s.total
    && s'.objs.Keys <= s.objs.Keys && s'.bufs.Keys <= s.bufs.Keys
    && (forall o :: o in s'.objs ==> s'.objs[o] == s.objs[o])
    && (forall b :: b in s'.bufs ==> s'.bufs[b] == s.bufs[b])
  }

  lemma {:induction false} SizeBelowWithout(bufs: map<Ptr, Bytes>, which: set<Ptr>, b: Ptr, n: nat)
    requires b in bufs && b in which
    ensures SizeBelow(bufs - {b}, which - {b}, n) + (if b < n then |bufs[b]| else 0) == SizeBelow(bufs, which, n)
  {
    if n > 0 { SizeBelowWithout(bufs, which, b, n - 1); }
  }

  lemma {:induction false} SizeBelowWith(bufs: map<Ptr, Bytes>, which: set<Ptr>, b: Ptr, x: Bytes, n: nat, m: nat)
    requires n <= b < m
    requires forall c :: c in which ==> c < n
    ensures SizeBelow(bufs[b := x], which + {b}, m) == SizeBelow(bufs, which, n) + |x|
    decreases m
  {
    if m - 1 == b {
      SizeBelowSame(bufs, bufs[b := x], which, which + {b}, n, b);
    } else {
      SizeBelowWith(bufs, which, b, x, n, m - 1);
    }
  }

  lemma {:induction false} SizeBelowSame(
    bufs: map<Ptr, Bytes>, bufs': map<Ptr, Bytes>, which: set<Ptr>, which': set<Ptr>, n: nat, m: nat)
    requires n <= m
    requires forall c :: c < n ==> (c in which <==> c in which') && (c in bufs <==> c in bufs')
    requires forall c :: c < n && c in bufs ==> bufs'[c] == bufs[c]
    requires forall c :: n <= c < m ==> c !in which'
    ensures SizeBelow(bufs', which', m) == SizeBelow(bufs, which, n)
    decreases m
  {
    if n < m {
      SizeBelowSame(bufs, bufs', which, which', n, m - 1);
    } else if n > 0 {
      SizeBelowSame(bufs, bufs', which, which', n - 1, n - 1);
    }
  }

  lemma NoHolder(objs: map<Ptr, CachedData>, b: Ptr, o: Ptr)
    requires |Holding(objs, b)| == 0 && o in objs
    ensures objs[o].buffer != b
  {
    assert objs[o].buffer == b ==> o in Holding(objs, b);
  }

  lemma DropSharedBuf(s: State, b: Ptr, pb: multiset<Ptr>)
    requires BufUsesExact(s.objs, s.bufs, s.bufUses, s.next, pb + multiset{b}) && b in s.bufs && s.bufUses[b] > 1
    ensures BufUsesExact(s.objs, s.bufs, s.bufUses[b := s.bufUses[b] - 1], s.next, pb)
  {
    var bufUses' := s.bufUses[b := s.bufUses[b] - 1];
    forall c | c in bufUses' ensures bufUses'[c] == BufCount(s.objs, pb, c) >= 1 {
      assert s.bufUses[c] == BufCount(s.objs, pb + multiset{b}, c);
    }
  }

  lemma DropLastBuf(s: State, b: Ptr, pb: multiset<Ptr>)
    requires BufUsesExact(s.objs, s.bufs, s.bufUses, s.next, pb + multiset{b}) && b in s.bufs && s.bufUses[b] == 1
    ensures BufUsesExact(s.objs, s.bufs - {b}, s.bufUses - {b}, s.next, pb)
  {
    assert s.bufUses[b] == BufCount(s.objs, pb + multiset{b}, b);
    forall o | o in s.objs ensures s.objs[o].buffer != b { NoHolder(s.objs, b, o); }
    forall c | c in s.bufUses - {b} ensures (s.bufUses - {b})[c] == BufCount(s.objs, pb, c) >= 1 {
      assert s.bufUses[c] == BufCount(s.objs, pb + multiset{b}, c);
    }
  }

  lemma DropBufUses(s: State, b: Ptr, pb: multiset<Ptr>)
    requires BufUsesExact(s.objs, s.bufs, s.bufUses, s.next, pb + multiset{b})
    ensures var s' := DropBuf(s, b); BufUsesExact(s'.objs, s'.bufs, s'.bufUses, s'.next, pb)
  {
    assert b in pb + multiset{b};
    assert s.bufUses[b] == BufCount(s.objs, pb + multiset{b}, b);
    if s.bufUses[b] == 1 {
      DropLastBuf(s, b, pb);
    } else {
      DropSharedBuf(s, b, pb);
    }
  }

  lemma DropBufTotal(s: State, b: Ptr)
    requires TotalExact(s) && s.bufUses.Keys == s.bufs.Keys && b in s.bufs && b < s.next
    ensures TotalExact(DropBuf(s, b)) && Shrunk(s, DropBuf(s, b))
  {
    if s.bufUses[b] <= 1 {
      SizeBelowWithout(s.bufs, s.bufs.Keys, b, s.next);
      assert DropBuf(s, b).bufs.Keys == s.bufs.Keys - {b};
    }
  }

  lemma DropBufCounted(s: State, b: Ptr, po: Option<Ptr>, pb: multiset<Ptr>)
    requires Counted(s, po, pb + multiset{b})
    ensures Counted(DropBuf(s, b), po, pb)
    ensures Shrunk(s, DropBuf(s, b))
  {
    DropBufUses(s, b, pb);
    assert b in pb + multiset{b};
    DropBufTotal(s, b);
  }

  lemma PointingWithout(objs: map<Ptr, CachedData>, o: Ptr, t: Ptr)
    requires o in objs
    ensures |Pointing(objs, t)| == |Pointing(objs - {o}, t)| + One(objs[o].target == Some(t))
  {
    if objs[o].target == Some(t) {
      assert Pointing(objs - {o}, t) == Pointing(objs, t) - {o};
    } else {
      assert Pointing(objs - {o}, t) == Pointing(objs, t);
    }
  }

  lemma HoldingWithout(objs: map<Ptr, CachedData>, o: Ptr, b: Ptr)
    requires o in objs
    ensures |Holding(objs, b)| == |Holding(objs - {o}, b)| + One(objs[o].buffer == b)
  {
    if objs[o].buffer == b {
      assert Holding(objs - {o}, b) == Holding(objs, b) - {o};
    } else {
      assert Holding(objs - {o}, b) == Holding(objs, b);
    }
  }

  lemma NoPointer(objs: map<Ptr, CachedData>, o: Ptr, p: Ptr)
    requires |Pointing(objs, o)| == 0
    ensures !PointsTo(objs, p, o)
  {
    assert PointsTo(objs, p, o) ==> p in Pointing(objs, o);
  }

  lemma DestroyLinked(s: State, o: Ptr)
    requires Linked(s.cache, s.objs, s.next)
    requires o in s.objs && o !in s.cache.Values && |Pointing(s.objs, o)| == 0
    ensures Linked(s.cache, s.objs - {o}, s.next)
  {
    forall p, t | PointsTo(s.objs - {o}, p, t) ensures t in s.objs - {o} && t < p {
      assert PointsTo(s.objs, p, t);
      NoPointer(s.objs, o, p);
    }
  }

  lemma DestroyUses(s: State, o: Ptr)
    requires Linked(s.cache, s.objs, s.next)
    requires UsesExact(s.cache, s.objs, s.uses, Some(o)) && s.uses[o] == 1
    ensures UsesExact(s.cache, s.objs - {o}, s.uses - {o}, s.objs[o].target)
    ensures o !in s.cache.Values && |Pointing(s.objs, o)| == 0
  {
    var d := s.objs[o];
    assert s.uses[o] == UseCount(s.cache, s.objs, Some(o), o);
    if d.target.Some? {
      assert PointsTo(s.objs, o, d.target.value);
    }
    forall t | t in s.uses - {o}
      ensures (s.uses - {o})[t] == UseCount(s.cache, s.objs - {o}, d.target, t) >= 1
    {
      assert s.uses[t] == UseCount(s.cache, s.objs, Some(o), t);
      PointingWithout(s.objs, o, t);
    }
  }

  lemma DestroyBufUses(s: State, o: Ptr, pb: multiset<Ptr>)
    requires BufUsesExact(s.objs, s.bufs, s.bufUses, s.next, pb) && o in s.objs
    ensures BufUsesExact(s.objs - {o}, s.bufs, s.bufUses, s.next, pb + multiset{s.objs[o].buffer})
  {
    forall b | b in s.bufUses
      ensures s.bufUses[b] == BufCount(s.objs - {o}, pb + multiset{s.objs[o].buffer}, b) >= 1
    {
      assert s.bufUses[b] == BufCount(s.objs, pb, b);
      HoldingWithout(s.objs, o, b);
    }
  }

  /** Destroying an entry nobody else points at hands its target and buffer over to the destructor. */
  lemma DestroyCounted(s: State, o: Ptr, pb: multiset<Ptr>)
    requires Counted(s, Some(o), pb) && s.uses[o] == 1
    ensures Counted(Destroyed(s, o), s.objs[o].target, pb + multiset{s.objs[o].buffer})
  {
    DestroyUses(s, o);
    DestroyLinked(s, o);
    DestroyBufUses(s, o, pb);
  }

  lemma ShrunkTrans(s: State, s': State, s'': State)
    requires Shrunk(s, s') && Shrunk(s', s'')
    ensures Shrunk(s, s'')
  {
    forall o | o in s''.objs ensures s''.objs[o] == s.objs[o] {
      assert o in s'.objs;
    }
  }

  lemma DecrementUses(s: State, o: Ptr)
    requires UsesExact(s.cache, s.objs, s.uses, Some(o)) && s.uses[o] > 1
    ensures UsesExact(s.cache, s.objs, s.uses[o := s.uses[o] - 1], None)
  {
    var uses' := s.uses[o := s.uses[o] - 1];
    forall t | t in uses' ensures uses'[t] == UseCount(s.cache, s.objs, None, t) >= 1 {
      assert t in s.uses;
      assert s.uses[t] == UseCount(s.cache, s.objs, Some(o), t);
    }
  }

  lemma DropSharedCounted(s: State, o: Ptr, pb: multiset<Ptr>)
    requires Counted(s, Some(o), pb) && s.uses[o] > 1
    ensures Released(s, DropObj(s, Some(o)), pb)
  {
    DecrementUses(s, o);
    assert DropObj(s, Some(o)) == s.(uses := s.uses[o := s.uses[o] - 1]);
  }

  /** The outcome of a release: exact counts again, nothing changed but losses. */
  ghost predicate Released(s: State, s': State, pb: multiset<Ptr>)
  {
    Counted(s', None, pb) && Shrunk(s, s') && s'.cache == s.cache
  }

  lemma MembersDestroyed(s: State, o: Ptr, s2: State, b: Ptr, pb: multiset<Ptr>)
    requires Released(Destroyed(s, o), s2, pb + multiset{b})
    ensures Released(s, DropBuf(s2, b), pb)
  {
    DropBufCounted(s2, b, None, pb);
    ShrunkTrans(Destroyed(s, o), s2, DropBuf(s2, b));
  }

  /** Releasing one pointer, with the cascade through eUrlCachedDataPtr, keeps every count exact. */
  lemma {:induction false} DropObjCounted(s: State, po: Option<Ptr>, pb: multiset<Ptr>)
    requires Counted(s, po, pb)
    ensures Released(s, DropObj(s, po), pb)
    decreases if po.Some? then po.value + 1 else 0, 1
  {
    if po.Some? {
      if s.uses[po.value] > 1 {
        DropSharedCounted(s, po.value, pb);
      } else {
        assert s.uses[po.value] == UseCount(s.cache, s.objs, po, po.value);
        DropLastCounted(s, po.value, pb);
      }
    }
  }

  lemma TargetIsOlder(s: State, o: Ptr)
    requires Linked(s.cache, s.objs, s.next) && o in s.objs && s.objs[o].target.Some?
    ensures s.objs[o].target.value < o
  {
    assert PointsTo(s.objs, o, s.objs[o].target.value);
  }

  lemma {:induction false} DropLastCounted(s: State, o: Ptr, pb: multiset<Ptr>)
    requires Counted(s, Some(o), pb) && s.uses[o] == 1
    ensures Released(s, DropObj(s, Some(o)), pb)
    decreases o + 1, 0
  {
    var d := s.objs[o];
    if d.target.Some? { TargetIsOlder(s, o); }
    var s2 := DropObj(Destroyed(s, o), d.target);
    assert Released(Destroyed(s, o), s2, pb + multiset{d.buffer}) by {
      DestroyCounted(s, o, pb);
      DropObjCounted(Destroyed(s, o), d.target, pb + multiset{d.buffer});
    }
    assert DropObj(s, Some(o)) == DropBuf(s2, d.buffer);
    MembersDestroyed(s, o, s2, d.buffer, pb);
  }

  lemma UnmapUses(s: State, url: Url)
    requires url in s.cache && Linked(s.cache, s.objs, s.next)
    requires UsesExact(s.cache, s.objs, s.uses, None)
    ensures Linked(s.cache - {url}, s.objs, s.next)
    ensures UsesExact(s.cache - {url}, s.objs, s.uses, Some(s.cache[url]))
  {
    var o := s.cache[url];
    forall p | p in s.uses
      ensures s.uses[p] == UseCount(s.cache - {url}, s.objs, Some(o), p) >= 1
    {
      assert s.uses[p] == UseCount(s.cache, s.objs, None, p);
      if p in s.cache.Values && p != o {
        var u :| u in s.cache && s.cache[u] == p;
        assert (s.cache - {url})[u] == p;
      }
    }
  }

  /** cache.erase keeps every count exact. */
  lemma EraseCounted(s: State, url: Url)
    requires Exact(s)
    ensures Exact(Erase(s, url)) && Shrunk(s, Erase(s, url))
    ensures Erase(s, url).cache == s.cache - {url}
  {
    if url in s.cache {
      UnmapUses(s, url);
      DropObjCounted(s.(cache := s.cache - {url}), Some(s.cache[url]), multiset{});
    } else {
      assert s.cache - {url} == s.cache;
    }
  }

  // ---------------------------------------------------------------- what exact counting means

  lemma HolderAbove(s: State, o: Ptr) returns (p: Ptr)
    requires Linked(s.cache, s.objs, s.next) && UsesExact(s.cache, s.objs, s.uses, None)
    requires o in s.objs && o !in s.cache.Values
    ensures PointsTo(s.objs, p, o) && o < p < s.next
  {
    assert s.uses[o] == UseCount(s.cache, s.objs, None, o);
    assert |Pointing(s.objs, o)| > 0;
    p :| p in Pointing(s.objs, o);
    assert PointsTo(s.objs, p, o);
  }

  lemma ChainExtends(s: State, p: Ptr, o: Ptr)
    requires PointsTo(s.objs, p, o) && o in s.objs && Reachable(s, p)
    ensures Reachable(s, o)
  {
    var path :| Chain(s, path) && path[|path| - 1] == p;
    assert Chain(s, path + [o]);
  }

  /** An entry that is alive is reachable: follow a holder upwards; holders are younger. */
  lemma {:induction false} AliveIsReachable(s: State, o: Ptr)
    requires Linked(s.cache, s.objs, s.next) && UsesExact(s.cache, s.objs, s.uses, None)
    requires o in s.objs
    ensures Reachable(s, o)
    decreases s.next - o
  {
    if o in s.cache.Values {
      assert Chain(s, [o]);
    } else {
      var p := HolderAbove(s, o);
      AliveIsReachable(s, p);
      ChainExtends(s, p, o);
    }
  }

  lemma BufferHasHolder(s: State, b: Ptr)
    requires BufUsesExact(s.objs, s.bufs, s.bufUses, s.next, multiset{}) && b in s.bufs
    ensures exists o :: o in s.objs && s.objs[o].buffer == b
  {
    assert s.bufUses[b] == BufCount(s.objs, multiset{}, b);
    assert |Holding(s.objs, b)| > 0;
    var o :| o in Holding(s.objs, b);
    assert o in s.objs && s.objs[o].buffer == b;
  }

  lemma BuffersAliveAreReachable(s: State)
    requires BufUsesExact(s.objs, s.bufs, s.bufUses, s.next, multiset{})
    requires forall o :: o in s.objs ==> Reachable(s, o)
    ensures s.bufs.Keys == ReachableBuffers(s)
  {
    forall b | b in s.bufs ensures b in ReachableBuffers(s) {
      BufferHasHolder(s, b);
    }
  }

  /**
   Reference counting loses nothing and leaks nothing: the entries alive are exactly the reachable
   ones, and the incremental byte total is the sum of the sizes of the distinct reachable buffers.
   */
  lemma TotalIsReachableBytes(s: State)
    requires Exact(s)
    ensures forall o :: o in s.objs <==> Reachable(s, o)
    ensures s.bufs.Keys == ReachableBuffers(s)
    ensures s.total == BytesOf(s, ReachableBuffers(s))
  {
    forall o | o in s.objs ensures Reachable(s, o) { AliveIsReachable(s, o); }
    BuffersAliveAreReachable(s);
  }
}
