/**
 The storing half of AampCache::Insert, pointer by pointer, and AampCache::Remove.
 */
module CacheInsert {
  import opened Prelude
  import opened CacheStore

  /** new std::vector with its counting deleter, held by the local cachedBuf */
  function NewBuffer(s: State, bytes: Bytes): State
  {
    s.(bufs := s.bufs[s.next := bytes], bufUses := s.bufUses[s.next := 1],
       total := SizeAdd(s.total, |bytes|), next := s.next + 1)
  }

  function Retained(counts: map<Ptr, nat>, p: Option<Ptr>): map<Ptr, nat>
  {
    if p.Some? && p.value in counts then counts[p.value := counts[p.value] + 1] else counts
  }

  /** make_shared<AampCachedData>, held by a local; its members take pointers of their own */
  function NewEntry(s: State, d: CachedData): State
  {
    s.(objs := s.objs[s.next := d], uses := Retained(s.uses, d.target)[s.next := 1],
       bufUses := Retained(s.bufUses, Some(d.buffer)), next := s.next + 1)
  }

  /** The local pointer to the newest entry is moved into the map. */
  function MoveIntoMap(s: State, url: Url, o: Ptr): State
  {
    s.(cache := s.cache[url := o])
  }

  /** aliasData->buffer = cachedBuf; aliasData->mediaType = mediaType */
  function SetBuffer(s: State, t: Ptr, b: Ptr, mt: MediaType): State
    requires t in s.objs
  {
    var d := s.objs[t];
    DropBuf(s.(objs := s.objs[t := d.(buffer := b, mediaType := mt)], bufUses := Retained(s.bufUses, Some(b))), d.buffer)
  }

  /**
   Lines 249-273. A new alias is moved into the map, so the local pointer that line 272 copies
   from is null; only a redirect to an alias that already exists gets a target (see MainEntry).
   (The main entry is numbered after its alias although it is allocated first; nothing sees that.)
   */
  function AliasWork(s1: State, redirected: bool, eff: Url, b: Ptr, mt: MediaType): State
    requires eff in s1.cache ==> s1.cache[eff] in s1.objs
  {
    if !redirected then s1
    else if eff !in s1.cache then MoveIntoMap(NewEntry(s1, CachedData("", b, mt, 0, None)), eff, s1.next)
    else SetBuffer(s1, s1.cache[eff], b, mt)
  }

  function Aliased(s: State, url: Url, bytes: Bytes, eff: Url, mt: MediaType): State
    requires eff in s.cache ==> s.cache[eff] in s.objs
  {
    AliasWork(NewBuffer(s, bytes), url != eff, eff, s.next, mt)
  }

  function MainEntry(s: State, url: Url, eff: Url, mt: MediaType): CachedData
  {
    CachedData(eff, s.next, mt, s.seqNo + 1, if url != eff && eff in s.cache then Some(s.cache[eff]) else None)
  }

  /** Lines 275-279: the main entry goes into the map, the local cachedBuf goes away. */
  function Finished(s2: State, url: Url, d: CachedData, seqNo: nat): State
  {
    DropBuf(MoveIntoMap(NewEntry(s2, d), url, s2.next), d.buffer).(seqNo := seqNo)
  }

  /** Lines 234-279, once room was made. */
  function Stored(s: State, url: Url, bytes: Bytes, eff: Url, mt: MediaType): State
    requires eff in s.cache ==> s.cache[eff] in s.objs
  {
    Finished(Aliased(s, url, bytes, eff, mt), url, MainEntry(s, url, eff, mt), s.seqNo + 1)
  }

  /** AampCache::Remove; the asserts of lines 290 and 293 are the precondition */
  function Removed(s: State, url: Url): State
    requires url in s.cache && s.cache[url] in s.objs && s.objs[s.cache[url]].effectiveUrl != ""
  {
    var d := s.objs[s.cache[url]];
    var s1 :=
      if d.target.Some? && d.target.value in s.uses && s.uses[d.target.value] == 2
      then Erase(s, d.effectiveUrl) else s;
    Erase(s1, url)
  }

  /** AampCache::Find on a hit */
  function Touched(s: State, url: Url): State
    requires url in s.cache && s.cache[url] in s.objs
  {
    Rewritten(s, s.cache[url], s.objs[s.cache[url]].(seqNo := s.seqNo + 1), s.seqNo + 1)
  }

  function Rewritten(s: State, t: Ptr, d: CachedData, n: nat): State { s.(objs := s.objs[t := d], seqNo := n) }

  // ---------------------------------------------------------------- the counts stay exact

  lemma NewBufferUses(s: State, bytes: Bytes)
    requires BufUsesExact(s.objs, s.bufs, s.bufUses, s.next, multiset{})
    ensures var s' := NewBuffer(s, bytes);
            BufUsesExact(s'.objs, s'.bufs, s'.bufUses, s'.next, multiset{s.next})
  {
    var s' := NewBuffer(s, bytes);
    assert s.next !in s.bufs;
    forall b | b in s'.bufUses
      ensures s'.bufUses[b] == BufCount(s'.objs, multiset{s.next}, b) >= 1
    {
      if b == s.next {
        assert Holding(s.objs, b) == {};
      } else {
        assert s.bufUses[b] == BufCount(s.objs, multiset{}, b);
      }
    }
  }

  lemma NewBufferTotal(s: State, bytes: Bytes)
    requires TotalExact(s) && s.total + |bytes| < SIZE_MOD
    requires forall b :: b in s.bufs ==> b < s.next
    ensures TotalExact(NewBuffer(s, bytes))
  {
    SizeBelowWith(s.bufs, s.bufs.Keys, s.next, bytes, s.next, s.next + 1);
    assert NewBuffer(s, bytes).bufs.Keys == s.bufs.Keys + {s.next};
  }

  lemma NewBufferCounted(s: State, bytes: Bytes)
    requires Exact(s) && s.total + |bytes| < SIZE_MOD
    ensures Counted(NewBuffer(s, bytes), None, multiset{s.next})
  {
    NewBufferUses(s, bytes);
    NewBufferTotal(s, bytes);
  }

  lemma PointingWith(objs: map<Ptr, CachedData>, o: Ptr, d: CachedData, t: Ptr)
    requires o !in objs
    ensures |Pointing(objs[o := d], t)| == |Pointing(objs, t)| + One(d.target == Some(t))
  {
    PointingWithout(objs[o := d], o, t);
    assert objs[o := d] - {o} == objs;
  }

  lemma HoldingWith(objs: map<Ptr, CachedData>, o: Ptr, d: CachedData, b: Ptr)
    requires o !in objs
    ensures |Holding(objs[o := d], b)| == |Holding(objs, b)| + One(d.buffer == b)
  {
    HoldingWithout(objs[o := d], o, b);
    assert objs[o := d] - {o} == objs;
  }

  lemma NewEntryLinked(s: State, d: CachedData)
    requires Linked(s.cache, s.objs, s.next)
    requires d.target.Some? ==> d.target.value in s.objs
    ensures Linked(s.cache, s.objs[s.next := d], s.next + 1)
  {
    var objs' := s.objs[s.next := d];
    forall p, t | PointsTo(objs', p, t) ensures t in objs' && t < p {
      if p != s.next { assert PointsTo(s.objs, p, t); }
    }
  }

  lemma NewEntryUses(s: State, d: CachedData)
    requires Linked(s.cache, s.objs, s.next) && UsesExact(s.cache, s.objs, s.uses, None)
    requires d.target.Some? ==> d.target.value in s.objs
    ensures var s' := NewEntry(s, d); UsesExact(s'.cache, s'.objs, s'.uses, Some(s.next))
  {
    var s' := NewEntry(s, d);
    assert s.next !in s.objs;
    assert s'.uses.Keys == s'.objs.Keys;
    forall t | t in s'.uses ensures s'.uses[t] == UseCount(s'.cache, s'.objs, Some(s.next), t) >= 1 {
      PointingWith(s.objs, s.next, d, t);
      if t == s.next {
        NothingPointsAt(s, t);
      } else {
        assert s.uses[t] == UseCount(s.cache, s.objs, None, t);
      }
    }
  }

  lemma NothingPointsAt(s: State, t: Ptr)
    requires Linked(s.cache, s.objs, s.next) && t !in s.objs
    ensures Pointing(s.objs, t) == {} && t !in s.cache.Values
  {
    forall p | p in Pointing(s.objs, t) ensures false { assert PointsTo(s.objs, p, t); }
  }

  lemma NewEntryBufUses(s: State, d: CachedData, pb: multiset<Ptr>)
    requires BufUsesExact(s.objs, s.bufs, s.bufUses, s.next, pb)
    requires d.buffer in s.bufs && s.next !in s.objs
    ensures var s' := NewEntry(s, d); BufUsesExact(s'.objs, s'.bufs, s'.bufUses, s'.next, pb)
  {
    var s' := NewEntry(s, d);
    forall b | b in s'.bufUses ensures s'.bufUses[b] == BufCount(s'.objs, pb, b) >= 1 {
      HoldingWith(s.objs, s.next, d, b);
      assert s.bufUses[b] == BufCount(s.objs, pb, b);
    }
  }

  lemma TotalKept(s: State, s': State)
    requires TotalExact(s) && s'.bufs == s.bufs && s'.total == s.total && s.next <= s'.next
    requires forall b :: b in s.bufs ==> b < s.next
    ensures TotalExact(s')
  {
    SizeBelowSame(s.bufs, s'.bufs, s.bufs.Keys, s'.bufs.Keys, s.next, s'.next);
  }

  lemma NewEntryCounted(s: State, d: CachedData, pb: multiset<Ptr>)
    requires Counted(s, None, pb)
    requires d.buffer in s.bufs && (d.target.Some? ==> d.target.value in s.objs)
    ensures Counted(NewEntry(s, d), Some(s.next), pb)
  {
    NewEntryLinked(s, d);
    NewEntryUses(s, d);
    assert s.next !in s.objs;
    NewEntryBufUses(s, d, pb);
    TotalKept(s, NewEntry(s, d));
  }

  lemma MoveIntoMapUses(s: State, url: Url, o: Ptr)
    requires UsesExact(s.cache, s.objs, s.uses, Some(o)) && url !in s.cache && o !in s.cache.Values
    ensures UsesExact(s.cache[url := o], s.objs, s.uses, None)
  {
    var cache' := s.cache[url := o];
    forall t | t in s.uses ensures s.uses[t] == UseCount(cache', s.objs, None, t) >= 1 {
      assert s.uses[t] == UseCount(s.cache, s.objs, Some(o), t);
      if t in s.cache.Values {
        var u :| u in s.cache && s.cache[u] == t;
        assert cache'[u] == t;
      }
      assert cache'[url] == o;
    }
  }

  lemma MoveIntoMapLinked(s: State, url: Url, o: Ptr)
    requires Linked(s.cache, s.objs, s.next) && o in s.objs && o !in s.cache.Values
    ensures Linked(s.cache[url := o], s.objs, s.next)
  {
    forall u | u in s.cache ensures s.cache[u] != o { assert s.cache[u] in s.cache.Values; }
  }

  lemma MoveIntoMapCounted(s: State, url: Url, o: Ptr, pb: multiset<Ptr>)
    requires Counted(s, Some(o), pb) && url !in s.cache && o !in s.cache.Values
    ensures Counted(MoveIntoMap(s, url, o), None, pb)
  {
    MoveIntoMapUses(s, url, o);
    MoveIntoMapLinked(s, url, o);
  }

  /** A fresh entry stored under a fresh key. */
  lemma PlacedCounted(s: State, url: Url, d: CachedData, pb: multiset<Ptr>)
    requires Counted(s, None, pb) && url !in s.cache
    requires d.buffer in s.bufs && (d.target.Some? ==> d.target.value in s.objs)
    ensures Counted(MoveIntoMap(NewEntry(s, d), url, s.next), None, pb)
  {
    NewEntryCounted(s, d, pb);
    NothingPointsAt(s, s.next);
    MoveIntoMapCounted(NewEntry(s, d), url, s.next, pb);
  }

  lemma RetargetPointing(objs: map<Ptr, CachedData>, t: Ptr, d: CachedData, o: Ptr)
    requires t in objs && d.target == objs[t].target
    ensures Pointing(objs[t := d], o) == Pointing(objs, o)
  {
  }

  lemma RetargetLinked(s: State, t: Ptr, d: CachedData)
    requires Linked(s.cache, s.objs, s.next) && t in s.objs && d.target == s.objs[t].target
    ensures Linked(s.cache, s.objs[t := d], s.next)
  {
    var objs' := s.objs[t := d];
    forall p, o | PointsTo(objs', p, o) ensures o in objs' && o < p {
      assert PointsTo(s.objs, p, o);
    }
  }

  lemma RetargetUses(s: State, t: Ptr, d: CachedData)
    requires UsesExact(s.cache, s.objs, s.uses, None) && t in s.objs && d.target == s.objs[t].target
    ensures UsesExact(s.cache, s.objs[t := d], s.uses, None)
  {
    forall o | o in s.uses ensures s.uses[o] == UseCount(s.cache, s.objs[t := d], None, o) >= 1 {
      assert s.uses[o] == UseCount(s.cache, s.objs, None, o);
      RetargetPointing(s.objs, t, d, o);
    }
  }

  lemma RetargetBufUses(s: State, t: Ptr, d: CachedData, pb: multiset<Ptr>)
    requires BufUsesExact(s.objs, s.bufs, s.bufUses, s.next, pb) && t in s.objs && d.buffer in s.bufs
    ensures BufUsesExact(s.objs[t := d], s.bufs, Retained(s.bufUses, Some(d.buffer)), s.next, pb + multiset{s.objs[t].buffer})
  {
    var rest := s.objs - {t};
    var bufUses' := Retained(s.bufUses, Some(d.buffer));
    assert s.objs[t].buffer in s.bufs;
    forall b | b in bufUses'
      ensures bufUses'[b] == BufCount(s.objs[t := d], pb + multiset{s.objs[t].buffer}, b) >= 1
    {
      assert s.bufUses[b] == BufCount(s.objs, pb, b);
      HoldingWithout(s.objs, t, b);
      HoldingWithout(s.objs[t := d], t, b);
      assert s.objs[t := d] - {t} == rest;
    }
  }

  lemma SetBufferCounted(s: State, t: Ptr, b: Ptr, mt: MediaType, pb: multiset<Ptr>)
    requires Counted(s, None, pb) && t in s.objs && b in s.bufs
    ensures Counted(SetBuffer(s, t, b, mt), None, pb)
    ensures SetBuffer(s, t, b, mt).total <= s.total
  {
    var d := s.objs[t].(buffer := b, mediaType := mt);
    RetargetLinked(s, t, d);
    RetargetUses(s, t, d);
    RetargetBufUses(s, t, d, pb);
    var s1 := s.(objs := s.objs[t := d], bufUses := Retained(s.bufUses, Some(b)));
    assert TotalExact(s1);
    DropBufCounted(s1, s.objs[t].buffer, None, pb);
  }

  lemma SetBufferFrame(s: State, t: Ptr, b: Ptr, mt: MediaType)
    requires t in s.objs
    ensures var s2 := SetBuffer(s, t, b, mt);
            && s2.cache == s.cache && s2.next == s.next
            && s2.objs == s.objs[t := s.objs[t].(buffer := b, mediaType := mt)]
            && (forall c :: c in s2.bufs ==> c in s.bufs && s2.bufs[c] == s.bufs[c])
  {
  }

  lemma FinishedFrame(s2: State, url: Url, d: CachedData, seqNo: nat)
    ensures var s' := Finished(s2, url, d, seqNo);
            && s'.cache == s2.cache[url := s2.next] && s'.seqNo == seqNo
            && s'.objs == s2.objs[s2.next := d]
            && (forall c :: c in s'.bufs ==> c in s2.bufs && s'.bufs[c] == s2.bufs[c])
  {
  }

  lemma FinishedCounted(s2: State, url: Url, d: CachedData, seqNo: nat)
    requires Counted(s2, None, multiset{d.buffer}) && url !in s2.cache
    requires d.target.Some? ==> d.target.value in s2.objs
    ensures Exact(Finished(s2, url, d, seqNo)) && Finished(s2, url, d, seqNo).total <= s2.total
  {
    assert d.buffer in multiset{d.buffer};
    PlacedCounted(s2, url, d, multiset{d.buffer});
    assert multiset{d.buffer} == multiset{} + multiset{d.buffer};
    DropBufCounted(MoveIntoMap(NewEntry(s2, d), url, s2.next), d.buffer, None, multiset{});
  }

  lemma AliasWorkCounted(s1: State, redirected: bool, eff: Url, b: Ptr, mt: MediaType)
    requires Counted(s1, None, multiset{b})
    ensures Counted(AliasWork(s1, redirected, eff, b, mt), None, multiset{b})
    ensures AliasWork(s1, redirected, eff, b, mt).total <= s1.total
  {
    assert b in multiset{b};
    if redirected {
      if eff !in s1.cache {
        PlacedCounted(s1, eff, CachedData("", b, mt, 0, None), multiset{b});
      } else {
        SetBufferCounted(s1, s1.cache[eff], b, mt, multiset{b});
      }
    }
  }

  lemma AliasedCounted(s: State, url: Url, bytes: Bytes, eff: Url, mt: MediaType)
    requires Exact(s) && s.total + |bytes| < SIZE_MOD
    ensures Counted(Aliased(s, url, bytes, eff, mt), None, multiset{s.next})
    ensures Aliased(s, url, bytes, eff, mt).total <= s.total + |bytes|
  {
    NewBufferCounted(s, bytes);
    AliasWorkCounted(NewBuffer(s, bytes), url != eff, eff, s.next, mt);
  }

  lemma AliasedFrame(s: State, url: Url, bytes: Bytes, eff: Url, mt: MediaType)
    requires eff in s.cache ==> s.cache[eff] in s.objs
    ensures var s2 := Aliased(s, url, bytes, eff, mt);
            && (eff in s.cache || url == eff ==> s2.cache == s.cache && s2.next == s.next + 1)
            && (eff !in s.cache && url != eff ==> s2.cache == s.cache[eff := s.next + 1] && s2.next == s.next + 2)
            && s2.objs ==
                 (if url == eff then s.objs
                  else if eff in s.cache
                  then s.objs[s.cache[eff] := s.objs[s.cache[eff]].(buffer := s.next, mediaType := mt)]
                  else s.objs[s.next + 1 := CachedData("", s.next, mt, 0, None)])
            && (forall c :: c in s2.bufs ==> c in s.bufs[s.next := bytes] && s2.bufs[c] == s.bufs[s.next := bytes][c])
  {
    if url != eff && eff in s.cache {
      SetBufferFrame(NewBuffer(s, bytes), s.cache[eff], s.next, mt);
    }
  }

  lemma ReadyToFinish(s: State, url: Url, bytes: Bytes, eff: Url, mt: MediaType)
    requires url !in s.cache && (eff in s.cache ==> s.cache[eff] in s.objs)
    ensures var s2, d := Aliased(s, url, bytes, eff, mt), MainEntry(s, url, eff, mt);
            url !in s2.cache && (d.target.Some? ==> d.target.value in s2.objs)
  {
    AliasedFrame(s, url, bytes, eff, mt);
  }

  /** Storing keeps every count exact, and adds at most the payload to the total. */
  lemma StoredCounted(s: State, url: Url, bytes: Bytes, eff: Url, mt: MediaType)
    requires Exact(s) && url !in s.cache && s.total + |bytes| < SIZE_MOD
    ensures Exact(Stored(s, url, bytes, eff, mt))
    ensures Stored(s, url, bytes, eff, mt).total <= s.total + |bytes|
  {
    var s2 := Aliased(s, url, bytes, eff, mt);
    assert Counted(s2, None, multiset{s.next}) && s2.total <= s.total + |bytes| by {
      AliasedCounted(s, url, bytes, eff, mt);
    }
    ReadyToFinish(s, url, bytes, eff, mt);
    FinishedCounted(s2, url, MainEntry(s, url, eff, mt), s.seqNo + 1);
  }

  // ---------------------------------------------------------------- what storing leaves behind

  /** url and eff lead to entries that share one buffer with the payload. */
  ghost predicate StoredEntries(s: State, s': State, url: Url, bytes: Bytes, eff: Url, mt: MediaType)
  {
    && s'.cache.Keys == s.cache.Keys + {url, eff}
    && s'.cache[url] in s'.objs && s'.cache[eff] in s'.objs
    && (var d := s'.objs[s'.cache[url]];
        && d == CachedData(eff, d.buffer, mt, s.seqNo + 1,
                           if url != eff && eff in s.cache then Some(s.cache[eff]) else None)
        && d.buffer in s'.bufs && s'.bufs[d.buffer] == bytes
        && (url != eff ==>
              s'.objs[s'.cache[eff]] ==
              if eff in s.cache && s.cache[eff] in s.objs
              then s.objs[s.cache[eff]].(buffer := d.buffer, mediaType := mt)
              else CachedData("", d.buffer, mt, 0, None)))
  }

  /** Every other key, entry and buffer that is still there is as before. */
  ghost predicate StoredFrame(s: State, s': State, url: Url, eff: Url)
  {
    && s'.seqNo == s.seqNo + 1
    && (forall u :: u in s.cache ==> u in s'.cache && s'.cache[u] == s.cache[u])
    && (forall o :: o in s.objs && !(eff in s.cache && url != eff && o == s.cache[eff]) ==>
          o in s'.objs && s'.objs[o] == s.objs[o])
    && (forall b :: b in s'.bufs && b in s.bufs ==> s'.bufs[b] == s.bufs[b])
  }

  lemma StoredKeepsOthers(s: State, url: Url, bytes: Bytes, eff: Url, mt: MediaType)
    requires Linked(s.cache, s.objs, s.next) && url !in s.cache
    requires forall b :: b in s.bufs ==> b < s.next
    ensures StoredFrame(s, Stored(s, url, bytes, eff, mt), url, eff)
  {
    AliasedFrame(s, url, bytes, eff, mt);
    FinishedFrame(Aliased(s, url, bytes, eff, mt), url, MainEntry(s, url, eff, mt), s.seqNo + 1);
  }

  lemma StoredFromAliased(s: State, url: Url, bytes: Bytes, eff: Url, mt: MediaType)
    requires eff in s.cache ==> s.cache[eff] in s.objs
    requires s.next in Stored(s, url, bytes, eff, mt).bufs
    ensures var s', s2 := Stored(s, url, bytes, eff, mt), Aliased(s, url, bytes, eff, mt);
            && s'.cache == s2.cache[url := s2.next] && s'.objs == s2.objs[s2.next := MainEntry(s, url, eff, mt)]
            && s'.bufs[s.next] == bytes
  {
    AliasedFrame(s, url, bytes, eff, mt);
    FinishedFrame(Aliased(s, url, bytes, eff, mt), url, MainEntry(s, url, eff, mt), s.seqNo + 1);
  }

  lemma StoredIsFound(s: State, url: Url, bytes: Bytes, eff: Url, mt: MediaType)
    requires Linked(s.cache, s.objs, s.next) && url !in s.cache
    requires s.next in Stored(s, url, bytes, eff, mt).bufs
    ensures StoredEntries(s, Stored(s, url, bytes, eff, mt), url, bytes, eff, mt)
  {
    hide Stored, Aliased;
    var s', s2, d := Stored(s, url, bytes, eff, mt), Aliased(s, url, bytes, eff, mt), MainEntry(s, url, eff, mt);
    AliasedFrame(s, url, bytes, eff, mt);
    StoredFromAliased(s, url, bytes, eff, mt);
    assert s'.objs[s'.cache[url]] == d;
    if url != eff {
      assert s'.cache[eff] == s2.cache[eff] != s2.next;
    }
  }

  /** The payload survives the end of Insert: the main entry holds it. */
  lemma StoredBufferKept(s: State, url: Url, bytes: Bytes, eff: Url, mt: MediaType)
    requires eff in s.cache ==> s.cache[eff] in s.objs
    requires Exact(Stored(s, url, bytes, eff, mt))
    ensures s.next in Stored(s, url, bytes, eff, mt).bufs
  {
    var s2 := Aliased(s, url, bytes, eff, mt);
    FinishedFrame(s2, url, MainEntry(s, url, eff, mt), s.seqNo + 1);
    assert Stored(s, url, bytes, eff, mt).objs[s2.next].buffer == s.next;
  }
}
