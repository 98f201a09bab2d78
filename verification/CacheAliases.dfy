/**
 Requested entries and the aliases they redirect to. An alias should be cached exactly while some
 requested entry redirects to it; this module proves exactly when Remove and Insert keep that.
 */
module CacheAliases {
  import opened Prelude
  import opened CacheStore
  import opened CacheInsert

  ghost predicate Present(s: State, u: Url) { u in s.cache && s.cache[u] in s.objs }

  ghost function Entry(s: State, u: Url): CachedData
    requires Present(s, u)
  {
    s.objs[s.cache[u]]
  }

  ghost predicate Requested(s: State, u: Url) { Present(s, u) && Entry(s, u).effectiveUrl != "" }

  ghost predicate IsAlias(s: State, u: Url) { Present(s, u) && Entry(s, u).effectiveUrl == "" }

  ghost predicate Redirects(s: State, u: Url, e: Url)
  {
    Requested(s, u) && Entry(s, u).effectiveUrl == e && u != e
  }

  /** e is cached as an alias exactly if some requested entry redirects to it. */
  ghost predicate RightAt(s: State, e: Url)
  {
    IsAlias(s, e) <==> exists u :: Redirects(s, u, e)
  }

  ghost predicate AliasesRight(s: State) { forall e :: RightAt(s, e) }

  /** A target pointer leads to the alias now cached under the entry's effective URL; aliases have none. */
  ghost predicate TargetsCurrent(s: State)
  {
    && (forall u :: IsAlias(s, u) ==> Entry(s, u).target.None?)
    && (forall u :: Requested(s, u) && Entry(s, u).target.Some? ==>
          && Redirects(s, u, Entry(s, u).effectiveUrl) && IsAlias(s, Entry(s, u).effectiveUrl)
          && Entry(s, u).target == Some(s.cache[Entry(s, u).effectiveUrl]))
  }

  /** Everything this module says of aliases. */
  ghost predicate AliasesFine(s: State) { TargetsCurrent(s) && AliasesRight(s) }

  ghost predicate SharesTarget(s: State, u: Url, v: Url)
  {
    u != v && Requested(s, u) && Requested(s, v) && Entry(s, u).target.Some? && Entry(s, u).target == Entry(s, v).target
  }

  /**
   When Remove(v) leaves v's alias right. v has a target only if the alias existed when v was
   inserted; without one the alias is never erased, with one it is erased when v is its last holder.
   */
  ghost predicate RemoveIsSafe(s: State, v: Url)
    requires Requested(s, v)
  {
    var e := Entry(s, v).effectiveUrl;
    var another := exists u :: u != v && Redirects(s, u, e);
    || v == e
    || (if Entry(s, v).target.None? then another else another ==> exists u :: SharesTarget(s, u, v))
  }

  // ---------------------------------------------------------------- Find

  /** Key u is there in both states, with entries that differ at most in their sequence numbers. */
  ghost predicate SameButSeqNo(s: State, s': State, u: Url)
  {
    && (Present(s', u) <==> Present(s, u))
    && (Present(s, u) ==> s'.cache[u] == s.cache[u] && Entry(s', u) == Entry(s, u).(seqNo := Entry(s', u).seqNo))
  }

  lemma TouchedView(s: State, url: Url, u: Url)
    requires Present(s, url)
    ensures SameButSeqNo(s, Touched(s, url), u)
  {
  }

  lemma SameRightAt(s: State, s': State, x: Url)
    requires forall u :: SameButSeqNo(s, s', u)
    ensures RightAt(s', x) <==> RightAt(s, x)
  {
    assert SameButSeqNo(s, s', x);
    forall u ensures Redirects(s', u, x) <==> Redirects(s, u, x) { assert SameButSeqNo(s, s', u); }
  }

  lemma SameTargetAt(s: State, s': State, u: Url)
    requires forall u :: SameButSeqNo(s, s', u)
    ensures TargetCurrentAt(s', u) <==> TargetCurrentAt(s, u)
  {
    assert SameButSeqNo(s, s', u);
    if Present(s, u) { assert SameButSeqNo(s, s', Entry(s, u).effectiveUrl); }
  }

  /** Find changes nothing about aliases. */
  lemma TouchedAliases(s: State, url: Url)
    requires Present(s, url)
    ensures AliasesRight(Touched(s, url)) <==> AliasesRight(s)
    ensures TargetsCurrent(Touched(s, url)) <==> TargetsCurrent(s)
  {
    hide Touched, SameButSeqNo, RightAt, TargetsCurrent, TargetCurrentAt;
    var s' := Touched(s, url);
    forall u ensures SameButSeqNo(s, s', u) { TouchedView(s, url, u); }
    forall x ensures RightAt(s', x) <==> RightAt(s, x) { SameRightAt(s, s', x); }
    forall u ensures TargetCurrentAt(s', u) <==> TargetCurrentAt(s, u) { SameTargetAt(s, s', u); }
    TargetsCurrentEverywhere(s);
    TargetsCurrentEverywhere(s');
  }

  // ---------------------------------------------------------------- every living entry is mapped

  lemma TargetIsMapped(s: State, u: Url, o: Ptr)
    requires TargetsCurrent(s) && Present(s, u) && Entry(s, u).target == Some(o)
    ensures o in s.cache.Values
  {
    assert IsAlias(s, u) || Requested(s, u);
    assert s.cache[Entry(s, u).effectiveUrl] == o;
  }

  lemma {:induction false} AliveIsMapped(s: State, o: Ptr)
    requires Linked(s.cache, s.objs, s.next) && UsesExact(s.cache, s.objs, s.uses, None)
    requires TargetsCurrent(s) && o in s.objs
    ensures o in s.cache.Values
    decreases s.next - o
  {
    if o !in s.cache.Values {
      var p := HolderAbove(s, o);
      AliveIsMapped(s, p);
      var u :| u in s.cache && s.cache[u] == p;
      TargetIsMapped(s, u, o);
    }
  }

  /** use_count() == 2 says that v is the only entry whose target is this alias. */
  lemma UseCountTwo(s: State, v: Url)
    requires Linked(s.cache, s.objs, s.next) && UsesExact(s.cache, s.objs, s.uses, None)
    requires TargetsCurrent(s) && Requested(s, v) && Entry(s, v).target.Some?
    ensures Entry(s, v).target.value in s.uses
    ensures s.uses[Entry(s, v).target.value] == 2 <==> !exists u :: SharesTarget(s, u, v)
  {
    var t := Entry(s, v).target.value;
    var pointing := Pointing(s.objs, t);
    assert t == s.cache[Entry(s, v).effectiveUrl];
    assert s.uses[t] == UseCount(s.cache, s.objs, None, t) == 1 + |pointing|;
    assert s.cache[v] in pointing;
    if u :| SharesTarget(s, u, v) {
      assert s.cache[u] != s.cache[v];
      assert {s.cache[u], s.cache[v]} <= pointing;
      CardinalityTwo(pointing, s.cache[u], s.cache[v]);
    } else {
      forall p | p in pointing ensures p == s.cache[v] {
        AliveIsMapped(s, p);
        var u :| u in s.cache && s.cache[u] == p;
        assert IsAlias(s, u) || Requested(s, u);
        assert u != v ==> SharesTarget(s, u, v);
      }
      assert pointing == {s.cache[v]};
    }
  }

  lemma CardinalityTwo(x: set<Ptr>, a: Ptr, b: Ptr)
    requires a in x && b in x && a != b
    ensures |x| >= 2
  {
    assert |x - {a}| == |x| - 1;
    assert b in x - {a};
  }

  // ---------------------------------------------------------------- Remove

  /** Whether Remove(v) also erases v's effective URL. */
  ghost predicate ErasesAlias(s: State, v: Url)
    requires Requested(s, v)
  {
    var t := Entry(s, v).target;
    t.Some? && t.value in s.uses && s.uses[t.value] == 2
  }

  /** One more key erased from a state that has only lost things so far. */
  lemma EraseNext(s: State, s1: State, v: Url)
    requires Exact(s1) && Shrunk(s, s1)
    ensures Exact(Erase(s1, v)) && Shrunk(s, Erase(s1, v)) && Erase(s1, v).cache == s1.cache - {v}
  {
    EraseCounted(s1, v);
    ShrunkTrans(s, s1, Erase(s1, v));
  }

  lemma MinusBoth(m: map<Url, Ptr>, e: Url, v: Url)
    ensures m - {e} - {v} == m - {v, e}
  {
  }

  lemma ErasedBoth(s: State, e: Url, v: Url)
    requires Exact(s)
    ensures var s' := Erase(Erase(s, e), v); Exact(s') && Shrunk(s, s') && s'.cache == s.cache - {v, e}
  {
    assert Exact(Erase(s, e)) && Shrunk(s, Erase(s, e)) && Erase(s, e).cache == s.cache - {e} by { EraseCounted(s, e); }
    EraseNext(s, Erase(s, e), v);
    MinusBoth(s.cache, e, v);
  }

  ghost function Gone(s: State, v: Url): set<Url>
    requires Requested(s, v)
  {
    if ErasesAlias(s, v) then {v, Entry(s, v).effectiveUrl} else {v}
  }

  lemma RemovedCounted(s: State, v: Url)
    requires Exact(s) && Requested(s, v)
    ensures Exact(Removed(s, v)) && Shrunk(s, Removed(s, v))
    ensures Removed(s, v).cache == s.cache - Gone(s, v)
  {
    if ErasesAlias(s, v) {
      ErasedBoth(s, Entry(s, v).effectiveUrl, v);
    } else {
      EraseCounted(s, v);
    }
  }

  /** s' has lost the keys in `gone`; the entries that stay are unchanged. */
  ghost predicate Survives(s: State, s': State, gone: set<Url>, u: Url)
  {
    && (Present(s', u) <==> Present(s, u) && u !in gone)
    && (Present(s', u) ==> Entry(s', u) == Entry(s, u) && s'.cache[u] == s.cache[u])
  }

  lemma KeysLost(s: State, s': State, gone: set<Url>, u: Url)
    requires Linked(s.cache, s.objs, s.next) && Linked(s'.cache, s'.objs, s'.next)
    requires Shrunk(s, s') && s'.cache == s.cache - gone
    ensures Survives(s, s', gone, u)
  {
    if u in s'.cache { assert s'.cache[u] in s'.objs; }
    if u in s.cache { assert s.cache[u] in s.objs; }
  }

  lemma RemovedView(s: State, v: Url, u: Url)
    requires Exact(s) && Requested(s, v)
    ensures Survives(s, Removed(s, v), Gone(s, v), u)
  {
    RemovedCounted(s, v);
    KeysLost(s, Removed(s, v), Gone(s, v), u);
  }

  lemma AliasErasedIsAlias(s: State, v: Url)
    requires TargetsCurrent(s) && Requested(s, v) && ErasesAlias(s, v)
    ensures IsAlias(s, Entry(s, v).effectiveUrl) && Entry(s, v).effectiveUrl != v
  {
  }

  /** Away from v's effective URL nothing changes. */
  lemma RemovedElsewhere(s: State, s': State, v: Url, x: Url)
    requires TargetsCurrent(s) && Requested(s, v)
    requires forall u :: Survives(s, s', Gone(s, v), u)
    requires x != Entry(s, v).effectiveUrl || x == v
    ensures RightAt(s', x) <==> RightAt(s, x)
  {
    if ErasesAlias(s, v) { AliasErasedIsAlias(s, v); }
    assert Survives(s, s', Gone(s, v), x);
    forall u ensures Redirects(s', u, x) <==> Redirects(s, u, x) {
      assert Survives(s, s', Gone(s, v), u);
    }
  }

  lemma RemovedHere(s: State, s': State, v: Url)
    requires Linked(s.cache, s.objs, s.next) && UsesExact(s.cache, s.objs, s.uses, None)
    requires TargetsCurrent(s) && Requested(s, v)
    requires forall u :: Survives(s, s', Gone(s, v), u)
    requires RightAt(s, Entry(s, v).effectiveUrl) && Entry(s, v).effectiveUrl != v
    ensures RightAt(s', Entry(s, v).effectiveUrl) <==> RemoveIsSafe(s, v)
  {
    var e := Entry(s, v).effectiveUrl;
    if Entry(s, v).target.Some? { UseCountTwo(s, v); }
    assert Survives(s, s', Gone(s, v), e);
    assert Redirects(s, v, e);
    forall u ensures Redirects(s', u, e) <==> u != v && Redirects(s, u, e) {
      assert Survives(s, s', Gone(s, v), u);
    }
    forall u | SharesTarget(s, u, v) ensures u != v && Redirects(s, u, e) {
      SharedMeansAnother(s, u, v);
    }
  }

  lemma SharedMeansAnother(s: State, u: Url, v: Url)
    requires Linked(s.cache, s.objs, s.next) && TargetsCurrent(s) && SharesTarget(s, u, v)
    ensures u != v && Redirects(s, u, Entry(s, v).effectiveUrl)
  {
    assert s.cache[Entry(s, u).effectiveUrl] == s.cache[Entry(s, v).effectiveUrl];
  }

  /**
   Remove keeps the aliases right exactly when the removed entry has no alias of its own, or has no
   target but is not the alias's only redirector, or has a target and is not the last holder while
   others redirect there.
   */
  lemma RemoveKeepsAliasesIff(s: State, v: Url)
    requires Exact(s) && TargetsCurrent(s) && AliasesRight(s) && Requested(s, v)
    ensures AliasesRight(Removed(s, v)) <==> RemoveIsSafe(s, v)
  {
    var e, s' := Entry(s, v).effectiveUrl, Removed(s, v);
    forall u ensures Survives(s, s', Gone(s, v), u) { RemovedView(s, v, u); }
    forall x | x != e || x == v ensures RightAt(s', x) {
      RemovedElsewhere(s, s', v, x);
      assert RightAt(s, x);
    }
    assert RightAt(s, e);
    if e != v { RemovedHere(s, s', v); }
  }

  ghost predicate TargetCurrentAt(s: State, u: Url)
  {
    Present(s, u) && Entry(s, u).target.Some? ==>
      (var e := Entry(s, u).effectiveUrl;
       Redirects(s, u, e) && IsAlias(s, e) && Entry(s, u).target == Some(s.cache[e]))
  }

  lemma TargetsCurrentEverywhere(s: State)
    ensures TargetsCurrent(s) <==> forall u :: TargetCurrentAt(s, u)
  {
    if forall u :: TargetCurrentAt(s, u) {
      forall u | Present(s, u) && Entry(s, u).target.Some? ensures Requested(s, u) { assert TargetCurrentAt(s, u); }
      forall u | Requested(s, u) && Entry(s, u).target.Some?
        ensures Redirects(s, u, Entry(s, u).effectiveUrl) && IsAlias(s, Entry(s, u).effectiveUrl)
        ensures Entry(s, u).target == Some(s.cache[Entry(s, u).effectiveUrl])
      {
        assert TargetCurrentAt(s, u);
      }
    }
    if TargetsCurrent(s) {
      forall u ensures TargetCurrentAt(s, u) {
        if Present(s, u) { assert IsAlias(s, u) || Requested(s, u); }
      }
    }
  }

  lemma RemovedTarget(s: State, s': State, v: Url, u: Url)
    requires Linked(s.cache, s.objs, s.next) && UsesExact(s.cache, s.objs, s.uses, None)
    requires TargetsCurrent(s) && Requested(s, v)
    requires forall x :: Survives(s, s', Gone(s, v), x)
    ensures TargetCurrentAt(s', u)
  {
    assert Survives(s, s', Gone(s, v), u);
    if Present(s', u) && Entry(s', u).target.Some? {
      TargetsCurrentEverywhere(s);
      assert TargetCurrentAt(s, u);
      assert Survives(s, s', Gone(s, v), Entry(s, u).effectiveUrl);
      if Entry(s, v).target.Some? {
        UseCountTwo(s, v);
        assert Entry(s, u).effectiveUrl == Entry(s, v).effectiveUrl ==> SharesTarget(s, u, v);
      }
    }
  }

  lemma RemovedTargets(s: State, v: Url)
    requires Exact(s) && TargetsCurrent(s) && Requested(s, v)
    ensures TargetsCurrent(Removed(s, v))
  {
    forall u ensures Survives(s, Removed(s, v), Gone(s, v), u) { RemovedView(s, v, u); }
    forall u ensures TargetCurrentAt(Removed(s, v), u) { RemovedTarget(s, Removed(s, v), v, u); }
    TargetsCurrentEverywhere(Removed(s, v));
  }

  // ---------------------------------------------------------------- Insert

  /** What key u looks like after url was stored with effective URL eff. */
  ghost predicate StoredAt(s: State, s': State, url: Url, eff: Url, mt: MediaType, u: Url)
  {
    && (Present(s', u) <==> Present(s, u) || u == url || u == eff)
    && (Present(s, u) ==> u in s.cache && s'.cache[u] == s.cache[u])
    && (Present(s, u) && !(u == eff && url != eff) ==> Entry(s', u) == Entry(s, u))
    && (Present(s, u) && u == eff && url != eff ==>
          Entry(s', u) == Entry(s, u).(buffer := Entry(s', u).buffer, mediaType := mt))
    && (u == url ==>
          Entry(s', u) == CachedData(eff, Entry(s', u).buffer, mt, s.seqNo + 1,
                                     if url != eff && eff in s.cache then Some(s.cache[eff]) else None))
    && (u == eff && u != url && !Present(s, u) ==> Entry(s', u) == CachedData("", Entry(s', u).buffer, mt, 0, None))
  }

  lemma StoredView(s: State, url: Url, bytes: Bytes, eff: Url, mt: MediaType, u: Url)
    requires Exact(s) && url !in s.cache && s.total + |bytes| < SIZE_MOD
    ensures StoredAt(s, Stored(s, url, bytes, eff, mt), url, eff, mt, u)
  {
    StoredCounted(s, url, bytes, eff, mt);
    StoredBufferKept(s, url, bytes, eff, mt);
    StoredViewFrom(s, Stored(s, url, bytes, eff, mt), url, bytes, eff, mt, u) by {
      StoredIsFound(s, url, bytes, eff, mt);
      StoredKeepsOthers(s, url, bytes, eff, mt);
    }
  }

  lemma StoredViewFrom(s: State, s': State, url: Url, bytes: Bytes, eff: Url, mt: MediaType, u: Url)
    requires Linked(s.cache, s.objs, s.next) && url !in s.cache
    requires StoredEntries(s, s', url, bytes, eff, mt) && StoredFrame(s, s', url, eff)
    ensures StoredAt(s, s', url, eff, mt, u)
  {
    if u in s.cache {
      assert s.cache[u] in s.objs;
      assert s'.cache[u] == s.cache[u];
      if eff in s.cache && u != eff { assert s.cache[u] != s.cache[eff]; }
    }
  }

  /** The redirect target is not itself cached as a requested entry. */
  ghost predicate TargetNotRequested(s: State, url: Url, eff: Url)
  {
    url != eff ==> !Requested(s, eff)
  }

  lemma StoredRedirects(s: State, s': State, url: Url, eff: Url, mt: MediaType, u: Url, x: Url)
    requires url !in s.cache && eff != "" && TargetNotRequested(s, url, eff) && StoredAt(s, s', url, eff, mt, u)
    ensures Redirects(s', u, x) <==> Redirects(s, u, x) || (u == url && x == eff && url != eff)
  {
  }

  lemma StoredRightAt(s: State, s': State, url: Url, eff: Url, mt: MediaType, x: Url)
    requires url !in s.cache && eff != "" && TargetNotRequested(s, url, eff)
    requires forall u :: StoredAt(s, s', url, eff, mt, u)
    ensures RightAt(s', x) <==> RightAt(s, x) || (url != eff && x == eff)
  {
    assert StoredAt(s, s', url, eff, mt, x);
    assert IsAlias(s', x) <==> IsAlias(s, x) || (x == eff && url != eff);
    forall u ensures Redirects(s', u, x) <==> Redirects(s, u, x) || (u == url && x == eff && url != eff) {
      assert StoredAt(s, s', url, eff, mt, u);
      StoredRedirects(s, s', url, eff, mt, u, x);
    }
    if url != eff && x == eff { assert Redirects(s', url, x); }
  }

  lemma StoredTarget(s: State, s': State, url: Url, eff: Url, mt: MediaType, u: Url)
    requires url !in s.cache && eff != "" && TargetNotRequested(s, url, eff)
    requires forall x :: StoredAt(s, s', url, eff, mt, x)
    requires TargetCurrentAt(s, u) && Linked(s.cache, s.objs, s.next)
    requires TargetCurrentAt(s, eff)
    ensures TargetCurrentAt(s', u)
  {
    assert StoredAt(s, s', url, eff, mt, u);
    assert StoredAt(s, s', url, eff, mt, eff);
    if Present(s, u) { assert StoredAt(s, s', url, eff, mt, Entry(s, u).effectiveUrl); }
    if eff in s.cache { assert s.cache[eff] in s.objs; }
  }

  lemma StoredTargets(s: State, url: Url, bytes: Bytes, eff: Url, mt: MediaType)
    requires Exact(s) && TargetsCurrent(s) && url !in s.cache && s.total + |bytes| < SIZE_MOD
    requires eff != "" && TargetNotRequested(s, url, eff)
    ensures TargetsCurrent(Stored(s, url, bytes, eff, mt))
  {
    var s' := Stored(s, url, bytes, eff, mt);
    TargetsCurrentEverywhere(s);
    forall u ensures StoredAt(s, s', url, eff, mt, u) { StoredView(s, url, bytes, eff, mt, u); }
    forall u ensures TargetCurrentAt(s', u) {
      assert TargetCurrentAt(s, eff) && TargetCurrentAt(s, u);
      StoredTarget(s, s', url, eff, mt, u);
    }
    TargetsCurrentEverywhere(s');
  }

  /** Storing makes the alias it redirects to right and changes no other. */
  lemma StoredAliases(s: State, url: Url, bytes: Bytes, eff: Url, mt: MediaType)
    requires Exact(s) && url !in s.cache && s.total + |bytes| < SIZE_MOD
    requires eff != "" && TargetNotRequested(s, url, eff)
    ensures forall x :: RightAt(Stored(s, url, bytes, eff, mt), x) <==> RightAt(s, x) || (url != eff && x == eff)
  {
    var s' := Stored(s, url, bytes, eff, mt);
    forall u ensures StoredAt(s, s', url, eff, mt, u) { StoredView(s, url, bytes, eff, mt, u); }
    forall x ensures RightAt(s', x) <==> RightAt(s, x) || (url != eff && x == eff) {
      StoredRightAt(s, s', url, eff, mt, x);
    }
  }

  lemma RemovedOnlyHere(s: State, v: Url)
    requires Exact(s) && TargetsCurrent(s) && AliasesRight(s) && Requested(s, v)
    ensures forall x :: x != Entry(s, v).effectiveUrl ==> RightAt(Removed(s, v), x)
  {
    forall u ensures Survives(s, Removed(s, v), Gone(s, v), u) { RemovedView(s, v, u); }
    forall x | x != Entry(s, v).effectiveUrl ensures RightAt(Removed(s, v), x) {
      RemovedElsewhere(s, Removed(s, v), v, x);
      assert RightAt(s, x);
    }
  }

  lemma RemovedThenStored(s: State, v: Url, url: Url, bytes: Bytes, eff: Url, mt: MediaType)
    requires Exact(s) && Requested(s, v)
    requires url !in s.cache && s.total + |bytes| < SIZE_MOD && eff != "" && TargetNotRequested(s, url, eff)
    ensures var s1 := Removed(s, v);
            && url !in s1.cache && (eff in s1.cache ==> s1.cache[eff] in s1.objs)
            && forall x :: RightAt(Stored(s1, url, bytes, eff, mt), x) <==> RightAt(s1, x) || (url != eff && x == eff)
  {
    RemovedCounted(s, v);
    RemovedView(s, v, eff);
    StoredAliases(Removed(s, v), url, bytes, eff, mt);
  }

  /**
   An Insert that evicts v first keeps the aliases right exactly when evicting v alone does, or
   when the new entry redirects to the same alias and so restores it.
   */
  lemma EvictingInsertKeepsAliasesIff(s: State, v: Url, url: Url, bytes: Bytes, eff: Url, mt: MediaType)
    requires Exact(s) && TargetsCurrent(s) && AliasesRight(s) && Requested(s, v)
    requires url !in s.cache && s.total + |bytes| < SIZE_MOD && eff != "" && TargetNotRequested(s, url, eff)
    ensures var s1 := Removed(s, v);
            && (eff in s1.cache ==> s1.cache[eff] in s1.objs)
            && (AliasesRight(Stored(s1, url, bytes, eff, mt)) <==>
                RemoveIsSafe(s, v) || (url != eff && eff == Entry(s, v).effectiveUrl))
  {
    RemovedThenStored(s, v, url, bytes, eff, mt);
    RemovedOnlyHere(s, v);
    RemoveKeepsAliasesIff(s, v);
    EvictionLogic(Removed(s, v), Stored(Removed(s, v), url, bytes, eff, mt), Entry(s, v).effectiveUrl, url, eff);
  }

  /** When an Insert that evicts `victim`, if any, keeps the aliases right. */
  ghost predicate InsertIsSafe(s: State, victim: Option<Url>, url: Url, eff: Url)
    requires victim.Some? ==> Requested(s, victim.value)
  {
    victim.Some? ==> RemoveIsSafe(s, victim.value) || (url != eff && eff == Entry(s, victim.value).effectiveUrl)
  }

  /** What Insert does to aliases that are fine: targets stay current, and the aliases right exactly if it is safe. */
  lemma InsertAliases(s: State, victim: Option<Url>, room: State, url: Url, bytes: Bytes, eff: Url, mt: MediaType)
    requires Exact(s) && Exact(room) && AliasesFine(s)
    requires victim.Some? ==> Requested(s, victim.value)
    requires room == if victim.Some? then Removed(s, victim.value) else s
    requires url !in s.cache && s.total + |bytes| < SIZE_MOD && eff != "" && TargetNotRequested(s, url, eff)
    requires eff in room.cache ==> room.cache[eff] in room.objs
    ensures TargetsCurrent(Stored(room, url, bytes, eff, mt))
    ensures AliasesRight(Stored(room, url, bytes, eff, mt)) <==> InsertIsSafe(s, victim, url, eff)
  {
    hide Exact, TargetsCurrent, AliasesRight, Stored, RemoveIsSafe;
    if victim.Some? {
      EvictingInsertKeepsAliasesIff(s, victim.value, url, bytes, eff, mt);
      RemovedTargets(s, victim.value);
      RoomAfterRemove(s, victim.value, url, eff);
      StoredTargets(room, url, bytes, eff, mt);
    } else {
      StoredTargets(s, url, bytes, eff, mt);
      StoredAliasesRight(s, url, bytes, eff, mt);
    }
  }

  lemma RoomAfterRemove(s: State, v: Url, url: Url, eff: Url)
    requires Exact(s) && Requested(s, v) && url !in s.cache && TargetNotRequested(s, url, eff)
    ensures url !in Removed(s, v).cache && TargetNotRequested(Removed(s, v), url, eff) && Removed(s, v).total <= s.total
  {
    RemovedCounted(s, v);
    RemovedView(s, v, eff);
  }

  lemma StoredAliasesRight(s: State, url: Url, bytes: Bytes, eff: Url, mt: MediaType)
    requires Exact(s) && AliasesRight(s) && url !in s.cache && s.total + |bytes| < SIZE_MOD
    requires eff != "" && TargetNotRequested(s, url, eff)
    ensures AliasesRight(Stored(s, url, bytes, eff, mt))
  {
    StoredAliases(s, url, bytes, eff, mt);
    assert forall x :: RightAt(s, x);
  }

  lemma EvictionLogic(s1: State, s': State, e: Url, url: Url, eff: Url)
    requires forall x :: RightAt(s', x) <==> RightAt(s1, x) || (url != eff && x == eff)
    requires forall x :: x != e ==> RightAt(s1, x)
    ensures AliasesRight(s') <==> AliasesRight(s1) || (url != eff && eff == e)
  {
    assert AliasesRight(s') <==> RightAt(s', e);
    assert AliasesRight(s1) <==> RightAt(s1, e);
  }

  /** Storing a redirect to a fresh alias: right everywhere, targets current, one redirector without target. */
  lemma FirstRedirect(s: State, a: Url, bytes: Bytes, e: Url, mt: MediaType)
    requires Exact(s) && TargetsCurrent(s) && AliasesRight(s) && s.total + |bytes| < SIZE_MOD
    requires a !in s.cache && e !in s.cache && a != e && e != ""
    ensures var s1 := Stored(s, a, bytes, e, mt);
            && AliasesRight(s1) && TargetsCurrent(s1) && Redirects(s1, a, e) && Entry(s1, a).target == None
            && !exists u :: u != a && Redirects(s1, u, e)
  {
    var s1 := Stored(s, a, bytes, e, mt);
    StoredTargets(s, a, bytes, e, mt);
    StoredAliases(s, a, bytes, e, mt);
    assert forall x :: RightAt(s, x);
    StoredView(s, a, bytes, e, mt, a);
    forall u | u != a ensures !Redirects(s1, u, e) {
      StoredView(s, a, bytes, e, mt, u);
      StoredRedirects(s, s1, a, e, mt, u, e);
      assert RightAt(s, e);
    }
  }

  /** Removing that first redirector leaves e cached although nothing redirects to it any more. */
  lemma OrphanedAlias(s: State, a: Url, bytes: Bytes, e: Url, mt: MediaType)
    requires Exact(s) && TargetsCurrent(s) && AliasesRight(s) && s.total + |bytes| < SIZE_MOD
    requires a !in s.cache && e !in s.cache && a != e && e != ""
    ensures var s1 := Stored(s, a, bytes, e, mt); Requested(s1, a) && !AliasesRight(Removed(s1, a))
  {
    FirstRedirect(s, a, bytes, e, mt);
    StoredCounted(s, a, bytes, e, mt);
    RemoveKeepsAliasesIff(Stored(s, a, bytes, e, mt), a);
  }

  /** With two redirectors, removing the second (it has the only target) erases e under the first. */
  lemma LostAlias(s: State, a: Url, b: Url, bytes: Bytes, e: Url, mt: MediaType)
    requires Exact(s) && TargetsCurrent(s) && AliasesRight(s) && s.total + 2 * |bytes| < SIZE_MOD
    requires a !in s.cache && b !in s.cache && e !in s.cache && a != e && b != e && a != b && e != ""
    ensures var s1 := Stored(s, a, bytes, e, mt);
            && e in s1.cache && s1.cache[e] in s1.objs
            && (var s2 := Stored(s1, b, bytes, e, mt); Requested(s2, b) && !AliasesRight(Removed(s2, b)))
  {
    var s1 := Stored(s, a, bytes, e, mt);
    FirstRedirect(s, a, bytes, e, mt);
    assert RightAt(s1, e);
    assert Exact(s1) && s1.total <= s.total + |bytes| && b !in s1.cache by {
      StoredCounted(s, a, bytes, e, mt);
      StoredView(s, a, bytes, e, mt, b);
    }
    SecondRedirect(s1, a, b, bytes, e, mt);
  }

  lemma SecondRedirect(s1: State, a: Url, b: Url, bytes: Bytes, e: Url, mt: MediaType)
    requires Exact(s1) && TargetsCurrent(s1) && AliasesRight(s1) && s1.total + |bytes| < SIZE_MOD
    requires Redirects(s1, a, e) && Entry(s1, a).target == None && IsAlias(s1, e)
    requires b !in s1.cache && !(exists u :: u != a && Redirects(s1, u, e))
    ensures var s2 := Stored(s1, b, bytes, e, mt); Requested(s2, b) && !AliasesRight(Removed(s2, b))
  {
    var s2 := Stored(s1, b, bytes, e, mt);
    StoredTargets(s1, b, bytes, e, mt);
    assert AliasesRight(s2) by {
      StoredAliases(s1, b, bytes, e, mt);
      assert forall x :: RightAt(s1, x);
    }
    assert Redirects(s2, a, e) && Requested(s2, b) && Entry(s2, b).target.Some? && Entry(s2, b).effectiveUrl == e by {
      StoredView(s1, b, bytes, e, mt, a);
      StoredView(s1, b, bytes, e, mt, b);
    }
    assert !RemoveIsSafe(s2, b) by {
      forall u ensures !SharesTarget(s2, u, b) {
        NoOneElseSharesTarget(s1, a, b, bytes, e, mt, u);
      }
    }
    assert Exact(s2) by { StoredCounted(s1, b, bytes, e, mt); }
    RemoveKeepsAliasesIff(s2, b);
  }

  lemma NoOneElseSharesTarget(s1: State, a: Url, b: Url, bytes: Bytes, e: Url, mt: MediaType, u: Url)
    requires Exact(s1) && TargetsCurrent(s1) && s1.total + |bytes| < SIZE_MOD
    requires Redirects(s1, a, e) && Entry(s1, a).target == None && IsAlias(s1, e)
    requires b !in s1.cache && !(exists u :: u != a && Redirects(s1, u, e))
    ensures !SharesTarget(Stored(s1, b, bytes, e, mt), u, b)
  {
    var s2 := Stored(s1, b, bytes, e, mt);
    StoredView(s1, b, bytes, e, mt, u);
    StoredView(s1, b, bytes, e, mt, b);
    if SharesTarget(s2, u, b) {
      StoredTargets(s1, b, bytes, e, mt);
      StoredCounted(s1, b, bytes, e, mt);
      SharedMeansAnother(s2, u, b);
    }
  }
}
