/**
 AampCache: insertion with room making (least recently used for init fragments, byte budget for
 playlists), look-up, removal and clearing, run under the cache access mutex.
 */
module Cache {
  import opened Prelude
  import opened CacheStore
  import opened CacheInsert
  import opened CacheAliases

  datatype CacheType = INIT_FRAGMENT | PLAYLIST

  const PLAYLIST_CACHE_SIZE_UNLIMITED := -1
  const MAX_PLAYLIST_CACHE_SIZE := 3 * 1024
  const MAX_INIT_FRAGMENT_CACHE_PER_TRACK := 5

  ghost predicate IsInt(x: int) { -0x8000_0000 <= x < 0x8000_0000 }

  /** Conversion of an int to size_t. */
  function AsSize(x: int): nat { x % SIZE_MOD }

  // ---------------------------------------------------------------- order of use

  /** One more than the last position of u in the log of uses; 0 if it is not there. */
  ghost function LastUse(log: seq<Url>, u: Url): nat
  {
    if log == [] then 0 else if log[|log| - 1] == u then |log| else LastUse(log[..|log| - 1], u)
  }

  /** Sequence numbers are the positions of the last use of each requested entry. */
  ghost predicate InUseOrder(s: State, log: seq<Url>)
  {
    && s.seqNo == |log|
    && forall u :: Requested(s, u) ==> u in log && Entry(s, u).seqNo == LastUse(log, u)
  }

  ghost predicate OfType(s: State, mt: MediaType, u: Url) { Requested(s, u) && Entry(s, u).mediaType == mt }

  ghost function RequestedOf(s: State, mt: MediaType): set<Url>
  {
    set u | u in s.cache && OfType(s, mt, u)
  }

  /** v is of type mt and every other requested entry of that type was used after v. */
  ghost predicate LeastRecent(s: State, log: seq<Url>, mt: MediaType, v: Url)
  {
    && OfType(s, mt, v)
    && forall u :: OfType(s, mt, u) && u != v ==> LastUse(log, v) < LastUse(log, u)
  }

  lemma {:induction false} LastUseIsUse(log: seq<Url>, u: Url)
    requires u in log
    ensures 1 <= LastUse(log, u) <= |log| && log[LastUse(log, u) - 1] == u
  {
    if log[|log| - 1] != u { LastUseIsUse(log[..|log| - 1], u); }
  }

  lemma UseAppended(log: seq<Url>, url: Url, u: Url)
    ensures LastUse(log + [url], u) == if u == url then |log| + 1 else LastUse(log, u)
  {
    assert (log + [url])[..|log|] == log;
  }

  lemma UseOrderIsStrict(s: State, log: seq<Url>, u: Url, v: Url)
    requires InUseOrder(s, log) && Requested(s, u) && Requested(s, v) && u != v
    ensures Entry(s, u).seqNo != Entry(s, v).seqNo
  {
    LastUseIsUse(log, u);
    LastUseIsUse(log, v);
  }

  lemma OrderAfterLoss(s: State, s': State, log: seq<Url>, gone: set<Url>)
    requires InUseOrder(s, log) && s'.seqNo == s.seqNo && forall u :: Survives(s, s', gone, u)
    ensures InUseOrder(s', log)
  {
    forall u | Requested(s', u) ensures u in log && Entry(s', u).seqNo == LastUse(log, u) {
      assert Survives(s, s', gone, u);
    }
  }

  lemma OrderAfterStore(s: State, s': State, log: seq<Url>, url: Url, eff: Url, mt: MediaType)
    requires InUseOrder(s, log) && url !in s.cache && s'.seqNo == s.seqNo + 1
    requires forall u :: StoredAt(s, s', url, eff, mt, u)
    ensures InUseOrder(s', log + [url])
  {
    forall u | Requested(s', u) ensures u in log + [url] && Entry(s', u).seqNo == LastUse(log + [url], u) {
      assert StoredAt(s, s', url, eff, mt, u);
      UseAppended(log, url, u);
    }
  }

  lemma OrderAfterFind(s: State, log: seq<Url>, url: Url)
    requires InUseOrder(s, log) && Present(s, url) && Linked(s.cache, s.objs, s.next)
    ensures InUseOrder(Touched(s, url), log + [url])
  {
    var s' := Touched(s, url);
    forall u | Requested(s', u) ensures u in log + [url] && Entry(s', u).seqNo == LastUse(log + [url], u) {
      UseAppended(log, url, u);
      if u != url { assert s.cache[u] != s.cache[url]; }
    }
  }

  /** An entry whose target and buffer stay can change in any other way. */
  lemma RewrittenCounted(s: State, t: Ptr, d: CachedData, n: nat)
    requires Exact(s) && t in s.objs && d.target == s.objs[t].target && d.buffer == s.objs[t].buffer
    ensures Exact(Rewritten(s, t, d, n))
  {
    RetargetLinked(s, t, d);
    RetargetUses(s, t, d);
    SameBuffers(s, t, d);
    assert TotalExact(Rewritten(s, t, d, n));
  }

  lemma TouchedCounted(s: State, url: Url)
    requires Exact(s) && Present(s, url)
    ensures Exact(Touched(s, url))
  {
    RewrittenCounted(s, s.cache[url], s.objs[s.cache[url]].(seqNo := s.seqNo + 1), s.seqNo + 1);
  }

  lemma SameBuffers(s: State, t: Ptr, d: CachedData)
    requires BufUsesExact(s.objs, s.bufs, s.bufUses, s.next, multiset{})
    requires t in s.objs && d.buffer == s.objs[t].buffer
    ensures BufUsesExact(s.objs[t := d], s.bufs, s.bufUses, s.next, multiset{})
  {
    forall b | b in s.bufUses ensures s.bufUses[b] == BufCount(s.objs[t := d], multiset{}, b) >= 1 {
      assert s.bufUses[b] == BufCount(s.objs, multiset{}, b);
      assert Holding(s.objs[t := d], b) == Holding(s.objs, b);
    }
  }

  // ---------------------------------------------------------------- size reduction

  /** Left alone by a pass that removes playlists of type `only`, or of every type. */
  ghost predicate Spared(s: State, only: Option<MediaType>, u: Url)
    requires Present(s, u)
  {
    Entry(s, u).mediaType == MANIFEST || (only.Some? && Entry(s, u).mediaType != only.value)
  }

  ghost function Doomed(s: State, only: Option<MediaType>): set<Url>
  {
    set u | u in s.cache && Present(s, u) && !Spared(s, only, u)
  }

  /** s is s0 after some keys were erased, with exact counts. */
  ghost predicate Reduced(s0: State, s: State, gone: set<Url>)
  {
    Exact(s) && Shrunk(s0, s) && s.cache == s0.cache - gone
  }

  lemma MinusUnion(m: map<Url, Ptr>, a: set<Url>, b: set<Url>)
    ensures m - a - b == m - (a + b)
  {
  }

  lemma ReducedMore(s0: State, s: State, gone: set<Url>, u: Url)
    requires Reduced(s0, s, gone)
    ensures Reduced(s0, Erase(s, u), gone + {u})
  {
    EraseNext(s0, s, u);
    MinusUnion(s0.cache, gone, {u});
  }

  lemma ReducedView(s0: State, s: State, gone: set<Url>, u: Url)
    requires Exact(s0) && Reduced(s0, s, gone)
    ensures Survives(s0, s, gone, u)
  {
    KeysLost(s0, s, gone, u);
  }

  lemma ReducedTwice(s0: State, s1: State, s2: State, g1: set<Url>, g2: set<Url>)
    requires Reduced(s0, s1, g1) && Reduced(s1, s2, g2)
    ensures Reduced(s0, s2, g1 + g2)
  {
    ShrunkTrans(s0, s1, s2);
    MinusUnion(s0.cache, g1, g2);
  }

  lemma KeyIsPresent(s: State, u: Url)
    requires Exact(s) && u in s.cache
    ensures Present(s, u)
  {
  }

  lemma KeysLead(s: State, u: Url)
    requires Exact(s)
    ensures u in s.cache ==> s.cache[u] in s.objs
  {
  }

  lemma ShrunkSelf(s: State)
    ensures Shrunk(s, s)
  {
  }

  lemma SizesFit(total: nat, bytes: nat, most: nat)
    requires total + bytes < SIZE_MOD
    ensures SizeAdd(total, bytes) == total + bytes
    ensures SizeSub(most, bytes) == (most - bytes) % 0x1_0000_0000_0000_0000
  {
  }

  lemma RoomIsLess(s0: State, first: State, s: State, mt: MediaType, target: nat)
    requires RoomMade(s0, first, s, mt, target)
    ensures s.total <= s0.total && s.cache.Keys <= s0.cache.Keys
  {
  }

  lemma StartScan(s: State, mt: MediaType)
    ensures Scanned(s, mt, s.cache.Keys, 0, None)
  {
    assert RequestedOf(s, mt) - s.cache.Keys == {};
  }

  lemma LeastIsRequested(s: State, log: seq<Url>, mt: MediaType, v: Url)
    requires LeastRecent(s, log, mt, v)
    ensures OfType(s, mt, v) && Requested(s, v)
  {
  }

  lemma StartReduction(s: State)
    requires Exact(s)
    ensures Reduced(s, s, {})
  {
    assert s.cache - {} == s.cache;
  }

  /** A pass with the keys in `todo` still to visit. */
  ghost predicate Passed(s0: State, s: State, only: Option<MediaType>, todo: set<Url>)
  {
    todo <= s.cache.Keys && Reduced(s0, s, Doomed(s0, only) - todo)
  }

  lemma StartPass(s: State, only: Option<MediaType>)
    requires Exact(s)
    ensures Passed(s, s, only, s.cache.Keys)
  {
    assert Doomed(s, only) - s.cache.Keys == {};
    StartReduction(s);
  }

  lemma PassStep(s0: State, s: State, only: Option<MediaType>, todo: set<Url>, u: Url)
    requires Exact(s0) && Passed(s0, s, only, todo) && u in todo
    ensures Present(s, u)
    ensures Spared(s, only, u) ==> Passed(s0, s, only, todo - {u})
    ensures !Spared(s, only, u) ==> Passed(s0, Erase(s, u), only, todo - {u})
  {
    var gone := Doomed(s0, only) - todo;
    ReducedView(s0, s, gone, u);
    assert Present(s, u);
    if Spared(s, only, u) {
      assert Doomed(s0, only) - (todo - {u}) == gone;
    } else {
      assert Doomed(s0, only) - (todo - {u}) == gone + {u};
      ReducedMore(s0, s, gone, u);
      EraseNext(s0, s, u);
    }
  }

  lemma OrderAfterReduction(s0: State, s: State, log: seq<Url>, gone: set<Url>)
    requires Exact(s0) && InUseOrder(s0, log) && Reduced(s0, s, gone)
    ensures InUseOrder(s, log)
  {
    forall u ensures Survives(s0, s, gone, u) { ReducedView(s0, s, gone, u); }
    OrderAfterLoss(s0, s, log, gone);
  }

  lemma ClearStep(s0: State, s: State, gone: set<Url>, u: Url)
    requires Reduced(s0, s, gone)
    ensures Reduced(s0, Erase(s, u), gone + {u}) && Erase(s, u).cache.Keys == s.cache.Keys - {u}
  {
    ReducedMore(s0, s, gone, u);
    EraseNext(s0, s, u);
  }

  lemma ClearEnds(s0: State, s: State, log: seq<Url>, gone: set<Url>)
    requires Exact(s0) && InUseOrder(s0, log) && Reduced(s0, s, gone) && s.cache.Keys == {}
    ensures Exact(s) && InUseOrder(s, log) && Shrunk(s0, s) && s.(total := 0) == s
    ensures s.cache == map[] && s.objs == map[] && s.bufs == map[] && s.total == 0
  {
    assert s.cache == map[];
    NothingLeft(s);
    OrderAfterReduction(s0, s, log, gone);
  }

  lemma NoAliases(s: State)
    requires s.cache == map[]
    ensures AliasesFine(s)
  {
  }

  lemma EndPass(s0: State, s: State, only: Option<MediaType>, log: seq<Url>)
    requires Exact(s0) && InUseOrder(s0, log) && Passed(s0, s, only, {})
    ensures Exact(s) && InUseOrder(s, log) && Reduced(s0, s, Doomed(s0, only))
  {
    assert Doomed(s0, only) - {} == Doomed(s0, only);
    OrderAfterReduction(s0, s, log, Doomed(s0, only));
  }

  /** The second pass starts from what the first left, and ends with every non-manifest entry gone. */
  lemma BothPasses(s0: State, s1: State, mt: MediaType)
    requires Exact(s0) && Reduced(s0, s1, Doomed(s0, Some(mt)))
    ensures Doomed(s0, Some(mt)) + Doomed(s1, None) == Doomed(s0, None)
  {
    forall u ensures u in Doomed(s0, Some(mt)) + Doomed(s1, None) <==> u in Doomed(s0, None) {
      ReducedView(s0, s1, Doomed(s0, Some(mt)), u);
    }
  }

  /** With no keys left there is nothing alive, so the byte total has reached zero by itself. */
  lemma NothingLeft(s: State)
    requires Exact(s) && s.cache == map[]
    ensures s.objs == map[] && s.bufs == map[] && s.total == 0
  {
    TotalIsReachableBytes(s);
    assert forall o :: !Reachable(s, o);
    assert s.objs.Keys == {};
    assert s.bufs.Keys == {};
    SizeBelowSame(s.bufs, s.bufs, {}, {}, 0, s.next);
  }

  /**
   What reduceCacheSize leaves: the entries of type mt go, and with them all other entries but manifests
   exactly if the total that is left without the former still exceeds the target.
   */
  ghost predicate RoomMade(s0: State, first: State, s: State, mt: MediaType, target: nat)
  {
    && Reduced(s0, first, Doomed(s0, Some(mt)))
    && Reduced(s0, s, if first.total <= target then Doomed(s0, Some(mt)) else Doomed(s0, None))
  }

  /** Every manifest is still there, unchanged. */
  ghost predicate KeepsManifests(s0: State, s: State)
  {
    forall u :: Present(s0, u) && Entry(s0, u).mediaType == MANIFEST ==> Present(s, u) && Entry(s, u) == Entry(s0, u)
  }

  lemma RoomKeepsManifests(s0: State, first: State, s: State, mt: MediaType, target: nat)
    requires Exact(s0) && RoomMade(s0, first, s, mt, target)
    ensures KeepsManifests(s0, s)
  {
    hide Exact, Reduced;
    var gone := if first.total <= target then Doomed(s0, Some(mt)) else Doomed(s0, None);
    forall u | Present(s0, u) && Entry(s0, u).mediaType == MANIFEST ensures Present(s, u) && Entry(s, u) == Entry(s0, u) {
      ReducedView(s0, s, gone, u);
    }
  }

  /** The room that Insert makes for a playlist, and whether the playlist is then stored. */
  ghost predicate PlaylistRoom(s0: State, first: State, room: State, mt: MediaType, bytes: nat, limit: int, ok: bool)
  {
    if mt == MANIFEST then ok && room.cache == map[] && room.total == 0
    else if limit == PLAYLIST_CACHE_SIZE_UNLIMITED then ok && room == s0
    else
      var most := limit % 0x1_0000_0000_0000_0000;
      && (ok <==> room.total + bytes <= most)
      && KeepsManifests(s0, room)
      && (if s0.total + bytes <= most then room == s0
          else RoomMade(s0, first, room, mt, (most - bytes) % 0x1_0000_0000_0000_0000))
  }

  lemma SelfKeepsManifests(s: State)
    ensures KeepsManifests(s, s)
  {
  }

  /** Erasing a set of keys has one outcome, in whatever order the keys go. */
  lemma ReducedIsUnique(s0: State, a: State, b: State, gone: set<Url>)
    requires Reduced(s0, a, gone) && Reduced(s0, b, gone)
    ensures a.objs == b.objs && a.bufs == b.bufs && a.total == b.total
  {
    hide Reachable, Chain, Linked, UsesExact, BufUsesExact, TotalExact, BytesOf;
    TotalIsReachableBytes(a);
    TotalIsReachableBytes(b);
    forall o ensures o in a.objs <==> o in b.objs {
      if o in a.objs { AliveInBoth(s0, a, b, o); }
      if o in b.objs { AliveInBoth(s0, b, a, o); }
    }
    SameObjects(s0, a, b);
    SameHeldBuffers(a, b);
    SameTotals(s0, a, b);
  }

  lemma AliveInBoth(s0: State, a: State, b: State, o: Ptr)
    requires Shrunk(s0, a) && Shrunk(s0, b) && a.cache == b.cache && Linked(b.cache, b.objs, b.next) && Reachable(a, o)
    ensures o in b.objs
  {
    var path :| Chain(a, path) && path[|path| - 1] == o;
    AlongPath(s0, a, b, path, |path| - 1);
  }

  lemma {:induction false} AlongPath(s0: State, a: State, b: State, path: seq<Ptr>, i: nat)
    requires Shrunk(s0, a) && Shrunk(s0, b) && a.cache == b.cache && Linked(b.cache, b.objs, b.next)
    requires Chain(a, path) && i < |path|
    ensures path[i] in b.objs
  {
    if i == 0 {
      var u :| u in a.cache && a.cache[u] == path[0];
      assert b.cache[u] in b.objs;
    } else {
      AlongPath(s0, a, b, path, i - 1);
      assert a.objs[path[i - 1]].target == Some(path[i - 1 + 1]);
      assert PointsTo(b.objs, path[i - 1], path[i]);
    }
  }

  lemma SameObjects(s0: State, a: State, b: State)
    requires Shrunk(s0, a) && Shrunk(s0, b) && forall o :: o in a.objs <==> o in b.objs
    ensures a.objs == b.objs
  {
  }

  lemma SameHeldBuffers(a: State, b: State)
    requires a.objs == b.objs
    requires a.bufs.Keys == (set o | o in a.objs :: a.objs[o].buffer) && b.bufs.Keys == (set o | o in b.objs :: b.objs[o].buffer)
    ensures a.bufs.Keys == b.bufs.Keys
  {
  }

  lemma SameTotals(s0: State, a: State, b: State)
    requires Shrunk(s0, a) && Shrunk(s0, b) && a.bufs.Keys == b.bufs.Keys && TotalExact(a) && TotalExact(b)
    ensures a.bufs == b.bufs && a.total == b.total
  {
    SizeBelowSame(a.bufs, b.bufs, a.bufs.Keys, b.bufs.Keys, a.next, b.next);
  }

  /** The total is within the limit, or it is no more than the manifest inserted last. */
  ghost predicate WithinBudget(s: State, limit: int, manifestBytes: nat)
  {
    s.total <= limit || s.total <= manifestBytes
  }

  /** No media type has more requested entries than the limit. */
  ghost predicate WithinLimit(s: State, limit: int)
  {
    forall mt :: |RequestedOf(s, mt)| <= limit
  }

  /** The payload is stored on top of `room`, and found under both URLs. */
  ghost predicate StoredFrom(room: State, s: State, url: Url, bytes: Bytes, eff: Url, mt: MediaType)
  {
    && (eff in room.cache ==> room.cache[eff] in room.objs)
    && s == Stored(room, url, bytes, eff, mt)
    && StoredEntries(room, s, url, bytes, eff, mt)
  }

  /** Only if the type is full does an entry go: the least recently used one of that type. */
  ghost predicate EvictedFor(
    s: State, log: seq<Url>, mt: MediaType, limit: int, victim: Option<Url>, room: State)
  {
    if |RequestedOf(s, mt)| < limit then victim == None && room == s
    else victim.Some? && LeastRecent(s, log, mt, victim.value) && room == Removed(s, victim.value)
  }

  lemma FewerRequested(s: State, v: Url, mt: MediaType)
    requires Exact(s) && Requested(s, v)
    ensures RequestedOf(Removed(s, v), mt) <= RequestedOf(s, mt) - {v}
  {
    forall u | u in RequestedOf(Removed(s, v), mt) ensures u in RequestedOf(s, mt) - {v} {
      RemovedView(s, v, u);
    }
  }

  lemma OneMoreRequested(s: State, url: Url, bytes: Bytes, eff: Url, mt: MediaType, t: MediaType)
    requires Exact(s) && url !in s.cache && s.total + |bytes| < SIZE_MOD
    requires eff != "" && TargetNotRequested(s, url, eff)
    ensures RequestedOf(Stored(s, url, bytes, eff, mt), t) <= RequestedOf(s, t) + (if t == mt then {url} else {})
  {
    hide Exact, Stored, StoredAt, TargetNotRequested, OfType;
    KeysLead(s, eff);
    var s' := Stored(s, url, bytes, eff, mt);
    forall u | OfType(s', t, u) ensures if u == url then t == mt else OfType(s, t, u) {
      StoredView(s, url, bytes, eff, mt, u);
      RequestedBefore(s, s', url, eff, mt, t, u);
    }
    forall u | OfType(s, t, u) ensures u in s.cache { TypedIsKey(s, t, u); }
  }

  lemma TypedIsKey(s: State, t: MediaType, u: Url)
    requires OfType(s, t, u)
    ensures u in s.cache
  {
  }

  lemma RequestedBefore(s: State, s': State, url: Url, eff: Url, mt: MediaType, t: MediaType, u: Url)
    requires url !in s.cache && TargetNotRequested(s, url, eff) && StoredAt(s, s', url, eff, mt, u) && OfType(s', t, u)
    ensures if u == url then t == mt else OfType(s, t, u)
  {
  }

  lemma SmallerSet<T>(a: set<T>, b: set<T>)
    requires a <= b
    ensures |a| <= |b|
  {
    assert b == a + (b - a);
  }

  /** With the least recent entry of a full type evicted first, an insert keeps every type within the limit. */
  lemma InsertKeepsLimit(s: State, log: seq<Url>, victim: Option<Url>, room: State, s': State,
                         url: Url, bytes: Bytes, eff: Url, mt: MediaType, limit: int)
    requires Exact(s) && url !in s.cache && s.total + |bytes| < SIZE_MOD && EvictedFor(s, log, mt, limit, victim, room)
    requires eff != "" && TargetNotRequested(s, url, eff) && WithinLimit(s, limit)
    requires StoredFrom(room, s', url, bytes, eff, mt)
    ensures WithinLimit(s', limit)
  {
    hide Exact;
    if victim.Some? { RemovedCounted(s, victim.value); RemovedView(s, victim.value, eff); }
    forall t ensures |RequestedOf(Stored(room, url, bytes, eff, mt), t)| <= limit {
      OneMoreRequested(room, url, bytes, eff, mt, t);
      var kept := RequestedOf(s, t) - (if victim.Some? then {victim.value} else {});
      if victim.Some? { FewerRequested(s, victim.value, t); }
      assert t == mt && victim.Some? ==> victim.value in RequestedOf(s, t);
      SmallerSet(RequestedOf(Stored(room, url, bytes, eff, mt), t), kept + (if t == mt then {url} else {}));
      assert |RequestedOf(s, t)| <= limit;
      CountAfterSwap(RequestedOf(s, t), victim, url, t == mt, limit);
    }
  }

  lemma CountAfterSwap(r: set<Url>, victim: Option<Url>, url: Url, same: bool, limit: int)
    requires |r| <= limit
    requires same && victim.Some? ==> victim.value in r
    requires same && victim.None? ==> |r| < limit
    ensures |(r - (if victim.Some? then {victim.value} else {})) + (if same then {url} else {})| <= limit
  {
    var kept := r - (if victim.Some? then {victim.value} else {});
    SmallerSet(kept, r);
    if same {
      if victim.Some? { assert r == kept + {victim.value}; }
      assert |kept + {url}| <= |kept| + 1;
    } else {
      assert kept + {} == kept;
    }
  }

  /** The scan of makeRoomForInitFragment with the keys in `todo` still to visit. */
  ghost predicate Scanned(s: State, mt: MediaType, todo: set<Url>, count: int, lru: Option<Url>)
  {
    var seen := RequestedOf(s, mt) - todo;
    && count == |seen|
    && (lru.None? ==> seen == {})
    && (lru.Some? ==> lru.value in seen && forall u :: u in seen ==> Entry(s, lru.value).seqNo <= Entry(s, u).seqNo)
  }

  lemma ScanStep(s: State, mt: MediaType, todo: set<Url>, count: int, lru: Option<Url>, u: Url)
    requires Scanned(s, mt, todo, count, lru) && u in todo && Present(s, u)
    ensures !OfType(s, mt, u) ==> Scanned(s, mt, todo - {u}, count, lru)
    ensures OfType(s, mt, u) ==>
              var closer := lru.None? || Entry(s, u).seqNo < Entry(s, lru.value).seqNo;
              Scanned(s, mt, todo - {u}, count + 1, if closer then Some(u) else lru)
  {
    var seen := RequestedOf(s, mt) - todo;
    if OfType(s, mt, u) {
      assert RequestedOf(s, mt) - (todo - {u}) == seen + {u};
    } else {
      assert RequestedOf(s, mt) - (todo - {u}) == seen;
    }
  }

  lemma ScanEnds(s: State, log: seq<Url>, mt: MediaType, count: int, lru: Option<Url>)
    requires Scanned(s, mt, {}, count, lru) && InUseOrder(s, log)
    ensures count == |RequestedOf(s, mt)|
    ensures lru.Some? ==> LeastRecent(s, log, mt, lru.value)
    ensures lru.None? ==> count == 0
  {
    assert RequestedOf(s, mt) - {} == RequestedOf(s, mt);
    if lru.Some? {
      forall u | OfType(s, mt, u) && u != lru.value ensures LastUse(log, lru.value) < LastUse(log, u) {
        assert u in RequestedOf(s, mt);
        UseOrderIsStrict(s, log, u, lru.value);
      }
    }
  }

  lemma RemovedKeepsOrder(s: State, url: Url, log: seq<Url>)
    requires Exact(s) && Requested(s, url) && InUseOrder(s, log)
    ensures Exact(Removed(s, url)) && InUseOrder(Removed(s, url), log) && Shrunk(s, Removed(s, url))
    ensures Removed(s, url).cache.Keys <= s.cache.Keys && Removed(s, url).total <= s.total
  {
    RemovedCounted(s, url);
    forall u ensures Survives(s, Removed(s, url), Gone(s, url), u) { RemovedView(s, url, u); }
    OrderAfterLoss(s, Removed(s, url), log, Gone(s, url));
  }

  lemma StoredKeepsOrder(s: State, url: Url, bytes: Bytes, eff: Url, mt: MediaType, log: seq<Url>)
    requires Exact(s) && url !in s.cache && InUseOrder(s, log) && s.total + |bytes| < SIZE_MOD
    ensures Exact(Stored(s, url, bytes, eff, mt)) && InUseOrder(Stored(s, url, bytes, eff, mt), log + [url])
    ensures Stored(s, url, bytes, eff, mt).total <= s.total + |bytes|
    ensures StoredEntries(s, Stored(s, url, bytes, eff, mt), url, bytes, eff, mt)
  {
    StoredCounted(s, url, bytes, eff, mt);
    StoredBufferKept(s, url, bytes, eff, mt);
    StoredIsFound(s, url, bytes, eff, mt);
    StoredKeepsOthers(s, url, bytes, eff, mt);
    forall u ensures StoredAt(s, Stored(s, url, bytes, eff, mt), url, eff, mt, u) {
      StoredView(s, url, bytes, eff, mt, u);
    }
    OrderAfterStore(s, Stored(s, url, bytes, eff, mt), log, url, eff, mt);
  }

  lemma VictimIsRequested(s: State, log: seq<Url>, mt: MediaType, limit: int, victim: Option<Url>, room: State)
    requires EvictedFor(s, log, mt, limit, victim, room)
    ensures victim.Some? ==> Requested(s, victim.value)
    ensures room == if victim.Some? then Removed(s, victim.value) else s
  {
  }

  lemma EvictingAliases(s: State, log: seq<Url>, victim: Option<Url>, room: State, s': State,
                        url: Url, bytes: Bytes, eff: Url, mt: MediaType, limit: int)
    requires Exact(s) && Exact(room) && AliasesFine(s) && EvictedFor(s, log, mt, limit, victim, room)
    requires url !in s.cache && s.total + |bytes| < SIZE_MOD && eff != "" && TargetNotRequested(s, url, eff)
    requires StoredFrom(room, s', url, bytes, eff, mt)
    ensures victim.Some? ==> Requested(s, victim.value)
    ensures TargetsCurrent(s') && (AliasesRight(s') <==> InsertIsSafe(s, victim, url, eff))
  {
    hide Exact, AliasesFine, EvictedFor, Stored, StoredEntries, TargetsCurrent, AliasesRight, RemoveIsSafe;
    VictimIsRequested(s, log, mt, limit, victim, room);
    InsertAliases(s, victim, room, url, bytes, eff, mt);
  }

  datatype Hit = Hit(effectiveUrl: Url, bytes: Bytes)

  class AampCache {
    const cacheType: CacheType
    var maxCachedInitFragmentsPerTrack: int
    var maxPlaylistCacheBytes: int
    var s: State
    ghost var log: seq<Url>  // the URLs inserted or found, oldest first

    ghost predicate Valid()
      reads this
    {
      Exact(s) && InUseOrder(s, log) && IsInt(maxPlaylistCacheBytes) && IsInt(maxCachedInitFragmentsPerTrack)
    }

    constructor (cacheType: CacheType)
      ensures Valid() && AliasesFine(s) && s == EMPTY && log == [] && this.cacheType == cacheType
      ensures maxPlaylistCacheBytes == 3145728 && maxCachedInitFragmentsPerTrack == 5
    {
      this.cacheType := cacheType;
      maxPlaylistCacheBytes := MAX_PLAYLIST_CACHE_SIZE * 1024;
      maxCachedInitFragmentsPerTrack := MAX_INIT_FRAGMENT_CACHE_PER_TRACK;
      s, log := EMPTY, [];
    }

    /** Find, and the copying out done by its callers in AampCacheHandler. */
    method Find(url: Url) returns (r: Option<Hit>)
      requires Valid()
      modifies this`s, this`log
      ensures Valid()
      ensures AliasesFine(s) <==> AliasesFine(old(s))
      ensures url !in old(s.cache) ==> r == None && s == old(s) && log == old(log)
      ensures url in old(s.cache) ==> Present(old(s), url) && s == Touched(old(s), url) && log == old(log) + [url]
      ensures url in old(s.cache) ==>
                var d := Entry(old(s), url);
                d.buffer in old(s.bufs) &&
                r == Some(Hit(if d.effectiveUrl == "" then url else d.effectiveUrl, old(s.bufs)[d.buffer]))
    {
      if url in s.cache {
        assert s.cache[url] in s.objs;
        var d := s.objs[s.cache[url]];
        OrderAfterFind(s, log, url);
        TouchedCounted(s, url);
        TouchedAliases(s, url);
        r := Some(Hit(if d.effectiveUrl == "" then url else d.effectiveUrl, s.bufs[d.buffer]));
        s := Touched(s, url);
        log := log + [url];
      } else {
        r := None;
      }
    }

    /** Remove; its two asserts are the precondition. */
    method Remove(url: Url)
      requires Valid() && Requested(s, url)
      modifies this`s
      ensures Valid() && s == Removed(old(s), url) && Shrunk(old(s), s)
      ensures AliasesFine(old(s)) ==> (AliasesFine(s) <==> RemoveIsSafe(old(s), url))
    {
      hide Exact, InUseOrder, Shrunk, Erase, RemoveIsSafe, TargetsCurrent, AliasesRight;
      RemovedKeepsOrder(s, url, log);
      if AliasesFine(s) {
        RemovedTargets(s, url);
        RemoveKeepsAliasesIff(s, url);
      }
      var d := s.objs[s.cache[url]];
      if d.target.Some? && d.target.value in s.uses && s.uses[d.target.value] == 2 {
        s := Erase(s, d.effectiveUrl);
      }
      s := Erase(s, url);
    }

    /** cache.clear() destroys the entries one by one; the total is then already zero. */
    method Clear()
      requires Valid()
      modifies this`s
      ensures Valid() && s.cache == map[] && s.objs == map[] && s.bufs == map[] && s.total == 0
      ensures Shrunk(old(s), s)
      ensures AliasesFine(s)
    {
      hide Exact, Shrunk, InUseOrder, Reduced, Erase, AliasesFine;
      ghost var s0, gone := s, {};
      var todo := s.cache.Keys;
      StartReduction(s);
      while todo != {}
        invariant Exact(s0) && Reduced(s0, s, gone) && s.cache.Keys == todo
        decreases |todo|
      {
        var u :| u in todo;
        ClearStep(s0, s, gone, u);
        s := Erase(s, u);
        gone := gone + {u};
        todo := todo - {u};
      }
      ClearEnds(s0, s, log, gone);
      NoAliases(s);
      s := s.(total := 0);
    }

    /** One pass of reduceCacheSize: erase the playlists of type `only`, or of every type. */
    method ErasePass(only: Option<MediaType>)
      requires Valid()
      modifies this`s
      ensures Valid() && Reduced(old(s), s, Doomed(old(s), only))
    {
      hide Exact, Shrunk, InUseOrder, Doomed, Erase, Passed, Reduced;
      ghost var s0 := s;
      var todo := s.cache.Keys;
      StartPass(s, only);
      while todo != {}
        invariant Exact(s0) && Passed(s0, s, only, todo)
        decreases |todo|
      {
        var u :| u in todo;
        PassStep(s0, s, only, todo, u);
        var d := s.objs[s.cache[u]];
        if d.mediaType == MANIFEST || (only.Some? && d.mediaType != only.value) {
        } else {
          s := Erase(s, u);
        }
        todo := todo - {u};
      }
      EndPass(s0, s, only, log);
    }

    /** reduceCacheSize */
    method ReduceCacheSize(mediaType: MediaType, targetCacheSize: nat) returns (ghost first: State)
      requires Valid()
      modifies this`s
      ensures Valid() && Shrunk(old(s), s) && RoomMade(old(s), first, s, mediaType, targetCacheSize)
    {
      hide Exact, Shrunk, InUseOrder;
      ghost var s0 := s;
      ErasePass(Some(mediaType));
      first := s;
      if s.total > targetCacheSize {
        ErasePass(None);
        ReducedTwice(s0, first, s, Doomed(s0, Some(mediaType)), Doomed(first, None));
        BothPasses(s0, first, mediaType);
      }
    }

    /** makeRoomForPlaylist */
    method MakeRoomForPlaylist(mediaType: MediaType, bytesNeeded: nat) returns (ok: bool, ghost first: State)
      requires Valid() && s.total + bytesNeeded < SIZE_MOD
      modifies this`s
      ensures Valid() && Shrunk(old(s), s) && s.cache.Keys <= old(s.cache.Keys) && s.total <= old(s.total)
      ensures PlaylistRoom(old(s), first, s, mediaType, bytesNeeded, maxPlaylistCacheBytes, ok)
    {
      hide Exact, InUseOrder, KeepsManifests, RoomMade, Shrunk, AliasesFine, SizeAdd, SizeSub;
      SizesFit(s.total, bytesNeeded, AsSize(maxPlaylistCacheBytes));
      ok, first := true, s;
      SelfKeepsManifests(s);
      ShrunkSelf(s);
      if mediaType == MANIFEST {
        Clear();
      } else if maxPlaylistCacheBytes != PLAYLIST_CACHE_SIZE_UNLIMITED {
        if SizeAdd(s.total, bytesNeeded) > AsSize(maxPlaylistCacheBytes) {
          first := ReduceCacheSize(mediaType, SizeSub(AsSize(maxPlaylistCacheBytes), bytesNeeded));
          RoomKeepsManifests(old(s), first, s, mediaType, SizeSub(AsSize(maxPlaylistCacheBytes), bytesNeeded));
          RoomIsLess(old(s), first, s, mediaType, SizeSub(AsSize(maxPlaylistCacheBytes), bytesNeeded));
          SizesFit(s.total, bytesNeeded, AsSize(maxPlaylistCacheBytes));
          ok := SizeAdd(s.total, bytesNeeded) <= AsSize(maxPlaylistCacheBytes);
        }
      }
    }

    /** The loop of makeRoomForInitFragment. */
    method ScanRequested(mediaType: MediaType) returns (count: int, lru: Option<Url>)
      requires Valid()
      ensures count == |RequestedOf(s, mediaType)|
      ensures if lru.Some? then LeastRecent(s, log, mediaType, lru.value) else count == 0
    {
      hide Exact, InUseOrder, Scanned, LeastRecent;
      count, lru := 0, None;
      var todo := s.cache.Keys;
      StartScan(s, mediaType);
      while todo != {}
        invariant Scanned(s, mediaType, todo, count, lru) && todo <= s.cache.Keys
        invariant lru.Some? ==> Present(s, lru.value)
        decreases |todo|
      {
        var u :| u in todo;
        KeyIsPresent(s, u);
        ScanStep(s, mediaType, todo, count, lru, u);
        todo := todo - {u};
        var d := s.objs[s.cache[u]];
        if d.mediaType == mediaType && d.effectiveUrl != "" {
          if lru.None? || d.seqNo < s.objs[s.cache[lru.value]].seqNo {
            lru := Some(u);
          }
          count := count + 1;
        }
      }
      ScanEnds(s, log, mediaType, count, lru);
    }

    /** makeRoomForInitFragment; with a limit below 1 and nothing to evict it would dereference cache.end(). */
    method MakeRoomForInitFragment(mediaType: MediaType) returns (ok: bool, ghost victim: Option<Url>)
      requires Valid() && (maxCachedInitFragmentsPerTrack >= 1 || RequestedOf(s, mediaType) != {})
      modifies this`s
      ensures Valid() && ok && Shrunk(old(s), s) && s.cache.Keys <= old(s.cache.Keys) && s.total <= old(s.total)
      ensures EvictedFor(old(s), log, mediaType, maxCachedInitFragmentsPerTrack, victim, s)
    {
      hide Exact, InUseOrder, Shrunk, Removed, LeastRecent, RequestedOf, AliasesFine, RemoveIsSafe;
      var count, lru := ScanRequested(mediaType);
      victim := None;
      ok := true;
      if count >= maxCachedInitFragmentsPerTrack {
        victim := lru;
        LeastIsRequested(s, log, mediaType, lru.value);
        RemovedKeepsOrder(s, lru.value, log);
        Remove(lru.value);
      } else {
        ShrunkSelf(s);
      }
    }

    /**
     Insert. `room` is the state after room was made, `victim` the init fragment evicted for it, `first`
     the state without the playlists of the inserted type; `stored` says whether the payload was then stored.
     */
    method Insert(url: Url, bytes: Bytes, effectiveUrl: Url, mediaType: MediaType)
      returns (ghost room: State, ghost first: State, ghost victim: Option<Url>, ghost stored: bool)
      requires Valid() && s.total + |bytes| < SIZE_MOD
      requires cacheType == INIT_FRAGMENT && url !in s.cache && bytes != [] ==>
                 maxCachedInitFragmentsPerTrack >= 1 || RequestedOf(s, mediaType) != {}
      modifies this`s, this`log
      ensures Valid()
      // nothing happens for a known URL or an empty payload
      ensures url in old(s.cache) || bytes == [] ==> !stored && s == old(s) && log == old(log)
      ensures !(url in old(s.cache) || bytes == []) ==> Exact(room) && Shrunk(old(s), room)
      ensures !(url in old(s.cache) || bytes == []) && !stored ==> s == room && log == old(log)
      ensures stored ==> log == old(log) + [url]
      ensures stored ==> StoredFrom(room, s, url, bytes, effectiveUrl, mediaType)
      // init fragments: always stored; only the least recently used entry of a full type goes
      ensures cacheType == INIT_FRAGMENT && !(url in old(s.cache) || bytes == []) ==>
                stored && EvictedFor(old(s), old(log), mediaType, maxCachedInitFragmentsPerTrack, victim, room)
      ensures victim.Some? ==> Requested(old(s), victim.value)
      ensures cacheType == INIT_FRAGMENT && effectiveUrl != "" && TargetNotRequested(old(s), url, effectiveUrl) ==>
                AliasesFine(old(s)) ==> TargetsCurrent(s) && (AliasesRight(s) <==> InsertIsSafe(old(s), victim, url, effectiveUrl))
      ensures cacheType == INIT_FRAGMENT && effectiveUrl != "" && TargetNotRequested(old(s), url, effectiveUrl) ==>
                WithinLimit(old(s), maxCachedInitFragmentsPerTrack) ==> WithinLimit(s, maxCachedInitFragmentsPerTrack)
      // playlists: who has to go for it, and when it is stored
      ensures cacheType == PLAYLIST && !(url in old(s.cache) || bytes == []) ==>
                PlaylistRoom(old(s), first, room, mediaType, |bytes|, maxPlaylistCacheBytes, stored)
      // playlists: a fixed non-negative limit bounds the total
      ensures cacheType == PLAYLIST && maxPlaylistCacheBytes >= 0 && stored && mediaType != MANIFEST ==>
                s.total <= maxPlaylistCacheBytes
      ensures cacheType == PLAYLIST && maxPlaylistCacheBytes >= 0 ==>
                forall m: nat :: WithinBudget(old(s), maxPlaylistCacheBytes, m) ==>
                  WithinBudget(s, maxPlaylistCacheBytes, if stored && mediaType == MANIFEST then |bytes| else m)
    {
      hide Exact, InUseOrder, EvictedFor, Shrunk, WithinLimit, TargetNotRequested, StoredFrom, RequestedOf;
      hide RemoveIsSafe, TargetsCurrent, AliasesRight, Requested, KeepsManifests, RoomMade;
      victim, stored, room, first := None, false, s, s;
      if url in s.cache { return; }
      if bytes == [] { return; }
      var ok := false;
      match cacheType {
        case INIT_FRAGMENT =>
          ok, victim := MakeRoomForInitFragment(mediaType);
          VictimIsRequested(old(s), log, mediaType, maxCachedInitFragmentsPerTrack, victim, s);
        case PLAYLIST => ok, first := MakeRoomForPlaylist(mediaType, |bytes|);
      }
      room := s;
      if ok {
        stored := true;
        Store(url, bytes, effectiveUrl, mediaType);
        if cacheType == INIT_FRAGMENT && effectiveUrl != "" && TargetNotRequested(old(s), url, effectiveUrl) {
          if WithinLimit(old(s), maxCachedInitFragmentsPerTrack) {
            InsertKeepsLimit(old(s), old(log), victim, room, s, url, bytes, effectiveUrl, mediaType, maxCachedInitFragmentsPerTrack);
          }
          if AliasesFine(old(s)) {
            EvictingAliases(old(s), old(log), victim, room, s, url, bytes, effectiveUrl, mediaType, maxCachedInitFragmentsPerTrack);
          }
        }
      }
    }

    /** The storing part of Insert, lines 234-279. */
    method Store(url: Url, bytes: Bytes, effectiveUrl: Url, mediaType: MediaType)
      requires Valid() && url !in s.cache && s.total + |bytes| < SIZE_MOD
      modifies this`s, this`log
      ensures Valid() && log == old(log) + [url] && StoredFrom(old(s), s, url, bytes, effectiveUrl, mediaType)
      ensures s.total <= old(s.total) + |bytes|
    {
      hide Exact, InUseOrder, Stored, StoredEntries;
      StoredKeepsOrder(s, url, bytes, effectiveUrl, mediaType, log);
      KeysLead(s, effectiveUrl);
      s := Stored(s, url, bytes, effectiveUrl, mediaType);
      log := log + [url];
    }
  }
}
