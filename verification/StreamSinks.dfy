/**
 AampStreamSinkManager: which player owns which pipeline sink, and which player the single shared
 sink works for. Player pointers and pipeline sinks are identities; a map's begin() is an
 arbitrary key of it, as pointer order is.
 */
module StreamSinks {
  import opened Prelude

  type Player = nat
  type Sink = nat

  datatype PipelineMode = UNDEFINED | SINGLE | MULTI

  /** What a getter hands out: a pipeline sink, a player's AampStreamSinkInactive, or a client's sink. */
  datatype AnySink = Pipeline(sink: Sink) | Inactive(player: Player) | Client(player: Player)

  /** Each sink created (they are numbered below `created`) is alive or was deleted, once. */
  ghost predicate DeletedOnce(alive: set<Sink>, created: nat, deletions: seq<Sink>)
  {
    && (forall s :: s in alive ==> s < created && s !in deletions)
    && (forall s :: 0 <= s < created && s !in alive ==> s in deletions)
    && (forall i :: 0 <= i < |deletions| ==> deletions[i] < created)
    && (forall i, j :: 0 <= i < j < |deletions| ==> deletions[i] != deletions[j])
  }

  lemma DeletedOnceMore(alive: set<Sink>, created: nat, deletions: seq<Sink>, s: Sink)
    requires DeletedOnce(alive, created, deletions) && s in alive
    ensures DeletedOnce(alive - {s}, created, deletions + [s])
  {
    forall x | 0 <= x < created && x !in alive - {s} ensures x in deletions + [s] {
      if x != s { assert x in deletions; }
    }
  }

  /** Every player in the map has a living sink that works for it, and no other sink is alive. */
  ghost predicate OneToOne(active: map<Player, Sink>, live: map<Sink, Player>)
  {
    && (forall p {:trigger active[p]} :: p in active ==> active[p] in live && live[active[p]] == p)
    && (forall s {:trigger live[s]} :: s in live ==> live[s] in active && active[live[s]] == s)
  }

  lemma OneToOneWithout(active: map<Player, Sink>, live: map<Sink, Player>, p: Player)
    requires OneToOne(active, live) && p in active
    ensures active[p] in live && OneToOne(active - {p}, live - {active[p]})
  {
  }

  /** A new sink for p fits in exactly if p had none. */
  lemma OneToOneWith(active: map<Player, Sink>, live: map<Sink, Player>, p: Player, sink: Sink)
    requires OneToOne(active, live) && sink !in live
    ensures p in active ==> !OneToOne(active, live[sink := p])
    ensures p !in active ==> OneToOne(active[p := sink], live[sink := p])
  {
    var live' := live[sink := p];
    if p in active {
      assert active[p] in live && live'[sink] == p;
    } else {
      forall s | s in live ensures live[s] in active {}
    }
  }

  lemma SoleSink(active: map<Player, Sink>, live: map<Sink, Player>, p: Player)
    requires OneToOne(active, live) && active.Keys == {p}
    ensures live == map[active[p] := p]
  {
    forall s | s in live ensures s == active[p] { assert live[s] in active; }
    assert active[p] in live;
  }

  class AampStreamSinkManager {
    var mPipelineMode: PipelineMode
    var mStreamPlayer: Option<Sink>
    var mActivePlayersMap: map<Player, Sink>
    var mInactivePlayersMap: map<Player, bool>   // registered players, with IsTuned()
    var mClientStreamSinkMap: map<Player, Sink>
    var live: map<Sink, Player>                  // existing pipeline sinks and the player each is associated with
    var created: nat                             // pipeline sinks are numbered as they are created
    ghost var deletions: seq<Sink>               // every delete of a pipeline sink, in order

    /** Without a shared pipeline every registered player has a sink of its own, and no other sink exists. */
    ghost predicate OwnSinks()
      reads this
    {
      mStreamPlayer.None? && mActivePlayersMap.Keys == mInactivePlayersMap.Keys && OneToOne(mActivePlayersMap, live)
    }

    /**
     With a shared pipeline at most one player is active and holds the shared sink; the shared sink is
     associated with a registered player, the active one if there is one; no other sink exists.
     */
    ghost predicate SharedSink()
      reads this
    {
      && (forall p, q :: p in mActivePlayersMap && q in mActivePlayersMap ==> p == q)
      && mActivePlayersMap.Keys <= mInactivePlayersMap.Keys
      && (mInactivePlayersMap == map[] ==> mStreamPlayer.None? && live == map[])
      && (mInactivePlayersMap != map[] ==> mStreamPlayer.Some?)
      && (mStreamPlayer.Some? ==>
            && live.Keys == {mStreamPlayer.value}
            && live[mStreamPlayer.value] in mInactivePlayersMap
            && forall p :: p in mActivePlayersMap ==>
                 mActivePlayersMap[p] == mStreamPlayer.value && live[mStreamPlayer.value] == p)
    }

    ghost predicate Valid()
      reads this
    {
      && DeletedOnce(live.Keys, created, deletions)
      && (if mPipelineMode == SINGLE then SharedSink() else OwnSinks())
      && (mPipelineMode != MULTI ==> mClientStreamSinkMap == map[])  // installing a client sink forces MULTI
    }

    constructor ()
      ensures Valid() && mPipelineMode == UNDEFINED && mInactivePlayersMap == map[] && created == 0
    {
      mPipelineMode, mStreamPlayer := UNDEFINED, None;
      mActivePlayersMap, mInactivePlayersMap, mClientStreamSinkMap := map[], map[], map[];
      live, created, deletions := map[], 0, [];
    }

    /** CreateSinkInstance */
    method CreateSinkInstance(aamp: Player) returns (sink: Sink)
      requires DeletedOnce(live.Keys, created, deletions)
      modifies this`live, this`created
      ensures DeletedOnce(live.Keys, created, deletions) && sink == old(created) && created == old(created) + 1
      ensures sink !in old(live) && live == old(live)[sink := aamp]
    {
      sink := created;
      live := live[sink := aamp];
      created := created + 1;
    }

    /** delete of a pipeline sink; deleting one that is not alive would be a double delete */
    method DeleteSink(sink: Sink)
      requires DeletedOnce(live.Keys, created, deletions) && sink in live
      modifies this`live, this`deletions
      ensures DeletedOnce(live.Keys, created, deletions) && live == old(live) - {sink} && deletions == old(deletions) + [sink]
    {
      DeletedOnceMore(live.Keys, created, deletions, sink);
      live := live - {sink};
      deletions := deletions + [sink];
      assert live.Keys == old(live.Keys) - {sink};
    }

    /**
     CreateStreamSink. Inserting a key that is there changes nothing, so without a shared sink a player
     registered before gets a second sink that no map leads to; otherwise the invariant is kept.
     */
    method CreateStreamSink(aamp: Player)
      requires Valid()
      modifies this
      ensures DeletedOnce(live.Keys, created, deletions) && deletions == old(deletions)
      ensures mPipelineMode == old(mPipelineMode) && mClientStreamSinkMap == old(mClientStreamSinkMap)
      ensures Valid() <==> aamp !in old(mInactivePlayersMap) || mPipelineMode == SINGLE
      ensures aamp in old(mInactivePlayersMap) ==>
                mInactivePlayersMap == old(mInactivePlayersMap) && mActivePlayersMap == old(mActivePlayersMap)
      ensures aamp !in old(mInactivePlayersMap) ==> mInactivePlayersMap == old(mInactivePlayersMap)[aamp := false]
      ensures mPipelineMode != SINGLE ==> mStreamPlayer == old(mStreamPlayer)
      ensures mPipelineMode == SINGLE && old(mStreamPlayer).Some? ==>
                mActivePlayersMap == old(mActivePlayersMap) && live == old(live) && created == old(created)
      ensures !(mPipelineMode == SINGLE && old(mStreamPlayer).Some?) ==>
                && created == old(created) + 1 && live == old(live)[old(created) := aamp]
                && (aamp !in old(mInactivePlayersMap) ==> mActivePlayersMap == old(mActivePlayersMap)[aamp := old(created)])
    {
      hide DeletedOnce, OneToOne;
      if aamp !in mInactivePlayersMap {
        mInactivePlayersMap := mInactivePlayersMap[aamp := false];
      }
      match mPipelineMode {
        case SINGLE =>
          if mStreamPlayer == None {
            var sink := CreateSinkInstance(aamp);
            mStreamPlayer := Some(sink);
            InsertActive(aamp, sink);
          }
        case _ =>
          var sink := CreateSinkInstance(aamp);
          InsertActive(aamp, sink);
          OneToOneWith(old(mActivePlayersMap), old(live), aamp, sink);
      }
    }

    /** mActivePlayersMap.insert */
    method InsertActive(aamp: Player, sink: Sink)
      modifies this`mActivePlayersMap
      ensures mActivePlayersMap ==
              if aamp in old(mActivePlayersMap) then old(mActivePlayersMap) else old(mActivePlayersMap)[aamp := sink]
    {
      if aamp !in mActivePlayersMap {
        mActivePlayersMap := mActivePlayersMap[aamp := sink];
      }
    }

    /**
     SetSinglePipelineMode. From UNDEFINED the caller's own sink becomes the shared one and all others
     are deleted. The result is a proper shared pipeline exactly if the caller has a sink or
     nobody is registered.
     */
    method SetSinglePipelineMode(aamp: Player)
      requires Valid()
      modifies this
      ensures DeletedOnce(live.Keys, created, deletions) && mInactivePlayersMap == old(mInactivePlayersMap) && created == old(created)
      ensures old(mPipelineMode) != UNDEFINED ==>
                && Valid() && mPipelineMode == old(mPipelineMode) && live == old(live) && deletions == old(deletions)
                && mActivePlayersMap == old(mActivePlayersMap) && mStreamPlayer == old(mStreamPlayer)
      ensures mClientStreamSinkMap == old(mClientStreamSinkMap)
      ensures old(mPipelineMode) == UNDEFINED ==> mPipelineMode == SINGLE
      ensures old(mPipelineMode) == UNDEFINED ==>
                && mActivePlayersMap == (map p | p in old(mActivePlayersMap) && p == aamp :: old(mActivePlayersMap)[p])
                && mStreamPlayer == (if aamp in old(mActivePlayersMap) then Some(old(mActivePlayersMap)[aamp]) else None)
      ensures old(mPipelineMode) == UNDEFINED ==>
                (Valid() <==> aamp in old(mActivePlayersMap) || old(mInactivePlayersMap) == map[])
    {
      if mPipelineMode == UNDEFINED {
        mPipelineMode := SINGLE;
        RetainOnly(aamp);
        if aamp in mActivePlayersMap { SoleSink(mActivePlayersMap, live, aamp); }
      }
    }

    /** The loop of SetSinglePipelineMode. */
    method RetainOnly(aamp: Player)
      requires DeletedOnce(live.Keys, created, deletions) && OneToOne(mActivePlayersMap, live) && mStreamPlayer.None?
      modifies this`mActivePlayersMap, this`mStreamPlayer, this`live, this`deletions
      ensures DeletedOnce(live.Keys, created, deletions) && OneToOne(mActivePlayersMap, live)
      ensures mActivePlayersMap == map p | p in old(mActivePlayersMap) && p == aamp :: old(mActivePlayersMap)[p]
      ensures mStreamPlayer == if aamp in old(mActivePlayersMap) then Some(old(mActivePlayersMap)[aamp]) else None
    {
      hide DeletedOnce, OneToOne;
      var todo := mActivePlayersMap.Keys;
      while todo != {}
        invariant DeletedOnce(live.Keys, created, deletions) && OneToOne(mActivePlayersMap, live)
        invariant todo <= mActivePlayersMap.Keys
        invariant mActivePlayersMap ==
                  map p | p in old(mActivePlayersMap) && (p in todo || p == aamp) :: old(mActivePlayersMap)[p]
        invariant mStreamPlayer ==
                  if aamp in old(mActivePlayersMap) && aamp !in todo then Some(old(mActivePlayersMap)[aamp]) else None
        decreases |todo|
      {
        var p :| p in todo;
        todo := todo - {p};
        if p == aamp {
          mStreamPlayer := Some(mActivePlayersMap[p]);
        } else {
          OneToOneWithout(mActivePlayersMap, live, p);
          DeleteSink(mActivePlayersMap[p]);
          mActivePlayersMap := mActivePlayersMap - {p};
        }
      }
    }

    method SetStreamSink(aamp: Player, clientSink: Sink)
      requires Valid() && mPipelineMode != SINGLE
      modifies this`mPipelineMode, this`mClientStreamSinkMap
      ensures Valid() && mPipelineMode == MULTI
      ensures mClientStreamSinkMap ==
              if aamp in old(mClientStreamSinkMap) then old(mClientStreamSinkMap)
              else old(mClientStreamSinkMap)[aamp := clientSink]
    {
      if mPipelineMode == UNDEFINED { mPipelineMode := MULTI; }
      if aamp !in mClientStreamSinkMap {
        mClientStreamSinkMap := mClientStreamSinkMap[aamp := clientSink];
      }
    }

    /** DeleteStreamSink: the shared sink moves to another registered player, and goes with the last one. */
    method DeleteStreamSink(aamp: Player)
      requires Valid()
      modifies this
      ensures Valid() && created == old(created)
      ensures mInactivePlayersMap == old(mInactivePlayersMap) - {aamp}
      ensures mActivePlayersMap == old(mActivePlayersMap) - {aamp}
      ensures old(mPipelineMode) == SINGLE && mInactivePlayersMap != map[] ==>
                && mPipelineMode == SINGLE && mStreamPlayer == old(mStreamPlayer) && deletions == old(deletions)
                && (old(live)[mStreamPlayer.value] != aamp ==> live == old(live))
      ensures old(mPipelineMode) == SINGLE && mInactivePlayersMap == map[] ==>
                mPipelineMode == UNDEFINED && live == map[]
      ensures old(mPipelineMode) != SINGLE ==>
                && mPipelineMode == old(mPipelineMode) && mClientStreamSinkMap == old(mClientStreamSinkMap) - {aamp}
                && deletions == old(deletions) +
                     (if aamp in old(mActivePlayersMap) then [old(mActivePlayersMap)[aamp]] else [])
    {
      hide DeletedOnce, OneToOne;
      if mPipelineMode == SINGLE {
        DeleteShared(aamp);
      } else {
        mInactivePlayersMap := mInactivePlayersMap - {aamp};
        if aamp in mActivePlayersMap {
          var sink := mActivePlayersMap[aamp];
          OneToOneWithout(mActivePlayersMap, live, aamp);
          mActivePlayersMap := mActivePlayersMap - {aamp};
          DeleteSink(sink);
        }
        mClientStreamSinkMap := mClientStreamSinkMap - {aamp};
      }
    }

    /** The single-pipeline case of DeleteStreamSink. */
    method DeleteShared(aamp: Player)
      requires Valid() && mPipelineMode == SINGLE
      modifies this
      ensures Valid() && created == old(created) && mClientStreamSinkMap == old(mClientStreamSinkMap)
      ensures mInactivePlayersMap == old(mInactivePlayersMap) - {aamp}
      ensures mActivePlayersMap == old(mActivePlayersMap) - {aamp}
      ensures mInactivePlayersMap != map[] ==>
                && mPipelineMode == SINGLE && mStreamPlayer == old(mStreamPlayer) && deletions == old(deletions)
                && (old(live)[mStreamPlayer.value] != aamp ==> live == old(live))
      ensures mInactivePlayersMap == map[] ==> mPipelineMode == UNDEFINED && live == map[]
    {
      hide DeletedOnce;
      if aamp in mActivePlayersMap {
        mActivePlayersMap := mActivePlayersMap - {aamp};
      }
      mInactivePlayersMap := mInactivePlayersMap - {aamp};
      assert mActivePlayersMap == old(mActivePlayersMap) - {aamp};
      forall p | p in mActivePlayersMap ensures p in mInactivePlayersMap { assert p in old(mInactivePlayersMap); }
      if mInactivePlayersMap != map[] {
        if live[mStreamPlayer.value] == aamp {
          if mActivePlayersMap == map[] {
            assert mInactivePlayersMap.Keys != {};
            var heir :| heir in mInactivePlayersMap;
            live := live[mStreamPlayer.value := heir];
            assert live.Keys == old(live.Keys);
          }
        }
      } else {
        assert mActivePlayersMap.Keys <= mInactivePlayersMap.Keys;
        if mStreamPlayer.Some? {
          DeleteSink(mStreamPlayer.value);
          assert live.Keys == {};
        }
        mStreamPlayer := None;
        mPipelineMode := UNDEFINED;
      }
    }

    /** ActivatePlayer with SetActive; SetActive dereferences the caller's inactive sink. */
    method ActivatePlayer(aamp: Player)
      requires Valid() && (mPipelineMode == SINGLE ==> aamp in mInactivePlayersMap)
      modifies this`mPipelineMode, this`mActivePlayersMap, this`live
      ensures Valid()
      ensures old(mPipelineMode) == SINGLE ==>
                && mPipelineMode == SINGLE && mStreamPlayer.Some?
                && mActivePlayersMap == map[aamp := mStreamPlayer.value] && live == map[mStreamPlayer.value := aamp]
      ensures old(mPipelineMode) != SINGLE ==>
                mPipelineMode == MULTI && mActivePlayersMap == old(mActivePlayersMap) && live == old(live)
    {
      match mPipelineMode {
        case SINGLE =>
          if mActivePlayersMap != map[] && aamp !in mActivePlayersMap {
            mActivePlayersMap := map[];
          }
          if mActivePlayersMap == map[] {
            if mStreamPlayer.Some? {
              mActivePlayersMap := mActivePlayersMap[aamp := mStreamPlayer.value];
              live := live[mStreamPlayer.value := aamp];
            }
          }
        case UNDEFINED => mPipelineMode := MULTI;
        case MULTI =>
      }
    }

    method DeactivatePlayer(aamp: Player)
      requires Valid()
      modifies this`mActivePlayersMap
      ensures Valid()
      ensures mActivePlayersMap ==
              if mPipelineMode == SINGLE then old(mActivePlayersMap) - {aamp} else old(mActivePlayersMap)
    {
      if mPipelineMode == SINGLE {
        if aamp in mActivePlayersMap {
          mActivePlayersMap := mActivePlayersMap - {aamp};
        }
      }
    }

    method UpdateTuningPlayer(aamp: Player)
      requires Valid()
      modifies this`live
      ensures Valid()
      ensures mPipelineMode == SINGLE && mActivePlayersMap == map[] && aamp in mInactivePlayersMap ==>
                mStreamPlayer.Some? && live == map[mStreamPlayer.value := aamp]
      ensures !(mPipelineMode == SINGLE && mActivePlayersMap == map[] && aamp in mInactivePlayersMap) ==>
                live == old(live)
    {
      if mPipelineMode == SINGLE {
        if mActivePlayersMap == map[] {
          if mStreamPlayer == None {
          } else if aamp !in mInactivePlayersMap {
          } else {
            live := live[mStreamPlayer.value := aamp];
          }
        }
      }
    }

    method SetTuned(aamp: Player)
      requires Valid()
      modifies this`mInactivePlayersMap
      ensures Valid() && mInactivePlayersMap.Keys == old(mInactivePlayersMap).Keys
      ensures aamp in mInactivePlayersMap ==> mInactivePlayersMap[aamp]
    {
      if aamp in mInactivePlayersMap {
        mInactivePlayersMap := mInactivePlayersMap[aamp := true];
      }
    }

    method DeleteActiveSinks()
      requires DeletedOnce(live.Keys, created, deletions) && OneToOne(mActivePlayersMap, live)
      modifies this`mActivePlayersMap, this`live, this`deletions
      ensures DeletedOnce(live.Keys, created, deletions) && mActivePlayersMap == map[] && live == map[]
    {
      while mActivePlayersMap != map[]
        invariant DeletedOnce(live.Keys, created, deletions) && OneToOne(mActivePlayersMap, live)
        decreases |mActivePlayersMap|
      {
        hide DeletedOnce, OneToOne;
        assert mActivePlayersMap.Keys != {};
        var p :| p in mActivePlayersMap;
        OneToOneWithout(mActivePlayersMap, live, p);
        DeleteSink(mActivePlayersMap[p]);
        mActivePlayersMap := mActivePlayersMap - {p};
      }
    }

    /** Clear: afterwards every sink ever created has been deleted, exactly once. */
    method Clear()
      requires Valid()
      modifies this
      ensures Valid() && mPipelineMode == UNDEFINED && live == map[] && mInactivePlayersMap == map[]
      ensures created == old(created) && forall s :: 0 <= s < created ==> s in deletions
    {
      mClientStreamSinkMap := map[];
      mInactivePlayersMap := map[];
      if mActivePlayersMap != map[] {
        DeleteActiveSinks();
        mStreamPlayer := None;
      } else if mStreamPlayer.Some? {
        DeleteSink(mStreamPlayer.value);
        mStreamPlayer := None;
      }
      mPipelineMode := UNDEFINED;
    }

    /**
     A sink that serves a player: its client sink if it has one, else a living pipeline sink that works
     for it, else, in single mode only, its inactive sink; nothing for a player nobody knows.
     */
    ghost predicate Serves(r: Option<AnySink>, aamp: Player)
      reads this
    {
      && (r.Some? <==> aamp in mInactivePlayersMap || aamp in mClientStreamSinkMap)
      && (r.Some? && r.value.Client? <==> aamp in mClientStreamSinkMap)
      && (r.Some? && r.value.Client? ==> r.value.player == aamp)
      && (r.Some? && r.value.Pipeline? ==>
            aamp in mActivePlayersMap && r.value.sink in live && live[r.value.sink] == aamp)
      && (r.Some? && r.value.Inactive? ==>
            r.value.player == aamp && mPipelineMode == SINGLE && aamp !in mActivePlayersMap)
    }

    /** GetStreamSink */
    method GetStreamSink(aamp: Player) returns (r: Option<AnySink>)
      requires Valid()
      ensures Serves(r, aamp)
    {
      r := None;
      if aamp in mClientStreamSinkMap {
        r := Some(Client(aamp));
      } else if aamp in mActivePlayersMap {
        r := Some(Pipeline(mActivePlayersMap[aamp]));
      } else if aamp in mInactivePlayersMap {
        r := Some(Inactive(aamp));
      }
    }

    /** Some other registered player has been tuned. */
    ghost predicate AnotherTuned(aamp: Player)
      reads this
    {
      exists p :: p in mInactivePlayersMap && p != aamp && mInactivePlayersMap[p]
    }

    /**
     GetStoppingStreamSink: in single mode with nobody active, and no other registered player tuned, the
     caller may stop the shared sink, whoever it is associated with; in every other case the caller
     gets the sink that serves it.
     */
    method GetStoppingStreamSink(aamp: Player) returns (r: Option<AnySink>)
      requires Valid()
      ensures mPipelineMode == SINGLE && mActivePlayersMap == map[] && !AnotherTuned(aamp) && mInactivePlayersMap != map[] ==>
                r.Some? && r.value.Pipeline? && live.Keys == {r.value.sink}
      ensures mPipelineMode == SINGLE && mActivePlayersMap == map[] && mInactivePlayersMap == map[] ==> r == None
      ensures !(mPipelineMode == SINGLE && mActivePlayersMap == map[] && !AnotherTuned(aamp)) ==> Serves(r, aamp)
    {
      if mPipelineMode == SINGLE && mActivePlayersMap == map[] {
        var hasTunedInactivePlayer := false;
        var todo := mInactivePlayersMap.Keys;
        while todo != {} && !hasTunedInactivePlayer
          invariant todo <= mInactivePlayersMap.Keys
          invariant !hasTunedInactivePlayer ==>
                      forall p :: p in mInactivePlayersMap && p !in todo && p != aamp ==> !mInactivePlayersMap[p]
          invariant hasTunedInactivePlayer ==> AnotherTuned(aamp)
          decreases |todo|
        {
          var p :| p in todo;
          todo := todo - {p};
          if p != aamp {
            if mInactivePlayersMap[p] { hasTunedInactivePlayer := true; }
          }
        }
        if !hasTunedInactivePlayer {
          r := if mStreamPlayer.Some? then Some(Pipeline(mStreamPlayer.value)) else None;
        } else {
          r := GetStreamSink(aamp);
        }
      } else {
        r := GetStreamSink(aamp);
      }
    }
  }

  /** Single mode requested by a player without a sink while p is registered: no shared sink is left. */
  method SingleModeWithoutSink(p: Player, q: Player) returns (manager: AampStreamSinkManager)
    requires p != q
    ensures fresh(manager) && !manager.Valid()
    ensures manager.mPipelineMode == SINGLE && manager.mInactivePlayersMap.Keys == {p} && manager.mStreamPlayer.None?
  {
    manager := new AampStreamSinkManager();
    manager.CreateStreamSink(p);
    manager.SetSinglePipelineMode(q);
  }

  /** A player registered twice: the second sink exists, but no map leads to it. */
  method RegisteredTwice(p: Player) returns (manager: AampStreamSinkManager)
    ensures fresh(manager) && !manager.Valid()
    ensures manager.live.Keys == {0, 1} && manager.mActivePlayersMap == map[p := 0] && manager.mStreamPlayer.None?
  {
    manager := new AampStreamSinkManager();
    manager.CreateStreamSink(p);
    manager.CreateStreamSink(p);
  }
}
