/**
 AampBufferControl: the byte-based and time-based buffering strategies and the master that selects
 them, gates the downloads and handles teardown. Events run under the master's mutex.
 */
module BufferControl {
  import opened Prelude

  datatype BufferingState = NEEDS_DATA_SIGNAL | FILLING | FULL

  /** The strategy object, if any; time-based derives from byte-based. */
  datatype Strategy =
    | NoStrategy
    | ByteBased(state: BufferingState)
    | TimeBased(state: BufferingState, injectedStart: real, injectedEnd: real, startSet: bool)

  /** BufferControlExternalData: the buffer target, and the extra data (all false/0 when not fetched). */
  datatype External = External(targetSeconds: real, streamReady: bool, elapsedSeconds: real, gstWaiting: bool)

  function Abs(x: real): real { if x < 0.0 then -x else x }

  /** getInjectedSeconds */
  function InjectedSeconds(s: Strategy): real
    requires s.TimeBased?
  {
    if s.startSet then Abs(s.injectedEnd - s.injectedStart) else 0.0
  }

  function BufferedSeconds(s: Strategy, x: External): real
    requires s.TimeBased?
  {
    InjectedSeconds(s) - Min(InjectedSeconds(s), x.elapsedSeconds)
  }

  /** The strategy in place gives way to a new one. */
  ghost predicate Replaced(s: Strategy, x: External) { s.NoStrategy? || (s.ByteBased? && x.targetSeconds > 0.0) }

  /** The strategy that an event starts with: a new one waits for data, and a positive target makes it time-based. */
  ghost predicate StartsFrom(before: Strategy, x: External, s: Strategy)
  {
    if !Replaced(before, x) then s == before
    else s == if x.targetSeconds > 0.0 then TimeBased(NEEDS_DATA_SIGNAL, 0.0, 0.0, false) else ByteBased(NEEDS_DATA_SIGNAL)
  }

  /**
   What an update makes of a time-based strategy: from FILLING to FULL exactly when the stream is ready
   and not waiting with the target buffered; from FULL to FILLING exactly when it is ready, and
   waiting or more than half a second below the target.
   */
  ghost predicate Updated(before: Strategy, x: External, s: Strategy)
    requires before.TimeBased?
  {
    var injected := if !before.startSet then 0.0
                    else if before.injectedEnd >= before.injectedStart then before.injectedEnd - before.injectedStart
                    else before.injectedStart - before.injectedEnd;
    var buffered := if x.elapsedSeconds < injected then injected - x.elapsedSeconds else 0.0;
    match before.state
    case NEEDS_DATA_SIGNAL => s == before
    case FILLING =>
      s == if x.streamReady && !x.gstWaiting && buffered >= x.targetSeconds then before.(state := FULL) else before
    case FULL =>
      s == if x.streamReady && (x.gstWaiting || x.targetSeconds - buffered > 0.5) then before.(state := FILLING) else before
  }

  /** A fragment given to notifyFragmentInject. */
  datatype Fragment = Fragment(dts: real, duration: real)

  /** Each fragment starts where the one before it ends. */
  ghost predicate Contiguous(fragments: seq<Fragment>)
  {
    && (forall i :: 0 <= i < |fragments| ==> fragments[i].duration >= 0.0)
    && (forall i :: 0 <= i < |fragments| - 1 ==> fragments[i + 1].dts == fragments[i].dts + fragments[i].duration)
  }

  ghost function TotalDuration(fragments: seq<Fragment>): real
  {
    if fragments == [] then 0.0 else TotalDuration(fragments[..|fragments| - 1]) + fragments[|fragments| - 1].duration
  }

  lemma {:induction false} SpanIsDurationOfAllButLast(fragments: seq<Fragment>)
    requires fragments != [] && Contiguous(fragments)
    ensures fragments[|fragments| - 1].dts - fragments[0].dts == TotalDuration(fragments[..|fragments| - 1]) >= 0.0
  {
    var n := |fragments| - 1;
    if n > 0 {
      SpanIsDurationOfAllButLast(fragments[..n]);
      assert fragments[..n][..n - 1] == fragments[..n - 1];
      assert fragments[n].dts == fragments[n - 1].dts + fragments[n - 1].duration;
    }
  }

  /** The durations of all fragments but the last. */
  ghost function AllButLast(fragments: seq<Fragment>): real
  {
    if fragments == [] then 0.0 else TotalDuration(fragments[..|fragments| - 1])
  }

  class BufferControlMaster {
    var strategy: Strategy
    var mTeardownInProgress: bool
    var mDownloadShouldBeEnabled: bool
    ghost var fragments: seq<Fragment>  // given to the current time-based strategy since its count last restarted

    /** Outside teardown FILLING means downloads are enabled and FULL that they are not. */
    ghost predicate Gated()
      reads this
    {
      !mTeardownInProgress && !strategy.NoStrategy? ==>
        && (strategy.state == FILLING ==> mDownloadShouldBeEnabled)
        && (strategy.state == FULL ==> !mDownloadShouldBeEnabled)
    }

    ghost predicate Valid()
      reads this
    {
      && Gated()
      && (strategy.ByteBased? ==> strategy.state != FULL)
      && (strategy.TimeBased? ==>
            && (strategy.startSet <==> fragments != [])
            && (strategy.startSet ==>
                  strategy.injectedStart == fragments[0].dts && strategy.injectedEnd == fragments[|fragments| - 1].dts))
    }

    /** For contiguous fragments, injected seconds are the durations of all but the last one since the restart. */
    lemma InjectedSecondsMeaning()
      requires Valid() && strategy.TimeBased? && Contiguous(fragments)
      ensures InjectedSeconds(strategy) == AllButLast(fragments)
    {
      if fragments != [] { SpanIsDurationOfAllButLast(fragments); }
    }

    constructor ()
      ensures Valid() && strategy.NoStrategy? && mDownloadShouldBeEnabled && !mTeardownInProgress
    {
      strategy, mTeardownInProgress, mDownloadShouldBeEnabled, fragments := NoStrategy, false, true, [];
    }

    /** createOrChangeStrategyIfRequired: a time-based strategy also counts as byte-based, so it stays. */
    method CreateOrChangeStrategyIfRequired(x: External)
      requires Valid()
      modifies this`strategy, this`fragments
      ensures Valid()
      ensures x.targetSeconds > 0.0 || old(strategy).TimeBased? ==> strategy.TimeBased?
      ensures !(x.targetSeconds > 0.0 || old(strategy).TimeBased?) ==> strategy.ByteBased?
      ensures if old(strategy).TimeBased? || (old(strategy).ByteBased? && x.targetSeconds <= 0.0)
              then strategy == old(strategy) && fragments == old(fragments)
              else strategy.state == NEEDS_DATA_SIGNAL && fragments == []
      ensures StartsFrom(old(strategy), x, strategy) && !strategy.NoStrategy?
    {
      if x.targetSeconds > 0.0 {
        if !strategy.TimeBased? {
          strategy, fragments := TimeBased(NEEDS_DATA_SIGNAL, 0.0, 0.0, false), [];
        }
      } else if strategy.NoStrategy? {
        strategy, fragments := ByteBased(NEEDS_DATA_SIGNAL), [];
      }
    }

    method RestartInjectedSecondsCount()
      requires strategy.TimeBased?
      modifies this`strategy, this`fragments
      ensures strategy == TimeBased(old(strategy).state, 0.0, 0.0, false) && fragments == []
    {
      strategy := strategy.(startSet := false, injectedStart := 0.0, injectedEnd := 0.0);
      fragments := [];
    }

    method NeedData(x: External)
      requires Valid()
      modifies this
      ensures Valid() && mTeardownInProgress == old(mTeardownInProgress)
      ensures mTeardownInProgress ==> mDownloadShouldBeEnabled && strategy == old(strategy)
      ensures !mTeardownInProgress && (old(strategy).NoStrategy? || old(strategy).state == NEEDS_DATA_SIGNAL) ==>
                !strategy.NoStrategy? && strategy.state == FILLING && mDownloadShouldBeEnabled
      // a new strategy, or one that waits, goes to FILLING; any other is left alone
      ensures !mTeardownInProgress ==>
                exists from ::
                  && StartsFrom(old(strategy), x, from)
                  && strategy == (if from.state == NEEDS_DATA_SIGNAL then from.(state := FILLING) else from)
                  && (mDownloadShouldBeEnabled <==> from.state == NEEDS_DATA_SIGNAL || old(mDownloadShouldBeEnabled))
    {
      if mTeardownInProgress {
        mDownloadShouldBeEnabled := true;
      } else {
        CreateOrChangeStrategyIfRequired(x);
        assert StartsFrom(old(strategy), x, strategy);
        if strategy.state == NEEDS_DATA_SIGNAL {
          strategy := strategy.(state := FILLING);
          mDownloadShouldBeEnabled := true;
        }
      }
    }

    method EnoughData(x: External)
      requires Valid()
      modifies this
      ensures Valid() && mTeardownInProgress == old(mTeardownInProgress)
      ensures mTeardownInProgress ==> !mDownloadShouldBeEnabled && strategy == old(strategy)
      ensures !mTeardownInProgress ==>
                strategy == if x.targetSeconds > 0.0 || old(strategy).TimeBased? then TimeBased(NEEDS_DATA_SIGNAL, 0.0, 0.0, false)
                            else ByteBased(NEEDS_DATA_SIGNAL)
      ensures !mTeardownInProgress && strategy.TimeBased? ==> fragments == []
      // a strategy that was filling or full stops the downloads; one that was waiting leaves them alone
      ensures !mTeardownInProgress ==>
                if old(strategy).NoStrategy? || old(strategy).state == NEEDS_DATA_SIGNAL || Replaced(old(strategy), x)
                then mDownloadShouldBeEnabled == old(mDownloadShouldBeEnabled) else !mDownloadShouldBeEnabled
    {
      if mTeardownInProgress {
        mDownloadShouldBeEnabled := false;
      } else {
        CreateOrChangeStrategyIfRequired(x);
        if strategy.state != NEEDS_DATA_SIGNAL {
          strategy := strategy.(state := NEEDS_DATA_SIGNAL);
          mDownloadShouldBeEnabled := false;
        }
        if strategy.TimeBased? { RestartInjectedSecondsCount(); }
      }
    }

    /** BufferControlTimeBased::updateInternal */
    method UpdateInternal(x: External)
      requires strategy.TimeBased?
      modifies this`strategy, this`mDownloadShouldBeEnabled
      ensures strategy.TimeBased? && strategy == old(strategy).(state := strategy.state) && Updated(old(strategy), x, strategy)
      ensures mDownloadShouldBeEnabled <==> strategy.state == FILLING
      // FULL is entered only from FILLING, ready and not waiting, with the target buffered
      ensures old(strategy).state != FULL && strategy.state == FULL ==>
                && old(strategy).state == FILLING && x.streamReady && !x.gstWaiting
                && BufferedSeconds(strategy, x) >= x.targetSeconds
      // FULL is left only when ready, and waiting or more than half a second below the target
      ensures old(strategy).state == FULL && strategy.state != FULL ==>
                && strategy.state == FILLING && x.streamReady
                && (x.gstWaiting || x.targetSeconds - BufferedSeconds(strategy, x) > 0.5)
      // and both happen whenever they may
      ensures old(strategy).state == FILLING && x.streamReady && !x.gstWaiting ==>
                BufferedSeconds(strategy, x) >= x.targetSeconds ==> strategy.state == FULL
      ensures old(strategy).state == FULL && x.streamReady ==>
                x.gstWaiting || x.targetSeconds - BufferedSeconds(strategy, x) > 0.5 ==> strategy.state == FILLING
      ensures old(strategy).state == NEEDS_DATA_SIGNAL ==> strategy.state == NEEDS_DATA_SIGNAL
    {
      if x.streamReady {
        var injectedSeconds := InjectedSeconds(strategy);
        var elapsedSeconds := Min(injectedSeconds, x.elapsedSeconds);
        var bufferedSeconds := injectedSeconds - elapsedSeconds;
        match strategy.state {
          case FULL =>
            if x.gstWaiting {
              strategy := strategy.(state := FILLING);
            } else if 0.5 < x.targetSeconds - bufferedSeconds {
              strategy := strategy.(state := FILLING);
            }
          case FILLING =>
            if bufferedSeconds >= x.targetSeconds {
              if !x.gstWaiting {
                strategy := strategy.(state := FULL);
              }
            }
          case NEEDS_DATA_SIGNAL =>
        }
      }
      mDownloadShouldBeEnabled := strategy.state == FILLING;
    }

    method Update(x: External)
      requires Valid()
      modifies this
      ensures Valid() && mTeardownInProgress == old(mTeardownInProgress)
      ensures EntersFullOnlyWithTarget(old(mTeardownInProgress), old(strategy), x)
      ensures mTeardownInProgress ==>
                strategy == old(strategy) && fragments == old(fragments) && mDownloadShouldBeEnabled == old(mDownloadShouldBeEnabled)
      // a time-based strategy, new or not, is updated and gates the downloads; a byte-based one leaves them alone
      ensures !mTeardownInProgress ==>
                exists from ::
                  && StartsFrom(old(strategy), x, from)
                  && (if from.TimeBased? then Updated(from, x, strategy) && (mDownloadShouldBeEnabled <==> strategy.state == FILLING)
                      else strategy == from && mDownloadShouldBeEnabled == old(mDownloadShouldBeEnabled))
    {
      hide Contiguous, AllButLast, InjectedSeconds;
      if !mTeardownInProgress {
        CreateOrChangeStrategyIfRequired(x);
        assert StartsFrom(old(strategy), x, strategy);
        if strategy.TimeBased? { UpdateInternal(x); }
      }
      if strategy.TimeBased? && Contiguous(fragments) { InjectedSecondsMeaning(); }
    }

    /**
     A change to FULL: outside teardown, from FILLING, with no less than the target buffered; so for
     contiguous fragments the durations of all but the last, less the elapsed time, reach the target.
     */
    ghost predicate EntersFullOnlyWithTarget(teardown: bool, before: Strategy, x: External)
      reads this
    {
      !strategy.NoStrategy? && strategy.state == FULL && !(!before.NoStrategy? && before.state == FULL) ==>
        && !teardown && strategy.TimeBased? && before.TimeBased? && before.state == FILLING
        && BufferedSeconds(strategy, x) >= x.targetSeconds
        && (Contiguous(fragments) ==>
              var injected := AllButLast(fragments); injected - Min(injected, x.elapsedSeconds) >= x.targetSeconds)
    }

    method NotifyFragmentInject(x: External, fdts: real, duration: real, firstBuffer: bool)
      requires Valid()
      modifies this
      ensures Valid() && mTeardownInProgress == old(mTeardownInProgress)
      ensures EntersFullOnlyWithTarget(old(mTeardownInProgress), old(strategy), x)
      ensures !mTeardownInProgress && old(strategy).TimeBased? ==>
                && strategy.TimeBased?
                && fragments == (if firstBuffer then [] else old(fragments)) + [Fragment(fdts, duration)]
                && (mDownloadShouldBeEnabled <==> strategy.state == FILLING)
                && Updated(TimeBased(old(strategy).state,
                                     if firstBuffer || !old(strategy).startSet then fdts else old(strategy).injectedStart,
                                     fdts, true), x, strategy)
      ensures !(!mTeardownInProgress && old(strategy).TimeBased?) ==>
                strategy == old(strategy) && fragments == old(fragments) && mDownloadShouldBeEnabled == old(mDownloadShouldBeEnabled)
    {
      hide Contiguous, AllButLast, InjectedSeconds;
      if !mTeardownInProgress && strategy.TimeBased? {
        strategy := strategy.(injectedEnd := fdts);
        fragments := (if firstBuffer then [] else fragments) + [Fragment(fdts, duration)];
        if firstBuffer || !strategy.startSet {
          strategy := strategy.(injectedStart := fdts, startSet := true);
        }
        UpdateInternal(x);
        if Contiguous(fragments) { InjectedSecondsMeaning(); }
      }
    }

    method Underflow()
      requires Valid()
      modifies this
      ensures Valid() && mTeardownInProgress == old(mTeardownInProgress)
      ensures !mTeardownInProgress && old(strategy).TimeBased? ==>
                strategy == TimeBased(FILLING, 0.0, 0.0, false) && fragments == [] && mDownloadShouldBeEnabled
      ensures !(!mTeardownInProgress && old(strategy).TimeBased?) ==>
                strategy == old(strategy) && mDownloadShouldBeEnabled == old(mDownloadShouldBeEnabled)
    {
      if !mTeardownInProgress && strategy.TimeBased? {
        strategy := strategy.(state := FILLING);
        RestartInjectedSecondsCount();
        mDownloadShouldBeEnabled := true;
      }
    }

    method TeardownStart()
      requires Valid()
      modifies this`mTeardownInProgress
      ensures Valid() && mTeardownInProgress
    {
      mTeardownInProgress := true;
    }

    method TeardownEnd()
      requires Valid()
      modifies this
      ensures Valid() && !mTeardownInProgress && strategy.NoStrategy? && !mDownloadShouldBeEnabled
    {
      mDownloadShouldBeEnabled := false;
      strategy, fragments := NoStrategy, [];
      mTeardownInProgress := false;
    }

    method Flush()
      requires Valid()
      modifies this`strategy, this`fragments
      ensures Valid() && strategy.NoStrategy?
    {
      strategy, fragments := NoStrategy, [];
    }
  }
}
