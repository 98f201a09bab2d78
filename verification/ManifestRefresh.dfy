/**
 AampMPDDownloader: how long to wait before the next manifest download, and the wait adjusted for
 the time already spent.
 */
module ManifestRefresh {
  import opened Prelude

  type int32 = x: int | -0x8000_0000 <= x < 0x8000_0000
  type uint32 = x: int | 0 <= x < 0x1_0000_0000

  const DEFAULT_INTERVAL_MS: uint32 := 3000
  const MAX_DELAY_MS: uint32 := 6000
  const MIN_DELAY_MS: uint32 := 500

  datatype Manifest = Manifest(live: bool, minimumUpdatePeriod: Option<uint32>, periodHasEventStream: seq<bool>)

  /**
   mLatencyValue, mIsLowLatency, the low-latency data in ms and the distance to the manifest end.
   mLatencyValue is -1 before the first report, and -1000 from reports during trickplay.
   */
  datatype Downloader = Downloader(
    latencyValue: int32, lowLatency: bool, availabilityTimeOffsetMs: int, fragmentDurationMs: int, deltaToEndMs: int)

  ghost function MinUpdate(m: Manifest): uint32
  {
    if m.minimumUpdatePeriod.Some? then m.minimumUpdatePeriod.value else DEFAULT_INTERVAL_MS
  }

  ghost function Clamp(ms: int): int
  {
    if ms < MIN_DELAY_MS then MIN_DELAY_MS else if ms > MAX_DELAY_MS then MAX_DELAY_MS else ms
  }

  /** Conversion of an integer to uint32_t. */
  function AsUint32(x: int): uint32 { x % 0x1_0000_0000 }

  lemma Converted(x: int)
    ensures 0 <= x < 0x1_0000_0000 ==> AsUint32(x) == x
    ensures -0x8000_0000 <= x < 0 ==> AsUint32(x) == x + 0x1_0000_0000
  {
  }

  /** Division of ints truncates toward zero. */
  function Quotient(x: int, y: int): int
    requires y > 0
  {
    if x < 0 then -(-x / y) else x / y
  }

  /** Conversion of a floating-point product to int: any value where it does not fit. */
  method ProductToInt(x: nat) returns (r: int32)
    ensures x < 0x8000_0000 ==> r == x
  {
    if x < 0x8000_0000 { r := x; } else { r := *; }
  }

  /** Lines 1006-1046: the delay that the buffer suggests, outside low latency. */
  method BufferDelay(bufferAvailable: int32, minUpdateDuration: uint32) returns (delay: uint32)
    ensures bufferAvailable == -1 ==> delay == DEFAULT_INTERVAL_MS
    ensures bufferAvailable >= 0 ==> delay <= MIN_DELAY_MS || 4 * delay <= 3 * bufferAvailable
    // a known buffer b against the period p: more than twelve seconds; up to p (or no p), up to 2p, above 2p
    ensures bufferAvailable > 12000 ==> delay == 6000
    ensures bufferAvailable == 12000 ==> delay == 3000
    ensures 0 <= bufferAvailable < 12000 ==>
              var b, p := bufferAvailable, minUpdateDuration;
              if p == 0 || b <= p then (if b == 0 then delay == 500 else delay == b / 3)
              else if b <= 2 * p then delay == p / 2
              else delay == 3 * p / 2
    ensures bufferAvailable < -1 && minUpdateDuration == 0 ==> delay == (0x1_0000_0000 - (0 - bufferAvailable as int) / 3) % 0x1_0000_0000
    // compared as uint32_t, any other negative value is above the update period
    ensures bufferAvailable < -1 && 0 < minUpdateDuration < 0x4000_0000 ==> delay == minUpdateDuration * 3 / 2
  {
    hide AsUint32;
    Converted(bufferAvailable);
    Converted(minUpdateDuration * 2);
    delay := DEFAULT_INTERVAL_MS;
    if bufferAvailable != -1 {
      if bufferAvailable < 2 * MAX_DELAY_MS {
        if minUpdateDuration > 0 && AsUint32(bufferAvailable) > minUpdateDuration {
          // the factor is 1.5 or 0.5; the product is truncated
          var ample := AsUint32(bufferAvailable) > AsUint32(minUpdateDuration * 2);
          var product := ProductToInt(if ample then minUpdateDuration * 3 / 2 else minUpdateDuration / 2);
          delay := AsUint32(product);
          Converted(product);
        } else {
          Converted(Quotient(bufferAvailable, 3));
          delay := if bufferAvailable != 0 then AsUint32(Quotient(bufferAvailable, 3)) else MIN_DELAY_MS;
        }
      } else if bufferAvailable > 2 * MAX_DELAY_MS {
        delay := MAX_DELAY_MS;
      }
    }
  }

  /** Lines 1065-1088: a delay below the minimum in low latency; it came from a shorter update period. */
  method LowLatencyDelay(minUpdateDuration: uint32, availTimeOffMs: int, maxSegDuration: int) returns (delay: uint32)
    requires 0 < minUpdateDuration < MIN_DELAY_MS
    ensures availTimeOffMs >= 0 ==> delay == MIN_DELAY_MS
    // only an offset below zero can make it longer, and only for a period not below the segment duration
    ensures var longer := (minUpdateDuration - availTimeOffMs) % 0x1_0000_0000;
            delay == if availTimeOffMs < 0 && minUpdateDuration >= maxSegDuration && longer > 500 then longer else 500
  {
    if minUpdateDuration > 0 && minUpdateDuration < maxSegDuration {
      delay := minUpdateDuration;
    } else if minUpdateDuration > 0 && minUpdateDuration > availTimeOffMs {
      delay := AsUint32(minUpdateDuration - availTimeOffMs);
    } else if maxSegDuration > 0 && maxSegDuration > availTimeOffMs {
      assert false;  // lines 1075-1078 are never reached: the period is neither below the segment
                     // duration nor above the offset
    } else {
      delay := MIN_DELAY_MS;
    }
    if delay < MIN_DELAY_MS { delay := MIN_DELAY_MS; }
  }

  /** The loop over the periods. */
  method HasEventStream(periodHasEventStream: seq<bool>) returns (eventStreamFound: bool)
    ensures eventStreamFound <==> true in periodHasEventStream
  {
    eventStreamFound := false;
    for i := 0 to |periodHasEventStream|
      invariant !eventStreamFound && forall k :: 0 <= k < i ==> !periodHasEventStream[k]
    {
      if periodHasEventStream[i] { return true; }
    }
  }

  /** getMeNextManifestDownloadWaitTime */
  method NextWaitTime(d: Downloader, m: Manifest) returns (delay: uint32)
    ensures !m.live ==> delay == DEFAULT_INTERVAL_MS
    ensures m.live && !d.lowLatency ==> MIN_DELAY_MS <= delay <= MAX_DELAY_MS
    // a known buffer bounds the delay by three quarters of itself
    ensures m.live && !d.lowLatency && d.latencyValue >= 0 ==> delay <= MIN_DELAY_MS || 4 * delay <= 3 * d.latencyValue
    // outside event streams it is the delay that the buffer suggests, within the bounds
    ensures m.live && !d.lowLatency && d.latencyValue > 12000 && true !in m.periodHasEventStream ==> delay == 6000
    ensures m.live && !d.lowLatency && 0 <= d.latencyValue < 12000 && true !in m.periodHasEventStream ==>
              var b, p := d.latencyValue, MinUpdate(m);
              delay == Clamp(if p == 0 || b <= p then b / 3 else if b <= 2 * p then p / 2 else 3 * p / 2)
    // event streams: never later than the manifest asks for, unless that is below the minimum
    ensures m.live && !d.lowLatency && true in m.periodHasEventStream && MinUpdate(m) > 0 ==>
              delay <= MinUpdate(m) || delay == MIN_DELAY_MS
    ensures m.live && !d.lowLatency && d.latencyValue > 12000 && true in m.periodHasEventStream && MinUpdate(m) > 0 ==>
              delay == Clamp(MinUpdate(m))
    // the -1 of a buffer not reported yet gives the default; the -1000 of trickplay counts as an ample buffer
    ensures m.live && !d.lowLatency && d.latencyValue == -1 && true !in m.periodHasEventStream ==> delay == DEFAULT_INTERVAL_MS
    ensures m.live && !d.lowLatency && d.latencyValue < -1 && 0 < MinUpdate(m) < 0x4000_0000 ==>
              delay == Clamp(if true in m.periodHasEventStream then MinUpdate(m) else MinUpdate(m) * 3 / 2)
    // low latency follows the update period between 500 ms and three seconds
    ensures m.live && d.lowLatency && d.latencyValue <= 0 ==> delay == 500
    ensures m.live && d.lowLatency && d.latencyValue > 0 && d.availabilityTimeOffsetMs >= 0 ==>
              var p := MinUpdate(m);
              delay == if p == 0 || p >= 3000 then 3000
                       else if p >= 500 || d.deltaToEndMs > 2 * d.fragmentDurationMs then p
                       else 500
    // low latency: only content still to download can take the delay out of its bounds, to the update period
    ensures m.live && d.lowLatency && d.availabilityTimeOffsetMs >= 0 && !(MIN_DELAY_MS <= delay <= MAX_DELAY_MS) ==>
              delay == MinUpdate(m) && d.deltaToEndMs > 2 * d.fragmentDurationMs && d.latencyValue > 0
  {
    var minUpdateDuration := DEFAULT_INTERVAL_MS;
    delay := DEFAULT_INTERVAL_MS;
    if m.live {
      if m.minimumUpdatePeriod.Some? { minUpdateDuration := m.minimumUpdatePeriod.value; }
      var eventStreamFound := HasEventStream(m.periodHasEventStream);
      var bufferAvailable := d.latencyValue;
      if !d.lowLatency { delay := BufferDelay(bufferAvailable, minUpdateDuration); }
      if (eventStreamFound || d.lowLatency) && minUpdateDuration > 0 && minUpdateDuration < delay {
        delay := minUpdateDuration;
      }
      if delay > MAX_DELAY_MS { delay := MAX_DELAY_MS; }
      if delay < MIN_DELAY_MS {
        if d.lowLatency {
          delay := LowLatencyDelay(minUpdateDuration, d.availabilityTimeOffsetMs, d.fragmentDurationMs);
        } else {
          delay := MIN_DELAY_MS;
        }
      }
      if d.lowLatency && delay <= MIN_DELAY_MS && d.deltaToEndMs > d.fragmentDurationMs * 2 {
        delay := minUpdateDuration;
      }
      if bufferAvailable <= 0 && d.lowLatency { delay := MIN_DELAY_MS; }
    }
  }

  /** downloadMPDThread1, lines 517-523: the whole cycle lasts the interval, or the time already spent if that is more. */
  method RemainingWait(refreshIntervalMs: nat, elapsedMs: nat) returns (waitMs: nat)
    ensures elapsedMs + waitMs == if elapsedMs < refreshIntervalMs then refreshIntervalMs else elapsedMs
  {
    waitMs := if elapsedMs < refreshIntervalMs then refreshIntervalMs - elapsedMs else 0;
  }
}
