/** The sliding-window admission limiter: per-key buckets of accepted instants, pruned and extended in place. */
module RateLimiter {
  /** Nanoseconds of a monotonic clock. */
  type Instant = int

  const RATE_WINDOW: int := 60_000_000_000

  /** An anonymous endpoint, or an endpoint of one authenticated device. */
  datatype Key = Public(endpoint: string) | PerDevice(endpoint: string, device: nat)

  predicate InWindow(seen: Instant, now: Instant) {
    now - seen < RATE_WINDOW
  }

  function Retain(bucket: seq<Instant>, now: Instant): seq<Instant> {
    if bucket == [] then []
    else (if InWindow(bucket[0], now) then [bucket[0]] else []) + Retain(bucket[1..], now)
  }

  ghost predicate Sorted(log: seq<Instant>) {
    forall i, j :: 0 <= i < j < |log| ==> log[i] <= log[j]
  }

  /** The accepted instants still inside the window at `now`; for a sorted log they are a suffix. */
  ghost function Recent(log: seq<Instant>, now: Instant): seq<Instant> {
    if log == [] then []
    else if InWindow(log[0], now) then log
    else Recent(log[1..], now)
  }

  /** Any `burst + 1` consecutive acceptances span at least one window. */
  ghost predicate Spaced(log: seq<Instant>, burst: nat) {
    forall i :: 0 <= i && i + burst < |log| ==> log[i + burst] - log[i] >= RATE_WINDOW
  }

  lemma {:induction false} RecentIsSuffix(log: seq<Instant>, now: Instant)
    requires Sorted(log)
    ensures |Recent(log, now)| <= |log| && Recent(log, now) == log[|log| - |Recent(log, now)|..]
    ensures forall i :: 0 <= i < |log| ==> (InWindow(log[i], now) <==> i >= |log| - |Recent(log, now)|)
  {
    if log != [] && !InWindow(log[0], now) {
      RecentIsSuffix(log[1..], now);
      forall i | 0 < i < |log| ensures log[1..][i - 1] == log[i] {
      }
    }
  }

  /** The `burst`-th last acceptance, if there is one, lies a full minute back. */
  ghost predicate HasRoom(log: seq<Instant>, now: Instant, burst: nat) {
    burst > 0 && (|log| < burst || now - log[|log| - burst] >= 60_000_000_000)
  }

  lemma {:induction false} RoomIsExact(log: seq<Instant>, now: Instant, burst: nat)
    requires Sorted(log)
    ensures |Recent(log, now)| < burst <==> HasRoom(log, now, burst)
  {
    RecentIsSuffix(log, now);
    if 0 < burst <= |log| {
      assert InWindow(log[|log| - burst], now) <==> |log| - burst >= |log| - |Recent(log, now)|;
    }
  }

  lemma {:induction false} RetainAllInWindow(bucket: seq<Instant>, now: Instant)
    requires forall i :: 0 <= i < |bucket| ==> InWindow(bucket[i], now)
    ensures Retain(bucket, now) == bucket
  {
    if bucket != [] {
      RetainAllInWindow(bucket[1..], now);
    }
  }

  /** Pruning the already pruned bucket at a later instant gives what pruning the whole log would. */
  lemma {:induction false} RetainRecent(log: seq<Instant>, earlier: Instant, now: Instant)
    requires Sorted(log) && earlier <= now
    ensures Retain(Recent(log, earlier), now) == Recent(log, now)
    decreases |log|
  {
    if log != [] {
      if !InWindow(log[0], earlier) {
        RetainRecent(log[1..], earlier, now);
      } else if InWindow(log[0], now) {
        RetainAllInWindow(log, now);
      } else {
        assert InWindow(log[0], earlier);
        RetainRecentTail(log, now);
      }
    }
  }

  lemma {:induction false} RetainRecentTail(log: seq<Instant>, now: Instant)
    requires Sorted(log)
    ensures Retain(log, now) == Recent(log, now)
  {
    if log != [] {
      if InWindow(log[0], now) {
        RetainAllInWindow(log, now);
      } else {
        RetainRecentTail(log[1..], now);
      }
    }
  }

  lemma AcceptKeepsSpacing(log: seq<Instant>, burst: nat, now: Instant)
    requires Sorted(log) && Spaced(log, burst) && (log != [] ==> log[|log| - 1] <= now)
    requires |Recent(log, now)| < burst
    ensures Sorted(log + [now]) && Spaced(log + [now], burst)
  {
    RecentIsSuffix(log, now);
    var more := log + [now];
    forall i | 0 <= i && i + burst < |more| ensures more[i + burst] - more[i] >= RATE_WINDOW {
      if i + burst < |log| {
        assert log[i + burst] - log[i] >= RATE_WINDOW;
      } else {
        assert !InWindow(log[i], now);
      }
    }
  }

  /** Any window shorter than 60 seconds holds at most `burst` accepted requests. */
  lemma WindowHoldsAtMostBurst(log: seq<Instant>, burst: nat, i: nat, j: nat)
    requires Sorted(log) && Spaced(log, burst) && i <= j < |log| && log[j] - log[i] < RATE_WINDOW
    ensures j - i + 1 <= burst
  {
    var k := i + burst;
    assert k < |log| ==> log[k] - log[i] >= RATE_WINDOW;
  }

  lemma {:induction false} AppendRecent(log: seq<Instant>, now: Instant)
    ensures Recent(log + [now], now) == Recent(log, now) + [now]
  {
    if log == [] {
      assert log + [now] == [now];
    } else if !InWindow(log[0], now) {
      assert (log + [now])[1..] == log[1..] + [now];
      AppendRecent(log[1..], now);
    }
  }

  /** Every instant ever accepted for a key, and the last instant the key was asked about. */
  datatype History = History(accepted: seq<Instant>, asked: Instant)

  /** The bucket is exactly the in-window suffix of the full acceptance log, which keeps the burst spacing. */
  ghost predicate Agrees(bucket: seq<Instant>, h: History, burst: nat) {
    && Sorted(h.accepted) && Spaced(h.accepted, burst)
    && (h.accepted != [] ==> h.accepted[|h.accepted| - 1] <= h.asked)
    && bucket == Recent(h.accepted, h.asked)
  }

  /** The bucket after one request: pruned, and extended only if there is room. */
  function Admitted(bucket: seq<Instant>, now: Instant, burst: nat): seq<Instant> {
    var kept := Retain(bucket, now);
    if |kept| < burst then kept + [now] else kept
  }

  /** The log after one request, decided by the whole log rather than by the bucket. */
  ghost function Asked(h: History, now: Instant, burst: nat): History {
    History(if |Recent(h.accepted, now)| < burst then h.accepted + [now] else h.accepted, now)
  }

  /** A request with room: the log grows by this instant. */
  lemma AcceptedAgrees(log: seq<Instant>, now: Instant, burst: nat)
    requires Sorted(log) && Spaced(log, burst) && (log != [] ==> log[|log| - 1] <= now) && |Recent(log, now)| < burst
    ensures Agrees(Recent(log, now) + [now], History(log + [now], now), burst)
  {
    AcceptKeepsSpacing(log, burst, now);
    AppendRecent(log, now);
  }

  /** A request without room: only the instant asked about moves on. */
  lemma RefusedAgrees(log: seq<Instant>, now: Instant, burst: nat)
    requires Sorted(log) && Spaced(log, burst) && (log != [] ==> log[|log| - 1] <= now)
    ensures Agrees(Recent(log, now), History(log, now), burst)
  {
  }

  lemma {:induction false} AdmitAgrees(bucket: seq<Instant>, h: History, now: Instant, burst: nat)
    requires Agrees(bucket, h, burst) && h.asked <= now
    ensures Retain(bucket, now) == Recent(h.accepted, now)
    ensures Agrees(Admitted(bucket, now, burst), Asked(h, now, burst), burst)
  {
    var log := h.accepted;
    RetainRecent(log, h.asked, now);
    if |Recent(log, now)| < burst {
      AcceptedAgrees(log, now, burst);
      assert Admitted(bucket, now, burst) == Recent(log, now) + [now] && Asked(h, now, burst) == History(log + [now], now);
    } else {
      RefusedAgrees(log, now, burst);
      assert Admitted(bucket, now, burst) == Recent(log, now) && Asked(h, now, burst) == History(log, now);
    }
  }

  ghost predicate AllAgree(buckets: map<Key, seq<Instant>>, log: map<Key, History>, burst: Key -> nat) {
    && buckets.Keys == log.Keys
    && forall key :: key in buckets ==> Agrees(buckets[key], log[key], burst(key))
  }

  /** The history of a key before its first request: nothing accepted. */
  ghost function HistoryOf(log: map<Key, History>, key: Key, now: Instant): History {
    if key in log then log[key] else History([], now)
  }

  lemma UpdateAgrees(buckets: map<Key, seq<Instant>>, log: map<Key, History>, burst: Key -> nat,
                     key: Key, bucket: seq<Instant>, h: History)
    requires AllAgree(buckets, log, burst) && Agrees(bucket, h, burst(key))
    ensures AllAgree(buckets[key := bucket], log[key := h], burst)
  {
  }

  class Limiter {
    var buckets: map<Key, seq<Instant>>
    /** The fixed burst of each endpoint. */
    const burst: Key -> nat
    ghost var log: map<Key, History>

    constructor (burst: Key -> nat)
      ensures Valid() && this.burst == burst && log == map[]
    {
      this.burst := burst;
      buckets, log := map[], map[];
    }

    ghost predicate Valid()
      reads this
    {
      AllAgree(buckets, log, burst)
    }

    /** Admits exactly when fewer than `burst` requests of the key were accepted in the preceding window. */
    method Allow(key: Key, now: Instant) returns (ok: bool)
      requires Valid() && (key in log ==> log[key].asked <= now)
      modifies this
      ensures Valid()
      ensures ok <==> |Recent(HistoryOf(old(log), key, now).accepted, now)| < burst(key)
      ensures ok <==> HasRoom(HistoryOf(old(log), key, now).accepted, now, burst(key))
      ensures log == old(log)[key := Asked(HistoryOf(old(log), key, now), now, burst(key))]
    {
      var bucket := if key in buckets then buckets[key] else [];
      ghost var h := HistoryOf(log, key, now);
      AdmitAgrees(bucket, h, now, burst(key));
      RoomIsExact(h.accepted, now, burst(key));
      bucket := Retain(bucket, now);
      ok := |bucket| < burst(key);
      if ok {
        bucket := bucket + [now];
      }
      UpdateAgrees(buckets, log, burst, key, bucket, Asked(h, now, burst(key)));
      buckets, log := buckets[key := bucket], log[key := Asked(h, now, burst(key))];
    }
  }

  /** One request against the limiter. */
  datatype Request = Request(key: Key, now: Instant)

  ghost function LogAfter(requests: seq<Request>, burst: Key -> nat): map<Key, History> {
    if requests == [] then map[]
    else
      var log := LogAfter(requests[..|requests| - 1], burst);
      var last := requests[|requests| - 1];
      log[last.key := Asked(HistoryOf(log, last.key, last.now), last.now, burst(last.key))]
  }

  /** A clock that never steps back between two requests. */
  ghost predicate Monotonic(requests: seq<Request>) {
    forall i, j :: 0 <= i < j < |requests| ==> requests[i].now <= requests[j].now
  }

  ghost predicate LogHolds(log: map<Key, History>, burst: Key -> nat, latest: Instant) {
    forall key :: key in log ==>
      log[key].asked <= latest && Agrees(Recent(log[key].accepted, log[key].asked), log[key], burst(key))
  }

  lemma {:induction false} RunHolds(requests: seq<Request>, burst: Key -> nat, latest: Instant)
    requires Monotonic(requests) && (requests != [] ==> requests[|requests| - 1].now <= latest)
    ensures LogHolds(LogAfter(requests, burst), burst, latest)
  {
    if requests != [] {
      var last := requests[|requests| - 1];
      RunHolds(requests[..|requests| - 1], burst, last.now);
      var log := LogAfter(requests[..|requests| - 1], burst);
      var h := HistoryOf(log, last.key, last.now);
      AdmitAgrees(Recent(h.accepted, h.asked), h, last.now, burst(last.key));
    }
  }

  /** Over every run on a monotonic clock: no window shorter than 60 seconds holds more than `burst` acceptances of a key. */
  lemma EveryWindowIsBounded(requests: seq<Request>, burst: Key -> nat, key: Key, i: nat, j: nat)
    requires Monotonic(requests) && key in LogAfter(requests, burst)
    requires i <= j < |LogAfter(requests, burst)[key].accepted|
    requires LogAfter(requests, burst)[key].accepted[j] - LogAfter(requests, burst)[key].accepted[i] < RATE_WINDOW
    ensures j - i + 1 <= burst(key)
  {
    RunHolds(requests, burst, if requests == [] then 0 else requests[|requests| - 1].now);
    WindowHoldsAtMostBurst(LogAfter(requests, burst)[key].accepted, burst(key), i, j);
  }
}
