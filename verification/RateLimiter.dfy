/** src/security/rate_limiter.cpp: a token bucket per client address, and the windows it enforces. Time
    and tokens are real numbers. */
module RateLimiter {
  import opened Text

  /** One request in the history of a limiter: who, when, and whether next() was called. */
  datatype Entry = Entry(ip: string, time: real, accepted: bool)

  /** tokens is None when it is not a number. */
  datatype Bucket = Bucket(tokens: Option<real>, lastRefill: real)

  /** max_requests per period_seconds. */
  datatype Limit = Limit(max: int, period: int)

  /** The tokens that flow into a bucket in a time. */
  function Refill(limit: Limit, elapsed: real): real
    requires limit.period != 0
  {
    elapsed * (limit.max as real / limit.period as real)
  }

  lemma RefillAdds(limit: Limit, a: real, b: real)
    requires limit.period != 0
    ensures Refill(limit, a + b) == Refill(limit, a) + Refill(limit, b)
  {
  }

  lemma RefillMonotone(limit: Limit, a: real, b: real)
    requires limit.period > 0 && limit.max >= 0 && a <= b
    ensures Refill(limit, a) <= Refill(limit, b) && Refill(limit, 0.0) == 0.0
  {
    var rate := limit.max as real / limit.period as real;
    assert rate >= 0.0;
    assert (b - a) * rate >= 0.0;
  }

  /** Accepted requests of one address. */
  function Accepted(log: seq<Entry>, ip: string): nat {
    if log == [] then 0
    else (if log[0].ip == ip && log[0].accepted then 1 else 0) + Accepted(log[1..], ip)
  }

  lemma {:induction false} AcceptedConcat(a: seq<Entry>, b: seq<Entry>, ip: string)
    ensures Accepted(a + b, ip) == Accepted(a, ip) + Accepted(b, ip)
  {
    if a == [] {
      assert a + b == b;
    } else {
      assert (a + b)[1..] == a[1..] + b;
      AcceptedConcat(a[1..], b, ip);
    }
  }

  /** What the window that starts with request j still allows at a time: the burst, plus the refill of its
      length, minus what was accepted in it. */
  function Room(limit: Limit, log: seq<Entry>, j: nat, now: real): real
    requires limit.period != 0 && j < |log|
  {
    limit.max as real + Refill(limit, now - log[j].time) - Accepted(log[j..], log[j].ip) as real
  }

  /** The rule the limiter stands for: one more request fits into every window that starts with an
      earlier request of the same address, and into the window that starts with itself. Over a period of
      zero seconds nothing fits: no time times an infinite rate is not a number. */
  predicate Fits(limit: Limit, log: seq<Entry>, ip: string, now: real) {
    && limit.period != 0 && limit.max >= 1
    && forall j | 0 <= j < |log| && log[j].ip == ip :: Room(limit, log, j, now) >= 1.0
  }

  /** tokens is the room of the tightest window of an address at a time. */
  ghost predicate IsLevel(limit: Limit, log: seq<Entry>, ip: string, at: real, tokens: real)
    requires limit.period != 0
  {
    && (forall j | 0 <= j < |log| && log[j].ip == ip :: tokens <= Room(limit, log, j, at))
    && (exists j :: 0 <= j < |log| && log[j].ip == ip && tokens == Room(limit, log, j, at))
  }

  ghost predicate Seen(log: seq<Entry>, ip: string) { exists j :: 0 <= j < |log| && log[j].ip == ip }

  lemma RoomShifts(limit: Limit, log: seq<Entry>, j: nat, at: real, now: real)
    requires limit.period != 0 && j < |log|
    ensures Room(limit, log, j, now) == Room(limit, log, j, at) + Refill(limit, now - at)
  {
    RefillAdds(limit, at - log[j].time, now - at);
  }

  /** Refilling a level moves it to another time. */
  lemma LevelShifts(limit: Limit, log: seq<Entry>, ip: string, at: real, now: real, tokens: real)
    requires limit.period != 0 && IsLevel(limit, log, ip, at, tokens)
    ensures IsLevel(limit, log, ip, now, tokens + Refill(limit, now - at))
  {
    hide Room;
    forall j | 0 <= j < |log| && log[j].ip == ip
      ensures Room(limit, log, j, now) == Room(limit, log, j, at) + Refill(limit, now - at)
    {
      RoomShifts(limit, log, j, at, now);
    }
    var j :| 0 <= j < |log| && log[j].ip == ip && tokens == Room(limit, log, j, at);
    assert tokens + Refill(limit, now - at) == Room(limit, log, j, now);
  }

  /** The capped level reaches one exactly when the request fits. */
  lemma LevelDecides(limit: Limit, log: seq<Entry>, ip: string, now: real, tokens: real)
    requires limit.period != 0 && IsLevel(limit, log, ip, now, tokens)
    ensures (tokens >= 1.0 && limit.max as real >= 1.0) <==> Fits(limit, log, ip, now)
  {
  }

  lemma RoomAppend(limit: Limit, log: seq<Entry>, e: Entry, j: nat, at: real)
    requires limit.period != 0 && j < |log|
    ensures Room(limit, log + [e], j, at) ==
            Room(limit, log, j, at) - if e.ip == log[j].ip && e.accepted then 1.0 else 0.0
  {
    assert (log + [e])[j..] == log[j..] + [e];
    AcceptedConcat(log[j..], [e], log[j].ip);
  }

  /** Recording a decision keeps every level: the deciding address loses a token if it was accepted. */
  lemma LevelAppends(limit: Limit, log: seq<Entry>, e: Entry, ip: string, at: real, tokens: real)
    requires limit.period != 0 && IsLevel(limit, log, ip, at, tokens) && e.ip != ip
    ensures IsLevel(limit, log + [e], ip, at, tokens)
  {
    hide Room;
    forall j | 0 <= j < |log| && log[j].ip == ip ensures Room(limit, log + [e], j, at) == Room(limit, log, j, at) {
      RoomAppend(limit, log, e, j, at);
    }
    var j :| 0 <= j < |log| && log[j].ip == ip && tokens == Room(limit, log, j, at);
    assert (log + [e])[j] == log[j];
  }

  function Cost(accepted: bool): real { if accepted then 1.0 else 0.0 }

  /** The windows after a decision at their own time: the old ones one token poorer if it was accepted, and
      the one that starts with it. */
  lemma RoomsAfter(limit: Limit, log: seq<Entry>, ip: string, now: real, accepted: bool)
    requires limit.period != 0
    ensures var more := log + [Entry(ip, now, accepted)];
            && Room(limit, more, |log|, now) == limit.max as real - Cost(accepted)
            && forall j | 0 <= j < |log| && log[j].ip == ip ::
                 Room(limit, more, j, now) == Room(limit, log, j, now) - Cost(accepted)
  {
    var e := Entry(ip, now, accepted);
    var more := log + [e];
    hide Room, Refill, Accepted;
    forall j | 0 <= j < |log| && log[j].ip == ip
      ensures Room(limit, more, j, now) == Room(limit, log, j, now) - Cost(accepted)
    {
      RoomAppend(limit, log, e, j, now);
    }
    OwnRoom(limit, log, e);
  }

  lemma OwnRoom(limit: Limit, log: seq<Entry>, e: Entry)
    requires limit.period != 0
    ensures Room(limit, log + [e], |log|, e.time) == limit.max as real - Cost(e.accepted)
  {
    assert (log + [e])[|log|..] == [e];
    assert Accepted([e], e.ip) == if e.accepted then 1 else 0;
  }

  /** The new bucket: the tightest of the old windows and the one that starts now. */
  lemma LevelAfter(limit: Limit, log: seq<Entry>, ip: string, now: real, accepted: bool, tokens: real)
    requires limit.period != 0
    requires var capped := limit.max as real;
             (Seen(log, ip)
              && exists t :: IsLevel(limit, log, ip, now, t) && tokens == if t > capped then capped else t)
             || (!Seen(log, ip) && tokens == capped)
    ensures IsLevel(limit, log + [Entry(ip, now, accepted)], ip, now, tokens - if accepted then 1.0 else 0.0)
  {
    hide Room, Refill, Accepted;
    RoomsAfter(limit, log, ip, now, accepted);
    var more := log + [Entry(ip, now, accepted)];
    assert forall j | 0 <= j < |log| :: more[j] == log[j];
    if Seen(log, ip) {
      var t :| IsLevel(limit, log, ip, now, t) && tokens == if t > limit.max as real then limit.max as real else t;
      var j :| 0 <= j < |log| && log[j].ip == ip && t == Room(limit, log, j, now);
      assert more[j].ip == ip && Room(limit, more, j, now) == t - Cost(accepted);
    }
    assert more[|log|].ip == ip;
  }

  /** A history every decision of which followed the rule. */
  ghost predicate Faithful(limit: Limit, log: seq<Entry>) {
    forall k | 0 <= k < |log| :: log[k].accepted == Fits(limit, log[..k], log[k].ip, log[k].time)
  }

  lemma FaithfulAppends(limit: Limit, log: seq<Entry>, ip: string, now: real)
    requires Faithful(limit, log)
    ensures Faithful(limit, log + [Entry(ip, now, Fits(limit, log, ip, now))])
  {
    var more := log + [Entry(ip, now, Fits(limit, log, ip, now))];
    forall k | 0 <= k < |more| ensures more[k].accepted == Fits(limit, more[..k], more[k].ip, more[k].time) {
      assert more[..k] == log[..k];
      assert log[..|log|] == log;
    }
  }

  class Limiter {
    const limit: Limit
    var buckets: map<string, Bucket>
    ghost var log: seq<Entry>

    /** Every decision so far followed the rule, and a bucket holds the room of the tightest window at
        its last refill. */
    ghost predicate Valid()
      reads this
    {
      && Faithful(limit, log)
      && (forall ip :: ip in buckets <==> Seen(log, ip))
      && (forall ip | ip in buckets && limit.period != 0 :: Holds(limit, log, ip, buckets[ip]))
    }

    constructor (maxRequests: int, periodSeconds: int)
      ensures Valid() && log == [] && limit == Limit(maxRequests, periodSeconds)
    {
      limit := Limit(maxRequests, periodSeconds);
      buckets := map[];
      log := [];
    }

    /** One request through the middleware. */
    method Handle(ip: string, now: real) returns (accepted: bool)
      requires Valid()
      modifies this
      ensures Valid()
      ensures accepted == Fits(limit, old(log), ip, now)
      ensures log == old(log) + [Entry(ip, now, accepted)]
    {
      hide Holds, Fits, Room, Refill, Faithful, Seen;
      FaithfulAppends(limit, log, ip, now);
      var max := limit.max as real;
      var bucket := if ip in buckets then buckets[ip] else Bucket(Some(max), now);
      var elapsed := now - bucket.lastRefill;
      var tokens := Refilled(limit, bucket.tokens, elapsed);
      if tokens.Some? && tokens.value > max { tokens := Some(max); }
      accepted := tokens.Some? && tokens.value >= 1.0;
      if accepted { tokens := Some(tokens.value - 1.0); }
      ghost var found := if ip in buckets then Some(buckets[ip]) else None;
      assert Handled(limit, found, now) == (tokens, accepted);
      HandleDecides(limit, log, ip, now, found);
      ghost var e := Entry(ip, now, accepted);
      forall other | other in buckets && other != ip && limit.period != 0
        ensures Holds(limit, log + [e], other, buckets[other])
      {
        HoldsAppends(limit, log, e, other, buckets[other]);
      }
      SeenAppends(log, e);
      log := log + [e];
      buckets := buckets[ip := Bucket(tokens, now)];
    }
  }

  ghost predicate Holds(limit: Limit, log: seq<Entry>, ip: string, bucket: Bucket)
    requires limit.period != 0
  {
    bucket.tokens.Some? && IsLevel(limit, log, ip, bucket.lastRefill, bucket.tokens.value)
  }

  /** tokens + elapsed * (max / period), where a rate over no time is not a number once multiplied. */
  function Refilled(limit: Limit, tokens: Option<real>, elapsed: real): Option<real> {
    if limit.period == 0 || tokens.None? then None else Some(tokens.value + Refill(limit, elapsed))
  }

  /** The bucket and the decision that Handle makes of a bucket, or of none. */
  function Handled(limit: Limit, found: Option<Bucket>, now: real): (Option<real>, bool) {
    var max := limit.max as real;
    var bucket := if found.Some? then found.value else Bucket(Some(max), now);
    var tokens := Refilled(limit, bucket.tokens, now - bucket.lastRefill);
    var capped := if tokens.Some? && tokens.value > max then Some(max) else tokens;
    if capped.Some? && capped.value >= 1.0 then (Some(capped.value - 1.0), true) else (capped, false)
  }

  /** The decision is the rule, and the bucket holds the room of the tightest window again. */
  lemma HandleDecides(limit: Limit, log: seq<Entry>, ip: string, now: real, found: Option<Bucket>)
    requires found.Some? <==> Seen(log, ip)
    requires found.Some? && limit.period != 0 ==> Holds(limit, log, ip, found.value)
    ensures var (tokens, accepted) := Handled(limit, found, now);
            && accepted == Fits(limit, log, ip, now)
            && (limit.period != 0 ==> Holds(limit, log + [Entry(ip, now, accepted)], ip, Bucket(tokens, now)))
  {
    hide IsLevel, Fits, Room, Refill, Seen;
    var (tokens, accepted) := Handled(limit, found, now);
    if limit.period == 0 {
      RefusesAll(limit);
    } else {
      var max := limit.max as real;
      var level := if found.None? then max else found.value.tokens.value + Refill(limit, now - found.value.lastRefill);
      if found.Some? {
        LevelShifts(limit, log, ip, found.value.lastRefill, now, found.value.tokens.value);
        LevelDecides(limit, log, ip, now, level);
      } else {
        NoRefill(limit);
        FirstFits(limit, log, ip, now);
      }
      LevelAfter(limit, log, ip, now, accepted, if level > max then max else level);
    }
  }

  /** A limit over a period of zero seconds or of less than one request refuses everything; any other accepts
      the first request of every address, whatever the others have done. */
  lemma RefusesAll(limit: Limit)
    ensures (exists log, ip, now :: Fits(limit, log, ip, now)) <==> limit.period != 0 && limit.max >= 1
    ensures (exists log, ip, now :: Fits(limit, log, ip, now)) <==>
            (forall log, ip, now | !Seen(log, ip) :: Fits(limit, log, ip, now))
  {
    if limit.period != 0 && limit.max >= 1 {
      forall log, ip, now | !Seen(log, ip) ensures Fits(limit, log, ip, now) { FirstFits(limit, log, ip, now); }
    }
    assert !Seen([], "") && (Fits(limit, [], "", 0.0) <==> limit.period != 0 && limit.max >= 1);
  }

  lemma HoldsAppends(limit: Limit, log: seq<Entry>, e: Entry, ip: string, bucket: Bucket)
    requires limit.period != 0 && Holds(limit, log, ip, bucket) && e.ip != ip
    ensures Holds(limit, log + [e], ip, bucket)
  {
    hide IsLevel;
    LevelAppends(limit, log, e, ip, bucket.lastRefill, bucket.tokens.value);
  }

  lemma FirstFits(limit: Limit, log: seq<Entry>, ip: string, now: real)
    requires limit.period != 0 && !Seen(log, ip)
    ensures Fits(limit, log, ip, now) <==> limit.max >= 1
  {
  }

  lemma SeenAppends(log: seq<Entry>, e: Entry)
    ensures forall ip :: Seen(log + [e], ip) <==> Seen(log, ip) || ip == e.ip
  {
    forall ip ensures Seen(log + [e], ip) <==> Seen(log, ip) || ip == e.ip {
      if Seen(log, ip) {
        var j :| 0 <= j < |log| && log[j].ip == ip;
        assert (log + [e])[j].ip == ip;
      }
      assert (log + [e])[|log|] == e;
    }
  }

  // ---- What the rule means over whole runs ----

  ghost predicate Monotone(log: seq<Entry>) {
    forall i, j | 0 <= i <= j < |log| :: log[i].time <= log[j].time
  }

  /** The requests of one address. */
  function Only(log: seq<Entry>, ip: string): seq<Entry> {
    if log == [] then []
    else (if log[0].ip == ip then [log[0]] else []) + Only(log[1..], ip)
  }

  /** The accepted requests of an address from number i up to number k. */
  function InWindow(log: seq<Entry>, ip: string, i: nat, k: nat): nat
    requires i <= k <= |log|
  {
    Accepted(log[i..k], ip)
  }

  /** No window of the history holds more accepted requests of an address than the burst and the refill
      of its length. */
  lemma {:induction false} WindowBound(limit: Limit, log: seq<Entry>, ip: string, i: nat, k: nat)
    requires limit.period > 0 && limit.max >= 0 && Faithful(limit, log) && Monotone(log)
    requires i <= k < |log|
    ensures InWindow(log, ip, i, k + 1) as real <= limit.max as real + Refill(limit, log[k].time - log[i].time)
    decreases k - i
  {
    hide *;
    InOrder(log, i, k);
    RefillMonotone(limit, 0.0, log[k].time - log[i].time);
    if log[i].ip == ip && log[i].accepted && log[k].ip == ip && log[k].accepted {
      BothAccepted(limit, log, ip, i, k);
    } else if i == k {
      DropFirst(log, ip, i, k);
    } else if log[i].ip == ip && log[i].accepted {
      DropLast(log, ip, i, k);
      WindowBound(limit, log, ip, i, k - 1);
      InOrder(log, k - 1, k);
      RefillMonotone(limit, log[k - 1].time - log[i].time, log[k].time - log[i].time);
    } else {
      DropFirst(log, ip, i, k);
      WindowBound(limit, log, ip, i + 1, k);
      InOrder(log, i, i + 1);
      RefillMonotone(limit, log[k].time - log[i + 1].time, log[k].time - log[i].time);
    }
  }

  lemma InOrder(log: seq<Entry>, i: nat, k: nat)
    requires Monotone(log) && i <= k < |log|
    ensures log[i].time <= log[k].time
  {
  }

  /** A window that starts with a request of the address and ends with one it was granted. */
  lemma {:induction false} BothAccepted(limit: Limit, log: seq<Entry>, ip: string, i: nat, k: nat)
    requires limit.period != 0 && Faithful(limit, log)
    requires i <= k < |log| && log[i].ip == ip && log[k].ip == ip && log[k].accepted
    ensures InWindow(log, ip, i, k + 1) as real <= limit.max as real + Refill(limit, log[k].time - log[i].time)
  {
    hide Refill;
    NoRefill(limit);
    DropLast(log, ip, i, k);
    assert Fits(limit, log[..k], ip, log[k].time);
    if i < k {
      assert log[..k][i] == log[i] && log[..k][i..] == log[i..k];
      assert Room(limit, log[..k], i, log[k].time) >= 1.0;
    } else {
      assert log[i..k] == [];
    }
  }

  lemma {:induction false} DropFirst(log: seq<Entry>, ip: string, i: nat, k: nat)
    requires i <= k < |log|
    ensures InWindow(log, ip, i, k + 1) ==
            InWindow(log, ip, i + 1, k + 1) + if log[i].ip == ip && log[i].accepted then 1 else 0
    ensures InWindow(log, ip, k + 1, k + 1) == 0
  {
    assert log[i..k + 1][1..] == log[i + 1..k + 1];
  }

  lemma {:induction false} DropLast(log: seq<Entry>, ip: string, i: nat, k: nat)
    requires i <= k < |log|
    ensures InWindow(log, ip, i, k + 1) == InWindow(log, ip, i, k) + if log[k].ip == ip && log[k].accepted then 1 else 0
  {
    assert log[i..k + 1] == log[i..k] + [log[k]];
    AcceptedConcat(log[i..k], [log[k]], ip);
  }

  lemma {:induction false} OnlyAccepted(log: seq<Entry>, ip: string)
    ensures Accepted(Only(log, ip), ip) == Accepted(log, ip)
  {
    if log != [] {
      OnlyAccepted(log[1..], ip);
      if log[0].ip == ip {
        assert Only(log, ip)[1..] == Only(log[1..], ip);
      } else {
        assert Only(log, ip) == Only(log[1..], ip);
      }
    }
  }

  lemma {:induction false} FitsSplits(limit: Limit, log: seq<Entry>, ip: string, now: real)
    requires limit.period != 0 && log != []
    ensures Fits(limit, log, ip, now) <==>
            Fits(limit, log[1..], ip, now) && (log[0].ip == ip ==> Room(limit, log, 0, now) >= 1.0)
  {
    forall j | 0 < j < |log| ensures Room(limit, log, j, now) == Room(limit, log[1..], j - 1, now) {
      assert log[j..] == log[1..][j - 1..];
    }
    hide Room;
    if Fits(limit, log, ip, now) {
      forall j | 0 <= j < |log[1..]| && log[1..][j].ip == ip ensures Room(limit, log[1..], j, now) >= 1.0 {
        assert Room(limit, log, j + 1, now) >= 1.0;
      }
    }
  }

  lemma FirstRoom(limit: Limit, log: seq<Entry>, ip: string, now: real)
    requires limit.period != 0 && log != [] && log[0].ip == ip
    ensures Only(log, ip) != [] && Only(log, ip)[0] == log[0] && Only(log, ip)[1..] == Only(log[1..], ip)
    ensures Room(limit, Only(log, ip), 0, now) == Room(limit, log, 0, now)
  {
    hide Refill;
    var only := Only(log, ip);
    assert log[0..] == log && only[0..] == only;
    OnlyAccepted(log, ip);
    hide Accepted;
  }

  /** Addresses do not affect each other: a decision depends on the requests of its own address only. */
  lemma {:induction false} AddressesIndependent(limit: Limit, log: seq<Entry>, ip: string, now: real)
    ensures Fits(limit, log, ip, now) == Fits(limit, Only(log, ip), ip, now)
  {
    if limit.period != 0 && log != [] {
      hide Fits, Room;
      AddressesIndependent(limit, log[1..], ip, now);
      FitsSplits(limit, log, ip, now);
      if log[0].ip == ip {
        FirstRoom(limit, log, ip, now);
        FitsSplits(limit, Only(log, ip), ip, now);
      } else {
        OthersDropped(log, ip);
      }
    }
  }

  lemma OthersDropped(log: seq<Entry>, ip: string)
    requires log != [] && log[0].ip != ip
    ensures Only(log, ip) == Only(log[1..], ip)
  {
    assert [] + Only(log[1..], ip) == Only(log[1..], ip);
  }

  /** Consecutive requests of an address are at least period / max apart. */
  ghost predicate Spaced(limit: Limit, log: seq<Entry>, ip: string)
    requires limit.period != 0
  {
    forall i, k | 0 <= i < k < |log| && log[i].ip == ip && log[k].ip == ip ::
      Refill(limit, log[k].time - log[i].time) >= 1.0
  }

  /** A window that starts with a request of a spaced address accepts at most one request per gap. */
  lemma {:induction false} SpacedCount(limit: Limit, log: seq<Entry>, ip: string, j: nat, last: nat)
    requires limit.period != 0 && Spaced(limit, log, ip)
    requires j <= last < |log| && log[j].ip == ip && log[last].ip == ip
    ensures Accepted(log[j..last + 1], ip) as real <= 1.0 + Refill(limit, log[last].time - log[j].time)
    decreases last
  {
    hide Refill;
    DropLast(log, ip, j, last);
    if j == last {
      assert log[j..last] == [] && log[last].time - log[j].time == 0.0;
      NoRefill(limit);
    } else {
      var p := Previous(log, ip, j, last);
      SpacedCount(limit, log, ip, j, p);
      assert log[j..last] == log[j..p + 1] + log[p + 1..last];
      AcceptedConcat(log[j..p + 1], log[p + 1..last], ip);
      NoneAccepted(log[p + 1..last], ip);
      RefillAdds(limit, log[p].time - log[j].time, log[last].time - log[p].time);
      assert log[p].time - log[j].time + (log[last].time - log[p].time) == log[last].time - log[j].time;
    }
  }

  lemma NoRefill(limit: Limit)
    requires limit.period != 0
    ensures Refill(limit, 0.0) == 0.0
  {
  }

  /** The request of the address before the last one. */
  function Previous(log: seq<Entry>, ip: string, j: nat, last: nat): (p: nat)
    requires j < last < |log| && log[j].ip == ip
    ensures j <= p < last && log[p].ip == ip && forall i | p < i < last :: log[i].ip != ip
    decreases last
  {
    if log[last - 1].ip == ip then last - 1 else Previous(log, ip, j, last - 1)
  }

  lemma {:induction false} NoneAccepted(log: seq<Entry>, ip: string)
    requires forall i | 0 <= i < |log| :: log[i].ip != ip
    ensures Accepted(log, ip) == 0
  {
    if log != [] {
      NoneAccepted(log[1..], ip);
    }
  }

  /** A client that leaves at least period / max between its requests is never refused. */
  lemma {:induction false} SpacedNeverRefused(limit: Limit, log: seq<Entry>, ip: string, now: real)
    requires limit.period != 0 && limit.max >= 1 && Spaced(limit, log, ip)
    requires forall i | 0 <= i < |log| && log[i].ip == ip :: Refill(limit, now - log[i].time) >= 1.0
    ensures Fits(limit, log, ip, now)
  {
    forall j | 0 <= j < |log| && log[j].ip == ip ensures Room(limit, log, j, now) >= 1.0 {
      SpacedRoom(limit, log, ip, j, now);
    }
    hide Room, Spaced, Refill;
  }

  lemma {:induction false} SpacedRoom(limit: Limit, log: seq<Entry>, ip: string, j: nat, now: real)
    requires limit.period != 0 && limit.max >= 1 && Spaced(limit, log, ip) && j < |log| && log[j].ip == ip
    requires forall i | 0 <= i < |log| && log[i].ip == ip :: Refill(limit, now - log[i].time) >= 1.0
    ensures Room(limit, log, j, now) >= 1.0
  {
    hide Refill, Spaced, Accepted;
    var last := Latest(log, ip, j);
    SpacedCount(limit, log, ip, j, last);
    assert log[j..] == log[j..last + 1] + log[last + 1..];
    AcceptedConcat(log[j..last + 1], log[last + 1..], ip);
    NoneAccepted(log[last + 1..], ip);
    RefillAdds(limit, log[last].time - log[j].time, now - log[last].time);
    assert log[last].time - log[j].time + (now - log[last].time) == now - log[j].time;
  }

  /** The last request of the address. */
  function Latest(log: seq<Entry>, ip: string, j: nat): (p: nat)
    requires j < |log| && log[j].ip == ip
    ensures j <= p < |log| && log[p].ip == ip && forall i | p < i < |log| :: log[i].ip != ip
  {
    if log[|log| - 1].ip == ip then |log| - 1 else Previous(log, ip, j, |log| - 1)
  }
}
