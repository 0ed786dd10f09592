/**
 The in-memory sliding-window limiter: it forgets hits that have left the window and, when it
 tracks too many keys, sweeps them all. Neither is observable: as long as the clock does not
 run backwards it answers like a limiter that never forgets.
 */
module RateLimiter {
  import opened Common

  const SWEEP_THRESHOLD := 10_000

  // ---------------------------------------------------------------------------
  // Filtering by time
  // ---------------------------------------------------------------------------

  /** list.filter((t) => t > cutoff) */
  function Live(s: seq<int>, cutoff: int): seq<int> {
    if s == [] then [] else
      Live(s[..|s| - 1], cutoff) + if s[|s| - 1] > cutoff then [s[|s| - 1]] else []
  }

  lemma LiveAppend(s: seq<int>, x: int, c: int)
    ensures Live(s + [x], c) == Live(s, c) + if x > c then [x] else []
  {
    assert (s + [x])[..|s|] == s;
  }

  lemma {:induction false} LiveTwice(s: seq<int>, a: int, b: int)
    requires a <= b
    ensures Live(Live(s, a), b) == Live(s, b)
  {
    if s != [] {
      var r, x := s[..|s| - 1], s[|s| - 1];
      LiveTwice(r, a, b);
      if x > a {
        LiveAppend(Live(r, a), x, b);
      } else {
        assert Live(s, a) == Live(r, a) && Live(s, b) == Live(r, b);
      }
    }
  }

  lemma {:induction false} LiveLater(s: seq<int>, a: int, b: int)
    requires a <= b
    ensures |Live(s, b)| <= |Live(s, a)|
  {
    if s != [] { LiveLater(s[..|s| - 1], a, b); }
  }

  // ---------------------------------------------------------------------------
  // The limiter that never forgets
  // ---------------------------------------------------------------------------

  /** All hits ever allowed, per key, in order. */
  type Log = map<string, seq<int>>

  function Hits(log: Log, key: string): seq<int> {
    if key in log then log[key] else []
  }

  predicate Allowed(log: Log, key: string, now: int, window: int, max: int) {
    |Live(Hits(log, key), now - window)| < max
  }

  function Next(log: Log, key: string, now: int, window: int, max: int): Log {
    if Allowed(log, key, now, window, max) then log[key := Hits(log, key) + [now]] else log
  }

  function CeilDiv(a: int, d: int): int
    requires d > 0
  {
    (a + d - 1) / d
  }

  /** Seconds until the oldest counted hit ages out. */
  function RetryAfter(live: seq<int>, now: int, window: int): int {
    var oldest := if live == [] then now else live[0];
    Max(1, CeilDiv(oldest + window - now, 1000))
  }

  // ---------------------------------------------------------------------------
  // The implementation
  // ---------------------------------------------------------------------------

  /** Every key pruned, and those left without hits dropped. */
  function Swept(hits: Log, cutoff: int): Log {
    map key | key in hits && Live(hits[key], cutoff) != [] :: Live(hits[key], cutoff)
  }

  /** What a check leaves of the stored hits, sweeping first when there are too many keys. */
  function Stored(hits: Log, key: string, now: int, window: int, max: int): Log {
    var swept := if |hits| > SWEEP_THRESHOLD then Swept(hits, now - window) else hits;
    var live := Live(Hits(swept, key), now - window);
    swept[key := if |live| < max then live + [now] else live]
  }

  /** From `from` on, two lists of hits are indistinguishable. */
  ghost predicate Agree(h: seq<int>, l: seq<int>, from: int) {
    forall c :: c >= from ==> Live(h, c) == Live(l, c)
  }

  lemma AgreePruned(h: seq<int>, l: seq<int>, from: int, cut: int)
    requires Agree(h, l, from) && from <= cut
    ensures Agree(Live(h, cut), l, cut)
  {
    forall c | c >= cut ensures Live(Live(h, cut), c) == Live(l, c) {
      LiveTwice(h, cut, c);
    }
  }

  lemma AgreeAppended(h: seq<int>, l: seq<int>, from: int, x: int)
    requires Agree(h, l, from)
    ensures Agree(h + [x], l + [x], from)
  {
    forall c | c >= from ensures Live(h + [x], c) == Live(l + [x], c) {
      LiveAppend(h, x, c);
      LiveAppend(l, x, c);
    }
  }

  class Limiter {
    const windowMs: int
    const max: int
    var hits: Log

    /** The full history, the last time seen, and whether time has only moved forward. */
    ghost var log: Log
    ghost var clock: Option<int>
    ghost var inOrder: bool

    ghost predicate Valid()
      reads this
    {
      && (clock == None ==> hits == map[] && log == map[])
      && (clock.Some? && inOrder ==>
            forall key :: Agree(Hits(hits, key), Hits(log, key), clock.value - windowMs))
    }

    constructor (windowMs: int, max: int)
      ensures Valid() && inOrder && log == map[] && clock == None
      ensures this.windowMs == windowMs && this.max == max
    {
      this.windowMs, this.max := windowMs, max;
      hits, log, clock, inOrder := map[], map[], None, true;
    }

    /** Drop every hit outside the window, and every key left without hits. */
    method Sweep(now: int)
      modifies this`hits
      ensures hits == Swept(old(hits), now - windowMs)
      ensures forall key :: Hits(hits, key) == Live(Hits(old(hits), key), now - windowMs)
    {
      hide Live;
      var todo := hits.Keys;
      LiveNothing(now - windowMs);
      while todo != {}
        invariant todo <= old(hits).Keys && todo <= hits.Keys && hits.Keys <= old(hits).Keys
        invariant forall key :: key in todo ==> hits[key] == old(hits)[key]
        invariant forall key :: key !in todo ==> Hits(hits, key) == Live(Hits(old(hits), key), now - windowMs)
        invariant forall key :: key in hits && key !in todo ==> hits[key] != []
      {
        var key :| key in todo;
        todo := todo - {key};
        var live := Live(hits[key], now - windowMs);
        if live == [] {
          hits := hits - {key};
        } else {
          hits := hits[key := live];
        }
      }
    }

    method Check(key: string, now: int) returns (allowed: bool, retryAfterSeconds: int)
      requires Valid()
      modifies this
      ensures Valid()
      ensures clock == Some(now)
      ensures inOrder == (old(inOrder) && (old(clock) == None || old(clock.value) <= now))
      ensures allowed == Allowed(old(hits), key, now, windowMs, max)
      ensures hits == Stored(old(hits), key, now, windowMs, max)
      ensures inOrder ==> allowed == Allowed(old(log), key, now, windowMs, max)
      ensures inOrder ==> log == Next(old(log), key, now, windowMs, max)
      ensures retryAfterSeconds ==
              if allowed then 0 else RetryAfter(Live(Hits(old(hits), key), now - windowMs), now, windowMs)
      ensures inOrder && !allowed ==>
              retryAfterSeconds == RetryAfter(Live(Hits(old(log), key), now - windowMs), now, windowMs)
    {
      hide Live, Agree;
      ghost var before := hits;
      var cutoff := now - windowMs;
      if |hits| > SWEEP_THRESHOLD { Sweep(now); }
      MaybeSwept(before, hits, cutoff);
      var live := Live(Hits(hits, key), cutoff);
      assert live == Live(Hits(before, key), cutoff);
      inOrder := inOrder && (clock == None || clock.value <= now);
      ghost var l := Hits(log, key);
      if inOrder {
        AllPruned(before, hits, log, clock, windowMs, now);
        AgreeAt(Hits(hits, key), l, cutoff);
        AgreePruned(Hits(hits, key), l, cutoff, cutoff);
        AgreeAppended(live, l, cutoff, now);
      }
      clock := Some(now);
      if |live| >= max {
        hits := hits[key := live];
        return false, RetryAfter(live, now, windowMs);
      }
      ghost var h, g := hits, log;
      hits := hits[key := live + [now]];
      log := log[key := l + [now]];
      if inOrder {
        OneKeyMoved(h, g, hits, log, key, cutoff);
      }
      return true, 0;
    }
  }

  lemma OneKeyMoved(h: Log, g: Log, h': Log, g': Log, key: string, from: int)
    requires forall k :: Agree(Hits(h, k), Hits(g, k), from)
    requires key in h' && key in g' && h' == h[key := h'[key]] && g' == g[key := g'[key]]
    requires Agree(h'[key], g'[key], from)
    ensures forall k :: Agree(Hits(h', k), Hits(g', k), from)
  {
    hide Agree;
    forall k ensures Agree(Hits(h', k), Hits(g', k), from) {
      assert Agree(Hits(h, k), Hits(g, k), from);
    }
  }

  lemma LiveNothing(c: int)
    ensures Live([], c) == []
  {
  }

  lemma AgreeAt(h: seq<int>, l: seq<int>, c: int)
    requires Agree(h, l, c)
    ensures Live(h, c) == Live(l, c)
  {
  }

  /** Whether or not the keys were just swept, the live hits are the same. */
  lemma MaybeSwept(before: Log, after: Log, cutoff: int)
    requires after == before || forall key :: Hits(after, key) == Live(Hits(before, key), cutoff)
    ensures forall key :: Live(Hits(after, key), cutoff) == Live(Hits(before, key), cutoff)
  {
    hide Live;
    forall key ensures Live(Hits(after, key), cutoff) == Live(Hits(before, key), cutoff) {
      LiveTwice(Hits(before, key), cutoff, cutoff);
    }
  }

  /** Moving the clock on, with or without a sweep, keeps every key in agreement with the log. */
  lemma AllPruned(before: Log, after: Log, log: Log, clock: Option<int>, window: int, now: int)
    requires clock == None ==> before == map[] && log == map[]
    requires clock.Some? ==> clock.value <= now
    requires clock.Some? ==> forall key :: Agree(Hits(before, key), Hits(log, key), clock.value - window)
    requires after == before || forall key :: Hits(after, key) == Live(Hits(before, key), now - window)
    ensures forall key :: Agree(Hits(after, key), Hits(log, key), now - window)
  {
    forall key ensures Agree(Hits(after, key), Hits(log, key), now - window) {
      if clock.Some? {
        var h, l := Hits(before, key), Hits(log, key);
        assert Agree(h, l, clock.value - window);
        AgreePruned(h, l, clock.value - window, now - window);
      }
    }
  }

  // ---------------------------------------------------------------------------
  // What the limiter guarantees
  // ---------------------------------------------------------------------------

  datatype Request = Request(key: string, now: int)

  ghost predicate InOrder(rs: seq<Request>) {
    forall i, j :: 0 <= i < j < |rs| ==> rs[i].now <= rs[j].now
  }

  /** The log after a sequence of checks. */
  ghost function LogOf(rs: seq<Request>, window: int, max: int): Log {
    if rs == [] then map[] else
      Next(LogOf(rs[..|rs| - 1], window, max), rs[|rs| - 1].key, rs[|rs| - 1].now, window, max)
  }

  ghost predicate Ascending(s: seq<int>) {
    forall i, j :: 0 <= i < j < |s| ==> s[i] <= s[j]
  }

  /** Each hit found room in the window that ends with it. */
  ghost predicate RoomForEach(s: seq<int>, window: int, max: int) {
    forall i :: 0 <= i < |s| ==> |Live(s[..i + 1], s[i] - window)| <= max
  }

  lemma AppendHit(s: seq<int>, x: int, window: int, max: int)
    requires Ascending(s) && RoomForEach(s, window, max) && |Live(s, x - window)| < max
    requires forall i :: 0 <= i < |s| ==> s[i] <= x
    ensures Ascending(s + [x]) && RoomForEach(s + [x], window, max)
  {
    hide Live;
    var t := s + [x];
    LiveAppend(s, x, x - window);
    forall i | 0 <= i < |t| ensures |Live(t[..i + 1], t[i] - window)| <= max {
      if i < |s| { assert t[..i + 1] == s[..i + 1]; } else { assert t[..i + 1] == t; }
    }
  }

  lemma NoHits(window: int, max: int)
    ensures Ascending([]) && RoomForEach([], window, max)
  {
  }

  lemma {:induction false} LogFacts(rs: seq<Request>, window: int, max: int, key: string)
    requires InOrder(rs)
    ensures var s := Hits(LogOf(rs, window, max), key);
            && Ascending(s) && RoomForEach(s, window, max)
            && (forall i :: 0 <= i < |s| ==> rs != [] && s[i] <= rs[|rs| - 1].now)
  {
    hide Live, Ascending, RoomForEach;
    if rs == [] {
      NoHits(window, max);
    } else {
      var r, last := rs[..|rs| - 1], rs[|rs| - 1];
      LogFacts(r, window, max, key);
      var s := Hits(LogOf(r, window, max), key);
      forall i | 0 <= i < |s| ensures s[i] <= last.now {
        assert s[i] <= r[|r| - 1].now && r[|r| - 1] == rs[|rs| - 2];
      }
      if last.key == key && Allowed(LogOf(r, window, max), key, last.now, window, max) {
        AppendHit(s, last.now, window, max);
      }
    }
  }

  /** The hits of a key in the window (t - window, t]. */
  ghost function InWindow(s: seq<int>, t: int, window: int): seq<int> {
    Live(UpTo(s, t), t - window)
  }

  ghost function UpTo(s: seq<int>, t: int): seq<int> {
    if s == [] then [] else if s[|s| - 1] <= t then s else UpTo(s[..|s| - 1], t)
  }

  lemma {:induction false} UpToPrefix(s: seq<int>, t: int)
    requires Ascending(s)
    ensures |UpTo(s, t)| <= |s| && UpTo(s, t) == s[..|UpTo(s, t)|]
    ensures forall i :: 0 <= i < |s| ==> (i < |UpTo(s, t)| <==> s[i] <= t)
  {
    if s != [] && s[|s| - 1] > t {
      UpToPrefix(s[..|s| - 1], t);
      assert s[..|s| - 1][..|UpTo(s, t)|] == s[..|UpTo(s, t)|];
    }
  }

  /** If each hit found room when it came, no window of any position is overfull. */
  lemma RoomBoundsWindow(s: seq<int>, window: int, max: int, t: int)
    requires Ascending(s) && RoomForEach(s, window, max) && max >= 0
    ensures |InWindow(s, t, window)| <= max
  {
    hide Live;
    UpToPrefix(s, t);
    var n := |UpTo(s, t)|;
    if n == 0 {
      LiveNothing(t - window);
    } else {
      assert s[..n - 1 + 1] == UpTo(s, t);
      LiveLater(UpTo(s, t), s[n - 1] - window, t - window);
    }
  }

  /** Over every run, no window of any position holds more than max allowed hits of a key. */
  lemma WindowNeverOverfull(rs: seq<Request>, window: int, max: int, key: string, t: int)
    requires InOrder(rs) && max >= 0
    ensures |InWindow(Hits(LogOf(rs, window, max), key), t, window)| <= max
  {
    hide Live, LogOf, InWindow;
    LogFacts(rs, window, max, key);
    RoomBoundsWindow(Hits(LogOf(rs, window, max), key), window, max, t);
  }

  /** Of ascending hits, the live ones are the last ones. */
  lemma {:induction false} LiveIsSuffix(s: seq<int>, c: int) returns (k: nat)
    requires Ascending(s)
    ensures k <= |s| && Live(s, c) == s[k..]
    ensures forall i :: 0 <= i < k ==> s[i] <= c
    ensures forall i :: k <= i < |s| ==> s[i] > c
  {
    hide Live;
    k := |s|;
    if s == [] {
      LiveNothing(c);
    } else {
      var r, x := s[..|s| - 1], s[|s| - 1];
      assert s == r + [x];
      if x > c {
        k := LiveIsSuffix(r, c);
        LiveAppend(r, x, c);
        assert s[k..] == r[k..] + [x];
      } else {
        NoneLive(s, c);
      }
    }
  }

  lemma {:induction false} NoneLive(s: seq<int>, c: int)
    requires forall i :: 0 <= i < |s| ==> s[i] <= c
    ensures Live(s, c) == []
  {
    if s != [] { NoneLive(s[..|s| - 1], c); }
  }

  lemma FullWindow(rs: seq<Request>, window: int, max: int, key: string, now: int)
    requires InOrder(rs) && max >= 1 && (rs == [] || rs[|rs| - 1].now <= now)
    ensures |Live(Hits(LogOf(rs, window, max), key), now - window)| <= max
  {
    hide Live, LogOf;
    var s := Hits(LogOf(rs, window, max), key);
    LogFacts(rs, window, max, key);
    if s == [] {
      LiveNothing(now - window);
    } else {
      assert s[..|s| - 1 + 1] == s;
      LiveLater(s, s[|s| - 1] - window, now - window);
    }
  }

  /** A denied key is denied until its oldest counted hit has aged out, and allowed from then on,
      if no other check of the key is allowed in between. */
  lemma RetryIsExact(rs: seq<Request>, window: int, max: int, key: string, now: int, t: int)
    requires InOrder(rs) && max >= 1 && (rs == [] || rs[|rs| - 1].now <= now) && now <= t
    requires !Allowed(LogOf(rs, window, max), key, now, window, max)
    ensures var live := Live(Hits(LogOf(rs, window, max), key), now - window);
            && live != []
            && (Allowed(LogOf(rs, window, max), key, t, window, max) <==> t >= live[0] + window)
  {
    hide Live, LogOf;
    var s := Hits(LogOf(rs, window, max), key);
    LogFacts(rs, window, max, key);
    FullWindow(rs, window, max, key, now);
    var k := LiveIsSuffix(s, now - window);
    var k' := LiveIsSuffix(s, t - window);
    assert k < |s| && s[k..][0] == s[k];
    if k' < |s| {
      assert s[k'] > t - window >= now - window;
      assert !(k' < k);
    }
    assert k' > k <==> s[k] <= t - window;
  }

  /** Waiting the advertised number of seconds is always enough. */
  lemma RetryAfterSuffices(rs: seq<Request>, window: int, max: int, key: string, now: int)
    requires InOrder(rs) && max >= 1 && (rs == [] || rs[|rs| - 1].now <= now)
    requires !Allowed(LogOf(rs, window, max), key, now, window, max)
    ensures var live := Live(Hits(LogOf(rs, window, max), key), now - window);
            Allowed(LogOf(rs, window, max), key, now + 1000 * RetryAfter(live, now, window), window, max)
  {
    hide Live, LogOf, Allowed;
    var live := Live(Hits(LogOf(rs, window, max), key), now - window);
    var wait := RetryAfter(live, now, window);
    RetryIsExact(rs, window, max, key, now, now + 1000 * wait);
    assert 1000 * wait >= live[0] + window - now;
  }

  /** And not a second more than needed: at least one, and a second earlier the key is still denied. */
  lemma RetryAfterIsLeast(rs: seq<Request>, window: int, max: int, key: string, now: int)
    requires InOrder(rs) && max >= 1 && (rs == [] || rs[|rs| - 1].now <= now)
    requires !Allowed(LogOf(rs, window, max), key, now, window, max)
    ensures var wait := RetryAfter(Live(Hits(LogOf(rs, window, max), key), now - window), now, window);
            && wait >= 1
            && (wait > 1 ==> !Allowed(LogOf(rs, window, max), key, now + 1000 * (wait - 1), window, max))
  {
    hide Live, LogOf, Allowed;
    var live := Live(Hits(LogOf(rs, window, max), key), now - window);
    var wait := RetryAfter(live, now, window);
    if wait > 1 {
      RetryIsExact(rs, window, max, key, now, now + 1000 * (wait - 1));
      assert 1000 * (wait - 1) < live[0] + window - now;
    }
  }

  // ---------------------------------------------------------------------------
  // The clock
  // ---------------------------------------------------------------------------

  /** The stored hits after a sequence of checks. */
  ghost function StoredOf(rs: seq<Request>, window: int, max: int): Log {
    if rs == [] then map[] else
      Stored(StoredOf(rs[..|rs| - 1], window, max), rs[|rs| - 1].key, rs[|rs| - 1].now, window, max)
  }

  /** After these checks, the limiter and one that never forgets answer a check alike. */
  ghost predicate SameVerdict(rs: seq<Request>, key: string, t: int, window: int, max: int) {
    Allowed(StoredOf(rs, window, max), key, t, window, max) <==> Allowed(LogOf(rs, window, max), key, t, window, max)
  }

  lemma StoredAgrees(hits: Log, log: Log, clock: Option<int>, key: string, now: int, window: int, max: int)
    requires clock == None ==> hits == map[] && log == map[]
    requires clock.Some? ==> clock.value <= now && forall k :: Agree(Hits(hits, k), Hits(log, k), clock.value - window)
    ensures forall k :: Agree(Hits(Stored(hits, key, now, window, max), k), Hits(Next(log, key, now, window, max), k),
      now - window)
  {
    hide Live, Agree;
    var cutoff := now - window;
    var swept := if |hits| > SWEEP_THRESHOLD then Swept(hits, cutoff) else hits;
    SweptHits(hits, cutoff);
    AllPruned(hits, swept, log, clock, window, now);
    var live, l := Live(Hits(swept, key), cutoff), Hits(log, key);
    AgreeAt(Hits(swept, key), l, cutoff);
    AgreePruned(Hits(swept, key), l, cutoff, cutoff);
    AgreeAppended(live, l, cutoff, now);
    var after, log' := Stored(hits, key, now, window, max), Next(log, key, now, window, max);
    forall k ensures Agree(Hits(after, k), Hits(log', k), cutoff) {
      assert Agree(Hits(swept, k), Hits(log, k), cutoff);
    }
  }

  lemma SweptHits(hits: Log, cutoff: int)
    ensures forall key :: Hits(Swept(hits, cutoff), key) == Live(Hits(hits, key), cutoff)
  {
    hide Live;
    LiveNothing(cutoff);
  }

  lemma {:induction false} RunAgrees(rs: seq<Request>, window: int, max: int)
    requires InOrder(rs) && rs != []
    ensures forall k :: Agree(Hits(StoredOf(rs, window, max), k), Hits(LogOf(rs, window, max), k),
      rs[|rs| - 1].now - window)
  {
    hide Agree, Live, Stored, Next;
    var r, last := rs[..|rs| - 1], rs[|rs| - 1];
    if r == [] {
      StoredAgrees(map[], map[], None, last.key, last.now, window, max);
    } else {
      RunAgrees(r, window, max);
      assert r[|r| - 1] == rs[|rs| - 2];
      StoredAgrees(StoredOf(r, window, max), LogOf(r, window, max), Some(r[|r| - 1].now), last.key, last.now, window,
        max);
    }
  }

  lemma {:induction false} StoredInPast(rs: seq<Request>, window: int, max: int, key: string)
    requires InOrder(rs)
    ensures forall x :: x in Hits(StoredOf(rs, window, max), key) ==> rs != [] && x <= rs[|rs| - 1].now
  {
    hide Live;
    if rs != [] {
      var r, last := rs[..|rs| - 1], rs[|rs| - 1];
      StoredInPast(r, window, max, key);
      var hits, cutoff := StoredOf(r, window, max), last.now - window;
      SweptHits(hits, cutoff);
      forall x | x in Hits(hits, key) ensures x <= last.now { assert r[|r| - 1] == rs[|rs| - 2]; }
      LiveMembers(Hits(hits, key), cutoff);
      LiveMembers(Live(Hits(hits, key), cutoff), cutoff);
    }
  }

  lemma {:induction false} LiveMembers(s: seq<int>, c: int)
    ensures |Live(s, c)| <= |s| && forall x :: x in Live(s, c) ==> x in s
  {
    if s != [] { LiveMembers(s[..|s| - 1], c); }
  }

  lemma {:induction false} AllLive(s: seq<int>, c: int)
    requires forall i :: 0 <= i < |s| ==> s[i] > c
    ensures Live(s, c) == s
  {
    if s != [] { AllLive(s[..|s| - 1], c); }
  }

  // One key: hits at t, and one a window later

  ghost function Burst(n: nat, key: string, t: int): seq<Request> {
    seq(n, _ => Request(key, t))
  }

  lemma {:induction false} BurstLogged(n: nat, key: string, t: int, window: int, max: int)
    requires n < max
    ensures Hits(LogOf(Burst(n, key, t), window, max), key) == seq(n, _ => t)
  {
    hide Live;
    if n > 0 {
      BurstLogged(n - 1, key, t, window, max);
      assert Burst(n, key, t)[..n - 1] == Burst(n - 1, key, t);
      var before: seq<int> := seq(n - 1, _ => t);
      LiveMembers(before, t - window);
      assert before + [t] == seq(n, _ => t);
    }
  }

  lemma BurstDenied(t1: int, t2: int, window: int, max: int, key: string, rs: seq<Request>)
    requires window >= 0 && max >= 2 && t2 < t1 && rs == Burst(max - 1, key, t1 - window) + [Request(key, t1)]
    ensures !Allowed(LogOf(rs, window, max), key, t2, window, max)
  {
    hide Live, Burst;
    var t := t1 - window;
    assert rs[..|rs| - 1] == Burst(max - 1, key, t);
    BurstLogged(max - 1, key, t, window, max);
    var log: seq<int> := seq(max - 1, _ => t);
    NoneLive(log, t);
    assert Hits(LogOf(rs, window, max), key) == log + [t1];
    AllLive(log + [t1], t2 - window);
  }

  /** A check whose window holds none of the stored hits leaves only itself. */
  lemma OnlyLast(hits: Log, key: string, now: int, window: int, max: int)
    requires max >= 1 && forall i :: 0 <= i < |Hits(hits, key)| ==> Hits(hits, key)[i] <= now - window
    ensures Hits(Stored(hits, key, now, window, max), key) == [now]
  {
    hide Live, Swept;
    SweptHits(hits, now - window);
    NoneLive(Hits(hits, key), now - window);
    LiveNothing(now - window);
  }

  lemma BurstForgotten(t1: int, t2: int, window: int, max: int, key: string, rs: seq<Request>)
    requires window >= 0 && max >= 2 && t2 < t1 && rs == Burst(max - 1, key, t1 - window) + [Request(key, t1)]
    ensures Allowed(StoredOf(rs, window, max), key, t2, window, max)
  {
    hide Live, Stored;
    var t, burst := t1 - window, Burst(max - 1, key, t1 - window);
    assert rs[..|rs| - 1] == burst && burst[|burst| - 1].now == t;
    StoredInPast(burst, window, max, key);
    var hits := StoredOf(burst, window, max);
    var s := Hits(hits, key);
    forall i | 0 <= i < |s| ensures s[i] <= t { assert s[i] in s; }
    OnlyLast(hits, key, t1, window, max);
    LiveMembers([t1], t2 - window);
  }

  /** With a clock that then runs backwards, the limiter allows what one that never forgets denies. */
  lemma BackwardsClockForgets(t1: int, t2: int, window: int, max: int, key: string)
    requires window >= 0 && max >= 2 && t2 < t1
    ensures var rs := Burst(max - 1, key, t1 - window) + [Request(key, t1)];
            && InOrder(rs)
            && Allowed(StoredOf(rs, window, max), key, t2, window, max)
            && !Allowed(LogOf(rs, window, max), key, t2, window, max)
  {
    hide Live, StoredOf, LogOf;
    var rs := Burst(max - 1, key, t1 - window) + [Request(key, t1)];
    BurstDenied(t1, t2, window, max, key, rs);
    BurstForgotten(t1, t2, window, max, key, rs);
  }

  // Many keys: one hit each, and a sweep a window later

  ghost function Key(i: nat): string {
    seq(i, _ => 'k')
  }

  ghost function Many(n: nat, t: int): seq<Request> {
    seq(n, i requires 0 <= i < n => Request(Key(i), t))
  }

  ghost function ManyLog(n: nat, t: int): (log: Log)
    ensures forall i: nat :: Key(i) in log <==> i < n
    ensures forall key :: key in log ==> log[key] == [t] && |key| < n
    ensures |log| == n
  {
    if n == 0 then map[] else
      var rest := ManyLog(n - 1, t);
      assert Key(n - 1) !in rest;
      assert forall i: nat :: Key(i) == Key(n - 1) ==> |Key(i)| == |Key(n - 1)|;
      rest[Key(n - 1) := [t]]
  }

  lemma ManyStep(n: nat, t: int, window: int, max: int)
    requires max >= 1 && n <= SWEEP_THRESHOLD
    ensures Stored(ManyLog(n, t), Key(n), t, window, max) == ManyLog(n + 1, t)
    ensures Next(ManyLog(n, t), Key(n), t, window, max) == ManyLog(n + 1, t)
  {
    hide Live, Swept, Key;
    LiveNothing(t - window);
    assert Key(n) !in ManyLog(n, t);
    assert [] + [t] == [t];
  }

  lemma {:induction false} ManyStored(n: nat, t: int, window: int, max: int)
    requires max >= 1 && n <= SWEEP_THRESHOLD + 1
    ensures StoredOf(Many(n, t), window, max) == ManyLog(n, t) && LogOf(Many(n, t), window, max) == ManyLog(n, t)
  {
    hide Stored, Next, ManyLog, Key;
    if n > 0 {
      ManyStored(n - 1, t, window, max);
      assert Many(n, t)[..n - 1] == Many(n - 1, t);
      ManyStep(n - 1, t, window, max);
    } else {
      NoneStored(t);
    }
  }

  lemma NoneStored(t: int)
    ensures ManyLog(0, t) == map[]
  {
  }

  /** The last check sweeps: every key is dropped but its own. */
  lemma SweptAway(n: nat, t1: int, window: int, i: nat)
    requires n > SWEEP_THRESHOLD && i < n
    ensures Hits(Stored(ManyLog(n, t1 - window), Key(n), t1, window, 1), Key(i)) == []
    ensures Hits(Next(ManyLog(n, t1 - window), Key(n), t1, window, 1), Key(i)) == [t1 - window]
  {
    hide Live, Swept, ManyLog;
    var t := t1 - window;
    assert |Key(i)| != |Key(n)|;
    SweptHits(ManyLog(n, t), t);
    NoneLive([t], t);
    assert Key(i) in ManyLog(n, t) && ManyLog(n, t)[Key(i)] == [t];
    assert Hits(Swept(ManyLog(n, t), t), Key(i)) == [];
  }

  /** A limit of one leaves only the sweep to forget with, and that suffices. */
  lemma BackwardsClockForgetsSwept(t1: int, t2: int, window: int)
    requires window >= 0 && t2 < t1
    ensures var n := SWEEP_THRESHOLD + 1; var rs := Many(n, t1 - window) + [Request(Key(n), t1)];
            && InOrder(rs)
            && Allowed(StoredOf(rs, window, 1), Key(0), t2, window, 1)
            && !Allowed(LogOf(rs, window, 1), Key(0), t2, window, 1)
  {
    hide Live, ManyLog, Stored, Next, Key;
    var n, t := SWEEP_THRESHOLD + 1, t1 - window;
    var many := Many(n, t);
    var rs := many + [Request(Key(n), t1)];
    assert rs[..|rs| - 1] == many;
    ManyStored(n, t, window, 1);
    SweptAway(n, t1, window, 0);
    AllLive([t], t2 - window);
    LiveNothing(t2 - window);
  }

  /** After any checks in order, the last of them at t1, every check at t2 is answered alike. */
  ghost predicate AlwaysSame(t1: int, t2: int, window: int, max: int) {
    forall rs: seq<Request>, key: string | EndsAt(rs, t1) :: SameVerdict(rs, key, t2, window, max)
  }

  ghost predicate EndsAt(rs: seq<Request>, t: int) {
    InOrder(rs) && rs != [] && rs[|rs| - 1].now == t
  }

  /** Exactly the checks that do not go back in time are always answered as by a limiter that never
      forgets. (A limit below one denies everything.) */
  lemma ForwardClockExactly(t1: int, t2: int, window: int, max: int)
    requires window >= 0
    ensures AlwaysSame(t1, t2, window, max) <==> t2 >= t1 || max < 1
  {
    hide SameVerdict, EndsAt;
    if t2 >= t1 || max < 1 {
      forall rs: seq<Request>, key: string | EndsAt(rs, t1) ensures SameVerdict(rs, key, t2, window, max) {
        ForwardAgrees(rs, t1, key, t2, window, max);
      }
    } else {
      var rs, key := BackwardsDiffers(t1, t2, window, max);
      assert EndsAt(rs, t1) && !SameVerdict(rs, key, t2, window, max);
    }
  }

  lemma ForwardAgrees(rs: seq<Request>, last: int, key: string, t: int, window: int, max: int)
    requires EndsAt(rs, last) && (last <= t || max < 1)
    ensures SameVerdict(rs, key, t, window, max)
  {
    hide Live, Agree, StoredOf, LogOf;
    if max >= 1 {
      var from := last - window;
      RunAgrees(rs, window, max);
      assert Agree(Hits(StoredOf(rs, window, max), key), Hits(LogOf(rs, window, max), key), from);
      AgreeLater(Hits(StoredOf(rs, window, max), key), Hits(LogOf(rs, window, max), key), from, t - window);
    }
  }

  lemma BackwardsDiffers(t1: int, t2: int, window: int, max: int) returns (rs: seq<Request>, key: string)
    requires window >= 0 && max >= 1 && t2 < t1
    ensures EndsAt(rs, t1) && !SameVerdict(rs, key, t2, window, max)
  {
    hide Live, StoredOf, LogOf, Allowed, InOrder;
    if max >= 2 {
      key := "";
      BackwardsClockForgets(t1, t2, window, max, key);
      rs := Burst(max - 1, key, t1 - window) + [Request(key, t1)];
    } else {
      key := Key(0);
      BackwardsClockForgetsSwept(t1, t2, window);
      rs := Many(SWEEP_THRESHOLD + 1, t1 - window) + [Request(Key(SWEEP_THRESHOLD + 1), t1)];
    }
  }

  lemma AgreeLater(h: seq<int>, l: seq<int>, from: int, c: int)
    requires Agree(h, l, from) && from <= c
    ensures Live(h, c) == Live(l, c)
  {
  }
}
