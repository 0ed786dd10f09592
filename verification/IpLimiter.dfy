/**
 The proxy's per-IP limiter: a sliding minute of connection starts, kept in slices that are
 filtered in place, and a count of open connections given back through once-only releases.
 */
module IpLimiter {
  import opened Common
  import opened RateLimiter

  const MINUTE := 60_000_000_000  // nanoseconds

  /** A Go slice: the first len elements of a backing array. */
  datatype Slice = Slice(arr: array<int>, len: nat)

  /** The release closure: which address it frees, and whether its Once has fired. */
  datatype Handle = Handle(ip: string, released: bool)

  /** kept := s[:0], then append what is after the cutoff: reads and writes share one array. */
  method FilterInPlace(a: array<int>, n: nat, cutoff: int) returns (k: nat)
    requires n <= a.Length
    modifies a
    ensures k <= n && a[..k] == Live(old(a[..n]), cutoff)
    ensures a[n..] == old(a[n..])
  {
    hide Live;
    k := 0;
    LiveNothing(cutoff);
    for i := 0 to n
      invariant k <= i
      invariant a[..k] == Live(old(a[..i]), cutoff)
      invariant forall j :: i <= j < a.Length ==> a[j] == old(a[j])
    {
      var t := a[i];
      assert t == old(a[i]);
      assert old(a[..i + 1]) == old(a[..i]) + [t];
      LiveAppend(old(a[..i]), t, cutoff);
      if t > cutoff {
        a[k] := t;
        k := k + 1;
      }
    }
  }

  /** append: in place while there is room, else into a larger array. */
  method Append(s: Slice, x: int) returns (r: Slice)
    requires s.len <= s.arr.Length
    modifies s.arr
    ensures r.len == s.len + 1 <= r.arr.Length && r.arr[..r.len] == old(s.arr[..s.len]) + [x]
    ensures r.arr == s.arr || fresh(r.arr)
  {
    if s.len < s.arr.Length {
      s.arr[s.len] := x;
      r := Slice(s.arr, s.len + 1);
    } else {
      var b := new int[2 * s.len + 1];
      forall i | 0 <= i < s.len { b[i] := s.arr[i]; }
      b[s.len] := x;
      r := Slice(b, s.len + 1);
      assert r.arr[..r.len] == b[..s.len] + [x];
    }
  }

  // ---------------------------------------------------------------------------
  // Counting open connections
  // ---------------------------------------------------------------------------

  /** The grants for an address that have not been released. */
  ghost function Open(handles: map<nat, Handle>, ip: string): set<nat> {
    set h | h in handles && handles[h] == Handle(ip, false)
  }

  function Count(active: map<string, int>, ip: string): int {
    if ip in active then active[ip] else 0
  }

  /** The counters are the numbers of unreleased grants, and none exceeds the ceiling. */
  ghost predicate ActiveOk(active: map<string, int>, handles: map<nat, Handle>, maxConcurrent: int) {
    forall ip :: Count(active, ip) == |Open(handles, ip)| &&
      (maxConcurrent > 0 ==> |Open(handles, ip)| <= maxConcurrent)
  }

  lemma OpenAfterRelease(handles: map<nat, Handle>, h: nat, ip: string)
    requires h in handles && !handles[h].released
    ensures |Open(handles[h := Handle(handles[h].ip, true)], ip)| ==
            |Open(handles, ip)| - if ip == handles[h].ip then 1 else 0
  {
    var after := handles[h := Handle(handles[h].ip, true)];
    assert Open(after, ip) == if ip == handles[h].ip then Open(handles, ip) - {h} else Open(handles, ip);
  }

  lemma OpenAfterGrant(handles: map<nat, Handle>, h: nat, granted: string, ip: string)
    requires h !in handles
    ensures |Open(handles[h := Handle(granted, false)], ip)| == |Open(handles, ip)| + if ip == granted then 1 else 0
  {
    var after := handles[h := Handle(granted, false)];
    assert Open(after, ip) == if ip == granted then Open(handles, ip) + {h} else Open(handles, ip);
  }

  lemma ReleaseKeepsCount(active: map<string, int>, handles: map<nat, Handle>, h: nat, maxConcurrent: int)
    requires ActiveOk(active, handles, maxConcurrent) && h in handles && !handles[h].released
    ensures var ip := handles[h].ip;
            var less := active[ip := Count(active, ip) - 1];
            ActiveOk(if less[ip] <= 0 then less - {ip} else less, handles[h := Handle(ip, true)], maxConcurrent)
  {
    hide Open;
    var ip := handles[h].ip;
    var less := active[ip := Count(active, ip) - 1];
    var after, handles' := if less[ip] <= 0 then less - {ip} else less, handles[h := Handle(ip, true)];
    forall p
      ensures Count(after, p) == |Open(handles', p)|
      ensures maxConcurrent > 0 ==> |Open(handles', p)| <= maxConcurrent
    {
      OpenAfterRelease(handles, h, p);
      assert Count(active, p) == |Open(handles, p)|;
    }
  }

  lemma GrantKeepsCount(active: map<string, int>, handles: map<nat, Handle>, h: nat, ip: string, maxConcurrent: int)
    requires ActiveOk(active, handles, maxConcurrent) && h !in handles
    requires maxConcurrent > 0 ==> Count(active, ip) < maxConcurrent
    ensures ActiveOk(active[ip := Count(active, ip) + 1], handles[h := Handle(ip, false)], maxConcurrent)
  {
    hide Open;
    var after, handles' := active[ip := Count(active, ip) + 1], handles[h := Handle(ip, false)];
    forall p
      ensures Count(after, p) == |Open(handles', p)|
      ensures maxConcurrent > 0 ==> |Open(handles', p)| <= maxConcurrent
    {
      OpenAfterGrant(handles, h, ip, p);
      assert Count(active, p) == |Open(handles, p)|;
    }
  }

  // ---------------------------------------------------------------------------
  // The rate
  // ---------------------------------------------------------------------------

  /** Each grant found room in the minute that ends with it, and none lies in the future. */
  ghost predicate HitsOk(s: seq<int>, clock: int, rate: int) {
    && Ascending(s) && (rate > 0 ==> RoomForEach(s, MINUTE, rate))
    && (forall i :: 0 <= i < |s| ==> s[i] <= clock)
  }

  ghost predicate RateOk(log: Log, clock: int, rate: int) {
    forall ip :: HitsOk(Hits(log, ip), clock, rate)
  }

  /** The limit is checked at one reading of the clock and the grant stamped with a later one. */
  lemma GrantKeepsRate(s: seq<int>, clock: int, rate: int, checked: int, stamped: int)
    requires HitsOk(s, clock, rate) && clock <= checked <= stamped
    requires rate > 0 ==> |Live(s, checked - MINUTE)| < rate
    ensures HitsOk(s + [stamped], stamped, rate)
  {
    hide Live, RoomForEach;
    if rate > 0 {
      LiveLater(s, checked - MINUTE, stamped - MINUTE);
      AppendHit(s, stamped, MINUTE, rate);
    }
  }

  /** Any minute, wherever it starts, holds at most ratePerMin grants of an address. */
  lemma MinuteNeverOverfull(log: Log, clock: int, rate: int, ip: string, t: int)
    requires RateOk(log, clock, rate) && rate > 0
    ensures |InWindow(Hits(log, ip), t, 60_000_000_000)| <= rate
  {
    hide InWindow, Ascending, RoomForEach;
    assert HitsOk(Hits(log, ip), clock, rate);
    RoomBoundsWindow(Hits(log, ip), MINUTE, rate, t);
  }

  // ---------------------------------------------------------------------------
  // The limiter
  // ---------------------------------------------------------------------------

  type Slices = map<string, Slice>

  predicate Fits(s: Slice) {
    0 < s.len <= s.arr.Length
  }

  /** Slices fit their arrays, are never empty, and no two addresses share an array. */
  ghost predicate Shape(starts: Slices) {
    && (forall ip :: ip in starts ==> Fits(starts[ip]))
    && (forall p, q :: p in starts && q in starts && p != q ==> starts[p].arr != starts[q].arr)
  }

  lemma ShapeWithout(starts: Slices, ip: string)
    requires Shape(starts)
    ensures Shape(starts - {ip})
  {
  }

  lemma ShapeWith(starts: Slices, ip: string, s: Slice)
    requires Shape(starts) && Fits(s)
    requires forall p :: p in starts && p != ip ==> starts[p].arr != s.arr
    ensures Shape(starts[ip := s])
  {
  }

  lemma Apart(starts: Slices, ip: string)
    requires Shape(starts) && ip in starts
    ensures forall p :: p in starts ==> Fits(starts[p]) && (p != ip ==> starts[p].arr != starts[ip].arr)
  {
  }

  /** The nil slice an absent key reads as. */
  method NoStarts() returns (s: Slice)
    ensures s.len == 0 && fresh(s.arr)
  {
    var none := new int[0];
    s := Slice(none, 0);
  }

  lemma Alone(starts: Slices, ip: string, arr: array<int>)
    requires Shape(starts)
    requires if ip in starts then arr == starts[ip].arr else forall p :: p in starts ==> starts[p].arr != arr
    ensures forall p :: p in starts && p != ip ==> starts[p].arr != arr && Fits(starts[p])
  {
  }

  class Limiter {
    const ratePerMin: int
    const maxConcurrent: int
    var starts: Slices
    var active: map<string, int>
    var handles: map<nat, Handle>
    var nextHandle: nat

    /** Every grant ever made, per address, and the last time read. */
    ghost var log: Log
    ghost var clock: int

    ghost function Arrays(): set<object>
      reads this`starts
    {
      set ip | ip in starts :: starts[ip].arr
    }

    /** What the slices hold. */
    ghost function Kept(): Log
      requires Shape(starts)
      reads this`starts, Arrays()
    {
      map ip | ip in starts :: starts[ip].arr[..starts[ip].len]
    }

    lemma KeptIs(kept: Log)
      requires Shape(starts) && kept.Keys == starts.Keys
      requires forall ip :: ip in starts ==> Fits(starts[ip]) && starts[ip].arr[..starts[ip].len] == kept[ip]
      ensures Kept() == kept
    {
    }

    ghost predicate Valid()
      reads this, Arrays()
    {
      && Shape(starts) && AllAgree(Kept(), log, clock - MINUTE)
      && RateOk(log, clock, ratePerMin) && ActiveOk(active, handles, maxConcurrent)
      && (forall h :: h in handles ==> h < nextHandle)
    }

    constructor (ratePerMin: int, maxConcurrent: int)
      ensures Valid() && log == map[] && handles == map[] && Arrays() == {}
      ensures this.ratePerMin == ratePerMin && this.maxConcurrent == maxConcurrent
    {
      this.ratePerMin, this.maxConcurrent := ratePerMin, maxConcurrent;
      starts, active, handles, nextHandle, log, clock := map[], map[], map[], 0, map[], 0;
    }

    /** Release once: later calls of the same closure do nothing. */
    method Release(h: nat)
      requires Valid() && h in handles
      modifies this`active, this`handles
      ensures Valid()
      ensures handles == old(handles)[h := Handle(old(handles)[h].ip, true)]
      ensures old(handles)[h].released ==> active == old(active)
    {
      hide ActiveOk, RateOk;
      var handle := handles[h];
      if handle.released { return; }
      ReleaseKeepsCount(active, handles, h, maxConcurrent);
      handles := handles[h := Handle(handle.ip, true)];
      active := active[handle.ip := Count(active, handle.ip) - 1];
      if active[handle.ip] <= 0 {
        active := active - {handle.ip};
      }
    }

    /** Filter the address's slice in place; drop it when nothing is left. */
    method Prune(ip: string, cutoff: int) returns (kept: nat)
      requires Shape(starts)
      modifies this`starts, Arrays()
      ensures Shape(starts) && Arrays() <= old(Arrays())
      ensures Kept() == Pruned(old(Kept()), ip, cutoff)
      ensures kept == |Live(Hits(old(Kept()), ip), cutoff)|
    {
      hide Live, Shape;
      if ip !in starts {
        LiveNothing(cutoff);
        return 0;
      }
      var s := starts[ip];
      Apart(starts, ip);
      ghost var was, slices := Kept(), starts;
      kept := FilterInPlace(s.arr, s.len, cutoff);
      forall p | p in slices && p != ip ensures slices[p].arr[..slices[p].len] == was[p] {
        assert slices[p].arr != s.arr;
      }
      if kept == 0 {
        ShapeWithout(starts, ip);
        starts := starts - {ip};
      } else {
        ShapeWith(starts, ip, Slice(s.arr, kept));
        starts := starts[ip := Slice(s.arr, kept)];
      }
      KeptIs(Pruned(was, ip, cutoff));
    }

    /** Append a start time to the address's slice. */
    method Record(ip: string, now: int)
      requires Shape(starts)
      modifies this`starts, Arrays()
      ensures Shape(starts) && fresh(Arrays() - old(Arrays()))
      ensures Kept() == old(Kept())[ip := Hits(old(Kept()), ip) + [now]]
    {
      hide Shape;
      ghost var was := Kept();
      var s := NoStarts();
      if ip in starts {
        Apart(starts, ip);
        s := starts[ip];
      }
      Alone(starts, ip, s.arr);
      var r := Append(s, now);
      ShapeWith(starts, ip, r);
      starts := starts[ip := r];
      assert Arrays() <= old(Arrays()) + {r.arr};
      assert forall p :: p in starts && p != ip ==> starts[p].arr[..starts[p].len] == was[p];
      KeptIs(was[ip := Hits(was, ip) + [now]]);
    }

    /** Both limits leave room for one more connection. */
    ghost predicate Room(ip: string, now: int)
      reads this
    {
      && (ratePerMin > 0 ==> |Live(Hits(log, ip), now - MINUTE)| < ratePerMin)
      && (maxConcurrent > 0 ==> |Open(handles, ip)| < maxConcurrent)
    }

    /** Prune, then check the two limits; nothing is reserved yet. */
    method Admit(ip: string, now: int) returns (ok: bool)
      requires Valid() && clock <= now
      modifies this`starts, this`clock, Arrays()
      ensures Valid() && clock == now && Arrays() <= old(Arrays())
      ensures ok <==> Room(ip, now)
    {
      hide Live, RateOk, ActiveOk, Open, AllAgree, Pruned, Shape, Kept;
      ActiveAt(active, handles, maxConcurrent, ip);
      PruneKeepsAgreement(Kept(), log, clock - MINUTE, now - MINUTE, ip);
      RateLater(log, clock, now, ratePerMin);
      var kept := Prune(ip, now - MINUTE);
      clock := now;
      ok := !(ratePerMin > 0 && kept >= ratePerMin) && !(maxConcurrent > 0 && Count(active, ip) >= maxConcurrent);
    }

    /** Record the start and count the connection, stamped with a later reading of the clock. */
    method Grant(ip: string, now: int) returns (handle: nat)
      requires Valid() && clock <= now && Room(ip, clock)
      modifies this, Arrays()
      ensures Valid() && fresh(Arrays() - old(Arrays()))
      ensures handle !in old(handles) && handles == old(handles)[handle := Handle(ip, false)]
      ensures log == old(log)[ip := Hits(old(log), ip) + [now]]
    {
      hide Live, RateOk, ActiveOk, Open, AllAgree, Shape, Kept;
      ActiveAt(active, handles, maxConcurrent, ip);
      RateAfterGrant(log, clock, ratePerMin, ip, clock, now);
      GrantKeepsCount(active, handles, nextHandle, ip, maxConcurrent);
      RecordKeepsAgreement(Kept(), log, clock - MINUTE, now - MINUTE, ip, now);
      Record(ip, now);
      clock, log := now, log[ip := Hits(log, ip) + [now]];
      active := active[ip := Count(active, ip) + 1];
      handles := handles[nextHandle := Handle(ip, false)];
      handle, nextHandle := nextHandle, nextHandle + 1;
    }

    /** Reserve a slot. The clock is read once for the cutoff and again for the stamp. */
    method Acquire(ip: string, checked: int, stamped: int) returns (handle: Option<nat>)
      requires Valid() && clock <= checked <= stamped
      modifies this, Arrays()
      ensures Valid() && fresh(Arrays() - old(Arrays()))
      ensures handle.Some? <==>
              && (ratePerMin > 0 ==> |Live(Hits(old(log), ip), checked - 60_000_000_000)| < ratePerMin)
              && (maxConcurrent > 0 ==> |Open(old(handles), ip)| < maxConcurrent)
      ensures handle == None ==> log == old(log) && handles == old(handles) && active == old(active)
      ensures handle.Some? ==>
              && handle.value !in old(handles) && handles == old(handles)[handle.value := Handle(ip, false)]
              && log == old(log)[ip := Hits(old(log), ip) + [stamped]]
    {
      hide Live, Open, Valid;
      var ok := Admit(ip, checked);
      if !ok { return None; }
      var h := Grant(ip, stamped);
      handle := Some(h);
    }
  }

  lemma ActiveAt(active: map<string, int>, handles: map<nat, Handle>, maxConcurrent: int, ip: string)
    requires ActiveOk(active, handles, maxConcurrent)
    ensures Count(active, ip) == |Open(handles, ip)|
  {
  }

  lemma RateLater(log: Log, clock: int, now: int, rate: int)
    requires RateOk(log, clock, rate) && clock <= now
    ensures RateOk(log, now, rate)
  {
    hide Ascending, RoomForEach;
    forall ip ensures HitsOk(Hits(log, ip), now, rate) {
      assert HitsOk(Hits(log, ip), clock, rate);
    }
  }

  lemma RateAfterGrant(log: Log, clock: int, rate: int, ip: string, checked: int, stamped: int)
    requires RateOk(log, clock, rate) && clock <= checked <= stamped
    requires rate > 0 ==> |Live(Hits(log, ip), checked - MINUTE)| < rate
    ensures RateOk(log[ip := Hits(log, ip) + [stamped]], stamped, rate)
  {
    hide HitsOk, Live;
    var after := log[ip := Hits(log, ip) + [stamped]];
    RateLater(log, clock, stamped, rate);
    forall p ensures HitsOk(Hits(after, p), stamped, rate) {
      assert HitsOk(Hits(log, p), clock, rate) && HitsOk(Hits(log, p), stamped, rate);
      if p == ip { GrantKeepsRate(Hits(log, ip), clock, rate, checked, stamped); }
    }
  }

  // ---------------------------------------------------------------------------
  // Kept starts against the full log
  // ---------------------------------------------------------------------------

  ghost predicate AllAgree(kept: Log, log: Log, from: int) {
    forall ip :: Agree(Hits(kept, ip), Hits(log, ip), from)
  }

  ghost function Pruned(kept: Log, ip: string, cutoff: int): Log {
    var live := Live(Hits(kept, ip), cutoff);
    if live == [] then kept - {ip} else kept[ip := live]
  }

  lemma PruneKeepsAgreement(kept: Log, log: Log, from: int, cutoff: int, ip: string)
    requires AllAgree(kept, log, from) && from <= cutoff
    ensures AllAgree(Pruned(kept, ip, cutoff), log, cutoff)
    ensures Live(Hits(kept, ip), cutoff) == Live(Hits(log, ip), cutoff)
  {
    var after := Pruned(kept, ip, cutoff);
    assert Agree(Hits(kept, ip), Hits(log, ip), from);
    forall p ensures Agree(Hits(after, p), Hits(log, p), cutoff) {
      assert Agree(Hits(kept, p), Hits(log, p), from);
      if p == ip {
        AgreePruned(Hits(kept, p), Hits(log, p), from, cutoff);
        assert Hits(after, p) == Live(Hits(kept, p), cutoff);
      } else {
        assert Hits(after, p) == Hits(kept, p);
      }
    }
  }

  lemma RecordKeepsAgreement(kept: Log, log: Log, from: int, later: int, ip: string, now: int)
    requires AllAgree(kept, log, from) && from <= later
    ensures AllAgree(kept[ip := Hits(kept, ip) + [now]], log[ip := Hits(log, ip) + [now]], later)
  {
    var k, l := kept[ip := Hits(kept, ip) + [now]], log[ip := Hits(log, ip) + [now]];
    forall p ensures Agree(Hits(k, p), Hits(l, p), later) {
      assert Agree(Hits(kept, p), Hits(log, p), from);
      AgreeAppended(Hits(kept, p), Hits(log, p), from, now);
    }
  }
}
