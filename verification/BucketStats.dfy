/**
 The batched pass that counts how many users fall into each anti-sybil bucket, and its
 relation to scoring one user directly.
 */
module BucketStats {
  import opened Common
  import opened SybilModel
  import opened SybilLaws
  import SybilScorer

  type UserId = string

  datatype StoredBadge = StoredBadge(userId: UserId, badge: Badge)

  const USER_BATCH_SIZE: nat := 500

  // ---------------------------------------------------------------------------
  // Queries
  // ---------------------------------------------------------------------------

  /** Ids are unique and ascending, so the empty id can only come first. */
  predicate AscendingIds(users: seq<UserId>) {
    && (forall i, j :: 0 <= i < j < |users| ==> users[i] != users[j])
    && (forall i :: 0 < i < |users| ==> users[i] != "")
  }

  function IndexOf(users: seq<UserId>, id: UserId): (i: nat)
    requires id in users
    ensures i < |users| && users[i] == id
  {
    if users[0] == id then 0 else 1 + IndexOf(users[1..], id)
  }

  /** findMany with take, and with skip 1 behind a cursor; an empty cursor is no cursor. */
  function FindPage(users: seq<UserId>, cursor: Option<UserId>): seq<UserId>
    requires cursor.Some? ==> cursor.value in users
  {
    var start := if cursor.Some? && cursor.value != "" then IndexOf(users, cursor.value) + 1 else 0;
    users[start..if start + USER_BATCH_SIZE < |users| then start + USER_BATCH_SIZE else |users|]
  }

  /** The row filter of the batch: native, and not expired at or before now. */
  predicate Selected(b: Badge, native: string, now: int) {
    b.issuer == native && (b.expiresAt.None? || b.expiresAt.value > now)
  }

  function HeldInBatch(rows: seq<StoredBadge>, u: UserId, native: string, now: int): seq<Badge> {
    if rows == [] then [] else
      var r := rows[|rows| - 1];
      HeldInBatch(rows[..|rows| - 1], u, native, now) +
      if r.userId == u && Selected(r.badge, native, now) then [r.badge] else []
  }

  /** All badges of a user, as the direct computation reads them. */
  function HeldBy(rows: seq<StoredBadge>, u: UserId): seq<Badge> {
    if rows == [] then [] else
      var r := rows[|rows| - 1];
      HeldBy(rows[..|rows| - 1], u) + if r.userId == u then [r.badge] else []
  }

  // ---------------------------------------------------------------------------
  // Batched and direct buckets
  // ---------------------------------------------------------------------------

  ghost function BatchBucket(rows: seq<StoredBadge>, u: UserId, config: Config, native: string, now: int): nat {
    BucketOf(HeldInBatch(rows, u, native, now), config, Context(now, native))
  }

  /** computeUserSybilBucket. */
  ghost function DirectBucket(rows: seq<StoredBadge>, u: UserId, config: Config, native: string, now: int): nat {
    BucketOf(HeldBy(rows, u), config, Context(now, native))
  }

  /** Two holdings, each at its own time, have the same members in a category. */
  ghost predicate PiecesAgree(a: seq<Badge>, ctx: Context, b: seq<Badge>, ctx': Context, config: Config, cat: string) {
    && Singles(a, config, ctx, cat) == Singles(b, config, ctx', cat)
    && (forall fam :: Heaviest(a, config, ctx, cat, fam) == Heaviest(b, config, ctx', cat, fam))
  }

  lemma {:induction false} SelectedPieces(
    rows: seq<StoredBadge>, u: UserId, config: Config, native: string, now: int, later: int, cat: string)
    requires forall r :: r in rows && r.userId == u && r.badge.issuer == native && r.badge.expiresAt.Some? ==>
               (r.badge.expiresAt.value > now <==> r.badge.expiresAt.value >= later)
    ensures PiecesAgree(HeldInBatch(rows, u, native, now), Context(now, native),
                        HeldBy(rows, u), Context(later, native), config, cat)
  {
    hide Singles, Heaviest, WeightFor, FamilyOf;
    PiecesOfNothing(config, Context(now, native), cat);
    PiecesOfNothing(config, Context(later, native), cat);
    if rows != [] {
      var r, rest := rows[|rows| - 1], rows[..|rows| - 1];
      assert r in rows && forall x :: x in rest ==> x in rows;
      SelectedPieces(rest, u, config, native, now, later, cat);
      var batch, all := HeldInBatch(rest, u, native, now), HeldBy(rest, u);
      PiecesAppend(batch, r.badge, config, Context(now, native), cat);
      PiecesAppend(all, r.badge, config, Context(later, native), cat);
      assert batch + [] == batch && all + [] == all;
    }
  }

  lemma PiecesOfNothing(config: Config, ctx: Context, cat: string)
    ensures Singles([], config, ctx, cat) == multiset{}
    ensures forall fam :: Heaviest([], config, ctx, cat, fam) == 0
  {
  }

  lemma SamePiecesSameBucket(a: seq<Badge>, b: seq<Badge>, config: Config, ctx: Context, ctx': Context)
    requires forall cat :: PiecesAgree(a, ctx, b, ctx', config, cat)
    ensures BucketOf(a, config, ctx) == BucketOf(b, config, ctx')
  {
    hide Singles, Heaviest;
    forall cat ensures CategoryScore(a, config, ctx, cat) == CategoryScore(b, config, ctx', cat) {
      assert PiecesAgree(a, ctx, b, ctx', config, cat);
      assert Members(a, config, ctx, cat) == Members(b, config, ctx', cat);
    }
    SumCongruent(config.categoryByType.Values,
      cat => CategoryScore(a, config, ctx, cat), cat => CategoryScore(b, config, ctx', cat));
    assert QualifyingCategories(a, config, ctx) == QualifyingCategories(b, config, ctx');
  }

  /** The batch at time now is the direct computation one millisecond later: it already drops a
      badge at the very millisecond it expires. */
  lemma BatchIsDirectOneLater(rows: seq<StoredBadge>, u: UserId, config: Config, native: string, now: int)
    ensures BatchBucket(rows, u, config, native, now) == DirectBucket(rows, u, config, native, now + 1)
  {
    hide PiecesAgree, BucketOf;
    var a, b, later := HeldInBatch(rows, u, native, now), HeldBy(rows, u), now + 1;
    forall cat ensures PiecesAgree(a, Context(now, native), b, Context(later, native), config, cat) {
      SelectedPieces(rows, u, config, native, now, later, cat);
    }
    SamePiecesSameBucket(a, b, config, Context(now, native), Context(later, native));
  }

  lemma {:induction false} PrefixNeverBetter(
    a: seq<Badge>, extra: seq<Badge>, more: seq<Badge>, config: Config, ctx: Context)
    requires CapsNonNegative(config) && multiset(more) == multiset(a) + multiset(extra)
    ensures BucketOf(a, config, ctx) <= BucketOf(more, config, ctx)
    decreases |extra|
  {
    hide BucketOf;
    if extra == [] {
      assert multiset(more) == multiset(a);
      OrderIndependent(a, more, config, ctx);
    } else {
      var x := extra[|extra| - 1];
      assert extra == extra[..|extra| - 1] + [x];
      PrefixNeverBetter(a, extra[..|extra| - 1], a + extra[..|extra| - 1], config, ctx);
      assert multiset(more) == multiset(a + extra[..|extra| - 1]) + multiset{x};
      MoreBadgesNeverHurt(a + extra[..|extra| - 1], x, more, config, ctx);
    }
  }

  function Dropped(rows: seq<StoredBadge>, u: UserId, native: string, now: int): seq<Badge> {
    if rows == [] then [] else
      var r := rows[|rows| - 1];
      Dropped(rows[..|rows| - 1], u, native, now) +
      if r.userId == u && !Selected(r.badge, native, now) then [r.badge] else []
  }

  lemma {:induction false} SelectedAndDropped(rows: seq<StoredBadge>, u: UserId, native: string, now: int)
    ensures multiset(HeldBy(rows, u)) == multiset(HeldInBatch(rows, u, native, now)) +
      multiset(Dropped(rows, u, native, now))
  {
    if rows != [] {
      SelectedAndDropped(rows[..|rows| - 1], u, native, now);
    }
  }

  /** At the boundary instant the batch can only understate a user, never overstate. */
  lemma BatchNeverOverstates(rows: seq<StoredBadge>, u: UserId, config: Config, native: string, now: int)
    requires CapsNonNegative(config)
    ensures BatchBucket(rows, u, config, native, now) <= DirectBucket(rows, u, config, native, now)
  {
    hide BucketOf, HeldInBatch, HeldBy, Dropped;
    SelectedAndDropped(rows, u, native, now);
    PrefixNeverBetter(HeldInBatch(rows, u, native, now), Dropped(rows, u, native, now), HeldBy(rows, u), config,
      Context(now, native));
  }

  // ---------------------------------------------------------------------------
  // The distribution
  // ---------------------------------------------------------------------------

  /** How many of the listed users are in bucket b. */
  ghost function Tally(
    users: seq<UserId>, rows: seq<StoredBadge>, config: Config, native: string, now: int, b: nat): nat {
    if users == [] then 0 else
      Tally(users[..|users| - 1], rows, config, native, now, b) +
      if BatchBucket(rows, users[|users| - 1], config, native, now) == b then 1 else 0
  }

  /** The five counts add up to the number of users. */
  lemma {:induction false} TalliesCoverUsers(
    users: seq<UserId>, rows: seq<StoredBadge>, config: Config, native: string, now: int)
    ensures Tally(users, rows, config, native, now, 0) + Tally(users, rows, config, native, now, 1)
            + Tally(users, rows, config, native, now, 2) + Tally(users, rows, config, native, now, 3)
            + Tally(users, rows, config, native, now, 4) == |users|
  {
    hide BucketOf;
    if users != [] {
      TalliesCoverUsers(users[..|users| - 1], rows, config, native, now);
    }
  }

  ghost function DirectUsers(
    users: seq<UserId>, rows: seq<StoredBadge>, config: Config, native: string, now: int, b: nat): set<UserId>
  {
    set u | u in users && DirectBucket(rows, u, config, native, now) == b
  }

  lemma OneMoreUser(
    us: seq<UserId>, u: UserId, rows: seq<StoredBadge>, config: Config, native: string, now: int, b: nat)
    requires u !in us
    ensures |DirectUsers(us + [u], rows, config, native, now, b)| ==
            |DirectUsers(us, rows, config, native, now, b)| +
            if DirectBucket(rows, u, config, native, now) == b then 1 else 0
  {
    hide DirectBucket;
    var before := DirectUsers(us, rows, config, native, now, b);
    var after := DirectUsers(us + [u], rows, config, native, now, b);
    assert after == if DirectBucket(rows, u, config, native, now) == b then before + {u} else before;
  }

  /** Each count is the number of users the direct computation, a millisecond later, puts there. */
  lemma {:induction false} TallyIsDirect(
    users: seq<UserId>, rows: seq<StoredBadge>, config: Config, native: string, now: int, b: nat)
    requires AscendingIds(users)
    ensures Tally(users, rows, config, native, now, b) == |DirectUsers(users, rows, config, native, now + 1, b)|
  {
    hide DirectBucket, BatchBucket, DirectUsers;
    if users == [] {
      NoUsers(rows, config, native, now + 1, b);
    } else {
      var last, rest := users[|users| - 1], users[..|users| - 1];
      TallyIsDirect(rest, rows, config, native, now, b);
      BatchIsDirectOneLater(rows, last, config, native, now);
      assert users == rest + [last];
      OneMoreUser(rest, last, rows, config, native, now + 1, b);
    }
  }

  lemma NoUsers(rows: seq<StoredBadge>, config: Config, native: string, now: int, b: nat)
    ensures DirectUsers([], rows, config, native, now, b) == {}
  {
  }

  class StatsStore {
    var users: seq<UserId>
    var badges: seq<StoredBadge>
    var bucketStat: map<nat, nat>

    /** Rebuild the distribution: page through the users, collect each page's badges, score. */
    method RecomputeBucketStats(config: Config, native: string, now: int)
      requires AscendingIds(users)
      modifies this`bucketStat
      ensures bucketStat.Keys == {0, 1, 2, 3, 4}
      ensures forall b :: b in bucketStat ==> bucketStat[b] == Tally(users, badges, config, native, now, b)
    {
      hide Tally;
      var counts: seq<nat> := [0, 0, 0, 0, 0];
      var cursor: Option<UserId> := None;
      var more := true;
      ghost var done: nat := 0;
      TallyNone(badges, config, native, now);
      while more
        invariant done <= |users| && |counts| == 5
        invariant forall b :: 0 <= b < 5 ==> counts[b] == Tally(users[..done], badges, config, native, now, b)
        invariant more ==> if done == 0 then cursor == None else cursor == Some(users[done - 1]) && done >= 2
        invariant !more ==> done == |users|
        decreases more, |users| - done
      {
        var page := NextPage(cursor, done);
        if page == [] {
          assert users[..done] == users;
          break;
        }
        counts := ScorePage(page, counts, config, native, now, users[..done]);
        assert users[..done] + page == users[..done + |page|];
        done := done + |page|;
        if |page| < USER_BATCH_SIZE {
          more := false;
        } else {
          cursor := Some(page[|page| - 1]);
        }
      }
      assert users[..done] == users;
      bucketStat := map[];
      bucketStat := map b: nat | 0 <= b < 5 :: counts[b];
    }

    /** The next page starts right behind the users already counted. */
    method NextPage(cursor: Option<UserId>, ghost done: nat) returns (page: seq<UserId>)
      requires AscendingIds(users) && done <= |users|
      requires if done == 0 then cursor == None else cursor == Some(users[done - 1]) && done >= 2
      ensures page == users[done..if done + USER_BATCH_SIZE < |users| then done + USER_BATCH_SIZE else |users|]
    {
      if cursor.Some? {
        assert users[done - 1] in users && users[done - 1] != "";
        assert IndexOf(users, cursor.value) == done - 1;
      }
      page := FindPage(users, cursor);
    }

    /** Collect the page's badges per user, then score each user of the page. */
    method ScorePage(
      page: seq<UserId>, counts: seq<nat>, config: Config, native: string, now: int, ghost before: seq<UserId>)
      returns (r: seq<nat>)
      requires |counts| == 5
      requires forall b :: 0 <= b < 5 ==> counts[b] == Tally(before, badges, config, native, now, b)
      ensures |r| == 5
      ensures forall b :: 0 <= b < 5 ==> r[b] == Tally(before + page, badges, config, native, now, b)
    {
      hide Tally, HeldInBatch, BucketOf;
      var byUser := GroupByUser(page, native, now);
      r := counts;
      assert before + page[..0] == before;
      for i := 0 to |page|
        invariant |r| == 5
        invariant forall b :: 0 <= b < 5 ==> r[b] == Tally(before + page[..i], badges, config, native, now, b)
      {
        var _, bucket := SybilScorer.SybilScore(byUser[page[i]], config, Context(now, native));
        assert before + page[..i + 1] == before + page[..i] + [page[i]];
        forall b | 0 <= b < 5
          ensures Tally(before + page[..i + 1], badges, config, native, now, b) ==
                  Tally(before + page[..i], badges, config, native, now, b) + if bucket == b then 1 else 0
        {
          TallyOneMore(before + page[..i], page[i], badges, config, native, now, b);
        }
        r := r[bucket := r[bucket] + 1];
      }
      assert page[..|page|] == page;
    }

    method GroupByUser(page: seq<UserId>, native: string, now: int) returns (byUser: map<UserId, seq<Badge>>)
      ensures byUser.Keys == set u | u in page
      ensures forall u :: u in byUser ==> byUser[u] == HeldInBatch(badges, u, native, now)
    {
      byUser := map u | u in page :: [];
      for i := 0 to |badges|
        invariant byUser.Keys == set u | u in page
        invariant forall u :: u in byUser ==> byUser[u] == HeldInBatch(badges[..i], u, native, now)
      {
        var b := badges[i];
        assert badges[..i + 1][..i] == badges[..i];
        if b.userId in byUser && Selected(b.badge, native, now) {
          byUser := byUser[b.userId := byUser[b.userId] + [b.badge]];
        }
      }
      assert badges[..|badges|] == badges;
    }
  }

  lemma TallyNone(rows: seq<StoredBadge>, config: Config, native: string, now: int)
    ensures forall b :: Tally([], rows, config, native, now, b) == 0
  {
  }

  lemma TallyOneMore(
    us: seq<UserId>, u: UserId, rows: seq<StoredBadge>, config: Config, native: string, now: int, b: nat)
    ensures Tally(us + [u], rows, config, native, now, b) ==
            Tally(us, rows, config, native, now, b) +
            if BucketOf(HeldInBatch(rows, u, native, now), config, Context(now, native)) == b then 1 else 0
  {
    assert (us + [u])[..|us|] == us;
  }
}
