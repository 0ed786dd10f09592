/**
 Redeeming invite codes while other redemptions and revocations run. A redemption is two database
 actions: a look at the code, and later a transaction that may act on what that look saw.
 */
module InviteCodes {
  import opened Common

  type CodeText = string
  type UserId = string
  type CallId = nat

  /** usesTotal zero means unlimited. */
  datatype Code = Code(usesTotal: nat, usesRemaining: int, expiresAt: Option<int>, revokedAt: Option<int>)

  datatype Outcome = Redeemed | InvalidCode | AlreadyRedeemed

  /** A redemption between its two actions: what it is for and the usesTotal its look saw. */
  datatype Call = Redeeming(code: CodeText, user: UserId, seenTotal: nat) | Finished(outcome: Outcome)

  type Redemption = (CodeText, UserId)

  /** commits lists the redemptions in the order they were made. */
  datatype State = State(
    now: int, codes: map<CodeText, Code>, redemptions: set<Redemption>, calls: map<CallId, Call>,
    commits: seq<Redemption>)

  const NOTHING_YET := State(0, map[], {}, map[], [])

  // ---------------------------------------------------------------------------
  // Atomic actions
  // ---------------------------------------------------------------------------

  /** evaluateInviteCode */
  function Verdict(row: Code, alreadyRedeemed: bool, now: int): Outcome {
    if row.revokedAt.Some? then InvalidCode
    else if row.expiresAt.Some? && row.expiresAt.value < now then InvalidCode
    else if row.usesTotal > 0 && row.usesRemaining <= 0 then InvalidCode
    else if alreadyRedeemed then AlreadyRedeemed
    else Redeemed
  }

  function Look(st: State, code: CodeText, user: UserId): Outcome {
    if code == "" || code !in st.codes then InvalidCode
    else Verdict(st.codes[code], (code, user) in st.redemptions, st.now)
  }

  /** What the transaction of a pending redemption does now. */
  function Attempted(st: State, c: Call): Outcome
    requires c.Redeeming? && c.code in st.codes
  {
    var row := st.codes[c.code];
    if c.seenTotal > 0 && (row.revokedAt.Some? || row.usesRemaining <= 0) then InvalidCode
    else if (c.code, c.user) in st.redemptions then AlreadyRedeemed
    else Redeemed
  }

  datatype Step =
    | Tick(to: int)
    | Create(code: CodeText, usesTotal: nat, expiresAt: Option<int>)
    | Revoke(code: CodeText)
    | Check(call: CallId, code: CodeText, user: UserId)
    | Commit(call: CallId)

  predicate Enabled(st: State, step: Step) {
    match step
    case Tick(to) => st.now <= to
    case Create(_, _, _) => true
    case Revoke(_) => true
    case Check(call, _, _) => call !in st.calls
    case Commit(call) => call in st.calls && st.calls[call].Redeeming? && st.calls[call].code in st.codes
  }

  function Apply(st: State, step: Step): State
    requires Enabled(st, step)
  {
    match step
    case Tick(to) => st.(now := to)
    case Create(code, usesTotal, expiresAt) =>
      if code in st.codes then st
      else st.(codes := st.codes[code := Code(usesTotal, usesTotal, expiresAt, None)])
    case Revoke(code) =>
      if code !in st.codes || st.codes[code].revokedAt.Some? then st
      else st.(codes := st.codes[code := st.codes[code].(revokedAt := Some(st.now))])
    case Check(call, code, user) =>
      var verdict := Look(st, code, user);
      st.(calls := st.calls[call :=
        if verdict == Redeemed then Redeeming(code, user, st.codes[code].usesTotal) else Finished(verdict)])
    case Commit(call) =>
      var c := st.calls[call];
      var outcome := Attempted(st, c);
      var done := st.(calls := st.calls[call := Finished(outcome)]);
      if outcome != Redeemed then done
      else
        var row := st.codes[c.code];
        var less := st.codes[c.code := row.(usesRemaining := row.usesRemaining - 1)];
        done.(codes := if c.seenTotal > 0 then less else st.codes,
              redemptions := st.redemptions + {(c.code, c.user)},
              commits := st.commits + [(c.code, c.user)])
  }

  ghost predicate Expired(st: State, code: CodeText) {
    code in st.codes && st.codes[code].expiresAt.Some? && st.codes[code].expiresAt.value < st.now
  }

  /**
   The look and the transaction agree except on two points: only the look refuses an expired code, and
   for an unlimited code only the look refuses a revoked one.
   */
  lemma LookAgainstTransaction(st: State, code: CodeText, user: UserId)
    requires code != "" && code in st.codes
    ensures var row := st.codes[code];
            Look(st, code, user) == Redeemed <==>
              && Attempted(st, Redeeming(code, user, row.usesTotal)) == Redeemed
              && !Expired(st, code) && !(row.usesTotal == 0 && row.revokedAt.Some?)
    ensures Look(st, code, user) == AlreadyRedeemed ==>
              Attempted(st, Redeeming(code, user, st.codes[code].usesTotal)) == AlreadyRedeemed
  {
  }

  /** The code exists, and is neither revoked, expired nor used up. */
  ghost predicate Good(st: State, code: CodeText) {
    && code != "" && code in st.codes && st.codes[code].revokedAt == None
    && (st.codes[code].expiresAt.Some? ==> st.now <= st.codes[code].expiresAt.value)
    && (st.codes[code].usesTotal > 0 ==> st.codes[code].usesRemaining > 0)
  }

  /** A repeat user of a good code learns just that; a code that is not good is invalid to everybody. */
  lemma LookAnswersExactly(st: State, code: CodeText, user: UserId)
    ensures Look(st, code, user) == InvalidCode <==> !Good(st, code)
    ensures Look(st, code, user) == AlreadyRedeemed <==> Good(st, code) && (code, user) in st.redemptions
  {
  }

  // ---------------------------------------------------------------------------
  // Conservation
  // ---------------------------------------------------------------------------

  ghost function Redeemers(redemptions: set<Redemption>, code: CodeText): set<UserId> {
    set r | r in redemptions && r.0 == code :: r.1
  }

  /** Uses left and uses made add up to the uses there were; an unlimited code counts nothing. */
  ghost predicate Balanced(code: Code, redeemers: nat) {
    && 0 <= code.usesRemaining <= code.usesTotal
    && (code.usesTotal > 0 ==> code.usesRemaining + redeemers == code.usesTotal)
  }

  ghost predicate Inv(st: State) {
    && (forall code :: code in st.codes ==> Balanced(st.codes[code], |Redeemers(st.redemptions, code)|))
    && (forall r :: r in st.redemptions ==> r.0 in st.codes)
    && (forall call :: call in st.calls && st.calls[call].Redeeming? ==>
          && st.calls[call].code in st.codes
          && st.calls[call].seenTotal == st.codes[st.calls[call].code].usesTotal)
    && (forall r :: r in st.commits <==> r in st.redemptions)
    && (forall i, j :: 0 <= i < j < |st.commits| ==> st.commits[i] != st.commits[j])
  }

  lemma RedeemersAfter(redemptions: set<Redemption>, code: CodeText, user: UserId, other: CodeText)
    requires (code, user) !in redemptions
    ensures |Redeemers(redemptions + {(code, user)}, other)| ==
            |Redeemers(redemptions, other)| + if other == code then 1 else 0
  {
    var before, after := Redeemers(redemptions, other), Redeemers(redemptions + {(code, user)}, other);
    if other == code {
      assert forall u :: u in after <==> u in before || u == user by {
        assert (code, user) in redemptions + {(code, user)};
        forall u | u in before ensures u in after { assert (other, u) in redemptions + {(code, user)}; }
      }
      assert user !in before;
      assert after == before + {user};
    } else {
      assert forall u :: u in after <==> u in before by {
        forall u | u in before ensures u in after { assert (other, u) in redemptions + {(code, user)}; }
      }
      assert after == before;
    }
  }

  lemma NoRedeemers(redemptions: set<Redemption>, code: CodeText)
    requires forall r :: r in redemptions ==> r.0 != code
    ensures Redeemers(redemptions, code) == {}
  {
  }

  lemma CommitKeepsInv(st: State, call: CallId)
    requires Inv(st) && Enabled(st, Commit(call)) && Attempted(st, st.calls[call]) == Redeemed
    ensures Inv(Apply(st, Commit(call)))
  {
    hide Redeemers;
    var c, after := st.calls[call], Apply(st, Commit(call));
    forall code | code in after.codes ensures Balanced(after.codes[code], |Redeemers(after.redemptions, code)|) {
      RedeemersAfter(st.redemptions, c.code, c.user, code);
      assert Balanced(st.codes[code], |Redeemers(st.redemptions, code)|);
    }
    assert after.commits[|st.commits|] == (c.code, c.user);
  }

  lemma StepKeepsInv(st: State, step: Step)
    requires Inv(st) && Enabled(st, step)
    ensures Inv(Apply(st, step))
  {
    hide Redeemers;
    if step.Create? && step.code !in st.codes {
      NoRedeemers(st.redemptions, step.code);
    } else if step.Commit? && Attempted(st, st.calls[step.call]) == Redeemed {
      CommitKeepsInv(st, step.call);
    }
  }

  ghost predicate Run(states: seq<State>, steps: seq<Step>) {
    && |states| == |steps| + 1
    && forall i :: 0 <= i < |steps| ==> Enabled(states[i], steps[i]) && states[i + 1] == Apply(states[i], steps[i])
  }

  lemma {:induction false} RunKeepsInv(states: seq<State>, steps: seq<Step>, n: nat)
    requires Run(states, steps) && Inv(states[0]) && n < |states|
    ensures Inv(states[n])
  {
    hide Inv, Apply;
    if n > 0 {
      RunKeepsInv(states, steps, n - 1);
      StepKeepsInv(states[n - 1], steps[n - 1]);
    }
  }

  /** Whatever interleaves: no code is oversold, none goes below zero, and nobody redeems a code twice. */
  lemma Conservation(states: seq<State>, steps: seq<Step>, n: nat, code: CodeText)
    requires Run(states, steps) && states[0] == NOTHING_YET && n < |states| && code in states[n].codes
    ensures states[n].codes[code].usesTotal > 0 ==>
              && 0 <= states[n].codes[code].usesRemaining
              && states[n].codes[code].usesRemaining + |Redeemers(states[n].redemptions, code)| ==
                 states[n].codes[code].usesTotal
    ensures forall i, j :: 0 <= i < j < |states[n].commits| ==> states[n].commits[i] != states[n].commits[j]
    ensures forall r :: r in states[n].commits <==> r in states[n].redemptions
  {
    hide Redeemers, Apply;
    RunKeepsInv(states, steps, n);
  }

  // ---------------------------------------------------------------------------
  // First come, first served
  // ---------------------------------------------------------------------------

  /** redeemInviteCode without interruption. */
  function AfterRedeem(st: State, call: CallId, code: CodeText, user: UserId): State
    requires call !in st.calls
  {
    var looked := Apply(st, Check(call, code, user));
    if looked.calls[call].Redeeming? then Apply(looked, Commit(call)) else looked
  }

  /** Calls are numbered; those from n on have not been used. */
  ghost predicate UnusedFrom(st: State, n: nat) {
    forall call :: call in st.calls ==> call < n
  }

  /** The users redeem the code one after the other. */
  ghost function AfterAll(st: State, first: CallId, code: CodeText, users: seq<UserId>): (after: State)
    requires UnusedFrom(st, first)
    ensures UnusedFrom(after, first + |users|)
    decreases |users|
  {
    if users == [] then st else
      AfterRedeem(AfterAll(st, first, code, users[..|users| - 1]), first + |users| - 1, code, users[|users| - 1])
  }

  ghost predicate AllDifferent(users: seq<UserId>) {
    forall i, j :: 0 <= i < j < |users| ==> users[i] != users[j]
  }

  /** How many of n users get in. */
  function Served(row: Code, n: nat): nat {
    if row.usesTotal == 0 then n else Max(0, Min(row.usesRemaining, n))
  }

  lemma OneRedeem(st: State, call: CallId, code: CodeText, user: UserId)
    requires call !in st.calls && code != "" && code in st.codes && !Revoked(st, code) && !Expired(st, code)
    requires (code, user) !in st.redemptions
    ensures var row, after := st.codes[code], AfterRedeem(st, call, code, user);
            && after.now == st.now && code in after.codes
            && (Served(row, 1) == 1 ==>
                  && after.redemptions == st.redemptions + {(code, user)}
                  && after.codes[code] ==
                     if row.usesTotal == 0 then row else row.(usesRemaining := row.usesRemaining - 1))
            && (Served(row, 1) == 0 ==> after.redemptions == st.redemptions && after.codes[code] == row)
  {
  }

  /** Of different users who redeem a valid code one after the other, exactly the first get in, as many as
      there are uses left; everybody does if the code is unlimited. */
  lemma {:induction false} FirstComeFirstServed(st: State, first: CallId, code: CodeText, users: seq<UserId>)
    requires UnusedFrom(st, first) && code != "" && code in st.codes && !Revoked(st, code) && !Expired(st, code)
    requires AllDifferent(users) && (forall i :: 0 <= i < |users| ==> (code, users[i]) !in st.redemptions)
    ensures var row, after := st.codes[code], AfterAll(st, first, code, users);
            && after.now == st.now && code in after.codes
            && after.codes[code] == (if row.usesTotal == 0 then row
                 else row.(usesRemaining := row.usesRemaining - Served(row, |users|)))
            && (forall c, u :: (c, u) in after.redemptions <==>
                  (c, u) in st.redemptions || (c == code && exists i :: 0 <= i < Served(row, |users|) && users[i] == u))
    decreases |users|
  {
    hide AfterRedeem;
    var row := st.codes[code];
    if users == [] {
    } else {
      var rest, last := users[..|users| - 1], users[|users| - 1];
      FirstComeFirstServed(st, first, code, rest);
      var before := AfterAll(st, first, code, rest);
      forall i | 0 <= i < |rest| ensures rest[i] != last && rest[i] == users[i] { }
      OneRedeem(before, first + |rest|, code, last);
      var after := AfterAll(st, first, code, users);
      forall c, u
        ensures (c, u) in after.redemptions <==>
                (c, u) in st.redemptions || (c == code && exists i :: 0 <= i < Served(row, |users|) && users[i] == u)
      {
        ServedMore(row, users, u);
      }
    }
  }

  lemma ServedMore(row: Code, users: seq<UserId>, u: UserId)
    requires users != []
    ensures var rest, last := users[..|users| - 1], users[|users| - 1];
            && Served(row, |users|) == Served(row, |rest|) +
                 (if row.usesTotal == 0 || row.usesRemaining - Served(row, |rest|) > 0 then 1 else 0)
            && ((exists i :: 0 <= i < Served(row, |users|) && users[i] == u) <==>
                  (exists i :: 0 <= i < Served(row, |rest|) && rest[i] == u) ||
                  (Served(row, |users|) == |users| && u == last))
  {
    var rest, last := users[..|users| - 1], users[|users| - 1];
    forall i | 0 <= i < |rest| ensures rest[i] == users[i] { }
    if i :| 0 <= i < Served(row, |users|) && users[i] == u {
      if i < |rest| { assert rest[i] == u; }
    }
    if Served(row, |users|) == |users| && u == last { assert users[|users| - 1] == u; }
  }

  // ---------------------------------------------------------------------------
  // After a revocation, after the expiry
  // ---------------------------------------------------------------------------

  /** A redemption that passed its look and would be new. */
  ghost predicate Outstanding(st: State, call: CallId, code: CodeText) {
    && call in st.calls && st.calls[call].Redeeming? && st.calls[call].code == code
    && (code, st.calls[call].user) !in st.redemptions
  }

  ghost predicate Revoked(st: State, code: CodeText) {
    code in st.codes && st.codes[code].revokedAt.Some?
  }

  /** The transaction turns everybody away: the code is limited, and revoked or used up. */
  ghost predicate Spent(st: State, code: CodeText) {
    code in st.codes && st.codes[code].usesTotal > 0 && (Revoked(st, code) || st.codes[code].usesRemaining <= 0)
  }

  /** Nothing a revoked or expired code could still admit. */
  ghost predicate Closed(st: State, code: CodeText) {
    (Revoked(st, code) || Expired(st, code)) && (Spent(st, code) || forall call :: !Outstanding(st, call, code))
  }

  ghost predicate NothingNew(st: State, later: State, code: CodeText) {
    forall u :: (code, u) in later.redemptions ==> (code, u) in st.redemptions
  }

  lemma ClosedStays(st: State, step: Step, code: CodeText)
    requires Inv(st) && Enabled(st, step) && Closed(st, code)
    ensures Closed(Apply(st, step), code)
    ensures forall u :: (code, u) in Apply(st, step).redemptions <==> (code, u) in st.redemptions
  {
    hide Redeemers, Balanced;
    var after := Apply(st, step);
    if Spent(st, code) {
      assert Spent(after, code);
    } else {
      if step.Commit? && st.calls[step.call].code == code { assert !Outstanding(st, step.call, code); }
      forall call ensures !Outstanding(after, call, code) { assert !Outstanding(st, call, code); }
    }
  }

  lemma {:induction false} ClosedRun(states: seq<State>, steps: seq<Step>, n: nat, code: CodeText)
    requires Run(states, steps) && Inv(states[0]) && Closed(states[0], code) && n < |states|
    ensures Closed(states[n], code)
    ensures forall u :: (code, u) in states[n].redemptions <==> (code, u) in states[0].redemptions
  {
    hide Inv, Apply, Closed;
    if n > 0 {
      ClosedRun(states, steps, n - 1, code);
      RunKeepsInv(states, steps, n - 1);
      ClosedStays(states[n - 1], steps[n - 1], code);
    }
  }

  /** The limited codes are closed by the revocation itself. */
  lemma LimitedNeverAfterRevocation(states: seq<State>, steps: seq<Step>, n: nat, code: CodeText)
    requires Run(states, steps) && Inv(states[0]) && n < |states|
    requires Revoked(states[0], code) && states[0].codes[code].usesTotal > 0
    ensures forall u :: (code, u) in states[n].redemptions <==> (code, u) in states[0].redemptions
  {
    hide Inv, Apply;
    ClosedRun(states, steps, n, code);
  }

  /** No run from here redeems the code again. */
  ghost predicate NeverAgain(st: State, code: CodeText) {
    forall states: seq<State>, steps: seq<Step> ::
      Run(states, steps) && states[0] == st ==> NothingNew(st, states[|steps|], code)
  }

  lemma ClosedExactly(st: State, code: CodeText)
    requires Inv(st) && (Revoked(st, code) || Expired(st, code))
    ensures NeverAgain(st, code) <==> Closed(st, code)
  {
    hide Inv, Apply;
    if Closed(st, code) {
      forall states: seq<State>, steps: seq<Step> | Run(states, steps) && states[0] == st
        ensures NothingNew(st, states[|steps|], code)
      {
        ClosedRun(states, steps, |steps|, code);
      }
    } else {
      var call :| Outstanding(st, call, code);
      var after := LateCommit(st, call, code);
      var states, steps := [st, after], [Commit(call)];
      assert Run(states, steps);
      assert (code, st.calls[call].user) in states[|steps|].redemptions;
      assert !NothingNew(st, states[|steps|], code);
    }
  }

  lemma LateCommit(st: State, call: CallId, code: CodeText) returns (after: State)
    requires Inv(st) && code in st.codes && !Spent(st, code) && Outstanding(st, call, code)
    ensures Enabled(st, Commit(call)) && after == Apply(st, Commit(call))
    ensures (code, st.calls[call].user) in after.redemptions
  {
    after := Apply(st, Commit(call));
  }

  /** No redemption of a revoked code is ever made again, exactly when the code is limited or no new
      redemption of it is under way. */
  lemma NothingAfterRevocationExactly(st: State, code: CodeText)
    requires Inv(st) && Revoked(st, code)
    ensures NeverAgain(st, code) <==>
            st.codes[code].usesTotal > 0 || forall call :: !Outstanding(st, call, code)
  {
    hide Inv, NeverAgain;
    ClosedExactly(st, code);
  }

  /** The transaction never looks at the expiry. No redemption of an expired code is ever made again,
      exactly when no new redemption of it is under way, or it is limited and also revoked or used up. */
  lemma NothingAfterExpiryExactly(st: State, code: CodeText)
    requires Inv(st) && Expired(st, code)
    ensures NeverAgain(st, code) <==>
            || (forall call :: !Outstanding(st, call, code))
            || (st.codes[code].usesTotal > 0 && (Revoked(st, code) || st.codes[code].usesRemaining <= 0))
  {
    hide Inv, NeverAgain;
    ClosedExactly(st, code);
  }

  /** It happens: an unlimited code is checked, revoked, and then redeemed. */
  lemma RedeemedAfterRevocation() returns (states: seq<State>, steps: seq<Step>)
    ensures Run(states, steps) && states[0] == NOTHING_YET && |states| == 5
    ensures Revoked(states[3], "OPEN") && states[3].redemptions == {} && states[4].redemptions == {("OPEN", "ada")}
  {
    steps := [Create("OPEN", 0, None), Check(0, "OPEN", "ada"), Revoke("OPEN"), Commit(0)];
    var s1 := Apply(NOTHING_YET, steps[0]);
    var s2 := Apply(s1, steps[1]);
    assert s2.calls[0] == Redeeming("OPEN", "ada", 0);
    var s3 := Apply(s2, steps[2]);
    var s4 := Apply(s3, steps[3]);
    states := [NOTHING_YET, s1, s2, s3, s4];
  }

  /** A limited code too is redeemed after its expiry. */
  lemma RedeemedAfterExpiry() returns (states: seq<State>, steps: seq<Step>)
    ensures Run(states, steps) && states[0] == NOTHING_YET && |states| == 5
    ensures Expired(states[3], "ONCE") && states[3].codes["ONCE"].usesTotal == 1
    ensures states[3].redemptions == {} && states[4].redemptions == {("ONCE", "ada")}
  {
    steps := [Create("ONCE", 1, Some(10)), Check(0, "ONCE", "ada"), Tick(11), Commit(0)];
    var s1 := Apply(NOTHING_YET, steps[0]);
    var s2 := Apply(s1, steps[1]);
    assert s2.calls[0] == Redeeming("ONCE", "ada", 1);
    var s3 := Apply(s2, steps[2]);
    var s4 := Apply(s3, steps[3]);
    states := [NOTHING_YET, s1, s2, s3, s4];
  }

  // ---------------------------------------------------------------------------
  // The tables
  // ---------------------------------------------------------------------------

  class InviteStore {
    var now: int
    var codes: map<CodeText, Code>
    var redemptions: set<Redemption>
    ghost var calls: map<CallId, Call>
    ghost var commits: seq<Redemption>

    ghost function View(): State
      reads this
    {
      State(now, codes, redemptions, calls, commits)
    }

    constructor ()
      ensures View() == NOTHING_YET
    {
      now, codes, redemptions, calls, commits := 0, map[], {}, map[], [];
    }

    method CreateInviteCode(code: CodeText, usesTotal: nat, expiresAt: Option<int>) returns (ok: bool)
      modifies this`codes
      ensures View() == Apply(old(View()), Create(code, usesTotal, expiresAt))
      ensures ok <==> code !in old(codes)
    {
      if code in codes { return false; }
      codes := codes[code := Code(usesTotal, usesTotal, expiresAt, None)];
      return true;
    }

    method RevokeInviteCode(code: CodeText) returns (ok: bool)
      modifies this`codes
      ensures View() == Apply(old(View()), Revoke(code))
      ensures ok <==> code in old(codes) && old(codes)[code].revokedAt == None
    {
      if code !in codes || codes[code].revokedAt.Some? { return false; }
      codes := codes[code := codes[code].(revokedAt := Some(now))];
      return true;
    }

    /** redeemInviteCode up to its transaction; a pending call remembers the row's usesTotal. */
    method BeginRedeem(ghost call: CallId, code: CodeText, user: UserId)
      returns (early: Option<Outcome>, seenTotal: nat)
      requires Enabled(View(), Check(call, code, user))
      modifies this`calls
      ensures View() == Apply(old(View()), Check(call, code, user))
      ensures early == None ==> calls[call] == Redeeming(code, user, seenTotal)
      ensures early.Some? ==> calls[call] == Finished(early.value) && early.value != Redeemed
    {
      seenTotal := 0;
      if code == "" || code !in codes {
        calls := calls[call := Finished(InvalidCode)];
        return Some(InvalidCode), 0;
      }
      var verdict := Verdict(codes[code], (code, user) in redemptions, now);
      if verdict != Redeemed {
        calls := calls[call := Finished(verdict)];
        return Some(verdict), 0;
      }
      seenTotal := codes[code].usesTotal;
      calls := calls[call := Redeeming(code, user, seenTotal)];
      early := None;
    }

    /** The transaction: decrement under its condition, then insert; a clash rolls the decrement back. */
    method FinishRedeem(ghost call: CallId, code: CodeText, user: UserId, seenTotal: nat) returns (outcome: Outcome)
      requires Enabled(View(), Commit(call)) && calls[call] == Redeeming(code, user, seenTotal) && code in codes
      modifies this
      ensures View() == Apply(old(View()), Commit(call))
      ensures calls[call] == Finished(outcome)
    {
      var before := codes;
      if seenTotal > 0 {
        var row := codes[code];
        if row.revokedAt.Some? || row.usesRemaining <= 0 {
          calls := calls[call := Finished(InvalidCode)];
          return InvalidCode;
        }
        codes := codes[code := row.(usesRemaining := row.usesRemaining - 1)];
      }
      if (code, user) in redemptions {
        codes := before;
        calls := calls[call := Finished(AlreadyRedeemed)];
        return AlreadyRedeemed;
      }
      redemptions := redemptions + {(code, user)};
      calls, commits := calls[call := Finished(Redeemed)], commits + [(code, user)];
      return Redeemed;
    }
  }
}
