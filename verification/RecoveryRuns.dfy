/**
 Threshold recovery from start to login: every login goes back to checks that were made in time, and
 proofs that suffice do lead to a login.
 */
module RecoveryRuns {
  import opened Common
  import opened RecoveryProtocol

  // ---------------------------------------------------------------------------
  // Back from a login to its start
  // ---------------------------------------------------------------------------

  /** Step m starts the attempt: it has fifteen minutes. */
  ghost predicate StartsAt(states: seq<State>, steps: seq<Step>, m: nat, id: AttemptId, a: Attempt)
    requires m < |steps| < |states|
  {
    steps[m] == Start(id, a.user, a.required) && a.expiresAt == states[m].now + 900_000
  }

  lemma {:induction false} AttemptStarted(states: seq<State>, steps: seq<Step>, i: nat, id: AttemptId)
    returns (m: nat)
    requires Run(states, steps) && i < |states| && id in states[i].attempts
    ensures m < i && StartsAt(states, steps, m, id, states[i].attempts[id])
  {
    m := i - 1;
    if id in states[i - 1].attempts {
      StepKeepsProofs(states[i - 1], steps[i - 1], id);
      m := AttemptStarted(states, steps, i - 1, id);
    }
  }

  /** Step m is the check of a proof: the badge is held, its weight is w, the attempt is open and in time. */
  ghost predicate ChecksProof(
    states: seq<State>, steps: seq<Step>, m: nat, call: CallId, id: AttemptId, t: BadgeType, w: nat)
    requires m < |steps| < |states|
  {
    && steps[m] == CheckProof(call, id, t, true, Some(w)) && t in ELIGIBLE_TYPES
    && id in states[m].attempts && states[m].attempts[id].status == Pending
    && states[m].now < states[m].attempts[id].expiresAt
  }

  lemma {:induction false} ProvingChecked(states: seq<State>, steps: seq<Step>, i: nat, call: CallId) returns (m: nat)
    requires Run(states, steps) && i < |states| && call in states[i].calls && states[i].calls[call].Proving?
    ensures var c := states[i].calls[call];
            m < i && ChecksProof(states, steps, m, call, c.attempt, c.badgeType, c.weight)
  {
    m := i - 1;
    if call in states[i - 1].calls {
      CallUnchanged(states[i - 1], steps[i - 1], call);
      m := ProvingChecked(states, steps, i - 1, call);
    } else {
      CallBegun(states[i - 1], steps[i - 1], call);
    }
  }

  /** A call that still waits for its proof to be stored has not moved. */
  lemma CallUnchanged(st: State, step: Step, call: CallId)
    requires Enabled(st, step) && call in st.calls && Apply(st, step).calls[call].Proving?
    ensures st.calls[call] == Apply(st, step).calls[call]
  {
  }

  lemma CallBegun(st: State, step: Step, call: CallId)
    requires Enabled(st, step) && call !in st.calls && call in Apply(st, step).calls
    ensures var c := Apply(st, step).calls[call];
            && (c.Proving? ==>
                  && step == CheckProof(call, c.attempt, c.badgeType, true, Some(c.weight))
                  && ProofCheck(st, c.attempt, c.badgeType, true, Some(c.weight)) == None)
            && (c.Claiming? ==> step == CheckConsume(call, c.attempt) && ConsumeCheck(st, c.attempt) == None)
            && !c.Issuing?
  {
  }

  /** Every proven type was checked while the attempt was open and in time, for the weight it counts. */
  lemma {:induction false} ProofChecked(
    states: seq<State>, steps: seq<Step>, i: nat, id: AttemptId, t: BadgeType) returns (m: nat, call: CallId)
    requires Run(states, steps) && i < |states| && id in states[i].attempts && t in states[i].attempts[id].proofs
    ensures m < i && ChecksProof(states, steps, m, call, id, t, states[i].attempts[id].proofs[t])
    ensures states[m].attempts[id].expiresAt == states[i].attempts[id].expiresAt
  {
    var st, step := states[i - 1], steps[i - 1];
    if id in st.attempts && t in st.attempts[id].proofs {
      StepKeepsProofs(st, step, id);
      m, call := ProofChecked(states, steps, i - 1, id, t);
    } else {
      call := ProofStored(st, step, id, t);
      m := ProvingChecked(states, steps, i - 1, call);
    }
    RunKeepsProofs(states, steps, m, i, id);
  }

  lemma ProofStored(st: State, step: Step, id: AttemptId, t: BadgeType) returns (call: CallId)
    requires Enabled(st, step) && id in Apply(st, step).attempts && t in Apply(st, step).attempts[id].proofs
    requires !(id in st.attempts && t in st.attempts[id].proofs)
    ensures call in st.calls && st.calls[call] == Proving(id, t, Apply(st, step).attempts[id].proofs[t])
  {
    assert step.CommitProof?;
    call := step.call;
  }

  /** Step m is the check of a consume call: the attempt is satisfied and in time. */
  ghost predicate ChecksConsume(states: seq<State>, steps: seq<Step>, m: nat, call: CallId, id: AttemptId)
    requires m < |steps| < |states|
  {
    && steps[m] == CheckConsume(call, id) && id in states[m].attempts
    && states[m].attempts[id].status == Satisfied && states[m].now < states[m].attempts[id].expiresAt
  }

  lemma {:induction false} ClaimChecked(states: seq<State>, steps: seq<Step>, i: nat, call: CallId) returns (m: nat)
    requires Run(states, steps) && i < |states| && call in states[i].calls
    requires states[i].calls[call].Claiming? || states[i].calls[call].Issuing?
    ensures m < i && ChecksConsume(states, steps, m, call, states[i].calls[call].attempt)
  {
    m := i - 1;
    if call in states[i - 1].calls {
      ClaimUnmoved(states[i - 1], steps[i - 1], call);
      m := ClaimChecked(states, steps, i - 1, call);
    } else {
      CallBegun(states[i - 1], steps[i - 1], call);
    }
  }

  lemma ClaimUnmoved(st: State, step: Step, call: CallId)
    requires Enabled(st, step) && call in st.calls
    requires Apply(st, step).calls[call].Claiming? || Apply(st, step).calls[call].Issuing?
    ensures st.calls[call].Claiming? || st.calls[call].Issuing?
    ensures st.calls[call].attempt == Apply(st, step).calls[call].attempt
  {
  }

  /** Step m mints the ticket, which lives for ten minutes. */
  ghost predicate IssuesAt(states: seq<State>, steps: seq<Step>, m: nat, jti: Jti, tk: Ticket)
    requires m < |steps| < |states|
  {
    steps[m] == Issue(tk.call, jti) && tk.expiresAt == states[m].now + 600_000
  }

  /** Every ticket was minted by a call that found its attempt satisfied and in time. */
  lemma {:induction false} TicketTraced(states: seq<State>, steps: seq<Step>, i: nat, jti: Jti)
    returns (check: nat, issue: nat)
    requires Run(states, steps) && i < |states| && jti in states[i].tickets
    ensures var tk := states[i].tickets[jti];
            && check < issue < i && ChecksConsume(states, steps, check, tk.call, tk.attempt)
            && IssuesAt(states, steps, issue, jti, tk)
            && jti in states[issue + 1].tickets && states[issue + 1].tickets[jti] == tk
  {
    var st, step := states[i - 1], steps[i - 1];
    if jti in st.tickets {
      TicketKept(st, step, jti);
      check, issue := TicketTraced(states, steps, i - 1, jti);
    } else {
      TicketMinted(st, step, jti);
      issue := i - 1;
      check := ClaimChecked(states, steps, i - 1, step.call);
    }
  }

  lemma TicketKept(st: State, step: Step, jti: Jti)
    requires Enabled(st, step) && jti in st.tickets
    ensures jti in Apply(st, step).tickets && Apply(st, step).tickets[jti] == st.tickets[jti]
  {
  }

  lemma TicketMinted(st: State, step: Step, jti: Jti)
    requires Enabled(st, step) && jti !in st.tickets && jti in Apply(st, step).tickets
    ensures step.Issue? && step.jti == jti && step.call in st.calls && st.calls[step.call].Issuing?
    ensures Apply(st, step).tickets[jti] ==
            Ticket(st.calls[step.call].user, st.calls[step.call].attempt, step.call, st.now + TICKET_TTL_MS)
  {
  }

  /** Every login happened at a verification while its ticket was alive. */
  lemma {:induction false} LoginVerified(states: seq<State>, steps: seq<Step>, i: nat, n: nat) returns (m: nat)
    requires Run(states, steps) && i < |states| && n < |states[i].logins|
    ensures var jti := states[i].logins[n];
            && m < i && steps[m] == Verify(jti) && jti in states[m].tickets
            && states[m].now < states[m].tickets[jti].expiresAt
  {
    m := i - 1;
    if n < |states[i - 1].logins| {
      LoginKept(states[i - 1], steps[i - 1], n);
      m := LoginVerified(states, steps, i - 1, n);
    } else {
      LoginMade(states[i - 1], steps[i - 1], n);
    }
  }

  lemma LoginKept(st: State, step: Step, n: nat)
    requires Enabled(st, step) && n < |st.logins|
    ensures n < |Apply(st, step).logins| && Apply(st, step).logins[n] == st.logins[n]
  {
  }

  lemma LoginMade(st: State, step: Step, n: nat)
    requires Enabled(st, step) && |st.logins| <= n < |Apply(st, step).logins|
    ensures step.Verify? && Authenticates(st, step.jti) && Apply(st, step).logins[n] == step.jti
  {
  }

  /** The marker of the ticket was swept away after it was minted. */
  ghost predicate Swept(states: seq<State>, steps: seq<Step>, i: nat, jti: Jti)
    requires |states| == |steps| + 1 && i < |states|
  {
    exists m :: 0 <= m < i && steps[m] == Sweep(jti) && jti in states[m].tickets
  }

  /** A ticket stays good for its one login until it is used or swept, whatever else happens. */
  lemma {:induction false} TicketUsableExactly(states: seq<State>, steps: seq<Step>, i: nat, jti: Jti)
    requires Run(states, steps) && i < |states| && jti in states[i].tickets
    ensures jti in states[i].markers <==> jti !in states[i].logins && !Swept(states, steps, i, jti)
  {
    hide Inv;
    var last := i - 1;
    RunKeepsInv(states, steps, last);
    if jti in states[last].tickets {
      TicketUsableExactly(states, steps, last, jti);
      MarkerStep(states[last], steps[last], jti);
      if steps[last] == Sweep(jti) { assert Swept(states, steps, i, jti); }
      assert Swept(states, steps, i, jti) <==> Swept(states, steps, last, jti) || steps[last] == Sweep(jti);
    } else {
      MarkerMinted(states[last], steps[last], jti);
      forall m | 0 <= m < i ensures jti !in states[m].tickets { NotYetMinted(states, steps, m, last, jti); }
    }
  }

  lemma MarkerStep(st: State, step: Step, jti: Jti)
    requires Enabled(st, step) && Inv(st) && jti in st.tickets
    ensures var after := Apply(st, step);
            && (jti in after.markers <==>
                  jti in st.markers && step != Sweep(jti) && !(step == Verify(jti) && Authenticates(st, jti)))
            && (jti in after.logins <==> jti in st.logins || (step == Verify(jti) && Authenticates(st, jti)))
  {
    hide AttemptOk, CallOk, TicketOk;
  }

  lemma MarkerMinted(st: State, step: Step, jti: Jti)
    requires Enabled(st, step) && Inv(st) && jti !in st.tickets && jti in Apply(st, step).tickets
    ensures jti in Apply(st, step).markers && jti !in Apply(st, step).logins
  {
    hide AttemptOk, CallOk, TicketOk;
  }

  lemma {:induction false} NotYetMinted(states: seq<State>, steps: seq<Step>, m: nat, i: nat, jti: Jti)
    requires Run(states, steps) && m <= i < |states| && jti !in states[i].tickets
    ensures jti !in states[m].tickets
    decreases i
  {
    if m < i {
      if jti in states[i - 1].tickets { TicketKept(states[i - 1], steps[i - 1], jti); }
      NotYetMinted(states, steps, m, i - 1, jti);
    }
  }

  /**
   Every login by recovery was earned: an attempt was started for the user; within fifteen minutes of that it
   was found satisfied, its proofs summing to what was required; the ticket was minted after that; and the
   login came within ten minutes of the minting.
   */
  lemma LoginEarned(states: seq<State>, steps: seq<Step>, i: nat, n: nat)
    returns (start: nat, check: nat, issue: nat, login: nat, tk: Ticket)
    requires Run(states, steps) && i < |states| && n < |states[i].logins|
    ensures start < check < issue < login < i && steps[login] == Verify(states[i].logins[n])
    ensures tk.attempt in states[check].attempts
    ensures var a := states[check].attempts[tk.attempt];
            && a.user == tk.user && steps[start] == Start(tk.attempt, tk.user, a.required)
            && (a.required >= 1 ==> ProofSum(a.proofs) >= a.required)
    ensures steps[check] == CheckConsume(tk.call, tk.attempt) && steps[issue] == Issue(tk.call, states[i].logins[n])
    ensures states[check].now < states[start].now + 900_000
    ensures states[login].now < states[issue].now + 600_000
  {
    hide ProofSum, Apply;
    var jti := states[i].logins[n];
    login := LoginVerified(states, steps, i, n);
    tk := states[login].tickets[jti];
    check, issue := TicketTraced(states, steps, login, jti);
    start := AttemptStarted(states, steps, check, tk.attempt);
    ScoreIsProofSum(states, steps, check, tk.attempt);
    RunKeepsInv(states, steps, login);
    assert TicketOk(states[login], jti);
    RunKeepsProofs(states, steps, check, login, tk.attempt);
  }

  // ---------------------------------------------------------------------------
  // From sufficient proofs to a login
  // ---------------------------------------------------------------------------

  /** recordReProof without interruption, by a user who holds a badge of the type. */
  function ReProved(st: State, call: CallId, id: AttemptId, t: BadgeType, w: nat): State
    requires call !in st.calls
  {
    var checked := Apply(st, CheckProof(call, id, t, true, Some(w)));
    if checked.calls[call].Proving? then Apply(checked, CommitProof(call)) else checked
  }

  datatype Held = Held(badgeType: BadgeType, weight: nat)

  function Total(held: seq<Held>): nat {
    if held == [] then 0 else Total(held[..|held| - 1]) + held[|held| - 1].weight
  }

  /** Calls are numbered; those from n on have not been used. */
  ghost predicate UnusedFrom(st: State, n: nat) {
    forall call :: call in st.calls ==> call < n
  }

  /** Re-proving the given types one after the other. */
  ghost function AllReProved(st: State, first: CallId, id: AttemptId, held: seq<Held>): (after: State)
    requires UnusedFrom(st, first)
    ensures UnusedFrom(after, first + |held|)
    decreases |held|
  {
    if held == [] then st else
      var before := AllReProved(st, first, id, held[..|held| - 1]);
      ReProved(before, first + |held| - 1, id, held[|held| - 1].badgeType, held[|held| - 1].weight)
  }

  /** consumeSatisfiedAttempt and the login with its ticket, without interruption. */
  function LoggedIn(st: State, call: CallId, id: AttemptId, jti: Jti): State
    requires call !in st.calls && jti !in st.tickets
  {
    var checked := Apply(st, CheckConsume(call, id));
    if !checked.calls[call].Claiming? then checked else
      var claimed := Apply(checked, Claim(call));
      if !claimed.calls[call].Issuing? then claimed else Apply(Apply(claimed, Issue(call, jti)), Verify(jti))
  }

  /** The call goes through exactly for a satisfied attempt that is in time, and each refusal has its reason. */
  lemma ConsumeAnswersExactly(st: State, id: AttemptId)
    requires Inv(st)
    ensures var r := ConsumeCheck(st, id);
            && (r == Some(NotFound) <==> id !in st.attempts)
            && (r == Some(AlreadyConsumed) <==> id in st.claims)
            && (r == Some(NotSatisfied) <==> id in st.attempts && st.attempts[id].status == Pending)
            && (r == Some(Expired) <==>
                  && id in st.attempts && st.attempts[id].status == Satisfied
                  && st.attempts[id].expiresAt <= st.now)
  {
    hide AttemptOk, CallOk, TicketOk, LoginsOk;
  }

  lemma LoginExactly(st: State, call: CallId, id: AttemptId, jti: Jti)
    requires Inv(st) && call !in st.calls && jti !in st.tickets
    ensures var ok := id in st.attempts && st.attempts[id].status == Satisfied && st.now < st.attempts[id].expiresAt;
            var after := LoggedIn(st, call, id, jti);
            && after.logins == (if ok then st.logins + [jti] else st.logins)
            && (ok ==> jti in after.tickets && after.tickets[jti].user == st.attempts[id].user)
  {
    hide AttemptOk, CallOk, TicketOk, LoginsOk;
  }

  /** The same for a proof: the first thing that is wrong, in this order. */
  lemma ProofAnswersExactly(st: State, id: AttemptId, t: BadgeType, held: bool, weight: Option<nat>)
    requires Inv(st)
    ensures var r := ProofCheck(st, id, t, held, weight);
            var open := id in st.attempts && id !in st.claims && st.attempts[id].status != Satisfied;
            && (r == Some(AttemptNotFound) <==> id !in st.attempts)
            && (r == Some(AttemptNotPending) <==> id in st.attempts && !open)
            && (r == Some(AttemptExpired) <==> open && st.attempts[id].expiresAt <= st.now)
            && (open && st.now < st.attempts[id].expiresAt ==>
                  && (r == Some(TypeNotEligible) <==> t !in ELIGIBLE_TYPES)
                  && (r == Some(BadgeNotHeld) <==> t in ELIGIBLE_TYPES && !held)
                  && (r == Some(ConfigUnavailable) <==> t in ELIGIBLE_TYPES && held && weight == None))
  {
    hide AttemptOk, CallOk, TicketOk, LoginsOk;
  }

  /** A type that has not been proven counts for its weight, and for nothing else. */
  lemma ReProofCounts(st: State, call: CallId, id: AttemptId, t: BadgeType, w: nat)
    requires call !in st.calls && id in st.attempts && t in ELIGIBLE_TYPES && t !in st.attempts[id].proofs
    requires st.now < st.attempts[id].expiresAt
    ensures var a, after := st.attempts[id], ReProved(st, call, id, t, w);
            && id in after.attempts && after.now == st.now && after.tickets == st.tickets && after.logins == st.logins
            && after.attempts[id] == if a.status == Pending then Proved(a, t, w) else a
  {
    hide Proved;
  }

  ghost predicate Distinct(held: seq<Held>) {
    forall i, j :: 0 <= i < j < |held| ==> held[i].badgeType != held[j].badgeType
  }

  lemma {:induction false} AllCounted(st: State, first: CallId, id: AttemptId, held: seq<Held>)
    requires UnusedFrom(st, first) && id in st.attempts && Distinct(held)
    requires st.attempts[id].status == Pending && st.attempts[id].proofs == map[] && st.attempts[id].score == 0
    requires st.attempts[id].required >= 1 && st.now < st.attempts[id].expiresAt
    requires forall i :: 0 <= i < |held| ==> held[i].badgeType in ELIGIBLE_TYPES
    ensures var after := AllReProved(st, first, id, held);
            && id in after.attempts && after.now == st.now && after.tickets == st.tickets && after.logins == st.logins
            && var a := after.attempts[id];
            && a.user == st.attempts[id].user && a.required == st.attempts[id].required
            && a.expiresAt == st.attempts[id].expiresAt
            && (forall t :: t in a.proofs ==> exists i :: 0 <= i < |held| && held[i].badgeType == t)
            && (a.status == Pending ==> a.score == Total(held) < a.required)
            && (a.status != Pending ==> a.status == Satisfied && Total(held) >= a.required)
    decreases |held|
  {
    hide Apply, ReProved;
    if held != [] {
      var rest, last := held[..|held| - 1], held[|held| - 1];
      AllCounted(st, first, id, rest);
      var before := AllReProved(st, first, id, rest);
      forall i | 0 <= i < |rest| ensures rest[i].badgeType != last.badgeType { assert rest[i] == held[i]; }
      assert last.badgeType !in before.attempts[id].proofs;
      ReProofCounts(before, first + |rest|, id, last.badgeType, last.weight);
      forall t | t in AllReProved(st, first, id, held).attempts[id].proofs
        ensures exists i :: 0 <= i < |held| && held[i].badgeType == t
      {
        if t == last.badgeType {
          assert held[|held| - 1].badgeType == t;
        } else {
          var i :| 0 <= i < |rest| && rest[i].badgeType == t;
          assert held[i].badgeType == t;
        }
      }
    }
  }

  /**
   Recovery works, and no more than it should: a user who starts an attempt, re-proves different eligible types
   and later consumes the attempt is logged in if and only if the weights sum to what is required and fewer
   than fifteen minutes have passed since the start.
   */
  lemma RecoveryWorksExactly(
    st: State, first: CallId, id: AttemptId, user: UserId, required: int, held: seq<Held>, until: int, jti: Jti)
    requires Inv(st) && UnusedFrom(st, first) && id !in st.attempts && jti !in st.tickets && required >= 1
    requires Distinct(held) && (forall i :: 0 <= i < |held| ==> held[i].badgeType in ELIGIBLE_TYPES)
    requires st.now <= until
    ensures var proved := AllReProved(Started(st, id, user, required), first, id, held);
            && proved.now <= until && jti !in proved.tickets && (first + |held|) !in proved.calls
            && var after := LoggedIn(Apply(proved, Wait(until)), first + |held|, id, jti);
            var ok := Total(held) >= required && until < st.now + 900_000;
            && after.logins == (if ok then st.logins + [jti] else st.logins)
            && (ok ==> jti in after.tickets && after.tickets[jti].user == user)
  {
    hide LoggedIn, Inv, Apply, AllReProved;
    var started := Started(st, id, user, required);
    AllCounted(started, first, id, held);
    StartKeepsInv(st, id, user, required);
    ReProvingKeepsInv(started, first, id, held);
    var proved := AllReProved(started, first, id, held);
    Waited(proved, until);
    LoginExactly(Apply(proved, Wait(until)), first + |held|, id, jti);
  }

  lemma Waited(st: State, until: int)
    requires Inv(st) && st.now <= until
    ensures Inv(Apply(st, Wait(until))) && Apply(st, Wait(until)) == st.(now := until)
  {
    hide Inv;
    StepKeepsInv(st, Wait(until));
  }

  lemma {:induction false} ReProvingKeepsInv(st: State, first: CallId, id: AttemptId, held: seq<Held>)
    requires Inv(st) && UnusedFrom(st, first)
    ensures Inv(AllReProved(st, first, id, held))
    decreases |held|
  {
    hide Inv, ProofCheck, CommitProofStep;
    if held != [] {
      var rest, last := held[..|held| - 1], held[|held| - 1];
      ReProvingKeepsInv(st, first, id, rest);
      var before := AllReProved(st, first, id, rest);
      var call := first + |rest|;
      var check := CheckProof(call, id, last.badgeType, true, Some(last.weight));
      StepKeepsInv(before, check);
      var checked := Apply(before, check);
      if checked.calls[call].Proving? { StepKeepsInv(checked, CommitProof(call)); }
    }
  }
}
