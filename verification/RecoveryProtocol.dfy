/**
 Threshold recovery as a protocol: any number of calls run at once, and each call is cut into
 the atomic database actions it is made of, so a call may act on what it read long ago. The
 states record, besides the tables, which call claimed an attempt and which tickets have
 authenticated.
 */
module RecoveryProtocol {
  import opened Common
  import RecoveryConfig

  const ELIGIBLE_TYPES: set<BadgeType> := RecoveryConfig.ELIGIBLE_TYPES

  type UserId = string
  type AttemptId = string
  type BadgeType = string
  type CallId = nat
  type Jti = string

  const ATTEMPT_TTL_MS := 15 * 60 * 1000
  const TICKET_TTL_MS := 10 * 60 * 1000

  datatype Status = Pending | Satisfied | Consumed

  /** The proofs are the RecoveryProof rows, unique per badge type. */
  datatype Attempt = Attempt(
    user: UserId, required: int, score: int, status: Status, expiresAt: int, proofs: map<BadgeType, nat>)

  datatype Ticket = Ticket(user: UserId, attempt: AttemptId, call: CallId, expiresAt: int)

  /** Where a running call stands between two of its database actions. */
  datatype Call =
    | Proving(attempt: AttemptId, badgeType: BadgeType, weight: nat)
    | Claiming(attempt: AttemptId, user: UserId)
    | Issuing(attempt: AttemptId, user: UserId)
    | Finished(ticket: Option<Jti>)

  datatype State = State(
    now: int,
    attempts: map<AttemptId, Attempt>,
    markers: set<Jti>,
    calls: map<CallId, Call>,
    claims: map<AttemptId, CallId>,
    tickets: map<Jti, Ticket>,
    logins: seq<Jti>)

  // ---------------------------------------------------------------------------
  // Atomic actions
  // ---------------------------------------------------------------------------

  function Started(st: State, id: AttemptId, user: UserId, required: int): State {
    st.(attempts := st.attempts[id := Attempt(user, required, 0, Pending, st.now + ATTEMPT_TTL_MS, map[])])
  }

  datatype ProofError =
    | AttemptNotFound | AttemptNotPending | AttemptExpired | TypeNotEligible | BadgeNotHeld | ConfigUnavailable
    | AlreadyProven

  /** The checks recordReProof makes before its transaction, in order. `held` and `weight` are what
      the badge and the weight table said at that moment. */
  function ProofCheck(st: State, id: AttemptId, t: BadgeType, held: bool, weight: Option<nat>): Option<ProofError> {
    if id !in st.attempts then Some(AttemptNotFound)
    else if st.attempts[id].status != Pending then Some(AttemptNotPending)
    else if st.attempts[id].expiresAt <= st.now then Some(AttemptExpired)
    else if t !in ELIGIBLE_TYPES then Some(TypeNotEligible)
    else if !held then Some(BadgeNotHeld)
    else if weight.None? then Some(ConfigUnavailable)
    else None
  }

  /** The transaction: insert the proof, add the weight, flip the status when the sum suffices. */
  function Proved(a: Attempt, t: BadgeType, w: nat): Attempt {
    var score := a.score + w;
    a.(proofs := a.proofs[t := w], score := score,
       status := if score >= a.required && a.status == Pending then Satisfied else a.status)
  }

  datatype ConsumeError = NotFound | NotSatisfied | AlreadyConsumed | Expired

  function ConsumeCheck(st: State, id: AttemptId): Option<ConsumeError> {
    if id !in st.attempts then Some(NotFound)
    else if st.attempts[id].status == Consumed then Some(AlreadyConsumed)
    else if st.attempts[id].status != Satisfied then Some(NotSatisfied)
    else if st.attempts[id].expiresAt <= st.now then Some(Expired)
    else None
  }

  // ---------------------------------------------------------------------------
  // Steps
  // ---------------------------------------------------------------------------

  datatype Step =
    | Start(id: AttemptId, user: UserId, required: int)
    | CheckProof(call: CallId, id: AttemptId, badgeType: BadgeType, held: bool, weight: Option<nat>)
    | CommitProof(call: CallId)
    | CheckConsume(call: CallId, id: AttemptId)
    | Claim(call: CallId)
    | Issue(call: CallId, jti: Jti)
    | Verify(jti: Jti)
    | Sweep(jti: Jti)
    | Wait(until: int)

  /** Ids are fresh, calls act in their own order, the clock does not run backwards. */
  predicate Enabled(st: State, step: Step) {
    match step
    case Start(id, _, _) => id !in st.attempts
    case CheckProof(call, _, _, _, _) => call !in st.calls
    case CommitProof(call) => call in st.calls && st.calls[call].Proving?
    case CheckConsume(call, _) => call !in st.calls
    case Claim(call) => call in st.calls && st.calls[call].Claiming?
    case Issue(call, jti) => call in st.calls && st.calls[call].Issuing? && jti !in st.tickets
    case Verify(_) => true
    case Sweep(_) => true
    case Wait(until) => st.now <= until
  }

  function CommitProofStep(st: State, call: CallId): State
    requires Enabled(st, CommitProof(call))
  {
    var c := st.calls[call];
    var done := st.(calls := st.calls[call := Finished(None)]);
    if c.attempt in st.attempts && c.badgeType !in st.attempts[c.attempt].proofs
    then done.(attempts := st.attempts[c.attempt := Proved(st.attempts[c.attempt], c.badgeType, c.weight)])
    else done
  }

  function ClaimStep(st: State, call: CallId): State
    requires Enabled(st, Claim(call))
  {
    var c := st.calls[call];
    if c.attempt in st.attempts && st.attempts[c.attempt].status == Satisfied
    then st.(attempts := st.attempts[c.attempt := st.attempts[c.attempt].(status := Consumed)],
             claims := st.claims[c.attempt := call],
             calls := st.calls[call := Issuing(c.attempt, c.user)])
    else st.(calls := st.calls[call := Finished(None)])
  }

  function IssueStep(st: State, call: CallId, jti: Jti): State
    requires Enabled(st, Issue(call, jti))
  {
    var c := st.calls[call];
    st.(markers := st.markers + {jti},
        tickets := st.tickets[jti := Ticket(c.user, c.attempt, call, st.now + TICKET_TTL_MS)],
        calls := st.calls[call := Finished(Some(jti))])
  }

  /** Only a ticket that was really minted passes the signature check. */
  predicate Authenticates(st: State, jti: Jti) {
    jti in st.tickets && st.now < st.tickets[jti].expiresAt && jti in st.markers
  }

  function VerifyStep(st: State, jti: Jti): State {
    if Authenticates(st, jti) then st.(markers := st.markers - {jti}, logins := st.logins + [jti]) else st
  }

  function Apply(st: State, step: Step): State
    requires Enabled(st, step)
  {
    match step
    case Start(id, user, required) => Started(st, id, user, required)
    case CheckProof(call, id, t, held, weight) =>
      st.(calls := st.calls[call :=
        if ProofCheck(st, id, t, held, weight) == None then Proving(id, t, weight.value) else Finished(None)])
    case CommitProof(call) => CommitProofStep(st, call)
    case CheckConsume(call, id) =>
      st.(calls := st.calls[call :=
        if ConsumeCheck(st, id) == None then Claiming(id, st.attempts[id].user) else Finished(None)])
    case Claim(call) => ClaimStep(st, call)
    case Issue(call, jti) => IssueStep(st, call, jti)
    case Verify(jti) => VerifyStep(st, jti)
    case Sweep(jti) => st.(markers := st.markers - {jti})
    case Wait(until) => st.(now := until)
  }

  // ---------------------------------------------------------------------------
  // Invariant
  // ---------------------------------------------------------------------------

  ghost function WeightIn(p: map<BadgeType, nat>, t: BadgeType): int {
    if t in p then p[t] else 0
  }

  /** The summed weight of the distinct proven types. */
  ghost function ProofSum(p: map<BadgeType, nat>): int {
    SumOver(p.Keys, t => WeightIn(p, t))
  }

  lemma ProofSumAdd(p: map<BadgeType, nat>, t: BadgeType, w: nat)
    requires t !in p
    ensures ProofSum(p[t := w]) == ProofSum(p) + w
  {
    var q := p[t := w];
    var f, g := (x: BadgeType) => WeightIn(q, x), (x: BadgeType) => WeightIn(p, x);
    SumPick(q.Keys, f, t);
    assert q.Keys - {t} == p.Keys;
    SumCongruent(p.Keys, f, g);
  }

  ghost predicate AttemptOk(a: Attempt) {
    && a.score == ProofSum(a.proofs)
    && a.proofs.Keys <= ELIGIBLE_TYPES
    && (a.required >= 1 ==> (a.status == Pending <==> a.score < a.required))
  }

  ghost predicate CallOk(st: State, call: CallId)
    requires call in st.calls
  {
    match st.calls[call]
    case Proving(id, t, _) => t in ELIGIBLE_TYPES
    case Claiming(id, user) => id in st.attempts && st.attempts[id].user == user
    case Issuing(id, user) =>
      id in st.attempts && st.attempts[id].user == user && id in st.claims && st.claims[id] == call
    case Finished(_) => true
  }

  ghost predicate TicketOk(st: State, jti: Jti)
    requires jti in st.tickets
  {
    var tk := st.tickets[jti];
    && tk.attempt in st.attempts && st.attempts[tk.attempt].user == tk.user
    && tk.attempt in st.claims && st.claims[tk.attempt] == tk.call
    && tk.call in st.calls && st.calls[tk.call] == Finished(Some(jti))
  }

  ghost predicate LoginsOk(st: State) {
    && (forall i :: 0 <= i < |st.logins| ==> st.logins[i] in st.tickets && st.logins[i] !in st.markers)
    && (forall i, j :: 0 <= i < j < |st.logins| ==> st.logins[i] != st.logins[j])
  }

  ghost predicate Inv(st: State) {
    && (forall id :: id in st.attempts ==> AttemptOk(st.attempts[id]))
    && (forall id :: id in st.attempts ==> (id in st.claims <==> st.attempts[id].status == Consumed))
    && st.claims.Keys <= st.attempts.Keys
    && (forall call :: call in st.calls ==> CallOk(st, call))
    && (forall jti :: jti in st.tickets ==> TicketOk(st, jti))
    && st.markers <= st.tickets.Keys
    && LoginsOk(st)
  }

  lemma ProvedOk(a: Attempt, t: BadgeType, w: nat)
    requires AttemptOk(a) && t !in a.proofs && t in ELIGIBLE_TYPES
    ensures AttemptOk(Proved(a, t, w))
  {
    hide ProofSum;
    ProofSumAdd(a.proofs, t, w);
  }

  lemma StartKeepsInv(st: State, id: AttemptId, user: UserId, required: int)
    requires Inv(st) && id !in st.attempts
    ensures Inv(Started(st, id, user, required))
  {
    hide LoginsOk;
    var st' := Started(st, id, user, required);
    assert ProofSum(map[]) == 0;
    SameLogins(st, st');
    forall c | c in st'.calls ensures CallOk(st', c) { assert CallOk(st, c); }
    forall jti | jti in st'.tickets ensures TicketOk(st', jti) { assert TicketOk(st, jti); }
  }

  /** A call that has not finished ends without a ticket; attempts may change in score alone. */
  lemma EndingKeepsInv(st: State, call: CallId, attempts: map<AttemptId, Attempt>)
    requires Inv(st) && call in st.calls && !st.calls[call].Finished?
    requires attempts.Keys == st.attempts.Keys
    requires forall id :: id in attempts ==> AttemptOk(attempts[id])
    requires forall id :: id in attempts ==>
      attempts[id].user == st.attempts[id].user &&
      (attempts[id].status == Consumed <==> st.attempts[id].status == Consumed)
    ensures Inv(st.(attempts := attempts, calls := st.calls[call := Finished(None)]))
  {
    hide AttemptOk, LoginsOk;
    var st' := st.(attempts := attempts, calls := st.calls[call := Finished(None)]);
    SameLogins(st, st');
    forall c | c in st'.calls ensures CallOk(st', c) {
      if c != call { assert CallOk(st, c); }
    }
    forall jti | jti in st'.tickets ensures TicketOk(st', jti) {
      assert TicketOk(st, jti);
    }
  }

  lemma SameLogins(st: State, st': State)
    requires LoginsOk(st) && st'.logins == st.logins && st'.markers == st.markers && st'.tickets == st.tickets
    ensures LoginsOk(st')
  {
  }

  lemma CommitKeepsInv(st: State, call: CallId)
    requires Inv(st) && Enabled(st, CommitProof(call))
    ensures Inv(CommitProofStep(st, call))
  {
    hide AttemptOk, LoginsOk, TicketOk;
    var c := st.calls[call];
    assert CallOk(st, call);
    if c.attempt in st.attempts && c.badgeType !in st.attempts[c.attempt].proofs {
      var a := st.attempts[c.attempt];
      ProvedOk(a, c.badgeType, c.weight);
      EndingKeepsInv(st, call, st.attempts[c.attempt := Proved(a, c.badgeType, c.weight)]);
    } else {
      EndingKeepsInv(st, call, st.attempts);
    }
  }

  lemma ClaimKeepsInv(st: State, call: CallId)
    requires Inv(st) && Enabled(st, Claim(call))
    ensures Inv(ClaimStep(st, call))
  {
    hide LoginsOk, ProofSum;
    var c, st' := st.calls[call], ClaimStep(st, call);
    assert CallOk(st, call);
    if c.attempt in st.attempts && st.attempts[c.attempt].status == Satisfied {
      SameLogins(st, st');
      forall d | d in st'.calls ensures CallOk(st', d) {
        if d != call { assert CallOk(st, d); }
      }
      forall jti | jti in st'.tickets ensures TicketOk(st', jti) {
        assert TicketOk(st, jti);
      }
    } else {
      EndingKeepsInv(st, call, st.attempts);
    }
  }

  lemma IssueKeepsInv(st: State, call: CallId, jti: Jti)
    requires Inv(st) && Enabled(st, Issue(call, jti))
    ensures Inv(IssueStep(st, call, jti))
  {
    hide AttemptOk;
    assert CallOk(st, call);
  }

  lemma VerifyKeepsInv(st: State, jti: Jti)
    requires Inv(st)
    ensures Inv(VerifyStep(st, jti))
  {
    hide AttemptOk;
  }

  lemma CheckKeepsInv(st: State, step: Step)
    requires Inv(st) && Enabled(st, step) && (step.CheckProof? || step.CheckConsume?)
    ensures Inv(Apply(st, step))
  {
    hide AttemptOk, LoginsOk;
    var st' := Apply(st, step);
    SameLogins(st, st');
    forall c | c in st'.calls ensures CallOk(st', c) {
      if c in st.calls { assert CallOk(st, c); }
    }
    forall jti | jti in st'.tickets ensures TicketOk(st', jti) { assert TicketOk(st, jti); }
  }

  lemma QuietKeepsInv(st: State, step: Step)
    requires Inv(st) && Enabled(st, step) && (step.Sweep? || step.Wait?)
    ensures Inv(Apply(st, step))
  {
    hide AttemptOk;
    var st' := Apply(st, step);
    forall c | c in st'.calls ensures CallOk(st', c) { assert CallOk(st, c); }
    forall jti | jti in st'.tickets ensures TicketOk(st', jti) { assert TicketOk(st, jti); }
  }

  lemma StepKeepsInv(st: State, step: Step)
    requires Inv(st) && Enabled(st, step)
    ensures Inv(Apply(st, step))
  {
    hide Inv;
    match step
    case Start(id, user, required) => StartKeepsInv(st, id, user, required);
    case CommitProof(call) => CommitKeepsInv(st, call);
    case Claim(call) => ClaimKeepsInv(st, call);
    case Issue(call, jti) => IssueKeepsInv(st, call, jti);
    case Verify(jti) => VerifyKeepsInv(st, jti);
    case CheckProof(_, _, _, _, _) => CheckKeepsInv(st, step);
    case CheckConsume(_, _) => CheckKeepsInv(st, step);
    case Sweep(_) => QuietKeepsInv(st, step);
    case Wait(_) => QuietKeepsInv(st, step);
  }

  // ---------------------------------------------------------------------------
  // Whole runs
  // ---------------------------------------------------------------------------

  const NOTHING_YET := State(0, map[], {}, map[], map[], map[], [])

  ghost predicate Run(states: seq<State>, steps: seq<Step>) {
    && |states| == |steps| + 1 && states[0] == NOTHING_YET
    && (forall i :: 0 <= i < |steps| ==> Enabled(states[i], steps[i]) && states[i + 1] == Apply(states[i], steps[i]))
  }

  lemma {:induction false} RunKeepsInv(states: seq<State>, steps: seq<Step>, i: nat)
    requires Run(states, steps) && i < |states|
    ensures Inv(states[i])
  {
    if i > 0 {
      RunKeepsInv(states, steps, i - 1);
      StepKeepsInv(states[i - 1], steps[i - 1]);
    }
  }

  /** At every moment of every interleaving, an attempt's score is the summed weight of the distinct
      types proven for it, and it is pending exactly while that sum falls short. */
  lemma ScoreIsProofSum(states: seq<State>, steps: seq<Step>, i: nat, id: AttemptId)
    requires Run(states, steps) && i < |states| && id in states[i].attempts
    ensures var a := states[i].attempts[id];
            && a.score == ProofSum(a.proofs) && a.proofs.Keys <= ELIGIBLE_TYPES
            && (a.required >= 1 ==> (a.status == Pending <==> ProofSum(a.proofs) < a.required))
  {
    RunKeepsInv(states, steps, i);
  }

  /** A caller that asks for a score of zero or less gets an attempt that is pending although its
      empty sum already suffices; that is the only way the equivalence can fail. */
  lemma StartAgreesExactly(st: State, id: AttemptId, user: UserId, required: int)
    requires id !in st.attempts
    ensures var a := Started(st, id, user, required).attempts[id];
            (a.status == Pending <==> ProofSum(a.proofs) < a.required) <==> required >= 1
  {
    assert ProofSum(map[]) == 0;
  }

  /** Such a start: nothing is required, and the attempt waits all the same. */
  lemma NothingRequiredStillPending(st: State, id: AttemptId, user: UserId)
    requires id !in st.attempts
    ensures var a := Started(st, id, user, 0).attempts[id]; a.status == Pending && ProofSum(a.proofs) >= a.required
  {
    StartAgreesExactly(st, id, user, 0);
  }

  /** No attempt ever yields two tickets, and each ticket is for the attempt's own user and stands
      for proofs that reached the requirement. */
  lemma OneTicketPerAttempt(states: seq<State>, steps: seq<Step>, i: nat, j1: Jti, j2: Jti)
    requires Run(states, steps) && i < |states|
    requires j1 in states[i].tickets && j2 in states[i].tickets
    requires states[i].tickets[j1].attempt == states[i].tickets[j2].attempt
    ensures j1 == j2
    ensures var tk := states[i].tickets[j1];
            && tk.attempt in states[i].attempts && states[i].attempts[tk.attempt].user == tk.user
            && var a := states[i].attempts[tk.attempt];
               a.required >= 1 ==> ProofSum(a.proofs) >= a.required
  {
    hide ProofSum;
    RunKeepsInv(states, steps, i);
    assert TicketOk(states[i], j1) && TicketOk(states[i], j2);
    assert AttemptOk(states[i].attempts[states[i].tickets[j1].attempt]);
  }

  /** Over a whole run a ticket authenticates at most once, and only a minted one does. */
  lemma TicketsAuthenticateOnce(states: seq<State>, steps: seq<Step>, i: nat, k: nat, l: nat)
    requires Run(states, steps) && i < |states| && k < l < |states[i].logins|
    ensures states[i].logins[k] != states[i].logins[l]
    ensures states[i].logins[k] in states[i].tickets
  {
    RunKeepsInv(states, steps, i);
  }

  lemma StepKeepsProofs(st: State, step: Step, id: AttemptId)
    requires Enabled(st, step) && id in st.attempts
    ensures id in Apply(st, step).attempts
    ensures var a, b := st.attempts[id], Apply(st, step).attempts[id];
            && a.proofs.Keys <= b.proofs.Keys && (forall t :: t in a.proofs ==> b.proofs[t] == a.proofs[t])
            && a.score <= b.score && a.required == b.required && a.user == b.user && a.expiresAt == b.expiresAt
            && (a.status != Pending ==> b.status != Pending) && (a.status == Consumed ==> b.status == Consumed)
  {
  }

  /** Nothing proven is ever lost or counted again: weights stay, scores only grow, and an attempt
      never goes back to an earlier status. */
  lemma {:induction false} RunKeepsProofs(states: seq<State>, steps: seq<Step>, i: nat, j: nat, id: AttemptId)
    requires Run(states, steps) && i <= j < |states| && id in states[i].attempts
    ensures id in states[j].attempts
    ensures var a, b := states[i].attempts[id], states[j].attempts[id];
            && a.proofs.Keys <= b.proofs.Keys && (forall t :: t in a.proofs ==> b.proofs[t] == a.proofs[t])
            && a.score <= b.score && a.required == b.required && a.user == b.user && a.expiresAt == b.expiresAt
            && (a.status != Pending ==> b.status != Pending) && (a.status == Consumed ==> b.status == Consumed)
    decreases j
  {
    if i < j {
      RunKeepsProofs(states, steps, i, j - 1, id);
      StepKeepsProofs(states[j - 1], steps[j - 1], id);
    }
  }

  // ---------------------------------------------------------------------------
  // The store
  // ---------------------------------------------------------------------------

  datatype ProofResult = Rejected(error: ProofError) | Recorded(score: int, required: int, satisfied: bool)

  /** The tables, with the protocol history kept beside them as ghost state. Each method is one
      atomic action of a call and performs the step of the same name. */
  class RecoveryStore {
    var now: int
    var attempts: map<AttemptId, Attempt>
    var markers: set<Jti>
    ghost var calls: map<CallId, Call>
    ghost var claims: map<AttemptId, CallId>
    ghost var tickets: map<Jti, Ticket>
    ghost var logins: seq<Jti>

    ghost function View(): State
      reads this
    {
      State(now, attempts, markers, calls, claims, tickets, logins)
    }

    constructor ()
      ensures View() == NOTHING_YET
    {
      now, attempts, markers := 0, map[], {};
      calls, claims, tickets, logins := map[], map[], map[], [];
    }

    method StartAttempt(id: AttemptId, user: UserId, required: int)
      requires Enabled(View(), Start(id, user, required))
      modifies this
      ensures View() == Apply(old(View()), Start(id, user, required))
    {
      attempts := attempts[id := Attempt(user, required, 0, Pending, now + ATTEMPT_TTL_MS, map[])];
    }

    /** recordReProof up to its transaction. */
    method BeginReProof(ghost call: CallId, id: AttemptId, t: BadgeType, held: bool, weight: Option<nat>)
      returns (error: Option<ProofError>)
      requires Enabled(View(), CheckProof(call, id, t, held, weight))
      modifies this`calls
      ensures View() == Apply(old(View()), CheckProof(call, id, t, held, weight))
      ensures error == ProofCheck(old(View()), id, t, held, weight)
      ensures error == None <==> calls[call].Proving?
    {
      error := None;
      if id !in attempts { error := Some(AttemptNotFound); }
      else if attempts[id].status != Pending { error := Some(AttemptNotPending); }
      else if attempts[id].expiresAt <= now { error := Some(AttemptExpired); }
      else if t !in ELIGIBLE_TYPES { error := Some(TypeNotEligible); }
      else if !held { error := Some(BadgeNotHeld); }
      else if weight.None? { error := Some(ConfigUnavailable); }
      calls := calls[call := if error == None then Proving(id, t, weight.value) else Finished(None)];
    }

    /** The transaction of recordReProof; the unique proof row is the double-count guard. */
    method FinishReProof(ghost call: CallId, id: AttemptId, t: BadgeType, weight: nat) returns (r: ProofResult)
      requires Enabled(View(), CommitProof(call)) && calls[call] == Proving(id, t, weight) && id in attempts
      modifies this
      ensures View() == Apply(old(View()), CommitProof(call))
      ensures r == if t in old(attempts)[id].proofs then Rejected(AlreadyProven)
                   else Recorded(attempts[id].score, attempts[id].required, attempts[id].score >= attempts[id].required)
    {
      calls := calls[call := Finished(None)];
      var a := attempts[id];
      if t in a.proofs {
        return Rejected(AlreadyProven);
      }
      a := a.(proofs := a.proofs[t := weight]);
      a := a.(score := a.score + weight);
      var satisfied := a.score >= a.required;
      if satisfied && a.status == Pending {
        a := a.(status := Satisfied);
      }
      attempts := attempts[id := a];
      return Recorded(a.score, a.required, satisfied);
    }

    /** consumeSatisfiedAttempt up to its conditional update. */
    method BeginConsume(ghost call: CallId, id: AttemptId) returns (error: Option<ConsumeError>)
      requires Enabled(View(), CheckConsume(call, id))
      modifies this`calls
      ensures View() == Apply(old(View()), CheckConsume(call, id))
      ensures error == ConsumeCheck(old(View()), id)
    {
      error := None;
      if id !in attempts { error := Some(NotFound); }
      else if attempts[id].status == Consumed { error := Some(AlreadyConsumed); }
      else if attempts[id].status != Satisfied { error := Some(NotSatisfied); }
      else if attempts[id].expiresAt <= now { error := Some(Expired); }
      calls := calls[call := if error == None then Claiming(id, attempts[id].user) else Finished(None)];
    }

    /** updateMany where the status is still satisfied: true when this call won the attempt. */
    method ClaimAttempt(ghost call: CallId, id: AttemptId) returns (claimed: bool)
      requires Enabled(View(), Claim(call)) && calls[call].attempt == id
      modifies this
      ensures View() == Apply(old(View()), Claim(call))
      ensures claimed <==> calls[call].Issuing?
    {
      claimed := id in attempts && attempts[id].status == Satisfied;
      if claimed {
        attempts := attempts[id := attempts[id].(status := Consumed)];
        claims := claims[id := call];
        calls := calls[call := Issuing(id, calls[call].user)];
      } else {
        calls := calls[call := Finished(None)];
      }
    }

    method IssueTicket(ghost call: CallId, jti: Jti)
      requires Enabled(View(), Issue(call, jti))
      modifies this
      ensures View() == Apply(old(View()), Issue(call, jti))
      ensures jti in markers
    {
      markers := markers + {jti};
      tickets := tickets[jti := Ticket(calls[call].user, calls[call].attempt, call, now + TICKET_TTL_MS)];
      calls := calls[call := Finished(Some(jti))];
    }

    /** `signed` is the verdict of the signature and expiry check. */
    method VerifyTicket(jti: Jti, signed: bool) returns (ok: bool)
      requires signed <==> jti in tickets && now < tickets[jti].expiresAt
      modifies this
      ensures View() == Apply(old(View()), Verify(jti))
      ensures ok <==> Authenticates(old(View()), jti)
    {
      ok := signed && jti in markers;
      if ok {
        markers := markers - {jti};
        logins := logins + [jti];
      }
    }
  }
}
