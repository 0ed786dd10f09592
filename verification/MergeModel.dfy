/**
 The tables an account merge touches, the uniqueness constraints the database keeps on
 them, and, per table, what a merge and its reversal mean. Nothing here is an algorithm:
 module MergeOps holds the statement-by-statement transactions and proves that they
 compute these definitions.
 */
module MergeModel {
  import opened Common

  type UserId = string
  type ClientId = string
  type RowId = string
  type Sub = string

  // ---------------------------------------------------------------------------
  // Tables
  // ---------------------------------------------------------------------------

  /** The session generation, a column of the same row, is kept in State.generation. */
  datatype User = User(isBanned: bool, isAdmin: bool, mergedInto: Option<UserId>)

  /** A row with a (nullable) owner column. */
  datatype Owned<+V> = Owned(owner: Option<UserId>, data: V)

  type Table<K, V> = map<K, Owned<V>>

  /** The id-keyed tables a merge re-points without looking at the rows. */
  datatype PlainTable =
    | Badge | ShareLink | WizardSession | RecoveryCode | RecoveryAttempt
    | AuditLog | Account | Session | OidcClient

  datatype RowKey = RowKey(table: PlainTable, id: RowId)

  datatype Token = Token(client: ClientId, content: string)

  datatype Email = Email(address: string, isPrimary: bool)

  /** A row under a per-user unique: at most one row per (owner, slot). The slot is the
      badge type of an Eligibility and the invite code of an InviteRedemption. */
  datatype Claim<+V> = Claim(slot: string, info: V)

  type ClaimTable<V> = Table<RowId, Claim<V>>

  datatype Eligible = Eligible(eligibleAt: int, fuzzDays: int, source: string)

  datatype GrantFields = GrantFields(
    badgeTypes: seq<string>, badgeIds: seq<string>,
    profileName: bool, profileAvatar: bool, sybilScore: bool)

  datatype Grant = Grant(id: RowId, fields: GrantFields)

  /** OidcGrant and SubjectOverride are addressed by the pair (user, client). */
  type PerClient<X> = map<(UserId, ClientId), X>

  datatype Core = Core(
    users: map<UserId, User>,
    rows: Table<RowKey, string>,
    tokens: Table<RowId, Token>,
    emails: Table<RowId, Email>,
    authenticators: Table<RowId, string>,
    eligibilities: ClaimTable<Eligible>,
    redemptions: ClaimTable<int>,
    grants: PerClient<Grant>,
    overrides: PerClient<Sub>)

  // ---------------------------------------------------------------------------
  // Constraints the database keeps
  // ---------------------------------------------------------------------------

  predicate UniqueSlots<V>(t: ClaimTable<V>) {
    forall i, j :: i in t && j in t && i != j && t[i].owner == t[j].owner ==>
      t[i].data.slot != t[j].data.slot
  }

  predicate UniqueGrantIds(g: PerClient<Grant>) {
    forall k, l :: k in g && l in g && k != l ==> g[k].id != g[l].id
  }

  predicate Constraints(c: Core) {
    UniqueSlots(c.eligibilities) && UniqueSlots(c.redemptions) && UniqueGrantIds(c.grants)
  }

  // ---------------------------------------------------------------------------
  // Owner changes on id-keyed tables
  // ---------------------------------------------------------------------------

  function OwnedBy<K, V>(t: Table<K, V>, u: UserId): set<K> {
    set k | k in t && t[k].owner == Some(u)
  }

  /** updateMany where owner = from. */
  function RePoint<K, V>(t: Table<K, V>, from: UserId, to: UserId): Table<K, V> {
    map k | k in t :: if t[k].owner == Some(from) then Owned(Some(to), t[k].data) else t[k]
  }

  /** updateMany where key in ids. */
  function PointTo<K, V>(t: Table<K, V>, ids: set<K>, to: UserId): Table<K, V> {
    map k | k in t :: if k in ids then Owned(Some(to), t[k].data) else t[k]
  }

  /** updateMany where key in ids and owner = from. */
  function PointFrom<K, V>(t: Table<K, V>, ids: set<K>, from: UserId, to: UserId): Table<K, V> {
    PointTo(t, ids * OwnedBy(t, from), to)
  }

  // ---------------------------------------------------------------------------
  // Owner changes on (user, client)-keyed tables
  // ---------------------------------------------------------------------------

  function ClientsOf<X>(m: PerClient<X>, u: UserId): (r: set<ClientId>)
    ensures forall c :: c in r <==> (u, c) in m
  {
    set k | k in m && k.0 == u :: k.1
  }

  ghost function Pairs(u: UserId, cs: set<ClientId>): (r: set<(UserId, ClientId)>)
    ensures forall v, c :: (v, c) in r <==> v == u && c in cs
  {
    set c | c in cs :: (u, c)
  }

  /** The entries of one user at the given clients now belong to another. */
  ghost function Rekey<X>(m: PerClient<X>, cs: set<ClientId>, from: UserId, to: UserId): (r: PerClient<X>)
    requires from != to
    requires cs <= ClientsOf(m, from)
    ensures forall u, c :: (u, c) in r <==>
      (u == to && c in cs) || ((u, c) in m && !(u == from && c in cs))
    ensures forall u, c :: (u, c) in r ==> r[(u, c)] == if u == to && c in cs then m[(from, c)] else m[(u, c)]
  {
    map k | k in m.Keys + Pairs(to, cs) && !(k.0 == from && k.1 in cs) ::
      if k.0 == to && k.1 in cs then m[(from, k.1)] else m[k]
  }

  /** One user gains an entry per client of `added`. */
  ghost function AddEntries<X>(m: PerClient<X>, u: UserId, added: map<ClientId, X>): (r: PerClient<X>)
    ensures forall v, c :: (v, c) in r <==> (v, c) in m || (v == u && c in added)
    ensures forall v, c :: (v, c) in r ==> r[(v, c)] == if v == u && c in added then added[c] else m[(v, c)]
  {
    map k | k in m.Keys + Pairs(u, added.Keys) ::
      if k.0 == u && k.1 in added then added[k.1] else m[k]
  }

  /** One user loses the entries that still hold exactly the given value. */
  ghost function DropEntries<X>(m: PerClient<X>, u: UserId, dropped: map<ClientId, X>): PerClient<X> {
    map k | k in m && !(k.0 == u && k.1 in dropped && m[k] == dropped[k.1]) :: m[k]
  }

  /** Tables keyed by (user, client) with the same entries are the same. */
  lemma SameEntries<X>(a: PerClient<X>, b: PerClient<X>)
    requires forall u, c :: (u, c) in a <==> (u, c) in b
    requires forall u, c :: (u, c) in a ==> a[(u, c)] == b[(u, c)]
    ensures a == b
  {
    forall k ensures (k in a <==> k in b) && (k in a ==> a[k] == b[k]) {
      assert k == (k.0, k.1);
    }
  }

  // ---------------------------------------------------------------------------
  // Merge, table by table (s absorbs d)
  // ---------------------------------------------------------------------------

  function TokenClients(t: Table<RowId, Token>, u: UserId): set<ClientId> {
    set k | k in t && t[k].owner == Some(u) :: t[k].data.client
  }

  /** Clients at which the survivor already presents a sub. */
  function UsedClients(c: Core, s: UserId): set<ClientId> {
    TokenClients(c.tokens, s) + ClientsOf(c.overrides, s)
  }

  /** A donor's primary addresses move as ordinary ones. */
  function MergedEmails(t: Table<RowId, Email>, s: UserId, d: UserId): Table<RowId, Email> {
    map k | k in t ::
      if t[k].owner == Some(d) then Owned(Some(s), t[k].data.(isPrimary := false)) else t[k]
  }

  function PrimaryEmails(t: Table<RowId, Email>, u: UserId): set<RowId> {
    set k | k in t && t[k].owner == Some(u) && t[k].data.isPrimary
  }

  /** The survivor is eligible for the badge type of row k no later than row k says. */
  ghost predicate LosesToSurvivor(t: ClaimTable<Eligible>, s: UserId, k: RowId)
    requires k in t
  {
    exists j :: j in t && t[j].owner == Some(s) && t[j].data.slot == t[k].data.slot &&
      t[j].data.info.eligibleAt <= t[k].data.info.eligibleAt
  }

  /** One of the given donor rows is for the badge type of row k, and earlier. */
  ghost predicate LosesToDonor(t: ClaimTable<Eligible>, donors: set<RowId>, k: RowId)
    requires k in t
  {
    exists j :: j in t && j in donors && t[j].data.slot == t[k].data.slot &&
      t[j].data.info.eligibleAt < t[k].data.info.eligibleAt
  }

  /** Of two eligibilities for one badge type the later one loses, and on a tie the donor's. */
  ghost predicate LosesEligibility(t: ClaimTable<Eligible>, s: UserId, d: UserId, k: RowId)
    requires k in t
  {
    || (t[k].owner == Some(d) && LosesToSurvivor(t, s, k))
    || (t[k].owner == Some(s) && LosesToDonor(t, OwnedBy(t, d), k))
  }

  ghost function LostEligibilities(t: ClaimTable<Eligible>, s: UserId, d: UserId): (lost: ClaimTable<Eligible>)
    ensures lost.Keys <= t.Keys && (forall k :: k in lost ==> lost[k] == t[k])
  {
    map k | k in t && LosesEligibility(t, s, d, k) :: t[k]
  }

  /** A code both redeemed keeps the survivor's row. */
  ghost predicate LosesRedemption(t: ClaimTable<int>, s: UserId, d: UserId, k: RowId)
    requires k in t
  {
    t[k].owner == Some(d) && exists j ::
      j in t && t[j].owner == Some(s) && t[j].data.slot == t[k].data.slot
  }

  ghost function LostRedemptions(t: ClaimTable<int>, s: UserId, d: UserId): (lost: ClaimTable<int>)
    ensures lost.Keys <= t.Keys && (forall k :: k in lost ==> lost[k] == t[k])
  {
    map k | k in t && LosesRedemption(t, s, d, k) :: t[k]
  }

  /** Delete the losers, then re-point what the donor still owns. */
  ghost function MergedClaims<V>(t: ClaimTable<V>, lost: set<RowId>, s: UserId, d: UserId): ClaimTable<V> {
    RePoint(t - lost, d, s)
  }

  function Dedup(a: seq<string>): seq<string> {
    if a == [] then [] else
      var r := Dedup(a[..|a| - 1]);
      if a[|a| - 1] in r then r else r + [a[|a| - 1]]
  }

  /** unionStrings: first occurrences, in order. */
  function UnionStrings(a: seq<string>, b: seq<string>): seq<string> {
    Dedup(a + b)
  }

  function UnionFields(a: GrantFields, b: GrantFields): GrantFields {
    GrantFields(
      UnionStrings(a.badgeTypes, b.badgeTypes), UnionStrings(a.badgeIds, b.badgeIds),
      a.profileName || b.profileName, a.profileAvatar || b.profileAvatar, a.sybilScore || b.sybilScore)
  }

  /** At a client both used, the survivor's grant absorbs the donor's, which is deleted. */
  ghost function JoinedGrants(g: PerClient<Grant>, s: UserId, d: UserId): PerClient<Grant>
    requires s != d
  {
    map k | k in g && !(k.0 == d && (s, k.1) in g) ::
      if k.0 == s && (d, k.1) in g
      then Grant(g[k].id, UnionFields(g[k].fields, g[(d, k.1)].fields))
      else g[k]
  }

  function MovedGrants(g: PerClient<Grant>, s: UserId, d: UserId): set<ClientId> {
    ClientsOf(g, d) - ClientsOf(g, s)
  }

  /** At a client only the donor used, the donor's grant becomes the survivor's. */
  ghost function MergedGrants(g: PerClient<Grant>, s: UserId, d: UserId): PerClient<Grant>
    requires s != d
  {
    Rekey(JoinedGrants(g, s, d), MovedGrants(g, s, d), d, s)
  }

  /** Overrides of the donor that move: the survivor has none for the client. */
  function MovedOverrides(c: Core, s: UserId, d: UserId): set<ClientId> {
    ClientsOf(c.overrides, d) - ClientsOf(c.overrides, s)
  }

  /** Donor-only clients get an override frozen to the donor's precomputed sub. */
  function CreatedOverrides(c: Core, s: UserId, subs: map<ClientId, Sub>): map<ClientId, Sub> {
    subs - UsedClients(c, s)
  }

  function StrandedClients(c: Core, s: UserId, subs: map<ClientId, Sub>): map<ClientId, Sub> {
    map cl | cl in subs && cl in UsedClients(c, s) :: subs[cl]
  }

  ghost function MergedOverrides(c: Core, s: UserId, d: UserId, subs: map<ClientId, Sub>): PerClient<Sub>
    requires s != d
  {
    AddEntries(Rekey(c.overrides, MovedOverrides(c, s, d), d, s), s, CreatedOverrides(c, s, subs))
  }

  function MergedUsers(users: map<UserId, User>, s: UserId, d: UserId): map<UserId, User>
    requires s in users && d in users
  {
    users[s := users[s].(isBanned := users[s].isBanned || users[d].isBanned)]
         [d := users[d].(mergedInto := Some(s))]
  }

  // ---------------------------------------------------------------------------
  // Merge as a whole
  // ---------------------------------------------------------------------------

  datatype MergeError =
    | SameAccount | SurvivorMissing | DonorMissing | DonorTombstoned | TokenDrift | OverrideExists

  /** The first check that fails, in the order the transaction makes them. */
  ghost function MergeFailure(c: Core, s: UserId, d: UserId, subs: map<ClientId, Sub>): Option<MergeError> {
    if s == d then Some(SameAccount)
    else if s !in c.users then Some(SurvivorMissing)
    else if d !in c.users then Some(DonorMissing)
    else if c.users[d].mergedInto.Some? then Some(DonorTombstoned)
    else if TokenClients(c.tokens, d) != subs.Keys then Some(TokenDrift)
    else if exists cl :: cl in CreatedOverrides(c, s, subs) && (d, cl) in c.overrides then Some(OverrideExists)
    else None
  }

  ghost predicate CanMerge(c: Core, s: UserId, d: UserId, subs: map<ClientId, Sub>) {
    MergeFailure(c, s, d, subs) == None
  }

  ghost function MergedCore(c: Core, s: UserId, d: UserId, subs: map<ClientId, Sub>): Core
    requires s != d && s in c.users && d in c.users
  {
    Core(
      MergedUsers(c.users, s, d),
      RePoint(c.rows, d, s),
      RePoint(c.tokens, d, s),
      MergedEmails(c.emails, s, d),
      RePoint(c.authenticators, d, s),
      MergedClaims(c.eligibilities, LostEligibilities(c.eligibilities, s, d).Keys, s, d),
      MergedClaims(c.redemptions, LostRedemptions(c.redemptions, s, d).Keys, s, d),
      MergedGrants(c.grants, s, d),
      MergedOverrides(c, s, d, subs))
  }

  datatype GrantSplit = GrantSplit(survivorPrev: GrantFields, donorDeleted: Grant)

  /** What a committed merge records; the only input of its reversal. */
  datatype Snapshot = Snapshot(
    survivor: UserId, donor: UserId,
    rows: set<RowKey>, tokens: set<RowId>, emails: set<RowId>, authenticators: set<RowId>,
    eligibilities: set<RowId>, redemptions: set<RowId>,
    grants: set<ClientId>, overrides: set<ClientId>,
    eligibilityDeleted: ClaimTable<Eligible>, redemptionDeleted: ClaimTable<int>,
    grantMerged: map<ClientId, GrantSplit>,
    overridesCreated: map<ClientId, Sub>, stranded: map<ClientId, Sub>,
    demotedPrimary: set<RowId>, survivorWasBanned: bool)

  ghost function GrantSplits(g: PerClient<Grant>, s: UserId, d: UserId): map<ClientId, GrantSplit> {
    map c | c in ClientsOf(g, d) && (s, c) in g :: GrantSplit(g[(s, c)].fields, g[(d, c)])
  }

  ghost function SnapshotOf(c: Core, s: UserId, d: UserId, subs: map<ClientId, Sub>): Snapshot
    requires s in c.users
  {
    var lostE := LostEligibilities(c.eligibilities, s, d);
    var lostR := LostRedemptions(c.redemptions, s, d);
    Snapshot(
      s, d,
      OwnedBy(c.rows, d), OwnedBy(c.tokens, d), OwnedBy(c.emails, d), OwnedBy(c.authenticators, d),
      OwnedBy(c.eligibilities, d) - lostE.Keys, OwnedBy(c.redemptions, d) - lostR.Keys,
      MovedGrants(c.grants, s, d), MovedOverrides(c, s, d),
      lostE, lostR, GrantSplits(c.grants, s, d),
      CreatedOverrides(c, s, subs), StrandedClients(c, s, subs),
      PrimaryEmails(c.emails, d), c.users[s].isBanned)
  }

  // ---------------------------------------------------------------------------
  // Reversal, on whatever the tables hold by then
  // ---------------------------------------------------------------------------

  function ReversedEmails(t: Table<RowId, Email>, snap: Snapshot): Table<RowId, Email> {
    var back := PointTo(t, snap.emails, snap.donor);
    map k | k in back ::
      if k in snap.demotedPrimary then Owned(back[k].owner, back[k].data.(isPrimary := true)) else back[k]
  }

  /** Recreating rows needs their ids and their (owner, slot) pairs to be free. */
  ghost predicate CanRecreate<V>(t: ClaimTable<V>, lost: ClaimTable<V>) {
    t.Keys !! lost.Keys && UniqueSlots(t + lost)
  }

  ghost predicate CanReverseClaims<V>(t: ClaimTable<V>, moved: set<RowId>, lost: ClaimTable<V>, d: UserId) {
    UniqueSlots(PointTo(t, moved, d)) && CanRecreate(PointTo(t, moved, d), lost)
  }

  ghost function ReversedClaims<V>(t: ClaimTable<V>, moved: set<RowId>, lost: ClaimTable<V>, d: UserId): ClaimTable<V> {
    PointTo(t, moved, d) + lost
  }

  /** Entries still with the survivor can go back when the donor's place is free. */
  ghost predicate CanRekey<X>(m: PerClient<X>, cs: set<ClientId>, from: UserId, to: UserId) {
    forall c :: c in cs && (from, c) in m ==> (to, c) !in m
  }

  ghost function RekeyPresent<X>(m: PerClient<X>, cs: set<ClientId>, from: UserId, to: UserId): PerClient<X>
    requires from != to
  {
    Rekey(m, cs * ClientsOf(m, from), from, to)
  }

  /** A union-merged grant falls apart into its two snapshotted sides. */
  ghost function SplitGrants(
    g: PerClient<Grant>, s: UserId, d: UserId, splits: map<ClientId, GrantSplit>): PerClient<Grant> {
    map k | k in g.Keys + Pairs(d, splits.Keys) ::
      if k.0 == d && k.1 in splits then splits[k.1].donorDeleted
      else if k.0 == s && k.1 in splits then Grant(g[k].id, splits[k.1].survivorPrev)
      else g[k]
  }

  ghost predicate CanSplit(g: PerClient<Grant>, s: UserId, d: UserId, splits: map<ClientId, GrantSplit>) {
    (forall c :: c in splits ==> (d, c) !in g) && UniqueGrantIds(SplitGrants(g, s, d, splits))
  }

  function ReversedUsers(users: map<UserId, User>, snap: Snapshot): map<UserId, User>
    requires snap.survivor in users && snap.donor in users
  {
    var u := users[snap.survivor := users[snap.survivor].(isBanned := snap.survivorWasBanned)];
    u[snap.donor := u[snap.donor].(mergedInto := None)]
  }

  /** The donor is still merged into the survivor the snapshot names. */
  predicate StillMerged(c: Core, snap: Snapshot) {
    snap.donor in c.users && c.users[snap.donor].mergedInto == Some(snap.survivor)
  }

  ghost predicate CanReverse(c: Core, snap: Snapshot)
    requires snap.survivor != snap.donor
  {
    && StillMerged(c, snap)
    && snap.survivor in c.users
    && CanReverseClaims(c.redemptions, snap.redemptions, snap.redemptionDeleted, snap.donor)
    && CanReverseClaims(c.eligibilities, snap.eligibilities, snap.eligibilityDeleted, snap.donor)
    && CanRekey(c.overrides, snap.overrides, snap.survivor, snap.donor)
    && CanRekey(c.grants, snap.grants, snap.survivor, snap.donor)
    && CanSplit(RekeyPresent(c.grants, snap.grants, snap.survivor, snap.donor),
                snap.survivor, snap.donor, snap.grantMerged)
  }

  ghost function ReversedCore(c: Core, snap: Snapshot): Core
    requires snap.survivor != snap.donor
    requires CanReverse(c, snap)
  {
    var s, d := snap.survivor, snap.donor;
    Core(
      ReversedUsers(c.users, snap),
      PointTo(c.rows, snap.rows, d),
      PointTo(c.tokens, snap.tokens, d),
      ReversedEmails(c.emails, snap),
      PointFrom(c.authenticators, snap.authenticators, s, d),
      ReversedClaims(c.eligibilities, snap.eligibilities, snap.eligibilityDeleted, d),
      ReversedClaims(c.redemptions, snap.redemptions, snap.redemptionDeleted, d),
      SplitGrants(RekeyPresent(c.grants, snap.grants, s, d), s, d, snap.grantMerged),
      DropEntries(RekeyPresent(c.overrides, snap.overrides, s, d), s, snap.overridesCreated))
  }

  // ---------------------------------------------------------------------------
  // The whole database
  // ---------------------------------------------------------------------------

  datatype MergeRecord = MergeRecord(snapshot: Snapshot, reversibleUntil: int, reversedAt: Option<int>)

  datatype State = State(
    core: Core,
    generation: map<UserId, nat>,
    authCodes: map<RowId, UserId>,
    records: map<RowId, MergeRecord>)

  const MERGE_REVERSAL_MS := 7 * 24 * 60 * 60 * 1000

  ghost predicate ValidState(st: State) {
    && Constraints(st.core)
    && st.generation.Keys == st.core.users.Keys
    && (forall r :: r in st.records ==>
          st.records[r].snapshot.survivor != st.records[r].snapshot.donor)
  }

  /** Both generations go up by one. */
  function Bump(generation: map<UserId, nat>, s: UserId, d: UserId): map<UserId, nat>
    requires s in generation && d in generation && s != d
  {
    generation[s := generation[s] + 1][d := generation[d] + 1]
  }

  ghost function MergedState(
    st: State, s: UserId, d: UserId, subs: map<ClientId, Sub>, now: int, record: RowId): State
    requires ValidState(st) && CanMerge(st.core, s, d, subs)
  {
    State(
      MergedCore(st.core, s, d, subs),
      Bump(st.generation, s, d),
      map k | k in st.authCodes && st.authCodes[k] != d :: st.authCodes[k],
      st.records[record := MergeRecord(SnapshotOf(st.core, s, d, subs), now + MERGE_REVERSAL_MS, None)])
  }

  datatype ReverseError = RecordMissing | AlreadyReversed | WindowPassed | NoLongerMerged | Conflict

  /** The checks on the record, made before the transaction. */
  ghost function LookFailure(st: State, record: RowId, now: int): Option<ReverseError> {
    if record !in st.records then Some(RecordMissing)
    else if st.records[record].reversedAt != None then Some(AlreadyReversed)
    else if st.records[record].reversibleUntil <= now then Some(WindowPassed)
    else None
  }

  /** The checks inside it; none of them looks at the record again. */
  ghost function TxFailure(c: Core, snap: Snapshot): Option<ReverseError>
    requires snap.survivor != snap.donor
  {
    if !StillMerged(c, snap) then Some(NoLongerMerged)
    else if !CanReverse(c, snap) then Some(Conflict)
    else None
  }

  /** A reversal whose look and transaction are not separated by anything. */
  ghost function ReverseFailure(st: State, record: RowId, now: int): Option<ReverseError>
    requires ValidState(st)
  {
    if LookFailure(st, record, now).Some? then LookFailure(st, record, now)
    else TxFailure(st.core, st.records[record].snapshot)
  }

  ghost predicate ReversalCommits(st: State, record: RowId, snap: Snapshot) {
    record in st.records && snap.survivor != snap.donor && TxFailure(st.core, snap) == None
  }

  /** The transaction, for a snapshot read at some earlier time. */
  ghost function ReversedWith(st: State, record: RowId, snap: Snapshot, now: int): State
    requires ValidState(st) && ReversalCommits(st, record, snap)
  {
    State(
      ReversedCore(st.core, snap),
      Bump(st.generation, snap.survivor, snap.donor),
      st.authCodes,
      st.records[record := st.records[record].(reversedAt := Some(now))])
  }

  ghost function ReversedState(st: State, record: RowId, now: int): State
    requires ValidState(st) && ReverseFailure(st, record, now) == None
  {
    ReversedWith(st, record, st.records[record].snapshot, now)
  }
}
