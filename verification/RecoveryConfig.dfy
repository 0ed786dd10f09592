/**
 The recovery configuration and its guardrails. Edits that make recovery harder apply at once;
 edits that make it easier are scheduled 72 hours out. Stated over whole sequences of edits.
 */
module RecoveryConfig {
  import opened Common

  const WEAKEN_DELAY_MS := 72 * 60 * 60 * 1000
  const WEIGHT_MIN := 0
  const WEIGHT_MAX := 100
  const THRESHOLD_MIN := 100
  const THRESHOLD_MAX := 1000
  const ELIGIBLE_TYPES: set<string> := {"oauth-account", "email-domain", "email-exact", "tlsn-attestation"}

  datatype RowKey = RowKey(badgeType: string, qualifier: string)

  datatype WeightRow = WeightRow(weight: int, pending: Option<int>, effectiveAt: Option<int>, allowSolo: bool)

  datatype Threshold = Threshold(value: int, pending: Option<int>, effectiveAt: Option<int>)

  datatype Config = Config(rows: map<RowKey, WeightRow>, threshold: Threshold)

  // ---------------------------------------------------------------------------
  // Guardrails
  // ---------------------------------------------------------------------------

  predicate WeightInBounds(w: int) { WEIGHT_MIN <= w <= WEIGHT_MAX }

  predicate ThresholdInBounds(t: int) { THRESHOLD_MIN <= t <= THRESHOLD_MAX }

  predicate SoloBlocked(weight: int, threshold: int, allowSolo: bool) {
    weight >= threshold && !allowSolo
  }

  /** What a write stores: the value now, or a pending value and its time. */
  datatype Write = Immediate(value: int) | Scheduled(pending: int, effectiveAt: int)

  function PlanWeightWrite(live: int, requested: int, now: int): Write {
    if requested <= live then Immediate(requested) else Scheduled(requested, now + WEAKEN_DELAY_MS)
  }

  function PlanThresholdWrite(live: int, requested: int, now: int): Write {
    if requested >= live then Immediate(requested) else Scheduled(requested, now + WEAKEN_DELAY_MS)
  }

  function EffectiveWeight(row: WeightRow, now: int): int {
    if row.pending.Some? && row.effectiveAt.Some? && row.effectiveAt.value <= now then row.pending.value else row.weight
  }

  function EffectiveThreshold(t: Threshold, now: int): int {
    if t.pending.Some? && t.effectiveAt.Some? && t.effectiveAt.value <= now then t.pending.value else t.value
  }

  /** The highest weight a row may come to carry. */
  function WorstWeight(row: WeightRow): int {
    if row.pending.Some? then Max(row.weight, row.pending.value) else row.weight
  }

  /** The lowest threshold that may come to apply. */
  function WorstThreshold(t: Threshold): int {
    if t.pending.Some? then Min(t.value, t.pending.value) else t.value
  }

  // ---------------------------------------------------------------------------
  // Edits
  // ---------------------------------------------------------------------------

  datatype Edit = SetWeight(key: RowKey, weight: int) | SetSolo(key: RowKey, solo: bool) | SetThreshold(threshold: int)

  function WrittenRow(row: WeightRow, plan: Write): WeightRow {
    match plan
    case Immediate(v) => row.(weight := v, pending := None, effectiveAt := None)
    case Scheduled(p, at) => row.(pending := Some(p), effectiveAt := Some(at))
  }

  function WrittenThreshold(t: Threshold, plan: Write): Threshold {
    match plan
    case Immediate(v) => Threshold(v, None, None)
    case Scheduled(p, at) => t.(pending := Some(p), effectiveAt := Some(at))
  }

  predicate Allowed(cfg: Config, e: Edit) {
    match e
    case SetWeight(k, w) =>
      && k.badgeType in ELIGIBLE_TYPES && WeightInBounds(w) && k in cfg.rows
      && !SoloBlocked(w, WorstThreshold(cfg.threshold), cfg.rows[k].allowSolo)
    case SetSolo(k, solo) =>
      && k in cfg.rows
      && (!solo && cfg.rows[k].allowSolo ==>
            !SoloBlocked(WorstWeight(cfg.rows[k]), WorstThreshold(cfg.threshold), false))
    case SetThreshold(t) =>
      && ThresholdInBounds(t)
      && (forall k :: k in cfg.rows && !cfg.rows[k].allowSolo ==> WorstWeight(cfg.rows[k]) < t)
  }

  /** The edit carried out, allowed or not. */
  function Carried(cfg: Config, e: Edit, now: int): Config
    requires e.SetThreshold? || e.key in cfg.rows
  {
    match e
    case SetWeight(k, w) =>
      cfg.(rows := cfg.rows[k := WrittenRow(cfg.rows[k], PlanWeightWrite(cfg.rows[k].weight, w, now))])
    case SetSolo(k, solo) => cfg.(rows := cfg.rows[k := cfg.rows[k].(allowSolo := solo)])
    case SetThreshold(t) =>
      cfg.(threshold := WrittenThreshold(cfg.threshold, PlanThresholdWrite(cfg.threshold.value, t, now)))
  }

  /** A refused edit changes nothing. */
  function AfterEdit(cfg: Config, e: Edit, now: int): Config {
    if Allowed(cfg, e) then Carried(cfg, e, now) else cfg
  }

  // ---------------------------------------------------------------------------
  // Invariant of every edited configuration
  // ---------------------------------------------------------------------------

  /** Current and pending values are in bounds, a pending value has a time and always weakens, and no row
      without the solo flag could ever suffice alone. */
  ghost predicate Sound(cfg: Config) {
    && (forall k :: k in cfg.rows ==>
          && WeightInBounds(cfg.rows[k].weight)
          && (cfg.rows[k].pending.Some? <==> cfg.rows[k].effectiveAt.Some?)
          && (cfg.rows[k].pending.Some? ==>
                WeightInBounds(cfg.rows[k].pending.value) && cfg.rows[k].pending.value > cfg.rows[k].weight))
    && ThresholdInBounds(cfg.threshold.value)
    && (cfg.threshold.pending.Some? <==> cfg.threshold.effectiveAt.Some?)
    && (cfg.threshold.pending.Some? ==>
          ThresholdInBounds(cfg.threshold.pending.value) && cfg.threshold.pending.value < cfg.threshold.value)
    && (forall k :: k in cfg.rows && !cfg.rows[k].allowSolo ==>
          WorstWeight(cfg.rows[k]) < WorstThreshold(cfg.threshold))
  }

  lemma EditKeepsSound(cfg: Config, e: Edit, now: int)
    requires Sound(cfg)
    ensures Sound(AfterEdit(cfg, e, now))
  {
  }

  /** What Sound comes to, in the bounds written out and in what holds at each moment: weights within 0 and
      100, the threshold within 100 and 1000, and no row without the solo flag ever reaching it alone. */
  lemma SoundMeans(cfg: Config)
    ensures Sound(cfg) <==>
            && (forall k :: k in cfg.rows ==> SoundRow(cfg.rows[k]))
            && 100 <= cfg.threshold.value <= 1000
            && (cfg.threshold.pending.Some? <==> cfg.threshold.effectiveAt.Some?)
            && (cfg.threshold.pending.Some? ==> 100 <= cfg.threshold.pending.value < cfg.threshold.value)
            && (forall k, t :: k in cfg.rows && !cfg.rows[k].allowSolo ==>
                  EffectiveWeight(cfg.rows[k], t) < EffectiveThreshold(cfg.threshold, t))
  {
    if !Sound(cfg) {
      forall k | k in cfg.rows && SoundRow(cfg.rows[k]) && !cfg.rows[k].allowSolo &&
        WorstWeight(cfg.rows[k]) >= WorstThreshold(cfg.threshold) &&
        (cfg.threshold.pending.Some? <==> cfg.threshold.effectiveAt.Some?) &&
        (cfg.threshold.pending.Some? ==> cfg.threshold.pending.value < cfg.threshold.value)
        ensures exists t :: EffectiveWeight(cfg.rows[k], t) >= EffectiveThreshold(cfg.threshold, t)
      {
        var row, th := cfg.rows[k], cfg.threshold;
        var a := if row.effectiveAt.Some? then row.effectiveAt.value else 0;
        var b := if th.effectiveAt.Some? then th.effectiveAt.value else 0;
        assert EffectiveWeight(row, Max(a, b)) >= EffectiveThreshold(th, Max(a, b));
      }
    }
  }

  predicate SoundRow(row: WeightRow) {
    && 0 <= row.weight <= 100 && (row.pending.Some? <==> row.effectiveAt.Some?)
    && (row.pending.Some? ==> row.weight < row.pending.value <= 100)
  }

  /** The edit is of something that exists, and of a type recovery can use. */
  predicate Addressed(cfg: Config, e: Edit) {
    match e
    case SetWeight(k, _) =>
      k in cfg.rows && k.badgeType in {"oauth-account", "email-domain", "email-exact", "tlsn-attestation"}
    case SetSolo(k, _) => k in cfg.rows
    case SetThreshold(_) => true
  }

  /** The guardrails refuse no more than they must: from a sound configuration an edit is refused if and only
      if there is nothing to edit or carrying it out would leave the configuration unsound. */
  lemma RefusedExactly(cfg: Config, e: Edit, now: int)
    requires Sound(cfg)
    ensures Allowed(cfg, e) <==> Addressed(cfg, e) && Sound(Carried(cfg, e, now))
  {
    match e
    case SetWeight(k, w) =>
      if Addressed(cfg, e) {
        var after := Carried(cfg, e, now);
        assert after.rows[k].allowSolo == cfg.rows[k].allowSolo && after.threshold == cfg.threshold;
        assert w > cfg.rows[k].weight ==> after.rows[k].pending == Some(w);
      }
    case SetSolo(k, solo) =>
      if Addressed(cfg, e) {
        var after := Carried(cfg, e, now);
        assert after.rows[k] == cfg.rows[k].(allowSolo := solo);
      }
    case SetThreshold(t) =>
      var after := Carried(cfg, e, now);
      assert WorstThreshold(after.threshold) == t;
      assert after.rows == cfg.rows;
  }

  /** With the solo flag every weight in bounds may be set, enough to recover alone or not; without it none that
      is enough. */
  lemma SoloFlagDecides(cfg: Config, k: RowKey, solo: bool, w: int, now: int)
    requires Sound(cfg) && Allowed(cfg, SetSolo(k, solo)) && 0 <= w <= 100
    requires k.badgeType in {"oauth-account", "email-domain", "email-exact", "tlsn-attestation"}
    ensures var after := AfterEdit(cfg, SetSolo(k, solo), now);
            Allowed(after, SetWeight(k, w)) <==> solo || forall t :: w < EffectiveThreshold(after.threshold, t)
  {
    var after := AfterEdit(cfg, SetSolo(k, solo), now);
    EditKeepsSound(cfg, SetSolo(k, solo), now);
    var th := after.threshold;
    var b := if th.effectiveAt.Some? then th.effectiveAt.value else 0;
    assert EffectiveThreshold(th, b) == WorstThreshold(th);
  }

  /** Whatever the time, a row without the solo flag does not reach the threshold alone. */
  lemma NoSoloRecovery(cfg: Config, k: RowKey, now: int)
    requires Sound(cfg) && k in cfg.rows && !cfg.rows[k].allowSolo
    ensures EffectiveWeight(cfg.rows[k], now) < EffectiveThreshold(cfg.threshold, now)
  {
  }

  // ---------------------------------------------------------------------------
  // The delay
  // ---------------------------------------------------------------------------

  /** The weight of a row at time t; a row that does not exist weighs nothing. */
  ghost function WeightAt(cfg: Config, k: RowKey, t: int): int {
    if k in cfg.rows then EffectiveWeight(cfg.rows[k], t) else 0
  }

  /** Within 72 hours after an edit, weights are no higher and the threshold no lower than they
      would have been without it. */
  lemma EditNeverWeakensSoon(cfg: Config, e: Edit, at: int, t: int, k: RowKey)
    requires Sound(cfg) && at <= t < at + WEAKEN_DELAY_MS
    ensures var cfg' := AfterEdit(cfg, e, at);
            && cfg'.rows.Keys == cfg.rows.Keys
            && WeightAt(cfg', k, t) <= WeightAt(cfg, k, t)
            && EffectiveThreshold(cfg'.threshold, t) >= EffectiveThreshold(cfg.threshold, t)
  {
  }

  /** A history: configs[i + 1] is configs[i] after edits[i], made at times[i]. */
  ghost predicate History(configs: seq<Config>, edits: seq<Edit>, times: seq<int>) {
    && |configs| == |edits| + 1 && |times| == |edits| && Sound(configs[0])
    && (forall i :: 0 <= i < |edits| ==> configs[i + 1] == AfterEdit(configs[i], edits[i], times[i]))
    && (forall i, j :: 0 <= i < j < |times| ==> times[i] <= times[j])
  }

  lemma {:induction false} HistorySound(configs: seq<Config>, edits: seq<Edit>, times: seq<int>, i: nat)
    requires History(configs, edits, times) && i < |configs|
    ensures Sound(configs[i])
  {
    hide Sound, AfterEdit;
    if i > 0 {
      HistorySound(configs, edits, times, i - 1);
      EditKeepsSound(configs[i - 1], edits[i - 1], times[i - 1]);
    }
  }

  /** configs[i] stood at some moment in the 72 hours before t: every later edit, up to the
      configuration in force at t, was made inside that window. */
  ghost predicate StoodRecently(times: seq<int>, i: nat, j: nat, t: int) {
    i <= j <= |times| && (forall m :: i <= m < j ==> times[m] <= t < times[m] + WEAKEN_DELAY_MS)
  }

  /** At any time t, no weight is higher and the threshold is not lower than at t under the
      configuration as it stood at any moment of the previous 72 hours. */
  lemma {:induction false} DelayOverRuns(
    configs: seq<Config>, edits: seq<Edit>, times: seq<int>, i: nat, j: nat, t: int, k: RowKey)
    requires History(configs, edits, times) && StoodRecently(times, i, j, t)
    ensures configs[j].rows.Keys == configs[i].rows.Keys
    ensures WeightAt(configs[j], k, t) <= WeightAt(configs[i], k, t)
    ensures EffectiveThreshold(configs[j].threshold, t) >= EffectiveThreshold(configs[i].threshold, t)
    decreases j
  {
    hide Sound, AfterEdit, WeightAt, EffectiveThreshold;
    if i < j {
      DelayOverRuns(configs, edits, times, i, j - 1, t, k);
      HistorySound(configs, edits, times, j - 1);
      EditNeverWeakensSoon(configs[j - 1], edits[j - 1], times[j - 1], t, k);
    }
  }

  /** Re-proving these rows clears recovery at time t. */
  ghost predicate Clears(cfg: Config, proven: set<RowKey>, t: int) {
    SumOver(proven, k => WeightAt(cfg, k, t)) >= EffectiveThreshold(cfg.threshold, t)
  }

  /** The family of proof sets that clears recovery cannot grow sooner than 72 hours after an edit:
      what clears at t would have cleared at t under every configuration that stood in between. */
  lemma ClearingSetsNeverGrowSoon(
    configs: seq<Config>, edits: seq<Edit>, times: seq<int>, i: nat, j: nat, t: int, proven: set<RowKey>)
    requires History(configs, edits, times) && StoodRecently(times, i, j, t)
    requires Clears(configs[j], proven, t)
    ensures Clears(configs[i], proven, t)
  {
    hide Sound, AfterEdit, WeightAt, EffectiveThreshold;
    DelayOverRuns(configs, edits, times, i, j, t, RowKey("", ""));
    forall k | k in proven ensures WeightAt(configs[j], k, t) <= WeightAt(configs[i], k, t) {
      DelayOverRuns(configs, edits, times, i, j, t, k);
    }
    SumMonotone(proven, k => WeightAt(configs[j], k, t), k => WeightAt(configs[i], k, t));
  }

  /** The delay is exact: an allowed weight increase, left alone, takes effect 72 hours after it was
      made and not a millisecond earlier, and a decrease takes effect at once. */
  lemma WeightEditTiming(cfg: Config, k: RowKey, w: int, at: int, t: int)
    requires Allowed(cfg, SetWeight(k, w)) && at <= t
    ensures EffectiveWeight(AfterEdit(cfg, SetWeight(k, w), at).rows[k], t) ==
            if w <= cfg.rows[k].weight || t >= at + WEAKEN_DELAY_MS then w else cfg.rows[k].weight
  {
  }

  lemma ThresholdEditTiming(cfg: Config, v: int, at: int, t: int)
    requires Allowed(cfg, SetThreshold(v)) && at <= t
    ensures EffectiveThreshold(AfterEdit(cfg, SetThreshold(v), at).threshold, t) ==
            if v >= cfg.threshold.value || t >= at + WEAKEN_DELAY_MS then v else cfg.threshold.value
  {
  }

  /** The value of the edit written outright, with nothing pending in its place. */
  function Outright(cfg: Config, e: Edit): Config
    requires Allowed(cfg, e)
  {
    match e
    case SetWeight(k, w) => cfg.(rows := cfg.rows[k := WrittenRow(cfg.rows[k], Immediate(w))])
    case SetSolo(k, solo) => cfg.(rows := cfg.rows[k := cfg.rows[k].(allowSolo := solo)])
    case SetThreshold(v) => cfg.(threshold := Threshold(v, None, None))
  }

  /** Only what was pending in the place of the edit is gone. */
  function Withdrawn(cfg: Config, e: Edit): Config
    requires Allowed(cfg, e)
  {
    match e
    case SetWeight(k, _) => cfg.(rows := cfg.rows[k := WrittenRow(cfg.rows[k], Immediate(cfg.rows[k].weight))])
    case SetSolo(_, _) => cfg
    case SetThreshold(_) => cfg.(threshold := Threshold(cfg.threshold.value, None, None))
  }

  predicate Weakens(cfg: Config, e: Edit)
    requires Allowed(cfg, e)
  {
    match e
    case SetWeight(k, w) => w > cfg.rows[k].weight
    case SetSolo(_, _) => false
    case SetThreshold(v) => v < cfg.threshold.value
  }

  lemma EditTiming(cfg: Config, e: Edit, at: int, t: int, k: RowKey)
    requires Allowed(cfg, e) && at <= t
    ensures var reached := if Weakens(cfg, e) && t < at + WEAKEN_DELAY_MS then Withdrawn(cfg, e) else Outright(cfg, e);
            && WeightAt(AfterEdit(cfg, e, at), k, t) == WeightAt(reached, k, t)
            && EffectiveThreshold(AfterEdit(cfg, e, at).threshold, t) == EffectiveThreshold(reached.threshold, t)
  {
    match e
    case SetWeight(k', w) => WeightEditTiming(cfg, k', w, at, t);
    case SetThreshold(v) => ThresholdEditTiming(cfg, v, at, t);
    case SetSolo(_, _) =>
  }

  /**
   What an allowed edit, left alone, does to recovery: at once what writing the value outright would do, or
   for an edit that weakens, nothing for 72 hours but to withdraw the pending value it replaces, and exactly
   that from then on. This for every set of re-proved rows.
   */
  lemma EditClearsExactly(cfg: Config, e: Edit, at: int, t: int, proven: set<RowKey>)
    requires Allowed(cfg, e) && at <= t
    ensures Clears(AfterEdit(cfg, e, at), proven, t) <==>
            Clears(if Weakens(cfg, e) && t < at + WEAKEN_DELAY_MS then Withdrawn(cfg, e) else Outright(cfg, e),
                   proven, t)
  {
    hide AfterEdit, WeightAt, EffectiveThreshold, Outright, Withdrawn, Weakens, Allowed;
    var after := AfterEdit(cfg, e, at);
    var reached := if Weakens(cfg, e) && t < at + WEAKEN_DELAY_MS then Withdrawn(cfg, e) else Outright(cfg, e);
    forall k ensures WeightAt(after, k, t) == WeightAt(reached, k, t) { EditTiming(cfg, e, at, t, k); }
    EditTiming(cfg, e, at, t, RowKey("", ""));
    SumCongruent(proven, k => WeightAt(after, k, t), k => WeightAt(reached, k, t));
  }

  /** The 72 hours cannot be lengthened: some edit lets a set clear from the first millisecond after them,
      and not before. */
  lemma DelayIsTight(at: int) returns (cfg: Config, e: Edit, proven: set<RowKey>)
    ensures Sound(cfg) && Allowed(cfg, e)
    ensures forall t :: at <= t ==> (Clears(AfterEdit(cfg, e, at), proven, t) <==> t >= at + WEAKEN_DELAY_MS)
  {
    var k := RowKey("email-exact", "");
    cfg := Config(map[k := WeightRow(50, None, None, true)], Threshold(100, None, None));
    e, proven := SetWeight(k, 100), {k};
    forall t | at <= t ensures Clears(AfterEdit(cfg, e, at), proven, t) <==> t >= at + WEAKEN_DELAY_MS {
      WeightEditTiming(cfg, k, 100, at, t);
      SumPick(proven, x => WeightAt(AfterEdit(cfg, e, at), x, t), k);
    }
  }
}
