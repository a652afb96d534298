/** The lines rows are written as, and why they are what the store's crash theorems ask for. */
module RowLines {
  import opened Wrappers
  import opened Order
  import opened Json
  import opened CacheTypes
  import opened Synthesize
  import opened Store
  import opened Reload
  import opened JsonLines

  // ---- a row as JSON ----

  function ActionTypeName(kind: ActionType): string {
    match kind
    case Navigate => "navigate"
    case Click => "click"
    case Fill => "fill"
    case Select => "select"
    case Check => "check"
    case Uncheck => "uncheck"
    case Press => "press"
    case Hover => "hover"
    case Wait => "wait"
    case Upload => "upload"
    case Custom => "custom"
  }

  function ReasonName(reason: Reason): string {
    match reason
    case TenantLocatorText => "tenant_locator_text"
    case TaintedAttribute => "tainted_attribute"
    case NonVocabRole => "non_vocab_role"
    case LiteralInAssertion => "literal_in_assertion"
    case TopologyOnlyDegraded => "topology_only_degraded"
    case Other => "other"
    case PoolLeakRefused => "pool_leak_refused"
  }

  function TypeField(kind: Option<ActionType>): Option<Json> {
    if kind.Some? then Some(Str(ActionTypeName(kind.value))) else None
  }

  function Strings(s: seq<string>): Json {
    Arr(MapSeq(x => Str(x), s))
  }

  type Pairs = seq<(string, Option<Json>)>

  function ActionPairs(a: Action): Pairs {
    [("type", Some(Str(ActionTypeName(a.kind)))),
     ("param_refs", if a.paramRefs.Some? then Some(Strings(a.paramRefs.value)) else None),
     ("url_template", StrField(a.urlTemplate)), ("key", StrField(a.key)), ("custom_op", StrField(a.customOp)),
     ("wait_ms", if a.waitMs.Some? then Some(Num(a.waitMs.value)) else None),
     ("locator_fallback_chain", Some(Arr(MapSeq(LocatorJson, a.chain))))]
  }

  function ProgramPairs(p: ProgramRef): Pairs {
    [("program_id", Some(Str(p.programId))), ("steps_total", Some(Num(p.stepsTotal))), ("compiled_at", Some(Str(p.compiledAt)))]
  }

  function TopologyPairs(t: FlowTopology): Pairs {
    [("prev_action_type", TypeField(t.prev)), ("next_action_type", TypeField(t.next)), ("landmark", StrField(t.landmark))]
  }

  function ProvenancePairs(p: Provenance): Pairs {
    [("repaired_at", Some(Str(p.repairedAt))), ("run_id", Some(Str(p.runId))), ("repair_attempt", Some(Num(p.attempt))),
     ("replaced_action_type", TypeField(Some(p.replacedType)))]
  }

  function Object<T>(x: Option<T>, pairs: T -> Pairs): Option<Json> {
    if x.Some? then Some(Obj(Present(pairs(x.value)))) else None
  }

  function InvalidationField(i: Invalidation): Option<Json> {
    match i
    case Unset => None
    case Cleared => Some(Null)
    case Since(at) => Some(Str(at))
  }

  function ReasonField(reason: Option<Reason>): Option<Json> {
    Some(if reason.Some? then Str(ReasonName(reason.value)) else Null)
  }

  /** The properties of a row, in the order `finalize` sets them. */
  function RowPairs(row: CacheRow): Pairs {
    var b := row.body;
    [("schema_version", Some(Str(SCHEMA_VERSION))), ("row_id", Some(Str(b.rowId))), ("site_key", Some(Str(b.siteKey))),
     ("task_key", Some(Str(b.taskKey))), ("step_index", Some(Num(b.stepIndex))),
     ("compiled_action", Object(Some(b.action), ActionPairs)), ("assertion", Some(b.assertion)),
     ("confidence", Some(Num(b.confidence))), ("success_count", Some(Num(b.successes))), ("failure_count", Some(Num(b.failures))),
     ("last_verified_at", Some(Str(b.lastVerifiedAt))), ("pool_eligible", Some(Bool(row.poolEligible))),
     ("pool_ineligible_reason", ReasonField(row.reason)), ("flow_topology", Object(b.topology, TopologyPairs)),
     ("program", Object(b.program, ProgramPairs)), ("invalidated_at", InvalidationField(b.invalidated)),
     ("repair_provenance", Object(b.provenance, ProvenancePairs))]
  }

  function RowJson(row: CacheRow): Json {
    Obj(Present(RowPairs(row)))
  }

  // ---- nothing of a row is lost in it ----

  /** Two lists of properties with the same distinct names that make the same object are the same. */
  lemma PairsFromObject(a: Pairs, b: Pairs)
    requires DistinctNames(a) && |a| == |b| && (forall i | 0 <= i < |a| :: a[i].0 == b[i].0) && Present(a) == Present(b)
    ensures a == b
  {
    forall i | 0 <= i < |a| ensures a[i] == b[i] {
      PresentGet(a, i);
      PresentGet(b, i);
    }
  }

  lemma NamesInjective()
    ensures forall a, b | ActionTypeName(a) == ActionTypeName(b) :: a == b
    ensures forall a, b | ReasonName(a) == ReasonName(b) :: a == b
  {
  }

  lemma StringsInjective(a: seq<string>, b: seq<string>)
    requires Strings(a) == Strings(b)
    ensures a == b
  {
    var x, y := Strings(a).items, Strings(b).items;
    forall i | 0 <= i < |a| ensures a[i] == b[i] {
      assert x[i] == Str(a[i]) && y[i] == Str(b[i]);
    }
  }

  lemma ChainInjective(a: seq<Locator>, b: seq<Locator>)
    requires MapSeq(LocatorJson, a) == MapSeq(LocatorJson, b)
    ensures a == b
  {
    forall i | 0 <= i < |a| ensures a[i] == b[i] {
      assert MapSeq(LocatorJson, a)[i] == MapSeq(LocatorJson, b)[i];
      LocatorReadsBack(a[i]);
      LocatorReadsBack(b[i]);
    }
  }

  lemma ActionInjective(a: Action, b: Action)
    requires Present(ActionPairs(a)) == Present(ActionPairs(b))
    ensures a == b
  {
    var x, y := ActionPairs(a), ActionPairs(b);
    PairsFromObject(x, y);
    NamesInjective();
    assert x[0] == y[0] && x[1] == y[1] && x[2] == y[2] && x[3] == y[3] && x[4] == y[4] && x[5] == y[5] && x[6] == y[6];
    if a.paramRefs.Some? && b.paramRefs.Some? {
      StringsInjective(a.paramRefs.value, b.paramRefs.value);
    }
    ChainInjective(a.chain, b.chain);
  }

  lemma ProgramInjective(a: ProgramRef, b: ProgramRef)
    requires Present(ProgramPairs(a)) == Present(ProgramPairs(b))
    ensures a == b
  {
    var x, y := ProgramPairs(a), ProgramPairs(b);
    PairsFromObject(x, y);
    assert x[0] == y[0] && x[1] == y[1] && x[2] == y[2];
  }

  lemma TopologyInjective(a: FlowTopology, b: FlowTopology)
    requires Present(TopologyPairs(a)) == Present(TopologyPairs(b))
    ensures a == b
  {
    var x, y := TopologyPairs(a), TopologyPairs(b);
    PairsFromObject(x, y);
    NamesInjective();
    assert x[0] == y[0] && x[1] == y[1] && x[2] == y[2];
  }

  lemma ProvenanceInjective(a: Provenance, b: Provenance)
    requires Present(ProvenancePairs(a)) == Present(ProvenancePairs(b))
    ensures a == b
  {
    var x, y := ProvenancePairs(a), ProvenancePairs(b);
    PairsFromObject(x, y);
    NamesInjective();
    assert x[0] == y[0] && x[1] == y[1] && x[2] == y[2] && x[3] == y[3];
  }

  /** The parts of a row that are objects themselves. */
  lemma PartsInjective(a: Body, b: Body)
    requires Object(Some(a.action), ActionPairs) == Object(Some(b.action), ActionPairs)
    requires Object(a.topology, TopologyPairs) == Object(b.topology, TopologyPairs)
    requires Object(a.program, ProgramPairs) == Object(b.program, ProgramPairs)
    requires Object(a.provenance, ProvenancePairs) == Object(b.provenance, ProvenancePairs)
    ensures a.action == b.action && a.topology == b.topology && a.program == b.program && a.provenance == b.provenance
  {
    ActionInjective(a.action, b.action);
    if a.topology.Some? && b.topology.Some? {
      TopologyInjective(a.topology.value, b.topology.value);
    }
    if a.program.Some? && b.program.Some? {
      ProgramInjective(a.program.value, b.program.value);
    }
    if a.provenance.Some? && b.provenance.Some? {
      ProvenanceInjective(a.provenance.value, b.provenance.value);
    }
  }

  lemma RowNamesDistinct(row: CacheRow)
    ensures DistinctNames(RowPairs(row))
  {
  }

  lemma PairsDetermineRow(a: CacheRow, b: CacheRow, x: Pairs, y: Pairs)
    requires x == RowPairs(a) && y == RowPairs(b) && forall i | 0 <= i < |x| :: x[i] == y[i]
    ensures a == b
  {
    NamesInjective();
    assert x[1] == y[1] && x[2] == y[2] && x[3] == y[3] && x[4] == y[4] && x[5] == y[5] && x[6] == y[6] && x[7] == y[7];
    assert x[8] == y[8] && x[9] == y[9] && x[10] == y[10] && x[11] == y[11] && x[12] == y[12] && x[13] == y[13];
    assert x[14] == y[14] && x[15] == y[15] && x[16] == y[16];
    PartsInjective(a.body, b.body);
  }

  lemma RowJsonInjective(a: CacheRow, b: CacheRow)
    requires RowJson(a) == RowJson(b)
    ensures a == b
  {
    RowNamesDistinct(a);
    PairsFromObject(RowPairs(a), RowPairs(b));
    PairsDetermineRow(a, b, RowPairs(a), RowPairs(b));
  }

  // ---- the codec ----

  function RowLine(row: CacheRow): string {
    Print(RowJson(row), false, 0)
  }

  /** A reader of these lines and nothing else. */
  ghost function RowOfLine(s: string): Option<CacheRow> {
    if row: CacheRow :| RowLine(row) == s then Some(row) else None
  }

  ghost function JsonCodec(): Codec {
    Codec(RowLine, s => RowOfLine(s))
  }

  lemma RowOfItsLine(row: CacheRow)
    ensures RowOfLine(RowLine(row)) == Some(row)
  {
    var other := RowOfLine(RowLine(row)).value;
    PrintInjective(RowJson(row), RowJson(other), false, 0);
    RowJsonInjective(row, other);
  }

  lemma RowBegins(row: CacheRow)
    ensures PrintsRow(JsonCodec(), RowJson, row)
  {
    assert Present(RowPairs(row))[0] == Field("schema_version", Str(SCHEMA_VERSION));
  }

  /** So the laws the store relies on are met by the rows' own JSON lines. */
  lemma RowLinesSurvive()
    ensures Sound(JsonCodec()) && Unglued(JsonCodec())
  {
    var c := JsonCodec();
    forall row: CacheRow ensures PrintsRow(c, RowJson, row) && c.parse(c.line(row)) == Some(row) {
      RowBegins(row);
      RowOfItsLine(row);
    }
    forall s | c.parse(s).Some? ensures AcceptedScans(s) {
      var row := c.parse(s).value;
      RowBegins(row);
      LineShape(c, RowJson, row);
    }
    JsonLinesAreSound(c, RowJson);
    JsonLinesNeverGlue(c, RowJson);
  }

  // ---- a row's JSON, property by property ----

  const ACTION_TYPES: seq<string> :=
    ["navigate", "click", "fill", "select", "check", "uncheck", "press", "hover", "wait", "upload", "custom"]

  const REASONS: seq<string> :=
    ["tenant_locator_text", "tainted_attribute", "non_vocab_role", "literal_in_assertion", "topology_only_degraded", "other",
     "pool_leak_refused"]

  /** Which name stands for which action and reason, against the lists the schema gives. */
  lemma NamesAre(kind: ActionType, reason: Reason)
    ensures ActionTypeName(kind)
      == ACTION_TYPES[match kind
                      case Navigate => 0 case Click => 1 case Fill => 2 case Select => 3 case Check => 4 case Uncheck => 5
                      case Press => 6 case Hover => 7 case Wait => 8 case Upload => 9 case Custom => 10]
    ensures ReasonName(reason)
      == REASONS[match reason
                 case TenantLocatorText => 0 case TaintedAttribute => 1 case NonVocabRole => 2 case LiteralInAssertion => 3
                 case TopologyOnlyDegraded => 4 case Other => 5 case PoolLeakRefused => 6]
  {
  }

  ghost predicate KeySays(b: Body, j: Json) {
    && StrProp(j, "row_id") == Some(b.rowId) && StrProp(j, "site_key") == Some(b.siteKey) && StrProp(j, "task_key") == Some(b.taskKey)
    && Prop(j, "step_index") == Some(Num(b.stepIndex)) && Prop(j, "assertion") == Some(b.assertion)
    && StrProp(j, "schema_version") == Some("1.0.0")
  }

  ghost predicate RecordSays(row: CacheRow, j: Json) {
    var b := row.body;
    && Prop(j, "confidence") == Some(Num(b.confidence)) && StrProp(j, "last_verified_at") == Some(b.lastVerifiedAt)
    && Prop(j, "success_count") == Some(Num(b.successes)) && Prop(j, "failure_count") == Some(Num(b.failures))
    && Prop(j, "pool_eligible") == Some(Bool(row.poolEligible))
    && Prop(j, "pool_ineligible_reason") == Some(if row.reason.Some? then Str(ReasonName(row.reason.value)) else Null)
    && Prop(j, "invalidated_at")
      == (match b.invalidated case Unset => None case Cleared => Some(Null) case Since(at) => Some(Str(at)))
  }

  ghost predicate ActionSays(a: Action, j: Json) {
    && StrProp(j, "type") == Some(ActionTypeName(a.kind)) && StrProp(j, "url_template") == a.urlTemplate && StrProp(j, "key") == a.key
    && StrProp(j, "custom_op") == a.customOp
    && Prop(j, "wait_ms") == (if a.waitMs.Some? then Some(Num(a.waitMs.value)) else None)
    && Prop(j, "param_refs") == (if a.paramRefs.Some? then Some(Strings(a.paramRefs.value)) else None)
    && Prop(j, "locator_fallback_chain") == Some(Arr(MapSeq(LocatorJson, a.chain)))
  }

  lemma StepIs(row: CacheRow, pairs: Pairs)
    requires pairs == RowPairs(row)
    ensures var b, j := row.body, Obj(Present(pairs));
      && Prop(j, "step_index") == Some(Num(b.stepIndex)) && Prop(j, "assertion") == Some(b.assertion)
      && StrProp(j, "schema_version") == Some("1.0.0")
  {
    RowNamesDistinct(row);
    Lookup(pairs, 0, "schema_version", Some(Str("1.0.0")));
    Lookup(pairs, 4, "step_index", Some(Num(row.body.stepIndex)));
    Lookup(pairs, 6, "assertion", Some(row.body.assertion));
  }

  lemma KeyIs(row: CacheRow, pairs: Pairs)
    requires pairs == RowPairs(row)
    ensures KeySays(row.body, Obj(Present(pairs)))
  {
    var b := row.body;
    StepIs(row, pairs);
    RowNamesDistinct(row);
    Lookup(pairs, 1, "row_id", Some(Str(b.rowId)));
    Lookup(pairs, 2, "site_key", Some(Str(b.siteKey)));
    Lookup(pairs, 3, "task_key", Some(Str(b.taskKey)));
  }

  lemma CountsAre(row: CacheRow, pairs: Pairs)
    requires pairs == RowPairs(row)
    ensures var b, j := row.body, Obj(Present(pairs));
      && Prop(j, "confidence") == Some(Num(b.confidence)) && Prop(j, "success_count") == Some(Num(b.successes))
      && Prop(j, "failure_count") == Some(Num(b.failures))
  {
    RowNamesDistinct(row);
    Lookup(pairs, 7, "confidence", Some(Num(row.body.confidence)));
    Lookup(pairs, 8, "success_count", Some(Num(row.body.successes)));
    Lookup(pairs, 9, "failure_count", Some(Num(row.body.failures)));
  }

  lemma MarkIs(row: CacheRow, pairs: Pairs)
    requires pairs == RowPairs(row)
    ensures StrProp(Obj(Present(pairs)), "last_verified_at") == Some(row.body.lastVerifiedAt)
    ensures Prop(Obj(Present(pairs)), "invalidated_at")
      == (match row.body.invalidated case Unset => None case Cleared => Some(Null) case Since(at) => Some(Str(at)))
  {
    RowNamesDistinct(row);
    Lookup(pairs, 10, "last_verified_at", Some(Str(row.body.lastVerifiedAt)));
    Lookup(pairs, 15, "invalidated_at", InvalidationField(row.body.invalidated));
  }

  lemma EligibilityIs(row: CacheRow, pairs: Pairs)
    requires pairs == RowPairs(row)
    ensures Prop(Obj(Present(pairs)), "pool_eligible") == Some(Bool(row.poolEligible))
    ensures Prop(Obj(Present(pairs)), "pool_ineligible_reason")
      == Some(if row.reason.Some? then Str(ReasonName(row.reason.value)) else Null)
  {
    RowNamesDistinct(row);
    Lookup(pairs, 11, "pool_eligible", Some(Bool(row.poolEligible)));
    Lookup(pairs, 12, "pool_ineligible_reason", ReasonField(row.reason));
  }

  lemma RecordIs(row: CacheRow, pairs: Pairs)
    requires pairs == RowPairs(row)
    ensures RecordSays(row, Obj(Present(pairs)))
  {
    CountsAre(row, pairs);
    MarkIs(row, pairs);
    EligibilityIs(row, pairs);
  }

  lemma ActionNamesDistinct(a: Action)
    ensures DistinctNames(ActionPairs(a))
  {
  }

  lemma ActionIs(a: Action, pairs: Pairs)
    requires pairs == ActionPairs(a)
    ensures ActionSays(a, Obj(Present(pairs)))
  {
    ActionNamesDistinct(a);
    Lookup(pairs, 0, "type", Some(Str(ActionTypeName(a.kind))));
    Lookup(pairs, 1, "param_refs", if a.paramRefs.Some? then Some(Strings(a.paramRefs.value)) else None);
    Lookup(pairs, 2, "url_template", StrField(a.urlTemplate));
    Lookup(pairs, 3, "key", StrField(a.key));
    Lookup(pairs, 4, "custom_op", StrField(a.customOp));
    Lookup(pairs, 5, "wait_ms", if a.waitMs.Some? then Some(Num(a.waitMs.value)) else None);
    Lookup(pairs, 6, "locator_fallback_chain", Some(Arr(MapSeq(LocatorJson, a.chain))));
  }

  ghost predicate ProgramSays(p: Option<ProgramRef>, j: Option<Json>) {
    match p
    case None => j.None?
    case Some(ref) =>
      && j.Some? && StrProp(j.value, "program_id") == Some(ref.programId) && Prop(j.value, "steps_total") == Some(Num(ref.stepsTotal))
      && StrProp(j.value, "compiled_at") == Some(ref.compiledAt)
  }

  ghost predicate PlaceSays(t: Option<FlowTopology>, j: Option<Json>) {
    match t
    case None => j.None?
    case Some(place) =>
      && j.Some? && StrProp(j.value, "landmark") == place.landmark
      && StrProp(j.value, "prev_action_type") == (if place.prev.Some? then Some(ActionTypeName(place.prev.value)) else None)
      && StrProp(j.value, "next_action_type") == (if place.next.Some? then Some(ActionTypeName(place.next.value)) else None)
  }

  ghost predicate RepairSays(p: Option<Provenance>, j: Option<Json>) {
    match p
    case None => j.None?
    case Some(from) =>
      && j.Some? && StrProp(j.value, "repaired_at") == Some(from.repairedAt) && StrProp(j.value, "run_id") == Some(from.runId)
      && Prop(j.value, "repair_attempt") == Some(Num(from.attempt))
      && StrProp(j.value, "replaced_action_type") == Some(ActionTypeName(from.replacedType))
  }

  lemma ProgramIs(p: Option<ProgramRef>)
    ensures ProgramSays(p, Object(p, ProgramPairs))
  {
    if p.Some? {
      var pairs := ProgramPairs(p.value);
      Lookup(pairs, 0, "program_id", Some(Str(p.value.programId)));
      Lookup(pairs, 1, "steps_total", Some(Num(p.value.stepsTotal)));
      Lookup(pairs, 2, "compiled_at", Some(Str(p.value.compiledAt)));
    }
  }

  lemma PlaceIs(t: Option<FlowTopology>)
    ensures PlaceSays(t, Object(t, TopologyPairs))
  {
    if t.Some? {
      var pairs := TopologyPairs(t.value);
      Lookup(pairs, 0, "prev_action_type", TypeField(t.value.prev));
      Lookup(pairs, 1, "next_action_type", TypeField(t.value.next));
      Lookup(pairs, 2, "landmark", StrField(t.value.landmark));
    }
  }

  lemma RepairIs(p: Option<Provenance>)
    ensures RepairSays(p, Object(p, ProvenancePairs))
  {
    if p.Some? {
      var pairs := ProvenancePairs(p.value);
      Lookup(pairs, 0, "repaired_at", Some(Str(p.value.repairedAt)));
      Lookup(pairs, 1, "run_id", Some(Str(p.value.runId)));
      Lookup(pairs, 2, "repair_attempt", Some(Num(p.value.attempt)));
      Lookup(pairs, 3, "replaced_action_type", TypeField(Some(p.value.replacedType)));
    }
  }

  lemma PartsAre(row: CacheRow, pairs: Pairs)
    requires pairs == RowPairs(row)
    ensures var j, b := Obj(Present(pairs)), row.body;
      && Prop(j, "compiled_action") == Object(Some(b.action), ActionPairs)
      && Prop(j, "flow_topology") == Object(b.topology, TopologyPairs)
      && Prop(j, "program") == Object(b.program, ProgramPairs)
      && Prop(j, "repair_provenance") == Object(b.provenance, ProvenancePairs)
  {
    var b := row.body;
    RowNamesDistinct(row);
    Lookup(pairs, 5, "compiled_action", Object(Some(b.action), ActionPairs));
    Lookup(pairs, 13, "flow_topology", Object(b.topology, TopologyPairs));
    Lookup(pairs, 14, "program", Object(b.program, ProgramPairs));
    Lookup(pairs, 16, "repair_provenance", Object(b.provenance, ProvenancePairs));
  }

  ghost predicate RowSays(row: CacheRow, j: Json) {
    && KeySays(row.body, j) && RecordSays(row, j)
    && Prop(j, "compiled_action").Some? && ActionSays(row.body.action, Prop(j, "compiled_action").value)
    && ProgramSays(row.body.program, Prop(j, "program")) && PlaceSays(row.body.topology, Prop(j, "flow_topology"))
    && RepairSays(row.body.provenance, Prop(j, "repair_provenance"))
  }

  lemma RowPartsSay(row: CacheRow, j: Json)
    requires KeySays(row.body, j) && RecordSays(row, j)
    requires Prop(j, "compiled_action") == Object(Some(row.body.action), ActionPairs)
    requires Prop(j, "flow_topology") == Object(row.body.topology, TopologyPairs)
    requires Prop(j, "program") == Object(row.body.program, ProgramPairs)
    requires Prop(j, "repair_provenance") == Object(row.body.provenance, ProvenancePairs)
    ensures RowSays(row, j)
  {
    ActionIs(row.body.action, ActionPairs(row.body.action));
    ProgramIs(row.body.program);
    PlaceIs(row.body.topology);
    RepairIs(row.body.provenance);
  }

  /** Every part of a row stands under its own property name, and an absent part under none. */
  lemma RowJsonSays(row: CacheRow)
    ensures RowSays(row, RowJson(row))
  {
    KeyIs(row, RowPairs(row));
    RecordIs(row, RowPairs(row));
    PartsAre(row, RowPairs(row));
    RowPartsSay(row, RowJson(row));
  }
}
