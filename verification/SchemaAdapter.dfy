/** Reading rows stored under one schema of a source as rows of another. */
module SchemaAdapter {
  import opened Basics
  import opened JsonPointers
  import opened Schemas

  datatype ColumnPlan =
    | Direct(storedIndex: nat)
    | Historical(remainderIndex: nat, pointer: seq<Token>, kind: LogicalType)
    | NullColumn

  datatype AdapterError = CatalogCorrupt | PlanError

  // ---------- the plan ----------

  /** The first place of a field identity. */
  function Position(fields: seq<Field>, id: nat): (r: Option<nat>)
    ensures r.Some? <==> exists i :: 0 <= i < |fields| && fields[i].id == id
    ensures r.Some? ==>
              r.value < |fields| && fields[r.value].id == id && forall k :: 0 <= k < r.value ==> fields[k].id != id
  {
    if fields == [] then None
    else if fields[0].id == id then Some(0)
    else
      var rest := Position(fields[1..], id);
      assert forall k :: 0 < k < |fields| ==> fields[k] == fields[1..][k - 1];
      if rest.Some? then Some(rest.value + 1) else None
  }

  /** How one field of the active schema is read from rows of the stored schema. */
  function PlanField(field: Field, stored: seq<Field>, remainderIndex: nat): Result<ColumnPlan, AdapterError> {
    var found := Position(stored, field.id);
    if found.Some? then
      if stored[found.value].kind != field.kind || stored[found.value].nullable != field.nullable
        then Failure(CatalogCorrupt)
      else Success(Direct(found.value))
    else if !field.nullable then Failure(CatalogCorrupt)
    else match field.pointer
      case Some(pointer) =>
        if IsUserType(field.kind) then Success(Historical(remainderIndex, pointer, field.kind))
        else Failure(CatalogCorrupt)
      case None => Success(NullColumn)
  }

  /** What a plan for a field says: its own stored column, or else the stored remainder at its pointer, or else
      nulls. */
  predicate Plans(plan: ColumnPlan, field: Field, stored: seq<Field>) {
    if exists i :: 0 <= i < |stored| && stored[i].id == field.id then
      && plan.Direct? && plan.storedIndex < |stored| && stored[plan.storedIndex].id == field.id
      && stored[plan.storedIndex].kind == field.kind && stored[plan.storedIndex].nullable == field.nullable
    else if field.pointer.Some? then
      && plan.Historical? && plan.remainderIndex < |stored| && stored[plan.remainderIndex].id == REMAINDER_ID
      && plan.pointer == field.pointer.value && plan.kind == field.kind
    else plan == NullColumn
  }

  /** No plan can be made: the stored field has another type, or the field is missing and cannot be filled in. */
  ghost predicate Unreadable(field: Field, stored: seq<Field>) {
    if exists i :: 0 <= i < |stored| && stored[i].id == field.id then
      exists i :: IsFirst(i, field.id, stored) && (stored[i].kind != field.kind || stored[i].nullable != field.nullable)
    else !field.nullable || (field.pointer.Some? && (field.kind == Eid || field.kind == JsonType))
  }

  predicate IsFirst(i: int, id: nat, fields: seq<Field>) {
    0 <= i < |fields| && fields[i].id == id && forall k :: 0 <= k < i ==> fields[k].id != id
  }

  /** Planning a field succeeds exactly when it is readable, and then with the plan it should have. */
  lemma PlanFieldMeans(field: Field, stored: seq<Field>, remainderIndex: nat)
    requires remainderIndex < |stored| && stored[remainderIndex].id == REMAINDER_ID
    ensures PlanField(field, stored, remainderIndex).Failure? <==> Unreadable(field, stored)
    ensures PlanField(field, stored, remainderIndex).Success? ==>
              Plans(PlanField(field, stored, remainderIndex).value, field, stored)
  {
    var found := Position(stored, field.id);
    if found.Some? {
      assert IsFirst(found.value, field.id, stored);
    }
  }

  /** The columns of the plan, one for every active field. */
  predicate PlansEach(columns: seq<ColumnPlan>, active: seq<Field>, stored: seq<Field>, remainderIndex: nat) {
    && |columns| == |active|
    && forall i :: 0 <= i < |active| ==> PlanField(active[i], stored, remainderIndex) == Success(columns[i])
  }

  method BuildPlan(active: Schema, stored: Schema) returns (r: Result<seq<ColumnPlan>, AdapterError>)
    ensures r.Success? ==>
              && active.sourceId == stored.sourceId && Position(stored.fields, REMAINDER_ID).Some?
              && PlansEach(r.value, active.fields, stored.fields, Position(stored.fields, REMAINDER_ID).value)
    ensures r.Success? ==>
              |r.value| == |active.fields|
              && forall i :: 0 <= i < |active.fields| ==> Plans(r.value[i], active.fields[i], stored.fields)
    ensures r.Failure? <==>
              || active.sourceId != stored.sourceId
              || (forall i :: 0 <= i < |stored.fields| ==> stored.fields[i].id != REMAINDER_ID)
              || (exists i :: 0 <= i < |active.fields| && Unreadable(active.fields[i], stored.fields))
  {
    hide PlanField, Plans, Unreadable;
    if active.sourceId != stored.sourceId {
      return Failure(CatalogCorrupt);
    }
    var remainder := Position(stored.fields, REMAINDER_ID);
    if remainder.None? {
      return Failure(CatalogCorrupt);
    }
    var columns: seq<ColumnPlan> := [];
    for i := 0 to |active.fields|
      invariant |columns| == i
      invariant forall k :: 0 <= k < i ==>
                  && PlanField(active.fields[k], stored.fields, remainder.value) == Success(columns[k])
                  && Plans(columns[k], active.fields[k], stored.fields) && !Unreadable(active.fields[k], stored.fields)
    {
      PlanFieldMeans(active.fields[i], stored.fields, remainder.value);
      var plan := PlanField(active.fields[i], stored.fields, remainder.value);
      if plan.Failure? {
        return Failure(plan.error);
      }
      columns := columns + [plan.value];
    }
    return Success(columns);
  }

  /** One of two field lists extends the other, whichever was first. */
  predicate Related(a: seq<Field>, b: seq<Field>) {
    Extends(a, b) || Extends(b, a)
  }

  lemma FieldPlace(user: seq<Field>, i: nat)
    requires UserFields(user) && i < |user|
    ensures Position(WithSystemFields(user), user[i].id) == Some(i + 3)
  {
    var fields := WithSystemFields(user);
    assert fields[i + 3] == user[i];
    var found := Position(fields, user[i].id).value;
    assert IsUserField(user[i]);
    assert 3 <= found < |user| + 3 by {
      assert found != |user| + 3;
      assert found > 2;
    }
    assert fields[found] == user[found - 3];
  }

  lemma SystemPlaces(user: seq<Field>)
    requires UserFields(user)
    ensures var fields := WithSystemFields(user);
            && Position(fields, EVENT_TIME_ID) == Some(0) && Position(fields, INGESTION_TIME_ID) == Some(1)
            && Position(fields, EVENT_ID_ID) == Some(2) && Position(fields, REMAINDER_ID) == Some(|user| + 3)
  {
    var fields := WithSystemFields(user);
    assert fields[0].id == EVENT_TIME_ID && fields[1].id == INGESTION_TIME_ID && fields[2].id == EVENT_ID_ID;
    assert fields[|user| + 3].id == REMAINDER_ID;
    forall k | 3 <= k < |user| + 3 ensures !IsSystemId(fields[k].id) {
      assert fields[k] == user[k - 3] && IsUserField(user[k - 3]);
    }
  }

  lemma NoPlace(user: seq<Field>, field: Field)
    requires UserFields(user) && IsUserField(field) && forall i :: 0 <= i < |user| ==> user[i].id != field.id
    ensures Position(WithSystemFields(user), field.id) == None
  {
    var fields := WithSystemFields(user);
    forall k | 0 <= k < |fields| ensures fields[k].id != field.id {
      if 3 <= k < |user| + 3 {
        assert fields[k] == user[k - 3];
      }
    }
  }

  /** Every field of one schema can be read from rows of the other. */
  lemma FieldsPlan(active: seq<Field>, stored: seq<Field>, i: nat)
    requires UserFields(active) && UserFields(stored) && Related(active, stored) && i < |WithSystemFields(active)|
    ensures PlanField(WithSystemFields(active)[i], WithSystemFields(stored), |stored| + 3).Success?
  {
    var all, from := WithSystemFields(active), WithSystemFields(stored);
    hide Position;
    SystemPlaces(stored);
    if 3 <= i < |active| + 3 {
      var k := i - 3;
      assert all[i] == active[k] && IsUserField(active[k]);
      if k < |stored| {
        assert Cores(active)[k] == Cores(stored)[k];
        FieldPlace(stored, k);
        assert from[k + 3] == stored[k];
      } else {
        forall j | 0 <= j < |stored| ensures stored[j].id != active[k].id {
          assert Cores(active)[j] == Cores(stored)[j];
          assert active[j].id != active[k].id;
        }
        NoPlace(stored, active[k]);
      }
    } else {
      assert i < 3 ==> all[i] == SYSTEM_FIELDS[i] && from[i] == SYSTEM_FIELDS[i];
      assert i == |active| + 3 ==> all[i] == REMAINDER_FIELD && from[|stored| + 3] == REMAINDER_FIELD;
    }
  }

  /** Whichever two schemas of a validated source are taken, rows of one can be read as rows of the other. */
  method BuildPlanInHistory(sourceId: nat, activeId: nat, schemas: seq<Schema>, active: nat, stored: nat)
    returns (columns: seq<ColumnPlan>)
    requires HistoryOk(sourceId, activeId, schemas) && active < |schemas| && stored < |schemas|
    requires forall i :: 0 <= i < |schemas| ==> IsSchema(schemas[i])
    ensures Position(schemas[stored].fields, REMAINDER_ID).Some?
    ensures PlansEach(columns, schemas[active].fields, schemas[stored].fields,
                      Position(schemas[stored].fields, REMAINDER_ID).value)
  {
    HistoryPlans(sourceId, activeId, schemas, active, stored);
    hide PlanField, Position, IsSchema, HistoryOk;
    var r := BuildPlan(schemas[active], schemas[stored]);
    columns := r.value;
  }

  lemma HistoryPlans(sourceId: nat, activeId: nat, schemas: seq<Schema>, active: nat, stored: nat)
    requires HistoryOk(sourceId, activeId, schemas) && active < |schemas| && stored < |schemas|
    requires forall i :: 0 <= i < |schemas| ==> IsSchema(schemas[i])
    ensures schemas[active].sourceId == schemas[stored].sourceId
    ensures Position(schemas[stored].fields, REMAINDER_ID).Some?
    ensures forall i :: 0 <= i < |schemas[active].fields| ==>
              PlanField(schemas[active].fields[i], schemas[stored].fields,
                        Position(schemas[stored].fields, REMAINDER_ID).value).Success?
  {
    hide Position, PlanField, DataFields, Extends, Paired;
    SchemaData(schemas[active]);
    SchemaData(schemas[stored]);
    var a, s := DataFields(schemas[active].fields), DataFields(schemas[stored].fields);
    if active <= stored {
      EveryLaterExtends(sourceId, activeId, schemas, active, stored);
    } else {
      EveryLaterExtends(sourceId, activeId, schemas, stored, active);
    }
    SystemPlaces(s);
    forall i | 0 <= i < |schemas[active].fields|
      ensures PlanField(schemas[active].fields[i], schemas[stored].fields, |s| + 3).Success?
    {
      FieldsPlan(a, s, i);
    }
  }

  // ---------- Arrow fields ----------

  datatype ArrowType =
    | ABoolean | AInt32 | AInt64 | AUInt32 | AUInt64 | AFloat32 | AFloat64 | AUtf8 | ATimestamp | AFixedSizeBinary

  /** A field of a stored file: its Arrow type and the metadata that tells the identity and the logical type. */
  datatype ArrowField = ArrowField(name: string, kind: ArrowType, nullable: bool, fieldId: nat,
                                   logicalType: Option<string>)

  function ArrowTypeOf(kind: LogicalType): ArrowType {
    match kind
    case Bool => ABoolean
    case Int32 => AInt32
    case Int64 => AInt64
    case UInt32 => AUInt32
    case UInt64 => AUInt64
    case Float32 => AFloat32
    case Float64 => AFloat64
    case Utf8 => AUtf8
    case JsonType => AUtf8
    case Datetime => ATimestamp
    case Eid => AFixedSizeBinary
  }

  function ToArrow(field: Field): ArrowField {
    ArrowField(field.name, ArrowTypeOf(field.kind), field.nullable, field.id,
               if field.kind == Eid then Some("eid") else if field.kind == JsonType then Some("json") else None)
  }

  /** Arrow fields tell apart everything but descriptions and pointers: JSON is stored as text and told by its metadata,
      and so are event identities. */
  lemma ArrowTells(a: Field, b: Field)
    ensures ToArrow(a) == ToArrow(b) <==>
              a.id == b.id && a.name == b.name && a.kind == b.kind && a.nullable == b.nullable
    ensures ToArrow(a).kind == ToArrow(b).kind <==> a.kind == b.kind || {a.kind, b.kind} == {Utf8, JsonType}
    ensures ToArrow(a).logicalType == Some("json") <==> a.kind == JsonType
    ensures ToArrow(a).logicalType == Some("eid") <==> a.kind == Eid
  {
    assert a.kind != b.kind && {a.kind, b.kind} == {Utf8, JsonType} ==>
        (a.kind == Utf8 && b.kind == JsonType) || (a.kind == JsonType && b.kind == Utf8) by {
      assert a.kind in {a.kind, b.kind} && b.kind in {a.kind, b.kind};
    }
    assert "json" != "eid";
  }

  function ArrowFields(fields: seq<Field>): (arrow: seq<ArrowField>)
    ensures |arrow| == |fields|
  {
    seq(|fields|, i requires 0 <= i < |fields| => ToArrow(fields[i]))
  }

  lemma {:induction false} SamePositions(a: seq<Field>, b: seq<Field>, id: nat)
    requires ArrowFields(a) == ArrowFields(b)
    ensures Position(a, id) == Position(b, id)
  {
    if a != [] {
      assert ArrowFields(a)[0] == ArrowFields(b)[0];
      assert ArrowFields(a)[1..] == ArrowFields(a[1..]) && ArrowFields(b)[1..] == ArrowFields(b[1..]);
      SamePositions(a[1..], b[1..], id);
    }
  }

  /** Files with the same Arrow fields are read the same way, so which of their schemas is found does not matter. */
  lemma EqualArrowEqualPlans(field: Field, a: seq<Field>, b: seq<Field>, remainderIndex: nat)
    requires ArrowFields(a) == ArrowFields(b)
    ensures PlanField(field, a, remainderIndex) == PlanField(field, b, remainderIndex)
    ensures Position(a, REMAINDER_ID) == Position(b, REMAINDER_ID)
  {
    hide Position, ArrowFields;
    SamePositions(a, b, field.id);
    SamePositions(a, b, REMAINDER_ID);
    var found := Position(a, field.id);
    if found.Some? {
      SameField(a, b, found.value);
    }
  }

  lemma SameField(a: seq<Field>, b: seq<Field>, i: nat)
    requires ArrowFields(a) == ArrowFields(b) && i < |a|
    ensures i < |b| && a[i].kind == b[i].kind && a[i].nullable == b[i].nullable
  {
    assert |ArrowFields(a)| == |ArrowFields(b)| && ArrowFields(a)[i] == ArrowFields(b)[i];
  }

  // ---------- mapping batches ----------

  type Column<V> = seq<V>

  /** How one projected column is made from the columns that were read. */
  datatype BatchColumn =
    | FromInput(input: nat)
    | FromRemainder(input: nat, pointer: seq<Token>, kind: LogicalType)
    | AllNull

  /** Where a stored column is among those to read; it is added when it is not there yet. */
  method ProjectionIndex(projection: seq<nat>, stored: nat) returns (index: nat, extended: seq<nat>)
    ensures projection <= extended && index < |extended| && extended[index] == stored
    ensures extended == if stored in projection then projection else projection + [stored]
  {
    for i := 0 to |projection|
      invariant forall k :: 0 <= k < i ==> projection[k] != stored
    {
      if projection[i] == stored {
        return i, projection;
      }
    }
    return |projection|, projection + [stored];
  }

  /** The place of an Arrow field in the active schema. */
  function ActiveIndex(active: seq<ArrowField>, field: ArrowField): (r: Option<nat>)
    ensures r.Some? ==> r.value < |active| && active[r.value] == field
    ensures r.None? ==> field !in active
  {
    if active == [] then None
    else if active[0] == field then Some(0)
    else
      var rest := ActiveIndex(active[1..], field);
      if rest.Some? then Some(rest.value + 1) else None
  }

  /** The batch column does what the plan says, given which stored columns are read. */
  predicate Realizes(mapping: BatchColumn, plan: ColumnPlan, projection: seq<nat>) {
    match plan
    case Direct(index) => mapping.FromInput? && mapping.input < |projection| && projection[mapping.input] == index
    case Historical(index, pointer, kind) =>
      && mapping.FromRemainder? && mapping.input < |projection| && projection[mapping.input] == index
      && mapping.pointer == pointer && mapping.kind == kind
    case NullColumn => mapping.AllNull?
  }

  lemma RealizesMore(mapping: BatchColumn, plan: ColumnPlan, projection: seq<nat>, extended: seq<nat>)
    requires Realizes(mapping, plan, projection) && projection <= extended
    ensures Realizes(mapping, plan, extended)
  {
  }

  predicate ReadsWithin(plan: ColumnPlan, width: nat) {
    (plan.Direct? ==> plan.storedIndex < width) && (plan.Historical? ==> plan.remainderIndex < width)
  }

  /** Plans the reading of some of the active columns from a stored file of `width` columns. */
  method MapSchema(active: seq<ArrowField>, projected: seq<ArrowField>, columns: seq<ColumnPlan>, ghost width: nat)
    returns (r: Result<(seq<BatchColumn>, seq<nat>), AdapterError>)
    requires |columns| == |active| && forall i :: 0 <= i < |columns| ==> ReadsWithin(columns[i], width)
    ensures r.Success? ==> forall i :: 0 <= i < |r.value.1| ==> r.value.1[i] < width
    ensures r.Success? <==> forall i :: 0 <= i < |projected| ==> projected[i] in active
    ensures r.Success? ==>
              && |r.value.0| == |projected|
              && forall i :: 0 <= i < |projected| ==>
                   && ActiveIndex(active, projected[i]).Some?
                   && Realizes(r.value.0[i], columns[ActiveIndex(active, projected[i]).value], r.value.1)
  {
    var projection: seq<nat> := [];
    var mappings: seq<BatchColumn> := [];
    for i := 0 to |projected|
      invariant |mappings| == i && forall k :: 0 <= k < |projection| ==> projection[k] < width
      invariant forall k :: 0 <= k < i ==>
                  && ActiveIndex(active, projected[k]).Some?
                  && Realizes(mappings[k], columns[ActiveIndex(active, projected[k]).value], projection)
    {
      var index := ActiveIndex(active, projected[i]);
      if index.None? {
        return Failure(PlanError);
      }
      var mapping, extended := PlanColumn(columns[index.value], projection, width);
      forall k | 0 <= k < i ensures Realizes(mappings[k], columns[ActiveIndex(active, projected[k]).value], extended) {
        RealizesMore(mappings[k], columns[ActiveIndex(active, projected[k]).value], projection, extended);
      }
      mappings, projection := mappings + [mapping], extended;
    }
    return Success((mappings, projection));
  }

  method PlanColumn(plan: ColumnPlan, projection: seq<nat>, ghost width: nat)
    returns (mapping: BatchColumn, extended: seq<nat>)
    requires ReadsWithin(plan, width) && forall k :: 0 <= k < |projection| ==> projection[k] < width
    ensures forall k :: 0 <= k < |extended| ==> extended[k] < width
    ensures projection <= extended && Realizes(mapping, plan, extended)
  {
    match plan {
      case Direct(stored) =>
        var index, more := ProjectionIndex(projection, stored);
        return FromInput(index), more;
      case Historical(remainder, pointer, kind) =>
        var index, more := ProjectionIndex(projection, remainder);
        return FromRemainder(index, pointer, kind), more;
      case NullColumn =>
        return AllNull, projection;
    }
  }

  /** Reading a value out of stored remainders, and the null column of a type. */
  datatype Converter<!V> = Converter(historical: (Column<V>, seq<Token>, LogicalType) -> Column<V>,
                                     nulls: (LogicalType, nat) -> Column<V>)

  /** The whole adaptation: every active column from a whole stored batch. */
  function Adapt<V>(plan: ColumnPlan, kind: LogicalType, stored: seq<Column<V>>, rows: nat,
                    convert: Converter<V>): Column<V>
    requires ReadsWithin(plan, |stored|)
  {
    match plan
    case Direct(index) => stored[index]
    case Historical(index, pointer, type_) => convert.historical(stored[index], pointer, type_)
    case NullColumn => convert.nulls(kind, rows)
  }

  /** The columns a projection reads. */
  function Read<V>(stored: seq<Column<V>>, projection: seq<nat>): (input: seq<Column<V>>)
    requires forall i :: 0 <= i < |projection| ==> projection[i] < |stored|
    ensures |input| == |projection|
  {
    seq(|projection|, i requires 0 <= i < |projection| => stored[projection[i]])
  }

  /** Makes the projected columns from those that were read. */
  method MapBatch<V>(input: seq<Column<V>>, mappings: seq<BatchColumn>, kinds: seq<LogicalType>, rows: nat,
                     convert: Converter<V>)
    returns (columns: seq<Column<V>>)
    requires |kinds| == |mappings|
    requires forall i :: 0 <= i < |mappings| ==>
               && (mappings[i].FromInput? ==> mappings[i].input < |input|)
               && (mappings[i].FromRemainder? ==> mappings[i].input < |input|)
    ensures |columns| == |mappings|
    ensures forall i :: 0 <= i < |mappings| ==> columns[i] == Made(mappings[i], kinds[i], input, rows, convert)
  {
    columns := [];
    for i := 0 to |mappings|
      invariant |columns| == i
      invariant forall k :: 0 <= k < i ==> columns[k] == Made(mappings[k], kinds[k], input, rows, convert)
    {
      columns := columns + [Made(mappings[i], kinds[i], input, rows, convert)];
    }
  }

  function Made<V>(mapping: BatchColumn, kind: LogicalType, input: seq<Column<V>>, rows: nat,
                   convert: Converter<V>): Column<V>
    requires mapping.FromInput? ==> mapping.input < |input|
    requires mapping.FromRemainder? ==> mapping.input < |input|
  {
    match mapping
    case FromInput(i) => input[i]
    case FromRemainder(i, pointer, type_) => convert.historical(input[i], pointer, type_)
    case AllNull => convert.nulls(kind, rows)
  }

  /** Mapping only what is asked for gives the same columns as adapting everything and picking those. */
  lemma ProjectionCommutes<V>(mapping: BatchColumn, plan: ColumnPlan, kind: LogicalType, projection: seq<nat>,
                              stored: seq<Column<V>>, rows: nat, convert: Converter<V>)
    requires Realizes(mapping, plan, projection) && forall i :: 0 <= i < |projection| ==> projection[i] < |stored|
    ensures ReadsWithin(plan, |stored|)
    ensures Made(mapping, kind, Read(stored, projection), rows, convert) == Adapt(plan, kind, stored, rows, convert)
  {
  }

  /** Reads a projection of a stored batch: the planned columns only, mapped to the active schema. Column by column it
      is what adapting the whole batch would have given. */
  method ReadProjected<V>(active: seq<Field>, projected: seq<ArrowField>, columns: seq<ColumnPlan>,
                          stored: seq<Column<V>>, rows: nat, convert: Converter<V>)
    returns (r: Result<seq<Column<V>>, AdapterError>)
    requires |columns| == |active| && forall i :: 0 <= i < |columns| ==> ReadsWithin(columns[i], |stored|)
    ensures r.Success? <==> forall i :: 0 <= i < |projected| ==> projected[i] in ArrowFields(active)
    ensures r.Success? ==>
              && |r.value| == |projected|
              && forall i :: 0 <= i < |projected| ==>
                   var at := ActiveIndex(ArrowFields(active), projected[i]);
                   at.Some? && r.value[i] == Adapt(columns[at.value], active[at.value].kind, stored, rows, convert)
  {
    hide Adapt, Made;
    var arrow := ArrowFields(active);
    var mapped := MapSchema(arrow, projected, columns, |stored|);
    if mapped.Failure? {
      return Failure(mapped.error);
    }
    var (mappings, projection) := mapped.value;
    var kinds := seq(|projected|, i requires 0 <= i < |projected| =>
      if ActiveIndex(arrow, projected[i]).Some? then active[ActiveIndex(arrow, projected[i]).value].kind else Bool);
    forall i | 0 <= i < |mappings|
      ensures mappings[i].FromInput? ==> mappings[i].input < |projection|
      ensures mappings[i].FromRemainder? ==> mappings[i].input < |projection|
    {
      assert Realizes(mappings[i], columns[ActiveIndex(arrow, projected[i]).value], projection);
    }
    var result := MapBatch(Read(stored, projection), mappings, kinds, rows, convert);
    forall i | 0 <= i < |projected|
      ensures var at := ActiveIndex(arrow, projected[i]);
              at.Some? && result[i] == Adapt(columns[at.value], active[at.value].kind, stored, rows, convert)
    {
      var at := ActiveIndex(arrow, projected[i]).value;
      ProjectionCommutes(mappings[i], columns[at], kinds[i], projection, stored, rows, convert);
    }
    return Success(result);
  }

  /** The plans of a schema read only columns its stored files have. */
  lemma PlansReadWithin(columns: seq<ColumnPlan>, active: seq<Field>, stored: seq<Field>, remainderIndex: nat)
    requires PlansEach(columns, active, stored, remainderIndex) && remainderIndex < |stored|
    ensures forall i :: 0 <= i < |columns| ==> ReadsWithin(columns[i], |stored|)
  {
    hide Position;
    forall i | 0 <= i < |columns| ensures ReadsWithin(columns[i], |stored|) {
      assert PlanField(active[i], stored, remainderIndex) == Success(columns[i]);
    }
  }

  // ---------- reading files of a source ----------

  /** How files of one stored schema, told by its Arrow fields, are read. */
  datatype StoredPlan = StoredPlan(arrow: seq<ArrowField>, columns: seq<ColumnPlan>)

  /** The plan is that of the stored schema. */
  predicate PlanOf(plan: StoredPlan, active: Schema, stored: Schema) {
    && plan.arrow == ArrowFields(stored.fields) && Position(stored.fields, REMAINDER_ID).Some?
    && PlansEach(plan.columns, active.fields, stored.fields, Position(stored.fields, REMAINDER_ID).value)
  }

  /** The plans for every schema of a validated source. */
  method BuildPlans(sourceId: nat, activeId: nat, schemas: seq<Schema>, active: nat) returns (plans: seq<StoredPlan>)
    requires HistoryOk(sourceId, activeId, schemas) && active < |schemas|
    requires forall i :: 0 <= i < |schemas| ==> IsSchema(schemas[i])
    ensures |plans| == |schemas| && forall i :: 0 <= i < |plans| ==> PlanOf(plans[i], schemas[active], schemas[i])
  {
    hide HistoryOk, IsSchema, Position, PlanField;
    plans := [];
    for i := 0 to |schemas|
      invariant |plans| == i && forall k :: 0 <= k < i ==> PlanOf(plans[k], schemas[active], schemas[k])
    {
      var columns := BuildPlanInHistory(sourceId, activeId, schemas, active, i);
      plans := plans + [StoredPlan(ArrowFields(schemas[i].fields), columns)];
    }
  }

  /** The first plan for files with these fields, as long as the table still has the fields that were planned for. */
  method FindPlan(plans: seq<StoredPlan>, active: seq<ArrowField>, table: seq<ArrowField>, file: seq<ArrowField>)
    returns (r: Result<StoredPlan, AdapterError>)
    ensures r.Success? <==> table == active && exists i :: 0 <= i < |plans| && plans[i].arrow == file
    ensures r.Success? ==> r.value in plans && r.value.arrow == file
  {
    if table != active {
      return Failure(PlanError);
    }
    for i := 0 to |plans|
      invariant forall k :: 0 <= k < i ==> plans[k].arrow != file
    {
      if plans[i].arrow == file {
        return Success(plans[i]);
      }
    }
    return Failure(PlanError);
  }

  /** Whichever plan has the fields of the stored schema, its columns are those of the stored schema's own plan. */
  lemma FoundPlanIsItsOwn(plan: StoredPlan, active: Schema, other: Schema, stored: Schema)
    requires PlanOf(plan, active, other) && plan.arrow == ArrowFields(stored.fields)
    ensures PlanOf(plan, active, stored)
  {
    hide Position, PlanField, ArrowFields;
    SamePositions(other.fields, stored.fields, REMAINDER_ID);
    var remainder := Position(other.fields, REMAINDER_ID).value;
    forall i | 0 <= i < |active.fields|
      ensures PlanField(active.fields[i], stored.fields, remainder) == Success(plan.columns[i])
    {
      EqualArrowEqualPlans(active.fields[i], other.fields, stored.fields, remainder);
    }
  }

  /** What a field of the active schema is in a batch of the stored schema: its own column, or else what the remainder
      column has at its pointer, or else nulls. */
  ghost predicate IsAdapted<V(!new)>(
      column: Column<V>, field: Field, stored: Schema, batch: seq<Column<V>>, rows: nat, convert: Converter<V>)
  {
    && (forall i :: 0 <= i < |stored.fields| && stored.fields[i].id == field.id ==>
          i < |batch| && column == batch[i])
    && ((forall i :: 0 <= i < |stored.fields| ==> stored.fields[i].id != field.id) ==>
          if field.pointer.Some? then
            forall r :: 0 <= r < |stored.fields| && stored.fields[r].id == REMAINDER_ID ==>
              r < |batch| && column == convert.historical(batch[r], field.pointer.value, field.kind)
          else column == convert.nulls(field.kind, rows))
  }

  /** No two fields of a schema have the same identity. */
  lemma IdsAreDistinct(schema: Schema, i: nat, j: nat)
    requires IsSchema(schema) && i < |schema.fields| && j < |schema.fields|
             && schema.fields[i].id == schema.fields[j].id
    ensures i == j
  {
    hide Position;
    var user :| UserFields(user) && schema.fields == WithSystemFields(user);
    SystemPlaces(user);
    forall k | 0 <= k < |schema.fields| ensures Position(schema.fields, schema.fields[k].id) == Some(k) {
      if 3 <= k < |user| + 3 {
        assert schema.fields[k] == user[k - 3];
        FieldPlace(user, k - 3);
      }
    }
    assert Some(i) == Position(schema.fields, schema.fields[i].id) == Some(j);
  }

  lemma AdaptedByPlan<V(!new)>(plan: ColumnPlan, field: Field, stored: Schema, batch: seq<Column<V>>, rows: nat,
                               convert: Converter<V>)
    requires IsSchema(stored) && Plans(plan, field, stored.fields) && |batch| == |stored.fields|
    ensures ReadsWithin(plan, |batch|)
    ensures IsAdapted(Adapt(plan, field.kind, batch, rows, convert), field, stored, batch, rows, convert)
  {
    hide IsSchema;
    var fields := stored.fields;
    forall i | 0 <= i < |fields| && fields[i].id == field.id ensures plan == Direct(i) {
      IdsAreDistinct(stored, i, plan.storedIndex);
    }
    if field.pointer.Some? && forall i :: 0 <= i < |fields| ==> fields[i].id != field.id {
      forall r | 0 <= r < |fields| && fields[r].id == REMAINDER_ID ensures plan.remainderIndex == r {
        IdsAreDistinct(stored, r, plan.remainderIndex);
      }
    }
  }

  /** Reads any projection of any schema of a validated source from a batch of any other, whichever plan its Arrow
      fields find first: it succeeds exactly when the table has the active fields and only these are asked for, and
      gives column by column what the stored schema's own adaptation of the whole batch would have given. */
  method ReadInHistory<V(!new)>(sourceId: nat, activeId: nat, schemas: seq<Schema>, active: nat, ghost stored: nat,
                                table: seq<ArrowField>, file: seq<ArrowField>, projected: seq<ArrowField>,
                                batch: seq<Column<V>>, rows: nat, convert: Converter<V>)
    returns (r: Result<seq<Column<V>>, AdapterError>)
    requires HistoryOk(sourceId, activeId, schemas) && active < |schemas| && stored < |schemas|
    requires forall i :: 0 <= i < |schemas| ==> IsSchema(schemas[i])
    requires file == ArrowFields(schemas[stored].fields) && |batch| == |file|
    ensures r.Success? <==>
              && table == ArrowFields(schemas[active].fields)
              && forall i :: 0 <= i < |projected| ==> projected[i] in ArrowFields(schemas[active].fields)
    ensures r.Success? ==>
              && |r.value| == |projected|
              && forall i :: 0 <= i < |projected| ==>
                   var at := ActiveIndex(ArrowFields(schemas[active].fields), projected[i]);
                   && at.Some?
                   && IsAdapted(r.value[i], schemas[active].fields[at.value], schemas[stored], batch, rows, convert)
  {
    hide HistoryOk, IsSchema, Position, PlanField, ActiveIndex, Adapt, ArrowFields, ReadsWithin, IsAdapted, Plans;
    var plans := BuildPlans(sourceId, activeId, schemas, active);
    assert plans[stored].arrow == file;
    var plan := FindPlan(plans, ArrowFields(schemas[active].fields), table, file);
    if plan.Failure? {
      return Failure(plan.error);
    }
    ghost var j :| 0 <= j < |plans| && plans[j] == plan.value;
    FoundPlanIsItsOwn(plan.value, schemas[active], schemas[j], schemas[stored]);
    ghost var remainder := Position(schemas[stored].fields, REMAINDER_ID).value;
    PlansReadWithin(plan.value.columns, schemas[active].fields, schemas[stored].fields, remainder);
    r := ReadProjected(schemas[active].fields, projected, plan.value.columns, batch, rows, convert);
    if r.Success? {
      forall i | 0 <= i < |projected|
        ensures var at := ActiveIndex(ArrowFields(schemas[active].fields), projected[i]);
                && at.Some?
                && IsAdapted(r.value[i], schemas[active].fields[at.value], schemas[stored], batch, rows, convert)
      {
        var at := ActiveIndex(ArrowFields(schemas[active].fields), projected[i]).value;
        PlanFieldMeans(schemas[active].fields[at], schemas[stored].fields, remainder);
        AdaptedByPlan(plan.value.columns[at], schemas[active].fields[at], schemas[stored], batch, rows, convert);
      }
    }
  }
}
