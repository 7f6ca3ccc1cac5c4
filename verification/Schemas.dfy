/** Source schemas and their additive history. */
module Schemas {
  import opened Basics
  import opened JsonPointers

  datatype LogicalType = Bool | Int32 | Int64 | UInt32 | UInt64 | Float32 | Float64 | Utf8 | Datetime | Eid | JsonType

  predicate IsUserType(kind: LogicalType) {
    kind != Eid && kind != JsonType
  }

  datatype FieldRole = EventTimeRole | IngestionTimeRole | EventIdRole | DataRole | RemainderRole

  datatype Field = Field(
    id: nat, name: string, kind: LogicalType, nullable: bool, role: FieldRole, description: Option<string>,
    pointer: Option<seq<Token>>)

  const EVENT_TIME_ID: nat := 1
  const INGESTION_TIME_ID: nat := 2
  const EVENT_ID_ID: nat := 3
  const REMAINDER_ID: nat := 4

  predicate IsSystemId(id: nat) {
    id == EVENT_TIME_ID || id == INGESTION_TIME_ID || id == EVENT_ID_ID || id == REMAINDER_ID
  }

  /** A user field as its constructors admit it: no system identity, a user type, and a historical pointer only when
      nullable. Names of user fields never start with an at sign. */
  predicate IsUserField(field: Field) {
    && !IsSystemId(field.id) && IsUserType(field.kind) && field.role == DataRole
    && (field.pointer.Some? ==> field.nullable) && (field.name != [] ==> field.name[0] != '@')
  }

  const SYSTEM_FIELDS: seq<Field> := [
    Field(EVENT_TIME_ID, "@event_time", Datetime, false, EventTimeRole, None, None),
    Field(INGESTION_TIME_ID, "@ingestion_time", Datetime, false, IngestionTimeRole, None, None),
    Field(EVENT_ID_ID, "@event_id", Eid, false, EventIdRole, None, None)]

  const REMAINDER_FIELD: Field := Field(REMAINDER_ID, "@rest", JsonType, true, RemainderRole, None, None)

  datatype Schema = Schema(id: nat, sourceId: nat, version: nat, fields: seq<Field>)

  datatype CatalogError =
    | DuplicateField | SourceMismatch | VersionsMustIncrease | DuplicateSchema | ActiveSchemaMissing
    | IdentityReused | NameReused | FieldNotPreserved | TypeChanged | NullabilityChanged | PointerChanged
    | AppendedMustBeNullable

  /** The three system fields, the user's fields, and the remainder. */
  function WithSystemFields(user: seq<Field>): seq<Field> {
    SYSTEM_FIELDS + user + [REMAINDER_FIELD]
  }

  predicate DistinctFields(user: seq<Field>) {
    forall a, b :: 0 <= a < b < |user| ==> user[a].id != user[b].id && user[a].name != user[b].name
  }

  predicate UserFields(user: seq<Field>) {
    (forall i :: 0 <= i < |user| ==> IsUserField(user[i])) && DistinctFields(user)
  }

  /** A schema as its constructor builds it. */
  ghost predicate IsSchema(schema: Schema) {
    exists user :: UserFields(user) && schema.fields == WithSystemFields(user)
  }

  /** The three system fields, then distinct fields of the user, then the nullable remainder. */
  predicate HasShape(fields: seq<Field>) {
    && |fields| >= 4
    && fields[0] == Field(1, "@event_time", Datetime, false, EventTimeRole, None, None)
    && fields[1] == Field(2, "@ingestion_time", Datetime, false, IngestionTimeRole, None, None)
    && fields[2] == Field(3, "@event_id", Eid, false, EventIdRole, None, None)
    && fields[|fields| - 1] == Field(4, "@rest", JsonType, true, RemainderRole, None, None)
    && (forall i :: 3 <= i < |fields| - 1 ==>
          && fields[i].id !in {1, 2, 3, 4} && fields[i].kind != Eid && fields[i].kind != JsonType
          && fields[i].role == DataRole && (fields[i].pointer.Some? ==> fields[i].nullable)
          && !("@" <= fields[i].name))
    && forall a, b :: 3 <= a < b < |fields| - 1 ==> fields[a].id != fields[b].id && fields[a].name != fields[b].name
  }

  lemma SchemaShape(schema: Schema)
    ensures IsSchema(schema) <==> HasShape(schema.fields)
  {
    var fields := schema.fields;
    if user :| UserFields(user) && fields == WithSystemFields(user) {
      assert |fields| == |user| + 4 && forall i :: 3 <= i < |fields| - 1 ==> fields[i] == user[i - 3];
      assert fields[0] == SYSTEM_FIELDS[0] && fields[1] == SYSTEM_FIELDS[1] && fields[2] == SYSTEM_FIELDS[2];
    }
    if HasShape(fields) {
      var user := fields[3..|fields| - 1];
      assert forall i :: 0 <= i < |user| ==> user[i] == fields[i + 3];
      assert fields == WithSystemFields(user);
    }
  }

  method CheckUnique(user: seq<Field>) returns (r: Result<(), CatalogError>)
    ensures r.Success? <==> DistinctFields(user)
  {
    var ids: set<nat>, names: set<string> := {}, {};
    for i := 0 to |user|
      invariant forall id :: id in ids <==> exists k :: 0 <= k < i && user[k].id == id
      invariant forall name :: name in names <==> exists k :: 0 <= k < i && user[k].name == name
      invariant forall a, b :: 0 <= a < b < i ==> user[a].id != user[b].id && user[a].name != user[b].name
    {
      if user[i].id in ids || user[i].name in names {
        return Failure(DuplicateField);
      }
      ids, names := ids + {user[i].id}, names + {user[i].name};
    }
    return Success(());
  }

  method NewSchema(id: nat, sourceId: nat, version: nat, user: seq<Field>) returns (r: Result<Schema, CatalogError>)
    requires forall i :: 0 <= i < |user| ==> IsUserField(user[i])
    ensures r.Success? <==> DistinctFields(user)
    ensures r.Success? ==> IsSchema(r.value) && DataFields(r.value.fields) == user
    ensures r.Success? ==> r.value.id == id && r.value.sourceId == sourceId && r.value.version == version
  {
    var unique := CheckUnique(user);
    if unique.Failure? {
      return Failure(unique.error);
    }
    DataOfSchema(user);
    return Success(Schema(id, sourceId, version, WithSystemFields(user)));
  }

  /** The fields of a schema that are the user's. */
  function DataFields(fields: seq<Field>): seq<Field> {
    if fields == [] then []
    else if fields[0].role == DataRole then [fields[0]] + DataFields(fields[1..])
    else DataFields(fields[1..])
  }

  lemma {:induction false} DataOfUser(user: seq<Field>)
    requires forall i :: 0 <= i < |user| ==> user[i].role == DataRole
    ensures DataFields(user + [REMAINDER_FIELD]) == user
  {
    if user == [] {
      assert user + [REMAINDER_FIELD] == [REMAINDER_FIELD] && [REMAINDER_FIELD][1..] == [];
    } else {
      DataOfUser(user[1..]);
      assert (user + [REMAINDER_FIELD])[1..] == user[1..] + [REMAINDER_FIELD];
      assert user == [user[0]] + user[1..];
    }
  }

  lemma DataOfSchema(user: seq<Field>)
    requires forall i :: 0 <= i < |user| ==> IsUserField(user[i])
    ensures DataFields(WithSystemFields(user)) == user
  {
    DataOfUser(user);
    var all := WithSystemFields(user);
    assert all[1..][1..][1..] == user + [REMAINDER_FIELD];
    assert DataFields(all) == DataFields(all[1..]) == DataFields(all[1..][1..]) == DataFields(all[1..][1..][1..]);
  }

  lemma SchemaData(schema: Schema)
    requires IsSchema(schema)
    ensures UserFields(DataFields(schema.fields)) && schema.fields == WithSystemFields(DataFields(schema.fields))
  {
    var user :| UserFields(user) && schema.fields == WithSystemFields(user);
    DataOfSchema(user);
  }

  // ---------- additive evolution ----------

  /** Everything about a field that history must keep; descriptions may change. */
  datatype Core = Core(id: nat, name: string, kind: LogicalType, nullable: bool, pointer: Option<seq<Token>>)

  function CoreOf(field: Field): Core {
    Core(field.id, field.name, field.kind, field.nullable, field.pointer)
  }

  function Cores(fields: seq<Field>): (cores: seq<Core>)
    ensures |cores| == |fields|
  {
    seq(|fields|, i requires 0 <= i < |fields| => CoreOf(fields[i]))
  }

  /** The later fields begin with the earlier ones, and what they add may be null. */
  predicate Extends(earlier: seq<Field>, later: seq<Field>) {
    && Cores(earlier) <= Cores(later)
    && forall i :: |earlier| <= i < |later| ==> later[i].nullable
  }

  /** The first place where the later fields do not go on from the earlier ones, and what is wrong there. */
  ghost predicate ChangedAt(earlier: seq<Field>, later: seq<Field>, i: nat, error: CatalogError) {
    && (forall k :: 0 <= k < i && k < |earlier| ==> k < |later| && CoreOf(earlier[k]) == CoreOf(later[k]))
    && if i < |earlier| then
         if i >= |later| || earlier[i].id != later[i].id || earlier[i].name != later[i].name then
           error == FieldNotPreserved
         else if earlier[i].kind != later[i].kind then error == TypeChanged
         else if earlier[i].nullable != later[i].nullable then error == NullabilityChanged
         else earlier[i].pointer != later[i].pointer && error == PointerChanged
       else i < |later| && !later[i].nullable && error == AppendedMustBeNullable
  }

  ghost predicate Changed(earlier: seq<Field>, later: seq<Field>, error: CatalogError) {
    exists i :: ChangedAt(earlier, later, i, error)
  }

  method ValidateAdditive(earlier: Schema, later: Schema) returns (r: Result<(), CatalogError>)
    ensures r.Success? <==> Extends(DataFields(earlier.fields), DataFields(later.fields))
    ensures r.Failure? ==> Changed(DataFields(earlier.fields), DataFields(later.fields), r.error)
  {
    var before, after := DataFields(earlier.fields), DataFields(later.fields);
    var next := 0;
    for i := 0 to |before|
      invariant next == i && i <= |after|
      invariant forall k :: 0 <= k < i ==> CoreOf(before[k]) == CoreOf(after[k])
    {
      if next >= |after| {
        assert ChangedAt(before, after, i, FieldNotPreserved);
        return Failure(FieldNotPreserved);
      }
      var kept, now := before[i], after[next];
      next := next + 1;
      assert Cores(before)[i] == CoreOf(kept) && Cores(after)[i] == CoreOf(now);
      if kept.id != now.id || kept.name != now.name {
        assert ChangedAt(before, after, i, FieldNotPreserved);
        return Failure(FieldNotPreserved);
      }
      if kept.kind != now.kind {
        assert ChangedAt(before, after, i, TypeChanged);
        return Failure(TypeChanged);
      }
      if kept.nullable != now.nullable {
        assert ChangedAt(before, after, i, NullabilityChanged);
        return Failure(NullabilityChanged);
      }
      if kept.pointer != now.pointer {
        assert ChangedAt(before, after, i, PointerChanged);
        return Failure(PointerChanged);
      }
    }
    while next < |after|
      invariant |before| <= next <= |after|
      invariant forall k :: 0 <= k < |before| ==> CoreOf(before[k]) == CoreOf(after[k])
      invariant forall i :: |before| <= i < next ==> after[i].nullable
    {
      if !after[next].nullable {
        assert ChangedAt(before, after, next, AppendedMustBeNullable);
        return Failure(AppendedMustBeNullable);
      }
      next := next + 1;
    }
    return Success(());
  }

  lemma ExtendsTransitive(a: seq<Field>, b: seq<Field>, c: seq<Field>)
    requires Extends(a, b) && Extends(b, c)
    ensures Extends(a, c)
  {
    forall i | |a| <= i < |c| ensures c[i].nullable {
      if i < |b| {
        assert Cores(b)[i] == Cores(c)[i] && b[i].nullable;
      }
    }
  }

  lemma ExtendsItself(a: seq<Field>)
    ensures Extends(a, a)
  {
  }

  // ---------- identities and names over a history ----------

  /** Identities and names belong together one to one. */
  predicate Paired(fields: seq<Field>) {
    forall a, b :: 0 <= a < |fields| && 0 <= b < |fields| ==>
        (fields[a].id == fields[b].id <==> fields[a].name == fields[b].name)
  }

  /** The data fields of all the schemas, in order. */
  function AllData(schemas: seq<Schema>): seq<Field> {
    if schemas == [] then [] else AllData(schemas[..|schemas| - 1]) + DataFields(schemas[|schemas| - 1].fields)
  }

  /** What the two indexes hold after the given fields. */
  ghost predicate Indexes(names: map<nat, string>, ids: map<string, nat>, fields: seq<Field>) {
    && (forall i :: 0 <= i < |fields| ==>
          && fields[i].id in names && names[fields[i].id] == fields[i].name
          && fields[i].name in ids && ids[fields[i].name] == fields[i].id)
    && (forall id :: id in names ==> exists i :: 0 <= i < |fields| && fields[i].id == id)
    && (forall name :: name in ids ==> exists i :: 0 <= i < |fields| && fields[i].name == name)
  }

  /** Enters the data fields of one schema, refusing an identity or a name that means something else already. */
  method EnterFields(fields: seq<Field>, names: map<nat, string>, ids: map<string, nat>, ghost before: seq<Field>)
    returns (r: Result<(map<nat, string>, map<string, nat>), CatalogError>)
    requires Indexes(names, ids, before)
    ensures r.Success? <==> Paired(before + fields)
    ensures r.Success? ==> Indexes(r.value.0, r.value.1, before + fields)
    ensures r.Failure? ==> Clashes(before + fields, r.error)
  {
    hide Indexes, Paired, Clashes;
    var newNames: map<nat, string>, newIds: map<string, nat> := names, ids;
    assert before + fields[..0] == before;
    IndexedArePaired(names, ids, before);
    for i := 0 to |fields|
      invariant Indexes(newNames, newIds, before + fields[..i]) && Paired(before + fields[..i])
    {
      var field := fields[i];
      ghost var seen := before + fields[..i];
      assert before + fields[..i + 1] == seen + [field];
      assert seen + [field] <= before + fields by { assert fields[..i + 1] <= fields; }
      if field.id in newNames && newNames[field.id] != field.name {
        IdentityClash(newNames, newIds, seen, before + fields, field);
        return Failure(IdentityReused);
      }
      if field.name in newIds && newIds[field.name] != field.id {
        NameClash(newNames, newIds, seen, before + fields, field);
        return Failure(NameReused);
      }
      EnterOne(newNames, newIds, seen, field);
      newNames := newNames[field.id := field.name];
      newIds := newIds[field.name := field.id];
      IndexedArePaired(newNames, newIds, seen + [field]);
    }
    assert fields[..|fields|] == fields;
    return Success((newNames, newIds));
  }

  lemma IndexedArePaired(names: map<nat, string>, ids: map<string, nat>, fields: seq<Field>)
    requires Indexes(names, ids, fields)
    ensures Paired(fields)
  {
  }

  /** A field that clashes with one of the fields before it. */
  lemma Clash(seen: seq<Field>, all: seq<Field>, field: Field)
    requires seen + [field] <= all
    requires exists i :: 0 <= i < |seen| && (seen[i].id == field.id) != (seen[i].name == field.name)
    ensures !Paired(all)
  {
    var i :| 0 <= i < |seen| && (seen[i].id == field.id) != (seen[i].name == field.name);
    assert all[i] == seen[i] && all[|seen|] == field;
  }

  /** One identity has two names, or one name two identities. */
  ghost predicate Clashes(fields: seq<Field>, error: CatalogError) {
    match error
    case IdentityReused =>
      exists a, b :: 0 <= a < b < |fields| && fields[a].id == fields[b].id && fields[a].name != fields[b].name
    case NameReused =>
      exists a, b :: 0 <= a < b < |fields| && fields[a].name == fields[b].name && fields[a].id != fields[b].id
    case _ => false
  }

  lemma IdentityClash(names: map<nat, string>, ids: map<string, nat>, seen: seq<Field>, all: seq<Field>, field: Field)
    requires Indexes(names, ids, seen) && seen + [field] <= all && field.id in names && names[field.id] != field.name
    ensures !Paired(all) && Clashes(all, IdentityReused)
  {
    Clash(seen, all, field);
    var i :| 0 <= i < |seen| && seen[i].id == field.id;
    assert all[i] == seen[i] && all[|seen|] == field;
  }

  lemma NameClash(names: map<nat, string>, ids: map<string, nat>, seen: seq<Field>, all: seq<Field>, field: Field)
    requires Indexes(names, ids, seen) && seen + [field] <= all && field.name in ids && ids[field.name] != field.id
    ensures !Paired(all) && Clashes(all, NameReused)
  {
    Clash(seen, all, field);
    var i :| 0 <= i < |seen| && seen[i].name == field.name;
    assert all[i] == seen[i] && all[|seen|] == field;
  }

  lemma EnterOne(names: map<nat, string>, ids: map<string, nat>, seen: seq<Field>, field: Field)
    requires Indexes(names, ids, seen)
    requires field.id in names ==> names[field.id] == field.name
    requires field.name in ids ==> ids[field.name] == field.id
    ensures Indexes(names[field.id := field.name], ids[field.name := field.id], seen + [field])
  {
    var all := seen + [field];
    var names', ids' := names[field.id := field.name], ids[field.name := field.id];
    forall i | 0 <= i < |all|
      ensures all[i].id in names' && names'[all[i].id] == all[i].name && all[i].name in ids'
              && ids'[all[i].name] == all[i].id
    {
      if i < |seen| {
        assert all[i] == seen[i];
      }
    }
    forall id | id in names' ensures exists i :: 0 <= i < |all| && all[i].id == id {
      if id == field.id {
        assert all[|seen|].id == id;
      } else {
        var i :| 0 <= i < |seen| && seen[i].id == id;
        assert all[i].id == id;
      }
    }
    forall name | name in ids' ensures exists i :: 0 <= i < |all| && all[i].name == name {
      if name == field.name {
        assert all[|seen|].name == name;
      } else {
        var i :| 0 <= i < |seen| && seen[i].name == name;
        assert all[i].name == name;
      }
    }
  }

  // ---------- histories ----------

  /** What a validated source promises of its schemas. */
  predicate HistoryOk(sourceId: nat, activeId: nat, schemas: seq<Schema>) {
    && (forall i :: 0 <= i < |schemas| ==> schemas[i].sourceId == sourceId)
    && (forall i, j :: 0 <= i < j < |schemas| ==>
        schemas[i].version < schemas[j].version && schemas[i].id != schemas[j].id)
    && Paired(AllData(schemas))
    && (forall i :: 0 <= i < |schemas| - 1 ==>
        Extends(DataFields(schemas[i].fields), DataFields(schemas[i + 1].fields)))
    && (exists i :: 0 <= i < |schemas| && schemas[i].id == activeId)
  }

  /** What the first pass over the schemas checks. */
  predicate ListedOk(sourceId: nat, schemas: seq<Schema>) {
    && (forall i :: 0 <= i < |schemas| ==> schemas[i].sourceId == sourceId)
    && (forall i, j :: 0 <= i < j < |schemas| ==>
        schemas[i].version < schemas[j].version && schemas[i].id != schemas[j].id)
    && Paired(AllData(schemas))
  }

  lemma AllDataSnoc(schemas: seq<Schema>, n: nat)
    requires n < |schemas|
    ensures AllData(schemas[..n + 1]) == AllData(schemas[..n]) + DataFields(schemas[n].fields)
  {
    TakeSnoc(schemas, n + 1);
  }

  lemma {:induction false} AllDataPrefix(schemas: seq<Schema>, n: nat)
    requires n <= |schemas|
    ensures AllData(schemas[..n]) <= AllData(schemas)
    decreases |schemas|
  {
    if n == |schemas| {
      assert schemas[..n] == schemas;
    } else {
      AllDataPrefix(schemas[..|schemas| - 1], n);
      assert schemas[..|schemas| - 1][..n] == schemas[..n];
    }
  }

  lemma PairedPrefix(a: seq<Field>, b: seq<Field>)
    requires a <= b && Paired(b)
    ensures Paired(a)
  {
    forall i, j | 0 <= i < |a| && 0 <= j < |a| ensures a[i].id == a[j].id <==> a[i].name == a[j].name {
      assert a[i] == b[i] && a[j] == b[j];
    }
  }

  /** One pass over the schemas: their source, versions, identities, and the meaning of field identities and names. */
  method ListSchemas(sourceId: nat, activeId: nat, schemas: seq<Schema>) returns (r: Result<Option<nat>, CatalogError>)
    ensures r.Success? <==> ListedOk(sourceId, schemas)
    ensures r.Success? && r.value.Some? ==> r.value.value < |schemas| && schemas[r.value.value].id == activeId
    ensures r.Success? && r.value.None? ==> forall i :: 0 <= i < |schemas| ==> schemas[i].id != activeId
    ensures r.Failure? ==> Unlistable(sourceId, schemas, r.error)
  {
    hide Indexes, Paired, DataFields, AllData, Clashes, Unlistable;
    NothingEntered(schemas);
    var active: Option<nat> := None;
    var indexes: set<nat> := {};
    var names: map<nat, string>, ids: map<string, nat> := map[], map[];
    for i := 0 to |schemas|
      invariant forall k :: 0 <= k < i ==> schemas[k].sourceId == sourceId
      invariant forall j, k :: 0 <= j < k < i ==>
                  schemas[j].version < schemas[k].version && schemas[j].id != schemas[k].id
      invariant forall id :: id in indexes <==> exists k :: 0 <= k < i && schemas[k].id == id
      invariant Indexes(names, ids, AllData(schemas[..i])) && Paired(AllData(schemas[..i]))
      invariant active.Some? ==> active.value < i && schemas[active.value].id == activeId
      invariant active.None? ==> forall k :: 0 <= k < i ==> schemas[k].id != activeId
    {
      var schema := schemas[i];
      if schema.sourceId != sourceId {
        OutOfPlace(sourceId, schemas, i, i);
        return Failure(SourceMismatch);
      }
      if i > 0 && schema.version <= schemas[i - 1].version {
        OutOfPlace(sourceId, schemas, i - 1, i);
        return Failure(VersionsMustIncrease);
      }
      if schema.id in indexes {
        ghost var k :| 0 <= k < i && schemas[k].id == schema.id;
        OutOfPlace(sourceId, schemas, k, i);
        return Failure(DuplicateSchema);
      }
      indexes := indexes + {schema.id};
      if schema.id == activeId {
        active := Some(i);
      }
      AllDataSnoc(schemas, i);
      var entered := EnterFields(DataFields(schema.fields), names, ids, AllData(schemas[..i]));
      if entered.Failure? {
        NotPairedLater(schemas, i + 1);
        ClashesLater(sourceId, schemas, i + 1, entered.error);
        return Failure(entered.error);
      }
      names, ids := entered.value.0, entered.value.1;
    }
    assert schemas[..|schemas|] == schemas;
    return Success(active);
  }

  lemma NothingEntered(schemas: seq<Schema>)
    ensures Indexes(map[], map[], AllData(schemas[..0])) && Paired(AllData(schemas[..0]))
  {
  }

  lemma NotPairedLater(schemas: seq<Schema>, n: nat)
    requires n <= |schemas| && !Paired(AllData(schemas[..n]))
    ensures !Paired(AllData(schemas))
  {
    AllDataPrefix(schemas, n);
    if Paired(AllData(schemas)) {
      PairedPrefix(AllData(schemas[..n]), AllData(schemas));
    }
  }

  /** What is wrong with a list of schemas. */
  ghost predicate Unlistable(sourceId: nat, schemas: seq<Schema>, error: CatalogError) {
    match error
    case SourceMismatch => exists i :: 0 <= i < |schemas| && schemas[i].sourceId != sourceId
    case VersionsMustIncrease => exists i, j :: 0 <= i < j < |schemas| && schemas[i].version >= schemas[j].version
    case DuplicateSchema => exists i, j :: 0 <= i < j < |schemas| && schemas[i].id == schemas[j].id
    case _ => Clashes(AllData(schemas), error)
  }

  lemma OutOfPlace(sourceId: nat, schemas: seq<Schema>, i: nat, j: nat)
    requires i <= j < |schemas|
    ensures schemas[j].sourceId != sourceId ==> Unlistable(sourceId, schemas, SourceMismatch)
    ensures i < j && schemas[i].version >= schemas[j].version ==> Unlistable(sourceId, schemas, VersionsMustIncrease)
    ensures i < j && schemas[i].id == schemas[j].id ==> Unlistable(sourceId, schemas, DuplicateSchema)
  {
  }

  lemma ClashesLater(sourceId: nat, schemas: seq<Schema>, n: nat, error: CatalogError)
    requires n <= |schemas| && Clashes(AllData(schemas[..n]), error)
    ensures Unlistable(sourceId, schemas, error)
  {
    hide AllData, Clashes;
    AllDataPrefix(schemas, n);
    StillClashes(AllData(schemas[..n]), AllData(schemas), error);
  }

  lemma StillClashes(some: seq<Field>, all: seq<Field>, error: CatalogError)
    requires some <= all && Clashes(some, error)
    ensures Clashes(all, error) && (error == IdentityReused || error == NameReused)
  {
    if error == IdentityReused {
      var a, b :| 0 <= a < b < |some| && some[a].id == some[b].id && some[a].name != some[b].name;
      assert all[a] == some[a] && all[b] == some[b];
    } else {
      var a, b :| 0 <= a < b < |some| && some[a].name == some[b].name && some[a].id != some[b].id;
      assert all[a] == some[a] && all[b] == some[b];
    }
  }

  /** What is wrong with a history: its list, a change between two of its schemas, or its active schema. */
  ghost predicate HistoryRefused(sourceId: nat, activeId: nat, schemas: seq<Schema>, error: CatalogError) {
    || Unlistable(sourceId, schemas, error)
    || (exists i :: 0 <= i < |schemas| - 1 &&
          Changed(DataFields(schemas[i].fields), DataFields(schemas[i + 1].fields), error))
    || (error == ActiveSchemaMissing && forall i :: 0 <= i < |schemas| ==> schemas[i].id != activeId)
  }

  /** Validates the whole history of a source and finds its active schema. */
  method ValidateHistory(sourceId: nat, activeId: nat, schemas: seq<Schema>) returns (r: Result<nat, CatalogError>)
    ensures r.Success? <==> HistoryOk(sourceId, activeId, schemas)
    ensures r.Success? ==> r.value < |schemas| && schemas[r.value].id == activeId
    ensures r.Failure? ==> HistoryRefused(sourceId, activeId, schemas, r.error)
  {
    hide Paired, Extends, AllData, DataFields, Unlistable, Changed;
    var listed := ListSchemas(sourceId, activeId, schemas);
    if listed.Failure? {
      return Failure(listed.error);
    }
    var i := 0;
    while i + 1 < |schemas|
      invariant 0 <= i && (i < |schemas| || (schemas == [] && i == 0))
      invariant forall k :: 0 <= k < i ==> Extends(DataFields(schemas[k].fields), DataFields(schemas[k + 1].fields))
    {
      var additive := ValidateAdditive(schemas[i], schemas[i + 1]);
      if additive.Failure? {
        return Failure(additive.error);
      }
      i := i + 1;
    }
    if listed.value.None? {
      return Failure(ActiveSchemaMissing);
    }
    return Success(listed.value.value);
  }

  /** Checking neighbours is enough: every later schema extends every earlier one. */
  lemma {:induction false} EveryLaterExtends(sourceId: nat, activeId: nat, schemas: seq<Schema>, i: nat, j: nat)
    requires HistoryOk(sourceId, activeId, schemas) && i <= j < |schemas|
    ensures Extends(DataFields(schemas[i].fields), DataFields(schemas[j].fields))
    decreases j
  {
    hide Paired, Extends, DataFields;
    if i == j {
      ExtendsItself(DataFields(schemas[i].fields));
    } else {
      EveryLaterExtends(sourceId, activeId, schemas, i, j - 1);
      assert Extends(DataFields(schemas[j - 1].fields), DataFields(schemas[j - 1 + 1].fields));
      ExtendsTransitive(DataFields(schemas[i].fields), DataFields(schemas[j - 1].fields),
                        DataFields(schemas[j].fields));
    }
  }
}
