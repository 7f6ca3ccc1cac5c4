/** Applying a declared catalog to a stored source. Histories only grow, and applying the same manifest again changes
    nothing. Digests are functions of what they digest; identities come from a generator. */
module Catalog {
  import opened Basics
  import opened JsonPointers
  import opened Schemas

  // ---------- declarations ----------

  datatype DeclaredField = DeclaredField(
    name: string, kind: LogicalType, nullable: bool, description: Option<string>, pointer: Option<seq<Token>>)

  datatype DeclaredSchema = DeclaredSchema(version: nat, fields: seq<DeclaredField>)

  datatype EventTime = EventTime(pointer: seq<Token>, format: nat)

  datatype DeclaredMapping = DeclaredMapping(field: string, pointer: seq<Token>)

  datatype DeclaredProfile = DeclaredProfile(
    revision: nat, targetVersion: nat, maximumRecordBytes: nat, eventTime: EventTime, mappings: seq<DeclaredMapping>)

  /** The names of sources and inputs are numbered by their place in the order of names. */
  datatype DeclaredInput = DeclaredInput(name: nat, activeRevision: nat, profiles: seq<DeclaredProfile>)

  datatype Manifest = Manifest(
    name: nat, displayName: string, activeVersion: nat, schemas: seq<DeclaredSchema>, inputs: seq<DeclaredInput>)

  predicate DeclaredFieldOk(field: DeclaredField) {
    IsUserType(field.kind) && (field.name != [] ==> field.name[0] != '@')
  }

  /** What a parsed manifest guarantees. */
  predicate ManifestOk(manifest: Manifest) {
    && (forall i :: 0 <= i < |manifest.schemas| ==> SchemaDeclarationOk(manifest.schemas[i]))
    && (forall a, b :: 0 <= a < b < |manifest.inputs| ==> manifest.inputs[a].name != manifest.inputs[b].name)
  }

  predicate SchemaDeclarationOk(declared: DeclaredSchema) {
    forall k :: 0 <= k < |declared.fields| ==> DeclaredFieldOk(declared.fields[k])
  }

  // ---------- stored definitions ----------

  datatype StoredSchema = StoredSchema(schema: Schema, declared: int, material: int)

  datatype FieldMapping = FieldMapping(fieldId: nat, pointer: seq<Token>)

  datatype ProfileRevision = ProfileRevision(
    id: nat, inputId: nat, revision: nat, targetSchemaId: nat, maximumRecordBytes: nat, eventTime: EventTime,
    mappings: seq<FieldMapping>)

  datatype StoredProfile = StoredProfile(revision: ProfileRevision, declared: int, material: int)

  datatype StoredInput = StoredInput(
    id: nat, sourceId: nat, name: nat, declared: int, material: int, activeProfileId: nat, profiles: seq<StoredProfile>)

  datatype Source = Source(
    id: nat, name: nat, displayName: string, declared: int, schemas: seq<StoredSchema>, activeId: nat,
    inputs: seq<StoredInput>)

  datatype ApplicationError =
    HistoryDiverged | DefinitionConflict | CatalogCorrupted | ManifestInvalid | SchemaIncompatible

  datatype Digester = Digester(
    source: nat -> int, schema: DeclaredSchema -> int, schemaMaterial: Schema -> int, input: nat -> int,
    inputMaterial: (nat, nat, nat) -> int, profile: DeclaredProfile -> int, profileMaterial: ProfileRevision -> int)

  class IdentityGenerator {
    var next: nat

    constructor (next: nat)
      ensures this.next == next
    {
      this.next := next;
    }

    method Generate() returns (id: nat)
      modifies this
      ensures id == old(next) && next == old(next) + 1
    {
      id := next;
      next := next + 1;
    }
  }

  // ---------- schemas ----------

  function DeclarationOfField(field: Field): DeclaredField {
    DeclaredField(field.name, field.kind, field.nullable, field.description, field.pointer)
  }

  function DeclarationsOf(fields: seq<Field>): (declared: seq<DeclaredField>)
    ensures |declared| == |fields|
  {
    seq(|fields|, i requires 0 <= i < |fields| => DeclarationOfField(fields[i]))
  }

  /** The declaration a stored schema stands for. */
  function DeclarationOf(schema: Schema): DeclaredSchema {
    DeclaredSchema(schema.version, DeclarationsOf(DataFields(schema.fields)))
  }

  /** A stored schema whose digests fit its own definition. */
  predicate Verified(stored: StoredSchema, digest: Digester) {
    && stored.declared == digest.schema(DeclarationOf(stored.schema))
    && stored.material == digest.schemaMaterial(stored.schema)
  }

  /** Recomputes both digests of a stored schema. */
  method VerifySchema(stored: StoredSchema, digest: Digester) returns (ok: bool)
    ensures ok <==> Verified(stored, digest)
  {
    return digest.schema(DeclarationOf(stored.schema)) == stored.declared
      && digest.schemaMaterial(stored.schema) == stored.material;
  }

  /** A stored schema that is what the manifest declares. */
  predicate Reflects(stored: StoredSchema, declared: DeclaredSchema, digest: Digester) {
    Verified(stored, digest) && stored.declared == digest.schema(declared)
  }

  predicate AllReflect(stored: seq<StoredSchema>, declared: seq<DeclaredSchema>, digest: Digester) {
    |stored| == |declared| && forall i :: 0 <= i < |stored| ==> Reflects(stored[i], declared[i], digest)
  }

  ghost predicate AllSchemas(stored: seq<StoredSchema>) {
    forall i :: 0 <= i < |stored| ==> IsSchema(stored[i].schema)
  }

  /** Different declarations have different digests. */
  ghost predicate TellsSchemasApart(digest: Digester) {
    forall a: DeclaredSchema, b: DeclaredSchema :: digest.schema(a) == digest.schema(b) ==> a == b
  }

  /** With such digests, what is stored is the declaration itself. */
  lemma ReflectingIsDeclared(stored: StoredSchema, declared: DeclaredSchema, digest: Digester)
    requires TellsSchemasApart(digest) && Reflects(stored, declared, digest)
    ensures DeclarationOf(stored.schema) == declared
  {
  }

  /** The field a declaration makes under an identity. */
  function UserFieldOf(declared: DeclaredField, id: nat): Field {
    Field(id, declared.name, declared.kind, declared.nullable, DataRole, declared.description, declared.pointer)
  }

  /** Gives the declared fields their identities: the one their name has had, or a new one. */
  method IdentifyFields(declared: seq<DeclaredField>, idByName: map<string, nat>, ids: IdentityGenerator)
    returns (r: Result<seq<Field>, ApplicationError>)
    requires ids.next > REMAINDER_ID && forall name :: name in idByName ==> !IsSystemId(idByName[name])
    requires forall k :: 0 <= k < |declared| ==> DeclaredFieldOk(declared[k])
    modifies ids
    ensures r.Success? <==> forall k :: 0 <= k < |declared| ==> declared[k].pointer.Some? ==> declared[k].nullable
    ensures r.Failure? ==> r.error == ManifestInvalid
    ensures r.Success? ==>
              && DeclarationsOf(r.value) == declared
              && (forall k :: 0 <= k < |r.value| ==> IsUserField(r.value[k]))
              && Identified(r.value, idByName, old(ids.next), ids.next)
    ensures ids.next >= old(ids.next)
  {
    hide Identified;
    var fields: seq<Field> := [];
    NoneIdentified(idByName, ids.next);
    for k := 0 to |declared|
      invariant |fields| == k && ids.next >= old(ids.next)
      invariant forall j :: 0 <= j < k ==> declared[j].pointer.Some? ==> declared[j].nullable
      invariant forall j :: 0 <= j < k ==> DeclarationOfField(fields[j]) == declared[j] && IsUserField(fields[j])
      invariant Identified(fields, idByName, old(ids.next), ids.next)
    {
      ghost var high := ids.next;
      var id;
      if declared[k].name in idByName {
        id := idByName[declared[k].name];
      } else {
        id := ids.Generate();
      }
      if declared[k].pointer.Some? && !declared[k].nullable {
        return Failure(ManifestInvalid);
      }
      IdentifiedSnoc(fields, UserFieldOf(declared[k], id), idByName, old(ids.next), high);
      fields := fields + [UserFieldOf(declared[k], id)];
    }
    return Success(fields);
  }

  lemma NoneIdentified(idByName: map<string, nat>, low: nat)
    ensures Identified([], idByName, low, low)
  {
  }

  lemma IdentifiedSnoc(fields: seq<Field>, field: Field, idByName: map<string, nat>, low: nat, high: nat)
    requires Identified(fields, idByName, low, high) && low <= high
    requires field.id == if field.name in idByName then idByName[field.name] else high
    ensures Identified(fields + [field], idByName, low, if field.name in idByName then high else high + 1)
  {
  }

  /** The identities the data fields of a schema give to their names. */
  function NameFields(idByName: map<string, nat>, fields: seq<Field>): map<string, nat> {
    if fields == [] then idByName
    else NameFields(idByName, fields[..|fields| - 1])[fields[|fields| - 1].name := fields[|fields| - 1].id]
  }

  lemma {:induction false} NamedAreUsers(idByName: map<string, nat>, fields: seq<Field>)
    requires forall name :: name in idByName ==> !IsSystemId(idByName[name])
    requires forall k :: 0 <= k < |fields| ==> IsUserField(fields[k])
    ensures forall name :: name in NameFields(idByName, fields) ==> !IsSystemId(NameFields(idByName, fields)[name])
  {
    if fields != [] {
      NamedAreUsers(idByName, fields[..|fields| - 1]);
    }
  }

  lemma {:induction false} NameFieldsAppend(idByName: map<string, nat>, a: seq<Field>, b: seq<Field>)
    ensures NameFields(NameFields(idByName, a), b) == NameFields(idByName, a + b)
  {
    if b == [] {
      assert a + b == a;
    } else {
      var n := |b| - 1;
      NameFieldsAppend(idByName, a, b[..n]);
      assert (a + b)[..|a + b| - 1] == a + b[..n];
    }
  }

  /** The index of paired fields tells the identity of every name. */
  lemma {:induction false} NamesOfPaired(fields: seq<Field>)
    requires Paired(fields)
    ensures forall i :: 0 <= i < |fields| ==>
              fields[i].name in NameFields(map[], fields) && NameFields(map[], fields)[fields[i].name] == fields[i].id
    ensures forall name :: name in NameFields(map[], fields) ==> exists i :: 0 <= i < |fields| && fields[i].name == name
  {
    if fields != [] {
      var n := |fields| - 1;
      NamesOfPaired(fields[..n]);
      forall name | name in NameFields(map[], fields) ensures exists i :: 0 <= i < |fields| && fields[i].name == name {
        if name == fields[n].name {
          assert fields[n].name == name;
        } else {
          var i :| 0 <= i < n && fields[..n][i].name == name;
          assert fields[i].name == name;
        }
      }
    }
  }

  /** Every name has an identity of its own, and generating gives none of them again. */
  predicate KnownNames(idByName: map<string, nat>, next: nat) {
    && (forall name :: name in idByName ==> idByName[name] < next)
    && (forall a, b :: a in idByName && b in idByName && a != b ==> idByName[a] != idByName[b])
  }

  lemma PairedAreKnown(fields: seq<Field>, next: nat)
    requires Paired(fields) && forall i :: 0 <= i < |fields| ==> fields[i].id < next
    ensures KnownNames(NameFields(map[], fields), next)
  {
    hide NameFields;
    NamesOfPaired(fields);
    var m := NameFields(map[], fields);
    forall name | name in m ensures m[name] < next {
      var i :| 0 <= i < |fields| && fields[i].name == name;
    }
    forall a, b | a in m && b in m && a != b ensures m[a] != m[b] {
      var i :| 0 <= i < |fields| && fields[i].name == a;
      var j :| 0 <= j < |fields| && fields[j].name == b;
      assert fields[i].id == fields[j].id <==> fields[i].name == fields[j].name;
    }
  }

  /** Fields with the known identities of their names and new ones for the rest. */
  predicate Identified(fields: seq<Field>, idByName: map<string, nat>, low: nat, high: nat) {
    && (forall k :: 0 <= k < |fields| && fields[k].name in idByName ==> fields[k].id == idByName[fields[k].name])
    && (forall k :: 0 <= k < |fields| && fields[k].name !in idByName ==> low <= fields[k].id < high)
    && (forall j, k :: 0 <= j < k < |fields| && fields[j].name !in idByName && fields[k].name !in idByName ==>
          fields[j].id < fields[k].id)
  }

  predicate DistinctDeclared(declared: seq<DeclaredField>) {
    forall a, b :: 0 <= a < b < |declared| ==> declared[a].name != declared[b].name
  }

  /** Such fields are distinct exactly when their names are. */
  lemma DistinctByName(fields: seq<Field>, idByName: map<string, nat>, low: nat, high: nat)
    requires Identified(fields, idByName, low, high) && KnownNames(idByName, low)
    ensures DistinctFields(fields) <==> DistinctDeclared(DeclarationsOf(fields))
  {
    var declared := DeclarationsOf(fields);
    assert forall k :: 0 <= k < |fields| ==> declared[k].name == fields[k].name;
  }

  /** A schema can be made of the declaration. */
  predicate Declarable(declared: DeclaredSchema) {
    && (forall k :: 0 <= k < |declared.fields| ==> declared.fields[k].pointer.Some? ==> declared.fields[k].nullable)
    && DistinctDeclared(declared.fields)
  }

  lemma UserData(schema: Schema)
    requires IsSchema(schema)
    ensures forall k :: 0 <= k < |DataFields(schema.fields)| ==> IsUserField(DataFields(schema.fields)[k])
  {
    SchemaData(schema);
  }

  /** A new schema for a declaration. With new identities it can be made exactly when the declaration allows it. */
  method CreateSchema(declared: DeclaredSchema, sourceId: nat, idByName: map<string, nat>, ids: IdentityGenerator,
                      digest: Digester)
    returns (r: Result<StoredSchema, ApplicationError>)
    requires ids.next > REMAINDER_ID && forall name :: name in idByName ==> !IsSystemId(idByName[name])
    requires SchemaDeclarationOk(declared)
    modifies ids
    ensures ids.next > old(ids.next)
    ensures KnownNames(idByName, old(ids.next)) ==> (r.Success? <==> Declarable(declared))
    ensures r.Failure? ==> r.error == ManifestInvalid
    ensures r.Success? ==>
              && IsSchema(r.value.schema) && Reflects(r.value, declared, digest)
              && r.value.schema.version == declared.version
              && r.value.schema.id == old(ids.next) && r.value.schema.sourceId == sourceId
              && Identified(DataFields(r.value.schema.fields), idByName, old(ids.next), ids.next)
  {
    hide DataFields, KnownNames;
    var id := ids.Generate();
    ghost var low := ids.next;
    var fields := IdentifyFields(declared.fields, idByName, ids);
    if fields.Failure? {
      return Failure(fields.error);
    }
    if KnownNames(idByName, old(ids.next)) {
      KnownLater(idByName, old(ids.next), low);
      DistinctByName(fields.value, idByName, low, ids.next);
    }
    var schema := NewSchema(id, sourceId, declared.version, fields.value);
    if schema.Failure? {
      return Failure(ManifestInvalid);
    }
    assert DeclarationOf(schema.value) == declared;
    return Success(StoredSchema(schema.value, digest.schema(declared), digest.schemaMaterial(schema.value)));
  }

  lemma KnownLater(idByName: map<string, nat>, next: nat, later: nat)
    requires KnownNames(idByName, next) && next <= later
    ensures KnownNames(idByName, later)
  {
  }

  function Plain(schemas: seq<StoredSchema>): (plain: seq<Schema>)
    ensures |plain| == |schemas| && forall i :: 0 <= i < |schemas| ==> plain[i] == schemas[i].schema
  {
    seq(|schemas|, i requires 0 <= i < |schemas| => schemas[i].schema)
  }

  function DataOf(schemas: seq<StoredSchema>): seq<Field> {
    AllData(Plain(schemas))
  }

  lemma DataOfSnoc(schemas: seq<StoredSchema>, next: StoredSchema)
    ensures DataOf(schemas + [next]) == DataOf(schemas) + DataFields(next.schema.fields)
  {
    assert Plain(schemas + [next])[..|schemas|] == Plain(schemas);
  }

  /** Names and identities of fields correspond, schemas have identities of their own, and generating gives none of
      these again. */
  predicate KnownSchemas(schemas: seq<StoredSchema>, next: nat) {
    && Paired(DataOf(schemas)) && (forall i :: 0 <= i < |DataOf(schemas)| ==> DataOf(schemas)[i].id < next)
    && DistinctIds(schemas) && (forall i :: 0 <= i < |schemas| ==> schemas[i].schema.id < next)
  }

  lemma {:induction false} DataOfPrefix(schemas: seq<StoredSchema>, n: nat)
    requires n <= |schemas|
    ensures DataOf(schemas[..n]) <= DataOf(schemas)
    decreases |schemas|
  {
    if n == |schemas| {
      assert schemas[..n] == schemas;
    } else {
      var m := |schemas| - 1;
      DataOfPrefix(schemas[..m], n);
      assert schemas[..m][..n] == schemas[..n] && schemas == schemas[..m] + [schemas[m]];
      DataOfSnoc(schemas[..m], schemas[m]);
    }
  }

  lemma KnownPrefix(schemas: seq<StoredSchema>, n: nat, next: nat)
    requires KnownSchemas(schemas, next) && n <= |schemas|
    ensures KnownSchemas(schemas[..n], next)
  {
    hide DataOf;
    DataOfPrefix(schemas, n);
    var all, part := DataOf(schemas), DataOf(schemas[..n]);
    assert forall i :: 0 <= i < |part| ==> part[i] == all[i];
  }

  lemma NewFieldsArePaired(before: seq<Field>, fields: seq<Field>, low: nat, high: nat)
    requires Paired(before) && forall i :: 0 <= i < |before| ==> before[i].id < low
    requires DistinctFields(fields) && Identified(fields, NameFields(map[], before), low, high)
    ensures Paired(before + fields)
  {
    hide NameFields, Identified, Paired, DistinctFields;
    NamesOfPaired(before);
    var names := NameFields(map[], before);
    var all := before + fields;
    forall a, b | 0 <= a < |all| && 0 <= b < |all| ensures all[a].id == all[b].id <==> all[a].name == all[b].name {
      if a < |before| && b < |before| {
        PairedAt(before, a, b);
      } else if a < |before| {
        OldAndNew(before, fields, a, b - |before|, names, low, high);
      } else if b < |before| {
        OldAndNew(before, fields, b, a - |before|, names, low, high);
      } else {
        DistinctAt(fields, a - |before|, b - |before|);
      }
    }
    AllPaired(all);
  }

  lemma PairedAt(fields: seq<Field>, a: nat, b: nat)
    requires Paired(fields) && a < |fields| && b < |fields|
    ensures fields[a].id == fields[b].id <==> fields[a].name == fields[b].name
  {
  }

  lemma AllPaired(fields: seq<Field>)
    requires forall a, b :: 0 <= a < |fields| && 0 <= b < |fields| ==>
               (fields[a].id == fields[b].id <==> fields[a].name == fields[b].name)
    ensures Paired(fields)
  {
  }

  lemma DistinctAt(fields: seq<Field>, a: nat, b: nat)
    requires DistinctFields(fields) && a < |fields| && b < |fields|
    ensures fields[a].id == fields[b].id <==> fields[a].name == fields[b].name
  {
  }

  lemma OldAndNew(before: seq<Field>, fields: seq<Field>, i: nat, k: nat, names: map<string, nat>, low: nat, high: nat)
    requires Paired(before) && i < |before| && k < |fields| && before[i].id < low
    requires Identified(fields, names, low, high)
    requires forall j :: 0 <= j < |before| ==> before[j].name in names && names[before[j].name] == before[j].id
    requires forall name :: name in names ==> exists j :: 0 <= j < |before| && before[j].name == name
    ensures before[i].id == fields[k].id <==> before[i].name == fields[k].name
  {
    if fields[k].name in names {
      var j :| 0 <= j < |before| && before[j].name == fields[k].name;
      assert before[i].id == before[j].id <==> before[i].name == before[j].name;
    }
  }

  lemma KnownSnoc(schemas: seq<StoredSchema>, next: StoredSchema, low: nat, high: nat)
    requires KnownSchemas(schemas, low) && low < high && IsSchema(next.schema) && next.schema.id == low
    requires Identified(DataFields(next.schema.fields), NameFields(map[], DataOf(schemas)), low, high)
    ensures KnownSchemas(schemas + [next], high)
  {
    hide DataOf, NameFields, DataFields, IsSchema, Paired;
    var before, fields := DataOf(schemas), DataFields(next.schema.fields);
    SchemaData(next.schema);
    DataOfSnoc(schemas, next);
    NewFieldsArePaired(before, fields, low, high);
    PairedAreKnown(before, low);
    forall i | 0 <= i < |before + fields| ensures (before + fields)[i].id < high {
      if i >= |before| {
        assert (before + fields)[i] == fields[i - |before|];
      }
    }
  }

  /** The stored schemas are what is declared, and new ones can be made of the rest. */
  predicate SchemasPlannable(declared: seq<DeclaredSchema>, current: seq<StoredSchema>, digest: Digester) {
    && |current| <= |declared|
    && (forall i :: 0 <= i < |current| ==> Reflects(current[i], declared[i], digest))
    && (forall i :: |current| <= i < |declared| ==> Declarable(declared[i]))
  }

  /** A stored schema was declared as something else. */
  predicate SchemaConflicts(declared: seq<DeclaredSchema>, current: seq<StoredSchema>, digest: Digester) {
    exists i :: 0 <= i < |declared| && i < |current| && current[i].declared != digest.schema(declared[i])
  }

  /** Plans the schema history: the stored schemas unchanged, then new ones for the declarations beyond them. */
  method PlanSchemas(declared: seq<DeclaredSchema>, current: seq<StoredSchema>, sourceId: nat, ids: IdentityGenerator,
                     digest: Digester)
    returns (r: Result<seq<StoredSchema>, ApplicationError>)
    requires ids.next > REMAINDER_ID && AllSchemas(current)
    requires forall i :: 0 <= i < |declared| ==> SchemaDeclarationOk(declared[i])
    modifies ids
    ensures ids.next >= old(ids.next)
    ensures KnownSchemas(current, old(ids.next)) ==> (r.Success? <==> SchemasPlannable(declared, current, digest))
    ensures r == Failure(HistoryDiverged) <==> |current| > |declared|
    ensures r == Failure(DefinitionConflict) ==> SchemaConflicts(declared, current, digest)
    ensures r.Failure? ==> r.error != SchemaIncompatible
    ensures r.Success? && KnownSchemas(current, old(ids.next)) ==> KnownSchemas(r.value, ids.next)
    ensures r.Success? ==> current <= r.value && AllSchemas(r.value) && AllReflect(r.value, declared, digest)
    ensures r.Success? ==> forall i :: |current| <= i < |r.value| ==> r.value[i].schema.sourceId == sourceId
    ensures AllReflect(current, declared, digest) ==> r == Success(current) && ids.next == old(ids.next)
  {
    hide DataFields, Verified, IsSchema, SchemaDeclarationOk, KnownSchemas, KnownNames, Identified, DataOf, NameFields,
      Declarable;
    if |current| > |declared| {
      return Failure(HistoryDiverged);
    }
    ghost var known := KnownSchemas(current, ids.next);
    var idByName: map<string, nat> := map[];
    var schemas: seq<StoredSchema> := [];
    NothingNamed();
    if known {
      KnownPrefix(current, 0, ids.next);
      assert current[..0] == [];
    }
    for i := 0 to |declared|
      invariant |schemas| == i && ids.next >= old(ids.next)
      invariant forall name :: name in idByName ==> !IsSystemId(idByName[name])
      invariant idByName == NameFields(map[], DataOf(schemas))
      invariant known ==> KnownSchemas(schemas, ids.next)
      invariant known ==> forall k :: |current| <= k < i ==> Declarable(declared[k])
      invariant forall k :: 0 <= k < i ==> IsSchema(schemas[k].schema) && Reflects(schemas[k], declared[k], digest)
      invariant forall k :: |current| <= k < i ==> schemas[k].schema.sourceId == sourceId
      invariant forall k :: 0 <= k < i && k < |current| ==> schemas[k] == current[k]
      invariant i <= |current| ==> ids.next == old(ids.next)
    {
      var next;
      ghost var low := ids.next;
      if i < |current| {
        next := current[i];
        var verified := VerifySchema(next, digest);
        if !verified {
          return Failure(CatalogCorrupted);
        }
        if next.declared != digest.schema(declared[i]) {
          return Failure(DefinitionConflict);
        }
        if known {
          KnownPrefix(current, i + 1, ids.next);
          assert current[..i + 1] == schemas + [next];
        }
      } else {
        if known {
          KnownIndex(schemas, ids.next);
        }
        var created := CreateSchema(declared[i], sourceId, idByName, ids, digest);
        if created.Failure? {
          return Failure(created.error);
        }
        next := created.value;
        if known {
          KnownSnoc(schemas, next, low, ids.next);
        }
      }
      UserData(next.schema);
      NamedAreUsers(idByName, DataFields(next.schema.fields));
      NameFieldsAppend(map[], DataOf(schemas), DataFields(next.schema.fields));
      DataOfSnoc(schemas, next);
      idByName := NameFields(idByName, DataFields(next.schema.fields));
      schemas := schemas + [next];
    }
    assert |current| == |declared| ==> schemas == current;
    return Success(schemas);
  }

  lemma NothingNamed()
    ensures NameFields(map[], DataOf([])) == map[]
  {
  }

  lemma KnownIndex(schemas: seq<StoredSchema>, next: nat)
    requires KnownSchemas(schemas, next)
    ensures KnownNames(NameFields(map[], DataOf(schemas)), next)
  {
    hide DataOf, NameFields;
    PairedAreKnown(DataOf(schemas), next);
  }

  // ---------- profiles ----------

  function SchemaWithId(schemas: seq<StoredSchema>, id: nat): (r: Option<Schema>)
    ensures r.Some? ==> exists i :: 0 <= i < |schemas| && schemas[i].schema == r.value && r.value.id == id
  {
    if schemas == [] then None
    else if schemas[0].schema.id == id then Some(schemas[0].schema)
    else SchemaWithId(schemas[1..], id)
  }

  function SchemaWithVersion(schemas: seq<StoredSchema>, version: nat): (r: Option<Schema>)
    ensures r.Some? ==> exists i :: 0 <= i < |schemas| && schemas[i].schema == r.value && r.value.version == version
  {
    if schemas == [] then None
    else if schemas[0].schema.version == version then Some(schemas[0].schema)
    else SchemaWithVersion(schemas[1..], version)
  }

  predicate DistinctIds(schemas: seq<StoredSchema>) {
    forall a, b :: 0 <= a < b < |schemas| ==> schemas[a].schema.id != schemas[b].schema.id
  }

  lemma {:induction false} FoundById(schemas: seq<StoredSchema>, i: nat)
    requires DistinctIds(schemas) && i < |schemas|
    ensures SchemaWithId(schemas, schemas[i].schema.id) == Some(schemas[i].schema)
  {
    if i > 0 {
      FoundById(schemas[1..], i - 1);
    }
  }

  function FieldNamed(fields: seq<Field>, name: string): (r: Option<Field>)
    ensures r.Some? ==> r.value in fields && r.value.name == name
  {
    if fields == [] then None else if fields[0].name == name then Some(fields[0]) else FieldNamed(fields[1..], name)
  }

  function FieldWithId(fields: seq<Field>, id: nat): (r: Option<Field>)
    ensures r.Some? ==> r.value in fields && r.value.id == id
  {
    if fields == [] then None else if fields[0].id == id then Some(fields[0]) else FieldWithId(fields[1..], id)
  }

  lemma {:induction false} FoundFieldById(fields: seq<Field>, field: Field)
    requires DistinctFields(fields) && field in fields
    ensures FieldWithId(fields, field.id) == Some(field)
  {
    if fields[0] == field {
    } else {
      var i :| 0 <= i < |fields| && fields[i] == field;
      assert fields[1..][i - 1] == field;
      FoundFieldById(fields[1..], field);
    }
  }

  /** The declaration a stored profile stands for, given its target schema. */
  function DeclaredMappings(mappings: seq<FieldMapping>, fields: seq<Field>): Option<seq<DeclaredMapping>> {
    if mappings == [] then Some([])
    else
      var n := |mappings| - 1;
      var init := DeclaredMappings(mappings[..n], fields);
      var field := FieldWithId(fields, mappings[n].fieldId);
      if init.None? || field.None? then None
      else Some(init.value + [DeclaredMapping(field.value.name, mappings[n].pointer)])
  }

  function DeclarationOfProfile(revision: ProfileRevision, target: Schema): Option<DeclaredProfile> {
    var mappings := DeclaredMappings(revision.mappings, DataFields(target.fields));
    if mappings.None? then None
    else Some(DeclaredProfile(revision.revision, target.version, revision.maximumRecordBytes, revision.eventTime,
                              mappings.value))
  }

  predicate ProfileVerified(stored: StoredProfile, target: Schema, digest: Digester) {
    && DeclarationOfProfile(stored.revision, target).Some?
    && stored.declared == digest.profile(DeclarationOfProfile(stored.revision, target).value)
    && stored.material == digest.profileMaterial(stored.revision)
  }

  /** Recomputes both digests of a stored profile. */
  method VerifyProfile(stored: StoredProfile, target: Schema, digest: Digester) returns (ok: bool)
    ensures ok <==> ProfileVerified(stored, target, digest)
  {
    var declaration := DeclarationOfProfile(stored.revision, target);
    return declaration.Some? && digest.profile(declaration.value) == stored.declared
      && digest.profileMaterial(stored.revision) == stored.material;
  }

  /** A stored profile that is what the manifest declares. */
  predicate ProfileReflects(stored: StoredProfile, declared: DeclaredProfile, schemas: seq<StoredSchema>,
                            digest: Digester)
  {
    && SchemaWithVersion(schemas, declared.targetVersion).Some?
    && SchemaWithId(schemas, stored.revision.targetSchemaId).Some?
    && ProfileVerified(stored, SchemaWithId(schemas, stored.revision.targetSchemaId).value, digest)
    && stored.declared == digest.profile(declared)
  }

  ghost predicate TellsProfilesApart(digest: Digester) {
    forall a: DeclaredProfile, b: DeclaredProfile :: digest.profile(a) == digest.profile(b) ==> a == b
  }

  /** With such digests, a stored profile that passes is the declaration itself. */
  lemma ReflectingProfileIsDeclared(
      stored: StoredProfile, declared: DeclaredProfile, schemas: seq<StoredSchema>, digest: Digester)
    requires TellsProfilesApart(digest) && ProfileReflects(stored, declared, schemas, digest)
    ensures DeclarationOfProfile(stored.revision, SchemaWithId(schemas, stored.revision.targetSchemaId).value) ==
              Some(declared)
  {
    hide DeclarationOfProfile;
  }

  predicate AllProfilesReflect(stored: seq<StoredProfile>, declared: seq<DeclaredProfile>, schemas: seq<StoredSchema>,
                               digest: Digester)
  {
    |stored| == |declared| && forall i :: 0 <= i < |stored| ==> ProfileReflects(stored[i], declared[i], schemas, digest)
  }

  predicate DistinctTargets(mappings: seq<FieldMapping>) {
    forall a, b :: 0 <= a < b < |mappings| ==> mappings[a].fieldId != mappings[b].fieldId
  }

  /** Every target is a field, and none is named twice. */
  predicate Resolvable(declared: seq<DeclaredMapping>, fields: seq<Field>) {
    && (forall k :: 0 <= k < |declared| ==> FieldNamed(fields, declared[k].field).Some?)
    && (forall a, b :: 0 <= a < b < |declared| ==> declared[a].field != declared[b].field)
  }

  /** Resolves the declared targets to the fields of the target schema. */
  method ResolveMappings(declared: seq<DeclaredMapping>, fields: seq<Field>)
    returns (r: Result<seq<FieldMapping>, ApplicationError>)
    requires DistinctFields(fields)
    ensures r.Success? <==> Resolvable(declared, fields)
    ensures r.Failure? ==> r.error == ManifestInvalid
    ensures r.Success? ==> DeclaredMappings(r.value, fields) == Some(declared) && DistinctTargets(r.value)
  {
    hide FieldNamed, FieldWithId, DeclaredMappings;
    var mappings: seq<FieldMapping> := [];
    var targets: set<nat> := {};
    NoMappings(fields);
    for k := 0 to |declared|
      invariant |mappings| == k && DeclaredMappings(mappings, fields) == Some(declared[..k])
      invariant forall j :: 0 <= j < k ==>
                  FieldNamed(fields, declared[j].field).Some?
                      && mappings[j].fieldId == FieldNamed(fields, declared[j].field).value.id
      invariant forall id :: id in targets ==> exists j :: 0 <= j < k && mappings[j].fieldId == id
      invariant forall j :: 0 <= j < k ==> mappings[j].fieldId in targets
      invariant DistinctTargets(mappings)
    {
      var field := FieldNamed(fields, declared[k].field);
      if field.None? {
        return Failure(ManifestInvalid);
      }
      if field.value.id in targets {
        ghost var j :| 0 <= j < k && mappings[j].fieldId == field.value.id;
        NamedTwice(fields, declared[j].field, declared[k].field);
        return Failure(ManifestInvalid);
      }
      MappedSnoc(mappings, declared, k, fields);
      targets := targets + {field.value.id};
      mappings := mappings + [FieldMapping(field.value.id, declared[k].pointer)];
    }
    assert declared[..|declared|] == declared;
    return Success(mappings);
  }

  lemma {:induction false} NoMappings(fields: seq<Field>)
    ensures DeclaredMappings([], fields) == Some([])
  {
  }

  lemma {:induction false} MappedSnoc(mappings: seq<FieldMapping>, declared: seq<DeclaredMapping>, k: nat,
                                      fields: seq<Field>)
    requires k < |declared| && DeclaredMappings(mappings, fields) == Some(declared[..k]) && |mappings| == k
    requires DistinctFields(fields) && FieldNamed(fields, declared[k].field).Some?
    ensures var id := FieldNamed(fields, declared[k].field).value.id;
            DeclaredMappings(mappings + [FieldMapping(id, declared[k].pointer)], fields) == Some(declared[..k + 1])
  {
    hide FieldNamed, FieldWithId;
    NamedField(fields, declared[k].field);
    FoundFieldById(fields, FieldNamed(fields, declared[k].field).value);
    var longer := mappings + [FieldMapping(FieldNamed(fields, declared[k].field).value.id, declared[k].pointer)];
    assert longer[..k] == mappings;
    TakeSnoc(declared, k + 1);
  }

  /** Two names of one field are the same name. */
  lemma NamedTwice(fields: seq<Field>, a: string, b: string)
    requires DistinctFields(fields) && FieldNamed(fields, a).Some? && FieldNamed(fields, b).Some?
    requires FieldNamed(fields, a).value.id == FieldNamed(fields, b).value.id
    ensures a == b
  {
    hide FieldNamed;
    NamedField(fields, a);
    NamedField(fields, b);
    SameField(fields, FieldNamed(fields, a).value, FieldNamed(fields, b).value);
  }

  lemma NamedField(fields: seq<Field>, name: string)
    ensures FieldNamed(fields, name).Some? ==>
              FieldNamed(fields, name).value in fields && FieldNamed(fields, name).value.name == name
  {
  }

  lemma SameField(fields: seq<Field>, a: Field, b: Field)
    requires DistinctFields(fields) && a in fields && b in fields && a.id == b.id
    ensures a == b
  {
    var i :| 0 <= i < |fields| && fields[i] == a;
    var j :| 0 <= j < |fields| && fields[j] == b;
  }

  method CreateProfile(declared: DeclaredProfile, target: Schema, inputId: nat, ids: IdentityGenerator,
                       digest: Digester)
    returns (r: Result<StoredProfile, ApplicationError>)
    requires IsSchema(target) && target.version == declared.targetVersion
    modifies ids
    ensures ids.next == old(ids.next) + 1
    ensures r.Success? <==> Resolvable(declared.mappings, DataFields(target.fields))
    ensures r.Failure? ==> r.error == ManifestInvalid
    ensures r.Success? ==>
              && ProfileVerified(r.value, target, digest) && r.value.declared == digest.profile(declared)
              && r.value.revision.targetSchemaId == target.id
              && r.value.revision.id == old(ids.next) && r.value.revision.inputId == inputId
              && r.value.revision.revision == declared.revision && DistinctTargets(r.value.revision.mappings)
  {
    hide DataFields;
    SchemaData(target);
    var id := ids.Generate();
    var mappings := ResolveMappings(declared.mappings, DataFields(target.fields));
    if mappings.Failure? {
      return Failure(mappings.error);
    }
    var revision := ProfileRevision(id, inputId, declared.revision, target.id, declared.maximumRecordBytes,
                                    declared.eventTime, mappings.value);
    assert DeclarationOfProfile(revision, target) == Some(declared);
    return Success(StoredProfile(revision, digest.profile(declared), digest.profileMaterial(revision)));
  }

  /** The stored profile at that place is what is declared, or a new one can be made of what is declared. */
  predicate ProfilePlannable(i: nat, declared: DeclaredProfile, stored: seq<StoredProfile>, schemas: seq<StoredSchema>,
                             digest: Digester)
  {
    && SchemaWithVersion(schemas, declared.targetVersion).Some?
    && if i < |stored| then ProfileReflects(stored[i], declared, schemas, digest)
       else Resolvable(declared.mappings, DataFields(SchemaWithVersion(schemas, declared.targetVersion).value.fields))
  }

  predicate ProfilesPlannable(declared: seq<DeclaredProfile>, stored: seq<StoredProfile>, schemas: seq<StoredSchema>,
                              digest: Digester)
  {
    && |stored| <= |declared|
    && forall i :: 0 <= i < |declared| ==> ProfilePlannable(i, declared[i], stored, schemas, digest)
  }

  /** The profiles beyond the first `n` are new ones of the input, with identities of their own. */
  predicate NewProfiles(profiles: seq<StoredProfile>, n: nat, declared: seq<DeclaredProfile>, inputId: nat, low: nat,
                        high: nat)
  {
    && |profiles| <= |declared|
    && (forall i :: n <= i < |profiles| ==>
        NewProfile(profiles[i], declared[i], inputId) && low <= profiles[i].revision.id < high)
    && (forall i, j :: n <= i < j < |profiles| ==> profiles[i].revision.id < profiles[j].revision.id)
  }

  predicate NewProfile(profile: StoredProfile, declared: DeclaredProfile, inputId: nat) {
    profile.revision.inputId == inputId && profile.revision.revision == declared.revision
        && DistinctTargets(profile.revision.mappings)
  }

  lemma NewProfilesSnoc(profiles: seq<StoredProfile>, n: nat, declared: seq<DeclaredProfile>, inputId: nat, low: nat,
                        high: nat, next: StoredProfile)
    requires NewProfiles(profiles, n, declared, inputId, low, high) && |profiles| < |declared|
    requires |profiles| < n || (NewProfile(next, declared[|profiles|], inputId) && low <= high == next.revision.id)
    ensures NewProfiles(profiles + [next], n, declared, inputId, low, if |profiles| < n then high else high + 1)
  {
    hide NewProfile;
  }

  /** A stored profile was declared as something else. */
  predicate ProfileConflicts(declared: seq<DeclaredProfile>, stored: seq<StoredProfile>, digest: Digester) {
    exists i :: 0 <= i < |declared| && i < |stored| && stored[i].declared != digest.profile(declared[i])
  }

  /** Plans the profile history of one input, as for schemas. */
  method PlanProfiles(declared: seq<DeclaredProfile>, stored: seq<StoredProfile>, inputId: nat,
                      schemas: seq<StoredSchema>, ids: IdentityGenerator, digest: Digester)
    returns (r: Result<seq<StoredProfile>, ApplicationError>)
    requires ids.next > REMAINDER_ID && AllSchemas(schemas)
    modifies ids
    ensures ids.next >= old(ids.next)
    ensures r.Success? <==> ProfilesPlannable(declared, stored, schemas, digest)
    ensures r == Failure(HistoryDiverged) <==> |stored| > |declared|
    ensures r == Failure(DefinitionConflict) ==> ProfileConflicts(declared, stored, digest)
    ensures r.Failure? ==> r.error != SchemaIncompatible
    ensures r.Success? ==> stored <= r.value && |r.value| == |declared|
    ensures r.Success? ==> NewProfiles(r.value, |stored|, declared, inputId, old(ids.next), ids.next)
    ensures r.Success? && DistinctIds(schemas) ==> AllProfilesReflect(r.value, declared, schemas, digest)
    ensures AllProfilesReflect(stored, declared, schemas, digest) ==> r == Success(stored) && ids.next == old(ids.next)
  {
    hide ProfileVerified, IsSchema, SchemaWithId, SchemaWithVersion, Resolvable, NewProfile, DataFields, NewProfiles;
    if |stored| > |declared| {
      return Failure(HistoryDiverged);
    }
    var profiles: seq<StoredProfile> := [];
    NoNewProfiles(|stored|, declared, inputId, ids.next);
    for i := 0 to |declared|
      invariant |profiles| == i && ids.next >= old(ids.next)
      invariant forall k :: 0 <= k < i ==> ProfilePlannable(k, declared[k], stored, schemas, digest)
      invariant DistinctIds(schemas) ==> forall k :: 0 <= k < i ==>
                  ProfileReflects(profiles[k], declared[k], schemas, digest)
      invariant NewProfiles(profiles, |stored|, declared, inputId, old(ids.next), ids.next)
      invariant forall k :: 0 <= k < i && k < |stored| ==> profiles[k] == stored[k]
      invariant i <= |stored| ==> ids.next == old(ids.next)
    {
      var target := SchemaWithVersion(schemas, declared[i].targetVersion);
      if target.None? {
        return Failure(CatalogCorrupted);
      }
      ghost var before := ids.next;
      var next;
      if i < |stored| {
        next := stored[i];
        var storedTarget := SchemaWithId(schemas, next.revision.targetSchemaId);
        var verified := false;
        if storedTarget.Some? {
          verified := VerifyProfile(next, storedTarget.value, digest);
        }
        if !verified {
          return Failure(CatalogCorrupted);
        }
        if next.declared != digest.profile(declared[i]) {
          return Failure(DefinitionConflict);
        }
      } else {
        VersionIsFound(schemas, declared[i].targetVersion);
        var created := CreateProfile(declared[i], target.value, inputId, ids, digest);
        if created.Failure? {
          return Failure(created.error);
        }
        next := created.value;
        IsNewProfile(next, declared[i], inputId);
        if DistinctIds(schemas) {
          TargetIsFound(schemas, target.value);
        }
      }
      NewProfilesSnoc(profiles, |stored|, declared, inputId, old(ids.next), before, next);
      profiles := profiles + [next];
    }
    assert |stored| == |declared| ==> profiles == stored;
    return Success(profiles);
  }

  lemma NoNewProfiles(n: nat, declared: seq<DeclaredProfile>, inputId: nat, low: nat)
    ensures NewProfiles([], n, declared, inputId, low, low)
  {
  }

  lemma IsNewProfile(profile: StoredProfile, declared: DeclaredProfile, inputId: nat)
    requires profile.revision.inputId == inputId && profile.revision.revision == declared.revision
    requires DistinctTargets(profile.revision.mappings)
    ensures NewProfile(profile, declared, inputId)
  {
  }

  lemma VersionIsFound(schemas: seq<StoredSchema>, version: nat)
    requires AllSchemas(schemas)
    ensures var found := SchemaWithVersion(schemas, version);
            found.Some? ==>
              && found.value.version == version && IsSchema(found.value)
              && exists i :: 0 <= i < |schemas| && schemas[i].schema == found.value
  {
  }

  lemma TargetIsFound(schemas: seq<StoredSchema>, target: Schema)
    requires DistinctIds(schemas) && exists i :: 0 <= i < |schemas| && schemas[i].schema == target
    ensures SchemaWithId(schemas, target.id) == Some(target)
  {
    var i :| 0 <= i < |schemas| && schemas[i].schema == target;
    FoundById(schemas, i);
  }
}
