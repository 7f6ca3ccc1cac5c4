/** Which manifests can be applied, said of their declarations: a consistent manifest is exactly one that a valid source
    can be what it declares. */
module CatalogConsistency {
  import opened Basics
  import opened Schemas
  import opened Catalog
  import opened CatalogInputs

  /** What the constructor of a source checks of a source. */
  ghost predicate SourceOk(source: Source) {
    && source.schemas != [] && AllSchemas(source.schemas)
    && HistoryOk(source.id, source.activeId, Plain(source.schemas))
    && InputsOk(source.id, source.schemas, source.inputs)
  }

  /** The source is what the manifest declares. */
  ghost predicate ReflectsManifest(source: Source, manifest: Manifest, digest: Digester) {
    && source.name == manifest.name && source.displayName == manifest.displayName
    && source.declared == digest.source(manifest.name)
    && AllReflect(source.schemas, manifest.schemas, digest)
    && (var active := SchemaWithVersion(source.schemas, manifest.activeVersion);
        active.Some? && active.value.id == source.activeId)
    && InputsReflect(source.inputs, InOrder(manifest.inputs), source.id, source.schemas, digest)
  }

  // ---------- declarations ----------

  /** The same but for the description. */
  predicate SameDeclaration(a: DeclaredField, b: DeclaredField) {
    a.(description := None) == b.(description := None)
  }

  /** The later fields begin with the earlier ones, and what they add may be null. */
  predicate DeclaredExtends(earlier: seq<DeclaredField>, later: seq<DeclaredField>) {
    && |earlier| <= |later| && (forall k :: 0 <= k < |earlier| ==> SameDeclaration(earlier[k], later[k]))
    && forall k :: |earlier| <= k < |later| ==> later[k].nullable
  }

  predicate DeclaredHistoryOk(schemas: seq<DeclaredSchema>, activeVersion: nat) {
    && schemas != [] && (forall i :: 0 <= i < |schemas| ==> Declarable(schemas[i]))
    && (forall i, j :: 0 <= i < j < |schemas| ==> schemas[i].version < schemas[j].version)
    && (forall i :: 0 <= i < |schemas| - 1 ==> DeclaredExtends(schemas[i].fields, schemas[i + 1].fields))
    && (exists i :: 0 <= i < |schemas| && schemas[i].version == activeVersion)
  }

  predicate NamesField(name: string, fields: seq<DeclaredField>) {
    exists i :: 0 <= i < |fields| && fields[i].name == name
  }

  predicate IsMapped(name: string, mappings: seq<DeclaredMapping>) {
    exists k :: 0 <= k < |mappings| && mappings[k].field == name
  }

  /** Every target is a field, none is named twice, and every field that may not be null is a target. */
  predicate MapsOnto(mappings: seq<DeclaredMapping>, fields: seq<DeclaredField>) {
    && (forall k :: 0 <= k < |mappings| ==> NamesField(mappings[k].field, fields))
    && (forall a, b :: 0 <= a < b < |mappings| ==> mappings[a].field != mappings[b].field)
    && (forall i :: 0 <= i < |fields| && !fields[i].nullable ==> IsMapped(fields[i].name, mappings))
  }

  predicate DeclaredProfileOk(profile: DeclaredProfile, schemas: seq<DeclaredSchema>) {
    exists i :: 0 <= i < |schemas| && schemas[i].version == profile.targetVersion
        && MapsOnto(profile.mappings, schemas[i].fields)
  }

  predicate DeclaredInputOk(input: DeclaredInput, schemas: seq<DeclaredSchema>) {
    RevisionsOk(input) && forall k :: 0 <= k < |input.profiles| ==> DeclaredProfileOk(input.profiles[k], schemas)
  }

  /** The manifest by itself declares a source that can be. */
  predicate Consistent(manifest: Manifest) {
    && DeclaredHistoryOk(manifest.schemas, manifest.activeVersion)
    && forall i :: 0 <= i < |manifest.inputs| ==> DeclaredInputOk(manifest.inputs[i], manifest.schemas)
  }

  predicate ProfileKept(stored: StoredProfile, declared: DeclaredProfile, schemas: seq<StoredSchema>,
                        digest: Digester)
  {
    var target := SchemaWithId(schemas, stored.revision.targetSchemaId);
    target.Some? && ProfileVerified(stored, target.value, digest) && stored.declared == digest.profile(declared)
  }

  predicate InputKept(declared: DeclaredInput, stored: Option<StoredInput>, schemas: seq<StoredSchema>,
                      digest: Digester)
  {
    stored.Some? ==>
      && InputVerified(stored.value, digest) && |stored.value.profiles| <= |declared.profiles|
      && forall k :: 0 <= k < |stored.value.profiles| ==>
          ProfileKept(stored.value.profiles[k], declared.profiles[k], schemas, digest)
  }

  /** The manifest still declares everything that is stored. */
  predicate KeepsStored(manifest: Manifest, current: Source, digest: Digester) {
    && current.name == manifest.name && current.declared == digest.source(manifest.name)
    && |current.schemas| <= |manifest.schemas|
    && (forall i :: 0 <= i < |current.schemas| ==> Reflects(current.schemas[i], manifest.schemas[i], digest))
    && AllDeclared(current.inputs, manifest.inputs)
    && (forall i :: 0 <= i < |manifest.inputs| ==>
          InputKept(manifest.inputs[i], InputNamed(current.inputs, manifest.inputs[i].name), current.schemas, digest))
  }

  predicate Applicable(manifest: Manifest, current: Option<Source>, digest: Digester) {
    Consistent(manifest) && (current.Some? ==> KeepsStored(manifest, current.value, digest))
  }

  // ---------- fields by name ----------

  lemma {:induction false} MappedPointwise(mappings: seq<FieldMapping>, fields: seq<Field>)
    requires DeclaredMappings(mappings, fields).Some?
    ensures var declared := DeclaredMappings(mappings, fields).value;
            && |declared| == |mappings|
            && forall k :: 0 <= k < |mappings| ==>
                 var field := FieldWithId(fields, mappings[k].fieldId);
                 field.Some? && field.value.name == declared[k].field
  {
    hide FieldWithId;
    if mappings != [] {
      MappedPointwise(mappings[..|mappings| - 1], fields);
    }
  }

  lemma {:induction false} FoundByItsName(fields: seq<Field>, name: string)
    ensures FieldNamed(fields, name).Some? <==> NamesField(name, DeclarationsOf(fields))
  {
    var declared := DeclarationsOf(fields);
    if FieldNamed(fields, name).Some? {
      NamedField(fields, name);
      var i :| 0 <= i < |fields| && fields[i] == FieldNamed(fields, name).value;
      assert declared[i].name == name;
    } else {
      NotFoundByName(fields, name);
      assert forall i :: 0 <= i < |fields| ==> declared[i].name == fields[i].name;
    }
  }

  lemma {:induction false} NotFoundByName(fields: seq<Field>, name: string)
    requires FieldNamed(fields, name).None?
    ensures forall i :: 0 <= i < |fields| ==> fields[i].name != name
  {
    if fields != [] {
      NotFoundByName(fields[1..], name);
      assert forall i :: 0 < i < |fields| ==> fields[i] == fields[1..][i - 1];
    }
  }

  /** Mappings onto the declared fields can be resolved to the stored ones. */
  lemma MapsResolve(mappings: seq<DeclaredMapping>, fields: seq<Field>)
    requires MapsOnto(mappings, DeclarationsOf(fields))
    ensures Resolvable(mappings, fields)
  {
    hide FieldNamed, DeclarationsOf, NamesField;
    forall k | 0 <= k < |mappings| ensures FieldNamed(fields, mappings[k].field).Some? {
      FoundByItsName(fields, mappings[k].field);
    }
  }

  lemma {:induction false} FieldOfId(fields: seq<Field>, id: nat)
    ensures FieldWithId(fields, id).Some? ==>
              FieldWithId(fields, id).value in fields && FieldWithId(fields, id).value.id == id
  {
  }

  /** Mappings that stand for declared ones onto all fields pass the check of a source. */
  lemma MapsAreOk(mappings: seq<FieldMapping>, fields: seq<Field>, declared: seq<DeclaredMapping>)
    requires DeclaredMappings(mappings, fields) == Some(declared) && DistinctFields(fields)
    requires MapsOnto(declared, DeclarationsOf(fields))
    ensures forall k :: 0 <= k < |mappings| ==> FieldWithId(fields, mappings[k].fieldId).Some?
    ensures forall i :: 0 <= i < |fields| && !fields[i].nullable ==> IsTarget(fields[i].id, mappings)
  {
    hide FieldWithId, DeclaredMappings, NamesField;
    MappedPointwise(mappings, fields);
    forall i | 0 <= i < |fields| && !fields[i].nullable ensures IsTarget(fields[i].id, mappings) {
      assert !DeclarationsOf(fields)[i].nullable && DeclarationsOf(fields)[i].name == fields[i].name;
      assert IsMapped(fields[i].name, declared);
      var k :| 0 <= k < |declared| && declared[k].field == fields[i].name;
      var field := FieldWithId(fields, mappings[k].fieldId).value;
      FieldOfId(fields, mappings[k].fieldId);
      var j :| 0 <= j < |fields| && fields[j] == field;
      assert mappings[k].fieldId == fields[i].id;
    }
  }

  predicate IsTarget(id: nat, mappings: seq<FieldMapping>) {
    exists k :: 0 <= k < |mappings| && mappings[k].fieldId == id
  }

  lemma MappingsAreOk(revision: ProfileRevision, schema: Schema, declared: seq<DeclaredMapping>)
    requires IsSchema(schema) && DeclaredMappings(revision.mappings, DataFields(schema.fields)) == Some(declared)
    requires MapsOnto(declared, DeclarationsOf(DataFields(schema.fields)))
    ensures MappingsOk(revision, schema)
  {
    hide DataFields, FieldWithId, DeclaredMappings, MapsOnto, IsSchema;
    SchemaData(schema);
    var fields := DataFields(schema.fields);
    MapsAreOk(revision.mappings, fields, declared);
    forall i | 0 <= i < |fields| && !fields[i].nullable
      ensures exists k :: 0 <= k < |revision.mappings| && revision.mappings[k].fieldId == fields[i].id
    {
      assert IsTarget(fields[i].id, revision.mappings);
    }
  }

  /** Conversely, mappings of distinct targets that pass stand for declared ones onto all fields. */
  lemma OkMapsOnto(revision: ProfileRevision, schema: Schema, declared: seq<DeclaredMapping>)
    requires IsSchema(schema) && DeclaredMappings(revision.mappings, DataFields(schema.fields)) == Some(declared)
    requires MappingsOk(revision, schema) && DistinctTargets(revision.mappings)
    ensures MapsOnto(declared, DeclarationsOf(DataFields(schema.fields)))
  {
    hide DataFields, FieldWithId, DeclaredMappings, IsSchema;
    SchemaData(schema);
    var mappings, fields := revision.mappings, DataFields(schema.fields);
    var names := DeclarationsOf(fields);
    MappedPointwise(mappings, fields);
    forall k | 0 <= k < |declared| ensures NamesField(declared[k].field, names) {
      FieldOfId(fields, mappings[k].fieldId);
      var j :| 0 <= j < |fields| && fields[j] == FieldWithId(fields, mappings[k].fieldId).value;
      assert names[j].name == declared[k].field;
    }
    forall a, b | 0 <= a < b < |declared| ensures declared[a].field != declared[b].field {
      FieldOfId(fields, mappings[a].fieldId);
      FieldOfId(fields, mappings[b].fieldId);
      DifferentNames(fields, FieldWithId(fields, mappings[a].fieldId).value,
                     FieldWithId(fields, mappings[b].fieldId).value);
    }
    forall i | 0 <= i < |names| && !names[i].nullable ensures IsMapped(names[i].name, declared) {
      assert !fields[i].nullable;
      var k :| 0 <= k < |mappings| && mappings[k].fieldId == fields[i].id;
      FoundFieldById(fields, fields[i]);
      assert declared[k].field == names[i].name;
    }
  }

  lemma DifferentNames(fields: seq<Field>, a: Field, b: Field)
    requires DistinctFields(fields) && a in fields && b in fields && a.id != b.id
    ensures a.name != b.name
  {
    var i :| 0 <= i < |fields| && fields[i] == a;
    var j :| 0 <= j < |fields| && fields[j] == b;
  }

  // ---------- histories ----------

  /** Every schema is what is declared at its place. */
  predicate Stands(schemas: seq<StoredSchema>, declared: seq<DeclaredSchema>) {
    |schemas| == |declared| && forall i :: 0 <= i < |schemas| ==> DeclarationOf(schemas[i].schema) == declared[i]
  }

  lemma ReflectingStand(schemas: seq<StoredSchema>, declared: seq<DeclaredSchema>, digest: Digester)
    requires TellsSchemasApart(digest) && AllReflect(schemas, declared, digest)
    ensures Stands(schemas, declared)
  {
    hide DeclarationOf, TellsSchemasApart, Reflects;
    forall i | 0 <= i < |schemas| ensures DeclarationOf(schemas[i].schema) == declared[i] {
      ReflectingIsDeclared(schemas[i], declared[i], digest);
    }
  }

  lemma ExtendsDeclares(a: seq<Field>, b: seq<Field>)
    requires Extends(a, b)
    ensures DeclaredExtends(DeclarationsOf(a), DeclarationsOf(b))
  {
    forall k | 0 <= k < |a| ensures SameDeclaration(DeclarationsOf(a)[k], DeclarationsOf(b)[k]) {
      assert Cores(a)[k] == Cores(b)[k];
    }
  }

  lemma DeclaresExtends(a: seq<Field>, b: seq<Field>)
    requires DeclaredExtends(DeclarationsOf(a), DeclarationsOf(b))
    requires forall k :: 0 <= k < |a| && k < |b| && a[k].name == b[k].name ==> a[k].id == b[k].id
    ensures Extends(a, b)
  {
    forall k | 0 <= k < |a| ensures Cores(a)[k] == Cores(b)[k] {
      assert SameDeclaration(DeclarationsOf(a)[k], DeclarationsOf(b)[k]);
    }
    forall k | |a| <= k < |b| ensures b[k].nullable {
      assert DeclarationsOf(b)[k].nullable;
    }
  }

  lemma {:induction false} DataIsMember(schemas: seq<StoredSchema>, i: nat, k: nat)
    requires i < |schemas| && k < |DataFields(schemas[i].schema.fields)|
    ensures DataFields(schemas[i].schema.fields)[k] in DataOf(schemas)
    decreases |schemas|
  {
    hide DataOf, DataFields;
    var n := |schemas| - 1;
    assert schemas == schemas[..n] + [schemas[n]];
    DataOfSnoc(schemas[..n], schemas[n]);
    if i < n {
      DataIsMember(schemas[..n], i, k);
    }
  }

  lemma PairedMembers(fields: seq<Field>, a: Field, b: Field)
    requires Paired(fields) && a in fields && b in fields
    ensures a.id == b.id <==> a.name == b.name
  {
    var i :| 0 <= i < |fields| && fields[i] == a;
    var j :| 0 <= j < |fields| && fields[j] == b;
  }

  lemma NeighboursExtend(schemas: seq<StoredSchema>, i: nat)
    requires i + 1 < |schemas| && Paired(DataOf(schemas))
    requires DeclaredExtends(DeclarationOf(schemas[i].schema).fields, DeclarationOf(schemas[i + 1].schema).fields)
    ensures Extends(DataFields(schemas[i].schema.fields), DataFields(schemas[i + 1].schema.fields))
  {
    hide DataOf, DataFields, Paired;
    var a, b := DataFields(schemas[i].schema.fields), DataFields(schemas[i + 1].schema.fields);
    forall k | 0 <= k < |a| && k < |b| && a[k].name == b[k].name ensures a[k].id == b[k].id {
      DataIsMember(schemas, i, k);
      DataIsMember(schemas, i + 1, k);
      PairedMembers(DataOf(schemas), a[k], b[k]);
    }
    DeclaresExtends(a, b);
  }

  lemma {:induction false} VersionFoundAt(schemas: seq<StoredSchema>, i: nat)
    requires i < |schemas|
    ensures SchemaWithVersion(schemas, schemas[i].schema.version).Some?
  {
    if i > 0 {
      VersionFoundAt(schemas[1..], i - 1);
    }
  }

  lemma {:induction false} FoundWithVersion(schemas: seq<StoredSchema>, version: nat)
    ensures SchemaWithVersion(schemas, version).Some? ==>
              exists i :: 0 <= i < |schemas| && schemas[i].schema == SchemaWithVersion(schemas, version).value
                && schemas[i].schema.version == version
  {
  }

  lemma {:induction false} FoundWithId(schemas: seq<StoredSchema>, id: nat)
    ensures SchemaWithId(schemas, id).Some? ==>
              exists i :: 0 <= i < |schemas| && schemas[i].schema == SchemaWithId(schemas, id).value
  {
  }

  /** A history that stands for a consistent one is valid. */
  lemma HistoryIsOk(sourceId: nat, activeId: nat, schemas: seq<StoredSchema>, declared: seq<DeclaredSchema>,
                    activeVersion: nat, next: nat)
    requires Stands(schemas, declared) && DeclaredHistoryOk(declared, activeVersion) && KnownSchemas(schemas, next)
    requires forall i :: 0 <= i < |schemas| ==> schemas[i].schema.sourceId == sourceId
    requires SchemaWithVersion(schemas, activeVersion).Some?
             && SchemaWithVersion(schemas, activeVersion).value.id == activeId
    ensures schemas != [] && HistoryOk(sourceId, activeId, Plain(schemas))
  {
    hide DataFields, SchemaWithVersion, DeclaredExtends, Declarable, Paired;
    var plain := Plain(schemas);
    FoundWithVersion(schemas, activeVersion);
    forall i, j | 0 <= i < j < |plain| ensures plain[i].version < plain[j].version && plain[i].id != plain[j].id {
      assert declared[i].version < declared[j].version;
    }
    forall i | 0 <= i < |plain| - 1 ensures Extends(DataFields(plain[i].fields), DataFields(plain[i + 1].fields)) {
      assert DeclaredExtends(declared[i].fields, declared[i + 1].fields);
      NeighboursExtend(schemas, i);
    }
    var i :| 0 <= i < |schemas| && schemas[i].schema == SchemaWithVersion(schemas, activeVersion).value;
    assert plain[i].id == activeId;
  }

  lemma SchemaIsDeclarable(schema: Schema)
    requires IsSchema(schema)
    ensures Declarable(DeclarationOf(schema))
  {
    hide DataFields;
    SchemaData(schema);
    var fields, declared := DataFields(schema.fields), DeclarationOf(schema).fields;
    forall k | 0 <= k < |declared| ensures declared[k].pointer.Some? ==> declared[k].nullable {
      assert IsUserField(fields[k]);
    }
    forall a, b | 0 <= a < b < |declared| ensures declared[a].name != declared[b].name {
      assert fields[a].name != fields[b].name;
    }
  }

  /** And a valid history stands for a consistent one. */
  lemma HistoryIsConsistent(sourceId: nat, activeId: nat, schemas: seq<StoredSchema>, declared: seq<DeclaredSchema>,
                            activeVersion: nat)
    requires Stands(schemas, declared) && schemas != [] && AllSchemas(schemas)
             && HistoryOk(sourceId, activeId, Plain(schemas))
    requires SchemaWithVersion(schemas, activeVersion).Some?
    ensures DeclaredHistoryOk(declared, activeVersion)
  {
    hide DataFields, SchemaWithVersion, DeclaredExtends, Extends, Declarable, Paired, IsSchema;
    var plain := Plain(schemas);
    forall i | 0 <= i < |declared| ensures Declarable(declared[i]) {
      SchemaIsDeclarable(schemas[i].schema);
    }
    forall i, j | 0 <= i < j < |declared| ensures declared[i].version < declared[j].version {
      assert plain[i].version < plain[j].version;
    }
    forall i | 0 <= i < |declared| - 1 ensures DeclaredExtends(declared[i].fields, declared[i + 1].fields) {
      assert Extends(DataFields(plain[i].fields), DataFields(plain[i + 1].fields));
      ExtendsDeclares(DataFields(plain[i].fields), DataFields(plain[i + 1].fields));
    }
    FoundWithVersion(schemas, activeVersion);
    var i :| 0 <= i < |schemas| && schemas[i].schema == SchemaWithVersion(schemas, activeVersion).value
      && schemas[i].schema.version == activeVersion;
    assert declared[i].version == activeVersion;
  }

  // ---------- profiles and inputs ----------

  lemma TargetStands(target: Schema, schemas: seq<StoredSchema>, declared: seq<DeclaredSchema>) returns (i: nat)
    requires Stands(schemas, declared) && exists k :: 0 <= k < |schemas| && schemas[k].schema == target
    ensures i < |declared| && DeclarationOf(target) == declared[i]
  {
    hide DeclarationOf;
    i :| 0 <= i < |schemas| && schemas[i].schema == target;
  }

  /** A profile that stands for a consistent one is valid. */
  lemma ProfileIsOk(profile: StoredProfile, declared: DeclaredProfile, schemas: seq<StoredSchema>,
                    manifest: seq<DeclaredSchema>, activeVersion: nat, digest: Digester)
    requires TellsProfilesApart(digest) && ProfileReflects(profile, declared, schemas, digest)
    requires Stands(schemas, manifest) && AllSchemas(schemas) && DeclaredHistoryOk(manifest, activeVersion)
    requires DeclaredProfileOk(declared, manifest)
    ensures ProfileOk(profile, schemas)
  {
    hide SchemaWithId, SchemaWithVersion, DataFields, MapsOnto, IsSchema, DeclaredExtends, Declarable, DeclaredMappings,
      MappingsOk;
    ReflectingProfileIsDeclared(profile, declared, schemas, digest);
    var target := SchemaWithId(schemas, profile.revision.targetSchemaId).value;
    FoundWithId(schemas, profile.revision.targetSchemaId);
    var j := TargetStands(target, schemas, manifest);
    var i :| 0 <= i < |manifest| && manifest[i].version == declared.targetVersion
        && MapsOnto(declared.mappings, manifest[i].fields);
    assert manifest[j].version == declared.targetVersion;
    assert i == j;
    MappingsAreOk(profile.revision, target, declared.mappings);
  }

  /** And a valid profile of distinct targets stands for a consistent one. */
  lemma ProfileIsConsistent(profile: StoredProfile, declared: DeclaredProfile, schemas: seq<StoredSchema>,
                            manifest: seq<DeclaredSchema>, digest: Digester)
    requires TellsProfilesApart(digest) && ProfileReflects(profile, declared, schemas, digest)
    requires Stands(schemas, manifest) && AllSchemas(schemas)
    requires ProfileOk(profile, schemas) && DistinctTargets(profile.revision.mappings)
    ensures DeclaredProfileOk(declared, manifest)
  {
    hide SchemaWithId, SchemaWithVersion, DataFields, MapsOnto, IsSchema, DeclaredMappings, MappingsOk;
    ReflectingProfileIsDeclared(profile, declared, schemas, digest);
    var target := SchemaWithId(schemas, profile.revision.targetSchemaId).value;
    FoundWithId(schemas, profile.revision.targetSchemaId);
    var j := TargetStands(target, schemas, manifest);
    OkMapsOnto(profile.revision, target, declared.mappings);
    assert manifest[j].version == declared.targetVersion && MapsOnto(declared.mappings, manifest[j].fields);
  }

  lemma {:induction false} InputsAreOk(
      inputs: seq<StoredInput>, declared: seq<DeclaredInput>, sourceId: nat, schemas: seq<StoredSchema>,
      manifest: seq<DeclaredSchema>, activeVersion: nat, digest: Digester)
    requires TellsProfilesApart(digest) && InputsReflect(inputs, declared, sourceId, schemas, digest)
    requires Stands(schemas, manifest) && AllSchemas(schemas) && DeclaredHistoryOk(manifest, activeVersion)
    requires DistinctNames(declared) && DistinctInputIds(inputs)
    requires forall i :: 0 <= i < |declared| ==> DeclaredInputOk(declared[i], manifest)
    ensures InputsOk(sourceId, schemas, inputs)
  {
    hide Stands, AllSchemas, DeclaredHistoryOk, DeclaredProfileOk, ProfileOk, TellsProfilesApart, ProfileReflects,
      RevisionsOk, InputVerified, ActiveProfile, InputOk;
    forall i | 0 <= i < |inputs| ensures inputs[i].sourceId == sourceId && ProfilesOk(inputs[i].profiles, schemas) {
      assert InputReflects(inputs[i], declared[i], sourceId, schemas, digest) && DeclaredInputOk(declared[i], manifest);
      forall k | 0 <= k < |inputs[i].profiles| ensures ProfileOk(inputs[i].profiles[k], schemas) {
        ProfileIsOk(inputs[i].profiles[k], declared[i].profiles[k], schemas, manifest, activeVersion, digest);
      }
    }
    forall i, j | 0 <= i < j < |inputs| ensures inputs[i].id != inputs[j].id && inputs[i].name != inputs[j].name {
      assert InputReflects(inputs[i], declared[i], sourceId, schemas, digest)
             && InputReflects(inputs[j], declared[j], sourceId, schemas, digest);
    }
  }

  lemma ReflectedRevisions(profiles: seq<StoredProfile>, declared: seq<DeclaredProfile>, schemas: seq<StoredSchema>,
                           digest: Digester)
    requires TellsProfilesApart(digest) && AllProfilesReflect(profiles, declared, schemas, digest)
    ensures SameRevisions(profiles, declared)
  {
    hide ProfileReflects, TellsProfilesApart;
    forall k | 0 <= k < |profiles| ensures profiles[k].revision.revision == declared[k].revision {
      ReflectedRevision(profiles[k], declared[k], schemas, digest);
    }
  }

  lemma BuiltRevisions(input: StoredInput, declared: DeclaredInput)
    requires InputOk(input) && SameRevisions(input.profiles, declared.profiles)
    requires ActiveProfile(input.profiles, declared.activeRevision).Some?
    ensures RevisionsOk(declared)
  {
    hide ActiveProfile;
    ActiveIsFound(input.profiles, declared.activeRevision);
    var k :| 0 <= k < |input.profiles| && input.profiles[k].revision.revision == declared.activeRevision;
    assert declared.profiles[k].revision == declared.activeRevision;
  }

  lemma InputIsConsistent(input: StoredInput, declared: DeclaredInput, sourceId: nat, schemas: seq<StoredSchema>,
                          manifest: seq<DeclaredSchema>, digest: Digester)
    requires TellsProfilesApart(digest) && InputReflects(input, declared, sourceId, schemas, digest)
    requires Stands(schemas, manifest) && AllSchemas(schemas) && ProfilesOk(input.profiles, schemas) && WellBuilt(input)
    ensures DeclaredInputOk(declared, manifest)
  {
    hide Stands, AllSchemas, ProfileOk, TellsProfilesApart, ProfileReflects, InputVerified, ActiveProfile,
      DeclaredProfileOk, RevisionsOk, InputOk, SameRevisions, DistinctTargets;
    ReflectedRevisions(input.profiles, declared.profiles, schemas, digest);
    BuiltRevisions(input, declared);
    forall k | 0 <= k < |declared.profiles| ensures DeclaredProfileOk(declared.profiles[k], manifest) {
      ProfileIsConsistent(input.profiles[k], declared.profiles[k], schemas, manifest, digest);
    }
  }

  /** A valid source that is what a manifest declares shows the manifest to be consistent. */
  lemma {:induction false} SourceIsConsistent(source: Source, manifest: Manifest, digest: Digester)
    requires TellsSchemasApart(digest) && TellsProfilesApart(digest) && ManifestOk(manifest)
    requires SourceOk(source) && AllWellBuilt(source.inputs) && ReflectsManifest(source, manifest, digest)
    ensures Consistent(manifest)
  {
    hide Stands, HistoryOk, AllSchemas, TellsSchemasApart, TellsProfilesApart, InputReflects, WellBuilt, ProfilesOk,
      DeclaredHistoryOk, DeclaredInputOk, AllReflect, SchemaWithVersion, InOrder, SchemaDeclarationOk;
    ReflectingStand(source.schemas, manifest.schemas, digest);
    HistoryIsConsistent(source.id, source.activeId, source.schemas, manifest.schemas, manifest.activeVersion);
    var sorted := InOrder(manifest.inputs);
    forall i | 0 <= i < |sorted| ensures DeclaredInputOk(sorted[i], manifest.schemas) {
      InputIsConsistent(source.inputs[i], sorted[i], source.id, source.schemas, manifest.schemas, digest);
    }
    SortedNames(manifest.inputs);
    forall i | 0 <= i < |manifest.inputs| ensures DeclaredInputOk(manifest.inputs[i], manifest.schemas) {
      assert manifest.inputs[i] in sorted;
    }
  }

  // ---------- what is stored ----------

  lemma {:induction false} FoundInPrefix(current: seq<StoredSchema>, schemas: seq<StoredSchema>, id: nat)
    requires current <= schemas && SchemaWithId(current, id).Some?
    ensures SchemaWithId(schemas, id) == SchemaWithId(current, id)
  {
    if current[0].schema.id != id {
      FoundInPrefix(current[1..], schemas[1..], id);
    }
  }

  lemma VersionOfTarget(declared: DeclaredProfile, schemas: seq<StoredSchema>, manifest: seq<DeclaredSchema>,
                        activeVersion: nat)
    requires Stands(schemas, manifest) && DeclaredHistoryOk(manifest, activeVersion)
             && DeclaredProfileOk(declared, manifest)
    ensures SchemaWithVersion(schemas, declared.targetVersion).Some?
    ensures Resolvable(declared.mappings, DataFields(SchemaWithVersion(schemas, declared.targetVersion).value.fields))
  {
    hide SchemaWithVersion, DataFields, MapsOnto, DeclaredExtends, Declarable, Resolvable;
    var i :| 0 <= i < |manifest| && manifest[i].version == declared.targetVersion
        && MapsOnto(declared.mappings, manifest[i].fields);
    assert DeclarationOf(schemas[i].schema) == manifest[i];
    VersionFoundAt(schemas, i);
    FoundWithVersion(schemas, declared.targetVersion);
    var target := SchemaWithVersion(schemas, declared.targetVersion).value;
    var j :| 0 <= j < |schemas| && schemas[j].schema == target && schemas[j].schema.version == declared.targetVersion;
    assert DeclarationOf(schemas[j].schema) == manifest[j];
    assert i == j;
    MapsResolve(declared.mappings, DataFields(target.fields));
  }

  /** A consistent input that keeps what is stored can be planned. */
  lemma KeptIsPlannable(declared: DeclaredInput, stored: Option<StoredInput>, current: seq<StoredSchema>,
                        schemas: seq<StoredSchema>, manifest: seq<DeclaredSchema>, activeVersion: nat, digest: Digester)
    requires Stands(schemas, manifest) && DeclaredHistoryOk(manifest, activeVersion)
             && DeclaredInputOk(declared, manifest)
    requires current <= schemas && InputKept(declared, stored, current, digest)
    ensures InputPlannable(declared, stored, schemas, digest)
  {
    hide Stands, DeclaredHistoryOk, DeclaredProfileOk, SchemaWithVersion, SchemaWithId, Resolvable, DataFields,
      ProfileVerified, RevisionsOk, InputVerified;
    forall k | 0 <= k < |declared.profiles|
      ensures ProfilePlannable(k, declared.profiles[k], ProfilesOf(stored), schemas, digest)
    {
      VersionOfTarget(declared.profiles[k], schemas, manifest, activeVersion);
      if k < |ProfilesOf(stored)| {
        assert ProfileKept(stored.value.profiles[k], declared.profiles[k], current, digest);
        FoundInPrefix(current, schemas, stored.value.profiles[k].revision.targetSchemaId);
      }
    }
  }

  /** And one that can be planned keeps what is stored. */
  lemma PlannableIsKept(declared: DeclaredInput, stored: Option<StoredInput>, current: seq<StoredSchema>,
                        schemas: seq<StoredSchema>, digest: Digester)
    requires InputPlannable(declared, stored, schemas, digest) && current <= schemas
    requires stored.Some? ==> ProfilesOk(stored.value.profiles, current)
    ensures InputKept(declared, stored, current, digest)
  {
    hide SchemaWithVersion, SchemaWithId, Resolvable, DataFields, ProfileVerified, RevisionsOk, InputVerified,
      MappingsOk;
    if stored.Some? {
      forall k | 0 <= k < |stored.value.profiles|
        ensures ProfileKept(stored.value.profiles[k], declared.profiles[k], current, digest)
      {
        assert ProfilePlannable(k, declared.profiles[k], ProfilesOf(stored), schemas, digest);
        assert ProfileOk(stored.value.profiles[k], current);
        FoundInPrefix(current, schemas, stored.value.profiles[k].revision.targetSchemaId);
      }
    }
  }
}
