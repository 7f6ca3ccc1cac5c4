/** The whole application of a manifest: source, schemas, inputs and profiles. */
module CatalogApplication {
  import opened Basics
  import opened Schemas
  import opened Catalog
  import opened CatalogInputs
  import opened CatalogConsistency

  // ---------- the application ----------

  datatype Outcome = Created | Updated | Unchanged

  datatype Plan = Plan(outcome: Outcome, source: Source)

  lemma HistoryHasDistinctIds(sourceId: nat, activeId: nat, schemas: seq<StoredSchema>)
    requires HistoryOk(sourceId, activeId, Plain(schemas))
    ensures DistinctIds(schemas)
  {
    hide Extends, Paired;
    forall a, b | 0 <= a < b < |schemas| ensures schemas[a].schema.id != schemas[b].schema.id {
      assert Plain(schemas)[a].id != Plain(schemas)[b].id;
    }
  }

  lemma InputsHaveDistinctNames(sourceId: nat, schemas: seq<StoredSchema>, inputs: seq<StoredInput>)
    requires InputsOk(sourceId, schemas, inputs)
    ensures DistinctStoredNames(inputs)
  {
  }

  /** Nothing stored is lost or changed: the schema history is a prefix, and so is every profile history. */
  predicate ExtendsSource(current: Source, source: Source) {
    && source.id == current.id && source.name == current.name
    && current.schemas <= source.schemas && InputsGrow(current.inputs, source.inputs)
  }

  predicate ActiveProfilesChanged(current: seq<StoredInput>, inputs: seq<StoredInput>) {
    exists i :: 0 <= i < |inputs| &&
      var stored := InputNamed(current, inputs[i].name);
      stored.Some? && stored.value.activeProfileId != inputs[i].activeProfileId
  }

  lemma NoProfileChanged(inputs: seq<StoredInput>)
    requires DistinctStoredNames(inputs)
    ensures !ActiveProfilesChanged(inputs, inputs)
  {
    hide InputNamed;
    forall i | 0 <= i < |inputs|
      ensures InputNamed(inputs, inputs[i].name) == Some(inputs[i])
    {
      FoundByName(inputs, i);
    }
  }

  /** Builds the source and validates it as a whole. */
  method NewSource(id: nat, manifest: Manifest, declared: int, activeId: nat, schemas: seq<StoredSchema>,
                   inputs: seq<StoredInput>)
    returns (r: Result<Source, ApplicationError>)
    requires AllSchemas(schemas)
    ensures var source := Source(id, manifest.name, manifest.displayName, declared, schemas, activeId, inputs);
            (r == Success(source) && SourceOk(source)) || (r.Failure? && !SourceOk(source))
    ensures r.Failure? ==>
              r.error == if schemas == [] || HistoryOk(id, activeId, Plain(schemas)) then CatalogCorrupted
                         else SchemaIncompatible
  {
    hide HistoryOk, InputsOk;
    if schemas == [] {
      return Failure(CatalogCorrupted);
    }
    var history := ValidateHistory(id, activeId, Plain(schemas));
    if history.Failure? {
      return Failure(SchemaIncompatible);
    }
    var ok := ValidateInputs(id, schemas, inputs);
    if !ok {
      return Failure(CatalogCorrupted);
    }
    return Success(Source(id, manifest.name, manifest.displayName, declared, schemas, activeId, inputs));
  }

  // ---------- when it succeeds ----------

  /** The stored source has been built by its constructors, and generating gives none of its identities again. */
  predicate OldSource(current: Option<Source>, next: nat) {
    current.Some? ==>
      KnownSchemas(current.value.schemas, next) && AllStoredOk(current.value.inputs, current.value.id, next)
  }

  function StoredSchemas(current: Option<Source>): seq<StoredSchema> {
    if current.Some? then current.value.schemas else []
  }

  function StoredInputs(current: Option<Source>): seq<StoredInput> {
    if current.Some? then current.value.inputs else []
  }

  lemma StoredIsKnown(current: Option<Source>, sourceId: nat, next: nat)
    requires OldSource(current, next) && (current.Some? ==> current.value.id == sourceId)
    ensures KnownSchemas(StoredSchemas(current), next)
    ensures forall later :: later >= next ==> AllStoredOk(StoredInputs(current), sourceId, later)
  {
    hide KnownSchemas;
    if current.None? {
      NothingIsKnown(next);
    } else {
      forall later | later >= next ensures AllStoredOk(current.value.inputs, sourceId, later) {
        forall i | 0 <= i < |current.value.inputs| ensures StoredOk(Some(current.value.inputs[i]), sourceId, later) {
          OldLater(Some(current.value.inputs[i]), sourceId, next, later);
        }
      }
    }
  }

  lemma NothingIsKnown(next: nat)
    ensures KnownSchemas([], next)
  {
  }

  lemma ApplicableSchemas(manifest: Manifest, current: Option<Source>, digest: Digester)
    requires Applicable(manifest, current, digest)
    ensures SchemasPlannable(manifest.schemas, StoredSchemas(current), digest)
  {
    hide Reflects, Declarable, DeclaredExtends, InputKept, DeclaredInputOk;
  }

  lemma ApplicableVersion(manifest: Manifest, current: Option<Source>, schemas: seq<StoredSchema>, digest: Digester)
    requires Applicable(manifest, current, digest) && Stands(schemas, manifest.schemas)
    ensures SchemaWithVersion(schemas, manifest.activeVersion).Some?
  {
    hide SchemaWithVersion, Declarable, DeclaredExtends, KeepsStored, DeclaredInputOk;
    var i :| 0 <= i < |manifest.schemas| && manifest.schemas[i].version == manifest.activeVersion;
    assert DeclarationOf(schemas[i].schema) == manifest.schemas[i];
    VersionFoundAt(schemas, i);
  }

  lemma {:induction false} ApplicableInputs(manifest: Manifest, current: Option<Source>, schemas: seq<StoredSchema>,
                                            digest: Digester)
    requires Applicable(manifest, current, digest) && Stands(schemas, manifest.schemas)
             && StoredSchemas(current) <= schemas
    ensures AllDeclared(StoredInputs(current), manifest.inputs)
    ensures InputsPlannable(manifest.inputs, StoredInputs(current), schemas, digest)
  {
    hide Stands, DeclaredHistoryOk, DeclaredInputOk, InputKept, InputPlannable, InputNamed, Reflects;
    forall k | 0 <= k < |manifest.inputs|
      ensures InputPlannable(manifest.inputs[k], InputNamed(StoredInputs(current), manifest.inputs[k].name), schemas,
                             digest)
    {
      var stored := InputNamed(StoredInputs(current), manifest.inputs[k].name);
      if current.None? {
        NothingKept(manifest.inputs[k], digest);
      }
      KeptIsPlannable(manifest.inputs[k], stored, StoredSchemas(current), schemas, manifest.schemas,
                      manifest.activeVersion, digest);
    }
  }

  lemma NothingKept(declared: DeclaredInput, digest: Digester)
    ensures InputNamed([], declared.name).None? && InputKept(declared, None, [], digest)
  {
  }

  /** What is planned from an applicable manifest is a valid source. */
  lemma {:induction false} ApplicableSource(manifest: Manifest, current: Option<Source>, source: Source, next: nat,
                                            digest: Digester)
    requires ManifestOk(manifest) && Applicable(manifest, current, digest)
    requires TellsSchemasApart(digest) && TellsProfilesApart(digest)
    requires AllSchemas(source.schemas) && AllReflect(source.schemas, manifest.schemas, digest)
             && KnownSchemas(source.schemas, next)
    requires forall i :: 0 <= i < |source.schemas| ==> source.schemas[i].schema.sourceId == source.id
    requires SchemaWithVersion(source.schemas, manifest.activeVersion).Some?
    requires SchemaWithVersion(source.schemas, manifest.activeVersion).value.id == source.activeId
    requires InputsReflect(source.inputs, InOrder(manifest.inputs), source.id, source.schemas, digest)
             && DistinctInputIds(source.inputs)
    ensures SourceOk(source)
  {
    hide SchemaWithVersion, KnownSchemas, AllReflect, InputsReflect, InOrder, TellsSchemasApart, TellsProfilesApart,
      DeclaredHistoryOk,
      DeclaredInputOk, KeepsStored, HistoryOk, InputsOk, AllSchemas, DistinctInputIds, Stands, SchemaDeclarationOk;
    ReflectingStand(source.schemas, manifest.schemas, digest);
    HistoryIsOk(source.id, source.activeId, source.schemas, manifest.schemas, manifest.activeVersion, next);
    SortedNames(manifest.inputs);
    SortedMembers(manifest.inputs);
    var sorted := InOrder(manifest.inputs);
    forall i | 0 <= i < |sorted| ensures DeclaredInputOk(sorted[i], manifest.schemas) {
      var j :| 0 <= j < |manifest.inputs| && manifest.inputs[j] == sorted[i];
    }
    InputsAreOk(source.inputs, sorted, source.id, source.schemas, manifest.schemas, manifest.activeVersion, digest);
  }

  /** What was planned for a stored source kept everything it had. */
  lemma {:induction false} PlannedKeeps(manifest: Manifest, current: Source, schemas: seq<StoredSchema>,
                                        digest: Digester)
    requires SourceOk(current) && current.name == manifest.name && current.declared == digest.source(manifest.name)
    requires SchemasPlannable(manifest.schemas, current.schemas, digest) && current.schemas <= schemas
    requires AllDeclared(current.inputs, manifest.inputs)
             && InputsPlannable(manifest.inputs, current.inputs, schemas, digest)
    ensures KeepsStored(manifest, current, digest)
  {
    hide HistoryOk, AllSchemas, Reflects, InputPlannable, InputKept, InputNamed, ProfilesOk, Declarable, AllDeclared;
    forall i | 0 <= i < |manifest.inputs|
      ensures InputKept(manifest.inputs[i], InputNamed(current.inputs, manifest.inputs[i].name), current.schemas,
                        digest)
    {
      var stored := InputNamed(current.inputs, manifest.inputs[i].name);
      NamedIsMember(current.inputs, manifest.inputs[i].name);
      PlannableIsKept(manifest.inputs[i], stored, current.schemas, schemas, digest);
    }
  }

  lemma {:induction false} NamedIsMember(inputs: seq<StoredInput>, name: nat)
    ensures InputNamed(inputs, name).Some? ==>
              exists i :: 0 <= i < |inputs| && inputs[i] == InputNamed(inputs, name).value
  {
  }

  lemma SameSourceIds(current: Option<Source>, schemas: seq<StoredSchema>, sourceId: nat)
    requires current.Some? ==> SourceOk(current.value) && current.value.id == sourceId
    requires StoredSchemas(current) <= schemas
    requires forall i :: |StoredSchemas(current)| <= i < |schemas| ==> schemas[i].schema.sourceId == sourceId
    ensures forall i :: 0 <= i < |schemas| ==> schemas[i].schema.sourceId == sourceId
  {
    hide InputsOk, Extends, Paired;
    forall i | 0 <= i < |schemas| ensures schemas[i].schema.sourceId == sourceId {
      if i < |StoredSchemas(current)| {
        assert Plain(current.value.schemas)[i] == schemas[i].schema;
      }
    }
  }

  lemma Named(manifest: Manifest, current: Option<Source>, digest: Digester)
    requires Applicable(manifest, current, digest) && current.Some?
    ensures current.value.name == manifest.name && current.value.declared == digest.source(manifest.name)
  {
    hide Consistent, Reflects, InputKept;
  }

  /** The manifest declares less than is stored. */
  predicate Diverges(manifest: Manifest, current: Source) {
    || |current.schemas| > |manifest.schemas|
    || !AllDeclared(current.inputs, manifest.inputs)
    || AnyDiverges(manifest.inputs, current.inputs)
  }

  /** The manifest declares something stored as something else. */
  predicate Conflicts(manifest: Manifest, current: Source, digest: Digester) {
    || SchemaConflicts(manifest.schemas, current.schemas, digest)
    || AnyConflicts(manifest.inputs, current.inputs, digest)
  }

  /** A new source neither diverges nor conflicts. */
  lemma NothingStored(manifest: Manifest, digest: Digester)
    ensures !SchemaConflicts(manifest.schemas, [], digest) && AllDeclared([], manifest.inputs)
    ensures !AnyDiverges(manifest.inputs, []) && !AnyConflicts(manifest.inputs, [], digest)
  {
    assert forall name :: InputNamed([], name).None?;
  }

  /** Applies a manifest. A plan that succeeds makes the source what the manifest declares while keeping everything it
      had; and where the source already is what the manifest declares, the plan is that nothing changes and no identity
      is generated. With digests that tell declarations apart and identities that are new it succeeds exactly when the
      manifest is consistent and still declares everything that is stored. */
  method PlanApplication(manifest: Manifest, current: Option<Source>, ids: IdentityGenerator, digest: Digester)
    returns (r: Result<Plan, ApplicationError>)
    requires ManifestOk(manifest) && ids.next > REMAINDER_ID && (current.Some? ==> SourceOk(current.value))
    modifies ids
    ensures TellsSchemasApart(digest) && TellsProfilesApart(digest) && OldSource(current, old(ids.next)) ==>
              (r.Success? <==> Applicable(manifest, current, digest))
    ensures r == Failure(HistoryDiverged) ==> current.Some? && Diverges(manifest, current.value)
    ensures r == Failure(DefinitionConflict) ==> current.Some? && Conflicts(manifest, current.value, digest)
    ensures r.Success? ==> SourceOk(r.value.source) && ReflectsManifest(r.value.source, manifest, digest)
    ensures r.Success? && current.Some? ==> ExtendsSource(current.value, r.value.source)
    ensures r.Success? ==> r.value.outcome == OutcomeOf(current, r.value.source)
    ensures current.Some? && ReflectsManifest(current.value, manifest, digest) ==>
              r == Success(Plan(Unchanged, current.value)) && ids.next == old(ids.next)
  {
    hide SourceOk, AllSchemas, AllReflect, InputsReflect, InputsGrow, DistinctStoredNames, DistinctNames,
      SchemaDeclarationOk, SchemaWithVersion, ActiveProfilesChanged, DistinctIds, TellsSchemasApart, TellsProfilesApart,
      OldSource, Applicable, KnownSchemas, AllStoredOk, SchemasPlannable, InputsPlannable, AllDeclared, Stands,
      AllWellBuilt, DistinctInputIds, KeepsStored, Consistent, AnyProfileCreated, InOrder, SchemaConflicts,
      InputDiverges, InputConflicts;
    ghost var exact := TellsSchemasApart(digest) && TellsProfilesApart(digest) && OldSource(current, ids.next);
    ghost var low := ids.next;
    ghost var applicable := Applicable(manifest, current, digest);
    var declared := digest.source(manifest.name);
    var sourceId;
    ManifestNames(manifest);
    if current.Some? && applicable {
      Named(manifest, current, digest);
    }
    if current.Some? {
      SourceParts(current.value);
      if current.value.name != manifest.name {
        return Failure(CatalogCorrupted);
      }
      if current.value.declared != declared {
        return Failure(CatalogCorrupted);
      }
      sourceId := current.value.id;
    } else {
      NoParts();
      NothingStored(manifest, digest);
      sourceId := ids.Generate();
    }
    var storedSchemas := StoredSchemas(current);
    var storedInputs := StoredInputs(current);
    if exact {
      StoredIsKnown(current, sourceId, low);
      SchemasLater(storedSchemas, low, ids.next);
    }
    if applicable {
      ApplicableSchemas(manifest, current, digest);
    }
    var schemas := PlanSchemas(manifest.schemas, storedSchemas, sourceId, ids, digest);
    if schemas.Failure? {
      return Failure(schemas.error);
    }
    if exact {
      ReflectingStand(schemas.value, manifest.schemas, digest);
      if applicable {
        ApplicableVersion(manifest, current, schemas.value, digest);
        ApplicableInputs(manifest, current, schemas.value, digest);
      }
    }
    var active := SchemaWithVersion(schemas.value, manifest.activeVersion);
    if active.None? {
      return Failure(CatalogCorrupted);
    }
    ghost var next := ids.next;
    var inputs := PlanInputs(manifest.inputs, storedInputs, sourceId, schemas.value, ids, digest);
    if inputs.Failure? {
      return Failure(inputs.error);
    }
    SameSourceIds(current, schemas.value, sourceId);
    ghost var planned := Source(sourceId, manifest.name, manifest.displayName, declared, schemas.value, active.value.id,
                                inputs.value);
    if exact {
      KnownHaveIds(schemas.value, next);
      if applicable {
        ApplicableSource(manifest, current, planned, next, digest);
      }
    }
    var source := NewSource(sourceId, manifest, declared, active.value.id, schemas.value, inputs.value);
    if source.Failure? {
      return Failure(source.error);
    }
    SourceParts(source.value);
    if exact {
      SuccessIsApplicable(manifest, current, source.value, digest);
    }
    if current.Some? {
      NoProfileChanged(current.value.inputs);
    }
    var created := current.None? || |schemas.value| > |storedSchemas| || |inputs.value| > |storedInputs|
                   || AnyProfileCreated(storedInputs, inputs.value);
    var changed := current.Some? &&
                   (current.value.displayName != manifest.displayName || current.value.activeId != active.value.id
                    || ActiveProfilesChanged(current.value.inputs, inputs.value));
    NoProfileCreated(storedInputs);
    ProfilesCompared(storedInputs, inputs.value);
    return Success(Plan(if created then Created else if changed then Updated else Unchanged, source.value));
  }

  /** Some input has more profiles than it had. */
  predicate GainedProfiles(current: seq<StoredInput>, inputs: seq<StoredInput>) {
    exists i, j :: 0 <= i < |inputs| && 0 <= j < |current| &&
      inputs[i].name == current[j].name && |inputs[i].profiles| > |current[j].profiles|
  }

  /** Some input has another active profile than it had. */
  predicate SwitchedProfiles(current: seq<StoredInput>, inputs: seq<StoredInput>) {
    exists i, j :: 0 <= i < |inputs| && 0 <= j < |current| &&
      inputs[i].name == current[j].name && inputs[i].activeProfileId != current[j].activeProfileId
  }

  /** Something was created, or else something was changed, or else nothing was. */
  function OutcomeOf(current: Option<Source>, source: Source): Outcome {
    if current.None? then Created
    else if |source.schemas| > |current.value.schemas| || |source.inputs| > |current.value.inputs|
            || GainedProfiles(current.value.inputs, source.inputs) then Created
    else if source.displayName != current.value.displayName || source.activeId != current.value.activeId
            || SwitchedProfiles(current.value.inputs, source.inputs) then Updated
    else Unchanged
  }

  lemma ProfilesCompared(current: seq<StoredInput>, inputs: seq<StoredInput>)
    requires DistinctStoredNames(current)
    ensures AnyProfileCreated(current, inputs) <==> GainedProfiles(current, inputs)
    ensures ActiveProfilesChanged(current, inputs) <==> SwitchedProfiles(current, inputs)
  {
    forall i, j | 0 <= i < |inputs| && 0 <= j < |current| && inputs[i].name == current[j].name
      ensures InputNamed(current, inputs[i].name) == Some(current[j])
    {
      var found := InputNamed(current, inputs[i].name).value;
      var k :| 0 <= k < |current| && current[k] == found;
    }
    forall i | 0 <= i < |inputs| && InputNamed(current, inputs[i].name).Some?
      ensures exists j :: 0 <= j < |current| && current[j] == InputNamed(current, inputs[i].name).value
    {
    }
  }

  lemma SchemasLater(schemas: seq<StoredSchema>, next: nat, later: nat)
    requires KnownSchemas(schemas, next) && next <= later
    ensures KnownSchemas(schemas, later)
  {
    hide DataOf, Paired;
  }

  lemma KnownHaveIds(schemas: seq<StoredSchema>, next: nat)
    requires KnownSchemas(schemas, next)
    ensures DistinctIds(schemas)
  {
    hide DataOf, Paired;
  }

  lemma SuccessIsApplicable(manifest: Manifest, current: Option<Source>, source: Source, digest: Digester)
    requires ManifestOk(manifest) && TellsSchemasApart(digest) && TellsProfilesApart(digest)
    requires SourceOk(source) && AllWellBuilt(source.inputs) && ReflectsManifest(source, manifest, digest)
    requires current.Some? ==>
               && SourceOk(current.value) && current.value.name == manifest.name
               && current.value.declared == digest.source(manifest.name)
               && SchemasPlannable(manifest.schemas, current.value.schemas, digest)
               && current.value.schemas <= source.schemas
               && AllDeclared(current.value.inputs, manifest.inputs)
               && InputsPlannable(manifest.inputs, current.value.inputs, source.schemas, digest)
    ensures Applicable(manifest, current, digest)
  {
    hide SourceOk, AllWellBuilt, ReflectsManifest, Consistent, KeepsStored, ManifestOk, SchemasPlannable,
      InputsPlannable, AllDeclared, TellsSchemasApart, TellsProfilesApart;
    SourceIsConsistent(source, manifest, digest);
    if current.Some? {
      PlannedKeeps(manifest, current.value, source.schemas, digest);
    }
  }

  lemma ManifestNames(manifest: Manifest)
    requires ManifestOk(manifest)
    ensures DistinctNames(manifest.inputs)
    ensures forall i :: 0 <= i < |manifest.schemas| ==> SchemaDeclarationOk(manifest.schemas[i])
  {
  }

  lemma SourceParts(source: Source)
    requires SourceOk(source)
    ensures AllSchemas(source.schemas) && DistinctStoredNames(source.inputs) && DistinctIds(source.schemas)
  {
    HistoryHasDistinctIds(source.id, source.activeId, source.schemas);
    InputsHaveDistinctNames(source.id, source.schemas, source.inputs);
  }

  lemma NoParts()
    ensures AllSchemas([]) && DistinctStoredNames([])
  {
  }

  /** Some input has more profiles than were stored for it. */
  predicate AnyProfileCreated(current: seq<StoredInput>, inputs: seq<StoredInput>) {
    exists i :: 0 <= i < |inputs| &&
      var stored := InputNamed(current, inputs[i].name);
      stored.Some? && |inputs[i].profiles| > |stored.value.profiles|
  }

  lemma NoProfileCreated(inputs: seq<StoredInput>)
    ensures DistinctStoredNames(inputs) ==> !AnyProfileCreated(inputs, inputs)
  {
    hide InputNamed;
    if DistinctStoredNames(inputs) {
      forall i | 0 <= i < |inputs| ensures InputNamed(inputs, inputs[i].name) == Some(inputs[i]) {
        FoundByName(inputs, i);
      }
    }
  }

  /** Applying a manifest twice: the second time nothing changes, whatever the first time did. */
  method ApplyTwice(manifest: Manifest, current: Option<Source>, ids: IdentityGenerator, digest: Digester)
    returns (first: Result<Plan, ApplicationError>, second: Result<Plan, ApplicationError>)
    requires ManifestOk(manifest) && ids.next > REMAINDER_ID && (current.Some? ==> SourceOk(current.value))
    modifies ids
    ensures first.Success? ==> second == Success(Plan(Unchanged, first.value.source))
  {
    hide SourceOk, ReflectsManifest, ManifestOk;
    first := PlanApplication(manifest, current, ids, digest);
    second := first;
    if first.Success? {
      var more := new IdentityGenerator(REMAINDER_ID + 1);
      second := PlanApplication(manifest, Some(first.value.source), more, digest);
    }
  }
}
