/** The inputs of a source: what makes them valid, and planning them from their declarations. */
module CatalogInputs {
  import opened Basics
  import opened StableOrder
  import opened Schemas
  import opened Catalog

  // ---------- validating inputs ----------

  /** Every mapping targets a data field, and every field that may not be null is mapped. */
  predicate MappingsOk(revision: ProfileRevision, schema: Schema) {
    && (forall k :: 0 <= k < |revision.mappings| ==>
        FieldWithId(DataFields(schema.fields), revision.mappings[k].fieldId).Some?)
    && (forall i :: 0 <= i < |DataFields(schema.fields)| && !DataFields(schema.fields)[i].nullable ==>
          exists k :: 0 <= k < |revision.mappings| && revision.mappings[k].fieldId == DataFields(schema.fields)[i].id)
  }

  predicate ProfileOk(profile: StoredProfile, schemas: seq<StoredSchema>) {
    var target := SchemaWithId(schemas, profile.revision.targetSchemaId);
    target.Some? && MappingsOk(profile.revision, target.value)
  }

  predicate ProfilesOk(profiles: seq<StoredProfile>, schemas: seq<StoredSchema>) {
    forall k :: 0 <= k < |profiles| ==> ProfileOk(profiles[k], schemas)
  }

  predicate InputsOk(sourceId: nat, schemas: seq<StoredSchema>, inputs: seq<StoredInput>) {
    && (forall i :: 0 <= i < |inputs| ==> inputs[i].sourceId == sourceId && ProfilesOk(inputs[i].profiles, schemas))
    && (forall i, j :: 0 <= i < j < |inputs| ==> inputs[i].id != inputs[j].id && inputs[i].name != inputs[j].name)
  }

  method ValidateInputs(sourceId: nat, schemas: seq<StoredSchema>, inputs: seq<StoredInput>) returns (ok: bool)
    ensures ok <==> InputsOk(sourceId, schemas, inputs)
  {
    hide ProfileOk;
    var ids: set<nat>, names: set<nat> := {}, {};
    for i := 0 to |inputs|
      invariant forall k :: 0 <= k < i ==> inputs[k].sourceId == sourceId && ProfilesOk(inputs[k].profiles, schemas)
      invariant forall j, k :: 0 <= j < k < i ==> inputs[j].id != inputs[k].id && inputs[j].name != inputs[k].name
      invariant forall id :: id in ids <==> exists k :: 0 <= k < i && inputs[k].id == id
      invariant forall name :: name in names <==> exists k :: 0 <= k < i && inputs[k].name == name
    {
      if inputs[i].sourceId != sourceId || inputs[i].id in ids || inputs[i].name in names {
        return false;
      }
      ids, names := ids + {inputs[i].id}, names + {inputs[i].name};
      var profiles := inputs[i].profiles;
      for k := 0 to |profiles|
        invariant forall j :: 0 <= j < k ==> ProfileOk(profiles[j], schemas)
      {
        if !ProfileOk(profiles[k], schemas) {
          return false;
        }
      }
    }
    return true;
  }

  /** What the constructor of an input checks. */
  predicate InputOk(input: StoredInput) {
    && input.profiles != []
    && (forall k :: 0 <= k < |input.profiles| ==> input.profiles[k].revision.inputId == input.id)
    && (forall j, k :: 0 <= j < k < |input.profiles| ==>
          && input.profiles[j].revision.revision < input.profiles[k].revision.revision
          && input.profiles[j].revision.id != input.profiles[k].revision.id)
    && (exists k :: 0 <= k < |input.profiles| && input.profiles[k].revision.id == input.activeProfileId)
  }

  // ---------- planning inputs ----------

  function NameKey(input: DeclaredInput): RowKey {
    RowKey(input.name, 0)
  }

  /** The declared inputs in the order of their names. */
  function InOrder(inputs: seq<DeclaredInput>): seq<DeclaredInput> {
    StableSort(inputs, NameKey)
  }

  predicate DistinctNames(inputs: seq<DeclaredInput>) {
    forall a, b :: 0 <= a < b < |inputs| ==> inputs[a].name != inputs[b].name
  }

  function InputNamed(inputs: seq<StoredInput>, name: nat): (r: Option<StoredInput>)
    ensures r.Some? ==> r.value in inputs && r.value.name == name
    ensures r.None? ==> forall i :: 0 <= i < |inputs| ==> inputs[i].name != name
  {
    if inputs == [] then None
    else if inputs[0].name == name then Some(inputs[0])
    else
      var r := InputNamed(inputs[1..], name);
      assert forall i :: 0 < i < |inputs| ==> inputs[i] == inputs[1..][i - 1];
      r
  }

  predicate DistinctStoredNames(inputs: seq<StoredInput>) {
    forall a, b :: 0 <= a < b < |inputs| ==> inputs[a].name != inputs[b].name
  }

  lemma {:induction false} FoundByName(inputs: seq<StoredInput>, i: nat)
    requires DistinctStoredNames(inputs) && i < |inputs|
    ensures InputNamed(inputs, inputs[i].name) == Some(inputs[i])
  {
    if i > 0 {
      FoundByName(inputs[1..], i - 1);
    }
  }

  function ActiveProfile(profiles: seq<StoredProfile>, revision: nat): Option<nat> {
    if profiles == [] then None
    else if profiles[0].revision.revision == revision then Some(profiles[0].revision.id)
    else ActiveProfile(profiles[1..], revision)
  }

  predicate InputVerified(input: StoredInput, digest: Digester) {
    input.declared == digest.input(input.name)
        && input.material == digest.inputMaterial(input.id, input.sourceId, input.name)
  }

  /** A stored input that is what the manifest declares. */
  predicate InputReflects(input: StoredInput, declared: DeclaredInput, sourceId: nat, schemas: seq<StoredSchema>,
                          digest: Digester)
  {
    && input.name == declared.name && input.sourceId == sourceId && InputVerified(input, digest)
    && AllProfilesReflect(input.profiles, declared.profiles, schemas, digest)
    && ActiveProfile(input.profiles, declared.activeRevision) == Some(input.activeProfileId)
    && InputOk(input)
  }

  // ---------- when an input can be planned ----------

  /** An input as its constructors build it. */
  predicate WellBuilt(input: StoredInput) {
    InputOk(input) && forall k :: 0 <= k < |input.profiles| ==> DistinctTargets(input.profiles[k].revision.mappings)
  }

  /** Generating gives none of the identities of the input again. */
  predicate OldInput(input: StoredInput, next: nat) {
    input.id < next && forall k :: 0 <= k < |input.profiles| ==> input.profiles[k].revision.id < next
  }

  /** There are profiles, their revisions rise, and the active one is among them. */
  predicate RevisionsOk(declared: DeclaredInput) {
    && declared.profiles != []
    && (forall j, k :: 0 <= j < k < |declared.profiles| ==>
        declared.profiles[j].revision < declared.profiles[k].revision)
    && (exists k :: 0 <= k < |declared.profiles| && declared.profiles[k].revision == declared.activeRevision)
  }

  function ProfilesOf(stored: Option<StoredInput>): seq<StoredProfile> {
    if stored.Some? then stored.value.profiles else []
  }

  predicate InputPlannable(declared: DeclaredInput, stored: Option<StoredInput>, schemas: seq<StoredSchema>,
                           digest: Digester)
  {
    && RevisionsOk(declared)
    && (stored.Some? ==> InputVerified(stored.value, digest))
    && ProfilesPlannable(declared.profiles, ProfilesOf(stored), schemas, digest)
  }

  /** The stored input is one of the source, built by its constructors under older identities. */
  predicate StoredOk(stored: Option<StoredInput>, sourceId: nat, next: nat) {
    stored.Some? ==> stored.value.sourceId == sourceId && WellBuilt(stored.value) && OldInput(stored.value, next)
  }

  predicate SameRevisions(profiles: seq<StoredProfile>, declared: seq<DeclaredProfile>) {
    && |profiles| == |declared|
    && forall k :: 0 <= k < |profiles| ==> profiles[k].revision.revision == declared[k].revision
  }

  lemma PlannedRevisions(profiles: seq<StoredProfile>, stored: seq<StoredProfile>, declared: seq<DeclaredProfile>,
                         inputId: nat, low: nat, high: nat, schemas: seq<StoredSchema>, digest: Digester)
    requires TellsProfilesApart(digest) && ProfilesPlannable(declared, stored, schemas, digest)
    requires stored <= profiles && |profiles| == |declared|
             && NewProfiles(profiles, |stored|, declared, inputId, low, high)
    ensures SameRevisions(profiles, declared)
  {
    hide ProfileReflects, Resolvable, SchemaWithVersion, DataFields;
    forall k | 0 <= k < |profiles| ensures profiles[k].revision.revision == declared[k].revision {
      if k < |stored| {
        assert ProfilePlannable(k, declared[k], stored, schemas, digest);
        ReflectedRevision(stored[k], declared[k], schemas, digest);
      } else {
        assert NewProfile(profiles[k], declared[k], inputId);
      }
    }
  }

  lemma ReflectedRevision(stored: StoredProfile, declared: DeclaredProfile, schemas: seq<StoredSchema>,
                          digest: Digester)
    requires TellsProfilesApart(digest) && ProfileReflects(stored, declared, schemas, digest)
    ensures stored.revision.revision == declared.revision
  {
    hide DeclaredMappings, SchemaWithId, SchemaWithVersion;
    ReflectingProfileIsDeclared(stored, declared, schemas, digest);
  }

  lemma {:induction false} ActiveIsFound(profiles: seq<StoredProfile>, revision: nat)
    ensures ActiveProfile(profiles, revision).Some? <==>
              exists k :: 0 <= k < |profiles| && profiles[k].revision.revision == revision
    ensures ActiveProfile(profiles, revision).Some? ==>
              exists k :: 0 <= k < |profiles| && profiles[k].revision.id == ActiveProfile(profiles, revision).value
  {
    if profiles != [] {
      ActiveIsFound(profiles[1..], revision);
      assert forall k :: 0 < k < |profiles| ==> profiles[k] == profiles[1..][k - 1];
      if profiles[0].revision.revision != revision && ActiveProfile(profiles[1..], revision).Some? {
        var k :| 0 <= k < |profiles[1..]|
            && profiles[1..][k].revision.id == ActiveProfile(profiles[1..], revision).value;
        assert profiles[k + 1].revision.id == ActiveProfile(profiles, revision).value;
        var j :| 0 <= j < |profiles[1..]| && profiles[1..][j].revision.revision == revision;
        assert profiles[j + 1].revision.revision == revision;
      }
    }
  }

  /** The profiles have their own identities and belong to the input. */
  predicate OwnProfiles(profiles: seq<StoredProfile>, inputId: nat, next: nat) {
    && (forall k :: 0 <= k < |profiles| ==>
          && profiles[k].revision.inputId == inputId && profiles[k].revision.id < next
          && DistinctTargets(profiles[k].revision.mappings))
    && (forall j, k :: 0 <= j < k < |profiles| ==> profiles[j].revision.id != profiles[k].revision.id)
  }

  lemma PlannedOwn(profiles: seq<StoredProfile>, stored: Option<StoredInput>, declared: seq<DeclaredProfile>,
                   inputId: nat, sourceId: nat, low: nat, high: nat)
    requires StoredOk(stored, sourceId, low) && low <= high && (stored.Some? ==> stored.value.id == inputId)
    requires ProfilesOf(stored) <= profiles && NewProfiles(profiles, |ProfilesOf(stored)|, declared, inputId, low, high)
    ensures OwnProfiles(profiles, inputId, high)
  {
    hide DistinctTargets;
    var n := |ProfilesOf(stored)|;
    forall k | 0 <= k < |profiles|
      ensures profiles[k].revision.inputId == inputId && profiles[k].revision.id < high
              && DistinctTargets(profiles[k].revision.mappings)
    {
      if k < n {
        assert profiles[k] == ProfilesOf(stored)[k];
      } else {
        assert NewProfile(profiles[k], declared[k], inputId);
      }
    }
    forall j, k | 0 <= j < k < |profiles| ensures profiles[j].revision.id != profiles[k].revision.id {
      if j < n {
        assert profiles[j] == ProfilesOf(stored)[j];
        if k < n {
          assert profiles[k] == ProfilesOf(stored)[k];
        }
      }
    }
  }

  /** With such profiles the constructor accepts the input exactly when the declared revisions are in order. */
  lemma AcceptedInput(input: StoredInput, declared: DeclaredInput, next: nat)
    requires OwnProfiles(input.profiles, input.id, next) && SameRevisions(input.profiles, declared.profiles)
    requires ActiveProfile(input.profiles, declared.activeRevision) == Some(input.activeProfileId)
    ensures InputOk(input) <==> RevisionsOk(declared)
    ensures InputOk(input) ==> WellBuilt(input)
  {
    hide ActiveProfile, DistinctTargets;
    ActiveIsFound(input.profiles, declared.activeRevision);
    var k :| 0 <= k < |input.profiles| && input.profiles[k].revision.revision == declared.activeRevision;
    assert declared.profiles[k].revision == declared.activeRevision;
  }

  lemma NoActiveRevision(profiles: seq<StoredProfile>, declared: DeclaredInput)
    requires SameRevisions(profiles, declared.profiles) && ActiveProfile(profiles, declared.activeRevision).None?
    ensures !RevisionsOk(declared)
  {
    hide ActiveProfile;
    ActiveIsFound(profiles, declared.activeRevision);
    assert forall k :: 0 <= k < |profiles| ==> profiles[k].revision.revision != declared.activeRevision;
  }

  /** The input has fewer profiles declared than stored. */
  predicate InputDiverges(declared: DeclaredInput, stored: Option<StoredInput>) {
    stored.Some? && |stored.value.profiles| > |declared.profiles|
  }

  /** The input, or one of its profiles, was declared as something else. */
  predicate InputConflicts(declared: DeclaredInput, stored: Option<StoredInput>, digest: Digester) {
    stored.Some? &&
    (stored.value.declared != digest.input(declared.name)
     || ProfileConflicts(declared.profiles, stored.value.profiles, digest))
  }

  /** Plans one input: the stored one with more profiles, or a new one. */
  method PlanInput(declared: DeclaredInput, stored: Option<StoredInput>, sourceId: nat, schemas: seq<StoredSchema>,
                   ids: IdentityGenerator, digest: Digester)
    returns (r: Result<StoredInput, ApplicationError>)
    requires ids.next > REMAINDER_ID && AllSchemas(schemas) && (stored.Some? ==> stored.value.name == declared.name)
    modifies ids
    ensures ids.next >= old(ids.next)
    ensures TellsProfilesApart(digest) && StoredOk(stored, sourceId, old(ids.next)) ==>
              (r.Success? <==> InputPlannable(declared, stored, schemas, digest))
    ensures r.Success? && StoredOk(stored, sourceId, old(ids.next)) && TellsProfilesApart(digest) ==>
              WellBuilt(r.value) && OldInput(r.value, ids.next)
    ensures r == Failure(HistoryDiverged) ==> InputDiverges(declared, stored)
    ensures r == Failure(DefinitionConflict) ==> InputConflicts(declared, stored, digest)
    ensures r.Failure? ==> r.error != SchemaIncompatible
    ensures r.Success? ==> r.value.name == declared.name
    ensures r.Success? && stored.None? ==> r.value.id == old(ids.next) < ids.next
    ensures r.Success? && DistinctIds(schemas) ==> InputReflects(r.value, declared, sourceId, schemas, digest)
    ensures r.Success? && stored.Some? ==> r.value.id == stored.value.id && stored.value.profiles <= r.value.profiles
    ensures stored.Some? && InputReflects(stored.value, declared, sourceId, schemas, digest) ==>
              r == Success(stored.value) && ids.next == old(ids.next)
  {
    hide AllSchemas, DistinctIds, AllProfilesReflect, InputOk, ActiveProfile, TellsProfilesApart, ProfilesPlannable,
      NewProfiles, RevisionsOk, WellBuilt, OldInput, OwnProfiles, SameRevisions;
    var id;
    if stored.Some? {
      if stored.value.declared != digest.input(stored.value.name)
         || stored.value.material !=
            digest.inputMaterial(stored.value.id, stored.value.sourceId, stored.value.name) {
        return Failure(CatalogCorrupted);
      }
      if stored.value.declared != digest.input(declared.name) {
        return Failure(DefinitionConflict);
      }
      id := stored.value.id;
    } else {
      id := ids.Generate();
    }
    var material := digest.inputMaterial(id, sourceId, declared.name);
    if stored.Some? && stored.value.material != material {
      return Failure(CatalogCorrupted);
    }
    ghost var low := ids.next;
    var profiles := PlanProfiles(declared.profiles, ProfilesOf(stored), id, schemas, ids, digest);
    if profiles.Failure? {
      return Failure(profiles.error);
    }
    ghost var exact := TellsProfilesApart(digest) && StoredOk(stored, sourceId, old(ids.next));
    if exact {
      OldLater(stored, sourceId, old(ids.next), low);
      PlannedRevisions(profiles.value, ProfilesOf(stored), declared.profiles, id, low, ids.next, schemas, digest);
      PlannedOwn(profiles.value, stored, declared.profiles, id, sourceId, low, ids.next);
    }
    var active := ActiveProfile(profiles.value, declared.activeRevision);
    if active.None? {
      if exact {
        NoActiveRevision(profiles.value, declared);
      }
      return Failure(CatalogCorrupted);
    }
    var input := StoredInput(id, sourceId, declared.name, digest.input(declared.name), material, active.value,
                             profiles.value);
    if exact {
      AcceptedInput(input, declared, ids.next);
      if stored.Some? {
        OldId(stored, sourceId, low);
      }
      OwnIsOld(input, ids.next);
    }
    if !InputOk(input) {
      return Failure(ManifestInvalid);
    }
    return Success(input);
  }

  lemma OldLater(stored: Option<StoredInput>, sourceId: nat, next: nat, later: nat)
    requires StoredOk(stored, sourceId, next) && next <= later
    ensures StoredOk(stored, sourceId, later)
  {
    hide WellBuilt;
  }

  lemma OldId(stored: Option<StoredInput>, sourceId: nat, next: nat)
    requires StoredOk(stored, sourceId, next) && stored.Some?
    ensures stored.value.id < next
  {
    hide WellBuilt;
  }

  lemma OwnIsOld(input: StoredInput, next: nat)
    requires OwnProfiles(input.profiles, input.id, next) && input.id < next
    ensures OldInput(input, next)
  {
    hide DistinctTargets;
  }

  predicate InputsReflect(inputs: seq<StoredInput>, declared: seq<DeclaredInput>, sourceId: nat,
                          schemas: seq<StoredSchema>, digest: Digester)
  {
    && |inputs| == |declared|
    && forall i :: 0 <= i < |inputs| ==> InputReflects(inputs[i], declared[i], sourceId, schemas, digest)
  }

  /** Every stored input is still there, with at least the profiles it had. */
  predicate InputsGrow(current: seq<StoredInput>, inputs: seq<StoredInput>) {
    forall i :: 0 <= i < |current| ==> InputGrew(current[i], inputs)
  }

  predicate InputGrew(was: StoredInput, inputs: seq<StoredInput>) {
    exists j :: 0 <= j < |inputs| && inputs[j].name == was.name && inputs[j].id == was.id
        && was.profiles <= inputs[j].profiles
  }

  lemma SortedNames(declared: seq<DeclaredInput>)
    requires DistinctNames(declared)
    ensures DistinctNames(InOrder(declared)) && |InOrder(declared)| == |declared|
    ensures forall i :: 0 <= i < |declared| ==> declared[i] in InOrder(declared)
  {
    var sorted := InOrder(declared);
    StableSortCorrect(declared, NameKey);
    hide StableSort;
    assert |sorted| == |multiset(sorted)| && |declared| == |multiset(declared)|;
    forall i | 0 <= i < |declared| ensures declared[i] in sorted {
      assert declared[i] in multiset(sorted);
    }
    forall a, b | 0 <= a < b < |sorted| ensures sorted[a].name != sorted[b].name {
      if sorted[a].name == sorted[b].name {
        TwiceInSorted(declared, sorted, a, b);
      }
    }
  }

  /** Two inputs of one name would have been declared twice. */
  lemma TwiceInSorted(declared: seq<DeclaredInput>, sorted: seq<DeclaredInput>, a: nat, b: nat)
    requires DistinctNames(declared) && multiset(sorted) == multiset(declared) && a < b < |sorted|
    ensures sorted[a].name != sorted[b].name
  {
    assert sorted[a] in multiset(declared) && sorted[b] in multiset(declared);
    var i :| 0 <= i < |declared| && declared[i] == sorted[a];
    var j :| 0 <= j < |declared| && declared[j] == sorted[b];
    OccursOnce(declared, i);
    OccursTwice(sorted, a, b);
  }

  lemma OccursOnce(declared: seq<DeclaredInput>, i: nat)
    requires DistinctNames(declared) && i < |declared|
    ensures multiset(declared)[declared[i]] == 1
  {
    var before, x, after := declared[..i], declared[i], declared[i + 1..];
    assert declared == before + [x] + after;
    assert x !in before && x !in after;
  }

  lemma OccursTwice(sorted: seq<DeclaredInput>, a: nat, b: nat)
    requires a < b < |sorted|
    ensures sorted[a] == sorted[b] ==> multiset(sorted)[sorted[a]] >= 2
  {
    assert sorted == sorted[..a] + [sorted[a]] + sorted[a + 1..b] + [sorted[b]] + sorted[b + 1..];
  }

  lemma {:induction false} ReflectedAreFound(
      inputs: seq<StoredInput>, declared: seq<DeclaredInput>, sourceId: nat, schemas: seq<StoredSchema>,
      digest: Digester, k: nat)
    requires InputsReflect(inputs, declared, sourceId, schemas, digest) && DistinctNames(declared) && k < |declared|
    ensures InputNamed(inputs, declared[k].name) == Some(inputs[k])
  {
    hide AllProfilesReflect, InputOk, ActiveProfile;
    forall a, b | 0 <= a < b < |inputs| ensures inputs[a].name != inputs[b].name {
      assert InputReflects(inputs[a], declared[a], sourceId, schemas, digest)
             && InputReflects(inputs[b], declared[b], sourceId, schemas, digest);
    }
    FoundByName(inputs, k);
    assert InputReflects(inputs[k], declared[k], sourceId, schemas, digest);
  }

  predicate AnyDiverges(declared: seq<DeclaredInput>, current: seq<StoredInput>) {
    exists d :: d in declared && InputDiverges(d, InputNamed(current, d.name))
  }

  predicate AnyConflicts(declared: seq<DeclaredInput>, current: seq<StoredInput>, digest: Digester) {
    exists d :: d in declared && InputConflicts(d, InputNamed(current, d.name), digest)
  }

  method PlanInputs(manifest: seq<DeclaredInput>, current: seq<StoredInput>, sourceId: nat, schemas: seq<StoredSchema>,
                    ids: IdentityGenerator, digest: Digester)
    returns (r: Result<seq<StoredInput>, ApplicationError>)
    requires ids.next > REMAINDER_ID && AllSchemas(schemas) && DistinctNames(manifest) && DistinctStoredNames(current)
    modifies ids
    ensures TellsProfilesApart(digest) && AllStoredOk(current, sourceId, old(ids.next)) ==>
              (r.Success? <==> AllDeclared(current, manifest) && InputsPlannable(manifest, current, schemas, digest))
    ensures r.Success? && TellsProfilesApart(digest) && AllStoredOk(current, sourceId, old(ids.next)) ==>
              AllWellBuilt(r.value) && DistinctInputIds(r.value)
    ensures r == Failure(HistoryDiverged) ==> !AllDeclared(current, manifest) || AnyDiverges(manifest, current)
    ensures r == Failure(DefinitionConflict) ==> AnyConflicts(manifest, current, digest)
    ensures r.Failure? ==> r.error != SchemaIncompatible
    ensures r.Success? && DistinctIds(schemas) ==> InputsReflect(r.value, InOrder(manifest), sourceId, schemas, digest)
    ensures r.Success? ==> InputsGrow(current, r.value)
    ensures InputsReflect(current, InOrder(manifest), sourceId, schemas, digest) ==>
              r == Success(current) && ids.next == old(ids.next)
  {
    hide AllSchemas, DistinctIds, InputsReflect, InOrder, DistinctNames, DistinctStoredNames, InputsGrow, AllDeclared,
      TellsProfilesApart, AllStoredOk, InputsPlannable, AllWellBuilt, DistinctInputIds, InputDiverges, InputConflicts;
    SortedNames(manifest);
    var declared := InOrder(manifest);
    SortedConditions(manifest, current, schemas, digest);
    var omitted := Omits(current, declared);
    if InputsReflect(current, declared, sourceId, schemas, digest) {
      NothingOmitted(current, declared, sourceId, schemas, digest);
    }
    if omitted {
      return Failure(HistoryDiverged);
    }
    SortedMembers(manifest);
    r := PlanEach(declared, current, sourceId, schemas, ids, digest);
  }

  /** Every declared input can be planned from what is stored under its name. */
  predicate InputsPlannable(declared: seq<DeclaredInput>, current: seq<StoredInput>, schemas: seq<StoredSchema>,
                            digest: Digester)
  {
    forall k :: 0 <= k < |declared| ==>
        InputPlannable(declared[k], InputNamed(current, declared[k].name), schemas, digest)
  }

  predicate DistinctInputIds(inputs: seq<StoredInput>) {
    forall a, b :: 0 <= a < b < |inputs| ==> inputs[a].id != inputs[b].id
  }

  predicate AllStoredOk(current: seq<StoredInput>, sourceId: nat, next: nat) {
    DistinctInputIds(current) && forall i :: 0 <= i < |current| ==> StoredOk(Some(current[i]), sourceId, next)
  }

  predicate AllWellBuilt(inputs: seq<StoredInput>) {
    forall i :: 0 <= i < |inputs| ==> WellBuilt(inputs[i])
  }

  /** Sorting the declarations changes neither condition. */
  lemma SortedConditions(manifest: seq<DeclaredInput>, current: seq<StoredInput>, schemas: seq<StoredSchema>,
                         digest: Digester)
    requires DistinctNames(manifest)
    ensures AllDeclared(current, InOrder(manifest)) <==> AllDeclared(current, manifest)
    ensures InputsPlannable(InOrder(manifest), current, schemas, digest) <==>
              InputsPlannable(manifest, current, schemas, digest)
  {
    hide InOrder, InputPlannable, DistinctNames, InputNamed;
    var sorted := InOrder(manifest);
    SortedNames(manifest);
    SortedMembers(manifest);
    forall i | 0 <= i < |current|
      ensures IsDeclared(current[i].name, sorted) <==> IsDeclared(current[i].name, manifest)
    {
      SameDeclared(current[i].name, sorted, manifest);
      SameDeclared(current[i].name, manifest, sorted);
    }
    SamePlannable(sorted, manifest, current, schemas, digest);
    SamePlannable(manifest, sorted, current, schemas, digest);
  }

  lemma SamePlannable(a: seq<DeclaredInput>, b: seq<DeclaredInput>, current: seq<StoredInput>,
                      schemas: seq<StoredSchema>, digest: Digester)
    requires forall i :: 0 <= i < |b| ==> b[i] in a
    ensures InputsPlannable(a, current, schemas, digest) ==> InputsPlannable(b, current, schemas, digest)
  {
    hide InputPlannable, InputNamed;
    if InputsPlannable(a, current, schemas, digest) {
      forall i | 0 <= i < |b| ensures InputPlannable(b[i], InputNamed(current, b[i].name), schemas, digest) {
        var j :| 0 <= j < |a| && a[j] == b[i];
      }
    }
  }

  lemma SameDeclared(name: nat, a: seq<DeclaredInput>, b: seq<DeclaredInput>)
    requires forall i :: 0 <= i < |a| ==> a[i] in b
    ensures IsDeclared(name, a) ==> IsDeclared(name, b)
  {
    if i :| 0 <= i < |a| && a[i].name == name {
      var j :| 0 <= j < |b| && b[j] == a[i];
    }
  }

  lemma SortedMembers(declared: seq<DeclaredInput>)
    ensures forall i :: 0 <= i < |InOrder(declared)| ==> InOrder(declared)[i] in declared
  {
    var sorted := InOrder(declared);
    StableSortCorrect(declared, NameKey);
    hide StableSort;
    forall i | 0 <= i < |sorted| ensures sorted[i] in declared {
      assert sorted[i] in multiset(sorted);
    }
  }

  /** The planned inputs are built by the constructors and have the stored identities of their names or new ones. */
  predicate Issued(inputs: seq<StoredInput>, declared: seq<DeclaredInput>, current: seq<StoredInput>, low: nat,
                   high: nat)
  {
    && |inputs| == |declared|
    && (forall j :: 0 <= j < |inputs| ==> IssuedAt(inputs[j], InputNamed(current, declared[j].name), low, high))
    && (forall i, j :: 0 <= i < j < |inputs| ==>
          InputNamed(current, declared[i].name).None? && InputNamed(current, declared[j].name).None? ==>
          inputs[i].id < inputs[j].id)
  }

  predicate IssuedAt(input: StoredInput, stored: Option<StoredInput>, low: nat, high: nat) {
    && WellBuilt(input) && OldInput(input, high)
    && if stored.Some? then input.id == stored.value.id else low <= input.id
  }

  lemma {:induction false} IssuedSnoc(inputs: seq<StoredInput>, declared: seq<DeclaredInput>, current: seq<StoredInput>,
                                      low: nat, high: nat, later: nat, input: StoredInput, next: DeclaredInput)
    requires Issued(inputs, declared, current, low, high) && low <= high <= later
    requires IssuedAt(input, InputNamed(current, next.name), low, later)
    requires InputNamed(current, next.name).None? ==> input.id == high
    ensures Issued(inputs + [input], declared + [next], current, low, later)
  {
    hide InputNamed, WellBuilt;
    forall j | 0 <= j < |inputs|
      ensures IssuedAt(inputs[j], InputNamed(current, declared[j].name), low, later) && inputs[j].id < high
    {
      assert IssuedAt(inputs[j], InputNamed(current, declared[j].name), low, high);
    }
  }

  lemma {:induction false} IssuedAreDistinct(inputs: seq<StoredInput>, declared: seq<DeclaredInput>,
                                             current: seq<StoredInput>, sourceId: nat, low: nat, high: nat)
    requires Issued(inputs, declared, current, low, high) && DistinctNames(declared)
             && AllStoredOk(current, sourceId, low)
    ensures AllWellBuilt(inputs) && DistinctInputIds(inputs)
  {
    hide WellBuilt, InputNamed;
    forall i | 0 <= i < |inputs| ensures WellBuilt(inputs[i]) {
      assert IssuedAt(inputs[i], InputNamed(current, declared[i].name), low, high);
    }
    forall i, j | 0 <= i < j < |inputs| ensures inputs[i].id != inputs[j].id {
      var a, b := InputNamed(current, declared[i].name), InputNamed(current, declared[j].name);
      assert IssuedAt(inputs[i], a, low, high) && IssuedAt(inputs[j], b, low, high);
      NamedIsOld(current, declared[i].name, sourceId, low);
      NamedIsOld(current, declared[j].name, sourceId, low);
      if a.Some? && b.Some? {
        NamedDiffer(current, declared[i].name, declared[j].name);
      }
    }
  }

  lemma NamedIsOld(current: seq<StoredInput>, name: nat, sourceId: nat, low: nat)
    requires AllStoredOk(current, sourceId, low)
    ensures InputNamed(current, name).Some? ==>
              InputNamed(current, name).value.id < low && StoredOk(InputNamed(current, name), sourceId, low)
    ensures StoredOk(InputNamed(current, name), sourceId, low)
  {
    hide WellBuilt;
    if InputNamed(current, name).Some? {
      var i :| 0 <= i < |current| && current[i] == InputNamed(current, name).value;
      assert StoredOk(Some(current[i]), sourceId, low);
    }
  }

  lemma NamedDiffer(current: seq<StoredInput>, a: nat, b: nat)
    requires DistinctInputIds(current) && a != b && InputNamed(current, a).Some? && InputNamed(current, b).Some?
    ensures InputNamed(current, a).value.id != InputNamed(current, b).value.id
  {
    var x, y := InputNamed(current, a).value, InputNamed(current, b).value;
    var i :| 0 <= i < |current| && current[i] == x;
    var j :| 0 <= j < |current| && current[j] == y;
  }

  /** The inputs planned so far are those of the declarations so far. */
  predicate PlannedOk(inputs: seq<StoredInput>, declared: seq<DeclaredInput>, current: seq<StoredInput>, sourceId: nat,
                      schemas: seq<StoredSchema>, digest: Digester) {
    && |inputs| == |declared|
    && (DistinctIds(schemas) ==> InputsReflect(inputs, declared, sourceId, schemas, digest))
    && forall j :: 0 <= j < |inputs| ==>
         inputs[j].name == declared[j].name && Continues(inputs[j], InputNamed(current, declared[j].name))
  }

  lemma {:induction false} PlannedSnoc(
      inputs: seq<StoredInput>, declared: seq<DeclaredInput>, current: seq<StoredInput>, sourceId: nat,
      schemas: seq<StoredSchema>, digest: Digester, input: StoredInput, next: DeclaredInput)
    requires PlannedOk(inputs, declared, current, sourceId, schemas, digest)
    requires input.name == next.name && Continues(input, InputNamed(current, next.name))
    requires DistinctIds(schemas) ==> InputReflects(input, next, sourceId, schemas, digest)
    ensures PlannedOk(inputs + [input], declared + [next], current, sourceId, schemas, digest)
  {
    hide InputReflects, InputNamed, DistinctIds, Continues;
  }

  method PlanEach(declared: seq<DeclaredInput>, current: seq<StoredInput>, sourceId: nat, schemas: seq<StoredSchema>,
                  ids: IdentityGenerator, digest: Digester)
    returns (r: Result<seq<StoredInput>, ApplicationError>)
    requires ids.next > REMAINDER_ID && AllSchemas(schemas) && DistinctNames(declared) && DistinctStoredNames(current)
    requires AllDeclared(current, declared)
    modifies ids
    ensures TellsProfilesApart(digest) && AllStoredOk(current, sourceId, old(ids.next)) ==>
              (r.Success? <==> InputsPlannable(declared, current, schemas, digest))
    ensures r.Success? && TellsProfilesApart(digest) && AllStoredOk(current, sourceId, old(ids.next)) ==>
              AllWellBuilt(r.value) && DistinctInputIds(r.value)
    ensures r == Failure(HistoryDiverged) ==> AnyDiverges(declared, current)
    ensures r == Failure(DefinitionConflict) ==> AnyConflicts(declared, current, digest)
    ensures r.Failure? ==> r.error != SchemaIncompatible
    ensures r.Success? && DistinctIds(schemas) ==> InputsReflect(r.value, declared, sourceId, schemas, digest)
    ensures r.Success? ==> InputsGrow(current, r.value)
    ensures InputsReflect(current, declared, sourceId, schemas, digest) ==>
              r == Success(current) && ids.next == old(ids.next)
  {
    hide AllSchemas, DistinctIds, InputReflects, InputNamed, DistinctNames, DistinctStoredNames, Continues, InputsGrow,
      AllDeclared, PlannedOk, InputPlannable, StoredOk, AllStoredOk, TellsProfilesApart, Issued, WellBuilt, OldInput,
      AllWellBuilt, DistinctInputIds, InputDiverges, InputConflicts;
    ghost var exact := TellsProfilesApart(digest) && AllStoredOk(current, sourceId, ids.next);
    ghost var same := InputsReflect(current, declared, sourceId, schemas, digest);
    var inputs: seq<StoredInput> := [];
    NothingPlanned(current, sourceId, schemas, digest);
    NothingIssued(current, ids.next);
    for k := 0 to |declared|
      invariant exact ==> forall j :: 0 <= j < k ==>
                  InputPlannable(declared[j], InputNamed(current, declared[j].name), schemas, digest)
      invariant exact ==> Issued(inputs, declared[..k], current, old(ids.next), ids.next)
      invariant ids.next >= old(ids.next) && PlannedOk(inputs, declared[..k], current, sourceId, schemas, digest)
      invariant same ==> inputs == current[..k] && ids.next == old(ids.next)
    {
      if same {
        ReflectedAreFound(current, declared, sourceId, schemas, digest, k);
        TakeSnoc(current, k + 1);
      }
      var stored := InputNamed(current, declared[k].name);
      NamedHasName(current, declared[k].name);
      ghost var high := ids.next;
      if exact {
        NamedIsOld(current, declared[k].name, sourceId, old(ids.next));
        OldLater(stored, sourceId, old(ids.next), high);
      }
      var planned := PlanInput(declared[k], stored, sourceId, schemas, ids, digest);
      if planned.Failure? {
        return Failure(planned.error);
      }
      ContinuesFrom(planned.value, stored);
      if exact {
        IssuedSnoc(inputs, declared[..k], current, old(ids.next), high, ids.next, planned.value, declared[k]);
      }
      PlannedSnoc(inputs, declared[..k], current, sourceId, schemas, digest, planned.value, declared[k]);
      TakeSnoc(declared, k + 1);
      inputs := inputs + [planned.value];
    }
    assert declared[..|declared|] == declared && (same ==> current[..|declared|] == current);
    PlannedAll(inputs, declared, current, sourceId, schemas, digest);
    if exact {
      IssuedAreDistinct(inputs, declared, current, sourceId, old(ids.next), ids.next);
    }
    return Success(inputs);
  }

  lemma {:induction false} NothingIssued(current: seq<StoredInput>, low: nat)
    ensures Issued([], [], current, low, low)
  {
  }

  lemma NothingPlanned(current: seq<StoredInput>, sourceId: nat, schemas: seq<StoredSchema>, digest: Digester)
    ensures PlannedOk([], [], current, sourceId, schemas, digest)
  {
  }

  lemma NamedHasName(current: seq<StoredInput>, name: nat)
    ensures InputNamed(current, name).Some? ==> InputNamed(current, name).value.name == name
  {
  }

  lemma ContinuesFrom(input: StoredInput, stored: Option<StoredInput>)
    requires stored.Some? ==> input.id == stored.value.id && stored.value.profiles <= input.profiles
    ensures Continues(input, stored)
  {
  }

  lemma {:induction false} PlannedAll(
      inputs: seq<StoredInput>, declared: seq<DeclaredInput>, current: seq<StoredInput>, sourceId: nat,
      schemas: seq<StoredSchema>, digest: Digester)
    requires PlannedOk(inputs, declared, current, sourceId, schemas, digest)
    requires DistinctStoredNames(current) && AllDeclared(current, declared)
    ensures DistinctIds(schemas) ==> InputsReflect(inputs, declared, sourceId, schemas, digest)
    ensures InputsGrow(current, inputs)
  {
    hide InputReflects, InputNamed, DistinctIds, Continues, InputsGrow, DistinctStoredNames, AllDeclared;
    AllContinue(current, inputs, declared);
  }

  /** Every stored input is declared. */
  predicate AllDeclared(current: seq<StoredInput>, declared: seq<DeclaredInput>) {
    forall i :: 0 <= i < |current| ==> IsDeclared(current[i].name, declared)
  }

  predicate IsDeclared(name: nat, declared: seq<DeclaredInput>) {
    exists j :: 0 <= j < |declared| && declared[j].name == name
  }

  method Omits(current: seq<StoredInput>, declared: seq<DeclaredInput>) returns (omitted: bool)
    ensures omitted <==> !AllDeclared(current, declared)
  {
    for i := 0 to |current|
      invariant forall k :: 0 <= k < i ==> IsDeclared(current[k].name, declared)
    {
      if !IsDeclared(current[i].name, declared) {
        return true;
      }
    }
    return false;
  }

  lemma {:induction false} NothingOmitted(
      current: seq<StoredInput>, declared: seq<DeclaredInput>, sourceId: nat, schemas: seq<StoredSchema>,
      digest: Digester)
    requires InputsReflect(current, declared, sourceId, schemas, digest)
    ensures AllDeclared(current, declared)
  {
    hide InputReflects;
    forall i | 0 <= i < |current| ensures IsDeclared(current[i].name, declared) {
      ReflectsName(current[i], declared[i], sourceId, schemas, digest);
      assert declared[i].name == current[i].name;
    }
  }

  lemma ReflectsName(input: StoredInput, declared: DeclaredInput, sourceId: nat, schemas: seq<StoredSchema>,
                     digest: Digester)
    requires InputReflects(input, declared, sourceId, schemas, digest)
    ensures input.name == declared.name
  {
  }

  predicate Continues(input: StoredInput, stored: Option<StoredInput>) {
    stored.Some? ==> input.id == stored.value.id && stored.value.profiles <= input.profiles
  }

  lemma {:induction false} AllContinue(current: seq<StoredInput>, inputs: seq<StoredInput>,
                                       declared: seq<DeclaredInput>)
    requires DistinctStoredNames(current) && |inputs| == |declared|
    requires AllDeclared(current, declared)
    requires forall j :: 0 <= j < |inputs| ==>
               inputs[j].name == declared[j].name && Continues(inputs[j], InputNamed(current, declared[j].name))
    ensures InputsGrow(current, inputs)
  {
    hide InputNamed;
    forall i | 0 <= i < |current| ensures InputGrew(current[i], inputs) {
      assert IsDeclared(current[i].name, declared);
      var j :| 0 <= j < |declared| && declared[j].name == current[i].name;
      FoundByName(current, i);
      assert Continues(inputs[j], InputNamed(current, declared[j].name));
    }
  }
}
