/** Choosing which segments to compact together, and the claim handed to the worker. */
module Claims {
  import opened Basics
  import opened Segments

  datatype BuildError = InputInvalid | BuildFailed | NotBeneficial

  /** The limits shared by the claiming side and the building side. */
  datatype Limits = Limits(
    maxInputSegments: nat, maxInputRows: nat, maxInputParquetBytes: nat,
    maxInputUncompressedBytes: nat, targetRows: nat, targetBytes: nat)

  /** What the constructor of claim limits accepts. */
  predicate ValidLimits(limits: Limits) {
    && 2 <= limits.maxInputSegments <= 1000
    && 0 < limits.maxInputRows <= I64_MAX
    && 0 < limits.maxInputParquetBytes <= I64_MAX
    && 0 < limits.maxInputUncompressedBytes <= I64_MAX
    && 0 < limits.targetRows <= I64_MAX
    && 0 < limits.targetBytes <= I64_MAX
  }

  /** What a build relies on; the constructor of its limits checks this and how they compare. */
  predicate BuildLimits(limits: Limits) {
    && 2 <= limits.maxInputSegments <= 1000
    && 0 < limits.maxInputRows <= U64_MAX
    && 0 < limits.maxInputParquetBytes <= U64_MAX
    && 0 < limits.maxInputUncompressedBytes <= U64_MAX
    && 0 < limits.targetRows <= U64_MAX
    && 0 < limits.targetBytes <= U64_MAX
  }

  datatype GroupKey = GroupKey(sourceId: nat, schemaId: nat, eventDay: int)

  function KeyOf(candidate: InputSegment): GroupKey {
    GroupKey(candidate.descriptor.sourceId, candidate.descriptor.schemaId, candidate.descriptor.times.eventDay)
  }

  datatype Totals = Totals(rows: nat, parquetBytes: nat, uncompressedBytes: nat)

  function Add(totals: Totals, candidate: InputSegment): Totals {
    Totals(totals.rows + candidate.descriptor.rowCount,
           totals.parquetBytes + candidate.descriptor.objectBytes,
           totals.uncompressedBytes + candidate.descriptor.uncompressedBytes)
  }

  function TotalsOf(inputs: seq<InputSegment>): Totals {
    if inputs == [] then Totals(0, 0, 0)
    else Add(TotalsOf(inputs[..|inputs| - 1]), inputs[|inputs| - 1])
  }

  predicate Fits64(totals: Totals) {
    totals.rows <= U64_MAX && totals.parquetBytes <= U64_MAX && totals.uncompressedBytes <= U64_MAX
  }

  predicate WithinLimits(totals: Totals, limits: Limits) {
    && totals.rows <= limits.maxInputRows
    && totals.parquetBytes <= limits.maxInputParquetBytes
    && totals.uncompressedBytes <= limits.maxInputUncompressedBytes
  }

  function CeilingDividend(value: nat, divisor: nat): nat
    requires divisor > 0
  {
    value / divisor + if value % divisor == 0 then 0 else 1
  }

  function ExpectedOutputs(totals: Totals, limits: Limits): nat
    requires limits.targetRows > 0 && limits.targetBytes > 0
  {
    var byRows := CeilingDividend(totals.rows, limits.targetRows);
    var byBytes := CeilingDividend(totals.uncompressedBytes, limits.targetBytes);
    if byRows <= byBytes then byBytes else byRows
  }

  function LatestExpiry(inputs: seq<InputSegment>): int
    requires inputs != []
  {
    if |inputs| == 1 then inputs[0].expiresAt
    else Max(LatestExpiry(inputs[..|inputs| - 1]), inputs[|inputs| - 1].expiresAt)
  }

  /** The latest expiry is some input's own and no input expires later. */
  lemma {:induction false} LatestExpiryIsMaximum(inputs: seq<InputSegment>)
    requires inputs != []
    ensures forall i :: 0 <= i < |inputs| ==> inputs[i].expiresAt <= LatestExpiry(inputs)
    ensures exists i :: 0 <= i < |inputs| && inputs[i].expiresAt == LatestExpiry(inputs)
  {
    if |inputs| > 1 {
      var init := inputs[..|inputs| - 1];
      LatestExpiryIsMaximum(init);
      var i :| 0 <= i < |init| && init[i].expiresAt == LatestExpiry(init);
      assert inputs[i].expiresAt == LatestExpiry(init);
    } else {
      assert inputs[0].expiresAt == LatestExpiry(inputs);
    }
  }

  datatype Claim = Claim(
    sourceId: nat, schemaSourceId: nat, schemaId: nat, eventDay: int, inputs: seq<InputSegment>,
    totals: Totals, expiresAt: int)

  /** The worker's own check of a claim before it opens any input. */
  function ValidateClaim(claim: Claim, limits: Limits): Result<(), BuildError>
    requires limits.targetRows > 0 && limits.targetBytes > 0
  {
    if |claim.inputs| < 2 || |claim.inputs| > limits.maxInputSegments then Failure(InputInvalid)
    else if claim.schemaSourceId != claim.sourceId
         || (exists i :: 0 <= i < |claim.inputs| &&
               (claim.inputs[i].descriptor.times.eventDay != claim.eventDay
               || claim.inputs[i].descriptor.objectOwner != claim.inputs[i].descriptor.segmentId))
      then Failure(InputInvalid)
    else if !Fits64(TotalsOf(claim.inputs)) then Failure(InputInvalid)
    else if exists i :: 0 <= i < |claim.inputs| &&
              (claim.inputs[i].descriptor.rowCount >= limits.targetRows
              || claim.inputs[i].descriptor.uncompressedBytes >= limits.targetBytes)
      then Failure(InputInvalid)
    else if TotalsOf(claim.inputs) != claim.totals
         || !WithinLimits(claim.totals, limits)
         || LatestExpiry(claim.inputs) != claim.expiresAt
      then Failure(InputInvalid)
    else if ExpectedOutputs(claim.totals, limits) >= |claim.inputs| then Failure(NotBeneficial)
    else Success(())
  }

  /** A prefix of a group is beneficial when it is expected to need fewer outputs than it has inputs. */
  predicate Beneficial(prefix: seq<InputSegment>, limits: Limits)
    requires limits.targetRows > 0 && limits.targetBytes > 0
  {
    ExpectedOutputs(TotalsOf(prefix), limits) < |prefix|
  }

  /** The candidates of one group in their arrival order. */
  function OfKey(candidates: seq<InputSegment>, key: GroupKey): seq<InputSegment> {
    if candidates == [] then []
    else
      var init, last := candidates[..|candidates| - 1], candidates[|candidates| - 1];
      if KeyOf(last) == key then OfKey(init, key) + [last] else OfKey(init, key)
  }

  /** A prefix of a group the selection may take: within the segment count and every total. */
  predicate Admissible(group: seq<InputSegment>, n: nat, limits: Limits)
    requires n <= |group|
  {
    n <= limits.maxInputSegments && WithinLimits(TotalsOf(group[..n]), limits)
  }

  /** `n` is the length of the longest beneficial prefix among the admissible ones. */
  ghost predicate LongestBeneficial(group: seq<InputSegment>, n: nat, limits: Limits)
    requires limits.targetRows > 0 && limits.targetBytes > 0
  {
    && n <= |group| && Admissible(group, n, limits) && Beneficial(group[..n], limits)
    && (forall m :: n < m <= |group| && Admissible(group, m, limits) ==> !Beneficial(group[..m], limits))
  }

  ghost predicate NoneBeneficial(group: seq<InputSegment>, limits: Limits)
    requires limits.targetRows > 0 && limits.targetBytes > 0
  {
    forall m :: 0 <= m <= |group| && Admissible(group, m, limits) ==> !Beneficial(group[..m], limits)
  }

  lemma {:induction false} TotalsMonotone(group: seq<InputSegment>, n: nat)
    requires n <= |group|
    ensures TotalsOf(group[..n]).rows <= TotalsOf(group).rows
    ensures TotalsOf(group[..n]).parquetBytes <= TotalsOf(group).parquetBytes
    ensures TotalsOf(group[..n]).uncompressedBytes <= TotalsOf(group).uncompressedBytes
    decreases |group|
  {
    if n == |group| {
      assert group[..n] == group;
    } else {
      TotalsMonotone(group[..|group| - 1], n);
      assert group[..|group| - 1][..n] == group[..n];
    }
  }

  /** `best` is the longest beneficial prefix of `group`, if it has any. */
  ghost predicate BestPrefix(group: seq<InputSegment>, best: Option<nat>, limits: Limits)
    requires limits.targetRows > 0 && limits.targetBytes > 0
  {
    match best
    case None => forall m :: 0 <= m <= |group| ==> !Beneficial(group[..m], limits)
    case Some(n) =>
      && n <= |group| && Beneficial(group[..n], limits)
      && forall m :: n < m <= |group| ==> !Beneficial(group[..m], limits)
  }

  lemma BestPrefixSnoc(group: seq<InputSegment>, candidate: InputSegment, best: Option<nat>, limits: Limits)
    requires limits.targetRows > 0 && limits.targetBytes > 0
    requires BestPrefix(group, best, limits)
    ensures BestPrefix(group + [candidate],
                       if Beneficial(group + [candidate], limits) then Some(|group| + 1) else best, limits)
  {
    var longer := group + [candidate];
    assert longer[..|longer|] == longer;
    assert forall m :: 0 <= m <= |group| ==> longer[..m] == group[..m];
  }

  class CandidateGroup {
    const key: GroupKey
    var candidates: seq<InputSegment>
    var totals: Totals
    var beneficialPrefixLength: Option<nat>
    var stopped: bool
    ghost var considered: seq<InputSegment>

    constructor (key: GroupKey, limits: Limits)
      requires limits.targetRows > 0 && limits.targetBytes > 0
      ensures this.key == key && considered == [] && Valid(limits)
    {
      this.key, candidates, totals := key, [], Totals(0, 0, 0);
      beneficialPrefixLength, stopped, considered := None, false, [];
    }

    /** The group holds the longest admissible prefix of what it was offered and knows the longest
        beneficial prefix of that. */
    ghost predicate Valid(limits: Limits)
      reads this
      requires limits.targetRows > 0 && limits.targetBytes > 0
    {
      && candidates <= considered
      && totals == TotalsOf(candidates)
      && |candidates| <= limits.maxInputSegments && WithinLimits(totals, limits)
      && (!stopped ==> candidates == considered)
      && (stopped ==> |candidates| < |considered| && !Admissible(considered, |candidates| + 1, limits))
      && BestPrefix(candidates, beneficialPrefixLength, limits)
    }

    /** Offers one more candidate. It fails only when a running total leaves 64 bits. */
    method Consider(candidate: InputSegment, limits: Limits) returns (ok: bool)
      requires limits.targetRows > 0 && limits.targetBytes > 0
      requires Valid(limits) && KeyOf(candidate) == key
      modifies this
      ensures ok ==> Valid(limits) && considered == old(considered) + [candidate]
      ensures !ok ==> exists t: Totals :: WithinLimits(t, limits) && !Fits64(Add(t, candidate))
    {
      if stopped {
        assert (considered + [candidate])[..|candidates| + 1] == considered[..|candidates| + 1];
        considered := considered + [candidate];
        return true;
      }
      considered := considered + [candidate];
      var grown := Add(totals, candidate);
      assert considered[..|candidates|] == candidates;
      assert considered[..|candidates| + 1] == considered;
      if |candidates| == limits.maxInputSegments {
        stopped := true;
        return true;
      }
      if !Fits64(grown) {
        return false;
      }
      if !WithinLimits(grown, limits) {
        stopped := true;
        return true;
      }
      BestPrefixSnoc(candidates, candidate, beneficialPrefixLength, limits);
      totals := grown;
      candidates := candidates + [candidate];
      if ExpectedOutputs(grown, limits) < |candidates| {
        beneficialPrefixLength := Some(|candidates|);
      }
      return true;
    }

    /** Offering more never helps past the stop, so the group's answer is about the whole offer. */
    lemma Answer(limits: Limits)
      requires limits.targetRows > 0 && limits.targetBytes > 0
      requires Valid(limits)
      ensures beneficialPrefixLength.None? ==> NoneBeneficial(considered, limits)
      ensures beneficialPrefixLength.Some? ==>
                LongestBeneficial(considered, beneficialPrefixLength.value, limits)
      ensures beneficialPrefixLength.Some? ==>
                && beneficialPrefixLength.value <= |candidates| <= |considered|
                && candidates[..beneficialPrefixLength.value] == considered[..beneficialPrefixLength.value]
    {
      var count := |candidates|;
      assert forall m :: 0 <= m <= count ==> candidates[..m] == considered[..m];
      forall m | count < m <= |considered| ensures !Admissible(considered, m, limits) {
        TotalsMonotone(considered[..m], count + 1);
        assert considered[..m][..count + 1] == considered[..count + 1];
      }
      if beneficialPrefixLength.Some? {
        TotalsMonotone(candidates, beneficialPrefixLength.value);
      }
    }
  }

  /** The distinct keys of the candidates, each where it first appears. */
  function KeysInOrder(candidates: seq<InputSegment>): seq<GroupKey> {
    if candidates == [] then []
    else
      var keys := KeysInOrder(candidates[..|candidates| - 1]);
      var key := KeyOf(candidates[|candidates| - 1]);
      if key in keys then keys else keys + [key]
  }

  /** A chosen group: the longest beneficial prefix of the first group that has one. */
  ghost predicate Chosen(candidates: seq<InputSegment>, j: nat, selected: seq<InputSegment>, limits: Limits)
    requires limits.targetRows > 0 && limits.targetBytes > 0
  {
    var keys := KeysInOrder(candidates);
    && j < |keys|
    && selected <= OfKey(candidates, keys[j])
    && LongestBeneficial(OfKey(candidates, keys[j]), |selected|, limits)
    && (forall i :: 0 <= i < j ==> NoneBeneficial(OfKey(candidates, keys[i]), limits))
  }

  /** The ranges the metadata columns can hold. */
  predicate DatabaseRange(candidate: InputSegment) {
    && candidate.descriptor.rowCount <= I64_MAX
    && candidate.descriptor.objectBytes <= I64_MAX
    && candidate.descriptor.uncompressedBytes <= I64_MAX
  }

  method ChooseCandidateGroup(candidates: seq<InputSegment>, limits: Limits)
    returns (r: Result<Option<seq<InputSegment>>, BuildError>)
    requires limits.targetRows > 0 && limits.targetBytes > 0
    ensures r.Success? && r.value.Some? ==> exists j :: Chosen(candidates, j, r.value.value, limits)
    ensures r.Success? && r.value.None? ==>
              forall j :: 0 <= j < |KeysInOrder(candidates)| ==>
                NoneBeneficial(OfKey(candidates, KeysInOrder(candidates)[j]), limits)
    ensures ValidLimits(limits) && (forall i :: 0 <= i < |candidates| ==> DatabaseRange(candidates[i])) ==>
              r.Success?
  {
    hide OfKey, KeysInOrder, NoneBeneficial, Chosen, GroupsMatch, CandidateGroup.Valid, DatabaseRange;
    var groups, ok := GroupCandidates(candidates, limits);
    if !ok {
      return Failure(BuildFailed);
    }
    GroupsAreAsMany(candidates, groups, KeysInOrder(candidates), limits);
    for j := 0 to |groups|
      invariant GroupsMatch(candidates, groups, KeysInOrder(candidates), limits)
      invariant forall i :: 0 <= i < j ==> NoneBeneficial(OfKey(candidates, KeysInOrder(candidates)[i]), limits)
    {
      GroupAnswers(candidates, groups, j, limits);
      if groups[j].beneficialPrefixLength.Some? {
        var selected := groups[j].candidates[..groups[j].beneficialPrefixLength.value];
        return Success(Some(selected));
      }
    }
    return Success(None);
  }

  /** What one group answers. */
  lemma GroupAnswers(candidates: seq<InputSegment>, groups: seq<CandidateGroup>, j: nat, limits: Limits)
    requires limits.targetRows > 0 && limits.targetBytes > 0
    requires GroupsMatch(candidates, groups, KeysInOrder(candidates), limits) && j < |groups|
    requires forall i :: 0 <= i < j ==> NoneBeneficial(OfKey(candidates, KeysInOrder(candidates)[i]), limits)
    ensures j < |KeysInOrder(candidates)|
    ensures var best := groups[j].beneficialPrefixLength;
            if best.Some? then
              best.value <= |groups[j].candidates| && Chosen(candidates, j, groups[j].candidates[..best.value], limits)
            else NoneBeneficial(OfKey(candidates, KeysInOrder(candidates)[j]), limits)
  {
    hide OfKey, KeysInOrder, NoneBeneficial, LongestBeneficial, CandidateGroup.Valid;
    groups[j].Answer(limits);
  }

  method GroupCandidates(candidates: seq<InputSegment>, limits: Limits)
    returns (groups: seq<CandidateGroup>, ok: bool)
    requires limits.targetRows > 0 && limits.targetBytes > 0
    ensures ok ==> GroupsMatch(candidates, groups, KeysInOrder(candidates), limits)
    ensures ValidLimits(limits) && (forall i :: 0 <= i < |candidates| ==> DatabaseRange(candidates[i])) ==> ok
  {
    hide CandidateGroup.Valid, IndexesMatch, Distinct, OfKey, GroupsMatch, KeysInOrder, DatabaseRange;
    groups := [];
    NoGroups(candidates, limits);
    var indexes: map<GroupKey, nat> := map[];
    for i := 0 to |candidates|
      invariant Distinct(groups)
      invariant forall j :: 0 <= j < |groups| ==> fresh(groups[j])
      invariant IndexesMatch(KeysInOrder(candidates[..i]), indexes)
      invariant GroupsMatch(candidates[..i], groups, KeysInOrder(candidates[..i]), limits)
    {
      assert candidates[..i + 1] == candidates[..i] + [candidates[i]];
      groups, indexes, ok := Place(candidates[..i], groups, indexes, candidates[i], limits);
      if !ok {
        return;
      }
    }
    assert candidates[..|candidates|] == candidates;
    ok := true;
  }

  /** Offers a candidate to the group of its key, which it makes if there is none. */
  method Place(ghost read: seq<InputSegment>, groups: seq<CandidateGroup>, indexes: map<GroupKey, nat>,
               candidate: InputSegment, limits: Limits)
    returns (groups': seq<CandidateGroup>, indexes': map<GroupKey, nat>, ok: bool)
    requires limits.targetRows > 0 && limits.targetBytes > 0
    requires Distinct(groups) && IndexesMatch(KeysInOrder(read), indexes)
    requires GroupsMatch(read, groups, KeysInOrder(read), limits)
    modifies groups
    ensures groups <= groups' && Distinct(groups')
    ensures forall j :: |groups| <= j < |groups'| ==> fresh(groups'[j])
    ensures IndexesMatch(KeysInOrder(read + [candidate]), indexes')
    ensures ok ==> GroupsMatch(read + [candidate], groups', KeysInOrder(read + [candidate]), limits)
    ensures ValidLimits(limits) && DatabaseRange(candidate) ==> ok
  {
    hide CandidateGroup.Valid, IndexesMatch, Distinct, OfKey, GroupsMatch, KeysInOrder, DatabaseRange;
    KeysGrow(read, candidate);
    ghost var keys := KeysInOrder(read + [candidate]);
    var index;
    groups', indexes', index := Locate(read, groups, indexes, KeyOf(candidate), limits);
    GroupsAreAsMany(read, groups', keys, limits);
    ok := Route(read, groups', index, candidate, limits, keys);
  }

  lemma NoGroups(candidates: seq<InputSegment>, limits: Limits)
    requires limits.targetRows > 0 && limits.targetBytes > 0
    ensures Distinct([]) && IndexesMatch(KeysInOrder(candidates[..0]), map[])
    ensures GroupsMatch(candidates[..0], [], KeysInOrder(candidates[..0]), limits)
  {
  }

  lemma KeysGrow(read: seq<InputSegment>, candidate: InputSegment)
    ensures var keys, key := KeysInOrder(read), KeyOf(candidate);
            KeysInOrder(read + [candidate]) == if key in keys then keys else keys + [key]
  {
    assert (read + [candidate])[..|read|] == read;
  }

  lemma GroupsAreAsMany(
      read: seq<InputSegment>, groups: seq<CandidateGroup>, keys: seq<GroupKey>, limits: Limits)
    requires limits.targetRows > 0 && limits.targetBytes > 0 && GroupsMatch(read, groups, keys, limits)
    ensures |groups| == |keys|
  {
  }

  /** Makes sure the group of `key` exists. */
  method Locate(ghost read: seq<InputSegment>, groups: seq<CandidateGroup>, indexes: map<GroupKey, nat>,
                key: GroupKey, limits: Limits)
    returns (groups': seq<CandidateGroup>, indexes': map<GroupKey, nat>, index: nat)
    requires limits.targetRows > 0 && limits.targetBytes > 0
    requires Distinct(groups) && IndexesMatch(KeysInOrder(read), indexes)
    requires GroupsMatch(read, groups, KeysInOrder(read), limits)
    ensures groups <= groups' && Distinct(groups')
    ensures forall j :: |groups| <= j < |groups'| ==> fresh(groups'[j])
    ensures var keys := KeysInOrder(read);
            var keys' := if key in keys then keys else keys + [key];
            && IndexesMatch(keys', indexes') && GroupsMatch(read, groups', keys', limits)
            && index < |keys'| && keys'[index] == key
            && forall j :: 0 <= j < |keys'| && j != index ==> keys'[j] != key
  {
    if key in indexes {
      return groups, indexes, indexes[key];
    }
    NoneOfKey(read, key);
    NewIndex(KeysInOrder(read), indexes, key);
    var created := new CandidateGroup(key, limits);
    return groups + [created], indexes[key := |groups|], |groups|;
  }

  ghost predicate Distinct(groups: seq<CandidateGroup>) {
    forall a, b :: 0 <= a < b < |groups| ==> groups[a] != groups[b]
  }

  ghost predicate IndexesMatch(keys: seq<GroupKey>, indexes: map<GroupKey, nat>) {
    && (forall key :: key in keys ==> key in indexes)
    && (forall key :: key in indexes ==> indexes[key] < |keys| && keys[indexes[key]] == key)
    && (forall a, b :: 0 <= a < b < |keys| ==> keys[a] != keys[b])
  }

  lemma NewIndex(keys: seq<GroupKey>, indexes: map<GroupKey, nat>, key: GroupKey)
    requires IndexesMatch(keys, indexes) && key !in indexes
    ensures IndexesMatch(keys + [key], indexes[key := |keys|])
  {
  }

  /** The groups built so far are those of the candidates read so far. */
  ghost predicate GroupsMatch(
      read: seq<InputSegment>, groups: seq<CandidateGroup>, keys: seq<GroupKey>, limits: Limits)
    reads groups
    requires limits.targetRows > 0 && limits.targetBytes > 0
  {
    && |groups| == |keys|
    && (forall j :: 0 <= j < |groups| ==>
          && groups[j].key == keys[j]
          && groups[j].Valid(limits)
          && groups[j].considered == OfKey(read, keys[j]))
  }

  /** Offers a candidate to the group of its key and to no other. */
  method Route(ghost read: seq<InputSegment>, groups: seq<CandidateGroup>, index: nat,
               candidate: InputSegment, limits: Limits, ghost keys: seq<GroupKey>) returns (ok: bool)
    requires limits.targetRows > 0 && limits.targetBytes > 0
    requires Distinct(groups) && GroupsMatch(read, groups, keys, limits)
    requires index < |groups| && keys[index] == KeyOf(candidate)
    requires forall j :: 0 <= j < |keys| && j != index ==> keys[j] != KeyOf(candidate)
    modifies groups
    ensures ok ==> GroupsMatch(read + [candidate], groups, keys, limits)
    ensures ValidLimits(limits) && DatabaseRange(candidate) ==> ok
  {
    ok := groups[index].Consider(candidate, limits);
    assert (read + [candidate])[..|read|] == read;
    if ok {
      forall j | 0 <= j < |groups|
        ensures groups[j].Valid(limits) && groups[j].considered == OfKey(read + [candidate], keys[j])
      {
        if j != index {
          assert groups[j] != groups[index];
        }
      }
    }
  }

  lemma {:induction false} NoneOfKey(candidates: seq<InputSegment>, key: GroupKey)
    requires key !in KeysInOrder(candidates)
    ensures OfKey(candidates, key) == []
  {
    if candidates != [] {
      NoneOfKey(candidates[..|candidates| - 1], key);
    }
  }

  lemma {:induction false} AllOfKey(candidates: seq<InputSegment>, key: GroupKey)
    ensures forall i :: 0 <= i < |OfKey(candidates, key)| ==>
              KeyOf(OfKey(candidates, key)[i]) == key && OfKey(candidates, key)[i] in candidates
  {
    if candidates != [] {
      AllOfKey(candidates[..|candidates| - 1], key);
      assert candidates == candidates[..|candidates| - 1] + [candidates[|candidates| - 1]];
    }
  }

  predicate Homogeneous(selected: seq<InputSegment>, sourceId: nat, schemaId: nat)
    requires selected != []
  {
    forall i :: 0 <= i < |selected| ==>
      KeyOf(selected[i]) == GroupKey(sourceId, schemaId, selected[0].descriptor.times.eventDay)
  }

  function ClaimOf(selected: seq<InputSegment>, sourceId: nat, schemaId: nat): Claim
    requires selected != []
  {
    Claim(sourceId, sourceId, schemaId, selected[0].descriptor.times.eventDay, selected,
          TotalsOf(selected), LatestExpiry(selected))
  }

  /** Turns a selection into a claim, under the stored schema of the group. */
  method MaterializeClaim(selected: seq<InputSegment>, sourceId: nat, schemaId: nat)
    returns (r: Result<Claim, BuildError>)
    ensures r.Success? <==>
              && |selected| >= 2 && Fits64(TotalsOf(selected))
              && forall i :: 0 <= i < |selected| ==>
                   var d := selected[i].descriptor;
                   && d.sourceId == sourceId && d.schemaId == schemaId
                   && d.times.eventDay == selected[0].descriptor.times.eventDay
    ensures r.Success? ==> r.value == ClaimOf(selected, sourceId, schemaId)
  {
    if |selected| < 2 || !Homogeneous(selected, sourceId, schemaId) {
      return Failure(BuildFailed);
    }
    var totals := Totals(0, 0, 0);
    var expiresAt := selected[0].expiresAt;
    for i := 0 to |selected|
      invariant totals == TotalsOf(selected[..i]) && Fits64(totals)
      invariant expiresAt == if i == 0 then selected[0].expiresAt else LatestExpiry(selected[..i])
    {
      assert selected[..i + 1][..i] == selected[..i];
      totals := Add(totals, selected[i]);
      if !Fits64(totals) {
        TotalsMonotone(selected, i + 1);
        return Failure(BuildFailed);
      }
      expiresAt := Max(expiresAt, selected[i].expiresAt);
    }
    assert selected[..|selected|] == selected;
    return Success(Claim(sourceId, sourceId, schemaId, selected[0].descriptor.times.eventDay, selected,
                         totals, expiresAt));
  }

  /** What the candidate query and the descriptor constructor guarantee of every candidate. */
  predicate Eligible(candidate: InputSegment, limits: Limits) {
    && 0 < candidate.descriptor.rowCount < limits.targetRows
    && 0 < candidate.descriptor.uncompressedBytes < limits.targetBytes
    && candidate.descriptor.objectBytes <= limits.maxInputParquetBytes
    && candidate.descriptor.objectOwner == candidate.descriptor.segmentId
  }

  lemma OneInputIsNotBeneficial(selected: seq<InputSegment>, limits: Limits)
    requires limits.targetRows > 0 && limits.targetBytes > 0
    requires forall i :: 0 <= i < |selected| ==> Eligible(selected[i], limits)
    requires Beneficial(selected, limits)
    ensures |selected| >= 2
  {
  }

  /** The claiming side never hands over what the building side would refuse: the group it chooses
      becomes a claim, and under the same limits the worker accepts that claim. */
  lemma {:induction false} ChosenGroupIsAccepted(
      candidates: seq<InputSegment>, j: nat, selected: seq<InputSegment>, limits: Limits)
    requires ValidLimits(limits)
    requires forall i :: 0 <= i < |candidates| ==> Eligible(candidates[i], limits)
    requires Chosen(candidates, j, selected, limits)
    ensures |selected| >= 2 && Fits64(TotalsOf(selected))
    ensures var key := KeysInOrder(candidates)[j];
            && Homogeneous(selected, key.sourceId, key.schemaId)
            && ValidateClaim(ClaimOf(selected, key.sourceId, key.schemaId), limits) == Success(())
  {
    var key := KeysInOrder(candidates)[j];
    var group := OfKey(candidates, key);
    AllOfKey(candidates, key);
    assert group[..|selected|] == selected;
    forall i | 0 <= i < |selected| ensures Eligible(selected[i], limits) && KeyOf(selected[i]) == key {
      assert selected[i] == group[i];
    }
    OneInputIsNotBeneficial(selected, limits);
  }
}
