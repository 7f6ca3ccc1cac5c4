/** Normalizing a record into the fields of its schema and a remainder, and reading a promoted field back out of the
    remainder of an older row. */
module Normalization {
  import opened Basics
  import opened ByteStrings
  import opened JsonPointers
  import opened JsonParser
  import opened JsonText
  import opened JsonValues
  import opened Schemas
  import opened Conversions

  // ---------- normalization ----------

  datatype Mapping = Mapping(fieldId: nat, pointer: seq<Token>)

  datatype Profile = Profile(eventTime: seq<Token>, format: TimeFormat, mappings: seq<Mapping>)

  datatype FieldPlan = FieldPlan(fieldId: nat, nullable: bool, kind: LogicalType, pointer: Option<seq<Token>>)

  datatype DeadLetterCode = ParseFailed | EventTimeInvalid | FieldMissing | FieldNull | ConversionFailed

  datatype AcceptedRow = AcceptedRow(eventTime: int, values: seq<Value>, remainder: Option<map<string, Json>>)

  /** The properties a profile takes out of the record: the ones it names as a whole. */
  function Removed(profile: Profile): set<string> {
    (if |profile.eventTime| == 1 then {profile.eventTime[0]} else {}) +
    (set m | m in profile.mappings && |m.pointer| == 1 :: m.pointer[0])
  }

  method RemovedProperties(profile: Profile) returns (properties: seq<string>)
    ensures forall p :: p in properties <==> p in Removed(profile)
  {
    properties := [];
    if |profile.eventTime| == 1 {
      properties := [profile.eventTime[0]];
    }
    for i := 0 to |profile.mappings|
      invariant forall p :: p in properties <==>
                  || (|profile.eventTime| == 1 && p == profile.eventTime[0])
                  || (exists k :: 0 <= k < i &&
                        |profile.mappings[k].pointer| == 1 && profile.mappings[k].pointer[0] == p)
    {
      var pointer := profile.mappings[i].pointer;
      if |pointer| == 1 && pointer[0] !in properties {
        properties := properties + [pointer[0]];
      }
    }
  }

  /** What a record gives for one field. */
  function FieldValue(root: Json, plan: FieldPlan, format: TimeFormat, reader: Reader): Result<Value, DeadLetterCode> {
    var found := if plan.pointer.Some? then Resolve(root, plan.pointer.value) else None;
    match found
    case None => if plan.nullable then Success(VNull) else Failure(FieldMissing)
    case Some(JNull) => if plan.nullable then Success(VNull) else Failure(FieldNull)
    case Some(value) =>
      var converted := Convert(value, plan.kind, format, reader);
      if converted.Some? then Success(converted.value) else Failure(ConversionFailed)
  }

  function Remainder(entries: map<string, Json>, removed: set<string>): Option<map<string, Json>> {
    var rest := map key | key in entries && key !in removed :: entries[key];
    if rest == map[] then None else Some(rest)
  }

  /** The row of a record: every field converted, and what no mapping names as a whole kept as the remainder. */
  ghost predicate RowOf(row: AcceptedRow, entries: map<string, Json>, profile: Profile, plans: seq<FieldPlan>,
                        reader: Reader)
  {
    && (var time := Resolve(JObject(entries), profile.eventTime);
        time.Some? && ReadDatetime(time.value, profile.format, reader) == Some(row.eventTime))
    && |row.values| == |plans|
    && (forall i :: 0 <= i < |plans| ==>
        FieldValue(JObject(entries), plans[i], profile.format, reader) == Success(row.values[i]))
    && row.remainder == Remainder(entries, Removed(profile))
  }

  /** A property that the event time or a mapping names as a whole. */
  ghost predicate IsTaken(profile: Profile, key: string) {
    profile.eventTime == [key] || exists k :: 0 <= k < |profile.mappings| && profile.mappings[k].pointer == [key]
  }

  /** The field's value: what the record has at its pointer, or null where that is nothing or null. */
  ghost predicate FieldHolds(root: Json, plan: FieldPlan, format: TimeFormat, reader: Reader, v: Value) {
    || (&& v == VNull && plan.nullable
        && (plan.pointer.Some? ==> forall found :: Leads(root, plan.pointer.value, found) ==> found == JNull))
    || (&& plan.pointer.Some?
        && exists found ::
             Leads(root, plan.pointer.value, found) && found != JNull && Gives(found, plan.kind, format, reader, v))
  }

  /** Why a field has no value: nothing at its pointer, a null there, or what is no value of its type. */
  ghost predicate FieldRefused(root: Json, plan: FieldPlan, format: TimeFormat, reader: Reader, code: DeadLetterCode) {
    match code
    case FieldMissing =>
      !plan.nullable && (plan.pointer.Some? ==> forall found :: !Leads(root, plan.pointer.value, found))
    case FieldNull => !plan.nullable && plan.pointer.Some? && Leads(root, plan.pointer.value, JNull)
    case ConversionFailed =>
      plan.pointer.Some? && exists found ::
        && Leads(root, plan.pointer.value, found) && found != JNull
        && forall v :: !Gives(found, plan.kind, format, reader, v)
    case _ => false
  }

  /** What a field is read as, or why it is not, is what the record says at its pointer. */
  lemma FieldValueMeans(root: Json, plan: FieldPlan, format: TimeFormat, reader: Reader)
    ensures FieldValue(root, plan, format, reader).Success? ==>
              FieldHolds(root, plan, format, reader, FieldValue(root, plan, format, reader).value)
    ensures FieldValue(root, plan, format, reader).Failure? ==>
              FieldRefused(root, plan, format, reader, FieldValue(root, plan, format, reader).error)
  {
    hide Resolve, Leads, Convert, Gives;
    if plan.pointer.Some? {
      forall found
        ensures Resolve(root, plan.pointer.value) == Some(found) <==> Leads(root, plan.pointer.value, found)
      {
        ResolveMeans(root, plan.pointer.value, found);
      }
      var found := Resolve(root, plan.pointer.value);
      if found.Some? {
        forall v ensures Convert(found.value, plan.kind, format, reader) == Some(v)
                         <==> Gives(found.value, plan.kind, format, reader, v) {
          ConvertMeans(found.value, plan.kind, format, reader, v);
        }
      }
    }
  }

  /** The row says what the record says: its event time, each field, and what no mapping took out. */
  ghost predicate RowHolds(row: AcceptedRow, entries: map<string, Json>, profile: Profile, plans: seq<FieldPlan>,
                           reader: Reader)
  {
    && TimeTold(entries, profile, reader, row.eventTime)
    && |row.values| == |plans|
    && (forall i :: 0 <= i < |plans| ==>
          FieldHolds(JObject(entries), plans[i], profile.format, reader, row.values[i]))
    && RemainderHolds(row.remainder, entries, profile)
  }

  ghost predicate RemainderHolds(remainder: Option<map<string, Json>>, entries: map<string, Json>, profile: Profile) {
    match remainder
    case None => forall key :: key in entries ==> IsTaken(profile, key)
    case Some(rest) =>
      && rest != map[]
      && forall key :: (key in rest <==> key in entries && !IsTaken(profile, key))
                       && (key in rest ==> rest[key] == entries[key])
  }

  /** The event time cannot be read, or else the first field that cannot be read says why. */
  ghost predicate Refused(
      code: DeadLetterCode, entries: map<string, Json>, profile: Profile, plans: seq<FieldPlan>, reader: Reader)
  {
    if forall milliseconds :: !TimeTold(entries, profile, reader, milliseconds) then code == EventTimeInvalid
    else exists i :: FirstRefused(i, code, entries, profile, plans, reader)
  }

  ghost predicate FirstRefused(
      i: nat, code: DeadLetterCode, entries: map<string, Json>, profile: Profile, plans: seq<FieldPlan>, reader: Reader)
  {
    && i < |plans| && FieldRefused(JObject(entries), plans[i], profile.format, reader, code)
    && forall k :: 0 <= k < i ==> FieldHasValue(JObject(entries), plans[k], profile.format, reader)
  }

  ghost predicate FieldHasValue(root: Json, plan: FieldPlan, format: TimeFormat, reader: Reader) {
    exists v :: FieldHolds(root, plan, format, reader, v)
  }

  lemma RemovedAreTaken(profile: Profile, key: string)
    ensures key in Removed(profile) <==> IsTaken(profile, key)
  {
    if key in Removed(profile) && !(|profile.eventTime| == 1 && profile.eventTime[0] == key) {
      var m :| m in profile.mappings && |m.pointer| == 1 && m.pointer[0] == key;
      var k :| 0 <= k < |profile.mappings| && profile.mappings[k] == m;
      assert profile.mappings[k].pointer == [key];
    }
    if IsTaken(profile, key) && profile.eventTime != [key] {
      var k :| 0 <= k < |profile.mappings| && profile.mappings[k].pointer == [key];
      assert profile.mappings[k] in profile.mappings;
    }
  }

  lemma RemainderMeans(entries: map<string, Json>, profile: Profile)
    ensures RemainderHolds(Remainder(entries, Removed(profile)), entries, profile)
  {
    hide Removed, IsTaken;
    forall key ensures key in Removed(profile) <==> IsTaken(profile, key) {
      RemovedAreTaken(profile, key);
    }
    var rest := map key | key in entries && key !in Removed(profile) :: entries[key];
    if rest == map[] {
      forall key | key in entries ensures IsTaken(profile, key) {
        assert key !in rest;
      }
    }
  }

  /** The record tells the time of its event. */
  ghost predicate TimeTold(entries: map<string, Json>, profile: Profile, reader: Reader, milliseconds: int) {
    exists time ::
      Leads(JObject(entries), profile.eventTime, time) && Tells(time, profile.format, reader, milliseconds)
  }

  lemma TimeMeans(entries: map<string, Json>, profile: Profile, reader: Reader, milliseconds: int)
    ensures var time := Resolve(JObject(entries), profile.eventTime);
            time.Some? && ReadDatetime(time.value, profile.format, reader) == Some(milliseconds) <==>
            TimeTold(entries, profile, reader, milliseconds)
  {
    hide Resolve, Leads, ReadDatetime, Tells;
    var root := JObject(entries);
    forall found ensures Resolve(root, profile.eventTime) == Some(found) <==> Leads(root, profile.eventTime, found) {
      ResolveMeans(root, profile.eventTime, found);
    }
    var time := Resolve(root, profile.eventTime);
    if time.Some? {
      ReadDatetimeMeans(time.value, profile.format, reader, milliseconds);
    }
  }

  lemma RowMeans(row: AcceptedRow, entries: map<string, Json>, profile: Profile, plans: seq<FieldPlan>, reader: Reader)
    requires RowOf(row, entries, profile, plans, reader)
    ensures RowHolds(row, entries, profile, plans, reader)
  {
    hide Resolve, TimeTold, ReadDatetime, FieldValue, FieldHolds, Remainder, RemainderHolds, Removed;
    TimeMeans(entries, profile, reader, row.eventTime);
    RemainderMeans(entries, profile);
    forall i | 0 <= i < |plans| ensures FieldHolds(JObject(entries), plans[i], profile.format, reader, row.values[i]) {
      FieldValueMeans(JObject(entries), plans[i], profile.format, reader);
    }
  }

  lemma RefusalMeans(
      code: DeadLetterCode, entries: map<string, Json>, profile: Profile, plans: seq<FieldPlan>, reader: Reader)
    requires RefusedWith(code, entries, profile, plans, reader)
    ensures Refused(code, entries, profile, plans, reader)
  {
    hide Resolve, TimeTold, ReadDatetime, FieldValue, FieldHolds, FieldRefused;
    var root, time := JObject(entries), Resolve(JObject(entries), profile.eventTime);
    if time.Some? && ReadDatetime(time.value, profile.format, reader).Some? {
      TimeMeans(entries, profile, reader, ReadDatetime(time.value, profile.format, reader).value);
      var i: nat :| FirstUnreadable(i, code, entries, profile, plans, reader);
      FieldValueMeans(root, plans[i], profile.format, reader);
      forall k | 0 <= k < i ensures FieldHasValue(root, plans[k], profile.format, reader) {
        FieldValueMeans(root, plans[k], profile.format, reader);
      }
      assert FirstRefused(i, code, entries, profile, plans, reader);
    } else {
      forall milliseconds ensures !TimeTold(entries, profile, reader, milliseconds) {
        TimeMeans(entries, profile, reader, milliseconds);
      }
    }
  }

  ghost predicate HasRow(entries: map<string, Json>, profile: Profile, plans: seq<FieldPlan>, reader: Reader) {
    exists row :: RowOf(row, entries, profile, plans, reader)
  }

  /** Why a record has no row: its event time, or else the first field that cannot be read. */
  ghost predicate RefusedWith(
      code: DeadLetterCode, entries: map<string, Json>, profile: Profile, plans: seq<FieldPlan>, reader: Reader)
  {
    var time := Resolve(JObject(entries), profile.eventTime);
    if time.None? || ReadDatetime(time.value, profile.format, reader).None? then code == EventTimeInvalid
    else exists i :: FirstUnreadable(i, code, entries, profile, plans, reader)
  }

  ghost predicate FirstUnreadable(
      i: nat, code: DeadLetterCode, entries: map<string, Json>, profile: Profile, plans: seq<FieldPlan>, reader: Reader)
  {
    && i < |plans| && FieldValue(JObject(entries), plans[i], profile.format, reader) == Failure(code)
    && forall k :: 0 <= k < i ==> FieldValue(JObject(entries), plans[k], profile.format, reader).Success?
  }

  /** Normalizes one parsed record. It gives a row exactly when the event time and every field can be read. */
  method NormalizeRecord(entries: map<string, Json>, profile: Profile, plans: seq<FieldPlan>, reader: Reader)
    returns (r: Result<AcceptedRow, DeadLetterCode>)
    ensures r.Success? ==> RowOf(r.value, entries, profile, plans, reader)
    ensures r.Failure? ==>
              !HasRow(entries, profile, plans, reader) && RefusedWith(r.error, entries, profile, plans, reader)
    ensures match r
            case Success(row) => RowHolds(row, entries, profile, plans, reader)
            case Failure(code) => Refused(code, entries, profile, plans, reader)
  {
    r := NormalizeFields(entries, profile, plans, reader);
    hide *;
    if r.Success? {
      RowMeans(r.value, entries, profile, plans, reader);
    } else {
      RefusalMeans(r.error, entries, profile, plans, reader);
    }
  }

  method NormalizeFields(entries: map<string, Json>, profile: Profile, plans: seq<FieldPlan>, reader: Reader)
    returns (r: Result<AcceptedRow, DeadLetterCode>)
    ensures r.Success? ==> RowOf(r.value, entries, profile, plans, reader)
    ensures r.Failure? ==>
              !HasRow(entries, profile, plans, reader) && RefusedWith(r.error, entries, profile, plans, reader)
  {
    hide Resolve, ReadDatetime, FieldValue, Removed;
    var root := JObject(entries);
    var time := ResolvePointer(root, profile.eventTime);
    var eventTime := if time.Some? then ReadDatetime(time.value, profile.format, reader) else None;
    if eventTime.None? {
      return Failure(EventTimeInvalid);
    }
    var values: seq<Value> := [];
    for i := 0 to |plans|
      invariant |values| == i
      invariant forall k :: 0 <= k < i ==> FieldValue(root, plans[k], profile.format, reader) == Success(values[k])
    {
      var value := FieldValue(root, plans[i], profile.format, reader);
      if value.Failure? {
        assert FirstUnreadable(i, value.error, entries, profile, plans, reader);
        return Failure(value.error);
      }
      values := values + [value.value];
    }
    var properties := RemovedProperties(profile);
    var rest := entries;
    for i := 0 to |properties|
      invariant rest == map key | key in entries && key !in properties[..i] :: entries[key]
    {
      rest := rest - {properties[i]};
      assert properties[..i + 1] == properties[..i] + [properties[i]];
    }
    assert properties[..|properties|] == properties;
    assert rest == map key | key in entries && key !in Removed(profile) :: entries[key];
    return Success(AcceptedRow(eventTime.value, values, if rest == map[] then None else Some(rest)));
  }

  /** Normalizes one record as it arrives: parsed first, so that what is no record is a parse failure. */
  method NormalizeLine(bytes: seq<Byte>, lexer: Lexer, profile: Profile, plans: seq<FieldPlan>, reader: Reader)
    returns (r: Result<AcceptedRow, DeadLetterCode>, ghost tree: Tree)
    ensures r == Failure(ParseFailed) <==> forall before, other, after :: !IsRecord(bytes, before, other, after, lexer)
    ensures r != Failure(ParseFailed) ==>
              && (exists before, after :: IsRecord(bytes, before, tree, after, lexer))
              && var entries := Entries(tree.members, lexer);
                 match r
                 case Success(row) =>
                   RowOf(row, entries, profile, plans, reader) && RowHolds(row, entries, profile, plans, reader)
                 case Failure(code) =>
                   RefusedWith(code, entries, profile, plans, reader) && Refused(code, entries, profile, plans, reader)
  {
    hide IsRecord, RowOf, HasRow, Resolve, ReadDatetime, FieldValue, Entries, RowHolds, Refused;
    var entries, parsed := ParseRecord(bytes, lexer);
    tree := parsed;
    if entries.Failure? {
      return Failure(ParseFailed), tree;
    }
    r := NormalizeRecord(entries.value, profile, plans, reader);
    if r.Failure? {
      RefusalIsNoParseFailure(r.error, entries.value, profile, plans, reader);
    }
  }

  lemma RefusalIsNoParseFailure(
      code: DeadLetterCode, entries: map<string, Json>, profile: Profile, plans: seq<FieldPlan>, reader: Reader)
    requires RefusedWith(code, entries, profile, plans, reader)
    ensures code != ParseFailed
  {
    hide Resolve, ReadDatetime;
  }

  // ---------- promotion ----------

  /** What the stored text of a remainder reads back as, if the reader of the adapter accepts it. */
  type Reread = map<string, Json> -> Option<Json>

  /** A remainder is read back as it was or not at all. */
  ghost predicate ReadsBack(reread: Reread) {
    forall remainder :: reread(remainder).Some? ==> reread(remainder).value == JObject(remainder)
  }

  /** What the adapter reads for a promoted field from the remainder of a stored row. */
  function HistoricalValue(
      remainder: Option<map<string, Json>>, pointer: seq<Token>, kind: LogicalType, reader: Reader, reread: Reread)
    : Value
  {
    if remainder.None? || reread(remainder.value).None? then VNull
    else
      var found := Resolve(reread(remainder.value).value, pointer);
      if found.None? || found.value.JNull? then VNull
      else
        var converted := ConvertHistorical(found.value, kind, reader);
        if converted.Some? then converted.value else VNull
  }

  /** It reads what the stored remainder gives at the pointer, as RFC 3339 where it is a time, and null where that is
      nothing. */
  lemma HistoricalValueMeans(remainder: Option<map<string, Json>>, pointer: seq<Token>, kind: LogicalType,
                             reader: Reader, reread: Reread)
    ensures var v := HistoricalValue(remainder, pointer, kind, reader, reread);
            if v == VNull then
              remainder.None? || reread(remainder.value).None? ||
              forall found, w :: Leads(reread(remainder.value).value, pointer, found) ==>
                !Gives(found, kind, Rfc3339, reader, w)
            else
              && remainder.Some? && reread(remainder.value).Some?
              && exists found ::
                   Leads(reread(remainder.value).value, pointer, found) && Gives(found, kind, Rfc3339, reader, v)
  {
    hide Resolve, Leads, Gives, ConvertHistorical;
    if remainder.Some? && reread(remainder.value).Some? {
      var root := reread(remainder.value).value;
      forall found ensures Resolve(root, pointer) == Some(found) <==> Leads(root, pointer, found) {
        ResolveMeans(root, pointer, found);
      }
      var found := Resolve(root, pointer);
      if found.Some? {
        NullGivesNothing(kind, reader);
        ConvertsToValues(found.value, kind, reader);
        forall w ensures ConvertHistorical(found.value, kind, reader) == Some(w)
                         <==> Gives(found.value, kind, Rfc3339, reader, w) {
          ConvertHistoricalMeans(found.value, kind, reader, w);
        }
      }
    }
  }

  lemma NullGivesNothing(kind: LogicalType, reader: Reader)
    ensures forall v :: !Gives(JNull, kind, Rfc3339, reader, v)
  {
  }

  lemma ConvertsToValues(value: Json, kind: LogicalType, reader: Reader)
    ensures ConvertHistorical(value, kind, reader) != Some(VNull)
  {
  }

  /** What the old profile left in the remainder is found there by every pointer into it. */
  lemma RemainderKeeps(entries: map<string, Json>, removed: set<string>, pointer: seq<Token>)
    requires pointer != [] && pointer[0] !in removed
    ensures var remainder := Remainder(entries, removed);
            Resolve(JObject(entries), pointer) ==
            if remainder.None? then None else Resolve(JObject(remainder.value), pointer)
  {
    var rest := map key | key in entries && key !in removed :: entries[key];
    if pointer[0] in entries {
      assert pointer[0] in rest && rest[pointer[0]] == entries[pointer[0]];
    } else {
      assert pointer[0] !in rest;
    }
  }

  /** What it took out as a whole is not found there. */
  lemma RemainderLacks(entries: map<string, Json>, removed: set<string>, pointer: seq<Token>)
    requires pointer != [] && pointer[0] in removed
    ensures var remainder := Remainder(entries, removed);
            remainder.Some? ==> Resolve(JObject(remainder.value), pointer) == None
  {
  }

  /** The adapter gives what a profile that maps the field would have stored, and null where that profile would have
      refused the value. */
  predicate Agrees(stored: Result<Value, DeadLetterCode>, promoted: Value) {
    promoted == if stored.Success? then stored.value else VNull
  }

  /** The value cannot be reached from the stored row: its property was taken out as a whole, or the remainder is not
      read back. */
  predicate OutOfReach(pointer: seq<Token>, earlier: Profile, row: AcceptedRow, reread: Reread) {
    && pointer != []
    && (pointer[0] in Removed(earlier) || (row.remainder.Some? && reread(row.remainder.value).None?))
  }

  /** When the value at hand is read alike: a value out of reach must be one no profile would store, and a time must be
      one of the format the adapter knows, or none in either format. */
  predicate ReadAlike(value: Json, outOfReach: bool, kind: LogicalType, format: TimeFormat, reader: Reader) {
    if outOfReach then Convert(value, kind, format, reader).None?
    else
      || kind != Datetime || format == Rfc3339
      || (Convert(value, kind, format, reader).None? && ReadTimestamp(value, reader).None?)
  }

  /** A field promoted out of the remainder reads, from an older row, exactly what a profile that maps it there would
      have stored for the same record if and only if the record has no value for it or the value is read alike. */
  lemma PromotionAgrees(entries: map<string, Json>, earlier: Profile, plans: seq<FieldPlan>, row: AcceptedRow,
                        field: FieldPlan, format: TimeFormat, reader: Reader, reread: Reread)
    requires RowOf(row, entries, earlier, plans, reader) && ReadsBack(reread)
    requires field.nullable && field.pointer.Some?
    ensures var pointer := field.pointer.value;
            var found := Resolve(JObject(entries), pointer);
            Agrees(FieldValue(JObject(entries), field, format, reader),
                   HistoricalValue(row.remainder, pointer, field.kind, reader, reread)) <==>
            (found.None? || found.value.JNull? ||
             ReadAlike(found.value, OutOfReach(pointer, earlier, row, reread), field.kind, format, reader))
  {
    hide Resolve, Remainder, Removed, ConvertPlain, FieldValue, RowOf;
    var pointer := field.pointer.value;
    RowRemainder(row, entries, earlier, plans, reader);
    FieldOfRecord(JObject(entries), field, format, reader);
    NeverNull(format, reader);
    if pointer == [] {
      RootIsNoValue(JObject(entries), row.remainder, field.kind, format, reader, reread);
    } else if pointer[0] in Removed(earlier) {
      RemainderLacks(entries, Removed(earlier), pointer);
    } else {
      RemainderKeeps(entries, Removed(earlier), pointer);
    }
  }

  lemma RowRemainder(row: AcceptedRow, entries: map<string, Json>, profile: Profile, plans: seq<FieldPlan>,
                     reader: Reader)
    requires RowOf(row, entries, profile, plans, reader)
    ensures row.remainder == Remainder(entries, Removed(profile))
  {
  }

  lemma FieldOfRecord(root: Json, field: FieldPlan, format: TimeFormat, reader: Reader)
    requires field.nullable && field.pointer.Some?
    ensures var found := Resolve(root, field.pointer.value);
            FieldValue(root, field, format, reader) ==
            if found.None? || found.value.JNull? then Success(VNull)
            else
              var converted := Convert(found.value, field.kind, format, reader);
              if converted.Some? then Success(converted.value) else Failure(ConversionFailed)
  {
  }

  /** Nothing converts to null. */
  lemma NeverNull(format: TimeFormat, reader: Reader)
    ensures forall value, kind ::
              Convert(value, kind, format, reader) != Some(VNull)
                  && ConvertHistorical(value, kind, reader) != Some(VNull)
  {
  }

  /** The record itself is no value of any type. */
  lemma RootIsNoValue(root: Json, remainder: Option<map<string, Json>>, kind: LogicalType, format: TimeFormat,
                      reader: Reader, reread: Reread)
    requires root.JObject? && ReadsBack(reread)
    ensures Resolve(root, []) == Some(root) && Convert(root, kind, format, reader) == None
    ensures kind == Datetime ==> ReadTimestamp(root, reader) == None
    ensures HistoricalValue(remainder, [], kind, reader, reread) == VNull
  {
  }

  lemma Property(entries: map<string, Json>, key: string)
    ensures Resolve(JObject(entries), [key]) == if key in entries then Some(entries[key]) else None
  {
    assert [key][1..] == [];
  }

  /** A property the old profile mapped as a whole cannot be promoted. */
  lemma PromotionNeedsTheProperty(time: string, milliseconds: int, reader: Reader, reread: Reread)
    requires reader.timestamp(time) == Some(milliseconds) && reader.inUtcRange(milliseconds)
    ensures var entries: map<string, Json> := map["t" := JString(time), "a" := JBool(true)];
            var earlier := Profile(["t"], Rfc3339, [Mapping(7, ["a"])]);
            var row := AcceptedRow(milliseconds, [VBool(true)], None);
            var field := FieldPlan(9, true, LogicalType.Bool, Some(["a"]));
            && RowOf(row, entries, earlier, [FieldPlan(7, true, LogicalType.Bool, Some(["a"]))], reader)
            && FieldValue(JObject(entries), field, Rfc3339, reader) == Success(VBool(true))
            && HistoricalValue(row.remainder, ["a"], LogicalType.Bool, reader, reread) == VNull
  {
    var entries: map<string, Json> := map["t" := JString(time), "a" := JBool(true)];
    var earlier := Profile(["t"], Rfc3339, [Mapping(7, ["a"])]);
    Property(entries, "t");
    Property(entries, "a");
    hide Resolve;
    assert earlier.mappings[0] in earlier.mappings;
    assert "t" in Removed(earlier) && "a" in Removed(earlier);
    assert (map key | key in entries && key !in Removed(earlier) :: entries[key]) == map[];
  }

  /** A time stored as a number of milliseconds is null to the adapter. */
  lemma PromotionNeedsRfc3339(number: string, milliseconds: int, reader: Reader, reread: Reread)
    requires reader.signed(number) == Some(milliseconds) && reader.inUtcRange(milliseconds) && ReadsBack(reread)
    ensures var entries: map<string, Json> := map["t" := JNumber(number), "u" := JNumber(number)];
            var row := AcceptedRow(milliseconds, [], Some(map["u" := JNumber(number)]));
            var field := FieldPlan(9, true, Datetime, Some(["u"]));
            && RowOf(row, entries, Profile(["t"], UnixMilliseconds, []), [], reader)
            && FieldValue(JObject(entries), field, UnixMilliseconds, reader) == Success(VDatetime(milliseconds))
            && HistoricalValue(row.remainder, ["u"], Datetime, reader, reread) == VNull
  {
    var entries: map<string, Json> := map["t" := JNumber(number), "u" := JNumber(number)];
    Property(entries, "t");
    Property(entries, "u");
    Property(map["u" := JNumber(number)], "u");
    hide Resolve;
    OnlyTimeRemoved(entries, Profile(["t"], UnixMilliseconds, []), "u");
  }

  /** And a text that is no number of milliseconds, which such a profile refuses, is a time to the adapter. */
  lemma PromotionReadsRefusedTimes(
      number: string, milliseconds: int, text: string, other: int, reader: Reader, reread: Reread)
    requires reader.signed(number) == Some(milliseconds) && reader.inUtcRange(milliseconds) && ReadsBack(reread)
    requires reader.timestamp(text) == Some(other) && reader.inUtcRange(other)
    requires reread(map["u" := JString(text)]).Some?
    ensures var entries: map<string, Json> := map["t" := JNumber(number), "u" := JString(text)];
            var row := AcceptedRow(milliseconds, [], Some(map["u" := JString(text)]));
            var field := FieldPlan(9, true, Datetime, Some(["u"]));
            && RowOf(row, entries, Profile(["t"], UnixMilliseconds, []), [], reader)
            && FieldValue(JObject(entries), field, UnixMilliseconds, reader) == Failure(ConversionFailed)
            && HistoricalValue(row.remainder, ["u"], Datetime, reader, reread) == VDatetime(other)
  {
    var entries: map<string, Json> := map["t" := JNumber(number), "u" := JString(text)];
    Property(entries, "t");
    Property(entries, "u");
    Property(map["u" := JString(text)], "u");
    hide Resolve;
    OnlyTimeRemoved(entries, Profile(["t"], UnixMilliseconds, []), "u");
  }

  lemma OnlyTimeRemoved(entries: map<string, Json>, profile: Profile, key: string)
    requires profile.eventTime == ["t"] && profile.mappings == [] && key != "t" && entries.Keys == {"t", key}
    ensures Remainder(entries, Removed(profile)) == Some(map[key := entries[key]])
  {
    var rest := map k | k in entries && k !in Removed(profile) :: entries[k];
    assert rest == map[key := entries[key]];
    assert key in rest;
  }

  // ---------- reading deep remainders back ----------

  /** A reader that accepts exactly the values with fewer than `bound` nested containers. */
  ghost predicate Bounded(reread: Reread, bound: nat) {
    ReadsBack(reread) && forall r :: reread(r).Some? <==> bound > 0 && Within(JObject(r), bound - 1)
  }

  function Nested(depth: nat): Json {
    if depth == 0 then JNull else JArray([Nested(depth - 1)])
  }

  lemma {:induction false} NestedDepth(depth: nat, bound: nat)
    ensures Within(Nested(depth), bound) <==> depth <= bound
  {
    if depth > 0 && bound > 0 {
      NestedDepth(depth - 1, bound - 1);
      assert Nested(depth).elements[0] == Nested(depth - 1);
    }
  }

  /** A record whose only deep value nests as many containers as are left inside it. */
  lemma DeepRecord(rest: map<string, Json>, time: string, depth: nat)
    requires rest == map["a" := JBool(true), "d" := Nested(depth)]
    ensures Within(JObject(rest["t" := JString(time)]), depth + 1) && !Within(JObject(rest), depth)
  {
    NestedDepth(depth, depth);
    if depth > 0 {
      NestedDepth(depth, depth - 1);
    }
    hide Nested;
    assert "d" in rest;
  }

  /** When the adapter reads fewer levels than the record parser accepts, a field beside the deepest value the parser
      accepts is stored by a profile that maps it and null to the adapter. */
  lemma PromotionNeedsShallowRemainders(time: string, milliseconds: int, bound: nat, reader: Reader, reread: Reread)
    requires reader.timestamp(time) == Some(milliseconds) && reader.inUtcRange(milliseconds)
    requires bound > 0 && Bounded(reread, bound)
    ensures var rest: map<string, Json> := map["a" := JBool(true), "d" := Nested(bound - 1)];
            var entries := rest["t" := JString(time)];
            var row := AcceptedRow(milliseconds, [], Some(rest));
            var field := FieldPlan(9, true, LogicalType.Bool, Some(["a"]));
            && Within(JObject(entries), bound) && RowOf(row, entries, Profile(["t"], Rfc3339, []), [], reader)
            && FieldValue(JObject(entries), field, Rfc3339, reader) == Success(VBool(true))
            && HistoricalValue(row.remainder, ["a"], LogicalType.Bool, reader, reread) == VNull
  {
    hide Resolve, Nested, Within;
    var rest: map<string, Json> := map["a" := JBool(true), "d" := Nested(bound - 1)];
    var entries := rest["t" := JString(time)];
    Property(entries, "t");
    Property(entries, "a");
    DeepRecord(rest, time, bound - 1);
    assert (map k | k in entries && k !in Removed(Profile(["t"], Rfc3339, [])) :: entries[k]) == rest;
    assert "d" in rest;
  }
}
