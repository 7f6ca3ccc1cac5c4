/** The metadata rows behind compaction: runs, segments and their objects. The shape of every state
    carries exactly the timestamps the table constraints demand of it. */
module Metastore {
  import opened Basics
  import opened Segments

  /** A grace period before a retired object may be reclaimed: positive whole seconds. */
  type Grace = seconds: nat | seconds > 0 witness 1

  const MAX_INPUT_SEGMENTS: nat := 1000
  const MAX_OUTPUT_SEGMENTS: nat := 1000

  datatype MetadataError = Conflict | Corrupt | Unavailable | WriteError | AmbiguousCommit

  datatype FailureReason = InputInvalid | BuildFailed | NotBeneficial | PublicationFailed | RecoveryFailed

  datatype RunState =
    | Building
    | Uploading
    | Committed(completedAt: int)
    | Failed(reason: FailureReason, completedAt: int)

  datatype SegmentState =
    | Prepared
    | Active(publishedAt: int)
    | Superseded(publishedAt: int, retiredAt: int, reclaimAfter: int)
    | Abandoned(retiredAt: int, reclaimAfter: int)

  datatype ObjectState =
    | Planned
    | Uploaded(uploadedAt: int)
    | Published(uploadedAt: int, publishedAt: int)

  datatype Owner = Owner(sourceId: nat, schemaId: nat, eventDay: int)

  datatype Run = Run(owner: Owner, state: RunState)

  /** No stored segment is empty. */
  type RowCount = rows: nat | rows > 0 witness 1

  /** What a segment covers: how many rows, which times, and until when they are kept. */
  datatype Extent = Extent(rows: RowCount, bounds: TimeBounds, expiresAt: int)

  datatype Segment = Segment(
    owner: Owner, extent: Extent, state: SegmentState, claimedBy: Option<nat>, producedBy: Option<nat>)

  /** Each segment owns at most one object, so objects are found by their segment. `contents` is what
      those objects hold; no transaction reads it. */
  datatype Store = Store(
    runs: map<nat, Run>, segments: map<nat, Segment>, objects: map<nat, ObjectState>, contents: map<nat, seq<Row>>)

  predicate Unfinished(state: RunState) {
    state.Building? || state.Uploading?
  }

  ghost function Inputs(s: Store, run: nat): set<nat> {
    set id | id in s.segments && s.segments[id].claimedBy == Some(run)
  }

  ghost function Outputs(s: Store, run: nat): set<nat> {
    set id | id in s.segments && s.segments[id].producedBy == Some(run)
  }

  ghost function ActiveIds(s: Store): set<nat> {
    set id | id in s.segments && s.segments[id].state.Active?
  }

  // ---------- totals of a group of segments ----------

  function Combine(a: Extent, b: Extent): Extent {
    Extent(a.rows + b.rows, Join(a.bounds, b.bounds), Max(a.expiresAt, b.expiresAt))
  }

  function Total(extents: seq<Extent>): Extent
    requires extents != []
  {
    if |extents| == 1 then extents[0]
    else Combine(Total(extents[..|extents| - 1]), extents[|extents| - 1])
  }

  lemma {:induction false} TotalRowsMonotone(extents: seq<Extent>, n: nat)
    requires 0 < n <= |extents|
    ensures Total(extents[..n]).rows <= Total(extents).rows
    decreases |extents|
  {
    if n == |extents| {
      assert extents[..n] == extents;
    } else {
      TotalRowsMonotone(extents[..|extents| - 1], n);
      assert extents[..|extents| - 1][..n] == extents[..n];
    }
  }

  /** The running totals of a replacement. They fail only when the row total leaves 64 bits. */
  method ReplacementTotals(extents: seq<Extent>) returns (r: Result<Extent, MetadataError>)
    ensures r == if extents == [] || Total(extents).rows > U64_MAX then Failure(Corrupt) else Success(Total(extents))
  {
    if extents == [] {
      return Failure(Corrupt);
    }
    var totals := extents[0];
    assert extents[..1] == [extents[0]];
    if totals.rows > U64_MAX {
      TotalRowsMonotone(extents, 1);
      return Failure(Corrupt);
    }
    for i := 1 to |extents|
      invariant totals == Total(extents[..i]) && totals.rows <= U64_MAX
    {
      TakeSnoc(extents, i + 1);
      totals := Combine(totals, extents[i]);
      if totals.rows > U64_MAX {
        TotalRowsMonotone(extents, i + 1);
        return Failure(Corrupt);
      }
    }
    assert extents[..|extents|] == extents;
    return Success(totals);
  }

  /** What the totals mean: the sum of the rows, the joined bounds and the latest expiry. */
  lemma {:induction false} TotalExpiry(extents: seq<Extent>)
    requires extents != []
    ensures forall i :: 0 <= i < |extents| ==> extents[i].expiresAt <= Total(extents).expiresAt
    ensures exists i :: 0 <= i < |extents| && extents[i].expiresAt == Total(extents).expiresAt
  {
    if |extents| > 1 {
      var init := extents[..|extents| - 1];
      TotalExpiry(init);
      var i :| 0 <= i < |init| && init[i].expiresAt == Total(init).expiresAt;
      assert extents[i].expiresAt == Total(init).expiresAt;
      assert extents[|extents| - 1].expiresAt <= Total(extents).expiresAt;
    } else {
      assert extents[0].expiresAt == Total(extents).expiresAt;
    }
  }

  // ---------- rows in identity order ----------

  ghost predicate IsMinimum(ids: set<nat>, least: nat) {
    least in ids && forall other :: other in ids ==> least <= other
  }

  lemma {:induction false} MinimumExists(ids: set<nat>)
    requires ids != {}
    ensures exists least :: IsMinimum(ids, least)
    decreases |ids|
  {
    var some :| some in ids;
    if ids == {some} {
      assert IsMinimum(ids, some);
    } else {
      var rest := ids - {some};
      assert |rest| < |ids|;
      MinimumExists(rest);
      var least: nat :| IsMinimum(rest, least);
      var lesser: nat := if some <= least then some else least;
      forall other | other in ids ensures lesser <= other {
        assert other == some || other in rest;
      }
      assert IsMinimum(ids, lesser);
    }
  }

  /** The order in which a query lists the rows of `ids`. */
  ghost function Ordered(ids: set<nat>): seq<nat>
    decreases |ids|
  {
    if ids == {} then []
    else
      MinimumExists(ids);
      var least: nat :| IsMinimum(ids, least);
      [least] + Ordered(ids - {least})
  }

  lemma {:induction false} OrderedLists(ids: set<nat>)
    ensures |Ordered(ids)| == |ids|
    ensures forall k :: 0 <= k < |Ordered(ids)| ==> Ordered(ids)[k] in ids
    ensures forall id :: id in ids ==> id in Ordered(ids)
    decreases |ids|
  {
    if ids != {} {
      var least := Ordered(ids)[0];
      MinimumExists(ids);
      assert least in ids && Ordered(ids) == [least] + Ordered(ids - {least});
      OrderedLists(ids - {least});
      forall id | id in ids ensures id in Ordered(ids) {
        if id != least {
          assert id in Ordered(ids - {least});
        }
      }
    }
  }

  ghost function Extents(s: Store, ids: seq<nat>): seq<Extent>
    requires forall k :: 0 <= k < |ids| ==> ids[k] in s.segments
  {
    seq(|ids|, k requires 0 <= k < |ids| => s.segments[ids[k]].extent)
  }

  ghost function TotalOf(s: Store, ids: set<nat>): Extent
    requires ids != {} && ids <= s.segments.Keys
  {
    OrderedLists(ids);
    Total(Extents(s, Ordered(ids)))
  }

  /** Totals depend only on the extents of the segments named. */
  lemma TotalOfSame(s: Store, s': Store, ids: set<nat>)
    requires ids != {} && ids <= s.segments.Keys && ids <= s'.segments.Keys
    requires forall id :: id in ids ==> s.segments[id].extent == s'.segments[id].extent
    ensures TotalOf(s, ids) == TotalOf(s', ids)
  {
    OrderedLists(ids);
    assert Extents(s, Ordered(ids)) == Extents(s', Ordered(ids));
  }

  lemma OrderedStarts(ids: set<nat>, least: nat)
    requires IsMinimum(ids, least)
    ensures Ordered(ids) == [least] + Ordered(ids - {least})
  {
  }

  /** Leaving one identity out leaves one place of the order out. */
  lemma {:induction false} OrderedRemove(ids: set<nat>, id: nat) returns (i: nat)
    requires id in ids
    ensures i < |Ordered(ids)| && Ordered(ids)[i] == id
    ensures Ordered(ids - {id}) == Ordered(ids)[..i] + Ordered(ids)[i + 1..]
    decreases |ids|
  {
    MinimumExists(ids);
    var least: nat :| IsMinimum(ids, least);
    OrderedStarts(ids, least);
    if least == id {
      i := 0;
    } else {
      var rest := ids - {least};
      i := OrderedRemove(rest, id);
      assert IsMinimum(ids - {id}, least);
      OrderedStarts(ids - {id}, least);
      assert ids - {id} - {least} == rest - {id};
      var tail := Ordered(rest);
      assert ([least] + tail)[..i + 1] == [least] + tail[..i];
      assert ([least] + tail)[i + 2..] == tail[i + 1..];
      i := i + 1;
    }
  }

  lemma {:induction false} TotalRemove(extents: seq<Extent>, i: nat)
    requires |extents| >= 2 && i < |extents|
    ensures Total(extents) == Combine(Total(extents[..i] + extents[i + 1..]), extents[i])
    decreases |extents|
  {
    var init, last := extents[..|extents| - 1], extents[|extents| - 1];
    var without := extents[..i] + extents[i + 1..];
    if i == |extents| - 1 {
      assert without == init;
    } else {
      assert without[|without| - 1] == last;
      if |extents| > 2 {
        TotalRemove(init, i);
        assert without[..|without| - 1] == init[..i] + init[i + 1..];
      } else {
        assert init == [extents[0]] && without == [last];
      }
    }
  }

  /** The total of a set of segments, taking one of them out. */
  lemma TotalOfRemove(s: Store, ids: set<nat>, id: nat)
    requires ids <= s.segments.Keys && id in ids && ids != {id}
    ensures ids - {id} != {}
    ensures TotalOf(s, ids) == Combine(TotalOf(s, ids - {id}), s.segments[id].extent)
  {
    var rest := ids - {id};
    assert ids == rest + {id};
    OrderedLists(ids);
    OrderedLists(rest);
    assert |ids| == |rest| + 1;
    var i := OrderedRemove(ids, id);
    hide Ordered, Total;
    ExtentsRemove(s, Ordered(ids), i);
    TotalRemove(Extents(s, Ordered(ids)), i);
  }

  lemma ExtentsRemove(s: Store, ids: seq<nat>, i: nat)
    requires i < |ids| && forall k :: 0 <= k < |ids| ==> ids[k] in s.segments
    ensures var without := ids[..i] + ids[i + 1..];
            && (forall k :: 0 <= k < |without| ==> without[k] in s.segments)
            && Extents(s, without) == Extents(s, ids)[..i] + Extents(s, ids)[i + 1..]
  {
  }

  function IdSet(ids: seq<nat>): set<nat> {
    set k | 0 <= k < |ids| :: ids[k]
  }

  predicate NoDuplicates(ids: seq<nat>) {
    forall a, b :: 0 <= a < b < |ids| ==> ids[a] != ids[b]
  }

  lemma IdSetSnoc(ids: seq<nat>)
    requires ids != [] && NoDuplicates(ids)
    ensures IdSet(ids) - {ids[|ids| - 1]} == IdSet(ids[..|ids| - 1])
    ensures ids[|ids| - 1] in IdSet(ids) && NoDuplicates(ids[..|ids| - 1])
  {
    var init, last := ids[..|ids| - 1], ids[|ids| - 1];
    forall id | id in IdSet(ids) - {last} ensures id in IdSet(init) {
      var k :| 0 <= k < |ids| && ids[k] == id;
      assert init[k] == id;
    }
    forall id | id in IdSet(init) ensures id in IdSet(ids) - {last} {
      var k :| 0 <= k < |init| && init[k] == id;
      assert ids[k] == id;
    }
  }

  /** In whatever order the segments are listed, their total is the same. */
  lemma {:induction false} TotalOfList(s: Store, ids: seq<nat>)
    requires ids != [] && NoDuplicates(ids) && forall k :: 0 <= k < |ids| ==> ids[k] in s.segments
    ensures IdSet(ids) != {} && IdSet(ids) <= s.segments.Keys
    ensures TotalOf(s, IdSet(ids)) == Total(Extents(s, ids))
  {
    var init, last := ids[..|ids| - 1], ids[|ids| - 1];
    IdSetSnoc(ids);
    assert last in IdSet(ids);
    if init == [] {
      assert IdSet(ids) == {last};
      assert IsMinimum({last}, last);
      OrderedStarts({last}, last);
      assert {last} - {last} == {};
      assert Extents(s, ids) == Extents(s, Ordered({last}));
    } else {
      TotalOfList(s, init);
      assert IdSet(ids) != {last};
      TotalOfRemove(s, IdSet(ids), last);
      assert Extents(s, ids)[..|ids| - 1] == Extents(s, init);
    }
  }

  // ---------- what a set of segments holds ----------

  ghost function Gather(contents: map<nat, seq<Row>>, ids: set<nat>): multiset<Row>
    requires ids <= contents.Keys
    decreases |ids|
  {
    if ids == {} then multiset{}
    else
      var id :| id in ids;
      multiset(contents[id]) + Gather(contents, ids - {id})
  }

  lemma {:induction false} GatherRemove(contents: map<nat, seq<Row>>, ids: set<nat>, id: nat)
    requires ids <= contents.Keys && id in ids
    ensures Gather(contents, ids) == multiset(contents[id]) + Gather(contents, ids - {id})
    decreases |ids|
  {
    var picked :| picked in ids
        && Gather(contents, ids) == multiset(contents[picked]) + Gather(contents, ids - {picked});
    if picked != id {
      GatherRemove(contents, ids - {picked}, id);
      GatherRemove(contents, ids - {id}, picked);
      assert ids - {picked} - {id} == ids - {id} - {picked};
    }
  }

  lemma {:induction false} GatherUnion(contents: map<nat, seq<Row>>, a: set<nat>, b: set<nat>)
    requires a <= contents.Keys && b <= contents.Keys && a !! b
    ensures Gather(contents, a + b) == Gather(contents, a) + Gather(contents, b)
    decreases |a|
  {
    if a == {} {
      assert a + b == b;
    } else {
      var id :| id in a;
      GatherRemove(contents, a + b, id);
      GatherRemove(contents, a, id);
      GatherUnion(contents, a - {id}, b);
      assert a + b - {id} == (a - {id}) + b;
    }
  }

  lemma {:induction false} GatherList(contents: map<nat, seq<Row>>, ids: seq<nat>)
    requires NoDuplicates(ids) && forall k :: 0 <= k < |ids| ==> ids[k] in contents
    ensures IdSet(ids) <= contents.Keys
    ensures Gather(contents, IdSet(ids)) ==
            multiset(Flatten(seq(|ids|, k requires 0 <= k < |ids| => contents[ids[k]])))
  {
    var rows := seq(|ids|, k requires 0 <= k < |ids| => contents[ids[k]]);
    if ids == [] {
      assert IdSet(ids) == {};
    } else {
      var init, last := ids[..|ids| - 1], ids[|ids| - 1];
      IdSetSnoc(ids);
      GatherList(contents, init);
      GatherRemove(contents, IdSet(ids), last);
      var earlier := seq(|init|, k requires 0 <= k < |init| => contents[init[k]]);
      assert rows == earlier + [contents[last]];
      FlattenSnoc(earlier, contents[last]);
    }
  }

  lemma {:induction false} GatherSame(contents: map<nat, seq<Row>>, contents': map<nat, seq<Row>>, ids: set<nat>)
    requires ids <= contents.Keys && ids <= contents'.Keys
    requires forall id :: id in ids ==> contents[id] == contents'[id]
    ensures Gather(contents, ids) == Gather(contents', ids)
    decreases |ids|
  {
    if ids != {} {
      var id :| id in ids;
      GatherRemove(contents, ids, id);
      GatherRemove(contents', ids, id);
      GatherSame(contents, contents', ids - {id});
    }
  }
}
