/** The overlap-consistency enforcer and the entry-table operations of
    src/models/entryModel.ts. */
module EntryModel {
  import opened Records
  import opened Sorting
  import opened Store

  /** The fields a caller supplies to create an entry. */
  datatype EntryData = EntryData(name: string, startTimeUtc: int, endTimeUtc: int, tagId: int)

  /** An update request: absent fields keep their stored value. */
  datatype EntryPatch = EntryPatch(name: Option<string>, startTimeUtc: Option<int>,
                                   endTimeUtc: Option<int>, tagId: Option<int>)

  // ---------------------------------------------------------------------------
  // The overlap query

  /** The three OR-ed clauses of the overlap query, for candidate [start, end):
      the stored entry starts inside the candidate, ends inside it, or contains it. */
  predicate MatchesOverlapQuery(e: Entry, start: int, end: int) {
    || (start <= e.startTimeUtc && e.startTimeUtc < end)
    || (start < e.endTimeUtc && e.endTimeUtc <= end)
    || (e.startTimeUtc <= start && e.endTimeUtc >= end)
  }

  /** The id filter is only applied when the excluded id is truthy (present and non-zero). */
  predicate Excluded(e: Entry, excludeEntryId: Option<int>) {
    excludeEntryId.Some? && excludeEntryId.value != 0 && e.id == excludeEntryId.value
  }

  /** A stored entry the query would return. */
  predicate Conflicts(e: Entry, userId: int, start: int, end: int, excludeEntryId: Option<int>) {
    e.userId == userId && !Excluded(e, excludeEntryId) && MatchesOverlapQuery(e, start, end)
  }

  /** findOverlappingEntry: some entry of the user, other than the excluded
      one, that matches the query; none when there is no such entry. */
  function FindOverlappingEntry(entries: seq<Entry>, userId: int, start: int, end: int,
                                excludeEntryId: Option<int>): (r: Option<Entry>)
    ensures r.Some? ==> r.value in entries && Conflicts(r.value, userId, start, end, excludeEntryId)
    ensures r.None? <==> forall e :: e in entries ==> !Conflicts(e, userId, start, end, excludeEntryId)
  {
    if entries == [] then None
    else if Conflicts(entries[0], userId, start, end, excludeEntryId) then Some(entries[0])
    else FindOverlappingEntry(entries[1..], userId, start, end, excludeEntryId)
  }

  /** Whatever the two intervals, a half-open overlap is caught by the query. */
  lemma HalfOpenOverlapIsMatched(e: Entry, start: int, end: int)
    requires e.startTimeUtc < end && start < e.endTimeUtc
    ensures MatchesOverlapQuery(e, start, end)
  {
  }

  /** For two well-formed intervals the query is exactly half-open overlap. */
  lemma MatchesIffHalfOpenOverlap(e: Entry, start: int, end: int)
    requires start < end && e.startTimeUtc < e.endTimeUtc
    ensures MatchesOverlapQuery(e, start, end) <==> (e.startTimeUtc < end && start < e.endTimeUtc)
  {
  }

  /** For a zero-length candidate the two differ: [200, 200) touches the end of
      [100, 200) without overlapping it, yet the containment clause matches. */
  lemma ZeroLengthCandidateIsOverRejected()
    ensures var e := Entry(1, 1, "a", 100, 200, 1);
            MatchesOverlapQuery(e, 200, 200) && !(e.startTimeUtc < 200 && 200 < e.endTimeUtc)
  {
  }

  /** An entry of the same user is never in conflict with a candidate the
      query let through. */
  lemma NoConflictMeansNoOverlap(es: seq<Entry>, c: Entry, excludeEntryId: Option<int>, e: Entry)
    requires FindOverlappingEntry(es, c.userId, c.startTimeUtc, c.endTimeUtc, excludeEntryId).None?
    requires e in es && e.userId == c.userId && !Excluded(e, excludeEntryId)
    ensures !Overlaps(e, c) && !Overlaps(c, e)
  {
    if Overlaps(e, c) {
      HalfOpenOverlapIsMatched(e, c.startTimeUtc, c.endTimeUtc);
    }
  }

  /** The headline theorem for creation: inserting a candidate the query let
      through keeps every user's entries pairwise disjoint. No well-formedness
      of the intervals is needed. */
  lemma {:induction false} InsertKeepsNoOverlap(es: seq<Entry>, c: Entry)
    requires NoOverlapPerUser(es)
    requires FindOverlappingEntry(es, c.userId, c.startTimeUtc, c.endTimeUtc, None).None?
    ensures NoOverlapPerUser(es + [c])
  {
    var r := es + [c];
    forall i, j | 0 <= i < j < |r| && r[i].userId == r[j].userId
      ensures !Overlaps(r[i], r[j])
    {
      if j == |es| {
        NoConflictMeansNoOverlap(es, c, None, es[i]);
      }
    }
  }

  // ---------------------------------------------------------------------------
  // Creation

  method CreateEntryForUser(db: Db, userId: int, data: EntryData) returns (overlap: bool)
    requires db.Valid()
    modifies db
    ensures db.Valid()
    ensures overlap <==> FindOverlappingEntry(old(db.entries), userId, data.startTimeUtc, data.endTimeUtc, None).Some?
    ensures overlap ==> db.entries == old(db.entries) && db.nextEntryId == old(db.nextEntryId)
    ensures !overlap ==>
      && db.entries == old(db.entries) + [Entry(old(db.nextEntryId), userId, data.name,
                                                data.startTimeUtc, data.endTimeUtc, data.tagId)]
      && db.nextEntryId == old(db.nextEntryId) + 1
    ensures db.tags == old(db.tags) && db.running == old(db.running) && db.nextTagId == old(db.nextTagId)
  {
    var found := FindOverlappingEntry(db.entries, userId, data.startTimeUtc, data.endTimeUtc, None);
    if found.Some? {
      return true;
    }
    var e := Entry(db.nextEntryId, userId, data.name, data.startTimeUtc, data.endTimeUtc, data.tagId);
    InsertKeepsNoOverlap(db.entries, e);
    db.entries := db.entries + [e];
    db.nextEntryId := db.nextEntryId + 1;
    return false;
  }

  // ---------------------------------------------------------------------------
  // Update

  /** findFirst by id and owner. */
  function FindEntry(es: seq<Entry>, id: int, userId: int): (r: Option<Entry>)
    ensures r.Some? ==> r.value in es && r.value.id == id && r.value.userId == userId
    ensures r.None? <==> forall e :: e in es ==> !(e.id == id && e.userId == userId)
  {
    if es == [] then None
    else if es[0].id == id && es[0].userId == userId then Some(es[0])
    else FindEntry(es[1..], id, userId)
  }

  /** An update touches the time range when either bound is supplied. */
  predicate ChangesTimes(p: EntryPatch) {
    p.startTimeUtc.Some? || p.endTimeUtc.Some?
  }

  /** The stored entry with the supplied fields written over it. */
  function ApplyPatch(e: Entry, p: EntryPatch): Entry {
    e.(name := p.name.GetOr(e.name),
       startTimeUtc := p.startTimeUtc.GetOr(e.startTimeUtc),
       endTimeUtc := p.endTimeUtc.GetOr(e.endTimeUtc),
       tagId := p.tagId.GetOr(e.tagId))
  }

  /** The table after updating the row with the given id. */
  function UpdateById(es: seq<Entry>, id: int, p: EntryPatch): seq<Entry> {
    seq(|es|, i requires 0 <= i < |es| => if es[i].id == id then ApplyPatch(es[i], p) else es[i])
  }

  /** Whether an update of an existing entry of the user is rejected for overlap:
      only when a time bound is supplied and the merged range conflicts with
      another entry of the user. */
  predicate UpdateOverlaps(es: seq<Entry>, userId: int, target: Entry, p: EntryPatch) {
    ChangesTimes(p) &&
    FindOverlappingEntry(es, userId, p.startTimeUtc.GetOr(target.startTimeUtc),
                         p.endTimeUtc.GetOr(target.endTimeUtc), Some(target.id)).Some?
  }

  /** An update that supplies no time bound is never rejected for overlap. */
  lemma NameOnlyUpdateNeverOverlaps(es: seq<Entry>, userId: int, target: Entry, p: EntryPatch)
    requires p.startTimeUtc.None? && p.endTimeUtc.None?
    ensures !UpdateOverlaps(es, userId, target, p)
  {
  }

  /** A successful update rewrites only the target row, and only the supplied fields. */
  lemma {:induction false} UpdateChangesOnlyTarget(es: seq<Entry>, id: int, p: EntryPatch, i: int)
    requires DistinctEntryIds(es)
    requires 0 <= i < |es|
    ensures |UpdateById(es, id, p)| == |es|
    ensures es[i].id != id ==> UpdateById(es, id, p)[i] == es[i]
    ensures es[i].id == id ==>
      var n := UpdateById(es, id, p)[i];
      && n.id == es[i].id && n.userId == es[i].userId
      && (p.name.None? ==> n.name == es[i].name) && (p.name.Some? ==> n.name == p.name.value)
      && (p.startTimeUtc.None? ==> n.startTimeUtc == es[i].startTimeUtc)
      && (p.startTimeUtc.Some? ==> n.startTimeUtc == p.startTimeUtc.value)
      && (p.endTimeUtc.None? ==> n.endTimeUtc == es[i].endTimeUtc)
      && (p.endTimeUtc.Some? ==> n.endTimeUtc == p.endTimeUtc.value)
      && (p.tagId.None? ==> n.tagId == es[i].tagId) && (p.tagId.Some? ==> n.tagId == p.tagId.value)
  {
  }

  /** The headline theorem for updates: an update that was not rejected keeps
      every user's entries pairwise disjoint. */
  lemma {:induction false} UpdateKeepsNoOverlap(es: seq<Entry>, userId: int, target: Entry, p: EntryPatch)
    requires NoOverlapPerUser(es) && DistinctEntryIds(es)
    requires target in es && target.userId == userId && target.id != 0
    requires !UpdateOverlaps(es, userId, target, p)
    ensures NoOverlapPerUser(UpdateById(es, target.id, p))
    ensures DistinctEntryIds(UpdateById(es, target.id, p))
  {
    var r := UpdateById(es, target.id, p);
    var moved := ApplyPatch(target, p);
    forall i, j | 0 <= i < j < |r| && r[i].userId == r[j].userId
      ensures !Overlaps(r[i], r[j])
    {
      if es[i].id == target.id || es[j].id == target.id {
        var k, o := if es[i].id == target.id then i else j, if es[i].id == target.id then j else i;
        assert es[k] == target;
        assert r[k] == moved && r[o] == es[o] && es[o].id != target.id;
        if ChangesTimes(p) {
          NoConflictMeansNoOverlap(es, moved, Some(target.id), es[o]);
        } else {
          assert moved.startTimeUtc == target.startTimeUtc && moved.endTimeUtc == target.endTimeUtc;
          assert !Overlaps(es[i], es[j]);
        }
      }
    }
  }

  /** updateEntryForUser: returns true when the entry is missing or not owned
      by the user, or when the merged range overlaps another of their entries;
      otherwise writes the supplied fields and returns false. */
  method UpdateEntryForUser(db: Db, userId: int, entryId: int, patch: EntryPatch) returns (rejected: bool)
    requires db.Valid()
    modifies db
    ensures db.Valid()
    ensures FindEntry(old(db.entries), entryId, userId).None? ==> rejected
    ensures rejected <==>
      || FindEntry(old(db.entries), entryId, userId).None?
      || UpdateOverlaps(old(db.entries), userId, FindEntry(old(db.entries), entryId, userId).value, patch)
    ensures rejected ==> db.entries == old(db.entries)
    ensures !rejected ==> db.entries == UpdateById(old(db.entries), entryId, patch)
    ensures db.tags == old(db.tags) && db.running == old(db.running)
    ensures db.nextEntryId == old(db.nextEntryId) && db.nextTagId == old(db.nextTagId)
  {
    var existing := FindEntry(db.entries, entryId, userId);
    if existing.None? {
      return true;
    }
    var target := existing.value;
    if ChangesTimes(patch) {
      var startTimeUtc := patch.startTimeUtc.GetOr(target.startTimeUtc);
      var endTimeUtc := patch.endTimeUtc.GetOr(target.endTimeUtc);
      var overlap := FindOverlappingEntry(db.entries, userId, startTimeUtc, endTimeUtc, Some(entryId));
      if overlap.Some? {
        return true;
      }
    }
    UpdateKeepsNoOverlap(db.entries, userId, target, patch);
    db.entries := UpdateById(db.entries, entryId, patch);
    return false;
  }

  // ---------------------------------------------------------------------------
  // Delete-all and listing

  /** The table after deleting every entry of the user. */
  function WithoutUser(es: seq<Entry>, userId: int): (r: seq<Entry>)
    ensures forall e :: e in r <==> e in es && e.userId != userId
    ensures |r| <= |es|
  {
    if es == [] then []
    else (if es[0].userId != userId then [es[0]] else []) + WithoutUser(es[1..], userId)
  }

  /** No-overlap of a table with a first row splits into the rest and that row. */
  lemma NoOverlapCons(x: Entry, t: seq<Entry>)
    ensures NoOverlapPerUser([x] + t) <==>
      NoOverlapPerUser(t) && forall e :: e in t && e.userId == x.userId ==> !Overlaps(x, e)
  {
    var r := [x] + t;
    assert r[0] == x;
    assert forall i :: 0 < i < |r| ==> r[i] == t[i - 1];
    if NoOverlapPerUser(r) {
      forall e | e in t && e.userId == x.userId ensures !Overlaps(x, e) {
        var k :| 0 <= k < |t| && t[k] == e;
        assert r[k + 1] == e;
        assert !Overlaps(r[0], r[k + 1]);
      }
      forall i, j | 0 <= i < j < |t| && t[i].userId == t[j].userId ensures !Overlaps(t[i], t[j]) {
        assert !Overlaps(r[i + 1], r[j + 1]);
      }
    }
    if NoOverlapPerUser(t) && forall e :: e in t && e.userId == x.userId ==> !Overlaps(x, e) {
      forall i, j | 0 <= i < j < |r| && r[i].userId == r[j].userId ensures !Overlaps(r[i], r[j]) {
        if i == 0 {
          assert r[j] in t;
        } else {
          assert r[i] == t[i - 1] && r[j] == t[j - 1];
        }
      }
    }
  }

  /** Distinct ids of a table with a first row split the same way. */
  lemma DistinctIdsCons(x: Entry, t: seq<Entry>)
    ensures DistinctEntryIds([x] + t) <==>
      DistinctEntryIds(t) && forall e :: e in t ==> e.id != x.id
  {
    var r := [x] + t;
    assert r[0] == x;
    assert forall i :: 0 < i < |r| ==> r[i] == t[i - 1];
    if DistinctEntryIds(r) {
      forall e | e in t ensures e.id != x.id {
        var k :| 0 <= k < |t| && t[k] == e;
        assert r[k + 1] == e;
        assert r[0].id != r[k + 1].id;
      }
      forall i, j | 0 <= i < j < |t| ensures t[i].id != t[j].id {
        assert r[i + 1].id != r[j + 1].id;
      }
    }
    if DistinctEntryIds(t) && forall e :: e in t ==> e.id != x.id {
      forall i, j | 0 <= i < j < |r| ensures r[i].id != r[j].id {
        if i == 0 {
          assert r[j] in t;
        } else {
          assert r[i] == t[i - 1] && r[j] == t[j - 1];
        }
      }
    }
  }

  lemma {:induction false} WithoutUserKeepsNoOverlap(es: seq<Entry>, userId: int)
    requires NoOverlapPerUser(es)
    ensures NoOverlapPerUser(WithoutUser(es, userId))
  {
    if es != [] {
      var tail := es[1..];
      assert es == [es[0]] + tail;
      NoOverlapCons(es[0], tail);
      WithoutUserKeepsNoOverlap(tail, userId);
      var rt := WithoutUser(tail, userId);
      if es[0].userId != userId {
        assert WithoutUser(es, userId) == [es[0]] + rt;
        NoOverlapCons(es[0], rt);
      } else {
        assert WithoutUser(es, userId) == rt;
      }
    }
  }

  lemma {:induction false} WithoutUserKeepsDistinctIds(es: seq<Entry>, userId: int)
    requires DistinctEntryIds(es)
    ensures DistinctEntryIds(WithoutUser(es, userId))
  {
    if es != [] {
      var tail := es[1..];
      assert es == [es[0]] + tail;
      DistinctIdsCons(es[0], tail);
      WithoutUserKeepsDistinctIds(tail, userId);
      var rt := WithoutUser(tail, userId);
      if es[0].userId != userId {
        assert WithoutUser(es, userId) == [es[0]] + rt;
        DistinctIdsCons(es[0], rt);
      } else {
        assert WithoutUser(es, userId) == rt;
      }
    }
  }

  /** Deleting rows keeps the table's invariants: ids stay distinct and in
      range, and no two remaining entries of a user overlap. */
  lemma WithoutUserKeepsInvariants(es: seq<Entry>, userId: int, next: int)
    requires EntryIdsValid(es, next) && NoOverlapPerUser(es)
    ensures EntryIdsValid(WithoutUser(es, userId), next) && NoOverlapPerUser(WithoutUser(es, userId))
  {
    WithoutUserKeepsNoOverlap(es, userId);
    WithoutUserKeepsDistinctIds(es, userId);
    var r := WithoutUser(es, userId);
    forall i | 0 <= i < |r| ensures 1 <= r[i].id < next {
      assert r[i] in es;
    }
  }

  /** deleteAllEntriesForUser */
  method DeleteAllEntriesForUser(db: Db, userId: int)
    requires db.Valid()
    modifies db
    ensures db.Valid()
    ensures db.entries == WithoutUser(old(db.entries), userId)
    ensures db.tags == old(db.tags) && db.running == old(db.running)
    ensures db.nextEntryId == old(db.nextEntryId) && db.nextTagId == old(db.nextTagId)
  {
    WithoutUserKeepsInvariants(db.entries, userId, db.nextEntryId);
    db.entries := WithoutUser(db.entries, userId);
  }

  /** The entries of the user starting at or after the cut-off, in table order. */
  function UserEntriesFrom(es: seq<Entry>, userId: int, cutOff: int): (r: seq<Entry>)
    ensures forall e :: e in r <==> e in es && e.userId == userId && e.startTimeUtc >= cutOff
  {
    if es == [] then []
    else (if es[0].userId == userId && es[0].startTimeUtc >= cutOff then [es[0]] else [])
         + UserEntriesFrom(es[1..], userId, cutOff)
  }

  /** getEntriesForUser: the user's entries starting at or after the cut-off,
      newest first. The cut-off is a parameter (see README). */
  function GetEntriesForUser(es: seq<Entry>, userId: int, cutOff: int): (r: seq<Entry>)
    ensures forall e :: e in r <==> e in es && e.userId == userId && e.startTimeUtc >= cutOff
    ensures forall i, j :: 0 <= i < j < |r| ==> r[i].startTimeUtc >= r[j].startTimeUtc
    ensures multiset(r) == multiset(UserEntriesFrom(es, userId, cutOff))
  {
    var mine := UserEntriesFrom(es, userId, cutOff);
    var r := SortDesc(mine, StartTime);
    forall e ensures e in r <==> e in mine { SortDescMembers(mine, StartTime, e); }
    assert NonIncreasing(r, StartTime);
    r
  }
}
