/** The running-entry singleton of src/models/runningModel.ts: a table keyed
    uniquely by user, with delete-then-create start and a delete that reports
    whether a row was removed. */
module RunningModel {
  import opened Records
  import opened Store

  /** The created running entry with its tag relation included. */
  datatype RunningWithTag = RunningWithTag(entry: RunningEntry, tag: Option<Tag>)

  /** getRunningEntryForUser: the row keyed by the user, if any. A lookup; it
      changes nothing. */
  function GetRunningEntryForUser(rs: seq<RunningEntry>, userId: int): (r: Option<RunningEntry>)
    ensures r.Some? ==> r.value in rs && r.value.userId == userId
    ensures r.None? <==> forall x :: x in rs ==> x.userId != userId
  {
    if rs == [] then None
    else if rs[0].userId == userId then Some(rs[0])
    else GetRunningEntryForUser(rs[1..], userId)
  }

  /** The table after `deleteMany` by user. */
  function WithoutRunning(rs: seq<RunningEntry>, userId: int): (r: seq<RunningEntry>)
    ensures forall x :: x in r <==> x in rs && x.userId != userId
  {
    if rs == [] then []
    else (if rs[0].userId != userId then [rs[0]] else []) + WithoutRunning(rs[1..], userId)
  }

  /** The count `deleteMany` by user reports: the number of rows it removes. */
  function DeletedCount(rs: seq<RunningEntry>, userId: int): (n: nat)
    ensures n == |rs| - |WithoutRunning(rs, userId)|
  {
    if rs == [] then 0
    else (if rs[0].userId == userId then 1 else 0) + DeletedCount(rs[1..], userId)
  }

  /** A delete removes something exactly when a running entry existed. */
  lemma {:induction false} DeletedCountPositiveIffExisted(rs: seq<RunningEntry>, userId: int)
    ensures DeletedCount(rs, userId) > 0 <==> GetRunningEntryForUser(rs, userId).Some?
  {
    if rs != [] {
      DeletedCountPositiveIffExisted(rs[1..], userId);
    }
  }

  /** Under the unique key, a delete removes at most one row. */
  lemma {:induction false} DeletedCountAtMostOne(rs: seq<RunningEntry>, userId: int)
    requires AtMostOneRunningPerUser(rs)
    ensures DeletedCount(rs, userId) <= 1
  {
    if rs != [] {
      var tail := rs[1..];
      TailAtMostOne(rs);
      DeletedCountAtMostOne(tail, userId);
      if rs[0].userId == userId {
        // no later row belongs to the user, so the tail removes nothing
        DeletedCountPositiveIffExisted(tail, userId);
      }
    }
  }

  /** Other users' rows survive a delete in their original order. */
  lemma {:induction false} WithoutRunningKeepsOthers(rs: seq<RunningEntry>, userId: int, other: int)
    requires other != userId
    ensures GetRunningEntryForUser(WithoutRunning(rs, userId), other) == GetRunningEntryForUser(rs, other)
  {
    if rs != [] {
      WithoutRunningKeepsOthers(rs[1..], userId, other);
      var rt := WithoutRunning(rs[1..], userId);
      if rs[0].userId != userId {
        assert WithoutRunning(rs, userId) == [rs[0]] + rt;
        assert ([rs[0]] + rt)[1..] == rt;
      } else {
        assert WithoutRunning(rs, userId) == rt;
      }
    }
  }

  /** Appending a row of one user does not change the lookup of another. */
  lemma {:induction false} AppendKeepsOthers(rs: seq<RunningEntry>, x: RunningEntry, other: int)
    requires x.userId != other
    ensures GetRunningEntryForUser(rs + [x], other) == GetRunningEntryForUser(rs, other)
  {
    if rs != [] {
      assert (rs + [x])[1..] == rs[1..] + [x];
      AppendKeepsOthers(rs[1..], x, other);
    } else {
      assert [x][1..] == [];
    }
  }

  /** The table after start: every row of the user replaced by the new one. */
  function Started(rs: seq<RunningEntry>, x: RunningEntry): seq<RunningEntry> {
    WithoutRunning(rs, x.userId) + [x]
  }

  /** Start is last-writer-wins: get returns the new payload, other users'
      running entries are untouched, and the unique key still holds. */
  lemma StartedProperties(rs: seq<RunningEntry>, x: RunningEntry)
    requires AtMostOneRunningPerUser(rs)
    ensures GetRunningEntryForUser(Started(rs, x), x.userId) == Some(x)
    ensures forall u :: u != x.userId ==>
      GetRunningEntryForUser(Started(rs, x), u) == GetRunningEntryForUser(rs, u)
    ensures AtMostOneRunningPerUser(Started(rs, x))
  {
    var w := WithoutRunning(rs, x.userId);
    var r := w + [x];
    assert GetRunningEntryForUser(w, x.userId).None?;
    StartLookupOwn(w, x);
    forall u | u != x.userId
      ensures GetRunningEntryForUser(r, u) == GetRunningEntryForUser(rs, u)
    {
      AppendKeepsOthers(w, x, u);
      WithoutRunningKeepsOthers(rs, x.userId, u);
    }
    WithoutRunningKeepsAtMostOne(rs, x.userId);
    forall i, j | 0 <= i < j < |r| ensures r[i].userId != r[j].userId {
      if j == |w| {
        assert r[i] in w;
      } else {
        assert r[i] == w[i] && r[j] == w[j];
      }
    }
  }

  lemma {:induction false} StartLookupOwn(w: seq<RunningEntry>, x: RunningEntry)
    requires GetRunningEntryForUser(w, x.userId).None?
    ensures GetRunningEntryForUser(w + [x], x.userId) == Some(x)
  {
    if w != [] {
      assert (w + [x])[1..] == w[1..] + [x];
      StartLookupOwn(w[1..], x);
    }
  }

  /** Under the unique key, the rest of the table is keyed uniquely and holds
      no other row of the first row's user. */
  lemma TailAtMostOne(rs: seq<RunningEntry>)
    requires rs != [] && AtMostOneRunningPerUser(rs)
    ensures AtMostOneRunningPerUser(rs[1..])
    ensures forall x :: x in rs[1..] ==> x.userId != rs[0].userId
  {
    var tail := rs[1..];
    forall i, j | 0 <= i < j < |tail| ensures tail[i].userId != tail[j].userId {
      assert tail[i] == rs[i + 1] && tail[j] == rs[j + 1];
    }
    forall x | x in tail ensures x.userId != rs[0].userId {
      var k :| 0 <= k < |tail| && tail[k] == x;
      assert rs[k + 1] == x;
    }
  }

  /** A row in front of a uniquely keyed table of other users keeps the key unique. */
  lemma ConsAtMostOne(x: RunningEntry, t: seq<RunningEntry>)
    requires AtMostOneRunningPerUser(t)
    requires forall y :: y in t ==> y.userId != x.userId
    ensures AtMostOneRunningPerUser([x] + t)
  {
    var r := [x] + t;
    forall i, j | 0 <= i < j < |r| ensures r[i].userId != r[j].userId {
      if i == 0 {
        assert r[j] in t;
      } else {
        assert r[i] == t[i - 1] && r[j] == t[j - 1];
      }
    }
  }

  lemma {:induction false} WithoutRunningKeepsAtMostOne(rs: seq<RunningEntry>, userId: int)
    requires AtMostOneRunningPerUser(rs)
    ensures AtMostOneRunningPerUser(WithoutRunning(rs, userId))
  {
    if rs != [] {
      TailAtMostOne(rs);
      WithoutRunningKeepsAtMostOne(rs[1..], userId);
      var rt := WithoutRunning(rs[1..], userId);
      if rs[0].userId != userId {
        ConsAtMostOne(rs[0], rt);
        assert WithoutRunning(rs, userId) == [rs[0]] + rt;
      } else {
        assert WithoutRunning(rs, userId) == rt;
      }
    }
  }

  /** A second delete finds nothing and changes nothing. */
  lemma DeleteTwiceIsNoop(rs: seq<RunningEntry>, userId: int)
    ensures DeletedCount(WithoutRunning(rs, userId), userId) == 0
    ensures WithoutRunning(WithoutRunning(rs, userId), userId) == WithoutRunning(rs, userId)
  {
    var w := WithoutRunning(rs, userId);
    DeletedCountPositiveIffExisted(w, userId);
    WithoutRunningOfAbsent(w, userId);
  }

  lemma {:induction false} WithoutRunningOfAbsent(rs: seq<RunningEntry>, userId: int)
    requires forall x :: x in rs ==> x.userId != userId
    ensures WithoutRunning(rs, userId) == rs
  {
    if rs != [] {
      WithoutRunningOfAbsent(rs[1..], userId);
      assert rs == [rs[0]] + rs[1..];
    }
  }

  /** startRunningEntryForUser: delete the user's running entry, then create the
      new one and return it with its tag. */
  method StartRunningEntryForUser(db: Db, userId: int, name: string, startTimeUtc: int, tagId: int)
    returns (r: RunningWithTag)
    requires db.Valid()
    modifies db
    ensures db.Valid()
    ensures r.entry == RunningEntry(userId, name, startTimeUtc, tagId)
    ensures r.tag == TagById(db.tags, tagId)
    ensures db.running == Started(old(db.running), r.entry)
    ensures GetRunningEntryForUser(db.running, userId) == Some(r.entry)
    ensures forall u :: u != userId ==>
      GetRunningEntryForUser(db.running, u) == GetRunningEntryForUser(old(db.running), u)
    ensures db.entries == old(db.entries) && db.tags == old(db.tags)
    ensures db.nextEntryId == old(db.nextEntryId) && db.nextTagId == old(db.nextTagId)
  {
    var x := RunningEntry(userId, name, startTimeUtc, tagId);
    StartedProperties(db.running, x);
    db.running := WithoutRunning(db.running, userId);
    db.running := db.running + [x];
    r := RunningWithTag(x, TagById(db.tags, tagId));
  }

  /** deleteRunningEntryForUser: true exactly when a running entry existed. */
  method DeleteRunningEntryForUser(db: Db, userId: int) returns (deleted: bool)
    requires db.Valid()
    modifies db
    ensures db.Valid()
    ensures deleted <==> GetRunningEntryForUser(old(db.running), userId).Some?
    ensures db.running == WithoutRunning(old(db.running), userId)
    ensures GetRunningEntryForUser(db.running, userId).None?
    ensures forall u :: u != userId ==>
      GetRunningEntryForUser(db.running, u) == GetRunningEntryForUser(old(db.running), u)
    ensures db.entries == old(db.entries) && db.tags == old(db.tags)
    ensures db.nextEntryId == old(db.nextEntryId) && db.nextTagId == old(db.nextTagId)
  {
    var count := DeletedCount(db.running, userId);
    DeletedCountPositiveIffExisted(db.running, userId);
    WithoutRunningKeepsAtMostOne(db.running, userId);
    forall u | u != userId
      ensures GetRunningEntryForUser(WithoutRunning(db.running, userId), u) == GetRunningEntryForUser(db.running, u)
    {
      WithoutRunningKeepsOthers(db.running, userId, u);
    }
    db.running := WithoutRunning(db.running, userId);
    deleted := count > 0;
  }
}
