/** The relational store behind the backend, abstracted to three in-memory
    tables in insertion order plus the auto-increment counters the database
    uses to allocate ids. Every query of the model files becomes a filter or
    an update over these fields. */
module Store {
  import opened Records

  ghost predicate DistinctEntryIds(es: seq<Entry>) {
    forall i, j :: 0 <= i < j < |es| ==> es[i].id != es[j].id
  }

  /** Ids are positive, below the next id to allocate, and never repeated. */
  ghost predicate EntryIdsValid(es: seq<Entry>, next: int) {
    (forall i :: 0 <= i < |es| ==> 1 <= es[i].id < next) && DistinctEntryIds(es)
  }

  ghost predicate TagIdsValid(ts: seq<Tag>, next: int) {
    (forall i :: 0 <= i < |ts| ==> 1 <= ts[i].id < next) &&
    (forall i, j :: 0 <= i < j < |ts| ==> ts[i].id != ts[j].id)
  }

  /** The unique key of the running-entry table: at most one row per user. */
  ghost predicate AtMostOneRunningPerUser(rs: seq<RunningEntry>) {
    forall i, j :: 0 <= i < j < |rs| ==> rs[i].userId != rs[j].userId
  }

  /** The entries of one user (`findMany` where userId), in table order. */
  function EntriesOf(es: seq<Entry>, userId: int): (r: seq<Entry>)
    ensures forall e :: e in r <==> e in es && e.userId == userId
    ensures |r| <= |es|
  {
    if es == [] then []
    else (if es[0].userId == userId then [es[0]] else []) + EntriesOf(es[1..], userId)
  }

  class Db {
    var entries: seq<Entry>
    var tags: seq<Tag>
    var running: seq<RunningEntry>
    var nextEntryId: int
    var nextTagId: int

    ghost predicate Valid()
      reads this
    {
      && 1 <= nextEntryId && 1 <= nextTagId
      && EntryIdsValid(entries, nextEntryId)
      && TagIdsValid(tags, nextTagId)
      && AtMostOneRunningPerUser(running)
      && NoOverlapPerUser(entries)
    }

    /** An empty database; auto-increment ids start at 1. */
    constructor ()
      ensures Valid()
      ensures entries == [] && tags == [] && running == []
    {
      entries, tags, running := [], [], [];
      nextEntryId, nextTagId := 1, 1;
    }
  }
}
