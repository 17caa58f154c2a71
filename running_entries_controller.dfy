/** The running-entry handlers of src/controllers/runningEntriesController.ts:
    each one sequences a store operation, a reply, and a notification of the
    user's live viewers. Request validation happens in a middleware before the
    handler; its outcome arrives here as the list of validation errors. */
module RunningEntriesController {
  import opened Records
  import opened Store
  import opened RunningModel
  import opened SseController

  /** The JSON body of a reply. */
  datatype Body =
    | RunningBody(runningEntry: Option<RunningEntry>)
    | StartedBody(started: RunningWithTag)
    | ErrorsBody(errors: seq<string>)
    | CountBody(count: bool)

  datatype Reply = Reply(status: int, message: string, body: Body)

  /** getRunningEntry: 200 with the user's running entry, or with null. */
  method GetRunningEntry(db: Db, userId: int) returns (reply: Reply)
    ensures reply.status == 200
    ensures reply.body == RunningBody(GetRunningEntryForUser(db.running, userId))
    ensures reply.message == if GetRunningEntryForUser(db.running, userId).None?
                             then "No running entry found" else "Running entry fetched successfully"
  {
    var runningEntry := GetRunningEntryForUser(db.running, userId);
    if runningEntry.None? {
      return Reply(200, "No running entry found", RunningBody(None));
    }
    return Reply(200, "Running entry fetched successfully", RunningBody(runningEntry));
  }

  /** startRunningEntry: 400 without touching anything when validation failed;
      otherwise replace the running entry, reply 201 with it, then notify the
      user's viewers exactly once. */
  method StartRunningEntry(db: Db, hub: Registry, userId: int, validationErrors: seq<string>,
                           name: string, startTimeUtc: int, tagId: int) returns (reply: Reply)
    requires db.Valid()
    modifies db, hub
    ensures db.Valid()
    ensures |validationErrors| > 0 ==>
      && reply == Reply(400, "Error starting running entry", ErrorsBody(validationErrors))
      && db.running == old(db.running) && hub.written == old(hub.written)
    ensures |validationErrors| == 0 ==>
      && db.running == Started(old(db.running), RunningEntry(userId, name, startTimeUtc, tagId))
      && reply == Reply(201, "Running entry started",
                        StartedBody(RunningWithTag(RunningEntry(userId, name, startTimeUtc, tagId),
                                                   TagById(db.tags, tagId))))
      && hub.written == old(hub.written) + Notified(old(hub.clients), userId)
    ensures hub.clients == old(hub.clients)
    ensures db.entries == old(db.entries) && db.tags == old(db.tags)
    ensures db.nextEntryId == old(db.nextEntryId) && db.nextTagId == old(db.nextTagId)
  {
    if |validationErrors| > 0 {
      return Reply(400, "Error starting running entry", ErrorsBody(validationErrors));
    }
    var runningEntry := StartRunningEntryForUser(db, userId, name, startTimeUtc, tagId);
    reply := Reply(201, "Running entry started", StartedBody(runningEntry));
    hub.TriggerEventForUser(userId);
  }

  /** deleteRunningEntry: always 200, with `count` telling whether an entry
      existed; viewers are notified only when one was removed. */
  method DeleteRunningEntry(db: Db, hub: Registry, userId: int) returns (reply: Reply)
    requires db.Valid()
    modifies db, hub
    ensures db.Valid()
    ensures reply.status == 200
    ensures reply.body == CountBody(GetRunningEntryForUser(old(db.running), userId).Some?)
    ensures reply.message == if GetRunningEntryForUser(old(db.running), userId).Some?
                             then "Running entry deleted successfully" else "No running entry found"
    ensures db.running == WithoutRunning(old(db.running), userId)
    ensures hub.written == old(hub.written) +
      (if GetRunningEntryForUser(old(db.running), userId).Some? then Notified(old(hub.clients), userId) else [])
    ensures hub.clients == old(hub.clients)
    ensures db.entries == old(db.entries) && db.tags == old(db.tags)
    ensures db.nextEntryId == old(db.nextEntryId) && db.nextTagId == old(db.nextTagId)
  {
    var deleted := DeleteRunningEntryForUser(db, userId);
    if !deleted {
      return Reply(200, "No running entry found", CountBody(deleted));
    }
    reply := Reply(200, "Running entry deleted successfully", CountBody(deleted));
    hub.TriggerEventForUser(userId);
  }
}
