/**
 The backend's shared state and its four request handlers. Each handler is one
 atomic operation on the issue table (the mutex serialises them), so each is a
 method of the store object; HTTP routing and JSON encoding are not modelled.
 */
module Backend {
  import opened Issues
  import opened IssueTable

  class AppState {
    var issues: map<string, Issue>
    var users: map<string, User>

    /** Every record sits under its own UUID identifier, and no handler ever
        adds a user. */
    ghost predicate Valid()
      reads this
    {
      WellKeyed(issues) && users == map[]
    }

    /** The state `main` builds before the server starts: both tables empty. */
    constructor ()
      ensures Valid()
      ensures issues == map[] && users == map[]
    {
      issues := map[];
      users := map[];
    }

    /** `report_issue`: `freshId` is the text of the UUID v4 the handler draws.
        The record is stored under it with `id` overwritten by it, and the
        identifier is answered. */
    method ReportIssue(data: Issue, freshId: string) returns (issueId: string)
      requires Valid()
      requires IsUuidV4Text(freshId)
      modifies this
      ensures Valid()
      ensures issueId == freshId
      ensures issues == Inserted(old(issues), data, freshId)
      ensures users == old(users)
    {
      InsertedKeepsWellKeyed(issues, data, freshId);
      issues := issues[freshId := data.(id := freshId)];
      issueId := freshId;
    }

    /** `get_issues`: every stored record once, in an unspecified order. The
        collection walks the table's keys, as `values().collect()` walks the
        hash map. */
    method GetIssues() returns (all: seq<Issue>)
      requires Valid()
      ensures IsListingOf(all, issues)
      ensures multiset(all) == multiset(issues.Values)
    {
      var pending := issues.Keys;
      all := [];
      while pending != {}
        invariant pending <= issues.Keys
        invariant |all| + |pending| == |issues|
        invariant forall i :: 0 <= i < |all| ==>
                    all[i].id in issues && all[i].id !in pending && issues[all[i].id] == all[i]
        invariant forall k :: k in issues && k !in pending ==> issues[k] in all
        invariant forall i, j :: 0 <= i < j < |all| ==> all[i].id != all[j].id
        decreases pending
      {
        var k :| k in pending;
        all := all + [issues[k]];
        pending := pending - {k};
      }
      ListingMultiset(all, issues);
    }

    /** `get_issue_by_id`: the record stored under `id`, or not-found. */
    method GetIssueById(id: string) returns (r: Reply)
      requires Valid()
      ensures r == Lookup(issues, id)
      ensures r.Found? ==> r.issue.id == id
    {
      if id in issues {
        r := Found(issues[id]);
      } else {
        r := NotFound;
      }
    }

    /** `update_issue_status`: the record under `id` gets `newStatus`, whatever
        text it is, and is answered; an absent `id` answers not-found and
        changes nothing. */
    method UpdateIssueStatus(id: string, newStatus: string) returns (r: Reply)
      requires Valid()
      modifies this
      ensures Valid()
      ensures issues == WithStatus(old(issues), id, newStatus)
      ensures r == Lookup(issues, id)
      ensures users == old(users)
    {
      WithStatusKeepsWellKeyed(issues, id, newStatus);
      if id in issues {
        var issue := issues[id];
        issues := issues[id := issue.(status := newStatus)];
        r := Found(issues[id]);
      } else {
        r := NotFound;
      }
    }
  }

  /** The walk-through of a fresh server: report an issue, read it back, look
      up an identifier that was never issued, resolve the issue, and list. */
  method ReportReadResolveList(payload: Issue, freshId: string)
    returns (created: string, fetched: Reply, missing: Reply, resolved: Reply, listed: seq<Issue>)
    requires IsUuidV4Text(freshId)
    ensures created == freshId
    ensures fetched == Found(payload.(id := freshId))
    ensures missing == NotFound
    ensures resolved == Found(payload.(id := freshId, status := "resolved"))
    ensures listed == [payload.(id := freshId, status := "resolved")]
  {
    var app := new AppState();
    created := app.ReportIssue(payload, freshId);
    fetched := app.GetIssueById(created);
    missing := app.GetIssueById("doesnotexist");
    LookupOfNonUuidIsNotFound(app.issues, "doesnotexist");
    resolved := app.UpdateIssueStatus(created, "resolved");
    listed := app.GetIssues();
    assert app.issues == map[freshId := payload.(id := freshId, status := "resolved")];
    assert |listed| == 1 && listed[0] in app.issues.Values;
  }
}
