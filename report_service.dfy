/** Post reports: created PENDING by an existing user about an existing post, reviewed with a
    free-form status, resolved by deleting the reported post, and counted by status. */
module Reports {
  import opened Common
  import opened PostModel
  import opened UserModel

  datatype Report = Report(
    id: string,
    postId: string,
    reporterId: string,
    reporterName: string,
    reason: string,
    note: string,
    status: string,
    createdAt: int,
    updatedAt: Option<int>,
    adminId: Option<string>,
    adminNote: Option<string>)

  /** The report after a review: status, review time and the admin's fields are set. */
  function Reviewed(r: Report, status: string, adminId: string, adminNote: string, now: int): (q: Report)
    ensures q.status == status && q.updatedAt == Some(now) && q.adminId == Some(adminId) && q.adminNote == Some(adminNote)
    ensures q.(status := r.status, updatedAt := r.updatedAt, adminId := r.adminId, adminNote := r.adminNote) == r
  {
    r.(status := status, updatedAt := Some(now), adminId := Some(adminId), adminNote := Some(adminNote))
  }

  /** The ids of the reports with a given status. */
  function WithStatus(reports: map<string, Report>, status: string): (ids: set<string>)
    ensures ids <= reports.Keys
    ensures forall id :: id in ids <==> id in reports && reports[id].status == status
  {
    set id | id in reports && reports[id].status == status
  }

  /** countByStatus. */
  function CountByStatus(reports: map<string, Report>, status: string): (n: nat)
    ensures n <= |reports|
  {
    SubsetCardinality(WithStatus(reports, status), reports.Keys);
    |WithStatus(reports, status)|
  }

  /** The four numbers getReportStats puts in its map. */
  datatype ReportStats = ReportStats(total: nat, pending: nat, resolved: nat, rejected: nat)

  /** The three named statuses never count more reports than there are. */
  lemma StatsBounded(reports: map<string, Report>)
    ensures CountByStatus(reports, "PENDING") + CountByStatus(reports, "RESOLVED") + CountByStatus(reports, "REJECTED")
            <= |reports|
  {
    var p := WithStatus(reports, "PENDING");
    var s := WithStatus(reports, "RESOLVED");
    var j := WithStatus(reports, "REJECTED");
    assert p * s == {} && (p + s) * j == {};
    assert |p + s| == |p| + |s|;
    assert |p + s + j| == |p + s| + |j|;
    SubsetCardinality(p + s + j, reports.Keys);
  }

  /** Equality is not guaranteed: a report under any other status counts only in the total. */
  lemma StatsMayFallShort()
    ensures var r := Report("r1", "p1", "u1", "Ann Lee", "spam", "", "ESCALATED", 0, None, None, None);
            var reports := map["r1" := r];
            CountByStatus(reports, "PENDING") + CountByStatus(reports, "RESOLVED") + CountByStatus(reports, "REJECTED")
            < |reports|
  {
    var r := Report("r1", "p1", "u1", "Ann Lee", "spam", "", "ESCALATED", 0, None, None, None);
    var reports := map["r1" := r];
    assert WithStatus(reports, "PENDING") == {};
    assert WithStatus(reports, "RESOLVED") == {};
    assert WithStatus(reports, "REJECTED") == {};
  }

  /** The report service over the report, post and user repositories. */
  class ReportService {
    var reports: map<string, Report>
    var posts: map<string, Post>
    var users: map<string, User>

    constructor (posts: map<string, Post>, users: map<string, User>)
      ensures reports == map[] && this.posts == posts && this.users == users
    {
      reports := map[];
      this.posts := posts;
      this.users := users;
    }

    /** createReport: the post and then the reporter must exist; the saved report is PENDING,
        carries the reporter's full name and the creation time. The request body is saved as it
        came: givenId is the id it carries (None when null), and save() stores the report under
        that id, replacing any report already stored there; a body without an id gets the
        generated newId. */
    method CreateReport(report: Report, givenId: Option<string>, newId: string, now: int) returns (r: Result<Report>)
      requires givenId.None? ==> newId !in reports
      modifies this
      ensures posts == old(posts) && users == old(users)
      ensures report.postId !in old(posts) ==> r == Err(IllegalArgument("Post not found")) && reports == old(reports)
      ensures report.postId in old(posts) && report.reporterId !in old(users) ==>
                r == Err(IllegalArgument("User not found")) && reports == old(reports)
      ensures r.Ok? <==> report.postId in old(posts) && report.reporterId in old(users)
      ensures r.Ok? ==> var key := if givenId.Some? then givenId.value else newId;
                        && r.value.status == "PENDING" && r.value.createdAt == now
                        && r.value.reporterName == FullName(old(users)[report.reporterId])
                        && r.value == report.(id := key, reporterName := r.value.reporterName,
                                              status := "PENDING", createdAt := now)
                        && reports == old(reports)[key := r.value]
    {
      if report.postId !in posts {
        return Err(IllegalArgument("Post not found"));
      }
      if report.reporterId !in users {
        return Err(IllegalArgument("User not found"));
      }
      var reporter := users[report.reporterId];
      var key := if givenId.Some? then givenId.value else newId;
      var saved := report.(id := key, reporterName := reporter.firstName + " " + reporter.lastName,
                           status := "PENDING", createdAt := now);
      reports := reports[key := saved];
      return Ok(saved);
    }

    /** getReportsByStatus: exactly the reports whose status equals the argument (keyed by id). */
    method GetReportsByStatus(status: string) returns (r: map<string, Report>)
      ensures r.Keys == WithStatus(reports, status)
      ensures forall id :: id in r ==> r[id] == reports[id] && r[id].status == status
    {
      r := map id | id in reports && reports[id].status == status :: reports[id];
    }

    /** updateReportStatus: any status string is accepted. */
    method UpdateReportStatus(id: string, status: string, adminId: string, adminNote: string, now: int)
      returns (r: Result<Report>)
      modifies this
      ensures posts == old(posts) && users == old(users)
      ensures id !in old(reports) ==> r == Err(IllegalArgument("Report not found")) && reports == old(reports)
      ensures id in old(reports) ==>
                r == Ok(Reviewed(old(reports)[id], status, adminId, adminNote, now))
                && reports == old(reports)[id := r.value]
    {
      if id !in reports {
        return Err(IllegalArgument("Report not found"));
      }
      var report := Reviewed(reports[id], status, adminId, adminNote, now);
      reports := reports[id := report];
      return Ok(report);
    }

    /** deleteReportedPost: the reported post is deleted (a missing post is no error) and the
        report becomes RESOLVED with the admin's fields. */
    method DeleteReportedPost(reportId: string, adminId: string, adminNote: string, now: int) returns (e: Option<Error>)
      modifies this
      ensures users == old(users)
      ensures reportId !in old(reports) ==>
                e == Some(IllegalArgument("Report not found")) && reports == old(reports) && posts == old(posts)
      ensures reportId in old(reports) ==>
                e.None?
                && posts == old(posts) - {old(reports)[reportId].postId}
                && reports == old(reports)[reportId := Reviewed(old(reports)[reportId], "RESOLVED", adminId, adminNote, now)]
    {
      if reportId !in reports {
        return Some(IllegalArgument("Report not found"));
      }
      var report := reports[reportId];
      posts := posts - {report.postId};
      reports := reports[reportId := Reviewed(report, "RESOLVED", adminId, adminNote, now)];
      return None;
    }

    /** getReportStats. */
    method GetReportStats() returns (stats: ReportStats)
      ensures stats.total == |reports|
      ensures stats.pending == |WithStatus(reports, "PENDING")|
      ensures stats.resolved == |WithStatus(reports, "RESOLVED")|
      ensures stats.rejected == |WithStatus(reports, "REJECTED")|
      ensures stats.pending + stats.resolved + stats.rejected <= stats.total
    {
      StatsBounded(reports);
      stats := ReportStats(|reports|, CountByStatus(reports, "PENDING"), CountByStatus(reports, "RESOLVED"),
                           CountByStatus(reports, "REJECTED"));
    }
  }

  /** Resolving a report by deleting its post moves it from its old status to RESOLVED in the
      counts. */
  lemma ResolveMovesCount(reports: map<string, Report>, id: string, adminId: string, adminNote: string, now: int)
    requires id in reports && reports[id].status != "RESOLVED"
    ensures var after := reports[id := Reviewed(reports[id], "RESOLVED", adminId, adminNote, now)];
            CountByStatus(after, "RESOLVED") == CountByStatus(reports, "RESOLVED") + 1
            && CountByStatus(after, reports[id].status) == CountByStatus(reports, reports[id].status) - 1
  {
    var after := reports[id := Reviewed(reports[id], "RESOLVED", adminId, adminNote, now)];
    assert WithStatus(after, "RESOLVED") == WithStatus(reports, "RESOLVED") + {id};
    assert WithStatus(after, reports[id].status) == WithStatus(reports, reports[id].status) - {id};
  }
}
