/** The administrator dashboard's statistics with a five-minute in-memory memo per statistic.
    The clock reading and the start of the current day are parameters. */
module AdminStats {
  import opened Common
  import opened UserModel
  import opened PostModel

  /** Five minutes in milliseconds. */
  const CacheTtl: int := 5 * 60 * 1000

  /** The statistics answer; count mirrors total for older clients. */
  datatype StatsResponse = StatsResponse(total: nat, count: nat, newToday: nat, active: nat)

  /** A memo entry answers a request at time now when it exists and is younger than the TTL. */
  predicate Fresh<T>(cached: Option<T>, last: int, now: int): (usable: bool)
    ensures cached.None? ==> !usable
    ensures cached.Some? && last <= now < last + 300000 ==> usable
    ensures now >= last + 300000 ==> !usable
  {
    cached.Some? && now - last < CacheTtl
  }

  /** The ids of the users created at or after the start of today (a user without a creation
      time matches no range query). */
  function CreatedSince(users: map<string, User>, today: int): (ids: set<string>)
    ensures forall id :: id in ids <==> id in users && users[id].createdAt.Some? && users[id].createdAt.value >= today
  {
    set id | id in users && users[id].createdAt.Some? && users[id].createdAt.value >= today
  }

  /** The ids of the enabled users. */
  function Enabled(users: map<string, User>): (ids: set<string>)
    ensures forall id :: id in ids <==> id in users && users[id].enabled
  {
    set id | id in users && users[id].enabled
  }

  /** The ids of the posts created at or after the start of today. */
  function PostedSince(posts: map<string, Post>, today: int): (ids: set<string>)
    ensures forall id :: id in ids <==> id in posts && posts[id].createdAt >= today
  {
    set id | id in posts && posts[id].createdAt >= today
  }

  /** The freshly computed user statistics: total and count are the number of users, and the
      two partial counts never exceed it. */
  function UserStatsOf(users: map<string, User>, today: int): (s: StatsResponse)
    ensures s.total == s.count == |users|
    ensures s.newToday == |CreatedSince(users, today)| && s.active == |Enabled(users)|
    ensures s.newToday <= s.total && s.active <= s.total
  {
    SubsetCardinality(CreatedSince(users, today), users.Keys);
    SubsetCardinality(Enabled(users), users.Keys);
    StatsResponse(|users|, |users|, |CreatedSince(users, today)|, |Enabled(users)|)
  }

  /** The freshly computed post statistics: only total (and count) are set. */
  function PostStatsOf(posts: map<string, Post>): (s: StatsResponse)
    ensures s.total == s.count == |posts| && s.newToday == 0 && s.active == 0
  {
    StatsResponse(|posts|, |posts|, 0, 0)
  }

  /** The number of posts created today never exceeds the number of posts. */
  function TodayPostsOf(posts: map<string, Post>, today: int): (n: nat)
    ensures n == |PostedSince(posts, today)| && n <= |posts|
  {
    SubsetCardinality(PostedSince(posts, today), posts.Keys);
    |PostedSince(posts, today)|
  }

  /** An entry stored at time t answers every request until, and only until, t + TTL. */
  lemma RefreshedEntryLasts<T>(v: T, t: int, now: int)
    requires t <= now
    ensures Fresh(Some(v), t, now) <==> now < t + CacheTtl
  {
  }

  /** The statistics service: three memo entries with their store times, over the user and post
      repositories. */
  class AdminStatsService {
    var users: map<string, User>
    var posts: map<string, Post>
    var cachedUserStats: Option<StatsResponse>
    var cachedPostStats: Option<StatsResponse>
    var cachedTodayPostsCount: Option<nat>
    var lastUserStatsUpdate: int
    var lastPostStatsUpdate: int
    var lastTodayPostsUpdate: int

    /** Every cached answer keeps count equal to total. */
    ghost predicate Valid()
      reads this
    {
      (cachedUserStats.Some? ==> cachedUserStats.value.count == cachedUserStats.value.total)
      && (cachedPostStats.Some? ==> cachedPostStats.value.count == cachedPostStats.value.total)
    }

    constructor (users: map<string, User>, posts: map<string, Post>)
      ensures Valid()
      ensures this.users == users && this.posts == posts
      ensures cachedUserStats.None? && cachedPostStats.None? && cachedTodayPostsCount.None?
      ensures lastUserStatsUpdate == 0 && lastPostStatsUpdate == 0 && lastTodayPostsUpdate == 0
    {
      this.users := users;
      this.posts := posts;
      cachedUserStats := None;
      cachedPostStats := None;
      cachedTodayPostsCount := None;
      lastUserStatsUpdate := 0;
      lastPostStatsUpdate := 0;
      lastTodayPostsUpdate := 0;
    }

    /** getUserStats: a fresh entry is returned as it is, however the users changed since; a
        missing or expired one is recomputed from the repository and stored with time now. */
    method GetUserStats(now: int, today: int) returns (r: StatsResponse)
      requires Valid()
      modifies this
      ensures Valid()
      ensures r.count == r.total
      ensures users == old(users) && posts == old(posts)
      ensures cachedPostStats == old(cachedPostStats) && lastPostStatsUpdate == old(lastPostStatsUpdate)
      ensures cachedTodayPostsCount == old(cachedTodayPostsCount) && lastTodayPostsUpdate == old(lastTodayPostsUpdate)
      ensures Fresh(old(cachedUserStats), old(lastUserStatsUpdate), now) ==>
                r == old(cachedUserStats).value
                && cachedUserStats == old(cachedUserStats) && lastUserStatsUpdate == old(lastUserStatsUpdate)
      ensures !Fresh(old(cachedUserStats), old(lastUserStatsUpdate), now) ==>
                r == UserStatsOf(users, today) && cachedUserStats == Some(r) && lastUserStatsUpdate == now
    {
      if cachedUserStats.Some? && now - lastUserStatsUpdate < CacheTtl {
        return cachedUserStats.value;
      }
      var totalUsers := |users|;
      var newUsersToday := |CreatedSince(users, today)|;
      var activeUsers := |Enabled(users)|;
      r := StatsResponse(totalUsers, totalUsers, newUsersToday, activeUsers);
      cachedUserStats := Some(r);
      lastUserStatsUpdate := now;
    }

    /** getPostStats: the same memo rule over the post count. */
    method GetPostStats(now: int) returns (r: StatsResponse)
      requires Valid()
      modifies this
      ensures Valid()
      ensures r.count == r.total
      ensures users == old(users) && posts == old(posts)
      ensures cachedUserStats == old(cachedUserStats) && lastUserStatsUpdate == old(lastUserStatsUpdate)
      ensures cachedTodayPostsCount == old(cachedTodayPostsCount) && lastTodayPostsUpdate == old(lastTodayPostsUpdate)
      ensures Fresh(old(cachedPostStats), old(lastPostStatsUpdate), now) ==>
                r == old(cachedPostStats).value
                && cachedPostStats == old(cachedPostStats) && lastPostStatsUpdate == old(lastPostStatsUpdate)
      ensures !Fresh(old(cachedPostStats), old(lastPostStatsUpdate), now) ==>
                r == PostStatsOf(posts) && cachedPostStats == Some(r) && lastPostStatsUpdate == now
    {
      if cachedPostStats.Some? && now - lastPostStatsUpdate < CacheTtl {
        return cachedPostStats.value;
      }
      r := StatsResponse(|posts|, |posts|, 0, 0);
      cachedPostStats := Some(r);
      lastPostStatsUpdate := now;
    }

    /** getTodayPostsCount: the same memo rule over the number of posts created today. */
    method GetTodayPostsCount(now: int, today: int) returns (r: nat)
      requires Valid()
      modifies this
      ensures Valid()
      ensures users == old(users) && posts == old(posts)
      ensures cachedUserStats == old(cachedUserStats) && lastUserStatsUpdate == old(lastUserStatsUpdate)
      ensures cachedPostStats == old(cachedPostStats) && lastPostStatsUpdate == old(lastPostStatsUpdate)
      ensures Fresh(old(cachedTodayPostsCount), old(lastTodayPostsUpdate), now) ==>
                r == old(cachedTodayPostsCount).value
                && cachedTodayPostsCount == old(cachedTodayPostsCount) && lastTodayPostsUpdate == old(lastTodayPostsUpdate)
      ensures !Fresh(old(cachedTodayPostsCount), old(lastTodayPostsUpdate), now) ==>
                r == TodayPostsOf(posts, today) && cachedTodayPostsCount == Some(r) && lastTodayPostsUpdate == now
    {
      if cachedTodayPostsCount.Some? && now - lastTodayPostsUpdate < CacheTtl {
        return cachedTodayPostsCount.value;
      }
      r := |PostedSince(posts, today)|;
      cachedTodayPostsCount := Some(r);
      lastTodayPostsUpdate := now;
    }
  }
}
