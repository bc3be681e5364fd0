/** The HTTP face of the reaction ledger: the four handlers, the status codes they answer with,
    and the {total, reactions} body they build from a count map. */
module ReactionApi {
  import opened Common
  import opened ReactionLedger

  datatype Body =
    | CountsBody(total: int, reactions: map<string, int>)
    | TypeBody(reactionType: string)
    | ErrorBody(message: string)
    | NoBody

  datatype Response = Response(status: int, body: Body)

  /** createResponse: "total" is the sum of all counts and "reactions" the count map itself. */
  ghost function CreateResponse(counts: map<string, int>): (b: Body)
    ensures b.CountsBody? && b.reactions == counts
    ensures counts == map[] ==> b.total == 0
    ensures (forall t :: t in counts ==> counts[t] >= 0) ==>
              b.total >= 0 && forall t :: t in counts ==> counts[t] <= b.total
  {
    SumValuesBounds(counts);
    CountsBody(SumValues(counts), counts)
  }

  /** For a count map over the six types, the total is the sum of the six per-type counts. */
  lemma ResponseTotalIsSumOfTypes(counts: map<string, int>)
    requires counts.Keys == set t | t in ValidTypes
    ensures CreateResponse(counts).total ==
            counts["LIKE"] + counts["LOVE"] + counts["HAHA"] + counts["WOW"] + counts["SAD"] + counts["ANGRY"]
    ensures CreateResponse(counts).reactions == counts
  {
    assert Distinct(ValidTypes);
    SumValuesAsSumAt(ValidTypes, counts);
    SixTypeSum(counts);
  }

  lemma SixTypeSum(counts: map<string, int>)
    requires forall t :: t in ValidTypes ==> t in counts
    ensures SumAt(ValidTypes, counts) ==
            counts["LIKE"] + counts["LOVE"] + counts["HAHA"] + counts["WOW"] + counts["SAD"] + counts["ANGRY"]
  {
    var ts := ValidTypes;
    assert ts[5..] == ["ANGRY"];
    assert SumAt(ts[5..], counts) == counts["ANGRY"] by { assert ts[5..][1..] == []; }
    assert ts[4..] == ["SAD"] + ts[5..];
    assert SumAt(ts[4..], counts) == counts["SAD"] + SumAt(ts[5..], counts);
    assert ts[3..] == ["WOW"] + ts[4..];
    assert SumAt(ts[3..], counts) == counts["WOW"] + SumAt(ts[4..], counts);
    assert ts[2..] == ["HAHA"] + ts[3..];
    assert SumAt(ts[2..], counts) == counts["HAHA"] + SumAt(ts[3..], counts);
    assert ts[1..] == ["LOVE"] + ts[2..];
    assert SumAt(ts[1..], counts) == counts["LOVE"] + SumAt(ts[2..], counts);
    assert SumAt(ts, counts) == counts["LIKE"] + SumAt(ts[1..], counts);
  }

  /** The status an exception from the service turns into. */
  function StatusFor(e: Error): (status: int)
    ensures status == 400 <==> e.IllegalArgument?
    ensures status == 500 <==> !e.IllegalArgument?
  {
    if e.IllegalArgument? then 400 else 500
  }

  /** The stream sum over the count map's values. */
  method SumCounts(counts: map<string, int>) returns (total: int)
    ensures total == SumValues(counts)
  {
    total := 0;
    var rest := counts;
    while rest != map[]
      invariant total + SumValues(rest) == SumValues(counts)
      decreases |rest|
    {
      var k :| k in rest;
      SumValuesRemove(rest, k);
      total := total + rest[k];
      assert rest.Keys - {k} < rest.Keys;
      rest := rest - {k};
    }
  }

  method BuildResponse(counts: map<string, int>) returns (body: Body)
    ensures body == CreateResponse(counts)
  {
    var total := SumCounts(counts);
    body := CountsBody(total, counts);
  }

  /** GET /{postId}/stats. */
  method GetReactionStats(service: ReactionService, postId: string) returns (resp: Response)
    ensures resp == Response(200, CreateResponse(ReactionCounts(service.reactions, postId)))
  {
    var counts := service.GetReactionCounts(Some(postId));
    if counts.Err? {
      return Response(500, ErrorBody("Failed to fetch reaction stats: "));
    }
    assert counts.value == ReactionCounts(service.reactions, postId);
    var body := BuildResponse(counts.value);
    return Response(200, body);
  }

  /** GET /{postId}/user/{userId}: 200 with the held type, or 404 when there is none. */
  method GetUserReaction(service: ReactionService, postId: string, userId: string) returns (resp: Response)
    ensures var held := Find(service.reactions, userId, postId);
            held.Some? ==> resp == Response(200, TypeBody(held.value.reactionType))
    ensures resp.status == 404 <==> forall x :: x in service.reactions ==> !SamePair(x, userId, postId)
    ensures resp.status == 200 || resp.status == 404
  {
    var reaction := service.GetUserReaction(Some(userId), Some(postId));
    if reaction.Err? {
      return Response(500, ErrorBody("Error getting user reaction: "));
    }
    if reaction.value.Some? {
      return Response(200, TypeBody(reaction.value.value.reactionType));
    }
    return Response(404, NoBody);
  }

  /** POST /{postId} with body {userId, type}. A missing field answers 400 before the service
      is called; an IllegalArgumentException answers 400, any other exception 500; on success
      the counts are read after the change. */
  method AddReaction(service: ReactionService, postId: string, payload: map<string, string>, freshId: string)
    returns (resp: Response)
    requires service.Valid()
    requires forall x :: x in service.reactions ==> x.id != freshId
    modifies service
    ensures service.Valid()
    ensures "userId" !in payload || "type" !in payload ==>
              resp == Response(400, ErrorBody("Both userId and type are required"))
              && service.reactions == old(service.reactions) && service.posts == old(service.posts)
    ensures "userId" in payload && "type" in payload ==>
              var (u, t) := (payload["userId"], payload["type"]);
              && service.reactions == (if t in ValidTypes then ApplyReaction(old(service.reactions), u, postId, t, freshId)
                                       else old(service.reactions))
              && (t in ValidTypes ==> service.CountsRefreshed(old(service.posts), postId))
              && (t !in ValidTypes ==> service.posts == old(service.posts))
              && (resp.status == 200 <==> t in ValidTypes && postId in old(service.posts))
              && (resp.status == 200 ==> resp.body == CreateResponse(ReactionCounts(service.reactions, postId)))
              && (resp.status != 200 ==> resp.status == 400)
  {
    if "userId" !in payload || "type" !in payload {
      return Response(400, ErrorBody("Both userId and type are required"));
    }
    var added := service.AddReaction(Some(payload["userId"]), Some(postId), Some(payload["type"]), freshId);
    if added.Err? {
      return Response(StatusFor(added.error), ErrorBody(added.error.message));
    }
    var counts := service.GetReactionCounts(Some(postId));
    if counts.Err? {
      return Response(500, ErrorBody("Failed to process reaction: "));
    }
    assert counts.value == ReactionCounts(service.reactions, postId);
    var body := BuildResponse(counts.value);
    return Response(200, body);
  }

  /** DELETE /{postId}/user/{userId}: every exception, an IllegalArgumentException included,
      answers 500. */
  method RemoveReaction(service: ReactionService, postId: string, userId: string) returns (resp: Response)
    requires service.Valid()
    modifies service
    ensures service.Valid()
    ensures service.reactions == WithoutPair(old(service.reactions), userId, postId)
    ensures service.CountsRefreshed(old(service.posts), postId)
    ensures resp.status == 200 <==> postId in old(service.posts)
    ensures resp.status == 200 ==> resp.body == CreateResponse(ReactionCounts(service.reactions, postId))
    ensures resp.status != 200 ==> resp.status == 500
  {
    var e := service.RemoveReaction(userId, postId);
    if e.Some? {
      return Response(500, ErrorBody("Failed to remove reaction: " + e.value.message));
    }
    var counts := service.GetReactionCounts(Some(postId));
    if counts.Err? {
      return Response(500, ErrorBody("Failed to remove reaction: "));
    }
    assert counts.value == ReactionCounts(service.reactions, postId);
    var total := SumCounts(counts.value);
    return Response(200, CountsBody(total, counts.value));
  }
}
