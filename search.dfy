/** The part of the client search that works on the retrieved points: one text per point,
    then the context step with the default budget. */
module Search {
  import opened Text
  import opened Context
  import opened Payload

  /** The source turns a raised exception into an error response; the one exception that can
      come from the points themselves is a payload that is `None`, at the given position. */
  datatype SearchError = PayloadIsNone(index: nat)

  datatype Result<T> = Success(value: T) | Failure(error: SearchError)

  /** Whether every point has a payload mapping (possibly a missing, hence empty, one). */
  predicate AllHaveMappings(points: seq<Point>)
  {
    forall k :: 0 <= k < |points| ==> !points[k].payload.NoneValue?
  }

  /** The texts of the points, one per point, in point order. */
  function PayloadTexts(rd: Renderer, points: seq<Point>): seq<string>
    requires AllHaveMappings(points)
  {
    seq(|points|, k requires 0 <= k < |points| => PointText(rd, points[k]).value)
  }

  /** The loop that fills `payload_texts`: one text per point, in point order, never skipping a
      point whose payload has no scalar values. It stops at the first point whose payload is
      `None`, where the source raises. */
  method CollectPayloadTexts(rd: Renderer, points: seq<Point>) returns (r: Result<seq<string>>)
    ensures r.Success? <==> AllHaveMappings(points)
    ensures r.Success? ==>
      |r.value| == |points| &&
      forall k :: 0 <= k < |points| ==> PointText(rd, points[k]) == Some(r.value[k])
    ensures r.Failure? ==>
      r.error.index < |points| && points[r.error.index].payload.NoneValue? &&
      forall k :: 0 <= k < r.error.index ==> !points[k].payload.NoneValue?
  {
    var payloadTexts: seq<string> := [];
    var i := 0;
    while i < |points|
      invariant 0 <= i <= |points|
      invariant |payloadTexts| == i
      invariant forall k :: 0 <= k < i ==> PointText(rd, points[k]) == Some(payloadTexts[k])
    {
      match Mapping(points[i].payload)
      case None =>
        return Failure(PayloadIsNone(i));
      case Some(entries) =>
        payloadTexts := payloadTexts + [EntriesText(rd, entries)];
      i := i + 1;
    }
    return Success(payloadTexts);
  }

  /** After the fetch: the payload texts of the points go through the context step with the
      default budget; a `None` payload makes the whole search an error, with no context. */
  method SearchContext(codec: Codec, rd: Renderer, points: seq<Point>) returns (r: Result<ContextResult>)
    ensures r.Success? <==> AllHaveMappings(points)
    ensures r.Success? ==>
      r.value == PrepareContext(codec, PayloadTexts(rd, points), DefaultMaxTokens) &&
      r.value.tokenCount <= DefaultMaxTokens
    ensures r.Failure? ==> r.error.index < |points| && points[r.error.index].payload.NoneValue?
  {
    var texts := CollectPayloadTexts(rd, points);
    match texts
    case Failure(e) =>
      return Failure(e);
    case Success(payloadTexts) =>
      assert payloadTexts == PayloadTexts(rd, points);
      return Success(PrepareContext(codec, payloadTexts, DefaultMaxTokens));
  }

  /** Every point contributes exactly one line to the joined text, so the joined text of the
      points splits back into their texts when no text holds a newline. */
  lemma OneLinePerPoint(rd: Renderer, points: seq<Point>)
    requires |points| >= 1 && AllHaveMappings(points)
    requires forall k :: 0 <= k < |points| ==> '\n' !in PayloadTexts(rd, points)[k]
    ensures Split('\n', Combined(PayloadTexts(rd, points))) == PayloadTexts(rd, points)
  {
    SplitJoin('\n', PayloadTexts(rd, points));
  }

  /** A point whose payload has no scalar values still takes its place, as an empty line. */
  lemma EmptyPayloadKeepsItsPlace(rd: Renderer, points: seq<Point>, k: nat)
    requires AllHaveMappings(points) && k < |points|
    requires points[k].payload.Present?
    requires forall j :: 0 <= j < |points[k].payload.entries| ==> !IsScalar(points[k].payload.entries[j].value)
    ensures |PayloadTexts(rd, points)| == |points| && PayloadTexts(rd, points)[k] == ""
  {
    NoScalarsNoText(rd, points[k].payload.entries);
  }
}
