/**
 * The submission a client posts to `/ready` and the truncated summary the
 * service retains of the most recently admitted one (main.py:68-80, 107-113).
 */
module TaskSummary {

  datatype Attachment = Attachment(name: string, url: string)

  /** The body of `POST /ready`, as the request model declares it. */
  datatype TaskRequest = TaskRequest(
    task: string,
    email: string,
    round: int,
    brief: string,
    evaluationUrl: string,
    nonce: string,
    secret: string,
    attachments: seq<Attachment>)

  /** The record stored as `last_received_task`. */
  datatype Summary = Summary(task: string, email: string, round: int, brief: string, time: string)

  /** Number of brief characters kept in a summary. */
  const BriefLimit: nat := 250

  /** Marker appended to a brief that was cut short. */
  const Ellipsis: string := "..."

  function Min(a: int, b: int): int { if a <= b then a else b }

  /**
   * `brief[:250] + ("..." if len(brief) > 250 else "")`: a short brief is kept
   * as it is, a long one is cut to its first 250 characters and marked.
   */
  function TruncateBrief(brief: string): (r: string)
    ensures |brief| <= BriefLimit ==> r == brief
    ensures |brief| > BriefLimit ==> r == brief[..BriefLimit] + Ellipsis
    ensures |r| <= BriefLimit + |Ellipsis|
  {
    brief[..Min(|brief|, BriefLimit)] + (if |brief| > BriefLimit then Ellipsis else "")
  }

  /** Whether a brief was cut can be read off the stored text: only a cut brief is longer than the limit. */
  lemma TruncationIsVisible(brief: string)
    ensures |TruncateBrief(brief)| > BriefLimit <==> |brief| > BriefLimit
    ensures |brief| > BriefLimit ==> |TruncateBrief(brief)| == BriefLimit + |Ellipsis|
  {
  }

  /** Truncating a stored brief again changes nothing. */
  lemma TruncateBriefIdempotent(brief: string)
    ensures TruncateBrief(TruncateBrief(brief)) == TruncateBrief(brief)
  {
  }

  /**
   * The summary built for an admitted request; `isoNow` is the caller's
   * `datetime.utcnow().isoformat()`, to which the service appends "Z".
   */
  function Summarize(req: TaskRequest, isoNow: string): Summary {
    Summary(req.task, req.email, req.round, TruncateBrief(req.brief), isoNow + "Z")
  }
}
