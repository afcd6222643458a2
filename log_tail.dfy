/** The read side of `GET /logs` (main.py:144-151). */
module LogTail {
  import opened Wrappers

  /** Number of lines `GET /logs` returns when the query gives none. */
  const DefaultLines: int := 200

  const NotFoundBody: string := "Log file not found."

  datatype PlainTextResponse = PlainTextResponse(body: string, statusCode: int)

  /**
   * Python's `s[start:]`: a negative start counts from the end, and the
   * resulting position is clamped to lie between 0 and `|s|`.
   */
  function SliceFrom<T>(s: seq<T>, start: int): (r: seq<T>)
    ensures 0 <= start <= |s| ==> r == s[start..]
    ensures -|s| <= start < 0 ==> r == s[|s| + start..]
    ensures start < -|s| ==> r == s
    ensures start > |s| ==> r == []
  {
    var b := if start < 0 then (if start + |s| < 0 then 0 else start + |s|)
             else (if start > |s| then |s| else start);
    s[b..]
  }

  /** `content[-lines:]`, for any integer `lines`, negative ones included. */
  function Tail(content: seq<string>, lines: int): (r: seq<string>)
    ensures |r| <= |content| && r == content[|content| - |r|..]
    ensures 0 < lines <= |content| ==> |r| == lines && r == content[|content| - lines..]
    ensures lines == 0 || lines >= |content| ==> r == content
    ensures lines < 0 ==> r == content[if -lines < |content| then -lines else |content|..]
  {
    SliceFrom(content, -lines)
  }

  /** `"".join(lines)`. */
  function Join(lines: seq<string>): string {
    if lines == [] then "" else Join(lines[..|lines| - 1]) + lines[|lines| - 1]
  }

  lemma {:induction false} JoinAppend(a: seq<string>, b: seq<string>)
    ensures Join(a + b) == Join(a) + Join(b)
    decreases |b|
  {
    if b == [] {
      assert a + b == a;
    } else {
      var n := |b| - 1;
      assert (a + b)[..|a + b| - 1] == a + b[..n];
      assert Join(a + b) == Join(a + b[..n]) + b[n];
      JoinAppend(a, b[..n]);
    }
  }

  /**
   * `GET /logs`: 404 when the log file does not exist (`None`), otherwise the
   * last `lines` lines of the file as read by `readlines`, joined.
   */
  function GetLogs(logFile: Option<seq<string>>, lines: int): (r: PlainTextResponse)
    ensures logFile.None? ==> r == PlainTextResponse(NotFoundBody, 404)
    ensures logFile.Some? ==> r.statusCode == 200
    ensures logFile.Some? && 0 < lines <= |logFile.value| ==>
      r.body == Join(logFile.value[|logFile.value| - lines..])
  {
    match logFile
    case None => PlainTextResponse(NotFoundBody, 404)
    case Some(content) => PlainTextResponse(Join(Tail(content, lines)), 200)
  }

  /**
   * The text a successful `GET /logs` returns is the end of the whole log
   * text, and with `lines == 0` or at least as many lines as the file holds it
   * is the whole log text.
   */
  lemma GetLogsIsEndOfLog(content: seq<string>, lines: int)
    ensures exists k :: 0 <= k <= |content| && Join(content) == Join(content[..k]) + GetLogs(Some(content), lines).body
    ensures lines == 0 || lines >= |content| ==> GetLogs(Some(content), lines).body == Join(content)
    ensures 0 < lines <= |content| ==> GetLogs(Some(content), lines).body == Join(content[|content| - lines..])
    ensures lines < 0 ==>
      GetLogs(Some(content), lines).body == Join(content[if -lines < |content| then -lines else |content|..])
  {
    var t := Tail(content, lines);
    var k := |content| - |t|;
    SplitJoin(content, k);
    assert t == content[k..];
  }

  /** `GET /logs` with no `lines` query parameter: the route's default of 200 lines. */
  function GetLogsDefault(logFile: Option<seq<string>>): (r: PlainTextResponse)
    ensures logFile.None? ==> r == PlainTextResponse(NotFoundBody, 404)
    ensures logFile.Some? && |logFile.value| <= DefaultLines ==> r == PlainTextResponse(Join(logFile.value), 200)
    ensures logFile.Some? && |logFile.value| > DefaultLines ==>
      r == PlainTextResponse(Join(logFile.value[|logFile.value| - DefaultLines..]), 200)
  {
    GetLogs(logFile, DefaultLines)
  }

  lemma SplitJoin(content: seq<string>, k: nat)
    requires k <= |content|
    ensures Join(content) == Join(content[..k]) + Join(content[k..])
  {
    assert content[..k] + content[k..] == content;
    JoinAppend(content[..k], content[k..]);
  }
}
