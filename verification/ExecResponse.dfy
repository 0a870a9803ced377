/** How running a command in a sandbox ends, and what a caller is told about it. */
module ExecResponse {
  import opened Bytes
  import opened Wrappers
  import LimitWriter

  /** What Run or Wait of os/exec returns: nothing, a nonzero exit status, or any other error. */
  datatype RunError = NoError | ExitError(code: int) | OtherError

  datatype Response = Response(stdout: bytes, stderr: bytes, exitCode: int, timedOut: bool)

  /** The text "execution timed out". */
  const TIMED_OUT: bytes :=
    [101, 120, 101, 99, 117, 116, 105, 111, 110, 32, 116, 105, 109, 101, 100, 32, 111, 117, 116]

  /** buildExecResponse; no response is an internal error. `expired` says that the deadline has passed. */
  function BuildExecResponse(err: RunError, expired: bool, timeoutSecs: int, stdout: bytes, stderr: bytes):
    Option<Response>
  {
    match err
    case NoError => Some(Response(stdout, stderr, 0, false))
    case ExitError(code) => Some(Response(stdout, stderr, code, timeoutSecs > 0 && code == 137))
    case OtherError => if expired then Some(Response([], TIMED_OUT, -1, true)) else None
  }

  // ----- A command whose output is captured -----

  /**
    * One command: the writes in which its output arrives, its exit status, and whether running it fails for a
    * reason of its own.
    */
  datatype Run = Run(chunks: seq<bytes>, code: int, broken: bool, expired: bool)

  /** A nonzero exit status comes first; otherwise a short count stops the copying of the output with an error. */
  function RunErrorOf(limit: nat, r: Run): RunError {
    if r.code != 0 then ExitError(r.code)
    else if r.broken || LimitWriter.ShortCounts(limit, r.chunks) > 0 then OtherError
    else NoError
  }

  const FILE_OP_TIMEOUT_SECS := 30

  /** ReadFile: what a command that prints the file hands over, if it succeeds. */
  function ReadFile(max: int, r: Run): Option<bytes> {
    var limit := LimitWriter.LimitFor(max);
    match BuildExecResponse(RunErrorOf(limit, r), r.expired, FILE_OP_TIMEOUT_SECS,
                            LimitWriter.Captured(limit, r.chunks), [])
    case None => None
    case Some(res) => if res.exitCode != 0 then None else Some(res.stdout)
  }

  /** No write of the output is cut in the middle. */
  ghost predicate ArrivesWhole(max: int, chunks: seq<bytes>) {
    max <= 0 || |Concat(chunks)| <= max || LimitWriter.OnBoundary(max, chunks)
  }

  /**
    * A read succeeds exactly if the command does and no write straddles the limit, and then hands over the file up
    * to the limit. So a file beyond the limit is read only if the limit falls between two writes.
    */
  lemma ReadSucceedsExactly(max: int, r: Run)
    ensures ReadFile(max, r).Some? <==> r.code == 0 && !r.broken && ArrivesWhole(max, r.chunks)
    ensures ReadFile(max, r).Some? ==> ReadFile(max, r).value == Limited(LimitWriter.LimitFor(max), Concat(r.chunks))
  {
    LimitWriter.ShortCountsExactly(LimitWriter.LimitFor(max), r.chunks);
    LimitWriter.CapturedIsLimited(LimitWriter.LimitFor(max), r.chunks);
  }

  /** A file beyond the limit that arrives in one write cannot be read at all. */
  lemma OneWriteFails(max: int, file: bytes)
    requires 0 < max < |file|
    ensures ReadFile(max, Run([file], 0, false, false)) == None
  {
    var chunks := [file];
    assert chunks[..0] == [] && Concat(chunks[..0]) == [];
    assert LimitWriter.ShortCounts(max, chunks) == 1;
  }
}
