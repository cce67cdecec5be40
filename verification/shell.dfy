/** The convention every external command follows in the storage script
    (its `cmd` helper): a command either exits cleanly or fails, and its
    combined output is what the caller sees. Process spawning, timeouts and
    logging are not modelled; a command's result is an oracle value. */
module Shell {
  import opened Wrappers
  import opened Text

  /** One external command's outcome: its captured output and whether it
      exited with status zero. */
  datatype CmdResult = Ok(output: string) | Failed(output: string)

  const ERROR_MARK := "ERROR"

  /** `cmd(..., ignore_errors=True)`: the output, stripped, with "ERROR"
      appended when the command failed, so callers test failure with
      `'ERROR' in out`. */
  function Tolerant(r: CmdResult): (out: string)
    ensures r.Failed? ==> EndsWith(out, ERROR_MARK) && Contains(out, ERROR_MARK)
  {
    match r
    case Ok(x) => Strip(x)
    case Failed(x) =>
      StripKeepsTail(x, ERROR_MARK);
      ContainsSuffix(Strip(x + ERROR_MARK), ERROR_MARK);
      Strip(x + ERROR_MARK)
  }

  /** `cmd(...)` with errors not ignored: the stripped output, or the raised
      `RuntimeError` whose text is the raw output. */
  function Checked(r: CmdResult): (res: Result<string, string>)
    ensures res.Failure? <==> r.Failed?
    ensures res.Failure? ==> res.error == r.output
  {
    match r
    case Ok(x) => Success(Strip(x))
    case Failed(x) => Failure(x)
  }
}
