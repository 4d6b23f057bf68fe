/** The SDK's execution result (`Plasm\Result`): captured output and the
    receipt, assigned once by the constructor and read through accessors
    that delegate to the receipt. */
module SdkResult {
  import SdkReceipt

  /** `stdout()`, `stderr()` and `receipt()` are the fields themselves; no
      method assigns them after construction. */
  datatype Result = Result(stdout: string, stderr: string, receipt: SdkReceipt.Receipt)
  {
    /** `exitCode()`: the receipt's exit code. */
    function ExitCode(): (code: int)
      ensures code == 0 <==> receipt.IsSuccess()
    {
      receipt.exitCode
    }

    /** `isSuccess()`: delegated to the receipt, so it holds exactly when
        `exitCode()` is 0. */
    predicate IsSuccess()
      ensures IsSuccess() <==> ExitCode() == 0
    {
      receipt.IsSuccess()
    }
  }
}
