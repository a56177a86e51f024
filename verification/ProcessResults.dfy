/** How a process call of an executor ends (src/ProcessResult.h). */
module ProcessResults {
  datatype ProcessResult = Proceed | RemoveOk | RemoveError | Shutdown
}
