/** What a run of hooks leaves behind. A time is a number; 0 is the zero time. */
module Manifests {
  datatype RunResult = RunResult(
    runID: string, branchID: string, sourceRef: string, eventType: string, commitID: string,
    startTime: nat, endTime: nat, passed: bool)

  datatype TaskResult = TaskResult(
    runID: string, hookRunID: string, hookID: string, actionName: string,
    startTime: nat, endTime: nat, passed: bool)

  datatype RunManifest = RunManifest(run: RunResult, hooksRun: seq<TaskResult>)
}
