/** The job types shared by the loader, the scheduler and the executors (src/dsl/mod.rs). */
module Dsl {
  import opened Wrappers

  const U32_MAX := 0xFFFF_FFFF

  type u32 = n: int | 0 <= n <= U32_MAX

  datatype JobKey = JobKey(group: string, name: string)

  datatype Trigger = Cron(expr: string) | Manual

  datatype TimeWindow = TimeWindow(startMs: Option<int>, endMs: Option<int>) {
    predicate Allows(nowMs: int) {
      && (startMs.Some? ==> startMs.value <= nowMs)
      && (endMs.Some? ==> nowMs <= endMs.value)
    }
  }

  // `count` is the number of retries after the first attempt.
  datatype RetryPolicy = RetryPolicy(count: u32, delayMs: nat, ignoreFailures: bool)

  datatype HeaderSource = Literal(value: string) | Env(name: string)

  datatype HttpHeader = HttpHeader(name: string, source: HeaderSource)

  datatype JobKind =
    | Http(httpMethod: string, url: string, headers: seq<HttpHeader>)
    | Exec(argv: seq<string>, allowedEnvs: seq<string>)
  {
    function TypeLabel(): string {
      if Http? then "http" else "exec"
    }
  }

  datatype JobSpec = JobSpec(key: JobKey, trigger: Trigger, window: TimeWindow, retry: RetryPolicy, kind: JobKind)
}
