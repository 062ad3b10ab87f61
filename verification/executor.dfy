/**
 The command executor: one external command runs to completion and is
 classified by its exit status. The commands themselves (the cloud CLI, the
 registry login client, the image-copy tool) are not modelled; an oracle
 stands for them.
 */
module Executor {
  import opened Optional
  import opened Text
  import opened Commands

  /** What a finished process leaves behind. */
  datatype CommandResult = CommandResult(exitCode: int, stdout: string, stderr: string)

  /** A classified run: the trimmed output of a success, or the stderr of a failure. */
  datatype Outcome = Ok(output: string) | Err(stderr: string)

  /**
   The outcome of a finished command: a success exactly when the exit status
   is zero; otherwise a failure carrying stderr untouched.
   */
  function RunCommand(res: CommandResult): (o: Outcome)
    ensures o.Ok? <==> res.exitCode == 0
    ensures o.Err? ==> o.stderr == res.stderr
  {
    if res.exitCode != 0 then Err(res.stderr) else Ok(Strip(res.stdout))
  }

  /**
   A successful command's output is its stdout with exactly the surrounding
   whitespace removed, and stripping it again changes nothing.
   */
  lemma SuccessOutputIsTrimmed(res: CommandResult)
    requires res.exitCode == 0
    ensures TrimmedFrom(RunCommand(res).output, res.stdout)
    ensures Strip(RunCommand(res).output) == RunCommand(res).output
  {
    StripTrims(res.stdout);
    StripIdempotent(res.stdout);
  }

  /**
   The external world: what running command `c` returns after the commands in
   the history have run. Depending on the history lets two runs of the same
   command answer differently (two fetched passwords need not agree).
   */
  type Oracle = (seq<Command>, Command) -> CommandResult

  function Execute(oracle: Oracle, history: seq<Command>, c: Command): Outcome {
    RunCommand(oracle(history, c))
  }

  /** The output a later command is built from; a failure never feeds one. */
  function OutputOf(o: Outcome): string {
    if o.Ok? then o.output else ""
  }

  /** The failure an outcome carries, if any. */
  function FailureOf(o: Outcome): Option<string> {
    if o.Err? then Some(o.stderr) else None
  }

  /** Running `c` after `history` succeeds. */
  predicate Succeeds(oracle: Oracle, history: seq<Command>, c: Command) {
    Execute(oracle, history, c).Ok?
  }

  /**
   `t` is a run that started after `history`: every command in it succeeded,
   except that when `failure` is present the last one failed with that stderr.
   A failure therefore ends a run.
   */
  ghost predicate RanUntil(oracle: Oracle, history: seq<Command>, t: seq<Command>, failure: Option<string>) {
    && (forall j :: 0 <= j < |t| && !(failure.Some? && j == |t| - 1) ==> Succeeds(oracle, history + t[..j], t[j]))
    && (failure.Some? ==> |t| > 0 && Execute(oracle, history + t[..|t| - 1], t[|t| - 1]) == Err(failure.value))
  }

  /** The history before position `|t| + k` of `t + u`, regrouped around `t`. */
  lemma HistoryAfter(history: seq<Command>, t: seq<Command>, u: seq<Command>, k: nat)
    requires k <= |u|
    ensures history + (t + u)[..|t| + k] == (history + t) + u[..k]
  {
    assert (t + u)[..|t| + k] == t + u[..k];
  }

  /** A run that succeeded throughout, followed by a run after it, is one run. */
  lemma RanUntilAppend(oracle: Oracle, history: seq<Command>, t: seq<Command>, u: seq<Command>, failure: Option<string>)
    requires RanUntil(oracle, history, t, None)
    requires RanUntil(oracle, history + t, u, failure)
    requires failure.Some? ==> |u| > 0
    ensures RanUntil(oracle, history, t + u, failure)
  {
    var tu := t + u;
    forall j | 0 <= j < |tu| && !(failure.Some? && j == |tu| - 1)
      ensures Succeeds(oracle, history + tu[..j], tu[j])
    {
      if j < |t| {
        assert tu[..j] == t[..j];
      } else {
        HistoryAfter(history, t, u, j - |t|);
      }
    }
    if failure.Some? {
      HistoryAfter(history, t, u, |u| - 1);
    }
  }
}
