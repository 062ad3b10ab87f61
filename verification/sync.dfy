/**
 The sync orchestrator: for one pushed image, authenticate to the source
 registry, authenticate to one destination registry and copy the image
 there, once per configured destination region key, in list order. The first
 failing command ends the whole sync.
 */
module Sync {
  import opened Optional
  import opened Text
  import opened Commands
  import opened Executor

  /** One pushed image: where it lives and which repository and tag it is. */
  datatype SyncRequest = SyncRequest(repo: string, tag: string, account: string, region: string)

  /**
   The four destination settings read from the environment: the comma-separated
   region keys, the tenancy, the user name and the auth token.
   */
  datatype Config = Config(regionKeys: Option<string>, tenancy: Option<string>, username: Option<string>, token: Option<string>)

  /** The destination settings once they are known to be present. */
  datatype OciSettings = OciSettings(tenancy: string, username: string, token: string)

  /** The log records that report how a sync went. */
  datatype Record =
      /** A command exited non-zero; its stderr. */
    | CommandFailed(stderr: string)
      /** One copy finished. */
    | CopyCompleted
      /** One destination received the image. */
    | SyncedTo(repo: string, tag: string, regionKey: string)
      /** Every destination received the image. */
    | ImageCopied

  datatype Status = ConfigMissing | Failed(stderr: string) | Done

  /** Everything one sync did: the commands it ran, the records it logged and how it ended. */
  datatype Run = Run(commands: seq<Command>, records: seq<Record>, status: Status)

  /** A part of one destination's work: the commands it ran and how the last one went. */
  datatype Step = Step(commands: seq<Command>, outcome: Outcome)

  /** An environment value counts as set only when it is present and non-empty. */
  predicate Present(v: Option<string>) {
    v.Some? && |v.value| > 0
  }

  predicate ConfigComplete(cfg: Config) {
    Present(cfg.regionKeys) && Present(cfg.tenancy) && Present(cfg.username) && Present(cfg.token)
  }

  /** The destination region keys, in attempt order. */
  function Destinations(cfg: Config): seq<string>
    requires ConfigComplete(cfg)
  {
    Split(cfg.regionKeys.value, ',')
  }

  function Settings(cfg: Config): OciSettings
    requires ConfigComplete(cfg)
  {
    OciSettings(cfg.tenancy.value, cfg.username.value, cfg.token.value)
  }

  /** The number of commands one successful destination runs. */
  const StepsPerDestination: nat := 5

  // ---------------------------------------------------------------------------
  // The orchestration, following the handler's functions.
  // ---------------------------------------------------------------------------

  /** Runs `c` after `history` as a one-command step. */
  function Attempt(oracle: Oracle, history: seq<Command>, c: Command): Step {
    Step([c], Execute(oracle, history, c))
  }

  /** Fetches a source password, then logs in to the source registry with it. */
  function AuthenticateEcr(account: string, region: string, oracle: Oracle, history: seq<Command>): Step {
    var get := Attempt(oracle, history, GetEcrPassword(region));
    if get.outcome.Err? then get
    else
      var login := Attempt(oracle, history + get.commands, LoginEcr(get.outcome.output, account, region));
      Step(get.commands + login.commands, login.outcome)
  }

  /** Logs in to one destination registry with the configured token. */
  function AuthenticateOcir(regionKey: string, oci: OciSettings, oracle: Oracle, history: seq<Command>): Step {
    Attempt(oracle, history, LoginOcir(regionKey, oci.tenancy, oci.username, oci.token))
  }

  /** Fetches a fresh source password, then copies the image with both credentials inline. */
  function SyncImage(req: SyncRequest, oci: OciSettings, regionKey: string, oracle: Oracle, history: seq<Command>): Step {
    var get := Attempt(oracle, history, GetEcrPassword(req.region));
    if get.outcome.Err? then get
    else
      var copy := CopyCommand(req, oci, regionKey, get.outcome.output);
      var run := Attempt(oracle, history + get.commands, copy);
      Step(get.commands + run.commands, run.outcome)
  }

  /** The copy of the request's image to one destination, with the source password given. */
  function CopyCommand(req: SyncRequest, oci: OciSettings, regionKey: string, password: string): Command {
    SkopeoCopy(
      Creds("AWS", password),
      Creds(oci.tenancy + "/" + oci.username, oci.token),
      SourceImage(req.account, req.region, req.repo, req.tag),
      DestImage(regionKey, oci.tenancy, req.repo, req.tag))
  }

  /** All three steps for one destination; a failing step ends it. */
  function SyncDestination(req: SyncRequest, oci: OciSettings, regionKey: string, oracle: Oracle, history: seq<Command>): Step {
    var ecr := AuthenticateEcr(req.account, req.region, oracle, history);
    if ecr.outcome.Err? then ecr
    else
      var ocir := AuthenticateOcir(regionKey, oci, oracle, history + ecr.commands);
      if ocir.outcome.Err? then Step(ecr.commands + ocir.commands, ocir.outcome)
      else
        var copy := SyncImage(req, oci, regionKey, oracle, history + ecr.commands + ocir.commands);
        Step(ecr.commands + ocir.commands + copy.commands, copy.outcome)
  }

  /** The records one successful destination leaves. */
  function DestinationRecords(req: SyncRequest, regionKey: string): seq<Record> {
    [CopyCompleted, SyncedTo(req.repo, req.tag, regionKey)]
  }

  /** The records of destinations that all succeeded, in order. */
  function SuccessRecords(req: SyncRequest, keys: seq<string>): seq<Record> {
    if |keys| == 0 then [] else DestinationRecords(req, keys[0]) + SuccessRecords(req, keys[1..])
  }

  /**
   The destination loop from `keys` on, after `history`: each destination in
   turn, stopping at the first failure. `Done` here means the loop finished.
   */
  function SyncFrom(req: SyncRequest, oci: OciSettings, keys: seq<string>, oracle: Oracle, history: seq<Command>): (r: Run)
    ensures r.status != ConfigMissing
    ensures |r.commands| <= StepsPerDestination * |keys|
    decreases |keys|
  {
    if |keys| == 0 then Run([], [], Done)
    else
      var d := SyncDestination(req, oci, keys[0], oracle, history);
      SyncDestinationRuns(req, oci, keys[0], oracle, history);
      if d.outcome.Err? then Run(d.commands, [CommandFailed(d.outcome.stderr)], Failed(d.outcome.stderr))
      else
        var rest := SyncFrom(req, oci, keys[1..], oracle, history + d.commands);
        Run(d.commands + rest.commands, DestinationRecords(req, keys[0]) + rest.records, rest.status)
  }

  /**
   One sync of `req`: refuse when a destination setting is missing or empty,
   otherwise run the destination loop over the split region keys and log the
   overall success when it finishes.
   */
  function Orchestrate(req: SyncRequest, cfg: Config, oracle: Oracle): (r: Run)
    ensures r.status == ConfigMissing <==> !ConfigComplete(cfg)
    ensures r.status == ConfigMissing ==> r.commands == [] && r.records == []
  {
    if !ConfigComplete(cfg) then Run([], [], ConfigMissing)
    else
      var loop := SyncFrom(req, Settings(cfg), Destinations(cfg), oracle, []);
      if loop.status.Done? then Run(loop.commands, loop.records + [ImageCopied], Done) else loop
  }

  // ---------------------------------------------------------------------------
  // The reference script each destination follows.
  // ---------------------------------------------------------------------------

  /**
   Step `k` of the fixed five-command script for destination `regionKey`;
   `prev` is the output of the command just before it, which steps 1 and 4
   use as the source password.
   */
  function ScriptStep(req: SyncRequest, oci: OciSettings, regionKey: string, k: nat, prev: string): Command
    requires k < StepsPerDestination
  {
    match k
    case 0 => GetEcrPassword(req.region)
    case 1 => LoginEcr(prev, req.account, req.region)
    case 2 => LoginOcir(regionKey, oci.tenancy, oci.username, oci.token)
    case 3 => GetEcrPassword(req.region)
    case _ => CopyCommand(req, oci, regionKey, prev)
  }

  /**
   The output of the command before position `j` of `t` (run after `history`),
   or the empty string at the start of a destination's script.
   */
  function PrevOutput(oracle: Oracle, history: seq<Command>, t: seq<Command>, j: nat): string
    requires j < |t|
  {
    if j % StepsPerDestination == 0 then "" else OutputOf(Execute(oracle, history + t[..j - 1], t[j - 1]))
  }

  /** The failure a status reports, if any. */
  function StatusFailure(status: Status): Option<string> {
    if status.Failed? then Some(status.stderr) else None
  }

  /** The region keys of the per-destination success records, in log order. */
  function SyncedKeys(records: seq<Record>): seq<string> {
    if |records| == 0 then []
    else if records[0].SyncedTo? then [records[0].regionKey] + SyncedKeys(records[1..])
    else SyncedKeys(records[1..])
  }

  /**
   The commands of `t` are the scripts of `keys` back to back: command `j` is
   step `j % 5` of the script for destination `keys[j / 5]`.
   */
  ghost predicate FollowsScript(req: SyncRequest, oci: OciSettings, keys: seq<string>, oracle: Oracle, history: seq<Command>, t: seq<Command>) {
    forall j :: 0 <= j < |t| ==> StepFollows(req, oci, keys, oracle, history, t, j)
  }

  /** Command `j` of `t` is step `j % 5` of the script for destination `keys[j / 5]`. */
  ghost predicate StepFollows(req: SyncRequest, oci: OciSettings, keys: seq<string>, oracle: Oracle, history: seq<Command>, t: seq<Command>, j: int) {
    && 0 <= j < |t|
    && j / StepsPerDestination < |keys|
    && t[j] == ScriptStep(req, oci, keys[j / StepsPerDestination], j % StepsPerDestination, PrevOutput(oracle, history, t, j))
  }

  // ---------------------------------------------------------------------------
  // Properties.
  // ---------------------------------------------------------------------------

  /**
   One destination runs a prefix of its five-command script, one to five
   commands long: all five whenever it succeeds; a failure ends it at the
   failing command, which may be the fifth. Each fetched password feeds the
   command right after it.
   */
  lemma SyncDestinationRuns(req: SyncRequest, oci: OciSettings, regionKey: string, oracle: Oracle, history: seq<Command>)
    ensures var s := SyncDestination(req, oci, regionKey, oracle, history);
      && 1 <= |s.commands| <= StepsPerDestination
      && (s.outcome.Ok? ==> |s.commands| == StepsPerDestination)
      && FollowsScript(req, oci, [regionKey], oracle, history, s.commands)
      && RanUntil(oracle, history, s.commands, FailureOf(s.outcome))
  {
    var s := SyncDestination(req, oci, regionKey, oracle, history);
    var c0 := GetEcrPassword(req.region);
    var o0 := Execute(oracle, history, c0);
    var p1 := [c0];
    var c1 := LoginEcr(OutputOf(o0), req.account, req.region);
    var o1 := Execute(oracle, history + p1, c1);
    var p2 := p1 + [c1];
    var c2 := LoginOcir(regionKey, oci.tenancy, oci.username, oci.token);
    var o2 := Execute(oracle, history + p2, c2);
    var p3 := p2 + [c2];
    var c3 := GetEcrPassword(req.region);
    var o3 := Execute(oracle, history + p3, c3);
    var p4 := p3 + [c3];
    var c4 := CopyCommand(req, oci, regionKey, OutputOf(o3));
    var o4 := Execute(oracle, history + p4, c4);
    var p5 := p4 + [c4];
    var n := if o0.Err? then 1 else if o1.Err? then 2 else if o2.Err? then 3 else if o3.Err? then 4 else 5;
    var outcomes := [o0, o1, o2, o3, o4];
    assert s.commands == p5[..n] && s.outcome == outcomes[n - 1] by {
      assert history + p1 + [c1] == history + p2;
      assert history + p2 + [c2] == history + p3;
      assert history + p3 + [c3] == history + p4;
    }
    assert p5[..0] == [] && p5[..1] == p1 && p5[..2] == p2 && p5[..3] == p3 && p5[..4] == p4;
    assert history + p5[..0] == history;
    ScriptPrefixRuns(req, oci, regionKey, oracle, history, p5, outcomes, n);
  }

  /**
   The bookkeeping behind SyncDestinationRuns: a prefix of the script whose
   commands all succeeded but possibly the last follows the script and is a run.
   */
  lemma ScriptPrefixRuns(req: SyncRequest, oci: OciSettings, regionKey: string, oracle: Oracle, history: seq<Command>,
                         script: seq<Command>, outcomes: seq<Outcome>, n: nat)
    requires |script| == |outcomes| == StepsPerDestination
    requires 1 <= n <= StepsPerDestination
    requires forall k :: 0 <= k < StepsPerDestination ==> outcomes[k] == Execute(oracle, history + script[..k], script[k])
    requires forall k :: 0 <= k < StepsPerDestination ==>
      script[k] == ScriptStep(req, oci, regionKey, k, if k == 0 then "" else OutputOf(outcomes[k - 1]))
    requires forall k :: 0 <= k < n - 1 ==> outcomes[k].Ok?
    requires n < StepsPerDestination ==> outcomes[n - 1].Err?
    ensures FollowsScript(req, oci, [regionKey], oracle, history, script[..n])
    ensures RanUntil(oracle, history, script[..n], FailureOf(outcomes[n - 1]))
  {
    ScriptPrefixFollows(req, oci, regionKey, oracle, history, script, outcomes, n);
    var t := script[..n];
    forall j | 0 <= j < |t| && !(outcomes[n - 1].Err? && j == |t| - 1)
      ensures Succeeds(oracle, history + t[..j], t[j])
    {
      assert t[..j] == script[..j];
    }
    assert t[..n - 1] == script[..n - 1];
  }

  /** The first half of ScriptPrefixRuns: a prefix of the script follows the script. */
  lemma ScriptPrefixFollows(req: SyncRequest, oci: OciSettings, regionKey: string, oracle: Oracle, history: seq<Command>,
                            script: seq<Command>, outcomes: seq<Outcome>, n: nat)
    requires |script| == |outcomes| == StepsPerDestination
    requires 1 <= n <= StepsPerDestination
    requires forall k :: 0 <= k < StepsPerDestination ==>
      script[k] == ScriptStep(req, oci, regionKey, k, if k == 0 then "" else OutputOf(outcomes[k - 1]))
    requires forall k :: 0 <= k < StepsPerDestination ==> outcomes[k] == Execute(oracle, history + script[..k], script[k])
    ensures FollowsScript(req, oci, [regionKey], oracle, history, script[..n])
  {
    var t := script[..n];
    forall j | 0 <= j < |t|
      ensures StepFollows(req, oci, [regionKey], oracle, history, t, j)
    {
      assert j % StepsPerDestination == j && j / StepsPerDestination == 0;
      assert t[j] == script[j];
      if j > 0 {
        assert t[..j - 1] == script[..j - 1];
        assert PrevOutput(oracle, history, t, j) == OutputOf(outcomes[j - 1]);
      }
    }
  }

  /** A full destination script followed by the scripts of further destinations. */
  lemma FollowsScriptAppend(req: SyncRequest, oci: OciSettings, regionKey: string, keys: seq<string>, oracle: Oracle,
                            history: seq<Command>, d: seq<Command>, rest: seq<Command>)
    requires |d| == StepsPerDestination
    requires FollowsScript(req, oci, [regionKey], oracle, history, d)
    requires FollowsScript(req, oci, keys, oracle, history + d, rest)
    ensures FollowsScript(req, oci, [regionKey] + keys, oracle, history, d + rest)
  {
    var t := d + rest;
    var all := [regionKey] + keys;
    forall j | 0 <= j < |t|
      ensures StepFollows(req, oci, all, oracle, history, t, j)
    {
      if j < |d| {
        FollowsScriptAppendHead(req, oci, regionKey, keys, oracle, history, d, rest, j);
      } else {
        FollowsScriptAppendTail(req, oci, regionKey, keys, oracle, history, d, rest, j);
      }
    }
  }

  lemma FollowsScriptAppendHead(req: SyncRequest, oci: OciSettings, regionKey: string, keys: seq<string>, oracle: Oracle,
                                history: seq<Command>, d: seq<Command>, rest: seq<Command>, j: nat)
    requires |d| == StepsPerDestination && j < |d|
    requires FollowsScript(req, oci, [regionKey], oracle, history, d)
    ensures StepFollows(req, oci, [regionKey] + keys, oracle, history, d + rest, j)
  {
    var t := d + rest;
    assert StepFollows(req, oci, [regionKey], oracle, history, d, j);
    assert j / StepsPerDestination == 0 && j % StepsPerDestination == j;
    assert t[j] == d[j];
    if j > 0 {
      assert t[..j - 1] == d[..j - 1];
      assert t[j - 1] == d[j - 1];
    }
    assert PrevOutput(oracle, history, t, j) == PrevOutput(oracle, history, d, j);
  }

  lemma FollowsScriptAppendTail(req: SyncRequest, oci: OciSettings, regionKey: string, keys: seq<string>, oracle: Oracle,
                                history: seq<Command>, d: seq<Command>, rest: seq<Command>, j: nat)
    requires |d| == StepsPerDestination && |d| <= j < |d| + |rest|
    requires FollowsScript(req, oci, keys, oracle, history + d, rest)
    ensures StepFollows(req, oci, [regionKey] + keys, oracle, history, d + rest, j)
  {
    var k := j - |d|;
    assert StepFollows(req, oci, keys, oracle, history + d, rest, k);
    NextScript(k);
    PrevOutputShift(oracle, history, d, rest, k);
    assert (d + rest)[j] == rest[k];
    assert ([regionKey] + keys)[j / StepsPerDestination] == keys[k / StepsPerDestination];
  }

  /** Behind a full script `d`, the previous output at position `k` of `rest` is unchanged by the shift. */
  lemma PrevOutputShift(oracle: Oracle, history: seq<Command>, d: seq<Command>, rest: seq<Command>, k: nat)
    requires |d| == StepsPerDestination && k < |rest|
    ensures PrevOutput(oracle, history, d + rest, |d| + k) == PrevOutput(oracle, history + d, rest, k)
  {
    NextScript(k);
    if k % StepsPerDestination != 0 {
      HistoryAfter(history, d, rest, k - 1);
      assert (d + rest)[|d| + k - 1] == rest[k - 1];
    }
  }

  /** Position `k + 5` is the same script step as `k`, one destination later. */
  lemma NextScript(k: nat)
    ensures (k + StepsPerDestination) / StepsPerDestination == k / StepsPerDestination + 1
    ensures (k + StepsPerDestination) % StepsPerDestination == k % StepsPerDestination
  {
  }

  /** The destination loop runs the scripts of its destinations back to back. */
  lemma {:induction false} SyncFromFollowsScript(req: SyncRequest, oci: OciSettings, keys: seq<string>, oracle: Oracle, history: seq<Command>)
    ensures FollowsScript(req, oci, keys, oracle, history, SyncFrom(req, oci, keys, oracle, history).commands)
    decreases |keys|
  {
    if |keys| > 0 {
      var d := SyncDestination(req, oci, keys[0], oracle, history);
      SyncDestinationRuns(req, oci, keys[0], oracle, history);
      if d.outcome.Ok? {
        var rest := SyncFrom(req, oci, keys[1..], oracle, history + d.commands);
        SyncFromFollowsScript(req, oci, keys[1..], oracle, history + d.commands);
        assert [keys[0]] + keys[1..] == keys;
        FollowsScriptAppend(req, oci, keys[0], keys[1..], oracle, history, d.commands, rest.commands);
      } else {
        var t := d.commands;
        forall j | 0 <= j < |t|
          ensures StepFollows(req, oci, keys, oracle, history, t, j)
        {
          assert StepFollows(req, oci, [keys[0]], oracle, history, t, j);
        }
      }
    }
  }

  /** The destination loop stops at the first failing command. */
  lemma {:induction false} SyncFromStopsAtFailure(req: SyncRequest, oci: OciSettings, keys: seq<string>, oracle: Oracle, history: seq<Command>)
    ensures var r := SyncFrom(req, oci, keys, oracle, history);
      RanUntil(oracle, history, r.commands, StatusFailure(r.status))
    decreases |keys|
  {
    if |keys| > 0 {
      var d := SyncDestination(req, oci, keys[0], oracle, history);
      SyncDestinationRuns(req, oci, keys[0], oracle, history);
      if d.outcome.Ok? {
        var rest := SyncFrom(req, oci, keys[1..], oracle, history + d.commands);
        SyncFromStopsAtFailure(req, oci, keys[1..], oracle, history + d.commands);
        RanUntilAppend(oracle, history, d.commands, rest.commands, StatusFailure(rest.status));
      }
    }
  }

  /**
   When the loop finishes it has run five commands per destination and
   logged each destination's success, in order.
   */
  lemma {:induction false} SyncFromDoneRecords(req: SyncRequest, oci: OciSettings, keys: seq<string>, oracle: Oracle, history: seq<Command>)
    ensures var r := SyncFrom(req, oci, keys, oracle, history);
      r.status.Done? ==> |r.commands| == StepsPerDestination * |keys| && r.records == SuccessRecords(req, keys)
    decreases |keys|
  {
    if |keys| > 0 {
      var d := SyncDestination(req, oci, keys[0], oracle, history);
      SyncDestinationRuns(req, oci, keys[0], oracle, history);
      if d.outcome.Ok? {
        SyncFromDoneRecords(req, oci, keys[1..], oracle, history + d.commands);
      }
    }
  }

  /**
   The commands of failed run `r` end inside the script of some destination
   `i`; the records are the successes of the destinations before `i`, then the
   failure.
   */
  predicate FailedRecords(req: SyncRequest, keys: seq<string>, r: Run)
    requires r.status.Failed?
  {
    && 0 < |r.commands|
    && (|r.commands| - 1) / StepsPerDestination < |keys|
    && r.records == SuccessRecords(req, keys[..(|r.commands| - 1) / StepsPerDestination]) + [CommandFailed(r.status.stderr)]
  }

  /**
   When a command of destination `i` fails, the loop has logged the successes
   of the destinations before `i`, then the failure, and nothing after.
   */
  lemma {:induction false} SyncFromFailedRecords(req: SyncRequest, oci: OciSettings, keys: seq<string>, oracle: Oracle, history: seq<Command>)
    ensures SyncFrom(req, oci, keys, oracle, history).status.Failed? ==>
      FailedRecords(req, keys, SyncFrom(req, oci, keys, oracle, history))
    decreases |keys|
  {
    if |keys| > 0 {
      var d := SyncDestination(req, oci, keys[0], oracle, history);
      assert 1 <= |d.commands| <= StepsPerDestination && (d.outcome.Ok? ==> |d.commands| == StepsPerDestination) by {
        SyncDestinationRuns(req, oci, keys[0], oracle, history);
      }
      var r := SyncFrom(req, oci, keys, oracle, history);
      if d.outcome.Ok? {
        var rest := SyncFrom(req, oci, keys[1..], oracle, history + d.commands);
        assert r == Run(d.commands + rest.commands, DestinationRecords(req, keys[0]) + rest.records, rest.status);
        SyncFromFailedRecords(req, oci, keys[1..], oracle, history + d.commands);
        if rest.status.Failed? {
          var m := (|rest.commands| - 1) / StepsPerDestination;
          assert (|r.commands| - 1) / StepsPerDestination == m + 1;
          assert keys[..m + 1][0] == keys[0] && keys[..m + 1][1..] == keys[1..][..m];
          var head := DestinationRecords(req, keys[0]);
          var before := SuccessRecords(req, keys[1..][..m]);
          var failed := [CommandFailed(rest.status.stderr)];
          assert SuccessRecords(req, keys[..m + 1]) == head + before;
          assert rest.records == before + failed;
          assert r.records == head + rest.records;
          assert head + (before + failed) == (head + before) + failed;
        }
      } else {
        assert r == Run(d.commands, [CommandFailed(d.outcome.stderr)], Failed(d.outcome.stderr));
        assert keys[..0] == [];
        assert SuccessRecords(req, keys[..0]) + r.records == r.records;
      }
    }
  }

  /**
   The whole sync for a complete configuration: its commands are the scripts
   of the split region keys back to back, they all succeed but possibly the
   last, and the records tell which destinations received the image.
   */
  lemma OrchestrateRuns(req: SyncRequest, cfg: Config, oracle: Oracle)
    requires ConfigComplete(cfg)
    ensures var r := Orchestrate(req, cfg, oracle);
      var keys := Destinations(cfg);
      && FollowsScript(req, Settings(cfg), keys, oracle, [], r.commands)
      && RanUntil(oracle, [], r.commands, StatusFailure(r.status))
      && (r.status.Done? || r.status.Failed?)
      && (r.status.Done? ==>
            && |r.commands| == StepsPerDestination * |keys|
            && r.records == SuccessRecords(req, keys) + [ImageCopied])
      && (r.status.Failed? ==>
            && |r.commands| > 0
            && r.records == SuccessRecords(req, keys[..(|r.commands| - 1) / StepsPerDestination]) + [CommandFailed(r.status.stderr)])
  {
    var keys := Destinations(cfg);
    var oci := Settings(cfg);
    var loop := SyncFrom(req, oci, keys, oracle, []);
    var r := Orchestrate(req, cfg, oracle);
    OrchestrateIsLoop(req, cfg, oracle);
    assert FollowsScript(req, oci, keys, oracle, [], r.commands) by {
      SyncFromFollowsScript(req, oci, keys, oracle, []);
    }
    assert RanUntil(oracle, [], r.commands, StatusFailure(r.status)) by {
      SyncFromStopsAtFailure(req, oci, keys, oracle, []);
    }
    assert r.status.Done? ==> |r.commands| == StepsPerDestination * |keys| && r.records == SuccessRecords(req, keys) + [ImageCopied] by {
      SyncFromDoneRecords(req, oci, keys, oracle, []);
    }
    assert r.status.Failed? ==>
      && |r.commands| > 0
      && r.records == SuccessRecords(req, keys[..(|r.commands| - 1) / StepsPerDestination]) + [CommandFailed(r.status.stderr)]
    by {
      SyncFromFailedRecords(req, oci, keys, oracle, []);
    }
  }

  /** With a complete configuration the sync is the destination loop, plus the overall success when it finishes. */
  lemma OrchestrateIsLoop(req: SyncRequest, cfg: Config, oracle: Oracle)
    requires ConfigComplete(cfg)
    ensures var r := Orchestrate(req, cfg, oracle);
      var loop := SyncFrom(req, Settings(cfg), Destinations(cfg), oracle, []);
      && r.commands == loop.commands
      && r.status == loop.status
      && r.records == (if loop.status.Done? then loop.records + [ImageCopied] else loop.records)
  {
  }

  /** The success records name exactly the destinations they cover, in order. */
  lemma {:induction false} SyncedKeysOfSuccess(req: SyncRequest, keys: seq<string>)
    ensures SyncedKeys(SuccessRecords(req, keys)) == keys
    ensures |SuccessRecords(req, keys)| == 2 * |keys|
    decreases |keys|
  {
    if |keys| > 0 {
      SyncedKeysOfSuccess(req, keys[1..]);
      var rs := SuccessRecords(req, keys);
      assert rs[1..] == [SyncedTo(req.repo, req.tag, keys[0])] + SuccessRecords(req, keys[1..]);
      assert rs[1..][1..] == SuccessRecords(req, keys[1..]);
    }
  }

  /** Records that carry no success record add no synced key. */
  lemma {:induction false} SyncedKeysAppend(a: seq<Record>, b: seq<Record>)
    ensures SyncedKeys(a + b) == SyncedKeys(a) + SyncedKeys(b)
    decreases |a|
  {
    if |a| == 0 {
      assert a + b == b;
    } else {
      SyncedKeysAppend(a[1..], b);
      assert (a + b)[0] == a[0];
      assert (a + b)[1..] == a[1..] + b;
      if a[0].SyncedTo? {
        assert SyncedKeys(a + b) == [a[0].regionKey] + SyncedKeys(a[1..] + b);
        assert SyncedKeys(a) == [a[0].regionKey] + SyncedKeys(a[1..]);
      } else {
        assert SyncedKeys(a + b) == SyncedKeys(a[1..] + b);
        assert SyncedKeys(a) == SyncedKeys(a[1..]);
      }
    }
  }

  /**
   Abort on the first failure: when destination `i` has a failing command,
   the commands end inside destination `i`'s script with that command, no
   later destination is attempted, and only the destinations before `i` are
   logged as synced.
   */
  lemma FailureEndsTheSync(req: SyncRequest, cfg: Config, oracle: Oracle)
    requires ConfigComplete(cfg)
    requires Orchestrate(req, cfg, oracle).status.Failed?
    ensures var r := Orchestrate(req, cfg, oracle);
      var t := r.commands;
      var i := (|t| - 1) / StepsPerDestination;
      && i < |Destinations(cfg)|
      && FollowsScript(req, Settings(cfg), Destinations(cfg)[..i + 1], oracle, [], t)
      && Execute(oracle, t[..|t| - 1], t[|t| - 1]) == Err(r.status.stderr)
      && SyncedKeys(r.records) == Destinations(cfg)[..i]
      && r.records[|r.records| - 1] == CommandFailed(r.status.stderr)
  {
    FailureEndsTheCommands(req, cfg, oracle);
    FailureEndsTheRecords(req, cfg, oracle);
  }

  /** The commands of a failed sync end with the failing command, inside the script of the failing destination. */
  lemma FailureEndsTheCommands(req: SyncRequest, cfg: Config, oracle: Oracle)
    requires ConfigComplete(cfg)
    requires Orchestrate(req, cfg, oracle).status.Failed?
    ensures var r := Orchestrate(req, cfg, oracle);
      var t := r.commands;
      var i := (|t| - 1) / StepsPerDestination;
      && 0 < |t|
      && i < |Destinations(cfg)|
      && FollowsScript(req, Settings(cfg), Destinations(cfg)[..i + 1], oracle, [], t)
      && Execute(oracle, t[..|t| - 1], t[|t| - 1]) == Err(r.status.stderr)
  {
    var r := Orchestrate(req, cfg, oracle);
    var t := r.commands;
    var keys := Destinations(cfg);
    var oci := Settings(cfg);
    assert |t| > 0 && FollowsScript(req, oci, keys, oracle, [], t) by {
      OrchestrateRuns(req, cfg, oracle);
    }
    var i := (|t| - 1) / StepsPerDestination;
    assert StepFollows(req, oci, keys, oracle, [], t, |t| - 1);
    FollowsFewerKeys(req, oci, keys, oracle, [], t, i + 1);
    assert Execute(oracle, t[..|t| - 1], t[|t| - 1]) == Err(r.status.stderr) by {
      OrchestrateRuns(req, cfg, oracle);
      assert [] + t[..|t| - 1] == t[..|t| - 1];
    }
  }

  /** A failed sync logs as synced only the destinations before the failing one, and the failure last. */
  lemma FailureEndsTheRecords(req: SyncRequest, cfg: Config, oracle: Oracle)
    requires ConfigComplete(cfg)
    requires Orchestrate(req, cfg, oracle).status.Failed?
    ensures var r := Orchestrate(req, cfg, oracle);
      var i := (|r.commands| - 1) / StepsPerDestination;
      && 0 <= i < |Destinations(cfg)|
      && SyncedKeys(r.records) == Destinations(cfg)[..i]
      && r.records[|r.records| - 1] == CommandFailed(r.status.stderr)
  {
    var r := Orchestrate(req, cfg, oracle);
    var keys := Destinations(cfg);
    FailureEndsTheCommands(req, cfg, oracle);
    var i := (|r.commands| - 1) / StepsPerDestination;
    var failed := [CommandFailed(r.status.stderr)];
    assert r.records == SuccessRecords(req, keys[..i]) + failed by {
      OrchestrateRuns(req, cfg, oracle);
    }
    SyncedKeysOfSuccess(req, keys[..i]);
    SyncedKeysAppend(SuccessRecords(req, keys[..i]), failed);
    assert SyncedKeys(failed) == [];
  }

  /** Commands that stay within the first `n` scripts follow the scripts of the first `n` keys alone. */
  lemma FollowsFewerKeys(req: SyncRequest, oci: OciSettings, keys: seq<string>, oracle: Oracle, history: seq<Command>,
                         t: seq<Command>, n: nat)
    requires n <= |keys| && |t| <= StepsPerDestination * n
    requires FollowsScript(req, oci, keys, oracle, history, t)
    ensures FollowsScript(req, oci, keys[..n], oracle, history, t)
  {
    forall j | 0 <= j < |t|
      ensures StepFollows(req, oci, keys[..n], oracle, history, t, j)
    {
      assert StepFollows(req, oci, keys, oracle, history, t, j);
      assert j / StepsPerDestination < n;
    }
  }

  /**
   A sync finishes exactly when its commands are five per destination and
   every one of them succeeded; it then has logged every destination as
   synced, in list order, and the overall success last.
   */
  lemma DoneIffAllSucceeded(req: SyncRequest, cfg: Config, oracle: Oracle)
    requires ConfigComplete(cfg)
    ensures var r := Orchestrate(req, cfg, oracle);
      var t := r.commands;
      (r.status.Done? <==>
        && |t| == StepsPerDestination * |Destinations(cfg)|
        && forall j :: 0 <= j < |t| ==> Succeeds(oracle, t[..j], t[j]))
    ensures var r := Orchestrate(req, cfg, oracle);
      r.status.Done? ==> SyncedKeys(r.records) == Destinations(cfg) && r.records[|r.records| - 1] == ImageCopied
  {
    var r := Orchestrate(req, cfg, oracle);
    var keys := Destinations(cfg);
    OrchestrateRuns(req, cfg, oracle);
    if r.status.Done? {
      SyncedKeysOfSuccess(req, keys);
      SyncedKeysAppend(SuccessRecords(req, keys), [ImageCopied]);
      assert SyncedKeys([ImageCopied]) == [];
      assert forall j :: 0 <= j < |r.commands| ==> [] + r.commands[..j] == r.commands[..j];
    } else {
      var t := r.commands;
      assert [] + t[..|t| - 1] == t[..|t| - 1];
      assert !Succeeds(oracle, t[..|t| - 1], t[|t| - 1]);
    }
  }

  /** When every command succeeds the sync reaches every destination. */
  lemma AllSucceedingCommandsSyncEverything(req: SyncRequest, cfg: Config, oracle: Oracle)
    requires ConfigComplete(cfg)
    requires forall h, c :: oracle(h, c).exitCode == 0
    ensures var r := Orchestrate(req, cfg, oracle);
      && r.status == Done
      && |r.commands| == StepsPerDestination * |Destinations(cfg)|
      && SyncedKeys(r.records) == Destinations(cfg)
  {
    var r := Orchestrate(req, cfg, oracle);
    OrchestrateRuns(req, cfg, oracle);
    DoneIffAllSucceeded(req, cfg, oracle);
  }

  /**
   Every copy uses the password fetched by the command right before it, copies
   the request's image from the source registry, and targets the destination
   of its own position in the region-key list.
   */
  lemma CopyUsesPrecedingPassword(req: SyncRequest, cfg: Config, oracle: Oracle, t: seq<Command>, j: nat)
    requires ConfigComplete(cfg)
    requires t == Orchestrate(req, cfg, oracle).commands
    requires j < |t| && j % StepsPerDestination == 4
    ensures j / StepsPerDestination < |Destinations(cfg)|
    ensures t[j - 1] == GetEcrPassword(req.region)
    ensures t[j] == CopyCommand(req, Settings(cfg), Destinations(cfg)[j / StepsPerDestination], OutputOf(Execute(oracle, t[..j - 1], t[j - 1])))
  {
    var keys := Destinations(cfg);
    var oci := Settings(cfg);
    assert FollowsScript(req, oci, keys, oracle, [], t) by {
      OrchestrateRuns(req, cfg, oracle);
    }
    assert (j - 1) % StepsPerDestination == 3 && (j - 1) / StepsPerDestination == j / StepsPerDestination;
    assert StepFollows(req, oci, keys, oracle, [], t, j - 1);
    assert StepFollows(req, oci, keys, oracle, [], t, j);
    assert [] + t[..j - 1] == t[..j - 1];
  }

  /**
   The copy's two references name one image: the source reference lies under
   the registry host the preceding source login targeted, the destination
   reference under the tenancy namespace of the host the preceding destination
   login targeted, and both carry the request's repository and tag.
   */
  lemma CopyRefsNameOneImage(req: SyncRequest, cfg: Config, oracle: Oracle, t: seq<Command>, j: nat)
    requires ConfigComplete(cfg)
    requires t == Orchestrate(req, cfg, oracle).commands
    requires j < |t| && j % StepsPerDestination == 4
    requires ':' !in req.tag
    ensures t[j - 3].LoginEcr? && t[j - 3].account == req.account && t[j - 3].region == req.region
    ensures t[j - 2].LoginOcir? && t[j].SkopeoCopy?
    ensures Parse(SourceRef(t[j].src)) == Some(ImageRef(EcrRegistry(t[j - 3].account, t[j - 3].region) + "/" + req.repo, req.tag))
    ensures Parse(DestRef(t[j].dest)) == Some(ImageRef(OcirRegistry(t[j - 2].regionKey) + "/" + cfg.tenancy.value + "/" + req.repo, req.tag))
  {
    var keys := Destinations(cfg);
    var oci := Settings(cfg);
    assert FollowsScript(req, oci, keys, oracle, [], t) by {
      OrchestrateRuns(req, cfg, oracle);
    }
    var key := keys[j / StepsPerDestination];
    assert (j - 3) % StepsPerDestination == 1 && (j - 3) / StepsPerDestination == j / StepsPerDestination;
    assert (j - 2) % StepsPerDestination == 2 && (j - 2) / StepsPerDestination == j / StepsPerDestination;
    assert StepFollows(req, oci, keys, oracle, [], t, j - 3);
    assert StepFollows(req, oci, keys, oracle, [], t, j - 2);
    assert StepFollows(req, oci, keys, oracle, [], t, j);
    assert t[j].src == SourceImage(req.account, req.region, req.repo, req.tag);
    assert t[j].dest == DestImage(key, oci.tenancy, req.repo, req.tag);
    ParseRender(ImageRef(EcrRegistry(req.account, req.region) + "/" + req.repo, req.tag));
    ParseRender(ImageRef(OcirRegistry(key) + "/" + cfg.tenancy.value + "/" + req.repo, req.tag));
  }

  /** Position `j` of a sync's commands holds a copy exactly at the fifth step of a script. */
  lemma CopiesAtFifthStep(req: SyncRequest, cfg: Config, oracle: Oracle, t: seq<Command>, j: nat)
    requires ConfigComplete(cfg)
    requires t == Orchestrate(req, cfg, oracle).commands
    requires j < |t|
    ensures t[j].SkopeoCopy? <==> j % StepsPerDestination == 4
  {
    assert FollowsScript(req, Settings(cfg), Destinations(cfg), oracle, [], t) by {
      OrchestrateRuns(req, cfg, oracle);
    }
    assert StepFollows(req, Settings(cfg), Destinations(cfg), oracle, [], t, j);
  }

  /**
   When exactly the copies fail, the sync fails at the first destination's
   copy, after its five commands, with nothing logged as synced.
   */
  lemma OnlyCopiesFail(req: SyncRequest, cfg: Config, oracle: Oracle)
    requires ConfigComplete(cfg)
    requires forall h, c :: oracle(h, c).exitCode == 0 <==> !c.SkopeoCopy?
    ensures var r := Orchestrate(req, cfg, oracle);
      && r.status.Failed?
      && |r.commands| == StepsPerDestination
      && r.commands[4].SkopeoCopy?
      && r.status.stderr == oracle(r.commands[..4], r.commands[4]).stderr
      && SyncedKeys(r.records) == []
  {
    var r := Orchestrate(req, cfg, oracle);
    var t := r.commands;
    OrchestrateRuns(req, cfg, oracle);
    DoneIffAllSucceeded(req, cfg, oracle);
    if 4 < |t| {
      CopiesAtFifthStep(req, cfg, oracle, t, 4);
      assert !Succeeds(oracle, t[..4], t[4]);
    }
    assert r.status.Failed?;
    var last := |t| - 1;
    assert [] + t[..last] == t[..last];
    assert !Succeeds(oracle, t[..last], t[last]);
    CopiesAtFifthStep(req, cfg, oracle, t, last);
    assert last == 4;
    FailureEndsTheSync(req, cfg, oracle);
    assert Destinations(cfg)[..0] == [];
  }
}
