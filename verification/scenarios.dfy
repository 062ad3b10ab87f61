/**
 Two worked scenarios: the image `svc-api:v1.2.3` of account 111111111111 in
 us-east-1, synced to the destinations `region-a,region-b`.
 */
module Scenarios {
  import opened Optional
  import opened Text
  import opened Commands
  import opened Executor
  import opened Sync

  const Req := SyncRequest("svc-api", "v1.2.3", "111111111111", "us-east-1")

  const Cfg := Config(Some("region-a,region-b"), Some("tenancy"), Some("user"), Some("token"))

  /** Every command succeeds; password fetches print a password and a newline. */
  function AllSucceed(history: seq<Command>, c: Command): CommandResult {
    CommandResult(0, "secret\n", "")
  }

  /** Every copy is refused; everything else succeeds. */
  function CopyRefused(history: seq<Command>, c: Command): CommandResult {
    if c.SkopeoCopy? then CommandResult(1, "", "denied") else CommandResult(0, "secret\n", "")
  }

  /** The configured list splits into the two region keys, in order. */
  lemma ScenarioDestinations()
    ensures ConfigComplete(Cfg)
    ensures Destinations(Cfg) == ["region-a", "region-b"]
  {
    var keys := ["region-a", "region-b"];
    assert Join(keys, ',') == "region-a,region-b";
    SplitJoin(keys, ',');
  }

  /** When everything succeeds both destinations are synced, region-a first. */
  lemma BothRegionsSynced()
    ensures var r := Orchestrate(Req, Cfg, AllSucceed);
      && r.status == Done
      && |r.commands| == 10
      && SyncedKeys(r.records) == ["region-a", "region-b"]
  {
    ScenarioDestinations();
    AllSucceedingCommandsSyncEverything(Req, Cfg, AllSucceed);
  }

  /**
   When region-a's copy is refused the sync fails with the copy's stderr after
   region-a's five commands; region-b is never attempted and nothing is logged
   as synced.
   */
  lemma FirstCopyRefused()
    ensures var r := Orchestrate(Req, Cfg, CopyRefused);
      && r.status == Failed("denied")
      && |r.commands| == 5
      && SyncedKeys(r.records) == []
  {
    ScenarioDestinations();
    OnlyCopiesFail(Req, Cfg, CopyRefused);
    var r := Orchestrate(Req, Cfg, CopyRefused);
    assert CopyRefused(r.commands[..4], r.commands[4]).stderr == "denied";
  }
}
