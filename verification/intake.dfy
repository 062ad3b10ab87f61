/**
 The background task started for every inbound event: it reads the event,
 syncs only image pushes, and catches every error so that it only reaches the
 log. The caller has already been acknowledged when the task starts, so
 nothing the task does is reported back.
 */
module Intake {
  import opened Optional
  import opened Commands
  import opened Executor
  import opened Sync

  /** The `detail` object of an event; each key may be missing. */
  datatype Detail = Detail(actionType: Option<string>, repositoryName: Option<string>, imageTag: Option<string>)

  /** An inbound event body; each key may be missing. */
  datatype Event = Event(detail: Option<Detail>, account: Option<string>, region: Option<string>)

  /** The one action that triggers a sync; any other action is ignored. */
  const PushAction := "PUSH"

  const ConfigErrorMessage := "Missing required environment variables: OCI_REPO_REGION_KEY, OCI_TENANCY, OCI_USERNAME, OCI_AUTH_TOKEN"

  /** The text of a missing-key error: the key in single quotes. */
  function KeyErrorMessage(key: string): string {
    "'" + key + "'"
  }

  function CommandErrorMessage(stderr: string): string {
    "Command failed: " + stderr
  }

  /** The task's last word in the log, if it has one. */
  datatype Report = Silent | SyncedImage(repo: string, tag: string) | ErrorLogged(message: string)

  /** Everything one background task did. */
  datatype Task = Task(commands: seq<Command>, records: seq<Record>, report: Report)

  /** Reading the sync request out of an event: the request, or the first key found missing. */
  datatype Lookup = Found(req: SyncRequest) | MissingKey(key: string)

  /**
   Reads repository name, image tag, account and region, in that order; the
   first one missing stops the reading.
   */
  function ReadRequest(body: Event, detail: Detail): (l: Lookup)
    ensures l.Found? <==> detail.repositoryName.Some? && detail.imageTag.Some? && body.account.Some? && body.region.Some?
    ensures l.Found? ==> l.req == SyncRequest(detail.repositoryName.value, detail.imageTag.value, body.account.value, body.region.value)
    ensures l.MissingKey? ==> l.key == FirstMissingKey(body, detail)
  {
    match (detail.repositoryName, detail.imageTag, body.account, body.region)
    case (None, _, _, _) => MissingKey("repository-name")
    case (_, None, _, _) => MissingKey("image-tag")
    case (_, _, None, _) => MissingKey("account")
    case (_, _, _, None) => MissingKey("region")
    case (Some(repo), Some(tag), Some(account), Some(region)) => Found(SyncRequest(repo, tag, account, region))
  }

  /**
   The key a failed read reports: the first absent one in the order the
   handler reads them, which is the order of the sync call's arguments.
   */
  function FirstMissingKey(body: Event, detail: Detail): string {
    if detail.repositoryName.None? then "repository-name"
    else if detail.imageTag.None? then "image-tag"
    else if body.account.None? then "account"
    else "region"
  }

  /** How a finished sync is reported by the task. */
  function ReportOf(req: SyncRequest, status: Status): Report {
    match status
    case Done => SyncedImage(req.repo, req.tag)
    case ConfigMissing => ErrorLogged(ConfigErrorMessage)
    case Failed(stderr) => ErrorLogged(CommandErrorMessage(stderr))
  }

  /**
   The background task for one event: a missing `detail` or `action-type`
   is logged and nothing runs; an action other than exactly `PUSH` does
   nothing at all; a push runs one sync and logs how it ended.
   */
  function AsyncTask(body: Event, cfg: Config, oracle: Oracle): (t: Task)
    ensures t.commands != [] ==> body.detail.Some? && body.detail.value.actionType == Some(PushAction)
  {
    match body.detail
    case None => Task([], [], ErrorLogged(KeyErrorMessage("detail")))
    case Some(detail) =>
      match detail.actionType
      case None => Task([], [], ErrorLogged(KeyErrorMessage("action-type")))
      case Some(action) =>
        if action != PushAction then Task([], [], Silent)
        else
          match ReadRequest(body, detail)
          case MissingKey(key) => Task([], [], ErrorLogged(KeyErrorMessage(key)))
          case Found(req) =>
            var r := Orchestrate(req, cfg, oracle);
            Task(r.commands, r.records, ReportOf(req, r.status))
  }

  /** An event whose action is anything but `PUSH` runs nothing and logs nothing. */
  lemma NonPushIsIgnored(body: Event, cfg: Config, oracle: Oracle)
    requires body.detail.Some? && body.detail.value.actionType.Some?
    requires body.detail.value.actionType.value != PushAction
    ensures AsyncTask(body, cfg, oracle) == Task([], [], Silent)
  {
  }

  /**
   An event without `detail` or without `action-type` runs nothing; the
   missing key is only logged, never raised to anyone.
   */
  lemma MissingActionOnlyLogged(body: Event, cfg: Config, oracle: Oracle)
    requires body.detail.None? || body.detail.value.actionType.None?
    ensures var t := AsyncTask(body, cfg, oracle);
      && t.commands == [] && t.records == []
      && t.report == ErrorLogged(KeyErrorMessage(if body.detail.None? then "detail" else "action-type"))
  {
  }

  /**
   A push with a field missing runs nothing; the first missing key is only
   logged, never raised to anyone.
   */
  lemma PushMissingFieldOnlyLogged(body: Event, cfg: Config, oracle: Oracle)
    requires body.detail.Some? && body.detail.value.actionType == Some(PushAction)
    requires body.detail.value.repositoryName.None? || body.detail.value.imageTag.None? || body.account.None? || body.region.None?
    ensures var t := AsyncTask(body, cfg, oracle);
      && t.commands == [] && t.records == []
      && t.report == ErrorLogged(KeyErrorMessage(FirstMissingKey(body, body.detail.value)))
  {
  }

  /**
   A push whose fields are all present runs exactly one sync of that image:
   its commands and records are the task's, and the task reports that image
   as synced exactly when the sync finished; otherwise it logs the
   configuration error or the failed command's stderr.
   */
  lemma PushRunsOneSync(body: Event, cfg: Config, oracle: Oracle)
    requires body.detail.Some? && body.detail.value.actionType == Some(PushAction)
    requires ReadRequest(body, body.detail.value).Found?
    ensures var req := ReadRequest(body, body.detail.value).req;
      var r := Orchestrate(req, cfg, oracle);
      var t := AsyncTask(body, cfg, oracle);
      && t.commands == r.commands
      && t.records == r.records
      && (t.report.SyncedImage? <==> r.status.Done?)
      && (t.report.ErrorLogged? <==> !r.status.Done?)
      && (r.status.Done? ==> t.report == SyncedImage(req.repo, req.tag))
      && (r.status.Failed? ==> t.report == ErrorLogged(CommandErrorMessage(r.status.stderr)))
      && (!ConfigComplete(cfg) ==> t.report == ErrorLogged(ConfigErrorMessage) && t.commands == [])
  {
  }
}
