# ECR-to-OCIR image sync, modelled in Dafny

The sync handler is a small webhook service. An event announces that an image
was pushed to an AWS ECR repository. The handler then copies that image to one
or more Oracle OCIR registries, one per configured region key. For each
destination it:

1. fetches an ECR password and logs in to ECR with it;
2. logs in to the destination registry with the configured tenancy, user and
   auth token;
3. fetches a second ECR password and runs `skopeo copy` with both credentials
   given inline.

The first command that fails ends the whole sync. The outcome goes only to
the log.

The model covers:

- **`run_command`**: how a command result is classified (`Executor.RunCommand`).
  A zero exit code gives the output, with Python's `str.strip()` whitespace
  removed. Any other exit code gives stderr.
- **Command lines**: the four shell command lines and the two image
  references (`Commands`).
- **`authenticate_ecr`, `authenticate_ocir` and `sync_image`**, and the
  `syncImageHandler` loop: the configuration check, the split of the
  region-key list on `,` and the abort on the first failure (`Sync`).
- **The event gate of `async_task`** (`Intake`).

External commands are not run. An *oracle* stands in for them: a function
from the commands run so far and the next command to its exit code, stdout
and stderr. The oracle depends on that history, so the two password fetches
of one destination may return different passwords. The model shows that the
copy uses the password fetched just before it.

Files:

- `text.dfy`: Python's `strip` and `split`.
- `commands.dfy`: commands, registry hosts, image references and command lines.
- `executor.dfy`: command classification and what it means for a command list
  to have run.
- `sync.dfy`: the orchestration and its main theorems.
- `intake.dfy`: the background task.
- `scenarios.dfy`: two concrete runs.
- `optional.dfy`: the `Option` type.

## Behaviour worth noting

- **Missing `action-type`**: the 200 response is sent as soon as the
  background thread starts, so it never depends on the event's content. A
  missing `detail` or `action-type` raises a `KeyError` inside the thread,
  which is caught and only logged (`Intake.MissingActionOnlyLogged`).
- **The push action**: only an action type of exactly `"PUSH"` starts a sync.
  Any other value, another spelling included, is ignored without a log line
  (`Intake.NonPushIsIgnored`).
- **Other missing fields**: the repository name, tag, account and region are
  read only for a `"PUSH"` event. For other events their absence goes
  unnoticed. For a push, the first missing one, in the order of the sync
  call's arguments, is logged and nothing runs (`Intake.PushMissingFieldOnlyLogged`).

## Model

| member | source | states |
|---|---|---|
| Executor.RunCommand | synchandler/handler.py:29-33 | a command succeeds exactly when its exit code is 0; a failure carries the command's stderr unchanged |
| Executor.SuccessOutputIsTrimmed | synchandler/handler.py:32-33 | a success's output is the stdout with exactly its surrounding whitespace removed (a slice with non-whitespace ends, whitespace-only outside), and stripping it again changes nothing |
| Text.StripTrims | synchandler/handler.py:33 | Python's strip leaves a slice of the input whose ends are not whitespace and outside which everything is whitespace |
| Text.StripUnique | synchandler/handler.py:33 | any slice with whitespace-only surroundings and non-whitespace ends is the strip, so that characterisation determines it |
| Text.StripIdempotent | synchandler/handler.py:32-33 | stripping twice gives the same as stripping once |
| Text.Split | synchandler/handler.py:87 | Python's split on `,` always gives at least one piece, no piece holds a comma, and joining the pieces with commas gives the input back (nothing trimmed, empty pieces kept) |
| Text.SplitJoin | synchandler/handler.py:87-88 | splitting comma-joined comma-free pieces gives exactly those pieces back, in order |
| Commands.SourceRef | synchandler/handler.py:49 | computes the source reference `<account>.dkr.ecr.<region>.amazonaws.com/<repo>:<tag>`, character for character as the f-string at line 49 |
| Commands.DestRef | synchandler/handler.py:50 | computes the destination reference `<key>.ocir.io/<tenancy>/<repo>:<tag>`, character for character as the f-string at line 50 |
| Commands.CommandLine | synchandler/handler.py:38-64 | computes the shell line of each command, character for character as the f-strings of the password fetch (38), the ECR login (39), the OCIR login (44) and the copy (63-64) |
| Commands.SecretsInCommandLine | synchandler/handler.py:24-28 | every password or token a command carries appears in plain text in the command line handed to the shell; that line reaches the log only at debug level, which the configured INFO level suppresses |
| Commands.ParseRender | synchandler/handler.py:49-50 | splitting a `name:tag` reference at its last colon gives back name and tag whenever the tag has no colon |
| Sync.AuthenticateEcr | synchandler/handler.py:35-39 | computes the password fetch, then, only when it succeeded, the ECR login given the fetch's stripped output; a failing command ends the step with its stderr |
| Sync.AuthenticateOcir | synchandler/handler.py:41-44 | computes the single OCIR login for one region key with the configured tenancy, user name and token |
| Sync.SyncImage | synchandler/handler.py:47-66 | computes a fresh password fetch, then, only when it succeeded, the copy of the request's image with that password; a failing command ends the step |
| Sync.CopyCommand | synchandler/handler.py:49-50 | computes the copy command: source credential `AWS` with the given password, destination credential `<tenancy>/<user>` with the token, the request's image in the source registry and under the tenancy in the key's registry |
| Sync.SyncDestination | synchandler/handler.py:92-94 | computes ECR login, OCIR login and image copy for one key in that order, each only when the previous one succeeded; its meaning is stated by `Sync.SyncDestinationRuns` |
| Sync.SyncDestinationRuns | synchandler/handler.py:35-64 | one destination runs a prefix of the five-command script (get password, ECR login with it, OCIR login for its key, get password, copy with it); all five whenever it succeeds; a failure ends it at the failing command, which may be the fifth (the copy); every command but a failing last one succeeded |
| Sync.SyncFrom | synchandler/handler.py:86-95 | the destination loop never reports a configuration error and runs at most five commands per destination |
| Sync.Orchestrate | synchandler/handler.py:76-82 | the sync reports the configuration error exactly when one of the four settings is missing or empty, and then has run no command and logged nothing |
| Sync.OrchestrateRuns | synchandler/handler.py:69-103 | with a complete configuration the commands are the scripts of the split region keys back to back, all succeeded but possibly the last, and the records are one pair per finished destination followed by the overall success or the failure |
| Sync.FailureEndsTheSync | synchandler/handler.py:88-95 | when the sync fails inside destination i's script, the commands follow only the scripts of the destinations up to i and end with the failing command, so no later destination is attempted; only destinations before i are logged as synced, and the failure is logged last |
| Sync.DoneIffAllSucceeded | synchandler/handler.py:95-103 | the sync finishes exactly when it ran five commands per destination and each succeeded; it has then logged every destination as synced in list order and the overall success last |
| Sync.AllSucceedingCommandsSyncEverything | synchandler/handler.py:88-103 | when no command fails, every destination is reached in list order with five commands each |
| Sync.CopyUsesPrecedingPassword | synchandler/handler.py:47-64 | every copy follows a password fetch and is exactly the copy of the request's image to the destination of its position in the list, with that fetch's output as the source credential |
| Sync.CopyRefsNameOneImage | synchandler/handler.py:35-64 | each copy pulls from the ECR host the login three commands earlier targeted and pushes under the tenancy namespace of the OCIR host the login two commands earlier targeted; both references read back as the request's repository and tag |
| Sync.CopiesAtFifthStep | synchandler/handler.py:92-94 | in any sync, a command is a copy exactly at the fifth position of a destination's script |
| Sync.OnlyCopiesFail | synchandler/handler.py:88-95 | when exactly the copies fail, the sync fails after the first destination's five commands, the fifth being its copy, with that copy's stderr, and logs no destination as synced |
| Sync.SyncedKeysOfSuccess | synchandler/handler.py:95 | the per-destination success records name exactly the destinations they cover, in order, two records per destination |
| Intake.ReadRequest | synchandler/handler.py:111-113 | the request is read exactly when repository name, tag, account and region are all present, from those four values; otherwise the key reported missing is the first absent one in the order of the sync call's arguments |
| Intake.ReportOf | synchandler/handler.py:114-116 | computes the task's last log entry: the request's repository and tag as synced when the sync finished, otherwise the error text the background task logs (the configuration message, or `Command failed: ` with the stderr) |
| Intake.AsyncTask | synchandler/handler.py:108-116 | the task runs a command only for an event whose detail has action type exactly `PUSH` |
| Intake.NonPushIsIgnored | synchandler/handler.py:111-112 | an event whose action is anything but `PUSH` runs nothing and logs nothing |
| Intake.MissingActionOnlyLogged | synchandler/handler.py:110-116 | an event without `detail` or `action-type` runs nothing; the missing key is logged as an error and goes no further |
| Intake.PushMissingFieldOnlyLogged | synchandler/handler.py:110-116 | a push event missing its repository name, tag, account or region runs nothing and logs nothing but the error naming the first missing key |
| Intake.PushRunsOneSync | synchandler/handler.py:112-116 | a complete push event runs exactly one sync of its image; when that sync finished the task reports that repository and tag as synced, when a command failed it logs `Command failed: ` followed by the stderr, and an incomplete configuration is logged and runs nothing |
| Scenarios.ScenarioDestinations | synchandler/handler.py:87 | the list `region-a,region-b` splits into its two keys in order |
| Scenarios.BothRegionsSynced | synchandler/handler.py:86-103 | when everything succeeds, both regions are synced after ten commands, region-a first |
| Scenarios.FirstCopyRefused | synchandler/handler.py:88-95 | when region-a's copy is refused, the sync fails with the copy's stderr after five commands and region-b is never attempted |

## Left out

- The Flask route, JSON parsing and the HTTP responses (handler.py lines 105-131) are web plumbing. The 200 response is sent before any field is read.
- Thread dispatch (lines 124-125) and the race on the process-wide podman login session between concurrent tasks are concurrency, which this sequential model does not cover.
- `subprocess.run` with `shell=True`, shell quoting and injection through interpolated values, and the aws, podman and skopeo tools themselves are replaced by the oracle.
- Logging configuration (lines 12-22) and the info-level progress messages (lines 37, 43, 52, 71, 90) are left out. Only the records that report an outcome are modelled. The debug lines (27, 32) print nothing at the configured INFO level; what line 27 would reveal at debug level is the command line itself (`Commands.SecretsInCommandLine`).
- Credential redaction is only a TODO (line 26), so it has no behaviour to model.
- Reading environment variables (lines 76-79) is replaced by `Option<string>` configuration values. `sync_image` reads the user name and token a second time (lines 58-59); the model takes those to be the same values checked at lines 78-79.
- The unused `oci` import (line 5) has no behaviour.
- The `except KeyError` branch of `syncImageHandler` (lines 98-100) cannot be reached: nothing inside its `try` raises a `KeyError`. The configuration `ValueError` and command failures propagate to the background task, which logs them.
- JSON values that are not strings, and a body or `detail` that is not an object, are not modelled. Every present field is a string.
- Commands.ParseRender: stated only for tags without a colon, because a tag with a colon cannot be told apart from a name with one.
- Sync.CopyRefsNameOneImage: stated only for tags without a colon, for the same reason as `Commands.ParseRender`; the copy command itself is stated for every tag by `Sync.CopyUsesPrecedingPassword`.
