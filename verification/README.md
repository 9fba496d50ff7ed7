# GhostMonitor, modelled and verified in Dafny

GhostMonitor is a self-hosted monitoring server. This project models its stateful engines and
proves what holds of them over every input and every run:

- the **alert pipeline**: triggers are evaluated against fresh values or windows of history, flips
  open and resolve problem events, users acknowledge them, and a ladder of escalation steps is
  polled (`AlertModel`, `Escalation`, `AlertStore`, `AlertRuns`, `AlertTraces`, `AlertRules`,
  `HostOverview`);
- **history, trends and retention**: hourly rollups, then the prune of raw samples, then the prune
  of trends (`History`, `Trends`, `TrendRuns`, `TrendRules`, `Poller`);
- the **rate limiter**: a dictionary of deques with an occasional sweep (`RateLimiter`,
  `RateLimiterRuns`);
- the **probe scheduler**: retries, status alerts, reconciliation of the job table (`ProbeJobs`,
  `JobRules`, `Reconciler`);
- **zero-knowledge tokens** and **sealed configuration** (`Base64Url`, `Tokens`, `SealedConfig`);
- **provisioning**: discovery scans and templates (`Provisioning`).

Each engine has two layers. Classes with methods (`Store`, `TrendStore`, `RateLimiter`,
`ProbeWorker`, `JobTable`, `Item`, `Channel`, `InventoryStore`) update their tables step by step as
the services do; every method is proved against a function of the old state. The run theorems are
lemmas about those functions, so they hold for the methods. What the functions themselves mean is
stated in terms of columns, constants and samples by the `...Rule` lemmas.

## Conventions

- Instants and delays are exact integers of microseconds; metric values and averages are reals.
- A service call is one atomic step. Two interleaved evaluations of one trigger could both read
  OK; the pipeline invariant is about serialized calls.
- A SELECT without ORDER BY returns its rows in an order the database picks. That order is a
  parameter (`rows`, `problems`) and the theorems hold for every order.
- `evaluate` and `evaluate_item` repeat the same loop; `Store.Evaluate` is both, and `Request` says
  which. They differ in what they observe and in when the caller stores the new sample: a probe job
  evaluates before mirroring its latency (`ProbeWorker.Conclude`), an item after storing it.
- AES-GCM, Argon2id, UTF-8, Fernet and network probes are function-valued parameters. The only
  assumption about the ciphers is that opening inverts sealing; about the key derivation, that a
  salt of 16 bytes yields a key. It may refuse others.
- `date_trunc('hour', ...)` is taken in UTC, as the rollup's own docstring has it.

## What turned out not to hold as documented

- The comment at app/core/services/escalation_service.py:149 says that later steps have larger
  delays. Nothing enforces it. `PassesWhatIsDueIff` gives the exact condition under which the early
  exit is harmless, and `UnorderedDelaysHoldBackAStep` a ladder that breaks it. Poll independence
  and delivery safety do not need the condition.
- The rollup "never loses data" (app/tasks/scheduler.py:310-311) only for some settings, and no
  setting is checked against another. `ExactIffSafe` gives the exact condition on the three
  settings, `LosingRunIsInexact` a schedule that loses a sample for all others.
- The rate limiter can let more than `limit` hits through: on every 1024th call an empty current
  bucket is swept away before the hit is appended to it. `OneTooMany` does it for every limit and
  every key, so the limit holds over all schedules only for empty windows (`StrictBoundIff`). It
  holds where no hit is lost (`LimitKeptUnlessLost`), `LostRule` says exactly when one is, and
  `AllowedBound` is the bound the code satisfies.
- Encrypting a secret and decrypting it gives the secret back exactly when the plaintext does not
  already carry the encryption prefix (`EncryptDecryptIff`).
- The tokens are meant to be read alike in Python and in the browser. Python's decoder skips foreign
  characters, the browser's skips spaces and throws on the rest, and only Python counts the parts
  of a passphrase token. `SidesAgreeIff` is the exact condition; `JunkOpensInPythonOnly`,
  `SpacesOpenInBrowserOnly`, `PythonIgnoresJunk` and `BrowserIgnoresExtraParts` are inputs on
  which the sides differ. On encoder output they never do (`RoundTrip`, `PassphraseRoundTrip`).
- A discovery scan fails as a whole when a reachable address is the name of a host with another
  address, or none. The rule is then not stamped and stays due (`ScanIsIdempotent`,
  `NamesakeFailsScan`, `ProvisionSucceedsIff`, `FailureKeepsCommitted`).

## Model

| member | source | states |
|---|---|---|
| AlertStore.Store.Open | app/core/services/problem_event_service.py:18-41 | a new unresolved, unacknowledged event under a fresh id, with name and severity snapshotted from the trigger, cursor 0; nothing else changes |
| AlertStore.Store.Close | app/core/services/problem_event_service.py:43-49 | exactly the trigger's unresolved events get the resolution time |
| AlertStore.Store.Acknowledge | app/core/services/problem_event_service.py:67-78 | only the owner's event is found; time and user are stored iff it was not acknowledged before, a repeated call still returns the event; no other event changes |
| AlertStore.Store.Evaluate | app/core/services/trigger_service.py:154-319 | the new tables and the fired list are the row-by-row evaluation of the selected triggers, for every row order |
| AlertStore.Store.CreateTrigger | app/core/services/trigger_service.py:101-142 | the submitted rule under an id no trigger had, in OK, never changed, with no events; every other trigger and its events are untouched and the pipeline invariant is kept |
| AlertStore.Store.UpdateTrigger | app/core/services/trigger_service.py:143-148 | each column of the trigger holds the submitted value, or the old one where none was submitted; its state, time of change and subject, all events and all other triggers stay, and so does the pipeline invariant |
| AlertStore.Store.DeleteTrigger | app/core/services/trigger_service.py:150-152 | the trigger is gone and no event refers to it; every other trigger keeps its row and its events, and the pipeline invariant is kept |
| AlertStore.Store.DueEscalations | app/core/services/escalation_service.py:118-179 | cursors and deliveries are those of each problem climbing its owner's newest enabled ladder, for every row order |
| AlertStore.Store.Climb | app/core/services/escalation_service.py:144-177 | the step loop with skip and early exit passes exactly the steps of `Passed`, moves the cursor to the last one and sends what those steps deliver |
| AlertStore.Store.Notify | app/core/services/escalation_service.py:150-176 | a passed step sends one delivery exactly when its channel exists, is the owner's, is enabled and, for a remediation, is a webhook |
| AlertStore.Store.ReplacePolicy | app/core/services/escalation_service.py:57-73 | name, flag and steps of one policy are swapped; the clear-and-refill loop leaves exactly the new steps |
| AlertModel.EvalRowsAt | app/core/services/trigger_service.py:176-208 | in a whole evaluation each selected trigger fires exactly its own change and ends in the state it decided, whatever the row order |
| AlertModel.EvaluationKeepsConsistent | app/core/services/trigger_service.py:154-231 | a recorded evaluation, in any row order, keeps one open event per trigger in PROBLEM and none per trigger in OK |
| AlertRules.EvaluationRule | app/core/services/trigger_service.py:171-208 | exactly the enabled triggers of the subject are judged: afterwards PROBLEM iff the observed value breaches the threshold under the operator, the time of change set iff the state changed, nothing without a value; all others stay |
| AlertRules.ObserveRule | app/core/services/trigger_service.py:233-263 | LAST or no window observes the value handed over; any other trigger the aggregate over the samples of the host's latency_ms items, or of the item, not older than the window in seconds |
| AlertRules.FiredRule | app/core/services/trigger_service.py:192-205 | a fired entry quotes a scanned trigger's name, severity, metric, operator and threshold, the value it observed, and a state other than its old one |
| AlertRules.RecordRule | app/core/services/trigger_service.py:210-231 | with owner and subject a trigger that goes to PROBLEM opens one new event that snapshots it, its value and the time; one that recovers resolves its unresolved events now; any other keeps its events |
| AlertRuns.PipelineInvariant | app/core/services/trigger_service.py:177-231 | over any run: a trigger is in PROBLEM iff it has exactly one unresolved event, in OK iff it has none |
| AlertRuns.UnrecordedEvaluationIff | app/core/services/trigger_service.py:190-191 | leaving out owner or subject breaks the invariant exactly when something fires |
| AlertRuns.RunEvolves | app/core/services/problem_event_service.py:43-78 | over any run: an event's origin is frozen, resolution and acknowledgement are written once, its cursor never drops, ids are never reused |
| AlertRuns.EscalationSafety | app/core/services/escalation_service.py:124-179 | over any interleaving: deliveries of a problem strictly climb in step order above its cursor (so none is repeated), the cursor bounds them, none is sent for a problem that cannot escalate |
| AlertRuns.NothingAfterStop | app/core/services/escalation_service.py:126-129 | once a problem has a resolution or acknowledgement time, or is deleted, no continuation of the run delivers anything more for it |
| AlertRules.TickRule | app/core/services/escalation_service.py:124-131 | a tick sends nothing for a resolved or acknowledged problem and leaves it as it is; any other one advances by its own ladder and is sent what that owes |
| AlertRules.TickDelivers | app/core/services/escalation_service.py:124-177 | a tick sends an open, unacknowledged problem exactly the steps of the owner's newest enabled policy beyond its cursor whose delays up to their own have passed since its start, if their channel exists, is the owner's, is enabled and suits the action; each with the problem's data |
| AlertRules.TickAdvances | app/core/services/escalation_service.py:144-178 | the cursor moves to the last such step, delivered or not, and nothing else of the problem changes |
| AlertTraces.AlertTraceRefinement | app/core/services/trigger_service.py:176-319 | per trigger, the fired states of a run are the run-length compression of its verdicts, no-data and disabled rounds skipped; they alternate |
| AlertTraces.AlertsMatchTimeline | app/core/services/trigger_service.py:186-231 | over any run the PROBLEM alerts of a trigger are as many as the events it opened, the OK alerts as many as the events resolved |
| AlertTraces.PollIndependence | app/core/services/escalation_service.py:138-177 | any non-decreasing ticks ending at t leave the cursor and have sent the alerts of one tick at t, for every ladder |
| AlertTraces.ManyTicksAreOneTick | app/core/services/escalation_service.py:118-179 | the same, comparing the tables and deliveries of the run with those of an actual single tick |
| AlertTraces.PruneInvisibleToEvaluation | app/core/services/trigger_service.py:248-261 | evaluation commutes with a prune of samples at least a day older: same flips, events and alerts |
| AlertTraces.PrunesInvisible | app/core/services/trigger_service.py:248-261 | leaving every prune out of a run, each at least a day behind every later evaluation, changes no alert, no delivery and no table but the samples |
| AlertTraces.BreachOrder | app/core/services/trigger_service.py:27-77 | with one threshold, MIN in breach implies AVG implies MAX under GT/GE, and the reverse under LT/LE |
| Escalation.LadderSorts | app/core/models/escalation.py:33-44 | with unique orders the loaded ladder is the policy's steps, strictly ascending |
| Escalation.EnabledPolicyIsNewest | app/core/services/escalation_service.py:108-116 | the chosen policy is an enabled one of the owner with the greatest creation time; none is chosen iff none is enabled |
| Escalation.FiringRule | app/core/services/escalation_service.py:144-149 | a step is passed iff it lies beyond the cursor and every delay from the cursor up to and including its own has elapsed |
| Escalation.PassesWhatIsDueIff | app/core/services/escalation_service.py:148-149 | passed is the same as due, at every elapsed time, iff the delays ahead never decrease |
| Escalation.UnorderedDelaysHoldBackAStep | app/core/schemas/escalation.py:32-37 | an accepted ladder whose 5-minute step is only passed at 30 minutes |
| Escalation.PassedComposes | app/core/services/escalation_service.py:145-177 | an earlier tick followed by a later one passes what the later one alone would, for any step list |
| Escalation.DeliveredIff | app/core/services/escalation_service.py:150-176 | a delivery is sent iff it is that of a passed step whose channel is deliverable |
| Escalation.TickRowsAt | app/core/services/escalation_service.py:138-177 | in a tick each scanned problem advances by its own ladder and gets exactly its own deliveries, whatever the order |
| History.AggregationOrder | app/core/services/trigger_service.py:27-31 | over any non-empty window the minimum, mean and maximum are ordered |
| History.MeanLaw | app/core/services/trigger_service.py:27-31 | the mean of two groups put together weighs each by its size |
| History.AggregateRule | app/core/services/trigger_service.py:27-31 | an aggregate is absent without values; MIN and MAX are attained bounds, AVG times the count is the sum |
| History.WindowHolds | app/core/services/trigger_service.py:248-261 | a window holds each value as often as a sample of the items at or after its start carries it |
| History.PruneInvisibleToWindowIff | app/core/services/trigger_service.py:327-334 | a prune leaves an aggregated observation alone for all histories iff the window opens no earlier than the cutoff |
| History.PruneInvisibleToPollerIff | app/tasks/item_poller.py:76-77 | a prune leaves an item's due status alone for all histories iff the cutoff is not above the last instant at which it would be due |
| History.RetentionInvisible | app/tasks/retention.py:30-41 | a retention of a day or more changes no window and no due status the schemas allow, at or after the prune |
| Poller.DueTargets | app/tasks/item_poller.py:55-91 | the loop returns the pollable items that are due, in order |
| Poller.PickedIff | app/tasks/item_poller.py:55-78 | an item is picked iff it is enabled, not private, polled over SNMP on a host with an address, and no sample of it is younger than its interval |
| Poller.PruneInvisibleToPolling | app/tasks/item_poller.py:55-91 | a poll cycle picks the same items before and after such a prune |
| Poller.NotPolledTwice | app/tasks/item_poller.py:115-124 | a stored sample keeps its item out of every cycle less than an interval later |
| Trends.TrendStore.RollupTrends | app/tasks/trends.py:28-75 | groups of the last complete hours are upserted, other rows stay, the count is the number of groups |
| TrendRules.RollupRule | app/tasks/trends.py:38-75 | for each item and hour of the last complete ones with numeric samples, the row afterwards has attained least and greatest bounds, the mean and the count of exactly these samples; every other row stays |
| TrendRules.MaintenanceRule | app/tasks/scheduler.py:309-338 | a job keeps the samples and the rolled-up rows within their retention in days, each switched off by 0, and no others |
| Trends.TrendStore.PruneHistory | app/tasks/retention.py:30-41 | each row not older than the cutoff is kept as often as it was there, in order, no older one is; the counts are the numbers of older rows |
| Trends.TrendStore.PruneTrends | app/tasks/trends.py:78-85 | a bucket survives, with its row as it was, iff it is not before the cutoff; the count is the number of earlier ones |
| Trends.TrendStore.HistoryMaintenance | app/tasks/scheduler.py:309-338 | roll up first, then prune history, then trends, each only when switched on |
| Trends.MaintenanceKeepsRowsOrdered | app/tasks/trends.py:47-49 | every trend row a job leaves has value_min <= value_avg <= value_max and a positive count |
| TrendRuns.ExactIffSafe | app/tasks/scheduler.py:309-338 | over all schedules with non-decreasing job times the trend table equals the rollup of the never-pruned history, iff lookback < 24 x retention, or either is off, or trends are kept no longer than samples |
| TrendRuns.LosingRunIsInexact | app/tasks/trends.py:38-56 | for every other setting, a schedule with two runs twenty minutes apart in one hour after which a trend row misses a sample |
| TrendRuns.CoverageIff | app/tasks/trends.py:38-56 | every complete hour from the first window to the last run is rolled up iff the hours of consecutive runs are at most the lookback apart |
| TrendRuns.Conservation | app/tasks/trends.py:38-75 | the sample counts of the trend rows add up to the numeric samples that arrived before their retained hour's last covering run, deleted or not |
| RateLimiter.RateLimiter.Allow | app/api/ratelimit.py:27-41 | answer and dictionary are those of the pure call; deques stay unshared |
| RateLimiter.RateLimiter.Sweep | app/api/ratelimit.py:35-37 | exactly the empty deques leave the dictionary |
| RateLimiterRuns.RunRepresents | app/api/ratelimit.py:27-41 | between calls every stored bucket is non-empty, sorted, within the limit, and agrees with the full recorded history on what has not expired |
| RateLimiterRuns.CallEffect | app/api/ratelimit.py:34-40 | a sweep can only remove the current key's bucket, and only when nothing of it is live; other buckets are untouched |
| RateLimiterRuns.AnswerRule | app/api/ratelimit.py:28-41 | a hit is allowed iff fewer than limit hits of its key were recorded in [now - window, now], over the full history |
| RateLimiterRuns.LostRule | app/api/ratelimit.py:30-40 | an allowed hit goes unrecorded iff it is on a call whose number is a multiple of 1024 that finds no live hit of its key |
| RateLimiterRuns.RecordedBound | app/api/ratelimit.py:38-41 | any closed window holds at most limit recorded hits of a key |
| RateLimiterRuns.AllowedBound | app/api/ratelimit.py:27-41 | allowed hits of a key in a closed window are at most limit plus the requests of the key there that were the 1024th, 2048th, ... call |
| RateLimiterRuns.LostAccounting | app/api/ratelimit.py:34-41 | in every window allowed hits are the recorded ones plus the lost ones, and the lost ones are at most the key's sweep calls |
| RateLimiterRuns.LimitKeptUnlessLost | app/api/ratelimit.py:34-41 | in a closed window in which no hit of the key is lost, at most limit hits of it are allowed |
| RateLimiterRuns.OneTooMany | app/api/ratelimit.py:34-41 | for any limits, any window length and any two keys: after 1023 calls for one, limit + 1 hits of the other are allowed at one instant |
| RateLimiterRuns.StrictBoundIff | app/api/ratelimit.py:27-41 | whatever the positive limits, they hold over all schedules, keys and windows iff the window is negative |
| ProbeJobs.ProbeWithRetries | app/tasks/scheduler.py:170-187 | the loop makes exactly the attempts of `Attempts` |
| ProbeJobs.JobRule | app/tasks/scheduler.py:178-218 | between 1 and retries + 1 attempts, all but the last down; the job ends down iff all retries + 1 possible attempts are down |
| ProbeJobs.ProbeWorker.RunProbeJob | app/tasks/scheduler.py:190-306 | the worker goes through one `JobStep`: skipped jobs change nothing; others record every attempt, set the status, evaluate, then mirror, and dispatch the status alert before the trigger alerts |
| JobRules.SkippedJob | app/tasks/scheduler.py:192-201 | a job of a monitor that is gone, paused or under maintenance changes nothing |
| JobRules.ResultsRule | app/tasks/scheduler.py:203-219 | a job stores the result of each attempt in order; it stops at the first one that answers or after all retries, and that one sets the status |
| JobRules.TriggerRule | app/tasks/scheduler.py:229-237 | each enabled trigger of the monitor is judged by the latency of the last attempt or, with a window, by the stored latencies without it; all other triggers stay |
| JobRules.LatencyRule | app/tasks/scheduler.py:229-237 | a LAST latency trigger ends in PROBLEM iff the last attempt's latency breaches its threshold, and keeps its state when there is none |
| JobRules.JobOpens | app/tasks/scheduler.py:235-237 | a trigger driven into PROBLEM opens one event of the monitor's owner under its name with the value the trigger saw |
| JobRules.MirrorRule | app/tasks/scheduler.py:239-264 | status 1 or 0 always, latency and error when present, are stored after the earlier samples, at the time of the job |
| JobRules.DispatchRule | app/tasks/scheduler.py:266-306 | one status alert iff UP turned DOWN or back, then one alert per trigger that changed, quoting it and the value it saw |
| ProbeJobs.JobsAreARun | app/tasks/scheduler.py:229-264 | any run of jobs of any monitors acts on the tables as a run of the pipeline, so all run theorems cover it |
| ProbeJobs.StatusAlertTrace | app/tasks/scheduler.py:285-303 | over any run of jobs of several monitors, the status alerts of one among all dispatched alerts are the changes in the statuses its jobs ended in, each starting where the one before ended; silent on leaving PENDING and while paused |
| Reconciler.JobTable.Reconcile | app/tasks/scheduler.py:124-167 | managed jobs become exactly the desired ones on the desired intervals; reserved jobs and correct jobs keep everything |
| Reconciler.ReconcileRule | app/tasks/scheduler.py:124-167 | exactly the monitors that are not paused have a job, on their interval; a new one runs in a second, a rescheduled one in an interval, a correct one when it was going to |
| Reconciler.ReconcileConverges | app/tasks/scheduler.py:137-167 | every desired job runs on its interval, correct jobs keep their next run, and a later second reconcile changes nothing |
| Base64Url.RoundTrip | app/core/security/zk.py:39-45 | both decoders undo encoding, for all byte strings |
| Base64Url.EncodingShape | app/core/security/zk.py:39-40 | encodings are ASCII, hold no '=' or '.', have the unpadded length, and what the decoders fill them up to is the padded text |
| Base64Url.AlphabetRule | app/core/security/zk.py:39-45 | the alphabets of RFC 4648, sections 4 and 5, and that decoding takes both |
| Base64Url.EncodingSpells | app/core/security/zk.py:39-40 | every character of an encoding is that of its sextet in the URL alphabet |
| Base64Url.GroupNumber | app/core/security/zk.py:39-40 | three bytes and their four sextets are one 24-bit number, a rest of one or two bytes has zero bits below |
| Base64Url.B64UrlToBytes | static/zk.js:16-23 | the replacements, the padding loop and the copy loop compute `JsDecode`, throwing exactly where it refuses |
| Base64Url.BrowserTextInPython | static/zk.js:16-23 | on every text the browser opens, Python finds the same bytes, or refuses: iff the filled-up text without its spaces is not a multiple of four long |
| Base64Url.PythonAcceptsIff | app/core/security/zk.py:43-45 | which texts without '=' Python opens, by their ASCII letters and length alone, and to what |
| Base64Url.BrowserAcceptsIff | static/zk.js:16-23 | which texts without '=' the browser opens, by their letters, spaces and length, and to what |
| Base64Url.JunkOpensInPythonOnly | app/core/security/zk.py:43-45 | junk in multiples of four anywhere in a text changes nothing for Python and makes the browser throw |
| Base64Url.SpacesOpenInBrowserOnly | static/zk.js:16-23 | two trailing spaces change nothing for the browser and make Python refuse a text that ends in a group of two |
| Tokens.RandomKeyRoundTrip | app/core/security/zk.py:53-64 | for every accepted key string, 12-byte nonce and text the token encodes nonce and ciphertext, decrypts to the text, in the browser too if it takes the key, and is never classified as a passphrase token |
| Tokens.GeneratedKeysWork | app/core/security/zk.py:48-57 | an encoded key is accepted iff it has 16, 24 or 32 bytes, and is read alike on both sides |
| Tokens.PassphraseRoundTrip | app/core/security/zk.py:83-99 | the token's parts are "a2", the 16-byte salt and the 12-byte nonce with the ciphertext; it is classified as a passphrase token and decrypts to the text in Python and in the browser |
| Tokens.ClassifiedByFirstPart | app/core/security/zk.py:79-80 | the prefix test holds iff there are at least two parts and the first is "a2" |
| Tokens.SidesAgreeIff | static/zk.js:54-72 | on a token with the prefix the two sides agree under every cipher and passphrase iff: of three parts, salt and frame are readable on both sides or not; of more, the browser cannot read them |
| Tokens.SpelledSidesAgreeIff | static/zk.js:54-72 | with salt and frame spelled in the URL alphabet they agree iff there are three parts or one of the two has a letter too many |
| Tokens.PythonIgnoresJunk | app/core/security/zk.py:90-99 | a valid token with four characters of junk anywhere in its salt decrypts to the text in Python and is refused by the browser |
| Tokens.BrowserIgnoresExtraParts | static/zk.js:59-68 | a valid token with a fourth part is refused by Python while the browser still decrypts it to the text |
| SealedConfig.EncryptDecryptIff | app/core/security/field_crypto.py:42-59 | encrypting and decrypting returns the plaintext under every cipher iff it does not carry the encryption prefix |
| SealedConfig.Item.Update | app/core/services/host_service.py:163-175 | exactly the submitted columns are overwritten; a submitted configuration keeps the stored community where it is blank or redacted, then is sealed |
| SealedConfig.ItemRule | app/core/services/host_service.py:163-170 | an absent, null, empty or redacted community keeps the stored one, encrypted, or stays absent; any other text is stored as enc:v1: and its ciphertext; other fields are the submitted ones |
| SealedConfig.ItemShown | app/core/schemas/host.py:76-82 | the owner reads __redacted__ for a stored community and everything else as stored |
| SealedConfig.Channel.Update | app/core/services/notification_channel_service.py:80-99 | only submitted fields change; with a configuration its type is taken over, a blank secret keeps the stored one, and the result is sealed |
| SealedConfig.ChannelRule | app/core/services/notification_channel_service.py:90-97 | the secret by the same rule, both targets encrypted when set, other fields as submitted |
| SealedConfig.ChannelShown | app/core/schemas/notification_channel.py:70-81 | the secret is redacted; targets are decrypted, or shown as stored where that is not possible |
| SealedConfig.Channel.Seal | app/core/services/notification_channel_service.py:30-40 | the secret and, by the loop, both targets are sealed |
| SealedConfig.WriteBackIff | app/core/services/host_service.py:163-170 | writing back what was read keeps the configuration bit-identical iff the secret is stored sealed |
| SealedConfig.FreshSecretIsStored | app/core/services/host_service.py:19-26 | a fresh plaintext is stored as ciphertext that decrypts to it; the other fields are the submitted ones |
| SealedConfig.ItemLens | app/core/services/host_service.py:163-175 | whatever is submitted, the stored configuration is sealed, survives read and write-back unchanged, and sealing it again changes nothing |
| SealedConfig.ChannelSealing | app/core/services/notification_channel_service.py:30-40 | sealing seals all three fields and is idempotent |
| SealedConfig.ChannelLens | app/core/services/notification_channel_service.py:90-96 | write-back of exactly what was read keeps the stored secret bit-identical and every field but the targets as it was |
| SealedConfig.TargetLensIff | app/core/schemas/notification_channel.py:70-81 | after that write-back a target is shown unchanged iff what was shown does not decrypt any further |
| Provisioning.AcceptedIff | app/core/schemas/discovery.py:24-39 | a rule is accepted iff at most ten host bits are free and TCP has a port; the scan cap then drops no address |
| Provisioning.HostsRule | app/core/services/discovery_service.py:85-87 | which addresses of a block are usable, each once and in ascending order, and that a scan looks at the first 1024 of them |
| Provisioning.InventoryStore.ApplyToHost | app/core/services/template_service.py:85-111 | the items the host lacks are appended in order; created and skipped add up to the template |
| Provisioning.MissingCopies | app/core/services/template_service.py:94-107 | a created item copies key, name, type, units and interval of a template item whose key the host lacked, and each such one is copied |
| Provisioning.TemplateApplies | app/core/services/template_service.py:85-111 | the host has its old keys and every template key once each; other hosts are untouched |
| Provisioning.TemplateIdempotent | app/core/services/template_service.py:85-111 | applying again creates nothing |
| Provisioning.InventoryStore.ScanRule | app/core/services/discovery_service.py:81-126 | the candidates among the network's scanned addresses are provisioned in order; a taken name rolls back to the last commit and leaves the rule due as before; a finished scan stamps the rule |
| Provisioning.CandidatesRule | app/core/services/discovery_service.py:89-107 | the candidates are the scanned addresses that answer and are no address of a host of the owner |
| Provisioning.ProvisionSucceedsIff | app/core/services/discovery_service.py:109-120 | provisioning goes through iff no address is already the name of a host of the owner |
| Provisioning.ProvisionEffect | app/core/services/discovery_service.py:109-120 | one new host per address, in order, with each template key exactly once; all other hosts and their items are the same |
| Provisioning.ScanIsIdempotent | app/core/services/discovery_service.py:81-126 | a scan of a network goes through iff no new reachable address is a taken host name; the owner's addresses become old plus reachable, and a repeat with the same reachability creates nothing |
| Provisioning.ClashFailsScan | app/core/services/discovery_service.py:107-117 | a host of the owner that is named like a reachable address no host of the owner has fails every scan |
| Provisioning.NamesakeFailsScan | app/core/services/discovery_service.py:107-117 | an inventory whose only host is named like a reachable address but has another address or none fails the scan of every network with that address |
| Provisioning.FailureKeepsCommitted | app/core/services/template_service.py:109-110 | a failed scan leaves the old inventory without a template, and all hosts before the clash with one |
| HostOverview.OverviewForOwner | app/core/services/host_service.py:37-85 | the one-pass maps and the sort give the views of the specification |
| HostOverview.OverviewRule | app/core/services/host_service.py:37-77 | each host is shown with the number of its items and of its open problems from enabled triggers, and the worst severity among them, in the order info to disaster |
| HostOverview.OrderRule | app/core/services/host_service.py:79-84 | hosts with problems come first, worse ones before others |
| HostOverview.CountIsOpenProblems | app/core/services/host_service.py:53-65 | in every consistent state a host's problem count is the number of its open events from enabled item triggers |
| HostOverview.WorstIsHighest | app/core/services/host_service.py:66-67 | the worst severity is attained and maximal among the host's problems, absent iff there are none |
| HostOverview.SortIsStable | app/core/services/host_service.py:79-84 | the list is sorted by problems first and worst severity, is a permutation, and keeps ties in order |

## Left out

- Rows as objects: triggers, events, monitors and policies are values in their tables, updated by
  key. That two loaded rows could alias is not modelled; deques of the rate limiter are objects.
- Network and operating system I/O: probes, SNMP, SMTP, webhooks and the agent. A probe is whatever
  the network answers to each attempt.
- HTTP routes, web pages, charts and widgets.
- OIDC, JWT, password hashing, and the inside of the ciphers.
- Cron maintenance windows: whether a monitor is under maintenance is a parameter of a job.
- APScheduler and the event loop: job times are arbitrary, non-decreasing where a theorem says so.
  A rescheduled job is taken to run next one interval from now.
- Deletion of users, which cascades to their events and clears `acknowledged_by_id`; deletions of
  monitors and items are runs of trigger deletions.
- An explicit null for a column that must not be null, in a partial update; the database refuses it.
- The order of two enabled policies of one owner with the same creation time: the database picks
  one, the model the first in table order; what is proved holds of either.
- monitor_host_bridge.py is not part of this model; a probe job is handed its backing items.
- Rounding of floats, in averages and in elapsed minutes.
- The rate limiter's middleware and its per-path limits: `limits` is any positive limit per key.
- `_coerce` and `_split_value`, whose claims are settled by reading one branch.
- Tokens.SidesAgreeIff: compares the decrypted bytes; the browser's lenient text decoding is not
  modelled.
- HostOverview.OverviewForOwner: Python's list sort is modelled by its specification, a stable
  sort, on values instead of in place.
- ProbeJobs.StatusAlertTrace: a manual status edit starts a new series; the theorem holds between edits.
- Tokens.RandomKeyRoundTrip: the percent-decoding of a key in the URL fragment is not modelled.
- Provisioning.ScanIsIdempotent: the session that several rules of one job share after a failure is
  not modelled; each scan is its own unit of work.
