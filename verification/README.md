# Actinium app server core, modelled in Dafny

Actinium is a CoAP application server. Each JavaScript app instance runs in
its own thread with its own work queue. Apps are installed, configured, started
and stopped through CoAP resources. This project models the parts of the
server that decide what happens:

- **Configuration stores** (`ConfigStore`, `ServerConfig`). These are the observable
  property stores, with change-sets, typed reads, and the PUT, POST and DELETE
  handlers of their resources. Also modelled are the server's defaults.
- **The work queue** (`WorkQueue`). This is the FIFO of request deliveries and runnables, and
  the consumer loops that drain it. The queue starts no thread of its own. Each start of an
  app creates a script thread, and that thread enters a loop on the app's queue once the
  script's code has run.
- **The app lifecycle** (`App`). This covers `start`, `shutdown`, `restart` and the observer
  `update` that drives them from the app's own store. The re-entrant call
  made when an app observes its own notification is kept.
- **The JavaScript app helpers** (`JavaScriptApp`). These are the request gate, `dump` and `error`
  output formatting, the timer ids and tasks, and the import prelude.
- **The app registry** (`AppResource`). This is the list of app instances and the running index
  kept up to date by its observer. It also covers bulk restart, delete and start,
  install, and unique resource identifiers.
- **Install-time validation** (`AppManager`). This covers script lookup, name checks, the
  config path and filter, instance creation, and loading all instances.
- **Request routing** (`AcServer`). A request below
  `/<apps>/<running>/<app>/…` goes to the queue of the app that `getApp` finds
  under that path segment. The segment is the app's lower-case resource identifier
  and `getApp` compares exact names, so as written only apps whose names have no
  capital letter are reached. Any other request is handled inline. A missing
  resource is answered 4.04.
- **The script senders** (`Senders`, `SyncSender`, `AsyncSender`). These are `CoAPRequest.send`
  blocking and non-blocking, as state machines over atomic events: send,
  response, abort, timer or wakeup, interrupt. They come with invariants over every
  interleaving.

Support modules:

- `Wrappers` holds `Option` and `Result`.
- `JavaText` gives the Java string and number semantics the source relies on: `toLowerCase`
  on ASCII, `String.split` with trailing empties dropped, `Integer.parseInt`,
  `Boolean.parseBoolean`, `lastIndexOf` and `replace`.
- `Coap` holds the response codes used.

The clock, the file system, the network and script execution are all
parameters, or hooks recorded in order.

Behaviour of the code worth knowing:

- The registry's observer only maintains the running index on "running". The
  app's own observer makes the lifecycle call.
- The index adds an app under its lower-case resource identifier but removes it under its
  name.
- `deleteApps` stops instances and deletes their configs. The model assumes `deleteConfig` deletes only the file, so the instances stay in the list.
- App names are compared case-sensitively.
- A server setting that `AppManager` reads as a path, prefix or suffix throws a `NullPointerException` when it is absent.
- A consumer loop of the work queue has no handler of its own, so an item that lets a throw escape ends that loop. Request deliveries and the function calls that script timers queue catch every `Exception`, but not an `Error`.
- An interrupt never ends a consumer loop. A restart therefore leaves the old script thread's loop running beside the new one, and a restart after an `Error` ended the only loop brings the queue back to life.
- The work queue is not cleared by a restart.
- The senders promise at most one of load, timeout and abort, not exactly one.
- The asynchronous `abort` is not idempotent: a second abort runs the abort path again.

## Model

| member | source | states |
|---|---|---|
| ConfigStore.ChangeSetOf | src/main/java/ch/ethz/inf/vs/actinium/cfg/AbstractConfig.java:350-359 | a change-set holds exactly the keys it was built from, each once |
| ConfigStore.SetPropertyAndNotify | src/main/java/ch/ethz/inf/vs/actinium/cfg/AbstractConfig.java:116-123 | every complete key/value pair is written, and the last pair for a key wins. A dangling key is ignored. One notification names exactly the paired keys, all present in the store, and other keys keep their values |
| ConfigStore.ApplyPairsSpec | src/main/java/ch/ethz/inf/vs/actinium/cfg/AbstractConfig.java:116-121 | the front-to-back pair loop leaves each paired key at its last paired value and every other key unchanged |
| ConfigStore.SetThenGet | src/main/java/ch/ethz/inf/vs/actinium/cfg/AbstractConfig.java:116-123 | writing one pair and reading it back gives the value, and the change-set is just that key |
| ConfigStore.DanglingKeyIgnored | src/main/java/ch/ethz/inf/vs/actinium/cfg/AbstractConfig.java:117-121 | an odd final key changes neither the store nor the notification |
| ConfigStore.GetInt | src/main/java/ch/ethz/inf/vs/actinium/cfg/AbstractConfig.java:133-146 | the parsed 32-bit value, or 0 when the key is missing or the text is not an int |
| ConfigStore.GetBool | src/main/java/ch/ethz/inf/vs/actinium/cfg/AbstractConfig.java:148-161 | true exactly when the key is present and its value is "true" ignoring case |
| ConfigStore.SetIntThenGetInt | src/main/java/ch/ethz/inf/vs/actinium/cfg/AbstractConfig.java:125-146 | `setProperty(key, int)` then `getInt(key)` gives the same int back |
| ConfigStore.SetBoolThenGetBool | src/main/java/ch/ethz/inf/vs/actinium/cfg/AbstractConfig.java:129-161 | `setProperty(key, boolean)` then `getBool(key)` gives the same boolean back |
| ConfigStore.Post | src/main/java/ch/ethz/inf/vs/actinium/cfg/AbstractConfig.java:281-309 | an unparsable payload is 4.00 and changes nothing. Otherwise the modifiable payload keys are merged and notified, the rest of the store is untouched, and the reply is 2.04 |
| ConfigStore.Put | src/main/java/ch/ethz/inf/vs/actinium/cfg/AbstractConfig.java:246-279 | an unparsable payload is 4.00 and changes nothing. Otherwise every modifiable key takes the payload's value or is removed, unmodifiable keys keep their values, and only the payload's modifiable keys are notified |
| ConfigStore.Delete | src/main/java/ch/ethz/inf/vs/actinium/cfg/AbstractConfig.java:312-314 | always 4.05, with no change and no notification |
| ConfigStore.PutRemovalIsSilent | src/main/java/ch/ethz/inf/vs/actinium/cfg/AbstractConfig.java:256-268 | a modifiable key that PUT drops is absent afterwards and is not in the change-set |
| ConfigStore.PostOfUnmodifiableKeysOnly | src/main/java/ch/ethz/inf/vs/actinium/cfg/AbstractConfig.java:292-300 | a payload with only unmodifiable keys still answers 2.04 and notifies an empty change-set |
| ServerConfig.DefaultValues | src/main/java/ch/ethz/inf/vs/actinium/cfg/Config.java:50-65 | with no file, every key the server reads has its documented default |
| ServerConfig.StartOnInstallDefaultsToFalse | src/main/java/ch/ethz/inf/vs/actinium/cfg/Config.java:54 | apps are not started on install unless the file sets it |
| ServerConfig.LoadedStartOnInstallWins | src/main/java/ch/ethz/inf/vs/actinium/cfg/Config.java:44-54 | a value in the file overrides the default, because the file is loaded after `init` |
| WorkQueue.Deliver | src/main/java/ch/ethz/inf/vs/actinium/plugnplay/WorkQueue.java:32-44 | both `deliver` overloads append one item at the tail and change nothing else |
| WorkQueue.Enter | src/main/java/ch/ethz/inf/vs/actinium/plugnplay/WorkQueue.java:56-58 | a thread calling `execute()` adds one consumer loop on the same queue. The queue and the items run are unchanged |
| WorkQueue.WorkStep | src/main/java/ch/ethz/inf/vs/actinium/plugnplay/WorkQueue.java:77-114 | a loop takes the head and runs it. The loop survives exactly when the item completes, or raises an `Exception` that the item itself catches (a request delivery or a guarded runnable). An `Error`, or an `Exception` from an unguarded runnable, ends that loop and only that one. With an empty queue or no loop running, nothing changes |
| WorkQueue.RunThenQueueIsDelivered | src/main/java/ch/ethz/inf/vs/actinium/plugnplay/WorkQueue.java:32-91 | over every trace, the items run followed by the items queued are exactly the items delivered, in order |
| WorkQueue.RanInDeliveryOrder | src/main/java/ch/ethz/inf/vs/actinium/plugnplay/WorkQueue.java:77-91 | items run in delivery (FIFO) order |
| WorkQueue.NoLoopRunsNothing | src/main/java/ch/ethz/inf/vs/actinium/plugnplay/WorkQueue.java:20-91 | with no loop running, nothing runs, whatever is delivered, until some thread enters `execute()` |
| WorkQueue.LoopsAreEntriesLessDeaths | src/main/java/ch/ethz/inf/vs/actinium/plugnplay/WorkQueue.java:56-114 | over every trace, the running loops are the threads that entered `execute()` less the steps at which a loop ran an item that let a throw escape |
| WorkQueue.DeathFollowsAnUncaughtThrow | src/main/java/ch/ethz/inf/vs/actinium/plugnplay/WorkQueue.java:77-114 | when fewer loops run than threads entered, some step had a running loop take the head of a non-empty queue, and that item raised an `Error` or an `Exception` it does not catch |
| WorkQueue.DeadAfterDiesAt | src/main/java/ch/ethz/inf/vs/actinium/plugnplay/WorkQueue.java:77-91 | when the step that ended a loop ended the only one, no loop runs and nothing beyond the item that ended it has run, until a thread enters `execute()` again |
| WorkQueue.CaughtFailuresAreIsolated | src/main/java/ch/ethz/inf/vs/actinium/plugnplay/WorkQueue.java:104-114 | a queue fed only items that catch exceptions, such as request deliveries and timer function calls, loses no loop while they raise no `Error`: every thread that entered is still draining it |
| WorkQueue.ErrorEndsItsLoop | src/main/java/ch/ethz/inf/vs/actinium/plugnplay/WorkQueue.java:104-114 | an `Error` raised by the next item, a request delivery included, ends exactly one loop after that item ran |
| WorkQueue.ExecuteRevivesQueue | src/main/java/ch/ethz/inf/vs/actinium/plugnplay/WorkQueue.java:56-91 | a thread entering `execute()` on a queue whose loops have all ended runs the backlog's head next |
| WorkQueue.OnlyCatchingItemsDelivered | src/main/java/ch/ethz/inf/vs/actinium/plugnplay/WorkQueue.java:32-44 | a trace that offers only items that catch exceptions delivers only such items |
| WorkQueue.InterruptIsSwallowed | src/main/java/ch/ethz/inf/vs/actinium/plugnplay/WorkQueue.java:60-91 | interrupting a loop, by `stop()` or a restart's `thread.interrupt()`, changes nothing, since the wait loop swallows it |
| App.NewApp | src/ch/ethz/inf/vs/actinium/plugnplay/AbstractApp.java:51-66 | a new instance is stopped, with no subresources and an empty queue that no loop drains yet. Its output flags and resource attributes are read from its store |
| App.Start | src/ch/ethz/inf/vs/actinium/plugnplay/AbstractApp.java:129-142 | a stopped app becomes started, with the start time set and the stop time cleared. The store says running=start, one change-set is emitted and the script is started. A started app is left unchanged |
| App.Shutdown | src/ch/ethz/inf/vs/actinium/plugnplay/AbstractApp.java:150-164 | a started app loses its subresources and has its script interrupted then cleaned up. It is marked stopped with the stop time set, and the store says running=stop. A stopped app is left unchanged |
| App.Restart | src/ch/ethz/inf/vs/actinium/plugnplay/AbstractApp.java:172-179 | from any state: started, no subresources, stop time cleared and running=start. The script is stopped only if it was running, then started |
| App.Refresh | src/ch/ethz/inf/vs/actinium/plugnplay/AbstractApp.java:111-121 | the resource title, resource type and output flags are re-read exactly for the keys the change-set names |
| App.Update | src/ch/ethz/inf/vs/actinium/plugnplay/AbstractApp.java:100-122 | a change-set that asks for no transition only refreshes attributes and emits nothing |
| App.UpdateSpec | src/ch/ethz/inf/vs/actinium/plugnplay/AbstractApp.java:100-122 | "start"/"restart" leave the app started with running=start, and "stop" leaves it stopped. Other keys of the store are kept, named attributes are refreshed, and at most one {running} change-set is emitted |
| App.OwnNotificationIsNoOp | src/ch/ethz/inf/vs/actinium/plugnplay/AbstractApp.java:100-179 | the app's reaction to the notification its own transition emitted does nothing, which is why the re-entrant call ends |
| App.UpdateIsIdempotent | src/ch/ethz/inf/vs/actinium/plugnplay/AbstractApp.java:100-122 | reacting to the same change-set a second time changes nothing |
| App.NoRunningNoTransition | src/ch/ethz/inf/vs/actinium/plugnplay/AbstractApp.java:102-110 | a change-set without "running" never starts or stops the app |
| App.LifecycleKeepsQueue | src/ch/ethz/inf/vs/actinium/plugnplay/AbstractApp.java:129-179 | start, shutdown and restart never touch the work queue: its items stay queued and no loop is ended by their interrupt |
| App.ReceiveMessages | src/ch/ethz/inf/vs/actinium/plugnplay/AbstractApp.java:253-255 | the script thread entering `receiveMessages` adds one loop on the app's own queue, and nothing else changes |
| App.RestartAddsALoop | src/main/java/ch/ethz/inf/vs/actinium/plugnplay/JavaScriptApp.java:89-96 | a restart whose script reaches its loop leaves the app started with one loop more than before, the old loops included, on the same queue |
| App.RestartRevivesQueue | src/main/java/ch/ethz/inf/vs/actinium/plugnplay/JavaScriptApp.java:83-127 | after an `Error` ended the only loop, a restart whose script reaches its loop runs the backlog's head next |
| App.DeliverRequestToSubResource | src/ch/ethz/inf/vs/actinium/plugnplay/AbstractApp.java:194-196 | a request for a subresource is appended to the app's own queue, and nothing else changes |
| App.DeliverRunnable | src/ch/ethz/inf/vs/actinium/plugnplay/AbstractApp.java:202-204 | the given runnable is appended to the app's own queue, and nothing else changes |
| App.StartThenShutdown | src/ch/ethz/inf/vs/actinium/plugnplay/AbstractApp.java:129-164 | start then shutdown leaves the app stopped, with no subresources, both timestamps set and running=stop |
| JavaScriptApp.Perform | src/main/java/ch/ethz/inf/vs/actinium/plugnplay/JavaScriptApp.java:200-225 | a request reaches the script's handler for its method exactly when request delivery is enabled. Otherwise it is answered 4.03 with the fixed message |
| JavaScriptApp.GateFollowsSetting | src/main/java/ch/ethz/inf/vs/actinium/plugnplay/JavaScriptApp.java:200-225 | the gate follows the value last written for `enable_request_delivery` |
| JavaScriptApp.GateClosedByDefault | src/main/java/ch/ethz/inf/vs/actinium/plugnplay/JavaScriptApp.java:200-205 | an app whose store does not mention delivery refuses every request |
| JavaScriptApp.ConvertToOutput | src/main/java/ch/ethz/inf/vs/actinium/plugnplay/JavaScriptApp.java:299-318 | no arguments give "". A first argument of newlines only fails with an index error, and a null argument fails with a null pointer. Otherwise the text starts with the first argument's leading newlines then "name:\t" |
| JavaScriptApp.ConvertToOutputDecodes | src/main/java/ch/ethz/inf/vs/actinium/plugnplay/JavaScriptApp.java:299-318 | the output is header plus one indented block. Removing the indentation gives the first argument without its leading newlines, then every further argument after a tab |
| JavaScriptApp.Dump | src/main/java/ch/ethz/inf/vs/actinium/plugnplay/JavaScriptApp.java:279-287 | prints nothing and raises nothing when output is disallowed. Otherwise it prints the converted text or raises its failure |
| JavaScriptApp.Error | src/main/java/ch/ethz/inf/vs/actinium/plugnplay/JavaScriptApp.java:289-297 | the same as `dump`, governed by the error-output flag |
| JavaScriptApp.OutputFollowsAllowOutput | src/ch/ethz/inf/vs/actinium/plugnplay/AbstractApp.java:116-121 | after `update` sees a new `allow_output`, `dump` prints exactly when it is true |
| JavaScriptApp.Inc32 | src/main/java/ch/ethz/inf/vs/actinium/plugnplay/JavaScriptApp.java:274 | the `int` timer counter wraps from the largest int to the smallest |
| JavaScriptApp.SetTimer | src/main/java/ch/ethz/inf/vs/actinium/plugnplay/JavaScriptApp.java:389-427 | a null function is refused with nothing changed. Otherwise the counter's value becomes the id, the counter moves on, and the task is recorded before the timer can refuse. The timer refuses a negative delay, a non-positive period, or a due time `clock + millis` that wraps to a negative `long` |
| JavaScriptApp.DueTimeOverflowRefused | src/main/java/ch/ethz/inf/vs/actinium/plugnplay/JavaScriptApp.java:389-427 | with the clock at zero or later, a delay that is not negative is refused for overflow exactly when the clock reading plus the delay passes the largest `long` |
| JavaScriptApp.SetTimeout | src/main/java/ch/ethz/inf/vs/actinium/plugnplay/JavaScriptApp.java:389-396 | a one-shot task with that function and delay, recorded under the counter's value. The call returns that id exactly when the function is not null, the delay is not negative, and the due time does not overflow a `long` |
| JavaScriptApp.SetInterval | src/main/java/ch/ethz/inf/vs/actinium/plugnplay/JavaScriptApp.java:420-427 | a repeating task with that function and period, recorded under the counter's value. The call returns that id exactly when the function is not null, the period is positive, and the first due time does not overflow a `long` |
| JavaScriptApp.ClearTimeout | src/main/java/ch/ethz/inf/vs/actinium/plugnplay/JavaScriptApp.java:403-408 | cancels exactly the task with that id. An unknown id changes nothing |
| JavaScriptApp.ClearInterval | src/main/java/ch/ethz/inf/vs/actinium/plugnplay/JavaScriptApp.java:434-436 | cancels exactly the task with that id, which is never due again. An unknown id changes nothing |
| JavaScriptApp.Fire | src/main/java/ch/ethz/inf/vs/actinium/plugnplay/JavaScriptApp.java:458-490 | a due task appends one guarded runnable, the `FunctionExecuter` that catches every `Exception`, to the app's queue and marks the task fired. A task that is not due does nothing |
| JavaScriptApp.ThrowingTimerCallbackKeepsWorker | src/main/java/ch/ethz/inf/vs/actinium/plugnplay/JavaScriptApp.java:474-489 | a timer's script function that raises an `Exception` leaves the loop that ran it running, and one that raises an `Error` ends that loop |
| JavaScriptApp.ClearedTaskNeverRuns | src/main/java/ch/ethz/inf/vs/actinium/plugnplay/JavaScriptApp.java:403-408 | a cleared task never reaches the queue |
| JavaScriptApp.TimeoutRunsOnce | src/main/java/ch/ethz/inf/vs/actinium/plugnplay/JavaScriptApp.java:389-396 | a timeout fires at most once |
| JavaScriptApp.IntervalRunsAgain | src/main/java/ch/ethz/inf/vs/actinium/plugnplay/JavaScriptApp.java:420-427 | an interval stays due and queues its callback on every tick |
| JavaScriptApp.IdsAreSequential | src/main/java/ch/ethz/inf/vs/actinium/plugnplay/JavaScriptApp.java:274-427 | until the counter wraps, ids are 1, 2, 3… in call order. Exactly those ids have tasks, and no id is returned twice |
| JavaScriptApp.PrependDefaultImporterCode | src/main/java/ch/ethz/inf/vs/actinium/plugnplay/JavaScriptApp.java:251-257 | the script's code is kept unchanged after an import prelude that does not depend on it |
| JavaScriptApp.PreludeRoundTrip | src/main/java/ch/ethz/inf/vs/actinium/plugnplay/JavaScriptApp.java:251-257 | stripping the prelude gives back the original code |
| JavaScriptApp.PreludeImportsEachDefaultPackage | src/main/java/ch/ethz/inf/vs/actinium/plugnplay/JavaScriptApp.java:60-69 | the prelude holds one `importPackage` statement for each default package, after those of the packages listed before it and before those listed after it |
| AppResource.GetAppsNames | src/ch/ethz/inf/vs/actinium/AppResource.java:109-115 | the names of the apps, in list order |
| AppResource.GetApp | src/ch/ethz/inf/vs/actinium/AppResource.java:117-124 | the first app with exactly this name. There is none for a null name or when no name is equal |
| AppResource.GetAppFindsListedNames | src/ch/ethz/inf/vs/actinium/AppResource.java:109-124 | `getApp` finds a name exactly when `getAppsNames` lists it |
| AppResource.GetAppIsCaseSensitive | src/ch/ethz/inf/vs/actinium/AppResource.java:117-124 | an app named with capitals is not found under its lower-case resource identifier |
| AppResource.Indexed | src/ch/ethz/inf/vs/actinium/AppResource.java:225-233 | "start" adds the app's resource identifier to the running index, "stop" removes the child named like the app, and any other value leaves the index alone |
| AppResource.RegistryObserver | src/ch/ethz/inf/vs/actinium/AppResource.java:221-242 | "app" restarts the app and "availability"=unavailable unlists it. Otherwise the app is untouched |
| AppResource.AppObserver | src/ch/ethz/inf/vs/actinium/plugnplay/AbstractApp.java:100-122 | the app's own observer runs `update`, with the registry seeing what it emits |
| AppResource.Notify | src/ch/ethz/inf/vs/actinium/AppResource.java:221-242 | a change-set touches only the app whose store emitted it. An app made unavailable is removed and the rest keep their order |
| AppResource.NotifyRunning | src/ch/ethz/inf/vs/actinium/AppResource.java:225-233 | running=start starts the app and indexes it, running=stop stops it and unindexes its name, and running=restart restarts it |
| AppResource.StoppedAppWithCapitalsStaysIndexed | src/ch/ethz/inf/vs/actinium/AppResource.java:225-233 | an app with a capital letter stays in the running index after it is stopped |
| AppResource.UnavailableAppLeavesList | src/ch/ethz/inf/vs/actinium/AppResource.java:236-241 | "availability"=unavailable removes exactly that app from the list |
| AppResource.AppChangeRestarts | src/ch/ethz/inf/vs/actinium/AppResource.java:225-228 | a change of "app" restarts the app whatever its state |
| AppResource.RestartAppsFrom | src/ch/ethz/inf/vs/actinium/AppResource.java:140-147 | each instance of the app whose store says "start" is restarted and indexed, and every other app is unchanged. An instance without "running" ends the loop with an error |
| AppResource.NotifyRestart | src/ch/ethz/inf/vs/actinium/AppResource.java:143-145 | writing running=restart restarts the instance, writes back running=start and indexes it |
| AppResource.RestartApps | src/ch/ethz/inf/vs/actinium/AppResource.java:140-147 | a null name fails exactly when the list is non-empty, and changes nothing |
| AppResource.NotifyStop | src/ch/ethz/inf/vs/actinium/AppResource.java:161-164 | writing running=stop stops the instance and unindexes its name |
| AppResource.DeleteAppsFrom | src/ch/ethz/inf/vs/actinium/AppResource.java:158-169 | every started or restarting instance is stopped, and the configs of all instances are deleted in list order. Other apps are unchanged and instances stay listed. A config that cannot be deleted ends the loop |
| AppResource.DeleteApps | src/ch/ethz/inf/vs/actinium/AppResource.java:158-169 | a null name fails exactly when the list is non-empty, and changes nothing |
| AppResource.StartAt | src/ch/ethz/inf/vs/actinium/AppResource.java:89-95 | starting a stopped listed app indexes it. A started app changes nothing |
| AppResource.InstallApp | src/ch/ethz/inf/vs/actinium/AppResource.java:178-183 | the app joins the end of the list, and is started exactly when `start_on_install` is true |
| AppResource.InstallDoesNotStartByDefault | src/ch/ethz/inf/vs/actinium/AppResource.java:178-183 | under the default server configuration an installed app is not started |
| AppResource.StartAppsFrom | src/ch/ethz/inf/vs/actinium/AppResource.java:89-95 | exactly the apps whose store has `start_on_startup` true are started and indexed |
| AppResource.CandidatesCount | src/ch/ethz/inf/vs/actinium/AppResource.java:252-263 | the candidate identifiers numbered 2 up to k are pairwise distinct |
| AppResource.CreateUniqueResourceId | src/ch/ethz/inf/vs/actinium/AppResource.java:252-263 | the first `resid(i)`, from i = 2, that is no app's name. One always exists, so null is never returned |
| AppManager.BaseName | src/ch/ethz/inf/vs/actinium/AppManager.java:216-228 | a file name without the extension after its last dot |
| AppManager.BaseNameDropsExtension | src/ch/ethz/inf/vs/actinium/AppManager.java:220-224 | `name.ext` has base name `name` |
| AppManager.FindApp | src/ch/ethz/inf/vs/actinium/AppManager.java:216-228 | the first listed file whose base name is the requested name. There is none exactly when no file has it |
| AppManager.ScriptFileIsFound | src/ch/ethz/inf/vs/actinium/AppManager.java:216-228 | an installed `name.js` is found under `name` |
| AppManager.CreateAppConfigPath | src/ch/ethz/inf/vs/actinium/AppManager.java:253-258 | config directory and prefix, then the name and suffix, with null texts written as "null" |
| AppManager.DefaultConfigPath | src/ch/ethz/inf/vs/actinium/AppManager.java:253-258 | by default the path is `appserver/instances/config_<name>.cfg` |
| AppManager.InstalledConfigIsLoadable | src/ch/ethz/inf/vs/actinium/AppManager.java:286-291 | under the default configuration, the file an install writes passes the filter `loadAllApps` lists with |
| AppManager.FilterAccepts | src/ch/ethz/inf/vs/actinium/AppManager.java:286-291 | a name is accepted exactly when its lower-case form starts with the prefix and ends with the suffix. A missing prefix always throws, and a missing suffix throws only for a name that has the prefix |
| AppManager.EnsureValidAppPath | src/ch/ethz/inf/vs/actinium/AppManager.java:194-228 | fails without "app", without the server's `app_path` setting, without the app directory, or without a matching script, checked in that order. It succeeds exactly when all four are present, and then sets `dir_path` to the app directory and nothing else |
| AppManager.EnsureValidName | src/ch/ethz/inf/vs/actinium/AppManager.java:236-246 | succeeds exactly for a name that is present, not the placeholder, and not an installed app's name |
| AppManager.CreateApp | src/ch/ethz/inf/vs/actinium/AppManager.java:270-280 | only the JavaScript type with a name yields an app. A missing type and an unknown type are distinct errors |
| AppManager.InstallNewApp | src/ch/ethz/inf/vs/actinium/AppManager.java:172-188 | the config is stored exactly when path and name are valid. The instance is created and installed only if its type is also valid, and a failure leaves the registry unchanged |
| AppManager.InstalledAppIsFoundByName | src/ch/ethz/inf/vs/actinium/AppManager.java:172-188 | after a successful install `getApp` finds the new instance under its name, and every other name as before |
| AppManager.SecondInstallUnderSameNameFails | src/ch/ethz/inf/vs/actinium/AppManager.java:236-246 | a second install under the same name fails and leaves the registry as the first made it |
| AppManager.AcceptedFiles | src/ch/ethz/inf/vs/actinium/AppManager.java:100-101 | the listed files the config filter accepts, in listing order and as often as listed, or a failure exactly when the filter throws on some listed name |
| AppManager.LoadApps | src/ch/ethz/inf/vs/actinium/AppManager.java:106-116 | succeeds exactly when every readable accepted config creates an app. Unreadable files are skipped |
| AppManager.LoadAllApps | src/ch/ethz/inf/vs/actinium/AppManager.java:98-119 | a missing `app_config_path` setting, a missing config directory and a throwing filter each fail. Otherwise the accepted files are loaded |
| AppManager.DefaultFilterNeverThrows | src/ch/ethz/inf/vs/actinium/AppManager.java:286-291 | under the default configuration the filter never throws, whatever the listing |
| AppManager.LoadKeepsReadableFiles | src/ch/ethz/inf/vs/actinium/AppManager.java:106-116 | the loaded apps are exactly those created from the readable accepted files, in order |
| AcServer.GetAppName | src/main/java/ch/ethz/inf/vs/actinium/AcServer.java:162-175 | the fourth `split("/")` segment, exactly when the path has more than three segments and the second and third are the apps and running resource identifiers |
| AcServer.GetAppNameOfAppPath | src/main/java/ch/ethz/inf/vs/actinium/AcServer.java:162-175 | every resource below `/<apps>/<running>/<app>` yields that app's name |
| AcServer.DefaultAppPath | src/main/java/ch/ethz/inf/vs/actinium/AcServer.java:162-175 | by default, app resources live below `/installed/apps/<app>` |
| AcServer.DeliverRequestAsWritten | src/main/java/ch/ethz/inf/vs/actinium/AcServer.java:95-153 | a null request is ignored and a missing resource is answered 4.04. A path below an app appends one delivery to the queue of the app whose exact name is the path segment, and changes nothing else. Any other resource is handled inline. Delivery fails exactly when no app has that exact name |
| AcServer.CapitalisedAppIsUnreachable | src/main/java/ch/ethz/inf/vs/actinium/AcServer.java:104-113 | a request for a resource of an app with a capital letter in its name never reaches the app |
| AcServer.AppByResourceId | src/ch/ethz/inf/vs/actinium/plugnplay/AbstractApp.java:51-66 | the first app whose resource identifier is the given path segment |
| AcServer.DeliverRequest | src/main/java/ch/ethz/inf/vs/actinium/AcServer.java:95-153 | a null request is ignored and a missing resource is answered 4.04. A path below an app appends one delivery to that app's queue and changes nothing else. Any other resource is handled inline. Delivery fails exactly when no app has that identifier |
| AcServer.EveryAppIsReachable | src/main/java/ch/ethz/inf/vs/actinium/AcServer.java:104-113 | every app is reached by a request for a resource below its resource identifier |
| AcServer.LowerCaseNamesRouteAlike | src/main/java/ch/ethz/inf/vs/actinium/AcServer.java:104-113 | while no app name has a capital letter, routing as written and routing by resource identifier agree on every request |
| AcServer.HandleRequest | src/main/java/ch/ethz/inf/vs/actinium/AcServer.java:75-92 | routes as written. No exception escapes: a failed delivery is dropped and changes nothing, and every other request is routed as delivery decided |
| AcServer.RouterAnswersOnlyNotFound | src/main/java/ch/ethz/inf/vs/actinium/AcServer.java:145-151 | the router answers a request itself only when its resource is missing, and then with 4.04 |
| Senders.HandleError | src/ch/ethz/inf/vs/actinium/jscoap/SynchronousSender.java:175-182 | marks the request failed and done, then calls `onreadystatechange` and the given callback, in that order |
| Senders.AbortEffects | src/ch/ethz/inf/vs/actinium/jscoap/AsynchronousSender.java:111-120 | failed, not sending and `onreadystatechange` called, then reset to unsent without another event |
| Senders.LoadEffects | src/ch/ethz/inf/vs/actinium/jscoap/AsynchronousSender.java:92-99 | the response is stored, the request is done, then `onreadystatechange` and `onload` are called |
| SyncSender.RaiseAbort | src/ch/ethz/inf/vs/actinium/jscoap/SynchronousSender.java:162-173 | the abort path: `send` raises an abort error and the request is reset to unsent |
| SyncSender.RaiseTimeout | src/ch/ethz/inf/vs/actinium/jscoap/SynchronousSender.java:137-146 | the timeout path: timed out is recorded, `ontimeout` runs and `send` raises a timeout error |
| SyncSender.Respond | src/ch/ethz/inf/vs/actinium/jscoap/SynchronousSender.java:99-117 | every response after execute is recorded. Only one before any abort or timeout is delivered to the script |
| SyncSender.StepInv | src/ch/ethz/inf/vs/actinium/jscoap/SynchronousSender.java:47-182 | every atomic event preserves the reachable-state invariant linking the flags, the outcome paths and the callbacks |
| SyncSender.PathsAreExclusive | src/ch/ethz/inf/vs/actinium/jscoap/SynchronousSender.java:47-182 | in every interleaving at most one of load, timeout and abort runs, and the callbacks follow the paths, with the timeout test both as written and corrected |
| SyncSender.EndingMatchesPath | src/ch/ethz/inf/vs/actinium/jscoap/SynchronousSender.java:47-182 | `send` raises a timeout, abort or network error exactly when that path ran, with the timeout test both as written and corrected |
| SyncSender.AbortBeforeSend | src/ch/ethz/inf/vs/actinium/jscoap/SynchronousSender.java:57-58 | after an abort, `send` returns normally without executing the request |
| SyncSender.AbortThenResponseBeforeWake | src/ch/ethz/inf/vs/actinium/jscoap/SynchronousSender.java:78-85 | an abort then a response before the caller wakes: `send` returns normally and nothing is delivered |
| SyncSender.ResponseCompletesSend | src/ch/ethz/inf/vs/actinium/jscoap/SynchronousSender.java:99-117 | a response before any abort or timeout is delivered, and `send` returns normally |
| SyncSender.EveryResponseLoads | src/ch/ethz/inf/vs/actinium/jscoap/SynchronousSender.java:99-117 | each further response before an abort or timeout runs `onload` again |
| SyncSender.DeadlineTimesOut | src/ch/ethz/inf/vs/actinium/jscoap/SynchronousSender.java:87-96 | a caller woken at the deadline with nothing received times out |
| SyncSender.EarlyWakeKeepsWaiting | src/ch/ethz/inf/vs/actinium/jscoap/SynchronousSender.java:87-96 | a caller woken before the deadline with nothing to report keeps waiting |
| SyncSender.NetworkFailure | src/ch/ethz/inf/vs/actinium/jscoap/SynchronousSender.java:72-75 | a failed execute runs `onerror` and raises a network error |
| SyncSender.SpuriousWakeTimesOutAsWritten | src/ch/ethz/inf/vs/actinium/jscoap/SynchronousSender.java:78-85 | as written, an untimed send times out on its first wakeup |
| SyncSender.UntimedSendNeverTimesOut | src/ch/ethz/inf/vs/actinium/jscoap/SynchronousSender.java:63-64 | with the corrected test, a send with no timeout never times out |
| AsyncSender.SendStep | src/ch/ethz/inf/vs/actinium/jscoap/AsynchronousSender.java:50-82 | a failed execute runs `onerror` and raises a network error. Otherwise the timer is armed exactly when the timeout is positive |
| AsyncSender.Respond | src/ch/ethz/inf/vs/actinium/jscoap/AsynchronousSender.java:85-100 | a response before any abort or timeout is recorded and delivered. Any other response is ignored |
| AsyncSender.Fire | src/ch/ethz/inf/vs/actinium/jscoap/AsynchronousSender.java:68-80 | with no response the request is marked timed out, and `ontimeout` runs only if there was no abort either |
| AsyncSender.AbortStep | src/ch/ethz/inf/vs/actinium/jscoap/AsynchronousSender.java:103-121 | effective exactly before any response or timeout, and then it runs the abort path |
| AsyncSender.StepInv | src/ch/ethz/inf/vs/actinium/jscoap/AsynchronousSender.java:50-130 | every atomic event preserves the reachable-state invariant |
| AsyncSender.PathsAreExclusive | src/ch/ethz/inf/vs/actinium/jscoap/AsynchronousSender.java:19-20 | in every interleaving at most one of load, timeout and abort runs, and the callbacks follow the paths |
| AsyncSender.ErrorExcludesLoadAndTimeout | src/ch/ethz/inf/vs/actinium/jscoap/AsynchronousSender.java:59-64 | after a failed execute, neither `onload` nor `ontimeout` ever runs |
| AsyncSender.TimerArmedIff | src/ch/ethz/inf/vs/actinium/jscoap/AsynchronousSender.java:67-81 | the timer is armed exactly when the timeout is positive and execute succeeded |
| AsyncSender.NetworkFailure | src/ch/ethz/inf/vs/actinium/jscoap/AsynchronousSender.java:59-64 | a failed execute runs `onreadystatechange` then `onerror` and raises a network error |
| AsyncSender.RepeatedAbortRerunsAbortPath | src/ch/ethz/inf/vs/actinium/jscoap/AsynchronousSender.java:103-121 | a second abort before any response runs the abort path again |
| AsyncSender.TimerAfterAbort | src/ch/ethz/inf/vs/actinium/jscoap/AsynchronousSender.java:68-78 | the timer marks an aborted request timed out but calls nothing |
| AsyncSender.TimeoutSilencesTheRest | src/ch/ethz/inf/vs/actinium/jscoap/AsynchronousSender.java:68-100 | after a reported timeout, responses and aborts do nothing |
| AsyncSender.EveryResponseLoads | src/ch/ethz/inf/vs/actinium/jscoap/AsynchronousSender.java:85-100 | every response before an abort or timeout, notifications included, runs `onload` |
| AsyncSender.AbortBeforeSendStillExecutes | src/ch/ethz/inf/vs/actinium/jscoap/AsynchronousSender.java:50-82 | an abort before `send` runs the abort path, yet `send` still executes and later responses are ignored |
| AsyncSender.AbortAfterNetworkFailure | src/ch/ethz/inf/vs/actinium/jscoap/AsynchronousSender.java:103-121 | a failed execute does not stop a later abort from running the abort path as well |
| JavaText.IntTextRoundTrip | src/main/java/ch/ethz/inf/vs/actinium/cfg/AbstractConfig.java:125-146 | every 32-bit int's decimal text parses back to it |
| JavaText.BoolTextRoundTrip | src/main/java/ch/ethz/inf/vs/actinium/cfg/AbstractConfig.java:129-161 | a boolean's text parses back to it |
| JavaText.SplitIsTrimmedPieces | src/main/java/ch/ethz/inf/vs/actinium/AcServer.java:165 | `split` is the pieces between delimiters with trailing empty pieces removed |
| JavaText.LowerFixesExactlyLowerCase | src/ch/ethz/inf/vs/actinium/plugnplay/AbstractApp.java:51-66 | lower-casing changes a text exactly when it has a capital letter |

## Left out

- The `AppResource` constructor is not modelled as a member. The registry is a value, and a freshly loaded list is `AppManager.LoadAllApps` plus the observer `addApp` attaches. The `RunningResource` and config resources it creates belong to the Californium resource tree, which is not part of this model.
- `AppConfig` and `AppType` are not part of this model. The spellings of their keys and values ("running", "start", "JavaScript", …) are assumed, and the model depends only on their being distinct.
- Script execution is not modelled, because the Rhino engine is a foreign component. This covers `startImpl`'s thread, `execute`, `cleanup` and the script's `onunload`. They are recorded as ordered hooks, and a script function is an opaque number.
- File I/O is a parameter. The store write is not modelled. `deleteConfig` failing is the `undeletable` set of `DeleteAppsFrom`. A directory listing is an optional sequence of names, and a readable configuration is a parsed store.
- `Properties` text parsing and the Californium request, response and observe machinery are left out. A PUT or POST payload is an optional parsed map. Whether an inline resource produced a response is the `responds` flag of `AcServer.DeliverRequest`. Observation set-up on inline GETs is not modelled.
- `AcServer` statistics recording, `StatsResource`, and the stats calls of `AppManager.installNewApp` and `deleteApps` are left out: they never change routing.
- `AppManager.getApp`, `getAllApps`, `restartApps` and `deleteApps` are not modelled separately: each delegates to the `AppResource` member of the same name, which is modelled.
- An app's name is fixed when the instance is built. `AbstractApp.getName` reads the name from the store on every call, but no modelled operation changes it.
- AppManager.InstallNewApp: returns the new instance's resource identifier instead of the `getPath()` of its resource, because the resource tree is not part of the model.
- Threads, monitors, `Thread.interrupt` and `java.util.Timer` are left out as such. Each `synchronized` block is one atomic event, and every interleaving of events is covered.
- SyncSender: `Interrupt` acts only while the caller is waiting, because that is the only place `InterruptedException` can be thrown.
- SyncSender: the request object's initial status is a parameter, because `JavaScriptCoAPRequest`, which owns it, is not part of this model.
- SyncSender: the clock is an abstract non-decreasing integer, not milliseconds since 1970.
- JavaScriptApp.ConvertToOutput: arguments are given as their `toString` texts, because the Rhino values themselves are not modelled. A null argument is `None`.
- JavaScriptApp: `sleep`, `getTime`, `getNanoTime`, `getProperty`, `shutdown` and `restart` on the `app` object are left out. They are direct calls into the clock, the store or the lifecycle, which are modelled elsewhere.
- The extra arguments of `setTimeout` and `setInterval` are not modelled, because they are only passed through to the script function.
- `WorkQueue.start` is left out because nothing calls it. `execute` is the `Execute` event, a thread entering the loop, and the interrupt of `stop()` is the `Interrupt` event.
- App.ReceiveMessages: a separate step, not part of `App.Start` or `App.Restart`. Whether a started script thread reaches its loop depends on whether the script's code runs without an exception, and the script is not modelled.
- ConfigStore.Post: the text of the 2.04 reply ("successfully changed keys: " and the change-set) is not modelled. Only the code is, because the payload of a response is not part of this model.
- The timer's clock reading is a parameter of `JavaScriptApp.SetTimer`, because `System.currentTimeMillis` is a system clock.
- `JavaScriptCoAPRequest` and `AbstractSender` are not part of this model beyond the status fields and callbacks the senders write.
- JavaText.Lower: lower-cases ASCII capitals only. Java's `toLowerCase` also lowers every other Unicode capital, so names that differ only in non-ASCII case are told apart here.
- JavaText.LowerFixesExactlyLowerCase: "capital letter" means an ASCII capital, as `JavaText.Lower` does.
- JavaText.ParseInt: accepts ASCII decimal digits only. Java's `Integer.parseInt` also accepts the decimal digits of other Unicode scripts.
- ConfigStore.GetInt: inherits the ASCII-only digits of `JavaText.ParseInt`, so a value written with other Unicode decimal digits reads as 0 here.
- AppResource.DeleteAppsFrom: assumes that `AppConfig.deleteConfig` only deletes the file and emits no change-set, since that class is not part of this model. If it notified "availability"=unavailable, the observer would also unlist each instance, as the Javadoc of `deleteApps` suggests (AppResource.java:150-151).
- Adding subresources from a script (`addSubResource`) is not modelled as an operation. Only the lifecycle's clearing of the subresource set is.

## Findings

| source | as written | input that shows it | evidently intended | confidence | as-written member | corrected member |
|---|---|---|---|---|---|---|
| src/main/java/ch/ethz/inf/vs/actinium/AcServer.java:112 | the app named in the request path is looked up with `getApp`, which compares exact names, but the path segment is the app's resource identifier: its name in lower case | an app named `Clock`, with no app named `clock`, and a request for `/installed/apps/clock/x`: `getApp("clock")` returns null and the request is dropped | look the app up by its resource identifier, so that every app is reachable | not executed | AcServer.CapitalisedAppIsUnreachable | AcServer.EveryAppIsReachable |
| src/ch/ethz/inf/vs/actinium/jscoap/SynchronousSender.java:63-64 | with `timeout <= 0` the untimed wait still calls `checkTimeout` after each wakeup, and `isTimeout` holds because `now >= timestamp + timeout` | timeout 0, send, then any wakeup (for example a spurious one) before a response: `send` raises a timeout error | a timeout of zero or less means wait without a deadline | not executed | SyncSender.SpuriousWakeTimesOutAsWritten | SyncSender.UntimedSendNeverTimesOut |
