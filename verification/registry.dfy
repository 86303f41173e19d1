/** `AppResource`: the list of installed app instances and the index of
    running apps (the `RunningResource` children, by resource identifier),
    kept up to date by an observer it attaches to every app's store.

    Every change-set an app's store emits reaches two observers: the one
    `addApp` attaches here and the app's own `update`. `Observable` calls
    the one added last first, so the registry's observer runs before the
    app's. The change-sets the app's own transitions emit during its
    `update` reach the registry's observer too; they always name only
    "running" and are replayed with `Observed`. Apps are identified by their
    position in the list. */
module AppResource {
  import opened Wrappers
  import opened JavaText
  import opened ConfigStore
  import opened App
  import ServerConfig

  datatype Registry = Registry(apps: seq<AppState>, running: set<string>)

  // ------------------------------------------------------------- queries

  /** `getAppsNames`: the names, in list order. */
  function GetAppsNames(r: Registry): (names: seq<string>)
    ensures |names| == |r.apps|
    ensures forall i :: 0 <= i < |r.apps| ==> names[i] == r.apps[i].name
  {
    seq(|r.apps|, i requires 0 <= i < |r.apps| => r.apps[i].name)
  }

  /** `getApp`: the position of the first app with exactly this name; none
      for a null name or when no name is equal. */
  function GetApp(r: Registry, name: Option<string>): (found: Option<nat>)
    ensures name.None? ==> found.None?
    ensures found.Some? ==> found.value < |r.apps| && r.apps[found.value].name == name.value
    ensures found.Some? ==> forall j :: 0 <= j < found.value ==> r.apps[j].name != name.value
    ensures found.None? && name.Some? ==> forall j :: 0 <= j < |r.apps| ==> r.apps[j].name != name.value
  {
    match name
    case None => None
    case Some(n) => FirstNamed(r.apps, n, 0)
  }

  function FirstNamed(apps: seq<AppState>, name: string, from: nat): (found: Option<nat>)
    requires from <= |apps|
    ensures found.Some? ==> from <= found.value < |apps| && apps[found.value].name == name
    ensures found.Some? ==> forall j :: from <= j < found.value ==> apps[j].name != name
    ensures found.None? ==> forall j :: from <= j < |apps| ==> apps[j].name != name
    decreases |apps| - from
  {
    if from == |apps| then None
    else if apps[from].name == name then Some(from)
    else FirstNamed(apps, name, from + 1)
  }

  /** A name is found exactly when `getAppsNames` lists it. */
  lemma GetAppFindsListedNames(r: Registry, name: string)
    ensures GetApp(r, Some(name)).Some? <==> name in GetAppsNames(r)
  {
    var names := GetAppsNames(r);
    if name in names {
      var i :| 0 <= i < |names| && names[i] == name;
      assert r.apps[i].name == name;
    }
  }

  /** Names are compared case-sensitively: an app named with capitals is not
      found under its resource identifier unless another app has that
      name. */
  lemma GetAppIsCaseSensitive(r: Registry, i: nat)
    requires i < |r.apps| && HasUpper(r.apps[i].name)
    requires forall j :: 0 <= j < |r.apps| ==> r.apps[j].name != ResourceId(r.apps[i])
    ensures GetApp(r, Some(ResourceId(r.apps[i]))).None?
    ensures GetApp(r, Some(r.apps[i].name)).Some?
  {
    GetAppFindsListedNames(r, r.apps[i].name);
    assert GetAppsNames(r)[i] == r.apps[i].name;
  }

  // ------------------------------------------------------------- observer

  /** The running index after the registry's observer sees "running" on app
      `a`: "start" adds the app's resource (identified by its lower-case
      name), "stop" removes the child whose identifier is the app's name,
      any other value changes nothing. */
  function Indexed(running: set<string>, a: AppState): (r: set<string>)
    requires Running in a.cfg
    ensures a.cfg[Running] == StartValue ==> ResourceId(a) in r && r - {ResourceId(a)} == running - {ResourceId(a)}
    ensures a.cfg[Running] == StopValue ==> a.name !in r && r + {a.name} == running + {a.name}
    ensures a.cfg[Running] !in {StartValue, StopValue} ==> r == running
  {
    var v := a.cfg[Running];
    if v == StartValue then running + {ResourceId(a)}
    else if v == StopValue then running - {a.name}
    else running
  }

  /** Replays, on the index, the change-sets an app's transition emitted. */
  function Observed(running: set<string>, a: AppState, notes: seq<ChangeSet>): (r: set<string>)
    requires notes == [] || (notes == [{Running}] && Running in a.cfg)
  {
    if notes == [] then running else Indexed(running, a)
  }

  /** One app while a change-set is being dispatched: its state, the index,
      and whether it is still in the list. */
  datatype Slot = Slot(app: AppState, running: set<string>, listed: bool)

  /** The observer `addApp` attaches: "app" restarts the app, "running"
      updates the index, "availability" = unavailable takes the app off the
      list. */
  function RegistryObserver(w: Slot, cs: ChangeSet, now: int): (v: Slot)
    requires Describes(w.app.cfg, cs)
    ensures Describes(v.app.cfg, cs) && v.app.name == w.app.name && v.app.worker == w.app.worker
    ensures AppKey !in cs ==> v.app == w.app
    ensures AppKey in cs ==> v.app.started
    ensures v.listed <==> w.listed && !(Availability in cs && w.app.cfg[Availability] == Unavailable)
  {
    var w1 :=
      if AppKey in cs then
        var s := Restart(w.app, now);
        Slot(s.app, Observed(w.running, s.app, s.notes), w.listed)
      else w;
    var w2 := if Running in cs then w1.(running := Indexed(w1.running, w1.app)) else w1;
    if Availability in cs && w2.app.cfg[Availability] == Unavailable then w2.(listed := false) else w2
  }

  /** The app's own observer, with the registry seeing what it emits. */
  function AppObserver(w: Slot, cs: ChangeSet, now: int): (v: Slot)
    requires Describes(w.app.cfg, cs)
    ensures v.listed == w.listed && v.app == Update(w.app, cs, now).app
  {
    UpdateSpec(w.app, cs, now);
    var s := Update(w.app, cs, now);
    Slot(s.app, Observed(w.running, s.app, s.notes), w.listed)
  }

  /** A change-set emitted by the store of the app at position `i`. An app
      taken off the list is dropped; every other app stays where it was. */
  function Notify(r: Registry, i: nat, cs: ChangeSet, now: int): (r': Registry)
    requires i < |r.apps| && Describes(r.apps[i].cfg, cs)
    ensures var gone := Availability in cs && r.apps[i].cfg[Availability] == Unavailable;
      && (!gone ==> |r'.apps| == |r.apps| && forall j :: 0 <= j < |r.apps| && j != i ==> r'.apps[j] == r.apps[j])
      && (gone ==> r'.apps == r.apps[..i] + r.apps[i + 1..])
  {
    var w := RegistryObserver(Slot(r.apps[i], r.running, true), cs, now);
    var v := AppObserver(w, cs, now);
    Registry(if v.listed then r.apps[i := v.app] else r.apps[..i] + r.apps[i + 1..], v.running)
  }

  /** Writing running=start on a stopped app starts it and lists it as
      running; writing running=stop on a started app stops it and removes
      the child named like the app. */
  lemma NotifyRunning(r: Registry, i: nat, now: int)
    requires i < |r.apps| && Running in r.apps[i].cfg
    ensures var a := r.apps[i]; var r' := Notify(r, i, {Running}, now);
      && |r'.apps| == |r.apps|
      && (a.cfg[Running] == StartValue ==> r'.apps[i].started && ResourceId(a) in r'.running)
      && (a.cfg[Running] == StopValue ==> !r'.apps[i].started && a.name !in r'.running)
      && (a.cfg[Running] == RestartValue ==>
            r'.apps[i].started && r'.apps[i].cfg[Running] == StartValue && ResourceId(a) in r'.running)
  {
    var a := r.apps[i];
    var w := RegistryObserver(Slot(a, r.running, true), {Running}, now);
    UpdateSpec(w.app, {Running}, now);
  }

  /** An app whose name has a capital letter stays in the running index
      after it is stopped: the index adds it under its lower-case resource
      identifier but removes it under its name. */
  lemma StoppedAppWithCapitalsStaysIndexed(r: Registry, i: nat, t0: int, t1: int)
    requires i < |r.apps| && HasUpper(r.apps[i].name)
    requires Running in r.apps[i].cfg && r.apps[i].cfg[Running] == StartValue && !r.apps[i].started
    ensures var r1 := Notify(r, i, {Running}, t0);
      var stopped := r1.(apps := r1.apps[i := r1.apps[i].(cfg := r1.apps[i].cfg[Running := StopValue])]);
      var r2 := Notify(stopped, i, {Running}, t1);
      !r2.apps[i].started && ResourceId(r.apps[i]) in r2.running
  {
    var a := r.apps[i];
    LowerFixesExactlyLowerCase(a.name);
    assert ResourceId(a) != a.name;
    var r1 := Notify(r, i, {Running}, t0);
    NotifyRunning(r, i, t0);
    assert r1.apps[i].name == a.name by {
      var w := RegistryObserver(Slot(a, r.running, true), {Running}, t0);
      UpdateSpec(w.app, {Running}, t0);
    }
    var stopped := r1.(apps := r1.apps[i := r1.apps[i].(cfg := r1.apps[i].cfg[Running := StopValue])]);
    NotifyStop(stopped, i, t1);
  }

  /** "availability" = unavailable takes exactly that app off the list. */
  lemma UnavailableAppLeavesList(r: Registry, i: nat, now: int)
    requires i < |r.apps| && Availability in r.apps[i].cfg && r.apps[i].cfg[Availability] == Unavailable
    ensures |Notify(r, i, {Availability}, now).apps| == |r.apps| - 1
    ensures GetAppsNames(Notify(r, i, {Availability}, now)) == GetAppsNames(r)[..i] + GetAppsNames(r)[i + 1..]
  {
  }

  /** A change of "app" restarts the app whatever its state. */
  lemma AppChangeRestarts(r: Registry, i: nat, now: int)
    requires i < |r.apps| && AppKey in r.apps[i].cfg
    ensures Notify(r, i, {AppKey}, now).apps[i].started
    ensures Notify(r, i, {AppKey}, now).apps[i].startTs == now
  {
    var w := RegistryObserver(Slot(r.apps[i], r.running, true), {AppKey}, now);
    UpdateSpec(w.app, {AppKey}, now);
  }

  // --------------------------------------------------- bulk transitions

  /** Why a bulk operation stopped early: a null app name, an instance
      whose store has no "running", or a config file that could not be
      deleted. Work done before the failure stays done. */
  datatype RegistryError = NullName | MissingRunning | NotDeleted(name: string)

  datatype Attempt = Attempt(reg: Registry, error: Option<RegistryError>)

  /** Whether the app at `i` is an instance of the app named `name`. */
  predicate InstanceOf(a: AppState, name: string) {
    AppKey in a.cfg && a.cfg[AppKey] == name
  }

  /** The instance `restartApps` restarts: one of `name` whose store says
      "start". */
  predicate Restartable(a: AppState, name: string) {
    InstanceOf(a, name) && Running in a.cfg && a.cfg[Running] == StartValue
  }

  /** `restartApps` from position `i` on: each instance of `name` whose
      store says "start" gets running=restart written and notified. */
  function RestartAppsFrom(r: Registry, name: string, now: int, i: nat): (t: Attempt)
    requires i <= |r.apps|
    ensures |t.reg.apps| == |r.apps|
    ensures forall j :: 0 <= j < i ==> t.reg.apps[j] == r.apps[j]
    ensures r.running <= t.reg.running
    ensures t.error.None? || t.error == Some(MissingRunning)
    ensures t.error.None? <==> forall j :: i <= j < |r.apps| && InstanceOf(r.apps[j], name) ==> Running in r.apps[j].cfg
    ensures t.error.None? ==> forall j :: i <= j < |r.apps| ==>
      if Restartable(r.apps[j], name)
      then t.reg.apps[j].started && t.reg.apps[j].startTs == now && t.reg.apps[j].subresources == {}
           && t.reg.apps[j].cfg == r.apps[j].cfg && ResourceId(r.apps[j]) in t.reg.running
      else t.reg.apps[j] == r.apps[j]
    decreases |r.apps| - i
  {
    if i == |r.apps| then Attempt(r, None)
    else
      var a := r.apps[i];
      if !InstanceOf(a, name) then RestartAppsFrom(r, name, now, i + 1)
      else if Running !in a.cfg then Attempt(r, Some(MissingRunning))
      else if a.cfg[Running] != StartValue then RestartAppsFrom(r, name, now, i + 1)
      else
        var written := r.(apps := r.apps[i := a.(cfg := a.cfg[Running := RestartValue])]);
        var r1 := Notify(written, i, {Running}, now);
        NotifyRestart(written, i, now);
        assert forall j :: i < j < |r.apps| ==> r1.apps[j] == r.apps[j];
        RestartAppsFrom(r1, name, now, i + 1)
  }

  /** What notifying running=restart does to an app whose store said "start". */
  lemma NotifyRestart(r: Registry, i: nat, now: int)
    requires i < |r.apps| && Running in r.apps[i].cfg && r.apps[i].cfg[Running] == RestartValue
    ensures var r' := Notify(r, i, {Running}, now); var a := r.apps[i];
      && r'.apps == r.apps[i := r'.apps[i]]
      && r'.apps[i].started && r'.apps[i].startTs == now && r'.apps[i].subresources == {}
      && r'.apps[i].cfg == a.cfg[Running := StartValue] && r'.apps[i].name == a.name
      && r'.running == r.running + {ResourceId(a)}
  {
    var a := r.apps[i];
    var w := RegistryObserver(Slot(a, r.running, true), {Running}, now);
    assert w.app == a && w.running == r.running;
    UpdateSpec(a, {Running}, now);
  }

  /** `restartApps`: a null name fails on the first app; an instance of
      the app without "running" stops the loop there. */
  function RestartApps(r: Registry, name: Option<string>, now: int): (t: Attempt)
    ensures name.None? ==> (t.error.Some? <==> |r.apps| > 0) && t.reg == r
    ensures name.Some? ==> t == RestartAppsFrom(r, name.value, now, 0)
  {
    match name
    case None => Attempt(r, if |r.apps| > 0 then Some(NullName) else None)
    case Some(n) => RestartAppsFrom(r, n, now, 0)
  }

  /** The names of the instances of `name`, in list order. */
  function InstanceNames(apps: seq<AppState>, name: string): (names: seq<string>)
    ensures |names| <= |apps|
  {
    if |apps| == 0 then []
    else (if InstanceOf(apps[0], name) then [apps[0].name] else []) + InstanceNames(apps[1..], name)
  }

  /** A `deleteApps` run: the registry, the configs deleted, in order, and
      the failure that ended the loop, if any. */
  datatype Deletion = Deletion(reg: Registry, deleted: seq<string>, error: Option<RegistryError>)

  /** What notifying running=stop does: the app is stopped and the index
      no longer holds its name. */
  lemma NotifyStop(r: Registry, i: nat, now: int)
    requires i < |r.apps| && Running in r.apps[i].cfg && r.apps[i].cfg[Running] == StopValue
    ensures var r' := Notify(r, i, {Running}, now); var a := r.apps[i];
      && r'.apps == r.apps[i := r'.apps[i]]
      && !r'.apps[i].started && r'.apps[i].cfg == a.cfg && r'.apps[i].name == a.name
      && r'.running == r.running - {a.name}
  {
    var a := r.apps[i];
    UpdateSpec(a, {Running}, now);
  }

  /** `deleteApps` from position `i` on, over a snapshot of the list: each
      instance of `name` that the store says is started or restarting gets
      running=stop written and notified, then its config is deleted. The
      config files of the apps named in `undeletable` cannot be deleted;
      the `IOException` ends the loop. */
  function DeleteAppsFrom(r: Registry, name: string, now: int, undeletable: set<string>, i: nat)
    : (t: Deletion)
    requires i <= |r.apps|
    ensures |t.reg.apps| == |r.apps|
    ensures forall j :: 0 <= j < i ==> t.reg.apps[j] == r.apps[j]
    ensures t.reg.running <= r.running
    ensures t.error.None? ==> t.deleted == InstanceNames(r.apps[i..], name)
    ensures t.error.None? ==> forall j :: i <= j < |r.apps| ==>
      if InstanceOf(r.apps[j], name)
      then Running in r.apps[j].cfg && r.apps[j].name !in undeletable && StoppedForDeletion(r.apps[j], t.reg.apps[j])
           && (r.apps[j].cfg[Running] in {StartValue, RestartValue} ==> r.apps[j].name !in t.reg.running)
      else t.reg.apps[j] == r.apps[j]
    decreases |r.apps| - i
  {
    if i == |r.apps| then Deletion(r, [], None)
    else
      var a := r.apps[i];
      assert r.apps[i..] == [a] + r.apps[i + 1..];
      if !InstanceOf(a, name) then DeleteAppsFrom(r, name, now, undeletable, i + 1)
      else if Running !in a.cfg then Deletion(r, [], Some(MissingRunning))
      else
        var r1 :=
          if a.cfg[Running] in {StartValue, RestartValue} then
            var written := r.(apps := r.apps[i := a.(cfg := a.cfg[Running := StopValue])]);
            NotifyStop(written, i, now);
            Notify(written, i, {Running}, now)
          else r;
        assert forall j :: 0 <= j < |r.apps| && j != i ==> r1.apps[j] == r.apps[j];
        if a.name in undeletable then Deletion(r1, [], Some(NotDeleted(a.name)))
        else
          var rest := DeleteAppsFrom(r1, name, now, undeletable, i + 1);
          Deletion(rest.reg, [a.name] + rest.deleted, rest.error)
  }

  /** An instance after `deleteApps` handled it: if its store said "start"
      or "restart" it now says "stop" and the app is stopped; otherwise it
      is as it was. It stays in the list: deleting the config file does not
      make it unavailable. */
  predicate StoppedForDeletion(before: AppState, after: AppState)
    requires Running in before.cfg
  {
    if before.cfg[Running] in {StartValue, RestartValue}
    then after.cfg == before.cfg[Running := StopValue] && !after.started && after.name == before.name
    else after == before
  }

  function DeleteApps(r: Registry, name: Option<string>, now: int, undeletable: set<string>): (t: Deletion)
    ensures name.None? ==> t.reg == r && t.deleted == [] && (t.error.Some? <==> |r.apps| > 0)
    ensures name.Some? ==> t == DeleteAppsFrom(r, name.value, now, undeletable, 0)
  {
    match name
    case None => Deletion(r, [], if |r.apps| > 0 then Some(NullName) else None)
    case Some(n) => DeleteAppsFrom(r, n, now, undeletable, 0)
  }

  // ---------------------------------------------------------- installing

  /** `app.start()` on the app at position `i`; the registry sees the
      change-set it emits. */
  function StartAt(r: Registry, i: nat, now: int): (r': Registry)
    requires i < |r.apps|
    ensures r'.apps == r.apps[i := Start(r.apps[i], now).app]
    ensures !r.apps[i].started ==> r'.running == r.running + {ResourceId(r.apps[i])}
    ensures r.apps[i].started ==> r' == r
  {
    var s := Start(r.apps[i], now);
    Registry(r.apps[i := s.app], Observed(r.running, s.app, s.notes))
  }

  /** `installApp`: the app joins the end of the list and is started when
      the server's `start_on_install` is true. */
  function InstallApp(r: Registry, server: Store, a: AppState, now: int): (r': Registry)
    ensures |r'.apps| == |r.apps| + 1 && r'.apps[..|r.apps|] == r.apps
    ensures r'.apps[|r.apps|] == if GetBool(server, ServerConfig.StartOnInstall) then Start(a, now).app else a
    ensures r'.running == if GetBool(server, ServerConfig.StartOnInstall) && !a.started
                          then r.running + {ResourceId(a)} else r.running
  {
    var added := Registry(r.apps + [a], r.running);
    if GetBool(server, ServerConfig.StartOnInstall) then StartAt(added, |r.apps|, now) else added
  }

  /** With the default server configuration an installed app is not started. */
  lemma InstallDoesNotStartByDefault(r: Registry, a: AppState, now: int)
    ensures InstallApp(r, ServerConfig.Load(None), a, now) == Registry(r.apps + [a], r.running)
  {
    ServerConfig.StartOnInstallDefaultsToFalse(None);
  }

  /** `startApps` from position `i` on: starts exactly the apps whose store
      has `start_on_startup` true. */
  function StartAppsFrom(r: Registry, now: int, i: nat): (r': Registry)
    requires i <= |r.apps|
    ensures |r'.apps| == |r.apps|
    ensures forall j :: 0 <= j < i ==> r'.apps[j] == r.apps[j]
    ensures forall j :: i <= j < |r.apps| ==>
      r'.apps[j] == if GetBool(r.apps[j].cfg, StartOnStartup) then Start(r.apps[j], now).app else r.apps[j]
    ensures r.running <= r'.running
    ensures forall j :: i <= j < |r.apps| && GetBool(r.apps[j].cfg, StartOnStartup) && !r.apps[j].started ==>
      ResourceId(r.apps[j]) in r'.running
    decreases |r.apps| - i
  {
    if i == |r.apps| then r
    else
      var r1 := if GetBool(r.apps[i].cfg, StartOnStartup) then StartAt(r, i, now) else r;
      StartAppsFrom(r1, now, i + 1)
  }

  // ------------------------------------------------ unique identifiers

  /** The identifier `createUniqueResourceId` tries with the number `i`. */
  function Candidate(resid: string, i: nat): string {
    resid + "(" + Decimal(i) + ")"
  }

  lemma CandidateInjective(resid: string, i: nat, j: nat)
    requires Candidate(resid, i) == Candidate(resid, j)
    ensures i == j
  {
    var a := Candidate(resid, i);
    var b := Candidate(resid, j);
    assert |Decimal(i)| == |Decimal(j)|;
    assert Decimal(i) == a[|resid| + 1..|a| - 1];
    assert Decimal(j) == b[|resid| + 1..|b| - 1];
    DecimalInjective(i, j);
  }

  /** The candidates with numbers from 2 up to, not including, `k`. */
  function Candidates(resid: string, k: nat): set<string>
    decreases k
  {
    if k <= 2 then {} else Candidates(resid, k - 1) + {Candidate(resid, k - 1)}
  }

  /** A candidate numbered `j` is not among those numbered below `k <= j`. */
  lemma {:induction false} LaterCandidateIsNew(resid: string, k: nat, j: nat)
    requires k <= j
    ensures Candidate(resid, j) !in Candidates(resid, k)
    decreases k
  {
    if k > 2 {
      LaterCandidateIsNew(resid, k - 1, j);
      if Candidate(resid, j) == Candidate(resid, k - 1) {
        CandidateInjective(resid, j, k - 1);
      }
    }
  }

  /** The candidates numbered 2 up to `k` are pairwise distinct: there are
      `k - 2` of them. */
  lemma {:induction false} CandidatesCount(resid: string, k: nat)
    ensures |Candidates(resid, k)| == if k <= 2 then 0 else k - 2
    decreases k
  {
    if k > 2 {
      CandidatesCount(resid, k - 1);
      LaterCandidateIsNew(resid, k - 1, k - 1);
    }
  }

  /** `createUniqueResourceId`: the first candidate, from number 2 on, that
      is not an app's name. With n distinct names among the n + 1
      candidates 2 .. n + 2 one is always free, so the `null` after the loop
      is never returned. */
  method CreateUniqueResourceId(r: Registry, resid: string) returns (id: Option<string>)
    ensures id.Some?
    ensures exists i: nat :: (2 <= i && id.value == Candidate(resid, i)
      && forall j :: 2 <= j < i ==> Candidate(resid, j) in GetAppsNames(r))
    ensures id.value !in GetAppsNames(r)
  {
    var names := GetAppsNames(r);
    var allids := set k | 0 <= k < |names| :: names[k];
    var i: nat := 2;
    while i < |allids| + 1 + 2
      invariant 2 <= i <= |allids| + 3
      invariant Candidates(resid, i) <= allids
      invariant forall j :: 2 <= j < i ==> Candidate(resid, j) in allids
    {
      var test := Candidate(resid, i);
      if test !in allids {
        assert test !in names;
        return Some(test);
      }
      i := i + 1;
    }
    CandidatesCount(resid, i);
    assert |Candidates(resid, i)| > |allids|;
    SubsetCard(Candidates(resid, i), allids);
    assert false;
    return None;
  }

  lemma SubsetCard<T>(a: set<T>, b: set<T>)
    requires a <= b
    ensures |a| <= |b|
  {
    assert b == a + (b - a);
  }
}
