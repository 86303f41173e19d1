/** `AppManager`: install-time validation and the creation of app instances
    from their configurations. The file system is a parameter: a directory
    listing is a sequence of file names (absent when the directory does not
    exist, where `File.list` returns null), and the app configurations that
    can be read are a map from file name to parsed store. */
module AppManager {
  import opened Wrappers
  import opened JavaText
  import opened ConfigStore
  import opened App
  import opened AppResource
  import ServerConfig

  // Declared by `AppConfig` and `AppType`, which are not part of this model:
  // the spellings are assumptions and only their distinctness matters.
  const NameKey: string := "name"
  const Unnamed: string := "unnamed"
  const JavaScriptType: string := "JavaScript"

  /** `AppConfig.getName`: the instance name, or null. */
  function ConfigName(cfg: Store): Option<string> {
    Get(cfg, NameKey)
  }

  /** The exceptions install and load can end in. */
  datatype InstallError =
    | NoAppSpecified      // no "app" property
    | UnsetServerKey      // a server setting read as a path or affix is absent: `new File(null)`, `startsWith(null)`
    | NoAppDirectory      // the app directory cannot be listed
    | AppNotFound         // no script file for the "app" property
    | NoName              // a null or the placeholder name
    | NameInUse           // an installed app has exactly this name
    | NullType            // no "type" property
    | UnknownType         // a type other than JavaScript
    | Nameless            // an instance without a name cannot be constructed

  // ----------------------------------------------------------- file names

  /** A file name without its extension: everything before the last '.'. */
  function BaseName(file: string): (b: string)
    ensures '.' !in file ==> b == file
    ensures '.' in file ==> b == file[..LastIndexOf(file, '.')] && file[|b|] == '.'
  {
    var last := LastIndexOf(file, '.');
    if last == -1 then file else file[..last]
  }

  /** A name followed by an extension without a dot has that name as its
      base name. */
  lemma BaseNameDropsExtension(name: string, ext: string)
    requires '.' !in ext
    ensures BaseName(name + "." + ext) == name
  {
    var f := name + "." + ext;
    assert f[|name|] == '.';
    forall j | |name| < j < |f| ensures f[j] != '.' {
      assert f[j] == ext[j - |name| - 1];
    }
    assert f[..|name|] == name;
  }

  /** `findApp`: the first file of the app directory whose base name is the
      requested name. */
  function FindApp(listing: seq<string>, name: string): (found: Option<string>)
    ensures found.None? <==> forall i :: 0 <= i < |listing| ==> BaseName(listing[i]) != name
    ensures found.Some? ==> exists i :: (0 <= i < |listing| && listing[i] == found.value
      && BaseName(found.value) == name && forall j :: 0 <= j < i ==> BaseName(listing[j]) != name)
  {
    match FirstWithBase(listing, name, 0)
    case None => None
    case Some(i) => Some(listing[i])
  }

  function FirstWithBase(listing: seq<string>, name: string, from: nat): (found: Option<nat>)
    requires from <= |listing|
    ensures found.Some? ==> (from <= found.value < |listing| && BaseName(listing[found.value]) == name
      && forall j :: from <= j < found.value ==> BaseName(listing[j]) != name)
    ensures found.None? ==> forall j :: from <= j < |listing| ==> BaseName(listing[j]) != name
    decreases |listing| - from
  {
    if from == |listing| then None
    else if BaseName(listing[from]) == name then Some(from)
    else FirstWithBase(listing, name, from + 1)
  }

  /** An installed script `name.js` is found under its name. */
  lemma ScriptFileIsFound(listing: seq<string>, name: string)
    requires name + ".js" in listing
    ensures FindApp(listing, name).Some?
  {
    BaseNameDropsExtension(name, "js");
    assert name + "." + "js" == name + ".js";
    var i :| 0 <= i < |listing| && listing[i] == name + ".js";
  }

  /** `createAppConfigPath`: configuration directory, prefix, instance
      name and suffix, each a null-tolerant string concatenation. */
  function CreateAppConfigPath(server: Store, name: Option<string>): (path: string)
    ensures var dir := NullText(Get(server, ServerConfig.AppConfigPath));
      var prefix := NullText(Get(server, ServerConfig.AppConfigPrefix));
      var suffix := NullText(Get(server, ServerConfig.AppConfigSuffix));
      StartsWith(path, dir + prefix) && EndsWith(path, NullText(name) + suffix)
      && |path| == |dir| + |prefix| + |NullText(name)| + |suffix|
  {
    var dir := NullText(Get(server, ServerConfig.AppConfigPath));
    var prefix := NullText(Get(server, ServerConfig.AppConfigPrefix));
    var suffix := NullText(Get(server, ServerConfig.AppConfigSuffix));
    var path := dir + prefix + NullText(name) + suffix;
    assert path[..|dir + prefix|] == dir + prefix;
    assert path[|path| - |NullText(name) + suffix|..] == NullText(name) + suffix;
    path
  }

  /** With the default server configuration the path is
      "appserver/instances/config_<name>.cfg". */
  lemma DefaultConfigPath(name: string)
    ensures CreateAppConfigPath(ServerConfig.Load(None), Some(name))
         == "appserver/instances/" + "config_" + name + ".cfg"
  {
    ServerConfig.DefaultValues();
  }

  /** Whether a configuration file name is accepted: the lower-cased name
      starts with the prefix and ends with the suffix, both set and taken
      as they are. */
  predicate ConfigFilenameFilter(server: Store, file: string) {
    && ServerConfig.AppConfigPrefix in server && StartsWith(Lower(file), server[ServerConfig.AppConfigPrefix])
    && ServerConfig.AppConfigSuffix in server && EndsWith(Lower(file), server[ServerConfig.AppConfigSuffix])
  }

  /** `ConfigFilenameFilter.accept`: the prefix test comes first and `&&`
      short-circuits, so a missing prefix always throws, while a missing
      suffix throws only for a name that has the prefix. */
  function FilterAccepts(server: Store, file: string): (r: Result<bool, InstallError>)
    ensures r.Failure? <==> (ServerConfig.AppConfigPrefix !in server
      || (StartsWith(Lower(file), server[ServerConfig.AppConfigPrefix]) && ServerConfig.AppConfigSuffix !in server))
    ensures r.Failure? ==> r.error == UnsetServerKey
    ensures r.Success? ==> (r.value <==> ConfigFilenameFilter(server, file))
  {
    match Get(server, ServerConfig.AppConfigPrefix)
    case None => Failure(UnsetServerKey)
    case Some(prefix) =>
      if !StartsWith(Lower(file), prefix) then Success(false)
      else match Get(server, ServerConfig.AppConfigSuffix)
        case None => Failure(UnsetServerKey)
        case Some(suffix) => Success(EndsWith(Lower(file), suffix))
  }

  lemma LowerKeepsLowerPrefix(s: string, p: string)
    requires StartsWith(s, p) && !HasUpper(p)
    ensures StartsWith(Lower(s), p)
  {
    LowerFixesExactlyLowerCase(p);
    forall i | 0 <= i < |p| ensures Lower(s)[i] == p[i] {
      assert Lower(p)[i] == LowerChar(p[i]);
    }
  }

  lemma LowerKeepsLowerSuffix(s: string, p: string)
    requires EndsWith(s, p) && !HasUpper(p)
    ensures EndsWith(Lower(s), p)
  {
    LowerFixesExactlyLowerCase(p);
    forall i | 0 <= i < |p| ensures Lower(s)[|s| - |p| + i] == p[i] {
      assert s[|s| - |p| + i] == p[i];
      assert Lower(p)[i] == LowerChar(p[i]);
    }
  }

  /** Under the default configuration the file an install writes is one
      `loadAllApps` picks up again, whatever the instance name. */
  lemma InstalledConfigIsLoadable(name: string)
    ensures FilterAccepts(ServerConfig.Load(None), "config_" + name + ".cfg") == Success(true)
  {
    ServerConfig.DefaultValues();
    var f := "config_" + name + ".cfg";
    assert StartsWith(f, "config_") by { assert f[..7] == "config_"; }
    assert EndsWith(f, ".cfg") by { assert f[|f| - 4..] == ".cfg"; }
    assert !HasUpper("config_") by {
      forall i | 0 <= i < 7 ensures !('A' <= "config_"[i] <= 'Z') {}
    }
    assert !HasUpper(".cfg") by {
      forall i | 0 <= i < 4 ensures !('A' <= ".cfg"[i] <= 'Z') {}
    }
    LowerKeepsLowerPrefix(f, "config_");
    LowerKeepsLowerSuffix(f, ".cfg");
  }

  // -------------------------------------------------------------- checks

  /** `ensureValidAppPath`: the configuration names a script that exists
      in the server's app directory; on success the store gets `dir_path`
      set to that directory. `findApp` opens the directory with
      `new File(app_path)`, which throws when the setting is absent. */
  function EnsureValidAppPath(server: Store, cfg: Store, listing: Option<seq<string>>)
    : (r: Result<Store, InstallError>)
    ensures AppKey !in cfg <==> r == Failure(NoAppSpecified)
    ensures AppKey in cfg && ServerConfig.AppPath !in server <==> r == Failure(UnsetServerKey)
    ensures AppKey in cfg && ServerConfig.AppPath in server && listing.None? <==> r == Failure(NoAppDirectory)
    ensures r == Failure(AppNotFound) <==> (AppKey in cfg && ServerConfig.AppPath in server && listing.Some?
      && FindApp(listing.value, cfg[AppKey]).None?)
    ensures r.Success? <==> (AppKey in cfg && ServerConfig.AppPath in server && listing.Some?
      && FindApp(listing.value, cfg[AppKey]).Some?)
    ensures r.Success? ==> (ServerConfig.AppPath in server && r.value.Keys == cfg.Keys + {DirPath}
      && r.value[DirPath] == server[ServerConfig.AppPath]
      && forall k :: k in cfg && k != DirPath ==> r.value[k] == cfg[k])
  {
    if AppKey !in cfg then Failure(NoAppSpecified)
    else if ServerConfig.AppPath !in server then Failure(UnsetServerKey)
    else if listing.None? then Failure(NoAppDirectory)
    else if FindApp(listing.value, cfg[AppKey]).None? then Failure(AppNotFound)
    else Success(cfg[DirPath := server[ServerConfig.AppPath]])
  }

  /** `ensureValidName`: a name, not the placeholder, and no installed app
      of exactly that name. */
  function EnsureValidName(reg: Registry, cfg: Store): (r: Result<string, InstallError>)
    ensures r.Success? <==> ConfigName(cfg).Some? && ConfigName(cfg).value != Unnamed
                            && ConfigName(cfg).value !in GetAppsNames(reg)
    ensures r.Success? ==> r.value == ConfigName(cfg).value && GetApp(reg, ConfigName(cfg)).None?
    ensures r == Failure(NoName) <==> ConfigName(cfg).None? || ConfigName(cfg).value == Unnamed
  {
    match ConfigName(cfg)
    case None => Failure(NoName)
    case Some(name) =>
      GetAppFindsListedNames(reg, name);
      if name == Unnamed then Failure(NoName)
      else if name in GetAppsNames(reg) then Failure(NameInUse)
      else Success(name)
  }

  /** `createApp`: only the JavaScript type yields an app; the app's
      constructor needs a name. */
  function CreateApp(cfg: Store): (r: Result<AppState, InstallError>)
    ensures r.Success? <==> TypeKey in cfg && cfg[TypeKey] == JavaScriptType && ConfigName(cfg).Some?
    ensures r == Failure(NullType) <==> TypeKey !in cfg
    ensures r == Failure(UnknownType) <==> TypeKey in cfg && cfg[TypeKey] != JavaScriptType
    ensures r.Success? ==> r.value == NewApp(ConfigName(cfg).value, cfg)
  {
    if TypeKey !in cfg then Failure(NullType)
    else if cfg[TypeKey] != JavaScriptType then Failure(UnknownType)
    else match ConfigName(cfg)
      case None => Failure(Nameless)
      case Some(name) => Success(NewApp(name, cfg))
  }

  // ------------------------------------------------------------- install

  /** The result of `installNewApp`: the registry, the configuration as
      stored (absent if nothing was stored), the path of its file, and the
      new app's resource identifier or the exception. */
  datatype Installation = Installation(
    reg: Registry,
    stored: Option<Store>,
    configPath: string,
    result: Result<string, InstallError>)

  /** `installNewApp`: compute the config path, check the app, then the
      name; store the configuration (a failure to store is only logged);
      create the app and hand it to the registry. The type is only checked
      after the configuration has been stored. */
  function InstallNewApp(server: Store, reg: Registry, cfg: Store, listing: Option<seq<string>>, now: int)
    : (out: Installation)
    ensures out.configPath == CreateAppConfigPath(server, ConfigName(cfg))
    ensures out.result.Failure? ==> out.reg == reg
    ensures out.stored.Some? <==> EnsureValidAppPath(server, cfg, listing).Success? && EnsureValidName(reg, cfg).Success?
    ensures out.result.Success? <==> out.stored.Some? && CreateApp(out.stored.value).Success?
    ensures out.result.Success? ==>
      && |out.reg.apps| == |reg.apps| + 1 && out.reg.apps[..|reg.apps|] == reg.apps
      && out.reg.apps[|reg.apps|].name == ConfigName(cfg).value
      && out.result.value == Lower(ConfigName(cfg).value)
  {
    var path := CreateAppConfigPath(server, ConfigName(cfg));
    match EnsureValidAppPath(server, cfg, listing)
    case Failure(e) => Installation(reg, None, path, Failure(e))
    case Success(withDir) =>
      match EnsureValidName(reg, withDir)
      case Failure(e) => Installation(reg, None, path, Failure(e))
      case Success(name) =>
        match CreateApp(withDir)
        case Failure(e) => Installation(reg, Some(withDir), path, Failure(e))
        case Success(app) =>
          var reg' := InstallApp(reg, server, app, now);
          Installation(reg', Some(withDir), path, Success(ResourceId(app)))
  }

  /** A successful install makes the new instance the one `getApp` finds
      under its name, and every app found before is still found. */
  lemma InstalledAppIsFoundByName(server: Store, reg: Registry, cfg: Store, listing: Option<seq<string>>, now: int)
    requires InstallNewApp(server, reg, cfg, listing, now).result.Success?
    ensures var out := InstallNewApp(server, reg, cfg, listing, now);
      && GetApp(out.reg, ConfigName(cfg)) == Some(|reg.apps|)
      && forall n :: GetApp(reg, Some(n)).Some? ==> GetApp(out.reg, Some(n)) == GetApp(reg, Some(n))
  {
    var out := InstallNewApp(server, reg, cfg, listing, now);
    var name := ConfigName(cfg).value;
    GetAppFindsListedNames(reg, name);
    forall n | GetApp(reg, Some(n)).Some?
      ensures GetApp(out.reg, Some(n)) == GetApp(reg, Some(n))
    {
      var i := GetApp(reg, Some(n)).value;
      assert out.reg.apps[i] == reg.apps[i];
    }
  }

  /** Installing twice under the same name fails the second time and
      leaves the registry as the first install made it. */
  lemma SecondInstallUnderSameNameFails(server: Store, reg: Registry, cfg: Store, cfg2: Store,
                                        listing: Option<seq<string>>, now: int, later: int)
    requires InstallNewApp(server, reg, cfg, listing, now).result.Success?
    requires ConfigName(cfg2) == ConfigName(cfg)
    ensures var first := InstallNewApp(server, reg, cfg, listing, now);
      var second := InstallNewApp(server, first.reg, cfg2, listing, later);
      second.result.Failure? && second.reg == first.reg
  {
    var first := InstallNewApp(server, reg, cfg, listing, now);
    var name := ConfigName(cfg).value;
    assert GetAppsNames(first.reg)[|reg.apps|] == name;
  }

  // ---------------------------------------------------------------- load

  /** The configuration files `listFiles` returns through the filter, in
      listing order; the first name the filter throws on ends the listing. */
  function AcceptedFiles(server: Store, listing: seq<string>): (files: Result<seq<string>, InstallError>)
    ensures files.Success? <==> forall i :: 0 <= i < |listing| ==> FilterAccepts(server, listing[i]).Success?
    ensures files.Failure? ==> files.error == UnsetServerKey
    ensures files.Success? ==> |files.value| <= |listing|
    ensures files.Success? ==> forall f :: f in files.value <==> f in listing && ConfigFilenameFilter(server, f)
    ensures files.Success? ==> files.value == Kept(server, listing)
  {
    if |listing| == 0 then Success([])
    else
      assert forall f :: f in listing <==> f == listing[0] || f in listing[1..];
      match FilterAccepts(server, listing[0])
      case Failure(e) => Failure(e)
      case Success(keep) =>
        match AcceptedFiles(server, listing[1..])
        case Failure(e) => Failure(e)
        case Success(rest) =>
          assert listing == [listing[0]] + listing[1..];
          KeptFirst(server, listing[0], listing[1..]);
          Success((if keep then [listing[0]] else []) + rest)
  }

  /** The listed names the filter accepts, each where and as often as it is
      listed, built from the end of the listing. */
  function Kept(server: Store, listing: seq<string>): (r: seq<string>)
    decreases |listing|
  {
    if |listing| == 0 then []
    else
      var last := listing[|listing| - 1];
      Kept(server, listing[..|listing| - 1]) + (if ConfigFilenameFilter(server, last) then [last] else [])
  }

  /** `Kept` seen from the front: the first name, if accepted, then the
      names kept from the rest. */
  lemma {:induction false} KeptFirst(server: Store, first: string, rest: seq<string>)
    ensures Kept(server, [first] + rest)
         == (if ConfigFilenameFilter(server, first) then [first] else []) + Kept(server, rest)
    decreases |rest|
  {
    var l := [first] + rest;
    if |rest| == 0 {
      assert l[..|l| - 1] == [];
    } else {
      assert l[..|l| - 1] == [first] + rest[..|rest| - 1];
      assert l[|l| - 1] == rest[|rest| - 1];
      KeptFirst(server, first, rest[..|rest| - 1]);
    }
  }

  /** `loadAllApps` over the accepted files: a file that cannot be read
      (absent from `readable`) is skipped; any other file becomes an app,
      and a configuration `createApp` rejects ends the whole load, since
      only the read failure is caught. */
  function LoadApps(files: seq<string>, readable: map<string, Store>): (r: Result<seq<AppState>, InstallError>)
    ensures r.Success? ==> |r.value| <= |files|
    ensures r.Success? <==> forall i :: 0 <= i < |files| && files[i] in readable ==> CreateApp(readable[files[i]]).Success?
  {
    if |files| == 0 then Success([])
    else
      var rest := LoadApps(files[1..], readable);
      if files[0] in readable && CreateApp(readable[files[0]]).Failure? then CreateApp(readable[files[0]]).PropagateFailure()
      else if rest.Failure? then rest
      else if files[0] in readable then Success([CreateApp(readable[files[0]]).value] + rest.value)
      else rest
  }

  /** `loadAllApps`: the configuration directory must be set and exist,
      and the filter must not throw; then every accepted and readable file
      becomes an app. */
  function LoadAllApps(server: Store, listing: Option<seq<string>>, readable: map<string, Store>)
    : (r: Result<seq<AppState>, InstallError>)
    ensures ServerConfig.AppConfigPath !in server ==> r == Failure(UnsetServerKey)
    ensures ServerConfig.AppConfigPath in server && listing.None? ==> r == Failure(NoAppDirectory)
    ensures ServerConfig.AppConfigPath in server && listing.Some? && AcceptedFiles(server, listing.value).Failure? ==>
      r == Failure(UnsetServerKey)
    ensures ServerConfig.AppConfigPath in server && listing.Some? && AcceptedFiles(server, listing.value).Success? ==>
      r == LoadApps(AcceptedFiles(server, listing.value).value, readable)
  {
    if ServerConfig.AppConfigPath !in server then Failure(UnsetServerKey)
    else match listing
      case None => Failure(NoAppDirectory)
      case Some(names) =>
        match AcceptedFiles(server, names)
        case Failure(e) => Failure(e)
        case Success(files) => LoadApps(files, readable)
  }

  /** Under the default configuration the filter never throws, so the load
      fails only for a missing directory or an app it cannot create. */
  lemma DefaultFilterNeverThrows(listing: seq<string>)
    ensures AcceptedFiles(ServerConfig.Load(None), listing).Success?
  {
    ServerConfig.DefaultValues();
  }

  /** When the load succeeds, the apps are exactly those created from the
      readable files, one each, in listing order: the load skips only what
      it cannot read. */
  lemma {:induction false} LoadKeepsReadableFiles(files: seq<string>, readable: map<string, Store>)
    requires LoadApps(files, readable).Success?
    ensures var apps := LoadApps(files, readable).value; var read := Readable(files, readable);
      |apps| == |read| && forall i :: 0 <= i < |apps| ==> apps[i] == CreateApp(readable[read[i]]).value
  {
    if |files| > 0 {
      LoadKeepsReadableFiles(files[1..], readable);
      var apps := LoadApps(files, readable).value;
      var read := Readable(files, readable);
      var rest := Readable(files[1..], readable);
      if files[0] in readable {
        assert read == [files[0]] + rest;
        assert apps == [CreateApp(readable[files[0]]).value] + LoadApps(files[1..], readable).value;
      } else {
        assert read == rest;
      }
    }
  }

  function Readable(files: seq<string>, readable: map<string, Store>): (r: seq<string>)
    ensures |r| <= |files|
    ensures forall f :: f in r ==> f in files && f in readable
  {
    if |files| == 0 then []
    else (if files[0] in readable then [files[0]] else []) + Readable(files[1..], readable)
  }
}
