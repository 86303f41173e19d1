/** `Config`: the server-wide property store. Its constructor writes the
    defaults first and then loads the configuration file over them, so a
    loaded value overrides a default and a key the file lacks keeps its
    default. `Config` does not override `isModifiable`: every key is
    modifiable through the configuration resource. */
module ServerConfig {
  import opened Wrappers
  import opened JavaText
  import opened ConfigStore

  // keys
  const AppConfigPrefix: string := "app_config_prefix"
  const AppConfigSuffix: string := "app_config_suffix"
  const JavascriptSuffix: string := "javascript_suffix"
  const StartOnInstall: string := "start_on_install"
  const AppPath: string := "app_path"
  const AppConfigPath: string := "app_config_path"
  const AppConfigResources: string := "app_config_resources"
  const AppsResourceId: string := "apps_resource_id"
  const ConfigResourceId: string := "config_resource_id"
  const InstallResourceId: string := "install_resource_id"
  const RunningResourceId: string := "running_resource_id"
  const StatsResourceId: string := "stats_resource_id"

  /** The values `init` writes before the file is read. */
  function Defaults(): (d: Store)
    ensures d.Keys == {AppConfigPrefix, AppConfigSuffix, StartOnInstall, AppPath,
                       AppConfigPath, JavascriptSuffix, ConfigResourceId, StatsResourceId,
                       InstallResourceId, AppsResourceId, AppConfigResources, RunningResourceId}
  {
    map[
      AppConfigPrefix := "config_",
      AppConfigSuffix := ".cfg",
      StartOnInstall := BoolText(false),
      AppPath := "appserver/installed/",
      AppConfigPath := "appserver/instances/",
      JavascriptSuffix := ".js",
      ConfigResourceId := "config",
      StatsResourceId := "stats",
      InstallResourceId := "install",
      AppsResourceId := "installed",
      AppConfigResources := "instances",
      RunningResourceId := "apps"
    ]
  }

  /** `new Config(path)`: defaults, then the loaded file (absent when the
      file is missing or unreadable) written over them. */
  function Load(file: Option<Store>): (c: Store)
    ensures file.None? ==> c == Defaults()
    ensures file.Some? ==> c.Keys == Defaults().Keys + file.value.Keys
    ensures file.Some? ==> forall k :: k in file.value ==> c[k] == file.value[k]
    ensures forall k :: k in Defaults() && (file.None? || k !in file.value) ==> c[k] == Defaults()[k]
  {
    match file
    case None => Defaults()
    case Some(f) => Defaults() + f
  }

  /** `Config.isModifiable` is inherited: every key may be changed. */
  function IsModifiable(key: string): bool {
    true
  }

  /** The default values of the keys the rest of the server reads. */
  lemma DefaultValues()
    ensures Load(None)[AppConfigPrefix] == "config_" && Load(None)[AppConfigSuffix] == ".cfg"
    ensures Load(None)[AppPath] == "appserver/installed/"
    ensures Load(None)[AppConfigPath] == "appserver/instances/"
    ensures Load(None)[JavascriptSuffix] == ".js"
    ensures Load(None)[AppsResourceId] == "installed" && Load(None)[RunningResourceId] == "apps"
    ensures Load(None)[ConfigResourceId] == "config" && Load(None)[StatsResourceId] == "stats"
    ensures Load(None)[InstallResourceId] == "install"
    ensures Load(None)[AppConfigResources] == "instances"
  {
  }

  /** Apps are not started on install unless the file says otherwise. */
  lemma StartOnInstallDefaultsToFalse(file: Option<Store>)
    requires file.None? || StartOnInstall !in file.value
    ensures !GetBool(Load(file), StartOnInstall)
  {
    assert Load(file)[StartOnInstall] == "false";
    assert Lower("false") != "true" by {
      assert Lower("false")[0] == 'f';
    }
  }

  /** The file decides `start_on_install` whenever it mentions it. */
  lemma LoadedStartOnInstallWins(f: Store, b: bool)
    requires StartOnInstall in f && f[StartOnInstall] == BoolText(b)
    ensures GetBool(Load(Some(f)), StartOnInstall) == b
  {
    BoolTextRoundTrip(b);
  }
}
