/** The vocabulary of the `pleskdistup` library that the Debian 11 to 12 upgrade definition uses.
    The library itself is not part of this model: each action and check is an opaque constructor
    that only records the literal arguments the upgrade definition passes to it. */
module PleskDistup {
  import opened Wrappers

  /** The lifecycle phase of a conversion run. */
  datatype Phase = Prepare | Convert | Finish

  /** `action.RebootType`; only the member used by the upgrade definition is modelled. */
  datatype RebootType = AfterLastStage

  /** `SystemDescription`: an operating system, either field of which may be unknown (`None`). */
  datatype SystemDescription = SystemDescription(osName: Option<string>, osVersion: Option<string>)

  /** The parsed command-line options, as far as the upgrade definition reads them. */
  datatype Options = Options(statusFlagPath: string, completionFlagPath: string)

  /** `actions.ConfigValueReplacer`: replace `oldValue` of a configuration key by `newValue`;
      `None` on either side means the key is absent. */
  datatype ConfigValueReplacer = ConfigValueReplacer(newValue: Option<string>, oldValue: Option<string>)

  /** The `{"prepare": ..., "revert": ...}` dictionary given per MariaDB configuration key. */
  datatype ReplacerPair = ReplacerPair(prepare: ConfigValueReplacer, revert: ConfigValueReplacer)

  /** The actions (`pleskdistup.actions.*`) the upgrade plan is built from. */
  datatype Action =
    | HandleConversionStatus(statusFlagPath: string, completionFlagPath: string)
    | AddFinishSshLoginMessage(finishNewOs: string)
    | AddInProgressSshLoginMessage(inProgressNewOs: string)
    | DisablePleskSshBanner
    | RepairPleskInstallation
    | UpgradePackages
    | UpdatePlesk(updateCmdArgs: Arg<seq<string>>)
    | AddUpgradeSystemdService(binPath: string, options: Options)
    | ConfigureMariadb(changes: map<string, ReplacerPair>)
    | SetupDebianRepositories(fromCodename: string, toCodename: string)
    | SwitchPleskRepositories(toOsVersion: string)
    | InstallPackages(packages: seq<string>)
    | UpdatePleskExtensions(extensions: seq<string>)
    | DoDistupgrade
    | Reboot(prepareNextPhase: Arg<Phase>, prepareReboot: Arg<Option<RebootType>>,
             postReboot: Arg<RebootType>, rebootName: Arg<string>)

  /** The read-only pre-flight checks (`pleskdistup.actions.Assert*`). */
  datatype CheckAction =
    | AssertMinPleskVersion(minPleskVersion: string)
    | AssertPleskInstallerNotInProgress
    | AssertMinPhpVersion(minPhpVersion: string)
    | AssertDpkgNotLocked
    | AssertNotInContainer

  /** One entry of the insertion-ordered dictionary that `construct_actions` returns. */
  datatype Stage = Stage(name: string, actions: seq<Action>)

  /** The names of a plan's stages, in order. */
  function StageNames(plan: seq<Stage>): (names: seq<string>)
    ensures |names| == |plan|
    ensures forall i :: 0 <= i < |plan| ==> names[i] == plan[i].name
  {
    seq(|plan|, i requires 0 <= i < |plan| => plan[i].name)
  }

  /** Dictionary lookup `plan[name]`, `None` when no stage has that name. */
  function Lookup(plan: seq<Stage>, name: string): (r: Option<seq<Action>>)
    ensures r.None? <==> name !in StageNames(plan)
    ensures r.Some? ==> exists i :: 0 <= i < |plan| && plan[i].name == name && plan[i].actions == r.value
  {
    if plan == [] then None
    else if plan[0].name == name then Some(plan[0].actions)
    else Lookup(plan[1..], name)
  }

  /** A dictionary's keys are distinct. */
  predicate DistinctNames(plan: seq<Stage>)
  {
    forall i, j :: 0 <= i < j < |plan| ==> plan[i].name != plan[j].name
  }
}
