/** The Debian 11 to Debian 12 upgrade definition (`Debian11to12Upgrader` and `Debian11to12Factory`):
    which systems it converts, the plan of stages it runs and the checks that gate a run. */
module Upgrader {
  import opened Wrappers
  import opened PleskDistup

  const OsFromName: string := "Debian"
  const OsFromVersion: string := "11"
  const OsToName: string := "Debian"
  const OsToVersion: string := "12"

  // ---------------------------------------------------------------------------------------------
  // Compatibility

  /** The descriptions that a fully known system can be reported as: each field either known or `None`. */
  function Generalizations(osName: string, osVersion: string): (d: set<SystemDescription>)
    ensures |d| == 4
  {
    var full := SystemDescription(Some(osName), Some(osVersion));
    var noName := SystemDescription(None, Some(osVersion));
    var noVersion := SystemDescription(Some(osName), None);
    var neither := SystemDescription(None, None);
    assert full != noName && full != noVersion && full != neither;
    assert noName != noVersion && noName != neither && noVersion != neither;
    {full, noName, noVersion, neither}
  }

  /** Whether an optional description could describe the given system. */
  predicate Describes(d: Option<SystemDescription>, osName: string, osVersion: string)
  {
    d.None? || d.value in Generalizations(osName, osVersion)
  }

  /** `matching_system`: a description matches a system exactly when it is one of that system's
      generalizations, that is, when each of its known fields agrees. */
  function MatchingSystem(system: SystemDescription, osName: string, osVersion: string): (r: bool)
    ensures r <==> system in Generalizations(osName, osVersion)
  {
    var r := (system.osName.None? || system.osName.value == osName)
             && (system.osVersion.None? || system.osVersion.value == osVersion);
    assert r <==> system in Generalizations(osName, osVersion) by {
      if system.osName.Some? && system.osVersion.Some? {
        assert system == SystemDescription(Some(system.osName.value), Some(system.osVersion.value));
      }
    }
    r
  }

  /** `Debian11to12Upgrader.supports`: the pair is supported exactly when the source could be
      Debian 11 and the target Debian 12, an absent description matching anything. */
  function Supports(fromSystem: Option<SystemDescription>, toSystem: Option<SystemDescription>): (r: bool)
    ensures r <==> Describes(fromSystem, "Debian", "11") && Describes(toSystem, "Debian", "12")
  {
    (fromSystem.None? || MatchingSystem(fromSystem.value, OsFromName, OsFromVersion))
    && (toSystem.None? || MatchingSystem(toSystem.value, OsToName, OsToVersion))
  }

  /** `Debian11to12Factory.supports` delegates to the upgrader. */
  function FactorySupports(fromSystem: Option<SystemDescription>, toSystem: Option<SystemDescription>): (r: bool)
    ensures r == Supports(fromSystem, toSystem)
  {
    Supports(fromSystem, toSystem)
  }

  /** Nothing known, nothing to reject: absent descriptions and all-`None` descriptions are supported. */
  lemma WildcardsAreSupported(osName: string, osVersion: string)
    ensures Supports(None, None)
    ensures MatchingSystem(SystemDescription(None, None), osName, osVersion)
    ensures Supports(Some(SystemDescription(None, None)), Some(SystemDescription(None, None)))
  {
  }

  /** For fully known systems, only Debian 11 to Debian 12 is supported. */
  lemma FullyKnownSystems(fromName: string, fromVersion: string, toName: string, toVersion: string)
    ensures Supports(Some(SystemDescription(Some(fromName), Some(fromVersion))),
                     Some(SystemDescription(Some(toName), Some(toVersion))))
        <==> fromName == "Debian" && fromVersion == "11" && toName == "Debian" && toVersion == "12"
  {
  }

  /** A source known to be version 12 or known not to be Debian, or a target known to be version 11
      or known not to be Debian, is rejected whatever the other side says. */
  lemma WrongSystemsRejected(name: Option<string>, version: Option<string>, otherName: string,
                             d: Option<SystemDescription>)
    requires otherName != "Debian"
    ensures !Supports(Some(SystemDescription(name, Some("12"))), d)
    ensures !Supports(Some(SystemDescription(Some(otherName), version)), d)
    ensures !Supports(d, Some(SystemDescription(name, Some("11"))))
    ensures !Supports(d, Some(SystemDescription(Some(otherName), version)))
  {
  }

  /** Forgetting a field of a supported description keeps it supported. */
  lemma ForgettingFieldsKeepsSupport(f: SystemDescription, t: Option<SystemDescription>)
    requires Supports(Some(f), t)
    ensures Supports(Some(SystemDescription(None, f.osVersion)), t)
    ensures Supports(Some(SystemDescription(f.osName, None)), t)
    ensures Supports(None, t)
  {
  }

  /** `Debian11to12Upgrader.upgrader_name`. */
  function UpgraderName(): string
  {
    "Plesk::Debian11to12Upgrader"
  }

  /** `Debian11to12Factory.upgrader_name`. */
  function FactoryUpgraderName(): string
  {
    "Plesk::Debian11to12Upgrader"
  }

  /** The factory reports the same name as the upgrader it creates. */
  lemma FactoryNamesItsUpgrader()
    ensures FactoryUpgraderName() == UpgraderName()
  {
  }

  // ---------------------------------------------------------------------------------------------
  // The plan

  /** The two MariaDB settings changed for the conversion, with how to undo each. */
  function MariadbChanges(): (m: map<string, ReplacerPair>)
    ensures m.Keys == {"mysqld.bind-address", "mysqld.innodb_fast_shutdown"}
    ensures forall k :: k in m ==> RevertUndoesPrepare(m[k])
  {
    map[
      "mysqld.bind-address" := ReplacerPair(
        ConfigValueReplacer(Some("127.0.0.1"), Some("::ffff:127.0.0.1")),
        ConfigValueReplacer(Some("::ffff:127.0.0.1"), Some("127.0.0.1"))),
      "mysqld.innodb_fast_shutdown" := ReplacerPair(
        ConfigValueReplacer(Some("0"), None),
        ConfigValueReplacer(None, Some("0")))
    ]
  }

  /** The revert replacer restores what the prepare replacer changed. */
  predicate RevertUndoesPrepare(p: ReplacerPair)
  {
    p.revert.newValue == p.prepare.oldValue && p.revert.oldValue == p.prepare.newValue
  }

  const PreinstallPackages: seq<string> :=
    ["base-files", "linux-image-amd64", "libc6", "python3", "mariadb-server"]

  const PleskExtensions: seq<string> := ["panel-migrator", "site-import", "docker", "grafana", "ruby"]

  const PlanStageNames: seq<string> :=
    ["Prepare", "Switch repositories", "Pre-install packages", "Reboot",
     "Update Plesk", "Update Plesk extensions", "Dist-upgrade", "Finishing actions"]

  /** Whether an action is a reboot given an explicit `prepare_next_phase`. What a reboot left at the
      library's defaults does to the phase is library behaviour and is not modelled. */
  predicate GivesNextPhase(a: Action)
  {
    a.Reboot? && a.prepareNextPhase.Given?
  }

  /** `construct_actions`: the insertion-ordered stage dictionary as a sequence of stages.
      `absBinPath` is the already absolute path of the upgrader binary. */
  function ConstructActions(absBinPath: string, options: Options, phase: Phase): (plan: seq<Stage>)
    ensures StageNames(plan) == PlanStageNames && DistinctNames(plan)
    // Prepare: opens with the conversion-status handler, closes with the MariaDB configuration
    ensures |plan[0].actions| == 9
    ensures plan[0].actions[0] == HandleConversionStatus(options.statusFlagPath, options.completionFlagPath)
    ensures plan[0].actions[7] == AddUpgradeSystemdService(absBinPath, options)
    ensures plan[0].actions[1..7] == [
      AddFinishSshLoginMessage("Debian 12"), AddInProgressSshLoginMessage("Debian 12"),
      DisablePleskSshBanner, RepairPleskInstallation, UpgradePackages, UpdatePlesk(Default)]
    ensures plan[0].actions[8] == ConfigureMariadb(MariadbChanges())
    ensures plan[1].actions == [SetupDebianRepositories("bullseye", "bookworm"), SwitchPleskRepositories(OsToVersion)]
    ensures plan[2].actions == [InstallPackages(PreinstallPackages)]
    ensures plan[3].actions == [Reboot(Default, Default, Default, Default)]
    ensures plan[4].actions == [UpdatePlesk(Given(["--skip-cleanup"]))]
    ensures plan[5].actions == [UpdatePleskExtensions(PleskExtensions)]
    ensures plan[6].actions == [DoDistupgrade]
    // Finishing actions: exactly two reboots, the first moving to FINISH, the second the final one
    ensures |plan[7].actions| == 2 && plan[7].actions[0].Reboot? && plan[7].actions[1].Reboot?
    ensures plan[7].actions[0].prepareNextPhase == Given(Finish)
    ensures plan[7].actions[1].prepareNextPhase == Default
    ensures plan[7].actions[1].prepareReboot == Given(None)
    ensures plan[7].actions[1].postReboot == Given(AfterLastStage)
    // the first finishing reboot is the only action given an explicit next phase
    ensures forall s, i :: 0 <= s < |plan| && 0 <= i < |plan[s].actions| && GivesNextPhase(plan[s].actions[i])
              ==> s == 7 && i == 0
  {
    var newOs := OsToName + " " + OsToVersion;
    assert newOs == "Debian 12";
    [
      Stage("Prepare", [
        HandleConversionStatus(options.statusFlagPath, options.completionFlagPath),
        AddFinishSshLoginMessage(newOs),
        AddInProgressSshLoginMessage(newOs),
        DisablePleskSshBanner,
        RepairPleskInstallation,
        UpgradePackages,
        UpdatePlesk(Default),
        AddUpgradeSystemdService(absBinPath, options),
        ConfigureMariadb(MariadbChanges())
      ]),
      Stage("Switch repositories", [
        SetupDebianRepositories("bullseye", "bookworm"),
        SwitchPleskRepositories(OsToVersion)
      ]),
      Stage("Pre-install packages", [InstallPackages(PreinstallPackages)]),
      Stage("Reboot", [Reboot(Default, Default, Default, Default)]),
      Stage("Update Plesk", [UpdatePlesk(Given(["--skip-cleanup"]))]),
      Stage("Update Plesk extensions", [UpdatePleskExtensions(PleskExtensions)]),
      Stage("Dist-upgrade", [DoDistupgrade]),
      Stage("Finishing actions", [
        Reboot(Given(Finish), Default, Default, Given("reboot and perform finishing actions")),
        Reboot(Default, Given(None), Given(AfterLastStage), Given("final reboot"))
      ])
    ]
  }

  /** The plan does not depend on the phase it is built for. */
  lemma PlanIgnoresPhase(absBinPath: string, options: Options, p: Phase, q: Phase)
    ensures ConstructActions(absBinPath, options, p) == ConstructActions(absBinPath, options, q)
  {
  }

  /** The binary path reaches the plan only through the systemd service action. */
  lemma BinPathOnlyInSystemdService(b1: string, b2: string, options: Options, phase: Phase)
    ensures var p1, p2 := ConstructActions(b1, options, phase), ConstructActions(b2, options, phase);
      |p1| == |p2|
      && (forall s :: 0 <= s < |p1| ==> p1[s].name == p2[s].name && |p1[s].actions| == |p2[s].actions|)
      && (forall s, i :: 0 <= s < |p1| && 0 <= i < |p1[s].actions| && !(s == 0 && i == 7)
            ==> p1[s].actions[i] == p2[s].actions[i])
  {
  }

  /** Looking a stage up by name, as the dictionary is used, gives that stage's actions; any other
      name gives nothing. */
  lemma StagesByName(absBinPath: string, options: Options, phase: Phase, s: int, name: string)
    requires 0 <= s < |PlanStageNames|
    ensures var plan := ConstructActions(absBinPath, options, phase);
      && Lookup(plan, PlanStageNames[s]) == Some(plan[s].actions)
      && (name !in PlanStageNames ==> Lookup(plan, name) == None)
  {
  }

  // ---------------------------------------------------------------------------------------------
  // Pre-flight checks

  /** `get_check_actions`: no checks once the conversion has reached the finish phase. */
  function GetCheckActions(options: Options, phase: Phase): (checks: seq<CheckAction>)
    ensures checks == [] <==> phase == Finish
    ensures phase != Finish ==> checks == [
      AssertMinPleskVersion("18.0.57"), AssertPleskInstallerNotInProgress,
      AssertMinPhpVersion("7.4"), AssertDpkgNotLocked, AssertNotInContainer]
  {
    if phase == Finish then []
    else [
      AssertMinPleskVersion("18.0.57"),
      AssertPleskInstallerNotInProgress,
      AssertMinPhpVersion("7.4"),
      AssertDpkgNotLocked,
      AssertNotInContainer
    ]
  }

  /** The checks do not depend on the options, and are the same for every phase but the finish phase. */
  lemma ChecksDependOnlyOnFinish(o1: Options, o2: Options, p: Phase, q: Phase)
    requires p != Finish && q != Finish
    ensures GetCheckActions(o1, p) == GetCheckActions(o2, q)
    ensures GetCheckActions(o1, Finish) == GetCheckActions(o2, Finish) == []
  {
  }
}
