# Debian 11 to 12 upgrade definition for Plesk servers

This project models the part of the `debian11to12` dist-upgrader that is decided by the upgrade
definition itself, as Dafny functions and lemmas:

- which source and target systems the upgrader accepts: `Debian11to12Upgrader.supports` and
  `Debian11to12Factory.supports`. An absent system description, or an absent field inside one, is a
  wildcard;
- the conversion plan `construct_actions` builds: an insertion-ordered dictionary from stage name to an
  ordered list of actions. It is modelled as a sequence of `Stage(name, actions)`;
- the pre-flight checks `get_check_actions` returns: none in the finish phase, five otherwise;
- the release version `get_deb11to12_version` derives from a `git describe` revision string.

Modules:

- `Wrappers` holds `Option` and `Arg`. `Arg` separates a keyword argument left at the library's default
  (`Default`) from one passed explicitly (`Given(v)`). So `prepare_reboot=None` is `Given(None)`.
- `PleskDistup` holds the library vocabulary the definition uses. Each action and check is a datatype
  constructor that records only the literal arguments it receives. It also holds `Phase`,
  `SystemDescription`, `Options`, `Stage` and the dictionary helpers `StageNames`, `Lookup` and
  `DistinctNames`.
- `Upgrader` models `debian11to12/upgrader.py`.
- `ProductDefs` models `product.defs.py`.

Inputs that the source reads from its environment become parameters:

- The revision string is a parameter of `Deb11to12Version`. The source gets it from git.
- The upgrader binary path is the parameter `absBinPath` of `ConstructActions`. It stands for the result
  of `os.path.abspath`, which depends on the working directory.

## Model

| member | source | states |
|---|---|---|
| `Upgrader.MatchingSystem` | debian11to12/upgrader.py:40-44 | a description matches a system iff it is one of the four generalizations of that system, each field known or `None` |
| `Upgrader.Supports` | debian11to12/upgrader.py:34-49 | `supports(f, t)` holds iff `f` is absent or a generalization of Debian 11, and `t` is absent or a generalization of Debian 12 |
| `Upgrader.WildcardsAreSupported` | debian11to12/upgrader.py:40-48 | `supports(None, None)` holds; a description whose two fields are `None` matches any system |
| `Upgrader.FullyKnownSystems` | debian11to12/upgrader.py:46-49 | for fully known systems, a pair is supported iff it is exactly Debian 11 to Debian 12 |
| `Upgrader.WrongSystemsRejected` | debian11to12/upgrader.py:42-48 | a source whose version is given as 12, or whose name is given as anything but Debian, is rejected whatever the target; likewise a target whose version is given as 11 or whose name is not Debian, whatever the source |
| `Upgrader.ForgettingFieldsKeepsSupport` | debian11to12/upgrader.py:41-47 | replacing a field of a supported source, or the whole source, by `None` keeps the pair supported |
| `Upgrader.FactorySupports` | debian11to12/upgrader.py:180-185 | the factory's `supports` returns exactly what the upgrader's returns, for every input |
| `Upgrader.FactoryNamesItsUpgrader` | debian11to12/upgrader.py:187-189 | the factory's `upgrader_name` equals the upgrader's own `upgrader_name` (lines 52-53), `Plesk::Debian11to12Upgrader` |
| `Upgrader.MariadbChanges` | debian11to12/upgrader.py:92-101 | the MariaDB change set covers exactly `mysqld.bind-address` and `mysqld.innodb_fast_shutdown`; in each entry the revert replacer swaps the prepare replacer's new and old values |
| `Upgrader.ConstructActions` | debian11to12/upgrader.py:75-128 | exactly the 8 stages in order, with distinct names. "Prepare" has 9 actions: `HandleConversionStatus` on the two flag paths; the two SSH login messages for "Debian 12", the banner, repair, package upgrade and default Plesk update actions; the systemd service on the binary path; the `ConfigureMariadb` of the MariaDB change set, whose reverts undo its prepares. The next six stages hold their fixed actions; "Pre-install packages" is the single install of the 5-package set. "Finishing actions" is two reboots: the first is given `prepare_next_phase=FINISH`, the second `prepare_reboot=None` and `post_reboot=AFTER_LAST_STAGE`. No other action is given an explicit `prepare_next_phase` |
| `Upgrader.PlanIgnoresPhase` | debian11to12/upgrader.py:75-82 | the plan is the same for every phase |
| `Upgrader.BinPathOnlyInSystemdService` | debian11to12/upgrader.py:91 | two plans that differ only in the binary path agree everywhere except in the `AddUpgradeSystemdService` action |
| `Upgrader.StagesByName` | debian11to12/upgrader.py:82-128 | looking up any of the 8 stage names in the dictionary gives that stage's actions; every other name gives nothing |
| `Upgrader.GetCheckActions` | debian11to12/upgrader.py:130-140 | the check list is empty iff the phase is FINISH; otherwise it is the 5 checks in order: Plesk at least 18.0.57, installer not running, PHP at least 7.4, dpkg not locked, not in a container |
| `Upgrader.ChecksDependOnlyOnFinish` | debian11to12/upgrader.py:130-134 | the checks ignore the options and are the same for every phase other than FINISH |
| `ProductDefs.LStrip` | product.defs.py:17 | `lstrip('v')` gives a suffix of its input; every dropped character is the stripped one; the result does not start with it |
| `ProductDefs.BeforeFirst` | product.defs.py:17 | `split('-', 1)[0]` gives a prefix of its input without `-` that ends at the first `-` or at the end of the input |
| `ProductDefs.Deb11to12Version` | product.defs.py:15-17 | the version is empty when the revision has no `-`; it never contains `-`, never starts with `v` and is no longer than the revision |
| `ProductDefs.VersionIsTheSlice` | product.defs.py:17 | when `rev[..i]` are all `v`, `rev[i]` is not `v` and `rev[j]` is the first `-` at or after `i`, the version is exactly `rev[i..j]` |
| `ProductDefs.VersionSliceExists` | product.defs.py:17 | every revision containing `-` has such positions `i`, `j`, and its version is `rev[i..j]` |
| `ProductDefs.VersionIsSubstring` | product.defs.py:17 | the version is a contiguous substring of the revision |
| `ProductDefs.ExampleTaggedRevision` | product.defs.py:17 | `v1.2.3-4-gabc` gives `1.2.3` |
| `ProductDefs.ExampleRepeatedVs` | product.defs.py:17 | `vv2.0-rc1-3` gives `2.0`: all leading `v`s go and the text ends at the first `-` |
| `ProductDefs.ExampleBareTag` | product.defs.py:17 | `v1.2.3`, which has no `-`, gives the empty version |

## Left out

- The behaviour of every `pleskdistup.actions` action and check: repository switching, package installation, reboots, MariaDB editing, the checks' conditions. That library is not part of this model, so actions and checks are opaque constructors. The same goes for the run driver, phase persistence across reboots, check short-circuiting and repository rewrite rules. None of them is implemented in `debian11to12/upgrader.py` or `product.defs.py`.
- The comments "Executed at the finish phase only" on two "Prepare" actions describe behaviour inside those library actions. `construct_actions` does no phase filtering, so the model has none.
- `Phase`: only `FINISH` appears in the source. The model uses the three lifecycle phases Prepare, Convert and Finish. Nothing here depends on the non-FINISH members.
- `RebootType`: only `AFTER_LAST_STAGE` appears in the source, so that is the only member modelled.
- The defaults of library keyword arguments, such as `Reboot()` and `UpdatePlesk()` with no arguments, are not visible. They are recorded as `Default`, not as values.
- `Upgrader.ConstructActions`: it says which actions are given an explicit `prepare_next_phase`, not which actions change the phase. Whether a reboot left at the library's defaults, such as the one in the "Reboot" stage, moves to another phase is library behaviour.
- `Options` carries only `status_flag_path` and `completion_flag_path`. `AddUpgradeSystemdService` receives the whole options object in the source; its other attributes are not modelled.
- `ConfigureMariadb`'s argument is a Python dictionary, which keeps insertion order. The model's `map` does not keep the order of its two keys.
- `os.path.abspath` depends on the process's working directory. The model takes its result as the parameter `absBinPath`.
- `get_deb11to12_revision` and `get_git_revision_description` (product.defs.py:11-12) call git through the build system. The revision string is a parameter instead.
- `parse_args`: argparse and help text only.
- `prepare_feedback`: it collects feedback through external collectors and is the file's only in-place update.
- `upgrader_version`, `issues_url`, `__repr__` and `__str__`: cosmetic or read from generated configuration.
- `create_upgrader`: it only constructs the upgrader.
- `debian11to12/main.py`: registers the factory and exits with the library's main. This is process plumbing.
- Characters: Python strings are sequences of code points. The model's `string` is a sequence of Dafny `char`s, which are Unicode scalar values.
