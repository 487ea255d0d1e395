# ssh_mounter in Dafny

A model of the core of `ssh-mounter`. This is a command-line helper that mounts
a remote directory over `sshfs`. It can also install itself as a systemd unit
that re-runs it in quiet mode against the same mount. The model covers:

- **Mount-state resolver** (`MountTable`). `is_path_mounted` scans the kernel
  mount table, given here as a sequence of lines. Each line is split on
  whitespace. The first line whose second field equals the local path gives
  its first field as the mounted device. A line with fewer than two fields,
  reached before any match, makes the lookup fail. `check_mounted_path`
  compares the device with `user@host:remote_path` and classifies the mount
  point as:
  - not mounted;
  - mounted as expected, when the device contains the expected string;
  - busy with another device;
  - failed lookup.
- **Derived strings** (`Naming`, `CliArgs`):
  - the systemd unit name, which is the remote path with `/` turned into `-`,
    its first character dropped, and `@ssh-mounter` appended;
  - the `ExecStart` command line;
  - the unit's description.
- **Unit renderer and path check** (`UnitFile`, `ExecPath`, `Installer.ServiceInstaller`).
  - `prepare` fills a fixed 12-line template.
  - `_validate_path` checks the text before the first space against
    `^/([a-zA-Z0-9_.\-]+/?)+$`. That pattern is hand-coded. Proved: the
    character-level test `SlashSegments` accepts exactly the language of the
    group `([a-zA-Z0-9_.\-]+/?)+`, so `IsAbsolutePath` is the pattern without
    its `$`. Given as definitions, not proved: the leading `/` in
    `IsAbsolutePath`, and Python's rule that `$` also matches before one final
    newline in `MatchesPathPattern`. `NewlineEndedPathMatches` shows one string
    that the newline rule admits.
- **Install/remove state machine** (`Installer`). `install`, `start` and
  `remove` act on a `Host`, which holds two things:
  - a map from unit-file path to content;
  - an append-only trace of file writes, file deletions and the `systemctl`
    commands handed to the runner, each with its `exit_on_err` flag.

  The step functions `InstallEffect`, `StartEffect` and `RemoveEffect` state
  what each method does. Lemmas prove idempotence by refusal, that the refusal
  paths change nothing, the stop → disable → delete → reload order, and the
  invariant that every change on disk is later followed by a
  `systemctl daemon-reload`.
- **Validation** (`Validation`, `ArgCheck`).
  - `validate_input` is modelled with the regular expression as an opaque
    predicate.
  - `validate_args` gives the order of its checks and the message each failure
    reports. Quiet and interactive mode each have an if-and-only-if
    characterisation of acceptance.
- **Service setup** (`ServiceSetup`). `install_or_remove_service` composes all
  of the above.

Python's `None` for an option that was not given is modelled as the empty
string. Both are false under Python's truth tests. The exception is `-p`:
`CliArgs.PeriodArg` keeps absent, a given value (possibly `""`) and a bare
`-p` apart, as `args.period is not None` (`__main__.py:325`) needs. `str.split()`, `split(' ')[0]`,
`replace`, slicing, `in` and `isdigit` are written out in `Text`.

Two behaviours of the code worth knowing:

- Distinct remote paths can share a unit name: `/a/b` and `/a-b` both give
  `a-b@ssh-mounter` (`Naming.ServiceNamesCanCollide`). The name is injective
  only on absolute paths without `-` (`Naming.ServiceNameInjective`).
- With `check_path=True` in interactive mode, a bad command line is not asked
  for again. `_input_path` reads one line and then raises on the unbound
  `left_path` (sytemd_service_installer.py:24-26), so `prepare` does not return
  (`PathInputFails`, `PrepareFailed`).

## Model

| member | source | states |
|---|---|---|
| Validation.ValidateInput | src/mounter/__main__.py:56-63 | the empty value is rejected whatever the pattern; with no pattern (or an empty one) any non-empty value passes; with a pattern, acceptance is exactly "non-empty and matched"; the installer's duplicate `_validate_input` (sytemd_service_installer.py:37-43) is the same check |
| Text.Fields | src/mounter/__main__.py:212 | every field of `str.split()` is non-empty and free of whitespace |
| Text.FieldsOfJoinSpaced | src/mounter/__main__.py:212 | splitting words that were joined by single spaces, with any whitespace ending, gives back exactly those words |
| Text.Before | src/mounter/sytemd_service_installer.py:46 | `split(' ')[0]` is a prefix holding no space, followed in the input by a space unless it is the whole input |
| Text.ReplaceChar | src/mounter/__main__.py:326 | same length; each character equal to the old one becomes the new one, every other is kept |
| Text.DropFirst | src/mounter/__main__.py:327 | `s[1:]` is what follows the first character, and is empty for the empty string |
| Text.ContainsAt | src/mounter/__main__.py:318 | the substring test holds exactly when the expected string occurs at some index of the device |
| MountTable.LookupMount | src/mounter/__main__.py:211-217 | a device it reports is a single whitespace-free field |
| MountTable.IsPathMounted | src/mounter/__main__.py:197-220 | the loop over the mount lines with its early returns yields the lookup result, including the failure on a short line |
| MountTable.FirstMatchWins | src/mounter/__main__.py:211-216 | if every earlier line is well formed and mounted elsewhere, the first line mounted at the path decides, and its first field is the result |
| MountTable.MalformedLineFails | src/mounter/__main__.py:212-213 | a line with fewer than two fields, reached before any match, makes the lookup fail rather than being skipped |
| MountTable.NotMountedIff | src/mounter/__main__.py:217 | `False` is returned exactly when every line is well formed and no second field equals the path |
| MountTable.LaterLinesIgnored | src/mounter/__main__.py:215-216 | once the scan has returned, appending lines (another mount at the same point, say) does not change the result |
| MountTable.RemoteDevice | src/mounter/__main__.py:315 | the expected device is the username, then `@`, then the server name, then `:`, then the remote path, and nothing else (its length is the three parts plus two) |
| MountTable.Classify | src/mounter/__main__.py:317-322 | failed exactly on a lookup error; not mounted exactly on no device or an empty one (`if not result`); mounted as expected exactly when a non-empty device contains the expected string; otherwise busy with that device |
| MountTable.RemoteDeviceParts | src/mounter/__main__.py:315 | the expected device `user@host:path` splits back at its first `@` and next `:` into its three parts |
| MountTable.CheckMountedPath | src/mounter/__main__.py:314-322 | not mounted, mounted as expected, busy with the found device, failed: each exactly when the lookup gave no device, a device containing `user@host:path`, a device not containing it, or an error |
| MountTable.SshfsExampleLookup | src/mounter/__main__.py:215 | in a one-line sshfs table, `/mnt/x` finds the device while `/mnt/x/` finds nothing: exact comparison, no normalisation |
| MountTable.SshfsMountExample | src/mounter/__main__.py:316-322 | that table classifies as mounted for its owner, busy for another user, not mounted at `/mnt/x/` |
| Naming.ServiceName | src/mounter/__main__.py:326-328 | the unit name holds no `/`, ends in `@ssh-mounter`, is one shorter than the path plus the suffix, and character `i` is path character `i+1` with `/` turned into `-` |
| Naming.ServiceNameExample | src/mounter/__main__.py:326-328 | `/home/user` gives `home-user@ssh-mounter` |
| Naming.ServiceNameRoundTrip | src/mounter/__main__.py:326-328 | an absolute remote path without `-` can be read back from its unit name |
| Naming.ServiceNameInjective | src/mounter/__main__.py:326-328 | two such paths with the same unit name are equal |
| Naming.ServiceNamesCanCollide | src/mounter/__main__.py:326-328 | `/a/b` and `/a-b` share the unit name `a-b@ssh-mounter` |
| Naming.PeriodText | src/mounter/__main__.py:325 | the given period, else `60` (also for a bare `-p`, whose integer 60 formats as `60`); so a digit string unless a non-digit value was given |
| Naming.ServiceCommandLine | src/mounter/__main__.py:334-336 | the text before the first space is the bare executable `ssh-mounter`, and after it come the options `-u … -k …` joined by single spaces |
| Naming.ServiceDescription | src/mounter/__main__.py:341 | starts with `Mount remote path ` and the remote path, continues with ` to local `, ends with the local path, has exactly the fixed text's length plus the two paths, and is one line when both paths are |
| Naming.ServiceCommandLineFields | src/mounter/__main__.py:334-336 | the command line's first word is the bare `ssh-mounter`; with whitespace-free arguments it splits back into the executable, then `-u -s -r -m -l -p -q -k` with their values in order |
| ExecPath.SlashSegmentsAreGroups | src/mounter/sytemd_service_installer.py:20 | the character-level test accepts exactly the strings generated by the group `([a-zA-Z0-9_.\-]+/?)+` |
| ExecPath.AbsolutePathGrammar | src/mounter/sytemd_service_installer.py:20 | `IsAbsolutePath` holds exactly for a `/` followed by a string of the group's grammar, the pattern without its `$` |
| ExecPath.NewlineEndedPathMatches | src/mounter/sytemd_service_installer.py:41 | `re.match` with `$` accepts `/bin/sh` followed by a newline, which is not itself an absolute path of the pattern's form |
| UnitFile.RestartLine | src/mounter/sytemd_service_installer.py:75 | `Restart=always` exactly when `restart_always` is set, the empty string otherwise |
| UnitFile.UnitLines | src/mounter/sytemd_service_installer.py:77-89 | twelve lines: `[Unit]`, `[Service]` and `[Install]` at lines 1, 5 and 10, blank lines 4 and 9, the restart line (possibly empty) at line 8, `Type=simple` and `WantedBy=multi-user.target` at lines 7 and 11; the arguments fill `Description=` (line 2), `After=` (line 3), `ExecStart=` (line 6) and `Alias=<name>.service` (line 12) |
| UnitFile.Render | src/mounter/sytemd_service_installer.py:77-90 | the unit text starts with `[Unit]` and a newline, and ends with a newline |
| UnitFile.RenderedSections | src/mounter/sytemd_service_installer.py:77-89 | with newline-free fields the unit reads back as the twelve template lines, in order, with section headers exactly on lines 1, 5 and 10 (`[Unit]`, `[Service]`, `[Install]`) |
| UnitFile.NewlineInDescriptionAddsLine | src/mounter/sytemd_service_installer.py:78 | a newline in the description shifts the layout: thirteen lines, the third being the text after the newline |
| Installer.ServiceInstaller.constructor | src/mounter/sytemd_service_installer.py:7-21 | the installer keeps the quiet flag and the host it acts on |
| Installer.ServiceInstaller.ValidatePath | src/mounter/sytemd_service_installer.py:45-53 | the text before the first space decides; accepted exactly when it matches the path pattern; otherwise exit in quiet mode and the `_input_path` exception in interactive mode |
| Installer.ServiceInstaller.Prepare | src/mounter/sytemd_service_installer.py:55-90 | a unit is returned exactly when the path check is off or passes, it is the template filled with the original five fields, and an exit happens exactly on a failed check in quiet mode |
| Installer.Host.Exists | src/mounter/sytemd_service_installer.py:118 | `os.path.exists` answers whether the path is a key of the file map |
| Installer.Host.Write | src/mounter/sytemd_service_installer.py:121-123 | the file map gets the content at the path and the trace records the write |
| Installer.Host.Remove | src/mounter/sytemd_service_installer.py:158-159 | the path leaves the file map and the trace records the deletion |
| Installer.Host.Run | src/mounter/sytemd_service_installer.py:127 | a runner call appends the command and its `exit_on_err` flag to the trace and leaves the files alone |
| Installer.ServiceInstaller.Install | src/mounter/sytemd_service_installer.py:92-131 | returns true exactly when the unit file was absent; then the file holds the content and the trace gains write, `daemon-reload` (exit on error), `enable <name>.service` (no exit on error); otherwise nothing changes |
| Installer.ServiceInstaller.Start | src/mounter/sytemd_service_installer.py:133-137 | returns true and records `systemctl start <name>`, without the `.service` suffix, with exit on error |
| Installer.ServiceInstaller.Remove | src/mounter/sytemd_service_installer.py:139-163 | returns true exactly when the unit file was present; then the trace gains stop, disable, delete, `daemon-reload`, in that order, and the file is gone; otherwise nothing changes |
| Installer.InstallEffect | src/mounter/sytemd_service_installer.py:115-131 | returns `True` exactly when the unit file was absent, and then the file holds the given content; on refusal the host is unchanged; afterwards the file exists; no other path is added, removed or changed; the trace is only appended to, and on success exactly write, `daemon-reload`, `enable <name>.service` in that order |
| Installer.StartEffect | src/mounter/sytemd_service_installer.py:133-137 | returns `True`, leaves the files unchanged, and appends exactly `systemctl start <name>` to the trace |
| Installer.RemoveEffect | src/mounter/sytemd_service_installer.py:146-163 | returns `True` exactly when the unit file was present, and then appends stop, disable, delete, reload in that order; on refusal the host is unchanged; afterwards the file is absent; no other path changes; the trace is only appended to |
| Installer.InstallTwiceRefused | src/mounter/sytemd_service_installer.py:118-120 | after one `install` the unit file exists, and a second `install` of the same name returns `None` and changes neither files nor trace, so the first content stays |
| Installer.RemoveLeavesUnitAbsent | src/mounter/sytemd_service_installer.py:148-163 | removing an absent unit changes nothing; after `remove` the unit is absent, so a second `remove` returns `None` |
| Installer.RemoveUndoesInstall | src/mounter/sytemd_service_installer.py:115-163 | `remove` after a successful `install` restores the file map, and the trace shows write, reload, enable, stop, disable, delete, reload |
| Installer.EffectsKeepReloadAfterChanges | src/mounter/sytemd_service_installer.py:121-162 | `install`, `start` and `remove` each preserve the invariant that every write or deletion of a unit file is later followed by `systemctl daemon-reload` |
| ArgCheck.ValidateArgs | src/mounter/__main__.py:124-179 | `-i` with `-d` is always the reported error; a bare `-p` under `-i` raises; in quiet mode the arguments pass exactly when every condition holds (no `-c`, digit period, valid log path, username, host and both paths present and matching); in interactive mode exactly when the values given match, and the period, `-c/-q` and username messages never appear |
| ArgCheck.QuietCheckOrder | src/mounter/__main__.py:130-156 | in quiet mode, with `-i` (and a valid period), with `-d` or with neither, a bad log path is reported before anything later, and a missing username before the host and paths |
| ArgCheck.InteractiveRejectsGivenHost | src/mounter/__main__.py:159-165 | interactive mode, with or without a valid `-l` and with or without `-i`, still rejects a host that was given but does not match the host pattern |
| ServiceSetup.InstallOrRemoveService | src/mounter/__main__.py:324-351 | the host ends in the state of install-then-start (start only if install succeeded) for `-i`, followed by remove for `-d`, with the unit built from the derived name, command line and description |
| ServiceSetup.SetupEffect | src/mounter/__main__.py:331-351 | the setup only appends to the trace, touches no unit file other than the one named after the remote path, and changes nothing without `-i` or `-d` |
| ServiceSetup.InstallWritesUnitAndStarts | src/mounter/__main__.py:331-347 | with `-i` alone the unit file for these arguments is written and the trace gains write, reload, enable, start; if the unit existed nothing changes |
| ServiceSetup.InstallAndDeleteRestoreFiles | src/mounter/__main__.py:331-351 | `install_or_remove_service` on its own, with `-i` and `-d` together on a fresh host, leaves the file map as it was (`validate_args` refuses that pair before the mounter gets there) |
| ServiceSetup.SetupKeepsReloadAfterChanges | src/mounter/__main__.py:324-351 | the whole setup keeps every change on disk followed by a reload |
| ServiceSetup.CommandLineFailsPathCheck | src/mounter/__main__.py:334-344 | the command line begins with a relative name, so with the path check on no unit would be rendered, and a quiet installer would exit |
| ServiceSetup.InteractiveBadPeriodReachesUnit | src/mounter/__main__.py:130-136 | in interactive mode a non-digit period under `-i` is accepted, because the re-entered number is dropped, and it reaches the unit's command line unchanged |

## Left out

- Reading `/proc/mounts`. The mount table is a parameter holding its lines.
  An I/O error while reading, which the source reports like a short line, has
  no separate case.
- Logging, the exit itself, and `display_error_with_args` output. Outcomes
  stand for them: `LookupFailed`, `BusyWithOther`, `ArgsRejected`,
  `PrepareExited`.
- What `Runner.run` does with a command, and what `exit_on_err=True` does on
  a failing command. The runner is not part of this model, so the model records
  only the command and its flag. It also assumes that a runner call never
  touches the unit files (`Host.Run` leaves them unchanged). Under that
  assumption the re-check `os.path.exists(service_path)` before `os.remove`
  (sytemd_service_installer.py:158) always passes, so `RemoveEffect` always
  records the deletion.
- The constructor's assignment of `external_logger` as the runner when a runner
  is passed (sytemd_service_installer.py:19). The only caller passes no runner.
- Interactive prompts: `input_username`, `input_host`, `input_path`,
  `input_number`, `one_choose`, `create_ssh_key`,
  `input_remote_user_password`, and the body of
  `ServiceInstaller._input_path`. All of these are user input. Where
  `validate_args` would prompt, the model treats the prompt as succeeding, so
  later checks still run. The prompted values themselves are not modelled.
- Shell-outs to external programs: `is_package_installed`, `mount_sshfs`,
  `test_ssh_connection`, `install_key_to_server`, `create_remote_user`.
- `check_and_create_directory`: a prompt plus `os.path.exists` and
  `os.makedirs`, which is user input and filesystem calls.
- Failing file operations. In the model the host's `Write` and `Remove` always
  succeed. In the source, `open(service_path, 'w')` and `os.remove`
  (sytemd_service_installer.py:121-123, 158-159) are unguarded, so an
  exception there would end the run part-way through `install` or `remove`.
- `main`'s `argparse` setup, and the periodic loop with `float(period)` and
  `time.sleep`. They are argument parsing, timing and floating point.
- The mounter's `path_pattern` and host pattern. Both are opaque predicates
  that `ArgCheck.ValidateArgs` takes as parameters. Only the installer's
  absolute-path pattern is hand-coded.
- ArgCheck.ValidateArgs: period validity uses `isdigit` on ASCII digits only.
  Python also accepts other Unicode digits.
- `expanduser` on paths, and races between concurrent installers. Each
  operation is modelled as one atomic step on the host.
