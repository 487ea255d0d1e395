/**
 * `install_or_remove_service`: derives the unit name, command line and
 * description from the arguments, then installs and starts the unit (`-i`)
 * and/or removes it (`-d`).
 */
module ServiceSetup {
  import opened Text
  import opened CliArgs
  import opened Naming
  import opened ExecPath
  import opened UnitFile
  import opened Installer
  import opened ArgCheck

  /** The `After=` dependencies the mounter's unit is given. */
  const StartAfter := "network.target auditd.service"

  /** The unit file the mounter writes for these arguments: restarting always, its path left unchecked. */
  function ServiceUnit(a: Args): string {
    Render(ServiceName(a.remotePath), ServiceCommandLine(a), ServiceDescription(a), StartAfter, true)
  }

  /**
   * What `install_or_remove_service` does to the host: it only appends to the
   * trace, touches no unit file but the one named after the remote path, and
   * changes nothing without `-i` or `-d`.
   */
  function SetupEffect(st: HostState, a: Args): (st': HostState)
    ensures st.trace <= st'.trace
    ensures forall p :: p != UnitPath(ServiceName(a.remotePath)) ==> (p in st'.files <==> p in st.files)
    ensures forall p :: p != UnitPath(ServiceName(a.remotePath)) && p in st.files ==> st'.files[p] == st.files[p]
    ensures !a.installService && !a.deleteService ==> st' == st
  {
    var name := ServiceName(a.remotePath);
    var afterInstall :=
      if !a.installService then st
      else
        var (s1, installed) := InstallEffect(st, name, ServiceUnit(a));
        if installed then StartEffect(s1, name).0 else s1;
    if a.deleteService then RemoveEffect(afterInstall, name).0 else afterInstall
  }

  /** `install_or_remove_service(args, 60)` */
  method InstallOrRemoveService(host: Host, a: Args)
    modifies host
    ensures host.State() == SetupEffect(old(host.State()), a)
  {
    var serviceName := ServiceName(a.remotePath);
    var installer := new ServiceInstaller(a.quietMode, host);
    if a.installService {
      var scriptPath := ServiceCommandLine(a);
      var serviceContent := installer.Prepare(serviceName, scriptPath, ServiceDescription(a), StartAfter, true, false);
      var installed := installer.Install(serviceName, serviceContent.content);
      if installed {
        var _ := installer.Start(serviceName);
      }
    }
    if a.deleteService {
      var _ := installer.Remove(serviceName);
    }
  }

  /**
   * A first `-i` for a remote path writes the unit for these arguments under
   * `/etc/systemd/system/<name>.service`, then reloads, enables and starts it;
   * a `-i` for a unit that is already there changes nothing.
   */
  lemma InstallWritesUnitAndStarts(st: HostState, a: Args)
    requires a.installService && !a.deleteService
    ensures var name := ServiceName(a.remotePath);
      var st' := SetupEffect(st, a);
      if UnitPath(name) in st.files then st' == st
      else
        && st'.files == st.files[UnitPath(name) := ServiceUnit(a)]
        && st'.trace == st.trace + [Wrote(UnitPath(name), ServiceUnit(a)), Ran(DaemonReload),
                                    Ran(EnableCommand(name)), Ran(StartCommand(name))]
  {
  }

  /**
   * `install_or_remove_service` on its own, called with both `-i` and `-d` on a
   * fresh host, leaves the unit directory as it was. (`validate_args` refuses
   * that pair before the mounter gets here.)
   */
  lemma InstallAndDeleteRestoreFiles(st: HostState, a: Args)
    requires a.installService && a.deleteService
    requires UnitPath(ServiceName(a.remotePath)) !in st.files
    ensures SetupEffect(st, a).files == st.files
  {
    var name := ServiceName(a.remotePath);
    var s1 := InstallEffect(st, name, ServiceUnit(a)).0;
    assert s1.files - {UnitPath(name)} == st.files;
  }

  /** The setup keeps every change on disk followed by a reload. */
  lemma SetupKeepsReloadAfterChanges(st: HostState, a: Args)
    requires ReloadFollowsChanges(st.trace)
    ensures ReloadFollowsChanges(SetupEffect(st, a).trace)
  {
    var name := ServiceName(a.remotePath);
    EffectsKeepReloadAfterChanges(st, name, ServiceUnit(a));
    var (s1, installed) := InstallEffect(st, name, ServiceUnit(a));
    EffectsKeepReloadAfterChanges(s1, name, ServiceUnit(a));
    var afterInstall := if !a.installService then st else if installed then StartEffect(s1, name).0 else s1;
    EffectsKeepReloadAfterChanges(afterInstall, name, ServiceUnit(a));
  }

  /**
   * The unit's command line starts with the bare name `ssh-mounter`, which is
   * not an absolute path: had the path check been asked for, no unit would
   * have been rendered; a quiet installer would have exited.
   */
  lemma CommandLineFailsPathCheck(installer: ServiceInstaller, a: Args)
    ensures !MatchesPathPattern(Before(ServiceCommandLine(a), ' '))
    ensures var r := installer.Prepare(ServiceName(a.remotePath), ServiceCommandLine(a), ServiceDescription(a), StartAfter, true, true);
      !r.Prepared? && (r == PrepareExited <==> installer.quietMode)
  {
    ServiceCommandLineFields(a);
    assert Executable[0] != '/';
  }

  /**
   * In interactive mode a bad period under `-i` is asked for again, but the
   * answer is dropped: the arguments pass, and the unit's command line carries
   * the bad period as given.
   */
  lemma InteractiveBadPeriodReachesUnit(a: Args, pathMatches: string -> bool, hostMatches: string -> bool)
    requires !a.quietMode && a.installService && !a.deleteService && BadPeriodText(a.period)
    requires InteractiveArgsOk(a, pathMatches, hostMatches)
    ensures ValidateArgs(a, pathMatches, hostMatches) == ArgsAccepted
    ensures ServiceArguments(a)[9..11] == ["-p", a.period.text]
  {
  }
}
