/**
 * `ServiceInstaller`: validating the unit's command line, rendering the unit,
 * and installing, starting and removing it. The machine it acts on is a
 * `Host`: the files under the systemd unit directory, as a map from path to
 * content, and an append-only trace of what was done to them and of each
 * `systemctl` command handed to the command runner with its `exit_on_err` flag.
 */
module Installer {
  import opened Wrappers
  import opened Text
  import opened Validation
  import opened ExecPath
  import opened UnitFile

  const UnitDirectory := "/etc/systemd/system/"

  /** `/etc/systemd/system/<name>.service` */
  function UnitPath(serviceName: string): string {
    UnitDirectory + serviceName + ".service"
  }

  /** A command line given to the runner, with the `exit_on_err` flag it was given. */
  datatype Command = Command(line: string, exitOnErr: bool)

  datatype Event = Ran(command: Command) | Wrote(path: string, content: string) | Deleted(path: string)

  datatype HostState = HostState(files: map<string, string>, trace: seq<Event>)

  const DaemonReload := Command("systemctl daemon-reload", true)

  function EnableCommand(serviceName: string): Command {
    Command("systemctl enable " + serviceName + ".service", false)
  }

  /** `start` names the unit without the `.service` suffix. */
  function StartCommand(serviceName: string): Command {
    Command("systemctl start " + serviceName, true)
  }

  function StopCommand(serviceName: string): Command {
    Command("systemctl stop " + serviceName + ".service", true)
  }

  function DisableCommand(serviceName: string): Command {
    Command("systemctl disable " + serviceName + ".service", true)
  }

  /** What `install` does to the host, and whether it returns `True` (rather than `None`). */
  function InstallEffect(st: HostState, serviceName: string, serviceContent: string): (r: (HostState, bool))
    ensures r.1 <==> UnitPath(serviceName) !in st.files
    ensures !r.1 ==> r.0 == st
    ensures UnitPath(serviceName) in r.0.files
    ensures r.1 ==> r.0.files[UnitPath(serviceName)] == serviceContent
    ensures forall p :: p != UnitPath(serviceName) ==> (p in r.0.files <==> p in st.files)
    ensures forall p :: p != UnitPath(serviceName) && p in st.files ==> r.0.files[p] == st.files[p]
    ensures st.trace <= r.0.trace
    ensures r.1 ==> r.0.trace == st.trace + [Wrote(UnitPath(serviceName), serviceContent), Ran(DaemonReload), Ran(EnableCommand(serviceName))]
  {
    var path := UnitPath(serviceName);
    if path in st.files then (st, false)
    else
      (HostState(st.files[path := serviceContent],
                 st.trace + [Wrote(path, serviceContent), Ran(DaemonReload), Ran(EnableCommand(serviceName))]),
       true)
  }

  /** What `start` does to the host; it always returns `True`. */
  function StartEffect(st: HostState, serviceName: string): (r: (HostState, bool))
    ensures r.1 && r.0.files == st.files
    ensures st.trace <= r.0.trace && |r.0.trace| == |st.trace| + 1
    ensures r.0.trace[|st.trace|] == Ran(StartCommand(serviceName))
  {
    (HostState(st.files, st.trace + [Ran(StartCommand(serviceName))]), true)
  }

  /** What `remove` does to the host, and whether it returns `True` (rather than `None`). */
  function RemoveEffect(st: HostState, serviceName: string): (r: (HostState, bool))
    ensures r.1 <==> UnitPath(serviceName) in st.files
    ensures !r.1 ==> r.0 == st
    ensures UnitPath(serviceName) !in r.0.files
    ensures forall p :: p != UnitPath(serviceName) ==> (p in r.0.files <==> p in st.files)
    ensures forall p :: p != UnitPath(serviceName) && p in st.files ==> r.0.files[p] == st.files[p]
    ensures st.trace <= r.0.trace
    ensures r.1 ==> (r.0.trace[|st.trace|..] ==
      [Ran(StopCommand(serviceName)), Ran(DisableCommand(serviceName)), Deleted(UnitPath(serviceName)), Ran(DaemonReload)])
  {
    var path := UnitPath(serviceName);
    if path !in st.files then (st, false)
    else
      (HostState(st.files - {path},
                 st.trace + [Ran(StopCommand(serviceName)), Ran(DisableCommand(serviceName)), Deleted(path), Ran(DaemonReload)]),
       true)
  }

  /** Every change to a unit file in the trace is followed, later on, by a `systemctl daemon-reload`. */
  ghost predicate ReloadFollowsChanges(trace: seq<Event>) {
    forall i :: 0 <= i < |trace| && !trace[i].Ran? ==>
      exists j :: i < j < |trace| && trace[j] == Ran(DaemonReload)
  }

  lemma ReloadFollowsChangesAppend(trace: seq<Event>, more: seq<Event>)
    requires ReloadFollowsChanges(trace)
    requires forall i :: 0 <= i < |more| && !more[i].Ran? ==>
      exists j :: i < j < |more| && more[j] == Ran(DaemonReload)
    ensures ReloadFollowsChanges(trace + more)
  {
    var all := trace + more;
    forall i | 0 <= i < |all| && !all[i].Ran?
      ensures exists j :: i < j < |all| && all[j] == Ran(DaemonReload)
    {
      if i < |trace| {
        assert all[i] == trace[i];
        var j :| i < j < |trace| && trace[j] == Ran(DaemonReload);
        assert all[j] == trace[j];
      } else {
        assert all[i] == more[i - |trace|];
        var j :| i - |trace| < j < |more| && more[j] == Ran(DaemonReload);
        assert all[j + |trace|] == more[j];
      }
    }
  }

  /** `install`, `start` and `remove` each keep the service manager reloaded after every change on disk. */
  lemma EffectsKeepReloadAfterChanges(st: HostState, serviceName: string, serviceContent: string)
    requires ReloadFollowsChanges(st.trace)
    ensures ReloadFollowsChanges(InstallEffect(st, serviceName, serviceContent).0.trace)
    ensures ReloadFollowsChanges(StartEffect(st, serviceName).0.trace)
    ensures ReloadFollowsChanges(RemoveEffect(st, serviceName).0.trace)
  {
    var path := UnitPath(serviceName);
    var installed := [Wrote(path, serviceContent), Ran(DaemonReload), Ran(EnableCommand(serviceName))];
    assert installed[1] == Ran(DaemonReload);
    ReloadFollowsChangesAppend(st.trace, installed);
    ReloadFollowsChangesAppend(st.trace, [Ran(StartCommand(serviceName))]);
    var removed := [Ran(StopCommand(serviceName)), Ran(DisableCommand(serviceName)), Deleted(path), Ran(DaemonReload)];
    assert removed[3] == Ran(DaemonReload);
    ReloadFollowsChangesAppend(st.trace, removed);
  }

  /**
   * Idempotence by refusal: once `install` has run for a name, a second
   * `install` of that name returns `None` and leaves the files and the trace
   * as they were, so the unit keeps the content of the first successful call.
   */
  lemma InstallTwiceRefused(st: HostState, serviceName: string, first: string, second: string)
    ensures var (s1, ok1) := InstallEffect(st, serviceName, first);
      && UnitPath(serviceName) in s1.files
      && s1.files[UnitPath(serviceName)] == (if ok1 then first else st.files[UnitPath(serviceName)])
      && InstallEffect(s1, serviceName, second) == (s1, false)
  {
  }

  /** `remove` of an absent unit returns `None` and changes nothing; after a `remove` the unit is absent. */
  lemma RemoveLeavesUnitAbsent(st: HostState, serviceName: string)
    ensures UnitPath(serviceName) !in st.files ==> RemoveEffect(st, serviceName) == (st, false)
    ensures UnitPath(serviceName) !in RemoveEffect(st, serviceName).0.files
    ensures RemoveEffect(RemoveEffect(st, serviceName).0, serviceName).1 == false
  {
  }

  /**
   * `remove` undoes a successful `install` on disk: the files are as before,
   * and the trace records write, reload, enable, then stop, disable, delete,
   * reload, in that order.
   */
  lemma RemoveUndoesInstall(st: HostState, serviceName: string, serviceContent: string)
    requires UnitPath(serviceName) !in st.files
    ensures var (s1, ok1) := InstallEffect(st, serviceName, serviceContent);
      var (s2, ok2) := RemoveEffect(s1, serviceName);
      && ok1 && ok2
      && s2.files == st.files
      && s2.trace == st.trace + [
           Wrote(UnitPath(serviceName), serviceContent), Ran(DaemonReload), Ran(EnableCommand(serviceName)),
           Ran(StopCommand(serviceName)), Ran(DisableCommand(serviceName)), Deleted(UnitPath(serviceName)), Ran(DaemonReload)]
  {
    var path := UnitPath(serviceName);
    var s1 := InstallEffect(st, serviceName, serviceContent).0;
    assert s1.files - {path} == st.files;
  }

  /** The outcome of `_validate_path`. */
  datatype PathCheck =
    | PathAccepted
    | PathInputFails   // interactive mode: an error is logged, a line is read, then `_input_path` raises on its unbound `left_path`
    | PathRejected     // quiet mode: an error is logged and the program exits with status 1

  /** The outcome of `prepare`: the unit's text, the exit of a rejected path, or the exception `_input_path` raises. */
  datatype Prepared = Prepared(content: string) | PrepareExited | PrepareFailed

  /** The operating system as the installer sees it. */
  class Host {
    var files: map<string, string>
    var trace: seq<Event>

    constructor (files: map<string, string>)
      ensures this.files == files && trace == []
    {
      this.files := files;
      trace := [];
    }

    function State(): HostState
      reads this
    {
      HostState(files, trace)
    }

    /** `os.path.exists(path)` */
    method Exists(path: string) returns (b: bool)
      ensures b <==> path in files
    {
      b := path in files;
    }

    /** Writing a file with `open(path, 'w')`. */
    method Write(path: string, content: string)
      modifies this
      ensures files == old(files)[path := content]
      ensures trace == old(trace) + [Wrote(path, content)]
    {
      files := files[path := content];
      trace := trace + [Wrote(path, content)];
    }

    /** `os.remove(path)` */
    method Remove(path: string)
      modifies this
      ensures files == old(files) - {path}
      ensures trace == old(trace) + [Deleted(path)]
    {
      files := files - {path};
      trace := trace + [Deleted(path)];
    }

    /** `Runner.run(command, exit_on_err=...)`: the command is recorded; what it does is not part of this model. */
    method Run(command: Command)
      modifies this
      ensures files == old(files)
      ensures trace == old(trace) + [Ran(command)]
    {
      trace := trace + [Ran(command)];
    }
  }

  class ServiceInstaller {
    const quietMode: bool
    const host: Host

    constructor (quietMode: bool, host: Host)
      ensures this.quietMode == quietMode && this.host == host
    {
      this.quietMode := quietMode;
      this.host := host;
    }

    /** `_validate_path`: only the text before the first space is checked against the absolute-path pattern. */
    function ValidatePath(scriptPath: string): (r: PathCheck)
      ensures r == PathAccepted <==> MatchesPathPattern(Before(scriptPath, ' '))
      ensures r == PathRejected <==> quietMode && !MatchesPathPattern(Before(scriptPath, ' '))
      ensures r == PathInputFails <==> !quietMode && !MatchesPathPattern(Before(scriptPath, ' '))
    {
      var leftPath := Before(scriptPath, ' ');
      var valid := ValidateInput(leftPath, Some(Pattern(InstallerPathPattern, MatchesPathPattern)));
      if valid then PathAccepted
      else if !quietMode then PathInputFails
      else PathRejected
    }

    /**
     * `prepare`: the rendered unit, unless the path check was asked for and
     * failed, which exits in quiet mode and raises otherwise. The unit always
     * holds the command line it was given, and depends on nothing else than
     * the five fields.
     */
    function Prepare(serviceName: string, scriptPath: string, description: string, startAfter: string,
                     restartAlways: bool, checkPath: bool): (r: Prepared)
      ensures r.Prepared? <==> !checkPath || MatchesPathPattern(Before(scriptPath, ' '))
      ensures r == PrepareExited <==> checkPath && quietMode && !MatchesPathPattern(Before(scriptPath, ' '))
      ensures r.Prepared? ==> r.content == Render(serviceName, scriptPath, description, startAfter, restartAlways)
    {
      if !checkPath then Prepared(Render(serviceName, scriptPath, description, startAfter, restartAlways))
      else
        match ValidatePath(scriptPath)
        case PathAccepted => Prepared(Render(serviceName, scriptPath, description, startAfter, restartAlways))
        case PathRejected => PrepareExited
        case PathInputFails => PrepareFailed
    }

    /** `install`: refuses when the unit file exists; otherwise writes it, reloads the daemon and enables the unit. */
    method Install(serviceName: string, serviceContent: string) returns (ok: bool)
      modifies host
      ensures ok <==> UnitPath(serviceName) !in old(host.files)
      ensures (host.State(), ok) == InstallEffect(old(host.State()), serviceName, serviceContent)
    {
      var servicePath := UnitPath(serviceName);
      var present := host.Exists(servicePath);
      if present {
        return false;
      }
      ghost var before := host.trace;
      host.Write(servicePath, serviceContent);
      host.Run(DaemonReload);
      host.Run(EnableCommand(serviceName));
      assert host.trace == before + [Wrote(servicePath, serviceContent), Ran(DaemonReload), Ran(EnableCommand(serviceName))];
      return true;
    }

    /** `start` */
    method Start(serviceName: string) returns (ok: bool)
      modifies host
      ensures ok
      ensures (host.State(), ok) == StartEffect(old(host.State()), serviceName)
    {
      host.Run(StartCommand(serviceName));
      return true;
    }

    /** `remove`: refuses when the unit file is absent; otherwise stops and disables the unit, deletes the file and reloads. */
    method Remove(serviceName: string) returns (ok: bool)
      modifies host
      ensures ok <==> UnitPath(serviceName) in old(host.files)
      ensures (host.State(), ok) == RemoveEffect(old(host.State()), serviceName)
    {
      var servicePath := UnitPath(serviceName);
      var present := host.Exists(servicePath);
      if !present {
        return false;
      }
      ghost var before := host.trace;
      host.Run(StopCommand(serviceName));
      host.Run(DisableCommand(serviceName));
      present := host.Exists(servicePath);
      if present {
        host.Remove(servicePath);
      }
      host.Run(DaemonReload);
      assert host.trace == before + [Ran(StopCommand(serviceName)), Ran(DisableCommand(serviceName)), Deleted(servicePath), Ran(DaemonReload)];
      return true;
    }
  }
}
