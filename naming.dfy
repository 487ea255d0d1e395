/**
 * The strings `install_or_remove_service` and `check_mounted_path` derive
 * from the arguments: the unit name, the command line the unit runs and the
 * unit's description.
 */
module Naming {
  import opened Text
  import opened CliArgs

  const ServiceSuffix := "@ssh-mounter"
  const Executable := "ssh-mounter"

  /** The unit name: every `/` of the remote path turned into `-`, the first character dropped, `@ssh-mounter` appended. */
  function ServiceName(remotePath: string): (name: string)
    ensures '/' !in name
    ensures |name| == (if remotePath == [] then 0 else |remotePath| - 1) + |ServiceSuffix|
    ensures name[|name| - |ServiceSuffix|..] == ServiceSuffix
    ensures forall i :: 0 <= i < |remotePath| - 1 ==>
      name[i] == if remotePath[i + 1] == '/' then '-' else remotePath[i + 1]
  {
    var replacedSlash := ReplaceChar(remotePath, '/', '-');
    var withoutFirst := DropFirst(replacedSlash);
    assert forall i :: 0 <= i < |withoutFirst| ==> withoutFirst[i] == replacedSlash[i + 1];
    withoutFirst + ServiceSuffix
  }

  /** For an absolute remote path without `-`, the path can be read back from the unit name. */
  function RemotePathOf(name: string): string
    requires |name| >= |ServiceSuffix|
  {
    "/" + ReplaceChar(name[..|name| - |ServiceSuffix|], '-', '/')
  }

  lemma ServiceNameRoundTrip(remotePath: string)
    requires remotePath != [] && remotePath[0] == '/' && '-' !in remotePath
    ensures RemotePathOf(ServiceName(remotePath)) == remotePath
  {
    var name := ServiceName(remotePath);
    var r := RemotePathOf(name);
    assert |r| == |remotePath|;
    forall i | 0 <= i < |r| ensures r[i] == remotePath[i] {
      if i > 0 {
        assert remotePath[i] in remotePath;
      }
    }
  }

  /** So two such remote paths never share a unit name. */
  lemma ServiceNameInjective(p: string, q: string)
    requires p != [] && p[0] == '/' && '-' !in p
    requires q != [] && q[0] == '/' && '-' !in q
    requires ServiceName(p) == ServiceName(q)
    ensures p == q
  {
    ServiceNameRoundTrip(p);
    ServiceNameRoundTrip(q);
  }

  /** A remote path with a `-` can share its unit name with another remote path. */
  lemma ServiceNamesCanCollide(p: string, q: string)
    requires p == "/a/b" && q == "/a-b"
    ensures ServiceName(p) == ServiceName(q) == "a-b" + ServiceSuffix
  {
    var rp, rq := ReplaceChar(p, '/', '-'), ReplaceChar(q, '/', '-');
    assert rp[0] == rq[0] && rp[1] == rq[1] && rp[2] == rq[2] && rp[3] == rq[3];
    assert rp == rq;
    assert DropFirst(rp) == "a-b";
  }

  lemma ServiceNameExample(remotePath: string)
    requires remotePath == "/home/user"
    ensures ServiceName(remotePath) == "home-user" + ServiceSuffix
  {
    var r := ReplaceChar(remotePath, '/', '-');
    assert r[5] == '-';
    assert DropFirst(r) == "home-user";
  }

  /**
   * The period written into the unit's command line: the given value, else 60
   * (a bare `-p` stores the integer 60, which formats as `60`). It is a digit
   * string unless a non-digit value was given.
   */
  function PeriodText(period: PeriodArg): (t: string)
    ensures period.PeriodValue? ==> t == period.text
    ensures !period.PeriodValue? ==> t == DefaultServicePeriod
    ensures IsDigits(t) || (period.PeriodValue? && !IsDigits(period.text))
  {
    match period
    case PeriodValue(text) => text
    case NoPeriod => DefaultServicePeriod
    case BarePeriod => DefaultServicePeriod
  }

  /** The options the unit hands back to the mounter, in the order the command line lists them. */
  function ServiceArguments(a: Args): seq<string> {
    ["-u", a.username, "-s", a.servername, "-r", a.remotePath, "-m", a.localPath,
     "-l", "-p", PeriodText(a.period), "-q", "-k", a.sshKeyPath]
  }

  /**
   * The `ExecStart` command line built by `install_or_remove_service`: the
   * executable name and the options above, each separated by one space.
   */
  function ServiceCommandLine(a: Args): (cmd: string)
    ensures Before(cmd, ' ') == Executable
    ensures After(cmd, ' ') == JoinSpaced(ServiceArguments(a))
  {
    var ws := [Executable] + ServiceArguments(a);
    assert ws[1..] == ServiceArguments(a);
    assert JoinSpaced(ws) == Executable + [' '] + JoinSpaced(ServiceArguments(a));
    SplitAtFirst(Executable, ' ', JoinSpaced(ServiceArguments(a)));
    JoinSpaced(ws)
  }

  /** The unit's description: one line when both paths are, naming the remote path first and the local path last. */
  function ServiceDescription(a: Args): (d: string)
    ensures "Mount remote path " + a.remotePath <= d
    ensures |d| == 28 + |a.remotePath| + |a.localPath|
    ensures d[18 + |a.remotePath|..28 + |a.remotePath|] == " to local "
    ensures d[|d| - |a.localPath|..] == a.localPath
    ensures '\n' !in a.remotePath && '\n' !in a.localPath ==> '\n' !in d
  {
    "Mount remote path " + a.remotePath + " to local " + a.localPath
  }

  /**
   * The text before the command line's first space is the bare executable name
   * `ssh-mounter`; and when no argument holds whitespace, splitting the command
   * line gives back the executable and the same arguments, `-l` and `-q`
   * among them: the unit re-runs the mounter quietly against the same mount.
   */
  lemma ServiceCommandLineFields(a: Args)
    ensures Before(ServiceCommandLine(a), ' ') == Executable
    ensures (forall k :: 0 <= k < |ServiceArguments(a)| ==> IsWord(ServiceArguments(a)[k])) ==>
      Fields(ServiceCommandLine(a)) == [Executable] + ServiceArguments(a)
  {
    var ws := [Executable] + ServiceArguments(a);
    var cmd := ServiceCommandLine(a);
    assert ws[1..] == ServiceArguments(a);
    assert cmd == Executable + [' '] + JoinSpaced(ws[1..]);
    SplitAtFirst(Executable, ' ', JoinSpaced(ws[1..]));
    if forall k :: 0 <= k < |ServiceArguments(a)| ==> IsWord(ServiceArguments(a)[k]) {
      assert IsWord(Executable);
      assert forall k :: 0 <= k < |ws| ==> IsWord(ws[k]) by {
        forall k | 0 <= k < |ws| ensures IsWord(ws[k]) {
          if k > 0 {
            assert ws[k] == ServiceArguments(a)[k - 1];
          }
        }
      }
      FieldsOfJoinSpaced(ws, "");
      assert cmd + "" == cmd;
    }
  }
}
