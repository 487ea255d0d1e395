/**
 * The mount-state resolver: finding what is mounted at a local path in the
 * kernel's mount table, and classifying that against the expected remote
 * device `user@host:path`.
 */
module MountTable {
  import opened Text

  /** What `is_path_mounted` yields: the device mounted at the path, `False`, or (on an exception) an error and exit. */
  datatype MountLookup = Device(device: string) | NoMount | Fatal

  /** The outcome of `check_mounted_path`. `BusyWithOther` and `LookupFailed` both log an error and exit with status 1. */
  datatype MountStatus = NotMounted | MountedAsExpected | BusyWithOther(device: string) | LookupFailed

  /** A mount-table line with at least the device and mount-point columns; on a shorter one `parts[1]` raises. */
  predicate HasMountPoint(line: string) {
    |Fields(line)| >= 2
  }

  /** The mount point column of a well-formed line. */
  function MountPoint(line: string): string
    requires HasMountPoint(line)
  {
    Fields(line)[1]
  }

  /** The device column of a well-formed line. */
  function DeviceOf(line: string): string
    requires HasMountPoint(line)
  {
    Fields(line)[0]
  }

  /** Every line before index `i` is well-formed and mounted somewhere other than `localPath`. */
  ghost predicate PassesOver(lines: seq<string>, i: int, localPath: string)
    requires 0 <= i <= |lines|
  {
    forall j :: 0 <= j < i ==> HasMountPoint(lines[j]) && MountPoint(lines[j]) != localPath
  }

  /** The scan `is_path_mounted` performs, line by line with an early return. */
  function LookupMount(lines: seq<string>, localPath: string): (r: MountLookup)
    ensures r.Device? ==> IsWord(r.device)
  {
    if lines == [] then NoMount
    else if !HasMountPoint(lines[0]) then Fatal
    else if MountPoint(lines[0]) == localPath then Device(DeviceOf(lines[0]))
    else LookupMount(lines[1..], localPath)
  }

  /** `is_path_mounted(local_path)` over the lines of `/proc/mounts`. */
  method IsPathMounted(mounts: seq<string>, localPath: string) returns (r: MountLookup)
    ensures r == LookupMount(mounts, localPath)
  {
    var i := 0;
    assert mounts[0..] == mounts;
    while i < |mounts|
      invariant 0 <= i <= |mounts|
      invariant LookupMount(mounts[i..], localPath) == LookupMount(mounts, localPath)
    {
      var parts := Fields(mounts[i]);
      if |parts| < 2 {
        return Fatal;
      }
      var mountedPath := parts[1];
      var mountedDevice := parts[0];
      if mountedPath == localPath {
        return Device(mountedDevice);
      }
      assert mounts[i..][1..] == mounts[i + 1..];
      i := i + 1;
    }
    return NoMount;
  }

  /** The first line mounted at `localPath` decides, provided every earlier line was well-formed. */
  lemma {:induction false} FirstMatchWins(lines: seq<string>, i: nat, localPath: string)
    requires i < |lines| && PassesOver(lines, i, localPath)
    requires HasMountPoint(lines[i]) && MountPoint(lines[i]) == localPath
    ensures LookupMount(lines, localPath) == Device(DeviceOf(lines[i]))
  {
    if i > 0 {
      assert HasMountPoint(lines[0]) && MountPoint(lines[0]) != localPath;
      assert lines[1..][i - 1] == lines[i];
      assert PassesOver(lines[1..], i - 1, localPath) by {
        forall j | 0 <= j < i - 1
          ensures HasMountPoint(lines[1..][j]) && MountPoint(lines[1..][j]) != localPath
        {
          assert lines[1..][j] == lines[j + 1];
        }
      }
      FirstMatchWins(lines[1..], i - 1, localPath);
    }
  }

  /** A malformed line reached before any match makes the lookup fail. */
  lemma {:induction false} MalformedLineFails(lines: seq<string>, i: nat, localPath: string)
    requires i < |lines| && PassesOver(lines, i, localPath)
    requires !HasMountPoint(lines[i])
    ensures LookupMount(lines, localPath) == Fatal
  {
    if i > 0 {
      assert HasMountPoint(lines[0]) && MountPoint(lines[0]) != localPath;
      assert lines[1..][i - 1] == lines[i];
      assert PassesOver(lines[1..], i - 1, localPath) by {
        forall j | 0 <= j < i - 1
          ensures HasMountPoint(lines[1..][j]) && MountPoint(lines[1..][j]) != localPath
        {
          assert lines[1..][j] == lines[j + 1];
        }
      }
      MalformedLineFails(lines[1..], i - 1, localPath);
    }
  }

  /** Nothing is mounted exactly when every line is well-formed and mounted elsewhere. */
  lemma {:induction false} NotMountedIff(lines: seq<string>, localPath: string)
    ensures LookupMount(lines, localPath) == NoMount <==> PassesOver(lines, |lines|, localPath)
  {
    if lines != [] {
      NotMountedIff(lines[1..], localPath);
      if PassesOver(lines, |lines|, localPath) {
        assert HasMountPoint(lines[0]) && MountPoint(lines[0]) != localPath;
        forall j | 0 <= j < |lines| - 1
          ensures HasMountPoint(lines[1..][j]) && MountPoint(lines[1..][j]) != localPath
        {
          assert lines[1..][j] == lines[j + 1];
        }
      }
      if LookupMount(lines, localPath) == NoMount {
        forall j | 0 <= j < |lines|
          ensures HasMountPoint(lines[j]) && MountPoint(lines[j]) != localPath
        {
          if j > 0 {
            assert lines[1..][j - 1] == lines[j];
          }
        }
      }
    }
  }

  /** Once the scan has stopped at a device or a failure, lines after it change nothing. */
  lemma {:induction false} LaterLinesIgnored(lines: seq<string>, rest: seq<string>, localPath: string)
    requires LookupMount(lines, localPath) != NoMount
    ensures LookupMount(lines + rest, localPath) == LookupMount(lines, localPath)
  {
    assert (lines + rest)[0] == lines[0];
    if HasMountPoint(lines[0]) && MountPoint(lines[0]) != localPath {
      assert (lines + rest)[1..] == lines[1..] + rest;
      LaterLinesIgnored(lines[1..], rest, localPath);
    }
  }

  /** The device string `check_mounted_path` expects: `username@servername:remote_path`. */
  function RemoteDevice(username: string, servername: string, remotePath: string): (d: string)
    ensures |d| == |username| + |servername| + |remotePath| + 2
    ensures d[..|username|] == username && d[|username|] == '@'
    ensures d[|username| + 1..|username| + 1 + |servername|] == servername && d[|username| + 1 + |servername|] == ':'
    ensures d[|d| - |remotePath|..] == remotePath
  {
    username + "@" + servername + ":" + remotePath
  }

  /** Splitting a device string at its first `@` and the following first `:` recovers its three parts. */
  lemma RemoteDeviceParts(username: string, servername: string, remotePath: string)
    requires '@' !in username && ':' !in servername
    ensures var d := RemoteDevice(username, servername, remotePath);
      Before(d, '@') == username && Before(After(d, '@'), ':') == servername
      && After(After(d, '@'), ':') == remotePath
  {
    var d := RemoteDevice(username, servername, remotePath);
    var rest := servername + ":" + remotePath;
    assert d == username + ['@'] + rest;
    SplitAtFirst(username, '@', rest);
    assert rest == servername + [':'] + remotePath;
    SplitAtFirst(servername, ':', remotePath);
  }

  /** The classification `check_mounted_path` applies to the result of the lookup. */
  function Classify(lookup: MountLookup, expected: string): (s: MountStatus)
    ensures s == LookupFailed <==> lookup == Fatal
    ensures s == NotMounted <==> lookup == NoMount || lookup == Device([])
    ensures s == MountedAsExpected <==> lookup.Device? && lookup.device != [] && Contains(lookup.device, expected)
    ensures s.BusyWithOther? <==> lookup.Device? && lookup.device != [] && !Contains(lookup.device, expected)
    ensures s.BusyWithOther? ==> s.device == lookup.device
  {
    match lookup
    case NoMount => NotMounted
    case Fatal => LookupFailed
    case Device(d) =>
      if d == [] then NotMounted      // `if not result`: an empty device would read as "not mounted"
      else if Contains(d, expected) then MountedAsExpected
      else BusyWithOther(d)
  }

  /** `check_mounted_path(args)` over the lines of `/proc/mounts`. */
  method CheckMountedPath(mounts: seq<string>, username: string, servername: string, remotePath: string, localPath: string)
    returns (s: MountStatus)
    ensures s == NotMounted <==> LookupMount(mounts, localPath) == NoMount
    ensures s == LookupFailed <==> LookupMount(mounts, localPath) == Fatal
    ensures s == MountedAsExpected <==>
      LookupMount(mounts, localPath).Device? && Contains(LookupMount(mounts, localPath).device, RemoteDevice(username, servername, remotePath))
    ensures s.BusyWithOther? <==>
      LookupMount(mounts, localPath).Device? && !Contains(LookupMount(mounts, localPath).device, RemoteDevice(username, servername, remotePath))
    ensures s.BusyWithOther? ==> s.device == LookupMount(mounts, localPath).device
  {
    var remoteDevice := RemoteDevice(username, servername, remotePath);
    var result := IsPathMounted(mounts, localPath);
    s := Classify(result, remoteDevice);
  }

  /** The line the kernel lists for an `sshfs` mount of `bob@host:/home/bob` at `/mnt/x`, alone in a table. */
  predicate IsSshfsExampleTable(table: seq<string>, ws: seq<string>) {
    && ws == ["bob@host:/home/bob", "/mnt/x", "fuse.sshfs", "rw,nosuid,nodev", "0", "0"]
    && table == [JoinSpaced(ws) + "\n"]
  }

  /** In that table `/mnt/x` holds the device, and `/mnt/x/` (a different string) holds nothing. */
  lemma SshfsExampleLookup(table: seq<string>, ws: seq<string>)
    requires IsSshfsExampleTable(table, ws)
    ensures LookupMount(table, "/mnt/x") == Device("bob@host:/home/bob")
    ensures LookupMount(table, "/mnt/x/") == NoMount
  {
    forall k | 0 <= k < |ws| ensures IsWord(ws[k]) {
      PrintableIsWord(ws[k]);
    }
    FieldsOfJoinSpaced(ws, "\n");
    assert table[1..] == [];
  }

  /** That table queried by the mount's owner, by someone else, and at the mount point spelled with a trailing slash. */
  lemma SshfsMountExample(table: seq<string>, ws: seq<string>)
    requires IsSshfsExampleTable(table, ws)
    ensures Classify(LookupMount(table, "/mnt/x"), RemoteDevice("bob", "host", "/home/bob")) == MountedAsExpected
    ensures Classify(LookupMount(table, "/mnt/x"), RemoteDevice("alice", "host", "/home/alice")) == BusyWithOther("bob@host:/home/bob")
    ensures Classify(LookupMount(table, "/mnt/x/"), RemoteDevice("bob", "host", "/home/bob")) == NotMounted
  {
    SshfsExampleLookup(table, ws);
    SshfsDeviceClassified("bob@host:/home/bob");
  }

  lemma SshfsDeviceClassified(device: string)
    requires device == "bob@host:/home/bob"
    ensures Classify(Device(device), RemoteDevice("bob", "host", "/home/bob")) == MountedAsExpected
    ensures Classify(Device(device), RemoteDevice("alice", "host", "/home/alice")) == BusyWithOther(device)
  {
    assert RemoteDevice("bob", "host", "/home/bob") == device;
    assert Contains(device, device);
    LongerNotContained(device, RemoteDevice("alice", "host", "/home/alice"));
  }
}
