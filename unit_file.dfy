/**
 * `ServiceInstaller.prepare`: the fixed twelve-line systemd unit template
 * filled in with the unit's name, command line, description, dependencies and
 * restart policy.
 */
module UnitFile {
  import opened Text

  /** Line 8 of the unit: `Restart=always`, or an empty line. */
  function RestartLine(restartAlways: bool): (line: string)
    ensures line == "Restart=always" <==> restartAlways
    ensures !restartAlways ==> line == []
  {
    if restartAlways then "Restart=always" else ""
  }

  /** The twelve lines of the template, in order. */
  function UnitLines(serviceName: string, scriptPath: string, description: string, startAfter: string, restartAlways: bool): (ls: seq<string>)
    ensures |ls| == 12
    ensures ls[0] == "[Unit]" && ls[4] == "[Service]" && ls[9] == "[Install]"
    ensures ls[3] == [] && ls[8] == [] && ls[7] == RestartLine(restartAlways)
    ensures ls[6] == "Type=simple" && ls[10] == "WantedBy=multi-user.target"
    ensures ls[1] == "Description=" + description && ls[2] == "After=" + startAfter
    ensures ls[5] == "ExecStart=" + scriptPath && ls[11] == "Alias=" + serviceName + ".service"
  {
    [ "[Unit]",
      "Description=" + description,
      "After=" + startAfter,
      "",
      "[Service]",
      "ExecStart=" + scriptPath,
      "Type=simple",
      RestartLine(restartAlways),
      "",
      "[Install]",
      "WantedBy=multi-user.target",
      "Alias=" + serviceName + ".service" ]
  }

  /** The unit file `prepare` returns: the template's lines, each followed by a newline. */
  function Render(serviceName: string, scriptPath: string, description: string, startAfter: string, restartAlways: bool): (text: string)
    ensures |text| > 0 && text[|text| - 1] == '\n'
    ensures "[Unit]\n" <= text
  {
    var ls := UnitLines(serviceName, scriptPath, description, startAfter, restartAlways);
    assert JoinLines(ls) == ls[0] + "\n" + JoinLines(ls[1..]);
    JoinLinesEndsInNewline(ls);
    JoinLines(ls)
  }

  /** A string of the form `[Name]`. */
  predicate IsSectionHeader(line: string) {
    |line| >= 2 && line[0] == '[' && line[|line| - 1] == ']'
  }

  /**
   * When no field holds a newline, reading the unit back line by line gives
   * the twelve lines, and the only section headers are `[Unit]` on line 1,
   * `[Service]` on line 5 and `[Install]` on line 10.
   */
  lemma RenderedSections(serviceName: string, scriptPath: string, description: string, startAfter: string, restartAlways: bool)
    requires '\n' !in serviceName && '\n' !in scriptPath && '\n' !in description && '\n' !in startAfter
    ensures var ls := SplitLines(Render(serviceName, scriptPath, description, startAfter, restartAlways));
      && ls == UnitLines(serviceName, scriptPath, description, startAfter, restartAlways)
      && (forall i :: 0 <= i < |ls| ==> (IsSectionHeader(ls[i]) <==> i == 0 || i == 4 || i == 9))
      && ls[0] == "[Unit]" && ls[4] == "[Service]" && ls[9] == "[Install]"
  {
    var ls := UnitLines(serviceName, scriptPath, description, startAfter, restartAlways);
    RenderReadsBack(ls, serviceName, scriptPath, description, startAfter, restartAlways);
    UnitSectionHeaders(ls, serviceName, scriptPath, description, startAfter, restartAlways);
  }

  lemma RenderReadsBack(ls: seq<string>, serviceName: string, scriptPath: string, description: string, startAfter: string, restartAlways: bool)
    requires '\n' !in serviceName && '\n' !in scriptPath && '\n' !in description && '\n' !in startAfter
    requires ls == UnitLines(serviceName, scriptPath, description, startAfter, restartAlways)
    ensures SplitLines(JoinLines(ls)) == ls
  {
    forall k | 0 <= k < |ls| ensures '\n' !in ls[k] {
      NoNewlineInLine(ls, k, serviceName, scriptPath, description, startAfter, restartAlways);
    }
    SplitJoinLines(ls);
  }

  lemma UnitSectionHeaders(ls: seq<string>, serviceName: string, scriptPath: string, description: string, startAfter: string, restartAlways: bool)
    requires ls == UnitLines(serviceName, scriptPath, description, startAfter, restartAlways)
    ensures forall i :: 0 <= i < |ls| ==> (IsSectionHeader(ls[i]) <==> i == 0 || i == 4 || i == 9)
  {
    forall i | 0 <= i < |ls| ensures IsSectionHeader(ls[i]) <==> i == 0 || i == 4 || i == 9 {
      if i == 1 || i == 2 || i == 5 || i == 11 {
        assert ls[i][0] != '[';
      }
    }
  }

  /**
   * Without the newline-free requirement the layout breaks: a description
   * `d1 + "\n" + d2` renders thirteen lines, the third being `d2`, so a
   * description ending in `\n[Unit]` gives the unit a second `[Unit]` header.
   */
  lemma NewlineInDescriptionAddsLine(serviceName: string, scriptPath: string, d1: string, d2: string, startAfter: string, restartAlways: bool)
    requires '\n' !in serviceName && '\n' !in scriptPath && '\n' !in startAfter && '\n' !in d1 && '\n' !in d2
    ensures var ls := SplitLines(Render(serviceName, scriptPath, d1 + "\n" + d2, startAfter, restartAlways));
      |ls| == 13 && ls[0] == "[Unit]" && ls[1] == "Description=" + d1 && ls[2] == d2
  {
    var ls := UnitLines(serviceName, scriptPath, d1 + "\n" + d2, startAfter, restartAlways);
    var split := [ls[0], "Description=" + d1, d2] + ls[2..];
    assert ls[1] == ("Description=" + d1) + "\n" + d2;
    assert split[1..][1..] == split[2..] && split[2..][1..] == split[3..] && split[3..] == ls[2..];
    assert ls[1..][1..] == ls[2..];
    var rest := JoinLines(ls[2..]);
    assert JoinLines(split[2..]) == d2 + "\n" + rest;
    assert JoinLines(split[1..]) == ("Description=" + d1) + "\n" + (d2 + "\n" + rest);
    assert JoinLines(ls[1..]) == ls[1] + "\n" + rest;
    assert ("Description=" + d1) + "\n" + (d2 + "\n" + rest) == ls[1] + "\n" + rest;
    assert JoinLines(split) == JoinLines(ls);
    forall k | 0 <= k < |split| ensures '\n' !in split[k] {
      if k >= 3 {
        NoNewlineInLine(ls, k - 1, serviceName, scriptPath, d1 + "\n" + d2, startAfter, restartAlways);
        assert split[k] == ls[k - 1];
      }
    }
    SplitJoinLines(split);
  }

  lemma NoNewlineInLine(ls: seq<string>, k: nat, serviceName: string, scriptPath: string, description: string, startAfter: string, restartAlways: bool)
    requires '\n' !in serviceName && '\n' !in scriptPath && '\n' !in startAfter
    requires ls == UnitLines(serviceName, scriptPath, description, startAfter, restartAlways)
    requires k < |ls| && ('\n' !in description || k != 1)
    ensures '\n' !in ls[k]
  {
  }
}
