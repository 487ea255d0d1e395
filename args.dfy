/**
 * `validate_args`: the order in which the mounter checks its command line,
 * and which message ends the run. In interactive mode a missing field is asked
 * for and the prompt loops until the answer is valid, so a missing field never
 * fails there; in quiet mode it fails. The two regular expressions are opaque
 * predicates.
 */
module ArgCheck {
  import opened Wrappers
  import opened Text
  import opened Validation
  import opened CliArgs

  /** The mounter's `path_pattern`. */
  const PathPatternText := "^((~?/?|(\\./)?)([a-zA-Z0-9_.\\-]+/?)+)$"
  /** The host pattern of `validate_args`: a dotted IPv4 address or a host name. */
  const HostPatternText := "^(?:(?:25[0-5]|2[0-4][0-9]|[01]?[0-9][0-9]?)\\.){3}(?:25[0-5]|2[0-4][0-9]|[01]?[0-9][0-9]?)$|(?:(?:[a-zA-Z0-9](?:[a-zA-Z0-9\\-]{0,61}[a-zA-Z0-9])?\\.)+[a-zA-Z]{2,6}\\.?|[a-zA-Z0-9](?:[a-zA-Z0-9\\-]{0,61}[a-zA-Z0-9])?)$"

  const InstallDeleteConflict := "Can't use simultaneously -i -d parameters"
  const InvalidPeriod := "Invalid period"
  const InvalidLogPath := "Invalid log path"
  const CreateQuietConflict := "Can't use simultaneously -c -q parameters"
  const InvalidUsername := "Invalid username"
  const InvalidHost := "Invalid hostname or IP address"
  const InvalidRemotePath := "Invalid remote path"
  const InvalidLocalPath := "Invalid local path"

  /**
   * How `validate_args` ends: it returns, it shows the message and exits with
   * status 1, or a bare `-p` (which argparse stores as the integer 60) makes
   * `args.period.isdigit()` raise under `-i`.
   */
  datatype ArgOutcome = ArgsAccepted | ArgsRejected(message: string) | PeriodCrash

  /** A period `isdigit` rejects: `args.period and not args.period.isdigit()` for a string period. */
  predicate BadPeriodText(period: PeriodArg) {
    period.PeriodValue? && period.text != [] && !IsDigits(period.text)
  }

  /** A field `validate_args` checks unless it is missing and may be asked for. */
  predicate FieldOk(value: string, pattern: Option<Pattern>, quietMode: bool) {
    (value == [] && !quietMode) || ValidateInput(value, pattern)
  }

  /** The checks after the period in the order they are made, from the log path on. */
  function CheckFields(a: Args, pathMatches: string -> bool, hostMatches: string -> bool): ArgOutcome {
    var path := Some(Pattern(PathPatternText, pathMatches));
    var host := Some(Pattern(HostPatternText, hostMatches));
    if a.logPath != [] && !ValidateInput(a.logPath, path) then ArgsRejected(InvalidLogPath)
    else if a.quietMode && a.createRemote != [] then ArgsRejected(CreateQuietConflict)
    else if !FieldOk(a.username, None, a.quietMode) then ArgsRejected(InvalidUsername)
    else if !FieldOk(a.servername, host, a.quietMode) then ArgsRejected(InvalidHost)
    else if !FieldOk(a.remotePath, path, a.quietMode) then ArgsRejected(InvalidRemotePath)
    else if !FieldOk(a.localPath, path, a.quietMode) then ArgsRejected(InvalidLocalPath)
    else ArgsAccepted
  }

  /**
   * Every condition quiet mode demands of a command line, as one conjunction:
   * no `-i` with `-d`, a digit-only period (if any) under `-i`, a valid log path
   * if given, no `-c`, and a username, a valid host and two valid paths.
   */
  predicate QuietArgsOk(a: Args, pathMatches: string -> bool, hostMatches: string -> bool) {
    && !(a.installService && a.deleteService)
    && !(a.installService && (a.period.BarePeriod? || BadPeriodText(a.period)))
    && (a.logPath != [] ==> pathMatches(a.logPath))
    && a.createRemote == []
    && a.username != []
    && a.servername != [] && hostMatches(a.servername)
    && a.remotePath != [] && pathMatches(a.remotePath)
    && a.localPath != [] && pathMatches(a.localPath)
  }

  /**
   * What interactive mode demands: only the values given on the command line
   * are checked; a bad period is asked for again (and the answer dropped);
   * `-c` is allowed.
   */
  predicate InteractiveArgsOk(a: Args, pathMatches: string -> bool, hostMatches: string -> bool) {
    && !(a.installService && a.deleteService)
    && !(a.installService && a.period.BarePeriod?)
    && (a.logPath != [] ==> pathMatches(a.logPath))
    && (a.servername != [] ==> hostMatches(a.servername))
    && (a.remotePath != [] ==> pathMatches(a.remotePath))
    && (a.localPath != [] ==> pathMatches(a.localPath))
  }

  /** `validate_args(args, parser)`, without the prompts' answers and the logger it sets up. */
  function ValidateArgs(a: Args, pathMatches: string -> bool, hostMatches: string -> bool): (r: ArgOutcome)
    ensures a.installService && a.deleteService ==> r == ArgsRejected(InstallDeleteConflict)
    ensures r == PeriodCrash <==> !(a.installService && a.deleteService) && a.installService && a.period.BarePeriod?
    ensures a.quietMode ==> (r == ArgsAccepted <==> QuietArgsOk(a, pathMatches, hostMatches))
    ensures !a.quietMode ==> (r == ArgsAccepted <==> InteractiveArgsOk(a, pathMatches, hostMatches))
    ensures !a.quietMode ==> r != ArgsRejected(InvalidPeriod) && r != ArgsRejected(CreateQuietConflict) && r != ArgsRejected(InvalidUsername)
  {
    if a.installService && a.deleteService then ArgsRejected(InstallDeleteConflict)
    else if a.installService && a.period.BarePeriod? then PeriodCrash
    else if a.installService && BadPeriodText(a.period) && a.quietMode then ArgsRejected(InvalidPeriod)
    else CheckFields(a, pathMatches, hostMatches)
  }

  /**
   * The checks come in a fixed order: with `-q`, with `-i` (and a digit
   * period), with `-d` or with neither, a command line with a bad log
   * path is reported as such whatever else is wrong with it later on, and a
   * missing username is reported before a missing host or path.
   */
  lemma QuietCheckOrder(a: Args, pathMatches: string -> bool, hostMatches: string -> bool)
    requires a.quietMode && !(a.installService && a.deleteService) && !(a.installService && (a.period.BarePeriod? || BadPeriodText(a.period)))
    ensures a.logPath != [] && !pathMatches(a.logPath) ==>
      ValidateArgs(a, pathMatches, hostMatches) == ArgsRejected(InvalidLogPath)
    ensures (a.logPath == [] || pathMatches(a.logPath)) && a.createRemote == [] && a.username == [] ==>
      ValidateArgs(a, pathMatches, hostMatches) == ArgsRejected(InvalidUsername)
  {
  }

  /** Interactive mode still rejects a value that was given but does not match, such as a malformed host. */
  lemma InteractiveRejectsGivenHost(a: Args, pathMatches: string -> bool, hostMatches: string -> bool)
    requires !a.quietMode && !(a.installService && (a.deleteService || a.period.BarePeriod?))
    requires (a.logPath == [] || pathMatches(a.logPath)) && a.servername != [] && !hostMatches(a.servername)
    ensures ValidateArgs(a, pathMatches, hostMatches) == ArgsRejected(InvalidHost)
  {
  }
}
