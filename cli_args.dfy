/**
 * The parsed command line of the mounter. A string option that was not given
 * is the empty string, which Python treats as false like `None`; only `-p`
 * keeps "not given" apart, because `args.period is not None` tells it from an
 * empty value.
 */
module CliArgs {

  /** `-p/--period`: absent, given with a value, or given bare (argparse then stores the integer 60). */
  datatype PeriodArg = NoPeriod | PeriodValue(text: string) | BarePeriod

  datatype Args = Args(
    username: string,
    servername: string,
    remotePath: string,
    localPath: string,
    sshKeyPath: string,
    logPath: string,
    createRemote: string,
    quietMode: bool,
    installService: bool,
    deleteService: bool,
    period: PeriodArg)

  /** The default service period, 60 seconds. */
  const DefaultServicePeriod := "60"
}
