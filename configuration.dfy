/**
 * The daemon's configuration: the record read from the YAML file, with every
 * field optional (`ConfigFile`), and the record the daemon runs with
 * (`Config`), built by `ConfigFile::convert`.
 */
module Configuration {
  import opened Wrappers
  import opened Errors
  import opened Text
  import LogLevel
  import ParseInt

  const DEFAULT_LOG_LEVEL := "warn"
  const DEFAULT_LOCAL_SOCKET := "/var/run/yarad/yarad.ctl"
  const DEFAULT_LOCAL_SOCKET_GROUP := "yarad"
  const DEFAULT_LOCAL_SOCKET_MODE := "0o666"
  /** 0o666, the mode used when the configured one does not parse. */
  const FALLBACK_SOCKET_MODE: ParseInt.U32 := 438
  const DEFAULT_RULES_DIR := "/var/lib/yarad/rules"
  const DEFAULT_WORKING_DIR := "/var/run/yarad"
  const DEFAULT_USER := "yarad"
  const DEFAULT_AUTO_RECOMPILE_RULES := true
  const DEFAULT_PID_FILE := "/var/run/yarad/yarad.pid"

  datatype ConfigFile = ConfigFile(
    logLevel: Option<string>,
    localSocket: Option<string>,
    localSocketGroup: Option<string>,
    localSocketMode: Option<string>,
    rulesDir: Option<string>,
    workingDir: Option<string>,
    user: Option<string>,
    autoRecompileRules: Option<bool>,
    pidFile: Option<string>)

  datatype Config = Config(
    logLevel: string,
    localSocket: string,
    localSocketGroup: string,
    localSocketMode: ParseInt.U32,
    rulesDir: string,
    workingDir: string,
    user: string,
    autoRecompileRules: bool,
    pidFile: string)

  /** The socket mode text with "0o" put in front unless it is already there. */
  function NormalizeMode(perm: string): (r: string)
    ensures StartsWith(r, "0o")
    ensures StartsWith(perm, "0o") ==> r == perm
  {
    if StartsWith(perm, "0o") then perm else "0o" + perm
  }

  /** The socket mode: the configured text (0o666 if absent) read as octal, 0o666 if it does not parse. */
  function SocketMode(mode: Option<string>): (m: ParseInt.U32)
    ensures var perm := NormalizeMode(mode.UnwrapOr(DEFAULT_LOCAL_SOCKET_MODE));
      ParseInt.Parse(perm) == Some(m) || (ParseInt.Parse(perm).None? && m == FALLBACK_SOCKET_MODE)
  {
    var perm := NormalizeMode(mode.UnwrapOr(DEFAULT_LOCAL_SOCKET_MODE));
    ParseInt.Parse(perm).UnwrapOr(FALLBACK_SOCKET_MODE)
  }

  /** `ConfigFile::convert`: fill in the defaults; only the log level can make it fail. */
  function Convert(file: ConfigFile): (r: Result<Config>)
    ensures r.Err? <==> LogLevel.FromStr(file.logLevel.UnwrapOr(DEFAULT_LOG_LEVEL)).None?
    ensures r.Err? ==> r.error == ParseLogLevelError
    ensures r.Ok? ==> r.value.logLevel == LogLevel.AsStr(LogLevel.FromStr(file.logLevel.UnwrapOr(DEFAULT_LOG_LEVEL)).value)
  {
    match LogLevel.FromStr(file.logLevel.UnwrapOr(DEFAULT_LOG_LEVEL))
    case None => Err(ParseLogLevelError)
    case Some(level) =>
      Ok(Config(
        LogLevel.AsStr(level),
        file.localSocket.UnwrapOr(DEFAULT_LOCAL_SOCKET),
        file.localSocketGroup.UnwrapOr(DEFAULT_LOCAL_SOCKET_GROUP),
        SocketMode(file.localSocketMode),
        file.rulesDir.UnwrapOr(DEFAULT_RULES_DIR),
        file.workingDir.UnwrapOr(DEFAULT_WORKING_DIR),
        file.user.UnwrapOr(DEFAULT_USER),
        file.autoRecompileRules.UnwrapOr(DEFAULT_AUTO_RECOMPILE_RULES),
        file.pidFile.UnwrapOr(DEFAULT_PID_FILE)))
  }

  /**
   * Whether conversion succeeds depends on the log level alone: two files
   * with the same log level both fail or both succeed, with the same stored
   * level, whatever their other fields hold.
   */
  lemma ConvertFailsOnlyOnLogLevel(a: ConfigFile, b: ConfigFile)
    requires a.logLevel == b.logLevel
    ensures Convert(a).Ok? <==> Convert(b).Ok?
    ensures Convert(a).Ok? ==> Convert(a).value.logLevel == Convert(b).value.logLevel
  {
  }

  /** A file that gives nothing gets every default. */
  lemma EmptyFileDefaults()
    ensures Convert(ConfigFile(None, None, None, None, None, None, None, None, None))
         == Ok(Config("WARN", "/var/run/yarad/yarad.ctl", "yarad", 438, "/var/lib/yarad/rules",
                      "/var/run/yarad", "yarad", true, "/var/run/yarad/yarad.pid"))
  {
    LogLevel.DefaultLevelIsWarn();
    DefaultModeIs666();
  }

  lemma DefaultModeIs666()
    ensures SocketMode(None) == 438
  {
    assert StartsWith(DEFAULT_LOCAL_SOCKET_MODE, "0o");
    assert DEFAULT_LOCAL_SOCKET_MODE[2..] == "666";
    assert ParseInt.OctalValue("666") == 438 by {
      assert "666"[..2] == "66" && "66"[..1] == "6" && "6"[..0] == "";
    }
  }

  /** Absent fields get their fixed defaults; the log level defaults to "warn", stored as "WARN". */
  lemma AbsentFieldsDefaulted(file: ConfigFile)
    requires Convert(file).Ok?
    ensures var c := Convert(file).value;
      && (file.logLevel.None? ==> c.logLevel == "WARN")
      && (file.localSocket.None? ==> c.localSocket == "/var/run/yarad/yarad.ctl")
      && (file.localSocketGroup.None? ==> c.localSocketGroup == "yarad")
      && (file.localSocketMode.None? ==> c.localSocketMode == 438)
      && (file.rulesDir.None? ==> c.rulesDir == "/var/lib/yarad/rules")
      && (file.workingDir.None? ==> c.workingDir == "/var/run/yarad")
      && (file.user.None? ==> c.user == "yarad")
      && (file.autoRecompileRules.None? ==> c.autoRecompileRules)
      && (file.pidFile.None? ==> c.pidFile == "/var/run/yarad/yarad.pid")
  {
    LogLevel.DefaultLevelIsWarn();
    DefaultModeIs666();
  }

  /** Present fields other than the log level and the socket mode are copied unchanged. */
  lemma PresentFieldsCopied(file: ConfigFile)
    requires Convert(file).Ok?
    ensures var c := Convert(file).value;
      && (file.localSocket.Some? ==> c.localSocket == file.localSocket.value)
      && (file.localSocketGroup.Some? ==> c.localSocketGroup == file.localSocketGroup.value)
      && (file.rulesDir.Some? ==> c.rulesDir == file.rulesDir.value)
      && (file.workingDir.Some? ==> c.workingDir == file.workingDir.value)
      && (file.user.Some? ==> c.user == file.user.value)
      && (file.autoRecompileRules.Some? ==> c.autoRecompileRules == file.autoRecompileRules.value)
      && (file.pidFile.Some? ==> c.pidFile == file.pidFile.value)
      && c.localSocketMode == SocketMode(file.localSocketMode)
  {
  }

  /** A present log level is stored as the canonical name of the level it names, in any case. */
  lemma LogLevelCanonical(file: ConfigFile, l: LogLevel.Level)
    requires file.logLevel.Some? && LogLevel.EqIgnoreAsciiCase(LogLevel.AsStr(l), file.logLevel.value)
    ensures Convert(file).Ok? && Convert(file).value.logLevel == LogLevel.AsStr(l)
  {
    LogLevel.FromStrMatchesName(file.logLevel.value, l);
  }

  /** "644" and "0o644" give the same mode: the prefix is optional. */
  lemma ModePrefixOptional(perm: string)
    requires !StartsWith(perm, "0o")
    ensures SocketMode(Some(perm)) == SocketMode(Some("0o" + perm))
  {
    assert StartsWith("0o" + perm, "0o");
  }

  /** The mode is never an error: an unparsable text gives 0o666. */
  lemma UnparsableModeFallsBack(perm: string)
    requires ParseInt.Parse(NormalizeMode(perm)).None?
    ensures SocketMode(Some(perm)) == FALLBACK_SOCKET_MODE
  {
  }

  /** A configuration file that spells out `c` in full, with the mode in octal. */
  function ToFile(c: Config): ConfigFile {
    ConfigFile(Some(c.logLevel), Some(c.localSocket), Some(c.localSocketGroup),
               Some(ParseInt.OctalDigits(c.localSocketMode)), Some(c.rulesDir), Some(c.workingDir),
               Some(c.user), Some(c.autoRecompileRules), Some(c.pidFile))
  }

  /** The log level is one of the canonical level names. */
  predicate HasCanonicalLevel(c: Config) {
    exists l: LogLevel.Level :: c.logLevel == LogLevel.AsStr(l)
  }

  /** Mode octal digits never start with "0o": they are digits only. */
  lemma OctalDigitsUnprefixed(n: nat)
    ensures !StartsWith(ParseInt.OctalDigits(n), "0o")
  {
    var ds := ParseInt.OctalDigits(n);
    if |ds| >= 2 {
      assert ds[..2][1] == ds[1];
      assert ParseInt.IsOctalDigit(ds[1]);
    }
  }

  /** Every configuration with a canonical log level is what its own file converts to. */
  lemma ConvertToFileRoundTrip(c: Config)
    requires HasCanonicalLevel(c)
    ensures Convert(ToFile(c)) == Ok(c)
  {
    var l: LogLevel.Level :| c.logLevel == LogLevel.AsStr(l);
    LogLevel.AsStrRoundTrip(l);
    var ds := ParseInt.OctalDigits(c.localSocketMode);
    OctalDigitsUnprefixed(c.localSocketMode);
    assert ("0o" + ds)[2..] == ds;
    ParseInt.OctalRoundTrip(c.localSocketMode);
  }

  /** Converting, writing the result back out and converting again changes nothing. */
  lemma ConvertIdempotent(file: ConfigFile)
    requires Convert(file).Ok?
    ensures Convert(ToFile(Convert(file).value)) == Convert(file)
  {
    var level := LogLevel.FromStr(file.logLevel.UnwrapOr(DEFAULT_LOG_LEVEL)).value;
    assert Convert(file).value.logLevel == LogLevel.AsStr(level);
    ConvertToFileRoundTrip(Convert(file).value);
  }

  /** Two sample modes: "644" agrees with "0o644", and "rw-r--r--" falls back to 0o666. */
  lemma SocketModeExamples()
    ensures SocketMode(Some("644")) == SocketMode(Some("0o644"))
    ensures SocketMode(Some("rw-r--r--")) == FALLBACK_SOCKET_MODE
  {
    var good, bad := "644", "rw-r--r--";
    assert good[0] == '6' && "0o" + good == "0o644";
    ModePrefixOptional(good);
    NotOctalText(bad);
    UnparsableModeFallsBack(bad);
  }

  /** "rw-r--r--" is not octal, with or without "0o". */
  lemma NotOctalText(bad: string)
    requires bad == "rw-r--r--"
    ensures !StartsWith(bad, "0o") && ParseInt.Parse(NormalizeMode(bad)).None?
  {
    assert bad[0] == 'r' && ParseInt.Unsigned(bad) == bad;
    assert NormalizeMode(bad)[2..] == bad;
  }

  /**
   * A mode written without "0o" that `from_str_radix` accepts in base 8,
   * such as "644", "0644" or "+644", is read as those octal digits.
   */
  lemma UnprefixedModeParses(perm: string)
    requires !StartsWith(perm, "0o") && ParseInt.IsOctalLiteral(perm)
    ensures SocketMode(Some(perm)) == ParseInt.OctalValue(ParseInt.Unsigned(perm))
  {
    assert ("0o" + perm)[2..] == perm;
  }

  /** The usual Unix spelling with a leading zero, and a plus sign, both give 0o644. */
  lemma LeadingZeroModeExample()
    ensures SocketMode(Some("0644")) == 420
    ensures SocketMode(Some("+644")) == 420
  {
    ZeroModeText("0644");
    PlusModeText("+644");
  }

  lemma ZeroModeText(z: string)
    requires z == "0644"
    ensures SocketMode(Some(z)) == 420
  {
    assert z[..2][1] == '6';
    assert ParseInt.AllOctal(z);
    assert z[..3][..2] == z[..2] && z[..2][..1] == z[..1] && z[..1][..0] == [];
    assert ParseInt.OctalValue(z[..1]) == 0;
    assert ParseInt.OctalValue(z[..2]) == 6;
    assert ParseInt.OctalValue(z[..3]) == 52;
    assert ParseInt.OctalValue(z) == 420;
    UnprefixedModeParses(z);
  }

  lemma PlusModeText(p: string)
    requires p == "+644"
    ensures SocketMode(Some(p)) == 420
  {
    assert p[0] == '+' && ParseInt.Unsigned(p) == "644";
    assert "644"[..2] == "64" && "64"[..1] == "6";
    UnprefixedModeParses(p);
  }
}
