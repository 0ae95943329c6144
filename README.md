# yarad: wire commands and configuration defaults, in Dafny

yarad is a YARA scanning daemon. Clients talk to it over a local socket in a
small text protocol. The daemon reads its settings from a YAML file. This
project models the two parts of the daemon that are pure logic:

- **The wire protocol** (`src/protocol.rs`). `Command::try_from` turns one text
  segment into a `Command`. It accepts the bare keywords `PING`, `VERSION`,
  `RELOAD` and `SHUTDOWN`, and `SCAN`, `CONTSCAN`, `MULTISCAN` and `INSTREAM`
  followed by a space and a path. The path is trimmed and must not be empty.
  `parse_commands` decodes the bytes as UTF-8. Its first character selects the
  delimiter (`z` for NUL, `n` for newline). It then splits the text, filters
  the pieces and parses each survivor.
- **Configuration conversion** (`src/config.rs`). `ConfigFile::convert` turns
  the all-optional record read from the file into the record the daemon runs
  with. Absent fields get fixed defaults. The socket mode is read as octal. The
  log level is the only thing that can fail.

Modules, one per concern:

- `Wrappers`: `Option` with `unwrap_or`.
- `Errors`: the error values the two operations return, and `Result`.
- `Utf8`: `String::from_utf8`, as a decoder for well-formed UTF-8 (Table 3-7
  in section 3.9 of the Unicode Standard), with its encoder as the inverse.
- `Text`: `starts_with`, `trim` with Rust's Unicode whitespace, `split` on a
  character with its inverse `Join`, and the `starts_with` filter.
- `Protocol`: `Command`, `TryFrom`, an independent grammar (`Denotes`), the
  canonical rendering (`Render`), and the framing as written (`Frame`,
  `ParseCommands`) and as intended (`FrameIntended`, `ParseCommandsIntended`).
- `LogLevel`: the `log` crate's `Level::from_str` and `Level::as_str`.
- `ParseInt`: `parse_int::parse::<u32>` on the octal strings that conversion
  passes to it, with an octal renderer as the inverse.
- `Configuration`: `ConfigFile`, `Config`, `Convert`, and the file
  (`ToFile`) that spells out a configuration, used for the round trip.

The code and the design description of the protocol disagree on one point.
The description says a read such as `zPING\0zVERSION\0` frames to
`[Ping, Version]`. The code as written frames every such read to an empty
list; see "## Findings". The model follows the code in `Frame` and
`ParseCommands`. It states the described behaviour separately, in
`FrameIntended`.

`src/protocol.rs` returns `Error::InvalidCommand(String)`, and applies `?` to
`String::from_utf8`. `src/error.rs` declares neither that variant nor a
conversion from the UTF-8 error. The model's `Errors.Error` therefore has
`InvalidCommand(text)` and `InvalidUtf8`, plus the `ParseLogLevelError` that
`src/error.rs:80-84` produces from a failed level parse.

## Model

| member | source | states |
|---|---|---|
| `Protocol.TryFrom` | src/protocol.rs:28-69 | every error is `InvalidCommand` carrying the whole input, not the trimmed remainder; every returned path is non-empty and has no leading or trailing whitespace |
| `Protocol.TryFromOther` | src/protocol.rs:35-66 | a text that is not a bare keyword is accepted only as a path command whose path is non-empty and trimmed; every error carries the whole input |
| `Protocol.SliceOffsetHarmless` | src/protocol.rs:44-58 | slicing one character short of a prefix that ends in a space gives the same trimmed argument as slicing after the full prefix |
| `Protocol.TryFromSound` | src/protocol.rs:30-63 | whatever is accepted is the command the text denotes in the grammar: a bare keyword, or a keyword, one space and a text whose trim is the path |
| `Protocol.TryFromComplete` | src/protocol.rs:30-63 | every text the grammar allows is accepted as the command it denotes, for all eight commands |
| `Protocol.TryFromMatchesGrammar` | src/protocol.rs:30-66 | `TryFrom(s) == Ok(c)` exactly when `s` denotes `c`; so `PING`, `VERSION`, `RELOAD` and `SHUTDOWN` match only exactly and case-sensitively |
| `Protocol.TryFromErrIffUngrammatical` | src/protocol.rs:35-66 | parsing fails exactly when the text denotes no command |
| `Protocol.GrammarUnambiguous` | src/protocol.rs:30-63 | no text denotes two different commands |
| `Protocol.RenderRoundTrip` | src/protocol.rs:30-63 | every bare keyword parses to its command; keyword, space and any non-empty trimmed path parses to the matching path command holding that path |
| `Protocol.KeywordVariantsRejected` | src/protocol.rs:30-66 | `ping`, `PING `, `Version` and `SCAN` without a path are `InvalidCommand` of themselves |
| `Protocol.BlankArgumentExample` | src/protocol.rs:36-39 | `SCAN` followed only by spaces is `InvalidCommand` of the whole text |
| `Protocol.TrimmedArgumentExample` | src/protocol.rs:36-41 | `SCAN /a/b ` parses to `Scan("/a/b")` |
| `Protocol.Delimiter` | src/protocol.rs:79-84 | the selector is valid exactly when it is `z` or `n`; `z` gives NUL and `n` gives newline, never the selector itself; any other gives `InvalidCommand("Invalid delimiter specification: " + c)` |
| `Protocol.ParseSegments` | src/protocol.rs:89 | one result per kept segment, in order, each the parse of the segment without its first character |
| `Protocol.Frame` | src/protocol.rs:75-92 | the framing of the decoded text succeeds exactly when the text is empty or its first character is a valid selector, and otherwise fails with the delimiter-specification message |
| `Protocol.ParseCommands` | src/protocol.rs:72-92 | ill-formed UTF-8 and only that gives `InvalidUtf8`; empty input gives `Ok([])`; a first character other than `z` or `n` gives `InvalidCommand("Invalid delimiter specification: " + c)`; every other input gives `Ok([])` |
| `Protocol.FrameNeverYieldsCommands` | src/protocol.rs:86-92 | for a text starting with `z` or `n`, no piece of the split starts with the delimiter, so the framing is `Ok([])` and never reaches `TryFrom` |
| `Protocol.AsWrittenDropsEveryCommand` | src/protocol.rs:88 | for every non-empty list of sendable commands framed on the wire, the filter as written yields no command while the corrected filter does not yield an empty list |
| `Protocol.PingVersionExample` | src/protocol.rs:86-92 | the wire text of `[Ping, Version]` with NUL framing is `zPING\0zVERSION\0`, and that read frames to `Ok([])` as written and to `Ok([Ok(Ping), Ok(Version)])` with the corrected filter |
| `Protocol.BadSelectorExample` | src/protocol.rs:79-84 | the read `xPING\0` is the framing error `Invalid delimiter specification: x` |
| `Protocol.FrameIntendedRoundTrip` | src/protocol.rs:86-92 | with the filter on the selector character, any list of well-formed commands whose paths avoid the delimiter, each sent as selector, command text and delimiter, frames back to that list, in order |
| `Protocol.ParseCommandsIntendedRoundTrip` | src/protocol.rs:72-92 | the same round trip through the UTF-8 bytes of the connection |
| `Utf8.Decode` | src/protocol.rs:73 | whatever decodes re-encodes to exactly the input bytes |
| `Utf8.DecodeEncode` | src/protocol.rs:73 | every string's UTF-8 encoding decodes back to that string |
| `Utf8.IllFormedExamples` | src/protocol.rs:73 | an overlong NUL, an encoded surrogate, a stray continuation byte and a 0xFF byte are refused |
| `Text.Trim` | src/protocol.rs:37 | the result neither starts nor ends with whitespace |
| `Text.TrimCharacterised` | src/protocol.rs:37 | the trim is a slice of the input with only whitespace outside it, and it is empty exactly when the input is all whitespace |
| `Text.TrimIdempotent` | src/protocol.rs:37 | trimming twice equals trimming once |
| `Text.TrimSkipsLeadingWhitespace` | src/protocol.rs:44 | a leading whitespace character does not change the trim |
| `Text.Split` | src/protocol.rs:87 | at least one piece; no piece contains the delimiter; joining the pieces with the delimiter gives back the input |
| `Text.SplitJoin` | src/protocol.rs:87 | splitting a join of delimiter-free pieces gives back those pieces |
| `Text.KeepStartingWith` | src/protocol.rs:88 | keeps exactly the pieces that start with the character, and no more pieces than it was given |
| `Text.KeepOne` | src/protocol.rs:88 | a single piece is kept exactly when it starts with the character |
| `Text.KeepConcat` | src/protocol.rs:88 | filtering a concatenation concatenates the filtered parts, so the filter keeps the order and the repetitions of its input |
| `Text.KeepNoneWithout` | src/protocol.rs:88 | nothing is kept from pieces none of which contains the character |
| `LogLevel.AsStr` | src/config.rs:69 | a level's name is non-empty upper-case ASCII, and never `OFF` |
| `LogLevel.FromStr` | src/config.rs:68 | a parsed level's name equals the text ignoring ASCII case; any spelling of `off` is refused |
| `LogLevel.FromStrMatchesName` | src/config.rs:68 | a text parses to a level exactly when it equals that level's name ignoring ASCII case |
| `LogLevel.AsStrRoundTrip` | src/config.rs:68-70 | each level's canonical name parses back to that level |
| `LogLevel.DefaultLevelIsWarn` | src/config.rs:68 | the default `warn` parses to `Warn`, whose stored name is `WARN` |
| `LogLevel.OffIsNoLevel` | src/config.rs:68 | `off` is refused as a level |
| `ParseInt.FromStrRadix8` | src/config.rs:80 | the text parses exactly when, after one optional `+`, it is a non-empty run of octal digits whose value fits in 32 bits, so `0644` and `+644` parse; the result is that value |
| `ParseInt.Parse` | src/config.rs:80 | a `0o` text parses exactly when what follows the prefix is such an octal literal, and then gives its value |
| `ParseInt.OctalRoundTrip` | src/config.rs:80 | every 32-bit value written in octal parses back to itself |
| `ParseInt.PlusSignIgnored` | src/config.rs:80 | a leading `+` before the digits changes nothing |
| `ParseInt.OverflowRejected` | src/config.rs:80 | octal digits worth 2^32 or more do not parse |
| `Configuration.NormalizeMode` | src/config.rs:76-79 | the mode text always ends up starting with `0o`; text that already does is left alone |
| `Configuration.SocketMode` | src/config.rs:75-81 | the mode is the parse of the `0o`-prefixed text (default `0o666`) when that parses, and `0o666` otherwise |
| `Configuration.ModePrefixOptional` | src/config.rs:76-80 | a mode given without `0o` gives the same value as the same digits with it, so `644` and `0o644` agree |
| `Configuration.UnprefixedModeParses` | src/config.rs:76-80 | a mode without `0o` that is an octal literal gives the value of its digits |
| `Configuration.LeadingZeroModeExample` | src/config.rs:76-80 | `0644` and `+644` both give 0o644 (420) |
| `Configuration.UnparsableModeFallsBack` | src/config.rs:80 | a mode that does not parse gives `0o666`, never an error |
| `Configuration.SocketModeExamples` | src/config.rs:75-80 | `644` and `0o644` agree; `rw-r--r--` gives `0o666` |
| `Configuration.Convert` | src/config.rs:67-99 | fails exactly when the log level, `warn` if absent, is not a level name, and then with `ParseLogLevelError`; on success the stored level is the level's canonical name, not the raw text |
| `Configuration.ConvertFailsOnlyOnLogLevel` | src/config.rs:68-98 | two files with the same log level both succeed or both fail, with the same stored level, whatever their other fields |
| `Configuration.LogLevelCanonical` | src/config.rs:68-70 | a present level written in any ASCII case converts, and is stored as the upper-case name |
| `Configuration.EmptyFileDefaults` | src/config.rs:71-86 | an empty file gives `WARN`, `/var/run/yarad/yarad.ctl`, `yarad`, `0o666`, `/var/lib/yarad/rules`, `/var/run/yarad`, `yarad`, `true`, `/var/run/yarad/yarad.pid` |
| `Configuration.AbsentFieldsDefaulted` | src/config.rs:68-86 | each absent field gets its fixed default, whatever the other fields hold |
| `Configuration.PresentFieldsCopied` | src/config.rs:71-92 | each present field other than the log level and the mode is copied unchanged, including `auto_recompile_rules`; the stored socket mode is `SocketMode` of the file's mode, present or absent |
| `Configuration.ConvertToFileRoundTrip` | src/config.rs:67-99 | every configuration with a canonical log level is what its fully spelled-out file converts to |
| `Configuration.ConvertIdempotent` | src/config.rs:67-99 | converting, writing the result back as a file and converting again gives the same configuration |

## Left out

- Reading the configuration file and YAML deserialisation (`TryFrom<String> for Config`, src/config.rs:51-64): file I/O and a foreign parser. They also name error variants that src/error.rs does not declare.
- The daemon (src/daemon.rs): daemonizing, the fanotify watcher, the capability check and rule compilation are OS calls, concurrency or the foreign YARA engine. In `cap_check`, the `NoPermission` value built at line 120 is discarded, so a missing capability is never reported; only the `has_cap` call at lines 115-119 can make it fail.
- Sockets, entry points and the command-line argument structs (src/sock.rs, src/main.rs, src/bin/, src/client/, src/command.rs, src/daemon/command.rs): I/O and argument parsing.
- The client's rendering of commands is not part of this model. `Protocol.Render` and `Protocol.WireText` are reference renderings, written from the grammar, that the round-trip lemmas use.
- `Display` and the `From` conversions in src/error.rs: fixed strings and foreign error types.
- LogLevel: `Level::from_str` and `Level::as_str` belong to the `log` crate. They are modelled after that crate: the names `OFF ERROR WARN INFO DEBUG TRACE` are matched ignoring ASCII case, and `OFF` is refused. `eq_ignore_ascii_case` compares bytes; the model compares characters. The two answers agree because every name is ASCII.
- ParseInt.Parse: models `parse_int::parse::<u32>` only for text that starts with `0o`, the only text `convert` passes it. The crate's other prefixes are not modelled. Neither is its handling of `_` separators: a mode such as `6_4_4` falls back to `0o666` here.
- ParseInt.FromStrRadix8: the digits are read right to left as an unbounded number, then compared with 2^32. The source accumulates left to right with checked arithmetic. The two agree, because no partial value exceeds the final one.
- Stale-socket removal, the read loop over a 4096-byte buffer, and scan, reload and dispatch behaviour are not in the modelled source.

## Findings

| source | as written | input that shows it | evidently intended | confidence | as-written member | corrected member |
|---|---|---|---|---|---|---|
| src/protocol.rs:88 | The filter keeps only pieces that start with the delimiter character. A piece of a split on that character never contains it, so every read with a valid selector frames to `Ok([])`. | The read `zPING\0zVERSION\0` gives `Ok([])`. | Keep the pieces that start with the selector character (`z` or `n`) and strip it. That read then gives `[Ping, Version]`. | high; not executed | `Protocol.AsWrittenDropsEveryCommand` | `Protocol.FrameIntendedRoundTrip` |
