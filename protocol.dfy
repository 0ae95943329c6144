/**
 * The daemon's wire protocol: one command per text segment
 * (`TryFrom<&str> for Command`) and the framing that turns the bytes read
 * from a client into a list of parsed commands (`parse_commands`).
 */
module Protocol {
  import opened Wrappers
  import opened Errors
  import opened Text
  import Utf8

  datatype Command =
    | Ping
    | Version
    | Reload
    | Shutdown
    | Scan(path: string)
    | ContScan(path: string)
    | MultiScan(path: string)
    | InstreamScan(path: string)
  {
    predicate HasPath() {
      Scan? || ContScan? || MultiScan? || InstreamScan?
    }
  }

  /** `Command::try_from`: the four bare keywords first, then the path commands. */
  function TryFrom(s: string): (r: Result<Command>)
    ensures r.Err? ==> r.error == InvalidCommand(s)
    ensures r.Ok? && r.value.HasPath() ==> r.value.path != [] && IsTrimmed(r.value.path)
  {
    if s == "PING" then Ok(Ping)
    else if s == "VERSION" then Ok(Version)
    else if s == "RELOAD" then Ok(Reload)
    else if s == "SHUTDOWN" then Ok(Shutdown)
    else TryFromOther(s)
  }

  /**
   * The `other` arm of `Command::try_from`: a text that is none of the bare
   * keywords, tested against the four path prefixes in order. The argument
   * offsets 8, 9 and 8 for the CONTSCAN, MULTISCAN and INSTREAM prefixes are
   * the source's: one short of the prefix length, so the slice still holds
   * the separating space.
   */
  function TryFromOther(s: string): (r: Result<Command>)
    ensures r.Err? ==> r.error == InvalidCommand(s)
    ensures r.Ok? ==> r.value.HasPath() && r.value.path != [] && IsTrimmed(r.value.path)
  {
    if StartsWith(s, "SCAN ") then
      var path := Trim(s[5..]);
      if path == [] then Err(InvalidCommand(s)) else Ok(Scan(path))
    else if StartsWith(s, "CONTSCAN ") then
      var path := Trim(s[8..]);
      if path == [] then Err(InvalidCommand(s)) else Ok(ContScan(path))
    else if StartsWith(s, "MULTISCAN ") then
      var path := Trim(s[9..]);
      if path == [] then Err(InvalidCommand(s)) else Ok(MultiScan(path))
    else if StartsWith(s, "INSTREAM ") then
      var path := Trim(s[8..]);
      if path == [] then Err(InvalidCommand(s)) else Ok(InstreamScan(path))
    else
      Err(InvalidCommand(s))
  }

  /** The keyword that introduces each command on the wire. */
  function Keyword(c: Command): string {
    match c
    case Ping => "PING"
    case Version => "VERSION"
    case Reload => "RELOAD"
    case Shutdown => "SHUTDOWN"
    case Scan(_) => "SCAN"
    case ContScan(_) => "CONTSCAN"
    case MultiScan(_) => "MULTISCAN"
    case InstreamScan(_) => "INSTREAM"
  }

  /** What precedes the argument of a path command: its keyword and one space. */
  function Prefix(c: Command): (p: string)
    requires c.HasPath()
    ensures p == Keyword(c) + " "
  {
    match c
    case Scan(_) => "SCAN "
    case ContScan(_) => "CONTSCAN "
    case MultiScan(_) => "MULTISCAN "
    case InstreamScan(_) => "INSTREAM "
  }

  /**
   * `s` is `prefix` followed by text whose trim is the non-empty `path`.
   * Here the argument is taken after the whole prefix.
   */
  predicate HasArgument(s: string, prefix: string, path: string) {
    && StartsWith(s, prefix)
    && path != []
    && path == Trim(s[|prefix|..])
  }

  /**
   * The command grammar, independently of how TryFrom tests it: a bare
   * keyword for the four commands without argument; keyword, space and a
   * trimmed non-empty path for the four others.
   */
  predicate Denotes(s: string, c: Command) {
    if c.HasPath() then HasArgument(s, Prefix(c), c.path) else s == Keyword(c)
  }

  /** A command that the grammar can express. */
  predicate WellFormed(c: Command) {
    c.HasPath() ==> c.path != [] && IsTrimmed(c.path)
  }

  /** The canonical wire text of a command: its keyword, then a space and its path. */
  function Render(c: Command): string {
    if c.HasPath() then Prefix(c) + c.path else Keyword(c)
  }

  /**
   * The short slice offsets do no harm: the extra character they keep is
   * the space, which the trim removes.
   */
  lemma SliceOffsetHarmless(s: string, prefix: string)
    requires StartsWith(s, prefix) && prefix != [] && prefix[|prefix| - 1] == ' '
    ensures Trim(s[|prefix| - 1..]) == Trim(s[|prefix|..])
  {
    var k := |prefix| - 1;
    assert s[k] == s[..|prefix|][k] == ' ';
    assert s[k..] == [' '] + s[k + 1..];
    TrimSkipsLeadingWhitespace(' ', s[k + 1..]);
  }

  /** The first two characters of a text that starts with a prefix are the prefix's. */
  lemma PrefixChars(s: string, prefix: string)
    requires StartsWith(s, prefix) && |prefix| >= 2
    ensures s[0] == prefix[0] && s[1] == prefix[1]
  {
    assert s[..|prefix|][0] == s[0] && s[..|prefix|][1] == s[1];
  }

  /** A character that differs from the prefix's rules the prefix out. */
  lemma DiffersFromPrefix(s: string, prefix: string, i: nat)
    requires i < |s| && i < |prefix| && s[i] != prefix[i]
    ensures !StartsWith(s, prefix)
  {
    if |prefix| <= |s| {
      assert s[..|prefix|][i] == s[i];
    }
  }

  /** SliceOffsetHarmless for the three prefixes whose offset is one short. */
  lemma OffsetOfPrefix(s: string, prefix: string)
    requires prefix == "CONTSCAN " || prefix == "MULTISCAN " || prefix == "INSTREAM "
    requires StartsWith(s, prefix)
    ensures Trim(s[|prefix| - 1..]) == Trim(s[|prefix|..])
  {
    assert prefix[|prefix| - 1] == ' ';
    SliceOffsetHarmless(s, prefix);
  }

  /** A text with a path prefix is none of the bare keywords. */
  lemma NotBareKeyword(s: string, prefix: string)
    requires |prefix| >= 2 && StartsWith(s, prefix)
    requires (prefix[0] == 'S' && prefix[1] == 'C') || prefix[0] == 'C' || prefix[0] == 'M' || prefix[0] == 'I'
    ensures s != "PING" && s != "VERSION" && s != "RELOAD" && s != "SHUTDOWN"
  {
    PrefixChars(s, prefix);
  }

  lemma SoundKeyword(s: string)
    requires TryFrom(s).Ok? && !TryFrom(s).value.HasPath()
    ensures Denotes(s, TryFrom(s).value)
  {
    match TryFrom(s).value
    case Ping => SoundPing(s);
    case Version => SoundVersion(s);
    case Reload => SoundReload(s);
    case Shutdown => SoundShutdown(s);
  }

  lemma SoundPing(s: string) requires TryFrom(s) == Ok(Ping) ensures s == "PING" {}
  lemma SoundVersion(s: string) requires TryFrom(s) == Ok(Version) ensures s == "VERSION" {}
  lemma SoundReload(s: string) requires TryFrom(s) == Ok(Reload) ensures s == "RELOAD" {}
  lemma SoundShutdown(s: string) requires TryFrom(s) == Ok(Shutdown) ensures s == "SHUTDOWN" {}

  lemma SoundScan(s: string)
    requires TryFrom(s).Ok? && TryFrom(s).value.Scan?
    ensures Denotes(s, TryFrom(s).value)
  {
    assert StartsWith(s, "SCAN ");
    assert |"SCAN "| == 5;
  }

  lemma SoundContScan(s: string)
    requires TryFrom(s).Ok? && TryFrom(s).value.ContScan?
    ensures Denotes(s, TryFrom(s).value)
  {
    assert StartsWith(s, "CONTSCAN ");
    OffsetOfPrefix(s, "CONTSCAN ");
  }

  lemma SoundMultiScan(s: string)
    requires TryFrom(s).Ok? && TryFrom(s).value.MultiScan?
    ensures Denotes(s, TryFrom(s).value)
  {
    assert StartsWith(s, "MULTISCAN ");
    OffsetOfPrefix(s, "MULTISCAN ");
  }

  lemma SoundInstreamScan(s: string)
    requires TryFrom(s).Ok? && TryFrom(s).value.InstreamScan?
    ensures Denotes(s, TryFrom(s).value)
  {
    assert StartsWith(s, "INSTREAM ");
    OffsetOfPrefix(s, "INSTREAM ");
  }

  /** Whatever TryFrom accepts, it accepts as the command the text denotes. */
  lemma TryFromSound(s: string)
    requires TryFrom(s).Ok?
    ensures Denotes(s, TryFrom(s).value)
  {
    var c := TryFrom(s).value;
    if !c.HasPath() {
      SoundKeyword(s);
    } else if c.Scan? {
      SoundScan(s);
    } else if c.ContScan? {
      SoundContScan(s);
    } else if c.MultiScan? {
      SoundMultiScan(s);
    } else {
      SoundInstreamScan(s);
    }
  }

  /** The SCAN branch of TryFromOther. */
  lemma OtherScan(s: string)
    requires StartsWith(s, "SCAN ")
    ensures Trim(s[5..]) != [] ==> TryFromOther(s) == Ok(Scan(Trim(s[5..])))
  {
  }

  /** The CONTSCAN branch of TryFromOther. */
  lemma OtherContScan(s: string)
    requires !StartsWith(s, "SCAN ") && StartsWith(s, "CONTSCAN ")
    ensures Trim(s[8..]) != [] ==> TryFromOther(s) == Ok(ContScan(Trim(s[8..])))
  {
  }

  lemma CompleteScan(s: string, p: string)
    requires HasArgument(s, "SCAN ", p)
    ensures TryFrom(s) == Ok(Scan(p))
  {
    NotBareKeyword(s, "SCAN ");
    assert |"SCAN "| == 5;
    OtherScan(s);
  }

  lemma CompleteContScan(s: string, p: string)
    requires HasArgument(s, "CONTSCAN ", p)
    ensures TryFrom(s) == Ok(ContScan(p))
  {
    NotBareKeyword(s, "CONTSCAN ");
    DiffersFromPrefix(s, "SCAN ", 0);
    OffsetOfPrefix(s, "CONTSCAN ");
    OtherContScan(s);
  }

  /** The MULTISCAN branch of TryFromOther. */
  lemma OtherMultiScan(s: string)
    requires !StartsWith(s, "SCAN ") && !StartsWith(s, "CONTSCAN ") && StartsWith(s, "MULTISCAN ")
    ensures Trim(s[9..]) != [] ==> TryFromOther(s) == Ok(MultiScan(Trim(s[9..])))
  {
  }

  /** The INSTREAM branch of TryFromOther. */
  lemma OtherInstreamScan(s: string)
    requires !StartsWith(s, "SCAN ") && !StartsWith(s, "CONTSCAN ") && !StartsWith(s, "MULTISCAN ")
    requires StartsWith(s, "INSTREAM ")
    ensures Trim(s[8..]) != [] ==> TryFromOther(s) == Ok(InstreamScan(Trim(s[8..])))
  {
  }

  lemma CompleteMultiScan(s: string, p: string)
    requires HasArgument(s, "MULTISCAN ", p)
    ensures TryFrom(s) == Ok(MultiScan(p))
  {
    NotBareKeyword(s, "MULTISCAN ");
    DiffersFromPrefix(s, "SCAN ", 0);
    DiffersFromPrefix(s, "CONTSCAN ", 0);
    OffsetOfPrefix(s, "MULTISCAN ");
    OtherMultiScan(s);
  }

  lemma CompleteInstreamScan(s: string, p: string)
    requires HasArgument(s, "INSTREAM ", p)
    ensures TryFrom(s) == Ok(InstreamScan(p))
  {
    NotBareKeyword(s, "INSTREAM ");
    DiffersFromPrefix(s, "SCAN ", 0);
    DiffersFromPrefix(s, "CONTSCAN ", 0);
    DiffersFromPrefix(s, "MULTISCAN ", 0);
    OffsetOfPrefix(s, "INSTREAM ");
    OtherInstreamScan(s);
  }

  /** Whatever the grammar allows, TryFrom accepts as the command it denotes. */
  lemma TryFromComplete(s: string, c: Command)
    requires Denotes(s, c)
    ensures TryFrom(s) == Ok(c)
  {
    match c
    case Ping =>
    case Version =>
    case Reload =>
    case Shutdown =>
    case Scan(p) => CompleteScan(s, p);
    case ContScan(p) => CompleteContScan(s, p);
    case MultiScan(p) => CompleteMultiScan(s, p);
    case InstreamScan(p) => CompleteInstreamScan(s, p);
  }

  /** TryFrom accepts exactly the grammar, and returns the command the text denotes. */
  lemma TryFromMatchesGrammar(s: string, c: Command)
    ensures TryFrom(s) == Ok(c) <==> Denotes(s, c)
  {
    if TryFrom(s) == Ok(c) {
      TryFromSound(s);
    }
    if Denotes(s, c) {
      TryFromComplete(s, c);
    }
  }

  /** TryFrom fails exactly on the texts that denote no command. */
  lemma TryFromErrIffUngrammatical(s: string)
    ensures TryFrom(s).Err? <==> forall c :: !Denotes(s, c)
  {
    if TryFrom(s).Ok? {
      TryFromSound(s);
    } else {
      forall c ensures !Denotes(s, c) {
        if Denotes(s, c) {
          TryFromComplete(s, c);
        }
      }
    }
  }

  /** No text denotes two commands. */
  lemma GrammarUnambiguous(s: string, c1: Command, c2: Command)
    requires Denotes(s, c1) && Denotes(s, c2)
    ensures c1 == c2
  {
    TryFromComplete(s, c1);
    TryFromComplete(s, c2);
  }

  /** Every well-formed command survives rendering and parsing. */
  lemma RenderRoundTrip(c: Command)
    requires WellFormed(c)
    ensures TryFrom(Render(c)) == Ok(c)
  {
    if c.HasPath() {
      var s := Render(c);
      assert s[..|Prefix(c)|] == Prefix(c) && s[|Prefix(c)|..] == c.path;
      TrimmedIsFixpoint(c.path);
    }
    TryFromComplete(Render(c), c);
  }

  /** Keyword matching is exact and case-sensitive. */
  lemma KeywordVariantsRejected()
    ensures TryFrom("ping") == Err(InvalidCommand("ping"))
    ensures TryFrom("PING ") == Err(InvalidCommand("PING "))
    ensures TryFrom("Version") == Err(InvalidCommand("Version"))
    ensures TryFrom("SCAN") == Err(InvalidCommand("SCAN"))
  {
    DiffersFromPrefix("PING ", "SCAN ", 0);
  }

  /** A whitespace-only argument is refused with the whole text. */
  lemma BlankArgumentExample()
    ensures TryFrom("SCAN   ") == Err(InvalidCommand("SCAN   "))
  {
    AfterPrefix("SCAN ", "  ");
    assert "SCAN " + "  " == "SCAN   ";
    NotBareKeyword("SCAN   ", "SCAN ");
    assert Trim("  ") == [];
  }

  lemma TrimTrailingSpaceExample()
    ensures Trim("/a/b ") == "/a/b"
  {
    assert TrimStart("/a/b ") == "/a/b ";
    assert "/a/b "[..4] == "/a/b";
    assert TrimEnd("/a/b ") == "/a/b";
  }

  /** The argument is trimmed on both sides. */
  lemma TrimmedArgumentExample()
    ensures TryFrom("SCAN " + "/a/b ") == Ok(Scan("/a/b"))
  {
    TrimTrailingSpaceExample();
    AfterPrefix("SCAN ", "/a/b ");
    CompleteScan("SCAN " + "/a/b ", "/a/b");
  }

  lemma AfterPrefix(prefix: string, rest: string)
    ensures StartsWith(prefix + rest, prefix) && (prefix + rest)[|prefix|..] == rest
  {
  }

  /** The delimiter a read's first character selects. */
  function Delimiter(selector: char): (r: Result<char>)
    ensures r.Ok? <==> IsSelector(selector)
    ensures r.Ok? ==> r.value != selector && (r.value == '\0' || r.value == '\n')
    ensures selector == 'z' ==> r == Ok('\0')
    ensures selector == 'n' ==> r == Ok('\n')
    ensures r.Err? ==> r.error == InvalidCommand("Invalid delimiter specification: " + [selector])
  {
    match selector
    case 'z' => Ok('\0')
    case 'n' => Ok('\n')
    case _ => Err(InvalidCommand("Invalid delimiter specification: " + [selector]))
  }

  /** `.map(|s| Command::try_from(&s[1..]))`: each kept segment parsed without its first character. */
  function ParseSegments(segments: seq<string>): (r: seq<Result<Command>>)
    requires forall i :: 0 <= i < |segments| ==> segments[i] != []
    ensures |r| == |segments|
    ensures forall i :: 0 <= i < |segments| ==> r[i] == TryFrom(segments[i][1..])
  {
    seq(|segments|, i requires 0 <= i < |segments| => TryFrom(segments[i][1..]))
  }

  /**
   * The framing of `parse_commands` after UTF-8 decoding, as written: the
   * filter keeps the pieces that start with the delimiter itself.
   */
  function Frame(text: string): (r: Result<seq<Result<Command>>>)
    ensures r.Ok? <==> text == [] || IsSelector(text[0])
    ensures r.Err? ==> r.error == InvalidCommand("Invalid delimiter specification: " + [text[0]])
  {
    if text == [] then Ok([])
    else
      match Delimiter(text[0])
      case Err(e) => Err(e)
      case Ok(delimiter) =>
        Ok(ParseSegments(KeepStartingWith(Split(text, delimiter), delimiter)))
  }

  /**
   * No piece of a split contains the delimiter, so none starts with it: for
   * a valid selector the framing never reaches TryFrom and yields no command.
   */
  lemma FrameNeverYieldsCommands(text: string)
    requires text != [] && (text[0] == 'z' || text[0] == 'n')
    ensures Frame(text) == Ok([])
  {
    var delimiter := Delimiter(text[0]).value;
    KeepNoneWithout(Split(text, delimiter), delimiter);
  }

  /** `parse_commands`: UTF-8 decoding, then the framing. */
  function ParseCommands(data: seq<Utf8.Byte>): (r: Result<seq<Result<Command>>>)
    ensures r == Err(InvalidUtf8) <==> Utf8.Decode(data).None?
    ensures Utf8.Decode(data) == Some([]) ==> r == Ok([])
    ensures Utf8.Decode(data).Some? ==>
      var text := Utf8.Decode(data).value;
      text != [] ==>
        r == if text[0] == 'z' || text[0] == 'n' then Ok([])
             else Err(InvalidCommand("Invalid delimiter specification: " + [text[0]]))
  {
    match Utf8.Decode(data)
    case None => Err(InvalidUtf8)
    case Some(text) =>
      if text != [] && (text[0] == 'z' || text[0] == 'n') then
        FrameNeverYieldsCommands(text);
        Frame(text)
      else
        Frame(text)
  }

  /**
   * The framing with the filter on the selector character, which is how the
   * wire format reads: every command is preceded by the selector and
   * followed by the delimiter, as in "zPING\0zVERSION\0".
   */
  function FrameIntended(text: string): Result<seq<Result<Command>>>
  {
    if text == [] then Ok([])
    else
      match Delimiter(text[0])
      case Err(e) => Err(e)
      case Ok(delimiter) =>
        Ok(ParseSegments(KeepStartingWith(Split(text, delimiter), text[0])))
  }

  /** `parse_commands` with the corrected filter. */
  function ParseCommandsIntended(data: seq<Utf8.Byte>): Result<seq<Result<Command>>>
  {
    match Utf8.Decode(data)
    case None => Err(InvalidUtf8)
    case Some(text) => FrameIntended(text)
  }

  predicate IsSelector(selector: char) {
    selector == 'z' || selector == 'n'
  }

  /** A command that can be sent with delimiter `d`: well formed, and `d` is not in its path. */
  predicate Sendable(c: Command, d: char) {
    WellFormed(c) && (c.HasPath() ==> d !in c.path)
  }

  /** The wire segments of `cmds`: the selector, then the command's text. */
  function Segments(selector: char, cmds: seq<Command>): (r: seq<string>)
    ensures |r| == |cmds|
  {
    if cmds == [] then [] else [[selector] + Render(cmds[0])] + Segments(selector, cmds[1..])
  }

  /** The text a client sends for `cmds`: each segment followed by the delimiter. */
  function WireText(selector: char, cmds: seq<Command>): string
    requires IsSelector(selector)
  {
    if cmds == [] then []
    else [selector] + Render(cmds[0]) + [Delimiter(selector).value] + WireText(selector, cmds[1..])
  }

  lemma RenderAvoidsDelimiter(c: Command, d: char)
    requires d == '\0' || d == '\n'
    requires Sendable(c, d)
    ensures d !in Render(c)
  {
    if c.HasPath() {
      assert Render(c) == Keyword(c) + " " + c.path;
    }
  }

  lemma {:induction false} SplitWireText(selector: char, cmds: seq<Command>)
    requires IsSelector(selector)
    requires forall i :: 0 <= i < |cmds| ==> Sendable(cmds[i], Delimiter(selector).value)
    ensures Split(WireText(selector, cmds), Delimiter(selector).value) == Segments(selector, cmds) + [[]]
    decreases |cmds|
  {
    var d := Delimiter(selector).value;
    if cmds != [] {
      RenderAvoidsDelimiter(cmds[0], d);
      var head := [selector] + Render(cmds[0]);
      assert d !in head;
      assert WireText(selector, cmds) == head + [d] + WireText(selector, cmds[1..]);
      SplitAfterPiece(head, d, WireText(selector, cmds[1..]));
      SplitWireText(selector, cmds[1..]);
    }
  }

  lemma {:induction false} KeepSegments(selector: char, cmds: seq<Command>)
    ensures KeepStartingWith(Segments(selector, cmds) + [[]], selector) == Segments(selector, cmds)
    decreases |cmds|
  {
    var segs := Segments(selector, cmds) + [[]];
    if cmds == [] {
      assert segs[1..] == [];
    } else {
      assert segs[1..] == Segments(selector, cmds[1..]) + [[]];
      KeepSegments(selector, cmds[1..]);
    }
  }

  lemma {:induction false} SegmentAt(selector: char, cmds: seq<Command>, i: nat)
    requires i < |cmds|
    ensures Segments(selector, cmds)[i] == [selector] + Render(cmds[i])
    decreases |cmds|
  {
    if i > 0 {
      SegmentAt(selector, cmds[1..], i - 1);
    }
  }

  /** Each command as a successful parse. */
  function AllOk(cmds: seq<Command>): (r: seq<Result<Command>>)
    ensures |r| == |cmds|
  {
    seq(|cmds|, i requires 0 <= i < |cmds| => Ok(cmds[i]))
  }

  /** The corrected framing of a non-empty read with a valid selector, unfolded. */
  lemma FrameIntendedUnfold(text: string)
    requires text != [] && IsSelector(text[0])
    ensures FrameIntended(text)
         == Ok(ParseSegments(KeepStartingWith(Split(text, Delimiter(text[0]).value), text[0])))
  {
  }

  lemma {:induction false} ParseRenderedSegments(selector: char, cmds: seq<Command>)
    requires forall i :: 0 <= i < |cmds| ==> WellFormed(cmds[i])
    ensures forall i :: 0 <= i < |cmds| ==> Segments(selector, cmds)[i] != []
    ensures ParseSegments(Segments(selector, cmds)) == AllOk(cmds)
  {
    var segments := Segments(selector, cmds);
    forall i | 0 <= i < |cmds| ensures segments[i] != [] && TryFrom(segments[i][1..]) == Ok(cmds[i]) {
      SegmentAt(selector, cmds, i);
      assert segments[i][1..] == Render(cmds[i]);
      RenderRoundTrip(cmds[i]);
    }
  }

  /** With the corrected filter, every list of sendable commands survives the wire round trip. */
  lemma FrameIntendedRoundTrip(selector: char, cmds: seq<Command>)
    requires IsSelector(selector)
    requires forall i :: 0 <= i < |cmds| ==> Sendable(cmds[i], Delimiter(selector).value)
    ensures FrameIntended(WireText(selector, cmds)) == Ok(AllOk(cmds))
  {
    var text := WireText(selector, cmds);
    if cmds != [] {
      assert text[0] == selector;
      ParseRenderedSegments(selector, cmds);
      FrameIntendedUnfold(text);
      SplitWireText(selector, cmds);
      KeepSegments(selector, cmds);
    }
  }

  /** The same round trip through the bytes of the connection. */
  lemma ParseCommandsIntendedRoundTrip(selector: char, cmds: seq<Command>)
    requires IsSelector(selector)
    requires forall i :: 0 <= i < |cmds| ==> Sendable(cmds[i], Delimiter(selector).value)
    ensures ParseCommandsIntended(Utf8.Encode(WireText(selector, cmds)))
         == Ok(AllOk(cmds))
  {
    Utf8.DecodeEncode(WireText(selector, cmds));
    FrameIntendedRoundTrip(selector, cmds);
  }

  /** As written, the framing drops every command of a well-framed read. */
  lemma AsWrittenDropsEveryCommand(selector: char, cmds: seq<Command>)
    requires IsSelector(selector) && cmds != []
    requires forall i :: 0 <= i < |cmds| ==> Sendable(cmds[i], Delimiter(selector).value)
    ensures Frame(WireText(selector, cmds)) == Ok([])
    ensures FrameIntended(WireText(selector, cmds)) != Ok([])
  {
    FrameNeverYieldsCommands(WireText(selector, cmds));
    FrameIntendedRoundTrip(selector, cmds);
    var expected := AllOk(cmds);
    assert |expected| > 0;
  }

  /** The read of PING then VERSION with NUL framing. */
  lemma PingVersionWireText()
    ensures WireText('z', [Ping, Version]) == "zPING\0zVERSION\0"
  {
  }

  /** The read "zPING\0zVERSION\0": nothing as written, [Ping, Version] as intended. */
  lemma PingVersionExample()
    ensures WireText('z', [Ping, Version]) == "zPING\0zVERSION\0"
    ensures Frame(WireText('z', [Ping, Version])) == Ok([])
    ensures FrameIntended(WireText('z', [Ping, Version])) == Ok([Ok(Ping), Ok(Version)])
  {
    PingVersionWireText();
    var cmds := [Ping, Version];
    FrameNeverYieldsCommands(WireText('z', cmds));
    FrameIntendedRoundTrip('z', cmds);
    assert AllOk(cmds) == [Ok(Ping), Ok(Version)];
  }

  /** A read with an unknown selector is a framing error either way. */
  lemma BadSelectorExample()
    ensures Frame("xPING\0") == Err(InvalidCommand("Invalid delimiter specification: x"))
    ensures FrameIntended("xPING\0") == Err(InvalidCommand("Invalid delimiter specification: x"))
  {
    assert "Invalid delimiter specification: " + ['x'] == "Invalid delimiter specification: x";
  }
}
