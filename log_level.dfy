/**
 * The two operations of the `log` crate's `Level` that configuration
 * conversion uses: `Level::from_str` (the level names matched without regard
 * to ASCII case, "off" refused) and `Level::as_str` (the upper-case name).
 */
module LogLevel {
  import opened Wrappers

  datatype Level = Error | Warn | Info | Debug | Trace

  /** The level names, indexed by the levels' discriminants; index 0 is the filter "OFF". */
  const LOG_LEVEL_NAMES: seq<string> := ["OFF", "ERROR", "WARN", "INFO", "DEBUG", "TRACE"]

  /** `level as usize`. */
  function Discriminant(l: Level): (i: nat)
    ensures 1 <= i < |LOG_LEVEL_NAMES|
  {
    match l
    case Error => 1
    case Warn => 2
    case Info => 3
    case Debug => 4
    case Trace => 5
  }

  /** `Level::from_usize`. */
  function FromUsize(i: nat): (r: Option<Level>)
    ensures r.Some? ==> Discriminant(r.value) == i
    ensures 1 <= i <= 5 ==> r.Some?
  {
    match i
    case 1 => Some(Error)
    case 2 => Some(Warn)
    case 3 => Some(Info)
    case 4 => Some(Debug)
    case 5 => Some(Trace)
    case _ => None
  }

  /** `Level::as_str`. */
  function AsStr(l: Level): (name: string)
    ensures name != [] && forall i :: 0 <= i < |name| ==> 'A' <= name[i] <= 'Z'
    ensures name != LOG_LEVEL_NAMES[0]
  {
    LOG_LEVEL_NAMES[Discriminant(l)]
  }

  /** `char::to_ascii_lowercase`. */
  function ToAsciiLowercase(c: char): char {
    if 'A' <= c <= 'Z' then (c as int + 32) as char else c
  }

  /** `str::eq_ignore_ascii_case`, compared character by character. */
  predicate EqIgnoreAsciiCase(a: string, b: string) {
    |a| == |b| && forall i :: 0 <= i < |a| ==> ToAsciiLowercase(a[i]) == ToAsciiLowercase(b[i])
  }

  /** `Iterator::position` of the first name that matches `s`. */
  function Position(names: seq<string>, s: string): (r: Option<nat>)
    ensures r.Some? ==> r.value < |names| && EqIgnoreAsciiCase(names[r.value], s)
    ensures r.Some? ==> forall j :: 0 <= j < r.value ==> !EqIgnoreAsciiCase(names[j], s)
    ensures r.None? ==> forall j :: 0 <= j < |names| ==> !EqIgnoreAsciiCase(names[j], s)
  {
    if names == [] then None
    else if EqIgnoreAsciiCase(names[0], s) then Some(0)
    else
      match Position(names[1..], s)
      case None => None
      case Some(i) => Some(i + 1)
  }

  /** `Level::from_str`: the position of a matching name, unless that is "OFF". */
  function FromStr(s: string): (r: Option<Level>)
    ensures r.Some? ==> EqIgnoreAsciiCase(AsStr(r.value), s)
    ensures EqIgnoreAsciiCase(LOG_LEVEL_NAMES[0], s) ==> r.None?
  {
    match Position(LOG_LEVEL_NAMES, s)
    case None => None
    case Some(i) => if i != 0 then FromUsize(i) else None
  }

  /** Two names that differ in their first letter even after lower-casing. */
  lemma DifferentInitials(a: string, b: string)
    requires a != [] && b != [] && ToAsciiLowercase(a[0]) != ToAsciiLowercase(b[0])
    ensures forall s :: !(EqIgnoreAsciiCase(a, s) && EqIgnoreAsciiCase(b, s))
  {
  }

  /** No text matches two of the level names. */
  lemma NamesDistinct(i: nat, j: nat, s: string)
    requires i < |LOG_LEVEL_NAMES| && j < |LOG_LEVEL_NAMES| && i != j
    ensures !(EqIgnoreAsciiCase(LOG_LEVEL_NAMES[i], s) && EqIgnoreAsciiCase(LOG_LEVEL_NAMES[j], s))
  {
    var a, b := LOG_LEVEL_NAMES[i], LOG_LEVEL_NAMES[j];
    if |a| == |b| {
      assert a[0] != b[0];
      assert ToAsciiLowercase(a[0]) != ToAsciiLowercase(b[0]);
      DifferentInitials(a, b);
    }
  }

  /** A text parses to a level exactly when it is that level's name, in any ASCII case. */
  lemma FromStrMatchesName(s: string, l: Level)
    ensures FromStr(s) == Some(l) <==> EqIgnoreAsciiCase(AsStr(l), s)
  {
    var k := Discriminant(l);
    match Position(LOG_LEVEL_NAMES, s)
    case None =>
    case Some(i) =>
      if i != k {
        NamesDistinct(i, k, s);
      }
  }

  /** The canonical name of each level parses back to that level. */
  lemma AsStrRoundTrip(l: Level)
    ensures FromStr(AsStr(l)) == Some(l)
  {
    FromStrMatchesName(AsStr(l), l);
  }

  /** Parsing forgets case and gives the upper-case name: "warn" is stored as "WARN". */
  lemma DefaultLevelIsWarn()
    ensures FromStr("warn") == Some(Warn)
    ensures AsStr(Warn) == "WARN"
  {
    FromStrMatchesName("warn", Warn);
  }

  /** "off" names a filter, not a level. */
  lemma OffIsNoLevel()
    ensures FromStr("off") == None
  {
    assert EqIgnoreAsciiCase(LOG_LEVEL_NAMES[0], "off");
  }
}
