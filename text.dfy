/**
 * The `str` operations the command parser is built from: `starts_with`,
 * `trim` (with Rust's `char::is_whitespace`), `split` on a character and the
 * `starts_with` filter over the pieces.
 */
module Text {

  predicate StartsWith(s: string, prefix: string) {
    |prefix| <= |s| && s[..|prefix|] == prefix
  }

  /**
   * `char::is_whitespace`: the characters with the Unicode White_Space
   * property.
   */
  predicate IsWhitespace(c: char) {
    var n := c as int;
    || 0x09 <= n <= 0x0D || n == 0x20 || n == 0x85 || n == 0xA0 || n == 0x1680
    || 0x2000 <= n <= 0x200A || n == 0x2028 || n == 0x2029 || n == 0x202F
    || n == 0x205F || n == 0x3000
  }

  /** Neither starts nor ends with whitespace. */
  predicate IsTrimmed(s: string) {
    s == [] || (!IsWhitespace(s[0]) && !IsWhitespace(s[|s| - 1]))
  }

  /** `str::trim_start`: drops the leading whitespace and nothing else. */
  function TrimStart(s: string): (r: string)
    ensures |r| <= |s| && r == s[|s| - |r|..]
    ensures r == [] || !IsWhitespace(r[0])
  {
    if s != [] && IsWhitespace(s[0]) then TrimStart(s[1..]) else s
  }

  /** What TrimStart drops is whitespace. */
  lemma {:induction false} TrimStartMargin(s: string)
    ensures forall k :: 0 <= k < |s| - |TrimStart(s)| ==> IsWhitespace(s[k])
  {
    if s != [] && IsWhitespace(s[0]) {
      var t := s[1..];
      TrimStartMargin(t);
      forall k | 1 <= k < |s| - |TrimStart(s)|
        ensures IsWhitespace(s[k])
      {
        assert s[k] == t[k - 1];
      }
    }
  }

  /** `str::trim_end`: drops the trailing whitespace and nothing else. */
  function TrimEnd(s: string): (r: string)
    ensures |r| <= |s| && r == s[..|r|]
    ensures r == [] || !IsWhitespace(r[|r| - 1])
  {
    if s != [] && IsWhitespace(s[|s| - 1]) then TrimEnd(s[..|s| - 1]) else s
  }

  /** What TrimEnd drops is whitespace. */
  lemma {:induction false} TrimEndMargin(s: string)
    ensures forall k :: |TrimEnd(s)| <= k < |s| ==> IsWhitespace(s[k])
  {
    if s != [] && IsWhitespace(s[|s| - 1]) {
      TrimEndMargin(s[..|s| - 1]);
    }
  }

  /**
   * `str::trim`: the longest slice of `s` that neither starts nor ends with
   * whitespace, once whitespace-only margins are cut off.
   */
  function Trim(s: string): (r: string)
    ensures IsTrimmed(r)
  {
    var t := TrimStart(s);
    var r := TrimEnd(t);
    assert r != [] ==> r[0] == t[0];
    r
  }

  /** The trim is the slice of `s` between its two whitespace margins. */
  lemma TrimSlice(s: string)
    ensures var r := Trim(s); var i := |s| - |TrimStart(s)|;
      && i + |r| <= |s| && r == s[i..i + |r|]
      && (forall k :: 0 <= k < i ==> IsWhitespace(s[k]))
      && (forall k :: i + |r| <= k < |s| ==> IsWhitespace(s[k]))
  {
    var t := TrimStart(s);
    var r := TrimEnd(t);
    var i := |s| - |t|;
    TrimStartMargin(s);
    TrimEndMargin(t);
    ShiftMargin(s, i, |r|);
    SliceOfSuffix(s, i, |r|);
  }

  lemma SliceOfSuffix(s: string, i: nat, n: nat)
    requires i + n <= |s|
    ensures s[i..][..n] == s[i..i + n]
  {
  }

  /** A whitespace tail of the suffix `s[i..]` is a whitespace tail of `s`. */
  lemma ShiftMargin(s: string, i: nat, n: nat)
    requires i + n <= |s|
    requires forall k :: n <= k < |s| - i ==> IsWhitespace(s[i..][k])
    ensures forall k :: i + n <= k < |s| ==> IsWhitespace(s[k])
  {
    forall k | i + n <= k < |s|
      ensures IsWhitespace(s[k])
    {
      assert s[k] == s[i..][k - i];
    }
  }

  /**
   * What Trim removes: a whitespace-only margin on each side, so that the
   * result is a slice of the input, empty exactly when the input is all
   * whitespace.
   */
  lemma TrimCharacterised(s: string)
    ensures var r := Trim(s); var i := |s| - |TrimStart(s)|;
      && i + |r| <= |s| && r == s[i..i + |r|]
      && (forall k :: 0 <= k < i ==> IsWhitespace(s[k]))
      && (forall k :: i + |r| <= k < |s| ==> IsWhitespace(s[k]))
    ensures Trim(s) == [] <==> forall k :: 0 <= k < |s| ==> IsWhitespace(s[k])
  {
    TrimSlice(s);
    var r := Trim(s);
    var i := |s| - |TrimStart(s)|;
    if r != [] {
      assert s[i] == r[0] && !IsWhitespace(r[0]);
    }
  }

  /** Trimming leaves an already trimmed string alone. */
  lemma TrimmedIsFixpoint(s: string)
    requires IsTrimmed(s)
    ensures Trim(s) == s
  {
  }

  /** Trimming is idempotent. */
  lemma TrimIdempotent(s: string)
    ensures Trim(Trim(s)) == Trim(s)
  {
    TrimmedIsFixpoint(Trim(s));
  }

  /** A leading whitespace character makes no difference to the trim. */
  lemma TrimSkipsLeadingWhitespace(c: char, s: string)
    requires IsWhitespace(c)
    ensures Trim([c] + s) == Trim(s)
  {
    assert ([c] + s)[1..] == s;
  }

  /**
   * `str::split` on a character: the pieces between occurrences of `d`, so
   * one more piece than there are occurrences, none of them containing `d`.
   */
  function Split(s: string, d: char): (pieces: seq<string>)
    ensures |pieces| >= 1
    ensures forall i :: 0 <= i < |pieces| ==> d !in pieces[i]
    ensures Join(pieces, d) == s
  {
    if s == [] then [[]]
    else
      var rest := Split(s[1..], d);
      if s[0] == d then
        assert Join([[]] + rest, d) == [d] + Join(rest, d);
        [[]] + rest
      else
        var pieces := [[s[0]] + rest[0]] + rest[1..];
        JoinHead([s[0]] + rest[0], rest[1..], d);
        JoinHead(rest[0], rest[1..], d);
        assert rest == [rest[0]] + rest[1..];
        pieces
  }

  /** The pieces put back together with `d` between neighbours. */
  function Join(pieces: seq<string>, d: char): string
    requires |pieces| >= 1
  {
    if |pieces| == 1 then pieces[0] else pieces[0] + [d] + Join(pieces[1..], d)
  }

  lemma JoinHead(p: string, ps: seq<string>, d: char)
    ensures Join([p] + ps, d) == if ps == [] then p else p + [d] + Join(ps, d)
  {
    assert ([p] + ps)[1..] == ps;
  }

  /** Splitting a piece followed by `d` yields that piece, then the split of the rest. */
  lemma {:induction false} SplitAfterPiece(p: string, d: char, rest: string)
    requires d !in p
    ensures Split(p + [d] + rest, d) == [p] + Split(rest, d)
    decreases |p|
  {
    var s := p + [d] + rest;
    if p == [] {
      assert s[1..] == rest;
    } else {
      assert s[1..] == p[1..] + [d] + rest;
      SplitAfterPiece(p[1..], d, rest);
      assert [p[0]] + p[1..] == p;
    }
  }

  /** Splitting undoes joining when no piece contains the separator. */
  lemma {:induction false} SplitJoin(pieces: seq<string>, d: char)
    requires |pieces| >= 1
    requires forall i :: 0 <= i < |pieces| ==> d !in pieces[i]
    ensures Split(Join(pieces, d), d) == pieces
    decreases |pieces|
  {
    if |pieces| == 1 {
      SplitOfPiece(pieces[0], d);
    } else {
      SplitJoin(pieces[1..], d);
      SplitAfterPiece(pieces[0], d, Join(pieces[1..], d));
      assert pieces == [pieces[0]] + pieces[1..];
    }
  }

  /** A string without `d` splits into itself alone. */
  lemma {:induction false} SplitOfPiece(p: string, d: char)
    requires d !in p
    ensures Split(p, d) == [p]
    decreases |p|
  {
    if p != [] {
      SplitOfPiece(p[1..], d);
      assert [p[0]] + p[1..] == p;
    }
  }

  predicate StartsWithChar(s: string, c: char) {
    s != [] && s[0] == c
  }

  /**
   * `.filter(|s| s.starts_with(c))`: the pieces that start with `c`, in
   * their order.
   */
  function KeepStartingWith(pieces: seq<string>, c: char): (kept: seq<string>)
    ensures |kept| <= |pieces|
    ensures forall i :: 0 <= i < |kept| ==> StartsWithChar(kept[i], c)
    ensures forall p :: p in kept <==> p in pieces && StartsWithChar(p, c)
  {
    if pieces == [] then []
    else
      var rest := KeepStartingWith(pieces[1..], c);
      assert forall p :: p in pieces <==> p == pieces[0] || p in pieces[1..];
      if StartsWithChar(pieces[0], c) then [pieces[0]] + rest else rest
  }

  /** The filter looks at one piece on its own: kept exactly when it starts with `c`. */
  lemma KeepOne(p: string, c: char)
    ensures KeepStartingWith([p], c) == if StartsWithChar(p, c) then [p] else []
  {
    assert [p][1..] == [];
  }

  /**
   * The filter works piece by piece, so it keeps the order and the
   * repetitions of the pieces: filtering a concatenation concatenates the
   * filtered parts.
   */
  lemma {:induction false} KeepConcat(a: seq<string>, b: seq<string>, c: char)
    ensures KeepStartingWith(a + b, c) == KeepStartingWith(a, c) + KeepStartingWith(b, c)
  {
    if a == [] {
      assert a + b == b;
    } else {
      assert (a + b)[0] == a[0];
      assert (a + b)[1..] == a[1..] + b;
      KeepConcat(a[1..], b, c);
    }
  }

  /** Nothing is kept from pieces none of which contains `c`. */
  lemma {:induction false} KeepNoneWithout(pieces: seq<string>, c: char)
    requires forall i :: 0 <= i < |pieces| ==> c !in pieces[i]
    ensures KeepStartingWith(pieces, c) == []
  {
    if pieces != [] {
      assert !StartsWithChar(pieces[0], c);
      KeepNoneWithout(pieces[1..], c);
    }
  }
}
