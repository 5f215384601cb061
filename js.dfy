/** The few JavaScript built-ins the mesh, STL and MTL code relies on, stated exactly:
    array reads past the end, bytes, String.prototype.trim, split and toLowerCase. */
module Js {

  datatype Option<+T> = None | Some(value: T)

  /** A value, or the exception a JavaScript call would throw instead. */
  datatype Result<+T> = Success(value: T) | Failure(error: string)

  /** A read `a[i]` of a JavaScript array: `undefined` (None) outside 0 <= i < a.length. */
  function At<T>(a: seq<T>, i: int): (r: Option<T>)
    ensures r.Some? <==> 0 <= i < |a|
    ensures r.Some? ==> r.value == a[i]
  {
    if 0 <= i < |a| then Some(a[i]) else None
  }

  /** A write `a[i] = v` to a slot of a JavaScript array. */
  function SetAt<T>(a: seq<T>, i: int, v: T): (r: seq<T>)
    requires 0 <= i < |a|
    ensures |r| == |a| && r[i] == v
    ensures forall j :: 0 <= j < |a| && j != i ==> r[j] == a[j]
  {
    a[i := v]
  }

  /** Writing a slot twice leaves the second value; writing the same value twice is writing it once. */
  lemma SetAtLast<T>(a: seq<T>, i: int, v: T, w: T)
    requires 0 <= i < |a|
    ensures SetAt(SetAt(a, i, v), i, w) == SetAt(a, i, w)
  {
  }

  /** Writes to two different slots commute. */
  lemma SetAtCommute<T>(a: seq<T>, i: int, v: T, j: int, w: T)
    requires 0 <= i < |a| && 0 <= j < |a| && i != j
    ensures SetAt(SetAt(a, i, v), j, w) == SetAt(SetAt(a, j, w), i, v)
  {
  }

  type byte = b: int | 0 <= b < 256

  /** Four consecutive bytes, in file order. IEEE-754 float32 codecs are passed around as
      functions over this type (`Word -> real` and `real -> Word`). */
  datatype Word = Word(b0: byte, b1: byte, b2: byte, b3: byte)

  function WordBytes(w: Word): (r: seq<byte>)
    ensures |r| == 4 && r[0] == w.b0 && r[1] == w.b1 && r[2] == w.b2 && r[3] == w.b3
  {
    [w.b0, w.b1, w.b2, w.b3]
  }

  /** The word stored at `buf[off..off+4]`. */
  function WordAt(buf: seq<byte>, off: nat): (w: Word)
    requires off + 4 <= |buf|
  {
    Word(buf[off], buf[off + 1], buf[off + 2], buf[off + 3])
  }

  /** `DataView.getUint32(off, true)`: the little-endian unsigned 32-bit value at `off`. */
  function Uint32LE(buf: seq<byte>, off: nat): (n: nat)
    requires off + 4 <= |buf|
    ensures n < 0x1_0000_0000
  {
    var b0: int, b1: int, b2: int, b3: int := buf[off], buf[off + 1], buf[off + 2], buf[off + 3];
    b0 + 0x100 * b1 + 0x1_0000 * b2 + 0x100_0000 * b3
  }

  /** The characters JavaScript counts as white space (WhiteSpace and LineTerminator):
      the set `trim()` removes and the regular expression class `\s` matches. */
  predicate IsSpace(c: char) {
    || c == '\t' || c == '\n' || c == '\U{000B}' || c == '\U{000C}' || c == '\r' || c == ' '
    || c == '\U{00A0}' || c == '\U{1680}' || ('\U{2000}' <= c <= '\U{200A}')
    || c == '\U{2028}' || c == '\U{2029}' || c == '\U{202F}' || c == '\U{205F}'
    || c == '\U{3000}' || c == '\U{FEFF}'
  }

  predicate AllSpace(s: string) {
    forall i :: 0 <= i < |s| ==> IsSpace(s[i])
  }

  function TrimStart(s: string): (r: string)
    ensures |r| <= |s|
  {
    if s != [] && IsSpace(s[0]) then TrimStart(s[1..]) else s
  }

  /** `TrimStart` removes the longest all-space prefix. */
  lemma {:induction false} TrimStartSpec(s: string)
    ensures var r := TrimStart(s);
      && (r == "" || !IsSpace(r[0]))
      && r == s[|s| - |r|..] && AllSpace(s[..|s| - |r|])
  {
    if s != [] && IsSpace(s[0]) {
      TrimStartSpec(s[1..]);
      var r := TrimStart(s);
      assert s[..|s| - |r|] == [s[0]] + s[1..][..|s| - 1 - |r|];
    }
  }

  function TrimEnd(s: string): (r: string)
    ensures |r| <= |s|
  {
    if s != [] && IsSpace(s[|s| - 1]) then TrimEnd(s[..|s| - 1]) else s
  }

  /** `TrimEnd` removes the longest all-space suffix. */
  lemma {:induction false} TrimEndSpec(s: string)
    ensures var r := TrimEnd(s);
      && (r == "" || !IsSpace(r[|r| - 1]))
      && r == s[..|r|] && AllSpace(s[|r|..])
  {
    if s != [] && IsSpace(s[|s| - 1]) {
      TrimEndSpec(s[..|s| - 1]);
      var r := TrimEnd(s);
      assert s[|r|..] == s[..|s| - 1][|r|..] + [s[|s| - 1]];
    }
  }

  /** `s.trim()`: what is left after removing white space at both ends. */
  function Trim(s: string): (r: string)
    ensures |r| <= |s|
  {
    TrimEnd(TrimStart(s))
  }

  /** `trim()` leaves nothing exactly when the string is all white space, and otherwise a
      string that begins and ends with something else. */
  lemma TrimSpec(s: string)
    ensures var r := Trim(s);
      && (r == "" || (!IsSpace(r[0]) && !IsSpace(r[|r| - 1])))
      && (r == "" <==> AllSpace(s))
  {
    var t := TrimStart(s);
    var r := TrimEnd(t);
    TrimStartSpec(s);
    TrimEndSpec(t);
    if r == "" {
      var k := |s| - |t|;
      assert s == s[..k] + t;
    } else {
      assert r[0] == t[0];
    }
  }

  /** Joins pieces with a one-character separator between them (`pieces.join(sep)`). */
  function Join(pieces: seq<string>, sep: char): string
    decreases |pieces|
  {
    if pieces == [] then ""
    else if |pieces| == 1 then pieces[0]
    else pieces[0] + [sep] + Join(pieces[1..], sep)
  }

  /** `s.split(sep)` for a one-character separator: the maximal pieces between separators,
      empty ones included. */
  function Split(s: string, sep: char): (r: seq<string>)
    ensures |r| >= 1
    ensures forall i :: 0 <= i < |r| ==> sep !in r[i]
    ensures Join(r, sep) == s
  {
    if s == [] then [""]
    else if s[0] == sep then
      var rest := Split(s[1..], sep);
      assert s == [sep] + s[1..];
      [""] + rest
    else
      var rest := Split(s[1..], sep);
      var r := [[s[0]] + rest[0]] + rest[1..];
      assert r[1..] == rest[1..];
      assert s == [s[0]] + s[1..];
      r
  }

  /** A string with no separator is not split. */
  lemma {:induction false} SplitNoSep(s: string, sep: char)
    requires sep !in s
    ensures Split(s, sep) == [s]
  {
    if s != [] {
      SplitNoSep(s[1..], sep);
      assert [s[0]] + s[1..] == s;
    }
  }

  /** Splitting stops at the first separator. */
  lemma {:induction false} SplitAtFirst(a: string, sep: char, b: string)
    requires sep !in a
    ensures Split(a + [sep] + b, sep) == [a] + Split(b, sep)
  {
    if a == [] {
      assert a + [sep] + b == [sep] + b;
      assert ([sep] + b)[1..] == b;
    } else {
      var s := a + [sep] + b;
      assert s[1..] == a[1..] + [sep] + b;
      SplitAtFirst(a[1..], sep, b);
      assert [a[0]] + a[1..] == a;
    }
  }

  /** `split` undoes `join` when no piece holds the separator. */
  lemma {:induction false} SplitOfJoin(pieces: seq<string>, sep: char)
    requires |pieces| >= 1 && forall i :: 0 <= i < |pieces| ==> sep !in pieces[i]
    ensures Split(Join(pieces, sep), sep) == pieces
  {
    if |pieces| == 1 {
      SplitNoSep(pieces[0], sep);
    } else {
      SplitOfJoin(pieces[1..], sep);
      SplitAtFirst(pieces[0], sep, Join(pieces[1..], sep));
      assert [pieces[0]] + pieces[1..] == pieces;
    }
  }

  /** A join ends with the last character of its last piece. */
  lemma {:induction false} JoinLast(pieces: seq<string>, sep: char)
    requires |pieces| >= 1 && pieces[|pieces| - 1] != ""
    ensures var s := Join(pieces, sep); s != "" && s[|s| - 1] == pieces[|pieces| - 1][|pieces[|pieces| - 1]| - 1]
  {
    if |pieces| > 1 {
      JoinLast(pieces[1..], sep);
    }
  }

  /** `trim` leaves a string alone that does not begin or end with white space. */
  lemma TrimOfTrimmed(s: string)
    requires s != "" && !IsSpace(s[0]) && !IsSpace(s[|s| - 1])
    ensures Trim(s) == s
  {
  }

  /** `s.split(sep)[0]`: everything before the first separator. */
  function Before(s: string, sep: char): (r: string)
    ensures |r| <= |s|
  {
    if s == [] || s[0] == sep then "" else [s[0]] + Before(s[1..], sep)
  }

  /** The part before the first separator is a prefix without the separator, stopped by one
      or by the end of the string. */
  lemma {:induction false} BeforeSpec(s: string, sep: char)
    ensures var r := Before(s, sep);
      sep !in r && r == s[..|r|] && (|r| < |s| ==> s[|r|] == sep)
  {
    if s != [] && s[0] != sep {
      BeforeSpec(s[1..], sep);
    }
  }

  /** `s.split(/\s+/)`: the pieces between maximal runs of white space. */
  function SplitSpaces(s: string): (r: seq<string>)
    ensures |r| >= 1
    decreases |s|
  {
    if s == [] then [""]
    else if IsSpace(s[0]) then [""] + SplitSpaces(TrimStart(s[1..]))
    else
      var rest := SplitSpaces(s[1..]);
      [[s[0]] + rest[0]] + rest[1..]
  }

  /** `TrimStart` removes exactly the white space in front of a string that does not itself
      begin with white space. */
  lemma {:induction false} TrimStartPadded(lead: string, z: string)
    requires AllSpace(lead) && (z == "" || !IsSpace(z[0]))
    ensures TrimStart(lead + z) == z
  {
    if lead == [] {
      assert lead + z == z;
    } else {
      assert (lead + z)[1..] == lead[1..] + z;
      TrimStartPadded(lead[1..], z);
    }
  }

  lemma {:induction false} TrimEndPadded(z: string, trail: string)
    requires AllSpace(trail) && (z == "" || !IsSpace(z[|z| - 1]))
    ensures TrimEnd(z + trail) == z
  {
    if trail == [] {
      assert z + trail == z;
    } else {
      var t := trail[..|trail| - 1];
      assert (z + trail)[..|z + trail| - 1] == z + t;
      TrimEndPadded(z, t);
    }
  }

  /** `trim` removes white space padding and nothing else. */
  lemma TrimPadded(lead: string, z: string, trail: string)
    requires AllSpace(lead) && AllSpace(trail)
    requires z != "" && !IsSpace(z[0]) && !IsSpace(z[|z| - 1])
    ensures Trim(lead + z + trail) == z
  {
    assert lead + z + trail == lead + (z + trail);
    TrimStartPadded(lead, z + trail);
    TrimEndPadded(z, trail);
  }

  /** `s.split(sep)[0]` of a string whose first separator ends `a`. */
  lemma {:induction false} BeforeFirst(a: string, sep: char, rest: string)
    requires sep !in a && (rest == "" || rest[0] == sep)
    ensures Before(a + rest, sep) == a
  {
    if a == [] {
      assert a + rest == rest;
    } else {
      assert (a + rest)[1..] == a[1..] + rest;
      BeforeFirst(a[1..], sep, rest);
    }
  }

  /** A character that is not white space does not occur in white space. */
  lemma SpacesAvoid(s: string, c: char)
    requires AllSpace(s) && !IsSpace(c)
    ensures c !in s
  {
    assert forall i :: 0 <= i < |s| ==> s[i] != c;
  }

  /** A non-empty string without white space. */
  predicate IsWord(w: string) {
    w != "" && forall i :: 0 <= i < |w| ==> !IsSpace(w[i])
  }

  /** Non-empty runs of white space. */
  predicate AreGaps(gaps: seq<string>) {
    forall i :: 0 <= i < |gaps| ==> gaps[i] != "" && AllSpace(gaps[i])
  }

  /** The pieces with the runs `gaps` between them; `Join(pieces, ' ')` is the case where every
      gap is one space. */
  function Spaced(pieces: seq<string>, gaps: seq<string>): (s: string)
    requires |pieces| >= 1 && |gaps| == |pieces| - 1
    decreases |pieces|
  {
    if |pieces| == 1 then pieces[0] else pieces[0] + gaps[0] + Spaced(pieces[1..], gaps[1..])
  }

  /** Spaced words begin with the first word's first character and end with the last word's
      last character. */
  lemma {:induction false} SpacedEnds(pieces: seq<string>, gaps: seq<string>)
    requires |pieces| >= 1 && |gaps| == |pieces| - 1
    requires forall i :: 0 <= i < |pieces| ==> pieces[i] != ""
    ensures var s, w := Spaced(pieces, gaps), pieces[|pieces| - 1];
      w != "" && s != "" && s[0] == pieces[0][0] && s[|s| - 1] == w[|w| - 1]
    decreases |pieces|
  {
    if |pieces| > 1 {
      var rest := Spaced(pieces[1..], gaps[1..]);
      assert pieces[1..][|pieces| - 2] == pieces[|pieces| - 1];
      SpacedEnds(pieces[1..], gaps[1..]);
      assert Spaced(pieces, gaps) == pieces[0] + gaps[0] + rest;
    }
  }

  /** A character outside every piece and every gap is not in the spaced string. */
  lemma {:induction false} SpacedAvoids(pieces: seq<string>, gaps: seq<string>, c: char)
    requires |pieces| >= 1 && |gaps| == |pieces| - 1
    requires forall i :: 0 <= i < |pieces| ==> c !in pieces[i]
    requires forall i :: 0 <= i < |gaps| ==> c !in gaps[i]
    ensures c !in Spaced(pieces, gaps)
    decreases |pieces|
  {
    if |pieces| > 1 {
      SpacedAvoids(pieces[1..], gaps[1..], c);
    }
  }

  lemma {:induction false} SplitSpacesOfWord(a: string)
    requires IsWord(a)
    ensures SplitSpaces(a) == [a]
  {
    if |a| == 1 {
      assert a[1..] == [];
      assert [a[0]] + "" == a;
    } else {
      SplitSpacesOfWord(a[1..]);
      assert [a[0]] + a[1..] == a;
    }
  }

  /** `split(/\s+/)` cuts a word off at the white-space run that follows it. */
  lemma {:induction false} SplitSpacesAt(a: string, w: string, b: string)
    requires IsWord(a) && w != "" && AllSpace(w) && (b == "" || !IsSpace(b[0]))
    ensures SplitSpaces(a + w + b) == [a] + SplitSpaces(b)
  {
    var s := a + w + b;
    assert s[0] == a[0];
    if |a| == 1 {
      assert s[1..] == w + b;
      TrimStartPadded(w, b);
      assert SplitSpaces(w + b) == [""] + SplitSpaces(b);
      assert [a[0]] + "" == a;
    } else {
      assert s[1..] == a[1..] + w + b;
      SplitSpacesAt(a[1..], w, b);
      assert [a[0]] + a[1..] == a;
    }
  }

  /** `split(/\s+/)` recovers the words however wide the white space between them is. */
  lemma {:induction false} SplitSpacesOfSpaced(pieces: seq<string>, gaps: seq<string>)
    requires |pieces| >= 1 && |gaps| == |pieces| - 1 && AreGaps(gaps)
    requires forall i :: 0 <= i < |pieces| ==> IsWord(pieces[i])
    ensures SplitSpaces(Spaced(pieces, gaps)) == pieces
    decreases |pieces|
  {
    if |pieces| == 1 {
      SplitSpacesOfWord(pieces[0]);
    } else {
      var rest := Spaced(pieces[1..], gaps[1..]);
      assert IsWord(pieces[0]) && IsWord(pieces[1]);
      SpacedEnds(pieces[1..], gaps[1..]);
      SplitSpacesAt(pieces[0], gaps[0], rest);
      SplitSpacesOfSpaced(pieces[1..], gaps[1..]);
      assert [pieces[0]] + pieces[1..] == pieces;
    }
  }

  /** With one-space gaps, spacing is joining. */
  lemma {:induction false} SpacedBySpaces(pieces: seq<string>)
    requires |pieces| >= 1
    ensures Spaced(pieces, seq(|pieces| - 1, _ => " ")) == Join(pieces, ' ')
    decreases |pieces|
  {
    if |pieces| > 1 {
      assert seq(|pieces| - 1, _ => " ")[1..] == seq(|pieces| - 2, _ => " ");
      SpacedBySpaces(pieces[1..]);
    }
  }

  /** `toLowerCase()`, as far as the parsers can tell: they only ask whether a lower-cased
      token equals an ASCII lower-case word, and the characters that lower-case to a single
      ASCII letter are A-Z and the Kelvin sign (to k). Other characters are kept, which gives
      the same answer to that question. */
  function LowerChar(c: char): (r: char)
    ensures 'a' <= r <= 'z' ==> r == c || ('A' <= c <= 'Z') || c == '\U{212A}'
  {
    if 'A' <= c <= 'Z' then (c as int + 32) as char
    else if c == '\U{212A}' then 'k'
    else c
  }

  function Lower(s: string): (r: string)
    ensures |r| == |s| && forall i :: 0 <= i < |s| ==> r[i] == LowerChar(s[i])
  {
    seq(|s|, i requires 0 <= i < |s| => LowerChar(s[i]))
  }

  /** `s.startsWith(p)`. */
  predicate StartsWith(s: string, p: string) {
    |p| <= |s| && s[..|p|] == p
  }
}
