/** Decimal printing and parsing, splitting and joining, as the standard string functions do them. */
module Text {
  import opened Prelude

  const U64_LIMIT: nat := 0x1_0000_0000_0000_0000

  predicate IsDigit(c: char) {
    '0' <= c <= '9'
  }

  predicate AllDigits(s: string) {
    forall i :: 0 <= i < |s| ==> IsDigit(s[i])
  }

  function DigitValue(c: char): nat
    requires IsDigit(c)
  {
    (c - '0') as nat
  }

  function Decimal(n: nat): string {
    if n < 10 then ['0' + n as char] else Decimal(n / 10) + ['0' + (n % 10) as char]
  }

  function DigitsValue(s: string): nat
    requires AllDigits(s)
  {
    if s == "" then 0 else DigitsValue(s[..|s| - 1]) * 10 + DigitValue(s[|s| - 1])
  }

  /** An unsigned 64-bit parse: optional plus sign, at least one digit, no overflow. */
  function ParseU64(s: string): Option<nat> {
    var digits := if s != "" && s[0] == '+' then s[1..] else s;
    if digits != "" && AllDigits(digits) && DigitsValue(digits) < U64_LIMIT then Some(DigitsValue(digits)) else None
  }

  lemma {:induction false} DecimalDenotes(n: nat)
    ensures Decimal(n) != "" && AllDigits(Decimal(n)) && DigitsValue(Decimal(n)) == n
  {
    if n >= 10 {
      DecimalDenotes(n / 10);
      assert Decimal(n)[..|Decimal(n)| - 1] == Decimal(n / 10);
    } else {
      assert Decimal(n)[..0] == "";
    }
  }

  lemma ParseDecimal(n: nat)
    requires n < U64_LIMIT
    ensures ParseU64(Decimal(n)) == Some(n)
  {
    DecimalDenotes(n);
    assert IsDigit(Decimal(n)[0]);
  }

  lemma DecimalInjective(m: nat, n: nat)
    requires Decimal(m) == Decimal(n)
    ensures m == n
  {
    DecimalDenotes(m);
    DecimalDenotes(n);
  }

  /** The pieces between occurrences of a separator; always at least one. */
  function Split(s: string, sep: char): (pieces: seq<string>)
    ensures pieces != []
  {
    if s == "" then [""]
    else
      var rest := Split(s[1..], sep);
      if s[0] == sep then [""] + rest else [[s[0]] + rest[0]] + rest[1..]
  }

  function Join(parts: seq<string>, sep: char): string {
    if parts == [] then ""
    else if |parts| == 1 then parts[0]
    else parts[0] + [sep] + Join(parts[1..], sep)
  }

  /** No piece contains the separator. */
  lemma {:induction false} PiecesFree(s: string, sep: char)
    ensures forall k :: 0 <= k < |Split(s, sep)| ==> sep !in Split(s, sep)[k]
  {
    if s != "" {
      PiecesFree(s[1..], sep);
      var rest := Split(s[1..], sep);
      assert sep !in rest[0];
    }
  }

  /** Prepending a separator-free text extends the first piece only. */
  lemma {:induction false} SplitPrefix(a: string, s: string, sep: char)
    requires sep !in a
    ensures Split(a + s, sep) == [a + Split(s, sep)[0]] + Split(s, sep)[1..]
  {
    var pieces := Split(s, sep);
    if a == "" {
      assert a + s == s && a + pieces[0] == pieces[0];
    } else {
      SplitPrefix(a[1..], s, sep);
      assert a[0] != sep && (a + s)[0] == a[0] && (a + s)[1..] == a[1..] + s;
      assert [a[0]] + (a[1..] + pieces[0]) == a + pieces[0];
    }
  }

  /** A separator between two texts separates their pieces. */
  lemma {:induction false} SplitBetween(s: string, t: string, sep: char)
    ensures Split(s + [sep] + t, sep) == Split(s, sep) + Split(t, sep)
  {
    if s == "" {
      assert ("" + [sep] + t)[1..] == t;
    } else {
      var all := s + [sep] + t;
      assert all[0] == s[0] && all[1..] == s[1..] + [sep] + t;
      SplitBetween(s[1..], t, sep);
    }
  }

  /** Splitting what was joined gives separator-free parts back. */
  lemma {:induction false} SplitJoin(parts: seq<string>, sep: char)
    requires parts != [] && forall k :: 0 <= k < |parts| ==> sep !in parts[k]
    ensures Split(Join(parts, sep), sep) == parts
  {
    if |parts| == 1 {
      SplitPrefix(parts[0], "", sep);
      assert parts[0] + "" == parts[0];
    } else {
      var tail := [sep] + Join(parts[1..], sep);
      SplitJoin(parts[1..], sep);
      assert tail[1..] == Join(parts[1..], sep);
      SplitPrefix(parts[0], tail, sep);
      assert Join(parts, sep) == parts[0] + tail;
      assert parts[0] + "" == parts[0];
    }
  }

  predicate HasPrefix(s: string, pattern: string) {
    |pattern| <= |s| && s[..|pattern|] == pattern
  }

  predicate Contains(s: string, pattern: string) {
    HasPrefix(s, pattern) || (s != "" && Contains(s[1..], pattern))
  }

  /** All occurrences of a pattern removed, scanning left to right without overlap. */
  function RemoveAll(s: string, pattern: string): string
    requires pattern != ""
  {
    if s == "" then ""
    else if HasPrefix(s, pattern) then RemoveAll(s[|pattern|..], pattern)
    else [s[0]] + RemoveAll(s[1..], pattern)
  }

  /** Text before which no pattern can start is kept. */
  lemma {:induction false} RemoveAfter(s: string, t: string, pattern: string)
    requires pattern != "" && pattern[0] !in s
    ensures RemoveAll(s + t, pattern) == s + RemoveAll(t, pattern)
  {
    if s == "" {
      assert s + t == t && s + RemoveAll(t, pattern) == RemoveAll(t, pattern);
    } else {
      assert s[0] != pattern[0] && (s + t)[0] == s[0] && (s + t)[1..] == s[1..] + t;
      RemoveAfter(s[1..], t, pattern);
      assert [s[0]] + (s[1..] + RemoveAll(t, pattern)) == s + RemoveAll(t, pattern);
    }
  }

  lemma RemoveLeading(t: string, pattern: string)
    requires pattern != ""
    ensures Contains(pattern + t, pattern) && RemoveAll(pattern + t, pattern) == RemoveAll(t, pattern)
  {
    assert (pattern + t)[..|pattern|] == pattern && (pattern + t)[|pattern|..] == t;
  }

  function RemovedFrom(pieces: seq<string>, pattern: string): (r: seq<string>)
    requires pattern != ""
    ensures |r| == |pieces| && forall k :: 0 <= k < |r| ==> r[k] == RemoveAll(pieces[k], pattern)
  {
    seq(|pieces|, i requires 0 <= i < |pieces| => RemoveAll(pieces[i], pattern))
  }

  /** A separator-free pattern starts a text exactly when it starts the text's first piece. */
  lemma FirstPieceStarts(s: string, sep: char, pattern: string)
    requires pattern != "" && sep !in pattern
    ensures HasPrefix(s, pattern) <==> HasPrefix(Split(s, sep)[0], pattern)
  {
    var first := Split(s, sep)[0];
    FirstPieceIsPrefix(s, sep);
    if HasPrefix(s, pattern) {
      var t := s[|pattern|..];
      assert s == pattern + t;
      SplitPrefix(pattern, t, sep);
      assert first == pattern + Split(t, sep)[0];
      assert first[..|pattern|] == pattern;
    }
  }

  lemma {:induction false} FirstPieceIsPrefix(s: string, sep: char)
    ensures |Split(s, sep)[0]| <= |s| && s[..|Split(s, sep)[0]|] == Split(s, sep)[0]
  {
    if s != "" && s[0] != sep {
      FirstPieceIsPrefix(s[1..], sep);
      var rest := Split(s[1..], sep)[0];
      assert s[..|rest| + 1] == [s[0]] + s[1..][..|rest|];
    }
  }

  /** Removing a separator-free pattern and splitting can be done in either order. */
  lemma {:induction false} RemoveThenSplit(s: string, pattern: string, sep: char)
    requires pattern != "" && sep !in pattern
    ensures Split(RemoveAll(s, pattern), sep) == RemovedFrom(Split(s, sep), pattern)
    decreases |s|
  {
    var pieces := Split(s, sep);
    FirstPieceStarts(s, sep, pattern);
    if s == "" {
    } else if HasPrefix(s, pattern) {
      var t := s[|pattern|..];
      assert s == pattern + t;
      RemoveThenSplit(t, pattern, sep);
      SplitPrefix(pattern, t, sep);
      RemoveLeading(Split(t, sep)[0], pattern);
    } else {
      RemoveThenSplit(s[1..], pattern, sep);
      RemoveStep(s, pattern, sep);
    }
  }

  lemma SplitCons(c: char, t: string, sep: char)
    ensures Split([c] + t, sep) ==
            if c == sep then [""] + Split(t, sep) else [[c] + Split(t, sep)[0]] + Split(t, sep)[1..]
  {
    assert ([c] + t)[1..] == t;
  }

  lemma RemoveCons(c: char, t: string, pattern: string)
    requires pattern != "" && !HasPrefix([c] + t, pattern)
    ensures RemoveAll([c] + t, pattern) == [c] + RemoveAll(t, pattern)
  {
    assert ([c] + t)[1..] == t;
  }

  lemma RemovedCons(piece: string, rest: seq<string>, pattern: string)
    requires pattern != ""
    ensures RemovedFrom([piece] + rest, pattern) == [RemoveAll(piece, pattern)] + RemovedFrom(rest, pattern)
  {
    hide RemoveAll;
    assert forall k :: 0 < k <= |rest| ==> ([piece] + rest)[k] == rest[k - 1];
  }

  lemma RemoveStep(s: string, pattern: string, sep: char)
    requires pattern != "" && sep !in pattern && s != "" && !HasPrefix(s, pattern)
    requires Split(RemoveAll(s[1..], pattern), sep) == RemovedFrom(Split(s[1..], sep), pattern)
    ensures Split(RemoveAll(s, pattern), sep) == RemovedFrom(Split(s, sep), pattern)
  {
    var c, t := s[0], s[1..];
    var rest := Split(t, sep);
    assert s == [c] + t;
    assert RemoveAll("", pattern) == "";
    hide *;
    FirstPieceStarts(s, sep, pattern);
    SplitCons(c, t, sep);
    RemoveCons(c, t, pattern);
    SplitCons(c, RemoveAll(t, pattern), sep);
    if c == sep {
      RemovedCons("", rest, pattern);
    } else {
      RemoveCons(c, rest[0], pattern);
      RemovedCons([c] + rest[0], rest[1..], pattern);
      assert rest == [rest[0]] + rest[1..];
      RemovedCons(rest[0], rest[1..], pattern);
    }
  }

  /** A text contains a pattern when it is something, the pattern, and something. */
  lemma {:induction false} ContainsIff(s: string, pattern: string)
    ensures Contains(s, pattern) <==> exists a: string, b: string :: s == a + pattern + b
  {
    if HasPrefix(s, pattern) {
      assert s == "" + pattern + s[|pattern|..];
    } else if s != "" {
      ContainsIff(s[1..], pattern);
      if a: string, b: string :| s[1..] == a + pattern + b {
        assert s == ([s[0]] + a) + pattern + b;
      }
    }
    forall a: string, b: string | s == a + pattern + b ensures Contains(s, pattern) {
      if a == "" {
        assert s[..|pattern|] == pattern;
      } else {
        assert s[1..] == a[1..] + pattern + b;
        ContainsIff(s[1..], pattern);
      }
    }
  }

  /** A separator-free pattern occurs in a text exactly when it occurs in one of its pieces. */
  lemma {:induction false} ContainsInPiece(s: string, pattern: string, sep: char)
    requires pattern != "" && sep !in pattern
    ensures Contains(s, pattern) <==> exists k :: 0 <= k < |Split(s, sep)| && Contains(Split(s, sep)[k], pattern)
    decreases |s|
  {
    var pieces := Split(s, sep);
    FirstPieceStarts(s, sep, pattern);
    if s != "" {
      var rest := Split(s[1..], sep);
      ContainsInPiece(s[1..], pattern, sep);
      if s[0] == sep {
        assert pieces[1..] == rest;
        assert forall k :: 0 <= k < |rest| ==> pieces[k + 1] == rest[k];
        assert forall k :: 0 < k < |pieces| ==> pieces[k] == rest[k - 1];
      } else {
        assert pieces[0][1..] == rest[0];
        assert forall k :: 0 < k < |pieces| ==> pieces[k] == rest[k];
      }
    }
  }
}
