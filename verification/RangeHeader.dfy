/** The byte-range request header: printed by the client side, parsed by the server side. */
module RangeHeader {
  import opened Prelude
  import opened Text

  /** A range with optional unsigned 64-bit bounds. */
  datatype Range = Range(start: Option<nat>, end: Option<nat>)

  datatype Parsed = Ok(range: Range) | InvalidRangeHeader

  const UNIT := "bytes="

  predicate FitsU64(bound: Option<nat>) {
    bound.Some? ==> bound.value < U64_LIMIT
  }

  function Show(bound: Option<nat>): string {
    if bound.Some? then Decimal(bound.value) else ""
  }

  function Header(range: Range): string {
    UNIT + Show(range.start) + "-" + Show(range.end)
  }

  function Bound(pieces: seq<string>, i: nat): Option<nat> {
    if i < |pieces| then ParseU64(pieces[i]) else None
  }

  function Parse(header: string): Parsed {
    if !Contains(header, UNIT) then InvalidRangeHeader
    else
      var pieces := Split(RemoveAll(header, UNIT), '-');
      Ok(Range(Bound(pieces, 0), Bound(pieces, 1)))
  }

  /** The bound a piece between dashes stands for, once the unit is taken out of it. */
  function BoundIn(pieces: seq<string>, i: nat): Option<nat> {
    if i < |pieces| then ParseU64(RemoveAll(pieces[i], UNIT)) else None
  }

  ghost predicate NamesUnit(pieces: seq<string>) {
    exists k :: 0 <= k < |pieces| && Contains(pieces[k], UNIT)
  }

  /**
   * Every header text: refused unless some piece between dashes names the unit;
   * otherwise the first two pieces are the bounds, the rest is ignored, and a
   * piece that is not a 64-bit number is an open bound.
   */
  lemma ParsePieces(header: string)
    ensures var pieces := Split(header, '-');
      Parse(header) ==
        if NamesUnit(pieces) then Ok(Range(BoundIn(pieces, 0), BoundIn(pieces, 1))) else InvalidRangeHeader
  {
    var pieces := Split(header, '-');
    ContainsInPiece(header, UNIT, '-');
    RemoveThenSplit(header, UNIT, '-');
    assert NamesUnit(pieces) <==> Contains(header, UNIT);
    hide Split, RemoveAll, Contains, ParseU64;
  }

  lemma AbsentFromDigits(digits: string, t: string)
    requires AllDigits(digits)
    ensures '-' !in digits && RemoveAll(digits + t, UNIT) == digits + RemoveAll(t, UNIT)
  {
    assert UNIT[0] == 'b';
    RemoveAfter(digits, t, UNIT);
  }

  /** After the unit, a first bound and a dash, what follows up to the next dash is the second bound. */
  lemma ParseBoundDashRest(first: string, second: string, more: string)
    requires AllDigits(first) && '-' !in second && (more == "" || more[0] == '-')
    ensures Parse(UNIT + first + "-" + second + more) == Ok(Range(ParseU64(first), ParseU64(RemoveAll(second, UNIT))))
  {
    var header := UNIT + first + "-" + second + more;
    PiecesOf(first, second, more);
    ParsePieces(header);
    RemoveLeading(first, UNIT);
    AbsentFromDigits(first, "");
    assert first + "" == first && RemoveAll("", UNIT) == "";
    var pieces := Split(header, '-');
    assert Contains(pieces[0], UNIT);
    hide Split, RemoveAll, Contains, ParseU64, Parse;
  }

  lemma PiecesOf(first: string, second: string, more: string)
    requires AllDigits(first) && '-' !in second && (more == "" || more[0] == '-')
    ensures var pieces := Split(UNIT + first + "-" + second + more, '-');
      |pieces| >= 2 && pieces[0] == UNIT + first && pieces[1] == second
  {
    var a, tail := UNIT + first, second + more;
    assert UNIT + first + "-" + second + more == a + (['-'] + tail);
    SplitPrefix(a, ['-'] + tail, '-');
    SplitCons('-', tail, '-');
    SplitPrefix(second, more, '-');
    if more != "" { SplitCons('-', more[1..], '-'); assert more == ['-'] + more[1..]; }
    assert a + "" == a && second + "" == second;
    hide Split;
  }

  lemma ShownDigits(bound: Option<nat>)
    ensures AllDigits(Show(bound))
    ensures FitsU64(bound) ==> ParseU64(Show(bound)) == bound
  {
    if bound.Some? {
      DecimalDenotes(bound.value);
      if FitsU64(bound) { ParseDecimal(bound.value); }
    }
  }

  lemma NoDashInDigits(s: string)
    requires AllDigits(s)
    ensures '-' !in s
  {
  }

  /** Parsing undoes printing for every pair of bounds, present or absent. */
  lemma ParseHeader(range: Range)
    requires FitsU64(range.start) && FitsU64(range.end)
    ensures Parse(Header(range)) == Ok(range)
  {
    var a, b := Show(range.start), Show(range.end);
    assert RemoveAll("", UNIT) == "";
    assert Header(range) == UNIT + a + "-" + b + "" && b + "" == b;
    ShownDigits(range.start);
    ShownDigits(range.end);
    NoDashInDigits(b);
    hide *;
    AbsentFromDigits(b, "");
    ParseBoundDashRest(a, b, "");
  }

  /** Different ranges print differently. */
  lemma HeaderInjective(a: Range, b: Range)
    requires FitsU64(a.start) && FitsU64(a.end) && FitsU64(b.start) && FitsU64(b.end)
    requires Header(a) == Header(b)
    ensures a == b
  {
    ParseHeader(a);
    ParseHeader(b);
  }

  /** A text with a comma in it is no number. */
  lemma CommaIsNoNumber(a: string, b: string)
    requires AllDigits(a)
    ensures ParseU64(a + "," + b) == None
  {
    var both := a + "," + b;
    assert both[|a|] == ',';
    assert a != "" ==> both[0] == a[0];
    assert !IsDigit(both[|a|]);
    assert both[0] != '+';
  }

  /** The text up to its first dash, and from there on. */
  lemma {:induction false} BeforeDash(t: string) returns (before: string, onward: string)
    ensures t == before + onward && '-' !in before && (onward == "" || onward[0] == '-')
  {
    if t == "" || t[0] == '-' {
      before, onward := "", t;
    } else {
      before, onward := BeforeDash(t[1..]);
      before := [t[0]] + before;
    }
  }

  /** A bound with a comma and something behind it, up to the next dash, is no number. */
  lemma CommaPiece(b: string, before: string)
    requires AllDigits(b) && '-' !in before
    ensures '-' !in b + "," + before && ParseU64(RemoveAll(b + "," + before, UNIT)) == None
  {
    assert UNIT[0] == 'b' && b + "," + before == (b + ",") + before;
    NoDashInDigits(b);
    RemoveAfter(b + ",", before, UNIT);
    hide RemoveAll, ParseU64;
    CommaIsNoNumber(b, RemoveAll(before, UNIT));
  }

  /**
   * A request for several ranges, whatever follows the first comma, is not
   * refused: it is read as everything from the first range's start.  When the
   * first range is a suffix it has no start, and the whole file is read.
   */
  lemma SeveralRangesReadAsOpen(first: Range, rest: string)
    requires FitsU64(first.start)
    ensures Parse(Header(first) + "," + rest) == Ok(Range(first.start, None))
    ensures Parse(Header(first) + "," + rest) == Ok(Range(None, None)) <==> first.start.None?
  {
    var a, b := Show(first.start), Show(first.end);
    var before, onward := BeforeDash(rest);
    var second := b + "," + before;
    assert Header(first) + "," + rest == UNIT + a + "-" + second + onward;
    ShownDigits(first.start);
    ShownDigits(first.end);
    hide *;
    CommaPiece(b, before);
    ParseBoundDashRest(a, second, onward);
  }

  lemma ExampleHeaders()
    ensures Header(Range(Some(0), Some(4))) == "bytes=0-4"
    ensures Header(Range(Some(1), None)) == "bytes=1-"
    ensures Header(Range(None, Some(5))) == "bytes=-5"
  {
  }

  /** Spaces, open ends and suffixes make no difference. */
  lemma SeveralRangesExamples()
    ensures Parse("bytes=0-4, 6-9") == Ok(Range(Some(0), None))
    ensures Parse("bytes=1-,5-9") == Ok(Range(Some(1), None))
    ensures Parse("bytes=-5,10-20") == Ok(Range(None, None))
  {
    hide Parse, Header;
    ExampleHeaders();
    SeveralRangesReadAsOpen(Range(Some(0), Some(4)), " 6-9");
    SeveralRangesReadAsOpen(Range(Some(1), None), "5-9");
    SeveralRangesReadAsOpen(Range(None, Some(5)), "10-20");
    assert "bytes=0-4" + "," + " 6-9" == "bytes=0-4, 6-9";
    assert "bytes=1-" + "," + "5-9" == "bytes=1-,5-9";
    assert "bytes=-5" + "," + "10-20" == "bytes=-5,10-20";
  }
}
