/** Lists stored as one text column: elements joined by a separator, split and trimmed when read. */
module SeparatedLists {
  import opened Prelude
  import opened Text

  // ---------------------------------------------------------------------------
  // Trimming
  // ---------------------------------------------------------------------------

  /** The Unicode White_Space property. */
  predicate White(c: char) {
    || '\t' <= c <= '\r' || c == ' ' || c == '\U{0085}' || c == '\U{00A0}' || c == '\U{1680}'
    || '\U{2000}' <= c <= '\U{200A}' || c == '\U{2028}' || c == '\U{2029}' || c == '\U{202F}'
    || c == '\U{205F}' || c == '\U{3000}'
  }

  /** No white space at either end. */
  predicate Trimmed(s: string) {
    s == "" || (!White(s[0]) && !White(s[|s| - 1]))
  }

  function TrimStart(s: string): (r: string)
    ensures |r| <= |s| && r == s[|s| - |r|..]
    ensures r == "" || !White(r[0])
  {
    if s != "" && White(s[0]) then TrimStart(s[1..]) else s
  }

  function TrimEnd(s: string): (r: string)
    ensures r <= s
    ensures r == "" || !White(r[|r| - 1])
  {
    if s != "" && White(s[|s| - 1]) then TrimEnd(s[..|s| - 1]) else s
  }

  function Trim(s: string): (r: string)
    ensures Trimmed(r)
    ensures forall c :: c in r ==> c in s
    ensures Trimmed(s) ==> r == s
  {
    TrimEnd(TrimStart(s))
  }

  // ---------------------------------------------------------------------------
  // Reading and writing
  // ---------------------------------------------------------------------------

  /** The pieces that parse once trimmed, in order. */
  function ParseAll<T>(pieces: seq<string>, parse: string -> Option<T>): (r: seq<T>)
    ensures |r| <= |pieces|
  {
    if pieces == [] then []
    else
      var head := parse(Trim(pieces[0]));
      (if head.Some? then [head.value] else []) + ParseAll(pieces[1..], parse)
  }

  function FromSeparated<T>(text: string, separator: char, parse: string -> Option<T>): seq<T> {
    if text == "" then [] else ParseAll(Split(text, separator), parse)
  }

  function Shown<T>(elements: seq<T>, show: T -> string): (r: seq<string>)
    ensures |r| == |elements| && forall k :: 0 <= k < |r| ==> r[k] == show(elements[k])
  {
    if elements == [] then [] else [show(elements[0])] + Shown(elements[1..], show)
  }

  function ToSeparated<T>(elements: seq<T>, separator: char, show: T -> string): string {
    Join(Shown(elements, show), separator)
  }

  // ---------------------------------------------------------------------------
  // Any element type
  // ---------------------------------------------------------------------------

  /** The element's text survives splitting and trimming and parses back to the element. */
  predicate Survives<T(==)>(e: T, separator: char, show: T -> string, parse: string -> Option<T>) {
    separator !in show(e) && Trimmed(show(e)) && parse(show(e)) == Some(e)
  }

  lemma {:induction false} ParseEach<T>(pieces: seq<string>, elements: seq<T>, parse: string -> Option<T>)
    requires |pieces| == |elements| && forall k :: 0 <= k < |pieces| ==> parse(Trim(pieces[k])) == Some(elements[k])
    ensures ParseAll(pieces, parse) == elements
  {
    hide Trim;
    if pieces != [] {
      ParseEach(pieces[1..], elements[1..], parse);
      assert elements == [elements[0]] + elements[1..];
    }
  }

  lemma ParseShown<T>(elements: seq<T>, show: T -> string, parse: string -> Option<T>)
    requires forall k :: 0 <= k < |elements| ==>
      Trimmed(show(elements[k])) && parse(show(elements[k])) == Some(elements[k])
    ensures ParseAll(Shown(elements, show), parse) == elements
  {
    hide ParseAll, TrimStart, TrimEnd;
    var pieces := Shown(elements, show);
    forall k | 0 <= k < |pieces| ensures parse(Trim(pieces[k])) == Some(elements[k]) {
      assert Trimmed(show(elements[k]));
    }
    ParseEach(pieces, elements, parse);
  }

  lemma JoinNotEmpty(parts: seq<string>, separator: char)
    ensures Join(parts, separator) == "" <==> parts == [] || parts == [""]
  {
    if |parts| > 1 {
      assert separator in Join(parts, separator);
    }
  }

  /** Reading undoes writing for surviving elements, unless the list is one element with empty text. */
  lemma ReadWritten<T>(elements: seq<T>, separator: char, show: T -> string, parse: string -> Option<T>)
    requires forall k :: 0 <= k < |elements| ==> Survives(elements[k], separator, show, parse)
    ensures FromSeparated(ToSeparated(elements, separator, show), separator, parse) == elements
            <==> Shown(elements, show) != [""]
  {
    var parts := Shown(elements, show);
    JoinNotEmpty(parts, separator);
    if parts != [] && parts != [""] {
      forall k | 0 <= k < |elements| ensures separator !in parts[k] && Trimmed(show(elements[k])) {
        assert Survives(elements[k], separator, show, parse);
      }
      SplitJoin(parts, separator);
      ParseShown(elements, show, parse);
    }
  }

  // ---------------------------------------------------------------------------
  // Reading any text
  // ---------------------------------------------------------------------------

  predicate AllWhite(s: string) {
    forall i :: 0 <= i < |s| ==> White(s[i])
  }

  lemma {:induction false} TrimStartPadding(a: string, s: string)
    requires AllWhite(a) && (s == "" || !White(s[0]))
    ensures TrimStart(a + s) == s
  {
    if a == "" {
      assert a + s == s;
    } else {
      assert (a + s)[0] == a[0] && (a + s)[1..] == a[1..] + s;
      TrimStartPadding(a[1..], s);
    }
  }

  lemma {:induction false} TrimEndPadding(s: string, b: string)
    requires AllWhite(b) && (s == "" || !White(s[|s| - 1]))
    ensures TrimEnd(s + b) == s
  {
    if b == "" {
      assert s + b == s;
    } else {
      var init := b[..|b| - 1];
      assert (s + b)[|s + b| - 1] == b[|b| - 1] && (s + b)[..|s + b| - 1] == s + init;
      TrimEndPadding(s, init);
    }
  }

  lemma {:induction false} TrimAllWhite(a: string)
    requires AllWhite(a)
    ensures TrimStart(a) == ""
  {
    if a != "" { TrimAllWhite(a[1..]); }
  }

  /** Trimming takes away the white space around a text, and nothing else. */
  lemma TrimPadding(a: string, s: string, b: string)
    requires AllWhite(a) && Trimmed(s) && AllWhite(b)
    ensures Trim(a + s + b) == s
  {
    if s == "" {
      TrimAllWhite(a + s + b);
    } else {
      assert a + s + b == a + (s + b) && (s + b)[0] == s[0];
      TrimStartPadding(a, s + b);
      TrimEndPadding(s, b);
    }
  }

  /** A text without the separator is read as what it parses to without the white space around it, if it parses. */
  lemma ReadPadded<T>(a: string, s: string, b: string, separator: char, parse: string -> Option<T>)
    requires AllWhite(a) && Trimmed(s) && AllWhite(b) && a + s + b != "" && separator !in a + s + b
    ensures FromSeparated(a + s + b, separator, parse) ==
            match parse(s) { case Some(e) => [e] case None => [] }
  {
    var text := a + s + b;
    TrimPadding(a, s, b);
    SplitPrefix(text, "", separator);
    assert text + "" == text && Split(text, separator) == [text];
    assert [text][1..] == [];
    hide Trim, Split, TrimStart, TrimEnd;
  }

  lemma ParseFirst<T>(pieces: seq<string>, parse: string -> Option<T>)
    requires pieces != []
    ensures ParseAll(pieces, parse) == ParseAll([pieces[0]], parse) + ParseAll(pieces[1..], parse)
  {
    hide Trim;
    assert [pieces[0]][1..] == [];
    var none: seq<string> := [];
    assert ParseAll(none, parse) == [];
  }

  lemma {:induction false} ParseParts<T>(a: seq<string>, b: seq<string>, parse: string -> Option<T>)
    ensures ParseAll(a + b, parse) == ParseAll(a, parse) + ParseAll(b, parse)
  {
    if a == [] {
      assert a + b == b;
    } else {
      assert (a + b)[0] == a[0] && (a + b)[1..] == a[1..] + b;
      hide *;
      ParseFirst(a, parse);
      ParseFirst(a + b, parse);
      ParseParts(a[1..], b, parse);
      JoinLists(ParseAll([a[0]], parse), ParseAll(a[1..], parse), ParseAll(b, parse));
    }
  }

  lemma JoinLists<T>(x: seq<T>, y: seq<T>, z: seq<T>)
    ensures x + (y + z) == x + y + z
  {
  }

  /** Texts on both sides of a separator are read one after the other. */
  lemma ReadBothSides<T>(s: string, t: string, separator: char, parse: string -> Option<T>)
    requires s != "" && t != ""
    ensures FromSeparated(s + [separator] + t, separator, parse) ==
            FromSeparated(s, separator, parse) + FromSeparated(t, separator, parse)
  {
    SplitBetween(s, t, separator);
    ParseParts(Split(s, separator), Split(t, separator), parse);
    hide Split, ParseAll;
  }

  // ---------------------------------------------------------------------------
  // Lists of texts
  // ---------------------------------------------------------------------------

  function AsText(s: string): Option<string> {
    Some(s)
  }

  function Itself(s: string): string {
    s
  }

  function Write(texts: seq<string>, separator: char): string {
    ToSeparated(texts, separator, Itself)
  }

  function Read(text: string, separator: char): seq<string> {
    FromSeparated(text, separator, AsText)
  }

  predicate Clean(texts: seq<string>, separator: char) {
    forall k :: 0 <= k < |texts| ==> separator !in texts[k] && Trimmed(texts[k])
  }

  lemma {:induction false} ParsedAreClean(pieces: seq<string>, separator: char)
    requires forall k :: 0 <= k < |pieces| ==> separator !in pieces[k]
    ensures Clean(ParseAll(pieces, AsText), separator)
  {
    if pieces != [] {
      ParsedAreClean(pieces[1..], separator);
    }
  }

  /** Whatever is read is trimmed and free of the separator. */
  lemma ReadIsClean(text: string, separator: char)
    ensures Clean(Read(text, separator), separator)
  {
    PiecesFree(text, separator);
    ParsedAreClean(Split(text, separator), separator);
  }

  /**
   * A list of texts is read back if and only if its texts are trimmed and
   * separator-free and it is not the list of one empty text.
   */
  lemma ReadBackIff(texts: seq<string>, separator: char)
    ensures Read(Write(texts, separator), separator) == texts <==> Clean(texts, separator) && texts != [""]
  {
    if Clean(texts, separator) {
      forall k | 0 <= k < |texts| ensures Survives(texts[k], separator, Itself, AsText) {}
      ReadWritten(texts, separator, Itself, AsText);
      assert Shown(texts, Itself) == texts;
    }
    ReadIsClean(Write(texts, separator), separator);
  }

  // ---------------------------------------------------------------------------
  // Written with one separator, read with another
  // ---------------------------------------------------------------------------

  lemma {:induction false} JoinFree(parts: seq<string>, written: char, read: char)
    requires written != read && forall k :: 0 <= k < |parts| ==> read !in parts[k]
    ensures read !in Join(parts, written)
  {
    if |parts| > 1 {
      JoinFree(parts[1..], written, read);
    }
  }

  /** At most one element comes back, whatever the element type. */
  lemma MixedReadsOne<T, U>(elements: seq<T>, written: char, read: char, show: T -> string, parse: string -> Option<U>)
    requires written != read && forall k :: 0 <= k < |elements| ==> read !in show(elements[k])
    ensures |FromSeparated(ToSeparated(elements, written, show), read, parse)| <= 1
  {
    var text := ToSeparated(elements, written, show);
    JoinFree(Shown(elements, show), written, read);
    SplitPrefix(text, "", read);
    assert text + "" == text;
  }

  /**
   * The update path writes codecs with a comma, rows are read with a bar: only
   * lists of at most one codec come back.
   */
  lemma MixedReadBackIff(texts: seq<string>, written: char, read: char)
    requires written != read
    ensures Read(Write(texts, written), read) == texts <==> |texts| <= 1 && Clean(texts, read) && texts != [""]
  {
    ReadIsClean(Write(texts, written), read);
    if Clean(texts, read) {
      MixedReadsOne(texts, written, read, Itself, AsText);
      if |texts| <= 1 {
        assert Shown(texts, Itself) == texts;
        assert Write(texts, written) == Write(texts, read);
        ReadBackIff(texts, read);
      }
    }
  }

  lemma CodecTexts()
    ensures ToSeparated(["h264", "aac"], ',', Itself) == "h264,aac" && Split("h264,aac", '|') == ["h264,aac"]
  {
    var parts := ["h264", "aac"];
    assert Shown(parts, Itself) == parts && parts[1..] == ["aac"];
    var text := "h264,aac";
    assert Join(parts, ',') == text;
    SplitPrefix(text, "", '|');
    assert text + "" == text;
  }

  /** Two codecs written with a comma come back as one when read with a bar. */
  lemma TwoCodecsExample()
    ensures Read(Write(["h264", "aac"], ','), '|') == ["h264,aac"] != ["h264", "aac"]
  {
    CodecTexts();
    hide Split, Trim;
    assert Trimmed("h264,aac");
    assert ["h264,aac"][1..] == [];
    assert ParseAll(["h264,aac"], AsText) == ["h264,aac"];
    assert |["h264,aac"]| != |["h264", "aac"]|;
  }
}
