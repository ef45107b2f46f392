/** The text detector's own logic around the OCR engine: the page-relative
    engine paths, the parsing of the `title` attributes of an hOCR
    document, and the conversion of its lines and words into detected
    texts. */
module TextDetector {
  import opened Wrappers
  import opened Geometry
  import opened Strings
  import opened Sequences
  import opened Paths
  import RectangleDetector

  // ---------------------------------------------------------------------
  // Numerals: the test `/^-?\d+(\.\d+)?$/` and `parseFloat` on its matches

  predicate IsDigit(c: char) {
    '0' <= c <= '9'
  }

  /** `\d+`. */
  predicate Digits(s: string) {
    |s| > 0 && forall i :: 0 <= i < |s| ==> IsDigit(s[i])
  }

  /** The index of the first c in s, or |s| when there is none. */
  function IndexOf(s: string, c: char): (k: nat)
    ensures k <= |s| && (k < |s| ==> s[k] == c) && forall i :: 0 <= i < k ==> s[i] != c
  {
    if |s| == 0 || s[0] == c then 0 else 1 + IndexOf(s[1..], c)
  }

  /** `\d+(\.\d+)?`: digits cannot hold a `.`, so the first `.` is the
      only place the optional fraction can start. */
  predicate IsUnsigned(s: string) {
    var k := IndexOf(s, '.');
    if k == |s| then Digits(s) else Digits(s[..k]) && Digits(s[k + 1..])
  }

  /** `-?\d+(\.\d+)?`. */
  predicate IsNumeral(s: string) {
    if |s| > 0 && s[0] == '-' then IsUnsigned(s[1..]) else IsUnsigned(s)
  }

  /** The value of a string of decimal digits. */
  function DigitsValue(s: string): nat
    requires forall i :: 0 <= i < |s| ==> IsDigit(s[i])
  {
    if |s| == 0 then 0
    else
      assert IsDigit(s[|s| - 1]);
      10 * DigitsValue(s[..|s| - 1]) + (s[|s| - 1] as int - '0' as int)
  }

  function Pow10(n: nat): (p: nat)
    ensures p > 0
  {
    if n == 0 then 1 else 10 * Pow10(n - 1)
  }

  function UnsignedValue(s: string): real
    requires IsUnsigned(s)
  {
    var k := IndexOf(s, '.');
    if k == |s| then DigitsValue(s) as real
    else DigitsValue(s[..k]) as real + DigitsValue(s[k + 1..]) as real / Pow10(|s| - k - 1) as real
  }

  /** `parseFloat` on a numeral, exactly. */
  function NumeralValue(s: string): real
    requires IsNumeral(s)
  {
    if |s| > 0 && s[0] == '-' then -UnsignedValue(s[1..]) else UnsignedValue(s)
  }

  /** The decimal digits of n, as JavaScript prints an integer. */
  function DecimalString(n: nat): (s: string)
    ensures |s| > 0 && forall i :: 0 <= i < |s| ==> IsDigit(s[i])
  {
    var d := ['0' + (n % 10) as char];
    if n < 10 then d else DecimalString(n / 10) + d
  }

  lemma {:induction false} DecimalStringValue(n: nat)
    ensures DigitsValue(DecimalString(n)) == n
  {
    var s := DecimalString(n);
    if n >= 10 {
      DecimalStringValue(n / 10);
      assert s[..|s| - 1] == DecimalString(n / 10);
    }
  }

  /** Every integer printed in decimal, with or without a minus sign, is a
      numeral, and `parseFloat` reads it back. */
  lemma IntegerNumeral(n: nat)
    ensures IsNumeral(DecimalString(n)) && NumeralValue(DecimalString(n)) == n as real
    ensures IsNumeral("-" + DecimalString(n)) && NumeralValue("-" + DecimalString(n)) == -(n as real)
  {
    var s := DecimalString(n);
    DecimalStringValue(n);
    assert IndexOf(s, '.') == |s|;
    assert ("-" + s)[1..] == s;
  }

  /** A numeral with a fraction: digits, a point and digits, read back as
      the integer part plus the fraction part over its power of ten. */
  lemma FractionNumeral(w: string, f: string)
    requires Digits(w) && Digits(f)
    ensures IsNumeral(w + "." + f)
    ensures NumeralValue(w + "." + f) == DigitsValue(w) as real + DigitsValue(f) as real / Pow10(|f|) as real
  {
    var s := w + "." + f;
    assert s[|w|] == '.';
    assert IndexOf(s, '.') == |w|;
    assert s[..|w|] == w && s[|w| + 1..] == f;
  }

  // ---------------------------------------------------------------------
  // Title attributes

  /** A part of an attribute: a number when it is a numeral, else the
      string. */
  datatype Token = Str(s: string) | Num(n: real)

  /** The value an attribute assigns: none, one part, or the list of the
      rest. */
  datatype Value = Null | Scalar(t: Token) | List(ts: seq<Token>)

  /** A record's attribute keys and values. */
  type Record = map<Token, Value>

  function ToToken(part: string): Token {
    if IsNumeral(part) then Num(NumeralValue(part)) else Str(part)
  }

  /** Non-empty, without spaces, and without white space at either end. */
  predicate IsWord(w: string) {
    w != "" && (forall j :: 0 <= j < |w| ==> w[j] != ' ') && !IsSpace(w[0]) && !IsSpace(w[|w| - 1])
  }

  /** The words of one attribute: split on spaces, trimmed, empty ones
      dropped. */
  function Words(attribute: string): seq<string> {
    Filter(NonEmpty, Map(Trim, Split(attribute, ' ')))
  }

  /** Every word of an attribute is a word: non-empty, without spaces, and
      without white space at either end. */
  lemma WordsShape(attribute: string)
    ensures forall k :: 0 <= k < |Words(attribute)| ==> IsWord(Words(attribute)[k])
  {
    var pieces := Split(attribute, ' ');
    var kept := Words(attribute);
    forall k | 0 <= k < |kept|
      ensures IsWord(kept[k])
    {
      KeptWord(pieces, kept[k]);
    }
  }

  /** A non-empty trimmed piece of a split on spaces is a word. */
  lemma KeptWord(pieces: seq<string>, w: string)
    requires forall i, j :: 0 <= i < |pieces| && 0 <= j < |pieces[i]| ==> pieces[i][j] != ' '
    requires w in Map(Trim, pieces) && w != ""
    ensures IsWord(w)
  {
    var m :| 0 <= m < |pieces| && Map(Trim, pieces)[m] == w;
    TrimmedPiece(pieces[m]);
  }

  /** A piece without spaces, trimmed, has no spaces and no white space at
      either end. */
  lemma TrimmedPiece(piece: string)
    requires forall j :: 0 <= j < |piece| ==> piece[j] != ' '
    ensures Trim(piece) == "" || IsWord(Trim(piece))
  {
    var i, j := TrimSlice(piece);
    TrimEnds(piece);
    assert forall q :: 0 <= q < |Trim(piece)| ==> Trim(piece)[q] == piece[i + q];
  }

  /** The tokens of the pieces of an attribute: each piece trimmed, the
      empty ones dropped, numerals read as numbers. */
  function Tokens(pieces: seq<string>): seq<Token> {
    if |pieces| == 0 then []
    else
      var part := Trim(pieces[0]);
      (if |part| > 0 then [ToToken(part)] else []) + Tokens(pieces[1..])
  }

  /** The parts of one attribute. */
  function Parts(attribute: string): seq<Token> {
    Tokens(Split(attribute, ' '))
  }

  /** The tokens are the source's pipeline of map, filter and map, done in
      one pass. */
  lemma {:induction false} TokensPipeline(pieces: seq<string>)
    ensures Tokens(pieces) == Map(ToToken, Filter(NonEmpty, Map(Trim, pieces)))
  {
    if |pieces| > 0 {
      TokensPipeline(pieces[1..]);
      PipelineCons(Trim, NonEmpty, ToToken, pieces);
    }
  }

  /** The parts are the attribute's words in order: numbers exactly where
      the word is a numeral, the word itself otherwise. */
  lemma PartsTokens(attribute: string)
    ensures |Parts(attribute)| == |Words(attribute)|
    ensures forall k :: 0 <= k < |Words(attribute)| ==>
      (Parts(attribute)[k].Num? <==> IsNumeral(Words(attribute)[k]))
      && (Parts(attribute)[k].Str? ==> Parts(attribute)[k].s == Words(attribute)[k] && IsWord(Parts(attribute)[k].s))
      && (Parts(attribute)[k].Num? ==> Parts(attribute)[k].n == NumeralValue(Words(attribute)[k]))
  {
    TokensPipeline(Split(attribute, ' '));
    WordsShape(attribute);
  }

  /** `title ? title.split(';') : []`. */
  function Attributes(title: Option<string>): seq<string> {
    if title.None? || title.value == "" then [] else Split(title.value, ';')
  }

  /** The key and value an attribute with these parts assigns, if any: the
      first part is the key; with no other part it is set to null, with
      one to that part, with more to the list of them. */
  function Entry(parts: seq<Token>): (e: Option<(Token, Value)>)
    ensures e.None? <==> |parts| == 0
    ensures e.Some? ==> e.value.0 == parts[0] && (e.value.1 == Null <==> |parts| == 1)
    ensures e.Some? && e.value.1.Scalar? ==> |parts| == 2 && e.value.1.t == parts[1]
    ensures e.Some? && e.value.1.List? ==> |parts| > 2 && e.value.1.ts == parts[1..]
  {
    if |parts| == 0 then None
    else if |parts| == 1 then Some((parts[0], Null))
    else if |parts| == 2 then Some((parts[0], Scalar(parts[1])))
    else Some((parts[0], List(parts[1..])))
  }

  function Apply(rec: Record, parts: seq<Token>): Record {
    var e := Entry(parts);
    if e.None? then rec else rec[e.value.0 := e.value.1]
  }

  /** The record after the first n attributes, given by their parts, have
      been applied in order. */
  function Applied(rec: Record, attributes: seq<seq<Token>>, n: nat): Record
    requires n <= |attributes|
  {
    if n == 0 then rec else Apply(Applied(rec, attributes, n - 1), attributes[n - 1])
  }

  /** The record after all the attributes of a title have been applied. */
  function ParsedTitle(rec: Record, title: Option<string>): Record {
    var attributes := Map(Parts, Attributes(title));
    Applied(rec, attributes, |attributes|)
  }

  /** A key no attribute names keeps its value, or its absence. */
  lemma {:induction false} AppliedUntouched(rec: Record, attributes: seq<seq<Token>>, n: nat, k: Token)
    requires n <= |attributes|
    requires forall j :: 0 <= j < n && |attributes[j]| > 0 ==> attributes[j][0] != k
    ensures (k in Applied(rec, attributes, n) <==> k in rec)
    ensures k in rec ==> Applied(rec, attributes, n)[k] == rec[k]
  {
    if n > 0 {
      AppliedUntouched(rec, attributes, n - 1, k);
    }
  }

  /** The last attribute naming a key decides its value. */
  lemma {:induction false} AppliedLastWins(rec: Record, attributes: seq<seq<Token>>, n: nat, j: nat)
    requires j < n <= |attributes| && |attributes[j]| > 0
    requires forall i :: j < i < n && |attributes[i]| > 0 ==> attributes[i][0] != attributes[j][0]
    ensures var k := attributes[j][0];
      k in Applied(rec, attributes, n) && Applied(rec, attributes, n)[k] == Entry(attributes[j]).value.1
  {
    if n - 1 > j {
      AppliedLastWins(rec, attributes, n - 1, j);
    }
  }

  /** Applying the attributes of a title to a record, as the source's loop
      does. */
  method ParseTitle(rec: Record, title: Option<string>) returns (r: Record)
    ensures r == ParsedTitle(rec, title)
  {
    var attributes := if title.Some? && title.value != "" then Split(title.value, ';') else [];
    assert attributes == Attributes(title);
    r := ApplyAttributes(rec, attributes, Parts);
  }

  /** The source's loop over the attributes of a title, each attribute cut
      into its parts by `split`. */
  method ApplyAttributes(rec: Record, attributes: seq<string>, split: string -> seq<Token>) returns (r: Record)
    ensures r == Applied(rec, Map(split, attributes), |attributes|)
  {
    ghost var allParts := Map(split, attributes);
    r := rec;
    for i := 0 to |attributes|
      invariant r == Applied(rec, allParts, i)
    {
      var parts := split(attributes[i]);
      r := ApplyParts(r, parts);
    }
  }

  /** One attribute of the source's loop: skipped without parts, else its
      first part set to null, the second part, or the list of the rest. */
  method ApplyParts(rec: Record, parts: seq<Token>) returns (r: Record)
    ensures r == Apply(rec, parts)
  {
    r := rec;
    if |parts| == 0 {
      return;
    } else if |parts| == 1 {
      r := r[parts[0] := Null];
    } else if |parts| == 2 {
      r := r[parts[0] := Scalar(parts[1])];
    } else {
      r := r[parts[0] := List(parts[1..])];
    }
  }

  // ---------------------------------------------------------------------
  // hOCR documents

  /** An `ocrx_word` element: its text and its title attribute. */
  datatype WordElement = WordElement(text: string, title: Option<string>)

  /** An `ocr_line` element: its words and its title attribute. */
  datatype LineElement = LineElement(words: seq<WordElement>, title: Option<string>)

  /** A parsed word: its text, and the attributes of its title. */
  datatype Word = Word(text: string, attributes: Record)

  /** A parsed line: its words, and the attributes of its title. */
  datatype HocrLine = HocrLine(words: seq<Word>, attributes: Record)

  function ParseWord(e: WordElement): Word {
    Word(e.text, ParsedTitle(map[], e.title))
  }

  function ParseLine(e: LineElement): (r: HocrLine)
    ensures |r.words| == |e.words| && forall i :: 0 <= i < |e.words| ==> r.words[i].text == e.words[i].text
  {
    HocrLine(Map(ParseWord, e.words), ParsedTitle(map[], e.title))
  }

  /** `_parseHOcr`: one parsed line per line element and one parsed word
      per word element, in document order. */
  method ParseHocr(lineElements: seq<LineElement>) returns (lines: seq<HocrLine>)
    ensures lines == Map(ParseLine, lineElements)
  {
    lines := [];
    for l := 0 to |lineElements|
      invariant lines == Map(ParseLine, lineElements[..l])
    {
      var line := ParseLineElement(lineElements[l]);
      MapSnoc(ParseLine, lineElements, l, lines, line);
      lines := lines + [line];
    }
    assert lineElements[..|lineElements|] == lineElements;
  }

  /** One line element of `_parseHOcr`: its words, then its title. */
  method ParseLineElement(e: LineElement) returns (line: HocrLine)
    ensures line == ParseLine(e)
  {
    var words := ParseWordElements(e.words);
    var attributes := ParseTitle(map[], e.title);
    line := HocrLine(words, attributes);
  }

  /** The words of one line element, in order. */
  method ParseWordElements(wordElements: seq<WordElement>) returns (words: seq<Word>)
    ensures words == Map(ParseWord, wordElements)
  {
    words := [];
    for w := 0 to |wordElements|
      invariant words == Map(ParseWord, wordElements[..w])
    {
      var word := ParseWordElement(wordElements[w]);
      MapSnoc(ParseWord, wordElements, w, words, word);
      words := words + [word];
    }
    assert wordElements[..|wordElements|] == wordElements;
  }

  /** One word element: its text and its title. */
  method ParseWordElement(e: WordElement) returns (word: Word)
    ensures word == ParseWord(e)
  {
    var attributes := ParseTitle(map[], e.title);
    word := Word(e.text, attributes);
  }

  // ---------------------------------------------------------------------
  // Detected texts

  /** A rectangle's left, right, top and bottom edges, as a DOM rectangle
      reports them whatever the signs of its width and height. */
  function Left(r: Rect): real {
    if r.width < 0.0 then r.x + r.width else r.x
  }

  function Right(r: Rect): real {
    if r.width < 0.0 then r.x else r.x + r.width
  }

  function Top(r: Rect): real {
    if r.height < 0.0 then r.y + r.height else r.y
  }

  function Bottom(r: Rect): real {
    if r.height < 0.0 then r.y else r.y + r.height
  }

  /** `_boundingBoxToCornerPoints`: top-left, top-right, bottom-right,
      bottom-left. */
  function BoxCorners(r: Rect): (c: seq<Point>)
    ensures |c| == 4 && c[0].x == c[3].x <= c[1].x == c[2].x && c[0].y == c[1].y <= c[2].y == c[3].y
    ensures c[2].x - c[0].x == (if r.width < 0.0 then -r.width else r.width)
    ensures c[2].y - c[0].y == (if r.height < 0.0 then -r.height else r.height)
  {
    [Point(Left(r), Top(r)), Point(Right(r), Top(r)), Point(Right(r), Bottom(r)), Point(Left(r), Bottom(r))]
  }

  /** For a box of positive size the corners start at its origin, and the
      rectangle detector's corner ordering keeps them as they are. */
  lemma BoxCornersOrdered(r: Rect)
    requires r.width > 0.0 && r.height > 0.0
    ensures BoxCorners(r) == [Point(r.x, r.y), Point(r.x + r.width, r.y), Point(r.x + r.width, r.y + r.height), Point(r.x, r.y + r.height)]
    ensures RectangleDetector.Ordered(BoxCorners(r)) == BoxCorners(r)
  {
    var corners := [Point(r.x, r.y), Point(r.x + r.width, r.y), Point(r.x + r.width, r.y + r.height), Point(r.x, r.y + r.height)];
    BoxCornersAtOrigin(r);
    RectangleDetector.OrderedRectangle(corners, r.x, r.y, r.x + r.width, r.y + r.height);
  }

  /** The corners of a box of positive size, from its origin. */
  lemma BoxCornersAtOrigin(r: Rect)
    requires r.width > 0.0 && r.height > 0.0
    ensures BoxCorners(r) == [Point(r.x, r.y), Point(r.x + r.width, r.y), Point(r.x + r.width, r.y + r.height), Point(r.x, r.y + r.height)]
  {
    assert Left(r) == r.x && Right(r) == r.x + r.width;
    assert Top(r) == r.y && Bottom(r) == r.y + r.height;
  }

  /** A detected word: its text, box, corners and `x_wconf`, absent when
      the word has none. */
  datatype DetectedWord = DetectedWord(rawValue: string, boundingBox: Rect, cornerPoints: seq<Point>, confidence: Option<Value>)

  /** A detected line of text; its confidence is the mean of its words'. */
  datatype DetectedText = DetectedText(boundingBox: Rect, cornerPoints: seq<Point>, rawValue: string, words: seq<DetectedWord>, confidence: Option<real>)

  /** The `bbox` attribute as x0 y0 x1 y1, read as a rectangle; absent
      when the record has no four numeric coordinates, where the source
      throws or computes with NaN. */
  function BoundingBox(rec: Record): (r: Option<Rect>)
    ensures r.Some? <==> (Str("bbox") in rec && rec[Str("bbox")].List? && |rec[Str("bbox")].ts| >= 4
      && forall i :: 0 <= i < 4 ==> rec[Str("bbox")].ts[i].Num?)
    ensures r.Some? ==> var ts := rec[Str("bbox")].ts;
      r.value.x == ts[0].n && r.value.y == ts[1].n && r.value.x + r.value.width == ts[2].n && r.value.y + r.value.height == ts[3].n
  {
    if Str("bbox") in rec && rec[Str("bbox")].List? then
      var ts := rec[Str("bbox")].ts;
      if |ts| >= 4 && ts[0].Num? && ts[1].Num? && ts[2].Num? && ts[3].Num? then
        Some(Rect(ts[0].n, ts[1].n, ts[2].n - ts[0].n, ts[3].n - ts[1].n))
      else None
    else None
  }

  /** The word's `x_wconf` attribute, absent when it has none. */
  function WordConfidence(w: Word): Option<Value> {
    if Str("x_wconf") in w.attributes then Some(w.attributes[Str("x_wconf")]) else None
  }

  function ConvertWord(w: Word): Option<DetectedWord> {
    var box := BoundingBox(w.attributes);
    if box.None? then None else Some(DetectedWord(w.text, box.value, BoxCorners(box.value), WordConfidence(w)))
  }

  function Text(w: Word): string {
    w.text
  }

  /** A numeric confidence, if the word has one. */
  function NumericConfidence(w: Word): Option<real> {
    var c := WordConfidence(w);
    if c.Some? && c.value.Scalar? && c.value.t.Num? then Some(c.value.t.n) else None
  }

  /** The sum and count of the numeric confidences of the first n words. */
  function ConfidenceSum(words: seq<Word>, n: nat): real
    requires n <= |words|
  {
    if n == 0 then 0.0
    else ConfidenceSum(words, n - 1) + (if NumericConfidence(words[n - 1]).Some? then NumericConfidence(words[n - 1]).value else 0.0)
  }

  function ConfidenceCount(words: seq<Word>, n: nat): (c: nat)
    requires n <= |words|
    ensures c <= n
  {
    if n == 0 then 0
    else ConfidenceCount(words, n - 1) + (if NumericConfidence(words[n - 1]).Some? then 1 else 0)
  }

  /** `confidenceCount > 0 ? confidenceSum / confidenceCount : null`. */
  function Mean(sum: real, count: nat): Option<real> {
    if count > 0 then Some(sum / count as real) else None
  }

  /** The mean of the words' numeric confidences; absent when none has
      one. */
  function MeanConfidence(words: seq<Word>): Option<real> {
    Mean(ConfidenceSum(words, |words|), ConfidenceCount(words, |words|))
  }

  /** The detected text of one line, or nothing when a box is missing. */
  function ConvertLine(line: HocrLine): Option<DetectedText> {
    var box := BoundingBox(line.attributes);
    var words := Map(ConvertWord, line.words);
    if box.None? || exists i :: 0 <= i < |words| && words[i].None? then None
    else
      Some(DetectedText(box.value, BoxCorners(box.value), Join(Map(Text, line.words), ' '),
        seq(|words|, i requires 0 <= i < |words| && words[i].Some? => words[i].value), MeanConfidence(line.words)))
  }

  /** A line converts exactly when it and its words have boxes; its words
      come out one for one and in order, and its raw value splits back into
      their texts when no text holds a space. */
  lemma ConvertLineShape(line: HocrLine)
    ensures ConvertLine(line).Some? <==>
      BoundingBox(line.attributes).Some? && forall i :: 0 <= i < |line.words| ==> BoundingBox(line.words[i].attributes).Some?
    ensures ConvertLine(line).Some? ==> var t := ConvertLine(line).value;
      |t.words| == |line.words|
      && (forall i :: 0 <= i < |t.words| ==> t.words[i].rawValue == line.words[i].text && t.words[i].confidence == WordConfidence(line.words[i]))
      && (|line.words| > 0 && (forall i, j :: 0 <= i < |line.words| && 0 <= j < |line.words[i].text| ==> line.words[i].text[j] != ' ')
          ==> Split(t.rawValue, ' ') == Map(Text, line.words))
  {
    ConvertLineSome(line);
    if ConvertLine(line).Some? {
      ConvertLineWords(line);
      if |line.words| > 0 && (forall i, j :: 0 <= i < |line.words| && 0 <= j < |line.words[i].text| ==> line.words[i].text[j] != ' ') {
        ConvertLineText(line);
      }
    }
  }

  /** A line converts exactly when it and its words have boxes. */
  lemma ConvertLineSome(line: HocrLine)
    ensures ConvertLine(line).Some? <==>
      BoundingBox(line.attributes).Some? && forall i :: 0 <= i < |line.words| ==> BoundingBox(line.words[i].attributes).Some?
  {
    var words := Map(ConvertWord, line.words);
    if BoundingBox(line.attributes).Some? && forall i :: 0 <= i < |line.words| ==> BoundingBox(line.words[i].attributes).Some? {
      assert forall i :: 0 <= i < |words| ==> words[i].Some?;
    }
  }

  /** The words of a converted line, one for one and in order. */
  lemma ConvertLineWords(line: HocrLine)
    requires ConvertLine(line).Some?
    ensures var t := ConvertLine(line).value;
      |t.words| == |line.words|
      && forall i :: 0 <= i < |t.words| ==> t.words[i].rawValue == line.words[i].text && t.words[i].confidence == WordConfidence(line.words[i])
  {
  }

  /** The raw value of a converted line splits back into its words' texts
      when no text holds a space. */
  lemma ConvertLineText(line: HocrLine)
    requires ConvertLine(line).Some? && |line.words| > 0
    requires forall i, j :: 0 <= i < |line.words| && 0 <= j < |line.words[i].text| ==> line.words[i].text[j] != ' '
    ensures Split(ConvertLine(line).value.rawValue, ' ') == Map(Text, line.words)
  {
    SplitJoin(Map(Text, line.words), ' ');
  }

  /** The mean confidence is absent exactly when no word has a numeric
      confidence, and otherwise lies between the smallest and the largest
      of them. */
  lemma MeanConfidenceBounds(words: seq<Word>, lo: real, hi: real)
    ensures MeanConfidence(words).None? <==> forall i :: 0 <= i < |words| ==> NumericConfidence(words[i]).None?
    ensures MeanConfidence(words).Some? && (forall i :: 0 <= i < |words| && NumericConfidence(words[i]).Some? ==> lo <= NumericConfidence(words[i]).value <= hi)
      ==> lo <= MeanConfidence(words).value <= hi
  {
    CountZero(words, |words|);
    if MeanConfidence(words).Some? && (forall i :: 0 <= i < |words| && NumericConfidence(words[i]).Some? ==> lo <= NumericConfidence(words[i]).value <= hi) {
      var count := ConfidenceCount(words, |words|);
      SumBounds(words, |words|, lo, hi);
      MeanBetween(ConfidenceSum(words, |words|), count as real, lo, hi);
    }
  }

  lemma {:induction false} CountZero(words: seq<Word>, n: nat)
    requires n <= |words|
    ensures ConfidenceCount(words, n) == 0 <==> forall i :: 0 <= i < n ==> NumericConfidence(words[i]).None?
  {
    if n > 0 {
      CountZero(words, n - 1);
    }
  }

  /** The sum of c confidences in [lo, hi] lies in [c lo, c hi]. */
  lemma {:induction false} SumBounds(words: seq<Word>, n: nat, lo: real, hi: real)
    requires n <= |words|
    requires forall i :: 0 <= i < n && NumericConfidence(words[i]).Some? ==> lo <= NumericConfidence(words[i]).value <= hi
    ensures var c := ConfidenceCount(words, n) as real;
      c * lo <= ConfidenceSum(words, n) <= c * hi
  {
    if n > 0 {
      SumBounds(words, n - 1, lo, hi);
      SumStep(words, n, lo, hi);
    }
  }

  /** The bounds carry over from the first n - 1 words to the first n. */
  lemma SumStep(words: seq<Word>, n: nat, lo: real, hi: real)
    requires 0 < n <= |words|
    requires NumericConfidence(words[n - 1]).Some? ==> lo <= NumericConfidence(words[n - 1]).value <= hi
    requires var c := ConfidenceCount(words, n - 1) as real;
      c * lo <= ConfidenceSum(words, n - 1) <= c * hi
    ensures var c := ConfidenceCount(words, n) as real;
      c * lo <= ConfidenceSum(words, n) <= c * hi
  {
    var v := NumericConfidence(words[n - 1]);
    BoundsStep(ConfidenceCount(words, n - 1) as real, ConfidenceSum(words, n - 1), lo, hi, v);
  }

  /** Adding a value between lo and hi, if there is one, to a sum of c
      such values keeps it between c * lo and c * hi. */
  lemma BoundsStep(c: real, sum: real, lo: real, hi: real, v: Option<real>)
    requires c * lo <= sum <= c * hi
    requires v.Some? ==> lo <= v.value <= hi
    ensures var c' := if v.Some? then c + 1.0 else c;
      c' * lo <= sum + (if v.Some? then v.value else 0.0) <= c' * hi
  {
    if v.Some? {
      assert (c + 1.0) * lo == c * lo + lo;
      assert (c + 1.0) * hi == c * hi + hi;
    }
  }

  lemma MeanBetween(sum: real, c: real, lo: real, hi: real)
    requires c > 0.0 && c * lo <= sum <= c * hi
    ensures lo <= sum / c <= hi
  {
    var m := sum / c;
    assert m * c == sum;
    if m < lo {
      LessScaled(m, lo, c);
    }
    if m > hi {
      LessScaled(hi, m, c);
    }
  }

  lemma LessScaled(a: real, b: real, c: real)
    requires a < b && c > 0.0
    ensures a * c < b * c
  {
  }

  /** `_convertHocrToDetectedTexts`, with the line confidence the mean of
      the words' numeric confidences. */
  method ConvertHocrToDetectedTexts(lines: seq<HocrLine>) returns (detectedTexts: Option<seq<DetectedText>>)
    ensures detectedTexts.Some? <==> forall i :: 0 <= i < |lines| ==> ConvertLine(lines[i]).Some?
    ensures detectedTexts.Some? ==> (|detectedTexts.value| == |lines|
      && forall i :: 0 <= i < |lines| ==> detectedTexts.value[i] == ConvertLine(lines[i]).value)
  {
    var texts: seq<DetectedText> := [];
    for l := 0 to |lines|
      invariant |texts| == l && forall i :: 0 <= i < l ==> ConvertLine(lines[i]).Some? && texts[i] == ConvertLine(lines[i]).value
    {
      var detectedText := ConvertHocrLine(lines[l]);
      if detectedText.None? {
        return None;
      }
      texts := texts + [detectedText.value];
    }
    detectedTexts := Some(texts);
  }

  /** One line of `_convertHocrToDetectedTexts`: the box, the words, and
      the confidence accumulated over the words that have a numeric one. */
  method ConvertHocrLine(line: HocrLine) returns (detectedText: Option<DetectedText>)
    ensures detectedText == ConvertLine(line)
  {
    var box := BoundingBox(line.attributes);
    if box.None? {
      return None;
    }
    var confidenceSum, confidenceCount := 0.0, 0;
    var words: seq<DetectedWord> := [];
    for w := 0 to |line.words|
      invariant |words| == w && forall i :: 0 <= i < w ==> ConvertWord(line.words[i]) == Some(words[i])
      invariant confidenceSum == ConfidenceSum(line.words, w) && confidenceCount == ConfidenceCount(line.words, w)
    {
      var newWord := ConvertWord(line.words[w]);
      if newWord.None? {
        MissingWordBox(line, w);
        return None;
      }
      var confidence := NumericConfidence(line.words[w]);
      if confidence.Some? {
        confidenceSum := confidenceSum + confidence.value;
        confidenceCount := confidenceCount + 1;
      }
      words := words + [newWord.value];
    }
    var mean := Mean(confidenceSum, confidenceCount);
    AssembledLine(line, words);
    detectedText := Some(DetectedText(box.value, BoxCorners(box.value), Join(Map(Text, line.words), ' '), words, mean));
  }

  /** A line with a word that has no box does not convert. */
  lemma MissingWordBox(line: HocrLine, w: nat)
    requires w < |line.words| && ConvertWord(line.words[w]).None?
    ensures ConvertLine(line).None?
  {
    assert Map(ConvertWord, line.words)[w].None?;
  }

  /** A line with a box whose words all convert, in order, converts to them. */
  lemma AssembledLine(line: HocrLine, words: seq<DetectedWord>)
    requires BoundingBox(line.attributes).Some?
    requires |words| == |line.words| && forall i :: 0 <= i < |words| ==> ConvertWord(line.words[i]) == Some(words[i])
    ensures var box := BoundingBox(line.attributes).value;
      ConvertLine(line) == Some(DetectedText(box, BoxCorners(box), Join(Map(Text, line.words), ' '), words, MeanConfidence(line.words)))
  {
    var converted := Map(ConvertWord, line.words);
    assert forall i :: 0 <= i < |converted| ==> converted[i] == Some(words[i]);
    assert words == seq(|converted|, i requires 0 <= i < |converted| && converted[i].Some? => converted[i].value);
  }

  /** A confidence as a number, zero when it is not one. */
  function ConfidenceNumber(c: Option<Value>): real {
    if c.Some? && c.value.Scalar? && c.value.t.Num? then c.value.t.n else 0.0
  }

  /** The fields of the word records the source builds. */
  const WordFields: set<string> := {"rawValue", "boundingBox", "_confidence", "cornerPoints"}

  /** The line as the source converts it: the confidence is accumulated
      only for words holding a `confidence` field, which none does, so it
      is always null. */
  method ConvertHocrLineAsWritten(line: HocrLine) returns (detectedText: Option<DetectedText>)
    ensures detectedText.Some? <==> ConvertLine(line).Some?
    ensures detectedText.Some? ==> detectedText.value == ConvertLine(line).value.(confidence := None)
  {
    var box := BoundingBox(line.attributes);
    if box.None? {
      return None;
    }
    var confidenceSum, confidenceCount := 0.0, 0;
    var words: seq<DetectedWord> := [];
    for w := 0 to |line.words|
      invariant |words| == w && forall i :: 0 <= i < w ==> ConvertWord(line.words[i]) == Some(words[i])
      invariant confidenceCount == 0
    {
      var newWord := ConvertWord(line.words[w]);
      if newWord.None? {
        MissingWordBox(line, w);
        return None;
      }
      var word := newWord.value;
      if "confidence" in WordFields {
        confidenceSum := confidenceSum + ConfidenceNumber(word.confidence);
        confidenceCount := confidenceCount + 1;
      }
      words := words + [newWord.value];
    }
    var mean := Mean(confidenceSum, confidenceCount);
    AssembledLine(line, words);
    detectedText := Some(DetectedText(box.value, BoxCorners(box.value), Join(Map(Text, line.words), ' '), words, mean));
  }

  /** A one-word line whose word has confidence 90: the line's confidence
      should be 90, where the source reports null. */
  lemma ConfidenceFinding()
    ensures var box := map[Str("bbox") := List([Num(0.0), Num(0.0), Num(10.0), Num(10.0)])];
      var line := HocrLine([Word("a", box[Str("x_wconf") := Scalar(Num(90.0))])], box);
      ConvertLine(line).Some? && ConvertLine(line).value.confidence == Some(90.0)
  {
    var box := map[Str("bbox") := List([Num(0.0), Num(0.0), Num(10.0), Num(10.0)])];
    var word := Word("a", box[Str("x_wconf") := Scalar(Num(90.0))]);
    var line := HocrLine([word], box);
    assert Str("bbox") != Str("x_wconf");
    assert BoundingBox(word.attributes).Some?;
    assert NumericConfidence(word) == Some(90.0);
    assert ConfidenceCount(line.words, 1) == 1 && ConfidenceSum(line.words, 1) == 90.0;
  }

  // ---------------------------------------------------------------------
  // The detector

  /** The engine's files, relative to this script. */
  const DefaultTesseractPaths: map<string, string> := map[
    "workerPath" := "./depends/worker-6.0.0.min.js",
    "langPath" := "./depends",
    "corePath" := "./depends/tesseract-core-simd-lstm-6.0.0.wasm.js"]

  const TesseractPathKeys: seq<string> := ["workerPath", "langPath", "corePath"]

  /** The engine paths after the first i keys have been resolved and made
      relative to the page. */
  predicate ResolvedUpTo(paths: map<string, string>, i: nat, resolve: string -> string, base: string) {
    i <= |TesseractPathKeys| && paths.Keys == DefaultTesseractPaths.Keys
    && forall key :: key in paths ==>
      paths[key] == if key in TesseractPathKeys[..i] then RelativePath(resolve(DefaultTesseractPaths[key]), base) else DefaultTesseractPaths[key]
  }

  /** Resolving the i-th key resolves one more. */
  lemma ResolveStep(paths: map<string, string>, i: nat, resolve: string -> string, base: string, value: string)
    requires i < |TesseractPathKeys| && ResolvedUpTo(paths, i, resolve, base)
    requires value == RelativePath(resolve(paths[TesseractPathKeys[i]]), base)
    ensures ResolvedUpTo(paths[TesseractPathKeys[i] := value], i + 1, resolve, base)
  {
    var key := TesseractPathKeys[i];
    assert TesseractPathKeys[..i + 1] == TesseractPathKeys[..i] + [key];
    assert key !in TesseractPathKeys[..i];
  }

  /** Once every key is resolved, every path is. */
  lemma ResolvedAll(paths: map<string, string>, resolve: string -> string, base: string)
    requires ResolvedUpTo(paths, |TesseractPathKeys|, resolve, base)
    ensures paths.Keys == DefaultTesseractPaths.Keys
    ensures forall key :: key in paths ==> paths[key] == RelativePath(resolve(DefaultTesseractPaths[key]), base)
  {
    assert TesseractPathKeys[..3] == TesseractPathKeys;
  }

  class TextDetector {
    var langs: string
    var tesseractPaths: map<string, string>

    /** The options with `langs` defaulting to English, and every engine
        path resolved against this script's URL and made relative to the
        page. */
    constructor (langs: Option<string>, resolve: string -> string, base: string)
      ensures this.langs == (if langs.Some? then langs.value else "eng")
      ensures tesseractPaths.Keys == DefaultTesseractPaths.Keys
      ensures forall key :: key in tesseractPaths ==> tesseractPaths[key] == RelativePath(resolve(DefaultTesseractPaths[key]), base)
    {
      this.langs := if langs.Some? then langs.value else "eng";
      var paths := DefaultTesseractPaths;
      for i := 0 to |TesseractPathKeys|
        invariant ResolvedUpTo(paths, i, resolve, base)
      {
        var key := TesseractPathKeys[i];
        var value := paths[key];
        value := resolve(value);
        value := Relativise(value, base);
        ResolveStep(paths, i, resolve, base, value);
        paths := paths[key := value];
      }
      ResolvedAll(paths, resolve, base);
      tesseractPaths := paths;
    }
  }
}
