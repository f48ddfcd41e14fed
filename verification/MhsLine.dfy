// tools/mhs.py, class MHSLine: one line of a hardware specification. The line is cut up with split and join and
// strip; printing it and parsing the result gives the same line back.
module MhsLine {
  import opened Words
  import opened PyString

  type Pair = (string, string)

  /** `num` is the position in the file it was read from; printing ignores it. */
  datatype Line = Line(kind: string, content: seq<Pair>, num: nat)

  // ---- Parsing ----

  /** Keys and values of one comma separated part, before it is checked that there are two of them. */
  function Pieces(part: string): seq<string> { Map(Strip, SplitOn(part, '=')) }

  function Table(s: string): seq<seq<string>> { Map(Pieces, SplitOn(s, ',')) }

  /** Every part has exactly one '='. */
  predicate Paired(rows: seq<seq<string>>) { forall i | 0 <= i < |rows| :: |rows[i]| == 2 }

  function AsPairs(rows: seq<seq<string>>): seq<Pair>
    requires Paired(rows)
  {
    seq(|rows|, i requires 0 <= i < |rows| => (rows[i][0], rows[i][1]))
  }

  /** The line made of these words; None: an exception is raised. */
  function FromWords(ws: seq<string>, num: nat): (r: Option<Line>)
    ensures r.Some? ==> r.value.content != []
  {
    if ws == [] then None
    else
      var rows := Table(Join(ws[1..]));
      if Paired(rows) then Some(Line(ws[0], AsPairs(rows), num)) else None
  }

  function ParseLine(s: string, num: nat): Option<Line> { FromWords(Split(s), num) }

  // ---- Printing ----

  function PrintPair(p: Pair): string { p.0 + " = " + p.1 }

  function MorePairs(ps: seq<Pair>): string {
    if ps == [] then "" else ", " + PrintPair(ps[0]) + MorePairs(ps[1..])
  }

  function Body(ps: seq<Pair>): string
    requires ps != []
  {
    PrintPair(ps[0]) + MorePairs(ps[1..])
  }

  function PrintLine(l: Line): string
    requires l.content != []
  {
    l.kind + " " + Body(l.content)
  }

  // ---- Fields in normal form ----

  /** The fields of a part, and of the whole line, up to white space. */
  function Row(part: string): seq<string> { Map(Norm, SplitOn(part, '=')) }

  function Rows(s: string): seq<seq<string>> { Map(Row, SplitOn(s, ',')) }

  lemma PiecesIgnoreEnds()
    ensures IgnoresEnds(Pieces)
  {
    StripIgnoresEnds();
    forall x, b | Space(b) ensures Pieces([b] + x) == Pieces(x) && Pieces(x + [b]) == Pieces(x) {
      PartsIgnoreFront(Strip, '=', x, b);
      PartsIgnoreBack(Strip, '=', x, b);
    }
  }

  lemma TableIgnoresEnds()
    ensures IgnoresEnds(Table)
  {
    PiecesIgnoreEnds();
    forall x, b | Space(b) ensures Table([b] + x) == Table(x) && Table(x + [b]) == Table(x) {
      PartsIgnoreFront(Pieces, ',', x, b);
      PartsIgnoreBack(Pieces, ',', x, b);
    }
  }

  lemma PiecesOfCollapse(part: string)
    ensures Pieces(Collapse(part)) == Row(part)
  {
    SplitOnCollapse(part, '=');
  }

  /** Splitting a text into words, joining them and cutting the result up is the same as cutting up the text. */
  lemma TableOfWords(s: string)
    ensures Table(Join(Split(s))) == Rows(s)
  {
    JoinSplit(s);
    TableIgnoresEnds();
    EndsOfStrip(Table, Collapse(s));
    SplitOnCollapse(s, ',');
    var parts := SplitOn(s, ',');
    forall i | 0 <= i < |parts| ensures Pieces(Collapse(parts[i])) == Row(parts[i]) {
      PiecesOfCollapse(parts[i]);
    }
    hide SplitOn, Strip, Collapse, Pieces, Row, IgnoresEnds;
  }

  /** A key or value as the parser returns it. */
  predicate IsField(f: string) { Norm(f) == f && ',' !in f && '=' !in f }

  /** A line as the parser returns it. */
  predicate IsLine(l: Line) {
    && IsWord(l.kind)
    && l.content != []
    && forall i | 0 <= i < |l.content| :: IsField(l.content[i].0) && IsField(l.content[i].1)
  }

  lemma FieldOfPart(part: string, k: nat)
    requires ',' !in part && k < |Row(part)|
    ensures IsField(Row(part)[k])
  {
    var y := SplitOn(part, '=')[k];
    SplitOnChars(part, '=');
    assert y in SplitOn(part, '=');
    NormIdempotent(y);
    NormChars(y);
  }

  /** The words behind the first one are the words of some text. */
  lemma RestOfWords(s: string) returns (u: string)
    requires Split(s) != []
    ensures Split(s)[1..] == Split(u)
  {
    StripFirst(s);
    EndsStripped(s);
    var w, v := FirstWord(Strip(s));
    hide Split, Strip, IsWord, Space;
    WordOf(w, v);
    u := v;
  }

  /** Everything the parser accepts is in normal form. */
  lemma ParsedIsLine(s: string, num: nat)
    ensures ParseLine(s, num).Some? ==> IsLine(ParseLine(s, num).value)
  {
    if ParseLine(s, num).Some? {
      var l := ParseLine(s, num).value;
      var u := RestOfWords(s);
      TableOfWords(u);
      var rows := Rows(u);
      forall i | 0 <= i < |rows| ensures IsField(l.content[i].0) && IsField(l.content[i].1) {
        var part := SplitOn(u, ',')[i];
        SplitOnChars(u, ',');
        assert part in SplitOn(u, ',');
        FieldOfPart(part, 0);
        FieldOfPart(part, 1);
      }
    }
  }

  // ---- Printing and parsing again ----

  lemma NormOfEnds(pre: string, k: string)
    requires pre == "" || pre == " "
    requires Norm(k) == k
    ensures Norm(pre + k + " ") == k && Norm(" " + k) == k
  {
    NormIgnoresEnds();
    hide Norm;
    assert Norm(k + " ") == Norm(k) && Norm(" " + k) == Norm(k);
    assert Norm(" " + (k + " ")) == Norm(k + " ");
    assert pre == "" ==> pre + k + " " == k + " ";
    assert pre == " " ==> pre + k + " " == " " + (k + " ");
  }

  lemma RowOfPair(pre: string, p: Pair)
    requires pre == "" || pre == " "
    requires IsField(p.0) && IsField(p.1)
    ensures Row(pre + PrintPair(p)) == [p.0, p.1]
    ensures ',' !in pre + PrintPair(p)
  {
    hide Norm, SplitOn;
    var a, b := pre + p.0 + " ", " " + p.1;
    assert pre + PrintPair(p) == a + ['='] + b;
    SplitOnFirst(a, '=', b);
    SplitOnNothing(b, '=');
    NormOfEnds(pre, p.0);
    NormOfEnds("", p.1);
  }

  lemma BodyStep(ps: seq<Pair>)
    requires |ps| > 1
    ensures Body(ps) == PrintPair(ps[0]) + ([','] + (" " + Body(ps[1..])))
  {
    hide PrintPair;
    var q := ps[1..];
    assert MorePairs(q) == ", " + PrintPair(q[0]) + MorePairs(q[1..]);
    assert ", " == [','] + " ";
  }

  lemma AsPairsStep(p: Pair, rows: seq<seq<string>>)
    requires Paired(rows)
    ensures Paired([[p.0, p.1]] + rows) && AsPairs([[p.0, p.1]] + rows) == [p] + AsPairs(rows)
  {
  }

  lemma {:induction false} RowsOfBody(pre: string, ps: seq<Pair>)
    requires pre == "" || pre == " "
    requires ps != [] && forall i | 0 <= i < |ps| :: IsField(ps[i].0) && IsField(ps[i].1)
    ensures Paired(Rows(pre + Body(ps))) && AsPairs(Rows(pre + Body(ps))) == ps
    decreases |ps|
  {
    hide Row, IsField, PrintPair, SplitOn;
    RowOfPair(pre, ps[0]);
    var a := pre + PrintPair(ps[0]);
    if |ps| == 1 {
      assert pre + Body(ps) == a;
      SplitOnNothing(a, ',');
    } else {
      var rest := " " + Body(ps[1..]);
      BodyStep(ps);
      hide Body;
      Assoc(pre, PrintPair(ps[0]), [','] + rest);
      Assoc(a, [','], rest);
      RowsOfBody(" ", ps[1..]);
      SplitOnFirst(a, ',', rest);
      assert Rows(a + [','] + rest) == [Row(a)] + Rows(rest);
      hide Rows, AsPairs, Paired;
      AsPairsStep(ps[0], Rows(rest));
      assert ps == [ps[0]] + ps[1..];
    }
  }

  /** What a line looks like to the parser once it is printed. */
  lemma WordsOfPrinted(l: Line)
    requires IsLine(l)
    ensures Split(PrintLine(l)) == [l.kind] + Split(Body(l.content))
  {
    var body := Body(l.content);
    assert PrintLine(l) == l.kind + (" " + body);
    WordOf(l.kind, " " + body);
    SplitBlank(' ', body);
  }

  /** Parsing undoes printing, for every line a parser can return. */
  lemma ParsePrint(l: Line, num: nat)
    requires IsLine(l)
    ensures ParseLine(PrintLine(l), num) == Some(l.(num := num))
  {
    WordsOfPrinted(l);
    var body := Body(l.content);
    TableOfWords(body);
    RowsOfBody("", l.content);
    assert "" + body == body;
    hide Rows, Body, Split, Table;
  }

  /** One line of text: what was parsed is printed in a form that parses to the same again. */
  lemma ParsePrintParse(s: string, num: nat)
    requires ParseLine(s, num).Some?
    ensures ParseLine(PrintLine(ParseLine(s, num).value), num) == ParseLine(s, num)
  {
    ParsedIsLine(s, num);
    ParsePrint(ParseLine(s, num).value, num);
  }
}
