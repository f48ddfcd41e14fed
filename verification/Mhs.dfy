// tools/mhs.py, classes MHSPCore and MHS: a hardware specification is a list of toplevel lines and a list of
// BEGIN ... END blocks. Parsing and printing undo each other.
module Mhs {
  import opened Words
  import opened PyString
  import opened MhsLine

  /** A block; the instance name is an attribute that exists only once a PARAMETER INSTANCE line was seen. */
  datatype PCore = PCore(ipName: string, instance: Option<string>, content: seq<Line>)

  datatype File = File(toplevel: seq<Line>, pcores: seq<PCore>)

  /** The parser between two lines; pcore is the block that has begun and not ended. */
  datatype Reader = Reader(file: File, pcore: Option<PCore>)

  predicate IsInstance(l: Line)
    requires l.content != []
  {
    l.kind == "PARAMETER" && l.content[0].0 == "INSTANCE"
  }

  function Added(p: PCore, l: Line): PCore
    requires l.content != []
  {
    if IsInstance(l) then p.(instance := Some(l.content[0].1)) else p.(content := p.content + [l])
  }

  // ---- Parsing ----

  /** Neither blank nor a comment */
  predicate Significant(ws: seq<string>) { ws != [] && ws[0] != [] && ws[0][0] != '#' }

  /** One line; None: an exception is raised. */
  function Feed(r: Reader, line: string, num: nat): Option<Reader> {
    var ws := Split(line);
    if !Significant(ws) then Some(r)
    else if r.pcore.None? then
      if ws[0] == "BEGIN" then Some(r.(pcore := Some(PCore(Join(ws[1..]), None, []))))
      else
        match FromWords(ws, num)
        case None => None
        case Some(l) => Some(r.(file := r.file.(toplevel := r.file.toplevel + [l])))
    else if ws[0] == "END" then Some(Reader(r.file.(pcores := r.file.pcores + [r.pcore.value]), None))
    else
      match FromWords(ws, num)
      case None => None
      case Some(l) => Some(r.(pcore := Some(Added(r.pcore.value, l))))
  }

  /** Length of the first line with its newline */
  function LineLength(text: string): (n: nat)
    ensures n <= |text| && (text != [] ==> n > 0)
  {
    if text == [] then 0 else if text[0] == '\n' then 1 else 1 + LineLength(text[1..])
  }

  /** The rest of the file from line `num` on; at the end no block may be open. */
  function ReadText(r: Reader, text: string, num: nat): Option<File>
    decreases |text|
  {
    if text == [] then if r.pcore.None? then Some(r.file) else None
    else
      var n := LineLength(text);
      match Feed(r, text[..n], num)
      case None => None
      case Some(r') => ReadText(r', text[n..], num + 1)
  }

  const START := Reader(File([], []), None)

  function Parse(text: string): Option<File> { ReadText(START, text, 1) }

  // ---- Printing ----

  /** Every block has an INSTANCE; otherwise printing raises an exception. */
  predicate Printable(f: File) {
    && HasContent(f.toplevel)
    && forall i | 0 <= i < |f.pcores| :: PrintablePCore(f.pcores[i])
  }

  predicate PrintablePCore(p: PCore) {
    p.instance.Some? && HasContent(p.content)
  }

  predicate HasContent(ls: seq<Line>) { forall i | 0 <= i < |ls| :: ls[i].content != [] }

  function PrintLines(indent: string, ls: seq<Line>): string
    requires HasContent(ls)
  {
    if ls == [] then "" else indent + PrintLine(ls[0]) + "\n" + PrintLines(indent, ls[1..])
  }

  function PrintPCore(p: PCore): string
    requires PrintablePCore(p)
  {
    "BEGIN " + p.ipName + "\n" +
    "\tPARAMETER INSTANCE = " + p.instance.value + "\n" +
    PrintLines("\t", p.content) +
    "END\n"
  }

  function PrintPCores(ps: seq<PCore>): string
    requires forall i | 0 <= i < |ps| :: PrintablePCore(ps[i])
  {
    if ps == [] then "" else "\n" + PrintPCore(ps[0]) + PrintPCores(ps[1..])
  }

  function PrintFile(f: File): string
    requires Printable(f)
  {
    PrintLines("", f.toplevel) + PrintPCores(f.pcores)
  }

  // ---- What the parser can return ----

  predicate TopOk(l: Line) { IsLine(l) && l.kind[0] != '#' && l.kind != "BEGIN" }

  predicate ContentOk(l: Line) { IsLine(l) && l.kind[0] != '#' && l.kind != "END" && !IsInstance(l) }

  predicate AllTop(ls: seq<Line>) { HasContent(ls) && forall i | 0 <= i < |ls| :: TopOk(ls[i]) }

  predicate AllContent(ls: seq<Line>) { HasContent(ls) && forall i | 0 <= i < |ls| :: ContentOk(ls[i]) }

  predicate PCoreOk(p: PCore) {
    && Norm(p.ipName) == p.ipName
    && (p.instance.Some? ==> IsField(p.instance.value))
    && AllContent(p.content)
  }

  predicate AllPCores(ps: seq<PCore>) { forall i | 0 <= i < |ps| :: PCoreOk(ps[i]) }

  predicate FileOk(f: File) {
    && AllTop(f.toplevel)
    && AllPCores(f.pcores)
  }

  predicate ReaderOk(r: Reader) { FileOk(r.file) && (r.pcore.Some? ==> PCoreOk(r.pcore.value)) }

  lemma AddKeepsOk(p: PCore, l: Line)
    requires PCoreOk(p) && IsLine(l) && l.kind[0] != '#' && l.kind != "END"
    ensures PCoreOk(Added(p, l))
  {
    InstanceIsField(l);
    hide IsField, IsWord, Norm;
  }

  lemma AppendKeepsOk(f: File, l: Line, p: PCore)
    requires FileOk(f)
    ensures TopOk(l) ==> FileOk(f.(toplevel := f.toplevel + [l]))
    ensures PCoreOk(p) ==> FileOk(f.(pcores := f.pcores + [p]))
  {
    hide IsWord, IsField, PCoreOk;
  }

  lemma BegunIsOk(ip: string)
    requires Norm(ip) == ip
    ensures PCoreOk(PCore(ip, None, []))
  {
  }

  lemma FeedKeepsOk(r: Reader, line: string, num: nat)
    requires ReaderOk(r)
    ensures Feed(r, line, num).Some? ==> ReaderOk(Feed(r, line, num).value)
  {
    var ws := Split(line);
    if Significant(ws) {
      ParsedIsLine(line, num);
      NormOfRest(line);
      BegunIsOk(Join(ws[1..]));
      hide Norm, Join, Split, Table, PCoreOk, FileOk, IsLine;
      if r.pcore.Some? && ws[0] == "END" {
        AppendKeepsOk(r.file, Line([], [], 0), r.pcore.value);
      } else if FromWords(ws, num).Some? {
        var l := FromWords(ws, num).value;
        if r.pcore.None? {
          AppendKeepsOk(r.file, l, PCore("", None, []));
        } else if ws[0] != "END" {
          AddKeepsOk(r.pcore.value, l);
        }
      }
    }
  }

  lemma InstanceIsField(l: Line)
    requires IsLine(l)
    ensures IsField(l.content[0].1)
  {
  }

  lemma NormOfRest(line: string)
    requires Split(line) != []
    ensures Norm(Join(Split(line)[1..])) == Join(Split(line)[1..])
  {
    var u := RestOfWords(line);
    JoinSplit(u);
    NormIdempotent(u);
  }

  lemma {:induction false} ReadKeepsOk(r: Reader, text: string, num: nat)
    requires ReaderOk(r)
    ensures ReadText(r, text, num).Some? ==> FileOk(ReadText(r, text, num).value)
    decreases |text|
  {
    if text != [] {
      var n := LineLength(text);
      FeedKeepsOk(r, text[..n], num);
      var next := Feed(r, text[..n], num);
      hide Feed, ReaderOk, LineLength, FileOk;
      if next.Some? {
        ReadKeepsOk(next.value, text[n..], num + 1);
      }
    }
  }

  // ---- Reading printed text ----

  lemma {:induction false} LineLengthOf(line: string, rest: string)
    requires '\n' !in line
    ensures LineLength(line + "\n" + rest) == |line| + 1
  {
    var s := line + "\n" + rest;
    if line != [] {
      assert s[1..] == line[1..] + "\n" + rest;
      LineLengthOf(line[1..], rest);
    }
  }

  /** A line and what follows it. */
  function Then(line: string, rest: string): string { line + "\n" + rest }

  lemma ReadLine(r: Reader, line: string, rest: string, num: nat)
    requires '\n' !in line
    ensures ReadText(r, Then(line, rest), num) ==
            match Feed(r, line + "\n", num)
            case None => None
            case Some(r') => ReadText(r', rest, num + 1)
  {
    LineLengthOf(line, rest);
    var s := line + "\n" + rest;
    assert s[..|line| + 1] == line + "\n" && s[|line| + 1..] == rest;
    hide Feed, LineLength;
  }

  /** Fields and words hold no newline. */
  lemma NoNewline(f: string)
    requires Norm(f) == f || NoSpace(f)
    ensures '\n' !in f
  {
    NormChars(f);
  }

  lemma {:induction false} NoNewlineInPairs(ps: seq<Pair>)
    requires forall i | 0 <= i < |ps| :: IsField(ps[i].0) && IsField(ps[i].1)
    ensures '\n' !in MorePairs(ps)
    ensures ps != [] ==> '\n' !in Body(ps)
  {
    if ps != [] {
      NoNewlineInPairs(ps[1..]);
      NoNewline(ps[0].0);
      NoNewline(ps[0].1);
      hide Norm;
    }
  }

  lemma NoNewlineInLine(l: Line)
    requires IsLine(l)
    ensures '\n' !in PrintLine(l)
  {
    NoNewlineInPairs(l.content);
    NoNewline(l.kind);
    hide Norm, Body, Space;
  }

  /** The words of a printed line with its indentation and newline. */
  lemma WordsOfText(indent: string, text: string)
    requires indent == "" || indent == "\t"
    ensures Split(indent + text + "\n") == Split(text)
  {
    SplitIgnoresEnds();
    assert Space('\t') && Space('\n');
    hide Split, Space;
    assert Split(indent + text + ['\n']) == Split(indent + text);
    assert indent == "" ==> indent + text == text;
    assert indent == "\t" ==> indent + text == ['\t'] + text;
  }

  /** The lines ls numbered from num on. */
  function Number(ls: seq<Line>, num: nat): seq<Line> {
    if ls == [] then [] else [ls[0].(num := num)] + Number(ls[1..], num + 1)
  }

  lemma WordsOfLine(indent: string, l: Line, num: nat)
    requires IsLine(l) && (indent == "" || indent == "\t")
    ensures var ws := Split(indent + PrintLine(l) + "\n");
            ws != [] && ws[0] == l.kind && FromWords(ws, num) == Some(l.(num := num))
    ensures '\n' !in indent + PrintLine(l)
  {
    WordsOfText(indent, PrintLine(l));
    WordsOfPrinted(l);
    ParsePrint(l, num);
    NoNewlineInLine(l);
    hide Split, PrintLine, IsLine;
  }

  lemma FeedTop(r: Reader, l: Line, num: nat)
    requires r.pcore.None? && TopOk(l)
    ensures Feed(r, "" + PrintLine(l) + "\n", num) == Some(WithTop(r, [l.(num := num)]))
  {
    WordsOfLine("", l, num);
    hide Split, PrintLine, IsLine, FromWords;
  }

  function WithTop(r: Reader, ls: seq<Line>): Reader {
    r.(file := r.file.(toplevel := r.file.toplevel + ls))
  }

  function WithContent(r: Reader, ls: seq<Line>): Reader
    requires r.pcore.Some?
  {
    r.(pcore := Some(r.pcore.value.(content := r.pcore.value.content + ls)))
  }

  lemma FeedContent(r: Reader, l: Line, num: nat)
    requires r.pcore.Some? && ContentOk(l)
    ensures Feed(r, "\t" + PrintLine(l) + "\n", num) == Some(WithContent(r, [l.(num := num)]))
  {
    WordsOfLine("\t", l, num);
    hide Split, PrintLine, IsLine, FromWords;
  }

  lemma PrintLinesStep(indent: string, ls: seq<Line>, rest: string)
    requires HasContent(ls) && ls != []
    ensures PrintLines(indent, ls) + rest
         == Then(indent + PrintLine(ls[0]), PrintLines(indent, ls[1..]) + rest)
  {
    hide PrintLine;
  }

  lemma {:induction false} ReadTop(r: Reader, ls: seq<Line>, rest: string, num: nat)
    requires r.pcore.None? && AllTop(ls)
    ensures ReadText(r, PrintLines("", ls) + rest, num) == ReadText(WithTop(r, Number(ls, num)), rest, num + |ls|)
    decreases |ls|
  {
    hide Feed, ReadText, TopOk, PrintLine;
    if ls == [] {
      assert r.file.toplevel + [] == r.file.toplevel;
      assert PrintLines("", ls) + rest == rest;
    } else {
      PrintLinesStep("", ls, rest);
      var line, more := "" + PrintLine(ls[0]), PrintLines("", ls[1..]) + rest;
      hide PrintLines, Then;
      NoNewlineInTop(ls[0]);
      ReadLine(r, line, more, num);
      FeedTop(r, ls[0], num);
      var l := ls[0].(num := num);
      ReadTop(WithTop(r, [l]), ls[1..], rest, num + 1);
      assert r.file.toplevel + [l] + Number(ls[1..], num + 1) == r.file.toplevel + Number(ls, num);
    }
  }

  lemma NoNewlineInTop(l: Line)
    requires TopOk(l)
    ensures '\n' !in "" + PrintLine(l)
  {
    NoNewlineInLine(l);
  }

  lemma {:induction false} ReadContent(r: Reader, ls: seq<Line>, rest: string, num: nat)
    requires r.pcore.Some? && AllContent(ls)
    ensures ReadText(r, PrintLines("\t", ls) + rest, num) == ReadText(WithContent(r, Number(ls, num)), rest, num + |ls|)
    decreases |ls|
  {
    hide Feed, ReadText, ContentOk, PrintLine;
    if ls == [] {
      assert r.pcore.value.content + [] == r.pcore.value.content;
      assert PrintLines("\t", ls) + rest == rest;
    } else {
      PrintLinesStep("\t", ls, rest);
      var line, more := "\t" + PrintLine(ls[0]), PrintLines("\t", ls[1..]) + rest;
      hide PrintLines, Then;
      NoNewlineInContent(ls[0]);
      ReadLine(r, line, more, num);
      FeedContent(r, ls[0], num);
      var l := ls[0].(num := num);
      ReadContent(WithContent(r, [l]), ls[1..], rest, num + 1);
      assert r.pcore.value.content + [l] + Number(ls[1..], num + 1) == r.pcore.value.content + Number(ls, num);
    }
  }

  lemma NoNewlineInContent(l: Line)
    requires ContentOk(l)
    ensures '\n' !in "\t" + PrintLine(l)
  {
    NoNewlineInLine(l);
  }

  // ---- Reading a printed block ----

  function Begun(r: Reader, ip: string): Reader { r.(pcore := Some(PCore(ip, None, []))) }

  lemma FeedBlank(r: Reader, num: nat)
    ensures Feed(r, "\n", num) == Some(r)
  {
    SplitBlank('\n', "");
    assert ['\n'] + "" == "\n";
  }

  lemma BeginIsWord()
    ensures IsWord("BEGIN")
  {
  }

  lemma BeginText(ip: string)
    ensures "BEGIN " + ip == "BEGIN" + (" " + ip)
    ensures "" + ("BEGIN " + ip) == "BEGIN " + ip
  {
  }

  lemma WordsOfBegin(ip: string)
    ensures Split("BEGIN " + ip + "\n") == ["BEGIN"] + Split(ip)
  {
    hide Split, IsWord;
    WordsOfText("", "BEGIN " + ip);
    BeginIsWord();
    BeginText(ip);
    WordOf("BEGIN", " " + ip);
    SplitBlank(' ', ip);
  }

  lemma FeedBegin(r: Reader, ip: string, num: nat)
    requires r.pcore.None? && Norm(ip) == ip
    ensures Feed(r, "BEGIN " + ip + "\n", num) == Some(Begun(r, ip))
  {
    hide Split, Norm, Join;
    WordsOfBegin(ip);
    JoinSplit(ip);
  }

  lemma WordsOfEnd()
    ensures Split("END\n") == ["END"]
  {
    WordsOfText("", "END");
    assert "" + "END" + "\n" == "END\n";
    OnlyWord("END");
  }

  lemma OnlyWord(w: string)
    requires IsWord(w)
    ensures Split(w) == [w] && Norm(w) == w
  {
    WordOf(w, "");
    assert w + "" == w;
    JoinSplit(w);
  }

  lemma FeedEnd(r: Reader, num: nat)
    requires r.pcore.Some?
    ensures Feed(r, "END\n", num) == Some(Reader(r.file.(pcores := r.file.pcores + [r.pcore.value]), None))
  {
    WordsOfEnd();
    hide Split;
  }

  function InstanceLine(f: string): Line { Line("PARAMETER", [("INSTANCE", f)], 0) }

  lemma InstanceText(f: string)
    ensures PrintLine(InstanceLine(f)) == "PARAMETER INSTANCE = " + f
  {
    var l := InstanceLine(f);
    assert l.content[1..] == [] && MorePairs([]) == "";
    assert Body(l.content) == "INSTANCE" + " = " + f;
    KeywordText();
    Assoc("PARAMETER" + " ", "INSTANCE" + " = ", f);
  }

  lemma KeywordText()
    ensures "PARAMETER" + " " + ("INSTANCE" + " = ") == "PARAMETER INSTANCE = "
  {
  }

  lemma TabbedText(f: string)
    ensures "\tPARAMETER INSTANCE = " + f == "\t" + ("PARAMETER INSTANCE = " + f)
  {
  }

  lemma InstanceIsWord()
    ensures IsWord("PARAMETER")
    ensures IsWord("INSTANCE") && ',' !in "INSTANCE" && '=' !in "INSTANCE"
  {
  }

  lemma InstanceIsLine(f: string)
    requires IsField(f)
    ensures IsLine(InstanceLine(f))
  {
    InstanceIsWord();
    hide IsWord, Norm;
    OnlyWord("INSTANCE");
  }

  lemma FeedInstance(r: Reader, f: string, num: nat)
    requires r.pcore.Some? && IsField(f)
    ensures Feed(r, "\tPARAMETER INSTANCE = " + f + "\n", num) ==
            Some(r.(pcore := Some(r.pcore.value.(instance := Some(f)))))
    ensures '\n' !in "\tPARAMETER INSTANCE = " + f
  {
    hide Split, PrintLine, IsLine, FromWords;
    InstanceText(f);
    TabbedText(f);
    InstanceIsLine(f);
    WordsOfLine("\t", InstanceLine(f), num);
  }

  function Numbered(p: PCore, num: nat): PCore { p.(content := Number(p.content, num)) }

  /** A printed block, line by line. */
  function BlockText(p: PCore, rest: string): string
    requires PrintablePCore(p)
  {
    Then("", Then("BEGIN " + p.ipName, Then("\tPARAMETER INSTANCE = " + p.instance.value,
                                            PrintLines("\t", p.content) + Then("END", rest))))
  }

  lemma PCoreText(p: PCore, rest: string)
    requires PrintablePCore(p)
    ensures "\n" + PrintPCore(p) + rest == BlockText(p, rest)
  {
    hide PrintLines;
    assert "END\n" == "END" + "\n";
  }

  function WithPCores(r: Reader, ps: seq<PCore>): Reader {
    r.(file := r.file.(pcores := r.file.pcores + ps))
  }

  lemma WithPCoresTwice(r: Reader, ps: seq<PCore>, qs: seq<PCore>)
    ensures WithPCores(WithPCores(r, ps), qs) == WithPCores(r, ps + qs)
    ensures WithPCores(r, []) == r && WithPCores(r, ps).pcore == r.pcore
  {
    assert r.file.pcores + [] == r.file.pcores;
    assert r.file.pcores + ps + qs == r.file.pcores + (ps + qs);
  }

  function WithInstance(r: Reader, f: string): Reader
    requires r.pcore.Some?
  {
    r.(pcore := Some(r.pcore.value.(instance := Some(f))))
  }

  function Ended(r: Reader): Reader
    requires r.pcore.Some?
  {
    Reader(r.file.(pcores := r.file.pcores + [r.pcore.value]), None)
  }

  /** Where the parser has got to after some lines. */
  datatype Point = Point(r: Reader, text: string, num: nat)

  predicate Leads(a: Point, b: Point) { ReadText(a.r, a.text, a.num) == ReadText(b.r, b.text, b.num) }

  lemma Chain(a: Point, b: Point, c: Point)
    requires Leads(a, b) && Leads(b, c)
    ensures Leads(a, c)
  {
  }

  lemma ReadEnd(r: Reader, rest: string, num: nat)
    requires r.pcore.Some?
    ensures Leads(Point(r, Then("END", rest), num), Point(Ended(r), rest, num + 1))
  {
    assert "END" + "\n" == "END\n" && '\n' !in "END";
    hide ReadText, Feed, Then;
    ReadLine(r, "END", rest, num);
    FeedEnd(r, num);
  }

  lemma ReadInstance(r: Reader, f: string, rest: string, num: nat)
    requires r.pcore.Some? && IsField(f)
    ensures Leads(Point(r, Then("\tPARAMETER INSTANCE = " + f, rest), num), Point(WithInstance(r, f), rest, num + 1))
  {
    hide ReadText, Feed, IsField, Then;
    FeedInstance(r, f, num);
    ReadLine(r, "\tPARAMETER INSTANCE = " + f, rest, num);
  }

  lemma ReadBegin(r: Reader, ip: string, rest: string, num: nat)
    requires r.pcore.None? && Norm(ip) == ip
    ensures Leads(Point(r, Then("", Then("BEGIN " + ip, rest)), num), Point(Begun(r, ip), rest, num + 2))
  {
    NoNewline(ip);
    assert '\n' !in "BEGIN " + ip && "" + "\n" == "\n";
    hide ReadText, Feed, Norm, Then;
    ReadLine(r, "", Then("BEGIN " + ip, rest), num);
    FeedBlank(r, num);
    ReadLine(r, "BEGIN " + ip, rest, num + 1);
    FeedBegin(r, ip, num + 1);
  }

  /** The states in which the parser reads the lines of a printed block. */
  lemma BlockStates(r: Reader, p: PCore, ls: seq<Line>)
    requires r.pcore.None? && p.instance.Some?
    ensures Ended(WithContent(WithInstance(Begun(r, p.ipName), p.instance.value), ls)) == WithPCores(r, [p.(content := ls)])
  {
    assert [] + ls == ls;
  }

  function InBlock(r: Reader, p: PCore): Reader
    requires p.instance.Some?
  {
    WithInstance(Begun(r, p.ipName), p.instance.value)
  }

  lemma ReadBlockStart(r: Reader, p: PCore, more: string, num: nat)
    requires r.pcore.None? && PCoreOk(p) && p.instance.Some?
    ensures Leads(Point(r, Then("", Then("BEGIN " + p.ipName, Then("\tPARAMETER INSTANCE = " + p.instance.value, more))), num),
                  Point(InBlock(r, p), more, num + 3))
  {
    var r1 := Begun(r, p.ipName);
    hide Leads, Feed, Norm, IsField, AllContent, Then;
    var text := Then("\tPARAMETER INSTANCE = " + p.instance.value, more);
    ReadBegin(r, p.ipName, text, num);
    ReadInstance(r1, p.instance.value, more, num + 2);
    Chain(Point(r, Then("", Then("BEGIN " + p.ipName, text)), num), Point(r1, text, num + 2),
          Point(InBlock(r, p), more, num + 3));
  }

  lemma ReadBlockEnd(r: Reader, c: seq<Line>, rest: string, num: nat)
    requires r.pcore.Some? && AllContent(c)
    ensures Leads(Point(r, PrintLines("\t", c) + Then("END", rest), num),
                  Point(Ended(WithContent(r, Number(c, num))), rest, num + |c| + 1))
  {
    hide ReadText, ContentOk, PrintLines, Number, Ended, Then;
    var r3 := WithContent(r, Number(c, num));
    ReadContent(r, c, Then("END", rest), num);
    ReadEnd(r3, rest, num + |c|);
  }

  /** The lines of a printed block are read back as that block. */
  lemma ReadPCore(r: Reader, p: PCore, rest: string, num: nat)
    requires r.pcore.None? && PCoreOk(p) && PrintablePCore(p)
    ensures Leads(Point(r, "\n" + PrintPCore(p) + rest, num),
                  Point(WithPCores(r, [Numbered(p, num + 3)]), rest, num + |p.content| + 4))
  {
    hide Leads, Norm, IsField, AllContent, PrintLines, PrintPCore, Number, Ended, WithContent, WithPCores, Then;
    PCoreText(p, rest);
    BlockStates(r, p, Number(p.content, num + 3));
    var text := PrintLines("\t", p.content) + Then("END", rest);
    ReadBlockStart(r, p, text, num);
    ReadBlockEnd(InBlock(r, p), p.content, rest, num + 3);
    Chain(Point(r, BlockText(p, rest), num), Point(InBlock(r, p), text, num + 3),
          Point(WithPCores(r, [Numbered(p, num + 3)]), rest, num + |p.content| + 4));
  }

  // ---- The whole file ----

  /** The blocks as they are numbered when they are printed from line `num` on. */
  function NumberPCores(ps: seq<PCore>, num: nat): seq<PCore> {
    if ps == [] then [] else [Numbered(ps[0], num + 3)] + NumberPCores(ps[1..], num + |ps[0].content| + 4)
  }

  lemma PrintPCoresStep(ps: seq<PCore>)
    requires ps != [] && AllPCores(ps)
    requires forall i | 0 <= i < |ps| :: PrintablePCore(ps[i])
    ensures PCoreOk(ps[0]) && AllPCores(ps[1..])
    ensures PrintPCores(ps) == "\n" + PrintPCore(ps[0]) + PrintPCores(ps[1..])
  {
    hide PCoreOk, PrintPCore;
  }

  lemma NumberPCoresStep(ps: seq<PCore>, num: nat)
    requires ps != []
    ensures NumberPCores(ps, num) == [Numbered(ps[0], num + 3)] + NumberPCores(ps[1..], num + |ps[0].content| + 4)
  {
  }

  lemma {:induction false} ReadPCores(r: Reader, ps: seq<PCore>, num: nat)
    requires r.pcore.None? && AllPCores(ps)
    requires forall i | 0 <= i < |ps| :: PrintablePCore(ps[i])
    ensures exists k: nat :: Leads(Point(r, PrintPCores(ps), num), Point(WithPCores(r, NumberPCores(ps, num)), "", k))
    decreases |ps|, 1
  {
    if ps == [] {
      WithPCoresTwice(r, [], []);
      assert Leads(Point(r, PrintPCores(ps), num), Point(WithPCores(r, NumberPCores(ps, num)), "", num));
    } else {
      ReadMorePCores(r, ps, num);
    }
  }

  lemma {:induction false} ReadMorePCores(r: Reader, ps: seq<PCore>, num: nat)
    requires r.pcore.None? && AllPCores(ps) && ps != []
    requires forall i | 0 <= i < |ps| :: PrintablePCore(ps[i])
    ensures exists k: nat :: Leads(Point(r, PrintPCores(ps), num), Point(WithPCores(r, NumberPCores(ps, num)), "", k))
    decreases |ps|, 0
  {
    hide Leads, PCoreOk, PrintablePCore, PrintPCore, AllPCores, WithPCores, PrintPCores, NumberPCores, Numbered;
    PrintPCoresStep(ps);
    NumberPCoresStep(ps, num);
    var p, num' := Numbered(ps[0], num + 3), num + |ps[0].content| + 4;
    var ns := NumberPCores(ps[1..], num');
    ReadPCore(r, ps[0], PrintPCores(ps[1..]), num);
    WithPCoresTwice(r, [p], ns);
    ReadPCores(WithPCores(r, [p]), ps[1..], num');
    var k: nat :| Leads(Point(WithPCores(r, [p]), PrintPCores(ps[1..]), num'), Point(WithPCores(r, [p] + ns), "", k));
    Chain(Point(r, PrintPCores(ps), num), Point(WithPCores(r, [p]), PrintPCores(ps[1..]), num'),
          Point(WithPCores(r, [p] + ns), "", k));
  }

  /** The file with the line numbers of its printed form. */
  function Renumbered(f: File): File {
    File(Number(f.toplevel, 1), NumberPCores(f.pcores, 1 + |f.toplevel|))
  }

  /** Parsing undoes printing: every structure a parser can return is read back, only the line numbers are those
      of the new text. */
  lemma ParsePrintFile(f: File)
    requires FileOk(f) && Printable(f)
    ensures Parse(PrintFile(f)) == Some(Renumbered(f))
  {
    hide ReadText, PrintLines, PrintPCores, TopOk, AllPCores, Number, NumberPCores;
    var ls := Number(f.toplevel, 1);
    var num := 1 + |f.toplevel|;
    var r := WithTop(START, ls);
    ReadTop(START, f.toplevel, PrintPCores(f.pcores), 1);
    ReadPCores(r, f.pcores, num);
    var k: nat :| Leads(Point(r, PrintPCores(f.pcores), num), Point(WithPCores(r, NumberPCores(f.pcores, num)), "", k));
    LeadsToEnd(Point(r, PrintPCores(f.pcores), num), WithPCores(r, NumberPCores(f.pcores, num)), k);
    assert [] + ls == ls && [] + NumberPCores(f.pcores, num) == NumberPCores(f.pcores, num);
  }

  lemma LeadsToEnd(a: Point, r: Reader, k: nat)
    requires Leads(a, Point(r, "", k)) && r.pcore.None?
    ensures ReadText(a.r, a.text, a.num) == Some(r.file)
  {
  }

  // ---- Parse, print, parse ----

  function ForgetLines(ls: seq<Line>): seq<Line> { seq(|ls|, i requires 0 <= i < |ls| => ls[i].(num := 0)) }

  /** The structure without line numbers. */
  function Forget(f: File): File {
    File(ForgetLines(f.toplevel),
         seq(|f.pcores|, i requires 0 <= i < |f.pcores| => f.pcores[i].(content := ForgetLines(f.pcores[i].content))))
  }

  lemma {:induction false} ForgetNumber(ls: seq<Line>, num: nat)
    ensures ForgetLines(Number(ls, num)) == ForgetLines(ls)
  {
    if ls != [] {
      ForgetNumber(ls[1..], num + 1);
      var n := Number(ls, num);
      assert |ForgetLines(n)| == |n| && |Number(ls[1..], num + 1)| == |ls| - 1;
      forall i | 0 <= i < |ls| ensures n[i].(num := 0) == ls[i].(num := 0) {
        if i > 0 {
          assert ForgetLines(n[1..])[i - 1] == ForgetLines(ls[1..])[i - 1];
        }
      }
    } else {
      assert ForgetLines(Number(ls, num)) == [];
    }
  }

  /** Blocks that differ in line numbers only */
  predicate Alike(a: PCore, b: PCore) {
    a.(content := []) == b.(content := []) && ForgetLines(a.content) == ForgetLines(b.content)
  }

  predicate AllAlike(a: seq<PCore>, b: seq<PCore>) { |a| == |b| && forall i | 0 <= i < |a| :: Alike(a[i], b[i]) }

  lemma {:induction false} NumberPCoresAlike(ps: seq<PCore>, num: nat)
    ensures AllAlike(NumberPCores(ps, num), ps)
    decreases |ps|
  {
    hide Alike;
    if ps != [] {
      NumberPCoresAlike(ps[1..], num + |ps[0].content| + 4);
      NumberedAlike(ps[0], num + 3);
    }
  }

  lemma NumberedAlike(p: PCore, num: nat)
    ensures Alike(Numbered(p, num), p)
  {
    ForgetNumber(p.content, num);
  }

  lemma ForgetRenumbered(f: File)
    ensures Forget(Renumbered(f)) == Forget(f)
  {
    hide Number, NumberPCores, ForgetLines;
    ForgetNumber(f.toplevel, 1);
    NumberPCoresAlike(f.pcores, 1 + |f.toplevel|);
    assert forall i | 0 <= i < |f.pcores| :: Alike(Renumbered(f).pcores[i], f.pcores[i]);
  }

  lemma {:induction false} PrintForgetsLines(indent: string, a: seq<Line>, b: seq<Line>)
    requires HasContent(a) && ForgetLines(a) == ForgetLines(b)
    ensures HasContent(b) && PrintLines(indent, a) == PrintLines(indent, b)
  {
    assert |a| == |ForgetLines(a)| == |b|;
    forall i | 0 <= i < |a| ensures a[i].content == b[i].content && a[i].kind == b[i].kind {
      assert ForgetLines(a)[i] == ForgetLines(b)[i];
    }
    if a != [] {
      assert ForgetLines(a[1..]) == ForgetLines(a)[1..] && ForgetLines(b[1..]) == ForgetLines(b)[1..];
      PrintForgetsLines(indent, a[1..], b[1..]);
      hide Body;
    }
  }

  lemma {:induction false} PrintForgetsPCores(a: seq<PCore>, b: seq<PCore>)
    requires AllAlike(a, b) && forall i | 0 <= i < |a| :: PrintablePCore(a[i])
    ensures forall i | 0 <= i < |b| :: PrintablePCore(b[i])
    ensures PrintPCores(a) == PrintPCores(b)
  {
    hide ForgetLines, PrintLines;
    forall i | 0 <= i < |a| ensures PrintablePCore(b[i]) {
      assert Alike(a[i], b[i]);
      PrintForgetsLines("\t", a[i].content, b[i].content);
    }
    if a != [] {
      assert Alike(a[0], b[0]);
      PrintForgetsLines("\t", a[0].content, b[0].content);
      PrintForgetsPCores(a[1..], b[1..]);
    }
  }

  /** What is printed does not depend on the line numbers. */
  lemma PrintForgets(a: File, b: File)
    requires Printable(a) && Forget(a) == Forget(b)
    ensures Printable(b) && PrintFile(a) == PrintFile(b)
  {
    hide ForgetLines, PrintablePCore, PrintPCores, PrintLines;
    PrintForgetsLines("", a.toplevel, b.toplevel);
    assert |a.pcores| == |Forget(a).pcores| == |b.pcores|;
    forall i | 0 <= i < |a.pcores| ensures Alike(a.pcores[i], b.pcores[i]) {
      assert Forget(a).pcores[i] == Forget(b).pcores[i];
    }
    PrintForgetsPCores(a.pcores, b.pcores);
  }

  lemma ParsedIsOk(text: string)
    ensures Parse(text).Some? ==> FileOk(Parse(text).value)
  {
    ReadKeepsOk(START, text, 1);
  }

  /** Parse and print undo each other: for every text that is accepted and whose blocks all have an INSTANCE, the
      printed text is accepted, means the same up to line numbers, and is printed as itself. */
  lemma ParsePrintParse(text: string)
    requires Parse(text).Some? && Printable(Parse(text).value)
    ensures var f := Parse(text).value;
            var again := Parse(PrintFile(f));
            && again.Some?
            && Forget(again.value) == Forget(f)
            && Printable(again.value) && PrintFile(again.value) == PrintFile(f)
  {
    hide ReadText, PrintFile, Forget, Renumbered;
    ParsedIsOk(text);
    var f := Parse(text).value;
    ParsePrintFile(f);
    ForgetRenumbered(f);
    PrintForgets(f, Renumbered(f));
  }
}
