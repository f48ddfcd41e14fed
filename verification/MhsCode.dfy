// tools/mhs.py as written: the parse loop with its state variable, blocks that grow in place, and printers that
// build up a string.
module MhsCode {
  import opened Words
  import opened PyString
  import opened MhsLine
  import opened Mhs

  /** MHSLine.__str__ */
  method LineString(l: Line) returns (s: string)
    requires l.content != []
    ensures s == PrintLine(l)
  {
    hide PrintPair;
    s := l.kind + " " + PrintPair(l.content[0]);
    var i := 1;
    while i < |l.content|
      invariant 1 <= i <= |l.content|
      invariant s + MorePairs(l.content[i..]) == PrintLine(l)
    {
      assert l.content[i..][1..] == l.content[i + 1..];
      Assoc(s, ", " + PrintPair(l.content[i]), MorePairs(l.content[i + 1..]));
      s := s + (", " + PrintPair(l.content[i]));
      i := i + 1;
    }
  }

  class MHSPCore {
    const ipName: string
    var instanceName: Option<string>
    var content: seq<Line>

    constructor (ipName: string)
      ensures Value() == PCore(ipName, None, [])
    {
      this.ipName, instanceName, content := ipName, None, [];
    }

    ghost function Value(): PCore
      reads this
    {
      PCore(ipName, instanceName, content)
    }

    method AddLine(line: Line)
      requires line.content != []
      modifies this
      ensures Value() == Added(old(Value()), line)
    {
      if line.kind == "PARAMETER" && line.content[0].0 == "INSTANCE" {
        instanceName := Some(line.content[0].1);
        return;
      }
      content := content + [line];
    }

    /** __str__; None: there is no attribute instance_name */
    method String() returns (r: Option<string>)
      requires HasContent(content)
      ensures r == if PrintablePCore(Value()) then Some(PrintPCore(Value())) else None
    {
      hide PrintLine;
      var s := "BEGIN " + ipName + "\n";
      if instanceName.None? {
        return None;
      }
      s := s + ("\tPARAMETER INSTANCE = " + instanceName.value + "\n");
      ghost var head := s;
      assert head == "BEGIN " + ipName + "\n" + "\tPARAMETER INSTANCE = " + instanceName.value + "\n";
      var i := 0;
      while i < |content|
        invariant 0 <= i <= |content|
        invariant s + PrintLines("\t", content[i..]) == head + PrintLines("\t", content)
      {
        var k := LineString(content[i]);
        assert content[i..][1..] == content[i + 1..];
        s := s + ("\t" + k + "\n");
        i := i + 1;
      }
      assert content[i..] == [] && s + "" == s;
      s := s + "END\n";
      return Some(s);
    }
  }

  ghost function Values(ps: seq<MHSPCore>): seq<PCore>
    reads ps
  {
    seq(|ps|, i requires 0 <= i < |ps| reads ps => ps[i].Value())
  }

  ghost function ValueOf(p: MHSPCore?): Option<PCore>
    reads p
  {
    if p == null then None else Some(p.Value())
  }

  class MHS {
    var pcores: seq<MHSPCore>
    var toplevel: seq<Line>

    constructor ()
      ensures Value() == File([], [])
    {
      pcores, toplevel := [], [];
    }

    ghost function Value(): File
      reads this, pcores
    {
      File(toplevel, Values(pcores))
    }

    /** parse: a block that has begun is the state STATE_PCORE. The text is the content of the file. */
    method Parse(text: string) returns (ok: bool)
      modifies this
      ensures ok == Mhs.Parse(text).Some?
      ensures ok ==> Value() == Mhs.Parse(text).value && fresh(pcores)
    {
      hide Split, Strip, FromWords, LineLength;
      pcores, toplevel := [], [];
      var pcore: MHSPCore? := null;
      var rest, lineCount := text, 0;
      assert Value() == START.file;
      while true
        invariant fresh(pcores) && (pcore != null ==> fresh(pcore) && pcore !in pcores)
        invariant Mhs.Parse(text) == ReadText(Reader(Value(), ValueOf(pcore)), rest, lineCount + 1)
        decreases |rest|
      {
        lineCount := lineCount + 1;
        var n := LineLength(rest);
        var line := rest[..n];
        ghost var r := Reader(Value(), ValueOf(pcore));
        ghost var next := Feed(r, line, lineCount);
        if n == 0 {
          return pcore == null;
        }
        rest := rest[n..];
        StripFirst(line);
        var trimmed := Strip(line);
        if trimmed != [] && trimmed[0] != '#' {
          var ws := Split(trimmed);
          var name, s := ws[0], Join(ws[1..]);
          if pcore == null && name == "BEGIN" {
            pcore := new MHSPCore(s);
          } else if pcore == null {
            var l := ParseLine(trimmed, lineCount);
            if l.None? {
              return false;
            }
            toplevel := toplevel + [l.value];
          } else if name == "END" {
            ghost var before := Values(pcores);
            pcores := pcores + [pcore];
            assert Values(pcores) == before + [pcore.Value()];
            pcore := null;
          } else {
            var l := ParseLine(trimmed, lineCount);
            if l.None? {
              return false;
            }
            pcore.AddLine(l.value);
          }
        }
        assert next == Some(Reader(Value(), ValueOf(pcore)));
      }
    }

    /** __str__; None: a block has no attribute instance_name */
    method String() returns (r: Option<string>)
      requires HasContent(toplevel) && forall i | 0 <= i < |pcores| :: HasContent(pcores[i].content)
      ensures r == if Printable(Value()) then Some(PrintFile(Value())) else None
    {
      hide PrintLine, PrintPCore;
      var result := "";
      var i := 0;
      while i < |toplevel|
        invariant 0 <= i <= |toplevel|
        invariant result + PrintLines("", toplevel[i..]) == PrintLines("", toplevel)
      {
        var k := LineString(toplevel[i]);
        assert toplevel[i..][1..] == toplevel[i + 1..] && "" + k == k;
        Assoc(result, k + "\n", PrintLines("", toplevel[i + 1..]));
        result := result + (k + "\n");
        i := i + 1;
      }
      assert toplevel[i..] == [] && result + "" == result;
      ghost var head := result;
      ghost var ps := Values(pcores);
      var j := 0;
      while j < |pcores|
        invariant 0 <= j <= |pcores|
        invariant forall i | 0 <= i < j :: PrintablePCore(ps[i])
        invariant (forall i | 0 <= i < |ps| :: PrintablePCore(ps[i])) ==>
                    result + PrintPCores(ps[j..]) == head + PrintPCores(ps)
      {
        var s := pcores[j].String();
        if s.None? {
          assert !PrintablePCore(ps[j]);
          return None;
        }
        assert ps[j..][1..] == ps[j + 1..];
        if forall i | 0 <= i < |ps| :: PrintablePCore(ps[i]) {
          Assoc(result, "\n" + s.value, PrintPCores(ps[j + 1..]));
        }
        result := result + ("\n" + s.value);
        j := j + 1;
      }
      assert ps[j..] == [] && result + "" == result;
      return Some(result);
    }
  }
}
