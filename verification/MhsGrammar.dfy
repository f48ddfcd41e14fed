// tools/mhs.py: which texts the parser accepts and what they mean, said without the parser: a grammar that puts
// texts together from characters, lines and blocks.
module MhsGrammar {
  import opened Words
  import opened PyString
  import opened MhsLine
  import opened Mhs

  // ---- One line ----

  /** The first character that is not white space, if there is one, begins a comment. */
  predicate Skipped(line: string) {
    line == [] || (if Space(line[0]) then Skipped(line[1..]) else line[0] == '#')
  }

  predicate AllSpace(s: string) { forall i | 0 <= i < |s| :: Space(s[i]) }

  /** White space, the word w, and then nothing or more white space and the rest. */
  ghost predicate Starts(line: string, w: string, rest: string) {
    IsWord(w) && (rest == [] || Space(rest[0])) && exists pre :: AllSpace(pre) && line == pre + w + rest
  }

  /** Comma-separated parts, each a key, an equals sign and a value; white space counts only between words. */
  ghost predicate FieldsAre(text: string, pairs: seq<Pair>)
    decreases |pairs|
  {
    pairs != [] && exists x, y, more ::
      FirstField(text, x, y, more, |pairs|) && pairs[0] == (Norm(x), Norm(y)) && (|pairs| > 1 ==> FieldsAre(more, pairs[1..]))
  }

  predicate FirstField(text: string, x: string, y: string, more: string, n: nat) {
    && ',' !in x && '=' !in x && ',' !in y && '=' !in y
    && text == if n == 1 then x + ['='] + y else x + ['='] + y + [','] + more
  }

  /** The line is an entry: a word and its fields. */
  ghost predicate IsEntry(line: string, num: nat, l: Line) {
    !Skipped(line) && l.num == num && exists rest :: Starts(line, l.kind, rest) && FieldsAre(rest, l.content)
  }

  ghost predicate IsBegin(line: string, ipName: string) {
    exists rest :: Starts(line, "BEGIN", rest) && ipName == Norm(rest)
  }

  ghost predicate IsEnd(line: string) { exists rest :: Starts(line, "END", rest) }

  // ---- A file ----

  /** A text cut up behind every newline. */
  predicate WellSplit(ls: seq<string>) {
    forall i | 0 <= i < |ls| ::
      ls[i] != [] && '\n' !in ls[i][..|ls[i]| - 1] && (i + 1 < |ls| ==> ls[i][|ls[i]| - 1] == '\n')
  }

  function Text(ls: seq<string>): string { if ls == [] then [] else ls[0] + Text(ls[1..]) }

  /** The entries of a block, from line `num` on. */
  ghost predicate Entries(ls: seq<string>, num: nat, es: seq<Line>)
    decreases |ls|
  {
    if ls == [] then es == []
    else if Skipped(ls[0]) then Entries(ls[1..], num + 1, es)
    else es != [] && IsEntry(ls[0], num, es[0]) && es[0].kind != "END" && Entries(ls[1..], num + 1, es[1..])
  }

  /** The entry names the block: PARAMETER INSTANCE = name */
  predicate NamesBlock(l: Line) { l.kind == "PARAMETER" && l.content != [] && l.content[0].0 == "INSTANCE" }

  /** The name that the last such entry gives */
  function LastInstance(es: seq<Line>): Option<string>
    requires HasContent(es)
  {
    if es == [] then None
    else if LastInstance(es[1..]).Some? then LastInstance(es[1..])
    else if NamesBlock(es[0]) then Some(es[0].content[0].1) else None
  }

  function Others(es: seq<Line>): seq<Line>
    requires HasContent(es)
  {
    if es == [] then [] else (if NamesBlock(es[0]) then [] else [es[0]]) + Others(es[1..])
  }

  /** Lines 0 to k are a block: BEGIN, entries, END. */
  ghost predicate IsBlock(ls: seq<string>, num: nat, k: nat, p: PCore) {
    && 0 < k < |ls| && IsBegin(ls[0], p.ipName) && IsEnd(ls[k])
    && exists es :: Entries(ls[1..k], num + 1, es) && HasContent(es) && p.instance == LastInstance(es) && p.content == Others(es)
  }

  /** The lines are, but for blank lines and comments, the toplevel entries and the blocks in this order. */
  ghost predicate Describes(ls: seq<string>, num: nat, toplevel: seq<Line>, pcores: seq<PCore>)
    decreases |ls|
  {
    if ls == [] then toplevel == [] && pcores == []
    else if Skipped(ls[0]) then Describes(ls[1..], num + 1, toplevel, pcores)
    else
      || (toplevel != [] && IsEntry(ls[0], num, toplevel[0]) && toplevel[0].kind != "BEGIN"
          && Describes(ls[1..], num + 1, toplevel[1..], pcores))
      || (pcores != [] && exists k: nat ::
            0 < k < |ls| && IsBlock(ls, num, k, pcores[0]) && Describes(ls[k + 1..], num + k + 1, toplevel, pcores[1..]))
  }

  // ---- Lines as the parser sees them ----

  lemma {:induction false} SkippedIff(line: string)
    ensures Skipped(line) <==> !Significant(Split(line))
  {
    if line != [] && Space(line[0]) {
      SkippedIff(line[1..]);
    }
  }

  lemma {:induction false} WordsOfStart(line: string, pre: string, w: string, rest: string)
    requires AllSpace(pre) && IsWord(w) && (rest == [] || Space(rest[0])) && line == pre + w + rest
    ensures Split(line) == [w] + Split(rest)
    decreases |pre|
  {
    hide Split, IsWord;
    if pre == [] {
      assert line == w + rest;
      WordOf(w, rest);
    } else {
      var line' := pre[1..] + w + rest;
      assert line == [pre[0]] + line';
      SplitBlank(pre[0], line');
      WordsOfStart(line', pre[1..], w, rest);
    }
  }

  lemma WordsAre(line: string, w: string, rest: string)
    requires Starts(line, w, rest)
    ensures Split(line) == [w] + Split(rest)
  {
    hide Split, IsWord;
    var pre :| AllSpace(pre) && line == pre + w + rest;
    WordsOfStart(line, pre, w, rest);
  }

  lemma {:induction false} StartOf(line: string) returns (w: string, rest: string)
    requires Split(line) != []
    ensures Starts(line, w, rest)
  {
    hide IsWord, WordLength;
    if Space(line[0]) {
      w, rest := StartOf(line[1..]);
      var pre :| AllSpace(pre) && line[1..] == pre + w + rest;
      var pre' := [line[0]] + pre;
      assert line == [line[0]] + line[1..];
      assert AllSpace(pre') && line == pre' + w + rest;
    } else {
      w, rest := FirstWord(line);
      assert AllSpace([]) && line == [] + w + rest;
    }
  }

  /** The first occurrence of c */
  lemma {:induction false} Cut(s: string, c: char) returns (a: string, b: string)
    requires c in s
    ensures c !in a && s == a + [c] + b
  {
    if s[0] == c {
      a, b := [], s[1..];
    } else {
      a, b := Cut(s[1..], c);
      a := [s[0]] + a;
    }
  }

  lemma RowOfPart(x: string, y: string)
    requires '=' !in x && '=' !in y
    ensures Row(x + ['='] + y) == [Norm(x), Norm(y)]
  {
    hide Norm, SplitOn;
    SplitOnFirst(x, '=', y);
    SplitOnNothing(y, '=');
  }

  lemma PartOfRow(part: string) returns (x: string, y: string)
    requires |Row(part)| == 2
    ensures '=' !in x && '=' !in y && part == x + ['='] + y
  {
    hide Norm, SplitOn;
    if '=' !in part {
      SplitOnNothing(part, '=');
    }
    x, y := Cut(part, '=');
    SplitOnFirst(x, '=', y);
    if '=' in y {
      var a, b := Cut(y, '=');
      SplitOnFirst(a, '=', b);
    }
  }

  lemma RowsStep(a: string, more: string)
    requires ',' !in a
    ensures Rows(a) == [Row(a)] && Rows(a + [','] + more) == [Row(a)] + Rows(more)
  {
    hide Row, SplitOn;
    SplitOnNothing(a, ',');
    SplitOnFirst(a, ',', more);
  }

  lemma OnePair(p: Pair)
    ensures Paired([[p.0, p.1]]) && AsPairs([[p.0, p.1]]) == [p]
  {
  }

  /** Fields put together are the fields that the parser takes apart. */
  lemma {:induction false} FieldsAreRows(text: string, pairs: seq<Pair>)
    requires FieldsAre(text, pairs)
    ensures Paired(Rows(text)) && AsPairs(Rows(text)) == pairs
    decreases |pairs|
  {
    hide Rows, Row, Norm, Paired, AsPairs;
    var x, y, more :|
      FirstField(text, x, y, more, |pairs|) && pairs[0] == (Norm(x), Norm(y)) && (|pairs| > 1 ==> FieldsAre(more, pairs[1..]));
    RowOfPart(x, y);
    RowsStep(x + ['='] + y, more);
    if |pairs| == 1 {
      OnePair(pairs[0]);
    } else {
      FieldsAreRows(more, pairs[1..]);
      AsPairsStep(pairs[0], Rows(more));
      assert pairs == [pairs[0]] + pairs[1..];
    }
  }

  lemma {:induction false} RowsAreFields(text: string)
    requires Paired(Rows(text))
    ensures FieldsAre(text, AsPairs(Rows(text)))
    decreases |text|
  {
    hide Row, Norm, SplitOn;
    if ',' in text {
      var a, more := Cut(text, ',');
      RowsStep(a, more);
      assert Rows(text)[0] == Row(a) && Rows(text)[1..] == Rows(more);
      var x, y := PartOfRow(a);
      RowOfPart(x, y);
      assert Paired(Rows(more));
      RowsAreFields(more);
      AsPairsStep((Norm(x), Norm(y)), Rows(more));
      var pairs := AsPairs(Rows(text));
      assert Rows(text) == [[Norm(x), Norm(y)]] + Rows(more);
      assert pairs == [(Norm(x), Norm(y))] + AsPairs(Rows(more)) && |AsPairs(Rows(more))| >= 1;
      assert pairs[1..] == AsPairs(Rows(more)) && FirstField(text, x, y, more, |pairs|);
    } else {
      RowsStep(text, "");
      assert Rows(text)[0] == Row(text);
      var x, y := PartOfRow(text);
      RowOfPart(x, y);
      assert AsPairs(Rows(text)) == [(Norm(x), Norm(y))] && FirstField(text, x, y, "", 1);
    }
  }

  /** The parser makes an entry of a line exactly if it is one. */
  lemma EntryIff(line: string, num: nat, l: Line)
    requires !Skipped(line)
    ensures FromWords(Split(line), num) == Some(l) <==> IsEntry(line, num, l)
  {
    hide Split, Rows, Paired, AsPairs, FieldsAre, Starts, Table, Join, Skipped;
    if FromWords(Split(line), num) == Some(l) {
      var w, rest := StartOf(line);
      WordsAre(line, w, rest);
      assert Split(line)[1..] == Split(rest);
      TableOfWords(rest);
      RowsAreFields(rest);
    }
    if IsEntry(line, num, l) {
      var rest :| Starts(line, l.kind, rest) && FieldsAre(rest, l.content);
      WordsAre(line, l.kind, rest);
      assert Split(line)[1..] == Split(rest);
      TableOfWords(rest);
      FieldsAreRows(rest, l.content);
    }
  }

  lemma BeginIff(line: string, ipName: string)
    ensures Split(line) != [] && Split(line)[0] == "BEGIN" && ipName == Join(Split(line)[1..]) <==> IsBegin(line, ipName)
  {
    hide Split, Norm, Join, Starts;
    if Split(line) != [] {
      var w, rest := StartOf(line);
      WordsAre(line, w, rest);
      assert Split(line)[1..] == Split(rest);
      JoinSplit(rest);
    }
    if IsBegin(line, ipName) {
      var rest :| Starts(line, "BEGIN", rest) && ipName == Norm(rest);
      WordsAre(line, "BEGIN", rest);
      assert Split(line)[1..] == Split(rest);
      JoinSplit(rest);
    }
  }

  lemma EndIff(line: string)
    ensures Split(line) != [] && Split(line)[0] == "END" <==> IsEnd(line)
  {
    hide Split, Starts;
    if Split(line) != [] {
      var w, rest := StartOf(line);
      WordsAre(line, w, rest);
    }
    if IsEnd(line) {
      var rest :| Starts(line, "END", rest);
      WordsAre(line, "END", rest);
    }
  }

  // ---- The parser, line by line ----

  function FeedAll(r: Reader, ls: seq<string>, num: nat): Option<Reader>
    decreases |ls|
  {
    if ls == [] then Some(r)
    else
      match Feed(r, ls[0], num)
      case None => None
      case Some(r') => FeedAll(r', ls[1..], num + 1)
  }

  /** Every text is cut up in one way, and this is how the parser reads it. */
  lemma {:induction false} SplitText(text: string) returns (ls: seq<string>)
    ensures WellSplit(ls) && Text(ls) == text
    decreases |text|
  {
    if text == [] {
      ls := [];
    } else {
      var n := LineLength(text);
      LineEnds(text);
      var rest := SplitText(text[n..]);
      ls := [text[..n]] + rest;
      assert text[..n] + text[n..] == text;
      assert forall i | 1 <= i < |ls| :: ls[i] == rest[i - 1];
      if rest == [] {
        assert Text(rest) == [];
      }
    }
  }

  lemma {:induction false} LineEnds(text: string)
    requires text != []
    ensures var n := LineLength(text);
            '\n' !in text[..n - 1] && (n < |text| ==> text[n - 1] == '\n')
  {
    if text[0] != '\n' && |text| > 1 {
      LineEnds(text[1..]);
      var n := LineLength(text[1..]);
      assert text[..n] == [text[0]] + text[1..][..n - 1];
    }
  }

  lemma {:induction false} LineLengthIs(line: string, rest: string)
    requires line != [] && '\n' !in line[..|line| - 1] && (rest != [] ==> line[|line| - 1] == '\n')
    ensures LineLength(line + rest) == |line|
  {
    var s := line + rest;
    if |line| > 1 {
      assert line[..|line| - 1][0] == line[0];
      assert s[1..] == line[1..] + rest;
      assert line[1..][..|line| - 2] == line[..|line| - 1][1..];
      LineLengthIs(line[1..], rest);
    } else if line[0] != '\n' {
      assert s[1..] == [];
    }
  }

  lemma {:induction false} ReadIsFeedAll(r: Reader, ls: seq<string>, num: nat)
    requires WellSplit(ls)
    ensures ReadText(r, Text(ls), num) ==
            var r' := FeedAll(r, ls, num);
            if r'.Some? && r'.value.pcore.None? then Some(r'.value.file) else None
    decreases |ls|
  {
    hide Feed, LineLength;
    if ls != [] {
      var rest := Text(ls[1..]);
      assert rest != [] ==> |ls| > 1;
      LineLengthIs(ls[0], rest);
      var text := Text(ls);
      assert text[..|ls[0]|] == ls[0] && text[|ls[0]|..] == rest;
      assert WellSplit(ls[1..]);
      if Feed(r, ls[0], num).Some? {
        ReadIsFeedAll(Feed(r, ls[0], num).value, ls[1..], num + 1);
      }
    }
  }

  // ---- From the grammar to the parser ----

  function AddAll(p: PCore, es: seq<Line>): PCore
    requires HasContent(es)
    decreases |es|
  {
    if es == [] then p else AddAll(Added(p, es[0]), es[1..])
  }

  lemma {:induction false} AddAllIs(p: PCore, es: seq<Line>)
    requires HasContent(es)
    ensures AddAll(p, es) == PCore(p.ipName, if LastInstance(es).Some? then LastInstance(es) else p.instance, p.content + Others(es))
    decreases |es|
  {
    hide HasContent, LastInstance, Others;
    EntriesStep(es);
    if es == [] {
      assert p.content + [] == p.content;
    } else {
      AddAllIs(Added(p, es[0]), es[1..]);
      Associate(p.content, [es[0]], Others(es[1..]));
    }
  }

  lemma Associate(a: seq<Line>, b: seq<Line>, c: seq<Line>)
    ensures (a + b) + c == a + (b + c)
  {
  }

  lemma EntriesStep(es: seq<Line>)
    requires HasContent(es)
    ensures es == [] ==> LastInstance(es) == None && Others(es) == []
    ensures es != [] ==>
              && HasContent(es[1..]) && es[0].content != []
              && LastInstance(es) == (if LastInstance(es[1..]).Some? then LastInstance(es[1..])
                                      else if NamesBlock(es[0]) then Some(es[0].content[0].1) else None)
              && Others(es) == if NamesBlock(es[0]) then Others(es[1..]) else [es[0]] + Others(es[1..])
  {
  }

  lemma FeedSkipped(r: Reader, line: string, num: nat)
    requires Skipped(line)
    ensures Feed(r, line, num) == Some(r)
  {
    SkippedIff(line);
  }

  /** What the parser does with a line that counts. */
  lemma FeedLine(r: Reader, line: string, num: nat)
    requires !Skipped(line)
    ensures Split(line) != []
    ensures r.pcore.None? && IsBegin(line, Join(Split(line)[1..])) ==>
              Split(line)[0] == "BEGIN" && Feed(r, line, num) == Some(Begun(r, Join(Split(line)[1..])))
    ensures r.pcore.Some? && IsEnd(line) ==> Feed(r, line, num) == Some(Ended(r))
    ensures r.pcore.None? && Split(line)[0] != "BEGIN" ==>
              match FromWords(Split(line), num)
              case None => Feed(r, line, num) == None
              case Some(l) => Feed(r, line, num) == Some(WithTop(r, [l]))
    ensures r.pcore.Some? && !IsEnd(line) ==>
              match FromWords(Split(line), num)
              case None => Feed(r, line, num) == None
              case Some(l) => Feed(r, line, num) == Some(r.(pcore := Some(Added(r.pcore.value, l))))
  {
    SkippedIff(line);
    BeginIff(line, Join(Split(line)[1..]));
    EndIff(line);
    hide Split, IsBegin, IsEnd, Join, FromWords;
  }

  /** An entry is told from BEGIN and END by its first word. */
  lemma EntryWord(line: string, num: nat, l: Line)
    requires IsEntry(line, num, l)
    ensures Split(line) != [] && Split(line)[0] == l.kind && FromWords(Split(line), num) == Some(l)
    ensures IsEnd(line) <==> l.kind == "END"
  {
    EntryIff(line, num, l);
    EndIff(line);
    hide IsEnd, Split;
  }

  lemma {:induction false} FeedAllAppend(r: Reader, a: seq<string>, b: seq<string>, num: nat)
    ensures FeedAll(r, a + b, num) ==
            match FeedAll(r, a, num)
            case None => None
            case Some(r') => FeedAll(r', b, num + |a|)
    decreases |a|
  {
    hide Feed;
    if a == [] {
      assert a + b == b;
    } else {
      assert (a + b)[1..] == a[1..] + b;
      if Feed(r, a[0], num).Some? {
        FeedAllAppend(Feed(r, a[0], num).value, a[1..], b, num + 1);
      }
    }
  }

  /** The entries of a block are added to it. */
  lemma {:induction false} EntriesAreRead(r: Reader, ls: seq<string>, num: nat, es: seq<Line>)
    requires r.pcore.Some? && Entries(ls, num, es) && HasContent(es)
    ensures FeedAll(r, ls, num) == Some(r.(pcore := Some(AddAll(r.pcore.value, es))))
    decreases |ls|
  {
    hide Feed, IsEntry, Skipped, IsEnd, FromWords, Split, Added;
    if ls != [] {
      if Skipped(ls[0]) {
        FeedSkipped(r, ls[0], num);
        EntriesAreRead(r, ls[1..], num + 1, es);
      } else {
        EntryWord(ls[0], num, es[0]);
        FeedLine(r, ls[0], num);
        EntriesAreRead(r.(pcore := Some(Added(r.pcore.value, es[0]))), ls[1..], num + 1, es[1..]);
      }
    }
  }

  /** A block is read as that block. */
  lemma BlockIsRead(r: Reader, ls: seq<string>, num: nat, k: nat, p: PCore)
    requires r.pcore.None? && IsBlock(ls, num, k, p)
    ensures FeedAll(r, ls, num) == FeedAll(WithPCores(r, [p]), ls[k + 1..], num + k + 1)
  {
    hide Feed, FeedAll, Skipped, Entries, LastInstance, Others, HasContent, AddAll, IsBegin, IsEnd, Split, FromWords, Join;
    var es :| Entries(ls[1..k], num + 1, es) && HasContent(es) && p.instance == LastInstance(es) && p.content == Others(es);
    var r1, r2 := Begun(r, p.ipName), Begun(r, p.ipName).(pcore := Some(AddAll(PCore(p.ipName, None, []), es)));
    FeedBeginLine(r, ls[0], num, p.ipName);
    FeedEndLine(r2, ls[k], num + k);
    EntriesAreRead(r1, ls[1..k], num + 1, es);
    AddAllIs(PCore(p.ipName, None, []), es);
    assert [] + Others(es) == Others(es);
    assert ls == [ls[0]] + (ls[1..k] + ([ls[k]] + ls[k + 1..]));
    FeedAllAppend(r, [ls[0]], ls[1..k] + ([ls[k]] + ls[k + 1..]), num);
    FeedAllAppend(r1, ls[1..k], [ls[k]] + ls[k + 1..], num + 1);
    FeedAllAppend(r2, [ls[k]], ls[k + 1..], num + k);
    FeedOne(r, ls[0], num);
    FeedOne(r2, ls[k], num + k);
  }

  lemma FeedOne(r: Reader, line: string, num: nat)
    ensures FeedAll(r, [line], num) == Feed(r, line, num)
  {
    hide Feed;
    if Feed(r, line, num).Some? {
      assert [line][1..] == [] && FeedAll(Feed(r, line, num).value, [], num + 1) == Feed(r, line, num);
    }
  }

  lemma FeedBeginLine(r: Reader, line: string, num: nat, ipName: string)
    requires r.pcore.None? && IsBegin(line, ipName)
    ensures Feed(r, line, num) == Some(Begun(r, ipName)) && !Skipped(line)
  {
    BeginIff(line, ipName);
    SkippedIff(line);
    hide Split, IsBegin, Join, FromWords, Skipped;
  }

  lemma FeedEndLine(r: Reader, line: string, num: nat)
    requires r.pcore.Some? && IsEnd(line)
    ensures Feed(r, line, num) == Some(Ended(r)) && !Skipped(line)
  {
    EndIff(line);
    SkippedIff(line);
    hide Split, IsEnd, Join, FromWords, Skipped;
  }

  function With(r: Reader, toplevel: seq<Line>, pcores: seq<PCore>): Reader {
    r.(file := File(r.file.toplevel + toplevel, r.file.pcores + pcores))
  }

  /** What the grammar describes is what the parser reads. */
  lemma {:induction false} DescribedIsRead(r: Reader, ls: seq<string>, num: nat, toplevel: seq<Line>, pcores: seq<PCore>)
    requires r.pcore.None? && Describes(ls, num, toplevel, pcores)
    ensures FeedAll(r, ls, num) == Some(With(r, toplevel, pcores))
    decreases |ls|
  {
    hide Feed, Skipped, IsEntry, IsBlock, FromWords, Split;
    if ls == [] {
      assert With(r, [], []) == r;
    } else if Skipped(ls[0]) {
      FeedSkipped(r, ls[0], num);
      DescribedIsRead(r, ls[1..], num + 1, toplevel, pcores);
    } else if toplevel != [] && IsEntry(ls[0], num, toplevel[0]) && toplevel[0].kind != "BEGIN" && Describes(ls[1..], num + 1, toplevel[1..], pcores) {
      EntryWord(ls[0], num, toplevel[0]);
      FeedLine(r, ls[0], num);
      var r' := WithTop(r, [toplevel[0]]);
      DescribedIsRead(r', ls[1..], num + 1, toplevel[1..], pcores);
      assert r.file.toplevel + [toplevel[0]] + toplevel[1..] == r.file.toplevel + toplevel;
    } else {
      var k: nat :| 0 < k < |ls| && IsBlock(ls, num, k, pcores[0]) && Describes(ls[k + 1..], num + k + 1, toplevel, pcores[1..]);
      BlockIsRead(r, ls, num, k, pcores[0]);
      DescribedIsRead(WithPCores(r, [pcores[0]]), ls[k + 1..], num + k + 1, toplevel, pcores[1..]);
      assert r.file.pcores + [pcores[0]] + pcores[1..] == r.file.pcores + pcores;
    }
  }

  // ---- From the parser to the grammar ----

  /** A block that is read to its end consists of entries and an END. */
  lemma {:induction false} EndOfBlock(r: Reader, ls: seq<string>, num: nat) returns (k: nat, es: seq<Line>)
    requires r.pcore.Some? && FeedAll(r, ls, num).Some? && FeedAll(r, ls, num).value.pcore.None?
    ensures k < |ls| && Entries(ls[..k], num, es) && IsEnd(ls[k]) && HasContent(es)
    ensures FeedAll(r, ls, num) == FeedAll(Ended(r.(pcore := Some(AddAll(r.pcore.value, es)))), ls[k + 1..], num + k + 1)
    decreases |ls|
  {
    hide Feed, IsEntry, Skipped, IsEnd, FromWords, Split, Added;
    if Skipped(ls[0]) {
      FeedSkipped(r, ls[0], num);
      k, es := EndOfBlock(r, ls[1..], num + 1);
      k := k + 1;
      assert ls[..k][1..] == ls[1..][..k - 1] && ls[..k][0] == ls[0];
    } else if IsEnd(ls[0]) {
      FeedLine(r, ls[0], num);
      k, es := 0, [];
      assert r.(pcore := Some(r.pcore.value)) == r;
    } else {
      FeedLine(r, ls[0], num);
      var l := FromWords(Split(ls[0]), num).value;
      EntryIff(ls[0], num, l);
      EntryWord(ls[0], num, l);
      var more;
      k, more := EndOfBlock(r.(pcore := Some(Added(r.pcore.value, l))), ls[1..], num + 1);
      k, es := k + 1, [l] + more;
      assert es[1..] == more;
      assert ls[..k][1..] == ls[1..][..k - 1] && ls[..k][0] == ls[0];
    }
  }

  /** Every text that is read to its end outside a block is described by the grammar. */
  lemma {:induction false} ReadIsDescribed(r: Reader, ls: seq<string>, num: nat) returns (toplevel: seq<Line>, pcores: seq<PCore>)
    requires r.pcore.None? && FeedAll(r, ls, num).Some? && FeedAll(r, ls, num).value.pcore.None?
    ensures Describes(ls, num, toplevel, pcores)
    ensures FeedAll(r, ls, num) == Some(With(r, toplevel, pcores))
    decreases |ls|
  {
    hide Feed, IsEntry, Skipped, IsBlock, FromWords, Split, Join, IsBegin;
    if ls == [] {
      toplevel, pcores := [], [];
      assert With(r, [], []) == r;
    } else if Skipped(ls[0]) {
      FeedSkipped(r, ls[0], num);
      toplevel, pcores := ReadIsDescribed(r, ls[1..], num + 1);
    } else {
      FeedLine(r, ls[0], num);
      var ip := Join(Split(ls[0])[1..]);
      BeginIff(ls[0], ip);
      if Split(ls[0])[0] == "BEGIN" {
        var k, p := OneBlock(r, ls, num, ip);
        var ps;
        toplevel, ps := ReadIsDescribed(WithPCores(r, [p]), ls[k + 1..], num + k + 1);
        assert r.file.pcores + [p] + ps == r.file.pcores + ([p] + ps);
        pcores := [p] + ps;
        assert pcores[1..] == ps && pcores[0] == p;
        assert IsBlock(ls, num, k, pcores[0]) && Describes(ls[k + 1..], num + k + 1, toplevel, pcores[1..]);
        assert Describes(ls, num, toplevel, pcores);
      } else {
        var l := FromWords(Split(ls[0]), num).value;
        EntryIff(ls[0], num, l);
        EntryWord(ls[0], num, l);
        var more;
        more, pcores := ReadIsDescribed(WithTop(r, [l]), ls[1..], num + 1);
        assert r.file.toplevel + [l] + more == r.file.toplevel + ([l] + more);
        toplevel := [l] + more;
        assert toplevel[1..] == more;
        assert Describes(ls, num, toplevel, pcores);
      }
    }
  }

  lemma OneBlock(r: Reader, ls: seq<string>, num: nat, ip: string) returns (k: nat, p: PCore)
    requires r.pcore.None? && ls != [] && IsBegin(ls[0], ip)
    requires FeedAll(r, ls, num).Some? && FeedAll(r, ls, num).value.pcore.None?
    ensures 0 < k < |ls| && IsBlock(ls, num, k, p)
    ensures FeedAll(r, ls, num) == FeedAll(WithPCores(r, [p]), ls[k + 1..], num + k + 1)
  {
    hide Feed, Skipped, Entries, LastInstance, Others, AddAll, IsBegin, IsEnd;
    FeedBeginLine(r, ls[0], num, ip);
    var es;
    k, es := EndOfBlock(Begun(r, ip), ls[1..], num + 1);
    k := k + 1;
    AddAllIs(PCore(ip, None, []), es);
    assert ls[1..k] == ls[1..][..k - 1] && ls[k + 1..] == ls[1..][k..];
    p := AddAll(PCore(ip, None, []), es);
    assert [] + Others(es) == Others(es);
  }

  // ---- Main results ----

  /** A text is accepted if and only if, but for blank lines and comments, it consists of entries and blocks; and the
      structure is what the entries and blocks say. A text that ends inside a block is not one of these. */
  lemma AcceptedIff(ls: seq<string>, f: File)
    requires WellSplit(ls)
    ensures Mhs.Parse(Text(ls)) == Some(f) <==> Describes(ls, 1, f.toplevel, f.pcores)
  {
    hide FeedAll, ReadText, Describes;
    ReadIsFeedAll(START, ls, 1);
    if Mhs.Parse(Text(ls)) == Some(f) {
      var t, p := ReadIsDescribed(START, ls, 1);
      assert [] + t == t && [] + p == p;
    }
    if Describes(ls, 1, f.toplevel, f.pcores) {
      DescribedIsRead(START, ls, 1, f.toplevel, f.pcores);
      assert [] + f.toplevel == f.toplevel && [] + f.pcores == f.pcores;
    }
  }

  /** The line numbers of a reader are forgotten. */
  function Unnumbered(r: Reader): Reader {
    Reader(Forget(r.file), if r.pcore.Some? then Some(r.pcore.value.(content := ForgetLines(r.pcore.value.content))) else None)
  }

  predicate SameUpToNumbers(a: Option<Reader>, b: Option<Reader>) {
    if a.Some? && b.Some? then Unnumbered(a.value) == Unnumbered(b.value) else a.None? && b.None?
  }

  lemma ForgetAppend(ls: seq<Line>, l: Line)
    ensures ForgetLines(ls + [l]) == ForgetLines(ls) + [l.(num := 0)]
  {
  }

  lemma ForgetPCore(f: File, p: PCore)
    ensures Forget(f.(pcores := f.pcores + [p])).toplevel == Forget(f).toplevel
    ensures Forget(f.(pcores := f.pcores + [p])).pcores == Forget(f).pcores + [p.(content := ForgetLines(p.content))]
  {
    hide ForgetLines;
  }

  lemma ForgetTop(f: File, l: Line)
    ensures Forget(f.(toplevel := f.toplevel + [l])).toplevel == Forget(f).toplevel + [l.(num := 0)]
    ensures Forget(f.(toplevel := f.toplevel + [l])).pcores == Forget(f).pcores
  {
    ForgetAppend(f.toplevel, l);
  }

  lemma EntryNumbers(ws: seq<string>, n: nat, n': nat)
    ensures match FromWords(ws, n)
            case None => FromWords(ws, n') == None
            case Some(l) => FromWords(ws, n') == Some(l.(num := n')) && l.num == n
  {
    hide Table, Paired, AsPairs, Join;
  }

  lemma AddedUnnumbered(p: PCore, l: Line, p': PCore, l': Line)
    requires p.(content := []) == p'.(content := []) && ForgetLines(p.content) == ForgetLines(p'.content)
    requires l.(num := 0) == l'.(num := 0) && l.content != []
    ensures Added(p, l).(content := []) == Added(p', l').(content := [])
    ensures ForgetLines(Added(p, l).content) == ForgetLines(Added(p', l').content)
  {
    ForgetAppend(p.content, l);
    ForgetAppend(p'.content, l');
    hide ForgetLines;
  }

  lemma FeedUnnumbered(r: Reader, r': Reader, line: string, n: nat, n': nat)
    requires Unnumbered(r) == Unnumbered(r')
    ensures SameUpToNumbers(Feed(r, line, n), Feed(r', line, n'))
  {
    hide Split, Significant, FromWords, Forget, ForgetLines, Join, Added;
    var ws := Split(line);
    EntryNumbers(ws, n, n');
    if r.pcore.Some? {
      var p, p' := r.pcore.value, r'.pcore.value;
      assert p.(content := []) == Unnumbered(r).pcore.value.(content := []);
      ForgetPCore(r.file, p);
      ForgetPCore(r'.file, p');
      if FromWords(ws, n).Some? {
        AddedUnnumbered(p, FromWords(ws, n).value, p', FromWords(ws, n').value);
      }
    } else if FromWords(ws, n).Some? {
      ForgetTop(r.file, FromWords(ws, n).value);
      ForgetTop(r'.file, FromWords(ws, n').value);
    }
  }

  lemma {:induction false} FeedAllUnnumbered(r: Reader, r': Reader, ls: seq<string>, n: nat, n': nat)
    requires Unnumbered(r) == Unnumbered(r')
    ensures SameUpToNumbers(FeedAll(r, ls, n), FeedAll(r', ls, n'))
    decreases |ls|
  {
    hide Feed, Unnumbered;
    if ls != [] {
      FeedUnnumbered(r, r', ls[0], n, n');
      if Feed(r, ls[0], n).Some? {
        FeedAllUnnumbered(Feed(r, ls[0], n).value, Feed(r', ls[0], n').value, ls[1..], n + 1, n' + 1);
      }
    }
  }

  lemma {:induction false} WellSplitWithout(a: seq<string>, l: string, b: seq<string>)
    requires WellSplit(a + [l] + b)
    ensures WellSplit(a + b)
  {
    var ls, ls' := a + [l] + b, a + b;
    forall i | 0 <= i < |ls'|
      ensures ls'[i] != [] && '\n' !in ls'[i][..|ls'[i]| - 1] && (i + 1 < |ls'| ==> ls'[i][|ls'[i]| - 1] == '\n')
    {
      assert ls'[i] == if i < |a| then ls[i] else ls[i + 1];
    }
  }

  /** A blank line or a comment may stand anywhere, or nowhere: it changes neither whether a text is accepted nor what the
      text means, but for line numbers. */
  lemma SkippedLinesDoNotCount(a: seq<string>, l: string, b: seq<string>)
    requires WellSplit(a + [l] + b) && Skipped(l)
    ensures var with, without := Mhs.Parse(Text(a + [l] + b)), Mhs.Parse(Text(a + b));
            if with.Some? && without.Some? then Forget(with.value) == Forget(without.value) else with.None? && without.None?
  {
    hide FeedAll, ReadText, WellSplit, Skipped, Forget, ForgetLines;
    WellSplitWithout(a, l, b);
    ReadIsFeedAll(START, a + [l] + b, 1);
    ReadIsFeedAll(START, a + b, 1);
    FeedAllAppend(START, a, b, 1);
    FeedAllAppend(START, a + [l], b, 1);
    FeedAllAppend(START, a, [l], 1);
    if FeedAll(START, a, 1).Some? {
      var r := FeedAll(START, a, 1).value;
      FeedOne(r, l, 1 + |a|);
      FeedSkipped(r, l, 1 + |a|);
      FeedAllUnnumbered(r, r, b, 1 + |a| + 1, 1 + |a|);
    }
  }

  lemma {:induction false} BlockStaysOpen(r: Reader, ls: seq<string>, num: nat)
    requires r.pcore.Some? && forall i | 0 <= i < |ls| :: !IsEnd(ls[i])
    ensures FeedAll(r, ls, num).Some? ==> FeedAll(r, ls, num).value.pcore.Some?
    decreases |ls|
  {
    hide Feed, IsEnd, Skipped, FromWords, Split;
    if ls != [] {
      if Skipped(ls[0]) {
        FeedSkipped(r, ls[0], num);
      } else {
        FeedLine(r, ls[0], num);
      }
      if Feed(r, ls[0], num).Some? {
        BlockStaysOpen(Feed(r, ls[0], num).value, ls[1..], num + 1);
      }
    }
  }

  /** A block that is not ended is an error, whatever stands in it and before it. */
  lemma OpenBlockIsRejected(a: seq<string>, l: string, ipName: string, b: seq<string>)
    requires WellSplit(a) && Mhs.Parse(Text(a)).Some?
    requires WellSplit(a + [l] + b) && IsBegin(l, ipName) && forall i | 0 <= i < |b| :: !IsEnd(b[i])
    ensures Mhs.Parse(Text(a + [l] + b)) == None
  {
    hide FeedAll, ReadText, WellSplit, IsBegin, IsEnd, Feed;
    ReadIsFeedAll(START, a, 1);
    ReadIsFeedAll(START, a + [l] + b, 1);
    FeedAllAppend(START, a + [l], b, 1);
    FeedAllAppend(START, a, [l], 1);
    var r := FeedAll(START, a, 1).value;
    FeedOne(r, l, 1 + |a|);
    FeedBeginLine(r, l, 1 + |a|, ipName);
    BlockStaysOpen(Begun(r, ipName), b, 1 + |a| + 1);
    assert 1 + |a + [l]| == 1 + |a| + 1;
  }
}
