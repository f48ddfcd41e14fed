// The Python string operations that tools/mhs.py is built from, and how they interact: split at white space,
// join, strip, split at a character. White space is never significant for any of them.
module PyString {

  /** str.isspace for one byte. */
  predicate Space(c: char) { c in {' ', '\t', '\n', '\r', '\U{000B}', '\U{000C}'} }

  /** Length of the leading run without white space. */
  function WordLength(s: string): (n: nat)
    ensures n <= |s|
    ensures forall i | 0 <= i < n :: !Space(s[i])
    ensures n < |s| ==> Space(s[n])
  {
    if s == [] || Space(s[0]) then 0 else 1 + WordLength(s[1..])
  }

  /** s.split() */
  function Split(s: string): (ws: seq<string>)
    ensures forall w | w in ws :: IsWord(w)
    decreases |s|
  {
    if s == [] then []
    else if Space(s[0]) then Split(s[1..])
    else
      var n := WordLength(s);
      [s[..n]] + Split(s[n..])
  }

  predicate NoSpace(w: string) { forall i | 0 <= i < |w| :: !Space(w[i]) }

  predicate IsWord(w: string) { w != [] && NoSpace(w) }

  /** " ".join(ws) */
  function Join(ws: seq<string>): string {
    if ws == [] then [] else if |ws| == 1 then ws[0] else ws[0] + " " + Join(ws[1..])
  }

  function LStrip(s: string): string {
    if s != [] && Space(s[0]) then LStrip(s[1..]) else s
  }

  function RStrip(s: string): string {
    if s != [] && Space(s[|s| - 1]) then RStrip(s[..|s| - 1]) else s
  }

  /** s.strip() */
  function Strip(s: string): string { RStrip(LStrip(s)) }

  /** s.split(c) */
  function SplitOn(s: string, c: char): (parts: seq<string>)
    ensures |parts| >= 1
  {
    if s == [] then [[]]
    else
      var rest := SplitOn(s[1..], c);
      if s[0] == c then [[]] + rest else Prepend(s[0], rest)
  }

  /** x at the front of the first part */
  function Prepend(x: char, parts: seq<string>): (r: seq<string>)
    requires |parts| >= 1
    ensures |r| == |parts|
  {
    [[x] + parts[0]] + parts[1..]
  }

  /** Every run of white space becomes a single blank. */
  function Collapse(s: string): string {
    if s == [] then []
    else if !Space(s[0]) then [s[0]] + Collapse(s[1..])
    else if |s| > 1 && Space(s[1]) then Collapse(s[1..])
    else [' '] + Collapse(s[1..])
  }

  /** The words of s with one blank between them. */
  function Norm(s: string): string { Strip(Collapse(s)) }

  function Map<A, B>(f: A -> B, xs: seq<A>): (ys: seq<B>)
    ensures |ys| == |xs| && forall i | 0 <= i < |xs| :: ys[i] == f(xs[i])
  {
    seq(|xs|, i requires 0 <= i < |xs| => f(xs[i]))
  }

  // ---- White space at the ends ----

  /** White space before or after its argument does not change what f returns. */
  ghost predicate IgnoresEnds<T>(f: string -> T) {
    && (forall x, b | Space(b) :: f([b] + x) == f(x))
    && (forall x, b | Space(b) :: f(x + [b]) == f(x))
  }

  lemma {:induction false} EndsOfStrip<T>(f: string -> T, s: string)
    requires IgnoresEnds(f)
    ensures f(Strip(s)) == f(s)
  {
    EndsOfLStrip(f, s);
    EndsOfRStrip(f, LStrip(s));
  }

  lemma {:induction false} EndsOfLStrip<T>(f: string -> T, s: string)
    requires IgnoresEnds(f)
    ensures f(LStrip(s)) == f(s)
  {
    if s != [] && Space(s[0]) {
      assert s == [s[0]] + s[1..];
      EndsOfLStrip(f, s[1..]);
    }
  }

  lemma {:induction false} EndsOfRStrip<T>(f: string -> T, s: string)
    requires IgnoresEnds(f)
    ensures f(RStrip(s)) == f(s)
  {
    if s != [] && Space(s[|s| - 1]) {
      assert s == s[..|s| - 1] + [s[|s| - 1]];
      EndsOfRStrip(f, s[..|s| - 1]);
    }
  }

  lemma {:induction false} LStripAppend(x: string, b: char)
    requires Space(b)
    ensures LStrip(x + [b]) == if LStrip(x) == [] then [] else LStrip(x) + [b]
  {
    if x == [] {
      assert x + [b] == [b];
      assert LStrip([b]) == LStrip([]);
    } else if Space(x[0]) {
      assert (x + [b])[1..] == x[1..] + [b];
      LStripAppend(x[1..], b);
    }
  }

  lemma StripIgnoresEnds()
    ensures IgnoresEnds(Strip)
  {
    forall x, b | Space(b) ensures Strip([b] + x) == Strip(x) {
      assert ([b] + x)[1..] == x;
    }
    forall x, b | Space(b) ensures Strip(x + [b]) == Strip(x) {
      LStripAppend(x, b);
      var l := LStrip(x);
      assert (l + [b])[..|l|] == l;
    }
  }

  lemma {:induction false} CollapseAppend(x: string, b: char)
    requires Space(b)
    ensures Collapse(x + [b]) == if x != [] && Space(x[|x| - 1]) then Collapse(x) else Collapse(x) + [' ']
  {
    if x == [] {
      assert x + [b] == [b];
      assert Collapse([b]) == [' '];
    } else {
      assert (x + [b])[1..] == x[1..] + [b];
      CollapseAppend(x[1..], b);
    }
  }

  lemma NormIgnoresEnds()
    ensures IgnoresEnds(Norm)
  {
    StripIgnoresEnds();
    forall x, b | Space(b) ensures Norm([b] + x) == Norm(x) {
      assert ([b] + x)[1..] == x;
      assert Collapse([b] + x) == Collapse(x) || Collapse([b] + x) == [' '] + Collapse(x);
      hide Strip;
    }
    forall x, b | Space(b) ensures Norm(x + [b]) == Norm(x) {
      CollapseAppend(x, b);
      hide Strip;
    }
  }

  lemma FirstWord(s: string) returns (w: string, u: string)
    requires s != [] && !Space(s[0])
    ensures s == w + u && IsWord(w) && (u != [] ==> Space(u[0])) && |u| < |s|
  {
    var n := WordLength(s);
    w, u := s[..n], s[n..];
  }

  lemma {:induction false} SplitAppend(x: string, b: char)
    requires Space(b)
    ensures Split(x + [b]) == Split(x)
    decreases |x|
  {
    hide Split, WordLength, IsWord, Space;
    if x == [] {
      SplitBlank(b, x);
      assert x + [b] == [b] + x;
    } else if Space(x[0]) {
      SplitBlank(x[0], x[1..]);
      SplitBlank(x[0], x[1..] + [b]);
      Assoc([x[0]], x[1..], [b]);
      assert x == [x[0]] + x[1..];
      SplitAppend(x[1..], b);
    } else {
      var w, u := FirstWord(x);
      SplitAppend(u, b);
      SplitAppendWord(w, u, b);
    }
  }

  lemma SplitBlank(b: char, s: string)
    requires Space(b)
    ensures Split([b] + s) == Split(s)
  {
    assert ([b] + s)[1..] == s;
  }

  lemma SplitAppendWord(w: string, u: string, b: char)
    requires IsWord(w) && Space(b) && (u != [] ==> Space(u[0]))
    requires Split(u + [b]) == Split(u)
    ensures Split(w + u + [b]) == Split(w + u)
  {
    hide Split, IsWord, Space;
    WordOf(w, u);
    WordOf(w, u + [b]);
    Assoc(w, u, [b]);
  }

  lemma {:induction false} WordLengthOf(w: string, rest: string)
    requires NoSpace(w) && (rest != [] ==> Space(rest[0]))
    ensures WordLength(w + rest) == |w|
  {
    if w == [] {
      assert w + rest == rest;
    } else {
      assert (w + rest)[1..] == w[1..] + rest;
      WordLengthOf(w[1..], rest);
    }
  }

  /** A word followed by white space or nothing is the first word. */
  lemma WordOf(w: string, rest: string)
    requires IsWord(w) && (rest != [] ==> Space(rest[0]))
    ensures Split(w + rest) == [w] + Split(rest)
  {
    var s := w + rest;
    assert s[0] == w[0];
    WordLengthOf(w, rest);
    assert s[..|w|] == w && s[|w|..] == rest;
  }

  lemma SplitIgnoresEnds()
    ensures IgnoresEnds(Split)
  {
    forall x, b | Space(b) ensures Split([b] + x) == Split(x) {
      SplitBlank(b, x);
    }
    forall x, b | Space(b) ensures Split(x + [b]) == Split(x) {
      SplitAppend(x, b);
    }
  }

  // ---- Splitting at a character ----

  /** b at the end of the last part */
  function AppendToLast(parts: seq<string>, b: char): seq<string>
    requires |parts| >= 1
  {
    parts[..|parts| - 1] + [parts[|parts| - 1] + [b]]
  }

  lemma AppendBehind(h: string, parts: seq<string>, b: char)
    requires |parts| >= 1
    ensures AppendToLast([h] + parts, b) == [h] + AppendToLast(parts, b)
  {
    assert ([h] + parts)[..|parts|] == [h] + parts[..|parts| - 1];
  }

  lemma AppendBehindFirst(h: char, parts: seq<string>, b: char)
    requires |parts| >= 1
    ensures var q := AppendToLast(parts, b);
            AppendToLast(Prepend(h, parts), b) == Prepend(h, q)
  {
    var q := AppendToLast(parts, b);
    if |parts| == 1 {
      assert [h] + (parts[0] + [b]) == ([h] + parts[0]) + [b];
    } else {
      assert q[0] == parts[0] && q[1..] == AppendToLast(parts[1..], b);
      AppendBehind([h] + parts[0], parts[1..], b);
    }
  }

  lemma {:induction false} SplitOnAppend(s: string, c: char, b: char)
    requires b != c
    ensures SplitOn(s + [b], c) == AppendToLast(SplitOn(s, c), b)
  {
    if s == [] {
      assert s + [b] == [b];
      var e: seq<string> := [[]];
      assert SplitOn([b][1..], c) == e;
      assert [b] + e[0] == [b] && [[b]] + e[1..] == [[b]];
    } else {
      assert (s + [b])[1..] == s[1..] + [b] && (s + [b])[0] == s[0];
      SplitOnAppend(s[1..], c, b);
      AppendBehind([], SplitOn(s[1..], c), b);
      AppendBehindFirst(s[0], SplitOn(s[1..], c), b);
      hide AppendToLast;
    }
  }

  /** A function that ignores the ends of every part ignores the ends of the whole. */
  lemma PartsIgnoreFront<T>(f: string -> T, c: char, x: string, b: char)
    requires IgnoresEnds(f) && Space(b) && !Space(c)
    ensures Map(f, SplitOn([b] + x, c)) == Map(f, SplitOn(x, c))
  {
    var r := SplitOn(x, c);
    SplitOnStep(b, x, c);
    assert f([b] + r[0]) == f(r[0]);
    hide SplitOn, IgnoresEnds, Space;
    var q := Prepend(b, r);
    forall i | 0 <= i < |r| ensures f(q[i]) == f(r[i]) {
      if i > 0 { assert q[i] == r[i]; }
    }
  }

  lemma PartsIgnoreBack<T>(f: string -> T, c: char, x: string, b: char)
    requires IgnoresEnds(f) && Space(b) && !Space(c)
    ensures Map(f, SplitOn(x + [b], c)) == Map(f, SplitOn(x, c))
  {
    SplitOnAppend(x, c, b);
    hide SplitOn;
    var r := SplitOn(x, c);
    var last := r[|r| - 1];
    assert f(last + [b]) == f(last);
    hide IgnoresEnds, Space;
    var q := AppendToLast(r, b);
    forall i | 0 <= i < |r| ensures f(q[i]) == f(r[i]) {
      if i < |r| - 1 { assert q[i] == r[i]; }
    }
  }

  /** The first part ends at the first c. */
  lemma {:induction false} SplitOnFirst(a: string, c: char, rest: string)
    requires c !in a
    ensures SplitOn(a + [c] + rest, c) == [a] + SplitOn(rest, c)
  {
    var s := a + [c] + rest;
    if a == [] {
      assert s[1..] == rest;
    } else {
      assert s[1..] == a[1..] + [c] + rest;
      SplitOnFirst(a[1..], c, rest);
      assert [a[0]] + a[1..] == a;
    }
  }

  lemma {:induction false} SplitOnNothing(s: string, c: char)
    requires c !in s
    ensures SplitOn(s, c) == [s]
  {
    if s != [] {
      SplitOnNothing(s[1..], c);
      assert [s[0]] + s[1..] == s;
    }
  }

  /** The parts contain no c and no characters that were not there. */
  lemma {:induction false} SplitOnChars(s: string, c: char)
    ensures forall p, x | p in SplitOn(s, c) && x in p :: x != c && x in s
  {
    if s != [] {
      SplitOnChars(s[1..], c);
    }
  }

  lemma SplitOnStep(x: char, s: string, c: char)
    ensures SplitOn([x] + s, c) == if x == c then [[]] + SplitOn(s, c) else Prepend(x, SplitOn(s, c))
  {
    assert ([x] + s)[1..] == s;
  }

  lemma MapPrepend(f: string -> string, x: char, y: char, parts: seq<string>)
    requires |parts| >= 1 && f([x] + parts[0]) == [y] + f(parts[0])
    ensures Map(f, Prepend(x, parts)) == Prepend(y, Map(f, parts))
  {
  }

  lemma MapAbsorb(f: string -> string, x: char, parts: seq<string>)
    requires |parts| >= 1 && f([x] + parts[0]) == f(parts[0])
    ensures Map(f, Prepend(x, parts)) == Map(f, parts)
  {
  }

  /** Collapsing white space and splitting commute. */
  lemma {:induction false} SplitOnCollapse(s: string, c: char)
    requires !Space(c)
    ensures SplitOn(Collapse(s), c) == Map(Collapse, SplitOn(s, c))
  {
    if s == [] {
      assert SplitOn(Collapse(s), c) == [[]];
    } else {
      var x, t := s[0], s[1..];
      assert s == [x] + t;
      CollapseCases(x, t);
      SplitOnCollapse(t, c);
      SplitOnStep(x, t, c);
      if x != c {
        CollapseFirst(s, c);
      }
      hide Collapse, SplitOn, Space, Prepend;
      var parts := SplitOn(t, c);
      if x == c {
        SplitOnStep(x, Collapse(t), c);
        CollapseNothing();
      } else if Space(x) && t != [] && Space(t[0]) {
        MapAbsorb(Collapse, x, parts);
      } else {
        var y := if Space(x) then ' ' else x;
        SplitOnStep(y, Collapse(t), c);
        MapPrepend(Collapse, x, y, parts);
        BlankIsSpace();
      }
    }
  }

  lemma CollapseCases(x: char, t: string)
    ensures Collapse([x] + t) ==
            if !Space(x) then [x] + Collapse(t)
            else if t != [] && Space(t[0]) then Collapse(t)
            else [' '] + Collapse(t)
  {
    assert ([x] + t)[1..] == t;
  }

  lemma CollapseNothing()
    ensures Collapse([]) == []
  {
  }

  lemma BlankIsSpace()
    ensures Space(' ')
  {
  }

  /** What collapsing does to the first part. */
  lemma CollapseFirst(s: string, c: char)
    requires s != [] && s[0] != c && !Space(c)
    ensures var first := SplitOn(s[1..], c)[0];
            Collapse([s[0]] + first) ==
            if !Space(s[0]) then [s[0]] + Collapse(first)
            else if |s| > 1 && Space(s[1]) then Collapse(first)
            else [' '] + Collapse(first)
  {
    var first := SplitOn(s[1..], c)[0];
    assert ([s[0]] + first)[1..] == first;
    if |s| > 1 {
      assert s[1..][0] == s[1];
    }
  }

  // ---- Norm ----

  lemma {:induction false} CollapseIdempotent(s: string)
    ensures Collapse(Collapse(s)) == Collapse(s)
    ensures Collapse(s) != [] ==> Space(Collapse(s)[0]) == Space(s[0])
    ensures s != [] ==> Collapse(s) != []
  {
    if s != [] {
      CollapseIdempotent(s[1..]);
      if !(Space(s[0]) && |s| > 1 && Space(s[1])) {
        assert Collapse(s)[1..] == Collapse(s[1..]);
      }
    }
  }

  lemma NormIdempotent(s: string)
    ensures Norm(Norm(s)) == Norm(s)
  {
    NormIgnoresEnds();
    CollapseIdempotent(s);
    assert Norm(Collapse(s)) == Norm(s);
    EndsOfStrip(Norm, Collapse(s));
  }

  lemma {:induction false} CollapseChars(s: string)
    ensures forall x | x in Collapse(s) :: x == ' ' || (x in s && !Space(x))
  {
    if s != [] {
      CollapseChars(s[1..]);
    }
  }

  lemma {:induction false} LStripIsSuffix(s: string)
    ensures exists n: nat :: n <= |s| && LStrip(s) == s[n..]
  {
    if s != [] && Space(s[0]) {
      LStripIsSuffix(s[1..]);
      var n: nat :| n <= |s| - 1 && LStrip(s[1..]) == s[1..][n..];
      assert s[1..][n..] == s[n + 1..];
    } else {
      assert LStrip(s) == s[0..];
    }
  }

  lemma {:induction false} RStripIsPrefix(s: string)
    ensures RStrip(s) <= s
  {
    if s != [] && Space(s[|s| - 1]) {
      RStripIsPrefix(s[..|s| - 1]);
    }
  }

  /** The only white space in a normal form are blanks, and no new characters appear. */
  lemma NormChars(s: string)
    ensures forall x | x in Norm(s) :: x == ' ' || (x in s && !Space(x))
  {
    CollapseChars(s);
    LStripIsSuffix(Collapse(s));
    RStripIsPrefix(LStrip(Collapse(s)));
  }

  lemma {:induction false} CollapseWord(w: string, rest: string)
    requires NoSpace(w)
    ensures Collapse(w + rest) == w + Collapse(rest)
  {
    if w == [] {
      assert w + rest == rest;
      assert w + Collapse(rest) == Collapse(rest);
    } else {
      var x, v := w[0], w[1..];
      assert NoSpace(v) && !Space(x) && w == [x] + v;
      hide Collapse, NoSpace, Space;
      CollapseWord(v, rest);
      CollapseCases(x, v + rest);
      Assoc([x], v, rest);
      Assoc([x], v, Collapse(rest));
    }
  }

  lemma Assoc(a: string, b: string, c: string)
    ensures a + (b + c) == a + b + c
  {
  }

  lemma {:induction false} RStripConcat(a: string, b: string)
    ensures RStrip(a + b) == if RStrip(b) == [] then RStrip(a) else a + RStrip(b)
    decreases |b|
  {
    if b == [] {
      assert a + b == a;
    } else if Space(b[|b| - 1]) {
      assert (a + b)[..|a + b| - 1] == a + b[..|b| - 1];
      RStripConcat(a, b[..|b| - 1]);
    }
  }

  /** Collapsed white space at the front is one blank. */
  lemma {:induction false} CollapseFront(s: string)
    requires s != [] && Space(s[0])
    ensures Collapse(s) != [] && Collapse(s)[0] == ' '
    ensures LStrip(Collapse(s)) == Collapse(s)[1..]
  {
    if |s| > 1 && Space(s[1]) {
      CollapseFront(s[1..]);
    } else {
      CollapseIdempotent(s[1..]);
      assert Collapse(s)[1..] == Collapse(s[1..]);
    }
  }

  lemma NormOfWord(w: string, rest: string)
    requires IsWord(w) && (rest != [] ==> Space(rest[0]))
    ensures Norm(w + rest) == if Norm(rest) == [] then w else w + " " + Norm(rest)
  {
    CollapseWord(w, rest);
    if rest != [] {
      CollapseFront(rest);
    } else {
      CollapseNothing();
    }
    hide Collapse, Strip, IsWord, Space;
    StripOfWord(w, Collapse(rest));
  }

  lemma StripOfWord(w: string, z: string)
    requires IsWord(w) && (z != [] ==> z[0] == ' ' && LStrip(z) == z[1..])
    ensures Strip(w + z) == if Strip(z) == [] then w else w + " " + Strip(z)
  {
    assert (w + z)[0] == w[0];
    assert LStrip(w + z) == w + z;
    assert RStrip(w) == w;
    BlankStripped();
    hide LStrip, RStrip, IsWord, Space;
    RStripConcat(w, z);
    if z == [] {
      assert w + z == w;
    } else {
      assert z == [' '] + z[1..];
      RStripConcat([' '], z[1..]);
      Assoc(w, [' '], RStrip(z[1..]));
    }
  }

  lemma BlankStripped()
    ensures RStrip([' ']) == [] && Strip([]) == []
  {
    assert [' '][..0] == [];
  }

  lemma JoinStep(w: string, ws: seq<string>)
    ensures Join([w] + ws) == if ws == [] then w else w + " " + Join(ws)
  {
    assert ([w] + ws)[1..] == ws;
  }

  lemma JoinSplitWord(w: string, u: string)
    requires IsWord(w) && (u != [] ==> Space(u[0]))
    requires Join(Split(u)) == Norm(u) && (Split(u) == [] <==> Norm(u) == [])
    ensures Join(Split(w + u)) == Norm(w + u) && Norm(w + u) != []
  {
    assert w != [];
    hide Norm, Split, Join, IsWord, Space;
    WordOf(w, u);
    NormOfWord(w, u);
    JoinStep(w, Split(u));
  }

  /** Splitting into words and joining them again is the normal form. */
  lemma {:induction false} JoinSplit(s: string)
    ensures Join(Split(s)) == Norm(s)
    ensures Split(s) == [] <==> Norm(s) == []
    decreases |s|
  {
    if s == [] {
      return;
    }
    hide Norm, Split, Join, WordLength, IsWord, Space;
    if Space(s[0]) {
      NormIgnoresEnds();
      SplitBlank(s[0], s[1..]);
      assert s == [s[0]] + s[1..];
      assert Norm([s[0]] + s[1..]) == Norm(s[1..]);
      JoinSplit(s[1..]);
    } else {
      var w, u := FirstWord(s);
      JoinSplit(u);
      JoinSplitWord(w, u);
      WordOf(w, u);
    }
  }

  /** What strip() leaves starts with the first word. */
  lemma {:induction false} StripFirst(s: string)
    ensures Split(s) == [] <==> Strip(s) == []
    ensures Split(s) != [] ==> Strip(s) != [] && Split(s)[0] != [] && Strip(s)[0] == Split(s)[0][0]
    ensures Split(Strip(s)) == Split(s)
  {
    SplitIgnoresEnds();
    EndsOfStrip(Split, s);
    var t := Strip(s);
    EndsStripped(s);
    if t != [] {
      assert Split(t)[0] == t[..WordLength(t)];
    }
  }

  lemma {:induction false} EndsStripped(s: string)
    ensures Strip(s) != [] ==> !Space(Strip(s)[0])
  {
    LStripFront(s);
    RStripIsPrefix(LStrip(s));
  }

  lemma {:induction false} LStripFront(s: string)
    ensures LStrip(s) != [] ==> !Space(LStrip(s)[0])
  {
    if s != [] && Space(s[0]) {
      LStripFront(s[1..]);
    }
  }
}
