/** Writing directives for the scanner of ConfToken, and reading them back. */
module ConfText {
  import opened ConfToken

  // A word can be written as it is, or between double quotes with backslashes before quotes and backslashes.
  datatype Piece = Plain(text: string) | Quoted(text: string)

  function Escape(w: string): string {
    if w == [] then [] else (if w[0] == '"' || w[0] == '\\' then ['\\', w[0]] else [w[0]]) + Escape(w[1..])
  }

  predicate PlainChar(ch: char) {
    !Blank(ch) && ch != ';' && ch != '{' && ch != '\\' && ch != '$'
  }

  predicate AllPlain(w: string) {
    w == [] || (PlainChar(w[0]) && AllPlain(w[1..]))
  }

  predicate PlainStart(ch: char) {
    PlainChar(ch) && ch != '}' && ch != '#' && ch != '"' && ch != '\''
  }

  // Whether a piece may be written the way it asks for; any word may be quoted.
  predicate Writable(p: Piece) {
    p.Plain? ==> p.text != [] && PlainStart(p.text[0]) && AllPlain(p.text[1..])
  }

  predicate AllWritable(ps: seq<Piece>) {
    ps == [] || (Writable(ps[0]) && AllWritable(ps[1..]))
  }

  function Write(p: Piece): string {
    match p
    case Plain(w) => w
    case Quoted(w) => "\"" + Escape(w) + "\""
  }

  // A directive: its words, each followed by a blank, and the character that ends it
  function Directive(ps: seq<Piece>, end: char): string {
    if ps == [] then [end] else Write(ps[0]) + " " + Directive(ps[1..], end)
  }

  function Texts(ps: seq<Piece>): seq<string> {
    if ps == [] then [] else [ps[0].text] + Texts(ps[1..])
  }

  lemma {:induction false} UnescapeEscape(w: string)
    ensures Unescape(Escape(w)) == w
  {
    if w != [] {
      UnescapeEscape(w[1..]);
      var e := Escape(w);
      if w[0] == '"' || w[0] == '\\' {
        assert e[0] == '\\' && e[1] == w[0] && e[2..] == Escape(w[1..]);
      } else {
        assert e[0] == w[0] && e[1..] == Escape(w[1..]);
      }
    }
  }

  lemma {:induction false} UnescapePlain(w: string)
    requires AllPlain(w)
    ensures Unescape(w) == w
  {
    if w != [] {
      UnescapePlain(w[1..]);
    }
  }

  // `text` stands in the file at position i.
  ghost predicate Stands(file: string, i: nat, text: string) {
    i + |text| <= |file| && file[i..i + |text|] == text
  }

  lemma StandsSplit(file: string, i: nat, a: string, b: string)
    requires Stands(file, i, a + b)
    ensures Stands(file, i, a) && Stands(file, i + |a|, b)
  {
    var c := a + b;
    assert file[i..i + |a|] == c[..|a|];
    assert file[i + |a|..i + |a| + |b|] == c[|a|..];
  }

  // A scan at position i in state s goes on at position j in state t with every limit from m on; a smaller one it
  // exceeds on the way.
  ghost predicate Leads(file: string, i: nat, s: Scan, j: nat, t: Scan, m: int) {
    && s.start <= i <= |file| && t.start <= j <= |file| && i - s.start <= m && j - t.start <= m
    && forall n: nat {:trigger Any(n)} :: Any(n) && i - s.start <= n ==>
         if n < m then ScanFrom(file, i, s, n).rc == TOO_LONG else ScanFrom(file, i, s, n) == ScanFrom(file, j, t, n)
  }

  ghost predicate Ends(file: string, i: nat, s: Scan, r: Result, m: int) {
    && s.start <= i <= |file| && i - s.start <= m
    && forall n: nat {:trigger Any(n)} :: Any(n) && i - s.start <= n ==>
         if n < m then ScanFrom(file, i, s, n).rc == TOO_LONG else Same(ScanFrom(file, i, s, n), r)
  }

  ghost predicate Same(q: Result, r: Result) {
    q.rc == r.rc && q.words == r.words && q.at == r.at
  }

  function Max(a: int, b: int): int {
    if a < b then b else a
  }

  lemma Join(file: string, i: nat, s: Scan, j: nat, t: Scan, k: nat, u: Scan, m: int, n: int, mn: int)
    requires Leads(file, i, s, j, t, m) && Leads(file, j, t, k, u, n) && mn == Max(m, n)
    ensures Leads(file, i, s, k, u, mn)
  {}

  lemma Finish(file: string, i: nat, s: Scan, j: nat, t: Scan, r: Result, m: int, n: int, mn: int)
    requires Leads(file, i, s, j, t, m) && Ends(file, j, t, r, n) && mn == Max(m, n)
    ensures Ends(file, i, s, r, mn)
  {}

  lemma OneStep(file: string, i: nat, s: Scan, j: nat, t: Scan, m: int)
    requires s.start <= i < |file| && StepAt(file, i, s) == Go(t) && t.start in {s.start, i, j} && j == i + 1 &&
      m == j - s.start
    ensures Leads(file, i, s, j, t, m)
  {}

  // Inside double quotes the escaped text is passed over, with the quotes still open.
  lemma {:induction false} PassQuoted(file: string, i: nat, s: Scan, w: string, j: nat, m: int) returns (t: Scan)
    requires j == i + |Escape(w)| && s.start <= i && Stands(file, i, Escape(w)) &&
      s.f == FRESH.(lastSpace := false, dQuoted := true, variable := s.f.variable)
    requires m == j - s.start
    ensures t == s.(line := t.line, f := s.f.(variable := t.f.variable)) && Leads(file, i, s, j, t, m)
    decreases w
  {
    if w == [] {
      t := s;
    } else {
      var head := if w[0] == '"' || w[0] == '\\' then ['\\', w[0]] else [w[0]];
      StandsSplit(file, i, head, Escape(w[1..]));
      var k := i + |head|;
      var u := PassHead(file, i, s, head, k, k - s.start);
      t := PassQuoted(file, k, u, w[1..], j, m);
      Join(file, i, s, k, u, j, t, k - s.start, m, m);
    }
  }

  lemma PassHead(file: string, i: nat, s: Scan, head: string, j: nat, m: int) returns (t: Scan)
    requires s.start <= i && Stands(file, i, head) &&
      s.f == FRESH.(lastSpace := false, dQuoted := true, variable := s.f.variable)
    requires if |head| == 2 then head[0] == '\\' else |head| == 1 && head[0] != '\\' && head[0] != '"'
    requires j == i + |head| && m == j - s.start
    ensures t == s.(line := t.line, f := s.f.(variable := t.f.variable)) && Leads(file, i, s, j, t, m)
  {
    assert file[i] == head[0];
    t := StepAt(file, i, s).s;
    var k := i + 1;
    OneStep(file, i, s, k, t, k - s.start);
    if |head| == 2 {
      assert file[k] == head[1];
      var u := StepAt(file, k, t).s;
      OneStep(file, k, t, j, u, m);
      Join(file, i, s, k, t, j, u, k - s.start, m, m);
      t := u;
    }
  }

  lemma {:induction false} PassPlain(file: string, i: nat, s: Scan, w: string, j: nat, m: int)
    requires j == i + |w| && m == j - s.start && s.start <= i && Stands(file, i, w) &&
      s.f == FRESH.(lastSpace := false) && AllPlain(w)
    ensures Leads(file, i, s, j, s, m)
    decreases w
  {
    if w != [] {
      var k := i + 1;
      assert file[i] == w[0];
      assert StepAt(file, i, s) == Go(s);
      OneStep(file, i, s, k, s, k - s.start);
      assert w == [w[0]] + w[1..];
      StandsSplit(file, i, [w[0]], w[1..]);
      PassPlain(file, k, s, w[1..], j, m);
      Join(file, i, s, k, s, j, s, k - s.start, m, m);
    }
  }

  ghost function Opened(s: Scan, i: nat, quote: bool): Scan {
    s.(f := FRESH.(lastSpace := false, dQuoted := quote), start := if quote then i + 1 else i, startLine := s.line)
  }

  // The first character of a piece
  lemma OpenPiece(file: string, i: nat, s: Scan, j: nat, u: Scan, m: int)
    requires s.start <= i < |file| && s.f == FRESH && (file[i] == '"' || PlainStart(file[i]))
    requires j == i + 1 && u == Opened(s, i, file[i] == '"') && m == j - s.start
    ensures Leads(file, i, s, j, u, m)
  {
    assert StepAt(file, i, s) == Go(u);
    OneStep(file, i, s, j, u, m);
  }

  // The blank after a plain word, and the quote and the blank after a quoted one
  lemma ClosePlain(file: string, i: nat, s: Scan, w: string, j: nat, t: Scan, m: int)
    requires s.start <= i < |file| && s.f == FRESH.(lastSpace := false) && file[i] == ' ' && file[s.start..i] == w &&
      Unescape(w) == w
    requires j == i + 1 && t == s.(f := FRESH, words := s.words + [w]) && m == j - s.start
    ensures Leads(file, i, s, j, t, m)
  {
    OneStep(file, i, s, j, t, m);
  }

  lemma CloseQuoted(file: string, i: nat, s: Scan, w: string, j: nat, t: Scan, m: int)
    requires s.start <= i < |file| - 1 && s.f == FRESH.(lastSpace := false, dQuoted := true, variable := s.f.variable)
    requires file[i] == '"' && file[i + 1] == ' ' && Unescape(file[s.start..i]) == w
    requires j == i + 2 && t == s.(f := FRESH, words := s.words + [w]) && m == j - s.start
    ensures Leads(file, i, s, j, t, m)
  {
    var k, u := i + 1, s.(f := FRESH.(lastSpace := false, needSpace := true), words := s.words + [w]);
    OneStep(file, i, s, k, u, k - s.start);
    OneStep(file, k, u, j, t, m);
    Join(file, i, s, k, u, j, t, k - s.start, m, m);
  }

  lemma PlainSplit(file: string, i: nat, w: string)
    requires w != [] && Stands(file, i, w + " ")
    ensures i + |w| < |file| && file[i] == w[0] && file[i + |w|] == ' ' && file[i..i + |w|] == w &&
      Stands(file, i + 1, w[1..])
  {
    StandsSplit(file, i, w, " ");
    assert w == [w[0]] + w[1..];
    StandsSplit(file, i, [w[0]], w[1..]);
    assert file[i + |w|..i + |w| + 1] == " ";
  }

  lemma QuotedSplit(file: string, i: nat, w: string) returns (j: nat)
    requires Stands(file, i, Write(Quoted(w)) + " ")
    ensures j == i + 1 + |Escape(w)| && j + 2 == i + |Write(Quoted(w))| + 1 <= |file|
    ensures file[i] == '"' && Stands(file, i + 1, Escape(w)) && file[j] == '"' && file[j + 1] == ' '
  {
    var e := Escape(w);
    j := i + 1 + |e|;
    var q, z := "\"", "\" ";
    assert Write(Quoted(w)) + " " == q + (e + z);
    StandsSplit(file, i, q, e + z);
    StandsSplit(file, i + 1, e, z);
    assert file[i..i + 1][0] == q[0] && file[j..j + 2][0] == z[0] && file[j..j + 2][1] == z[1];
  }

  // The bytes from the start of a word to what follows the blank behind it
  function Span(p: Piece): nat {
    match p
    case Plain(w) => |w| + 1
    case Quoted(w) => |Escape(w)| + 2
  }

  // The rest of a piece behind its first character, and the blank after it
  lemma BodyPlain(file: string, i: nat, u: Scan, w: string, k: nat, j: nat, t: Scan, m: int)
    requires k == i + 1 && j == k + |w| <= |file| && |w| > 0 && u.start == i && u.f == FRESH.(lastSpace := false)
    requires Stands(file, k, w[1..]) && AllPlain(w) && file[i..j - 1] == w && file[j - 1] == ' '
    requires t == u.(f := FRESH, words := u.words + [w]) && m == |w| + 1
    ensures Leads(file, k, u, j, t, m)
  {
    PassPlain(file, k, u, w[1..], j - 1, m - 1);
    UnescapePlain(w);
    ClosePlain(file, j - 1, u, w, j, t, m);
    Join(file, k, u, j - 1, u, j, t, m - 1, m, m);
  }

  lemma BodyQuoted(file: string, i: nat, u: Scan, w: string, j: nat, m: int) returns (t: Scan)
    requires m == |Escape(w)| + 2 && j == i + m <= |file| && u.start == i &&
      u.f == FRESH.(lastSpace := false, dQuoted := true)
    requires Stands(file, i, Escape(w)) && file[j - 2] == '"' && file[j - 1] == ' '
    ensures t == u.(f := FRESH, line := t.line, words := u.words + [w]) && Leads(file, i, u, j, t, m)
  {
    var v := PassQuoted(file, i, u, w, j - 2, m - 2);
    UnescapeEscape(w);
    t := v.(f := FRESH, words := v.words + [w]);
    CloseQuoted(file, j - 2, v, w, j, t, m);
    Join(file, i, u, j - 2, v, j, t, m - 2, m, m);
  }

  // A piece and the blank after it add one word.
  lemma ReadPlain(file: string, i: nat, s: Scan, w: string, j: nat, m: int) returns (t: Scan)
    requires s.start <= i && s.f == FRESH && Writable(Plain(w)) && Stands(file, i, w + " ")
    requires j == i + |w| + 1 && m == Max(i + 1 - s.start, |w| + 1)
    ensures t == Opened(s, i, false).(f := FRESH, words := s.words + [w]) && Leads(file, i, s, j, t, m)
  {
    PlainSplit(file, i, w);
    var u, k := Opened(s, i, false), i + 1;
    OpenPiece(file, i, s, k, u, k - s.start);
    t := u.(f := FRESH, words := s.words + [w]);
    BodyPlain(file, i, u, w, k, j, t, |w| + 1);
    Join(file, i, s, k, u, j, t, k - s.start, |w| + 1, m);
  }

  lemma ReadQuoted(file: string, i: nat, s: Scan, w: string, j: nat, m: int) returns (t: Scan)
    requires s.start <= i && s.f == FRESH && Stands(file, i, Write(Quoted(w)) + " ")
    requires j == i + |Write(Quoted(w))| + 1 && m == Max(i + 1 - s.start, |Escape(w)| + 2)
    ensures t == Opened(s, i, true).(f := FRESH, line := t.line, words := s.words + [w]) && Leads(file, i, s, j, t, m)
  {
    var q := QuotedSplit(file, i, w);
    var u, k := Opened(s, i, true), i + 1;
    OpenPiece(file, i, s, k, u, k - s.start);
    t := BodyQuoted(file, k, u, w, j, |Escape(w)| + 2);
    Join(file, i, s, k, u, j, t, k - s.start, |Escape(w)| + 2, m);
  }

  lemma ReadPiece(file: string, i: nat, s: Scan, p: Piece, j: nat, m: int) returns (t: Scan)
    requires s.start <= i && s.f == FRESH && Stands(file, i, Write(p) + " ") && Writable(p) && j == i + |Write(p)| + 1
    requires m == Max(i + 1 - s.start, Span(p))
    ensures t.f == FRESH && t.start == j - Span(p) && t.words == s.words + [p.text] && Leads(file, i, s, j, t, m)
  {
    if p.Plain? {
      t := ReadPlain(file, i, s, p.text, j, m);
    } else {
      t := ReadQuoted(file, i, s, p.text, j, m);
    }
  }

  lemma CloseDirective(file: string, i: nat, s: Scan, end: char, r: Result, m: int)
    requires s.start <= i && s.f == FRESH && Stands(file, i, [end]) && s.words != [] && (end == ';' || end == '{')
    requires r.rc == (if end == ';' then OK else BLOCK_START) && r.words == s.words && r.at == i + 1 &&
      m == i + 1 - s.start
    ensures Ends(file, i, s, r, m)
  {
    assert file[i] == end;
  }

  lemma TextsStep(ps: seq<Piece>, words: seq<string>)
    requires ps != []
    ensures words + Texts(ps) == (words + [ps[0].text]) + Texts(ps[1..])
  {}

  lemma DirectiveSplit(file: string, i: nat, ps: seq<Piece>, end: char) returns (j: nat)
    requires ps != [] && Stands(file, i, Directive(ps, end))
    ensures j == i + |Write(ps[0])| + 1 && i + |Directive(ps, end)| == j + |Directive(ps[1..], end)|
    ensures Stands(file, i, Write(ps[0]) + " ") && Stands(file, j, Directive(ps[1..], end))
  {
    var text, rest := Write(ps[0]) + " ", Directive(ps[1..], end);
    StandsSplit(file, i, text, rest);
    j := i + |text|;
  }

  // The smallest limit with which none of the words is too long
  function Need(ps: seq<Piece>): nat {
    if ps == [] then 0 else Max(Span(ps[0]) + 1, Need(ps[1..]))
  }

  lemma {:induction false} NeedIff(ps: seq<Piece>, n: nat)
    ensures Need(ps) <= n <==> forall p :: p in ps ==> Span(p) < n
  {
    if ps != [] {
      NeedIff(ps[1..], n);
      assert ps == [ps[0]] + ps[1..];
    }
  }

  lemma {:induction false} ReadAll(file: string, i: nat, s: Scan, ps: seq<Piece>, end: char, r: Result, m: int)
    requires s.start <= i && s.f == FRESH && Stands(file, i, Directive(ps, end)) && r.words != [] && AllWritable(ps) &&
      (end == ';' || end == '{')
    requires r.rc == (if end == ';' then OK else BLOCK_START) && r.words == s.words + Texts(ps) &&
      r.at == i + |Directive(ps, end)|
    requires m == Max(i + 1 - s.start, Need(ps))
    ensures Ends(file, i, s, r, m)
    decreases ps
  {
    if ps == [] {
      assert r.words == s.words;
      CloseDirective(file, i, s, end, r, m);
    } else {
      var j := DirectiveSplit(file, i, ps, end);
      var m1, m2 := Max(i + 1 - s.start, Span(ps[0])), Max(Span(ps[0]) + 1, Need(ps[1..]));
      var t := ReadPiece(file, i, s, ps[0], j, m1);
      TextsStep(ps, s.words);
      ReadAll(file, j, t, ps[1..], end, r, m2);
      Finish(file, i, s, j, t, r, m1, m2, m);
    }
  }

  // Reading undoes writing: at a directive the scanner returns exactly its words and stops behind it, and it gives up
  // exactly when one of the words, with its quote and the blank behind it, fills the buffer.
  lemma RoundTrip(file: string, i: nat, line: nat, ps: seq<Piece>, end: char)
    requires ps != [] && Stands(file, i, Directive(ps, end)) && AllWritable(ps) && (end == ';' || end == '{')
    ensures var r := Token(file, i, line, BUFFER);
            if exists p :: p in ps && Span(p) >= BUFFER then r.rc == TOO_LONG
            else r.rc == (if end == ';' then OK else BLOCK_START) && r.words == Texts(ps) &&
                 r.at == i + |Directive(ps, end)|
  {
    var r := Result(if end == ';' then OK else BLOCK_START, Texts(ps), line, i + |Directive(ps, end)|);
    var s := Scan(FRESH, i, line, line, []);
    ReadAll(file, i, s, ps, end, r, Max(1, Need(ps)));
    NeedIff(ps, BUFFER);
    assert Any(BUFFER);
  }
}
