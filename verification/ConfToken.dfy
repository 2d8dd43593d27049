/** The configuration scanner ngx_conf_read_token of nginx/src/core/ngx_conf_file.c.

    Bytes are characters.  The scanner reads the file through a buffer of NGX_CONF_BUFFER bytes in which it moves the
    text of the current word to the front before each read. */
module ConfToken {

  const BUFFER := 4096

  // TOO_LONG and READ_ERROR are the NGX_ERROR returns with those messages.
  datatype Rc = OK | BLOCK_START | BLOCK_DONE | FILE_DONE | ERROR | TOO_LONG | READ_ERROR

  datatype Flags = Flags(
    needSpace: bool, lastSpace: bool, comment: bool, variable: bool, quoted: bool, sQuoted: bool, dQuoted: bool)

  const FRESH := Flags(false, true, false, false, false, false, false)

  predicate Blank(ch: char) {
    ch == ' ' || ch == '\t' || ch == '\r' || ch == '\n'
  }

  // What one character does: only the flags change; a token starts at this character or after it; the scanner
  // returns; or a word ends, and the scanner returns or goes on.
  datatype Verdict = Skip(f: Flags) | Mark(f: Flags, after: bool) | Return(rc: Rc) | Word(f: Flags, next: Rc)

  // n is the number of words so far.  In Word, FILE_DONE stands for going on.
  function Classify(f0: Flags, ch: char, n: nat): Verdict {
    var f := if ch == '\n' then f0.(comment := false) else f0;
    if f.comment then Skip(f)
    else if f.quoted then Skip(f.(quoted := false))
    else if f.needSpace && Blank(ch) then Skip(f.(lastSpace := true, needSpace := false))
    else if f.needSpace && ch == ';' then Return(OK)
    else if f.needSpace && ch == '{' then Return(BLOCK_START)
    else if f.needSpace && ch != ')' then Return(ERROR)
    else if f.needSpace || f.lastSpace then Begin(f.(lastSpace := true, needSpace := false), ch, n)
    else Inside(f, ch)
  }

  // Between words
  function Begin(f: Flags, ch: char, n: nat): Verdict {
    if Blank(ch) then Skip(f)
    else if ch == ';' || ch == '{' then Return(if n == 0 then ERROR else if ch == '{' then BLOCK_START else OK)
    else if ch == '}' then Return(if n != 0 then ERROR else BLOCK_DONE)
    else if ch == '#' then Mark(f.(comment := true), false)
    else if ch == '\\' then Mark(f.(quoted := true, lastSpace := false), false)
    else if ch == '"' then Mark(f.(dQuoted := true, lastSpace := false), true)
    else if ch == '\'' then Mark(f.(sQuoted := true, lastSpace := false), true)
    else Mark(f.(lastSpace := false), false)
  }

  // In a word
  function Inside(f0: Flags, ch: char): Verdict {
    if ch == '{' && f0.variable then Skip(f0) else
    var f := f0.(variable := false);
    if ch == '\\' then Skip(f.(quoted := true))
    else if ch == '$' then Skip(f.(variable := true))
    else if f.dQuoted then (if ch == '"' then Word(f.(dQuoted := false, needSpace := true), FILE_DONE) else Skip(f))
    else if f.sQuoted then (if ch == '\'' then Word(f.(sQuoted := false, needSpace := true), FILE_DONE) else Skip(f))
    else if Blank(ch) then Word(f.(lastSpace := true), FILE_DONE)
    else if ch == ';' then Word(f.(lastSpace := true), OK)
    else if ch == '{' then Word(f.(lastSpace := true), BLOCK_START)
    else Skip(f)
  }

  // One turn of the unescape loop: how many characters it takes and the one it writes
  function Taken(s: string): (n: nat)
    requires s != []
    ensures 1 <= n <= |s|
  {
    if s[0] == '\\' && |s| > 1 && (s[1] == '"' || s[1] == '\'' || s[1] == '\\' || s[1] == 't' || s[1] == 'r' ||
      s[1] == 'n') then 2 else 1
  }

  function Written(s: string): char
    requires s != []
  {
    if Taken(s) == 1 then s[0]
    else if s[1] == 't' then '\t'
    else if s[1] == 'r' then '\r'
    else if s[1] == 'n' then '\n'
    else s[1]
  }

  // The text of a word with its escapes replaced
  function Unescape(s: string): string {
    if s == [] then [] else [Written(s)] + Unescape(s[Taken(s)..])
  }

  datatype Scan = Scan(f: Flags, start: nat, startLine: nat, line: nat, words: seq<string>)

  datatype Result = Result(rc: Rc, words: seq<string>, line: nat, at: nat)

  // The scan of the whole file from position i, without a buffer.  The one trace of it is that a token, or a comment,
  // or a word and what follows it up to the next token, may not be longer than `limit`.
  function ScanFrom(file: string, i: nat, s: Scan, limit: nat): Result
    requires s.start <= i <= |file|
    decreases |file| - i
  {
    if i == |file| then Result(if s.words == [] then FILE_DONE else ERROR, s.words, s.line, i)
    else if i - s.start == limit then Result(TOO_LONG, s.words, s.startLine, i)
    else match StepAt(file, i, s)
      case Go(t) => ScanFrom(file, i + 1, t, limit)
      case Stop(r) => r
  }

  datatype Step = Go(s: Scan) | Stop(r: Result)

  // A verdict carried out on the character at position i
  function Carry(v: Verdict, file: string, i: nat, s: Scan): (r: Step)
    requires s.start <= i < |file|
    ensures r.Go? ==> s.start <= r.s.start <= i + 1
  {
    var line := if file[i] == '\n' then s.line + 1 else s.line;
    match v
    case Skip(f) => Go(s.(f := f, line := line))
    case Mark(f, after) => Go(s.(f := f, line := line, start := if after then i + 1 else i, startLine := line))
    case Return(rc) => Stop(Result(rc, s.words, line, i + 1))
    case Word(f, next) =>
      var words := s.words + [Unescape(file[s.start..i])];
      if next == FILE_DONE then Go(s.(f := f, line := line, words := words)) else Stop(Result(next, words, line, i + 1))
  }

  function StepAt(file: string, i: nat, s: Scan): (r: Step)
    requires s.start <= i < |file|
    ensures r.Go? ==> s.start <= r.s.start <= i + 1
  {
    Carry(Classify(s.f, file[i], |s.words|), file, i, s)
  }

  // One call of the scanner at position i and line `line`
  function Token(file: string, i: nat, line: nat, limit: nat): Result
    requires i <= |file|
  {
    ScanFrom(file, i, Scan(FRESH, i, line, line, []), limit)
  }

  // How often the scan has to refill a buffer of `limit` bytes that holds the file up to `end`: where it comes to the
  // end of that, what it keeps is the text from the start of the token on.
  function Refills(file: string, i: nat, s: Scan, end: nat, limit: nat): nat
    requires s.start <= i <= end <= |file| && end <= s.start + limit
    decreases |file| - i, |file| - end
  {
    if i < end then
      match StepAt(file, i, s)
      case Go(t) => Refills(file, i + 1, t, end, limit)
      case Stop(_) => 0
    else if end == |file| || i - s.start == limit then 0
    else 1 + Refills(file, i, s, Refilled(file, s.start, limit), limit)
  }

  function Refilled(file: string, start: nat, limit: nat): nat {
    if |file| < start + limit then |file| else start + limit
  }

  // Each of them brings a byte at least.
  lemma {:induction false} RefillsBound(file: string, i: nat, s: Scan, end: nat, limit: nat)
    requires s.start <= i <= end <= |file| && end <= s.start + limit
    ensures Refills(file, i, s, end, limit) <= |file| - end
    decreases |file| - i, |file| - end
  {
    if i < end {
      match StepAt(file, i, s)
      case Go(t) => RefillsBound(file, i + 1, t, end, limit);
      case Stop(_) =>
    } else if !(end == |file| || i - s.start == limit) {
      RefillsBound(file, i, s, Refilled(file, s.start, limit), limit);
    }
  }

  lemma {:induction false} NoReadError(file: string, i: nat, s: Scan, limit: nat)
    requires s.start <= i <= |file|
    ensures ScanFrom(file, i, s, limit).rc != READ_ERROR
    decreases |file| - i
  {
    if i < |file| {
      match StepAt(file, i, s)
      case Go(t) => NoReadError(file, i + 1, t, limit);
      case Stop(_) =>
    }
  }

  // The limit changes nothing but that the scan may stop with TOO_LONG,
  lemma {:induction false} LimitOnly(file: string, i: nat, s: Scan, limit: nat)
    requires s.start <= i <= |file| && ScanFrom(file, i, s, limit).rc != TOO_LONG
    ensures ScanFrom(file, i, s, limit) == ScanFrom(file, i, s, |file| + 1)
    decreases |file| - i
  {
    if i < |file| {
      match StepAt(file, i, s)
      case Go(t) => LimitOnly(file, i + 1, t, limit);
      case Stop(_) =>
    }
  }

  // and with a limit above the length of the file it never does.
  lemma {:induction false} NoLimit(file: string, i: nat, s: Scan, limit: nat)
    requires s.start <= i <= |file| && limit > |file|
    ensures ScanFrom(file, i, s, limit).rc != TOO_LONG
    decreases |file| - i
  {
    if i < |file| {
      match StepAt(file, i, s)
      case Go(t) => NoLimit(file, i + 1, t, limit);
      case Stop(_) =>
    }
  }

  // Whether the text ends in a backslash that escapes what comes next
  function Pending(s: string): bool {
    if s == [] then false
    else if s[0] == '\\' then (if |s| == 1 then true else Pending(s[2..]))
    else Pending(s[1..])
  }

  lemma {:induction false} PendingSnoc(s: string, c: char)
    ensures Pending(s + [c]) == (!Pending(s) && c == '\\')
  {
    if s != [] {
      if s[0] == '\\' {
        if |s| > 1 {
          PendingSnoc(s[2..], c);
          assert (s + [c])[2..] == s[2..] + [c];
        } else {
          assert (s + [c])[2..] == [];
        }
      } else {
        PendingSnoc(s[1..], c);
        assert (s + [c])[1..] == s[1..] + [c];
      }
    }
  }

  ghost predicate InWord(f: Flags) {
    !f.lastSpace && !f.needSpace && !f.comment
  }

  // The flags agree with each other, and in a word `quoted` says whether its text ends in an escape.
  ghost predicate Aligned(file: string, i: nat, s: Scan) {
    && s.start <= i <= |file| && Coherent(s.f)
    && (InWord(s.f) ==> s.f.quoted == Pending(file[s.start..i]))
  }

  ghost predicate Coherent(f: Flags) {
    && (f.comment ==> f.lastSpace && !f.needSpace)
    && (f.quoted || f.dQuoted || f.sQuoted || f.variable ==> InWord(f))
    && !(f.dQuoted && f.sQuoted)
  }

  // p says whether the text before ch ends in an escape.
  lemma FlagsStep(f: Flags, ch: char, n: nat, p: bool)
    requires Coherent(f) && (InWord(f) ==> f.quoted == p)
    ensures match Classify(f, ch, n)
            case Skip(g) => Coherent(g) && InWord(g) == InWord(f) && (InWord(g) ==> g.quoted == (!p && ch == '\\'))
            case Mark(g, after) => Coherent(g) && (InWord(g) ==> g.quoted == (!after && ch == '\\'))
            case Word(g, _) => Coherent(g) && !InWord(g) && !p && InWord(f)
            case Return(_) => true
  {}

  lemma AlignedStep(file: string, i: nat, s: Scan)
    requires Aligned(file, i, s) && i < |file|
    ensures StepAt(file, i, s).Go? ==> Aligned(file, i + 1, StepAt(file, i, s).s)
    ensures Classify(s.f, file[i], |s.words|).Word? ==> !Pending(file[s.start..i])
  {
    var text := file[s.start..i];
    FlagsStep(s.f, file[i], |s.words|, Pending(text));
    PendingSnoc(text, file[i]);
    assert file[s.start..i + 1] == text + [file[i]];
    assert file[i..i + 1] == [file[i]] && file[i + 1..i + 1] == [];
  }

  // A limit to look at: it keeps the scan folded where only its result matters.
  ghost predicate Any(limit: nat) {
    true
  }

  // What is left of a scan: the end of what was read, the reads it still needs, and its result.
  datatype Plan = Plan(end: nat, more: nat, r: Result)

  // A well-formed scan at position i and in state s goes by this plan.
  ghost predicate Yields(file: string, i: nat, s: Scan, p: Plan) {
    && s.start <= i <= p.end <= |file| && p.end <= s.start + BUFFER
    && forall n {:trigger Any(n)} :: Any(n) && n == BUFFER ==>
         Aligned(file, i, s) && ScanFrom(file, i, s, n) == p.r && Refills(file, i, s, p.end, n) == p.more
  }

  // What one verdict leads to
  ghost predicate Follows(v: Verdict, file: string, i: nat, s: Scan, p: Plan)
    requires s.start <= i < |file|
  {
    forall n {:trigger Any(n)} :: Any(n) ==>
      && (v.Word? ==> !Pending(file[s.start..i]))
      && match Carry(v, file, i, s)
         case Stop(q) => q == p.r && p.more == 0
         case Go(t) => Yields(file, i + 1, t, p)
  }

  lemma YieldsStep(v: Verdict, file: string, i: nat, s: Scan, p: Plan)
    requires Yields(file, i, s, p) && i < p.end && v == Classify(s.f, file[i], |s.words|)
    ensures Follows(v, file, i, s, p)
  {
    assert Any(BUFFER);
    AlignedStep(file, i, s);
  }

  lemma YieldsEnd(file: string, i: nat, s: Scan, p: Plan)
    requires Yields(file, i, s, p) && i == p.end && (i == |file| || i - s.start == BUFFER)
    ensures p.more == 0
    ensures p.r == if i == |file| then Result(if s.words == [] then FILE_DONE else ERROR, s.words, s.line, i)
      else Result(TOO_LONG, s.words, s.startLine, i)
  {
    assert Any(BUFFER);
  }

  // The buffer is refilled.
  lemma YieldsMore(file: string, i: nat, s: Scan, p: Plan)
    requires Yields(file, i, s, p) && i == p.end < |file| && i - s.start < BUFFER
    ensures p.more > 0 && Yields(file, i, s, Plan(Refilled(file, s.start, BUFFER), p.more - 1, p.r))
  {
    assert Any(BUFFER);
  }

  // The plan of a call
  ghost function Planned(file: string, i: nat, line: nat, end: nat): Plan
    requires i <= end <= |file| && end <= i + BUFFER
  {
    Plan(end, Refills(file, i, Scan(FRESH, i, line, line, []), end, BUFFER), Token(file, i, line, BUFFER))
  }

  lemma YieldsToken(file: string, i: nat, line: nat, end: nat)
    requires i <= end <= |file| && end <= i + BUFFER
    ensures Yields(file, i, Scan(FRESH, i, line, line, []), Planned(file, i, line, end))
    ensures Planned(file, i, line, end).r.rc != READ_ERROR
  {
    assert file[i..i] == [];
    NoReadError(file, i, Scan(FRESH, i, line, line, []), BUFFER);
  }

  lemma UnescapeStep(s: string)
    requires s != [] && !Pending(s)
    ensures !Pending(s[Taken(s)..]) && (s[0] == '\\' ==> |s| > 1)
  {
    if |s| > 1 {
      assert s[1..][1..] == s[2..];
    }
  }

  lemma Adjacent(s: string, i: nat, j: nat, k: nat)
    requires i <= j <= k <= |s|
    ensures s[i..j] + s[j..k] == s[i..k]
  {}

  method Judge(f: Flags, ch: char, n: nat, ghost file: string, ghost i: nat, ghost s: Scan, ghost p: Plan)
      returns (v: Verdict)
    requires Yields(file, i, s, p) && i < p.end && f == s.f && ch == file[i] && n == |s.words|
    ensures Follows(v, file, i, s, p)
  {
    v := Classify(f, ch, n);
    YieldsStep(v, file, i, s, p);
  }

  // The unescape loop over the text of a word and the character that ended it
  method CopyWord(text: string) returns (word: string)
    requires text != [] && !Pending(text[..|text| - 1])
    ensures word == Unescape(text[..|text| - 1]) && |word| < |text|
  {
    word := [];
    var src, len := 0, 0;
    ghost var rest := text[..|text| - 1];
    while src < |text| - 1
      invariant 0 <= src <= |text| - 1 && len == |word| <= src && rest == text[src..|text| - 1]
      invariant word + Unescape(rest) == Unescape(text[..|text| - 1]) && !Pending(rest)
    {
      var c, n := CopyChar(text, src, rest);
      assert word + ([c] + Unescape(rest[n..])) == (word + [c]) + Unescape(rest[n..]);
      rest := rest[n..];
      word, src := word + [c], src + n;
      len := len + 1;
    }
  }

  // One turn of it
  method CopyChar(text: string, src: nat, ghost rest: string) returns (c: char, n: nat)
    requires rest != [] && src + |rest| < |text| && text[src..src + |rest|] == rest && !Pending(rest)
    ensures 1 <= n <= |rest| && Unescape(rest) == [c] + Unescape(rest[n..]) && !Pending(rest[n..])
  {
    UnescapeStep(rest);
    assert rest[0] == text[src] && (|rest| > 1 ==> rest[1] == text[src + 1]);
    c, n := text[src], 1;
    if text[src] == '\\' {
      match text[src + 1]
      case '"' => c, n := '"', 2;
      case '\'' => c, n := '\'', 2;
      case '\\' => c, n := '\\', 2;
      case 't' => c, n := '\t', 2;
      case 'r' => c, n := '\r', 2;
      case 'n' => c, n := '\n', 2;
      case _ =>
    }
  }

  class ConfFile {
    const file: string
    const buf: array<char>
    var pos: nat
    var last: nat
    var offset: nat
    var line: nat

    // The buffer holds the part of the file that ends at `offset`, from index lo on.
    ghost predicate Window(lo: nat)
      reads this, buf
    {
      && buf.Length == BUFFER && lo <= pos <= last <= BUFFER && last <= offset <= |file|
      && buf[lo..last] == file[offset - last + lo..offset]
    }

    ghost predicate Valid()
      reads this, buf
    {
      Window(pos)
    }

    // The position in the file of the next character
    ghost function At(): nat
      reads this
      requires last <= offset && pos <= last
    {
      offset - last + pos
    }

    constructor (file: string)
      ensures Valid() && this.file == file && At() == 0 && line == 1 && fresh(buf)
    {
      this.file := file;
      buf := new char[BUFFER];
      pos, last, offset, line := 0, 0, 0, 1;
    }

    lemma WindowShrinks(lo: nat, hi: nat)
      requires Window(lo) && lo <= hi <= pos
      ensures Window(hi)
    {
      assert buf[hi..last] == buf[lo..last][hi - lo..];
    }

    // The word in progress, from `start`, goes to the front,
    method Shift(start: nat)
      requires Window(start) && pos == last
      modifies this, buf
      ensures Window(0) && pos == last == old(pos) - start && line == old(line) && offset == old(offset)
    {
      var len := pos - start;
      MoveDown(start, len);
      pos, last := len, len;
    }

    // and the rest of the buffer is filled from the file.
    method Load()
      requires Window(0) && pos == last < BUFFER && offset < |file|
      modifies this, buf
      ensures Window(0) && pos == old(pos) < last && line == old(line) && offset - last == old(offset - last)
      ensures offset == Refilled(file, old(offset) - old(last), BUFFER)
    {
      var size := |file| - offset;
      if size > BUFFER - last {
        size := BUFFER - last;
      }
      Read(last, size);
      Adjacent(file, offset - last, offset, offset + size);
      last, offset := last + size, offset + size;
    }

    // ngx_memcpy(b->start, start, len)
    method MoveDown(start: nat, len: nat)
      requires start + len <= buf.Length
      modifies buf
      ensures buf[0..len] == old(buf[start..start + len])
    {
      forall k | 0 <= k < len {
        buf[k] := buf[start + k];
      }
    }

    // ngx_read_file(file, b->start + len, size, offset)
    method Read(len: nat, size: nat)
      requires len + size <= buf.Length && offset + size <= |file|
      modifies buf
      ensures buf[0..len + size] == old(buf[0..len]) + file[offset..offset + size]
    {
      forall k | len <= k < len + size {
        buf[k] := file[offset + k - len];
      }
    }

    // The state of the scan, in positions of the file
    ghost function Here(f: Flags, start: nat, startLine: nat, args: seq<string>): Scan
      reads this
      requires last <= offset
    {
      Scan(f, offset - last + start, startLine, line, args)
    }

    ghost predicate Scanning(f: Flags, start: nat, startLine: nat, args: seq<string>, p: Plan)
      reads this, buf
    {
      Window(start) && p.end == offset && Yields(file, At(), Here(f, start, startLine, args), p)
    }

    // ch = *b->pos++
    method NextChar(start: nat) returns (ch: char)
      requires Window(start) && pos < last
      modifies `pos, `line
      ensures Window(start) && pos == old(pos) + 1 && ch == file[old(At())] &&
        line == old(line) + if ch == '\n' then 1 else 0
      ensures buf[start..pos - 1] == file[offset - last + start..old(At())]
    {
      ch := buf[pos];
      assert ch == buf[start..last][pos - start];
      assert buf[start..pos] == buf[start..last][..pos - start];
      pos := pos + 1;
      if ch == '\n' {
        line := line + 1;
      }
    }

    // One turn of the loop that does not have to read
    method Advance(f0: Flags, start0: nat, startLine0: nat, args0: seq<string>, ghost all: Plan)
      returns (done: bool, rc: Rc, f: Flags, start: nat, startLine: nat, args: seq<string>)
      requires Scanning(f0, start0, startLine0, args0, all) && pos < last
      modifies `pos, `line
      ensures pos == old(pos) + 1 && Window(start)
      ensures if done then Result(rc, args, line, At()) == all.r && all.more == 0
        else Scanning(f, start, startLine, args, all)
    {
      ghost var i, s := At(), Here(f0, start0, startLine0, args0);
      var v := Fetch(f0, start0, args0, i, s, all);
      done, rc, f, start, startLine, args := Act(v, f0, start0, startLine0, args0, i, s, all);
      WindowShrinks(start0, start);
    }

    method Fetch(f: Flags, start: nat, args: seq<string>, ghost i: nat, ghost s: Scan, ghost all: Plan)
        returns (v: Verdict)
      requires Window(start) && pos < last && i == At() && s.f == f && s.start == offset - last + start
      requires s.line == line && s.words == args && all.end == offset && Yields(file, i, s, all)
      modifies `pos, `line
      ensures Window(start) && pos == old(pos) + 1 && i == At() - 1
      ensures line == (if file[i] == '\n' then s.line + 1 else s.line) && buf[start..pos - 1] == file[s.start..i]
      ensures Follows(v, file, i, s, all)
    {
      var ch := NextChar(start);
      v := Judge(f, ch, |args|, file, i, s, all);
    }

    // What the character just read makes the scanner do
    method Act(v: Verdict, f0: Flags, start0: nat, startLine0: nat, args0: seq<string>, ghost i: nat, ghost s: Scan,
        ghost all: Plan)
      returns (done: bool, rc: Rc, f: Flags, start: nat, startLine: nat, args: seq<string>)
      requires start0 < pos <= last <= buf.Length && last <= offset <= |file| && i == At() - 1
      requires s == Scan(f0, offset - last + start0, startLine0, s.line, args0) &&
        line == (if file[i] == '\n' then s.line + 1 else s.line)
      requires buf[start0..pos - 1] == file[s.start..i]
      requires Follows(v, file, i, s, all)
      ensures start0 <= start <= pos
      ensures if done then all.r == Result(rc, args, line, i + 1) && all.more == 0
        else Yields(file, i + 1, Here(f, start, startLine, args), all)
    {
      assert Any(0);
      done, rc, f, start, startLine, args := false, OK, f0, start0, startLine0, args0;
      match v
      case Skip(g) =>
        f := g;
      case Mark(g, after) =>
        f, start, startLine := g, if after then pos else pos - 1, line;
      case Return(r) =>
        done, rc := true, r;
      case Word(g, r) =>
        var text := buf[start0..pos];
        assert text[..|text| - 1] == buf[start0..pos - 1];
        var word := CopyWord(text);
        f, args, done, rc := g, args + [word], r != FILE_DONE, r;
    }

    // ngx_conf_read_token; `good` is the number of reads that succeed.  Exactly if the scan needs more it gives up.
    method ReadToken(good: nat) returns (rc: Rc, args: seq<string>)
      requires Valid()
      modifies this, buf
      ensures Valid()
      ensures rc == READ_ERROR <==> good < Planned(file, old(At()), old(line), old(offset)).more
      ensures rc != READ_ERROR ==> Result(rc, args, line, At()) == Token(file, old(At()), old(line), BUFFER)
    {
      var f, start: nat, startLine: nat, left: nat := FRESH, pos, line, good;
      args := [];
      ghost var all := Planned(file, At(), line, offset);
      ghost var need := all.more;
      YieldsToken(file, At(), line, offset);
      while true
        invariant Scanning(f, start, startLine, args, all) && good + all.more == left + need
        invariant all.r == Token(file, old(At()), old(line), BUFFER) && all.r.rc != READ_ERROR
        decreases |file| - At()
      {
        if pos >= last {
          rc, left, all := Underrun(f, start, startLine, args, left, all);
          if rc != OK {
            return;
          }
          start := 0;
        }
        var done;
        done, rc, f, start, startLine, args := Advance(f, start, startLine, args, all);
        if done {
          WindowShrinks(start, pos);
          return;
        }
      }
    }

    // The buffer is used up: the file ends, the token is too long, or there is more to read.
    method Underrun(f: Flags, start: nat, startLine: nat, args: seq<string>, left: nat, ghost all: Plan)
        returns (rc: Rc, left': nat, ghost all': Plan)
      requires Scanning(f, start, startLine, args, all) && pos == last && all.r.rc != READ_ERROR
      modifies this, buf
      ensures rc == OK ==> Scanning(f, 0, startLine, args, all') && pos < last && At() == old(At())
      ensures rc == OK ==> left' == left - 1 && all'.more == all.more - 1 && all'.r == all.r
      ensures rc != OK ==> Valid() && (rc == READ_ERROR <==> left < all.more)
      ensures rc == READ_ERROR ==> left == 0
      ensures rc != OK && rc != READ_ERROR ==> Result(rc, args, line, At()) == all.r && all.more == 0
    {
      left', all' := left, all;
      ghost var i, s := At(), Here(f, start, startLine, args);
      WindowShrinks(start, pos);
      if offset >= |file| {
        YieldsEnd(file, i, s, all);
        rc := if args == [] then FILE_DONE else ERROR;
      } else if pos - start == BUFFER {
        YieldsEnd(file, i, s, all);
        line := startLine;
        rc := TOO_LONG;
      } else {
        YieldsMore(file, i, s, all);
        if left == 0 {
          rc := READ_ERROR;
        } else {
          Shift(start);
          Load();
          rc, left', all' := OK, left - 1, Plan(offset, all.more - 1, all.r);
          assert Here(f, 0, startLine, args) == s;
        }
      }
    }
  }
}
