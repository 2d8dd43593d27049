/** The writer handlers of ngxe_connection.c.

    A session sends a string, a referenced string, or an array of referenced strings, and remembers in the string
    itself, in an offset, or in an index and an offset how far it has come.  What the system and the callbacks
    answer in one round of a handler comes from an `Env`. */
module Writers {

  type Bytes = seq<int>

  // One meaning for all three: a stream with bytes still to be sent and bytes on the wire.
  datatype Stream = Stream(pending: Bytes, wire: Bytes, open: bool)

  // n bytes went out; everything had gone out and the success callback ran, after which `more` was to be sent and
  // the connection was or was not alive; or the error callback ran and the connection was closed.
  datatype Label = Sent(n: nat) | Drained(more: Bytes, alive: bool) | Failed

  ghost predicate Next(s: Stream, l: Label, t: Stream) {
    && s.open
    && match l
       case Sent(n) => 1 <= n <= |s.pending| && t == Stream(s.pending[n..], s.wire + s.pending[..n], true)
       case Drained(more, alive) => s.pending == [] && t == Stream(more, s.wire, alive)
       case Failed => t.wire == s.wire && !t.open
  }

  ghost predicate Run(s: Stream, tr: seq<Label>, t: Stream)
    decreases tr
  {
    if tr == [] then s == t else exists u :: Next(s, tr[0], u) && Run(u, tr[1..], t)
  }

  lemma {:induction false} RunStep(s: Stream, tr: seq<Label>, t: Stream, l: Label, u: Stream)
    requires Run(s, tr, t) && Next(t, l, u)
    ensures Run(s, tr + [l], u)
    decreases tr
  {
    if tr == [] {
      assert tr + [l] == [l] && [l][1..] == [] && Next(s, [l][0], u) && Run(u, [], u);
    } else {
      var v :| Next(s, tr[0], v) && Run(v, tr[1..], t);
      RunStep(v, tr[1..], t, l, u);
      assert (tr + [l])[1..] == tr[1..] + [l];
    }
  }

  lemma {:induction false} RunJoin(s: Stream, tr: seq<Label>, t: Stream, tr': seq<Label>, u: Stream)
    requires Run(s, tr, t) && Run(t, tr', u)
    ensures Run(s, tr + tr', u)
    decreases tr
  {
    if tr == [] {
      assert tr + tr' == tr';
    } else {
      var v :| Next(s, tr[0], v) && Run(v, tr[1..], t);
      RunJoin(v, tr[1..], t, tr', u);
      assert (tr + tr')[1..] == tr[1..] + tr';
    }
  }

  // The bytes handed over by the success callbacks of a run
  function Supplied(tr: seq<Label>): Bytes {
    if tr == [] then [] else Supply(tr[0]) + Supplied(tr[1..])
  }

  function Supply(l: Label): Bytes {
    if l.Drained? then l.more else []
  }

  predicate Clean(tr: seq<Label>) {
    tr == [] || (tr[0] != Failed && Clean(tr[1..]))
  }

  lemma StepConserved(s: Stream, l: Label, t: Stream)
    requires Next(s, l, t) && l != Failed
    ensures t.wire + t.pending == s.wire + s.pending + Supply(l)
  {
    if l.Sent? {
      assert s.pending[..l.n] + s.pending[l.n..] == s.pending;
      assert t.wire + t.pending == s.wire + (s.pending[..l.n] + s.pending[l.n..]);
    }
  }

  // In every run without an error the bytes on the wire and the bytes pending are, in this order, exactly the bytes
  // handed over.
  lemma {:induction false} Conserved(s: Stream, tr: seq<Label>, t: Stream)
    requires Run(s, tr, t) && Clean(tr)
    ensures t.wire + t.pending == s.wire + s.pending + Supplied(tr)
    decreases tr
  {
    if tr == [] {
      assert s.wire + s.pending + [] == s.wire + s.pending;
    } else {
      var u :| Next(s, tr[0], u) && Run(u, tr[1..], t);
      StepConserved(s, tr[0], u);
      Conserved(u, tr[1..], t);
      assert s.wire + s.pending + Supply(tr[0]) + Supplied(tr[1..]) == s.wire + s.pending + Supplied(tr);
    }
  }

  // When the success callback runs, all bytes handed over before are on the wire.
  lemma DrainedMeansSent(s: Stream, tr: seq<Label>, t: Stream, more: Bytes, alive: bool, u: Stream)
    requires Run(s, tr, t) && Clean(tr) && Next(t, Drained(more, alive), u)
    ensures t.wire == s.wire + s.pending + Supplied(tr)
  {
    Conserved(s, tr, t);
    assert t.wire + [] == t.wire;
  }

  // An element of the array: a reference to a string, or something else
  datatype Elem = Elem(bytes: Bytes) | NotRef

  datatype Buffer = Str(bytes: Bytes) | Ref(bytes: Bytes) | Arr(elems: seq<Elem>) | Undef

  const ARRAY := 2

  function Kind(b: Buffer): int {
    match b
    case Str(_) => 0
    case Ref(_) => 1
    case Arr(_) => ARRAY
    case Undef => 3
  }

  function Flat(es: seq<Elem>): Bytes {
    if es == [] then [] else (if es[0].Elem? then es[0].bytes else []) + Flat(es[1..])
  }

  // The bytes of a buffer that are still to be sent
  ghost function Rest(b: Buffer, index: nat, offset: nat): Bytes {
    match b
    case Str(bytes) => bytes
    case Undef => []
    case Ref(bytes) => if offset <= |bytes| then bytes[offset..] else []
    case Arr(es) => if index >= |es| then []
      else (if es[index].Elem? && offset <= |es[index].bytes| then es[index].bytes[offset..]
        else []) + Flat(es[index + 1..])
  }

  // How far a writer has come: a string is cut as it is sent, a referenced one has an offset in it, an array an
  // index of the next element and an offset in that.
  ghost predicate Progress(b: Buffer, index: nat, offset: nat) {
    match b
    case Str(_) => true
    case Undef => true
    case Ref(bytes) => offset == 0 || offset < |bytes|
    case Arr(es) => index <= |es| && (if index < |es| && es[index].Elem? then offset <= |es[index].bytes|
      else offset == 0)
  }

  // What the callback left behind: the connection closed, the writer stopped, no data, or a buffer of the same kind
  datatype Reply = Closed | Stopped | Nothing | More(b: Buffer)

  // The answers of one round: c->send (0 or less for an error), whether it is EAGAIN, whether the write event could
  // be registered, whether c->write->ready holds afterwards, and the callback.
  datatype Env = Env(n: nat, again: bool, eventOk: bool, ready: bool, reply: Reply)

  // The same with nothing left: a send that cannot go on, a callback that does nothing
  const QUIET := Env(0, true, true, false, Nothing)

  function At(env: seq<Env>, k: nat): Env {
    if k < |env| then env[k] else QUIET
  }

  // A callback leaves a buffer of the same kind; the handlers do not work with another.
  ghost predicate Fits(env: seq<Env>, kind: int) {
    forall k :: 0 <= k < |env| && env[k].reply.More? ==> Kind(env[k].reply.b) == kind
  }

  // How a handler returned: for the next write event, with nothing to do, or with the connection closed
  datatype End = Waiting | Idle | Gone

  // The success callback does not wait: after a run nothing is pending only if it has run, or the run failed.
  ghost predicate Prompt(tr: seq<Label>, t: Stream) {
    tr != [] && tr[|tr| - 1].Sent? ==> t.pending != []
  }

  // What is to be sent next: so many bytes at once, nothing, or an element that is no reference to a string
  datatype Front = Front(chunk: nat, broken: bool)

  ghost function FrontOf(b: Buffer, index: nat, offset: nat): Front {
    match b
    case Str(bytes) => Front(|bytes|, false)
    case Undef => Front(0, false)
    case Ref(bytes) => Front(if offset <= |bytes| then |bytes| - offset else 0, false)
    case Arr(es) => FrontElem(es, index, offset)
  }

  ghost function FrontElem(es: seq<Elem>, index: nat, offset: nat): Front
    decreases |es| - index
  {
    if index >= |es| then Front(0, false)
    else if es[index].NotRef? then Front(0, true)
    else if offset < |es[index].bytes| then Front(|es[index].bytes| - offset, false)
    else FrontElem(es, index + 1, 0)
  }

  // The success callback, as a label
  ghost function Answer(e: Env): Label {
    Drained(if e.reply.More? then Rest(e.reply.b, 0, 0) else [], !e.reply.Closed?)
  }

  // A buffer to go on with: a string that is not empty, or an array
  predicate Filled(b: Buffer) {
    match b
    case Str(bytes) => bytes != []
    case Ref(bytes) => bytes != []
    case Arr(_) => true
    case Undef => false
  }

  // The callback leaves a buffer, and the socket can or cannot take more at once.
  predicate Resumes(e: Env) {
    e.reply.More? && Filled(e.reply.b) && e.ready
  }

  predicate Rests(e: Env) {
    e.reply.More? && Filled(e.reply.b) && !e.ready
  }

  ghost function Waits(e: Env): seq<Label> {
    if e.eventOk then [] else [Failed]
  }

  ghost function Ending(e: Env): seq<Label> {
    [Answer(e)] + if Rests(e) then Waits(e) else []
  }

  // What one round does on the system's answers: a broken array fails, with nothing left the success callback runs, a
  // send that would block sends nothing, one that fails ends the connection, and every other one sends as much as was
  // taken; when that was all the callback runs, except that an array goes on with its next element.
  ghost function Labels(front: Front, e: Env, kind: int): seq<Label> {
    if front.broken then [Failed]
    else if front.chunk == 0 then Ending(e)
    else if e.again then Waits(e)
    else if e.n == 0 then [Failed]
    else if e.n < front.chunk then [Sent(e.n)] + Waits(e)
    else [Sent(front.chunk)] + if kind == ARRAY then [] else Ending(e)
  }

  // Whether another round follows at once
  ghost predicate GoesOn(front: Front, e: Env, kind: int) {
    if front.broken then false
    else if front.chunk == 0 then Resumes(e)
    else if e.again then e.eventOk && e.ready
    else e.n >= front.chunk && if kind == ARRAY then true else Resumes(e)
  }

  // What is next agrees with what is pending.
  ghost predicate Agrees(front: Front, pending: Bytes, kind: int) {
    && front.chunk <= |pending| && (!front.broken ==> (front.chunk == 0 <==> pending == []))
    && (kind != ARRAY ==> front == Front(|pending|, false))
  }

  lemma {:induction false} FrontAgrees(es: seq<Elem>, index: nat, offset: nat)
    requires Progress(Arr(es), index, offset)
    ensures Agrees(FrontElem(es, index, offset), Rest(Arr(es), index, offset), ARRAY)
    decreases |es| - index
  {
    if index < |es| && es[index].Elem? && offset == |es[index].bytes| {
      RestNext(es, index, offset);
      FrontAgrees(es, index + 1, 0);
    }
  }

  // One round of a handler: the stream before it and what was next
  datatype Round = Round(s: Stream, front: Front)

  ghost predicate RoundAt(rs: seq<Round>, t: Stream, kind: int, env: seq<Env>, open: bool, k: nat) {
    k < |rs| ==>
      && Agrees(rs[k].front, rs[k].s.pending, kind)
      && Run(rs[k].s, Labels(rs[k].front, At(env, k), kind), if k + 1 < |rs| then rs[k + 1].s else t)
      && (GoesOn(rs[k].front, At(env, k), kind) <==> k + 1 < |rs| || open)
  }

  // The rounds follow the answers of the system one by one, up to the stream t; `open` says that another round follows.
  ghost predicate Played(rs: seq<Round>, t: Stream, kind: int, env: seq<Env>, open: bool) {
    forall k: nat {:trigger RoundAt(rs, t, kind, env, open, k)} :: RoundAt(rs, t, kind, env, open, k)
  }

  // The labels of the rounds
  ghost function AllLabels(rs: seq<Round>, kind: int, env: seq<Env>): seq<Label> {
    if rs == [] then []
    else AllLabels(rs[..|rs| - 1], kind, env) + Labels(rs[|rs| - 1].front, At(env, |rs| - 1), kind)
  }

  lemma PlayedOn(rs: seq<Round>, r: Round, u: Stream, kind: int, env: seq<Env>, go: bool)
    requires Played(rs, r.s, kind, env, true) && Agrees(r.front, r.s.pending, kind)
    requires Run(r.s, Labels(r.front, At(env, |rs|), kind), u) && go == GoesOn(r.front, At(env, |rs|), kind)
    ensures Played(rs + [r], u, kind, env, go)
    ensures AllLabels(rs + [r], kind, env) == AllLabels(rs, kind, env) + Labels(r.front, At(env, |rs|), kind)
  {
    var qs := rs + [r];
    forall k: nat ensures RoundAt(qs, u, kind, env, go, k) {
      assert RoundAt(rs, r.s, kind, env, true, k);
      assert k < |rs| ==> qs[k] == rs[k];
    }
    assert qs[..|rs|] == rs;
  }

  // The rounds of one call so far: from the stream s with `first` next to the stream t with `front` next
  ghost predicate Playing(s: Stream, first: Front, env: seq<Env>, kind: int, rs: seq<Round>, t: Stream, front: Front) {
    && Played(rs, t, kind, env, true)
    && if rs == [] then t == s && front == first else rs[0] == Round(s, first)
  }

  // One call of a handler: a timeout closes the connection; otherwise the labels are those of rounds that follow the
  // answers of the system, from the first one to the first that does not go on.
  ghost predicate Served(s: Stream, first: Front, timedout: bool, env: seq<Env>, kind: int, tr: seq<Label>,
      rs: seq<Round>, t: Stream) {
    if timedout then tr == [Failed]
    else rs != [] && rs[0] == Round(s, first) && Played(rs, t, kind, env, false) && tr == AllLabels(rs, kind, env)
  }

  lemma OnceMore(s: Stream, first: Front, env: seq<Env>, kind: int, rs: seq<Round>, tr: seq<Label>, r: Round,
                 u: Stream, front: Front, tr1: seq<Label>, go: bool)
    requires Playing(s, first, env, kind, rs, r.s, r.front) && tr == AllLabels(rs, kind, env) && Run(s, tr, r.s)
    requires Agrees(r.front, r.s.pending, kind) && Run(r.s, tr1, u)
    requires tr1 == Labels(r.front, At(env, |rs|), kind) && go == GoesOn(r.front, At(env, |rs|), kind)
    ensures Played(rs + [r], u, kind, env, go) && (rs + [r])[0] == Round(s, first)
    ensures go ==> Playing(s, first, env, kind, rs + [r], u, front)
    ensures AllLabels(rs + [r], kind, env) == tr + tr1 && Run(s, tr + tr1, u)
  {
    RunJoin(s, tr, r.s, tr1, u);
    PlayedOn(rs, r, u, kind, env, go);
  }

  // Nothing goes wrong: neither sends nor registrations fail, and arrays hold references only.
  ghost predicate Smooth(env: seq<Env>) {
    forall k :: 0 <= k < |env| ==>
      env[k].eventOk && (env[k].again || env[k].n > 0) && (env[k].reply.More? ==> Whole(env[k].reply.b))
  }

  ghost predicate Whole(b: Buffer) {
    b.Arr? ==> forall i :: 0 <= i < |b.elems| ==> b.elems[i].Elem?
  }

  lemma {:induction false} WholeFront(es: seq<Elem>, index: nat, offset: nat)
    requires Whole(Arr(es))
    ensures !FrontElem(es, index, offset).broken
    decreases |es| - index
  {
    if index < |es| && offset >= |es[index].bytes| {
      WholeFront(es, index + 1, 0);
    }
  }

  // Then no round fails,
  ghost predicate NoneBroken(rs: seq<Round>) {
    forall k :: 0 <= k < |rs| ==> !rs[k].front.broken
  }

  ghost predicate Fine(env: seq<Env>, b: Buffer, rs: seq<Round>) {
    Smooth(env) && Whole(b) && NoneBroken(rs)
  }

  lemma FineOn(env: seq<Env>, b: Buffer, rs: seq<Round>, r: Round, c: Buffer)
    requires Whole(b) ==> !r.front.broken
    requires c.Arr? ==> c == b || (At(env, |rs|).reply.More? && c == At(env, |rs|).reply.b)
    ensures Fine(env, b, rs) ==> Fine(env, c, rs + [r])
  {}

  lemma {:induction false} SmoothLabels(rs: seq<Round>, kind: int, env: seq<Env>)
    requires Smooth(env) && NoneBroken(rs)
    ensures Failed !in AllLabels(rs, kind, env)
  {
    if rs != [] {
      var n := |rs| - 1;
      SmoothLabels(rs[..n], kind, env);
      assert !rs[n].front.broken && At(env, n).eventOk;
    }
  }

  lemma SmoothLabelsIf(rs: seq<Round>, kind: int, env: seq<Env>)
    ensures Smooth(env) && NoneBroken(rs) ==> Failed !in AllLabels(rs, kind, env)
  {
    if Smooth(env) && NoneBroken(rs) {
      SmoothLabels(rs, kind, env);
    }
  }

  lemma {:induction false} CleanIff(tr: seq<Label>)
    ensures Clean(tr) <==> Failed !in tr
  {
    if tr != [] {
      CleanIff(tr[1..]);
      assert tr == [tr[0]] + tr[1..];
    }
  }

  // and the callback runs as soon as the bytes taken cover those pending.
  function SentTotal(tr: seq<Label>): nat {
    if tr == [] then 0 else (if tr[0].Sent? then tr[0].n else 0) + SentTotal(tr[1..])
  }

  predicate SomeDrained(tr: seq<Label>) {
    tr != [] && (tr[0].Drained? || SomeDrained(tr[1..]))
  }

  lemma {:induction false} SentLeft(s: Stream, tr: seq<Label>, t: Stream)
    requires Run(s, tr, t) && Clean(tr) && !SomeDrained(tr)
    ensures SentTotal(tr) + |t.pending| == |s.pending| && (tr != [] ==> tr[|tr| - 1].Sent?)
    decreases tr
  {
    if tr != [] {
      var u :| Next(s, tr[0], u) && Run(u, tr[1..], t);
      SentLeft(u, tr[1..], t);
    }
  }

  lemma CoveredMeansDrained(s: Stream, tr: seq<Label>, t: Stream)
    requires Run(s, tr, t) && Clean(tr) && Prompt(tr, t) && (tr == [] ==> t.pending != []) &&
      SentTotal(tr) >= |s.pending|
    ensures SomeDrained(tr)
  {
    if !SomeDrained(tr) {
      SentLeft(s, tr, t);
    }
  }

  // An element that is done with contributes nothing.
  lemma RestNext(es: seq<Elem>, index: nat, offset: nat)
    requires index < |es| && es[index].Elem? && offset == |es[index].bytes|
    ensures Rest(Arr(es), index, offset) == Rest(Arr(es), index + 1, 0) == Flat(es[index + 1..])
  {
    if index + 1 < |es| {
      assert es[index + 1..][0] == es[index + 1] && es[index + 1..][1..] == es[index + 2..];
      if es[index + 1].Elem? {
        assert es[index + 1].bytes[0..] == es[index + 1].bytes;
      }
    }
  }

  // Sending from an element
  lemma RestSent(es: seq<Elem>, index: nat, offset: nat, n: nat)
    requires index < |es| && es[index].Elem? && offset + n <= |es[index].bytes|
    ensures var r := Rest(Arr(es), index, offset);
      n <= |r| && r[n..] == Rest(Arr(es), index, offset + n) && r[..n] == es[index].bytes[offset..][..n]
  {
    var bytes := es[index].bytes;
    assert bytes[offset..][n..] == bytes[offset + n..];
  }

  lemma JoinPrompt(tr: seq<Label>, tr': seq<Label>, t: Stream)
    requires Prompt(tr', t) && (tr' == [] ==> t.pending != [])
    ensures Prompt(tr + tr', t) && (tr + tr' == [] ==> t.pending != [])
  {
    if tr' != [] {
      assert (tr + tr')[|tr + tr'| - 1] == tr'[|tr'| - 1];
    }
  }

  class Session {
    var buffer: Buffer
    var offset: nat
    var index: nat
    const timeout: nat
    var timerSet: bool
    var armed: bool        // the write event is registered
    var destroyed: bool
    var stopped: bool      // the write handler is the dummy one
    var wire: Bytes        // what the peer gets

    ghost function Abs(): Stream
      reads this
    {
      Stream(Rest(buffer, index, offset), wire, !destroyed)
    }

    ghost predicate Valid()
      reads this
    {
      Progress(buffer, index, offset)
    }

    // What holds when a handler, or one round of it, is over: nothing is lost between it and the next one.
    ghost predicate Over(end: End)
      reads this
    {
      match end
      case Gone => destroyed
      case Idle => !destroyed && (stopped || Abs().pending == [])
      case Waiting => !destroyed && !stopped && armed && timerSet == (timeout > 0) && !buffer.Undef?
    }

    // The error callback, and ngxe_close
    method Fail()
      requires !destroyed
      modifies `destroyed
      ensures Next(old(Abs()), Failed, Abs())
    {
      destroyed := true;
    }

    // ngx_handle_write_event, and the timer
    method Wait(e: Env) returns (end: End, ghost tr: seq<Label>)
      requires !destroyed && !stopped && !timerSet && !buffer.Undef?
      modifies `destroyed, `armed, `timerSet
      ensures Over(end) && end != Idle && Run(old(Abs()), tr, Abs()) && tr == Waits(e)
    {
      if !e.eventOk {
        ghost var s := Abs();
        Fail();
        assert [Failed][1..] == [] && Run(Abs(), [], Abs()) && Next(s, [Failed][0], Abs());
        return Gone, [Failed];
      }
      armed := true;
      if !timerSet && timeout > 0 {
        timerSet := true;
      }
      end, tr := Waiting, [];
    }

    // The success callback: it may close the connection, stop the writer or leave a buffer.
    method Succeed(e: Env) returns (ghost l: Label)
      requires !destroyed && Abs().pending == []
      modifies `destroyed, `stopped, `buffer, `offset, `index
      ensures Next(old(Abs()), l, Abs()) && l == Answer(e)
      ensures destroyed == e.reply.Closed? && (e.reply.Stopped? ==> stopped) &&
        (!e.reply.Stopped? ==> stopped == old(stopped))
      ensures if e.reply.More? then buffer == e.reply.b && offset == index == 0
        else Abs().pending == [] && buffer == old(buffer) && offset == old(offset) && index == old(index)
    {
      match e.reply {
        case Closed => destroyed := true;
        case Stopped => stopped := true;
        case Nothing =>
        case More(b) => buffer, offset, index := b, 0, 0;
      }
      l := Drained(Abs().pending, !destroyed);
    }

    // One round of a handler: it is to go on, or it is over.
    ghost predicate RoundOver(s: Stream, tr: seq<Label>, go: bool, end: End, kind: int)
      reads this
    {
      && Run(s, tr, Abs()) && Valid() && (go || end == Waiting ==> Kind(buffer) == kind)
      && if go then !destroyed && !stopped && !timerSet
         else Over(end) && Prompt(tr, Abs()) && (tr == [] ==> Abs().pending != [])
    }

    // c->send would block.
    method Again(e: Env) returns (go: bool, end: End, ghost tr: seq<Label>)
      requires !destroyed && !stopped && !timerSet && Valid() && Abs().pending != [] && !buffer.Undef?
      modifies `destroyed, `armed, `timerSet
      ensures RoundOver(old(Abs()), tr, go, end, old(Kind(buffer))) && go == (e.eventOk && e.ready) && tr == Waits(e)
    {
      if e.eventOk && e.ready {
        armed := true;
        return true, Waiting, [];
      }
      end, tr := Wait(e);
      go := false;
    }

    // Some bytes went out, and some are left.
    method Partial(e: Env, ghost s: Stream, ghost n: nat) returns (go: bool, end: End, ghost tr: seq<Label>)
      requires !destroyed && !stopped && !timerSet && Valid() && Abs().pending != [] && !buffer.Undef? &&
        Run(s, [Sent(n)], Abs())
      modifies `destroyed, `armed, `timerSet
      ensures !go && RoundOver(s, tr, go, end, Kind(buffer)) && tr == [Sent(n)] + Waits(e)
    {
      ghost var t, tr1 := Abs(), [];
      end, tr1 := Wait(e);
      RunJoin(s, [Sent(n)], t, tr1, Abs());
      go, tr := false, [Sent(n)] + tr1;
    }

    // After the success callback
    method Resume(e: Env, ghost s: Stream, ghost tr0: seq<Label>, ghost kind: int)
        returns (go: bool, end: End, ghost tr: seq<Label>)
      requires Valid() && !timerSet && Run(s, tr0 + [Answer(e)], Abs()) && destroyed == e.reply.Closed? &&
        stopped == e.reply.Stopped?
      requires e.reply.More? ==> buffer == e.reply.b && Kind(buffer) == kind
      requires !e.reply.More? && !destroyed ==> !Filled(buffer) && Abs().pending == []
      modifies `destroyed, `armed, `timerSet
      ensures RoundOver(s, tr, go, end, kind) && go == Resumes(e) && tr == tr0 + Ending(e)
    {
      tr := tr0 + [Answer(e)];
      go := false;
      if destroyed {
        end := Gone;
      } else if stopped {
        end := Idle;
      } else if Filled(buffer) {
        if e.ready {
          return true, Waiting, tr;
        }
        ghost var t, tr1 := Abs(), [];
        end, tr1 := Wait(e);
        RunJoin(s, tr, t, tr1, Abs());
        tr := tr + tr1;
      } else {
        end := Idle;
      }
    }

    // Everything has gone out: the callback, and what follows it
    method Finish(e: Env, ghost s: Stream, ghost tr0: seq<Label>, ghost kind: int)
        returns (go: bool, end: End, ghost tr: seq<Label>)
      requires Run(s, tr0, Abs()) && Abs().pending == [] && !destroyed && !stopped && !timerSet && !Filled(buffer)
      requires Valid() && (e.reply.More? ==> Progress(e.reply.b, 0, 0) && Kind(e.reply.b) == kind)
      modifies this
      ensures RoundOver(s, tr, go, end, kind) && go == Resumes(e) && tr == tr0 + Ending(e)
      ensures buffer == if e.reply.More? then e.reply.b else old(buffer)
    {
      ghost var t := Abs();
      ghost var l := Succeed(e);
      RunStep(s, tr0, t, l, Abs());
      go, end, tr := Resume(e, s, tr0, kind);
    }

    // c->send puts the first n of the bytes it is given on the wire.
    method Send(buf: Bytes, n: nat)
      requires n <= |buf|
      modifies `wire
      ensures wire == old(wire) + buf[..n]
    {
      wire := wire + buf[..n];
    }

    // What is sent next
    ghost function Ahead(): Front
      reads this
    {
      FrontOf(buffer, index, offset)
    }

    lemma AheadAgrees()
      requires Valid()
      ensures Agrees(Ahead(), Abs().pending, Kind(buffer)) && (Whole(buffer) ==> !Ahead().broken)
    {
      if buffer.Arr? {
        FrontAgrees(buffer.elems, index, offset);
        if Whole(buffer) {
          WholeFront(buffer.elems, index, offset);
        }
      }
    }

    // One round on a string; `go` says that the handler tries to send once more.
    method ChopRound(e: Env) returns (go: bool, end: End, ghost tr: seq<Label>)
      requires buffer.Str? && !destroyed && !stopped && !timerSet && (e.reply.More? ==> e.reply.b.Str?)
      modifies this
      ensures RoundOver(old(Abs()), tr, go, end, 0) && !buffer.Arr?
      ensures tr == Labels(old(Ahead()), e, 0) && go == GoesOn(old(Ahead()), e, 0)
    {
      if buffer.bytes == [] {
        go, end, tr := Finish(e, Abs(), [], 0);
      } else if e.again {
        go, end, tr := Again(e);
      } else if e.n == 0 {
        end, tr := Abort();
        go := false;
      } else {
        go, end, tr := ChopSend(e);
      }
    }

    method ChopSend(e: Env) returns (go: bool, end: End, ghost tr: seq<Label>)
      requires buffer.Str? && buffer.bytes != [] && !destroyed && !stopped && !timerSet
      requires (e.reply.More? ==> e.reply.b.Str?) && !e.again && e.n > 0
      modifies this
      ensures RoundOver(old(Abs()), tr, go, end, 0) && !buffer.Arr?
      ensures tr == Labels(old(Ahead()), e, 0) && go == GoesOn(old(Ahead()), e, 0)
    {
      ghost var s := Abs();
      var n := if e.n > |buffer.bytes| then |buffer.bytes| else e.n;
      Send(buffer.bytes, n);
      buffer := Str(buffer.bytes[n..]);
      RunStep(s, [], s, Sent(n), Abs());
      if buffer.bytes != [] {
        go, end, tr := Partial(e, s, n);
      } else {
        go, end, tr := Finish(e, s, [Sent(n)], 0);
      }
    }

    // Between two rounds of a handler
    ghost predicate Midway(kind: int, s: Stream, first: Front, env: seq<Env>, rs: seq<Round>, tr: seq<Label>)
      reads this
    {
      && Valid() && !destroyed && !stopped && !timerSet
      && Run(s, tr, Abs()) && Playing(s, first, env, kind, rs, Abs(), Ahead()) && tr == AllLabels(rs, kind, env)
    }

    // ngxe_writer_handler on a string: what has been sent is cut off.
    method ChopHandler(timedout: bool, env: seq<Env>) returns (end: End, ghost tr: seq<Label>, ghost rs: seq<Round>)
      requires buffer.Str? && !destroyed && !stopped && Fits(env, 0)
      modifies this
      ensures Valid() && Over(end) && Run(old(Abs()), tr, Abs()) && Prompt(tr, Abs()) &&
        (tr == [] ==> Abs().pending != [])
      ensures (end == Waiting ==> Kind(buffer) == 0) && !buffer.Arr?
      ensures Served(old(Abs()), old(Ahead()), timedout, env, 0, tr, rs, Abs())
      ensures !timedout && Smooth(env) ==> Failed !in tr
    {
      if timedout {
        end, tr := Abort();
        rs := [];
        return;
      }
      timerSet, tr, rs := false, [], [];
      ghost var s, first := Abs(), Ahead();
      var k := 0;
      while true
        invariant 0 <= k <= |env| && buffer.Str? && !destroyed && !stopped && !timerSet && Run(s, tr, Abs()) &&
          |rs| == k
        invariant Playing(s, first, env, 0, rs, Abs(), Ahead()) && tr == AllLabels(rs, 0, env) && NoneBroken(rs)
        decreases |env| - k
      {
        var go;
        ghost var r, tr1 := Round(Abs(), Ahead()), [];
        AheadAgrees();
        go, end, tr1 := ChopRound(At(env, k));
        OnceMore(s, first, env, 0, rs, tr, r, Abs(), Ahead(), tr1, go);
        if !go {
          JoinPrompt(tr, tr1, Abs());
          tr, rs := tr + tr1, rs + [r];
          SmoothLabelsIf(rs, 0, env);
          return;
        }
        tr, rs, k := tr + tr1, rs + [r], k + 1;
      }
    }

    method Abort() returns (end: End, ghost tr: seq<Label>)
      requires !destroyed
      modifies `destroyed
      ensures Over(end) && Run(old(Abs()), tr, Abs()) && tr == [Failed]
    {
      ghost var s := Abs();
      Fail();
      RunStep(s, [], s, Failed, Abs());
      end, tr := Gone, [Failed];
    }

    // One round on a referenced string
    method RefRound(e: Env) returns (go: bool, end: End, ghost tr: seq<Label>)
      requires buffer.Ref? && Valid() && !destroyed && !stopped && !timerSet && (e.reply.More? ==> e.reply.b.Ref?)
      modifies this
      ensures RoundOver(old(Abs()), tr, go, end, 1) && !buffer.Arr?
      ensures tr == Labels(old(Ahead()), e, 1) && go == GoesOn(old(Ahead()), e, 1)
    {
      if |buffer.bytes| - offset <= 0 {
        offset := 0;
        go, end, tr := Finish(e, Abs(), [], 1);
      } else if e.again {
        go, end, tr := Again(e);
      } else if e.n == 0 {
        end, tr := RefAbort();
        go := false;
      } else {
        go, end, tr := RefSend(e);
      }
    }

    method RefAbort() returns (end: End, ghost tr: seq<Label>)
      requires buffer.Ref? && !destroyed
      modifies `destroyed, `offset
      ensures Valid() && Over(end) && end == Gone && Run(old(Abs()), tr, Abs()) && tr == [Failed]
    {
      ghost var s := Abs();
      offset := 0;
      Fail();
      RunStep(s, [], s, Failed, Abs());
      end, tr := Gone, [Failed];
    }

    method RefSend(e: Env) returns (go: bool, end: End, ghost tr: seq<Label>)
      requires buffer.Ref? && offset < |buffer.bytes| && !destroyed && !stopped && !timerSet
      requires (e.reply.More? ==> e.reply.b.Ref?) && !e.again && e.n > 0
      modifies this
      ensures RoundOver(old(Abs()), tr, go, end, 1) && !buffer.Arr?
      ensures tr == Labels(old(Ahead()), e, 1) && go == GoesOn(old(Ahead()), e, 1)
    {
      ghost var s := Abs();
      var cur := |buffer.bytes| - offset;
      var n := if e.n > cur then cur else e.n;
      RefOut(n);
      RunStep(s, [], s, Sent(n), Abs());
      if cur > n {
        go, end, tr := Partial(e, s, n);
      } else {
        go, end, tr := Finish(e, s, [Sent(n)], 1);
      }
    }

    // n bytes go out; when they were the last ones the buffer is let go.
    method RefOut(n: nat)
      requires buffer.Ref? && 0 < n <= |buffer.bytes| - offset && !destroyed
      modifies `wire, `offset, `buffer
      ensures Valid() && Next(old(Abs()), Sent(n), Abs())
      ensures if n < |old(buffer).bytes| - old(offset) then buffer == old(buffer) && Abs().pending != []
        else buffer.Undef?
    {
      ghost var bytes := buffer.bytes;
      assert bytes[offset..][n..] == bytes[offset + n..];
      Send(buffer.bytes[offset..], n);
      offset := offset + n;
      if offset == |buffer.bytes| {
        offset, buffer := 0, Undef;
      }
    }

    // ngxe_rvpv_writer_handler
    method RefHandler(timedout: bool, env: seq<Env>) returns (end: End, ghost tr: seq<Label>, ghost rs: seq<Round>)
      requires buffer.Ref? && Valid() && !destroyed && !stopped && Fits(env, 1)
      modifies this
      ensures Valid() && Over(end) && Run(old(Abs()), tr, Abs()) && Prompt(tr, Abs()) &&
        (tr == [] ==> Abs().pending != [])
      ensures (end == Waiting ==> Kind(buffer) == 1) && !buffer.Arr?
      ensures Served(old(Abs()), old(Ahead()), timedout, env, 1, tr, rs, Abs())
      ensures !timedout && Smooth(env) ==> Failed !in tr
    {
      if timedout {
        end, tr := Abort();
        rs := [];
        return;
      }
      timerSet, tr, rs := false, [], [];
      ghost var s, first := Abs(), Ahead();
      var k := 0;
      while true
        invariant 0 <= k <= |env| && |rs| == k && buffer.Ref? && Midway(1, s, first, env, rs, tr) && NoneBroken(rs)
        decreases |env| - k
      {
        var go;
        go, end, tr, rs := RefTurn(env, k, s, first, rs, tr);
        if !go {
          SmoothLabelsIf(rs, 1, env);
          return;
        }
        k := k + 1;
      }
    }

    method RefTurn(env: seq<Env>, k: nat, ghost s: Stream, ghost first: Front, ghost rs0: seq<Round>,
        ghost tr0: seq<Label>)
      returns (go: bool, end: End, ghost tr: seq<Label>, ghost rs: seq<Round>)
      requires |rs0| == k <= |env| && Fits(env, 1) && buffer.Ref?
      requires Midway(1, s, first, env, rs0, tr0) && NoneBroken(rs0)
      modifies this
      ensures |rs| == k + 1 && NoneBroken(rs)
      ensures go ==> k < |env| && buffer.Ref? && Midway(1, s, first, env, rs, tr)
      ensures !go ==> Valid() && Over(end) && Run(s, tr, Abs())
      ensures !go ==> Prompt(tr, Abs()) && (tr == [] ==> Abs().pending != [])
      ensures !go ==> (end == Waiting ==> Kind(buffer) == 1) && !buffer.Arr? && Played(rs, Abs(), 1, env, false)
      ensures !go ==> rs[0] == Round(s, first) && tr == AllLabels(rs, 1, env)
    {
      ghost var r, tr1 := Round(Abs(), Ahead()), [];
      AheadAgrees();
      go, end, tr1 := RefRound(At(env, k));
      OnceMore(s, first, env, 1, rs0, tr0, r, Abs(), Ahead(), tr1, go);
      tr, rs := tr0 + tr1, rs0 + [r];
      if !go {
        JoinPrompt(tr0, tr1, Abs());
      }
    }

    // The elements that are done with, or empty, are passed over.
    method SkipDone()
      requires buffer.Arr? && Valid()
      modifies `offset, `index
      ensures Valid() && Abs() == old(Abs()) && Ahead() == old(Ahead())
      ensures index < |buffer.elems| && buffer.elems[index].Elem? ==> offset < |buffer.elems[index].bytes|
    {
      while index < |buffer.elems| && buffer.elems[index].Elem? && |buffer.elems[index].bytes| - offset <= 0
        invariant Valid() && Abs() == old(Abs()) && Ahead() == old(Ahead())
        decreases |buffer.elems| - index
      {
        RestNext(buffer.elems, index, offset);
        offset, index := 0, index + 1;
      }
    }

    // One round on an array.  After an element has gone out the handler goes on with the next one at once.
    method ArrRound(e: Env) returns (go: bool, end: End, ghost tr: seq<Label>)
      requires buffer.Arr? && Valid() && !destroyed && !stopped && !timerSet && (e.reply.More? ==> e.reply.b.Arr?)
      modifies this
      ensures RoundOver(old(Abs()), tr, go, end, ARRAY)
      ensures tr == Labels(old(Ahead()), e, ARRAY) && go == GoesOn(old(Ahead()), e, ARRAY)
      ensures buffer.Arr? ==> buffer == old(buffer) || (e.reply.More? && buffer == e.reply.b)
    {
      SkipDone();
      if index >= |buffer.elems| {
        buffer := Undef;
        go, end, tr := Finish(e, Abs(), [], ARRAY);
      } else if buffer.elems[index].NotRef? {
        end, tr := ArrAbort();
        go := false;
      } else if e.again {
        go, end, tr := Again(e);
      } else if e.n == 0 {
        end, tr := ArrAbort();
        go := false;
      } else {
        go, end, tr := ArrSend(e);
      }
    }

    method ArrAbort() returns (end: End, ghost tr: seq<Label>)
      requires buffer.Arr? && !destroyed
      modifies `destroyed, `offset, `index
      ensures Valid() && Over(end) && end == Gone && Run(old(Abs()), tr, Abs()) && tr == [Failed]
    {
      ghost var s := Abs();
      offset, index := 0, 0;
      Fail();
      RunStep(s, [], s, Failed, Abs());
      end, tr := Gone, [Failed];
    }

    method ArrSend(e: Env) returns (go: bool, end: End, ghost tr: seq<Label>)
      requires buffer.Arr? && Valid() && index < |buffer.elems| && buffer.elems[index].Elem?
      requires offset < |buffer.elems[index].bytes| && !destroyed && !stopped && !timerSet && !e.again && e.n > 0
      modifies this
      ensures RoundOver(old(Abs()), tr, go, end, ARRAY) && buffer == old(buffer)
      ensures var front := Front(|old(buffer).elems[old(index)].bytes| - old(offset), false);
              tr == Labels(front, e, ARRAY) && go == GoesOn(front, e, ARRAY)
    {
      ghost var s := Abs();
      var cur := |buffer.elems[index].bytes| - offset;
      var n := if e.n > cur then cur else e.n;
      ArrOut(n);
      if cur > n {
        go, end, tr := Partial(e, s, n);
      } else {
        go, end, tr := true, Waiting, [Sent(n)];
      }
    }

    // n bytes of the current element go out; when they were its last ones the next element is current.
    method ArrOut(n: nat)
      requires buffer.Arr? && index < |buffer.elems| && buffer.elems[index].Elem? && !destroyed
      requires 0 < n <= |buffer.elems[index].bytes| - offset
      modifies `wire, `offset, `index
      ensures Valid() && Run(old(Abs()), [Sent(n)], Abs())
      ensures n < |buffer.elems[old(index)].bytes| - old(offset) ==> Abs().pending != []
    {
      ghost var es, s := buffer.elems, Abs();
      RestSent(es, index, offset, n);
      Send(buffer.elems[index].bytes[offset..], n);
      offset := offset + n;
      if offset == |buffer.elems[index].bytes| {
        RestNext(es, index, offset);
        offset, index := 0, index + 1;
      }
      RunStep(s, [], s, Sent(n), Abs());
    }

    // ngxe_rvpvav_writer_handler
    method ArrHandler(timedout: bool, env: seq<Env>) returns (end: End, ghost tr: seq<Label>, ghost rs: seq<Round>)
      requires buffer.Arr? && Valid() && !destroyed && !stopped && Fits(env, ARRAY)
      modifies this
      ensures Valid() && Over(end) && Run(old(Abs()), tr, Abs()) && Prompt(tr, Abs()) &&
        (tr == [] ==> Abs().pending != [])
      ensures end == Waiting ==> Kind(buffer) == ARRAY
      ensures Served(old(Abs()), old(Ahead()), timedout, env, ARRAY, tr, rs, Abs())
      ensures !timedout && Smooth(env) && old(Whole(buffer)) ==> Failed !in tr && Whole(buffer)
    {
      if timedout {
        end, tr := Abort();
        rs := [];
        return;
      }
      timerSet, tr, rs := false, [], [];
      ghost var s, first, fine := Abs(), Ahead(), Smooth(env) && Whole(buffer);
      var k := 0;
      while true
        invariant 0 <= k <= |env| && |rs| == k && buffer.Arr? && Midway(ARRAY, s, first, env, rs, tr)
        invariant fine ==> Fine(env, buffer, rs)
        decreases |env| - k
      {
        var go;
        go, end, tr, rs := ArrTurn(env, k, s, first, rs, tr, fine);
        if !go {
          SmoothLabelsIf(rs, ARRAY, env);
          return;
        }
        k := k + 1;
      }
    }

    method ArrTurn(env: seq<Env>, k: nat, ghost s: Stream, ghost first: Front, ghost rs0: seq<Round>,
        ghost tr0: seq<Label>, ghost fine: bool)
      returns (go: bool, end: End, ghost tr: seq<Label>, ghost rs: seq<Round>)
      requires |rs0| == k <= |env| && Fits(env, ARRAY) && buffer.Arr? && Midway(ARRAY, s, first, env, rs0, tr0)
      requires fine ==> Fine(env, buffer, rs0)
      modifies this
      ensures |rs| == k + 1 && (fine ==> Fine(env, buffer, rs))
      ensures go ==> k < |env| && buffer.Arr? && Midway(ARRAY, s, first, env, rs, tr)
      ensures !go ==> Valid() && Over(end) && Run(s, tr, Abs())
      ensures !go ==> Prompt(tr, Abs()) && (tr == [] ==> Abs().pending != [])
      ensures !go ==> (end == Waiting ==> Kind(buffer) == ARRAY) && Played(rs, Abs(), ARRAY, env, false)
      ensures !go ==> rs[0] == Round(s, first) && tr == AllLabels(rs, ARRAY, env)
    {
      ghost var r, was, tr1 := Round(Abs(), Ahead()), buffer, [];
      AheadAgrees();
      go, end, tr1 := ArrRound(At(env, k));
      OnceMore(s, first, env, ARRAY, rs0, tr0, r, Abs(), Ahead(), tr1, go);
      FineOn(env, was, rs0, r, buffer);
      tr, rs := tr0 + tr1, rs0 + [r];
      if !go {
        JoinPrompt(tr0, tr1, Abs());
      }
    }

    // ngxe_writer_handler: which of them it is depends on the buffer.
    method Handler(timedout: bool, env: seq<Env>) returns (end: End, ghost tr: seq<Label>, ghost rs: seq<Round>)
      requires Valid() && !destroyed && !stopped && !buffer.Undef? && Fits(env, Kind(buffer))
      modifies this
      ensures Valid() && Over(end) && Run(old(Abs()), tr, Abs()) && Prompt(tr, Abs()) &&
        (tr == [] ==> Abs().pending != [])
      ensures end == Waiting ==> Kind(buffer) == old(Kind(buffer))
      ensures Served(old(Abs()), old(Ahead()), timedout, env, old(Kind(buffer)), tr, rs, Abs())
      ensures !timedout && Smooth(env) && old(Whole(buffer)) ==> Failed !in tr && Whole(buffer)
    {
      match buffer
      case Str(_) => end, tr, rs := ChopHandler(timedout, env);
      case Ref(_) => end, tr, rs := RefHandler(timedout, env);
      case Arr(_) => end, tr, rs := ArrHandler(timedout, env);
    }

    // The write events of a connection, one after the other, until there is nothing to wait for.  Each is a call of the
    // handler that follows the system's answers; if nothing goes wrong no byte is lost, doubled or reordered.
    method Serve(events: seq<Event>) returns (end: End, ghost tr: seq<Label>, ghost calls: seq<Call>)
      requires Valid() && !destroyed && !stopped && armed && timerSet == (timeout > 0) && !buffer.Undef? &&
        Abs().pending != []
      requires forall i :: 0 <= i < |events| ==> Fits(events[i].env, Kind(buffer))
      modifies this
      ensures Over(end) && Run(old(Abs()), tr, Abs()) && Prompt(tr, Abs()) && (tr == [] ==> Abs().pending != [])
      ensures |calls| <= |events| && (end == Waiting ==> |calls| == |events|) && tr == Traces(calls)
      ensures Chain(calls, events, old(Kind(buffer)), old(Abs()), old(Ahead()), Abs(), Ahead())
      ensures Calm(events) && old(Whole(buffer)) ==> Clean(tr)
      ensures Clean(tr) ==> wire + Abs().pending == old(wire) + old(Abs().pending) + Supplied(tr)
      ensures Clean(tr) && SentTotal(tr) >= |old(Abs().pending)| ==> SomeDrained(tr)
    {
      ghost var s, kind, first, fine := Abs(), Kind(buffer), Ahead(), Calm(events) && Whole(buffer);
      end, tr, calls := Waiting, [], [];
      var i := 0;
      while i < |events| && end == Waiting
        invariant 0 <= i <= |events| && Valid() && Over(end) && Run(s, tr, Abs()) && Prompt(tr, Abs()) &&
          (tr == [] ==> Abs().pending != [])
        invariant (end == Waiting ==> Kind(buffer) == kind) && (fine ==> Failed !in tr && Whole(buffer))
        invariant |calls| == i && tr == Traces(calls) && Chain(calls, events, kind, s, first, Abs(), Ahead())
      {
        ghost var t, tr0, c := Abs(), tr, Call(s, first, [], []);
        end, c := Answered(events[i]);
        RunJoin(s, tr, t, c.tr, Abs());
        JoinPrompt(tr, c.tr, Abs());
        ServedOn(calls, c, events, kind, s, first, Abs(), Ahead());
        tr, calls, i := tr + c.tr, calls + [c], i + 1;
      }
      CleanIff(tr);
      if Clean(tr) {
        Conserved(s, tr, Abs());
        if SentTotal(tr) >= |s.pending| {
          CoveredMeansDrained(s, tr, Abs());
        }
      }
    }

    // One of them
    method Answered(ev: Event) returns (end: End, ghost c: Call)
      requires Valid() && !destroyed && !stopped && !buffer.Undef? && Fits(ev.env, Kind(buffer))
      modifies this
      ensures Valid() && Over(end) && Run(old(Abs()), c.tr, Abs()) && Prompt(c.tr, Abs()) &&
        (c.tr == [] ==> Abs().pending != [])
      ensures end == Waiting ==> Kind(buffer) == old(Kind(buffer))
      ensures c.s == old(Abs()) && c.first == old(Ahead()) && CallFor(c, ev, old(Kind(buffer)), Abs())
      ensures !ev.timedout && Smooth(ev.env) && old(Whole(buffer)) ==> Failed !in c.tr && Whole(buffer)
    {
      ghost var s, first, tr, rs := Abs(), Ahead(), [], [];
      end, tr, rs := Handler(ev.timedout, ev.env);
      c := Call(s, first, tr, rs);
    }
  }

  // A write event: whether it is the timer's, and the answers of the rounds
  datatype Event = Event(timedout: bool, env: seq<Env>)

  ghost predicate Calm(events: seq<Event>) {
    forall i :: 0 <= i < |events| ==> !events[i].timedout && Smooth(events[i].env)
  }

  // One call of the handler
  datatype Call = Call(s: Stream, first: Front, tr: seq<Label>, rs: seq<Round>)

  ghost predicate CallFor(c: Call, ev: Event, kind: int, t: Stream) {
    Served(c.s, c.first, ev.timedout, ev.env, kind, c.tr, c.rs, t)
  }

  ghost predicate CallAt(calls: seq<Call>, events: seq<Event>, kind: int, t: Stream, i: int) {
    0 <= i < |calls| <= |events| && CallFor(calls[i], events[i], kind, if i + 1 < |calls| then calls[i + 1].s else t)
  }

  // The calls take the events one after the other, each from where the last one ended.
  ghost predicate Chain(calls: seq<Call>, events: seq<Event>, kind: int, s: Stream, first: Front, t: Stream,
      front: Front) {
    && (forall i {:trigger CallAt(calls, events, kind, t, i)} :: 0 <= i < |calls| ==> CallAt(calls, events, kind, t, i))
    && if calls == [] then t == s && front == first else calls[0].s == s && calls[0].first == first
  }

  ghost function Traces(calls: seq<Call>): seq<Label> {
    if calls == [] then [] else Traces(calls[..|calls| - 1]) + calls[|calls| - 1].tr
  }

  lemma ServedOn(calls: seq<Call>, c: Call, events: seq<Event>, kind: int, s: Stream, first: Front, t: Stream,
      front: Front)
    requires |calls| < |events| && Chain(calls, events, kind, s, first, c.s, c.first) &&
      CallFor(c, events[|calls|], kind, t)
    ensures Chain(calls + [c], events, kind, s, first, t, front) && Traces(calls + [c]) == Traces(calls) + c.tr
  {
    var cs := calls + [c];
    forall i | 0 <= i < |cs| ensures CallAt(cs, events, kind, t, i) {
      if i < |calls| {
        CallKept(calls, c, events, kind, t, i);
      }
    }
    assert cs[..|calls|] == calls;
  }

  lemma CallKept(calls: seq<Call>, c: Call, events: seq<Event>, kind: int, t: Stream, i: nat)
    requires i < |calls| < |events| && CallAt(calls, events, kind, c.s, i)
    ensures CallAt(calls + [c], events, kind, t, i)
  {
    var cs := calls + [c];
    assert cs[i] == calls[i] && (if i + 1 < |cs| then cs[i + 1].s else t) == if i + 1 < |calls| then calls[i + 1].s
      else c.s;
  }
}
