/** Event timers: nginx/src/event/ngx_event_timer.h and ngx_event_timer.c over the red-black tree.

    Keys are millisecond counters that wrap.  The ghost field `deadline` gives the true,
    unbounded time each timer is due, and `time` the true current time; the methods work on
    the wrapped values only. */
module Timers {
  import opened RbLinks
  import opened RbColour
  import opened RbUnlink
  import opened RbTree
  import opened StrTree

  // The key range of ngx_msec_t (64 bits); only its evenness is used.
  const RANGE: nat := 0x1_0000_0000_0000_0000
  const HALF: nat := 0x8000_0000_0000_0000
  const TIMER_INFINITE: nat := RANGE - 1
  const LAZY_DELAY: nat := 300

  // (ngx_msec_int_t) a - (ngx_msec_int_t) b, in two's complement
  function SignedDiff(a: int, b: int): int {
    var d := (a - b) % RANGE;
    if d >= HALF then d - RANGE else d
  }

  // ngx_rbtree_insert_timer_value goes left when this holds.
  predicate TimerLess(a: Entry, b: Entry) {
    SignedDiff(a.key, b.key) < 0
  }

  // Within half the key range the wrapped difference is the true difference.
  lemma WindowDiff(x: int, y: int)
    requires -(HALF as int) <= x - y < HALF
    ensures SignedDiff(x % RANGE, y % RANGE) == x - y
  {
    var qx, qy := x / RANGE, y / RANGE;
    assert x % RANGE - y % RANGE == x - y - RANGE * (qx - qy);
    ModShift(x - y, qy - qx);
  }

  lemma ModShift(d: int, q: int)
    ensures (d + RANGE * q) % RANGE == d % RANGE
  {
  }

  // and outside it is not.
  lemma WindowDiffIff(x: int, y: int)
    ensures SignedDiff(x % RANGE, y % RANGE) == x - y <==> -(HALF as int) <= x - y < HALF
  {
    if -(HALF as int) <= x - y < HALF {
      WindowDiff(x, y);
    }
  }

  // A time half the key range after another one compares as earlier.
  lemma HalfRangeAhead(x: int)
    ensures SignedDiff((x + HALF) % RANGE, x % RANGE) < 0
  {
    var d := (x + HALF) % RANGE - x % RANGE;
    assert (x + HALF) / RANGE - x / RANGE == 0 || (x + HALF) / RANGE - x / RANGE == 1;
    assert d == HALF as int || d == HALF as int - RANGE;
  }

  // The one time in the window that starts at base with this wrapped value.
  ghost function Unwrap(base: int, key: int): int {
    base + (key - base) % RANGE
  }

  lemma UnwrapKey(base: int, d: int)
    requires base <= d < base + HALF
    ensures Unwrap(base, d % RANGE) == d
  {
    ModShift(d - base, -(d / RANGE));
    assert d % RANGE - base == d - base + RANGE * -(d / RANGE);
  }

  // In a window shorter than half the key range the wrapping comparison orders keys by true time.
  lemma WindowLess(base: int, a: Entry, b: Entry)
    requires Unwrap(base, a.key) < base + HALF && Unwrap(base, b.key) < base + HALF
    ensures TimerLess(a, b) <==> Unwrap(base, a.key) < Unwrap(base, b.key)
  {
    var x, y := Unwrap(base, a.key), Unwrap(base, b.key);
    ModShift(a.key - b.key, (b.key - base) / RANGE - (a.key - base) / RANGE);
    assert x - y == a.key - b.key + RANGE * ((b.key - base) / RANGE - (a.key - base) / RANGE);
  }

  lemma WindowOrdering(base: int, es: set<Entry>)
    requires forall e :: e in es ==> Unwrap(base, e.key) < base + HALF
    ensures Ordering(TimerLess, es)
  {
    forall a, b | a in es && b in es ensures TimerLess(a, b) <==> Unwrap(base, a.key) < Unwrap(base, b.key) {
      WindowLess(base, a, b);
    }
  }

  // The tree of timers holds exactly the timers of `deadline`, under their wrapped times.
  ghost predicate Keyed(t: State, deadline: map<Ref, int>) {
    t.spot.Keys == deadline.Keys && forall r :: r in deadline ==> r in t.mem && t.mem[r].key == deadline[r] % RANGE
  }

  ghost predicate InWindow(base: int, time: int, deadline: map<Ref, int>) {
    base <= time < base + HALF && forall r :: r in deadline ==> base <= deadline[r] < base + HALF
  }

  // The in-order walk visits timers in the order of their true deadlines.
  lemma SortedByDeadline(t: State, less: (Entry, Entry) -> bool, deadline: map<Ref, int>, base: int, time: int)
    requires t.Linked() && Sorted(less, t.mem, t.order) && (forall a, b :: less(a, b) == TimerLess(a, b))
    requires Keyed(t, deadline) && InWindow(base, time, deadline)
    ensures forall i :: 0 <= i < |t.order| ==> t.order[i] in deadline
    ensures forall i, j :: 0 <= i < j < |t.order| ==> deadline[t.order[i]] <= deadline[t.order[j]]
  {
    forall i, j | 0 <= i < j < |t.order| ensures deadline[t.order[i]] <= deadline[t.order[j]] {
      var x, y := t.order[i], t.order[j];
      UnwrapKey(base, deadline[x]);
      UnwrapKey(base, deadline[y]);
      WindowLess(base, EntryAt(t.mem, y), EntryAt(t.mem, x));
    }
  }

  lemma KeyedOrdering(t: State, deadline: map<Ref, int>, base: int, time: int, d: int, e: Entry)
    requires Keyed(t, deadline) && InWindow(base, time, deadline) && base <= d < base + HALF && e.key == d % RANGE
    requires forall i :: 0 <= i < |t.order| ==> t.order[i] in t.spot
    ensures Ordering(TimerLess, Entries(t.mem, t.order) + {e})
  {
    forall x | x in Entries(t.mem, t.order) + {e} ensures Unwrap(base, x.key) < base + HALF {
      if x == e {
        UnwrapKey(base, d);
      } else {
        var i :| 0 <= i < |t.order| && t.order[i] in t.mem && x == EntryAt(t.mem, t.order[i]);
        UnwrapKey(base, deadline[t.order[i]]);
      }
    }
    WindowOrdering(base, Entries(t.mem, t.order) + {e});
  }

  // What a handler may do to timers: ngx_add_timer, or ngx_del_timer under the timer_set test.
  datatype Action = Arm(ev: Ref, delay: nat) | Disarm(ev: Ref)

  ghost function Due(deadline: map<Ref, int>, time: int): set<Ref> {
    set r | r in deadline && deadline[r] <= time
  }

  // Timers still due were due before, at the same time.
  ghost predicate FewerDue(before: map<Ref, int>, after: map<Ref, int>, time: int) {
    forall r :: r in after && after[r] <= time ==> r in before && before[r] == after[r]
  }

  function Abs(x: int): int {
    if x < 0 then -x else x
  }

  // The timers fired so far were due at these times, in this order, and none left is due earlier.
  ghost predicate Fired(orig: map<Ref, int>, left: map<Ref, int>, time: int, fired: seq<Ref>, times: seq<int>) {
    && |times| == |fired| && (forall i :: 0 <= i < |fired| ==> fired[i] in orig && times[i] == orig[fired[i]] <= time)
    && (forall i, j :: 0 <= i < j < |times| ==> times[i] <= times[j])
    && (forall i, r :: 0 <= i < |times| && r in left ==> times[i] <= left[r])
    && FewerDue(orig, left, time)
  }

  lemma FiredOne(orig: map<Ref, int>, left: map<Ref, int>, left': map<Ref, int>, time: int, fired: seq<Ref>,
      times: seq<int>, node: Ref)
    requires Fired(orig, left, time, fired, times) && node in left && left[node] <= time
    requires (forall r :: r in left ==> left[node] <= left[r]) && FewerDue(left - {node}, left', time)
    ensures Fired(orig, left', time, fired + [node], times + [left[node]])
    ensures node in Due(left, time) && Due(left', time) <= Due(left, time) - {node}
  {
  }

  // None fired twice, and none that fired is due again.
  ghost predicate Once(left: map<Ref, int>, time: int, fired: seq<Ref>) {
    && (forall i :: 0 <= i < |fired| && fired[i] in left ==> left[fired[i]] > time)
    && (forall i, j :: 0 <= i < j < |fired| ==> fired[i] != fired[j])
  }

  lemma OnceNext(left: map<Ref, int>, left': map<Ref, int>, time: int, fired: seq<Ref>, node: Ref)
    requires Once(left, time, fired) && node in left && left[node] <= time && FewerDue(left - {node}, left', time)
    ensures Once(left', time, fired + [node])
  {}

  // What the expire loop keeps
  ghost predicate Firing(orig: map<Ref, int>, left: map<Ref, int>, time: int, fired: seq<Ref>, times: seq<int>,
      quiet: bool) {
    Fired(orig, left, time, fired, times) && Once(left, time, fired) && (quiet ==> OnlyFired(orig, left, time, fired))
  }

  // One turn of it
  lemma FiredNext(orig: map<Ref, int>, left: map<Ref, int>, left': map<Ref, int>, time: int, fired: seq<Ref>,
      times: seq<int>, node: Ref, quiet: bool)
    requires Firing(orig, left, time, fired, times, quiet) && node in left && left[node] <= time
    requires (forall r :: r in left ==> left[node] <= left[r]) && FewerDue(left - {node}, left', time)
    requires quiet ==> left' == left - {node}
    ensures Firing(orig, left', time, fired + [node], times + [left[node]], quiet) && Due(left', time) < Due(left, time)
  {
    FiredOne(orig, left, left', time, fired, times, node);
    OnceNext(left, left', time, fired, node);
    if quiet { OnlyFiredOne(orig, left, time, fired, node); }
  }

  // With idle handlers exactly the due timers go.
  ghost predicate OnlyFired(orig: map<Ref, int>, left: map<Ref, int>, time: int, fired: seq<Ref>) {
    && Due(orig, time) == Due(left, time) + (set r | r in fired)
    && left == orig - (set r | r in fired)
  }

  lemma OnlyFiredOne(orig: map<Ref, int>, left: map<Ref, int>, time: int, fired: seq<Ref>, node: Ref)
    requires OnlyFired(orig, left, time, fired) && node in left && left[node] <= time
    ensures OnlyFired(orig, left - {node}, time, fired + [node])
  {
    assert (set r | r in fired + [node]) == (set r | r in fired) + {node};
    assert Due(left - {node}, time) == Due(left, time) - {node};
  }

  // A set timer less than LAZY_DELAY from the wanted time is kept.
  ghost function Armed(deadline: map<Ref, int>, ev: Ref, d: int): map<Ref, int> {
    deadline[ev := if ev in deadline && Abs(d - deadline[ev]) < LAZY_DELAY then deadline[ev] else d]
  }

  // The deadlines after what a handler does
  ghost function Handled(deadline: map<Ref, int>, acts: seq<Action>, time: int): map<Ref, int> {
    if acts == [] then deadline else Acted(Handled(deadline, acts[..|acts| - 1], time), acts[|acts| - 1], time)
  }

  ghost function Acted(deadline: map<Ref, int>, a: Action, time: int): map<Ref, int> {
    match a
    case Arm(ev, delay) => Armed(deadline, ev, time + delay)
    case Disarm(ev) => deadline - {ev}
  }

  // An action makes no timer due, except exactly when it sets one with a delay of 0 that is not already set near now.
  lemma FewerDueIff(deadline: map<Ref, int>, a: Action, time: int)
    ensures FewerDue(deadline, Acted(deadline, a, time), time) <==>
      a.Disarm? || a.delay > 0 || (a.ev in deadline && Abs(time - deadline[a.ev]) < LAZY_DELAY)
  {
    if a.Arm? {
      var m := Acted(deadline, a, time);
      assert a.ev in m && forall r :: r in m && r != a.ev ==> r in deadline && m[r] == deadline[r];
    }
  }

  lemma {:induction false} HandledFewer(deadline: map<Ref, int>, acts: seq<Action>, time: int)
    requires forall a :: a in acts && a.Arm? ==> a.delay > 0
    ensures FewerDue(deadline, Handled(deadline, acts, time), time)
  {
    if acts != [] {
      HandledFewer(deadline, acts[..|acts| - 1], time);
      FewerDueIff(Handled(deadline, acts[..|acts| - 1], time), acts[|acts| - 1], time);
      assert acts[|acts| - 1] in acts;
    }
  }

  lemma ArmedDeadlines(deadline: map<Ref, int>, ev: Ref, d: int, base: int, time: int)
    requires InWindow(base, time, deadline) && base <= d < base + HALF
    ensures InWindow(base, time, Armed(deadline, ev, d))
    ensures Armed(deadline, ev, d) == if ev in deadline && Abs(d - deadline[ev]) < LAZY_DELAY then deadline
      else deadline[ev := d]
  {
  }

  lemma SetAgain(deadline: map<Ref, int>, ev: Ref, d: int, base: int, time: int)
    requires InWindow(base, time, deadline)
    ensures InWindow(base, time, deadline - {ev}) && (deadline - {ev})[ev := d] == deadline[ev := d]
  {}

  lemma KeyedGrown(t: State, u: State, deadline: map<Ref, int>, ev: Ref, d: int, k: int)
    requires Keyed(t, deadline) && ev in t.mem && t.mem[ev].key == d % RANGE && Grown(t, u, ev, k)
    ensures Keyed(u, deadline[ev := d])
  {
  }

  lemma OnlyFiredEnd(orig: map<Ref, int>, left: map<Ref, int>, time: int, fired: seq<Ref>)
    requires OnlyFired(orig, left, time, fired) && Due(left, time) == {}
    ensures left == orig - Due(orig, time)
  {
  }

  lemma KeyOf(time: int, now: nat, timer: nat)
    requires now == time % RANGE
    ensures (now + timer) % RANGE == (time + timer) % RANGE
  {
    ModShift(now + timer, time / RANGE);
    assert time + timer == now + timer + RANGE * (time / RANGE);
  }

  lemma EmptyDeadlines(t: State, deadline: map<Ref, int>)
    requires t.Linked() && t.root == t.nil && Keyed(t, deadline)
    ensures deadline == map[]
  {
    NodesInRange(t);
  }

  lemma NodesInRange(t: State)
    requires t.Linked()
    ensures forall n :: n in t.spot ==> 0 <= t.spot[n].pos < |t.order|
  {
    forall n | n in t.spot ensures 0 <= t.spot[n].pos < |t.order| {
      assert t.At(n);
    }
  }

  class Timers {
    const tree: Tree            // ngx_event_timer_rbtree; an event is named by the address of its timer node
    var timerSet: set<Ref>      // events whose timer_set flag is 1
    var timedout: set<Ref>      // events whose timedout flag is 1
    var now: nat                // ngx_current_msec
    ghost var time: int
    ghost var deadline: map<Ref, int>

    ghost predicate Valid()
      reads this, tree
    {
      && tree.Valid() && (forall a, b :: tree.less(a, b) == TimerLess(a, b))
      && timerSet == tree.spot.Keys && Keyed(tree.View(), deadline) && now == time % RANGE
    }

    // ngx_event_timer_init
    constructor (tree: Tree, time: nat)
      requires tree.Valid() && tree.order == [] && tree.spot == map[] &&
        forall a, b :: tree.less(a, b) == TimerLess(a, b)
      ensures Valid() && deadline == map[] && this.time == time && this.tree == tree
    {
      this.tree, timerSet, timedout, now := tree, {}, {}, time % RANGE;
      this.time, deadline := time, map[];
    }

    // ngx_event_del_timer
    method DelTimer(ev: Ref)
      requires Valid() && ev in timerSet
      modifies this`timerSet, this`deadline, tree
      ensures Valid() && deadline == old(deadline) - {ev} && tree.mem.Keys == old(tree.mem.Keys) &&
        timerSet == old(timerSet) - {ev}
    {
      tree.Delete(ev);
      timerSet, deadline := timerSet - {ev}, deadline - {ev};
    }

    // ngx_event_add_timer: the new deadline is exact, except that a set timer less than LAZY_DELAY away is kept.
    method AddTimer(ev: Ref, timer: nat, ghost base: int)
      requires Valid() && InWindow(base, time, deadline) && time + timer < base + HALF
      requires ev in tree.mem && ev != tree.sentinel
      modifies this`timerSet, this`deadline, tree
      ensures Valid() && tree.mem.Keys == old(tree.mem.Keys) && InWindow(base, time, deadline)
      ensures deadline == Armed(old(deadline), ev, time + timer)
    {
      var key := (now + timer) % RANGE;
      KeyOf(time, now, timer);
      Schedule(ev, key, time + timer, base);
    }

    method Schedule(ev: Ref, key: nat, ghost d: int, ghost base: int)
      requires Valid() && InWindow(base, time, deadline) && base <= d < base + HALF && key == d % RANGE
      requires ev in tree.mem && ev != tree.sentinel
      modifies this`timerSet, this`deadline, tree
      ensures Valid() && tree.mem.Keys == old(tree.mem.Keys) && InWindow(base, time, deadline)
      ensures deadline == Armed(old(deadline), ev, d)
    {
      ArmedDeadlines(deadline, ev, d, base, time);
      if ev in timerSet {
        var near := IsNear(ev, key, d, base);
        if near {
          return;
        }
        Rearm(ev, key, d, base);
      } else {
        SetTimer(ev, key, d, base);
      }
    }

    // Whether a timer that is set is close enough to the new deadline d
    method IsNear(ev: Ref, key: nat, ghost d: int, ghost base: int) returns (near: bool)
      requires Valid() && InWindow(base, time, deadline) && ev in timerSet && ev in tree.mem
      requires base <= d < base + HALF && key == d % RANGE
      ensures ev in deadline && (near <==> Abs(d - deadline[ev]) < LAZY_DELAY)
    {
      WindowDiff(d, deadline[ev]);
      var diff := SignedDiff(key, tree.mem[ev].key);
      near := Abs(diff) < LAZY_DELAY;
    }

    method Rearm(ev: Ref, key: nat, ghost d: int, ghost base: int)
      requires Valid() && InWindow(base, time, deadline) && ev in tree.mem && ev != tree.sentinel && ev in timerSet
      requires base <= d < base + HALF && key == d % RANGE
      modifies this`timerSet, this`deadline, tree
      ensures Valid() && tree.mem.Keys == old(tree.mem.Keys) && deadline == old(deadline)[ev := d]
    {
      ghost var m := deadline;
      SetAgain(m, ev, d, base, time);
      DelTimer(ev);
      SetTimer(ev, key, d, base);
    }

    // The tail of ngx_event_add_timer for a timer that is not set.
    method SetTimer(ev: Ref, key: nat, ghost d: int, ghost base: int)
      requires Valid() && InWindow(base, time, deadline) && ev in tree.mem && ev != tree.sentinel && ev !in timerSet
      requires base <= d < base + HALF && key == d % RANGE
      modifies this`timerSet, this`deadline, tree
      ensures Valid() && tree.mem.Keys == old(tree.mem.Keys) && deadline == old(deadline)[ev := d]
    {
      SetKey(tree, ev, key);
      ghost var t := tree.View();
      KeyedOrdering(t, deadline, base, time, d, EntryAt(tree.mem, ev));
      AddNode(ev, d);
      timerSet, deadline := timerSet + {ev}, deadline[ev := d];
    }

    method AddNode(ev: Ref, ghost d: int)
      requires tree.Valid() && Keyed(tree.View(), deadline) && ev in tree.mem && ev != tree.sentinel &&
        ev !in tree.spot && tree.mem[ev].key == d % RANGE
      requires (forall a, b :: tree.less(a, b) == TimerLess(a, b)) &&
        Ordering(TimerLess, Entries(tree.mem, tree.order) + {EntryAt(tree.mem, ev)})
      modifies tree
      ensures tree.Valid() && Keyed(tree.View(), deadline[ev := d]) && tree.mem.Keys == old(tree.mem.Keys) &&
        tree.spot.Keys == old(tree.spot.Keys) + {ev}
    {
      ghost var t := tree.View();
      ghost var k := tree.Insert(ev);
      KeyedGrown(t, tree.View(), deadline, ev, d, k);
    }

    // The timer nearest to firing.
    method Nearest(ghost base: int) returns (node: Ref)
      requires Valid() && InWindow(base, time, deadline) && tree.root != tree.sentinel
      ensures node in deadline && forall r :: r in deadline ==> deadline[node] <= deadline[r]
    {
      ghost var t := tree.View();
      assert t.At(tree.root);
      node := tree.Min(tree.root);
      SortedByDeadline(t, tree.less, deadline, base, time);
      forall r | r in deadline ensures deadline[node] <= deadline[r] {
        assert t.At(r);
      }
    }

    // ngx_event_find_timer: the time to wait until the nearest deadline.
    method FindTimer(ghost base: int) returns (timer: nat)
      requires Valid() && InWindow(base, time, deadline)
      ensures deadline == map[] ==> timer == TIMER_INFINITE
      ensures forall r :: r in deadline ==> timer <= (if deadline[r] > time then deadline[r] - time else 0)
      ensures deadline != map[] ==> exists r ::
        r in deadline && timer == if deadline[r] > time then deadline[r] - time else 0
    {
      if tree.root == tree.sentinel {
        EmptyDeadlines(tree.View(), deadline);
        return TIMER_INFINITE;
      }
      var node := Nearest(base);
      WindowDiff(deadline[node], time);
      var diff := SignedDiff(tree.mem[node].key, now);
      timer := if diff > 0 then diff else 0;
    }

    // What a handler does, one action after the other.
    method Handle(acts: seq<Action>, ghost base: int)
      requires Valid() && InWindow(base, time, deadline)
      requires forall a :: a in acts && a.Arm? ==>
        a.ev in tree.mem && a.ev != tree.sentinel && time + a.delay < base + HALF
      modifies this`timerSet, this`deadline, tree
      ensures Valid() && tree.mem.Keys == old(tree.mem.Keys) && InWindow(base, time, deadline)
      ensures deadline == Handled(old(deadline), acts, time)
    {
      for i := 0 to |acts|
        invariant Valid() && tree.mem.Keys == old(tree.mem.Keys) && InWindow(base, time, deadline)
        invariant deadline == Handled(old(deadline), acts[..i], time)
      {
        assert acts[..i + 1][..i] == acts[..i] && acts[i] in acts;
        Perform(acts[i], base);
      }
      assert acts[..|acts|] == acts;
    }

    method Perform(a: Action, ghost base: int)
      requires Valid() && InWindow(base, time, deadline)
      requires a.Arm? ==> a.ev in tree.mem && a.ev != tree.sentinel && time + a.delay < base + HALF
      modifies this`timerSet, this`deadline, tree
      ensures Valid() && tree.mem.Keys == old(tree.mem.Keys) && InWindow(base, time, deadline)
      ensures deadline == Acted(old(deadline), a, time)
    {
      match a {
        case Arm(ev, delay) =>
          AddTimer(ev, delay, base);
        case Disarm(ev) =>
          if ev in timerSet { DelTimer(ev); }
      }
    }

    // ngx_event_expire_timers; acts(k) is what the handler of the k-th expired event does.  Only due timers fire, in
    // order of their deadlines, and none is due at the end.  The loop ends because a handler can make no timer due.
    method ExpireTimers(acts: nat -> seq<Action>, ghost base: int) returns (fired: seq<Ref>, ghost times: seq<int>)
      requires Valid() && InWindow(base, time, deadline)
      requires forall k, a :: a in acts(k) && a.Arm? ==>
        a.ev in tree.mem && a.ev != tree.sentinel && 0 < a.delay && time + a.delay < base + HALF
      modifies this`timerSet, this`timedout, this`deadline, tree
      ensures Valid() && InWindow(base, time, deadline)
      ensures Fired(old(deadline), deadline, time, fired, times) && Once(deadline, time, fired)
      ensures forall i :: 0 <= i < |fired| ==> fired[i] in timedout
      ensures Due(deadline, time) == {}
      ensures (forall k :: acts(k) == []) ==> deadline == old(deadline) - Due(old(deadline), time)
    {
      fired, times := [], [];
      ghost var first := deadline;
      ghost var quiet := forall k :: acts(k) == [];
      while true
        invariant Valid() && InWindow(base, time, deadline) && tree.mem.Keys == old(tree.mem.Keys)
        invariant Firing(first, deadline, time, fired, times, quiet) && (set r | r in fired) <= timedout
        decreases Due(deadline, time)
      {
        var done;
        done, fired, times := Turn(acts(|fired|), base, first, fired, times, quiet);
        if done {
          if quiet { OnlyFiredEnd(first, deadline, time, fired); }
          return;
        }
      }
    }

    method Turn(acts: seq<Action>, ghost base: int, ghost first: map<Ref, int>, fired0: seq<Ref>,
        ghost times0: seq<int>, ghost quiet: bool)
      returns (done: bool, fired: seq<Ref>, ghost times: seq<int>)
      requires Valid() && InWindow(base, time, deadline) && (quiet ==> acts == [])
      requires forall a :: a in acts && a.Arm? ==>
        a.ev in tree.mem && a.ev != tree.sentinel && 0 < a.delay && time + a.delay < base + HALF
      requires Firing(first, deadline, time, fired0, times0, quiet) && (set r | r in fired0) <= timedout
      modifies this`timerSet, this`timedout, this`deadline, tree
      ensures Valid() && InWindow(base, time, deadline) && tree.mem.Keys == old(tree.mem.Keys)
      ensures Firing(first, deadline, time, fired, times, quiet) && (set r | r in fired) <= timedout
      ensures if done then Due(deadline, time) == {} else Due(deadline, time) < old(Due(deadline, time))
    {
      ghost var before := deadline;
      fired, times := fired0, times0;
      var node;
      done, node := ExpireOne(acts, base);
      if !done {
        HandledFewer(before - {node}, acts, time);
        FiredNext(first, before, deadline, time, fired, times, node, quiet);
        fired, times := fired + [node], times + [before[node]];
      }
    }

    // One turn of that loop.
    method ExpireOne(acts: seq<Action>, ghost base: int) returns (done: bool, node: Ref)
      requires Valid() && InWindow(base, time, deadline)
      requires forall a :: a in acts && a.Arm? ==>
        a.ev in tree.mem && a.ev != tree.sentinel && time + a.delay < base + HALF
      modifies this`timerSet, this`timedout, this`deadline, tree
      ensures Valid() && InWindow(base, time, deadline) && tree.mem.Keys == old(tree.mem.Keys)
      ensures done ==> Due(deadline, time) == {} && deadline == old(deadline) && timedout == old(timedout)
      ensures !done ==> node in old(deadline) && old(deadline)[node] <= time && timedout == old(timedout) + {node}
      ensures !done ==> forall r :: r in old(deadline) ==> old(deadline)[node] <= old(deadline)[r]
      ensures !done ==> deadline == Handled(old(deadline) - {node}, acts, time)
    {
      node := tree.root;
      if node == tree.sentinel {
        EmptyDeadlines(tree.View(), deadline);
        return true, node;
      }
      node := Nearest(base);
      WindowDiff(deadline[node], time);
      if SignedDiff(tree.mem[node].key, now) <= 0 {
        DelTimer(node);
        timedout := timedout + {node};
        Handle(acts, base);
        return false, node;
      }
      done := true;
    }

    // Why the delays must be positive: a handler that sets its own timer with a delay of 0 finds it due again at once,
    // and however many turns the loop has made it makes another one.
    method Spin(ev: Ref, n: nat, ghost base: int) returns (fired: seq<Ref>)
      requires Valid() && InWindow(base, time, deadline) && deadline == map[ev := time]
      requires ev in tree.mem && ev != tree.sentinel
      modifies this`timerSet, this`timedout, this`deadline, tree
      ensures Valid() && deadline == map[ev := time] && |fired| == n && forall i :: 0 <= i < n ==> fired[i] == ev
    {
      fired := [];
      for k := 0 to n
        invariant Valid() && InWindow(base, time, deadline) && deadline == map[ev := time]
        invariant ev in tree.mem && ev != tree.sentinel && |fired| == k && forall i :: 0 <= i < k ==> fired[i] == ev
      {
        assert ev in Due(deadline, time);
        var acts := [Arm(ev, 0)];
        assert acts[..0] == [];
        var done, node := ExpireOne(acts, base);
        assert !done;
        fired := fired + [node];
      }
    }
  }
}
