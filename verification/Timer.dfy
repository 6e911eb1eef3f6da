/**
 Event timers: src/event/ngx_event_timer.h and src/event/ngx_event_timer.c over
 the red-black tree, with the comparison of ngx_rbtree_insert_timer_value.

 Keys are milliseconds in 64 bits and wrap around.  The true, unbounded time and
 the true deadlines are kept beside them.
 */
module Timer {
  import opened RbShape
  import opened RbMemory
  import opened RbTree

  const WRAP: int := 0x1_0000_0000_0000_0000
  const HALF: int := 0x8000_0000_0000_0000
  const LAZY_DELAY: int := 300
  const INFINITE: int := 0xFFFF_FFFF_FFFF_FFFF

  /** The difference of two keys, read as a signed number. */
  function Diff(a: int, b: int): int {
    var d := (a - b) % WRAP;
    if d < HALF then d else d - WRAP
  }

  predicate Earlier(a: int, b: int) { Diff(a, b) < 0 }

  /** The wrapped difference is the true one exactly within half the range. */
  lemma DiffIsTrue(x: int, y: int)
    ensures Diff(x % WRAP, y % WRAP) == x - y <==> -HALF <= x - y < HALF
  {
    var q := x / WRAP - y / WRAP;
    assert x == x / WRAP * WRAP + x % WRAP && y == y / WRAP * WRAP + y % WRAP;
    assert x % WRAP - y % WRAP == x - y - q * WRAP;
    WrapAgain(x - y, q);
  }

  lemma SameClock(a: int, b: int)
    requires 0 <= a < WRAP && 0 <= b < WRAP
    ensures (a - b) % WRAP == 0 <==> a == b
  {
    WrapAgain(a - b, -1);
  }

  /** For times less than a whole turn apart, the comparison is right exactly within half
      of one. */
  lemma EarlierExactly(x: int, y: int)
    requires -WRAP < x - y < WRAP
    ensures (Earlier(x % WRAP, y % WRAP) <==> x < y) <==> -HALF <= x - y < HALF
  {
    DiffIsTrue(x, y);
    if x - y >= HALF {
      DiffIsTrue(x - WRAP, y);
      WrapAgain(x, 1);
    } else if x - y < -HALF {
      DiffIsTrue(x + WRAP, y);
      WrapAgain(x, -1);
    }
  }

  lemma WrapAgain(d: int, q: int)
    ensures (d - q * WRAP) % WRAP == d % WRAP
  {
    var r, k := d % WRAP, d / WRAP;
    assert d == k * WRAP + r;
    Unique((k - q), r);
    assert d - q * WRAP == (k - q) * WRAP + r;
  }

  lemma Unique(k: int, r: int)
    requires 0 <= r < WRAP
    ensures (k * WRAP + r) % WRAP == r
  {
  }

  /** The deadlines at hand span less than half the key range. */
  ghost predicate Spanned(due: seq<int>, l: seq<int>) {
    && (forall i :: 0 <= i < |l| ==> 0 <= l[i] < |due|)
    && (forall x, y :: x in l && y in l ==> due[x] - due[y] < HALF)
  }

  ghost predicate Encodes(key: seq<int>, due: seq<int>, l: seq<int>) {
    |key| == |due| && forall x :: x in l ==> 0 <= x < |key| && key[x] == due[x] % WRAP
  }

  ghost predicate ByDeadline(due: seq<int>, l: seq<int>) {
    && (forall i :: 0 <= i < |l| ==> 0 <= l[i] < |due|)
    && (forall i, j :: 0 <= i < j < |l| ==> due[l[i]] <= due[l[j]])
  }

  lemma EarlierIsTrue(key: seq<int>, due: seq<int>, l: seq<int>, x: int, y: int)
    requires Spanned(due, l) && Encodes(key, due, l) && x in l && y in l
    ensures Earlier(key[x], key[y]) <==> due[x] < due[y]
  {
    DiffIsTrue(due[x], due[y]);
    assert due[x] - due[y] < HALF && due[y] - due[x] < HALF;
  }

  /** The wrap-around comparison orders such timers, and by their true deadlines. */
  lemma WrapOrder(key: seq<int>, due: seq<int>, l: seq<int>)
    requires Spanned(due, l) && Encodes(key, due, l)
    ensures Ordered(Earlier, key, l)
    ensures Sorted(Earlier, key, l) <==> ByDeadline(due, l)
  {
    forall x, y | x in l && y in l ensures Earlier(key[x], key[y]) <==> due[x] < due[y] {
      EarlierIsTrue(key, due, l, x, y);
    }
    hide Earlier;
  }

  /** A node outside the list can change its key and deadline. */
  lemma Rekeyed(key: seq<int>, due: seq<int>, l: seq<int>, ev: int, d: int)
    requires Spanned(due, l) && Encodes(key, due, l) && 0 <= ev < |key| && ev !in l
    requires forall x :: x in l ==> -HALF < d - due[x] < HALF
    ensures var key', due' := key[ev := d % WRAP], due[ev := d];
            && Spanned(due', l + [ev]) && Encodes(key', due', l + [ev]) && Encodes(key', due', l) && Spanned(due', l)
            && (ByDeadline(due, l) ==> ByDeadline(due', l))
  {
  }

  lemma Fewer(key: seq<int>, due: seq<int>, l: seq<int>, l': seq<int>)
    requires Spanned(due, l) && Encodes(key, due, l) && forall x :: x in l' ==> x in l
    ensures Spanned(due, l') && Encodes(key, due, l')
  {
    forall i | 0 <= i < |l'| ensures 0 <= l'[i] < |due| {
      var x := l'[i];
      assert x in l' && x in l;
    }
  }

  // ------------------------------------------------------------ handlers

  /** A handler sets a timer, or takes one off if it is set. */
  datatype Op = Add(ev: int, timer: int) | Del(ev: int)

  /** Deadlines are within a quarter of the range, as are the delays that handlers ask
      for. */
  ghost predicate WithinReach(due: seq<int>, l: seq<int>, now: int) {
    forall x :: x in l ==> 0 <= x < |due| && -HALF / 2 < due[x] - now < HALF / 2
  }

  predicate Allowed(script: seq<Op>, n: int, s: int) {
    forall op :: op in script ==> 0 <= op.ev < n && op.ev != s && (op.Add? ==> 0 <= op.timer < HALF / 2)
  }

  /** What an operation makes of the deadlines: a timer that is set is moved only if that
      changes it by LAZY_DELAY or more. */
  function AfterOp(op: Op, deadlines: map<int, int>, now: int): map<int, int> {
    match op
    case Add(ev, timer) =>
      if ev in deadlines && -300 < now + timer - deadlines[ev] < 300 then deadlines else deadlines[ev := now + timer]
    case Del(ev) => deadlines - {ev}
  }

  function AfterOps(script: seq<Op>, deadlines: map<int, int>, now: int): map<int, int> {
    if script == [] then deadlines
    else AfterOp(script[|script| - 1], AfterOps(script[..|script| - 1], deadlines, now), now)
  }

  predicate Mentions(script: seq<Op>, x: int) { exists op :: op in script && op.ev == x }

  predicate Touches(handlers: seq<seq<Op>>, x: int) { exists k :: 0 <= k < |handlers| && Mentions(handlers[k], x) }

  lemma FewerWithinReach(due: seq<int>, l: seq<int>, l': seq<int>, now: int)
    requires WithinReach(due, l, now) && l != [] && l' == l[1..]
    ensures WithinReach(due, l', now)
  {
    assert forall x :: x in l' ==> x in l;
  }

  ghost predicate WithinHalf(due: seq<int>, l: seq<int>, now: int) {
    forall x :: x in l ==> 0 <= x < |due| && -HALF <= due[x] - now < HALF
  }

  lemma FewerWithinHalf(due: seq<int>, l: seq<int>, l': seq<int>, now: int)
    requires WithinHalf(due, l, now) && l != [] && l' == l[1..]
    ensures WithinHalf(due, l', now)
  {
    assert forall x :: x in l' ==> x in l;
  }

  lemma ReachIsHalf(due: seq<int>, l: seq<int>, now: int)
    requires WithinReach(due, l, now)
    ensures WithinHalf(due, l, now)
  {
  }

  /** A timer that no handler touches is pending as it was, or was expired for good. */
  ghost predicate Settled(handlers: seq<seq<Op>>, expired: seq<int>, due0: seq<int>, due: seq<int>, l0: seq<int>,
                          l: seq<int>, now: int) {
    |due| == |due0| && forall x :: !Touches(handlers, x) ==>
      && (0 <= x < |due| ==> due[x] == due0[x]) && (x in l ==> x in l0)
      && multiset(expired)[x] == (if x in l0 && x !in l then 1 else 0)
      && (x in l0 && x !in l ==> 0 <= x < |due0| && due0[x] <= now)
  }

  lemma StartSettled(handlers: seq<seq<Op>>, due: seq<int>, l: seq<int>, now: int)
    ensures Settled(handlers, [], due, due, l, l, now)
  {
  }

  lemma MoreSettled(handlers: seq<seq<Op>>, expired: seq<int>, due0: seq<int>, due: seq<int>, l0: seq<int>,
                    l: seq<int>, now: int)
    requires Settled(handlers, expired, due0, due, l0, l, now) && l != [] && 0 <= l[0] < |due| && due[l[0]] <= now
    requires forall i, j :: 0 <= i < j < |l| ==> l[i] != l[j]
    ensures Settled(handlers, expired + [l[0]], due0, due, l0, l[1..], now)
  {
    var x := l[0];
    assert x in l && x !in l[1..];
    assert forall y :: y in l <==> y == x || y in l[1..];
    assert multiset(expired + [x]) == multiset(expired) + multiset{x};
    hide Touches;
  }

  lemma HandledSettled(handlers: seq<seq<Op>>, k: nat, expired: seq<int>, due0: seq<int>, due: seq<int>, due': seq<int>,
                       l0: seq<int>, l: seq<int>, l': seq<int>, now: int)
    requires Settled(handlers, expired, due0, due, l0, l, now) && k < |handlers| && |due'| == |due|
    requires forall x :: !Mentions(handlers[k], x) ==> (x in l' <==> x in l) && (0 <= x < |due| ==> due'[x] == due[x])
    ensures Settled(handlers, expired, due0, due', l0, l', now)
  {
    hide Mentions;
  }

  lemma FirstExpires(expired: seq<int>, l: seq<int>, l': seq<int>, due: seq<int>, now: int)
    requires l == expired + l' && ByDeadline(due, l)
    requires forall x :: x in l' ==> 0 <= x < |due| && now < due[x]
    requires forall x :: x in l && !Touches([], x) ==> multiset(expired)[x] == if due[x] <= now then 1 else 0
    ensures expired != [] <==> l != [] && due[l[0]] <= now
  {
    if l != [] {
      assert l[0] in l && !Touches([], l[0]);
    }
  }

  lemma AllSettled(handlers: seq<seq<Op>>, expired: seq<int>, due0: seq<int>, due: seq<int>, l0: seq<int>,
                   l: seq<int>, now: int)
    requires Settled(handlers, expired, due0, due, l0, l, now) && forall x :: x in l ==> 0 <= x < |due| && now < due[x]
    ensures forall x :: !Touches(handlers, x) ==>
              && (x in l <==> x in l0 && 0 <= x < |due0| && now < due0[x])
              && multiset(expired)[x] == (if x in l0 && 0 <= x < |due0| && due0[x] <= now then 1 else 0)
  {
    hide Touches;
  }

  class Timers {
    const tree: RbTree<int>
    var msec: int                 // ngx_current_msec
    var timerSet: seq<bool>       // ev->timer_set
    ghost var now: int            // the time that msec is the low end of
    ghost var due: seq<int>       // the deadline that a key is the low end of

    /** The events with a timer, the next one first. */
    ghost function Pending(): seq<int>
      reads tree
    {
      tree.Order()
    }

    /** Each of them with its deadline. */
    ghost function Deadlines(): map<int, int>
      reads this, tree
    {
      map x | x in Pending() && 0 <= x < |due| :: due[x]
    }

    ghost predicate Valid()
      reads this, tree, tree.mem
    {
      && tree.Valid() && tree.less == Earlier && msec == now % WRAP
      && |timerSet| == |due| == tree.mem.Length
      && (forall x :: 0 <= x < |timerSet| ==> (timerSet[x] <==> x in Pending()))
      && Spanned(due, Pending()) && Encodes(tree.key, due, Pending()) && ByDeadline(due, Pending())
    }

    /** ngx_event_timer_init */
    constructor (records: array<Record>, sentinel: int, ghost time: int, low: int)
      requires 0 <= sentinel < records.Length && low == time % WRAP
      modifies records
      ensures Valid() && Pending() == [] && now == time && tree.mem == records && tree.s == sentinel && fresh(tree)
    {
      var n := records.Length;
      tree := new RbTree<int>(records, sentinel, seq(n, i => 0), Earlier, 0);
      msec := low;
      timerSet := seq(n, i => false);
      now := time;
      due := seq(n, i => 0);
    }

    /** ngx_event_del_timer */
    method DelTimer(ev: int)
      requires Valid() && ev in Pending()
      modifies this`timerSet, tree, tree.mem
      ensures Valid() && ev !in Pending() && forall x :: x in Pending() <==> x in old(Pending()) && x != ev
    {
      hide Spanned, Encodes, ByDeadline, Sorted, Ordered, Between, Zip, RedBlack, Inorder;
      ghost var l, key := Pending(), tree.key;
      InRange(key, due, l, ev);
      AllDistinct(tree.mem[..], tree.s, tree.root, tree.t);
      var k := tree.Delete(ev);
      Removed(key, tree.key, due, l, k, ev);
      timerSet := timerSet[ev := false];
    }

    /** ngx_event_add_timer */
    method AddTimer(ev: int, timer: int)
      requires Valid() && 0 <= ev < tree.mem.Length && ev != tree.s && 0 <= timer < WRAP
      requires forall x :: x in Pending() ==> -HALF < now + timer - due[x] < HALF
      modifies this`timerSet, this`due, tree, tree.mem
      ensures Valid() && forall x :: x in Pending() <==> x in old(Pending()) || x == ev
      ensures forall x :: 0 <= x < |due| && x != ev ==> due[x] == old(due)[x]
      ensures due[ev] == if old(timerSet[ev]) && -LAZY_DELAY < now + timer - old(due[ev]) < LAZY_DELAY
                then old(due[ev]) else now + timer
    {
      hide Spanned, Encodes, ByDeadline, Diff, Zip, RedBlack, Inorder;
      var key := (msec + timer) % WRAP;
      LowEnd(now, timer);
      if timerSet[ev] {
        LazyIsTrue(tree.key, due, Pending(), ev, now + timer);
        var diff := Diff(key, tree.key[ev]);
        if (if diff >= 0 then diff else -diff) < LAZY_DELAY {
          return;
        }
        DelTimer(ev);
      }
      Schedule(ev, key, now + timer);
    }

    method Schedule(ev: int, key: int, ghost deadline: int)
      requires Valid() && 0 <= ev < tree.mem.Length && ev != tree.s && ev !in Pending() && key == deadline % WRAP
      requires forall x :: x in Pending() ==> -HALF < deadline - due[x] < HALF
      modifies this`timerSet, this`due, tree, tree.mem
      ensures Valid() && (forall x :: x in Pending() <==> x in old(Pending()) || x == ev)
                && due == old(due)[ev := deadline]
    {
      hide Spanned, Encodes, ByDeadline, Sorted, Ordered, Between, Zip, RedBlack, Inorder;
      Rekeyed(tree.key, due, Pending(), ev, deadline);
      tree.key := tree.key[ev := key];
      due := due[ev := deadline];
      WrapOrder(tree.key, due, Pending());
      WrapOrder(tree.key, due, Pending() + [ev]);
      ghost var l := Pending();
      var k := tree.Insert(ev);
      Inserted(l, k, ev);
      Fewer(tree.key, due, l + [ev], Pending());
      WrapOrder(tree.key, due, Pending());
      timerSet := timerSet[ev := true];
    }

    /** ngx_event_find_timer: how long to wait */
    method FindTimer() returns (timer: int)
      requires Valid()
      ensures Pending() == [] ==> timer == INFINITE
      ensures Pending() != [] ==> forall x :: x in Pending() ==> due[Pending()[0]] <= due[x]
      ensures Pending() != [] && -HALF <= due[Pending()[0]] - now < HALF ==>
                timer == if due[Pending()[0]] > now then due[Pending()[0]] - now else 0
    {
      hide Spanned, Encodes, ByDeadline, Diff, Zip, RedBlack, Inorder;
      if tree.root == tree.s {
        EmptyTree(tree.mem[..], tree.s, tree.root, tree.t);
        return INFINITE;
      }
      var node := tree.First();
      FirstIsNext(tree.key, due, Pending());
      DiffIsTrue(due[node], now);
      var d := Diff(tree.key[node], msec);
      timer := if d > 0 then d else 0;
    }

    /** ngx_event_expire_timers; handlers[k] is what the k-th handler called does to the
        timers.  When it returns no timer has run out, and a timer that no handler touches
        has been expired, once, exactly if its deadline had passed. */
    method ExpireTimers(handlers: seq<seq<Op>>) returns (expired: seq<int>)
      requires Valid() && WithinHalf(due, Pending(), now)
      requires handlers != [] ==>
                 WithinReach(due, Pending(), now)
                     && forall k :: 0 <= k < |handlers| ==> Allowed(handlers[k], tree.mem.Length, tree.s)
      modifies this`timerSet, this`due, tree, tree.mem
      ensures Valid() && forall x :: x in Pending() ==> now < due[x]
      ensures forall x :: !Touches(handlers, x) ==>
                && (x in Pending() <==> x in old(Pending()) && 0 <= x < |old(due)| && now < old(due)[x])
                && multiset(expired)[x] ==
                   (if x in old(Pending()) && 0 <= x < |old(due)| && old(due)[x] <= now then 1 else 0)
      ensures handlers == [] ==> old(Pending()) == expired + Pending() && due == old(due)
    {
      hide Spanned, Encodes, ByDeadline, Diff, Zip, RedBlack, Inorder, WithinReach, WithinHalf, Allowed, Settled,
          Touches;
      expired := [];
      var k := 0;
      StartSettled(handlers, due, Pending(), now);
      while true
        invariant Valid() && k <= |handlers| && WithinHalf(due, Pending(), now)
        invariant handlers != [] ==> WithinReach(due, Pending(), now)
        invariant Settled(handlers, expired, old(due), due, old(Pending()), Pending(), now)
        invariant handlers == [] ==> old(Pending()) == expired + Pending() && due == old(due)
        decreases |handlers| - k, |Pending()|
      {
        var found, node := NextDue();
        if !found {
          AllSettled(handlers, expired, old(due), due, old(Pending()), Pending(), now);
          return;
        }
        ExpireNext(node, handlers, k, expired, old(due), old(Pending()));
        expired := expired + [node];
        k := if k < |handlers| then k + 1 else k;
      }
    }

    /** The next timer leaves the tree, and its handler is called. */
    method ExpireNext(node: int, handlers: seq<seq<Op>>, k: nat, ghost expired: seq<int>, ghost due0: seq<int>,
                      ghost l0: seq<int>)
      requires Valid() && k <= |handlers| && WithinHalf(due, Pending(), now)
      requires handlers != [] ==> WithinReach(due, Pending(), now)
      requires k < |handlers| ==> Allowed(handlers[k], tree.mem.Length, tree.s)
      requires Settled(handlers, expired, due0, due, l0, Pending(), now)
      requires Pending() != [] && node == Pending()[0] && 0 <= node < |due| && due[node] <= now
      modifies this`timerSet, this`due, tree, tree.mem
      ensures Valid() && WithinHalf(due, Pending(), now) && (handlers != [] ==> WithinReach(due, Pending(), now))
      ensures Settled(handlers, expired + [node], due0, due, l0, Pending(), now)
      ensures k == |handlers| ==> Pending() == old(Pending())[1..] && due == old(due)
    {
      hide Spanned, Encodes, ByDeadline, Diff, Zip, RedBlack, Inorder, WithinReach, WithinHalf, Allowed, Settled,
          Touches;
      ghost var l := Pending();
      Expire(node);
      MoreSettled(handlers, expired, due0, due, l0, l, now);
      FewerWithinHalf(due, l, Pending(), now);
      if handlers != [] {
        FewerWithinReach(due, l, Pending(), now);
      }
      if k < |handlers| {
        ghost var l1, due1 := Pending(), due;
        Handle(handlers[k]);
        HandledSettled(handlers, k, expired + [node], due0, due1, due, l0, l1, Pending(), now);
        ReachIsHalf(due, Pending(), now);
      }
    }

    /** ngx_time_update: the clock is read again, and may have been set back. */
    method UpdateTime(ghost time: int, low: int)
      requires Valid() && low == time % WRAP
      modifies this`msec, this`now
      ensures Valid() && now == time && msec == low
    {
      hide Spanned, Encodes, ByDeadline, Zip, RedBlack, Inorder;
      msec := low;
      now := time;
    }

    /** The timers' part of ngx_process_events_and_timers: the time to wait for events is
        found, time passes, the events are handled, and timers are expired if the clock
        shows another time than before.  The wait is neither too short nor too long: where
        nothing else sets timers or takes them off, and the clock is not set back, some
        timer is expired exactly if that much time has passed. */
    method ProcessTimers(ghost time: int, low: int, script: seq<Op>, handlers: seq<seq<Op>>)
      returns (timer: int, expired: seq<int>)
      requires Valid() && low == time % WRAP && WithinHalf(due, Pending(), now) && WithinReach(due, Pending(), time)
      requires Allowed(script, tree.mem.Length, tree.s)
      requires forall k :: 0 <= k < |handlers| ==> Allowed(handlers[k], tree.mem.Length, tree.s)
      modifies this
      modifies tree, tree.mem
      ensures Valid() && now == time
      ensures low == old(msec) ==> expired == []
      ensures low != old(msec) ==> forall x :: x in Pending() ==> now < due[x]
      ensures low != old(msec) ==> forall x :: !Mentions(script, x) && !Touches(handlers, x) ==>
                && (x in Pending() <==> x in old(Pending()) && 0 <= x < |old(due)| && now < old(due)[x])
                && multiset(expired)[x] ==
                   (if x in old(Pending()) && 0 <= x < |old(due)| && old(due)[x] <= now then 1 else 0)
      ensures old(Pending()) == [] ==> timer == INFINITE
      ensures low != old(msec) && script == [] && handlers == [] ==>
                (expired != [] <==> old(Pending()) != [] && old(due[Pending()[0]]) <= time)
      ensures low != old(msec) && script == [] && handlers == [] && old(now) <= time ==>
                (expired != [] <==> old(Pending()) != [] && old(now) + timer <= time)
    {
      hide Spanned, Encodes, ByDeadline, Diff, Zip, RedBlack, Inorder, Allowed, Touches;
      timer := FindTimer();
      var was := msec;
      UpdateTime(time, low);
      Handle(script);
      expired := [];
      SameClock(msec, was);
      if (msec - was) % WRAP != 0 {
        ReachIsHalf(due, Pending(), now);
        ghost var l, due0 := Pending(), due;
        expired := ExpireTimers(handlers);
        if handlers == [] {
          FirstExpires(expired, l, Pending(), due0, now);
        }
      }
    }

    /** The next timer, if it has run out. */
    method NextDue() returns (found: bool, node: int)
      requires Valid() && WithinHalf(due, Pending(), now)
      ensures found ==> Pending() != [] && node == Pending()[0] && 0 <= node < |due| && due[node] <= now
      ensures !found ==> forall x :: x in Pending() ==> 0 <= x < |due| && now < due[x]
    {
      hide Spanned, Encodes, ByDeadline, Diff, Zip, RedBlack, Inorder;
      if tree.root == tree.s {
        EmptyTree(tree.mem[..], tree.s, tree.root, tree.t);
        return false, NULL;
      }
      node := tree.First();
      FirstIsNext(tree.key, due, Pending());
      DiffIsTrue(due[node], now);
      found := Diff(tree.key[node], msec) <= 0;
    }

    /** One operation of a handler. */
    method Do(op: Op)
      requires Valid() && WithinReach(due, Pending(), now)
      requires 0 <= op.ev < tree.mem.Length && op.ev != tree.s && (op.Add? ==> 0 <= op.timer < HALF / 2)
      modifies this`timerSet, this`due, tree, tree.mem
      ensures Valid() && WithinReach(due, Pending(), now) && |due| == |old(due)|
      ensures forall x :: x != op.ev ==>
                (x in Pending() <==> x in old(Pending())) && (0 <= x < |due| ==> due[x] == old(due)[x])
      ensures Deadlines() == AfterOp(op, old(Deadlines()), now)
    {
      hide Spanned, Encodes, ByDeadline, Diff, Zip, RedBlack, Inorder;
      match op {
        case Add(ev, timer) =>
          AddTimer(ev, timer);
        case Del(ev) =>
          if timerSet[ev] {
            DelTimer(ev);
          }
      }
    }

    /** What a handler does. */
    method Handle(script: seq<Op>)
      requires Valid() && WithinReach(due, Pending(), now) && Allowed(script, tree.mem.Length, tree.s)
      modifies this`timerSet, this`due, tree, tree.mem
      ensures Valid() && WithinReach(due, Pending(), now) && |due| == |old(due)|
      ensures forall x :: !Mentions(script, x) ==>
                (x in Pending() <==> x in old(Pending())) && (0 <= x < |due| ==> due[x] == old(due)[x])
      ensures script == [] ==> Pending() == old(Pending()) && due == old(due)
      ensures Deadlines() == AfterOps(script, old(Deadlines()), now)
    {
      hide Spanned, Encodes, ByDeadline, Diff, Zip, RedBlack, Inorder;
      var i := 0;
      assert script[..0] == [];
      while i < |script|
        invariant 0 <= i <= |script| && Valid() && WithinReach(due, Pending(), now) && |due| == |old(due)|
        invariant forall x :: !Mentions(script, x) ==>
                    (x in Pending() <==> x in old(Pending())) && (0 <= x < |due| ==> due[x] == old(due)[x])
        invariant i == 0 ==> Pending() == old(Pending()) && due == old(due)
        invariant Deadlines() == AfterOps(script[..i], old(Deadlines()), now)
      {
        assert script[i] in script;
        assert script[..i + 1][..i] == script[..i];
        Do(script[i]);
        i := i + 1;
      }
      assert script[..i] == script;
    }

    /** The next timer leaves the tree before its handler is called. */
    method Expire(node: int)
      requires Valid() && Pending() != [] && node == Pending()[0]
      modifies this`timerSet, tree, tree.mem
      ensures Valid() && Pending() == old(Pending())[1..]
                && forall i, j :: 0 <= i < j < |old(Pending())| ==> old(Pending())[i] != old(Pending())[j]
    {
      hide Spanned, Encodes, ByDeadline, Sorted, Ordered, Between, Zip, RedBlack, Inorder;
      ghost var l, key := Pending(), tree.key;
      InRange(key, due, l, node);
      AllDistinct(tree.mem[..], tree.s, tree.root, tree.t);
      var k := tree.Delete(node);
      Removed(key, tree.key, due, l, k, node);
      timerSet := timerSet[node := false];
    }
  }

  lemma InRange(key: seq<int>, due: seq<int>, l: seq<int>, ev: int)
    requires Encodes(key, due, l) && ev in l
    ensures 0 <= ev < |key| == |due| && key[ev] == due[ev] % WRAP
  {
  }

  lemma LowEnd(now: int, timer: int)
    ensures (now % WRAP + timer) % WRAP == (now + timer) % WRAP
  {
    WrapAgain(now + timer, now / WRAP);
    assert now == now / WRAP * WRAP + now % WRAP;
  }

  lemma LazyIsTrue(key: seq<int>, due: seq<int>, l: seq<int>, ev: int, d: int)
    requires Encodes(key, due, l) && ev in l && 0 <= ev < |due| && -HALF < d - due[ev] < HALF
    ensures |key| == |due| && Diff(d % WRAP, key[ev]) == d - due[ev]
  {
    DiffIsTrue(d, due[ev]);
  }

  /** One timer less, whatever became of its key. */
  lemma Removed(key: seq<int>, key': seq<int>, due: seq<int>, l: seq<int>, k: nat, ev: int)
    requires Spanned(due, l) && Encodes(key, due, l) && ByDeadline(due, l)
    requires k < |l| && l[k] == ev && forall i, j :: 0 <= i < j < |l| ==> l[i] != l[j]
    requires |key'| == |key| && forall x :: 0 <= x < |key| && x != ev ==> key'[x] == key[x]
    ensures var l' := l[..k] + l[k + 1..];
            && Spanned(due, l') && Encodes(key', due, l') && ByDeadline(due, l')
            && forall x :: x in l' <==> x in l && x != ev
  {
    var l' := l[..k] + l[k + 1..];
    RemovedMembers(l, k);
    assert Encodes(key', due, l');
    Fewer(key, due, l, l');
    RemovedOrder(due, l, k);
    hide *;
  }

  lemma RemovedMembers(l: seq<int>, k: nat)
    requires k < |l| && forall i, j :: 0 <= i < j < |l| ==> l[i] != l[j]
    ensures var l' := l[..k] + l[k + 1..]; forall x :: x in l' <==> x in l && x != l[k]
  {
    var l' := l[..k] + l[k + 1..];
    assert l == l[..k] + [l[k]] + l[k + 1..];
    forall x | x in l' ensures x in l && x != l[k] {
      var i :| 0 <= i < |l'| && l'[i] == x;
      assert l'[i] == l[if i < k then i else i + 1];
    }
  }

  lemma RemovedOrder(due: seq<int>, l: seq<int>, k: nat)
    requires k < |l| && ByDeadline(due, l)
    ensures ByDeadline(due, l[..k] + l[k + 1..])
  {
    var l' := l[..k] + l[k + 1..];
    assert l == l[..k] + [l[k]] + l[k + 1..];
    forall i, j | 0 <= i < j < |l'| ensures due[l'[i]] <= due[l'[j]] {
      assert l'[i] == l[if i < k then i else i + 1] && l'[j] == l[if j < k then j else j + 1];
    }
  }

  lemma Inserted(l: seq<int>, k: nat, ev: int)
    requires k <= |l|
    ensures var l' := l[..k] + [ev] + l[k..]; forall x :: x in l' <==> x in l || x == ev
  {
    assert l == l[..k] + l[k..];
  }

  lemma FirstIsNext(key: seq<int>, due: seq<int>, l: seq<int>)
    requires Encodes(key, due, l) && ByDeadline(due, l) && l != []
    ensures 0 <= l[0] < |key| == |due| && key[l[0]] == due[l[0]] % WRAP
    ensures forall x :: x in l ==> 0 <= x < |due| && due[l[0]] <= due[x]
  {
  }
}
