/**
  The timer queue as a value: active timers in firing order, the eviction list of the
  current pass, and what adding, scheduling, deleting and one whole pass do to them.
 */
module TimerSpec {
  import opened RbNode
  import opened RbIter

  const MILLION := 1_000_000

  /** timercmp(a, b, <) */
  predicate Less(a: Timeval, b: Timeval) {
    if a.sec == b.sec then a.usec < b.usec else a.sec < b.sec
  }

  predicate Normal(t: Timeval) {
    0 <= t.usec < MILLION
  }

  function Micros(t: Timeval): int {
    t.sec * MILLION + t.usec
  }

  /** timeradd */
  function Sum(a: Timeval, b: Timeval): (r: Timeval)
    ensures Micros(r) == Micros(a) + Micros(b)
    ensures Normal(a) && Normal(b) ==> Normal(r)
  {
    if a.usec + b.usec >= MILLION then Timeval(a.sec + b.sec + 1, a.usec + b.usec - MILLION)
    else Timeval(a.sec + b.sec, a.usec + b.usec)
  }

  /** timersub */
  function Difference(a: Timeval, b: Timeval): (r: Timeval)
    ensures Micros(r) == Micros(a) - Micros(b)
    ensures Normal(a) && Normal(b) ==> Normal(r)
  {
    if a.usec - b.usec < 0 then Timeval(a.sec - b.sec - 1, a.usec - b.usec + MILLION)
    else Timeval(a.sec - b.sec, a.usec - b.usec)
  }

  /** On normalised values the comparison is that of microseconds since the epoch. */
  lemma LessIsMicros(a: Timeval, b: Timeval)
    requires Normal(a) && Normal(b)
    ensures Less(a, b) <==> Micros(a) < Micros(b)
  {
    if a.sec < b.sec {
      assert a.sec * MILLION + MILLION <= b.sec * MILLION;
    } else if b.sec < a.sec {
      assert b.sec * MILLION + MILLION <= a.sec * MILLION;
    }
  }

  // ---------------------------------------------------------------- sequences of timers

  function Removed(s: seq<Node>, n: Node): (r: seq<Node>)
    ensures |r| <= |s| && n !in r
    ensures n !in s ==> r == s
    ensures forall x :: x in r ==> x in s && x != n
    ensures forall x :: x in s ==> x == n || x in r
  {
    if s == [] then [] else if s[0] == n then Removed(s[1..], n) else [s[0]] + Removed(s[1..], n)
  }

  lemma {:induction false} RemovedAt(s: seq<Node>, i: nat)
    requires NoTwice(s) && i < |s|
    ensures Removed(s, s[i]) == s[..i] + s[i + 1..]
  {
    if i == 0 {
      assert s[0] !in s[1..];
    } else {
      NoTwicePart(s, 1, |s|);
      RemovedAt(s[1..], i - 1);
      assert s[1..][..i - 1] + s[1..][i..] == s[1..i] + s[i + 1..];
    }
  }

  lemma NoTwicePart(s: seq<Node>, lo: nat, hi: nat)
    requires NoTwice(s) && lo <= hi <= |s|
    ensures NoTwice(s[lo..hi])
  {}

  /** s comes from t by leaving elements out. */
  ghost predicate Thinned(s: seq<Node>, t: seq<Node>) {
    if s == [] then true
    else t != [] && ((s[0] == t[0] && Thinned(s[1..], t[1..])) || Thinned(s, t[1..]))
  }

  lemma {:induction false} ThinnedSelf(s: seq<Node>)
    ensures Thinned(s, s)
  {
    if s != [] { ThinnedSelf(s[1..]); }
  }

  lemma {:induction false} ThinnedFurther(s: seq<Node>, t: seq<Node>, u: seq<Node>)
    requires Thinned(s, t) && Thinned(t, u)
    ensures Thinned(s, u)
    decreases |s| + |t| + |u|
  {
    if s != [] {
      if t[0] == u[0] && Thinned(t[1..], u[1..]) {
        if s[0] == t[0] && Thinned(s[1..], t[1..]) {
          ThinnedFurther(s[1..], t[1..], u[1..]);
        } else {
          ThinnedFurther(s, t[1..], u[1..]);
        }
      } else {
        ThinnedFurther(s, t, u[1..]);
      }
    }
  }

  lemma {:induction false} ThinnedOnce(s: seq<Node>, t: seq<Node>)
    requires Thinned(s, t) && NoTwice(t)
    ensures NoTwice(s) && |s| <= |t|
    ensures forall x :: x in s ==> x in t
    decreases |t|
  {
    if s != [] {
      NoTwicePart(t, 1, |t|);
      if s[0] == t[0] && Thinned(s[1..], t[1..]) {
        ThinnedOnce(s[1..], t[1..]);
        assert t[0] !in t[1..];
        NoTwiceJoin([], s[0], s[1..]);
        assert s == [] + [s[0]] + s[1..];
      } else {
        ThinnedOnce(s, t[1..]);
      }
    }
  }

  lemma {:induction false} RemovedThins(s: seq<Node>, n: Node)
    ensures Thinned(Removed(s, n), s)
  {
    if s != [] {
      RemovedThins(s[1..], n);
      var r := Removed(s, n);
      if s[0] != n {
        assert r[1..] == Removed(s[1..], n);
      }
    }
  }

  ghost function Reversed(s: seq<Node>): (r: seq<Node>)
    ensures |r| == |s|
    ensures forall i :: 0 <= i < |s| ==> r[i] == s[|s| - 1 - i]
  {
    if s == [] then [] else Reversed(s[1..]) + [s[0]]
  }

  lemma ReversedOnce(s: seq<Node>)
    requires NoTwice(s)
    ensures NoTwice(Reversed(s))
    ensures forall x :: x in s <==> x in Reversed(s)
  {
    var r := Reversed(s);
    forall x | x in s ensures x in r {
      var i :| 0 <= i < |s| && s[i] == x;
      assert r[|s| - 1 - i] == x;
    }
  }

  // ---------------------------------------------------------------- the queue

  /**
    order: the active timers as the tree lists them; due: the eviction list;
    time: the timeout field of every timer there is, active or not.
   */
  datatype Queue = Queue(order: seq<Node>, due: seq<Node>, time: map<Node, Timeval>)

  ghost predicate Timed(s: seq<Node>, time: map<Node, Timeval>) {
    forall i :: 0 <= i < |s| ==> s[i] in time
  }

  ghost predicate Sorted(s: seq<Node>, time: map<Node, Timeval>)
    requires Timed(s, time)
  {
    forall i, j :: 0 <= i < j < |s| ==> !Less(time[s[j]], time[s[i]])
  }

  /** What holds between any two operations. */
  ghost predicate Well(q: Queue) {
    && Timed(q.order, q.time) && Sorted(q.order, q.time) && NoTwice(q.order)
    && NoTwice(q.due) && Among(q.due, q.order)
  }

  ghost predicate Among(s: seq<Node>, t: seq<Node>) {
    forall x :: x in s ==> x in t
  }

  /** How many timers at the front expire no later than the given time. */
  ghost function Expired(s: seq<Node>, time: map<Node, Timeval>, at: Timeval): (k: nat)
    requires Timed(s, time)
    ensures k <= |s|
    ensures forall i :: 0 <= i < k ==> !Less(at, time[s[i]])
    ensures k < |s| ==> Less(at, time[s[k]])
  {
    if s == [] || Less(at, time[s[0]]) then 0 else 1 + Expired(s[1..], time, at)
  }

  /** Behind that front everything expires later. */
  lemma ExpiredSplits(s: seq<Node>, time: map<Node, Timeval>, at: Timeval, i: nat)
    requires Timed(s, time) && Sorted(s, time) && i < |s|
    ensures i < Expired(s, time, at) <==> !Less(at, time[s[i]])
  {}

  lemma RemovedTimed(s: seq<Node>, time: map<Node, Timeval>, n: Node)
    requires Timed(s, time)
    ensures Timed(Removed(s, n), time)
  {
    var r := Removed(s, n);
    forall i | 0 <= i < |r| ensures r[i] in time {
      assert r[i] in s;
    }
  }

  /** osmo_timer_del */
  ghost function Cancel(q: Queue, n: Node): Queue {
    Queue(Removed(q.order, n), Removed(q.due, n), q.time)
  }

  /** Setting the timeout and osmo_timer_add: behind everything that expires no later. */
  ghost function Arm(q: Queue, n: Node, at: Timeval): Queue
    requires Timed(q.order, q.time)
  {
    var s, time := Removed(q.order, n), q.time[n := at];
    RemovedTimed(q.order, q.time, n);
    var k := Expired(s, time, at);
    Queue(s[..k] + [n] + s[k..], Removed(q.due, n), time)
  }

  lemma CancelKeeps(q: Queue, n: Node)
    requires Well(q)
    ensures Well(Cancel(q, n))
  {
    hide NoTwice, Removed, Sorted, Timed;
    RemovedWell(q.order, q.time, n);
    RemovedFromBoth(q.due, q.order, n);
  }

  lemma RemovedFromBoth(s: seq<Node>, t: seq<Node>, n: Node)
    requires Among(s, t) && NoTwice(s)
    ensures Among(Removed(s, n), Removed(t, n)) && NoTwice(Removed(s, n))
  {
    hide NoTwice;
    RemovedThins(s, n);
    ThinnedOnce(Removed(s, n), s);
  }

  lemma {:induction false} RemovedWell(s: seq<Node>, time: map<Node, Timeval>, n: Node)
    requires Timed(s, time) && Sorted(s, time) && NoTwice(s)
    ensures var r := Removed(s, n); Timed(r, time) && Sorted(r, time) && NoTwice(r)
  {
    hide NoTwice, Removed;
    if n in s {
      var i: nat :| i < |s| && s[i] == n;
      RemovedAt(s, i);
      CutOut(s, time, i);
    }
  }

  lemma CutOut(s: seq<Node>, time: map<Node, Timeval>, i: nat)
    requires Timed(s, time) && Sorted(s, time) && NoTwice(s) && i < |s|
    ensures var r := s[..i] + s[i + 1..]; Timed(r, time) && Sorted(r, time) && NoTwice(r)
  {
    var r := s[..i] + s[i + 1..];
    forall k | 0 <= k < |r| ensures r[k] == s[if k < i then k else k + 1] {}
  }

  /** Adding keeps the order: sorted, and behind all timers with the same timeout. */
  lemma ArmKeeps(q: Queue, n: Node, at: Timeval)
    requires Well(q)
    ensures Well(Arm(q, n, at))
    ensures n in Arm(q, n, at).order && n !in Arm(q, n, at).due
  {
    hide NoTwice, Removed, Sorted, Timed, Expired, Among;
    var s, time := Removed(q.order, n), q.time[n := at];
    RemovedWell(q.order, q.time, n);
    Retimed(s, q.time, n, at);
    RemovedFromBoth(q.due, q.order, n);
    Placed(s, time, n);
    var k := Expired(s, time, at);
    AmongMore(Removed(q.due, n), s, s[..k] + [n] + s[k..]);
  }

  lemma AmongMore(s: seq<Node>, t: seq<Node>, u: seq<Node>)
    requires Among(s, t) && Among(t, u)
    ensures Among(s, u)
  {}

  lemma Retimed(s: seq<Node>, time: map<Node, Timeval>, n: Node, at: Timeval)
    requires Timed(s, time) && Sorted(s, time) && n !in s
    ensures Timed(s, time[n := at]) && Sorted(s, time[n := at])
  {}

  lemma Placed(s: seq<Node>, time: map<Node, Timeval>, n: Node)
    requires Timed(s, time) && Sorted(s, time) && NoTwice(s) && n !in s && n in time
    ensures var k := Expired(s, time, time[n]); var r := s[..k] + [n] + s[k..];
      Timed(r, time) && Sorted(r, time) && NoTwice(r) && n in r && Among(s, r)
  {
    hide Less, NoTwice, Timed, Sorted, Expired;
    var k := Expired(s, time, time[n]);
    var r := s[..k] + [n] + s[k..];
    NoTwiceParts(s, k);
    NoTwiceJoin(s[..k], n, s[k..]);
    PlacedSorted(s, time, n);
    assert forall x :: x in s ==> x in s[..k] || x in s[k..];
    assert r[k] == n;
  }

  lemma NoTwiceParts(s: seq<Node>, k: nat)
    requires NoTwice(s) && k <= |s|
    ensures NoTwice(s[..k]) && NoTwice(s[k..]) && forall x :: x in s[..k] ==> x !in s[k..]
  {}

  lemma PlacedSorted(s: seq<Node>, time: map<Node, Timeval>, n: Node)
    requires Timed(s, time) && Sorted(s, time) && n in time
    ensures var k := Expired(s, time, time[n]); var r := s[..k] + [n] + s[k..];
      Timed(r, time) && Sorted(r, time)
  {
    var k := Expired(s, time, time[n]);
    var r := s[..k] + [n] + s[k..];
    forall i, j | 0 <= i < j < |r| ensures !Less(time[r[j]], time[r[i]]) {
      if i < k {
        assert r[i] == s[i];
        if j > k { assert r[j] == s[j - 1]; }
      } else {
        assert r[j] == s[j - 1];
        ExpiredSplits(s, time, time[n], j - 1);
      }
    }
  }

  /** The timeout may be set ahead, while the timer is still in the queue. */
  lemma SetAhead(q: Queue, n: Node, at: Timeval)
    requires Well(q)
    ensures var time := q.time[n := at];
      && Timed(Removed(q.order, n), time) && Sorted(Removed(q.order, n), time)
      && (Timed(q.order, time) ==> Arm(Queue(q.order, q.due, time), n, at) == Arm(q, n, at))
    ensures Well(Arm(q, n, at))
  {
    hide Removed, Sorted, Timed, Expired, Among;
    var s, time := Removed(q.order, n), q.time[n := at];
    RemovedWell(q.order, q.time, n);
    Retimed(s, q.time, n, at);
    ArmKeeps(q, n, at);
    assert time[n := at] == time;
  }

  // ---------------------------------------------------------------- what callbacks do

  /** A call a callback makes; the current time it would read is part of it. */
  datatype Call =
    | Add(timer: Node)
    | Schedule(timer: Node, seconds: int, microseconds: int, now: Timeval)
    | Del(timer: Node)

  ghost function Do(q: Queue, c: Call): Queue
    requires Timed(q.order, q.time)
    requires c.Add? ==> c.timer in q.time
  {
    match c
    case Add(n) => Arm(q, n, q.time[n])
    case Schedule(n, sec, usec, now) => Arm(q, n, Sum(Timeval(sec, usec), now))
    case Del(n) => Cancel(q, n)
  }

  ghost predicate Known(calls: seq<Call>, timers: set<Node>) {
    forall i :: 0 <= i < |calls| ==> calls[i].timer in timers
  }

  lemma DoKeeps(q: Queue, c: Call)
    requires Well(q) && c.timer in q.time
    ensures Well(Do(q, c)) && Do(q, c).time.Keys == q.time.Keys
    ensures Do(q, c).due == Removed(q.due, c.timer)
    ensures c.timer in Do(q, c).order <==> !c.Del?
    ensures forall x :: x != c.timer && x in q.time ==> Do(q, c).time[x] == q.time[x]
  {
    hide NoTwice, Removed, Sorted, Timed, Expired, Among, Well;
    match c
    case Add(n) => ArmKeeps(q, n, q.time[n]);
    case Schedule(n, sec, usec, now) => ArmKeeps(q, n, Sum(Timeval(sec, usec), now));
    case Del(n) => CancelKeeps(q, n);
  }

  /** One call takes exactly its own timer out of the order, or puts exactly it in. */
  lemma DoOthers(q: Queue, c: Call, x: Node)
    requires Timed(q.order, q.time) && c.timer in q.time && x != c.timer
    ensures x in Do(q, c).order <==> x in q.order
  {
    hide Sorted, Expired;
    if !c.Del? {
      var s := Removed(q.order, c.timer);
      RemovedTimed(q.order, q.time, c.timer);
      var at := if c.Add? then q.time[c.timer] else Sum(Timeval(c.seconds, c.microseconds), c.now);
      var k := Expired(s, q.time[c.timer := at], at);
      assert s == s[..k] + s[k..];
    }
  }

  /** The calls of one callback, one behind the other. */
  ghost function DoAll(q: Queue, calls: seq<Call>): (r: Queue)
    requires Well(q) && Known(calls, q.time.Keys)
    ensures Well(r) && r.time.Keys == q.time.Keys && |r.due| <= |q.due|
    decreases |calls|
  {
    if calls == [] then q
    else
      DoKeeps(q, calls[0]);
      DoAll(Do(q, calls[0]), calls[1..])
  }

  /** What the callback of the k-th fired timer does. */
  function Callback(script: seq<seq<Call>>, k: nat): seq<Call> {
    if k < |script| then script[k] else []
  }

  ghost predicate AllKnown(script: seq<seq<Call>>, timers: set<Node>) {
    forall k: nat :: Known(Callback(script, k), timers)
  }

  datatype Outcome = Outcome(queue: Queue, fired: seq<Node>)

  /** The restart loop: fire the head of the eviction list, start over. */
  ghost function Pass(q: Queue, script: seq<seq<Call>>, k: nat): (r: Outcome)
    requires Well(q) && AllKnown(script, q.time.Keys)
    ensures Well(r.queue) && r.queue.time.Keys == q.time.Keys && r.queue.due == []
    decreases |q.due|
  {
    if q.due == [] then Outcome(q, [])
    else
      var n := q.due[0];
      CancelKeeps(q, n);
      HeadRemoved(q.due);
      assert Known(Callback(script, k), q.time.Keys);
      var rest := Pass(DoAll(Cancel(q, n), Callback(script, k)), script, k + 1);
      Outcome(rest.queue, [n] + rest.fired)
  }

  lemma HeadRemoved(s: seq<Node>)
    requires NoTwice(s) && s != []
    ensures Removed(s, s[0]) == s[1..]
  {
    RemovedAt(s, 0);
  }

  /** The eviction list at the start of a pass: what has expired, the latest first. */
  ghost function Evicted(q: Queue, now: Timeval): Queue
    requires Timed(q.order, q.time)
  {
    q.(due := Reversed(q.order[..Expired(q.order, q.time, now)]))
  }

  lemma EvictedKeeps(q: Queue, now: Timeval)
    requires Well(q)
    ensures Well(Evicted(q, now))
    ensures forall n :: n in Evicted(q, now).due <==> n in q.order && !Less(now, q.time[n])
  {
    hide Removed, Reversed, NoTwice;
    var k := Expired(q.order, q.time, now);
    NoTwicePart(q.order, 0, k);
    assert q.order[0..k] == q.order[..k];
    ReversedOnce(q.order[..k]);
    forall n | n in q.order ensures n in q.order[..k] <==> !Less(now, q.time[n]) {
      var i: nat :| i < |q.order| && q.order[i] == n;
      ExpiredSplits(q.order, q.time, now, i);
      if i < k { assert q.order[..k][i] == n; }
    }
  }

  /** osmo_timers_update */
  ghost function Update(q: Queue, now: Timeval, script: seq<seq<Call>>): (r: Outcome)
    requires Well(q) && AllKnown(script, q.time.Keys)
    ensures Well(r.queue) && r.queue.time.Keys == q.time.Keys && r.queue.due == []
  {
    EvictedKeeps(q, now);
    Pass(Evicted(q, now), script, 0)
  }

  // ---------------------------------------------------------------- what a pass fires

  ghost predicate Touches(calls: seq<Call>, n: Node) {
    exists i :: 0 <= i < |calls| && calls[i].timer == n
  }

  lemma {:induction false} DoAllDue(q: Queue, calls: seq<Call>, n: Node)
    requires Well(q) && Known(calls, q.time.Keys)
    ensures Thinned(DoAll(q, calls).due, q.due)
    ensures n in DoAll(q, calls).due <==> n in q.due && !Touches(calls, n)
    decreases |calls|
  {
    hide NoTwice, Removed, Thinned, Do, Sorted, Among, Touches;
    if calls == [] {
      NeverTouched(n);
      ThinnedSelf(q.due);
    } else {
      DoKeeps(q, calls[0]);
      DoAllDue(Do(q, calls[0]), calls[1..], n);
      RemovedThins(q.due, calls[0].timer);
      ThinnedFurther(DoAll(q, calls).due, Removed(q.due, calls[0].timer), q.due);
      TouchesFirst(calls, n);
    }
  }

  lemma TouchesFirst(calls: seq<Call>, n: Node)
    requires calls != []
    ensures Touches(calls, n) <==> calls[0].timer == n || Touches(calls[1..], n)
  {
    if Touches(calls[1..], n) {
      var i :| 0 <= i < |calls[1..]| && calls[1..][i].timer == n;
      assert calls[i + 1].timer == n;
    }
    if Touches(calls, n) && calls[0].timer != n {
      var i :| 0 <= i < |calls| && calls[i].timer == n;
      assert calls[1..][i - 1].timer == n;
    }
  }

  lemma NeverTouched(n: Node)
    ensures !Touches([], n)
  {}

  /** One turn of the restart loop. */
  lemma Turn(q: Queue, script: seq<seq<Call>>, k: nat) returns (q1: Queue)
    requires Well(q) && AllKnown(script, q.time.Keys) && q.due != []
    ensures Well(Cancel(q, q.due[0])) && Cancel(q, q.due[0]).due == q.due[1..]
    ensures Known(Callback(script, k), q.time.Keys)
    ensures q1 == DoAll(Cancel(q, q.due[0]), Callback(script, k))
    ensures Well(q1) && AllKnown(script, q1.time.Keys) && |q1.due| < |q.due|
    ensures Pass(q, script, k).queue == Pass(q1, script, k + 1).queue
    ensures Pass(q, script, k).fired == [q.due[0]] + Pass(q1, script, k + 1).fired
  {
    CancelKeeps(q, q.due[0]);
    HeadRemoved(q.due);
    assert Known(Callback(script, k), q.time.Keys);
    q1 := DoAll(Cancel(q, q.due[0]), Callback(script, k));
  }

  /** The fired timers are evicted ones, in the eviction list's order, so none fires twice. */
  lemma {:induction false} FiredInOrder(q: Queue, script: seq<seq<Call>>, k: nat)
    requires Well(q) && AllKnown(script, q.time.Keys)
    ensures Thinned(Pass(q, script, k).fired, q.due)
    ensures NoTwice(Pass(q, script, k).fired) && Among(Pass(q, script, k).fired, q.due)
    decreases |q.due|
  {
    hide Well, DoAll, AllKnown, Among, NoTwice;
    var f := Pass(q, script, k).fired;
    if q.due != [] {
      var q1 := Turn(q, script, k);
      FiredInOrder(q1, script, k + 1);
      DoAllDue(Cancel(q, q.due[0]), Callback(script, k), q.due[0]);
      ThinnedFurther(f[1..], q1.due, q.due[1..]);
    }
    DueOnce(q);
    ThinnedOnce(f, q.due);
    InAmong(f, q.due);
  }

  lemma DueOnce(q: Queue)
    requires Well(q)
    ensures NoTwice(q.due)
  {}

  lemma InAmong(s: seq<Node>, t: seq<Node>)
    requires forall x :: x in s ==> x in t
    ensures Among(s, t)
  {}

  /** The j-th callback of the pass comes before the timer's own turn and touches it. */
  ghost predicate ForestalledBy(fired: seq<Node>, script: seq<seq<Call>>, k: nat, n: Node, j: nat)
    requires j < |fired|
  {
    n !in fired[..j + 1] && Touches(Callback(script, k + j), n)
  }

  ghost predicate Forestalled(fired: seq<Node>, script: seq<seq<Call>>, k: nat, n: Node) {
    exists j: nat :: j < |fired| && ForestalledBy(fired, script, k, n, j)
  }

  lemma ForestalledStep(fired: seq<Node>, script: seq<seq<Call>>, k: nat, n: Node)
    requires fired != [] && fired[0] != n
    ensures Forestalled(fired, script, k, n) <==>
      Touches(Callback(script, k), n) || Forestalled(fired[1..], script, k + 1, n)
  {
    hide Touches, Callback;
    if Touches(Callback(script, k), n) {
      assert ForestalledBy(fired, script, k, n, 0);
    }
    if Forestalled(fired[1..], script, k + 1, n) {
      var j: nat :| j < |fired[1..]| && ForestalledBy(fired[1..], script, k + 1, n, j);
      assert fired[..(j + 1) + 1] == [fired[0]] + fired[1..][..j + 1];
      assert ForestalledBy(fired, script, k, n, j + 1);
    }
    if Forestalled(fired, script, k, n) && !Touches(Callback(script, k), n) {
      var j: nat :| j < |fired| && ForestalledBy(fired, script, k, n, j);
      assert Touches(Callback(script, k + j), n);
      assert j > 0 && k + 1 + (j - 1) == k + j;
      assert fired[..j + 1] == [fired[0]] + fired[1..][..(j - 1) + 1];
      assert ForestalledBy(fired[1..], script, k + 1, n, j - 1);
    }
  }

  /** An evicted timer fires unless a callback run before it deletes or re-adds it. */
  lemma {:induction false} FiresUnlessForestalled(q: Queue, script: seq<seq<Call>>, k: nat, n: Node)
    requires Well(q) && AllKnown(script, q.time.Keys) && n in q.due
    ensures n in Pass(q, script, k).fired <==> !Forestalled(Pass(q, script, k).fired, script, k, n)
    decreases |q.due|
  {
    hide Well, DoAll, AllKnown, NoTwice, Touches, Callback, Forestalled;
    var q1 := Turn(q, script, k);
    var f := Pass(q, script, k).fired;
    if q.due[0] == n {
      FirstNotForestalled(f, script, k, n);
    } else {
      ForestalledStep(f, script, k, n);
      DoAllDue(Cancel(q, q.due[0]), Callback(script, k), n);
      if n in q1.due {
        FiresUnlessForestalled(q1, script, k + 1, n);
      } else {
        FiredInOrder(q1, script, k + 1);
        AmongNot(f[1..], q1.due, n);
      }
    }
  }

  lemma AmongNot(s: seq<Node>, t: seq<Node>, n: Node)
    requires Among(s, t) && n !in t
    ensures n !in s
  {}

  lemma FirstNotForestalled(fired: seq<Node>, script: seq<seq<Call>>, k: nat, n: Node)
    requires fired != [] && fired[0] == n
    ensures !Forestalled(fired, script, k, n)
  {
    forall j: nat | j < |fired| ensures !ForestalledBy(fired, script, k, n, j) {
      assert fired[..j + 1][0] == n;
    }
  }

  /** A timer a callback touches does not fire later in the same pass, even if it was re-added. */
  lemma {:induction false} TouchedWaits(q: Queue, script: seq<seq<Call>>, k: nat, j: nat, n: Node)
    requires Well(q) && AllKnown(script, q.time.Keys)
    requires j < |Pass(q, script, k).fired| && Touches(Callback(script, k + j), n)
    ensures n !in Pass(q, script, k).fired[j + 1..]
    decreases |q.due|
  {
    hide Well, DoAll, AllKnown, NoTwice, Touches, Callback, Pass, Among, Thinned;
    NothingDue(q, script, k);
    var q1 := Turn(q, script, k);
    var f := Pass(q, script, k).fired;
    if j == 0 {
      DoAllDue(Cancel(q, q.due[0]), Callback(script, k), n);
      FiredInOrder(q1, script, k + 1);
      AmongNot(f[1..], q1.due, n);
    } else {
      TouchedWaits(q1, script, k + 1, j - 1, n);
      assert f[j + 1..] == f[1..][j..];
    }
  }

  lemma NothingDue(q: Queue, script: seq<seq<Call>>, k: nat)
    requires Well(q) && AllKnown(script, q.time.Keys) && Pass(q, script, k).fired != []
    ensures q.due != []
  {}

  // ---------------------------------------------------------------- what a pass leaves

  /** Whether a timer is active once a callback is done. */
  ghost function Standing(calls: seq<Call>, n: Node, was: bool): bool {
    if calls == [] then was
    else Standing(calls[1..], n, if calls[0].timer == n then !calls[0].Del? else was)
  }

  lemma {:induction false} DoAllStanding(q: Queue, calls: seq<Call>, n: Node)
    requires Well(q) && Known(calls, q.time.Keys)
    ensures n in DoAll(q, calls).order <==> Standing(calls, n, n in q.order)
    ensures n in q.time && !Touches(calls, n) ==> n in DoAll(q, calls).time && DoAll(q, calls).time[n] == q.time[n]
    decreases |calls|
  {
    hide NoTwice, Removed, Do, Sorted, Among, Touches;
    if calls != [] {
      DoKeeps(q, calls[0]);
      if calls[0].timer != n { DoOthers(q, calls[0], n); }
      DoAllStanding(Do(q, calls[0]), calls[1..], n);
      TouchesFirst(calls, n);
    }
  }

  /** Whether a timer is active after a pass: the last word about it counts. */
  ghost function StandingAfter(fired: seq<Node>, script: seq<seq<Call>>, k: nat, n: Node, was: bool): bool {
    if fired == [] then was
    else StandingAfter(fired[1..], script, k + 1, n, Standing(Callback(script, k), n, was && fired[0] != n))
  }

  /** Firing deactivates; after that and in between, callbacks decide. */
  lemma {:induction false} LastWordCounts(q: Queue, script: seq<seq<Call>>, k: nat, n: Node)
    requires Well(q) && AllKnown(script, q.time.Keys)
    ensures n in Pass(q, script, k).queue.order <==>
      StandingAfter(Pass(q, script, k).fired, script, k, n, n in q.order)
    decreases |q.due|
  {
    hide Well, DoAll, AllKnown, NoTwice, Standing, Callback;
    if q.due != [] {
      var q1 := Turn(q, script, k);
      LastWordCounts(q1, script, k + 1, n);
      DoAllStanding(Cancel(q, q.due[0]), Callback(script, k), n);
      assert Pass(q, script, k).fired[1..] == Pass(q1, script, k + 1).fired;
    }
  }

  /** No callback run in the pass has the timer as its target. */
  ghost predicate Undisturbed(fired: seq<Node>, script: seq<seq<Call>>, k: nat, n: Node) {
    forall j: nat :: k <= j < k + |fired| ==> !Touches(Callback(script, j), n)
  }

  lemma {:induction false} UntouchedStanding(calls: seq<Call>, n: Node, was: bool)
    requires !Touches(calls, n)
    ensures Standing(calls, n, was) == was
  {
    hide Touches;
    if calls != [] {
      TouchesFirst(calls, n);
      UntouchedStanding(calls[1..], n, was);
    }
  }

  lemma {:induction false} UndisturbedAfter(q: Queue, script: seq<seq<Call>>, k: nat, n: Node)
    requires Well(q) && AllKnown(script, q.time.Keys) && n in q.time
    requires Undisturbed(Pass(q, script, k).fired, script, k, n)
    ensures n in Pass(q, script, k).fired <==> n in q.due
    ensures n in Pass(q, script, k).queue.order <==> n in q.order && n !in q.due
    ensures Pass(q, script, k).queue.time[n] == q.time[n]
    decreases |q.due|
  {
    hide Well, DoAll, AllKnown, NoTwice, Touches, Callback, Standing;
    if q.due != [] {
      var q1 := Turn(q, script, k);
      assert Pass(q, script, k).fired[1..] == Pass(q1, script, k + 1).fired;
      DoAllStanding(Cancel(q, q.due[0]), Callback(script, k), n);
      DoAllDue(Cancel(q, q.due[0]), Callback(script, k), n);
      UntouchedStanding(Callback(script, k), n, n in Cancel(q, q.due[0]).order);
      UndisturbedAfter(q1, script, k + 1, n);
    }
  }

  /** A timer no callback interferes with fires once if it has expired and else stays as it is. */
  lemma UndisturbedPass(q: Queue, now: Timeval, script: seq<seq<Call>>, n: Node)
    requires Well(q) && AllKnown(script, q.time.Keys) && n in q.time
    requires Undisturbed(Update(q, now, script).fired, script, 0, n)
    ensures n in Update(q, now, script).fired <==> n in q.order && !Less(now, q.time[n])
    ensures n in Update(q, now, script).queue.order <==> n in q.order && Less(now, q.time[n])
    ensures Update(q, now, script).queue.time[n] == q.time[n]
  {
    hide Pass, AllKnown, NoTwice, Touches, Callback, Undisturbed, Sorted, Among;
    EvictedKeeps(q, now);
    UndisturbedAfter(Evicted(q, now), script, 0, n);
  }

  // ---------------------------------------------------------------- in which order a pass fires

  /** One timer stands before another. */
  ghost predicate StandsBefore(s: seq<Node>, a: Node, b: Node) {
    exists i, j :: 0 <= i < j < |s| && s[i] == a && s[j] == b
  }

  lemma {:induction false} ThinnedBefore(s: seq<Node>, t: seq<Node>, i: nat, j: nat)
    requires Thinned(s, t) && i < j < |s|
    ensures StandsBefore(t, s[i], s[j])
    decreases |t|
  {
    if s[0] == t[0] && Thinned(s[1..], t[1..]) {
      if i == 0 {
        ThinnedIn(s[1..], t[1..], j - 1);
        var b: nat :| b < |t[1..]| && t[1..][b] == s[j];
        assert t[0] == s[i] && t[b + 1] == s[j];
      } else {
        ThinnedBefore(s[1..], t[1..], i - 1, j - 1);
        BeforeBehind(t, s[i], s[j]);
      }
    } else {
      ThinnedBefore(s, t[1..], i, j);
      BeforeBehind(t, s[i], s[j]);
    }
  }

  lemma {:induction false} ThinnedIn(s: seq<Node>, t: seq<Node>, i: nat)
    requires Thinned(s, t) && i < |s|
    ensures s[i] in t
    decreases |t|
  {
    if s[0] == t[0] && Thinned(s[1..], t[1..]) {
      if i > 0 { ThinnedIn(s[1..], t[1..], i - 1); }
    } else {
      ThinnedIn(s, t[1..], i);
    }
  }

  lemma BeforeBehind(t: seq<Node>, a: Node, b: Node)
    requires t != [] && StandsBefore(t[1..], a, b)
    ensures StandsBefore(t, a, b)
  {
    var i, j :| 0 <= i < j < |t[1..]| && t[1..][i] == a && t[1..][j] == b;
    assert t[i + 1] == a && t[j + 1] == b;
  }

  /**
    Whatever the callbacks do: of two timers that fire in a pass, the one that fires first stood
    behind the other in the tree, so it does not expire earlier.
   */
  lemma LatestFirst(q: Queue, now: Timeval, script: seq<seq<Call>>, i: nat, j: nat)
    requires Well(q) && AllKnown(script, q.time.Keys) && i < j < |Update(q, now, script).fired|
    ensures var fired := Update(q, now, script).fired;
      && StandsBefore(q.order, fired[j], fired[i])
      && fired[i] in q.time && fired[j] in q.time && !Less(q.time[fired[i]], q.time[fired[j]])
  {
    hide Pass, AllKnown, NoTwice, Reversed, Thinned, Among, Sorted, StandsBefore;
    EvictedKeeps(q, now);
    FiredInOrder(Evicted(q, now), script, 0);
    var fired := Update(q, now, script).fired;
    ThinnedBefore(fired, Evicted(q, now).due, i, j);
    TurnedAround(q.order, Expired(q.order, q.time, now), fired[i], fired[j]);
    SortedBefore(q.order, q.time, fired[j], fired[i]);
  }

  lemma TurnedAround(s: seq<Node>, k: nat, a: Node, b: Node)
    requires k <= |s| && StandsBefore(Reversed(s[..k]), a, b)
    ensures StandsBefore(s, b, a)
  {
    hide Reversed;
    var r := Reversed(s[..k]);
    var i, j :| 0 <= i < j < |r| && r[i] == a && r[j] == b;
    assert s[k - 1 - j] == b && s[k - 1 - i] == a;
  }

  lemma SortedBefore(s: seq<Node>, time: map<Node, Timeval>, a: Node, b: Node)
    requires Timed(s, time) && Sorted(s, time) && StandsBefore(s, a, b)
    ensures a in time && b in time && !Less(time[b], time[a])
  {}

  /** A timer armed for the time of another or later fires before it: the last come, first served. */
  lemma LastArmedFirst(q: Queue, n: Node, m: Node, at: Timeval, now: Timeval, script: seq<seq<Call>>, i: nat, j: nat)
    requires Well(q) && n != m && n in q.order && !Less(at, q.time[n])
    requires Well(Arm(q, m, at)) && AllKnown(script, Arm(q, m, at).time.Keys)
    requires var fired := Update(Arm(q, m, at), now, script).fired;
      i < |fired| && j < |fired| && fired[i] == n && fired[j] == m
    ensures j < i
  {
    hide Update, Arm, NoTwice, Sorted, AllKnown;
    var r := Arm(q, m, at);
    if i < j {
      LatestFirst(r, now, script, i, j);
      ArmedBehind(q, n, m, at);
      NotBoth(r.order, m, n);
    }
  }

  lemma ArmedBehind(q: Queue, n: Node, m: Node, at: Timeval)
    requires Well(q) && n != m && n in q.order && !Less(at, q.time[n])
    ensures StandsBefore(Arm(q, m, at).order, n, m)
  {
    hide NoTwice, Less, Removed, Expired;
    ArmKeeps(q, m, at);
    FirstComeFirst(q, m, at);
    DoOthers(Queue(q.order, q.due, q.time[m := at]), Add(m), n);
    var r := Arm(q, m, at);
    var k: nat :| k < |r.order| && r.order[k] == m && Between(r, k);
    assert n in r.order;
    var i: nat :| i < |r.order| && r.order[i] == n;
    assert i < k;
  }

  /** A scheduled timer expires the given delay after the present time, and no other timeout changes. */
  lemma ScheduledFor(q: Queue, n: Node, sec: int, usec: int, now: Timeval)
    requires Well(q) && n in q.time
    ensures var r := Do(q, Schedule(n, sec, usec, now));
      && n in r.order && n in r.time && Micros(r.time[n]) == Micros(now) + sec * MILLION + usec
      && forall x :: x != n && x in q.time ==> x in r.time && r.time[x] == q.time[x]
  {
    hide Arm, Micros;
    ArmKeeps(q, n, Sum(Timeval(sec, usec), now));
    ScheduledTime(sec, usec);
    DoKeeps(q, Schedule(n, sec, usec, now));
    ArmedTime(q, n, Sum(Timeval(sec, usec), now));
  }

  lemma ScheduledTime(sec: int, usec: int)
    ensures Micros(Timeval(sec, usec)) == sec * MILLION + usec
  {}

  lemma ArmedTime(q: Queue, n: Node, at: Timeval)
    requires Timed(q.order, q.time)
    ensures n in Arm(q, n, at).time && Arm(q, n, at).time[n] == at
  {}

  /** The other timers keep their order. */
  lemma OthersKeepOrder(q: Queue, n: Node, at: Timeval)
    requires Well(q)
    ensures Removed(Arm(q, n, at).order, n) == Removed(q.order, n)
  {
    hide Expired, Removed, NoTwice;
    ArmKeeps(q, n, at);
    RemovedTimed(q.order, q.time, n);
    var s, time := Removed(q.order, n), q.time[n := at];
    var k := Expired(s, time, at);
    RemovedAt(Arm(q, n, at).order, k);
    assert s == s[..k] + s[k..];
  }

  /**
    Two timers that are due: the later one fires first, and if its callback deletes the other, that
    one does not fire.
   */
  lemma TwoTimers(a: Node, b: Node, ta: Timeval, tb: Timeval, now: Timeval)
    requires a != b && Less(ta, tb) && !Less(now, ta) && !Less(now, tb)
    ensures var q := Queue([a, b], [], map[a := ta, b := tb]);
      && Well(q) && AllKnown([], q.time.Keys) && AllKnown([[Del(a)], []], q.time.Keys)
      && Update(q, now, []).fired == [b, a]
      && Update(q, now, [[Del(a)], []]).fired == [b]
  {
    hide Update, Well, AllKnown, DoAll, Expired, Less, Reversed, Touches;
    var q := Queue([a, b], [], map[a := ta, b := tb]);
    TwoDue(a, b, ta, tb, now);
    UpdateIs(q, now, []);
    UpdateIs(q, now, [[Del(a)], []]);
    var e := Evicted(q, now);
    NoCalls(e, a, b);
    OneDeleted(e, a, b);
  }

  lemma UpdateIs(q: Queue, now: Timeval, script: seq<seq<Call>>)
    requires Well(q) && AllKnown(script, q.time.Keys)
    ensures Well(Evicted(q, now)) && Update(q, now, script) == Pass(Evicted(q, now), script, 0)
  {
    EvictedKeeps(q, now);
  }

  lemma TwoDue(a: Node, b: Node, ta: Timeval, tb: Timeval, now: Timeval)
    requires a != b && Less(ta, tb) && !Less(now, ta) && !Less(now, tb)
    ensures var q := Queue([a, b], [], map[a := ta, b := tb]);
      && Well(q) && AllKnown([], q.time.Keys) && AllKnown([[Del(a)], []], q.time.Keys)
      && Evicted(q, now).due == [b, a]
  {
    var q := Queue([a, b], [], map[a := ta, b := tb]);
    assert Expired(q.order, q.time, now) == 2 by {
      ExpiredSplits(q.order, q.time, now, 0);
      ExpiredSplits(q.order, q.time, now, 1);
    }
    assert q.order[..2] == [a, b];
  }

  lemma NoCalls(e: Queue, a: Node, b: Node)
    requires Well(e) && e.due == [b, a] && AllKnown([], e.time.Keys)
    ensures Pass(e, [], 0).fired == [b, a]
  {
    hide Well, AllKnown, DoAll;
    var q1 := Turn(e, [], 0);
    NothingCalled(Cancel(e, b));
    var q2 := Turn(q1, [], 1);
    NothingCalled(Cancel(q1, a));
  }

  lemma NothingCalled(q: Queue)
    requires Well(q)
    ensures Known([], q.time.Keys) && DoAll(q, []) == q
  {}

  lemma OneDeleted(e: Queue, a: Node, b: Node)
    requires Well(e) && a != b && e.due == [b, a] && AllKnown([[Del(a)], []], e.time.Keys)
    ensures Pass(e, [[Del(a)], []], 0).fired == [b]
  {
    hide Well, AllKnown, DoAll, Touches;
    var r1 := Turn(e, [[Del(a)], []], 0);
    DoAllDue(Cancel(e, b), [Del(a)], a);
    TouchesFirst([Del(a)], a);
    OnlyDue(r1, [[Del(a)], []], a);
  }

  lemma OnlyDue(q: Queue, script: seq<seq<Call>>, a: Node)
    requires Well(q) && AllKnown(script, q.time.Keys) && |q.due| <= 1 && a !in q.due && Among(q.due, [a])
    ensures Pass(q, script, 1).fired == []
  {
    if q.due != [] { assert q.due[0] in q.due; }
  }

  lemma NotBoth(s: seq<Node>, a: Node, b: Node)
    requires NoTwice(s) && StandsBefore(s, a, b)
    ensures !StandsBefore(s, b, a)
  {}

  /** A timer is placed behind all that expire no later and before all that expire later. */
  lemma FirstComeFirst(q: Queue, n: Node, at: Timeval)
    requires Well(q)
    ensures Well(Arm(q, n, at))
    ensures exists k: nat :: k < |Arm(q, n, at).order| && Arm(q, n, at).order[k] == n && Between(Arm(q, n, at), k)
  {
    hide NoTwice;
    ArmKeeps(q, n, at);
    var s, time := Removed(q.order, n), q.time[n := at];
    RemovedWell(q.order, q.time, n);
    Retimed(s, q.time, n, at);
    var k := Expired(s, time, at);
    var r := Arm(q, n, at);
    forall i | k < i < |r.order| ensures Less(time[n], time[r.order[i]]) {
      assert r.order[i] == s[i - 1];
      ExpiredSplits(s, time, at, i - 1);
    }
    assert r.order[k] == n && Between(r, k);
  }

  ghost predicate Between(q: Queue, k: nat)
    requires Timed(q.order, q.time) && k < |q.order|
  {
    && (forall i :: 0 <= i < k ==> !Less(q.time[q.order[k]], q.time[q.order[i]]))
    && (forall i :: k < i < |q.order| ==> Less(q.time[q.order[k]], q.time[q.order[i]]))
  }

  lemma {:induction false} ReversedGrows(s: seq<Node>, i: nat)
    requires i < |s|
    ensures Reversed(s[..i + 1]) == [s[i]] + Reversed(s[..i])
  {
    hide Reversed;
  }
}
