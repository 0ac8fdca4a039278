/** The FIFO concurrency limiter of scripts/load-test-ai-concurrency.ts, split at its await points. */
module CappedAdapters {
  import opened Common

  /**
   * A call is waiting in the queue, woken (its promise is resolved but its continuation has not
   * run), or running in the inner adapter. `queued` and `wakes` record the order of all calls that
   * ever entered and left the queue.
   */
  datatype State = State(
    active: int,
    waiting: seq<nat>,
    woken: set<nat>,
    running: set<nat>,
    queued: seq<nat>,
    wakes: seq<nat>)

  const INIT := State(0, [], {}, {}, [], [])

  datatype Event = Arrive(call: nat) | Resume(call: nat) | Release(call: nat)

  predicate Known(s: State, call: nat) {
    call in s.running || call in s.woken || call in s.queued
  }

  predicate Enabled(s: State, e: Event) {
    match e
    case Arrive(c) => !Known(s, c)
    case Resume(c) => c in s.woken
    case Release(c) => c in s.running
  }

  function Apply(cap: int, s: State, e: Event): State {
    match e
    case Arrive(c) =>
      if s.active >= cap then s.(waiting := s.waiting + [c], queued := s.queued + [c])
      else s.(active := s.active + 1, running := s.running + {c})
    case Resume(c) =>
      s.(woken := s.woken - {c}, active := s.active + 1, running := s.running + {c})
    case Release(c) =>
      var s := s.(active := s.active - 1, running := s.running - {c});
      if s.waiting == [] then s
      else s.(waiting := s.waiting[1..], woken := s.woken + {s.waiting[0]}, wakes := s.wakes + [s.waiting[0]])
  }

  ghost predicate IsRun(cap: int, s: State, run: seq<Event>)
    decreases |run|
  {
    run == [] || (Enabled(s, run[0]) && IsRun(cap, Apply(cap, s, run[0]), run[1..]))
  }

  ghost function After(cap: int, s: State, run: seq<Event>): State
    decreases |run|
  {
    if run == [] then s else After(cap, Apply(cap, s, run[0]), run[1..])
  }

  // ---- The class ----

  class CappedAdapter {
    const cap: int
    var active: int
    var waiting: seq<nat>
    var queueWaits: seq<int>
    /** The local `queuedAt` of each call that has not started. */
    var queuedAt: map<nat, int>
    ghost var woken: set<nat>
    ghost var running: set<nat>
    ghost var queued: seq<nat>
    ghost var wakes: seq<nat>

    constructor (cap: int)
      ensures this.cap == cap && Current() == INIT && queueWaits == []
    {
      this.cap, active, waiting, queueWaits, queuedAt := cap, 0, [], [], map[];
      woken, running, queued, wakes := {}, {}, [], [];
    }

    ghost function Current(): State
      reads this
    {
      State(active, waiting, woken, running, queued, wakes)
    }

    /** `generateText` up to its first await. */
    method Begin(call: nat, at: int, now: int)
      requires Enabled(Current(), Arrive(call))
      modifies this
      ensures Current() == Apply(cap, old(Current()), Arrive(call))
      ensures queueWaits == old(queueWaits) + if old(active) >= cap then [] else [now - at]
      ensures queuedAt == old(queuedAt)[call := at]
    {
      queuedAt := queuedAt[call := at];
      if active >= cap {
        waiting := waiting + [call];
        queued := queued + [call];
      } else {
        Start(call, now);
      }
    }

    /** The continuation after the wait in the queue. */
    method Continue(call: nat, now: int)
      requires Enabled(Current(), Resume(call)) && call in queuedAt
      modifies this
      ensures Current() == Apply(cap, old(Current()), Resume(call))
      ensures queueWaits == old(queueWaits) + [now - old(queuedAt[call])] && queuedAt == old(queuedAt)
    {
      woken := woken - {call};
      Start(call, now);
    }

    method Start(call: nat, now: int)
      requires call in queuedAt
      modifies this`active, this`queueWaits, this`running
      ensures active == old(active) + 1 && running == old(running) + {call}
      ensures queueWaits == old(queueWaits) + [now - queuedAt[call]]
    {
      active := active + 1;
      queueWaits := queueWaits + [now - queuedAt[call]];
      running := running + {call};
    }

    /** The `finally` block after the inner adapter settled. */
    method Finish(call: nat)
      requires Enabled(Current(), Release(call))
      modifies this
      ensures Current() == Apply(cap, old(Current()), Release(call))
      ensures queueWaits == old(queueWaits) && queuedAt == old(queuedAt)
    {
      active := active - 1;
      running := running - {call};
      if waiting != [] {
        woken := woken + {waiting[0]};
        wakes := wakes + [waiting[0]];
        waiting := waiting[1..];
      }
    }
  }

  // ---- What every step keeps ----

  ghost predicate Invariant(cap: int, s: State) {
    && s.active == |s.running|
    && s.running !! s.woken
    && Distinct(s.queued)
    && (forall c :: c in s.waiting ==> c !in s.running && c !in s.woken)
    && (forall c :: c in s.woken ==> c in s.wakes)
    // waiters are woken in the order they queued
    && s.queued == s.wakes + s.waiting
    // no lost wakeup: somebody waits only while all places are taken or promised
    && (s.waiting != [] ==> s.active + |s.woken| >= cap)
  }

  lemma ReleaseKeepsInvariant(cap: int, s: State, c: nat)
    requires Invariant(cap, s) && c in s.running
    ensures Invariant(cap, Apply(cap, s, Release(c)))
  {
    if s.waiting != [] {
      var s' := Apply(cap, s, Release(c));
      var w := s.waiting[0];
      assert s.waiting == [w] + s'.waiting && s.queued[|s.wakes|] == w && w in s.waiting;
      forall c | c in s'.waiting ensures c in s.waiting && c != w {
        var i :| 0 <= i < |s'.waiting| && s'.waiting[i] == c;
        assert s.queued[|s.wakes| + 1 + i] == c;
      }
      assert s'.queued == s'.wakes + s'.waiting;
    }
  }

  lemma StepKeepsInvariant(cap: int, s: State, e: Event)
    requires Invariant(cap, s) && Enabled(s, e)
    ensures Invariant(cap, Apply(cap, s, e))
  {
    match e
    case Release(c) => ReleaseKeepsInvariant(cap, s, c);
    case Resume(c) =>
    case Arrive(c) =>
  }

  lemma {:induction false} RunKeepsInvariant(cap: int, s: State, run: seq<Event>)
    requires Invariant(cap, s) && IsRun(cap, s, run)
    ensures Invariant(cap, After(cap, s, run))
    decreases |run|
  {
    if run != [] {
      StepKeepsInvariant(cap, s, run[0]);
      RunKeepsInvariant(cap, Apply(cap, s, run[0]), run[1..]);
    }
  }

  // ---- First come, first served ----

  lemma {:induction false} AfterNext(cap: int, s: State, run: seq<Event>)
    requires run != []
    ensures After(cap, s, run) == Apply(cap, After(cap, s, run[..|run| - 1]), run[|run| - 1])
    decreases |run|
  {
    if |run| > 1 {
      AfterNext(cap, Apply(cap, s, run[0]), run[1..]);
      assert run[..|run| - 1][1..] == run[1..][..|run| - 2];
    }
  }

  /** An arrival that finds no place free. */
  ghost predicate MustWait(cap: int, run: seq<Event>, i: nat)
    requires i < |run|
  {
    run[i].Arrive? && After(cap, INIT, run[..i]).active >= cap
  }

  ghost predicate AreCalls(waiting: seq<Event>, calls: seq<nat>) {
    |waiting| == |calls| && forall k :: 0 <= k < |calls| ==> waiting[k] == Arrive(calls[k])
  }

  /** The calls that ever queued are the arrivals that found no place free, in the order of their arrival. */
  lemma {:induction false} QueuedAsTheyArrive(cap: int, run: seq<Event>) returns (pos: seq<nat>, waiting: seq<Event>)
    ensures Selects(run, pos, waiting) && AreCalls(waiting, After(cap, INIT, run).queued)
    ensures forall i :: 0 <= i < |run| ==> (i in pos <==> MustWait(cap, run, i))
  {
    if run == [] {
      pos, waiting := [], [];
    } else {
      var n := |run| - 1;
      AfterNext(cap, INIT, run);
      hide After, Selects;
      pos, waiting := QueuedAsTheyArrive(cap, run[..n]);
      pos := SelectsNext(run, pos, waiting, MustWait(cap, run, n));
      waiting := waiting + if MustWait(cap, run, n) then [run[n]] else [];
      forall i | 0 <= i < n ensures MustWait(cap, run, i) <==> MustWait(cap, run[..n], i) {
        assert run[..n][..i] == run[..i];
      }
    }
  }

  /** Woken calls leave the queue from its front: first come, first served. */
  lemma WokenAsTheyArrive(cap: int, run: seq<Event>) returns (pos: seq<nat>, waiting: seq<Event>)
    requires IsRun(cap, INIT, run)
    ensures Selects(run, pos, waiting) && forall i :: 0 <= i < |run| ==> (i in pos <==> MustWait(cap, run, i))
    ensures
      var end := After(cap, INIT, run);
      AreCalls(waiting, end.wakes + end.waiting) && forall c :: c in end.woken ==> c in end.wakes
  {
    assert Invariant(cap, INIT);
    RunKeepsInvariant(cap, INIT, run);
    pos, waiting := QueuedAsTheyArrive(cap, run);
  }

  // ---- Progress ----

  predicate Internal(e: Event) {
    !e.Arrive?
  }

  ghost predicate AllInternal(run: seq<Event>) {
    forall i :: 0 <= i < |run| ==> Internal(run[i])
  }

  ghost predicate Stuck(s: State) {
    forall e :: Internal(e) ==> !Enabled(s, e)
  }

  /** Internal steps still owed: one to finish each running call, two for every other one. */
  function Owed(s: State): nat {
    |s.running| + 2 * |s.woken| + 2 * |s.waiting|
  }

  lemma InternalStepPays(cap: int, s: State, e: Event)
    requires Invariant(cap, s) && Internal(e) && Enabled(s, e)
    ensures Owed(Apply(cap, s, e)) == Owed(s) - 1
  {
    if e.Release? && s.waiting != [] {
      assert s.waiting[0] in s.waiting;
    }
  }

  /** With a positive cap, a state without an enabled internal step has nobody left to serve. */
  lemma StuckMeansDone(cap: int, s: State)
    requires Invariant(cap, s) && cap >= 1 && Stuck(s)
    ensures s.waiting == [] && s.woken == {} && s.running == {} && s.active == 0
  {
    forall c ensures c !in s.woken && c !in s.running {
      assert !Enabled(s, Resume(c)) && !Enabled(s, Release(c));
    }
    assert s.woken == {} && s.running == {};
  }

  /**
   * No deadlock, whatever the scheduling: internal steps from a reachable state number at most
   * `Owed`, and a run of them that cannot go on has taken exactly that many and served every call,
   * in queue order.
   */
  lemma {:induction false} EveryScheduleDrains(cap: int, s: State, run: seq<Event>)
    requires Invariant(cap, s) && IsRun(cap, s, run) && AllInternal(run)
    ensures |run| <= Owed(s)
    ensures cap >= 1 && Stuck(After(cap, s, run)) ==>
      var end := After(cap, s, run);
      |run| == Owed(s) && end.active == 0 && end.waiting == [] && end.woken == {} && end.running == {} && end.wakes == s.queued
    decreases |run|
  {
    if run == [] {
      if cap >= 1 && Stuck(s) {
        StuckMeansDone(cap, s);
      }
    } else {
      var s' := Apply(cap, s, run[0]);
      StepKeepsInvariant(cap, s, run[0]);
      InternalStepPays(cap, s, run[0]);
      forall i | 0 <= i < |run[1..]| ensures Internal(run[1..][i]) {
        assert run[1..][i] == run[i + 1];
      }
      EveryScheduleDrains(cap, s', run[1..]);
    }
  }

  /** A cap below one serves nobody: every state is stuck, with all arrivals in the queue. */
  lemma {:induction false} NoCapNoService(cap: int, s: State, run: seq<Event>)
    requires cap <= 0 && IsRun(cap, s, run)
    requires s.active == 0 && s.woken == {} && s.running == {}
    ensures
      var end := After(cap, s, run);
      end.active == 0 && Stuck(end) && |end.waiting| == |s.waiting| + |run|
    decreases |run|
  {
    if run != [] {
      assert run[0].Arrive?;
      NoCapNoService(cap, Apply(cap, s, run[0]), run[1..]);
    }
  }

  // ---- The cap ----

  /** Places that are taken or promised to a woken waiter. */
  function Committed(s: State): int {
    s.active + |s.woken|
  }

  function Limit(cap: int): int {
    if cap < 0 then 0 else cap
  }

  /** An arrival that slips in front of a woken waiter: a place is free, but all are committed. */
  predicate Barges(cap: int, s: State, e: Event) {
    e.Arrive? && s.active < cap <= Committed(s)
  }

  ghost predicate NobodyBarges(cap: int, s: State, run: seq<Event>)
    decreases |run|
  {
    run == [] || (!Barges(cap, s, run[0]) && NobodyBarges(cap, Apply(cap, s, run[0]), run[1..]))
  }

  /** In every state along the run, letting the woken waiters resume would stay within the cap. */
  ghost predicate CommittedWithinCap(cap: int, s: State, run: seq<Event>)
    decreases |run|
  {
    Committed(s) <= Limit(cap) && (run == [] || CommittedWithinCap(cap, Apply(cap, s, run[0]), run[1..]))
  }

  lemma StepKeepsCap(cap: int, s: State, e: Event)
    requires Invariant(cap, s) && Enabled(s, e) && Committed(s) <= Limit(cap)
    ensures Committed(Apply(cap, s, e)) <= Limit(cap) <==> !Barges(cap, s, e)
  {
    if e.Release? && s.waiting != [] {
      assert s.waiting[0] in s.waiting;
    }
  }

  /** Along a run the cap is kept, for running and woken calls together, exactly if no arrival barges. */
  lemma {:induction false} CapKeptIffNobodyBarges(cap: int, s: State, run: seq<Event>)
    requires Invariant(cap, s) && IsRun(cap, s, run) && Committed(s) <= Limit(cap)
    ensures CommittedWithinCap(cap, s, run) <==> NobodyBarges(cap, s, run)
    decreases |run|
  {
    if run != [] {
      var s' := Apply(cap, s, run[0]);
      StepKeepsInvariant(cap, s, run[0]);
      StepKeepsCap(cap, s, run[0]);
      if Committed(s') <= Limit(cap) {
        CapKeptIffNobodyBarges(cap, s', run[1..]);
      }
    }
  }

  /** The committed calls really can all be active at once. */
  lemma {:induction false} CommittedCanAllRun(cap: int, s: State) returns (run: seq<Event>)
    requires Invariant(cap, s)
    ensures IsRun(cap, s, run) && |run| == |s.woken| && After(cap, s, run).active == Committed(s)
    ensures AllInternal(run)
    decreases |s.woken|
  {
    if s.woken == {} {
      run := [];
    } else {
      var c :| c in s.woken;
      var s' := Apply(cap, s, Resume(c));
      StepKeepsInvariant(cap, s, Resume(c));
      var rest := CommittedCanAllRun(cap, s');
      run := [Resume(c)] + rest;
      assert run[1..] == rest;
    }
  }

  /** The calls already present can, on some schedule, put more than the cap into service. */
  ghost predicate CanOvershoot(cap: int, s: State) {
    exists more :: AllInternal(more) && IsRun(cap, s, more) && After(cap, s, more).active > Limit(cap)
  }

  lemma {:induction false} InternalStepsKeepCap(cap: int, s: State, run: seq<Event>)
    requires Invariant(cap, s) && Committed(s) <= Limit(cap) && IsRun(cap, s, run) && AllInternal(run)
    ensures After(cap, s, run).active <= Limit(cap)
    decreases |run|
  {
    if run != [] {
      assert Internal(run[0]);
      StepKeepsInvariant(cap, s, run[0]);
      StepKeepsCap(cap, s, run[0]);
      forall i | 0 <= i < |run[1..]| ensures Internal(run[1..][i]) {
        assert run[1..][i] == run[i + 1];
      }
      InternalStepsKeepCap(cap, Apply(cap, s, run[0]), run[1..]);
    }
  }

  /** The active calls can come to exceed the cap without a further arrival exactly if more than the cap are committed. */
  lemma OvershootIffOvercommitted(cap: int, s: State)
    requires Invariant(cap, s)
    ensures CanOvershoot(cap, s) <==> Committed(s) > Limit(cap)
  {
    if Committed(s) > Limit(cap) {
      var more := CommittedCanAllRun(cap, s);
    } else if CanOvershoot(cap, s) {
      var more :| AllInternal(more) && IsRun(cap, s, more) && After(cap, s, more).active > Limit(cap);
      InternalStepsKeepCap(cap, s, more);
    }
  }

  lemma {:induction false} CommittedAlongPrefixes(cap: int, s: State, run: seq<Event>)
    ensures CommittedWithinCap(cap, s, run) <==> forall k :: 0 <= k <= |run| ==> Committed(After(cap, s, run[..k])) <= Limit(cap)
    decreases |run|
  {
    assert run[..0] == [];
    if run != [] {
      var s' := Apply(cap, s, run[0]);
      CommittedAlongPrefixes(cap, s', run[1..]);
      forall k | 0 <= k < |run| ensures After(cap, s, run[..k + 1]) == After(cap, s', run[1..][..k]) {
        assert run[..k + 1][1..] == run[1..][..k];
      }
      if forall k :: 0 <= k <= |run| ==> Committed(After(cap, s, run[..k])) <= Limit(cap) {
        forall k | 0 <= k < |run| ensures Committed(After(cap, s', run[1..][..k])) <= Limit(cap) {
          assert Committed(After(cap, s, run[..k + 1])) <= Limit(cap);
        }
      } else {
        var k :| 0 <= k <= |run| && Committed(After(cap, s, run[..k])) > Limit(cap);
        if k > 0 {
          assert After(cap, s, run[..(k - 1) + 1]) == After(cap, s', run[1..][..k - 1]);
        }
      }
    }
  }

  lemma {:induction false} PrefixIsRun(cap: int, s: State, run: seq<Event>, k: nat)
    requires IsRun(cap, s, run) && k <= |run|
    ensures IsRun(cap, s, run[..k])
    decreases k
  {
    if k > 0 {
      PrefixIsRun(cap, Apply(cap, s, run[0]), run[1..], k - 1);
      assert run[..k][1..] == run[1..][..k - 1];
    }
  }

  /**
   * The cap on active calls: at some point of the run the calls then present could, without any
   * further arrival, come to exceed it, exactly if some arrival of the run barges.
   */
  lemma CapExceedableIffSomebodyBarges(cap: int, s: State, run: seq<Event>)
    requires Invariant(cap, s) && IsRun(cap, s, run) && Committed(s) <= Limit(cap)
    ensures (exists k :: 0 <= k <= |run| && CanOvershoot(cap, After(cap, s, run[..k]))) <==> !NobodyBarges(cap, s, run)
  {
    CapKeptIffNobodyBarges(cap, s, run);
    CommittedAlongPrefixes(cap, s, run);
    forall k | 0 <= k <= |run|
      ensures CanOvershoot(cap, After(cap, s, run[..k])) <==> Committed(After(cap, s, run[..k])) > Limit(cap)
    {
      PrefixIsRun(cap, s, run, k);
      RunKeepsInvariant(cap, s, run[..k]);
      OvershootIffOvercommitted(cap, After(cap, s, run[..k]));
    }
  }

  /** In every state along the run the number of active calls is within the cap. */
  ghost predicate ActiveWithinCap(cap: int, s: State, run: seq<Event>)
    decreases |run|
  {
    s.active <= Limit(cap) && (run == [] || ActiveWithinCap(cap, Apply(cap, s, run[0]), run[1..]))
  }

  lemma {:induction false} CommittedBoundsActive(cap: int, s: State, run: seq<Event>)
    requires CommittedWithinCap(cap, s, run)
    ensures ActiveWithinCap(cap, s, run)
    decreases |run|
  {
    if run != [] {
      CommittedBoundsActive(cap, Apply(cap, s, run[0]), run[1..]);
    }
  }

  lemma OneMore(cap: int, s: State, e: Event, s': State, rest: seq<Event>)
    requires Enabled(s, e) && s' == Apply(cap, s, e) && s.active <= Limit(cap)
    requires IsRun(cap, s', rest) && ActiveWithinCap(cap, s', rest)
    ensures IsRun(cap, s, [e] + rest) && ActiveWithinCap(cap, s, [e] + rest)
    ensures NobodyBarges(cap, s, [e] + rest) <==> !Barges(cap, s, e) && NobodyBarges(cap, s', rest)
  {
    assert ([e] + rest)[1..] == rest;
  }

  lemma Nothing(cap: int, s: State)
    requires s.active <= Limit(cap)
    ensures IsRun(cap, s, []) && ActiveWithinCap(cap, s, [])
  {
  }

  /** Barging alone need not overshoot: the barging call may end before the woken one resumes. */
  lemma BargingMayStayWithinCap()
    ensures
      var run := [Arrive(0), Arrive(1), Release(0)] + ([Arrive(2)] + ([Release(2)] + [Resume(1)]));
      IsRun(1, INIT, run) && !NobodyBarges(1, INIT, run) && ActiveWithinCap(1, INIT, run)
  {
    hide IsRun, NobodyBarges, ActiveWithinCap;
    var s1 := State(1, [], {}, {0}, [], []);
    var s2 := State(1, [1], {}, {0}, [1], []);
    var s3 := State(0, [], {1}, {}, [1], [1]);
    var s4 := State(1, [], {1}, {2}, [1], [1]);
    var s6 := State(1, [], {}, {1}, [1], [1]);
    var r5 := [Release(2)] + [Resume(1)];
    assert [Resume(1)] + [] == [Resume(1)];
    Nothing(1, s6);
    OneMore(1, s3, Resume(1), s6, []);
    OneMore(1, s4, Release(2), s3, [Resume(1)]);
    OneMore(1, s3, Arrive(2), s4, r5);
    OneMore(1, s2, Release(0), s3, [Arrive(2)] + r5);
    OneMore(1, s1, Arrive(1), s2, [Release(0)] + ([Arrive(2)] + r5));
    OneMore(1, INIT, Arrive(0), s1, [Arrive(1)] + ([Release(0)] + ([Arrive(2)] + r5)));
    assert [Arrive(0), Arrive(1), Release(0)] + ([Arrive(2)] + r5)
        == [Arrive(0)] + ([Arrive(1)] + ([Release(0)] + ([Arrive(2)] + r5)));
  }

  /** A barging arrival leads to more active calls than the cap allows. */
  lemma BargingOvershoots(cap: int, s: State, e: Event) returns (run: seq<Event>)
    requires Invariant(cap, s) && Enabled(s, e) && Barges(cap, s, e)
    ensures IsRun(cap, s, [e] + run) && After(cap, s, [e] + run).active > cap
  {
    StepKeepsInvariant(cap, s, e);
    run := CommittedCanAllRun(cap, Apply(cap, s, e));
    assert ([e] + run)[1..] == run;
  }

  /** Barging is possible: one place, one waiter, and an arrival between its wake-up and its resumption. */
  lemma BargingHappens()
    ensures
      var run := [Arrive(0), Arrive(1), Release(0), Arrive(2), Resume(1)];
      IsRun(1, INIT, run) && After(1, INIT, run).active == 2
  {
    var s1 := Apply(1, INIT, Arrive(0));
    var s2 := Apply(1, s1, Arrive(1));
    var s3 := Apply(1, s2, Release(0));
    var s4 := Apply(1, s3, Arrive(2));
    var s5 := Apply(1, s4, Resume(1));
    assert IsRun(1, s4, [Resume(1)]) && After(1, s4, [Resume(1)]) == s5;
    assert [Arrive(2), Resume(1)][1..] == [Resume(1)];
    assert [Release(0), Arrive(2), Resume(1)][1..] == [Arrive(2), Resume(1)];
    assert [Arrive(1), Release(0), Arrive(2), Resume(1)][1..] == [Release(0), Arrive(2), Resume(1)];
    assert [Arrive(0), Arrive(1), Release(0), Arrive(2), Resume(1)][1..] == [Arrive(1), Release(0), Arrive(2), Resume(1)];
  }

  /** The batch workload: all calls arrive before the first one finishes. */
  ghost predicate IsBatch(run: seq<Event>) {
    forall i, j :: 0 <= i < j < |run| && Internal(run[i]) ==> Internal(run[j])
  }

  lemma {:induction false} BatchNeverBarges(cap: int, s: State, run: seq<Event>)
    requires IsRun(cap, s, run) && IsBatch(run)
    requires (exists i :: 0 <= i < |run| && !Internal(run[i])) ==> s.woken == {}
    ensures NobodyBarges(cap, s, run)
    decreases |run|
  {
    if run != [] {
      var s' := Apply(cap, s, run[0]);
      forall i | 0 <= i < |run[1..]| && !Internal(run[1..][i]) ensures !Internal(run[0]) && s'.woken == {} {
        assert run[i + 1] == run[1..][i];
      }
      if !Internal(run[0]) {
        assert s.woken == {};
      }
      forall i, j | 0 <= i < j < |run[1..]| && Internal(run[1..][i]) ensures Internal(run[1..][j]) {
        assert run[1..][i] == run[i + 1] && run[1..][j] == run[j + 1];
      }
      BatchNeverBarges(cap, s', run[1..]);
    }
  }

  /** In every batch run from the start, the number of active calls never exceeds the cap. */
  lemma BatchStaysWithinCap(cap: int, run: seq<Event>)
    requires IsRun(cap, INIT, run) && IsBatch(run)
    ensures CommittedWithinCap(cap, INIT, run) && ActiveWithinCap(cap, INIT, run)
  {
    assert Invariant(cap, INIT);
    BatchNeverBarges(cap, INIT, run);
    CapKeptIffNobodyBarges(cap, INIT, run);
    CommittedBoundsActive(cap, INIT, run);
  }
}
