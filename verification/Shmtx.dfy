/**
 The shared-memory mutex of src/core/ngx_shmtx.c (the branch with atomic
 operations), as a step relation over any number of processes.

 A process performs one atomic access per step: a read of the lock word, a
 compare-and-set, a fetch-and-add on the waiter counter, a semaphore operation.
 Processes may die at any point, and the master then forces the lock open.
 */
module Shmtx {
  import opened Common

  /** The largest value a POSIX semaphore can hold; sem_post fails at it. */
  const SEM_VALUE_MAX: nat := 0x7fff_ffff

  /** `n <<= 1` on a 64-bit unsigned integer. */
  const WORD: nat := 0x1_0000_0000_0000_0000

  datatype Config = Config(ncpu: nat, spin: nat, semaphore: bool)

  /** Which of the four places in the code tries to take the lock word. */
  datatype Attempt =
    | Once              // ngx_shmtx_trylock
    | First             // the head of the retry loop
    | Spin(n: nat)      // the spinning loop, n pauses so far
    | Counted           // after the waiter counter was raised

  datatype Pc =
    | Idle
    | Look(at: Attempt)       // about to read the lock word
    | Swap(at: Attempt)       // saw zero, about to compare-and-set
    | Register                // about to raise the waiter counter
    | Asleep                  // in sem_wait
    | Yield                   // no semaphore: about to retry
    | Holding
    | ReadWait                // wakeup: about to read the waiter counter
    | SwapWait(seen: nat)     // wakeup: about to lower it
    | Post                    // wakeup: about to post the semaphore
    | Dead(held: bool)        // died; `held` while the lock word still names it

  /** `surplus` is a history variable: raises of the waiter counter that no
      process will ever sleep for, less posts that were thrown away. */
  datatype State = State(lock: int, wait: nat, tokens: nat, procs: map<int, Pc>, surplus: int)

  datatype Action =
    | CallLock(p: int)
    | CallTryLock(p: int)
    | Unlock(p: int)                // the compare-and-set of ngx_shmtx_unlock
    | ForceUnlock(p: int, dead: int)
    | Read(p: int)
    | Cas(p: int)
    | Raise(p: int)
    | Take(p: int)                  // sem_wait succeeds
    | WaitFails(p: int)             // sem_wait fails, and not by a signal
    | Retry(p: int)                 // after sched_yield
    | ReadCount(p: int)
    | Lower(p: int)
    | SemPost(p: int)
    | Die(p: int)

  // ---------------------------------------------------------------- the code

  function NextSpin(n: nat): nat { n * 2 % WORD }

  /** Where control goes when an attempt did not get the lock. */
  function AfterFailure(cfg: Config, at: Attempt): Pc {
    match at
    case Once => Idle
    case First => if cfg.ncpu > 1 && 1 < cfg.spin then Look(Spin(1)) else Park(cfg)
    case Spin(n) => if NextSpin(n) < cfg.spin then Look(Spin(NextSpin(n))) else Park(cfg)
    case Counted => Asleep
  }

  function Park(cfg: Config): Pc { if cfg.semaphore then Register else Yield }

  /** ngx_shmtx_wakeup starts with a test for the semaphore. */
  function StartWakeup(cfg: Config): Pc { if cfg.semaphore then ReadWait else Idle }

  predicate Enabled(mortal: set<Site>, s: State, a: Action) {
    a.p in s.procs &&
    var pc := s.procs[a.p];
    match a
    case CallLock(_) => pc == Idle
    case CallTryLock(_) => pc == Idle
    case Unlock(_) => pc == Idle || pc == Holding
    case ForceUnlock(_, d) => pc == Idle && d in s.procs && s.procs[d].Dead?
    case Read(_) => pc.Look?
    case Cas(_) => pc.Swap?
    case Raise(_) => pc == Register
    case Take(_) => pc == Asleep && s.tokens > 0
    case WaitFails(_) => pc == Asleep
    case Retry(_) => pc == Yield
    case ReadCount(_) => pc == ReadWait
    case Lower(_) => pc.SwapWait?
    case SemPost(_) => pc.Post?
    case Die(_) => !pc.Dead? && SiteOf(pc) in mortal
  }

  function Goto(s: State, p: int, pc: Pc): State { s.(procs := s.procs[p := pc]) }

  function Do(cfg: Config, mortal: set<Site>, s: State, a: Action): (s': State)
    requires Enabled(mortal, s, a)
  {
    var p := a.p;
    var pc := s.procs[p];
    match a
    case CallLock(_) => Goto(s, p, Look(First))
    case CallTryLock(_) => Goto(s, p, Look(Once))
    case Unlock(_) =>
      if s.lock == p then Goto(s, p, StartWakeup(cfg)).(lock := 0) else Goto(s, p, Idle)
    case ForceUnlock(_, d) =>
      if s.lock == d then Goto(Goto(s, d, Dead(false)), p, StartWakeup(cfg)).(lock := 0) else s
    case Read(_) =>
      Goto(s, p, if s.lock == 0 then Swap(pc.at) else AfterFailure(cfg, pc.at))
    case Cas(_) =>
      if s.lock == 0 then
        Goto(s, p, Holding).(lock := p, surplus := s.surplus + if pc.at == Counted then 1 else 0)
      else
        Goto(s, p, AfterFailure(cfg, pc.at))
    case Raise(_) => Goto(s, p, Look(Counted)).(wait := s.wait + 1)
    case Take(_) => Goto(s, p, Look(First)).(tokens := s.tokens - 1)
    case WaitFails(_) => Goto(s, p, Look(First)).(surplus := s.surplus + 1)
    case Retry(_) => Goto(s, p, Look(First))
    case ReadCount(_) => Goto(s, p, if s.wait == 0 then Idle else SwapWait(s.wait))
    case Lower(_) =>
      if s.wait == pc.seen && s.wait > 0 then Goto(s, p, Post).(wait := s.wait - 1)
      else Goto(s, p, ReadWait)
    case SemPost(_) =>
      if s.tokens < SEM_VALUE_MAX then Goto(s, p, Idle).(tokens := s.tokens + 1)
      else Goto(s, p, Idle).(surplus := s.surplus - 1)
    case Die(_) =>
      Goto(s, p, Dead(pc == Holding)).(
        surplus := s.surplus + (if Waiting(pc) then 1 else 0) - (if pc.Post? then 1 else 0))
  }

  /** The points in the code, for saying where a process may die. */
  datatype Site = Outside | AtOnce | AtFirst | AtSpin | AtCounted | AtRegister | AtSleep
                | AtYield | Inside | AtReadWait | AtSwapWait | AtPost

  function SiteOf(pc: Pc): Site
    requires !pc.Dead?
  {
    match pc
    case Idle => Outside
    case Look(at) => SiteOfAttempt(at)
    case Swap(at) => SiteOfAttempt(at)
    case Register => AtRegister
    case Asleep => AtSleep
    case Yield => AtYield
    case Holding => Inside
    case ReadWait => AtReadWait
    case SwapWait(_) => AtSwapWait
    case Post => AtPost
  }

  function SiteOfAttempt(at: Attempt): Site {
    match at
    case Once => AtOnce
    case First => AtFirst
    case Spin(_) => AtSpin
    case Counted => AtCounted
  }

  predicate Init(s: State) {
    && s.lock == 0 && s.wait == 0 && s.tokens == 0 && s.surplus == 0
    && (forall p :: p in s.procs ==> p > 0 && s.procs[p].Idle?)
    && |s.procs| <= SEM_VALUE_MAX
  }

  /** ngx_shmtx_create only makes a semaphore together with a spin of 2048. */
  predicate ValidConfig(cfg: Config) { cfg.semaphore ==> cfg.spin == 2048 }

  ghost predicate Next(cfg: Config, mortal: set<Site>, s: State, s': State) {
    exists a :: Enabled(mortal, s, a) && Do(cfg, mortal, s, a) == s'
  }

  ghost predicate IsRun(cfg: Config, mortal: set<Site>, run: seq<State>) {
    && |run| > 0
    && Init(run[0])
    && forall i :: 0 < i < |run| ==> Next(cfg, mortal, run[i - 1], run[i])
  }

  ghost predicate Reachable(cfg: Config, mortal: set<Site>, s: State) {
    exists run :: IsRun(cfg, mortal, run) && run[|run| - 1] == s
  }

  // -------------------------------------------------------- mutual exclusion

  /** `p` owns the mutex: it is in the critical section, or it died there. */
  predicate Owns(s: State, p: int) {
    p in s.procs && (s.procs[p].Holding? || (s.procs[p].Dead? && s.procs[p].held))
  }

  /** The lock word names exactly the owner, and is zero when there is none. */
  predicate MutualExclusion(s: State) {
    && (forall p :: p in s.procs ==> p > 0)
    && (forall p :: p in s.procs && Owns(s, p) ==> s.lock == p)
    && (s.lock != 0 ==> Owns(s, s.lock))
  }

  // ------------------------------------------------------------- accounting

  predicate Waiting(pc: Pc) {
    ((pc.Look? || pc.Swap?) && pc.at.Counted?) || pc.Asleep?
  }

  function Waiters(procs: map<int, Pc>): set<int> { set p | p in procs && Waiting(procs[p]) }

  function Posters(procs: map<int, Pc>): set<int> { set p | p in procs && procs[p].Post? }

  /** Every raise of the waiter counter is a count not yet taken back, a post in
      flight or a token, and is there for a waiter unless it is surplus. */
  predicate Accounting(s: State) {
    && s.wait + |Posters(s.procs)| + s.tokens == |Waiters(s.procs)| + s.surplus
    && s.tokens <= SEM_VALUE_MAX
    && |s.procs| <= SEM_VALUE_MAX
  }

  // --------------------------------------------------------- no lost wakeup

  predicate Wakes(pc: Pc) { pc.ReadWait? || pc.SwapWait? || pc.Post? }

  predicate TriesFirst(pc: Pc) { (pc.Look? || pc.Swap?) && pc.at.First? }

  /** A free mutex with a sleeper has something under way that will wake one. */
  predicate NoLostWakeup(s: State) {
    s.lock == 0 && (exists p :: p in s.procs && s.procs[p].Asleep?) ==>
      || s.tokens > 0
      || (exists q :: q in s.procs && Wakes(s.procs[q]))
      || (exists q :: q in s.procs && TriesFirst(s.procs[q]))
  }

  /** Dying at one of these points can strand a sleeper. */
  predicate Critical(site: Site) {
    site.AtFirst? || site.AtReadWait? || site.AtSwapWait? || site.AtPost?
  }

  predicate Safe(mortal: set<Site>) { forall site :: Critical(site) ==> site !in mortal }

  predicate Inv(s: State) { MutualExclusion(s) && Accounting(s) }

  lemma InitInv(s: State)
    requires Init(s)
    ensures Inv(s) && NoLostWakeup(s)
  {
    assert forall p :: p in s.procs ==> s.procs[p].Idle?;
    assert forall p :: p !in Waiters(s.procs) && p !in Posters(s.procs);
    assert Waiters(s.procs) == {} && Posters(s.procs) == {};
  }

  lemma CardinalityOne(a: set<int>, b: set<int>, p: int)
    requires forall x :: x != p ==> (x in a <==> x in b)
    ensures |b| == |a| - (if p in a then 1 else 0) + (if p in b then 1 else 0)
  {
    assert forall x :: x in a - {p} <==> x in b - {p};
    assert a - {p} == b - {p};
    assert a == (if p in a then (a - {p}) + {p} else a - {p});
    assert b == (if p in b then (b - {p}) + {p} else b - {p});
  }

  lemma CountOne(procs: map<int, Pc>, p: int, pc: Pc)
    requires p in procs
    ensures |Waiters(procs[p := pc])| ==
            |Waiters(procs)| - (if Waiting(procs[p]) then 1 else 0) + (if Waiting(pc) then 1 else 0)
    ensures |Posters(procs[p := pc])| ==
            |Posters(procs)| - (if procs[p].Post? then 1 else 0) + (if pc.Post? then 1 else 0)
    ensures |procs[p := pc]| == |procs|
  {
    var procs' := procs[p := pc];
    assert procs'.Keys == procs.Keys;
    assert forall x :: x in procs && x != p ==> procs'[x] == procs[x];
    CardinalityOne(Waiters(procs), Waiters(procs'), p);
    CardinalityOne(Posters(procs), Posters(procs'), p);
  }

  /** Every action but a forced unlock moves one process. */
  lemma StepMovesOne(cfg: Config, mortal: set<Site>, s: State, a: Action)
    requires Enabled(mortal, s, a)
    requires a.ForceUnlock? ==> s.lock != a.dead
    ensures var s' := Do(cfg, mortal, s, a);
            a.p in s'.procs && s'.procs == s.procs[a.p := s'.procs[a.p]]
  {
    var s' := Do(cfg, mortal, s, a);
    assert s'.procs.Keys == s.procs.Keys;
  }

  lemma StepAccounting(cfg: Config, mortal: set<Site>, s: State, a: Action)
    requires Inv(s) && Enabled(mortal, s, a)
    ensures Accounting(Do(cfg, mortal, s, a))
  {
    var s' := Do(cfg, mortal, s, a);
    if a.ForceUnlock? && s.lock == a.dead {
      CountOne(s.procs, a.dead, Dead(false));
      CountOne(s.procs[a.dead := Dead(false)], a.p, StartWakeup(cfg));
    } else {
      StepMovesOne(cfg, mortal, s, a);
      CountOne(s.procs, a.p, s'.procs[a.p]);
    }
  }

  lemma StepMutualExclusion(cfg: Config, mortal: set<Site>, s: State, a: Action)
    requires MutualExclusion(s) && Enabled(mortal, s, a)
    ensures MutualExclusion(Do(cfg, mortal, s, a))
  {
  }

  /** In every state of every run, with deaths anywhere, the lock word is
      nonzero exactly when the one process it names owns the mutex. */
  lemma {:induction false} MutualExclusionAlways(cfg: Config, mortal: set<Site>, run: seq<State>, i: nat)
    requires IsRun(cfg, mortal, run) && i < |run|
    ensures MutualExclusion(run[i]) && Accounting(run[i])
    ensures forall p, q :: Owns(run[i], p) && Owns(run[i], q) ==> p == q
    ensures run[i].lock != 0 <==> exists p :: Owns(run[i], p)
  {
    if i == 0 {
      InitInv(run[0]);
    } else {
      MutualExclusionAlways(cfg, mortal, run, i - 1);
      var s, s' := run[i - 1], run[i];
      var a :| Enabled(mortal, s, a) && Do(cfg, mortal, s, a) == s';
      StepAccounting(cfg, mortal, run[i - 1], a);
      StepMutualExclusion(cfg, mortal, run[i - 1], a);
    }
  }

  /** An unlock, or a forced unlock, that does not name the owner releases
      nobody and wakes nobody. */
  lemma UnlockByNonOwner(cfg: Config, mortal: set<Site>, s: State, a: Action)
    requires Inv(s) && Enabled(mortal, s, a)
    requires (a.Unlock? && !Owns(s, a.p)) || (a.ForceUnlock? && !Owns(s, a.dead))
    ensures Do(cfg, mortal, s, a) == s
  {
    assert s.procs[a.p := Idle] == s.procs;
  }

  /** Where nobody may die at a critical point, tokens are never thrown away
      below the semaphore's limit, so the surplus stays non-negative. */
  predicate WakeInv(cfg: Config, s: State) {
    && NoLostWakeup(s)
    && s.surplus >= 0
    && (!cfg.semaphore ==> forall p :: p in s.procs ==> !Waiting(s.procs[p]) && !s.procs[p].Register?)
  }

  lemma StepSurplus(cfg: Config, mortal: set<Site>, s: State, a: Action)
    requires Inv(s) && s.surplus >= 0 && Enabled(mortal, s, a) && Safe(mortal)
    ensures Do(cfg, mortal, s, a).surplus >= 0
  {
    if a.SemPost? && s.tokens == SEM_VALUE_MAX {
      assert Waiters(s.procs) <= s.procs.Keys;
      CardinalitySubset(Waiters(s.procs), s.procs.Keys);
      assert a.p in Posters(s.procs);
      assert |Posters(s.procs)| > 0;
    }
  }

  lemma {:induction false} CardinalitySubset(a: set<int>, b: set<int>)
    requires a <= b
    ensures |a| <= |b|
  {
    assert b == a + (b - a);
  }

  lemma Member(a: set<int>) returns (x: int)
    requires |a| > 0
    ensures x in a
  {
    if forall y :: y !in a {
      assert false;
    }
    x :| x in a;
  }

  /** The waker that finds a zero count leaves a token or a post behind for
      every process that is asleep. */
  lemma SleepersAreCovered(s: State, p: int)
    requires Accounting(s) && s.surplus >= 0 && s.wait == 0
    requires p in s.procs && s.procs[p].Asleep?
    ensures s.tokens > 0 || exists q :: q in s.procs && s.procs[q].Post?
  {
    assert p in Waiters(s.procs);
    if s.tokens == 0 {
      var q := Member(Posters(s.procs));
    }
  }

  lemma StepNoLostWakeup(cfg: Config, mortal: set<Site>, s: State, a: Action)
    requires Inv(s) && WakeInv(cfg, s) && Enabled(mortal, s, a) && Safe(mortal)
    ensures NoLostWakeup(Do(cfg, mortal, s, a))
  {
    var s' := Do(cfg, mortal, s, a);
    if s'.lock == 0 && s'.tokens == 0 && exists p :: p in s'.procs && s'.procs[p].Asleep? {
      var p :| p in s'.procs && s'.procs[p].Asleep?;
      if s.lock != 0 {
        assert s'.procs[a.p].ReadWait?;
      } else {
        assert s.procs[p].Asleep?;
        if s.tokens > 0 {
          assert TriesFirst(s'.procs[a.p]);
        } else {
          StillUnderWay(cfg, mortal, s, a, p);
        }
      }
    }
  }

  lemma CriticalSites(pc: Pc)
    requires !pc.Dead?
    ensures Critical(SiteOf(pc)) <==> Wakes(pc) || TriesFirst(pc)
  {
    match pc
    case Look(at) => assert SiteOf(pc) == SiteOfAttempt(at);
    case Swap(at) => assert SiteOf(pc) == SiteOfAttempt(at);
    case _ =>
  }

  lemma StillUnderWay(cfg: Config, mortal: set<Site>, s: State, a: Action, p: int)
    requires Inv(s) && WakeInv(cfg, s) && Enabled(mortal, s, a) && Safe(mortal)
    requires s.lock == 0 && Do(cfg, mortal, s, a).lock == 0
    requires s.tokens == 0 && Do(cfg, mortal, s, a).tokens == 0
    requires p in s.procs && s.procs[p].Asleep?
    ensures var s' := Do(cfg, mortal, s, a);
            exists q :: q in s'.procs && (Wakes(s'.procs[q]) || TriesFirst(s'.procs[q]))
  {
    var s' := Do(cfg, mortal, s, a);
    var q :| q in s.procs && (Wakes(s.procs[q]) || TriesFirst(s.procs[q]));
    if q != a.p {
      assert s'.procs[q] == s.procs[q];
    } else if a.ReadCount? && s.wait == 0 {
      SleepersAreCovered(s, p);
      var r :| r in s.procs && s.procs[r].Post?;
      assert s'.procs[r] == s.procs[r];
    } else {
      CriticalSites(s.procs[q]);
      assert s'.procs[q] == Swap(First) || Wakes(s'.procs[q]);
    }
  }

  lemma StepWakeInv(cfg: Config, mortal: set<Site>, s: State, a: Action)
    requires Inv(s) && WakeInv(cfg, s) && Enabled(mortal, s, a) && Safe(mortal)
    ensures WakeInv(cfg, Do(cfg, mortal, s, a))
  {
    StepNoLostWakeup(cfg, mortal, s, a);
    StepSurplus(cfg, mortal, s, a);
  }

  lemma {:induction false} NoLostWakeupAlways(cfg: Config, mortal: set<Site>, run: seq<State>, i: nat)
    requires IsRun(cfg, mortal, run) && i < |run| && Safe(mortal)
    ensures WakeInv(cfg, run[i])
  {
    if i == 0 {
      InitInv(run[0]);
    } else {
      NoLostWakeupAlways(cfg, mortal, run, i - 1);
      MutualExclusionAlways(cfg, mortal, run, i - 1);
      var s, s' := run[i - 1], run[i];
      var a :| Enabled(mortal, s, a) && Do(cfg, mortal, s, a) == s';
      StepWakeInv(cfg, mortal, s, a);
    }
  }

  // ------------------------------------------------------ where calls end

  /** In ngx_shmtx_trylock. */
  predicate Tries(pc: Pc) { pc == Look(Once) || pc == Swap(Once) }

  /** In ngx_shmtx_lock. */
  predicate Locks(pc: Pc) {
    ((pc.Look? || pc.Swap?) && !pc.at.Once?) || pc.Register? || pc.Asleep? || pc.Yield?
  }

  /** A call of either leads into it. */
  lemma CallStep(cfg: Config, mortal: set<Site>, s: State, p: int)
    requires p in s.procs && s.procs[p] == Idle
    ensures Enabled(mortal, s, CallTryLock(p)) && Enabled(mortal, s, CallLock(p))
    ensures Tries(Do(cfg, mortal, s, CallTryLock(p)).procs[p]) && Locks(Do(cfg, mortal, s, CallLock(p)).procs[p])
  {
  }

  /** A step of a process in trylock: it returns with the lock exactly if the
      compare-and-set finds zero, without it only if somebody had the lock, and it
      touches neither the waiter counter nor the semaphore. */
  lemma TryStep(cfg: Config, mortal: set<Site>, s: State, a: Action)
    requires Inv(s) && Enabled(mortal, s, a) && Tries(s.procs[a.p])
    ensures var s', pc := Do(cfg, mortal, s, a), s.procs[a.p];
            && s'.wait == s.wait && s'.tokens == s.tokens && a.p in s'.procs
            && var pc' := s'.procs[a.p];
            && (pc' == Swap(Once) || pc' == Idle || pc' == Holding || pc' == Dead(false))
            && (pc' == Swap(Once) <==> a.Read? && s.lock == 0)
            && (pc' == Holding <==> a.Cas? && s.lock == 0)
            && (pc' == Holding ==> s'.lock == a.p) && (pc' != Holding ==> s'.lock == s.lock)
            && (pc' == Idle ==> s.lock != 0)
  {
  }

  /** A step of a process in lock: it returns only with the lock, and it stops spinning only
      where it may not spin, or the pauses have come to the limit. */
  lemma LockStep(cfg: Config, mortal: set<Site>, s: State, a: Action)
    requires Enabled(mortal, s, a) && Locks(s.procs[a.p])
    ensures var s' := Do(cfg, mortal, s, a);
            && a.p in s'.procs
            && (Locks(s'.procs[a.p]) || s'.procs[a.p] == Holding || s'.procs[a.p] == Dead(false))
            && (s'.procs[a.p] == Holding <==> a.Cas? && s.lock == 0)
            && (s'.procs[a.p].Register? || s'.procs[a.p].Yield? ==>
                  cfg.ncpu <= 1 || cfg.spin <= 1 || (s.procs[a.p].at.Spin? && s.procs[a.p].at.n * 2 % WORD >= cfg.spin))
  {
  }

  lemma OthersStay(cfg: Config, mortal: set<Site>, s: State, a: Action, p: int)
    requires Enabled(mortal, s, a) && p in s.procs && p != a.p && !s.procs[p].Dead?
    ensures p in Do(cfg, mortal, s, a).procs && Do(cfg, mortal, s, a).procs[p] == s.procs[p]
  {
  }

  /** In every run: from the call of trylock on, a process is at its two places and, after at
      most one step at each, has the lock, has returned without it, or is dead.  It never
      registers, sleeps or yields. */
  lemma {:induction false} TryLockReturns(cfg: Config, mortal: set<Site>, run: seq<State>, p: int, i: nat, j: nat)
    requires IsRun(cfg, mortal, run) && i <= j < |run| && p in run[i].procs && Tries(run[i].procs[p])
    requires forall k :: i <= k < j ==> p in run[k].procs && Tries(run[k].procs[p])
    ensures p in run[j].procs
    ensures var pc := run[j].procs[p]; Tries(pc) || pc == Idle || pc == Holding || pc == Dead(false)
    ensures forall k :: i <= k < j && run[k].procs[p] == Swap(Once) ==> run[j].procs[p] != Look(Once)
    decreases j
  {
    hide Do, Enabled, Inv;
    if i < j {
      TryLockReturns(cfg, mortal, run, p, i, j - 1);
      MutualExclusionAlways(cfg, mortal, run, j - 1);
      InvOf(run[j - 1]);
      var a := ActionAt(cfg, mortal, run, j);
      if a.p == p {
        TryStep(cfg, mortal, run[j - 1], a);
      } else {
        OthersStay(cfg, mortal, run[j - 1], a, p);
      }
    }
  }

  lemma ActionAt(cfg: Config, mortal: set<Site>, run: seq<State>, i: nat) returns (a: Action)
    requires IsRun(cfg, mortal, run) && 0 < i < |run|
    ensures Enabled(mortal, run[i - 1], a) && Do(cfg, mortal, run[i - 1], a) == run[i]
  {
    var s, s' := run[i - 1], run[i];
    a :| Enabled(mortal, s, a) && Do(cfg, mortal, s, a) == s';
  }

  lemma InvOf(s: State)
    requires MutualExclusion(s) && Accounting(s)
    ensures Inv(s)
  {
  }

  /** In every run: a process that called lock is in it until it has the lock or is dead. */
  lemma {:induction false} LockReturnsHolding(cfg: Config, mortal: set<Site>, run: seq<State>, p: int, i: nat, j: nat)
    requires IsRun(cfg, mortal, run) && i <= j < |run| && p in run[i].procs && Locks(run[i].procs[p])
    requires forall k :: i <= k < j ==> p in run[k].procs && Locks(run[k].procs[p])
    ensures p in run[j].procs
    ensures var pc := run[j].procs[p]; Locks(pc) || pc == Holding || pc == Dead(false)
    decreases j
  {
    hide Do, Enabled;
    if i < j {
      LockReturnsHolding(cfg, mortal, run, p, i, j - 1);
      var a := ActionAt(cfg, mortal, run, j);
      if a.p == p {
        LockStep(cfg, mortal, run[j - 1], a);
      } else {
        OthersStay(cfg, mortal, run[j - 1], a, p);
      }
    }
  }

  /** Spinning is for more than one processor, with pauses that double and stay below the
      limit.  With a limit above half the word they double to zero, and spinning never ends.
      Only with a semaphore does a process wait for it, and only without one does it
      yield. */
  ghost predicate Disciplined(cfg: Config, pc: Pc) {
    && ((pc.Look? || pc.Swap?) && pc.at.Spin? ==>
          && cfg.ncpu > 1 && pc.at.n < cfg.spin
          && if pc.at.n == 0 then cfg.spin > WORD / 2 else exists k: nat :: pc.at.n == Pow2(k))
    && (Waiting(pc) || pc.Register? || Wakes(pc) ==> cfg.semaphore)
    && (pc.Yield? ==> !cfg.semaphore)
  }

  lemma NextIsDouble(cfg: Config, n: nat)
    requires n < cfg.spin <= WORD && (n > 0 ==> exists k: nat :: n == Pow2(k)) && (n == 0 ==> cfg.spin > WORD / 2)
    ensures NextSpin(n) == 0 ==> cfg.spin > WORD / 2
    ensures NextSpin(n) > 0 ==> exists k: nat :: NextSpin(n) == Pow2(k)
  {
    if n > 0 {
      var k: nat :| n == Pow2(k);
      assert Pow2(k + 1) == 2 * n;
      Doubled(n, k);
    }
  }

  /** A power of two below the word is half of it or doubles below it. */
  lemma Doubled(n: nat, k: nat)
    requires n == Pow2(k) < WORD
    ensures 2 * n <= WORD
  {
    if k >= 64 {
      PowGrows(64, k);
      WordIsPow2();
    } else {
      PowGrows(k, 63);
      WordIsPow2();
    }
  }

  lemma WordIsPow2()
    ensures Pow2(64) == WORD && Pow2(63) == WORD / 2
  {
    assert Pow2(8) == 0x100;
    assert Pow2(16) == 0x1_0000;
    assert Pow2(24) == 0x100_0000;
    assert Pow2(32) == 0x1_0000_0000;
    assert Pow2(40) == 0x100_0000_0000;
    assert Pow2(48) == 0x1_0000_0000_0000;
    assert Pow2(56) == 0x100_0000_0000_0000;
  }

  lemma StepDisciplined(cfg: Config, mortal: set<Site>, s: State, a: Action)
    requires Enabled(mortal, s, a) && cfg.spin < WORD && forall p :: p in s.procs ==> Disciplined(cfg, s.procs[p])
    ensures forall p :: p in Do(cfg, mortal, s, a).procs ==> Disciplined(cfg, Do(cfg, mortal, s, a).procs[p])
  {
    var pc, s' := s.procs[a.p], Do(cfg, mortal, s, a);
    assert Pow2(0) == 1;
    if (pc.Look? || pc.Swap?) && pc.at.Spin? {
      NextIsDouble(cfg, pc.at.n);
    }
    assert Disciplined(cfg, s'.procs[a.p]);
    hide Disciplined;
    forall p | p in s'.procs && p != a.p ensures Disciplined(cfg, s'.procs[p]) {
      if s.procs[p].Dead? {
        DeadIsDisciplined(cfg, s'.procs[p]);
      }
    }
  }

  lemma DeadIsDisciplined(cfg: Config, pc: Pc)
    ensures pc.Dead? ==> Disciplined(cfg, pc)
  {
  }

  lemma {:induction false} DisciplinedAlways(cfg: Config, mortal: set<Site>, run: seq<State>, i: nat)
    requires IsRun(cfg, mortal, run) && i < |run| && cfg.spin < WORD
    ensures forall p :: p in run[i].procs ==> Disciplined(cfg, run[i].procs[p])
  {
    hide Do, Enabled;
    if i > 0 {
      DisciplinedAlways(cfg, mortal, run, i - 1);
      var a := ActionAt(cfg, mortal, run, i);
      StepDisciplined(cfg, mortal, run[i - 1], a);
    }
  }

  // -------------------------------------------------- calls nobody disturbs

  /** What a process does on its own, one action after the other. */
  function Alone(cfg: Config, mortal: set<Site>, s: State, acts: seq<Action>): (s': State)
    decreases |acts|
  {
    if acts == [] || !Enabled(mortal, s, acts[0]) then s
    else Alone(cfg, mortal, Do(cfg, mortal, s, acts[0]), acts[1..])
  }

  lemma AloneTwo(cfg: Config, mortal: set<Site>, s: State, a: Action, acts: seq<Action>)
    requires Enabled(mortal, s, a)
    ensures Alone(cfg, mortal, s, [a] + acts) == Alone(cfg, mortal, Do(cfg, mortal, s, a), acts)
  {
    assert ([a] + acts)[1..] == acts;
  }

  lemma GotoTwice(s: State, p: int, x: Pc, y: Pc)
    requires p in s.procs
    ensures s.procs[p := x][p := y] == s.procs[p := y]
  {
  }

  /** Either call takes a free lock with one read and one compare-and-set. */
  lemma FreeLockIsTaken(cfg: Config, mortal: set<Site>, s: State, p: int, call: Action)
    requires p in s.procs && s.procs[p] == Idle && s.lock == 0 && (call == CallLock(p) || call == CallTryLock(p))
    ensures Alone(cfg, mortal, s, [call] + ([Read(p)] + ([Cas(p)] + []))) == Goto(s, p, Holding).(lock := p)
  {
    hide Alone;
    AloneTwo(cfg, mortal, s, call, [Read(p)] + ([Cas(p)] + []));
    var at := if call == CallLock(p) then First else Once;
    var s1, s2 := Goto(s, p, Look(at)), Goto(s, p, Swap(at));
    assert Do(cfg, mortal, s, call) == s1;
    AloneTwo(cfg, mortal, s1, Read(p), [Cas(p)] + []);
    GotoTwice(s, p, Look(at), Swap(at));
    assert Do(cfg, mortal, s1, Read(p)) == s2;
    AloneTwo(cfg, mortal, s2, Cas(p), []);
    GotoTwice(s, p, Swap(at), Holding);
    AloneNone(cfg, mortal, Do(cfg, mortal, s2, Cas(p)));
  }

  lemma AloneNone(cfg: Config, mortal: set<Site>, s: State)
    ensures Alone(cfg, mortal, s, []) == s
  {
  }

  /** An unlock by the owner frees the lock; the wakeup that follows is the steps below. */
  lemma UnlockFrees(cfg: Config, mortal: set<Site>, s: State, p: int)
    requires p in s.procs && s.procs[p] == Holding && s.lock == p
    ensures Enabled(mortal, s, Unlock(p))
    ensures Do(cfg, mortal, s, Unlock(p)) == Goto(s, p, if cfg.semaphore then ReadWait else Idle).(lock := 0)
  {
  }

  /** A wakeup takes one count for one token, if there is one, and the semaphore is not full. */
  lemma WakesOne(cfg: Config, mortal: set<Site>, s: State, p: int)
    requires p in s.procs && s.procs[p] == ReadWait
    ensures Alone(cfg, mortal, s, [ReadCount(p)] + ([Lower(p)] + ([SemPost(p)] + []))) ==
            var free := Goto(s, p, Idle);
            if s.wait == 0 then free
            else if s.tokens < SEM_VALUE_MAX then free.(wait := s.wait - 1, tokens := s.tokens + 1)
            else free.(wait := s.wait - 1, surplus := s.surplus - 1)
  {
    hide Alone;
    AloneTwo(cfg, mortal, s, ReadCount(p), [Lower(p)] + ([SemPost(p)] + []));
    if s.wait == 0 {
      NotEnabled(cfg, mortal, Goto(s, p, Idle), Lower(p), [SemPost(p)] + []);
    } else {
      var s1, s2 := Goto(s, p, SwapWait(s.wait)), Goto(s, p, Post).(wait := s.wait - 1);
      assert Do(cfg, mortal, s, ReadCount(p)) == s1;
      AloneTwo(cfg, mortal, s1, Lower(p), [SemPost(p)] + []);
      GotoTwice(s, p, SwapWait(s.wait), Post);
      assert Do(cfg, mortal, s1, Lower(p)) == s2;
      AloneTwo(cfg, mortal, s2, SemPost(p), []);
      GotoTwice(s, p, Post, Idle);
      AloneNone(cfg, mortal, Do(cfg, mortal, s2, SemPost(p)));
    }
  }

  lemma NotEnabled(cfg: Config, mortal: set<Site>, s: State, a: Action, acts: seq<Action>)
    requires !Enabled(mortal, s, a)
    ensures Alone(cfg, mortal, s, [a] + acts) == s
  {
  }

  /** A live process is never without a step; only a sleeper waits for the semaphore. */
  lemma NeverStuck(mortal: set<Site>, s: State, p: int)
    requires p in s.procs && !s.procs[p].Dead? && (s.procs[p] == Asleep ==> s.tokens > 0)
    ensures exists a: Action :: a.p == p && !a.Die? && !a.WaitFails? && Enabled(mortal, s, a)
  {
    var pc := s.procs[p];
    var a := if pc == Idle then CallLock(p) else if pc.Look? then Read(p) else if pc.Swap? then Cas(p)
             else if pc == Register then Raise(p) else if pc == Asleep then Take(p) else if pc == Yield then Retry(p)
             else if pc == Holding then Unlock(p) else if pc == ReadWait then ReadCount(p)
             else if pc.SwapWait? then Lower(p) else SemPost(p);
    assert Enabled(mortal, s, a);
  }

  // ------------------------------------------- the condition is also necessary

  lemma Extend(cfg: Config, mortal: set<Site>, s: State, a: Action)
    requires Reachable(cfg, mortal, s) && Enabled(mortal, s, a)
    ensures Reachable(cfg, mortal, Do(cfg, mortal, s, a))
  {
    var run :| IsRun(cfg, mortal, run) && run[|run| - 1] == s;
    var s' := Do(cfg, mortal, s, a);
    var run' := run + [s'];
    assert Next(cfg, mortal, s, s');
    forall i | 0 < i < |run'| ensures Next(cfg, mortal, run'[i - 1], run'[i]) {
      if i < |run| {
        assert Next(cfg, mortal, run[i - 1], run[i]);
      }
    }
    assert IsRun(cfg, mortal, run') && run'[|run'| - 1] == s';
  }

  /** While the lock is held, a spinning process ends up at `Register`. */
  lemma {:induction false} SpinOut(cfg: Config, mortal: set<Site>, s: State, p: int, n: nat)
    requires Reachable(cfg, mortal, s) && cfg.semaphore && cfg.spin == 2048 && s.lock != 0
    requires p in s.procs && s.procs[p] == Look(Spin(n)) && 0 < n < 2048
    ensures Reachable(cfg, mortal, Goto(s, p, Register))
    decreases 2048 - n
  {
    Extend(cfg, mortal, s, Read(p));
    var s' := Do(cfg, mortal, s, Read(p));
    if n * 2 < 2048 {
      SpinOut(cfg, mortal, s', p, n * 2);
      assert Goto(s', p, Register) == Goto(s, p, Register);
    }
  }

  /** While the lock is held, a process can call lock and fall asleep. */
  lemma FallAsleep(cfg: Config, mortal: set<Site>, s: State, p: int)
    requires Reachable(cfg, mortal, s) && cfg.semaphore && ValidConfig(cfg) && s.lock != 0
    requires p in s.procs && s.procs[p] == Idle
    ensures Reachable(cfg, mortal, Goto(s, p, Asleep).(wait := s.wait + 1))
  {
    var s0 := Goto(s, p, Look(First));
    Extend(cfg, mortal, s, CallLock(p));
    Extend(cfg, mortal, s0, Read(p));
    var s1 := Goto(s, p, Register);
    if cfg.ncpu > 1 {
      var s' := Do(cfg, mortal, s0, Read(p));
      SpinOut(cfg, mortal, s', p, 1);
      assert Goto(s', p, Register) == s1;
    } else {
      assert Do(cfg, mortal, s0, Read(p)) == s1;
    }
    Extend(cfg, mortal, s1, Raise(p));
    var s2 := Goto(s, p, Look(Counted)).(wait := s.wait + 1);
    assert Do(cfg, mortal, s1, Raise(p)) == s2;
    Extend(cfg, mortal, s2, Read(p));
    assert Do(cfg, mortal, s2, Read(p)) == Goto(s, p, Asleep).(wait := s.wait + 1);
  }

  /** Three processes with pids 1, 2 and 3. */
  function Three(lock: int, wait: nat, tokens: nat, a: Pc, b: Pc, c: Pc): State {
    State(lock, wait, tokens, map[1 := a, 2 := b, 3 := c], 0)
  }

  lemma MapFirst(a: Pc, b: Pc, c: Pc, x: Pc)
    ensures map[1 := a, 2 := b, 3 := c][1 := x] == map[1 := x, 2 := b, 3 := c]
  {
  }

  lemma MapSecond(a: Pc, b: Pc, c: Pc, x: Pc)
    ensures map[1 := a, 2 := b, 3 := c][2 := x] == map[1 := a, 2 := x, 3 := c]
  {
  }

  lemma MapThird(a: Pc, b: Pc, c: Pc, x: Pc)
    ensures map[1 := a, 2 := b, 3 := c][3 := x] == map[1 := a, 2 := b, 3 := x]
  {
  }

  lemma ThreeGoto(s: State, a: Pc, b: Pc, c: Pc, x: Pc)
    requires s.procs == map[1 := a, 2 := b, 3 := c]
    ensures Goto(s, 1, x) == s.(procs := map[1 := x, 2 := b, 3 := c])
    ensures Goto(s, 2, x) == s.(procs := map[1 := a, 2 := x, 3 := c])
    ensures Goto(s, 3, x) == s.(procs := map[1 := a, 2 := b, 3 := x])
  {
    MapFirst(a, b, c, x);
    MapSecond(a, b, c, x);
    MapThird(a, b, c, x);
  }

  lemma Move(cfg: Config, mortal: set<Site>, s: State, act: Action, s': State)
    requires Reachable(cfg, mortal, s) && Enabled(mortal, s, act) && Do(cfg, mortal, s, act) == s'
    ensures Reachable(cfg, mortal, s')
  {
    Extend(cfg, mortal, s, act);
  }

  lemma OneHolds(cfg: Config, mortal: set<Site>)
    ensures Reachable(cfg, mortal, Three(1, 0, 0, Holding, Idle, Idle))
  {
    var s0 := Three(0, 0, 0, Idle, Idle, Idle);
    assert IsRun(cfg, mortal, [s0]) && [s0][|[s0]| - 1] == s0;
    ThreeGoto(s0, Idle, Idle, Idle, Look(First));
    var s1 := Three(0, 0, 0, Look(First), Idle, Idle);
    Move(cfg, mortal, s0, CallLock(1), s1);
    ThreeGoto(s1, Look(First), Idle, Idle, Swap(First));
    var s2 := Three(0, 0, 0, Swap(First), Idle, Idle);
    Move(cfg, mortal, s1, Read(1), s2);
    ThreeGoto(s2, Swap(First), Idle, Idle, Holding);
    Move(cfg, mortal, s2, Cas(1), Three(1, 0, 0, Holding, Idle, Idle));
  }

  /** Process 1 holds the mutex while 2 and 3 sleep. */
  lemma TwoSleepers(cfg: Config, mortal: set<Site>)
    requires cfg.semaphore && ValidConfig(cfg)
    ensures Reachable(cfg, mortal, Three(1, 2, 0, Holding, Asleep, Asleep))
  {
    OneHolds(cfg, mortal);
    var s3 := Three(1, 0, 0, Holding, Idle, Idle);
    FallAsleep(cfg, mortal, s3, 2);
    ThreeGoto(s3, Holding, Idle, Idle, Asleep);
    var s4 := Three(1, 1, 0, Holding, Asleep, Idle);
    FallAsleep(cfg, mortal, s4, 3);
    ThreeGoto(s4, Holding, Asleep, Idle, Asleep);
  }

  /** Process 1 releases the mutex: before it reads the counter, before it
      lowers it, before it posts, and after process 2 has taken the token. */
  lemma Release(cfg: Config, mortal: set<Site>)
    requires cfg.semaphore && ValidConfig(cfg)
    ensures Reachable(cfg, mortal, Three(0, 2, 0, ReadWait, Asleep, Asleep))
    ensures Reachable(cfg, mortal, Three(0, 2, 0, SwapWait(2), Asleep, Asleep))
    ensures Reachable(cfg, mortal, Three(0, 1, 0, Post, Asleep, Asleep))
    ensures Reachable(cfg, mortal, Three(0, 1, 1, Idle, Asleep, Asleep))
  {
    TwoSleepers(cfg, mortal);
    var s0 := Three(1, 2, 0, Holding, Asleep, Asleep);
    var s1 := Three(0, 2, 0, ReadWait, Asleep, Asleep);
    ThreeGoto(s0, Holding, Asleep, Asleep, ReadWait);
    Move(cfg, mortal, s0, Unlock(1), s1);
    var s2 := Three(0, 2, 0, SwapWait(2), Asleep, Asleep);
    ThreeGoto(s1, ReadWait, Asleep, Asleep, SwapWait(2));
    Move(cfg, mortal, s1, ReadCount(1), s2);
    var s3 := Three(0, 1, 0, Post, Asleep, Asleep);
    ThreeGoto(s2, SwapWait(2), Asleep, Asleep, Post);
    Move(cfg, mortal, s2, Lower(1), s3);
    ThreeGoto(s3, Post, Asleep, Asleep, Idle);
    Move(cfg, mortal, s3, SemPost(1), Three(0, 1, 1, Idle, Asleep, Asleep));
  }

  lemma Woken(cfg: Config, mortal: set<Site>)
    requires cfg.semaphore && ValidConfig(cfg)
    ensures Reachable(cfg, mortal, Three(0, 1, 0, Idle, Look(First), Asleep))
  {
    hide Reachable;
    Release(cfg, mortal);
    var s0 := Three(0, 1, 1, Idle, Asleep, Asleep);
    ThreeGoto(s0, Idle, Asleep, Asleep, Look(First));
    Move(cfg, mortal, s0, Take(2), Three(0, 1, 0, Idle, Look(First), Asleep));
  }

  lemma Critically(cfg: Config, mortal: set<Site>, site: Site) returns (s: State, p: int)
    requires cfg.semaphore && ValidConfig(cfg) && Critical(site)
    ensures Reachable(cfg, mortal, s) && s.lock == 0 && s.tokens == 0
    ensures p in s.procs && !s.procs[p].Dead? && SiteOf(s.procs[p]) == site
    ensures 3 in s.procs && s.procs[3].Asleep? && p != 3
    ensures forall q :: q in s.procs && q != p ==> s.procs[q].Asleep? || s.procs[q].Idle?
  {
    hide Reachable;
    Release(cfg, mortal);
    Woken(cfg, mortal);
    match site
    case AtReadWait => s, p := Three(0, 2, 0, ReadWait, Asleep, Asleep), 1;
    case AtSwapWait => s, p := Three(0, 2, 0, SwapWait(2), Asleep, Asleep), 1;
    case AtPost => s, p := Three(0, 1, 0, Post, Asleep, Asleep), 1;
    case AtFirst => s, p := Three(0, 1, 0, Idle, Look(First), Asleep), 2;
  }

  /** A death at a critical point can leave a process asleep on a free mutex
      with no token, no waker and no other candidate. */
  lemma DeathStrandsSleeper(cfg: Config, mortal: set<Site>, site: Site) returns (s: State)
    requires cfg.semaphore && ValidConfig(cfg) && Critical(site) && site in mortal
    ensures Reachable(cfg, mortal, s) && !NoLostWakeup(s)
  {
    var s0, p := Critically(cfg, mortal, site);
    Extend(cfg, mortal, s0, Die(p));
    s := Do(cfg, mortal, s0, Die(p));
    assert s.procs[3].Asleep?;
    assert s.procs[p].Dead?;
    forall q | q in s.procs ensures !Wakes(s.procs[q]) && !TriesFirst(s.procs[q]) {
      assert q == p || s.procs[q] == s0.procs[q];
    }
  }

  /** No wakeup is ever lost, in any state of any run, exactly when no process
      dies while it wakes another or makes its first attempt after waking. */
  lemma NoLostWakeupIffSafe(cfg: Config, mortal: set<Site>)
    requires ValidConfig(cfg) && cfg.semaphore
    ensures (forall s :: Reachable(cfg, mortal, s) ==> NoLostWakeup(s)) <==> Safe(mortal)
  {
    if Safe(mortal) {
      forall s | Reachable(cfg, mortal, s) ensures NoLostWakeup(s) {
        var run :| IsRun(cfg, mortal, run) && run[|run| - 1] == s;
        NoLostWakeupAlways(cfg, mortal, run, |run| - 1);
      }
    } else {
      var site :| Critical(site) && site in mortal;
      var s := DeathStrandsSleeper(cfg, mortal, site);
    }
  }
}
