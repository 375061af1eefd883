/**
 * The sequential fragments of the synchronization wrappers (utils/src/mutex.cpp):
 * how each wrapper turns the return code of a pthread or semaphore call into
 * success, a fault (a thrown Exception) or a printed warning; the retry
 * loops around EINTR and EBUSY, over an abstract sequence of call outcomes;
 * the deadline arithmetic of timedwait, with the current time as an input;
 * and the bookkeeping of named semaphores.
 */
module Mutex {
  import opened Errors

  /**
   * Return codes of the pthread and semaphore calls the wrappers distinguish.
   * `Other` stands only for a code that is none of the named ones: it never
   * carries 0 or the value of EDEADLK, EOWNERDEAD, EPERM, EAGAIN, EBUSY or EINTR.
   */
  datatype ErrCode = Success | EDEADLK | EOWNERDEAD | EPERM | EAGAIN | EBUSY | EINTR | Other(code: int)

  /** The Exceptions the wrappers throw. */
  datatype Fault = Deadlock | RdLockError | WrLockError | RwUnlockError | NullSemPath | SemOpenFailed | SemAllocFailed

  /** A call that returns a value or throws. */
  datatype Raise<+T> = Returns(value: T) | Throws(fault: Fault)

  /** A call returning void that completes or throws. */
  datatype Completion = Normal | Thrown(fault: Fault)

  // ---------------------------------------------------------------------
  // Mutex and RecursiveMutex
  // ---------------------------------------------------------------------

  /** What lock() returns, and whether it first called pthread_mutex_consistent. */
  datatype LockReply = LockReply(ret: ErrCode, repaired: bool)

  /** True when the code rates as an acquisition: plain success or a recovered dead owner. */
  predicate Acquired(os: ErrCode) {
    os == Success || os == EOWNERDEAD
  }

  /**
   * Mutex::lock for the code pthread_mutex_lock returned: EDEADLK raises a
   * deadlock fault, EOWNERDEAD is repaired and reported as 0, anything else
   * is passed through.
   */
  function MutexLock(os: ErrCode): (r: Raise<LockReply>)
    ensures r.Throws? <==> os == EDEADLK
    ensures r.Throws? ==> r.fault == Deadlock
    ensures r.Returns? ==> (r.value.ret == Success <==> Acquired(os))
    ensures r.Returns? ==> (r.value.repaired <==> os == EOWNERDEAD)
    ensures r.Returns? && os != EOWNERDEAD ==> r.value.ret == os
  {
    if os == EDEADLK then Throws(Deadlock)
    else if os == EOWNERDEAD then Returns(LockReply(Success, true))
    else Returns(LockReply(os, false))
  }

  /** RecursiveMutex::lock: only the EOWNERDEAD rewrite; it never throws. */
  function RecursiveLock(os: ErrCode): (r: LockReply)
    ensures r.ret == Success <==> Acquired(os)
    ensures r.repaired <==> os == EOWNERDEAD
  {
    if os == EOWNERDEAD then LockReply(Success, true) else LockReply(os, false)
  }

  /** The two lock() wrappers agree on every code except EDEADLK, which only Mutex turns into a fault. */
  lemma RecursiveLockAgrees(os: ErrCode)
    ensures os != EDEADLK ==> MutexLock(os) == Returns(RecursiveLock(os))
    ensures os == EDEADLK ==> MutexLock(os).Throws? && RecursiveLock(os) == LockReply(EDEADLK, false)
  {
  }

  /** What unlock() does beyond releasing: nothing, or print the code. */
  datatype Diagnostic = Silent | Printed(code: ErrCode)

  /**
   * Mutex::unlock and RecursiveMutex::unlock: they return void, so no
   * failure reaches the caller; 0 and EPERM are silent and any other code
   * is only printed.
   */
  function Unlock(os: ErrCode): (d: Diagnostic)
    ensures d.Silent? <==> (os == Success || os == EPERM)
    ensures d.Printed? ==> d.code == os
  {
    if os == Success || os == EPERM then Silent else Printed(os)
  }

  datatype MutexCall = Destroy | UnlockCall

  /** Some element differs from x. */
  predicate SomeOther(s: seq<ErrCode>, x: ErrCode) {
    exists i | 0 <= i < |s| :: s[i] != x
  }

  /** Index of the first element that differs from x. */
  function FirstOther(s: seq<ErrCode>, x: ErrCode): (k: nat)
    requires SomeOther(s, x)
    ensures k < |s| && s[k] != x
    ensures forall j | 0 <= j < k :: s[j] == x
  {
    if s[0] != x then 0
    else
      assert SomeOther(s[1..], x) by {
        var i :| 0 <= i < |s| && s[i] != x;
        assert s[1..][i - 1] == s[i];
      }
      1 + FirstOther(s[1..], x)
  }

  /** The calls ~Mutex makes when destroy reports EBUSY k times: destroy, then (unlock, destroy) k times. */
  function DestroyTrace(k: nat): seq<MutexCall> {
    if k == 0 then [Destroy] else DestroyTrace(k - 1) + [UnlockCall, Destroy]
  }

  /**
   * ~Mutex (and ~RecursiveMutex, which is the same loop): repeat
   * pthread_mutex_destroy while it returns EBUSY, unlocking between
   * attempts, and stop at the first other result. `results` are the codes
   * the successive destroy calls return.
   */
  method DestroyMutex(results: seq<ErrCode>) returns (ret: ErrCode, calls: seq<MutexCall>)
    requires SomeOther(results, EBUSY)
    ensures ret != EBUSY
    ensures ret == results[FirstOther(results, EBUSY)]
    ensures calls == DestroyTrace(FirstOther(results, EBUSY))
  {
    ghost var k := FirstOther(results, EBUSY);
    var n := 0;
    ret := Success;
    calls := [];
    while true
      invariant 0 <= n <= k
      invariant n == 0 ==> ret == Success && calls == []
      invariant n > 0 ==> ret == EBUSY && calls == DestroyTrace(n - 1)
      decreases k - n
    {
      if ret == EBUSY {
        calls := calls + [UnlockCall];
      }
      ret := results[n];
      calls := calls + [Destroy];
      n := n + 1;
      if ret != EBUSY {
        break;
      }
    }
  }

  // ---------------------------------------------------------------------
  // RWMutex (the debug-only flags are left out)
  // ---------------------------------------------------------------------

  /** rlock faults on every code but 0 and EAGAIN: EAGAIN counts as acquired. */
  function RdLock(os: ErrCode): (c: Completion)
    ensures c.Normal? <==> (os == Success || os == EAGAIN)
    ensures c.Thrown? ==> c.fault == RdLockError
  {
    if os != Success && os != EAGAIN then Thrown(RdLockError) else Normal
  }

  /** wlock faults on any nonzero code. */
  function WrLock(os: ErrCode): (c: Completion)
    ensures c.Normal? <==> os == Success
    ensures c.Thrown? ==> c.fault == WrLockError
  {
    if os != Success then Thrown(WrLockError) else Normal
  }

  /** RWMutex::unlock faults on any nonzero code. */
  function RwUnlock(os: ErrCode): (c: Completion)
    ensures c.Normal? <==> os == Success
    ensures c.Thrown? ==> c.fault == RwUnlockError
  {
    if os != Success then Thrown(RwUnlockError) else Normal
  }

  /** The read lock is the more lenient one: whatever wlock accepts, rlock accepts, and EAGAIN only rlock. */
  lemma RdLockMoreLenient(os: ErrCode)
    ensures WrLock(os).Normal? ==> RdLock(os).Normal?
    ensures RdLock(EAGAIN).Normal? && WrLock(EAGAIN).Thrown?
  {
  }

  // ---------------------------------------------------------------------
  // Sem: retry loops
  // ---------------------------------------------------------------------

  /** The value and errno one sem_post / sem_wait / sem_trywait / sem_timedwait call leaves. */
  datatype SysRet = SysRet(rt: int, errno: ErrCode)

  predicate Interrupted(o: SysRet) {
    o.rt == -1 && o.errno == EINTR
  }

  predicate Settles(outcomes: seq<SysRet>) {
    exists i | 0 <= i < |outcomes| :: !Interrupted(outcomes[i])
  }

  /** Index of the first call that was not interrupted. */
  function FirstSettled(outcomes: seq<SysRet>): (k: nat)
    requires Settles(outcomes)
    ensures k < |outcomes| && !Interrupted(outcomes[k])
    ensures forall j | 0 <= j < k :: Interrupted(outcomes[j])
  {
    if !Interrupted(outcomes[0]) then 0
    else
      assert Settles(outcomes[1..]) by {
        var i :| 0 <= i < |outcomes| && !Interrupted(outcomes[i]);
        assert outcomes[1..][i - 1] == outcomes[i];
      }
      1 + FirstSettled(outcomes[1..])
  }

  /**
   * The do/while loop of post, wait, trywait and timedwait: repeat the call
   * exactly while it returns -1 with errno EINTR; report whether the first
   * other result is 0. `outcomes` are the successive calls' results.
   */
  method RetryOnEintr(outcomes: seq<SysRet>) returns (ok: bool, attempts: nat)
    requires Settles(outcomes)
    ensures attempts == FirstSettled(outcomes) + 1
    ensures ok <==> outcomes[attempts - 1].rt == 0
  {
    ghost var k := FirstSettled(outcomes);
    var rt := 0;
    attempts := 0;
    while true
      invariant attempts <= k
      invariant forall j | 0 <= j < attempts :: Interrupted(outcomes[j])
      decreases k - attempts
    {
      var o := outcomes[attempts];
      rt := o.rt;
      attempts := attempts + 1;
      if !(o.rt == -1 && o.errno == EINTR) {
        break;
      }
    }
    ok := rt == 0;
  }

  // ---------------------------------------------------------------------
  // Sem::timedwait: the deadline
  // ---------------------------------------------------------------------

  const NanosPerSec: int := 1000 * 1000 * 1000

  datatype Timespec = Timespec(sec: int, nsec: int)

  /** What clock_gettime(CLOCK_REALTIME) delivers, and what POSIX sem_timedwait accepts. */
  predicate ValidTimespec(t: Timespec) {
    0 <= t.nsec < NanosPerSec
  }

  function TotalNanos(t: Timespec): int {
    t.sec * NanosPerSec + t.nsec
  }

  /** The deadline as written: the carry is taken only when the nanoseconds EXCEED 10^9. */
  function DeadlineAsWritten(now: Timespec, ms: uint32): (e: Timespec)
    ensures e.sec == now.sec + ms / 1000 || e.sec == now.sec + ms / 1000 + 1
    ensures ValidTimespec(now) ==> 0 <= e.nsec <= NanosPerSec
  {
    var t := Timespec(now.sec + ms / 1000, now.nsec + ms % 1000 * 1000 * 1000);
    if t.nsec > NanosPerSec then Timespec(t.sec + 1, t.nsec - NanosPerSec) else t
  }

  /** The deadline with the carry taken at 10^9 as well. */
  function Deadline(now: Timespec, ms: uint32): (e: Timespec)
    ensures e.sec == now.sec + ms / 1000 || e.sec == now.sec + ms / 1000 + 1
    ensures ValidTimespec(now) ==> ValidTimespec(e)
  {
    var t := Timespec(now.sec + ms / 1000, now.nsec + ms % 1000 * 1000 * 1000);
    if t.nsec >= NanosPerSec then Timespec(t.sec + 1, t.nsec - NanosPerSec) else t
  }

  /**
   * As written, the deadline lies exactly ms milliseconds after now, its
   * seconds grow by ms/1000 plus at most one carry, but its nanoseconds are
   * only bounded by 10^9 inclusive.
   */
  lemma DeadlineAsWrittenBounds(now: Timespec, ms: uint32)
    requires ValidTimespec(now)
    ensures var e := DeadlineAsWritten(now, ms);
      && TotalNanos(e) == TotalNanos(now) + ms * 1000 * 1000
      && (e.sec == now.sec + ms / 1000 || e.sec == now.sec + ms / 1000 + 1)
      && 0 <= e.nsec <= NanosPerSec
  {
    TotalNanosSplit(now, ms);
  }

  /** The whole-second and sub-second parts of ms add up to ms * 10^6 nanoseconds. */
  lemma TotalNanosSplit(now: Timespec, ms: uint32)
    ensures TotalNanos(Timespec(now.sec + ms / 1000, now.nsec + ms % 1000 * 1000 * 1000))
      == TotalNanos(now) + ms * 1000 * 1000
  {
    var q, r := ms / 1000, ms % 1000;
    assert ms == q * 1000 + r;
    assert (now.sec + q) * NanosPerSec == now.sec * NanosPerSec + q * NanosPerSec;
    assert ms * 1000 * 1000 == q * NanosPerSec + r * 1000 * 1000;
  }

  /** An input that shows it: 1 ms of nanoseconds plus 999 ms leaves tv_nsec at exactly 10^9, which POSIX rejects. */
  lemma DeadlineAsWrittenInvalid()
    ensures DeadlineAsWritten(Timespec(0, 1000 * 1000), 999) == Timespec(0, NanosPerSec)
    ensures !ValidTimespec(DeadlineAsWritten(Timespec(0, 1000 * 1000), 999))
  {
  }

  /** The corrected deadline is the same instant and always a valid timespec. */
  lemma DeadlineValid(now: Timespec, ms: uint32)
    requires ValidTimespec(now)
    ensures var e := Deadline(now, ms);
      && TotalNanos(e) == TotalNanos(now) + ms * 1000 * 1000
      && (e.sec == now.sec + ms / 1000 || e.sec == now.sec + ms / 1000 + 1)
      && ValidTimespec(e)
  {
    TotalNanosSplit(now, ms);
  }

  /**
   * Sem::timedwait: build the deadline from `now` step by step, then retry
   * sem_timedwait on EINTR with that same deadline. The carry test here is
   * the corrected `>=`.
   */
  method TimedWait(now: Timespec, ms: uint32, outcomes: seq<SysRet>) returns (ok: bool, expire: Timespec)
    requires ValidTimespec(now) && Settles(outcomes)
    ensures expire == Deadline(now, ms) && ValidTimespec(expire)
    ensures ok <==> outcomes[FirstSettled(outcomes)].rt == 0
  {
    expire := now;
    expire := expire.(sec := expire.sec + ms / 1000);
    expire := expire.(nsec := expire.nsec + ms % 1000 * 1000 * 1000);
    if expire.nsec >= NanosPerSec {
      expire := expire.(sec := expire.sec + 1);
      expire := expire.(nsec := expire.nsec - NanosPerSec);
    }
    DeadlineValid(now, ms);
    var attempts;
    ok, attempts := RetryOnEintr(outcomes);
  }

  // ---------------------------------------------------------------------
  // Sem: construction and teardown
  // ---------------------------------------------------------------------

  /** A Sem object: whether it is named, and its mFilePath. */
  datatype Sem = Sem(named: bool, filePath: string)

  datatype SemCall = SemClose | SemUnlink(path: string) | SemDestroy | SemDelete

  /**
   * The named constructor as written: null path or a failed sem_open
   * throw; otherwise the object is marked named but mFilePath is never
   * assigned and stays empty.
   */
  function OpenNamedAsWritten(semPath: Option<string>, openOk: bool): (r: Raise<Sem>)
    ensures semPath.None? ==> r == Throws(NullSemPath)
    ensures semPath.Some? && !openOk ==> r == Throws(SemOpenFailed)
    ensures r.Returns? ==> r.value == Sem(true, "")
  {
    if semPath.None? then Throws(NullSemPath)
    else if !openOk then Throws(SemOpenFailed)
    else Returns(Sem(true, ""))
  }

  /** The named constructor with mFilePath recording the path it opened. */
  function OpenNamed(semPath: Option<string>, openOk: bool): (r: Raise<Sem>)
    ensures semPath.None? ==> r == Throws(NullSemPath)
    ensures semPath.Some? && !openOk ==> r == Throws(SemOpenFailed)
    ensures r.Returns? ==> r.value == Sem(true, semPath.value)
  {
    if semPath.None? then Throws(NullSemPath)
    else if !openOk then Throws(SemOpenFailed)
    else Returns(Sem(true, semPath.value))
  }

  /** What the anonymous constructor yields, and whether it printed a sem_init error. */
  datatype AnonSem = AnonSem(outcome: Raise<Sem>, initWarning: bool)

  /**
   * The anonymous constructor: a failed allocation throws before sem_init
   * is called; a failed sem_init is only printed and the object is still
   * built; the object is never named.
   */
  function OpenAnonymous(allocOk: bool, initOk: bool): (r: AnonSem)
    ensures !allocOk <==> r.outcome == Throws(SemAllocFailed)
    ensures allocOk ==> r.outcome == Returns(Sem(false, ""))
    ensures r.outcome.Returns? ==> !r.outcome.value.named
    ensures r.initWarning <==> allocOk && !initOk
  {
    if !allocOk then AnonSem(Throws(SemAllocFailed), false)
    else AnonSem(Returns(Sem(false, "")), !initOk)
  }

  /** ~Sem: a named semaphore is closed and its mFilePath unlinked; an anonymous one destroyed and deleted. */
  function Teardown(s: Sem): (calls: seq<SemCall>)
    ensures s.named ==> calls == [SemClose, SemUnlink(s.filePath)]
    ensures !s.named ==> calls == [SemDestroy, SemDelete]
  {
    if s.named then [SemClose, SemUnlink(s.filePath)] else [SemDestroy, SemDelete]
  }

  /** As written, destroying a named semaphore unlinks the empty path, never the one it opened. */
  lemma NamedTeardownAsWritten(path: string)
    ensures OpenNamedAsWritten(Some(path), true).Returns?
    ensures Teardown(OpenNamedAsWritten(Some(path), true).value) == [SemClose, SemUnlink("")]
    ensures path != "" ==> SemUnlink(path) !in Teardown(OpenNamedAsWritten(Some(path), true).value)
  {
  }

  /** Corrected, destroying a named semaphore unlinks exactly the path it opened. */
  lemma NamedTeardownUnlinksOpenedPath(path: string)
    ensures OpenNamed(Some(path), true).Returns?
    ensures Teardown(OpenNamed(Some(path), true).value) == [SemClose, SemUnlink(path)]
  {
  }
}
