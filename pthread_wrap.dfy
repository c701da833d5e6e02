/** The two pieces of arithmetic in lib/_pthreadWrap.h that the pool relies
    on: the return-code test of _mutexTryLock and the absolute deadline that
    condTimedWait hands to pthread_cond_timedwait.  The pthread calls
    themselves, the clock and errno are not modelled: the clock reading and
    the return code are parameters. */
module PthreadWrap {

  const Million: int := 1_000_000
  const Billion: int := 1_000_000_000

  /** EBUSY on Linux. */
  const EBUSY: int := 16

  /** What _mutexTryLock makes of a pthread_mutex_trylock return code:
      whether the caller holds the lock, and whether the failure assertion
      (VASSERT) fires. */
  datatype TryLock = TryLock(locked: bool, reported: bool)

  /** _mutexTryLock: 0 means locked, EBUSY means someone else holds it, any
      other code is reported as a failure and also read as not locked. */
  function MutexTryLock(code: int): (r: TryLock)
    ensures r.locked <==> code == 0
    ensures r.reported <==> code != 0 && code != EBUSY
    ensures !(r.locked && r.reported)
  {
    if code == 0 then TryLock(true, false)
    else if code == EBUSY then TryLock(false, false)
    else TryLock(false, true)
  }

  /** struct timeval: seconds and microseconds. */
  datatype TimeVal = TimeVal(sec: int, usec: int)

  /** struct timespec: seconds and nanoseconds. */
  datatype TimeSpec = TimeSpec(sec: int, nsec: int)

  /** A timespec as a number of nanoseconds. */
  function Nanos(t: TimeSpec): int {
    t.sec * Billion + t.nsec
  }

  /** The moment `timeOut` milliseconds after `now`, in nanoseconds. */
  function Target(now: TimeVal, timeOut: nat): int {
    now.sec * Billion + now.usec * 1000 + timeOut * Million
  }

  /** A timespec POSIX accepts as an absolute time: 0 <= tv_nsec < 10^9. */
  predicate Normalised(t: TimeSpec) {
    0 <= t.nsec < Billion
  }

  lemma TimeOutSplit(timeOut: nat)
    ensures timeOut * Million == (timeOut / 1000) * Billion + (timeOut % 1000) * Million
  {
  }

  /** The deadline of condTimedWait as written: seconds and nanoseconds are
      added field by field, and whole seconds are carried out of tv_nsec only
      when it is strictly greater than 10^9. */
  method CondTimedWaitDeadline(now: TimeVal, timeOut: nat) returns (t: TimeSpec)
    requires timeOut < 0x1_0000_0000
    ensures Nanos(t) == Target(now, timeOut)
    ensures 0 <= now.usec < Million ==>
      now.sec + timeOut / 1000 <= t.sec <= now.sec + timeOut / 1000 + 1 && 0 <= t.nsec <= Billion
    ensures 0 <= now.usec < Million ==>
      (t.nsec == Billion <==> now.usec * 1000 + (timeOut % 1000) * Million == Billion)
  {
    t := TimeSpec(now.sec + timeOut / 1000, now.usec * 1000 + (timeOut % 1000) * Million);
    TimeOutSplit(timeOut);
    if t.nsec > Billion {
      var extraSecs := t.nsec / Billion;
      t := t.(sec := t.sec + extraSecs);
      t := t.(nsec := t.nsec - extraSecs * Billion);
    }
  }

  /** The input that shows the missed case: 1000 microseconds past the second
      plus a timeout of 999 milliseconds gives tv_nsec == 10^9, which is left
      as it is, so pthread_cond_timedwait is handed a time it rejects. */
  method UnnormalisedDeadline() returns (t: TimeSpec)
    ensures t == TimeSpec(0, Billion) && !Normalised(t)
  {
    t := CondTimedWaitDeadline(TimeVal(0, 1000), 999);
  }

  /** The deadline with the carry test `>=`: the same moment, now always
      normalised, with at most one second carried. */
  method CondTimedWaitDeadlineNormalised(now: TimeVal, timeOut: nat) returns (t: TimeSpec)
    requires timeOut < 0x1_0000_0000
    ensures Nanos(t) == Target(now, timeOut)
    ensures 0 <= now.usec < Million ==>
      Normalised(t) && now.sec + timeOut / 1000 <= t.sec <= now.sec + timeOut / 1000 + 1
  {
    t := TimeSpec(now.sec + timeOut / 1000, now.usec * 1000 + (timeOut % 1000) * Million);
    TimeOutSplit(timeOut);
    if t.nsec >= Billion {
      var extraSecs := t.nsec / Billion;
      t := t.(sec := t.sec + extraSecs);
      t := t.(nsec := t.nsec - extraSecs * Billion);
    }
  }
}
