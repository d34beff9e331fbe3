/** psCreateMutex: the flag check and the order of the pthread calls it issues.
    The pthread calls themselves are not modelled; their return codes are
    inputs. Locking, unlocking and destroying a mutex are not modelled. */
module OsdepMutex {
  import opened CoreApi

  /** The one flag psCreateMutex accepts: a process-shared mutex. */
  const PS_SHARED: bv32 := 0x1

  /** The pthread calls psCreateMutex may issue. */
  datatype PthreadCall = AttrInit | AttrSetPShared | MutexInit | AttrDestroy

  /** The return codes pthread_mutexattr_init, pthread_mutexattr_setpshared and
      pthread_mutex_init give when called. POSIX has each return 0 on success
      and a positive error number on failure. */
  datatype PthreadRcs = PthreadRcs(attrInit: int, setPShared: int, mutexInit: int)

  /** The status returned, the calls issued in order, and whether the mutex
      was initialised from an attribute object carrying PTHREAD_PROCESS_SHARED. */
  datatype Creation = Creation(status: int, calls: seq<PthreadCall>, pshared: bool)

  predicate SupportedFlags(flags: bv32) {
    flags & !PS_SHARED == 0
  }

  predicate WantsShared(flags: bv32) {
    flags & PS_SHARED != 0
  }

  /** psCreateMutex, with the test the code applies to the return codes of
      pthread_mutexattr_init and pthread_mutexattr_setpshared as a parameter
      (pthread_mutex_init is always tested against 0). */
  function CreateMutexWith(flags: bv32, rcs: PthreadRcs, attrFailed: int -> bool): (c: Creation)
    // unsupported flags are rejected before any pthread call
    ensures !SupportedFlags(flags) ==> c.status == PS_PLATFORM_FAIL && c.calls == []
    ensures c.status == PS_SUCCESS || c.status == PS_PLATFORM_FAIL
    ensures SupportedFlags(flags) ==> |c.calls| >= 1 && c.calls[0] == AttrInit
    // the attribute object is destroyed, last and once, exactly when its initialisation passed the test
    ensures AttrDestroy in c.calls <==> SupportedFlags(flags) && !attrFailed(rcs.attrInit)
    ensures AttrDestroy in c.calls ==>
              c.calls[|c.calls| - 1] == AttrDestroy && AttrDestroy !in c.calls[..|c.calls| - 1]
    // the process-shared attribute is asked for exactly when the flag asks for it
    ensures AttrSetPShared in c.calls <==>
              SupportedFlags(flags) && !attrFailed(rcs.attrInit) && WantsShared(flags)
    ensures c.status == PS_SUCCESS <==>
              SupportedFlags(flags) && !attrFailed(rcs.attrInit)
              && (WantsShared(flags) ==> !attrFailed(rcs.setPShared)) && rcs.mutexInit == 0
    ensures c.status == PS_SUCCESS ==> MutexInit in c.calls
    ensures c.pshared ==> AttrSetPShared in c.calls && rcs.setPShared == 0
  {
    if !SupportedFlags(flags) then
      Creation(PS_PLATFORM_FAIL, [], false)
    else if attrFailed(rcs.attrInit) then
      Creation(PS_PLATFORM_FAIL, [AttrInit], false)
    else
      var shared := WantsShared(flags);
      var prefix := if shared then [AttrInit, AttrSetPShared] else [AttrInit];
      var pshared := shared && rcs.setPShared == 0;
      if shared && attrFailed(rcs.setPShared) then
        Creation(PS_PLATFORM_FAIL, prefix + [AttrDestroy], false)
      else if rcs.mutexInit != 0 then
        Creation(PS_PLATFORM_FAIL, prefix + [MutexInit, AttrDestroy], false)
      else
        Creation(PS_SUCCESS, prefix + [MutexInit, AttrDestroy], pshared)
  }

  /** psCreateMutex as written: the attribute calls are taken to fail only on a
      negative return code. */
  function CreateMutexAsWritten(flags: bv32, rcs: PthreadRcs): (c: Creation)
    // success whenever the attribute calls return anything non-negative and
    // pthread_mutex_init returns 0, so a positive error number goes unnoticed
    ensures c.status == PS_SUCCESS <==>
              SupportedFlags(flags) && rcs.attrInit >= 0
              && (WantsShared(flags) ==> rcs.setPShared >= 0) && rcs.mutexInit == 0
    ensures c.status == PS_SUCCESS && WantsShared(flags) ==> (c.pshared <==> rcs.setPShared == 0)
  {
    CreateMutexWith(flags, rcs, rc => rc < 0)
  }

  /** psCreateMutex with every pthread call tested against 0, as POSIX reports errors. */
  function CreateMutex(flags: bv32, rcs: PthreadRcs): (c: Creation)
    ensures c.status == PS_SUCCESS <==>
              SupportedFlags(flags) && rcs.attrInit == 0
              && (WantsShared(flags) ==> rcs.setPShared == 0) && rcs.mutexInit == 0
    ensures c.status == PS_SUCCESS ==> c.pshared == WantsShared(flags)
  {
    CreateMutexWith(flags, rcs, rc => rc != 0)
  }

  /** pthread_mutexattr_setpshared refusing with ENOTSUP (a positive error
      number): the as-written code reports a process-shared mutex created while
      the mutex is process-private; the corrected one reports the failure. */
  lemma CreateMutexAsWrittenMissesPositiveErrors()
    ensures CreateMutexAsWritten(PS_SHARED, PthreadRcs(0, 95, 0)).status == PS_SUCCESS
    ensures !CreateMutexAsWritten(PS_SHARED, PthreadRcs(0, 95, 0)).pshared
    ensures CreateMutex(PS_SHARED, PthreadRcs(0, 95, 0)).status == PS_PLATFORM_FAIL
  {
    assert SupportedFlags(PS_SHARED) && WantsShared(PS_SHARED);
  }
}
