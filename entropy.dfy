/** The entropy source: osdepEntropyOpen, osdepEntropyClose and psGetEntropy.
    The descriptors of /dev/random and /dev/urandom and errno are the state
    the source keeps in globals; the kernel is not modelled: what each read
    returns and what a reopen gives are inputs (a Device). */
module OsdepEntropy {
  import opened CoreApi

  /** Interrupted reads tolerated per phase before the fill gives up. */
  const MAX_RAND_READS: nat := 1024

  /** The errno values the fill distinguishes; EOTHER stands for every other one. */
  datatype Errno = EINTR | EAGAIN | EBADF | EOTHER

  /** What one read(2) does: deliver bytes (at most the amount asked for is
      taken) or fail, setting errno. */
  datatype ReadResult = Got(data: seq<byte>) | Failed(errno: Errno)

  /** A device as one call of psGetEntropy sees it: the result of its k-th read
      in the phase that uses it, and the descriptor a reopen of it gives
      (negative when the open fails). */
  datatype Device = Device(read: nat -> ReadResult, reopenFd: int)

  /** Reads never report end of file (a read returning 0 would make the source spin). */
  ghost predicate NoEof(dev: Device) {
    forall k: nat :: dev.read(k).Got? ==> dev.read(k).data != []
  }

  /** The two loops of psGetEntropy: non-blocking /dev/random, then /dev/urandom. */
  datatype Phase = Preferred | Guaranteed

  /** The variables one loop of psGetEntropy works on. `got` holds the bytes
      counted so far, in order (readBytes is its length and `where` points just
      past it); `buf` is the caller's buffer; `fd` is the descriptor the loop
      reads; `closed` lists the descriptors closed so far. */
  datatype Fill = Fill(k: nat, size: nat, got: seq<byte>, buf: seq<byte>,
                       sanity: nat, retry: nat, errno: Errno, fd: int, closed: seq<int>)

  predicate Bounded(st: Fill) {
    st.sanity <= MAX_RAND_READS + 1 && st.retry <= 1
  }

  /** The loop invariant: the counted bytes sit at the front of the buffer, and
      what is still wanted fits behind them. */
  predicate Valid(st: Fill) {
    && Bounded(st)
    && |st.got| + st.size <= |st.buf|
    && st.buf[..|st.got|] == st.got
  }

  /** Bytes still wanted, interrupts still tolerated, reopens still allowed. */
  function Measure(st: Fill): nat
    requires Bounded(st)
  {
    st.size + (MAX_RAND_READS + 1 - st.sanity) + (1 - st.retry)
  }

  /** The part of a read's bytes that fits the request. */
  function Take(data: seq<byte>, n: nat): (c: seq<byte>)
    ensures |c| <= n && |c| <= |data| && c == data[..|c|]
    ensures data != [] && n > 0 ==> c != []
  {
    if |data| <= n then data else data[..n]
  }

  /** The buffer after `chunk` is stored at offset `at`. */
  function Write(buf: seq<byte>, at: nat, chunk: seq<byte>): (b: seq<byte>)
    requires at + |chunk| <= |buf|
    ensures |b| == |buf|
    ensures b[..at] == buf[..at] && b[at..at + |chunk|] == chunk
    ensures b[at + |chunk|..] == buf[at + |chunk|..]
  {
    buf[..at] + chunk + buf[at + |chunk|..]
  }

  /** The bytes the next read stores: what it delivers, cut to the request. */
  function Chunk(dev: Device, st: Fill): (c: seq<byte>)
    ensures |c| <= st.size
  {
    if dev.read(st.k).Got? then Take(dev.read(st.k).data, st.size) else []
  }

  /** The loop variables right after `rc = read(fd, where, size)`: read(2)
      stores what it delivers at `where`, whether or not it is then counted, and
      sets errno only when it fails. */
  function AfterRead(dev: Device, st: Fill): Fill
    requires Valid(st)
  {
    st.(k := st.k + 1,
        buf := Write(st.buf, |st.got|, Chunk(dev, st)),
        errno := if dev.read(st.k).Failed? then dev.read(st.k).errno else st.errno)
  }

  /** How one iteration ends: with `continue` or the loop test, with `break`,
      or with `return PS_PLATFORM_FAIL`. */
  datatype StepEnd = Next(st: Fill) | Stop(st: Fill) | Abort(st: Fill)

  /** One iteration of either loop of psGetEntropy, on a non-zero size. */
  function Step(ph: Phase, dev: Device, st: Fill): (s: StepEnd)
    requires Valid(st) && st.size > 0
    ensures Valid(s.st)
    // readBytes + size is what the caller asked for, after every iteration
    ensures |s.st.got| + s.st.size == |st.got| + st.size
    ensures s.Next? && NoEof(dev) ==> Measure(s.st) < Measure(st)
  {
    var r := dev.read(st.k);
    var chunk := Chunk(dev, st);
    var cur := AfterRead(dev, st);
    if r.Failed? || st.sanity > MAX_RAND_READS then
      if cur.errno == EINTR then
        if st.sanity > MAX_RAND_READS then Abort(cur)
        else Next(cur.(sanity := st.sanity + 1))
      else if ph == Preferred && cur.errno == EAGAIN then
        Stop(cur)
      else if cur.errno == EBADF && st.retry == 0 then
        var reopened := cur.(closed := st.closed + [st.fd], fd := dev.reopenFd);
        if dev.reopenFd < 0 then
          (if ph == Preferred then Stop(reopened) else Abort(reopened))
        else
          Next(reopened.(retry := 1))
      else if ph == Preferred then Stop(cur)
      else Abort(cur)
    else
      Next(cur.(got := st.got + chunk, size := st.size - |chunk|))
  }

  /** What else one iteration keeps: it appends to the counted bytes, leaves
      the buffer past the request alone, issues one read, closes at most one
      descriptor per loop, and ends only the way each loop of the source can. */
  lemma StepFacts(ph: Phase, dev: Device, st: Fill)
    requires Valid(st) && st.size > 0
    ensures var s := Step(ph, dev, st);
      && st.got <= s.st.got
      && |s.st.buf| == |st.buf| && s.st.buf[|st.got| + st.size..] == st.buf[|st.got| + st.size..]
      && s.st.k == st.k + 1
      && st.closed <= s.st.closed && |s.st.closed| - |st.closed| <= 1 - st.retry
      && (s.Next? ==> |s.st.closed| - |st.closed| == s.st.retry - st.retry)
      && s.st.errno == (if dev.read(st.k).Failed? then dev.read(st.k).errno else st.errno)
      // the /dev/random loop fails only once the interrupt budget is spent
      && (ph == Preferred && s.Abort? ==> st.sanity > MAX_RAND_READS && s.st.errno == EINTR)
      // the /dev/urandom loop has no `break`
      && (ph == Guaranteed ==> !s.Stop?)
      && (ph == Guaranteed && !s.Abort? ==>
            dev.read(st.k).Got? || dev.read(st.k).errno == EINTR || dev.read(st.k).errno == EBADF)
  {
  }

  /** How the error branch of a loop body ends: `continue`, `break`, or
      `return PS_PLATFORM_FAIL`. */
  datatype Exit = Continue | Break | Fail {
    function Ends(st: Fill): StepEnd {
      match this
      case Continue => Next(st)
      case Break => Stop(st)
      case Fail => Abort(st)
    }
  }

  // The cases of Step, one per way out of the loop body: proof steps for the
  // imperative loop bodies of EntropySource below.

  /** A read that delivers within the interrupt budget is counted. */
  lemma StepCounts(ph: Phase, dev: Device, st: Fill)
    requires Valid(st) && st.size > 0 && dev.read(st.k).Got? && st.sanity <= MAX_RAND_READS
    ensures Step(ph, dev, st) == Next(AfterRead(dev, st).(got := st.got + Chunk(dev, st),
                                                          size := st.size - |Chunk(dev, st)|))
  {
  }

  /** An interrupted read within the budget is retried. */
  lemma StepRetriesInterrupt(ph: Phase, dev: Device, st: Fill)
    requires Valid(st) && st.size > 0 && dev.read(st.k) == Failed(EINTR) && st.sanity <= MAX_RAND_READS
    ensures Step(ph, dev, st) == Next(AfterRead(dev, st).(sanity := st.sanity + 1))
  {
  }

  /** Past the budget, errno EINTR (fresh or left over) fails the loop. */
  lemma StepSpendsBudget(ph: Phase, dev: Device, st: Fill)
    requires Valid(st) && st.size > 0 && st.sanity > MAX_RAND_READS && AfterRead(dev, st).errno == EINTR
    ensures Step(ph, dev, st) == Abort(AfterRead(dev, st))
  {
  }

  /** errno EAGAIN ends the /dev/random loop. */
  lemma StepWouldBlock(dev: Device, st: Fill)
    requires Valid(st) && st.size > 0 && AfterRead(dev, st).errno == EAGAIN
    requires dev.read(st.k).Failed? || st.sanity > MAX_RAND_READS
    ensures Step(Preferred, dev, st) == Stop(AfterRead(dev, st))
  {
  }

  /** The first errno EBADF closes the descriptor and reopens the device. */
  lemma StepReopens(ph: Phase, dev: Device, st: Fill)
    requires Valid(st) && st.size > 0 && AfterRead(dev, st).errno == EBADF && st.retry == 0
    requires dev.read(st.k).Failed? || st.sanity > MAX_RAND_READS
    ensures var r := AfterRead(dev, st).(closed := st.closed + [st.fd], fd := dev.reopenFd);
      Step(ph, dev, st) == if dev.reopenFd >= 0 then Next(r.(retry := 1))
                           else if ph == Preferred then Stop(r) else Abort(r)
  {
  }

  /** Any other error ends the /dev/random loop and fails the /dev/urandom loop. */
  lemma StepOtherError(ph: Phase, dev: Device, st: Fill)
    requires Valid(st) && st.size > 0
    requires dev.read(st.k).Failed? || st.sanity > MAX_RAND_READS
    requires AfterRead(dev, st).errno != EINTR
    requires ph == Preferred ==> AfterRead(dev, st).errno != EAGAIN
    requires AfterRead(dev, st).errno != EBADF || st.retry != 0
    ensures Step(ph, dev, st) == if ph == Preferred then Stop(AfterRead(dev, st)) else Abort(AfterRead(dev, st))
  {
  }

  /** Where a loop leaves its variables, and whether it returned PS_PLATFORM_FAIL. */
  datatype Outcome = Outcome(st: Fill, failed: bool)

  /** One loop of psGetEntropy, run to its end. */
  function Run(ph: Phase, dev: Device, st: Fill): (o: Outcome)
    requires Valid(st) && NoEof(dev)
    ensures Valid(o.st)
    ensures |o.st.got| + o.st.size == |st.got| + st.size
    decreases Measure(st)
  {
    if st.size == 0 then Outcome(st, false)
    else match Step(ph, dev, st)
      case Next(s) => Run(ph, dev, s)
      case Stop(s) => Outcome(s, false)
      case Abort(s) => Outcome(s, true)
  }

  /** A loop only appends to the counted bytes and never touches the buffer
      past the request. */
  lemma {:induction false} RunFrame(ph: Phase, dev: Device, st: Fill)
    requires Valid(st) && NoEof(dev)
    ensures var o := Run(ph, dev, st);
      && st.got <= o.st.got
      && |o.st.buf| == |st.buf| && o.st.buf[|st.got| + st.size..] == st.buf[|st.got| + st.size..]
    decreases Measure(st)
  {
    if st.size > 0 {
      StepFacts(ph, dev, st);
      var s := Step(ph, dev, st);
      if s.Next? {
        RunFrame(ph, dev, s.st);
      }
    }
  }

  /** A loop issues a bounded number of reads, at least one unless nothing is
      wanted, and closes at most one descriptor. */
  lemma {:induction false} RunCounts(ph: Phase, dev: Device, st: Fill)
    requires Valid(st) && NoEof(dev)
    ensures var o := Run(ph, dev, st);
      && st.k <= o.st.k <= st.k + Measure(st) + 1
      && st.closed <= o.st.closed && |o.st.closed| - |st.closed| <= 1 - st.retry
      && (st.size == 0 <==> o == Outcome(st, false))
      && (st.size > 0 ==> o.st.k > st.k)
    decreases Measure(st)
  {
    if st.size > 0 {
      StepFacts(ph, dev, st);
      var s := Step(ph, dev, st);
      if s.Next? {
        RunCounts(ph, dev, s.st);
      }
    }
  }

  /** The /dev/random loop returns PS_PLATFORM_FAIL only after MAX_RAND_READS + 1
      interrupted reads; every other error ends it without failing. */
  lemma {:induction false} PreferredFailsOnlyOnInterrupts(dev: Device, st: Fill)
    requires Valid(st) && NoEof(dev)
    ensures var o := Run(Preferred, dev, st);
      o.failed ==> o.st.sanity == MAX_RAND_READS + 1 && o.st.errno == EINTR
    decreases Measure(st)
  {
    if st.size > 0 {
      StepFacts(Preferred, dev, st);
      var s := Step(Preferred, dev, st);
      if s.Next? {
        PreferredFailsOnlyOnInterrupts(dev, s.st);
      }
    }
  }

  /** The /dev/urandom loop either fills the whole request or fails; when it
      fills it, none of its reads failed other than by interruption or by a
      bad descriptor. */
  lemma {:induction false} GuaranteedFillsOrFails(dev: Device, st: Fill)
    requires Valid(st) && NoEof(dev)
    ensures var o := Run(Guaranteed, dev, st);
      !o.failed ==>
        && o.st.size == 0
        && forall j :: st.k <= j < o.st.k ==>
             dev.read(j).Got? || dev.read(j).errno == EINTR || dev.read(j).errno == EBADF
    decreases Measure(st)
  {
    if st.size > 0 {
      StepFacts(Guaranteed, dev, st);
      var s := Step(Guaranteed, dev, st);
      if s.Next? {
        GuaranteedFillsOrFails(dev, s.st);
        RunFrame(Guaranteed, dev, s.st);
      }
    }
  }

  /** A /dev/random loop that never sees an interrupted read never fails. */
  lemma {:induction false} NoInterruptsNoPreferredFailure(dev: Device, st: Fill)
    requires Valid(st) && NoEof(dev) && st.sanity == 0
    requires forall j :: st.k <= j ==> dev.read(j) != Failed(EINTR)
    ensures !Run(Preferred, dev, st).failed
    decreases Measure(st)
  {
    if st.size > 0 {
      StepFacts(Preferred, dev, st);
      var s := Step(Preferred, dev, st);
      if s.Next? {
        NoInterruptsNoPreferredFailure(dev, s.st);
      }
    }
  }

  /** A /dev/urandom loop whose reads all deliver, started within its interrupt
      budget, fills the whole request. */
  lemma {:induction false} ReliableGuaranteedFills(dev: Device, st: Fill)
    requires Valid(st) && NoEof(dev) && st.sanity <= MAX_RAND_READS
    requires forall j :: st.k <= j ==> dev.read(j).Got?
    ensures !Run(Guaranteed, dev, st).failed
    ensures Run(Guaranteed, dev, st).st.size == 0
    decreases Measure(st)
  {
    if st.size > 0 {
      StepFacts(Guaranteed, dev, st);
      var s := Step(Guaranteed, dev, st);
      ReliableGuaranteedFills(dev, s.st);
    }
  }

  /** Run, one iteration at a time: after an iteration that ends as
      `exit.Ends(n)`, the loop continues from `n` or ends there. */
  lemma RunFollows(ph: Phase, dev: Device, st: Fill, exit: Exit, n: Fill)
    requires Valid(st) && st.size > 0 && NoEof(dev) && Step(ph, dev, st) == exit.Ends(n)
    ensures Valid(n)
    ensures exit == Continue ==> Measure(n) < Measure(st) && Run(ph, dev, st) == Run(ph, dev, n)
    ensures exit != Continue ==> Run(ph, dev, st) == Outcome(n, exit == Fail)
  {
  }

  /** A loop whose request is met ends where it is. */
  lemma RunDone(ph: Phase, dev: Device, st: Fill)
    requires Valid(st) && st.size == 0 && NoEof(dev)
    ensures Run(ph, dev, st) == Outcome(st, false)
  {
  }

  /** What psGetEntropy returns and leaves behind: the return code, the bytes it
      counted, the caller's buffer, the two descriptors, errno, the descriptors
      closed, and how many reads each device saw. */
  datatype Entropy = Entropy(rc: int, filled: seq<byte>, buf: seq<byte>, randfd: int, urandfd: int,
                             errno: Errno, closed: seq<int>, randReads: nat, urandReads: nat)

  /** The state psGetEntropy starts its first loop in. */
  function Start(buf: seq<byte>, size: nat, randfd: int, errno: Errno, closed: seq<int>): Fill {
    Fill(0, size, [], buf, 0, 0, errno, randfd, closed)
  }

  /** The rest of psGetEntropy once the /dev/random loop has ended with `p1`:
      sanity and retry are reset and the /dev/urandom loop runs. */
  function AfterPreferred(p1: Outcome, urand: Device, urandfd: int): (e: Entropy)
    requires Valid(p1.st) && NoEof(urand)
    // a failed /dev/random loop returns at once, without touching /dev/urandom
    ensures p1.failed ==> e.rc == PS_PLATFORM_FAIL && e.urandReads == 0 && e.buf == p1.st.buf
    // otherwise the call fails, or counts everything the first loop left wanted
    ensures e.rc == PS_PLATFORM_FAIL || e.rc == |e.filled| == |p1.st.got| + p1.st.size
    ensures p1.st.got <= e.filled
  {
    if p1.failed then
      Entropy(PS_PLATFORM_FAIL, p1.st.got, p1.st.buf, p1.st.fd, urandfd, p1.st.errno,
              p1.st.closed, p1.st.k, 0)
    else
      var st2 := p1.st.(k := 0, sanity := 0, retry := 0, fd := urandfd);
      GuaranteedFillsOrFails(urand, st2);
      RunFrame(Guaranteed, urand, st2);
      var p2 := Run(Guaranteed, urand, st2);
      Entropy(if p2.failed then PS_PLATFORM_FAIL else |p2.st.got|, p2.st.got, p2.st.buf,
              p1.st.fd, p2.st.fd, p2.st.errno, p2.st.closed, p1.st.k, p2.st.k)
  }

  /** psGetEntropy(bytes, size) on a buffer holding `buf`, with the given devices
      and the descriptors, errno and close log as they are at the call. */
  function GetEntropySpec(buf: seq<byte>, size: nat, rand: Device, urand: Device,
                          randfd: int, urandfd: int, errno: Errno, closed: seq<int>): (e: Entropy)
    requires size <= |buf| && NoEof(rand) && NoEof(urand)
    // the result is the full request or PS_PLATFORM_FAIL, never a short count
    ensures e.rc == PS_PLATFORM_FAIL || e.rc == |e.filled| == size
  {
    AfterPreferred(Run(Preferred, rand, Start(buf, size, randfd, errno, closed)), urand, urandfd)
  }

  /** A non-negative return is exactly the requested size, and then the first
      `size` bytes of the buffer are the bytes the devices delivered, in order;
      every other return is PS_PLATFORM_FAIL. Nothing past `size` is written. */
  lemma NonNegativeReturnIsExact(buf: seq<byte>, size: nat, rand: Device, urand: Device,
                                 randfd: int, urandfd: int, errno: Errno, closed: seq<int>)
    requires size <= |buf| && NoEof(rand) && NoEof(urand)
    ensures var e := GetEntropySpec(buf, size, rand, urand, randfd, urandfd, errno, closed);
      && (e.rc == PS_PLATFORM_FAIL || (e.rc == size && |e.filled| == size && e.buf[..size] == e.filled))
      && |e.buf| == |buf| && e.buf[size..] == buf[size..]
  {
    var st := Start(buf, size, randfd, errno, closed);
    var p1 := Run(Preferred, rand, st);
    RunFrame(Preferred, rand, st);
    assert |p1.st.buf| == |buf| && p1.st.buf[size..] == buf[size..];
    if !p1.failed {
      var st2 := p1.st.(k := 0, sanity := 0, retry := 0, fd := urandfd);
      var p2 := Run(Guaranteed, urand, st2);
      RunFrame(Guaranteed, urand, st2);
      // the counted bytes sit at the front of the buffer, and nothing from size on moved
      assert p2.st.buf[..|p2.st.got|] == p2.st.got;
      assert |p2.st.buf| == |buf| && p2.st.buf[size..] == buf[size..];
      assert AfterPreferred(p1, urand, urandfd).buf == p2.st.buf;
    }
  }

  /** A request for zero bytes returns 0 without reading, closing or writing anything. */
  lemma ZeroRequestReadsNothing(buf: seq<byte>, rand: Device, urand: Device,
                                randfd: int, urandfd: int, errno: Errno, closed: seq<int>)
    requires NoEof(rand) && NoEof(urand)
    ensures GetEntropySpec(buf, 0, rand, urand, randfd, urandfd, errno, closed)
         == Entropy(0, [], buf, randfd, urandfd, errno, closed, 0, 0)
  {
  }

  /** Each device is read at most size + MAX_RAND_READS + 3 times, and at most
      one descriptor per device is closed. */
  lemma ReadsAreBounded(buf: seq<byte>, size: nat, rand: Device, urand: Device,
                        randfd: int, urandfd: int, errno: Errno, closed: seq<int>)
    requires size <= |buf| && NoEof(rand) && NoEof(urand)
    ensures var e := GetEntropySpec(buf, size, rand, urand, randfd, urandfd, errno, closed);
      && e.randReads <= size + MAX_RAND_READS + 3
      && e.urandReads <= size + MAX_RAND_READS + 3
      && closed <= e.closed && |e.closed| <= |closed| + 2
  {
    var st := Start(buf, size, randfd, errno, closed);
    var p1 := Run(Preferred, rand, st);
    RunCounts(Preferred, rand, st);
    if !p1.failed {
      var st2 := p1.st.(k := 0, sanity := 0, retry := 0, fd := urandfd);
      RunCounts(Guaranteed, urand, st2);
      assert p1.st.size <= size;
    }
  }

  /** A failure before /dev/urandom is read is the /dev/random loop exhausting
      its interrupt budget: EAGAIN, a second EBADF, a failed reopen or any other
      error there falls through to /dev/urandom instead. */
  lemma PreferredErrorsFallThrough(buf: seq<byte>, size: nat, rand: Device, urand: Device,
                                   randfd: int, urandfd: int, errno: Errno, closed: seq<int>)
    requires size <= |buf| && NoEof(rand) && NoEof(urand)
    ensures var e := GetEntropySpec(buf, size, rand, urand, randfd, urandfd, errno, closed);
      e.rc < 0 && e.urandReads == 0 ==> e.errno == EINTR && e.randReads > MAX_RAND_READS
  {
    var st := Start(buf, size, randfd, errno, closed);
    var p1 := Run(Preferred, rand, st);
    PreferredFailsOnlyOnInterrupts(rand, st);
    RunCounts(Preferred, rand, st);
    SanityCountsReads(Preferred, rand, st);
    if !p1.failed {
      var st2 := p1.st.(k := 0, sanity := 0, retry := 0, fd := urandfd);
      GuaranteedFillsOrFails(urand, st2);
      RunCounts(Guaranteed, urand, st2);
    }
  }

  /** Every interrupt a loop absorbs costs one read. */
  lemma {:induction false} SanityCountsReads(ph: Phase, dev: Device, st: Fill)
    requires Valid(st) && NoEof(dev)
    ensures Run(ph, dev, st).st.sanity - st.sanity <= Run(ph, dev, st).st.k - st.k
    decreases Measure(st)
  {
    if st.size > 0 {
      StepFacts(ph, dev, st);
      var s := Step(ph, dev, st);
      if s.Next? {
        SanityCountsReads(ph, dev, s.st);
      }
    }
  }

  /** When /dev/random would block at once, the call is the /dev/urandom loop
      alone on the untouched buffer and the full size. */
  lemma WouldBlockFallsThrough(buf: seq<byte>, size: nat, rand: Device, urand: Device,
                               randfd: int, urandfd: int, errno: Errno, closed: seq<int>)
    requires 0 < size <= |buf| && NoEof(rand) && NoEof(urand)
    requires rand.read(0) == Failed(EAGAIN)
    ensures GetEntropySpec(buf, size, rand, urand, randfd, urandfd, errno, closed)
         == AfterPreferred(Outcome(Start(buf, size, randfd, EAGAIN, closed).(k := 1), false), urand, urandfd)
  {
    var st := Start(buf, size, randfd, errno, closed);
    assert Write(buf, 0, []) == buf;
    assert Step(Preferred, rand, st) == Stop(st.(k := 1, errno := EAGAIN));
  }

  /** When /dev/random never reports an interrupted read and every read of
      /dev/urandom delivers, psGetEntropy returns the requested size. */
  lemma ReliableDevicesDeliverAll(buf: seq<byte>, size: nat, rand: Device, urand: Device,
                                  randfd: int, urandfd: int, errno: Errno, closed: seq<int>)
    requires size <= |buf| && NoEof(rand) && NoEof(urand)
    requires forall j :: 0 <= j ==> rand.read(j) != Failed(EINTR)
    requires forall j :: 0 <= j ==> urand.read(j).Got?
    ensures GetEntropySpec(buf, size, rand, urand, randfd, urandfd, errno, closed).rc == size
  {
    var st := Start(buf, size, randfd, errno, closed);
    NoInterruptsNoPreferredFailure(rand, st);
    var p1 := Run(Preferred, rand, st);
    var st2 := p1.st.(k := 0, sanity := 0, retry := 0, fd := urandfd);
    ReliableGuaranteedFills(urand, st2);
  }

  /** The descriptors osdepEntropyClose hands to close(), in order: the shared
      descriptor once when /dev/random aliases /dev/urandom, each one once otherwise. */
  function CloseOrder(randfd: int, urandfd: int): (c: seq<int>)
    ensures randfd in c && urandfd in c
    ensures forall h :: h in c ==> h == randfd || h == urandfd
    ensures multiset(c)[randfd] == 1 && multiset(c)[urandfd] == 1
  {
    if randfd != urandfd then [randfd, urandfd] else [urandfd]
  }

  /** What read(2) does to the caller's buffer: the delivered bytes land at `at`. */
  method Store(a: array<byte>, at: nat, chunk: seq<byte>)
    requires at + |chunk| <= a.Length
    modifies a
    ensures a[..] == Write(old(a[..]), at, chunk)
  {
    forall i | 0 <= i < |chunk| {
      a[at + i] := chunk[i];
    }
    assert a[..] == Write(old(a[..]), at, chunk);
  }

  /** The process-wide state of the entropy functions: the static descriptors
      urandfd and randfd, errno, and the descriptors handed to close() so far. */
  class EntropySource {
    var urandfd: int
    var randfd: int
    var errno: Errno
    var closed: seq<int>

    /** Both descriptors start at -1; errno is whatever the process has. */
    constructor (errno0: Errno)
      ensures urandfd == -1 && randfd == -1 && errno == errno0 && closed == []
    {
      urandfd, randfd, errno, closed := -1, -1, errno0, [];
    }

    /** osdepEntropyOpen, given what open() returns for /dev/urandom and, if it
        is reached, for non-blocking /dev/random (negative on failure). Without
        /dev/random both roles share the /dev/urandom descriptor. */
    method Open(urandOpen: int, randOpen: int) returns (rc: int)
      modifies this`urandfd, this`randfd
      ensures urandfd == urandOpen
      ensures urandOpen < 0 ==> rc == PS_PLATFORM_FAIL && randfd == old(randfd)
      ensures urandOpen >= 0 ==> rc == PS_SUCCESS
      ensures urandOpen >= 0 && randOpen < 0 ==> randfd == urandfd
      ensures urandOpen >= 0 && randOpen >= 0 ==> randfd == randOpen
    {
      urandfd := urandOpen;
      if urandfd < 0 {
        return PS_PLATFORM_FAIL;
      }
      randfd := randOpen;
      if randfd < 0 {
        randfd := urandfd;
      }
      return PS_SUCCESS;
    }

    /** osdepEntropyClose: an aliased descriptor is closed once. */
    method Close()
      modifies this`closed
      ensures closed == old(closed) + CloseOrder(randfd, urandfd)
    {
      if randfd != urandfd {
        closed := closed + [randfd];
      }
      closed := closed + [urandfd];
    }

    /** psGetEntropy(bytes, size): fill `size` bytes of `bytes` from the
        non-blocking /dev/random, then from /dev/urandom. */
    method GetEntropy(bytes: array<byte>, size: nat, rand: Device, urand: Device) returns (result: int)
      requires size <= bytes.Length && NoEof(rand) && NoEof(urand)
      modifies this`randfd, this`errno, this`closed, this`urandfd, bytes
      ensures var e := GetEntropySpec(old(bytes[..]), size, rand, urand,
                                      old(randfd), old(urandfd), old(errno), old(closed));
        && result == e.rc && bytes[..] == e.buf
        && randfd == e.randfd && urandfd == e.urandfd && errno == e.errno && closed == e.closed
    {
      var failed, readBytes, remaining;
      ghost var p1, p2;
      failed, readBytes, remaining, p1 := DrainPreferred(bytes, size, rand);
      if failed {
        return PS_PLATFORM_FAIL;
      }
      // sanity = retry = 0; the second loop goes on from where the first stopped
      failed, readBytes, remaining, p2 :=
        DrainGuaranteed(bytes, readBytes, remaining, urand, p1.st.(k := 0, sanity := 0, retry := 0, fd := urandfd));
      if failed {
        return PS_PLATFORM_FAIL;
      }
      return readBytes;
    }

    /** rc = read(fd, where, size), the k-th read of `dev`: the delivered
        bytes, cut to the request, land at `at`; a failure returns -1 and sets errno. */
    method Read(bytes: array<byte>, dev: Device, k: nat, at: nat, n: nat) returns (rc: int)
      requires at + n <= bytes.Length
      modifies bytes, this`errno
      ensures rc == if dev.read(k).Got? then |Take(dev.read(k).data, n)| else -1
      ensures bytes[..] == Write(old(bytes[..]), at, if dev.read(k).Got? then Take(dev.read(k).data, n) else [])
      ensures errno == if dev.read(k).Failed? then dev.read(k).errno else old(errno)
    {
      var r := dev.read(k);
      var chunk: seq<byte> := if r.Got? then Take(r.data, n) else [];
      Store(bytes, at, chunk);
      if r.Got? {
        rc := |chunk|;
      } else {
        errno := r.errno;
        rc := -1;
      }
    }

    /** The error branch of the /dev/random loop, entered after the read that
        took the loop from `before`: retry an interrupt within the budget,
        fail once it is spent, reopen on the first EBADF, leave the loop on
        anything else. */
    method RecoverPreferred(rand: Device, sanity: nat, retry: nat, ghost before: Fill)
      returns (exit: Exit, sanity': nat, retry': nat)
      requires Valid(before) && before.size > 0 && before.sanity == sanity && before.retry == retry
      requires rand.read(before.k).Failed? || sanity > MAX_RAND_READS
      requires before.fd == randfd && before.closed == closed && AfterRead(rand, before).errno == errno
      modifies this`randfd, this`closed
      ensures exit == Fail ==> sanity > MAX_RAND_READS && errno == EINTR
      ensures Step(Preferred, rand, before)
           == exit.Ends(AfterRead(rand, before).(sanity := sanity', retry := retry', fd := randfd, closed := closed))
    {
      sanity', retry' := sanity, retry;
      if errno == EINTR {
        if sanity > MAX_RAND_READS {
          StepSpendsBudget(Preferred, rand, before);
          return Fail, sanity', retry';
        }
        StepRetriesInterrupt(Preferred, rand, before);
        return Continue, sanity + 1, retry';
      } else if errno == EAGAIN {
        StepWouldBlock(rand, before);
        return Break, sanity', retry';
      } else if errno == EBADF && retry == 0 {
        StepReopens(Preferred, rand, before);
        closed := closed + [randfd];
        randfd := rand.reopenFd;
        if randfd < 0 {
          return Break, sanity', retry';
        }
        return Continue, sanity', retry + 1;
      } else {
        StepOtherError(Preferred, rand, before);
        return Break, sanity', retry';
      }
    }

    /** The error branch of the /dev/urandom loop: as for /dev/random, except
        that EAGAIN, a failed reopen and any other error fail the call. */
    method RecoverGuaranteed(urand: Device, sanity: nat, retry: nat, ghost before: Fill)
      returns (exit: Exit, sanity': nat, retry': nat)
      requires Valid(before) && before.size > 0 && before.sanity == sanity && before.retry == retry
      requires urand.read(before.k).Failed? || sanity > MAX_RAND_READS
      requires before.fd == urandfd && before.closed == closed && AfterRead(urand, before).errno == errno
      modifies this`urandfd, this`closed
      ensures exit != Break
      ensures Step(Guaranteed, urand, before)
           == exit.Ends(AfterRead(urand, before).(sanity := sanity', retry := retry', fd := urandfd, closed := closed))
    {
      sanity', retry' := sanity, retry;
      if errno == EINTR {
        if sanity > MAX_RAND_READS {
          StepSpendsBudget(Guaranteed, urand, before);
          return Fail, sanity', retry';
        }
        StepRetriesInterrupt(Guaranteed, urand, before);
        return Continue, sanity + 1, retry';
      } else if errno == EBADF && retry == 0 {
        StepReopens(Guaranteed, urand, before);
        closed := closed + [urandfd];
        urandfd := urand.reopenFd;
        if urandfd < 0 {
          return Fail, sanity', retry';
        }
        return Continue, sanity', retry + 1;
      } else {
        StepOtherError(Guaranteed, urand, before);
        return Fail, sanity', retry';
      }
    }

    /** One pass of the /dev/random loop body from `before`: rc = read(randfd,
        where, size); a delivery within the interrupt budget is counted,
        anything else goes to the error branch. */
    method IteratePreferred(bytes: array<byte>, rand: Device, calls: nat, readBytes: nat, remaining: nat,
                            sanity: nat, retry: nat, ghost got: seq<byte>, ghost before: Fill)
      returns (exit: Exit, readBytes': nat, remaining': nat, sanity': nat, retry': nat, ghost got': seq<byte>)
      requires before == Fill(calls, remaining, got, bytes[..], sanity, retry, errno, randfd, closed)
      requires Valid(before) && remaining > 0 && readBytes == |got|
      modifies bytes, this`errno, this`randfd, this`closed
      ensures readBytes' == |got'|
      ensures exit == Fail ==> sanity > MAX_RAND_READS && errno == EINTR
      ensures Step(Preferred, rand, before)
           == exit.Ends(Fill(calls + 1, remaining', got', bytes[..], sanity', retry', errno, randfd, closed))
    {
      var rc := Read(bytes, rand, calls, readBytes, remaining);
      assert Fill(calls + 1, remaining, got, bytes[..], sanity, retry, errno, randfd, closed) == AfterRead(rand, before);
      if rc < 0 || sanity > MAX_RAND_READS {
        exit, sanity', retry' := RecoverPreferred(rand, sanity, retry, before);
        readBytes', remaining', got' := readBytes, remaining, got;
      } else {
        StepCounts(Preferred, rand, before);
        exit, sanity', retry' := Continue, sanity, retry;
        readBytes', remaining', got' := readBytes + rc, remaining - rc, got + Chunk(rand, before);
      }
    }

    /** One pass of the /dev/urandom loop body from `before`. */
    method IterateGuaranteed(bytes: array<byte>, urand: Device, calls: nat, readBytes: nat, remaining: nat,
                             sanity: nat, retry: nat, ghost got: seq<byte>, ghost before: Fill)
      returns (exit: Exit, readBytes': nat, remaining': nat, sanity': nat, retry': nat, ghost got': seq<byte>)
      requires before == Fill(calls, remaining, got, bytes[..], sanity, retry, errno, urandfd, closed)
      requires Valid(before) && remaining > 0 && readBytes == |got|
      modifies bytes, this`errno, this`urandfd, this`closed
      ensures readBytes' == |got'|
      ensures exit != Break
      ensures Step(Guaranteed, urand, before)
           == exit.Ends(Fill(calls + 1, remaining', got', bytes[..], sanity', retry', errno, urandfd, closed))
    {
      var rc := Read(bytes, urand, calls, readBytes, remaining);
      assert Fill(calls + 1, remaining, got, bytes[..], sanity, retry, errno, urandfd, closed) == AfterRead(urand, before);
      if rc < 0 || sanity > MAX_RAND_READS {
        exit, sanity', retry' := RecoverGuaranteed(urand, sanity, retry, before);
        readBytes', remaining', got' := readBytes, remaining, got;
      } else {
        StepCounts(Guaranteed, urand, before);
        exit, sanity', retry' := Continue, sanity, retry;
        readBytes', remaining', got' := readBytes + rc, remaining - rc, got + Chunk(urand, before);
      }
    }

    /** The first loop of psGetEntropy: read non-blocking /dev/random until the
        request is met, it would block, or it fails; only an exhausted
        interrupt budget fails the call. */
    method DrainPreferred(bytes: array<byte>, size: nat, rand: Device)
      returns (failed: bool, readBytes: nat, remaining: nat, ghost o: Outcome)
      requires size <= bytes.Length && NoEof(rand)
      modifies this`randfd, this`errno, this`closed, bytes
      ensures o == Run(Preferred, rand, Start(old(bytes[..]), size, old(randfd), old(errno), old(closed)))
      ensures failed == o.failed && readBytes == |o.st.got| && remaining == o.st.size
      ensures bytes[..] == o.st.buf && randfd == o.st.fd && errno == o.st.errno && closed == o.st.closed
    {
      var sanity: nat, retry: nat := 0, 0;
      var calls: nat := 0;         // reads issued on /dev/random so far
      ghost var got: seq<byte> := [];
      readBytes, remaining := 0, size;
      ghost var st := Start(bytes[..], size, randfd, errno, closed);
      o := Run(Preferred, rand, st);
      while remaining > 0
        invariant st == Fill(calls, remaining, got, bytes[..], sanity, retry, errno, randfd, closed)
        invariant readBytes == |got| && Valid(st) && Run(Preferred, rand, st) == o
        decreases Measure(st)
      {
        ghost var before := st;
        var exit;
        exit, readBytes, remaining, sanity, retry, got :=
          IteratePreferred(bytes, rand, calls, readBytes, remaining, sanity, retry, got, before);
        calls := calls + 1;
        st := Fill(calls, remaining, got, bytes[..], sanity, retry, errno, randfd, closed);
        RunFollows(Preferred, rand, before, exit, st);
        if exit != Continue {
          // `break` leaves the loop, `return PS_PLATFORM_FAIL` the call
          return exit == Fail, readBytes, remaining, o;
        }
      }
      RunDone(Preferred, rand, st);
      failed := false;
    }

    /** The second loop of psGetEntropy: read /dev/urandom until the request
        is met; an exhausted interrupt budget, a failed reopen or any other
        error fails the call. */
    method DrainGuaranteed(bytes: array<byte>, readBytes0: nat, size: nat, urand: Device, ghost st0: Fill)
      returns (failed: bool, readBytes: nat, remaining: nat, ghost o: Outcome)
      requires st0 == Fill(0, size, st0.got, bytes[..], 0, 0, errno, urandfd, closed)
      requires readBytes0 == |st0.got| && Valid(st0) && NoEof(urand)
      modifies this`urandfd, this`errno, this`closed, bytes
      ensures o == Run(Guaranteed, urand, st0)
      ensures failed == o.failed && readBytes == |o.st.got| && remaining == o.st.size
      ensures bytes[..] == o.st.buf && urandfd == o.st.fd && errno == o.st.errno && closed == o.st.closed
    {
      var sanity: nat, retry: nat := 0, 0;
      var calls: nat := 0;         // reads issued on /dev/urandom so far
      ghost var got: seq<byte> := st0.got;
      readBytes, remaining := readBytes0, size;
      ghost var st := st0;
      o := Run(Guaranteed, urand, st);
      while remaining > 0
        invariant st == Fill(calls, remaining, got, bytes[..], sanity, retry, errno, urandfd, closed)
        invariant readBytes == |got| && Valid(st) && Run(Guaranteed, urand, st) == o
        decreases Measure(st)
      {
        ghost var before := st;
        var exit;
        exit, readBytes, remaining, sanity, retry, got :=
          IterateGuaranteed(bytes, urand, calls, readBytes, remaining, sanity, retry, got, before);
        calls := calls + 1;
        st := Fill(calls, remaining, got, bytes[..], sanity, retry, errno, urandfd, closed);
        RunFollows(Guaranteed, urand, before, exit, st);
        if exit != Continue {
          return true, readBytes, remaining, o;
        }
      }
      RunDone(Guaranteed, urand, st);
      failed := false;
    }
  }
}
