/** The file APIs: psGetFileBufFp reads an open stream whole into a fresh,
    zero-terminated buffer of st_size + 1 bytes, and psGetFileBuf opens a file
    by name first. The file system, fstat and the allocator are inputs: a
    stream knows what fread can still deliver and what fstat reports. */
module OsdepFile {
  import opened CoreApi

  /** The most bytes one fread call of the loading loop asks for. */
  const CHUNK: nat := 512

  function Min(a: nat, b: nat): nat { if a <= b then a else b }

  function Max(a: nat, b: nat): nat { if a <= b then b else a }

  /** `n` zero bytes, as memset leaves them. */
  function Zeros(n: nat): (z: seq<byte>)
    ensures |z| == n && forall i :: 0 <= i < n ==> z[i] == 0
  {
    seq(n, _ => 0)
  }

  /** An open FILE: the bytes fread will still deliver, in order, and what
      fstat reports as st_size (None when fstat fails). */
  class Stream {
    var rest: seq<byte>
    var isOpen: bool
    const stat: Option<nat>

    /** fopen: a fresh, open stream over `contents`. */
    constructor(contents: seq<byte>, stat: Option<nat>)
      ensures rest == contents && isOpen && this.stat == stat
    {
      rest := contents;
      isOpen := true;
      this.stat := stat;
    }

    /** fread(dst + off, 1, n, fp): deliver up to `n` bytes into `dst` at
        `off`; fewer (zero at end of file) when the stream runs out. Only the
        bytes delivered are written, so only they must fit in `dst`. */
    method Fread(dst: array<byte>, off: nat, n: nat) returns (got: nat)
      requires isOpen && off + Min(n, |rest|) <= dst.Length
      modifies this`rest, dst
      ensures got == Min(n, |old(rest)|)
      ensures rest == old(rest)[got..]
      ensures dst[..] == old(dst[..])[..off] + old(rest)[..got] + old(dst[..])[off + got..]
    {
      got := Min(n, |rest|);
      forall i | 0 <= i < got {
        dst[off + i] := rest[i];
      }
      assert dst[..] == old(dst[..])[..off] + old(rest)[..got] + old(dst[..])[off + got..];
      rest := rest[got..];
    }

    /** fclose. */
    method Fclose()
      requires isOpen
      modifies this`isOpen
      ensures !isOpen
    {
      isOpen := false;
    }
  }

  /** The buffer psGetFileBufFp hands back for a stream that still holds
      `rest` and reports `stSize`: the first min(stSize, |rest|) bytes of the
      stream, then zeros up to stSize + 1 bytes. */
  function Loaded(rest: seq<byte>, stSize: nat): (b: seq<byte>)
    ensures |b| == stSize + 1 && b[stSize] == 0
    ensures b[..Min(stSize, |rest|)] == rest[..Min(stSize, |rest|)]
    ensures forall i :: Min(stSize, |rest|) <= i < |b| ==> b[i] == 0
  {
    var n := Min(stSize, |rest|);
    rest[..n] + Zeros(stSize + 1 - n)
  }

  /** A stream holding exactly st_size bytes is loaded whole, and the buffer
      is that content followed by one terminating zero. */
  lemma ExactStreamLoadsWhole(rest: seq<byte>)
    ensures Loaded(rest, |rest|) == rest + [0]
  {
    assert Loaded(rest, |rest|)[..|rest|] == rest;
  }

  /** How the loading loop as the source writes it ends: the end of the
      furthest write into the buffer, and the final *bufLen. */
  datatype Reach = Reach(furthest: nat, bufLen: nat)

  /** The loading loop of psGetFileBufFp as written: fread always asks for
      512 bytes at *buf + *bufLen, however little room is left, and the test
      *bufLen < st_size runs only after the read. The stream position equals
      *bufLen while the loop runs, since every counted byte was read. */
  function AsWrittenLoop(rest: seq<byte>, stSize: nat, bufLen: nat): (r: Reach)
    requires bufLen <= |rest|
    // *bufLen only counts bytes read, and the one uncounted read is at most 512 bytes
    ensures bufLen <= r.bufLen <= r.furthest <= |rest|
    ensures r.furthest - r.bufLen <= CHUNK
    // the loop stops only at end of file or once st_size bytes are counted
    ensures r.bufLen >= Min(stSize, |rest|)
    decreases |rest| - bufLen
  {
    var tmp := Min(CHUNK, |rest| - bufLen);
    if tmp > 0 && bufLen < stSize then
      var next := AsWrittenLoop(rest, stSize, bufLen + tmp);
      Reach(Max(bufLen + tmp, next.furthest), next.bufLen)
    else
      Reach(bufLen + tmp, bufLen)
  }

  /** On a stream of exactly st_size bytes the loop as written stays inside
      the buffer, keeps the terminating zero, and counts every byte: although
      every fread asks for 512 bytes, it writes only what the stream delivers. */
  lemma {:induction false} AsWrittenExactStreamIsSafe(rest: seq<byte>, bufLen: nat)
    requires bufLen <= |rest|
    ensures AsWrittenLoop(rest, |rest|, bufLen) == Reach(|rest|, |rest|)
    decreases |rest| - bufLen
  {
    var tmp := Min(CHUNK, |rest| - bufLen);
    if tmp > 0 && bufLen < |rest| {
      AsWrittenExactStreamIsSafe(rest, bufLen + tmp);
    }
  }

  /** A stream two or more bytes longer than st_size (a pipe, a file that
      reports size 0, a file grown since fstat) makes the loop as written
      write past the st_size + 1 bytes it allocated. */
  lemma {:induction false} AsWrittenLongStreamOverruns(rest: seq<byte>, stSize: nat, bufLen: nat)
    requires bufLen <= stSize + 1 && stSize + 2 <= |rest|
    ensures AsWrittenLoop(rest, stSize, bufLen).furthest >= stSize + 2
    decreases |rest| - bufLen
  {
    var tmp := Min(CHUNK, |rest| - bufLen);
    if bufLen < stSize && bufLen + tmp <= stSize + 1 {
      AsWrittenLongStreamOverruns(rest, stSize, bufLen + tmp);
    }
  }

  /** A stream just one byte longer than st_size (a file grown by one byte
      since fstat): the loop as written stores the extra byte at index st_size,
      over the terminating zero, and may count it, leaving *bufLen at
      st_size + 1. */
  lemma {:induction false} AsWrittenOneExtraByteOverwritesTerminator(rest: seq<byte>, stSize: nat, bufLen: nat)
    requires |rest| == stSize + 1 && bufLen <= |rest|
    ensures AsWrittenLoop(rest, stSize, bufLen).furthest == stSize + 1
    ensures stSize <= AsWrittenLoop(rest, stSize, bufLen).bufLen <= stSize + 1
    decreases |rest| - bufLen
  {
    var tmp := Min(CHUNK, |rest| - bufLen);
    if tmp > 0 && bufLen < stSize {
      AsWrittenOneExtraByteOverwritesTerminator(rest, stSize, bufLen + tmp);
    }
  }

  /** st_size 6 and a 7-byte stream: *bufLen ends at 7, one past the content
      the buffer can hold before its terminator. */
  lemma AsWrittenOneExtraByteExample()
    ensures AsWrittenLoop(seq(7, _ => 0x41), 6, 0) == Reach(7, 7)
  {
  }

  /** The smallest instance: fstat reports 0 bytes, the stream delivers 10;
      the first fread writes 10 bytes into a 1-byte buffer. */
  lemma AsWrittenOverrunExample()
    ensures AsWrittenLoop(Zeros(10), 0, 0) == Reach(10, 0)
  {
  }

  /** psGetFileBufFp, with each fread bounded by the room left before the
      terminating zero: stat the stream, allocate st_size + 1 zeroed bytes,
      read in chunks of at most 512 until st_size bytes or end of file, and
      close the stream on every path. *bufLen starts at 0. */
  method GetFileBufFp(fp: Stream, allocOk: bool) returns (rc: int, buf: array?<byte>, bufLen: nat)
    requires fp.isOpen
    modifies fp
    ensures !fp.isOpen
    ensures fp.stat.None? ==> rc == PS_PLATFORM_FAIL && buf == null && bufLen == 0
    ensures fp.stat.Some? && !allocOk ==> rc == PS_MEM_FAIL && buf == null && bufLen == 0
    // a failure reads nothing from the stream before closing it
    ensures fp.stat.None? || !allocOk ==> fp.rest == old(fp.rest)
    ensures fp.stat.Some? && allocOk ==>
              && rc == PS_SUCCESS && buf != null && fresh(buf)
              && bufLen == Min(fp.stat.value, |old(fp.rest)|)
              && buf[..] == Loaded(old(fp.rest), fp.stat.value)
              && fp.rest == old(fp.rest)[bufLen..]
  {
    if fp.stat.None? {
      fp.Fclose();
      return PS_PLATFORM_FAIL, null, 0;
    }
    var stSize := fp.stat.value;
    if !allocOk {
      fp.Fclose();
      return PS_MEM_FAIL, null, 0;
    }
    buf := new byte[stSize + 1](_ => 0);
    bufLen := 0;
    ghost var rest0 := fp.rest;
    assert buf[..] == Zeros(stSize + 1);
    while bufLen < stSize
      invariant fp.isOpen && bufLen <= stSize && bufLen <= |rest0|
      invariant fp.rest == rest0[bufLen..]
      invariant buf[..] == rest0[..bufLen] + Zeros(stSize + 1 - bufLen)
      decreases stSize - bufLen
    {
      ghost var before := buf[..];
      var tmp := fp.Fread(buf, bufLen, Min(CHUNK, stSize - bufLen));
      if tmp == 0 {
        break;
      }
      assert buf[..] == rest0[..bufLen + tmp] + Zeros(stSize + 1 - (bufLen + tmp)) by {
        assert rest0[bufLen..][..tmp] == rest0[bufLen..bufLen + tmp];
        assert before[bufLen + tmp..] == Zeros(stSize + 1 - (bufLen + tmp));
        assert rest0[..bufLen + tmp] == rest0[..bufLen] + rest0[bufLen..bufLen + tmp];
      }
      bufLen := bufLen + tmp;
    }
    fp.Fclose();
    assert buf[..] == Loaded(rest0, stSize);
    rc := PS_SUCCESS;
  }

  /** What fopen(name, "r") can open: each openable file's contents and what
      fstat reports for it. */
  datatype FileEntry = FileEntry(contents: seq<byte>, stat: Option<nat>)

  /** psGetFileBuf: *buf and *bufLen start as NULL and 0; a NULL name is an
      argument error, a failed fopen a platform error; otherwise the file is
      loaded as psGetFileBufFp does. `fp` is the stream opened, if any. */
  method GetFileBuf(fileName: Option<string>, files: map<string, FileEntry>, allocOk: bool)
    returns (rc: int, buf: array?<byte>, bufLen: nat, ghost fp: Stream?)
    ensures fp != null ==> !fp.isOpen
    ensures fileName.None? ==> rc == PS_ARG_FAIL && buf == null && bufLen == 0 && fp == null
    ensures fileName.Some? && fileName.value !in files ==>
              rc == PS_PLATFORM_FAIL && buf == null && bufLen == 0 && fp == null
    ensures fileName.Some? && fileName.value in files ==>
              var e := files[fileName.value];
              && fp != null
              && (e.stat.None? ==> rc == PS_PLATFORM_FAIL)
              && (e.stat.Some? && !allocOk ==> rc == PS_MEM_FAIL)
              && (e.stat.Some? && allocOk ==>
                    && rc == PS_SUCCESS && buf != null && fresh(buf)
                    && bufLen == Min(e.stat.value, |e.contents|)
                    && buf[..] == Loaded(e.contents, e.stat.value))
    ensures rc != PS_SUCCESS ==> buf == null && bufLen == 0
  {
    bufLen, buf, fp := 0, null, null;
    if fileName.None? {
      return PS_ARG_FAIL, buf, bufLen, fp;
    }
    if fileName.value !in files {
      return PS_PLATFORM_FAIL, buf, bufLen, fp;
    }
    var e := files[fileName.value];
    var stream := new Stream(e.contents, e.stat);
    fp := stream;
    rc, buf, bufLen := GetFileBufFp(stream, allocOk);
  }
}
