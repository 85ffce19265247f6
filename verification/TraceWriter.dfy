/** The writer half of tools/gltrace/iolib.c: a byte stream appended through a
    window of CHUNKSZ bytes mapped over the end of the trace file. */
module TraceWriter {
  import opened Wire

  const OPC_VERSION: word := 0xdeafca1f
  const VERSION_MAJOR: word := 1
  const VERSION_MINOR: word := 0
  const VERSION_REV: word := 0
  const OPC_THREAD: word := 2

  /** What iolib_init writes at the start of every trace. */
  function Header(wsize: nat): (s: seq<byte>)
    requires wsize == 4 || wsize == 8
    ensures |s| == 20
  {
    Int4(OPC_VERSION) + Int4(VERSION_MAJOR) + Int4(VERSION_MINOR) + Int4(VERSION_REV) + Int4(wsize)
  }

  /** The thread prefix of a record issued by thr when the stream's last record was cur's. */
  function ThreadPrefix(wsize: nat, cur: quad, thr: quad): (s: seq<byte>) {
    if thr == cur then [] else Int4(OPC_THREAD) + LE(thr, wsize)
  }

  lemma PadReaches(p: nat, n: nat)
    requires p % 4 == n % 4
    ensures PadLen(n) < 4 && (p + PadLen(n)) % 4 == 0
  {
  }

  lemma PadGoesOn(p: nat, left: nat, end: nat)
    requires left < 4 && (p + left) % 4 == 0 && p % 4 != 0
    requires p <= end && end % 4 == 0
    ensures left > 0 && p < end && (p + 1 + (left - 1)) % 4 == 0
  {
  }

  lemma PadEnds(p: nat, left: nat)
    requires left < 4 && (p + left) % 4 == 0 && p % 4 == 0
    ensures left == 0
  {
  }

  lemma ModAdd(a: nat, b: nat)
    requires a % 4 == 0
    ensures (a + b) % 4 == b % 4
  {
  }

  class Writer {
    const CHUNKSZ: nat
    const wsize: nat
    // The file up to the mapped window, and the window.
    var disk: seq<byte>
    var window: array<byte>
    var curPtr: nat
    var endPtr: nat
    var fileSize: nat
    var fileOffset: nat
    var reentrance: int
    var curThread: quad
    // The bytes appended so far.
    ghost var log: seq<byte>

    ghost predicate Valid()
      reads this, window
    {
      && CHUNKSZ > 0 && CHUNKSZ % 4 == 0
      && (wsize == 4 || wsize == 8)
      && curPtr <= endPtr == window.Length == fileSize
      && (fileSize == 0 || fileSize == CHUNKSZ)
      && |disk| + fileSize == fileOffset
      && |disk| % 4 == 0
      && 0 <= reentrance
      && (forall i :: curPtr <= i < window.Length ==> window[i] == 0)
      && log == disk + window[..curPtr]
    }

    /** Between two puts the cursor is aligned to a C int. */
    ghost predicate Ready()
      reads this, window
    {
      Valid() && curPtr % 4 == 0
    }

    /** The bytes of the file while the window is still mapped. */
    ghost function File(): seq<byte>
      reads this, window
      requires Valid()
    {
      disk + window[..]
    }

    /** What a put of the bytes e appends: nothing inside a nested call. */
    ghost function Appended(e: seq<byte>): seq<byte>
      reads this
    {
      if reentrance > 1 then [] else e
    }

    /** The file on disk is the log and the unused, zero-filled rest of the window. */
    lemma FileIsLogAndZeros()
      requires Valid()
      ensures File() == log + Zeros(endPtr - curPtr)
      ensures |File()| == fileOffset
    {
      ZeroSuffix(window[..], curPtr);
      assert window[..][..curPtr] == window[..curPtr];
      assert disk + (window[..curPtr] + Zeros(endPtr - curPtr)) == log + Zeros(endPtr - curPtr);
    }

    constructor (chunk: nat, ptrSize: nat)
      requires chunk > 0 && chunk % 4 == 0
      requires ptrSize == 4 || ptrSize == 8
      ensures Ready() && fresh(window)
      ensures CHUNKSZ == chunk && wsize == ptrSize
      ensures log == Header(ptrSize)
      ensures reentrance == 0 && curThread == 0
    {
      CHUNKSZ, wsize := chunk, ptrSize;
      disk := [];
      window := new byte[0];
      curPtr, endPtr, fileSize, fileOffset := 0, 0, 0, 0;
      reentrance, curThread := 0, 0;
      log := [];
      new;
      PutHeader();
    }

    method PutHeader()
      requires Ready() && log == [] && reentrance == 0
      modifies this`disk, this`window, this`curPtr, this`endPtr, this`fileSize, this`fileOffset, this`log, window
      ensures Ready() && (window == old(window) || fresh(window))
      ensures log == Header(wsize)
    {
      PutInt(OPC_VERSION);
      assert log == Int4(OPC_VERSION);
      PutInt(VERSION_MAJOR);
      PutInt(VERSION_MINOR);
      PutInt(VERSION_REV);
      PutInt(wsize);
    }

    /** Slides the window to the next chunk of the file; it is only ever called on a full window. */
    method Enlarge()
      requires Valid() && curPtr == endPtr
      modifies this`disk, this`window, this`curPtr, this`endPtr, this`fileSize, this`fileOffset
      ensures Valid() && fresh(window)
      ensures curPtr == 0 && endPtr == CHUNKSZ
    {
      if fileSize > 0 {
        disk := disk + window[..];
      }
      window := new byte[CHUNKSZ](_ => 0);
      fileSize := CHUNKSZ;
      fileOffset := fileOffset + CHUNKSZ;
      curPtr := 0;
      endPtr := CHUNKSZ;
    }

    /** The copy loop shared by putLongLong, putPtr, putString and putBytes. */
    method Copy(src: seq<byte>)
      requires Valid()
      modifies this`disk, this`window, this`curPtr, this`endPtr, this`fileSize, this`fileOffset, this`log, window
      ensures Valid() && (window == old(window) || fresh(window))
      ensures log == old(log) + src
    {
      var left, s := |src|, 0;
      while left > 0
        invariant 0 <= left && left + s == |src|
        invariant Valid() && (window == old(window) || fresh(window))
        invariant log == old(log) + src[..s]
        decreases left, if endPtr == curPtr then 1 else 0
      {
        var avail := endPtr - curPtr;
        ghost var before := s;
        if left <= avail {
          CopyWithin(src, s, left);
          s := s + left;
          left := 0;
        } else {
          left := left - avail;
          CopyWithin(src, s, avail);
          s := s + avail;
          Enlarge();
        }
        Assoc(old(log), src[..before], src[before..s]);
        assert src[..s] == src[..before] + src[before..s];
      }
      assert src[..s] == src;
    }

    /** The inner loops of Copy: n bytes that fit in the window. */
    method CopyWithin(src: seq<byte>, from: nat, n: nat)
      requires Valid() && curPtr + n <= endPtr && from + n <= |src|
      modifies this`curPtr, this`log, window
      ensures Valid() && curPtr == old(curPtr) + n
      ensures log == old(log) + src[from..from + n]
    {
      var i := 0;
      while i < n
        invariant 0 <= i <= n && curPtr == old(curPtr) + i
        invariant Valid()
        invariant log == old(log) + src[from..from + i]
      {
        PutByte(src[from + i]);
        i := i + 1;
        assert src[from..from + i] == src[from..from + i - 1] + [src[from + i - 1]];
      }
    }

    /** `*curPtr++ = b` */
    method PutByte(b: byte)
      requires Valid() && curPtr < endPtr
      modifies this`curPtr, this`log, window
      ensures Valid() && curPtr == old(curPtr) + 1
      ensures log == old(log) + [b]
    {
      window[curPtr] := b;
      curPtr := curPtr + 1;
      log := log + [b];
      assert window[..curPtr] == window[..curPtr - 1] + [b];
    }

    /** Zero bytes up to the next multiple of four. */
    method Pad(ghost n: nat)
      requires Valid() && |log| % 4 == n % 4
      modifies this`curPtr, this`log, window
      ensures Ready()
      ensures log == old(log) + Zeros(PadLen(n))
    {
      hide PadLen;
      Aligned();
      ghost var left := PadLen(n);
      PadReaches(curPtr, n);
      while curPtr % 4 != 0
        invariant Valid() && 0 <= left <= PadLen(n) && left < 4 && (curPtr + left) % 4 == 0
        invariant log == old(log) + Zeros(PadLen(n) - left)
        decreases left
      {
        PadGoesOn(curPtr, left, endPtr);
        ghost var done := PadLen(n) - left;
        PutByte(0);
        left := left - 1;
        Assoc(old(log), Zeros(done), [0]);
        assert Zeros(done + 1) == Zeros(done) + [0];
      }
      PadEnds(curPtr, left);
      Aligned();
    }

    lemma Aligned()
      requires Valid()
      ensures curPtr % 4 == |log| % 4 && endPtr % 4 == 0
    {
    }

    method PutInt(arg: word)
      requires Ready()
      modifies this`disk, this`window, this`curPtr, this`endPtr, this`fileSize, this`fileOffset, this`log, window
      ensures Ready() && (window == old(window) || fresh(window))
      ensures log == old(log) + Appended(Int4(arg))
    {
      if reentrance > 1 { return; }
      if curPtr >= endPtr { Enlarge(); }
      Aligned();
      CopyWithin(Int4(arg), 0, 4);
      assert Int4(arg)[0..4] == Int4(arg);
    }

    /** putFloat stores the float's bits the way putInt stores an int's. */
    method PutFloat(arg: word)
      requires Ready()
      modifies this`disk, this`window, this`curPtr, this`endPtr, this`fileSize, this`fileOffset, this`log, window
      ensures Ready() && (window == old(window) || fresh(window))
      ensures log == old(log) + Appended(Int4(arg))
    {
      PutInt(arg);
    }

    /** putIntPtr with marker MARKER, putFloatPtr with marker FLOAT_MARKER. */
    method PutNullable(arg: Option<word>, marker: word)
      requires Ready()
      modifies this`disk, this`window, this`curPtr, this`endPtr, this`fileSize, this`fileOffset, this`log, window
      ensures Ready() && (window == old(window) || fresh(window))
      ensures log == old(log) + Appended(NullableBytes(arg, marker))
    {
      if reentrance > 1 { return; }
      var val := 0;
      if arg == None || arg.value == marker {
        PutInt(marker);
        if arg != None { val := marker; }
      } else {
        val := arg.value;
      }
      PutInt(val);
      if arg == None || arg.value == marker {
        Assoc(old(log), Int4(marker), Int4(val));
      }
    }

    method PutLongLong(arg: quad)
      requires Ready()
      modifies this`disk, this`window, this`curPtr, this`endPtr, this`fileSize, this`fileOffset, this`log, window
      ensures Ready() && (window == old(window) || fresh(window))
      ensures log == old(log) + Appended(Long8(arg))
    {
      if reentrance > 1 { return; }
      Aligned();
      ModAdd(|log|, 8);
      Copy(Long8(arg));
      Aligned();
    }

    method PutPtr(arg: quad)
      requires Ready()
      modifies this`disk, this`window, this`curPtr, this`endPtr, this`fileSize, this`fileOffset, this`log, window
      ensures Ready() && (window == old(window) || fresh(window))
      ensures log == old(log) + Appended(LE(arg, wsize))
    {
      if reentrance > 1 { return; }
      Aligned();
      ModAdd(|log|, wsize);
      Copy(LE(arg, wsize));
      Aligned();
    }

    method PutString(str: Option<seq<byte>>)
      requires Ready()
      requires str.Some? ==> IsCString(str.value)
      modifies this`disk, this`window, this`curPtr, this`endPtr, this`fileSize, this`fileOffset, this`log, window
      ensures Ready() && (window == old(window) || fresh(window))
      ensures log == old(log) + Appended(StringBytes(str))
    {
      if reentrance > 1 { return; }
      if str == None {
        PutInt(0);
        return;
      }
      PutBlob(str.value + [0]);
    }

    /** putBytes(data, size): a NULL data pointer is written as an empty blob, and
        so is a size of zero; a negative size is written as it is. */
    method PutBytes(data: Option<seq<byte>>, size: int)
      requires Ready()
      requires -0x8000_0000 <= size < 0x8000_0000
      requires data.Some? ==> size <= |data.value| && size < 0x7fff_fff0
      modifies this`disk, this`window, this`curPtr, this`endPtr, this`fileSize, this`fileOffset, this`log, window
      ensures Ready() && (window == old(window) || fresh(window))
      ensures data == None ==> log == old(log) + Appended(Int4(0))
      ensures data != None && size >= 0 ==> log == old(log) + Appended(BlobBytes(Some(data.value[..size])))
      ensures data != None && size < 0 ==> log == old(log) + Appended(Int4(size + 0x1_0000_0000))
    {
      if reentrance > 1 { return; }
      var left := size;
      if data == None { left := 0; }
      PutInt(if left < 0 then left + 0x1_0000_0000 else left);
      if left > 0 {
        PutBlob(data.value[..size]);
        Assoc(old(log), Int4(size), Padded(data.value[..size]));
      } else if data != None && size == 0 {
        assert Int4(0) + Padded([]) == Int4(0);
      }
    }

    /** The copying half of putString and putBytes: the bytes, then zeros up to an aligned cursor. */
    method PutBlob(src: seq<byte>)
      requires Ready()
      modifies this`disk, this`window, this`curPtr, this`endPtr, this`fileSize, this`fileOffset, this`log, window
      ensures Ready() && (window == old(window) || fresh(window))
      ensures log == old(log) + Padded(src)
    {
      hide PadLen;
      Aligned();
      ModAdd(|log|, |src|);
      Copy(src);
      Pad(|src|);
      Assoc(old(log), src, Zeros(PadLen(|src|)));
    }

    /** Takes the recursive lock (see module Threads) and opens a record; the
        opcode and, when the thread changed, the thread prefix go out at depth one. */
    method PutCmd(cmd: word, self: quad)
      requires Ready() && IsAddress(wsize, self)
      modifies this`disk, this`window, this`curPtr, this`endPtr, this`fileSize, this`fileOffset, this`log,
        this`reentrance, this`curThread, window
      ensures Ready() && (window == old(window) || fresh(window))
      ensures reentrance == old(reentrance) + 1
      ensures curThread == if old(reentrance) == 0 then self else old(curThread)
      ensures log == old(log) + Appended(ThreadPrefix(wsize, old(curThread), self) + Int4(cmd))
    {
      reentrance := reentrance + 1;
      if reentrance > 1 { return; }
      if self != curThread {
        PutInt(OPC_THREAD);
        PutPtr(self);
        Assoc(old(log), Int4(OPC_THREAD), LE(self, wsize));
        curThread := self;
      }
      assert log == old(log) + ThreadPrefix(wsize, old(curThread), self);
      PutInt(cmd);
      Assoc(old(log), ThreadPrefix(wsize, old(curThread), self), Int4(cmd));
    }

    method EndCmd()
      requires Ready() && reentrance > 0
      modifies this`reentrance
      ensures Ready() && reentrance == old(reentrance) - 1
    {
      reentrance := reentrance - 1;
    }

    method PutTime(bgn: quad, end: quad)
      requires Ready() && reentrance > 0
      modifies this`disk, this`window, this`curPtr, this`endPtr, this`fileSize, this`fileOffset, this`log,
        this`reentrance, window
      ensures Ready() && (window == old(window) || fresh(window))
      ensures reentrance == old(reentrance) - 1
      ensures log == old(log) + old(Appended(Long8(bgn) + Long8(end)))
    {
      PutLongLong(bgn);
      PutLongLong(end);
      if reentrance <= 1 {
        Assoc(old(log), Long8(bgn), Long8(end));
      }
      EndCmd();
    }

    /** iolib_fini: what the file holds once it is unmapped and truncated. */
    method Fini() returns (file: seq<byte>)
      requires Ready()
      ensures file == log
    {
      FileIsLogAndZeros();
      file := disk + window[..];
      if curPtr < endPtr {
        file := file[..fileOffset - (endPtr - curPtr)];
      }
    }
  }
}
