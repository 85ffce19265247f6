/** The reader half of tools/gltrace/iolib.c: a cursor over the mapped trace file.
    Each get method takes off the file what the Get function of module Stream
    takes off the list of the words that lie before the cursor. */
module TraceReader {
  import opened Wire
  import opened Stream
  import opened Opcodes
  import Trace
  import TraceWriter

  // ---------- Words and positions ----------

  lemma {:induction false} LengthOfWords(s: seq<byte>, p: nat)
    requires p <= |s| && p % 4 == 0 && |s| % 4 == 0
    ensures 4 * Length(WordsFrom(s, p)) == |s| - p
    decreases |s| - p
  {
    if p < |s| {
      LengthOfWords(s, p + 4);
    }
  }

  /** The number n rounded up to a multiple of four, as `n += 3; n -= n % 4` computes it. */
  function RoundUp(n: nat): (r: nat)
    ensures n <= r < n + 4 && r % 4 == 0
  {
    n + 3 - (n + 3) % 4
  }

  lemma Int4OfWord(s: seq<byte>, p: nat)
    requires p + 4 <= |s|
    ensures Int4(WordOf(s[p..p + 4])) == s[p..p + 4]
  {
    Pow256Values();
  }

  /** The bytes that Unpack collects lie next to each other in the file. */
  lemma {:induction false} UnpackAt(s: seq<byte>, p: nat, n: nat)
    requires p % 4 == 0 && |s| % 4 == 0 && p + n <= |s|
    ensures n <= 4 * Length(WordsFrom(s, p))
    ensures p + RoundUp(n) <= |s|
    ensures Unpack(n, WordsFrom(s, p)) == (s[p..p + n], WordsFrom(s, p + RoundUp(n)))
    decreases n
  {
    hide RoundUp, WordsFrom, Int4;
    LengthOfWords(s, p);
    if n > 0 {
      WordsStep(s, p);
      if n < 4 {
        RoundUpSmall(n);
        assert s[p..p + 4][..n] == s[p..p + n];
      } else {
        UnpackAt(s, p + 4, n - 4);
        RoundUpStep(n - 4);
        assert s[p..p + n] == s[p..p + 4] + s[p + 4..p + n];
      }
    } else {
      RoundUpZero();
    }
  }

  lemma RoundUpZero()
    ensures RoundUp(0) == 0
  {
  }

  /** strlen from position p: the number of bytes before the first NUL, or before
      the end of the file. */
  function StrLen(s: seq<byte>, p: nat): (n: nat)
    requires p <= |s|
    ensures p + n <= |s| && 0 !in s[p..p + n] && (p + n < |s| ==> s[p + n] == 0)
    decreases |s| - p
  {
    if p == |s| || s[p] == 0 then 0 else 1 + StrLen(s, p + 1)
  }

  lemma {:induction false} StrLenIs(s: seq<byte>, p: nat, n: nat)
    requires p + n <= |s| && 0 !in s[p..p + n] && (p + n < |s| ==> s[p + n] == 0)
    ensures StrLen(s, p) == n
    decreases n
  {
    if n > 0 {
      assert s[p] == s[p..p + n][0];
      assert s[p + 1..p + n] == s[p..p + n][1..];
      StrLenIs(s, p + 1, n - 1);
    }
  }

  lemma RoundUpStep(n: nat)
    ensures RoundUp(n + 4) == RoundUp(n) + 4
  {
  }

  lemma RoundUpSmall(n: nat)
    requires 0 < n <= 4
    ensures RoundUp(n) == 4
  {
  }

  /** getString's result and its new position are what Scan finds. */
  lemma {:induction false} ScanAt(s: seq<byte>, p: nat)
    requires p % 4 == 0 && |s| % 4 == 0 && p <= |s|
    ensures p + StrLen(s, p) == |s| ==> Scan(WordsFrom(s, p)) == None
    ensures p + StrLen(s, p) < |s| ==>
              Scan(WordsFrom(s, p)) == Some((s[p..p + StrLen(s, p)], WordsFrom(s, p + RoundUp(StrLen(s, p) + 1))))
    decreases |s| - p
  {
    hide RoundUp, Int4, StrLen, WordsFrom, NulIndex, WordOf, Scan;
    if p < |s| {
      WordsStep(s, p);
      ScanStep(WordsFrom(s, p));
      if NulIndex(s[p..p + 4]) < 4 {
        ScanHit(s, p);
      } else {
        ScanAt(s, p + 4);
        StrLenStep(s, p);
        ScanLater(s, p);
      }
    } else {
      ScanEnd(s);
    }
  }

  lemma ScanStep(ws: Words)
    requires ws.Cons?
    ensures NulIndex(Int4(ws.head)) < 4 ==> Scan(ws) == Some((Int4(ws.head)[..NulIndex(Int4(ws.head))], ws.tail))
    ensures NulIndex(Int4(ws.head)) == 4 && Scan(ws.tail) == None ==> Scan(ws) == None
    ensures NulIndex(Int4(ws.head)) == 4 && Scan(ws.tail).Some? ==>
              Scan(ws) == Some((Int4(ws.head) + Scan(ws.tail).value.0, Scan(ws.tail).value.1))
  {
  }

  lemma ScanEnd(s: seq<byte>)
    ensures StrLen(s, |s|) == 0 && Scan(WordsFrom(s, |s|)) == None
  {
  }

  lemma ScanHit(s: seq<byte>, p: nat)
    requires p + 4 <= |s| && NulIndex(s[p..p + 4]) < 4
    ensures StrLen(s, p) == NulIndex(s[p..p + 4]) && RoundUp(StrLen(s, p) + 1) == 4
    ensures s[p..p + 4][..StrLen(s, p)] == s[p..p + StrLen(s, p)]
  {
    var b := s[p..p + 4];
    var n := NulIndex(b);
    assert b[..n] == s[p..p + n] && s[p + n] == b[n];
    StrLenIs(s, p, n);
    RoundUpSmall(n + 1);
  }

  /** A word without a NUL only puts its bytes in front of what is found after it. */
  lemma ScanLater(s: seq<byte>, p: nat)
    requires p + 4 <= |s| && StrLen(s, p) == 4 + StrLen(s, p + 4)
    ensures RoundUp(StrLen(s, p) + 1) == 4 + RoundUp(StrLen(s, p + 4) + 1)
    ensures s[p..p + StrLen(s, p)] == s[p..p + 4] + s[p + 4..p + 4 + StrLen(s, p + 4)]
  {
    RoundUpStep(StrLen(s, p + 4) + 1);
  }

  lemma WordsStep(s: seq<byte>, p: nat)
    requires p + 4 <= |s|
    ensures WordsFrom(s, p) == Cons(WordOf(s[p..p + 4]), WordsFrom(s, p + 4))
    ensures Int4(WordsFrom(s, p).head) == s[p..p + 4]
  {
    Int4OfWord(s, p);
  }

  lemma StrLenStep(s: seq<byte>, p: nat)
    requires p + 4 <= |s| && NulIndex(s[p..p + 4]) == 4
    ensures StrLen(s, p) == 4 + StrLen(s, p + 4)
  {
    assert s[p..p + 4][..4] == s[p..p + 4];
    var m := StrLen(s, p + 4);
    assert s[p..p + 4 + m] == s[p..p + 4] + s[p + 4..p + 4 + m];
    StrLenIs(s, p, 4 + m);
  }

  lemma LongAt(s: seq<byte>, p: nat)
    requires p <= |s| && p % 4 == 0 && |s| % 4 == 0
    ensures p + 8 > |s| ==> GetLong(WordsFrom(s, p)) == (0, WordsFrom(s, p))
    ensures p + 8 <= |s| ==>
              GetLong(WordsFrom(s, p)) ==
              (WordOf(s[p..p + 4]) + 0x1_0000_0000 * WordOf(s[p + 4..p + 8]), WordsFrom(s, p + 8))
  {
    hide WordsFrom, WordOf;
    LengthOfWords(s, p);
    if p + 8 <= |s| {
      WordsStep(s, p);
      WordsStep(s, p + 4);
    }
  }

  lemma NoBlobAt(s: seq<byte>, p: nat)
    requires p + 4 > |s|
    ensures GetBlob(WordsFrom(s, p)) == (None, WordsFrom(s, p))
  {
  }

  lemma BlobAt(s: seq<byte>, p: nat)
    requires p + 4 <= |s| && p % 4 == 0 && |s| % 4 == 0
    ensures var size := Signed(WordOf(s[p..p + 4]));
            GetBlob(WordsFrom(s, p)) == if size <= 0 || p + 4 + size > |s| then (None, WordsFrom(s, p + 4))
                                        else (Some(s[p + 4..p + 4 + size]), WordsFrom(s, p + 4 + RoundUp(size)))
  {
    hide WordsFrom, WordOf, RoundUp, Unpack;
    WordsStep(s, p);
    LengthOfWords(s, p + 4);
    var size := Signed(WordOf(s[p..p + 4]));
    if 0 < size && p + 4 + size <= |s| {
      UnpackAt(s, p + 4, size);
    }
  }

  lemma StringAt(s: seq<byte>, p: nat)
    requires p <= |s| && p % 4 == 0 && |s| % 4 == 0
    ensures p + StrLen(s, p) == |s| ==> GetString(WordsFrom(s, p)) == (None, WordsFrom(s, p))
    ensures p + StrLen(s, p) < |s| ==>
              GetString(WordsFrom(s, p)) ==
              (Some(s[p..p + StrLen(s, p)]), WordsFrom(s, p + RoundUp(StrLen(s, p) + 1)))
  {
    hide RoundUp, StrLen, Scan, WordsFrom;
    ScanAt(s, p);
  }

  lemma RoundUpFits(s: seq<byte>, p: nat, n: nat)
    requires p % 4 == 0 && |s| % 4 == 0 && p + n <= |s|
    ensures p + RoundUp(n) <= |s|
  {
  }

  // ---------- The reader ----------

  class Reader {
    const file: seq<byte>
    const wsize: nat
    var curPtr: nat

    ghost predicate Valid()
      reads this
    {
      curPtr <= |file| && curPtr % 4 == 0 && |file| % 4 == 0 && (wsize == 4 || wsize == 8)
    }

    /** The words of the file that have not been read. */
    ghost function Rest(): Words
      reads this
    {
      WordsFrom(file, curPtr)
    }

    /** The part of iolib_init that opens a trace: the version is checked, the two
        minor versions are not, and the pointer size is taken from the header. */
    static method Open(file: seq<byte>) returns (r: Option<Reader>)
      requires |file| % 4 == 0
      ensures r.Some? ==> fresh(r.value) && r.value.Valid() && r.value.file == file && r.value.curPtr == 20
      ensures r.Some? <==> |file| >= 20 && file[..4] == Int4(TraceWriter.OPC_VERSION)
                           && (file[16..20] == Int4(4) || file[16..20] == Int4(8))
      ensures r.Some? ==> file[16..20] == Int4(r.value.wsize)
    {
      if |file| < 20 { return None; }
      LESurjective(file[..4]);
      LESurjective(file[16..20]);
      WordOfInt4(TraceWriter.OPC_VERSION);
      WordOfInt4(4);
      WordOfInt4(8);
      NumberIsFromLE(file[..4]);
      NumberIsFromLE(file[16..20]);
      var version, wsize := Number(file[..4]), Number(file[16..20]);
      if version != TraceWriter.OPC_VERSION || (wsize != 4 && wsize != 8) { return None; }
      var reader := new Reader(file, wsize);
      return Some(reader);
    }

    constructor (file: seq<byte>, wsize: nat)
      requires |file| % 4 == 0 && |file| >= 20 && (wsize == 4 || wsize == 8)
      ensures Valid() && this.file == file && this.wsize == wsize && curPtr == 20
    {
      this.file, this.wsize, curPtr := file, wsize, 20;
    }

    /** `*(int*)p` */
    function IntAt(p: nat): (w: word)
      requires p + 4 <= |file|
      ensures w == WordOf(file[p..p + 4])
    {
      NumberIsFromLE(file[p..p + 4]);
      Pow256Values();
      Number(file[p..p + 4])
    }

    method GetCmd() returns (cmd: word)
      requires Valid()
      modifies this
      ensures Valid() && curPtr >= old(curPtr)
      ensures (cmd, Rest()) == Trace.GetCmd(old(Rest()))
    {
      if curPtr + 4 > |file| { return OPC_EOF; }
      cmd := IntAt(curPtr);
      curPtr := curPtr + 4;
    }

    method GetInt() returns (val: word)
      requires Valid()
      modifies this
      ensures Valid() && curPtr >= old(curPtr)
      ensures (val, Rest()) == Stream.GetInt(old(Rest()))
    {
      if curPtr + 4 > |file| { return 0; }
      val := IntAt(curPtr);
      curPtr := curPtr + 4;
    }

    method GetLongLong() returns (val: quad)
      requires Valid()
      modifies this
      ensures Valid() && curPtr >= old(curPtr)
      ensures (val, Rest()) == Stream.GetLong(old(Rest()))
    {
      hide WordOf, WordsFrom, Stream.GetLong;
      LongAt(file, curPtr);
      if curPtr + 8 > |file| { return 0; }
      val := IntAt(curPtr) + 0x1_0000_0000 * IntAt(curPtr + 4);
      curPtr := curPtr + 8;
    }

    method GetPtr() returns (val: quad)
      requires Valid()
      modifies this
      ensures Valid() && curPtr >= old(curPtr)
      ensures (val, Rest()) == Stream.GetPtr(old(Rest()), wsize)
    {
      if wsize == 8 {
        val := GetLongLong();
      } else if curPtr + 4 > |file| {
        val := 0;
      } else {
        val := Widen(4, IntAt(curPtr));
        curPtr := curPtr + 4;
      }
    }

    method GetIntPtr() returns (val: Option<word>)
      requires Valid()
      modifies this
      ensures Valid() && curPtr >= old(curPtr)
      ensures (val, Rest()) == Stream.GetNullableInt(old(Rest()))
    {
      if curPtr + 4 > |file| { return None; }
      var v := IntAt(curPtr);
      curPtr := curPtr + 4;
      if v != MARKER { return Some(v); }
      v := GetInt();
      return if v == 0 then None else Some(v);
    }

    method GetFloatPtr() returns (val: Option<word>)
      requires Valid()
      modifies this
      ensures Valid() && curPtr >= old(curPtr)
      ensures (val, Rest()) == Stream.GetNullableFloat(old(Rest()))
    {
      if curPtr + 4 > |file| { return None; }
      var v := IntAt(curPtr);
      curPtr := curPtr + 4;
      if v != FLOAT_MARKER { return Some(v); }
      v := if curPtr + 4 > |file| then 0 else IntAt(curPtr);
      return if v == 0 || v == 0x8000_0000 then None else Some(v);
    }

    method GetString() returns (str: Option<seq<byte>>)
      requires Valid()
      modifies this
      ensures Valid() && curPtr >= old(curPtr)
      ensures (str, Rest()) == Stream.GetString(old(Rest()))
    {
      hide RoundUp, StrLen, WordsFrom, Stream.GetString;
      StringAt(file, curPtr);
      var len := 0;
      while curPtr + len < |file| && file[curPtr + len] != 0
        invariant curPtr + len <= |file| && 0 !in file[curPtr..curPtr + len]
      {
        len := len + 1;
        assert file[curPtr..curPtr + len] == file[curPtr..curPtr + len - 1] + [file[curPtr + len - 1]];
      }
      StrLenIs(file, curPtr, len);
      if curPtr + len + 1 > |file| { return None; }
      RoundUpFits(file, curPtr, len + 1);
      str := Some(file[curPtr..curPtr + len]);
      curPtr := curPtr + RoundUp(len + 1);
    }

    method GetBytes() returns (data: Option<seq<byte>>)
      requires Valid()
      modifies this
      ensures Valid() && curPtr >= old(curPtr)
      ensures (data, Rest()) == Stream.GetBlob(old(Rest()))
    {
      hide RoundUp, WordOf, WordsFrom, Stream.GetBlob, Signed;
      if curPtr + 4 > |file| {
        NoBlobAt(file, curPtr);
        return None;
      }
      BlobAt(file, curPtr);
      var size := Signed(IntAt(curPtr));
      curPtr := curPtr + 4;
      if size <= 0 || curPtr + size > |file| { return None; }
      RoundUpFits(file, curPtr, size);
      data := Some(file[curPtr..curPtr + size]);
      curPtr := curPtr + RoundUp(size);
    }
  }
}
