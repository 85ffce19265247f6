/** The fallback of glEnum2str and eglEnum2str: the value in hexadecimal, in a buffer of 1024 bytes
    that is used from front to end over and over. */
module EnumStrings {
  import opened Wire
  import opened Numerals

  const SIZE := 1024
  const NUL: char := 0 as char

  /** What snprintf writes for a value, with the final NUL. */
  function Text(val: nat): (s: string)
    ensures |s| >= 4
  {
    "0x" + Numeral(val, 16) + [NUL]
  }

  lemma TextLength(val: nat)
    requires val < 0x1_0000_0000
    ensures |Text(val)| <= 11
  {
    assert Power16(8) == 0x1_0000_0000 by { Power16Of8(); }
    HexLength(val, 8);
  }

  lemma Power16Of8()
    ensures Power16(8) == 0x1_0000_0000
  {
    assert Power16(4) == 0x1_0000;
  }

  datatype Ring = Ring(buf: seq<char>, ptr: nat)

  predicate IsRing(r: Ring) {
    |r.buf| == SIZE && r.ptr <= SIZE
  }

  predicate IsEnum(val: nat) {
    val < 0x1_0000_0000
  }

  /** Where the next text goes. */
  function Start(ptr: nat): nat {
    if ptr + 16 > SIZE then 0 else ptr
  }

  function Put(r: Ring, val: nat): (q: Ring)
    requires IsRing(r) && IsEnum(val)
    ensures IsRing(q)
  {
    TextLength(val);
    var at, s := Start(r.ptr), Text(val);
    Ring(r.buf[..at] + s + r.buf[at + |s|..], at + |s|)
  }

  function PutAll(r: Ring, vals: seq<nat>): (q: Ring)
    requires IsRing(r) && forall i :: 0 <= i < |vals| ==> IsEnum(vals[i])
    ensures IsRing(q)
  {
    if |vals| == 0 then r else Put(PutAll(r, vals[..|vals| - 1]), vals[|vals| - 1])
  }

  predicate Holds(r: Ring, at: nat, s: string) {
    at + |s| <= |r.buf| && r.buf[at..at + |s|] == s
  }

  class EnumText {
    const buf: array<char>
    var ptr: nat

    constructor ()
      ensures Valid() && ptr == 0 && fresh(buf)
    {
      buf := new char[SIZE](i => NUL);
      ptr := 0;
    }

    ghost predicate Valid()
      reads this, buf
    {
      buf.Length == SIZE && ptr <= SIZE
    }

    ghost function Contents(): Ring
      reads this, buf
    {
      Ring(buf[..], ptr)
    }

    /** The result is the place of the text in the buffer. */
    method Fallback(val: nat) returns (res: nat)
      requires Valid() && IsEnum(val)
      modifies this`ptr, buf
      ensures Valid() && Contents() == Put(old(Contents()), val)
      ensures Holds(Contents(), res, Text(val)) && res + |Text(val)| == ptr
    {
      TextLength(val);
      if ptr + 16 > SIZE {
        ptr := 0;
      }
      res := ptr;
      Snprintf(res, val);
      var length := Strlen(res, val);
      ptr := ptr + length + 1;
    }

    method Snprintf(at: nat, val: nat)
      requires buf.Length == SIZE && at + |Text(val)| <= SIZE
      modifies buf
      ensures buf[..] == old(buf[..])[..at] + Text(val) + old(buf[..])[at + |Text(val)|..]
    {
      var s := Text(val);
      ghost var was := buf[..];
      for i := 0 to |s|
        invariant buf[..] == was[..at] + s[..i] + was[at + i..]
      {
        buf[at + i] := s[i];
        assert s[..i + 1] == s[..i] + [s[i]];
      }
      assert s[..|s|] == s;
    }

    method Strlen(at: nat, ghost val: nat) returns (n: nat)
      requires buf.Length == SIZE && at + |Text(val)| <= SIZE && buf[at..at + |Text(val)|] == Text(val)
      ensures n == |Text(val)| - 1
    {
      ghost var s := Text(val);
      OnlyFinalNul(val);
      ghost var stored := buf[at..at + |s|];
      n := 0;
      while buf[at + n] != NUL
        invariant 0 <= n < |s|
        decreases |s| - n
      {
        assert stored[n] == s[n];
        n := n + 1;
      }
      assert stored[n] == s[n];
    }
  }

  lemma OnlyFinalNul(val: nat)
    ensures Text(val)[|Text(val)| - 1] == NUL
    ensures forall i :: 0 <= i < |Text(val)| - 1 ==> Text(val)[i] != NUL
  {
    NumeralIsRead(val, 16);
    assert DigitValue(NUL, 16).None?;
  }

  // ---------- How long a text lives ----------

  /** k calls after a text of the given length was put at `at`: the writing position has not come
      round yet, or it has and is still below the text. */
  predicate Ahead(ptr: nat, at: nat, length: nat, k: nat) {
    || at + length <= ptr <= at + length + 11 * k
    || ptr + 998 <= at + 11 * k
  }

  lemma PutMisses(r: Ring, val: nat, at: nat, s: string, k: nat)
    requires IsRing(r) && IsEnum(val)
    requires at <= SIZE - 16 && |s| <= 11
    requires k < 90 && Ahead(r.ptr, at, |s|, k) && Holds(r, at, s)
    ensures Ahead(Put(r, val).ptr, at, |s|, k + 1) && Holds(Put(r, val), at, s)
  {
    hide Text;
    TextLength(val);
    var from, t := Start(r.ptr), Text(val);
    Elsewhere(r.ptr, |t|, at, |s|, k);
    SliceStays(r.buf, from, t, at, |s|);
  }

  /** The next text goes before or behind the one that is to live, and stays ahead. */
  lemma Elsewhere(ptr: nat, length: nat, at: nat, size: nat, k: nat)
    requires ptr <= SIZE && 4 <= length <= 11 && at <= SIZE - 16 && size <= 11
    requires k < 90 && Ahead(ptr, at, size, k)
    ensures Start(ptr) + length <= at || at + size <= Start(ptr)
    ensures Start(ptr) + length <= SIZE && Ahead(Start(ptr) + length, at, size, k + 1)
  {
  }

  /** What is written beside a slice does not change it. */
  lemma SliceStays(buf: seq<char>, from: nat, t: string, at: nat, n: nat)
    requires from + |t| <= |buf| && at + n <= |buf|
    requires from + |t| <= at || at + n <= from
    ensures (buf[..from] + t + buf[from + |t|..])[at..at + n] == buf[at..at + n]
  {
    var all := buf[..from] + t + buf[from + |t|..];
    assert |all| == |buf|;
    assert forall i :: at <= i < at + n ==> all[i] == buf[i];
  }

  lemma {:induction false} LivesFor(r: Ring, vals: seq<nat>, at: nat, s: string)
    requires IsRing(r) && forall i :: 0 <= i < |vals| ==> IsEnum(vals[i])
    requires at <= SIZE - 16 && |s| <= 11 && r.ptr == at + |s| && Holds(r, at, s)
    requires |vals| <= 90
    ensures Ahead(PutAll(r, vals).ptr, at, |s|, |vals|) && Holds(PutAll(r, vals), at, s)
    decreases |vals|
  {
    hide Put, Holds;
    if |vals| > 0 {
      var n := |vals| - 1;
      LivesFor(r, vals[..n], at, s);
      PutMisses(PutAll(r, vals[..n]), vals[n], at, s, n);
    }
  }

  /** A text that was put stays inside the buffer, and through any 90 further calls. */
  lemma Lifetime(r: Ring, val: nat, vals: seq<nat>)
    requires IsRing(r) && IsEnum(val) && forall i :: 0 <= i < |vals| ==> IsEnum(vals[i])
    requires |vals| <= 90
    ensures Holds(Put(r, val), Start(r.ptr), Text(val))
    ensures Holds(PutAll(Put(r, val), vals), Start(r.ptr), Text(val))
  {
    TextLength(val);
    LivesFor(Put(r, val), vals, Start(r.ptr), Text(val));
  }

  // ---------- No longer than that ----------

  const LONG: nat := 0xffff_ffff

  lemma LongText()
    ensures |Text(LONG)| == 11 && Text(LONG)[8] != NUL && Text(LONG)[0] == '0' && Text(LONG)[1] == 'x'
  {
    LongNumeral(LONG, 8);
  }

  lemma {:induction false} LongNumeral(n: nat, k: nat)
    requires k > 0 && n == Power16(k) - 1
    ensures |Numeral(n, 16)| == k && forall i :: 0 <= i < k ==> Numeral(n, 16)[i] == 'f'
    decreases k
  {
    if k > 1 {
      assert n / 16 == Power16(k - 1) - 1 && n % 16 == 15;
      LongNumeral(n / 16, k - 1);
    }
  }

  lemma {:induction false} ManyLong(r: Ring, n: nat)
    requires IsRing(r) && r.ptr + 11 * n <= SIZE - 16 + 11
    ensures PutAll(r, Repeat(LONG, n)).ptr == r.ptr + 11 * n
    decreases n
  {
    hide Text;
    if n > 0 {
      LongText();
      assert Repeat(LONG, n)[..n - 1] == Repeat(LONG, n - 1);
      ManyLong(r, n - 1);
    }
  }

  /** After two short texts, as early as that, 91 further calls can destroy a text: the bound is exact. */
  lemma BoundIsExact(buf: seq<char>)
    requires |buf| == SIZE
    ensures exists vals: seq<nat> :: |vals| == 91 && (forall i :: 0 <= i < |vals| ==> IsEnum(vals[i])) &&
              var r := Put(Put(Ring(buf, 0), 0), 0);
              !Holds(PutAll(Put(r, LONG), vals), Start(r.ptr), Text(LONG))
  {
    hide Holds, Put;
    LongText();
    PutAt(Ring(buf, 0), 0);
    PutAt(Put(Ring(buf, 0), 0), 0);
    assert |Text(0)| == 4;
    var early := Put(Put(Ring(buf, 0), 0), 0);
    assert early.ptr == 8;
    var vals: seq<nat> := Repeat(LONG, 91);
    Destroyed(early);
    assert |vals| == 91 && !Holds(PutAll(Put(early, LONG), vals), Start(early.ptr), Text(LONG));
  }

  lemma Destroyed(early: Ring)
    requires IsRing(early) && early.ptr == 8
    ensures !Holds(PutAll(Put(early, LONG), Repeat(LONG, 91)), 8, Text(LONG))
  {
    hide Text, Holds, Put;
    LongText();
    var r := Put(early, LONG);
    PutAt(early, LONG);
    ManyLong(r, 90);
    var q := PutAll(r, Repeat(LONG, 90));
    assert q.ptr == 19 + 990;
    assert Repeat(LONG, 91)[..90] == Repeat(LONG, 90);
    PutAt(q, LONG);
    var last := Put(q, LONG);
    assert last.buf[Start(q.ptr) + 8] == Text(LONG)[8];
    NotBoth(last);
  }

  lemma PutAt(r: Ring, val: nat)
    requires IsRing(r) && IsEnum(val)
    ensures Put(r, val).ptr == Start(r.ptr) + |Text(val)|
    ensures Start(r.ptr) + |Text(val)| <= |Put(r, val).buf|
    ensures forall i :: 0 <= i < |Text(val)| ==> Put(r, val).buf[Start(r.ptr) + i] == Text(val)[i]
  {
    hide Text;
  }

  lemma NotBoth(r: Ring)
    requires IsRing(r) && |Text(LONG)| == 11 && r.buf[8] == Text(LONG)[8]
    ensures !Holds(r, 8, Text(LONG))
  {
    LongNumeral(LONG, 8);
    Power16Of8();
    assert r.buf[8] == r.buf[8..8 + 11][0];
  }
}
