/** The trace as a list of 32-bit words.  Every primitive of tools/gltrace/iolib.c
    writes and reads whole words, so the bytes from an aligned cursor to the end
    of the file are a list of words: the Put functions say what a primitive puts
    in front of the rest of such a list, the Get functions what it takes off. */
module Stream {
  import opened Wire

  type Words = List<word>

  // ---------- Words and bytes ----------

  function BytesOf(ws: Words): (s: seq<byte>)
    ensures |s| == 4 * Length(ws)
  {
    if ws.Nil? then [] else Int4(ws.head) + BytesOf(ws.tail)
  }

  ghost function WordOf(s: seq<byte>): word
    requires |s| == 4
  {
    Pow256Values();
    FromLE(s)
  }

  lemma WordOfInt4(w: word)
    ensures WordOf(Int4(w)) == w
  {
    Pow256Values();
    LERoundTrip(w, 4);
  }

  /** The words of the file from position p on. */
  ghost function WordsFrom(s: seq<byte>, p: nat): (ws: Words)
    decreases |s| - p
  {
    if p + 4 > |s| then Nil else Cons(WordOf(s[p..p + 4]), WordsFrom(s, p + 4))
  }

  lemma {:induction false} WordsOfBytes(s: seq<byte>, p: nat, ws: Words)
    requires p <= |s| && s[p..] == BytesOf(ws)
    ensures WordsFrom(s, p) == ws
    decreases ws
  {
    if ws.Cons? {
      assert s[p..p + 4] == s[p..][..4] == Int4(ws.head);
      WordOfInt4(ws.head);
      assert s[p + 4..] == s[p..][4..] == BytesOf(ws.tail);
      WordsOfBytes(s, p + 4, ws.tail);
    }
  }

  /** The bytes d, filled up with zeros, in front of rest. */
  ghost function Pack(d: seq<byte>, rest: Words): Words
    decreases |d|
  {
    if |d| == 0 then rest
    else if |d| < 4 then Cons(WordOf(d + Zeros(4 - |d|)), rest)
    else Cons(WordOf(d[..4]), Pack(d[4..], rest))
  }

  lemma {:induction false} BytesOfPack(d: seq<byte>, rest: Words)
    ensures BytesOf(Pack(d, rest)) == Padded(d) + BytesOf(rest)
    decreases |d|
  {
    if |d| == 0 {
      assert Padded(d) == [];
    } else if |d| < 4 {
      assert d + Zeros(4 - |d|) == Padded(d);
    } else {
      BytesOfPack(d[4..], rest);
      PaddedStep(d);
      Assoc(d[..4], Padded(d[4..]), BytesOf(rest));
    }
  }

  lemma PaddedStep(d: seq<byte>)
    requires |d| >= 4
    ensures Padded(d) == d[..4] + Padded(d[4..])
  {
    assert PadLen(|d|) == PadLen(|d| - 4);
    assert d == d[..4] + d[4..];
    Assoc(d[..4], d[4..], Zeros(PadLen(|d|)));
  }

  /** The first n bytes of the words ws, and the words after those they occupy. */
  function Unpack(n: nat, ws: Words): (r: (seq<byte>, Words))
    requires n <= 4 * Length(ws)
    ensures |r.0| == n && Length(r.1) <= Length(ws)
    decreases ws
  {
    if n == 0 then ([], ws)
    else if n < 4 then (Int4(ws.head)[..n], ws.tail)
    else
      var (d, rest) := Unpack(n - 4, ws.tail);
      (Int4(ws.head) + d, rest)
  }

  lemma {:induction false} UnpackPack(d: seq<byte>, rest: Words)
    ensures |d| <= 4 * Length(Pack(d, rest))
    ensures Unpack(|d|, Pack(d, rest)) == (d, rest)
    decreases |d|
  {
    if |d| == 0 {
    } else if |d| < 4 {
      var e := d + Zeros(4 - |d|);
      assert LE(FromLE(e), 4)[..|d|] == e[..|d|] == d;
    } else {
      UnpackPack(d[4..], rest);
      assert d == d[..4] + d[4..];
    }
  }

  // ---------- What each primitive puts ----------

  function PutPtr(q: quad, wsize: nat, rest: Words): Words
    requires IsAddress(wsize, q)
  {
    if wsize == 4 then Cons(q, rest) else PutLong(q, rest)
  }

  function PutLong(q: quad, rest: Words): Words {
    Cons(q % 0x1_0000_0000, Cons(q / 0x1_0000_0000, rest))
  }

  ghost function PutString(s: Option<seq<byte>>, rest: Words): Words {
    if s.None? then Cons(0, rest) else Pack(s.value + [0], rest)
  }

  ghost function PutBlob(d: Option<seq<byte>>, rest: Words): Words
    requires d.Some? ==> |d.value| < 0x7fff_fff0
  {
    if d.None? then Cons(0, rest) else Cons(|d.value|, Pack(d.value, rest))
  }

  function PutNullable(v: Option<word>, marker: word, rest: Words): Words {
    match v
    case None => Cons(marker, Cons(0, rest))
    case Some(w) => if w == marker then Cons(marker, Cons(marker, rest)) else Cons(w, rest)
  }

  // The bytes of the words a primitive puts are the bytes it appends to the file.

  lemma BytesOfPtr(q: quad, wsize: nat, rest: Words)
    requires IsAddress(wsize, q)
    ensures BytesOf(PutPtr(q, wsize, rest)) == LE(q, wsize) + BytesOf(rest)
  {
    if wsize == 8 {
      BytesOfLong(q, rest);
    }
  }

  lemma BytesOfLong(q: quad, rest: Words)
    ensures BytesOf(PutLong(q, rest)) == Long8(q) + BytesOf(rest)
  {
    SplitLong(q);
    var lo, hi := q % 0x1_0000_0000, q / 0x1_0000_0000;
    assert BytesOf(PutLong(q, rest)) == Int4(lo) + (Int4(hi) + BytesOf(rest)) == (Int4(lo) + Int4(hi)) + BytesOf(rest);
  }

  lemma SplitLong(q: quad)
    ensures Long8(q) == Int4(q % 0x1_0000_0000) + Int4(q / 0x1_0000_0000)
  {
    var lo, hi := q % 0x1_0000_0000, q / 0x1_0000_0000;
    LEOfLow(q, lo, 4);
    LEAppend(q, 4, 4);
    var q3 := q / 256 / 256 / 256;
    assert q3 / 256 == hi;
    assert Shifted(q, 4) == Shifted(q / 256 / 256, 2) == Shifted(q3, 1) == Shifted(hi, 0);
  }

  function Shifted(v: nat, n: nat): nat {
    if n == 0 then v else Shifted(v / 256, n - 1)
  }

  lemma {:induction false} LEAppend(v: nat, m: nat, n: nat)
    ensures LE(v, m + n) == LE(v, m) + LE(Shifted(v, m), n)
    decreases m
  {
    if m > 0 {
      LEAppend(v / 256, m - 1, n);
      assert LE(v, m + n) == [v % 256] + LE(v / 256, m - 1 + n);
    } else {
      assert LE(v, 0) + LE(v, n) == LE(v, n);
    }
  }

  /** The four low bytes of v only depend on v modulo 256^4. */
  lemma LEOfLow(v: nat, lo: nat, n: nat)
    requires n == 4 && lo == v % 0x1_0000_0000
    ensures LE(v, n) == LE(lo, n)
  {
    var v1, v2, v3 := v / 256, v / 256 / 256, v / 256 / 256 / 256;
    var l1, l2, l3 := lo / 256, lo / 256 / 256, lo / 256 / 256 / 256;
    assert v == lo + 0x1_0000_0000 * (v / 0x1_0000_0000);
    assert v % 256 == lo % 256 && v1 == l1 + 0x100_0000 * (v / 0x1_0000_0000);
    assert v1 % 256 == l1 % 256 && v2 == l2 + 0x1_0000 * (v / 0x1_0000_0000);
    assert v2 % 256 == l2 % 256 && v3 == l3 + 0x100 * (v / 0x1_0000_0000);
    assert v3 % 256 == l3 % 256;
    assert LE(v3, 1) == LE(l3, 1);
    assert LE(v2, 2) == [v2 % 256] + LE(v3, 1) && LE(l2, 2) == [l2 % 256] + LE(l3, 1);
    assert LE(v1, 3) == [v1 % 256] + LE(v2, 2) && LE(l1, 3) == [l1 % 256] + LE(l2, 2);
  }

  lemma BytesOfString(s: Option<seq<byte>>, rest: Words)
    ensures BytesOf(PutString(s, rest)) == StringBytes(s) + BytesOf(rest)
  {
    if s.Some? {
      BytesOfPack(s.value + [0], rest);
    }
  }

  lemma BytesOfBlob(d: Option<seq<byte>>, rest: Words)
    requires d.Some? ==> |d.value| < 0x7fff_fff0
    ensures BytesOf(PutBlob(d, rest)) == BlobBytes(d) + BytesOf(rest)
  {
    if d.Some? {
      BytesOfPack(d.value, rest);
      Assoc(Int4(|d.value|), Padded(d.value), BytesOf(rest));
    }
  }

  lemma BytesOfNullable(v: Option<word>, marker: word, rest: Words)
    ensures BytesOf(PutNullable(v, marker, rest)) == NullableBytes(v, marker) + BytesOf(rest)
  {
    if v.None? || v.value == marker {
      var second := if v.None? then 0 else marker;
      assert BytesOf(Cons(marker, Cons(second, rest))) == Int4(marker) + (Int4(second) + BytesOf(rest));
      assert Int4(marker) + (Int4(second) + BytesOf(rest)) == (Int4(marker) + Int4(second)) + BytesOf(rest);
    }
  }

  // ---------- What each primitive gets ----------

  function GetInt(ws: Words): (r: (word, Words))
    ensures Length(r.1) <= Length(ws)
  {
    if ws.Nil? then (0, ws) else (ws.head, ws.tail)
  }

  function GetLong(ws: Words): (r: (quad, Words))
    ensures Length(r.1) <= Length(ws)
  {
    if ws.Nil? || ws.tail.Nil? then (0, ws)
    else (ws.head + 0x1_0000_0000 * ws.tail.head, ws.tail.tail)
  }

  function GetPtr(ws: Words, wsize: nat): (r: (quad, Words))
    ensures Length(r.1) <= Length(ws)
  {
    if wsize != 4 then GetLong(ws)
    else if ws.Nil? then (0, ws)
    else (Widen(4, ws.head), ws.tail)
  }

  function GetNullableInt(ws: Words): (r: (Option<word>, Words))
    ensures Length(r.1) <= Length(ws)
  {
    if ws.Nil? then (None, ws)
    else if ws.head != MARKER then (Some(ws.head), ws.tail)
    else
      var (val, rest) := GetInt(ws.tail);
      (if val == 0 then None else Some(val), rest)
  }

  /** getFloatPtr looks at the word after a marker without stepping over it. */
  function GetNullableFloat(ws: Words): (r: (Option<word>, Words))
    ensures Length(r.1) <= Length(ws)
  {
    if ws.Nil? then (None, ws)
    else if ws.head != FLOAT_MARKER then (Some(ws.head), ws.tail)
    else
      var val := GetInt(ws.tail).0;
      (if val == 0 || val == 0x8000_0000 then None else Some(val), ws.tail)
  }

  /** The number of bytes before the first NUL, or all of them. */
  function NulIndex(s: seq<byte>): (n: nat)
    ensures n <= |s|
    ensures 0 !in s[..n] && (n < |s| ==> s[n] == 0)
  {
    if |s| == 0 || s[0] == 0 then 0 else 1 + NulIndex(s[1..])
  }

  /** The bytes up to the first NUL, and the words after the one that holds it;
      None when there is no NUL. */
  function Scan(ws: Words): (r: Option<(seq<byte>, Words)>)
    ensures r.Some? ==> Length(r.value.1) <= Length(ws)
  {
    if ws.Nil? then None
    else
      var b := Int4(ws.head);
      if NulIndex(b) < 4 then Some((b[..NulIndex(b)], ws.tail))
      else
        var r := Scan(ws.tail);
        if r.None? then None else Some((b + r.value.0, r.value.1))
  }

  /** getString: None is its NULL result. */
  function GetString(ws: Words): (r: (Option<seq<byte>>, Words))
    ensures Length(r.1) <= Length(ws)
  {
    var r := Scan(ws);
    if r.None? then (None, ws) else (Some(r.value.0), r.value.1)
  }

  /** getBytes: None is its NULL result. */
  function GetBlob(ws: Words): (r: (Option<seq<byte>>, Words))
    ensures Length(r.1) <= Length(ws)
  {
    if ws.Nil? then (None, ws)
    else
      var size := Signed(ws.head);
      if size <= 0 || size > 4 * Length(ws.tail) then (None, ws.tail)
      else
        var (d, rest) := Unpack(size, ws.tail);
        (Some(d), rest)
  }

  // ---------- Each primitive gets what its counterpart put ----------

  lemma GetPutPtr(q: quad, wsize: nat, rest: Words)
    requires IsAddress(wsize, q)
    ensures GetPtr(PutPtr(q, wsize, rest), wsize) == (Widen(wsize, q), rest)
  {
  }

  lemma GetPutNullableInt(v: Option<word>, rest: Words)
    ensures GetNullableInt(PutNullable(v, MARKER, rest)) == (v, rest)
  {
  }

  /** A nullable float is consumed completely exactly when it is neither NULL nor
      the marker value; in both cases the value itself is delivered. */
  lemma GetPutNullableFloat(v: Option<word>, rest: Words)
    ensures GetNullableFloat(PutNullable(v, FLOAT_MARKER, rest)).0 == v
    ensures GetNullableFloat(PutNullable(v, FLOAT_MARKER, rest)).1 == rest <==> v.Some? && v.value != FLOAT_MARKER
  {
    assert Length(Cons(0, rest)) != Length(rest) && Length(Cons(FLOAT_MARKER, rest)) != Length(rest);
  }

  lemma {:induction false} NulIndexIs(s: seq<byte>, n: nat)
    requires n < |s| && 0 !in s[..n] && s[n] == 0
    ensures NulIndex(s) == n
    decreases n
  {
    if n > 0 {
      assert s[0] == s[..n][0] && s[1..][..n - 1] == s[..n][1..];
      NulIndexIs(s[1..], n - 1);
    }
  }

  lemma {:induction false} ScanPack(str: seq<byte>, rest: Words)
    requires 0 !in str
    ensures Scan(Pack(str + [0], rest)) == Some((str, rest))
    decreases |str|
  {
    var d := str + [0];
    if |d| < 4 {
      var b := d + Zeros(4 - |d|);
      assert b[..|str|] == str && b[|str|] == 0;
      NulIndexIs(b, |str|);
    } else if |d| == 4 {
      assert d[..4] == d && d[..3] == str;
      NulIndexIs(d, 3);
    } else {
      assert d[..4] == str[..4] && d[4..] == str[4..] + [0];
      assert NulIndex(str[..4]) == 4;
      ScanPack(str[4..], rest);
      assert str == str[..4] + str[4..];
    }
  }

  /** A NULL string reads back as the empty string. */
  lemma GetPutString(s: Option<seq<byte>>, rest: Words)
    requires s.Some? ==> IsCString(s.value)
    ensures GetString(PutString(s, rest)) == (Some(if s.None? then [] else s.value), rest)
  {
    if s.Some? {
      ScanPack(s.value, rest);
    } else {
      NulIndexIs(Int4(0), 0);
    }
  }

  /** NULL and the empty blob both read back as NULL. */
  lemma GetPutBlob(d: Option<seq<byte>>, rest: Words)
    requires d.Some? ==> |d.value| < 0x7fff_fff0
    ensures GetBlob(PutBlob(d, rest)) == (if d.None? || |d.value| == 0 then None else d, rest)
  {
    if d.Some? {
      UnpackPack(d.value, rest);
    }
  }
}
