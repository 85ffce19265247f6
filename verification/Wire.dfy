/** The bytes that the put* primitives of tools/gltrace/iolib.c append to the trace.

    Integers, floats and pointers are modelled by their bit patterns. */
module Wire {

  datatype Option<+T> = None | Some(value: T)
  datatype List<+T> = Nil | Cons(head: T, tail: List<T>)

  function Repeat<T>(x: T, n: nat): (s: seq<T>)
    ensures |s| == n && forall i :: 0 <= i < n ==> s[i] == x
  {
    seq(n, _ => x)
  }

  function Length<T>(xs: List<T>): nat {
    if xs.Nil? then 0 else 1 + Length(xs.tail)
  }

  type byte = b: int | 0 <= b < 256
  type word = w: int | 0 <= w < 0x1_0000_0000
  type quad = q: int | 0 <= q < 0x1_0000_0000_0000_0000

  const MARKER: word := 0xdeadbead
  /** The bit pattern of (float)MARKER, which is MARKER rounded to 24 significant bits. */
  const FLOAT_MARKER: word := 0x4f5eadbf

  // ---------- Integers ----------

  /** The value a C `int` has when its bits are w. */
  function Signed(w: word): int {
    if w < 0x8000_0000 then w else w - 0x1_0000_0000
  }

  /** The n low bytes of v, least significant first. */
  function LE(v: nat, n: nat): (s: seq<byte>)
    ensures |s| == n
  {
    if n == 0 then [] else [v % 256] + LE(v / 256, n - 1)
  }

  function Pow256(n: nat): nat {
    if n == 0 then 1 else 256 * Pow256(n - 1)
  }

  lemma Pow256Values()
    ensures Pow256(4) == 0x1_0000_0000
    ensures Pow256(8) == 0x1_0000_0000_0000_0000
  {
    assert Pow256(2) == 0x1_0000;
    assert Pow256(4) == 256 * (256 * Pow256(2));
    assert Pow256(6) == 256 * (256 * Pow256(4));
  }

  /** The number whose low bytes are s. */
  ghost function FromLE(s: seq<byte>): (v: nat)
    ensures v < Pow256(|s|) && LE(v, |s|) == s
  {
    LESurjective(s);
    var v: nat :| v < Pow256(|s|) && LE(v, |s|) == s;
    v
  }

  /** The same number, computed. */
  function Number(s: seq<byte>): nat {
    if |s| == 0 then 0 else s[0] + 256 * Number(s[1..])
  }

  lemma {:induction false} LESurjective(s: seq<byte>)
    ensures Number(s) < Pow256(|s|) && LE(Number(s), |s|) == s
    decreases |s|
  {
    if |s| > 0 {
      LESurjective(s[1..]);
    }
  }

  lemma {:induction false} LEInjective(v: nat, w: nat, n: nat)
    requires v < Pow256(n) && w < Pow256(n) && LE(v, n) == LE(w, n)
    ensures v == w
  {
    if n > 0 {
      assert LE(v, n)[0] == v % 256 && LE(w, n)[0] == w % 256;
      assert LE(v, n)[1..] == LE(v / 256, n - 1) && LE(w, n)[1..] == LE(w / 256, n - 1);
      LEInjective(v / 256, w / 256, n - 1);
    }
  }

  lemma LERoundTrip(v: nat, n: nat)
    requires v < Pow256(n)
    ensures FromLE(LE(v, n)) == v
  {
    LEInjective(FromLE(LE(v, n)), v, n);
  }

  lemma NumberIsFromLE(s: seq<byte>)
    ensures Number(s) == FromLE(s)
  {
    LESurjective(s);
    LEInjective(Number(s), FromLE(s), |s|);
  }

  function Int4(w: word): (s: seq<byte>)
    ensures |s| == 4
  {
    LE(w, 4)
  }

  function Long8(q: quad): (s: seq<byte>)
    ensures |s| == 8
  {
    LE(q, 8)
  }

  // ---------- Pointers ----------

  /** The value getPtr delivers for the address p of a machine whose pointers are
      wsize bytes wide: four-byte pointers are read as signed. */
  function Widen(wsize: nat, p: quad): quad {
    if wsize == 4 then
      var low := p % 0x1_0000_0000;
      if low < 0x8000_0000 then low else low + 0xffff_ffff_0000_0000
    else p
  }

  /** p is an address of a machine with wsize-byte pointers. */
  predicate IsAddress(wsize: nat, p: quad) {
    && (wsize == 4 || wsize == 8)
    && (wsize == 4 ==> p < 0x1_0000_0000)
  }

  /** A pointer survives the trace unchanged exactly when it is eight bytes wide or
      lies in the lower half of a four-byte address space; its low four bytes
      always survive. */
  lemma WidenIsExact(wsize: nat, p: quad)
    requires IsAddress(wsize, p)
    ensures Widen(wsize, p) == p <==> wsize == 8 || p < 0x8000_0000
    ensures Widen(wsize, p) % 0x1_0000_0000 == p % 0x1_0000_0000
    ensures Widen(wsize, p) == 0 <==> p == 0
  {
  }

  lemma WidenInjective(wsize: nat, p: quad, q: quad)
    requires IsAddress(wsize, p) && IsAddress(wsize, q)
    ensures Widen(wsize, p) == Widen(wsize, q) <==> p == q
  {
    WidenIsExact(wsize, p);
    WidenIsExact(wsize, q);
  }

  // ---------- Padding, strings, blobs, nullable words ----------

  /** The number of zero bytes that bring a length n up to a multiple of four. */
  function PadLen(n: nat): (k: nat)
    ensures k < 4 && (n + k) % 4 == 0
  {
    if n % 4 == 0 then 0 else 4 - n % 4
  }

  function Zeros(n: nat): (s: seq<byte>)
    ensures |s| == n && forall i :: 0 <= i < n ==> s[i] == 0
  {
    seq(n, _ => 0)
  }

  lemma ZeroSuffix(s: seq<byte>, k: nat)
    requires k <= |s| && forall i :: k <= i < |s| ==> s[i] == 0
    ensures s == s[..k] + Zeros(|s| - k)
  {
  }

  function Padded(s: seq<byte>): (r: seq<byte>)
    ensures |r| % 4 == 0 && s <= r
  {
    s + Zeros(PadLen(|s|))
  }

  /** A C string: no NUL among its characters. */
  predicate IsCString(s: seq<byte>) {
    |s| < 0x7fff_fff0 && 0 !in s
  }

  function StringBytes(s: Option<seq<byte>>): (r: seq<byte>)
    ensures |r| % 4 == 0
  {
    match s
    case None => Int4(0)
    case Some(str) => Padded(str + [0])
  }

  /** What putBytes(data, size) writes; data holds the size bytes it may read. */
  function BlobBytes(data: Option<seq<byte>>): (r: seq<byte>)
    requires data.Some? ==> |data.value| < 0x7fff_fff0
    ensures |r| % 4 == 0
  {
    match data
    case None => Int4(0)
    case Some(d) => Int4(|d|) + Padded(d)
  }

  function NullableBytes(v: Option<word>, marker: word): (r: seq<byte>)
    ensures |r| % 4 == 0
  {
    match v
    case None => Int4(marker) + Int4(0)
    case Some(w) => if w == marker then Int4(marker) + Int4(marker) else Int4(w)
  }

  lemma Assoc(a: seq<byte>, b: seq<byte>, c: seq<byte>)
    ensures (a + b) + c == a + (b + c)
  {
  }
}
