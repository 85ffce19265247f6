/** Records of the trace: the words the recorder writes for a command, the
    decoder of one record, and the theorem that decoding undoes encoding. */
module Records {
  import opened Wire
  import opened Stream
  import opened Opcodes

  const MAX_VERTEX_ATTRIBS: nat := 128
  /** The capacity of the replayer's attrib_list arrays. */
  const ATTRIB_CAPACITY: nat := 64

  // ---------- Fields ----------

  datatype Value =
    | Int(w: word)
    | Flag(b: byte)
    | Ptr(p: quad)
    | Str(s: Option<seq<byte>>)
    | Blob(d: Option<seq<byte>>)
    | NoBytes(size: word)            // putBytes with a negative size
    | NullableInt(v: Option<word>)
    | NullableFloat(v: Option<word>)

  function KindOf(v: Value): Kind {
    match v
    case Int(_) => I
    case Flag(_) => Z
    case Ptr(_) => P
    case Str(_) => S
    case Blob(_) => B
    case NoBytes(_) => B
    case NullableInt(_) => N
    case NullableFloat(_) => F
  }

  function Kinds(vs: List<Value>): List<Kind> {
    if vs.Nil? then Nil else Cons(KindOf(vs.head), Kinds(vs.tail))
  }

  /** A value that C code can hand to the matching put primitive. */
  predicate IsValue(v: Value, wsize: nat) {
    match v
    case Ptr(p) => IsAddress(wsize, p)
    case Str(s) => s.Some? ==> IsCString(s.value)
    case Blob(d) => d.Some? ==> |d.value| < 0x7fff_fff0
    case NoBytes(size) => Signed(size) < 0
    case _ => true
  }

  /** The get primitive takes everything that the put primitive wrote. */
  predicate Exact(v: Value) {
    v.NullableFloat? ==> v.v.Some? && v.v.value != FLOAT_MARKER
  }

  ghost function PutValue(v: Value, wsize: nat, rest: Words): Words
    requires IsValue(v, wsize)
  {
    match v
    case Int(w) => Cons(w, rest)
    case Flag(b) => Cons(b, rest)
    case Ptr(p) => PutPtr(p, wsize, rest)
    case Str(s) => PutString(s, rest)
    case Blob(d) => PutBlob(d, rest)
    case NoBytes(size) => Cons(size, rest)
    case NullableInt(w) => PutNullable(w, MARKER, rest)
    case NullableFloat(w) => PutNullable(w, FLOAT_MARKER, rest)
  }

  /** What the replayer gets to see of a value. */
  function Canon(v: Value, wsize: nat): Value {
    match v
    case Ptr(p) => Ptr(Widen(wsize, p))
    case Str(s) => Str(Some(if s.None? then [] else s.value))
    case Blob(d) => Blob(if d.None? || |d.value| == 0 then None else d)
    case NoBytes(_) => Blob(None)
    case _ => v
  }

  function GetValue(ws: Words, k: Kind, wsize: nat): (r: (Value, Words))
    ensures Length(r.1) <= Length(ws)
  {
    match k
    case I => var (w, rest) := GetInt(ws); (Int(w), rest)
    case Z => var (w, rest) := GetInt(ws); (Flag(w % 256), rest)
    case P => var (p, rest) := GetPtr(ws, wsize); (Ptr(p), rest)
    case S => var (s, rest) := GetString(ws); (Str(s), rest)
    case B => var (d, rest) := GetBlob(ws); (Blob(d), rest)
    case N => var (v, rest) := GetNullableInt(ws); (NullableInt(v), rest)
    case F => var (v, rest) := GetNullableFloat(ws); (NullableFloat(v), rest)
  }

  lemma GetPutValue(v: Value, wsize: nat, rest: Words)
    requires IsValue(v, wsize)
    ensures GetValue(PutValue(v, wsize, rest), KindOf(v), wsize).0 == Canon(v, wsize)
    ensures GetValue(PutValue(v, wsize, rest), KindOf(v), wsize).1 == rest <==> Exact(v)
  {
    match v
    case Int(_) =>
    case Flag(_) =>
    case Ptr(p) => GetPutPtr(p, wsize, rest);
    case Str(s) => GetPutString(s, rest);
    case Blob(d) => GetPutBlob(d, rest);
    case NoBytes(_) =>
    case NullableInt(w) => GetPutNullableInt(w, rest);
    case NullableFloat(w) => GetPutNullableFloat(w, rest);
  }

  predicate AreValues(vs: List<Value>, wsize: nat) {
    vs.Cons? ==> IsValue(vs.head, wsize) && AreValues(vs.tail, wsize)
  }

  predicate AllExact(vs: List<Value>) {
    vs.Cons? ==> Exact(vs.head) && AllExact(vs.tail)
  }

  ghost function PutValues(vs: List<Value>, wsize: nat, rest: Words): Words
    requires AreValues(vs, wsize)
  {
    if vs.Nil? then rest else PutValue(vs.head, wsize, PutValues(vs.tail, wsize, rest))
  }

  function CanonValues(vs: List<Value>, wsize: nat): List<Value> {
    if vs.Nil? then Nil else Cons(Canon(vs.head, wsize), CanonValues(vs.tail, wsize))
  }

  function GetValues(ws: Words, ks: List<Kind>, wsize: nat): (r: (List<Value>, Words))
    ensures Length(r.1) <= Length(ws)
    decreases ks
  {
    if ks.Nil? then (Nil, ws)
    else
      var (v, ws1) := GetValue(ws, ks.head, wsize);
      var (vs, ws2) := GetValues(ws1, ks.tail, wsize);
      (Cons(v, vs), ws2)
  }

  lemma {:induction false} GetPutValues(vs: List<Value>, wsize: nat, rest: Words)
    requires AreValues(vs, wsize) && AllExact(vs)
    ensures GetValues(PutValues(vs, wsize, rest), Kinds(vs), wsize) == (CanonValues(vs, wsize), rest)
    decreases vs
  {
    if vs.Cons? {
      GetPutValue(vs.head, wsize, PutValues(vs.tail, wsize, rest));
      GetPutValues(vs.tail, wsize, rest);
    }
  }

  // ---------- Records ----------

  /** One string of glShaderSource with the length word written before it. */
  datatype Source = Source(len: word, text: Option<seq<byte>>)

  datatype Record =
    | Plain(op: word, args: List<Value>)
    | Ids(op: word, ids: List<word>)
    | Sources(shader: word, sources: List<Source>)
    | Attribs(op: word, handles: List<Value>, attribs: List<(word, word)>, res: quad)
    | Choose(dpy: quad, attribs: List<(word, word)>, size: word, num: word, configs: List<quad>, ok: word)
    | Draw(mode: word, count: word, typ: word, index: Value, arrays: List<(nat, Value)>)

  function OpcodeOf(r: Record): word {
    match r
    case Plain(op, _) => op
    case Ids(op, _) => op
    case Sources(_, _) => GL_SHADER_SOURCE
    case Attribs(op, _, _, _) => op
    case Choose(_, _, _, _, _, _) => EGL_CHOOSE_CONFIG
    case Draw(_, _, _, _, _) => GL_DRAW_ELEMENTS
  }

  /** The enabled attributes from index i on, in ascending order. */
  function EnabledFrom(enabled: seq<bool>, i: nat): List<nat>
    requires i <= |enabled|
    decreases |enabled| - i
  {
    if i == |enabled| then Nil
    else if enabled[i] then Cons(i, EnabledFrom(enabled, i + 1))
    else EnabledFrom(enabled, i + 1)
  }

  /** The last glVertexAttribPointer of an array, as far as the replayer keeps it. */
  datatype Format = Format(size: word, typ: word, normalized: byte)

  /** What the layout of a draw record depends on, and how its arrays are to be read. */
  datatype Bindings = Bindings(arrayBuffer: word, elementBuffer: word, enabled: seq<bool>, formats: seq<Format>)

  /** The attributes whose client-side arrays a draw record carries. */
  function DrawnArrays(b: Bindings): List<nat> {
    if b.arrayBuffer == 0 then EnabledFrom(b.enabled, 0) else Nil
  }

  predicate IsSource(src: Source) {
    src.text.Some? ==> if Signed(src.len) > 0 then |src.text.value| < 0x7fff_fff0 else IsCString(src.text.value)
  }

  predicate AreSources(sources: List<Source>) {
    sources.Cons? ==> IsSource(sources.head) && AreSources(sources.tail)
  }

  predicate AreAttribs(attribs: List<(word, word)>) {
    attribs.Cons? ==> attribs.head.0 != EGL_NONE && AreAttribs(attribs.tail)
  }

  predicate AreAddresses(ps: List<quad>, wsize: nat) {
    ps.Cons? ==> IsAddress(wsize, ps.head) && AreAddresses(ps.tail, wsize)
  }

  /** How many configurations eglChooseConfig delivers. */
  function ConfigCount(num: word, size: word): nat {
    var n := if Signed(num) < Signed(size) then Signed(num) else Signed(size);
    if n < 0 then 0 else n
  }

  /** One blob for each of the given attributes, in their order. */
  predicate AreArrays(arrays: List<(nat, Value)>, indices: List<nat>, wsize: nat) {
    if arrays.Nil? || indices.Nil? then arrays.Nil? && indices.Nil?
    else
      && arrays.head.0 == indices.head && arrays.head.1.Blob? && IsValue(arrays.head.1, wsize)
      && AreArrays(arrays.tail, indices.tail, wsize)
  }

  /** r is a record the recorder can write while the bindings are b. */
  predicate IsRecord(r: Record, b: Bindings, wsize: nat) {
    match r
    case Plain(op, args) => PutShape(op) == Some(Kinds(args)) && AreValues(args, wsize)
    case Ids(op, ids) => IsCounted(op) && Length(ids) < 0x8000_0000
    case Sources(_, sources) => Length(sources) < 0x8000_0000 && AreSources(sources)
    case Attribs(op, handles, attribs, res) =>
      && HasAttribs(op) && AreValues(handles, wsize) && Kinds(handles) == P3 && IsAddress(wsize, res)
      && AreAttribs(attribs)
    case Choose(dpy, attribs, size, num, configs, _) =>
      && IsAddress(wsize, dpy) && AreAttribs(attribs)
      && AreAddresses(configs, wsize) && Length(configs) == ConfigCount(num, size)
    case Draw(_, _, _, index, arrays) =>
      && IsValue(index, wsize) && KindOf(index) == (if b.elementBuffer != 0 then P else B)
      && AreArrays(arrays, DrawnArrays(b), wsize)
  }

  function PutIds(ids: List<word>, rest: Words): Words {
    if ids.Nil? then rest else Cons(ids.head, PutIds(ids.tail, rest))
  }

  /** A shader string goes out as a blob when its length is positive, else as a C string. */
  ghost function PutSource(src: Source, rest: Words): Words
    requires IsSource(src)
  {
    Cons(src.len, if Signed(src.len) > 0 then PutBlob(src.text, rest) else PutString(src.text, rest))
  }

  ghost function PutSources(sources: List<Source>, rest: Words): Words
    requires AreSources(sources)
  {
    if sources.Nil? then rest else PutSource(sources.head, PutSources(sources.tail, rest))
  }

  function PutAttribs(attribs: List<(word, word)>, rest: Words): Words {
    if attribs.Nil? then Cons(EGL_NONE, rest)
    else Cons(attribs.head.0, Cons(attribs.head.1, PutAttribs(attribs.tail, rest)))
  }

  function PutPtrs(ps: List<quad>, wsize: nat, rest: Words): Words
    requires AreAddresses(ps, wsize)
  {
    if ps.Nil? then rest else PutPtr(ps.head, wsize, PutPtrs(ps.tail, wsize, rest))
  }

  ghost function PutArrays(arrays: List<(nat, Value)>, indices: List<nat>, wsize: nat, rest: Words): Words
    requires AreArrays(arrays, indices, wsize)
    decreases arrays
  {
    if arrays.Nil? then rest
    else PutValue(arrays.head.1, wsize, PutArrays(arrays.tail, indices.tail, wsize, rest))
  }

  /** The words between a record's opcode and its time stamps. */
  ghost function PutBody(r: Record, b: Bindings, wsize: nat, rest: Words): Words
    requires IsRecord(r, b, wsize)
  {
    match r
    case Plain(_, args) => PutValues(args, wsize, rest)
    case Ids(_, ids) => Cons(Length(ids), PutIds(ids, rest))
    case Sources(shader, sources) => Cons(shader, Cons(Length(sources), PutSources(sources, rest)))
    case Attribs(_, handles, attribs, res) =>
      PutValues(handles, wsize, PutAttribs(attribs, PutPtr(res, wsize, rest)))
    case Choose(dpy, attribs, size, num, configs, ok) =>
      PutPtr(dpy, wsize, PutAttribs(attribs, Cons(size, Cons(num, PutPtrs(configs, wsize, Cons(ok, rest))))))
    case Draw(mode, count, typ, index, arrays) =>
      Cons(mode, Cons(count, Cons(typ,
        PutValue(index, wsize, PutArrays(arrays, DrawnArrays(b), wsize, rest)))))
  }

  // ---------- Decoding ----------

  datatype Decoded =
    | Done(rec: Record, rest: Words)
    | NotImplemented(op: word)
    | TooManyAttributes
    | LeftOut(op: word)              // a command that this model does not follow

  function GetIds(ws: Words, n: nat): (r: (List<word>, Words))
    ensures Length(r.1) <= Length(ws)
    decreases n
  {
    if n == 0 then (Nil, ws)
    else
      var (w, ws1) := GetInt(ws);
      var (ids, ws2) := GetIds(ws1, n - 1);
      (Cons(w, ids), ws2)
  }

  function GetSource(ws: Words): (r: (Source, Words))
    ensures Length(r.1) <= Length(ws)
  {
    var (len, ws1) := GetInt(ws);
    if Signed(len) > 0 then
      var (text, ws2) := GetBlob(ws1);
      (Source(len, text), ws2)
    else
      var (text, ws2) := GetString(ws1);
      (Source(0xffffffff, text), ws2)
  }

  function GetSources(ws: Words, n: nat): (r: (List<Source>, Words))
    ensures Length(r.1) <= Length(ws)
    decreases n
  {
    if n == 0 then (Nil, ws)
    else
      var (src, ws1) := GetSource(ws);
      var (sources, ws2) := GetSources(ws1, n - 1);
      (Cons(src, sources), ws2)
  }

  /** The loop filling attrib_list from slot i on; None when the list is full. */
  function GetAttribs(ws: Words, i: nat): (r: Option<(List<(word, word)>, Words)>)
    ensures r.Some? ==> Length(r.value.1) <= Length(ws)
    decreases ATTRIB_CAPACITY + 2 - i
  {
    if i >= ATTRIB_CAPACITY then None
    else
      var (name, ws1) := GetInt(ws);
      if name == EGL_NONE then Some((Nil, ws1))
      else
        var (val, ws2) := GetInt(ws1);
        match GetAttribs(ws2, i + 2)
        case None => None
        case Some((attribs, ws3)) => Some((Cons((name, val), attribs), ws3))
  }

  function GetPtrs(ws: Words, n: nat, wsize: nat): (r: (List<quad>, Words))
    ensures Length(r.1) <= Length(ws)
    decreases n
  {
    if n == 0 then (Nil, ws)
    else
      var (p, ws1) := GetPtr(ws, wsize);
      var (ps, ws2) := GetPtrs(ws1, n - 1, wsize);
      (Cons(p, ps), ws2)
  }

  /** The case of eglChooseConfig. */
  function DecodeChoose(ws: Words, wsize: nat): (r: Decoded)
    ensures r.Done? ==> Length(r.rest) <= Length(ws)
  {
    var (dpy, ws1) := GetPtr(ws, wsize);
    match GetAttribs(ws1, 0)
    case None => TooManyAttributes
    case Some((attribs, ws2)) =>
      var (size, ws3) := GetInt(ws2);
      var (num, ws4) := GetInt(ws3);
      var (configs, ws5) := GetPtrs(ws4, ConfigCount(num, size), wsize);
      var (ok, ws6) := GetInt(ws5);
      Done(Choose(dpy, attribs, size, num, configs, ok), ws6)
  }

  /** The loop over vertexAttrib[i..] of a draw record. */
  function GetArrays(ws: Words, enabled: seq<bool>, i: nat): (r: (List<(nat, Value)>, Words))
    requires i <= |enabled|
    ensures Length(r.1) <= Length(ws)
    decreases |enabled| - i
  {
    if i == |enabled| then (Nil, ws)
    else if !enabled[i] then GetArrays(ws, enabled, i + 1)
    else
      var (d, ws1) := GetBlob(ws);
      var (arrays, ws2) := GetArrays(ws1, enabled, i + 1);
      (Cons((i, Blob(d)), arrays), ws2)
  }

  function CountOf(n: word): nat {
    if Signed(n) > 0 then Signed(n) else 0
  }

  /** One case of the replayer's switch, from the field after the opcode on. */
  function Decode(ws: Words, op: word, b: Bindings, wsize: nat): (r: Decoded)
    ensures r.Done? ==> Length(r.rest) <= Length(ws)
  {
    if GetShape(op).Some? then
      var (args, ws1) := GetValues(ws, GetShape(op).value, wsize);
      Done(Plain(op, args), ws1)
    else if IsCounted(op) then
      var (n, ws1) := GetInt(ws);
      var (ids, ws2) := GetIds(ws1, CountOf(n));
      Done(Ids(op, ids), ws2)
    else if op == GL_SHADER_SOURCE then
      var (shader, ws1) := GetInt(ws);
      var (n, ws2) := GetInt(ws1);
      var (sources, ws3) := GetSources(ws2, CountOf(n));
      Done(Sources(shader, sources), ws3)
    else if HasAttribs(op) then
      var (handles, ws1) := GetValues(ws, P3, wsize);
      match GetAttribs(ws1, 0)
      case None => TooManyAttributes
      case Some((attribs, ws2)) =>
        var (res, ws3) := GetPtr(ws2, wsize);
        Done(Attribs(op, handles, attribs, res), ws3)
    else if op == EGL_CHOOSE_CONFIG then DecodeChoose(ws, wsize)
    else if op == GL_DRAW_ELEMENTS then
      var (mode, ws1) := GetInt(ws);
      var (count, ws2) := GetInt(ws1);
      var (typ, ws3) := GetInt(ws2);
      var (index, ws4) := GetValue(ws3, if b.elementBuffer != 0 then P else B, wsize);
      var (arrays, ws5) := if b.arrayBuffer == 0 then GetArrays(ws4, b.enabled, 0) else (Nil, ws4);
      Done(Draw(mode, count, typ, index, arrays), ws5)
    else if op in APART then LeftOut(op)
    else NotImplemented(op)
  }

  // ---------- Decoding undoes encoding ----------

  function CanonSource(src: Source): Source {
    if Signed(src.len) > 0 then Source(src.len, if src.text.None? || |src.text.value| == 0 then None else src.text)
    else Source(0xffffffff, Some(if src.text.None? then [] else src.text.value))
  }

  function CanonSources(sources: List<Source>): List<Source> {
    if sources.Nil? then Nil else Cons(CanonSource(sources.head), CanonSources(sources.tail))
  }

  function CanonArrays(arrays: List<(nat, Value)>, wsize: nat): List<(nat, Value)> {
    if arrays.Nil? then Nil
    else Cons((arrays.head.0, Canon(arrays.head.1, wsize)), CanonArrays(arrays.tail, wsize))
  }

  function CanonPtrs(ps: List<quad>, wsize: nat): List<quad> {
    if ps.Nil? then Nil else Cons(Widen(wsize, ps.head), CanonPtrs(ps.tail, wsize))
  }

  /** The record as the replayer should see it. */
  function CanonRecord(r: Record, wsize: nat): Record {
    match r
    case Plain(op, args) => Plain(op, CanonValues(args, wsize))
    case Ids(_, _) => r
    case Sources(shader, sources) => Sources(shader, CanonSources(sources))
    case Attribs(op, handles, attribs, res) => Attribs(op, CanonValues(handles, wsize), attribs, Widen(wsize, res))
    case Choose(dpy, attribs, size, num, configs, ok) =>
      Choose(Widen(wsize, dpy), attribs, size, num, CanonPtrs(configs, wsize), ok)
    case Draw(mode, count, typ, index, arrays) => Draw(mode, count, typ, Canon(index, wsize),
                                                       CanonArrays(arrays, wsize))
  }

  /** What decoding the record's words must deliver. */
  function Expected(r: Record, wsize: nat, rest: Words): Decoded {
    if OpcodeOf(r) in WRITE_ONLY then NotImplemented(OpcodeOf(r))
    else if TooLong(r) then TooManyAttributes
    else Done(CanonRecord(r, wsize), rest)
  }

  /** The attribute list does not fit the replayer's array. */
  predicate TooLong(r: Record) {
    (r.Attribs? || r.Choose?) && 2 * Length(r.attribs) >= ATTRIB_CAPACITY
  }

  predicate ExactRecord(r: Record) {
    r.Plain? ==> AllExact(r.args)
  }

  lemma {:induction false} GetPutIds(ids: List<word>, rest: Words)
    ensures GetIds(PutIds(ids, rest), Length(ids)) == (ids, rest)
  {
    if ids.Cons? {
      GetPutIds(ids.tail, rest);
    }
  }

  lemma GetPutSource(src: Source, rest: Words)
    requires IsSource(src)
    ensures GetSource(PutSource(src, rest)) == (CanonSource(src), rest)
  {
    if Signed(src.len) > 0 {
      GetPutBlob(src.text, rest);
    } else {
      GetPutString(src.text, rest);
    }
  }

  lemma {:induction false} GetPutSources(sources: List<Source>, rest: Words)
    requires AreSources(sources)
    ensures GetSources(PutSources(sources, rest), Length(sources)) == (CanonSources(sources), rest)
  {
    if sources.Cons? {
      GetPutSource(sources.head, PutSources(sources.tail, rest));
      GetPutSources(sources.tail, rest);
    }
  }

  lemma {:induction false} GetPutAttribs(attribs: List<(word, word)>, rest: Words, i: nat)
    requires AreAttribs(attribs)
    ensures GetAttribs(PutAttribs(attribs, rest), i)
         == if i + 2 * Length(attribs) >= ATTRIB_CAPACITY then None else Some((attribs, rest))
    decreases attribs
  {
    if attribs.Cons? {
      GetPutAttribs(attribs.tail, rest, i + 2);
    }
  }

  lemma {:induction false} GetPutPtrs(ps: List<quad>, wsize: nat, rest: Words)
    requires AreAddresses(ps, wsize)
    ensures GetPtrs(PutPtrs(ps, wsize, rest), Length(ps), wsize) == (CanonPtrs(ps, wsize), rest)
    decreases ps
  {
    if ps.Cons? {
      GetPutPtr(ps.head, wsize, PutPtrs(ps.tail, wsize, rest));
      GetPutPtrs(ps.tail, wsize, rest);
    }
  }

  lemma GetPutChoose(r: Record, wsize: nat, b: Bindings, rest: Words)
    requires r.Choose? && IsRecord(r, b, wsize)
    ensures DecodeChoose(PutBody(r, b, wsize, rest), wsize)
         == if TooLong(r) then TooManyAttributes else Done(CanonRecord(r, wsize), rest)
  {
    hide PutPtr, Stream.GetPtr, GetAttribs, PutAttribs, PutPtrs, GetPtrs;
    var end := PutPtrs(r.configs, wsize, Cons(r.ok, rest));
    var mid := Cons(r.size, Cons(r.num, end));
    GetPutPtr(r.dpy, wsize, PutAttribs(r.attribs, mid));
    GetPutAttribs(r.attribs, mid, 0);
    GetPutPtrs(r.configs, wsize, Cons(r.ok, rest));
  }

  lemma {:induction false} GetPutArrays(arrays: List<(nat, Value)>, enabled: seq<bool>, i: nat, wsize: nat, rest: Words)
    requires i <= |enabled| && AreArrays(arrays, EnabledFrom(enabled, i), wsize)
    ensures GetArrays(PutArrays(arrays, EnabledFrom(enabled, i), wsize, rest), enabled, i)
         == (CanonArrays(arrays, wsize), rest)
    decreases |enabled| - i
  {
    if i == |enabled| {
    } else if !enabled[i] {
      GetPutArrays(arrays, enabled, i + 1, wsize, rest);
    } else {
      GetPutValue(arrays.head.1, wsize, PutArrays(arrays.tail, EnabledFrom(enabled, i + 1), wsize, rest));
      GetPutArrays(arrays.tail, enabled, i + 1, wsize, rest);
    }
  }

  const SPECIAL: set<word> := {GL_SHADER_SOURCE, GL_DRAW_ELEMENTS, EGL_CHOOSE_CONFIG}

  /** The commands with special layouts have no fixed shape, and each has its own layout. */
  lemma NoSharedOpcodes(op: word)
    ensures op in WRITE_ONLY ==> !IsCounted(op) && !HasAttribs(op) && op !in SPECIAL && op !in APART
    ensures IsCounted(op) || HasAttribs(op) || op in SPECIAL || op in APART ==> GetShape(op).None? && op !in WRITE_ONLY
    ensures IsCounted(op) ==> !HasAttribs(op) && op !in SPECIAL && op !in APART
    ensures HasAttribs(op) ==> op !in SPECIAL && op !in APART
    ensures op in SPECIAL ==> op !in APART
  {
  }

  /** Under the bindings it was written with, every record decodes to its canonical
      form and is consumed to its last byte, unless the replayer gives up on it;
      which of these happens depends on the record alone. */
  lemma DecodeEncode(r: Record, b: Bindings, wsize: nat, rest: Words)
    requires IsRecord(r, b, wsize) && ExactRecord(r)
    ensures Decode(PutBody(r, b, wsize, rest), OpcodeOf(r), b, wsize) == Expected(r, wsize, rest)
  {
    hide PutValue, PutValues, GetValues, PutIds, PutSources, PutAttribs;
    NoSharedOpcodes(OpcodeOf(r));
    match r
    case Plain(op, args) =>
      ShapesAgree(op);
      if op !in WRITE_ONLY {
        GetPutValues(args, wsize, rest);
      }
    case Ids(op, ids) =>
      GetPutIds(ids, rest);
    case Sources(shader, sources) =>
      GetPutSources(sources, rest);
    case Attribs(op, handles, attribs, res) =>
      var end := PutPtr(res, wsize, rest);
      HandlesAreExact(handles);
      GetPutValues(handles, wsize, PutAttribs(attribs, end));
      GetPutAttribs(attribs, end, 0);
      GetPutPtr(res, wsize, rest);
    case Choose(_, _, _, _, _, _) =>
      GetPutChoose(r, wsize, b, rest);
    case Draw(mode, count, typ, index, arrays) =>
      GetPutValue(index, wsize, PutArrays(arrays, DrawnArrays(b), wsize, rest));
      if b.arrayBuffer == 0 {
        GetPutArrays(arrays, b.enabled, 0, wsize, rest);
      }
  }

  lemma HandlesAreExact(handles: List<Value>)
    requires Kinds(handles) == P3
    ensures AllExact(handles)
  {
    var rest := handles.tail;
    assert Kinds(rest) == P2 && Kinds(rest.tail) == Cons(P, Nil) && Kinds(rest.tail.tail) == Nil;
    assert AllExact(rest.tail);
  }

  /** A glGetFloatv record is read to its last byte exactly when its parameter is
      neither NULL nor the float that serves as the escape marker. */
  lemma GetFloatvIsConsumed(r: Record, b: Bindings, wsize: nat, rest: Words)
    requires r.Plain? && r.op == GL_GET_FLOATV && IsRecord(r, b, wsize)
    ensures r.args.Cons? && r.args.tail.Cons? && r.args.tail.head.NullableFloat?
    ensures Decode(PutBody(r, b, wsize, rest), GL_GET_FLOATV, b, wsize) == Done(CanonRecord(r, wsize), rest)
       <==> r.args.tail.head.v.Some? && r.args.tail.head.v.value != FLOAT_MARKER
  {
    assert Kinds(r.args.tail) == Cons(F, Nil) && Kinds(r.args.tail.tail) == Nil;
    var v0, v1 := r.args.head, r.args.tail.head;
    assert PutValues(r.args.tail, wsize, rest) == PutValue(v1, wsize, rest);
    GetPutValue(v0, wsize, PutValue(v1, wsize, rest));
    GetPutValue(v1, wsize, rest);
    assert GetValues(PutValue(v1, wsize, rest), Cons(F, Nil), wsize)
        == (Cons(Canon(v1, wsize), Nil), GetValue(PutValue(v1, wsize, rest), F, wsize).1);
    assert CanonValues(r.args.tail, wsize) == Cons(Canon(v1, wsize), Nil);
  }
}
