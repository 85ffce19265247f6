/** NodeWriter.writeData of WebTerminal: text with entities for special characters, and runs of one
    character abbreviated to the character and a count. */
module NodeWriter {
  import opened Wire
  import opened Numerals

  /** How many of the first characters are the same. */
  function RunLength(s: string): (n: nat)
    requires |s| > 0
    ensures 1 <= n <= |s|
    ensures forall i :: 0 <= i < n ==> s[i] == s[0]
    ensures n < |s| ==> s[n] != s[0]
  {
    if |s| > 1 && s[1] == s[0] then 1 + RunLength(s[1..]) else 1
  }

  function Entity(ch: char, attribute: bool, asciiOnly: bool): Option<string> {
    if ch == '&' then Some("&amp;")
    else if attribute && ch == '"' then Some("&quot;")
    else if !attribute && ch == '<' then Some("&lt;")
    else if !attribute && ch == '>' then Some("&gt;")
    else if ch < ' ' || (asciiOnly && ch as int >= 127) then Some("&#x" + Numeral(ch as int, 16) + ";")
    else None
  }

  function Literal(ch: char, attribute: bool, asciiOnly: bool): string {
    if Entity(ch, attribute, asciiOnly).Some? then Entity(ch, attribute, asciiOnly).value else [ch]
  }

  function Abbreviation(count: nat): string {
    "\\[*" + Numeral(count, 10) + "]"
  }

  function Count(s: string, minimum: int): (n: nat)
    requires |s| > 0
    ensures 1 <= n <= |s|
  {
    if minimum > 0 then RunLength(s) else 1
  }

  /** What is written for the characters at the front that go together, and how many they are. */
  function Piece(s: string, attribute: bool, asciiOnly: bool, minimum: int): string
    requires |s| > 0
  {
    var count := Count(s, minimum);
    Literal(s[0], attribute, asciiOnly) + if count >= minimum then Abbreviation(count) else ""
  }

  function Taken(s: string, minimum: int): (n: nat)
    requires |s| > 0
    ensures 1 <= n <= |s|
  {
    if Count(s, minimum) >= minimum then Count(s, minimum) else 1
  }

  function Encoded(s: string, attribute: bool, asciiOnly: bool, minimum: int): string {
    if |s| == 0 then ""
    else Piece(s, attribute, asciiOnly, minimum) + Encoded(s[Taken(s, minimum)..], attribute, asciiOnly, minimum)
  }

  class NodeWriter {
    var out: string
    var asciiOnly: bool
    var abbrevRepeatedMinimum: int

    constructor ()
      ensures out == "" && asciiOnly && abbrevRepeatedMinimum == 3
    {
      out, asciiOnly, abbrevRepeatedMinimum := "", true, 3;
    }

    method WriteData(data: string, attribute: bool)
      modifies this`out
      ensures out == old(out) + Encoded(data, attribute, asciiOnly, abbrevRepeatedMinimum)
    {
      hide Entity, Abbreviation, Encoded, Count;
      ghost var whole := Encoded(data, attribute, asciiOnly, abbrevRepeatedMinimum);
      var start, end, i := 0, |data|, 0;
      assert data[0..] == data && data[0..0] == "";
      while i < end
        invariant 0 <= start <= i <= end
        invariant old(out) + whole ==
                  out + data[start..i] + Encoded(data[i..], attribute, asciiOnly, abbrevRepeatedMinimum)
        decreases end - i
      {
        var count := CountRun(data, i);
        EncodedAt(data, i, attribute, asciiOnly, abbrevRepeatedMinimum);
        start, i := WriteOne(data, attribute, start, i, count);
      }
      assert data[i..] == "";
      EncodedNothing(attribute, asciiOnly, abbrevRepeatedMinimum);
      if end > start {
        out := out + data[start..end];
      }
    }

    /** One turn of the loop: characters that need no special treatment stay pending from start on. */
    method WriteOne(data: string, attribute: bool, from: nat, at: nat, count: nat) returns (start: nat, i: nat)
      requires from <= at < |data| && count == Count(data[at..], abbrevRepeatedMinimum)
      modifies this`out
      ensures start <= i == at + Taken(data[at..], abbrevRepeatedMinimum) <= |data|
      ensures out + data[start..i] ==
              old(out) + data[from..at] + Piece(data[at..], attribute, asciiOnly, abbrevRepeatedMinimum)
    {
      hide Entity, Abbreviation, Count, Piece, Taken, Encoded, Literal;
      LiteralOf(data[at], attribute, asciiOnly);
      assert data[from..at + 1] == data[from..at] + [data[at]];
      PieceOf(data[at..], count, attribute, asciiOnly, abbrevRepeatedMinimum);
      start, i := from, at;
      var ch := data[i];
      ghost var before, literal := out + data[start..i], Literal(ch, attribute, asciiOnly);
      var ent := Entity(ch, attribute, asciiOnly);
      if ent.Some? {
        if i > start {
          out := out + data[start..i];
        }
        start := i + 1;
        out := out + ent.value;
        assert data[start..i + 1] == "";
      } else if count >= abbrevRepeatedMinimum {
        out := out + data[start..i + 1];
        start := i + 1;
      }
      assert out + data[start..i + 1] == before + literal;
      if count >= abbrevRepeatedMinimum {
        assert data[start..i + 1] == "";
        out := out + Abbreviation(count);
        i := i + (count - 1);
        start := i + 1;
      }
      i := i + 1;
    }

    method CountRun(data: string, i: nat) returns (count: nat)
      requires i < |data|
      ensures count == Count(data[i..], abbrevRepeatedMinimum) && i + count <= |data|
    {
      count := 1;
      if abbrevRepeatedMinimum > 0 {
        ghost var s := data[i..];
        while i + count < |data| && data[i + count] == data[i]
          invariant 1 <= count <= |s|
          invariant forall k :: 0 <= k < count ==> s[k] == s[0]
        {
          count := count + 1;
        }
        RunIs(s, count);
      }
    }
  }

  lemma RunIs(s: string, n: nat)
    requires 1 <= n <= |s|
    requires forall i :: 0 <= i < n ==> s[i] == s[0]
    requires n < |s| ==> s[n] != s[0]
    ensures RunLength(s) == n
  {
  }

  lemma PieceOf(s: string, count: nat, attribute: bool, asciiOnly: bool, minimum: int)
    requires |s| > 0 && count == Count(s, minimum)
    ensures count >= minimum ==> Taken(s, minimum) == count
    ensures count >= minimum ==>
      Piece(s, attribute, asciiOnly, minimum) == Literal(s[0], attribute, asciiOnly) + Abbreviation(count)
    ensures count < minimum ==>
      Taken(s, minimum) == 1 && Piece(s, attribute, asciiOnly, minimum) == Literal(s[0], attribute, asciiOnly)
  {
    assert Literal(s[0], attribute, asciiOnly) + "" == Literal(s[0], attribute, asciiOnly);
  }

  lemma LiteralOf(ch: char, attribute: bool, asciiOnly: bool)
    ensures Literal(ch, attribute, asciiOnly)
         == if Entity(ch, attribute, asciiOnly).Some? then Entity(ch, attribute, asciiOnly).value else [ch]
  {
  }

  lemma EncodedAt(data: string, i: nat, attribute: bool, asciiOnly: bool, minimum: int)
    requires i < |data|
    ensures i + Taken(data[i..], minimum) <= |data|
    ensures Encoded(data[i..], attribute, asciiOnly, minimum)
         == Piece(data[i..], attribute, asciiOnly, minimum)
            + Encoded(data[i + Taken(data[i..], minimum)..], attribute, asciiOnly, minimum)
  {
    hide Piece, Taken;
    assert data[i..][Taken(data[i..], minimum)..] == data[i + Taken(data[i..], minimum)..];
  }

  lemma EncodedNothing(attribute: bool, asciiOnly: bool, minimum: int)
    ensures Encoded("", attribute, asciiOnly, minimum) == ""
  {
  }

  // ---------- Reading it back ----------

  function Semicolon(s: string): (i: nat)
    ensures i <= |s| && ';' !in s[..i] && (i < |s| ==> s[i] == ';')
  {
    if |s| == 0 || s[0] == ';' then 0 else 1 + Semicolon(s[1..])
  }

  /** The character that an entity stands for; a backslash is never written as one. */
  function Named(name: string): (ch: Option<char>)
    ensures ch != Some('\\')
  {
    if name == "amp" then Some('&')
    else if name == "quot" then Some('"')
    else if name == "lt" then Some('<')
    else if name == "gt" then Some('>')
    else if |name| > 2 && name[..2] == "#x" && Leading(name[2..], 16) == |name| - 2 then
      var n := NumberOf(name[2..], 16);
      if (n < 0xD800 || 0xE000 <= n < 0x11_0000) && n != '\\' as int then Some(n as char) else None
    else None
  }

  /** Reads what writeData wrote; last is the character just read, if it may be repeated. */
  function Decoded(s: string, last: Option<char>): Option<string>
    decreases |s|
  {
    if |s| == 0 then Some("")
    else if s[0] == '\\' then
      if last.None? || |s| < 4 || s[..3] != "\\[*" then None
      else
        var k := Leading(s[3..], 10);
        var count := NumberOf(s[3..][..k], 10);
        if 3 + k == |s| || s[3 + k] != ']' || count == 0 then None
        else Then(Repeat(last.value, count - 1), Decoded(s[3 + k + 1..], None))
    else if s[0] == '&' then
      var k := Semicolon(s[1..]);
      if 1 + k == |s| || Named(s[1..1 + k]).None? then None
      else
        var ch := Named(s[1..1 + k]).value;
        Then([ch], Decoded(s[k + 2..], Some(ch)))
    else Then([s[0]], Decoded(s[1..], Some(s[0])))
  }

  function Then(s: string, rest: Option<string>): Option<string> {
    if rest.None? then None else Some(s + rest.value)
  }

  lemma {:induction false} NoSemicolonIn(name: string, rest: string)
    requires ';' !in name
    ensures Semicolon(name + [';'] + rest) == |name|
  {
    var s := name + [';'] + rest;
    assert s[|name|] == ';';
    assert forall k :: 0 <= k < |name| ==> s[k] == name[k];
  }

  lemma HexNamed(ch: char)
    requires ch != '\\'
    ensures ';' !in "#x" + Numeral(ch as int, 16)
    ensures Named("#x" + Numeral(ch as int, 16)) == Some(ch)
  {
    var digits := Numeral(ch as int, 16);
    var name := "#x" + digits;
    NumeralIsRead(ch as int, 16);
    LeadingAll(digits);
    assert name[..2] == "#x" && name[2..] == digits;
    assert DigitValue(';', 16).None?;
    assert name[0] == '#';
  }

  lemma {:induction false} LeadingAll(s: string)
    requires forall i :: 0 <= i < |s| ==> DigitValue(s[i], 16).Some?
    ensures Leading(s, 16) == |s|
    decreases |s|
  {
    if |s| > 0 { LeadingAll(s[1..]); }
  }

  /** The name inside an entity. */
  function NameFor(ch: char, attribute: bool, asciiOnly: bool): string {
    if ch == '&' then "amp" else if attribute && ch == '"' then "quot"
    else if !attribute && ch == '<' then "lt" else if !attribute && ch == '>' then "gt"
    else "#x" + Numeral(ch as int, 16)
  }

  lemma EntityName(ch: char, attribute: bool, asciiOnly: bool)
    requires ch != '\\' && Entity(ch, attribute, asciiOnly).Some?
    ensures Entity(ch, attribute, asciiOnly).value == ['&'] + NameFor(ch, attribute, asciiOnly) + [';']
    ensures ';' !in NameFor(ch, attribute, asciiOnly) && Named(NameFor(ch, attribute, asciiOnly)) == Some(ch)
  {
    hide Numeral, NumberOf, Leading, DigitValue;
    if ch == '&' || (attribute && ch == '"') || (!attribute && (ch == '<' || ch == '>')) {
      Names();
    } else {
      HexNamed(ch);
    }
  }

  lemma Names()
    ensures Named("amp") == Some('&') && Named("quot") == Some('"')
    ensures Named("lt") == Some('<') && Named("gt") == Some('>')
    ensures ';' !in "amp" && ';' !in "quot" && ';' !in "lt" && ';' !in "gt"
  {
    assert "quot"[0] != "amp"[0] && "lt"[0] != "amp"[0] && "gt"[0] != "amp"[0] && "lt"[0] != "quot"[0];
    assert "gt"[0] != "quot"[0] && "gt"[0] != "lt"[0];
  }

  lemma DecodeLiteral(ch: char, attribute: bool, asciiOnly: bool, rest: string, last: Option<char>)
    requires ch != '\\'
    ensures Decoded(Literal(ch, attribute, asciiOnly) + rest, last) == Then([ch], Decoded(rest, Some(ch)))
  {
    hide Named, NameFor, Entity, Leading, NumberOf;
    if Entity(ch, attribute, asciiOnly).Some? {
      EntityName(ch, attribute, asciiOnly);
      DecodeEntity(NameFor(ch, attribute, asciiOnly), ch, rest, last);
    } else {
      PlainIsNotAmp(ch, attribute, asciiOnly);
      assert ([ch] + rest)[1..] == rest;
    }
  }

  lemma PlainIsNotAmp(ch: char, attribute: bool, asciiOnly: bool)
    ensures Entity(ch, attribute, asciiOnly).None? ==> ch != '&'
  {
  }

  lemma DecodeEntity(name: string, ch: char, rest: string, last: Option<char>)
    requires ';' !in name && Named(name) == Some(ch)
    ensures Decoded(['&'] + name + [';'] + rest, last) == Then([ch], Decoded(rest, Some(ch)))
  {
    hide Named, Leading, NumberOf, Semicolon;
    var s := ['&'] + name + [';'] + rest;
    NoSemicolonIn(name, rest);
    assert s[1..] == name + [';'] + rest;
    assert s[1..1 + |name|] == name;
    assert s[|name| + 2..] == rest;
  }

  lemma DecodeAbbreviation(count: nat, rest: string, last: char)
    requires count > 0
    ensures Decoded(Abbreviation(count) + rest, Some(last)) == Then(Repeat(last, count - 1), Decoded(rest, None))
  {
    hide Numeral, NumberOf, Leading, DigitValue;
    var digits := Numeral(count, 10);
    var s := Abbreviation(count) + rest;
    NumeralIsRead(count, 10);
    assert s[3..] == digits + ([']'] + rest);
    NoDigit();
    LeadingStops(digits, [']'] + rest, 10);
    assert s[3..][..|digits|] == digits;
    assert s[3 + |digits| + 1..] == rest;
    assert s[..3] == "\\[*";
  }

  lemma NoDigit()
    ensures DigitValue(']', 10).None?
  {
  }

  /** A piece is read as the characters it was written for. */
  lemma DecodePiece(s: string, attribute: bool, asciiOnly: bool, minimum: int, rest: string, last: Option<char>)
    requires |s| > 0 && s[0] != '\\'
    ensures Decoded(Piece(s, attribute, asciiOnly, minimum) + rest, last)
         == Then(s[..Taken(s, minimum)], Decoded(rest, if Count(s, minimum) >= minimum then None else Some(s[0])))
  {
    hide Decoded, Literal, Abbreviation, Count;
    var ch, count := s[0], Count(s, minimum);
    var literal := Literal(ch, attribute, asciiOnly);
    if count >= minimum {
      DecodeAbbreviation(count, rest, ch);
      DecodeLiteral(ch, attribute, asciiOnly, Abbreviation(count) + rest, last);
      assert literal + (Abbreviation(count) + rest) == (literal + Abbreviation(count)) + rest;
      RunSplit(s, minimum);
      var t := Decoded(rest, None);
      if t.Some? { assert [ch] + (Repeat(ch, count - 1) + t.value) == s[..count] + t.value; }
    } else {
      DecodeLiteral(ch, attribute, asciiOnly, rest, last);
      assert literal + "" == literal && s[..1] == [ch];
    }
  }

  lemma {:induction false} Recovered(s: string, attribute: bool, asciiOnly: bool, minimum: int, last: Option<char>)
    requires '\\' !in s
    ensures Decoded(Encoded(s, attribute, asciiOnly, minimum), last) == Some(s)
    decreases |s|
  {
    hide Decoded, Piece, Count, Taken;
    if |s| == 0 {
      DecodedNothing(last);
    } else {
      var n := Taken(s, minimum);
      var now := if Count(s, minimum) >= minimum then None else Some(s[0]);
      Recovered(s[n..], attribute, asciiOnly, minimum, now);
      DecodePiece(s, attribute, asciiOnly, minimum, Encoded(s[n..], attribute, asciiOnly, minimum), last);
      assert s[..n] + s[n..] == s;
    }
  }

  lemma DecodedNothing(last: Option<char>)
    ensures Decoded("", last) == Some("")
  {
  }

  lemma RunSplit(s: string, minimum: int)
    requires |s| > 0
    ensures s[..Count(s, minimum)] == [s[0]] + Repeat(s[0], Count(s, minimum) - 1)
  {
  }

  lemma {:induction false} NeverBackslash(s: string, last: Option<char>)
    requires last != Some('\\')
    ensures Decoded(s, last).Some? ==> '\\' !in Decoded(s, last).value
    decreases |s|
  {
    hide Named, NumberOf, Leading, Semicolon;
    if |s| == 0 {
    } else if s[0] == '\\' {
      if last.Some? && |s| >= 4 && s[..3] == "\\[*" {
        var k := Leading(s[3..], 10);
        if 3 + k < |s| { NeverBackslash(s[3 + k + 1..], None); }
      }
    } else if s[0] == '&' {
      var k := Semicolon(s[1..]);
      if 1 + k < |s| && Named(s[1..1 + k]).Some? { NeverBackslash(s[k + 2..], Named(s[1..1 + k])); }
    } else {
      NeverBackslash(s[1..], Some(s[0]));
    }
  }

  /** writeData can be undone for exactly the texts without a backslash, in text and in attributes,
      whatever the minimum for an abbreviation. */
  lemma WriteDataInvertible(s: string, attribute: bool, asciiOnly: bool, minimum: int)
    ensures Decoded(Encoded(s, attribute, asciiOnly, minimum), None) == Some(s) <==> '\\' !in s
  {
    hide Decoded, Encoded;
    if '\\' !in s { Recovered(s, attribute, asciiOnly, minimum, None); }
    NeverBackslash(Encoded(s, attribute, asciiOnly, minimum), None);
  }

  predicate Ordinary(s: string) {
    && (forall i :: 0 <= i < |s| ==> ' ' <= s[i] < 127 as char && s[i] !in {'&', '<', '>', '"'})
    && (forall i :: 0 <= i < |s| - 1 ==> s[i] != s[i + 1])
  }

  lemma {:induction false} OrdinaryStays(s: string, attribute: bool)
    requires Ordinary(s)
    ensures Encoded(s, attribute, true, 3) == s
    decreases |s|
  {
    hide Piece, Taken;
    if |s| > 0 {
      OrdinaryPiece(s, attribute);
      OrdinaryStays(s[1..], attribute);
      assert [s[0]] + s[1..] == s;
    }
  }

  lemma OrdinaryPiece(s: string, attribute: bool)
    requires Ordinary(s) && |s| > 0
    ensures Piece(s, attribute, true, 3) == [s[0]] && Taken(s, 3) == 1
  {
    assert Literal(s[0], attribute, true) == [s[0]];
    assert Count(s, 3) == 1;
  }

  /** With a backslash there is no way back: two texts are written the same. */
  lemma BackslashIsAmbiguous(attribute: bool)
    ensures Encoded("aaa", attribute, true, 3) == Encoded("a\\[*3]", attribute, true, 3)
  {
    hide Encoded, Ordinary;
    AnAbbreviationIsOrdinary();
    OrdinaryStays("a\\[*3]", attribute);
    ThreeAbbreviated(attribute);
  }

  lemma AnAbbreviationIsOrdinary()
    ensures Ordinary("a\\[*3]")
  {
  }

  lemma ThreeAbbreviated(attribute: bool)
    ensures Encoded("aaa", attribute, true, 3) == "a\\[*3]"
  {
    hide Encoded;
    RunIs("aaa", 3);
    EncodedAt("aaa", 0, attribute, true, 3);
    EncodedNothing(attribute, true, 3);
    assert "aaa"[0..] == "aaa" && "aaa"[3..] == "";
    assert Piece("aaa", attribute, true, 3) == "a" + Abbreviation(3);
  }

  /** A minimum of 0 does not switch the abbreviations off, as its comment says, but puts one behind
      every single character. */
  lemma {:induction false} ZeroAbbreviatesAll(s: string, attribute: bool, asciiOnly: bool)
    ensures |Encoded(s, attribute, asciiOnly, 0)| >= 6 * |s|
    decreases |s|
  {
    if |s| > 0 {
      ZeroAbbreviatesAll(s[1..], attribute, asciiOnly);
      assert |Literal(s[0], attribute, asciiOnly)| >= 1;
      assert |Abbreviation(1)| == 5;
    }
  }

  // ---------- What the output may hold ----------

  /** A character that stands for itself: no markup, no control, and in ASCII if so asked. Attribute values
      may hold '<' and '>', and text may hold '"'. */
  predicate IsClean(ch: char, attribute: bool, asciiOnly: bool) {
    && ' ' <= ch && ch != '&' && (asciiOnly ==> ch < 127 as char)
    && (if attribute then ch != '"' else ch != '<' && ch != '>')
  }

  predicate AllClean(s: string, attribute: bool, asciiOnly: bool) {
    forall i :: 0 <= i < |s| ==> IsClean(s[i], attribute, asciiOnly)
  }

  /** Clean characters and references to entities only. */
  predicate IsWellFormed(s: string, attribute: bool, asciiOnly: bool)
    decreases |s|
  {
    if |s| == 0 then true
    else if s[0] == '&' then
      var k := Semicolon(s[1..]);
      && 1 + k < |s| && Named(s[1..1 + k]).Some? && AllClean(s[1..1 + k], attribute, asciiOnly)
      && IsWellFormed(s[k + 2..], attribute, asciiOnly)
    else IsClean(s[0], attribute, asciiOnly) && IsWellFormed(s[1..], attribute, asciiOnly)
  }

  lemma {:induction false} DigitsAreClean(s: string, base: nat, attribute: bool, asciiOnly: bool)
    requires IsBase(base) && forall i :: 0 <= i < |s| ==> DigitValue(s[i], base).Some?
    ensures AllClean(s, attribute, asciiOnly)
  {
  }

  lemma {:induction false} CleanThen(s: string, rest: string, attribute: bool, asciiOnly: bool)
    requires AllClean(s, attribute, asciiOnly) && IsWellFormed(rest, attribute, asciiOnly)
    ensures IsWellFormed(s + rest, attribute, asciiOnly)
    decreases |s|
  {
    if |s| == 0 {
      assert s + rest == rest;
    } else {
      assert (s + rest)[1..] == s[1..] + rest && (s + rest)[0] == s[0];
      assert IsClean(s[0], attribute, asciiOnly);
      CleanThen(s[1..], rest, attribute, asciiOnly);
    }
  }

  lemma NameIsClean(ch: char, attribute: bool, asciiOnly: bool)
    ensures AllClean(NameFor(ch, attribute, asciiOnly), attribute, asciiOnly)
  {
    hide Numeral, DigitValue;
    var digits := Numeral(ch as int, 16);
    NumeralIsRead(ch as int, 16);
    DigitsAreClean(digits, 16, attribute, asciiOnly);
    assert AllClean("#x", attribute, asciiOnly);
  }

  lemma LiteralThen(ch: char, rest: string, attribute: bool, asciiOnly: bool)
    requires IsWellFormed(rest, attribute, asciiOnly)
    ensures IsWellFormed(Literal(ch, attribute, asciiOnly) + rest, attribute, asciiOnly)
  {
    hide Named, NameFor, AllClean, IsClean;
    if Entity(ch, attribute, asciiOnly).Some? {
      BackslashIsPlain(attribute, asciiOnly);
      EntityName(ch, attribute, asciiOnly);
      NameIsClean(ch, attribute, asciiOnly);
      EntityThen(NameFor(ch, attribute, asciiOnly), rest, attribute, asciiOnly);
    } else {
      PlainIsClean(ch, attribute, asciiOnly);
      CleanThen([ch], rest, attribute, asciiOnly);
    }
  }

  lemma BackslashIsPlain(attribute: bool, asciiOnly: bool)
    ensures Entity('\\', attribute, asciiOnly).None?
  {
  }

  lemma PlainIsClean(ch: char, attribute: bool, asciiOnly: bool)
    requires Entity(ch, attribute, asciiOnly).None?
    ensures AllClean([ch], attribute, asciiOnly)
  {
  }

  lemma EntityThen(name: string, rest: string, attribute: bool, asciiOnly: bool)
    requires ';' !in name && Named(name).Some? && AllClean(name, attribute, asciiOnly)
    requires IsWellFormed(rest, attribute, asciiOnly)
    ensures IsWellFormed(['&'] + name + [';'] + rest, attribute, asciiOnly)
  {
    hide Named, Semicolon, AllClean, IsClean;
    var s := ['&'] + name + [';'] + rest;
    NoSemicolonIn(name, rest);
    assert s[1..] == name + [';'] + rest;
    assert s[1..1 + |name|] == name && s[|name| + 2..] == rest;
  }

  lemma AbbreviationIsClean(count: nat, attribute: bool, asciiOnly: bool)
    ensures AllClean(Abbreviation(count), attribute, asciiOnly)
  {
    hide Numeral, DigitValue;
    NumeralIsRead(count, 10);
    DigitsAreClean(Numeral(count, 10), 10, attribute, asciiOnly);
    assert AllClean("\\[*", attribute, asciiOnly) && AllClean("]", attribute, asciiOnly);
  }

  /** Whatever the text, the output is free of bare markup: every '&' starts an entity that can be read. */
  lemma {:induction false} OutputIsWellFormed(s: string, attribute: bool, asciiOnly: bool, minimum: int)
    ensures IsWellFormed(Encoded(s, attribute, asciiOnly, minimum), attribute, asciiOnly)
    decreases |s|
  {
    hide IsWellFormed, Literal, Abbreviation, Count, Taken, AllClean;
    if |s| == 0 {
      NothingIsWellFormed(attribute, asciiOnly);
    } else {
      var rest := Encoded(s[Taken(s, minimum)..], attribute, asciiOnly, minimum);
      OutputIsWellFormed(s[Taken(s, minimum)..], attribute, asciiOnly, minimum);
      var literal, count := Literal(s[0], attribute, asciiOnly), Count(s, minimum);
      if count >= minimum {
        AbbreviationIsClean(count, attribute, asciiOnly);
        CleanThen(Abbreviation(count), rest, attribute, asciiOnly);
        LiteralThen(s[0], Abbreviation(count) + rest, attribute, asciiOnly);
        assert (literal + Abbreviation(count)) + rest == literal + (Abbreviation(count) + rest);
      } else {
        LiteralThen(s[0], rest, attribute, asciiOnly);
        assert literal + "" == literal;
      }
    }
  }

  lemma NothingIsWellFormed(attribute: bool, asciiOnly: bool)
    ensures IsWellFormed("", attribute, asciiOnly)
  {
  }

  /** A character is written as it is, if and only if it is clean; markup has the names that XML gives it,
      anything else its number. */
  lemma CleanIsPlain(ch: char, attribute: bool, asciiOnly: bool)
    ensures Literal(ch, attribute, asciiOnly) == [ch] <==> IsClean(ch, attribute, asciiOnly)
    ensures !IsClean(ch, attribute, asciiOnly) ==>
              Literal(ch, attribute, asciiOnly) ==
              match ch
              case '&' => "&amp;"
              case '"' => "&quot;"
              case '<' => "&lt;"
              case '>' => "&gt;"
              case _ => "&#x" + Numeral(ch as int, 16) + ";"
  {
    hide Numeral;
    assert |"&#x" + Numeral(ch as int, 16) + ";"| > 1;
  }

  lemma LessInLiteral(ch: char, asciiOnly: bool)
    ensures '<' in Literal(ch, true, asciiOnly) <==> ch == '<'
  {
    hide Numeral, DigitValue;
    NumeralIsRead(ch as int, 16);
    DigitsAreClean(Numeral(ch as int, 16), 16, false, asciiOnly);
  }

  /** In attribute values, where XML does not allow it either, '<' is written as it is. */
  lemma {:induction false} AttributesKeepLess(s: string, asciiOnly: bool, minimum: int)
    ensures '<' in Encoded(s, true, asciiOnly, minimum) <==> '<' in s
    decreases |s|
  {
    hide Literal, Count, Abbreviation;
    if |s| > 0 {
      var n := Taken(s, minimum);
      AttributesKeepLess(s[n..], asciiOnly, minimum);
      LessInLiteral(s[0], asciiOnly);
      AbbreviationIsClean(Count(s, minimum), false, asciiOnly);
      RunSplit(s, minimum);
      assert s == s[..n] + s[n..];
      assert forall i :: 0 <= i < n ==> s[i] == s[0];
    }
  }

  // ---------- Runs ----------

  function Times(s: string, n: nat): string {
    if n == 0 then "" else s + Times(s, n - 1)
  }

  lemma {:induction false} RunLengthOfRepeat(ch: char, k: nat, rest: string)
    requires k > 0 && (|rest| > 0 ==> rest[0] != ch)
    ensures RunLength(Repeat(ch, k) + rest) == k
    decreases k
  {
    var s := Repeat(ch, k) + rest;
    if k > 1 {
      assert s[1..] == Repeat(ch, k - 1) + rest;
      RunLengthOfRepeat(ch, k - 1, rest);
    } else {
      assert |s| > 1 ==> s[1] == rest[0];
    }
  }

  /** A run of k equal characters is written once with a count, if k is at least the minimum, and else
      character by character. */
  lemma {:induction false} RunIsWritten(ch: char, k: nat, rest: string, attribute: bool, asciiOnly: bool, minimum: int)
    requires k > 0 && minimum > 0 && (|rest| > 0 ==> rest[0] != ch)
    ensures Encoded(Repeat(ch, k) + rest, attribute, asciiOnly, minimum) ==
            (if k >= minimum then Literal(ch, attribute, asciiOnly) + ("\\[*" + Numeral(k, 10) + "]")
             else Times(Literal(ch, attribute, asciiOnly), k)) + Encoded(rest, attribute, asciiOnly, minimum)
    decreases k
  {
    hide Literal, RunLength, Numeral, Encoded, Piece, Taken;
    var s, literal, end := Repeat(ch, k) + rest, Literal(ch, attribute, asciiOnly),
                           Encoded(rest, attribute, asciiOnly, minimum);
    RunLengthOfRepeat(ch, k, rest);
    EncodedAt(s, 0, attribute, asciiOnly, minimum);
    assert s[0..] == s && s[0] == ch;
    PieceOf(s, k, attribute, asciiOnly, minimum);
    if k >= minimum {
      assert s[k..] == rest;
    } else {
      assert s[1..] == Repeat(ch, k - 1) + rest;
      if k > 1 {
        RunIsWritten(ch, k - 1, rest, attribute, asciiOnly, minimum);
      } else {
        assert s[1..] == rest;
        assert Times(literal, 0) + end == end;
      }
      assert literal + (Times(literal, k - 1) + end) == (literal + Times(literal, k - 1)) + end;
    }
  }
}
