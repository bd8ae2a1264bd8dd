/** Reading the stream title out of an ICY metadata block. */
module IcyTitle {
  import opened Common

  newtype Byte = x: int | 0 <= x < 256

  const MAX_TITLE_LENGTH: nat := 512
  /** `StreamTitle='` */
  const OPENING: seq<Byte> := [83, 116, 114, 101, 97, 109, 84, 105, 116, 108, 101, 61, 39]
  /** `';` */
  const CLOSING: seq<Byte> := [39, 59]

  // ---------------------------------------------------------------------------------------------
  // Text

  predicate Ascii(b: Byte) {
    b < 0x80
  }

  predicate Tail(s: seq<Byte>, i: nat) {
    i < |s| && 0x80 <= s[i] <= 0xBF
  }

  predicate Within(s: seq<Byte>, i: nat, low: Byte, high: Byte) {
    i < |s| && low <= s[i] <= high
  }

  /** The length of the well-formed character at the front, or 0: the table of section 4 of RFC 3629. */
  function CharLength(s: seq<Byte>): (n: nat)
    requires s != []
    ensures n <= |s| && n <= 4
  {
    var b := s[0];
    if b < 0x80 then 1
    else if 0xC2 <= b <= 0xDF then (if Tail(s, 1) then 2 else 0)
    else if 0xE0 <= b <= 0xEF then
      var second := if b == 0xE0 then Within(s, 1, 0xA0, 0xBF) else if b == 0xED then Within(s, 1, 0x80, 0x9F) else Tail(s, 1);
      if second && Tail(s, 2) then 3 else 0
    else if 0xF0 <= b <= 0xF4 then
      var second := if b == 0xF0 then Within(s, 1, 0x90, 0xBF) else if b == 0xF4 then Within(s, 1, 0x80, 0x8F) else Tail(s, 1);
      if second && Tail(s, 2) && Tail(s, 3) then 4 else 0
    else 0
  }

  predicate Utf8(s: seq<Byte>) {
    s == [] || (CharLength(s) > 0 && Utf8(s[CharLength(s)..]))
  }

  /** Control characters: below U+0020, and U+007F to U+009F, the latter two bytes long from U+0080 on. */
  predicate HasControl(s: seq<Byte>) {
    exists i :: 0 <= i < |s| && ControlAt(s, i)
  }

  predicate ControlAt(s: seq<Byte>, i: nat)
    requires i < |s|
  {
    s[i] < 0x20 || s[i] == 0x7F || (s[i] == 0xC2 && Within(s, i + 1, 0x80, 0x9F))
  }

  function TrimZeros(s: seq<Byte>): seq<Byte> {
    if s != [] && s[|s| - 1] == 0 then TrimZeros(s[..|s| - 1]) else s
  }

  /** The first position of the closing mark. */
  function ClosingAt(s: seq<Byte>): (at: Option<nat>)
    ensures at.Some? ==> at.value + 2 <= |s|
  {
    if |s| < 2 then None
    else if s[0] == 39 && s[1] == 59 then Some(0)
    else
      match ClosingAt(s[1..])
      case None => None
      case Some(i) => Some(i + 1)
  }

  function RawTitle(block: seq<Byte>): Option<seq<Byte>> {
    if !Utf8(block) then None
    else
      var text := TrimZeros(block);
      if !(OPENING <= text) then None
      else
        var rest := text[|OPENING|..];
        match ClosingAt(rest)
        case None => None
        case Some(i) =>
          var title := rest[..i];
          if title == [] || |title| > MAX_TITLE_LENGTH || HasControl(title) then None else Some(title)
  }

  // ---------------------------------------------------------------------------------------------
  // Which blocks carry a title

  ghost predicate MarkAt(s: seq<Byte>, i: nat) {
    i + 1 < |s| && s[i] == 39 && s[i + 1] == 59
  }

  ghost predicate NoMark(title: seq<Byte>) {
    forall i: nat :: !MarkAt(title, i)
  }

  lemma MarkInTail(s: seq<Byte>)
    requires s != []
    ensures forall i: nat :: MarkAt(s[1..], i) <==> MarkAt(s, i + 1)
  {
  }

  /** The position found is the first closing mark, and none is found exactly when there is none. */
  lemma {:induction false} ClosingIsExact(s: seq<Byte>)
    ensures ClosingAt(s).None? <==> NoMark(s)
    ensures ClosingAt(s).Some? ==> MarkAt(s, ClosingAt(s).value) && forall j: nat :: j < ClosingAt(s).value ==> !MarkAt(s, j)
  {
    if |s| >= 2 && !MarkAt(s, 0) {
      ClosingIsExact(s[1..]);
      MarkInTail(s);
      if ClosingAt(s).None? {
        forall i: nat ensures !MarkAt(s, i) {
          assert i > 0 ==> !MarkAt(s[1..], i - 1);
        }
      } else {
        var at := ClosingAt(s).value;
        assert MarkAt(s[1..], at - 1);
        forall j: nat | j < at ensures !MarkAt(s, j) {
          assert j > 0 ==> !MarkAt(s[1..], j - 1);
        }
      }
    }
  }

  /** In a title followed by a mark and anything, the mark is the first exactly when the title has none. */
  lemma {:induction false} ClosingAfterTitle(title: seq<Byte>, tail: seq<Byte>)
    ensures ClosingAt(title + (CLOSING + tail)) == Some(|title|) <==> NoMark(title)
    ensures ClosingAt(title + (CLOSING + tail)).Some? && ClosingAt(title + (CLOSING + tail)).value <= |title|
  {
    var s := title + (CLOSING + tail);
    if title == [] {
      assert s == CLOSING + tail && s[0] == 39 && s[1] == 59;
    } else {
      assert s[0] == title[0] && s[1..] == title[1..] + (CLOSING + tail);
      assert s[1] == if |title| == 1 then 39 else title[1];
      ClosingAfterTitle(title[1..], tail);
      MarkInTail(title);
      if NoMark(title) {
        assert !MarkAt(title, 0);
      } else {
        var i: nat :| MarkAt(title, i);
        assert i > 0 ==> MarkAt(title[1..], i - 1);
      }
    }
  }

  lemma {:induction false} TrimKeepsFront(front: seq<Byte>, tail: seq<Byte>)
    requires front != [] && front[|front| - 1] != 0
    ensures TrimZeros(front + tail) == front + TrimZeros(tail)
  {
    if tail == [] {
      assert front + tail == front;
    } else {
      assert (front + tail)[..|front| + |tail| - 1] == front + tail[..|tail| - 1];
      TrimKeepsFront(front, tail[..|tail| - 1]);
    }
  }

  lemma {:induction false} TrimIsFront(s: seq<Byte>)
    ensures TrimZeros(s) <= s
  {
    if s != [] && s[|s| - 1] == 0 {
      TrimIsFront(s[..|s| - 1]);
    }
  }

  /** The bytes of ASCII text. */
  function Spelled(text: string): seq<Byte>
    requires forall i :: 0 <= i < |text| ==> text[i] < '\U{80}'
  {
    seq(|text|, i requires 0 <= i < |text| => text[i] as int as Byte)
  }

  lemma MarksAreSpelled()
    ensures OPENING == Spelled("StreamTitle='") && CLOSING == Spelled("';")
  {
  }

  /** What a title may be: up to 512 bytes, without control characters and without a closing mark inside. */
  ghost predicate AllowedTitle(title: seq<Byte>) {
    1 <= |title| <= 512 && !HasControl(title) && NoMark(title)
  }

  /**
    Whatever follows the closing mark, other fields or padding: the title is read if and only if it is allowed and the
    whole block is well-formed text.
   */
  lemma {:induction false} TitleIsReadIff(title: seq<Byte>, tail: seq<Byte>)
    ensures var block := Spelled("StreamTitle='") + (title + (Spelled("';") + tail));
            RawTitle(block) == Some(title) <==> AllowedTitle(title) && Utf8(block)
  {
    MarksAreSpelled();
    var front := OPENING + (title + CLOSING);
    var kept := TrimZeros(tail);
    assert front[|front| - 1] == 59;
    TrimKeepsFront(front, tail);
    assert OPENING + (title + (CLOSING + tail)) == front + tail;
    assert front + kept == OPENING + (title + (CLOSING + kept));
    assert (front + kept)[|OPENING|..] == title + (CLOSING + kept);
    ClosingAfterTitle(title, kept);
    assert (title + (CLOSING + kept))[..|title|] == title;
  }

  /** A title is read only from a block of that shape. */
  lemma {:induction false} TitleComesFromFrame(block: seq<Byte>) returns (tail: seq<Byte>)
    requires RawTitle(block).Some?
    ensures var title := RawTitle(block).value;
            block == Spelled("StreamTitle='") + (title + (Spelled("';") + tail)) && AllowedTitle(title) && Utf8(block)
  {
    MarksAreSpelled();
    var text := TrimZeros(block);
    var rest := text[|OPENING|..];
    var i := ClosingAt(rest).value;
    TrimIsFront(block);
    ClosingIsExact(rest);
    BeforeFirstMark(rest, i);
    tail := rest[i + 2..] + block[|text|..];
    Reassembled(block, text, rest, i);
  }

  lemma BeforeFirstMark(rest: seq<Byte>, i: nat)
    requires MarkAt(rest, i) && forall j: nat :: j < i ==> !MarkAt(rest, j)
    ensures NoMark(rest[..i]) && rest == rest[..i] + (CLOSING + rest[i + 2..])
  {
    forall j: nat ensures !MarkAt(rest[..i], j) {
      assert MarkAt(rest[..i], j) ==> MarkAt(rest, j);
    }
  }

  lemma Reassembled(block: seq<Byte>, text: seq<Byte>, rest: seq<Byte>, i: nat)
    requires text <= block && OPENING <= text && rest == text[|OPENING|..] && i + 2 <= |rest|
    requires rest == rest[..i] + (CLOSING + rest[i + 2..])
    ensures block == OPENING + (rest[..i] + (CLOSING + (rest[i + 2..] + block[|text|..])))
  {
    var end := block[|text|..];
    assert block == text + end && text == OPENING + rest;
    assert CLOSING + (rest[i + 2..] + end) == (CLOSING + rest[i + 2..]) + end;
    assert rest[..i] + ((CLOSING + rest[i + 2..]) + end) == rest + end;
  }

  // ---------------------------------------------------------------------------------------------
  // A framed title is read back exactly when it is plain

  function Zeros(n: nat): seq<Byte> {
    seq(n, _ => 0)
  }

  /** A block as a station sends it: the title between its marks, padded with zeros. */
  function Framed(title: seq<Byte>, padding: nat): seq<Byte> {
    OPENING + (title + (CLOSING + Zeros(padding)))
  }

  ghost predicate PlainTitle(title: seq<Byte>) {
    title != [] && |title| <= MAX_TITLE_LENGTH && Utf8(title) && !HasControl(title) && NoMark(title)
  }

  lemma {:induction false} AsciiFront(front: seq<Byte>, s: seq<Byte>)
    requires forall i :: 0 <= i < |front| ==> Ascii(front[i])
    ensures Utf8(front + s) <==> Utf8(s)
  {
    if front == [] {
      assert front + s == s;
    } else {
      assert (front + s)[1..] == front[1..] + s;
      AsciiFront(front[1..], s);
    }
  }

  lemma {:induction false} AsciiBack(s: seq<Byte>, back: seq<Byte>)
    requires back != [] && forall i :: 0 <= i < |back| ==> Ascii(back[i])
    ensures Utf8(s + back) <==> Utf8(s)
    decreases |s|
  {
    if s == [] {
      AsciiFront(back, []);
      assert back + [] == back && s + back == back;
    } else {
      var n := CharLength(s);
      if n > 0 {
        assert (s + back)[n..] == s[n..] + back;
        AsciiBack(s[n..], back);
      }
    }
  }

  lemma FrameIsText(title: seq<Byte>, padding: nat)
    ensures Utf8(Framed(title, padding)) <==> Utf8(title)
  {
    var back := CLOSING + Zeros(padding);
    AsciiFront(OPENING, title + back);
    AsciiBack(title, back);
  }

  /** Reading a framed title gives it back if and only if it is non-empty, short, well-formed and free of controls and closing marks. */
  lemma {:induction false} TitleRoundTripIsExact(title: seq<Byte>, padding: nat)
    ensures RawTitle(Framed(title, padding)) == Some(title) <==> PlainTitle(title)
  {
    MarksAreSpelled();
    FrameIsText(title, padding);
    TitleIsReadIff(title, Zeros(padding));
  }

  // ---------------------------------------------------------------------------------------------
  // Well-formed text is the encoding of some characters

  /** Unicode scalar values. */
  predicate Scalar(c: nat) {
    c <= 0x10FFFF && !(0xD800 <= c <= 0xDFFF)
  }

  /** Section 3 of RFC 3629. */
  function EncodeChar(c: nat): seq<Byte>
    requires Scalar(c)
  {
    if c <= 0x7F then [c as Byte]
    else if c <= 0x7FF then [(0xC0 + c / 0x40) as Byte, (0x80 + c % 0x40) as Byte]
    else if c <= 0xFFFF then
      [(0xE0 + c / 0x40 / 0x40) as Byte, (0x80 + c / 0x40 % 0x40) as Byte, (0x80 + c % 0x40) as Byte]
    else
      [(0xF0 + c / 0x40 / 0x40 / 0x40) as Byte, (0x80 + c / 0x40 / 0x40 % 0x40) as Byte, (0x80 + c / 0x40 % 0x40) as Byte,
       (0x80 + c % 0x40) as Byte]
  }

  ghost predicate Scalars(cs: seq<nat>) {
    forall i :: 0 <= i < |cs| ==> Scalar(cs[i])
  }

  function EncodeText(cs: seq<nat>): seq<Byte>
    requires forall i :: 0 <= i < |cs| ==> Scalar(cs[i])
  {
    if cs == [] then [] else EncodeChar(cs[0]) + EncodeText(cs[1..])
  }

  /** A byte sequence read as digits to the base 64. */
  function Joined(high: nat, low: Byte): nat
    requires 0x80 <= low <= 0xBF
  {
    high * 0x40 + (low as nat - 0x80)
  }

  /** The character that well-formed bytes stand for. */
  function DecodeChar(s: seq<Byte>): nat
    requires s != [] && CharLength(s) > 0
  {
    match CharLength(s)
    case 1 => s[0] as nat
    case 2 => Joined(s[0] as nat - 0xC0, s[1])
    case 3 => Joined(Joined(s[0] as nat - 0xE0, s[1]), s[2])
    case _ => Joined(Joined(Joined(s[0] as nat - 0xF0, s[1]), s[2]), s[3])
  }

  lemma EncodedIsWellFormed(c: nat, rest: seq<Byte>)
    requires Scalar(c)
    ensures CharLength(EncodeChar(c) + rest) == |EncodeChar(c)|
  {
    var s := EncodeChar(c) + rest;
    assert s[0] == EncodeChar(c)[0];
    if c > 0x7F {
      assert s[1] == EncodeChar(c)[1];
      if c > 0x7FF {
        assert s[2] == EncodeChar(c)[2];
        if c > 0xFFFF {
          assert s[3] == EncodeChar(c)[3];
        }
      }
    }
  }

  lemma WellFormedIsEncoded(s: seq<Byte>)
    requires s != [] && CharLength(s) > 0
    ensures Scalar(DecodeChar(s)) && EncodeChar(DecodeChar(s)) == s[..CharLength(s)]
  {
    match CharLength(s)
    case 1 =>
    case 2 => TwoBytes(s);
    case 3 => ThreeBytes(s);
    case _ => FourBytes(s);
  }

  lemma TwoBytes(s: seq<Byte>)
    requires s != [] && CharLength(s) == 2
    ensures Scalar(DecodeChar(s)) && EncodeChar(DecodeChar(s)) == s[..2]
  {
  }

  lemma ThreeBytes(s: seq<Byte>)
    requires s != [] && CharLength(s) == 3
    ensures Scalar(DecodeChar(s)) && EncodeChar(DecodeChar(s)) == s[..3]
  {
    var high := Joined(s[0] as nat - 0xE0, s[1]);
    assert 0x20 <= high <= 0x3FF && !(0x360 <= high <= 0x37F);
  }

  lemma FourBytes(s: seq<Byte>)
    requires s != [] && CharLength(s) == 4
    ensures Scalar(DecodeChar(s)) && EncodeChar(DecodeChar(s)) == s[..4]
  {
    var high := Joined(s[0] as nat - 0xF0, s[1]);
    assert 0x10 <= high <= 0x10F;
  }

  /** Bytes are well-formed if and only if they encode a sequence of Unicode scalar values. */
  lemma {:induction false} Utf8IsExact(s: seq<Byte>)
    ensures Utf8(s) <==> exists cs: seq<nat> :: Scalars(cs) && EncodeText(cs) == s
  {
    if Utf8(s) {
      var cs := DecodeText(s);
      assert EncodeText(cs) == s;
    }
    forall cs: seq<nat> | Scalars(cs) && EncodeText(cs) == s ensures Utf8(s) {
      EncodedTextIsWellFormed(cs);
    }
  }

  lemma {:induction false} EncodedTextIsWellFormed(cs: seq<nat>)
    requires Scalars(cs)
    ensures Utf8(EncodeText(cs))
  {
    if cs != [] {
      EncodedTextIsWellFormed(cs[1..]);
      EncodedIsWellFormed(cs[0], EncodeText(cs[1..]));
      assert EncodeText(cs)[|EncodeChar(cs[0])|..] == EncodeText(cs[1..]);
    }
  }

  lemma {:induction false} DecodeText(s: seq<Byte>) returns (cs: seq<nat>)
    requires Utf8(s)
    ensures Scalars(cs) && EncodeText(cs) == s
    decreases |s|
  {
    if s == [] {
      cs := [];
    } else {
      WellFormedIsEncoded(s);
      var n := CharLength(s);
      var rest := DecodeText(s[n..]);
      cs := [DecodeChar(s)] + rest;
      assert cs[1..] == rest && s == s[..n] + s[n..];
    }
  }

  /** A control character: U+0000 to U+001F, U+007F, U+0080 to U+009F. */
  predicate Control(c: nat) {
    c <= 0x1F || 0x7F <= c <= 0x9F
  }

  lemma CharHasControl(c: nat, rest: seq<Byte>)
    requires Scalar(c)
    ensures var s := EncodeChar(c) + rest;
            HasControl(s) <==> Control(c) || HasControl(rest)
  {
    var first := EncodeChar(c);
    var s := first + rest;
    var n := |first|;
    assert forall i :: 0 <= i < n ==> s[i] == first[i];
    assert forall i :: 0 <= i < |rest| ==> s[n + i] == rest[i];
    assert forall i :: 0 <= i < |rest| ==> (ControlAt(s, n + i) <==> ControlAt(rest, i));
    assert Control(c) <==> ControlAt(s, 0);
    assert forall i :: 0 < i < n ==> !ControlAt(s, i);
    if HasControl(s) {
      var i :| 0 <= i < |s| && ControlAt(s, i);
      assert i >= n ==> ControlAt(rest, i - n);
    }
    if HasControl(rest) {
      var i :| 0 <= i < |rest| && ControlAt(rest, i);
      assert ControlAt(s, n + i);
    }
  }

  /** On encoded text the byte test finds exactly the control characters. */
  lemma {:induction false} ControlIsExact(cs: seq<nat>)
    requires Scalars(cs)
    ensures HasControl(EncodeText(cs)) <==> exists i :: 0 <= i < |cs| && Control(cs[i])
  {
    if cs != [] {
      ControlIsExact(cs[1..]);
      CharHasControl(cs[0], EncodeText(cs[1..]));
      assert forall i :: 0 < i < |cs| ==> cs[i] == cs[1..][i - 1];
      if exists i :: 0 <= i < |cs[1..]| && Control(cs[1..][i]) {
        var i :| 0 <= i < |cs[1..]| && Control(cs[1..][i]);
        assert Control(cs[i + 1]);
      }
    }
  }
}
