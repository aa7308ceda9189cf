/**
 Offsets as text. The storage service writes a position as two zero-padded numbers of sixteen digits, and
 the engine compares and reads them as text; this is why the other models may treat an offset as a
 position.
 */
module Offsets {
  import opened Basics
  import opened Values

  const WIDTH: nat := 16

  function Pow10(w: nat): (p: nat)
    ensures p > 0
  {
    if w == 0 then 1 else 10 * Pow10(w - 1)
  }

  function DigitChar(d: nat): (c: char)
    requires d < 10
    ensures '0' <= c <= '9'
  {
    '0' + d as char
  }

  /** `n` in `w` digits, most significant first. */
  function Digits(n: nat, w: nat): (s: string)
    ensures |s| == w && forall i | 0 <= i < w :: '0' <= s[i] <= '9'
  {
    if w == 0 then [] else Digits(n / 10, w - 1) + [DigitChar(n % 10)]
  }

  datatype Position = Start | Position(read: nat, byte: nat)

  predicate Fits(p: Position) {
    p.Position? ==> p.read < Pow10(WIDTH) && p.byte < Pow10(WIDTH)
  }

  function OffsetText(p: Position): string {
    match p
    case Start => "-1"
    case Position(read, byte) => Digits(read, WIDTH) + "_" + Digits(byte, WIDTH)
  }

  /** Stream order. */
  function ComparePositions(a: Position, b: Position): Ordering {
    match (a, b)
    case (Start, Start) => Equal
    case (Start, _) => Less
    case (_, Start) => Greater
    case (Position(r, x), Position(s, y)) => if r == s then CompareInt(x, y) else CompareInt(r, s)
  }

  predicate OffsetAfterText(a: string, b: string) {
    if a == "-1" then false
    else if b == "-1" then true
    else CompareText(a, b).Greater?
  }

  /** A position in the segmented log, compared field by field. */
  function CompareLogPositions(segmentA: nat, offsetA: string, segmentB: nat, offsetB: string): Ordering {
    if segmentA == segmentB then CompareText(offsetA, offsetB) else CompareInt(segmentA, segmentB)
  }

  /** Texts that start with equally long parts compare by those, then by what follows. */
  lemma {:induction false} CompareByParts(a: string, b: string, c: string, d: string)
    requires |a| == |b|
    ensures CompareText(a + c, b + d) == if CompareText(a, b).Equal? then CompareText(c, d) else CompareText(a, b)
  {
    if a == [] {
      assert a + c == c && b + d == d;
    } else {
      assert (a + c)[1..] == a[1..] + c && (b + d)[1..] == b[1..] + d;
      CompareByParts(a[1..], b[1..], c, d);
    }
  }

  /** Zero-padded numbers of one width compare as the numbers do. */
  lemma {:induction false} DigitsKeepOrder(m: nat, n: nat, w: nat)
    requires m < Pow10(w) && n < Pow10(w)
    ensures CompareText(Digits(m, w), Digits(n, w)) == CompareInt(m, n)
  {
    if w > 0 {
      DigitsKeepOrder(m / 10, n / 10, w - 1);
      var x, y := [DigitChar(m % 10)], [DigitChar(n % 10)];
      CompareByParts(Digits(m / 10, w - 1), Digits(n / 10, w - 1), x, y);
      assert x[1..] == [] && y[1..] == [];
      assert CompareText(x, y) == CompareInt(m % 10, n % 10);
    }
  }

  /** Comparing offset texts is comparing positions. */
  lemma TextOrderIsStreamOrder(a: Position, b: Position)
    requires Fits(a) && Fits(b)
    ensures CompareText(OffsetText(a), OffsetText(b)) == ComparePositions(a, b)
  {
    match (a, b)
    case (Start, Start) =>
      assert CompareText("1", "1").Equal? by {
        assert "1"[1..] == [];
      }
      assert "-1"[1..] == "1";
    case (Start, Position(s, y)) => assert OffsetText(b)[0] >= '0';
    case (Position(r, x), Start) => assert OffsetText(a)[0] >= '0';
    case (Position(r, x), Position(s, y)) => {
      DigitsKeepOrder(r, s, WIDTH);
      DigitsKeepOrder(x, y, WIDTH);
      CompareByParts(Digits(r, WIDTH) + "_", Digits(s, WIDTH) + "_", Digits(x, WIDTH), Digits(y, WIDTH));
      CompareByParts(Digits(r, WIDTH), Digits(s, WIDTH), "_", "_");
      assert "_"[1..] == [];
    }
  }

  /** `offset_after` says which position is later, and text order among log positions is segment, then
      position. */
  lemma OffsetTestsAreStreamOrder(a: Position, b: Position, m: nat, n: nat)
    requires Fits(a) && Fits(b)
    ensures OffsetAfterText(OffsetText(a), OffsetText(b)) <==> ComparePositions(a, b).Greater?
    ensures CompareLogPositions(m, OffsetText(a), n, OffsetText(b)) ==
            if m == n then ComparePositions(a, b) else CompareInt(m, n)
  {
    TextOrderIsStreamOrder(a, b);
    if a.Position? {
      assert |OffsetText(a)| == 2 * WIDTH + 1;
    }
    if b.Position? {
      assert |OffsetText(b)| == 2 * WIDTH + 1;
    }
  }

  // ---- Reading the byte position ------------------------------------------------------------------

  /** The first place of `c`, or the length. */
  function Find(s: string, c: char): (i: nat)
    ensures i <= |s| && (i < |s| ==> s[i] == c) && forall j | 0 <= j < i :: s[j] != c
  {
    if s == [] || s[0] == c then 0
    else
      var k := Find(s[1..], c);
      assert forall j | 0 < j < k + 1 :: s[j] == s[1..][j - 1];
      k + 1
  }

  predicate AllDigits(s: string) {
    forall i | 0 <= i < |s| :: '0' <= s[i] <= '9'
  }

  function Number(s: string): nat
    requires AllDigits(s)
  {
    if s == [] then 0 else 10 * Number(s[..|s| - 1]) + (s[|s| - 1] as int - '0' as int)
  }

  /** The length in bytes, in UTF-8. */
  function ByteLength(s: string): nat {
    if s == [] then 0
    else (if s[0] as int < 0x80 then 1 else if s[0] as int < 0x800 then 2 else if s[0] as int < 0x1_0000 then 3 else 4)
         + ByteLength(s[1..])
  }

  /** The bytes of a text in UTF-8 (section 3 of RFC 3629). */
  function Utf8(s: string): seq<int> {
    if s == [] then [] else Utf8Char(s[0] as int) + Utf8(s[1..])
  }

  function Utf8Char(u: int): seq<int> {
    if u < 0x80 then [u]
    else if u < 0x800 then [0xC0 + u / 0x40, Continuation(u)]
    else if u < 0x1_0000 then [0xE0 + u / 0x1000, Continuation(u / 0x40), Continuation(u)]
    else [0xF0 + u / 0x4_0000, Continuation(u / 0x1000), Continuation(u / 0x40), Continuation(u)]
  }

  function Continuation(u: int): int {
    0x80 + u % 0x40
  }

  lemma {:induction false} ByteLengthIs(s: string)
    ensures ByteLength(s) == |Utf8(s)|
  {
    if s != [] {
      ByteLengthIs(s[1..]);
    }
  }

  lemma {:induction false} DigitsAreBytes(s: string)
    requires AllDigits(s)
    ensures ByteLength(s) == |s|
  {
    if s != [] {
      assert AllDigits(s[1..]);
      DigitsAreBytes(s[1..]);
    }
  }

  function OffsetBytes(offset: string): Option<nat> {
    var at := Find(offset, '_');
    if at == |offset| then None
    else
      var bytes := offset[at + 1..];
      if ByteLength(offset[..at]) != WIDTH || ByteLength(bytes) != WIDTH || !AllDigits(bytes) then None
      else Some(Number(bytes))
  }

  lemma {:induction false} NumberOfDigits(n: nat, w: nat)
    requires n < Pow10(w)
    ensures Number(Digits(n, w)) == n
  {
    if w > 0 {
      var s := Digits(n, w);
      assert s[..w - 1] == Digits(n / 10, w - 1) && s[w - 1] == DigitChar(n % 10);
      NumberOfDigits(n / 10, w - 1);
    }
  }

  lemma {:induction false} DigitsOfNumber(s: string)
    requires AllDigits(s)
    ensures Number(s) < Pow10(|s|) && Digits(Number(s), |s|) == s
  {
    if s != [] {
      var front := s[..|s| - 1];
      DigitsOfNumber(front);
      assert Number(s) / 10 == Number(front);
      assert s == front + [s[|s| - 1]];
    }
  }

  /** Sixteen bytes without an underscore, the underscore at `at`, and `n` in sixteen digits. */
  ghost predicate WritesAt(offset: string, at: nat, n: nat) {
    && n < Pow10(WIDTH) && at < |offset| && |Utf8(offset[..at])| == WIDTH
    && (forall i | 0 <= i < at :: offset[i] != '_')
    && offset[at] == '_' && offset[at + 1..] == Digits(n, WIDTH)
  }

  lemma WrittenIsRead(offset: string, at: nat, n: nat)
    requires WritesAt(offset, at, n)
    ensures OffsetBytes(offset) == Some(n)
  {
    NumberOfDigits(n, WIDTH);
    DigitsAreBytes(offset[at + 1..]);
    ByteLengthIs(offset[..at]);
    assert Find(offset, '_') == at;
  }

  lemma ReadWasWritten(offset: string)
    requires OffsetBytes(offset).Some?
    ensures WritesAt(offset, Find(offset, '_'), OffsetBytes(offset).value)
  {
    var at := Find(offset, '_');
    var bytes := offset[at + 1..];
    ByteLengthIs(offset[..at]);
    DigitsAreBytes(bytes);
    DigitsOfNumber(bytes);
  }

  /** The byte position is read back from every offset the service writes, and a number is read from
      nothing but texts of that form. */
  lemma OffsetBytesReadsBack(p: Position, offset: string, n: nat)
    requires Fits(p)
    ensures OffsetBytes(OffsetText(p)) == if p.Start? then None else Some(p.byte)
    ensures OffsetBytes(offset) == Some(n) <==> exists at :: WritesAt(offset, at, n)
  {
    if p.Position? {
      var text := OffsetText(p);
      assert text[..WIDTH] == Digits(p.read, WIDTH) && text[WIDTH + 1..] == Digits(p.byte, WIDTH);
      DigitsAreBytes(text[..WIDTH]);
      ByteLengthIs(text[..WIDTH]);
      WrittenIsRead(text, WIDTH, p.byte);
    }
    forall at | WritesAt(offset, at, n) ensures OffsetBytes(offset) == Some(n) {
      WrittenIsRead(offset, at, n);
    }
    if OffsetBytes(offset).Some? {
      ReadWasWritten(offset);
    }
  }
}
