/** Conversion between UTF-16 and UTF-8 strings. */
module Unicode {

  const HIGH_SURROGATE_START := 0xD800
  const HIGH_SURROGATE_END := 0xDBFF
  const LOW_SURROGATE_START := 0xDC00
  const LOW_SURROGATE_END := 0xDFFF
  const SURROGATE_HALFBASE := 0x10000
  const SURROGATE_HALFSHIFT := 0x400 // as a factor: ten bits

  type Byte = x: int | 0 <= x < 0x100
  type Unit = x: int | 0 <= x < 0x10000

  predicate High(u: int) {
    HIGH_SURROGATE_START <= u <= HIGH_SURROGATE_END
  }

  predicate Low(u: int) {
    LOW_SURROGATE_START <= u <= LOW_SURROGATE_END
  }

  /** A string in memory: behind its end comes the zero that ends it. */
  function UnitAt(s: seq<Unit>, i: nat): Unit {
    if i < |s| then s[i] else 0
  }

  function ByteAt(b: seq<Byte>, i: nat): Byte {
    if i < |b| then b[i] else 0
  }

  /** No zero, and low surrogates come exactly behind high ones. */
  predicate WellFormed(s: seq<Unit>) {
    s == [] ||
    (s[0] != 0 && !Low(s[0]) &&
     if High(s[0]) then |s| > 1 && Low(s[1]) && WellFormed(s[2..]) else WellFormed(s[1..]))
  }

  predicate NoZero(s: seq<Unit>) {
    forall i :: 0 <= i < |s| ==> s[i] != 0
  }

  // ---------- Encoding ----------

  /** The code point of a surrogate pair, in 32-bit arithmetic. */
  function Pair(high: Unit, low: Unit): nat {
    (SURROGATE_HALFBASE + (high - HIGH_SURROGATE_START) * SURROGATE_HALFSHIFT + low - LOW_SURROGATE_START) % 0x1_0000_0000
  }

  function Two(ch: nat): (r: seq<Byte>)
    requires 0x80 <= ch < 0x800
    ensures |r| == 2
  {
    [0xC0 + ch / 0x40 % 0x20, 0x80 + ch % 0x40]
  }

  function Three(ch: nat): (r: seq<Byte>)
    ensures |r| == 3
  {
    [0xE0 + ch / 0x1000 % 0x10, 0x80 + ch / 0x40 % 0x40, 0x80 + ch % 0x40]
  }

  function Four(ch: nat): (r: seq<Byte>)
    ensures |r| == 4
  {
    [0xF0 + ch / 0x40000 % 8, 0x80 + ch / 0x1000 % 0x40, 0x80 + ch / 0x40 % 0x40, 0x80 + ch % 0x40]
  }

  /** The bytes of the first character of a string, and how many units it has. */
  function EncodedFirst(s: seq<Unit>): (r: (seq<Byte>, nat))
    requires s != []
    ensures 1 <= |r.0| <= 4 && 1 <= r.1 <= 2
  {
    var ch := s[0];
    if ch < 0x80 then ([ch], 1)
    else if ch < 0x800 then (Two(ch), 1)
    else if High(ch) then (Four(Pair(ch, UnitAt(s, 1))), 2)
    else (Three(ch), 1)
  }

  function Rest<T>(s: seq<T>, n: nat): (r: seq<T>)
    ensures n > 0 && s != [] ==> |r| < |s|
  {
    if n <= |s| then s[n..] else []
  }

  /** The encoding of section 3 of RFC 3629, up to the end of the string. */
  function Encoded(s: seq<Unit>): seq<Byte>
    decreases |s|
  {
    if s == [] || s[0] == 0 then []
    else EncodedFirst(s).0 + Encoded(Rest(s, EncodedFirst(s).1))
  }

  // ---------- Decoding ----------

  /** What a lead byte begins: how many bytes and how many units, or nothing that is legal. */
  datatype Lead = Illegal | Legal(bytes: nat, units: nat)

  function LeadOf(b: Byte): (l: Lead)
    ensures l.Legal? ==> 1 <= l.bytes <= 4 && 1 <= l.units <= 2
  {
    if b == 0 then Illegal
    else if b < 0x80 then Legal(1, 1)
    else if b < 0xC2 then Illegal
    else if b < 0xE0 then Legal(2, 1)
    else if b < 0xF0 then Legal(3, 1)
    else if b < 0xF5 then Legal(4, 2)
    else Illegal
  }

  /** The units of the character that begins with byte `i`. */
  function DecodedFirst(b: seq<Byte>): (r: seq<Unit>)
    requires b != [] && LeadOf(b[0]).Legal?
    ensures |r| == LeadOf(b[0]).units
  {
    var l1, l2, l3 := ByteAt(b, 1) % 0x40, ByteAt(b, 2) % 0x40, ByteAt(b, 3) % 0x40;
    match LeadOf(b[0]).bytes
    case 1 => [b[0]]
    case 2 => [b[0] % 0x20 * 0x40 + l1]
    case 3 => [b[0] % 0x10 * 0x1000 + l1 * 0x40 + l2]
    case _ =>
      var ch := b[0] % 8 * 0x40000 + l1 * 0x1000 + l2 * 0x40 + l3;
      [ch / SURROGATE_HALFSHIFT + HIGH_SURROGATE_START, ch % SURROGATE_HALFSHIFT + LOW_SURROGATE_START]
  }

  function Decoded(b: seq<Byte>): seq<Unit>
    decreases |b|
  {
    if b == [] || LeadOf(b[0]).Illegal? then []
    else DecodedFirst(b) + Decoded(Rest(b, LeadOf(b[0]).bytes))
  }

  // ---------- Round trip ----------

  /** A character is decoded from its own bytes, whatever follows. */
  lemma OwnBytes(e: seq<Byte>, more: seq<Byte>)
    requires e != [] && LeadOf(e[0]).Legal? && LeadOf(e[0]).bytes == |e|
    ensures DecodedFirst(e + more) == DecodedFirst(e) && Rest(e + more, |e|) == more && Rest(e, |e|) == []
  {
    assert (e + more)[|e|..] == more;
    assert forall i :: 0 <= i < |e| ==> ByteAt(e + more, i) == ByteAt(e, i) == e[i];
  }

  lemma TwoBack(ch: Unit)
    requires 0x80 <= ch < 0x800
    ensures LeadOf(Two(ch)[0]) == Legal(2, 1) && DecodedFirst(Two(ch)) == [ch]
  {
  }

  lemma ThreeBack(ch: Unit)
    requires ch >= 0x800
    ensures LeadOf(Three(ch)[0]) == Legal(3, 1) && DecodedFirst(Three(ch)) == [ch]
  {
    assert ch / 0x1000 % 0x10 * 0x1000 + ch / 0x40 % 0x40 * 0x40 + ch % 0x40 == ch;
  }

  lemma Parts(ch: nat)
    requires ch < 0x200000
    ensures ch / 0x40000 % 8 * 0x40000 + ch / 0x1000 % 0x40 * 0x1000 + ch / 0x40 % 0x40 * 0x40 + ch % 0x40 == ch
  {
  }

  lemma PairIs(high: Unit, low: Unit)
    requires High(high) && Low(low)
    ensures var ch := Pair(high, low);
            && 0x10000 <= ch < 0x110000 && ch / 0x40000 % 8 < 5
            && ch / SURROGATE_HALFSHIFT + HIGH_SURROGATE_START == high + 0x40 && ch % SURROGATE_HALFSHIFT + LOW_SURROGATE_START == low
  {
  }

  lemma LowBits(x: nat)
    requires x < 0x40
    ensures (0x80 + x) % 0x40 == x
  {
  }

  /** A surrogate pair does not come back: the base that encoding adds is not taken off again. */
  lemma FourBack(high: Unit, low: Unit)
    requires High(high) && Low(low)
    ensures var e := Four(Pair(high, low)); LeadOf(e[0]) == Legal(4, 2) && DecodedFirst(e) == [high + 0x40, low]
  {
    hide Pair;
    var ch := Pair(high, low);
    PairIs(high, low);
    Parts(ch);
    var a, b, c, d := ch / 0x40000 % 8, ch / 0x1000 % 0x40, ch / 0x40 % 0x40, ch % 0x40;
    LowBits(b);
    LowBits(c);
    LowBits(d);
    FourBytes(a, b, c, d);
  }

  lemma FourBytes(a: nat, b: nat, c: nat, d: nat)
    requires a < 5 && b < 0x40 && c < 0x40 && d < 0x40 && a * 0x40000 + b * 0x1000 + c * 0x40 + d < 0x120000
    ensures var e: seq<Byte>, ch := [0xF0 + a, 0x80 + b, 0x80 + c, 0x80 + d], a * 0x40000 + b * 0x1000 + c * 0x40 + d;
            && LeadOf(e[0]) == Legal(4, 2)
            && DecodedFirst(e) == [ch / SURROGATE_HALFSHIFT + HIGH_SURROGATE_START, ch % SURROGATE_HALFSHIFT + LOW_SURROGATE_START]
  {
    LowBits(b);
    LowBits(c);
    LowBits(d);
    assert (0xF0 + a) % 8 == a;
  }

  /** The first character comes back, unless it is a surrogate pair: that comes back as another. */
  lemma FirstBack(s: seq<Unit>)
    requires s != [] && WellFormed(s)
    ensures var e, n := EncodedFirst(s).0, EncodedFirst(s).1;
            && n <= |s| && LeadOf(e[0]) == Legal(|e|, n) && DecodedFirst(e) == if High(s[0]) then [s[0] + 0x40, s[1]] else [s[0]]
  {
    hide Two, Three, Four, DecodedFirst, Pair;
    var ch := s[0];
    if ch < 0x80 { OneBack(ch); }
    else if ch < 0x800 { TwoBack(ch); }
    else if High(ch) { FourBack(ch, s[1]); }
    else { ThreeBack(ch); }
  }

  lemma OneBack(ch: Unit)
    requires 0 < ch < 0x80
    ensures LeadOf(ch) == Legal(1, 1) && DecodedFirst([ch]) == [ch]
  {
  }

  /** What comes back: each surrogate pair with its high half moved up. */
  function Shifted(s: seq<Unit>): (r: seq<int>)
    ensures |r| == |s|
    decreases |s|
  {
    if s == [] then []
    else if High(s[0]) && |s| > 1 then [s[0] + 0x40, s[1]] + Shifted(s[2..])
    else [s[0] as int] + Shifted(s[1..])
  }

  lemma {:induction false} DecodedEncoded(s: seq<Unit>)
    requires WellFormed(s)
    ensures Decoded(Encoded(s)) == Shifted(s) && |Encoded(s)| <= 3 * |s|
    decreases |s|
  {
    hide EncodedFirst, DecodedFirst;
    if s != [] {
      FirstBack(s);
      FirstUnits(s);
      var e, n := EncodedFirst(s).0, EncodedFirst(s).1;
      OwnBytes(e, Encoded(s[n..]));
      DecodedEncoded(s[n..]);
    }
  }

  lemma FirstUnits(s: seq<Unit>)
    requires s != [] && WellFormed(s)
    ensures EncodedFirst(s).1 == (if High(s[0]) then 2 else 1) && (|EncodedFirst(s).0| == 4 <==> High(s[0])) && EncodedFirst(s).0 != []
    ensures WellFormed(s[EncodedFirst(s).1..])
  {
  }

  /** Whatever stands behind a high surrogate, it comes back as a greater unit. */
  lemma HighChanges(high: Unit, low: Unit)
    requires High(high)
    ensures var e := Four(Pair(high, low)); LeadOf(e[0]) == Legal(4, 2) && DecodedFirst(e)[0] > high
  {
    PairRange(high, low);
    hide Pair;
    var ch := Pair(high, low);
    Parts(ch);
    var a, b, c, d := ch / 0x40000 % 8, ch / 0x1000 % 0x40, ch / 0x40 % 0x40, ch % 0x40;
    LowBits(b);
    LowBits(c);
    LowBits(d);
    FourBytes(a, b, c, d);
  }

  lemma PairRange(high: Unit, low: Unit)
    requires High(high)
    ensures var ch := Pair(high, low); ch < 0x112000 && ch / 0x40000 % 8 < 5 && ch / SURROGATE_HALFSHIFT + HIGH_SURROGATE_START > high
  {
    var ch := SURROGATE_HALFBASE + (high - HIGH_SURROGATE_START) * SURROGATE_HALFSHIFT + low - LOW_SURROGATE_START;
    assert ch == (0x40 + high - HIGH_SURROGATE_START - 0x37) * SURROGATE_HALFSHIFT + low;
    assert ch / SURROGATE_HALFSHIFT == 0x40 + high - HIGH_SURROGATE_START - 0x37 + low / SURROGATE_HALFSHIFT;
  }

  /** Every character that is encoded begins with a byte that says how many there are. */
  lemma FirstLegal(s: seq<Unit>)
    requires s != [] && s[0] != 0
    ensures var e, n := EncodedFirst(s).0, EncodedFirst(s).1;
            && LeadOf(e[0]) == Legal(|e|, n) && n == (if High(s[0]) then 2 else 1) && |e| <= 3 * n
            && if High(s[0]) then DecodedFirst(e)[0] > s[0] else DecodedFirst(e) == [s[0]]
  {
    hide Two, Three, Four, DecodedFirst, Pair;
    var ch := s[0];
    if ch < 0x80 { OneBack(ch); }
    else if ch < 0x800 { TwoBack(ch); }
    else if High(ch) { HighChanges(ch, UnitAt(s, 1)); }
    else { ThreeBack(ch); }
  }

  predicate NoHigh(s: seq<Unit>) {
    forall i :: 0 <= i < |s| ==> !High(s[i])
  }

  /** To UTF-8 and back is the identity exactly on the strings without high surrogates.  Low ones may stand alone. */
  lemma {:induction false} RoundTrip(s: seq<Unit>)
    requires NoZero(s)
    ensures Decoded(Encoded(s)) == s <==> NoHigh(s)
    decreases |s|
  {
    hide EncodedFirst, DecodedFirst;
    if s != [] {
      FirstLegal(s);
      var e, n := EncodedFirst(s).0, EncodedFirst(s).1;
      var more := Encoded(Rest(s, n));
      OwnBytes(e, more);
      assert Decoded(Encoded(s)) == DecodedFirst(e) + Decoded(more);
      if High(s[0]) {
        assert Decoded(Encoded(s))[0] != s[0];
      } else {
        RoundTrip(s[1..]);
        assert s == [s[0]] + s[1..] && Decoded(Encoded(s)) == [s[0]] + Decoded(Encoded(s[1..]));
        assert Decoded(Encoded(s))[1..] == Decoded(Encoded(s[1..]));
        assert NoHigh(s) <==> NoHigh(s[1..]) by {
          assert forall i :: 0 < i < |s| ==> s[i] == s[1..][i - 1];
        }
      }
    }
  }

  // ---------- The converters ----------

  /** What is left of a maximum after a character: surrogate pairs are not counted. */
  function Fewer(max: int, units: nat): int {
    if units == 2 then max else max - 1
  }

  /** The bytes of at most `max` characters. */
  function Bytes(s: seq<Unit>, max: int): seq<Byte>
    decreases |s|
  {
    if s == [] || s[0] == 0 || max <= 0 then []
    else EncodedFirst(s).0 + Bytes(Rest(s, EncodedFirst(s).1), Fewer(max, EncodedFirst(s).1))
  }

  lemma {:induction false} BytesAll(s: seq<Unit>, max: int)
    requires max >= |s|
    ensures Bytes(s, max) == Encoded(s)
    decreases |s|
  {
    if s != [] && s[0] != 0 { BytesAll(Rest(s, EncodedFirst(s).1), Fewer(max, EncodedFirst(s).1)); }
  }

  lemma BytesStep(s: seq<Unit>, max: int)
    ensures Bytes(s, max) == if max <= 0 || s == [] || s[0] == 0 then []
                             else EncodedFirst(s).0 + Bytes(Rest(s, EncodedFirst(s).1), Fewer(max, EncodedFirst(s).1))
  {
  }

  /** The units of the characters that begin before `chars` units and `bytes` bytes are used up, or what came before
      the first that is illegal or does not fit in. */
  function Units(b: seq<Byte>, chars: int, bytes: int): (r: (bool, seq<Unit>))
    decreases |b|
  {
    if chars <= 0 || bytes <= 0 then (true, [])
    else if b == [] || LeadOf(b[0]).Illegal? || LeadOf(b[0]).bytes > bytes then (false, [])
    else
      var r := Units(Rest(b, LeadOf(b[0]).bytes), chars - LeadOf(b[0]).units, bytes - LeadOf(b[0]).bytes);
      (r.0, DecodedFirst(b) + r.1)
  }

  lemma UnitsStep(b: seq<Byte>, chars: int, bytes: int)
    ensures if chars <= 0 || bytes <= 0 then Units(b, chars, bytes) == (true, [])
            else if b == [] || LeadOf(b[0]).Illegal? || LeadOf(b[0]).bytes > bytes then Units(b, chars, bytes) == (false, [])
            else
              var l := LeadOf(b[0]); var r := Units(Rest(b, l.bytes), chars - l.units, bytes - l.bytes);
              Units(b, chars, bytes).0 == r.0 && Units(b, chars, bytes).1 == DecodedFirst(b) + r.1
  {
  }

  // ---------- The same, told from the units and bytes ----------

  /** What the encoder makes of the first character, and how it goes on.  The code point of a surrogate pair is that of
      section 2.1 of RFC 2781; the bits are spread as in section 3 of RFC 3629. */
  lemma BytesMean(s: seq<Unit>, max: int)
    requires s != []
    ensures max <= 0 || s[0] == 0 ==> Bytes(s, max) == []
    ensures max > 0 && 0 < s[0] < 0x80 ==> Bytes(s, max) == [s[0]] + Bytes(s[1..], max - 1)
    ensures max > 0 && 0x80 <= s[0] < 0x800 ==>
              Bytes(s, max) == [0xC0 + s[0] / 0x40, 0x80 + s[0] % 0x40] + Bytes(s[1..], max - 1)
    ensures max > 0 && s[0] >= 0x800 && !(0xD800 <= s[0] < 0xDC00) ==>
              Bytes(s, max) == [0xE0 + s[0] / 0x1000, 0x80 + s[0] / 0x40 % 0x40, 0x80 + s[0] % 0x40] + Bytes(s[1..], max - 1)
    ensures max > 0 && 0xD800 <= s[0] < 0xDC00 ==>
              var ch := 0x10000 + (s[0] as int - 0xD800) * 0x400 + (UnitAt(s, 1) as int - 0xDC00);
              Bytes(s, max) == [0xF0 + ch / 0x40000, 0x80 + ch / 0x1000 % 0x40, 0x80 + ch / 0x40 % 0x40, 0x80 + ch % 0x40]
                               + Bytes(if |s| > 1 then s[2..] else [], max)
  {
    BytesStep(s, max);
    hide Bytes, Pair, Two, Three, Four;
    var ch := s[0];
    if 0x80 <= ch < 0x800 { TwoIs(ch); }
    if ch >= 0x800 { ThreeIs(ch); }
    if High(ch) { FourIs(ch, UnitAt(s, 1)); }
  }

  lemma TwoIs(ch: Unit)
    requires 0x80 <= ch < 0x800
    ensures Two(ch) == [0xC0 + ch / 0x40, 0x80 + ch % 0x40]
  {
  }

  lemma ThreeIs(ch: Unit)
    ensures Three(ch) == [0xE0 + ch / 0x1000, 0x80 + ch / 0x40 % 0x40, 0x80 + ch % 0x40]
  {
  }

  lemma FourIs(high: Unit, low: Unit)
    requires High(high)
    ensures var ch := 0x10000 + (high as int - 0xD800) * 0x400 + (low as int - 0xDC00);
            Four(Pair(high, low)) == [0xF0 + ch / 0x40000, 0x80 + ch / 0x1000 % 0x40, 0x80 + ch / 0x40 % 0x40, 0x80 + ch % 0x40]
  {
    assert 0 <= 0x10000 + (high as int - 0xD800) * 0x400 + (low as int - 0xDC00) < 0x112000;
  }

  /** No lead byte: zero, a continuation byte, one that only an overlong form has, or one beyond the last plane. */
  ghost predicate NoLead(b: Byte) {
    b == 0 || 0x80 <= b <= 0xBF || b == 0xC0 || b == 0xC1 || b >= 0xF5
  }

  /** What the decoder makes of the first bytes, and how it goes on: its output begins with `first` and then has that
      of the rest. */
  ghost predicate GoesOn(b: seq<Byte>, chars: int, bytes: int, n: nat, first: seq<int>) {
    var rest := Units(if n <= |b| then b[n..] else [], chars - |first|, bytes - n);
    if bytes < n then Units(b, chars, bytes) == (false, [])
    else Units(b, chars, bytes).0 == rest.0 && Units(b, chars, bytes).1 == first + rest.1
  }

  lemma UnitsMean(b: seq<Byte>, chars: int, bytes: int)
    requires chars > 0 && bytes > 0
    ensures b == [] || NoLead(b[0]) ==> Units(b, chars, bytes) == (false, [])
    ensures b != [] && 0 < b[0] < 0x80 ==> GoesOn(b, chars, bytes, 1, [b[0]])
    ensures b != [] && 0xC2 <= b[0] < 0xE0 ==> GoesOn(b, chars, bytes, 2, [(b[0] - 0xC0) * 0x40 + ByteAt(b, 1) % 0x40])
    ensures b != [] && 0xE0 <= b[0] < 0xF0 ==>
              GoesOn(b, chars, bytes, 3, [(b[0] - 0xE0) * 0x1000 + ByteAt(b, 1) % 0x40 * 0x40 + ByteAt(b, 2) % 0x40])
    ensures b != [] && 0xF0 <= b[0] < 0xF5 ==>
              var ch := (b[0] as int - 0xF0) * 0x40000 + ByteAt(b, 1) % 0x40 * 0x1000 + ByteAt(b, 2) % 0x40 * 0x40 + ByteAt(b, 3) % 0x40;
              GoesOn(b, chars, bytes, 4, [0xD800 + ch / 0x400, 0xDC00 + ch % 0x400])
  {
    UnitsStep(b, chars, bytes);
    hide Units, DecodedFirst;
    if b != [] && !NoLead(b[0]) { FirstIs(b); }
  }

  lemma FirstIs(b: seq<Byte>)
    requires b != [] && !NoLead(b[0])
    ensures LeadOf(b[0]).Legal?
    ensures b[0] < 0x80 ==> DecodedFirst(b) == [b[0]]
    ensures 0xC2 <= b[0] < 0xE0 ==> DecodedFirst(b) == [(b[0] - 0xC0) * 0x40 + ByteAt(b, 1) % 0x40]
    ensures 0xE0 <= b[0] < 0xF0 ==> DecodedFirst(b) == [(b[0] - 0xE0) * 0x1000 + ByteAt(b, 1) % 0x40 * 0x40 + ByteAt(b, 2) % 0x40]
    ensures 0xF0 <= b[0] < 0xF5 ==>
              var ch := (b[0] as int - 0xF0) * 0x40000 + ByteAt(b, 1) % 0x40 * 0x1000 + ByteAt(b, 2) % 0x40 * 0x40 + ByteAt(b, 3) % 0x40;
              DecodedFirst(b) == [0xD800 + ch / 0x400, 0xDC00 + ch % 0x400]
  {
  }

  /** Asked for as many units as there are, the decoder takes the whole string. */
  lemma {:induction false} UnitsAll(s: seq<Unit>, bytes: int)
    requires NoZero(s) && NoHigh(s) && bytes >= |Encoded(s)|
    ensures Units(Encoded(s), |s|, bytes) == (true, s)
    decreases |s|
  {
    hide EncodedFirst, DecodedFirst;
    if s != [] {
      FirstLegal(s);
      var e := EncodedFirst(s).0;
      OwnBytes(e, Encoded(s[1..]));
      UnitsAll(s[1..], bytes - |e|);
      assert s == [s[0]] + s[1..];
    }
  }

  lemma {:induction false} EncodedSize(s: seq<Unit>)
    requires NoHigh(s)
    ensures |Encoded(s)| <= 3 * |s|
    decreases |s|
  {
    hide EncodedFirst;
    if s != [] && s[0] != 0 {
      FirstLegal(s);
      EncodedSize(s[1..]);
    }
  }

  /** Converting to UTF-8 and back, each with the limits it needs. */
  lemma ConvertedBack(s: seq<Unit>)
    requires NoZero(s) && NoHigh(s)
    ensures Units(Bytes(s, |s|), |s|, 3 * |s|) == (true, s)
  {
    BytesAll(s, |s|);
    EncodedSize(s);
    UnitsAll(s, 3 * |s|);
  }

  lemma IllegalFirst(b: seq<Byte>, chars: int, bytes: int)
    ensures chars > 0 && bytes > 0 && (b == [] || NoLead(b[0])) ==> Units(b, chars, bytes) == (false, [])
  {
    if chars > 0 && bytes > 0 { UnitsMean(b, chars, bytes); }
  }

  // ---------- Within the string ----------

  /** The encoder never steps over the zero that ends the string: no high surrogate that it takes is the last unit. */
  predicate StaysWithin(s: seq<Unit>, max: int)
    decreases |s|
  {
    s == [] || s[0] == 0 || max <= 0 ||
    (EncodedFirst(s).1 <= |s| && StaysWithin(Rest(s, EncodedFirst(s).1), Fewer(max, EncodedFirst(s).1)))
  }

  /** Nor does the decoder: every character that it takes has all its bytes. */
  predicate BytesWithin(b: seq<Byte>, chars: int, bytes: int)
    decreases |b|
  {
    chars <= 0 || bytes <= 0 || b == [] || LeadOf(b[0]).Illegal? || LeadOf(b[0]).bytes > bytes ||
    (LeadOf(b[0]).bytes <= |b| && BytesWithin(Rest(b, LeadOf(b[0]).bytes), chars - LeadOf(b[0]).units, bytes - LeadOf(b[0]).bytes))
  }

  lemma WithinStep(s: seq<Unit>, max: int)
    ensures StaysWithin(s, max) ==
            (s == [] || s[0] == 0 || max <= 0 ||
             (EncodedFirst(s).1 <= |s| && StaysWithin(Rest(s, EncodedFirst(s).1), Fewer(max, EncodedFirst(s).1))))
  {
  }

  lemma BytesWithinStep(b: seq<Byte>, chars: int, bytes: int)
    ensures BytesWithin(b, chars, bytes) ==
            (chars <= 0 || bytes <= 0 || b == [] || LeadOf(b[0]).Illegal? || LeadOf(b[0]).bytes > bytes ||
             (LeadOf(b[0]).bytes <= |b| && BytesWithin(Rest(b, LeadOf(b[0]).bytes), chars - LeadOf(b[0]).units, bytes - LeadOf(b[0]).bytes)))
  {
  }

  /** How many high surrogates stand at the end. */
  function Tail(s: seq<Unit>): (n: nat)
    ensures n <= |s|
  {
    if s == [] || !High(s[|s| - 1]) then 0 else 1 + Tail(s[..|s| - 1])
  }

  lemma {:induction false} TailFront(s: seq<Unit>)
    requires s != []
    ensures Tail(s) == if Tail(s[1..]) == |s| - 1 && High(s[0]) then |s| else Tail(s[1..])
    decreases |s|
  {
    var n := |s| - 1;
    if n > 0 {
      assert s[1..][..n - 1] == s[..n][1..];
      if High(s[n]) { TailFront(s[..n]); }
    }
  }

  /** How many characters, without pairs, come before the high surrogates at the end. */
  function CountedBefore(s: seq<Unit>): nat
    decreases |s|
  {
    if Tail(s) == |s| then 0
    else if High(s[0]) then CountedBefore(Rest(s, 2))
    else 1 + CountedBefore(s[1..])
  }

  lemma {:induction false} CountedSize(s: seq<Unit>)
    ensures CountedBefore(s) <= |s| - Tail(s)
    decreases |s|
  {
    if Tail(s) < |s| {
      TailFront(s);
      if !High(s[0]) {
        CountedSize(s[1..]);
      } else if |s| > 1 {
        TailFront(s[1..]);
        assert s[1..][1..] == s[2..];
        CountedSize(s[2..]);
      }
    }
  }

  /** The encoder steps over the end exactly if the run of high surrogates there is odd and it gets that far. */
  lemma {:induction false} WithinExactly(s: seq<Unit>, max: int)
    requires NoZero(s)
    ensures StaysWithin(s, max) <==> Tail(s) % 2 == 0 || max <= CountedBefore(s)
    decreases |s|
  {
    WithinStep(s, max);
    hide EncodedFirst, StaysWithin;
    if s != [] {
      FirstLegal(s);
      TailFront(s);
      if !High(s[0]) {
        WithinExactly(s[1..], max - 1);
      } else if |s| > 1 {
        TailFront(s[1..]);
        assert s[1..][1..] == s[2..];
        WithinExactly(s[2..], max);
      }
    }
  }

  /** Asked for the whole string, it stays inside exactly if an even number of high surrogates stands at the end. */
  lemma WithinWhole(s: seq<Unit>, max: int)
    requires NoZero(s) && max >= |s|
    ensures StaysWithin(s, max) <==> Tail(s) % 2 == 0
  {
    WithinExactly(s, max);
    CountedSize(s);
  }

  /** What the encoder has made the decoder never leaves, whatever its limits. */
  lemma {:induction false} EncodedWithin(s: seq<Unit>, chars: int, bytes: int)
    ensures BytesWithin(Encoded(s), chars, bytes)
    decreases |s|
  {
    hide EncodedFirst, DecodedFirst;
    if s != [] && s[0] != 0 {
      FirstLegal(s);
      var e, n := EncodedFirst(s).0, EncodedFirst(s).1;
      OwnBytes(e, Encoded(Rest(s, n)));
      EncodedWithin(Rest(s, n), chars - n, bytes - |e|);
    }
  }

  /** With a limit of no more bytes than there are the decoder stays inside; and it does when there are more than the
      units asked for can take. */
  lemma {:induction false} LimitedWithin(b: seq<Byte>, chars: int, bytes: int)
    requires bytes <= |b| || |b| > 3 * chars || b == []
    ensures BytesWithin(b, chars, bytes)
    decreases |b|
  {
    if chars > 0 && bytes > 0 && b != [] && LeadOf(b[0]).Legal? && LeadOf(b[0]).bytes <= bytes {
      var l := LeadOf(b[0]);
      if l.bytes < |b| { LimitedWithin(b[l.bytes..], chars - l.units, bytes - l.bytes); }
    }
  }

  /** Characters of three bytes and then one that lacks its last byte. */
  function Truncated(n: nat): (b: seq<Byte>)
    requires n > 0
    ensures |b| == n && forall i :: 0 <= i < n ==> b[i] != 0
  {
    if n == 1 then [0xC2] else if n == 2 then [0xE0, 0x80] else if n == 3 then [0xF0, 0x80, 0x80] else [0xE0, 0x80, 0x80] + Truncated(n - 3)
  }

  lemma {:induction false} TruncatedLeaves(n: nat, chars: int, bytes: int)
    requires 0 < n < bytes && n <= 3 * chars
    ensures !BytesWithin(Truncated(n), chars, bytes)
    decreases n
  {
    if n > 3 {
      assert Truncated(n)[3..] == Truncated(n - 3);
      TruncatedLeaves(n - 3, chars - 1, bytes - 3);
    }
  }

  ghost predicate AllWithin(n: nat, chars: int, bytes: int) {
    forall b: seq<Byte> :: |b| == n && (forall i :: 0 <= i < n ==> b[i] != 0) ==> BytesWithin(b, chars, bytes)
  }

  /** The decoder stays inside every string of `n` bytes exactly if its limit of bytes is no more, or the units asked
      for do not get it to the end. */
  lemma SafeLimits(n: nat, chars: int, bytes: int)
    ensures AllWithin(n, chars, bytes) <==> n == 0 || bytes <= n || n > 3 * chars
  {
    if n == 0 || bytes <= n || n > 3 * chars {
      forall b: seq<Byte> | |b| == n ensures BytesWithin(b, chars, bytes) { LimitedWithin(b, chars, bytes); }
    } else {
      TruncatedLeaves(n, chars, bytes);
    }
  }

  /** Without a limit of its own the decoder takes three bytes for each unit asked for, which can be too many. */
  lemma DefaultLimitLeaves()
    ensures !BytesWithin([0xE0], 1, 1 * 3)
  {
  }

  predicate StartsWith<T(==)>(all: seq<T>, front: seq<T>) {
    |front| <= |all| && all[..|front|] == front
  }

  /** There is no room for what comes next, a character or the zero at the end. */
  ghost predicate BytesFull(all: seq<Byte>, done: seq<Byte>, room: int) {
    exists s: seq<Unit>, c: int ::
      all == done + Bytes(s, c) && room < if c <= 0 || s == [] || s[0] == 0 then 1 else |EncodedFirst(s).0|
  }

  ghost predicate UnitsFull(all: seq<Unit>, done: seq<Unit>, room: int) {
    exists b: seq<Byte>, c: int, n: int ::
      all == done + Units(b, c, n).1 && room < if c <= 0 || n <= 0 || b == [] || LeadOf(b[0]).Illegal? then 1 else LeadOf(b[0]).units
  }

  /** The bytes are put into the output with a zero behind them, or as many characters as there is room for.  The
      memory here ends with the string; `within` says whether the source's cursor has stayed inside it. */
  method ConvertToUTF8(input: seq<Unit>, maxChars: int, justMove: bool, output: array<Byte>) returns (res: bool, size: nat, ghost within: bool)
    modifies output
    ensures (StaysWithin(input, maxChars) ==> within) && (res ==> (within <==> StaysWithin(input, maxChars)))
    ensures NoZero(input) && res ==> (within <==> Tail(input) % 2 == 0 || maxChars <= CountedBefore(input))
    ensures res <==> justMove || |Bytes(input, maxChars)| < output.Length
    ensures !justMove && res ==> size < output.Length && output[..size] == Bytes(input, maxChars) && output[size] == 0
    ensures !justMove && !res ==> size <= output.Length && StartsWith(Bytes(input, maxChars), output[..size])
    ensures !justMove && !res ==> BytesFull(Bytes(input, maxChars), output[..size], output.Length - size)
  {
    hide EncodedFirst, Bytes, StaysWithin, Fewer, Tail, CountedBefore, NoZero, Rest, UnitAt;
    if NoZero(input) { WithinExactly(input, maxChars); }
    ghost var all := Bytes(input, maxChars);
    var s, chars := input, maxChars;
    size, within := 0, true;
    while chars > 0 && s != [] && s[0] != 0
      invariant !justMove ==> size <= output.Length && all == output[..size] + Bytes(s, chars)
      invariant StaysWithin(input, maxChars) <==> within && StaysWithin(s, chars)
      decreases |s|
    {
      BytesStep(s, chars);
      WithinStep(s, chars);
      var e, n := EncodedFirst(s).0, EncodedFirst(s).1;
      if !justMove {
        if output.Length - size < |e| { return false, size, within; }
        Put(output, size, e);
        Assoc(output[..size], e, Bytes(Rest(s, n), Fewer(chars, n)), output[..size + |e|]);
        size := size + |e|;
      }
      within := within && n <= |s|;
      s, chars := Rest(s, n), Fewer(chars, n);
    }
    BytesStep(s, chars);
    WithinStep(s, chars);
    if !justMove {
      if output.Length - size < 1 { return false, size, within; }
      output[size] := 0;
    }
    res := true;
  }

  lemma Assoc<T>(a: seq<T>, b: seq<T>, c: seq<T>, ab: seq<T>)
    requires ab == a + b
    ensures a + (b + c) == ab + c
  {
  }

  method Put<T>(output: array<T>, at: nat, e: seq<T>)
    requires at + |e| <= output.Length
    modifies output
    ensures output[..at + |e|] == old(output[..at]) + e && output[..at] == old(output[..at])
  {
    var i := 0;
    while i < |e|
      invariant i <= |e| && output[..at + i] == old(output[..at]) + e[..i]
    {
      output[at + i] := e[i];
      i := i + 1;
    }
  }

  /** The units are put into the output with a zero behind them; or as many as come before what is illegal, or for
      which there is room.  `within` is as for the encoder. */
  method ConvertFromUTF8(input: seq<Byte>, maxChars: int, justMove: bool, maxBytes: int, output: array<Unit>)
      returns (res: bool, size: nat, ghost within: bool)
    modifies output
    ensures var stays := BytesWithin(input, maxChars, if maxBytes == -1 then maxChars * 3 else maxBytes);
            (stays ==> within) && (res ==> (within <==> stays))
    ensures (if maxBytes == -1 then maxChars * 3 else maxBytes) <= |input| ==> within
    ensures var r := Units(input, maxChars, if maxBytes == -1 then maxChars * 3 else maxBytes);
            && (res <==> r.0 && (justMove || |r.1| < output.Length))
            && (!justMove && res ==> size < output.Length && output[..size] == r.1 && output[size] == 0)
            && (!justMove && !res ==> size <= output.Length && StartsWith(r.1, output[..size]))
            && (!justMove && !res && r.0 ==> UnitsFull(r.1, output[..size], output.Length - size))
    ensures maxChars > 0 && (maxBytes > 0 || maxBytes == -1) && (input == [] || NoLead(input[0])) ==> !res && size == 0
  {
    IllegalFirst(input, maxChars, if maxBytes == -1 then maxChars * 3 else maxBytes);
    hide DecodedFirst, LeadOf, Units, BytesWithin, NoLead, Rest, ByteAt;
    var b, chars, bytes := input, maxChars, if maxBytes == -1 then maxChars * 3 else maxBytes;
    if bytes <= |b| { LimitedWithin(b, chars, bytes); }
    ghost var all, stays := Units(b, chars, bytes), BytesWithin(b, chars, bytes);
    size, within := 0, true;
    while chars > 0 && bytes > 0
      invariant all.0 == Units(b, chars, bytes).0
      invariant justMove ==> size == 0
      invariant !justMove ==> size <= output.Length && all.1 == output[..size] + Units(b, chars, bytes).1
      invariant stays <==> within && BytesWithin(b, chars, bytes)
      decreases |b|
    {
      UnitsStep(b, chars, bytes);
      BytesWithinStep(b, chars, bytes);
      if b == [] { return false, size, within; }
      var lead := LeadOf(b[0]);
      if lead.Illegal? || bytes < lead.bytes { return false, size, within; }
      if !justMove {
        if output.Length - size < lead.units { return false, size, within; }
        var u := DecodedFirst(b);
        Put(output, size, u);
        Assoc(output[..size], u, Units(Rest(b, lead.bytes), chars - lead.units, bytes - lead.bytes).1, output[..size + |u|]);
        size := size + |u|;
      }
      within := within && lead.bytes <= |b|;
      b, chars, bytes := Rest(b, lead.bytes), chars - lead.units, bytes - lead.bytes;
    }
    UnitsStep(b, chars, bytes);
    BytesWithinStep(b, chars, bytes);
    if !justMove {
      if output.Length - size < 1 { return false, size, within; }
      output[size] := 0;
    }
    res := true;
  }

  // ---------- Counting ----------

  predicate BadLowPart(b: Byte) {
    b < 0x80 || b > 0xBF
  }

  /** How many bytes a character has by its lead byte, for counting: the checks of `LeadOf` are not made. */
  function Length(b: Byte): (n: nat)
    ensures n <= 4
  {
    if b < 0x80 then 1 else if b < 0xC0 then 0 else if b < 0xE0 then 2 else if b < 0xF0 then 3 else 4
  }

  /** How many units the bytes decode to; -1 if they are not UTF-8. */
  function Count(b: seq<Byte>, max: int): int
    decreases |b|
  {
    if b == [] || b[0] == 0 || max == 0 then 0
    else
      var n := Length(b[0]);
      if n == 0 || (n > 1 && BadLowPart(ByteAt(b, 1))) || (n > 2 && BadLowPart(ByteAt(b, 2))) || (n > 3 && BadLowPart(ByteAt(b, 3))) then -1
      else
        var c := Count(Rest(b, n), max - 1);
        if c < 0 then -1 else c + if n == 4 then 2 else 1
  }

  /** The `n` bytes behind the first are continuation bytes. */
  ghost predicate Continued(b: seq<Byte>, n: nat) {
    forall i :: 1 <= i <= n ==> 0x80 <= ByteAt(b, i) <= 0xBF
  }

  ghost function More(c: int, n: nat): int {
    if c < 0 then -1 else c + n
  }

  /** What the first byte counts for, told from the bytes: it must not be a continuation byte, and must have all of its
      own behind it. */
  lemma CountMeans(b: seq<Byte>, max: int)
    requires b != [] && b[0] != 0 && max != 0
    ensures b[0] < 0x80 ==> Count(b, max) == More(Count(b[1..], max - 1), 1)
    ensures 0x80 <= b[0] < 0xC0 ==> Count(b, max) == -1
    ensures 0xC0 <= b[0] < 0xE0 ==> Count(b, max) == if Continued(b, 1) then More(Count(Rest(b, 2), max - 1), 1) else -1
    ensures 0xE0 <= b[0] < 0xF0 ==> Count(b, max) == if Continued(b, 2) then More(Count(Rest(b, 3), max - 1), 1) else -1
    ensures b[0] >= 0xF0 ==> Count(b, max) == if Continued(b, 3) then More(Count(Rest(b, 4), max - 1), 2) else -1
  {
    Continuing(b);
  }

  lemma Continuing(b: seq<Byte>)
    ensures Continued(b, 1) <==> !BadLowPart(ByteAt(b, 1))
    ensures Continued(b, 2) <==> !BadLowPart(ByteAt(b, 1)) && !BadLowPart(ByteAt(b, 2))
    ensures Continued(b, 3) <==> !BadLowPart(ByteAt(b, 1)) && !BadLowPart(ByteAt(b, 2)) && !BadLowPart(ByteAt(b, 3))
  {
  }

  /** A truncated character ends in the zero, which is no continuation byte: counting never goes past the end. */
  method CountNumberOfCharacters(input: seq<Byte>, limit: int) returns (num: int)
    ensures num == Count(input, limit)
  {
    var b, max := input, limit;
    num := 0;
    while true
      invariant num >= 0 && Count(input, limit) == if Count(b, max) < 0 then -1 else num + Count(b, max)
      decreases |b|
    {
      if ByteAt(b, 0) == 0 { break; }
      if max == 0 { break; }
      max := max - 1;
      var ch := b[0];
      if ch < 0x80 {
        num := num + 1;
        b := b[1..];
      } else if ch < 0xC0 {
        return -1;
      } else if ch < 0xE0 {
        if BadLowPart(ByteAt(b, 1)) { return -1; }
        num := num + 1;
        b := Rest(b, 2);
      } else if ch < 0xF0 {
        if BadLowPart(ByteAt(b, 1)) { return -1; }
        if BadLowPart(ByteAt(b, 2)) { return -1; }
        num := num + 1;
        b := Rest(b, 3);
      } else {
        if BadLowPart(ByteAt(b, 1)) { return -1; }
        if BadLowPart(ByteAt(b, 2)) { return -1; }
        if BadLowPart(ByteAt(b, 3)) { return -1; }
        num := num + 2;
        b := Rest(b, 4);
      }
    }
  }

  /** The encoder's bytes count as exactly the units they were made from. */
  lemma {:induction false} CountsUnits(s: seq<Unit>)
    requires WellFormed(s)
    ensures Count(Encoded(s), -1) == |s|
  {
    CountFrom(s, -1);
  }

  lemma {:induction false} CountFrom(s: seq<Unit>, max: int)
    requires WellFormed(s) && max < 0
    ensures Count(Encoded(s), max) == |s|
    decreases |s|
  {
    hide EncodedFirst;
    if s != [] {
      FirstUnits(s);
      FirstCounts(s, Encoded(s[EncodedFirst(s).1..]));
      CountFrom(s[EncodedFirst(s).1..], max - 1);
      var e := EncodedFirst(s).0;
      assert Rest(e + Encoded(s[EncodedFirst(s).1..]), |e|) == Encoded(s[EncodedFirst(s).1..]);
    }
  }

  lemma FirstCounts(s: seq<Unit>, more: seq<Byte>)
    requires s != [] && WellFormed(s)
    ensures var e := EncodedFirst(s).0; var b := e + more;
            && b[0] != 0 && Length(b[0]) == |e| && (|e| > 1 ==> !BadLowPart(ByteAt(b, 1)))
            && (|e| > 2 ==> !BadLowPart(ByteAt(b, 2))) && (|e| > 3 ==> !BadLowPart(ByteAt(b, 3)))
  {
    var e := EncodedFirst(s).0;
    assert forall i :: 0 <= i < |e| ==> ByteAt(e + more, i) == e[i];
  }

  /** How many bytes the units encode to, each surrogate pair counted once against the maximum; -1 if a surrogate
      stands alone. */
  function CountBytes(s: seq<Unit>, max: int): int
    decreases |s|
  {
    if s == [] || s[0] == 0 || max == 0 then 0
    else if Low(s[0]) || (High(s[0]) && !Low(UnitAt(s, 1))) then -1
    else
      var c := CountBytes(Rest(s, if High(s[0]) then 2 else 1), max - 1);
      if c < 0 then -1 else c + if s[0] < 0x80 then 1 else if s[0] < 0x800 then 2 else if High(s[0]) then 4 else 3
  }

  method CountNumberOfBytes(input: seq<Unit>, limit: int) returns (num: int)
    ensures num == CountBytes(input, limit)
  {
    var s, max := input, limit;
    num := 0;
    while true
      invariant num >= 0 && CountBytes(input, limit) == if CountBytes(s, max) < 0 then -1 else num + CountBytes(s, max)
      decreases |s|
    {
      if UnitAt(s, 0) == 0 { break; }
      if max == 0 { break; }
      max := max - 1;
      var ch := s[0];
      var n := 1;
      if ch < 0x80 {
        num := num + 1;
      } else if ch < 0x800 {
        num := num + 2;
      } else if Low(ch) {
        return -1;
      } else if High(ch) {
        if !Low(UnitAt(s, 1)) { return -1; }
        num := num + 4;
        n := 2;
      } else {
        num := num + 3;
      }
      s := Rest(s, n);
    }
  }

  /** Counted without a maximum, a string has the bytes that the encoder makes, exactly if it is well formed. */
  lemma {:induction false} CountsBytes(s: seq<Unit>, max: int)
    requires NoZero(s) && max < 0
    ensures CountBytes(s, max) == if WellFormed(s) then |Encoded(s)| else -1
    decreases |s|
  {
    hide Two, Three, Four;
    if s != [] {
      var n := if High(s[0]) then 2 else 1;
      if n <= |s| { CountsBytes(s[n..], max - 1); }
    }
  }
}
