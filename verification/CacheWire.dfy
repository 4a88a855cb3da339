/** The protobuf form of the gossiped cache value: what `cache.pb.go` writes for a value and what
    it makes of an arbitrary byte string. The methods that work on arrays are in `CacheMessage`. */
module CacheWire {
  import opened Wrappers
  import opened Varints

  /** The fields of the Go struct `Cache`; unrecognized holds unknown fields verbatim. */
  datatype CacheValue = CacheValue(content: seq<Byte>, createdAt: Int64, expiresAt: Int64, unrecognized: seq<Byte>)

  const ZERO: CacheValue := CacheValue([], 0, 0, [])

  const CONTENT_TAG: Byte := 0x0a
  const CREATED_TAG: Byte := 0x10
  const EXPIRES_TAG: Byte := 0x18

  /* ---- the encoded form ---- */

  function ContentField(content: seq<Byte>): seq<Byte> {
    if content == [] then [] else [CONTENT_TAG] + (VarintBytes(|content|) + content)
  }

  function TimeField(tag: Byte, t: Int64): seq<Byte> {
    if t == 0 then [] else [tag] + VarintBytes(ToUint64(t))
  }

  function Encode(m: CacheValue): seq<Byte> {
    ContentField(m.content)
    + (TimeField(CREATED_TAG, m.createdAt) + (TimeField(EXPIRES_TAG, m.expiresAt) + m.unrecognized))
  }

  /* ---- skipping a field ---- */

  function WireType(wire: Uint64): nat { wire % 8 }

  /** `int32(wire >> 3)`: the high bits of an oversized field number are dropped. */
  function FieldNumber(wire: Uint64): int {
    var low := wire / 8 % 0x1_0000_0000;
    if low < 0x8000_0000 then low else low - 0x1_0000_0000
  }

  /** What one tag does to the skipping loop: where its payload ends and the new group depth. */
  datatype Token = Token(end: nat, depth: nat) | BadToken(fault: Fault)

  /** The payload of a field of the given wire type, when it starts at index j of s. */
  function SkipPayload(s: seq<Byte>, j: nat, wireType: nat, depth: nat): (t: Token)
    requires j <= |s|
    ensures t.Token? ==> t.end >= j
    ensures t.BadToken? ==> !t.fault.Overrun?
  {
    if wireType == 0 then
      var v := ReadVarint(s[j..]);
      if v.fault.Some? then BadToken(v.fault.value) else Token(j + v.len, depth)
    else if wireType == 1 then Token(j + 8, depth)
    else if wireType == 2 then
      var v := ReadVarint(s[j..]);
      if v.fault.Some? then BadToken(v.fault.value)
      else if v.Value() > MAX_INT then BadToken(InvalidLength)
      else Token(j + v.len + v.Value(), depth)
    else if wireType == 3 then Token(j, depth + 1)
    else if wireType == 4 then
      if depth == 0 then BadToken(UnexpectedEndOfGroup) else Token(j, depth - 1)
    else if wireType == 5 then Token(j + 4, depth)
    else BadToken(IllegalWireType)
  }

  function SkipToken(s: seq<Byte>, i: nat, depth: nat): (t: Token)
    requires i <= |s|
    ensures t.Token? ==> t.end > i
    ensures t.BadToken? ==> !t.fault.Overrun?
  {
    var tag := ReadVarint(s[i..]);
    if tag.fault.Some? then BadToken(tag.fault.value)
    else SkipPayload(s, i + tag.len, WireType(tag.Value()), depth)
  }

  datatype Skipped = Skipped(end: nat) | SkipFailed(fault: Fault)

  /** The skipping loop from index i at the given group depth. The end may lie past the data. */
  function Skip(s: seq<Byte>, i: nat, depth: nat): (r: Skipped)
    requires i <= |s|
    ensures r.Skipped? ==> r.end > i
    ensures r.SkipFailed? ==> !r.fault.Overrun?
    decreases |s| - i
  {
    if i == |s| then SkipFailed(UnexpectedEof)
    else
      match SkipToken(s, i, depth)
      case BadToken(fault) => SkipFailed(fault)
      case Token(end, depth') =>
        if depth' == 0 then Skipped(end)
        else if end <= |s| then Skip(s, end, depth')
        else if end > MAX_INT then SkipFailed(InvalidLength)
        else SkipFailed(UnexpectedEof)
  }

  lemma SkipPayloadExtend(s: seq<Byte>, t: seq<Byte>, j: nat, wireType: nat, depth: nat)
    requires j <= |s| && SkipPayload(s, j, wireType, depth).Token?
    ensures SkipPayload(s + t, j, wireType, depth) == SkipPayload(s, j, wireType, depth)
  {
    hide ReadVarint, Varint.Value;
    if wireType == 0 || wireType == 2 {
      assert (s + t)[j..] == s[j..] + t;
      ReadVarintExtend(s[j..], t, 0);
    }
  }

  lemma SkipTokenExtend(s: seq<Byte>, t: seq<Byte>, i: nat, depth: nat)
    requires i <= |s| && SkipToken(s, i, depth).Token?
    ensures SkipToken(s + t, i, depth) == SkipToken(s, i, depth)
  {
    hide ReadVarint, Varint.Value, SkipPayload, WireType;
    assert (s + t)[i..] == s[i..] + t;
    ReadVarintExtend(s[i..], t, 0);
    var tag := ReadVarint(s[i..]);
    SkipPayloadExtend(s, t, i + tag.len, WireType(tag.Value()), depth);
  }

  /** Skipping a complete field does not depend on what follows it. */
  lemma {:induction false} SkipExtend(s: seq<Byte>, t: seq<Byte>, i: nat, depth: nat)
    requires i <= |s|
    requires Skip(s, i, depth).Skipped? && Skip(s, i, depth).end <= |s|
    ensures Skip(s + t, i, depth) == Skip(s, i, depth)
    decreases |s| - i
  {
    hide SkipToken;
    SkipTokenExtend(s, t, i, depth);
    var tok := SkipToken(s, i, depth);
    if tok.depth != 0 {
      SkipExtend(s, t, tok.end, tok.depth);
    }
  }

  /* ---- decoding ---- */

  /** One pass of the decoding loop: the message afterwards (also when it fails, since fields are
      assigned while they are being read), the bytes consumed, and why it stopped. */
  datatype Step = Step(m: CacheValue, len: nat, fault: Option<Fault>)

  function ReadContent(m: CacheValue, s: seq<Byte>, j: nat, wireType: nat): Step
    requires j <= |s|
  {
    if wireType != 2 then Step(m, 0, Some(WrongWireType))
    else
      var v := ReadVarint(s[j..]);
      if v.fault.Some? then Step(m, 0, v.fault)
      else if v.Value() > MAX_INT then Step(m, 0, Some(InvalidLength))
      else
        var start := j + v.len;
        var end := start + v.Value();
        if end > |s| then Step(m, 0, Some(Overrun(end)))
        else Step(m.(content := s[start..end]), end, None)
  }

  function SetTime(m: CacheValue, created: bool, t: Int64): CacheValue {
    if created then m.(createdAt := t) else m.(expiresAt := t)
  }

  function ReadTime(m: CacheValue, s: seq<Byte>, j: nat, wireType: nat, created: bool): Step
    requires j <= |s|
  {
    if wireType != 0 then Step(m, 0, Some(WrongWireType))
    else
      var v := ReadVarint(s[j..]);
      Step(SetTime(m, created, ToInt64(v.Value())), j + v.len, v.fault)
  }

  function ReadUnknown(m: CacheValue, s: seq<Byte>): Step {
    match Skip(s, 0, 0)
    case SkipFailed(fault) => Step(m, 0, Some(fault))
    case Skipped(end) =>
      if end > |s| then Step(m, 0, Some(Overrun(end)))
      else Step(m.(unrecognized := m.unrecognized + s[..end]), end, None)
  }

  function ReadField(m: CacheValue, s: seq<Byte>): (r: Step)
    requires s != []
    ensures r.fault.None? ==> 1 <= r.len <= |s|
  {
    var tag := ReadVarint(s);
    if tag.fault.Some? then Step(m, 0, tag.fault)
    else
      var number, wireType := FieldNumber(tag.Value()), WireType(tag.Value());
      if wireType == 4 then Step(m, 0, Some(EndGroupForNonGroup))
      else if number <= 0 then Step(m, 0, Some(IllegalTag))
      else if number == 1 then ReadContent(m, s, tag.len, wireType)
      else if number == 2 then ReadTime(m, s, tag.len, wireType, true)
      else if number == 3 then ReadTime(m, s, tag.len, wireType, false)
      else ReadUnknown(m, s)
  }

  datatype Outcome = Outcome(m: CacheValue, fault: Option<Fault>)

  /** Offsets of overruns are absolute; `base` bytes precede the ones at hand. */
  function Shift(fault: Option<Fault>, base: nat): Option<Fault> {
    if fault.Some? && fault.value.Overrun? then Some(Overrun(fault.value.end + base)) else fault
  }

  /** Decodes s into m. Like the Go method it merges into m rather than starting from zero. */
  function Decode(m: CacheValue, s: seq<Byte>, base: nat := 0): Outcome
    decreases |s|
  {
    if s == [] then Outcome(m, None)
    else
      var r := ReadField(m, s);
      if r.fault.Some? then Outcome(r.m, Shift(r.fault, base))
      else Decode(r.m, s[r.len..], base + r.len)
  }

  predicate Accepted(s: seq<Byte>) {
    Decode(ZERO, s).fault.None?
  }

  /** The Go error for a fault: an end that does not fit an `int` is reported as a bad length, any
      other end past the data as an unexpected end of file. */
  function Error(fault: Fault): (e: Fault)
    ensures !e.Overrun?
  {
    match fault
    case Overrun(end) => if end > MAX_INT then InvalidLength else UnexpectedEof
    case _ => fault
  }

  /* ---- decoding a concatenation ---- */

  lemma ReadFieldExtend(m: CacheValue, s: seq<Byte>, t: seq<Byte>)
    requires s != [] && ReadField(m, s).fault.None?
    ensures ReadField(m, s + t) == ReadField(m, s)
  {
    hide ReadVarint, Varint.Value, FieldNumber, WireType, Skip;
    ReadVarintExtend(s, t, 0);
    var tag := ReadVarint(s);
    var number := FieldNumber(tag.Value());
    var j := tag.len;
    assert (s + t)[j..] == s[j..] + t;
    if number <= 3 {
      ReadVarintExtend(s[j..], t, 0);
      if number == 1 {
        var v := ReadVarint(s[j..]);
        var end := j + v.len + v.Value();
        assert (s + t)[j + v.len..end] == s[j + v.len..end];
      }
    } else {
      SkipExtend(s, t, 0, 0);
      var end := Skip(s, 0, 0).end;
      assert (s + t)[..end] == s[..end];
    }
  }

  /** If a is accepted, decoding a followed by b is decoding b into the result of a: later scalar
      fields win and unknown bytes append, and a failure in b is the same failure. */
  lemma {:induction false} DecodeConcat(m: CacheValue, a: seq<Byte>, b: seq<Byte>, base: nat)
    requires Decode(m, a, base).fault.None?
    ensures Decode(m, a + b, base) == Decode(Decode(m, a, base).m, b, base + |a|)
    decreases |a|
  {
    hide ReadField;
    if a == [] {
      assert a + b == b;
    } else {
      var r := ReadField(m, a);
      ReadFieldExtend(m, a, b);
      assert (a + b)[r.len..] == a[r.len..] + b;
      DecodeConcat(r.m, a[r.len..], b, base + r.len);
    }
  }

  /** Where the bytes lie changes nothing but the absolute position of an overrun. */
  lemma {:induction false} DecodeShift(m: CacheValue, s: seq<Byte>, base: nat, more: nat)
    ensures Decode(m, s, base + more)
         == Outcome(Decode(m, s, base).m, Shift(Decode(m, s, base).fault, more))
    decreases |s|
  {
    hide ReadField;
    if s != [] {
      var r := ReadField(m, s);
      if r.fault.None? {
        DecodeShift(r.m, s[r.len..], base + r.len, more);
        assert base + r.len + more == base + more + r.len;
      }
    }
  }

  /** The law as a caller of the Go method sees it: acceptance and the message never differ, and the
      reported error differs only for a field whose end still fits an `int` in b alone but no longer
      does behind a. */
  lemma DecodeAppend(m: CacheValue, a: seq<Byte>, b: seq<Byte>)
    requires Decode(m, a).fault.None?
    ensures
      var whole, alone := Decode(m, a + b), Decode(Decode(m, a).m, b);
      && whole.m == alone.m
      && (whole.fault.None? <==> alone.fault.None?)
      && (whole.fault.Some? ==>
            (Error(whole.fault.value) == Error(alone.fault.value) <==>
             !(alone.fault.value.Overrun? && alone.fault.value.end <= MAX_INT < alone.fault.value.end + |a|)))
  {
    hide Decode;
    DecodeConcat(m, a, b, 0);
    DecodeShift(Decode(m, a).m, b, 0, |a|);
  }

  /** The exception is real: a content field that claims MAX_INT - 10 bytes is an unexpected end of
      file on its own and an invalid length behind eleven accepted bytes. */
  lemma AppendCanChangeTheError()
    ensures
      var a, b := [CREATED_TAG] + VarintBytes(TWO63), [CONTENT_TAG] + VarintBytes(MAX_INT - 10);
      && Decode(ZERO, a).fault.None?
      && Decode(ZERO, b).fault.Some? && Error(Decode(ZERO, b).fault.value) == UnexpectedEof
      && Decode(ZERO, a + b).fault.Some? && Error(Decode(ZERO, a + b).fault.value) == InvalidLength
  {
    hide Decode, VarintBytes, Pow128;
    var a, b := [CREATED_TAG] + VarintBytes(TWO63), [CONTENT_TAG] + VarintBytes(MAX_INT - 10);
    DecodeTimeField(ZERO, CREATED_TAG, -TWO63, 0);
    assert a == TimeField(CREATED_TAG, -TWO63);
    ExampleLengths();
    DecodeHugeContent(Decode(ZERO, a).m);
    DecodeHugeContent(ZERO);
    DecodeAppend(ZERO, a, b);
    DecodeConcat(ZERO, a, b, 0);
    DecodeShift(Decode(ZERO, a).m, b, 0, 11);
  }

  lemma DecodeHugeContent(m: CacheValue)
    ensures Decode(m, [CONTENT_TAG] + VarintBytes(MAX_INT - 10)) == Outcome(m, Some(Overrun(MAX_INT)))
  {
    hide ReadVarint, VarintBytes, Skip;
    var v := VarintBytes(MAX_INT - 10);
    ExampleLengths();
    ReadSmallTag(CONTENT_TAG, v);
    assert ([CONTENT_TAG] + v)[1..] == v + [];
    ReadWrittenUint64(MAX_INT - 10, []);
    assert ReadField(m, [CONTENT_TAG] + v) == Step(m, 0, Some(Overrun(MAX_INT)));
  }

  lemma ExampleLengths()
    ensures |VarintBytes(TWO63)| == 10 && |VarintBytes(MAX_INT - 10)| == 9
  {
    hide VarintBytes;
    assert Pow128(2) == 128 * 128;
    assert Pow128(4) == 128 * (128 * Pow128(2));
    assert Pow128(6) == 128 * (128 * Pow128(4));
    assert Pow128(8) == 128 * (128 * Pow128(6));
    assert Pow128(9) == TWO63 && Pow128(10) == 128 * TWO63;
    LongVarint(TWO63, 10);
    LongVarint(MAX_INT - 10, 9);
  }

  lemma {:induction false} LongVarint(v: nat, k: nat)
    requires k >= 1 && Pow128(k - 1) <= v < Pow128(k)
    ensures |VarintBytes(v)| == k
  {
    if k > 1 {
      assert v >= 128 by { Pow128Positive(k - 2); }
      LongVarint(v / 128, k - 1);
    }
  }

  lemma Pow128Positive(k: nat)
    ensures Pow128(k) >= 1
  {
  }

  /* ---- decoding what was encoded ---- */

  lemma ReadSmallTag(tag: Byte, t: seq<Byte>)
    requires tag < 128
    ensures ReadVarint([tag] + t) == Varint(tag, 1, None)
    ensures ReadVarint([tag] + t).Value() == tag
  {
  }

  lemma DecodeContentField(m: CacheValue, content: seq<Byte>, base: nat)
    requires |content| <= MAX_INT
    ensures Decode(m, ContentField(content), base)
         == Outcome(if content == [] then m else m.(content := content), None)
  {
    hide ReadVarint, VarintBytes, Skip;
    if content != [] {
      var s := ContentField(content);
      var size := VarintBytes(|content|);
      ReadSmallTag(CONTENT_TAG, size + content);
      assert s[1..] == size + content;
      ReadWrittenUint64(|content|, content);
      assert s[1 + |size|..1 + |size| + |content|] == content;
      assert s[|s|..] == [];
    }
  }

  lemma DecodeTimeField(m: CacheValue, tag: Byte, t: Int64, base: nat)
    requires tag in {CREATED_TAG, EXPIRES_TAG}
    ensures Decode(m, TimeField(tag, t), base)
         == Outcome(if t == 0 then m else SetTime(m, tag == CREATED_TAG, t), None)
  {
    hide ReadVarint, VarintBytes, Skip;
    if t != 0 {
      var s := TimeField(tag, t);
      var v := VarintBytes(ToUint64(t));
      ReadSmallTag(tag, v);
      assert s[1..] == v + [];
      ReadWrittenUint64(ToUint64(t), []);
      assert ReadField(m, s) == Step(SetTime(m, tag == CREATED_TAG, t), |s|, None);
      assert s[|s|..] == [];
    }
  }

  /** v on top of m, field by field: what v leaves at its zero value does not show on the wire. */
  function Overlay(m: CacheValue, v: CacheValue): CacheValue {
    CacheValue(if v.content == [] then m.content else v.content,
               if v.createdAt == 0 then m.createdAt else v.createdAt,
               if v.expiresAt == 0 then m.expiresAt else v.expiresAt,
               m.unrecognized + v.unrecognized)
  }

  /** Decoding an encoding comes down to decoding the unknown bytes behind the known fields. */
  lemma DecodeEncoded(m: CacheValue, v: CacheValue, base: nat) returns (base': nat)
    requires |v.content| <= MAX_INT
    ensures Decode(m, Encode(v), base) == Decode(Overlay(m, v.(unrecognized := [])), v.unrecognized, base')
  {
    hide Decode, ContentField, TimeField;
    var c := ContentField(v.content);
    var t := TimeField(CREATED_TAG, v.createdAt);
    var e := TimeField(EXPIRES_TAG, v.expiresAt);
    var m1 := if v.content == [] then m else m.(content := v.content);
    DecodeContentField(m, v.content, base);
    DecodeConcat(m, c, t + (e + v.unrecognized), base);
    var m2 := if v.createdAt == 0 then m1 else m1.(createdAt := v.createdAt);
    DecodeTimeField(m1, CREATED_TAG, v.createdAt, base + |c|);
    DecodeConcat(m1, t, e + v.unrecognized, base + |c|);
    var m3 := if v.expiresAt == 0 then m2 else m2.(expiresAt := v.expiresAt);
    DecodeTimeField(m2, EXPIRES_TAG, v.expiresAt, base + |c| + |t|);
    DecodeConcat(m2, e, v.unrecognized, base + |c| + |t|);
    base' := base + |c| + |t| + |e|;
    assert m.unrecognized + [] == m.unrecognized;
    assert m3 == Overlay(m, v.(unrecognized := []));
  }

  /** A well-formed sequence of complete fields numbered other than 1 to 3. */
  predicate UnknownFields(u: seq<Byte>)
    decreases |u|
  {
    u == [] || (IsUnknown(u) && UnknownFields(u[Skip(u, 0, 0).end..]))
  }

  /** u starts with a complete field that the message does not know. */
  predicate IsUnknown(u: seq<Byte>) {
    && u != []
    && ReadVarint(u).fault.None?
    && WireType(ReadVarint(u).Value()) != 4
    && FieldNumber(ReadVarint(u).Value()) > 3
    && Skip(u, 0, 0).Skipped?
    && Skip(u, 0, 0).end <= |u|
  }

  lemma {:induction false} DecodeUnknown(m: CacheValue, u: seq<Byte>, base: nat)
    requires UnknownFields(u)
    ensures Decode(m, u, base) == Outcome(m.(unrecognized := m.unrecognized + u), None)
    decreases |u|
  {
    hide ReadVarint, Varint.Value, FieldNumber, WireType, Skip;
    if u == [] {
      assert m.unrecognized + u == m.unrecognized;
    } else {
      var n := Skip(u, 0, 0).end;
      DecodeUnknown(m.(unrecognized := m.unrecognized + u[..n]), u[n..], base + n);
      assert m.unrecognized + u[..n] + u[n..] == m.unrecognized + u;
    }
  }

  /** The converse: if decoding kept as many bytes as there were, they were all unknown fields. */
  lemma {:induction false} AllKeptMeansUnknown(m: CacheValue, u: seq<Byte>, base: nat)
    requires Decode(m, u, base).fault.None?
    ensures |Decode(m, u, base).m.unrecognized| <= |m.unrecognized| + |u|
    ensures |Decode(m, u, base).m.unrecognized| == |m.unrecognized| + |u| ==> UnknownFields(u)
    decreases |u|
  {
    hide ReadVarint, Varint.Value, FieldNumber, WireType, Skip;
    if u != [] {
      var r := ReadField(m, u);
      AllKeptMeansUnknown(r.m, u[r.len..], base + r.len);
    }
  }

  /** Round trip, exactly: a value survives encoding and decoding if and only if its unrecognized
      bytes are well-formed fields that the message does not know. */
  lemma RoundTrip(m: CacheValue)
    requires |m.content| <= MAX_INT
    ensures Decode(ZERO, Encode(m)) == Outcome(m, None) <==> UnknownFields(m.unrecognized)
  {
    hide Decode, Encode, UnknownFields;
    var base := DecodeEncoded(ZERO, m, 0);
    assert Overlay(ZERO, m.(unrecognized := [])) == m.(unrecognized := []);
    if UnknownFields(m.unrecognized) {
      DecodeUnknown(m.(unrecognized := []), m.unrecognized, base);
      assert [] + m.unrecognized == m.unrecognized;
    }
    if Decode(ZERO, Encode(m)) == Outcome(m, None) {
      AllKeptMeansUnknown(m.(unrecognized := []), m.unrecognized, base);
    }
  }

  /** The last one wins: an encoding behind accepted bytes overrides the fields it carries, leaves the
      others, and adds its unknown fields. */
  lemma LastOneWins(m: CacheValue, a: seq<Byte>, v: CacheValue)
    requires Decode(m, a).fault.None? && |v.content| <= MAX_INT && UnknownFields(v.unrecognized)
    ensures Decode(m, a + Encode(v)) == Outcome(Overlay(Decode(m, a).m, v), None)
  {
    hide Decode, Encode, UnknownFields;
    DecodeConcat(m, a, Encode(v), 0);
    var first := Decode(m, a).m;
    var base := DecodeEncoded(first, v, |a|);
    var known := Overlay(first, v.(unrecognized := []));
    DecodeUnknown(known, v.unrecognized, base);
    assert first.unrecognized + [] == first.unrecognized;
  }

  /** Two values that both survive have different encodings. */
  lemma EncodeInjective(m: CacheValue, m': CacheValue)
    requires |m.content| <= MAX_INT && |m'.content| <= MAX_INT
    requires UnknownFields(m.unrecognized) && UnknownFields(m'.unrecognized)
    requires Encode(m) == Encode(m')
    ensures m == m'
  {
    RoundTrip(m);
    RoundTrip(m');
  }

  /* ---- canonicalisation ---- */

  lemma {:induction false} UnknownFieldsConcat(a: seq<Byte>, b: seq<Byte>)
    requires UnknownFields(a) && UnknownFields(b)
    ensures UnknownFields(a + b)
    decreases |a|
  {
    hide ReadVarint, Varint.Value, FieldNumber, WireType, Skip;
    if a == [] {
      assert a + b == b;
    } else {
      var n := Skip(a, 0, 0).end;
      ReadVarintExtend(a, b, 0);
      SkipExtend(a, b, 0, 0);
      assert (a + b)[n..] == a[n..] + b;
      UnknownFieldsConcat(a[n..], b);
    }
  }

  /** The complete unknown fields of an accepted byte string, in order. */
  function UnknownBytes(s: seq<Byte>): seq<Byte>
    decreases |s|
  {
    if s == [] || ReadField(ZERO, s).fault.Some? then []
    else
      var n := ReadField(ZERO, s).len;
      (if IsUnknown(s) then s[..n] else []) + UnknownBytes(s[n..])
  }

  lemma ReadFieldIsUniform(m: CacheValue, s: seq<Byte>)
    requires s != []
    ensures ReadField(m, s).len == ReadField(ZERO, s).len
    ensures ReadField(m, s).fault == ReadField(ZERO, s).fault
  {
    hide ReadVarint, Varint.Value, FieldNumber, WireType, Skip;
  }

  lemma FirstFieldIsUnknown(s: seq<Byte>)
    requires IsUnknown(s)
    ensures UnknownFields(s[..Skip(s, 0, 0).end])
  {
    var n := Skip(s, 0, 0).end;
    var u := s[..n];
    assert s == u + s[n..];
    SkipShrink(s, n, 0, 0);
    SkipTagShrink(s, n, 0, 0);
    assert u[n..] == [];
  }

  lemma SkipPayloadShrink(s: seq<Byte>, n: nat, j: nat, wireType: nat, depth: nat)
    requires j <= n <= |s|
    requires SkipPayload(s, j, wireType, depth).Token? && SkipPayload(s, j, wireType, depth).end <= n
    ensures SkipPayload(s[..n], j, wireType, depth) == SkipPayload(s, j, wireType, depth)
  {
    hide ReadVarint, Varint.Value;
    if wireType == 0 || wireType == 2 {
      assert s[..n][j..] == s[j..][..n - j];
      ReadVarintShrink(s[j..], n - j, 0);
    }
  }

  lemma SkipTagShrink(s: seq<Byte>, n: nat, i: nat, depth: nat)
    requires i <= n <= |s|
    requires SkipToken(s, i, depth).Token? && SkipToken(s, i, depth).end <= n
    ensures SkipToken(s[..n], i, depth) == SkipToken(s, i, depth)
    ensures ReadVarint(s[..n][i..]) == ReadVarint(s[i..])
  {
    hide ReadVarint, Varint.Value, SkipPayload, WireType;
    assert s[..n][i..] == s[i..][..n - i];
    var tag := ReadVarint(s[i..]);
    ReadVarintShrink(s[i..], n - i, 0);
    SkipPayloadShrink(s, n, i + tag.len, WireType(tag.Value()), depth);
  }

  lemma {:induction false} ReadVarintShrink(s: seq<Byte>, n: nat, k: nat)
    requires k <= 10 && n <= |s|
    requires ReadVarint(s, k).fault.None? && ReadVarint(s, k).len <= n
    ensures ReadVarint(s[..n], k) == ReadVarint(s, k)
    decreases 10 - k
  {
    if s[0] >= 128 {
      ReadVarintShrink(s[1..], n - 1, k + 1);
      assert s[..n][1..] == s[1..][..n - 1];
    }
  }

  lemma {:induction false} SkipShrink(s: seq<Byte>, n: nat, i: nat, depth: nat)
    requires i <= n <= |s| && Skip(s, i, depth).Skipped? && Skip(s, i, depth).end <= n
    ensures i < n && Skip(s[..n], i, depth) == Skip(s, i, depth)
    decreases |s| - i
  {
    hide SkipToken;
    var tok := SkipToken(s, i, depth);
    if tok.depth != 0 {
      SkipShrink(s, n, tok.end, tok.depth);
    }
    SkipTagShrink(s, n, i, depth);
  }

  lemma UnknownFieldsOfNothing()
    ensures UnknownFields([])
  {
  }

  lemma ReadFieldEffect(m: CacheValue, s: seq<Byte>)
    requires s != [] && ReadField(m, s).fault.None?
    ensures
      var r := ReadField(m, s);
      && r.m.unrecognized == (if IsUnknown(s) then m.unrecognized + s[..r.len] else m.unrecognized)
      && (IsUnknown(s) ==> r.len == Skip(s, 0, 0).end)
      && (r.m.content == m.content || |r.m.content| <= MAX_INT)
  {
    hide ReadVarint, Varint.Value, FieldNumber, WireType, Skip;
  }

  /** Decoding keeps every unknown field byte for byte and in order, and nothing else. */
  lemma {:induction false} DecodeKeepsUnknown(m: CacheValue, s: seq<Byte>, base: nat)
    requires Decode(m, s, base).fault.None?
    ensures Decode(m, s, base).m.unrecognized == m.unrecognized + UnknownBytes(s)
    ensures UnknownFields(UnknownBytes(s))
    ensures |m.content| <= MAX_INT ==> |Decode(m, s, base).m.content| <= MAX_INT
    decreases |s|
  {
    hide ReadField, IsUnknown, UnknownFields, Skip;
    UnknownFieldsOfNothing();
    if s != [] {
      var r := ReadField(m, s);
      ReadFieldIsUniform(m, s);
      ReadFieldEffect(m, s);
      DecodeKeepsUnknown(r.m, s[r.len..], base + r.len);
      if IsUnknown(s) {
        FirstFieldIsUnknown(s);
        UnknownFieldsConcat(s[..r.len], UnknownBytes(s[r.len..]));
        assert m.unrecognized + s[..r.len] + UnknownBytes(s[r.len..])
            == m.unrecognized + (s[..r.len] + UnknownBytes(s[r.len..]));
      } else {
        assert UnknownBytes(s) == UnknownBytes(s[r.len..]);
      }
    }
  }

  /** Whatever byte string is accepted, the decoded value survives re-encoding. */
  lemma Canonicalisation(s: seq<Byte>)
    requires Accepted(s)
    ensures Decode(ZERO, Encode(Decode(ZERO, s).m)) == Outcome(Decode(ZERO, s).m, None)
    ensures Decode(ZERO, s).m.unrecognized == UnknownBytes(s)
  {
    DecodeKeepsUnknown(ZERO, s, 0);
    assert [] + UnknownBytes(s) == UnknownBytes(s);
    RoundTrip(Decode(ZERO, s).m);
  }

  /** |Encode(m)| field by field, as `Size` adds it up. */
  function EncodedSize(m: CacheValue): (n: nat)
    ensures n == |Encode(m)|
  {
    hide VarintBytes;
    |ContentField(m.content)| + |TimeField(CREATED_TAG, m.createdAt)| + |TimeField(EXPIRES_TAG, m.expiresAt)|
    + |m.unrecognized|
  }

  lemma ReadFieldIsShortest(m: CacheValue, s: seq<Byte>)
    requires s != [] && ReadField(m, s).fault.None?
    ensures EncodedSize(ReadField(m, s).m) <= EncodedSize(m) + ReadField(m, s).len
  {
    hide ReadVarint, VarintBytes, FieldNumber, WireType, Skip;
    var tag := ReadVarint(s);
    if FieldNumber(tag.Value()) <= 3 {
      WrittenIsShortest(s[tag.len..]);
    }
  }

  /** The canonical form is never longer than the bytes it was decoded from, so it always fits. */
  lemma {:induction false} CanonicalIsShortest(m: CacheValue, s: seq<Byte>, base: nat)
    requires Decode(m, s, base).fault.None?
    ensures |Encode(Decode(m, s, base).m)| <= |Encode(m)| + |s|
    decreases |s|
  {
    hide ReadField, Encode, EncodedSize;
    if s != [] {
      var r := ReadField(m, s);
      ReadFieldIsShortest(m, s);
      CanonicalIsShortest(r.m, s[r.len..], base + r.len);
    }
  }
}
