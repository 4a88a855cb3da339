/** What decoding means, field by field of the grammar: a reference decoder that never looks at an offset,
    and that the decoding loop is proved to agree with. */
module DecodedFields {
  import opened Wrappers
  import opened Varints
  import opened CacheWire
  import opened FieldGrammar

  /** The signed 64-bit number that is congruent to u. */
  function Signed(u: Uint64): (t: Int64)
    ensures (u - t) % TWO64 == 0
  {
    if u < TWO63 then u else u - TWO64
  }

  /** The content of a length-delimited payload, behind its length. */
  function Delimited(payload: seq<Byte>): (content: seq<Byte>)
    requires IsPayload(2, payload)
    ensures |content| == ReadVarint(payload).Value()
  {
    payload[ReadVarint(payload).len..]
  }

  /** What one field, whose rest is ignored, does to a message. */
  function FieldMeaning(m: CacheValue, f: Fields): Outcome
    requires WellFormed(f) && !f.End?
  {
    var number, w := TagNumber(FirstTag(f)) % NUMBERS, TagType(FirstTag(f));
    if number == 0 || number >= LEGAL_NUMBERS then Outcome(m, Some(IllegalTag))
    else if number == 1 then
      if w == 2 then Outcome(m.(content := Delimited(f.payload)), None) else Outcome(m, Some(WrongWireType))
    else if number == 2 then
      if w == 0 then Outcome(m.(createdAt := Signed(ReadVarint(f.payload).Value())), None)
      else Outcome(m, Some(WrongWireType))
    else if number == 3 then
      if w == 0 then Outcome(m.(expiresAt := Signed(ReadVarint(f.payload).Value())), None)
      else Outcome(m, Some(WrongWireType))
    else Outcome(m.(unrecognized := m.unrecognized + Render(WithRest(f, End))), None)
  }

  /** What a sequence of fields does, up to the first one that is refused. */
  function Meaning(m: CacheValue, f: Fields): Outcome
    requires WellFormed(f)
    decreases f
  {
    if f.End? then Outcome(m, None)
    else
      var first := FieldMeaning(m, f);
      if first.fault.Some? then first else Meaning(first.m, f.rest)
  }

  lemma RenderHead(f: Fields) returns (g: Fields)
    requires WellFormed(f) && !f.End?
    ensures g == WithRest(f, End) && Single(g) && FirstTag(g) == FirstTag(f)
    ensures Render(f) == Render(g) + Render(f.rest)
  {
    hide IsTag, IsPayload, TagType, Render;
    g := WithRest(f, End);
    assert f == WithRest(f, f.rest);
    RenderWithRest(f, f.rest);
  }

  /** The first field of s, which starts with a rendering of f, is what the loop looks at. */
  lemma FirstField(s: seq<Byte>, f: Fields)
    requires Single(f) && At(s, 0, Render(f))
    ensures var tag := FirstTag(f);
      && s != [] && ReadVarint(s) == ReadVarint(tag) && ReadVarint(tag).len == |tag| && ReadVarint(tag).fault.None?
      && TagType(tag) != 4
      && Skip(s, 0, 0) == Skipped(|Render(f)|)
      && (f.Group? <==> TagType(tag) == 3)
      && |Render(f)| <= |s| && s[..|Render(f)|] == Render(f)
  {
    hide ReadVarint, Varint.Value, Render, Skip, At;
    RenderCases(f);
    RenderCases(End);
    SkipAcceptsField(s, f);
    AtBound(s, 0, Render(f));
    AtPrefix(s, Render(f));
    var tail := Render(f)[|FirstTag(f)|..] + s[|Render(f)|..];
    assert s == FirstTag(f) + tail;
    ReadVarintExtend(FirstTag(f), tail, 0);
    assert ReadVarint(FirstTag(f)).len >= 1;
  }

  lemma AtPrefix(s: seq<Byte>, r: seq<Byte>)
    requires At(s, 0, r)
    ensures s[..|r|] == r
  {
  }

  /** The payload of a scalar field at the start of s. */
  lemma FirstPayload(s: seq<Byte>, f: Fields)
    requires Single(f) && f.Scalar? && At(s, 0, Render(f))
    ensures At(s, |f.tag|, f.payload) && |Render(f)| == |f.tag| + |f.payload| <= |s|
  {
    hide At, IsTag, IsPayload;
    AtBound(s, 0, Render(f));
    AtConcat(s, 0, f.tag, f.payload);
    assert Render(f) == f.tag + f.payload;
  }

  lemma ContentMeaning(m: CacheValue, s: seq<Byte>, f: Fields)
    requires Single(f) && f.Scalar? && TagType(f.tag) == 2 && At(s, 0, Render(f))
    ensures |f.tag| <= |s| && ReadContent(m, s, |f.tag|, 2) == Step(m.(content := Delimited(f.payload)), |Render(f)|, None)
  {
    hide ReadVarint, Varint.Value, Render, TagType;
    FirstPayload(s, f);
    ReadVarintAt(s, |f.tag|, f.payload);
    var start := |f.tag| + ReadVarint(f.payload).len;
    assert s[|f.tag|..|f.tag| + |f.payload|] == f.payload;
    assert s[start..|Render(f)|] == Delimited(f.payload);
  }

  lemma TimeMeaning(m: CacheValue, s: seq<Byte>, f: Fields, created: bool)
    requires Single(f) && f.Scalar? && TagType(f.tag) == 0 && At(s, 0, Render(f))
    ensures |f.tag| <= |s|
    ensures ReadTime(m, s, |f.tag|, 0, created)
         == Step(SetTime(m, created, Signed(ReadVarint(f.payload).Value())), |Render(f)|, None)
  {
    hide ReadVarint, Varint.Value, Render, TagType, SetTime;
    FirstPayload(s, f);
    ReadVarintAt(s, |f.tag|, f.payload);
  }

  /** One pass of the decoding loop over a grammatical field. */
  lemma ReadFieldMeans(m: CacheValue, s: seq<Byte>, f: Fields)
    requires s != [] && Single(f) && At(s, 0, Render(f))
    ensures
      var r, means := ReadField(m, s), FieldMeaning(m, f);
      r.m == means.m && r.fault == means.fault && (r.fault.None? ==> r.len == |Render(f)|)
  {
    hide ReadVarint, Varint.Value, Render, Skip, At, ReadContent, ReadTime, IsPayload, Delimited, SkipPayload;
    FirstField(s, f);
    NumberOfTag(ReadVarint(s).Value());
    hide FieldNumber, WireType;
    var number, w := TagNumber(FirstTag(f)) % NUMBERS, TagType(FirstTag(f));
    assert WithRest(f, End) == f;
    if number == 1 && w == 2 {
      ContentMeaning(m, s, f);
    } else if (number == 2 || number == 3) && w == 0 {
      TimeMeaning(m, s, f, number == 2);
    } else if number == 1 {
      WrongContent(m, s, |FirstTag(f)|, w);
    } else if number == 2 || number == 3 {
      WrongTime(m, s, |FirstTag(f)|, w, number == 2);
    }
  }

  lemma WrongContent(m: CacheValue, s: seq<Byte>, j: nat, w: nat)
    requires j <= |s| && w != 2
    ensures ReadContent(m, s, j, w) == Step(m, 0, Some(WrongWireType))
  {
  }

  lemma WrongTime(m: CacheValue, s: seq<Byte>, j: nat, w: nat, created: bool)
    requires j <= |s| && w != 0
    ensures ReadTime(m, s, j, w, created) == Step(m, 0, Some(WrongWireType))
  {
  }

  /** The loop does to a message what the fields mean, also when one of them is refused. */
  lemma {:induction false} DecodeMeans(m: CacheValue, f: Fields, base: nat)
    requires WellFormed(f)
    ensures Decode(m, Render(f), base) == Meaning(m, f)
    decreases f
  {
    hide ReadField, Render, FieldMeaning, IsTag, IsPayload, At, Single;
    RenderCases(f);
    if !f.End? {
      var s := Render(f);
      var g := RenderHead(f);
      assert At(s, 0, Render(g)) by { PrefixIsAt(Render(g), Render(f.rest)); }
      FirstField(s, g);
      ReadFieldMeans(m, s, g);
      OnlyTheHeadMatters(m, f, g);
      var first := FieldMeaning(m, f);
      if first.fault.None? {
        assert s[|Render(g)|..] == Render(f.rest);
        DecodeMeans(first.m, f.rest, base + |Render(g)|);
      } else {
        RefusalsAreNoOverruns(m, f);
      }
    }
  }

  lemma PrefixIsAt(a: seq<Byte>, b: seq<Byte>)
    ensures At(a + b, 0, a)
  {
  }

  lemma OnlyTheHeadMatters(m: CacheValue, f: Fields, g: Fields)
    requires WellFormed(f) && !f.End? && g == WithRest(f, End)
    ensures WellFormed(g) && FieldMeaning(m, f) == FieldMeaning(m, g)
  {
    hide ReadVarint, Varint.Value, Render, IsPayload, Delimited;
    assert WithRest(g, End) == g;
  }

  lemma RefusalsAreNoOverruns(m: CacheValue, f: Fields)
    requires WellFormed(f) && !f.End?
    ensures FieldMeaning(m, f).fault in {None, Some(IllegalTag), Some(WrongWireType)}
  {
  }

  /** Whatever the loop accepts is a sequence of fields of the grammar. */
  lemma {:induction false} AcceptedParses(m: CacheValue, s: seq<Byte>, base: nat) returns (f: Fields)
    requires Decode(m, s, base).fault.None?
    ensures WellFormed(f) && Render(f) == s
    decreases |s|
  {
    hide ReadField, Render, IsTag, IsPayload, Single, Skip;
    if s == [] {
      f := End;
      RenderCases(f);
    } else {
      var r := ReadField(m, s);
      var rest := AcceptedParses(r.m, s[r.len..], base + r.len);
      var g := FieldParses(m, s);
      SingleIsItsHead(g);
      f := WithRest(g, rest);
      RenderWithRest(g, rest);
      assert s == s[..r.len] + s[r.len..];
    }
  }

  lemma SingleIsItsHead(g: Fields)
    requires Single(g)
    ensures !g.End? && WellFormed(g) && WithRest(g, End) == g
  {
    hide IsTag, IsPayload;
  }

  /** A field that the loop accepts is one field of the grammar, known or not. */
  lemma FieldParses(m: CacheValue, s: seq<Byte>) returns (f: Fields)
    requires s != [] && ReadField(m, s).fault.None?
    ensures Single(f) && Render(f) == s[..ReadField(m, s).len]
  {
    hide ReadVarint, Varint.Value, FieldNumber, WireType, Skip, Render, Single;
    KnownFieldSkips(m, s);
    f := SkipParsesField(s);
    AtPrefix(s, Render(f));
  }

  /** Known fields take as many bytes as skipping them would. */
  lemma KnownFieldSkips(m: CacheValue, s: seq<Byte>)
    requires s != [] && ReadField(m, s).fault.None?
    ensures Skip(s, 0, 0) == Skipped(ReadField(m, s).len)
  {
    hide ReadVarint, Varint.Value, FieldNumber, WireType, Skip;
    var tag := ReadVarint(s);
    assert s[0..] == s;
    if FieldNumber(tag.Value()) <= 3 {
      SkipStep(s, 0, 0, ReadField(m, s).len, 0);
    }
  }

  /** Decoding against the reference: for every byte string, the loop accepts it exactly when it renders
      fields of the grammar none of which is refused, and then yields what they mean. */
  lemma DecodeIsMeaning(m: CacheValue, s: seq<Byte>, m': CacheValue)
    ensures Decode(m, s) == Outcome(m', None) <==>
      exists f :: WellFormed(f) && Render(f) == s && Meaning(m, f) == Outcome(m', None)
  {
    hide Decode, Render, Meaning, WellFormed;
    if Decode(m, s) == Outcome(m', None) {
      var f := AcceptedParses(m, s, 0);
      DecodeMeans(m, f, 0);
    }
    if f :| WellFormed(f) && Render(f) == s && Meaning(m, f) == Outcome(m', None) {
      DecodeMeans(m, f, 0);
    }
  }

  /* ---- tags as a writer forms them ---- */

  /** A tag written for a number below 2^29 and a wire type is read back as them. */
  lemma WrittenTag(n: nat, w: nat)
    requires n < 0x2000_0000 && w < 8
    ensures IsTag(VarintBytes(8 * n + w), w)
    ensures TagNumber(VarintBytes(8 * n + w)) == n && n % NUMBERS == n
    ensures FieldNumber(8 * n + w) == n && WireType(8 * n + w) == w
  {
    hide ReadVarint, VarintBytes;
    var tag := VarintBytes(8 * n + w);
    ReadWrittenUint64(8 * n + w, []);
    assert tag + [] == tag;
  }

  /** Numbers that do not fit 32 bits wrap around like Go's conversion to `int32`. */
  lemma FieldNumberWraps(wire: Uint64)
    ensures -0x8000_0000 <= FieldNumber(wire) < 0x8000_0000
    ensures (wire / 8 - FieldNumber(wire)) % 0x1_0000_0000 == 0
  {
  }

  /** What a message becomes of a field written with number n: 1 to 3 set exactly that field, 0 is
      refused, and every other number keeps the field byte for byte and changes nothing else. */
  lemma FieldByNumber(m: CacheValue, n: nat, w: nat, f: Fields, base: nat)
    requires n < 0x2000_0000 && w < 8 && Single(f) && FirstTag(f) == VarintBytes(8 * n + w)
    ensures TagType(FirstTag(f)) == w
    ensures
      var r := Decode(m, Render(f), base);
      && (n == 0 ==> r == Outcome(m, Some(IllegalTag)))
      && (n == 1 && w == 2 ==> r == Outcome(m.(content := Delimited(f.payload)), None))
      && (n == 2 && w == 0 ==> r == Outcome(m.(createdAt := Signed(ReadVarint(f.payload).Value())), None))
      && (n == 3 && w == 0 ==> r == Outcome(m.(expiresAt := Signed(ReadVarint(f.payload).Value())), None))
      && (1 <= n <= 3 && w != (if n == 1 then 2 else 0) ==> r == Outcome(m, Some(WrongWireType)))
      && (n >= 4 ==> r == Outcome(m.(unrecognized := m.unrecognized + Render(f)), None))
  {
    hide Decode, Render, ReadVarint, VarintBytes, Delimited, Varint.Value, FieldNumber;
    WrittenTag(n, w);
    DecodeMeans(m, f, base);
    assert WithRest(f, End) == f;
  }

  /** Field 17, as a later version of the message may send it, is kept and touches nothing else. */
  lemma FieldSeventeen(m: CacheValue)
    ensures Decode(m, [0x8a, 0x01, 0x01, 0x41])
         == Outcome(m.(unrecognized := m.unrecognized + [0x8a, 0x01, 0x01, 0x41]), None)
  {
    hide Decode, FieldNumber;
    var f := Scalar([0x8a, 0x01], [0x01, 0x41], End);
    assert ReadVarint([0x01, 0x41]) == Varint(1, 1, None);
    assert VarintBytes(8 * 17 + 2) == [0x8a, 0x01];
    WrittenTag(17, 2);
    FieldByNumber(m, 17, 2, f, 0);
    assert Render(f) == [0x8a, 0x01, 0x01, 0x41];
  }

  /* ---- bytes on the wire ---- */

  /** A value as it lies on the wire. */
  lemma EncodedExample()
    ensures Encode(CacheValue([0x41, 0x42], 300, -1, [0x20, 0x05]))
         == [0x0a, 0x02, 0x41, 0x42, 0x10, 0xac, 0x02, 0x18,
             0xff, 0xff, 0xff, 0xff, 0xff, 0xff, 0xff, 0xff, 0xff, 0x01, 0x20, 0x05]
  {
    hide VarintBytes;
    SmallVarint(2);
    VarintBytesStep(300);
    SmallVarint(2);
    LargestVarint();
  }

  lemma SmallVarint(v: nat)
    requires v < 128
    ensures VarintBytes(v) == [v]
  {
  }

  lemma LargestVarint()
    ensures VarintBytes(TWO64 - 1) == [0xff, 0xff, 0xff, 0xff, 0xff, 0xff, 0xff, 0xff, 0xff, 0x01]
  {
    hide VarintBytes;
    VarintBytesStep(0xffff_ffff_ffff_ffff);
    VarintBytesStep(0x1ff_ffff_ffff_ffff);
    VarintBytesStep(0x3_ffff_ffff_ffff);
    VarintBytesStep(0x7ff_ffff_ffff);
    VarintBytesStep(0xf_ffff_ffff);
    VarintBytesStep(0x1fff_ffff);
    VarintBytesStep(0x3f_ffff);
    VarintBytesStep(0x7fff);
    VarintBytesStep(0xff);
    VarintBytesStep(1);
  }

  /** Why a tag with nothing behind it is refused. */
  lemma RefusedTags(m: CacheValue, b: Byte)
    requires b < 128
    ensures
      var fault, n, w := Decode(m, [b]).fault, b / 8, b % 8;
      && (w == 4 ==> fault == Some(EndGroupForNonGroup))
      && (w != 4 && n == 0 ==> fault == Some(IllegalTag))
      && (n == 1 && w != 2 && w != 4 ==> fault == Some(WrongWireType))
      && (2 <= n <= 3 && w != 0 && w != 4 ==> fault == Some(WrongWireType))
      && (n >= 4 && w == 3 ==> fault == Some(UnexpectedEof))
      && (n >= 4 && w >= 6 ==> fault == Some(IllegalWireType))
  {
    hide ReadVarint, Skip, ReadContent, ReadTime, FieldNumber, WireType, Decode;
    var n, w := b / 8, b % 8;
    ReadLonelyTag(b);
    NumberOfTag(b);
    if n == 1 {
      if w != 2 {
        WrongContent(m, [b], 1, w);
      }
    } else if n <= 3 {
      if w != 0 {
        WrongTime(m, [b], 1, w, n == 2);
      }
    } else if w == 3 || w >= 6 {
      LonelyTag(b);
    }
    FirstFailure(m, [b]);
  }

  lemma FirstFailure(m: CacheValue, s: seq<Byte>)
    requires s != []
    ensures ReadField(m, s).fault.Some? && !ReadField(m, s).fault.value.Overrun? ==>
      Decode(m, s).fault == ReadField(m, s).fault
  {
    hide ReadField;
  }

  /** Why malformed lengths are refused. */
  lemma RefusedLengths(m: CacheValue)
    ensures Decode(m, [0x0a]).fault == Some(UnexpectedEof)
    ensures Decode(m, [0x0a, 0x02, 0x41]).fault == Some(Overrun(4)) && Error(Overrun(4)) == UnexpectedEof
    ensures Decode(m, [0x0a] + VarintBytes(TWO63)).fault == Some(InvalidLength)
  {
    hide VarintBytes, ReadVarint, Skip;
    ReadLonelyTag(0x0a);
    NothingToRead(0);
    ReadSmallTag(0x0a, [0x02, 0x41]);
    ReadSmallTag(0x02, [0x41]);
    assert [0x0a, 0x02, 0x41] == [0x0a] + [0x02, 0x41] && [0x02, 0x41] == [0x02] + [0x41];
    ReadSmallTag(0x0a, VarintBytes(TWO63));
    ReadWrittenUint64(TWO63, []);
    assert ([0x0a] + VarintBytes(TWO63))[1..] == VarintBytes(TWO63) + [];
  }

  lemma ReadLonelyTag(b: Byte)
    requires b < 128
    ensures ReadVarint([b]) == Varint(b, 1, None)
  {
  }

  lemma NothingToRead(k: nat)
    requires k < 10
    ensures ReadVarint([], k) == Varint(0, 0, Some(UnexpectedEof))
  {
  }

  lemma LonelyTag(b: Byte)
    requires b < 128 && (b % 8 == 3 || b % 8 >= 6)
    ensures Skip([b], 0, 0) == SkipFailed(if b % 8 == 3 then UnexpectedEof else IllegalWireType)
  {
    hide ReadVarint;
    ReadLonelyTag(b);
    assert [b][0..] == [b];
  }
}
