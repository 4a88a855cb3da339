/** The grammar of protobuf fields, independently of the skipping loop: scalars with an exact
    payload and groups that nest. The loop's depth counter accepts exactly this grammar. */
module FieldGrammar {
  import opened Varints
  import opened CacheWire

  /** A sequence of complete fields. */
  datatype Fields =
    | End
    | Scalar(tag: seq<Byte>, payload: seq<Byte>, rest: Fields)
    | Group(open: seq<Byte>, body: Fields, close: seq<Byte>, rest: Fields)

  function Render(f: Fields): seq<Byte> {
    match f
    case End => []
    case Scalar(tag, payload, rest) => tag + payload + Render(rest)
    case Group(open, body, close, rest) => open + (Render(body) + close) + Render(rest)
  }

  /** A tag is 8 * number + type. */
  function TagType(b: seq<Byte>): nat {
    ReadVarint(b).Value() % 8
  }

  function TagNumber(b: seq<Byte>): nat {
    ReadVarint(b).Value() / 8
  }

  predicate IsTag(b: seq<Byte>, wireType: nat) {
    ReadVarint(b).fault.None? && ReadVarint(b).len == |b| && TagType(b) == wireType
  }

  predicate IsPayload(wireType: nat, p: seq<Byte>) {
    || (wireType == 0 && ReadVarint(p).fault.None? && ReadVarint(p).len == |p|)
    || (wireType == 1 && |p| == 8)
    || (wireType == 2 && ReadVarint(p).fault.None? && ReadVarint(p).Value() <= MAX_INT
        && |p| == ReadVarint(p).len + ReadVarint(p).Value())
    || (wireType == 5 && |p| == 4)
  }

  /** Group ends are not matched by field number, and fields inside a group may have any number. */
  predicate WellFormed(f: Fields) {
    match f
    case End => true
    case Scalar(tag, payload, rest) =>
      IsTag(tag, TagType(tag)) && IsPayload(TagType(tag), payload) && WellFormed(rest)
    case Group(open, body, close, rest) =>
      IsTag(open, 3) && WellFormed(body) && IsTag(close, 4) && WellFormed(rest)
  }

  predicate Single(f: Fields) {
    WellFormed(f) && !f.End? && f.rest.End?
  }

  function FirstTag(f: Fields): seq<Byte>
    requires !f.End?
  {
    if f.Scalar? then f.tag else f.open
  }

  /** Field numbers are 32 bits wide, and of those only the positive ones are legal. */
  const NUMBERS: nat := 0x1_0000_0000
  const LEGAL_NUMBERS: nat := 0x8000_0000

  /** Well-formed, and every outermost field has a legal number other than 1 to 3. */
  predicate Unknown(f: Fields) {
    WellFormed(f) && (f.End? || (4 <= TagNumber(FirstTag(f)) % NUMBERS < LEGAL_NUMBERS && Unknown(f.rest)))
  }

  /** The code's field number is the 32-bit one, read as signed. */
  lemma NumberOfTag(wire: Uint64)
    ensures WireType(wire) == wire % 8
    ensures
      var n := wire / 8 % NUMBERS;
      FieldNumber(wire) == if n < LEGAL_NUMBERS then n else n - NUMBERS
  {
  }

  /* ---- the loop accepts the grammar ---- */

  /** r lies at index i of s. */
  predicate At(s: seq<Byte>, i: nat, r: seq<Byte>) {
    i + |r| <= |s| && s[i..i + |r|] == r
  }

  lemma AtBound(s: seq<Byte>, i: nat, r: seq<Byte>)
    requires At(s, i, r)
    ensures i + |r| <= |s|
  {
  }

  lemma AtConcat(s: seq<Byte>, i: nat, a: seq<Byte>, b: seq<Byte>)
    ensures At(s, i, a + b) <==> At(s, i, a) && At(s, i + |a|, b)
  {
    if i + |a + b| <= |s| {
      var w := s[i..i + |a + b|];
      assert s[i..i + |a|] == w[..|a|] && s[i + |a|..i + |a| + |b|] == w[|a|..];
      assert w == w[..|a|] + w[|a|..];
      if w == a + b {
        assert w[..|a|] == a && w[|a|..] == b;
      }
    }
  }

  lemma ReadVarintAt(s: seq<Byte>, i: nat, v: seq<Byte>)
    requires At(s, i, v) && ReadVarint(v).fault.None?
    ensures ReadVarint(s[i..]) == ReadVarint(v)
  {
    var post := s[i + |v|..];
    assert s[i..] == v + post;
    ReadVarintExtend(v, post, 0);
  }

  lemma TagAt(s: seq<Byte>, i: nat, tag: seq<Byte>, wireType: nat, depth: nat)
    requires At(s, i, tag) && IsTag(tag, wireType)
    ensures tag != []
    ensures SkipToken(s, i, depth) == SkipPayload(s, i + |tag|, wireType, depth)
  {
    hide ReadVarint, Varint.Value, WireType, SkipPayload;
    ReadVarintAt(s, i, tag);
    NumberOfTag(ReadVarint(tag).Value());
  }

  lemma ScalarAt(s: seq<Byte>, i: nat, tag: seq<Byte>, payload: seq<Byte>, w: nat, depth: nat)
    requires At(s, i, tag) && At(s, i + |tag|, payload) && IsTag(tag, w) && IsPayload(w, payload)
    ensures tag != []
    ensures SkipToken(s, i, depth) == Token(i + |tag| + |payload|, depth)
  {
    hide ReadVarint, Varint.Value, WireType, SkipToken;
    TagAt(s, i, tag, w, depth);
    if w == 0 {
      ReadVarintAt(s, i + |tag|, payload);
    } else if w == 2 {
      ReadVarintAt(s, i + |tag|, payload);
    }
  }

  lemma OpenAt(s: seq<Byte>, i: nat, tag: seq<Byte>, depth: nat)
    requires At(s, i, tag) && IsTag(tag, 3)
    ensures tag != [] && SkipToken(s, i, depth) == Token(i + |tag|, depth + 1)
  {
    TagAt(s, i, tag, 3, depth);
  }

  lemma CloseAt(s: seq<Byte>, i: nat, tag: seq<Byte>, depth: nat)
    requires At(s, i, tag) && IsTag(tag, 4) && depth > 0
    ensures tag != [] && SkipToken(s, i, depth) == Token(i + |tag|, depth - 1)
  {
    TagAt(s, i, tag, 4, depth);
  }

  lemma GroupAt(s: seq<Byte>, i: nat, f: Fields)
    requires f.Group? && At(s, i, Render(f))
    ensures At(s, i, f.open)
    ensures At(s, i + |f.open|, Render(f.body))
    ensures At(s, i + |f.open| + |Render(f.body)|, f.close)
    ensures At(s, i + |f.open| + |Render(f.body)| + |f.close|, Render(f.rest))
    ensures |Render(f)| == |f.open| + |Render(f.body)| + |f.close| + |Render(f.rest)|
  {
    hide At, Render;
    RenderCases(f);
    AtConcat(s, i, f.open + (Render(f.body) + f.close), Render(f.rest));
    AtConcat(s, i, f.open, Render(f.body) + f.close);
    AtConcat(s, i + |f.open|, Render(f.body), f.close);
  }

  lemma SkipStep(s: seq<Byte>, i: nat, depth: nat, end: nat, depth': nat)
    requires i < end <= |s| && SkipToken(s, i, depth) == Token(end, depth')
    ensures Skip(s, i, depth) == if depth' == 0 then Skipped(end) else Skip(s, end, depth')
  {
    hide SkipToken;
  }

  /** Inside a group the loop passes over any well-formed fields. */
  lemma {:induction false} SkipPasses(s: seq<Byte>, i: nat, f: Fields, depth: nat)
    requires WellFormed(f) && depth > 0 && At(s, i, Render(f))
    ensures i + |Render(f)| <= |s|
    ensures Skip(s, i, depth) == Skip(s, i + |Render(f)|, depth)
    decreases f
  {
    hide SkipToken, IsTag, IsPayload, At, Skip, Render, TagType;
    AtBound(s, i, Render(f));
    RenderCases(f);
    match f
    case End =>
    case Scalar(tag, payload, rest) =>
      AtConcat(s, i, tag + payload, Render(rest));
      AtConcat(s, i, tag, payload);
      ScalarAt(s, i, tag, payload, TagType(tag), depth);
      SkipStep(s, i, depth, i + |tag| + |payload|, depth);
      SkipPasses(s, i + |tag| + |payload|, rest, depth);
    case Group(open, body, close, rest) =>
      GroupAt(s, i, f);
      OpenAt(s, i, open, depth);
      var j := i + |open|;
      SkipStep(s, i, depth, j, depth + 1);
      SkipPasses(s, j, body, depth + 1);
      var k := j + |Render(body)|;
      CloseAt(s, k, close, depth + 1);
      SkipStep(s, k, depth + 1, k + |close|, depth);
      SkipPasses(s, k + |close|, rest, depth);
  }

  lemma SkipAcceptsField(s: seq<Byte>, f: Fields)
    requires Single(f) && At(s, 0, Render(f))
    ensures Skip(s, 0, 0) == Skipped(|Render(f)|)
  {
    hide SkipToken, IsTag, IsPayload, At, Skip, Render, TagType;
    AtBound(s, 0, Render(f));
    RenderCases(f);
    RenderCases(End);
    match f
    case Scalar(tag, payload, rest) =>
      assert Render(f) == tag + payload;
      AtConcat(s, 0, tag, payload);
      ScalarAt(s, 0, tag, payload, TagType(tag), 0);
      SkipStep(s, 0, 0, |tag| + |payload|, 0);
    case Group(open, body, close, rest) =>
      GroupAt(s, 0, f);
      OpenAt(s, 0, open, 0);
      SkipStep(s, 0, 0, |open|, 1);
      SkipPasses(s, |open|, body, 1);
      var k := |open| + |Render(body)|;
      CloseAt(s, k, close, 1);
      SkipStep(s, k, 1, k + |close|, 0);
  }

  /* ---- the loop accepts nothing else ---- */

  /** The bytes of one token, classified. */
  lemma TokenBytes(s: seq<Byte>, i: nat, depth: nat) returns (tag: seq<Byte>, payload: seq<Byte>)
    requires i <= |s| && SkipToken(s, i, depth).Token? && SkipToken(s, i, depth).end <= |s|
    ensures IsTag(tag, TagType(tag)) && At(s, i, tag + payload)
    ensures SkipToken(s, i, depth).end == i + |tag + payload|
    ensures ReadVarint(tag) == ReadVarint(s[i..])
    ensures match TagType(tag)
      case 3 => payload == [] && SkipToken(s, i, depth).depth == depth + 1
      case 4 => payload == [] && depth > 0 && SkipToken(s, i, depth).depth == depth - 1
      case w => IsPayload(w, payload) && SkipToken(s, i, depth).depth == depth
  {
    hide ReadVarint, Varint.Value, WireType;
    var r := ReadVarint(s[i..]);
    var j, end := i + r.len, SkipToken(s, i, depth).end;
    tag, payload := s[i..j], s[j..end];
    assert tag + payload == s[i..end];
    assert tag == s[i..][..r.len];
    NumberOfTag(r.Value());
    ReadVarintShrink(s[i..], r.len, 0);
    if WireType(r.Value()) == 0 || WireType(r.Value()) == 2 {
      assert payload == s[j..][..end - j];
      ReadVarintShrink(s[j..], end - j, 0);
    }
  }

  /** From inside a group, what the loop consumes up to the end of that group parses. */
  lemma {:induction false} SkipParses(s: seq<Byte>, i: nat, depth: nat)
    returns (f: Fields, close: seq<Byte>, j: nat)
    requires i <= |s| && depth > 0 && Skip(s, i, depth).Skipped? && Skip(s, i, depth).end <= |s|
    ensures WellFormed(f) && IsTag(close, 4)
    ensures At(s, i, Render(f) + close) && i < j <= |s| && j == i + |Render(f)| + |close|
    ensures if depth == 1 then j == Skip(s, i, depth).end else Skip(s, j, depth - 1) == Skip(s, i, depth)
    decreases |s| - i
  {
    hide SkipToken, IsTag, IsPayload, At, TagType, Render;
    var tok := SkipToken(s, i, depth);
    var tag, payload := TokenBytes(s, i, depth);
    if TagType(tag) == 4 {
      f, close, j := End, tag, tok.end;
      RenderCases(f);
      assert Render(f) + close == tag + payload;
    } else if TagType(tag) == 3 {
      var body, close', k := SkipParses(s, tok.end, depth + 1);
      var rest;
      rest, close, j := SkipParses(s, k, depth);
      f := Group(tag, body, close', rest);
      RenderCases(f);
      var inner := Render(body) + close';
      AtConcat(s, i, tag, inner);
      AtConcat(s, i, tag + inner, Render(rest) + close);
      assert tag + payload == tag;
      assert tag + inner + (Render(rest) + close) == Render(f) + close;
    } else {
      var rest;
      rest, close, j := SkipParses(s, tok.end, depth);
      f := Scalar(tag, payload, rest);
      RenderCases(f);
      AtConcat(s, i, tag + payload, Render(rest) + close);
      assert tag + payload + (Render(rest) + close) == Render(f) + close;
    }
  }

  lemma RenderCases(f: Fields)
    ensures match f
      case End => Render(f) == []
      case Scalar(tag, payload, rest) => Render(f) == tag + payload + Render(rest)
      case Group(open, body, close, rest) =>
        Render(f) == open + (Render(body) + close) + Render(rest)
  {
  }

  lemma SkipParsesField(s: seq<Byte>) returns (f: Fields)
    requires Skip(s, 0, 0).Skipped? && Skip(s, 0, 0).end <= |s|
    ensures Single(f) && At(s, 0, Render(f)) && |Render(f)| == Skip(s, 0, 0).end
    ensures ReadVarint(FirstTag(f)) == ReadVarint(s)
  {
    hide SkipToken, IsTag, IsPayload, At, TagType, Render, ReadVarint;
    var tok := SkipToken(s, 0, 0);
    var tag, payload := TokenBytes(s, 0, 0);
    assert s[0..] == s;
    if TagType(tag) == 3 {
      var body, close, j := SkipParses(s, tok.end, 1);
      f := Group(tag, body, close, End);
      RenderCases(f);
      RenderCases(End);
      assert tag + payload == tag;
      AtConcat(s, 0, tag, Render(body) + close);
      assert Render(f) == tag + (Render(body) + close);
      assert WellFormed(f);
    } else {
      f := Scalar(tag, payload, End);
      RenderCases(f);
      RenderCases(End);
      assert Render(f) == tag + payload;
      assert WellFormed(f);
    }
  }

  /** The skipping loop stops after n bytes exactly when they are one field of the grammar. */
  lemma SkipRecognisesFields(s: seq<Byte>, n: nat)
    requires n <= |s|
    ensures Skip(s, 0, 0) == Skipped(n) <==> exists f :: Single(f) && Render(f) == s[..n]
  {
    hide Skip, Single, Render;
    if Skip(s, 0, 0) == Skipped(n) {
      var f := SkipParsesField(s);
      assert Render(f) == s[..n];
    }
    if f :| Single(f) && Render(f) == s[..n] {
      SkipAcceptsField(s, f);
    }
  }

  /* ---- the unknown fields of the message ---- */

  /** What the round trip needs of the unrecognized bytes, in terms of the grammar alone. */
  lemma UnknownFieldsAreGrammar(u: seq<Byte>)
    ensures UnknownFields(u) <==> exists f :: Unknown(f) && Render(f) == u
  {
    hide UnknownFields, Render, Unknown;
    if UnknownFields(u) {
      var f := UnknownParses(u);
    }
    if f :| Unknown(f) && Render(f) == u {
      UnknownRenders(f);
    }
  }

  /** The first field of f on its own, or f's first field followed by others. */
  function WithRest(f: Fields, rest: Fields): (g: Fields)
    requires !f.End?
    ensures !g.End? && g.rest == rest && FirstTag(g) == FirstTag(f)
    ensures WellFormed(f) && WellFormed(rest) ==> WellFormed(g)
  {
    hide IsTag, IsPayload, TagType;
    match f
    case Scalar(tag, payload, _) => Scalar(tag, payload, rest)
    case Group(open, body, close, _) => Group(open, body, close, rest)
  }

  lemma RenderWithRest(f: Fields, rest: Fields)
    requires !f.End?
    ensures Render(WithRest(f, rest)) == Render(WithRest(f, End)) + Render(rest)
  {
    hide Render;
    RenderCases(WithRest(f, rest));
    RenderCases(WithRest(f, End));
    RenderCases(End);
    if f.Scalar? {
      assert f.tag + f.payload + [] == f.tag + f.payload;
    }
  }

  lemma EndIsUnknown() returns (f: Fields)
    ensures Unknown(f) && Render(f) == []
  {
    f := End;
  }

  lemma {:induction false} UnknownParses(u: seq<Byte>) returns (f: Fields)
    requires UnknownFields(u)
    ensures Unknown(f) && Render(f) == u
    decreases |u|
  {
    hide Skip, IsTag, IsPayload, ReadVarint, FieldNumber, Render, WellFormed;
    if u == [] {
      f := EndIsUnknown();
    } else {
      var n := Skip(u, 0, 0).end;
      var rest := UnknownParses(u[n..]);
      var g := SkipParsesField(u);
      f := WithRest(g, rest);
      assert WithRest(g, End) == g;
      NumberOfTag(ReadVarint(u).Value());
      RenderWithRest(g, rest);
      assert u == u[..n] + u[n..];
    }
  }

  lemma {:induction false} UnknownRenders(f: Fields)
    requires Unknown(f)
    ensures UnknownFields(Render(f))
    decreases f
  {
    hide Skip, ReadVarint, Varint.Value, FieldNumber, WireType, Render;
    RenderCases(f);
    if !f.End? {
      var g := WithRest(f, End);
      var u := Render(f);
      assert f == WithRest(f, f.rest);
      RenderWithRest(f, f.rest);
      UnknownRenders(f.rest);
      SkipAcceptsField(u, g);
      var tail := u[|FirstTag(f)|..];
      assert u == FirstTag(f) + tail;
      ReadVarintExtend(FirstTag(f), tail, 0);
      NumberOfTag(ReadVarint(u).Value());
      assert IsUnknown(u);
    }
  }
}
