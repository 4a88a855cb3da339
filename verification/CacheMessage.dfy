/** The Go type `Cache` and its generated methods on byte arrays (`cache.pb.go`), together with the
    gossip merge of `cache_codec.go`. Every method is proved against the forms in `CacheWire`. */
module CacheMessage {
  import opened Wrappers
  import opened Varints
  import opened CacheWire

  /* ---- writing backwards ---- */

  /** `after` is `before` with the bytes from index i on replaced by `bytes`, and nothing else. */
  ghost predicate Written(before: seq<Byte>, i: nat, bytes: seq<Byte>, after: seq<Byte>) {
    i + |bytes| <= |before| && after == before[..i] + bytes + before[i + |bytes|..]
  }

  /** Writing just before what was written last extends it to the front. */
  lemma WrittenBefore(s0: seq<Byte>, s1: seq<Byte>, s2: seq<Byte>, i: nat, front: seq<Byte>, back: seq<Byte>)
    requires Written(s0, i + |front|, back, s1) && Written(s1, i, front, s2)
    ensures Written(s0, i, front + back, s2)
  {
    var j := i + |front|;
    assert s1[..i] == s0[..i];
    assert s1[j..] == back + s0[j + |back|..];
    assert s2 == s0[..i] + (front + back) + s0[j + |back|..];
  }

  lemma WrittenToTheEnd(before: seq<Byte>, i: nat, bytes: seq<Byte>, after: seq<Byte>)
    requires Written(before, i, bytes, after) && i + |bytes| == |before|
    ensures |after| == |before| && after[i..] == bytes && after[..i] == before[..i]
  {
  }

  lemma WrittenNothing(s: seq<Byte>, i: nat)
    requires i <= |s|
    ensures Written(s, i, [], s)
  {
  }

  /** `dAtA[i] = b`. */
  method PutByte(data: array<Byte>, i: nat, b: Byte)
    requires i < data.Length
    modifies data
    ensures Written(old(data[..]), i, [b], data[..])
  {
    data[i] := b;
  }

  /** Writes the varint of v so that it ends just before `offset`, and returns where it starts. */
  method EncodeVarint(data: array<Byte>, offset: nat, v: Uint64) returns (start: nat)
    requires |VarintBytes(v)| <= offset <= data.Length
    modifies data
    ensures start == offset - |VarintBytes(v)|
    ensures Written(old(data[..]), start, VarintBytes(v), data[..])
  {
    hide VarintBytes, Sov;
    ghost var bytes := VarintBytes(v);
    SovCountsVarintBytes(v);
    var at := offset - Sov(v);
    start := at;
    var rest: nat := v;
    while rest >= 128
      invariant start <= at && at - start <= |bytes| && bytes[at - start..] == VarintBytes(rest)
      invariant forall j :: start <= j < at ==> data[j] == bytes[j - start]
      invariant forall j :: 0 <= j < start || offset <= j < data.Length ==> data[j] == old(data[j])
    {
      VarintBytesStep(rest);
      assert bytes[at + 1 - start..] == VarintBytes(rest)[1..];
      data[at] := rest % 128 + 128;
      rest := rest / 128;
      at := at + 1;
    }
    VarintBytesStep(rest);
    data[at] := rest;
  }

  /** Copies bytes so that they end just before `offset`. */
  method CopyBefore(data: array<Byte>, offset: nat, bytes: seq<Byte>) returns (start: nat)
    requires |bytes| <= offset <= data.Length
    modifies data
    ensures start == offset - |bytes|
    ensures Written(old(data[..]), start, bytes, data[..])
  {
    start := offset - |bytes|;
    ghost var before, after := data[..start], data[offset..];
    for k := 0 to |bytes|
      invariant data[..start] == before && data[offset..] == after
      invariant data[start..start + k] == bytes[..k]
    {
      data[start + k] := bytes[k];
      assert data[start..start + k + 1] == data[start..start + k] + [bytes[k]];
    }
    assert data[..] == data[..start] + data[start..offset] + data[offset..];
  }

  /* ---- reading ---- */

  /** The varint loop of the decoder. Each group of seven bits lands above the bits read so far, and bits
      beyond the 64th are lost. */
  method LoadVarint(data: array<Byte>, start: nat) returns (v: Uint64, next: nat, fault: Option<Fault>)
    requires start <= data.Length
    ensures next == start + ReadVarint(data[start..]).len && next <= data.Length
    ensures v == ReadVarint(data[start..]).Value()
    ensures fault == ReadVarint(data[start..]).fault
  {
    hide ReadVarint, Shifted, Pow128, BitOr;
    var shift := 0;
    v, next, fault := 0, start, None;
    ghost var sum: nat := 0;
    NothingShifted(ReadVarint(data[start..]).raw);
    while shift < 64 && next < data.Length
      invariant shift == 7 * (next - start) && shift <= 70 && start <= next <= data.Length
      invariant v == sum % TWO64 && sum < Pow128(next - start)
      invariant
        var whole, rest := ReadVarint(data[start..]), ReadVarint(data[next..], next - start);
        && whole.raw == sum + Shifted(rest.raw, next - start)
        && whole.len == next - start + rest.len
        && whole.fault == rest.fault
      decreases data.Length - next
    {
      var b := data[next];
      ghost var k := next - start;
      GroupRead(data[next..], sum, k);
      assert data[next..][1..] == data[next + 1..];
      v := BitOr(v, Shifted(b % 128, shift / 7) % TWO64);
      sum := sum + Shifted(b % 128, k);
      next := next + 1;
      if b < 128 {
        ZeroShifted(k + 1);
        return;
      }
      shift := shift + 7;
    }
    ZeroShifted(next - start);
    NothingRead(data[next..], next - start);
    fault := Some(if shift >= 64 then IntOverflow else UnexpectedEof);
  }

  lemma NothingShifted(x: nat)
    ensures Shifted(x, 0) == x && Pow128(0) == 1
  {
  }

  lemma ZeroShifted(k: nat)
    ensures Shifted(0, k) == 0
  {
  }

  lemma NothingRead(s: seq<Byte>, k: nat)
    requires k == 10 || (k < 10 && s == [])
    ensures ReadVarint(s, k) == Varint(0, 0, Some(if k == 10 then IntOverflow else UnexpectedEof))
  {
  }

  /** What one pass of the loop does to the accumulator and leaves to read. */
  lemma GroupRead(s: seq<Byte>, sum: nat, k: nat)
    requires k < 10 && s != [] && sum < Pow128(k)
    ensures
      var more := sum + Shifted(s[0] % 128, k);
      var whole, rest := ReadVarint(s, k), ReadVarint(s[1..], k + 1);
      && BitOr(sum % TWO64, Shifted(s[0] % 128, k) % TWO64) == more % TWO64
      && more < Pow128(k + 1)
      && if s[0] < 128 then whole == Varint(s[0], 1, None) && sum + Shifted(whole.raw, k) == more
         else
           && sum + Shifted(whole.raw, k) == more + Shifted(rest.raw, k + 1)
           && whole.len == 1 + rest.len && whole.fault == rest.fault
  {
    hide Pow128, Shifted, BitOr, ReadVarint;
    ReadVarintStep(s, k);
    OrAddsGroup(sum, s[0] % 128, k);
    GroupFits(sum, s[0] % 128, k);
    ShiftedSplit(s[0] % 128, ReadVarint(s[1..], k + 1).raw, k);
  }

  lemma GroupFits(sum: nat, group: nat, k: nat)
    requires sum < Pow128(k) && group < 128
    ensures sum + Shifted(group, k) < Pow128(k + 1)
  {
    assert group * Pow128(k) <= 127 * Pow128(k);
  }

  /** One pass of the skipping loop, on the bytes from `base` on. */
  method PassToken(data: array<Byte>, base: nat, from: nat, depth: nat)
    returns (i: int, depth': nat, fault: Option<Fault>)
    requires base + from < data.Length <= MAX_INT
    ensures
      var tok := SkipToken(data[base..], from, depth);
      if tok.BadToken? then fault == Some(tok.fault)
      else if tok.end > MAX_INT then fault == Some(InvalidLength)
      else fault == None && i == tok.end && depth' == tok.depth
  {
    hide ReadVarint, Varint.Value, AddInt, WireType;
    ghost var s := data[base..];
    assert s[from..] == data[base + from..];
    i, depth', fault := from, depth, None;
    var wire, next, f := LoadVarint(data, base + i);
    if f.Some? {
      return i, depth', f;
    }
    i := next - base;
    assert s[i..] == data[next..];
    match WireType(wire) {
      case 0 =>
        var _, next', f' := LoadVarint(data, next);
        i, fault := next' - base, f';
      case 1 =>
        i := AddInt(i, 8);
      case 2 =>
        var length, next', f' := LoadVarint(data, next);
        if f'.Some? {
          fault := f';
        } else if ToInt64(length) < 0 {
          fault := Some(InvalidLength);
        } else {
          i := AddInt(next' - base, length);
        }
      case 3 =>
        depth' := depth + 1;
      case 4 =>
        if depth == 0 {
          fault := Some(UnexpectedEndOfGroup);
        } else {
          depth' := depth - 1;
        }
      case 5 =>
        i := AddInt(i, 4);
      case _ =>
        fault := Some(IllegalWireType);
    }
    if fault.None? && i < 0 {
      fault := Some(InvalidLength);
    }
  }

  /** The skipping loop: how many bytes the field at `base` takes. */
  method SkipField(data: array<Byte>, base: nat) returns (n: nat, fault: Option<Fault>)
    requires base <= data.Length <= MAX_INT
    ensures match Skip(data[base..], 0, 0)
      case SkipFailed(f) => n == 0 && fault == Some(f)
      case Skipped(end) => if end > MAX_INT then n == 0 && fault == Some(InvalidLength)
                           else n == end && fault == None
  {
    hide SkipToken;
    ghost var s := data[base..];
    var i: int, depth := 0, 0;
    while base + i < data.Length
      invariant 0 <= i
      invariant if i <= |s| then Skip(s, 0, 0) == Skip(s, i, depth) else Skip(s, 0, 0) == SkipFailed(UnexpectedEof)
      decreases data.Length - i
    {
      i, depth, fault := PassToken(data, base, i, depth);
      if fault.Some? {
        return 0, fault;
      }
      if depth == 0 {
        return i, None;
      }
    }
    return 0, Some(UnexpectedEof);
  }

  /* ---- the message ---- */

  class Cache {
    var content: seq<Byte>
    var createdAt: Int64
    var expiresAt: Int64
    var unrecognized: seq<Byte>

    constructor ()
      ensures Value() == ZERO
    {
      content, createdAt, expiresAt, unrecognized := [], 0, 0, [];
    }

    function Value(): CacheValue
      reads this
    {
      CacheValue(content, createdAt, expiresAt, unrecognized)
    }

    /** The closed-form size is the length of what the encoder writes. */
    method Size() returns (n: nat)
      ensures n == |Encode(Value())|
    {
      hide VarintBytes, Sov;
      n := 0;
      if |content| > 0 {
        SovCountsVarintBytes(|content|);
        n := n + 1 + |content| + Sov(|content|);
      }
      if createdAt != 0 {
        SovCountsVarintBytes(ToUint64(createdAt));
        n := n + 1 + Sov(ToUint64(createdAt));
      }
      if expiresAt != 0 {
        SovCountsVarintBytes(ToUint64(expiresAt));
        n := n + 1 + Sov(ToUint64(expiresAt));
      }
      n := n + |unrecognized|;
    }

    /** Writes backwards from the end of the buffer; whatever lies before the message is untouched. */
    method MarshalToSizedBuffer(data: array<Byte>) returns (n: nat)
      requires |Encode(Value())| <= data.Length
      requires |content| <= MAX_INT
      modifies data
      ensures n == |Encode(Value())|
      ensures data[data.Length - n..] == Encode(Value())
      ensures data[..data.Length - n] == old(data[..data.Length - n])
    {
      hide Written, ContentField, TimeField;
      ghost var s0 := data[..];
      ghost var c, t, e := ContentField(content), TimeField(CREATED_TAG, createdAt), TimeField(EXPIRES_TAG, expiresAt);
      var i := CopyBefore(data, data.Length, unrecognized);
      ghost var s1 := data[..];
      i := WriteTime(data, i, EXPIRES_TAG, expiresAt);
      ghost var s2 := data[..];
      WrittenBefore(s0, s1, s2, i, e, unrecognized);
      i := WriteTime(data, i, CREATED_TAG, createdAt);
      ghost var s3 := data[..];
      WrittenBefore(s0, s2, s3, i, t, e + unrecognized);
      i := WriteContent(data, i, content);
      WrittenBefore(s0, s3, data[..], i, c, t + (e + unrecognized));
      n := data.Length - i;
      WrittenToTheEnd(s0, i, Encode(Value()), data[..]);
      assert data[i..] == data[..][i..] && data[..i] == data[..][..i];
    }

    method Marshal() returns (data: array<Byte>)
      requires |Encode(Value())| <= MAX_INT
      ensures fresh(data) && data[..] == Encode(Value())
    {
      var size := Size();
      data := new Byte[size](_ => 0);
      var n := MarshalToSizedBuffer(data);
    }

    /** Decodes into this message. Every read is in bounds, and the whole outcome is stated: the
        fields as they are left, also on failure, and the error. */
    method Unmarshal(data: array<Byte>) returns (err: Option<Fault>)
      requires data.Length <= MAX_INT
      modifies this
      ensures Value() == Decode(old(Value()), data[..]).m
      ensures err == match Decode(old(Value()), data[..]).fault
                     case None => None
                     case Some(fault) => Some(Error(fault))
    {
      hide ReadField;
      var i := 0;
      assert data[..] == data[i..];
      while i < data.Length
        invariant 0 <= i <= data.Length
        invariant Decode(old(Value()), data[..]) == Decode(Value(), data[i..], i)
      {
        var n, fault := UnmarshalField(data, i);
        if fault.Some? {
          return Some(fault.value);
        }
        assert data[i..][n..] == data[i + n..];
        i := i + n;
      }
      err := None;
    }

    /** One pass of the decoding loop, for the field at index `pre`. */
    method UnmarshalField(data: array<Byte>, pre: nat) returns (n: nat, err: Option<Fault>)
      requires pre < data.Length <= MAX_INT
      modifies this
      ensures Value() == ReadField(old(Value()), data[pre..]).m
      ensures match ReadField(old(Value()), data[pre..]).fault
        case None => err == None && n == ReadField(old(Value()), data[pre..]).len
        case Some(fault) => err == Some(Error(Shift(Some(fault), pre).value))
    {
      hide ReadVarint, Varint.Value, FieldNumber, WireType, Skip, AddInt;
      ghost var s := data[pre..];
      var wire, i, fault := LoadVarint(data, pre);
      n := 0;
      if fault.Some? {
        return 0, fault;
      }
      assert s[i - pre..] == data[i..];
      var number, wireType := FieldNumber(wire), WireType(wire);
      if wireType == 4 {
        err := Some(EndGroupForNonGroup);
      } else if number <= 0 {
        err := Some(IllegalTag);
      } else if number == 1 {
        n, err := UnmarshalContent(data, pre, i, wireType);
      } else if number == 2 || number == 3 {
        if wireType != 0 {
          err := Some(WrongWireType);
        } else {
          var v, next, f := LoadVarint(data, i);
          if number == 2 {
            createdAt := ToInt64(v);
          } else {
            expiresAt := ToInt64(v);
          }
          n, err := next - pre, f;
        }
      } else {
        var skippy, f := SkipField(data, pre);
        if f.Some? {
          err := f;
        } else if AddInt(pre, skippy) < 0 {
          err := Some(InvalidLength);
        } else if AddInt(pre, skippy) > data.Length {
          err := Some(UnexpectedEof);
        } else {
          assert s[..skippy] == data[pre..pre + skippy];
          unrecognized := unrecognized + data[pre..pre + skippy];
          n, err := skippy, None;
        }
      }
    }

    method UnmarshalContent(data: array<Byte>, pre: nat, i: nat, wireType: nat) returns (n: nat, err: Option<Fault>)
      requires pre <= i <= data.Length <= MAX_INT
      modifies this
      ensures Value() == ReadContent(old(Value()), data[pre..], i - pre, wireType).m
      ensures match ReadContent(old(Value()), data[pre..], i - pre, wireType).fault
        case None => err == None && n == ReadContent(old(Value()), data[pre..], i - pre, wireType).len
        case Some(fault) => err == Some(Error(Shift(Some(fault), pre).value))
    {
      hide ReadVarint, Varint.Value, AddInt;
      ghost var s := data[pre..];
      assert s[i - pre..] == data[i..];
      n := 0;
      if wireType != 2 {
        return 0, Some(WrongWireType);
      }
      var byteLen, next, f := LoadVarint(data, i);
      if f.Some? {
        return 0, f;
      }
      if ToInt64(byteLen) < 0 {
        return 0, Some(InvalidLength);
      }
      var postIndex := AddInt(next, byteLen);
      if postIndex < 0 {
        return 0, Some(InvalidLength);
      }
      if postIndex > data.Length {
        return 0, Some(UnexpectedEof);
      }
      assert s[next - pre..postIndex - pre] == data[next..postIndex];
      content := data[next..postIndex];
      return postIndex - pre, None;
    }

    /** Last writer wins by CreatedAt; a change is reported exactly when the value is replaced. */
    method Merge(other: Cache?) returns (changed: Option<CacheValue>)
      modifies this
      ensures other == null ==> Value() == old(Value()) && changed == None
      ensures other != null ==>
        && Value() == Newer(old(Value()), old(other.Value()))
        && changed == (if old(createdAt) < old(other.createdAt) then Some(old(other.Value())) else None)
    {
      if other == null {
        return None;
      }
      if other.createdAt < createdAt {
        return None;
      }
      if other.createdAt == createdAt {
        return None;
      }
      changed := Some(other.Value());
      content, createdAt, expiresAt, unrecognized :=
        other.content, other.createdAt, other.expiresAt, other.unrecognized;
    }
  }

  /** What a replica holding `mine` holds after hearing of `theirs`. */
  function Newer(mine: CacheValue, theirs: CacheValue): CacheValue {
    if mine.createdAt < theirs.createdAt then theirs else mine
  }

  method WriteTime(data: array<Byte>, offset: nat, tag: Byte, t: Int64) returns (i: nat)
    requires |TimeField(tag, t)| <= offset <= data.Length
    modifies data
    ensures i == offset - |TimeField(tag, t)|
    ensures Written(old(data[..]), i, TimeField(tag, t), data[..])
  {
    hide VarintBytes, Written;
    i := offset;
    WrittenNothing(data[..], i);
    if t != 0 {
      i := EncodeVarint(data, i, ToUint64(t));
      ghost var s1 := data[..];
      i := i - 1;
      PutByte(data, i, tag);
      WrittenBefore(old(data[..]), s1, data[..], i, [tag], VarintBytes(ToUint64(t)));
    }
  }

  method WriteContent(data: array<Byte>, offset: nat, content: seq<Byte>) returns (i: nat)
    requires |ContentField(content)| <= offset <= data.Length && |content| <= MAX_INT
    modifies data
    ensures i == offset - |ContentField(content)|
    ensures Written(old(data[..]), i, ContentField(content), data[..])
  {
    hide VarintBytes, Written;
    i := offset;
    WrittenNothing(data[..], i);
    if |content| > 0 {
      ghost var size := VarintBytes(|content|);
      assert |ContentField(content)| == 1 + |size| + |content|;
      i := CopyBefore(data, i, content);
      ghost var s1 := data[..];
      i := EncodeVarint(data, i, |content|);
      ghost var s2 := data[..];
      WrittenBefore(old(data[..]), s1, s2, i, size, content);
      i := i - 1;
      PutByte(data, i, CONTENT_TAG);
      WrittenBefore(old(data[..]), s2, data[..], i, [CONTENT_TAG], size + content);
    }
  }
}
