/** `url.QueryEscape`: the text that a search takes in the query string, and that it can be undone.
    Strings are Go strings, one `char` a byte. */
module UrlEscapes {
  import opened Wrappers

  const UPPER: string := "ABCDEFGHIJKLMNOPQRSTUVWXYZ"
  const LOWER: string := "abcdefghijklmnopqrstuvwxyz"
  const DIGITS: string := "0123456789"

  predicate IsUnreserved(c: char) {
    || 'a' <= c <= 'z' || 'A' <= c <= 'Z' || '0' <= c <= '9'
    || c == '-' || c == '_' || c == '.' || c == '~'
  }

  predicate AllBytes(s: string) {
    forall i :: 0 <= i < |s| ==> s[i] as int < 256
  }

  function HexDigit(d: nat): char
    requires d < 16
  {
    if d < 10 then '0' + d as char else 'A' + (d - 10) as char
  }

  /** Unreserved bytes stay, a space becomes a plus, any other byte a percent sign and two hex digits. */
  function EscapeByte(c: char): (e: string)
    ensures 1 <= |e| <= 3
  {
    if IsUnreserved(c) then [c]
    else if c == ' ' then "+"
    else ['%', HexDigit(c as int / 16 % 16), HexDigit(c as int % 16)]
  }

  function QueryEscape(s: string): string {
    if s == "" then "" else EscapeByte(s[0]) + QueryEscape(s[1..])
  }

  function HexValue(c: char): Option<nat> {
    if '0' <= c <= '9' then Some(c as int - '0' as int)
    else if 'A' <= c <= 'F' then Some(c as int - 'A' as int + 10)
    else if 'a' <= c <= 'f' then Some(c as int - 'a' as int + 10)
    else None
  }

  /** What a server makes of a query string, unless it is malformed. */
  function QueryUnescape(s: string): Option<string>
    decreases |s|
  {
    if s == "" then Some("")
    else if s[0] != '%' then
      var rest := QueryUnescape(s[1..]);
      if rest.None? then None else Some([if s[0] == '+' then ' ' else s[0]] + rest.value)
    else if |s| < 3 || HexValue(s[1]).None? || HexValue(s[2]).None? then None
    else
      var rest := QueryUnescape(s[3..]);
      if rest.None? then None else Some([(16 * HexValue(s[1]).value + HexValue(s[2]).value) as char] + rest.value)
  }

  lemma HexDigits(d: nat)
    requires d < 16
    ensures HexValue(HexDigit(d)) == Some(d)
  {
  }

  lemma UnescapeByte(c: char, t: string)
    requires c as int < 256
    ensures QueryUnescape(EscapeByte(c) + t) ==
      if QueryUnescape(t).None? then None else Some([c] + QueryUnescape(t).value)
  {
    if IsUnreserved(c) || c == ' ' {
      assert (EscapeByte(c) + t)[1..] == t;
    } else {
      UnescapeHex(c, HexDigit(c as int / 16 % 16), HexDigit(c as int % 16), t);
    }
  }

  lemma UnescapeHex(c: char, high: char, low: char, t: string)
    requires c as int < 256 && high == HexDigit(c as int / 16 % 16) && low == HexDigit(c as int % 16)
    ensures QueryUnescape(['%', high, low] + t) ==
      if QueryUnescape(t).None? then None else Some([c] + QueryUnescape(t).value)
  {
    hide HexDigit, HexValue;
    HexDigits(c as int / 16 % 16);
    HexDigits(c as int % 16);
    var s := ['%', high, low] + t;
    assert s[0] == '%' && s[1] == high && s[2] == low && s[3..] == t;
    assert 16 * (c as int / 16 % 16) + c as int % 16 == c as int;
  }

  /** Unescaping undoes escaping. */
  lemma {:induction false} UnescapeEscaped(s: string)
    requires AllBytes(s)
    ensures QueryUnescape(QueryEscape(s)) == Some(s)
  {
    hide QueryUnescape, EscapeByte;
    if s != "" {
      UnescapeEscaped(s[1..]);
      UnescapeByte(s[0], QueryEscape(s[1..]));
      assert s == [s[0]] + s[1..];
    } else {
      NothingToUnescape();
    }
  }

  lemma NothingToUnescape()
    ensures QueryUnescape("") == Some("")
  {
  }

  predicate IsListed(c: char) {
    c in UPPER || c in LOWER || c in DIGITS || c in "-_.~"
  }

  /** Which bytes stay, which take one character and which take three; nothing else is ever written. */
  lemma EscapeCost(c: char)
    ensures IsListed(c) ==> EscapeByte(c) == [c]
    ensures |EscapeByte(c)| == if IsListed(c) || c == ' ' then 1 else 3
    ensures forall x :: x in EscapeByte(c) ==> IsListed(x) || x == '+' || x == '%'
  {
    hide IsListed;
    UnreservedIsListed(c);
    if !IsUnreserved(c) && c != ' ' {
      var high, low := HexDigit(c as int / 16 % 16), HexDigit(c as int % 16);
      UnreservedIsListed(high);
      UnreservedIsListed(low);
    }
  }

  lemma UnreservedIsListed(c: char)
    ensures IsUnreserved(c) <==> IsListed(c)
  {
    hide UPPER, LOWER, DIGITS;
    IsUpper(c);
    IsLower(c);
    IsDigit(c);
  }

  lemma IsUpper(c: char)
    ensures c in UPPER <==> 'A' <= c <= 'Z'
  {
    if 'A' <= c <= 'Z' {
      assert UPPER[c as int - 65] == c;
    }
  }

  lemma IsLower(c: char)
    ensures c in LOWER <==> 'a' <= c <= 'z'
  {
    if 'a' <= c <= 'z' {
      assert LOWER[c as int - 97] == c;
    }
  }

  lemma IsDigit(c: char)
    ensures c in DIGITS <==> '0' <= c <= '9'
  {
    if '0' <= c <= '9' {
      assert DIGITS[c as int - 48] == c;
    }
  }

  lemma {:induction false} EscapeConcat(a: string, b: string)
    ensures QueryEscape(a + b) == QueryEscape(a) + QueryEscape(b)
  {
    if a == "" {
      assert a + b == b;
    } else {
      assert (a + b)[1..] == a[1..] + b;
      EscapeConcat(a[1..], b);
    }
  }
}
