/** The scoped_search query of `foreman/factvalues.go`: how it is rendered, that it can be read back,
    and how long it gets in a URL. Strings are Go strings, one `char` a byte. */
module Search {

  /* ---- rendering ---- */

  /** The characters that make the tokenizer treat an unquoted value as syntax. */
  const SYNTAX: string := " \"'()^!~<>=&|,-\\`"

  predicate IsPlain(v: string) {
    forall c :: c in v ==> c !in SYNTAX
  }

  /** Backslashes and double quotes, each behind a backslash. */
  function Backslashed(v: string): string {
    if v == "" then ""
    else if v[0] == '\\' || v[0] == '"' then ['\\', v[0]] + Backslashed(v[1..])
    else [v[0]] + Backslashed(v[1..])
  }

  function EscapeSearchValue(v: string): string {
    if IsPlain(v) then v else "\"" + (Backslashed(v) + "\"")
  }

  function NonEmpty(names: seq<string>): (r: seq<string>)
    ensures forall n :: n in r <==> n in names && n != ""
  {
    if names == [] then []
    else
      assert names == names[..|names| - 1] + [names[|names| - 1]];
      NonEmpty(names[..|names| - 1]) + (if names[|names| - 1] == "" then [] else [names[|names| - 1]])
  }

  function Escaped(names: seq<string>): (r: seq<string>)
    ensures |r| == |names|
  {
    seq(|names|, i requires 0 <= i < |names| => EscapeSearchValue(names[i]))
  }

  function Digit(d: nat): char
    requires d < 10
  {
    '0' + d as char
  }

  function Digits(n: nat): string {
    if n < 10 then [Digit(n)] else Digits(n / 10) + [Digit(n % 10)]
  }

  /** `strconv.FormatInt(n, 10)`. */
  function FormatInt(n: int): string {
    if n < 0 then "-" + Digits(-n) else Digits(n)
  }

  function Join(parts: seq<string>, sep: string): string {
    if parts == [] then ""
    else if |parts| == 1 then parts[0]
    else parts[0] + (sep + Join(parts[1..], sep))
  }

  function IdPrefix(inOp: string): string {
    if inOp == "or" then "host_id = " else ""
  }

  function IdSeparator(inOp: string): string {
    if inOp == "or" then " or " else ", "
  }

  function IdOpen(inOp: string): string {
    if inOp == "or" then "(" else "host_id ^ ("
  }

  const FACT_OPEN: string := "fact ^ ("

  function IdTerms(inOp: string, ids: seq<int>): (r: seq<string>)
    ensures |r| == |ids|
  {
    seq(|ids|, i requires 0 <= i < |ids| => IdPrefix(inOp) + FormatInt(ids[i]))
  }

  function UserPart(userSearch: string): seq<string> {
    if userSearch == "" then [] else ["(" + (userSearch + ")")]
  }

  function FactPart(names: seq<string>): seq<string> {
    if NonEmpty(names) == [] then [] else [FACT_OPEN + (Join(Escaped(NonEmpty(names)), ", ") + ")")]
  }

  function IdPart(inOp: string, ids: seq<int>): seq<string> {
    if ids == [] then [] else [IdOpen(inOp) + (Join(IdTerms(inOp, ids), IdSeparator(inOp)) + ")")]
  }

  const AND: string := " and "

  function FactSearch(userSearch: string, inOp: string, ids: seq<int>, names: seq<string>): string {
    Join(UserPart(userSearch) + FactPart(names) + IdPart(inOp, ids), AND)
  }

  /** The loop over the fact names: empty ones are dropped, the others quoted where needed. */
  method QuoteNames(factNames: seq<string>) returns (quoted: seq<string>)
    ensures quoted == Escaped(NonEmpty(factNames))
  {
    hide EscapeSearchValue;
    quoted := [];
    for i := 0 to |factNames|
      invariant quoted == Escaped(NonEmpty(factNames[..i]))
    {
      assert factNames[..i + 1][..i] == factNames[..i];
      if factNames[i] == "" {
        continue;
      }
      quoted := quoted + [EscapeSearchValue(factNames[i])];
    }
    assert factNames[..|factNames|] == factNames;
  }

  /** The loops over the ids. */
  method RenderIds(inOp: string, ids: seq<int>) returns (s: seq<string>)
    ensures s == IdTerms(inOp, ids)
  {
    hide FormatInt;
    s := [];
    for i := 0 to |ids|
      invariant |s| == i
      invariant forall j :: 0 <= j < i ==> s[j] == FormatInt(ids[j])
    {
      s := s + [FormatInt(ids[i])];
    }
    if inOp == "or" {
      for i := 0 to |s|
        invariant |s| == |ids|
        invariant forall j :: 0 <= j < i ==> s[j] == "host_id = " + FormatInt(ids[j])
        invariant forall j :: i <= j < |s| ==> s[j] == FormatInt(ids[j])
      {
        s := s[i := "host_id = " + s[i]];
      }
    } else {
      assert forall j :: 0 <= j < |s| ==> "" + s[j] == s[j];
    }
  }

  /** The query as the code assembles it, slice by slice. */
  method BuildFactSearch(userSearch: string, inOp: string, ids: seq<int>, factNames: seq<string>)
    returns (search: string)
    ensures search == FactSearch(userSearch, inOp, ids, factNames)
  {
    hide Join, Escaped, NonEmpty, IdTerms;
    var parts: seq<string> := [];
    if userSearch != "" {
      parts := parts + ["(" + (userSearch + ")")];
    }
    if |factNames| > 0 {
      var quoted := QuoteNames(factNames);
      if |quoted| > 0 {
        parts := parts + ["fact ^ (" + (Join(quoted, ", ") + ")")];
      }
    } else {
      NothingToQuote();
    }
    assert parts == UserPart(userSearch) + FactPart(factNames);
    if |ids| > 0 {
      var s := RenderIds(inOp, ids);
      if inOp == "or" {
        parts := parts + ["(" + (Join(s, " or ") + ")")];
      } else {
        parts := parts + ["host_id ^ (" + (Join(s, ", ") + ")")];
      }
    }
    assert parts == UserPart(userSearch) + FactPart(factNames) + IdPart(inOp, ids);
    search := Join(parts, " and ");
  }

  lemma NothingToQuote()
    ensures NonEmpty([]) == []
  {
  }

  /* ---- the text ---- */

  /** The characters that scoped_search takes for syntax. */
  predicate IsSyntax(c: char) {
    || c == ' ' || c == '"' || c == '\'' || c == '(' || c == ')' || c == '^' || c == '!' || c == '~' || c == '<'
    || c == '>' || c == '=' || c == '&' || c == '|' || c == ',' || c == '-' || c == '\\' || c == '`'
  }

  lemma SyntaxIsListed(c: char)
    ensures c in SYNTAX <==> IsSyntax(c)
  {
    assert SYNTAX[0] == ' ' && SYNTAX[1] == '"' && SYNTAX[2] == '\'' && SYNTAX[3] == '(' && SYNTAX[4] == ')';
    assert SYNTAX[5] == '^' && SYNTAX[6] == '!' && SYNTAX[7] == '~' && SYNTAX[8] == '<' && SYNTAX[9] == '>';
    assert SYNTAX[10] == '=' && SYNTAX[11] == '&' && SYNTAX[12] == '|' && SYNTAX[13] == ',' && SYNTAX[14] == '-';
    assert SYNTAX[15] == '\\' && SYNTAX[16] == '`';
  }

  /** A name is sent as it is exactly when none of its characters is syntax, otherwise in quotes. */
  lemma QuotedIffSyntax(v: string)
    ensures EscapeSearchValue(v) == v <==> forall i :: 0 <= i < |v| ==> !IsSyntax(v[i])
    ensures EscapeSearchValue(v) != v ==>
      EscapeSearchValue(v) != "" && EscapeSearchValue(v)[0] == '"' && EscapeSearchValue(v)[|EscapeSearchValue(v)| - 1] == '"'
  {
    hide IsSyntax;
    forall c: char
      ensures c in SYNTAX <==> IsSyntax(c)
    {
      SyntaxIsListed(c);
    }
    if !IsPlain(v) {
      BackslashedLength(v);
    }
  }

  lemma {:induction false} BackslashedLength(v: string)
    ensures |Backslashed(v)| >= |v|
  {
    if v != "" {
      BackslashedLength(v[1..]);
    }
  }

  /** The text of a query with a user search, two names beside an empty one, and two ids. */
  lemma TextOfSearch(user: string, a: string, b: string, i: int, j: int)
    requires user != "" && a != "" && b != ""
    ensures
      var fact := "fact ^ (" + ((EscapeSearchValue(a) + (", " + EscapeSearchValue(b))) + ")");
      && FactSearch(user, "^", [i, j], [a, "", b])
         == "(" + (user + ")") + (" and " + (fact + (" and "
            + ("host_id ^ (" + ((FormatInt(i) + (", " + FormatInt(j))) + ")")))))
      && FactSearch(user, "or", [i, j], [a, "", b])
         == "(" + (user + ")") + (" and " + (fact + (" and "
            + ("(" + (("host_id = " + FormatInt(i) + (" or " + ("host_id = " + FormatInt(j)))) + ")")))))
  {
    hide EscapeSearchValue, FormatInt, Join, NonEmpty, Escaped, IdTerms;
    TwoNames(a, b);
    TwoTerms("^", i, j);
    TwoTerms("or", i, j);
    var u, names, ids := UserPart(user), FactPart([a, "", b]), IdPart("^", [i, j]);
    JoinThree(u[0], names[0], ids[0], AND);
    JoinThree(u[0], names[0], IdPart("or", [i, j])[0], AND);
    assert u + names + ids == [u[0], names[0], ids[0]];
    assert u + names + IdPart("or", [i, j]) == [u[0], names[0], IdPart("or", [i, j])[0]];
  }

  lemma TwoNames(a: string, b: string)
    requires a != "" && b != ""
    ensures NonEmpty([a, "", b]) == [a, b]
    ensures Join(Escaped([a, b]), ", ") == EscapeSearchValue(a) + (", " + EscapeSearchValue(b))
  {
    hide EscapeSearchValue, NonEmpty, Join;
    DropLast([a, "", b], [a, ""], b);
    DropLast([a, ""], [a], "");
    DropLast([a], [], a);
    NothingToQuote();
    JoinTwo(EscapeSearchValue(a), EscapeSearchValue(b), ", ");
    assert Escaped([a, b]) == [EscapeSearchValue(a), EscapeSearchValue(b)];
  }

  lemma DropLast(names: seq<string>, init: seq<string>, last: string)
    requires names == init + [last]
    ensures NonEmpty(names) == NonEmpty(init) + (if last == "" then [] else [last])
  {
    assert names[..|names| - 1] == init;
  }

  lemma TwoTerms(op: string, i: int, j: int)
    ensures Join(IdTerms(op, [i, j]), IdSeparator(op))
         == IdPrefix(op) + FormatInt(i) + (IdSeparator(op) + (IdPrefix(op) + FormatInt(j)))
    ensures op != "or" ==> IdPrefix(op) + FormatInt(i) == FormatInt(i) && IdPrefix(op) + FormatInt(j) == FormatInt(j)
  {
    hide FormatInt, Join;
    JoinTwo(IdPrefix(op) + FormatInt(i), IdPrefix(op) + FormatInt(j), IdSeparator(op));
    assert IdTerms(op, [i, j]) == [IdPrefix(op) + FormatInt(i), IdPrefix(op) + FormatInt(j)];
  }

  lemma JoinTwo(a: string, b: string, sep: string)
    ensures Join([a, b], sep) == a + (sep + b)
  {
    assert [a, b][1..] == [b];
  }

  lemma JoinThree(a: string, b: string, c: string, sep: string)
    ensures Join([a, b, c], sep) == a + (sep + (b + (sep + c)))
  {
    assert [a, b, c][1..] == [b, c];
    JoinTwo(b, c, sep);
  }

  /** The text of queries with a single part, and of none. */
  lemma TextOfOnePart(user: string, i: int, j: int)
    requires user != ""
    ensures FactSearch("", "^", [i, j], []) == "host_id ^ (" + ((FormatInt(i) + (", " + FormatInt(j))) + ")")
    ensures FactSearch("", "or", [i, j], [""])
         == "(" + (("host_id = " + FormatInt(i) + (" or " + ("host_id = " + FormatInt(j)))) + ")")
    ensures FactSearch(user, "^", [], [""]) == "(" + (user + ")")
    ensures FactSearch("", "or", [], []) == ""
  {
    hide Join, IdTerms, FormatInt, NonEmpty;
    TwoTerms("^", i, j);
    TwoTerms("or", i, j);
    NothingToQuote();
    DropLast([""], [], "");
    var x, y := IdPart("^", [i, j])[0], IdPart("or", [i, j])[0];
    assert UserPart("") + FactPart([]) + IdPart("^", [i, j]) == [x];
    assert UserPart("") + FactPart([""]) + IdPart("or", [i, j]) == [y];
    assert UserPart(user) + FactPart([""]) + IdPart("^", []) == UserPart(user);
    assert UserPart("") + FactPart([]) + IdPart("or", []) == [];
    JoinOne(x, AND);
    JoinOne(y, AND);
    JoinOne(UserPart(user)[0], AND);
    NothingJoined(AND);
  }

  /** Decimal text. */
  lemma TextOfInts()
    ensures FormatInt(0) == "0" && FormatInt(-7) == "-7" && FormatInt(9) == "9" && FormatInt(10) == "10"
    ensures FormatInt(1234) == "1234"
  {
    assert Digits(12) == "12" && Digits(123) == "123";
  }

  lemma JoinOne(a: string, sep: string)
    ensures Join([a], sep) == a
  {
  }

  lemma NothingJoined(sep: string)
    ensures Join([], sep) == ""
  {
  }

  /* ---- reading back ---- */

  /** A quoted value after its opening quote, and what follows its closing quote. */
  function ReadQuoted(s: string): (r: (string, string))
    ensures |r.1| <= |s|
    decreases |s|
  {
    if s == "" then ("", "")
    else if s[0] == '"' then ("", s[1..])
    else if s[0] == '\\' && |s| > 1 then
      var r := ReadQuoted(s[2..]);
      ([s[1]] + r.0, r.1)
    else
      var r := ReadQuoted(s[1..]);
      ([s[0]] + r.0, r.1)
  }

  /** An unquoted value ends before a comma or a closing parenthesis. */
  function ReadPlain(s: string): (r: (string, string))
    ensures |r.1| <= |s|
  {
    if s == "" || s[0] == ',' || s[0] == ')' then ("", s)
    else
      var r := ReadPlain(s[1..]);
      ([s[0]] + r.0, r.1)
  }

  function ReadValue(s: string): (r: (string, string))
    ensures |r.1| <= |s|
  {
    if s != "" && s[0] == '"' then ReadQuoted(s[1..]) else ReadPlain(s)
  }

  /** Values separated by ", " up to a closing parenthesis. */
  function ReadValues(s: string): (seq<string>, string)
    decreases |s|
  {
    var r := ReadValue(s);
    if ", " <= r.1 then
      var rs := ReadValues(r.1[2..]);
      ([r.0] + rs.0, rs.1)
    else ([r.0], Without(")", r.1))
  }

  function Without(prefix: string, s: string): string {
    if prefix <= s then s[|prefix|..] else s
  }

  function ReadDigits(s: string, acc: nat): (r: (int, string))
    ensures |r.1| <= |s|
    decreases |s|
  {
    if s != "" && '0' <= s[0] <= '9' then ReadDigits(s[1..], 10 * acc + (s[0] - '0') as nat) else (acc, s)
  }

  function ReadInt(s: string): (r: (int, string))
    ensures |r.1| <= |s|
  {
    if s != "" && s[0] == '-' then
      var r := ReadDigits(s[1..], 0);
      (-r.0, r.1)
    else ReadDigits(s, 0)
  }

  function ReadIds(inOp: string, s: string): (seq<int>, string)
    decreases |s|
  {
    var r := ReadInt(Without(IdPrefix(inOp), s));
    if IdSeparator(inOp) <= r.1 then
      var rs := ReadIds(inOp, r.1[|IdSeparator(inOp)|..]);
      ([r.0] + rs.0, rs.1)
    else ([r.0], Without(")", r.1))
  }

  /** Recovers the fact names and the host ids from a query built for a known user search. */
  function ReadSearch(userSearch: string, inOp: string, s: string): (seq<string>, seq<int>) {
    var body := if userSearch == "" then s else Without(AND, Without("(" + (userSearch + ")"), s));
    var names := if FACT_OPEN <= body then ReadValues(body[|FACT_OPEN|..]) else ([], body);
    var rest := if FACT_OPEN <= body then Without(AND, names.1) else body;
    (names.0, if IdOpen(inOp) <= rest then ReadIds(inOp, rest[|IdOpen(inOp)|..]).0 else [])
  }

  lemma WithoutPrefix(p: string, s: string)
    ensures Without(p, p + s) == s
  {
  }

  /* ---- values ---- */

  lemma {:induction false} ReadBackslashed(v: string, rest: string)
    ensures ReadQuoted(Backslashed(v) + ("\"" + rest)) == (v, rest)
  {
    var s := Backslashed(v) + ("\"" + rest);
    if v != "" {
      ReadBackslashed(v[1..], rest);
      var tail := Backslashed(v[1..]) + ("\"" + rest);
      if v[0] == '\\' || v[0] == '"' {
        assert s[2..] == tail;
      } else {
        assert s[1..] == tail;
      }
      assert [v[0]] + v[1..] == v;
    } else {
      assert s[1..] == rest;
    }
  }

  /** What ends a value in a rendered list. */
  predicate EndsValue(rest: string) {
    rest != "" && (rest[0] == ',' || rest[0] == ')')
  }

  lemma {:induction false} ReadPlainValue(v: string, rest: string)
    requires IsPlain(v) && EndsValue(rest)
    ensures ReadPlain(v + rest) == (v, rest)
  {
    if v == "" {
      assert v + rest == rest;
    } else {
      assert v[0] != ',' && v[0] != ')' by { SyntaxHasDelimiters(v[0]); }
      assert (v + rest)[1..] == v[1..] + rest;
      ReadPlainValue(v[1..], rest);
      assert [v[0]] + v[1..] == v;
    }
  }

  lemma SyntaxHasDelimiters(c: char)
    requires c !in SYNTAX
    ensures c != ',' && c != ')' && c != '"'
  {
    assert SYNTAX[1] == '"' && SYNTAX[4] == ')' && SYNTAX[13] == ',';
  }

  lemma PlainIsUnquoted(v: string)
    requires v != "" && IsPlain(v)
    ensures v[0] != '"'
  {
    SyntaxHasDelimiters(v[0]);
  }

  lemma ReadEscaped(v: string, rest: string)
    requires v != "" && EndsValue(rest)
    ensures ReadValue(EscapeSearchValue(v) + rest) == (v, rest)
  {
    hide Backslashed, ReadQuoted, ReadPlain, IsPlain;
    if IsPlain(v) {
      PlainIsUnquoted(v);
      ReadPlainValue(v, rest);
    } else {
      var t := Backslashed(v) + ("\"" + rest);
      var s := EscapeSearchValue(v) + rest;
      assert s == ['"'] + t;
      assert s[1..] == t;
      ReadBackslashed(v, rest);
    }
  }

  lemma {:induction false} ReadEscapedList(names: seq<string>, rest: string)
    requires names != [] && forall i :: 0 <= i < |names| ==> names[i] != ""
    ensures ReadValues(Join(Escaped(names), ", ") + (")" + rest)) == (names, rest)
    decreases |names|
  {
    hide EscapeSearchValue, ReadValue;
    var v := EscapeSearchValue(names[0]);
    var s := Join(Escaped(names), ", ") + (")" + rest);
    if |names| == 1 {
      ReadEscaped(names[0], ")" + rest);
      assert Escaped(names) == [v];
      WithoutPrefix(")", rest);
      assert names == [names[0]];
    } else {
      assert Escaped(names)[1..] == Escaped(names[1..]);
      var tail := Join(Escaped(names[1..]), ", ") + (")" + rest);
      assert s == v + (", " + tail);
      ReadEscaped(names[0], ", " + tail);
      assert (", " + tail)[2..] == tail;
      ReadEscapedList(names[1..], rest);
      assert names == [names[0]] + names[1..];
    }
  }

  /* ---- numbers ---- */

  lemma {:induction false} ReadDigitsOf(n: nat, t: string)
    ensures ReadDigits(Digits(n) + t, 0) == ReadDigits(t, n)
  {
    var d := Digit(n % 10);
    if n < 10 {
      assert (Digits(n) + t)[1..] == t;
    } else {
      assert Digits(n) + t == Digits(n / 10) + ([d] + t);
      ReadDigitsOf(n / 10, [d] + t);
      assert ([d] + t)[1..] == t;
    }
  }

  lemma {:induction false} DigitsStart(n: nat)
    ensures |Digits(n)| >= 1 && '0' <= Digits(n)[0] <= '9'
  {
    if n >= 10 {
      DigitsStart(n / 10);
    }
  }

  lemma ReadFormatted(n: int, rest: string)
    requires rest == "" || !('0' <= rest[0] <= '9')
    ensures ReadInt(FormatInt(n) + rest) == (n, rest)
  {
    hide Digits, ReadDigits;
    if n < 0 {
      assert (FormatInt(n) + rest)[1..] == Digits(-n) + rest;
      ReadDigitsOf(-n, rest);
      DigitsEnd(rest, -n);
    } else {
      DigitsStart(n);
      ReadDigitsOf(n, rest);
      DigitsEnd(rest, n);
    }
  }

  lemma DigitsEnd(rest: string, n: nat)
    requires rest == "" || !('0' <= rest[0] <= '9')
    ensures ReadDigits(rest, n) == (n, rest)
  {
  }

  lemma {:induction false} ReadIdList(inOp: string, ids: seq<int>)
    requires ids != []
    ensures ReadIds(inOp, Join(IdTerms(inOp, ids), IdSeparator(inOp)) + ")") == (ids, "")
    decreases |ids|
  {
    hide FormatInt, ReadInt;
    var p, sep := IdPrefix(inOp), IdSeparator(inOp);
    var f := FormatInt(ids[0]);
    var s := Join(IdTerms(inOp, ids), sep) + ")";
    if |ids| == 1 {
      assert IdTerms(inOp, ids) == [p + f];
      assert s == p + (f + ")");
      WithoutPrefix(p, f + ")");
      ReadFormatted(ids[0], ")");
      assert ids == [ids[0]];
    } else {
      assert IdTerms(inOp, ids)[1..] == IdTerms(inOp, ids[1..]);
      var tail := Join(IdTerms(inOp, ids[1..]), sep) + ")";
      assert s == p + (f + (sep + tail));
      WithoutPrefix(p, f + (sep + tail));
      ReadFormatted(ids[0], sep + tail);
      assert (sep + tail)[|sep|..] == tail;
      ReadIdList(inOp, ids[1..]);
      assert ids == [ids[0]] + ids[1..];
    }
  }

  /* ---- the whole query ---- */

  lemma {:induction false} NonEmptyHasNoEmpty(names: seq<string>)
    ensures forall i :: 0 <= i < |NonEmpty(names)| ==> NonEmpty(names)[i] != ""
  {
    if names != [] {
      NonEmptyHasNoEmpty(names[..|names| - 1]);
    }
  }

  /** Quoting and joining can be undone: the names and ids can be read back from the query, whatever
      characters the names contain and whatever the user search is. */
  lemma SearchCanBeRead(userSearch: string, inOp: string, ids: seq<int>, names: seq<string>)
    ensures ReadSearch(userSearch, inOp, FactSearch(userSearch, inOp, ids, names)) == (NonEmpty(names), ids)
  {
    hide Join, Escaped, NonEmpty, IdTerms, ReadValues, ReadIds;
    var listed := NonEmpty(names);
    var idText := Join(IdTerms(inOp, ids), IdSeparator(inOp)) + ")";
    var idBody := if ids == [] then "" else IdOpen(inOp) + idText;
    var nameText := Join(Escaped(listed), ", ");
    var tail := if ids == [] then "" else AND + idBody;
    var body := if listed == [] then idBody else FACT_OPEN + (nameText + (")" + tail));
    QueryText(userSearch, inOp, ids, names);
    if userSearch != "" {
      WithoutPrefix("(" + (userSearch + ")"), if body == "" then "" else AND + body);
      WithoutPrefix(AND, body);
    }
    NonEmptyHasNoEmpty(names);
    if listed != [] {
      ReadEscapedList(listed, tail);
      assert body[|FACT_OPEN|..] == nameText + (")" + tail);
      WithoutPrefix(AND, idBody);
    } else if ids != [] {
      assert IdOpen(inOp)[0] != 'f';
    }
    if ids != [] {
      ReadIdList(inOp, ids);
      assert idBody[|IdOpen(inOp)|..] == idText;
    }
  }

  lemma JoinCons(x: string, rest: seq<string>, sep: string)
    ensures Join([x] + rest, sep) == x + (if rest == [] then "" else sep + Join(rest, sep))
  {
    assert ([x] + rest)[1..] == rest;
  }

  /** The query behind the user search, without the list of parts. */
  function BodyText(inOp: string, ids: seq<int>, names: seq<string>): string {
    var listed := NonEmpty(names);
    var idBody := if ids == [] then "" else IdOpen(inOp) + (Join(IdTerms(inOp, ids), IdSeparator(inOp)) + ")");
    var tail := if ids == [] then "" else AND + idBody;
    if listed == [] then idBody else FACT_OPEN + (Join(Escaped(listed), ", ") + (")" + tail))
  }

  lemma BodyTextIsJoined(inOp: string, ids: seq<int>, names: seq<string>)
    ensures Join(FactPart(names) + IdPart(inOp, ids), AND) == BodyText(inOp, ids, names)
    ensures FactPart(names) + IdPart(inOp, ids) == [] <==> BodyText(inOp, ids, names) == ""
  {
    hide Join, Escaped, NonEmpty, IdTerms;
    var listed := NonEmpty(names);
    var text := Join(Escaped(listed), ", ");
    var c := IdPart(inOp, ids);
    var idBody := if ids == [] then "" else IdOpen(inOp) + (Join(IdTerms(inOp, ids), IdSeparator(inOp)) + ")");
    if ids == [] {
      JoinNothing(AND);
    } else {
      JoinCons(idBody, [], AND);
      assert c == [idBody] + [] && idBody + "" == idBody;
    }
    if listed == [] {
      assert FactPart(names) + c == c;
    } else {
      JoinCons(FACT_OPEN + (text + ")"), c, AND);
      assert FACT_OPEN + (text + ")") + (if c == [] then "" else AND + idBody)
          == FACT_OPEN + (text + (")" + (if c == [] then "" else AND + idBody)));
    }
  }

  lemma JoinNothing(sep: string)
    ensures Join([], sep) == ""
  {
  }

  lemma QueryText(userSearch: string, inOp: string, ids: seq<int>, names: seq<string>)
    ensures
      var body := BodyText(inOp, ids, names);
      FactSearch(userSearch, inOp, ids, names) ==
        if userSearch == "" then body
        else "(" + (userSearch + ")") + (if body == "" then "" else AND + body)
  {
    hide Join, BodyText, FactPart, IdPart;
    var b, c := FactPart(names), IdPart(inOp, ids);
    BodyTextIsJoined(inOp, ids, names);
    assert UserPart(userSearch) + b + c == UserPart(userSearch) + (b + c);
    if userSearch == "" {
      assert UserPart(userSearch) + (b + c) == b + c;
    } else {
      JoinCons("(" + (userSearch + ")"), b + c, AND);
    }
  }

  /** The generated search is unambiguous: it determines the ids and the non-empty names. */
  lemma SearchIsUnambiguous(userSearch: string, inOp: string,
                            ids: seq<int>, names: seq<string>, ids': seq<int>, names': seq<string>)
    ensures FactSearch(userSearch, inOp, ids, names) == FactSearch(userSearch, inOp, ids', names')
        <==> ids == ids' && NonEmpty(names) == NonEmpty(names')
  {
    hide ReadSearch, Join, NonEmpty, Escaped, IdTerms;
    SearchCanBeRead(userSearch, inOp, ids, names);
    SearchCanBeRead(userSearch, inOp, ids', names');
  }
}
