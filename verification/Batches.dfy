/** Cutting the fleet into batches whose query fits the request line (`splitHosts`). */
module Batches {
  import opened Search
  import opened UrlEscapes

  datatype Host = Host(id: int, name: string)

  datatype SearchConfig = SearchConfig(
    searchHostFact: string, factInOperator: string, factNames: seq<string>,
    factBatchSize: int, maxUrlLength: int)

  /* ---- the encoded length ---- */

  /** The length that the search takes in the query string. */
  function SearchUrlLen(s: string): nat {
    |QueryEscape(s)|
  }

  lemma UrlLenConcat(a: string, b: string)
    ensures SearchUrlLen(a + b) == SearchUrlLen(a) + SearchUrlLen(b)
  {
    EscapeConcat(a, b);
  }

  lemma {:induction false} UrlLenBounds(s: string)
    ensures |s| <= SearchUrlLen(s) <= 3 * |s|
  {
    hide EscapeByte;
    if s != "" {
      UrlLenBounds(s[1..]);
    }
  }

  function IdsOf(hosts: seq<Host>): (ids: seq<int>)
    ensures |ids| == |hosts| && forall i :: 0 <= i < |hosts| ==> ids[i] == hosts[i].id
  {
    seq(|hosts|, i requires 0 <= i < |hosts| => hosts[i].id)
  }

  function Query(c: SearchConfig, ids: seq<int>): string {
    FactSearch(c.searchHostFact, c.factInOperator, ids, c.factNames)
  }

  predicate Fits(c: SearchConfig, hosts: seq<Host>) {
    SearchUrlLen(Query(c, IdsOf(hosts))) <= c.maxUrlLength
  }

  /** Everything before the list of ids, and before the connective in front of it. */
  function BeforeIds(c: SearchConfig): string {
    UserPrefix(c) + (NamePrefix(c) + IdOpen(c.factInOperator))
  }

  function UserPrefix(c: SearchConfig): string {
    if c.searchHostFact == "" then "" else "(" + (c.searchHostFact + ")") + AND
  }

  function NamePrefix(c: SearchConfig): string {
    var listed := NonEmpty(c.factNames);
    if listed == [] then "" else FACT_OPEN + (Join(Escaped(listed), ", ") + (")" + AND))
  }

  function IdText(c: SearchConfig, ids: seq<int>): string {
    Join(IdTerms(c.factInOperator, ids), IdSeparator(c.factInOperator))
  }

  lemma Reassociate(open: string, names: string, and: string, tail: string)
    ensures open + (names + (")" + (and + tail))) == open + (names + (")" + and)) + tail
  {
  }

  lemma BodyWithIds(c: SearchConfig, ids: seq<int>)
    requires ids != []
    ensures BodyText(c.factInOperator, ids, c.factNames)
         == NamePrefix(c) + (IdOpen(c.factInOperator) + (IdText(c, ids) + ")"))
    ensures BodyText(c.factInOperator, ids, c.factNames) != ""
  {
    hide Join, NonEmpty, Escaped, IdTerms, IdOpen, IdSeparator;
    var listed := NonEmpty(c.factNames);
    var idBody := IdOpen(c.factInOperator) + (IdText(c, ids) + ")");
    if listed != [] {
      Reassociate(FACT_OPEN, Join(Escaped(listed), ", "), AND, idBody);
    } else {
      assert "" + idBody == idBody;
    }
    assert |idBody| > 0;
  }

  lemma QueryWithIds(c: SearchConfig, ids: seq<int>)
    requires ids != []
    ensures Query(c, ids) == BeforeIds(c) + (IdText(c, ids) + ")")
  {
    hide BodyText, NamePrefix, IdOpen, IdText, FactSearch;
    QueryText(c.searchHostFact, c.factInOperator, ids, c.factNames);
    BodyWithIds(c, ids);
    var n, o, i := NamePrefix(c), IdOpen(c.factInOperator), IdText(c, ids) + ")";
    Regroup("(" + (c.searchHostFact + ")"), AND, n, o, i);
  }

  lemma Regroup(u: string, and: string, n: string, o: string, i: string)
    ensures u + (and + (n + (o + i))) == u + and + (n + o) + i
    ensures n + (o + i) == "" + (n + o) + i
  {
  }

  lemma BodyWithoutIds(c: SearchConfig)
    ensures
      var body, open := BodyText(c.factInOperator, [], c.factNames), IdOpen(c.factInOperator);
      NamePrefix(c) + open == if body == "" then open else body + (AND + open)
  {
    hide Join, NonEmpty, Escaped, IdTerms, IdOpen;
    var listed := NonEmpty(c.factNames);
    var open := IdOpen(c.factInOperator);
    if listed != [] {
      var text := Join(Escaped(listed), ", ");
      assert ")" + "" == ")";
      Reassociate(FACT_OPEN, text, AND, open);
      assert FACT_OPEN + (text + ")") + (AND + open) == FACT_OPEN + (text + (")" + (AND + open)));
    }
  }

  /** Without ids the query lacks at least the opening of the list. */
  lemma QueryWithoutIds(c: SearchConfig) returns (gap: string)
    ensures gap != "" && Query(c, []) + gap == BeforeIds(c)
  {
    hide BodyText, NamePrefix, FactSearch, IdOpen;
    QueryText(c.searchHostFact, c.factInOperator, [], c.factNames);
    BodyWithoutIds(c);
    OpenIsNotEmpty(c.factInOperator);
    var open := IdOpen(c.factInOperator);
    var body := BodyText(c.factInOperator, [], c.factNames);
    gap := if c.searchHostFact == "" && body == "" then open else AND + open;
    AppendGap("(" + (c.searchHostFact + ")"), AND, body, open);
  }

  lemma OpenIsNotEmpty(inOp: string)
    ensures IdOpen(inOp) != ""
  {
  }

  lemma AppendGap(u: string, and: string, body: string, open: string)
    ensures u + "" + (and + open) == u + and + open
    ensures u + (and + body) + (and + open) == u + and + (body + (and + open))
    ensures "" + (body + (and + open)) == body + (and + open)
    ensures "" + open == open
  {
  }

  lemma {:induction false} JoinSnoc(parts: seq<string>, x: string, sep: string)
    requires parts != []
    ensures Join(parts + [x], sep) == Join(parts, sep) + (sep + x)
  {
    if |parts| == 1 {
      assert (parts + [x])[1..] == [x];
    } else {
      assert (parts + [x])[1..] == parts[1..] + [x];
      JoinSnoc(parts[1..], x, sep);
      assert parts[0] + (sep + (Join(parts[1..], sep) + (sep + x)))
          == parts[0] + (sep + Join(parts[1..], sep)) + (sep + x);
    }
  }

  /** Each further id makes the encoded query strictly longer, for both operators. */
  lemma UrlLenGrows(c: SearchConfig, ids: seq<int>, id: int)
    ensures SearchUrlLen(Query(c, ids)) < SearchUrlLen(Query(c, ids + [id]))
  {
    hide SearchUrlLen, Query, BeforeIds, IdTerms, Join;
    var pre := BeforeIds(c);
    QueryWithIds(c, ids + [id]);
    UrlLenConcat(pre, IdText(c, ids + [id]) + ")");
    UrlLenConcat(IdText(c, ids + [id]), ")");
    if ids == [] {
      var gap := QueryWithoutIds(c);
      UrlLenConcat(Query(c, []), gap);
      UrlLenBounds(gap);
    } else {
      QueryWithIds(c, ids);
      UrlLenConcat(pre, IdText(c, ids) + ")");
      UrlLenConcat(IdText(c, ids), ")");
      var op := c.factInOperator;
      var x := IdPrefix(op) + FormatInt(id);
      IdTermsSnoc(op, ids, id);
      JoinSnoc(IdTerms(op, ids), x, IdSeparator(op));
      UrlLenConcat(IdText(c, ids), IdSeparator(op) + x);
      UrlLenBounds(IdSeparator(op) + x);
    }
  }

  lemma IdTermsSnoc(op: string, ids: seq<int>, id: int)
    ensures IdTerms(op, ids + [id]) == IdTerms(op, ids) + [IdPrefix(op) + FormatInt(id)]
  {
  }

  /** Two ids take 24 bytes of a URL. */
  lemma UrlLenExample()
    ensures FactSearch("", "^", [1, 2], []) == "host_id ^ (1, 2)"
    ensures QueryEscape("host_id ^ (1, 2)") == "host_id+%5E+%281%2C+2%29" && SearchUrlLen("host_id ^ (1, 2)") == 24
  {
    hide FactSearch, QueryEscape;
    TextOfOnePart("x", 1, 2);
    assert FormatInt(1) == "1" && FormatInt(2) == "2";
    var id, open, tail := "host_id", " ^ (", "1, 2)";
    EscapeConcat(id, open + tail);
    EscapeConcat(open, tail);
    EscapedWord();
    EscapedOpening();
    EscapedTail();
    assert "host_id ^ (1, 2)" == id + (open + tail);
  }

  lemma EscapedWord()
    ensures QueryEscape("host_id") == "host_id"
  {
    EscapeConcat("ho", "st_id");
    EscapeConcat("st", "_id");
    assert "host_id" == "ho" + "st_id" && "st_id" == "st" + "_id";
  }

  lemma EscapedOpening()
    ensures QueryEscape(" ^ (") == "+%5E+%28"
  {
    EscapeConcat(" ^", " (");
    assert " ^ (" == " ^" + " (";
  }

  lemma EscapedTail()
    ensures QueryEscape("1, 2)") == "1%2C+2%29"
  {
    EscapeConcat("1,", " 2)");
    assert "1, 2)" == "1," + " 2)";
  }

  /** A run of hosts that fits still fits when it is cut short. */
  lemma {:induction false} FitsShorter(c: SearchConfig, hosts: seq<Host>, m: nat, n: nat)
    requires m <= n <= |hosts| && Fits(c, hosts[..n])
    ensures Fits(c, hosts[..m])
    decreases n
  {
    hide SearchUrlLen, Query;
    if m < n {
      assert IdsOf(hosts[..n]) == IdsOf(hosts[..n - 1]) + [hosts[n - 1].id];
      UrlLenGrows(c, IdsOf(hosts[..n - 1]), hosts[n - 1].id);
      FitsShorter(c, hosts, m, n - 1);
    }
  }

  /* ---- the split ---- */

  function BatchSize(c: SearchConfig): (n: nat)
    ensures n >= 1
  {
    if c.factBatchSize < 1 then 1 else c.factBatchSize
  }

  function Min(a: nat, b: nat): nat {
    if a <= b then a else b
  }

  /** Halves the batch until its query fits or a single host is left. */
  function Shrink(c: SearchConfig, hosts: seq<Host>, n: nat): (r: nat)
    requires 1 <= n <= |hosts|
    ensures 1 <= r <= n
  {
    if n == 1 || Fits(c, hosts[..n]) then n else Shrink(c, hosts, n / 2)
  }

  function Split(c: SearchConfig, hosts: seq<Host>): seq<seq<Host>> {
    if hosts == [] then []
    else
      var n := Shrink(c, hosts, Min(BatchSize(c), |hosts|));
      [hosts[..n]] + Split(c, hosts[n..])
  }

  /** The inner loop: shrinks hosts[start..end] until its query fits. */
  method ShrinkBatch(c: SearchConfig, hosts: seq<Host>, start: nat, limit: nat) returns (end: nat)
    requires start < limit <= |hosts|
    ensures start < end <= limit
    ensures end - start == Shrink(c, hosts[start..], limit - start)
  {
    hide Fits, SearchUrlLen, Query, FactSearch;
    ghost var rest := hosts[start..];
    end := limit;
    while end > start + 1
      invariant start < end <= limit
      invariant Shrink(c, rest, limit - start) == Shrink(c, rest, end - start)
    {
      assert rest[..end - start] == hosts[start..end];
      var ids := CollectIds(hosts[start..end]);
      var search := BuildFactSearch(c.searchHostFact, c.factInOperator, ids, c.factNames);
      FitsDef(c, hosts[start..end], search);
      if SearchUrlLen(search) <= c.maxUrlLength {
        break;
      }
      end := start + (end - start) / 2;
    }
  }

  lemma SplitStep(c: SearchConfig, hosts: seq<Host>, start: nat, end: nat, batches: seq<seq<Host>>)
    requires start < end <= |hosts|
    requires end - start == Shrink(c, hosts[start..], Min(BatchSize(c), |hosts| - start))
    ensures batches + Split(c, hosts[start..]) == batches + [hosts[start..end]] + Split(c, hosts[end..])
  {
    hide Fits, Shrink;
    var rest := hosts[start..];
    assert rest[..end - start] == hosts[start..end] && rest[end - start..] == hosts[end..];
    assert Split(c, rest) == [hosts[start..end]] + Split(c, hosts[end..]);
  }

  lemma SplitNothing(c: SearchConfig, batches: seq<seq<Host>>)
    ensures batches + Split(c, []) == batches
  {
  }

  method SplitHosts(c: SearchConfig, hosts: seq<Host>) returns (batches: seq<seq<Host>>)
    ensures batches == Split(c, hosts)
  {
    hide Fits, Shrink, Split;
    var size := c.factBatchSize;
    if size < 1 {
      size := 1;
    }
    batches := [];
    var start := 0;
    assert hosts[0..] == hosts;
    while start < |hosts|
      invariant 0 <= start <= |hosts|
      invariant batches + Split(c, hosts[start..]) == Split(c, hosts)
    {
      var end := start + size;
      if end > |hosts| {
        end := |hosts|;
      }
      end := ShrinkBatch(c, hosts, start, end);
      SplitStep(c, hosts, start, end, batches);
      batches := batches + [hosts[start..end]];
      start := end;
    }
    assert hosts[start..] == [];
    SplitNothing(c, batches);
  }

  lemma FitsDef(c: SearchConfig, hosts: seq<Host>, search: string)
    requires search == FactSearch(c.searchHostFact, c.factInOperator, IdsOf(hosts), c.factNames)
    ensures Fits(c, hosts) <==> SearchUrlLen(search) <= c.maxUrlLength
  {
  }

  method CollectIds(hosts: seq<Host>) returns (ids: seq<int>)
    ensures ids == IdsOf(hosts)
  {
    ids := [];
    for i := 0 to |hosts|
      invariant |ids| == i && forall j :: 0 <= j < i ==> ids[j] == hosts[j].id
    {
      ids := ids + [hosts[i].id];
    }
  }

  /* ---- what the split guarantees ---- */

  function Concat<T>(batches: seq<seq<T>>): seq<T> {
    if batches == [] then [] else batches[0] + Concat(batches[1..])
  }

  /** n hosts are a good first batch of hosts: within both limits, unless it is a single host, and at
      least half as long as the longest run from there that is within both limits. */
  ghost predicate GoodBatch(c: SearchConfig, hosts: seq<Host>, n: nat) {
    && 1 <= n <= |hosts|
    && (n == 1 || WithinLimits(c, hosts[..n]))
    && (forall m :: 1 <= m <= |hosts| && WithinLimits(c, hosts[..m]) ==> m <= 2 * n)
  }

  /** No more hosts than a batch may have, and an escaped query no longer than the URL may be. */
  ghost predicate WithinLimits(c: SearchConfig, hosts: seq<Host>) {
    && (|hosts| <= c.factBatchSize || |hosts| == 1)
    && |QueryEscape(FactSearch(c.searchHostFact, c.factInOperator, IdsOf(hosts), c.factNames))| <= c.maxUrlLength
  }

  lemma FitsIsWithinLimits(c: SearchConfig, hosts: seq<Host>)
    requires hosts != []
    ensures WithinLimits(c, hosts) <==> |hosts| <= BatchSize(c) && Fits(c, hosts)
  {
    hide FactSearch, QueryEscape;
  }

  lemma ShrunkIsGood(c: SearchConfig, hosts: seq<Host>)
    requires hosts != []
    ensures GoodBatch(c, hosts, Shrink(c, hosts, Min(BatchSize(c), |hosts|)))
  {
    hide Fits, Shrink, WithinLimits, BatchSize;
    var r := Shrink(c, hosts, Min(BatchSize(c), |hosts|));
    ShrinkKeepsHalf(c, hosts, Min(BatchSize(c), |hosts|));
    FitsIsWithinLimits(c, hosts[..r]);
    forall m | 1 <= m <= |hosts| && WithinLimits(c, hosts[..m])
      ensures m <= 2 * r
    {
      FitsIsWithinLimits(c, hosts[..m]);
    }
  }

  lemma {:induction false} ShrinkKeepsHalf(c: SearchConfig, hosts: seq<Host>, n: nat)
    requires 1 <= n <= |hosts|
    ensures var r := Shrink(c, hosts, n);
      && (r >= 2 ==> Fits(c, hosts[..r]))
      && forall m :: 1 <= m <= n && Fits(c, hosts[..m]) ==> m <= 2 * r
    decreases n
  {
    hide Fits;
    if n > 1 && !Fits(c, hosts[..n]) {
      ShrinkKeepsHalf(c, hosts, n / 2);
      var r := Shrink(c, hosts, n);
      forall m | n / 2 < m <= n && Fits(c, hosts[..m])
        ensures m <= 2 * r
      {
        FitsShorter(c, hosts, n / 2, m);
      }
    }
  }

  /** Every batch is good for the hosts that start where it starts. */
  ghost predicate GoodSplit(c: SearchConfig, hosts: seq<Host>, batches: seq<seq<Host>>) {
    if batches == [] then hosts == []
    else
      && |batches[0]| <= |hosts| && batches[0] == hosts[..|batches[0]|]
      && GoodBatch(c, hosts, |batches[0]|)
      && GoodSplit(c, hosts[|batches[0]|..], batches[1..])
  }

  lemma {:induction false} SplitIsGood(c: SearchConfig, hosts: seq<Host>)
    ensures Concat(Split(c, hosts)) == hosts
    ensures GoodSplit(c, hosts, Split(c, hosts))
    decreases |hosts|
  {
    hide Fits, Shrink, GoodBatch;
    if hosts != [] {
      var r := Shrink(c, hosts, Min(BatchSize(c), |hosts|));
      ShrunkIsGood(c, hosts);
      SplitIsGood(c, hosts[r..]);
      assert Split(c, hosts)[1..] == Split(c, hosts[r..]);
      assert hosts == hosts[..r] + hosts[r..];
    }
  }
}
