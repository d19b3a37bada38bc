/** The audit-log query text (apps/system_admin/services/openobserve_audit_client.py, lines
    118-142), and a reader for it with SQL's quote doubling (subclauses 5.2 and 5.3 of
    ISO/IEC 9075-2). */
module AuditSql {
  import opened Text

  /** A filter and its value as text; None is a missing value. */
  type Filter = (string, Option<string>)

  /** `value.replace(q, q + q)` */
  function Double(s: string, q: char): string {
    if s == "" then "" else (if s[0] == q then [q, q] else [s[0]]) + Double(s[1..], q)
  }

  function Quote(s: string, q: char): string {
    [q] + Double(s, q) + [q]
  }

  function QuoteIdentifier(s: string): string {
    Quote(s, '\"')
  }

  function SqlLiteral(s: string): string {
    Quote(s, '\'')
  }

  function Condition(column: string, value: string): string {
    QuoteIdentifier(column) + " = " + SqlLiteral(value)
  }

  /** The filters that have a value, in order. */
  function Given(filters: seq<Filter>): seq<(string, string)> {
    if filters == [] then []
    else
      var f := filters[0];
      (if f.1.Some? && f.1.value != "" then [(f.0, f.1.value)] else []) + Given(filters[1..])
  }

  /** One condition text for each filter with a value. */
  function BuildConditions(filters: seq<Filter>): seq<string> {
    if filters == [] then []
    else
      var f := filters[0];
      (if f.1.Some? && f.1.value != "" then [Condition(f.0, f.1.value)] else []) + BuildConditions(filters[1..])
  }

  /** `' AND '.join(conditions)` */
  function JoinAnd(conditions: seq<string>): string {
    if conditions == [] then ""
    else if |conditions| == 1 then conditions[0]
    else conditions[0] + " AND " + JoinAnd(conditions[1..])
  }

  function BuildSql(stream: string, filters: seq<Filter>, count: bool): string {
    var conditions := BuildConditions(filters);
    "SELECT " + (if count then "COUNT(*) AS total" else "*") + " FROM " + QuoteIdentifier(stream)
    + (if conditions != [] then " WHERE " + JoinAnd(conditions) else "")
    + (if count then "" else " ORDER BY _timestamp DESC")
  }

  // ----- the reader -----

  datatype Query = Query(stream: string, conditions: seq<(string, string)>, count: bool)

  function Expect(s: string, text: string): (r: Option<string>)
    ensures r.Some? ==> |r.value| == |s| - |text|
  {
    if text <= s then Some(s[|text|..]) else None
  }

  /** The text inside quotes `q`, from after the opening one, and what follows the closing one: a
      doubled quote stands for itself. */
  function ReadQuoted(s: string, q: char): (r: Option<(string, string)>)
    ensures r.Some? ==> |r.value.1| < |s|
  {
    if s == "" then None
    else if s[0] != q then
      (match ReadQuoted(s[1..], q) case None => None case Some(tr) => Some(([s[0]] + tr.0, tr.1)))
    else if |s| > 1 && s[1] == q then
      (match ReadQuoted(s[2..], q) case None => None case Some(tr) => Some(([q] + tr.0, tr.1)))
    else Some(("", s[1..]))
  }

  function ReadQuote(s: string, q: char): (r: Option<(string, string)>)
    ensures r.Some? ==> |r.value.1| < |s|
  {
    if s == "" || s[0] != q then None else ReadQuoted(s[1..], q)
  }

  function ReadCondition(s: string): (r: Option<((string, string), string)>)
    ensures r.Some? ==> |r.value.1| < |s|
  {
    match ReadQuote(s, '\"')
    case None => None
    case Some(column) =>
      match Expect(column.1, " = ")
      case None => None
      case Some(rest) =>
        match ReadQuote(rest, '\'')
        case None => None
        case Some(value) => Some(((column.0, value.0), value.1))
  }

  function ReadConditions(s: string): Option<(seq<(string, string)>, string)>
    decreases |s|
  {
    match ReadCondition(s)
    case None => None
    case Some(first) =>
      match Expect(first.1, " AND ")
      case None => Some(([first.0], first.1))
      case Some(rest) =>
        match ReadConditions(rest)
        case None => None
        case Some(more) => Some(([first.0] + more.0, more.1))
  }

  function ReadTail(s: string, stream: string, conditions: seq<(string, string)>, count: bool): Option<Query> {
    if s == (if count then "" else " ORDER BY _timestamp DESC") then Some(Query(stream, conditions, count)) else None
  }

  function ReadFrom(s: string, count: bool): Option<Query> {
    match ReadQuote(s, '\"')
    case None => None
    case Some(name) =>
      match Expect(name.1, " WHERE ")
      case None => ReadTail(name.1, name.0, [], count)
      case Some(rest) =>
        match ReadConditions(rest)
        case None => None
        case Some(cs) => ReadTail(cs.1, name.0, cs.0, count)
  }

  function ReadSql(s: string): Option<Query> {
    match Expect(s, "SELECT COUNT(*) AS total FROM ")
    case Some(rest) => ReadFrom(rest, true)
    case None =>
      match Expect(s, "SELECT * FROM ")
      case Some(rest) => ReadFrom(rest, false)
      case None => None
  }

  // ----- reading back -----

  lemma {:induction false} QuotedRoundTrip(v: string, q: char, rest: string)
    requires rest == "" || rest[0] != q
    ensures ReadQuoted(Double(v, q) + [q] + rest, q) == Some((v, rest))
  {
    var s := Double(v, q) + [q] + rest;
    if v == "" {
      assert s[1..] == rest;
    } else {
      QuotedRoundTrip(v[1..], q, rest);
      var tail := Double(v[1..], q) + [q] + rest;
      assert v == [v[0]] + v[1..];
      if v[0] == q {
        assert s == [q, q] + tail;
        assert s[2..] == tail;
      } else {
        assert s == [v[0]] + tail;
        assert s[1..] == tail;
      }
    }
  }

  lemma {:induction false} QuoteRoundTrip(v: string, q: char, rest: string)
    requires rest == "" || rest[0] != q
    ensures ReadQuote(Quote(v, q) + rest, q) == Some((v, rest))
  {
    QuotedRoundTrip(v, q, rest);
    assert (Quote(v, q) + rest)[1..] == Double(v, q) + [q] + rest;
  }

  lemma {:induction false} ConditionRoundTrip(column: string, value: string, rest: string)
    requires rest == "" || rest[0] == ' '
    ensures ReadCondition(Condition(column, value) + rest) == Some(((column, value), rest))
  {
    hide ReadQuote, Quote;
    var after := " = " + (SqlLiteral(value) + rest);
    assert Condition(column, value) + rest == QuoteIdentifier(column) + after;
    QuoteRoundTrip(column, '\"', after);
    assert after[3..] == SqlLiteral(value) + rest;
    QuoteRoundTrip(value, '\'', rest);
  }

  /** What may follow the conditions: nothing that reads as one more. */
  predicate Ends(rest: string) {
    (rest == "" || rest[0] == ' ') && !(" AND " <= rest)
  }

  lemma {:induction false} ConditionsRoundTrip(given: seq<(string, string)>, texts: seq<string>, rest: string)
    requires given != [] && |texts| == |given| && Ends(rest)
    requires forall i | 0 <= i < |given| :: texts[i] == Condition(given[i].0, given[i].1)
    ensures ReadConditions(JoinAnd(texts) + rest) == Some((given, rest))
  {
    hide ReadCondition, Condition;
    if |given| == 1 {
      ConditionRoundTrip(given[0].0, given[0].1, rest);
      assert given == [given[0]];
    } else {
      var tail := JoinAnd(texts[1..]) + rest;
      assert JoinAnd(texts) + rest == texts[0] + (" AND " + tail);
      ConditionRoundTrip(given[0].0, given[0].1, " AND " + tail);
      assert (" AND " + tail)[5..] == tail;
      ConditionsRoundTrip(given[1..], texts[1..], rest);
      assert given == [given[0]] + given[1..];
    }
  }

  lemma {:induction false} ConditionTexts(filters: seq<Filter>)
    ensures |BuildConditions(filters)| == |Given(filters)|
    ensures forall i | 0 <= i < |Given(filters)| ::
              BuildConditions(filters)[i] == Condition(Given(filters)[i].0, Given(filters)[i].1)
  {
    hide Condition;
    if filters != [] {
      ConditionTexts(filters[1..]);
    }
  }

  /** Everything from the stream name on. */
  function FromText(stream: string, filters: seq<Filter>, count: bool): string {
    var conditions := BuildConditions(filters);
    QuoteIdentifier(stream)
    + ((if conditions != [] then " WHERE " + JoinAnd(conditions) else "")
       + (if count then "" else " ORDER BY _timestamp DESC"))
  }

  lemma {:induction false} FromRoundTrip(stream: string, filters: seq<Filter>, count: bool)
    ensures ReadFrom(FromText(stream, filters, count), count) == Some(Query(stream, Given(filters), count))
  {
    hide ReadQuote, Quote, ReadConditions, JoinAnd, BuildConditions, Given;
    var conditions := BuildConditions(filters);
    var tail := if count then "" else " ORDER BY _timestamp DESC";
    ConditionTexts(filters);
    if conditions == [] {
      assert FromText(stream, filters, count) == QuoteIdentifier(stream) + tail;
      QuoteRoundTrip(stream, '\"', tail);
      assert !(" WHERE " <= tail) by {
        if !count { assert tail[1] == 'O' && " WHERE "[1] == 'W'; }
      }
      assert Given(filters) == [];
    } else {
      var rest := JoinAnd(conditions) + tail;
      assert FromText(stream, filters, count) == QuoteIdentifier(stream) + (" WHERE " + rest);
      QuoteRoundTrip(stream, '\"', " WHERE " + rest);
      assert (" WHERE " + rest)[7..] == rest;
      assert Ends(tail) by {
        if !count { assert tail[1] == 'O' && " AND "[1] == 'A'; }
      }
      ConditionsRoundTrip(Given(filters), conditions, tail);
    }
  }

  function Head(count: bool): string {
    if count then "SELECT COUNT(*) AS total FROM " else "SELECT * FROM "
  }

  lemma {:induction false} SqlText(stream: string, filters: seq<Filter>, count: bool)
    ensures BuildSql(stream, filters, count) == Head(count) + FromText(stream, filters, count)
  {
    hide Quote, JoinAnd, BuildConditions;
    assert "SELECT " + (if count then "COUNT(*) AS total" else "*") + " FROM " == Head(count);
  }

  lemma {:induction false} HeadRead(from: string, count: bool)
    ensures ReadSql(Head(count) + from) == ReadFrom(from, count)
  {
    hide ReadFrom;
    var sql := Head(count) + from;
    assert sql[|Head(count)|..] == from;
    if !count {
      assert sql[7] == '*' && Head(true)[7] == 'C';
    }
  }

  /** Read by SQL's own rules, the printed query has the given stream and exactly the non-empty
      filters, in order, whatever quotes, spaces or keywords the names and values contain. */
  lemma {:induction false} SqlRoundTrip(stream: string, filters: seq<Filter>, count: bool)
    ensures ReadSql(BuildSql(stream, filters, count)) == Some(Query(stream, Given(filters), count))
  {
    hide ReadFrom, BuildSql, ReadSql, FromText, Given, Head;
    SqlText(stream, filters, count);
    HeadRead(FromText(stream, filters, count), count);
    FromRoundTrip(stream, filters, count);
  }

  /** So two queries with the same text ask the same. */
  lemma {:induction false} SqlInjective(s1: string, f1: seq<Filter>, c1: bool, s2: string, f2: seq<Filter>, c2: bool)
    requires BuildSql(s1, f1, c1) == BuildSql(s2, f2, c2)
    ensures s1 == s2 && Given(f1) == Given(f2) && c1 == c2
  {
    SqlRoundTrip(s1, f1, c1);
    SqlRoundTrip(s2, f2, c2);
  }

  lemma {:induction false} TwoConditions(c1: string, v1: string, c2: string, v2: string, missing: string)
    requires v1 != "" && v2 != ""
    ensures BuildConditions([(c1, Some(v1)), (missing, None), (c2, Some(v2))]) == [Condition(c1, v1), Condition(c2, v2)]
  {
    hide Condition;
    var f1, f2, f3: Filter := (c1, Some(v1)), (missing, None), (c2, Some(v2));
    assert BuildConditions([f3]) == [Condition(c2, v2)] by { assert [f3][1..] == []; }
    assert BuildConditions([f2, f3]) == [Condition(c2, v2)] by { assert [f2, f3][1..] == [f3]; }
    assert [f1, f2, f3][1..] == [f2, f3];
  }

  /** The text of a query with two filters and one without a value. */
  lemma {:induction false} SqlOfTwo(stream: string, c1: string, v1: string, c2: string, v2: string, missing: string, count: bool)
    requires v1 != "" && v2 != ""
    ensures var first := "\"" + Double(c1, '\"') + "\"" + " = " + ("'" + Double(v1, '\'') + "'");
      var second := "\"" + Double(c2, '\"') + "\"" + " = " + ("'" + Double(v2, '\'') + "'");
      BuildSql(stream, [(c1, Some(v1)), (missing, None), (c2, Some(v2))], count)
      == "SELECT " + (if count then "COUNT(*) AS total" else "*") + " FROM " + ("\"" + Double(stream, '\"') + "\"")
         + (" WHERE " + (first + " AND " + second)) + (if count then "" else " ORDER BY _timestamp DESC")
  {
    hide Double, BuildConditions, Condition, JoinAnd;
    TwoConditions(c1, v1, c2, v2, missing);
    JoinTwo(Condition(c1, v1), Condition(c2, v2));
    ConditionText(c1, v1);
    ConditionText(c2, v2);
  }

  lemma {:induction false} ConditionText(c: string, v: string)
    ensures Condition(c, v) == "\"" + Double(c, '\"') + "\"" + " = " + ("'" + Double(v, '\'') + "'")
  {
    hide Double;
  }

  lemma {:induction false} JoinTwo(a: string, b: string)
    ensures JoinAnd([a, b]) == a + " AND " + b
  {
    assert [a, b][1..] == [b];
    assert JoinAnd([b]) == b;
  }
}
