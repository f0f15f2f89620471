/**
  The WHERE builder: dictionaries of lookups become SQL text with named parameters,
  plus the bindings of those names.
 */
module SqlWhere {
  import opened Common
  import opened Decimals

  datatype Value = Null | Number(n: int) | Text(s: string)

  /** An item of a lookup dictionary, such as `created_at__lt: x`. */
  datatype Param = Param(key: string, value: Value)

  datatype Repo = Repo(table: string, columns: set<string>)

  datatype WhereError = UnknownAttribute(key: string) | UnsupportedSuffix(suffix: string)

  /** A resolved lookup: the column, the SQL operator, and the item it comes from. */
  datatype Lookup = Lookup(table: string, attr: string, operator: string, key: string, value: Value)

  /** One condition of the text: column, operator and parameter name. */
  datatype Condition = Condition(column: string, operator: string, param: string)

  type Bindings = map<string, Value>
  type Row = map<string, Value>

  // ------------------------------------------------------------------------
  // Keys
  // ------------------------------------------------------------------------

  predicate SeparatorAt(s: string, i: nat) {
    i + 2 <= |s| && s[i] == '_' && s[i + 1] == '_'
  }

  /** Start of the last "__" among the first `n` characters, or -1. */
  function RFind(s: string, n: nat): (i: int)
    requires n <= |s|
    ensures i == -1 || (0 <= i && i + 2 <= n && SeparatorAt(s, i))
    ensures forall j: nat :: i < j && j + 2 <= n ==> !SeparatorAt(s, j)
  {
    if n < 2 then -1
    else if SeparatorAt(s, n - 2) then n - 2
    else RFind(s, n - 1)
  }

  /** LOOKUP_EXPRESSION_OPERATOR_MAP; `between`, `in` and `not_in` are not in it. */
  function OperatorOf(suffix: string): Option<string> {
    if suffix == "lt" then Some("<")
    else if suffix == "le" then Some("<=")
    else if suffix == "gt" then Some(">")
    else if suffix == "ge" then Some(">=")
    else if suffix == "eq" then Some("=")
    else if suffix == "neq" then Some("!=")
    else if suffix == "is" then Some("IS")
    else if suffix == "is_not" then Some("IS NOT")
    else if suffix == "ilike" then Some("ILIKE")
    else if suffix == "like" then Some("LIKE")
    else None
  }

  function Resolve(repo: Repo, p: Param): (r: Result<Lookup, WhereError>)
    ensures r.Ok? ==> r.value.table == repo.table && r.value.attr in repo.columns && r.value.key == p.key && r.value.value == p.value
  {
    var i := RFind(p.key, |p.key|);
    var attr := if i < 0 then p.key else p.key[..i];
    var suffix := if i < 0 then "eq" else p.key[i + 2..];
    if attr !in repo.columns then Err(UnknownAttribute(p.key))
    else if OperatorOf(suffix).None? then Err(UnsupportedSuffix(suffix))
    else Ok(Lookup(repo.table, attr, OperatorOf(suffix).value, p.key, p.value))
  }

  /** `first`, then what follows it, unless that is an error. */
  function Prepend(first: seq<Lookup>, rest: Result<seq<Lookup>, WhereError>): Result<seq<Lookup>, WhereError> {
    match rest
    case Err(e) => Err(e)
    case Ok(ls) => Ok(first + ls)
  }

  /** All lookups in dictionary order, or the error of the first bad key. */
  function ResolveAll(repo: Repo, params: seq<Param>): Result<seq<Lookup>, WhereError> {
    if params == [] then Ok([])
    else
      match Resolve(repo, params[0])
      case Err(e) => Err(e)
      case Ok(l) => Prepend([l], ResolveAll(repo, params[1..]))
  }

  /** The builder returns exactly when every key resolves, and then with the lookups in order. */
  lemma {:induction false} ResolvesIffAllDo(repo: Repo, params: seq<Param>)
    ensures ResolveAll(repo, params).Ok? <==> forall i :: 0 <= i < |params| ==> Resolve(repo, params[i]).Ok?
    ensures ResolveAll(repo, params).Ok? ==>
              |ResolveAll(repo, params).value| == |params| &&
              forall i :: 0 <= i < |params| ==> Resolve(repo, params[i]) == Ok(ResolveAll(repo, params).value[i])
  {
    if params == [] {
    } else {
      var rest := params[1..];
      ResolvesIffAllDo(repo, rest);
      if i :| 0 <= i < |rest| && Resolve(repo, rest[i]).Err? { assert Resolve(repo, params[i + 1]).Err?; }
      forall i | 0 < i < |params| ensures params[i] == rest[i - 1] {}
    }
  }

  /** Otherwise it raises the error of the first bad key. */
  lemma {:induction false} FirstBadKeyRaises(repo: Repo, params: seq<Param>) returns (i: nat)
    requires ResolveAll(repo, params).Err?
    ensures i < |params| && Resolve(repo, params[i]) == Err(ResolveAll(repo, params).error)
    ensures forall j :: 0 <= j < i ==> Resolve(repo, params[j]).Ok?
  {
    if Resolve(repo, params[0]).Err? {
      i := 0;
    } else {
      var k := FirstBadKeyRaises(repo, params[1..]);
      i := k + 1;
      forall j | 0 < j < i ensures params[j] == params[1..][j - 1] {}
    }
  }

  /** `column__suffix` means that column and that suffix's operator, whatever underscores the column has. */
  lemma SuffixedKey(repo: Repo, column: string, suffix: string, value: Value)
    requires column in repo.columns && OperatorOf(suffix).Some?
    ensures Resolve(repo, Param(column + "__" + suffix, value))
         == Ok(Lookup(repo.table, column, OperatorOf(suffix).value, column + "__" + suffix, value))
  {
    var key := column + "__" + suffix;
    assert SeparatorAt(key, |column|);
    forall j | |column| < j && j + 2 <= |key| ensures !SeparatorAt(key, j) {
      NoLaterSeparator(column, suffix, j);
    }
    assert RFind(key, |key|) == |column|;
    assert key[..|column|] == column && key[|column| + 2..] == suffix;
  }

  /** A key without "__" means equality with that column. */
  lemma PlainKey(repo: Repo, column: string, value: Value)
    requires forall i: nat :: !SeparatorAt(column, i)
    ensures Resolve(repo, Param(column, value))
         == if column in repo.columns then Ok(Lookup(repo.table, column, "=", column, value))
            else Err(UnknownAttribute(column))
  {
    assert RFind(column, |column|) == -1;
  }

  /** The builder refuses an unknown column first, then an unknown suffix. */
  lemma BadKey(repo: Repo, column: string, suffix: string, value: Value)
    requires forall j: nat :: |column| < j ==> !SeparatorAt(column + "__" + suffix, j)
    requires column !in repo.columns || OperatorOf(suffix).None?
    ensures Resolve(repo, Param(column + "__" + suffix, value))
         == Err(if column !in repo.columns then UnknownAttribute(column + "__" + suffix) else UnsupportedSuffix(suffix))
  {
    var key := column + "__" + suffix;
    assert SeparatorAt(key, |column|);
    assert RFind(key, |key|) == |column|;
    assert key[..|column|] == column && key[|column| + 2..] == suffix;
  }

  /** The suffixes that are no comparisons. */
  lemma WordSuffix(repo: Repo, column: string, suffix: string, value: Value)
    requires column in repo.columns
    requires suffix == "is" || suffix == "is_not" || suffix == "like" || suffix == "ilike"
    ensures var operator :=
              (if suffix == "is" then "IS" else if suffix == "is_not" then "IS NOT"
               else if suffix == "like" then "LIKE" else "ILIKE");
            Resolve(repo, Param(column + "__" + suffix, value)) ==
            Ok(Lookup(repo.table, column, operator, column + "__" + suffix, value))
  {
    SuffixedKey(repo, column, suffix, value);
  }

  /** Three suffixes that the repository documents have no operator. */
  lemma SuffixWithoutOperator(repo: Repo, column: string, suffix: string, value: Value)
    requires column in repo.columns && suffix in ["between", "in", "not_in"]
    ensures Resolve(repo, Param(column + "__" + suffix, value)) == Err(UnsupportedSuffix(suffix))
  {
    forall j: nat | |column| < j ensures !SeparatorAt(column + "__" + suffix, j) {
      NoSeparatorInWord(column, suffix, j);
    }
    BadKey(repo, column, suffix, value);
  }

  lemma NoSeparatorInWord(column: string, suffix: string, j: nat)
    requires suffix in ["between", "in", "not_in"] && |column| < j
    ensures !SeparatorAt(column + "__" + suffix, j)
  {
  }

  /** No supported suffix brings a later "__" with it. */
  lemma NoLaterSeparator(column: string, suffix: string, j: nat)
    requires OperatorOf(suffix).Some?
    requires |column| < j && j + 2 <= |column| + 2 + |suffix|
    ensures !SeparatorAt(column + "__" + suffix, j)
  {
  }

  // ------------------------------------------------------------------------
  // Text
  // ------------------------------------------------------------------------

  /** " AND ".join(parts) */
  function JoinAnd(parts: seq<string>): string {
    if parts == [] then ""
    else if |parts| == 1 then parts[0]
    else parts[0] + " AND " + JoinAnd(parts[1..])
  }

  /** `count` tells how often the key has been seen before. */
  function NumberedCondition(l: Lookup, count: nat): Condition {
    Condition(l.table + "." + l.attr, l.operator, l.key + "_" + Decimal(count))
  }

  function ToCondition(l: Lookup): Condition {
    NumberedCondition(l, 0)
  }

  function ConditionText(c: Condition): string {
    c.column + " " + c.operator + " " + ":" + c.param
  }

  function Conditions(ls: seq<Lookup>): (cs: seq<Condition>)
    ensures |cs| == |ls| && forall i :: 0 <= i < |ls| ==> cs[i] == ToCondition(ls[i])
  {
    seq(|ls|, i requires 0 <= i < |ls| => ToCondition(ls[i]))
  }

  function Texts(cs: seq<Condition>): (ts: seq<string>)
    ensures |ts| == |cs| && forall i :: 0 <= i < |cs| ==> ts[i] == ConditionText(cs[i])
  {
    seq(|cs|, i requires 0 <= i < |cs| => ConditionText(cs[i]))
  }

  function Render(cs: seq<Condition>): string {
    JoinAnd(Texts(cs))
  }

  /** Bindings of several dictionaries merged in order: a later one wins. */
  function BindingsOf(ls: seq<Lookup>): Bindings {
    if ls == [] then map[]
    else
      var l := ls[|ls| - 1];
      BindingsOf(ls[..|ls| - 1])[ToCondition(l).param := l.value]
  }

  predicate DistinctKeys(params: seq<Param>) {
    forall i, j :: 0 <= i < j < |params| ==> params[i].key != params[j].key
  }

  /** Reading a defaultdict(int). */
  function CountOf(counter: map<string, nat>, key: string): nat {
    if key in counter then counter[key] else 0
  }

  /** The loop over one dictionary; keys of a dictionary are distinct. */
  method CollectWhereString(repo: Repo, params: seq<Param>) returns (r: Result<(string, Bindings), WhereError>)
    requires DistinctKeys(params)
    ensures match ResolveAll(repo, params)
            case Err(e) => r == Err(e)
            case Ok(ls) => r == Ok((Render(Conditions(ls)), BindingsOf(ls)))
  {
    var andStrings: seq<string> := [];
    var queryParams: Bindings := map[];
    var keyCounter: map<string, nat> := map[];
    ghost var ls := [];
    PrependNothing(ResolveAll(repo, params));
    assert params[0..] == params;
    for i := 0 to |params|
      invariant ResolveAll(repo, params) == Prepend(ls, ResolveAll(repo, params[i..]))
      invariant andStrings == Texts(Conditions(ls)) && queryParams == BindingsOf(ls)
      invariant forall j :: i <= j < |params| ==> params[j].key !in keyCounter
    {
      assert params[i..][1..] == params[i + 1..];
      var resolved := Resolve(repo, params[i]);
      if resolved.Err? { return Err(resolved.error); }
      var l := resolved.value;
      var count := CountOf(keyCounter, l.key);
      keyCounter := keyCounter[l.key := count + 1];
      var c := NumberedCondition(l, count);
      andStrings := andStrings + [ConditionText(c)];
      queryParams := queryParams[c.param := l.value];
      OneMoreLookup(ls, l);
      PrependTwice(ls, [l], ResolveAll(repo, params[i + 1..]));
      ls := ls + [l];
    }
    assert ResolveAll(repo, params) == Ok(ls) by { assert ls + [] == ls; }
    return Ok((JoinAnd(andStrings), queryParams));
  }

  lemma PrependNothing(rest: Result<seq<Lookup>, WhereError>)
    ensures Prepend([], rest) == rest
  {
    if rest.Ok? { assert [] + rest.value == rest.value; }
  }

  lemma PrependTwice(a: seq<Lookup>, b: seq<Lookup>, rest: Result<seq<Lookup>, WhereError>)
    ensures Prepend(a, Prepend(b, rest)) == Prepend(a + b, rest)
  {
    if rest.Ok? { assert a + (b + rest.value) == a + b + rest.value; }
  }

  lemma OneMoreLookup(ls: seq<Lookup>, l: Lookup)
    ensures Texts(Conditions(ls + [l])) == Texts(Conditions(ls)) + [ConditionText(ToCondition(l))]
    ensures BindingsOf(ls + [l]) == BindingsOf(ls)[ToCondition(l).param := l.value]
  {
  }

  // ------------------------------------------------------------------------
  // Reading the text back
  // ------------------------------------------------------------------------

  /** Position of the first `c`, or the length. */
  function IndexOf(s: string, c: char): (i: nat)
    ensures i <= |s|
    ensures i < |s| ==> s[i] == c
  {
    if s == "" || s[0] == c then 0 else 1 + IndexOf(s[1..], c)
  }

  lemma {:induction false} IndexOfFirst(before: string, c: char, after: string)
    requires c !in before
    ensures IndexOf(before + [c] + after, c) == |before|
    ensures IndexOf(before, c) == |before|
  {
    if before == "" {
    } else {
      IndexOfFirst(before[1..], c, after);
      assert (before + [c] + after)[1..] == before[1..] + [c] + after;
    }
  }

  /** Around the first `c`. */
  function SplitOn(s: string, c: char): (r: Option<(string, string)>)
    ensures r.Some? ==> |r.value.0| + 1 + |r.value.1| == |s|
  {
    var i := IndexOf(s, c);
    if i == |s| then None else Some((s[..i], s[i + 1..]))
  }

  lemma SplitOnFirst(before: string, c: char, after: string)
    requires c !in before
    ensures SplitOn(before + [c] + after, c) == Some((before, after))
  {
    IndexOfFirst(before, c, after);
    var s := before + [c] + after;
    assert s[..|before|] == before && s[|before| + 1..] == after;
  }

  /** A word and what follows it, from the blank on. */
  function TakeWord(s: string): (r: (string, string))
    ensures |r.1| <= |s|
  {
    var k := IndexOf(s, ' ');
    (s[..k], s[k..])
  }

  lemma TakeWordOf(word: string, more: string)
    requires ' ' !in word && (more == "" || more[0] == ' ')
    ensures TakeWord(word + more) == (word, more)
  {
    if more == "" {
      IndexOfFirst(word, ' ', "");
      assert word + more == word;
    } else {
      IndexOfFirst(word, ' ', more[1..]);
      assert word + more == word + [' '] + more[1..];
    }
  }

  /** Reads one `column operator :param` and returns what is left. */
  function ParseHead(text: string): (r: Option<(Condition, string)>)
    ensures r.Some? ==> |r.value.1| < |text|
  {
    match SplitOn(text, ' ')
    case None => None
    case Some((column, rest)) =>
      match SplitOn(rest, ':')
      case None => None
      case Some((operator, tail)) =>
        if operator == "" || operator[|operator| - 1] != ' ' then None
        else Some((Condition(column, operator[..|operator| - 1], TakeWord(tail).0), TakeWord(tail).1))
  }

  /** Reads conditions joined by " AND "; None for any other text. */
  function Parse(text: string): Option<seq<Condition>>
    decreases |text|
  {
    match ParseHead(text)
    case None => None
    case Some((c, rest)) =>
      if rest == "" then Some([c])
      else if !(" AND " <= rest) then None
      else
        match Parse(rest[5..])
        case None => None
        case Some(cs) => Some([c] + cs)
  }

  /** Identifiers hold no blank, operators no colon. */
  predicate Readable(c: Condition) {
    ' ' !in c.column && ':' !in c.operator && ' ' !in c.param
  }

  /** Where the parser stands after the first condition of a text. */
  lemma ParseHeadOf(c: Condition, more: string)
    requires Readable(c) && (more == "" || more[0] == ' ')
    ensures ParseHead(ConditionText(c) + more) == Some((c, more))
  {
    var tail := c.param + more;
    var operator := c.operator + " ";
    var rest := operator + [':'] + tail;
    assert ConditionText(c) + more == c.column + [' '] + rest;
    SplitOnFirst(c.column, ' ', rest);
    SplitOnFirst(operator, ':', tail);
    TakeWordOf(c.param, more);
    assert operator[..|operator| - 1] == c.operator;
  }

  lemma JoinFirst(cs: seq<Condition>)
    requires |cs| > 1
    ensures Render(cs) == ConditionText(cs[0]) + (" AND " + Render(cs[1..]))
  {
    assert Texts(cs)[1..] == Texts(cs[1..]);
  }

  lemma ParseAnd(c: Condition, text: string)
    requires Readable(c)
    ensures Parse(ConditionText(c) + (" AND " + text)) ==
            match Parse(text)
            case None => None
            case Some(cs) => Some([c] + cs)
  {
    ParseHeadOf(c, " AND " + text);
    assert (" AND " + text)[5..] == text;
  }

  lemma ParseOne(c: Condition)
    requires Readable(c)
    ensures Parse(ConditionText(c)) == Some([c])
  {
    assert ConditionText(c) + "" == ConditionText(c);
    ParseHeadOf(c, "");
  }

  /** Round trip: the text determines the conditions, in order. */
  lemma {:induction false} ParseRendered(cs: seq<Condition>)
    requires cs != [] && forall i :: 0 <= i < |cs| ==> Readable(cs[i])
    ensures Parse(Render(cs)) == Some(cs)
  {
    if |cs| == 1 {
      ParseOne(cs[0]);
      assert cs == [cs[0]];
    } else {
      ParseRendered(cs[1..]);
      ParseFirst(cs);
    }
  }

  lemma ParseFirst(cs: seq<Condition>)
    requires |cs| > 1 && Readable(cs[0]) && Parse(Render(cs[1..])) == Some(cs[1..])
    ensures Parse(Render(cs)) == Some(cs)
  {
    JoinFirst(cs);
    ParseAnd(cs[0], Render(cs[1..]));
    HeadAndTail(cs);
  }

  lemma HeadAndTail(cs: seq<Condition>)
    requires cs != []
    ensures [cs[0]] + cs[1..] == cs
  {
  }

  // ------------------------------------------------------------------------
  // Meaning
  // ------------------------------------------------------------------------

  /** SQL comparison of a column value with a bound value. */
  type Semantics = (string, Value, Value) -> bool

  predicate Satisfies(cs: seq<Condition>, bindings: Bindings, row: Row, sem: Semantics) {
    forall i :: 0 <= i < |cs| ==>
      cs[i].column in row && cs[i].param in bindings && sem(cs[i].operator, row[cs[i].column], bindings[cs[i].param])
  }

  /** What the caller asked for. */
  predicate Matches(ls: seq<Lookup>, row: Row, sem: Semantics) {
    forall i :: 0 <= i < |ls| ==>
      var column := ToCondition(ls[i]).column;
      column in row && sem(ls[i].operator, row[column], ls[i].value)
  }

  predicate BoundRight(ls: seq<Lookup>) {
    forall i :: 0 <= i < |ls| ==>
      ToCondition(ls[i]).param in BindingsOf(ls) && BindingsOf(ls)[ToCondition(ls[i]).param] == ls[i].value
  }

  lemma SameParamSameKey(a: Lookup, b: Lookup)
    requires ToCondition(a).param == ToCondition(b).param
    ensures a.key == b.key
  {
    var suffix := "_" + Decimal(0);
    assert ToCondition(a).param[..|a.key|] == a.key;
    assert ToCondition(b).param[..|b.key|] == b.key;
    assert ToCondition(a).param == a.key + suffix && ToCondition(b).param == b.key + suffix;
  }

  lemma {:induction false} EachIsBound(ls: seq<Lookup>)
    ensures forall i :: 0 <= i < |ls| ==> ToCondition(ls[i]).param in BindingsOf(ls)
  {
    if ls == [] {
    } else {
      EachIsBound(ls[..|ls| - 1]);
    }
  }

  /** Of several lookups with one key the last one's value is bound. */
  lemma {:induction false} LastWins(ls: seq<Lookup>, p: string) returns (i: nat)
    requires p in BindingsOf(ls)
    ensures i < |ls| && ToCondition(ls[i]).param == p && BindingsOf(ls)[p] == ls[i].value
    ensures forall j :: i < j < |ls| ==> ToCondition(ls[j]).param != p
  {
    var n := |ls| - 1;
    if p == ToCondition(ls[n]).param {
      i := n;
    } else {
      i := LastWins(ls[..n], p);
    }
  }

  /** Merged dictionaries bind every lookup to its own value exactly when equal keys carry equal values. */
  lemma BoundRightIff(ls: seq<Lookup>)
    ensures BoundRight(ls)
       <==> forall i, j :: 0 <= i < |ls| && 0 <= j < |ls| && ls[i].key == ls[j].key ==> ls[i].value == ls[j].value
  {
    EachIsBound(ls);
    if forall i, j :: 0 <= i < |ls| && 0 <= j < |ls| && ls[i].key == ls[j].key ==> ls[i].value == ls[j].value {
      forall i | 0 <= i < |ls| ensures BindingsOf(ls)[ToCondition(ls[i]).param] == ls[i].value {
        var p := ToCondition(ls[i]).param;
        var j := LastWins(ls, p);
        SameParamSameKey(ls[i], ls[j]);
      }
    } else {
      var i, j :| 0 <= i < |ls| && 0 <= j < |ls| && ls[i].key == ls[j].key && ls[i].value != ls[j].value;
      assert ToCondition(ls[i]).param == ToCondition(ls[j]).param;
    }
  }

  /** Under its bindings the text selects exactly the rows that match all lookups. */
  lemma TextMeansLookups(ls: seq<Lookup>, row: Row, sem: Semantics)
    requires BoundRight(ls)
    ensures Satisfies(Conditions(ls), BindingsOf(ls), row, sem) <==> Matches(ls, row, sem)
  {
  }

  predicate PlainNames(repo: Repo) {
    ' ' !in repo.table && forall c :: c in repo.columns ==> ' ' !in c
  }

  lemma SuffixedKeyIsPlain(key: string, i: nat)
    requires i + 2 <= |key| && key[i..i + 2] == "__"
    requires ' ' !in key[..i] && ' ' !in key[i + 2..]
    ensures ' ' !in key
  {
  }

  lemma ResolvedKeyIsPlain(repo: Repo, p: Param)
    requires PlainNames(repo) && Resolve(repo, p).Ok?
    ensures ' ' !in p.key && ':' !in Resolve(repo, p).value.operator
  {
    var i := RFind(p.key, |p.key|);
    OperatorsArePlain(if i < 0 then "eq" else p.key[i + 2..]);
    if i >= 0 { SuffixedKeyIsPlain(p.key, i); }
  }

  /** A resolved lookup of a repository with plain names can be read back. */
  lemma LookupIsReadable(l: Lookup)
    requires ' ' !in l.table && ' ' !in l.attr && ' ' !in l.key && ':' !in l.operator
    ensures Readable(ToCondition(l))
  {
  }

  lemma OperatorsArePlain(suffix: string)
    requires OperatorOf(suffix).Some?
    ensures ' ' !in suffix && ':' !in OperatorOf(suffix).value
  {
  }

  /** One dictionary end to end: its text parses back to its lookups, in order. */
  lemma WhereStringParses(repo: Repo, params: seq<Param>, ls: seq<Lookup>)
    requires PlainNames(repo) && params != [] && ResolveAll(repo, params) == Ok(ls)
    ensures Parse(Render(Conditions(ls))) == Some(Conditions(ls))
  {
    ResolvedLookups(repo, params, ls);
    ParseRendered(Conditions(ls));
  }

  lemma KeysStayDistinct(params: seq<Param>, ls: seq<Lookup>)
    requires DistinctKeys(params) && |ls| == |params| && forall i :: 0 <= i < |ls| ==> ls[i].key == params[i].key
    ensures forall i, j :: 0 <= i < |ls| && 0 <= j < |ls| && ls[i].key == ls[j].key ==> i == j
  {
  }

  /** And under its own bindings it means their conjunction. */
  lemma WhereStringMeans(repo: Repo, params: seq<Param>, ls: seq<Lookup>, row: Row, sem: Semantics)
    requires DistinctKeys(params) && ResolveAll(repo, params) == Ok(ls)
    ensures Satisfies(Conditions(ls), BindingsOf(ls), row, sem) <==> Matches(ls, row, sem)
  {
    ResolvesIffAllDo(repo, params);
    forall i | 0 <= i < |ls| ensures ls[i].key == params[i].key { assert Resolve(repo, params[i]).Ok?; }
    KeysStayDistinct(params, ls);
    BoundRightIff(ls);
    TextMeansLookups(ls, row, sem);
  }

  /** Executing a WHERE text: it must read as a condition list, which the row has to satisfy. */
  predicate Selects(text: string, bindings: Bindings, row: Row, sem: Semantics) {
    match Parse(text)
    case None => false
    case Some(cs) => Satisfies(cs, bindings, row, sem)
  }

  /** The two together: the returned text under the returned bindings selects a row exactly when it matches all lookups. */
  lemma WhereTextSelects(repo: Repo, params: seq<Param>, ls: seq<Lookup>, row: Row, sem: Semantics)
    requires PlainNames(repo) && DistinctKeys(params) && params != [] && ResolveAll(repo, params) == Ok(ls)
    ensures Selects(Render(Conditions(ls)), BindingsOf(ls), row, sem) <==> Matches(ls, row, sem)
  {
    WhereStringParses(repo, params, ls);
    WhereStringMeans(repo, params, ls, row, sem);
  }

  /** `{column: value}` selects exactly the rows whose column is that value. */
  lemma PlainKeySelects(repo: Repo, column: string, value: Value, row: Row, sem: Semantics) returns (ls: seq<Lookup>)
    requires PlainNames(repo) && column in repo.columns && forall i: nat :: !SeparatorAt(column, i)
    requires forall a, b :: sem("=", a, b) <==> a == b
    ensures ResolveAll(repo, [Param(column, value)]) == Ok(ls)
    ensures Selects(Render(Conditions(ls)), BindingsOf(ls), row, sem)
       <==> repo.table + "." + column in row && row[repo.table + "." + column] == value
  {
    PlainKey(repo, column, value);
    ls := ResolveOne(repo, Param(column, value));
    WhereTextSelects(repo, [Param(column, value)], ls, row, sem);
  }

  lemma ResolveOne(repo: Repo, p: Param) returns (ls: seq<Lookup>)
    requires Resolve(repo, p).Ok?
    ensures ls == [Resolve(repo, p).value] && ResolveAll(repo, [p]) == Ok(ls)
  {
    ls := [Resolve(repo, p).value];
    assert [p][1..] == [] && ls + [] == ls;
  }

  /** The comparison operators on numbers. */
  ghost predicate ComparesNumbers(sem: Semantics) {
    && (forall x, y :: sem("<", Number(x), Number(y)) <==> x < y)
    && (forall x, y :: sem("<=", Number(x), Number(y)) <==> x <= y)
    && (forall x, y :: sem(">", Number(x), Number(y)) <==> x > y)
    && (forall x, y :: sem(">=", Number(x), Number(y)) <==> x >= y)
    && (forall x, y :: sem("=", Number(x), Number(y)) <==> x == y)
    && (forall x, y :: sem("!=", Number(x), Number(y)) <==> x != y)
  }

  /** `{column__suffix: bound}` selects a row by comparing its column with the bound. */
  lemma ComparisonSelects(repo: Repo, column: string, suffix: string, bound: int, y: int, row: Row, sem: Semantics)
    returns (ls: seq<Lookup>)
    requires PlainNames(repo) && column in repo.columns && ComparesNumbers(sem)
    requires suffix in ["lt", "le", "gt", "ge", "eq", "neq"]
    requires repo.table + "." + column in row && row[repo.table + "." + column] == Number(y)
    ensures ResolveAll(repo, [Param(column + "__" + suffix, Number(bound))]) == Ok(ls)
    ensures var selected := Selects(Render(Conditions(ls)), BindingsOf(ls), row, sem);
            && (suffix == "lt" ==> (selected <==> y < bound))
            && (suffix == "le" ==> (selected <==> y <= bound))
            && (suffix == "gt" ==> (selected <==> y > bound))
            && (suffix == "ge" ==> (selected <==> y >= bound))
            && (suffix == "eq" ==> (selected <==> y == bound))
            && (suffix == "neq" ==> (selected <==> y != bound))
  {
    SuffixedKey(repo, column, suffix, Number(bound));
    ls := ResolveOne(repo, Param(column + "__" + suffix, Number(bound)));
    WhereTextSelects(repo, [Param(column + "__" + suffix, Number(bound))], ls, row, sem);
    OneMatches(ls[0], row, sem);
    OperatorCompares(suffix, y, bound, sem);
  }

  lemma OneMatches(l: Lookup, row: Row, sem: Semantics)
    ensures Matches([l], row, sem)
       <==> l.table + "." + l.attr in row && sem(l.operator, row[l.table + "." + l.attr], l.value)
  {
    assert [l][0] == l;
  }

  lemma OperatorCompares(suffix: string, y: int, bound: int, sem: Semantics)
    requires ComparesNumbers(sem) && OperatorOf(suffix).Some?
    ensures var selected := sem(OperatorOf(suffix).value, Number(y), Number(bound));
            && (suffix == "lt" ==> (selected <==> y < bound))
            && (suffix == "le" ==> (selected <==> y <= bound))
            && (suffix == "gt" ==> (selected <==> y > bound))
            && (suffix == "ge" ==> (selected <==> y >= bound))
            && (suffix == "eq" ==> (selected <==> y == bound))
            && (suffix == "neq" ==> (selected <==> y != bound))
  {
  }

  lemma ResolvedLookups(repo: Repo, params: seq<Param>, ls: seq<Lookup>)
    requires PlainNames(repo) && ResolveAll(repo, params) == Ok(ls)
    ensures |ls| == |params|
    ensures forall i :: 0 <= i < |ls| ==>
              && Readable(ToCondition(ls[i])) && ls[i].key == params[i].key && ls[i].value == params[i].value
              && ls[i].attr in repo.columns && ls[i].table == repo.table
  {
    ResolvesIffAllDo(repo, params);
    forall i | 0 <= i < |ls| ensures Readable(ToCondition(ls[i])) {
      ResolvedKeyIsPlain(repo, params[i]);
      LookupIsReadable(ls[i]);
    }
  }

  // ------------------------------------------------------------------------
  // Base and join filters in one statement
  // ------------------------------------------------------------------------

  /** A join's filter on the joined repository. */
  datatype JoinWhere = JoinWhere(repo: Repo, params: seq<Param>)

  function ResolveJoins(joins: seq<JoinWhere>): Result<seq<Lookup>, WhereError> {
    if joins == [] then Ok([])
    else
      match ResolveAll(joins[0].repo, joins[0].params)
      case Err(e) => Err(e)
      case Ok(ls) => Prepend(ls, ResolveJoins(joins[1..]))
  }

  /** The lookups of the joins before the first one that does not resolve. */
  function ResolvedBefore(joins: seq<JoinWhere>): seq<Lookup> {
    if joins == [] then []
    else
      match ResolveAll(joins[0].repo, joins[0].params)
      case Err(_) => []
      case Ok(ls) => ls + ResolvedBefore(joins[1..])
  }

  /** The builder returns exactly when every join's filter resolves. */
  lemma {:induction false} JoinsResolveIffAllDo(joins: seq<JoinWhere>)
    ensures ResolveJoins(joins).Ok? <==> forall i :: 0 <= i < |joins| ==> ResolveAll(joins[i].repo, joins[i].params).Ok?
  {
    if joins == [] {
    } else {
      var rest := joins[1..];
      JoinsResolveIffAllDo(rest);
      forall i | 0 < i < |joins| ensures joins[i] == rest[i - 1] {}
      if i :| 0 <= i < |rest| && ResolveAll(rest[i].repo, rest[i].params).Err? {
        assert ResolveAll(joins[i + 1].repo, joins[i + 1].params).Err?;
      }
    }
  }

  /** Otherwise it raises the error of the first bad join, with the joins before it resolved. */
  lemma {:induction false} FirstBadJoinRaises(joins: seq<JoinWhere>) returns (i: nat)
    requires ResolveJoins(joins).Err?
    ensures i < |joins| && ResolveAll(joins[i].repo, joins[i].params) == Err(ResolveJoins(joins).error)
    ensures ResolveJoins(joins[..i]) == Ok(ResolvedBefore(joins))
  {
    if ResolveAll(joins[0].repo, joins[0].params).Err? {
      i := 0;
    } else {
      var k := FirstBadJoinRaises(joins[1..]);
      i := k + 1;
      assert joins[..i][1..] == joins[1..][..k];
    }
  }

  lemma MatchesBoth(a: seq<Lookup>, b: seq<Lookup>, row: Row, sem: Semantics)
    ensures Matches(a + b, row, sem) <==> Matches(a, row, sem) && Matches(b, row, sem)
  {
    if Matches(a + b, row, sem) {
      forall i | 0 <= i < |a| ensures a[i] == (a + b)[i] {}
      forall i | 0 <= i < |b| ensures b[i] == (a + b)[|a| + i] {}
    }
  }

  /** A row matches the merged lookups exactly when it matches every join's own. */
  lemma {:induction false} JoinsMeanAll(joins: seq<JoinWhere>, row: Row, sem: Semantics)
    requires ResolveJoins(joins).Ok?
    requires forall i :: 0 <= i < |joins| ==> ResolveAll(joins[i].repo, joins[i].params).Ok?
    ensures Matches(ResolveJoins(joins).value, row, sem)
       <==> forall i :: 0 <= i < |joins| ==> Matches(ResolveAll(joins[i].repo, joins[i].params).value, row, sem)
  {
    if joins == [] {
    } else {
      var rest := joins[1..];
      forall i | 0 < i < |joins| ensures joins[i] == rest[i - 1] {}
      JoinsMeanAll(rest, row, sem);
      MatchesBoth(ResolveAll(joins[0].repo, joins[0].params).value, ResolveJoins(rest).value, row, sem);
      if i :| 0 <= i < |rest| && !Matches(ResolveAll(rest[i].repo, rest[i].params).value, row, sem) {
        assert !Matches(ResolveAll(joins[i + 1].repo, joins[i + 1].params).value, row, sem);
      }
    }
  }

  lemma {:induction false} BindingsOfBoth(a: seq<Lookup>, b: seq<Lookup>)
    ensures BindingsOf(a + b) == BindingsOf(a) + BindingsOf(b)
  {
    if b == [] {
      assert a + b == a;
    } else {
      BindingsOfBoth(a, b[..|b| - 1]);
      assert (a + b)[..|a + b| - 1] == a + b[..|b| - 1];
    }
  }

  lemma {:induction false} JoinAndBoth(a: seq<string>, b: seq<string>)
    requires a != [] && b != []
    ensures JoinAnd(a + b) == JoinAnd(a) + " AND " + JoinAnd(b)
    ensures JoinAnd(a + [JoinAnd(b)]) == JoinAnd(a + b)
  {
    if |a| > 1 {
      JoinAndBoth(a[1..], b);
      assert (a + b)[1..] == a[1..] + b && (a + [JoinAnd(b)])[1..] == a[1..] + [JoinAnd(b)];
    } else {
      assert (a + b)[1..] == b && (a + [JoinAnd(b)])[1..] == [JoinAnd(b)];
    }
  }

  lemma {:induction false} RenderNonEmpty(cs: seq<Condition>)
    ensures Render(cs) == "" <==> cs == []
  {
  }

  lemma OneMoreDictionary(collected: Bindings, ls: seq<Lookup>, more: seq<Lookup>)
    ensures BindingsOf(ls) + BindingsOf(more) == BindingsOf(ls + more)
    ensures collected + BindingsOf(ls) + BindingsOf(more) == collected + BindingsOf(ls + more)
  {
    BindingsOfBoth(ls, more);
    MergeInTurn(collected, BindingsOf(ls), BindingsOf(more));
  }

  lemma MergeInTurn<K, V>(a: map<K, V>, b: map<K, V>, c: map<K, V>)
    ensures a + b + c == a + (b + c)
  {
  }

  lemma OneMoreJoin(parts: seq<string>, ls: seq<Lookup>, more: seq<Lookup>)
    requires (parts == [] <==> ls == []) && JoinAnd(parts) == Render(Conditions(ls))
    ensures Render(Conditions(more)) == "" ==> more == [] && ls + more == ls
    ensures Render(Conditions(more)) != "" ==>
              more != [] && JoinAnd(parts + [Render(Conditions(more))]) == Render(Conditions(ls + more))
  {
    RenderNonEmpty(Conditions(more));
    if more != [] { OneMorePart(parts, ls, more); }
  }

  lemma OneMorePart(parts: seq<string>, ls: seq<Lookup>, more: seq<Lookup>)
    requires (parts == [] <==> ls == []) && JoinAnd(parts) == Render(Conditions(ls)) && more != []
    ensures JoinAnd(parts + [Render(Conditions(more))]) == Render(Conditions(ls + more))
  {
    var a, b := Texts(Conditions(ls)), Texts(Conditions(more));
    assert Texts(Conditions(ls + more)) == a + b;
    if ls != [] {
      assert JoinAnd([JoinAnd(b)]) == JoinAnd(b);
      JoinAndBoth(parts, [JoinAnd(b)]);
      JoinAndBoth(a, b);
    } else {
      assert a + b == b && parts + [JoinAnd(b)] == [JoinAnd(b)];
    }
  }

  /** `ls` are the lookups of the first `i` joins, all of which resolve. */
  ghost predicate JoinsSoFar(joins: seq<JoinWhere>, i: nat, ls: seq<Lookup>)
    requires i <= |joins|
  {
    && ResolveJoins(joins) == Prepend(ls, ResolveJoins(joins[i..]))
    && ResolvedBefore(joins) == ls + ResolvedBefore(joins[i..])
  }

  lemma NoJoinYet(joins: seq<JoinWhere>)
    ensures JoinsSoFar(joins, 0, [])
  {
    PrependNothing(ResolveJoins(joins));
    assert joins[0..] == joins;
  }

  lemma NextJoin(joins: seq<JoinWhere>, i: nat, ls: seq<Lookup>)
    requires i < |joins| && JoinsSoFar(joins, i, ls)
    ensures match ResolveAll(joins[i].repo, joins[i].params)
            case Err(e) => ResolveJoins(joins) == Err(e) && ResolvedBefore(joins) == ls
            case Ok(more) => JoinsSoFar(joins, i + 1, ls + more)
  {
    assert joins[i..][1..] == joins[i + 1..];
    match ResolveAll(joins[i].repo, joins[i].params)
    case Err(_) => assert ls + [] == ls;
    case Ok(more) =>
      PrependTwice(ls, more, ResolveJoins(joins[i + 1..]));
      LookupsInTurn(ls, more, ResolvedBefore(joins[i + 1..]));
  }

  lemma LookupsInTurn(a: seq<Lookup>, b: seq<Lookup>, c: seq<Lookup>)
    ensures a + (b + c) == a + b + c
  {
  }

  lemma AllJoins(joins: seq<JoinWhere>, ls: seq<Lookup>)
    requires JoinsSoFar(joins, |joins|, ls)
    ensures ResolveJoins(joins) == Ok(ls) && ResolvedBefore(joins) == ls
  {
    assert ls + [] == ls;
  }

  /** `full` is the dictionary of the caller's own filter, which the builder updates (an empty one is replaced by a new one). */
  method CollectJoinWhereString(joins: seq<JoinWhere>, collected: Bindings)
    returns (r: Result<(string, Bindings), WhereError>, full: Bindings)
    requires forall i :: 0 <= i < |joins| ==> DistinctKeys(joins[i].params)
    ensures match ResolveJoins(joins)
            case Err(e) => r == Err(e)
            case Ok(ls) => r == Ok((Render(Conditions(ls)), BindingsOf(ls))) && full == collected + BindingsOf(ls)
    ensures full == collected + BindingsOf(ResolvedBefore(joins))
  {
    full := collected;
    var joinWhereParams: Bindings := map[];
    var whereParts: seq<string> := [];
    ghost var ls := [];
    NoJoinYet(joins);
    for i := 0 to |joins|
      invariant JoinsSoFar(joins, i, ls)
      invariant whereParts == [] <==> ls == []
      invariant JoinAnd(whereParts) == Render(Conditions(ls))
      invariant joinWhereParams == BindingsOf(ls) && full == collected + BindingsOf(ls)
    {
      var part := CollectWhereString(joins[i].repo, joins[i].params);
      NextJoin(joins, i, ls);
      if part.Err? { return Err(part.error), full; }
      ghost var more := ResolveAll(joins[i].repo, joins[i].params).value;
      OneMoreDictionary(collected, ls, more);
      OneMoreJoin(whereParts, ls, more);
      var (whereString, whereParams) := part.value;
      if whereString != "" {
        whereParts := whereParts + [whereString];
        joinWhereParams := joinWhereParams + whereParams;
        full := full + whereParams;
      }
      ls := ls + more;
    }
    AllJoins(joins, ls);
    return Ok((JoinAnd(whereParts), joinWhereParams)), full;
  }

  lemma {:induction false} JoinedAreReadable(joins: seq<JoinWhere>, ls: seq<Lookup>)
    requires (forall i :: 0 <= i < |joins| ==> PlainNames(joins[i].repo)) && ResolveJoins(joins) == Ok(ls)
    ensures forall i :: 0 <= i < |ls| ==> Readable(ToCondition(ls[i]))
  {
    if joins == [] {
    } else {
      var first, rest := ResolveAll(joins[0].repo, joins[0].params).value, ResolveJoins(joins[1..]).value;
      ResolvedLookups(joins[0].repo, joins[0].params, first);
      JoinedAreReadable(joins[1..], rest);
      assert ls == first + rest;
    }
  }

  /** Filters of several joins, merged: the text means all of them when equal keys carry equal values. */
  lemma JoinedTextSelects(joins: seq<JoinWhere>, ls: seq<Lookup>, row: Row, sem: Semantics)
    requires forall i :: 0 <= i < |joins| ==> PlainNames(joins[i].repo)
    requires ResolveJoins(joins) == Ok(ls) && ls != []
    requires forall i, j :: 0 <= i < |ls| && 0 <= j < |ls| && ls[i].key == ls[j].key ==> ls[i].value == ls[j].value
    ensures Selects(Render(Conditions(ls)), BindingsOf(ls), row, sem) <==> Matches(ls, row, sem)
  {
    JoinedAreReadable(joins, ls);
    ParseRendered(Conditions(ls));
    BoundRightIff(ls);
    TextMeansLookups(ls, row, sem);
  }

  /** What follows WHERE in the statement of `get_by_attributes`, up to surrounding blanks. */
  function WhereClause(base: string, joined: string): string {
    if joined == "" then base
    else
      var prefix := if base == "" then " WHERE " else " ";
      var wherePrefix := if prefix == "" then " AND " else " ";
      if base == "" then joined else base + " " + prefix + wherePrefix + " " + joined
  }

  /** The clause says both filters exactly when not both are given; otherwise it is no condition list at all. */
  lemma ClauseReadableIff(base: seq<Condition>, joined: seq<Condition>)
    requires forall i :: 0 <= i < |base| ==> Readable(base[i])
    requires forall i :: 0 <= i < |joined| ==> Readable(joined[i])
    requires base + joined != []
    ensures Parse(WhereClause(Render(base), Render(joined))) == Some(base + joined) <==> base == [] || joined == []
    ensures base != [] && joined != [] ==> Parse(WhereClause(Render(base), Render(joined))) == None
  {
    RenderNonEmpty(base);
    RenderNonEmpty(joined);
    if joined == [] {
      ParseRendered(base);
      assert base + joined == base;
    } else if base == [] {
      ParseRendered(joined);
      assert base + joined == joined;
    } else {
      var gap := " " + " " + " " + " " + Render(joined);
      assert WhereClause(Render(base), Render(joined)) == Render(base) + gap;
      GapBreaks(base, gap);
    }
  }

  lemma GapAfter(first: string, rest: string, gap: string)
    ensures first + (" AND " + rest) + gap == first + (" AND " + (rest + gap))
  {
  }

  lemma NoAndInGap(gap: string)
    requires |gap| >= 2 && gap[1] == ' '
    ensures gap != "" && !(" AND " <= gap)
  {
    assert " AND "[1] == 'A';
  }

  lemma GapBreaksOne(c: Condition, gap: string)
    requires Readable(c) && |gap| >= 2 && gap[0] == gap[1] == ' '
    ensures Parse(ConditionText(c) + gap) == None
  {
    ParseHeadOf(c, gap);
    NoAndInGap(gap);
  }

  lemma GapBreaksLater(cs: seq<Condition>, gap: string)
    requires |cs| > 1 && Readable(cs[0]) && Parse(Render(cs[1..]) + gap) == None
    ensures Parse(Render(cs) + gap) == None
  {
    JoinFirst(cs);
    GapAfter(ConditionText(cs[0]), Render(cs[1..]), gap);
    ParseAnd(cs[0], Render(cs[1..]) + gap);
  }

  lemma {:induction false} GapBreaks(cs: seq<Condition>, gap: string)
    requires cs != [] && forall i :: 0 <= i < |cs| ==> Readable(cs[i])
    requires |gap| >= 2 && gap[0] == gap[1] == ' '
    ensures Parse(Render(cs) + gap) == None
  {
    if |cs| == 1 {
      GapBreaksOne(cs[0], gap);
    } else {
      GapBreaks(cs[1..], gap);
      GapBreaksLater(cs, gap);
    }
  }
}
