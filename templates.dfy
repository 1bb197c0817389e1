/**
 * The literal builders used while rendering the credential insert statement
 * (server/internal/store/internal/sqlite/templates.go): flattenNumber and the []string and
 * map[string]string cases of the "flatten" template function. Each grows a
 * result buffer in a loop; each is proved equal to a pure description.
 */
module Templates {
  import opened Base
  import opened Decimal

  /** One element between single quotes, copied verbatim (nothing is escaped). */
  function Quoted(s: string): string {
    "'" + s + "'"
  }

  /** The parts separated by single commas, with no trailing comma. */
  function Join(parts: seq<string>): string {
    if |parts| == 0 then ""
    else if |parts| == 1 then parts[0]
    else parts[0] + "," + Join(parts[1..])
  }

  function QuotedAll(v: seq<string>): (r: seq<string>)
    ensures |r| == |v| && forall i :: 0 <= i < |v| ==> r[i] == Quoted(v[i])
  {
    seq(|v|, i requires 0 <= i < |v| => Quoted(v[i]))
  }

  function FormatAll(n: seq<int>): (r: seq<string>)
    ensures |r| == |n| && forall i :: 0 <= i < |n| ==> r[i] == Format(n[i])
  {
    seq(|n|, i requires 0 <= i < |n| => Format(n[i]))
  }

  /** The text of one map entry: 'k','v'. */
  function PairText(k: string, v: string): string {
    Quoted(k) + "," + Quoted(v)
  }

  function Concat(parts: seq<string>): string {
    if parts == [] then "" else parts[0] + Concat(parts[1..])
  }

  /** The entries of m, visited in the given order. */
  function PairsInOrder(m: map<string, string>, order: seq<string>): (r: seq<string>)
    requires forall i :: 0 <= i < |order| ==> order[i] in m
    ensures |r| == |order| && forall i :: 0 <= i < |order| ==> r[i] == PairText(order[i], m[order[i]])
  {
    seq(|order|, i requires 0 <= i < |order| => PairText(order[i], m[order[i]]))
  }

  /** order is one possible iteration order of Go's range over m: every key exactly once. */
  predicate IsIterationOrder(order: seq<string>, m: map<string, string>) {
    && (forall i, j :: 0 <= i < j < |order| ==> order[i] != order[j])
    && (forall i :: 0 <= i < |order| ==> order[i] in m)
    && (forall k :: k in m ==> k in order)
  }

  // ----- Join, from the back (the order in which the loops build it) -----

  lemma {:induction false} JoinSnoc(parts: seq<string>, x: string)
    requires |parts| > 0
    ensures Join(parts + [x]) == Join(parts) + "," + x
  {
    if |parts| == 1 {
      assert (parts + [x])[1..] == [x];
    } else {
      assert (parts + [x])[1..] == parts[1..] + [x];
      JoinSnoc(parts[1..], x);
    }
  }

  // ----- flatten on []string -----

  /** The []string case of flatten: quote each element, join with ','. */
  method FlattenStrings(val: seq<string>) returns (r: string)
    ensures r == Join(QuotedAll(val))
  {
    r := "";
    for i := 0 to |val|
      invariant r == if i == 0 then "" else Join(QuotedAll(val[..i])) + (if i < |val| then "," else "")
    {
      assert QuotedAll(val[..i + 1]) == QuotedAll(val[..i]) + [Quoted(val[i])];
      if i > 0 {
        JoinSnoc(QuotedAll(val[..i]), Quoted(val[i]));
      }
      ghost var before := r;
      r := r + "'";
      r := r + val[i];
      r := r + "'";
      QuoteWrites(before, val[i]);
      if i != |val| - 1 {
        r := r + ",";
      }
    }
    assert val[..|val|] == val;
  }

  /** The three writes of one element append it quoted. */
  lemma QuoteWrites(r: string, s: string)
    ensures r + "'" + s + "'" == r + Quoted(s)
  {
  }

  function SumLengths(v: seq<string>): nat {
    if v == [] then 0 else |v[0]| + SumLengths(v[1..])
  }

  /**
   * The length of flatten on []string: every element plus its two quotes,
   * plus one comma between consecutive elements.
   */
  lemma {:induction false} FlattenStringsLength(val: seq<string>)
    ensures |Join(QuotedAll(val))| == SumLengths(val) + 2 * |val| + (if |val| > 0 then |val| - 1 else 0)
  {
    if |val| > 1 {
      FlattenStringsLength(val[1..]);
      assert QuotedAll(val)[1..] == QuotedAll(val[1..]);
    }
  }

  /** flatten on []string starts and ends with a quote, so it never ends with a comma. */
  lemma FlattenStringsEnds(val: seq<string>)
    requires |val| > 0
    ensures var r := Join(QuotedAll(val)); |r| >= 2 && r[0] == '\'' && r[|r| - 1] == '\''
  {
    var q := QuotedAll(val);
    if |val| > 1 {
      JoinSnoc(q[..|q| - 1], q[|q| - 1]);
      assert q[..|q| - 1] + [q[|q| - 1]] == q;
    }
  }

  /** Because nothing is escaped, a quote inside an element can forge an element boundary. */
  lemma FlattenStringsNotInjective()
    ensures Join(QuotedAll(["a','b"])) == Join(QuotedAll(["a", "b"]))
  {
  }

  // ----- flattenNumber on integers -----

  /** flattenNumber: each element in decimal (%v of an integer), joined with ','. */
  method FlattenNumbers(n: seq<int>) returns (r: string)
    ensures r == Join(FormatAll(n))
  {
    r := "";
    for i := 0 to |n|
      invariant r == if i == 0 then "" else Join(FormatAll(n[..i])) + (if i < |n| then "," else "")
    {
      assert FormatAll(n[..i + 1]) == FormatAll(n[..i]) + [Format(n[i])];
      if i > 0 {
        JoinSnoc(FormatAll(n[..i]), Format(n[i]));
      }
      r := r + Format(n[i]);
      if i != |n| - 1 {
        r := r + ",";
      }
    }
    assert n[..|n|] == n;
  }

  /** The text up to the first comma, and the pieces after it. */
  function SplitCommas(s: string): (r: seq<string>)
    ensures |r| > 0
    decreases |s|
  {
    if ',' !in s then [s]
    else
      var j := FirstComma(s);
      [s[..j]] + SplitCommas(s[j + 1..])
  }

  function FirstComma(s: string): (j: nat)
    requires ',' in s
    ensures j < |s| && s[j] == ',' && ',' !in s[..j]
  {
    if s[0] == ',' then 0 else 1 + FirstComma(s[1..])
  }

  lemma FirstCommaAfter(a: string, b: string)
    requires ',' !in a
    ensures ',' in a + "," + b && FirstComma(a + "," + b) == |a|
  {
    var s := a + "," + b;
    assert s[|a|] == ',';
    var j := FirstComma(s);
  }

  /** Splitting the joined text on ',' gives back the parts when no part holds a comma. */
  lemma {:induction false} SplitJoin(parts: seq<string>)
    requires |parts| > 0
    requires forall i :: 0 <= i < |parts| ==> ',' !in parts[i]
    ensures SplitCommas(Join(parts)) == parts
  {
    if |parts| > 1 {
      var rest := Join(parts[1..]);
      FirstCommaAfter(parts[0], rest);
      var s := parts[0] + "," + rest;
      assert s[..|parts[0]|] == parts[0];
      assert s[|parts[0]| + 1..] == rest;
      SplitJoin(parts[1..]);
    }
  }

  lemma FormatHasNoComma(x: int)
    ensures ',' !in Format(x)
  {
  }

  /**
   * flattenNumber is decodable: splitting its output on ',' and parsing each
   * piece as an int64 gives back the input (when there is at least one element).
   */
  lemma FlattenNumbersDecodes(n: seq<Int64>)
    requires |n| > 0
    ensures var pieces := SplitCommas(Join(FormatAll(n)));
      |pieces| == |n| && forall i :: 0 <= i < |n| ==> ParseInt64(pieces[i]) == Some(n[i])
  {
    forall i | 0 <= i < |n| ensures ',' !in FormatAll(n)[i] {
      FormatHasNoComma(n[i]);
    }
    SplitJoin(FormatAll(n));
    forall i | 0 <= i < |n| ensures ParseInt64(FormatAll(n)[i]) == Some(n[i]) {
      ParseFormat(n[i]);
    }
  }

  // ----- flatten on map[string]string -----

  /** The map case of flatten: 'k','v' for each entry in iteration order, with no separator between entries. */
  method FlattenMap(m: map<string, string>, order: seq<string>) returns (r: string)
    requires IsIterationOrder(order, m)
    ensures r == Concat(PairsInOrder(m, order))
  {
    r := "";
    for i := 0 to |order|
      invariant r == Concat(PairsInOrder(m, order[..i]))
    {
      var k := order[i];
      ConcatSnoc(PairsInOrder(m, order[..i]), PairText(k, m[k]));
      assert PairsInOrder(m, order[..i + 1]) == PairsInOrder(m, order[..i]) + [PairText(k, m[k])];
      ghost var before := r;
      r := r + "'" + k + "'";
      r := r + ",";
      r := r + "'" + m[k] + "'";
      PairWrites(before, k, m[k]);
    }
    assert order[..|order|] == order;
  }

  /** The three writes of one map entry append its text. */
  lemma PairWrites(r: string, k: string, v: string)
    ensures r + "'" + k + "'" + "," + "'" + v + "'" == r + PairText(k, v)
  {
    assert PairText(k, v) == "'" + k + "'" + "," + "'" + v + "'";
  }

  lemma {:induction false} ConcatSnoc(parts: seq<string>, x: string)
    ensures Concat(parts + [x]) == Concat(parts) + x
  {
    if parts != [] {
      assert (parts + [x])[1..] == parts[1..] + [x];
      ConcatSnoc(parts[1..], x);
    }
  }

  function SumPairLengths(m: map<string, string>, order: seq<string>): nat
    requires forall i :: 0 <= i < |order| ==> order[i] in m
  {
    if order == [] then 0 else |order[0]| + |m[order[0]]| + 5 + SumPairLengths(m, order[1..])
  }

  /** The length of flatten on a map: every key and value plus five characters (four quotes and a comma). */
  lemma {:induction false} FlattenMapLength(m: map<string, string>, order: seq<string>)
    requires forall i :: 0 <= i < |order| ==> order[i] in m
    ensures |Concat(PairsInOrder(m, order))| == SumPairLengths(m, order)
  {
    if order != [] {
      assert PairsInOrder(m, order)[1..] == PairsInOrder(m, order[1..]);
      FlattenMapLength(m, order[1..]);
    }
  }

  lemma {:induction false} DistinctCard(s: seq<string>)
    requires forall i, j :: 0 <= i < j < |s| ==> s[i] != s[j]
    ensures |set x | x in s| == |s|
  {
    if s != [] {
      DistinctCard(s[1..]);
      assert (set x | x in s) == {s[0]} + (set x | x in s[1..]);
      assert s[0] !in s[1..];
    }
  }

  /** On a one-entry map flatten gives exactly 'k','v', whatever the iteration order. */
  lemma FlattenSingleton(k: string, v: string, order: seq<string>)
    requires IsIterationOrder(order, map[k := v])
    ensures Concat(PairsInOrder(map[k := v], order)) == "'" + k + "','" + v + "'"
  {
    assert k in order;
    assert order[0] == k;
    DistinctCard(order);
    assert (set x | x in order) == {k};
    assert PairsInOrder(map[k := v], order) == [PairText(k, v)];
  }

  // ----- the map case: entries run together, and the separated form -----

  /**
   * With no separator between entries, the closing quote of one value and the
   * opening quote of the next key meet as '', so a two-entry map splits on ','
   * into three pieces, the middle one holding the first value and the second key.
   */
  lemma FlattenMapMergesEntries(k1: string, v1: string, k2: string, v2: string)
    requires k1 != k2
    requires ',' !in k1 && ',' !in v1 && ',' !in k2 && ',' !in v2
    ensures SplitCommas(Concat(PairsInOrder(map[k1 := v1, k2 := v2], [k1, k2])))
      == [Quoted(k1), "'" + v1 + "''" + k2 + "'", Quoted(v2)]
  {
    var parts := [Quoted(k1), "'" + v1 + "''" + k2 + "'", Quoted(v2)];
    TwoPairs(map[k1 := v1, k2 := v2], k1, k2);
    MergedJoin(k1, v1, k2, v2);
    QuotedHasNoComma(k1);
    QuotedHasNoComma(v2);
    QuotedHasNoComma(v1);
    QuotedHasNoComma(k2);
    assert parts[1] == Quoted(v1) + Quoted(k2);
    assert ',' !in parts[1];
    SplitJoin(parts);
  }

  lemma TwoPairs(m: map<string, string>, k1: string, k2: string)
    requires k1 in m && k2 in m
    ensures Concat(PairsInOrder(m, [k1, k2])) == PairText(k1, m[k1]) + PairText(k2, m[k2])
  {
    var p := PairsInOrder(m, [k1, k2]);
    assert p == [PairText(k1, m[k1]), PairText(k2, m[k2])];
    assert p[1..] == [PairText(k2, m[k2])] && p[1..][1..] == [];
    assert Concat(p[1..]) == PairText(k2, m[k2]) + Concat([]);
  }

  /** The two entries' text, read as three comma-separated pieces. */
  lemma MergedJoin(k1: string, v1: string, k2: string, v2: string)
    ensures PairText(k1, v1) + PairText(k2, v2) == Join([Quoted(k1), "'" + v1 + "''" + k2 + "'", Quoted(v2)])
  {
    var parts := [Quoted(k1), "'" + v1 + "''" + k2 + "'", Quoted(v2)];
    assert parts[1..] == [parts[1], parts[2]] && parts[1..][1..] == [parts[2]];
    assert Join(parts[1..]) == parts[1] + "," + parts[2];
    assert Join(parts) == parts[0] + "," + parts[1] + "," + parts[2];
  }

  lemma QuotedHasNoComma(s: string)
    requires ',' !in s
    ensures ',' !in Quoted(s)
  {
    assert forall i :: 0 < i < |s| + 1 ==> Quoted(s)[i] == s[i - 1];
  }

  /** The keys and values of m interleaved, in the given order. */
  function KeyValues(m: map<string, string>, order: seq<string>): (r: seq<string>)
    requires forall i :: 0 <= i < |order| ==> order[i] in m
    ensures |r| == 2 * |order|
    ensures forall i :: 0 <= i < |order| ==> r[2 * i] == order[i] && r[2 * i + 1] == m[order[i]]
  {
    if order == [] then [] else [order[0], m[order[0]]] + KeyValues(m, order[1..])
  }

  /** The map case with ',' between entries, as the json_object call expects. */
  method FlattenMapSeparated(m: map<string, string>, order: seq<string>) returns (r: string)
    requires IsIterationOrder(order, m)
    ensures r == Join(PairsInOrder(m, order))
  {
    r := "";
    for i := 0 to |order|
      invariant r == Join(PairsInOrder(m, order[..i]))
    {
      var k := order[i];
      assert PairsInOrder(m, order[..i + 1]) == PairsInOrder(m, order[..i]) + [PairText(k, m[k])];
      if i > 0 {
        JoinSnoc(PairsInOrder(m, order[..i]), PairText(k, m[k]));
        r := r + ",";
      }
      ghost var before := r;
      r := r + "'" + k + "'";
      r := r + ",";
      r := r + "'" + m[k] + "'";
      PairWrites(before, k, m[k]);
    }
    assert order[..|order|] == order;
  }

  /** Joining the entries is joining the quoted keys and values, interleaved. */
  lemma {:induction false} JoinPairs(m: map<string, string>, order: seq<string>)
    requires forall i :: 0 <= i < |order| ==> order[i] in m
    ensures Join(PairsInOrder(m, order)) == Join(QuotedAll(KeyValues(m, order)))
  {
    if order != [] {
      var k := order[0];
      var rest := QuotedAll(KeyValues(m, order[1..]));
      var pairs := PairsInOrder(m, order[1..]);
      assert PairsInOrder(m, order) == [PairText(k, m[k])] + pairs;
      assert QuotedAll(KeyValues(m, order)) == [Quoted(k)] + ([Quoted(m[k])] + rest);
      JoinPairs(m, order[1..]);
      JoinCons(PairText(k, m[k]), pairs);
      JoinCons(Quoted(k), [Quoted(m[k])] + rest);
      JoinCons(Quoted(m[k]), rest);
    }
  }

  lemma JoinCons(x: string, rest: seq<string>)
    ensures Join([x] + rest) == if rest == [] then x else x + "," + Join(rest)
  {
    assert ([x] + rest)[1..] == rest;
  }

  /**
   * With the separator, splitting on ',' gives every key and value quoted, in
   * iteration order, two pieces per entry, when no key or value holds a comma.
   */
  lemma FlattenMapSeparatedSplits(m: map<string, string>, order: seq<string>)
    requires IsIterationOrder(order, m) && |order| > 0
    requires forall k :: k in m ==> ',' !in k && ',' !in m[k]
    ensures var pieces := SplitCommas(Join(PairsInOrder(m, order)));
      && |pieces| == 2 * |order|
      && forall i :: 0 <= i < |order| ==> pieces[2 * i] == Quoted(order[i]) && pieces[2 * i + 1] == Quoted(m[order[i]])
  {
    var kv := KeyValues(m, order);
    var q := QuotedAll(kv);
    forall j | 0 <= j < |q| ensures ',' !in q[j] {
      var i := j / 2;
      if j % 2 == 0 {
        assert j == 2 * i && kv[j] == order[i];
      } else {
        assert j == 2 * i + 1 && kv[j] == m[order[i]];
      }
      QuotedHasNoComma(kv[j]);
    }
    JoinPairs(m, order);
    SplitJoin(q);
  }
}
