/** The screener page: canonical rows built from the CSV, the Top-100 tag computed once
    at load, the AND-composed filter, the header-click sort and the score tiers. */
module Screener {
  import opened Text
  import opened Values
  import opened Seqs
  import opened Ordering
  import opened Csv
  import opened Columns

  // ---- Blank handling ----

  /** The literal texts that stand for a missing value, compared lower-cased. */
  predicate IsSentinel(t: string) {
    t == "nan" || t == "null" || t == "none" || t == "undefined"
  }

  /** `norm(v)`: the trimmed text of `v`, or `""` when that is empty or a sentinel. */
  function Norm(v: JsValue): (r: string)
    ensures r == "" || r == Trim(ToStr(v))
  {
    if IsNullish(v) then ""
    else
      var s := Trim(ToStr(v));
      if s == "" || IsSentinel(Lower(s)) then "" else s
  }

  /** `toNum(v)`: the finite number the normalised text parses to, if any. */
  function ToNum(v: JsValue): (r: Option<real>)
    ensures r.Some? ==> Norm(v) != "" && ParseNumber(Norm(v)) == Finite(r.value)
  {
    var s := Norm(v);
    if s == "" then None else AsFinite(ParseNumber(s))
  }

  /** `norm` is blank exactly for null, undefined, empty text and the sentinels in any
      letter case, and otherwise keeps the trimmed text. */
  lemma NormSpec(v: JsValue)
    ensures Norm(v) == "" <==> IsNullish(v) || Trim(ToStr(v)) == "" || IsSentinel(Lower(Trim(ToStr(v))))
    ensures Norm(v) != "" ==> Norm(v) == Trim(ToStr(v))
  {
  }

  /** No sentinel survives `norm` as literal text, and `norm` is idempotent. */
  lemma NormNoSentinel(v: JsValue)
    ensures !IsSentinel(Lower(Norm(v)))
    ensures Norm(Str(Norm(v))) == Norm(v)
  {
    if Norm(v) != "" {
      TrimIdempotent(ToStr(v));
    }
  }

  /** Absent is never 0: a blank cell, which `Number` alone would read as 0, gives no
      number, and so do the sentinels. */
  lemma BlankIsNotZero(s: string)
    requires Trim(s) == "" || IsSentinel(Lower(Trim(s)))
    ensures ToNum(Str(s)) == None
  {
    assert Norm(Str(s)) == "" by { NormSpec(Str(s)); }
  }

  lemma BlankParsesToZero(s: string)
    requires Trim(s) == ""
    ensures ParseNumber(s) == Finite(0.0)
  {
  }

  /** The decimal text of an integer is non-blank, trimmed and no sentinel. */
  lemma IntTextPlain(i: int)
    ensures IntToString(i) != "" && Trim(IntToString(i)) == IntToString(i)
    ensures !IsSentinel(Lower(IntToString(i)))
  {
    var s := IntToString(i);
    IntTextTrimmed(i);
    assert Lower(s)[0] == LowerChar(s[0]);
    assert Lower(s)[0] != 'n' && Lower(s)[0] != 'u';
  }

  /** A decimal integer, as a number or as its text, reads back as itself. */
  lemma NormIntText(i: int)
    ensures Norm(Str(IntToString(i))) == IntToString(i)
  {
    var t := IntToString(i);
    IntTextPlain(i);
    assert ToStr(Str(t)) == t;
    NormOfTrimmed(Str(t), t);
  }

  lemma NormInt(i: int)
    ensures Norm(Int(i)) == IntToString(i)
  {
    var t := IntToString(i);
    IntTextPlain(i);
    assert ToStr(Int(i)) == t;
    NormOfTrimmed(Int(i), t);
  }

  lemma ToNumInt(i: int)
    ensures ToNum(Int(i)) == Some(i as real)
    ensures ToNum(Str(IntToString(i))) == Some(i as real)
  {
    NormIntText(i);
    NormInt(i);
    ParseIntRoundTrip(i);
  }

  // ---- Column resolution ----

  datatype Canon = CTicker | CName | CSector | CCap | CScore | CPrice | CAsOf
                 | CR5d | CR1m | CR3m | CR6m | CR12m | CGate

  /** `ALIAS`: the header names tried for each canonical column, in order. */
  function Aliases(c: Canon): (r: seq<string>)
    ensures r != [] && forall i :: 0 <= i < |r| ==> r[i] != ""
  {
    match c
    case CTicker => ["ticker", "symbol", "Ticker"]
    case CName => ["name", "shortName", "company_name", "company", "Name"]
    case CSector => ["sector", "gics_sector", "Sector"]
    case CCap => ["cap_bucket", "market_cap_bucket", "capBucket", "Market Cap"]
    case CScore => ["RS_Global", "rs_global", "RS", "rs", "score", "RS_Score"]
    case CPrice => ["price", "last_price", "close", "adj_close"]
    case CAsOf => ["asof_date", "as_of", "date", "asof"]
    case CR5d => ["ret_5d", "return_5d"]
    case CR1m => ["ret_1m", "return_1m"]
    case CR3m => ["ret_3m", "return_3m"]
    case CR6m => ["ret_6m", "return_6m"]
    case CR12m => ["ret_12m", "return_12m"]
    case CGate => ["gate_pass", "gate"]
  }

  /** The aliases as `pick` looks them up: lower-cased, not trimmed. */
  function Lookups(c: Canon): (r: seq<string>)
    ensures |r| == |Aliases(c)|
    ensures forall i :: 0 <= i < |r| ==> r[i] == Lower(Aliases(c)[i]) && r[i] != ""
  {
    var a := Aliases(c);
    seq(|a|, i requires 0 <= i < |a| => Lower(a[i]))
  }

  /** `pick(row, alias)`. */
  function Col(row: Obj, c: Canon): Option<string> {
    Resolve(KeyIndex(Keys(row)), Lookups(c))
  }

  /** `pick`: the `Map` from normalised keys, then the early-return loop over aliases. */
  method PickColumn(row: Obj, c: Canon) returns (r: Option<string>)
    ensures r == Col(row, c)
  {
    var idx := BuildIndex(Keys(row));
    r := Pick(idx, Lookups(c));
  }

  /** `pick` returns an actual key of the row whose trimmed, lower-cased form is one of
      the lower-cased aliases; it returns nothing exactly when no key matches any alias;
      and the earliest matching alias wins, with the last such key. */
  lemma PickSpec(row: Obj, c: Canon, i: nat)
    ensures Col(row, c).Some? ==> (Col(row, c).value in Keys(row)
      && exists a :: 0 <= a < |Lookups(c)| && KeyNorm(Col(row, c).value) == Lookups(c)[a])
    ensures Col(row, c).None? <==>
      forall a, j :: 0 <= a < |Lookups(c)| && 0 <= j < |Keys(row)| ==> KeyNorm(Keys(row)[j]) != Lookups(c)[a]
    ensures i < |Lookups(c)| && Lookups(c)[i] in KeyIndex(Keys(row))
      && (forall a :: 0 <= a < i ==> Lookups(c)[a] !in KeyIndex(Keys(row)))
      ==> Col(row, c) == Some(KeyIndex(Keys(row))[Lookups(c)[i]])
  {
    ResolveSpec(Keys(row), Lookups(c), i);
  }

  // ---- Canonical rows ----

  /** `CAP_ORD`. */
  const CapOrdTable: map<string, int> :=
    map["mega" := 1, "large" := 2, "mid" := 3, "small" := 4, "micro" := 5, "nano" := 6, "unknown" := 99]

  /** `CAP_ORD[cap.toLowerCase()] ?? 50`, for a bucket that is a key of the table or is
      not a key at all. */
  function CapOrd(cap: string): (r: int)
    ensures r == 50 || r == 99 || 1 <= r <= 6
    ensures Lower(cap) !in CapOrdTable ==> r == 50
    ensures Lower(cap) in CapOrdTable ==> r == CapOrdTable[Lower(cap)]
  {
    var k := Lower(cap);
    if k in CapOrdTable then CapOrdTable[k] else 50
  }

  /** What `CAP_ORD[k]` reads as written: `CAP_ORD` is a plain object, so a key that
      is not one of its own properties can still find an inherited member of
      `Object.prototype`. Of those, only `constructor` and `__proto__` are lower-case.
      `Inherited` carries the member's `String()` text. */
  datatype CapOrdRead = Ord(n: int) | Inherited(text: string)

  const ObjectCtorText := "function Object() { [native code] }"

  /** `CAP_ORD[cap.toLowerCase()] ?? 50` as written: an inherited member is not
      nullish, so `?? 50` keeps it. */
  function CapOrdAsWritten(cap: string): (r: CapOrdRead)
    ensures Lower(cap) in CapOrdTable ==> r == Ord(CapOrd(cap))
    ensures r.Inherited? <==> Lower(cap) == "constructor" || Lower(cap) == "__proto__"
  {
    var k := Lower(cap);
    if k in CapOrdTable then Ord(CapOrdTable[k])
    else if k == "constructor" then Inherited(ObjectCtorText)
    else if k == "__proto__" then Inherited("[object Object]")
    else Ord(50)
  }

  /** `toNum(r._capOrd)` as written. */
  function CapOrdNumAsWritten(cap: string): Option<real> {
    match CapOrdAsWritten(cap)
    case Ord(n) => ToNum(Int(n))
    case Inherited(t) => ToNum(Str(t))
  }

  lemma LowerConstructor()
    ensures Lower("constructor") == "constructor"
  {
    var l := Lower("constructor");
    assert forall i :: 0 <= i < |l| ==> l[i] == "constructor"[i];
  }

  lemma CtorTextIsBlank()
    ensures ToNum(Str(ObjectCtorText)) == None
  {
    var t := ObjectCtorText;
    assert t[0] == 'f' && t[|t| - 1] == '}' && |t| == 35;
    LetterWordIsNaN(t);
  }

  /** Text that starts with a lower-case letter, ends in no space and is longer than
      every sentinel survives `norm` and is not a number. */
  lemma LetterWordIsNaN(t: string)
    requires |t| > 9 && 'a' <= t[0] <= 'z' && !IsSpace(t[|t| - 1])
    ensures ToNum(Str(t)) == None
  {
    LetterWordTrimmed(t);
    LongNotSentinel(t);
    LetterWordSurvives(t);
    LetterWordParse(t);
  }

  lemma LetterWordTrimmed(t: string)
    requires t != [] && 'a' <= t[0] <= 'z' && !IsSpace(t[|t| - 1])
    ensures Trim(t) == t
  {
    TrimStartNoSpace(t);
    TrimEndNoSpace(t);
  }

  lemma LetterWordSurvives(t: string)
    requires t != "" && Trim(t) == t && !IsSentinel(Lower(t))
    ensures Norm(Str(t)) == t
  {
    var v := Str(t);
    assert ToStr(v) == t;
    NormOfTrimmed(v, t);
  }

  /** Text longer than nine characters lower-cases to no sentinel. */
  lemma LongNotSentinel(t: string)
    requires |t| > 9
    ensures !IsSentinel(Lower(t))
  {
    SentinelShort(Lower(t));
  }

  /** Non-blank trimmed text that is no sentinel is what `norm` returns. */
  lemma NormOfTrimmed(v: JsValue, t: string)
    requires !IsNullish(v) && Trim(ToStr(v)) == t && t != "" && !IsSentinel(Lower(t))
    ensures Norm(v) == t
  {
  }

  /** Every sentinel has at most nine characters. */
  lemma SentinelShort(x: string)
    ensures IsSentinel(x) ==> |x| <= 9
  {
  }

  lemma LetterWordParse(t: string)
    requires t != [] && 'a' <= t[0] <= 'z' && Trim(t) == t
    ensures ParseNumber(t) == NotANumber
  {
    assert t != "Infinity" by { assert t[0] != 'I'; }
    ParseLetterIsNaN(t);
  }

  lemma ConstructorNotInTable()
    ensures "constructor" !in CapOrdTable
  {
  }

  /** A row whose cap bucket is `constructor` gets `Object` itself as its ordinal, which
      `toNum` reads as blank, so it sorts after every other row in both directions,
      where the evident intent is the unknown-bucket ordinal 50. */
  lemma ConstructorCapIsBlank()
    ensures CapOrdAsWritten("constructor") == Inherited(ObjectCtorText)
    ensures CapOrdNumAsWritten("constructor") == None
    ensures CapOrd("constructor") == 50
  {
    LowerConstructor();
    ConstructorNotInTable();
    CtorTextIsBlank();
  }

  /** The corrected ordinal is a number for every bucket: 50 for any bucket outside the
      table, including the names `Object.prototype` provides. */
  lemma CapOrdAlwaysNumber(cap: string)
    ensures ToNum(Int(CapOrd(cap))) == Some(CapOrd(cap) as real)
    ensures Lower(cap) !in CapOrdTable ==> CapOrd(cap) == 50
  {
    ToNumInt(CapOrd(cap));
  }

  /** A canonical screener row. Text columns are normalised; numeric columns hold the
      raw cell. `top100` is the tag the load step sets. */
  datatype Stock = Stock(
    raw: Obj,
    ticker: string, name: string, sector: string, cap: string, capOrd: int,
    score: JsValue, price: JsValue, asof: JsValue, gate: string,
    r5d: JsValue, r1m: JsValue, r3m: JsValue, r6m: JsValue, r12m: JsValue,
    top100: bool)

  /** One row of `buildRows`, with the columns resolved from `sample`. */
  function BuildRow(sample: Obj, r: Obj): (s: Stock)
    ensures s.raw == r && !s.top100
    ensures s.sector != "" && s.cap != "" && s.capOrd == CapOrd(s.cap)
    ensures s.ticker == Norm(Cell(r, Col(sample, CTicker)))
    ensures s.score == Cell(r, Col(sample, CScore))
  {
    var cap := OrUnknown(Norm(Cell(r, Col(sample, CCap))));
    Stock(
      r,
      Norm(Cell(r, Col(sample, CTicker))),
      Norm(Cell(r, Col(sample, CName))),
      OrUnknown(Norm(Cell(r, Col(sample, CSector)))),
      cap,
      CapOrd(cap),
      Cell(r, Col(sample, CScore)),
      Cell(r, Col(sample, CPrice)),
      Cell(r, Col(sample, CAsOf)),
      Lower(Norm(Cell(r, Col(sample, CGate)))),
      Cell(r, Col(sample, CR5d)),
      Cell(r, Col(sample, CR1m)),
      Cell(r, Col(sample, CR3m)),
      Cell(r, Col(sample, CR6m)),
      Cell(r, Col(sample, CR12m)),
      false)
  }

  /** Sector and cap are the normalised cells, or `"Unknown"` when those are blank. */
  lemma BuildRowCategories(sample: Obj, r: Obj)
    ensures BuildRow(sample, r).sector ==
      (if Norm(Cell(r, Col(sample, CSector))) == "" then "Unknown" else Norm(Cell(r, Col(sample, CSector))))
    ensures BuildRow(sample, r).cap ==
      (if Norm(Cell(r, Col(sample, CCap))) == "" then "Unknown" else Norm(Cell(r, Col(sample, CCap))))
  {
    var s := BuildRow(sample, r);
    var sec := Norm(Cell(r, Col(sample, CSector)));
    var cap := Norm(Cell(r, Col(sample, CCap)));
    assert s.sector == OrUnknown(sec);
    assert s.cap == OrUnknown(cap);
  }

  /** `buildRows(parsed)`: columns are resolved once, from the first row. */
  function BuildRows(parsed: seq<Obj>): (rows: seq<Stock>)
    ensures |rows| == |parsed|
    ensures forall i :: 0 <= i < |parsed| ==> rows[i] == BuildRow(parsed[0], parsed[i])
  {
    if parsed == [] then []
    else seq(|parsed|, i requires 0 <= i < |parsed| => BuildRow(parsed[0], parsed[i]))
  }

  /** Every row of a parsed table has the keys of the first one. */
  lemma TableSameKeys(text: string)
    ensures forall i :: 0 <= i < |Table(text)| ==> Keys(Table(text)[i]) == Keys(Table(text)[0])
  {
    TableSpec(text);
  }

  lemma GetOfKey(o: Obj, k: string)
    requires k in Keys(o)
    ensures Get(o, k).Some?
  {
    GetKeys(o, k);
  }

  /** A resolved column is an actual key of the sample row. */
  lemma ColInKeys(row: Obj, c: Canon)
    ensures Col(row, c).Some? ==> Col(row, c).value in Keys(row)
  {
    var idx, ls := KeyIndex(Keys(row)), Lookups(c);
    if Col(row, c).Some? {
      var a :| 0 <= a < |ls| && Hits(idx, ls[a]) && idx[ls[a]] == Col(row, c).value;
      KeyIndexValues(Keys(row), ls[a]);
    }
  }

  /** On rows that share their keys, as `parseCSV` returns them, a resolved column is
      present in every row: `r[k]` is always the cell's text, never `undefined`. */
  lemma ResolvedPresent(parsed: seq<Obj>, i: nat, c: Canon)
    requires i < |parsed|
    requires forall j :: 0 <= j < |parsed| ==> Keys(parsed[j]) == Keys(parsed[0])
    ensures Cell(parsed[i], Col(parsed[0], c)).Str?
  {
    var k := Col(parsed[0], c);
    if k.Some? {
      ColInKeys(parsed[0], c);
      assert Keys(parsed[i]) == Keys(parsed[0]);
      GetOfKey(parsed[i], k.value);
    }
  }

  // ---- Top 100, computed once at load ----

  /** `{ t: r._ticker, s: toNum(r._score) }`. */
  datatype Ranked = Ranked(t: string, s: Option<real>)

  function RankedOf(r: Stock): Ranked {
    Ranked(r.ticker, ToNum(r.score))
  }

  predicate Eligible(x: Ranked) {
    x.t != "" && x.s.Some?
  }

  function ScoreKey(x: Ranked): SortVal {
    if x.s.Some? then Num(x.s.value) else Blank
  }

  function Pairs(rows: seq<Stock>): (r: seq<Ranked>)
    ensures |r| == |rows| && forall i :: 0 <= i < |rows| ==> r[i] == RankedOf(rows[i])
  {
    seq(|rows|, i requires 0 <= i < |rows| => RankedOf(rows[i]))
  }

  /** `ranked`: the entries with a ticker and a score, by score descending, stably. */
  function RankingOf(ps: seq<Ranked>): seq<Ranked> {
    StableSort(Select(ps, Eligible), ScoreKey, Desc)
  }

  function Min(a: int, b: int): int {
    if a < b then a else b
  }

  /** `ranked.slice(0, 100)`. */
  function TopOf(ps: seq<Ranked>): seq<Ranked> {
    var rk := RankingOf(ps);
    rk[..Min(100, |rk|)]
  }

  function Tickers(xs: seq<Ranked>): (r: seq<string>)
    ensures |r| == |xs| && forall i :: 0 <= i < |xs| ==> r[i] == xs[i].t
  {
    seq(|xs|, i requires 0 <= i < |xs| => xs[i].t)
  }

  /** `t100`: the set of the first 100 ranked tickers. */
  function TopSet(rows: seq<Stock>): set<string> {
    ToSet(Tickers(TopOf(Pairs(rows))))
  }

  /** The ranking holds exactly the eligible entries. */
  lemma RankingMembers(ps: seq<Ranked>)
    ensures forall x :: x in RankingOf(ps) <==> x in ps && Eligible(x)
    ensures |RankingOf(ps)| == |Select(ps, Eligible)|
  {
    var sel := Select(ps, Eligible);
    var rk := RankingOf(ps);
    SortPerm(sel, ScoreKey, Desc);
    assert |rk| == |multiset(rk)|;
    forall x ensures x in rk <==> x in ps && Eligible(x) {
      assert x in rk <==> x in multiset(rk);
      assert x in sel <==> x in multiset(sel);
      if x in sel {
        var k :| 0 <= k < |sel| && sel[k] == x;
      }
      if x in ps && Eligible(x) {
        var k :| 0 <= k < |ps| && ps[k] == x;
      }
    }
  }

  lemma RankingSorted(ps: seq<Ranked>)
    ensures forall i, j :: 0 <= i < j < |RankingOf(ps)| ==>
      Cmp(ScoreKey(RankingOf(ps)[i]), ScoreKey(RankingOf(ps)[j]), Desc) <= 0
  {
    SortSorted(Select(ps, Eligible), ScoreKey, Desc);
  }

  /** The ranking is by score, highest first, and every entry has a ticker and a score. */
  lemma RankingOrder(ps: seq<Ranked>)
    ensures forall i :: 0 <= i < |RankingOf(ps)| ==> Eligible(RankingOf(ps)[i])
    ensures forall i, j :: 0 <= i < j < |RankingOf(ps)| ==>
      Eligible(RankingOf(ps)[i]) && Eligible(RankingOf(ps)[j]) && RankingOf(ps)[i].s.value >= RankingOf(ps)[j].s.value
  {
    var rk := RankingOf(ps);
    RankingMembers(ps);
    assert forall i :: 0 <= i < |rk| ==> rk[i] in rk;
    RankingSorted(ps);
    forall i, j | 0 <= i < j < |rk| ensures Eligible(rk[i]) && Eligible(rk[j]) && rk[i].s.value >= rk[j].s.value {
      NumOrder(rk[i].s.value, rk[j].s.value, Desc);
    }
  }

  /** At most 100 tickers are taken, each an eligible entry's. */
  lemma TopOfSpec(ps: seq<Ranked>)
    ensures |ToSet(Tickers(TopOf(ps)))| <= 100
    ensures forall t :: t in ToSet(Tickers(TopOf(ps))) ==> exists x :: x in ps && Eligible(x) && x.t == t
  {
    var rk := RankingOf(ps);
    var top := TopOf(ps);
    RankingMembers(ps);
    forall t | t in ToSet(Tickers(top)) ensures exists x :: x in ps && Eligible(x) && x.t == t {
      var k :| 0 <= k < |top| && Tickers(top)[k] == t;
      assert rk[k] in rk;
    }
  }

  lemma TakenAbove(rk: seq<Ranked>, n: nat, x: Ranked, k: nat)
    requires k < n <= |rk|
    requires forall i, j :: 0 <= i < j < |rk| ==> Eligible(rk[i]) && Eligible(rk[j]) && rk[i].s.value >= rk[j].s.value
    requires x in rk && Eligible(x) && x.t !in ToSet(Tickers(rk[..n]))
    ensures rk[k].s.Some? && rk[k].s.value >= x.s.value
  {
    var j :| 0 <= j < |rk| && rk[j] == x;
    TakenTicker(rk, n, j);
    assert k < j;
  }

  lemma TakenTicker(xs: seq<Ranked>, n: nat, j: nat)
    requires n <= |xs| && j < |xs|
    ensures j < n ==> xs[j].t in ToSet(Tickers(xs[..n]))
  {
    if j < n {
      assert Tickers(xs[..n])[j] == xs[j].t;
    }
  }

  /** An eligible entry whose ticker is not taken scores no higher than any taken one. */
  lemma RankedBelow(ps: seq<Ranked>, x: Ranked, k: nat)
    requires x in ps && Eligible(x) && x.t !in ToSet(Tickers(TopOf(ps)))
    requires k < |TopOf(ps)|
    ensures TopOf(ps)[k].s.Some? && TopOf(ps)[k].s.value >= x.s.value
  {
    var rk := RankingOf(ps);
    RankingMembers(ps);
    RankingOrder(ps);
    TakenAbove(rk, Min(100, |rk|), x, k);
  }

  /** With at most 100 eligible entries, every one of them is taken. */
  lemma AllTakenWhenFew(ps: seq<Ranked>, x: Ranked)
    requires |Select(ps, Eligible)| <= 100
    requires x in ps && Eligible(x)
    ensures x.t in ToSet(Tickers(TopOf(ps)))
  {
    RankingMembers(ps);
    FewAllTaken(RankingOf(ps), x);
  }

  lemma FewAllTaken(rk: seq<Ranked>, x: Ranked)
    requires x in rk && |rk| <= 100
    ensures x.t in ToSet(Tickers(rk[..Min(100, |rk|)]))
  {
    var j :| 0 <= j < |rk| && rk[j] == x;
    TakenTicker(rk, |rk|, j);
  }

  lemma PairOfRow(rows: seq<Stock>, r: Stock)
    requires r in rows
    ensures RankedOf(r) in Pairs(rows)
  {
    var i :| 0 <= i < |rows| && rows[i] == r;
    assert Pairs(rows)[i] == RankedOf(r);
  }

  lemma RowOfTaken(rows: seq<Stock>, t: string)
    requires exists x :: x in Pairs(rows) && Eligible(x) && x.t == t
    ensures exists i :: 0 <= i < |rows| && rows[i].ticker == t && Eligible(RankedOf(rows[i]))
  {
    var ps := Pairs(rows);
    var x :| x in ps && Eligible(x) && x.t == t;
    var i :| 0 <= i < |ps| && ps[i] == x;
  }

  /** At most 100 tickers are tagged, each one the ticker of some row that has a
      ticker and a finite score. */
  lemma TopSetSpec(rows: seq<Stock>)
    ensures |TopSet(rows)| <= 100
    ensures forall t :: t in TopSet(rows) ==> exists i :: 0 <= i < |rows| && rows[i].ticker == t && Eligible(RankedOf(rows[i]))
  {
    var ps := Pairs(rows);
    var ts := TopSet(rows);
    assert ts == ToSet(Tickers(TopOf(ps)));
    TopOfSpec(ps);
    forall t | t in ts
      ensures exists i :: 0 <= i < |rows| && rows[i].ticker == t && Eligible(RankedOf(rows[i]))
    {
      RowOfTaken(rows, t);
    }
  }

  /** A row with a ticker and a score that is not tagged scores no higher than any of
      the top 100. */
  lemma UntaggedBelowTop(rows: seq<Stock>, r: Stock, k: nat)
    requires r in rows && Eligible(RankedOf(r)) && r.ticker !in TopSet(rows)
    requires k < |TopOf(Pairs(rows))|
    ensures TopOf(Pairs(rows))[k].s.Some? && TopOf(Pairs(rows))[k].s.value >= ToNum(r.score).value
  {
    PairOfRow(rows, r);
    RankedBelow(Pairs(rows), RankedOf(r), k);
  }

  /** When no two rows share a ticker, a tagged row has a score, and that score is at
      least the score of every untagged row that has a ticker and a score. */
  lemma TaggedAboveUntagged(rows: seq<Stock>, r: Stock, u: Stock)
    requires forall i, j :: 0 <= i < j < |rows| && rows[i].ticker != "" ==> rows[i].ticker != rows[j].ticker
    requires r in rows && r.ticker in TopSet(rows)
    requires u in rows && Eligible(RankedOf(u)) && u.ticker !in TopSet(rows)
    ensures ToNum(r.score).Some? && ToNum(r.score).value >= ToNum(u.score).value
  {
    var ps := Pairs(rows);
    var top := TopOf(ps);
    assert r.ticker in Tickers(top);
    var k :| 0 <= k < |top| && Tickers(top)[k] == r.ticker;
    TakenRow(rows, k);
    var i :| 0 <= i < |rows| && RankedOf(rows[i]) == top[k];
    var j :| 0 <= j < |rows| && rows[j] == r;
    SameTickerSameRow(rows, i, j);
    PairOfRow(rows, u);
    RankedBelow(ps, RankedOf(u), k);
  }

  lemma SameTickerSameRow(rows: seq<Stock>, i: nat, j: nat)
    requires forall i, j :: 0 <= i < j < |rows| && rows[i].ticker != "" ==> rows[i].ticker != rows[j].ticker
    requires i < |rows| && j < |rows| && rows[i].ticker != "" && rows[i].ticker == rows[j].ticker
    ensures i == j
  {
  }

  /** Every taken entry is the entry of a row. */
  lemma TakenRow(rows: seq<Stock>, k: nat)
    requires k < |TopOf(Pairs(rows))|
    ensures Eligible(TopOf(Pairs(rows))[k])
    ensures exists i :: 0 <= i < |rows| && RankedOf(rows[i]) == TopOf(Pairs(rows))[k]
  {
    var ps := Pairs(rows);
    var rk := RankingOf(ps);
    assert TopOf(ps)[k] == rk[k];
    RankingMembers(ps);
    assert rk[k] in rk;
    var i :| 0 <= i < |ps| && ps[i] == rk[k];
  }

  /** Tagging goes by ticker, not by row: a row without a score that repeats a Top-100
      ticker is tagged too, and leaves the Top-100 set as it was. */
  lemma ScorelessDuplicateTagged(rows: seq<Stock>, d: Stock)
    requires d.ticker in TopSet(rows) && ToNum(d.score).None?
    ensures TopSet(rows + [d]) == TopSet(rows)
    ensures Tag(rows + [d], TopSet(rows + [d]))[|rows|].top100
  {
    ScorelessAppended(rows, d);
    assert (rows + [d])[|rows|] == d;
  }

  lemma ScorelessAppended(rows: seq<Stock>, d: Stock)
    requires ToNum(d.score).None?
    ensures Select(Pairs(rows + [d]), Eligible) == Select(Pairs(rows), Eligible)
  {
    var ps := Pairs(rows);
    assert Pairs(rows + [d]) == ps + [RankedOf(d)];
    SelectAppend(ps, [RankedOf(d)], Eligible);
    assert Select([RankedOf(d)], Eligible) == [];
  }

  /** With at most 100 rows that have a ticker and a score, every one of them is tagged. */
  lemma AllTaggedWhenFew(rows: seq<Stock>, r: Stock)
    requires |Select(Pairs(rows), Eligible)| <= 100
    requires r in rows && Eligible(RankedOf(r))
    ensures r.ticker in TopSet(rows)
  {
    PairOfRow(rows, r);
    AllTakenWhenFew(Pairs(rows), RankedOf(r));
  }

  /** `r._top100 = t100.has(r._ticker)` for every row. */
  function Tag(rows: seq<Stock>, t100: set<string>): (r: seq<Stock>)
    ensures |r| == |rows|
    ensures forall i :: 0 <= i < |rows| ==> r[i] == rows[i].(top100 := rows[i].ticker in t100)
  {
    seq(|rows|, i requires 0 <= i < |rows| => rows[i].(top100 := rows[i].ticker in t100))
  }

  /** The `forEach` that sets `_top100` on every row object in place. */
  method TagRows(a: array<Stock>, t100: set<string>)
    modifies a
    ensures a[..] == Tag(old(a[..]), t100)
  {
    for i := 0 to a.Length
      invariant forall j :: 0 <= j < i ==> a[j] == old(a[j]).(top100 := old(a[j]).ticker in t100)
      invariant forall j :: i <= j < a.Length ==> a[j] == old(a[j])
    {
      a[i] := a[i].(top100 := a[i].ticker in t100);
    }
  }

  /** The rows as loaded: parsed, built, then tagged against the whole table. */
  function Loaded(text: string): seq<Stock> {
    var built := BuildRows(Table(text));
    Tag(built, TopSet(built))
  }

  /** The load step on the fetched text: parse, build, rank, tag. */
  method Load(text: string) returns (rows: seq<Stock>)
    ensures rows == Loaded(text)
  {
    var parsed := ParseCSV(text);
    var built := BuildRows(parsed);
    rows := TagTop100(built);
  }

  /** Ranks the built rows and tags each row object in place. */
  method TagTop100(built: seq<Stock>) returns (rows: seq<Stock>)
    ensures rows == Tag(built, TopSet(built))
  {
    rows := TagCopy(built, TopSet(built));
  }

  /** The row objects placed in an array and tagged there. */
  method TagCopy(built: seq<Stock>, t100: set<string>) returns (rows: seq<Stock>)
    ensures rows == Tag(built, t100)
  {
    var a := new Stock[|built|](i requires 0 <= i < |built| => built[i]);
    TagRows(a, t100);
    rows := a[..];
  }

  /** Tagging does not change the ranking, so the tags agree with a recomputation. */
  lemma TagKeepsRanking(rows: seq<Stock>, t100: set<string>)
    ensures Pairs(Tag(rows, t100)) == Pairs(rows)
    ensures TopSet(Tag(rows, t100)) == TopSet(rows)
  {
    assert Pairs(Tag(rows, t100)) == Pairs(rows);
  }

  // ---- Filtering ----

  datatype Filters = Filters(q: string, sector: string, cap: string, top100: bool)

  /** The filter memo's test for one row. */
  predicate Matches(f: Filters, r: Stock) {
    var query := Upper(Norm(Str(f.q)));
    && (query == "" || Contains(Upper(Norm(Str(r.ticker))), query) || Contains(Upper(Norm(Str(r.name))), query))
    && (f.sector == "All" || r.sector == f.sector)
    && (f.cap == "All" || r.cap == f.cap)
    && (!f.top100 || r.top100)
  }

  function Filtered(rows: seq<Stock>, f: Filters): seq<Stock> {
    Select(rows, r => Matches(f, r))
  }

  /** The filtered rows are an order-preserving subsequence of the rows, holding exactly
      the rows that pass every enabled test. */
  lemma FilteredSpec(rows: seq<Stock>, f: Filters)
    ensures IsSubsequence(Filtered(rows, f), rows)
    ensures forall r :: r in Filtered(rows, f) ==> r in rows && Matches(f, r)
    ensures forall r :: r in rows && Matches(f, r) ==> r in Filtered(rows, f)
  {
    SelectIsSubsequence(rows, r => Matches(f, r));
    var fr := Filtered(rows, f);
    forall r | r in fr ensures r in rows && Matches(f, r) {
      var i :| 0 <= i < |fr| && fr[i] == r;
    }
    forall r | r in rows && Matches(f, r) ensures r in fr {
      var i :| 0 <= i < |rows| && rows[i] == r;
    }
  }

  /** With every filter off, nothing is removed. */
  lemma NoFilters(rows: seq<Stock>)
    ensures Filtered(rows, Filters("", "All", "All", false)) == rows
  {
    var f := Filters("", "All", "All", false);
    assert Norm(Str("")) == "";
    ExactSelect(rows, r => Matches(f, r));
  }

  lemma {:induction false} ExactSelect<T>(xs: seq<T>, p: T -> bool)
    requires forall x :: x in xs ==> p(x)
    ensures Select(xs, p) == xs
  {
    if xs != [] {
      ExactSelect(xs[1..], p);
      assert [xs[0]] + xs[1..] == xs;
    }
  }

  /** Turning the Top-100 toggle on keeps a subsequence of what it shows off. */
  lemma Top100Narrows(rows: seq<Stock>, f: Filters)
    ensures IsSubsequence(Filtered(rows, f.(top100 := true)), Filtered(rows, f.(top100 := false)))
  {
    var on, off := f.(top100 := true), f.(top100 := false);
    forall r | r in rows && Matches(on, r) ensures Matches(off, r) {
      PassesTop100(f, r);
    }
    SelectMonotone(rows, r => Matches(on, r), r => Matches(off, r));
  }

  lemma PassesTop100(f: Filters, r: Stock)
    ensures Matches(f.(top100 := true), r) ==> Matches(f.(top100 := false), r)
  {
  }

  /** Gated rows are only dimmed (`_gate === "false"`): the gate takes no part in filtering. */
  lemma GateIgnored(f: Filters, r: Stock, g: string)
    ensures Matches(f, r.(gate := g)) == Matches(f, r)
  {
  }

  predicate Dimmed(r: Stock) {
    r.gate == "false"
  }

  /** Tags are assigned before any filter: a shown row's tag is its ticker's membership
      in the Top-100 set of the whole table, whatever the filters. */
  lemma TagsPrecedeFilters(text: string, f: Filters)
    ensures forall r :: r in Filtered(Loaded(text), f) ==>
      r.top100 == (r.ticker in TopSet(BuildRows(Table(text))))
  {
    var built := BuildRows(Table(text));
    FilteredTags(built, TopSet(built), f);
  }

  /** A row that passes the filters carries the tag it was given before filtering. */
  lemma FilteredTags(built: seq<Stock>, t100: set<string>, f: Filters)
    ensures forall r :: r in Filtered(Tag(built, t100), f) ==> r.top100 == (r.ticker in t100)
  {
    var rows := Tag(built, t100);
    FilteredSpec(rows, f);
    forall r | r in Filtered(rows, f) ensures r.top100 == (r.ticker in t100) {
      var i :| 0 <= i < |rows| && rows[i] == r;
    }
  }

  // ---- Sorting ----

  datatype SortKey = KTicker | KName | KSector | KCap | KScore | KPrice | KCapOrd
                   | KR5d | KR1m | KR3m | KR6m | KR12m

  /** `numKeys`. */
  predicate IsNumKey(k: SortKey) {
    k in {KScore, KPrice, KCapOrd, KR5d, KR1m, KR3m, KR6m, KR12m}
  }

  /** `textKeys` of `doSort`. */
  predicate IsTextKey(k: SortKey) {
    k in {KTicker, KName, KSector, KCap}
  }

  /** `a[sortKey]`. */
  function FieldOf(k: SortKey, r: Stock): JsValue {
    match k
    case KTicker => Str(r.ticker)
    case KName => Str(r.name)
    case KSector => Str(r.sector)
    case KCap => Str(r.cap)
    case KScore => r.score
    case KPrice => r.price
    case KCapOrd => Int(r.capOrd)
    case KR5d => r.r5d
    case KR1m => r.r1m
    case KR3m => r.r3m
    case KR6m => r.r6m
    case KR12m => r.r12m
  }

  /** The comparator's view of a row: `toNum` for numeric keys, `norm` otherwise, with
      null and `""` blank. */
  function SortValue(k: SortKey, r: Stock): (v: SortVal)
    ensures IsNumKey(k) ==> !v.Txt?
    ensures !IsNumKey(k) ==> !v.Num?
  {
    if IsNumKey(k) then
      match ToNum(FieldOf(k, r)) case None => Blank case Some(x) => Num(x)
    else
      var s := Norm(FieldOf(k, r));
      if s == "" then Blank else Txt(s)
  }

  function KeyFn(k: SortKey): Stock -> SortVal {
    r => SortValue(k, r)
  }

  /** The sort memo: a stable sort of a copy under the comparator. */
  function Sorted(rows: seq<Stock>, k: SortKey, d: Dir): seq<Stock> {
    StableSort(rows, KeyFn(k), d)
  }

  /** The sorted rows are a permutation of the filtered ones; blank rows come after all
      valued rows in both directions; numbers are ordered by value and text by code
      point, times the direction; ties keep their input order. */
  lemma SortedSpec(rows: seq<Stock>, k: SortKey, d: Dir)
    ensures multiset(Sorted(rows, k, d)) == multiset(rows)
    ensures forall i, j :: 0 <= i < j < |Sorted(rows, k, d)| && SortValue(k, Sorted(rows, k, d)[i]) == Blank
              ==> SortValue(k, Sorted(rows, k, d)[j]) == Blank
    ensures forall i, j :: 0 <= i < j < |Sorted(rows, k, d)| ==>
              var a, b := SortValue(k, Sorted(rows, k, d)[i]), SortValue(k, Sorted(rows, k, d)[j]);
              (a.Num? && b.Num? ==> (if d == Asc then a.n <= b.n else a.n >= b.n))
              && (a.Txt? && b.Txt? ==> (if d == Asc then LexCmp(a.s, b.s) <= 0 else LexCmp(b.s, a.s) <= 0))
    ensures forall v :: Class(Sorted(rows, k, d), KeyFn(k), v) == Class(rows, KeyFn(k), v)
  {
    var key := KeyFn(k);
    var s := Sorted(rows, k, d);
    SortSpec(rows, key, d);
    forall i, j | 0 <= i < j < |s|
      ensures var a, b := SortValue(k, s[i]), SortValue(k, s[j]);
              (a.Num? && b.Num? ==> (if d == Asc then a.n <= b.n else a.n >= b.n))
              && (a.Txt? && b.Txt? ==> (if d == Asc then LexCmp(a.s, b.s) <= 0 else LexCmp(b.s, a.s) <= 0))
    {
      var a, b := SortValue(k, s[i]), SortValue(k, s[j]);
      assert Cmp(key(s[i]), key(s[j]), d) <= 0;
      if a.Num? && b.Num? {
        NumOrder(a.n, b.n, d);
      }
      if a.Txt? && b.Txt? {
        TxtOrder(a.s, b.s, d);
      }
    }
  }

  /** The cap column sorts by the bucket ordinal, which is always a number. */
  lemma CapOrdSortsAsNumber(r: Stock)
    ensures SortValue(KCapOrd, r) == Num(r.capOrd as real)
  {
    assert FieldOf(KCapOrd, r) == Int(r.capOrd);
    assert ToNum(Int(r.capOrd)) == Some(r.capOrd as real) by { ToNumInt(r.capOrd); }
    assert IsNumKey(KCapOrd);
  }

  datatype SortState = SortState(key: SortKey, dir: Dir)

  const InitialSort := SortState(KScore, Desc)

  /** `doSort(key)`: the same key flips the direction; a new key sorts text ascending
      and numbers descending. */
  function DoSort(st: SortState, key: SortKey): (r: SortState)
    ensures r.key == key
  {
    if st.key == key then st.(dir := Flip(st.dir))
    else SortState(key, if IsTextKey(key) then Asc else Desc)
  }

  /** Clicking the same header twice restores the state. A new header starts in the
      direction its kind calls for: ascending exactly for the keys the sort compares as
      text. */
  lemma DoSortSpec(st: SortState, key: SortKey)
    ensures DoSort(DoSort(st, key), key).key == key
    ensures st.key == key ==> DoSort(DoSort(st, key), key) == st && DoSort(st, key).dir != st.dir
    ensures st.key != key ==> (DoSort(st, key).dir == Asc <==> !IsNumKey(key))
  {
  }

  // ---- Tiers ----

  datatype Tier = Leadership | Positive | Neutral | Caution | Avoid

  /** `TierBadge`'s thresholds. */
  function TierOf(score: real): Tier {
    if score >= 90.0 then Leadership
    else if score >= 80.0 then Positive
    else if score >= 70.0 then Neutral
    else if score >= 60.0 then Caution
    else Avoid
  }

  /** The badge: no tier (the `"—"` placeholder) for a missing score. */
  function Badge(score: Option<real>): (r: Option<Tier>)
    ensures r.None? <==> score.None?
  {
    match score case None => None case Some(x) => Some(TierOf(x))
  }

  function TierRank(t: Tier): nat {
    match t case Avoid => 0 case Caution => 1 case Neutral => 2 case Positive => 3 case Leadership => 4
  }

  /** Each tier is a half-open score band, and a higher score never gets a lower tier. */
  lemma TierBands(x: real, y: real)
    ensures TierOf(x) == Leadership <==> x >= 90.0
    ensures TierOf(x) == Positive <==> 80.0 <= x < 90.0
    ensures TierOf(x) == Neutral <==> 70.0 <= x < 80.0
    ensures TierOf(x) == Caution <==> 60.0 <= x < 70.0
    ensures TierOf(x) == Avoid <==> x < 60.0
    ensures x <= y ==> TierRank(TierOf(x)) <= TierRank(TierOf(y))
  {
  }

  // ---- Derived values ----

  /** The `asOf` memo: the normalised `_asof` of the first row that has one, else `"—"`. */
  function AsOf(rows: seq<Stock>): (r: string)
    ensures r != ""
  {
    FirstNonEmpty(rows, StockAsOf, "—")
  }

  /** `norm(r._asof)`. */
  function StockAsOf(r: Stock): string {
    Norm(r.asof)
  }

  /** The date shown is the first row's that has one; when no row has one it is the
      placeholder. */
  lemma AsOfSpec(rows: seq<Stock>, i: nat)
    ensures (forall j :: 0 <= j < |rows| ==> Norm(rows[j].asof) == "") ==> AsOf(rows) == "—"
    ensures i < |rows| && Norm(rows[i].asof) != "" && (forall j :: 0 <= j < i ==> Norm(rows[j].asof) == "")
      ==> AsOf(rows) == Norm(rows[i].asof)
  {
    if forall j :: 0 <= j < |rows| ==> Norm(rows[j].asof) == "" {
      FirstNonEmptyNone(rows, StockAsOf, "—");
    }
    if i < |rows| && Norm(rows[i].asof) != "" && (forall j :: 0 <= j < i ==> Norm(rows[j].asof) == "") {
      FirstNonEmptyFirst(rows, StockAsOf, "—", i);
    }
  }

  function NormAll(vals: seq<JsValue>): (r: seq<string>)
    ensures |r| == |vals| && forall i :: 0 <= i < |vals| ==> r[i] == Norm(vals[i])
  {
    seq(|vals|, i requires 0 <= i < |vals| => Norm(vals[i]))
  }

  /** `uniqueSorted(vals)`. */
  function UniqueSorted(vals: seq<JsValue>): seq<string> {
    SortedDistinct(Select(NormAll(vals), NonEmpty))
  }

  /** The distinct non-blank normalised values, strictly increasing. */
  lemma UniqueSortedSpec(vals: seq<JsValue>)
    ensures forall i, j :: 0 <= i < j < |UniqueSorted(vals)| ==> LexCmp(UniqueSorted(vals)[i], UniqueSorted(vals)[j]) < 0
    ensures forall s :: s in UniqueSorted(vals) <==> s != "" && exists i :: 0 <= i < |vals| && Norm(vals[i]) == s
  {
    SortedDistinctIncreasing(Select(NormAll(vals), NonEmpty));
    UniqueSortedMembers(vals);
  }

  lemma UniqueSortedMembers(vals: seq<JsValue>)
    ensures forall s :: s in UniqueSorted(vals) <==> s != "" && exists i :: 0 <= i < |vals| && Norm(vals[i]) == s
  {
    SortedNonEmptyMembers(NormAll(vals));
    NormAllMembers(vals);
  }

  lemma NormAllMembers(vals: seq<JsValue>)
    ensures forall s :: s in NormAll(vals) <==> exists i :: 0 <= i < |vals| && Norm(vals[i]) == s
  {
    var ns := NormAll(vals);
    forall s ensures s in ns <==> exists i :: 0 <= i < |vals| && Norm(vals[i]) == s {
      if s in ns {
        var i :| 0 <= i < |ns| && ns[i] == s;
      }
      if exists i :: 0 <= i < |vals| && Norm(vals[i]) == s {
        var i :| 0 <= i < |vals| && Norm(vals[i]) == s;
        assert ns[i] == s;
      }
    }
  }

  function Sectors(rows: seq<Stock>): (r: seq<JsValue>)
    ensures |r| == |rows| && forall i :: 0 <= i < |rows| ==> r[i] == Str(rows[i].sector)
  {
    seq(|rows|, i requires 0 <= i < |rows| => Str(rows[i].sector))
  }

  function Caps(rows: seq<Stock>): (r: seq<JsValue>)
    ensures |r| == |rows| && forall i :: 0 <= i < |rows| ==> r[i] == Str(rows[i].cap)
  {
    seq(|rows|, i requires 0 <= i < |rows| => Str(rows[i].cap))
  }

  /** `sectorOpts` and `capOpts`: `"All"` first, then the sorted distinct values. */
  function SectorOptions(rows: seq<Stock>): (r: seq<string>)
    ensures r != [] && r[0] == "All"
    ensures r[1..] == UniqueSorted(Sectors(rows))
  {
    ["All"] + UniqueSorted(Sectors(rows))
  }

  function CapOptions(rows: seq<Stock>): (r: seq<string>)
    ensures r != [] && r[0] == "All"
    ensures r[1..] == UniqueSorted(Caps(rows))
  {
    ["All"] + UniqueSorted(Caps(rows))
  }
}
