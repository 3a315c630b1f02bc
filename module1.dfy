/** The relative-strength page: the earlier copy of the pipeline, with its own blank
    test, trimmed alias matching, rows normalised by successive property assignment,
    an industry filter, ticker-only search and a free-standing direction toggle. */
module RelativeStrength {
  import opened Text
  import opened Values
  import opened Seqs
  import opened Ordering
  import opened Csv
  import opened Columns

  // ---- Blank handling ----

  /** `normStr(v)`: only `"nan"`, in any letter case, is a sentinel. */
  function NormStr(v: JsValue): (r: string)
    ensures r == "" || r == Trim(ToStr(v))
  {
    if IsNullish(v) then ""
    else
      var s := Trim(ToStr(v));
      if s == "" || Lower(s) == "nan" then "" else s
  }

  /** `toNum(v)` over `normStr`. */
  function ToNum(v: JsValue): (r: Option<real>)
    ensures r.Some? ==> NormStr(v) != "" && ParseNumber(NormStr(v)) == Finite(r.value)
  {
    var s := NormStr(v);
    if s == "" then None else AsFinite(ParseNumber(s))
  }

  /** `normStr` is blank exactly for null, undefined, empty text and `nan`. */
  lemma NormStrSpec(v: JsValue)
    ensures NormStr(v) == "" <==> IsNullish(v) || Trim(ToStr(v)) == "" || Lower(Trim(ToStr(v))) == "nan"
    ensures NormStr(v) != "" ==> NormStr(v) == Trim(ToStr(v))
  {
  }

  /** The literal texts `null` and `none` survive `normStr`, unlike in the screener's
      `norm`; `toNum` still reads them as no number, since they do not parse. */
  lemma LiteralNullSurvives(s: string)
    requires s == "null" || s == "none"
    ensures NormStr(Str(s)) == s && ToNum(Str(s)) == None
  {
    LetterTextNaN(s);
  }

  lemma LetterTextSurvives(s: string)
    requires |s| == 4 && forall i :: 0 <= i < 4 ==> 'a' <= s[i] <= 'z'
    ensures NormStr(Str(s)) == s
  {
    forall i | 0 <= i < |s| ensures !IsSpace(s[i]) {
      assert 'a' <= s[i] <= 'z';
    }
    SpacelessText(s);
    assert |Lower(s)| == 4;
  }

  /** Text without spaces is its own `String(v).trim()`. */
  lemma SpacelessText(s: string)
    requires forall i :: 0 <= i < |s| ==> !IsSpace(s[i])
    ensures Trim(ToStr(Str(s))) == s
  {
    TrimNoSpaces(s);
  }

  lemma LetterTextNaN(s: string)
    requires |s| == 4 && forall i :: 0 <= i < 4 ==> 'a' <= s[i] <= 'z'
    ensures NormStr(Str(s)) == s && ToNum(Str(s)) == None
  {
    LetterTextSurvives(s);
    LetterTextParse(s);
  }

  /** Four lower-case letters are not a number. */
  lemma LetterTextParse(s: string)
    requires |s| == 4 && forall i :: 0 <= i < 4 ==> 'a' <= s[i] <= 'z'
    ensures ParseNumber(s) == NotANumber
  {
    var t := Trim(s);
    assert t == s by { LettersTrimmed(s); }
    assert t != [] && t != "Infinity" by { assert |t| == 4; }
    assert 'a' <= t[0] <= 'z';
    ParseLetterIsNaN(s);
  }

  /** Lower-case letters are their own trim. */
  lemma LettersTrimmed(s: string)
    requires forall i :: 0 <= i < |s| ==> 'a' <= s[i] <= 'z'
    ensures Trim(s) == s
  {
    forall i | 0 <= i < |s| ensures !IsSpace(s[i]) {
      assert 'a' <= s[i] <= 'z';
    }
    TrimNoSpaces(s);
  }

  /** Absent is never 0: blank text and `nan` give no number. */
  lemma BlankIsNotZero(s: string)
    requires Trim(s) == "" || Lower(Trim(s)) == "nan"
    ensures ToNum(Str(s)) == None
  {
    assert ToStr(Str(s)) == s;
    BlankNoNumber(Str(s));
  }

  lemma BlankNoNumber(v: JsValue)
    requires !IsNullish(v) && (Trim(ToStr(v)) == "" || Lower(Trim(ToStr(v))) == "nan")
    ensures ToNum(v) == None
  {
    assert NormStr(v) == "";
  }

  // ---- Column resolution ----

  datatype Logical = LTicker | LSector | LIndustry | LCap | LRs | LPrice | LAsOf
                   | LR5d | LR1m | LR3m | LR6m | LR12m | LVol | LMaxDd

  /** `ALIASES`. */
  function Aliases(l: Logical): (r: seq<string>)
    ensures r != [] && forall i :: 0 <= i < |r| ==> r[i] != "" && ('a' <= r[i][0] <= 'z' || 'A' <= r[i][0] <= 'Z')
  {
    match l
    case LTicker => ["ticker", "symbol"]
    case LSector => ["sector", "gics_sector", "Sector"]
    case LIndustry => ["industry", "gics_industry", "Industry"]
    case LCap => ["cap_bucket", "market_cap_bucket", "Market Cap", "capBucket"]
    case LRs => ["RS_Global", "rs_global", "RS", "rs", "RS Score", "RS_Score"]
    case LPrice => ["price", "last_price", "close", "Adj_Close"]
    case LAsOf => ["asof_date", "as_of", "date", "asof"]
    case LR5d => ["ret_5d", "ret_5", "ret_1w", "ret_7d"]
    case LR1m => ["ret_1m", "return_1m", "r1m"]
    case LR3m => ["ret_3m", "return_3m", "r3m"]
    case LR6m => ["ret_6m", "return_6m", "r6m"]
    case LR12m => ["ret_12m", "return_12m", "r12m"]
    case LVol => ["vol_63", "volatility_63d", "volatility (63d)", "Volatility (63d)"]
    case LMaxDd => ["max_dd_252", "max_dd_1y", "max_drawdown_252", "Max Drawdown (1Y)"]
  }

  /** The candidates as `pickKey` looks them up: `normKey` of each alias. */
  function Lookups(l: Logical): (r: seq<string>)
    ensures |r| == |Aliases(l)|
    ensures forall i :: 0 <= i < |r| ==> r[i] == KeyNorm(Aliases(l)[i])
  {
    var a := Aliases(l);
    seq(|a|, i requires 0 <= i < |a| => KeyNorm(a[i]))
  }

  /** No alias normalises to `""`. */
  lemma LookupsNonBlank(l: Logical)
    ensures forall i :: 0 <= i < |Lookups(l)| ==> Lookups(l)[i] != ""
  {
    var a := Aliases(l);
    forall i | 0 <= i < |a| ensures Lookups(l)[i] != "" {
      TrimNonBlank(a[i]);
    }
  }

  function PickKey(row: Obj, l: Logical): Option<string> {
    Resolve(KeyIndex(Keys(row)), Lookups(l))
  }

  /** `pickKey`: the `Map` from `normKey` of each key, then the early-return loop. */
  method PickKeyLoop(row: Obj, l: Logical) returns (r: Option<string>)
    ensures r == PickKey(row, l)
  {
    var idx := BuildIndex(Keys(row));
    r := Pick(idx, Lookups(l));
  }

  /** `pickKey` matches trimmed and lower-cased on both sides: it returns an actual key
      whose `normKey` is one of the normalised aliases; it returns nothing exactly when
      no key matches any alias; and the earliest matching alias wins. */
  lemma PickKeySpec(row: Obj, l: Logical, i: nat)
    ensures PickKey(row, l).Some? ==> (PickKey(row, l).value in Keys(row)
      && exists a :: 0 <= a < |Lookups(l)| && KeyNorm(PickKey(row, l).value) == Lookups(l)[a])
    ensures PickKey(row, l).None? <==>
      forall a, j :: 0 <= a < |Lookups(l)| && 0 <= j < |Keys(row)| ==> KeyNorm(Keys(row)[j]) != Lookups(l)[a]
    ensures i < |Lookups(l)| && Lookups(l)[i] in KeyIndex(Keys(row))
      && (forall a :: 0 <= a < i ==> Lookups(l)[a] !in KeyIndex(Keys(row)))
      ==> PickKey(row, l) == Some(KeyIndex(Keys(row))[Lookups(l)[i]])
  {
    LookupsNonBlank(l);
    ResolveSpec(Keys(row), Lookups(l), i);
  }

  // ---- Normalised rows ----

  /** The columns resolved once from the first row. */
  datatype Resolved = Resolved(
    ticker: Option<string>, sector: Option<string>, industry: Option<string>, cap: Option<string>,
    rs: Option<string>, price: Option<string>, asof: Option<string>,
    r5d: Option<string>, r1m: Option<string>, r3m: Option<string>, r6m: Option<string>, r12m: Option<string>,
    vol: Option<string>, maxDd: Option<string>)

  function ResolvedOf(sample: Obj): Resolved {
    Resolved(
      PickKey(sample, LTicker), PickKey(sample, LSector), PickKey(sample, LIndustry), PickKey(sample, LCap),
      PickKey(sample, LRs), PickKey(sample, LPrice), PickKey(sample, LAsOf),
      PickKey(sample, LR5d), PickKey(sample, LR1m), PickKey(sample, LR3m), PickKey(sample, LR6m), PickKey(sample, LR12m),
      PickKey(sample, LVol), PickKey(sample, LMaxDd))
  }

  /** The fourteen `pickKey(sample, ...)` calls. */
  method ResolveColumns(sample: Obj) returns (ks: Resolved)
    ensures ks == ResolvedOf(sample)
  {
    var kTicker := PickKeyLoop(sample, LTicker);
    var kSector := PickKeyLoop(sample, LSector);
    var kIndustry := PickKeyLoop(sample, LIndustry);
    var kCap := PickKeyLoop(sample, LCap);
    var kRs := PickKeyLoop(sample, LRs);
    var kPrice := PickKeyLoop(sample, LPrice);
    var kAsOf := PickKeyLoop(sample, LAsOf);
    var kR5 := PickKeyLoop(sample, LR5d);
    var kR1 := PickKeyLoop(sample, LR1m);
    var kR3 := PickKeyLoop(sample, LR3m);
    var kR6 := PickKeyLoop(sample, LR6m);
    var kR12 := PickKeyLoop(sample, LR12m);
    var kVol := PickKeyLoop(sample, LVol);
    var kDd := PickKeyLoop(sample, LMaxDd);
    ks := Resolved(kTicker, kSector, kIndustry, kCap, kRs, kPrice, kAsOf, kR5, kR1, kR3, kR6, kR12, kVol, kDd);
  }

  /** A normalised row: the copied properties of the parsed row (`{ ...r }`) and the
      canonical `__` properties, `undefined` until assigned. */
  datatype Row = Row(
    raw: Obj,
    ticker: JsValue, sector: JsValue, industry: JsValue, cap: JsValue,
    rs: JsValue, price: JsValue, asof: JsValue,
    r5d: JsValue, r1m: JsValue, r3m: JsValue, r6m: JsValue, r12m: JsValue,
    vol: JsValue, maxDd: JsValue)

  /** `{ ...r }`. */
  function Spread(r: Obj): (o: Row)
    ensures o.raw == r
  {
    Row(r, Undefined, Undefined, Undefined, Undefined, Undefined, Undefined, Undefined,
      Undefined, Undefined, Undefined, Undefined, Undefined, Undefined, Undefined)
  }

  /** One output row: a copy of `r`, then one assignment per canonical property. The
      text properties are normalised, with `"Unknown"` for the three categories; the
      numeric ones are the raw cell, `""` when their column is unresolved. */
  function Normalized(ks: Resolved, r: Obj): Row {
    Row(r,
      Str(NormStr(Cell(r, ks.ticker))),
      Str(OrUnknown(NormStr(Cell(r, ks.sector)))),
      Str(OrUnknown(NormStr(Cell(r, ks.industry)))),
      Str(OrUnknown(NormStr(Cell(r, ks.cap)))),
      Cell(r, ks.rs), Cell(r, ks.price), Cell(r, ks.asof),
      Cell(r, ks.r5d), Cell(r, ks.r1m), Cell(r, ks.r3m), Cell(r, ks.r6m), Cell(r, ks.r12m),
      Cell(r, ks.vol), Cell(r, ks.maxDd))
  }

  /** The body of the `parsed.map(...)` callback: `{ ...r }`, then fourteen successive
      property assignments. */
  method NormalizeRow(ks: Resolved, r: Obj) returns (out: Row)
    ensures out == Normalized(ks, r)
  {
    out := Spread(r);
    out := out.(ticker := Str(NormStr(Cell(r, ks.ticker))));
    out := out.(sector := Str(OrUnknown(NormStr(Cell(r, ks.sector)))));
    out := out.(industry := Str(OrUnknown(NormStr(Cell(r, ks.industry)))));
    out := out.(cap := Str(OrUnknown(NormStr(Cell(r, ks.cap)))));
    out := out.(rs := Cell(r, ks.rs));
    out := out.(price := Cell(r, ks.price));
    out := out.(asof := Cell(r, ks.asof));
    out := out.(r5d := Cell(r, ks.r5d));
    out := out.(r1m := Cell(r, ks.r1m));
    out := out.(r3m := Cell(r, ks.r3m));
    out := out.(r6m := Cell(r, ks.r6m));
    out := out.(r12m := Cell(r, ks.r12m));
    out := out.(vol := Cell(r, ks.vol));
    out := out.(maxDd := Cell(r, ks.maxDd));
  }

  /** The three categories are never blank after normalisation, whatever the input. */
  predicate CategoriesSet(o: Row) {
    o.sector.Str? && o.sector.s != "" && o.industry.Str? && o.industry.s != "" && o.cap.Str? && o.cap.s != ""
  }

  /** A canonical category: the normalised text, or `"Unknown"` when that is blank. */
  predicate CategoryFrom(v: JsValue, cell: JsValue) {
    v == Str(if NormStr(cell) == "" then "Unknown" else NormStr(cell))
  }

  /** A canonical numeric property copied from the column `k` of `r`: `""` when the
      column is unresolved, the cell's text when `k` is an own property of `r`, and
      `undefined` when it is not. */
  predicate CopiedFrom(v: JsValue, r: Obj, k: Option<string>) {
    if k.None? then v == Str("")
    else if k.value in Keys(r) then Get(r, k.value).Some? && v == Str(Get(r, k.value).value)
    else v == Undefined
  }

  lemma CellCopied(r: Obj, k: Option<string>)
    ensures CopiedFrom(Cell(r, k), r, k)
  {
    if k.Some? {
      GetKeys(r, k.value);
    }
  }

  /** A normalised row keeps the parsed row; its ticker is the normalised ticker text;
      each category is the normalised text or `"Unknown"` when that is blank; and every
      numeric property is copied from its column, `""` when the column is unresolved. */
  lemma NormalizedSpec(ks: Resolved, r: Obj)
    ensures Normalized(ks, r).raw == r && CategoriesSet(Normalized(ks, r))
    ensures Normalized(ks, r).ticker.Str? && Normalized(ks, r).ticker.s == NormStr(Cell(r, ks.ticker))
    ensures CategoryFrom(Normalized(ks, r).sector, Cell(r, ks.sector))
    ensures CategoryFrom(Normalized(ks, r).industry, Cell(r, ks.industry))
    ensures CategoryFrom(Normalized(ks, r).cap, Cell(r, ks.cap))
    ensures CopiedFrom(Normalized(ks, r).rs, r, ks.rs) && CopiedFrom(Normalized(ks, r).price, r, ks.price)
    ensures CopiedFrom(Normalized(ks, r).asof, r, ks.asof)
    ensures CopiedFrom(Normalized(ks, r).r5d, r, ks.r5d) && CopiedFrom(Normalized(ks, r).r1m, r, ks.r1m)
    ensures CopiedFrom(Normalized(ks, r).r3m, r, ks.r3m) && CopiedFrom(Normalized(ks, r).r6m, r, ks.r6m)
    ensures CopiedFrom(Normalized(ks, r).r12m, r, ks.r12m)
    ensures CopiedFrom(Normalized(ks, r).vol, r, ks.vol) && CopiedFrom(Normalized(ks, r).maxDd, r, ks.maxDd)
  {
    CellCopied(r, ks.rs);
    CellCopied(r, ks.price);
    CellCopied(r, ks.asof);
    CellCopied(r, ks.r5d);
    CellCopied(r, ks.r1m);
    CellCopied(r, ks.r3m);
    CellCopied(r, ks.r6m);
    CellCopied(r, ks.r12m);
    CellCopied(r, ks.vol);
    CellCopied(r, ks.maxDd);
  }

  /** `normalizeRows(parsed)`: keys are resolved once from `parsed[0]` and every row is
      normalised under them; no rows give no rows. */
  method NormalizeRows(parsed: seq<Obj>) returns (rows: seq<Row>)
    ensures |rows| == |parsed|
    ensures forall i :: 0 <= i < |parsed| ==> rows[i] == Normalized(ResolvedOf(parsed[0]), parsed[i])
  {
    if |parsed| == 0 {
      return [];
    }
    var ks := ResolveColumns(parsed[0]);
    rows := NormalizeAll(ks, parsed);
  }

  /** `parsed.map(...)` under resolved keys. */
  method NormalizeAll(ks: Resolved, parsed: seq<Obj>) returns (rows: seq<Row>)
    ensures |rows| == |parsed|
    ensures forall i :: 0 <= i < |parsed| ==> rows[i] == Normalized(ks, parsed[i])
  {
    rows := [];
    for i := 0 to |parsed|
      invariant rows == Map(r => Normalized(ks, r), parsed[..i])
    {
      var out := NormalizeRow(ks, parsed[i]);
      MapSnoc(r => Normalized(ks, r), parsed, i);
      rows := rows + [out];
    }
    assert parsed[..|parsed|] == parsed;
  }

  /** On rows that share their keys, as `parseCSV` returns them, a resolved numeric
      column is copied as the cell's text, never as `undefined`. */
  lemma ResolvedPresent(parsed: seq<Obj>, i: nat, l: Logical)
    requires i < |parsed|
    requires forall j :: 0 <= j < |parsed| ==> Keys(parsed[j]) == Keys(parsed[0])
    ensures Cell(parsed[i], PickKey(parsed[0], l)).Str?
  {
    var k := PickKey(parsed[0], l);
    if k.Some? {
      PickKeySpec(parsed[0], l, 0);
      assert Keys(parsed[i]) == Keys(parsed[0]);
      GetKeys(parsed[i], k.value);
    }
  }

  // ---- Filtering ----

  datatype Filters = Filters(q: string, sector: string, industry: string, cap: string)

  /** The filter memo's test: the ticker alone is searched. */
  predicate Matches(f: Filters, r: Row) {
    var query := Upper(NormStr(Str(f.q)));
    && (query == "" || Contains(Upper(NormStr(r.ticker)), query))
    && (f.sector == "All" || r.sector == Str(f.sector))
    && (f.industry == "All" || r.industry == Str(f.industry))
    && (f.cap == "All" || r.cap == Str(f.cap))
  }

  function Filtered(rows: seq<Row>, f: Filters): seq<Row> {
    Select(rows, r => Matches(f, r))
  }

  /** The filtered rows are an order-preserving subsequence holding exactly the rows
      that pass all four tests. */
  lemma FilteredSpec(rows: seq<Row>, f: Filters)
    ensures IsSubsequence(Filtered(rows, f), rows)
    ensures forall r :: r in Filtered(rows, f) <==> r in rows && Matches(f, r)
  {
    SelectIsSubsequence(rows, r => Matches(f, r));
    SelectMembers(rows, r => Matches(f, r));
  }

  /** Search looks at the ticker only: rows that agree on the ticker and the three
      categories get the same verdict, whatever their other properties. */
  lemma OnlyFourFieldsMatter(f: Filters, r: Row, r': Row)
    requires r.ticker == r'.ticker && r.sector == r'.sector && r.industry == r'.industry && r.cap == r'.cap
    ensures Matches(f, r) == Matches(f, r')
  {
  }

  // ---- Sorting ----

  datatype RsKey = ByRs | ByPrice | ByTicker

  /** `getVal`, with null and `""` blank. */
  function SortValue(k: RsKey, r: Row): (v: SortVal)
    ensures k == ByTicker ==> !v.Num?
    ensures k != ByTicker ==> !v.Txt?
  {
    match k
    case ByTicker => var s := NormStr(r.ticker); if s == "" then Blank else Txt(s)
    case ByPrice => (match ToNum(r.price) case None => Blank case Some(x) => Num(x))
    case ByRs => (match ToNum(r.rs) case None => Blank case Some(x) => Num(x))
  }

  function KeyFn(k: RsKey): Row -> SortVal {
    r => SortValue(k, r)
  }

  /** The sort memo: a stable sort of a copy. */
  function Sorted(rows: seq<Row>, k: RsKey, d: Dir): seq<Row> {
    StableSort(rows, KeyFn(k), d)
  }

  /** A permutation of the filtered rows; blank values last in both directions; `rs`
      and `price` by value, `ticker` by code point, times the direction; ties keep
      their input order. */
  lemma SortedSpec(rows: seq<Row>, k: RsKey, d: Dir)
    ensures multiset(Sorted(rows, k, d)) == multiset(rows)
    ensures forall i, j :: 0 <= i < j < |Sorted(rows, k, d)| && SortValue(k, Sorted(rows, k, d)[i]) == Blank
              ==> SortValue(k, Sorted(rows, k, d)[j]) == Blank
    ensures forall i, j :: 0 <= i < j < |Sorted(rows, k, d)| ==>
              var a, b := SortValue(k, Sorted(rows, k, d)[i]), SortValue(k, Sorted(rows, k, d)[j]);
              (a.Num? && b.Num? ==> (if d == Asc then a.n <= b.n else a.n >= b.n))
              && (a.Txt? && b.Txt? ==> (if d == Asc then LexCmp(a.s, b.s) <= 0 else LexCmp(b.s, a.s) <= 0))
    ensures forall v :: Class(Sorted(rows, k, d), KeyFn(k), v) == Class(rows, KeyFn(k), v)
  {
    var key := KeyFn(k);
    var s := Sorted(rows, k, d);
    SortSpec(rows, key, d);
    forall i, j | 0 <= i < j < |s|
      ensures var a, b := SortValue(k, s[i]), SortValue(k, s[j]);
              (a.Num? && b.Num? ==> (if d == Asc then a.n <= b.n else a.n >= b.n))
              && (a.Txt? && b.Txt? ==> (if d == Asc then LexCmp(a.s, b.s) <= 0 else LexCmp(b.s, a.s) <= 0))
    {
      var a, b := SortValue(k, s[i]), SortValue(k, s[j]);
      assert Cmp(key(s[i]), key(s[j]), d) <= 0;
      if a.Num? && b.Num? {
        NumOrder(a.n, b.n, d);
      }
      if a.Txt? && b.Txt? {
        TxtOrder(a.s, b.s, d);
      }
    }
  }

  // ---- Sort controls ----

  datatype Controls = Controls(key: RsKey, dir: Dir)

  const InitialControls := Controls(ByRs, Desc)

  /** The RS, Price and Ticker buttons. */
  function SetSortKey(c: Controls, k: RsKey): (r: Controls)
    ensures r.key == k
  {
    c.(key := k)
  }

  /** The direction button. */
  function ToggleDir(c: Controls): (r: Controls)
    ensures r.key == c.key
  {
    c.(dir := if c.dir == Desc then Asc else Desc)
  }

  /** Choosing a key never touches the direction; the direction button flips it and
      nothing else, so pressing it twice restores the controls. */
  lemma ControlsSpec(c: Controls, k: RsKey)
    ensures SetSortKey(c, k).dir == c.dir
    ensures ToggleDir(c).dir != c.dir
    ensures ToggleDir(ToggleDir(c)) == c
    ensures SetSortKey(ToggleDir(c), k) == ToggleDir(SetSortKey(c, k))
  {
  }

  // ---- Derived values ----

  const AsOfFallback := "Unknown (add asof_date in pipeline)"

  /** `asOfText`. */
  function AsOfText(rows: seq<Row>): (r: string)
    ensures r != ""
  {
    FirstNonEmpty(rows, RowAsOf, AsOfFallback)
  }

  /** `normStr(r.__asof)`. */
  function RowAsOf(r: Row): string {
    NormStr(r.asof)
  }

  /** The first row with a non-blank `__asof` gives the text; with none, the fallback. */
  lemma AsOfTextSpec(rows: seq<Row>, i: nat)
    ensures (forall j :: 0 <= j < |rows| ==> NormStr(rows[j].asof) == "") ==> AsOfText(rows) == AsOfFallback
    ensures i < |rows| && NormStr(rows[i].asof) != "" && (forall j :: 0 <= j < i ==> NormStr(rows[j].asof) == "")
      ==> AsOfText(rows) == NormStr(rows[i].asof)
  {
    if forall j :: 0 <= j < |rows| ==> NormStr(rows[j].asof) == "" {
      FirstNonEmptyNone(rows, RowAsOf, AsOfFallback);
    }
    if i < |rows| && NormStr(rows[i].asof) != "" && (forall j :: 0 <= j < i ==> NormStr(rows[j].asof) == "") {
      FirstNonEmptyFirst(rows, RowAsOf, AsOfFallback, i);
    }
  }

  function NormAll(vals: seq<JsValue>): (r: seq<string>)
    ensures |r| == |vals| && forall i :: 0 <= i < |vals| ==> r[i] == NormStr(vals[i])
  {
    seq(|vals|, i requires 0 <= i < |vals| => NormStr(vals[i]))
  }

  /** `uniqueSorted(vals)`: the `localeCompare` sort of the distinct non-blank values. */
  function UniqueSorted(vals: seq<JsValue>): seq<string> {
    SortedDistinct(Select(NormAll(vals), NonEmpty))
  }

  lemma NormAllMembers(vals: seq<JsValue>)
    ensures forall s :: s in NormAll(vals) <==> exists i :: 0 <= i < |vals| && NormStr(vals[i]) == s
  {
    var ns := NormAll(vals);
    forall s ensures s in ns <==> exists i :: 0 <= i < |vals| && NormStr(vals[i]) == s {
      if s in ns {
        var i :| 0 <= i < |ns| && ns[i] == s;
      }
      if exists i :: 0 <= i < |vals| && NormStr(vals[i]) == s {
        var i :| 0 <= i < |vals| && NormStr(vals[i]) == s;
        assert ns[i] == s;
      }
    }
  }

  /** The distinct non-blank normalised values, strictly increasing. */
  lemma UniqueSortedSpec(vals: seq<JsValue>)
    ensures forall i, j :: 0 <= i < j < |UniqueSorted(vals)| ==> LexCmp(UniqueSorted(vals)[i], UniqueSorted(vals)[j]) < 0
    ensures forall s :: s in UniqueSorted(vals) <==> s != "" && exists i :: 0 <= i < |vals| && NormStr(vals[i]) == s
  {
    SortedDistinctIncreasing(Select(NormAll(vals), NonEmpty));
    UniqueSortedMembers(vals);
  }

  lemma UniqueSortedMembers(vals: seq<JsValue>)
    ensures forall s :: s in UniqueSorted(vals) <==> s != "" && exists i :: 0 <= i < |vals| && NormStr(vals[i]) == s
  {
    SortedNonEmptyMembers(NormAll(vals));
    NormAllMembers(vals);
  }

  function Sectors(rows: seq<Row>): (r: seq<JsValue>)
    ensures |r| == |rows| && forall i :: 0 <= i < |rows| ==> r[i] == rows[i].sector
  {
    seq(|rows|, i requires 0 <= i < |rows| => rows[i].sector)
  }

  function Industries(rows: seq<Row>): (r: seq<JsValue>)
    ensures |r| == |rows| && forall i :: 0 <= i < |rows| ==> r[i] == rows[i].industry
  {
    seq(|rows|, i requires 0 <= i < |rows| => rows[i].industry)
  }

  function Caps(rows: seq<Row>): (r: seq<JsValue>)
    ensures |r| == |rows| && forall i :: 0 <= i < |rows| ==> r[i] == rows[i].cap
  {
    seq(|rows|, i requires 0 <= i < |rows| => rows[i].cap)
  }

  /** `sectorOptions`, `industryOptions` and `capOptions`. */
  function Options(vals: seq<JsValue>): (r: seq<string>)
    ensures r != [] && r[0] == "All"
    ensures r[1..] == UniqueSorted(vals)
  {
    ["All"] + UniqueSorted(vals)
  }
}
