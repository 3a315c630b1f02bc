/** The home page's helpers: the blank test, the first-present-key lookup, the index of
    a tier-statistics table, the dash paths of the percentage formatter and the rule
    for showing the tier metadata. */
module Home {
  import opened Text
  import opened Values
  import Screener

  // ---- Blank test ----

  /** `isBlank(v)`: null, undefined, or text that trims and lower-cases to nothing or
      to one of the sentinels. It agrees with the screener's `norm`: blank exactly when
      `norm` gives `""`. */
  function IsBlank(v: JsValue): (r: bool)
    ensures r <==> Screener.Norm(v) == ""
  {
    if IsNullish(v) then true
    else
      var s := Lower(Trim(ToStr(v)));
      assert |s| == |Trim(ToStr(v))|;
      s == "" || Screener.IsSentinel(s)
  }

  // ---- getField ----

  /** The value `getField` returns. An object is modelled by its own properties; a
      falsy `obj` (null or undefined) by `None`. */
  function FieldOf<V>(obj: Option<map<string, V>>, keys: seq<string>, fallback: V): V {
    if obj.None? || keys == [] then fallback
    else if keys[0] in obj.value then obj.value[keys[0]]
    else FieldOf(obj, keys[1..], fallback)
  }

  /** The first listed key that is an own property decides the result, whatever its
      value (null and undefined included); with a falsy object or no listed key
      present, the result is the fallback. */
  lemma {:induction false} FieldOfSpec<V>(obj: Option<map<string, V>>, keys: seq<string>, fallback: V)
    ensures obj.None? || (forall j :: 0 <= j < |keys| ==> keys[j] !in obj.value) ==> FieldOf(obj, keys, fallback) == fallback
    ensures obj.Some? && (exists j :: 0 <= j < |keys| && keys[j] in obj.value) ==>
      exists i :: 0 <= i < |keys| && keys[i] in obj.value && FieldOf(obj, keys, fallback) == obj.value[keys[i]]
        && forall j :: 0 <= j < i ==> keys[j] !in obj.value
  {
    if obj.Some? && keys != [] && keys[0] !in obj.value {
      FieldOfSpec(obj, keys[1..], fallback);
      if forall j :: 0 <= j < |keys| ==> keys[j] !in obj.value {
        assert forall j :: 0 <= j < |keys| - 1 ==> keys[1..][j] == keys[j + 1];
      }
      if exists j :: 0 <= j < |keys| && keys[j] in obj.value {
        var j :| 0 <= j < |keys| && keys[j] in obj.value;
        assert keys[1..][j - 1] == keys[j];
        var i :| 0 <= i < |keys| - 1 && keys[1..][i] in obj.value && FieldOf(obj, keys[1..], fallback) == obj.value[keys[1..][i]]
          && forall j :: 0 <= j < i ==> keys[1..][j] !in obj.value;
        forall j | 0 <= j < i + 1 ensures keys[j] !in obj.value {
          if j > 0 {
            assert keys[j] == keys[1..][j - 1];
          }
        }
      }
    }
  }

  /** The key reached first, when no earlier key is present, gives the result. */
  lemma {:induction false} FieldOfFirst<V>(obj: Option<map<string, V>>, keys: seq<string>, fallback: V, i: nat)
    requires obj.Some? && i < |keys| && keys[i] in obj.value
    requires forall j :: 0 <= j < i ==> keys[j] !in obj.value
    ensures FieldOf(obj, keys, fallback) == obj.value[keys[i]]
  {
    if i > 0 {
      assert keys[1..][i - 1] == keys[i];
      FieldOfFirst(obj, keys[1..], fallback, i - 1);
    }
  }

  /** With no listed key present, the fallback. */
  lemma {:induction false} FieldOfAbsent<V>(obj: Option<map<string, V>>, keys: seq<string>, fallback: V)
    requires obj.Some? ==> forall j :: 0 <= j < |keys| ==> keys[j] !in obj.value
    ensures FieldOf(obj, keys, fallback) == fallback
  {
    if obj.Some? && keys != [] {
      assert forall j :: 0 <= j < |keys| - 1 ==> keys[1..][j] == keys[j + 1];
      FieldOfAbsent(obj, keys[1..], fallback);
    }
  }

  /** `getField(obj, keys, fallback)`: the early-return loop over `keys`. */
  method GetField<V>(obj: Option<map<string, V>>, keys: seq<string>, fallback: V) returns (r: V)
    ensures r == FieldOf(obj, keys, fallback)
  {
    for i := 0 to |keys|
      invariant obj.Some? ==> forall j :: 0 <= j < i ==> keys[j] !in obj.value
    {
      if obj.Some? && keys[i] in obj.value {
        FieldOfFirst(obj, keys, fallback, i);
        return obj.value[keys[i]];
      }
    }
    FieldOfAbsent(obj, keys, fallback);
    return fallback;
  }

  // ---- indexTierTable ----

  /** One row of a tier-statistics table. */
  datatype TierStat = TierStat(tier: JsValue, n: JsValue, avg: JsValue, median: JsValue, winRate: JsValue)

  /** `r?.tier` is truthy: the row is present and has a truthy tier. */
  predicate Keyed(r: Option<TierStat>) {
    r.Some? && Truthy(r.value.tier)
  }

  /** The map the `forEach` builds over `rows`: each keyed row, in order, is set under
      `String(tier)`. */
  function TierIndex(rows: seq<Option<TierStat>>): map<string, TierStat> {
    if rows == [] then map[]
    else
      var m := TierIndex(rows[..|rows| - 1]);
      var r := rows[|rows| - 1];
      if Keyed(r) then m[ToStr(r.value.tier) := r.value] else m
  }

  /** `table ?? []`: a null or undefined table (`None`) indexes as no rows. */
  function TableRows(table: Option<seq<Option<TierStat>>>): seq<Option<TierStat>> {
    if table.Some? then table.value else []
  }

  /** `indexTierTable(table)`: a fresh map, then one `set` per keyed row. */
  method IndexTierTable(table: Option<seq<Option<TierStat>>>) returns (m: map<string, TierStat>)
    ensures m == TierIndex(TableRows(table))
    ensures table.None? ==> m == map[]
  {
    var rows := TableRows(table);
    m := map[];
    for i := 0 to |rows|
      invariant m == TierIndex(rows[..i])
    {
      assert rows[..i + 1][..i] == rows[..i];
      var r := rows[i];
      if r.Some? && Truthy(r.value.tier) {
        m := m[ToStr(r.value.tier) := r.value];
      }
    }
    assert rows[..|rows|] == rows;
  }

  /** A key is indexed exactly when some keyed row's tier reads as it. */
  lemma {:induction false} TierIndexDomain(rows: seq<Option<TierStat>>, k: string)
    ensures k in TierIndex(rows) <==> exists i :: 0 <= i < |rows| && Keyed(rows[i]) && ToStr(rows[i].value.tier) == k
  {
    if rows != [] {
      var init := rows[..|rows| - 1];
      TierIndexDomain(init, k);
      if exists i :: 0 <= i < |init| && Keyed(init[i]) && ToStr(init[i].value.tier) == k {
        var i :| 0 <= i < |init| && Keyed(init[i]) && ToStr(init[i].value.tier) == k;
        assert rows[i] == init[i];
      }
      if exists i :: 0 <= i < |rows| && Keyed(rows[i]) && ToStr(rows[i].value.tier) == k {
        var i :| 0 <= i < |rows| && Keyed(rows[i]) && ToStr(rows[i].value.tier) == k;
        if i < |init| {
          assert init[i] == rows[i];
        }
      }
    }
  }

  /** For a repeated tier the later row wins: an indexed key maps to the last keyed
      row whose tier reads as it. */
  lemma {:induction false} TierIndexLastWins(rows: seq<Option<TierStat>>, i: nat)
    requires i < |rows| && Keyed(rows[i])
    requires forall j :: i < j < |rows| && Keyed(rows[j]) ==> ToStr(rows[j].value.tier) != ToStr(rows[i].value.tier)
    ensures ToStr(rows[i].value.tier) in TierIndex(rows)
    ensures TierIndex(rows)[ToStr(rows[i].value.tier)] == rows[i].value
  {
    if i < |rows| - 1 {
      var init := rows[..|rows| - 1];
      assert init[i] == rows[i];
      forall j | i < j < |init| && Keyed(init[j]) ensures ToStr(init[j].value.tier) != ToStr(rows[i].value.tier) {
        assert init[j] == rows[j];
      }
      TierIndexLastWins(init, i);
    }
  }

  // ---- fmtPct ----

  /** `Number(v)`. */
  function ToNumber(v: JsValue): JsNumber {
    match v
    case Undefined => NotANumber
    case Null => Finite(0.0)
    case Bool(b) => Finite(if b then 1.0 else 0.0)
    case Int(i) => Finite(i as real)
    case NaN => NotANumber
    case Str(s) => ParseNumber(s)
  }

  /** What `fmtPct` shows: the dash, or a percentage formatted from a number that is
      not NaN (the scaling and `toFixed` are not modelled). */
  datatype PctText = Dash | Percent(n: JsNumber)

  /** `fmtPct(v)`. */
  function FmtPct(v: JsValue): (r: PctText)
    ensures r.Percent? ==> r.n == ToNumber(v) && !r.n.NotANumber?
  {
    if IsBlank(v) then Dash
    else
      var n := ToNumber(v);
      if n.NotANumber? then Dash else Percent(n)
  }

  /** The dash is shown exactly for blank input and for input that is not a number;
      blank text shows the dash even though `Number` reads it as 0. */
  lemma FmtPctDash(v: JsValue)
    ensures FmtPct(v) == Dash <==> Screener.Norm(v) == "" || ToNumber(v) == NotANumber
    ensures v.Str? && Trim(v.s) == "" ==> FmtPct(v) == Dash && ToNumber(v) == Finite(0.0)
  {
    if v.Str? && Trim(v.s) == "" {
      assert ToStr(v) == v.s;
      assert IsBlank(v) by { Screener.NormSpec(v); }
      Screener.BlankParsesToZero(v.s);
    }
  }

  /** An integer is never shown as the dash. */
  lemma FmtPctInt(i: int)
    ensures FmtPct(Int(i)) == Percent(Finite(i as real))
  {
    Screener.NormInt(i);
    assert !IsBlank(Int(i));
  }

  // ---- tierMeta ----

  /** The metadata shown above the tier table. */
  datatype Meta = Meta(asof: JsValue, nDates: JsValue)

  /** `tierMeta`: read `asof` and `signal_dates_used` from `tierBt ?? {}` with `null`
      as the fallback; nothing unless both are truthy. */
  function TierMeta(tierBt: Option<map<string, JsValue>>): Option<Meta> {
    var obj := Some(if tierBt.Some? then tierBt.value else map[]);
    var asof := FieldOf(obj, ["asof"], Null);
    var nDates := FieldOf(obj, ["signal_dates_used"], Null);
    if !Truthy(asof) || !Truthy(nDates) then None else Some(Meta(asof, nDates))
  }

  /** The metadata is present exactly when the backtest is loaded and both fields are
      own properties with truthy values, and then it holds those two values. */
  lemma TierMetaSpec(tierBt: Option<map<string, JsValue>>)
    ensures TierMeta(tierBt).Some? <==> (tierBt.Some?
      && "asof" in tierBt.value && Truthy(tierBt.value["asof"])
      && "signal_dates_used" in tierBt.value && Truthy(tierBt.value["signal_dates_used"]))
    ensures TierMeta(tierBt).Some? ==>
      TierMeta(tierBt).value == Meta(tierBt.value["asof"], tierBt.value["signal_dates_used"])
  {
    var obj := Some(if tierBt.Some? then tierBt.value else map[]);
    ReadOne(obj, "asof");
    ReadOne(obj, "signal_dates_used");
  }

  /** A one-key `getField` with the `null` fallback reads the property, if present. */
  lemma ReadOne(obj: Option<map<string, JsValue>>, k: string)
    requires obj.Some?
    ensures FieldOf(obj, [k], Null) == if k in obj.value then obj.value[k] else Null
  {
    if k in obj.value {
      FieldOfFirst(obj, [k], Null, 0);
    } else {
      FieldOfAbsent(obj, [k], Null);
    }
  }
}
