/** The comparison and sorting discipline shared by both tables: blank values last
    in either direction, numbers by value, text by code-point order, each times the
    direction, and a stable sort. */
module Ordering {
  import opened Seqs
  import Text

  datatype Dir = Asc | Desc

  function Flip(d: Dir): (r: Dir)
    ensures r != d
  {
    if d == Desc then Asc else Desc
  }

  /** The direction multiplier: `sortDir === "desc" ? -1 : 1`. */
  function Mul(d: Dir): int {
    if d == Desc then -1 else 1
  }

  /** A cell as the comparator sees it: blank (null or `""`), a number, or text. */
  datatype SortVal = Blank | Num(n: real) | Txt(s: string)

  /** Lexicographic comparison by code point. It stands for `localeCompare` and for the
      default order of `Array.prototype.sort`; only its sign is used. */
  function LexCmp(a: string, b: string): (r: int)
    ensures -1 <= r <= 1
  {
    if a == [] && b == [] then 0
    else if a == [] then -1
    else if b == [] then 1
    else if a[0] < b[0] then -1
    else if a[0] > b[0] then 1
    else LexCmp(a[1..], b[1..])
  }

  lemma {:induction false} LexCmpZero(a: string, b: string)
    ensures LexCmp(a, b) == 0 <==> a == b
  {
    if a != [] && b != [] && a[0] == b[0] {
      LexCmpZero(a[1..], b[1..]);
      assert a == [a[0]] + a[1..] && b == [b[0]] + b[1..];
    }
  }

  lemma {:induction false} LexCmpAntisym(a: string, b: string)
    ensures LexCmp(a, b) == -LexCmp(b, a)
  {
    if a != [] && b != [] && a[0] == b[0] {
      LexCmpAntisym(a[1..], b[1..]);
    }
  }

  lemma {:induction false} LexCmpTrans(a: string, b: string, c: string)
    requires LexCmp(a, b) <= 0 && LexCmp(b, c) <= 0
    ensures LexCmp(a, c) <= 0
  {
    if a != [] && b != [] && c != [] && a[0] == b[0] && b[0] == c[0] {
      LexCmpTrans(a[1..], b[1..], c[1..]);
    }
  }

  function Sign(x: real): int {
    if x < 0.0 then -1 else if x > 0.0 then 1 else 0
  }

  /** The ascending order of two non-blank values. Numbers and text are never compared
      with each other on one key; between them numbers are put first. */
  function Base(a: SortVal, b: SortVal): (r: int)
    requires !a.Blank? && !b.Blank?
    ensures -1 <= r <= 1
  {
    match (a, b)
    case (Num(x), Num(y)) => Sign(x - y)
    case (Txt(s), Txt(t)) => LexCmp(s, t)
    case (Num(_), Txt(_)) => -1
    case (Txt(_), Num(_)) => 1
  }

  /** The comparator of both `sorted` memos: a blank sorts after every value in either
      direction, two blanks tie, and otherwise the ascending order times the multiplier. */
  function Cmp(a: SortVal, b: SortVal, d: Dir): (r: int)
    ensures -1 <= r <= 1
  {
    if a.Blank? && b.Blank? then 0
    else if a.Blank? then 1
    else if b.Blank? then -1
    else Mul(d) * Base(a, b)
  }

  lemma BaseZero(a: SortVal, b: SortVal)
    requires !a.Blank? && !b.Blank?
    ensures Base(a, b) == 0 <==> a == b
  {
    if a.Txt? && b.Txt? {
      LexCmpZero(a.s, b.s);
    }
  }

  lemma BaseAntisym(a: SortVal, b: SortVal)
    requires !a.Blank? && !b.Blank?
    ensures Base(a, b) == -Base(b, a)
  {
    if a.Txt? && b.Txt? {
      LexCmpAntisym(a.s, b.s);
    }
  }

  lemma BaseTrans(a: SortVal, b: SortVal, c: SortVal)
    requires !a.Blank? && !b.Blank? && !c.Blank?
    requires Base(a, b) <= 0 && Base(b, c) <= 0
    ensures Base(a, c) <= 0
  {
    if a.Txt? && b.Txt? && c.Txt? {
      LexCmpTrans(a.s, b.s, c.s);
    }
  }

  /** Two values tie exactly when they are equal. */
  lemma CmpZero(a: SortVal, b: SortVal, d: Dir)
    ensures Cmp(a, b, d) == 0 <==> a == b
  {
    if !a.Blank? && !b.Blank? {
      BaseZero(a, b);
    }
  }

  lemma CmpAntisym(a: SortVal, b: SortVal, d: Dir)
    ensures Cmp(a, b, d) == -Cmp(b, a, d)
  {
    if !a.Blank? && !b.Blank? {
      BaseAntisym(a, b);
    }
  }

  lemma CmpTrans(a: SortVal, b: SortVal, c: SortVal, d: Dir)
    requires Cmp(a, b, d) <= 0 && Cmp(b, c, d) <= 0
    ensures Cmp(a, c, d) <= 0
  {
    if !a.Blank? && !b.Blank? && !c.Blank? {
      if d == Asc {
        BaseTrans(a, b, c);
      } else {
        BaseAntisym(a, b);
        BaseAntisym(b, c);
        BaseAntisym(a, c);
        BaseTrans(c, b, a);
      }
    }
  }

  lemma CmpLtLe(a: SortVal, b: SortVal, c: SortVal, d: Dir)
    requires Cmp(a, b, d) < 0 && Cmp(b, c, d) <= 0
    ensures Cmp(a, c, d) < 0
  {
    CmpTrans(a, b, c, d);
    CmpZero(a, c, d);
    CmpAntisym(a, b, d);
  }

  ghost predicate SortedBy<T>(s: seq<T>, key: T -> SortVal, d: Dir) {
    forall i, j :: 0 <= i < j < |s| ==> Cmp(key(s[i]), key(s[j]), d) <= 0
  }

  /** The elements of `xs` whose key is `v`, in their order in `xs`. */
  function Class<T>(xs: seq<T>, key: T -> SortVal, v: SortVal): seq<T> {
    if xs == [] then [] else (if key(xs[0]) == v then [xs[0]] else []) + Class(xs[1..], key, v)
  }

  lemma {:induction false} ClassAppend<T>(a: seq<T>, b: seq<T>, key: T -> SortVal, v: SortVal)
    ensures Class(a + b, key, v) == Class(a, key, v) + Class(b, key, v)
  {
    if a == [] {
      assert a + b == b;
    } else {
      var t := a[1..];
      var c0 := if key(a[0]) == v then [a[0]] else [];
      assert a == [a[0]] + t;
      assert a + b == [a[0]] + (t + b);
      ClassOfCons(a[0], t + b, key, v);
      ClassAppend(t, b, key, v);
      ClassOfCons(a[0], t, key, v);
      AppendAssoc(c0, Class(t, key, v), Class(b, key, v));
    }
  }

  /** Inserts `x` after every element it does not sort strictly before. */
  function Insert<T>(x: T, s: seq<T>, key: T -> SortVal, d: Dir): seq<T> {
    if s == [] then [x]
    else if Cmp(key(x), key(s[0]), d) < 0 then [x] + s
    else [s[0]] + Insert(x, s[1..], key, d)
  }

  /** Inserting adds exactly the one element. */
  lemma {:induction false} InsertPerm<T>(x: T, s: seq<T>, key: T -> SortVal, d: Dir)
    ensures multiset(Insert(x, s, key, d)) == multiset(s) + multiset{x}
  {
    if s != [] && !(Cmp(key(x), key(s[0]), d) < 0) {
      InsertPerm(x, s[1..], key, d);
      assert s == [s[0]] + s[1..];
    }
  }

  /** A stable sort: the unique ordering that an ECMAScript 2019 `Array.prototype.sort`
      produces under a consistent comparator. */
  function StableSort<T>(xs: seq<T>, key: T -> SortVal, d: Dir): seq<T> {
    if xs == [] then []
    else Insert(xs[|xs| - 1], StableSort(xs[..|xs| - 1], key, d), key, d)
  }

  /** Sorting permutes its input. */
  lemma {:induction false} SortPerm<T>(xs: seq<T>, key: T -> SortVal, d: Dir)
    ensures multiset(StableSort(xs, key, d)) == multiset(xs)
  {
    if xs != [] {
      SortPerm(xs[..|xs| - 1], key, d);
      InsertPerm(xs[|xs| - 1], StableSort(xs[..|xs| - 1], key, d), key, d);
      assert xs == xs[..|xs| - 1] + [xs[|xs| - 1]];
    }
  }

  lemma MemberOfInsert<T>(x: T, s: seq<T>, key: T -> SortVal, d: Dir, e: T)
    requires e in Insert(x, s, key, d)
    ensures e == x || e in s
  {
    InsertPerm(x, s, key, d);
    assert e in multiset(Insert(x, s, key, d));
  }

  lemma {:induction false} InsertSorted<T>(x: T, s: seq<T>, key: T -> SortVal, d: Dir)
    requires SortedBy(s, key, d)
    ensures SortedBy(Insert(x, s, key, d), key, d)
  {
    if s == [] {
    } else if Cmp(key(x), key(s[0]), d) < 0 {
      forall j | 0 <= j < |s| ensures Cmp(key(x), key(s[j]), d) <= 0 {
        if j > 0 {
          CmpLtLe(key(x), key(s[0]), key(s[j]), d);
        }
      }
    } else {
      var tail := s[1..];
      SortedTail(s, key, d);
      InsertSorted(x, tail, key, d);
      var t := Insert(x, tail, key, d);
      var r := [s[0]] + t;
      forall j | 0 <= j < |t| ensures Cmp(key(s[0]), key(t[j]), d) <= 0 {
        MemberOfInsert(x, tail, key, d, t[j]);
        if t[j] == x {
          CmpAntisym(key(x), key(s[0]), d);
        } else {
          var k :| 0 <= k < |tail| && tail[k] == t[j];
          assert s[k + 1] == t[j];
        }
      }
      forall i, j | 0 <= i < j < |r| ensures Cmp(key(r[i]), key(r[j]), d) <= 0 {
        assert r[j] == t[j - 1];
        if i > 0 {
          assert r[i] == t[i - 1];
        }
      }
    }
  }

  lemma {:induction false} SortSorted<T>(xs: seq<T>, key: T -> SortVal, d: Dir)
    ensures SortedBy(StableSort(xs, key, d), key, d)
  {
    if xs != [] {
      SortSorted(xs[..|xs| - 1], key, d);
      InsertSorted(xs[|xs| - 1], StableSort(xs[..|xs| - 1], key, d), key, d);
    }
  }

  lemma ClassOfCons<T>(x: T, s: seq<T>, key: T -> SortVal, v: SortVal)
    ensures Class([x] + s, key, v) == (if key(x) == v then [x] else []) + Class(s, key, v)
  {
    assert ([x] + s)[1..] == s;
  }

  lemma ClassEmpty<T>(s: seq<T>, key: T -> SortVal, v: SortVal)
    requires forall i :: 0 <= i < |s| ==> key(s[i]) != v
    ensures Class(s, key, v) == []
  {
    if s != [] {
      ClassEmpty(s[1..], key, v);
      ClassOfCons(s[0], s[1..], key, v);
      assert [s[0]] + s[1..] == s;
    }
  }

  /** When `x` goes in front, every element of `s` sorts strictly after it. */
  lemma InsertFrontClass<T>(x: T, s: seq<T>, key: T -> SortVal, d: Dir, v: SortVal)
    requires SortedBy(s, key, d) && s != [] && Cmp(key(x), key(s[0]), d) < 0
    ensures Class([x] + s, key, v) == Class(s, key, v) + (if key(x) == v then [x] else [])
  {
    ClassOfCons(x, s, key, v);
    if key(x) == v {
      forall i | 0 <= i < |s| ensures key(s[i]) != v {
        if i > 0 {
          CmpLtLe(key(x), key(s[0]), key(s[i]), d);
        }
        CmpZero(key(x), key(s[i]), d);
      }
      ClassEmpty(s, key, v);
    }
  }

  lemma SortedTail<T>(s: seq<T>, key: T -> SortVal, d: Dir)
    requires SortedBy(s, key, d) && s != []
    ensures SortedBy(s[1..], key, d)
  {
    var tail := s[1..];
    forall i, j | 0 <= i < j < |tail| ensures Cmp(key(tail[i]), key(tail[j]), d) <= 0 {
      assert tail[i] == s[i + 1] && tail[j] == s[j + 1];
    }
  }

  /** An element that does not go before the head is inserted into the tail. */
  lemma InsertBehind<T>(x: T, s: seq<T>, key: T -> SortVal, d: Dir)
    requires s != [] && !(Cmp(key(x), key(s[0]), d) < 0)
    ensures Insert(x, s, key, d) == [s[0]] + Insert(x, s[1..], key, d)
  {
  }

  lemma InsertBehindClass<T>(x: T, s: seq<T>, key: T -> SortVal, d: Dir, v: SortVal)
    requires s != [] && Insert(x, s, key, d) == [s[0]] + Insert(x, s[1..], key, d)
    requires Class(Insert(x, s[1..], key, d), key, v) == Class(s[1..], key, v) + (if key(x) == v then [x] else [])
    ensures Class(Insert(x, s, key, d), key, v) == Class(s, key, v) + (if key(x) == v then [x] else [])
  {
    var t := Insert(x, s[1..], key, d);
    var c0 := if key(s[0]) == v then [s[0]] else [];
    var cx := if key(x) == v then [x] else [];
    var rest := Class(s[1..], key, v);
    calc {
      Class(Insert(x, s, key, d), key, v);
      Class([s[0]] + t, key, v);
    == { ClassOfCons(s[0], t, key, v); }
      c0 + Class(t, key, v);
    == { AppendAssoc(c0, rest, cx); }
      (c0 + rest) + cx;
    == { assert s == [s[0]] + s[1..]; ClassOfCons(s[0], s[1..], key, v); }
      Class(s, key, v) + cx;
    }
  }

  /** Inserting `x` appends it to the end of its own class and leaves other classes alone. */
  lemma {:induction false} InsertStable<T>(x: T, s: seq<T>, key: T -> SortVal, d: Dir, v: SortVal)
    requires SortedBy(s, key, d)
    ensures Class(Insert(x, s, key, d), key, v) == Class(s, key, v) + (if key(x) == v then [x] else [])
  {
    if s == [] {
      ClassOfCons(x, [], key, v);
    } else if Cmp(key(x), key(s[0]), d) < 0 {
      InsertFrontClass(x, s, key, d, v);
    } else {
      SortedTail(s, key, d);
      InsertStable(x, s[1..], key, d, v);
      InsertBehind(x, s, key, d);
      InsertBehindClass(x, s, key, d, v);
    }
  }

  lemma InsertIntoSortedStable<T>(x: T, init: seq<T>, key: T -> SortVal, d: Dir, v: SortVal)
    ensures Class(Insert(x, StableSort(init, key, d), key, d), key, v)
         == Class(StableSort(init, key, d), key, v) + (if key(x) == v then [x] else [])
  {
    SortSorted(init, key, d);
    InsertStable(x, StableSort(init, key, d), key, d, v);
  }

  /** Stability: every class of equal keys keeps the order it had in the input. */
  lemma {:induction false} SortStable<T>(xs: seq<T>, key: T -> SortVal, d: Dir, v: SortVal)
    ensures Class(StableSort(xs, key, d), key, v) == Class(xs, key, v)
  {
    if xs != [] {
      var init, last := xs[..|xs| - 1], xs[|xs| - 1];
      var sorted := StableSort(init, key, d);
      var cx := if key(last) == v then [last] else [];
      SortStable(init, key, d, v);
      InsertIntoSortedStable(last, init, key, d, v);
      assert StableSort(xs, key, d) == Insert(last, sorted, key, d);
      assert xs == init + [last];
      ClassAppend(init, [last], key, v);
      assert [last][1..] == [];
      assert Class([last], key, v) == cx;
    }
  }

  /** What a sort on one key guarantees: a permutation, blanks after every value in
      either direction, values in the direction's order, and ties in input order. */
  lemma SortSpec<T>(xs: seq<T>, key: T -> SortVal, d: Dir)
    ensures multiset(StableSort(xs, key, d)) == multiset(xs)
    ensures forall i, j :: 0 <= i < j < |StableSort(xs, key, d)| && key(StableSort(xs, key, d)[i]) == Blank
              ==> key(StableSort(xs, key, d)[j]) == Blank
    ensures forall i, j :: 0 <= i < j < |StableSort(xs, key, d)| ==>
              Cmp(key(StableSort(xs, key, d)[i]), key(StableSort(xs, key, d)[j]), d) <= 0
    ensures forall v :: Class(StableSort(xs, key, d), key, v) == Class(xs, key, v)
  {
    SortPerm(xs, key, d);
    SortSorted(xs, key, d);
    forall v ensures Class(StableSort(xs, key, d), key, v) == Class(xs, key, v) {
      SortStable(xs, key, d, v);
    }
  }

  /** Under the comparator, numbers come out ascending or descending as asked. */
  lemma NumOrder(x: real, y: real, d: Dir)
    requires Cmp(Num(x), Num(y), d) <= 0
    ensures d == Asc ==> x <= y
    ensures d == Desc ==> x >= y
  {
  }

  lemma TxtOrder(s: string, t: string, d: Dir)
    requires Cmp(Txt(s), Txt(t), d) <= 0
    ensures d == Asc ==> LexCmp(s, t) <= 0
    ensures d == Desc ==> LexCmp(t, s) <= 0
  {
    LexCmpAntisym(s, t);
  }

  lemma {:induction false} DistinctCountOne<T>(s: seq<T>, x: T)
    requires forall i, j :: 0 <= i < j < |s| ==> s[i] != s[j]
    ensures multiset(s)[x] <= 1
  {
    if s != [] {
      DistinctCountOne(s[1..], x);
      assert s == [s[0]] + s[1..];
      if x == s[0] {
        assert x !in s[1..];
      }
    }
  }

  lemma RepeatCountTwo<T>(s: seq<T>, i: int, j: int)
    requires 0 <= i < j < |s| && s[i] == s[j]
    ensures multiset(s)[s[i]] >= 2
  {
    assert s == s[..j] + s[j..];
    assert s[i] in s[..j];
    assert s[j..][0] == s[i];
  }

  /** The default `sort()` key: an element compared as text. */
  function TxtKey(s: string): SortVal {
    Txt(s)
  }

  /** `Array.from(new Set(xs)).sort()`: the distinct elements of `xs` in order. */
  function SortedDistinct(xs: seq<string>): seq<string> {
    StableSort(Distinct(xs), TxtKey, Asc)
  }

  /** The option lists are strictly increasing and hold exactly the input's elements. */
  lemma SortedDistinctSpec(xs: seq<string>)
    ensures forall i, j :: 0 <= i < j < |SortedDistinct(xs)| ==> LexCmp(SortedDistinct(xs)[i], SortedDistinct(xs)[j]) < 0
    ensures forall s :: s in SortedDistinct(xs) <==> s in xs
  {
    SortedDistinctIncreasing(xs);
    SortedDistinctMembers(xs);
  }

  /** The sorted distinct non-empty strings of `xs` are its non-empty members. */
  lemma SortedNonEmptyMembers(xs: seq<string>)
    ensures forall s :: s in SortedDistinct(Select(xs, Text.NonEmpty)) <==> s in xs && s != ""
  {
    SortedDistinctMembers(Select(xs, Text.NonEmpty));
    SelectMembers(xs, Text.NonEmpty);
  }

  lemma SortedDistinctIncreasing(xs: seq<string>)
    ensures forall i, j :: 0 <= i < j < |SortedDistinct(xs)| ==> LexCmp(SortedDistinct(xs)[i], SortedDistinct(xs)[j]) < 0
  {
    var d := Distinct(xs);
    var r := SortedDistinct(xs);
    SortSorted(d, TxtKey, Asc);
    SortPerm(d, TxtKey, Asc);
    forall i, j | 0 <= i < j < |r| ensures LexCmp(r[i], r[j]) < 0 {
      assert Cmp(TxtKey(r[i]), TxtKey(r[j]), Asc) <= 0;
      if r[i] == r[j] {
        RepeatCountTwo(r, i, j);
        DistinctCountOne(d, r[i]);
        assert false;
      }
      LexCmpZero(r[i], r[j]);
    }
  }

  lemma SortedDistinctMembers(xs: seq<string>)
    ensures forall s :: s in SortedDistinct(xs) <==> s in xs
  {
    var d := Distinct(xs);
    var r := SortedDistinct(xs);
    SortPerm(d, TxtKey, Asc);
    forall s ensures s in r <==> s in xs {
      assert s in r <==> s in multiset(r);
      assert s in d <==> s in multiset(d);
    }
  }
}
