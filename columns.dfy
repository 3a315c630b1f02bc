/** Header-alias column resolution: an index from normalised header names to the
    actual names, and the first alias that hits it. */
module Columns {
  import opened Text
  import opened Values
  import opened Csv

  /** `k.trim().toLowerCase()`. */
  function KeyNorm(k: string): string {
    Lower(Trim(k))
  }

  /** `new Map(keys.map((k) => [KeyNorm(k), k]))`: entries are set left to right, so
      a later key overwrites an earlier one with the same normalised form. */
  function KeyIndex(keys: seq<string>): map<string, string> {
    if keys == [] then map[]
    else KeyIndex(keys[..|keys| - 1])[KeyNorm(keys[|keys| - 1]) := keys[|keys| - 1]]
  }

  /** Every indexed name maps to an actual key that normalises to it. */
  lemma {:induction false} KeyIndexValues(keys: seq<string>, n: string)
    ensures n in KeyIndex(keys) ==> KeyIndex(keys)[n] in keys && KeyNorm(KeyIndex(keys)[n]) == n
  {
    if keys != [] {
      var init, last := keys[..|keys| - 1], keys[|keys| - 1];
      if n != KeyNorm(last) {
        KeyIndexValues(init, n);
        if n in KeyIndex(init) {
          var j :| 0 <= j < |init| && init[j] == KeyIndex(init)[n];
          assert keys[j] == init[j];
        }
      }
    }
  }

  /** A normalised name is indexed exactly when some key normalises to it. */
  lemma {:induction false} KeyIndexDomain(keys: seq<string>, n: string)
    ensures n in KeyIndex(keys) <==> exists j :: 0 <= j < |keys| && KeyNorm(keys[j]) == n
  {
    if keys != [] {
      var init := keys[..|keys| - 1];
      KeyIndexDomain(init, n);
      if n !in KeyIndex(keys) {
        forall j | 0 <= j < |keys| ensures KeyNorm(keys[j]) != n {
          if j < |keys| - 1 {
            assert keys[j] == init[j];
          }
        }
      } else if KeyNorm(keys[|keys| - 1]) != n {
        var j :| 0 <= j < |init| && KeyNorm(init[j]) == n;
        assert keys[j] == init[j];
      }
    }
  }

  /** The index holds the last key with a given normalised form. */
  lemma {:induction false} KeyIndexLastWins(keys: seq<string>, j: nat)
    requires j < |keys|
    requires forall j2 :: j < j2 < |keys| ==> KeyNorm(keys[j2]) != KeyNorm(keys[j])
    ensures KeyNorm(keys[j]) in KeyIndex(keys) && KeyIndex(keys)[KeyNorm(keys[j])] == keys[j]
  {
    if j < |keys| - 1 {
      var init := keys[..|keys| - 1];
      assert init[j] == keys[j];
      KeyIndexLastWins(init, j);
    }
  }

  /** The loop behind `new Map(...)`. */
  method BuildIndex(keys: seq<string>) returns (m: map<string, string>)
    ensures m == KeyIndex(keys)
  {
    m := map[];
    for i := 0 to |keys|
      invariant m == KeyIndex(keys[..i])
    {
      assert keys[..i + 1][..i] == keys[..i];
      m := m[KeyNorm(keys[i]) := keys[i]];
    }
    assert keys[..|keys|] == keys;
  }

  /** A candidate hits when the index has it and the actual key found is truthy. */
  predicate Hits(idx: map<string, string>, c: string) {
    c in idx && idx[c] != ""
  }

  /** The first candidate, in order, that hits the index. */
  function Resolve(idx: map<string, string>, cands: seq<string>): (r: Option<string>)
    ensures r.None? <==> forall i :: 0 <= i < |cands| ==> !Hits(idx, cands[i])
    ensures r.Some? ==> exists i :: 0 <= i < |cands| && Hits(idx, cands[i]) && idx[cands[i]] == r.value
  {
    if cands == [] then None
    else if Hits(idx, cands[0]) then Some(idx[cands[0]])
    else
      var r := Resolve(idx, cands[1..]);
      assert forall i :: 1 <= i < |cands| ==> cands[i] == cands[1..][i - 1];
      r
  }

  /** First alias wins: the result is the key of the earliest candidate that hits. */
  lemma {:induction false} ResolveFirst(idx: map<string, string>, cands: seq<string>, i: nat)
    requires i < |cands| && Hits(idx, cands[i])
    requires forall i2 :: 0 <= i2 < i ==> !Hits(idx, cands[i2])
    ensures Resolve(idx, cands) == Some(idx[cands[i]])
  {
    if i > 0 {
      assert cands[1..][i - 1] == cands[i];
      ResolveFirst(idx, cands[1..], i - 1);
    }
  }

  /** The early-return loop over the aliases. */
  method Pick(idx: map<string, string>, cands: seq<string>) returns (r: Option<string>)
    ensures r == Resolve(idx, cands)
  {
    for i := 0 to |cands|
      invariant forall i2 :: 0 <= i2 < i ==> !Hits(idx, cands[i2])
    {
      if cands[i] in idx {
        var found := idx[cands[i]];
        if found != "" {
          ResolveFirst(idx, cands, i);
          return Some(found);
        }
      }
    }
    return None;
  }

  /** A non-empty name in the index always hits: the key it came from normalises to
      it, so it is not empty either. */
  lemma HitsIndexed(keys: seq<string>, n: string)
    requires n != ""
    ensures Hits(KeyIndex(keys), n) <==> n in KeyIndex(keys)
  {
    KeyIndexValues(keys, n);
  }

  /** Resolving non-empty candidates against the index of `keys`: the result is an
      actual key that normalises to a candidate; there is none exactly when no key
      normalises to any candidate; and the earliest candidate indexed wins. */
  lemma ResolveSpec(keys: seq<string>, cands: seq<string>, i: nat)
    requires forall a :: 0 <= a < |cands| ==> cands[a] != ""
    ensures Resolve(KeyIndex(keys), cands).Some? ==> (Resolve(KeyIndex(keys), cands).value in keys
      && exists a :: 0 <= a < |cands| && KeyNorm(Resolve(KeyIndex(keys), cands).value) == cands[a])
    ensures Resolve(KeyIndex(keys), cands).None? <==>
      forall a, j :: 0 <= a < |cands| && 0 <= j < |keys| ==> KeyNorm(keys[j]) != cands[a]
    ensures i < |cands| && cands[i] in KeyIndex(keys) && (forall a :: 0 <= a < i ==> cands[a] !in KeyIndex(keys))
      ==> Resolve(KeyIndex(keys), cands) == Some(KeyIndex(keys)[cands[i]])
  {
    forall a | 0 <= a < |cands| ensures Hits(KeyIndex(keys), cands[a]) <==> cands[a] in KeyIndex(keys) {
      HitsIndexed(keys, cands[a]);
    }
    forall n ensures n in KeyIndex(keys) ==> KeyIndex(keys)[n] in keys && KeyNorm(KeyIndex(keys)[n]) == n {
      KeyIndexValues(keys, n);
    }
    forall a | 0 <= a < |cands|
      ensures cands[a] in KeyIndex(keys) <==> exists j :: 0 <= j < |keys| && KeyNorm(keys[j]) == cands[a]
    {
      KeyIndexDomain(keys, cands[a]);
    }
    if i < |cands| && cands[i] in KeyIndex(keys) && forall a :: 0 <= a < i ==> cands[a] !in KeyIndex(keys) {
      ResolveFirst(KeyIndex(keys), cands, i);
    }
  }

  /** `k.x ? r[k.x] : ""`. */
  function Cell(r: Obj, k: Option<string>): JsValue {
    match k
    case None => Str("")
    case Some(key) => match Get(r, key) case Some(v) => Str(v) case None => Undefined
  }

  function OrUnknown(s: string): (r: string)
    ensures r != "" && (s != "" ==> r == s)
    ensures s == "" ==> r == "Unknown"
  {
    if s == "" then "Unknown" else s
  }
}
