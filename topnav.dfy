/** The navigation bar: joining class names and the rule that marks a link active. */
module TopNav {
  import opened Text
  import opened Values

  // ---- cn ----

  /** A `cn` argument: a class string, or `None` for `false`, `null` and `undefined`. */
  type Part = Option<string>

  /** `Boolean(part)`. */
  predicate Kept(p: Part) {
    p.Some? && p.value != ""
  }

  /** `parts.filter(Boolean)`: the class strings that are kept, none of them empty. */
  function KeptParts(parts: seq<Part>): (r: seq<string>)
    ensures |r| <= |parts|
    ensures forall i :: 0 <= i < |r| ==> r[i] != ""
  {
    if parts == [] then []
    else (if Kept(parts[0]) then [parts[0].value] else []) + KeptParts(parts[1..])
  }

  /** `xs.join(sep)`. */
  function Join(xs: seq<string>, sep: string): string {
    if xs == [] then ""
    else if |xs| == 1 then xs[0]
    else xs[0] + sep + Join(xs[1..], sep)
  }

  /** `cn(...parts)`. */
  function Cn(parts: seq<Part>): string {
    Join(KeptParts(parts), " ")
  }

  /** Filtering keeps order: the kept parts of a concatenation are the kept parts of
      each half, one after the other; with the one-part case by definition, this
      determines `KeptParts` completely. */
  lemma {:induction false} KeptPartsAppend(a: seq<Part>, b: seq<Part>)
    ensures KeptParts(a + b) == KeptParts(a) + KeptParts(b)
  {
    if a == [] {
      assert a + b == b;
    } else {
      assert (a + b)[0] == a[0];
      assert (a + b)[1..] == a[1..] + b;
      KeptPartsAppend(a[1..], b);
    }
  }

  /** A string is kept exactly when it is non-empty and passed as a part. */
  lemma {:induction false} KeptPartsMembers(parts: seq<Part>, s: string)
    ensures s in KeptParts(parts) <==> s != "" && Some(s) in parts
  {
    if parts != [] {
      KeptPartsMembers(parts[1..], s);
      assert Some(s) in parts <==> parts[0] == Some(s) || Some(s) in parts[1..];
    }
  }

  /** Joining with a separator: two non-empty lists join to the two joins with one
      separator between them. */
  lemma {:induction false} JoinAppend(xs: seq<string>, ys: seq<string>, sep: string)
    requires xs != [] && ys != []
    ensures Join(xs + ys, sep) == Join(xs, sep) + sep + Join(ys, sep)
  {
    if |xs| > 1 {
      assert (xs + ys)[1..] == xs[1..] + ys;
      JoinAppend(xs[1..], ys, sep);
    } else {
      assert (xs + ys)[1..] == ys;
    }
  }

  /** Joined non-empty strings give the empty string only for no strings. */
  lemma {:induction false} JoinEmpty(xs: seq<string>, sep: string)
    requires forall i :: 0 <= i < |xs| ==> xs[i] != ""
    ensures Join(xs, sep) == "" <==> xs == []
  {
    if |xs| > 1 {
      assert xs[0] != "";
    }
  }

  /** No part is kept exactly when every part is falsy. */
  lemma {:induction false} KeptPartsNone(parts: seq<Part>)
    ensures KeptParts(parts) == [] <==> forall i :: 0 <= i < |parts| ==> !Kept(parts[i])
  {
    if parts != [] {
      KeptPartsNone(parts[1..]);
      assert forall i :: 1 <= i < |parts| ==> parts[i] == parts[1..][i - 1];
    }
  }

  /** `cn` gives `""` exactly when no part is kept, joins the kept parts of two argument
      lists with a single space, and drops the falsy parts without a trace. */
  lemma CnSpec(a: seq<Part>, b: seq<Part>)
    ensures Cn(a) == "" <==> forall i :: 0 <= i < |a| ==> !Kept(a[i])
    ensures KeptParts(a) != [] && KeptParts(b) != [] ==> Cn(a + b) == Cn(a) + " " + Cn(b)
    ensures KeptParts(b) == [] ==> Cn(a + b) == Cn(a)
  {
    JoinEmpty(KeptParts(a), " ");
    KeptPartsNone(a);
    KeptPartsAppend(a, b);
    if KeptParts(a) != [] && KeptParts(b) != [] {
      JoinAppend(KeptParts(a), KeptParts(b), " ");
    }
    assert KeptParts(b) == [] ==> KeptParts(a) + KeptParts(b) == KeptParts(a);
  }

  /** The link class: the base classes, a space, then the active or idle classes. */
  lemma LinkClass(base: string, state: string)
    requires base != "" && state != ""
    ensures Cn([Some(base), Some(state)]) == base + " " + state
  {
    var p1: seq<Part>, p2: seq<Part> := [Some(base)], [Some(state)];
    assert p1 + p2 == [Some(base), Some(state)];
    KeptPartsAppend(p1, p2);
    assert KeptParts(p1) == [base] by { assert p1[1..] == []; }
    assert KeptParts(p2) == [state] by { assert p2[1..] == []; }
    JoinAppend([base], [state], " ");
  }

  // ---- Active link ----

  /** `pathname === href || (href !== "/" && pathname?.startsWith(href))`, with `None`
      for a missing pathname. An active link's `href` is always a prefix of the path. */
  function IsActive(pathname: Option<string>, href: string): (r: bool)
    ensures pathname.None? ==> !r
    ensures r ==> StartsWith(pathname.value, href)
  {
    pathname.Some? && (pathname.value == href || (href != "/" && StartsWith(pathname.value, href)))
  }

  /** A link other than `/` is active on every path that extends its `href`, with no
      path-segment boundary required; `/` is active only on `/` itself. */
  lemma ActiveSpec(p: string, href: string)
    ensures IsActive(Some(p), href) <==> (exists t :: p == href + t) && (href != "/" || p == href)
  {
    if IsActive(Some(p), href) {
      assert p == href + p[|href|..];
    }
    if exists t :: p == href + t {
      var t :| p == href + t;
      assert p[..|href|] == href;
    }
  }

  /** One consequence: `/screener` is active on `/screenerfoo`. */
  lemma NoSegmentBoundary(href: string, t: string)
    requires href != "/"
    ensures IsActive(Some(href + t), href)
  {
    ActiveSpec(href + t, href);
  }

  /** On an active link, the path agrees with `href` at each of its positions. */
  lemma ActiveChar(p: string, h: string, k: nat)
    requires k < |h|
    ensures IsActive(Some(p), h) ==> k < |p| && p[k] == h[k]
  {
    if IsActive(Some(p), h) {
      assert p[..|h|] == h;
    }
  }

  /** Two links whose `href`s differ at a position both have are never active together. */
  lemma ActiveExclusive(p: string, h1: string, h2: string, k: nat)
    requires k < |h1| && k < |h2| && h1[k] != h2[k]
    ensures !(IsActive(Some(p), h1) && IsActive(Some(p), h2))
  {
    ActiveChar(p, h1, k);
    ActiveChar(p, h2, k);
  }

  /** The `href`s of `NAV`, in order. */
  const NavHrefs: seq<string> := ["/screener", "/portfolio", "/about", "/login"]

  /** At most one of the navigation links is active for any path. */
  lemma NavExclusive(p: string, i: nat, j: nat)
    requires i < |NavHrefs| && j < |NavHrefs| && i != j
    ensures !(IsActive(Some(p), NavHrefs[i]) && IsActive(Some(p), NavHrefs[j]))
  {
    ActiveExclusive(p, NavHrefs[i], NavHrefs[j], 1);
  }
}
