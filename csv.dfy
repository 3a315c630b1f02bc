/** The character-level CSV reader shared by the screener and the relative-strength
    page, and the row objects it builds from a trimmed header. */
module Csv {
  import opened Text
  import opened Seqs
  import opened Values

  /** One own property of a plain object; an object is its properties in insertion order. */
  datatype Entry = Entry(key: string, value: string)
  type Obj = seq<Entry>

  function Keys(o: Obj): (r: seq<string>)
    ensures |r| == |o|
  {
    if o == [] then [] else [o[0].key] + Keys(o[1..])
  }

  /** `o[k]` when `k` is an own property. */
  function Get(o: Obj, k: string): Option<string> {
    if o == [] then None else if o[0].key == k then Some(o[0].value) else Get(o[1..], k)
  }

  /** A key reads as present exactly when it is an own property. */
  lemma {:induction false} GetKeys(o: Obj, k: string)
    ensures Get(o, k).Some? <==> k in Keys(o)
  {
    if o != [] {
      GetKeys(o[1..], k);
    }
  }

  /** `o[k] = v`: an existing property keeps its position and takes the new value,
      a new one is appended. */
  function Put(o: Obj, k: string, v: string): Obj {
    if o == [] then [Entry(k, v)]
    else if o[0].key == k then [Entry(k, v)] + o[1..]
    else [o[0]] + Put(o[1..], k, v)
  }

  /** An existing key keeps the key order; a new key is appended to it. */
  lemma {:induction false} PutKeys(o: Obj, k: string, v: string)
    ensures Keys(Put(o, k, v)) == if k in Keys(o) then Keys(o) else Keys(o) + [k]
  {
    if o != [] && o[0].key != k {
      PutKeys(o[1..], k, v);
      assert ([o[0]] + Put(o[1..], k, v))[1..] == Put(o[1..], k, v);
      assert k in Keys(o) <==> k in Keys(o[1..]);
      if k !in Keys(o) {
        assert [o[0].key] + (Keys(o[1..]) + [k]) == Keys(o) + [k];
      }
    }
  }

  lemma PutGetSame(o: Obj, k: string, v: string)
    ensures Get(Put(o, k, v), k) == Some(v)
  {
    PutGet(o, k, v, k);
  }

  lemma PutGetOther(o: Obj, k: string, v: string, k': string)
    requires k' != k
    ensures Get(Put(o, k, v), k') == Get(o, k')
  {
    PutGet(o, k, v, k');
  }

  /** After `o[k] = v`, reading `k` gives `v` and reading any other key is unchanged. */
  lemma {:induction false} PutGet(o: Obj, k: string, v: string, k': string)
    ensures Get(Put(o, k, v), k') == if k' == k then Some(v) else Get(o, k')
  {
    if o != [] && o[0].key != k {
      PutGet(o[1..], k, v, k');
      assert ([o[0]] + Put(o[1..], k, v))[1..] == Put(o[1..], k, v);
    } else if o != [] {
      assert ([Entry(k, v)] + o[1..])[1..] == o[1..];
    }
  }

  /** The reader's state: finished records, the fields of the current record, the
      current field and whether a quoted section is open. */
  datatype Lexer = Lexer(rows: seq<seq<string>>, cur: seq<string>, field: string, inQ: bool)

  const Start := Lexer([], [], "", false)

  /** The `push` closure: the current field ends. */
  function PushField(st: Lexer): Lexer {
    st.(cur := st.cur + [st.field], field := "")
  }

  /** A record worth keeping: not a single field that is blank after trimming. */
  predicate Keeps(r: seq<string>) {
    r != [] && !(|r| == 1 && Trim(r[0]) == "")
  }

  /** The `row` closure: the current record ends, and is dropped when it is one blank field. */
  function PushRow(st: Lexer): (r: Lexer)
    requires st.cur != []
    ensures r.cur == [] && r.field == st.field && r.inQ == st.inQ
    ensures r.rows == if Keeps(st.cur) then st.rows + [st.cur] else st.rows
  {
    if |st.cur| == 1 && Trim(st.cur[0]) == "" then st.(cur := []) else st.(rows := st.rows + [st.cur], cur := [])
  }

  /** One move of the reader at the start of `s`: how many characters it consumes
      (two for an escaped quote) and the state after them. */
  function Step(s: string, st: Lexer): (r: (nat, Lexer))
    requires s != []
    ensures 1 <= r.0 <= |s|
  {
    if st.inQ then
      if s[0] == '"' then
        if |s| > 1 && s[1] == '"' then (2, st.(field := st.field + ['"']))
        else (1, st.(inQ := false))
      else (1, st.(field := st.field + [s[0]]))
    else if s[0] == '"' then (1, st.(inQ := true))
    else if s[0] == ',' then (1, PushField(st))
    else if s[0] == '\n' then (1, PushRow(PushField(st)))
    else if s[0] == '\r' then (1, st)
    else (1, st.(field := st.field + [s[0]]))
  }

  /** The reader run over the rest `s` of the input. */
  function Run(s: string, st: Lexer): Lexer
    decreases |s|
  {
    if s == [] then st else Run(s[Step(s, st).0..], Step(s, st).1)
  }

  /** A run goes on from where one move leaves it. */
  lemma RunAdvance(s: string, st: Lexer, k: nat, next: Lexer)
    requires s != [] && Step(s, st) == (k, next)
    ensures Run(s, st) == Run(s[k..], next)
  {
  }

  /** The records of `text`: the run, then the final `push(); row();`. */
  function Records(text: string): seq<seq<string>> {
    PushRow(PushField(Run(text, Start))).rows
  }

  /** `r[i] ?? ""`. */
  function CellAt(cells: seq<string>, j: nat): string {
    if j < |cells| then cells[j] else ""
  }

  /** The object after assigning the first `n` header names in order. */
  function Fill(hdr: seq<string>, cells: seq<string>, n: nat): Obj
    requires n <= |hdr|
  {
    if n == 0 then [] else Put(Fill(hdr, cells, n - 1), hdr[n - 1], CellAt(cells, n - 1))
  }

  function MakeObject(hdr: seq<string>, cells: seq<string>): Obj {
    Fill(hdr, cells, |hdr|)
  }

  function Header(r: seq<string>): (h: seq<string>)
    ensures |h| == |r| && forall j :: 0 <= j < |r| ==> h[j] == Trim(r[j])
  {
    seq(|r|, j requires 0 <= j < |r| => Trim(r[j]))
  }

  /** What `parseCSV` returns: nothing for fewer than two records, otherwise one object
      per data record, keyed by the trimmed header. */
  function Table(text: string): seq<Obj> {
    var rs := Records(text);
    if |rs| < 2 then []
    else
      Objects(Header(rs[0]), rs[1..])
  }

  /** `recs.map((r) => MakeObject(hdr, r))`. */
  function Objects(hdr: seq<string>, recs: seq<seq<string>>): (r: seq<Obj>)
    ensures |r| == |recs|
    ensures forall i :: 0 <= i < |recs| ==> r[i] == MakeObject(hdr, recs[i])
  {
    Map(r => MakeObject(hdr, r), recs)
  }

  /** `hdr.forEach((h, i) => { o[h] = r[i] ?? ""; })`. */
  method FillObject(hdr: seq<string>, cells: seq<string>) returns (o: Obj)
    ensures o == MakeObject(hdr, cells)
  {
    o := [];
    for j := 0 to |hdr|
      invariant o == Fill(hdr, cells, j)
    {
      o := Put(o, hdr[j], if j < |cells| then cells[j] else "");
    }
  }

  /** The character loop of `parseCSV` with its `push` and `row` closures inlined,
      followed by the final `push(); row();`. */
  method Lex(text: string) returns (rows: seq<seq<string>>)
    ensures rows == Records(text)
  {
    rows := [];
    var cur: seq<string> := [];
    var field: string := "";
    var inQ := false;
    var i := 0;
    while i < |text|
      invariant 0 <= i <= |text|
      invariant Run(text[i..], Lexer(rows, cur, field, inQ)) == Run(text, Start)
      decreases |text| - i
    {
      ghost var before := Lexer(rows, cur, field, inQ);
      ghost var s := text[i..];
      ghost var i0 := i;
      var c := text[i];
      assert s[0] == c;
      if inQ {
        if c == '"' {
          if i + 1 < |text| && text[i + 1] == '"' {
            assert s[1] == text[i + 1];
            field := field + ['"'];
            i := i + 1;
          } else {
            inQ := false;
          }
        } else {
          field := field + [c];
        }
        i := i + 1;
        RunAdvance(s, before, i - i0, Lexer(rows, cur, field, inQ));
      } else {
        if c == '"' {
          inQ := true;
        } else if c == ',' {
          cur := cur + [field];
          field := "";
        } else if c == '\n' {
          cur := cur + [field];
          field := "";
          if |cur| == 1 && Trim(cur[0]) == "" {
            cur := [];
          } else {
            rows := rows + [cur];
            cur := [];
          }
        } else if c != '\r' {
          field := field + [c];
        }
        i := i + 1;
        RunAdvance(s, before, 1, Lexer(rows, cur, field, inQ));
      }
      assert s[i - i0..] == text[i..];
    }
    assert text[i..] == [];
    cur := cur + [field];
    field := "";
    if !(|cur| == 1 && Trim(cur[0]) == "") {
      rows := rows + [cur];
    }
  }

  /** `parseCSV(text)`: the records, then one object per data record under the trimmed header. */
  method ParseCSV(text: string) returns (table: seq<Obj>)
    ensures table == Table(text)
  {
    var rows := Lex(text);
    if |rows| < 2 {
      return [];
    }
    var hdr := Header(rows[0]);
    var recs := rows[1..];
    table := [];
    var n := 0;
    while n < |recs|
      invariant 0 <= n <= |recs|
      invariant table == Objects(hdr, recs[..n])
    {
      var o := FillObject(hdr, recs[n]);
      MapSnoc(r => MakeObject(hdr, r), recs, n);
      table := table + [o];
      n := n + 1;
    }
    assert recs[..n] == recs;
  }

  // ---- Properties of the reader ----

  /** Inside quotes every character other than `"` is content, `,`, `\n` and `\r` included. */
  lemma {:induction false} QuotedRun(q: string, rest: string, st: Lexer)
    requires st.inQ && '"' !in q
    ensures Run(q + rest, st) == Run(rest, st.(field := st.field + q))
  {
    if q == [] {
      assert q + rest == rest;
      assert st.field + q == st.field;
    } else {
      assert (q + rest)[1..] == q[1..] + rest;
      QuotedRun(q[1..], rest, st.(field := st.field + [q[0]]));
      assert st.field + [q[0]] + q[1..] == st.field + q;
    }
  }

  /** Inside quotes `""` is one literal quote and quoting stays open. */
  lemma EscapedQuote(rest: string, st: Lexer)
    requires st.inQ
    ensures Run("\"\"" + rest, st) == Run(rest, st.(field := st.field + "\""))
  {
    assert ("\"\"" + rest)[2..] == rest;
  }

  /** An unterminated quote absorbs the rest of the input into the current field. */
  lemma UnterminatedQuote(s: string, st: Lexer)
    requires st.inQ && '"' !in s
    ensures Run(s, st) == st.(field := st.field + s)
  {
    QuotedRun(s, [], st);
    assert s + [] == s;
  }

  /** A quote opens quoting even in the middle of a field. */
  lemma QuoteOpensMidField(s: string, st: Lexer)
    requires !st.inQ && s != [] && s[0] == '"'
    ensures Run(s, st) == Run(s[1..], st.(inQ := true))
  {
  }

  /** Outside quotes, `\r` is skipped: without quotes, removing every `\r` changes nothing. */
  lemma {:induction false} CarriageReturnSkipped(s: string, st: Lexer)
    requires !st.inQ && '"' !in s
    ensures Run(s, st) == Run(Select(s, c => c != '\r'), st)
  {
    if s != [] {
      CarriageReturnSkipped(s[1..], if s[0] == ',' then PushField(st)
                                    else if s[0] == '\n' then PushRow(PushField(st))
                                    else if s[0] == '\r' then st
                                    else st.(field := st.field + [s[0]]));
      var t := Select(s[1..], c => c != '\r');
      if s[0] != '\r' {
        assert Select(s, c => c != '\r') == [s[0]] + t;
        assert ([s[0]] + t)[1..] == t;
      } else {
        assert Select(s, c => c != '\r') == t;
      }
    }
  }

  lemma PushRowKeeps(st: Lexer)
    requires st.cur != [] && forall r :: r in st.rows ==> Keeps(r)
    ensures forall r :: r in PushRow(st).rows ==> Keeps(r)
  {
  }

  lemma {:induction false} RunKeeps(s: string, st: Lexer)
    requires forall r :: r in st.rows ==> Keeps(r)
    ensures forall r :: r in Run(s, st).rows ==> Keeps(r)
    decreases |s|
  {
    if s != [] {
      if !st.inQ && s[0] == '\n' {
        PushRowKeeps(PushField(st));
      }
      RunKeeps(s[Step(s, st).0..], Step(s, st).1);
    }
  }

  /** No record is empty and none is a single blank field: those lines are dropped. */
  lemma RecordsKept(text: string)
    ensures forall r :: r in Records(text) ==> Keeps(r)
  {
    RunKeeps(text, Start);
    PushRowKeeps(PushField(Run(text, Start)));
  }

  // ---- A writer, to state the record structure as a round trip ----

  predicate PlainField(f: string) {
    forall i :: 0 <= i < |f| ==> f[i] != ',' && f[i] != '"' && f[i] != '\n' && f[i] != '\r'
  }

  /** Doubles every quote. */
  function Escape(f: string): string {
    if f == [] then [] else (if f[0] == '"' then "\"\"" else [f[0]]) + Escape(f[1..])
  }

  /** A field as written: bare when it has no special character, quoted otherwise. */
  function Encode(f: string): string {
    if PlainField(f) then f else "\"" + Escape(f) + "\""
  }

  function Line(r: seq<string>): string {
    if r == [] then [] else if |r| == 1 then Encode(r[0]) else Encode(r[0]) + "," + Line(r[1..])
  }

  /** Every record followed by a newline. */
  function Write(rows: seq<seq<string>>): string {
    if rows == [] then [] else Line(rows[0]) + "\n" + Write(rows[1..])
  }

  lemma {:induction false} PlainRun(f: string, rest: string, st: Lexer)
    requires !st.inQ && PlainField(f)
    ensures Run(f + rest, st) == Run(rest, st.(field := st.field + f))
  {
    if f == [] {
      assert f + rest == rest;
      assert st.field + f == st.field;
    } else {
      assert (f + rest)[0] == f[0] && (f + rest)[1..] == f[1..] + rest;
      PlainRun(f[1..], rest, st.(field := st.field + [f[0]]));
      assert st.field + [f[0]] + f[1..] == st.field + f;
    }
  }

  lemma {:induction false} EscapedRun(f: string, rest: string, st: Lexer)
    requires st.inQ && (rest == [] || rest[0] != '"')
    ensures Run(Escape(f) + "\"" + rest, st) == Run(rest, st.(field := st.field + f, inQ := false))
  {
    if f == [] {
      assert Escape(f) + "\"" + rest == "\"" + rest;
      CloseQuote(rest, st);
      assert st.field + f == st.field;
    } else {
      EscapePeel(f, rest, st);
      EscapedRun(f[1..], rest, st.(field := st.field + [f[0]]));
      assert st.field + [f[0]] + f[1..] == st.field + f;
    }
  }

  /** Inside quotes, a `"` not followed by another closes quoting. */
  lemma CloseQuote(rest: string, st: Lexer)
    requires st.inQ && (rest == [] || rest[0] != '"')
    ensures Run("\"" + rest, st) == Run(rest, st.(inQ := false))
  {
    assert ("\"" + rest)[1..] == rest;
  }

  /** Inside quotes, the escaped form of one character reads as that character. */
  lemma EscapePeel(f: string, rest: string, st: Lexer)
    requires st.inQ && f != []
    ensures Run(Escape(f) + "\"" + rest, st) == Run(Escape(f[1..]) + "\"" + rest, st.(field := st.field + [f[0]]))
  {
    var u := Escape(f[1..]) + "\"" + rest;
    if f[0] == '"' {
      assert Escape(f) + "\"" + rest == "\"\"" + u;
      EscapedQuote(u, st);
    } else {
      assert Escape(f) + "\"" + rest == [f[0]] + u;
      QuotedRun([f[0]], u, st);
    }
  }

  lemma FieldRun(f: string, t: string, st: Lexer)
    requires !st.inQ && st.field == ""
    requires t == [] || t[0] != '"'
    ensures Run(Encode(f) + t, st) == Run(t, st.(field := f))
  {
    if PlainField(f) {
      PlainRun(f, t, st);
      assert st.field + f == f;
    } else {
      QuotedFieldRun(f, t, st);
    }
  }

  /** A quoted field: the opening quote, the escaped text and the closing quote. */
  lemma QuotedFieldRun(f: string, t: string, st: Lexer)
    requires !st.inQ && st.field == ""
    requires t == [] || t[0] != '"'
    ensures Run("\"" + Escape(f) + "\"" + t, st) == Run(t, st.(field := f))
  {
    var body := Escape(f) + "\"" + t;
    var s := "\"" + body;
    assert s == "\"" + Escape(f) + "\"" + t;
    assert s[1..] == body;
    var quoted := st.(inQ := true);
    QuoteOpensMidField(s, st);
    EscapedRun(f, t, quoted);
    assert quoted.(field := quoted.field + f, inQ := false) == st.(field := f);
  }

  lemma RunNewline(rest: string, st: Lexer)
    requires !st.inQ
    ensures Run("\n" + rest, st) == Run(rest, PushRow(PushField(st)))
  {
    assert ("\n" + rest)[1..] == rest;
  }

  lemma RunComma(rest: string, st: Lexer)
    requires !st.inQ
    ensures Run("," + rest, st) == Run(rest, PushField(st))
  {
    assert ("," + rest)[1..] == rest;
  }

  /** Outside quotes `\r` is dropped: the lexer goes on in the same state. */
  lemma RunReturn(rest: string, st: Lexer)
    requires !st.inQ
    ensures Run("\r" + rest, st) == Run(rest, st)
  {
    assert ("\r" + rest)[1..] == rest;
  }

  lemma {:induction false} LineRun(r: seq<string>, rest: string, acc: seq<seq<string>>, cur: seq<string>)
    requires r != []
    ensures Run(Line(r) + "\n" + rest, Lexer(acc, cur, "", false)) == Run(rest, PushRow(Lexer(acc, cur + r, "", false)))
  {
    if |r| == 1 {
      LastFieldRun(r[0], rest, acc, cur);
      assert [r[0]] == r;
    } else {
      var tail := Line(r[1..]) + "\n" + rest;
      assert Line(r) + "\n" + rest == Encode(r[0]) + "," + tail;
      InnerFieldRun(r[0], tail, acc, cur);
      LineRun(r[1..], rest, acc, cur + [r[0]]);
      assert cur + [r[0]] + r[1..] == cur + r;
    }
  }

  /** The last field of a record, then its newline. */
  lemma LastFieldRun(f: string, rest: string, acc: seq<seq<string>>, cur: seq<string>)
    ensures Run(Encode(f) + "\n" + rest, Lexer(acc, cur, "", false)) == Run(rest, PushRow(Lexer(acc, cur + [f], "", false)))
  {
    var st := Lexer(acc, cur, "", false);
    var t := "\n" + rest;
    assert Encode(f) + "\n" + rest == Encode(f) + t;
    FieldRun(f, t, st);
    RunNewline(rest, st.(field := f));
  }

  /** A field of a record other than the last, then its comma. */
  lemma InnerFieldRun(f: string, tail: string, acc: seq<seq<string>>, cur: seq<string>)
    ensures Run(Encode(f) + "," + tail, Lexer(acc, cur, "", false)) == Run(tail, Lexer(acc, cur + [f], "", false))
  {
    var st := Lexer(acc, cur, "", false);
    var t := "," + tail;
    assert Encode(f) + "," + tail == Encode(f) + t;
    FieldRun(f, t, st);
    RunComma(tail, st.(field := f));
  }

  lemma {:induction false} WriteRun(rows: seq<seq<string>>, acc: seq<seq<string>>)
    ensures Run(Write(rows), Lexer(acc, [], "", false)) == Lexer(acc + Select(rows, Keeps), [], "", false)
  {
    if rows == [] {
      assert acc + [] == acc;
    } else {
      var st := Lexer(acc, [], "", false);
      var rest := Write(rows[1..]);
      var kept := Select(rows[1..], Keeps);
      assert Write(rows) == Line(rows[0]) + "\n" + rest;
      if rows[0] == [] {
        assert Write(rows) == "\n" + rest;
        RunNewline(rest, st);
        assert PushRow(PushField(st)) == st;
        WriteRun(rows[1..], acc);
        assert Select(rows, Keeps) == kept;
      } else {
        LineRun(rows[0], rest, acc, []);
        assert [] + rows[0] == rows[0];
        if Keeps(rows[0]) {
          assert PushRow(Lexer(acc, rows[0], "", false)) == Lexer(acc + [rows[0]], [], "", false);
          WriteRun(rows[1..], acc + [rows[0]]);
          assert Select(rows, Keeps) == [rows[0]] + kept;
          AppendAssoc(acc, [rows[0]], kept);
        } else {
          assert PushRow(Lexer(acc, rows[0], "", false)) == st;
          WriteRun(rows[1..], acc);
          assert Select(rows, Keeps) == kept;
        }
      }
    }
  }

  /** Reading written records gives them back, less the empty and single-blank-field ones:
      `,` ends a field, `\n` ends a record, and quoting carries any character. */
  lemma RecordsOfWrite(rows: seq<seq<string>>)
    ensures Records(Write(rows)) == Select(rows, Keeps)
  {
    WriteRun(rows, []);
    assert [] + Select(rows, Keeps) == Select(rows, Keeps);
  }

  // ---- Properties of the objects ----

  lemma {:induction false} FillKeys(hdr: seq<string>, cells: seq<string>, n: nat)
    requires n <= |hdr|
    ensures Keys(Fill(hdr, cells, n)) == Distinct(hdr[..n])
  {
    if n > 0 {
      var prev, init, k := Fill(hdr, cells, n - 1), hdr[..n - 1], hdr[n - 1];
      FillKeys(hdr, cells, n - 1);
      assert Fill(hdr, cells, n) == Put(prev, k, CellAt(cells, n - 1));
      PutKeys(prev, k, CellAt(cells, n - 1));
      assert hdr[..n][..n - 1] == init && hdr[..n][n - 1] == k;
      DistinctLast(hdr[..n]);
      DistinctHas(init, k);
    }
  }

  lemma {:induction false} FillGet(hdr: seq<string>, cells: seq<string>, n: nat, j: nat)
    requires j < n <= |hdr|
    requires forall j2 :: j < j2 < n ==> hdr[j2] != hdr[j]
    ensures Get(Fill(hdr, cells, n), hdr[j]) == Some(CellAt(cells, j))
  {
    var prev, c := Fill(hdr, cells, n - 1), CellAt(cells, n - 1);
    assert Fill(hdr, cells, n) == Put(prev, hdr[n - 1], c);
    if j < n - 1 {
      FillGet(hdr, cells, n - 1, j);
      PutGetOther(prev, hdr[n - 1], c, hdr[j]);
    } else {
      PutGetSame(prev, hdr[j], c);
    }
  }

  lemma {:induction false} FillMissing(hdr: seq<string>, cells: seq<string>, n: nat, k: string)
    requires n <= |hdr| && k !in hdr[..n]
    ensures Get(Fill(hdr, cells, n), k) == None
  {
    if n > 0 {
      assert hdr[..n - 1] == hdr[..n][..n - 1];
      assert hdr[..n][n - 1] == hdr[n - 1];
      FillMissing(hdr, cells, n - 1, k);
      var prev := Fill(hdr, cells, n - 1);
      assert Fill(hdr, cells, n) == Put(prev, hdr[n - 1], CellAt(cells, n - 1));
      PutGet(prev, hdr[n - 1], CellAt(cells, n - 1), k);
    }
  }

  /** The object built from one record: exactly the distinct header names as keys, in
      first-seen order; a name takes the cell of its last column, `""` past the end of
      the record. */
  ghost predicate RowSpec(o: Obj, hdr: seq<string>, cells: seq<string>) {
    && Keys(o) == Distinct(hdr)
    && (forall j :: 0 <= j < |hdr| && (forall j2 :: j < j2 < |hdr| ==> hdr[j2] != hdr[j]) ==>
          Get(o, hdr[j]) == Some(CellAt(cells, j)))
    && (forall k :: k !in hdr ==> Get(o, k) == None)
  }

  lemma ObjectSpec(hdr: seq<string>, cells: seq<string>)
    ensures RowSpec(MakeObject(hdr, cells), hdr, cells)
  {
    var o := MakeObject(hdr, cells);
    assert hdr[..|hdr|] == hdr;
    FillKeys(hdr, cells, |hdr|);
    forall j | 0 <= j < |hdr| && (forall j2 :: j < j2 < |hdr| ==> hdr[j2] != hdr[j])
      ensures Get(o, hdr[j]) == Some(CellAt(cells, j))
    {
      FillGet(hdr, cells, |hdr|, j);
    }
    forall k | k !in hdr ensures Get(o, k) == None {
      FillMissing(hdr, cells, |hdr|, k);
    }
  }

  /** `parseCSV` gives nothing for fewer than two records, and otherwise one object per
      data record, each keyed by the trimmed header as `RowSpec` says. */
  lemma TableSpec(text: string)
    ensures |Records(text)| < 2 ==> Table(text) == []
    ensures |Records(text)| >= 2 ==> |Table(text)| == |Records(text)| - 1
    ensures |Records(text)| >= 2 ==> forall i :: 0 <= i < |Table(text)| ==>
      RowSpec(Table(text)[i], Header(Records(text)[0]), Records(text)[i + 1])
  {
    var rs := Records(text);
    if |rs| >= 2 {
      forall i | 0 <= i < |Table(text)|
        ensures RowSpec(Table(text)[i], Header(rs[0]), rs[i + 1])
      {
        ObjectSpec(Header(rs[0]), rs[i + 1]);
      }
    }
  }
}
