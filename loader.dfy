/**
 The dork-list loader. The CSV reader is not part of this model: the file
 arrives already split into rows of fields, or as `Unreadable` when opening
 or parsing it failed. The first row is the header and is skipped whatever
 it holds; every later row gives at most one dork, its first field with the
 surrounding whitespace and then every surrounding double quote removed.
 */
module Loader {
  import opened Strings

  /** What the CSV reader delivered: all of the file's rows, or a failure. */
  datatype CsvSource = Rows(rows: seq<seq<string>>) | Unreadable

  /** A row's first field as the loader cleans it: `field.strip().strip('"')`. */
  function Normalise(field: string): (d: string)
    ensures d != [] ==> d[0] != '"' && d[|d| - 1] != '"'
  {
    Strip(Strip(field, Whitespace), Quote)
  }

  /** The dork a non-header row contributes: none for an empty row or an empty cleaned field. */
  function RowDork(row: seq<string>): seq<string> {
    if row != [] && Normalise(row[0]) != "" then [Normalise(row[0])] else []
  }

  /** The dorks of the rows after the header, in row order. */
  function BodyDorks(body: seq<seq<string>>): seq<string> {
    if body == [] then [] else BodyDorks(body[..|body| - 1]) + RowDork(body[|body| - 1])
  }

  /** The dorks of a whole file: its first row is dropped as the header. */
  function DorkList(rows: seq<seq<string>>): seq<string> {
    if rows == [] then [] else BodyDorks(rows[1..])
  }

  /**
   Reads the dork list. A failed read gives the empty list; otherwise the
   rows after the header are visited in order and each kept dork is appended.
   */
  method LoadDorksFromCsv(source: CsvSource) returns (dorks: seq<string>)
    ensures source.Unreadable? ==> dorks == []
    ensures source.Rows? ==> dorks == DorkList(source.rows)
  {
    dorks := [];
    if source.Unreadable? {
      return;
    }
    var rows := source.rows;
    if rows == [] {
      return;
    }
    var body := rows[1..];
    var i := 0;
    while i < |body|
      invariant 0 <= i <= |body|
      invariant dorks == BodyDorks(body[..i])
    {
      var row := body[i];
      if row != [] {
        var dork := Normalise(row[0]);
        if dork != "" {
          dorks := dorks + [dork];
        }
      }
      assert body[..i + 1][..i] == body[..i];
      i := i + 1;
    }
    assert body[..i] == body;
  }

  /** The rows after the header can be split anywhere: their dorks concatenate in order. */
  lemma {:induction false} BodyDorksAppend(a: seq<seq<string>>, b: seq<seq<string>>)
    ensures BodyDorks(a + b) == BodyDorks(a) + BodyDorks(b)
    decreases |b|
  {
    if b == [] {
      assert a + b == a;
    } else {
      var b' := b[..|b| - 1];
      assert (a + b)[..|a + b| - 1] == a + b';
      assert (a + b)[|a + b| - 1] == b[|b| - 1];
      BodyDorksAppend(a, b');
      assert BodyDorks(b) == BodyDorks(b') + RowDork(b[|b| - 1]);
    }
  }

  /** A single row's contribution. */
  lemma BodyDorksSingle(row: seq<string>)
    ensures BodyDorks([row]) == RowDork(row)
  {
    assert [row][..0] == [];
  }

  /** A file with no row after the header gives no dork, whatever its first row is. */
  lemma HeaderOnly(rows: seq<seq<string>>)
    requires |rows| <= 1
    ensures DorkList(rows) == []
  {
    if |rows| == 1 {
      assert rows[1..] == [];
    }
  }

  /** The first row never matters: two files that agree after it give the same dorks. */
  lemma HeaderIgnored(h1: seq<string>, h2: seq<string>, body: seq<seq<string>>)
    ensures DorkList([h1] + body) == DorkList([h2] + body) == BodyDorks(body)
  {
    assert ([h1] + body)[1..] == body;
    assert ([h2] + body)[1..] == body;
  }

  /** The row is non-empty and its first field cleans to the non-empty string `d`. */
  predicate Yields(row: seq<string>, d: string) {
    row != [] && d == Normalise(row[0]) && d != ""
  }

  /** Every dork comes from some row after the header: that row's cleaned first field. */
  lemma {:induction false} DorkSource(body: seq<seq<string>>, d: string) returns (k: nat)
    requires d in BodyDorks(body)
    ensures k < |body| && Yields(body[k], d)
  {
    var front := body[..|body| - 1];
    if d in BodyDorks(front) {
      k := DorkSource(front, d);
      assert body[k] == front[k];
    } else {
      k := |body| - 1;
    }
  }

  /**
   Every dork is non-empty and neither starts nor ends with a double quote,
   and there are at most as many dorks as rows after the header.
   */
  lemma {:induction false} BodyDorksShape(body: seq<seq<string>>)
    ensures |BodyDorks(body)| <= |body|
    ensures forall d :: d in BodyDorks(body) ==> d != "" && d[0] != '"' && d[|d| - 1] != '"'
  {
    if body != [] {
      BodyDorksShape(body[..|body| - 1]);
    }
    forall d | d in BodyDorks(body) ensures d != "" && d[0] != '"' && d[|d| - 1] != '"' {
      var k := DorkSource(body, d);
    }
  }

  /** Every row after the header whose first field cleans to a non-empty string gives that dork. */
  lemma {:induction false} RowGivesDork(body: seq<seq<string>>, k: nat, d: string)
    requires k < |body| && Yields(body[k], d)
    ensures d in BodyDorks(body)
  {
    assert body == body[..k] + [body[k]] + body[k + 1..];
    BodyDorksAppend(body[..k] + [body[k]], body[k + 1..]);
    BodyDorksAppend(body[..k], [body[k]]);
    BodyDorksSingle(body[k]);
  }

  /**
   A string is a dork exactly when some row after the header is non-empty and
   its cleaned first field is that non-empty string.
   */
  lemma BodyDorksMember(body: seq<seq<string>>, d: string)
    ensures d in BodyDorks(body) <==> exists k :: 0 <= k < |body| && Yields(body[k], d)
  {
    if d in BodyDorks(body) {
      var k := DorkSource(body, d);
    }
    if exists k :: 0 <= k < |body| && Yields(body[k], d) {
      var k :| 0 <= k < |body| && Yields(body[k], d);
      RowGivesDork(body, k, d);
    }
  }

  /**
   Only the first field of each row is read: rows that are empty at the same
   places and agree on their first fields give the same dorks.
   */
  lemma {:induction false} BodyDorksFirstFieldsOnly(b1: seq<seq<string>>, b2: seq<seq<string>>)
    requires |b1| == |b2|
    requires forall k :: 0 <= k < |b1| ==> (b1[k] == [] <==> b2[k] == [])
    requires forall k :: 0 <= k < |b1| && b1[k] != [] && b2[k] != [] ==> b1[k][0] == b2[k][0]
    ensures BodyDorks(b1) == BodyDorks(b2)
  {
    if b1 != [] {
      BodyDorksFirstFieldsOnly(b1[..|b1| - 1], b2[..|b2| - 1]);
    }
  }

  /**
   An empty row, or a row whose first field cleans to nothing, can be taken
   out of the file without changing the dorks.
   */
  lemma SkippedRowContributesNothing(a: seq<seq<string>>, row: seq<string>, b: seq<seq<string>>)
    requires row == [] || Normalise(row[0]) == ""
    ensures BodyDorks(a + [row] + b) == BodyDorks(a + b)
  {
    BodyDorksAppend(a + [row], b);
    BodyDorksAppend(a, [row]);
    BodyDorksSingle(row);
    BodyDorksAppend(a, b);
  }

  /** The spaced row of the loader example: `  b  ` cleans to `b`. */
  lemma NormaliseSpaced()
    ensures Normalise("  b  ") == "b"
  {
    var s := "  b  ";
    assert SkipForward(s, Whitespace, 0) == 2 by {
      assert In(Whitespace, s[0]) && In(Whitespace, s[1]) && !In(Whitespace, s[2]);
    }
    assert SkipBackward(s, Whitespace, 2, 5) == 3 by {
      assert In(Whitespace, s[4]) && In(Whitespace, s[3]) && !In(Whitespace, s[2]);
    }
    assert Strip(s, Whitespace) == "b";
  }

  /** The quoted row of the loader example: `"c"` cleans to `c`. */
  lemma NormaliseQuoted()
    ensures Normalise("\"c\"") == "c"
  {
    var s := "\"c\"";
    assert Strip(s, Whitespace) == s by {
      assert !In(Whitespace, s[0]) && !In(Whitespace, s[2]);
    }
    assert SkipForward(s, Quote, 0) == 1;
    assert SkipBackward(s, Quote, 1, 3) == 2;
  }

  /** Four rows after the header give their dorks in order. */
  lemma BodyDorksOfFour(r0: seq<string>, r1: seq<string>, r2: seq<string>, r3: seq<string>)
    ensures BodyDorks([r0, r1, r2, r3]) == RowDork(r0) + RowDork(r1) + RowDork(r2) + RowDork(r3)
  {
    assert [r0, r1, r2, r3][..3] == [r0, r1, r2];
    assert [r0, r1, r2][..2] == [r0, r1];
    assert [r0, r1][..1] == [r0];
    BodyDorksSingle(r0);
    assert BodyDorks([r0, r1]) == RowDork(r0) + RowDork(r1);
    assert BodyDorks([r0, r1, r2]) == RowDork(r0) + RowDork(r1) + RowDork(r2);
  }

  /** The loader example's row `a` contributes `a`. */
  lemma RowDorkPlain()
    ensures RowDork(["a"]) == ["a"]
  {
    assert Normalise("a") == "a";
  }

  /** The loader example's row `  b  ` contributes `b`. */
  lemma RowDorkSpaced()
    ensures RowDork(["  b  "]) == ["b"]
  {
    NormaliseSpaced();
  }

  /** The loader example's row with an empty field contributes nothing. */
  lemma RowDorkEmptyField()
    ensures RowDork([""]) == []
  {
    assert Normalise("") == "";
  }

  /** The loader example's row `"c"` contributes `c`. */
  lemma RowDorkQuoted()
    ensures RowDork(["\"c\""]) == ["c"]
  {
    NormaliseQuoted();
  }

  /** A header `dork` and the rows `a`, `  b  `, an empty field and `"c"` give exactly `a`, `b`, `c`. */
  lemma LoaderExample()
    ensures DorkList([["dork"], ["a"], ["  b  "], [""], ["\"c\""]]) == ["a", "b", "c"]
  {
    var rows: seq<seq<string>> := [["dork"], ["a"], ["  b  "], [""], ["\"c\""]];
    assert rows[1..] == [["a"], ["  b  "], [""], ["\"c\""]];
    RowDorkPlain();
    RowDorkSpaced();
    RowDorkEmptyField();
    RowDorkQuoted();
    BodyDorksOfFour(["a"], ["  b  "], [""], ["\"c\""]);
    assert DorkList(rows) == ["a"] + ["b"] + [] + ["c"];
  }
}
