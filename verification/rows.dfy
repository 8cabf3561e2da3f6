/**
 * The textual description of a voxel compound's shape: rows separated by
 * commas, top row first, a blank for an empty cell and any other character
 * for a voxel. This module models how the text is cut into rows.
 */
module Rows {

  const Separator: char := ','

  /** The pieces of s between separators, empty ones included. */
  function Pieces(s: string): (r: seq<string>)
    ensures |r| >= 1
    ensures forall i :: 0 <= i < |r| ==> Separator !in r[i]
  {
    if s == [] then [[]]
    else
      var rest := Pieces(s[1..]);
      if s[0] == Separator then [[]] + rest
      else [[s[0]] + rest[0]] + rest[1..]
  }

  /** rows without its trailing empty strings. */
  function DropTrailingEmpty(rows: seq<string>): (r: seq<string>)
    ensures r <= rows
    ensures r == [] || r[|r| - 1] != []
    ensures forall i :: |r| <= i < |rows| ==> rows[i] == []
  {
    if rows == [] || rows[|rows| - 1] != [] then rows
    else DropTrailingEmpty(rows[..|rows| - 1])
  }

  /**
   * The rows of a shape description, cut at every separator as Java's
   * String.split does: text without a separator is one row, and otherwise
   * the trailing empty rows are dropped (so the result may be empty).
   */
  function Split(s: string): seq<string> {
    if Separator !in s then [s] else DropTrailingEmpty(Pieces(s))
  }

  /** The rows written out with a separator between consecutive ones. */
  function Join(rows: seq<string>): string
    requires |rows| >= 1
  {
    if |rows| == 1 then rows[0] else rows[0] + [Separator] + Join(rows[1..])
  }

  lemma {:induction false} PiecesOfRowThenRest(a: string, b: string)
    requires Separator !in a
    ensures Pieces(a + [Separator] + b) == [a] + Pieces(b)
    decreases |a|
  {
    if a == [] {
      assert a + [Separator] + b == [Separator] + b;
      assert ([Separator] + b)[1..] == b;
    } else {
      assert (a + [Separator] + b)[1..] == a[1..] + [Separator] + b;
      PiecesOfRowThenRest(a[1..], b);
      assert [a[0]] + a[1..] == a;
    }
  }

  lemma {:induction false} PiecesJoin(rows: seq<string>)
    requires |rows| >= 1
    requires forall i :: 0 <= i < |rows| ==> Separator !in rows[i]
    ensures Pieces(Join(rows)) == rows
    ensures Separator in Join(rows) <==> |rows| > 1
    decreases |rows|
  {
    if |rows| == 1 {
      PiecesOfRow(rows[0]);
    } else {
      PiecesJoin(rows[1..]);
      PiecesOfRowThenRest(rows[0], Join(rows[1..]));
      assert Join(rows) == rows[0] + [Separator] + Join(rows[1..]);
      assert Join(rows)[|rows[0]|] == Separator;
      assert [rows[0]] + rows[1..] == rows;
    }
  }

  lemma {:induction false} PiecesOfRow(a: string)
    requires Separator !in a
    ensures Pieces(a) == [a]
    decreases |a|
  {
    if a != [] {
      PiecesOfRow(a[1..]);
      assert [a[0]] + a[1..] == a;
    }
  }

  /**
   * Splitting the joined rows gives the rows back, provided no row holds a
   * separator and the last row is not empty (the split drops trailing
   * empty rows).
   */
  lemma SplitJoin(rows: seq<string>)
    requires |rows| >= 1 && rows[|rows| - 1] != []
    requires forall i :: 0 <= i < |rows| ==> Separator !in rows[i]
    ensures Split(Join(rows)) == rows
  {
    PiecesJoin(rows);
  }

  /** Splitting never yields a row holding a separator, and yields no rows only for text made of separators alone. */
  lemma SplitRows(s: string)
    ensures forall i :: 0 <= i < |Split(s)| ==> Separator !in Split(s)[i]
    ensures Split(s) == [] <==> |s| > 0 && forall i :: 0 <= i < |s| ==> s[i] == Separator
  {
    if Separator in s {
      PiecesAllEmpty(s);
      DropsAll(Pieces(s));
      assert Split(s) == DropTrailingEmpty(Pieces(s));
    } else if |s| > 0 {
      assert s[0] != Separator;
    }
  }

  /** Dropping the trailing empty strings leaves nothing exactly when all of them are empty. */
  lemma DropsAll(rows: seq<string>)
    ensures DropTrailingEmpty(rows) == [] <==> forall i :: 0 <= i < |rows| ==> rows[i] == []
  {
    var r := DropTrailingEmpty(rows);
    if r != [] {
      assert r[|r| - 1] == rows[|r| - 1] != [];
    }
  }

  /** Every piece of s is empty exactly when s is made of separators alone. */
  lemma {:induction false} PiecesAllEmpty(s: string)
    ensures (forall i :: 0 <= i < |Pieces(s)| ==> Pieces(s)[i] == []) <==> forall i :: 0 <= i < |s| ==> s[i] == Separator
    decreases |s|
  {
    if s != [] {
      PiecesAllEmpty(s[1..]);
      var rest := Pieces(s[1..]);
      if s[0] == Separator {
        assert Pieces(s) == [[]] + rest;
        var allEmpty := forall i :: 0 <= i < |rest| ==> rest[i] == [];
        assert (forall i :: 0 <= i < |Pieces(s)| ==> Pieces(s)[i] == []) <==> allEmpty by {
          assert forall i :: 0 <= i < |rest| ==> rest[i] == Pieces(s)[i + 1];
        }
        assert (forall i :: 0 <= i < |s| ==> s[i] == Separator) <==> forall i :: 0 <= i < |s[1..]| ==> s[1..][i] == Separator by {
          assert forall i :: 0 <= i < |s[1..]| ==> s[1..][i] == s[i + 1];
        }
      } else {
        assert Pieces(s)[0] != [];
      }
    }
  }
}
