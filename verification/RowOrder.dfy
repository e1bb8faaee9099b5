/** Exploded rows: how two rows of one key merge, and the order in which rows are returned. */
module RowOrder {
  import opened Prelude
  import opened BomCatalogue

  datatype Row = Row(item: Item, qty: real, rate: real, warehouse: Option<string>, alt: bool,
                     level: int, code: string)

  datatype Key = Key(item: Item, warehouse: Option<string>, alt: bool)

  function KeyOf(r: Row): Key {
    Key(r.item, r.warehouse, r.alt)
  }

  // What a later row adds to the one already in its bucket: the first rate stays.
  function Merge(a: Row, b: Row): Row {
    a.(qty := a.qty + b.qty, alt := a.alt || b.alt,
       level := if b.level < a.level then b.level else a.level,
       code := if a.code != "" then a.code else b.code)
  }

  ghost predicate DistinctKeys(rows: seq<Row>) {
    forall i, j | 0 <= i < j < |rows| :: KeyOf(rows[i]) != KeyOf(rows[j])
  }

  // --- Text order ---

  predicate TextLe(a: string, b: string) {
    a == "" || (b != "" && (a[0] < b[0] || (a[0] == b[0] && TextLe(a[1..], b[1..]))))
  }

  lemma {:induction false} TextLeTotal(a: string, b: string)
    ensures TextLe(a, b) || TextLe(b, a)
    ensures TextLe(a, b) && TextLe(b, a) ==> a == b
  {
    if a != "" && b != "" && a[0] == b[0] {
      TextLeTotal(a[1..], b[1..]);
      assert a == [a[0]] + a[1..] && b == [b[0]] + b[1..];
    }
  }

  // At the first place where they differ a ends, or has the smaller character.
  ghost predicate Precedes(a: string, b: string) {
    exists k: nat | k <= |a| && k < |b| :: a[..k] == b[..k] && (k == |a| || a[k] < b[k])
  }

  lemma {:induction false} TextLeMeans(a: string, b: string)
    ensures TextLe(a, b) <==> a == b || Precedes(a, b)
    ensures Precedes(a, b) ==> a != b
  {
    if a == "" && b != "" {
      assert a[..0] == b[..0];
    } else if a != "" && b != "" {
      if a[0] < b[0] {
        assert a[..0] == b[..0];
      } else if a[0] == b[0] {
        TextLeMeans(a[1..], b[1..]);
        PrecedesRest(a, b);
        assert a == [a[0]] + a[1..] && b == [b[0]] + b[1..];
      }
    }
  }

  lemma PrecedesRest(a: string, b: string)
    requires a != "" && b != "" && a[0] == b[0]
    ensures Precedes(a, b) <==> Precedes(a[1..], b[1..])
  {
    if Precedes(a, b) {
      var k: nat :| k <= |a| && k < |b| && a[..k] == b[..k] && (k == |a| || a[k] < b[k]);
      assert a[1..][..k-1] == a[..k][1..] && b[1..][..k-1] == b[..k][1..];
    }
    if Precedes(a[1..], b[1..]) {
      var k: nat :| k <= |a[1..]| && k < |b[1..]| && a[1..][..k] == b[1..][..k] && (k == |a[1..]| || a[1..][k] < b[1..][k]);
      assert a[..k+1] == [a[0]] + a[1..][..k] && b[..k+1] == [b[0]] + b[1..][..k];
    }
  }

  lemma {:induction false} TextLeTransitive(a: string, b: string, c: string)
    requires TextLe(a, b) && TextLe(b, c)
    ensures TextLe(a, c)
  {
    if a != "" && a[0] == b[0] == c[0] {
      TextLeTransitive(a[1..], b[1..], c[1..]);
    }
  }

  // --- Row order: level, then code, then identifier ---

  predicate RowLe(a: Row, b: Row) {
    a.level < b.level
    || (a.level == b.level
        && ((a.code != b.code && TextLe(a.code, b.code)) || (a.code == b.code && TextLe(a.item, b.item))))
  }

  // The lower level first, then the smaller code, then the smaller identifier.
  ghost predicate InOrder(a: Row, b: Row) {
    || a.level < b.level
    || (a.level == b.level && Precedes(a.code, b.code))
    || (a.level == b.level && a.code == b.code && (Precedes(a.item, b.item) || a.item == b.item))
  }

  lemma RowLeMeans(a: Row, b: Row)
    ensures RowLe(a, b) <==> InOrder(a, b)
  {
    TextLeMeans(a.code, b.code);
    TextLeMeans(a.item, b.item);
    hide TextLe, Precedes;
  }

  lemma RowLeTotal(a: Row, b: Row)
    ensures RowLe(a, b) || RowLe(b, a)
  {
    TextLeTotal(a.code, b.code);
    TextLeTotal(a.item, b.item);
  }

  lemma RowLeTransitive(a: Row, b: Row, c: Row)
    requires RowLe(a, b) && RowLe(b, c)
    ensures RowLe(a, c)
  {
    if a.level == b.level == c.level {
      if a.code != b.code && b.code != c.code {
        TextLeTransitive(a.code, b.code, c.code);
        TextLeTotal(a.code, b.code);
      } else if a.code == b.code == c.code {
        TextLeTransitive(a.item, b.item, c.item);
      }
    }
  }

  ghost predicate Sorted(rows: seq<Row>) {
    forall i, j | 0 <= i < j < |rows| :: RowLe(rows[i], rows[j])
  }

  // Stable insertion: after every row that does not have to follow it.
  function Insert(rows: seq<Row>, r: Row): (s: seq<Row>)
    ensures |s| == |rows| + 1
    ensures multiset(s) == multiset(rows) + multiset{r}
  {
    if rows == [] then [r]
    else
      var last := |rows| - 1;
      assert rows == rows[..last] + [rows[last]];
      if RowLe(rows[last], r) then rows + [r] else Insert(rows[..last], r) + [rows[last]]
  }

  function SortRows(rows: seq<Row>): (s: seq<Row>)
    ensures |s| == |rows|
    ensures multiset(s) == multiset(rows)
  {
    if rows == [] then []
    else
      var last := |rows| - 1;
      assert rows == rows[..last] + [rows[last]];
      Insert(SortRows(rows[..last]), rows[last])
  }

  lemma {:induction false} InsertSorted(rows: seq<Row>, r: Row)
    requires Sorted(rows)
    ensures Sorted(Insert(rows, r))
  {
    if rows != [] {
      var last := |rows| - 1;
      if RowLe(rows[last], r) {
        forall i | 0 <= i < last ensures RowLe(rows[i], r) { RowLeTransitive(rows[i], rows[last], r); }
      } else {
        InsertSorted(rows[..last], r);
        RowLeTotal(r, rows[last]);
        var front := Insert(rows[..last], r);
        forall i | 0 <= i < |front|
          ensures RowLe(front[i], rows[last])
        {
          assert front[i] in multiset(front);
          if front[i] != r {
            assert front[i] in rows[..last];
          }
        }
      }
    }
  }

  lemma {:induction false} SortRowsSorted(rows: seq<Row>)
    ensures Sorted(SortRows(rows))
  {
    if rows != [] {
      SortRowsSorted(rows[..|rows|-1]);
      InsertSorted(SortRows(rows[..|rows|-1]), rows[|rows|-1]);
    }
  }

  // --- Stability ---

  // The row itself, if the order does not tell it from the other one.
  function IfAlike(x: Row, r: Row): seq<Row> {
    if RowLe(x, r) && RowLe(r, x) then [x] else []
  }

  function Alike(rows: seq<Row>, r: Row): seq<Row> {
    if rows == [] then [] else Alike(rows[..|rows|-1], r) + IfAlike(rows[|rows|-1], r)
  }

  lemma AlikeSnoc(rows: seq<Row>, x: Row, r: Row)
    ensures Alike(rows + [x], r) == Alike(rows, r) + IfAlike(x, r)
  {
    assert (rows + [x])[..|rows|] == rows;
  }

  lemma OneOfTwo(x: Row, y: Row, r: Row)
    requires !RowLe(y, x)
    ensures IfAlike(x, r) == [] || IfAlike(y, r) == []
  {
    hide RowLe;
    if RowLe(y, r) && RowLe(r, x) {
      RowLeTransitive(y, r, x);
    }
  }

  lemma Swap(a: seq<Row>, x: seq<Row>, y: seq<Row>)
    requires x == [] || y == []
    ensures a + x + y == a + y + x
  {
  }

  lemma {:induction false} InsertStable(rows: seq<Row>, x: Row, r: Row)
    ensures Alike(Insert(rows, x), r) == Alike(rows, r) + IfAlike(x, r)
  {
    hide RowLe, IfAlike, Alike;
    AlikeSnoc(rows, x, r);
    if rows == [] {
      assert [] + [x] == [x];
    } else {
      var front, last := rows[..|rows|-1], rows[|rows|-1];
      if !RowLe(last, x) {
        assert rows == front + [last];
        InsertStable(front, x, r);
        AlikeSnoc(Insert(front, x), last, r);
        AlikeSnoc(front, last, r);
        OneOfTwo(x, last, r);
        Swap(Alike(front, r), IfAlike(x, r), IfAlike(last, r));
      }
    }
  }

  /** Rows that compare equal keep the sequence in which they were merged. */
  lemma {:induction false} SortRowsStable(rows: seq<Row>, r: Row)
    ensures Alike(SortRows(rows), r) == Alike(rows, r)
  {
    hide RowLe, IfAlike;
    if rows != [] {
      var front, last := rows[..|rows|-1], rows[|rows|-1];
      SortRowsStable(front, r);
      InsertStable(SortRows(front), last, r);
    }
  }
}
