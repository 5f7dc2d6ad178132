/** The short list of recently won blocks: after any number of updates, the twelve greatest heights seen. */
module RecentBlocks {
  import Sorting

  const SHOWN: nat := 12

  /** What is shown of a block. */
  datatype Row = Row(id: string, height: int, amount: int, state: string)

  /** Assigning a row keeps its place if its block is listed, else appends it. */
  function Place(rows: seq<Row>, r: Row): seq<Row>
  {
    if rows == [] then [r]
    else if rows[0].id == r.id then [r] + rows[1..]
    else [rows[0]] + Place(rows[1..], r)
  }

  predicate NotLower(a: Row, b: Row)
  {
    a.height >= b.height
  }

  /** By height, greatest first; rows of equal height stay in order. */
  function Sort(rows: seq<Row>): seq<Row>
  {
    Sorting.Sort(rows, NotLower)
  }

  function Update(rows: seq<Row>, r: Row): seq<Row>
  {
    var all := Sort(Place(rows, r));
    if |all| <= SHOWN then all else all[..SHOWN]
  }

  // ---- What the list always is ----

  ghost predicate Descending(rows: seq<Row>)
  {
    forall i, j :: 0 <= i < j < |rows| ==> rows[i].height >= rows[j].height
  }

  ghost predicate Different(rows: seq<Row>)
  {
    forall i, j :: 0 <= i < j < |rows| ==> rows[i].id != rows[j].id
  }

  ghost predicate Shows(rows: seq<Row>, id: string)
  {
    exists i :: 0 <= i < |rows| && rows[i].id == id
  }

  lemma SortSorts(rows: seq<Row>)
    ensures Descending(Sort(rows)) && multiset(Sort(rows)) == multiset(rows)
  {
    Sorting.SortSorts(rows, NotLower);
    forall i, j | 0 <= i < j < |Sort(rows)| ensures Sort(rows)[i].height >= Sort(rows)[j].height {
      assert NotLower(Sort(rows)[i], Sort(rows)[j]);
    }
  }

  /** Assigning replaces the block's own row and touches no other. */
  lemma {:induction false} PlaceHolds(rows: seq<Row>, r: Row)
    requires Different(rows)
    ensures Different(Place(rows, r)) && r in Place(rows, r)
    ensures forall x :: x in Place(rows, r) ==> x == r || (x in rows && x.id != r.id)
    ensures forall x :: x in rows && x.id != r.id ==> x in Place(rows, r)
    ensures |Place(rows, r)| == if Shows(rows, r.id) then |rows| else |rows| + 1
  {
    if rows != [] {
      assert rows == [rows[0]] + rows[1..];
      if rows[0].id != r.id {
        PlaceHolds(rows[1..], r);
        assert Shows(rows[1..], r.id) == Shows(rows, r.id) by {
          if Shows(rows, r.id) {
            var i :| 0 <= i < |rows| && rows[i].id == r.id;
            assert rows[1..][i - 1].id == r.id;
          }
          if Shows(rows[1..], r.id) {
            var i :| 0 <= i < |rows[1..]| && rows[1..][i].id == r.id;
            assert rows[i + 1].id == r.id;
          }
        }
      } else {
        assert Shows(rows, r.id);
      }
    }
  }

  lemma OnceOnly(rows: seq<Row>, x: Row)
    requires Different(rows)
    ensures multiset(rows)[x] <= 1
  {
    if x in rows {
      var i :| 0 <= i < |rows| && rows[i] == x;
      assert rows == rows[..i] + [x] + rows[i + 1..];
      assert x !in rows[..i] && x !in rows[i + 1..];
    }
  }

  lemma Twice(rows: seq<Row>, i: nat, j: nat)
    requires i < j < |rows|
    ensures rows[i] == rows[j] ==> multiset(rows)[rows[i]] >= 2
  {
    assert rows == rows[..j] + [rows[j]] + rows[j + 1..];
    assert rows[..j][i] == rows[i];
  }

  lemma SameRows(a: seq<Row>, b: seq<Row>)
    requires Different(a) && multiset(a) == multiset(b)
    ensures Different(b) && |a| == |b| && forall x :: x in a <==> x in b
  {
    assert |multiset(a)| == |a| && |multiset(b)| == |b|;
    forall x ensures x in a <==> x in b { assert x in a <==> x in multiset(a); }
    forall i, j | 0 <= i < j < |b| ensures b[i].id != b[j].id {
      OnceOnly(a, b[i]);
      Twice(b, i, j);
      assert b[i] in a && b[j] in a;
    }
  }

  /** Up to twelve blocks, each once and greatest first: all that were seen, or none that was seen is higher
      than any shown. */
  ghost predicate Greatest(rows: seq<Row>, seen: map<string, int>)
  {
    && Descending(rows) && Different(rows) && |rows| <= SHOWN
    && (forall x :: x in rows ==> x.id in seen && x.height == seen[x.id])
    && (forall x, id :: x in rows && id in seen && !Shows(rows, id) ==> x.height >= seen[id])
    && (|rows| < SHOWN ==> forall id :: id in seen ==> Shows(rows, id))
  }

  lemma ShowsRow(rows: seq<Row>, id: string)
    ensures Shows(rows, id) <==> exists x :: x in rows && x.id == id
  {
    if Shows(rows, id) {
      var i :| 0 <= i < |rows| && rows[i].id == id;
      assert rows[i] in rows;
    }
    if x :| x in rows && x.id == id {
      var i :| 0 <= i < |rows| && rows[i] == x;
      assert rows[i].id == id;
    }
  }

  /** Every update, of a new block or of one already seen, keeps the list at the greatest heights. */
  lemma UpdateKeeps(rows: seq<Row>, seen: map<string, int>, r: Row)
    requires Greatest(rows, seen) && (r.id in seen ==> seen[r.id] == r.height)
    ensures Greatest(Update(rows, r), seen[r.id := r.height])
  {
    var placed := Place(rows, r);
    var all := Sort(placed);
    PlaceHolds(rows, r);
    SortSorts(placed);
    SameRows(placed, all);
    forall id ensures Shows(all, id) <==> id == r.id || Shows(rows, id) {
      ShowsRow(all, id);
      ShowsRow(rows, id);
    }
    if |all| <= SHOWN {
      AllKept(rows, seen, r, all);
    } else {
      LastDropped(rows, seen, r, all);
    }
  }

  /** What placing and sorting gives: the old rows but for the block's own, and the new one. */
  ghost predicate Merged(rows: seq<Row>, r: Row, all: seq<Row>)
  {
    && Descending(all) && Different(all)
    && (forall x :: x in all <==> x == r || (x in rows && x.id != r.id))
    && (forall id :: Shows(all, id) <==> id == r.id || Shows(rows, id))
    && |all| == if Shows(rows, r.id) then |rows| else |rows| + 1
  }

  lemma AllKept(rows: seq<Row>, seen: map<string, int>, r: Row, all: seq<Row>)
    requires Greatest(rows, seen) && (r.id in seen ==> seen[r.id] == r.height) && Merged(rows, r, all) && |all| <= SHOWN
    ensures Greatest(all, seen[r.id := r.height])
  {
    forall x, id | x in all && id in seen && id != r.id && !Shows(all, id) ensures x.height >= seen[id] {
      if x == r {
        assert Shows(rows, r.id);
        ShowsRow(rows, r.id);
      }
    }
  }

  lemma LastDropped(rows: seq<Row>, seen: map<string, int>, r: Row, all: seq<Row>)
    requires Greatest(rows, seen) && (r.id in seen ==> seen[r.id] == r.height) && Merged(rows, r, all) && |all| > SHOWN
    ensures Greatest(all[..SHOWN], seen[r.id := r.height])
  {
    var shown, z := all[..SHOWN], all[SHOWN];
    assert all == shown + [z];
    forall id | !Shows(shown, id) && id != z.id ensures !Shows(all, id) {
      ShowsRow(shown, id);
      ShowsRow(all, id);
    }
    forall x, id | x in shown && id in seen[r.id := r.height] && !Shows(shown, id) ensures x.height >= seen[r.id := r.height][id] {
      var i :| 0 <= i < |shown| && shown[i] == x;
      assert all[i].height >= z.height;
      assert z in all;
      if id != z.id && x == r { assert z in rows; }
    }
  }
}
