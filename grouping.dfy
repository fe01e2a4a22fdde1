/** `separate_data_by_date`: an order-preserving group-by on the whole
    first field of each row, into a dictionary whose keys keep the order in
    which they were first met. */
module Grouping {
  import opened Model

  /** No item is repeated: each one is absent from those before it. */
  predicate Distinct<T(==)>(s: seq<T>)
  {
    s == [] || (Distinct(s[..|s| - 1]) && s[|s| - 1] !in s[..|s| - 1])
  }

  /** The same, stated on positions: no two positions hold the same item. */
  lemma {:induction false} DistinctPositions<T>(s: seq<T>)
    ensures Distinct(s) <==> forall a, b :: 0 <= a < b < |s| ==> s[a] != s[b]
  {
    if s != [] {
      var front := s[..|s| - 1];
      DistinctPositions(front);
      if forall a, b :: 0 <= a < b < |s| ==> s[a] != s[b] {
        forall a, b | 0 <= a < b < |front| ensures front[a] != front[b] {
          assert front[a] == s[a] && front[b] == s[b];
        }
        forall a | 0 <= a < |front| ensures front[a] != s[|s| - 1] {
          assert front[a] == s[a];
        }
      }
      if Distinct(s) {
        forall a, b | 0 <= a < b < |s| ensures s[a] != s[b] {
          if b < |s| - 1 {
            assert front[a] == s[a] && front[b] == s[b];
          } else {
            assert s[a] == front[a];
          }
        }
      }
    }
  }

  /** The dictionary's keys, in insertion order: each row's first field, the
      first time it is met. */
  function KeysOf(rows: seq<Row>): seq<Field>
    requires Keyed(rows)
  {
    if rows == [] then []
    else
      var ks := KeysOf(rows[..|rows| - 1]);
      var k := rows[|rows| - 1][0];
      if k in ks then ks else ks + [k]
  }

  /** The rows whose first field is `k`, in their original order. */
  function GroupOf(rows: seq<Row>, k: Field): seq<Row>
    requires Keyed(rows)
  {
    if rows == [] then []
    else
      var last := rows[|rows| - 1];
      GroupOf(rows[..|rows| - 1], k) + (if last[0] == k then [last] else [])
  }

  /** The groups of `ks`, one after the other. */
  function Gather(rows: seq<Row>, ks: seq<Field>): seq<Row>
    requires Keyed(rows)
  {
    if ks == [] then []
    else Gather(rows, ks[..|ks| - 1]) + GroupOf(rows, ks[|ks| - 1])
  }

  lemma GroupOfSnoc(rows: seq<Row>, r: Row, k: Field)
    requires Keyed(rows) && |r| > 0
    ensures Keyed(rows + [r])
    ensures GroupOf(rows + [r], k) == GroupOf(rows, k) + (if r[0] == k then [r] else [])
  {
    assert (rows + [r])[..|rows|] == rows;
  }

  lemma KeysOfSnoc(rows: seq<Row>, r: Row)
    requires Keyed(rows) && |r| > 0
    ensures Keyed(rows + [r])
    ensures KeysOf(rows + [r]) == if r[0] in KeysOf(rows) then KeysOf(rows) else KeysOf(rows) + [r[0]]
  {
    assert (rows + [r])[..|rows|] == rows;
  }

  /** No key is listed twice. */
  lemma {:induction false} KeysDistinct(rows: seq<Row>)
    requires Keyed(rows)
    ensures Distinct(KeysOf(rows))
  {
    if rows != [] {
      var front := rows[..|rows| - 1];
      KeysDistinct(front);
      var ks := KeysOf(front);
      var k := rows[|rows| - 1][0];
      if k !in ks {
        assert (ks + [k])[..|ks|] == ks;
      }
    }
  }

  /** Every row's key is listed and every listed key is some row's key. */
  lemma {:induction false} KeysOfCover(rows: seq<Row>)
    requires Keyed(rows)
    ensures forall i :: 0 <= i < |rows| ==> rows[i][0] in KeysOf(rows)
    ensures forall k :: k in KeysOf(rows) ==> exists i :: 0 <= i < |rows| && rows[i][0] == k
  {
    if rows != [] {
      var front := rows[..|rows| - 1];
      KeysOfCover(front);
      forall k | k in KeysOf(rows) ensures exists i :: 0 <= i < |rows| && rows[i][0] == k {
        if k in KeysOf(front) {
          var i :| 0 <= i < |front| && front[i][0] == k;
          assert rows[i][0] == k;
        }
      }
    }
  }

  /** A row that carries a listed key. */
  lemma {:induction false} KeyFromRow(rows: seq<Row>, k: Field) returns (i: nat)
    requires Keyed(rows) && k in KeysOf(rows)
    ensures i < |rows| && rows[i][0] == k
  {
    var front := rows[..|rows| - 1];
    if k in KeysOf(front) {
      i := KeyFromRow(front, k);
      assert rows[i] == front[i];
    } else {
      i := |rows| - 1;
    }
  }

  /** A group holds the rows with that key and only those. */
  lemma {:induction false} GroupOfMembers(rows: seq<Row>, k: Field)
    requires Keyed(rows)
    ensures forall r :: r in GroupOf(rows, k) ==> r in rows && r[0] == k
    ensures forall i :: 0 <= i < |rows| && rows[i][0] == k ==> rows[i] in GroupOf(rows, k)
  {
    if rows != [] {
      var front := rows[..|rows| - 1];
      GroupOfMembers(front, k);
      assert rows == front + [rows[|rows| - 1]];
    }
  }

  /** A key no row carries has an empty group. */
  lemma {:induction false} GroupOfAbsent(rows: seq<Row>, k: Field)
    requires Keyed(rows) && k !in KeysOf(rows)
    ensures GroupOf(rows, k) == []
  {
    if rows != [] {
      var front := rows[..|rows| - 1];
      assert rows == front + [rows[|rows| - 1]];
      KeysOfSnoc(front, rows[|rows| - 1]);
      GroupOfAbsent(front, k);
    }
  }

  /** Keys only ever get appended: the keys of a prefix of the rows are a
      prefix of the keys of all of them. */
  lemma {:induction false} KeysOfPrefix(rows: seq<Row>, n: nat)
    requires Keyed(rows) && n <= |rows|
    ensures KeysOf(rows[..n]) <= KeysOf(rows)
  {
    if n < |rows| {
      var front := rows[..|rows| - 1];
      assert front[..n] == rows[..n];
      KeysOfPrefix(front, n);
      assert rows == front + [rows[|rows| - 1]];
      KeysOfSnoc(front, rows[|rows| - 1]);
    } else {
      assert rows[..n] == rows;
    }
  }

  /** Keys appear in first-encounter order: a key first met at row `i` comes
      right after the keys of the rows before it. */
  lemma KeysFirstEncounter(rows: seq<Row>, i: nat)
    requires Keyed(rows) && i < |rows|
    requires rows[i][0] !in KeysOf(rows[..i])
    ensures |KeysOf(rows[..i])| < |KeysOf(rows)|
    ensures KeysOf(rows)[|KeysOf(rows[..i])|] == rows[i][0]
  {
    assert rows[..i + 1] == rows[..i] + [rows[i]];
    KeysOfSnoc(rows[..i], rows[i]);
    KeysOfPrefix(rows, i + 1);
  }

  /** One more row adds itself to the gathered groups exactly when its key
      is among those gathered. */
  lemma {:induction false} GatherSnoc(rows: seq<Row>, r: Row, ks: seq<Field>)
    requires Keyed(rows) && |r| > 0 && Distinct(ks)
    ensures Keyed(rows + [r])
    ensures multiset(Gather(rows + [r], ks))
         == multiset(Gather(rows, ks)) + if r[0] in ks then multiset{r} else multiset{}
    decreases |ks|
  {
    GroupOfSnoc(rows, r, r[0]);
    if ks != [] {
      var front := ks[..|ks| - 1];
      var k := ks[|ks| - 1];
      assert ks == front + [k];
      GatherSnoc(rows, r, front);
      GroupOfSnoc(rows, r, k);
      var inFront := r[0] in front;
      var isLast := r[0] == k;
      ConcatGrows(Gather(rows + [r], front), Gather(rows, front), GroupOf(rows + [r], k), GroupOf(rows, k),
                  if inFront then multiset{r} else multiset{},
                  if isLast then multiset{r} else multiset{});
      assert !(inFront && isLast);
      assert (r[0] in ks) == (inFront || isLast);
    }
  }

  /** Multiset bookkeeping for two sequences that each grew by some items. */
  lemma ConcatGrows<T>(a: seq<T>, b: seq<T>, g: seq<T>, h: seq<T>, x: multiset<T>, y: multiset<T>)
    requires multiset(a) == multiset(b) + x && multiset(g) == multiset(h) + y
    ensures multiset(a + g) == multiset(b + h) + x + y
  {
  }

  lemma GatherSnocKey(rows: seq<Row>, ks: seq<Field>, k: Field)
    requires Keyed(rows)
    ensures Gather(rows, ks + [k]) == Gather(rows, ks) + GroupOf(rows, k)
  {
    assert (ks + [k])[..|ks|] == ks;
  }

  /** Nothing is lost or duplicated: gathering the groups in key order
      yields a permutation of the rows. */
  lemma {:induction false} GroupsPartitionRows(rows: seq<Row>)
    requires Keyed(rows)
    ensures multiset(Gather(rows, KeysOf(rows))) == multiset(rows)
  {
    if rows != [] {
      var front := rows[..|rows| - 1];
      var r := rows[|rows| - 1];
      assert rows == front + [r];
      GroupsPartitionRows(front);
      KeysOfSnoc(front, r);
      KeysOfCover(front);
      KeysDistinct(front);
      var ks := KeysOf(front);
      GatherSnoc(front, r, ks);
      if r[0] in ks {
        assert KeysOf(rows) == ks;
        assert multiset(Gather(rows, ks)) == multiset(front) + multiset{r};
      } else {
        assert KeysOf(rows) == ks + [r[0]];
        GroupOfAbsent(front, r[0]);
        GroupOfSnoc(front, r, r[0]);
        GatherSnocKey(rows, ks, r[0]);
        assert GroupOf(rows, r[0]) == [r];
        assert multiset(Gather(rows, ks)) == multiset(front);
      }
    }
  }

  /** The dictionary after one more row: the row joins its key's group,
      and a key met for the first time is added with a group of its own. */
  lemma SeparateStep(seen: seq<Row>, data: Row, keys: seq<Field>, groups: map<Field, seq<Row>>)
    requires Keyed(seen) && |data| > 0 && keys == KeysOf(seen)
    requires forall k :: k in groups <==> k in keys
    requires forall k :: k in groups ==> groups[k] == GroupOf(seen, k)
    ensures Keyed(seen + [data])
    ensures var ks := if data[0] in groups then keys else keys + [data[0]];
            var g := groups[data[0] := if data[0] in groups then groups[data[0]] + [data] else [data]];
            && ks == KeysOf(seen + [data])
            && (forall k :: k in g <==> k in ks)
            && (forall k :: k in g ==> g[k] == GroupOf(seen + [data], k))
  {
    KeysOfSnoc(seen, data);
    var g := groups[data[0] := if data[0] in groups then groups[data[0]] + [data] else [data]];
    if data[0] !in groups {
      GroupOfAbsent(seen, data[0]);
    }
    forall k | k in g ensures g[k] == GroupOf(seen + [data], k) {
      GroupOfSnoc(seen, data, k);
    }
  }

  /** `separate_data_by_date` (lines 130-138): the dictionary is returned as
      its keys in insertion order and the key-to-group map. */
  method SeparateByDate(rows: seq<Row>) returns (keys: seq<Field>, groups: map<Field, seq<Row>>)
    requires Keyed(rows)
    ensures keys == KeysOf(rows)
    ensures forall k :: k in groups <==> k in keys
    ensures forall k :: k in groups ==> groups[k] == GroupOf(rows, k)
  {
    keys := [];
    groups := map[];
    for i := 0 to |rows|
      invariant keys == KeysOf(rows[..i])
      invariant forall k :: k in groups <==> k in keys
      invariant forall k :: k in groups ==> groups[k] == GroupOf(rows[..i], k)
    {
      var data := rows[i];
      assert rows[..i + 1] == rows[..i] + [data];
      SeparateStep(rows[..i], data, keys, groups);
      if data[0] in groups {
        groups := groups[data[0] := groups[data[0]] + [data]];
      } else {
        keys := keys + [data[0]];
        groups := groups[data[0] := [data]];
      }
    }
    assert rows[..|rows|] == rows;
  }
}
