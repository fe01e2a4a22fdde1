/** `pack_data_to_list(*args, **kwargs)`: zips parallel columns into rows
    and appends the keyword values, in order, after each row's columns. */
module Packing {

  /** Every column is at least as long as the first one; otherwise
      `arg[i]` raises `IndexError`, which the source does not handle. */
  predicate Rectangular<T>(args: seq<seq<T>>)
  {
    |args| > 0 ==> forall j :: 0 <= j < |args| ==> |args[j]| >= |args[0]|
  }

  /** Entry `i` of every column, in column order (the `inner_list` before
      the keyword values are appended). */
  function Column<T>(args: seq<seq<T>>, i: nat): seq<T>
    requires forall j :: 0 <= j < |args| ==> i < |args[j]|
  {
    seq(|args|, j requires 0 <= j < |args| => args[j][i])
  }

  /** The first `n` rows. */
  function PackedPrefix<T>(args: seq<seq<T>>, kwargs: seq<T>, n: nat): seq<seq<T>>
    requires Rectangular(args) && |args| > 0 && n <= |args[0]|
  {
    if n == 0 then []
    else PackedPrefix(args, kwargs, n - 1) + [Column(args, n - 1) + kwargs]
  }

  /** The rows `pack_data_to_list` returns, as a value. */
  function Packed<T>(args: seq<seq<T>>, kwargs: seq<T>): seq<seq<T>>
    requires Rectangular(args)
  {
    if |args| == 0 then [] else PackedPrefix(args, kwargs, |args[0]|)
  }

  lemma {:induction false} PackedPrefixRows<T>(args: seq<seq<T>>, kwargs: seq<T>, n: nat)
    requires Rectangular(args) && |args| > 0 && n <= |args[0]|
    ensures |PackedPrefix(args, kwargs, n)| == n
    ensures forall i :: 0 <= i < n ==> PackedPrefix(args, kwargs, n)[i] == Column(args, i) + kwargs
  {
    if n > 0 {
      PackedPrefixRows(args, kwargs, n - 1);
    }
  }

  /** No columns give no rows; otherwise there is one row per entry of the
      first column, and row `i` holds the `i`-th entry of every column, in
      column order, followed by the keyword values. */
  lemma PackedRows<T>(args: seq<seq<T>>, kwargs: seq<T>)
    requires Rectangular(args)
    ensures |args| == 0 ==> Packed(args, kwargs) == []
    ensures |args| > 0 ==> |Packed(args, kwargs)| == |args[0]|
    ensures forall i :: 0 <= i < |Packed(args, kwargs)| ==>
      && |Packed(args, kwargs)[i]| == |args| + |kwargs|
      && (forall j :: 0 <= j < |args| ==> Packed(args, kwargs)[i][j] == args[j][i])
      && Packed(args, kwargs)[i][|args|..] == kwargs
  {
    if |args| > 0 {
      PackedPrefixRows(args, kwargs, |args[0]|);
    }
  }

  method PackDataToList<T>(args: seq<seq<T>>, kwargs: seq<T>) returns (out: seq<seq<T>>)
    requires Rectangular(args)
    ensures out == Packed(args, kwargs)
  {
    out := [];
    if |args| > 0 {
      var listLen := |args[0]|;
      for i := 0 to listLen
        invariant out == PackedPrefix(args, kwargs, i)
      {
        var inner: seq<T> := [];
        for j := 0 to |args|
          invariant inner == Column(args, i)[..j]
        {
          inner := inner + [args[j][i]];
        }
        assert Column(args, i)[..|args|] == Column(args, i);
        for m := 0 to |kwargs|
          invariant inner == Column(args, i) + kwargs[..m]
        {
          inner := inner + [kwargs[m]];
        }
        assert kwargs[..|kwargs|] == kwargs;
        out := out + [inner];
      }
    }
  }
}
