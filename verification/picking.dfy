/** Sequences picked out of others: which elements, and in which order. */
module Picking {
  import opened Bytes

  /** Positions below `n`, in order. */
  ghost predicate Positions(at: seq<nat>, n: nat) {
    && (forall k :: 0 <= k < |at| ==> at[k] < n)
    && (forall k, l :: 0 <= k < l < |at| ==> at[k] < at[l])
  }

  /** The values there are among the first `n`, in order. */
  ghost function Somes<R>(vals: seq<Option<R>>, n: nat): seq<R>
    requires n <= |vals|
  {
    if n == 0 then []
    else if vals[n - 1].Some? then Somes(vals, n - 1) + [vals[n - 1].value]
    else Somes(vals, n - 1)
  }

  /** `r` is what stands at these positions, and they are all there are. */
  ghost predicate Stand<R>(vals: seq<Option<R>>, n: nat, at: seq<nat>, r: seq<R>)
    requires n <= |vals|
  {
    && Positions(at, n) && |r| == |at|
    && (forall i :: i in at <==> 0 <= i < n && vals[i].Some?)
    && (forall k :: 0 <= k < |at| ==> vals[at[k]] == Some(r[k]))
  }

  lemma AppendPosition(at: seq<nat>, n: nat)
    requires Positions(at, n)
    ensures Positions(at, n + 1) && Positions(at + [n], n + 1)
    ensures forall i :: i in at + [n] <==> i in at || i == n
  {
  }

  lemma StandMore<R>(vals: seq<Option<R>>, n: nat, at: seq<nat>, r: seq<R>)
    requires n < |vals| && Stand(vals, n, at, r) && vals[n].Some?
    ensures Stand(vals, n + 1, at + [n], r + [vals[n].value])
  {
    AppendPosition(at, n);
    hide Positions;
    assert Positions(at + [n], n + 1);
    assert forall k :: 0 <= k < |at| + 1 ==> (at + [n])[k] == if k < |at| then at[k] else n;
  }

  lemma StandSame<R>(vals: seq<Option<R>>, n: nat, at: seq<nat>, r: seq<R>)
    requires n < |vals| && Stand(vals, n, at, r) && vals[n].None?
    ensures Stand(vals, n + 1, at, r)
  {
    AppendPosition(at, n);
  }

  lemma {:induction false} SomesAt<R>(vals: seq<Option<R>>, n: nat) returns (at: seq<nat>)
    requires n <= |vals|
    ensures Stand(vals, n, at, Somes(vals, n))
  {
    at := [];
    if n > 0 {
      hide Stand;
      at := SomesAt(vals, n - 1);
      if vals[n - 1].Some? {
        StandMore(vals, n - 1, at, Somes(vals, n - 1));
        at := at + [n - 1];
      } else {
        StandSame(vals, n - 1, at, Somes(vals, n - 1));
      }
    }
  }
}
