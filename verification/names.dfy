/** Domain names as dotted byte strings, and their labels. */
module Names {
  import opened Bytes

  const DOT: byte := 46

  type Name = Bytes
  type Label = l: Bytes | l != [] && DOT !in l witness [0]

  const ROOT: Name := [DOT]

  /** The parts between dots; always at least one, possibly empty. */
  function Split(s: Name): (parts: seq<Bytes>)
    ensures parts != []
    ensures forall p :: p in parts ==> DOT !in p
  {
    if s == [] then [[]]
    else
      var tail := Split(s[1..]);
      if s[0] == DOT then [[]] + tail else
      assert forall p :: p in tail[1..] ==> p in tail;
      [[s[0]] + tail[0]] + tail[1..]
  }

  function NonEmpty(parts: seq<Bytes>): seq<Bytes> {
    if parts == [] then []
    else if parts[0] == [] then NonEmpty(parts[1..])
    else [parts[0]] + NonEmpty(parts[1..])
  }

  /** The labels of a name: empty parts are dropped. */
  function Labels(s: Name): (r: seq<Label>) {
    var r := NonEmpty(Split(s));
    NonEmptyParts(Split(s));
    assert forall i :: 0 <= i < |r| ==> r[i] in r;
    r
  }

  lemma {:induction false} NonEmptyParts(parts: seq<Bytes>)
    ensures forall p :: p in NonEmpty(parts) <==> p != [] && p in parts
  {
    if parts != [] {
      NonEmptyParts(parts[1..]);
      assert parts == [parts[0]] + parts[1..];
    }
  }

  function Join(labels: seq<Bytes>): Name {
    if labels == [] then []
    else if |labels| == 1 then labels[0]
    else labels[0] + [DOT] + Join(labels[1..])
  }

  /** What a label sequence reads as: "." when there is none. */
  function Show(labels: seq<Bytes>): Name {
    if labels == [] then ROOT else Join(labels)
  }

  /** The normal form of a name: no empty labels, no trailing dot, "." for the root. */
  function Normal(name: Name): Name {
    Show(Labels(name))
  }

  ghost predicate ShortLabels(labels: seq<Bytes>) {
    forall l :: l in labels ==> |l| <= 63
  }

  lemma {:induction false} SplitAtDot(l: Bytes, t: Bytes)
    requires DOT !in l
    ensures Split(l + [DOT] + t) == [l] + Split(t)
  {
    if l == [] {
      assert l + [DOT] + t == [DOT] + t;
      assert ([DOT] + t)[1..] == t;
    } else {
      SplitAtDot(l[1..], t);
      assert (l + [DOT] + t)[1..] == l[1..] + [DOT] + t;
      assert l == [l[0]] + l[1..];
    }
  }

  lemma {:induction false} SplitPlain(l: Bytes)
    requires DOT !in l
    ensures Split(l) == [l]
  {
    if l != [] {
      SplitPlain(l[1..]);
      assert l == [l[0]] + l[1..];
    }
  }

  lemma JoinCons(p: Bytes, tail: seq<Bytes>)
    requires tail != []
    ensures Join([p] + tail) == p + [DOT] + Join(tail)
  {
    assert ([p] + tail)[1..] == tail;
  }

  lemma JoinGrow(c: byte, parts: seq<Bytes>)
    requires parts != []
    ensures Join([[c] + parts[0]] + parts[1..]) == [c] + Join(parts)
  {
    var grown := [[c] + parts[0]] + parts[1..];
    assert grown[1..] == parts[1..];
    if |parts| > 1 {
      assert [c] + parts[0] + [DOT] + Join(parts[1..]) == [c] + (parts[0] + [DOT] + Join(parts[1..]));
    }
  }

  /** Splitting loses nothing but the dots. */
  lemma {:induction false} SplitThenJoin(s: Name)
    ensures Join(Split(s)) == s
  {
    if s != [] {
      var tail := Split(s[1..]);
      SplitThenJoin(s[1..]);
      if s[0] == DOT {
        assert Split(s) == [[]] + tail;
        hide Split;
        JoinCons([], tail);
        assert [] + [DOT] + s[1..] == s;
      } else {
        assert Split(s) == [[s[0]] + tail[0]] + tail[1..];
        hide Split;
        JoinGrow(s[0], tail);
      }
    }
  }

  /** Only empty parts are dropped. */
  lemma NonEmptyOne(p: Bytes)
    ensures NonEmpty([p]) == if p == [] then [] else [p]
  {
    assert [p][1..] == [] && NonEmpty([]) == [];
  }

  /** Joining labels loses nothing: they are the labels of the joined name. */
  lemma {:induction false} LabelsOfJoin(labels: seq<Label>)
    ensures Labels(Join(labels)) == labels
  {
    if labels == [] {
      assert Split([]) == [[]];
      assert NonEmpty([[]]) == NonEmpty([[]][1..]);
    } else if |labels| == 1 {
      SplitPlain(labels[0]);
      assert NonEmpty([labels[0]]) == [labels[0]] + NonEmpty([]);
    } else {
      LabelsOfJoin(labels[1..]);
      SplitAtDot(labels[0], Join(labels[1..]));
      assert ([labels[0]] + Split(Join(labels[1..])))[1..] == Split(Join(labels[1..]));
    }
  }

  lemma NonEmptyCons(p: Bytes, rest: seq<Bytes>)
    ensures NonEmpty([p] + rest) == NonEmpty([p]) + NonEmpty(rest)
  {
    NonEmptyOne(p);
    assert ([p] + rest)[1..] == rest;
  }

  lemma {:induction false} NonEmptyConcat(a: seq<Bytes>, b: seq<Bytes>)
    ensures NonEmpty(a + b) == NonEmpty(a) + NonEmpty(b)
  {
    if a == [] {
      assert a + b == b;
    } else {
      hide NonEmpty;
      var head, tail := a[0], a[1..];
      NonEmptyConcat(tail, b);
      NonEmptyCons(head, tail);
      NonEmptyCons(head, tail + b);
      assert a == [head] + tail && a + b == [head] + (tail + b);
    }
  }

  lemma {:induction false} SplitTrailingDot(s: Name)
    ensures Split(s + [DOT]) == Split(s) + [[]]
  {
    if s == [] {
      assert Split([DOT]) == [[]] + Split([DOT][1..]);
    } else {
      SplitTrailingDot(s[1..]);
      assert (s + [DOT])[1..] == s[1..] + [DOT];
    }
  }

  /** A trailing dot does not change the labels. */
  lemma LabelsTrailingDot(s: Name)
    ensures Labels(s + [DOT]) == Labels(s)
  {
    SplitTrailingDot(s);
    NonEmptyConcat(Split(s), [[]]);
    assert NonEmpty([[]]) == NonEmpty([[]][1..]);
  }

  /** Normal forms are fixed points, and have the same labels. */
  lemma NormalIdempotent(name: Name)
    ensures Labels(Normal(name)) == Labels(name)
    ensures Normal(Normal(name)) == Normal(name)
  {
    if Labels(name) == [] {
      LabelsTrailingDot([]);
      assert [] + [DOT] == ROOT;
      LabelsOfJoin([]);
    } else {
      LabelsOfJoin(Labels(name));
    }
  }

  lemma JoinLonger(labels: seq<Label>)
    requires labels != []
    ensures |Join(labels[1..])| < |Join(labels)|
  {
  }

  /** The 64 bytes of `s` from `i` on hold no dot. */
  ghost predicate DotFree(s: Name, i: int) {
    0 <= i && i + 64 <= |s| && forall k :: i <= k < i + 64 ==> s[k] != DOT
  }

  ghost predicate HasLongRun(s: Name) {
    exists i :: DotFree(s, i)
  }

  lemma {:induction false} ShortLabelsNoLongRun(labels: seq<Bytes>)
    requires ShortLabels(labels)
    ensures !HasLongRun(Join(labels))
  {
    if |labels| > 1 {
      var head, tail := labels[0] + [DOT], Join(labels[1..]);
      ShortLabelsNoLongRun(labels[1..]);
      var s := Join(labels);
      assert s == head + tail;
      forall i
        ensures !DotFree(s, i)
      {
        assert |labels[0]| <= 63 && s[|head| - 1] == DOT;
        if DotFree(s, i) && i >= |head| {
          assert forall k :: i - |head| <= k < i - |head| + 64 ==> tail[k] == s[k + |head|];
          assert DotFree(tail, i - |head|);
        }
      }
    } else if labels != [] {
      assert |labels[0]| <= 63;
    }
  }

  lemma {:induction false} LongLabelLongRun(labels: seq<Label>, k: nat)
    requires k < |labels| && |labels[k]| > 63
    ensures HasLongRun(Join(labels))
  {
    var s := Join(labels);
    if k == 0 {
      assert forall j :: 0 <= j < 64 ==> s[j] == labels[0][j];
      assert DotFree(s, 0);
    } else {
      LongLabelLongRun(labels[1..], k - 1);
      var head, tail := labels[0] + [DOT], Join(labels[1..]);
      assert s == head + tail;
      var i :| DotFree(tail, i);
      assert forall j :: |head| + i <= j < |head| + i + 64 ==> s[j] == tail[j - |head|];
      assert DotFree(s, |head| + i);
    }
  }
}
