/** Order-preserving filters over sequences, the shape of every
    "walk the vector, keep or move what matches" loop in the engine. Each is
    defined from the back, the way an append loop builds it. */
module Seqs {

  /** The elements of `s` that satisfy `f`, in their original order. */
  function Filter<T>(s: seq<T>, f: T -> bool): seq<T>
    decreases |s|
  {
    if |s| == 0 then []
    else Filter(s[..|s| - 1], f) + (if f(s[|s| - 1]) then [s[|s| - 1]] else [])
  }

  /** The elements of `s` that do NOT satisfy `f`, in their original order. */
  function Reject<T>(s: seq<T>, f: T -> bool): seq<T>
    decreases |s|
  {
    if |s| == 0 then []
    else Reject(s[..|s| - 1], f) + (if f(s[|s| - 1]) then [] else [s[|s| - 1]])
  }

  /** The positions i of `s` with f(s[i]), in increasing order. */
  function IndicesWhere<T>(s: seq<T>, f: T -> bool): seq<int>
    decreases |s|
  {
    if |s| == 0 then []
    else IndicesWhere(s[..|s| - 1], f) + (if f(s[|s| - 1]) then [|s| - 1] else [])
  }

  /** Filter keeps exactly the matching elements; Reject exactly the others. */
  lemma {:induction false} FilterMembership<T>(s: seq<T>, f: T -> bool)
    ensures |Filter(s, f)| <= |s| && |Reject(s, f)| <= |s|
    ensures forall x :: x in Filter(s, f) <==> x in s && f(x)
    ensures forall x :: x in Reject(s, f) <==> x in s && !f(x)
    decreases |s|
  {
    if |s| > 0 {
      var n := |s| - 1;
      FilterMembership(s[..n], f);
      assert s == s[..n] + [s[n]];
    }
  }

  /** IndicesWhere lists, in strictly increasing order, exactly the positions
      whose element matches. */
  lemma {:induction false} IndicesWhereExact<T>(s: seq<T>, f: T -> bool)
    ensures var r := IndicesWhere(s, f);
      && (forall k :: 0 <= k < |r| ==> 0 <= r[k] < |s| && f(s[r[k]]))
      && (forall k, l :: 0 <= k < l < |r| ==> r[k] < r[l])
      && (forall i :: 0 <= i < |s| ==> (i in r <==> f(s[i])))
    decreases |s|
  {
    if |s| > 0 {
      var n := |s| - 1;
      IndicesWhereExact(s[..n], f);
      assert forall i :: 0 <= i < n ==> s[..n][i] == s[i];
    }
  }

  /** Filtering a concatenation filters each part and keeps them in order. */
  lemma {:induction false} FilterAppend<T>(a: seq<T>, b: seq<T>, f: T -> bool)
    ensures Filter(a + b, f) == Filter(a, f) + Filter(b, f)
    decreases |b|
  {
    if |b| == 0 {
      assert a + b == a;
    } else {
      var n := |b| - 1;
      assert (a + b)[..|a + b| - 1] == a + b[..n];
      FilterAppend(a, b[..n], f);
      assert (a + b)[|a + b| - 1] == b[n];
    }
  }

  /** Rejecting from a concatenation rejects from each part and keeps them in order. */
  lemma {:induction false} RejectAppend<T>(a: seq<T>, b: seq<T>, f: T -> bool)
    ensures Reject(a + b, f) == Reject(a, f) + Reject(b, f)
    decreases |b|
  {
    if |b| == 0 {
      assert a + b == a;
    } else {
      var n := |b| - 1;
      assert (a + b)[..|a + b| - 1] == a + b[..n];
      RejectAppend(a, b[..n], f);
      assert (a + b)[|a + b| - 1] == b[n];
    }
  }

  /** Filter and Reject split `s`: together they hold each element of `s`
      exactly as often as `s` does. */
  ghost predicate SplitBy<T>(s: seq<T>, f: T -> bool)
  {
    multiset(Filter(s, f)) + multiset(Reject(s, f)) == multiset(s) && |Filter(s, f)| + |Reject(s, f)| == |s|
  }

  /** Filter and Reject split a sequence: nothing is lost and nothing is duplicated. */
  lemma {:induction false} FilterRejectPartition<T>(s: seq<T>, f: T -> bool)
    ensures SplitBy(s, f)
    decreases |s|
  {
    if |s| > 0 {
      var pre, last := s[..|s| - 1], s[|s| - 1];
      assert pre + [last] == s;
      FilterRejectPartition(pre, f);
      PartitionSnoc(pre, last, f);
    }
  }

  /** Appending one element to a sequence that Filter and Reject split keeps it split. */
  lemma PartitionSnoc<T>(pre: seq<T>, x: T, f: T -> bool)
    requires SplitBy(pre, f)
    ensures SplitBy(pre + [x], f)
  {
    var s := pre + [x];
    assert s[..|s| - 1] == pre;
    SplitAppend(Filter(pre, f), Reject(pre, f), pre, [x], f(x));
  }

  /** Sending a run of elements to one side of a split keeps it a split. */
  lemma SplitAppend<T>(yes: seq<T>, no: seq<T>, whole: seq<T>, xs: seq<T>, toYes: bool)
    requires multiset(yes) + multiset(no) == multiset(whole)
    ensures var yes', no' := yes + (if toYes then xs else []), no + (if toYes then [] else xs);
      multiset(yes') + multiset(no') == multiset(whole + xs)
  {
    assert multiset(whole + xs) == multiset(whole) + multiset(xs);
    if toYes {
      assert multiset(yes + xs) == multiset(yes) + multiset(xs);
      assert no + [] == no;
    } else {
      assert multiset(no + xs) == multiset(no) + multiset(xs);
      assert yes + [] == yes;
    }
  }

  /** A filter keeps everything when everything matches, and keeps nothing when nothing does. */
  lemma {:induction false} FilterExtremes<T>(s: seq<T>, f: T -> bool)
    ensures (forall i :: 0 <= i < |s| ==> f(s[i])) ==> Filter(s, f) == s && Reject(s, f) == []
    ensures (forall i :: 0 <= i < |s| ==> !f(s[i])) ==> Filter(s, f) == [] && Reject(s, f) == s
    decreases |s|
  {
    if |s| > 0 {
      var n := |s| - 1;
      FilterExtremes(s[..n], f);
      assert s == s[..n] + [s[n]];
    }
  }

  /** Extending a prefix by one element extends each of the three results by
      at most that element (or its index), as the append loops do. */
  lemma PrefixStep<T>(s: seq<T>, j: nat, f: T -> bool)
    requires j < |s|
    ensures Filter(s[..j + 1], f) == Filter(s[..j], f) + (if f(s[j]) then [s[j]] else [])
    ensures Reject(s[..j + 1], f) == Reject(s[..j], f) + (if f(s[j]) then [] else [s[j]])
    ensures IndicesWhere(s[..j + 1], f) == IndicesWhere(s[..j], f) + (if f(s[j]) then [j] else [])
  {
    assert s[..j + 1][..j] == s[..j];
  }

  /** Concatenation regroups freely. */
  lemma ConcatAssociates<T>(a: seq<T>, b: seq<T>, c: seq<T>)
    ensures (a + b) + c == a + (b + c)
  {
  }

  /** One step of erasing matches in place: the element under the cursor i
      of the partly erased sequence is store[j]; erasing it when it matches,
      or stepping past it when it does not, keeps the shape
      Reject(store[..j], f) + store[j..] for j + 1. */
  lemma EraseInPlaceStep<T>(store: seq<T>, kept: seq<T>, i: nat, j: nat, f: T -> bool)
    requires j < |store| && i == |Reject(store[..j], f)|
    requires kept == Reject(store[..j], f) + store[j..]
    ensures i < |kept| && kept[i] == store[j]
    ensures f(store[j]) ==>
      i == |Reject(store[..j + 1], f)| && kept[..i] + kept[i + 1..] == Reject(store[..j + 1], f) + store[j + 1..]
    ensures !f(store[j]) ==>
      i + 1 == |Reject(store[..j + 1], f)| && kept == Reject(store[..j + 1], f) + store[j + 1..]
  {
    PrefixStep(store, j, f);
    assert store[j..] == [store[j]] + store[j + 1..];
    assert kept[..i] == Reject(store[..j], f);
    assert kept[i + 1..] == store[j + 1..];
  }

  // ---------------------------------------------------------------------
  // Erasing one element by identity

  /** `s` with its first entry equal to `x` erased; `s` itself when there is none. */
  function RemoveFirst<T(==)>(s: seq<T>, x: T): seq<T>
    decreases |s|
  {
    if |s| == 0 then []
    else if s[0] == x then s[1..]
    else [s[0]] + RemoveFirst(s[1..], x)
  }

  /** `r` is `s` with the entry at position i erased, and i is the first position holding `x`. */
  ghost predicate ErasesFirstAt<T>(s: seq<T>, x: T, i: int, r: seq<T>)
  {
    0 <= i < |s| && s[i] == x && x !in s[..i] && r == s[..i] + s[i + 1..]
  }

  /** RemoveFirst erases exactly the entry at the first position holding `x`,
      keeping the rest in order. */
  lemma {:induction false} RemoveFirstErasesFirst<T>(s: seq<T>, x: T)
    requires x in s
    ensures exists i :: ErasesFirstAt(s, x, i, RemoveFirst(s, x))
    decreases |s|
  {
    if s[0] == x {
      assert s[..0] == [];
      assert ErasesFirstAt(s, x, 0, RemoveFirst(s, x));
    } else {
      var t := s[1..];
      assert s == [s[0]] + t;
      assert x in t;
      RemoveFirstErasesFirst(t, x);
      var i :| ErasesFirstAt(t, x, i, RemoveFirst(t, x));
      var before, after := t[..i], t[i + 1..];
      assert s[..i + 1] == [s[0]] + before;
      assert s[i + 2..] == after;
      assert x !in [s[0]] + before;
      calc {
        RemoveFirst(s, x);
        [s[0]] + RemoveFirst(t, x);
        [s[0]] + (before + after);
        { ConcatAssociates([s[0]], before, after); }
        s[..i + 1] + s[i + 2..];
      }
      assert ErasesFirstAt(s, x, i + 1, RemoveFirst(s, x));
    }
  }

  /** A sequence without `x` is left as it is. */
  lemma RemoveFirstWithout<T>(s: seq<T>, x: T)
    requires x !in s
    ensures RemoveFirst(s, x) == s
  {
    assert s[..|s|] == s;
    RemoveFirstSkips(s, x, |s|);
  }

  /** Erasing an element just appended to a sequence that did not hold it
      restores the sequence. */
  lemma {:induction false} RemoveFirstUndoesAppend<T>(s: seq<T>, x: T)
    requires x !in s
    ensures RemoveFirst(s + [x], x) == s
    decreases |s|
  {
    if |s| > 0 {
      assert (s + [x])[1..] == s[1..] + [x];
      RemoveFirstUndoesAppend(s[1..], x);
      assert s == [s[0]] + s[1..];
    }
  }

  /** A prefix without `x` is passed over unchanged. */
  lemma {:induction false} RemoveFirstSkips<T>(s: seq<T>, x: T, i: nat)
    requires i <= |s| && x !in s[..i]
    ensures RemoveFirst(s, x) == s[..i] + RemoveFirst(s[i..], x)
    decreases i
  {
    if i > 0 {
      assert s[0] == s[..i][0];
      var t := s[1..];
      assert t[..i - 1] == s[1..i];
      assert x !in t[..i - 1];
      RemoveFirstSkips(t, x, i - 1);
      assert t[i - 1..] == s[i..];
      assert s[..i] == [s[0]] + s[1..i];
    }
  }
}
