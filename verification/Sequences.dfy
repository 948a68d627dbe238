/**
 The stable ascending sort that `Array.prototype.sort((a, b) => a.seq - b.seq)` is, and the
 order-preserving containment ("subsequence") it respects.
 */
module Sequences {
  /** Insert `x` before every element that is not smaller: among equals the newcomer stays first. */
  function InsertBy<T>(x: T, s: seq<T>, key: T -> int): seq<T> {
    if s == [] || key(x) <= key(s[0]) then [x] + s else [s[0]] + InsertBy(x, s[1..], key)
  }

  function SortBy<T>(s: seq<T>, key: T -> int): seq<T> {
    if s == [] then [] else InsertBy(s[0], SortBy(s[1..], key), key)
  }

  ghost predicate Ascending<T>(s: seq<T>, key: T -> int) {
    forall i, j :: 0 <= i < j < |s| ==> key(s[i]) <= key(s[j])
  }

  ghost predicate StrictlyAscending<T>(s: seq<T>, key: T -> int) {
    forall i, j :: 0 <= i < j < |s| ==> key(s[i]) < key(s[j])
  }

  /** `a` can be obtained from `b` by deleting elements, the order kept. */
  ghost predicate Subsequence<T>(a: seq<T>, b: seq<T>) {
    if a == [] then true
    else if b == [] then false
    else (a[0] == b[0] && Subsequence(a[1..], b[1..])) || Subsequence(a, b[1..])
  }

  lemma {:induction false} InsertByMultiset<T>(x: T, s: seq<T>, key: T -> int)
    ensures multiset(InsertBy(x, s, key)) == multiset(s) + multiset{x}
  {
    if s == [] || key(x) <= key(s[0]) {
    } else {
      InsertByMultiset(x, s[1..], key);
      assert s == [s[0]] + s[1..];
    }
  }

  lemma {:induction false} InsertByAscending<T>(x: T, s: seq<T>, key: T -> int)
    requires Ascending(s, key)
    ensures Ascending(InsertBy(x, s, key), key)
    ensures InsertBy(x, s, key)[0] == x || (s != [] && InsertBy(x, s, key)[0] == s[0])
  {
    if s == [] || key(x) <= key(s[0]) {
    } else {
      InsertByAscending(x, s[1..], key);
      var r := InsertBy(x, s[1..], key);
      assert key(s[0]) <= key(r[0]);
    }
  }

  /** Sorting keeps every element, with its multiplicity, and orders them. */
  lemma {:induction false} SortByKeeps<T>(s: seq<T>, key: T -> int)
    ensures multiset(SortBy(s, key)) == multiset(s)
    ensures Ascending(SortBy(s, key), key)
    ensures |SortBy(s, key)| == |s|
  {
    if s != [] {
      SortByKeeps(s[1..], key);
      InsertByMultiset(s[0], SortBy(s[1..], key), key);
      InsertByAscending(s[0], SortBy(s[1..], key), key);
      assert s == [s[0]] + s[1..];
    }
    assert |SortBy(s, key)| == |multiset(SortBy(s, key))| == |multiset(s)| == |s|;
  }

  lemma SortByMembers<T>(s: seq<T>, key: T -> int)
    ensures forall e :: e in SortBy(s, key) <==> e in s
  {
    SortByKeeps(s, key);
    forall e ensures e in SortBy(s, key) <==> e in s {
      assert e in multiset(SortBy(s, key)) <==> e in multiset(s);
    }
  }

  /** A list already in order is left alone. */
  lemma {:induction false} SortByOfAscending<T>(s: seq<T>, key: T -> int)
    requires Ascending(s, key)
    ensures SortBy(s, key) == s
  {
    if s != [] {
      SortByOfAscending(s[1..], key);
      assert s == [s[0]] + s[1..];
    }
  }

  /** Distinct keys leave only one ascending arrangement, so the sort forgets how its input was arranged. */
  lemma {:induction false} AscendingIsUnique<T>(s: seq<T>, t: seq<T>, key: T -> int)
    requires StrictlyAscending(s, key) && Ascending(t, key) && multiset(s) == multiset(t)
    ensures s == t
  {
    if s == [] {
      assert |multiset(t)| == |t|;
    } else {
      HeadsAgree(s, t, key);
      TailMultiset(s);
      TailMultiset(t);
      AscendingIsUnique(s[1..], t[1..], key);
      assert s == [s[0]] + s[1..] && t == [t[0]] + t[1..];
    }
  }

  lemma TailMultiset<T>(s: seq<T>)
    requires s != []
    ensures multiset(s[1..]) == multiset(s) - multiset{s[0]}
  {
    assert s == [s[0]] + s[1..];
  }

  lemma HeadsAgree<T>(s: seq<T>, t: seq<T>, key: T -> int)
    requires s != [] && StrictlyAscending(s, key) && Ascending(t, key) && multiset(s) == multiset(t)
    ensures t != [] && s[0] == t[0]
  {
    assert s[0] in multiset(t);
    var i :| 0 <= i < |t| && t[i] == s[0];
    assert t[0] in multiset(s);
    var j :| 0 <= j < |s| && s[j] == t[0];
    assert key(t[0]) <= key(s[0]);
  }

  lemma SortByOfPermutation<T>(s: seq<T>, t: seq<T>, key: T -> int)
    requires StrictlyAscending(s, key) && multiset(s) == multiset(t)
    ensures SortBy(t, key) == s
  {
    SortByKeeps(t, key);
    AscendingIsUnique(s, SortBy(t, key), key);
  }

  lemma StrictlyAscendingSlice<T>(s: seq<T>, lo: nat, hi: nat, key: T -> int)
    requires StrictlyAscending(s, key) && lo <= hi <= |s|
    ensures StrictlyAscending(s[lo..hi], key)
  {
  }

  lemma StrictlyAscendingConcat<T>(a: seq<T>, b: seq<T>, key: T -> int)
    requires StrictlyAscending(a, key) && StrictlyAscending(b, key)
    requires a != [] && b != [] ==> key(a[|a| - 1]) < key(b[0])
    ensures StrictlyAscending(a + b, key)
  {
    var c := a + b;
    forall i, j | 0 <= i < j < |c| ensures key(c[i]) < key(c[j]) {
      if i < |a| <= j {
        assert key(a[i]) <= key(a[|a| - 1]);
        assert key(b[0]) <= key(b[j - |a|]);
      }
    }
  }

  lemma {:induction false} SubsequenceReflexive<T>(a: seq<T>)
    ensures Subsequence(a, a)
  {
    if a != [] { SubsequenceReflexive(a[1..]); }
  }

  lemma {:induction false} SubsequenceTail<T>(a: seq<T>, b: seq<T>)
    requires a != [] && Subsequence(a, b)
    ensures Subsequence(a[1..], b)
    decreases |b|
  {
    if a[0] == b[0] && Subsequence(a[1..], b[1..]) {
      SubsequenceWiden(a[1..], b);
    } else {
      SubsequenceTail(a, b[1..]);
      SubsequenceWiden(a[1..], b);
    }
  }

  lemma SubsequenceWiden<T>(a: seq<T>, b: seq<T>)
    requires b != [] && Subsequence(a, b[1..])
    ensures Subsequence(a, b)
  {
  }

  lemma {:induction false} SubsequenceDrop<T>(a: seq<T>, i: nat, b: seq<T>)
    requires i <= |a| && Subsequence(a, b)
    ensures Subsequence(a[i..], b)
  {
    if i > 0 {
      SubsequenceTail(a, b);
      SubsequenceDrop(a[1..], i - 1, b);
      assert a[1..][i - 1..] == a[i..];
    }
  }

  lemma {:induction false} SubsequenceMembers<T>(a: seq<T>, b: seq<T>, e: T)
    requires Subsequence(a, b) && e in a
    ensures e in b
    decreases |b|
  {
    if a[0] == b[0] && Subsequence(a[1..], b[1..]) {
      if e != a[0] { SubsequenceMembers(a[1..], b[1..], e); }
    } else {
      SubsequenceMembers(a, b[1..], e);
    }
  }

  lemma {:induction false} SubsequenceInsert<T>(x: T, s: seq<T>, key: T -> int)
    ensures Subsequence(s, InsertBy(x, s, key))
  {
    if s == [] || key(x) <= key(s[0]) {
      SubsequenceReflexive(s);
    } else {
      SubsequenceInsert(x, s[1..], key);
    }
  }

  lemma {:induction false} SubsequenceTrans<T>(a: seq<T>, b: seq<T>, c: seq<T>)
    requires Subsequence(a, b) && Subsequence(b, c)
    ensures Subsequence(a, c)
    decreases |c|
  {
    if a != [] {
      if b[0] == c[0] && Subsequence(b[1..], c[1..]) {
        if a[0] == b[0] && Subsequence(a[1..], b[1..]) {
          SubsequenceTrans(a[1..], b[1..], c[1..]);
        } else {
          SubsequenceTrans(a, b[1..], c[1..]);
        }
      } else {
        SubsequenceTrans(a, b, c[1..]);
      }
    }
  }

  lemma {:induction false} InsertByMonotone<T>(x: T, s: seq<T>, t: seq<T>, key: T -> int)
    requires Ascending(t, key) && Subsequence(s, t)
    ensures Subsequence(InsertBy(x, s, key), InsertBy(x, t, key))
    decreases |t|
  {
    if t == [] {
    } else if key(x) <= key(t[0]) {
      if s != [] {
        SubsequenceMembers(s, t, s[0]);
        var k :| 0 <= k < |t| && t[k] == s[0];
        assert key(x) <= key(s[0]);
      }
      assert InsertBy(x, s, key)[1..] == s && InsertBy(x, t, key)[1..] == t;
    } else {
      var u := InsertBy(x, t, key);
      assert u[1..] == InsertBy(x, t[1..], key);
      if s != [] && s[0] == t[0] && Subsequence(s[1..], t[1..]) {
        InsertByMonotone(x, s[1..], t[1..], key);
        assert InsertBy(x, s, key)[1..] == InsertBy(x, s[1..], key);
      } else {
        InsertByMonotone(x, s, t[1..], key);
      }
    }
  }

  /** The stable sort respects containment: leaving events out of a log does not reorder the rest. */
  lemma {:induction false} SortByMonotone<T>(s: seq<T>, t: seq<T>, key: T -> int)
    requires Subsequence(s, t)
    ensures Subsequence(SortBy(s, key), SortBy(t, key))
    decreases |t|
  {
    if s != [] {
      SortByKeeps(t[1..], key);
      if s[0] == t[0] && Subsequence(s[1..], t[1..]) {
        SortByMonotone(s[1..], t[1..], key);
        InsertByMonotone(s[0], SortBy(s[1..], key), SortBy(t[1..], key), key);
      } else {
        SortByMonotone(s, t[1..], key);
        SubsequenceInsert(t[0], SortBy(t[1..], key), key);
        SubsequenceTrans(SortBy(s, key), SortBy(t[1..], key), SortBy(t, key));
      }
    }
  }
}
