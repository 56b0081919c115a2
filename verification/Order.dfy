/**
 * The orders the daemon sorts by. Strings are compared as strcmp() does, lists of strings as
 * _nm_strv_cmp_n() does (shorter lists first). Sorting itself is glib's; it is represented by an
 * insertion sort whose only used properties are that the result is ordered and a permutation.
 */
module Order {
  import opened Common

  function Compare(a: int, b: int): (r: int)
    ensures r == 0 <==> a == b
    ensures r < 0 <==> a < b
  {
    if a < b then -1 else if a > b then 1 else 0
  }

  /** strcmp(), reduced to its sign. */
  function StrCmp(a: string, b: string): (r: int)
    ensures -1 <= r <= 1
  {
    if a == [] then (if b == [] then 0 else -1)
    else if b == [] then 1
    else if a[0] != b[0] then (if a[0] < b[0] then -1 else 1)
    else StrCmp(a[1..], b[1..])
  }

  predicate StrLe(a: string, b: string) {
    StrCmp(a, b) <= 0
  }

  /** Only equal strings compare equal, and swapping the arguments flips the sign. */
  lemma {:induction false} StrCmpSign(a: string, b: string)
    ensures StrCmp(a, b) == 0 <==> a == b
    ensures StrCmp(b, a) == -StrCmp(a, b)
  {
    if a != [] && b != [] && a[0] == b[0] {
      StrCmpSign(a[1..], b[1..]);
      assert a == [a[0]] + a[1..] && b == [b[0]] + b[1..];
    }
  }

  lemma {:induction false} StrCmpTransitive(a: string, b: string, c: string)
    requires StrCmp(a, b) <= 0 && StrCmp(b, c) <= 0
    ensures StrCmp(a, c) <= 0
    ensures StrCmp(a, c) == 0 ==> StrCmp(a, b) == 0 && StrCmp(b, c) == 0
  {
    if a != [] && b != [] && c != [] && a[0] == b[0] == c[0] {
      StrCmpTransitive(a[1..], b[1..], c[1..]);
    }
  }

  /** `b` goes on where `a` ends, or is larger at the first difference. */
  ghost predicate Precedes(a: string, b: string) {
    exists i :: 0 <= i < |b| && i <= |a| && a[..i] == b[..i] && (i < |a| ==> a[i] < b[i])
  }

  /** The order is the one of a dictionary. */
  lemma {:induction false} StrCmpMeans(a: string, b: string)
    ensures StrCmp(a, b) < 0 <==> Precedes(a, b)
  {
    if a == [] && b != [] {
      assert a[..0] == b[..0];
    } else if a != [] && b != [] {
      if a[0] == b[0] {
        StrCmpMeans(a[1..], b[1..]);
        PrecedesTail(a, b);
      } else if a[0] < b[0] {
        assert a[..0] == b[..0];
      }
    }
  }

  lemma PrecedesTail(a: string, b: string)
    requires a != [] && b != [] && a[0] == b[0]
    ensures Precedes(a, b) <==> Precedes(a[1..], b[1..])
  {
    if Precedes(a[1..], b[1..]) {
      var i :| && 0 <= i < |b[1..]| && i <= |a[1..]| && a[1..][..i] == b[1..][..i]
               && (i < |a[1..]| ==> a[1..][i] < b[1..][i]);
      assert a[..i + 1] == [a[0]] + a[1..][..i] && b[..i + 1] == [b[0]] + b[1..][..i];
    }
    if Precedes(a, b) {
      var i :| 0 <= i < |b| && i <= |a| && a[..i] == b[..i] && (i < |a| ==> a[i] < b[i]);
      assert i > 0;
      assert a[1..][..i - 1] == a[..i][1..] && b[1..][..i - 1] == b[..i][1..];
    }
  }

  ghost predicate TotalPreorder<T(!new)>(le: (T, T) -> bool) {
    && (forall x, y :: le(x, y) || le(y, x))
    && (forall x, y, z :: le(x, y) && le(y, z) ==> le(x, z))
  }

  lemma StrLeTotal()
    ensures TotalPreorder(StrLe)
  {
    forall a, b ensures StrLe(a, b) || StrLe(b, a) { StrCmpSign(a, b); }
    forall a, b, c | StrLe(a, b) && StrLe(b, c) ensures StrLe(a, c) { StrCmpTransitive(a, b, c); }
  }

  ghost predicate Sorted<T>(s: seq<T>, le: (T, T) -> bool) {
    forall i, j :: 0 <= i < j < |s| ==> le(s[i], s[j])
  }

  function Insert<T>(x: T, s: seq<T>, le: (T, T) -> bool): seq<T> {
    if s == [] then [x]
    else if le(x, s[0]) then [x] + s
    else [s[0]] + Insert(x, s[1..], le)
  }

  /** g_qsort_with_data(). */
  function Sort<T>(s: seq<T>, le: (T, T) -> bool): seq<T> {
    if s == [] then [] else Insert(s[0], Sort(s[1..], le), le)
  }

  lemma {:induction false} InsertKeepsElements<T>(x: T, s: seq<T>, le: (T, T) -> bool)
    ensures multiset(Insert(x, s, le)) == multiset{x} + multiset(s)
  {
    if s != [] && !le(x, s[0]) {
      InsertKeepsElements(x, s[1..], le);
      assert s == [s[0]] + s[1..];
    }
  }

  lemma {:induction false} InsertKeepsOrder<T(!new)>(x: T, s: seq<T>, le: (T, T) -> bool)
    requires TotalPreorder(le) && Sorted(s, le)
    ensures Sorted(Insert(x, s, le), le)
  {
    if s != [] {
      if le(x, s[0]) {
        assert forall j :: 0 <= j < |s| ==> le(s[0], s[j]) || j == 0;
      } else {
        InsertKeepsOrder(x, s[1..], le);
        InsertKeepsElements(x, s[1..], le);
        var rest := Insert(x, s[1..], le);
        forall j | 0 <= j < |rest| ensures le(s[0], rest[j]) {
          assert rest[j] in multiset(rest);
          assert rest[j] == x || rest[j] in s[1..];
        }
      }
    }
  }

  /** The result is an ordered permutation of the input. */
  lemma {:induction false} SortIsSort<T(!new)>(s: seq<T>, le: (T, T) -> bool)
    requires TotalPreorder(le)
    ensures Sorted(Sort(s, le), le)
    ensures multiset(Sort(s, le)) == multiset(s)
  {
    if s != [] {
      SortIsSort(s[1..], le);
      InsertKeepsOrder(s[0], Sort(s[1..], le), le);
      InsertKeepsElements(s[0], Sort(s[1..], le), le);
      assert s == [s[0]] + s[1..];
    }
  }

  /** Strictly ascending names. */
  ghost predicate Increasing(s: seq<string>) {
    forall i, j :: 0 <= i < j < |s| ==> StrCmp(s[i], s[j]) < 0
  }

  lemma IncreasingIsDistinct(s: seq<string>)
    requires Increasing(s)
    ensures Distinct(s)
  {
    forall i, j | 0 <= i < j < |s| ensures s[i] != s[j] {
      StrCmpSign(s[i], s[j]);
    }
  }

  /** Two increasing sequences of the same elements are equal. */
  lemma {:induction false} IncreasingUnique(a: seq<string>, b: seq<string>)
    requires Increasing(a) && Increasing(b) && Elements(a) == Elements(b)
    ensures a == b
  {
    if a == [] || b == [] {
      ElementsEmpty(a);
      ElementsEmpty(b);
    } else {
      assert a[0] in Elements(b) && b[0] in Elements(a);
      StrCmpSign(a[0], b[0]);
      assert a[0] == b[0];
      IncreasingIsDistinct(a);
      IncreasingIsDistinct(b);
      assert Elements(a[1..]) == Elements(a) - {a[0]};
      assert Elements(b[1..]) == Elements(b) - {b[0]};
      IncreasingUnique(a[1..], b[1..]);
      assert a == [a[0]] + a[1..] && b == [b[0]] + b[1..];
    }
  }

  /** _nm_strv_cmp_n() on two non-NULL lists: by length, then element by element. */
  function ListCmp(a: seq<string>, b: seq<string>): (r: int)
    ensures -1 <= r <= 1
  {
    if |a| != |b| then Compare(|a|, |b|) else ElementsCmp(a, b)
  }

  function ElementsCmp(a: seq<string>, b: seq<string>): (r: int)
    requires |a| == |b|
    ensures -1 <= r <= 1
  {
    if a == [] then 0
    else if StrCmp(a[0], b[0]) != 0 then StrCmp(a[0], b[0])
    else ElementsCmp(a[1..], b[1..])
  }

  lemma {:induction false} ElementsCmpSign(a: seq<string>, b: seq<string>)
    requires |a| == |b|
    ensures ElementsCmp(a, b) == 0 <==> a == b
    ensures ElementsCmp(b, a) == -ElementsCmp(a, b)
  {
    if a != [] {
      StrCmpSign(a[0], b[0]);
      ElementsCmpSign(a[1..], b[1..]);
      assert a == [a[0]] + a[1..] && b == [b[0]] + b[1..];
    }
  }

  lemma {:induction false} ElementsCmpTransitive(a: seq<string>, b: seq<string>, c: seq<string>)
    requires |a| == |b| == |c|
    requires ElementsCmp(a, b) <= 0 && ElementsCmp(b, c) <= 0
    ensures ElementsCmp(a, c) <= 0
    ensures ElementsCmp(a, c) == 0 ==> ElementsCmp(a, b) == 0 && ElementsCmp(b, c) == 0
  {
    if a != [] {
      StrCmpTransitive(a[0], b[0], c[0]);
      StrCmpSign(a[0], b[0]);
      StrCmpSign(b[0], c[0]);
      if a[0] == b[0] == c[0] {
        ElementsCmpTransitive(a[1..], b[1..], c[1..]);
      }
    }
  }

  /** Shorter lists come first, lists of the same length in the order of their first difference. */
  lemma {:induction false} ListCmpMeans(a: seq<string>, b: seq<string>)
    ensures ListCmp(a, b) < 0 <==>
            |a| < |b| || (|a| == |b| && exists i :: 0 <= i < |a| && a[..i] == b[..i] && StrCmp(a[i], b[i]) < 0)
  {
    if |a| == |b| > 0 {
      StrCmpSign(a[0], b[0]);
      if a[0] == b[0] {
        ListCmpMeans(a[1..], b[1..]);
        FirstDifferenceTail(a, b);
      } else {
        assert a[..0] == b[..0];
        assert forall i :: 0 < i <= |a| ==> a[..i][0] != b[..i][0];
      }
    }
  }

  lemma FirstDifferenceTail(a: seq<string>, b: seq<string>)
    requires |a| == |b| > 0 && a[0] == b[0]
    ensures (exists i :: 0 <= i < |a| && a[..i] == b[..i] && StrCmp(a[i], b[i]) < 0) <==>
            (exists i :: 0 <= i < |a[1..]| && a[1..][..i] == b[1..][..i] && StrCmp(a[1..][i], b[1..][i]) < 0)
  {
    StrCmpSign(a[0], b[0]);
    if i :| 0 <= i < |a| && a[..i] == b[..i] && StrCmp(a[i], b[i]) < 0 {
      assert i > 0;
      assert a[1..][..i - 1] == a[..i][1..] && b[1..][..i - 1] == b[..i][1..];
    }
    if i :| 0 <= i < |a[1..]| && a[1..][..i] == b[1..][..i] && StrCmp(a[1..][i], b[1..][i]) < 0 {
      assert a[..i + 1] == [a[0]] + a[1..][..i] && b[..i + 1] == [b[0]] + b[1..][..i];
    }
  }

  /** Lists are totally ordered, and only equal lists compare equal. */
  lemma ListCmpTotal(a: seq<string>, b: seq<string>, c: seq<string>)
    ensures ListCmp(a, b) == 0 <==> a == b
    ensures ListCmp(b, a) == -ListCmp(a, b)
    ensures ListCmp(a, b) <= 0 && ListCmp(b, c) <= 0 ==>
              ListCmp(a, c) <= 0 && (ListCmp(a, c) == 0 ==> ListCmp(a, b) == 0 && ListCmp(b, c) == 0)
  {
    if |a| == |b| {
      ElementsCmpSign(a, b);
    }
    if |a| == |b| == |c| && ElementsCmp(a, b) <= 0 && ElementsCmp(b, c) <= 0 {
      ElementsCmpTransitive(a, b, c);
    }
  }
}
