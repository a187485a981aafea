/** diffStringSlices (common/router_data_model.go): the two multiset differences, by merging sorted copies. */
module SliceDiff {
  import opened Types

  /** Sorted, stated from the head. */
  predicate Sorted(s: seq<Id>) {
    |s| <= 1 || (s[0] <= s[1] && Sorted(s[1..]))
  }

  function Insert(x: Id, s: seq<Id>): (r: seq<Id>)
    ensures r != [] && r[0] == if s == [] || x <= s[0] then x else s[0]
    ensures Sorted(s) ==> Sorted(r)
  {
    if s == [] then [x]
    else if x <= s[0] then [x] + s
    else [s[0]] + Insert(x, s[1..])
  }

  /** sort.Strings */
  function Sort(s: seq<Id>): (r: seq<Id>)
    ensures Sorted(r)
  {
    if s == [] then [] else Insert(s[0], Sort(s[1..]))
  }

  lemma {:induction false} InsertPermutes(x: Id, s: seq<Id>)
    ensures multiset(Insert(x, s)) == multiset(s) + multiset{x}
  {
    if s != [] {
      assert s == [s[0]] + s[1..];
      InsertPermutes(x, s[1..]);
    }
  }

  lemma {:induction false} SortPermutes(s: seq<Id>)
    ensures multiset(Sort(s)) == multiset(s)
  {
    if s != [] {
      assert s == [s[0]] + s[1..];
      SortPermutes(s[1..]);
      InsertPermutes(s[0], Sort(s[1..]));
    }
  }

  /** A sorted list whose head is above x does not contain x. */
  lemma {:induction false} NotBelowHead(s: seq<Id>, x: Id)
    requires Sorted(s) && s != [] && x < s[0]
    ensures x !in s
  {
    if |s| > 1 {
      NotBelowHead(s[1..], x);
      assert s == [s[0]] + s[1..];
    }
  }

  function Count(s: seq<Id>, x: Id): nat {
    if s == [] then 0 else (if s[0] == x then 1 else 0) + Count(s[1..], x)
  }

  lemma {:induction false} CountIsMultiplicity(s: seq<Id>, x: Id)
    ensures Count(s, x) == multiset(s)[x]
  {
    if s != [] {
      assert s == [s[0]] + s[1..];
      CountIsMultiplicity(s[1..], x);
    }
  }

  /** What the two-cursor merge sets apart from the remaining lists: (only in first, only in second). */
  function Apart(s: seq<Id>, t: seq<Id>): (seq<Id>, seq<Id>)
    decreases |s| + |t|
  {
    if s == [] || t == [] then (s, t)
    else if s[0] < t[0] then var (f, g) := Apart(s[1..], t); ([s[0]] + f, g)
    else if s[0] > t[0] then var (f, g) := Apart(s, t[1..]); (f, [t[0]] + g)
    else Apart(s[1..], t[1..])
  }

  lemma {:induction false} ApartCount(s: seq<Id>, t: seq<Id>, x: Id)
    requires Sorted(s) && Sorted(t)
    ensures Count(Apart(s, t).0, x) == if Count(s, x) > Count(t, x) then Count(s, x) - Count(t, x) else 0
    ensures Count(Apart(s, t).1, x) == if Count(t, x) > Count(s, x) then Count(t, x) - Count(s, x) else 0
    decreases |s| + |t|
  {
    if s != [] && t != [] {
      if s[0] < t[0] {
        ApartCount(s[1..], t, x);
        NotBelowHead(t, s[0]);
        CountIsMultiplicity(t, s[0]);
      } else if s[0] > t[0] {
        ApartCount(s, t[1..], x);
        NotBelowHead(s, t[0]);
        CountIsMultiplicity(s, t[0]);
      } else {
        ApartCount(s[1..], t[1..], x);
      }
    }
  }

  lemma ApartIsDifference(s: seq<Id>, t: seq<Id>)
    requires Sorted(s) && Sorted(t)
    ensures multiset(Apart(s, t).0) == multiset(s) - multiset(t)
    ensures multiset(Apart(s, t).1) == multiset(t) - multiset(s)
  {
    forall x
      ensures multiset(Apart(s, t).0)[x] == (multiset(s) - multiset(t))[x]
      ensures multiset(Apart(s, t).1)[x] == (multiset(t) - multiset(s))[x]
    {
      ApartCount(s, t, x);
      CountIsMultiplicity(s, x);
      CountIsMultiplicity(t, x);
      CountIsMultiplicity(Apart(s, t).0, x);
      CountIsMultiplicity(Apart(s, t).1, x);
    }
  }

  /** Both results are exact multiset differences; the inputs come back sorted, as the source leaves them. */
  method DiffStringSlices(slice1: seq<Id>, slice2: seq<Id>)
    returns (onlyInFirst: seq<Id>, onlyInSecond: seq<Id>, sorted1: seq<Id>, sorted2: seq<Id>)
    ensures multiset(onlyInFirst) == multiset(slice1) - multiset(slice2)
    ensures multiset(onlyInSecond) == multiset(slice2) - multiset(slice1)
    ensures sorted1 == Sort(slice1) && sorted2 == Sort(slice2)
  {
    sorted1, sorted2 := Sort(slice1), Sort(slice2);
    onlyInFirst, onlyInSecond := Merge(sorted1, sorted2);
    SortPermutes(slice1);
    SortPermutes(slice2);
    ApartIsDifference(sorted1, sorted2);
  }

  method Merge(s: seq<Id>, t: seq<Id>) returns (onlyInFirst: seq<Id>, onlyInSecond: seq<Id>)
    ensures (onlyInFirst, onlyInSecond) == Apart(s, t)
  {
    onlyInFirst, onlyInSecond := [], [];
    var i, j := 0, 0;
    ghost var rs, rt := s, t;
    while i < |s| && j < |t|
      invariant i <= |s| && j <= |t| && rs == s[i..] && rt == t[j..]
      invariant onlyInFirst + Apart(rs, rt).0 == Apart(s, t).0
      invariant onlyInSecond + Apart(rs, rt).1 == Apart(s, t).1
      decreases |s| - i + |t| - j
    {
      if s[i] < t[j] {
        onlyInFirst := onlyInFirst + [s[i]];
        i, rs := i + 1, rs[1..];
      } else if s[i] > t[j] {
        onlyInSecond := onlyInSecond + [t[j]];
        j, rt := j + 1, rt[1..];
      } else {
        i, j, rs, rt := i + 1, j + 1, rs[1..], rt[1..];
      }
    }
    onlyInFirst := AppendRest(onlyInFirst, s, i);
    onlyInSecond := AppendRest(onlyInSecond, t, j);
  }

  method AppendRest(prefix: seq<Id>, s: seq<Id>, from: nat) returns (r: seq<Id>)
    requires from <= |s|
    ensures r == prefix + s[from..]
  {
    r := prefix;
    for i := from to |s|
      invariant r == prefix + s[from..i]
    {
      r := r + [s[i]];
    }
  }
}
