/** The two list operations the group controller performs on a `members` array:
    filtering one id out of it, and appending the requested ids that it does not
    already hold. Neither operation deduplicates its input. */
module Members {
  import opened Types

  /** True when no id occurs twice in `xs`. */
  predicate NoDup(xs: seq<Id>)
  {
    forall i, j :: 0 <= i < j < |xs| ==> xs[i] != xs[j]
  }

  /** `xs` with every occurrence of `x` filtered out and the other ids left in
      their order. */
  function Without(xs: seq<Id>, x: Id): (r: seq<Id>)
    ensures x !in r
    ensures forall y :: y in r <==> y in xs && y != x
    ensures multiset(r) == multiset(xs)[x := 0]
  {
    if |xs| == 0 then []
    else
      assert xs == [xs[0]] + xs[1..];
      if xs[0] == x then Without(xs[1..], x)
      else [xs[0]] + Without(xs[1..], x)
  }

  /** The ids of `ids` that `members` does not hold, in request order; an id the
      request repeats is kept every time it appears. */
  function Absent(ids: seq<Id>, members: seq<Id>): (r: seq<Id>)
    ensures forall y :: y in r <==> y in ids && y !in members
    ensures forall y :: multiset(r)[y] == if y in members then 0 else multiset(ids)[y]
  {
    if |ids| == 0 then []
    else
      assert ids == [ids[0]] + ids[1..];
      if ids[0] in members then Absent(ids[1..], members)
      else [ids[0]] + Absent(ids[1..], members)
  }

  /** `members` followed by the requested ids it does not already hold. */
  function AddAbsent(members: seq<Id>, ids: seq<Id>): (r: seq<Id>)
    ensures |members| <= |r| && r[..|members|] == members
    ensures forall i :: |members| <= i < |r| ==> r[i] !in members && r[i] in ids
    ensures forall y :: y in r <==> y in members || y in ids
    ensures r[|members|..] == Absent(ids, members)
  {
    members + Absent(ids, members)
  }

  /** Selecting the absent ids distributes over concatenation of the request, so
      the appended ids keep the request's order. */
  lemma {:induction false} AbsentDistributes(a: seq<Id>, b: seq<Id>, members: seq<Id>)
    ensures Absent(a + b, members) == Absent(a, members) + Absent(b, members)
  {
    if |a| == 0 {
      assert a + b == b;
    } else {
      assert (a + b)[1..] == a[1..] + b;
      AbsentDistributes(a[1..], b, members);
    }
  }

  /** Filtering distributes over concatenation, so the ids that remain keep the
      relative order they had. */
  lemma {:induction false} WithoutDistributes(a: seq<Id>, b: seq<Id>, x: Id)
    ensures Without(a + b, x) == Without(a, x) + Without(b, x)
  {
    if |a| == 0 {
      assert a + b == b;
    } else {
      assert (a + b)[1..] == a[1..] + b;
      WithoutDistributes(a[1..], b, x);
    }
  }

  /** Filtering out an id that is not present leaves the list as it was. */
  lemma {:induction false} WithoutAbsentId(xs: seq<Id>, x: Id)
    requires x !in xs
    ensures Without(xs, x) == xs
  {
    if |xs| > 0 {
      WithoutAbsentId(xs[1..], x);
      assert xs == [xs[0]] + xs[1..];
    }
  }

  /** Filtering keeps a duplicate-free list duplicate-free. */
  lemma {:induction false} WithoutKeepsNoDup(xs: seq<Id>, x: Id)
    requires NoDup(xs)
    ensures NoDup(Without(xs, x))
  {
    if |xs| > 0 {
      assert NoDup(xs[1..]) by {
        forall i, j | 0 <= i < j < |xs[1..]|
          ensures xs[1..][i] != xs[1..][j]
        {
          assert xs[1..][i] == xs[i + 1] && xs[1..][j] == xs[j + 1];
        }
      }
      WithoutKeepsNoDup(xs[1..], x);
      if xs[0] != x {
        assert xs[0] !in xs[1..] by {
          forall k | 0 <= k < |xs[1..]| ensures xs[1..][k] != xs[0] {
            assert xs[1..][k] == xs[k + 1];
          }
        }
        ConsNoDup(xs[0], Without(xs[1..], x));
      }
    }
  }

  /** Prepending an id the list does not hold keeps it duplicate-free. */
  lemma ConsNoDup(y: Id, t: seq<Id>)
    requires NoDup(t) && y !in t
    ensures NoDup([y] + t)
  {
  }

  /** When the request and the current list are both duplicate-free, so is the
      list after the append. */
  lemma {:induction false} AbsentKeepsNoDup(ids: seq<Id>, members: seq<Id>)
    requires NoDup(ids)
    ensures NoDup(Absent(ids, members))
  {
    if |ids| > 0 {
      assert NoDup(ids[1..]) by {
        forall i, j | 0 <= i < j < |ids[1..]|
          ensures ids[1..][i] != ids[1..][j]
        {
          assert ids[1..][i] == ids[i + 1] && ids[1..][j] == ids[j + 1];
        }
      }
      AbsentKeepsNoDup(ids[1..], members);
      if ids[0] !in members {
        assert ids[0] !in ids[1..] by {
          forall k | 0 <= k < |ids[1..]| ensures ids[1..][k] != ids[0] {
            assert ids[1..][k] == ids[k + 1];
          }
        }
        ConsNoDup(ids[0], Absent(ids[1..], members));
      }
    }
  }

  /** Appending a duplicate-free request to a duplicate-free list yields a
      duplicate-free list. */
  lemma AddAbsentKeepsNoDup(members: seq<Id>, ids: seq<Id>)
    requires NoDup(members) && NoDup(ids)
    ensures NoDup(AddAbsent(members, ids))
  {
    var added := Absent(ids, members);
    AbsentKeepsNoDup(ids, members);
    var r := members + added;
    forall i, j | 0 <= i < j < |r| ensures r[i] != r[j] {
      if j >= |members| {
        assert r[j] == added[j - |members|];
        if i >= |members| {
          assert r[i] == added[i - |members|];
        } else {
          assert r[i] in members;
        }
      }
    }
  }

  /** An append adds nothing when every requested id is already present. */
  lemma AbsentOfPresent(ids: seq<Id>, members: seq<Id>)
    requires forall y :: y in ids ==> y in members
    ensures Absent(ids, members) == []
  {
  }

  /** Repeating an append with the same request changes nothing further. */
  lemma AddAbsentIdempotent(members: seq<Id>, ids: seq<Id>)
    ensures AddAbsent(AddAbsent(members, ids), ids) == AddAbsent(members, ids)
  {
    var once := AddAbsent(members, ids);
    AbsentOfPresent(ids, once);
    assert once + [] == once;
  }

  /** The append does not deduplicate the request: an absent id requested twice
      is appended twice. */
  lemma AddAbsentKeepsRequestDuplicates(members: seq<Id>, x: Id)
    requires x !in members
    ensures AddAbsent(members, [x, x]) == members + [x, x]
    ensures !NoDup(AddAbsent(members, [x, x]))
  {
    assert [x, x][1..] == [x];
    assert [x][1..] == [];
    assert Absent([x], members) == [x];
    assert Absent([x, x], members) == [x, x];
  }
}
