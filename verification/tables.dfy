/**
 * Generic operations on a database table held as a sequence of rows in
 * insertion order. A `select ... where` is a filter, `.first()` is the first
 * matching row, `.one_or_none()` distinguishes zero, one and several matches,
 * and `order_by(desc(created_at))` is a sort, newest first.
 */
module Tables {
  import opened Common

  /** The first index at or after `from` whose row satisfies `p`. */
  function FirstFrom<T>(rows: seq<T>, p: T -> bool, from: nat): (r: Option<nat>)
    requires from <= |rows|
    ensures r.Some? ==> from <= r.value < |rows| && p(rows[r.value])
    ensures r.Some? ==> forall k :: from <= k < r.value ==> !p(rows[k])
    ensures r.None? ==> forall k :: from <= k < |rows| ==> !p(rows[k])
    decreases |rows| - from
  {
    if from == |rows| then None
    else if p(rows[from]) then Some(from)
    else FirstFrom(rows, p, from + 1)
  }

  /** What `.first()` picks: the index of the first row satisfying `p`. */
  function FirstIndex<T>(rows: seq<T>, p: T -> bool): (r: Option<nat>)
    ensures r.Some? ==> r.value < |rows| && p(rows[r.value])
    ensures r.Some? ==> forall k :: 0 <= k < r.value ==> !p(rows[k])
    ensures r.None? <==> forall k :: 0 <= k < |rows| ==> !p(rows[k])
  {
    FirstFrom(rows, p, 0)
  }

  /** The index of the row whose key is `id`: a lookup by primary key. */
  function IndexOfKey<T>(rows: seq<T>, key: T -> Uid, id: Uid): (r: Option<nat>)
    ensures r.Some? ==> r.value < |rows| && key(rows[r.value]) == id
    ensures r.Some? && KeysDistinct(rows, key) ==>
              forall k :: 0 <= k < |rows| && k != r.value ==> key(rows[k]) != id
    ensures r.None? <==> forall k :: 0 <= k < |rows| ==> key(rows[k]) != id
  {
    FirstIndex(rows, (x: T) => key(x) == id)
  }

  /** The three answers of `.one_or_none()`; `ManyRows` is the case in which it raises. */
  datatype Lookup<+T> = NoRow | OneRow(row: T) | ManyRows

  function OneOrNone<T>(rows: seq<T>, p: T -> bool): (r: Lookup<T>)
    ensures r.NoRow? <==> forall k :: 0 <= k < |rows| ==> !p(rows[k])
    ensures r.ManyRows? <==> exists i, j :: 0 <= i < j < |rows| && p(rows[i]) && p(rows[j])
    ensures r.OneRow? ==> r.row in rows && p(r.row)
  {
    match FirstIndex(rows, p)
    case None => NoRow
    case Some(i) =>
      match FirstFrom(rows, p, i + 1)
      case None => OneRow(rows[i])
      case Some(j) => ManyRows
  }

  /** The rows satisfying `p`, in table order. */
  function Where<T(!new)>(rows: seq<T>, p: T -> bool): (r: seq<T>)
    ensures forall x :: x in r <==> x in rows && p(x)
    ensures |r| <= |rows|
  {
    if |rows| == 0 then []
    else (if p(rows[0]) then [rows[0]] else []) + Where(rows[1..], p)
  }

  /** Every row has a different key: the primary-key constraint. */
  ghost predicate KeysDistinct<T>(rows: seq<T>, key: T -> Uid)
  {
    forall i, j :: 0 <= i < j < |rows| ==> key(rows[i]) != key(rows[j])
  }

  /** The table after deleting the rows whose key is `id`. */
  function Without<T(!new)>(rows: seq<T>, key: T -> Uid, id: Uid): (r: seq<T>)
    ensures forall x :: x in r <==> x in rows && key(x) != id
    ensures |r| <= |rows|
  {
    if |rows| == 0 then []
    else if key(rows[0]) == id then Without(rows[1..], key, id)
    else [rows[0]] + Without(rows[1..], key, id)
  }

  lemma {:induction false} WithoutAbsent<T(!new)>(rows: seq<T>, key: T -> Uid, id: Uid)
    requires forall k :: 0 <= k < |rows| ==> key(rows[k]) != id
    ensures Without(rows, key, id) == rows
    decreases |rows|
  {
    if |rows| > 0 {
      WithoutAbsent(rows[1..], key, id);
      assert rows == [rows[0]] + rows[1..];
    }
  }

  /**
   * Deleting the row at index i removes exactly the rows with its key,
   * because keys are distinct.
   */
  lemma {:induction false} RemoveAtIsWithout<T(!new)>(rows: seq<T>, key: T -> Uid, i: nat)
    requires i < |rows| && KeysDistinct(rows, key)
    ensures rows[..i] + rows[i + 1..] == Without(rows, key, key(rows[i]))
    decreases i
  {
    var id := key(rows[i]);
    var tail := rows[1..];
    if i == 0 {
      forall k | 0 <= k < |tail| ensures key(tail[k]) != id {
        assert tail[k] == rows[k + 1];
      }
      WithoutAbsent(tail, key, id);
    } else {
      assert tail[i - 1] == rows[i];
      forall a, b | 0 <= a < b < |tail| ensures key(tail[a]) != key(tail[b]) {
        assert tail[a] == rows[a + 1] && tail[b] == rows[b + 1];
      }
      RemoveAtIsWithout(tail, key, i - 1);
      assert key(rows[0]) != id;
      assert Without(rows, key, id) == [rows[0]] + Without(tail, key, id);
      assert rows[..i] == [rows[0]] + tail[..i - 1];
      assert rows[i + 1..] == tail[i..];
    }
  }

  /** Rows sorted newest first by `age`: `order_by(desc(created_at))`. */
  ghost predicate NewestFirstOrder<T>(rows: seq<T>, age: T -> int)
  {
    forall i, j :: 0 <= i < j < |rows| ==> age(rows[i]) >= age(rows[j])
  }

  function InsertByAge<T>(x: T, sorted: seq<T>, age: T -> int): (r: seq<T>)
    requires NewestFirstOrder(sorted, age)
    ensures NewestFirstOrder(r, age)
    ensures multiset(r) == multiset(sorted) + multiset{x}
    ensures forall y :: y in r ==> y == x || y in sorted
  {
    if |sorted| == 0 then [x]
    else if age(x) >= age(sorted[0]) then
      assert forall y :: y in sorted ==> age(y) <= age(sorted[0]);
      [x] + sorted
    else
      var rest := InsertByAge(x, sorted[1..], age);
      assert sorted == [sorted[0]] + sorted[1..];
      assert forall y :: y in rest ==> age(y) <= age(sorted[0]);
      [sorted[0]] + rest
  }

  /** The rows ordered newest first; a permutation of the input. */
  function NewestFirst<T>(rows: seq<T>, age: T -> int): (r: seq<T>)
    ensures NewestFirstOrder(r, age)
    ensures multiset(r) == multiset(rows)
  {
    if |rows| == 0 then []
    else
      assert rows == [rows[0]] + rows[1..];
      InsertByAge(rows[0], NewestFirst(rows[1..], age), age)
  }

  /** `select ... where p order_by(desc(created_at))`: exactly the matching rows, newest first. */
  function NewestWhere<T(!new)>(rows: seq<T>, p: T -> bool, age: T -> int): (r: seq<T>)
    ensures forall x :: x in r <==> x in rows && p(x)
    ensures multiset(r) == multiset(Where(rows, p))
    ensures NewestFirstOrder(r, age)
  {
    var matching := Where(rows, p);
    var r := NewestFirst(matching, age);
    assert forall x :: x in r <==> x in matching by {
      forall x ensures x in r <==> x in matching {
        assert x in r <==> x in multiset(r);
        assert x in matching <==> x in multiset(matching);
      }
    }
    r
  }

  /**
   * The effect of a sequence of `setattr(obj, k, v)` calls, one per item of
   * the update dictionary, applied in order.
   */
  function ApplyAttrs<T, A>(x: T, attrs: seq<A>, setAttr: (T, A) -> T): T
  {
    if |attrs| == 0 then x
    else setAttr(ApplyAttrs(x, attrs[..|attrs| - 1], setAttr), attrs[|attrs| - 1])
  }

  lemma ApplyAttrsSnoc<T, A>(x: T, attrs: seq<A>, a: A, setAttr: (T, A) -> T)
    ensures ApplyAttrs(x, attrs + [a], setAttr) == setAttr(ApplyAttrs(x, attrs, setAttr), a)
  {
    assert (attrs + [a])[..|attrs|] == attrs;
  }

  /** The `for k, v in update_data_dict.items(): setattr(obj, k, v)` loop. */
  method SetAttrs<T, A>(x: T, attrs: seq<A>, setAttr: (T, A) -> T) returns (r: T)
    ensures r == ApplyAttrs(x, attrs, setAttr)
  {
    r := x;
    for i := 0 to |attrs|
      invariant r == ApplyAttrs(x, attrs[..i], setAttr)
    {
      assert attrs[..i + 1][..i] == attrs[..i];
      r := setAttr(r, attrs[i]);
    }
    assert attrs[..|attrs|] == attrs;
  }
}
