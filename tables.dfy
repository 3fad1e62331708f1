/** Reading rows out of a table in a definite order: by primary key, and
    newest first by creation time. */
module Tables {
  import opened Schema

  /** A set of keys is empty or has a member. */
  lemma EmptyOrInhabited(s: set<Id>)
    ensures s == {} || exists e :: e in s
  {
    if forall e :: e !in s {
      assert s == {};
    }
  }

  /** Every non-empty finite set of keys has a smallest element. */
  lemma {:induction false} LeastExists(s: set<Id>)
    requires s != {}
    ensures exists m :: m in s && forall x :: x in s ==> m <= x
  {
    EmptyOrInhabited(s);
    var x :| x in s;
    if s == {x} {
      assert forall z :: z in s ==> x <= z;
    } else {
      var rest := s - {x};
      assert rest != {} && rest < s;
      LeastExists(rest);
      var y :| y in rest && forall z :: z in rest ==> y <= z;
      var m := if y < x then y else x;
      forall z | z in s ensures m <= z {
        if z != x { assert z in rest; }
      }
      assert m in s;
    }
  }

  /** The smallest key of a non-empty set of keys. */
  function Least(s: set<Id>): (m: Id)
    requires s != {}
    ensures m in s
    ensures forall x :: x in s ==> m <= x
  {
    LeastExists(s);
    var m :| m in s && forall x :: x in s ==> m <= x;
    m
  }

  /** The keys of `s` in increasing order: each key once, nothing else. */
  function Ascending(s: set<Id>): (r: seq<Id>)
    ensures forall i :: i in r <==> i in s
    ensures forall j, k :: 0 <= j < k < |r| ==> r[j] < r[k]
    ensures |r| == |s|
    decreases s
  {
    if s == {} then []
    else
      var m := Least(s);
      var rest := Ascending(s - {m});
      assert forall k :: 0 <= k < |rest| ==> m < rest[k] by {
        forall k | 0 <= k < |rest| ensures m < rest[k] {
          assert rest[k] in rest;
        }
      }
      ConsAscending(m, rest);
      [m] + rest
  }

  /** Putting a key smaller than every key of an increasing sequence in
      front keeps it increasing. */
  lemma ConsAscending(m: Id, r: seq<Id>)
    requires forall j, k :: 0 <= j < k < |r| ==> r[j] < r[k]
    requires forall k :: 0 <= k < |r| ==> m < r[k]
    ensures forall j, k :: 0 <= j < k < |[m] + r| ==> ([m] + r)[j] < ([m] + r)[k]
  {
    var t := [m] + r;
    assert forall k :: 1 <= k < |t| ==> t[k] == r[k - 1];
  }

  /** Every key of `ids` has a creation time in `at`. */
  predicate Dated(ids: seq<Id>, at: map<Id, int>) {
    forall k :: 0 <= k < |ids| ==> ids[k] in at
  }

  /** `ids` sorted by `at`, largest first. */
  predicate NewestFirstOrder(ids: seq<Id>, at: map<Id, int>)
    requires Dated(ids, at)
  {
    forall j, k :: 0 <= j < k < |ids| ==> at[ids[j]] >= at[ids[k]]
  }

  /** Insert `x` before the first element no newer than it. */
  function InsertNewest(x: Id, ids: seq<Id>, at: map<Id, int>): (r: seq<Id>)
    requires x in at && Dated(ids, at)
    ensures |r| == |ids| + 1
    ensures multiset(r) == multiset(ids) + multiset{x}
    ensures Dated(r, at)
  {
    if ids == [] then [x]
    else if at[x] >= at[ids[0]] then [x] + ids
    else
      assert ids == [ids[0]] + ids[1..];
      [ids[0]] + InsertNewest(x, ids[1..], at)
  }

  /** Inserting into a newest-first sequence keeps it newest first, and the
      result starts with `x` or with the old first element. */
  lemma {:induction false} InsertNewestOrder(x: Id, ids: seq<Id>, at: map<Id, int>)
    requires x in at && Dated(ids, at) && NewestFirstOrder(ids, at)
    ensures var r := InsertNewest(x, ids, at);
      && NewestFirstOrder(r, at)
      && (r[0] == x || (|ids| > 0 && r[0] == ids[0]))
  {
    if ids != [] {
      if at[x] >= at[ids[0]] {
        ConsNewestFirst(x, ids, at);
      } else {
        var tail := ids[1..];
        assert forall k :: 0 <= k < |tail| ==> tail[k] == ids[k + 1];
        InsertNewestOrder(x, tail, at);
        var rest := InsertNewest(x, tail, at);
        assert at[ids[0]] >= at[rest[0]];
        ConsNewestFirst(ids[0], rest, at);
      }
    }
  }

  /** Putting a key no older than the first of a newest-first sequence in
      front keeps it newest first. */
  lemma ConsNewestFirst(y: Id, ids: seq<Id>, at: map<Id, int>)
    requires y in at && Dated(ids, at) && NewestFirstOrder(ids, at)
    requires ids == [] || at[y] >= at[ids[0]]
    ensures Dated([y] + ids, at) && NewestFirstOrder([y] + ids, at)
  {
    var r := [y] + ids;
    assert forall k :: 1 <= k < |r| ==> r[k] == ids[k - 1];
  }

  /** A newest-first ordering of `ids` (a created_at DESC sort); rows created at
      the same time keep no particular order. */
  function NewestFirst(ids: seq<Id>, at: map<Id, int>): (r: seq<Id>)
    requires Dated(ids, at)
    ensures multiset(r) == multiset(ids)
    ensures |r| == |ids|
    ensures Dated(r, at)
    ensures NewestFirstOrder(r, at)
  {
    if ids == [] then []
    else
      assert ids == [ids[0]] + ids[1..];
      var rest := NewestFirst(ids[1..], at);
      InsertNewestOrder(ids[0], rest, at);
      InsertNewest(ids[0], rest, at)
  }

  /** Sorting the keys of a set newest first keeps exactly those keys, each once. */
  lemma {:induction false} NewestFirstOfSet(s: set<Id>, at: map<Id, int>)
    requires forall i :: i in s ==> i in at
    ensures Dated(Ascending(s), at)
    ensures forall i :: i in NewestFirst(Ascending(s), at) <==> i in s
    ensures |NewestFirst(Ascending(s), at)| == |s|
  {
    var a := Ascending(s);
    forall k | 0 <= k < |a| ensures a[k] in at {
      assert a[k] in a;
    }
    var r := NewestFirst(a, at);
    forall i ensures i in r <==> i in s {
      assert i in r <==> i in multiset(r);
      assert i in a <==> i in multiset(a);
    }
  }
}
