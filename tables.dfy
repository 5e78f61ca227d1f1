/** Database tables as the program uses them: an append/delete table of
    rows, and a table with a unique key on which `updateOrCreate` upserts. */
module Tables {
  import opened Wrappers

  /** The rows of `s` that satisfy `keep`, in their original order. */
  function Filter<R>(s: seq<R>, keep: R -> bool): (r: seq<R>)
    ensures |r| <= |s|
  {
    if s == [] then [] else (if keep(s[0]) then [s[0]] else []) + Filter(s[1..], keep)
  }

  /** A row survives the filter exactly when it was there and satisfies `keep`. */
  lemma {:induction false} FilterMembers<R>(s: seq<R>, keep: R -> bool, x: R)
    ensures x in Filter(s, keep) <==> x in s && keep(x)
  {
    if s != [] {
      FilterMembers(s[1..], keep, x);
      assert s == [s[0]] + s[1..];
    }
  }

  /** Filtering with a condition every row already meets changes nothing. */
  lemma {:induction false} FilterAll<R>(s: seq<R>, keep: R -> bool)
    requires forall i :: 0 <= i < |s| ==> keep(s[i])
    ensures Filter(s, keep) == s
  {
    if s != [] {
      FilterAll(s[1..], keep);
      assert s == [s[0]] + s[1..];
    }
  }

  /** Filtering twice with the same condition is filtering once. */
  lemma {:induction false} FilterIdempotent<R>(s: seq<R>, keep: R -> bool)
    ensures Filter(Filter(s, keep), keep) == Filter(s, keep)
  {
    var f := Filter(s, keep);
    forall i | 0 <= i < |f| ensures keep(f[i]) {
      FilterMembers(s, keep, f[i]);
    }
    FilterAll(f, keep);
  }

  /** Filtering distributes over concatenation. */
  lemma {:induction false} FilterAppend<R>(a: seq<R>, b: seq<R>, keep: R -> bool)
    ensures Filter(a + b, keep) == Filter(a, keep) + Filter(b, keep)
  {
    if a != [] {
      FilterAppend(a[1..], b, keep);
      assert (a + b)[1..] == a[1..] + b;
    } else {
      assert a + b == b;
    }
  }

  /** A filter that no row passes is empty. */
  lemma {:induction false} FilterNone<R>(s: seq<R>, keep: R -> bool)
    requires forall i :: 0 <= i < |s| ==> !keep(s[i])
    ensures Filter(s, keep) == []
  {
    if s != [] {
      FilterNone(s[1..], keep);
    }
  }

  /** The number of rows of `s` satisfying `p`. */
  function CountWhere<R>(s: seq<R>, p: R -> bool): (n: nat)
    ensures n <= |s|
  {
    if s == [] then 0 else (if p(s[0]) then 1 else 0) + CountWhere(s[1..], p)
  }

  /** The complement of a row predicate, the filter of a delete. */
  function Not<R>(p: R -> bool): R -> bool {
    r => !p(r)
  }

  /** A filter that drops the rows satisfying `p` drops exactly CountWhere(s, p) rows. */
  lemma {:induction false} FilterOutCount<R>(s: seq<R>, p: R -> bool)
    ensures |Filter(s, Not(p))| == |s| - CountWhere(s, p)
  {
    if s != [] {
      FilterOutCount(s[1..], p);
    }
  }

  /** After deleting the rows satisfying `p`, none is left. */
  lemma {:induction false} NoneLeft<R>(s: seq<R>, p: R -> bool)
    ensures CountWhere(Filter(s, Not(p)), p) == 0
  {
    if s != [] {
      NoneLeft(s[1..], p);
      var rest := Filter(s[1..], Not(p));
      if !p(s[0]) {
        assert Filter(s, Not(p)) == [s[0]] + rest;
        assert ([s[0]] + rest)[1..] == rest;
      } else {
        assert Filter(s, Not(p)) == rest;
      }
    }
  }

  /** Deleting the rows that satisfy `p` and inserting `added`, all of which
      satisfy `p`, leaves exactly `added` among the rows satisfying `p` and
      the other rows as they were. */
  lemma ReplaceWhere<R>(s: seq<R>, p: R -> bool, added: seq<R>)
    requires forall i :: 0 <= i < |added| ==> p(added[i])
    ensures Filter(Filter(s, Not(p)) + added, p) == added
    ensures Filter(Filter(s, Not(p)) + added, Not(p)) == Filter(s, Not(p))
  {
    var kept := Filter(s, Not(p));
    FilterAppend(kept, added, p);
    FilterAppend(kept, added, Not(p));
    forall i | 0 <= i < |kept| ensures !p(kept[i]) {
      FilterMembers(s, Not(p), kept[i]);
    }
    FilterNone(kept, p);
    FilterAll(added, p);
    FilterNone(added, Not(p));
    FilterIdempotent(s, Not(p));
  }

  /** `s.map(f).filter(x => x !== null)`: the present results of `f`, in order. */
  function FilterMap<A, B>(s: seq<A>, f: A -> Option<B>): (r: seq<B>)
    ensures |r| <= |s|
  {
    if s == [] then [] else (if f(s[0]).Some? then [f(s[0]).value] else []) + FilterMap(s[1..], f)
  }

  /** A value is in the result exactly when some element maps to it. */
  lemma {:induction false} FilterMapMembers<A, B>(s: seq<A>, f: A -> Option<B>, y: B)
    ensures y in FilterMap(s, f) <==> exists x :: x in s && f(x) == Some(y)
  {
    if s != [] {
      FilterMapMembers(s[1..], f, y);
      assert s == [s[0]] + s[1..];
      if f(s[0]) == Some(y) {
        assert y in FilterMap(s, f);
      }
      if y in FilterMap(s, f) && f(s[0]) != Some(y) {
        assert y in FilterMap(s[1..], f);
      }
      if exists x :: x in s[1..] && f(x) == Some(y) {
        var x :| x in s[1..] && f(x) == Some(y);
        assert x in s;
      }
    }
  }

  /** Every element that maps to a value contributes one, so nothing is
      dropped when `f` is defined everywhere. */
  lemma {:induction false} FilterMapTotal<A, B>(s: seq<A>, f: A -> Option<B>)
    requires forall i :: 0 <= i < |s| ==> f(s[i]).Some?
    ensures |FilterMap(s, f)| == |s|
    ensures forall i :: 0 <= i < |s| ==> FilterMap(s, f)[i] == f(s[i]).value
  {
    if s != [] {
      FilterMapTotal(s[1..], f);
    }
  }

  /** The position of the first row satisfying `p`: `findBy` and `find`. */
  function FirstIndex<R>(s: seq<R>, p: R -> bool): (r: Option<nat>)
    ensures r.Some? ==> r.value < |s| && p(s[r.value]) && forall j :: 0 <= j < r.value ==> !p(s[j])
    ensures r.None? ==> forall j :: 0 <= j < |s| ==> !p(s[j])
  {
    if s == [] then None
    else if p(s[0]) then Some(0)
    else
      var rest := FirstIndex(s[1..], p);
      if rest.None? then None else Some(rest.value + 1)
  }

  function HasId<R>(id: int, idOf: R -> int): R -> bool {
    r => idOf(r) == id
  }

  /** `Model.find(id)`: the row with the primary key, if any. `findOrFail`
      answers 404 where this gives None. */
  function Find<R>(rows: seq<R>, id: int, idOf: R -> int): (r: Option<R>)
    ensures r.Some? ==> r.value in rows && idOf(r.value) == id
    ensures r.None? ==> forall x :: x in rows ==> idOf(x) != id
  {
    var i := FirstIndex(rows, HasId(id, idOf));
    if i.None? then None else Some(rows[i.value])
  }

  /** `UPDATE ... SET ... WHERE p`: every row satisfying `p` rewritten by `f`. */
  function MapWhere<R>(s: seq<R>, p: R -> bool, f: R -> R): (r: seq<R>)
    ensures |r| == |s|
    ensures forall i :: 0 <= i < |s| ==> r[i] == if p(s[i]) then f(s[i]) else s[i]
  {
    seq(|s|, i requires 0 <= i < |s| => if p(s[i]) then f(s[i]) else s[i])
  }

  /** A table of rows that the program inserts into and deletes from. */
  class Table<R> {
    var rows: seq<R>

    constructor (initial: seq<R>)
      ensures rows == initial
    {
      rows := initial;
    }

    /** `Model.create(row)`. */
    method Insert(r: R)
      modifies this
      ensures rows == old(rows) + [r]
    {
      rows := rows + [r];
    }

    /** `Model.createMany(rs)`. */
    method InsertMany(rs: seq<R>)
      modifies this
      ensures rows == old(rows) + rs
    {
      rows := rows + rs;
    }

    /** `query().where(p).update(...)`, the update given as `f`. */
    method UpdateWhere(p: R -> bool, f: R -> R)
      modifies this
      ensures rows == MapWhere(old(rows), p, f)
    {
      rows := MapWhere(rows, p, f);
    }

    /** `Model.query().where(p).delete()`, returning the number of deleted rows. */
    method DeleteWhere(p: R -> bool) returns (deleted: nat)
      modifies this
      ensures rows == Filter(old(rows), Not(p))
      ensures deleted == |old(rows)| - |rows| == CountWhere(old(rows), p)
    {
      FilterOutCount(rows, p);
      var before := |rows|;
      rows := Filter(rows, Not(p));
      deleted := before - |rows|;
    }
  }

  // Tables with a unique key: rows are (key, value) pairs.

  ghost predicate UniqueKeys<K, V>(rows: seq<(K, V)>) {
    forall i, j :: 0 <= i < j < |rows| ==> rows[i].0 != rows[j].0
  }

  /** The value stored under `k`: the first row whose key is `k`. */
  function Lookup<K(==), V>(rows: seq<(K, V)>, k: K): Option<V> {
    if rows == [] then None
    else if rows[0].0 == k then Some(rows[0].1)
    else Lookup(rows[1..], k)
  }

  /** `updateOrCreate`: overwrite the value of the row with key `k`, or append one. */
  function Upsert<K(==), V>(rows: seq<(K, V)>, k: K, v: V): (r: seq<(K, V)>)
    ensures |r| == if Lookup(rows, k).None? then |rows| + 1 else |rows|
  {
    if rows == [] then [(k, v)]
    else if rows[0].0 == k then [(k, v)] + rows[1..]
    else [rows[0]] + Upsert(rows[1..], k, v)
  }

  lemma LookupMember<K, V>(rows: seq<(K, V)>, k: K)
    ensures Lookup(rows, k).Some? <==> exists i :: 0 <= i < |rows| && rows[i].0 == k
  {
    if rows != [] {
      LookupMember(rows[1..], k);
      if Lookup(rows[1..], k).Some? {
        var i :| 0 <= i < |rows[1..]| && rows[1..][i].0 == k;
        assert rows[i + 1].0 == k;
      }
    }
  }

  /** Under unique keys, a key is stored with a value exactly when that row is in the table. */
  lemma {:induction false} LookupUnique<K, V>(rows: seq<(K, V)>, k: K, v: V)
    requires UniqueKeys(rows)
    ensures Lookup(rows, k) == Some(v) <==> (k, v) in rows
  {
    if rows != [] {
      var t := rows[1..];
      forall i, j | 0 <= i < j < |t| ensures t[i].0 != t[j].0 {
        assert t[i] == rows[i + 1] && t[j] == rows[j + 1];
      }
      LookupUnique(t, k, v);
      assert rows == [rows[0]] + t;
      if rows[0].0 == k {
        forall j | 0 <= j < |t| ensures t[j].0 != k {
          assert t[j] == rows[j + 1];
        }
      }
    }
  }

  /** After an upsert the key maps to the new value, and every other key is unchanged. */
  lemma {:induction false} UpsertLookup<K, V>(rows: seq<(K, V)>, k: K, v: V, other: K)
    ensures Lookup(Upsert(rows, k, v), k) == Some(v)
    ensures other != k ==> Lookup(Upsert(rows, k, v), other) == Lookup(rows, other)
  {
    if rows != [] && rows[0].0 != k {
      UpsertLookup(rows[1..], k, v, other);
    }
  }

  /** Upserting keeps the key unique: at most one row per key. */
  lemma {:induction false} UpsertUnique<K, V>(rows: seq<(K, V)>, k: K, v: V)
    requires UniqueKeys(rows)
    ensures UniqueKeys(Upsert(rows, k, v))
  {
    var r := Upsert(rows, k, v);
    if rows == [] {
    } else if rows[0].0 == k {
      assert r[1..] == rows[1..];
    } else {
      var t := rows[1..];
      UpsertUnique(t, k, v);
      assert r[1..] == Upsert(t, k, v);
      forall j | 1 <= j < |r| ensures r[0].0 != r[j].0 {
        var key := r[j].0;
        LookupMember(Upsert(t, k, v), key);
        assert Lookup(Upsert(t, k, v), key).Some?;
        UpsertLookup(t, k, v, key);
        if key == k {
          assert r[0].0 == rows[0].0;
        } else {
          LookupMember(t, key);
          var i :| 0 <= i < |t| && t[i].0 == key;
          assert rows[i + 1].0 == key;
        }
      }
    }
  }

  /** Repeating an upsert with the same key and value changes nothing. */
  lemma {:induction false} UpsertIdempotent<K, V>(rows: seq<(K, V)>, k: K, v: V)
    ensures Upsert(Upsert(rows, k, v), k, v) == Upsert(rows, k, v)
  {
    if rows != [] && rows[0].0 != k {
      UpsertIdempotent(rows[1..], k, v);
    }
  }

  /** An upsert at the first row with key `k` is an in-place write of that row. */
  lemma {:induction false} UpsertAt<K, V>(rows: seq<(K, V)>, k: K, v: V, i: nat)
    requires i < |rows| && rows[i].0 == k
    requires forall j :: 0 <= j < i ==> rows[j].0 != k
    ensures Upsert(rows, k, v) == rows[i := (k, v)]
  {
    if i == 0 {
      assert [(k, v)] + rows[1..] == rows[0 := (k, v)];
    } else {
      assert rows[0].0 != k;
      UpsertAt(rows[1..], k, v, i - 1);
      assert Upsert(rows, k, v) == [rows[0]] + rows[1..][i - 1 := (k, v)];
      assert [rows[0]] + rows[1..][i - 1 := (k, v)] == rows[i := (k, v)];
    }
  }

  /** An upsert of an absent key appends one row. */
  lemma {:induction false} UpsertAbsent<K, V>(rows: seq<(K, V)>, k: K, v: V)
    requires forall j :: 0 <= j < |rows| ==> rows[j].0 != k
    ensures Upsert(rows, k, v) == rows + [(k, v)]
  {
    if rows != [] {
      assert rows[0].0 != k;
      var tail := rows[1..];
      assert forall j :: 0 <= j < |tail| ==> tail[j] == rows[j + 1];
      UpsertAbsent(tail, k, v);
      assert Upsert(rows, k, v) == [rows[0]] + (tail + [(k, v)]);
      assert [rows[0]] + (tail + [(k, v)]) == rows + [(k, v)];
    }
  }

  /** A table with a unique constraint on the key. */
  class KeyedTable<K(==), V> {
    var rows: seq<(K, V)>

    ghost predicate Valid()
      reads this
    {
      UniqueKeys(rows)
    }

    constructor (initial: seq<(K, V)>)
      requires UniqueKeys(initial)
      ensures Valid() && rows == initial
    {
      rows := initial;
    }

    function Get(k: K): Option<V>
      reads this
    {
      Lookup(rows, k)
    }

    /** `Model.updateOrCreate(key, value)`: find the row with the key, then write or insert. */
    method UpdateOrCreate(k: K, v: V)
      requires Valid()
      modifies this
      ensures Valid()
      ensures rows == Upsert(old(rows), k, v)
      ensures Get(k) == Some(v)
      ensures forall k' :: k' != k ==> Get(k') == Lookup(old(rows), k')
    {
      ghost var before := rows;
      UpsertUnique(rows, k, v);
      UpsertLookup(rows, k, v, k);
      var i := 0;
      while i < |rows| && rows[i].0 != k
        invariant 0 <= i <= |rows|
        invariant forall j :: 0 <= j < i ==> rows[j].0 != k
      {
        i := i + 1;
      }
      if i < |rows| {
        UpsertAt(rows, k, v, i);
        rows := rows[i := (k, v)];
      } else {
        UpsertAbsent(rows, k, v);
        rows := rows + [(k, v)];
      }
      forall k' | k' != k ensures Lookup(rows, k') == Lookup(before, k') {
        UpsertLookup(before, k, v, k');
      }
    }
  }
}
