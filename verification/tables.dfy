/** A MongoDB collection as an in-memory table: documents keyed by id, and
    the id the next insert receives. Ids are handed out in increasing order,
    so ascending id order is the collection's natural (insertion) order, the
    order in which an unsorted `find` returns documents. */
module Tables {
  import opened Js

  type Id = nat

  datatype Table<T> = Table(rows: map<Id, T>, next: Id)

  /** Every stored id was handed out already. */
  ghost predicate Valid<T>(t: Table<T>)
  {
    forall k :: k in t.rows ==> k < t.next
  }

  function Empty<T>(): (t: Table<T>)
    ensures Valid(t) && t.rows == map[]
  {
    Table(map[], 0)
  }

  /** `findById`. */
  function Get<T>(t: Table<T>, id: Id): (r: Option<T>)
    ensures r.Some? <==> id in t.rows
    ensures r.Some? ==> r.value == t.rows[id]
  {
    if id in t.rows then Some(t.rows[id]) else None
  }

  /** `t2` is `t1` with the documents `vs` inserted, in order, under fresh ids;
      nothing already stored changes. */
  ghost predicate Extends<T>(t1: Table<T>, t2: Table<T>, vs: seq<T>)
  {
    && t2.next == t1.next + |vs|
    && (forall k :: k in t2.rows <==> k in t1.rows || t1.next <= k < t2.next)
    && (forall k :: k in t1.rows ==> t2.rows[k] == t1.rows[k])
    && (forall i :: 0 <= i < |vs| ==> t2.rows[t1.next + i] == vs[i])
  }

  /** `new Model(v).save()`: stores `v` under the id `t.next`. */
  function Insert<T>(t: Table<T>, v: T): (r: Table<T>)
    requires Valid(t)
    ensures Valid(r) && Extends(t, r, [v])
    ensures t.next !in t.rows
  {
    Table(t.rows[t.next := v], t.next + 1)
  }

  /** Inserting one more document after a batch extends the batch. */
  lemma ExtendsSnoc<T>(t1: Table<T>, t2: Table<T>, vs: seq<T>, v: T)
    requires Valid(t1) && Extends(t1, t2, vs)
    ensures Valid(t2) && Extends(t1, Insert(t2, v), vs + [v])
  {
    var t3 := Insert(t2, v);
    forall i | 0 <= i < |vs + [v]| ensures t3.rows[t1.next + i] == (vs + [v])[i] {
      if i < |vs| {
        assert t3.rows[t1.next + i] == t2.rows[t1.next + i];
      }
    }
  }

  lemma ExtendsNothing<T>(t: Table<T>)
    ensures Extends(t, t, [])
  {
  }

  /** Replaces the document stored under `id`. */
  function Put<T>(t: Table<T>, id: Id, v: T): (r: Table<T>)
    requires id in t.rows
    ensures r.next == t.next && r.rows.Keys == t.rows.Keys
    ensures r.rows[id] == v
    ensures forall k :: k in t.rows && k != id ==> r.rows[k] == t.rows[k]
    ensures Valid(t) ==> Valid(r)
  {
    Table(t.rows[id := v], t.next)
  }

  /** `deleteOne({ _id: id })`. */
  function Delete<T>(t: Table<T>, id: Id): (r: Table<T>)
    ensures r.next == t.next && r.rows.Keys == t.rows.Keys - {id}
    ensures forall k :: k in r.rows ==> r.rows[k] == t.rows[k]
    ensures Valid(t) ==> Valid(r)
  {
    Table(t.rows - {id}, t.next)
  }

  predicate Increasing(ids: seq<Id>)
  {
    forall i, j :: 0 <= i < j < |ids| ==> ids[i] < ids[j]
  }

  /** The ids below `n` whose documents satisfy `p`, in ascending order. */
  function SelectBelow<T>(rows: map<Id, T>, n: nat, p: T -> bool): (r: seq<Id>)
    ensures Increasing(r)
    ensures forall k :: k in r ==> k < n && k in rows && p(rows[k])
    ensures forall k :: k < n && k in rows && p(rows[k]) ==> k in r
  {
    if n == 0 then []
    else
      var r := SelectBelow(rows, n - 1, p);
      assert forall i :: 0 <= i < |r| ==> r[i] in r;
      if n - 1 in rows && p(rows[n - 1]) then r + [n - 1] else r
  }

  /** `find(filter)`: the ids of the documents satisfying `p`, in natural order. */
  function Select<T>(t: Table<T>, p: T -> bool): (r: seq<Id>)
    requires Valid(t)
    ensures Increasing(r)
    ensures forall k :: k in r <==> k in t.rows && p(t.rows[k])
  {
    SelectBelow(t.rows, t.next, p)
  }

  /** `findOne(filter)`: the first document satisfying `p` in natural order. */
  function First<T>(t: Table<T>, p: T -> bool): (r: Option<Id>)
    requires Valid(t)
    ensures r.Some? <==> exists k :: k in t.rows && p(t.rows[k])
    ensures r.Some? ==> r.value in t.rows && p(t.rows[r.value])
    ensures r.Some? ==> forall k :: k in t.rows && p(t.rows[k]) ==> r.value <= k
  {
    var ids := Select(t, p);
    if ids == [] then None
    else
      assert ids[0] in ids;
      assert forall k :: k in ids ==> ids[0] <= k by {
        forall k | k in ids ensures ids[0] <= k {
          var i :| 0 <= i < |ids| && ids[i] == k;
        }
      }
      Some(ids[0])
  }

  /** The documents stored under `ids`, paired with their ids. */
  function Fetch<T>(t: Table<T>, ids: seq<Id>): (r: seq<(Id, T)>)
    requires forall k :: k in ids ==> k in t.rows
    ensures |r| == |ids|
    ensures forall i :: 0 <= i < |r| ==> r[i] == (ids[i], t.rows[ids[i]])
  {
    if ids == [] then [] else [(ids[0], t.rows[ids[0]])] + Fetch(t, ids[1..])
  }

  /** `find(filter)` with the documents themselves: every stored document
      satisfying `p`, each once, paired with its id, in natural order. */
  function Query<T(!new)>(t: Table<T>, p: T -> bool): (r: seq<(Id, T)>)
    requires Valid(t)
    ensures forall x :: x in r <==> x.0 in t.rows && x.1 == t.rows[x.0] && p(x.1)
    ensures forall i, j :: 0 <= i < j < |r| ==> r[i].0 < r[j].0
  {
    var ids := Select(t, p);
    var r := Fetch(t, ids);
    forall x: (Id, T) | x in r ensures x.0 in t.rows && x.1 == t.rows[x.0] && p(x.1) {
      var i :| 0 <= i < |r| && r[i] == x;
      assert ids[i] in ids;
    }
    forall x: (Id, T) | x.0 in t.rows && x.1 == t.rows[x.0] && p(x.1) ensures x in r {
      var i :| 0 <= i < |ids| && ids[i] == x.0;
      assert r[i] == x;
    }
    r
  }
}
