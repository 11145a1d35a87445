/**
 * `station_cmd_ids`, the dict of a batch, as an association list in insertion
 * order: what Python's dict assignment does to it, and the uniqueness of its keys.
 */
module StationDict {
  import opened Effects

  /** `station_cmd_ids`: (station id, command id) pairs in insertion order; `None` is `JNull`. */
  type Commands = seq<(Json, Json)>

  /** The stations of the dict, in order. */
  function Keys(d: Commands): (ks: seq<Json>)
    ensures |ks| == |d|
  {
    if d == [] then [] else [d[0].0] + Keys(d[1..])
  }

  /** No station occurs twice. */
  predicate NoDup(xs: seq<Json>)
  {
    xs == [] || (xs[0] !in xs[1..] && NoDup(xs[1..]))
  }

  /** A Python dict holds each key once. */
  predicate UniqueKeys(d: Commands) {
    NoDup(Keys(d))
  }

  /** The i-th key is the station of the i-th entry. */
  lemma {:induction false} KeysIndex(d: Commands)
    ensures forall i :: 0 <= i < |d| ==> Keys(d)[i] == d[i].0
  {
    if d != [] {
      KeysIndex(d[1..]);
      forall i | 1 <= i < |d| ensures Keys(d)[i] == d[i].0 {
        assert Keys(d)[i] == Keys(d[1..])[i - 1];
      }
    }
  }

  /** A station occurring twice in a sequence without duplicates is at one position. */
  lemma {:induction false} NoDupAt(xs: seq<Json>, i: nat, j: nat)
    requires NoDup(xs) && i < |xs| && j < |xs| && xs[i] == xs[j]
    ensures i == j
  {
    if i > 0 && j > 0 {
      NoDupAt(xs[1..], i - 1, j - 1);
    }
  }

  /** The dict as a map from station id to command id. */
  function AsMap(d: Commands): map<Json, Json>
  {
    if d == [] then map[] else AsMap(d[1..])[d[0].0 := d[0].1]
  }

  /** `d[key] = v`: replaces the value in place when the key is present, appends otherwise. */
  function Assign(d: Commands, key: Json, v: Json): Commands
  {
    if d == [] then [(key, v)]
    else if d[0].0 == key then [(key, v)] + d[1..]
    else [d[0]] + Assign(d[1..], key, v)
  }

  lemma KeysCons(d: Commands)
    requires d != []
    ensures Keys(d) == [d[0].0] + Keys(d[1..])
  {
  }

  /** The map of the association list has exactly its keys. */
  lemma {:induction false} AsMapDomain(d: Commands)
    ensures forall x :: x in AsMap(d) <==> x in Keys(d)
  {
    if d != [] {
      AsMapDomain(d[1..]);
      KeysCons(d);
    }
  }

  /** An existing key keeps its position; a new key goes last. */
  lemma {:induction false} AssignKeys(d: Commands, key: Json, v: Json)
    ensures key in Keys(d) ==> Keys(Assign(d, key, v)) == Keys(d)
    ensures key !in Keys(d) ==> Keys(Assign(d, key, v)) == Keys(d) + [key]
  {
    if d != [] {
      KeysCons(d);
      KeysCons(Assign(d, key, v));
      if d[0].0 != key {
        AssignKeys(d[1..], key, v);
        assert Assign(d, key, v)[1..] == Assign(d[1..], key, v);
      } else {
        assert Assign(d, key, v)[1..] == d[1..];
      }
    }
  }

  /** Assignment on the association list is assignment on the dict: the map gets `key := v`. */
  lemma {:induction false} AssignIsUpdate(d: Commands, key: Json, v: Json)
    ensures AsMap(Assign(d, key, v)) == AsMap(d)[key := v]
  {
    if d != [] {
      var m := AsMap(d[1..]);
      if d[0].0 == key {
        assert Assign(d, key, v)[1..] == d[1..];
        assert AsMap(Assign(d, key, v)) == m[key := v];
        assert m[key := d[0].1][key := v] == m[key := v];
      } else {
        assert Assign(d, key, v)[1..] == Assign(d[1..], key, v);
        AssignIsUpdate(d[1..], key, v);
        assert AsMap(Assign(d, key, v)) == m[key := v][d[0].0 := d[0].1];
        assert m[key := v][d[0].0 := d[0].1] == m[d[0].0 := d[0].1][key := v];
      }
    }
  }

  /** Assignment keeps the keys of a dict unique. */
  lemma AssignUnique(d: Commands, key: Json, v: Json)
    requires UniqueKeys(d)
    ensures UniqueKeys(Assign(d, key, v))
  {
    AssignKeys(d, key, v);
    if key !in Keys(d) {
      NoDupAppend(Keys(d), [key]);
    }
  }

  /** Every value of `Assign(d, key, v)` is `v` or a value of `d`. */
  lemma {:induction false} AssignValues(d: Commands, key: Json, v: Json)
    ensures forall i :: 0 <= i < |Assign(d, key, v)| ==> Assign(d, key, v)[i].1 == v || Assign(d, key, v)[i] in d
  {
    if d != [] && d[0].0 != key {
      AssignValues(d[1..], key, v);
      var a := Assign(d, key, v);
      forall i | 0 <= i < |a| ensures a[i].1 == v || a[i] in d {
        if i > 0 {
          assert a[i] == Assign(d[1..], key, v)[i - 1];
        }
      }
    }
  }

  lemma {:induction false} KeysAppend(a: Commands, b: Commands)
    ensures Keys(a + b) == Keys(a) + Keys(b)
  {
    if a != [] {
      assert (a + b)[1..] == a[1..] + b;
      KeysAppend(a[1..], b);
    } else {
      assert a + b == b;
    }
  }

  lemma UniqueTail(d: Commands)
    requires d != [] && UniqueKeys(d)
    ensures UniqueKeys(d[1..]) && d[0].0 !in Keys(d[1..])
  {
    KeysCons(d);
  }

  /** An entry whose station is not in a dict with unique keys, followed by that dict, has unique keys. */
  lemma UniqueCons(e: (Json, Json), d: Commands)
    requires UniqueKeys(d) && e.0 !in Keys(d)
    ensures UniqueKeys([e] + d)
  {
    assert ([e] + d)[1..] == d;
  }

  /** The keys of entries taken from `b` are keys of `b`. */
  lemma KeysOfEntries(a: Commands, b: Commands)
    requires forall i :: 0 <= i < |a| ==> a[i] in b
    ensures forall x :: x in Keys(a) ==> x in Keys(b)
  {
    KeysIndex(a);
    KeysIndex(b);
    forall x | x in Keys(a) ensures x in Keys(b) {
      var i :| 0 <= i < |a| && Keys(a)[i] == x;
      var j :| 0 <= j < |b| && b[j] == a[i];
      assert Keys(b)[j] == x;
    }
  }

  lemma {:induction false} NoDupAppend(a: seq<Json>, b: seq<Json>)
    requires NoDup(a) && NoDup(b) && forall x :: x in a ==> x !in b
    ensures NoDup(a + b)
  {
    if a != [] {
      assert (a + b)[1..] == a[1..] + b;
      NoDupAppend(a[1..], b);
    } else {
      assert a + b == b;
    }
  }
}
