/**
 * A constant lookup table: a map built once from an ordered association list
 * of (key, value) pairs, answering point lookups and falling back to a
 * designated value for every key the list does not hold.
 *
 * The two table classes the mode registry builds (IntToObject and
 * StringToObject) are not part of this model. Their behaviour is ASSUMED from
 * the way the registry constructs them, `new IntToObject(pairs, fallback)`:
 * entries are inserted in list order, a later entry for a key replaces an
 * earlier one, keys are matched by exact equality (no case folding or
 * trimming of strings), and every absent key answers the fallback.
 */
module LookupTable {

  /** An immutable table: the entries inserted at construction and the fallback. */
  datatype Table<K, V> = Table(entries: map<K, V>, fallback: V)

  /** The keys of the association list's entries. */
  ghost function KeysOf<K, V>(assoc: seq<(K, V)>): set<K> {
    set i | 0 <= i < |assoc| :: assoc[i].0
  }

  /** Entry i is the last one for its key: no later entry shadows it. */
  ghost predicate LastFor<K, V>(assoc: seq<(K, V)>, i: int)
    requires 0 <= i < |assoc|
  {
    forall j :: i < j < |assoc| ==> assoc[j].0 != assoc[i].0
  }

  /** Any two entries with the same key carry the same value. */
  ghost predicate Consistent<K, V>(assoc: seq<(K, V)>) {
    forall i, j :: 0 <= i < |assoc| && 0 <= j < |assoc| && assoc[i].0 == assoc[j].0 ==> assoc[i].1 == assoc[j].1
  }

  /** Position of the last entry for key k, or -1 when the list has none. */
  ghost function LastIndex<K, V>(assoc: seq<(K, V)>, k: K): (i: int)
    ensures -1 <= i < |assoc|
    ensures i == -1 <==> k !in KeysOf(assoc)
    ensures 0 <= i ==> assoc[i].0 == k && LastFor(assoc, i)
    decreases |assoc|
  {
    if |assoc| == 0 then -1
    else if assoc[|assoc| - 1].0 == k then |assoc| - 1
    else
      var i := LastIndex(assoc[..|assoc| - 1], k);
      assert forall j :: 0 <= j < |assoc| - 1 ==> assoc[..|assoc| - 1][j] == assoc[j];
      i
  }

  /** Sequential insertion of the entries, in list order, into an empty map. */
  function Insert<K, V>(assoc: seq<(K, V)>): (m: map<K, V>)
    ensures m.Keys == KeysOf(assoc)
    decreases |assoc|
  {
    if |assoc| == 0 then map[]
    else
      var init := assoc[..|assoc| - 1];
      var last := assoc[|assoc| - 1];
      assert forall j :: 0 <= j < |init| ==> init[j] == assoc[j];
      Insert(init)[last.0 := last.1]
  }

  /** The alternative policy: an entry is inserted only when its key is still absent. */
  function InsertFirstWins<K, V>(assoc: seq<(K, V)>): map<K, V>
    decreases |assoc|
  {
    if |assoc| == 0 then map[]
    else
      var m := InsertFirstWins(assoc[..|assoc| - 1]);
      var last := assoc[|assoc| - 1];
      if last.0 in m then m else m[last.0 := last.1]
  }

  /** Constructs the table from an association list and a fallback. */
  function Build<K, V>(assoc: seq<(K, V)>, fallback: V): (t: Table<K, V>)
    ensures t.fallback == fallback
    ensures t.entries.Keys == KeysOf(assoc)
  {
    Table(Insert(assoc), fallback)
  }

  /** Point lookup: the mapped value, or the fallback when the key is absent. */
  function Resolve<K, V>(t: Table<K, V>, k: K): (v: V)
    ensures k !in t.entries ==> v == t.fallback
    ensures k in t.entries ==> v == t.entries[k]
    ensures v != t.fallback ==> k in t.entries && t.entries[k] == v
  {
    if k in t.entries then t.entries[k] else t.fallback
  }

  /** The value inserted for a key is the one carried by its last entry. */
  lemma {:induction false} InsertLastWins<K, V>(assoc: seq<(K, V)>, i: int)
    requires 0 <= i < |assoc| && LastFor(assoc, i)
    ensures assoc[i].0 in Insert(assoc)
    ensures Insert(assoc)[assoc[i].0] == assoc[i].1
    decreases |assoc|
  {
    var init := assoc[..|assoc| - 1];
    if i < |assoc| - 1 {
      assert init[i] == assoc[i];
      assert LastFor(init, i) by {
        forall j | i < j < |init| ensures init[j].0 != init[i].0 {
          assert init[j] == assoc[j];
        }
      }
      InsertLastWins(init, i);
    }
  }

  /**
   * What a lookup in a built table answers, stated on the association list:
   * the value of the last entry for the key, the fallback when there is none,
   * and in every case either the fallback or a value the list pairs with the key.
   */
  lemma ResolveBuilt<K, V>(assoc: seq<(K, V)>, fallback: V, k: K)
    ensures k !in KeysOf(assoc) ==> Resolve(Build(assoc, fallback), k) == fallback
    ensures forall i :: 0 <= i < |assoc| && assoc[i].0 == k && LastFor(assoc, i) ==>
              Resolve(Build(assoc, fallback), k) == assoc[i].1
    ensures k in KeysOf(assoc) ==> exists i :: 0 <= i < |assoc| && assoc[i] == (k, Resolve(Build(assoc, fallback), k))
  {
    forall i | 0 <= i < |assoc| && assoc[i].0 == k && LastFor(assoc, i)
      ensures Resolve(Build(assoc, fallback), k) == assoc[i].1
    {
      InsertLastWins(assoc, i);
    }
    if k in KeysOf(assoc) {
      var i := LastIndex(assoc, k);
      InsertLastWins(assoc, i);
      assert assoc[i] == (k, Resolve(Build(assoc, fallback), k));
    }
  }

  /**
   * When every repeated key repeats the same value, inserting first-wins and
   * last-wins build the same map: the duplicate is harmless.
   */
  lemma {:induction false} ConsistentInsertOrderIrrelevant<K, V>(assoc: seq<(K, V)>)
    requires Consistent(assoc)
    ensures InsertFirstWins(assoc) == Insert(assoc)
    decreases |assoc|
  {
    if |assoc| > 0 {
      var init := assoc[..|assoc| - 1];
      var last := assoc[|assoc| - 1];
      assert forall j :: 0 <= j < |init| ==> init[j] == assoc[j];
      ConsistentInsertOrderIrrelevant(init);
      var m := Insert(init);
      if last.0 in m {
        var i := LastIndex(init, last.0);
        InsertLastWins(init, i);
        assert m[last.0] == last.1;
        assert m[last.0 := last.1] == m;
      }
    }
  }
}
