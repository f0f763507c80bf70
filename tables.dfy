/** A collection of records addressed by key: the rows by key, plus the
    natural (insertion) order in which an unsorted `find` returns them. */
module Tables {

  datatype Table<K(==,!new), V> = Table(rows: map<K, V>, order: seq<K>) {

    /** Every key occurs in `order` exactly once, and `order` lists exactly the keys. */
    ghost predicate Valid() {
      && (forall i, j :: 0 <= i < j < |order| ==> order[i] != order[j])
      && (forall k :: k in rows <==> k in order)
    }

    /** The rows in natural order. */
    function Values(): (vs: seq<V>)
      requires Valid()
      ensures |vs| == |order|
    {
      seq(|order|, i requires 0 <= i < |order| => rows[order[i]])
    }

    /** Adds a row under a key not yet used. */
    function Insert(k: K, v: V): (t: Table<K, V>)
      requires k !in rows
      ensures Valid() ==> t.Valid()
      ensures t.rows.Keys == rows.Keys + {k} && |t.order| == |order| + 1
    {
      Table(rows[k := v], order + [k])
    }

    /** Replaces the row stored under an existing key (a `save` of a loaded document). */
    function Update(k: K, v: V): (t: Table<K, V>)
      requires k in rows
      ensures Valid() ==> t.Valid()
      ensures t.rows.Keys == rows.Keys && t.order == order
    {
      Table(rows[k := v], order)
    }
  }

  function Empty<K(==,!new), V>(): (t: Table<K, V>)
    ensures t.Valid() && t.rows == map[] && t.Values() == []
  {
    Table(map[], [])
  }

  /** A value is listed exactly when some key stores it. */
  lemma ValuesContents<K(!new), V(!new)>(t: Table<K, V>)
    requires t.Valid()
    ensures forall v :: v in t.Values() <==> exists k :: k in t.rows && t.rows[k] == v
  {
    var vs := t.Values();
    forall v | v in vs ensures exists k :: k in t.rows && t.rows[k] == v {
      var i :| 0 <= i < |vs| && vs[i] == v;
      assert t.order[i] in t.rows;
    }
    forall v | exists k :: k in t.rows && t.rows[k] == v ensures v in vs {
      var k :| k in t.rows && t.rows[k] == v;
      var i :| 0 <= i < |t.order| && t.order[i] == k;
      assert vs[i] == v;
    }
  }

  /** Saving a row straight after inserting it is the same as inserting the saved row. */
  lemma InsertThenUpdate<K(!new), V>(t: Table<K, V>, k: K, v: V, v': V)
    requires k !in t.rows
    ensures t.Insert(k, v).Update(k, v') == t.Insert(k, v')
  {
    assert t.Insert(k, v).Update(k, v').rows == t.Insert(k, v').rows;
  }
}
