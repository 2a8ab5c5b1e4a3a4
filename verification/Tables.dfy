/** A Go map[string]*V: a mutable object whose values are pointers to records. */
module Tables {
  import opened Types

  /** A record behind a pointer. */
  class Cell<T> {
    var v: T

    constructor (v: T)
      ensures this.v == v
    {
      this.v := v;
    }
  }

  /** `out` lists the values of `m`, each once, in the order `keys`. */
  ghost predicate Lists<V>(out: seq<V>, m: map<string, V>, keys: seq<string>) {
    && |out| == |keys|
    && (forall k :: k in m <==> k in keys)
    && (forall i | 0 <= i < |keys| :: keys[i] in m && out[i] == m[keys[i]])
    && (forall i, j | 0 <= i < j < |keys| :: keys[i] != keys[j])
  }

  class Table<V> {
    var cells: map<string, Cell<V>>
    /** The records the pointers lead to. */
    ghost var m: map<string, V>
    ghost var Repr: set<object>

    ghost predicate Valid()
      reads this, Repr
    {
      && this in Repr
      && cells.Keys == m.Keys
      && (forall k | k in cells :: cells[k] in Repr && cells[k].v == m[k])
      && (forall j, k | j in cells && k in cells && j != k :: cells[j] != cells[k])
    }

    constructor ()
      ensures Valid() && fresh(Repr) && m == map[]
    {
      cells, m, Repr := map[], map[], {this};
    }

    /** m[k] = &v, with v a new record. */
    method Put(k: string, v: V)
      requires Valid()
      modifies this
      ensures Valid() && fresh(Repr - old(Repr)) && old(Repr) <= Repr
      ensures m == old(m)[k := v]
    {
      var cell := new Cell(v);
      cells, m, Repr := cells[k := cell], m[k := v], Repr + {cell};
    }

    method Delete(k: string)
      requires Valid()
      modifies this
      ensures Valid() && Repr == old(Repr)
      ensures m == old(m) - {k}
    {
      cells, m := cells - {k}, m - {k};
    }

    /** *m[k] = v: the record is overwritten where it is. */
    method Overwrite(k: string, v: V)
      requires Valid() && k in m
      modifies this, Repr
      ensures Valid() && Repr == old(Repr)
      ensures m == old(m)[k := v]
    {
      cells[k].v := v;
      m := m[k := v];
    }

    method Get(k: string) returns (r: Option<V>)
      requires Valid()
      ensures r == if k in m then Some(m[k]) else None
    {
      if k !in cells { return None; }
      return Some(cells[k].v);
    }

    /** copyMap: a fresh map of fresh records. */
    method Copy() returns (out: Table<V>)
      requires Valid()
      ensures out.Valid() && fresh(out.Repr) && out.m == m
    {
      out := new Table();
      var rest := cells.Keys;
      while rest != {}
        invariant rest <= cells.Keys
        invariant out.Valid() && fresh(out.Repr)
        invariant out.m.Keys == cells.Keys - rest
        invariant forall k | k in out.m :: out.m[k] == m[k]
        decreases rest
      {
        var k :| k in rest;
        out.Put(k, cells[k].v);
        rest := rest - {k};
      }
    }

    /** A range over the map: any order, every entry once, records copied out. */
    method List() returns (out: seq<V>, ghost keys: seq<string>)
      requires Valid()
      ensures Lists(out, m, keys)
    {
      out, keys := [], [];
      var rest := cells.Keys;
      while rest != {}
        invariant rest <= cells.Keys
        invariant |out| == |keys|
        invariant forall k :: k in keys <==> k in cells.Keys - rest
        invariant forall i | 0 <= i < |keys| :: keys[i] in m && out[i] == m[keys[i]]
        invariant forall i, j | 0 <= i < j < |keys| :: keys[i] != keys[j]
        decreases rest
      {
        var k :| k in rest;
        assert k !in keys;
        out := out + [cells[k].v];
        keys := keys + [k];
        rest := rest - {k};
      }
    }

    /** The records by value, as an encoder writes them. */
    method Values() returns (out: map<string, V>)
      requires Valid()
      ensures out == m
    {
      out := map k | k in cells :: cells[k].v;
    }
  }

  /** Decoding a serialized map allocates the map and every record anew. */
  method Decode<V>(m: map<string, V>) returns (out: Table<V>)
    ensures out.Valid() && fresh(out.Repr) && out.m == m
  {
    out := new Table();
    var rest := m.Keys;
    while rest != {}
      invariant rest <= m.Keys
      invariant out.Valid() && fresh(out.Repr)
      invariant out.m.Keys == m.Keys - rest
      invariant forall k | k in out.m :: out.m[k] == m[k]
      decreases rest
    {
      var k :| k in rest;
      out.Put(k, m[k]);
      rest := rest - {k};
    }
  }

  /** The same, over a map of values. */
  method Range<V>(m: map<string, V>) returns (out: seq<V>, ghost keys: seq<string>)
    ensures Lists(out, m, keys)
  {
    out, keys := [], [];
    var rest := m.Keys;
    while rest != {}
      invariant rest <= m.Keys
      invariant |out| == |keys|
      invariant forall k :: k in keys <==> k in m.Keys - rest
      invariant forall i | 0 <= i < |keys| :: keys[i] in m && out[i] == m[keys[i]]
      invariant forall i, j | 0 <= i < j < |keys| :: keys[i] != keys[j]
      decreases rest
    {
      var k :| k in rest;
      assert k !in keys;
      out := out + [m[k]];
      keys := keys + [k];
      rest := rest - {k};
    }
  }
}
