/**
 * Columns of a delimiter-separated file and the process-wide registry that
 * gives every distinct column name a dense, never-reused number. The source
 * keeps the registry in a static map; here it is an object passed explicitly.
 */
module Columns {

  /** A named column and the number the registry gave its name. */
  datatype Column = Column(name: string, number: nat)

  class Registry {
    /** name -> number, the map the source grows with `computeIfAbsent` */
    var ids: map<string, nat>
    /** names in the order they were registered: `names[i]` has number `i` */
    ghost var names: seq<string>

    /** Numbers are exactly 0 .. |ids| - 1, one per name. */
    ghost predicate Valid()
      reads this
    {
      && |names| == |ids|
      && (forall i :: 0 <= i < |names| ==> names[i] in ids && ids[names[i]] == i)
      && (forall n :: n in ids ==> ids[n] < |names| && names[ids[n]] == n)
    }

    /** Number of names registered so far (`allColumns.size()`). */
    function Size(): nat
      reads this
    {
      |ids|
    }

    /** `c` was made by this registry: its number is the one its name got. */
    predicate Registered(c: Column)
      reads this
    {
      c.name in ids && ids[c.name] == c.number
    }

    constructor ()
      ensures Valid() && ids == map[] && names == []
    {
      ids := map[];
      names := [];
    }

    /**
     * The number of `name`: the one it already has, or else the next unused
     * one, which is the registry's size before the call.
     */
    method Number(name: string) returns (id: nat)
      requires Valid()
      modifies this
      ensures Valid()
      ensures name in old(ids) ==> id == old(ids)[name] && ids == old(ids) && names == old(names)
      ensures name !in old(ids) ==> id == old(Size()) && ids == old(ids)[name := id] && names == old(names) + [name]
      ensures old(names) <= names && old(ids).Keys <= ids.Keys
      ensures forall c :: old(Registered(c)) ==> Registered(c)
    {
      if name in ids {
        id := ids[name];
      } else {
        id := |ids|;
        ids := ids[name := id];
        names := names + [name];
      }
    }

    /** The `Column` constructor: a column whose number is its name's number. */
    method NewColumn(name: string) returns (c: Column)
      requires Valid()
      modifies this
      ensures Valid() && Registered(c) && c.name == name
      ensures name in old(ids) ==> c.number == old(ids)[name] && ids == old(ids)
      ensures name !in old(ids) ==> c.number == old(Size()) && Size() == old(Size()) + 1
      ensures old(names) <= names
      ensures forall d :: old(Registered(d)) ==> Registered(d)
    {
      var id := Number(name);
      c := Column(name, id);
    }
  }

  /** Two registered columns are equal exactly when their names are, and exactly when their numbers are. */
  lemma RegisteredIdentity(reg: Registry, a: Column, b: Column)
    requires reg.Valid() && reg.Registered(a) && reg.Registered(b)
    ensures a.name == b.name <==> a == b
    ensures a.number == b.number <==> a == b
    ensures a.number < reg.Size()
  {
  }

  /** The names of a set of columns. */
  function NamesOf(columns: set<Column>): set<string> {
    set c | c in columns :: c.name
  }

  /** No two columns share a name. */
  predicate UniqueNames(columns: set<Column>) {
    forall a, b :: a in columns && b in columns && a.name == b.name ==> a == b
  }

  /**
   * A name -> column table: every entry is keyed by its own name, numbers are
   * below `size` and no two entries share a number.
   */
  predicate NameTable(cols: map<string, Column>, size: nat) {
    && (forall n :: n in cols ==> cols[n].name == n && cols[n].number < size)
    && (forall n, m :: n in cols && m in cols && n != m ==> cols[n].number != cols[m].number)
  }

  /** Distinct names: there are as many names as columns. */
  lemma {:induction false} UniqueNamesCount(columns: set<Column>)
    requires UniqueNames(columns)
    ensures |NamesOf(columns)| == |columns|
    decreases |columns|
  {
    if columns != {} {
      var c :| c in columns;
      var rest := columns - {c};
      UniqueNamesCount(rest);
      assert NamesOf(columns) == NamesOf(rest) + {c.name};
      assert c.name !in NamesOf(rest);
    }
  }

  /** Registered columns never share a name (equal names give equal numbers). */
  lemma RegisteredUnique(reg: Registry, columns: set<Column>)
    requires reg.Valid() && forall c :: c in columns ==> reg.Registered(c)
    ensures UniqueNames(columns)
    ensures forall c :: c in columns ==> c.number < reg.Size()
  {
  }

  /** The declared columns keyed by their names. */
  function ByName(columns: set<Column>): (cols: map<string, Column>)
    requires UniqueNames(columns)
    ensures cols.Keys == NamesOf(columns)
    ensures forall n :: n in cols ==> cols[n] in columns && cols[n].name == n
    ensures |cols| == |columns|
    ensures forall c :: c in columns ==> c.name in cols && cols[c.name] == c
  {
    UniqueNamesCount(columns);
    var cols := map c | c in columns :: c.name := c;
    assert cols.Keys == NamesOf(columns);
    cols
  }
}
