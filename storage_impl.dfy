/** The registry of mapped tables: the recursive chain storage_impl<H, Ts...>, each
    layer holding one table and inheriting from the chain of the remaining ones,
    and the lookups that walk it. */
module Storage {
  import opened Wrappers
  import Mpl
  import Columns

  type TypeName = Columns.TypeName

  /** An element of a table definition: a column, or a table-level constraint
      such as a composite primary key or a foreign key. */
  datatype Element = ColumnElement(column: Columns.Column) | TableConstraint(tag: TypeName)

  /** A mapped table: its name, the object type it maps, its label type
      (None where the label is `void`) and its elements in declaration order. */
  datatype Table = Table(name: string, objectType: TypeName, labelType: Option<TypeName>, elements: seq<Element>)

  /** storage_impl<H, Ts...>: `Tail` is storage_impl<>, `Link(table, super)` is the
      layer holding table `H` whose base class `super` is storage_impl<Ts...>. */
  datatype StorageImpl = Tail | Link(table: Table, super: StorageImpl)

  /** The tables of a chain, from the head down to the tail. */
  function Tables(s: StorageImpl): seq<Table> {
    match s
    case Tail => []
    case Link(t, sup) => [t] + Tables(sup)
  }

  /** The chain constructor: the head table is kept in this layer and the
      remaining tables are passed on, in order, to the base. */
  function MakeStorage(ts: seq<Table>): (s: StorageImpl)
    ensures Tables(s) == ts
  {
    if |ts| == 0 then Tail else Link(ts[0], MakeStorage(ts[1..]))
  }

  /** Building a chain from its own tables gives back the same chain. */
  lemma {:induction false} MakeStorageOfTables(s: StorageImpl)
    ensures MakeStorage(Tables(s)) == s
  {
    match s
    case Tail =>
    case Link(t, sup) =>
      MakeStorageOfTables(sup);
      assert Tables(s)[1..] == Tables(sup);
  }

  /** for_each(l): the sequence of layers `l` is called on, each layer being a
      table together with the chain below it. The base is visited before this
      layer, so the order is the reverse of declaration order. */
  function ForEach(s: StorageImpl): (visited: seq<StorageImpl>)
    ensures |visited| == |Tables(s)|
    ensures forall i :: 0 <= i < |visited| ==>
              && visited[i].Link?
              && visited[i].table == Tables(s)[|visited| - 1 - i]
              && Tables(visited[i]) == Tables(s)[|visited| - 1 - i..]
  {
    match s
    case Tail => []
    case Link(t, sup) =>
      TablesDrop(t, sup);
      ForEach(sup) + [s]
  }

  /** Dropping k + 1 tables from a layer drops k tables from its base. */
  lemma TablesDrop(t: Table, sup: StorageImpl)
    ensures forall k :: 0 <= k < |Tables(sup)| ==> Tables(Link(t, sup))[k + 1..] == Tables(sup)[k..]
  {
    forall k | 0 <= k < |Tables(sup)|
      ensures Tables(Link(t, sup))[k + 1..] == Tables(sup)[k..]
    {
      assert Tables(Link(t, sup)) == [t] + Tables(sup);
    }
  }

  /** The type index a table is looked up by: its label type when it has one,
      otherwise its object type. */
  function Key(t: Table): (k: TypeName)
    ensures t.labelType.Some? ==> k == t.labelType.value
    ensures t.labelType.None? ==> k == t.objectType
  {
    if t.labelType.Some? then t.labelType.value else t.objectType
  }

  /** find_table_name: the name of the first table, from the head, whose key is
      `ti`, or the empty string when there is none. */
  function FindTableName(s: StorageImpl, ti: TypeName): (r: string)
    ensures var ts := Tables(s);
            var i := Mpl.Finds(ts, Mpl.IsType(ti), Key);
            r == if i < |ts| then ts[i].name else ""
  {
    match s
    case Tail => ""
    case Link(t, sup) =>
      Mpl.FindsCons(t, Tables(sup), Mpl.IsType(ti), Key);
      if Key(t) == ti then t.name else FindTableName(sup, ti)
  }

  /** find_impl<Lookup>: the layer whose table is the first match, from the head,
      or the tail when no table matches. Which tables match a lookup type is
      decided elsewhere and is the parameter `matches` here. */
  function FindImpl(s: StorageImpl, matches: Table -> bool): (r: StorageImpl)
    ensures var ts := Tables(s);
            Tables(r) == ts[Mpl.Finds(ts, matches, Mpl.Identity)..]
  {
    match s
    case Tail => Tail
    case Link(t, sup) =>
      Mpl.FindsCons(t, Tables(sup), matches, Mpl.Identity);
      if matches(t) then s else FindImpl(sup, matches)
  }

  /** lookup_table: null when the lookup resolves to the empty chain, otherwise
      the table of the layer found. */
  function LookupTable(s: StorageImpl, matches: Table -> bool): (r: Option<Table>)
    ensures var ts := Tables(s);
            var i := Mpl.Finds(ts, matches, Mpl.Identity);
            r == if i < |ts| then Some(ts[i]) else None
    ensures r.None? <==> forall j :: 0 <= j < |Tables(s)| ==> !matches(Tables(s)[j])
  {
    match FindImpl(s, matches)
    case Tail => None
    case Link(t, _) => Some(t)
  }

  /** lookup_table_name: the empty string when nothing is found, otherwise the
      name of the table found. */
  function LookupTableName(s: StorageImpl, matches: Table -> bool): (r: string)
    ensures var ts := Tables(s);
            var i := Mpl.Finds(ts, matches, Mpl.Identity);
            r == if i < |ts| then ts[i].name else ""
  {
    match FindImpl(s, matches)
    case Tail => ""
    case Link(t, _) => t.name
  }

  // ---------------------------------------------------------------------------
  // Columns of a table by position
  // ---------------------------------------------------------------------------

  /** filter_tuple_sequence_t<elements, is_column>: the positions of the column
      elements, in order. */
  function ColumnIndices(elements: seq<Element>): (r: seq<nat>)
    ensures |r| <= |elements|
  {
    if |elements| == 0 then []
    else
      var n := |elements| - 1;
      if elements[n].ColumnElement? then ColumnIndices(elements[..n]) + [n]
      else ColumnIndices(elements[..n])
  }

  /** The column positions are exactly the positions of the column elements,
      strictly increasing. */
  lemma {:induction false} ColumnIndicesExact(elements: seq<Element>)
    ensures forall k :: 0 <= k < |ColumnIndices(elements)| ==>
              ColumnIndices(elements)[k] < |elements| && elements[ColumnIndices(elements)[k]].ColumnElement?
    ensures forall k, l :: 0 <= k < l < |ColumnIndices(elements)| ==>
              ColumnIndices(elements)[k] < ColumnIndices(elements)[l]
    ensures forall i :: 0 <= i < |elements| && elements[i].ColumnElement? ==> i in ColumnIndices(elements)
  {
    if |elements| > 0 {
      var n := |elements| - 1;
      ColumnIndicesExact(elements[..n]);
      assert forall i :: 0 <= i < n ==> elements[..n][i] == elements[i];
      var init := ColumnIndices(elements[..n]);
      if elements[n].ColumnElement? {
        assert ColumnIndices(elements) == init + [n];
      } else {
        assert ColumnIndices(elements) == init;
      }
    }
  }

  /** The columns of a table, in declaration order, with every other element left out. */
  function ColumnsOf(elements: seq<Element>): seq<Columns.Column> {
    if |elements| == 0 then []
    else
      var n := |elements| - 1;
      if elements[n].ColumnElement? then ColumnsOf(elements[..n]) + [elements[n].column]
      else ColumnsOf(elements[..n])
  }

  /** The k-th column position selects the k-th column. */
  lemma {:induction false} ColumnIndicesSelectColumns(elements: seq<Element>)
    ensures |ColumnIndices(elements)| == |ColumnsOf(elements)|
    ensures forall k :: 0 <= k < |ColumnsOf(elements)| ==>
              && ColumnIndices(elements)[k] < |elements|
              && elements[ColumnIndices(elements)[k]] == ColumnElement(ColumnsOf(elements)[k])
  {
    if |elements| > 0 {
      var n := |elements| - 1;
      ColumnIndicesSelectColumns(elements[..n]);
      assert forall i :: 0 <= i < n ==> elements[..n][i] == elements[i];
    }
  }

  /** The name of the I-th column of a table, counting columns only, through the
      column positions; None when the table has fewer columns. */
  function ColumnNameAt(t: Table, index: nat): (r: Option<string>)
    ensures r.Some? <==> index < |ColumnsOf(t.elements)|
    ensures r.Some? ==> r.value == ColumnsOf(t.elements)[index].name
  {
    var idxs := ColumnIndices(t.elements);
    ColumnIndicesSelectColumns(t.elements);
    if index < |idxs| then Some(t.elements[idxs[index]].column.name) else None
  }

  /** What index_sequence_value yields for a position past the end of the
      sequence: no value (the program does not compile), or the sequence's last
      value. */
  datatype PastEnd = NoValue | LastValue

  /** index_sequence_value(I, column_idxs{}): the element position ColIdx of the
      I-th column; past the last column, as `pastEnd` says. */
  function ColumnPosition(t: Table, index: nat, pastEnd: PastEnd): (r: Option<nat>)
    ensures index < |ColumnIndices(t.elements)| ==> r == Some(ColumnIndices(t.elements)[index])
    ensures index >= |ColumnIndices(t.elements)| ==>
              r == if pastEnd == LastValue && |ColumnIndices(t.elements)| > 0
                   then Some(ColumnIndices(t.elements)[|ColumnIndices(t.elements)| - 1]) else None
    ensures r.Some? ==> r.value < |t.elements| && t.elements[r.value].ColumnElement?
  {
    var idxs := ColumnIndices(t.elements);
    ColumnIndicesExact(t.elements);
    if index < |idxs| then Some(idxs[index])
    else if pastEnd == LastValue && |idxs| > 0 then Some(idxs[|idxs| - 1])
    else None
  }

  /** The same selection guarded as the source guards it: the static assertion
      compares the element position ColIdx, not the column index I, with the
      number of columns. */
  function ColumnNameAtAsWritten(t: Table, index: nat, pastEnd: PastEnd): (r: Option<string>)
    ensures r.Some? <==> && ColumnPosition(t, index, pastEnd).Some?
                         && ColumnPosition(t, index, pastEnd).value < |ColumnIndices(t.elements)|
    ensures r.Some? ==> && ColumnPosition(t, index, pastEnd).value < |t.elements|
                        && r.value == t.elements[ColumnPosition(t, index, pastEnd).value].column.name
    ensures r.Some? && index < |ColumnsOf(t.elements)| ==> r.value == ColumnsOf(t.elements)[index].name
  {
    var p := ColumnPosition(t, index, pastEnd);
    ColumnIndicesSelectColumns(t.elements);
    if p.Some? && p.value < |ColumnIndices(t.elements)| then Some(t.elements[p.value].column.name) else None
  }

  /** find_column_name by index constant I, with the intended range check: the
      name of the I-th column of the table picked by the lookup, and None when no
      table is found or the table has no I-th column. The static assertion as
      written checks ColIdx instead of I (see ColumnNameAtAsWritten), so the
      program rejects some indices this function answers. */
  function FindColumnName(s: StorageImpl, matches: Table -> bool, index: nat): (r: Option<string>)
    ensures match LookupTable(s, matches)
            case None => r.None?
            case Some(t) =>
              && (r.Some? <==> index < |ColumnsOf(t.elements)|)
              && (r.Some? ==> r.value == ColumnsOf(t.elements)[index].name)
  {
    match LookupTable(s, matches)
    case None => None
    case Some(t) => ColumnNameAt(t, index)
  }

  /** A table whose second column follows a table constraint: the static assertion
      as written rejects index 1 although the table has a second column. */
  lemma AsWrittenRejectsSecondColumn(pastEnd: PastEnd)
    ensures var a := Columns.MakeColumn("id", Columns.MemberPointer("User", "id", Columns.FieldType("int", false)), []);
            var b := Columns.MakeColumn("name", Columns.MemberPointer("User", "name", Columns.FieldType("std::string", false)), []);
            var t := Table("users", "User", None, [ColumnElement(a), TableConstraint("primary_key_t"), ColumnElement(b)]);
            ColumnNameAtAsWritten(t, 1, pastEnd) == None && ColumnNameAt(t, 1) == Some("name")
  {
    var a := Columns.MakeColumn("id", Columns.MemberPointer("User", "id", Columns.FieldType("int", false)), []);
    var b := Columns.MakeColumn("name", Columns.MemberPointer("User", "name", Columns.FieldType("std::string", false)), []);
    var e := [ColumnElement(a), TableConstraint("primary_key_t"), ColumnElement(b)];
    var e1, e2 := e[..1], e[..2];
    assert e1[..0] == [];
    assert e2[..1] == e1;
    assert ColumnIndices(e1) == [0];
    assert ColumnIndices(e2) == [0];
    assert ColumnIndices(e) == [0, 2];
    assert ColumnsOf(e1) == [a];
    assert ColumnsOf(e2) == [a];
    assert ColumnsOf(e) == [a, b];
  }

  /** Where the columns come before every other element, the two agree. */
  lemma {:induction false} ColumnsLeadIndices(elements: seq<Element>)
    requires forall j, k :: 0 <= j < k < |elements| && elements[k].ColumnElement? ==> elements[j].ColumnElement?
    ensures forall k :: 0 <= k < |ColumnIndices(elements)| ==> ColumnIndices(elements)[k] == k
  {
    if |elements| > 0 {
      var n := |elements| - 1;
      assert forall i :: 0 <= i < n ==> elements[..n][i] == elements[i];
      ColumnsLeadIndices(elements[..n]);
      ColumnIndicesExact(elements[..n]);
      var init := ColumnIndices(elements[..n]);
      if elements[n].ColumnElement? {
        assert ColumnIndices(elements) == init + [n];
      }
    }
  }

  /** Where the columns come before every other element, the two agree on every
      index that names a column, and on every index if a position past the end
      does not compile. */
  lemma AsWrittenAgreesWhenColumnsLead(t: Table, index: nat, pastEnd: PastEnd)
    requires forall j, k :: 0 <= j < k < |t.elements| && t.elements[k].ColumnElement? ==> t.elements[j].ColumnElement?
    requires pastEnd == NoValue || index < |ColumnsOf(t.elements)|
    ensures ColumnNameAtAsWritten(t, index, pastEnd) == ColumnNameAt(t, index)
  {
    ColumnsLeadIndices(t.elements);
    ColumnIndicesSelectColumns(t.elements);
  }

  /** If a position past the end yields the last value, a table of columns only
      lets I equal to the number of columns through, and the name returned is
      that of the last column. */
  lemma AsWrittenAcceptsPastEnd()
    ensures var a := Columns.MakeColumn("id", Columns.MemberPointer("User", "id", Columns.FieldType("int", false)), []);
            var b := Columns.MakeColumn("name", Columns.MemberPointer("User", "name", Columns.FieldType("std::string", false)), []);
            var t := Table("cte", "cte_label", None, [ColumnElement(a), ColumnElement(b)]);
            ColumnNameAtAsWritten(t, 2, LastValue) == Some("name") && ColumnNameAt(t, 2) == None
  {
  }
}
