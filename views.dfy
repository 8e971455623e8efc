/**
 * `create_view` (utils.py): a table shaped like a query's result, bound to a
 * metadata object of its own, and the pair of DDL hooks that create the view after
 * the given metadata's tables are created and drop it before they are dropped.
 *
 * `MetaData` and `Table` are the persistence library's objects, reduced to what
 * `create_view` touches: a metadata object's table registry and its event listeners,
 * a table's name, metadata and column list.
 */
module Views {
  import opened Common
  import opened Dialects

  /** A column: its name (which is also its key), type and flags. */
  datatype Column = Column(name: string, typ: SqlType, primaryKey: bool, nullable: bool)

  /** `Column(name, typ, primary_key=primaryKey)`: a new column is nullable unless it
      is part of the primary key. */
  function NewColumn(name: string, typ: SqlType, primaryKey: bool): Column {
    Column(name, typ, primaryKey, !primaryKey)
  }

  /** The column `create_view` builds for a column of the query. */
  function CopyColumn(c: Column): Column {
    NewColumn(c.name, c.typ, c.primaryKey)
  }

  /** The columns `create_view` builds for each of `cols`, in order. */
  function Copies(cols: seq<Column>): seq<Column> {
    seq(|cols|, i requires 0 <= i < |cols| => CopyColumn(cols[i]))
  }

  /** A query: its result columns (`selectable.c`) and the SQL it compiles to. */
  datatype Selectable = Selectable(columns: seq<Column>, query: string)

  datatype Event = AfterCreate | BeforeDrop

  /** A DDL element registered with `listen(metadata, event, element)`. */
  datatype Listener = Listener(event: Event, ddl: DdlElement)

  function Names(cols: seq<Column>): seq<string> {
    seq(|cols|, i requires 0 <= i < |cols| => cols[i].name)
  }

  predicate DistinctNames(cols: seq<Column>) {
    forall i, j :: 0 <= i < j < |cols| ==> cols[i].name != cols[j].name
  }

  /** `table.append_column(c)`: a column with the same key is replaced where it stands,
      otherwise `c` goes at the end. */
  function WithColumn(cols: seq<Column>, c: Column): seq<Column>
    decreases |cols|
  {
    if cols == [] then [c]
    else if cols[0].name == c.name then [c] + cols[1..]
    else [cols[0]] + WithColumn(cols[1..], c)
  }

  /** Whether `table.append_column(c)` raises on a table with columns `cols`: a column
      outside the primary key may not take the name of a primary-key column already in
      the table (`ArgumentError` from SQLAlchemy 1.3's `Column._set_parent`). */
  predicate RedefinesKey(cols: seq<Column>, c: Column) {
    !c.primaryKey && exists i :: 0 <= i < |cols| && cols[i].name == c.name && cols[i].primaryKey
  }

  /** `table.append_column(c)` on a table with columns `cols`; `None` where it raises. */
  function Appended(cols: seq<Column>, c: Column): Option<seq<Column>> {
    if RedefinesKey(cols, c) then None else Some(WithColumn(cols, c))
  }

  /** The columns of the table `create_view` builds from the query's columns `cols`;
      `None` where one of its `append_column` calls raises. */
  function ViewColumns(cols: seq<Column>): Option<seq<Column>>
    decreases |cols|
  {
    if cols == [] then Some([])
    else
      match ViewColumns(cols[..|cols| - 1])
      case None => None
      case Some(t) => Appended(t, CopyColumn(cols[|cols| - 1]))
  }

  /** Some query column outside the primary key follows a primary-key column of the
      same name. */
  predicate KeyRedefined(cols: seq<Column>) {
    exists i, j :: 0 <= i < j < |cols| && cols[i].name == cols[j].name && cols[i].primaryKey && !cols[j].primaryKey
  }

  class MetaData {
    var tables: map<string, Table>
    var listeners: seq<Listener>

    /** `MetaData()` */
    constructor ()
      ensures tables == map[] && listeners == []
    {
      tables := map[];
      listeners := [];
    }

    /** `listen(self, event, ddl)` */
    method Listen(event: Event, ddl: DdlElement)
      modifies this`listeners
      ensures listeners == old(listeners) + [Listener(event, ddl)]
    {
      listeners := listeners + [Listener(event, ddl)];
    }

    /** `Table(name, self)`: the table of that name already in this metadata, or a new
        empty one registered under `name`. */
    method NewTable(name: string) returns (t: Table)
      modifies this`tables
      ensures name in old(tables) ==> t == old(tables)[name] && tables == old(tables)
      ensures name !in old(tables) ==>
        && fresh(t) && t.name == name && t.metadata == this && t.columns == []
        && tables == old(tables)[name := t]
    {
      if name in tables {
        t := tables[name];
      } else {
        t := new Table(name, this);
        tables := tables[name := t];
      }
    }
  }

  class Table {
    const name: string
    const metadata: MetaData
    var columns: seq<Column>

    constructor (name: string, metadata: MetaData)
      ensures this.name == name && this.metadata == metadata && columns == []
    {
      this.name := name;
      this.metadata := metadata;
      columns := [];
    }

    /** `append_column(c)`; `ok` is false where the library raises, and the columns
        are then left as they were. */
    method AppendColumn(c: Column) returns (ok: bool)
      modifies this`columns
      ensures ok <==> Appended(old(columns), c).Some?
      ensures columns == if ok then Appended(old(columns), c).value else old(columns)
    {
      ok := !RedefinesKey(columns, c);
      if ok {
        columns := WithColumn(columns, c);
      }
    }
  }

  function KindOf(materialized: bool): ViewKind {
    if materialized then MaterializedView else View
  }

  /** The hooks `create_view` registers, in order. */
  function ViewListeners(name: string, query: string, materialized: bool): seq<Listener> {
    [ Listener(AfterCreate, CreateViewExpression(KindOf(materialized), name, query)),
      Listener(BeforeDrop, DropViewExpression(KindOf(materialized), name)) ]
  }

  /** `create_view(name, selectable, metadata, materialized)`; `None` where building
      the table raises, in which case no hook is registered. */
  method CreateView(name: string, selectable: Selectable, metadata: MetaData, materialized: bool)
    returns (r: Option<Table>)
    modifies metadata`listeners
    ensures ViewColumns(selectable.columns).None? ==> r.None? && metadata.listeners == old(metadata.listeners)
    ensures ViewColumns(selectable.columns).Some? ==>
      && r.Some? && fresh(r.value) && fresh(r.value.metadata) && r.value.metadata != metadata
      && r.value.name == name && r.value.metadata.tables == map[name := r.value]
      && r.value.columns == ViewColumns(selectable.columns).value
      && metadata.listeners == old(metadata.listeners) + ViewListeners(name, selectable.query, materialized)
  {
    var tmp := new MetaData();
    var tbl := tmp.NewTable(name);
    var i := 0;
    while i < |selectable.columns|
      invariant 0 <= i <= |selectable.columns|
      invariant fresh(tbl) && fresh(tmp) && tbl.metadata == tmp && tbl.name == name
      invariant tmp.tables == map[name := tbl]
      invariant ViewColumns(selectable.columns[..i]) == Some(tbl.columns)
      invariant metadata.listeners == old(metadata.listeners)
    {
      var column := selectable.columns[i];
      assert selectable.columns[..i + 1][..i] == selectable.columns[..i];
      var ok := tbl.AppendColumn(NewColumn(column.name, column.typ, column.primaryKey));
      if !ok {
        ViewColumnsFailureSticks(selectable.columns, i + 1);
        return None;
      }
      i := i + 1;
    }
    assert selectable.columns[..i] == selectable.columns;
    metadata.Listen(AfterCreate, CreateViewExpression(KindOf(materialized), name, selectable.query));
    metadata.Listen(BeforeDrop, DropViewExpression(KindOf(materialized), name));
    return Some(tbl);
  }

  // ---------------------------------------------------------------------------
  // Properties of the column list

  /** Replacing a column keeps the names where they are; a column with a new name is
      appended and nothing else changes. */
  lemma {:induction false} WithColumnNames(cols: seq<Column>, c: Column)
    ensures c.name in Names(cols) ==> Names(WithColumn(cols, c)) == Names(cols)
    ensures c.name !in Names(cols) ==> WithColumn(cols, c) == cols + [c]
    decreases |cols|
  {
    if cols != [] {
      WithColumnNames(cols[1..], c);
      assert Names(cols) == [cols[0].name] + Names(cols[1..]);
      if cols[0].name != c.name {
        assert Names(WithColumn(cols, c)) == [cols[0].name] + Names(WithColumn(cols[1..], c));
      }
    }
  }

  /** A column whose name is already taken replaces the first column of that name, in
      that column's place. */
  lemma {:induction false} WithColumnReplaces(cols: seq<Column>, c: Column, i: nat)
    requires i < |cols| && cols[i].name == c.name
    requires forall j :: 0 <= j < i ==> cols[j].name != c.name
    ensures WithColumn(cols, c) == cols[i := c]
    decreases i
  {
    if i > 0 {
      WithColumnReplaces(cols[1..], c, i - 1);
      assert [cols[0]] + cols[1..][i - 1 := c] == cols[i := c];
    }
  }

  /** Once an `append_column` call has raised, no longer query gets a table. */
  lemma {:induction false} ViewColumnsFailureSticks(cols: seq<Column>, k: nat)
    requires k <= |cols| && ViewColumns(cols[..k]).None?
    ensures ViewColumns(cols).None?
    decreases |cols| - k
  {
    if k < |cols| {
      assert cols[..k + 1][..k] == cols[..k];
      ViewColumnsFailureSticks(cols, k + 1);
    } else {
      assert cols[..k] == cols;
    }
  }

  /** With distinct names in the query, no `append_column` call raises and the table's
      columns are the copies of the query's columns. */
  lemma {:induction false} ViewColumnsDistinct(cols: seq<Column>)
    requires DistinctNames(cols)
    ensures ViewColumns(cols) == Some(Copies(cols))
    decreases |cols|
  {
    if cols != [] {
      var init := cols[..|cols| - 1];
      ViewColumnsDistinct(init);
      var t := ViewColumns(init).value;
      var c := CopyColumn(cols[|cols| - 1]);
      assert Names(t) == Names(init);
      assert c.name !in Names(init);
      WithColumnNames(t, c);
      assert ViewColumns(cols) == Some(t + [c]);
      assert t + [c] == Copies(cols);
    }
  }

  /** The table a view builds has the query's columns exactly, in order, each with the
      name, type and primary-key flag copied (and nullable unless a key column). */
  lemma ViewTableColumns(cols: seq<Column>)
    requires DistinctNames(cols)
    ensures ViewColumns(cols).Some? && |ViewColumns(cols).value| == |cols|
    ensures forall i :: 0 <= i < |cols| ==>
      && ViewColumns(cols).value[i].name == cols[i].name
      && ViewColumns(cols).value[i].typ == cols[i].typ
      && ViewColumns(cols).value[i].primaryKey == cols[i].primaryKey
      && ViewColumns(cols).value[i].nullable == !cols[i].primaryKey
  {
    ViewColumnsDistinct(cols);
  }

  /** The view registers one create hook after creation and one drop hook before
      dropping, both for the view's name. Given the query's compiled text, both compile
      for every dialect and agree on whether the view is materialized, which it is
      exactly when asked for on PostgreSQL. */
  lemma ViewHooksAgree(name: string, query: string, materialized: bool, dialect: string)
    ensures var hooks := ViewListeners(name, query, materialized);
      && |hooks| == 2
      && hooks[0].event == AfterCreate && hooks[0].ddl.CreateViewExpression?
      && hooks[1].event == BeforeDrop && hooks[1].ddl.DropViewExpression?
      && hooks[0].ddl.name == name && hooks[1].ddl.name == name
      && CompileDdl(hooks[0].ddl, dialect).Some? && CompileDdl(hooks[1].ddl, dialect).Some?
      && (IsMaterializedDdl(CompileDdl(hooks[0].ddl, dialect).value) <==> materialized && dialect == PostgreSQL)
      && (IsMaterializedDdl(CompileDdl(hooks[1].ddl, dialect).value) <==> materialized && dialect == PostgreSQL)
  {
    CreateIsMaterialized(KindOf(materialized), name, query, dialect);
    DropIsMaterialized(KindOf(materialized), name, dialect);
  }

  lemma {:induction false} WithColumnKeepsDistinct(cols: seq<Column>, c: Column)
    requires DistinctNames(cols)
    ensures DistinctNames(WithColumn(cols, c))
    ensures c.name in Names(WithColumn(cols, c))
    ensures forall n :: n in Names(cols) ==> n in Names(WithColumn(cols, c))
    decreases |cols|
  {
    WithColumnNames(cols, c);
    if c.name !in Names(cols) {
      var r := cols + [c];
      assert Names(r) == Names(cols) + [c.name];
      forall i, j | 0 <= i < j < |r|
        ensures r[i].name != r[j].name
      {
        if j == |cols| {
          assert r[i].name == Names(cols)[i];
        }
      }
    } else {
      var r := WithColumn(cols, c);
      forall i, j | 0 <= i < j < |r|
        ensures r[i].name != r[j].name
      {
        assert r[i].name == Names(r)[i] == Names(cols)[i];
        assert r[j].name == Names(r)[j] == Names(cols)[j];
      }
    }
  }


  /** A name of the columns after `append_column(c)` is `c`'s or was there before. */
  lemma NamesOfWithColumn(t: seq<Column>, c: Column, n: string)
    requires n in Names(WithColumn(t, c))
    ensures n == c.name || n in Names(t)
  {
    WithColumnNames(t, c);
    if c.name !in Names(t) {
      assert Names(t + [c]) == Names(t) + [c.name];
    }
  }

  /** A name of a prefix of the query's columns is a name of the query's columns. */
  lemma NameOfPrefix(cols: seq<Column>, k: nat, n: string)
    requires k <= |cols| && n in Names(cols[..k])
    ensures n in Names(cols)
  {
    var i :| 0 <= i < k && Names(cols[..k])[i] == n;
    assert Names(cols)[i] == n;
  }

  /** Whenever the table is built, it has one column per distinct name of the query's
      columns and no column with any other name. */
  lemma {:induction false} ViewColumnsOnePerName(cols: seq<Column>)
    requires ViewColumns(cols).Some?
    ensures DistinctNames(ViewColumns(cols).value)
    ensures forall i :: 0 <= i < |cols| ==> cols[i].name in Names(ViewColumns(cols).value)
    ensures forall n :: n in Names(ViewColumns(cols).value) ==> n in Names(cols)
    decreases |cols|
  {
    if cols != [] {
      var L := |cols| - 1;
      var init := cols[..L];
      var c := CopyColumn(cols[L]);
      ViewColumnsOnePerName(init);
      var t := ViewColumns(init).value;
      var r := ViewColumns(cols).value;
      assert r == WithColumn(t, c);
      WithColumnKeepsDistinct(t, c);
      forall i | 0 <= i < |cols|
        ensures cols[i].name in Names(r)
      {
        if i < L {
          assert cols[i] == init[i];
        }
      }
      forall n | n in Names(r)
        ensures n in Names(cols)
      {
        NamesOfWithColumn(t, c, n);
        if n == c.name {
          assert Names(cols)[L] == n;
        } else {
          NameOfPrefix(cols, L, n);
        }
      }
    }
  }

  /** No query column after the one at `i` has its name. */
  predicate LastOfName(cols: seq<Column>, i: nat)
    requires i < |cols|
  {
    forall j :: i < j < |cols| ==> cols[j].name != cols[i].name
  }

  /** `col` is the copy of the last query column of its name. */
  predicate IsLastCopy(cols: seq<Column>, col: Column) {
    exists i :: 0 <= i < |cols| && col == CopyColumn(cols[i]) && LastOfName(cols, i)
  }

  /** Appending to a table with distinct names keeps every column other than the
      appended one where it was. */
  lemma WithColumnKeepsOthers(t: seq<Column>, c: Column, k: nat)
    requires DistinctNames(t) && k < |WithColumn(t, c)| && WithColumn(t, c)[k] != c
    ensures k < |t| && WithColumn(t, c)[k] == t[k] && t[k].name != c.name
  {
    WithColumnNames(t, c);
    if c.name in Names(t) {
      var m :| 0 <= m < |t| && Names(t)[m] == c.name;
      WithColumnReplaces(t, c, m);
    } else {
      assert Names(t)[k] == t[k].name;
    }
  }

  /** A copy of the last column of its name among `init` stays one after appending a
      column of another name. */
  lemma LastCopyExtends(init: seq<Column>, last: Column, col: Column)
    requires IsLastCopy(init, col) && col.name != last.name
    ensures IsLastCopy(init + [last], col)
  {
    var cols := init + [last];
    var i :| 0 <= i < |init| && col == CopyColumn(init[i]) && LastOfName(init, i);
    assert cols[i] == init[i];
    assert LastOfName(cols, i);
  }

  /** Each column of a built table is the copy of the last query column of its name. */
  lemma {:induction false} ViewColumnsAreLastCopies(cols: seq<Column>)
    requires ViewColumns(cols).Some?
    ensures forall k :: 0 <= k < |ViewColumns(cols).value| ==> IsLastCopy(cols, ViewColumns(cols).value[k])
    decreases |cols|
  {
    if cols != [] {
      var L := |cols| - 1;
      var init := cols[..L];
      var c := CopyColumn(cols[L]);
      assert cols == init + [cols[L]];
      ViewColumnsAreLastCopies(init);
      ViewColumnsOnePerName(init);
      var t := ViewColumns(init).value;
      var r := ViewColumns(cols).value;
      assert r == WithColumn(t, c);
      assert LastOfName(cols, L);
      forall k | 0 <= k < |r|
        ensures IsLastCopy(cols, r[k])
      {
        if r[k] == c {
          assert IsLastCopy(cols, r[k]);
        } else {
          WithColumnKeepsOthers(t, c, k);
          LastCopyExtends(init, cols[L], t[k]);
        }
      }
    }
  }

  /** The step of `ViewColumnsFailsIff` when the query without its last column builds a
      table `t`: appending the last column raises exactly when it redefines a key. */
  lemma FailsIffStep(init: seq<Column>, last: Column)
    requires ViewColumns(init).Some? && !KeyRedefined(init)
    ensures RedefinesKey(ViewColumns(init).value, CopyColumn(last)) <==> KeyRedefined(init + [last])
  {
    var cols := init + [last];
    var L := |init|;
    var t := ViewColumns(init).value;
    var c := CopyColumn(last);
    ViewColumnsAreLastCopies(init);
    ViewColumnsOnePerName(init);
    if RedefinesKey(t, c) {
      var k :| 0 <= k < |t| && t[k].name == c.name && t[k].primaryKey;
      assert IsLastCopy(init, t[k]);
      var i :| 0 <= i < |init| && t[k] == CopyColumn(init[i]) && LastOfName(init, i);
      assert cols[i] == init[i] && cols[L] == last;
    }
    if KeyRedefined(cols) {
      var i, j :| 0 <= i < j < |cols| && cols[i].name == cols[j].name && cols[i].primaryKey && !cols[j].primaryKey;
      if j == L {
        assert init[i] == cols[i] && cols[j] == last;
        var k :| 0 <= k < |t| && Names(t)[k] == init[i].name;
        assert IsLastCopy(init, t[k]);
        var i' :| 0 <= i' < |init| && t[k] == CopyColumn(init[i']) && LastOfName(init, i');
        assert i <= i';
      }
    }
  }

  /** A view's table cannot be built exactly when a query column outside the primary
      key follows a primary-key column of the same name. */
  lemma {:induction false} ViewColumnsFailsIff(cols: seq<Column>)
    ensures ViewColumns(cols).None? <==> KeyRedefined(cols)
    decreases |cols|
  {
    if cols != [] {
      var L := |cols| - 1;
      var init := cols[..L];
      assert cols == init + [cols[L]];
      ViewColumnsFailsIff(init);
      if ViewColumns(init).None? {
        var i, j :| 0 <= i < j < |init| && init[i].name == init[j].name && init[i].primaryKey && !init[j].primaryKey;
        assert cols[i] == init[i] && cols[j] == init[j];
      } else {
        FailsIffStep(init, cols[L]);
      }
    }
  }
}
