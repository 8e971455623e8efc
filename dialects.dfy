/**
 * Dialect dispatch of the database utilities (utils.py): the dialect-specific text
 * type, the current-UTC-timestamp default expression and the CREATE/DROP VIEW DDL.
 *
 * A dialect is named by its string, as the persistence library names it
 * (`"postgresql"`, `"mssql"`, ...). A compile rule registered without a dialect is
 * stored under the key `"default"`; compiling an element looks up the dialect's own
 * rule first, then the default rule, and fails when there is neither.
 */
module Dialects {
  import opened Common

  const PostgreSQL: string := "postgresql"
  const MSSQL: string := "mssql"
  const MySQL: string := "mysql"
  const Oracle: string := "oracle"
  const SQLite: string := "sqlite"
  /** The key under which a rule registered for no particular dialect is stored. */
  const DefaultRule: string := "default"

  /** Column types, as tags. `length == None` is an unbounded string type. */
  datatype SqlType =
    | String(length: Option<nat>)
    | Text
    | NVarChar(length: Option<nat>)

  /** A column type, possibly with per-dialect variants (`TypeEngine.with_variant`). */
  datatype TypeSpec =
    | Plain(t: SqlType)
    | Variant(impl: SqlType, mapping: map<string, SqlType>)

  /** `spec.with_variant(variant, dialect)`; `None` where the library raises because
      `dialect` already has a variant. */
  function WithVariant(spec: TypeSpec, variant: SqlType, dialect: string): Option<TypeSpec> {
    match spec
    case Plain(t) => Some(Variant(t, map[dialect := variant]))
    case Variant(impl, mapping) =>
      if dialect in mapping then None else Some(Variant(impl, mapping[dialect := variant]))
  }

  /** The concrete type a dialect uses for `spec`. */
  function TypeFor(spec: TypeSpec, dialect: string): SqlType {
    match spec
    case Plain(t) => t
    case Variant(impl, mapping) => if dialect in mapping then mapping[dialect] else impl
  }

  /** `DialectSpecificText()`: `String()` with variants for PostgreSQL, MSSQL and MySQL. */
  function DialectSpecificText(): Option<TypeSpec> {
    ThenWithVariant(
      ThenWithVariant(WithVariant(Plain(String(None)), Text, PostgreSQL), NVarChar(None), MSSQL),
      NVarChar(None), MySQL)
  }

  /** The next `.with_variant(...)` of a chain, unless an earlier call has raised. */
  function ThenWithVariant(spec: Option<TypeSpec>, variant: SqlType, dialect: string): Option<TypeSpec> {
    match spec
    case None => None
    case Some(s) => WithVariant(s, variant, dialect)
  }

  /** Adding a variant fixes the type for its dialect and no other; it fails exactly
      when the dialect already has one. */
  lemma WithVariantResolves(spec: TypeSpec, variant: SqlType, dialect: string, other: string)
    ensures WithVariant(spec, variant, dialect).None? <==> spec.Variant? && dialect in spec.mapping
    ensures WithVariant(spec, variant, dialect).Some? ==>
      && TypeFor(WithVariant(spec, variant, dialect).value, dialect) == variant
      && (other != dialect ==> TypeFor(WithVariant(spec, variant, dialect).value, other) == TypeFor(spec, other))
  {
  }

  /** The text type per dialect: PostgreSQL gets `Text`, MSSQL and MySQL get an unbounded
      `NVARCHAR`, every other dialect an unbounded `String`. */
  lemma DialectSpecificTextPerDialect(dialect: string)
    ensures DialectSpecificText().Some?
    ensures TypeFor(DialectSpecificText().value, dialect)
         == if dialect == PostgreSQL then Text
            else if dialect == MSSQL || dialect == MySQL then NVarChar(None)
            else String(None)
  {
    var a := Plain(String(None));
    WithVariantResolves(a, Text, PostgreSQL, dialect);
    var b := WithVariant(a, Text, PostgreSQL).value;
    WithVariantResolves(b, NVarChar(None), MSSQL, dialect);
    var c := WithVariant(b, NVarChar(None), MSSQL).value;
    WithVariantResolves(c, NVarChar(None), MySQL, dialect);
  }

  // ---------------------------------------------------------------------------
  // Compile-rule dispatch

  /** The rule the library's compiler uses for `dialect`: its own, else the default. */
  function Dispatch<R>(rules: map<string, R>, dialect: string): Option<R> {
    if dialect in rules then Some(rules[dialect])
    else if DefaultRule in rules then Some(rules[DefaultRule])
    else None
  }

  /** The five `@compiles(TimestampDefaultExpression, ...)` rules; there is no default rule. */
  const TimestampRules: map<string, string> := map[
    MSSQL := "GETUTCDATE()",
    MySQL := "UTC_TIMESTAMP()",
    Oracle := "SYS_EXTRACT_UTC(SYSTIMESTAMP)",
    PostgreSQL := "(NOW() AT TIME ZONE 'UTC')",
    SQLite := "CURRENT_TIMESTAMP"
  ]

  /** `TimestampDefaultExpression` compiled for `dialect`; `None` where compiling fails. */
  function TimestampDefault(dialect: string): Option<string> {
    Dispatch(TimestampRules, dialect)
  }

  predicate HasTimestampRule(dialect: string) {
    dialect == MSSQL || dialect == MySQL || dialect == Oracle || dialect == PostgreSQL || dialect == SQLite
  }

  /** Each of the five dialects renders its own current-UTC-timestamp expression. */
  lemma TimestampDefaultPerDialect()
    ensures TimestampDefault(MSSQL) == Some("GETUTCDATE()")
    ensures TimestampDefault(MySQL) == Some("UTC_TIMESTAMP()")
    ensures TimestampDefault(Oracle) == Some("SYS_EXTRACT_UTC(SYSTIMESTAMP)")
    ensures TimestampDefault(PostgreSQL) == Some("(NOW() AT TIME ZONE 'UTC')")
    ensures TimestampDefault(SQLite) == Some("CURRENT_TIMESTAMP")
  {
  }

  /** Only those five dialects have a rendering: there is no fallback rule. */
  lemma TimestampDefaultIsPartial(dialect: string)
    ensures TimestampDefault(dialect).Some? <==> HasTimestampRule(dialect)
  {
  }

  // ---------------------------------------------------------------------------
  // View DDL

  datatype ViewKind = View | MaterializedView

  /** `Create[Materialized]ViewExpression(name, selectable)` and
      `Drop[Materialized]ViewExpression(name)`. The selectable is given as the text the
      library compiles it to, with its parameters inlined as literals. */
  datatype DdlElement =
    | CreateViewExpression(kind: ViewKind, name: string, selectable: string)
    | DropViewExpression(kind: ViewKind, name: string)

  /** The text shapes of the six `@compiles` DDL functions: the statement's fixed head,
      followed by the view name (and, for a CREATE, the query). */
  datatype DdlTemplate = CreateText(head: string) | DropText(head: string)

  const CreateView: string := "CREATE OR REPLACE VIEW "
  const CreateMaterializedView: string := "CREATE OR REPLACE MATERIALIZED VIEW "
  const DropView: string := "DROP VIEW IF EXISTS "
  const DropMaterializedView: string := "DROP MATERIALIZED VIEW IF EXISTS "

  function Render(template: DdlTemplate, name: string, query: string): string {
    match template
    case CreateText(head) => head + (name + " AS " + query)
    case DropText(head) => head + name
  }

  /** The compile rules registered for each element class. The materialized classes
      register their own default rule, which renders the plain-view text. */
  function DdlRules(e: DdlElement): map<string, DdlTemplate> {
    match e
    case CreateViewExpression(View, _, _) =>
      map[DefaultRule := CreateText(CreateView)]
    case CreateViewExpression(MaterializedView, _, _) =>
      map[DefaultRule := CreateText(CreateView), PostgreSQL := CreateText(CreateMaterializedView)]
    case DropViewExpression(View, _) =>
      map[DefaultRule := DropText(DropView)]
    case DropViewExpression(MaterializedView, _) =>
      map[DefaultRule := DropText(DropView), PostgreSQL := DropText(DropMaterializedView)]
  }

  /** The DDL text `e` compiles to for `dialect`. */
  function CompileDdl(e: DdlElement, dialect: string): Option<string> {
    var template :- Dispatch(DdlRules(e), dialect);
    Some(Render(template, e.name, if e.CreateViewExpression? then e.selectable else ""))
  }

  /** A plain view compiles to the same CREATE OR REPLACE VIEW text for every dialect. */
  lemma PlainViewForEveryDialect(name: string, query: string, dialect: string)
    ensures CompileDdl(CreateViewExpression(View, name, query), dialect)
         == Some(CreateView + (name + " AS " + query))
  {
  }

  /** A materialized view is only materialized on PostgreSQL; every other dialect gets
      exactly the plain-view text. */
  lemma MaterializedViewOnlyOnPostgres(name: string, query: string, dialect: string)
    ensures CompileDdl(CreateViewExpression(MaterializedView, name, query), dialect)
         == if dialect == PostgreSQL
            then Some(CreateMaterializedView + (name + " AS " + query))
            else CompileDdl(CreateViewExpression(View, name, query), dialect)
  {
  }

  /** DROP MATERIALIZED VIEW only for a materialized view on PostgreSQL, DROP VIEW otherwise. */
  lemma DropViewText(kind: ViewKind, name: string, dialect: string)
    ensures CompileDdl(DropViewExpression(kind, name), dialect)
         == if kind == MaterializedView && dialect == PostgreSQL
            then Some(DropMaterializedView + name)
            else Some(DropView + name)
  {
  }

  /** The statement creates or drops a materialized view. */
  predicate IsMaterializedDdl(text: string) {
    || CreateMaterializedView <= text
    || DropMaterializedView <= text
  }

  lemma PrefixOfConcat(p: string, rest: string)
    ensures p <= p + rest
  {
    assert (p + rest)[..|p|] == p;
  }

  lemma NotPrefixAt(p: string, t: string, i: nat)
    requires i < |p| && i < |t| && p[i] != t[i]
    ensures !(p <= t)
  {
  }

  /** Given the query's compiled text, a view's CREATE statement exists, and it is
      materialized exactly when that was asked for and the dialect is PostgreSQL. */
  lemma CreateIsMaterialized(kind: ViewKind, name: string, query: string, dialect: string)
    ensures CompileDdl(CreateViewExpression(kind, name, query), dialect).Some?
    ensures IsMaterializedDdl(CompileDdl(CreateViewExpression(kind, name, query), dialect).value)
        <==> kind == MaterializedView && dialect == PostgreSQL
  {
    var create := CompileDdl(CreateViewExpression(kind, name, query), dialect).value;
    if kind == MaterializedView && dialect == PostgreSQL {
      PrefixOfConcat(CreateMaterializedView, name + " AS " + query);
    } else {
      assert create == CreateView + (name + " AS " + query);
      assert create[18] == CreateView[18] && create[0] == CreateView[0];
      NotPrefixAt(CreateMaterializedView, create, 18);
      NotPrefixAt(DropMaterializedView, create, 0);
    }
  }

  /** A view's DROP statement is materialized exactly when that was asked for and the
      dialect is PostgreSQL. */
  lemma DropIsMaterialized(kind: ViewKind, name: string, dialect: string)
    ensures CompileDdl(DropViewExpression(kind, name), dialect).Some?
    ensures IsMaterializedDdl(CompileDdl(DropViewExpression(kind, name), dialect).value)
        <==> kind == MaterializedView && dialect == PostgreSQL
  {
    var drop := CompileDdl(DropViewExpression(kind, name), dialect).value;
    if kind == MaterializedView && dialect == PostgreSQL {
      PrefixOfConcat(DropMaterializedView, name);
    } else {
      assert drop == DropView + name;
      assert drop[5] == DropView[5] && drop[0] == DropView[0];
      NotPrefixAt(DropMaterializedView, drop, 5);
      NotPrefixAt(CreateMaterializedView, drop, 0);
    }
  }

  /** A view name the DDL can carry unquoted: no blank in it. */
  predicate IsBareName(name: string) {
    forall i :: 0 <= i < |name| ==> name[i] != ' '
  }

  lemma NameThenQueryInjective(n1: string, q1: string, n2: string, q2: string)
    requires IsBareName(n1) && IsBareName(n2)
    requires n1 + " AS " + q1 == n2 + " AS " + q2
    ensures n1 == n2 && q1 == q2
  {
    var t := n1 + " AS " + q1;
    assert t[|n1|] == ' ';
    assert (n2 + " AS " + q2)[|n2|] == ' ';
    assert |n1| == |n2|;
    assert n1 == t[..|n1|] == n2;
    assert q1 == t[|n1| + 4..] == q2;
  }

  /** For bare view names, the CREATE text a view compiles to determines the view's
      name, its query, and whether it was made materialized. */
  lemma CreateDdlDeterminesView(k1: ViewKind, n1: string, q1: string, d1: string,
                                k2: ViewKind, n2: string, q2: string, d2: string)
    requires IsBareName(n1) && IsBareName(n2)
    requires CompileDdl(CreateViewExpression(k1, n1, q1), d1) == CompileDdl(CreateViewExpression(k2, n2, q2), d2)
    ensures n1 == n2 && q1 == q2
    ensures (k1 == MaterializedView && d1 == PostgreSQL) == (k2 == MaterializedView && d2 == PostgreSQL)
  {
    var m1 := k1 == MaterializedView && d1 == PostgreSQL;
    var m2 := k2 == MaterializedView && d2 == PostgreSQL;
    var h1 := if m1 then CreateMaterializedView else CreateView;
    var h2 := if m2 then CreateMaterializedView else CreateView;
    var t := h1 + (n1 + " AS " + q1);
    assert CompileDdl(CreateViewExpression(k1, n1, q1), d1) == Some(t);
    assert t == h2 + (n2 + " AS " + q2);
    assert t[18] == h1[18] == h2[18];
    assert h1 == h2;
    assert t[|h1|..] == n1 + " AS " + q1;
    assert t[|h2|..] == n2 + " AS " + q2;
    NameThenQueryInjective(n1, q1, n2, q2);
  }
}
