# libadfir-db core, modelled in Dafny

libadfir-db is the database layer of the analyzeDFIR tools. It is a thin layer over
SQLAlchemy. This project models its three core pieces and proves what they promise.

- **`DBManager`** (`manager.py`) is the connection manager. It holds a connection
  string, an engine, a metadata object, a session factory, a session and the "scoped
  sessions" flag. It also wraps engine creation, bootstrapping, session handling and
  the add/delete/commit/rollback/query calls.
  - It is modelled as the class `Manager.DBManager`. Its fields are updated in place.
  - Its methods act on the library's state: a `Persistence.World` value held by a
    `Manager.Library` object.
  - Every engine, session and factory is a fresh integer id, and every session keeps
    a log of the operations it received.
  - A `scoped_session` keeps a registry that maps a context (thread) id to that
    context's session. `remove()` closes the current context's session and drops its
    entry.
- **Dialect dispatch and view DDL** (`utils.py`), module `Dialects`:
  - `DialectSpecificText` is `with_variant` chained over a base `String`.
  - The `@compiles` rules are tables keyed by dialect name. Lookup tries the dialect's
    own rule, then the rule registered without a dialect, and otherwise fails (`None`).
    This gives the five UTC-timestamp renderings and the CREATE/DROP [MATERIALIZED]
    VIEW texts.
  - `create_view` is modelled in module `Views`. It builds a `Table` on a fresh
    `MetaData`, appends one column per query column in a loop, and registers the
    `after_create`/`before_drop` hooks on the given `MetaData`. `append_column`
    follows SQLAlchemy 1.3. It raises when a column outside the primary key takes
    the name of a primary-key column already in the table. That error ends
    `create_view` (`None`) before any hook is registered.
- **Key normalisation and field population** (`models.py`):
  - `Keys.ConvertKey` models `__convert_key` as two left-to-right scanners, one for
    each `re.sub`, followed by ASCII `lower()`.
  - `Keys.TableName` is `__tablename__`.
  - `populate_fields` is `Records.TableRecord.PopulateFields`, a loop over the dict's
    items proved against the function `Records.Populate`.

Files:
- `common.dfy` holds `Option` and attribute values.
- `keys.dfy` and `records.dfy` model `models.py`.
- `dialects.dfy` and `views.dfy` model `utils.py`.
- `persistence.dfy` models the library state and `manager.dfy` models `DBManager`.

## Model

| member | source | states |
|---|---|---|
| Keys.TableName | models.py:56-58 | The table name is the class name with every ASCII letter lower-cased. It has the same length and no upper-case letter, and a name without upper-case letters is returned unchanged. |
| Keys.FileLedgerTableName | models.py:117 | The class `FileLedger` gets the table name `fileledger`, which is the name the foreign key `fileledger.id` refers to. |
| Keys.SplitBeforeWordsNoUpper | models.py:36 | The first substitution leaves a string without upper-case letters unchanged, because its pattern needs `[A-Z]`. |
| Keys.SplitAfterLowersNoUpper | models.py:37 | The second substitution leaves a string without upper-case letters unchanged. |
| Keys.ConvertKeyFixesLowercase | models.py:54 | A key without upper-case letters is returned as it is. |
| Keys.ConvertKeyIsLowercase | models.py:54 | The converted key contains no upper-case letter. |
| Keys.ConvertKeyIdempotent | models.py:54 | Converting an already converted key changes nothing. |
| Keys.SplitBeforeWordsInserts | models.py:36 | The first substitution only inserts `_` characters, and none of them before the first character. |
| Keys.SplitAfterLowersInserts | models.py:37 | The second substitution only inserts `_` characters, and none of them before the first character. |
| Keys.ConvertKeyOnlyInsertsUnderscores | models.py:54 | Deleting the inserted underscores from the converted key gives `lower(key)`. No underscore comes before the first character, and the result is never shorter than the key. |
| Keys.ConvertKeyCreatedAt | models.py:54 | Both `CreatedAt` and `createdAt` convert to `created_at`. |
| Keys.ConvertKeyAcronym | models.py:54 | `HTTPResponse` converts to `http_response`. The first pass splits before `Response`, and the second pass finds no lower-case letter before an upper-case one. |
| Records.TableRecord.PopulateFields | models.py:75-80 | The loop leaves the attributes equal to `Populate` of the old attributes over the items in dict order, and the method returns the record itself. |
| Records.PopulateKeepsAttributeNames | models.py:76-78 | No attribute is created or removed: a key whose converted name is not an attribute is skipped. |
| Records.PopulateOverwriteLastWins | models.py:78-79 | With `overwrite`, an attribute takes the value of the last item whose key converts to its name. With no such item it keeps its value. |
| Records.PopulateFillsOnlyNone | models.py:78-79 | Without `overwrite`, a non-`None` attribute keeps its value. A `None` attribute takes the first non-`None` value among the items that name it. |
| Records.PopulateLeavesOthers | models.py:76-80 | An attribute that no converted key names keeps its value, whatever `overwrite` is. |
| Records.CollidingKeys | models.py:76-79 | Take two keys that convert to the same name and a `None` attribute. With `overwrite` the later value wins. Without it, the earlier non-`None` value stays. |
| Dialects.WithVariantResolves | utils.py:47-50 | `with_variant` fails exactly when the dialect already has a variant. Otherwise it fixes the type for that dialect and leaves every other dialect's type as it was. |
| Dialects.DialectSpecificTextPerDialect | utils.py:34-50 | The chain never fails. postgresql gets `Text`, mssql and mysql get `NVARCHAR(None)`, and every other dialect gets `String()`. |
| Dialects.TimestampDefaultPerDialect | utils.py:63-101 | Each of mssql, mysql, oracle, postgresql and sqlite renders its own current-UTC-timestamp expression. |
| Dialects.TimestampDefaultIsPartial | utils.py:53-101 | A timestamp rendering exists exactly for those five dialects. There is no fallback rule. |
| Dialects.PlainViewForEveryDialect | utils.py:113-122 | A plain view compiles to `CREATE OR REPLACE VIEW <name> AS <sql>` for every dialect. |
| Dialects.MaterializedViewOnlyOnPostgres | utils.py:132-152 | A materialized view compiles to `CREATE OR REPLACE MATERIALIZED VIEW <name> AS <sql>` on postgresql. On every other dialect it compiles to exactly the plain-view text. |
| Dialects.DropViewText | utils.py:161-188 | A materialized view on postgresql drops with `DROP MATERIALIZED VIEW IF EXISTS <name>`. Every other case drops with `DROP VIEW IF EXISTS <name>`. |
| Dialects.CreateIsMaterialized | utils.py:113-152 | Given the query's compiled text, the CREATE text always exists. It is a materialized-view statement exactly when a materialized view is compiled for postgresql. |
| Dialects.DropIsMaterialized | utils.py:161-188 | The DROP text always exists. It is a materialized-view statement exactly when a materialized view is compiled for postgresql. |
| Dialects.CreateDdlDeterminesView | utils.py:113-152 | When view names contain no blank, the CREATE text determines the view's name, its query, and whether it was made materialized. |
| Views.MetaData.constructor | utils.py:211 | A new `MetaData` has no tables and no listeners. |
| Views.MetaData.NewTable | utils.py:212 | `Table(name, metadata)` returns the table already registered under the name. Otherwise it makes a new empty table bound to this metadata and registers it. |
| Views.Table.AppendColumn | utils.py:214-216 | It fails, leaving the columns as they were, exactly when the column is not a key column and a key column of its name is in the table. Otherwise a column with the same name is replaced where it stands, or the column goes at the end. |
| Views.MetaData.Listen | utils.py:217-227 | `listen` adds exactly one listener, at the end. |
| Views.CreateView | utils.py:211-228 | When a column append raises, there is no table and the given metadata gains no hook. Otherwise the table is new and bound to a new `MetaData` that is never the argument, and its columns are the copies the loop builds. The given metadata then gains exactly the create hook and then the drop hook. |
| Views.WithColumnNames | utils.py:214-216 | Replacing a column keeps the list of names. A column with a new name is appended and nothing else changes. |
| Views.WithColumnReplaces | utils.py:214-216 | A column whose name is already taken takes the place of the first column of that name, and every other column stays where it is. |
| Views.ViewColumnsDistinct | utils.py:213-216 | When the query's column names are distinct, no append raises and the table's columns are the copies of the query's columns, in order. |
| Views.ViewColumnsFailureSticks | utils.py:213-216 | Once an append raises for a prefix of the query's columns, the whole query builds no table. |
| Views.ViewTableColumns | utils.py:213-216 | When the query's column names are distinct, the table has exactly the query's columns, in order. Name, type and primary-key flag are copied, and a column is nullable exactly when it is not a key column. |
| Views.ViewColumnsOnePerName | utils.py:213-216 | Whenever the table is built, it has one column per distinct column name of the query, and no other names. |
| Views.ViewColumnsAreLastCopies | utils.py:213-216 | Each column of a built table is the copy of the last query column of its name. |
| Views.ViewColumnsFailsIff | utils.py:213-216 | Building the table fails exactly when a query column outside the primary key comes after a primary-key column of the same name. |
| Views.ViewHooksAgree | utils.py:217-227 | Exactly one `after_create` CREATE hook and one `before_drop` DROP hook are registered, both for the view's name. Given the query's compiled text, for every dialect both compile and agree on materialization, which happens exactly when asked for on postgresql. |
| Persistence.NewEngine | manager.py:133 | `create_engine` hands out the next engine id and records its connection string. |
| Persistence.NewFactory | manager.py:229-234 | `sessionmaker`/`scoped_session` hand out the next factory id, with that kind, bound to the engine, with an empty registry. |
| Persistence.Call | manager.py:154 | Calling a factory keeps the world consistent, returns an existing session id, and leaves engines, context and `create_all` calls alone. |
| Persistence.Resolve | manager.py:275 | A session, or a scoped proxy's current session, is resolved to an existing session id without touching engines or the context. |
| Persistence.Send | manager.py:275 | Sending an operation keeps the world consistent and changes only sessions and registries. |
| Persistence.Remove | manager.py:173 | `remove()` keeps the world consistent and changes only sessions and registries. |
| Persistence.MakerCallIsNew | manager.py:154-156 | A plain factory makes a new, empty session bound to its engine on every call. |
| Persistence.ScopedCallSameContext | manager.py:229-231 | A scoped factory returns the same session to every call made in one context. |
| Persistence.ScopedCallsDifferentContexts | manager.py:229-231 | Two contexts without a session get two different new sessions, each recorded in the registry. |
| Persistence.RemoveThenCallIsNew | manager.py:172-173 | After `remove()`, the context's old session has been closed and forgotten, and the next call makes a new session. |
| Persistence.SendAppendsToTarget | manager.py:273-275 | An operation is appended to the log of exactly the session the reference denotes, and the reference still denotes that session afterwards. |
| Persistence.SendTwiceSameSession | manager.py:273-277 | Two operations sent through one reference land on the same session, in order, so a staged record is committed on its own session. |
| Manager.DBManager.constructor | manager.py:40-52 | Every field is set from its argument, and there is no engine. Given a consistent library state and a factory it made, the new manager is consistent. |
| Manager.DBManager.CreateEngine | manager.py:130-137 | An explicit connection string is stored even without `persist`. With no connection string at all it returns `None` and changes nothing. Otherwise it returns a new engine, which replaces the stored one only with `persist`. |
| Manager.DBManager.CreateSession | manager.py:150-156 | Scoped: returns the factory and touches nothing. Plain with `persist`: returns the stored session, making one from the factory only when none is stored. Plain without `persist`: returns a session from the factory and leaves the stored one alone. |
| Manager.DBManager.CloseSession | manager.py:170-176 | An explicit session is closed and no field changes. Otherwise a scoped manager with a factory removes the current context's session. Otherwise a stored session is closed and set to `None`. Otherwise nothing happens. |
| Manager.DBManager.Bootstrap | manager.py:189-192 | A given engine replaces the stored one. `create_all` is called exactly when both an engine and metadata are stored afterwards. |
| Manager.DBManager.Initialize | manager.py:220-238 | Explicit connection string and metadata replace the stored ones. When a connection string is then known, a new engine on that string is stored. Without an engine nothing else changes. With one, a new factory is appended and bound to it, scoped mode stays set once set, and `create_all` runs only with `bootstrap` and metadata. A stored session is kept, and a new empty session on the engine is appended only in plain mode with `create_session` and none stored. Earlier engines, factories and sessions and the current context are unchanged. |
| Manager.DBManager.SetUpSessions | manager.py:225-237 | With an engine present: bootstrap if asked. The factory is scoped exactly when `scoped` or the stored flag is set. A new empty session on the engine is appended only when asked for, in plain mode, with none stored. Engines, earlier factories and sessions, and the current context are unchanged. |
| Manager.DBManager.Query | manager.py:252-255 | The query runs on the stored session, never on an argument. The result is the filtering loop's specification over the keywords, in order. |
| Manager.FilteredBuiltIff | manager.py:253-254 | The query is built exactly when every keyword names an attribute of the model. It then carries one equality filter per keyword, in order. |
| Manager.FilteredNamesFirstUnknown | manager.py:253-254 | A failed query names the first keyword that is not an attribute of the model. |
| Manager.DBManager.Add | manager.py:273-278 | `add` stages the record on the given session, else on the stored one. With `commit` it commits that same session. It returns the manager. |
| Manager.DBManager.Delete | manager.py:296-301 | `delete` marks the record on the given session, else on the stored one. With `commit` it commits that same session. It returns the manager. |
| Manager.DBManager.Commit | manager.py:314-317 | `commit` goes to the given session, else to the stored one. It returns the manager. |
| Manager.DBManager.Rollback | manager.py:330-333 | `rollback` goes to the given session, else to the stored one. It returns the manager. |

## Left out

- The persistence library itself is left out: SQL execution, transactions, connection pooling, autoflush and the engine URL grammar. Engines, sessions and factories are ids, and a session is the log of operations it received. The record itself is an opaque id.
- Thread-local scoping is concurrency. The scoped registry is keyed by an explicit context id, and `Persistence.InContext` switches the current thread.
- Compiling the selectable to SQL with `literal_binds=True` (utils.py:121, 140) is an opaque string parameter. So is the difference between `compiler.sql_compiler.process` for plain views and `compiler.process` for materialized ones. The materialized rules hand the selectable to the compiler the DDL rule receives, not to its SQL compiler. If that compiler cannot render a selectable, the materialized CREATE raises instead of producing text. The model does not capture that failure. Its statements that the CREATE text exists (`Dialects.CreateIsMaterialized`, `Views.ViewHooksAgree`) hold once the query has compiled.
- Column types are tags. Arguments of `Column` other than name, type and `primary_key` are not modelled. `Table(name, metadata, *args)` with extra arguments (`extend_existing` and the like) is not modelled.
- The model reproduces the DDL text. It does not judge whether a backend accepts it. PostgreSQL has no `CREATE OR REPLACE MATERIALIZED VIEW`, and SQLite has no `CREATE OR REPLACE VIEW`.
- The declarative mixin column lists (models.py:84-127) are static schema data.
  - `__table_args` at models.py:125 lacks the trailing underscores, so that index is never applied.
  - The annotation at manager.py:44 names `session` before it is defined, which raises NameError when the module is imported.
  - Neither is modelled.
- Python type annotations and the property getters/setters are left out, because the setters are plain field assignment. The `isinstance`/`hasattr` asserts of models.py:53 and 75 are guaranteed by the Dafny types (keys are strings).
- Case mapping is ASCII only. The regular expression's `.` is any character except a newline.
- A record's attributes are the names `hasattr` finds on it, as a map. `getattr(model, arg)` in `query` is membership in the model's attribute set.
- Manager.DBManager.Query: an unknown attribute makes the code raise at `getattr`, while its doc comment says it returns `None`. The model follows the code and returns `NoSuchAttribute(name)`. The session is still resolved first, as in the code.
- Manager.DBManager.CreateSession: its doc comment (manager.py:146) says a missing factory raises AttributeError. In plain mode the code calls `None` instead, which raises TypeError. That case is a precondition. In scoped mode the code returns the missing factory (`None`), and so does the model.
- Manager.DBManager.Add, Delete, Commit, Rollback, Query and CloseSession: calling a method on a `None` session or factory raises AttributeError in Python. It is excluded by a precondition, as is a scoped flag paired with a plain `sessionmaker`, which has no `remove()`.
- Views.Table.AppendColumn, Views.CreateView, Views.ViewColumnsOnePerName: the model follows SQLAlchemy 1.3, where a same-name column replaces the earlier one unless that would turn a key column into a non-key one. SQLAlchemy 1.4 deprecates any same-name replacement made without `replace_existing=True`, and 2.0 raises `DuplicateColumnError` for it. Under those versions every query with a repeated column name fails, which the model does not capture.
- Manager.DBManager.CreateSession: the scoped flag with a plain `sessionmaker` stored can only come from the constructor. The code then returns the `sessionmaker` itself. The model returns a scoped reference to that factory, which no other operation accepts because it is not `Usable`.
- Manager.DBManager.Valid requires that the engine and the factory the manager holds were made by the library. An arbitrary object passed in as one of them is not modelled.
