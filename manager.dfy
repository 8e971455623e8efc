/**
 * `DBManager` (manager.py): the connection manager that holds a connection string,
 * an engine, a metadata object, a session factory and a session, and wraps the
 * library's engine and session calls.
 *
 * The library's objects are handles into a `World` (module Persistence) held by a
 * `Library` object, whose state the manager's methods change through the library's
 * operations. Calling a method on a `None` field (an `AttributeError` or `TypeError`
 * in Python) is excluded by a precondition.
 */
module Manager {
  import opened Common
  import opened Persistence

  /** The persistence library's state, shared by all handles. */
  class Library {
    var state: World

    constructor (state: World)
      ensures this.state == state
    {
      this.state := state;
    }
  }

  /** A mapped class: its name and the attribute names `getattr` finds on it. */
  datatype Model = Model(name: string, attributes: set<string>)

  /** `session.query(model).filter(...)...`: one equality filter per pair, in order. */
  datatype OrmQuery = OrmQuery(session: nat, model: Model, filters: seq<(string, Value)>)

  /** A built query, or the keyword whose attribute `getattr` did not find. */
  datatype QueryResult = Built(query: OrmQuery) | NoSuchAttribute(name: string)

  /** The filtering loop of `query` over `kwargs`, from `base`. */
  function Filtered(base: OrmQuery, kwargs: seq<(string, Value)>): QueryResult
    decreases |kwargs|
  {
    if kwargs == [] then Built(base)
    else
      match Filtered(base, kwargs[..|kwargs| - 1])
      case NoSuchAttribute(name) => NoSuchAttribute(name)
      case Built(q) =>
        var (arg, value) := kwargs[|kwargs| - 1];
        if arg in base.model.attributes then Built(q.(filters := q.filters + [(arg, value)]))
        else NoSuchAttribute(arg)
  }

  class DBManager {
    const lib: Library
    var connString: Option<string>
    var engine: Option<nat>
    var metadata: Option<MetaDataRef>
    var sessionFactory: Option<Factory>
    var session: Option<SessionRef>
    var scopedSessions: bool

    /** The library's state is consistent and the engine and factory the manager holds
        are ones the library made. */
    predicate Valid()
      reads this, lib
    {
      && Persistence.Valid(lib.state)
      && (engine.Some? ==> engine.value < |lib.state.engines|)
      && (sessionFactory.Some? ==> IsFactory(lib.state, sessionFactory.value))
    }

    /** `DBManager(conn_string, metadata, session_factory, session, scoped)` */
    constructor (lib: Library, connString: Option<string>, metadata: Option<MetaDataRef>,
                 sessionFactory: Option<Factory>, session: Option<SessionRef>, scoped: bool)
      requires Persistence.Valid(lib.state)
      requires sessionFactory.Some? ==> IsFactory(lib.state, sessionFactory.value)
      ensures Valid()
      ensures this.lib == lib && this.connString == connString && this.metadata == metadata
      ensures this.sessionFactory == sessionFactory && this.session == session
      ensures scopedSessions == scoped && engine == None
    {
      this.lib := lib;
      this.connString := connString;
      this.metadata := metadata;
      this.sessionFactory := sessionFactory;
      this.session := session;
      scopedSessions := scoped;
      engine := None;
    }

    /** `create_engine(conn_string, persist)`: an explicit connection string is always
        stored; `persist` only decides whether the new engine is stored. */
    method CreateEngine(connString: Option<string>, persist: bool) returns (e: Option<nat>)
      requires Valid()
      modifies this`connString, this`engine, lib`state
      ensures Valid()
      ensures this.connString == if connString.Some? then connString else old(this.connString)
      ensures this.connString.None? ==> e.None? && engine == old(engine) && lib.state == old(lib.state)
      ensures this.connString.Some? ==>
        && e == Some(|old(lib.state.engines)|)
        && lib.state == NewEngine(old(lib.state), this.connString.value).0
        && engine == if persist then e else old(engine)
    {
      if connString.Some? {
        this.connString := connString;
      }
      if this.connString.Some? {
        var (w, id) := NewEngine(lib.state, this.connString.value);
        lib.state := w;
        if persist {
          engine := Some(id);
        }
        return Some(id);
      }
      return None;
    }

    /** `create_session(persist)`. Scoped: the factory itself, touching nothing. Plain
        with `persist`: the stored session, made by the factory only if there is none.
        Plain without `persist`: a session from the factory, not stored. */
    method CreateSession(persist: bool) returns (r: Option<SessionRef>)
      requires Valid()
      requires !scopedSessions && !(persist && session.Some?) ==> sessionFactory.Some?
      modifies this`session, lib`state
      ensures Valid()
      ensures scopedSessions ==>
        && r == (if sessionFactory.Some? then Some(Proxy(sessionFactory.value)) else None)
        && session == old(session) && lib.state == old(lib.state)
      ensures !scopedSessions && persist && old(session).Some? ==>
        r == old(session) && session == old(session) && lib.state == old(lib.state)
      ensures !scopedSessions && persist && old(session).None? ==>
        var (w, id) := Call(old(lib.state), sessionFactory.value);
        lib.state == w && session == Some(Direct(id)) && r == session
      ensures !scopedSessions && !persist ==>
        var (w, id) := Call(old(lib.state), sessionFactory.value);
        lib.state == w && r == Some(Direct(id)) && session == old(session)
    {
      if scopedSessions {
        return if sessionFactory.Some? then Some(Proxy(sessionFactory.value)) else None;
      }
      if persist {
        if session.None? {
          var (w, id) := Call(lib.state, sessionFactory.value);
          lib.state := w;
          session := Some(Direct(id));
        }
        return session;
      }
      var (w, id) := Call(lib.state, sessionFactory.value);
      lib.state := w;
      return Some(Direct(id));
    }

    /** `close_session(session)`: close the given session; else, when scoped, remove
        the current context's session; else close and forget the stored session. */
    method CloseSession(session: Option<SessionRef>)
      requires Valid()
      requires session.Some? ==> Usable(lib.state, session.value)
      requires session.None? && scopedSessions && sessionFactory.Some? ==>
        IsScoped(lib.state, sessionFactory.value)
      requires session.None? && !(scopedSessions && sessionFactory.Some?) && this.session.Some? ==>
        Usable(lib.state, this.session.value)
      modifies this`session, lib`state
      ensures Valid()
      ensures session.Some? ==>
        lib.state == Send(old(lib.state), session.value, Close) && this.session == old(this.session)
      ensures session.None? && scopedSessions && sessionFactory.Some? ==>
        lib.state == Remove(old(lib.state), sessionFactory.value) && this.session == old(this.session)
      ensures session.None? && !(scopedSessions && sessionFactory.Some?) && old(this.session).Some? ==>
        lib.state == Send(old(lib.state), old(this.session).value, Close) && this.session == None
      ensures session.None? && !(scopedSessions && sessionFactory.Some?) && old(this.session).None? ==>
        lib.state == old(lib.state) && this.session == None
    {
      if session.Some? {
        lib.state := Send(lib.state, session.value, Close);
      } else if scopedSessions && sessionFactory.Some? {
        lib.state := Remove(lib.state, sessionFactory.value);
      } else if this.session.Some? {
        lib.state := Send(lib.state, this.session.value, Close);
        this.session := None;
      }
    }

    /** `bootstrap(engine)`: store a given engine, then create the metadata's tables on
        the stored engine when there are both. */
    method Bootstrap(engine: Option<nat>)
      requires Valid()
      requires engine.Some? ==> engine.value < |lib.state.engines|
      modifies this`engine, lib`state
      ensures Valid()
      ensures this.engine == if engine.Some? then engine else old(this.engine)
      ensures lib.state == if this.engine.Some? && metadata.Some?
                           then CreateAll(old(lib.state), metadata.value, this.engine.value)
                           else old(lib.state)
    {
      if engine.Some? {
        this.engine := engine;
      }
      if this.engine.Some? && metadata.Some? {
        lib.state := CreateAll(lib.state, metadata.value, this.engine.value);
      }
    }

    /** `initialize(conn_string, metadata, bootstrap, scoped, create_session)` */
    method Initialize(connString: Option<string>, metadata: Option<MetaDataRef>,
                      bootstrap: bool, scoped: bool, createSession: bool) returns (r: DBManager)
      requires Valid()
      modifies this`connString, this`engine, this`metadata, this`sessionFactory
      modifies this`session, this`scopedSessions, lib`state
      ensures r == this && Valid()
      ensures this.connString == if connString.Some? then connString else old(this.connString)
      ensures this.metadata == if metadata.Some? then metadata else old(this.metadata)
      ensures engine == if this.connString.Some? then Some(|old(lib.state.engines)|) else old(engine)
      ensures lib.state.engines
           == old(lib.state.engines) + (if this.connString.Some? then [this.connString.value] else [])
      ensures lib.state.context == old(lib.state.context)
      ensures engine.None? ==>
        && sessionFactory == old(sessionFactory) && scopedSessions == old(scopedSessions)
        && lib.state == old(lib.state)
      // A factory only once there is an engine; scoped mode, once set, stays set.
      ensures engine.Some? ==>
        && scopedSessions == (scoped || old(scopedSessions))
        && sessionFactory == Some(Factory(|old(lib.state.factories)|))
        && lib.state.factories
           == old(lib.state.factories) + [FactoryState(if scopedSessions then Scoped else Maker, engine.value, map[])]
        && lib.state.created
           == old(lib.state.created) + (if bootstrap && this.metadata.Some? then [(this.metadata.value, engine.value)] else [])
      // A session is made eagerly only in plain mode, and a stored one is kept.
      ensures if engine.Some? && createSession && !scopedSessions && old(session).None?
              then && session == Some(Direct(|old(lib.state.sessions)|))
                   && lib.state.sessions == old(lib.state.sessions) + [Session(engine.value, [])]
              else session == old(session) && lib.state.sessions == old(lib.state.sessions)
    {
      if connString.Some? {
        this.connString := connString;
      }
      var _ := CreateEngine(None, true);
      if metadata.Some? {
        this.metadata := metadata;
      }
      if engine.Some? {
        SetUpSessions(bootstrap, scoped, createSession);
      }
      return this;
    }

    /** The part of `initialize` that runs once there is an engine: bootstrap if asked,
        then a scoped or plain factory on the engine, then a stored plain session if
        asked and there is none. */
    method SetUpSessions(bootstrap: bool, scoped: bool, createSession: bool)
      requires Valid() && engine.Some?
      modifies this`engine, this`sessionFactory, this`session, this`scopedSessions, lib`state
      ensures Valid() && engine == old(engine)
      ensures lib.state.engines == old(lib.state.engines) && lib.state.context == old(lib.state.context)
      ensures scopedSessions == (scoped || old(scopedSessions))
      ensures sessionFactory == Some(Factory(|old(lib.state.factories)|))
      ensures lib.state.factories
           == old(lib.state.factories) + [FactoryState(if scopedSessions then Scoped else Maker, engine.value, map[])]
      ensures lib.state.created
           == old(lib.state.created) + (if bootstrap && metadata.Some? then [(metadata.value, engine.value)] else [])
      ensures if createSession && !scopedSessions && old(session).None?
              then && session == Some(Direct(|old(lib.state.sessions)|))
                   && lib.state.sessions == old(lib.state.sessions) + [Session(engine.value, [])]
              else session == old(session) && lib.state.sessions == old(lib.state.sessions)
    {
      if bootstrap {
        Bootstrap(None);
      }
      if scoped || scopedSessions {
        var (w, f) := NewFactory(lib.state, Scoped, engine.value);
        lib.state := w;
        sessionFactory := Some(f);
        scopedSessions := true;
      } else {
        var (w, f) := NewFactory(lib.state, Maker, engine.value);
        lib.state := w;
        sessionFactory := Some(f);
        scopedSessions := false;
      }
      if createSession && !scopedSessions {
        ghost var before := lib.state;
        var _ := CreateSession(true);
        if old(session).None? {
          MakerCallIsNew(before, sessionFactory.value);
        }
      }
    }

    /** `query(model, **kwargs)`: a query on the stored session with one equality
        filter per keyword, in order; a keyword that is not an attribute of the model
        fails at `getattr`. */
    method Query(model: Model, kwargs: seq<(string, Value)>) returns (r: QueryResult)
      requires Valid() && session.Some? && Usable(lib.state, session.value)
      modifies lib`state
      ensures Valid()
      ensures var (w, id) := Resolve(old(lib.state), session.value);
        lib.state == w && r == Filtered(OrmQuery(id, model, []), kwargs)
    {
      var (w, id) := Resolve(lib.state, session.value);
      lib.state := w;
      var query := OrmQuery(id, model, []);
      var i := 0;
      while i < |kwargs|
        invariant 0 <= i <= |kwargs|
        invariant Filtered(OrmQuery(id, model, []), kwargs[..i]) == Built(query)
      {
        var (arg, value) := kwargs[i];
        if arg !in model.attributes {
          assert kwargs[..i + 1][..i] == kwargs[..i];
          FilteredFailureSticks(OrmQuery(id, model, []), kwargs, i + 1);
          return NoSuchAttribute(arg);
        }
        query := query.(filters := query.filters + [(arg, value)]);
        assert kwargs[..i + 1][..i] == kwargs[..i];
        i := i + 1;
      }
      assert kwargs[..i] == kwargs;
      return Built(query);
    }

    /** The session an operation goes to: the argument if given, else the stored one. */
    function Target(session: Option<SessionRef>): SessionRef
      reads this
      requires session.Some? || this.session.Some?
    {
      if session.Some? then session.value else this.session.value
    }

    /** `add(record, session, commit)` */
    method Add(record: Record, session: Option<SessionRef>, commit: bool) returns (r: DBManager)
      requires Valid() && (session.Some? || this.session.Some?) && Usable(lib.state, Target(session))
      modifies lib`state
      ensures r == this && Valid()
      ensures var staged := Send(old(lib.state), Target(session), Op.Add(record));
        Usable(staged, Target(session))
        && lib.state == if commit then Send(staged, Target(session), Op.Commit) else staged
    {
      var target := Target(session);
      lib.state := Send(lib.state, target, Op.Add(record));
      UsableExtends(old(lib.state), lib.state, target);
      if commit {
        var _ := Commit(Some(target));
      }
      return this;
    }

    /** `delete(record, session, commit)` */
    method Delete(record: Record, session: Option<SessionRef>, commit: bool) returns (r: DBManager)
      requires Valid() && (session.Some? || this.session.Some?) && Usable(lib.state, Target(session))
      modifies lib`state
      ensures r == this && Valid()
      ensures var staged := Send(old(lib.state), Target(session), Op.Delete(record));
        Usable(staged, Target(session))
        && lib.state == if commit then Send(staged, Target(session), Op.Commit) else staged
    {
      var target := Target(session);
      lib.state := Send(lib.state, target, Op.Delete(record));
      UsableExtends(old(lib.state), lib.state, target);
      if commit {
        var _ := Commit(Some(target));
      }
      return this;
    }

    /** `commit(session)` */
    method Commit(session: Option<SessionRef>) returns (r: DBManager)
      requires Valid() && (session.Some? || this.session.Some?) && Usable(lib.state, Target(session))
      modifies lib`state
      ensures r == this && Valid()
      ensures lib.state == Send(old(lib.state), Target(session), Op.Commit)
    {
      lib.state := Send(lib.state, Target(session), Op.Commit);
      return this;
    }

    /** `rollback(session)` */
    method Rollback(session: Option<SessionRef>) returns (r: DBManager)
      requires Valid() && (session.Some? || this.session.Some?) && Usable(lib.state, Target(session))
      modifies lib`state
      ensures r == this && Valid()
      ensures lib.state == Send(old(lib.state), Target(session), Op.Rollback)
    {
      lib.state := Send(lib.state, Target(session), Op.Rollback);
      return this;
    }
  }

  // ---------------------------------------------------------------------------
  // Properties of the query loop

  lemma {:induction false} FilteredFailureSticks(base: OrmQuery, kwargs: seq<(string, Value)>, n: nat)
    requires n <= |kwargs| && Filtered(base, kwargs[..n]).NoSuchAttribute?
    ensures Filtered(base, kwargs) == Filtered(base, kwargs[..n])
    decreases |kwargs|
  {
    if n < |kwargs| {
      var init := kwargs[..|kwargs| - 1];
      assert init[..n] == kwargs[..n];
      FilteredFailureSticks(base, init, n);
    } else {
      assert kwargs[..n] == kwargs;
    }
  }

  /** The query is built exactly when every keyword names an attribute of the model,
      and then it carries one filter per keyword, in order, after the base filters. */
  lemma {:induction false} FilteredBuiltIff(base: OrmQuery, kwargs: seq<(string, Value)>)
    ensures Filtered(base, kwargs).Built?
        <==> forall i :: 0 <= i < |kwargs| ==> kwargs[i].0 in base.model.attributes
    ensures Filtered(base, kwargs).Built? ==>
      Filtered(base, kwargs).query == base.(filters := base.filters + kwargs)
    decreases |kwargs|
  {
    if kwargs != [] {
      var init := kwargs[..|kwargs| - 1];
      FilteredBuiltIff(base, init);
      assert forall i :: 0 <= i < |init| ==> init[i] == kwargs[i];
      if Filtered(base, init).Built? {
        assert base.filters + init + [kwargs[|kwargs| - 1]] == base.filters + kwargs;
      }
    }
  }

  /** A failed query names the first keyword that is not an attribute of the model. */
  lemma {:induction false} FilteredNamesFirstUnknown(base: OrmQuery, kwargs: seq<(string, Value)>)
    ensures Filtered(base, kwargs).NoSuchAttribute? ==>
      exists i :: 0 <= i < |kwargs| && kwargs[i].0 == Filtered(base, kwargs).name
        && kwargs[i].0 !in base.model.attributes
        && forall j :: 0 <= j < i ==> kwargs[j].0 in base.model.attributes
    decreases |kwargs|
  {
    if kwargs != [] {
      var init := kwargs[..|kwargs| - 1];
      FilteredNamesFirstUnknown(base, init);
      FilteredBuiltIff(base, init);
      assert forall i :: 0 <= i < |init| ==> init[i] == kwargs[i];
      if Filtered(base, init).NoSuchAttribute? {
        var i :| 0 <= i < |init| && init[i].0 == Filtered(base, init).name
          && init[i].0 !in base.model.attributes
          && forall j :: 0 <= j < i ==> init[j].0 in base.model.attributes;
        assert kwargs[i] == init[i];
      } else if Filtered(base, kwargs).NoSuchAttribute? {
        assert kwargs[|kwargs| - 1].0 == Filtered(base, kwargs).name;
      }
    }
  }
}
