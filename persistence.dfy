/**
 * The persistence library's objects that `DBManager` drives, reduced to handles and
 * what happens to them: engines, sessions, session factories (`sessionmaker` and
 * `scoped_session`) and the `create_all` calls made on a metadata object.
 *
 * Every engine, session and factory is a fresh id, the next one the library hands
 * out. A session is the engine it is bound to plus the log of operations it
 * received. A scoped factory keeps a registry from the current context (a thread)
 * to the session of that context.
 */
module Persistence {

  /** A mapped record handed to a session; opaque here. */
  type Record = nat

  /** A metadata object (its tables); opaque here. */
  type MetaDataRef = nat

  /** What a session is asked to do. */
  datatype Op = Add(record: Record) | Delete(record: Record) | Commit | Rollback | Close

  datatype Session = Session(bind: nat, log: seq<Op>)

  /** `sessionmaker(bind=...)` hands out a new session per call; `scoped_session(...)`
      one session per context. */
  datatype FactoryKind = Maker | Scoped

  datatype FactoryState = FactoryState(kind: FactoryKind, bind: nat, registry: map<nat, nat>)

  datatype Factory = Factory(id: nat)

  /** What a session argument or the stored session can be: a session itself, or a
      `scoped_session`, which passes each call on to the session of the current context. */
  datatype SessionRef = Direct(id: nat) | Proxy(factory: Factory)

  datatype World = World(
    engines: seq<string>,            // the connection string of each engine
    sessions: seq<Session>,
    factories: seq<FactoryState>,
    context: nat,                    // the current thread
    created: seq<(MetaDataRef, nat)> // the `create_all(engine)` calls, in order
  )

  /** Every handle the world holds refers to something it made. */
  predicate Valid(w: World) {
    && (forall s :: s in w.sessions ==> s.bind < |w.engines|)
    && (forall f :: f in w.factories ==>
          && f.bind < |w.engines|
          && (f.kind == Maker ==> f.registry == map[])
          && (forall c :: c in f.registry ==> f.registry[c] < |w.sessions|))
  }

  /** `w2` came from `w1` by the library's operations: nothing it made disappeared and
      no factory changed its kind or engine. */
  predicate Extends(w1: World, w2: World) {
    && |w1.engines| <= |w2.engines| && w2.engines[..|w1.engines|] == w1.engines
    && |w1.sessions| <= |w2.sessions|
    && |w1.factories| == |w2.factories|
    && (forall i :: 0 <= i < |w1.factories| ==>
          w2.factories[i].kind == w1.factories[i].kind && w2.factories[i].bind == w1.factories[i].bind)
  }

  predicate IsFactory(w: World, f: Factory) {
    f.id < |w.factories|
  }

  predicate IsScoped(w: World, f: Factory) {
    IsFactory(w, f) && w.factories[f.id].kind == Scoped
  }

  /** A session reference the library can pass calls to. */
  predicate Usable(w: World, ref: SessionRef) {
    match ref
    case Direct(id) => id < |w.sessions|
    case Proxy(f) => IsScoped(w, f)
  }

  /** `create_engine(conn)`: a new engine. */
  function NewEngine(w: World, conn: string): (r: (World, nat))
    ensures r.1 == |w.engines| && r.0.engines == w.engines + [conn]
    ensures Valid(w) ==> Valid(r.0)
    ensures Extends(w, r.0)
  {
    (w.(engines := w.engines + [conn]), |w.engines|)
  }

  /** `sessionmaker(bind=engine)` or `scoped_session(sessionmaker(bind=engine))`. */
  function NewFactory(w: World, kind: FactoryKind, engine: nat): (r: (World, Factory))
    requires Valid(w) && engine < |w.engines|
    ensures Valid(r.0) && IsFactory(r.0, r.1) && r.1.id == |w.factories|
    ensures r.0.factories == w.factories + [FactoryState(kind, engine, map[])]
    ensures r.0 == w.(factories := r.0.factories)
  {
    (w.(factories := w.factories + [FactoryState(kind, engine, map[])]), Factory(|w.factories|))
  }

  /** `factory()`: a new session bound to the factory's engine, except that a scoped
      factory returns the current context's session when it has one. */
  function Call(w: World, f: Factory): (r: (World, nat))
    requires Valid(w) && IsFactory(w, f)
    ensures Valid(r.0) && Extends(w, r.0) && r.1 < |r.0.sessions|
    ensures r.0.context == w.context && r.0.created == w.created && r.0.engines == w.engines
  {
    var fs := w.factories[f.id];
    if fs.kind == Scoped && w.context in fs.registry then (w, fs.registry[w.context])
    else
      var id := |w.sessions|;
      var w1 := w.(sessions := w.sessions + [Session(fs.bind, [])]);
      assert fs in w.factories;
      if fs.kind == Scoped then
        (w1.(factories := w.factories[f.id := fs.(registry := fs.registry[w.context := id])]), id)
      else (w1, id)
  }

  /** The session a reference denotes now, making the context's session if needed. */
  function Resolve(w: World, ref: SessionRef): (r: (World, nat))
    requires Valid(w) && Usable(w, ref)
    ensures Valid(r.0) && Extends(w, r.0) && r.1 < |r.0.sessions|
    ensures r.0.context == w.context && r.0.created == w.created && r.0.engines == w.engines
  {
    match ref
    case Direct(id) => (w, id)
    case Proxy(f) => Call(w, f)
  }

  /** `ref.add(record)`, `ref.commit()`, ...: the operation goes to the session `ref`
      denotes. */
  function Send(w: World, ref: SessionRef, op: Op): (r: World)
    requires Valid(w) && Usable(w, ref)
    ensures Valid(r) && Extends(w, r)
    ensures r.context == w.context && r.created == w.created && r.engines == w.engines
  {
    var (w1, id) := Resolve(w, ref);
    w1.(sessions := w1.sessions[id := w1.sessions[id].(log := w1.sessions[id].log + [op])])
  }

  /** `scoped.remove()`: close the current context's session, if any, and forget it. */
  function Remove(w: World, f: Factory): (r: World)
    requires Valid(w) && IsScoped(w, f)
    ensures Valid(r) && Extends(w, r)
    ensures r.context == w.context && r.created == w.created && r.engines == w.engines
  {
    var fs := w.factories[f.id];
    if w.context in fs.registry then
      var w1 := Send(w, Direct(fs.registry[w.context]), Close);
      w1.(factories := w1.factories[f.id := fs.(registry := fs.registry - {w.context})])
    else w
  }

  /** `metadata.create_all(engine)` */
  function CreateAll(w: World, metadata: MetaDataRef, engine: nat): World {
    w.(created := w.created + [(metadata, engine)])
  }

  /** The current thread becomes `context`. */
  function InContext(w: World, context: nat): World {
    w.(context := context)
  }

  // ---------------------------------------------------------------------------
  // Properties of the factories and sessions

  /** References stay usable as the library goes on. */
  lemma UsableExtends(w1: World, w2: World, ref: SessionRef)
    requires Extends(w1, w2) && Usable(w1, ref)
    ensures Usable(w2, ref)
  {
  }

  /** A plain factory makes a new, empty session bound to its engine on every call. */
  lemma MakerCallIsNew(w: World, f: Factory)
    requires Valid(w) && IsFactory(w, f) && w.factories[f.id].kind == Maker
    ensures var (w1, id) := Call(w, f);
      && id == |w.sessions| && w1.sessions == w.sessions + [Session(w.factories[f.id].bind, [])]
      && w1.factories == w.factories
  {
  }

  /** A scoped factory returns the same session to every call in one context. */
  lemma ScopedCallSameContext(w: World, f: Factory)
    requires Valid(w) && IsScoped(w, f)
    ensures var (w1, id) := Call(w, f);
      Call(w1, f) == (w1, id)
  {
  }

  /** Two contexts without a session get two different new sessions. */
  lemma ScopedCallsDifferentContexts(w: World, f: Factory, c1: nat, c2: nat)
    requires Valid(w) && IsScoped(w, f)
    requires c1 != c2 && c1 !in w.factories[f.id].registry && c2 !in w.factories[f.id].registry
    ensures var (w1, id1) := Call(InContext(w, c1), f);
      var (w2, id2) := Call(InContext(w1, c2), f);
      && id1 == |w.sessions| && id2 == |w.sessions| + 1
      && c1 in w2.factories[f.id].registry && w2.factories[f.id].registry[c1] == id1
      && c2 in w2.factories[f.id].registry && w2.factories[f.id].registry[c2] == id2
  {
  }

  /** After `remove()`, the context's old session has been closed and the next call
      in that context makes a new one. */
  lemma RemoveThenCallIsNew(w: World, f: Factory)
    requires Valid(w) && IsScoped(w, f) && w.context in w.factories[f.id].registry
    ensures var oldId := w.factories[f.id].registry[w.context];
      var w1 := Remove(w, f);
      && w1.sessions[oldId].log == w.sessions[oldId].log + [Close]
      && w.context !in w1.factories[f.id].registry
      && Call(w1, f).1 == |w.sessions| != oldId
  {
    var fs := w.factories[f.id];
    assert fs in w.factories;
  }

  /** An operation is appended to the log of the session the reference denotes and of
      no other session, and the reference still denotes that session afterwards. */
  lemma SendAppendsToTarget(w: World, ref: SessionRef, op: Op)
    requires Valid(w) && Usable(w, ref)
    ensures var (w1, id) := Resolve(w, ref);
      var w2 := Send(w, ref, op);
      && |w2.sessions| == |w1.sessions|
      && w2.sessions[id] == w1.sessions[id].(log := w1.sessions[id].log + [op])
      && (forall j :: 0 <= j < |w2.sessions| && j != id ==> w2.sessions[j] == w1.sessions[j])
      && Usable(w2, ref) && Resolve(w2, ref).1 == id
  {
    var (w1, id) := Resolve(w, ref);
    var w2 := Send(w, ref, op);
    UsableExtends(w, w2, ref);
    match ref
    case Direct(_) =>
    case Proxy(f) =>
      var fs := w.factories[f.id];
      assert w2.factories == w1.factories;
      assert w1.factories[f.id].registry[w.context] == id;
  }

  /** Two operations sent through one reference reach the same session, in order: a
      record staged on a session is committed on that session. */
  lemma SendTwiceSameSession(w: World, ref: SessionRef, op1: Op, op2: Op)
    requires Valid(w) && Usable(w, ref)
    ensures Usable(Send(w, ref, op1), ref)
    ensures var (w1, id) := Resolve(w, ref);
      var w3 := Send(Send(w, ref, op1), ref, op2);
      && |w3.sessions| == |w1.sessions|
      && w3.sessions[id].log == w1.sessions[id].log + [op1, op2]
      && (forall j :: 0 <= j < |w3.sessions| && j != id ==> w3.sessions[j] == w1.sessions[j])
  {
    var (w1, id) := Resolve(w, ref);
    SendAppendsToTarget(w, ref, op1);
    var w2 := Send(w, ref, op1);
    SendAppendsToTarget(w2, ref, op2);
    var (w2r, id2) := Resolve(w2, ref);
    assert id2 == id;
    assert w2r == w2 by {
      match ref
      case Direct(_) =>
      case Proxy(f) =>
        ScopedCallSameContextAfterSend(w, f, op1);
    }
  }

  lemma ScopedCallSameContextAfterSend(w: World, f: Factory, op: Op)
    requires Valid(w) && IsScoped(w, f)
    ensures Usable(Send(w, Proxy(f), op), Proxy(f))
    ensures Call(Send(w, Proxy(f), op), f).0 == Send(w, Proxy(f), op)
  {
    var w2 := Send(w, Proxy(f), op);
    UsableExtends(w, w2, Proxy(f));
    var (w1, id) := Call(w, f);
    assert w2.factories == w1.factories;
    assert w.context in w1.factories[f.id].registry;
  }
}
