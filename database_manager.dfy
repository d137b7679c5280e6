/** The lifecycle gate `DatabaseManager` of src/db/databaseManager.ts: four
    fields (`db`, `initPromise`, `isInitialized`, `initializationError`)
    assigned along `getDatabase`, the initialisation, `closeDatabase` and
    `reset`. An initialisation runs from the moment `getDatabase` starts it
    until it settles; initialisations are numbered, and `initPromise` holds
    the number of the one whose promise it keeps. The settling step takes
    the outcome of opening and testing the database as an input. */
module Lifecycle {
  import opened Types

  datatype Handle = Handle(isOpen: bool)

  datatype Manager = Manager(
    db: Option<Handle>,
    initPromise: Option<nat>,
    isInitialized: bool,
    initializationError: Option<string>,
    /** Initialisations started and not yet settled. */
    running: set<nat>,
    nextInit: nat)

  /** What a `getDatabase` caller gets: a thrown error, the open database,
      or the promise of initialisation number `init`. */
  datatype Access = Threw(error: string) | Returned(handle: Handle) | Awaiting(init: nat)

  const NoWindowError: string := "Database can only be accessed in browser environment"

  const Initial: Manager := Manager(None, None, false, None, {}, 0)

  function GetDatabaseStep(m: Manager, hasWindow: bool): (Manager, Access)
  {
    if !hasWindow then (m, Threw(NoWindowError))
    else if m.initializationError.Some? then (m, Threw(m.initializationError.value))
    else if m.isInitialized && m.db.Some? then (m, Returned(m.db.value))
    else if m.initPromise.Some? then (m, Awaiting(m.initPromise.value))
    else
      (m.(initPromise := Some(m.nextInit), running := m.running + {m.nextInit}, nextInit := m.nextInit + 1),
       Awaiting(m.nextInit))
  }

  /** The rest of `initializeDatabase` for initialisation `init`, once the
      page has loaded: create the database object if there is none, open it,
      test it. On success the gate is initialised and the error cleared; on
      failure the error is recorded and `db` and `initPromise` are dropped. */
  function Settle(m: Manager, init: nat, outcome: Outcome): Manager
  {
    if init !in m.running then m
    else
      var m1 := m.(running := m.running - {init});
      match outcome
      case Pass => m1.(db := Some(Handle(true)), isInitialized := true, initializationError := None)
      case Fail(e) => m1.(initializationError := Some(e), initPromise := None, isInitialized := false, db := None)
  }

  function Closed(m: Manager): Manager
  {
    if m.db.Some? && m.db.value.isOpen then
      m.(isInitialized := false, db := None, initPromise := None, initializationError := None)
    else m
  }

  function AfterReset(m: Manager): Manager
  {
    Closed(m).(initializationError := None, initPromise := None)
  }

  predicate Ready(m: Manager)
  {
    m.isInitialized && m.db.Some? && m.db.value.isOpen
  }

  /** With no window `getDatabase` throws before it looks at any field. */
  lemma NoWindowThrowsFirst(m: Manager)
    ensures GetDatabaseStep(m, false) == (m, Threw(NoWindowError))
  {
  }

  /** An initialised gate with a database returns it and starts nothing. */
  lemma ReadyReturnsDatabase(m: Manager)
    requires m.initializationError.None? && m.isInitialized && m.db.Some?
    ensures GetDatabaseStep(m, true) == (m, Returned(m.db.value))
  {
  }

  /** Success initialises the gate and clears the error, so it is ready;
      failure records the error, drops `db` and `initPromise` and clears
      `isInitialized`. */
  lemma SettleEffect(m: Manager, init: nat, outcome: Outcome)
    requires init in m.running
    ensures outcome.Pass? ==> var m' := Settle(m, init, outcome);
      m'.isInitialized && m'.initializationError.None? && Ready(m')
    ensures outcome.Fail? ==> var m' := Settle(m, init, outcome);
      && m'.initializationError == Some(outcome.error) && m'.db.None?
      && m'.initPromise.None? && !m'.isInitialized && !Ready(m')
  {
  }

  /** Closing an open database clears all four fields; closing a missing or
      closed database changes nothing. */
  lemma CloseEffect(m: Manager)
    ensures m.db.Some? && m.db.value.isOpen ==> var m' := Closed(m);
      m'.db.None? && m'.initPromise.None? && !m'.isInitialized && m'.initializationError.None?
    ensures !(m.db.Some? && m.db.value.isOpen) ==> Closed(m) == m
  {
  }

  /** `reset` always leaves no error and no kept promise, so the next
      `getDatabase` in a window does not throw. */
  lemma ResetClearsError(m: Manager)
    ensures AfterReset(m).initializationError.None? && AfterReset(m).initPromise.None?
    ensures !GetDatabaseStep(AfterReset(m), true).1.Threw?
  {
  }

  /** `n` callers of `getDatabase` in a window, one after another. */
  function CallMany(m: Manager, n: nat): (Manager, seq<Access>)
    decreases n
  {
    if n == 0 then (m, [])
    else
      var (m1, a) := GetDatabaseStep(m, true);
      var (m2, rest) := CallMany(m1, n - 1);
      (m2, [a] + rest)
  }

  /** Callers who arrive while no database is ready and no error is
      recorded all receive the same promise, and at most one initialisation
      is started for all of them. */
  lemma {:induction false} CallersShareInitialisation(m: Manager, n: nat)
    requires m.initializationError.None? && !(m.isInitialized && m.db.Some?)
    requires n > 0
    ensures var (m', replies) := CallMany(m, n);
      var id := if m.initPromise.Some? then m.initPromise.value else m.nextInit;
      && |replies| == n
      && (forall i :: 0 <= i < n ==> replies[i] == Awaiting(id))
      && m'.initPromise == Some(id)
      && m'.running == m.running + (if m.initPromise.Some? then {} else {id})
      && m'.nextInit == (if m.initPromise.Some? then m.nextInit else m.nextInit + 1)
    decreases n
  {
    var (m1, a) := GetDatabaseStep(m, true);
    var id := if m.initPromise.Some? then m.initPromise.value else m.nextInit;
    assert a == Awaiting(id) && m1.initPromise == Some(id);
    assert m1.running == m.running + (if m.initPromise.Some? then {} else {id});
    var (m', replies) := CallMany(m, n);
    var (m2, rest) := CallMany(m1, n - 1);
    assert m' == m2 && replies == [a] + rest;
    if n > 1 {
      CallersShareInitialisation(m1, n - 1);
      assert m1.nextInit == (if m.initPromise.Some? then m.nextInit else m.nextInit + 1);
    }
  }

  /** The gate operations other than `reset`. */
  datatype Op = GetOp(hasWindow: bool) | SettleOp(init: nat, outcome: Outcome) | CloseOp

  function Run(m: Manager, ops: seq<Op>): (Manager, seq<Access>)
    decreases |ops|
  {
    if ops == [] then (m, [])
    else
      match ops[0]
      case GetOp(w) =>
        var (m1, a) := GetDatabaseStep(m, w);
        var (m2, rest) := Run(m1, ops[1..]);
        (m2, [a] + rest)
      case SettleOp(i, o) => Run(Settle(m, i, o), ops[1..])
      case CloseOp => Run(Closed(m), ops[1..])
  }

  /** A failed initialisation with none other in flight is sticky: until
      `reset`, every `getDatabase` throws, and throws that error whenever a
      window exists. */
  lemma {:induction false} FailureIsSticky(m: Manager, ops: seq<Op>)
    requires m.initializationError.Some? && m.running == {} && m.db.None?
    ensures var (m', replies) := Run(m, ops);
      && m'.initializationError == m.initializationError
      && (forall a :: a in replies ==>
            a.Threw? && (a.error == m.initializationError.value || a.error == NoWindowError))
    decreases |ops|
  {
    if ops != [] {
      match ops[0]
      case GetOp(w) =>
        FailureIsSticky(m, ops[1..]);
      case SettleOp(i, o) =>
        assert Settle(m, i, o) == m;
        FailureIsSticky(m, ops[1..]);
      case CloseOp =>
        assert Closed(m) == m;
        FailureIsSticky(m, ops[1..]);
    }
  }

  class DatabaseManager {
    var db: Option<Handle>
    var initPromise: Option<nat>
    var isInitialized: bool
    var initializationError: Option<string>
    var running: set<nat>
    var nextInit: nat

    function State(): Manager
      reads this
    {
      Manager(db, initPromise, isInitialized, initializationError, running, nextInit)
    }

    constructor ()
      ensures State() == Initial
    {
      db := None;
      initPromise := None;
      isInitialized := false;
      initializationError := None;
      running := {};
      nextInit := 0;
    }

    method GetDatabase(hasWindow: bool) returns (r: Access)
      modifies this
      ensures (State(), r) == GetDatabaseStep(old(State()), hasWindow)
    {
      if !hasWindow {
        return Threw(NoWindowError);
      }
      if initializationError.Some? {
        return Threw(initializationError.value);
      }
      if isInitialized && db.Some? {
        return Returned(db.value);
      }
      if initPromise.Some? {
        return Awaiting(initPromise.value);
      }
      r := InitializeDatabase();
      initPromise := Some(r.init);
    }

    /** Starts an initialisation; it stops at its first `await`. */
    method InitializeDatabase() returns (r: Access)
      modifies this
      ensures r == Awaiting(old(nextInit))
      ensures running == old(running) + {old(nextInit)} && nextInit == old(nextInit) + 1
      ensures db == old(db) && initPromise == old(initPromise)
      ensures isInitialized == old(isInitialized) && initializationError == old(initializationError)
    {
      r := Awaiting(nextInit);
      running := running + {nextInit};
      nextInit := nextInit + 1;
    }

    /** Initialisation `init` resumes after its waits and settles with the
        outcome of opening and testing the database; its awaiting callers
        get the database or the error. */
    method SettleInitialization(init: nat, outcome: Outcome) returns (r: Result<Handle>)
      requires init in running
      modifies this
      ensures State() == Settle(old(State()), init, outcome)
      ensures r == (if outcome.Pass? then Ok(Handle(true)) else Err(outcome.error))
    {
      running := running - {init};
      if db.None? {
        db := Some(Handle(false));
      }
      if !db.value.isOpen {
        if outcome.Fail? {
          initializationError := Some(outcome.error);
          initPromise := None;
          isInitialized := false;
          db := None;
          return Err(outcome.error);
        }
        db := Some(Handle(true));
      }
      if outcome.Fail? {
        initializationError := Some(outcome.error);
        initPromise := None;
        isInitialized := false;
        db := None;
        return Err(outcome.error);
      }
      isInitialized := true;
      initializationError := None;
      return Ok(db.value);
    }

    method CloseDatabase()
      modifies this
      ensures State() == Closed(old(State()))
    {
      if db.Some? && db.value.isOpen {
        isInitialized := false;
        db := None;
        initPromise := None;
        initializationError := None;
      }
    }

    function IsReady(): (r: bool)
      reads this
      ensures r <==> Ready(State())
    {
      isInitialized && db.Some? && db.value.isOpen
    }

    function HasError(): (r: bool)
      reads this
      ensures r <==> State().initializationError.Some?
    {
      initializationError.Some?
    }

    function GetError(): Option<string>
      reads this
    {
      initializationError
    }

    method Reset()
      modifies this
      ensures State() == AfterReset(old(State()))
    {
      CloseDatabase();
      initializationError := None;
      initPromise := None;
    }
  }
}
