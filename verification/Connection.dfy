/** The process-wide database handle: three slots behind a lock, set by whoever comes first and
    cleared by close and reset, which race against everybody else. */
module Connection {
  import opened Schema

  datatype Kind = Postgres | Sqlite

  /** An adapter that was constructed; no two of them share a number. */
  datatype Adapter = Adapter(id: nat, kind: Kind)

  datatype Slots = Slots(database: Option<Adapter>, dialect: Option<Kind>, listener: Option<Adapter>)
  {
    /** Database and dialect are both set or both empty and agree, and the listener is the same
        adapter as a Postgres database. */
    predicate Settled() {
      && (if database.Some? then dialect == Some(database.value.kind) else dialect.None?)
      && listener == (if database.Some? && database.value.kind.Postgres? then database else None)
    }
  }

  const EMPTY := Slots(None, None, None)

  function Holding(a: Adapter): Slots {
    Slots(Some(a), Some(a.kind), if a.kind.Postgres? then Some(a) else None)
  }

  datatype DbError = ConstructionFailed | DialectNotInitialized

  /** What the slots are after `get_database`, given the adapter its construction would yield. */
  function AfterGet(s: Slots, made: Option<Adapter>): Slots {
    if s.database.Some? || made.None? then s else Holding(made.value)
  }

  function Got(s: Slots, made: Option<Adapter>): Result<Adapter, DbError> {
    if s.database.Some? then Ok(s.database.value)
    else if made.None? then Err(ConstructionFailed)
    else Ok(made.value)
  }

  // ---------------------------------------------------------------------
  // The operations, undisturbed
  // ---------------------------------------------------------------------

  /** The singleton as its operations see it while they hold the lock. */
  class Singleton {
    var database: Option<Adapter>
    var dialect: Option<Kind>
    var listener: Option<Adapter>

    function Contents(): Slots
      reads this
    {
      Slots(database, dialect, listener)
    }

    ghost predicate Valid()
      reads this
    {
      Contents().Settled()
    }

    constructor ()
      ensures Valid() && Contents() == EMPTY
    {
      database, dialect, listener := None, None, None;
    }

    method GetDatabase(made: Option<Adapter>) returns (r: Result<Adapter, DbError>)
      requires Valid()
      modifies this
      ensures Valid() && Contents() == AfterGet(old(Contents()), made)
      ensures r == Got(old(Contents()), made)
      ensures r.Ok? ==> database == Some(r.value)
    {
      if database.Some? {
        return Ok(database.value);
      }
      if made.None? {
        return Err(ConstructionFailed);
      }
      database := Some(made.value);
      dialect := Some(made.value.kind);
      if made.value.kind == Postgres {
        listener := Some(made.value);
      }
      r := Ok(made.value);
    }

    method GetDialect(made: Option<Adapter>) returns (r: Result<Kind, DbError>)
      requires Valid()
      modifies this
      ensures Valid() && Contents() == AfterGet(old(Contents()), made)
      ensures r == match Got(old(Contents()), made) case Ok(a) => Ok(a.kind) case Err(e) => Err(e)
    {
      if dialect.Some? {
        return Ok(dialect.value);
      }
      var got := GetDatabase(made);
      if got.Err? {
        return Err(got.error);
      }
      r := if dialect.Some? then Ok(dialect.value) else Err(DialectNotInitialized);
    }

    method GetDbNotificationListener(urlSet: bool, made: Option<Adapter>) returns (r: Result<Option<Adapter>, DbError>)
      requires Valid()
      modifies this
      ensures Valid() && Contents() == if urlSet then AfterGet(old(Contents()), made) else old(Contents())
      ensures !urlSet ==> r == Ok(None)
      ensures urlSet ==> r == match Got(old(Contents()), made)
                              case Ok(a) => Ok(if a.kind.Postgres? then Some(a) else None)
                              case Err(e) => Err(e)
    {
      if !urlSet {
        return Ok(None);
      }
      var got := GetDatabase(made);
      if got.Err? {
        return Err(got.error);
      }
      r := Ok(listener);
    }

    /** What `close_database` does under the lock, and all that `reset_database` does. */
    method Clear() returns (old_: Option<Adapter>)
      modifies this
      ensures Valid() && Contents() == EMPTY && old_ == old(database)
    {
      old_ := database;
      database := None;
      dialect := None;
      listener := None;
    }
  }

  // ---------------------------------------------------------------------
  // The operations of many tasks, interleaved
  // ---------------------------------------------------------------------

  type Tid = nat

  datatype Op = GetDatabase | GetDialect | GetListener | Close | Reset

  /** What a task calls `get_database` for. */
  datatype Purpose = ForDatabase | ForDialect | ForListener

  /** Where a task stands. From `GetCheck` to `GetReturn`, in the two reads and in the three clears it
      holds the lock. */
  datatype Pc =
    | Idle
    | GetLock(p: Purpose)
    | GetCheck(p: Purpose)
    | Constructing(p: Purpose, kind: Kind)
    | SetDatabase(p: Purpose, a: Adapter)
    | SetDialect(p: Purpose, a: Adapter)
    | SetListener(p: Purpose, a: Adapter)
    | GetReturn(p: Purpose, a: Adapter)
    | DialectLock(again: bool)
    | DialectRead(again: bool)
    | ListenerLock
    | ListenerRead
    | ClearLock(closing: bool)
    | ClearDatabase(closing: bool)
    | ClearDialect(closing: bool, taken: Option<Adapter>)
    | ClearListener(closing: bool, taken: Option<Adapter>)
    | Closing(a: Adapter)
  {
    predicate Holds() {
      || GetCheck? || Constructing? || SetDatabase? || SetDialect? || SetListener? || GetReturn?
      || DialectRead? || ListenerRead? || ClearDatabase? || ClearDialect? || ClearListener?
    }
  }

  datatype Event =
    | Installed(a: Adapter)
    | Handed(t: Tid, a: Adapter)
    | Cleared(taken: Option<Adapter>, closing: bool)
    | CloseCalled(a: Adapter)
    | DialectAnswered(t: Tid, dialect: Option<Kind>)
    | ListenerAnswered(t: Tid, listener: Option<Adapter>)
    | GaveUp(t: Tid)

  /** The lock, the slots, the environment, where every task stands, and what has happened. */
  datatype State = State(lock: Option<Tid>, slots: Slots, urlSet: bool, pcs: map<Tid, Pc>, made: nat, log: seq<Event>)
  {
    function At(t: Tid): Pc {
      if t in pcs then pcs[t] else Idle
    }

    function Goto(t: Tid, pc: Pc): State {
      this.(pcs := pcs[t := pc])
    }

    function Acquire(t: Tid, pc: Pc): State {
      if lock.None? then this.(lock := Some(t)).Goto(t, pc) else this
    }

    function Release(t: Tid, pc: Pc): State {
      this.(lock := None).Goto(t, pc)
    }

    function Log(e: Event): State {
      this.(log := log + [e])
    }
  }

  const INITIAL := State(None, EMPTY, false, map[], 0, [])

  /** What a task does next: start an operation, take its next step, or find its construction failed
      or cancelled. The environment may also change whether a database URL is set. */
  datatype Move = Begin(op: Op) | Go | Fail | ChangeUrl

  function Continuation(p: Purpose): Pc {
    match p
    case ForDatabase => Idle
    case ForDialect => DialectLock(true)
    case ForListener => ListenerLock
  }

  function StartOf(s: State, t: Tid, op: Op): State {
    match op
    case GetDatabase => s.Goto(t, GetLock(ForDatabase))
    case GetDialect => s.Goto(t, DialectLock(false))
    case GetListener => if s.urlSet then s.Goto(t, GetLock(ForListener)) else s.Log(ListenerAnswered(t, None))
    case Close => s.Goto(t, ClearLock(true))
    case Reset => s.Goto(t, ClearLock(false))
  }

  function Advance(s: State, t: Tid): State {
    match s.At(t)
    case Idle => s
    case GetLock(p) => s.Acquire(t, GetCheck(p))
    case DialectLock(again) => s.Acquire(t, DialectRead(again))
    case ListenerLock => s.Acquire(t, ListenerRead)
    case ClearLock(closing) => s.Acquire(t, ClearDatabase(closing))
    case Closing(a) => s.Log(CloseCalled(a)).Goto(t, Idle)
    case _ => AdvanceHolding(s, t)
  }

  /** The steps of a task that holds the lock: one slot at a time. */
  function AdvanceHolding(s: State, t: Tid): State {
    match s.At(t)
    case GetCheck(p) =>
      if s.slots.database.Some? then s.Log(Handed(t, s.slots.database.value)).Release(t, Continuation(p))
      else s.Goto(t, Constructing(p, if s.urlSet then Postgres else Sqlite))
    case Constructing(p, kind) => s.(made := s.made + 1).Goto(t, SetDatabase(p, Adapter(s.made, kind)))
    case SetDatabase(p, a) => s.(slots := s.slots.(database := Some(a))).Log(Installed(a)).Goto(t, SetDialect(p, a))
    case SetDialect(p, a) =>
      var next := if a.kind.Postgres? then SetListener(p, a) else GetReturn(p, a);
      s.(slots := s.slots.(dialect := Some(a.kind))).Goto(t, next)
    case SetListener(p, a) => s.(slots := s.slots.(listener := Some(a))).Goto(t, GetReturn(p, a))
    case GetReturn(p, a) => s.Log(Handed(t, a)).Release(t, Continuation(p))
    case DialectRead(again) =>
      if s.slots.dialect.None? && !again then s.Release(t, GetLock(ForDialect))
      else s.Log(DialectAnswered(t, s.slots.dialect)).Release(t, Idle)
    case ListenerRead => s.Log(ListenerAnswered(t, s.slots.listener)).Release(t, Idle)
    case ClearDatabase(closing) =>
      var taken := s.slots.database;
      s.(slots := s.slots.(database := None)).Log(Cleared(taken, closing)).Goto(t, ClearDialect(closing, taken))
    case ClearDialect(closing, taken) => s.(slots := s.slots.(dialect := None)).Goto(t, ClearListener(closing, taken))
    case ClearListener(closing, taken) =>
      s.(slots := s.slots.(listener := None)).Release(t, if closing && taken.Some? then Closing(taken.value) else Idle)
    case _ => s
  }

  /** One step; a move that a task cannot make leaves everything as it is. */
  function Step(s: State, t: Tid, m: Move): State {
    match m
    case Begin(op) => if s.At(t).Idle? then StartOf(s, t, op) else s
    case Go => Advance(s, t)
    case Fail => if s.At(t).Constructing? then s.Log(GaveUp(t)).Release(t, Idle) else s
    case ChangeUrl => s.(urlSet := !s.urlSet)
  }

  /** The state after a sequence of moves: every interleaving is one. */
  function After(moves: seq<(Tid, Move)>): State {
    if |moves| == 0 then INITIAL
    else Step(After(moves[..|moves| - 1]), moves[|moves| - 1].0, moves[|moves| - 1].1)
  }

  // ---------------------------------------------------------------------
  // What has happened
  // ---------------------------------------------------------------------

  /** The adapter that was installed and not cleared since. */
  function Current(log: seq<Event>): Option<Adapter> {
    if |log| == 0 then None
    else
      match log[|log| - 1]
      case Installed(a) => Some(a)
      case Cleared(_, _) => None
      case _ => Current(log[..|log| - 1])
  }

  predicate Happened(log: seq<Event>, e: Event) {
    |log| > 0 && (log[|log| - 1] == e || Happened(log[..|log| - 1], e))
  }

  predicate EverHanded(log: seq<Event>, t: Tid) {
    |log| > 0 && ((log[|log| - 1].Handed? && log[|log| - 1].t == t) || EverHanded(log[..|log| - 1], t))
  }

  /** All adapters installed so far have smaller numbers. */
  predicate AllBelow(log: seq<Event>, n: int) {
    |log| > 0 ==> AllBelow(log[..|log| - 1], n) && (log[|log| - 1].Installed? ==> log[|log| - 1].a.id < n)
  }

  function Installs(log: seq<Event>): nat {
    if |log| == 0 then 0 else Installs(log[..|log| - 1]) + (if log[|log| - 1].Installed? then 1 else 0)
  }

  /** An event agrees with what happened before it. */
  predicate Agrees(log: seq<Event>, e: Event) {
    match e
    case Installed(a) => Current(log).None? && AllBelow(log, a.id)
    case Handed(_, a) => Current(log) == Some(a)
    case Cleared(taken, _) => taken == Current(log)
    case DialectAnswered(t, d) =>
      && d == (if Current(log).Some? then Some(Current(log).value.kind) else None)
      && (d.None? ==> EverHanded(log, t))
    case ListenerAnswered(_, l) => l.Some? ==> l == Current(log) && l.value.kind.Postgres?
    case CloseCalled(a) => Happened(log, Cleared(Some(a), true))
    case GaveUp(_) => true
  }

  predicate Orderly(log: seq<Event>) {
    |log| > 0 ==> Orderly(log[..|log| - 1]) && Agrees(log[..|log| - 1], log[|log| - 1])
  }

  // ---------------------------------------------------------------------
  // The invariant
  // ---------------------------------------------------------------------

  /** Exactly the holder of the lock is inside a critical section. */
  ghost predicate Exclusive(s: State) {
    forall t: Tid :: s.At(t).Holds() <==> s.lock == Some(t)
  }

  /** The slots, as far as the holder of the lock has got. */
  predicate SlotsFit(s: State, pc: Pc) {
    match pc
    case Constructing(_, _) => s.slots == EMPTY
    case SetDatabase(_, a) => s.slots == EMPTY && a.id + 1 == s.made
    case SetDialect(_, a) => s.slots == Slots(Some(a), None, None)
    case SetListener(_, a) => a.kind.Postgres? && s.slots == Slots(Some(a), Some(Postgres), None)
    case GetReturn(_, a) => s.slots == Holding(a)
    case ClearDialect(_, _) => s.slots.database.None?
    case ClearListener(_, _) => s.slots.database.None? && s.slots.dialect.None?
    case _ => s.slots.Settled()
  }

  predicate Coherent(s: State) {
    SlotsFit(s, if s.lock.None? then Idle else s.At(s.lock.value))
  }

  /** How many adapters have been installed. */
  function Bound(s: State): int {
    if s.lock.Some? && s.At(s.lock.value).SetDatabase? then s.made - 1 else s.made
  }

  /** Every adapter that was made is installed, or about to be; one that is still to be installed is
      new. */
  predicate Numbered(s: State) {
    AllBelow(s.log, Bound(s)) && Installs(s.log) == Bound(s)
  }

  /** What a task knows to have happened: who closes an adapter has taken it, and who reads the
      dialect again has been handed a database. */
  predicate Remembers(log: seq<Event>, t: Tid, pc: Pc) {
    match pc
    case DialectLock(true) => EverHanded(log, t)
    case DialectRead(true) => EverHanded(log, t)
    case Closing(a) => Happened(log, Cleared(Some(a), true))
    case ClearDialect(true, Some(a)) => Happened(log, Cleared(Some(a), true))
    case ClearListener(true, Some(a)) => Happened(log, Cleared(Some(a), true))
    case _ => true
  }

  ghost predicate Closers(s: State) {
    forall t: Tid :: Remembers(s.log, t, s.At(t))
  }

  ghost predicate Inv(s: State) {
    Exclusive(s) && Coherent(s) && Numbered(s) && Closers(s) && Orderly(s.log) && s.slots.database == Current(s.log)
  }

  /** The adapter that is current behind an event. */
  function CurrentAfter(log: seq<Event>, e: Event): Option<Adapter> {
    match e
    case Installed(a) => Some(a)
    case Cleared(_, _) => None
    case _ => Current(log)
  }

  lemma Logged(log: seq<Event>, e: Event, n: int)
    ensures Orderly(log + [e]) <==> Orderly(log) && Agrees(log, e)
    ensures AllBelow(log + [e], n) <==> AllBelow(log, n) && (e.Installed? ==> e.a.id < n)
    ensures Current(log + [e]) == CurrentAfter(log, e)
    ensures Installs(log + [e]) == Installs(log) + (if e.Installed? then 1 else 0)
  {
    assert (log + [e])[..|log + [e]| - 1] == log;
  }

  lemma HappenedLater(log: seq<Event>, e: Event, f: Event)
    ensures Happened(log + [f], e) <==> e == f || Happened(log, e)
  {
    assert (log + [f])[..|log + [f]| - 1] == log;
  }

  lemma HandedLater(log: seq<Event>, t: Tid, f: Event)
    ensures EverHanded(log + [f], t) <==> (f.Handed? && f.t == t) || EverHanded(log, t)
  {
    assert (log + [f])[..|log + [f]| - 1] == log;
  }

  lemma {:induction false} AllBelowMore(log: seq<Event>, m: int, n: int)
    requires AllBelow(log, m) && m <= n
    ensures AllBelow(log, n)
  {
    if |log| > 0 {
      AllBelowMore(log[..|log| - 1], m, n);
    }
  }

  /** A step of one task concerns no other: it may take the lock if it is free, and give it back if
      the task has it. */
  ghost predicate Local(s: State, t: Tid, s2: State) {
    && (forall u: Tid :: u != t ==> s2.At(u) == s.At(u))
    && (s2.lock == s.lock || (s.lock.None? && s2.lock == Some(t)) || (s.lock == Some(t) && s2.lock.None?))
    && (s2.At(t).Holds() <==> s2.lock == Some(t))
  }

  lemma LocalIsExclusive(s: State, t: Tid, s2: State)
    requires Exclusive(s) && Local(s, t, s2)
    ensures Exclusive(s2)
  {
    forall u: Tid
      ensures s2.At(u).Holds() <==> s2.lock == Some(u)
    {
      assert s.At(u).Holds() <==> s.lock == Some(u);
      assert s.At(t).Holds() <==> s.lock == Some(t);
    }
  }

  lemma RemembersLater(log: seq<Event>, f: Event, t: Tid, pc: Pc)
    requires Remembers(log, t, pc)
    ensures Remembers(log + [f], t, pc)
  {
    hide Happened, EverHanded;
    match pc
    case DialectLock(true) => HandedLater(log, t, f);
    case DialectRead(true) => HandedLater(log, t, f);
    case Closing(a) => HappenedLater(log, Cleared(Some(a), true), f);
    case ClearDialect(true, Some(a)) => HappenedLater(log, Cleared(Some(a), true), f);
    case ClearListener(true, Some(a)) => HappenedLater(log, Cleared(Some(a), true), f);
    case _ =>
  }

  lemma ClosersLater(s: State, t: Tid, s2: State, e: Event)
    requires Closers(s) && Local(s, t, s2) && s2.log == s.log + [e] && Remembers(s2.log, t, s2.At(t))
    ensures Closers(s2)
  {
    hide Remembers;
    forall u: Tid
      ensures Remembers(s2.log, u, s2.At(u))
    {
      assert Remembers(s.log, u, s.At(u));
      RemembersLater(s.log, e, u, s.At(u));
    }
  }

  lemma ClosersStay(s: State, t: Tid, s2: State)
    requires Closers(s) && Local(s, t, s2) && s2.log == s.log && Remembers(s2.log, t, s2.At(t))
    ensures Closers(s2)
  {
    hide Remembers;
    forall u: Tid
      ensures Remembers(s2.log, u, s2.At(u))
    {
      assert Remembers(s.log, u, s.At(u));
    }
  }

  /** A step that logs nothing. */
  lemma QuietKeepsInv(s: State, t: Tid, s2: State)
    requires Inv(s) && Local(s, t, s2) && Remembers(s2.log, t, s2.At(t))
    requires s2.log == s.log && s2.slots.database == s.slots.database && Bound(s2) == Bound(s)
    requires Coherent(s2)
    ensures Inv(s2)
  {
    hide Happened, EverHanded, Installs, Orderly, Current, Coherent, Local, Remembers, AllBelow;
    LocalIsExclusive(s, t, s2);
    ClosersStay(s, t, s2);
    AllBelowMore(s.log, Bound(s), Bound(s2));
  }

  /** A step that logs an event. */
  lemma LoggingKeepsInv(s: State, t: Tid, s2: State, e: Event)
    requires Inv(s) && Local(s, t, s2) && Remembers(s2.log, t, s2.At(t))
    requires s2.log == s.log + [e] && Agrees(s.log, e) && s2.slots.database == CurrentAfter(s.log, e)
    requires Bound(s2) == Bound(s) + (if e.Installed? then 1 else 0) && (e.Installed? ==> e.a.id < Bound(s2))
    requires Coherent(s2)
    ensures Inv(s2)
  {
    hide Happened, EverHanded, Installs, Orderly, Current, CurrentAfter, Coherent, Local, Remembers, AllBelow, Agrees;
    LocalIsExclusive(s, t, s2);
    ClosersLater(s, t, s2, e);
    AllBelowMore(s.log, Bound(s), Bound(s2));
    Logged(s.log, e, Bound(s2));
  }

  lemma BeginKeepsInv(s: State, t: Tid, op: Op)
    requires Inv(s) && s.At(t).Idle?
    ensures Inv(StartOf(s, t, op))
  {
    hide Happened, EverHanded, Installs, Orderly, Current, AllBelow;
    assert Local(s, t, StartOf(s, t, op)) && Coherent(StartOf(s, t, op));
    hide Coherent, Local;
    if op.GetListener? && !s.urlSet {
      LoggingKeepsInv(s, t, StartOf(s, t, op), ListenerAnswered(t, None));
    } else {
      QuietKeepsInv(s, t, StartOf(s, t, op));
    }
  }

  lemma ClosingKeepsInv(s: State, t: Tid)
    requires Inv(s) && s.At(t).Closing?
    ensures Inv(Advance(s, t))
  {
    hide Happened, EverHanded, Installs, Orderly, Current, AllBelow;
    assert Remembers(s.log, t, s.At(t));
    LoggingKeepsInv(s, t, Advance(s, t), CloseCalled(s.At(t).a));
  }

  lemma AcquireKeepsInv(s: State, t: Tid)
    requires Inv(s) && !s.At(t).Holds() && !s.At(t).Closing?
    ensures Inv(Advance(s, t))
  {
    hide Happened, EverHanded, Installs, Orderly, Current, AllBelow;
    assert Local(s, t, Advance(s, t)) && Remembers(s.log, t, s.At(t));
    QuietKeepsInv(s, t, Advance(s, t));
  }

  lemma SettingKeepsInv(s: State, t: Tid)
    requires Inv(s)
    requires s.At(t).Constructing? || s.At(t).SetDialect? || s.At(t).SetListener?
    ensures Inv(AdvanceHolding(s, t))
  {
    hide Happened, EverHanded, Installs, Orderly, Current, AllBelow;
    assert s.lock == Some(t);
    QuietKeepsInv(s, t, AdvanceHolding(s, t));
  }

  lemma InstallingKeepsInv(s: State, t: Tid)
    requires Inv(s) && s.At(t).SetDatabase?
    ensures Inv(AdvanceHolding(s, t))
  {
    hide Happened, EverHanded, Installs, Orderly, Current, AllBelow;
    assert s.lock == Some(t);
    LoggingKeepsInv(s, t, AdvanceHolding(s, t), Installed(s.At(t).a));
  }

  /** A step that answers and gives the lock back. */
  lemma AnswerKeepsInv(s: State, t: Tid, e: Event, pc: Pc)
    requires Inv(s) && s.lock == Some(t) && s.slots.Settled() && !s.At(t).SetDatabase?
    requires Agrees(s.log, e) && !e.Installed? && !e.Cleared? && !pc.Holds() && !pc.Closing?
    requires pc == DialectLock(true) ==> e.Handed? && e.t == t
    ensures Inv(s.Log(e).Release(t, pc))
  {
    hide Happened, EverHanded, Installs, Orderly, Current, AllBelow, Agrees;
    HandedLater(s.log, t, e);
    LoggingKeepsInv(s, t, s.Log(e).Release(t, pc), e);
  }

  lemma ReturningKeepsInv(s: State, t: Tid)
    requires Inv(s)
    requires s.At(t).GetCheck? || s.At(t).GetReturn? || s.At(t).DialectRead? || s.At(t).ListenerRead?
    ensures Inv(AdvanceHolding(s, t))
  {
    hide Happened, EverHanded, Installs, Orderly, Current, AllBelow;
    assert s.lock == Some(t) && Remembers(s.log, t, s.At(t));
    match s.At(t)
    case GetCheck(p) =>
      if s.slots.database.Some? {
        AnswerKeepsInv(s, t, Handed(t, s.slots.database.value), Continuation(p));
      } else {
        QuietKeepsInv(s, t, AdvanceHolding(s, t));
      }
    case GetReturn(p, a) => AnswerKeepsInv(s, t, Handed(t, a), Continuation(p));
    case DialectRead(again) =>
      if s.slots.dialect.None? && !again {
        QuietKeepsInv(s, t, AdvanceHolding(s, t));
      } else {
        AnswerKeepsInv(s, t, DialectAnswered(t, s.slots.dialect), Idle);
      }
    case ListenerRead => AnswerKeepsInv(s, t, ListenerAnswered(t, s.slots.listener), Idle);
  }

  lemma TakingKeepsInv(s: State, t: Tid)
    requires Inv(s) && s.At(t).ClearDatabase?
    ensures Inv(AdvanceHolding(s, t))
  {
    hide Happened, EverHanded, Installs, Orderly, Current, AllBelow;
    assert s.lock == Some(t);
    HappenedLater(s.log, Cleared(s.slots.database, s.At(t).closing), Cleared(s.slots.database, s.At(t).closing));
    LoggingKeepsInv(s, t, AdvanceHolding(s, t), Cleared(s.slots.database, s.At(t).closing));
  }

  lemma ClearingKeepsInv(s: State, t: Tid)
    requires Inv(s)
    requires s.At(t).ClearDialect? || s.At(t).ClearListener?
    ensures Inv(AdvanceHolding(s, t))
  {
    hide Happened, EverHanded, Installs, Orderly, Current, AllBelow;
    assert s.lock == Some(t);
    assert Remembers(s.log, t, s.At(t));
    QuietKeepsInv(s, t, AdvanceHolding(s, t));
  }

  lemma FailingKeepsInv(s: State, t: Tid)
    requires Inv(s) && s.At(t).Constructing?
    ensures Inv(s.Log(GaveUp(t)).Release(t, Idle))
  {
    hide Happened, EverHanded, Installs, Orderly, Current, AllBelow;
    assert s.lock == Some(t);
    AnswerKeepsInv(s, t, GaveUp(t), Idle);
  }

  lemma StepKeepsInv(s: State, t: Tid, m: Move)
    requires Inv(s)
    ensures Inv(Step(s, t, m))
  {
    hide Inv, AdvanceHolding, StartOf;
    match m
    case Begin(op) =>
      if s.At(t).Idle? {
        BeginKeepsInv(s, t, op);
      }
    case Go =>
      var pc := s.At(t);
      if pc.Closing? {
        ClosingKeepsInv(s, t);
      } else if !pc.Holds() {
        AcquireKeepsInv(s, t);
      } else if pc.GetCheck? || pc.GetReturn? || pc.DialectRead? || pc.ListenerRead? {
        ReturningKeepsInv(s, t);
      } else if pc.ClearDatabase? {
        TakingKeepsInv(s, t);
      } else if pc.ClearDialect? || pc.ClearListener? {
        ClearingKeepsInv(s, t);
      } else if pc.SetDatabase? {
        InstallingKeepsInv(s, t);
      } else {
        SettingKeepsInv(s, t);
      }
    case Fail =>
      if s.At(t).Constructing? {
        FailingKeepsInv(s, t);
      }
    case ChangeUrl =>
      UrlIsFree(s);
  }

  lemma UrlIsFree(s: State)
    requires Inv(s)
    ensures Inv(s.(urlSet := !s.urlSet))
  {
    var s2 := s.(urlSet := !s.urlSet);
    assert forall t: Tid :: s2.At(t) == s.At(t);
    hide Happened, Orderly, Current;
    assert Exclusive(s2) && Closers(s2) && Coherent(s2) && Numbered(s2);
  }

  lemma {:induction false} AlwaysInv(moves: seq<(Tid, Move)>)
    ensures Inv(After(moves))
  {
    if |moves| > 0 {
      AlwaysInv(moves[..|moves| - 1]);
      StepKeepsInv(After(moves[..|moves| - 1]), moves[|moves| - 1].0, moves[|moves| - 1].1);
    }
  }

  // ---------------------------------------------------------------------
  // What holds of every interleaving
  // ---------------------------------------------------------------------

  lemma {:induction false} OrderlyPrefix(log: seq<Event>, k: nat)
    requires Orderly(log) && k <= |log|
    ensures Orderly(log[..k]) && (k < |log| ==> Agrees(log[..k], log[k]))
    decreases |log|
  {
    if k < |log| {
      var n := |log| - 1;
      assert log[..n][..k] == log[..k];
      OrderlyPrefix(log[..n], k);
    } else {
      assert log[..k] == log;
    }
  }

  /** Whenever the lock is free, the slots are in order: database and dialect both set or both empty,
      and the listener the same adapter as a Postgres database. */
  lemma SlotsMoveTogether(moves: seq<(Tid, Move)>)
    requires After(moves).lock.None?
    ensures var s := After(moves).slots;
            && (s.database.Some? <==> s.dialect.Some?)
            && (s.database.Some? && s.database.value.kind.Postgres? ==> s.listener == s.database)
            && (s.listener.Some? ==> s.listener == s.database)
  {
    AlwaysInv(moves);
  }

  function NonEmptyClears(log: seq<Event>): nat {
    if |log| == 0 then 0
    else NonEmptyClears(log[..|log| - 1]) + (if log[|log| - 1].Cleared? && log[|log| - 1].taken.Some? then 1 else 0)
  }

  lemma {:induction false} OrderlyBalance(log: seq<Event>)
    requires Orderly(log)
    ensures Installs(log) == NonEmptyClears(log) + (if Current(log).Some? then 1 else 0)
  {
    if |log| > 0 {
      OrderlyBalance(log[..|log| - 1]);
    }
  }

  /** Every adapter that was constructed was installed, and every one but the present one was cleared
      once: no two racing callers ever construct one each. */
  lemma ConstructionsBalance(moves: seq<(Tid, Move)>)
    ensures var s := After(moves);
            && Installs(s.log) == NonEmptyClears(s.log) + (if s.slots.database.Some? then 1 else 0)
            && (s.lock.None? ==> s.made == Installs(s.log))
  {
    AlwaysInv(moves);
    OrderlyBalance(After(moves).log);
  }

  ghost predicate NoClear(log: seq<Event>, i: nat, j: nat)
    requires j <= |log|
  {
    forall k :: i <= k < j ==> !log[k].Cleared?
  }

  lemma CurrentStep(log: seq<Event>, k: nat)
    requires k < |log|
    ensures Current(log[..k + 1]) == CurrentAfter(log[..k], log[k])
  {
    assert log[..k + 1][..k] == log[..k];
  }

  lemma {:induction false} CurrentStays(log: seq<Event>, i: nat, j: nat)
    requires Orderly(log) && i <= j <= |log| && Current(log[..i]).Some? && NoClear(log, i, j)
    ensures Current(log[..j]) == Current(log[..i])
    decreases j - i
  {
    if i < j {
      CurrentStays(log, i, j - 1);
      OrderlyPrefix(log, j - 1);
      CurrentStep(log, j - 1);
    }
  }

  /** Calls of `get_database` with no clear between them return the same adapter. */
  lemma SameUntilCleared(moves: seq<(Tid, Move)>, i: nat, j: nat)
    requires i <= j < |After(moves).log| && After(moves).log[i].Handed? && After(moves).log[j].Handed?
    requires NoClear(After(moves).log, i, j)
    ensures After(moves).log[i].a == After(moves).log[j].a
  {
    var log := After(moves).log;
    AlwaysInv(moves);
    OrderlyPrefix(log, i);
    OrderlyPrefix(log, j);
    CurrentStays(log, i, j);
  }

  lemma {:induction false} CurrentIsBelow(log: seq<Event>, n: int)
    requires AllBelow(log, n) && Current(log).Some?
    ensures Current(log).value.id < n
  {
    if |log| > 0 && !log[|log| - 1].Installed? {
      CurrentIsBelow(log[..|log| - 1], n);
    }
  }

  lemma {:induction false} BelowPrefix(log: seq<Event>, k: nat, n: int)
    requires AllBelow(log, n) && k <= |log|
    ensures AllBelow(log[..k], n)
  {
    if k < |log| {
      assert log[..|log| - 1][..k] == log[..k];
      BelowPrefix(log[..|log| - 1], k, n);
    } else {
      assert log[..k] == log;
    }
  }

  lemma {:induction false} LaterIsNewer(log: seq<Event>, i: nat, j: nat)
    requires Orderly(log) && i < j <= |log| && log[i].Cleared? && log[i].taken.Some?
    ensures Current(log[..j]).Some? ==> Current(log[..j]).value.id > log[i].taken.value.id
    decreases j
  {
    CurrentStep(log, j - 1);
    OrderlyPrefix(log, j - 1);
    if j > i + 1 {
      LaterIsNewer(log, i, j - 1);
      if log[j - 1].Installed? {
        var n := log[j - 1].a.id;
        OrderlyPrefix(log, i);
        BelowPrefix(log[..j - 1], i, n);
        assert log[..j - 1][..i] == log[..i];
        CurrentIsBelow(log[..i], n);
      }
    }
  }

  /** Once `close_database` or `reset_database` has taken an adapter, nobody is handed it any more. */
  lemma NeverHandedAfterwards(moves: seq<(Tid, Move)>, i: nat, j: nat)
    requires i < j < |After(moves).log| && After(moves).log[i].Cleared? && After(moves).log[j].Handed?
    ensures After(moves).log[i].taken != Some(After(moves).log[j].a)
  {
    var log := After(moves).log;
    AlwaysInv(moves);
    OrderlyPrefix(log, j);
    if log[i].taken.Some? {
      LaterIsNewer(log, i, j);
    }
  }

  lemma {:induction false} HappenedAt(log: seq<Event>, e: Event) returns (i: nat)
    requires Happened(log, e)
    ensures i < |log| && log[i] == e
  {
    if log[|log| - 1] == e {
      i := |log| - 1;
    } else {
      i := HappenedAt(log[..|log| - 1], e);
    }
  }

  /** An adapter whose `close` has been called was taken before, by that close. */
  lemma ClosedWasTaken(moves: seq<(Tid, Move)>, j: nat) returns (i: nat)
    requires j < |After(moves).log| && After(moves).log[j].CloseCalled?
    ensures i < j && After(moves).log[i] == Cleared(Some(After(moves).log[j].a), true)
  {
    AlwaysInv(moves);
    OrderlyPrefix(After(moves).log, j);
    i := HappenedAt(After(moves).log[..j], Cleared(Some(After(moves).log[j].a), true));
  }

  /** A listener that is returned is the adapter that is installed, and a Postgres one. */
  lemma ListenerIsTheDatabase(moves: seq<(Tid, Move)>, j: nat)
    requires j < |After(moves).log| && After(moves).log[j].ListenerAnswered? && After(moves).log[j].listener.Some?
    ensures var l := After(moves).log[j].listener;
            l == Current(After(moves).log[..j]) && l.value.kind.Postgres?
  {
    AlwaysInv(moves);
    OrderlyPrefix(After(moves).log, j);
  }

  // ---------------------------------------------------------------------
  // "Database dialect not initialized"
  // ---------------------------------------------------------------------

  /** An adapter was cleared after the task was last handed one. */
  predicate ClearedSince(log: seq<Event>, t: Tid) {
    |log| > 0 &&
    var e := log[|log| - 1];
    if e.Handed? && e.t == t then false
    else (e.Cleared? && e.taken.Some?) || ClearedSince(log[..|log| - 1], t)
  }

  lemma {:induction false} GoneWasCleared(log: seq<Event>, t: Tid)
    requires Orderly(log) && EverHanded(log, t) && Current(log).None?
    ensures ClearedSince(log, t)
  {
    var e := log[|log| - 1];
    var before := log[..|log| - 1];
    if !e.Handed? && !(e.Cleared? && e.taken.Some?) {
      GoneWasCleared(before, t);
    }
  }

  /** `get_dialect` answers that there is no dialect exactly when no adapter is installed at its
      second look; that takes a close or reset between its own call of `get_database` and that look. */
  lemma DialectFailsOnlyInARace(moves: seq<(Tid, Move)>, j: nat)
    requires j < |After(moves).log| && After(moves).log[j].DialectAnswered?
    ensures var e := After(moves).log[j];
            && (e.dialect.None? <==> Current(After(moves).log[..j]).None?)
            && (e.dialect.None? ==> ClearedSince(After(moves).log[..j], e.t))
  {
    var log := After(moves).log;
    AlwaysInv(moves);
    OrderlyPrefix(log, j);
    if log[j].dialect.None? {
      GoneWasCleared(log[..j], log[j].t);
    }
  }

  lemma AfterOneMore(moves: seq<(Tid, Move)>, t: Tid, m: Move)
    ensures After(moves + [(t, m)]) == Step(After(moves), t, m)
  {
    assert (moves + [(t, m)])[..|moves|] == moves;
  }

  function Steps(s: State, t: Tid, n: nat): State
    decreases n
  {
    if n == 0 then s else Step(Steps(s, t, n - 1), t, Go)
  }

  function Gos(t: Tid, n: nat): seq<(Tid, Move)> {
    seq(n, _ => (t, Go))
  }

  lemma {:induction false} AfterSteps(moves: seq<(Tid, Move)>, t: Tid, n: nat)
    ensures After(moves + Gos(t, n)) == Steps(After(moves), t, n)
  {
    if n == 0 {
      assert moves + Gos(t, 0) == moves;
    } else {
      AfterSteps(moves, t, n - 1);
      assert moves + Gos(t, n) == (moves + Gos(t, n - 1)) + [(t, Go)];
      AfterOneMore(moves + Gos(t, n - 1), t, Go);
    }
  }

  lemma {:induction false} StepsAdd(s: State, t: Tid, m: nat, n: nat)
    ensures Steps(Steps(s, t, m), t, n) == Steps(s, t, m + n)
  {
    hide Step;
    if n > 0 {
      StepsAdd(s, t, m, n - 1);
    }
  }

  lemma OneStep(s: State, t: Tid)
    ensures Steps(s, t, 1) == Advance(s, t)
  {
    assert Steps(s, t, 0) == s;
  }

  lemma TwoSteps(s: State, t: Tid)
    ensures Steps(s, t, 2) == Advance(Advance(s, t), t)
  {
    OneStep(s, t);
    OneStep(Advance(s, t), t);
    StepsAdd(s, t, 1, 1);
    hide Steps, Advance;
  }

  lemma UndisturbedCheck(s: State, t: Tid, p: Purpose)
    requires s.lock.None? && s.At(t) == GetLock(p)
    ensures var s2 := Advance(Advance(s, t), t);
            if s.slots.database.Some? then s2 == s.Log(Handed(t, s.slots.database.value)).(pcs := s2.pcs)
                                           && s2.At(t) == Continuation(p)
            else s2.At(t) == Constructing(p, if s.urlSet then Postgres else Sqlite)
                 && s2 == s.(lock := Some(t), pcs := s2.pcs)
  {
  }

  lemma UndisturbedConstruction(s: State, t: Tid, p: Purpose, kind: Kind)
    requires s.At(t) == Constructing(p, kind)
    ensures var s2 := Advance(Advance(s, t), t);
            var a := Adapter(s.made, kind);
            s2.At(t) == SetDialect(p, a) && s2.slots == s.slots.(database := Some(a))
  {
  }

  lemma UndisturbedSqlite(s: State, t: Tid, p: Purpose, a: Adapter)
    requires s.At(t) == SetDialect(p, a) && a.kind.Sqlite? && s.slots == Slots(Some(a), None, None)
    ensures Returned(Advance(Advance(s, t), t), t, p, a)
  {
  }

  lemma UndisturbedPostgres(s: State, t: Tid, p: Purpose, a: Adapter)
    requires s.At(t) == SetDialect(p, a) && a.kind.Postgres? && s.slots == Slots(Some(a), None, None)
    ensures Returned(Advance(Advance(Advance(s, t), t), t), t, p, a)
  {
  }

  predicate Returned(s: State, t: Tid, p: Purpose, a: Adapter) {
    && s.lock.None? && s.At(t) == Continuation(p) && s.slots == Holding(a)
    && |s.log| > 0 && s.log[|s.log| - 1] == Handed(t, a)
  }

  /** Undisturbed, the steps of a task that wants the database amount to what the class does. */
  lemma UndisturbedGet(s: State, t: Tid, p: Purpose) returns (n: nat)
    requires s.lock.None? && s.At(t) == GetLock(p) && s.slots.Settled()
    ensures var s2 := Steps(s, t, n);
            var made := Adapter(s.made, if s.urlSet then Postgres else Sqlite);
            && s2.slots == AfterGet(s.slots, Some(made))
            && Returned(s2, t, p, Got(s.slots, Some(made)).value)
  {
    n := 2;
    var s2 := Steps(s, t, 2);
    TwoSteps(s, t);
    UndisturbedCheck(s, t, p);
    if s.slots.database.None? {
      var a := Adapter(s.made, if s.urlSet then Postgres else Sqlite);
      hide Advance, Steps;
      UndisturbedConstruction(s2, t, p, a.kind);
      TwoSteps(s2, t);
      StepsAdd(s, t, 2, 2);
      var s4 := Steps(s, t, 4);
      TwoSteps(s4, t);
      StepsAdd(s, t, 4, 2);
      if s.urlSet {
        UndisturbedPostgres(s4, t, p, a);
        OneStep(Steps(s4, t, 2), t);
        StepsAdd(s, t, 6, 1);
        n := 7;
      } else {
        UndisturbedSqlite(s4, t, p, a);
        n := 6;
      }
    }
  }

  /** The same with a construction that fails or is cancelled: an error, and the slots as they were. */
  lemma UndisturbedFailure(s: State, t: Tid, p: Purpose)
    requires s.lock.None? && s.At(t) == GetLock(p) && s.slots.Settled() && s.slots.database.None?
    ensures var s2 := Step(Steps(s, t, 2), t, Fail);
            && s2.lock.None? && s2.At(t) == Idle
            && s2.slots == AfterGet(s.slots, None) && Got(s.slots, None) == Err(ConstructionFailed)
            && s2.log == s.log + [GaveUp(t)]
  {
    TwoSteps(s, t);
    UndisturbedCheck(s, t, p);
    hide Steps, Advance;
  }

  lemma UndisturbedTake(s: State, t: Tid, closing: bool)
    requires s.lock.None? && s.At(t) == ClearLock(closing)
    ensures var s2 := Advance(Advance(s, t), t);
            && s2.At(t) == ClearDialect(closing, s.slots.database)
            && s2.slots.database.None?
            && s2.log == s.log + [Cleared(s.slots.database, closing)]
  {
  }

  lemma UndisturbedEmpty(s: State, t: Tid, closing: bool, taken: Option<Adapter>)
    requires s.At(t) == ClearDialect(closing, taken) && s.slots.database.None?
    ensures var s2 := Advance(Advance(s, t), t);
            && s2.lock.None? && s2.slots == EMPTY && s2.log == s.log
            && s2.At(t) == (if closing && taken.Some? then Closing(taken.value) else Idle)
  {
  }

  lemma UndisturbedClear(s: State, t: Tid, closing: bool)
    requires s.lock.None? && s.At(t) == ClearLock(closing)
    ensures var s2 := Steps(s, t, 4);
            && s2.lock.None? && s2.slots == EMPTY
            && s2.log == s.log + [Cleared(s.slots.database, closing)]
            && s2.At(t) == (if closing && s.slots.database.Some? then Closing(s.slots.database.value) else Idle)
  {
    TwoSteps(s, t);
    TwoSteps(Steps(s, t, 2), t);
    StepsAdd(s, t, 2, 2);
    hide Steps, Advance;
    UndisturbedTake(s, t, closing);
    UndisturbedEmpty(Steps(s, t, 2), t, closing, s.slots.database);
  }

  lemma {:induction false} OthersStay(s: State, t: Tid, n: nat, u: Tid)
    requires u != t
    ensures Steps(s, t, n).At(u) == s.At(u)
  {
    hide Advance;
    if n > 0 {
      OthersStay(s, t, n - 1, u);
      AdvanceIsLocal(Steps(s, t, n - 1), t, u);
    }
  }

  lemma AdvanceIsLocal(s: State, t: Tid, u: Tid)
    requires u != t
    ensures Advance(s, t).At(u) == s.At(u)
  {
    HoldingIsLocal(s, t, u);
    hide AdvanceHolding;
  }

  lemma HoldingIsLocal(s: State, t: Tid, u: Tid)
    requires u != t
    ensures AdvanceHolding(s, t).At(u) == s.At(u)
  {
  }

  lemma FirstLook(s: State, t: Tid)
    requires s.lock.None? && s.At(t) == DialectLock(false) && s.slots == EMPTY
    ensures var s2 := Steps(s, t, 2);
            s2.lock.None? && s2.At(t) == GetLock(ForDialect) && s2.slots == EMPTY
  {
    TwoSteps(s, t);
    hide Steps;
  }

  lemma SecondLook(s: State, t: Tid)
    requires s.lock.None? && s.At(t) == DialectLock(true) && s.slots == EMPTY
    ensures Steps(s, t, 2).log == s.log + [DialectAnswered(t, None)]
  {
    TwoSteps(s, t);
    hide Steps;
  }

  /** The race does happen: a task asks for the dialect, and another one closes the database just
      before the second look. */
  lemma DialectRaceHappens() returns (moves: seq<(Tid, Move)>)
    ensures var log := After(moves).log;
            |log| > 0 && log[|log| - 1] == DialectAnswered(0, None)
  {
    hide After, Steps;
    var starts := RaceStarts();
    var s := After(starts);
    var n := RaceFrom(s);
    AfterSteps(starts, 0, 2 + n);
    AfterSteps(starts + Gos(0, 2 + n), 1, 4);
    AfterSteps(starts + Gos(0, 2 + n) + Gos(1, 4), 0, 2);
    moves := starts + Gos(0, 2 + n) + Gos(1, 4) + Gos(0, 2);
  }

  lemma RaceStarts() returns (moves: seq<(Tid, Move)>)
    ensures var s := After(moves);
            s.lock.None? && s.At(0) == DialectLock(false) && s.At(1) == ClearLock(true) && s.slots == EMPTY
  {
    var first: seq<(Tid, Move)> := [] + [(0, Begin(Op.GetDialect))];
    assert After([]) == INITIAL;
    AfterOneMore([], 0, Begin(Op.GetDialect));
    AfterOneMore(first, 1, Begin(Op.Close));
    hide After;
    moves := first + [(1, Begin(Op.Close))];
    assert After(first) == INITIAL.Goto(0, DialectLock(false));
    assert After(first).At(1) == Idle;
    assert After(moves) == After(first).Goto(1, ClearLock(true));
  }

  lemma RaceFrom(s: State) returns (n: nat)
    requires s.lock.None? && s.At(0) == DialectLock(false) && s.At(1) == ClearLock(true) && s.slots == EMPTY
    ensures var log := Steps(Steps(Steps(s, 0, 2 + n), 1, 4), 0, 2).log;
            |log| > 0 && log[|log| - 1] == DialectAnswered(0, None)
  {
    hide Steps;
    FirstLook(s, 0);
    n := UndisturbedGet(Steps(s, 0, 2), 0, ForDialect);
    StepsAdd(s, 0, 2, n);
    OthersStay(s, 0, 2 + n, 1);
    var s2 := Steps(s, 0, 2 + n);
    UndisturbedClear(s2, 1, true);
    OthersStay(s2, 1, 4, 0);
    SecondLook(Steps(s2, 1, 4), 0);
  }
}
