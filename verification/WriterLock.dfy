/** The inter-process writer lock as a machine over processes, threads, forks and open file
    descriptions.  One event is one step that other threads and processes can interleave
    with.  Every read of shared state that a later step relies on is a step of its own: the check of the
    pid, fetching the re-entrant lock, taking it, the file lock, storing the handle, counting. */
module WriterLock {
  import opened Wrappers

  type Pid = nat
  type Tid = nat
  /** An open file description, shared by a process and the children it forks. */
  type Ofd = nat

  /** Where a thread stands.  `MustReset` has seen a foreign `_pid` and is about to discard
      the inherited state; `Waiting` has fetched the re-entrant lock with that number; `Opening` has taken it
      and waits in `flock`; `Locked` has the file lock, `Recorded` has also stored the handle;
      `Unlocking` has given the handle up and is about to unlock the file. */
  datatype Pc =
    | Idle
    | MustReset(acquiring: bool)
    | WantLock
    | Waiting(lock: nat)
    | Opening(file: Ofd)
    | Locked(file: Ofd)
    | Recorded(file: Ofd)
    | Unlocking(file: Ofd)

  /** `blocks` counts the `with` blocks the thread is in, inherited ones included; `inside`
      counts those it entered in this process. */
  datatype Thread = Thread(pc: Pc, blocks: nat, inside: nat)

  datatype RLock = RLock(owner: Option<Tid>, count: nat)

  const FREE := RLock(None, 0)

  /** One process's copy of the lock object, its descriptors and its threads.  `locks` are all re-entrant
      locks it ever had; `_thread_lock` is the last one, but threads may still hold others. */
  datatype Proc = Proc(
    storedPid: Pid,
    depth: nat,
    owner: Option<Tid>,
    handle: Option<Ofd>,
    locks: seq<RLock>,
    contexts: seq<Pid>,
    fds: set<Ofd>,
    threads: map<Tid, Thread>)

  /** `held` is the description that has the file lock; `creator` and `usedPids` remember
      every description and process so far; `unlocks` logs each explicit unlock. */
  datatype State = State(
    procs: map<Pid, Proc>,
    held: Option<Ofd>,
    creator: map<Ofd, Pid>,
    usedPids: set<Pid>,
    unlocks: set<(Pid, Ofd)>)

  const INITIAL := State(map[], None, map[], {}, {})

  datatype Event =
    | Start(p: Pid, t: Tid)
    | Spawn(p: Pid, t: Tid)
    | Fork(p: Pid, t: Tid, child: Pid)
    | Exit(p: Pid)
    | Enter(p: Pid, t: Tid)
    | Reset(p: Pid, t: Tid)
    | Fetch(p: Pid, t: Tid)
    | TakeLock(p: Pid, t: Tid, file: Ofd)
    | Flock(p: Pid, t: Tid)
    | FlockFails(p: Pid, t: Tid)
    | Record(p: Pid, t: Tid)
    | Count(p: Pid, t: Tid)
    | Leave(p: Pid, t: Tid)
    | Unlock(p: Pid, t: Tid)

  // ---------------------------------------------------------------------------
  // Steps
  // ---------------------------------------------------------------------------

  predicate Has(s: State, p: Pid, t: Tid) {
    p in s.procs && t in s.procs[p].threads
  }

  /** Steps that concern one process and keep the others. */
  predicate Local(e: Event) {
    !e.Start? && !e.Fork? && !e.Exit?
  }

  /** A free lock can be taken, and so can one's own. */
  predicate Takeable(q: Proc, lock: nat, t: Tid) {
    lock < |q.locks| && (q.locks[lock].owner == None || q.locks[lock].owner == Some(t))
  }

  /** What a step needs of its own process. */
  predicate Able(q: Proc, e: Event)
    requires Local(e)
  {
    if e.Spawn? then e.t !in q.threads
    else
      && e.t in q.threads
      && var pc := q.threads[e.t].pc;
         match e
         case Enter(p, t) => pc == Idle
         case Reset(p, t) => pc.MustReset?
         case Fetch(p, t) => pc == WantLock && q.locks != []
         case TakeLock(p, t, file) => pc.Waiting? && Takeable(q, pc.lock, t)
         case Flock(p, t) => pc.Opening?
         case FlockFails(p, t) => pc.Opening?
         case Record(p, t) => pc.Locked?
         case Count(p, t) => pc.Recorded?
         case Leave(p, t) => pc == Idle && q.threads[t].blocks > 0
         case Unlock(p, t) => pc.Unlocking?
  }

  /** What a step needs.  Process ids are not reused, and a new description is unused. */
  predicate Enabled(s: State, e: Event) {
    match e
    case Start(p, t) => p !in s.usedPids && p !in s.procs
    case Fork(p, t, child) =>
      Has(s, p, t) && s.procs[p].threads[t].pc == Idle && child !in s.usedPids && child !in s.procs
    case Exit(p) => p in s.procs
    case TakeLock(p, t, file) => p in s.procs && Able(s.procs[p], e) && file !in s.creator
    case Flock(p, t) => p in s.procs && Able(s.procs[p], e) && s.held == None
    case _ => e.p in s.procs && Able(s.procs[e.p], e)
  }

  function WithThread(q: Proc, t: Tid, th: Thread): Proc {
    q.(threads := q.threads[t := th])
  }

  function At(q: Proc, t: Tid, pc: Pc): Proc
    requires t in q.threads
  {
    WithThread(q, t, q.threads[t].(pc := pc))
  }

  /** The kernel drops a file lock when the last descriptor of its description closes. */
  function HeldAfterClose(procs: map<Pid, Proc>, held: Option<Ofd>): Option<Ofd> {
    if held.Some? && forall p | p in procs :: held.value !in procs[p].fds then None else held
  }

  function Put(s: State, p: Pid, q: Proc): State {
    var procs := s.procs[p := q];
    s.(procs := procs, held := HeldAfterClose(procs, s.held))
  }

  function Locking(q: Proc, lock: nat, t: Tid): Proc
    requires lock < |q.locks|
  {
    q.(locks := q.locks[lock := RLock(Some(t), q.locks[lock].count + 1)])
  }

  /** `_thread_lock.release()`: only the present lock can be released, and only by its owner; for
      anyone else the call raises and changes nothing. */
  function ReleaseRLock(q: Proc, t: Tid): (r: Proc)
    ensures r == q.(locks := r.locks) && |r.locks| == |q.locks|
  {
    if q.locks == [] || q.locks[|q.locks| - 1].owner != Some(t) then q
    else
      var last := |q.locks| - 1;
      var count := q.locks[last].count;
      q.(locks := q.locks[last := if count <= 1 then FREE else RLock(Some(t), count - 1)])
  }

  /** `_reset_after_fork`: close the stored descriptor without unlocking, start with a new lock. */
  function Discarded(q: Proc, p: Pid): Proc {
    q.(storedPid := p, depth := 0, owner := None, handle := None, locks := q.locks + [FREE],
       fds := if q.handle.Some? then q.fds - {q.handle.value} else q.fds)
  }

  /** The thread enters one more block. */
  function Entered(q: Proc, p: Pid, t: Tid): Proc
    requires t in q.threads
  {
    var th := q.threads[t];
    WithThread(q.(depth := q.depth + 1, contexts := q.contexts + [p]), t,
               Thread(Idle, th.blocks + 1, th.inside + 1))
  }

  /** The body of `acquire` once a re-entrant lock is taken, up to the file lock. */
  function Taken(q: Proc, p: Pid, t: Tid, file: Ofd): Proc
    requires t in q.threads
  {
    if q.depth == 0 then
      At(q.(fds := q.fds + {file}), t, Opening(file))
    else if q.owner != Some(t) then
      ReleaseRLock(At(q, t, Idle), t)
    else
      Entered(q, p, t)
  }

  /** `__exit__` up to the point where the pid of the context is known; on an empty stack it raises. */
  function Left(q: Proc, t: Tid): Proc
    requires t in q.threads && q.threads[t].blocks > 0
  {
    var th := q.threads[t];
    WithThread(q.(contexts := if q.contexts == [] then [] else q.contexts[..|q.contexts| - 1]), t,
               th.(blocks := th.blocks - 1, inside := if th.inside > 0 then th.inside - 1 else 0))
  }

  predicate TopContextIs(q: Proc, p: Pid) {
    q.contexts != [] && q.contexts[|q.contexts| - 1] == p
  }

  /** What `release` demands of its caller. */
  predicate Owns(q: Proc, t: Tid) {
    q.depth > 0 && q.owner == Some(t) && q.handle.Some?
  }

  /** `__exit__` with `release`, up to the unlocking of the file. */
  function Exited(q: Proc, p: Pid, t: Tid): Proc
    requires t in q.threads && q.threads[t].blocks > 0
  {
    var left := Left(q, t);
    if q.contexts == [] then left
    else if q.storedPid != p then At(left, t, MustReset(false))
    else if !TopContextIs(q, p) || !Owns(q, t) then left
    else if q.depth > 1 then ReleaseRLock(left.(depth := q.depth - 1), t)
    else At(left.(depth := 0, handle := None, owner := None), t, Unlocking(q.handle.value))
  }

  /** A process of its own. */
  function NewProc(p: Pid, t: Tid): Proc {
    Proc(p, 0, None, None, [FREE], [], {}, map[t := Thread(Idle, 0, 0)])
  }

  /** The process after its step. */
  function Moved(q: Proc, e: Event): Proc
    requires Local(e) && Able(q, e)
  {
    match e
    case Spawn(p, t) => WithThread(q, t, Thread(Idle, 0, 0))
    case Enter(p, t) => At(q, t, if q.storedPid == p then WantLock else MustReset(true))
    case Reset(p, t) => At(Discarded(q, p), t, if q.threads[t].pc.acquiring then WantLock else Idle)
    case Fetch(p, t) => At(q, t, Waiting(|q.locks| - 1))
    case TakeLock(p, t, file) => Taken(Locking(q, q.threads[t].pc.lock, t), p, t, file)
    case Flock(p, t) => At(q, t, Locked(q.threads[t].pc.file))
    case FlockFails(p, t) => ReleaseRLock(At(q.(fds := q.fds - {q.threads[t].pc.file}), t, Idle), t)
    case Record(p, t) =>
      At(q.(handle := Some(q.threads[t].pc.file), owner := Some(t)), t, Recorded(q.threads[t].pc.file))
    case Count(p, t) => Entered(q, p, t)
    case Leave(p, t) => Exited(q, p, t)
    case Unlock(p, t) => ReleaseRLock(At(q.(fds := q.fds - {q.threads[t].pc.file}), t, Idle), t)
  }

  function FileOf(q: Proc, e: Event): Ofd
    requires e.Flock? || e.Unlock?
    requires Able(q, e)
  {
    q.threads[e.t].pc.file
  }

  /** The file lock after a step, before descriptors are closed. */
  function HeldNext(s: State, e: Event): Option<Ofd>
    requires Local(e) && Enabled(s, e)
  {
    if e.Flock? then Some(FileOf(s.procs[e.p], e))
    else if e.Unlock? && s.held == Some(FileOf(s.procs[e.p], e)) then None
    else s.held
  }

  function CreatorNext(s: State, e: Event): map<Ofd, Pid>
    requires Local(e) && Enabled(s, e)
  {
    if e.TakeLock? && s.procs[e.p].depth == 0 then s.creator[e.file := e.p] else s.creator
  }

  function UnlocksNext(s: State, e: Event): set<(Pid, Ofd)>
    requires Local(e) && Enabled(s, e)
  {
    if e.Unlock? then s.unlocks + {(e.p, FileOf(s.procs[e.p], e))} else s.unlocks
  }

  function Next(s: State, e: Event): State
    requires Enabled(s, e)
  {
    match e
    case Start(p, t) => s.(procs := s.procs[p := NewProc(p, t)], usedPids := s.usedPids + {p})
    case Fork(p, t, child) =>
      s.(procs := s.procs[child := s.procs[p].(threads := map[t := s.procs[p].threads[t].(inside := 0)])],
         usedPids := s.usedPids + {child})
    case Exit(p) =>
      var procs := s.procs - {p};
      s.(procs := procs, held := HeldAfterClose(procs, s.held))
    case _ =>
      Put(State(s.procs, HeldNext(s, e), CreatorNext(s, e), s.usedPids, UnlocksNext(s, e)), e.p,
          Moved(s.procs[e.p], e))
  }

  /** A reset that comes after another thread of the same process has already reset the
      lock object: its check of `_pid` was overtaken. */
  predicate LateReset(s: State, e: Event) {
    e.Reset? && e.p in s.procs && s.procs[e.p].storedPid == e.p
  }

  /** A thread is inside a block, or has stored its handle and is about to be counted. */
  predicate Occupied(q: Proc) {
    exists t :: t in q.threads && (q.threads[t].inside > 0 || q.threads[t].pc.Recorded?)
  }

  /** A late reset that discards a lock in use. */
  predicate Clobbers(s: State, e: Event) {
    LateReset(s, e) && Occupied(s.procs[e.p])
  }

  // ---------------------------------------------------------------------------
  // Runs
  // ---------------------------------------------------------------------------

  predicate Possible(s: State, events: seq<Event>)
    decreases |events|
  {
    events == [] || (Enabled(s, events[0]) && Possible(Next(s, events[0]), events[1..]))
  }

  function After(s: State, events: seq<Event>): State
    requires Possible(s, events)
    decreases |events|
  {
    if events == [] then s else After(Next(s, events[0]), events[1..])
  }

  /** No late reset of the run discards a lock in use. */
  predicate Careful(s: State, events: seq<Event>)
    requires Possible(s, events)
    decreases |events|
  {
    events == [] || (!Clobbers(s, events[0]) && Careful(Next(s, events[0]), events[1..]))
  }

  // ---------------------------------------------------------------------------
  // What every run keeps
  // ---------------------------------------------------------------------------

  /** The description a thread is working with. */
  function InFlight(pc: Pc): Option<Ofd> {
    match pc
    case Opening(file) => Some(file)
    case Locked(file) => Some(file)
    case Recorded(file) => Some(file)
    case Unlocking(file) => Some(file)
    case _ => None
  }

  predicate CreatedBy(creator: map<Ofd, Pid>, file: Ofd, p: Pid) {
    file in creator && creator[file] == p
  }

  ghost predicate ThreadOwned(p: Pid, q: Proc, t: Tid, creator: map<Ofd, Pid>)
    requires t in q.threads
  {
    var pc := q.threads[t].pc;
    && (pc.WantLock? || pc.Waiting? ==> q.storedPid == p)
    && (InFlight(pc).Some? ==> q.storedPid == p && CreatedBy(creator, InFlight(pc).value, p))
  }

  /** A process that has reset its lock works with descriptions of its own only. */
  ghost predicate ProcOwned(p: Pid, q: Proc, creator: map<Ofd, Pid>) {
    && (forall t | t in q.threads :: ThreadOwned(p, q, t, creator))
    && (q.storedPid == p && q.handle.Some? ==> CreatedBy(creator, q.handle.value, p))
  }

  ghost predicate Owned(s: State) {
    && (forall p | p in s.procs :: ProcOwned(p, s.procs[p], s.creator))
    && (forall p | p in s.procs :: p in s.usedPids && s.procs[p].storedPid in s.usedPids)
    && (forall f | f in s.creator :: s.creator[f] in s.usedPids)
    && (forall u | u in s.unlocks :: CreatedBy(s.creator, u.1, u.0))
  }

  /** Descriptions keep their creators. */
  ghost predicate Extends(creator: map<Ofd, Pid>, creator': map<Ofd, Pid>) {
    forall f | f in creator :: f in creator' && creator'[f] == creator[f]
  }

  lemma OwnedGrows(p: Pid, q: Proc, creator: map<Ofd, Pid>, creator': map<Ofd, Pid>)
    requires ProcOwned(p, q, creator) && Extends(creator, creator')
    ensures ProcOwned(p, q, creator')
  {
    forall t | t in q.threads ensures ThreadOwned(p, q, t, creator') {
      assert ThreadOwned(p, q, t, creator);
    }
  }

  /** One thread moves on and the rest of the process changes only in what ownership allows. */
  lemma ThreadMoves(p: Pid, q: Proc, q': Proc, t: Tid, creator: map<Ofd, Pid>)
    requires ProcOwned(p, q, creator) && (q'.storedPid == q.storedPid || q'.storedPid == p)
    requires q'.threads.Keys == q.threads.Keys + {t}
    requires forall t' | t' in q.threads && t' != t :: q'.threads[t'].pc == q.threads[t'].pc
    requires ThreadOwned(p, q', t, creator)
    requires q'.storedPid == p && q'.handle.Some? ==> CreatedBy(creator, q'.handle.value, p)
    ensures ProcOwned(p, q', creator)
  {
    forall t' | t' in q'.threads ensures ThreadOwned(p, q', t', creator) {
      if t' != t {
        assert ThreadOwned(p, q, t', creator);
      }
    }
  }

  lemma MovedIsOwned(q: Proc, e: Event, creator: map<Ofd, Pid>)
    requires Local(e) && Able(q, e) && ProcOwned(e.p, q, creator)
    requires e.TakeLock? && q.depth == 0 ==> CreatedBy(creator, e.file, e.p)
    ensures ProcOwned(e.p, Moved(q, e), creator)
  {
    hide ReleaseRLock, TopContextIs;
    assert e.t in q.threads ==> ThreadOwned(e.p, q, e.t, creator);
    ThreadMoves(e.p, q, Moved(q, e), e.t, creator);
  }

  /** Every step of every process and thread, late resets included. */
  lemma StepKeepsOwned(s: State, e: Event)
    requires Owned(s) && Enabled(s, e)
    ensures Owned(Next(s, e))
  {
    var s' := Next(s, e);
    assert e.Fork? ==> ProcOwned(e.p, s.procs[e.p], s.creator) && ThreadOwned(e.p, s.procs[e.p], e.t, s.creator);
    if Local(e) {
      LocalStepKeepsOwned(s, e);
    } else {
      forall p | p in s'.procs ensures ProcOwned(p, s'.procs[p], s'.creator) {
        assert p in s.procs ==> s'.procs[p] == s.procs[p];
      }
    }
  }

  lemma LocalStepKeepsOwned(s: State, e: Event)
    requires Owned(s) && Enabled(s, e) && Local(e)
    ensures Owned(Next(s, e))
  {
    hide Moved, HeldAfterClose;
    var s', q := Next(s, e), s.procs[e.p];
    OwnedGrows(e.p, q, s.creator, s'.creator);
    MovedIsOwned(q, e, s'.creator);
    assert e.Unlock? ==> ThreadOwned(e.p, q, e.t, s.creator);
    MovedKeepsPid(q, e);
    forall p | p in s'.procs && p != e.p ensures ProcOwned(p, s'.procs[p], s'.creator) {
      OwnedGrows(p, s.procs[p], s.creator, s'.creator);
    }
  }

  lemma MovedKeepsPid(q: Proc, e: Event)
    requires Local(e) && Able(q, e)
    ensures Moved(q, e).storedPid == if e.Reset? then e.p else q.storedPid
  {
  }

  lemma {:induction false} RunKeepsOwned(s: State, events: seq<Event>)
    requires Owned(s) && Possible(s, events)
    ensures Owned(After(s, events))
    decreases |events|
  {
    if events != [] {
      StepKeepsOwned(s, events[0]);
      RunKeepsOwned(Next(s, events[0]), events[1..]);
    }
  }

  /** No process ever unlocks a description it inherited, in any run whatever. */
  lemma OnlyCreatorsUnlock(events: seq<Event>, p: Pid, file: Ofd)
    requires Possible(INITIAL, events) && (p, file) in After(INITIAL, events).unlocks
    ensures CreatedBy(After(INITIAL, events).creator, file, p)
  {
    RunKeepsOwned(INITIAL, events);
  }

  // ---------------------------------------------------------------------------
  // What careful runs keep
  // ---------------------------------------------------------------------------

  /** The thread has the file lock on `f` without being counted. */
  predicate HasLock(pc: Pc, f: Ofd) {
    pc == Locked(f) || pc == Recorded(f) || pc == Unlocking(f)
  }

  /** The process works under the file lock on `f`. */
  ghost predicate Uses(q: Proc, f: Ofd) {
    q.handle == Some(f) || exists t :: t in q.threads && HasLock(q.threads[t].pc, f)
  }

  ghost predicate ThreadOk(q: Proc, t: Tid, held: Option<Ofd>)
    requires t in q.threads
  {
    var th := q.threads[t];
    && (InFlight(th.pc).Some? ==> InFlight(th.pc).value in q.fds)
    && (th.pc.Opening? ==> held != Some(th.pc.file))
    && (th.pc.Locked? || th.pc.Unlocking? ==> held == Some(th.pc.file) && q.handle == None)
    && (th.pc.Recorded? ==> q.handle == Some(th.pc.file) && q.owner == Some(t) && q.depth == 0)
    && (th.inside > 0 ==> q.owner == Some(t) && th.inside <= q.depth && !th.pc.MustReset?)
  }

  /** The fields of the lock object: a stored handle has the file lock, and only with one is anything counted. */
  ghost predicate ObjectOk(q: Proc, held: Option<Ofd>) {
    if q.handle == None then q.depth == 0 && q.owner == None
    else
      && q.handle.value in q.fds && held == q.handle && q.owner.Some?
      && (q.depth == 0 ==> q.owner.value in q.threads && q.threads[q.owner.value].pc == Recorded(q.handle.value))
  }

  ghost predicate DistinctFiles(q: Proc) {
    forall t, t' | t in q.threads && t' in q.threads && t != t' && InFlight(q.threads[t].pc).Some? ::
      InFlight(q.threads[t].pc) != InFlight(q.threads[t'].pc)
  }

  ghost predicate ProcOk(p: Pid, q: Proc, held: Option<Ofd>, creator: map<Ofd, Pid>) {
    && q.fds <= creator.Keys
    && (if q.storedPid == p then
          ObjectOk(q, held) && DistinctFiles(q) && forall t | t in q.threads :: ThreadOk(q, t, held)
        else
          forall t | t in q.threads :: q.threads[t].inside == 0)
  }

  /** The process that opened the description holding the file lock works under it, or has closed it
      while a child still shares it. */
  ghost predicate HeldOk(s: State) {
    s.held.Some? ==>
      && s.held.value in s.creator
      && (s.creator[s.held.value] in s.procs ==>
            var q := s.procs[s.creator[s.held.value]];
            s.held.value in q.fds ==> q.storedPid == s.creator[s.held.value] && Uses(q, s.held.value))
  }

  ghost predicate Inv(s: State) {
    Owned(s) && HeldOk(s) && forall p | p in s.procs :: ProcOk(p, s.procs[p], s.held, s.creator)
  }

  predicate Inside(s: State, p: Pid, t: Tid) {
    Has(s, p, t) && s.procs[p].threads[t].inside > 0
  }

  lemma InsideIsUnique(s: State, p: Pid, t: Tid, p': Pid, t': Tid)
    requires Inv(s) && Inside(s, p, t) && Inside(s, p', t')
    ensures p == p' && t == t'
  {
    var q, q' := s.procs[p], s.procs[p'];
    assert ProcOk(p, q, s.held, s.creator) && ProcOk(p', q', s.held, s.creator);
    assert ThreadOk(q, t, s.held) && ThreadOk(q', t', s.held);
    assert ProcOwned(p, q, s.creator) && ProcOwned(p', q', s.creator);
  }

  // ---------------------------------------------------------------------------
  // One process takes a step
  // ---------------------------------------------------------------------------

  /** Threads that did not move stay sound when the lock object and the file lock stay. */
  lemma SameObject(p: Pid, q: Proc, q': Proc, t: Tid, held: Option<Ofd>, creator: map<Ofd, Pid>)
    requires ProcOk(p, q, held, creator) && q.storedPid == q'.storedPid == p
    requires q'.handle == q.handle && q'.owner == q.owner && q'.depth == q.depth
    requires q.fds <= q'.fds <= creator.Keys && q'.threads.Keys == q.threads.Keys + {t}
    requires forall t' | t' in q.threads && t' != t :: q'.threads[t'] == q.threads[t']
    requires ThreadOk(q', t, held)
    requires InFlight(q'.threads[t].pc).Some? ==>
               (t in q.threads && InFlight(q.threads[t].pc) == InFlight(q'.threads[t].pc))
               || InFlight(q'.threads[t].pc).value !in q.fds
    requires t in q.threads && q.threads[t].pc.Recorded? ==> q'.threads[t].pc == q.threads[t].pc
    ensures ProcOk(p, q', held, creator)
  {
    forall t' | t' in q'.threads ensures ThreadOk(q', t', held) {
      if t' != t {
        assert ThreadOk(q, t', held);
      }
    }
    forall t1, t2 | t1 in q'.threads && t2 in q'.threads && t1 != t2 && InFlight(q'.threads[t1].pc).Some?
      ensures InFlight(q'.threads[t1].pc) != InFlight(q'.threads[t2].pc)
    {
      assert t1 in q.threads ==> ThreadOk(q, t1, held);
      assert t2 in q.threads ==> ThreadOk(q, t2, held);
    }
  }

  /** Pairs of moved threads stay distinct when one thread's file is dropped or kept. */
  lemma StillDistinct(q: Proc, q': Proc, t: Tid)
    requires DistinctFiles(q) && t in q.threads && q'.threads.Keys == q.threads.Keys
    requires forall t' | t' in q.threads && t' != t :: q'.threads[t'] == q.threads[t']
    requires InFlight(q'.threads[t].pc) == None || InFlight(q'.threads[t].pc) == InFlight(q.threads[t].pc)
    ensures DistinctFiles(q')
  {
  }

  lemma ResetIsOk(q: Proc, e: Event, held: Option<Ofd>, creator: map<Ofd, Pid>)
    requires e.Reset? && Able(q, e) && ProcOwned(e.p, q, creator) && ProcOk(e.p, q, held, creator)
    requires q.storedPid == e.p ==> !Occupied(q)
    ensures ProcOk(e.p, Moved(q, e), held, creator)
  {
    var q' := Moved(q, e);
    forall t | t in q'.threads ensures ThreadOk(q', t, held) {
      assert ThreadOwned(e.p, q, t, creator);
      assert q.storedPid == e.p ==> ThreadOk(q, t, held) && q.threads[t].inside == 0 && !q.threads[t].pc.Recorded?;
    }
    forall t1, t2 | t1 in q'.threads && t2 in q'.threads && t1 != t2 && InFlight(q'.threads[t1].pc).Some?
      ensures InFlight(q'.threads[t1].pc) != InFlight(q'.threads[t2].pc)
    {
      assert ThreadOwned(e.p, q, t1, creator);
    }
  }

  lemma FlockIsOk(q: Proc, e: Event, creator: map<Ofd, Pid>)
    requires e.Flock? && Able(q, e) && ProcOwned(e.p, q, creator) && ProcOk(e.p, q, None, creator)
    ensures ProcOk(e.p, Moved(q, e), Some(FileOf(q, e)), creator)
  {
    var q' := Moved(q, e);
    assert ThreadOwned(e.p, q, e.t, creator) && ThreadOk(q, e.t, None);
    forall t | t in q'.threads ensures ThreadOk(q', t, Some(FileOf(q, e))) {
      assert ThreadOk(q, t, None);
    }
    StillDistinct(q, q', e.t);
  }

  lemma RecordIsOk(q: Proc, e: Event, held: Option<Ofd>, creator: map<Ofd, Pid>)
    requires e.Record? && Able(q, e) && ProcOwned(e.p, q, creator) && ProcOk(e.p, q, held, creator)
    ensures ProcOk(e.p, Moved(q, e), held, creator)
  {
    var q' := Moved(q, e);
    assert ThreadOwned(e.p, q, e.t, creator) && ThreadOk(q, e.t, held);
    forall t | t in q'.threads ensures ThreadOk(q', t, held) {
      assert ThreadOk(q, t, held);
    }
    StillDistinct(q, q', e.t);
  }

  /** Counting, first or re-entrant. */
  lemma EnteredIsOk(p: Pid, q: Proc, t: Tid, held: Option<Ofd>, creator: map<Ofd, Pid>)
    requires t in q.threads && q.storedPid == p && ProcOk(p, q, held, creator)
    requires q.handle.Some? && q.owner == Some(t)
    ensures ProcOk(p, Entered(q, p, t), held, creator)
  {
    var q' := Entered(q, p, t);
    assert ThreadOk(q, t, held);
    forall t' | t' in q'.threads ensures ThreadOk(q', t', held) {
      assert ThreadOk(q, t', held);
    }
    StillDistinct(q, q', t);
  }

  /** A thread closes the description it works with and is idle again. */
  lemma ClosedIsOk(p: Pid, q: Proc, t: Tid, held: Option<Ofd>, creator: map<Ofd, Pid>, held': Option<Ofd>)
    requires t in q.threads && q.storedPid == p && ProcOk(p, q, held, creator)
    requires (q.threads[t].pc.Opening? && held' == held) || (q.threads[t].pc.Unlocking? && held' == None)
    ensures ProcOk(p, ReleaseRLock(At(q.(fds := q.fds - {q.threads[t].pc.file}), t, Idle), t), held', creator)
  {
    var q' := ReleaseRLock(At(q.(fds := q.fds - {q.threads[t].pc.file}), t, Idle), t);
    assert ThreadOk(q, t, held);
    forall t' | t' in q'.threads ensures ThreadOk(q', t', held') {
      assert ThreadOk(q, t', held);
    }
    StillDistinct(q, q', t);
  }

  lemma LeftIsOk(p: Pid, q: Proc, t: Tid, held: Option<Ofd>, creator: map<Ofd, Pid>)
    requires t in q.threads && q.threads[t].blocks > 0 && q.threads[t].pc == Idle && ProcOk(p, q, held, creator)
    ensures ProcOk(p, Left(q, t), held, creator)
  {
    if q.storedPid == p {
      assert ThreadOk(q, t, held);
      SameObject(p, q, Left(q, t), t, held, creator);
    }
  }

  /** `release` by the owner: one level less, or the handle given up. */
  lemma ReleasedIsOk(p: Pid, q: Proc, t: Tid, held: Option<Ofd>, creator: map<Ofd, Pid>)
    requires t in q.threads && q.threads[t].blocks > 0 && q.threads[t].pc == Idle
    requires q.storedPid == p && ProcOk(p, q, held, creator) && Owns(q, t) && q.contexts != [] && TopContextIs(q, p)
    ensures ProcOk(p, Exited(q, p, t), held, creator)
  {
    var q' := Exited(q, p, t);
    assert ThreadOk(q, t, held);
    forall t' | t' in q'.threads ensures ThreadOk(q', t', held) {
      assert ThreadOk(q, t', held);
    }
    forall t1, t2 | t1 in q'.threads && t2 in q'.threads && t1 != t2 && InFlight(q'.threads[t1].pc).Some?
      ensures InFlight(q'.threads[t1].pc) != InFlight(q'.threads[t2].pc)
    {
      assert ThreadOk(q, t1, held) && ThreadOk(q, t2, held);
    }
  }

  lemma TakenIsOk(q: Proc, e: Event, held: Option<Ofd>, creator: map<Ofd, Pid>, creator': map<Ofd, Pid>)
    requires e.TakeLock? && Able(q, e) && ProcOwned(e.p, q, creator) && ProcOk(e.p, q, held, creator)
    requires e.file !in creator && creator' == if q.depth == 0 then creator[e.file := e.p] else creator
    requires held.Some? ==> held.value in creator
    ensures ProcOk(e.p, Moved(q, e), held, creator')
  {
    var t, q1 := e.t, Locking(q, q.threads[e.t].pc.lock, e.t);
    assert ThreadOwned(e.p, q, t, creator) && ThreadOk(q, t, held);
    assert ProcOk(e.p, q1, held, creator') by {
      SameObject(e.p, q, q1, t, held, creator');
    }
    if q.depth > 0 && q.owner == Some(t) {
      EnteredIsOk(e.p, q1, t, held, creator');
    } else {
      SameObject(e.p, q, Moved(q, e), t, held, creator');
    }
  }

  lemma ExitedIsOk(p: Pid, q: Proc, t: Tid, held: Option<Ofd>, creator: map<Ofd, Pid>)
    requires t in q.threads && q.threads[t].blocks > 0 && q.threads[t].pc == Idle && ProcOk(p, q, held, creator)
    ensures ProcOk(p, Exited(q, p, t), held, creator)
  {
    if q.contexts != [] && q.storedPid == p && TopContextIs(q, p) && Owns(q, t) {
      ReleasedIsOk(p, q, t, held, creator);
    } else {
      LeftIsOk(p, q, t, held, creator);
    }
  }

  lemma WaitingIsOk(q: Proc, e: Event, held: Option<Ofd>, creator: map<Ofd, Pid>)
    requires (e.Spawn? || e.Enter? || e.Fetch?) && Able(q, e)
    requires ProcOwned(e.p, q, creator) && ProcOk(e.p, q, held, creator)
    ensures ProcOk(e.p, Moved(q, e), held, creator)
  {
    if q.storedPid == e.p {
      assert e.t in q.threads ==> ThreadOk(q, e.t, held);
      SameObject(e.p, q, Moved(q, e), e.t, held, creator);
    }
  }

  lemma CountIsOk(q: Proc, e: Event, held: Option<Ofd>, creator: map<Ofd, Pid>)
    requires e.Count? && Able(q, e) && ProcOwned(e.p, q, creator) && ProcOk(e.p, q, held, creator)
    ensures ProcOk(e.p, Moved(q, e), held, creator)
  {
    assert ThreadOwned(e.p, q, e.t, creator) && ThreadOk(q, e.t, held);
    EnteredIsOk(e.p, q, e.t, held, creator);
  }

  lemma ClosingIsOk(q: Proc, e: Event, held: Option<Ofd>, creator: map<Ofd, Pid>)
    requires (e.FlockFails? || e.Unlock?) && Able(q, e) && ProcOwned(e.p, q, creator) && ProcOk(e.p, q, held, creator)
    ensures ProcOk(e.p, Moved(q, e), if e.Unlock? then None else held, creator)
    ensures e.Unlock? ==> held == Some(FileOf(q, e))
  {
    assert ThreadOwned(e.p, q, e.t, creator) && ThreadOk(q, e.t, held);
    ClosedIsOk(e.p, q, e.t, held, creator, if e.Unlock? then None else held);
  }

  /** A step of one process that does not discard a lock in use. */
  lemma MovedIsOk(s: State, e: Event)
    requires Inv(s) && Enabled(s, e) && Local(e) && !Clobbers(s, e)
    ensures ProcOk(e.p, Moved(s.procs[e.p], e), HeldNext(s, e), CreatorNext(s, e))
  {
    hide Moved, ProcOk, ProcOwned, Occupied;
    var q, held := s.procs[e.p], s.held;
    match e
    case Spawn(_, _) => WaitingIsOk(q, e, held, s.creator);
    case Enter(_, _) => WaitingIsOk(q, e, held, s.creator);
    case Fetch(_, _) => WaitingIsOk(q, e, held, s.creator);
    case Reset(_, _) => ResetIsOk(q, e, held, s.creator);
    case TakeLock(_, _, file) => TakenIsOk(q, e, held, s.creator, CreatorNext(s, e));
    case Flock(_, _) => FlockIsOk(q, e, s.creator);
    case FlockFails(_, _) => ClosingIsOk(q, e, held, s.creator);
    case Record(_, _) => RecordIsOk(q, e, held, s.creator);
    case Count(_, _) => CountIsOk(q, e, held, s.creator);
    case Leave(_, _) => LeaveIsOk(q, e, held, s.creator);
    case Unlock(_, _) => ClosingIsOk(q, e, held, s.creator);
  }

  lemma LeaveIsOk(q: Proc, e: Event, held: Option<Ofd>, creator: map<Ofd, Pid>)
    requires e.Leave? && Able(q, e) && ProcOk(e.p, q, held, creator)
    ensures ProcOk(e.p, Moved(q, e), held, creator)
  {
    ExitedIsOk(e.p, q, e.t, held, creator);
  }

  // ---------------------------------------------------------------------------
  // Every other process
  // ---------------------------------------------------------------------------

  /** Another process is not disturbed when it does not use the lock that changes hands and
      the new holder's description is not its own. */
  lemma OthersKept(p: Pid, q: Proc, held: Option<Ofd>, held': Option<Ofd>, creator: map<Ofd, Pid>,
                   creator': map<Ofd, Pid>)
    requires ProcOwned(p, q, creator) && ProcOk(p, q, held, creator) && Extends(creator, creator')
    requires held' == held || held.None? || q.storedPid != p || !Uses(q, held.value)
    requires held' == held || held'.None? || !CreatedBy(creator', held'.value, p)
    ensures ProcOk(p, q, held', creator')
  {
    if q.storedPid == p {
      forall t | t in q.threads ensures ThreadOk(q, t, held') {
        assert ThreadOwned(p, q, t, creator) && ThreadOk(q, t, held);
        assert held.Some? ==> !HasLock(q.threads[t].pc, held.value) || held' == held;
      }
    }
  }

  /** A process that uses a description has it open. */
  lemma UsedIsOpen(p: Pid, q: Proc, f: Ofd, held: Option<Ofd>, creator: map<Ofd, Pid>)
    requires ProcOwned(p, q, creator) && ProcOk(p, q, held, creator) && q.storedPid == p && Uses(q, f)
    ensures f in q.fds && CreatedBy(creator, f, p)
  {
    if q.handle != Some(f) {
      var t :| t in q.threads && HasLock(q.threads[t].pc, f);
      assert ThreadOwned(p, q, t, creator) && ThreadOk(q, t, held);
    }
  }

  /** Closing descriptors takes the file lock from nobody who uses it. */
  lemma ClosingKeepsOthers(s: State, procs: map<Pid, Proc>, p: Pid)
    requires p in procs && ProcOwned(p, procs[p], s.creator) && ProcOk(p, procs[p], s.held, s.creator)
    ensures ProcOk(p, procs[p], HeldAfterClose(procs, s.held), s.creator)
  {
    if s.held.Some? && procs[p].storedPid == p && Uses(procs[p], s.held.value) {
      UsedIsOpen(p, procs[p], s.held.value, s.held, s.creator);
    }
    OthersKept(p, procs[p], s.held, HeldAfterClose(procs, s.held), s.creator, s.creator);
  }

  /** The file lock before descriptors are closed, after a local step. */
  lemma StepKeepsOthers(s: State, e: Event, p: Pid)
    requires Inv(s) && Enabled(s, e) && Local(e) && p in s.procs && p != e.p
    ensures ProcOk(p, s.procs[p], HeldNext(s, e), CreatorNext(s, e))
  {
    var q := s.procs[e.p];
    assert e.t in q.threads ==> ThreadOwned(e.p, q, e.t, s.creator);
    assert ProcOwned(p, s.procs[p], s.creator) && ProcOk(p, s.procs[p], s.held, s.creator);
    if s.held.Some? && s.procs[p].storedPid == p && Uses(s.procs[p], s.held.value) {
      UsedIsOpen(p, s.procs[p], s.held.value, s.held, s.creator);
    }
    OthersKept(p, s.procs[p], s.held, HeldNext(s, e), s.creator, CreatorNext(s, e));
  }

  // ---------------------------------------------------------------------------
  // Every step keeps the invariant
  // ---------------------------------------------------------------------------

  /** What a process used before its step it uses afterwards, has closed, or has unlocked. */
  lemma UseGoesOn(q: Proc, e: Event, held: Option<Ofd>, creator: map<Ofd, Pid>, f: Ofd)
    requires Local(e) && Able(q, e) && ProcOwned(e.p, q, creator) && ProcOk(e.p, q, held, creator)
    requires held == Some(f) && (e.TakeLock? ==> e.file != f)
    requires f in q.fds ==> q.storedPid == e.p && Uses(q, f)
    ensures f in Moved(q, e).fds ==> f in q.fds && (e.Unlock? || Uses(Moved(q, e), f))
  {
    var q' := Moved(q, e);
    if f in q.fds && !e.Unlock? && f in q'.fds {
      assert e.t in q.threads ==> ThreadOk(q, e.t, held) && ThreadOwned(e.p, q, e.t, creator);
      if q.handle == Some(f) {
        HandleGoesOn(q, e, held, f);
      } else {
        var t :| t in q.threads && HasLock(q.threads[t].pc, f);
        assert ThreadOk(q, t, held);
        assert t != e.t ==> q'.threads[t].pc == q.threads[t].pc;
        assert t == e.t && e.Record? ==> HasLock(q'.threads[t].pc, f);
        assert t == e.t && e.Count? ==> q'.handle == Some(f);
      }
    }
  }

  lemma HandleGoesOn(q: Proc, e: Event, held: Option<Ofd>, f: Ofd)
    requires Local(e) && Able(q, e) && q.handle == Some(f) && f in Moved(q, e).fds
    requires e.t in q.threads ==> ThreadOk(q, e.t, held)
    ensures Uses(Moved(q, e), f)
  {
    var q' := Moved(q, e);
    if q'.handle != Some(f) {
      assert e.Leave? && HasLock(q'.threads[e.t].pc, f);
    }
  }

  lemma LocalStepKeepsHeldOk(s: State, e: Event)
    requires Inv(s) && Enabled(s, e) && Local(e)
    ensures HeldOk(Next(s, e))
  {
    hide Moved, Able;
    var s', q := Next(s, e), s.procs[e.p];
    assert ProcOwned(e.p, q, s.creator) && ProcOk(e.p, q, s.held, s.creator);
    MovedKeepsPid(q, e);
    if s'.held.Some? {
      var f := s'.held.value;
      if e.Flock? {
        FlockedIsUsed(q, e, s.held, s.creator);
      } else {
        UseGoesOnIfOwn(s, e, f);
      }
    }
  }

  lemma UseGoesOnIfOwn(s: State, e: Event, f: Ofd)
    requires Inv(s) && Enabled(s, e) && Local(e) && !e.Flock? && HeldNext(s, e) == Some(f)
    ensures s.held == Some(f) && !e.Unlock?
    ensures CreatedBy(s.creator, f, e.p) && f in Moved(s.procs[e.p], e).fds ==>
              f in s.procs[e.p].fds && Uses(Moved(s.procs[e.p], e), f)
  {
    hide Moved;
    var q := s.procs[e.p];
    assert ProcOwned(e.p, q, s.creator) && ProcOk(e.p, q, s.held, s.creator);
    if e.Unlock? {
      ClosingIsOk(q, e, s.held, s.creator);
    } else if CreatedBy(s.creator, f, e.p) {
      UseGoesOn(q, e, s.held, s.creator, f);
    }
  }

  lemma FlockedIsUsed(q: Proc, e: Event, held: Option<Ofd>, creator: map<Ofd, Pid>)
    requires e.Flock? && Able(q, e) && ProcOwned(e.p, q, creator) && ProcOk(e.p, q, held, creator)
    ensures Uses(Moved(q, e), FileOf(q, e)) && q.storedPid == e.p && CreatedBy(creator, FileOf(q, e), e.p)
  {
    assert ThreadOwned(e.p, q, e.t, creator);
    assert HasLock(Moved(q, e).threads[e.t].pc, FileOf(q, e));
  }

  /** A local step without its closing of descriptors, then that closing. */
  lemma LocalStepKeepsProcs(s: State, e: Event, p: Pid)
    requires Inv(s) && Enabled(s, e) && Local(e) && !Clobbers(s, e) && p in s.procs && Owned(Next(s, e))
    ensures ProcOk(p, Next(s, e).procs[p], Next(s, e).held, Next(s, e).creator)
  {
    hide Moved, Able, Clobbers, ProcOk, ProcOwned;
    var s' := Next(s, e);
    var before := State(s'.procs, HeldNext(s, e), CreatorNext(s, e), s.usedPids, s.unlocks);
    if p == e.p {
      MovedIsOk(s, e);
    } else {
      StepKeepsOthers(s, e, p);
    }
    ClosingKeepsOthers(before, s'.procs, p);
  }

  /** Every step of every process and thread keeps the invariant, unless it is a late reset
      that discards a lock in use. */
  lemma StepKeepsInv(s: State, e: Event)
    requires Inv(s) && Enabled(s, e) && !Clobbers(s, e)
    ensures Inv(Next(s, e))
  {
    StepKeepsOwned(s, e);
    var s' := Next(s, e);
    if Local(e) {
      LocalStepKeepsHeldOk(s, e);
      forall p | p in s'.procs ensures ProcOk(p, s'.procs[p], s'.held, s'.creator) {
        LocalStepKeepsProcs(s, e, p);
      }
    } else {
      GlobalStepKeepsInv(s, e);
    }
  }

  lemma GlobalStepKeepsInv(s: State, e: Event)
    requires Inv(s) && Enabled(s, e) && !Local(e) && Owned(Next(s, e))
    ensures Inv(Next(s, e))
  {
    var s' := Next(s, e);
    forall p | p in s'.procs ensures ProcOk(p, s'.procs[p], s'.held, s'.creator) {
      if e.Exit? {
        ClosingKeepsOthers(s, s'.procs, p);
      }
    }
  }

  lemma {:induction false} RunKeepsInv(s: State, events: seq<Event>)
    requires Inv(s) && Possible(s, events) && Careful(s, events)
    ensures Inv(After(s, events))
    decreases |events|
  {
    if events != [] {
      StepKeepsInv(s, events[0]);
      RunKeepsInv(Next(s, events[0]), events[1..]);
    }
  }

  // ---------------------------------------------------------------------------
  // The re-entrant lock
  // ---------------------------------------------------------------------------

  function Present(q: Proc): RLock
    requires q.locks != []
  {
    q.locks[|q.locks| - 1]
  }

  /** How often thread `t` needs the re-entrant lock: for an acquisition or release under way, and for each level. */
  function Needs(q: Proc, t: Tid): nat
    requires t in q.threads
  {
    (if InFlight(q.threads[t].pc).Some? then 1 else 0) + (if q.owner == Some(t) then q.depth else 0)
  }

  /** The present lock is free, or its owner holds it no more often than it needs to. */
  ghost predicate Bounded(q: Proc) {
    && q.locks != []
    && match Present(q).owner
       case None => Present(q) == FREE
       case Some(t) => t in q.threads && 1 <= Present(q).count <= Needs(q, t)
  }

  /** Every thread holds the present lock exactly as often as it needs to. */
  ghost predicate Exact(q: Proc) {
    && Bounded(q)
    && (q.owner.Some? ==> q.owner.value in q.threads)
    && (forall t | t in q.threads :: Needs(q, t) == if Present(q).owner == Some(t) then Present(q).count else 0)
    && forall t | t in q.threads && q.threads[t].pc.Waiting? :: q.threads[t].pc.lock == |q.locks| - 1
  }

  /** One step of release: the last level frees the lock, any other only counts down. */
  lemma ReleaseCountsDown(q: Proc, t: Tid)
    requires q.locks != []
    ensures Present(q) == RLock(Some(t), 1) ==> Present(ReleaseRLock(q, t)) == FREE
    ensures Present(q).owner == Some(t) && Present(q).count > 1 ==>
              Present(ReleaseRLock(q, t)) == RLock(Some(t), Present(q).count - 1)
    ensures Present(q).owner != Some(t) ==> ReleaseRLock(q, t) == q
  {
  }

  lemma GoingBounded(q: Proc, e: Event, held: Option<Ofd>, creator: map<Ofd, Pid>)
    requires (e.Spawn? || e.Enter? || e.Fetch? || e.Flock? || e.Record? || e.Count?) && q.storedPid == e.p && Bounded(q)
    requires Able(q, e) && ProcOwned(e.p, q, creator) && ProcOk(e.p, q, held, creator)
    ensures Bounded(Moved(q, e))
  {
    assert e.t in q.threads ==> ThreadOk(q, e.t, held);
  }

  lemma TakingBounded(q: Proc, e: Event, held: Option<Ofd>, creator: map<Ofd, Pid>)
    requires e.TakeLock? && q.storedPid == e.p && Bounded(q)
    requires Able(q, e) && ProcOwned(e.p, q, creator) && ProcOk(e.p, q, held, creator)
    ensures Bounded(Moved(q, e))
  {
    assert ThreadOk(q, e.t, held);
  }

  lemma ClosingBounded(q: Proc, e: Event, held: Option<Ofd>, creator: map<Ofd, Pid>)
    requires (e.FlockFails? || e.Unlock?) && q.storedPid == e.p && Bounded(q)
    requires Able(q, e) && ProcOwned(e.p, q, creator) && ProcOk(e.p, q, held, creator)
    ensures Bounded(Moved(q, e))
  {
    assert ThreadOk(q, e.t, held);
  }

  lemma LeavingBounded(q: Proc, e: Event, held: Option<Ofd>, creator: map<Ofd, Pid>)
    requires e.Leave? && q.storedPid == e.p && Bounded(q)
    requires Able(q, e) && ProcOwned(e.p, q, creator) && ProcOk(e.p, q, held, creator)
    ensures Bounded(Moved(q, e))
  {
    assert ThreadOk(q, e.t, held);
  }

  lemma MovedKeepsBounded(q: Proc, e: Event, held: Option<Ofd>, creator: map<Ofd, Pid>)
    requires Local(e) && Able(q, e) && ProcOwned(e.p, q, creator) && ProcOk(e.p, q, held, creator)
    requires q.storedPid == e.p ==> Bounded(q)
    ensures Moved(q, e).storedPid == e.p ==> Bounded(Moved(q, e))
  {
    hide Bounded, ProcOwned, ProcOk, Moved, Able;
    MovedKeepsPid(q, e);
    if e.Reset? {
      ResetBounded(q, e);
    } else if q.storedPid == e.p {
      if e.TakeLock? {
        TakingBounded(q, e, held, creator);
      } else if e.FlockFails? || e.Unlock? {
        ClosingBounded(q, e, held, creator);
      } else if e.Leave? {
        LeavingBounded(q, e, held, creator);
      } else {
        GoingBounded(q, e, held, creator);
      }
    }
  }

  lemma ResetBounded(q: Proc, e: Event)
    requires e.Reset? && Able(q, e)
    ensures Bounded(Moved(q, e)) && Present(Moved(q, e)) == FREE
  {
  }

  lemma GoingExact(q: Proc, e: Event, held: Option<Ofd>)
    requires (e.Spawn? || e.Enter? || e.Fetch? || e.Flock?) && q.storedPid == e.p && Exact(q)
    requires Able(q, e) && ObjectOk(q, held) && (e.t in q.threads ==> ThreadOk(q, e.t, held))
    ensures Exact(Moved(q, e))
  {
  }

  lemma EnteringExact(q: Proc, e: Event, held: Option<Ofd>)
    requires (e.Record? || e.Count?) && q.storedPid == e.p && Exact(q)
    requires Able(q, e) && ObjectOk(q, held) && (e.t in q.threads ==> ThreadOk(q, e.t, held))
    ensures Exact(Moved(q, e))
  {
  }

  lemma TakingExact(q: Proc, e: Event, held: Option<Ofd>)
    requires e.TakeLock? && q.storedPid == e.p && Exact(q)
    requires Able(q, e) && ObjectOk(q, held) && (e.t in q.threads ==> ThreadOk(q, e.t, held))
    ensures Exact(Moved(q, e))
  {
  }

  lemma ClosingExact(q: Proc, e: Event, held: Option<Ofd>)
    requires (e.FlockFails? || e.Unlock?) && q.storedPid == e.p && Exact(q)
    requires Able(q, e) && ObjectOk(q, held) && (e.t in q.threads ==> ThreadOk(q, e.t, held))
    ensures Exact(Moved(q, e))
  {
  }

  /** Nothing that the need depends on has changed. */
  lemma SameNeeds(q: Proc, q': Proc)
    requires Exact(q) && q'.locks == q.locks && q'.owner == q.owner && q'.depth == q.depth
    requires q'.threads.Keys == q.threads.Keys && forall t | t in q.threads :: q'.threads[t].pc == q.threads[t].pc
    ensures Exact(q')
  {
    forall t | t in q'.threads
      ensures Needs(q', t) == if Present(q').owner == Some(t) then Present(q').count else 0
    {
      assert Needs(q', t) == Needs(q, t);
    }
  }

  lemma NestedExact(q: Proc, t: Tid)
    requires Exact(q) && t in q.threads && q.threads[t].pc == Idle && q.threads[t].blocks > 0
    requires Owns(q, t) && q.depth > 1
    ensures Exact(ReleaseRLock(Left(q, t).(depth := q.depth - 1), t))
  {
    var q' := ReleaseRLock(Left(q, t).(depth := q.depth - 1), t);
    forall u | u in q'.threads
      ensures Needs(q', u) == if Present(q').owner == Some(u) then Present(q').count else 0
    {
      assert Needs(q', u) == if u == t then Needs(q, u) - 1 else Needs(q, u);
    }
  }

  lemma LastExact(q: Proc, t: Tid)
    requires Exact(q) && t in q.threads && q.threads[t].pc == Idle && q.threads[t].blocks > 0
    requires Owns(q, t) && q.depth == 1
    ensures Exact(At(Left(q, t).(depth := 0, handle := None, owner := None), t, Unlocking(q.handle.value)))
  {
    var q' := At(Left(q, t).(depth := 0, handle := None, owner := None), t, Unlocking(q.handle.value));
    forall u | u in q'.threads
      ensures Needs(q', u) == if Present(q').owner == Some(u) then Present(q').count else 0
    {
      assert Needs(q', u) == Needs(q, u);
    }
  }

  lemma LeavingExact(q: Proc, e: Event)
    requires e.Leave? && Able(q, e) && q.storedPid == e.p && Exact(q)
    ensures Exact(Moved(q, e))
  {
    hide Exact, Left, ReleaseRLock;
    if q.contexts == [] || !TopContextIs(q, e.p) || !Owns(q, e.t) {
      LeftAlone(q, e.t);
      SameNeeds(q, Left(q, e.t));
    } else if q.depth > 1 {
      NestedExact(q, e.t);
    } else {
      LastExact(q, e.t);
    }
  }

  lemma LeftAlone(q: Proc, t: Tid)
    requires t in q.threads && q.threads[t].blocks > 0
    ensures var q' := Left(q, t);
            && q'.locks == q.locks && q'.owner == q.owner && q'.depth == q.depth
            && q'.threads.Keys == q.threads.Keys && forall u | u in q.threads :: q'.threads[u].pc == q.threads[u].pc
  {
  }

  lemma MovedKeepsExact(q: Proc, e: Event, held: Option<Ofd>, creator: map<Ofd, Pid>)
    requires Local(e) && Able(q, e) && ProcOwned(e.p, q, creator) && ProcOk(e.p, q, held, creator)
    requires q.storedPid == e.p ==> Exact(q) && !e.Reset?
    ensures Moved(q, e).storedPid == e.p ==> Exact(Moved(q, e))
  {
    hide Exact, Moved, Able, ObjectOk, ThreadOk;
    MovedKeepsPid(q, e);
    if e.Reset? {
      assert forall t | t in q.threads :: ThreadOwned(e.p, q, t, creator);
      ResetExact(q, e);
    } else if q.storedPid == e.p {
      if e.TakeLock? {
        TakingExact(q, e, held);
      } else if e.FlockFails? || e.Unlock? {
        ClosingExact(q, e, held);
      } else if e.Leave? {
        LeavingExact(q, e);
      } else if e.Record? || e.Count? {
        EnteringExact(q, e, held);
      } else {
        GoingExact(q, e, held);
      }
    }
  }

  lemma ResetExact(q: Proc, e: Event)
    requires e.Reset? && Able(q, e)
    requires forall t | t in q.threads :: InFlight(q.threads[t].pc).None? && !q.threads[t].pc.Waiting?
    ensures Exact(Moved(q, e))
  {
  }

  ghost predicate LocksBounded(s: State) {
    forall p | p in s.procs && s.procs[p].storedPid == p :: Bounded(s.procs[p])
  }

  ghost predicate LocksExact(s: State) {
    forall p | p in s.procs && s.procs[p].storedPid == p :: Exact(s.procs[p])
  }

  lemma StepKeepsBounded(s: State, e: Event)
    requires Inv(s) && Enabled(s, e) && LocksBounded(s)
    ensures LocksBounded(Next(s, e))
  {
    hide Moved, ProcOk, ProcOwned, Bounded;
    var s' := Next(s, e);
    if Local(e) {
      MovedKeepsBounded(s.procs[e.p], e, s.held, s.creator);
    }
    if e.Start? { NewIsExact(e.p, e.t); }
  }

  lemma StepKeepsExact(s: State, e: Event)
    requires Inv(s) && Enabled(s, e) && LocksExact(s) && !LateReset(s, e)
    ensures LocksExact(Next(s, e))
  {
    hide Moved, ProcOk, ProcOwned, Exact;
    var s' := Next(s, e);
    if Local(e) {
      MovedKeepsExact(s.procs[e.p], e, s.held, s.creator);
    }
    if e.Start? { NewIsExact(e.p, e.t); }
  }

  lemma NewIsExact(p: Pid, t: Tid)
    ensures Exact(NewProc(p, t)) && Bounded(NewProc(p, t))
  {
  }

  /** No reset of the run is overtaken. */
  predicate Punctual(s: State, events: seq<Event>)
    requires Possible(s, events)
    decreases |events|
  {
    events == [] || (!LateReset(s, events[0]) && Punctual(Next(s, events[0]), events[1..]))
  }

  lemma {:induction false} RunKeepsBounded(s: State, events: seq<Event>)
    requires Inv(s) && LocksBounded(s) && Possible(s, events) && Careful(s, events)
    ensures LocksBounded(After(s, events))
    decreases |events|
  {
    if events != [] {
      StepKeepsInv(s, events[0]);
      StepKeepsBounded(s, events[0]);
      RunKeepsBounded(Next(s, events[0]), events[1..]);
    }
  }

  lemma {:induction false} RunKeepsExact(s: State, events: seq<Event>)
    requires Inv(s) && LocksExact(s) && Possible(s, events) && Punctual(s, events)
    ensures LocksExact(After(s, events)) && Careful(s, events)
    decreases |events|
  {
    if events != [] {
      StepKeepsInv(s, events[0]);
      StepKeepsExact(s, events[0]);
      RunKeepsExact(Next(s, events[0]), events[1..]);
    }
  }

  // ---------------------------------------------------------------------------
  // Main results
  // ---------------------------------------------------------------------------

  /** Mutual exclusion: whatever is forked, killed or left in between, at most one thread of one process is
      inside a block it entered, in every state of a run whose late resets find no lock in use. */
  lemma MutualExclusion(events: seq<Event>, p: Pid, t: Tid, p': Pid, t': Tid)
    requires Possible(INITIAL, events) && Careful(INITIAL, events)
    requires Inside(After(INITIAL, events), p, t) && Inside(After(INITIAL, events), p', t')
    ensures p == p' && t == t'
  {
    RunKeepsInv(INITIAL, events);
    InsideIsUnique(After(INITIAL, events), p, t, p', t');
  }

  /** A positive depth means that the file lock is held by a description the process opened; and while one
      that it opened and has open holds it, the depth is zero only for a thread that is on its way in or out. */
  lemma DepthFollowsFileLock(events: seq<Event>, p: Pid)
    requires Possible(INITIAL, events) && Careful(INITIAL, events)
    requires var s := After(INITIAL, events); p in s.procs && s.procs[p].storedPid == p
    ensures var s := After(INITIAL, events);
            var q := s.procs[p];
            && (q.depth > 0 ==> s.held.Some? && CreatedBy(s.creator, s.held.value, p) && s.held.value in q.fds)
            && (s.held.Some? && CreatedBy(s.creator, s.held.value, p) && s.held.value in q.fds ==>
                  (q.depth == 0 <==> exists t :: t in q.threads && HasLock(q.threads[t].pc, s.held.value)))
  {
    RunKeepsInv(INITIAL, events);
    var s := After(INITIAL, events);
    var q := s.procs[p];
    assert ProcOwned(p, q, s.creator) && ProcOk(p, q, s.held, s.creator);
    if s.held.Some? && CreatedBy(s.creator, s.held.value, p) && s.held.value in q.fds {
      forall t | t in q.threads && HasLock(q.threads[t].pc, s.held.value) ensures q.depth == 0 {
        assert ThreadOk(q, t, s.held);
      }
    }
  }

  /** Nobody of the process has the lock or is on the way in or out. */
  predicate Vacant(q: Proc) {
    q.depth == 0 && forall t | t in q.threads :: InFlight(q.threads[t].pc).None?
  }

  /** The re-entrant lock is given back: once nobody has the writer lock it is free, also when late resets came while
      it was not in use. */
  lemma VacantLockIsFree(events: seq<Event>, p: Pid)
    requires Possible(INITIAL, events) && Careful(INITIAL, events)
    requires var s := After(INITIAL, events); p in s.procs && s.procs[p].storedPid == p && Vacant(s.procs[p])
    ensures var q := After(INITIAL, events).procs[p]; q.locks != [] && Present(q) == FREE
  {
    RunKeepsBounded(INITIAL, events);
    var q := After(INITIAL, events).procs[p];
    assert Bounded(q);
  }

  /** And while somebody has it, that thread holds it exactly as deep as it is in, so that no other thread can
      take it, and it is given back at the last level and not before. */
  lemma LockFollowsLevels(events: seq<Event>, p: Pid, t: Tid)
    requires Possible(INITIAL, events) && Punctual(INITIAL, events)
    requires var s := After(INITIAL, events); Has(s, p, t) && s.procs[p].storedPid == p
    ensures var q := After(INITIAL, events).procs[p];
            && q.locks != []
            && (Present(q).owner == Some(t) <==> Needs(q, t) > 0)
            && (Needs(q, t) > 0 ==> Present(q) == RLock(Some(t), Needs(q, t)))
            && (Present(q).owner == None <==> Vacant(q))
  {
    RunKeepsExact(INITIAL, events);
    var q := After(INITIAL, events).procs[p];
    assert Exact(q);
    RunKeepsInv(INITIAL, events);
    assert ProcOk(p, q, After(INITIAL, events).held, After(INITIAL, events).creator);
    VacantIffFree(q, After(INITIAL, events).held);
  }

  lemma VacantIffFree(q: Proc, held: Option<Ofd>)
    requires Exact(q) && ObjectOk(q, held)
    ensures Present(q).owner == None <==> Vacant(q)
  {
    if q.depth > 0 {
      assert Needs(q, q.owner.value) >= q.depth;
    }
    assert Vacant(q) ==> forall u | u in q.threads :: Needs(q, u) == 0;
    assert forall u | u in q.threads && InFlight(q.threads[u].pc).Some? :: Needs(q, u) >= 1;
  }

  // ---------------------------------------------------------------------------
  // What a late reset does
  // ---------------------------------------------------------------------------

  /** A late reset keeps the invariant, and with it exclusion in every careful continuation, exactly when no
      thread of the process is inside or about to be counted. */
  lemma LateResetIsSafeIff(s: State, p: Pid, t: Tid)
    requires Inv(s) && Enabled(s, Reset(p, t)) && LateReset(s, Reset(p, t))
    ensures Inv(Next(s, Reset(p, t))) <==> !Occupied(s.procs[p])
  {
    var e := Reset(p, t);
    var q := s.procs[p];
    if Occupied(q) {
      var t' :| t' in q.threads && (q.threads[t'].inside > 0 || q.threads[t'].pc.Recorded?);
      var s' := Next(s, e);
      assert s'.procs[p].threads[t'].inside == q.threads[t'].inside && s'.procs[p].handle == None;
      assert !ThreadOk(s'.procs[p], t', s'.held);
      assert !ProcOk(p, s'.procs[p], s'.held, s'.creator);
    } else {
      StepKeepsInv(s, e);
    }
  }

  lemma {:induction false} AfterConcat(s: State, a: seq<Event>, b: seq<Event>)
    requires Possible(s, a) && Possible(After(s, a), b)
    ensures Possible(s, a + b) && After(s, a + b) == After(After(s, a), b)
    ensures Careful(s, a) && Careful(After(s, a), b) ==> Careful(s, a + b)
    decreases |a|
  {
    if a == [] {
      assert a + b == b;
    } else {
      AfterConcat(Next(s, a[0]), a[1..], b);
      assert (a + b)[0] == a[0] && (a + b)[1..] == a[1..] + b;
    }
  }

  lemma AfterOne(s: State, e: Event)
    requires Enabled(s, e)
    ensures Possible(s, [e]) && After(s, [e]) == Next(s, e) && (!Clobbers(s, e) ==> Careful(s, [e]))
  {
    hide Next, Enabled;
    var one, rest := [e], [e][1..];
    assert one[0] == e && rest == [];
    assert Possible(Next(s, e), rest);
    AfterNone(Next(s, e), rest);
    assert After(s, one) == After(Next(s, one[0]), one[1..]);
  }

  lemma AfterNone(s: State, events: seq<Event>)
    requires events == []
    ensures Possible(s, events) && After(s, events) == s && Careful(s, events)
  {
  }

  /** One more step. */
  lemma Extend(start: State, s: State, events: seq<Event>, e: Event) returns (s': State, events': seq<Event>)
    requires Possible(start, events) && s == After(start, events) && Enabled(s, e)
    ensures s' == Next(s, e) && events' == events + [e]
    ensures Possible(start, events') && s' == After(start, events')
    ensures Careful(start, events) && !Clobbers(s, e) ==> Careful(start, events')
  {
    s', events' := Next(s, e), events + [e];
    AfterOne(s, e);
    AfterConcat(start, events, [e]);
  }

  /** A process in which `t` has just entered its first block under the file lock on `file`. */
  function Acquired(q: Proc, p: Pid, t: Tid, file: Ofd): Proc
    requires t in q.threads && q.locks != []
  {
    var th := q.threads[t];
    q.(depth := 1, handle := Some(file), owner := Some(t), locks := q.locks[|q.locks| - 1 := RLock(Some(t), 1)],
       contexts := q.contexts + [p], fds := q.fds + {file},
       threads := q.threads[t := Thread(Idle, th.blocks + 1, th.inside + 1)])
  }

  /** A thread that wants the lock of its process while nobody has it, nor the file lock. */
  predicate Uncontended(s: State, p: Pid, t: Tid, file: Ofd) {
    && Has(s, p, t) && s.held == None && file !in s.creator
    && var q := s.procs[p];
       q.threads[t].pc == WantLock && q.depth == 0 && q.locks != [] && q.locks[|q.locks| - 1] == FREE
  }

  /** A local step that closes nothing, spelled out. */
  lemma StepTo(start: State, s: State, events: seq<Event>, e: Event, base: State, q': Proc)
    returns (s': State, events': seq<Event>)
    requires Possible(start, events) && s == After(start, events) && Enabled(s, e) && Local(e)
    requires e.p in base.procs && s.procs == base.procs[e.p := s.procs[e.p]]
    requires s.procs[e.p].threads.Keys == q'.threads.Keys
    requires q'.threads == Moved(s.procs[e.p], e).threads && q' == Moved(s.procs[e.p], e).(threads := q'.threads)
    requires HeldNext(s, e).Some? ==> HeldNext(s, e).value in q'.fds
    ensures events' == events + [e] && Possible(start, events') && s' == After(start, events')
    ensures s' == State(base.procs[e.p := q'], HeldNext(s, e), CreatorNext(s, e), s.usedPids, UnlocksNext(s, e))
    ensures s'.procs == base.procs[e.p := s'.procs[e.p]]
    ensures Careful(start, events) && !Clobbers(s, e) ==> Careful(start, events')
  {
    s', events' := Extend(start, s, events, e);
    assert s.procs[e.p := q'] == base.procs[e.p := q'];
    assert e.p in s'.procs && s'.procs[e.p] == q';
  }

  /** An uncontended acquisition goes through. */
  lemma UncontendedAcquire(start: State, s: State, events: seq<Event>, p: Pid, t: Tid, file: Ofd)
    returns (s': State, events': seq<Event>)
    requires Possible(start, events) && s == After(start, events) && Uncontended(s, p, t, file)
    ensures events' == events + [Fetch(p, t), TakeLock(p, t, file), Flock(p, t), Record(p, t), Count(p, t)]
    ensures Possible(start, events') && s' == After(start, events')
    ensures s' == State(s.procs[p := Acquired(s.procs[p], p, t, file)], Some(file), s.creator[file := p],
                        s.usedPids, s.unlocks)
    ensures Careful(start, events) ==> Careful(start, events')
  {
    var q := s.procs[p];
    s', events' := UncontendedFlock(start, s, events, p, t, file);
    var q4 := At(WithFile(q, t, file).(handle := Some(file), owner := Some(t)), t, Recorded(file));
    s', events' := StepTo(start, s', events', Record(p, t), s, q4);
    s', events' := StepTo(start, s', events', Count(p, t), s, Acquired(q, p, t, file));
  }

  /** The process once `t` has taken the re-entrant lock and opened the file. */
  function WithFile(q: Proc, t: Tid, file: Ofd): Proc
    requires q.locks != []
  {
    q.(locks := q.locks[|q.locks| - 1 := RLock(Some(t), 1)], fds := q.fds + {file})
  }

  lemma UncontendedFlock(start: State, s: State, events: seq<Event>, p: Pid, t: Tid, file: Ofd)
    returns (s': State, events': seq<Event>)
    requires Possible(start, events) && s == After(start, events) && Uncontended(s, p, t, file)
    ensures events' == events + [Fetch(p, t), TakeLock(p, t, file), Flock(p, t)]
    ensures Possible(start, events') && s' == After(start, events')
    ensures s' == State(s.procs[p := At(WithFile(s.procs[p], t, file), t, Locked(file))], Some(file),
                        s.creator[file := p], s.usedPids, s.unlocks)
    ensures s'.procs == s.procs[p := s'.procs[p]]
    ensures Careful(start, events) ==> Careful(start, events')
  {
    s', events' := UncontendedTake(start, s, events, p, t, file);
    s', events' := StepTo(start, s', events', Flock(p, t), s, At(WithFile(s.procs[p], t, file), t, Locked(file)));
  }

  lemma UncontendedTake(start: State, s: State, events: seq<Event>, p: Pid, t: Tid, file: Ofd)
    returns (s': State, events': seq<Event>)
    requires Possible(start, events) && s == After(start, events) && Uncontended(s, p, t, file)
    ensures events' == events + [Fetch(p, t), TakeLock(p, t, file)]
    ensures Possible(start, events') && s' == After(start, events')
    ensures s' == State(s.procs[p := At(WithFile(s.procs[p], t, file), t, Opening(file))], None,
                        s.creator[file := p], s.usedPids, s.unlocks)
    ensures s'.procs == s.procs[p := s'.procs[p]]
    ensures Careful(start, events) ==> Careful(start, events')
  {
    var q := s.procs[p];
    assert s.procs == s.procs[p := q];
    s', events' := StepTo(start, s, events, Fetch(p, t), s, At(q, t, Waiting(|q.locks| - 1)));
    s', events' := StepTo(start, s', events', TakeLock(p, t, file), s, At(WithFile(q, t, file), t, Opening(file)));
  }

  /** An acquisition that fails in `flock` leaves nothing behind but a used description. */
  lemma FailedAcquireRoundTrip(start: State, s: State, events: seq<Event>, p: Pid, t: Tid, file: Ofd)
    returns (s': State, events': seq<Event>)
    requires Possible(start, events) && s == After(start, events) && Uncontended(s, p, t, file)
    requires file !in s.procs[p].fds
    ensures events' == events + [Fetch(p, t), TakeLock(p, t, file), FlockFails(p, t)]
    ensures Possible(start, events') && s' == After(start, events')
    ensures s' == s.(procs := s.procs[p := At(s.procs[p], t, Idle)], creator := s.creator[file := p])
  {
    var q := s.procs[p];
    s', events' := UncontendedTake(start, s, events, p, t, file);
    s', events' := StepTo(start, s', events', FlockFails(p, t), s, At(q, t, Idle));
  }

  /** Entering and leaving a block leaves nothing behind either: the file is unlocked and closed, the re-entrant
      lock free again, and the thread where it was. */
  lemma AcquireReleaseRoundTrip(start: State, s: State, events: seq<Event>, p: Pid, t: Tid, file: Ofd)
    returns (s': State, events': seq<Event>)
    requires Possible(start, events) && s == After(start, events) && Uncontended(s, p, t, file)
    requires file !in s.procs[p].fds
    requires s.procs[p].storedPid == p && s.procs[p].handle == None && s.procs[p].owner == None
    ensures events' == events + [Fetch(p, t), TakeLock(p, t, file), Flock(p, t), Record(p, t), Count(p, t)]
                       + [Leave(p, t), Unlock(p, t)]
    ensures Possible(start, events') && s' == After(start, events')
    ensures s' == s.(procs := s.procs[p := At(s.procs[p], t, Idle)], creator := s.creator[file := p],
                     unlocks := s.unlocks + {(p, file)})
  {
    var q := s.procs[p];
    s', events' := AcquireThenLeave(start, s, events, p, t, file);
    s', events' := StepTo(start, s', events', Unlock(p, t), s, At(q, t, Idle));
    assert events' == events + [Fetch(p, t), TakeLock(p, t, file), Flock(p, t), Record(p, t), Count(p, t)]
                      + [Leave(p, t), Unlock(p, t)];
  }

  lemma AcquireThenLeave(start: State, s: State, events: seq<Event>, p: Pid, t: Tid, file: Ofd)
    returns (s': State, events': seq<Event>)
    requires Possible(start, events) && s == After(start, events) && Uncontended(s, p, t, file)
    requires s.procs[p].storedPid == p && s.procs[p].handle == None && s.procs[p].owner == None
    ensures events' == events + [Fetch(p, t), TakeLock(p, t, file), Flock(p, t), Record(p, t), Count(p, t)]
                       + [Leave(p, t)]
    ensures Possible(start, events') && s' == After(start, events')
    ensures s' == State(s.procs[p := At(WithFile(s.procs[p], t, file), t, Unlocking(file))], Some(file),
                        s.creator[file := p], s.usedPids, s.unlocks)
    ensures s'.procs == s.procs[p := s'.procs[p]]
  {
    var q := s.procs[p];
    s', events' := UncontendedAcquire(start, s, events, p, t, file);
    s', events' := StepTo(start, s', events', Leave(p, t), s, At(WithFile(q, t, file), t, Unlocking(file)));
  }

  /** The thread is inside and holds the re-entrant lock, and the process the file lock. */
  predicate Nestable(s: State, p: Pid, t: Tid) {
    && Has(s, p, t)
    && var q := s.procs[p];
       && q.storedPid == p && q.threads[t].pc == Idle && Owns(q, t) && q.locks != []
       && Present(q).owner == Some(t) && Present(q).count >= 1 && s.held == q.handle && q.handle.value in q.fds
  }

  /** A nested block changes nothing in the end: the lock object, the file and the other threads are as before. */
  lemma NestedRoundTrip(start: State, s: State, events: seq<Event>, p: Pid, t: Tid, file: Ofd)
    returns (s': State, events': seq<Event>)
    requires Possible(start, events) && s == After(start, events) && Nestable(s, p, t) && file !in s.creator
    ensures events' == events + [Enter(p, t), Fetch(p, t), TakeLock(p, t, file), Leave(p, t)]
    ensures Possible(start, events') && s' == After(start, events') && s' == s
  {
    var q := s.procs[p];
    s', events' := NestedEnter(start, s, events, p, t, file);
    LeaveAgain(q, p, t);
    s', events' := StepTo(start, s', events', Leave(p, t), s, q);
    assert s.procs[p := q] == s.procs;
    assert events' == events + [Enter(p, t), Fetch(p, t), TakeLock(p, t, file), Leave(p, t)];
  }

  lemma NestedEnter(start: State, s: State, events: seq<Event>, p: Pid, t: Tid, file: Ofd)
    returns (s': State, events': seq<Event>)
    requires Possible(start, events) && s == After(start, events) && Nestable(s, p, t) && file !in s.creator
    ensures events' == events + [Enter(p, t), Fetch(p, t), TakeLock(p, t, file)]
    ensures Possible(start, events') && s' == After(start, events')
    ensures s' == s.(procs := s.procs[p := Deeper(s.procs[p], p, t)]) && s'.procs == s.procs[p := s'.procs[p]]
  {
    s', events' := NestedFetch(start, s, events, p, t);
    s', events' := StepTo(start, s', events', TakeLock(p, t, file), s, Deeper(s.procs[p], p, t));
  }

  lemma NestedFetch(start: State, s: State, events: seq<Event>, p: Pid, t: Tid)
    returns (s': State, events': seq<Event>)
    requires Possible(start, events) && s == After(start, events) && Nestable(s, p, t)
    ensures events' == events + [Enter(p, t), Fetch(p, t)]
    ensures Possible(start, events') && s' == After(start, events')
    ensures s' == s.(procs := s.procs[p := At(s.procs[p], t, Waiting(|s.procs[p].locks| - 1))])
    ensures s'.procs == s.procs[p := s'.procs[p]]
  {
    var q := s.procs[p];
    assert s.procs == s.procs[p := q];
    s', events' := StepTo(start, s, events, Enter(p, t), s, At(q, t, WantLock));
    s', events' := StepTo(start, s', events', Fetch(p, t), s, At(q, t, Waiting(|q.locks| - 1)));
  }

  /** One level deeper. */
  function Deeper(q: Proc, p: Pid, t: Tid): Proc
    requires t in q.threads && q.locks != []
  {
    Entered(Locking(q, |q.locks| - 1, t), p, t)
  }

  lemma LeaveAgain(q: Proc, p: Pid, t: Tid)
    requires t in q.threads && q.locks != [] && q.storedPid == p && q.threads[t].pc == Idle && Owns(q, t)
    requires Present(q).owner == Some(t) && Present(q).count >= 1
    ensures Exited(Deeper(q, p, t), p, t) == q.(threads := Exited(Deeper(q, p, t), p, t).threads)
    ensures Exited(Deeper(q, p, t), p, t).threads == q.threads
  {
  }

  /** The description that holds the file lock is open somewhere. */
  ghost predicate HeldIsOpen(s: State) {
    s.held.Some? ==> exists p :: p in s.procs && s.held.value in s.procs[p].fds
  }

  /** Every other process goes. */
  lemma {:induction false} OthersExit(start: State, s: State, events: seq<Event>, p: Pid)
    returns (s': State, events': seq<Event>)
    requires Possible(start, events) && s == After(start, events) && p in s.procs && HeldIsOpen(s)
    ensures Possible(start, events') && s' == After(start, events') && events <= events'
    ensures s'.procs == map[p := s.procs[p]] && s'.creator == s.creator
    ensures s'.held == None || (s'.held == s.held && s.held.value in s.procs[p].fds)
    decreases s.procs.Keys
  {
    if other :| other in s.procs && other != p {
      var s1, events1 := Extend(start, s, events, Exit(other));
      assert s1.procs == s.procs - {other};
      assert HeldIsOpen(s1);
      s', events' := OthersExit(start, s1, events1, p);
    } else {
      s', events' := s, events;
      assert s.procs.Keys == {p};
    }
  }

  /** What the discarding reset leaves: the description that was in use is no longer open in this process. */
  lemma AfterClobber(s: State, p: Pid, t: Tid)
    requires Inv(s) && Enabled(s, Reset(p, t)) && Clobbers(s, Reset(p, t))
    ensures var s' := Next(s, Reset(p, t));
            HeldIsOpen(s') && (s'.held.Some? ==> s'.held.value !in s'.procs[p].fds)
  {
    var q := s.procs[p];
    var t' :| t' in q.threads && (q.threads[t'].inside > 0 || q.threads[t'].pc.Recorded?);
    assert ProcOk(p, q, s.held, s.creator) && ThreadOk(q, t', s.held);
    assert q.handle.Some? && s.held == q.handle;
  }

  /** The resetting thread once its reset is done and no other process is left. */
  lemma ResetAlone(s: State, p: Pid, t: Tid) returns (s': State, events: seq<Event>)
    requires Inv(s) && Enabled(s, Reset(p, t)) && Clobbers(s, Reset(p, t))
    ensures Possible(s, events) && s' == After(s, events) && [Reset(p, t)] <= events && s'.creator == s.creator
    ensures p in s'.procs && s'.procs[p] == Moved(s.procs[p], Reset(p, t)) && s'.held == None
  {
    AfterClobber(s, p, t);
    AfterNone(s, []);
    s', events := Extend(s, s, [], Reset(p, t));
    assert [] + [Reset(p, t)] == [Reset(p, t)];
    s', events := OthersExit(s, s', events, p);
  }

  lemma ResettingIsOutside(s: State, p: Pid, t: Tid)
    requires Inv(s) && Enabled(s, Reset(p, t)) && LateReset(s, Reset(p, t))
    ensures s.procs[p].threads[t].inside == 0
  {
    assert ProcOk(p, s.procs[p], s.held, s.creator) && ThreadOk(s.procs[p], t, s.held);
  }

  /** And without the condition exclusion is lost: a late reset that discards a lock in use can always be
      followed by steps after which the resetting thread is inside beside the one that was there. */
  lemma ClobberLetsSecondIn(s: State, p: Pid, t: Tid, t0: Tid, file: Ofd) returns (s': State, events: seq<Event>)
    requires Inv(s) && Enabled(s, Reset(p, t)) && LateReset(s, Reset(p, t)) && file !in s.creator
    requires t0 in s.procs[p].threads && (s.procs[p].threads[t0].inside > 0 || s.procs[p].threads[t0].pc.Recorded?)
    ensures Possible(s, events) && s' == After(s, events) && t != t0 && Inside(s', p, t) && Inside(s', p, t0)
    ensures events != [] && events[0] == Reset(p, t)
  {
    ResettingIsOutside(s, p, t);
    s', events := ResetAlone(s, p, t);
    if s'.procs[p].threads[t].pc == Idle {
      s', events := Extend(s, s', events, Enter(p, t));
    }
    assert s'.procs[p].threads[t0] == s.procs[p].threads[t0];
    s', events := UncontendedAcquire(s, s', events, p, t, file);
    if s'.procs[p].threads[t0].pc.Recorded? {
      s', events := Extend(s, s', events, Count(p, t0));
    }
  }

  /** The lock can always be had again: in every state of a careful run in which nobody of the process has it and the
      file is free, an idle thread, or one that wants the lock, can get inside. */
  lemma VacantLockCanBeTaken(events: seq<Event>, p: Pid, t: Tid, file: Ofd)
    returns (s': State, events': seq<Event>)
    requires Possible(INITIAL, events) && Careful(INITIAL, events)
    requires var s := After(INITIAL, events);
             && Has(s, p, t) && s.procs[p].storedPid == p && Vacant(s.procs[p])
             && s.procs[p].threads[t].pc in {Idle, WantLock} && s.held == None && file !in s.creator
    ensures events <= events' && Possible(INITIAL, events') && s' == After(INITIAL, events')
    ensures Inside(s', p, t) && s'.held == Some(file) && Careful(INITIAL, events')
  {
    VacantLockIsFree(events, p);
    s', events' := After(INITIAL, events), events;
    if s'.procs[p].threads[t].pc == Idle {
      s', events' := Extend(INITIAL, s', events', Enter(p, t));
    }
    s', events' := UncontendedAcquire(INITIAL, s', events', p, t, file);
  }

  // ---------------------------------------------------------------------------
  // What single steps do to the file lock
  // ---------------------------------------------------------------------------

  /** A release frees the file lock even while a child still has the description open. */
  lemma UnlockFreesTheFile(s: State, p: Pid, t: Tid)
    requires Inv(s) && Enabled(s, Unlock(p, t))
    ensures s.held == Some(s.procs[p].threads[t].pc.file)
    ensures Next(s, Unlock(p, t)).held == None
    ensures Next(s, Unlock(p, t)).procs[p].fds == s.procs[p].fds - {s.procs[p].threads[t].pc.file}
  {
    assert ProcOwned(p, s.procs[p], s.creator) && ThreadOwned(p, s.procs[p], t, s.creator);
    assert ProcOk(p, s.procs[p], s.held, s.creator) && ThreadOk(s.procs[p], t, s.held);
  }

  /** A reset closes the inherited description, and takes the file lock from nobody who still has it open. */
  lemma ResetOnlyCloses(s: State, p: Pid, t: Tid)
    requires Enabled(s, Reset(p, t))
    ensures var s' := Next(s, Reset(p, t));
            && s'.procs[p].fds == (set f | f in s.procs[p].fds && s.procs[p].handle != Some(f))
            && s'.unlocks == s.unlocks
            && ((exists p' :: p' in s.procs && p' != p && s.held.Some? && s.held.value in s.procs[p'].fds) ==>
                  s'.held == s.held)
  {
    var s' := Next(s, Reset(p, t));
    assert forall p' | p' in s.procs && p' != p :: s'.procs[p'] == s.procs[p'];
  }

  /** A child that leaves a block it inherited, before it has used the lock, only discards what it inherited: the
      lock object is its own and unused afterwards, and the parent keeps the file lock. */
  lemma ForeignLeaveResets(s: State, p: Pid, t: Tid) returns (s': State, events: seq<Event>)
    requires Enabled(s, Leave(p, t)) && s.procs[p].storedPid != p && s.procs[p].contexts != []
    ensures events == [Leave(p, t), Reset(p, t)] && Possible(s, events) && s' == After(s, events)
    ensures Has(s', p, t)
    ensures var q' := s'.procs[p];
            && q'.storedPid == p && q'.depth == 0 && q'.handle == None && q'.locks != [] && Present(q') == FREE
            && q'.threads[t].pc == Idle && q'.threads[t].blocks == s.procs[p].threads[t].blocks - 1
            && s'.unlocks == s.unlocks
    ensures (exists p' :: p' in s.procs && p' != p && s.held.Some? && s.held.value in s.procs[p'].fds) ==>
              s'.held == s.held
  {
    AfterNone(s, []);
    s', events := Extend(s, s, [], Leave(p, t));
    assert [] + [Leave(p, t)] == [Leave(p, t)];
    assert forall p' | p' in s.procs && p' != p :: s'.procs[p'] == s.procs[p'];
    var middle := s';
    ResetOnlyCloses(middle, p, t);
    s', events := Extend(s, s', events, Reset(p, t));
  }

  /** The file lock dies with the last process that has its description open, and not before. */
  lemma ExitFreesIffLast(s: State, p: Pid)
    requires p in s.procs && s.held.Some?
    ensures Next(s, Exit(p)).held == None <==>
            forall p' | p' in s.procs && p' != p :: s.held.value !in s.procs[p'].fds
  {
    var procs := s.procs - {p};
    assert forall p' | p' in s.procs && p' != p :: p' in procs && procs[p'] == s.procs[p'];
  }

  // ---------------------------------------------------------------------------
  // Such runs exist
  // ---------------------------------------------------------------------------

  lemma InitialIsSound()
    ensures Inv(INITIAL)
  {
  }

  function Sleeper(): Proc {
    NewProc(1, 0)
  }

  function Child(storedPid: Pid, locks: seq<RLock>, first: Pc, second: Pc): Proc {
    Proc(storedPid, 0, None, None, locks, [], {}, map[0 := Thread(first, 0, 0), 1 := Thread(second, 0, 0)])
  }

  function TwoProcs(child: Proc): State {
    State(map[1 := Sleeper(), 2 := child], None, map[], {1, 2}, {})
  }

  lemma ForkedChild() returns (s: State, events: seq<Event>)
    ensures Possible(INITIAL, events) && s == After(INITIAL, events) && Careful(INITIAL, events)
    ensures s == TwoProcs(Child(1, [FREE], Idle, Idle))
  {
    AfterNone(INITIAL, []);
    s, events := Extend(INITIAL, INITIAL, [], Start(1, 0));
    s, events := Extend(INITIAL, s, events, Fork(1, 0, 2));
    s, events := Extend(INITIAL, s, events, Spawn(2, 1));
    assert s.procs == TwoProcs(Child(1, [FREE], Idle, Idle)).procs;
    assert s.usedPids == {1, 2};
  }

  /** The two threads of a forked child have both seen the parent's pid. */
  lemma BothSeeForeignPid() returns (s: State, events: seq<Event>)
    ensures Possible(INITIAL, events) && s == After(INITIAL, events) && Careful(INITIAL, events)
    ensures s == TwoProcs(Child(1, [FREE], MustReset(true), MustReset(true)))
  {
    s, events := ForkedChild();
    var base := s;
    assert s.procs == base.procs[2 := s.procs[2]];
    s, events := StepTo(INITIAL, s, events, Enter(2, 0), base, Child(1, [FREE], MustReset(true), Idle));
    s, events := StepTo(INITIAL, s, events, Enter(2, 1), base, Child(1, [FREE], MustReset(true), MustReset(true)));
    assert s.procs == TwoProcs(Child(1, [FREE], MustReset(true), MustReset(true))).procs;
  }

  lemma OneHasReset() returns (s: State, events: seq<Event>)
    ensures Possible(INITIAL, events) && s == After(INITIAL, events) && Careful(INITIAL, events)
    ensures s == TwoProcs(Child(2, [FREE, FREE], WantLock, MustReset(true)))
  {
    s, events := BothSeeForeignPid();
    var base := s;
    assert s.procs == base.procs[2 := s.procs[2]];
    s, events := StepTo(INITIAL, s, events, Reset(2, 0), base, Child(2, [FREE, FREE], WantLock, MustReset(true)));
    assert s.procs == TwoProcs(Child(2, [FREE, FREE], WantLock, MustReset(true))).procs;
  }

  /** Mutual exclusion fails: two threads of a forked child that first use the lock at the same time can
      both end up inside. */
  lemma LateResetBreaksExclusion() returns (s: State, events: seq<Event>)
    ensures Possible(INITIAL, events) && s == After(INITIAL, events)
    ensures Inside(s, 2, 0) && Inside(s, 2, 1)
  {
    s, events := OneHasReset();
    s, events := UncontendedAcquire(INITIAL, s, events, 2, 0, 10);
    InitialIsSound();
    RunKeepsInv(INITIAL, events);
    var s', more := ClobberLetsSecondIn(s, 2, 1, 0, 11);
    AfterConcat(INITIAL, events, more);
    s, events := s', events + more;
  }

  lemma StoredNotCounted() returns (s: State, events: seq<Event>)
    ensures Possible(INITIAL, events) && s == After(INITIAL, events) && Careful(INITIAL, events)
    ensures s.procs.Keys == {1, 2} && s.held == Some(10) && s.creator == map[10 := 2] && s.procs[1] == Sleeper()
    ensures s.procs[2] == Proc(2, 0, Some(0), Some(10), [FREE, RLock(Some(0), 1)], [], {10},
                               map[0 := Thread(Recorded(10), 0, 0), 1 := Thread(MustReset(true), 0, 0)])
  {
    s, events := OneHasReset();
    var base := s;
    s, events := UncontendedFlock(INITIAL, base, events, 2, 0, 10);
    var q := Proc(2, 0, Some(0), Some(10), [FREE, RLock(Some(0), 1)], [], {10},
                  map[0 := Thread(Recorded(10), 0, 0), 1 := Thread(MustReset(true), 0, 0)]);
    s, events := StepTo(INITIAL, s, events, Record(2, 0), base, q);
  }

  /** That no thread is inside when the late reset comes is not enough: the handle is stored before the
      thread is counted. */
  lemma NobodyInsideIsNotEnough() returns (before: State, events: seq<Event>, more: seq<Event>)
    ensures Possible(INITIAL, events) && before == After(INITIAL, events) && Careful(INITIAL, events)
    ensures forall p, t :: !Inside(before, p, t)
    ensures Possible(before, more) && more != [] && LateReset(before, more[0])
    ensures Inside(After(before, more), 2, 0) && Inside(After(before, more), 2, 1)
  {
    before, events := StoredNotCounted();
    InitialIsSound();
    RunKeepsInv(INITIAL, events);
    var s';
    s', more := ClobberLetsSecondIn(before, 2, 1, 0, 11);
  }

  // ---------------------------------------------------------------------------
  // What the shared context stack does
  // ---------------------------------------------------------------------------

  /** Leaving its outermost block, the owner gives the lock up exactly when the context on
      top of the stack is one its own process pushed. */
  lemma LastLeaveReleasesIff(s: State, p: Pid, t: Tid)
    requires Inv(s) && Enabled(s, Leave(p, t)) && Inside(s, p, t) && s.procs[p].depth == 1
    ensures Next(s, Leave(p, t)).procs[p].handle == None <==> TopContextIs(s.procs[p], p)
    ensures TopContextIs(s.procs[p], p) ==>
              Next(s, Leave(p, t)).procs[p].threads[t].pc == Unlocking(s.procs[p].handle.value)
  {
    assert ProcOk(p, s.procs[p], s.held, s.creator) && ThreadOk(s.procs[p], t, s.held);
  }

  lemma ParentIsInside() returns (s: State, events: seq<Event>)
    ensures Possible(INITIAL, events) && s == After(INITIAL, events)
    ensures s == State(map[1 := Holder(1)], Some(10), map[10 := 1], {1}, {})
  {
    AfterNone(INITIAL, []);
    s, events := Extend(INITIAL, INITIAL, [], Start(1, 0));
    s, events := Extend(INITIAL, s, events, Enter(1, 0));
    assert s == State(map[1 := At(NewProc(1, 0), 0, WantLock)], None, map[], {1}, {});
    s, events := UncontendedAcquire(INITIAL, s, events, 1, 0, 10);
    assert s.procs[1].locks == [RLock(Some(0), 1)] && s.procs[1].contexts == [1] && s.procs[1].fds == {10};
    assert s.procs[1].threads == map[0 := Thread(Idle, 1, 1)];
    assert s.procs == map[1 := Holder(1)];
  }

  /** A parent inside the lock, and the child it forked there, inside an inherited block. */
  lemma ChildInsideItsParentsBlock() returns (s: State, events: seq<Event>)
    ensures Possible(INITIAL, events) && s == After(INITIAL, events)
    ensures s == State(map[1 := Holder(1), 2 := Holder(0)], Some(10), map[10 := 1], {1, 2}, {})
  {
    s, events := ParentIsInside();
    s, events := Extend(INITIAL, s, events, Fork(1, 0, 2));
    assert s.procs[2] == Holder(0);
  }

  /** A process whose only thread holds the lock with file 10, entered here or inherited. */
  function Holder(inside: nat): Proc {
    Proc(1, 1, Some(0), Some(10), [RLock(Some(0), 1)], [1], {10}, map[0 := Thread(Idle, 1, inside)])
  }

  lemma ParentGivesUp() returns (s: State, events: seq<Event>)
    ensures Possible(INITIAL, events) && s == After(INITIAL, events)
    ensures s.procs.Keys == {1, 2} && s.procs[2] == Holder(0) && s.held == Some(10) && s.creator == map[10 := 1]
    ensures s.procs[1].threads == map[0 := Thread(Unlocking(10), 0, 0)]
  {
    s, events := ChildInsideItsParentsBlock();
    s, events := Extend(INITIAL, s, events, Leave(1, 0));
  }

  lemma ParentHasLeft() returns (s: State, events: seq<Event>)
    ensures Possible(INITIAL, events) && s == After(INITIAL, events)
    ensures s.procs.Keys == {1, 2} && s.procs[2] == Holder(0) && s.held == None && s.creator == map[10 := 1]
  {
    s, events := ParentGivesUp();
    s, events := Extend(INITIAL, s, events, Unlock(1, 0));
  }

  lemma ChildThreadWaits() returns (s: State, events: seq<Event>)
    ensures Possible(INITIAL, events) && s == After(INITIAL, events)
    ensures s.procs.Keys == {1, 2} && s.held == None && s.creator == map[10 := 1]
    ensures s.procs[2] == Proc(2, 0, None, None, [RLock(Some(0), 1), FREE], [1], {},
                               map[0 := Thread(Idle, 1, 0), 1 := Thread(WantLock, 0, 0)])
  {
    s, events := ParentHasLeft();
    s, events := Extend(INITIAL, s, events, Spawn(2, 1));
    s, events := Extend(INITIAL, s, events, Enter(2, 1));
    s, events := Extend(INITIAL, s, events, Reset(2, 1));
    assert s.procs[2].threads == map[0 := Thread(Idle, 1, 0), 1 := Thread(WantLock, 0, 0)];
    assert s.procs[2].fds == {};
  }

  lemma ChildThreadHolds() returns (s: State, events: seq<Event>)
    ensures Possible(INITIAL, events) && s == After(INITIAL, events)
    ensures s.procs.Keys == {1, 2} && s.held == Some(11) && s.creator == map[10 := 1, 11 := 2]
    ensures s.procs[2] == Proc(2, 1, Some(1), Some(11), [RLock(Some(0), 1), RLock(Some(1), 1)], [1, 2], {11},
                               map[0 := Thread(Idle, 1, 0), 1 := Thread(Idle, 1, 1)])
  {
    s, events := ChildThreadWaits();
    s, events := UncontendedAcquire(INITIAL, s, events, 2, 1, 11);
    assert s.procs[2].contexts == [1, 2] && s.procs[2].fds == {11};
    assert s.procs[2].locks == [RLock(Some(0), 1), RLock(Some(1), 1)];
    assert s.procs[2].threads == map[0 := Thread(Idle, 1, 0), 1 := Thread(Idle, 1, 1)];
  }

  /** It can be another's: when a thread of a child leaves a block it inherited while a
      second thread holds the lock, the stack is popped out of turn, and the holder later
      leaves without releasing.  No thread is in a block, yet the file stays locked. */
  lemma InheritedBlockCanStrandTheLock() returns (s: State, events: seq<Event>)
    ensures Possible(INITIAL, events) && s == After(INITIAL, events)
    ensures 2 in s.procs && s.procs[2].threads.Keys == {0, 1}
    ensures s.procs[2].threads[0] == s.procs[2].threads[1] == Thread(Idle, 0, 0)
    ensures s.procs[2].depth == 1 && s.held == Some(11) && s.creator == map[10 := 1, 11 := 2]
  {
    s, events := ChildThreadHolds();
    s, events := Extend(INITIAL, s, events, Leave(2, 0));
    assert s.procs[2].contexts == [1];
    s, events := Extend(INITIAL, s, events, Leave(2, 1));
  }
}
