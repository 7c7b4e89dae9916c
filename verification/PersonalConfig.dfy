/**
 The personal provider configuration: a file with many writers, all of them behind a lock, and a repository that polls
 it without taking the lock. What it has observed must not go back to an older commit.
 */
module PersonalConfig {
  import opened Wrappers

  /** A configuration in canonical form. Its revision is a hash of it, so the revision is the document here. */
  type Document = string

  const EMPTY: Document := ""

  /** The file as committed: absent, or a document, written in canonical form or not. */
  datatype File = Missing | Stored(document: Document, canonical: bool)

  function Revision(file: File): Document {
    if file.Missing? then EMPTY else file.document
  }

  datatype Config = Config(polls: bool, imported: Option<Document>)

  /** What reading under the lock writes first: imported settings where there is no file, or the canonical form. */
  function NeedsWrite(c: Config, file: File): Option<File> {
    match file
    case Missing => if c.imported.Some? then Some(Stored(c.imported.value, true)) else None
    case Stored(document, canonical) => if canonical then None else Some(Stored(document, true))
  }

  // ---------- the repository's own fields

  datatype Notice = Updated | PollChanged | PollError

  datatype Repo = Repo(
    writeGeneration: nat,
    observedRevision: Option<Document>,
    timerArmed: bool,
    pollingInFlight: bool,
    pollingErrorActive: bool,
    disposed: bool,
    emitted: seq<Notice>)  // history: what the listeners were told

  /** What a poll read; `None` when reading failed. */
  type Snapshot = Option<Document>

  function EnsurePolling(c: Config, r: Repo): Repo {
    if !c.polls || r.timerArmed || r.pollingInFlight || r.disposed then r else r.(timerArmed := true)
  }

  function Emit(r: Repo, notice: Notice): Repo {
    if r.disposed then r else r.(emitted := r.emitted + [notice])
  }

  function ReadFinished(c: Config, r: Repo, revision: Document): Repo {
    EnsurePolling(c, if r.observedRevision.None? then r.(observedRevision := Some(revision)) else r)
  }

  function WriteFinished(r: Repo): Repo {
    r.(writeGeneration := r.writeGeneration + 1)
  }

  /** The end of a commit: nothing can come between the new generation and the new observed revision. */
  function CommitFinished(r: Repo, revision: Document): Repo {
    WriteFinished(r).(observedRevision := Some(revision))
  }

  function UpdateFinished(c: Config, r: Repo): Repo {
    EnsurePolling(c, Emit(r, Updated))
  }

  function PollStarted(r: Repo): Repo {
    r.(timerArmed := false, pollingInFlight := true)
  }

  function PollConcluded(r: Repo, writeGeneration: nat, snapshot: Snapshot): Repo {
    if writeGeneration != r.writeGeneration then r
    else
      match snapshot
      case Some(revision) =>
        var r' := r.(pollingErrorActive := false);
        if r.disposed || r.observedRevision == Some(revision) then r'
        else Emit(r'.(observedRevision := Some(revision)), PollChanged)
      case None =>
        if r.disposed || r.pollingErrorActive then r else Emit(r.(pollingErrorActive := true), PollError)
  }

  function PollFinished(c: Config, r: Repo, writeGeneration: nat, snapshot: Snapshot): Repo {
    EnsurePolling(c, PollConcluded(r, writeGeneration, snapshot).(pollingInFlight := false))
  }

  function Disposed(r: Repo): Repo {
    if r.disposed then r else r.(disposed := true, timerArmed := false)
  }

  /** A timer is armed only where polling is on, and never while a poll is in flight or after disposal. */
  predicate TimerOk(c: Config, r: Repo) {
    r.timerArmed ==> c.polls && !r.pollingInFlight && !r.disposed
  }

  /** Polling goes on: the next poll is due or in flight, exactly one of the two. */
  predicate Going(r: Repo) {
    r.timerArmed != r.pollingInFlight
  }

  /** The object, one method for each stretch between two awaits. */
  class PersonalConfigRepository {
    const config: Config
    var writeGeneration: nat
    var observedRevision: Option<Document>
    var pollingTimer: bool
    var pollingInFlight: bool
    var pollingErrorActive: bool
    var disposed: bool
    ghost var emitted: seq<Notice>

    ghost function State(): Repo
      reads this
    {
      Repo(writeGeneration, observedRevision, pollingTimer, pollingInFlight, pollingErrorActive, disposed, emitted)
    }

    ghost predicate Valid()
      reads this
    {
      TimerOk(config, State())
    }

    constructor (config: Config)
      ensures this.config == config && State() == Repo(0, None, false, false, false, false, []) && Valid()
    {
      this.config := config;
      writeGeneration, observedRevision := 0, None;
      pollingTimer, pollingInFlight, pollingErrorActive, disposed := false, false, false, false;
      emitted := [];
    }

    /** Afterwards polling goes on, unless it is off or the repository is disposed; a second poll is never started. */
    method EnsureTimer()
      requires Valid()
      modifies this`pollingTimer
      ensures Valid() && State() == EnsurePolling(config, old(State()))
      ensures config.polls && !disposed ==> Going(State())
    {
      if !config.polls || pollingTimer || pollingInFlight || disposed {
        return;
      }
      pollingTimer := true;
    }

    method Notify(notice: Notice)
      modifies this`emitted
      ensures State() == Emit(old(State()), notice)
    {
      if disposed {
        return;
      }
      emitted := emitted + [notice];
    }

    /** `read` once its snapshot is there: only the first snapshot counts as observed. */
    method FinishRead(revision: Document)
      requires Valid()
      modifies this
      ensures Valid() && State() == ReadFinished(config, old(State()), revision)
      ensures observedRevision.Some? && (config.polls && !disposed ==> Going(State()))
    {
      if observedRevision.None? {
        observedRevision := Some(revision);
      }
      EnsureTimer();
    }

    /** The end of a locked write: every poll that began before is overtaken. */
    method FinishWrite()
      requires Valid()
      modifies this
      ensures Valid() && State() == WriteFinished(old(State()))
    {
      writeGeneration := writeGeneration + 1;
    }

    /** The end of a commit of `update`, in the same stretch as the end of its write. */
    method FinishCommit(revision: Document)
      requires Valid()
      modifies this
      ensures Valid() && State() == CommitFinished(old(State()), revision)
    {
      FinishWrite();
      observedRevision := Some(revision);
    }

    /** `update` once the lock is released. */
    method FinishUpdate()
      requires Valid()
      modifies this
      ensures Valid() && State() == UpdateFinished(config, old(State()))
      ensures config.polls && !disposed ==> Going(State())
    {
      Notify(Updated);
      EnsureTimer();
    }

    /** The timer's callback up to the reading of the file. */
    method StartPoll() returns (generation: nat)
      requires Valid() && pollingTimer
      modifies this
      ensures Valid() && State() == PollStarted(old(State())) && generation == writeGeneration
      ensures Going(State())
    {
      pollingTimer := false;
      pollingInFlight := true;
      generation := writeGeneration;
    }

    method FinishPoll(generation: nat, snapshot: Snapshot)
      requires Valid() && pollingInFlight
      modifies this
      ensures Valid() && State() == PollFinished(config, old(State()), generation, snapshot)
      ensures config.polls && !disposed ==> Going(State())
    {
      ConcludePoll(generation, snapshot);
      pollingInFlight := false;
      EnsureTimer();
    }

    method ConcludePoll(generation: nat, snapshot: Snapshot)
      requires Valid()
      modifies this
      ensures Valid() && State() == PollConcluded(old(State()), generation, snapshot)
    {
      if generation != writeGeneration {
        return;
      }
      match snapshot {
        case Some(revision) =>
          pollingErrorActive := false;
          if disposed || observedRevision == Some(revision) {
            return;
          }
          observedRevision := Some(revision);
          Notify(PollChanged);
        case None =>
          if !disposed && !pollingErrorActive {
            pollingErrorActive := true;
            Notify(PollError);
          }
      }
    }

    method Dispose()
      requires Valid()
      modifies this
      ensures Valid() && State() == Disposed(old(State())) && disposed && !pollingTimer
    {
      if disposed {
        return;
      }
      disposed := true;
      pollingTimer := false;
    }
  }

  // ---------- the repository among other processes

  /** Who holds the lock in this process, and how far it is. */
  datatype Lock =
    | Free
    | Held(updates: bool, stage: Stage)

  datatype Stage =
    | Ready        // may have to write before it goes on
    | Normalised   // wrote the imported or canonical form, generation not bumped yet
    | Committed    // wrote an update, generation not bumped yet
    | Observed     // bumped the generation and observed the commit

  /** A poll on its way; `index` is the commit it read. `blind` if it began before anything had been observed. */
  datatype Poll =
    | Idle
    | Started(generation: nat, blind: bool)
    | HasRead(generation: nat, blind: bool, index: nat)
    | HasFailed(generation: nat, blind: bool)

  datatype World = World(
    repo: Repo,
    commits: seq<File>,    // every content of the file so far, the current one last
    lock: Lock,
    waitingReads: nat,     // reads of this process that wait for the lock
    waitingUpdates: nat,   // and updates
    unannounced: seq<nat>, // updates, by commit, that have released the lock and are still to tell the listeners
    arrived: seq<nat>,     // reads that have their snapshot, by commit, and are still to finish
    poll: Poll,
    seen: nat,             // history: the commit that `observedRevision` was taken from
    mine: set<nat>,        // history: the commits made by this process's updates
    notices: seq<(Notice, nat)>)  // history: what the listeners were told, errors aside, and of which commit

  function Init(file: File): World {
    World(Repo(0, None, false, false, false, false, []), [file], Free, 0, 0, [], [], Idle, 0, {}, [])
  }

  datatype Op =
    | OtherCommits(file: File)
    | ReadStarts
    | LockForRead
    | UpdateStarts
    | LockForUpdate
    | LockedWrite
    | LockedBump
    | LockedReadDone
    | Commit(document: Document)
    | UpdateNotLocked
    | UpdateFails
    | UpdateUnlocks
    | UpdateDone(k: nat)
    | ReadDone(k: nat)
    | TimerFires
    | PollReads
    | PollFails
    | PollDone
    | DisposeCalled

  function Last(w: World): nat
    requires w.commits != []
  {
    |w.commits| - 1
  }

  function Current(w: World): File
    requires w.commits != []
  {
    w.commits[|w.commits| - 1]
  }

  predicate Enabled(c: Config, w: World, op: Op)
    requires w.commits != []
  {
    match op
    case OtherCommits(_) => w.lock.Free?
    case ReadStarts => !w.repo.disposed
    case LockForRead => w.lock.Free? && w.waitingReads > 0
    case UpdateStarts => !w.repo.disposed
    case LockForUpdate => w.lock.Free? && w.waitingUpdates > 0
    case LockedWrite => w.lock.Held? && w.lock.stage == Ready && NeedsWrite(c, Current(w)).Some?
    case LockedBump => w.lock.Held? && (w.lock.stage == Normalised || w.lock.stage == Committed)
    case LockedReadDone => w.lock == Held(false, Ready) && NeedsWrite(c, Current(w)).None?
    case Commit(_) => w.lock == Held(true, Ready) && NeedsWrite(c, Current(w)).None?
    case UpdateFails => w.lock == Held(true, Ready)
    case UpdateNotLocked => w.waitingUpdates > 0
    case UpdateUnlocks => w.lock == Held(true, Observed)
    case UpdateDone(k) => k < |w.unannounced|
    case ReadDone(k) => k < |w.arrived| && w.arrived[k] < |w.commits|
    case TimerFires => w.repo.timerArmed
    case PollReads => w.poll.Started?
    case PollFails => w.poll.Started?
    case PollDone => w.poll.HasFailed? || (w.poll.HasRead? && w.poll.index < |w.commits|)
    case DisposeCalled => true
  }

  /** One step; an operation that cannot happen changes nothing. */
  function Step(c: Config, w: World, op: Op): (w': World)
    requires w.commits != []
    ensures w'.commits != []
  {
    if !Enabled(c, w, op) then w
    else
      match op
      case OtherCommits(file) => w.(commits := w.commits + [file])
      case ReadStarts =>
        if NeedsWrite(c, Current(w)).None? then w.(arrived := w.arrived + [Last(w)])
        else w.(waitingReads := w.waitingReads + 1)
      case LockForRead => w.(lock := Held(false, Ready), waitingReads := w.waitingReads - 1)
      case UpdateStarts => w.(waitingUpdates := w.waitingUpdates + 1)
      case LockForUpdate => w.(lock := Held(true, Ready), waitingUpdates := w.waitingUpdates - 1)
      case LockedWrite =>
        w.(commits := w.commits + [NeedsWrite(c, Current(w)).value], lock := w.lock.(stage := Normalised))
      case LockedBump =>
        if w.lock.stage == Committed then
          w.(repo := CommitFinished(w.repo, Revision(Current(w))), lock := w.lock.(stage := Observed), seen := Last(w))
        else w.(repo := WriteFinished(w.repo), lock := w.lock.(stage := Ready))
      case LockedReadDone => w.(lock := Free, arrived := w.arrived + [Last(w)])
      case Commit(document) =>
        w.(commits := w.commits + [Stored(document, true)], lock := w.lock.(stage := Committed),
           mine := w.mine + {|w.commits|})
      case UpdateNotLocked => w.(waitingUpdates := w.waitingUpdates - 1, repo := EnsurePolling(c, w.repo))
      case UpdateFails => w.(lock := Free, repo := EnsurePolling(c, w.repo))
      case UpdateUnlocks => w.(lock := Free, unannounced := w.unannounced + [Last(w)])
      case UpdateDone(k) =>
        w.(repo := UpdateFinished(c, w.repo), unannounced := w.unannounced[..k] + w.unannounced[k + 1..],
           notices := if w.repo.disposed then w.notices else w.notices + [(Updated, w.unannounced[k])])
      case ReadDone(k) =>
        var index := w.arrived[k];
        w.(arrived := w.arrived[..k] + w.arrived[k + 1..],
           repo := ReadFinished(c, w.repo, Revision(w.commits[index])),
           seen := if w.repo.observedRevision.None? then index else w.seen)
      case TimerFires =>
        w.(repo := PollStarted(w.repo), poll := Started(w.repo.writeGeneration, w.repo.observedRevision.None?))
      case PollReads => w.(poll := HasRead(w.poll.generation, w.poll.blind, Last(w)))
      case PollFails => w.(poll := HasFailed(w.poll.generation, w.poll.blind))
      case PollDone =>
        var snapshot := if w.poll.HasRead? then Some(Revision(w.commits[w.poll.index])) else None;
        var repo := PollFinished(c, w.repo, w.poll.generation, snapshot);
        if repo.observedRevision == w.repo.observedRevision then w.(poll := Idle, repo := repo)
        else
          w.(poll := Idle, repo := repo, seen := w.poll.index, notices := w.notices + [(PollChanged, w.poll.index)])
      case DisposeCalled => w.(repo := Disposed(w.repo))
  }

  function Run(c: Config, w: World, ops: seq<Op>): (w': World)
    requires w.commits != []
    ensures w'.commits != []
  {
    if ops == [] then w else Step(c, Run(c, w, ops[..|ops| - 1]), ops[|ops| - 1])
  }

  // ---------- what every step keeps

  ghost predicate Inv(w: World) {
    && w.commits != []
    && (forall i :: 0 <= i < |w.arrived| ==> w.arrived[i] < |w.commits|)
    && (w.repo.observedRevision.Some? ==>
          w.seen < |w.commits| && w.repo.observedRevision == Some(Revision(w.commits[w.seen])))
    && (w.poll.Idle? <==> !w.repo.pollingInFlight)
    && (w.repo.timerArmed ==> !w.repo.pollingInFlight && !w.repo.disposed)
    && PollInv(w)
  }

  /** A poll of the current generation that did not begin blind has read nothing older than what was observed. */
  ghost predicate PollInv(w: World)
    requires w.commits != []
  {
    && (!w.poll.Idle? ==>
          w.poll.generation <= w.repo.writeGeneration && (!w.poll.blind ==> w.repo.observedRevision.Some?))
    && (w.poll.HasRead? ==> w.poll.index < |w.commits|)
    && (w.poll.HasRead? && w.poll.generation == w.repo.writeGeneration ==>
          && (!w.poll.blind ==> w.seen <= w.poll.index)
          && (w.lock.Held? && w.lock.stage == Observed ==> w.poll.index == Last(w)))
  }

  lemma {:induction false} StepKeepsInv(c: Config, w: World, op: Op)
    requires Inv(w)
    ensures Inv(Step(c, w, op))
  {
    StepKeepsPoll(c, w, op);
    hide PollInv, NeedsWrite;
  }

  lemma {:induction false} StepKeepsPoll(c: Config, w: World, op: Op)
    requires Inv(w)
    ensures PollInv(Step(c, w, op))
  {
    hide NeedsWrite;
  }

  lemma {:induction false} RunKeepsInv(c: Config, w: World, ops: seq<Op>)
    requires Inv(w)
    ensures Inv(Run(c, w, ops))
  {
    if ops != [] {
      RunKeepsInv(c, w, ops[..|ops| - 1]);
      StepKeepsInv(c, Run(c, w, ops[..|ops| - 1]), ops[|ops| - 1]);
    }
  }

  // ---------- the observed revision

  /** The observed revision is taken from an older commit than before. */
  ghost predicate MovesBack(w: World, w': World) {
    w.repo.observedRevision.Some? && w'.seen < w.seen
  }

  /** A poll that began before a local commit is discarded, so only a poll that began blind can move it back. */
  lemma {:induction false} OnlyBlindPollsMoveBack(c: Config, w: World, op: Op)
    requires Inv(w) && MovesBack(w, Step(c, w, op))
    ensures op.PollDone? && w.poll.HasRead? && w.poll.blind && w.poll.generation == w.repo.writeGeneration
  {
  }

  /** Something has been observed, and no poll is under way that began before that. */
  ghost predicate Sighted(w: World) {
    w.repo.observedRevision.Some? && (w.poll.Idle? || !w.poll.blind)
  }

  lemma {:induction false} StepStaysSighted(c: Config, w: World, op: Op)
    requires Inv(w) && Sighted(w)
    ensures Sighted(Step(c, w, op))
  {
  }

  lemma {:induction false} StaysSighted(c: Config, w: World, ops: seq<Op>)
    requires Inv(w) && Sighted(w)
    ensures Sighted(Run(c, w, ops))
  {
    assert w.commits != [];
    hide Step, Inv, Sighted;
    if ops != [] {
      StaysSighted(c, w, ops[..|ops| - 1]);
      RunKeepsInv(c, w, ops[..|ops| - 1]);
      StepStaysSighted(c, Run(c, w, ops[..|ops| - 1]), ops[|ops| - 1]);
    }
  }

  /** Some run from here has a step that moves the observed revision back. */
  ghost predicate CanMoveBack(c: Config, w: World)
    requires w.commits != []
  {
    exists ops, op :: MovesBack(Run(c, w, ops), Step(c, Run(c, w, ops), op))
  }

  lemma {:induction false} SightedNeverMovesBack(c: Config, w: World)
    requires Inv(w) && Sighted(w)
    ensures !CanMoveBack(c, w)
  {
    forall ops, op
      ensures !MovesBack(Run(c, w, ops), Step(c, Run(c, w, ops), op))
    {
      RunKeepsInv(c, w, ops);
      StaysSighted(c, w, ops);
      if MovesBack(Run(c, w, ops), Step(c, Run(c, w, ops), op)) {
        OnlyBlindPollsMoveBack(c, Run(c, w, ops), op);
        assert false;
      }
    }
  }

  /**
   When the timer is about to fire: the observed revision can ever move back exactly when nothing has been observed yet.
   The failing run: the poll reads, another process commits, a `read` observes that commit, and the poll ends.
   */
  lemma {:induction false} MovesBackExactlyWhenBlind(c: Config, w: World)
    requires Inv(w) && w.repo.timerArmed && !w.repo.disposed && w.lock.Free?
    ensures CanMoveBack(c, w) <==> w.repo.observedRevision.None?
  {
    if w.repo.observedRevision.Some? {
      SightedNeverMovesBack(c, w);
    } else {
      var file := Stored(Revision(Current(w)) + "x", true);
      var ops := [TimerFires, PollReads, OtherCommits(file), ReadStarts, ReadDone(|w.arrived|)];
      var w1 := Step(c, w, TimerFires);
      var w2 := Step(c, w1, PollReads);
      var w3 := Step(c, w2, OtherCommits(file));
      var w4 := Step(c, w3, ReadStarts);
      var w5 := Step(c, w4, ReadDone(|w.arrived|));
      FiveSteps(c, w, ops);
      BlindRun(c, w, file, w2, w3, w5);
      assert MovesBack(Run(c, w, ops), Step(c, Run(c, w, ops), PollDone));
    }
  }

  lemma {:induction false} FiveSteps(c: Config, w: World, ops: seq<Op>)
    requires w.commits != [] && |ops| == 5
    ensures Run(c, w, ops) == Step(c, Step(c, Step(c, Step(c, Step(c, w, ops[0]), ops[1]), ops[2]), ops[3]), ops[4])
  {
    hide Step;
    assert ops[..4][..3] == ops[..3] && ops[..3][..2] == ops[..2] && ops[..2][..1] == ops[..1] && ops[..1][..0] == [];
    assert Run(c, w, ops[..1]) == Step(c, w, ops[0]);
    assert Run(c, w, ops[..2]) == Step(c, Run(c, w, ops[..1]), ops[1]);
    assert Run(c, w, ops[..3]) == Step(c, Run(c, w, ops[..2]), ops[2]);
    assert Run(c, w, ops[..4]) == Step(c, Run(c, w, ops[..3]), ops[3]);
  }

  lemma {:induction false} BlindRun(c: Config, w: World, file: File, w2: World, w3: World, w5: World)
    requires Inv(w) && w.repo.timerArmed && !w.repo.disposed && w.lock.Free? && w.repo.observedRevision.None?
    requires file.Stored? && file.canonical && file.document != Revision(Current(w))
    requires w2 == Step(c, Step(c, w, TimerFires), PollReads) && w3 == Step(c, w2, OtherCommits(file))
    requires w5 == Step(c, Step(c, w3, ReadStarts), ReadDone(|w.arrived|))
    ensures MovesBack(w5, Step(c, w5, PollDone))
  {
    assert w2.poll == HasRead(w.repo.writeGeneration, true, Last(w)) && w2.arrived == w.arrived;
    assert Current(w3) == file && w3.commits[Last(w)] == Current(w);
    ReadsTheLast(c, w3);
    BlindPollEnds(c, w5);
    hide *;
  }

  lemma {:induction false} ReadsTheLast(c: Config, w: World)
    requires w.commits != [] && !w.repo.disposed && w.repo.observedRevision.None? && NeedsWrite(c, Current(w)).None?
    ensures var w' := Step(c, Step(c, w, ReadStarts), ReadDone(|w.arrived|));
            && w'.seen == Last(w) && w'.repo.observedRevision == Some(Revision(Current(w))) && w'.poll == w.poll
            && w'.commits == w.commits && w'.repo.writeGeneration == w.repo.writeGeneration && !w'.repo.disposed
  {
  }

  lemma {:induction false} BlindPollEnds(c: Config, w: World)
    requires w.commits != [] && w.poll.HasRead? && w.poll.generation == w.repo.writeGeneration && !w.repo.disposed
    requires w.poll.index < w.seen < |w.commits|
    requires w.repo.observedRevision.Some? && w.repo.observedRevision != Some(Revision(w.commits[w.poll.index]))
    ensures MovesBack(w, Step(c, w, PollDone))
  {
  }

  // ---------- from the start

  /** That condition does arise: an update that fails, with nothing read before it, starts the polling. */
  lemma {:induction false} AnEarlyFailureIsBlind(c: Config, file: File)
    requires c.polls
    ensures CanMoveBack(c, Run(c, Init(file), [UpdateStarts, LockForUpdate, UpdateFails]))
  {
    var ops := [UpdateStarts, LockForUpdate, UpdateFails];
    assert ops[..2][..1] == ops[..1] && ops[..1][..0] == [];
    var w1 := Step(c, Init(file), UpdateStarts);
    var w2 := Step(c, w1, LockForUpdate);
    var w3 := Step(c, w2, UpdateFails);
    assert Run(c, Init(file), ops[..1]) == w1;
    assert Run(c, Init(file), ops[..2]) == w2;
    assert Run(c, Init(file), ops) == w3;
    RunKeepsInv(c, Init(file), ops);
    MovesBackExactlyWhenBlind(c, w3);
  }

  predicate IsFailure(op: Op) {
    op.UpdateFails? || op.UpdateNotLocked?
  }

  /** No update fails before anything has been observed. */
  ghost predicate NoEarlyFailure(c: Config, w: World, ops: seq<Op>)
    requires w.commits != []
  {
    forall k :: 0 <= k < |ops| && IsFailure(ops[k]) ==> Run(c, w, ops[..k]).repo.observedRevision.Some?
  }

  /** No poll is under way or due before something has been observed. */
  ghost predicate PollsOnlySighted(w: World) {
    && (w.repo.timerArmed || !w.poll.Idle? || w.unannounced != [] ==> w.repo.observedRevision.Some?)
    && (w.lock == Held(true, Observed) ==> w.repo.observedRevision.Some?)
    && (w.poll.Idle? || !w.poll.blind)
  }

  lemma {:induction false} StepPollsOnlySighted(c: Config, w: World, op: Op)
    requires Inv(w) && PollsOnlySighted(w) && (IsFailure(op) ==> w.repo.observedRevision.Some?)
    ensures PollsOnlySighted(Step(c, w, op))
  {
  }

  lemma {:induction false} PollsAreSighted(c: Config, file: File, ops: seq<Op>)
    requires NoEarlyFailure(c, Init(file), ops)
    ensures PollsOnlySighted(Run(c, Init(file), ops))
  {
    if ops != [] {
      var n := |ops| - 1;
      assert forall k :: 0 <= k < n ==> ops[..n][..k] == ops[..k];
      hide Step, Inv, PollsOnlySighted;
      PollsAreSighted(c, file, ops[..n]);
      StartIsSound(file);
      RunKeepsInv(c, Init(file), ops[..n]);
      StepPollsOnlySighted(c, Run(c, Init(file), ops[..n]), ops[n]);
    } else {
      StartIsSound(file);
    }
  }

  lemma {:induction false} StartIsSound(file: File)
    ensures Inv(Init(file)) && PollsOnlySighted(Init(file))
  {
  }

  /**
   The observed revision never moves to an older commit: for every interleaving of reads, updates, other processes'
   commits and polls in which no update fails before the first observation.
   */
  lemma {:induction false} ObservationNeverMovesBack(c: Config, file: File, ops: seq<Op>, op: Op)
    requires NoEarlyFailure(c, Init(file), ops)
    ensures !MovesBack(Run(c, Init(file), ops), Step(c, Run(c, Init(file), ops), op))
  {
    var w := Run(c, Init(file), ops);
    RunKeepsInv(c, Init(file), ops);
    PollsAreSighted(c, file, ops);
    if MovesBack(w, Step(c, w, op)) {
      OnlyBlindPollsMoveBack(c, w, op);
      assert false;
    }
  }

  /** A poll no local commit has overtaken leaves the repository at what it read, and tells of it if that is new. */
  lemma {:induction false} PollCatchesUp(c: Config, w: World)
    requires Inv(w) && w.poll.HasRead? && w.poll.generation == w.repo.writeGeneration && !w.repo.disposed
    ensures var w', revision := Step(c, w, PollDone), Revision(w.commits[w.poll.index]);
            && w'.repo.observedRevision == Some(revision) && w'.poll.Idle? && (c.polls ==> w'.repo.timerArmed)
            && w'.repo.emitted
               == w.repo.emitted + if w.repo.observedRevision == Some(revision) then [] else [PollChanged]
  {
  }

  /** A poll that a local commit has overtaken changes nothing, whether it succeeded or failed. */
  lemma {:induction false} OvertakenPollIsDiscarded(c: Config, w: World)
    requires Inv(w) && (w.poll.HasRead? || w.poll.HasFailed?) && w.poll.generation < w.repo.writeGeneration
    ensures var w' := Step(c, w, PollDone);
            && w'.seen == w.seen && w'.repo.observedRevision == w.repo.observedRevision
            && w'.repo.emitted == w.repo.emitted && w'.repo.pollingErrorActive == w.repo.pollingErrorActive
  {
  }

  /** From the end of any read, update or poll on, polling goes on until the repository is disposed. */
  lemma {:induction false} PollingGoesOn(c: Config, w: World, op: Op)
    requires Inv(w) && TimerOk(c, w.repo) && c.polls && Enabled(c, w, op)
    ensures var w' := Step(c, w, op);
            && TimerOk(c, w'.repo)
            && (op.ReadDone? || op.UpdateDone? || IsFailure(op) || op.PollDone? || Going(w.repo) ==>
                  w'.repo.disposed || Going(w'.repo))
  {
  }

  // ---------- what the listeners are told of a commit

  /** A commit of this process's updates whose write has ended: its revision has been observed. */
  predicate Finished(w: World, k: nat)
    requires w.commits != []
  {
    k in w.mine && !(w.lock == Held(true, Committed) && k == Last(w))
  }

  ghost predicate MineInv(w: World)
    requires w.commits != []
  {
    && (forall k :: k in w.mine ==> k < |w.commits|)
    && (w.lock == Held(true, Committed) || w.lock == Held(true, Observed) ==> Last(w) in w.mine)
    && (forall k: nat :: Finished(w, k) ==>
          && w.repo.observedRevision.Some? && k <= w.seen
          && (!w.poll.Idle? && w.poll.blind ==> w.poll.generation < w.repo.writeGeneration))
  }

  /** Of a commit announced by a poll: a poll that reads it again finds nothing new. */
  ghost predicate PolledInv(w: World)
    requires w.commits != []
  {
    forall k :: (PollChanged, k) in w.notices ==>
      && k < |w.commits| && w.repo.observedRevision.Some?
      && (k == Last(w) ==> w.repo.observedRevision == Some(Revision(w.commits[k])))
      && (w.poll.HasRead? ==> k <= w.poll.index)
      && (w.poll.HasRead? && w.poll.index == k && w.poll.generation == w.repo.writeGeneration ==>
            w.repo.observedRevision == Some(Revision(w.commits[k])))
  }

  /** An update that holds the lock has told nobody, one that has released it is still to do so, or has done so. */
  ghost predicate UpdatedInv(w: World)
    requires w.commits != []
  {
    && (forall i :: 0 <= i < |w.unannounced| ==> Released(w, w.unannounced[i]))
    && (forall i, j :: 0 <= i < j < |w.unannounced| ==> w.unannounced[i] != w.unannounced[j])
    && (forall k :: (Updated, k) in w.notices ==> Released(w, k) && k !in w.unannounced)
  }

  /** No update that has released the lock is forgotten, until the repository is disposed. */
  ghost predicate NoneForgotten(w: World)
    requires w.commits != []
  {
    forall k: nat :: Released(w, k) ==> k in w.unannounced || (Updated, k) in w.notices || w.repo.disposed
  }

  /** A commit of an update that no longer holds the lock. */
  predicate Released(w: World, k: nat)
    requires w.commits != []
  {
    k in w.mine && !((w.lock == Held(true, Committed) || w.lock == Held(true, Observed)) && k == Last(w))
  }

  ghost predicate NoticeInv(w: World)
    requires w.commits != []
  {
    && MineInv(w) && PolledInv(w) && UpdatedInv(w) && NoneForgotten(w)
    && (forall i, j :: 0 <= i < j < |w.notices| ==> w.notices[i] != w.notices[j])
  }

  lemma {:induction false} StepKeepsMine(c: Config, w: World, op: Op)
    requires Inv(w) && MineInv(w)
    ensures MineInv(Step(c, w, op))
  {
    forall k: nat | Finished(Step(c, w, op), k)
      ensures Finished(w, k) || (w.lock == Held(true, Committed) && op.LockedBump? && k == Last(w))
    {
    }
  }

  lemma {:induction false} StepKeepsPolled(c: Config, w: World, op: Op)
    requires Inv(w) && MineInv(w) && PolledInv(w)
    ensures PolledInv(Step(c, w, op))
  {
    hide NeedsWrite;
  }

  lemma {:induction false} StepKeepsUpdated(c: Config, w: World, op: Op)
    requires Inv(w) && MineInv(w) && UpdatedInv(w)
    ensures UpdatedInv(Step(c, w, op))
  {
    if op.UpdateDone? {
      hide *;
      UpdateDoneKeepsUpdated(c, w, op.k);
    } else {
      OtherStepsKeepUpdated(c, w, op);
    }
  }

  lemma {:induction false} UpdateDoneKeepsUpdated(c: Config, w: World, k: nat)
    requires w.commits != [] && UpdatedInv(w)
    ensures UpdatedInv(Step(c, w, UpdateDone(k)))
  {
    if k < |w.unannounced| {
      var w' := Step(c, w, UpdateDone(k));
      assert forall i :: 0 <= i < |w'.unannounced| ==> w'.unannounced[i] == w.unannounced[if i < k then i else i + 1];
      hide Step;
    }
  }

  lemma {:induction false} OtherStepsKeepUpdated(c: Config, w: World, op: Op)
    requires Inv(w) && MineInv(w) && UpdatedInv(w) && !op.UpdateDone?
    ensures UpdatedInv(Step(c, w, op))
  {
    if op.UpdateUnlocks? {
      UnlockKeepsUpdated(c, w);
    } else {
      OtherStepsRelease(c, w, op);
      hide Step, Inv, Released, MineInv;
    }
  }

  lemma {:induction false} UnlockKeepsUpdated(c: Config, w: World)
    requires w.commits != [] && MineInv(w) && UpdatedInv(w)
    ensures UpdatedInv(Step(c, w, UpdateUnlocks))
  {
  }

  /** Only the steps of an update's end touch what is still to be told; what has been released stays so. */
  lemma {:induction false} OtherStepsRelease(c: Config, w: World, op: Op)
    requires Inv(w) && MineInv(w) && !op.UpdateDone? && !op.UpdateUnlocks?
    ensures var w' := Step(c, w, op);
            && w'.unannounced == w.unannounced
            && (forall k :: (Updated, k) in w'.notices ==> (Updated, k) in w.notices)
            && (forall k: nat :: Released(w, k) ==> Released(w', k))
  {
    hide EnsurePolling, Emit, ReadFinished, UpdateFinished, WriteFinished, CommitFinished, PollStarted, PollFinished,
         Disposed, NeedsWrite;
  }

  lemma {:induction false} StepForgetsNone(c: Config, w: World, op: Op)
    requires Inv(w) && MineInv(w) && NoneForgotten(w)
    ensures NoneForgotten(Step(c, w, op))
  {
    var w' := Step(c, w, op);
    StaysDisposed(c, w, op);
    forall k: nat | Released(w', k)
      ensures k in w'.unannounced || (Updated, k) in w'.notices || w'.repo.disposed
    {
      IsReleased(c, w, op, k);
      StillTold(c, w, op, k);
    }
  }

  lemma {:induction false} StaysDisposed(c: Config, w: World, op: Op)
    requires w.commits != []
    ensures w.repo.disposed ==> Step(c, w, op).repo.disposed
  {
  }

  lemma {:induction false} IsReleased(c: Config, w: World, op: Op, k: nat)
    requires Inv(w) && MineInv(w) && Released(Step(c, w, op), k)
    ensures Released(w, k) || (op.UpdateUnlocks? && k == Last(w) && k in Step(c, w, op).unannounced)
  {
    if w.lock == Held(true, Observed) && op.UpdateUnlocks? {
      assert Step(c, w, op).unannounced[|w.unannounced|] == Last(w);
    }
  }

  lemma {:induction false} StillTold(c: Config, w: World, op: Op, k: nat)
    requires w.commits != []
    ensures var w' := Step(c, w, op);
            k in w.unannounced || (Updated, k) in w.notices ==>
              k in w'.unannounced || (Updated, k) in w'.notices || w'.repo.disposed
  {
    var w' := Step(c, w, op);
    if op.UpdateDone? && op.k < |w.unannounced| {
      assert w.repo.disposed ==> w'.repo.disposed;
      assert !w.repo.disposed ==> w'.notices[|w.notices|] == (Updated, w.unannounced[op.k]);
      if k in w.unannounced && k != w.unannounced[op.k] {
        var i :| 0 <= i < |w.unannounced| && w.unannounced[i] == k;
        assert w'.unannounced[if i < op.k then i else i - 1] == k;
      }
    }
  }

  lemma {:induction false} StepKeepsNotices(c: Config, w: World, op: Op)
    requires Inv(w) && NoticeInv(w)
    ensures NoticeInv(Step(c, w, op))
  {
    StepKeepsMine(c, w, op);
    StepKeepsPolled(c, w, op);
    StepKeepsUpdated(c, w, op);
    StepForgetsNone(c, w, op);
    hide MineInv, PolledInv, UpdatedInv, NoneForgotten;
  }

  lemma {:induction false} RunKeepsNotices(c: Config, file: File, ops: seq<Op>)
    ensures Inv(Run(c, Init(file), ops)) && NoticeInv(Run(c, Init(file), ops))
  {
    RunKeepsInv(c, Init(file), ops);
    if ops != [] {
      RunKeepsNotices(c, file, ops[..|ops| - 1]);
      StepKeepsNotices(c, Run(c, Init(file), ops[..|ops| - 1]), ops[|ops| - 1]);
    }
  }

  /**
   The listeners are told of a commit at most once by a poll and at most once by its update, whatever happens; and of an
   update that has released the lock, they have been told or are still to be, until the repository is disposed.
   */
  lemma {:induction false} NoNoticeTwice(c: Config, file: File, ops: seq<Op>)
    ensures var w := Run(c, Init(file), ops);
            && (forall i, j :: 0 <= i < j < |w.notices| ==> w.notices[i] != w.notices[j])
            && Told(w.repo.emitted) == Kinds(w.notices)
            && NoneForgotten(w)
  {
    RunKeepsNotices(c, file, ops);
    if ops != [] {
      var before, op := Run(c, Init(file), ops[..|ops| - 1]), ops[|ops| - 1];
      NoNoticeTwice(c, file, ops[..|ops| - 1]);
      StepTells(c, before, op);
    }
  }

  /** What was emitted, errors aside. */
  function Told(emitted: seq<Notice>): seq<Notice> {
    if emitted == [] then []
    else
      var last := emitted[|emitted| - 1];
      Told(emitted[..|emitted| - 1]) + if last.PollError? then [] else [last]
  }

  function Kinds(notices: seq<(Notice, nat)>): seq<Notice> {
    seq(|notices|, i requires 0 <= i < |notices| => notices[i].0)
  }

  lemma {:induction false} StepTells(c: Config, w: World, op: Op)
    requires w.commits != [] && Told(w.repo.emitted) == Kinds(w.notices)
    ensures Told(Step(c, w, op).repo.emitted) == Kinds(Step(c, w, op).notices)
  {
    var w' := Step(c, w, op);
    hide *;
    var told, k := StepEmits(c, w, op);
    if told.Some? {
      ToldSnoc(w.repo.emitted, told.value);
      KindsSnoc(w.notices, (told.value, k));
    }
  }

  lemma {:induction false} ToldSnoc(emitted: seq<Notice>, notice: Notice)
    ensures Told(emitted + [notice]) == Told(emitted) + if notice.PollError? then [] else [notice]
  {
    assert (emitted + [notice])[..|emitted|] == emitted;
  }

  lemma {:induction false} KindsSnoc(notices: seq<(Notice, nat)>, notice: (Notice, nat))
    ensures Kinds(notices + [notice]) == Kinds(notices) + [notice.0]
  {
  }

  /** At most one notice in a step, recorded with its commit unless it tells of a failing poll. */
  lemma {:induction false} StepEmits(c: Config, w: World, op: Op) returns (told: Option<Notice>, k: nat)
    requires w.commits != []
    ensures var w' := Step(c, w, op);
            && w'.repo.emitted == (if told.None? then w.repo.emitted else w.repo.emitted + [told.value])
            && w'.notices == if told.None? || told.value.PollError? then w.notices else w.notices + [(told.value, k)]
  {
    var w' := Step(c, w, op);
    var n := |w.repo.emitted|;
    if op.PollDone? && Enabled(c, w, op) {
      PollEmits(c, w.repo, w.poll.generation,
                if w.poll.HasRead? then Some(Revision(w.commits[w.poll.index])) else None);
    }
    hide PollFinished, NeedsWrite;
    told := if w'.repo.emitted == w.repo.emitted then None else Some(w'.repo.emitted[n]);
    k := if w'.notices == w.notices then 0 else w'.notices[|w.notices|].1;
  }

  /** A poll tells of a change exactly when it changes what is observed. */
  lemma {:induction false} PollEmits(c: Config, r: Repo, writeGeneration: nat, snapshot: Snapshot)
    ensures var r' := PollFinished(c, r, writeGeneration, snapshot);
            if r'.observedRevision != r.observedRevision then r'.emitted == r.emitted + [PollChanged]
            else r'.emitted == r.emitted || r'.emitted == r.emitted + [PollError]
  {
  }

  /** A poll of the current generation ends with something new: the commit of an update whose write has not ended. */
  predicate AnnouncesEarly(w: World, op: Op, k: nat)
    requires w.commits != []
  {
    && op.PollDone? && w.lock == Held(true, Committed) && k == Last(w) && !w.repo.disposed
    && w.poll.HasRead? && w.poll.generation == w.repo.writeGeneration && w.poll.index == k
    && w.repo.observedRevision != Some(Revision(Current(w)))
  }

  lemma {:induction false} StepAnnounces(c: Config, w: World, op: Op, k: nat)
    requires Inv(w) && NoticeInv(w) && k in Step(c, w, op).mine
    ensures (PollChanged, k) in Step(c, w, op).notices
       <==> k in w.mine && ((PollChanged, k) in w.notices || AnnouncesEarly(w, op, k))
  {
    assert k in w.mine ==> Finished(w, k) || (w.lock == Held(true, Committed) && k == Last(w));
  }

  /** At some step of the run. */
  ghost predicate AnnouncedEarly(c: Config, file: File, ops: seq<Op>, k: nat) {
    exists q :: 0 <= q < |ops| && AnnouncesEarly(Run(c, Init(file), ops[..q]), ops[q], k)
  }

  lemma {:induction false} AnnouncedEarlyStep(c: Config, file: File, ops: seq<Op>, k: nat)
    requires ops != []
    ensures AnnouncedEarly(c, file, ops, k)
       <==> || AnnouncedEarly(c, file, ops[..|ops| - 1], k)
            || AnnouncesEarly(Run(c, Init(file), ops[..|ops| - 1]), ops[|ops| - 1], k)
  {
    hide Run, AnnouncesEarly;
    var n := |ops| - 1;
    assert forall q :: 0 <= q < n ==> ops[..n][q] == ops[q] && ops[..n][..q] == ops[..q];
    if AnnouncedEarly(c, file, ops[..n], k) {
      var q :| 0 <= q < n && AnnouncesEarly(Run(c, Init(file), ops[..n][..q]), ops[..n][q], k);
      assert AnnouncesEarly(Run(c, Init(file), ops[..q]), ops[q], k);
    }
  }

  /**
   One commit, two notices: a poll announces the commit of an update, besides the update itself, if and only if a poll
   of the current generation reads it and ends before its write has ended, with another revision observed until then.
   */
  lemma {:induction false} TwoNoticesExactly(c: Config, file: File, ops: seq<Op>, k: nat)
    requires k in Run(c, Init(file), ops).mine
    ensures (PollChanged, k) in Run(c, Init(file), ops).notices <==> AnnouncedEarly(c, file, ops, k)
  {
    assert ops != [];
    var front, op := ops[..|ops| - 1], ops[|ops| - 1];
    var w := Run(c, Init(file), front);
    assert Run(c, Init(file), ops) == Step(c, w, op);
    hide Run, Step, AnnouncedEarly, AnnouncesEarly, Inv, NoticeInv;
    RunKeepsNotices(c, file, front);
    StepAnnounces(c, w, op, k);
    AnnouncedEarlyStep(c, file, ops, k);
    if k in w.mine {
      TwoNoticesExactly(c, file, front, k);
    } else {
      EarlyIsMine(c, file, front, k);
      StepGrowsMine(c, w, op, k);
    }
  }

  /** What is announced early has been committed by an update. */
  lemma {:induction false} EarlyIsMine(c: Config, file: File, ops: seq<Op>, k: nat)
    ensures AnnouncedEarly(c, file, ops, k) ==> k in Run(c, Init(file), ops).mine
  {
    if ops != [] {
      var front, op := ops[..|ops| - 1], ops[|ops| - 1];
      var w := Run(c, Init(file), front);
      assert Run(c, Init(file), ops) == Step(c, w, op);
      hide Run, Step, AnnouncedEarly, AnnouncesEarly, Inv, NoticeInv;
      EarlyIsMine(c, file, front, k);
      AnnouncedEarlyStep(c, file, ops, k);
      RunKeepsNotices(c, file, front);
      StepGrowsMine(c, w, op, k);
    }
  }

  lemma {:induction false} StepGrowsMine(c: Config, w: World, op: Op, k: nat)
    requires w.commits != [] && NoticeInv(w)
    ensures w.mine <= Step(c, w, op).mine
    ensures AnnouncesEarly(w, op, k) ==> k in w.mine
  {
  }

  /** Once its write has ended, and until something else is committed, no step but an update's notice tells of news. */
  lemma {:induction false} QuietOnceFinished(c: Config, w: World, op: Op)
    requires Inv(w) && NoticeInv(w) && Finished(w, Last(w))
    ensures var w' := Step(c, w, op);
            && (!op.UpdateDone? ==>
                  w'.repo.emitted == w.repo.emitted || w'.repo.emitted == w.repo.emitted + [PollError])
            && (w'.commits == w.commits ==> Finished(w', Last(w')))
  {
  }

  /** And it does happen: a poll between the write of an update and its end, in a run of one read and one update. */
  lemma {:induction false} TwoNoticesHappen(c: Config, document: Document, next: Document)
    requires c.polls && document != next
    ensures var ops := [ReadStarts, ReadDone(0), UpdateStarts, LockForUpdate, Commit(next)]
                       + [TimerFires, PollReads, PollDone] + [LockedBump, UpdateUnlocks, UpdateDone(0)];
            Run(c, Init(Stored(document, true)), ops).notices == [(PollChanged, 1), (Updated, 1)]
  {
    var start := Init(Stored(document, true));
    var write := [ReadStarts, ReadDone(0), UpdateStarts, LockForUpdate, Commit(next)];
    var poll, end := [TimerFires, PollReads, PollDone], [LockedBump, UpdateUnlocks, UpdateDone(0)];
    RunConcat(c, start, write + poll, end);
    RunConcat(c, start, write, poll);
    FiveSteps(c, start, write);
    var written := Run(c, start, write);
    UpdateIsWritten(c, document, next);
    ThreeSteps(c, written, poll);
    var polled := Run(c, written, poll);
    PolledWhileUnfinished(c, written);
    ThreeSteps(c, polled, end);
    UpdateEnds(c, polled);
    hide *;
  }

  lemma {:induction false} UpdateEnds(c: Config, w: World)
    requires |w.commits| == 2 && w.lock == Held(true, Committed) && !w.repo.disposed && w.unannounced == []
    ensures Step(c, Step(c, Step(c, w, LockedBump), UpdateUnlocks), UpdateDone(0)).notices == w.notices + [(Updated, 1)]
  {
  }

  lemma {:induction false} UpdateIsWritten(c: Config, document: Document, next: Document)
    requires c.polls && document != next
    ensures var w := Step(c, Step(c, Step(c, Step(c, Step(c, Init(Stored(document, true)),
                       ReadStarts), ReadDone(0)), UpdateStarts), LockForUpdate), Commit(next));
            && w.lock == Held(true, Committed) && w.repo == Repo(0, Some(document), true, false, false, false, [])
            && w.commits == [Stored(document, true), Stored(next, true)] && w.poll == Idle
            && w.unannounced == [] && w.notices == []
  {
  }

  lemma {:induction false} PolledWhileUnfinished(c: Config, w: World)
    requires |w.commits| == 2 && w.lock == Held(true, Committed) && w.notices == []
    requires w.repo.timerArmed && !w.repo.disposed
    requires w.repo.observedRevision != Some(Revision(Current(w)))
    ensures var w' := Step(c, Step(c, Step(c, w, TimerFires), PollReads), PollDone);
            && w'.notices == [(PollChanged, 1)] && w'.lock == w.lock && w'.commits == w.commits
            && !w'.repo.disposed && w'.unannounced == w.unannounced
  {
  }

  lemma {:induction false} RunConcat(c: Config, w: World, a: seq<Op>, b: seq<Op>)
    requires w.commits != []
    ensures Run(c, w, a + b) == Run(c, Run(c, w, a), b)
    decreases |b|
  {
    if b == [] {
      assert a + b == a;
    } else {
      assert (a + b)[..|a + b| - 1] == a + b[..|b| - 1];
      RunConcat(c, w, a, b[..|b| - 1]);
    }
  }

  lemma {:induction false} ThreeSteps(c: Config, w: World, ops: seq<Op>)
    requires w.commits != [] && |ops| == 3
    ensures Run(c, w, ops) == Step(c, Step(c, Step(c, w, ops[0]), ops[1]), ops[2])
  {
    hide Step;
    assert ops[..2][..1] == ops[..1] && ops[..1][..0] == [];
    assert Run(c, w, ops[..1]) == Step(c, w, ops[0]);
    assert Run(c, w, ops[..2]) == Step(c, Run(c, w, ops[..1]), ops[1]);
  }

  // ---------- a failing poll is told of once

  /** A poll that no local write has overtaken ends. */
  predicate EndsCurrent(w: World, op: Op) {
    op.PollDone? && (w.poll.HasRead? || w.poll.HasFailed?) && w.poll.generation == w.repo.writeGeneration
  }

  /** Of the polls so far that were not overtaken, the last one failed, and before any disposal. */
  predicate LastPollFailed(c: Config, w: World, ops: seq<Op>)
    requires w.commits != []
  {
    if ops == [] then false
    else
      var front, op := ops[..|ops| - 1], ops[|ops| - 1];
      var before := Run(c, w, front);
      if !EndsCurrent(before, op) then LastPollFailed(c, w, front)
      else if before.poll.HasRead? then false
      else LastPollFailed(c, w, front) || !before.repo.disposed
  }

  lemma {:induction false} ErrorIsRemembered(c: Config, file: File, ops: seq<Op>)
    ensures Run(c, Init(file), ops).repo.pollingErrorActive <==> LastPollFailed(c, Init(file), ops)
  {
    if ops != [] {
      var front := ops[..|ops| - 1];
      ErrorIsRemembered(c, file, front);
      StartIsSound(file);
      RunKeepsInv(c, Init(file), front);
      StepRemembers(c, Run(c, Init(file), front), ops[|ops| - 1]);
      hide Step, EndsCurrent, Inv;
    }
  }

  lemma {:induction false} StepRemembers(c: Config, w: World, op: Op)
    requires Inv(w)
    ensures Step(c, w, op).repo.pollingErrorActive
       <==> if !EndsCurrent(w, op) then w.repo.pollingErrorActive
            else w.poll.HasFailed? && (w.repo.pollingErrorActive || !w.repo.disposed)
  {
    hide NeedsWrite;
  }

  /**
   In every run from the start, an error is told of exactly when a poll that was not overtaken fails in a live
   repository and the last such poll before it did not: once, until a poll succeeds again.
   */
  lemma {:induction false} ErrorIsToldOnce(c: Config, file: File, ops: seq<Op>, op: Op)
    ensures var w, w' := Run(c, Init(file), ops), Run(c, Init(file), ops + [op]);
            (w'.repo.emitted == w.repo.emitted + [PollError] <==>
               EndsCurrent(w, op) && w.poll.HasFailed? && !w.repo.disposed && !LastPollFailed(c, Init(file), ops))
  {
    assert (ops + [op])[..|ops|] == ops;
    ErrorIsRemembered(c, file, ops);
    StartIsSound(file);
    RunKeepsInv(c, Init(file), ops);
    ErrorStep(c, Run(c, Init(file), ops), op);
    hide Step, EndsCurrent, Inv;
  }

  lemma {:induction false} ErrorStep(c: Config, w: World, op: Op)
    requires Inv(w)
    ensures Step(c, w, op).repo.emitted == w.repo.emitted + [PollError]
       <==> EndsCurrent(w, op) && w.poll.HasFailed? && !w.repo.disposed && !w.repo.pollingErrorActive
  {
    hide NeedsWrite;
    var before, after := w.repo.emitted, Step(c, w, op).repo.emitted;
    assert forall notice :: after == before + [notice] ==> after[|before|] == notice;
    if !op.PollDone? {
      assert after == before || after == before + [Updated];
    } else if !EndsCurrent(w, op) || w.poll.HasRead? {
      assert after == before || after == before + [PollChanged];
    }
  }

  // ---------- what reads give

  /** A file that reading takes as it is: in canonical form, or absent where nothing is imported. */
  predicate IsSettled(c: Config, file: File) {
    match file
    case Missing => c.imported.None?
    case Stored(_, canonical) => canonical
  }

  ghost predicate ReadsSettled(c: Config, w: World) {
    Inv(w) && forall i :: 0 <= i < |w.arrived| ==> IsSettled(c, w.commits[w.arrived[i]])
  }

  lemma {:induction false} StepReadsSettled(c: Config, w: World, op: Op)
    requires ReadsSettled(c, w)
    ensures ReadsSettled(c, Step(c, w, op))
  {
    StepKeepsInv(c, w, op);
    hide PollInv;
  }

  /** In every run, a read gives the imported settings where there was no file, and a file only in canonical form. */
  lemma {:induction false} ReadsAreSettled(c: Config, file: File, ops: seq<Op>)
    ensures ReadsSettled(c, Run(c, Init(file), ops))
  {
    if ops == [] {
      StartIsSound(file);
    } else {
      ReadsAreSettled(c, file, ops[..|ops| - 1]);
      hide Step, ReadsSettled;
      StepReadsSettled(c, Run(c, Init(file), ops[..|ops| - 1]), ops[|ops| - 1]);
    }
  }

  /** What is written before a read or update goes on: the imported settings, or the same document in canonical form. */
  lemma {:induction false} WhatIsWritten(c: Config, w: World)
    requires w.commits != [] && Enabled(c, w, LockedWrite)
    ensures !IsSettled(c, Current(w))
    ensures Current(Step(c, w, LockedWrite))
         == Stored(if Current(w).Missing? then c.imported.value else Current(w).document, true)
  {
  }
}
