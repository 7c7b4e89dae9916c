/**
 The built-in provider configuration: a Bundled release, an Active copy that many processes converge under a lock, and
 releases that arrive from the server. The newest wins, whatever the order.
 */
module BuiltinRelease {
  import opened Wrappers

  type Path = string

  /** A release and what it serialises to besides its revision; signatures are equal exactly when releases are. */
  datatype Release = Release(revision: nat, content: string)

  /** The files that exist: readable as a release, or not. */
  datatype File = Broken | Holds(release: Release)

  type Files = map<Path, File>

  datatype Candidate = Valid(release: Release) | NotFound | Invalid

  datatype Error = AlreadyDisposed | NothingValid | NotLocked | NotWritten | SameRevisionDiffers

  datatype Outcome = UpdatedTo | Unchanged | Stale

  datatype Notice = RemoteUpdated | FileChanged | WatchError

  datatype Paths = Paths(bundled: Path, active: Path)

  /** What the outside grants: the lock, the write that materialises, the write of a new release. */
  datatype Io = Io(locks: bool, materialises: bool, writes: bool)

  // ---------- candidates

  function ReadCandidate(files: Files, path: Path): Candidate {
    if path !in files then NotFound else if files[path].Holds? then Valid(files[path].release) else Invalid
  }

  /** A missing Bundled file is replaced by the last one this process has read. */
  function BundledCandidate(files: Files, baselines: map<Path, Release>, path: Path): Candidate {
    var candidate := ReadCandidate(files, path);
    if candidate.NotFound? && path in baselines then Valid(baselines[path]) else candidate
  }

  function Remembered(files: Files, baselines: map<Path, Release>, path: Path): map<Path, Release> {
    var candidate := ReadCandidate(files, path);
    if candidate.Valid? then baselines[path := candidate.release] else baselines
  }

  function SelectCandidate(bundled: Candidate, active: Candidate): (r: Result<Release, Error>) {
    if bundled.Valid? && active.Valid? && bundled.release.revision == active.release.revision
       && bundled.release != active.release then Ok(bundled.release)
    else if bundled.Valid? && active.Valid? then
      Ok(if active.release.revision > bundled.release.revision then active.release else bundled.release)
    else if bundled.Valid? then Ok(bundled.release)
    else if active.Valid? then Ok(active.release)
    else Err(NothingValid)
  }

  /** The newest valid candidate; of two with the same revision, the Bundled one. */
  lemma {:induction false} SelectsTheNewest(bundled: Candidate, active: Candidate)
    ensures var r := SelectCandidate(bundled, active);
            && (r.Err? <==> !bundled.Valid? && !active.Valid?)
            && (r.Ok? ==> Valid(r.value) == bundled || Valid(r.value) == active)
            && (r.Ok? && bundled.Valid? ==> r.value.revision >= bundled.release.revision)
            && (r.Ok? && active.Valid? ==> r.value.revision >= active.release.revision)
            && (r.Ok? && Valid(r.value) != bundled && bundled.Valid? ==> r.value.revision > bundled.release.revision)
  {
  }

  // ---------- one source

  /** What a source of one process works on. */
  datatype State = State(
    files: Files,
    baselines: map<Path, Release>,
    observedSignature: Option<Release>,
    disposed: bool,
    emitted: seq<Notice>)

  function ActiveCandidate(p: Paths, files: Files): Candidate {
    if p.active == p.bundled then NotFound else ReadCandidate(files, p.active)
  }

  function Selected(p: Paths, s: State): Result<Release, Error> {
    SelectCandidate(BundledCandidate(s.files, s.baselines, p.bundled), ActiveCandidate(p, s.files))
  }

  /** Reading both and bringing Active up to date, under the lock. */
  function Materialised(p: Paths, s: State, writes: bool): (Result<Release, Error>, State) {
    var selected := Selected(p, s);
    var s' := s.(baselines := Remembered(s.files, s.baselines, p.bundled));
    if selected.Err? || p.active == p.bundled || ReadCandidate(s.files, p.active) == Valid(selected.value) then
      (selected, s')
    else if s.disposed then (Err(AlreadyDisposed), s')
    else if !writes then (Err(NotWritten), s')
    else (selected, s'.(files := s.files[p.active := Holds(selected.value)]))
  }

  /** `read`: where the lock or the write fails, Bundled alone decides. */
  function ReadStep(p: Paths, s: State, io: Io): (Result<Release, Error>, State) {
    if s.disposed then (Err(AlreadyDisposed), s)
    else
      var (r, s') := if io.locks then Materialised(p, s, io.materialises) else (Err(NotLocked), s);
      var release := if r.Ok? then r
                     else SelectCandidate(BundledCandidate(s'.files, s'.baselines, p.bundled), NotFound);
      var s'' := if r.Ok? then s' else s'.(baselines := Remembered(s'.files, s'.baselines, p.bundled));
      if release.Ok? && s''.observedSignature.None? then
        (release, s''.(observedSignature := Some(release.value)))
      else (release, s'')
  }

  function Emit(s: State, notice: Notice): State {
    if s.disposed then s else s.(emitted := s.emitted + [notice])
  }

  /** The refresh after a change of the watched directory. */
  function RefreshStep(p: Paths, s: State, io: Io): State {
    if s.disposed then s
    else
      var (r, s') := if io.locks then Materialised(p, s, io.materialises) else (Err(NotLocked), s);
      if r.Err? then Emit(s', WatchError)
      else if s'.observedSignature == Some(r.value) then s'
      else Emit(s'.(observedSignature := Some(r.value)), FileChanged)
  }

  function ApplyStep(p: Paths, s: State, release: Release, io: Io): (Result<Outcome, Error>, State) {
    if s.disposed then (Err(AlreadyDisposed), s)
    else if !io.locks then (Err(NotLocked), s)
    else
      var (current, s') := Materialised(p, s, io.materialises);
      if current.Err? then (Err(current.error), s')
      else if release.revision < current.value.revision then (Ok(Stale), s')
      else if release.revision == current.value.revision then
        (if release == current.value then Ok(Unchanged) else Err(SameRevisionDiffers), s')
      else if !io.writes then (Err(NotWritten), s')
      else
        (Ok(UpdatedTo), Emit(s'.(files := s'.files[p.active := Holds(release)], observedSignature := Some(release)),
                             RemoteUpdated))
  }

  // ---------- the objects

  /** The file system, shared by everything. */
  class Disk {
    var files: Files

    constructor (files: Files)
      ensures this.files == files
    {
      this.files := files;
    }
  }

  /** What a process remembers of the Bundled files it has read. */
  class BaselineCache {
    var releases: map<Path, Release>

    constructor ()
      ensures releases == map[]
    {
      releases := map[];
    }
  }

  class BuiltinConfigSource {
    const paths: Paths
    const disk: Disk
    const cache: BaselineCache
    var observedSignature: Option<Release>
    var disposed: bool
    ghost var emitted: seq<Notice>

    ghost function Now(): State
      reads this, disk, cache
    {
      State(disk.files, cache.releases, observedSignature, disposed, emitted)
    }

    constructor (paths: Paths, disk: Disk, cache: BaselineCache)
      ensures this.paths == paths && this.disk == disk && this.cache == cache
      ensures Now() == State(disk.files, cache.releases, None, false, [])
    {
      this.paths, this.disk, this.cache := paths, disk, cache;
      observedSignature, disposed, emitted := None, false, [];
    }

    method ReadBundledCandidate() returns (candidate: Candidate)
      modifies cache
      ensures candidate == BundledCandidate(disk.files, old(cache.releases), paths.bundled)
      ensures cache.releases == Remembered(disk.files, old(cache.releases), paths.bundled)
    {
      candidate := ReadCandidate(disk.files, paths.bundled);
      if candidate.Valid? {
        cache.releases := cache.releases[paths.bundled := candidate.release];
        return;
      }
      if candidate.NotFound? && paths.bundled in cache.releases {
        return Valid(cache.releases[paths.bundled]);
      }
    }

    method ReadAndMaterialise(writes: bool) returns (r: Result<Release, Error>)
      modifies cache, disk
      ensures (r, Now()) == Materialised(paths, old(Now()), writes)
    {
      var bundled := ReadBundledCandidate();
      var active := ActiveCandidate(paths, disk.files);
      r := SelectCandidate(bundled, active);
      if r.Ok? && paths.active != paths.bundled && active != Valid(r.value) {
        if disposed {
          return Err(AlreadyDisposed);
        }
        if !writes {
          return Err(NotWritten);
        }
        disk.files := disk.files[paths.active := Holds(r.value)];
      }
    }

    method Read(io: Io) returns (r: Result<Release, Error>)
      modifies this, cache, disk
      ensures (r, Now()) == ReadStep(paths, old(Now()), io)
    {
      if disposed {
        return Err(AlreadyDisposed);
      }
      r := Err(NotLocked);
      if io.locks {
        r := ReadAndMaterialise(io.materialises);
      }
      if r.Err? {
        var bundled := ReadBundledCandidate();
        r := SelectCandidate(bundled, NotFound);
      }
      if r.Ok? && observedSignature.None? {
        observedSignature := Some(r.value);
      }
    }

    method Notify(notice: Notice)
      modifies this
      ensures Now() == Emit(old(Now()), notice)
    {
      if !disposed {
        emitted := emitted + [notice];
      }
    }

    method Refresh(io: Io)
      modifies this, cache, disk
      ensures Now() == RefreshStep(paths, old(Now()), io)
    {
      if disposed {
        return;
      }
      var r := Err(NotLocked);
      if io.locks {
        r := ReadAndMaterialise(io.materialises);
      }
      if r.Err? {
        Notify(WatchError);
      } else if observedSignature != Some(r.value) {
        observedSignature := Some(r.value);
        Notify(FileChanged);
      }
    }

    method ApplyRemoteRelease(release: Release, io: Io) returns (r: Result<Outcome, Error>)
      modifies this, cache, disk
      ensures (r, Now()) == ApplyStep(paths, old(Now()), release, io)
    {
      if disposed {
        return Err(AlreadyDisposed);
      }
      if !io.locks {
        return Err(NotLocked);
      }
      var current := ReadAndMaterialise(io.materialises);
      if current.Err? {
        return Err(current.error);
      }
      if release.revision < current.value.revision {
        return Ok(Stale);
      }
      if release.revision == current.value.revision {
        return if release == current.value then Ok(Unchanged) else Err(SameRevisionDiffers);
      }
      if !io.writes {
        return Err(NotWritten);
      }
      disk.files := disk.files[paths.active := Holds(release)];
      observedSignature := Some(release);
      Notify(RemoteUpdated);
      return Ok(UpdatedTo);
    }
  }

  // ---------- one operation

  /** Materialising succeeds exactly when there is a valid candidate and Active is up to date or can be written. */
  lemma {:induction false} MaterialisedExactly(p: Paths, s: State, writes: bool)
    requires p.active != p.bundled
    ensures var (r, s') := Materialised(p, s, writes);
            && (r.Ok? <==> Selected(p, s).Ok? && (ReadCandidate(s.files, p.active) == Valid(Selected(p, s).value)
                                                  || (writes && !s.disposed)))
            && (r.Ok? ==> ReadCandidate(s'.files, p.active) == Valid(r.value))
            && (r.Err? ==> s'.files == s.files)
            && forall path :: path != p.active ==> ReadCandidate(s'.files, path) == ReadCandidate(s.files, path)
  {
  }

  /** What is read is never older than a valid Bundled, even where Active is out of reach; else Active holds it then. */
  lemma {:induction false} ReadIsNotOlderThanBundled(p: Paths, s: State, io: Io)
    requires p.active != p.bundled && !s.disposed
    ensures var (r, s') := ReadStep(p, s, io);
            var bundled := BundledCandidate(s.files, s.baselines, p.bundled);
            && (r.Err? ==> !bundled.Valid?)
            && (r.Ok? && bundled.Valid? ==> r.value.revision >= bundled.release.revision)
            && (r.Ok? && io.locks && io.materialises ==> ReadCandidate(s'.files, p.active) == Valid(r.value))
  {
    SelectsTheNewest(BundledCandidate(s.files, s.baselines, p.bundled), ActiveCandidate(p, s.files));
    MaterialisedExactly(p, s, io.materialises);
  }

  /** Both files may be deleted: what this process has read of Bundled brings Active back. */
  lemma {:induction false} BaselineRebuildsActive(p: Paths, s: State, io: Io)
    requires p.active != p.bundled && io.locks && io.materialises && !s.disposed
    requires p.bundled in s.baselines && p.bundled !in s.files && p.active !in s.files
    ensures var (r, s') := ReadStep(p, s, io);
            r == Ok(s.baselines[p.bundled]) && ReadCandidate(s'.files, p.active) == Valid(s.baselines[p.bundled])
  {
  }

  /**
   A Bundled release that has been read once is remembered: when its file is deleted, a later read gives nothing older,
   and with no Active file left that release itself. The memory is the process's, so another source may do the reading.
   */
  lemma {:induction false} BundledIsRemembered(p: Paths, s: State, io: Io, later: State, q: Paths, io': Io)
    requires !s.disposed && p.bundled in s.files && s.files[p.bundled].Holds?
    requires later.baselines == ReadStep(p, s, io).1.baselines && !later.disposed
    requires q.bundled == p.bundled && q.active != q.bundled && q.bundled !in later.files
    ensures var (r, _) := ReadStep(q, later, io');
            && r.Ok? && r.value.revision >= s.files[p.bundled].release.revision
            && (q.active !in later.files ==> r.value == s.files[p.bundled].release)
  {
    ReadRemembers(p, s, io);
    hide Remembered;
  }

  lemma {:induction false} ReadRemembers(p: Paths, s: State, io: Io)
    requires !s.disposed && p.bundled in s.files && s.files[p.bundled].Holds?
    ensures var s' := ReadStep(p, s, io).1;
            p.bundled in s'.baselines && s'.baselines[p.bundled] == s.files[p.bundled].release
  {
    hide SelectCandidate, BundledCandidate;
  }

  /** What this source wrote is not announced to it again as somebody else's change. */
  lemma {:induction false} OwnWriteIsNotAnnounced(p: Paths, s: State, release: Release, io: Io, later: Io)
    requires p.active != p.bundled && ApplyStep(p, s, release, io).0 == Ok(UpdatedTo) && later.locks
    ensures RefreshStep(p, ApplyStep(p, s, release, io).1, later).emitted == s.emitted + [RemoteUpdated]
  {
  }

  // ---------- any number of sources in any number of processes

  datatype Source = Source(
    process: nat,
    paths: Paths,
    observedSignature: Option<Release>,
    disposed: bool,
    emitted: seq<Notice>)

  datatype World = World(files: Files, baselines: seq<map<Path, Release>>, sources: seq<Source>)

  datatype Op =
    | Read(k: nat, io: Io)
    | Refresh(k: nat, io: Io)
    | ApplyRelease(k: nat, release: Release, io: Io)
    | Dispose(k: nat)
    | Elsewhere(path: Path, file: Option<File>)  // somebody else writes or deletes another file

  predicate HasSource(w: World, k: nat) {
    k < |w.sources| && w.sources[k].process < |w.baselines|
  }

  function StateOf(w: World, k: nat): State
    requires HasSource(w, k)
  {
    var source := w.sources[k];
    State(w.files, w.baselines[source.process], source.observedSignature, source.disposed, source.emitted)
  }

  function Put(w: World, k: nat, s: State): (w': World)
    requires HasSource(w, k)
    ensures w'.files == s.files
  {
    var source := w.sources[k];
    World(s.files, w.baselines[source.process := s.baselines],
          w.sources[k := source.(observedSignature := s.observedSignature, disposed := s.disposed,
                                 emitted := s.emitted)])
  }

  /** One operation of one source: each holds the lock from its reading to its writing. */
  function Step(w: World, op: Op): World {
    match op
    case Read(k, io) =>
      if HasSource(w, k) then Put(w, k, ReadStep(w.sources[k].paths, StateOf(w, k), io).1) else w
    case Refresh(k, io) =>
      if HasSource(w, k) then Put(w, k, RefreshStep(w.sources[k].paths, StateOf(w, k), io)) else w
    case ApplyRelease(k, release, io) =>
      if HasSource(w, k) then Put(w, k, ApplyStep(w.sources[k].paths, StateOf(w, k), release, io).1) else w
    case Dispose(k) => if HasSource(w, k) then Put(w, k, StateOf(w, k).(disposed := true)) else w
    case Elsewhere(path, file) => w.(files := if file.Some? then w.files[path := file.value] else w.files - {path})
  }

  function Run(w: World, ops: seq<Op>): World {
    if ops == [] then w else Step(Run(w, ops[..|ops| - 1]), ops[|ops| - 1])
  }

  /** Only the sources write this Active file. */
  ghost predicate LeavesAlone(ops: seq<Op>, active: Path) {
    forall i :: 0 <= i < |ops| && ops[i].Elsewhere? ==> ops[i].path != active
  }

  function Valids(candidate: Candidate): set<Release> {
    if candidate.Valid? then {candidate.release} else {}
  }

  /** What a successful reading under the lock takes into account. */
  function Considered(p: Paths, s: State, writes: bool): set<Release> {
    if Materialised(p, s, writes).0.Err? then {}
    else Valids(BundledCandidate(s.files, s.baselines, p.bundled)) + Valids(ActiveCandidate(p, s.files))
  }

  /** The candidates a source puts to its Active file by reading, or by applying a release. */
  function Offered(p: Paths, s: State, release: Option<Release>, io: Io): set<Release> {
    if s.disposed || !io.locks then {}
    else
      var current := Materialised(p, s, io.materialises).0;
      Considered(p, s, io.materialises)
      + if release.Some? && current.Ok? && (io.writes || release.value.revision < current.value.revision)
        then {release.value} else {}
  }

  /** The candidates an operation puts to an Active file. */
  function Offers(w: World, op: Op, active: Path): set<Release> {
    if op.Dispose? || op.Elsewhere? || !HasSource(w, op.k) || w.sources[op.k].paths.active != active then {}
    else
      Offered(w.sources[op.k].paths, StateOf(w, op.k), if op.ApplyRelease? then Some(op.release) else None, op.io)
  }

  // ---------- the newest wins

  /** No source has this file as its Bundled and its Active file at once. */
  ghost predicate Distinct(w: World, active: Path) {
    forall k :: 0 <= k < |w.sources| && w.sources[k].paths.active == active ==> w.sources[k].paths.bundled != active
  }

  /** From `before` to `after`, having been offered some releases: a maximum of all of them. */
  ghost predicate TakesTheNewest(before: Candidate, offers: set<Release>, after: Candidate) {
    && (forall o :: o in offers + Valids(before) ==> after.Valid? && after.release.revision >= o.revision)
    && (after.Valid? ==> after.release in offers + Valids(before))
  }

  lemma {:induction false} TakesTheNewestTwice(before: Candidate, offers: set<Release>, mid: Candidate,
                                                 more: set<Release>, after: Candidate)
    requires TakesTheNewest(before, offers, mid) && TakesTheNewest(mid, more, after)
    ensures TakesTheNewest(before, offers + more, after)
  {
    forall o | o in offers + more + Valids(before)
      ensures after.Valid? && after.release.revision >= o.revision
    {
      if o in more {
        assert o in more + Valids(mid);
      } else {
        assert o in offers + Valids(before);
        assert mid.release in Valids(mid);
        assert mid.release in more + Valids(mid);
      }
    }
  }

  lemma {:induction false} MaterialisedTakesTheNewest(p: Paths, s: State, writes: bool)
    requires p.active != p.bundled
    ensures var (r, s') := Materialised(p, s, writes);
            && TakesTheNewest(ReadCandidate(s.files, p.active), Considered(p, s, writes),
                              ReadCandidate(s'.files, p.active))
            && (r.Ok? ==> ReadCandidate(s'.files, p.active) == Valid(r.value))
            && s'.disposed == s.disposed
  {
    SelectsTheNewest(BundledCandidate(s.files, s.baselines, p.bundled), ActiveCandidate(p, s.files));
    MaterialisedExactly(p, s, writes);
    if Materialised(p, s, writes).0.Err? {
      assert Materialised(p, s, writes).1.files == s.files;
    }
  }

  lemma {:induction false} ReadingTakesTheNewest(p: Paths, s: State, io: Io)
    requires p.active != p.bundled
    ensures TakesTheNewest(ReadCandidate(s.files, p.active), Offered(p, s, None, io),
                           ReadCandidate(ReadStep(p, s, io).1.files, p.active))
    ensures TakesTheNewest(ReadCandidate(s.files, p.active), Offered(p, s, None, io),
                           ReadCandidate(RefreshStep(p, s, io).files, p.active))
  {
    MaterialisedTakesTheNewest(p, s, io.materialises);
    hide Materialised, Considered, Remembered, SelectCandidate, BundledCandidate;
    assert Offered(p, s, None, io) == if s.disposed || !io.locks then {} else Considered(p, s, io.materialises);
  }

  lemma {:induction false} ApplyingTakesTheNewest(p: Paths, s: State, release: Release, io: Io)
    requires p.active != p.bundled
    ensures TakesTheNewest(ReadCandidate(s.files, p.active), Offered(p, s, Some(release), io),
                           ReadCandidate(ApplyStep(p, s, release, io).1.files, p.active))
  {
    var (r, s') := Materialised(p, s, io.materialises);
    var before := ReadCandidate(s.files, p.active);
    var after := ReadCandidate(ApplyStep(p, s, release, io).1.files, p.active);
    MaterialisedTakesTheNewest(p, s, io.materialises);
    hide Materialised, Considered;
    if !s.disposed && io.locks {
      if r.Ok? {
        var last := if io.writes || release.revision < r.value.revision then {release} else {};
        assert TakesTheNewest(Valid(r.value), last, after);
        TakesTheNewestTwice(before, Considered(p, s, io.materialises), Valid(r.value), last, after);
      } else {
        assert Offered(p, s, Some(release), io) == Considered(p, s, io.materialises);
      }
    }
  }

  /** One operation of any source leaves the newest of what was there and what it offers. */
  lemma {:induction false} StepTakesTheNewest(w: World, op: Op, active: Path)
    requires Distinct(w, active) && (op.Elsewhere? ==> op.path != active)
    ensures TakesTheNewest(ReadCandidate(w.files, active), Offers(w, op, active),
                           ReadCandidate(Step(w, op).files, active))
  {
    if (op.Read? || op.Refresh? || op.ApplyRelease?) && HasSource(w, op.k) {
      var p, s := w.sources[op.k].paths, StateOf(w, op.k);
      if p.active != active {
        OthersAreLeftAlone(p, s, op, active);
      } else if op.ApplyRelease? {
        ApplyingTakesTheNewest(p, s, op.release, op.io);
      } else {
        ReadingTakesTheNewest(p, s, op.io);
      }
      hide Offered, ReadStep, RefreshStep, ApplyStep, TakesTheNewest, ReadCandidate;
      if p.active != active {
        assert ReadCandidate(Step(w, op).files, active) == ReadCandidate(w.files, active);
        TakesNothing(ReadCandidate(w.files, active));
      }
    } else {
      TakesNothing(ReadCandidate(w.files, active));
    }
  }

  lemma {:induction false} TakesNothing(before: Candidate)
    ensures TakesTheNewest(before, {}, before)
  {
  }

  lemma {:induction false} OthersAreLeftAlone(p: Paths, s: State, op: Op, active: Path)
    requires (op.Read? || op.Refresh? || op.ApplyRelease?) && p.active != active
    ensures op.Read? ==> ReadCandidate(ReadStep(p, s, op.io).1.files, active) == ReadCandidate(s.files, active)
    ensures op.Refresh? ==> ReadCandidate(RefreshStep(p, s, op.io).files, active) == ReadCandidate(s.files, active)
    ensures op.ApplyRelease? ==>
              ReadCandidate(ApplyStep(p, s, op.release, op.io).1.files, active) == ReadCandidate(s.files, active)
  {
    assert forall writes :: ReadCandidate(Materialised(p, s, writes).1.files, active) == ReadCandidate(s.files, active);
    hide Materialised, Selected, Remembered, SelectCandidate, BundledCandidate;
  }

  lemma {:induction false} StaysDistinct(w: World, ops: seq<Op>, active: Path)
    requires Distinct(w, active)
    ensures Distinct(Run(w, ops), active)
  {
    if ops != [] {
      StaysDistinct(w, ops[..|ops| - 1], active);
      hide ReadStep, RefreshStep, ApplyStep;
    }
  }

  /** Everything a run offers. */
  function AllOffers(w: World, ops: seq<Op>, active: Path): set<Release> {
    if ops == [] then {}
    else AllOffers(w, ops[..|ops| - 1], active) + Offers(Run(w, ops[..|ops| - 1]), ops[|ops| - 1], active)
  }

  /** The Active file ends at a maximum of the release it began with and everything that was offered. */
  lemma {:induction false} EndsAtTheMaximum(w: World, ops: seq<Op>, active: Path)
    requires Distinct(w, active) && LeavesAlone(ops, active)
    ensures TakesTheNewest(ReadCandidate(w.files, active), AllOffers(w, ops, active),
                           ReadCandidate(Run(w, ops).files, active))
  {
    if ops == [] {
      TakesNothing(ReadCandidate(w.files, active));
    } else {
      var n := |ops| - 1;
      EndsAtTheMaximum(w, ops[..n], active);
      StaysDistinct(w, ops[..n], active);
      hide TakesTheNewest, Offers, Step;
      StepTakesTheNewest(Run(w, ops[..n]), ops[n], active);
      TakesTheNewestTwice(ReadCandidate(w.files, active), AllOffers(w, ops[..n], active),
                          ReadCandidate(Run(w, ops[..n]).files, active), Offers(Run(w, ops[..n]), ops[n], active),
                          ReadCandidate(Run(w, ops).files, active));
    }
  }

  /** Across any interleaving, the revision of a valid Active file never decreases. */
  lemma {:induction false} NeverDecreases(w: World, ops: seq<Op>, op: Op, active: Path)
    requires Distinct(w, active) && LeavesAlone(ops + [op], active)
    ensures var before := ReadCandidate(Run(w, ops).files, active);
            var after := ReadCandidate(Run(w, ops + [op]).files, active);
            before.Valid? ==> after.Valid? && after.release.revision >= before.release.revision
  {
    assert (ops + [op])[..|ops|] == ops && (ops + [op])[|ops|] == op;
    StaysDistinct(w, ops, active);
    StepTakesTheNewest(Run(w, ops), op, active);
    hide Step, Offers;
  }

  ghost predicate Unambiguous(releases: set<Release>) {
    forall a, b :: a in releases && b in releases && a.revision == b.revision ==> a == b
  }

  /** Where equal revisions mean equal releases, what is offered decides the outcome, and the order does not. */
  lemma {:induction false} OrderMakesNoDifference(w: World, ops: seq<Op>, other: World, otherOps: seq<Op>, active: Path)
    requires Distinct(w, active) && LeavesAlone(ops, active) && Distinct(other, active) && LeavesAlone(otherOps, active)
    requires AllOffers(w, ops, active) + Valids(ReadCandidate(w.files, active))
          == AllOffers(other, otherOps, active) + Valids(ReadCandidate(other.files, active))
          != {}
    requires Unambiguous(AllOffers(w, ops, active) + Valids(ReadCandidate(w.files, active)))
    ensures ReadCandidate(Run(w, ops).files, active) == ReadCandidate(Run(other, otherOps).files, active)
    ensures ReadCandidate(Run(w, ops).files, active).Valid?
  {
    EndsAtTheMaximum(w, ops, active);
    EndsAtTheMaximum(other, otherOps, active);
    var all := AllOffers(w, ops, active) + Valids(ReadCandidate(w.files, active));
    var some :| some in all;
    var x, y := ReadCandidate(Run(w, ops).files, active), ReadCandidate(Run(other, otherOps).files, active);
    assert x.Valid? && y.Valid? && x.release in all && y.release in all;
  }

  // ---------- what is announced

  /** What a reading under the lock gives: the newest valid candidate, or nothing when it or the writing fails. */
  ghost predicate Readable(p: Paths, s: State, io: Io) {
    var bundled, active := BundledCandidate(s.files, s.baselines, p.bundled), ActiveCandidate(p, s.files);
    && io.locks && (bundled.Valid? || active.Valid?)
    && (io.materialises || p.active == p.bundled || ReadCandidate(s.files, p.active) == Valid(Newest(bundled, active)))
  }

  /** The newer of two candidates, and the first of two equally new ones. */
  function Newest(bundled: Candidate, active: Candidate): (r: Release)
    requires bundled.Valid? || active.Valid?
    ensures bundled.Valid? ==> r.revision >= bundled.release.revision
    ensures active.Valid? ==> r.revision >= active.release.revision
    ensures Valid(r) == bundled || (Valid(r) == active && (bundled.Valid? ==> r.revision > bundled.release.revision))
  {
    SelectCandidate(bundled, active).value
  }

  function WhatIsThere(p: Paths, s: State): Release
    requires BundledCandidate(s.files, s.baselines, p.bundled).Valid? || ActiveCandidate(p, s.files).Valid?
  {
    Newest(BundledCandidate(s.files, s.baselines, p.bundled), ActiveCandidate(p, s.files))
  }

  /**
   A refresh tells of an error exactly when what is there cannot be read, and of a change exactly when it differs from
   what was observed; it tells of nothing else, and observes what it has read.
   */
  lemma {:induction false} RefreshTells(p: Paths, s: State, io: Io)
    requires !s.disposed
    ensures var s' := RefreshStep(p, s, io);
            if !Readable(p, s, io) then
              s'.emitted == s.emitted + [WatchError] && s'.observedSignature == s.observedSignature
            else
              && s'.observedSignature == Some(WhatIsThere(p, s))
              && s'.emitted == s.emitted + if s.observedSignature == Some(WhatIsThere(p, s)) then [] else [FileChanged]
  {
  }

  /** The answer to a release from outside, with what it does to the Active file and what it tells. */
  lemma {:induction false} ApplyAnswers(p: Paths, s: State, release: Release, io: Io)
    requires !s.disposed && p.active != p.bundled
    ensures var (r, s') := ApplyStep(p, s, release, io);
            if !Readable(p, s, io) then r.Err? && s'.files == s.files && Untold(s, s')
            else
              var current := WhatIsThere(p, s);
              && (r == Ok(Stale) <==> release.revision < current.revision)
              && (r == Ok(Unchanged) <==> release == current)
              && (r == Err(SameRevisionDiffers) <==> release.revision == current.revision && release != current)
              && (r == Ok(UpdatedTo) <==> release.revision > current.revision && io.writes)
              && (r == Err(NotWritten) <==> release.revision > current.revision && !io.writes)
              && ReadCandidate(s'.files, p.active) == Valid(if r == Ok(UpdatedTo) then release else current)
              && if r == Ok(UpdatedTo) then
                   s'.emitted == s.emitted + [RemoteUpdated] && s'.observedSignature == Some(release)
                 else Untold(s, s')
  {
    hide BundledCandidate;
  }

  predicate Untold(s: State, s': State) {
    s'.emitted == s.emitted && s'.observedSignature == s.observedSignature
  }

  /** A reading tells nothing, and changes what was observed only where that was nothing. */
  lemma {:induction false} ReadingTellsNothing(p: Paths, s: State, io: Io)
    ensures var (r, s') := ReadStep(p, s, io);
            && s'.emitted == s.emitted && s'.disposed == s.disposed
            && s'.observedSignature == if s.observedSignature.None? && r.Ok? then Some(r.value) else s.observedSignature
  {
    hide SelectCandidate, BundledCandidate;
  }

  predicate Tells(notices: seq<Notice>) {
    FileChanged in notices || RemoteUpdated in notices
  }

  /** Whatever one source does, every other source has observed and told what it had. */
  lemma {:induction false} OneStepTells(w: World, op: Op, j: nat)
    requires HasSource(w, j)
    ensures HasSource(Step(w, op), j) && Step(w, op).sources[j].paths == w.sources[j].paths
    ensures var s, s' := w.sources[j], Step(w, op).sources[j];
            && s.emitted <= s'.emitted && (s.disposed ==> s'.disposed)
            && (s.observedSignature.Some? ==> s'.observedSignature.Some?)
            && (s.observedSignature.Some? && s'.observedSignature != s.observedSignature ==>
                  s.disposed || Tells(s'.emitted[|s.emitted|..]))
  {
    if (op.Read? || op.Refresh? || op.ApplyRelease?) && op.k == j {
      var p, s := w.sources[j].paths, StateOf(w, j);
      if op.Read? {
        ReadingTellsNothing(p, s, op.io);
      } else if op.Refresh? {
        RefreshObserves(p, s, op.io);
      } else {
        ApplyObserves(p, s, op.release, op.io);
      }
      hide ReadStep, RefreshStep, ApplyStep;
    }
  }

  lemma {:induction false} RefreshObserves(p: Paths, s: State, io: Io)
    ensures var s' := RefreshStep(p, s, io);
            && s.emitted <= s'.emitted && s'.disposed == s.disposed
            && (s.observedSignature.Some? ==> s'.observedSignature.Some?)
            && (s'.observedSignature != s.observedSignature ==> Tells(s'.emitted[|s.emitted|..]))
  {
    hide SelectCandidate, BundledCandidate;
  }

  lemma {:induction false} ApplyObserves(p: Paths, s: State, release: Release, io: Io)
    ensures var s' := ApplyStep(p, s, release, io).1;
            && s.emitted <= s'.emitted && s'.disposed == s.disposed
            && (s.observedSignature.Some? ==> s'.observedSignature.Some?)
            && (s'.observedSignature != s.observedSignature ==> Tells(s'.emitted[|s.emitted|..]))
  {
    hide SelectCandidate, BundledCandidate;
  }

  /**
   No change is swallowed: whatever all the sources do, a live source that has observed something either still stands
   by it, or has told its listeners of a change since.
   */
  lemma {:induction false} NoChangeIsSwallowed(w: World, ops: seq<Op>, j: nat)
    requires HasSource(w, j) && w.sources[j].observedSignature.Some?
    ensures HasSource(Run(w, ops), j) && Run(w, ops).sources[j].paths == w.sources[j].paths
    ensures var s, s' := w.sources[j], Run(w, ops).sources[j];
            && s.emitted <= s'.emitted && s'.observedSignature.Some?
            && (s'.observedSignature != s.observedSignature && !s'.disposed ==> Tells(s'.emitted[|s.emitted|..]))
  {
    if ops != [] {
      var before := Run(w, ops[..|ops| - 1]);
      NoChangeIsSwallowed(w, ops[..|ops| - 1], j);
      OneStepTells(before, ops[|ops| - 1], j);
      hide Step;
      var a, b, c := w.sources[j].emitted, before.sources[j].emitted, Run(w, ops).sources[j].emitted;
      TellsOn(a, b, c);
    }
  }

  lemma {:induction false} TellsOn(a: seq<Notice>, b: seq<Notice>, c: seq<Notice>)
    requires a <= b <= c
    ensures a <= c && (Tells(b[|a|..]) || Tells(c[|b|..]) ==> Tells(c[|a|..]))
  {
    assert c[|a|..] == b[|a|..] + c[|b|..];
  }

  /** The next refresh that is granted everything tells of what has changed meanwhile, whoever changed it. */
  lemma {:induction false} NextRefreshTells(w: World, ops: seq<Op>, j: nat, io: Io)
    requires HasSource(w, j) && w.sources[j].observedSignature.Some?
    requires var now := Run(w, ops);
             HasSource(now, j) && !now.sources[j].disposed && Readable(w.sources[j].paths, StateOf(now, j), io)
    ensures HasSource(Run(w, ops + [Refresh(j, io)]), j)
    ensures var s, s' := w.sources[j], Run(w, ops + [Refresh(j, io)]).sources[j];
            var there := WhatIsThere(s.paths, StateOf(Run(w, ops), j));
            && s'.observedSignature == Some(there) && s.emitted <= s'.emitted
            && (Some(there) != s.observedSignature ==> Tells(s'.emitted[|s.emitted|..]))
  {
    var all, now := ops + [Refresh(j, io)], Run(w, ops);
    assert all[..|all| - 1] == ops;
    NoChangeIsSwallowed(w, all, j);
    NoChangeIsSwallowed(w, ops, j);
    RefreshTells(w.sources[j].paths, StateOf(now, j), io);
    assert Run(w, all) == Put(now, j, RefreshStep(w.sources[j].paths, StateOf(now, j), io));
    hide RefreshStep, Readable, WhatIsThere, Run;
  }

  /**
   When one source has applied a release, another one of the same Active file that has observed something else and
   whose own Bundled is older tells its listeners once at its next refresh, and nothing at the one after.
   */
  lemma {:induction false} OthersAreTold(w: World, k: nat, j: nat, release: Release, io: Io, granted: Io, again: Io)
    requires HasSource(w, k) && HasSource(w, j) && k != j && w.sources[k].paths.active == w.sources[j].paths.active
    requires Distinct(w, w.sources[j].paths.active) && !w.sources[j].disposed
    requires ApplyStep(w.sources[k].paths, StateOf(w, k), release, io).0 == Ok(UpdatedTo)
    requires w.sources[j].observedSignature != Some(release) && granted.locks && again.locks
    requires var w' := Step(w, ApplyRelease(k, release, io));
             var bundled := BundledCandidate(w'.files, w'.baselines[w.sources[j].process], w.sources[j].paths.bundled);
             bundled.Valid? ==> bundled.release.revision < release.revision || bundled.release == release
    ensures var w' := Step(w, ApplyRelease(k, release, io));
            var told := Step(w', Refresh(j, granted));
            && told.sources[j].emitted == w.sources[j].emitted + [FileChanged]
            && told.sources[j].observedSignature == Some(release)
            && Step(told, Refresh(j, again)).sources[j].emitted == told.sources[j].emitted
  {
    var p, s := w.sources[j].paths, StateOf(w, k);
    var w' := Step(w, ApplyRelease(k, release, io));
    var s' := StateOf(w', j);
    assert ReadCandidate(w'.files, p.active) == Valid(release) by {
      ApplyAnswers(w.sources[k].paths, s, release, io);
    }
    assert s'.observedSignature == w.sources[j].observedSignature && s'.emitted == w.sources[j].emitted
        && !s'.disposed;
    ToldOnce(p, s', release, granted, again);
    hide ApplyStep, RefreshStep, BundledCandidate;
  }

  lemma {:induction false} ToldOnce(p: Paths, s: State, release: Release, granted: Io, again: Io)
    requires p.active != p.bundled && !s.disposed && granted.locks && again.locks
    requires ReadCandidate(s.files, p.active) == Valid(release) && s.observedSignature != Some(release)
    requires var bundled := BundledCandidate(s.files, s.baselines, p.bundled);
             bundled.Valid? ==> bundled.release.revision < release.revision || bundled.release == release
    ensures var told := RefreshStep(p, s, granted);
            && told.emitted == s.emitted + [FileChanged] && told.observedSignature == Some(release)
            && !told.disposed && RefreshStep(p, told, again).emitted == told.emitted
  {
  }
}
