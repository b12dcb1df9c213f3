/** Publishing run records: any number of writers that may fail or crash at any step. */
module Publication {
  import opened Prelude

  // ----- names in the runs directory -----

  predicate Alnum(c: char) { 'a' <= c <= 'z' || 'A' <= c <= 'Z' || '0' <= c <= '9' }

  /** `validate_run_id`: the pattern already excludes "." and "..". */
  predicate ValidRunId(r: string)
  {
    && 1 <= |r| <= 128 && Alnum(r[0])
    && forall i :: 0 <= i < |r| ==> Alnum(r[i]) || r[i] == '.' || r[i] == '_' || r[i] == '-'
  }

  /** A valid run id names an entry of the runs directory that is neither hidden nor elsewhere. */
  lemma RunIdStays(r: string)
    requires ValidRunId(r)
    ensures '/' !in r && '\\' !in r && r != [] && r[0] != '.' && r != ".."
  {
  }

  function LockPath(r: string): string { "." + r + ".lock" }

  function FinalPath(r: string): string { r }

  /** `mkdtemp` appends eight random characters without a dot. */
  predicate Suffix(x: string) { |x| == 8 && '.' !in x }

  function StagingPath(r: string, x: string): string { "." + r + "-" + x }

  /** Published, reserved and staging names never meet, and each names its run. */
  lemma NamesAreApart(r: string, r': string, x: string, x': string)
    requires ValidRunId(r) && ValidRunId(r') && Suffix(x) && Suffix(x')
    ensures FinalPath(r) != LockPath(r') && FinalPath(r) != StagingPath(r', x) && LockPath(r) != StagingPath(r', x)
    ensures LockPath(r) == LockPath(r') ==> r == r'
    ensures StagingPath(r, x) == StagingPath(r', x') ==> r == r' && x == x'
  {
    assert LockPath(r')[0] == '.' == StagingPath(r', x)[0];
    var lock, stage := LockPath(r), StagingPath(r', x);
    assert lock[|lock| - 5] == '.' && lock[1..|lock| - 5] == r && LockPath(r')[1..|LockPath(r')| - 5] == r';
    assert stage[|stage| - 8..] == x && stage[|stage| - 5] == x[3];
    var a, b := StagingPath(r, x), StagingPath(r', x');
    assert a[1..|a| - 9] == r && a[|a| - 8..] == x && b[1..|b| - 9] == r' && b[|b| - 8..] == x';
  }

  // ----- contents -----

  datatype Blob = Text(content: int) | Evaluation(passed: bool, details: int) | Manifest(digests: map<string, int>)

  type Files = map<string, Blob>

  /** The artifacts in the order in which they are written; the manifest follows. */
  const ARTIFACTS: seq<string> :=
    ["review.json", "investigator-findings.txt", "ledger.json", "api-calls.json", "source-evidence.json",
     "evaluation.json"]
  const MANIFEST := "manifest.json"

  /** What one writer intends to publish. */
  datatype Work = Work(texts: seq<int>, passes: bool, details: int)

  function ArtifactBlob(w: Work, k: nat): Blob
    requires k < 6
  {
    if k < 5 then Text(if k < |w.texts| then w.texts[k] else 0) else Evaluation(w.passes, w.details)
  }

  function Written(w: Work, k: nat): Files
    requires k <= 6
  {
    if k == 0 then map[] else Written(w, k - 1)[ARTIFACTS[k - 1] := ArtifactBlob(w, k - 1)]
  }

  /** A complete record: all artifacts, passing checks, and a manifest whose digests match the files. */
  predicate Complete(sha: Blob -> int, files: Files)
  {
    && files.Keys == (set k | 0 <= k < 6 :: ARTIFACTS[k]) + {MANIFEST}
    && "evaluation.json" in files && files["evaluation.json"].Evaluation? && files["evaluation.json"].passed
    && files[MANIFEST].Manifest? && files[MANIFEST].digests.Keys == files.Keys - {MANIFEST}
    && forall n :: n in files[MANIFEST].digests ==> files[MANIFEST].digests[n] == sha(files[n])
  }

  function WithManifest(sha: Blob -> int, files: Files): Files
  {
    files[MANIFEST := Manifest(map n | n in files :: sha(files[n]))]
  }

  /** What a writer with that work publishes. */
  function Record(sha: Blob -> int, w: Work): Files { WithManifest(sha, Written(w, 6)) }

  lemma PassingRecordIsComplete(sha: Blob -> int, w: Work)
    requires w.passes
    ensures Complete(sha, Record(sha, w))
  {
    WrittenKeys(w, 6);
    assert MANIFEST !in (set k | 0 <= k < 6 :: ARTIFACTS[k]);
    assert Written(w, 6)["evaluation.json"] == ArtifactBlob(w, 5);
  }

  /** The files hold the texts of the work under their names, and its evaluation. */
  ghost predicate Carries(files: Files, w: Work)
  {
    && (forall k :: 0 <= k < 5 && k < |w.texts| ==> ARTIFACTS[k] in files && files[ARTIFACTS[k]] == Text(w.texts[k]))
    && "evaluation.json" in files && files["evaluation.json"] == Evaluation(w.passes, w.details)
  }

  lemma NamesDiffer(i: nat, j: nat)
    requires i < j < 6
    ensures ARTIFACTS[i] != ARTIFACTS[j] && ARTIFACTS[i] != MANIFEST && ARTIFACTS[j] != MANIFEST
  {
    var n := map["review.json" := 0, "investigator-findings.txt" := 1, "ledger.json" := 2, "api-calls.json" := 3,
                 "source-evidence.json" := 4, "evaluation.json" := 5, "manifest.json" := 6];
    assert n[ARTIFACTS[i]] == i && n[ARTIFACTS[j]] == j && n[MANIFEST] == 6;
  }

  lemma {:induction false} WrittenHolds(w: Work, n: nat, k: nat)
    requires k < n <= 6
    ensures ARTIFACTS[k] in Written(w, n) && Written(w, n)[ARTIFACTS[k]] == ArtifactBlob(w, k)
  {
    hide ArtifactBlob, ARTIFACTS;
    if k == n - 1 {
    } else {
      WrittenHolds(w, n - 1, k);
      NamesDiffer(k, n - 1);
    }
  }

  lemma RecordCarries(sha: Blob -> int, w: Work)
    ensures Carries(Record(sha, w), w)
  {
    forall k | 0 <= k < 6 ensures ARTIFACTS[k] in Record(sha, w) && Record(sha, w)[ARTIFACTS[k]] == ArtifactBlob(w, k) {
      WrittenHolds(w, 6, k);
      NamesDiffer(if k == 0 then 0 else k - 1, if k == 0 then 1 else k);
      hide Written, ArtifactBlob, ARTIFACTS;
    }
    hide Record;
    assert ARTIFACTS[5] == "evaluation.json";
  }

  lemma {:induction false} WrittenKeys(w: Work, k: nat)
    requires k <= 6
    ensures Written(w, k).Keys == set i | 0 <= i < k :: ARTIFACTS[i]
  {
    if k == 0 {
    } else {
      WrittenKeys(w, k - 1);
    }
  }

  // ----- states -----

  type Pid = nat

  datatype Entry = Lock(owner: Pid) | Dir(owner: Pid, files: Files)

  datatype Pc =
    | Start | Checked                         // no reservation yet
    | Locked | Cleared                        // reserved, nothing staged
    | Writing(k: nat) | Passed | Renaming     // staging
    | Cleaning                                // exception: the staging directory is to be removed
    | Releasing(ok: bool)                     // the reservation is to be removed
    | Done(ok: bool)
    | Crashed

  /** A writer; `renamed` records a publication, `leaked` a cleanup that failed or was never reached
      because an interrupt came between a `mkdir` and the `try` that undoes it. */
  datatype Proc = Proc(run: string, work: Work, pc: Pc, suffix: string, renamed: bool, leaked: bool) {
    predicate Holding() { pc.Locked? || pc.Cleared? || Staged() || pc.Cleaning? || pc.Releasing? }
    predicate Staged() { pc.Writing? || pc.Passed? || pc.Renaming? }
    function Staging(): string { StagingPath(run, suffix) }
  }

  datatype State = State(fs: map<string, Entry>, procs: map<Pid, Proc>)

  ghost predicate Init(s: State)
  {
    && s.fs == map[]
    && forall p :: p in s.procs ==>
         s.procs[p].pc.Start? && !s.procs[p].renamed && !s.procs[p].leaked && Suffix(s.procs[p].suffix)
  }

  // ----- steps -----

  datatype Action =
    | Reject                      // an invalid run id, an early check or an error before the reservation
    | CheckDestination
    | Reserve(interrupted: bool)  // mkdir of the lock, failing if the path exists, perhaps interrupted right after it
    | Recheck
    | FailReserved                // any exception between reservation and staging
    | MakeStaging(suffix: string, interrupted: bool)  // mkdtemp, perhaps interrupted right after it
    | WriteNext                   // the next artifact
    | Gate                        // all(checks.values())
    | WriteManifest
    | FailStaged(garbage: Files)  // any exception while staging, possibly in the middle of a write
    | Publish(interrupted: bool)  // rename, perhaps with an interrupt right after it
    | RemoveStaging
    | RemoveStagingFails(left: Files)
    | Release
    | ReleaseFails
    | Crash

  predicate Enabled(s: State, p: Pid, a: Action)
  {
    p in s.procs &&
    var q := s.procs[p];
    match a
    case Reject => q.pc.Start? || q.pc.Checked?
    case CheckDestination => q.pc.Start? && ValidRunId(q.run)
    case Reserve(_) => q.pc.Checked?
    case Recheck => q.pc.Locked?
    case FailReserved => q.pc.Locked? || q.pc.Cleared?
    case MakeStaging(x, _) => q.pc.Cleared? && Suffix(x) && StagingPath(q.run, x) !in s.fs
    case WriteNext => q.pc.Writing? && q.pc.k < 6
    case Gate => q.pc.Writing? && q.pc.k == 6
    case WriteManifest => q.pc.Passed? && q.Staging() in s.fs && s.fs[q.Staging()].Dir?
    case FailStaged(_) => q.Staged()
    case Publish(_) => q.pc.Renaming? && q.Staging() in s.fs
    case RemoveStaging => q.pc.Cleaning?
    case RemoveStagingFails(_) => q.pc.Cleaning?
    case Release => q.pc.Releasing?
    case ReleaseFails => q.pc.Releasing?
    case Crash => !q.pc.Done? && !q.pc.Crashed?
  }

  /** The writer after a step. */
  function StepProc(s: State, p: Pid, a: Action): Proc
    requires Enabled(s, p, a)
  {
    var q := s.procs[p];
    match a
    case Reject => q.(pc := Done(false))
    case CheckDestination => q.(pc := if FinalPath(q.run) in s.fs then Done(false) else Checked)
    case Reserve(interrupted) =>
      if LockPath(q.run) in s.fs then q.(pc := Done(false))
      else if interrupted then q.(pc := Done(false), leaked := true)
      else q.(pc := Locked)
    case Recheck => q.(pc := if FinalPath(q.run) in s.fs then Releasing(false) else Cleared)
    case FailReserved => q.(pc := Releasing(false))
    case MakeStaging(x, interrupted) =>
      if interrupted then q.(pc := Releasing(false), suffix := x, leaked := true)
      else q.(pc := Writing(0), suffix := x)
    case WriteNext => q.(pc := Writing(q.pc.k + 1))
    case Gate => q.(pc := if q.work.passes then Passed else Cleaning)
    case WriteManifest => q.(pc := Renaming)
    case FailStaged(_) => q.(pc := Cleaning)
    case Publish(interrupted) => q.(pc := if interrupted then Cleaning else Releasing(true), renamed := true)
    case RemoveStaging => q.(pc := Releasing(false))
    case RemoveStagingFails(_) => q.(pc := Releasing(false), leaked := q.Staging() in s.fs)
    case Release => q.(pc := Done(q.pc.ok))
    case ReleaseFails => q.(pc := Done(q.pc.ok), leaked := true)
    case Crash => q.(pc := Crashed)
  }

  /** The runs directory after a step. `rename` replaces whatever the destination holds and `rmdir`
      removes whatever the lock path holds: that nothing is lost is proved, not assumed. */
  function StepFs(sha: Blob -> int, s: State, p: Pid, a: Action): map<string, Entry>
    requires Enabled(s, p, a)
  {
    var q := s.procs[p];
    match a
    case Reserve(_) => if LockPath(q.run) in s.fs then s.fs else s.fs[LockPath(q.run) := Lock(p)]
    case MakeStaging(x, _) => s.fs[StagingPath(q.run, x) := Dir(p, map[])]
    case WriteNext => s.fs[q.Staging() := Dir(p, Written(q.work, q.pc.k + 1))]
    case WriteManifest => s.fs[q.Staging() := Dir(p, WithManifest(sha, s.fs[q.Staging()].files))]
    case FailStaged(garbage) => s.fs[q.Staging() := Dir(p, garbage)]
    case Publish(_) => (s.fs - {q.Staging()})[FinalPath(q.run) := s.fs[q.Staging()]]
    case RemoveStaging => s.fs - {q.Staging()}
    case RemoveStagingFails(left) => if q.Staging() in s.fs then s.fs[q.Staging() := Dir(p, left)] else s.fs
    case Release => s.fs - {LockPath(q.run)}
    case _ => s.fs
  }

  function Step(sha: Blob -> int, s: State, p: Pid, a: Action): State
    requires Enabled(s, p, a)
  {
    State(StepFs(sha, s, p, a), s.procs[p := StepProc(s, p, a)])
  }

  // ----- the invariant -----

  /** A writer past its reservation has a valid run id and its own lock. */
  ghost predicate OwnsLock(s: State, p: Pid)
    requires p in s.procs
  {
    var q := s.procs[p];
    && Suffix(q.suffix) && (q.leaked ==> q.pc.Releasing? || q.pc.Done? || q.pc.Crashed?)
    && (q.Holding() || q.pc.Checked? || q.renamed ==> ValidRunId(q.run))
    && (q.Holding() ==> LockPath(q.run) in s.fs && s.fs[LockPath(q.run)] == Lock(p))
  }

  /** While it stages, nothing is published under its run id and its directory holds what it wrote. */
  ghost predicate OwnsStaging(sha: Blob -> int, s: State, p: Pid)
    requires p in s.procs
  {
    var q := s.procs[p];
    && (q.pc.Cleared? || q.Staged() ==> FinalPath(q.run) !in s.fs)
    && (q.Staged() ==> q.Staging() in s.fs)
    && (q.pc.Writing? ==> q.pc.k <= 6 && s.fs[q.Staging()] == Dir(p, Written(q.work, q.pc.k)))
    && (q.pc.Passed? ==> q.work.passes && s.fs[q.Staging()] == Dir(p, Written(q.work, 6)))
    && (q.pc.Renaming? ==>
          q.work.passes && s.fs[q.Staging()] == Dir(p, Record(sha, q.work)))
    && (q.renamed ==>
          q.work.passes && FinalPath(q.run) in s.fs && s.fs[FinalPath(q.run)] == Dir(p, Record(sha, q.work)))
    && ((q.pc.Releasing? || q.pc.Done?) && q.pc.ok ==> q.renamed)
    && (q.pc.Cleaning? && q.Staging() in s.fs ==> s.fs[q.Staging()].Dir? && s.fs[q.Staging()].owner == p)
  }

  ghost predicate StagingLeft(s: State, p: Pid)
    requires p in s.procs
  {
    var n := s.procs[p].Staging();
    n in s.fs && s.fs[n].Dir? && s.fs[n].owner == p
  }

  ghost predicate LockLeft(s: State, p: Pid)
    requires p in s.procs
  {
    var n := LockPath(s.procs[p].run);
    n in s.fs && s.fs[n] == Lock(p)
  }

  /** What a writer failed to clean up is still there. */
  ghost predicate Litter(s: State, p: Pid)
    requires p in s.procs
  {
    s.procs[p].leaked ==> StagingLeft(s, p) || (s.procs[p].pc.Done? && LockLeft(s, p))
  }

  /** Every entry is a live lock, a live staging directory, a complete record, or was left behind
      by a writer that crashed or whose cleanup failed. */
  ghost predicate Accounted(sha: Blob -> int, s: State, n: string)
    requires n in s.fs
  {
    var e := s.fs[n];
    e.owner in s.procs &&
    var q := s.procs[e.owner];
    && ValidRunId(q.run) && Suffix(q.suffix)
    && match e
       case Lock(_) => n == LockPath(q.run) && (q.Holding() || q.leaked || q.pc.Crashed?)
       case Dir(_, files) =>
         || (n == FinalPath(q.run) && q.renamed && files == Record(sha, q.work))
         || (n == q.Staging() && (q.Staged() || q.pc.Cleaning? || q.leaked || q.pc.Crashed?))
  }

  ghost predicate Inv(sha: Blob -> int, s: State)
  {
    && (forall p :: p in s.procs ==> OwnsLock(s, p) && OwnsStaging(sha, s, p) && Litter(s, p))
    && (forall n :: n in s.fs ==> Accounted(sha, s, n))
  }

  lemma InitInv(sha: Blob -> int, s: State)
    requires Init(s)
    ensures Inv(sha, s)
  {
  }

  /** At most one writer holds the reservation of a run id. */
  lemma OneHolder(sha: Blob -> int, s: State, p: Pid, p': Pid)
    requires Inv(sha, s) && p in s.procs && p' in s.procs && s.procs[p].run == s.procs[p'].run
    requires s.procs[p].Holding() && s.procs[p'].Holding()
    ensures p == p'
  {
    assert OwnsLock(s, p) && OwnsLock(s, p');
  }

  /** The paths that a step of a writer can change. */
  ghost predicate Touches(s: State, p: Pid, a: Action, n: string)
    requires Enabled(s, p, a)
  {
    var q := s.procs[p];
    match a
    case Reserve(_) => n == LockPath(q.run) && n !in s.fs
    case Release => n == LockPath(q.run)
    case MakeStaging(x, _) => n == StagingPath(q.run, x)
    case WriteNext => n == q.Staging()
    case WriteManifest => n == q.Staging()
    case FailStaged(_) => n == q.Staging()
    case RemoveStaging => n == q.Staging()
    case RemoveStagingFails(_) => n == q.Staging()
    case Publish(_) => n == q.Staging() || n == FinalPath(q.run)
    case _ => false
  }

  lemma StepTouches(sha: Blob -> int, s: State, p: Pid, a: Action, n: string)
    requires Enabled(s, p, a) && !Touches(s, p, a, n)
    ensures n in Step(sha, s, p, a).fs <==> n in s.fs
    ensures n in s.fs ==> Step(sha, s, p, a).fs[n] == s.fs[n]
  {
    hide Written, WithManifest, LockPath, StagingPath, FinalPath;
  }

  /** Another writer's lock is never touched: not by a loser, not by a later winner. */
  lemma OthersLockIsSafe(sha: Blob -> int, s: State, p: Pid, a: Action, p': Pid)
    requires Inv(sha, s) && Enabled(s, p, a) && p' in s.procs && p' != p && s.procs[p'].Holding()
    ensures !Touches(s, p, a, LockPath(s.procs[p'].run))
  {
    hide Written, WithManifest, LockPath, StagingPath, FinalPath, ValidRunId, Accounted, Suffix, OwnsStaging;
    var q, q' := s.procs[p], s.procs[p'];
    assert OwnsLock(s, p) && OwnsLock(s, p');
    if q.Holding() {
      NamesAreApart(q.run, q'.run, q.suffix, q'.suffix);
      NamesAreApart(q'.run, q.run, q.suffix, q'.suffix);
      if a.MakeStaging? {
        NamesAreApart(q'.run, q.run, a.suffix, q'.suffix);
      }
    }
  }

  /** No step touches what another writer owns: its lock, its staging directory, its record, or
      what it left behind. */
  lemma OthersAreSafe(sha: Blob -> int, s: State, p: Pid, a: Action, n: string)
    requires Inv(sha, s) && Enabled(s, p, a) && n in s.fs && s.fs[n].owner != p
    ensures !Touches(s, p, a, n)
  {
    hide Written, WithManifest, LockPath, StagingPath, FinalPath, ValidRunId, Accounted, Suffix, Complete;
    assert OwnsLock(s, p) && OwnsStaging(sha, s, p);
  }

  /** Another writer's staging directory is never touched. */
  lemma OthersStagingIsSafe(sha: Blob -> int, s: State, p: Pid, a: Action, p': Pid)
    requires Inv(sha, s) && Enabled(s, p, a) && p' in s.procs && p' != p
    requires s.procs[p'].Staged() || s.procs[p'].pc.Cleaning?
    ensures !Touches(s, p, a, s.procs[p'].Staging())
  {
    hide Written, WithManifest, LockPath, StagingPath, FinalPath, ValidRunId, Accounted, Suffix;
    var q, q' := s.procs[p], s.procs[p'];
    assert OwnsLock(s, p) && OwnsLock(s, p') && OwnsStaging(sha, s, p');
    if q.Holding() || q.pc.Checked? {
      NamesAreApart(q.run, q'.run, q'.suffix, q.suffix);
      NamesAreApart(q.run, q'.run, q.suffix, q'.suffix);
      if a.MakeStaging? {
        NamesAreApart(q.run, q'.run, a.suffix, q'.suffix);
      }
    }
  }

  /** A record is published only where nothing is published. */
  lemma PublishesOnce(sha: Blob -> int, s: State, p: Pid, a: Action, r: string)
    requires Inv(sha, s) && Enabled(s, p, a) && ValidRunId(r) && FinalPath(r) in s.fs
    ensures !Touches(s, p, a, FinalPath(r))
  {
    hide Written, WithManifest, LockPath, StagingPath, ValidRunId, Accounted, Suffix;
    var q := s.procs[p];
    assert OwnsLock(s, p) && OwnsStaging(sha, s, p);
    if q.Holding() || q.pc.Checked? {
      NamesAreApart(r, q.run, q.suffix, q.suffix);
      if a.MakeStaging? {
        NamesAreApart(r, q.run, a.suffix, q.suffix);
      }
    }
  }

  lemma StepOwnsLock(sha: Blob -> int, s: State, p: Pid, a: Action, p': Pid)
    requires Inv(sha, s) && Enabled(s, p, a) && p' in s.procs
    ensures OwnsLock(Step(sha, s, p, a), p')
  {
    if p' != p {
      StepOwnsLockOther(sha, s, p, a, p');
    } else {
      StepOwnsLockSelf(sha, s, p, a);
    }
  }

  lemma StepOwnsLockOther(sha: Blob -> int, s: State, p: Pid, a: Action, p': Pid)
    requires Inv(sha, s) && Enabled(s, p, a) && p' in s.procs && p' != p
    ensures OwnsLock(Step(sha, s, p, a), p')
  {
    hide Written, WithManifest, LockPath, StagingPath, FinalPath, ValidRunId, Accounted, Suffix, Complete, Record;
    hide StepFs, StepProc, Enabled, Touches;
    assert OwnsLock(s, p') && OwnsStaging(sha, s, p');
    var q' := s.procs[p'];
    if q'.Holding() {
      OthersLockIsSafe(sha, s, p, a, p');
      StepTouches(sha, s, p, a, LockPath(q'.run));
    }
  }

  lemma StepOwnsLockSelf(sha: Blob -> int, s: State, p: Pid, a: Action)
    requires Inv(sha, s) && Enabled(s, p, a)
    ensures OwnsLock(Step(sha, s, p, a), p)
  {
    hide Written, WithManifest, LockPath, StagingPath, FinalPath, ValidRunId, Accounted, Suffix, Complete;
    assert OwnsLock(s, p) && OwnsStaging(sha, s, p);
    var q := s.procs[p];
    if q.Holding() {
      NamesAreApart(q.run, q.run, q.suffix, q.suffix);
      if a.MakeStaging? {
        NamesAreApart(q.run, q.run, a.suffix, q.suffix);
      }
    }
  }

  lemma OthersFinalAbsent(sha: Blob -> int, s: State, p: Pid, a: Action, p': Pid)
    requires Inv(sha, s) && Enabled(s, p, a) && p' in s.procs && p' != p
    requires s.procs[p'].pc.Cleared? || s.procs[p'].Staged()
    ensures FinalPath(s.procs[p'].run) !in Step(sha, s, p, a).fs
  {
    hide Written, WithManifest, LockPath, StagingPath, ValidRunId, Accounted, Suffix, Complete;
    var q, q' := s.procs[p], s.procs[p'];
    assert OwnsLock(s, p) && OwnsLock(s, p') && OwnsStaging(sha, s, p');
    if q.Holding() || q.pc.Checked? {
      NamesAreApart(q'.run, q.run, q.suffix, q.suffix);
      if a.MakeStaging? {
        NamesAreApart(q'.run, q.run, a.suffix, q.suffix);
      }
    }
  }

  lemma StepOwnsStagingOther(sha: Blob -> int, s: State, p: Pid, a: Action, p': Pid)
    requires Inv(sha, s) && Enabled(s, p, a) && p' in s.procs && p' != p
    ensures OwnsStaging(sha, Step(sha, s, p, a), p')
  {
    hide Written, WithManifest, LockPath, StagingPath, ValidRunId, Accounted, Suffix, Complete, StepFs, Touches;
    assert OwnsLock(s, p') && OwnsStaging(sha, s, p');
    var q' := s.procs[p'];
    if q'.pc.Cleared? || q'.Staged() {
      OthersFinalAbsent(sha, s, p, a, p');
    }
    if q'.Staged() || q'.pc.Cleaning? {
      OthersStagingIsSafe(sha, s, p, a, p');
      StepTouches(sha, s, p, a, q'.Staging());
    }
    if q'.renamed {
      PublishesOnce(sha, s, p, a, q'.run);
      StepTouches(sha, s, p, a, FinalPath(q'.run));
    }
  }

  /** The step leaves the runs directory as it is. */
  predicate Quiet(a: Action)
  {
    a.Reject? || a.CheckDestination? || a.Recheck? || a.FailReserved? || a.Gate? || a.ReleaseFails? || a.Crash?
  }

  lemma StepOwnsStagingSelf(sha: Blob -> int, s: State, p: Pid, a: Action)
    requires Inv(sha, s) && Enabled(s, p, a)
    ensures OwnsStaging(sha, Step(sha, s, p, a), p)
  {
    hide OwnsStaging, Enabled, Inv, Step;
    if Quiet(a) {
      QuietStaging(sha, s, p, a);
    } else {
      LoudStaging(sha, s, p, a);
    }
  }

  lemma QuietStaging(sha: Blob -> int, s: State, p: Pid, a: Action)
    requires Inv(sha, s) && Enabled(s, p, a) && Quiet(a)
    ensures OwnsStaging(sha, Step(sha, s, p, a), p)
  {
    hide LockPath, StagingPath, FinalPath, ValidRunId, Accounted, Suffix, Complete, WithManifest, Written, Record;
    assert OwnsLock(s, p) && OwnsStaging(sha, s, p);
  }

  predicate Directory(a: Action) { a.Reserve? || a.Release? || a.MakeStaging? }

  lemma LoudStaging(sha: Blob -> int, s: State, p: Pid, a: Action)
    requires Inv(sha, s) && Enabled(s, p, a) && !Quiet(a)
    ensures OwnsStaging(sha, Step(sha, s, p, a), p)
  {
    hide OwnsStaging, Enabled, Inv, Step;
    if Directory(a) {
      DirectoryStaging(sha, s, p, a);
    } else {
      FilesStaging(sha, s, p, a);
    }
  }

  lemma DirectoryStaging(sha: Blob -> int, s: State, p: Pid, a: Action)
    requires Inv(sha, s) && Enabled(s, p, a) && Directory(a)
    ensures OwnsStaging(sha, Step(sha, s, p, a), p)
  {
    hide LockPath, StagingPath, FinalPath, ValidRunId, Accounted, Suffix, Complete, WithManifest, Written;
    hide Record, Litter;
    assert OwnsLock(s, p) && OwnsStaging(sha, s, p);
    var q := s.procs[p];
    NamesAreApart(q.run, q.run, q.suffix, q.suffix);
    if a.MakeStaging? {
      NamesAreApart(q.run, q.run, a.suffix, q.suffix);
      NothingWritten(q.work);
    }
  }

  lemma FilesStaging(sha: Blob -> int, s: State, p: Pid, a: Action)
    requires Inv(sha, s) && Enabled(s, p, a) && !Quiet(a) && !Directory(a)
    ensures OwnsStaging(sha, Step(sha, s, p, a), p)
  {
    hide LockPath, StagingPath, FinalPath, ValidRunId, Accounted, Suffix, Complete, WithManifest, Written;
    hide Record, Litter;
    assert OwnsLock(s, p) && OwnsStaging(sha, s, p);
    var q := s.procs[p];
    NamesAreApart(q.run, q.run, q.suffix, q.suffix);
    RecordIsManifested(sha, q.work);
  }

  lemma RecordIsManifested(sha: Blob -> int, w: Work)
    ensures Record(sha, w) == WithManifest(sha, Written(w, 6))
  {
  }

  lemma NothingWritten(w: Work)
    ensures Written(w, 0) == map[]
  {
  }

  lemma StepLitter(sha: Blob -> int, s: State, p: Pid, a: Action, p': Pid)
    requires Inv(sha, s) && Enabled(s, p, a) && p' in s.procs
    ensures Litter(Step(sha, s, p, a), p')
  {
    if p' != p {
      StepLitterOther(sha, s, p, a, p');
    } else {
      StepLitterSelf(sha, s, p, a);
    }
  }

  lemma StepLitterOther(sha: Blob -> int, s: State, p: Pid, a: Action, p': Pid)
    requires Inv(sha, s) && Enabled(s, p, a) && p' in s.procs && p' != p
    ensures Litter(Step(sha, s, p, a), p')
  {
    hide LockPath, StagingPath, OwnsLock, OwnsStaging, Accounted, StepFs, StepProc, Enabled, Touches;
    var q' := s.procs[p'];
    assert Litter(s, p');
    if q'.leaked && StagingLeft(s, p') {
      OthersAreSafe(sha, s, p, a, q'.Staging());
      StepTouches(sha, s, p, a, q'.Staging());
    } else if q'.leaked {
      OthersAreSafe(sha, s, p, a, LockPath(q'.run));
      StepTouches(sha, s, p, a, LockPath(q'.run));
    }
  }

  lemma StepLitterSelf(sha: Blob -> int, s: State, p: Pid, a: Action)
    requires Inv(sha, s) && Enabled(s, p, a)
    ensures Litter(Step(sha, s, p, a), p)
  {
    hide LockPath, StagingPath, FinalPath, ValidRunId, Accounted, Suffix, Complete, WithManifest, Written, Record;
    var q := s.procs[p];
    assert OwnsLock(s, p) && OwnsStaging(sha, s, p) && Litter(s, p);
    if q.Holding() || q.pc.Checked? {
      NamesAreApart(q.run, q.run, q.suffix, q.suffix);
    }
  }

  lemma StepAccounted(sha: Blob -> int, s: State, p: Pid, a: Action, n: string)
    requires Inv(sha, s) && Enabled(s, p, a) && n in Step(sha, s, p, a).fs
    ensures Accounted(sha, Step(sha, s, p, a), n)
  {
    hide LockPath, StagingPath, ValidRunId, Suffix, Complete, WithManifest, Written, Record;
    var s' := Step(sha, s, p, a);
    assert OwnsLock(s, p) && OwnsStaging(sha, s, p);
    if Touches(s, p, a, n) {
      TouchedAccounted(sha, s, p, a, n);
    } else {
      StepTouches(sha, s, p, a, n);
      assert Accounted(sha, s, n);
      UntouchedAccounted(sha, s, p, a, n);
    }
  }

  lemma TouchedAccounted(sha: Blob -> int, s: State, p: Pid, a: Action, n: string)
    requires Inv(sha, s) && Enabled(s, p, a) && n in Step(sha, s, p, a).fs && Touches(s, p, a, n)
    ensures Accounted(sha, Step(sha, s, p, a), n)
  {
    hide LockPath, StagingPath, ValidRunId, Suffix, Complete, WithManifest, Written, Record;
    assert OwnsLock(s, p) && OwnsStaging(sha, s, p);
    var q := s.procs[p];
    if n in s.fs {
      assert Accounted(sha, s, n);
    }
    NamesAreApart(q.run, q.run, q.suffix, q.suffix);
  }

  /** An entry that a step of its owner leaves alone stays accounted for. */
  lemma UntouchedAccounted(sha: Blob -> int, s: State, p: Pid, a: Action, n: string)
    requires Inv(sha, s) && Enabled(s, p, a) && n in s.fs && !Touches(s, p, a, n)
    ensures n in Step(sha, s, p, a).fs && Accounted(sha, Step(sha, s, p, a), n)
  {
    hide LockPath, StagingPath, ValidRunId, Suffix, Complete, WithManifest, Written, StepFs;
    StepTouches(sha, s, p, a, n);
    assert OwnsLock(s, p) && OwnsStaging(sha, s, p) && Accounted(sha, s, n);
  }

  /** Every step of every writer keeps the invariant. */
  lemma StepInv(sha: Blob -> int, s: State, p: Pid, a: Action)
    requires Inv(sha, s) && Enabled(s, p, a)
    ensures Inv(sha, Step(sha, s, p, a))
  {
    hide OwnsLock, OwnsStaging, Litter, Accounted, StepFs;
    var s' := Step(sha, s, p, a);
    forall p' | p' in s'.procs ensures OwnsLock(s', p') && OwnsStaging(sha, s', p') && Litter(s', p') {
      StepOwnsLock(sha, s, p, a, p');
      StepLitter(sha, s, p, a, p');
      if p' == p {
        StepOwnsStagingSelf(sha, s, p, a);
      } else {
        StepOwnsStagingOther(sha, s, p, a, p');
      }
    }
    forall n | n in s'.fs ensures Accounted(sha, s', n) {
      StepAccounted(sha, s, p, a, n);
    }
  }

  // ----- runs -----

  datatype Move = Move(pid: Pid, action: Action)

  /** The moves are possible one after the other. */
  ghost predicate Possible(sha: Blob -> int, s: State, moves: seq<Move>)
    decreases |moves|
  {
    moves == [] || (Enabled(s, moves[0].pid, moves[0].action) &&
                    Possible(sha, Step(sha, s, moves[0].pid, moves[0].action), moves[1..]))
  }

  ghost function After(sha: Blob -> int, s: State, moves: seq<Move>): State
    requires Possible(sha, s, moves)
    decreases |moves|
  {
    if moves == [] then s else After(sha, Step(sha, s, moves[0].pid, moves[0].action), moves[1..])
  }

  /** In every interleaving, a published record is never replaced, changed or removed. */
  lemma {:induction false} RecordsStay(sha: Blob -> int, s: State, moves: seq<Move>, r: string)
    requires Inv(sha, s) && Possible(sha, s, moves)
    ensures Inv(sha, After(sha, s, moves))
    ensures ValidRunId(r) && FinalPath(r) in s.fs ==>
              FinalPath(r) in After(sha, s, moves).fs && After(sha, s, moves).fs[FinalPath(r)] == s.fs[FinalPath(r)]
    decreases |moves|
  {
    hide Inv, Enabled, Step, ValidRunId;
    if moves == [] {
    } else {
      var p, a := moves[0].pid, moves[0].action;
      StepInv(sha, s, p, a);
      if ValidRunId(r) && FinalPath(r) in s.fs {
        PublishesOnce(sha, s, p, a, r);
        StepTouches(sha, s, p, a, FinalPath(r));
      }
      RecordsStay(sha, Step(sha, s, p, a), moves[1..], r);
    }
  }

  /** Whatever is found under a run id is a complete record of exactly one writer, who renamed it. */
  lemma PublishedIsComplete(sha: Blob -> int, s: State, r: string)
    requires Inv(sha, s) && ValidRunId(r) && FinalPath(r) in s.fs
    ensures s.fs[FinalPath(r)].Dir? && Complete(sha, s.fs[FinalPath(r)].files)
    ensures var owner := s.fs[FinalPath(r)].owner;
            && owner in s.procs && s.procs[owner].run == r && s.procs[owner].renamed
            && Carries(s.fs[FinalPath(r)].files, s.procs[owner].work)
    ensures forall p :: p in s.procs && s.procs[p].run == r && s.procs[p].renamed ==> p == s.fs[FinalPath(r)].owner
  {
    hide LockPath, StagingPath, Complete, ValidRunId, Suffix, Record, Carries;
    assert Accounted(sha, s, FinalPath(r));
    var q := s.procs[s.fs[FinalPath(r)].owner];
    NamesAreApart(r, q.run, q.suffix, q.suffix);
    assert OwnsStaging(sha, s, s.fs[FinalPath(r)].owner);
    PassingRecordIsComplete(sha, q.work);
    RecordCarries(sha, q.work);
    forall p | p in s.procs && s.procs[p].run == r && s.procs[p].renamed ensures p == s.fs[FinalPath(r)].owner {
      assert OwnsStaging(sha, s, p);
    }
  }

  /** A writer that ends without a crash leaves only its published record, exactly when no cleanup
      of its failed or was cut off by an interrupt; it reports success only for a record that is there. */
  lemma CleanExit(sha: Blob -> int, s: State, p: Pid)
    requires Inv(sha, s) && p in s.procs && s.procs[p].pc.Done?
    ensures (forall n :: n in s.fs && s.fs[n].owner == p ==> n == FinalPath(s.procs[p].run) && s.procs[p].renamed)
            <==> !s.procs[p].leaked
    ensures s.procs[p].pc.ok ==> FinalPath(s.procs[p].run) in s.fs && s.fs[FinalPath(s.procs[p].run)].owner == p
  {
    hide LockPath, StagingPath, Complete, ValidRunId, Suffix;
    var q := s.procs[p];
    assert OwnsStaging(sha, s, p) && Litter(s, p);
    if q.leaked {
      var n := if StagingLeft(s, p) then q.Staging() else LockPath(q.run);
      assert n in s.fs && Accounted(sha, s, n);
      NamesAreApart(q.run, q.run, q.suffix, q.suffix);
    } else {
      forall n | n in s.fs && s.fs[n].owner == p ensures n == FinalPath(q.run) && q.renamed {
        assert Accounted(sha, s, n);
      }
    }
  }

  /** Such an interrupt happens: right after `mkdtemp` it leaves an empty staging directory behind,
      with no cleanup failing and the writer ending in the ordinary way. */
  lemma InterruptLeavesStaging(sha: Blob -> int, s: State, p: Pid, x: string)
    requires Init(s) && p in s.procs && ValidRunId(s.procs[p].run) && Suffix(x)
    ensures var moves := [Move(p, CheckDestination), Move(p, Reserve(false)), Move(p, Recheck),
                          Move(p, MakeStaging(x, true)), Move(p, Release)];
            && Possible(sha, s, moves)
            && var end := After(sha, s, moves);
            p in end.procs && end.procs[p].pc == Done(false) &&
            end.fs == map[StagingPath(s.procs[p].run, x) := Dir(p, map[])]
  {
    hide ValidRunId, Suffix, LockPath, StagingPath, FinalPath;
    var r := s.procs[p].run;
    NamesAreApart(r, r, x, x);
    var s1 := Step(sha, s, p, CheckDestination);
    var s2 := Step(sha, s1, p, Reserve(false));
    assert s2.fs == map[LockPath(r) := Lock(p)];
    var s3 := Step(sha, s2, p, Recheck);
    assert s3.procs[p].pc == Cleared && s3.fs == s2.fs;
    var s4 := Step(sha, s3, p, MakeStaging(x, true));
    var s5 := Step(sha, s4, p, Release);
    assert s5.fs == map[StagingPath(r, x) := Dir(p, map[])];
    Then(sha, s4, [Move(p, Release)], []);
    Then(sha, s3, [Move(p, MakeStaging(x, true)), Move(p, Release)], [Move(p, Release)]);
    Then(sha, s2, [Move(p, Recheck), Move(p, MakeStaging(x, true)), Move(p, Release)],
         [Move(p, MakeStaging(x, true)), Move(p, Release)]);
    var rest := [Move(p, Reserve(false)), Move(p, Recheck), Move(p, MakeStaging(x, true)), Move(p, Release)];
    Then(sha, s1, rest, [Move(p, Recheck), Move(p, MakeStaging(x, true)), Move(p, Release)]);
    Then(sha, s, [Move(p, CheckDestination)] + rest, rest);
  }

  lemma Then(sha: Blob -> int, s: State, moves: seq<Move>, rest: seq<Move>)
    requires moves != [] && rest == moves[1..] && Enabled(s, moves[0].pid, moves[0].action)
    requires Possible(sha, Step(sha, s, moves[0].pid, moves[0].action), rest)
    ensures Possible(sha, s, moves)
    ensures After(sha, s, moves) == After(sha, Step(sha, s, moves[0].pid, moves[0].action), rest)
  {
    hide Enabled, Step;
  }

  // ----- what an undisturbed writer achieves -----

  lemma OneMove(sha: Blob -> int, s: State, p: Pid, a: Action)
    requires Enabled(s, p, a)
    ensures Possible(sha, s, [Move(p, a)]) && After(sha, s, [Move(p, a)]) == Step(sha, s, p, a)
  {
    hide Enabled, Step;
    Then(sha, s, [Move(p, a)], []);
  }

  lemma {:induction false} OneAfterTheOther(sha: Blob -> int, s: State, first: seq<Move>, second: seq<Move>)
    requires Possible(sha, s, first) && Possible(sha, After(sha, s, first), second)
    ensures Possible(sha, s, first + second)
    ensures After(sha, s, first + second) == After(sha, After(sha, s, first), second)
    decreases |first|
  {
    hide Enabled, Step;
    if first == [] {
      assert first + second == second;
    } else {
      var s' := Step(sha, s, first[0].pid, first[0].action);
      OneAfterTheOther(sha, s', first[1..], second);
      assert (first + second)[1..] == first[1..] + second;
    }
  }

  /** Nothing stands in the way of a writer that has not started. */
  ghost predicate Free(s: State, p: Pid, x: string)
  {
    && p in s.procs && s.procs[p].pc.Start? && ValidRunId(s.procs[p].run) && Suffix(x)
    && LockPath(s.procs[p].run) !in s.fs && FinalPath(s.procs[p].run) !in s.fs
    && StagingPath(s.procs[p].run, x) !in s.fs
  }

  /** The state with the writer's lock and staging directory, and the writer at `pc`. */
  ghost function Busy(s: State, p: Pid, x: string, pc: Pc, files: Files): State
    requires p in s.procs
  {
    var q := s.procs[p];
    State(s.fs[LockPath(q.run) := Lock(p)][StagingPath(q.run, x) := Dir(p, files)],
          s.procs[p := q.(pc := pc, suffix := x)])
  }

  function Entering(p: Pid, x: string): seq<Move>
  {
    [Move(p, CheckDestination)] + ([Move(p, Reserve(false))] + ([Move(p, Recheck)] + [Move(p, MakeStaging(x, false))]))
  }

  function Writes(p: Pid, n: nat): seq<Move> { seq(n, _ => Move(p, WriteNext)) }

  function Finishing(p: Pid, passes: bool): seq<Move>
  {
    [Move(p, Gate)] +
    if passes then [Move(p, WriteManifest)] + ([Move(p, Publish(false))] + [Move(p, Release)])
    else [Move(p, RemoveStaging)] + [Move(p, Release)]
  }

  /** All moves of a writer that nothing disturbs. */
  function Course(p: Pid, x: string, passes: bool): seq<Move>
  {
    Entering(p, x) + (Writes(p, 6) + Finishing(p, passes))
  }

  lemma Enters(sha: Blob -> int, s: State, p: Pid, x: string)
    requires Free(s, p, x)
    ensures Possible(sha, s, Entering(p, x))
    ensures After(sha, s, Entering(p, x)) == Busy(s, p, x, Writing(0), map[])
  {
    hide ValidRunId, Suffix, LockPath, StagingPath, FinalPath, Possible, After;
    var r := s.procs[p].run;
    NamesAreApart(r, r, x, x);
    var s1 := Step(sha, s, p, CheckDestination);
    OneMove(sha, s, p, CheckDestination);
    var s2 := Step(sha, s1, p, Reserve(false));
    OneMove(sha, s1, p, Reserve(false));
    var s3 := Step(sha, s2, p, Recheck);
    OneMove(sha, s2, p, Recheck);
    var s4 := Step(sha, s3, p, MakeStaging(x, false));
    OneMove(sha, s3, p, MakeStaging(x, false));
    assert s4.fs == Busy(s, p, x, Writing(0), map[]).fs;
    assert s4.procs == Busy(s, p, x, Writing(0), map[]).procs;
    OneAfterTheOther(sha, s2, [Move(p, Recheck)], [Move(p, MakeStaging(x, false))]);
    OneAfterTheOther(sha, s1, [Move(p, Reserve(false))], [Move(p, Recheck)] + [Move(p, MakeStaging(x, false))]);
    OneAfterTheOther(sha, s, [Move(p, CheckDestination)],
                     [Move(p, Reserve(false))] + ([Move(p, Recheck)] + [Move(p, MakeStaging(x, false))]));
  }

  lemma WritesOne(sha: Blob -> int, s: State, p: Pid, x: string, k: nat)
    requires p in s.procs && k < 6
    ensures var b := Busy(s, p, x, Writing(k), Written(s.procs[p].work, k));
            && Enabled(b, p, WriteNext)
            && Step(sha, b, p, WriteNext) == Busy(s, p, x, Writing(k + 1), Written(s.procs[p].work, k + 1))
  {
    hide Written, LockPath, StagingPath;
    var w := s.procs[p].work;
    var b, c := Busy(s, p, x, Writing(k), Written(w, k)), Busy(s, p, x, Writing(k + 1), Written(w, k + 1));
    assert Step(sha, b, p, WriteNext).fs == c.fs;
    assert Step(sha, b, p, WriteNext).procs == c.procs;
  }

  lemma {:induction false} WritesAll(sha: Blob -> int, s: State, p: Pid, x: string, k: nat)
    requires p in s.procs && k <= 6
    ensures var b := Busy(s, p, x, Writing(k), Written(s.procs[p].work, k));
            && Possible(sha, b, Writes(p, 6 - k))
            && After(sha, b, Writes(p, 6 - k)) == Busy(s, p, x, Writing(6), Written(s.procs[p].work, 6))
    decreases 6 - k
  {
    hide Busy, Written, Enabled, Step;
    if k == 6 {
    } else {
      WritesOne(sha, s, p, x, k);
      WritesAll(sha, s, p, x, k + 1);
      Then(sha, Busy(s, p, x, Writing(k), Written(s.procs[p].work, k)), Writes(p, 6 - k), Writes(p, 5 - k));
    }
  }

  lemma Completes(sha: Blob -> int, s: State, p: Pid, x: string)
    requires Free(s, p, x) && s.procs[p].work.passes
    ensures var w := s.procs[p].work;
            var b, moves := Busy(s, p, x, Writing(6), Written(w, 6)), [Move(p, Gate)] + [Move(p, WriteManifest)];
            Possible(sha, b, moves) && After(sha, b, moves) == Busy(s, p, x, Renaming, Record(sha, w))
  {
    hide ValidRunId, Suffix, LockPath, StagingPath, FinalPath, Possible, After, Written, WithManifest;
    var q := s.procs[p];
    NamesAreApart(q.run, q.run, x, x);
    var b := Busy(s, p, x, Writing(6), Written(q.work, 6));
    var b1 := Step(sha, b, p, Gate);
    OneMove(sha, b, p, Gate);
    var b2 := Step(sha, b1, p, WriteManifest);
    OneMove(sha, b1, p, WriteManifest);
    assert b2.fs == Busy(s, p, x, Renaming, Record(sha, q.work)).fs;
    assert b2.procs == Busy(s, p, x, Renaming, Record(sha, q.work)).procs;
    OneAfterTheOther(sha, b, [Move(p, Gate)], [Move(p, WriteManifest)]);
  }

  lemma Renames(sha: Blob -> int, s: State, p: Pid, x: string, files: Files)
    requires Free(s, p, x)
    ensures var q, b := s.procs[p], Busy(s, p, x, Renaming, files);
            var moves := [Move(p, Publish(false))] + [Move(p, Release)];
            && Possible(sha, b, moves)
            && After(sha, b, moves) == State(s.fs[FinalPath(q.run) := Dir(p, files)],
                                             s.procs[p := q.(pc := Done(true), suffix := x, renamed := true)])
  {
    hide ValidRunId, Suffix, LockPath, StagingPath, FinalPath, Possible, After;
    var q := s.procs[p];
    NamesAreApart(q.run, q.run, x, x);
    var b := Busy(s, p, x, Renaming, files);
    var b1 := Step(sha, b, p, Publish(false));
    OneMove(sha, b, p, Publish(false));
    var b2 := Step(sha, b1, p, Release);
    OneMove(sha, b1, p, Release);
    assert b2.fs == s.fs[FinalPath(q.run) := Dir(p, files)];
    assert b2.procs == s.procs[p := q.(pc := Done(true), suffix := x, renamed := true)];
    OneAfterTheOther(sha, b, [Move(p, Publish(false))], [Move(p, Release)]);
  }

  lemma Publishes(sha: Blob -> int, s: State, p: Pid, x: string)
    requires Free(s, p, x) && s.procs[p].work.passes
    ensures var q, b := s.procs[p], Busy(s, p, x, Writing(6), Written(s.procs[p].work, 6));
            && Possible(sha, b, Finishing(p, true))
            && After(sha, b, Finishing(p, true)) ==
               State(s.fs[FinalPath(q.run) := Dir(p, Record(sha, q.work))],
                     s.procs[p := q.(pc := Done(true), suffix := x, renamed := true)])
  {
    var q := s.procs[p];
    hide Possible, After, Written, Record, Busy, Free;
    Completes(sha, s, p, x);
    Renames(sha, s, p, x, Record(sha, q.work));
    var first, second := [Move(p, Gate)] + [Move(p, WriteManifest)], [Move(p, Publish(false))] + [Move(p, Release)];
    OneAfterTheOther(sha, Busy(s, p, x, Writing(6), Written(q.work, 6)), first, second);
    assert first + second == Finishing(p, true);
  }

  lemma GivesUp(sha: Blob -> int, s: State, p: Pid, x: string)
    requires Free(s, p, x) && !s.procs[p].work.passes
    ensures var q, b := s.procs[p], Busy(s, p, x, Writing(6), Written(s.procs[p].work, 6));
            && Possible(sha, b, Finishing(p, false))
            && After(sha, b, Finishing(p, false)) == State(s.fs, s.procs[p := q.(pc := Done(false), suffix := x)])
  {
    hide ValidRunId, Suffix, LockPath, StagingPath, FinalPath, Possible, After, Written, WithManifest;
    var q := s.procs[p];
    NamesAreApart(q.run, q.run, x, x);
    var b := Busy(s, p, x, Writing(6), Written(q.work, 6));
    var b1 := Step(sha, b, p, Gate);
    OneMove(sha, b, p, Gate);
    var b2 := Step(sha, b1, p, RemoveStaging);
    OneMove(sha, b1, p, RemoveStaging);
    var b3 := Step(sha, b2, p, Release);
    OneMove(sha, b2, p, Release);
    assert b3.fs == s.fs;
    assert b3.procs == s.procs[p := q.(pc := Done(false), suffix := x)];
    OneAfterTheOther(sha, b1, [Move(p, RemoveStaging)], [Move(p, Release)]);
    OneAfterTheOther(sha, b, [Move(p, Gate)], [Move(p, RemoveStaging)] + [Move(p, Release)]);
  }

  /** From every state in which its run id is free, an undisturbed writer comes to its end. It reports
      success and leaves exactly its record under the run id if its checks pass; otherwise it reports
      failure and leaves the runs directory as it was. */
  lemma UndisturbedWriter(sha: Blob -> int, s: State, p: Pid, x: string)
    requires Free(s, p, x)
    ensures var q := s.procs[p];
            var moves := Course(p, x, q.work.passes);
            && Possible(sha, s, moves)
            && var end := After(sha, s, moves);
            && p in end.procs && end.procs[p].pc == Done(q.work.passes)
            && end.fs == if q.work.passes then s.fs[FinalPath(q.run) := Dir(p, Record(sha, q.work))] else s.fs
  {
    var q := s.procs[p];
    hide Possible, After, Written, Free, Busy, Record, Writes, Entering, Finishing;
    var b0, b6 := Busy(s, p, x, Writing(0), map[]), Busy(s, p, x, Writing(6), Written(q.work, 6));
    Enters(sha, s, p, x);
    NothingWritten(q.work);
    WritesAll(sha, s, p, x, 0);
    if q.work.passes {
      Publishes(sha, s, p, x);
    } else {
      GivesUp(sha, s, p, x);
    }
    OneAfterTheOther(sha, b0, Writes(p, 6), Finishing(p, q.work.passes));
    OneAfterTheOther(sha, s, Entering(p, x), Writes(p, 6) + Finishing(p, q.work.passes));
  }

  /** What a writer does next unless something fails. */
  function Next(q: Proc, x: string): Action
    requires !q.pc.Done? && !q.pc.Crashed?
  {
    match q.pc
    case Start => CheckDestination
    case Checked => Reserve(false)
    case Locked => Recheck
    case Cleared => MakeStaging(x, false)
    case Writing(k) => if k < 6 then WriteNext else Gate
    case Passed => WriteManifest
    case Renaming => Publish(false)
    case Cleaning => RemoveStaging
    case Releasing(_) => Release
  }

  /** In every reachable state every writer that has not ended can go on, and can also fail: with an
      exception at any point, in a cleanup, or by a crash. */
  lemma NeverStuck(sha: Blob -> int, s: State, p: Pid, x: string, garbage: Files)
    requires Inv(sha, s) && p in s.procs && !s.procs[p].pc.Done? && !s.procs[p].pc.Crashed?
    requires ValidRunId(s.procs[p].run) && Suffix(x) && StagingPath(s.procs[p].run, x) !in s.fs
    ensures Enabled(s, p, Next(s.procs[p], x)) && Enabled(s, p, Crash)
    ensures var pc := s.procs[p].pc;
            && (pc.Start? || pc.Checked? ==> Enabled(s, p, Reject))
            && (pc.Locked? || pc.Cleared? ==> Enabled(s, p, FailReserved))
            && (pc.Checked? ==> Enabled(s, p, Reserve(true)))
            && (pc.Cleared? ==> Enabled(s, p, MakeStaging(x, true)))
            && (s.procs[p].Staged() ==> Enabled(s, p, FailStaged(garbage)))
            && (pc.Renaming? ==> Enabled(s, p, Publish(true)))
            && (pc.Cleaning? ==> Enabled(s, p, RemoveStagingFails(garbage)))
            && (pc.Releasing? ==> Enabled(s, p, ReleaseFails))
  {
    hide Accounted, Written, WithManifest, Record, ValidRunId, Suffix, Litter;
    assert OwnsStaging(sha, s, p);
  }

  /** A run id that is published or reserved is refused and nothing changes. */
  lemma TakenRunId(sha: Blob -> int, s: State, p: Pid)
    requires p in s.procs && s.procs[p].pc.Start? && ValidRunId(s.procs[p].run)
    requires FinalPath(s.procs[p].run) in s.fs || LockPath(s.procs[p].run) in s.fs
    ensures var moves := [Move(p, CheckDestination)] +
                         if FinalPath(s.procs[p].run) in s.fs then [] else [Move(p, Reserve(false))];
            && Possible(sha, s, moves)
            && After(sha, s, moves) == State(s.fs, s.procs[p := s.procs[p].(pc := Done(false))])
  {
    hide ValidRunId, LockPath, FinalPath, Possible, After;
    OneMove(sha, s, p, CheckDestination);
    var s1 := Step(sha, s, p, CheckDestination);
    if FinalPath(s.procs[p].run) in s.fs {
      assert [Move(p, CheckDestination)] + [] == [Move(p, CheckDestination)];
    } else {
      OneMove(sha, s1, p, Reserve(false));
      var s2 := Step(sha, s1, p, Reserve(false));
      assert s2.procs == s.procs[p := s.procs[p].(pc := Done(false))];
      OneAfterTheOther(sha, s, [Move(p, CheckDestination)], [Move(p, Reserve(false))]);
    }
  }

  predicate Holds(s: State, p: Pid, r: string) { p in s.procs && s.procs[p].run == r && s.procs[p].Holding() }

  predicate Published(s: State, p: Pid, r: string) { p in s.procs && s.procs[p].run == r && s.procs[p].renamed }

  /** All of it from the empty runs directory: in every interleaving of any number of writers, one
      writer at a time holds a run id, one writer ever publishes it, and what is published is
      complete and stays as it is. */
  lemma PublicationIsSafe(sha: Blob -> int, s: State, moves: seq<Move>, more: seq<Move>, r: string)
    requires Init(s) && ValidRunId(r) && Possible(sha, s, moves) && Possible(sha, After(sha, s, moves), more)
    ensures var now, later := After(sha, s, moves), After(sha, After(sha, s, moves), more);
            && (forall p, p' :: Holds(now, p, r) && Holds(now, p', r) ==> p == p')
            && (FinalPath(r) in now.fs ==>
                  && now.fs[FinalPath(r)].Dir? && Complete(sha, now.fs[FinalPath(r)].files)
                  && now.fs[FinalPath(r)].owner in now.procs
                  && Carries(now.fs[FinalPath(r)].files, now.procs[now.fs[FinalPath(r)].owner].work)
                  && FinalPath(r) in later.fs && later.fs[FinalPath(r)] == now.fs[FinalPath(r)])
            && (forall p, p' :: Published(now, p, r) && Published(now, p', r) ==> p == p')
  {
    hide Complete, ValidRunId, After, Possible, Record, Carries;
    InitInv(sha, s);
    RecordsStay(sha, s, moves, r);
    var now := After(sha, s, moves);
    RecordsStay(sha, now, more, r);
    forall p, p' | Holds(now, p, r) && Holds(now, p', r) ensures p == p' {
      OneHolder(sha, now, p, p');
    }
    if FinalPath(r) in now.fs {
      PublishedIsComplete(sha, now, r);
    }
    forall p | Published(now, p, r) ensures FinalPath(r) in now.fs {
      assert OwnsStaging(sha, now, p);
    }
  }
}
