/** `save`: index the project, record a snapshot on the current branch when
    anything changed, measure the repository, remount the snapshots, sync to
    the replicas and append a record to the save log. */
module Saving {
  import opened Wrappers
  import opened Text
  import opened Shell
  import opened Storage
  import opened Lifecycle
  import opened History
  import opened Replication

  /** The `IndexError` of taking the first word of empty `du` output. */
  const INDEX_ERROR := "list index out of range"
  /** The start of the `ValueError` `int()` raises on a non-number. */
  const VALUE_ERROR := "invalid literal for int() with base 10: "

  /** `int(x)` on a float: truncation toward zero. */
  function Trunc(x: real): (n: int)
    ensures 0.0 <= x ==> n as real <= x < n as real + 1.0
    ensures x < 0.0 ==> n as real - 1.0 < x <= n as real
  {
    if x >= 0.0 then x.Floor else -((-x).Floor)
  }

  // ------------------------------------------------------------ mounting

  /** Why mounting the snapshots failed: the `bup fuse` command failed (a
      `RuntimeError` whose only argument is the command's output), or
      creating the mount directory failed (an `OSError` with an error number
      and message). */
  datatype MountError = CommandFailed(output: string) | OsError(errno: int, strerror: string)

  /** The text of the exception: `str(err)` for the command, the message for
      the file-system error. */
  function Message(e: MountError): string {
    match e
    case CommandFailed(o) => o
    case OsError(_, m) => m
  }

  /** `'Disk quota exceeded' in msg` as Python 2 evaluates it on an exception
      object: membership among the exception's arguments, compared whole. */
  predicate QuotaNonfatalAsWritten(e: MountError) {
    match e
    case CommandFailed(o) => o == QUOTA_MSG
    case OsError(_, m) => m == QUOTA_MSG
  }

  /** The evident intent: the message mentions the quota. */
  predicate QuotaNonfatal(e: MountError) {
    Contains(Message(e), QUOTA_MSG)
  }

  /** A `bup fuse` failure that reports the quota among other text is fatal
      as written, though the handler exists to make it nonfatal. */
  lemma QuotaCheckMissesCommandOutput()
    ensures var e := CommandFailed("fuse: " + QUOTA_MSG);
            !QuotaNonfatalAsWritten(e) && QuotaNonfatal(e)
  {
    ContainsInfix("fuse: ", QUOTA_MSG, "");
    assert "fuse: " + QUOTA_MSG + "" == "fuse: " + QUOTA_MSG;
  }

  /** The corrected test accepts everything the written one accepts. */
  lemma QuotaNonfatalExtends(e: MountError)
    requires QuotaNonfatalAsWritten(e)
    ensures QuotaNonfatal(e)
  {
    ContainsInfix("", QUOTA_MSG, "");
    assert "" + QUOTA_MSG + "" == QUOTA_MSG;
  }

  /** `mount_snapshots()`: unmount, then mount again; a quota failure is
      logged and swallowed, any other failure raises. */
  function MountSnapshotsRun(mount: Option<MountError>): (r: Phase)
    ensures r.trace == [UnmountSnapshots, MountSnapshots]
    ensures r.error.Some? <==> mount.Some? && !QuotaNonfatal(mount.value)
    ensures r.error.Some? ==> r.error.value == Message(mount.value)
  {
    var t := [UnmountSnapshots, MountSnapshots];
    if mount.Some? && !QuotaNonfatal(mount.value) then Phase(t, Some(Message(mount.value)))
    else Phase(t, None)
  }

  // ------------------------------------------------------ what changed

  /** `max(0, len(what_changed) - 1)`: the listing always includes the
      directory itself. */
  function FilesSaved(changed: seq<string>): (n: nat)
    ensures n == 0 <==> |changed| <= 1
    ensures n > 0 ==> n + 1 == |changed|
  {
    if |changed| == 0 then 0 else |changed| - 1
  }

  /** `[x[n:] for x in what_changed if len(x) > n]`. */
  function RelativeFiles(lines: seq<string>, n: nat): (fs: seq<string>)
    ensures |fs| <= |lines|
    ensures forall k :: 0 <= k < |fs| ==> |fs[k]| > 0
  {
    if |lines| == 0 then []
    else
      var rest := RelativeFiles(lines[1..], n);
      if |lines[0]| > n then [lines[0][n..]] + rest else rest
  }

  /** The file list of a listing read in two parts is the two parts' lists,
      one after the other. */
  lemma {:induction false} RelativeFilesAppend(a: seq<string>, b: seq<string>, n: nat)
    ensures RelativeFiles(a + b, n) == RelativeFiles(a, n) + RelativeFiles(b, n)
  {
    if |a| > 0 {
      assert (a + b)[0] == a[0] && (a + b)[1..] == a[1..] + b;
      RelativeFilesAppend(a[1..], b, n);
    } else {
      assert a + b == b;
    }
  }

  /** Every logged file is a listed line longer than `n`, with its first `n`
      characters dropped. */
  lemma {:induction false} RelativeFilesFromListing(lines: seq<string>, n: nat, k: nat)
    requires k < |RelativeFiles(lines, n)|
    ensures exists j :: 0 <= j < |lines| && |lines[j]| > n && RelativeFiles(lines, n)[k] == lines[j][n..]
  {
    var rest := RelativeFiles(lines[1..], n);
    if |lines[0]| > n && k == 0 {
      assert RelativeFiles(lines, n)[0] == lines[0][n..];
    } else {
      var k' := if |lines[0]| > n then k - 1 else k;
      assert RelativeFiles(lines, n)[k] == rest[k'];
      RelativeFilesFromListing(lines[1..], n, k');
      var j :| 0 <= j < |lines[1..]| && |lines[1..][j]| > n && rest[k'] == lines[1..][j][n..];
      assert lines[1..][j] == lines[j + 1];
    }
  }

  /** The paths `bup index -m` prints for files under `root`. */
  function UnderRoot(root: string, fs: seq<string>): (ls: seq<string>)
    ensures |ls| == |fs|
  {
    if |fs| == 0 then [] else [root + "/" + fs[0]] + UnderRoot(root, fs[1..])
  }

  /** The save log records the changed files relative to the project
      directory: the directory's own line drops out and every other path
      loses exactly the directory prefix. */
  lemma {:induction false} RelativeFilesOfListing(root: string, fs: seq<string>)
    requires forall k :: 0 <= k < |fs| ==> |fs[k]| > 0
    ensures RelativeFiles([root + "/"] + UnderRoot(root, fs), |root| + 1) == fs
  {
    RelativeFilesUnderRoot(root, fs);
    assert ([root + "/"] + UnderRoot(root, fs))[1..] == UnderRoot(root, fs);
  }

  lemma {:induction false} RelativeFilesUnderRoot(root: string, fs: seq<string>)
    requires forall k :: 0 <= k < |fs| ==> |fs[k]| > 0
    ensures RelativeFiles(UnderRoot(root, fs), |root| + 1) == fs
  {
    if |fs| > 0 {
      var x := root + "/" + fs[0];
      assert x[|root| + 1..] == fs[0];
      RelativeFilesUnderRoot(root, fs[1..]);
      assert UnderRoot(root, fs)[1..] == UnderRoot(root, fs[1..]);
      assert [fs[0]] + fs[1..] == fs;
    }
  }

  // ------------------------------------------------------ repository size

  /** `int(du_output.split()[0].split('k')[0])`: the first word up to its
      first `k`, as a whole number; `du` failing, printing nothing, or
      printing something else raises. */
  function RepoSize(du: CmdResult): (r: Result<int, string>)
    ensures du.Failed? ==> r == Failure(du.output)
    ensures du.Ok? && Words(du.output) == [] ==> r == Failure(INDEX_ERROR)
    ensures r.Success? ==> du.Ok? && |Words(du.output)| > 0
                           && ParseInt(SplitOn(Words(du.output)[0], 'k')[0]) == Some(r.value)
    ensures du.Ok? && |Words(du.output)| > 0 && ParseInt(SplitOn(Words(du.output)[0], 'k')[0]).None? ==>
              r == Failure(VALUE_ERROR + "'" + SplitOn(Words(du.output)[0], 'k')[0] + "'")
  {
    match Checked(du)
    case Failure(e) => Failure(e)
    case Success(out) =>
      WordsStrip(du.output);
      var ws := Words(out);
      if |ws| == 0 then Failure(INDEX_ERROR)
      else
        var num := SplitOn(ws[0], 'k')[0];
        match ParseInt(num)
        case None => Failure(VALUE_ERROR + "'" + num + "'")
        case Some(n) => Success(n)
  }

  /** The report line's first word is the size with its unit. */
  lemma ReportWords(n: nat, path: string)
    ensures Words(ShowNat(n) + "kB\t" + path) == [ShowNat(n) + "kB"] + Words(path)
  {
    var w := ShowNat(n) + "kB";
    assert IsWord(w);
    assert ShowNat(n) + "kB\t" + path == w + ['\t'] + path;
    WordsAfterWord(w, '\t', path);
  }

  /** Cutting the size word at its first `k` leaves the digits. */
  lemma SizeBeforeUnit(n: nat)
    ensures SplitOn(ShowNat(n) + "kB", 'k')[0] == ShowNat(n)
  {
    assert 'k' !in ShowNat(n);
    assert ShowNat(n) + "kB" == ShowNat(n) + ['k'] + "B";
    SplitOnAfterPiece(ShowNat(n), 'k', "B");
  }

  /** `du -s --block-size=KB` prints the size, the unit and the path; the
      size reads back. */
  lemma RepoSizeOfReport(n: nat, path: string)
    ensures RepoSize(Ok(ShowNat(n) + "kB\t" + path)) == Success(n)
  {
    var out := ShowNat(n) + "kB\t" + path;
    ReportWords(n, path);
    WordsStrip(out);
    assert Checked(Ok(out)) == Success(Strip(out));
    assert Words(Strip(out))[0] == ShowNat(n) + "kB";
    SizeBeforeUnit(n);
    ParseShowNat(n);
  }

  // ----------------------------------------------------------------- save

  /** What `save` learns from the world: the clock when it touches the
      project, the listing of changed paths, the clock when saving starts,
      the `bup save` result, the branch's reflog file as `bup save` leaves it,
      the clock when it ends, the `du` output, whether
      remounting the snapshots failed, and each replica's answers. */
  datatype SaveEnv = SaveEnv(
    touchClock: real,
    changed: CmdResult,
    started: real,
    bupSave: CmdResult,
    savedReflog: string,
    finished: real,
    du: CmdResult,
    mount: Option<MountError>,
    replicas: nat -> TargetEnv)

  /** The dictionary `save` returns: the number of files saved and, when
      that is positive, the details of the snapshot. */
  datatype SaveResult = SaveResult(filesSaved: nat, detail: Option<SaveDetail>)

  /** The directory saved: the given path or the project directory. */
  function SaveDir(p: Project, path: Option<string>): string {
    if path.Some? then path.value else ProjectMnt(p.id)
  }

  /** The snapshot time stamp: the one given, else the clock when saving
      starts, truncated to whole seconds. */
  function SaveTimestamp(timestamp: Option<int>, env: SaveEnv): int {
    if timestamp.Some? then timestamp.value else Trunc(env.started)
  }

  /** The project once `bup save` recorded a snapshot on its branch: the
      branch has a head, and its reflog file is as the save left it. */
  function Committed(p: Project, env: SaveEnv): (q: Project)
    ensures OnlyAdds(p, q)
    ensures p.branch in q.repo.heads && p.branch in q.repo.reflog && q.repo.reflog[p.branch] == env.savedReflog
  {
    p.(repo := p.repo.(heads := p.repo.heads + {p.branch}, reflog := p.repo.reflog[p.branch := env.savedReflog]))
  }

  /** The save-log record of a save. */
  function Record(p: Project, changed: seq<string>, detail: SaveDetail): SaveRecord {
    SaveRecord(FilesSaved(changed), detail, RelativeFiles(changed, |ProjectMnt(p.id)| + 1))
  }

  /** The end of a save that got this far: the sync when asked for, then the
      save-log record appended to whatever log is there (a sync may have
      pulled one in when the project had none). */
  function Recorded(c: Project, p: Project, changed: seq<string>, ts: int, kb: int,
                    sync: bool, targets: string, env: SaveEnv): (r: Run<SaveResult>)
    ensures OnlyAdds(c, r.st.(repo := r.st.repo.(saveLog := c.repo.saveLog)))
    ensures r.res.Success? && r.res.value.filesSaved == FilesSaved(changed) && r.res.value.detail.Some?
    ensures var d := r.res.value.detail.value;
            && d.timestamp == ts
            && |r.st.repo.saveLog| > 0
            && r.st.repo.saveLog[|r.st.repo.saveLog| - 1] == Record(p, changed, d)
            && (c.repo.saveLog != [] || !sync ==> r.st.repo.saveLog == c.repo.saveLog + [Record(p, changed, d)])
            && (d.sync.Some? <==> sync)
            && (sync ==> |d.sync.value| == |SplitOn(targets, ',')|)
  {
    var s := if sync then Sync(c, targets, false, true, env.replicas) else Run(c, [], Success([]));
    var detail := SaveDetail(ts, Trunc(env.finished), kb, if sync then Some(s.res.value) else None);
    Run(s.st.(repo := s.st.repo.(saveLog := s.st.repo.saveLog + [Record(p, changed, detail)])), s.trace,
        Success(SaveResult(FilesSaved(changed), Some(detail))))
  }

  /** What follows a successful `bup save`: the size measurement, the
      remount when the project directory itself was saved, then the sync and
      the record. A failure here leaves the committed snapshot in place and
      the save log untouched. */
  function AfterCommit(c: Project, p: Project, dir: string, changed: seq<string>, ts: int,
                       sync: bool, mnt: bool, targets: string, env: SaveEnv): (r: Run<SaveResult>)
    ensures OnlyAdds(c, r.st.(repo := r.st.repo.(saveLog := c.repo.saveLog)))
    ensures r.res.Failure? ==> r.st == c
    ensures r.res.Success? ==>
              && r.res.value.filesSaved == FilesSaved(changed)
              && r.res.value.detail.Some?
              && r.res.value.detail.value.timestamp == ts
              && |r.st.repo.saveLog| > 0
              && r.st.repo.saveLog[|r.st.repo.saveLog| - 1] == Record(p, changed, r.res.value.detail.value)
              && (c.repo.saveLog != [] || !sync ==> r.st.repo.saveLog == c.repo.saveLog + [Record(p, changed, r.res.value.detail.value)])
              && (r.res.value.detail.value.sync.Some? <==> sync)
              && (sync ==> |r.res.value.detail.value.sync.value| == |SplitOn(targets, ',')|)
  {
    var t := [DiskUsage];
    match RepoSize(env.du)
    case Failure(e) => Run(c, t, Failure(e))
    case Success(kb) =>
      var m := if mnt && dir == ProjectMnt(p.id) then MountSnapshotsRun(env.mount) else Phase([], None);
      if m.error.Some? then Run(c, t + m.trace, Failure(m.error.value))
      else
        var s := Recorded(c, p, changed, ts, kb, sync, targets, env);
        Run(s.st, t + m.trace + s.trace, s.res)
  }

  /** The part of `save` that runs once something changed: `bup save` on
      the branch, then the rest. A failure after `bup save` leaves the
      snapshot in place. The sync may pull in a save log when the project
      had none; the record is appended to whatever log is there. */
  function SaveChanged(p: Project, dir: string, changed: seq<string>, timestamp: Option<int>,
                       sync: bool, mnt: bool, targets: string, env: SaveEnv): (r: Run<SaveResult>)
    requires FilesSaved(changed) > 0
    ensures OnlyAdds(p, r.st.(repo := r.st.repo.(saveLog := p.repo.saveLog)))
    ensures env.bupSave.Failed? ==> r.res.Failure? && r.st == p
    ensures env.bupSave.Ok? ==> p.branch in r.st.repo.heads
    ensures r.res.Failure? ==> r.st == p || r.st == Committed(p, env)
    ensures r.res.Success? ==>
              && r.res.value.filesSaved == FilesSaved(changed)
              && r.res.value.detail.Some?
              && |r.st.repo.saveLog| > 0
              && r.st.repo.saveLog[|r.st.repo.saveLog| - 1] == Record(p, changed, r.res.value.detail.value)
              && (p.repo.saveLog != [] || !sync ==> r.st.repo.saveLog == p.repo.saveLog + [Record(p, changed, r.res.value.detail.value)])
    ensures r.res.Failure? ==> r.st.repo.saveLog == p.repo.saveLog
    ensures r.res.Success? ==> r.res.value.detail.value.timestamp == SaveTimestamp(timestamp, env)
    ensures |r.trace| >= 1 && r.trace[0] == BupSave(p.branch, SaveTimestamp(timestamp, env))
    ensures r.res.Success? ==> (r.res.value.detail.value.sync.Some? <==> sync)
    ensures r.res.Success? && sync ==> |r.res.value.detail.value.sync.value| == |SplitOn(targets, ',')|
  {
    var ts := SaveTimestamp(timestamp, env);
    var t := [BupSave(p.branch, ts)];
    if env.bupSave.Failed? then Run(p, t, Failure(env.bupSave.output))
    else
      var c := Committed(p, env);
      var a := AfterCommit(c, p, dir, changed, ts, sync, mnt, targets, env);
      OnlyAddsTrans(p, c, a.st.(repo := a.st.repo.(saveLog := p.repo.saveLog)));
      Run(a.st, t + a.trace, a.res)
  }

  /** `save(path, timestamp, branch, sync, mnt, targets)`; an absent branch
      is the empty string. */
  function Save(p: Project, path: Option<string>, timestamp: Option<int>, branch: string,
                sync: bool, mnt: bool, targets: string, env: SaveEnv): (r: Run<SaveResult>)
    ensures r.st.repo.touched == Some(env.touchClock)
    ensures r.st.branch == (if branch == "" then p.branch else branch)
    ensures |r.trace| >= 2 && r.trace[..2] == [Index(SaveDir(p, path), Exclude(SaveDir(p, path) + "/")), ListChanged(SaveDir(p, path))]
    ensures r.res.Success? ==> (r.res.value.detail.Some? <==> r.res.value.filesSaved > 0)
    ensures r.res.Success? ==> Checked(env.changed).Success?
                               && r.res.value.filesSaved == FilesSaved(Lines(Checked(env.changed).value))
    ensures r.res.Success? && r.res.value.filesSaved > 0 ==>
              && r.st.branch in r.st.repo.heads
              && |r.st.repo.saveLog| > 0
              && r.st.repo.saveLog[|r.st.repo.saveLog| - 1]
                 == SaveRecord(r.res.value.filesSaved, r.res.value.detail.value,
                               RelativeFiles(Lines(Checked(env.changed).value), |ProjectMnt(p.id)| + 1))
              && (p.repo.saveLog != [] || !sync ==>
                    r.st.repo.saveLog == p.repo.saveLog + [r.st.repo.saveLog[|r.st.repo.saveLog| - 1]])
              && (r.res.value.detail.value.sync.Some? <==> sync)
              && r.res.value.detail.value.timestamp == SaveTimestamp(timestamp, env)
    ensures !(r.res.Success? && r.res.value.filesSaved > 0) ==> r.st.repo.saveLog == p.repo.saveLog
  {
    var q := SetBranch(Touch(p, env.touchClock), branch);
    var dir := SaveDir(p, path);
    var t0 := [Index(dir, Exclude(dir + "/")), ListChanged(dir)];
    match Checked(env.changed)
    case Failure(e) => Run(q, t0, Failure(e))
    case Success(out) =>
      var changed := Lines(out);
      if FilesSaved(changed) == 0 then Run(q, t0, Success(SaveResult(0, None)))
      else
        var c := SaveChanged(q, dir, changed, timestamp, sync, mnt, targets, env);
        assert (t0 + c.trace)[..2] == t0;
        Run(c.st, t0 + c.trace, c.res)
  }

  /** Nothing changed beyond the directory itself: no snapshot, no sync, no
      save-log record; `save` answers `{files_saved: 0}`. */
  lemma NothingChangedNothingSaved(p: Project, path: Option<string>, timestamp: Option<int>, branch: string,
                                   sync: bool, mnt: bool, targets: string, env: SaveEnv)
    requires env.changed.Ok? && |Lines(Strip(env.changed.output))| <= 1
    ensures var r := Save(p, path, timestamp, branch, sync, mnt, targets, env);
            && r.res == Success(SaveResult(0, None))
            && |r.trace| == 2
            && r.st.repo.saveLog == p.repo.saveLog
  {
  }

  /** The snapshot is stamped with the given time, or else with the clock
      when saving started, truncated. */
  lemma SaveStamp(p: Project, path: Option<string>, timestamp: Option<int>, branch: string,
                  sync: bool, mnt: bool, targets: string, env: SaveEnv)
    requires Save(p, path, timestamp, branch, sync, mnt, targets, env).res.Success?
    requires Save(p, path, timestamp, branch, sync, mnt, targets, env).res.value.filesSaved > 0
    ensures var d := Save(p, path, timestamp, branch, sync, mnt, targets, env).res.value.detail.value;
            && (timestamp.Some? ==> d.timestamp == timestamp.value)
            && (timestamp.None? && 0.0 <= env.started ==> d.timestamp as real <= env.started < d.timestamp as real + 1.0)
  {
    var d := Save(p, path, timestamp, branch, sync, mnt, targets, env).res.value.detail.value;
    assert d.timestamp == SaveTimestamp(timestamp, env);
  }

  /** A save that recorded files leaves a head for the current branch, so
      listing its snapshots asks bup and returns what bup lists. */
  lemma SnapshotsAfterSave(p: Project, path: Option<string>, timestamp: Option<int>, branch: string,
                           sync: bool, mnt: bool, targets: string, env: SaveEnv, names: seq<string>)
    requires Save(p, path, timestamp, branch, sync, mnt, targets, env).res.Success?
    requires Save(p, path, timestamp, branch, sync, mnt, targets, env).res.value.filesSaved > 0
    requires forall i :: 0 <= i < |names| ==> IsWord(names[i])
    ensures Snapshots(Save(p, path, timestamp, branch, sync, mnt, targets, env).st, "", Ok(Unwords(names + [LATEST])))
            == Success(names)
  {
    SnapshotsOfListing(Save(p, path, timestamp, branch, sync, mnt, targets, env).st, "", names);
  }

  /** Saving the project directory never indexes its own snapshot mount. */
  lemma SaveSkipsSnapshotMount(p: Project, timestamp: Option<int>, branch: string,
                               sync: bool, mnt: bool, targets: string, env: SaveEnv)
    ensures var r := Save(p, None, timestamp, branch, sync, mnt, targets, env);
            r.trace[0].Index? && EXCLUDE_FLAG + SnapMnt(p.id) in r.trace[0].excludes
  {
    ExcludeCoversSnapshotMount(p.id);
  }
}
