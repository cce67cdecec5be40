/** The per-project storage controller's state (the `Project` object and the
    files it keeps under the repository and live directories), the external
    effects its operations issue, the current-branch reference (`HEAD`), `init`
    and the fixed exclusion list. */
module Storage {
  import opened Wrappers
  import opened Text
  import opened Shell
  import opened Identity
  import opened Settings

  const BUP_PATH := "/bup/bups"
  const PROJECTS_PATH := "/bup/projects"
  const DEFAULT_BRANCH := "master"
  /** What `set_branch` writes into `HEAD` before the branch name. */
  const HEAD_PREFIX := "ref: refs/heads/"

  /** The project's bup repository, `bup_path`. */
  function BupPath(id: string): string {
    BUP_PATH + "/" + id
  }

  /** The live working copy, `project_mnt`. */
  function ProjectMnt(id: string): string {
    PROJECTS_PATH + "/" + id
  }

  /** Where the read-only snapshot view is mounted, `snap_mnt`. */
  function SnapMnt(id: string): string {
    ProjectMnt(id) + "/.snapshots"
  }

  // ------------------------------------------------------------- state

  /** What a tag file names: a commit id written directly (conflict tags), or
      the head of a branch at the time `bup tag` ran. */
  datatype TagTarget = Commit(id: string) | BranchHead(branch: string)

  /** One element of the list `sync` returns: the host, the text of the
      exception its replication raised, and the seconds it took. */
  datatype SyncStatus = SyncStatus(host: string, error: Option<string>, elapsed: Option<real>)

  /** The fields of a non-empty `save` result beyond `files_saved`. */
  datatype SaveDetail = SaveDetail(timestamp: int, timestampEnd: int, repoSizeKb: int, sync: Option<seq<SyncStatus>>)

  /** One line of `conf/save_log.json`. */
  datatype SaveRecord = SaveRecord(filesSaved: nat, detail: SaveDetail, files: seq<string>)

  /** The files of one project on this machine, as far as the script reads or
      writes them itself. */
  datatype Repo = Repo(
    head: Option<string>,          // HEAD, when present
    initialized: bool,             // objects/ exists, so `bup init` has run
    live: bool,                    // the live directory exists
    settings: Stored,              // conf/settings.json
    touched: Option<real>,         // modification time of conf/touch
    heads: set<string>,            // branches with a refs/heads/<branch> file
    reflog: map<string, string>,   // logs/refs/heads/<branch>
    tags: map<string, TagTarget>,  // refs/tags/<name>
    saveLog: seq<SaveRecord>)      // conf/save_log.json, oldest first

  /** Nothing on disk: a project never initialised here, or destroyed. */
  const EMPTY_REPO := Repo(None, false, false, Missing, None, {}, map[], map[], [])

  /** A `Project` object: fields derived from the id, the current branch,
      and the files it works on. */
  datatype Project = Project(id: string, uid: nat, gid: nat, username: string, branch: string, repo: Repo)

  /** The external commands and file-system actions an operation issues, in
      order. */
  datatype Effect =
    | BupInit
    | CreateHome
    | Index(path: string, excludes: seq<string>)
    | ListChanged(path: string)
    | BupSave(branch: string, timestamp: int)
    | DiskUsage
    | MountSnapshots
    | BupTag(name: string, branch: string)
    | BupUntag(name: string)
    | ListSnapshots(branch: string)
    | KillRound(round: nat)
    | DeleteUser
    | UnsetQuota(pool: string)
    | UnmountSnapshots
    | RemoveLive
    | RemoveRepo
    | LivePush(remote: string)
    | RaiseRemoteQuota(remote: string, disk: Value)
    | LiveRetry(remote: string)
    | MirrorRepo(remote: string)
    | QueryHeads(remote: string)
    | PushRepo(remote: string)
    | PullRepo(remote: string)
    | PushTags(dest: string)

  /** The outcome of one operation: the state afterwards (files written before
      an exception stay written), the effects issued, and the returned value
      or the text of the exception raised. */
  datatype Run<T> = Run(st: Project, trace: seq<Effect>, res: Result<T, string>)

  // ---------------------------------------------------------- HEAD

  /** The contents `set_branch` writes to `HEAD`. */
  function HeadText(branch: string): string {
    HEAD_PREFIX + branch
  }

  /** The constructor's reading of `HEAD`: `split('/')[-1].strip()`. */
  function ParseHead(text: string): string {
    Strip(LastPiece(text, '/'))
  }

  /** The current branch the constructor derives from the `HEAD` file,
      `master` when there is none. */
  function BranchOf(head: Option<string>): (b: string)
    ensures head.None? ==> b == DEFAULT_BRANCH
  {
    if head.Some? then ParseHead(head.value) else DEFAULT_BRANCH
  }

  /** Branch names that survive the trip through `HEAD`: no slash and no
      whitespace at either end. */
  predicate PlainBranchName(b: string) {
    '/' !in b && (b == [] || (!IsSpace(b[0]) && !IsSpace(b[|b| - 1])))
  }

  /** Reading back what `set_branch` wrote gives the branch. */
  lemma HeadRoundTrip(b: string)
    requires PlainBranchName(b)
    ensures ParseHead(HeadText(b)) == b
  {
    assert HeadText(b) == "ref: refs" + ['/'] + "heads" + ['/'] + b;
    LastPieceAfterSep("ref: refs" + ['/'] + "heads", '/', b);
    StripUnpadded(b);
  }

  /** A branch name with a slash does not survive: `a/b` reads back as `b`. */
  lemma HeadLosesSlashedPrefix()
    ensures ParseHead(HeadText("a/b")) == "b"
  {
    assert HeadText("a/b") == "ref: refs/heads/a" + ['/'] + "b";
    LastPieceAfterSep("ref: refs/heads/a", '/', "b");
    StripUnpadded("b");
  }

  // ---------------------------------------------------------- construction

  /** `Project(project_id)`, given the SHA-512 hex digest of the id and the
      files present. An id that is not a version 4 UUID raises; otherwise the
      uid is derived from the digest, the gid equals it, the account name is
      the id without dashes, and the branch comes from `HEAD`. */
  function Open(id: string, digest: string, repo: Repo): (r: Result<Project, string>)
    requires IsSha512Hex(digest)
    ensures r.Success? <==> IsV4Uuid(id)
    ensures r.Failure? ==> r.error == "invalid project uuid='" + id + "'"
    ensures r.Success? ==> var p := r.value;
      && p.id == id && p.repo == repo
      && p.uid == Uid(digest) && p.gid == p.uid && UID_OFFSET <= p.uid <= MAX_UID
      && p.username == RemoveDashes(id) && '-' !in p.username && |p.username| == 32
      && HeadConsistent(p)
  {
    if !IsV4Uuid(id) then Failure("invalid project uuid='" + id + "'")
    else
      var u := Uid(digest);
      Success(Project(id, u, u, RemoveDashes(id), BranchOf(repo.head), repo))
  }

  /** The in-memory branch is the one a fresh constructor would read. */
  predicate HeadConsistent(p: Project) {
    p.branch == BranchOf(p.repo.head)
  }

  /** `set_branch(branch)`: an empty name or the current branch changes
      nothing; any other name becomes current and is written to `HEAD`.
      Nothing else changes. */
  function SetBranch(p: Project, branch: string): (q: Project)
    ensures branch == "" || branch == p.branch ==> q == p
    ensures branch != "" ==> q.branch == branch
    ensures branch != "" && branch != p.branch ==> q.repo.head == Some(HeadText(branch))
    ensures q.repo == p.repo || q.repo == p.repo.(head := Some(HeadText(branch)))
    ensures q == p.(branch := q.branch, repo := q.repo)
  {
    if branch != "" && branch != p.branch then
      p.(branch := branch, repo := p.repo.(head := Some(HeadText(branch))))
    else p
  }

  /** Switching to a plainly named branch keeps the object and the files in
      agreement, so reopening the project gives the branch just set. */
  lemma SetBranchPersists(p: Project, branch: string)
    requires HeadConsistent(p) && PlainBranchName(branch)
    ensures HeadConsistent(SetBranch(p, branch))
  {
    if branch != "" && branch != p.branch {
      HeadRoundTrip(branch);
    }
  }

  /** Reopening after `set_branch` gives the branch that was set. */
  lemma ReopenAfterSetBranch(id: string, digest: string, repo: Repo, branch: string)
    requires IsSha512Hex(digest) && IsV4Uuid(id)
    requires PlainBranchName(branch) && branch != ""
    ensures var p := Open(id, digest, repo).value;
            Open(id, digest, SetBranch(p, branch).repo).value.branch == branch
  {
    var p := Open(id, digest, repo).value;
    SetBranchPersists(p, branch);
  }

  // ---------------------------------------------------------------- init

  /** `init()`: runs `bup init` only when the repository has no objects
      directory yet (raising if it fails), then makes sure the live
      directory exists. */
  function Init(p: Project, bupInit: CmdResult): (r: Run<()>)
    ensures r.res.Failure? <==> !p.repo.initialized && bupInit.Failed?
    ensures (BupInit in r.trace) <==> !p.repo.initialized
    ensures r.res.Success? ==> r.st.repo.initialized && r.st.repo.live
    ensures r.res.Success? ==> r.st == p.(repo := p.repo.(initialized := true, live := true))
    ensures r.res.Failure? ==> r.st == p
  {
    if p.repo.initialized then
      Run(p.(repo := p.repo.(live := true)), [CreateHome], Success(()))
    else if bupInit.Failed? then
      Run(p, [BupInit], Failure(bupInit.output))
    else
      Run(p.(repo := p.repo.(initialized := true, live := true)), [BupInit, CreateHome], Success(()))
  }

  /** `init()` is idempotent: a second call changes nothing and never runs
      `bup init`, whatever that command would do. */
  lemma InitIdempotent(p: Project, first: CmdResult, second: CmdResult)
    requires Init(p, first).res.Success?
    ensures Init(Init(p, first).st, second).st == Init(p, first).st
    ensures Init(Init(p, first).st, second).res.Success?
    ensures BupInit !in Init(Init(p, first).st, second).trace
  {
  }

  // ------------------------------------------------------------ exclude

  /** The patterns every index, checkout and transfer leaves out. */
  const EXCLUDES: seq<string> := [
    "*.sage-backup", ".sage/cache", ".fontconfig", ".sage/temp", ".zfs", ".npm",
    ".sagemathcloud", ".node-gyp", ".cache", ".forever", ".snapshots", "core"]

  const EXCLUDE_FLAG := "--exclude="

  /** `exclude(prefix)`: one `--exclude=` argument per pattern, each pattern
      placed under `prefix`. */
  function Exclude(prefix: string): (args: seq<string>)
    ensures |args| == |EXCLUDES|
    ensures forall i :: 0 <= i < |args| ==> StartsWith(args[i], EXCLUDE_FLAG + prefix)
    ensures forall i :: 0 <= i < |args| ==>
              |EXCLUDE_FLAG| + |prefix| <= |args[i]| && args[i][|EXCLUDE_FLAG| + |prefix|..] == EXCLUDES[i]
  {
    seq(|EXCLUDES|, i requires 0 <= i < |EXCLUDES| => EXCLUDE_FLAG + prefix + EXCLUDES[i])
  }

  /** Indexing the live directory never descends into the snapshot view
      mounted inside it: the argument list names exactly that mount. */
  lemma ExcludeCoversSnapshotMount(id: string)
    ensures EXCLUDE_FLAG + SnapMnt(id) in Exclude(ProjectMnt(id) + "/")
  {
    var args := Exclude(ProjectMnt(id) + "/");
    assert EXCLUDES[10] == ".snapshots";
    assert args[10] == EXCLUDE_FLAG + SnapMnt(id);
  }

  /** With an empty prefix, as the live transfer uses, the patterns are
      passed through unchanged: the argument after `--exclude=` is the
      pattern itself. */
  lemma ExcludeRelative()
    ensures forall i :: 0 <= i < |EXCLUDES| ==> Exclude("")[i][|EXCLUDE_FLAG|..] == EXCLUDES[i]
  {
  }
}
