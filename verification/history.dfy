/** Reading and naming points of a project's snapshot history: `tag`,
    `snapshots` and `newest_snapshot`. The repository itself belongs to bup;
    its answers are command results. */
module History {
  import opened Wrappers
  import opened Text
  import opened Shell
  import opened Storage

  /** The name `bup ls <branch>/` prints after the snapshots. */
  const LATEST := "latest"

  /** `tag(tag, delete)`: `bup tag -f` names the current branch head, or
      deletes the tag; a failing command raises and leaves the tags alone.
      Only the named tag changes. */
  function Tag(p: Project, name: string, delete: bool, bupTag: CmdResult): (r: Run<()>)
    ensures r.res.Success? <==> bupTag.Ok?
    ensures r.trace == [if delete then BupUntag(name) else BupTag(name, p.branch)]
    ensures r.st == p.(repo := p.repo.(tags := r.st.repo.tags))
    ensures bupTag.Failed? ==> r.st == p
    ensures bupTag.Ok? && delete ==> name !in r.st.repo.tags
    ensures bupTag.Ok? && !delete ==> name in r.st.repo.tags && r.st.repo.tags[name] == BranchHead(p.branch)
    ensures forall t :: t != name ==> (t in r.st.repo.tags <==> t in p.repo.tags)
    ensures forall t :: t != name && t in p.repo.tags ==> r.st.repo.tags[t] == p.repo.tags[t]
  {
    var effect := if delete then BupUntag(name) else BupTag(name, p.branch);
    if bupTag.Failed? then Run(p, [effect], Failure(bupTag.output))
    else if delete then Run(p.(repo := p.repo.(tags := p.repo.tags - {name})), [effect], Success(()))
    else Run(p.(repo := p.repo.(tags := p.repo.tags[name := BranchHead(p.branch)])), [effect], Success(()))
  }

  /** Creating a new tag and deleting it again leaves the tags as they were. */
  lemma TagThenUntag(p: Project, name: string, create: CmdResult, remove: CmdResult)
    requires name !in p.repo.tags && create.Ok? && remove.Ok?
    ensures Tag(Tag(p, name, false, create).st, name, true, remove).st == p
  {
    var q := Tag(p, name, false, create).st;
    var r := Tag(q, name, true, remove).st;
    assert r.repo.tags == p.repo.tags;
  }

  /** The branch `snapshots(branch)` lists: the argument, or the current
      branch when it is empty. */
  function ListedBranch(p: Project, branch: string): string {
    if branch == "" then p.branch else branch
  }

  /** `snapshots(branch)`: no snapshots when the branch has no head file
      (bup is not asked); otherwise the words `bup ls` prints, without the
      final `latest` entry. A failing listing raises. */
  function Snapshots(p: Project, branch: string, ls: CmdResult): (r: Result<seq<string>, string>)
    ensures ListedBranch(p, branch) !in p.repo.heads ==> r == Success([])
    ensures r.Failure? <==> ListedBranch(p, branch) in p.repo.heads && ls.Failed?
    ensures r.Success? ==> forall i :: 0 <= i < |r.value| ==> IsWord(r.value[i])
    ensures r.Success? && ListedBranch(p, branch) in p.repo.heads ==>
              var ws := Words(ls.output);
              |r.value| == (if |ws| == 0 then 0 else |ws| - 1) && r.value == ws[..|r.value|]
  {
    var b := ListedBranch(p, branch);
    if b !in p.repo.heads then Success([])
    else
      match Checked(ls)
      case Failure(e) => Failure(e)
      case Success(out) =>
        var ws := Words(out);
        WordsStrip(ls.output);
        Success(if |ws| == 0 then [] else ws[..|ws| - 1])
  }

  /** When `bup ls` prints the snapshot names one per line followed by
      `latest`, `snapshots` returns exactly those names. */
  lemma SnapshotsOfListing(p: Project, branch: string, names: seq<string>)
    requires ListedBranch(p, branch) in p.repo.heads
    requires forall i :: 0 <= i < |names| ==> IsWord(names[i])
    ensures Snapshots(p, branch, Ok(Unwords(names + [LATEST]))) == Success(names)
  {
    var ws := names + [LATEST];
    LatestIsWord();
    assert forall i :: 0 <= i < |ws| ==> IsWord(ws[i]);
    WordsUnwords(ws);
    var r := Snapshots(p, branch, Ok(Unwords(ws)));
    assert |r.value| == |names|;
    assert r.value == ws[..|names|];
    assert ws[..|names|] == names;
  }

  lemma LatestIsWord()
    ensures IsWord(LATEST)
  {
    assert LATEST == ['l', 'a', 't', 'e', 's', 't'];
  }

  /** `newest_snapshot(branch)`: the last listed snapshot, or `None` when
      there is none; a failing listing raises. */
  function NewestSnapshot(p: Project, branch: string, ls: CmdResult): (r: Result<Option<string>, string>)
    ensures r.Failure? <==> Snapshots(p, branch, ls).Failure?
    ensures r.Success? ==> (r.value.None? <==> Snapshots(p, branch, ls).value == [])
    ensures r.Success? && r.value.Some? ==>
              var v := Snapshots(p, branch, ls).value; r.value.value == v[|v| - 1]
  {
    match Snapshots(p, branch, ls)
    case Failure(e) => Failure(e)
    case Success(v) => Success(if |v| > 0 then Some(v[|v| - 1]) else None)
  }

  /** A branch that was never created has no newest snapshot, and bup is
      not consulted. */
  lemma NoNewestWithoutBranch(p: Project, branch: string, ls: CmdResult)
    requires ListedBranch(p, branch) !in p.repo.heads
    ensures NewestSnapshot(p, branch, ls) == Success(None)
  {
  }

  /** With a listing of snapshot names, the newest is the last name listed. */
  lemma NewestOfListing(p: Project, branch: string, names: seq<string>)
    requires ListedBranch(p, branch) in p.repo.heads
    requires |names| > 0 && forall i :: 0 <= i < |names| ==> IsWord(names[i])
    ensures NewestSnapshot(p, branch, Ok(Unwords(names + [LATEST]))) == Success(Some(names[|names| - 1]))
  {
    SnapshotsOfListing(p, branch, names);
  }
}
