/** Replication of one project to peer hosts: the per-target protocol
    (`_sync`) and the fan-out over a comma-separated target list (`sync`).
    Transfers, remote commands and the clock are inputs; what the model
    decides is which of them run, what is raised, and which conflict tags
    are written. */
module Replication {
  import opened Wrappers
  import opened Text
  import opened Shell
  import opened Settings
  import opened Storage

  /** The remote's complaint that triggers the one quota raise and retry. */
  const QUOTA_MSG := "Disk quota exceeded"
  /** What the head query prints when the remote has no repository yet. */
  const NO_REPO_MSG := "such file or directory"
  /** Pulled file names with this ending mean new history arrived. */
  const PACK_SUFFIX := ".pack"
  const CONFLICT_PREFIX := "conflict-"
  /** The `ValueError` a head line without a colon raises when unpacked. */
  const UNPACK_ERROR := "need more than 1 value to unpack"

  /** What one target's replication learns from the world: the result of
      every command it may run, the replica's repository as the push finds
      it, the files a failed pull had copied before it stopped, the time
      stamp for the conflict tag of each head, and the clock before and
      after. */
  datatype TargetEnv = TargetEnv(
    livePush: CmdResult,
    quotaRaise: CmdResult,
    liveRetry: CmdResult,
    mirror: CmdResult,
    headQuery: CmdResult,
    push: CmdResult,
    pull: CmdResult,
    replica: Repo,
    partial: Repo,
    stamps: nat -> string,
    tagPush: CmdResult,
    started: real,
    finished: real)

  // --------------------------------------------------------- live phase

  /** The effects of one phase and the text it raised, if it raised. */
  datatype Phase = Phase(trace: seq<Effect>, error: Option<string>)

  /** The live-data phase of `_sync`, given whether the live directory exists
      and the local disk setting: only when it exists, push it with errors
      ignored. Output mentioning the quota is answered by exactly one remote
      quota raise to `disk` and one retry, both of which raise on failure;
      that test comes before the generic "ERROR" test, and any other output
      with "ERROR" in it raises. */
  function LivePhase(live: bool, disk: Value, remote: string, env: TargetEnv): (r: Phase)
    ensures !live ==> r == Phase([], None)
    ensures live ==> 1 <= |r.trace| <= 3 && r.trace[0] == LivePush(remote)
    ensures live && Contains(Tolerant(env.livePush), QUOTA_MSG) ==>
              && 2 <= |r.trace| && r.trace[1] == RaiseRemoteQuota(remote, disk)
              && (|r.trace| == 3 <==> env.quotaRaise.Ok?)
              && (|r.trace| == 3 ==> r.trace[2] == LiveRetry(remote))
              && (r.error.None? <==> env.quotaRaise.Ok? && env.liveRetry.Ok?)
    ensures live && !Contains(Tolerant(env.livePush), QUOTA_MSG) ==>
              && r.trace == [LivePush(remote)]
              && (r.error.None? <==> !Contains(Tolerant(env.livePush), ERROR_MARK))
              && (r.error.Some? ==> r.error.value == Tolerant(env.livePush))
  {
    if !live then Phase([], None)
    else
      var out := Tolerant(env.livePush);
      if Contains(out, QUOTA_MSG) then
        var raise := RaiseRemoteQuota(remote, disk);
        if env.quotaRaise.Failed? then
          Phase([LivePush(remote), raise], Some(env.quotaRaise.output))
        else if env.liveRetry.Failed? then
          Phase([LivePush(remote), raise, LiveRetry(remote)], Some(env.liveRetry.output))
        else
          Phase([LivePush(remote), raise, LiveRetry(remote)], None)
      else if Contains(out, ERROR_MARK) then Phase([LivePush(remote)], Some(out))
      else Phase([LivePush(remote)], None)
  }

  /** The quota test comes first: a failed push whose output mentions the
      quota (and so also carries "ERROR") does not abort the target when the
      raise and the retry succeed. */
  lemma QuotaRetryRescuesPush(disk: Value, remote: string, env: TargetEnv)
    requires env.livePush.Failed? && Contains(Tolerant(env.livePush), QUOTA_MSG)
    requires env.quotaRaise.Ok? && env.liveRetry.Ok?
    ensures Contains(Tolerant(env.livePush), ERROR_MARK)
    ensures LivePhase(true, disk, remote, env) ==
              Phase([LivePush(remote), RaiseRemoteQuota(remote, disk), LiveRetry(remote)], None)
  {
  }

  /** Any other failed push aborts the target with the push's output. */
  lemma OtherPushFailureAborts(disk: Value, remote: string, env: TargetEnv)
    requires env.livePush.Failed? && !Contains(Tolerant(env.livePush), QUOTA_MSG)
    ensures LivePhase(true, disk, remote, env) == Phase([LivePush(remote)], Some(Tolerant(env.livePush)))
  {
  }

  // ------------------------------------------------------- remote heads

  /** A remote branch head: the branch name and the commit id it holds. */
  datatype Head = Head(branch: string, id: string)

  /** One line `grep -H` prints: `a, b = x.split(':')[-2:]`, then the file
      name of `a`. A line without a colon raises. */
  function ParseHeadLine(x: string): (r: Result<Head, string>)
    ensures r.Failure? <==> ':' !in x
    ensures r.Success? ==> '/' !in r.value.branch && ':' !in r.value.branch && ':' !in r.value.id
    ensures r.Success? ==> EndsWith(x, r.value.id)
  {
    var parts := SplitOn(x, ':');
    if |parts| < 2 then Failure(UNPACK_ERROR)
    else
      LastPieceIsSuffix(parts, ':');
      Success(Head(LastPiece(parts[|parts| - 2], '/'), parts[|parts| - 1]))
  }

  /** The line `grep -H` prints for the head file of one branch. */
  function HeadLine(dir: string, branch: string, id: string): string {
    dir + "/" + branch + ":" + id
  }

  /** A head line parses back to its branch and id. */
  lemma HeadLineRoundTrip(dir: string, branch: string, id: string)
    requires ':' !in dir && ':' !in branch && ':' !in id && '/' !in branch
    ensures ParseHeadLine(HeadLine(dir, branch, id)) == Success(Head(branch, id))
  {
    var a := dir + "/" + branch;
    assert ':' !in a;
    assert HeadLine(dir, branch, id) == a + [':'] + id;
    SplitOnAfterPiece(a, ':', id);
    assert SplitOn(HeadLine(dir, branch, id), ':') == [a, id];
    assert a == dir + ['/'] + branch;
    LastPieceAfterSep(dir, '/', branch);
  }

  /** Every line parsed in order; the first bad line raises. */
  function ParseHeadLines(lines: seq<string>): (r: Result<seq<Head>, string>)
    ensures r.Success? <==> forall i :: 0 <= i < |lines| ==> ':' in lines[i]
    ensures r.Success? ==> |r.value| == |lines|
    ensures r.Success? ==> forall i :: 0 <= i < |lines| ==> ParseHeadLine(lines[i]) == Success(r.value[i])
  {
    if |lines| == 0 then Success([])
    else
      match ParseHeadLine(lines[0])
      case Failure(e) => Failure(e)
      case Success(h) =>
        ColonsCons(lines);
        match ParseHeadLines(lines[1..])
        case Failure(e) => Failure(e)
        case Success(hs) =>
          assert forall i :: 1 <= i < |lines| ==> lines[i] == lines[1..][i - 1];
          Success([h] + hs)
  }

  lemma ColonsCons(lines: seq<string>)
    requires |lines| > 0
    ensures (forall i :: 0 <= i < |lines| ==> ':' in lines[i])
        <==> ':' in lines[0] && forall i :: 0 <= i < |lines[1..]| ==> ':' in lines[1..][i]
  {
    assert forall i :: 1 <= i < |lines| ==> lines[i] == lines[1..][i - 1];
  }

  /** The head lines of a set of remote branches parse back to those heads. */
  lemma HeadLinesRoundTrip(dir: string, heads: seq<Head>)
    requires ':' !in dir
    requires forall i :: 0 <= i < |heads| ==> ':' !in heads[i].branch && ':' !in heads[i].id && '/' !in heads[i].branch
    ensures ParseHeadLines(seq(|heads|, i requires 0 <= i < |heads| => HeadLine(dir, heads[i].branch, heads[i].id))) == Success(heads)
  {
    var lines := seq(|heads|, i requires 0 <= i < |heads| => HeadLine(dir, heads[i].branch, heads[i].id));
    forall i | 0 <= i < |heads|
      ensures ParseHeadLine(lines[i]) == Success(heads[i])
    {
      HeadLineRoundTrip(dir, heads[i].branch, heads[i].id);
    }
    var r := ParseHeadLines(lines);
    assert r.Success?;
    assert forall i :: 0 <= i < |heads| ==> ParseHeadLine(lines[i]) == Success(r.value[i]) && r.value[i] == heads[i];
    assert r.value == heads;
  }

  /** The head query, with errors ignored: a remote without a repository
      means no heads; any other "ERROR" raises; otherwise one head per line. */
  function RemoteHeads(query: CmdResult): (r: Result<seq<Head>, string>)
    ensures Contains(Tolerant(query), NO_REPO_MSG) ==> r == Success([])
    ensures !Contains(Tolerant(query), NO_REPO_MSG) && Contains(Tolerant(query), ERROR_MARK) ==>
              r == Failure(Tolerant(query))
    ensures query.Failed? && !Contains(Tolerant(query), NO_REPO_MSG) ==> r.Failure?
    ensures !Contains(Tolerant(query), NO_REPO_MSG) && !Contains(Tolerant(query), ERROR_MARK) ==>
              r == ParseHeadLines(Lines(Tolerant(query)))
  {
    var out := Tolerant(query);
    if Contains(out, NO_REPO_MSG) then Success([])
    else if Contains(out, ERROR_MARK) then Failure(out)
    else ParseHeadLines(Lines(out))
  }

  // ------------------------------------------------------ conflict tags

  /** A conflict tag to write: which head it is for, its name, the commit id. */
  datatype ConflictTag = ConflictTag(index: nat, name: string, id: string)

  /** "Have we ever seen this commit?" answered no: the branch has no local
      reflog, or its reflog does not mention the id. */
  predicate Unseen(h: Head, reflog: map<string, string>) {
    h.branch !in reflog || !Contains(reflog[h.branch], h.id)
  }

  function TagName(branch: string, stamp: string): string {
    CONFLICT_PREFIX + branch + "-" + stamp
  }

  /** The conflict tags for heads `from..`, in head order: only for heads
      whose commit is unseen, each named after its head's branch and stamp
      and holding its id. */
  function ConflictTags(heads: seq<Head>, reflog: map<string, string>, stamps: nat -> string, from: nat): (cs: seq<ConflictTag>)
    requires from <= |heads|
    ensures forall k :: 0 <= k < |cs| ==>
              && from <= cs[k].index < |heads|
              && Unseen(heads[cs[k].index], reflog)
              && cs[k].name == TagName(heads[cs[k].index].branch, stamps(cs[k].index))
              && cs[k].id == heads[cs[k].index].id
    ensures forall k, l :: 0 <= k < l < |cs| ==> cs[k].index < cs[l].index
    decreases |heads| - from
  {
    if from == |heads| then []
    else
      var rest := ConflictTags(heads, reflog, stamps, from + 1);
      if Unseen(heads[from], reflog) then
        var c := ConflictTag(from, TagName(heads[from].branch, stamps(from)), heads[from].id);
        var cs := [c] + rest;
        assert forall k :: 1 <= k < |cs| ==> cs[k] == rest[k - 1];
        cs
      else rest
  }

  /** And every unseen head from `from` on does get a tag. */
  lemma {:induction false} ConflictTagsComplete(heads: seq<Head>, reflog: map<string, string>, stamps: nat -> string, from: nat, i: nat)
    requires from <= i < |heads| && Unseen(heads[i], reflog)
    ensures exists k :: 0 <= k < |ConflictTags(heads, reflog, stamps, from)| && ConflictTags(heads, reflog, stamps, from)[k].index == i
    decreases i - from
  {
    var cs := ConflictTags(heads, reflog, stamps, from);
    if i == from {
      assert cs[0].index == i;
    } else {
      ConflictTagsComplete(heads, reflog, stamps, from + 1, i);
      var rest := ConflictTags(heads, reflog, stamps, from + 1);
      var k :| 0 <= k < |rest| && rest[k].index == i;
      if Unseen(heads[from], reflog) {
        assert cs[k + 1] == rest[k];
      } else {
        assert cs == rest;
      }
    }
  }

  /** Writes each conflict tag file in order; a later tag with the same name
      overwrites an earlier one. The tag names afterwards are the old ones
      and the written ones. */
  function WriteTags(tags: map<string, TagTarget>, cs: seq<ConflictTag>): (t: map<string, TagTarget>)
    ensures forall n :: n in t <==> n in tags || exists k :: 0 <= k < |cs| && cs[k].name == n
    decreases |cs|
  {
    if |cs| == 0 then tags
    else
      var t := WriteTags(tags[cs[0].name := Commit(cs[0].id)], cs[1..]);
      assert forall k :: 1 <= k < |cs| ==> cs[k] == cs[1..][k - 1];
      t
  }

  /** A written tag that no later tag overwrites holds its commit id. */
  lemma {:induction false} WriteTagsWritten(tags: map<string, TagTarget>, cs: seq<ConflictTag>, k: nat)
    requires k < |cs| && forall l :: k < l < |cs| ==> cs[l].name != cs[k].name
    ensures cs[k].name in WriteTags(tags, cs) && WriteTags(tags, cs)[cs[k].name] == Commit(cs[k].id)
    decreases |cs|
  {
    var first := tags[cs[0].name := Commit(cs[0].id)];
    assert WriteTags(tags, cs) == WriteTags(first, cs[1..]);
    if k == 0 {
      WriteTagsKept(first, cs[1..], cs[0].name);
    } else {
      assert forall l :: k - 1 < l < |cs| - 1 ==> cs[1..][l] == cs[l + 1];
      WriteTagsWritten(first, cs[1..], k - 1);
    }
  }

  /** A tag none of the written ones names keeps what it held. */
  lemma {:induction false} WriteTagsKept(tags: map<string, TagTarget>, cs: seq<ConflictTag>, n: string)
    requires n in tags && forall k :: 0 <= k < |cs| ==> cs[k].name != n
    ensures n in WriteTags(tags, cs) && WriteTags(tags, cs)[n] == tags[n]
    decreases |cs|
  {
    if |cs| > 0 {
      var first := tags[cs[0].name := Commit(cs[0].id)];
      assert WriteTags(tags, cs) == WriteTags(first, cs[1..]);
      assert forall k :: 0 <= k < |cs| - 1 ==> cs[1..][k] == cs[k + 1];
      WriteTagsKept(first, cs[1..], n);
    }
  }

  /** Some pulled file is a pack file. */
  predicate PackPulled(back: seq<string>) {
    exists i :: 0 <= i < |back| && EndsWith(back[i], PACK_SUFFIX)
  }

  /** The conflict tags a merge writes: none unless the remote had heads and
      the pull brought a pack file; then one per head unseen in `reflog`, the
      reflog files as the pull left them. */
  function Conflicts(heads: seq<Head>, reflog: map<string, string>, env: TargetEnv): (cs: seq<ConflictTag>)
    ensures |cs| > 0 ==> |heads| > 0 && PackPulled(Lines(Strip(env.pull.output)))
  {
    if |heads| > 0 && PackPulled(Lines(Strip(env.pull.output))) then
      ConflictTags(heads, reflog, env.stamps, 0)
    else []
  }

  // ------------------------------------------------------ snapshot phase

  /** rsync's reading of a transfer end: a colon before the first slash
      names a remote host, anything else is a local path. */
  predicate RsyncRemote(dest: string) {
    ':' in SplitOn(dest, '/')[0]
  }

  /** The replica's copy of the project's repository, as the pushes and the
      pull name it. */
  function RemoteRepo(remote: string, id: string): string {
    "root@" + remote + ":" + BupPath(id) + "/"
  }

  /** The destination the tag push names as written: host and no path. */
  function TagPushDestAsWritten(remote: string): string {
    "root@" + remote + "/"
  }

  /** As written, the tag push copies the repository into a local directory
      named after the host, so the conflict tags never reach the replica. */
  lemma TagPushStaysLocal(remote: string)
    requires ':' !in remote && '/' !in remote
    ensures !RsyncRemote(TagPushDestAsWritten(remote))
  {
    var host := "root@" + remote;
    assert '/' !in host && ':' !in host;
    assert TagPushDestAsWritten(remote) == host + ['/'] + "";
    SplitOnAfterPiece(host, '/', "");
  }

  /** The replica's repository, which the tag push evidently means, is a
      remote destination. */
  lemma TagPushReachesReplica(remote: string, id: string)
    requires '/' !in remote
    ensures RsyncRemote(RemoteRepo(remote, id))
  {
    var host := "root@" + remote + ":";
    assert '/' !in host && ':' in host;
    assert RemoteRepo(remote, id) == host + ['/'] + ("bup/bups/" + id + "/");
    SplitOnAfterPiece(host, '/', "bup/bups/" + id + "/");
  }


  /** What the merge branch of `_sync` did: its effects, whether the pull
      ran and whether it completed, the conflict tags it wrote, and what it
      raised. */
  datatype Merge = Merge(trace: seq<Effect>, pullRan: bool, pulled: bool, conflicts: seq<ConflictTag>, error: Option<string>)

  /** The merge branch once the remote heads are known: push, pull back,
      then tag every foreign head the local reflog has not seen, and push
      the tags back only if one was written. Each remote step raises on
      failure. */
  function Transfer(remote: string, id: string, reflog: map<string, string>, heads: seq<Head>, env: TargetEnv): (m: Merge)
    ensures |m.trace| >= 1 && m.trace[0] == PushRepo(remote)
    ensures m.pullRan <==> env.push.Ok?
    ensures m.pulled <==> env.push.Ok? && env.pull.Ok?
    ensures m.pulled ==>
              && m.conflicts == Conflicts(heads, PulledReflog(reflog, env.replica), env)
              && (PushTags(RemoteRepo(remote, id)) in m.trace <==> |m.conflicts| > 0)
              && (m.error.Some? <==> |m.conflicts| > 0 && env.tagPush.Failed?)
    ensures !m.pulled ==> m.conflicts == [] && m.error.Some? && PushTags(RemoteRepo(remote, id)) !in m.trace
  {
    if env.push.Failed? then
      Merge([PushRepo(remote)], false, false, [], Some(env.push.output))
    else if env.pull.Failed? then
      Merge([PushRepo(remote), PullRepo(remote)], true, false, [], Some(env.pull.output))
    else
      var cs := Conflicts(heads, PulledReflog(reflog, env.replica), env);
      var t := [PushRepo(remote), PullRepo(remote)];
      if |cs| == 0 then Merge(t, true, true, cs, None)
      else if env.tagPush.Failed? then Merge(t + [PushTags(RemoteRepo(remote, id))], true, true, cs, Some(env.tagPush.output))
      else Merge(t + [PushTags(RemoteRepo(remote, id))], true, true, cs, None)
  }

  /** The merge branch of `_sync`: query the remote heads, which raises when
      the answer cannot be read, then the transfer. */
  function MergePhase(remote: string, id: string, reflog: map<string, string>, env: TargetEnv): (m: Merge)
    ensures |m.trace| >= 1 && m.trace[0] == QueryHeads(remote)
    ensures RemoteHeads(env.headQuery).Failure? ==>
              m == Merge([QueryHeads(remote)], false, false, [], Some(RemoteHeads(env.headQuery).error))
    ensures m.pullRan <==> RemoteHeads(env.headQuery).Success? && env.push.Ok?
    ensures m.pulled <==> RemoteHeads(env.headQuery).Success? && env.push.Ok? && env.pull.Ok?
    ensures m.pulled ==>
              && m.conflicts == Conflicts(RemoteHeads(env.headQuery).value, PulledReflog(reflog, env.replica), env)
              && (PushTags(RemoteRepo(remote, id)) in m.trace <==> |m.conflicts| > 0)
              && (m.error.Some? <==> |m.conflicts| > 0 && env.tagPush.Failed?)
    ensures !m.pulled ==> m.conflicts == [] && m.error.Some? && PushTags(RemoteRepo(remote, id)) !in m.trace
  {
    match RemoteHeads(env.headQuery)
    case Failure(e) => Merge([QueryHeads(remote)], false, false, [], Some(e))
    case Success(heads) =>
      var m := Transfer(remote, id, reflog, heads, env);
      m.(trace := [QueryHeads(remote)] + m.trace)
  }

  /** `b` is `a` with files added and none of `a`'s taken away or replaced,
      except reflog files and tags that were rewritten: every branch head and
      tag name is kept, and `HEAD`, the objects, the settings, the touch
      marker and the save log stay as they were wherever `a` had them. */
  predicate Extends(a: Repo, b: Repo) {
    && b.live == a.live
    && (a.head.Some? ==> b.head == a.head)
    && (a.initialized ==> b.initialized)
    && (!a.settings.Missing? ==> b.settings == a.settings)
    && (a.touched.Some? ==> b.touched == a.touched)
    && a.heads <= b.heads
    && a.tags.Keys <= b.tags.Keys
    && (a.saveLog != [] ==> b.saveLog == a.saveLog)
  }

  /** `q` is `p` with files only added to its repository. */
  predicate OnlyAdds(p: Project, q: Project) {
    q == p.(repo := q.repo) && Extends(p.repo, q.repo)
  }

  /** Adding files twice is adding files. */
  lemma OnlyAddsTrans(p: Project, q: Project, r: Project)
    requires OnlyAdds(p, q) && OnlyAdds(q, r)
    ensures OnlyAdds(p, r)
  {
  }

  /** The reflog files after the push and the pull: the push copies every
      local reflog file over the replica's, and the pull then brings back
      only those the replica alone has. */
  function PulledReflog(reflog: map<string, string>, replica: Repo): (r: map<string, string>)
    ensures r.Keys == reflog.Keys + replica.reflog.Keys
    ensures forall b :: b in reflog ==> r[b] == reflog[b]
  {
    replica.reflog + reflog
  }

  /** The local repository after a pull from `replica`. rsync runs without
      `--delete`, right after a push that left a copy of every local file on
      the replica, so it brings in exactly the files the replica has and the
      local repository lacks: foreign branch heads, their reflog files and
      tags, and `HEAD`, the objects, the settings, the touch marker and the
      save log where they are missing here. */
  function Pulled(local: Repo, replica: Repo): (r: Repo)
    ensures Extends(local, r)
  {
    Repo(
      if local.head.Some? then local.head else replica.head,
      local.initialized || replica.initialized,
      local.live,
      if local.settings.Missing? then replica.settings else local.settings,
      if local.touched.Some? then local.touched else replica.touched,
      local.heads + replica.heads,
      PulledReflog(local.reflog, replica),
      replica.tags + local.tags,
      if local.saveLog == [] then replica.saveLog else local.saveLog)
  }

  /** The pull brings in every branch head, reflog file and tag the replica
      has, keeps the local reflog files as they were, and where the local
      repository has no settings or save log, takes the replica's. */
  lemma PulledContents(local: Repo, replica: Repo)
    ensures var r := Pulled(local, replica);
            && r.heads == local.heads + replica.heads
            && r.tags.Keys == local.tags.Keys + replica.tags.Keys
            && r.reflog.Keys == local.reflog.Keys + replica.reflog.Keys
            && (forall b :: b in local.reflog ==> r.reflog[b] == local.reflog[b])
            && (local.settings.Missing? ==> r.settings == replica.settings)
            && (local.saveLog == [] ==> r.saveLog == replica.saveLog)
  {
  }

  /** A local tag keeps what it names; a tag only the replica has arrives
      as the replica has it. */
  lemma PulledTags(local: Repo, replica: Repo, t: string)
    requires t in local.tags || t in replica.tags
    ensures t in local.tags ==> Pulled(local, replica).tags[t] == local.tags[t]
    ensures t !in local.tags ==> Pulled(local, replica).tags[t] == replica.tags[t]
  {
  }

  /** The replica has nothing the local repository lacks. */
  predicate Covers(local: Repo, replica: Repo) {
    && (replica.head.Some? ==> local.head.Some?)
    && (replica.initialized ==> local.initialized)
    && (!replica.settings.Missing? ==> !local.settings.Missing?)
    && (replica.touched.Some? ==> local.touched.Some?)
    && replica.heads <= local.heads
    && replica.reflog.Keys <= local.reflog.Keys
    && replica.tags.Keys <= local.tags.Keys
    && (replica.saveLog != [] ==> local.saveLog != [])
  }

  /** Pulling from a replica with nothing new changes nothing. */
  lemma PullNothingNew(local: Repo, replica: Repo)
    requires Covers(local, replica)
    ensures Pulled(local, replica) == local
  {
    assert (replica.tags + local.tags).Keys == local.tags.Keys;
    assert replica.tags + local.tags == local.tags;
    assert (replica.reflog + local.reflog).Keys == local.reflog.Keys;
    assert replica.reflog + local.reflog == local.reflog;
  }

  /** A second pull from the same replica brings nothing more. */
  lemma PullTwice(local: Repo, replica: Repo)
    ensures Pulled(Pulled(local, replica), replica) == Pulled(local, replica)
  {
    var once := Pulled(local, replica);
    assert Covers(once, replica);
    PullNothingNew(once, replica);
  }

  /** Whether a replica's commit counts as seen depends on earlier pulls: a
      reflog file for the branch that an earlier target's pull brought in is
      pushed over the replica's own, so a commit only the replica's file
      mentions becomes unseen. */
  lemma EarlierPullHidesReplicaLog(local: Repo, a: Repo, b: Repo, h: Head)
    requires h.branch !in local.reflog
    requires h.branch in a.reflog && !Contains(a.reflog[h.branch], h.id)
    requires h.branch in b.reflog && Contains(b.reflog[h.branch], h.id)
    ensures !Unseen(h, Pulled(local, b).reflog)
    ensures Unseen(h, Pulled(Pulled(local, a), b).reflog)
  {
  }

  /** The project after a merge: a completed pull brings in what the replica
      had and the local repository lacked, and then the conflict tags are
      written; a pull that failed part-way leaves the files it had copied;
      when no pull ran, nothing changed. */
  function Merged(p: Project, m: Merge, env: TargetEnv): (q: Project)
    ensures OnlyAdds(p, q)
    ensures !m.pullRan ==> q == p
  {
    if !m.pullRan then p
    else if m.pulled then
      var r := Pulled(p.repo, env.replica);
      p.(repo := r.(tags := WriteTags(r.tags, m.conflicts)))
    else p.(repo := Pulled(p.repo, env.partial))
  }

  /** The disk setting the quota raise sends. */
  function DiskSetting(p: Project): Value {
    Load(p.repo.settings)["disk"]
  }

  /** `_sync(remote, destructive, snapshots)` for one target: the live phase;
      then, unless it raised or snapshots are not wanted, either one
      overwriting push of the whole repository (destructive) or a merge.
      Files are only added to the repository. */
  function SyncTarget(p: Project, remote: string, destructive: bool, snapshots: bool, env: TargetEnv): (r: Run<()>)
    ensures OnlyAdds(p, r.st)
  {
    var live := LivePhase(p.repo.live, DiskSetting(p), remote, env);
    if live.error.Some? then Run(p, live.trace, Failure(live.error.value))
    else if !snapshots then Run(p, live.trace, Success(()))
    else if destructive then
      var t := live.trace + [MirrorRepo(remote)];
      if env.mirror.Failed? then Run(p, t, Failure(env.mirror.output)) else Run(p, t, Success(()))
    else
      var m := MergePhase(remote, p.id, p.repo.reflog, env);
      var t := live.trace + m.trace;
      if m.error.Some? then Run(Merged(p, m, env), t, Failure(m.error.value))
      else Run(Merged(p, m, env), t, Success(()))
  }

  /** A live phase that raised ends the target: nothing else runs and the
      project is unchanged. */
  lemma LiveFailureAborts(p: Project, remote: string, destructive: bool, snapshots: bool, env: TargetEnv)
    requires LivePhase(p.repo.live, DiskSetting(p), remote, env).error.Some?
    ensures var live := LivePhase(p.repo.live, DiskSetting(p), remote, env);
            SyncTarget(p, remote, destructive, snapshots, env) == Run(p, live.trace, Failure(live.error.value))
  {
  }

  /** Without snapshots, `_sync` stops after the live phase. */
  lemma LiveOnlyWithoutSnapshots(p: Project, remote: string, destructive: bool, env: TargetEnv)
    ensures var live := LivePhase(p.repo.live, DiskSetting(p), remote, env);
            && SyncTarget(p, remote, destructive, false, env).trace == live.trace
            && SyncTarget(p, remote, destructive, false, env).st == p
            && (SyncTarget(p, remote, destructive, false, env).res.Success? <==> live.error.None?)
  {
  }

  /** A destructive sync overwrites the remote repository once, never asks
      for the remote heads and never writes a tag. */
  lemma DestructiveNeverMerges(p: Project, remote: string, env: TargetEnv)
    requires LivePhase(p.repo.live, DiskSetting(p), remote, env).error.None?
    ensures var r := SyncTarget(p, remote, true, true, env);
            && r.st == p
            && r.trace == LivePhase(p.repo.live, DiskSetting(p), remote, env).trace + [MirrorRepo(remote)]
            && (r.res.Success? <==> env.mirror.Ok?)
  {
  }

  /** A merge sync: the live phase, then the merge, whose outcome is the
      target's. */
  lemma MergeSyncOutcome(p: Project, remote: string, env: TargetEnv)
    requires LivePhase(p.repo.live, DiskSetting(p), remote, env).error.None?
    ensures var r := SyncTarget(p, remote, false, true, env);
            var m := MergePhase(remote, p.id, p.repo.reflog, env);
            && r.st == Merged(p, m, env)
            && r.trace == LivePhase(p.repo.live, DiskSetting(p), remote, env).trace + m.trace
            && (r.res.Failure? <==> m.error.Some?)
  {
  }

  /** The divergence rule of a merge sync: once the remote had heads and a
      pack file arrived, head `i` gets a conflict tag exactly when the reflog
      files as the pull left them have not seen its id, and the tag is named
      after the head's branch and holds that id. */
  lemma ConflictTagIff(heads: seq<Head>, reflog: map<string, string>, env: TargetEnv, i: nat)
    requires i < |heads| && PackPulled(Lines(Strip(env.pull.output)))
    ensures var cs := Conflicts(heads, reflog, env);
            (exists k :: 0 <= k < |cs| && cs[k].index == i) <==> Unseen(heads[i], reflog)
    ensures var cs := Conflicts(heads, reflog, env);
            forall k :: 0 <= k < |cs| && cs[k].index == i ==>
              cs[k].id == heads[i].id && cs[k].name == TagName(heads[i].branch, env.stamps(i))
  {
    assert Conflicts(heads, reflog, env) == ConflictTags(heads, reflog, env.stamps, 0);
    if Unseen(heads[i], reflog) {
      ConflictTagsComplete(heads, reflog, env.stamps, 0, i);
    }
  }

  /** Without a pack file in the pull, or with no remote heads, a merge
      writes no tag and pushes nothing back: the repository is what the pull
      left. */
  lemma NoPackNoTags(p: Project, remote: string, env: TargetEnv)
    requires RemoteHeads(env.headQuery).Success? && env.push.Ok? && env.pull.Ok?
    requires RemoteHeads(env.headQuery).value == [] || !PackPulled(Lines(Strip(env.pull.output)))
    ensures MergePhase(remote, p.id, p.repo.reflog, env).conflicts == []
    ensures PushTags(RemoteRepo(remote, p.id)) !in MergePhase(remote, p.id, p.repo.reflog, env).trace
    ensures MergePhase(remote, p.id, p.repo.reflog, env).error.None?
    ensures Merged(p, MergePhase(remote, p.id, p.repo.reflog, env), env).repo == Pulled(p.repo, env.replica)
  {
  }

  /** A pull that fails part-way raises its output and leaves the files it
      had already copied: rsync does not roll back. */
  lemma FailedPullKeepsCopies(p: Project, remote: string, env: TargetEnv)
    requires RemoteHeads(env.headQuery).Success? && env.push.Ok? && env.pull.Failed?
    ensures var m := MergePhase(remote, p.id, p.repo.reflog, env);
            && m.error == Some(env.pull.output)
            && Merged(p, m, env).repo == Pulled(p.repo, env.partial)
  {
  }

  /** As written, the pull runs without `-v`, so a successful pull prints no
      file names: no pack file is ever seen and no conflict tag is written. */
  lemma QuietPullNoTags(p: Project, remote: string, env: TargetEnv)
    requires RemoteHeads(env.headQuery).Success? && env.push.Ok?
    requires env.pull == Ok("")
    ensures MergePhase(remote, p.id, p.repo.reflog, env).conflicts == []
    ensures PushTags(RemoteRepo(remote, p.id)) !in MergePhase(remote, p.id, p.repo.reflog, env).trace
  {
    assert Strip("") == "";
    assert Lines("") == [];
    NoPackNoTags(p, remote, env);
  }

  /** A remote with no repository yet gives no heads, hence no tags. */
  lemma NewRemoteNoTags(remote: string, id: string, reflog: map<string, string>, env: TargetEnv)
    requires Contains(Tolerant(env.headQuery), NO_REPO_MSG)
    requires env.push.Ok? && env.pull.Ok?
    ensures MergePhase(remote, id, reflog, env).conflicts == []
    ensures MergePhase(remote, id, reflog, env).error.None?
  {
  }

  // ------------------------------------------------------------ fan-out

  /** The status record `sync` keeps for one target. */
  function StatusOf(host: string, res: Result<(), string>, env: TargetEnv): (s: SyncStatus)
    ensures s.host == host && s.elapsed.Some?
    ensures s.error.Some? <==> res.Failure?
    ensures s.error.Some? ==> s.error.value == res.error
  {
    SyncStatus(host, if res.Failure? then Some(res.error) else None, Some(env.finished - env.started))
  }

  /** The parts of the project one target's outcome depends on, apart from
      the reflog files the conflict test reads. */
  predicate SameView(p: Project, q: Project) {
    p.id == q.id && p.repo.live == q.repo.live && p.repo.settings == q.repo.settings
  }

  /** The conflict test runs on this target: the head query answers with
      heads and the pull lists a pack file. */
  predicate MayTag(env: TargetEnv) {
    && RemoteHeads(env.headQuery).Success?
    && |RemoteHeads(env.headQuery).value| > 0
    && PackPulled(Lines(Strip(env.pull.output)))
  }

  /** The merge branch, run from two sets of reflog files: the same steps
      run with the same outcomes, except that which conflict tags are
      written, and so whether the tags are pushed, can differ once the
      conflict test runs; what is raised can differ only through that tag
      push. */
  lemma MergeView(remote: string, id: string, a: map<string, string>, b: map<string, string>, env: TargetEnv)
    ensures !MayTag(env) ==> MergePhase(remote, id, a, env) == MergePhase(remote, id, b, env)
    ensures env.tagPush.Ok? ==> MergePhase(remote, id, a, env).error == MergePhase(remote, id, b, env).error
    ensures MergePhase(remote, id, a, env).pullRan == MergePhase(remote, id, b, env).pullRan
    ensures MergePhase(remote, id, a, env).pulled == MergePhase(remote, id, b, env).pulled
  {
  }

  /** What one target raises depends only on the project id, the live
      directory and the settings file, unless the conflict test runs and the
      tag push fails: then it also depends on the reflog files, which
      earlier targets' pulls can have changed. Without the conflict test,
      the effects are the same too. */
  lemma SyncTargetView(p: Project, q: Project, remote: string, destructive: bool, snapshots: bool, env: TargetEnv)
    requires SameView(p, q)
    ensures !MayTag(env) || env.tagPush.Ok? ==>
              SyncTarget(p, remote, destructive, snapshots, env).res == SyncTarget(q, remote, destructive, snapshots, env).res
    ensures !MayTag(env) ==>
              SyncTarget(p, remote, destructive, snapshots, env).trace == SyncTarget(q, remote, destructive, snapshots, env).trace
  {
    var live := LivePhase(p.repo.live, DiskSetting(p), remote, env);
    assert DiskSetting(p) == DiskSetting(q);
    if live.error.None? && snapshots && !destructive {
      MergeView(remote, p.id, p.repo.reflog, q.repo.reflog, env);
      MergeRun(p, remote, env);
      MergeRun(q, remote, env);
    }
  }

  /** The outcome of a merge sync, spelled out from its two phases. */
  lemma MergeRun(p: Project, remote: string, env: TargetEnv)
    requires LivePhase(p.repo.live, DiskSetting(p), remote, env).error.None?
    ensures var m := MergePhase(remote, p.id, p.repo.reflog, env);
            var r := SyncTarget(p, remote, false, true, env);
            && r.trace == LivePhase(p.repo.live, DiskSetting(p), remote, env).trace + m.trace
            && r.res == (if m.error.Some? then Failure(m.error.value) else Success(()))
  {
  }

  /** A project without a settings file takes the replica's settings with
      the first completed pull, so the disk value the next target's quota
      raise sends is the replica's. */
  lemma PulledSettingsFeedLaterTargets(p: Project, remote: string, env: TargetEnv)
    requires p.repo.settings.Missing?
    requires LivePhase(p.repo.live, DiskSetting(p), remote, env).error.None?
    requires MergePhase(remote, p.id, p.repo.reflog, env).pulled
    ensures DiskSetting(SyncTarget(p, remote, false, true, env).st) == Load(env.replica.settings)["disk"]
  {
    MergeSyncOutcome(p, remote, env);
  }

  /** The loop of `sync` from target `i` on: each target in turn, its
      exception caught into its own record. */
  function SyncFrom(p: Project, hosts: seq<string>, i: nat, destructive: bool, snapshots: bool, envs: nat -> TargetEnv): (r: Run<seq<SyncStatus>>)
    requires i <= |hosts|
    ensures r.res.Success? && |r.res.value| == |hosts| - i
    ensures forall k :: 0 <= k < |r.res.value| ==> r.res.value[k].host == hosts[i + k] && r.res.value[k].elapsed.Some?
    ensures OnlyAdds(p, r.st)
    decreases |hosts| - i
  {
    if i == |hosts| then Run(p, [], Success([]))
    else
      var one := SyncTarget(p, hosts[i], destructive, snapshots, envs(i));
      var rest := SyncFrom(one.st, hosts, i + 1, destructive, snapshots, envs);
      var statuses := [StatusOf(hosts[i], one.res, envs(i))] + rest.res.value;
      assert forall k :: 1 <= k < |statuses| ==> statuses[k] == rest.res.value[k - 1];
      Run(rest.st, one.trace + rest.trace, Success(statuses))
  }

  /** `sync(targets, destructive, snapshots)`: one record per comma-separated
      part of `targets`, in order, never raising. An empty `targets` gives
      the single record `{host: ''}` and replicates nothing. */
  function Sync(p: Project, targets: string, destructive: bool, snapshots: bool, envs: nat -> TargetEnv): (r: Run<seq<SyncStatus>>)
    ensures r.res.Success?
    ensures |r.res.value| == |SplitOn(targets, ',')|
    ensures forall k :: 0 <= k < |r.res.value| ==> r.res.value[k].host == SplitOn(targets, ',')[k]
    ensures targets == "" ==> r == Run(p, [], Success([SyncStatus("", None, None)]))
    ensures targets != "" ==> forall k :: 0 <= k < |r.res.value| ==> r.res.value[k].elapsed.Some?
    ensures OnlyAdds(p, r.st)
  {
    if targets == "" then
      assert SplitOn(targets, ',') == [""];
      Run(p, [], Success([SyncStatus("", None, None)]))
    else SyncFrom(p, SplitOn(targets, ','), 0, destructive, snapshots, envs)
  }

  /** The record the loop started at target `i` gives target `k`, as a
      reference definition: run the targets before `k` one by one, then
      record target `k`. */
  function RecordAt(p: Project, hosts: seq<string>, i: nat, k: nat, destructive: bool, snapshots: bool, envs: nat -> TargetEnv): SyncStatus
    requires i <= k < |hosts|
    decreases k - i
  {
    var one := SyncTarget(p, hosts[i], destructive, snapshots, envs(i));
    if k == i then StatusOf(hosts[i], one.res, envs(i))
    else RecordAt(one.st, hosts, i + 1, k, destructive, snapshots, envs)
  }

  /** The loop's records are the reference ones. */
  lemma {:induction false} SyncFromRecords(p: Project, hosts: seq<string>, i: nat, k: nat, destructive: bool, snapshots: bool, envs: nat -> TargetEnv)
    requires i <= k < |hosts|
    ensures SyncFrom(p, hosts, i, destructive, snapshots, envs).res.value[k - i] == RecordAt(p, hosts, i, k, destructive, snapshots, envs)
    decreases k - i
  {
    if k > i {
      var one := SyncTarget(p, hosts[i], destructive, snapshots, envs(i));
      SyncFromRecords(one.st, hosts, i + 1, k, destructive, snapshots, envs);
    }
  }

  /** One target leaves a project that has a settings file seen as it was. */
  lemma SyncTargetKeepsView(q: Project, p: Project, remote: string, destructive: bool, snapshots: bool, env: TargetEnv)
    requires !q.repo.settings.Missing? && SameView(q, p)
    ensures SameView(SyncTarget(q, remote, destructive, snapshots, env).st, p)
  {
  }

  /** From any state that looks like `p`, the reference record of target `k`
      is what replicating to that target alone from `p` gives, unless that
      target runs the conflict test and its tag push fails. */
  lemma {:induction false} RecordAtSeen(q: Project, p: Project, hosts: seq<string>, i: nat, k: nat, destructive: bool, snapshots: bool, envs: nat -> TargetEnv)
    requires i <= k < |hosts|
    requires !p.repo.settings.Missing? && SameView(q, p)
    ensures RecordAt(q, hosts, i, k, destructive, snapshots, envs)
              != StatusOf(hosts[k], SyncTarget(p, hosts[k], destructive, snapshots, envs(k)).res, envs(k))
            ==> MayTag(envs(k)) && envs(k).tagPush.Failed?
    decreases k - i
  {
    var one := SyncTarget(q, hosts[i], destructive, snapshots, envs(i));
    if k == i {
      assert RecordAt(q, hosts, i, k, destructive, snapshots, envs) == StatusOf(hosts[k], one.res, envs(k));
      SyncTargetView(q, p, hosts[k], destructive, snapshots, envs(k));
    } else {
      assert RecordAt(q, hosts, i, k, destructive, snapshots, envs) == RecordAt(one.st, hosts, i + 1, k, destructive, snapshots, envs);
      SyncTargetKeepsView(q, p, hosts[i], destructive, snapshots, envs(i));
      RecordAtSeen(one.st, p, hosts, i + 1, k, destructive, snapshots, envs);
    }
  }

  /** Isolation: the record of target `k` is what replicating to that target
      alone, from the starting state, would give, as long as the project has
      a settings file for a pull to leave alone. The one exception is a
      target that runs the conflict test and then fails to push its tags:
      which tags it writes depends on the reflog files earlier targets'
      pulls brought in. */
  lemma SyncFromIsolated(p: Project, hosts: seq<string>, i: nat, k: nat, destructive: bool, snapshots: bool, envs: nat -> TargetEnv)
    requires i <= k < |hosts|
    requires !p.repo.settings.Missing?
    ensures SyncFrom(p, hosts, i, destructive, snapshots, envs).res.value[k - i]
              != StatusOf(hosts[k], SyncTarget(p, hosts[k], destructive, snapshots, envs(k)).res, envs(k))
            ==> MayTag(envs(k)) && envs(k).tagPush.Failed?
  {
    SyncFromRecords(p, hosts, i, k, destructive, snapshots, envs);
    RecordAtSeen(p, p, hosts, i, k, destructive, snapshots, envs);
  }

  /** The isolation property for `sync` itself. */
  lemma SyncIsolated(p: Project, targets: string, k: nat, destructive: bool, snapshots: bool, envs: nat -> TargetEnv)
    requires targets != "" && k < |SplitOn(targets, ',')|
    requires !p.repo.settings.Missing?
    ensures var hosts := SplitOn(targets, ',');
            Sync(p, targets, destructive, snapshots, envs).res.value[k]
              != StatusOf(hosts[k], SyncTarget(p, hosts[k], destructive, snapshots, envs(k)).res, envs(k))
            ==> MayTag(envs(k)) && envs(k).tagPush.Failed?
  {
    SyncFromIsolated(p, SplitOn(targets, ','), 0, k, destructive, snapshots, envs);
  }

  /** Joining host names with commas and syncing gives one record per host,
      in the same order. */
  lemma SyncHostsInOrder(p: Project, hosts: seq<string>, destructive: bool, snapshots: bool, envs: nat -> TargetEnv)
    requires |hosts| >= 1 && forall i :: 0 <= i < |hosts| ==> ',' !in hosts[i]
    ensures var r := Sync(p, Join(hosts, ','), destructive, snapshots, envs);
            |r.res.value| == |hosts| && forall k :: 0 <= k < |hosts| ==> r.res.value[k].host == hosts[k]
  {
    SplitJoin(hosts, ',');
  }
}
