/** The system-prompt cache: a prompt built from workspace files that may be written, created and deleted while it is
    being built, and a later check by existence and modification time that decides whether it may be served again. */
module PromptCache {
  import opened Options

  /** The files the prompt depends on: the bootstrap and memory files, the skill roots, each skill's SKILL.md and the
      other files under a root. */
  datatype Path =
    | Agent | Soul | User | Agents | Identity | Memory
    | SkillRoot(name: string)
    | SkillDoc(root: string, dir: string)
    | SkillOther(root: string, rel: string)

  datatype File = File(mtime: int, content: string)

  datatype Files = Files(at: map<Path, File>, clock: int)

  const ZERO_TIME := -62135596800
  const UNIX_ONE := 1

  // ----- the file system moves on ----------------------------------------------------------

  /** Every change is stamped later than everything before it. */
  datatype Change = Write(path: Path, content: string, gap: nat) | Delete(gone: Path, gap: nat)

  function Apply(fs: Files, c: Change): Files {
    match c
    case Write(p, content, gap) =>
      Files(fs.at[p := File(fs.clock + 1 + gap, content)], fs.clock + 1 + gap)
    case Delete(p, gap) => Files(fs.at - {p}, fs.clock + 1 + gap)
  }

  function ApplyAll(fs: Files, changes: seq<Change>): Files
    decreases |changes|
  {
    if changes == [] then fs else ApplyAll(Apply(fs, changes[0]), changes[1..])
  }

  predicate Sound(fs: Files) {
    UNIX_ONE <= fs.clock && forall p :: p in fs.at ==> ZERO_TIME < fs.at[p].mtime <= fs.clock
  }

  /** What is left of `a` in a later state `b`: a file no newer than `a` is still the file it was. */
  ghost predicate Later(a: Files, b: Files) {
    && a.clock <= b.clock && (a.clock == b.clock ==> a == b)
    && forall p :: p in b.at && b.at[p].mtime <= a.clock ==> p in a.at && a.at[p] == b.at[p]
  }

  lemma {:induction false} ChangesAreLater(fs: Files, changes: seq<Change>)
    requires Sound(fs)
    ensures Sound(ApplyAll(fs, changes)) && Later(fs, ApplyAll(fs, changes))
    decreases |changes|
  {
    if changes != [] {
      var next := Apply(fs, changes[0]);
      assert Sound(next) && Later(fs, next);
      ChangesAreLater(next, changes[1..]);
    }
  }

  // ----- what a prompt is made of ----------------------------------------------------------

  /** What the build read. A skill is listed when its file was there; its text is missing when the read then failed. */
  datatype Sources = Sources(
    user: Option<string>,
    agent: Option<string>,
    legacy: Option<string>,
    soul: Option<string>,
    identity: Option<string>,
    skills: map<Path, Option<string>>,
    memory: Option<string>)

  function Content(fs: Files, p: Path): Option<string> {
    if p in fs.at then Some(fs.at[p].content) else None
  }

  predicate IsSkill(p: Path, roots: seq<string>) {
    p.SkillDoc? && p.root in roots
  }

  function SkillsOf(fs: Files, roots: seq<string>): map<Path, Option<string>> {
    map p | p in fs.at && IsSkill(p, roots) :: Some(fs.at[p].content)
  }

  /** A fresh build from one state of the files. AGENTS.md and IDENTITY.md count only without AGENT.md. */
  function SourcesOf(fs: Files, roots: seq<string>): Sources {
    var plain := Agent !in fs.at;
    Sources(Content(fs, User), Content(fs, Agent), if plain then Content(fs, Agents) else None, Content(fs, Soul),
            if plain then Content(fs, Identity) else None, SkillsOf(fs, roots), Content(fs, Memory))
  }

  // ----- the change check ------------------------------------------------------------------

  function TrackedPaths(agent: Option<string>): seq<Path> {
    [Agent, Soul, User] + (if agent.Some? then [] else [Agents, Identity]) + [Memory]
  }

  function RootPaths(roots: seq<string>): seq<Path> {
    seq(|roots|, i requires 0 <= i < |roots| => SkillRoot(roots[i]))
  }

  datatype Baseline = Baseline(cachedAt: int, existed: Option<map<Path, bool>>, skillFiles: Option<map<Path, int>>)

  predicate ExistedAt(b: Baseline, p: Path) {
    b.existed.Some? && p in b.existed.value && b.existed.value[p]
  }

  predicate FileChanged(b: Baseline, fs: Files, p: Path) {
    || b.existed.None?
    || ExistedAt(b, p) != (p in fs.at)
    || (p in fs.at && b.cachedAt < fs.at[p].mtime)
  }

  predicate Under(p: Path, roots: seq<string>) {
    (p.SkillDoc? || p.SkillOther?) && p.root in roots
  }

  predicate SkillFilesChanged(b: Baseline, fs: Files, roots: seq<string>) {
    || b.skillFiles.None?
    || (exists p :: p in b.skillFiles.value && (p !in fs.at || fs.at[p].mtime != b.skillFiles.value[p]))
    || (exists p :: p in fs.at && Under(p, roots) && p !in b.skillFiles.value)
  }

  predicate Changed(b: Baseline, fs: Files, roots: seq<string>) {
    || b.cachedAt == ZERO_TIME
    || (exists p :: p in TrackedPaths(Content(fs, Agent)) && FileChanged(b, fs, p))
    || (exists p :: p in RootPaths(roots) && FileChanged(b, fs, p))
    || SkillFilesChanged(b, fs, roots)
  }

  // ----- what the build knows about the present --------------------------------------------

  /** If the file at `p` is no newer than `limit`, then `got` is its text. */
  ghost predicate Held(got: Option<string>, p: Path, limit: int, fs: Files) {
    p in fs.at && fs.at[p].mtime <= limit ==> got == Some(fs.at[p].content)
  }

  function GotSkill(skills: map<Path, Option<string>>, p: Path): Option<string> {
    if p in skills then skills[p] else None
  }

  ghost predicate SkillsHeld(skills: map<Path, Option<string>>, roots: seq<string>, limit: int, fs: Files) {
    forall p :: IsSkill(p, roots) ==> Held(GotSkill(skills, p), p, limit, fs)
  }

  /** Every read since the clock stood at `limit` still shows the files that are no newer than that. */
  ghost predicate Faithful(seen: Sources, roots: seq<string>, limit: int, fs: Files) {
    && (seen.agent.Some? ==> seen.legacy.None? && seen.identity.None?)
    && (forall p :: p in seen.skills ==> IsSkill(p, roots))
    && Held(seen.user, User, limit, fs) && Held(seen.agent, Agent, limit, fs) && Held(seen.soul, Soul, limit, fs)
    && Held(seen.memory, Memory, limit, fs)
    && (seen.agent.None? ==> Held(seen.legacy, Agents, limit, fs) && Held(seen.identity, Identity, limit, fs))
    && SkillsHeld(seen.skills, roots, limit, fs)
  }

  predicate Lost(got: Option<string>, p: Path, fs: Files) {
    got.Some? && p !in fs.at
  }

  /** Something was there when it was read and is not there now. */
  predicate Vanished(seen: Sources, fs: Files) {
    || Lost(seen.user, User, fs) || Lost(seen.agent, Agent, fs) || Lost(seen.legacy, Agents, fs)
    || Lost(seen.soul, Soul, fs) || Lost(seen.identity, Identity, fs) || Lost(seen.memory, Memory, fs)
    || exists p :: p in seen.skills && p !in fs.at
  }

  lemma HeldLater(got: Option<string>, p: Path, limit: int, a: Files, b: Files)
    requires Held(got, p, limit, a) && Later(a, b) && limit <= a.clock
    ensures Held(got, p, limit, b)
  {
  }

  lemma FaithfulLater(seen: Sources, roots: seq<string>, limit: int, a: Files, b: Files)
    requires Faithful(seen, roots, limit, a) && Later(a, b) && limit <= a.clock
    ensures Faithful(seen, roots, limit, b)
  {
    hide Held, Later;
    forall got, p | Held(got, p, limit, a)
      ensures Held(got, p, limit, b)
    {
      HeldLater(got, p, limit, a, b);
    }
  }

  /** When no file the prompt depends on is newer than the limit, what was read is current exactly if nothing that
      was read has gone since. */
  lemma OldFilesExact(seen: Sources, roots: seq<string>, limit: int, fs: Files)
    requires Faithful(seen, roots, limit, fs)
    requires forall p :: p in fs.at && (p in TrackedPaths(Content(fs, Agent)) || IsSkill(p, roots)) ==> fs.at[p].mtime <= limit
    ensures seen == SourcesOf(fs, roots) <==> !Vanished(seen, fs)
  {
    var tracked := TrackedPaths(Content(fs, Agent));
    assert tracked[0] == Agent && tracked[1] == Soul && tracked[2] == User && tracked[|tracked| - 1] == Memory;
    if Agent !in fs.at {
      assert tracked[3] == Agents && tracked[4] == Identity;
    }
    if !Vanished(seen, fs) {
      assert seen.user == Content(fs, User) && seen.agent == Content(fs, Agent);
      assert seen.soul == Content(fs, Soul) && seen.memory == Content(fs, Memory);
      OldSkillsExact(seen, roots, limit, fs);
    }
  }

  lemma OldSkillsExact(seen: Sources, roots: seq<string>, limit: int, fs: Files)
    requires SkillsHeld(seen.skills, roots, limit, fs)
    requires forall p :: p in seen.skills ==> IsSkill(p, roots) && p in fs.at
    requires forall p :: p in fs.at && IsSkill(p, roots) ==> fs.at[p].mtime <= limit
    ensures seen.skills == SkillsOf(fs, roots)
  {
    forall p | IsSkill(p, roots)
      ensures p in seen.skills <==> p in fs.at
      ensures p in seen.skills ==> seen.skills[p] == Some(fs.at[p].content)
    {
      assert Held(GotSkill(seen.skills, p), p, limit, fs);
    }
  }

  /** The cache is sound: when the check passes, the cached reads are those of a fresh build now, whatever was written
      during and after the build, if and only if nothing that was read has vanished. */
  lemma CheckExact(b: Baseline, seen: Sources, roots: seq<string>, limit: int, fs: Files)
    requires Faithful(seen, roots, limit, fs) && b.cachedAt <= limit
    requires b.skillFiles.Some? ==> forall p :: p in b.skillFiles.value ==> b.skillFiles.value[p] <= limit
    requires !Changed(b, fs, roots)
    ensures seen == SourcesOf(fs, roots) <==> !Vanished(seen, fs)
  {
    forall p | p in fs.at && (p in TrackedPaths(Content(fs, Agent)) || IsSkill(p, roots))
      ensures fs.at[p].mtime <= limit
    {
      if p in TrackedPaths(Content(fs, Agent)) {
        assert !FileChanged(b, fs, p);
      }
    }
    OldFilesExact(seen, roots, limit, fs);
  }

  /** The check passes over a vanished file only if the baseline had not seen it: it came and went in between. */
  lemma VanishedWasNew(b: Baseline, seen: Sources, roots: seq<string>, limit: int, fs: Files, p: Path)
    requires Faithful(seen, roots, limit, fs) && !Changed(b, fs, roots)
    requires
      || (p == User && Lost(seen.user, p, fs)) || (p == Agent && Lost(seen.agent, p, fs))
      || (p == Soul && Lost(seen.soul, p, fs)) || (p == Memory && Lost(seen.memory, p, fs))
      || (p == Agents && Agent !in fs.at && Lost(seen.legacy, p, fs))
      || (p == Identity && Agent !in fs.at && Lost(seen.identity, p, fs))
      || (p in seen.skills && p !in fs.at)
    ensures !ExistedAt(b, p) || IsSkill(p, roots)
    ensures IsSkill(p, roots) ==> p !in b.skillFiles.value
  {
    var tracked := TrackedPaths(Content(fs, Agent));
    assert tracked[0] == Agent && tracked[1] == Soul && tracked[2] == User && tracked[|tracked| - 1] == Memory;
    if Agent !in fs.at {
      assert tracked[3] == Agents && tracked[4] == Identity;
    }
    if !IsSkill(p, roots) {
      assert p in tracked && !FileChanged(b, fs, p);
    }
  }

  /** The gap is real, and as wide as that: from any state that passes the check without a USER.md, one that is created
      for a while, read by the build and deleted again leaves a stale prompt that the check still passes. */
  lemma TransientFileStaysCached(b: Baseline, roots: seq<string>, start: Files, content: string, gap: nat, rest: nat)
    requires Sound(start) && !Changed(b, start, roots) && User !in start.at
    ensures var during := Apply(start, Write(User, content, gap));
            var after := Apply(during, Delete(User, rest));
            !Changed(b, after, roots) && SourcesOf(during, roots) != SourcesOf(after, roots)
  {
    var during := Apply(start, Write(User, content, gap));
    var after := Apply(during, Delete(User, rest));
    assert after.at == start.at;
    assert Content(after, Agent) == Content(start, Agent);
    forall p | FileChanged(b, after, p)
      ensures FileChanged(b, start, p)
    {
    }
    assert SourcesOf(during, roots).user == Some(content) && SourcesOf(after, roots).user == None;
  }

  /** A baseline taken while nothing changed passes its own check. */
  lemma QuietBaseline(b: Baseline, agent: Option<string>, newest: int, fs: Files, roots: seq<string>)
    requires b.existed.Some? && b.skillFiles.Some? && newest <= b.cachedAt != ZERO_TIME && agent == Content(fs, Agent)
    requires forall p :: p in TrackedPaths(agent) + RootPaths(roots) ==>
               && p in b.existed.value && b.existed.value[p] == (p in fs.at)
               && (p in fs.at ==> fs.at[p].mtime <= newest)
    requires forall p :: p in fs.at && Under(p, roots) ==> p in b.skillFiles.value
    requires forall p :: p in b.skillFiles.value ==> p in fs.at && b.skillFiles.value[p] == fs.at[p].mtime
    ensures !Changed(b, fs, roots)
  {
    forall p | p in TrackedPaths(agent) || p in RootPaths(roots)
      ensures !FileChanged(b, fs, p)
    {
      assert p in TrackedPaths(agent) + RootPaths(roots);
    }
  }

  /** The files a prompt for these skill roots depends on: AGENTS.md and IDENTITY.md only without AGENT.md, and everything
      under a skill root, not only the SKILL.md files. */
  predicate Watched(p: Path, fs: Files, roots: seq<string>) {
    match p
    case Agent => true
    case Soul => true
    case User => true
    case Memory => true
    case Agents => Agent !in fs.at
    case Identity => Agent !in fs.at
    case SkillRoot(root) => root in roots
    case SkillDoc(root, _) => root in roots
    case SkillOther(root, _) => root in roots
  }

  /** Created, deleted or written again. */
  predicate Differs(p: Path, a: Files, b: Files) {
    (p in a.at) != (p in b.at) || (p in a.at && a.at[p].mtime != b.at[p].mtime)
  }

  /** The baseline records the state `fs`: which paths exist, the time of every file under a root, and a time that no
      watched file exceeds. */
  ghost predicate Records(b: Baseline, fs: Files, roots: seq<string>) {
    && b.existed.Some? && b.skillFiles.Some? && ZERO_TIME < b.cachedAt <= fs.clock
    && (forall p :: Watched(p, fs, roots) && !Under(p, roots) ==>
          p in b.existed.value && b.existed.value[p] == (p in fs.at) && (p in fs.at ==> fs.at[p].mtime <= b.cachedAt))
    && (forall p :: p in b.skillFiles.value <==> p in fs.at && Watched(p, fs, roots) && Under(p, roots))
    && (forall p :: p in b.skillFiles.value ==> b.skillFiles.value[p] == fs.at[p].mtime)
  }

  /** The check reports a change exactly if a file the prompt depends on was created, deleted or written since: nothing is
      missed, and nothing else makes it rebuild. */
  lemma CheckReports(b: Baseline, a: Files, fs: Files, roots: seq<string>)
    requires Records(b, a, roots) && Later(a, fs)
    ensures Changed(b, fs, roots) <==> exists p :: Watched(p, fs, roots) && Differs(p, a, fs)
  {
    if Differs(Agent, a, fs) {
      assert Watched(Agent, fs, roots) && FileChanged(b, fs, Agent) && TrackedPaths(Content(fs, Agent))[0] == Agent;
    } else {
      forall p | Watched(p, fs, roots) && !Under(p, roots)
        ensures p in TrackedPaths(Content(fs, Agent)) || p in RootPaths(roots)
        ensures FileChanged(b, fs, p) <==> Differs(p, a, fs)
      {
        TrackedIff(p, fs, roots);
        assert Watched(p, a, roots);
      }
      forall p | p in TrackedPaths(Content(fs, Agent)) || p in RootPaths(roots)
        ensures Watched(p, fs, roots) && !Under(p, roots)
      {
        TrackedIff(p, fs, roots);
      }
      SkillsReport(b, a, fs, roots);
      if p :| Watched(p, fs, roots) && Differs(p, a, fs) {
        assert Under(p, roots) || FileChanged(b, fs, p);
      }
    }
  }

  lemma TrackedIff(p: Path, fs: Files, roots: seq<string>)
    ensures p in TrackedPaths(Content(fs, Agent)) || p in RootPaths(roots) <==> Watched(p, fs, roots) && !Under(p, roots)
  {
    var tracked, dirs := TrackedPaths(Content(fs, Agent)), RootPaths(roots);
    assert tracked[0] == Agent && tracked[1] == Soul && tracked[2] == User && tracked[|tracked| - 1] == Memory;
    if Agent !in fs.at {
      assert tracked[3] == Agents && tracked[4] == Identity;
    }
    if p.SkillRoot? && p.name in roots {
      var i :| 0 <= i < |roots| && roots[i] == p.name;
      assert dirs[i] == p;
    }
  }

  lemma SkillsReport(b: Baseline, a: Files, fs: Files, roots: seq<string>)
    requires Records(b, a, roots) && (Agent in a.at <==> Agent in fs.at)
    ensures SkillFilesChanged(b, fs, roots) <==> exists p :: Under(p, roots) && Watched(p, fs, roots) && Differs(p, a, fs)
  {
    forall p | Under(p, roots)
      ensures Watched(p, fs, roots) && Watched(p, a, roots)
    {
    }
    if p :| p in b.skillFiles.value && (p !in fs.at || fs.at[p].mtime != b.skillFiles.value[p]) {
      assert Under(p, roots) && Differs(p, a, fs);
    }
    if p :| p in fs.at && Under(p, roots) && p !in b.skillFiles.value {
      assert Differs(p, a, fs);
    }
  }

  /** From `a` to `b` time passed, and nothing older than `limit` that was known is forgotten. */
  ghost predicate Since(a: Files, b: Files, limit: int) {
    && Sound(b) && Later(a, b)
    && forall got, q :: Held(got, q, limit, a) ==> Held(got, q, limit, b)
  }

  lemma LaterIsSince(a: Files, b: Files, limit: int)
    requires Sound(b) && Later(a, b) && limit <= a.clock
    ensures Since(a, b, limit)
  {
    hide Later;
    forall got, q | Held(got, q, limit, a)
      ensures Held(got, q, limit, b)
    {
      HeldLater(got, q, limit, a, b);
    }
  }

  lemma SinceThen(a: Files, b: Files, c: Files, limit: int)
    requires Since(a, b, limit) && Since(b, c, limit)
    ensures Since(a, c, limit) && a.clock <= b.clock <= c.clock && (a == c ==> b == a)
  {
    hide Held;
  }

  lemma SinceClock(a: Files, b: Files, limit: int)
    requires Since(a, b, limit)
    ensures a.clock <= b.clock
  {
  }

  lemma LaterSame(a: Files)
    ensures Later(a, a)
  {
  }

  lemma AbsentIsHeld(got: Option<string>, p: Path, limit: int, fs: Files)
    requires p !in fs.at
    ensures Held(got, p, limit, fs)
  {
  }

  // ----- the builder -----------------------------------------------------------------------

  /** The files as other processes change them: one batch of changes before each access. */
  class Workspace {
    var files: Files
    var schedule: seq<seq<Change>>

    constructor (files: Files, schedule: seq<seq<Change>>)
      ensures this.files == files && this.schedule == schedule
    {
      this.files, this.schedule := files, schedule;
    }

    method Elapse()
      requires Sound(files)
      modifies this
      ensures Sound(files) && Later(old(files), files)
    {
      if schedule != [] {
        ChangesAreLater(files, schedule[0]);
        files := ApplyAll(files, schedule[0]);
        schedule := schedule[1..];
      }
    }

    /** The modification time, if the file is there. */
    method Stat(p: Path, ghost limit: int) returns (mtime: Option<int>)
      requires Sound(files) && limit <= files.clock
      modifies this
      ensures Since(old(files), files, limit)
      ensures mtime == if p in files.at then Some(files.at[p].mtime) else None
    {
      Elapse();
      LaterIsSince(old(files), files, limit);
      return if p in files.at then Some(files.at[p].mtime) else None;
    }

    method ReadFile(p: Path, ghost limit: int) returns (content: Option<string>)
      requires Sound(files) && limit <= files.clock
      modifies this
      ensures Since(old(files), files, limit)
      ensures content == Content(files, p) && Held(content, p, limit, files) && (content.Some? ==> p in files.at)
    {
      Elapse();
      LaterIsSince(old(files), files, limit);
      return Content(files, p);
    }
  }

  class ContextBuilder {
    const workspace: Workspace
    const roots: seq<string>
    const render: Sources -> string

    var cachedSystemPrompt: string
    var cachedAt: int
    var existedAtCache: Option<map<Path, bool>>
    var skillFilesAtCache: Option<map<Path, int>>

    /** What the cached prompt was built from, and the clock when its baseline was complete. */
    ghost var seen: Sources
    ghost var limit: int

    function Base(): Baseline
      reads this
    {
      Baseline(cachedAt, existedAtCache, skillFilesAtCache)
    }

    ghost predicate Valid()
      reads this, workspace
    {
      && Sound(workspace.files)
      && (cachedSystemPrompt != "" ==>
            && cachedSystemPrompt == render(seen)
            && cachedAt <= limit <= workspace.files.clock
            && (skillFilesAtCache.Some? ==> forall p :: p in skillFilesAtCache.value ==> skillFilesAtCache.value[p] <= limit)
            && Faithful(seen, roots, limit, workspace.files))
    }

    constructor (workspace: Workspace, roots: seq<string>, render: Sources -> string)
      requires Sound(workspace.files)
      ensures Valid() && cachedSystemPrompt == "" && this.workspace == workspace && this.roots == roots
    {
      this.workspace, this.roots, this.render := workspace, roots, render;
      cachedSystemPrompt, cachedAt, existedAtCache, skillFilesAtCache := "", ZERO_TIME, None, None;
    }

    /** Time passes; the cache stays what it claims to be. */
    method Elapse()
      requires Valid()
      modifies workspace
      ensures Valid() && Later(old(workspace.files), workspace.files)
    {
      workspace.Elapse();
      if cachedSystemPrompt != "" {
        FaithfulLater(seen, roots, limit, old(workspace.files), workspace.files);
      }
    }

    method InvalidateCache()
      requires Valid()
      modifies this
      ensures Valid() && cachedSystemPrompt == "" && Changed(Base(), workspace.files, roots)
    {
      cachedSystemPrompt, cachedAt, existedAtCache, skillFilesAtCache := "", ZERO_TIME, None, None;
    }

    method FileChangedSince(path: Path) returns (changed: bool)
      ensures changed == FileChanged(Base(), workspace.files, path)
    {
      if existedAtCache.None? {
        return true;
      }
      var existedBefore := path in existedAtCache.value && existedAtCache.value[path];
      var existsNow := path in workspace.files.at;
      if existedBefore != existsNow {
        return true;
      }
      if !existsNow {
        return false;
      }
      return workspace.files.at[path].mtime > cachedAt;
    }

    method AnyFileChanged(paths: seq<Path>) returns (changed: bool)
      ensures changed <==> exists p :: p in paths && FileChanged(Base(), workspace.files, p)
    {
      for i := 0 to |paths|
        invariant forall k :: 0 <= k < i ==> !FileChanged(Base(), workspace.files, paths[k])
      {
        var c := FileChangedSince(paths[i]);
        if c {
          return true;
        }
      }
      return false;
    }

    method SkillFilesChangedSince() returns (changed: bool)
      ensures changed == SkillFilesChanged(Base(), workspace.files, roots)
    {
      if skillFilesAtCache.None? {
        return true;
      }
      var snapshot, files := skillFilesAtCache.value, workspace.files.at;
      var left := snapshot.Keys;
      while left != {}
        invariant left <= snapshot.Keys
        invariant forall p :: p in snapshot && p !in left ==> p in files && files[p].mtime == snapshot[p]
      {
        var p :| p in left;
        if p !in files || files[p].mtime != snapshot[p] {
          return true;
        }
        left := left - {p};
      }
      left := set p | p in files && Under(p, roots);
      while left != {}
        invariant left <= files.Keys && forall p :: p in left ==> Under(p, roots)
        invariant forall p :: p in files && Under(p, roots) && p !in left ==> p in snapshot
      {
        var p :| p in left;
        if p !in snapshot {
          return true;
        }
        left := left - {p};
      }
      return false;
    }

    method SourceFilesChangedLocked() returns (changed: bool)
      ensures changed == Changed(Base(), workspace.files, roots)
    {
      if cachedAt == ZERO_TIME {
        return true;
      }
      changed := AnyFileChanged(TrackedPaths(Content(workspace.files, Agent)));
      if changed {
        return true;
      }
      changed := AnyFileChanged(RootPaths(roots));
      if changed {
        return true;
      }
      changed := SkillFilesChangedSince();
    }

    // ----- baseline ------------------------------------------------------------------------

    /** Existence and latest modification time of each path, one stat at a time. */
    method StatPaths(paths: seq<Path>) returns (existed: map<Path, bool>, maxMtime: int)
      requires Sound(workspace.files)
      modifies workspace
      ensures Sound(workspace.files) && Later(old(workspace.files), workspace.files)
      ensures ZERO_TIME <= maxMtime <= workspace.files.clock
      ensures workspace.files == old(workspace.files) ==>
                forall p :: p in paths ==>
                  && p in existed && existed[p] == (p in workspace.files.at)
                  && (p in workspace.files.at ==> workspace.files.at[p].mtime <= maxMtime)
    {
      existed, maxMtime := map[], ZERO_TIME;
      for i := 0 to |paths|
        invariant Sound(workspace.files) && Later(old(workspace.files), workspace.files)
        invariant ZERO_TIME <= maxMtime <= workspace.files.clock
        invariant workspace.files == old(workspace.files) ==>
                    forall p :: p in paths[..i] ==>
                      && p in existed && existed[p] == (p in workspace.files.at)
                      && (p in workspace.files.at ==> workspace.files.at[p].mtime <= maxMtime)
      {
        var mtime := workspace.Stat(paths[i], workspace.files.clock);
        existed := existed[paths[i] := mtime.Some?];
        if mtime.Some? && mtime.value > maxMtime {
          maxMtime := mtime.value;
        }
      }
      assert paths[..|paths|] == paths;
    }

    /** Walks one skill root: lists its files, then stats each. */
    method WalkRoot(root: string, known: map<Path, int>, newest: int) returns (skillFiles: map<Path, int>, maxMtime: int)
      requires Sound(workspace.files) && ZERO_TIME <= newest <= workspace.files.clock
      requires forall p :: p in known ==> known[p] <= workspace.files.clock
      modifies workspace
      ensures Sound(workspace.files) && Later(old(workspace.files), workspace.files)
      ensures newest <= maxMtime <= workspace.files.clock
      ensures forall p :: p in skillFiles ==> skillFiles[p] <= workspace.files.clock
      ensures workspace.files == old(workspace.files) ==>
                && (forall p :: p in known ==> p in skillFiles)
                && (forall p :: p in workspace.files.at && Under(p, [root]) ==> p in skillFiles)
                && (forall p :: p in skillFiles ==>
                      || (p in known && skillFiles[p] == known[p])
                      || (p in workspace.files.at && skillFiles[p] == workspace.files.at[p].mtime))
    {
      skillFiles, maxMtime := known, newest;
      workspace.Elapse();
      var listed := set p | p in workspace.files.at && Under(p, [root]);
      while listed != {}
        invariant Sound(workspace.files) && Later(old(workspace.files), workspace.files)
        invariant newest <= maxMtime <= workspace.files.clock
        invariant forall p :: p in skillFiles ==> skillFiles[p] <= workspace.files.clock
        invariant workspace.files == old(workspace.files) ==>
                    && (forall p :: p in known ==> p in skillFiles)
                    && (forall p :: p in workspace.files.at && Under(p, [root]) && p !in listed ==> p in skillFiles)
                    && (forall p :: p in skillFiles ==>
                          || (p in known && skillFiles[p] == known[p])
                          || (p in workspace.files.at && skillFiles[p] == workspace.files.at[p].mtime))
        decreases |listed|
      {
        var p :| p in listed;
        listed := listed - {p};
        var mtime := workspace.Stat(p, workspace.files.clock);
        if mtime.Some? {
          skillFiles := skillFiles[p := mtime.value];
          if mtime.value > maxMtime {
            maxMtime := mtime.value;
          }
        }
      }
    }

    method BuildCacheBaseline() returns (baseline: Baseline)
      requires Sound(workspace.files)
      modifies workspace
      ensures Sound(workspace.files) && Later(old(workspace.files), workspace.files)
      ensures baseline.existed.Some? && baseline.skillFiles.Some? && baseline.cachedAt <= workspace.files.clock
      ensures forall p :: p in baseline.skillFiles.value ==> baseline.skillFiles.value[p] <= workspace.files.clock
      ensures workspace.files == old(workspace.files) ==> !Changed(baseline, workspace.files, roots)
    {
      hide Held;
      var agent := workspace.ReadFile(Agent, workspace.files.clock);
      var paths := TrackedPaths(agent) + RootPaths(roots);
      var existed, newest := StatPaths(paths);
      ghost var before := workspace.files;
      var skillFiles, maxMtime := WalkRoots(newest);
      if maxMtime == ZERO_TIME {
        maxMtime := UNIX_ONE;
      }
      baseline := Baseline(maxMtime, Some(existed), Some(skillFiles));
      if workspace.files == old(workspace.files) {
        QuietBaseline(baseline, agent, newest, workspace.files, roots);
      }
    }

    method WalkRoots(newest: int) returns (skillFiles: map<Path, int>, maxMtime: int)
      requires Sound(workspace.files) && ZERO_TIME <= newest <= workspace.files.clock
      modifies workspace
      ensures Sound(workspace.files) && Later(old(workspace.files), workspace.files)
      ensures newest <= maxMtime <= workspace.files.clock
      ensures forall p :: p in skillFiles ==> skillFiles[p] <= workspace.files.clock
      ensures workspace.files == old(workspace.files) ==>
                && (forall p :: p in workspace.files.at && Under(p, roots) ==> p in skillFiles)
                && (forall p :: p in skillFiles ==> p in workspace.files.at && skillFiles[p] == workspace.files.at[p].mtime)
    {
      skillFiles, maxMtime := map[], newest;
      for i := 0 to |roots|
        invariant Sound(workspace.files) && Later(old(workspace.files), workspace.files)
        invariant newest <= maxMtime <= workspace.files.clock
        invariant forall p :: p in skillFiles ==> skillFiles[p] <= workspace.files.clock
        invariant workspace.files == old(workspace.files) ==>
                    && (forall p :: p in workspace.files.at && Under(p, roots[..i]) ==> p in skillFiles)
                    && (forall p :: p in skillFiles ==> p in workspace.files.at && skillFiles[p] == workspace.files.at[p].mtime)
      {
        skillFiles, maxMtime := WalkRoot(roots[i], skillFiles, maxMtime);
      }
      assert roots[..|roots|] == roots;
    }

    // ----- the build -----------------------------------------------------------------------

    /** Lists each root's skills, then looks at each skill's file. */
    method ReadSkills(ghost limit: int) returns (skills: map<Path, Option<string>>)
      requires Sound(workspace.files) && limit <= workspace.files.clock
      modifies workspace
      ensures Since(old(workspace.files), workspace.files, limit)
      ensures forall p :: p in skills ==> IsSkill(p, roots)
      ensures SkillsHeld(skills, roots, limit, workspace.files)
      ensures workspace.files == old(workspace.files) ==> forall p :: p in skills ==> p in workspace.files.at
    {
      hide Later, Held, Sound;
      ghost var start := workspace.files;
      LaterSame(start);
      LaterIsSince(start, start, limit);
      skills := map[];
      for i := 0 to |roots|
        invariant Since(start, workspace.files, limit) && limit <= start.clock <= workspace.files.clock
        invariant forall p :: p in skills ==> IsSkill(p, roots)
        invariant SkillsHeld(skills, roots[..i], limit, workspace.files)
        invariant workspace.files == start ==> forall p :: p in skills ==> p in workspace.files.at
      {
        ghost var before := workspace.files;
        skills := ReadRoot(roots[i], roots[..i], skills, limit);
        SinceThen(start, before, workspace.files, limit);
        assert roots[..i] + [roots[i]] == roots[..i + 1];
      }
      assert roots[..|roots|] == roots;
    }

    method ReadRoot(root: string, ghost before: seq<string>, known: map<Path, Option<string>>, ghost limit: int)
      returns (skills: map<Path, Option<string>>)
      requires Sound(workspace.files) && limit <= workspace.files.clock
      requires SkillsHeld(known, before, limit, workspace.files)
      modifies workspace
      ensures Since(old(workspace.files), workspace.files, limit)
      ensures forall p :: p in skills ==> p in known || IsSkill(p, [root])
      ensures SkillsHeld(skills, before + [root], limit, workspace.files)
      ensures workspace.files == old(workspace.files) ==> forall p :: p in skills && p !in known ==> p in workspace.files.at
    {
      hide Later, Held, Sound;
      ghost var start := workspace.files;
      skills := known;
      var _ := workspace.Stat(SkillRoot(root), limit);
      ghost var now := workspace.files;
      SinceClock(start, now, limit);
      LaterSame(now);
      LaterIsSince(now, now, limit);
      SinceThen(start, now, now, limit);
      var listed := set p | p in workspace.files.at && IsSkill(p, [root]);
      forall p | IsSkill(p, before + [root]) && p !in listed
        ensures Held(GotSkill(skills, p), p, limit, now)
      {
        if !IsSkill(p, before) {
          AbsentIsHeld(GotSkill(skills, p), p, limit, now);
        }
      }
      while listed != {}
        invariant Since(start, workspace.files, limit) && limit <= start.clock <= workspace.files.clock
        invariant forall p :: p in listed ==> IsSkill(p, [root])
        invariant forall p :: p in skills ==> p in known || IsSkill(p, [root])
        invariant forall p :: IsSkill(p, before + [root]) && p !in listed ==> Held(GotSkill(skills, p), p, limit, workspace.files)
        invariant workspace.files == start ==> forall p :: p in skills && p !in known ==> p in workspace.files.at
        decreases |listed|
      {
        var p :| p in listed;
        listed := listed - {p};
        now := workspace.files;
        var found := workspace.Stat(p, limit);
        SinceThen(start, now, workspace.files, limit);
        if found.Some? {
          now := workspace.files;
          var content := workspace.ReadFile(p, limit);
          SinceThen(start, now, workspace.files, limit);
          skills := skills[p := content];
        } else {
          AbsentIsHeld(GotSkill(skills, p), p, limit, workspace.files);
        }
      }
    }

    /** The agent's own files, in the order and on the branches of the definition loader. */
    method LoadBootstrapFiles(ghost limit: int)
      returns (user: Option<string>, agent: Option<string>, legacy: Option<string>, soul: Option<string>,
               identity: Option<string>)
      requires Sound(workspace.files) && limit <= workspace.files.clock
      modifies workspace
      ensures Since(old(workspace.files), workspace.files, limit)
      ensures agent.Some? ==> legacy.None? && identity.None?
      ensures Held(user, User, limit, workspace.files) && Held(agent, Agent, limit, workspace.files)
      ensures Held(soul, Soul, limit, workspace.files)
      ensures agent.None? ==> Held(legacy, Agents, limit, workspace.files) && Held(identity, Identity, limit, workspace.files)
      ensures workspace.files == old(workspace.files) ==>
                && !Lost(user, User, workspace.files) && !Lost(agent, Agent, workspace.files)
                && !Lost(legacy, Agents, workspace.files) && !Lost(soul, Soul, workspace.files)
                && !Lost(identity, Identity, workspace.files)
    {
      hide Later, Held, Sound, Content;
      ghost var start := workspace.files;
      user := workspace.ReadFile(User, limit);
      SinceClock(start, workspace.files, limit);
      ghost var now := workspace.files;
      agent := workspace.ReadFile(Agent, limit);
      SinceThen(start, now, workspace.files, limit);
      legacy, soul, identity := None, None, None;
      now := workspace.files;
      if agent.Some? {
        soul := workspace.ReadFile(Soul, limit);
        SinceThen(start, now, workspace.files, limit);
      } else {
        legacy := workspace.ReadFile(Agents, limit);
        SinceThen(start, now, workspace.files, limit);
        var there := legacy.Some?;
        if !there {
          now := workspace.files;
          var found := workspace.Stat(Soul, limit);
          SinceThen(start, now, workspace.files, limit);
          there := found.Some?;
        }
        if there {
          now := workspace.files;
          soul := workspace.ReadFile(Soul, limit);
          SinceThen(start, now, workspace.files, limit);
        } else {
          AbsentIsHeld(soul, Soul, limit, workspace.files);
        }
        now := workspace.files;
        identity := workspace.ReadFile(Identity, limit);
        SinceThen(start, now, workspace.files, limit);
      }
    }

    method BuildSystemPrompt(ghost limit: int) returns (prompt: string, ghost read: Sources)
      requires Sound(workspace.files) && limit <= workspace.files.clock
      modifies workspace
      ensures Sound(workspace.files) && Later(old(workspace.files), workspace.files)
      ensures prompt == render(read) && Faithful(read, roots, limit, workspace.files)
      ensures workspace.files == old(workspace.files) ==> !Vanished(read, workspace.files)
    {
      hide Later, Held, Sound;
      ghost var start := workspace.files;
      var user, agent, legacy, soul, identity := LoadBootstrapFiles(limit);
      SinceClock(start, workspace.files, limit);
      ghost var now := workspace.files;
      var skills := ReadSkills(limit);
      SinceThen(start, now, workspace.files, limit);
      now := workspace.files;
      var memory := workspace.ReadFile(Memory, limit);
      SinceThen(start, now, workspace.files, limit);
      var all := Sources(user, agent, legacy, soul, identity, skills, memory);
      prompt, read := render(all), all;
    }

    /** Serves the cached prompt when the check passes, before or after taking the lock, and otherwise builds one. */
    method BuildSystemPromptWithCache() returns (prompt: string, hit: bool)
      requires Valid()
      modifies this, workspace
      ensures Valid() && Later(old(workspace.files), workspace.files)
      ensures prompt == render(seen) && prompt == cachedSystemPrompt
      ensures hit ==> seen == old(seen) && (seen == SourcesOf(workspace.files, roots) <==> !Vanished(seen, workspace.files))
      ensures !hit && workspace.files == old(workspace.files) ==>
                seen == SourcesOf(workspace.files, roots) && !Changed(Base(), workspace.files, roots)
    {
      var changed := true;
      if cachedSystemPrompt != "" {
        changed := SourceFilesChangedLocked();
        if !changed {
          CheckExact(Base(), seen, roots, limit, workspace.files);
          return cachedSystemPrompt, true;
        }
      }
      Elapse();
      if cachedSystemPrompt != "" {
        changed := SourceFilesChangedLocked();
        if !changed {
          CheckExact(Base(), seen, roots, limit, workspace.files);
          return cachedSystemPrompt, true;
        }
      }
      prompt := Rebuild();
      hit := false;
    }

    method Rebuild() returns (prompt: string)
      requires Valid()
      modifies this, workspace
      ensures Valid() && Later(old(workspace.files), workspace.files)
      ensures prompt == render(seen) && prompt == cachedSystemPrompt
      ensures workspace.files == old(workspace.files) ==>
                seen == SourcesOf(workspace.files, roots) && !Changed(Base(), workspace.files, roots)
    {
      var baseline := BuildCacheBaseline();
      ghost var before := workspace.files;
      ghost var read: Sources;
      prompt, read := BuildSystemPrompt(workspace.files.clock);
      cachedSystemPrompt, seen, limit := prompt, read, before.clock;
      cachedAt, existedAtCache, skillFilesAtCache := baseline.cachedAt, baseline.existed, baseline.skillFiles;
      if workspace.files == old(workspace.files) {
        OldFilesExact(seen, roots, limit, workspace.files);
      }
    }
  }
}
