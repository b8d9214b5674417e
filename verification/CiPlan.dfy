/**
 Which CI jobs a change needs (backend/scripts/ci_plan.py, `plan` and `decide`). What a change needs is
 what its files need taken together: planning turns the union of two changes into the join of two
 plans, with a change to the CI definition itself at the top.
 */
module CiPlan {
  import opened Wrappers

  datatype MutationModule = MutationModule(path: string, tests: seq<string>)

  /** The jobs that run. The reasons given for them are not part of the model. */
  datatype Plan = Plan(backend: bool, frontend: bool, e2e: bool, images: bool, mutationModules: seq<string>)

  // ---- Paths ----

  predicate StartsWith(path: string, prefix: string) { prefix <= path }

  predicate EndsWith(path: string, suffix: string) {
    |suffix| <= |path| && path[|path| - |suffix|..] == suffix
  }

  predicate DocsOnly(path: string) {
    StartsWith(path, "docs/") || EndsWith(path, ".md") || path in {"LICENSE", ".gitignore", ".github/dependabot.yml"}
  }

  const CI_DEFINITION: set<string> := {".github/workflows/ci.yml", "backend/scripts/ci_plan.py"}
  const MUTATION_GATE: set<string> := {"backend/scripts/mutation_gate.py"}
  const PYPROJECT: string := "backend/pyproject.toml"
  const BACKEND: string := "backend/"

  predicate UnderBackend(f: string) { StartsWith(f, "backend/") || StartsWith(f, "config/") || StartsWith(f, "deploy/") }

  predicate BackendFile(f: string) { UnderBackend(f) || f in {"lib/api.ts", "lib/permissions.generated.json"} }

  predicate FrontendFile(f: string) { !UnderBackend(f) && !StartsWith(f, ".github/") }

  predicate InImages(f: string) { !(StartsWith(f, "backend/tests/") || StartsWith(f, "e2e/") || StartsWith(f, ".github/")) }

  // ---- The plan ----

  function Relevant(changed: seq<string>): (files: seq<string>)
    ensures forall f :: f in files <==> f in changed && !DocsOnly(f)
  {
    if changed == [] then []
    else
      assert forall f :: f in changed <==> f == changed[0] || f in changed[1..];
      (if DocsOnly(changed[0]) then [] else [changed[0]]) + Relevant(changed[1..])
  }

  predicate Any(files: seq<string>, kind: string -> bool) {
    exists f :: f in files && kind(f)
  }

  function PathsWhere(modules: seq<MutationModule>, runs: MutationModule -> bool): seq<string> {
    if modules == [] then []
    else (if runs(modules[0]) then [modules[0].path] else []) + PathsWhere(modules[1..], runs)
  }

  function Everything(modules: seq<MutationModule>): Plan {
    Plan(true, true, true, true, PathsWhere(modules, _ => true))
  }

  /** A module's own file or one of its tests is among the files. */
  predicate ModuleTouched(files: seq<string>, m: MutationModule) {
    BACKEND + m.path in files || exists t :: t in m.tests && BACKEND + t in files
  }

  function PlanFor(changed: seq<string>, modules: seq<MutationModule>, configChanged: bool := true): Plan {
    var relevant := Relevant(changed);
    if relevant == [] then Plan(false, false, false, false, [])
    else if Any(relevant, f => f in CI_DEFINITION) then Everything(modules)
    else
      var backend := Any(relevant, BackendFile);
      var frontend := Any(relevant, FrontendFile);
      var images := Any(relevant, InImages);
      var mutation :=
        if Any(relevant, f => f in MUTATION_GATE) || (PYPROJECT in relevant && configChanged)
        then PathsWhere(modules, _ => true)
        else PathsWhere(modules, m => ModuleTouched(relevant, m));
      Plan(backend, frontend, backend || frontend, images, mutation)
  }

  /** The jobs of either plan; a module's mutation job runs when either plan has it. */
  ghost predicate IsJoin(p: Plan, a: Plan, b: Plan) {
    && p.backend == (a.backend || b.backend) && p.frontend == (a.frontend || b.frontend)
    && p.e2e == (a.e2e || b.e2e) && p.images == (a.images || b.images)
    && forall path :: path in p.mutationModules <==> path in a.mutationModules || path in b.mutationModules
  }

  ghost predicate Below(a: Plan, b: Plan) {
    && (a.backend ==> b.backend) && (a.frontend ==> b.frontend) && (a.e2e ==> b.e2e) && (a.images ==> b.images)
    && forall path :: path in a.mutationModules ==> path in b.mutationModules
  }

  // ---- What each job looks for ----

  /** A relevant file of the change is of this kind. */
  ghost predicate Touches(changed: seq<string>, kind: string -> bool) {
    exists f :: f in changed && !DocsOnly(f) && kind(f)
  }

  lemma TouchesJoin(a: seq<string>, b: seq<string>, kind: string -> bool)
    ensures Touches(a + b, kind) <==> Touches(a, kind) || Touches(b, kind)
  {
    if f :| f in a && !DocsOnly(f) && kind(f) { assert f in a + b; }
    if f :| f in b && !DocsOnly(f) && kind(f) { assert f in a + b; }
  }

  predicate CiFile(f: string) { f in CI_DEFINITION }

  /** Whether the file makes this module's mutation job run. */
  predicate Remeasures(f: string, m: MutationModule, configChanged: bool) {
    f in CI_DEFINITION || f in MUTATION_GATE || (f == PYPROJECT && configChanged)
    || f == BACKEND + m.path || exists t :: t in m.tests && f == BACKEND + t
  }

  /** Some relevant file of the change makes this module's mutation job run. */
  ghost predicate NeedsModule(changed: seq<string>, m: MutationModule, configChanged: bool) {
    Touches(changed, f => Remeasures(f, m, configChanged))
  }

  lemma {:induction false} PathsWhereHas(modules: seq<MutationModule>, runs: MutationModule -> bool, path: string)
    ensures path in PathsWhere(modules, runs) <==> exists m :: m in modules && m.path == path && runs(m)
  {
    if modules != [] {
      PathsWhereHas(modules[1..], runs, path);
      assert forall m :: m in modules <==> m == modules[0] || m in modules[1..];
    }
  }

  /** The plan, job by job: every job runs exactly when some relevant file is of its kind or defines CI. */
  lemma JobsExactlyWhen(changed: seq<string>, modules: seq<MutationModule>, configChanged: bool)
    ensures var p := PlanFor(changed, modules, configChanged);
      && (p.backend <==> Touches(changed, f => CiFile(f) || BackendFile(f)))
      && (p.frontend <==> Touches(changed, f => CiFile(f) || FrontendFile(f)))
      && (p.images <==> Touches(changed, f => CiFile(f) || InImages(f)))
      && (p.e2e <==> p.backend || p.frontend)
  {
    var relevant := Relevant(changed);
    forall f | f in relevant
      ensures f in changed && !DocsOnly(f)
    {
    }
    if relevant != [] {
      assert relevant[0] in relevant;
    }
  }

  lemma MutationExactlyWhen(changed: seq<string>, modules: seq<MutationModule>, configChanged: bool, path: string)
    ensures path in PlanFor(changed, modules, configChanged).mutationModules <==>
      exists m :: m in modules && m.path == path && NeedsModule(changed, m, configChanged)
  {
    var relevant := Relevant(changed);
    PathsWhereHas(modules, _ => true, path);
    PathsWhereHas(modules, m => ModuleTouched(relevant, m), path);
    forall m: MutationModule
      ensures NeedsModule(changed, m, configChanged) <==>
        || Any(relevant, f => f in CI_DEFINITION) || Any(relevant, f => f in MUTATION_GATE)
        || (PYPROJECT in relevant && configChanged) || ModuleTouched(relevant, m)
    {
      RemeasuredWhen(changed, m, configChanged);
    }
  }

  lemma RemeasuredWhen(changed: seq<string>, m: MutationModule, configChanged: bool)
    ensures var relevant := Relevant(changed);
      NeedsModule(changed, m, configChanged) <==>
        || Any(relevant, f => f in CI_DEFINITION) || Any(relevant, f => f in MUTATION_GATE)
        || (PYPROJECT in relevant && configChanged) || ModuleTouched(relevant, m)
  {
  }

  /** Planning two changes together gives the jobs of both plans, no more and no less. */
  lemma PlanOfUnionIsJoin(a: seq<string>, b: seq<string>, modules: seq<MutationModule>, configChanged: bool)
    ensures IsJoin(PlanFor(a + b, modules, configChanged), PlanFor(a, modules, configChanged), PlanFor(b, modules, configChanged))
  {
    JobsExactlyWhen(a, modules, configChanged);
    JobsExactlyWhen(b, modules, configChanged);
    JobsExactlyWhen(a + b, modules, configChanged);
    TouchesJoin(a, b, f => CiFile(f) || BackendFile(f));
    TouchesJoin(a, b, f => CiFile(f) || FrontendFile(f));
    TouchesJoin(a, b, f => CiFile(f) || InImages(f));
    forall path
      ensures path in PlanFor(a + b, modules, configChanged).mutationModules <==>
        path in PlanFor(a, modules, configChanged).mutationModules || path in PlanFor(b, modules, configChanged).mutationModules
    {
      MutationJoin(a, b, modules, configChanged, path);
    }
  }

  lemma MutationJoin(a: seq<string>, b: seq<string>, modules: seq<MutationModule>, configChanged: bool, path: string)
    ensures path in PlanFor(a + b, modules, configChanged).mutationModules <==>
      path in PlanFor(a, modules, configChanged).mutationModules || path in PlanFor(b, modules, configChanged).mutationModules
  {
    MutationExactlyWhen(a, modules, configChanged, path);
    MutationExactlyWhen(b, modules, configChanged, path);
    MutationExactlyWhen(a + b, modules, configChanged, path);
    forall m: MutationModule
      ensures NeedsModule(a + b, m, configChanged) <==> NeedsModule(a, m, configChanged) || NeedsModule(b, m, configChanged)
    {
      TouchesJoin(a, b, f => Remeasures(f, m, configChanged));
    }
  }

  /** More files never need fewer jobs, the order of the files does not matter, and documentation adds nothing. */
  lemma PlanDependsOnRelevantFiles(a: seq<string>, b: seq<string>, modules: seq<MutationModule>, configChanged: bool)
    requires forall f :: f in a && !DocsOnly(f) ==> f in b
    ensures Below(PlanFor(a, modules, configChanged), PlanFor(b, modules, configChanged))
    ensures Below(PlanFor(b, modules, configChanged), Everything(modules))
  {
    JobsExactlyWhen(a, modules, configChanged);
    JobsExactlyWhen(b, modules, configChanged);
    forall path
      ensures path in PlanFor(a, modules, configChanged).mutationModules ==> path in PlanFor(b, modules, configChanged).mutationModules
      ensures path in PlanFor(b, modules, configChanged).mutationModules ==> path in Everything(modules).mutationModules
    {
      MutationExactlyWhen(a, modules, configChanged, path);
      MutationExactlyWhen(b, modules, configChanged, path);
      PathsWhereHas(modules, _ => true, path);
    }
  }

  // ---- The decision ----

  /** `files` is absent when the diff could not be read; `moved` is whether the mutation settings changed. */
  function Decide(event: string, refType: string, files: Option<seq<string>>, moved: bool, modules: seq<MutationModule>): Plan {
    if event in {"workflow_dispatch", "schedule"} then Everything(modules)
    else if refType == "tag" then Everything(modules)
    else if files.None? then Everything(modules)
    else PlanFor(files.value, modules, if PYPROJECT in files.value then moved else true)
  }

  /** When in doubt everything runs: a job is skipped only for a push or pull request whose diff was read and
      did not touch CI itself. */
  lemma OnlyAReadDiffSkips(event: string, refType: string, files: Option<seq<string>>, moved: bool, modules: seq<MutationModule>)
    requires Decide(event, refType, files, moved, modules) != Everything(modules)
    ensures event !in {"workflow_dispatch", "schedule"} && refType != "tag" && files.Some?
    ensures forall f :: f in files.value && !DocsOnly(f) ==> f !in CI_DEFINITION
  {
    var relevant := Relevant(files.value);
    if f :| f in files.value && !DocsOnly(f) && f in CI_DEFINITION {
      assert f in relevant;
      assert Any(relevant, f => f in CI_DEFINITION);
    }
  }

  /** The decision, both ways: everything runs for a dispatched or scheduled run, a tag, an unread diff or one that
      touches CI itself; otherwise what the diff's own plan says. The mutation settings matter only if their file changed. */
  lemma DecidedExactly(event: string, refType: string, files: Option<seq<string>>, moved: bool, modules: seq<MutationModule>)
    ensures var decided := Decide(event, refType, files, moved, modules);
      && (event == "workflow_dispatch" || event == "schedule" || refType == "tag" || files == None ==> decided == Everything(modules))
      && (event != "workflow_dispatch" && event != "schedule" && refType != "tag" && files.Some? ==>
            decided == PlanFor(files.value, modules, moved || "backend/pyproject.toml" !in files.value))
  {
  }

  /** Where it is not known whether the settings moved, they count as moved. */
  lemma UnknownCountsAsMoved(changed: seq<string>, modules: seq<MutationModule>)
    ensures PlanFor(changed, modules) == PlanFor(changed, modules, true)
  {
  }

  /** When everything runs, every module is measured again. */
  lemma EverythingIsAll(modules: seq<MutationModule>, path: string)
    ensures var all := Everything(modules);
      && all.backend && all.frontend && all.e2e && all.images
      && (path in all.mutationModules <==> exists m :: m in modules && m.path == path)
  {
    PathsWhereHas(modules, _ => true, path);
  }

  // ---- Which files are of which kind ----

  lemma Documentation()
    ensures DocsOnly("docs/architecture.txt") && DocsOnly("README.md") && DocsOnly("backend/docs/notes.md")
    ensures DocsOnly("LICENSE") && DocsOnly(".gitignore") && DocsOnly(".github/dependabot.yml")
    ensures !DocsOnly("app/page.tsx") && !DocsOnly("backend/docs/notes.txt")
  {
    assert "docs/" <= "docs/architecture.txt";
    assert "README.md"[6..] == ".md" && "backend/docs/notes.md"[18..] == ".md";
    assert "app/page.tsx"[0] != 'd' && "app/page.tsx"[9..] != ".md";
    assert "backend/docs/notes.txt"[0] != 'd' && "backend/docs/notes.txt"[19..] != ".md";
  }

  /** The backend jobs look at three directories and at two files that the backend's own tests read; the frontend job at
      everything outside those directories and the CI directory. */
  lemma JobFiles(f: string)
    ensures BackendFile(f) <==> "backend/" <= f || "config/" <= f || "deploy/" <= f || f == "lib/api.ts" || f == "lib/permissions.generated.json"
    ensures FrontendFile(f) <==> !("backend/" <= f) && !("config/" <= f) && !("deploy/" <= f) && !(".github/" <= f)
    ensures InImages(f) <==> !("backend/tests/" <= f) && !("e2e/" <= f) && !(".github/" <= f)
    ensures CiFile(f) <==> f == ".github/workflows/ci.yml" || f == "backend/scripts/ci_plan.py"
  {
  }

  /** Changing the gate re-measures every module, changing `pyproject.toml` does if the settings moved, and changing a
      module or one of its tests re-measures that module. */
  lemma MeasuredFiles(m: MutationModule, configChanged: bool, t: string)
    ensures Remeasures("backend/scripts/mutation_gate.py", m, configChanged)
    ensures configChanged ==> Remeasures("backend/pyproject.toml", m, configChanged)
    ensures Remeasures("backend/" + m.path, m, configChanged)
    ensures t in m.tests ==> Remeasures("backend/" + t, m, configChanged)
  {
  }
}
