/** The generator's `create` step: build the template data from the
    component names, turn every discovered template into a component file
    (rendered text and destination), and write each one without overwriting. */
module Generator {
  import opened Paths
  import opened Outcomes
  import opened Template
  import opened FileStore

  const PreactImport: string := "import { h, Component } from 'preact';"
  const ReactImport: string := "import React, { Component } from 'react';"

  /** `'../'.repeat(n)`: the way up `n` directory levels. */
  function UpDirs(n: nat): (r: string)
    ensures |r| == 3 * n
    ensures forall k :: 0 <= k < n ==> r[3 * k..3 * k + 3] == "../"
  {
    if n == 0 then ""
    else
      var up := UpDirs(n - 1);
      var r := up + "../";
      assert forall k :: 0 <= k < n - 1 ==> r[3 * k..3 * k + 3] == up[3 * k..3 * k + 3];
      assert r[3 * (n - 1)..] == "../";
      r
  }

  /** The values the template placeholders are filled with. */
  function TemplateData(names: seq<string>, preact: bool): (ctx: Context)
    requires |names| > 0
    ensures ctx.Keys == {"stylesDirName", "componentName", "jsxImport"}
    ensures |ctx["stylesDirName"]| == 3 * (|names| - 1)
    ensures forall k :: 0 <= k < |names| - 1 ==> ctx["stylesDirName"][3 * k..3 * k + 3] == "../"
    ensures ctx["componentName"] == names[|names| - 1]
    ensures ctx["jsxImport"] == if preact then PreactImport else ReactImport
  {
    map["stylesDirName" := UpDirs(|names| - 1),
        "componentName" := names[|names| - 1],
        "jsxImport" := if preact then PreactImport else ReactImport]
  }

  /** A template found under the clone root, with the text read from it. */
  datatype TemplateFile = TemplateFile(source: Path, text: string)

  /** A template rendered for the components: its text and destination. */
  datatype ComponentFile = ComponentFile(
    originalFilepath: Path, componentNames: seq<string>, text: string, writeFilepath: Path)

  /** The `ComponentFile` constructor: render the text, then the destination
      path; the first rendering failure fails the file. */
  function NewComponentFile(t: TemplateFile, names: seq<string>, ctx: Context, cloneRoot: Path)
    : (r: Result<ComponentFile>)
    requires IsPrefix(cloneRoot, t.source)
    ensures r.Ok? <==> Render(t.text, ctx).Ok? && RenderPath(WritePath(names, cloneRoot, t.source), ctx).Ok?
    ensures r.Err? ==> r.error.RenderError? && r.error.key !in ctx
    ensures r.Ok? ==> r.value.originalFilepath == t.source && r.value.componentNames == names
    ensures r.Ok? ==> Render(t.text, ctx) == Ok(r.value.text)
    ensures r.Ok? ==> RenderPath(WritePath(names, cloneRoot, t.source), ctx) == Ok(r.value.writeFilepath)
  {
    match Render(t.text, ctx)
    case Err(e) => Err(e)
    case Ok(text) =>
      match RenderPath(WritePath(names, cloneRoot, t.source), ctx)
      case Err(e) => Err(e)
      case Ok(dest) => Ok(ComponentFile(t.source, names, text, dest))
  }

  /** A component file's destination is the unrendered destination with
      each segment rendered. */
  lemma ComponentFileDestination(t: TemplateFile, names: seq<string>, ctx: Context, cloneRoot: Path)
    requires IsPrefix(cloneRoot, t.source)
    requires NewComponentFile(t, names, ctx, cloneRoot).Ok?
    ensures var w := WritePath(names, cloneRoot, t.source);
            var dest := NewComponentFile(t, names, ctx, cloneRoot).value.writeFilepath;
            |dest| == |w| && forall i :: 0 <= i < |w| ==> Render(w[i], ctx) == Ok(dest[i])
  {
  }

  predicate UnderRoot(cloneRoot: Path, templates: seq<TemplateFile>)
  {
    forall i :: 0 <= i < |templates| ==> IsPrefix(cloneRoot, templates[i].source)
  }

  /** One component file per discovered template, in discovery order. */
  function Jobs(templates: seq<TemplateFile>, names: seq<string>, ctx: Context, cloneRoot: Path)
    : (js: seq<Result<ComponentFile>>)
    requires UnderRoot(cloneRoot, templates)
    ensures |js| == |templates|
    ensures forall i :: 0 <= i < |templates| ==> js[i] == NewComponentFile(templates[i], names, ctx, cloneRoot)
  {
    seq(|templates|, i requires 0 <= i < |templates| => NewComponentFile(templates[i], names, ctx, cloneRoot))
  }

  /** One file's write: a file that could not be rendered writes nothing. */
  function RunJob(d: Disk, job: Result<ComponentFile>): (res: (Disk, Result<Path>))
    ensures job.Err? ==> res == (d, Err(job.error))
    ensures res.1.Err? ==> res.0 == d
    ensures res.1.Ok? ==> job.Ok? && res.1.value == job.value.writeFilepath &&
                          res.0.files == d.files[job.value.writeFilepath := job.value.text]
    ensures job.Ok? && d.Exists(job.value.writeFilepath) ==> res.1 == Err(Collision(job.value.writeFilepath))
  {
    match job
    case Err(e) => (d, Err(e))
    case Ok(cf) => Write(d, cf.writeFilepath, cf.text)
  }

  /** Every job attempted in turn, each against the tree the previous ones
      left; a failure does not stop the others. */
  function RunAll(d: Disk, jobs: seq<Result<ComponentFile>>): (res: (Disk, seq<Result<Path>>))
    ensures |res.1| == |jobs|
  {
    if jobs == [] then (d, [])
    else
      var (d1, outs) := RunAll(d, jobs[..|jobs| - 1]);
      var (d2, out) := RunJob(d1, jobs[|jobs| - 1]);
      (d2, outs + [out])
  }

  /** One more job extends the run by that job's write. */
  lemma RunAllStep(d: Disk, jobs: seq<Result<ComponentFile>>, i: nat)
    requires i < |jobs|
    ensures var (d1, outs) := RunAll(d, jobs[..i]);
            var (d2, out) := RunJob(d1, jobs[i]);
            RunAll(d, jobs[..i + 1]) == (d2, outs + [out])
  {
    assert jobs[..i + 1][..i] == jobs[..i];
  }

  /** A file is reported written only for a job that rendered, under its
      own destination. */
  lemma {:induction false} RunAllOutcomes(d: Disk, jobs: seq<Result<ComponentFile>>)
    ensures forall i :: 0 <= i < |jobs| && RunAll(d, jobs).1[i].Ok? ==>
              jobs[i].Ok? && RunAll(d, jobs).1[i].value == jobs[i].value.writeFilepath
  {
    if jobs != [] {
      var n := |jobs| - 1;
      RunAllOutcomes(d, jobs[..n]);
      var outs := RunAll(d, jobs[..n]).1;
      assert RunAll(d, jobs).1 == outs + [RunJob(RunAll(d, jobs[..n]).0, jobs[n]).1];
    }
  }

  /** No file that existed before the run is changed by it. */
  lemma {:induction false} RunAllKeepsFiles(d: Disk, jobs: seq<Result<ComponentFile>>)
    ensures forall p :: p in d.files ==> p in RunAll(d, jobs).0.files && RunAll(d, jobs).0.files[p] == d.files[p]
  {
    if jobs != [] {
      RunAllKeepsFiles(d, jobs[..|jobs| - 1]);
    }
  }

  /** Every file reported written holds its rendered text at the end of the
      run: later failures do not undo it, later writes do not replace it. */
  lemma {:induction false} RunAllKeepsWrites(d: Disk, jobs: seq<Result<ComponentFile>>)
    ensures forall i :: 0 <= i < |jobs| && RunAll(d, jobs).1[i].Ok? ==>
              jobs[i].Ok? && jobs[i].value.writeFilepath in RunAll(d, jobs).0.files &&
              RunAll(d, jobs).0.files[jobs[i].value.writeFilepath] == jobs[i].value.text
  {
    if jobs != [] {
      var n := |jobs| - 1;
      RunAllKeepsWrites(d, jobs[..n]);
      RunAllOutcomes(d, jobs);
      var (d1, outs) := RunAll(d, jobs[..n]);
      var (d2, out) := RunJob(d1, jobs[n]);
      assert RunAll(d, jobs) == (d2, outs + [out]);
      forall i | 0 <= i < |jobs| && RunAll(d, jobs).1[i].Ok?
        ensures jobs[i].Ok? && jobs[i].value.writeFilepath in d2.files &&
                d2.files[jobs[i].value.writeFilepath] == jobs[i].value.text
      {
        if i < n {
          assert outs[i].Ok? && jobs[..n][i] == jobs[i];
        }
      }
    }
  }

  /** The run adds no file other than the ones it reports written. */
  lemma {:induction false} RunAllAddsOnlyWrites(d: Disk, jobs: seq<Result<ComponentFile>>)
    ensures forall p :: p in RunAll(d, jobs).0.files ==>
              p in d.files || exists i :: 0 <= i < |jobs| && RunAll(d, jobs).1[i] == Ok(p)
  {
    if jobs != [] {
      var n := |jobs| - 1;
      RunAllAddsOnlyWrites(d, jobs[..n]);
      var (d1, outs) := RunAll(d, jobs[..n]);
      var (d2, out) := RunJob(d1, jobs[n]);
      var all := outs + [out];
      assert RunAll(d, jobs) == (d2, all);
      forall p | p in d2.files ensures p in d.files || exists i :: 0 <= i < |jobs| && all[i] == Ok(p) {
        if p !in d1.files {
          assert all[n] == Ok(p);
        } else if p !in d.files {
          var i :| 0 <= i < n && outs[i] == Ok(p);
          assert all[i] == Ok(p);
        }
      }
    }
  }

  /** The run keeps the tree well formed. */
  lemma {:induction false} RunAllValid(d: Disk, jobs: seq<Result<ComponentFile>>)
    requires d.Valid()
    ensures RunAll(d, jobs).0.Valid()
  {
    if jobs != [] {
      var n := |jobs| - 1;
      RunAllValid(d, jobs[..n]);
      var d1 := RunAll(d, jobs[..n]).0;
      if jobs[n].Ok? {
        WritePreservesValid(d1, jobs[n].value.writeFilepath, jobs[n].value.text);
      }
    }
  }

  /** The report: every written destination, or the first failure. */
  function Summarise(outs: seq<Result<Path>>): (r: Result<seq<Path>>)
    ensures r.Ok? <==> forall i :: 0 <= i < |outs| ==> outs[i].Ok?
    ensures r.Ok? ==> |r.value| == |outs| && forall i :: 0 <= i < |outs| ==> r.value[i] == outs[i].value
    ensures r.Err? ==> exists i :: 0 <= i < |outs| && outs[i] == Err(r.error) && forall j :: 0 <= j < i ==> outs[j].Ok?
  {
    if outs == [] then Ok([])
    else
      match outs[0]
      case Err(e) => Err(e)
      case Ok(p) =>
        match Summarise(outs[1..])
        case Err(e) =>
          ghost var i :| 0 <= i < |outs[1..]| && outs[1..][i] == Err(e) && forall j :: 0 <= j < i ==> outs[1..][j].Ok?;
          assert outs[i + 1] == Err(e) && forall j :: 0 <= j < i + 1 ==> outs[j].Ok?;
          Err(e)
        case Ok(ps) => Ok([p] + ps)
  }

  /** The whole of `create`: fail on an empty name list before anything is
      read or written, otherwise attempt every template's component file. */
  function CreateRun(d: Disk, names: seq<string>, preact: bool, cloneRoot: Path, templates: seq<TemplateFile>)
    : (res: (Disk, Result<seq<Path>>))
    requires UnderRoot(cloneRoot, templates)
    ensures |names| == 0 ==> res == (d, Err(ArgumentError))
  {
    if |names| == 0 then (d, Err(ArgumentError))
    else
      var (d', outs) := RunAll(d, Jobs(templates, names, TemplateData(names, preact), cloneRoot));
      (d', Summarise(outs))
  }

  /** `processFile`: build the template's component file and write it; a
      template that fails to render writes nothing. */
  method ProcessFile(fs: FileSystem, t: TemplateFile, names: seq<string>, ctx: Context, cloneRoot: Path)
    returns (r: Result<Path>)
    requires fs.Valid()
    requires IsPrefix(cloneRoot, t.source)
    modifies fs
    ensures fs.Valid()
    ensures (fs.State(), r) == RunJob(old(fs.State()), NewComponentFile(t, names, ctx, cloneRoot))
  {
    var file := NewComponentFile(t, names, ctx, cloneRoot);
    match file {
      case Err(e) =>
        r := Err(e);
      case Ok(cf) =>
        r := fs.WriteFile(cf.writeFilepath, cf.text);
    }
  }

  /** `create`, with the discovered templates given: one write per template,
      in discovery order, against the shared file system. */
  method Create(fs: FileSystem, names: seq<string>, preact: bool, cloneRoot: Path, templates: seq<TemplateFile>)
    returns (r: Result<seq<Path>>)
    requires fs.Valid()
    requires UnderRoot(cloneRoot, templates)
    modifies fs
    ensures fs.Valid()
    ensures (fs.State(), r) == CreateRun(old(fs.State()), names, preact, cloneRoot, templates)
  {
    if |names| == 0 {
      return Err(ArgumentError);
    }
    var ctx := TemplateData(names, preact);
    ghost var jobs := Jobs(templates, names, ctx, cloneRoot);
    var outcomes: seq<Result<Path>> := [];
    var i := 0;
    while i < |templates|
      invariant 0 <= i <= |templates|
      invariant fs.Valid()
      invariant (fs.State(), outcomes) == RunAll(old(fs.State()), jobs[..i])
    {
      ghost var before := fs.State();
      var outcome := ProcessFile(fs, templates[i], names, ctx, cloneRoot);
      assert jobs[i] == NewComponentFile(templates[i], names, ctx, cloneRoot);
      assert (fs.State(), outcome) == RunJob(before, jobs[i]);
      RunAllStep(old(fs.State()), jobs, i);
      outcomes := outcomes + [outcome];
      i := i + 1;
    }
    assert jobs[..i] == jobs;
    r := Summarise(outcomes);
  }
}

module GeneratorProperties {
  import opened Paths
  import opened Outcomes
  import opened Template
  import opened FileStore
  import opened Generator

  /** A successful run reports one destination per discovered template, in
      discovery order, and each holds that template's rendered text. */
  lemma CreateReportsEveryFile(d: Disk, names: seq<string>, preact: bool, cloneRoot: Path, templates: seq<TemplateFile>)
    requires UnderRoot(cloneRoot, templates)
    requires CreateRun(d, names, preact, cloneRoot, templates).1.Ok?
    ensures |names| > 0
    ensures var (d', r) := CreateRun(d, names, preact, cloneRoot, templates);
            |r.value| == |templates| &&
            forall i :: 0 <= i < |templates| ==>
              var cf := NewComponentFile(templates[i], names, TemplateData(names, preact), cloneRoot);
              cf.Ok? && r.value[i] == cf.value.writeFilepath &&
              cf.value.writeFilepath in d'.files && d'.files[cf.value.writeFilepath] == cf.value.text
  {
    var jobs := Jobs(templates, names, TemplateData(names, preact), cloneRoot);
    RunAllOutcomes(d, jobs);
    RunAllKeepsWrites(d, jobs);
  }

  /** A run never changes a file that was there before it, whatever its
      outcome, and leaves the tree well formed. */
  lemma CreateNeverOverwrites(d: Disk, names: seq<string>, preact: bool, cloneRoot: Path, templates: seq<TemplateFile>)
    requires d.Valid()
    requires UnderRoot(cloneRoot, templates)
    ensures var d' := CreateRun(d, names, preact, cloneRoot, templates).0;
            d'.Valid() && forall p :: p in d.files ==> p in d'.files && d'.files[p] == d.files[p]
  {
    if |names| > 0 {
      var jobs := Jobs(templates, names, TemplateData(names, preact), cloneRoot);
      RunAllKeepsFiles(d, jobs);
      RunAllValid(d, jobs);
    }
  }

  /** The files a run adds are exactly the ones it reports written. */
  lemma CreateAddsOnlyReported(d: Disk, names: seq<string>, preact: bool, cloneRoot: Path, templates: seq<TemplateFile>)
    requires UnderRoot(cloneRoot, templates)
    requires CreateRun(d, names, preact, cloneRoot, templates).1.Ok?
    ensures var (d', r) := CreateRun(d, names, preact, cloneRoot, templates);
            d'.files.Keys == d.files.Keys + set i | 0 <= i < |r.value| :: r.value[i]
  {
    var jobs := Jobs(templates, names, TemplateData(names, preact), cloneRoot);
    RunAllFilesExactly(d, jobs);
  }

  /** On a run without failure, the final tree's paths are the old ones plus
      the reported destinations. */
  lemma RunAllFilesExactly(d: Disk, jobs: seq<Result<ComponentFile>>)
    requires Summarise(RunAll(d, jobs).1).Ok?
    ensures var (d', outs) := RunAll(d, jobs);
            d'.files.Keys == d.files.Keys + set i | 0 <= i < |jobs| :: Summarise(outs).value[i]
  {
    var (d', outs) := RunAll(d, jobs);
    var ps := Summarise(outs).value;
    var reported := set i | 0 <= i < |jobs| :: ps[i];
    RunAllKeepsFiles(d, jobs);
    RunAllAddsOnlyWrites(d, jobs);
    RunAllKeepsWrites(d, jobs);
    RunAllOutcomes(d, jobs);
    forall p | p in d'.files ensures p in d.files.Keys + reported {
      if p !in d.files {
        var i :| 0 <= i < |jobs| && outs[i] == Ok(p);
        assert ps[i] == p;
      }
    }
    forall p | p in d.files.Keys + reported ensures p in d'.files {
      if p !in d.files {
        var i :| 0 <= i < |jobs| && ps[i] == p;
        assert outs[i] == Ok(p);
        assert jobs[i].value.writeFilepath == p;
      }
    }
  }

  /** Jobs whose destinations all exist already: every one is refused with a
      collision on its own path, and the tree is left as it was. */
  lemma {:induction false} RunAllAllCollide(d: Disk, jobs: seq<Result<ComponentFile>>)
    requires forall i :: 0 <= i < |jobs| ==> jobs[i].Ok? && d.Exists(jobs[i].value.writeFilepath)
    ensures RunAll(d, jobs).0 == d
    ensures forall i :: 0 <= i < |jobs| ==> RunAll(d, jobs).1[i] == Err(Collision(jobs[i].value.writeFilepath))
  {
    if jobs != [] {
      var n := |jobs| - 1;
      assert forall i :: 0 <= i < n ==> jobs[..n][i] == jobs[i];
      RunAllAllCollide(d, jobs[..n]);
    }
  }

  /** Running the generator a second time with the same names over the tree
      the first successful run produced is refused with a collision on the
      first template's destination, and changes nothing. */
  lemma CreateTwiceRefused(d: Disk, names: seq<string>, preact: bool, cloneRoot: Path, templates: seq<TemplateFile>)
    requires UnderRoot(cloneRoot, templates)
    requires |templates| > 0
    requires CreateRun(d, names, preact, cloneRoot, templates).1.Ok?
    ensures var d1 := CreateRun(d, names, preact, cloneRoot, templates).0;
            var cf := NewComponentFile(templates[0], names, TemplateData(names, preact), cloneRoot);
            cf.Ok? &&
            CreateRun(d1, names, preact, cloneRoot, templates) == (d1, Err(Collision(cf.value.writeFilepath)))
  {
    CreateReportsEveryFile(d, names, preact, cloneRoot, templates);
    var d1 := CreateRun(d, names, preact, cloneRoot, templates).0;
    var jobs := Jobs(templates, names, TemplateData(names, preact), cloneRoot);
    assert forall i :: 0 <= i < |jobs| ==> jobs[i].Ok? && d1.Exists(jobs[i].value.writeFilepath);
    RunAllRefusedFirst(d1, jobs);
  }

  /** Jobs whose destinations all exist: the report is the collision on the
      first one, and the tree is left as it was. */
  lemma RunAllRefusedFirst(d: Disk, jobs: seq<Result<ComponentFile>>)
    requires |jobs| > 0
    requires forall i :: 0 <= i < |jobs| ==> jobs[i].Ok? && d.Exists(jobs[i].value.writeFilepath)
    ensures RunAll(d, jobs).0 == d
    ensures Summarise(RunAll(d, jobs).1) == Err(Collision(jobs[0].value.writeFilepath))
  {
    RunAllAllCollide(d, jobs);
    var outs := RunAll(d, jobs).1;
    assert outs[0] == Err(Collision(jobs[0].value.writeFilepath));
  }

  /** With component names and template paths free of placeholders, each
      template's destination is the nesting formula: `components/<name>` for
      every name, outermost first, then the template's relative path. */
  lemma PlainDestination(t: TemplateFile, names: seq<string>, ctx: Context, cloneRoot: Path)
    requires IsPrefix(cloneRoot, t.source)
    requires forall i :: 0 <= i < |names| ==> IsPlain(names[i])
    requires forall i :: |cloneRoot| <= i < |t.source| ==> IsPlain(t.source[i])
    ensures var cf := NewComponentFile(t, names, ctx, cloneRoot);
            cf.Ok? <==> Render(t.text, ctx).Ok?
    ensures var cf := NewComponentFile(t, names, ctx, cloneRoot);
            cf.Ok? ==> cf.value.text == Render(t.text, ctx).value &&
                       cf.value.writeFilepath == ComponentDirs(names) + RelativeTo(cloneRoot, t.source)
  {
    var w := WritePath(names, cloneRoot, t.source);
    var rel := RelativeTo(cloneRoot, t.source);
    assert IsPlain(ComponentsDir);
    forall i | 0 <= i < |w| ensures IsPlain(w[i]) {
      if i >= 2 * |names| {
        assert w[i] == rel[i - 2 * |names|] == t.source[|cloneRoot| + i - 2 * |names|];
      } else if i % 2 == 0 {
        assert w[2 * (i / 2)] == ComponentsDir;
      } else {
        assert w[2 * (i / 2) + 1] == names[i / 2];
      }
    }
    RenderPathPlain(w, ctx);
  }

  /** A template whose file name starts with the component-name placeholder
      (say `<%= componentName %>.js`), under placeholder-free directories:
      the destination nests it as usual and the file name becomes the last
      component name followed by the rest of the name. */
  lemma NamedDestination(t: TemplateFile, names: seq<string>, preact: bool, cloneRoot: Path, rest: string)
    requires |names| > 0
    requires IsPrefix(cloneRoot, t.source) && |t.source| > |cloneRoot|
    requires forall i :: 0 <= i < |names| ==> IsPlain(names[i])
    requires forall i :: |cloneRoot| <= i < |t.source| - 1 ==> IsPlain(t.source[i])
    requires t.source[|t.source| - 1] == HoleText("componentName") + rest && IsPlain(rest)
    requires Render(t.text, TemplateData(names, preact)).Ok?
    ensures var cf := NewComponentFile(t, names, TemplateData(names, preact), cloneRoot);
            var rel := RelativeTo(cloneRoot, t.source);
            cf.Ok? &&
            cf.value.writeFilepath == ComponentDirs(names) + rel[..|rel| - 1] + [names[|names| - 1] + rest]
  {
    var ctx := TemplateData(names, preact);
    var rel := RelativeTo(cloneRoot, t.source);
    var want := ComponentDirs(names) + rel[..|rel| - 1] + [names[|names| - 1] + rest];
    NamedSegments(names, cloneRoot, t.source, rest, ctx);
    assert RenderPath(WritePath(names, cloneRoot, t.source), ctx) == Ok(want);
    var cf := NewComponentFile(t, names, ctx, cloneRoot);
    assert cf.Ok?;
    assert cf.value.writeFilepath == want;
  }

  /** The segment-by-segment part of `NamedDestination`, for any context
      that maps the component-name key to the last name. */
  lemma NamedSegments(names: seq<string>, cloneRoot: Path, source: Path, rest: string, ctx: Context)
    requires |names| > 0
    requires IsPrefix(cloneRoot, source) && |source| > |cloneRoot|
    requires forall i :: 0 <= i < |names| ==> IsPlain(names[i])
    requires forall i :: |cloneRoot| <= i < |source| - 1 ==> IsPlain(source[i])
    requires source[|source| - 1] == HoleText("componentName") + rest && IsPlain(rest)
    requires "componentName" in ctx && ctx["componentName"] == names[|names| - 1]
    ensures var rel := RelativeTo(cloneRoot, source);
            RenderPath(WritePath(names, cloneRoot, source), ctx) ==
            Ok(ComponentDirs(names) + rel[..|rel| - 1] + [names[|names| - 1] + rest])
  {
    var dirs := ComponentDirs(names);
    var rel := RelativeTo(cloneRoot, source);
    var w := dirs + rel;
    var want := dirs + rel[..|rel| - 1] + [names[|names| - 1] + rest];
    assert w == WritePath(names, cloneRoot, source);
    assert |want| == |w|;
    forall i | 0 <= i < |w| ensures Render(w[i], ctx) == Ok(want[i]) {
      if i < |dirs| {
        assert w[i] == dirs[i] == want[i];
        if i % 2 == 0 {
          assert dirs[2 * (i / 2)] == ComponentsDir;
          assert IsPlain(ComponentsDir);
        } else {
          assert dirs[2 * (i / 2) + 1] == names[i / 2];
        }
        assert IsPlain(w[i]);
      } else if i < |w| - 1 {
        var j := i - |dirs|;
        assert w[i] == rel[j] == want[i];
        assert rel[j] == source[|cloneRoot| + j];
        assert IsPlain(w[i]);
      } else {
        assert w[i] == rel[|rel| - 1] == source[|source| - 1];
        RenderHole("componentName", rest, ctx);
        assert Render(rest, ctx) == Ok(rest);
      }
    }
    RenderPathSegments(w, ctx, want);
  }

  /** A template holding only the component-name placeholder renders to
      the last (innermost) component name, verbatim. */
  lemma RenderComponentName(names: seq<string>, preact: bool)
    requires |names| > 0
    ensures Render(HoleText("componentName"), TemplateData(names, preact)) == Ok(names[|names| - 1])
  {
    assert IsKey("componentName");
    HoleAlone("componentName", TemplateData(names, preact));
  }

  /** The JSX import placeholder renders to the Preact import exactly when
      the preact option is set, and to the React import otherwise. */
  lemma RenderJsxImport(names: seq<string>, preact: bool)
    requires |names| > 0
    ensures Render(HoleText("jsxImport"), TemplateData(names, preact)) == Ok(PreactImport) <==> preact
    ensures Render(HoleText("jsxImport"), TemplateData(names, preact)) == Ok(ReactImport) <==> !preact
  {
    var ctx := TemplateData(names, preact);
    ImportsDiffer();
    assert ctx["jsxImport"] == if preact then PreactImport else ReactImport;
    assert IsKey("jsxImport");
    HoleAlone("jsxImport", ctx);
  }

  /** The two import lines are different texts. */
  lemma ImportsDiffer()
    ensures PreactImport != ReactImport
  {
    assert PreactImport[7] != ReactImport[7];
  }

  /** The styles prefix climbs back out of every enclosing component: empty
      for a single name, one `../` per extra level otherwise. */
  lemma StylesDirNameDepth(names: seq<string>, preact: bool)
    requires |names| > 0
    ensures |names| == 1 ==> TemplateData(names, preact)["stylesDirName"] == ""
    ensures |names| > 1 ==> TemplateData(names, preact)["stylesDirName"][..3] == "../"
    ensures Render(HoleText("stylesDirName"), TemplateData(names, preact)) == Ok(UpDirs(|names| - 1))
  {
    var ctx := TemplateData(names, preact);
    UpDirsStart(|names| - 1);
    assert ctx["stylesDirName"] == UpDirs(|names| - 1);
    assert IsKey("stylesDirName");
    HoleAlone("stylesDirName", ctx);
  }

  /** `'../'.repeat(n)` is empty for no level and starts with `../` otherwise. */
  lemma UpDirsStart(n: nat)
    ensures n == 0 ==> UpDirs(n) == ""
    ensures n > 0 ==> |UpDirs(n)| >= 3 && UpDirs(n)[..3] == "../"
  {
    if n > 0 {
      assert UpDirs(n)[3 * 0..3 * 0 + 3] == "../";
    }
  }
}
