/** Worked examples of the generator on concrete inputs. */
module Scenarios {
  import opened Paths
  import opened Outcomes
  import opened Template
  import opened FileStore
  import opened Generator
  import opened GeneratorProperties

  const CloneRoot: Path := ["clone"]
  /** `index.js`, whose text is `export const name = '<%= componentName %>';`
      (see IndexTemplatePieces). */
  const IndexTemplate: TemplateFile := TemplateFile(["clone", "index.js"], Print(IndexPieces))
  const IndexDest: Path := ["components", "Foo", "index.js"]

  /** The files and directories after generating `Foo` into an empty tree. */
  const AfterFoo: Disk :=
    Disk(map[IndexDest := "export const name = 'Foo';"], {[], ["components"], ["components", "Foo"]})

  /** The index template as pieces. */
  const IndexPieces: seq<Piece> := [Lit("export const name = '"), Hole("componentName"), Lit("';")]

  lemma IndexPiecesWellFormed()
    ensures WellFormed(IndexPieces)
  {
  }

  lemma IndexPiecesPrint()
    ensures Print(IndexPieces) == "export const name = '" + (HoleText("componentName") + ("';" + ""))
  {
  }

  lemma IndexTemplatePieces()
    ensures WellFormed(IndexPieces)
    ensures IndexTemplate.text == "export const name = '<%= componentName %>';"
  {
    IndexPiecesWellFormed();
    IndexPiecesPrint();
  }

  lemma IndexPiecesExpand(ctx: Context)
    requires "componentName" in ctx && ctx["componentName"] == "Foo"
    ensures Expand(IndexPieces, ctx) == Ok("export const name = '" + ("Foo" + ("';" + "")))
  {
    var t := IndexPieces;
    assert t[1..] == [Hole("componentName"), Lit("';")];
    assert t[1..][1..] == [Lit("';")];
    assert t[1..][1..][1..] == [];
    assert Expand(t[1..][1..], ctx) == Prepend("';", Expand([], ctx)) == Ok("';" + "");
    assert Expand(t[1..], ctx) == Prepend("Foo", Ok("';" + "")) == Ok("Foo" + ("';" + ""));
  }

  lemma IndexTemplateRenders(ctx: Context)
    requires "componentName" in ctx && ctx["componentName"] == "Foo"
    ensures Render(IndexTemplate.text, ctx) == Ok("export const name = 'Foo';")
  {
    IndexPiecesWellFormed();
    RenderPrint(IndexPieces, ctx);
    IndexPiecesExpand(ctx);
    assert "export const name = '" + ("Foo" + ("';" + "")) == "export const name = 'Foo';";
  }

  const FooText: string := "export const name = 'Foo';"

  /** The component file made from `index.js` for `Foo`. */
  lemma IndexComponentFile(ctx: Context)
    requires ctx == TemplateData(["Foo"], false)
    ensures NewComponentFile(IndexTemplate, ["Foo"], ctx, CloneRoot) ==
            Ok(ComponentFile(IndexTemplate.source, ["Foo"], FooText, IndexDest))
  {
    IndexTemplateRenders(ctx);
    assert IndexTemplate.source[1..] == ["index.js"];
    assert IsPlain("Foo") && IsPlain("index.js");
    PlainDestination(IndexTemplate, ["Foo"], ctx, CloneRoot);
    assert ComponentDirs(["Foo"]) == ["components", "Foo"] by {
      assert ["Foo"][1..] == [];
    }
    assert RelativeTo(CloneRoot, IndexTemplate.source) == ["index.js"];
    assert ["components", "Foo"] + ["index.js"] == IndexDest;
  }

  /** Writing it into an empty tree creates its two directories. */
  lemma WriteIntoEmpty()
    ensures Write(Disk(map[], {[]}), IndexDest, FooText) == (AfterFoo, Ok(IndexDest))
  {
    var empty := Disk(map[], {[]});
    var dir: Path := ["components", "Foo"];
    assert Parent(IndexDest) == dir;
    assert !empty.Exists(IndexDest);
    assert !empty.HasFileOnPath(dir);
    assert Prefixes(dir) == {[], ["components"], ["components", "Foo"]} by {
      assert dir[..0] == [] && dir[..1] == ["components"] && dir[..2] == dir;
    }
    var (d', r) := Write(empty, IndexDest, FooText);
    assert r == Ok(IndexDest);
    assert d'.files == map[IndexDest := FooText];
    assert d'.dirs == {[]} + Prefixes(dir) == AfterFoo.dirs;
    assert d'.files == AfterFoo.files;
  }

  /** `Foo` with a one-file template tree written into an empty directory:
      the file lands at `components/Foo/index.js` with the name filled in. */
  lemma SingleComponent()
    ensures CreateRun(Disk(map[], {[]}), ["Foo"], false, CloneRoot, [IndexTemplate]) == (AfterFoo, Ok([IndexDest]))
  {
    var ctx := TemplateData(["Foo"], false);
    IndexComponentFile(ctx);
    WriteIntoEmpty();
    var jobs := Jobs([IndexTemplate], ["Foo"], ctx, CloneRoot);
    assert jobs == [Ok(ComponentFile(IndexTemplate.source, ["Foo"], FooText, IndexDest))];
    var empty := Disk(map[], {[]});
    assert jobs[..0] == [];
    assert RunAll(empty, jobs[..0]) == (empty, []);
    assert RunJob(empty, jobs[0]) == (AfterFoo, Ok(IndexDest));
    assert RunAll(empty, jobs) == (AfterFoo, [] + [Ok(IndexDest)]);
    assert Summarise([Ok(IndexDest)]) == Ok([IndexDest]) by {
      assert [Ok(IndexDest)][1..] == [];
      assert [IndexDest] + [] == [IndexDest];
    }
  }

  /** Nested components: `Foo Bar` puts `style.css` under
      `components/Foo/components/Bar`. */
  lemma NestedComponents()
    ensures WritePath(["Foo", "Bar"], CloneRoot, ["clone", "style.css"]) ==
            ["components", "Foo", "components", "Bar", "style.css"]
  {
  }

  /** Generating `Foo` again over the result is refused with a collision on
      `components/Foo/index.js`, and nothing more is written. */
  lemma SingleComponentAgain()
    ensures CreateRun(AfterFoo, ["Foo"], false, CloneRoot, [IndexTemplate]) == (AfterFoo, Err(Collision(IndexDest)))
  {
    SingleComponent();
    CreateTwiceRefused(Disk(map[], {[]}), ["Foo"], false, CloneRoot, [IndexTemplate]);
    IndexComponentFile(TemplateData(["Foo"], false));
  }

  /** The refusal names the path. */
  lemma CollisionMessage()
    ensures Message(Collision(IndexDest)) == "A file already exists at path \"components/Foo/index.js\"."
  {
    assert Join(IndexDest) == "components/Foo/index.js" by {
      assert IndexDest[1..] == ["Foo", "index.js"];
      assert IndexDest[1..][1..] == ["index.js"];
    }
  }
}
