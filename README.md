# A model of the react-component generator's file pipeline

The generator takes a list of component names, outermost parent first, and
copies a bundled template tree (the clone root) into the working directory.
For each template file it renders the `<%= key %>` placeholders in the text
and in the destination path against a three-entry template context:

- `stylesDirName`: `../` once per enclosing component;
- `componentName`: the innermost (last) name;
- `jsxImport`: the Preact or the React import line.

The destination nests the template's relative path under one
`components/<name>` pair per name. `yo react-component Foo Bar` writes
`components/Foo/components/Bar/...`. The writer never overwrites: if
anything already exists at the destination, the run fails with an error
naming the path. Files already written by sibling templates stay on disk.

Modules:

- `Paths` (paths.dfy): paths as segment sequences, `path.relative`,
  `path.dirname`, and the destination formula.
- `Outcomes` (outcomes.dfy): the failure kinds and the user-visible messages.
- `Template` (template.dfy): the placeholder renderer. It also gives a
  reference meaning: templates as literal pieces and holes, with a proof that
  rendering the printed template is its expansion.
- `FileStore` (filesystem.dfy): the target tree. `Disk` is a value with its
  well-formedness invariant and the spec function `Write`. `FileSystem` is a
  class holding a `files` map and a `dirs` set. `FileExists` (fs.stat) only
  reads them. `MakeDirs` (mkdirp), `WriteText` (fs.writeFile) and
  `WriteFile` (the no-overwrite writer) update them in place and keep the
  tree well formed.
- `Generator` (generator.dfy): the template data, the component file, the
  per-file `ProcessFile`, and `Create`. `Jobs` is the `filepaths.map` of
  generators/app/index.js:140-142: one component file per discovered
  template, in discovery order. `Create` loops over the discovered
  templates and mutates the shared `FileSystem`; it is proved against the
  spec function `CreateRun`.
- `GeneratorProperties` (generator.dfy): whole-run properties: the report,
  no overwrite, running twice, the nesting formula, and the context values.
- `Scenarios` (scenarios.dfy): the worked examples (`Foo`, `Foo Bar`, and a
  second run over `Foo`).

Decisions where the source leaves the behaviour open:

- Both the file text and the destination path are rendered, as
  generators/app/index.js:38-39 does.
- An unknown placeholder key fails the file with `RenderError`. lodash's
  compiled template throws a ReferenceError there.
- On an empty name list the source logs the message and calls
  `process.exit(0)`, which is a success exit code. The model only returns
  `Err(ArgumentError)`; exit codes are not modelled.

## Model

| member | source | states |
|---|---|---|
| Paths.RelativeTo | generators/app/index.js:44 | the relative path is what follows the clone root: `root + rel == source` |
| Paths.Parent | generators/app/index.js:67 | `path.dirname`: the path minus its last segment, and it restores the path when that segment is appended |
| Paths.ComponentDirs | generators/app/index.js:47 | one `components`, `<name>` pair per name, in order: segment 2i is `components`, segment 2i+1 is name i |
| Paths.WritePath | generators/app/index.js:42-50 | the destination has 2·\|names\| + \|rel\| segments; its pairs are `components/<name>` outermost first; it ends with the relative path unchanged |
| Paths.WritePathInjective | generators/app/index.js:42-50 | two templates under the clone root never get the same (unrendered) destination |
| Template.FindClose | generators/app/index.js:52-54 | finds the first `%>` at or after a position, or reports that there is none |
| Template.Trim | generators/app/index.js:52-54 | strips surrounding white space (ECMAScript white space and line terminators) from a placeholder's key; a key without white space is unchanged |
| Template.TrimIsInfix | generators/app/index.js:52-54 | the trimmed key is a slice `s[lo..hi]` of the placeholder's inside, and everything before `lo` and from `hi` on is white space |
| Template.Render | generators/app/index.js:52-54 | `processTemplate` on `<%= key %>` interpolation; it fails only with `RenderError` on a key missing from the context, and text with no `<%=` renders to itself; its meaning is given by RenderPrint, RenderHole and RenderLiteral |
| Template.RenderLiteral | generators/app/index.js:52-54 | text in which no `<%` can start is copied verbatim ahead of whatever follows it |
| Template.HoleAlone | generators/app/index.js:52-54 | a template that is one `<%= k %>` placeholder renders to the value of `k` |
| Template.RenderHole | generators/app/index.js:52-54 | `<%= k %>` renders to the context's value for `k`, and fails with `RenderError(k)` when the key is missing |
| Template.RenderPrint | generators/app/index.js:52-54 | rendering a well-formed template's text equals its reference expansion (literals kept, holes replaced, the first missing key is the error) |
| Template.RenderPath | generators/app/index.js:39 | a destination renders iff every segment renders; then segment i of the result is the rendering of segment i; a failure is `RenderError` on a key missing from the context |
| Template.RenderPathSegments | generators/app/index.js:39 | a destination whose segments render to the segments of `q` renders to `q` |
| Template.RenderPathPlain | generators/app/index.js:39 | a destination with no placeholders renders to itself |
| FileStore.Write | generators/app/index.js:56-73 | an existing file or directory at the destination gives `Collision(dest)`; every failure leaves the tree unchanged; success returns the destination, which then holds exactly the text in an existing parent directory; exactly one file key is added, the directories added are exactly the prefixes of the parent, and no existing file changes |
| FileStore.WritePreservesValid | generators/app/index.js:66-71 | writing keeps the tree well formed: directories are closed under parents, every file's parent is a directory, nothing is both |
| FileStore.FileSystem.FileExists | generators/app/index.js:21-25 | true exactly when a file or a directory is at the path |
| FileStore.FileSystem.MakeDirs | generators/app/index.js:67 | adds every directory on the way to `dir`; if one of them is a file it fails with `IOError` and changes nothing; the tree stays well formed |
| FileStore.FileSystem.WriteText | generators/app/index.js:70 | replaces the file at the path when its parent directory exists and the path is not a directory; otherwise it fails and changes nothing; the tree stays well formed |
| FileStore.FileSystem.WriteFile | generators/app/index.js:56-73 | checks existence, then makes the parent directories, then writes; the new tree and result are those of `Write`, and the tree stays well formed |
| Generator.UpDirs | generators/app/index.js:131 | `'../'.repeat(n)` has length 3n and each 3-character block is `../` |
| Generator.TemplateData | generators/app/index.js:130-136 | the context has exactly the three keys; `stylesDirName` is `../` repeated \|names\|-1 times; `componentName` is the last name; `jsxImport` is the Preact import iff the option is set |
| Generator.NewComponentFile | generators/app/index.js:31-40 | the file is built iff both its text and its destination render; it keeps its source path and names; its text is the rendered template and its destination the rendered `_getWriteFilepath`; a failure is `RenderError` on a missing key |
| Generator.ComponentFileDestination | generators/app/index.js:39 | a built file's destination has one segment per unrendered segment, each the rendering of that segment |
| Generator.RunJob | generators/app/index.js:82 | a file that did not render writes nothing and reports its error; a refused write changes nothing; a write that succeeded reports the file's destination and sets exactly that file's text; an existing destination is a collision |
| Generator.RunAllStep | generators/app/index.js:140-143 | one more template extends the run by that template's write against the tree the earlier ones left |
| Generator.RunAll | generators/app/index.js:138-144 | every discovered file gets exactly one outcome |
| Generator.RunAllOutcomes | generators/app/index.js:59-71 | a file is reported written only when its template rendered, and then under that file's own destination |
| Generator.RunAllKeepsFiles | generators/app/index.js:59-64 | no file that existed before the run is changed by it, whatever fails |
| Generator.RunAllKeepsWrites | generators/app/index.js:143-151 | each write that succeeded is still on disk with its text at the end: later failures do not undo it |
| Generator.RunAllAddsOnlyWrites | generators/app/index.js:66-71 | every file in the final tree was there before or is a reported write |
| Generator.RunAllValid | generators/app/index.js:138-144 | the run keeps the tree well formed |
| Generator.Summarise | generators/app/index.js:143-151 | succeeds iff every file succeeded, and then lists every destination in order; otherwise fails with the first failure in discovery order |
| Generator.CreateRun | generators/app/index.js:123-127 | an empty name list fails with `ArgumentError` and leaves the tree unchanged |
| Generator.ProcessFile | generators/app/index.js:79-83 | builds the component file and writes it; a render failure writes nothing |
| Generator.Create | generators/app/index.js:122-152 | the loop over the discovered templates leaves the tree and the report of `CreateRun`, and keeps the tree well formed |
| GeneratorProperties.CreateReportsEveryFile | generators/app/index.js:138-150 | a successful run reports as many paths as templates were discovered; path i is template i's destination, which holds its rendered text |
| GeneratorProperties.CreateNeverOverwrites | generators/app/index.js:59-64 | whatever the outcome, a run changes no file that was there before and keeps the tree well formed |
| GeneratorProperties.CreateAddsOnlyReported | generators/app/index.js:145-149 | after a successful run the files are the old ones plus exactly the reported paths |
| GeneratorProperties.RunAllFilesExactly | generators/app/index.js:143-149 | for any list of files that all succeed, the final file keys are the old ones plus the reported destinations |
| GeneratorProperties.RunAllAllCollide | generators/app/index.js:59-64 | when every destination exists, every file is refused with a collision on its own path and the tree is unchanged |
| GeneratorProperties.CreateTwiceRefused | generators/app/index.js:59-64 | a second run with the same names over a first successful run fails with a collision on the first template's destination and changes nothing |
| GeneratorProperties.RunAllRefusedFirst | generators/app/index.js:59-64 | when every destination exists, the report is the collision on the first file and the tree is unchanged |
| GeneratorProperties.PlainDestination | generators/app/index.js:42-50 | with placeholder-free names and template paths, a file is produced iff its text renders, and its destination is `components/<name>` per name followed by the relative path |
| GeneratorProperties.NamedDestination | generators/app/index.js:39-49 | a template named `<%= componentName %>` followed by plain text, under plain directories, lands at `components/<name>` per name, the relative directories, then the last name followed by that text |
| GeneratorProperties.NamedSegments | generators/app/index.js:39-49 | the same destination, segment by segment, for any context mapping `componentName` to the last name |
| GeneratorProperties.RenderComponentName | generators/app/index.js:132 | a template holding only the component-name placeholder renders to the last name, verbatim |
| GeneratorProperties.ImportsDiffer | generators/app/index.js:133-135 | the Preact and React import lines are different texts |
| GeneratorProperties.RenderJsxImport | generators/app/index.js:133-135 | the JSX import placeholder renders to the Preact import iff the option is set, and to the React import iff it is not |
| GeneratorProperties.UpDirsStart | generators/app/index.js:131 | `'../'.repeat(n)` is empty for n = 0 and starts with `../` otherwise |
| GeneratorProperties.StylesDirNameDepth | generators/app/index.js:131 | the styles prefix is empty for one name and starts with `../` for more; its placeholder renders to the prefix |
| Scenarios.IndexTemplatePieces | generators/app/index.js:38 | the example template `export const name = '<%= componentName %>';` is well formed |
| Scenarios.IndexComponentFile | generators/app/index.js:31-40 | for `Foo` that template becomes `export const name = 'Foo';` at `components/Foo/index.js` |
| Scenarios.WriteIntoEmpty | generators/app/index.js:66-71 | writing into an empty tree creates `components` and `components/Foo` and the file |
| Scenarios.SingleComponent | generators/app/index.js:122-152 | the whole run for `Foo` over an empty tree writes exactly that one file and reports it |
| Scenarios.NestedComponents | generators/app/index.js:113-118 | `Foo Bar` places `style.css` at `components/Foo/components/Bar/style.css` |
| Scenarios.SingleComponentAgain | generators/app/index.js:59-64 | running `Foo` again fails with a collision on `components/Foo/index.js` and writes nothing |
| Outcomes.Message | generators/app/index.js:63 | a collision reads `A file already exists at path "` + the destination + `".`; the missing-name error is the text at index.js:125 |
| Scenarios.CollisionMessage | generators/app/index.js:63 | the refusal reads `A file already exists at path "components/Foo/index.js".` |

## Left out

- lodash `template` beyond `<%= key %>`: evaluate blocks `<% %>`, escaping `<%- %>`, `${}` delimiters and arbitrary JavaScript expressions are not modelled. A `<%= … %>` whose trimmed inside is not a context key fails with `RenderError`, like an unknown key. `<% %>`, `<%- %>` and `${}` are copied as literal text, except for any `<%= k %>` inside them, which is rendered.
- Template.Trim: only white space is trimmed around a key. A JavaScript comment beside the key is not skipped, and a key is an ASCII identifier.
- Template discovery (`glob` over the clone root) and reading the template text: both are external I/O, so the discovered files and their text are inputs to `Create`. A read failure is not modelled.
- `path.join` / `path.relative` normalisation: names and segments are assumed to be plain segments (no separators, no `..`, not empty).
- Template.RenderPath: renders each segment on its own. The source renders the joined path string, so a placeholder value containing `/` would add segments there.
- Concurrency of `Promise.all`: files are processed one after another in discovery order. In the source the first rejection reaches `.catch`, which calls `process.exit(0)`, so writes still in flight may never happen. The model takes the one order of events in which every file's pipeline finishes before the failure is reported. `RunAllKeepsWrites`, `RunAllAddsOnlyWrites` and the final-tree lemmas built on them describe that order only. The reported failure is the first in discovery order, not the first to complete.
- The check-then-write race is not modelled. Two templates that render to the same destination could both pass the existence check in the source; in the model the second one collides.
- I/O failures other than a file standing where a directory is needed (permissions, a full disk) are not modelled. The texts of the `IOError` and `RenderError` messages stand in for the runtime's own messages.
- FileStore.FileSystem.WriteFile: returns the destination path where the source resolves with the `ComponentFile` itself; `create` uses only its destination.
- The Yeoman lifecycle, the `preact` option registration (a flag parameter here), `this.log.ok`/`this.log.error`, the success report's text and `process.exit(0)` are UI and process plumbing.
