# SocialGraph editor core in Dafny

SocialGraph is a browser editor that draws a social graph of organisations, people and
projects as a force-directed layout. A small PHP script serves the stored graphs. This
project models the editor's discrete bookkeeping:

- the 2-D vector algebra (`Coords`);
- how a vertex is built from its properties: default members, mass from members, a kept position;
- the lookups by title, by point and by nearest distance;
- the editing state: the global graph and the selection list, changed by adding, selecting,
  editing, animating and importing;
- the HTML builders `tag`, `button` and `select`, and the licence links and menu;
- the import check and conversion of a parsed JSON document, the JSON/Atom download, and the
  Atom feed;
- the routing of the page address `PATH ? ID # KEY` at start-up;
- the file-name sanitisation and the fallback text of `get.php`.

One module per source file:

| module | file | source |
|---|---|---|
| `Vector` | coords.dfy | js/Coords.js |
| `Vertices` | vertex.dfy | js/Vertex.js |
| `UserInterface` | user_interface.dfy | js/user_interface.js |
| `Dom` | dom.dfy | js/dom.js |
| `ImportExport` | import_export.dfy | js/import_export.js |
| `Bootstrap` | bootstrap.dfy | js/bootstrap.js |
| `DataFile` | get_php.dfy | get.php |
| `Monolith` | monolith.dfy | SocialGraph.js |

Three modules are shared:

- `Wrappers` holds `Option`.
- `Chars` holds the `\w` character class and decimal rendering.
- `JsValue` holds the parsed-JSON values, JavaScript truthiness and the text a value turns
  into inside `tag()`.

Modelling choices:

- Coordinates are exact reals. The norm and the distance need a square root, so they appear
  only as squares. The hit test `|c - p| < radius` becomes `|c - p|² < mass · 20²`, because
  `radius = sqrt(mass) · objectsDensity`.
- A vertex is a value (`Vertices.Vertex`). The source's `vertex(v)` builds a new object from a
  stored vertex, with its mass computed again; here that is `Vertices.Renew`.
- The globals `graph` and `selectedVertices` of js/user_interface.js are the fields of the class
  `UserInterface.Editor`. Its methods update them in place, each proved against a
  specification function with its own lemmas:
  - the free-title search `FirstFree`;
  - the animation pass `Sweep`;
  - the conversion `Convert`.
- The pairwise attraction in `speed` is a function parameter (`Vertices.Force`). The model
  keeps what the loop does with it: which vertices contribute, in which order, and the
  centre-seeking term.
- The random default position is a parameter, `fallback`.

Two points about the order of updates, where the model follows the code as written:

- **Animation order.** The animation does not compute every speed from one snapshot (a Jacobi
  update). The loop of `animate` (js/user_interface.js:413-417) writes `vertices[i]` before
  computing the speed of `vertices[i+1]`, so later vertices see the updated earlier ones
  (Gauss-Seidel). `UserInterface.SweepSequential` states exactly that.
- **Failed imports.** When an entry of the document is `null`, `undefined` or another
  non-object, `vertex(...)` throws inside `convertJsonStringToGraph` before `graph` is assigned,
  so the graph stays as it was. The model gives `Failed(TypeError)` and keeps the graph
  (`UserInterface.Editor.ImportFromUrl`). An entry whose position is set but not numeric does
  not throw in the source; the model refuses that document too (see "## Left out"). The
  single-file variant stores the parsed document without converting it.
  `Monolith.NullEntryStoredButNotConverted` exhibits a document that this variant stores and
  the split-out one refuses.

SocialGraph.js is the older single-file build of the same program:

- Its `getVertexByTitle` (576-582), `getVertexByCoords` (674-685) and `selectVertex` (691-702)
  are the same code as `getVertexIdByTitle`, `getVertexIdByCoords` and `selectVertex` in the split files.
- So are its `licenseLink` (773-787), `addNewVertex` (807-826), `download` (1002-1041), `select`
  (1144-1159), `tag` (1168-1172) and `button` (1180-1182): they match
  `licenseLink`, `createVertexAndEditPanel`, `download`, `select`, `tag` and `button`.
- All of these are modelled once, by the members cited below for the split files.
- Only the three parts where the file differs have members of their own in `Monolith`.

## Model

| member | source | states |
|---|---|---|
| `Vector.PlusIsComponentwise` | js/Coords.js:40-42 | `plus` adds the two components separately |
| `Vector.PlusCommutative` | js/Coords.js:40-42 | `a.plus(c)` equals `c.plus(a)` |
| `Vector.PlusZero` | js/Coords.js:40-42 | the zero vector is neutral on both sides |
| `Vector.MinusUndoesPlus` | js/Coords.js:40-52 | `a.plus(c).minus(c)` is `a` |
| `Vector.TimesOne` | js/Coords.js:60-62 | `times(1)` is the identity |
| `Vector.TimesZero` | js/Coords.js:60-62 | `times(0)` is the zero vector |
| `Vector.TimesDistributes` | js/Coords.js:40-62 | `times` distributes over `plus` |
| `Vector.ScalarSymmetric` | js/Coords.js:70-72 | `scalar(a, c)` equals `scalar(c, a)` |
| `Vector.NormSqNonNegative` | js/Coords.js:70-81 | the squared norm `scalar(v, v)` is never negative |
| `Vector.DistanceSqSymmetric` | js/Coords.js:79-91 | the squared distance from `a` to `c` equals the one from `c` to `a` |
| `Vector.NormSqTimes` | js/Coords.js:60-81 | scaling by `k` scales the squared norm by `k²` |
| `JsValue.TagTextOfString` | js/dom.js:78-82 | a text value is put between the tags as it is |
| `Bootstrap.ConstantValues` | js/bootstrap.js:28-52 | `minimalMass = 1`, `objectsDensity = 20`, `objectsMargin = 9 · 20 = 180`, `timeStep = 1` |
| `Bootstrap.DefaultMetadata` | js/bootstrap.js:88-113 | the start-up metadata is an object whose `created` is the start-up time |
| `Bootstrap.DefaultMetadataFields` | js/bootstrap.js:88-113 | the start-up metadata has title `An untitled social graph`, authors `[Anonymous]`, visibility `private`, licence `COPYRIGHT` and alias `untitled` |
| `Bootstrap.Split` | js/bootstrap.js:153-162 | `split` always yields at least one piece |
| `Bootstrap.SplitJoin` | js/bootstrap.js:153-162 | joining the pieces with the separator gives the text back |
| `Bootstrap.SplitPiecesFree` | js/bootstrap.js:153-162 | no piece contains the separator |
| `Bootstrap.SplitLength` | js/bootstrap.js:153-162 | there is one piece more than there are separators |
| `Bootstrap.SplitWithoutSeparator` | js/bootstrap.js:153-162 | a text without the separator is one piece |
| `Bootstrap.SplitAtFirst` | js/bootstrap.js:153-162 | the text before the first separator is the first piece, and the rest is split on its own |
| `Bootstrap.GraphKeyBetweenHashes` | js/bootstrap.js:153-159 | `graphKey` is exactly the text between the first and the second `#` |
| `Bootstrap.GraphKeyWithoutHash` | js/bootstrap.js:153-159 | without a `#` there is no key and the whole address is searched for the id |
| `Bootstrap.Startup` | js/bootstrap.js:151-169 | the key holds no `#`; an import address is `SocialGraphUrl + 'get?'` followed by an id of more than two word characters, with no `?` or `#` in it |
| `Bootstrap.RouteIgnoresKeyPart` | js/bootstrap.js:153-169 | what follows the first `#` never affects which graph is imported |
| `Bootstrap.ImportNeedsOneQuestionMark` | js/bootstrap.js:162-169 | no import starts unless the text before `#` holds exactly one `?` |
| `Bootstrap.ImportUrlOfQuery` | js/bootstrap.js:162-169 | for `PATH?ID`, the import address is `SocialGraphUrl + 'get?' + ID` exactly when ID has more than 2 characters, all word characters |
| `Vertices.CoordsValue` | js/Coords.js:102-104 | a `Coords` object has numeric `x` and `y` that read back as the same vector |
| `Vertices.NewVertex` | js/Vertex.js:34-86 | the constructor succeeds exactly when the position is missing, false or numeric; the vertex's mass is `minimalMass` plus the number of members, so at least 1 |
| `Vertices.NewVertexCopiesProperties` | js/Vertex.js:47-86 | title, type, image, description, details and links are copied verbatim |
| `Vertices.NewVertexMembers` | js/Vertex.js:36-65 | members are the given array, or empty when none is given, and the mass counts them |
| `Vertices.NewVertexPosition` | js/Vertex.js:38-40 | a supplied position is kept; the random point is used only when none is supplied |
| `Vertices.Renew` | js/Vertex.js:271-274 | re-wrapping a vertex gives it the mass its members determine |
| `Vertices.NewVertexOfProps` | js/Vertex.js:271-274 | constructing from a vertex's own properties gives that vertex back with its mass recomputed |
| `Vertices.RenewNormalised` | js/Vertex.js:271-274 | re-wrapping leaves a vertex unchanged exactly when its mass already matches its members |
| `Vertices.GetVertexIdByTitle` | js/Vertex.js:281-287 | the result is -1 or a valid index; -1 exactly when no title matches; otherwise the lowest matching index |
| `Vertices.RadiusSqOfMembers` | js/Vertex.js:65-71 | the squared radius is 400 times one more than the number of members |
| `Vertices.GetVertexIdByCoords` | js/Vertex.js:294-305 | the result is -1 or a valid index; -1 exactly when no circle contains the point; otherwise the lowest index whose circle does |
| `Vertices.HitIsStrict` | js/Vertex.js:294-305 | a point exactly on a circle's boundary is not a hit |
| `Vertices.Speed` | js/Vertex.js:108-132 | the loop's result is the sum of the terms of the vertices titled otherwise, in array order, plus the centre term |
| `Vertices.PairSumSkipsOwnTitle` | js/Vertex.js:113-127 | a vertex with the same title as this one adds nothing to the speed |
| `Vertices.PairSumAddsOther` | js/Vertex.js:113-127 | a vertex with a different title adds its own pairwise term |
| `Vertices.PairSumAllSameTitle` | js/Vertex.js:113-127 | when every vertex shares this title the pairwise sum is zero |
| `Vertices.SpeedAllSameTitle` | js/Vertex.js:108-132 | then the speed is exactly `position · (-0.002 · mass)` |
| `Vertices.Step` | js/Vertex.js:141-146 | a step changes only the position, so a vertex whose mass matches its members still does |
| `Vertices.StepMovesOnlyPosition` | js/Vertex.js:141-146 | with `timeStep = 1`, `step` adds the speed to the position and changes no other field |
| `Dom.Tag` | js/dom.js:78-82 | the result has the length of its three parts, begins with the opening tag and ends with the closing tag |
| `Dom.TagContent` | js/dom.js:78-82 | a tag is its opening tag, the inner text and its closing tag, each readable back from the result |
| `Dom.OpenShapes` | js/dom.js:78-82 | without an id the opening tag has no attribute; with one it is `<name id=ID>` |
| `Dom.Button` | js/dom.js:91-93 | the opening tag carries the id, and the text inside the button is the label, or the id when the label is empty |
| `Dom.ButtonFallsBackToId` | js/dom.js:91-93 | a button shows its label, or its id when there is no label |
| `Dom.Items` | js/dom.js:57-59 | an array's options use each element as both value and label; an object's use key and value, in order |
| `Dom.Elements` | js/dom.js:57-64 | there is one option per item, with the item's value and label, marked exactly when its value equals the selected one |
| `Dom.Select` | js/dom.js:53-68 | the loop's result is a `select` tag holding the options in order, each written with its value, its marking and its label |
| `Dom.NothingMarkedWithoutSelection` | js/dom.js:60-62 | without a selected text value no option is marked |
| `Dom.AtMostOneMarked` | js/dom.js:60-62 | with distinct values at most one option is marked, and it carries the selected value |
| `ImportExport.GraphShapedIsObject` | js/import_export.js:94-98 | the import check passes exactly for an object whose `metadata` is an object or array and whose `vertices` is an array |
| `ImportExport.ConvertEntryMade` | js/import_export.js:100-105 | an entry converts exactly when it is an object with a usable position, into the vertex the constructor builds |
| `ImportExport.StopPersists` | js/import_export.js:100-105 | once an entry throws, the whole conversion throws the same error |
| `ImportExport.ConvertEntriesMade` | js/import_export.js:100-105 | the entries convert exactly when each can, one vertex per entry in order |
| `ImportExport.Convert` | js/import_export.js:90-115 | a document is refused exactly when it fails the shape check; an accepted graph keeps the document's metadata |
| `ImportExport.ConvertAccepts` | js/import_export.js:94-107 | a document is accepted exactly when it passes the check and every entry converts |
| `ImportExport.ConvertAcceptedGraph` | js/import_export.js:94-107 | an accepted graph keeps the metadata and has one normalised vertex per entry, each keeping the `x` and `y` of its position |
| `ImportExport.ConvertJsonStringToGraph` | js/import_export.js:90-115 | the in-place loop computes `Convert`: refused, the converted graph, or the first entry's error |
| `ImportExport.VertexDocumentsConvert` | js/import_export.js:100-105 | the stored form of normalised vertices converts back to the same vertices |
| `ImportExport.ExportThenImport` | js/import_export.js:90-107 | importing the document of a graph with object metadata and normalised vertices gives the same graph |
| `ImportExport.AtomEntriesAppend` | js/import_export.js:37-43 | one more vertex adds its entry at the end of the feed's entries |
| `ImportExport.AtomEntryOfVertex` | js/import_export.js:37-43 | there is one entry per vertex, in array order |
| `ImportExport.AtomFeedFrame` | js/import_export.js:28-46 | a feed is the XML declaration, the Atom `feed` tag, the head elements, the entries and the closing tag |
| `ImportExport.AtomHeadSources` | js/import_export.js:29-35 | the head takes its title, update time and author from `metadata.title`, `metadata.created` and `metadata.authors[0]` |
| `ImportExport.AtomNeedsAuthors` | js/import_export.js:29-35 | the feed cannot be built, because reading it throws, exactly when the metadata or its `authors` is null or undefined |
| `ImportExport.DownloadResult` | js/import_export.js:12-51 | it throws exactly for an Atom export whose head cannot be read; otherwise it shows the not-implemented error panel or an `Output` panel with a non-empty `textarea` |
| `ImportExport.DownloadOtherChoices` | js/import_export.js:22-49 | any choice other than a graph in JSON or Atom shows the error panel |
| `ImportExport.DownloadAtom` | js/import_export.js:27-50 | an Atom export that can read its head shows the feed inside a `textarea`, never the error |
| `ImportExport.BuildAtomFeed` | js/import_export.js:29-45 | the `+=` loop builds exactly the feed `AtomFeed` describes |
| `ImportExport.Download` | js/import_export.js:12-51 | `download` shows what `DownloadResult` describes |
| `UserInterface.PredefinedLicensesDistinct` | js/user_interface.js:22-68 | there are nine licences with distinct identifiers, the eighth `COPYRIGHT` |
| `UserInterface.LicenseAnchor` | js/user_interface.js:178-183 | a licence's link is never empty |
| `UserInterface.LinkOf` | js/user_interface.js:172-186 | the result is empty, or the link of a licence in the table whose identifier is the one asked for |
| `UserInterface.LinkOfUnknown` | js/user_interface.js:172-186 | the link is empty exactly when no licence has the identifier |
| `UserInterface.LinkOfKnown` | js/user_interface.js:172-186 | with distinct identifiers, a licence's identifier gives that licence's link |
| `UserInterface.LicenseLink` | js/user_interface.js:172-186 | the loop returns the link of the first licence with the identifier, or the empty text |
| `UserInterface.PutNew` | js/user_interface.js:236-237 | assigning a new key to an object appends it at the end of the key order |
| `UserInterface.ChoicesOfDistinct` | js/user_interface.js:234-237 | with distinct identifiers the licence menu lists every licence once, in table order, as (id, name) |
| `UserInterface.LicenseChoices` | js/user_interface.js:234-237 | the loop builds the object that successive assignments give |
| `UserInterface.FreeFromNone` | js/user_interface.js:211-215 | the search from `n` finds nothing exactly when every title `#n` to `#100` is taken |
| `UserInterface.FreeFromSome` | js/user_interface.js:211-215 | a number found from `n` is free, at most 100, and every number before it from `n` is taken |
| `UserInterface.FirstFreeIsLeast` | js/user_interface.js:211-215 | the new title is `#k` for the least free k in 1..100, and there is none exactly when all are taken |
| `UserInterface.NewVertexAt` | js/user_interface.js:217-220 | the new vertex is titled `#k`, has type `Organization`, sits at the mouse and has no members and mass 1 |
| `UserInterface.FreeTitle` | js/user_interface.js:209-215 | the `while` loop, with its early return after `#100`, finds exactly `FirstFree` |
| `UserInterface.Sweep` | js/user_interface.js:413-417 | the animation pass keeps the number of vertices |
| `UserInterface.SweepLeavesLater` | js/user_interface.js:413-417 | iteration i touches no entry after i |
| `UserInterface.SweepKeepsEarlier` | js/user_interface.js:413-417 | once entry i is written, no later iteration writes it again |
| `UserInterface.SweepSequential` | js/user_interface.js:413-417 | the new entry k is the step of the old one against the updated entries before k and the old ones from k on |
| `UserInterface.SweepMovesOnlyPositions` | js/user_interface.js:413-417 | the pass changes only positions and keeps every mass matching its members |
| `UserInterface.Editor.constructor` | js/bootstrap.js:81-113 | the editor starts with the default metadata, no vertices and an empty selection |
| `UserInterface.Editor.CreateVertexAndEditPanel` | js/user_interface.js:206-225 | appends the new vertex for the first free title and selects exactly it; changes nothing when `#1` to `#100` are taken |
| `UserInterface.Editor.SelectVertex` | js/user_interface.js:459-470 | the selection is empty exactly when no circle contains the mouse, and otherwise holds only the lowest index whose circle does |
| `UserInterface.Editor.EditVertex` | js/user_interface.js:313-323 | sets type, title and description of the first selected vertex and changes nothing else; without a selected vertex nothing changes and the source throws a TypeError |
| `UserInterface.Editor.Animate` | js/user_interface.js:407-426 | the vertices become `Sweep` of the old ones, and metadata and selection stay |
| `UserInterface.Editor.ImportFromUrl` | js/import_export.js:121-131 | the graph becomes the converted graph when the document is accepted, and stays otherwise |
| `DataFile.Sanitise` | get.php:26 | the name holds only word characters and is no longer than the query |
| `DataFile.SanitiseChar` | get.php:26 | a single word character is kept and any other character is deleted |
| `DataFile.SanitiseAppend` | get.php:26 | sanitising works piece by piece, so the name is the query's word characters in their order |
| `DataFile.SanitiseCounts` | get.php:26 | each word character occurs as often in the name as in the query, and no other character occurs |
| `DataFile.SanitiseKeepsWords` | get.php:26 | a query of word characters is kept as it is |
| `DataFile.SanitiseIdempotent` | get.php:26 | sanitising twice is sanitising once |
| `DataFile.DataPathShape` | get.php:26 | the path is `data/` + name + `.json`, with its only `/` after `data` and its only `.` before `json` |
| `DataFile.FallbackShape` | get.php:29-33 | the fallback is a fixed head (title `untitled`, author `Anonymous`), the date, and a fixed tail (visibility `public`, licence `CC-BY-SA`, empty `vertices`) |
| `DataFile.OutputIgnoresNonWord` | get.php:26-28 | queries with the same word characters print the same file |
| `DataFile.Output` | get.php:28-33 | the output is always one of the stored files or the fallback text, nothing else |
| `DataFile.OutputCases` | get.php:28-33 | an existing file is printed as is; otherwise the output is the fallback text, which starts with the fallback head and ends with the fallback tail |
| `DataFile.OutputOfSplitQuery` | get.php:26-28 | a character outside the word class anywhere in the query does not change the output |
| `Monolith.LegacyDefaultMetadata` | SocialGraph.js:188-211 | the single-file start-up metadata is an object holding the start-up time as `created`, with no `alias` |
| `Monolith.LegacyDefaultLacksAlias` | SocialGraph.js:188-211 | the single-file start-up metadata is the later one without its `alias` entry |
| `Monolith.ClosestIsUnique` | SocialGraph.js:653-663 | at most one index is closest in the strict-tie sense |
| `Monolith.GetClosestTo` | SocialGraph.js:642-667 | there is no index for an empty graph; otherwise the index is at least as close as every vertex and strictly closer than every earlier one |
| `Monolith.ImportFromUrl` | SocialGraph.js:1071-1091 | a document passing the check becomes the graph as it is; otherwise the graph stays and the error is reported |
| `Monolith.ImportAgreesWithConvert` | SocialGraph.js:1077-1085 | both variants refuse the same documents; where the later one accepts, it keeps the metadata and the number of vertices |
| `Monolith.NullEntryStoredButNotConverted` | SocialGraph.js:1077-1085 | a document with a `null` vertex entry is stored by this variant but throws a TypeError in the later one |

## Left out

- The pairwise force `f = (x-1)/x²` in `speed` needs `sqrt` and floating-point division by a
  distance that is not guarded against zero. It is the parameter `force`.
- `Vector.NormSqNonNegative`: does not state that the squared norm is zero only for the zero
  vector. The verifier's nonlinear real arithmetic does not prove that strict inequality.
- Square roots: `norm`, `distance` and `radius` appear only as squares. Comparing squares
  replaces comparing the roots, because the square root is monotone, and the model does not
  prove that monotonicity.
- Floating point: coordinates are exact reals, and `NaN` does not occur.
- Vertices.NewVertex: refuses (`None`) a position that is set but not numeric, such as `true`
  or `{"x": "1", "y": "2"}`. The source keeps such a position; later arithmetic on it gives
  text (under `+`), `NaN` or `undefined` coordinates instead of an error.
- UserInterface.Editor.ImportFromUrl: a document with an entry whose position is set but not
  numeric is refused (`Failed(NonNumericPosition)`) and the old graph is kept. The source does
  not throw for such an entry, so it replaces the graph with vertices whose coordinates are not
  numbers. The same holds for `ImportExport.Convert` and `ImportExport.ConvertJsonStringToGraph`.
- ImportExport.ExportThenImport: holds for the model's document `GraphDocument`, in which every
  field of a vertex is kept as it is. `JSON.stringify` writes an `undefined` array element as
  `null` and drops an `undefined` field, so a graph holding such values does not come back the
  same through a real JSON text.
- Numbers and arrays placed inside a tag render as the empty text (`JsValue.TagText`). The
  source would print their decimal or comma-joined form.
- `==` in the source is loose equality. The model compares for strict equality: a title, value
  or licence identifier matches only a text value equal to it.
- The order of object keys is taken as given by the `Options` and `Props` values. JavaScript's
  own ordering of integer-like keys is not modelled.
- Canvas drawing (`draw`, `drawLinkTo`, `path`, `clearRect`) is left out. So are the re-scheduling
  of `animate` with `setTimeout` and the canvas resizing. The link drawing's lookup of an unknown
  title, which passes `graph.vertices[-1]`, is left out too.
- The random colour is left out. The random default position is a parameter.
- `JSON.parse` and `JSON.stringify` are left out. A parsed document is a `JsValue.Value`, and the
  JSON text is a parameter of `download`.
- DOM and network glue is left out: `getId`, `create`, `trackMouse`, `showPanel`, `closePanel`,
  `showMenu`, `displayError` and `getDataFromUrl`. So are the fixed-text panels and `editPanel`,
  which only render.
- In js/bootstrap.js, `window.onload` builds the import address and passes it to the network
  call. The model stops at that address (`Bootstrap.Startup`).
- In get.php, the headers, `file_exists` and `file_get_contents` are left out. The data directory
  is a map from paths to contents. `date('r')` is a parameter and is written unquoted, so the
  model claims nothing about the fallback being valid JSON.
- `convertJsonStringToGraph` overwrites `buffer.vertices[i]` in place and then rebuilds each
  position. The model builds a new sequence, keeps only the metadata and the vertices, and
  drops any other field of the document.
- Aliasing: vertices are values, so two slots of the graph never share one object. The model
  does not capture an edit made through one reference showing up through another.
- The single-file variant keeps the raw document after an import, and each lookup converts its
  entries again. The model does not follow those raw entries. Its lookups, adding, selecting and
  download are modelled on converted vertices, like the split-out files.
- jsdoc-toolkit/app/plugins/publishSrcHilite.js is documentation tooling and is not part of this model.
