# Maven dependency graph, modelled in Dafny

This project models the dependency-graph engine of the Maven dependency
visualiser in `project2/depgraph3.py`, together with its stage-two
predecessor `project2/depgraph2.py`. The engine does the following:

- It takes a package coordinate `groupId:artifactId` and a configuration: depth limit, optional filter substring, and test or remote mode.
- It fetches each package's direct dependencies from an in-memory fixture table or from a Maven repository. For a repository it resolves the latest version through `maven-metadata.xml`, then reads the `<dependency>` records of the POM.
- It keeps the records whose lower-cased `group:artifact:version` contains the lower-cased filter.
- It builds the dependency graph breadth-first, expanding each coordinate at most once and enqueueing children only while `depth + 1 < max_depth`.
- It renders the graph three ways: as a numbered listing of the root's direct dependencies, as a cycle-safe ASCII tree, and as a D2 diagram written to a file named after the package.

Modules, one per concern:

- `Wrappers`: `Option` and `Result`.
- `Text`: the Python string built-ins the code relies on. These are `lower`, `in`, `split`, `replace`, `*`, `max` on strings, `str(n)` and `f"{n:2}"`.
- `Dependencies`: the dependency record, the `group:artifact` key, the coordinate split, and the filter. The filter is a specification function plus the `for`/`append` method `ApplyFilter`.
- `Maven`: URL construction, the latest-version rule, and POM extraction over abstract XML records. The method `ParseDependenciesFromPom` holds its loop. The remote fetch goes through a `Network` value of two lookup functions. The `Mode` of both stages, fixture table or repository URL, is declared here once.
- `Fixtures`: the two `_get_test_dependencies` tables and their default fallback.
- `Listing`: the numbered listing of `print_dependencies` / `print_direct_dependencies`, as the lines printed.
- `Tree`: `_print_tree_node` as the lines printed. It recurses with a per-path copy of the visited set.
- `Diagram`: the D2 text and its file name.
- `Bfs`: the invariants of the breadth-first loop and the lemmas for one pass of it.
- `DepGraph3`: `get_package_dependencies`, the loop of `build_dependency_graph` (`Explore`), and the class `Visualizer`. The class holds the fields `dependency_graph`, its insertion order, and `visited_packages`; its methods build, list, draw and serialise them.
- `DepGraph2`: `get_dependencies` of the stage-two script. It returns `Err` where that script raises.

How the source's state and behaviour map onto the model:

- The dictionary `dependency_graph` is a `map` plus a `seq` of keys. The `seq` records Python's insertion order, which the D2 output follows.
- The `deque` is a `seq` of `(coordinate, depth)` pairs.
- `Explore` receives the dependency source as a function parameter of coordinate and depth. `Visualizer.BuildDependencyGraph` instantiates it with `get_package_dependencies` over a `Network`.
- Its postcondition says five things about the result:
  - the root is stored at depth 0, and every stored node lies below the limit;
  - each stored list is the filtered answer of the source;
  - every stored node other than the root hangs below a stored parent one level up, through one of that parent's records;
  - every record of a node that could still be expanded leads to a stored node at most one level deeper;
  - the insertion order starts at the root and goes level by level.
- Termination is proved by a measure over the levels still present in the queue. No fuel or bound is assumed.

## Model

| member | source | states |
|---|---|---|
| Dependencies.ParseCoordinate | project2/depgraph3.py:222-226 | a successful split gives two colon-free parts that rebuild the name as `group + ":" + artifact` |
| Dependencies.ParseCoordinateIff | project2/depgraph3.py:222-224 | the split into exactly two parts succeeds if and only if the name holds exactly one colon |
| Dependencies.ParseKey | project2/depgraph3.py:265-266 | a key formatted from colon-free parts splits back into those parts |
| Dependencies.ApplyFilter | project2/depgraph3.py:204-216 | the filter loop returns exactly the specification list `Filtered` |
| Dependencies.KeepSpec | project2/depgraph3.py:208-216 | the kept records (`Keep`) form an order-preserving subsequence; a record is kept if and only if its lower-cased `g:a:v` contains the lower-cased needle; a matching record occurs in the result exactly as often as in the input, and any other record not at all |
| Dependencies.KeepIdempotent | project2/depgraph3.py:208-216 | keeping the matches of the matches changes nothing |
| Dependencies.FilterIdentity | project2/depgraph3.py:205-206 | with no filter or an empty filter the list comes back unchanged |
| Dependencies.FilterSpec | project2/depgraph2.py:225-238 | the filter result (`Filtered`) is an order-preserving subsequence of its input; with a filter, each matching record occurs in it exactly as often as in the input, and no other record occurs |
| Dependencies.FilterIdempotent | project2/depgraph2.py:225-238 | applying the filter twice equals applying it once |
| Text.Lower | project2/depgraph3.py:208-212 | lower-casing keeps the length, leaves no capital ASCII letter, turns each capital into its small letter, and keeps every other character in place |
| Text.LowerIdempotent | project2/depgraph3.py:208-212 | lower-casing twice equals lower-casing once |
| Text.SplitCount | project2/depgraph3.py:222 | `split` yields one more piece than there are separators |
| Text.JoinSplit | project2/depgraph3.py:222 | joining the pieces of `split` with the separator gives the string back |
| Text.Replace | project2/depgraph3.py:393 | the replacement keeps the length and leaves no `from` character when `from != to` |
| Text.ReplaceRoundTrip | project2/depgraph3.py:120 | replacing back restores the string when the replacement character did not occur in it |
| Text.MaxString | project2/depgraph3.py:166-167 | `max` of a non-empty list is an element of it and at least every element in string order |
| Text.MaxStringUnique | project2/depgraph3.py:166-167 | any greatest element of the list is the one `max` returns |
| Text.DecimalRoundTrip | project2/depgraph3.py:319 | the decimal rendering of a count reads back as that count |
| Maven.GroupPath | project2/depgraph2.py:133 | the group path has the groupId's length and no `.` |
| Maven.GroupPathRoundTrip | project2/depgraph2.py:133 | replacing `/` by `.` in the group path gives back a groupId that had no `/` |
| Text.SplitReplace | project2/depgraph2.py:133 | when the new separator did not occur in a string, splitting the replaced string at the new separator gives the pieces the original had at the old one |
| Maven.ArtifactDirSegments | project2/depgraph2.py:133-136 | for a groupId and artifactId without `/`, the artifact directory splits at `/` into the segments of the base URL, the dot-separated parts of the groupId, then the artifactId |
| Maven.MetadataUrlSegments | project2/depgraph2.py:136 | for slash-free coordinates, the metadata URL splits at `/` into the base URL's segments, the groupId's dot-separated parts, the artifactId and `maven-metadata.xml` |
| Maven.PomUrlSegments | project2/depgraph2.py:149 | for slash-free coordinates and version, the POM URL splits at `/` into the base URL's segments, the groupId's dot-separated parts, the artifactId, the version and `artifactId-version.pom` |
| Maven.UrlsShareDirectory | project2/depgraph2.py:133-149 | both URLs start with `base/groupPath/artifact/`, and for slash-free coordinates and version they differ |
| Maven.Stable | project2/depgraph2.py:181 | a version is stable if and only if it is listed and does not contain `SNAPSHOT` |
| Maven.LatestVersion | project2/depgraph2.py:161-187 | an answer is given only for well-formed metadata with a `versioning` section, and it is the `latest` text, the `release` text or one of the listed versions |
| Maven.LatestVersionChoice | project2/depgraph2.py:161-187 | malformed XML or no `versioning` gives `None`; otherwise `latest` wins, then `release`, and without both an answer exists exactly when the versions list is non-empty |
| Maven.LatestVersionIsGreatest | project2/depgraph2.py:175-183 | with a stable version present, the answer is a stable listed version that is greatest among the stable ones |
| Maven.LatestVersionAllSnapshots | project2/depgraph2.py:184 | when every version is a snapshot, the answer is the greatest listed version |
| Maven.RecordsSpec | project2/depgraph2.py:207-218 | `Records` yields exactly one record per element having both `groupId` and `artifactId`; every record comes from such an element (a missing version gives `'unknown'`), and every such element gives one |
| Maven.RecordsAppend | project2/depgraph2.py:207-218 | records keep document order: the records of two consecutive runs of elements are those of the first run followed by those of the second |
| Maven.RecordsSingle | project2/depgraph2.py:208-218 | a single element gives its record when it has both `groupId` and `artifactId`, and nothing otherwise |
| Maven.ExtractDependencies | project2/depgraph2.py:189-223 | extraction fails exactly on malformed XML, where the source raises |
| Maven.ParseDependenciesFromPom | project2/depgraph2.py:189-223 | the parse loop returns `None` on malformed XML, `[]` without a dependencies section, and otherwise the records of the first section found |
| Maven.FetchRemote | project2/depgraph2.py:128-159 | a successful fetch is the extraction of a POM served at the POM URL of some version; for `latest` the metadata was served, `_parse_latest_version` chose a non-empty version from it, and the result is the POM at that version's URL; for an explicit version the result is that version's POM |
| Maven.FetchRemoteSuccess | project2/depgraph2.py:128-159 | a remote fetch succeeds if and only if the metadata was served with a non-empty chosen version and the POM at that version's URL was served and parsed; the result is then that POM's records |
| Fixtures.LookupSpec | project2/depgraph2.py:295-296 | in `Lookup`, a looked-up key is never `'default'`; a known key gets its own list, and any other key gets the default list |
| Fixtures.TestDependencies3NonEmpty | project2/depgraph3.py:272-306 | the stage-three fixture `TestDependencies3` never answers with an empty list, and an unknown key gets the default list |
| Fixtures.TestDependencies2NonEmpty | project2/depgraph2.py:268-296 | the stage-two fixture `TestDependencies2` never answers with an empty list, and an unknown key gets the default list |
| Fixtures.Fixture3Examples | project2/depgraph3.py:272-306 | `junit:junit` gets its single hamcrest record, and an unknown key gets the default list |
| Listing.PaddedRoundTrip | project2/depgraph2.py:307 | a line `f"{i:2}. text"` reads back as `i` and `text` |
| Listing.NumberedLineRoundTrip | project2/depgraph2.py:307 | a numbered line reads back as its number and the record's `g:a:v` |
| Listing.ListingShape | project2/depgraph2.py:298-308 | in `DependencyListing`, an empty list prints only the not-found message; otherwise there are four framing lines plus one line per record, and line `k + 3` reads back as number `k + 1` and record `k` |
| Listing.ListingBody | project2/depgraph2.py:304-308 | a non-empty listing has four framing lines plus one per record, and line `k + 3` is the numbered line of record `k`, counting from 1 |
| Tree.TreeLines | project2/depgraph3.py:336-348 | a coordinate on the path or without a stored list prints exactly one line; an expanded coordinate prints its own line plus at least one line per stored record |
| Tree.ChildLines | project2/depgraph3.py:350-359 | the children from position `i` on print at least one line each |
| Tree.CyclicIsLeaf | project2/depgraph3.py:337-340 | a coordinate already on the path prints one line with the cyclic marker and is not expanded |
| Tree.AbsentIsLeaf | project2/depgraph3.py:342-348 | a coordinate with no stored list prints only its own line |
| Tree.LimitedChildren | project2/depgraph3.py:350-359 | at the depth limit each child prints one depth-limited leaf, `└── ` for the last sibling and `├── ` for the others |
| Tree.LastLevelNode | project2/depgraph3.py:342-359 | a node at the last level prints its own line plus one line per stored record |
| Tree.TreeIndented | project2/depgraph3.py:338-359 | every line printed for a node at `level` starts with that level's indentation |
| Tree.ChildrenIndented | project2/depgraph3.py:350-359 | every line printed for a node's children starts with the next level's indentation |
| TreeScenarios.DiamondRenderedTwice | project2/depgraph3.py:356-357 | each child gets its own copy of the path, so a shared target is printed in full under both parents, with no cyclic marker |
| TreeScenarios.CycleCut | project2/depgraph3.py:337-342 | on a two-node cycle the return to the root prints with the cyclic marker and the output stops there |
| Diagram.UnlinesSplit | project2/depgraph3.py:363-378 | lines without newlines of their own, each written with a trailing newline, split back at newlines into those lines followed by the empty remainder |
| Diagram.D2TextLines | project2/depgraph3.py:363-378 | when no node or edge line holds a newline, the generated text `D2Text` splits at newlines into the header's lines, one quoted line per key in insertion order, one edge line per stored record, then the empty remainder |
| Diagram.EdgeCount | project2/depgraph3.py:372-376 | there is one edge statement per stored record, with no deduplication |
| Diagram.EdgesExact | project2/depgraph3.py:372-376 | an edge statement appears if and only if some stored node has a record it formats |
| Diagram.NodeCount | project2/depgraph3.py:368-369 | with distinct keys there are exactly as many node statements as graph keys |
| Diagram.D2FileName | project2/depgraph3.py:393 | the file name contains no `:` |
| Diagram.D2FileNameInjective | project2/depgraph3.py:393 | two packages without `_` that get the same file name are the same package |
| Bfs.ChildrenEnqueued | project2/depgraph3.py:264-268 | below the limit the inner loop appends entries only at `depth + 1` and only for record keys, and each record key ends up either visited or appended |
| DepGraph3.FetchDependencies | project2/depgraph3.py:228-236 | the test-mode source always answers, and never with an empty list |
| DepGraph3.PackageDependencies | project2/depgraph3.py:218-238 | a non-empty answer is only given below the depth limit for a coordinate that splits into two parts; in test mode it is given exactly then |
| DepGraph3.PackageDependenciesCases | project2/depgraph3.py:218-238 | a bad coordinate gives `[]`; below the limit the source's list is passed through, a failure gives `[]`, and the test fixture is never empty |
| DepGraph3.PackageDependenciesDepthFree | project2/depgraph3.py:219-238 | below the depth limit the answer does not depend on the depth |
| DepGraph3.EnqueueChildren | project2/depgraph3.py:264-268 | the inner loop appends, in record order, `(key, depth + 1)` for each record whose key is not visited |
| DepGraph3.Explore | project2/depgraph3.py:240-270 | the loop ends; the graph, insertion order and visited set agree; the root is at depth 0 and all nodes are below the limit; each stored list is the filtered answer; every non-root node hangs below a parent one level up; every record of an expandable node reaches a stored node at most one level deeper; the insertion order starts at the root and never returns to a shallower level |
| DepGraph3.ExpandFront | project2/depgraph3.py:255-268 | expanding an unvisited front entry keeps the loop invariant and the stored-lists property, and lowers the termination measure |
| DepGraph3.ExploredBuilt | project2/depgraph3.py:258-262 | with `get_package_dependencies` as the source, each stored list is the filtered list of that coordinate, whatever its depth |
| DepGraph3.Visualizer.constructor | project2/depgraph3.py:15-19 | a new visualiser holds the given configuration, an empty graph, an empty insertion order and an empty visited set |
| DepGraph3.Visualizer.BuildDependencyGraph | project2/depgraph3.py:240-270 | resets and fills the fields so that the configuration is unchanged, the key set equals the visited set, and the properties stated for `Explore` hold |
| DepGraph3.Visualizer.DirectDependencies | project2/depgraph3.py:308-323 | the not-found message appears exactly when the root is missing or has no records; otherwise there are four framing lines plus one line per record |
| DepGraph3.Visualizer.AsciiTree | project2/depgraph3.py:325-334 | an empty graph gives only the empty message; otherwise the three header lines come first, followed by the tree starting at the root's own line |
| DepGraph3.Visualizer.GenerateD2 | project2/depgraph3.py:363-378 | the generated text is `D2Text` of the insertion order and the graph: the header, one quoted line per key in insertion order, then one edge line per stored record |
| DepGraph3.RenderD2 | project2/depgraph3.py:364-376 | the two loops build exactly `D2Text` of the order and graph they are given, whose lines the `Diagram` lemmas describe |
| DepGraph3.AppendEdges | project2/depgraph3.py:374-376 | the inner loop appends one `"package" -> "g:a"` statement per stored record of the package, in stored order, to the text built so far |
| DepGraph3.Visualizer.VisualizeGraph | project2/depgraph3.py:380-398 | nothing is written if and only if the graph is empty; otherwise the D2 text is written to `dependency_graph_<package with : as _>.d2` |
| DepGraph2.GetDependencies | project2/depgraph2.py:240-266 | the bad-name error occurs if and only if the name does not split into exactly two parts |
| DepGraph2.BadNameRaises | project2/depgraph2.py:242-244 | the name is rejected if and only if it does not hold exactly one colon |
| DepGraph2.GetDependenciesSpec | project2/depgraph2.py:250-266 | a result exists if and only if the name parses and the source answers; it is then a subsequence of the source's list, equal to it without a filter, and with one it holds each matching record exactly as often as the source's list does and no other record |
| DepGraph2.SourceDependencies | project2/depgraph2.py:250-261 | the test-mode source always answers, and never with an empty list |
| DepGraph2.TestModeAnswers | project2/depgraph2.py:258-266 | in test mode a well-formed name always gets a result; without a filter it is the key's fixture list and is non-empty |
| DepGraph2.GetDependenciesFilterStable | project2/depgraph2.py:264 | filtering the result again with the same substring changes nothing |

## Left out

- Network I/O: `urllib.request.urlopen` is the `Network` value, a pair of functions from URL to an optional parsed document. `None` stands for `HTTPError`, `URLError` or an undecodable body. The console messages printed on these paths are not modelled.
- XML parsing: ElementTree is not modelled. A metadata document is the texts of `latest`, `release` and `version` under `versioning`. A POM is the `<dependency>` lists that the plain and the namespaced `.//dependencies` searches find. The namespaced list stands for what the un-namespaced `findall('dependency')` (depgraph2.py:207, depgraph3.py:186) finds inside the namespaced section: under the default Maven namespace it is empty, so a namespaced POM yields `[]` in remote mode. Elements with a missing text (`None`) are not represented.
- Console output: printing is modelled as the sequence of lines printed. The progress messages of `build_dependency_graph` and `get_package_dependencies` are not modelled.
- File writing and the `d2` subprocess in `visualize_graph`: `VisualizeGraph` returns the file name and content instead. The PNG rendering and its error handling are not modelled.
- DepGraph3.Visualizer.constructor: takes the configuration as a parameter, where `__init__` starts from `{}` and the command-line code fills it in later; the `argparse` parser it builds is not modelled.
- Command line: argument parsing and validation, configuration conversion, `print_config`, `run`, `compare_with_maven`, `demonstrate_examples` and `main` in both scripts.
- Text.Lower: lower-cases ASCII letters only. Python's `str.lower` also maps non-ASCII letters, with context-dependent rules such as a final capital sigma becoming `ς`, so on non-ASCII text the filter matches differently in this model.
- DepGraph3.Explore: requires `max_depth >= 1`, which the command-line validation enforces before any build. With a smaller limit the source would store the root with an empty list.
- DepGraph3.Visualizer.BuildDependencyGraph: requires `max_depth >= 1` for the same reason.
- Ghost depth and parent maps: these record, for each stored coordinate, the depth it was expanded at and the parent it was reached from. The source keeps no such data; the maps exist only to state the breadth-first properties.
