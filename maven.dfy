/** The remote-repository adapter: URL construction in `_download_pom_file`,
    the version choice of `_parse_latest_version` and the record extraction of
    `_parse_dependencies_from_pom`. The XML documents are given as the element
    records ElementTree would yield; the HTTP requests are the two functions of
    a `Network` value. */
module Maven {
  import opened Wrappers
  import opened Text
  import opened Dependencies

  /** `group_id.replace('.', '/')`. */
  function GroupPath(groupId: string): (path: string)
    ensures |path| == |groupId| && '.' !in path
  {
    Replace(groupId, '.', '/')
  }

  /** A group path turns back into the group id when the id had no slash. */
  lemma GroupPathRoundTrip(groupId: string)
    requires '/' !in groupId
    ensures Replace(GroupPath(groupId), '/', '.') == groupId
  {
    ReplaceRoundTrip(groupId, '.', '/');
  }

  /** `{base}/{group_path}/{artifact}`: the artifact directory. */
  function ArtifactDir(base: string, groupId: string, artifactId: string): string
  {
    base + "/" + GroupPath(groupId) + "/" + artifactId
  }

  /** `{base}/{group_path}/{artifact}/maven-metadata.xml`. */
  function MetadataUrl(base: string, groupId: string, artifactId: string): string
  {
    ArtifactDir(base, groupId, artifactId) + "/" + "maven-metadata.xml"
  }

  /** `{base}/{group_path}/{artifact}/{version}/{artifact}-{version}.pom`. */
  function PomUrl(base: string, groupId: string, artifactId: string, version: string): string
  {
    ArtifactDir(base, groupId, artifactId) + "/" + version + "/" + (artifactId + "-" + version + ".pom")
  }

  /** Read as a path, the artifact directory is the base's segments, one
      segment per dotted part of the groupId, and the artifactId. */
  lemma ArtifactDirSegments(base: string, groupId: string, artifactId: string)
    requires '/' !in groupId && '/' !in artifactId
    ensures Split(ArtifactDir(base, groupId, artifactId), '/') == Split(base, '/') + Split(groupId, '.') + [artifactId]
  {
    var g := GroupPath(groupId);
    assert Split(base + "/" + g, '/') == Split(base, '/') + Split(groupId, '.') by {
      SplitConcat(base, '/', g);
      SplitReplace(groupId, '.', '/');
    }
    SplitConcat(base + "/" + g, '/', artifactId);
    SplitFree(artifactId, '/');
  }

  /** Read as a path, the metadata URL is the artifact directory's segments
      and the file name. */
  lemma MetadataUrlSegments(base: string, groupId: string, artifactId: string)
    requires '/' !in groupId && '/' !in artifactId
    ensures Split(MetadataUrl(base, groupId, artifactId), '/') ==
            Split(base, '/') + Split(groupId, '.') + [artifactId, "maven-metadata.xml"]
  {
    ArtifactDirSegments(base, groupId, artifactId);
    SplitConcat(ArtifactDir(base, groupId, artifactId), '/', "maven-metadata.xml");
    MetadataFileSegment();
  }

  /** Read as a path, the POM URL is the artifact directory's segments, the
      version, and the file name `artifact-version.pom`. */
  lemma PomUrlSegments(base: string, groupId: string, artifactId: string, version: string)
    requires '/' !in groupId && '/' !in artifactId && '/' !in version
    ensures Split(PomUrl(base, groupId, artifactId, version), '/') ==
            Split(base, '/') + Split(groupId, '.') + [artifactId, version, artifactId + "-" + version + ".pom"]
  {
    var dir := ArtifactDir(base, groupId, artifactId);
    assert Split(dir + "/" + version, '/') == Split(base, '/') + Split(groupId, '.') + [artifactId, version] by {
      ArtifactDirSegments(base, groupId, artifactId);
      SplitConcat(dir, '/', version);
      SplitFree(version, '/');
    }
    SplitConcat(dir + "/" + version, '/', artifactId + "-" + version + ".pom");
    PomFileSegment(artifactId, version);
  }

  /** The metadata file name is a single path segment. */
  lemma MetadataFileSegment()
    ensures Split("maven-metadata.xml", '/') == ["maven-metadata.xml"]
  {
    assert forall i :: 0 <= i < |"maven-metadata.xml"| ==> "maven-metadata.xml"[i] != '/';
    SplitFree("maven-metadata.xml", '/');
  }

  /** So is `artifact-version.pom` for a slash-free artifactId and version. */
  lemma PomFileSegment(artifactId: string, version: string)
    requires '/' !in artifactId && '/' !in version
    ensures Split(artifactId + "-" + version + ".pom", '/') == [artifactId + "-" + version + ".pom"]
  {
    var file := artifactId + "-" + version + ".pom";
    assert forall i :: 0 <= i < |"-"| ==> "-"[i] != '/';
    assert forall i :: 0 <= i < |".pom"| ==> ".pom"[i] != '/';
    assert '/' !in file;
    SplitFree(file, '/');
  }

  /** The metadata document and the POM of one artifact share its directory,
      and for slash-free coordinates and version they are never the same
      URL: the POM path has one segment more. */
  lemma UrlsShareDirectory(base: string, groupId: string, artifactId: string, version: string)
    ensures var dir := ArtifactDir(base, groupId, artifactId);
            var m := MetadataUrl(base, groupId, artifactId);
            var p := PomUrl(base, groupId, artifactId, version);
            dir + "/" <= m && dir + "/" <= p &&
            ('/' !in groupId && '/' !in artifactId && '/' !in version ==> m != p)
  {
    if '/' !in groupId && '/' !in artifactId && '/' !in version {
      MetadataUrlSegments(base, groupId, artifactId);
      PomUrlSegments(base, groupId, artifactId, version);
      assert |Split(MetadataUrl(base, groupId, artifactId), '/')| + 1 ==
             |Split(PomUrl(base, groupId, artifactId, version), '/')|;
    }
  }

  /** The `<versioning>` element of `maven-metadata.xml`: which of `latest`,
      `release` and `versions` are present, with their texts. */
  datatype Versioning = Versioning(latest: Option<string>, release: Option<string>, versions: Option<seq<string>>)

  /** A metadata document: malformed XML, or parsed with or without `<versioning>`. */
  datatype MetadataDoc = MalformedMetadata | Metadata(versioning: Option<Versioning>)

  /** A `<dependency>` element: the children present among groupId, artifactId, version. */
  datatype DepElem = DepElem(groupId: Option<string>, artifactId: Option<string>, version: Option<string>)

  /** A POM: malformed XML, or parsed with the `<dependency>` lists found by the
      un-namespaced search `.//dependencies` and by the namespaced one. */
  datatype PomDoc = MalformedPom | Pom(plain: Option<seq<DepElem>>, namespaced: Option<seq<DepElem>>)

  /** The HTTP GETs: `None` is an `HTTPError`, `URLError` or undecodable body. */
  datatype Network = Network(getMetadata: string -> Option<MetadataDoc>, getPom: string -> Option<PomDoc>)

  /** Where dependency lists come from, in both stages: the in-memory fixture
      (`mode == 'test'`) or a repository URL. */
  datatype Mode = Test | Remote(repositoryUrl: string)

  /** Versions without `SNAPSHOT` in them, in order. */
  function Stable(versions: seq<string>): (stable: seq<string>)
    ensures forall v :: v in stable <==> v in versions && !Contains(v, "SNAPSHOT")
  {
    if versions == [] then []
    else
      var rest := Stable(versions[1..]);
      assert forall v :: v in versions <==> v == versions[0] || v in versions[1..];
      if Contains(versions[0], "SNAPSHOT") then rest else [versions[0]] + rest
  }

  /** `_parse_latest_version`: `latest`, else `release`, else the greatest
      stable version, else the greatest version, else `None`. */
  function LatestVersion(doc: MetadataDoc): (r: Option<string>)
    ensures r.Some? ==> doc.Metadata? && doc.versioning.Some?
    ensures r.Some? ==>
      var v := doc.versioning.value;
      r == v.latest || r == v.release || (v.versions.Some? && r.value in v.versions.value)
  {
    match doc
    case MalformedMetadata => None
    case Metadata(None) => None
    case Metadata(Some(v)) =>
      if v.latest.Some? then v.latest
      else if v.release.Some? then v.release
      else if v.versions.Some? && |v.versions.value| > 0 then
        var stable := Stable(v.versions.value);
        if |stable| > 0 then Some(MaxString(stable)) else Some(MaxString(v.versions.value))
      else None
  }

  /** The precedence of `_parse_latest_version`, stated as what the answer is. */
  lemma LatestVersionChoice(doc: MetadataDoc)
    ensures (doc.MalformedMetadata? || doc.versioning.None?) ==> LatestVersion(doc) == None
    ensures doc.Metadata? && doc.versioning.Some? ==>
      var v := doc.versioning.value;
      (v.latest.Some? ==> LatestVersion(doc) == v.latest) &&
      (v.latest.None? && v.release.Some? ==> LatestVersion(doc) == v.release) &&
      (v.latest.None? && v.release.None? ==>
        (LatestVersion(doc).Some? <==> v.versions.Some? && |v.versions.value| > 0))
  {
  }

  /** Without `latest` and `release` the choice is the greatest stable version
      when there is one, and the greatest version otherwise. */
  lemma LatestVersionIsGreatest(doc: MetadataDoc)
    requires doc.Metadata? && doc.versioning.Some?
    requires doc.versioning.value.latest.None? && doc.versioning.value.release.None?
    requires doc.versioning.value.versions.Some?
    ensures var vs := doc.versioning.value.versions.value;
            var r := LatestVersion(doc);
            (exists s :: s in vs && !Contains(s, "SNAPSHOT")) ==>
              r.Some? && r.value in vs && !Contains(r.value, "SNAPSHOT") &&
              forall s :: s in vs && !Contains(s, "SNAPSHOT") ==> LexLe(s, r.value)
  {
  }

  /** When every version is a snapshot, the choice is the greatest of them all. */
  lemma LatestVersionAllSnapshots(doc: MetadataDoc)
    requires doc.Metadata? && doc.versioning.Some?
    requires doc.versioning.value.latest.None? && doc.versioning.value.release.None?
    requires doc.versioning.value.versions.Some? && |doc.versioning.value.versions.value| > 0
    requires forall s :: s in doc.versioning.value.versions.value ==> Contains(s, "SNAPSHOT")
    ensures var vs := doc.versioning.value.versions.value;
            var r := LatestVersion(doc);
            r.Some? && r.value in vs && forall s :: s in vs ==> LexLe(s, r.value)
  {
    var vs := doc.versioning.value.versions.value;
    if |Stable(vs)| > 0 {
      assert Stable(vs)[0] in Stable(vs);
    }
  }

  /** A `<dependency>` element with both `groupId` and `artifactId`. */
  predicate Complete(e: DepElem)
  {
    e.groupId.Some? && e.artifactId.Some?
  }

  /** The record built from a complete element; a missing version is `'unknown'`. */
  function ToDep(e: DepElem): Dep
    requires Complete(e)
  {
    Dep(e.groupId.value, e.artifactId.value, if e.version.Some? then e.version.value else "unknown")
  }

  /** The records of the complete elements, in document order. */
  function Records(elems: seq<DepElem>): seq<Dep>
  {
    if elems == [] then []
    else
      var last := elems[|elems| - 1];
      Records(elems[..|elems| - 1]) + (if Complete(last) then [ToDep(last)] else [])
  }

  /** How many elements are complete, counted from the front. */
  function CompleteCount(elems: seq<DepElem>): (n: nat)
    ensures n <= |elems|
  {
    if elems == [] then 0 else (if Complete(elems[0]) then 1 else 0) + CompleteCount(elems[1..])
  }

  /** Document order: the records of two consecutive runs of elements are
      the records of the first run followed by those of the second. */
  lemma {:induction false} RecordsAppend(a: seq<DepElem>, b: seq<DepElem>)
    ensures Records(a + b) == Records(a) + Records(b)
    decreases |b|
  {
    if b == [] {
      assert a + b == a;
    } else {
      var init := b[..|b| - 1];
      var ab := a + b;
      RecordsAppend(a, init);
      assert ab[..|ab| - 1] == a + init;
      assert ab[|ab| - 1] == b[|b| - 1];
    }
  }

  /** A single element gives its own record when it is complete, and none
      otherwise. */
  lemma RecordsSingle(e: DepElem)
    ensures Records([e]) == if Complete(e) then [ToDep(e)] else []
  {
    assert [e][..0] == [];
  }

  /** Every record comes from a complete element, every complete element
      gives a record, and there is exactly one record per complete element. */
  lemma {:induction false} RecordsSpec(elems: seq<DepElem>)
    ensures |Records(elems)| == CompleteCount(elems)
    ensures forall d :: d in Records(elems) ==> exists e :: e in elems && Complete(e) && d == ToDep(e)
    ensures forall e :: e in elems && Complete(e) ==> ToDep(e) in Records(elems)
  {
    if elems != [] {
      var init := elems[..|elems| - 1];
      RecordsSpec(init);
      assert elems == init + [elems[|elems| - 1]];
      RecordsCount(elems);
    }
  }

  lemma {:induction false} RecordsCount(elems: seq<DepElem>)
    ensures |Records(elems)| == CompleteCount(elems)
  {
    if elems != [] {
      RecordsCount(elems[1..]);
      RecordsAppend([elems[0]], elems[1..]);
      assert [elems[0]] + elems[1..] == elems;
    }
  }

  /** The `<dependency>` list the search settles on: the un-namespaced one
      first, the namespaced one otherwise. */
  function DependencySection(pom: PomDoc): Option<seq<DepElem>>
    requires pom.Pom?
  {
    if pom.plain.Some? then pom.plain else pom.namespaced
  }

  /** Specification of `_parse_dependencies_from_pom`: `None` when the XML is
      malformed (the method raises), `[]` without a dependencies section. */
  function ExtractDependencies(pom: PomDoc): (r: Option<seq<Dep>>)
    ensures r.None? <==> pom.MalformedPom?
  {
    match pom
    case MalformedPom => None
    case Pom(_, _) =>
      match DependencySection(pom)
      case None => Some([])
      case Some(elems) => Some(Records(elems))
  }

  /** `_parse_dependencies_from_pom`: the `for`/`append` loop. */
  method ParseDependenciesFromPom(pom: PomDoc) returns (r: Option<seq<Dep>>)
    ensures r == ExtractDependencies(pom)
  {
    if pom.MalformedPom? {
      return None;
    }
    var section := if pom.plain.Some? then pom.plain else pom.namespaced;
    if section.None? {
      return Some([]);
    }
    var elems := section.value;
    var dependencies := [];
    for i := 0 to |elems|
      invariant dependencies == Records(elems[..i])
    {
      var e := elems[i];
      assert elems[..i + 1][..i] == elems[..i];
      if e.groupId.Some? && e.artifactId.Some? {
        var version := if e.version.Some? then e.version.value else "unknown";
        dependencies := dependencies + [Dep(e.groupId.value, e.artifactId.value, version)];
      }
    }
    assert elems[..|elems|] == elems;
    return Some(dependencies);
  }

  /** `_download_pom_file` followed by `_parse_dependencies_from_pom`: `None`
      stands for the exception either of them raises. The version `"latest"`
      is first resolved through the metadata document; an empty or missing
      answer is an error. */
  function FetchRemote(base: string, net: Network, groupId: string, artifactId: string, version: string): (r: Option<seq<Dep>>)
    ensures r.Some? ==>
      exists v :: net.getPom(PomUrl(base, groupId, artifactId, v)).Some? &&
                  r == ExtractDependencies(net.getPom(PomUrl(base, groupId, artifactId, v)).value)
    ensures r.Some? && version == "latest" ==>
      var md := net.getMetadata(MetadataUrl(base, groupId, artifactId));
      md.Some? && LatestVersion(md.value).Some? && LatestVersion(md.value).value != "" &&
      var pom := net.getPom(PomUrl(base, groupId, artifactId, LatestVersion(md.value).value));
      pom.Some? && r == ExtractDependencies(pom.value)
    ensures r.Some? && version != "latest" ==>
      var pom := net.getPom(PomUrl(base, groupId, artifactId, version));
      pom.Some? && r == ExtractDependencies(pom.value)
  {
    var resolved :=
      if version == "latest" then
        match net.getMetadata(MetadataUrl(base, groupId, artifactId))
        case None => None
        case Some(doc) =>
          var v := LatestVersion(doc);
          if v.None? || v.value == "" then None else v
      else Some(version);
    if resolved.None? then None
    else
      match net.getPom(PomUrl(base, groupId, artifactId, resolved.value))
      case None => None
      case Some(pom) => ExtractDependencies(pom)
  }

  /** A remote fetch succeeds only when both documents were served and the POM
      parsed, and its result then is the POM's record list. */
  lemma FetchRemoteSuccess(base: string, net: Network, groupId: string, artifactId: string)
    ensures var r := FetchRemote(base, net, groupId, artifactId, "latest");
            r.Some? <==>
              (var md := net.getMetadata(MetadataUrl(base, groupId, artifactId));
               md.Some? && LatestVersion(md.value).Some? && LatestVersion(md.value).value != "" &&
               var pom := net.getPom(PomUrl(base, groupId, artifactId, LatestVersion(md.value).value));
               pom.Some? && pom.value.Pom? &&
               r == ExtractDependencies(pom.value))
  {
  }
}
