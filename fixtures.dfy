/** The in-memory test repositories `_get_test_dependencies` of the two
    versions of the tool: a dictionary keyed by `group:artifact`, with the
    `'default'` list for every other key. */
module Fixtures {
  import opened Dependencies

  const Default3: seq<Dep> := [
    Dep("junit", "junit", "4.13.2"),
    Dep("org.slf4j", "slf4j-api", "1.7.36")
  ]

  /** The dictionary of `depgraph3.py`. */
  const Table3: map<string, seq<Dep>> := map[
    "junit:junit" := [Dep("org.hamcrest", "hamcrest-core", "2.2")],
    "org.springframework:spring-core" := [
      Dep("commons-logging", "commons-logging", "1.2"),
      Dep("org.springframework", "spring-jcl", "5.3.23")],
    "org.springframework:spring-jcl" := [Dep("org.slf4j", "slf4j-api", "1.7.36")],
    "org.hamcrest:hamcrest-core" := [Dep("org.hamcrest", "hamcrest-library", "2.2")],
    "org.hamcrest:hamcrest-library" := [Dep("junit", "junit", "4.13.2")],
    "com.example:my-app" := [
      Dep("junit", "junit", "4.13.2"),
      Dep("org.springframework", "spring-core", "5.3.23"),
      Dep("com.google.guava", "guava", "31.1-jre")],
    "com.google.guava:guava" := [
      Dep("com.google.guava", "failureaccess", "1.0.1"),
      Dep("com.google.guava", "listenablefuture", "9999.0-empty-to-avoid-conflict-with-guava")],
    "default" := Default3
  ]

  const Default2: seq<Dep> := [
    Dep("junit", "junit", "4.13.2"),
    Dep("org.slf4j", "slf4j-api", "1.7.36"),
    Dep("com.fasterxml.jackson.core", "jackson-databind", "2.14.1")
  ]

  /** The dictionary of `depgraph2.py`. */
  const Table2: map<string, seq<Dep>> := map[
    "junit:junit" := [
      Dep("org.hamcrest", "hamcrest-core", "2.2"),
      Dep("org.hamcrest", "hamcrest-library", "2.2")],
    "org.springframework:spring-core" := [
      Dep("commons-logging", "commons-logging", "1.2"),
      Dep("org.springframework", "spring-jcl", "5.3.23"),
      Dep("org.springframework", "spring-test", "5.3.23")],
    "com.example:my-app" := [
      Dep("junit", "junit", "4.13.2"),
      Dep("org.mockito", "mockito-core", "4.5.1"),
      Dep("com.google.guava", "guava", "31.1-jre"),
      Dep("org.slf4j", "slf4j-api", "1.7.36"),
      Dep("org.springframework", "spring-context", "5.3.23")],
    "default" := Default2
  ]

  /** `test_dependencies.get(f"{group}:{artifact}", test_dependencies['default'])`. */
  function Lookup(table: map<string, seq<Dep>>, groupId: string, artifactId: string): seq<Dep>
    requires "default" in table
  {
    var key := groupId + ":" + artifactId;
    if key in table then table[key] else table["default"]
  }

  function TestDependencies3(groupId: string, artifactId: string): seq<Dep>
  {
    Lookup(Table3, groupId, artifactId)
  }

  function TestDependencies2(groupId: string, artifactId: string): seq<Dep>
  {
    Lookup(Table2, groupId, artifactId)
  }

  /** A looked-up key always holds a colon, so the `'default'` entry is reached
      only as the fallback: a known key gets its own list, any other the
      default list. */
  lemma LookupSpec(table: map<string, seq<Dep>>, groupId: string, artifactId: string)
    requires "default" in table
    ensures groupId + ":" + artifactId != "default"
    ensures var key := groupId + ":" + artifactId;
            Lookup(table, groupId, artifactId) == (if key in table then table[key] else table["default"])
  {
    var key := groupId + ":" + artifactId;
    assert key[|groupId|] == ':';
    assert ':' !in "default";
  }

  /** The `depgraph3.py` fixture never answers with an empty list. */
  lemma TestDependencies3NonEmpty(groupId: string, artifactId: string)
    ensures |TestDependencies3(groupId, artifactId)| > 0
    ensures (groupId + ":" + artifactId) !in Table3 ==> TestDependencies3(groupId, artifactId) == Default3
  {
  }

  /** The `depgraph2.py` fixture never answers with an empty list. */
  lemma TestDependencies2NonEmpty(groupId: string, artifactId: string)
    ensures |TestDependencies2(groupId, artifactId)| > 0
    ensures (groupId + ":" + artifactId) !in Table2 ==> TestDependencies2(groupId, artifactId) == Default2
  {
  }

  /** Two known keys of the `depgraph3.py` fixture, as the demonstration uses them. */
  lemma Fixture3Examples()
    ensures TestDependencies3("junit", "junit") == [Dep("org.hamcrest", "hamcrest-core", "2.2")]
    ensures TestDependencies3("no", "such") == Default3
  {
    assert "junit" + ":" + "junit" == "junit:junit";
    assert "no" + ":" + "such" == "no:such";
  }
}
