/** Dependency records (the `{'groupId', 'artifactId', 'version'}` dictionaries
    of the Python code), package coordinates `group:artifact`, and the
    case-insensitive substring filter `_apply_filter`. */
module Dependencies {
  import opened Wrappers
  import opened Text

  /** One direct dependency as the sources return it. */
  datatype Dep = Dep(groupId: string, artifactId: string, version: string)

  /** The dependency graph: coordinate to its stored (filtered) records. */
  type Graph = map<string, seq<Dep>>

  /** `f"{group}:{artifact}"`: the coordinate a dependency points to. */
  function Key(d: Dep): string
  {
    d.groupId + ":" + d.artifactId
  }

  /** `f"{group}:{artifact}:{version}"`: the text the filter looks at. */
  function Composite(d: Dep): string
  {
    d.groupId + ":" + d.artifactId + ":" + d.version
  }

  /** `package.split(':')` followed by the `len(parts) != 2` test. */
  function ParseCoordinate(package: string): (r: Option<(string, string)>)
    ensures r.Some? ==> ':' !in r.value.0 && ':' !in r.value.1
    ensures r.Some? ==> package == r.value.0 + ":" + r.value.1
  {
    var parts := Split(package, ':');
    SplitPiecesFree(package, ':');
    if |parts| != 2 then None
    else
      JoinSplit(package, ':');
      assert Join(parts, ':') == parts[0] + [':'] + Join(parts[1..], ':');
      Some((parts[0], parts[1]))
  }

  /** A coordinate parses exactly when it holds exactly one colon. */
  lemma ParseCoordinateIff(package: string)
    ensures ParseCoordinate(package).Some? <==> Count(package, ':') == 1
  {
    SplitCount(package, ':');
  }

  /** Formatting a coordinate and parsing it again gives back its two parts. */
  lemma ParseKey(group: string, artifact: string)
    requires ':' !in group && ':' !in artifact
    ensures ParseCoordinate(group + ":" + artifact) == Some((group, artifact))
  {
    SplitAt(group, ':', artifact);
    SplitFree(artifact, ':');
    assert group + ":" + artifact == group + [':'] + artifact;
  }

  /** Whether the filter keeps `d`: the lower-cased needle occurs in the
      lower-cased `group:artifact:version`. */
  predicate Matches(d: Dep, needle: string)
  {
    Contains(Lower(Composite(d)), Lower(needle))
  }

  /** `not self.config['filter_substring']`: no filter is set. */
  predicate NoFilter(filter: Option<string>)
  {
    filter.None? || filter.value == ""
  }

  /** Specification of `_apply_filter`: the records that match, in order. */
  function Filtered(deps: seq<Dep>, filter: Option<string>): seq<Dep>
  {
    if NoFilter(filter) then deps else Keep(deps, filter.value)
  }

  function Keep(deps: seq<Dep>, needle: string): seq<Dep>
  {
    if deps == [] then []
    else
      var last := deps[|deps| - 1];
      Keep(deps[..|deps| - 1], needle) + (if Matches(last, needle) then [last] else [])
  }

  /** `xs` is an order-preserving subsequence of `ys`. */
  predicate Subsequence(xs: seq<Dep>, ys: seq<Dep>)
  {
    xs == [] ||
    (ys != [] &&
     ((xs[|xs| - 1] == ys[|ys| - 1] && Subsequence(xs[..|xs| - 1], ys[..|ys| - 1])) ||
      Subsequence(xs, ys[..|ys| - 1])))
  }

  lemma {:induction false} SubsequenceRefl(xs: seq<Dep>)
    ensures Subsequence(xs, xs)
  {
    if xs != [] {
      SubsequenceRefl(xs[..|xs| - 1]);
    }
  }

  /** What `Keep` returns: exactly the matching records, as a subsequence,
      every copy of a repeated matching record included. */
  lemma KeepSpec(deps: seq<Dep>, needle: string)
    ensures Subsequence(Keep(deps, needle), deps)
    ensures forall d :: d in Keep(deps, needle) <==> d in deps && Matches(d, needle)
    ensures forall d :: multiset(Keep(deps, needle))[d] == if Matches(d, needle) then multiset(deps)[d] else 0
  {
    KeepSubsequence(deps, needle);
    KeepCounts(deps, needle);
  }

  lemma {:induction false} KeepSubsequence(deps: seq<Dep>, needle: string)
    ensures Subsequence(Keep(deps, needle), deps)
  {
    if deps != [] {
      var init := deps[..|deps| - 1];
      var last := deps[|deps| - 1];
      KeepSubsequence(init, needle);
      var r := Keep(deps, needle);
      if Matches(last, needle) {
        assert r[..|r| - 1] == Keep(init, needle);
      } else {
        assert r == Keep(init, needle);
      }
    }
  }

  /** Each matching record is kept as often as it occurs, and no other one. */
  lemma {:induction false} KeepCounts(deps: seq<Dep>, needle: string)
    ensures forall d :: multiset(Keep(deps, needle))[d] == if Matches(d, needle) then multiset(deps)[d] else 0
  {
    if deps != [] {
      var init := deps[..|deps| - 1];
      var last := deps[|deps| - 1];
      KeepCounts(init, needle);
      assert deps == init + [last];
      assert multiset(deps) == multiset(init) + multiset{last};
      if Matches(last, needle) {
        assert Keep(deps, needle) == Keep(init, needle) + [last];
        assert multiset(Keep(deps, needle)) == multiset(Keep(init, needle)) + multiset{last};
      } else {
        assert Keep(deps, needle) == Keep(init, needle);
      }
    }
  }

  /** Keeping the matching records of an already filtered list changes nothing. */
  lemma {:induction false} KeepIdempotent(deps: seq<Dep>, needle: string)
    ensures Keep(Keep(deps, needle), needle) == Keep(deps, needle)
  {
    if deps != [] {
      var init := deps[..|deps| - 1];
      var last := deps[|deps| - 1];
      KeepIdempotent(init, needle);
      var k := Keep(init, needle);
      if Matches(last, needle) {
        var r := k + [last];
        assert Keep(deps, needle) == r;
        assert r[..|r| - 1] == k;
        assert Keep(r, needle) == Keep(k, needle) + [last];
      } else {
        assert Keep(deps, needle) == k;
      }
    }
  }

  /** Without a filter the list comes back unchanged. */
  lemma FilterIdentity(deps: seq<Dep>, filter: Option<string>)
    requires NoFilter(filter)
    ensures Filtered(deps, filter) == deps
  {
  }

  /** The filter keeps an order-preserving subsequence: exactly the records
      whose lower-cased `g:a:v` contains the lower-cased needle, each as
      often as it occurs. */
  lemma FilterSpec(deps: seq<Dep>, filter: Option<string>)
    ensures Subsequence(Filtered(deps, filter), deps)
    ensures !NoFilter(filter) ==>
      forall d :: d in Filtered(deps, filter) <==> d in deps && Matches(d, filter.value)
    ensures !NoFilter(filter) ==>
      forall d :: multiset(Filtered(deps, filter))[d] == if Matches(d, filter.value) then multiset(deps)[d] else 0
  {
    if NoFilter(filter) {
      SubsequenceRefl(deps);
    } else {
      KeepSpec(deps, filter.value);
    }
  }

  /** Filtering twice with the same substring equals filtering once. */
  lemma FilterIdempotent(deps: seq<Dep>, filter: Option<string>)
    ensures Filtered(Filtered(deps, filter), filter) == Filtered(deps, filter)
  {
    if !NoFilter(filter) {
      KeepIdempotent(deps, filter.value);
    }
  }

  /** `_apply_filter`: the `for`/`append` loop over the records. */
  method ApplyFilter(deps: seq<Dep>, filter: Option<string>) returns (filtered: seq<Dep>)
    ensures filtered == Filtered(deps, filter)
  {
    if NoFilter(filter) {
      return deps;
    }
    var needle := Lower(filter.value);
    filtered := [];
    for i := 0 to |deps|
      invariant filtered == Keep(deps[..i], filter.value)
    {
      var depStr := Lower(Composite(deps[i]));
      assert deps[..i + 1][..i] == deps[..i];
      if Contains(depStr, needle) {
        filtered := filtered + [deps[i]];
      }
    }
    assert deps[..|deps|] == deps;
  }
}
