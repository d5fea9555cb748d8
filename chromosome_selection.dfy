/** Which chromosomes `hicrepSCC` scores, and in which order
    (hicrep/hicrep.py:150-169): the caller's list with repeated names
    removed (`dict.fromkeys`), or the first file's chromosomes; then "ALL"
    and "All" popped; then a check that nothing was removed from the
    caller's list; then the excluded names filtered out. */
module ChromosomeSelection {
  import opened Wrappers
  import opened Errors

  predicate Distinct(s: seq<string>)
  {
    forall i, j :: 0 <= i < j < |s| ==> s[i] != s[j]
  }

  /** The keys of `dict.fromkeys(s)`: the first occurrence of every name,
      in order. */
  function FromKeys(s: seq<string>): (d: seq<string>)
  {
    if s == [] then []
    else
      var d := FromKeys(s[..|s| - 1]);
      if s[|s| - 1] in d then d else d + [s[|s| - 1]]
  }

  /** The keys after `d.pop(name)` when `name` is a key. */
  function Without(d: seq<string>, name: string): (r: seq<string>)
    ensures forall x :: x in r <==> x in d && x != name
  {
    if d == [] then []
    else if d[0] == name then Without(d[1..], name)
    else [d[0]] + Without(d[1..], name)
  }

  /** `[n for n in d if n not in exclude]`. */
  function Keep(d: seq<string>, exclude: set<string>): (r: seq<string>)
    ensures forall x :: x in r <==> x in d && x !in exclude
  {
    if d == [] then []
    else
      var r := Keep(d[..|d| - 1], exclude);
      assert d == d[..|d| - 1] + [d[|d| - 1]];
      if d[|d| - 1] in exclude then r else r + [d[|d| - 1]]
  }

  /** The names `hicrepSCC` scores, or the failure of its duplicate check. */
  function SelectedNames(fileChroms: seq<string>, chrNames: Option<seq<string>>,
                         exclude: Option<set<string>>): Result<seq<string>, Error>
  {
    var d := if chrNames.None? then fileChroms else FromKeys(chrNames.value);
    var d' := Without(Without(d, "ALL"), "All");
    if chrNames.Some? && |d'| != |chrNames.value| then Failure(DuplicateNames(chrNames.value))
    else Success(Keep(d', exclude.GetOr({})))
  }

  /** The selection as `hicrepSCC` performs it, by updating a dictionary and
      building the filtered list. */
  method SelectChromosomes(fileChroms: seq<string>, chrNames: Option<seq<string>>,
                           exclude: Option<set<string>>) returns (r: Result<seq<string>, Error>)
    ensures r == SelectedNames(fileChroms, chrNames, exclude)
  {
    var dict: seq<string>;
    if chrNames.None? {
      dict := fileChroms;
    } else {
      dict := DictFromKeys(chrNames.value);
    }
    ghost var fromKeys := dict;
    if "ALL" in dict {
      dict := Without(dict, "ALL");
    }
    assert dict == Without(fromKeys, "ALL") by {
      WithoutAbsent(fromKeys, "ALL");
    }
    ghost var popped := dict;
    if "All" in dict {
      dict := Without(dict, "All");
    }
    assert dict == Without(popped, "All") by {
      WithoutAbsent(popped, "All");
    }
    if chrNames.Some? && |dict| != |chrNames.value| {
      return Failure(DuplicateNames(chrNames.value));
    }
    var ex := if exclude.None? then {} else exclude.value;
    var names := Filter(dict, ex);
    return Success(names);
  }

  /** `dict.fromkeys(s)`, built one key at a time. */
  method DictFromKeys(s: seq<string>) returns (dict: seq<string>)
    ensures dict == FromKeys(s)
  {
    dict := [];
    var i := 0;
    while i < |s|
      invariant 0 <= i <= |s|
      invariant dict == FromKeys(s[..i])
    {
      assert s[..i + 1][..i] == s[..i];
      if s[i] !in dict {
        dict := dict + [s[i]];
      }
      i := i + 1;
    }
    assert s[..i] == s;
  }

  /** The list comprehension that drops the excluded names. */
  method Filter(dict: seq<string>, ex: set<string>) returns (names: seq<string>)
    ensures names == Keep(dict, ex)
  {
    names := [];
    var j := 0;
    while j < |dict|
      invariant 0 <= j <= |dict|
      invariant names == Keep(dict[..j], ex)
    {
      assert dict[..j + 1][..j] == dict[..j];
      if dict[j] !in ex {
        names := names + [dict[j]];
      }
      j := j + 1;
    }
    assert dict[..j] == dict;
  }

  // ---------------------------------------------------------------------
  // Lemmas
  // ---------------------------------------------------------------------

  lemma WithoutAbsent(d: seq<string>, name: string)
    ensures name !in d ==> Without(d, name) == d
  {
  }

  /** `dict.fromkeys` keeps every name once and nothing else, and leaves a
      list with no repeats as it was. */
  lemma {:induction false} FromKeysProperties(s: seq<string>)
    ensures Distinct(FromKeys(s))
    ensures forall x :: x in FromKeys(s) <==> x in s
    ensures |FromKeys(s)| <= |s|
    ensures |FromKeys(s)| == |s| <==> Distinct(s)
    ensures Distinct(s) ==> FromKeys(s) == s
  {
    if s != [] {
      var p := s[..|s| - 1];
      FromKeysProperties(p);
      assert s == p + [s[|s| - 1]];
      if !Distinct(p) {
        assert !Distinct(s) by {
          var i, j :| 0 <= i < j < |p| && p[i] == p[j];
          assert s[i] == s[j];
        }
      }
      if s[|s| - 1] in p {
        var i :| 0 <= i < |p| && p[i] == s[|s| - 1];
        assert s[i] == s[|s| - 1];
      }
    }
  }

  /** Popping a key of a dictionary removes exactly one name. */
  lemma {:induction false} WithoutLength(d: seq<string>, name: string)
    requires Distinct(d)
    ensures Distinct(Without(d, name))
    ensures |Without(d, name)| == if name in d then |d| - 1 else |d|
  {
    if d != [] {
      assert Distinct(d[1..]) by {
        forall i, j | 0 <= i < j < |d[1..]|
          ensures d[1..][i] != d[1..][j]
        {
          assert d[1..][i] == d[i + 1] && d[1..][j] == d[j + 1];
        }
      }
      WithoutLength(d[1..], name);
      if d[0] != name {
        assert d[0] !in d[1..];
      } else {
        assert name !in d[1..];
      }
    }
  }

  /** With an explicit list, the call fails exactly when the list repeats a
      name or contains "ALL" or "All" (which are popped before the check). */
  lemma ExplicitListFailsIff(fileChroms: seq<string>, s: seq<string>, exclude: Option<set<string>>)
    ensures SelectedNames(fileChroms, Some(s), exclude).Failure?
        <==> !Distinct(s) || "ALL" in s || "All" in s
  {
    FromKeysProperties(s);
    WithoutLength(FromKeys(s), "ALL");
    WithoutLength(Without(FromKeys(s), "ALL"), "All");
  }

  /** With an explicit list that passes, the scores follow the caller's
      order, minus the excluded names. */
  lemma ExplicitListKeepsOrder(fileChroms: seq<string>, s: seq<string>, exclude: Option<set<string>>)
    requires SelectedNames(fileChroms, Some(s), exclude).Success?
    ensures SelectedNames(fileChroms, Some(s), exclude).value == Keep(s, exclude.GetOr({}))
  {
    ExplicitListFailsIff(fileChroms, s, exclude);
    FromKeysProperties(s);
    WithoutAbsent(s, "ALL");
    WithoutAbsent(s, "All");
  }

  /** Filtering keeps relative order: what comes from the front of a list
      comes before what comes from its back. */
  lemma {:induction false} KeepOfConcat(a: seq<string>, b: seq<string>, exclude: set<string>)
    ensures Keep(a + b, exclude) == Keep(a, exclude) + Keep(b, exclude)
  {
    if b == [] {
      assert a + b == a;
    } else {
      var b' := b[..|b| - 1];
      assert (a + b)[..|a + b| - 1] == a + b';
      KeepOfConcat(a, b', exclude);
    }
  }

  /** Popping a key is filtering that one name out. */
  lemma {:induction false} WithoutIsKeep(d: seq<string>, name: string)
    ensures Without(d, name) == Keep(d, {name})
  {
    if d != [] {
      WithoutIsKeep(d[1..], name);
      assert d == [d[0]] + d[1..];
      KeepOfConcat([d[0]], d[1..], {name});
      assert Keep([d[0]], {name}) == (if d[0] == name then [] else [d[0]]);
    }
  }

  /** Filtering twice is filtering once by both sets of names. */
  lemma {:induction false} KeepTwice(d: seq<string>, a: set<string>, b: set<string>)
    ensures Keep(Keep(d, a), b) == Keep(d, a + b)
  {
    if d != [] {
      var p, x := d[..|d| - 1], d[|d| - 1];
      KeepTwice(p, a, b);
      if x !in a {
        var k := Keep(p, a);
        assert (k + [x])[..|k + [x]| - 1] == k;
      }
    }
  }

  /** Without a list, the scores follow the first file's chromosome order:
      every chromosome but "ALL", "All" and the excluded ones, in the file's
      order. */
  lemma DefaultSelection(fileChroms: seq<string>, exclude: Option<set<string>>)
    ensures SelectedNames(fileChroms, None, exclude)
         == Success(Keep(fileChroms, {"ALL", "All"} + exclude.GetOr({})))
  {
    WithoutIsKeep(fileChroms, "ALL");
    WithoutIsKeep(Keep(fileChroms, {"ALL"}), "All");
    KeepTwice(fileChroms, {"ALL"}, {"All"});
    KeepTwice(fileChroms, {"ALL"} + {"All"}, exclude.GetOr({}));
    assert {"ALL"} + {"All"} + exclude.GetOr({}) == {"ALL", "All"} + exclude.GetOr({});
  }
}
