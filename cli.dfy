/** The part of the command-line entry point `main` (hicrep/__init__.py)
    that is logic rather than I/O: reconciling the chromosome options into
    the arguments `hicrepSCC` receives, and assembling the comment header
    of the output file from the command line and the output of git. */
module Cli {
  import opened Wrappers
  import opened ChromosomeSelection

  /** The default of `--excludeChr`: the mitochondrial chromosome under its
      two usual names, in this order. */
  const DefaultExclusions: seq<string> := ["chrM", "M"]

  /** `--chrNames` together with a non-default `--excludeChr`. */
  datatype CliError = BothSelections

  /** What `main` passes on to `hicrepSCC`, and whether it warns about
      repeated exclusions. */
  datatype Config = Config(chrNames: Option<seq<string>>, excludeChr: Option<set<string>>,
                           duplicateExclusions: bool)

  /** `set(names)`. */
  function ToSet(names: seq<string>): (r: set<string>)
    ensures forall x :: x in r <==> x in names
  {
    if names == [] then {} else ToSet(names[..|names| - 1]) + {names[|names| - 1]}
  }

  /** The reconciliation of hicrep/__init__.py:67-69,94-105: the two
      chromosome options exclude each other unless the exclusions are
      exactly the default list; empty options become `None`; exclusions
      become a set, with a warning when that collapses repeated names. */
  function Reconcile(chrNames: seq<string>, excludeChr: seq<string>): (r: Result<Config, CliError>)
    ensures r.Failure? <==> excludeChr != DefaultExclusions && |chrNames| > 0
    ensures r.Success? ==> r.value.chrNames == if chrNames == [] then None else Some(chrNames)
    ensures r.Success? ==> (r.value.excludeChr.None? <==> excludeChr == [])
    ensures r.Success? && r.value.excludeChr.Some? ==>
              forall x :: x in r.value.excludeChr.value <==> x in excludeChr
    ensures r.Success? ==> (r.value.duplicateExclusions <==> !Distinct(excludeChr))
    ensures r.Success? && chrNames != [] ==> r.value.excludeChr == Some({"chrM", "M"})
  {
    if excludeChr != DefaultExclusions && |chrNames| > 0 then Failure(BothSelections)
    else
      var ex := ToSet(excludeChr);
      SetSizeIffDistinct(excludeChr);
      assert excludeChr == DefaultExclusions ==> ex == {"chrM", "M"};
      Success(Config(if |chrNames| > 0 then Some(chrNames) else None,
                     if |ex| > 0 then Some(ex) else None,
                     |ex| != |excludeChr|))
  }

  /** A set holds at most as many names as the list it is built from, and
      exactly as many when no name repeats. */
  lemma {:induction false} SetSizeIffDistinct(names: seq<string>)
    ensures |ToSet(names)| <= |names|
    ensures |ToSet(names)| == |names| <==> Distinct(names)
  {
    if names != [] {
      var p, x := names[..|names| - 1], names[|names| - 1];
      SetSizeIffDistinct(p);
      DistinctAppend(p, x);
      assert names == p + [x];
      if x in p {
        assert ToSet(names) == ToSet(p);
      } else {
        assert x !in ToSet(p);
      }
    }
  }

  /** A name appended to a list keeps it free of repeats iff the list had
      none and did not hold the name. */
  lemma DistinctAppend(p: seq<string>, x: string)
    ensures Distinct(p + [x]) <==> Distinct(p) && x !in p
  {
    var s := p + [x];
    if x in p {
      var j :| 0 <= j < |p| && p[j] == x;
      assert s[j] == s[|p|];
    }
    if !Distinct(p) {
      var i, j :| 0 <= i < j < |p| && p[i] == p[j];
      assert s[i] == s[j];
    }
    if Distinct(p) && x !in p {
      forall i, k | 0 <= i < k < |s|
        ensures s[i] != s[k]
      {
        if k == |p| {
          assert s[i] == p[i];
        } else {
          assert s[i] == p[i] && s[k] == p[k];
        }
      }
    }
  }

  // ---------------------------------------------------------------------
  // The header
  // ---------------------------------------------------------------------

  /** `" ".join(args)`. */
  function Join(args: seq<string>): string
  {
    if args == [] then ""
    else if |args| == 1 then args[0]
    else args[0] + " " + Join(args[1..])
  }

  /** The characters Python's `str.strip()` removes. */
  predicate IsSpace(c: char)
  {
    c == ' ' || c == '\t' || c == '\n' || c == '\r' || c == '\U{0B}' || c == '\U{0C}'
    || ('\U{1C}' <= c <= '\U{1F}') || c == '\U{85}' || c == '\U{A0}' || c == '\U{1680}'
    || ('\U{2000}' <= c <= '\U{200A}') || c == '\U{2028}' || c == '\U{2029}'
    || c == '\U{202F}' || c == '\U{205F}' || c == '\U{3000}'
  }

  function StripLeft(s: string): (r: string)
    ensures |r| <= |s| && r == s[|s| - |r|..]
    ensures forall k :: 0 <= k < |s| - |r| ==> IsSpace(s[k])
    ensures r == [] || !IsSpace(r[0])
  {
    if s != [] && IsSpace(s[0]) then StripLeft(s[1..]) else s
  }

  function StripRight(s: string): (r: string)
    ensures |r| <= |s| && r == s[..|r|]
    ensures forall k :: |r| <= k < |s| ==> IsSpace(s[k])
    ensures r == [] || !IsSpace(r[|r| - 1])
  {
    if s != [] && IsSpace(s[|s| - 1]) then StripRight(s[..|s| - 1]) else s
  }

  /** `s.strip()`: the longest run of `s` that neither starts nor ends with
      whitespace, with only whitespace around it. */
  function Strip(s: string): (r: string)
    ensures exists i, j :: 0 <= i <= j <= |s| && r == s[i..j]
                           && (forall k :: 0 <= k < i ==> IsSpace(s[k]))
                           && (forall k :: j <= k < |s| ==> IsSpace(s[k]))
    ensures r == [] || (!IsSpace(r[0]) && !IsSpace(r[|r| - 1]))
  {
    var l := StripLeft(s);
    var r := StripRight(l);
    var i := |s| - |l|;
    assert r == s[i..i + |r|];
    r
  }

  /** `re.sub("\n", "\n# @branch ", s)`: the second and later lines of the
      output of git each become a `# @branch` comment. */
  function Branch(s: string): (r: string)
  {
    if s == [] then []
    else (if s[0] == '\n' then "\n# @branch " else [s[0]]) + Branch(s[1..])
  }

  /** The inverse of `Branch`: every "\n# @branch " back to a line break. */
  function Unbranch(s: string): (r: string)
  {
    if s == [] then []
    else if |s| >= 11 && s[..11] == "\n# @branch " then "\n" + Unbranch(s[11..])
    else [s[0]] + Unbranch(s[1..])
  }

  /** The revision comment, present only when both git commands wrote
      nothing to their standard error (hicrep/__init__.py:74-86); `revOut`
      is what `git rev-parse HEAD --abbrev-ref HEAD` printed. */
  function Revision(lsErr: string, revErr: string, revOut: string): (r: Option<string>)
    ensures r.Some? <==> lsErr == [] && revErr == []
  {
    if lsErr == [] && revErr == [] then Some("# @rev " + Branch(Strip(revOut)) + "\n") else None
  }

  /** The header hicrep/__init__.py:71-86 writes above the scores. */
  function Header(argv: seq<string>, lsErr: string, revErr: string, revOut: string): string
  {
    "#" + Join(argv) + "\n" + Revision(lsErr, revErr, revOut).GetOr("")
  }

  /** The header as `main` builds it, by appending to a string. */
  method BuildHeader(argv: seq<string>, lsErr: string, revErr: string, revOut: string)
    returns (header: string)
    ensures header == Header(argv, lsErr, revErr, revOut)
  {
    header := "#" + Join(argv) + "\n";
    if lsErr == [] {
      if revErr == [] {
        header := header + "# @rev " + Branch(Strip(revOut)) + "\n";
      }
    }
  }

  // ---------------------------------------------------------------------
  // Lemmas
  // ---------------------------------------------------------------------

  /** Rewriting the line breaks loses nothing. */
  lemma {:induction false} UnbranchBranch(s: string)
    ensures Unbranch(Branch(s)) == s
  {
    if s != [] {
      var b := Branch(s[1..]);
      UnbranchBranch(s[1..]);
      if s[0] == '\n' {
        assert Branch(s) == "\n# @branch " + b;
        assert Branch(s)[11..] == b;
      } else {
        assert Branch(s) == [s[0]] + b;
        assert Branch(s)[1..] == b;
      }
    }
  }

  /** Text whose every line is a comment: it starts with '#', ends with a
      line break, and every line break but the last is followed by '#'. */
  predicate CommentLines(h: string)
  {
    |h| > 0 && h[0] == '#' && h[|h| - 1] == '\n'
    && forall i :: 0 <= i < |h| - 1 && h[i] == '\n' ==> h[i + 1] == '#'
  }

  lemma {:induction false} BranchBreaks(s: string)
    ensures forall i :: 0 <= i < |Branch(s)| && Branch(s)[i] == '\n' ==>
              i + 1 < |Branch(s)| && Branch(s)[i + 1] == '#'
  {
    if s != [] {
      BranchBreaks(s[1..]);
      var head := if s[0] == '\n' then "\n# @branch " else [s[0]];
      assert Branch(s) == head + Branch(s[1..]);
    }
  }

  lemma {:induction false} JoinBreaks(args: seq<string>)
    requires forall k :: 0 <= k < |args| ==> '\n' !in args[k]
    ensures '\n' !in Join(args)
  {
    if |args| > 1 {
      JoinBreaks(args[1..]);
    }
  }

  lemma CommentLinesConcat(a: string, b: string)
    requires CommentLines(a) && CommentLines(b)
    ensures CommentLines(a + b)
  {
  }

  /** As long as no argument holds a line break, every line of the header
      is a comment line. */
  lemma HeaderIsComments(argv: seq<string>, lsErr: string, revErr: string, revOut: string)
    requires forall k :: 0 <= k < |argv| ==> '\n' !in argv[k]
    ensures CommentLines(Header(argv, lsErr, revErr, revOut))
  {
    JoinBreaks(argv);
    var first := "#" + Join(argv) + "\n";
    assert CommentLines(first) by {
      forall i | 0 <= i < |first| - 1
        ensures first[i] != '\n'
      {
        if i > 0 {
          assert first[i] == Join(argv)[i - 1];
        }
      }
    }
    var rev := Revision(lsErr, revErr, revOut);
    if rev.Some? {
      var b := Branch(Strip(revOut));
      BranchBreaks(Strip(revOut));
      var second := "# @rev " + b + "\n";
      assert CommentLines(second) by {
        forall i | 0 <= i < |second| - 1 && second[i] == '\n'
          ensures second[i + 1] == '#'
        {
          assert second[i] == b[i - 7];
          assert second[i + 1] == b[i - 6];
        }
      }
      CommentLinesConcat(first, second);
    } else {
      assert Header(argv, lsErr, revErr, revOut) == first;
    }
  }
}
