/**
 Fingerprints of pull requests (internal/graph/incremental.go, ComputeFingerprint): the file list
 enters as a digest of its sorted names joined by bars.
 */
module Fingerprints {
  import opened Sorting
  import opened PullRequests

  datatype Fingerprint = Fingerprint(number: int, baseBranch: string, headBranch: string, filesHash: string,
                                     mergeable: string, clusterId: string)

  /** strings.Join with "|". */
  function JoinBars(names: seq<string>): string
  {
    if names == [] then ""
    else if |names| == 1 then names[0]
    else names[0] + ("|" + JoinBars(names[1..]))
  }

  /** The text that is hashed. */
  function Joined(files: seq<string>): string
  {
    JoinBars(Sort(StringLess, files))
  }

  /** digest stands for the SHA-256 of a text; nothing is assumed of it, collisions included. */
  function ComputeFingerprint(digest: string -> string, pr: PR): Fingerprint
  {
    Fingerprint(pr.number, pr.baseBranch, pr.headBranch, digest(Joined(pr.files)), pr.mergeable, pr.clusterId)
  }

  predicate NoBars(names: seq<string>)
  {
    forall f :: f in names ==> '|' !in f
  }

  // ---------- what the joined text tells apart ----------

  /** The first name ends at the first bar, or at the end if it is the only one. */
  lemma FirstName(names: seq<string>)
    requires names != []
    ensures var s, n := JoinBars(names), |names[0]|;
            && n <= |s| && s[..n] == names[0]
            && (|names| == 1 ==> |s| == n)
            && (|names| > 1 ==> n < |s| && s[n] == '|' && s[n + 1..] == JoinBars(names[1..]))
  {
  }

  lemma {:induction false} JoinInjective(a: seq<string>, b: seq<string>)
    requires a != [] && b != [] && NoBars(a) && NoBars(b) && JoinBars(a) == JoinBars(b)
    ensures a == b
    decreases |a|
  {
    FirstName(a);
    FirstName(b);
    FirstNotLonger(a, b);
    FirstNotLonger(b, a);
    assert a[0] == b[0];
    if |a| > 1 {
      JoinInjective(a[1..], b[1..]);
      assert a == [a[0]] + a[1..] && b == [b[0]] + b[1..];
    } else {
      assert |b| == 1;
    }
  }

  lemma FirstNotLonger(a: seq<string>, b: seq<string>)
    requires a != [] && b != [] && NoBars(b) && JoinBars(a) == JoinBars(b)
    ensures |b[0]| <= |a[0]|
  {
    FirstName(a);
    FirstName(b);
    var s := JoinBars(a);
    forall i | 0 <= i < |b[0]| ensures s[i] != '|' {
      assert s[i] == s[..|b[0]|][i] == b[0][i];
      assert b[0] in b && b[0][i] in b[0];
    }
  }

  predicate NamesNothing(files: seq<string>)
  {
    files == [] || files == [""]
  }

  /** Without bars in names two lists give the same text when they hold the same names, or no name but the empty one. */
  lemma JoinedIff(a: seq<string>, b: seq<string>)
    requires NoBars(a) && NoBars(b)
    ensures Joined(a) == Joined(b) <==> multiset(a) == multiset(b) || (NamesNothing(a) && NamesNothing(b))
  {
    var s, t := Sort(StringLess, a), Sort(StringLess, b);
    SortMembers(StringLess, a);
    SortMembers(StringLess, b);
    if multiset(a) == multiset(b) {
      StringOrder();
      SortCanonical(StringLess, a, b);
    }
    NothingJoined(a);
    NothingJoined(b);
    if Joined(a) == Joined(b) && !NamesNothing(a) {
      JoinInjective(s, t);
    }
  }

  lemma NothingJoined(files: seq<string>)
    ensures Joined(files) == "" <==> NamesNothing(files)
  {
    var s := Sort(StringLess, files);
    SortMembers(StringLess, files);
    if s != [] {
      FirstName(s);
      if |s| == 1 {
        assert files == [files[0]] && s[0] in files;
      }
    }
  }

  /** One name with a bar and the two names it joins: different lists, the same text. */
  lemma BarJoins()
    ensures Joined(["a|b"]) == Joined(["a", "b"]) == "a|b"
  {
    var two := ["a", "b"];
    assert StringLess("a", "b") && !StringLess("b", "a");
    assert two[1..] == ["b"] && ["b"][1..] == [];
    assert Sort(StringLess, ["b"]) == ["b"];
    assert Sort(StringLess, two) == two;
    assert JoinBars(two) == "a" + ("|" + "b");
    assert ["a|b"][1..] == [];
    assert Sort(StringLess, ["a|b"]) == ["a|b"];
  }
}
