/** Release-version derivation from a git revision description (`get_deb11to12_version`).
    The revision is a parameter: the git lookup that produces it is not part of this model. */
module ProductDefs {

  /** `s.lstrip(c)` for a single character `c`: drop every leading `c`. */
  function LStrip(s: string, c: char): (r: string)
    ensures |r| <= |s| && r == s[|s| - |r|..]
    ensures forall i :: 0 <= i < |s| - |r| ==> s[i] == c
    ensures r == [] || r[0] != c
    decreases |s|
  {
    if |s| > 0 && s[0] == c then LStrip(s[1..], c) else s
  }

  /** `s.split(sep, 1)[0]`: the text before the first `sep`, or all of `s` when it has none. */
  function BeforeFirst(s: string, sep: char): (r: string)
    ensures r <= s
    ensures sep !in r
    ensures |r| < |s| ==> s[|r|] == sep
  {
    if |s| == 0 || s[0] == sep then [] else [s[0]] + BeforeFirst(s[1..], sep)
  }

  /** `get_deb11to12_version`: the tag of `git describe` output without its leading `v`s,
      or the empty string when the revision has no `-`. */
  function Deb11to12Version(rev: string): (version: string)
    ensures '-' !in rev ==> version == ""
    ensures '-' !in version
    ensures version == [] || version[0] != 'v'
    ensures |version| <= |rev|
  {
    if '-' in rev then BeforeFirst(LStrip(rev, 'v'), '-') else ""
  }

  /** `rev[i..j]` is the version slice: `i` leading `v`s, then `j`, the first `-` after them. */
  ghost predicate VersionSlice(rev: string, i: int, j: int)
  {
    && 0 <= i <= j < |rev|
    && (forall k :: 0 <= k < i ==> rev[k] == 'v')
    && rev[i] != 'v'
    && (forall k :: i <= k < j ==> rev[k] != '-')
    && rev[j] == '-'
  }

  /** Whatever positions satisfy the description, the version is exactly that slice. */
  lemma VersionIsTheSlice(rev: string, i: int, j: int)
    requires VersionSlice(rev, i, j)
    ensures Deb11to12Version(rev) == rev[i..j]
  {
  }

  /** A revision that contains `-` always has such a slice, and the version is it. */
  lemma {:induction false} VersionSliceExists(rev: string)
    requires '-' in rev
    ensures exists i, j :: VersionSlice(rev, i, j) && Deb11to12Version(rev) == rev[i..j]
  {
    var stripped := LStrip(rev, 'v');
    var i := |rev| - |stripped|;
    assert '-' in stripped by {
      var m :| 0 <= m < |rev| && rev[m] == '-';
      assert stripped[m - i] == '-';
    }
    var version := BeforeFirst(stripped, '-');
    assert Deb11to12Version(rev) == version;
    var j := i + |version|;
    SliceOfSuffix(rev, stripped, version, i);
    assert VersionSlice(rev, i, j);
  }

  /** The parts of a suffix, read back at their positions in the whole string. */
  lemma SliceOfSuffix(rev: string, suffix: string, prefix: string, i: int)
    requires 0 <= i <= |rev| && suffix == rev[i..] && prefix <= suffix
    ensures rev[i..i + |prefix|] == prefix
    ensures forall k :: i <= k < i + |prefix| ==> rev[k] == prefix[k - i]
    ensures |prefix| < |suffix| ==> rev[i + |prefix|] == suffix[|prefix|]
  {
  }

  /** The version is a contiguous part of the revision. */
  lemma {:induction false} VersionIsSubstring(rev: string)
    ensures exists i, j :: 0 <= i <= j <= |rev| && rev[i..j] == Deb11to12Version(rev)
  {
    if '-' in rev {
      VersionSliceExists(rev);
    } else {
      assert rev[0..0] == Deb11to12Version(rev);
    }
  }

  /** A sample revision from `git describe`: a tag with leading `v`, a commit count and a hash. */
  lemma ExampleTaggedRevision()
    ensures Deb11to12Version("v1.2.3-4-gabc") == "1.2.3"
  {
    VersionIsTheSlice("v1.2.3-4-gabc", 1, 6);
  }

  /** Every leading `v` goes, and only the text before the first `-` stays. */
  lemma ExampleRepeatedVs()
    ensures Deb11to12Version("vv2.0-rc1-3") == "2.0"
  {
    VersionIsTheSlice("vv2.0-rc1-3", 2, 5);
  }

  /** A revision without `-`, such as a bare tag, gives the empty version. */
  lemma ExampleBareTag()
    ensures Deb11to12Version("v1.2.3") == ""
  {
    var rev := "v1.2.3";
    assert rev[0] != '-' && rev[1] != '-' && rev[2] != '-' && rev[3] != '-' && rev[4] != '-' && rev[5] != '-';
    assert '-' !in rev;
  }
}
