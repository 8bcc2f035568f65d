/** The parts of Python's `pathlib.PurePath` that the resolver uses, on the
    final name component of a path (`name`, `suffix`, `stem`,
    `with_suffix`), as CPython 3.12 and earlier define them: the suffix
    starts at the last '.', unless that dot is the first character (a
    hidden file such as ".bashrc") or the last one ("archive."). */
module PurePaths {

  /** `name.rfind('.')`: the index of the last dot, or -1. */
  function LastDot(name: string): (i: int)
    ensures -1 <= i < |name|
    ensures 0 <= i ==> name[i] == '.'
  {
    if |name| == 0 then -1
    else if name[|name| - 1] == '.' then |name| - 1
    else LastDot(name[..|name| - 1])
  }

  /** No dot follows the one `LastDot` finds. */
  lemma {:induction false} LastDotIsLast(name: string)
    ensures forall k :: LastDot(name) < k < |name| ==> name[k] != '.'
    decreases |name|
  {
    if |name| > 0 && name[|name| - 1] != '.' {
      var init := name[..|name| - 1];
      LastDotIsLast(init);
      forall k | LastDot(name) < k < |name| ensures name[k] != '.' {
        if k < |name| - 1 {
          assert name[k] == init[k];
        }
      }
    }
  }

  /** `PurePath.suffix`. */
  function Suffix(name: string): string
  {
    var i := LastDot(name);
    if 0 < i < |name| - 1 then name[i..] else ""
  }

  /** A suffix is a dot and at least one more character, none of them a
      dot, ending the name after its first character; there is none when
      the only dots are the first or the last character. */
  lemma SuffixShape(name: string)
    ensures var s := Suffix(name);
      s != [] ==>
        && 2 <= |s| < |name|
        && s == name[|name| - |s|..]
        && s[0] == '.'
        && forall k :: 1 <= k < |s| ==> s[k] != '.'
    ensures Suffix(name) == [] ==>
      (forall k :: 0 < k < |name| - 1 ==> name[k] != '.') || name[|name| - 1] == '.'
  {
    LastDotIsLast(name);
    var s := Suffix(name);
    var i := LastDot(name);
    if s != [] {
      forall k | 1 <= k < |s| ensures s[k] != '.' {
        assert s[k] == name[i + k];
      }
    }
  }

  /** `PurePath.stem`: the name without its suffix. */
  function Stem(name: string): string
  {
    var i := LastDot(name);
    if 0 < i < |name| - 1 then name[..i] else name
  }

  /** A name is its stem followed by its suffix, and only the empty name
      has an empty stem. */
  lemma StemSuffixSplit(name: string)
    ensures Stem(name) + Suffix(name) == name
    ensures name != [] ==> Stem(name) != []
  {
    var i := LastDot(name);
    if 0 < i < |name| - 1 {
      assert name[..i] + name[i..] == name;
    }
  }

  /** A suffix `with_suffix` accepts on POSIX: no '/' in it, and either
      empty or a dot followed by at least one character. */
  predicate ValidSuffix(suffix: string)
  {
    '/' !in suffix && (suffix == [] || (2 <= |suffix| && suffix[0] == '.'))
  }

  /** A suffix with a single dot and no '/', such as ".apk". */
  predicate SimpleSuffix(suffix: string)
  {
    && '/' !in suffix
    && 2 <= |suffix| && suffix[0] == '.'
    && forall k :: 1 <= k < |suffix| ==> suffix[k] != '.'
  }

  /** `PurePath.with_suffix(suffix)` on the name; pathlib raises ValueError
      for an empty name or an invalid suffix, so both are required here. */
  function WithSuffix(name: string, suffix: string): (r: string)
    requires name != []
    requires ValidSuffix(suffix)
    ensures r == Stem(name) + suffix
  {
    var oldSuffix := Suffix(name);
    if oldSuffix == [] then name + suffix else name[..|name| - |oldSuffix|] + suffix
  }

  /** Replacing the suffix by a single-dot one and reading the name back
      gives that suffix and the old stem. */
  lemma WithSuffixRoundTrip(name: string, suffix: string)
    requires name != []
    requires SimpleSuffix(suffix)
    ensures Suffix(WithSuffix(name, suffix)) == suffix
    ensures Stem(WithSuffix(name, suffix)) == Stem(name)
  {
    StemSuffixSplit(name);
    SimpleSuffixRoundTrip(Stem(name), suffix);
  }

  /** Appending a single-dot suffix to a non-empty stem gives a name whose
      suffix and stem are exactly those two parts. */
  lemma SimpleSuffixRoundTrip(stem: string, suffix: string)
    requires stem != []
    requires SimpleSuffix(suffix)
    ensures Suffix(stem + suffix) == suffix
    ensures Stem(stem + suffix) == stem
  {
    var name := stem + suffix;
    var head := stem + suffix[..1];
    assert name == head + suffix[1..];
    assert DotFree(suffix[1..]);
    LastDotAppend(head, suffix[1..]);
    var i := LastDot(name);
    assert i == |stem|;
    assert name[i..] == suffix;
    assert name[..i] == stem;
  }

  /** The name has a dot after its first character; for such a name the
      stem of `name + "(n)"` stops at its last dot. */
  predicate HasInnerDot(name: string)
  {
    exists k :: 0 < k < |name| && name[k] == '.'
  }

  predicate DotFree(s: string)
  {
    forall k :: 0 <= k < |s| ==> s[k] != '.'
  }

  /** Appending text without dots does not move the last dot. */
  lemma {:induction false} LastDotAppend(name: string, tail: string)
    requires DotFree(tail)
    ensures LastDot(name + tail) == LastDot(name)
    decreases |tail|
  {
    if tail != [] {
      var whole := name + tail;
      assert whole[|whole| - 1] == tail[|tail| - 1];
      assert whole[..|whole| - 1] == name + tail[..|tail| - 1];
      LastDotAppend(name, tail[..|tail| - 1]);
    } else {
      assert name + tail == name;
    }
  }

  /** A dot anywhere after the first character puts the last dot after it too. */
  lemma InnerDotLastDot(name: string)
    requires HasInnerDot(name)
    ensures LastDot(name) > 0
  {
    var k :| 0 < k < |name| && name[k] == '.';
    LastDotIsLast(name);
    assert LastDot(name) >= k;
  }
}
