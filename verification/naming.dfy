/** The destination names the two collision loops try, in the order they
    try them, and what is known about those sequences of names. Try 0 is
    the plain ".apk" sibling; try n >= 1 is the name the loop builds from
    its counter n. */
module Naming {
  import opened Text
  import opened PurePaths

  /** `path.suffix.lower() == ".zip"`, the test both entry points apply. */
  predicate IsZip(name: string)
  {
    Lower(Suffix(name)) == ".zip"
  }

  /** The counter in parentheses, `f"({counter})"`. */
  function CounterTag(n: nat): string
  {
    "(" + Decimal(n) + ")"
  }

  /** `stem.apk` for n == 0, `stem(n).apk` otherwise. */
  function Tagged(stem: string, n: nat): string
  {
    if n == 0 then stem + ".apk" else stem + CounterTag(n) + ".apk"
  }

  /** Different counters give different names. */
  lemma TaggedInjective(stem: string, a: nat, b: nat)
    requires Tagged(stem, a) == Tagged(stem, b)
    ensures a == b
  {
    var s := Tagged(stem, a);
    if a != 0 && b != 0 {
      assert |Decimal(a)| == |Decimal(b)|;
      assert Decimal(a) == s[|stem| + 1..|s| - 5];
      assert Decimal(b) == s[|stem| + 1..|s| - 5];
      DecimalInjective(a, b);
    }
  }

  /** If the first n tagged names are all taken, the directory holds at
      least n names: the argument that bounds the collision loops. */
  lemma {:induction false} TaggedBound(files: set<string>, stem: string, n: nat)
    requires forall j :: 0 <= j < n ==> Tagged(stem, j) in files
    ensures n <= |files|
  {
    if n > 0 {
      var last := Tagged(stem, n - 1);
      var rest := files - {last};
      forall j | 0 <= j < n - 1
        ensures Tagged(stem, j) in rest
      {
        if Tagged(stem, j) == last {
          TaggedInjective(stem, j, n - 1);
        }
      }
      TaggedBound(rest, stem, n - 1);
    }
  }

  /** The n-th name `fix_apk_file` tries for the file `name`:
      `file_path.with_suffix('.apk')`, then `f"{stem}({counter}).apk"`. */
  function WatchTry(name: string, n: nat): (r: string)
    requires name != []
    ensures r == Tagged(Stem(name), n)
  {
    if n == 0 then WithSuffix(name, ".apk")
    else Stem(name) + CounterTag(n) + ".apk"
  }

  /** The n-th name `rename_zip_to_apk` tries for `base = src.with_suffix("")`:
      `base.with_suffix(".apk")`, then
      `base.with_name(f"{base.name}({counter})").with_suffix(".apk")`. */
  function BatchTry(base: string, n: nat): string
    requires base != []
  {
    if n == 0 then WithSuffix(base, ".apk")
    else WithSuffix(base + CounterTag(n), ".apk")
  }

  /** "(n)" holds no dot. */
  lemma CounterTagDotFree(n: nat)
    ensures DotFree(CounterTag(n))
  {
    var t := CounterTag(n);
    DecimalDigits(n);
    forall k | 0 <= k < |t| ensures t[k] != '.' {
      if 0 < k < |t| - 1 {
        assert t[k] == Decimal(n)[k - 1];
      }
    }
  }

  /** For a base without an inner dot the batch renamer tries exactly the
      names the watcher would: `base.apk`, `base(1).apk`, `base(2).apk`, ... */
  lemma {:induction false} BatchTryUndotted(base: string, n: nat)
    requires base != []
    requires !HasInnerDot(base)
    ensures BatchTry(base, n) == Tagged(base, n)
  {
    NoInnerDotStem(base);
    if n > 0 {
      var tag := CounterTag(n);
      CounterTagDotFree(n);
      LastDotAppend(base, tag);
      NoInnerDotStem(base + tag);
    }
  }

  /** A name without an inner dot is its own stem. */
  lemma NoInnerDotStem(name: string)
    requires LastDot(name) <= 0 || !HasInnerDot(name)
    ensures Stem(name) == name
  {
    var i := LastDot(name);
    if 0 < i < |name| - 1 {
      assert name[i] == '.';
      assert HasInnerDot(name);
    }
  }

  /** For a base with an inner dot every numbered try is the same name: the
      part before the base's last dot, plus ".apk" ("a.b" gives "a.apk" for
      every counter). */
  lemma {:induction false} BatchTryDotted(base: string, n: nat)
    requires HasInnerDot(base)
    requires n >= 1
    ensures 0 < LastDot(base)
    ensures BatchTry(base, n) == base[..LastDot(base)] + ".apk"
  {
    InnerDotLastDot(base);
    var tag := CounterTag(n);
    var named := base + tag;
    var i := LastDot(base);
    CounterTagDotFree(n);
    LastDotAppend(base, tag);
    assert LastDot(named) == i;
    CutStem(named, i);
    assert named[..i] == base[..i];
    assert Stem(named) == base[..i];
  }

  /** The stem of a name whose last dot is strictly inside it ends before that dot. */
  lemma CutStem(name: string, i: int)
    requires i == LastDot(name)
    requires 0 < i < |name| - 1
    ensures Stem(name) == name[..i]
  {
  }

  /** For a base with an inner dot all numbered tries coincide. */
  lemma DottedTriesCoincide(base: string, a: nat, b: nat)
    requires HasInnerDot(base)
    requires a >= 1 && b >= 1
    ensures BatchTry(base, a) == BatchTry(base, b)
  {
    BatchTryDotted(base, a);
    BatchTryDotted(base, b);
  }

  /** `files` makes the batch loop for `base` run forever: the base has an
      inner dot, and both the plain destination and the one every counter
      collapses to are taken. */
  predicate Hangs(files: set<string>, base: string)
  {
    && HasInnerDot(base)
    && BatchTry(base, 0) in files
    && BatchTry(base, 1) in files
  }

  /** When `Hangs` holds no counter ever yields a free name, so
      `while dst.exists()` never exits. */
  lemma {:induction false} HangsForever(files: set<string>, base: string, n: nat)
    requires Hangs(files, base)
    ensures BatchTry(base, n) in files
  {
    if n >= 1 {
      DottedTriesCoincide(base, n, 1);
    }
  }

  /** Finding try n of the watcher taken extends the run of taken tries by one. */
  lemma WatchTakenExtend(files: set<string>, name: string, n: nat)
    requires name != []
    requires forall j :: 0 <= j < n ==> WatchTry(name, j) in files
    requires WatchTry(name, n) in files
    ensures forall j :: 0 <= j < n + 1 ==> WatchTry(name, j) in files
  {
  }

  /** The watcher's loop is bounded: n taken tries need n names. */
  lemma WatchBound(files: set<string>, name: string, n: nat)
    requires name != []
    requires forall j :: 0 <= j < n ==> WatchTry(name, j) in files
    ensures n <= |files|
  {
    forall j | 0 <= j < n ensures Tagged(Stem(name), j) in files {
      assert WatchTry(name, j) in files;
    }
    TaggedBound(files, Stem(name), n);
  }

  /** Try n of the watcher is the first free one: all earlier tries are taken. */
  predicate WatchFirstFree(files: set<string>, name: string, n: nat)
    requires name != []
  {
    && (forall j :: 0 <= j < n ==> WatchTry(name, j) in files)
    && WatchTry(name, n) !in files
  }

  /** Finding try n taken as well extends the run of taken tries by one. */
  lemma BatchTakenExtend(files: set<string>, base: string, n: nat)
    requires base != []
    requires forall j :: 0 <= j < n ==> BatchTry(base, j) in files
    requires BatchTry(base, n) in files
    ensures forall j :: 0 <= j < n + 1 ==> BatchTry(base, j) in files
  {
  }

  /** A first free try rules out the endless loop. */
  lemma FirstFreeNoHang(files: set<string>, base: string, n: nat)
    requires base != []
    requires BatchFirstFree(files, base, n)
    ensures !Hangs(files, base)
  {
    if Hangs(files, base) {
      HangsForever(files, base, n);
    }
  }

  /** Try n of the batch renamer is the first free one. */
  predicate BatchFirstFree(files: set<string>, base: string, n: nat)
    requires base != []
  {
    && (forall j :: 0 <= j < n ==> BatchTry(base, j) in files)
    && BatchTry(base, n) !in files
  }
}
